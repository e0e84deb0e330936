/**
 * What the choice of the next step means for the tables that it does not read: the dependencies and files
 * behind `_ready`, and the creators behind the two safety columns.
 */
module DispatchSafety {
  import opened Basics
  import opened Bytewise
  import opened Enums
  import S = SafeUpdate
  import R = SafeRuns
  import P = PendingRelations
  import C = PendingCauses
  import opened Dispatch

  /** The input that makes a step not ready. */
  ghost predicate Refuses(db: P.Db, f: Id, i: Id, dynamic: bool) {
    && f in db.files && P.Dep(f, i, dynamic) in db.deps
    && UnavailableInput(db.files[f].state, db.files[f].detached, dynamic)
  }

  /** The columns of a step that dispatch reads, and those of the pending report, agree. */
  ghost predicate SameRow(s: System, db: P.Db, i: Id)
    requires P.Valid(db) && i in s.steps && i in db.steps
  {
    var r, row, node := s.steps[i], db.steps[i], db.nodes[i];
    && r.state == row.state && r.safe == row.safe && r.safeIgnoringHold == row.safeIgnoringHold
    && r.hasHash == node.hasHash && r.deferred == node.deferred && r.detached == node.detached
    && r.impliedNeed == node.impliedNeed
    && (r.ready <==> forall f, dynamic :: !Refuses(db, f, i, dynamic))
    && (forall name, units :: P.Req(i, name, units) in db.reqs <==>
          name in r.resources && r.resources[name] == units)
  }

  /** The same database, seen by the dispatcher and by the report. */
  ghost predicate SameTables(s: System, db: P.Db)
    requires P.Valid(db)
  {
    && s.steps.Keys == db.steps.Keys && s.available == db.available
    && s.threshold == db.threshold && s.threshold >= OPTIONAL
    && forall i :: i in s.steps ==> SameRow(s, db, i)
  }

  /** Read off the tables: a required step that may be checked, and run but for the resources. */
  ghost predicate Prepared(db: P.Db, i: Id)
    requires P.Valid(db)
  {
    && C.Pends(db, i) && (db.steps[i].safe || (db.nodes[i].hasHash && db.steps[i].safeIgnoringHold))
    && !db.nodes[i].deferred && (forall f :: !C.LacksInput(db, f, i))
  }

  /** It can start when nothing runs. */
  ghost predicate CanStart(db: P.Db, i: Id)
    requires P.Valid(db)
  {
    Prepared(db, i) && (db.nodes[i].hasHash || forall name :: !C.LacksUnits(db, i, name))
  }

  /** The running steps leave too little of a resource. */
  ghost predicate LacksFree(s: System, db: P.Db, i: Id, name: Bytes) {
    exists units :: P.Req(i, name, units) in db.reqs
                    && (name !in db.available || db.available[name] < UnitsRunning(s, name) + units)
  }

  /** It can start next to the steps that run. */
  ghost predicate CanStartNow(s: System, db: P.Db, i: Id)
    requires P.Valid(db)
  {
    Prepared(db, i) && (db.nodes[i].hasHash || forall name :: !LacksFree(s, db, i, name))
  }

  lemma LacksIsRefused(db: P.Db, f: Id, i: Id)
    requires P.Valid(db) && i in db.steps && !db.nodes[i].deferred
    ensures C.LacksInput(db, f, i) <==> Refuses(db, f, i, false) || Refuses(db, f, i, true)
  {
  }

  lemma ReadyMeans(s: System, db: P.Db, i: Id)
    requires P.Valid(db) && i in s.steps && i in db.steps && SameRow(s, db, i) && !db.nodes[i].deferred
    ensures s.steps[i].ready <==> forall f :: !C.LacksInput(db, f, i)
  {
    forall f ensures C.LacksInput(db, f, i) <==> Refuses(db, f, i, false) || Refuses(db, f, i, true) {
      LacksIsRefused(db, f, i);
    }
    if f, dynamic :| Refuses(db, f, i, dynamic) {
      assert C.LacksInput(db, f, i);
    }
  }

  lemma NothingRuns(s: System, name: Bytes)
    requires forall i :: i in s.steps ==> s.steps[i].state != Running
    ensures UnitsRunning(s, name) == 0
  {
    if InState(s, Running) != {} { var i := Member(InState(s, Running)); }
    assert InState(s, Running) == {};
  }

  /** While nothing runs, both notions agree. */
  lemma IdleCanStart(s: System, db: P.Db, i: Id)
    requires P.Valid(db) && forall j :: j in s.steps ==> s.steps[j].state != Running
    ensures CanStartNow(s, db, i) <==> CanStart(db, i)
  {
    forall name ensures LacksFree(s, db, i, name) <==> C.LacksUnits(db, i, name) { NothingRuns(s, name); }
  }

  lemma FitsMeans(s: System, db: P.Db, i: Id)
    requires P.Valid(db) && SameTables(s, db) && i in s.steps
    ensures ResourceUnavailable(s, i) <==> exists name :: LacksFree(s, db, i, name)
  {
    assert SameRow(s, db, i);
    if ResourceUnavailable(s, i) {
      var name :| name in s.steps[i].resources &&
                  (name !in s.available || s.available[name] - UnitsRunning(s, name) < s.steps[i].resources[name]);
      assert P.Req(i, name, s.steps[i].resources[name]) in db.reqs;
      assert LacksFree(s, db, i, name);
    }
  }

  lemma EligibleMeans(s: System, db: P.Db, i: Id)
    requires P.Valid(db) && SameTables(s, db)
    ensures Eligible(s, i) <==> CanStartNow(s, db, i)
  {
    if i in s.steps {
      assert SameRow(s, db, i);
      FitsMeans(s, db, i);
      if !db.nodes[i].deferred { ReadyMeans(s, db, i); }
    }
  }

  /**
   * A step is handed out if and only if one can start, and only such a step: it is pending, required, attached,
   * safe and not deferred, lacks no input, and no resource next to what runs unless it has a hash to check.
   */
  lemma PopIffSomeCanStart(s: System, db: P.Db)
    requires P.Valid(db) && SameTables(s, db)
    ensures NextStep(s).Some? <==> !s.draining && exists i :: CanStartNow(s, db, i)
    ensures NextStep(s).Some? ==> CanStartNow(s, db, NextStep(s).value)
  {
    forall i ensures Eligible(s, i) <==> CanStartNow(s, db, i) { EligibleMeans(s, db, i); }
    if i :| CanStartNow(s, db, i) { assert i in EligibleSteps(s); }
  }

  lemma NothingRefused(db: P.Db, i: Id)
    requires forall f, dynamic :: !Refuses(db, f, i, dynamic)
    ensures forall f, dynamic :: f in db.files && P.Dep(f, i, dynamic) in db.deps ==>
              !UnavailableInput(db.files[f].state, db.files[f].detached, dynamic)
  {
    forall f, dynamic | f in db.files && P.Dep(f, i, dynamic) in db.deps
      ensures !UnavailableInput(db.files[f].state, db.files[f].detached, dynamic)
    {
      assert !Refuses(db, f, i, dynamic);
    }
  }

  /** The report's notion of what dispatch could have picked up is what can start while nothing runs. */
  lemma DispatchableMeans(db: P.Db, i: Id)
    requires P.Valid(db) && C.Pends(db, i)
    ensures P.Dispatchable(db, i) <==> CanStart(db, i)
  {
    forall name ensures P.Short(db, i, name) <==> C.LacksUnits(db, i, name) { C.ShortMeans(db, i, name); }
    if !db.nodes[i].deferred {
      forall f ensures C.LacksInput(db, f, i) <==> Refuses(db, f, i, false) || Refuses(db, f, i, true) {
        LacksIsRefused(db, f, i);
      }
    }
    if P.Dispatchable(db, i) {
      forall f ensures !Refuses(db, f, i, false) && !Refuses(db, f, i, true) {}
    }
    if CanStart(db, i) {
      forall f, dynamic ensures !Refuses(db, f, i, dynamic) { assert !C.LacksInput(db, f, i); }
      NothingRefused(db, i);
    }
  }

  // ---- The creators of what is handed out ----

  ghost predicate SameSafety(s: System, t: S.Table) {
    s.steps.Keys == t.Keys && forall i :: i in t ==>
      s.steps[i].state == t[i].state && s.steps[i].safe == t[i].safe && s.steps[i].safeIgnoringHold == t[i].safeIgnoringHold
  }

  /**
   * Over every run from an empty table: what is handed out after an update has only creators that run or have
   * succeeded, and none of them holds, unless the step has a hash to check.
   */
  lemma PoppedHasRunningCreators(tables: seq<S.Table>, events: seq<R.Event>, n: nat, s: System)
    requires R.IsRun(tables, events) && tables[0] == map[] && n < |events| && events[n].Update?
    requires SameSafety(s, tables[n + 1]) && NextStep(s).Some?
    ensures var i := NextStep(s).value;
            i in tables[n + 1] && S.CreatorsRun(tables[n + 1], i, s.steps[i].hasHash)
  {
    var i := NextStep(s).value;
    assert Eligible(s, i);
    R.SafeMeansCreatorsRun(tables, events, n, i);
  }
}
