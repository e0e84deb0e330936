/**
 * pending.py: what the primary blocker of a step says, read off the tables. The kinds of roots are tried in
 * the order in which the report prefers them; the relations of the queries appear only in the proofs.
 */
module PendingCauses {
  import opened Basics
  import opened Bytewise
  import opened Enums
  import opened SafeUpdate
  import opened PendingForest
  import opened PendingRelations

  // ---- The tables ----

  ghost predicate Pends(db: Db, i: Id)
    requires Valid(db)
  {
    && i in db.steps && db.steps[i].state == Pending && !db.nodes[i].detached
    && db.threshold < db.nodes[i].impliedNeed
  }

  /** An input that keeps a step from being dispatched, or from leaving its deferral. */
  ghost predicate LacksInput(db: Db, f: Id, d: Id)
    requires Valid(db) && d in db.steps
  {
    f in db.files &&
    var row := db.files[f];
    var present := row.state == Built || row.state == Confirmed;
    || (Dep(f, d, false) in db.deps && (row.detached || !present))
    || (Dep(f, d, true) in db.deps &&
         (|| row.state == Volatile
          || (!row.detached && (row.state == Planned || row.state == Outdated))
          || (db.nodes[d].deferred && !present)))
  }

  ghost predicate Makes(db: Db, s: Id, f: Id) {
    s in db.steps && (Dep(s, f, true) in db.deps || Dep(s, f, false) in db.deps)
  }

  /** A step that still waits, or one that failed, makes the file. */
  ghost predicate MayStillBeMade(db: Db, f: Id)
    requires Valid(db)
  {
    exists p :: Makes(db, p, f) && (Pends(db, p) || db.steps[p].state == Failed)
  }

  ghost predicate LacksUnits(db: Db, d: Id, name: Bytes) {
    exists units :: Req(d, name, units) in db.reqs && (name in db.available ==> units > db.available[name])
  }

  ghost predicate RunsFreely(db: Db, a: Id)
    requires a in db.steps
  {
    (db.steps[a].state == Running || db.steps[a].state == Succeeded) && db.steps[a].holding == 0
  }

  /** The first creator upwards that does not let its products run, of a step that is not safe. */
  ghost predicate StopsAt(db: Db, d: Id, a: Id)
    requires Valid(db) && d in db.steps
  {
    && !db.steps[d].safe && (db.nodes[d].hasHash ==> !db.steps[d].safeIgnoringHold)
    && exists p :: StopsAlong(db, p, d, a)
  }

  ghost predicate StopsAlong(db: Db, p: seq<Id>, d: Id, a: Id) {
    && CreatorPath(db.steps, p) && |p| >= 2 && p[0] == d && p[|p| - 1] == a && !RunsFreely(db, a)
    && forall k :: 1 <= k < |p| - 1 ==> RunsFreely(db, p[k])
  }

  // ---- The relations of the queries ----

  lemma BlockingMeans(db: Db, f: Id, d: Id)
    requires Valid(db) && Pends(db, d)
    ensures FileBlocks(db, f, d) <==> LacksInput(db, f, d)
  {
  }

  lemma ProducesMeans(db: Db, s: Id, f: Id)
    ensures Produces(db, s, f) <==> Makes(db, s, f)
  {
  }

  lemma ShortMeans(db: Db, d: Id, name: Bytes)
    requires Valid(db) && Pends(db, d)
    ensures Short(db, d, name) <==> LacksUnits(db, d, name)
  {
  }

  lemma WaitsMeans(db: Db, s: Id, d: Id)
    requires Valid(db) && Pends(db, d)
    ensures WaitsForFileOf(db, s, d) <==> exists f :: LacksInput(db, f, d) && Makes(db, s, f)
  {
    forall f ensures FileBlocks(db, f, d) <==> LacksInput(db, f, d) { BlockingMeans(db, f, d); }
    forall f ensures Produces(db, s, f) <==> Makes(db, s, f) { ProducesMeans(db, s, f); }
  }

  lemma DeadMeans(db: Db, f: Id, d: Id)
    requires Valid(db) && Pends(db, d)
    ensures FileBlocks(db, f, d) && Dead(db, f) <==> LacksInput(db, f, d) && !MayStillBeMade(db, f)
  {
    BlockingMeans(db, f, d);
    forall p ensures Produces(db, p, f) <==> Makes(db, p, f) { ProducesMeans(db, p, f); }
    if FileBlocks(db, f, d) {
      if MayStillBeMade(db, f) {
        var p :| Makes(db, p, f) && (Pends(db, p) || db.steps[p].state == Failed);
        assert Produces(db, p, f);
      }
    }
  }

  lemma BrokenAlong(db: Db, p: seq<Id>, d: Id, a: Id)
    requires Valid(db) && d in db.steps && StopsAlong(db, p, d, a)
    ensures BrokenAt(db.steps, d, |p| - 1) && Up(db.steps, d, |p| - 1) == Some(a)
  {
    forall k: nat | k < |p| ensures Up(db.steps, d, k) == Some(p[k]) { PathUp(db.steps, p, k); }
  }

  lemma AlongBroken(db: Db, d: Id, k: nat) returns (p: seq<Id>)
    requires Valid(db) && d in db.steps && BrokenAt(db.steps, d, k)
    ensures StopsAlong(db, p, d, Up(db.steps, d, k).value)
  {
    p := UpPath(db.steps, d, k);
    forall j | 1 <= j < |p| - 1 ensures RunsFreely(db, p[j]) { PathUp(db.steps, p, j); }
  }

  lemma NearestMeans(db: Db, d: Id, a: Id)
    requires Valid(db) && Pends(db, d)
    ensures NearestBroken(db, d, a) <==> StopsAt(db, d, a)
  {
    if StopsAt(db, d, a) {
      var p :| StopsAlong(db, p, d, a);
      BrokenAlong(db, p, d, a);
    }
    if NearestBroken(db, d, a) {
      var k: nat :| BrokenAt(db.steps, d, k) && Up(db.steps, d, k) == Some(a);
      var p := AlongBroken(db, d, k);
    }
  }

  // ---- The causes, in the order of preference ----

  ghost predicate DeadInput(db: Db, d: Id, f: Id)
    requires Valid(db) && d in db.steps
  {
    LacksInput(db, f, d) && !MayStillBeMade(db, f)
  }

  /** Step `s` makes a missing input of `d`, or is the creator that keeps it from running. */
  ghost predicate HeldUpBy(db: Db, d: Id, s: Id)
    requires Valid(db) && d in db.steps
  {
    s in db.steps && ((exists f :: LacksInput(db, f, d) && Makes(db, s, f)) || StopsAt(db, d, s))
  }

  ghost predicate Cause(db: Db, d: Id, b: Blocker)
    requires Valid(db) && d in db.steps
  {
    match b
    case ByFile(f) => DeadInput(db, d, f)
    case ByResource(name) => LacksUnits(db, d, name)
    case ByFailed(s) => HeldUpBy(db, d, s) && db.steps[s].state == Failed
    case ByDeferred(s) => s == d && db.nodes[d].deferred && forall f :: !LacksInput(db, f, d)
    case ByOther(s) => StopsAt(db, d, s) && s in db.steps && !Pends(db, s) && db.steps[s].state != Failed
    case ByStep(s) => HeldUpBy(db, d, s) && Pends(db, s)
    case Runnable(_) => false
  }

  lemma CandidateMeans(db: Db, d: Id, b: Blocker)
    requires Valid(db) && Pends(db, d)
    ensures Candidate(db, d, b) <==> Cause(db, d, b)
  {
    match b
    case ByFile(f) => DeadMeans(db, f, d);
    case ByResource(name) => ShortMeans(db, d, name);
    case ByFailed(s) =>
      WaitsMeans(db, s, d);
      NearestMeans(db, d, s);
    case ByDeferred(s) => forall f ensures FileBlocks(db, f, d) <==> LacksInput(db, f, d) { BlockingMeans(db, f, d); }
    case ByOther(s) => NearestMeans(db, d, s);
    case ByStep(s) =>
      WaitsMeans(db, s, d);
      NearestMeans(db, d, s);
    case Runnable(_) =>
  }

  /** No cause that the report prefers to this kind. */
  ghost predicate Preferred(db: Db, d: Id, b: Blocker)
    requires Valid(db) && d in db.steps
  {
    && (!b.ByFile? ==> forall f :: !DeadInput(db, d, f))
    && (!b.ByFile? && !b.ByResource? ==> forall name :: !LacksUnits(db, d, name))
    && (b.ByDeferred? || b.ByOther? || b.ByStep? || b.Runnable? ==>
          forall s :: !(HeldUpBy(db, d, s) && db.steps[s].state == Failed))
    && (b.ByOther? || b.ByStep? || b.Runnable? ==> db.nodes[d].deferred ==> exists f :: LacksInput(db, f, d))
    && (b.ByStep? || b.Runnable? ==> forall s :: StopsAt(db, d, s) && s in db.steps ==> Pends(db, s))
    && (b.Runnable? ==> forall s :: !(HeldUpBy(db, d, s) && Pends(db, s)))
  }

  /**
   * The primary blocker is a cause of its step, of the first kind that has one: a dead input, a resource, a
   * failed step, a stale deferral, another creator, a pending step; and with none it is runnable.
   */
  lemma PrimaryIsFirstCause(db: Db, d: Id)
    requires Valid(db) && Pends(db, d)
    ensures Preferred(db, d, Primary(db, d))
    ensures if Primary(db, d).Runnable? then Primary(db, d) == Runnable(d) else Cause(db, d, Primary(db, d))
  {
    var b := Primary(db, d);
    if Candidates(db, d) != {} { CandidateMeans(db, d, b); }
    forall f | DeadInput(db, d, f) ensures b.ByFile? { CauseIsRanked(db, d, ByFile(f)); }
    forall name | LacksUnits(db, d, name) ensures b.ByFile? || b.ByResource? { CauseIsRanked(db, d, ByResource(name)); }
    forall s | HeldUpBy(db, d, s) && db.steps[s].state == Failed ensures b.ByFile? || b.ByResource? || b.ByFailed? {
      CauseIsRanked(db, d, ByFailed(s));
    }
    forall s | HeldUpBy(db, d, s) && Pends(db, s) ensures !b.Runnable? { CauseIsRanked(db, d, ByStep(s)); }
    LaterKinds(db, d);
  }

  lemma CauseIsRanked(db: Db, d: Id, o: Blocker)
    requires Valid(db) && Pends(db, d) && Cause(db, d, o)
    ensures Primary(db, d) == o || Before(db, Primary(db, d), o)
    ensures Kind(Primary(db, d)) <= Kind(o) && !Primary(db, d).Runnable?
  {
    CandidateMeans(db, d, o);
    assert o in Candidates(db, d);
    assert Candidate(db, d, Primary(db, d));
  }

  lemma LaterKinds(db: Db, d: Id)
    requires Valid(db) && Pends(db, d)
    ensures var b := Primary(db, d);
            && (b.ByOther? || b.ByStep? || b.Runnable? ==> db.nodes[d].deferred ==> exists f :: LacksInput(db, f, d))
            && (b.ByStep? || b.Runnable? ==> forall s :: StopsAt(db, d, s) && s in db.steps ==> Pends(db, s))
  {
    var b := Primary(db, d);
    if db.nodes[d].deferred && forall f :: !LacksInput(db, f, d) { CauseIsRanked(db, d, ByDeferred(d)); }
    forall s | StopsAt(db, d, s) && s in db.steps && !Pends(db, s) ensures !b.ByStep? && !b.Runnable? {
      if db.steps[s].state == Failed {
        assert HeldUpBy(db, d, s);
        CauseIsRanked(db, d, ByFailed(s));
      } else {
        CauseIsRanked(db, d, ByOther(s));
      }
    }
  }

  /** Among causes of the same kind the smaller label decides, then the smaller id. */
  lemma PrimaryTieBreak(db: Db, d: Id, f: Id, s: Id, name: Bytes)
    requires Valid(db) && Pends(db, d)
    ensures Primary(db, d).ByResource? && LacksUnits(db, d, name) && name != Primary(db, d).name ==>
              Less(Primary(db, d).name, name)
    ensures Primary(db, d).ByFile? && DeadInput(db, d, f) && f != Primary(db, d).file ==>
              var g := Primary(db, d).file;
              g in db.files && f in db.files
              && (Less(db.files[g].path, db.files[f].path) || (db.files[g].path == db.files[f].path && g < f))
    ensures Primary(db, d).ByStep? && HeldUpBy(db, d, s) && Pends(db, s) && s != Primary(db, d).step ==>
              var t := Primary(db, d).step;
              t in db.nodes && s in db.nodes
              && (Less(db.nodes[t].command, db.nodes[s].command) || (db.nodes[t].command == db.nodes[s].command && t < s))
    ensures Primary(db, d).ByFailed? && HeldUpBy(db, d, s) && db.steps[s].state == Failed && s != Primary(db, d).step ==>
              var t := Primary(db, d).step;
              t in db.nodes && s in db.nodes
              && (Less(db.nodes[t].command, db.nodes[s].command) || (db.nodes[t].command == db.nodes[s].command && t < s))
  {
    if Candidates(db, d) != {} { CandidateMeans(db, d, Primary(db, d)); }
    if DeadInput(db, d, f) { CauseIsRanked(db, d, ByFile(f)); }
    if LacksUnits(db, d, name) { CauseIsRanked(db, d, ByResource(name)); }
    if HeldUpBy(db, d, s) && Pends(db, s) { CauseIsRanked(db, d, ByStep(s)); }
    if HeldUpBy(db, d, s) && db.steps[s].state == Failed { CauseIsRanked(db, d, ByFailed(s)); }
  }

  /** A step is attributed to a file only if nothing that could still run, or that failed, makes the file. */
  lemma AttributedToDeadFile(db: Db, d: Id, f: Id)
    requires Valid(db) && Pends(db, d) && AttributedTo(Blockers(db), d, ByFile(f))
    ensures f in db.files && !MayStillBeMade(db, f)
  {
    var k: nat :| EndsAt(Blockers(db), d, k, ByFile(f));
    var e := Chain(Blockers(db), d, k).value;
    assert Pends(db, e);
    PrimaryIsFirstCause(db, e);
  }

  /** A pending step all of whose missing inputs may still be made, one of them by a failed step, blames a failed step. */
  lemma FailedProducerIsBlamed(db: Db, d: Id, f: Id, p: Id)
    requires Valid(db) && Pends(db, d) && (forall name :: !LacksUnits(db, d, name))
    requires forall g :: LacksInput(db, g, d) ==> MayStillBeMade(db, g)
    requires LacksInput(db, f, d) && Makes(db, p, f) && db.steps[p].state == Failed
    ensures Primary(db, d).ByFailed? && Primary(db, d).step in db.steps && db.steps[Primary(db, d).step].state == Failed
  {
    PrimaryIsFirstCause(db, d);
    assert HeldUpBy(db, d, p);
  }
}
