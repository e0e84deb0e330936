/**
 * pending.py: the relations that explain why steps remained pending, and the primary blocker of each.
 * A table of the database is a map or a set; each INSERT statement is one relation over these.
 */
module PendingRelations {
  import opened Basics
  import opened Bytewise
  import opened Enums
  import opened SafeUpdate
  import opened PendingForest

  datatype FileNode = FileNode(path: Bytes, state: FileState, detached: bool)

  datatype StepNode = StepNode(command: Bytes, detached: bool, impliedNeed: int, hasHash: bool, deferred: bool)

  datatype Dep = Dep(source: Id, sink: Id, dynamic: bool)

  datatype Req = Req(step: Id, name: Bytes, units: nat)

  /** `steps` holds the state, safety and creator columns of the step table. */
  datatype Db = Db(
    steps: Table,
    nodes: map<Id, StepNode>,
    files: map<Id, FileNode>,
    deps: set<Dep>,
    reqs: set<Req>,
    available: map<Bytes, nat>,
    threshold: int)

  ghost predicate Valid(db: Db) {
    db.nodes.Keys == db.steps.Keys && db.files.Keys !! db.steps.Keys
  }

  // ---- The scratch tables ----

  predicate IsPending(db: Db, i: Id)
    requires Valid(db)
  {
    i in db.steps && db.steps[i].state == Pending && db.nodes[i].impliedNeed > db.threshold && !db.nodes[i].detached
  }

  predicate Unsafe(db: Db, i: Id)
    requires Valid(db) && IsPending(db, i)
  {
    !(db.steps[i].safe || (db.nodes[i].hasHash && db.steps[i].safeIgnoringHold))
  }

  /** The test that deferred a step, for inputs that the ordinary test lets pass. */
  predicate UnavailableWhenDeferred(f: FileNode, dynamic: bool) {
    dynamic && f.state !in {Confirmed, Built}
  }

  ghost predicate FileBlocks(db: Db, f: Id, d: Id)
    requires Valid(db)
  {
    IsPending(db, d) && f in db.files
    && exists dynamic :: Dep(f, d, dynamic) in db.deps
         && (UnavailableInput(db.files[f].state, db.files[f].detached, dynamic)
             || (db.nodes[d].deferred && UnavailableWhenDeferred(db.files[f], dynamic)))
  }

  ghost predicate Produces(db: Db, s: Id, f: Id) {
    s in db.steps && exists dynamic :: Dep(s, f, dynamic) in db.deps
  }

  /** A blocking file that no pending step and no failed step produces. */
  ghost predicate Dead(db: Db, f: Id)
    requires Valid(db)
  {
    && (exists d :: FileBlocks(db, f, d))
    && !(exists p :: Produces(db, p, f) && (IsPending(db, p) || db.steps[p].state == Failed))
  }

  /** The recursive query `up` reaches the `k`-th creator and stops there because that one is broken. */
  ghost predicate BrokenAt(t: Table, d: Id, k: nat)
    requires d in t
  {
    && k >= 1 && Up(t, d, k).Some? && !Unbroken(t, Up(t, d, k).value, true)
    && forall j: nat :: 1 <= j < k && Up(t, d, j).Some? ==> Unbroken(t, Up(t, d, j).value, true)
  }

  ghost predicate NearestBroken(db: Db, d: Id, a: Id)
    requires Valid(db)
  {
    IsPending(db, d) && Unsafe(db, d) && exists k: nat :: BrokenAt(db.steps, d, k) && Up(db.steps, d, k) == Some(a)
  }

  ghost predicate Short(db: Db, d: Id, name: Bytes)
    requires Valid(db)
  {
    IsPending(db, d)
    && exists units :: Req(d, name, units) in db.reqs && (name !in db.available || db.available[name] < units)
  }

  ghost predicate WaitsForFileOf(db: Db, s: Id, d: Id)
    requires Valid(db)
  {
    exists f :: FileBlocks(db, f, d) && Produces(db, s, f)
  }

  ghost predicate StepBlocks(db: Db, s: Id, d: Id)
    requires Valid(db)
  {
    IsPending(db, s) && (WaitsForFileOf(db, s, d) || NearestBroken(db, d, s))
  }

  ghost predicate HasBlockingFile(db: Db, d: Id)
    requires Valid(db)
  {
    exists f :: FileBlocks(db, f, d)
  }

  // ---- The nearest broken creator ----

  /** At most one row per step, which makes `dst_step` a primary key of `pend_unsafe_anc`. */
  lemma NearestBrokenIsUnique(db: Db, d: Id, a: Id, b: Id)
    requires Valid(db) && NearestBroken(db, d, a) && NearestBroken(db, d, b)
    ensures a == b
  {
    var j: nat :| BrokenAt(db.steps, d, j) && Up(db.steps, d, j) == Some(a);
    var k: nat :| BrokenAt(db.steps, d, k) && Up(db.steps, d, k) == Some(b);
    assert j == k;
  }

  lemma {:induction false} SomeBroken(t: Table, d: Id, k: nat) returns (j: nat)
    requires d in t && k >= 1 && Up(t, d, k).Some? && !Unbroken(t, Up(t, d, k).value, true)
    ensures j <= k && BrokenAt(t, d, j)
  {
    if i: nat :| 1 <= i < k && Up(t, d, i).Some? && !Unbroken(t, Up(t, d, i).value, true) {
      j := SomeBroken(t, d, i);
    } else {
      j := k;
    }
  }

  /** An unsafe step has a nearest broken creator exactly when some creator is broken. */
  lemma HasNearestIffBroken(db: Db, d: Id)
    requires Valid(db) && IsPending(db, d) && Unsafe(db, d)
    ensures (exists a :: NearestBroken(db, d, a)) <==> !AllCreatorsUnbroken(db.steps, d, true)
  {
    if !AllCreatorsUnbroken(db.steps, d, true) {
      var k: nat :| k >= 1 && Up(db.steps, d, k).Some? && !Unbroken(db.steps, Up(db.steps, d, k).value, true);
      var j := SomeBroken(db.steps, d, k);
      assert NearestBroken(db, d, Up(db.steps, d, j).value);
    }
  }

  // ---- Candidates and the primary blocker ----

  ghost predicate Candidate(db: Db, d: Id, b: Blocker)
    requires Valid(db)
  {
    && IsPending(db, d)
    && match b
       case ByFile(f) => FileBlocks(db, f, d) && Dead(db, f)
       case ByResource(name) => Short(db, d, name)
       case ByFailed(s) =>
         s in db.steps && db.steps[s].state == Failed && (WaitsForFileOf(db, s, d) || NearestBroken(db, d, s))
       case ByDeferred(s) => s == d && db.nodes[d].deferred && !HasBlockingFile(db, d)
       case ByOther(a) => NearestBroken(db, d, a) && !IsPending(db, a) && db.steps[a].state != Failed
       case ByStep(s) => StepBlocks(db, s, d)
       case Runnable(_) => false
  }

  function SrcLabel(db: Db, b: Blocker): Bytes {
    match b
    case ByFile(f) => if f in db.files then db.files[f].path else []
    case ByResource(name) => name
    case ByFailed(s) => if s in db.nodes then db.nodes[s].command else []
    case ByStep(s) => if s in db.nodes then db.nodes[s].command else []
    case _ => []
  }

  /** Names of resources are unique, so that their generated ids never decide. */
  function Src(b: Blocker): int {
    match b
    case ByFile(f) => f
    case ByResource(_) => 0
    case ByFailed(s) => s
    case ByDeferred(s) => s
    case ByOther(s) => s
    case Runnable(s) => s
    case ByStep(s) => s
  }

  /** ORDER BY kind, src_label, src. */
  predicate Before(db: Db, a: Blocker, b: Blocker) {
    || Kind(a) < Kind(b)
    || (Kind(a) == Kind(b)
        && (Less(SrcLabel(db, a), SrcLabel(db, b)) || (SrcLabel(db, a) == SrcLabel(db, b) && Src(a) < Src(b))))
  }

  lemma BeforeTotal(db: Db, a: Blocker, b: Blocker)
    requires a != b
    ensures Before(db, a, b) || Before(db, b, a)
  {
    LessTotal(SrcLabel(db, a), SrcLabel(db, b));
  }

  lemma BeforeTransitive(db: Db, a: Blocker, b: Blocker, c: Blocker)
    requires Before(db, a, b) && Before(db, b, c)
    ensures Before(db, a, c)
  {
    if Less(SrcLabel(db, a), SrcLabel(db, b)) && Less(SrcLabel(db, b), SrcLabel(db, c)) {
      LessTransitive(SrcLabel(db, a), SrcLabel(db, b), SrcLabel(db, c));
    }
  }

  lemma BeforeIrreflexive(db: Db, a: Blocker)
    ensures !Before(db, a, a)
  {
    LessIrreflexive(SrcLabel(db, a));
  }

  ghost function Nodes(db: Db): set<Blocker> {
    (set f | f in db.files :: ByFile(f)) + (set r | r in db.reqs :: ByResource(r.name))
    + (set s | s in db.steps :: ByFailed(s)) + (set s | s in db.steps :: ByDeferred(s))
    + (set s | s in db.steps :: ByOther(s)) + (set s | s in db.steps :: ByStep(s))
  }

  ghost function Candidates(db: Db, d: Id): (c: set<Blocker>)
    requires Valid(db)
    ensures forall b :: b in c <==> Candidate(db, d, b)
  {
    forall b | Candidate(db, d, b) ensures b in Nodes(db) { CandidateIsNode(db, d, b); }
    set b | b in Nodes(db) && Candidate(db, d, b)
  }

  lemma CandidateIsNode(db: Db, d: Id, b: Blocker)
    requires Valid(db) && Candidate(db, d, b)
    ensures b in Nodes(db)
  {
    match b
    case ByResource(name) =>
      var units :| Req(d, name, units) in db.reqs;
      assert Req(d, name, units).name == name;
    case _ =>
  }

  ghost predicate IsPrimary(db: Db, b: Blocker, c: set<Blocker>) {
    b in c && forall o :: o in c && o != b ==> Before(db, b, o)
  }

  lemma {:induction false} PrimaryExists(db: Db, c: set<Blocker>) returns (b: Blocker)
    requires c != {}
    ensures IsPrimary(db, b, c)
  {
    b :| b in c;
    var rest := c - {b};
    if rest == {} {
      assert c == {b};
    } else {
      var r := PrimaryExists(db, rest);
      BeforeTotal(db, b, r);
      if Before(db, b, r) {
        forall o | o in c && o != b ensures Before(db, b, o) {
          if o != r { BeforeTransitive(db, b, r, o); }
        }
      } else {
        b := r;
      }
    }
  }

  /** Exactly one candidate is ranked first: the choice of ROW_NUMBER does not depend on the order of the rows. */
  lemma PrimaryIsUnique(db: Db, a: Blocker, b: Blocker, c: set<Blocker>)
    requires IsPrimary(db, a, c) && IsPrimary(db, b, c)
    ensures a == b
  {
    if a != b {
      BeforeTransitive(db, a, b, a);
      BeforeIrreflexive(db, a);
    }
  }

  /** `pend_blocker`: the first candidate, or RUNNABLE when there is none. */
  ghost function Primary(db: Db, d: Id): (b: Blocker)
    requires Valid(db) && IsPending(db, d)
    ensures Candidates(db, d) == {} ==> b == Runnable(d)
    ensures Candidates(db, d) != {} ==> IsPrimary(db, b, Candidates(db, d))
  {
    var c := Candidates(db, d);
    if c == {} then Runnable(d)
    else
      assert exists b :: IsPrimary(db, b, c) by { var b := PrimaryExists(db, c); }
      var b :| IsPrimary(db, b, c);
      b
  }

  // ---- The classification is complete ----

  /** Every blocking file is dead, or some pending or failed step produces it. */
  lemma BlockingFileHasCause(db: Db, f: Id, d: Id)
    requires Valid(db) && FileBlocks(db, f, d)
    ensures Candidates(db, d) != {}
  {
    if Dead(db, f) {
      assert ByFile(f) in Candidates(db, d);
    } else {
      var p :| Produces(db, p, f) && (IsPending(db, p) || db.steps[p].state == Failed);
      assert WaitsForFileOf(db, p, d);
      assert ByStep(p) in Candidates(db, d) || ByFailed(p) in Candidates(db, d);
    }
  }

  lemma NearestBrokenIsCause(db: Db, d: Id, a: Id)
    requires Valid(db) && NearestBroken(db, d, a)
    ensures Candidates(db, d) != {}
  {
    assert ByFailed(a) in Candidates(db, d) || ByStep(a) in Candidates(db, d) || ByOther(a) in Candidates(db, d);
  }

  /** The `runnable` bucket holds the steps without any cause, and no others. */
  lemma RunnableIff(db: Db, d: Id)
    requires Valid(db) && IsPending(db, d)
    ensures Primary(db, d) == Runnable(d) <==>
              && !HasBlockingFile(db, d)
              && !(exists name :: Short(db, d, name))
              && !(exists a :: NearestBroken(db, d, a))
              && !db.nodes[d].deferred
  {
    if f :| FileBlocks(db, f, d) { BlockingFileHasCause(db, f, d); }
    if name :| Short(db, d, name) { assert ByResource(name) in Candidates(db, d); }
    if a :| NearestBroken(db, d, a) { NearestBrokenIsCause(db, d, a); }
    if db.nodes[d].deferred && !HasBlockingFile(db, d) { assert ByDeferred(d) in Candidates(db, d); }
    if Candidates(db, d) != {} {
      var b := Primary(db, d);
      assert Candidate(db, d, b);
      CandidateIsCause(db, d, b);
    }
  }

  lemma CandidateIsCause(db: Db, d: Id, b: Blocker)
    requires Valid(db) && Candidate(db, d, b)
    ensures !b.Runnable?
    ensures HasBlockingFile(db, d) || (exists name :: Short(db, d, name)) || (exists a :: NearestBroken(db, d, a))
            || db.nodes[d].deferred
  {
  }

  /** What dispatch asks of a pending step: STEP_DISPATCH_WHERE, readiness, and resources unless it can be skipped. */
  ghost predicate Dispatchable(db: Db, d: Id)
    requires Valid(db) && IsPending(db, d)
  {
    && !Unsafe(db, d) && !db.nodes[d].deferred
    && (forall f, dynamic :: f in db.files && Dep(f, d, dynamic) in db.deps ==>
          !UnavailableInput(db.files[f].state, db.files[f].detached, dynamic))
    && (db.nodes[d].hasHash || forall name :: !Short(db, d, name))
  }

  /**
   * The bucket holds what dispatch could have picked up, but for two differences: an unsafe step whose
   * creators are all unbroken (a stale zero) is in it, and a step with a hash that lacks a resource is not.
   */
  lemma RunnableVersusDispatch(db: Db, d: Id)
    requires Valid(db) && IsPending(db, d)
    ensures Primary(db, d) == Runnable(d) && !(Unsafe(db, d) && AllCreatorsUnbroken(db.steps, d, true)) ==>
              Dispatchable(db, d)
    ensures Dispatchable(db, d) && !(db.nodes[d].hasHash && exists name :: Short(db, d, name)) ==>
              Primary(db, d) == Runnable(d)
  {
    RunnableIff(db, d);
    if Unsafe(db, d) { HasNearestIffBroken(db, d); }
    forall f, dynamic | f in db.files && Dep(f, d, dynamic) in db.deps
                        && UnavailableInput(db.files[f].state, db.files[f].detached, dynamic)
      ensures FileBlocks(db, f, d)
    {
    }
  }

  // ---- The forest of primary blockers ----

  ghost function PendingSteps(db: Db): set<Id>
    requires Valid(db)
  {
    set d | d in db.steps && IsPending(db, d)
  }

  ghost function Blockers(db: Db): (f: PendingForest.Forest)
    requires Valid(db)
    ensures f.Keys == PendingSteps(db) && Closed(f)
  {
    var f := map d | d in PendingSteps(db) :: Primary(db, d);
    assert forall d :: d in f && f[d].ByStep? ==> Candidate(db, d, f[d]);
    f
  }

  /** Every pending step is counted once: under the kind of its root, or as cyclic. */
  lemma PendingPartition(db: Db)
    requires Valid(db)
    ensures var f := Blockers(db);
            |OfKind(f, 0)| + |OfKind(f, 1)| + |OfKind(f, 2)| + |OfKind(f, 3)| + |OfKind(f, 4)| + |OfKind(f, 5)|
              + |Cyclic(f)| == |PendingSteps(db)|
  {
    var f := Blockers(db);
    AttributionIsPartition(f);
    assert Totals(f, 1) == |OfKind(f, 0)| && Totals(f, 2) == Totals(f, 1) + |OfKind(f, 1)|;
    assert Totals(f, 3) == Totals(f, 2) + |OfKind(f, 2)| && Totals(f, 4) == Totals(f, 3) + |OfKind(f, 3)|;
    assert Totals(f, 5) == Totals(f, 4) + |OfKind(f, 4)| && Totals(f, 6) == Totals(f, 5) + |OfKind(f, 5)|;
  }

  /** Root kinds win: a step with any cause of its own is never attributed through another step. */
  lemma RootComesFirst(db: Db, d: Id, b: Blocker)
    requires Valid(db) && Candidate(db, d, b) && !b.ByStep?
    ensures Candidates(db, d) != {} && !Primary(db, d).ByStep?
  {
    assert b in Candidates(db, d);
    assert Primary(db, d) == b || Before(db, Primary(db, d), b);
  }

  lemma RootsWin(db: Db, d: Id, b: Blocker)
    requires Valid(db) && Candidate(db, d, b) && !b.ByStep?
    ensures !Primary(db, d).ByStep? && AttributedTo(Blockers(db), d, Primary(db, d))
  {
    var p := Primary(db, d);
    RootComesFirst(db, d, b);
    assert Blockers(db)[d] == p;
    OwnRoot(Blockers(db), d);
  }
}
