/** pending.py: the exact closure of one root, and how it bounds the steps attributed to that root. */
module PendingClosure {
  import opened Basics
  import opened PendingForest
  import opened PendingRelations

  type Edges = set<(Id, Id)>

  // ---- The exact closure ----

  ghost predicate ReachedIn(edges: Edges, seeds: set<Id>, i: Id, k: nat)
    decreases k
  {
    if k == 0 then i in seeds
    else exists j :: (j, i) in edges && ReachedIn(edges, seeds, j, k - 1)
  }

  ghost predicate Reached(edges: Edges, seeds: set<Id>, i: Id) {
    exists k: nat :: ReachedIn(edges, seeds, i, k)
  }

  function Targets(edges: Edges): set<Id> {
    set e | e in edges :: e.1
  }

  ghost function Closure(edges: Edges, seeds: set<Id>): (c: set<Id>)
    ensures forall i :: i in c <==> Reached(edges, seeds, i)
  {
    forall i | Reached(edges, seeds, i) ensures i in seeds + Targets(edges) {
      var k: nat :| ReachedIn(edges, seeds, i, k);
      if k > 0 {
        var j :| (j, i) in edges && ReachedIn(edges, seeds, j, k - 1);
        assert (j, i).1 in Targets(edges);
      }
    }
    set i | i in seeds + Targets(edges) && Reached(edges, seeds, i)
  }

  lemma ReachedStep(edges: Edges, seeds: set<Id>, j: Id, i: Id)
    requires Reached(edges, seeds, j) && (j, i) in edges
    ensures Reached(edges, seeds, i)
  {
    var k: nat :| ReachedIn(edges, seeds, j, k);
    assert ReachedIn(edges, seeds, i, k + 1);
  }

  lemma SeedReached(edges: Edges, seeds: set<Id>, i: Id)
    requires i in seeds
    ensures Reached(edges, seeds, i)
  {
    assert ReachedIn(edges, seeds, i, 0);
  }

  lemma {:induction false} ClosedContainsReached(edges: Edges, seeds: set<Id>, s: set<Id>, i: Id, k: nat)
    requires seeds <= s && (forall e :: e in edges && e.0 in s ==> e.1 in s) && ReachedIn(edges, seeds, i, k)
    ensures i in s
    decreases k
  {
    if k > 0 {
      var j :| (j, i) in edges && ReachedIn(edges, seeds, j, k - 1);
      ClosedContainsReached(edges, seeds, s, j, k - 1);
      assert (j, i).0 in s;
    }
  }

  lemma Shrinks(a: set<Id>, b: set<Id>, j: Id)
    requires a <= b && j in b && j !in a
    ensures |a| < |b|
  {
    SubsetSize(a, b - {j});
  }

  /** Whoever starts outside a set and arrives in it crosses its border. */
  lemma {:induction false} Crossing(edges: Edges, seeds: set<Id>, inside: set<Id>, i: Id, k: nat) returns (s: Id, d: Id)
    requires seeds !! inside && i in inside && ReachedIn(edges, seeds, i, k)
    ensures (s, d) in edges && s !in inside && d in inside
    decreases k
  {
    var j :| (j, i) in edges && ReachedIn(edges, seeds, j, k - 1);
    if j in inside {
      s, d := Crossing(edges, seeds, inside, j, k - 1);
    } else {
      s, d := j, i;
    }
  }

  /** What was taken from the queue has all its successors in the result. */
  ghost predicate ReachInv(edges: Edges, seeds: set<Id>, reach: set<Id>, queue: set<Id>) {
    && queue <= reach && seeds <= reach
    && (forall i :: i in reach ==> Reached(edges, seeds, i))
    && (forall e :: e in edges && e.0 in reach && e.0 !in queue ==> e.1 in reach)
  }

  /** The rows that the recursive step adds for `j`. */
  function NextRows(edges: Edges, j: Id, reach: set<Id>): set<Id> {
    set e | e in edges && e.0 == j && e.1 !in reach :: e.1
  }

  lemma ReachStep(edges: Edges, seeds: set<Id>, reach: set<Id>, queue: set<Id>, j: Id)
    requires ReachInv(edges, seeds, reach, queue) && j in queue
    ensures ReachInv(edges, seeds, reach + NextRows(edges, j, reach), queue - {j} + NextRows(edges, j, reach))
  {
    var next := NextRows(edges, j, reach);
    forall i | i in next ensures Reached(edges, seeds, i) {
      assert (j, i) in edges;
      ReachedStep(edges, seeds, j, i);
    }
    forall e | e in edges && e.0 in reach + next && e.0 !in queue - {j} + next ensures e.1 in reach + next {
      if e.0 == j && e.1 !in reach { assert e.1 in next; }
    }
  }

  lemma ReachDone(edges: Edges, seeds: set<Id>, reach: set<Id>)
    requires ReachInv(edges, seeds, reach, {})
    ensures reach == Closure(edges, seeds)
  {
    forall i | Reached(edges, seeds, i) ensures i in reach {
      var k: nat :| ReachedIn(edges, seeds, i, k);
      ClosedContainsReached(edges, seeds, reach, i, k);
    }
    assert forall i :: i in reach <==> i in Closure(edges, seeds);
  }

  /** The recursive query of `_exact_counts` for one root: `UNION` drops the rows it has seen before. */
  method Reach(edges: Edges, seeds: set<Id>) returns (reach: set<Id>)
    ensures reach == Closure(edges, seeds)
  {
    reach := seeds;
    var queue := seeds;
    forall i | i in seeds ensures Reached(edges, seeds, i) { SeedReached(edges, seeds, i); }
    while queue != {}
      invariant ReachInv(edges, seeds, reach, queue)
      decreases |Closure(edges, seeds) - (reach - queue)|
    {
      var j := Pick(queue);
      var next := NextRows(edges, j, reach);
      ReachStep(edges, seeds, reach, queue, j);
      Shrinks(Closure(edges, seeds) - (reach + next - (queue - {j} + next)), Closure(edges, seeds) - (reach - queue), j);
      reach, queue := reach + next, queue - {j} + next;
    }
    ReachDone(edges, seeds, reach);
  }

  // ---- Attribution never exceeds the exact closure ----

  ghost function BlockEdges(db: Db): Edges
    requires Valid(db)
  {
    set s, d | s in PendingSteps(db) && d in PendingSteps(db) && StepBlocks(db, s, d) :: (s, d)
  }

  /** `pend_seed`. */
  ghost function Seeds(db: Db, root: Blocker): set<Id>
    requires Valid(db)
  {
    set d | d in PendingSteps(db) && Candidate(db, d, root)
  }

  predicate IsRanked(root: Blocker) { root.ByFile? || root.ByResource? }

  /** The steps that a file or resource blocks, directly or through other pending steps. */
  ghost function Blocked(db: Db, root: Blocker): set<Id>
    requires Valid(db)
  {
    Closure(BlockEdges(db), Seeds(db, root))
  }

  /** Every primary blocker is also a row of the relation that the closure walks. */
  ghost predicate Covers(edges: Edges, seeds: set<Id>, f: PendingForest.Forest, root: Blocker) {
    && (forall d :: d in f && f[d] == root ==> d in seeds)
    && (forall d :: d in f && f[d].ByStep? ==> (f[d].step, d) in edges)
  }

  lemma {:induction false} ChainIsReached(
    edges: Edges, seeds: set<Id>, f: PendingForest.Forest, root: Blocker, i: Id, k: nat)
    requires Closed(f) && Covers(edges, seeds, f, root) && i in f && EndsAt(f, i, k, root)
    ensures Reached(edges, seeds, i)
    decreases k
  {
    if k == 0 {
      SeedReached(edges, seeds, i);
    } else {
      ChainIsReached(edges, seeds, f, root, f[i].step, k - 1);
      ReachedStep(edges, seeds, f[i].step, i);
    }
  }

  lemma PrimaryIsCandidate(db: Db, d: Id)
    requires Valid(db) && IsPending(db, d)
    ensures Primary(db, d) == Runnable(d) || Candidate(db, d, Primary(db, d))
  {
    if Candidates(db, d) != {} { assert Primary(db, d) in Candidates(db, d); }
  }

  lemma BlockersAreCovered(db: Db, root: Blocker)
    requires Valid(db) && IsRanked(root)
    ensures Covers(BlockEdges(db), Seeds(db, root), Blockers(db), root)
  {
    forall d | d in Blockers(db)
      ensures Blockers(db)[d] == root ==> d in Seeds(db, root)
      ensures Blockers(db)[d].ByStep? ==> (Blockers(db)[d].step, d) in BlockEdges(db)
    {
      PrimaryIsCandidate(db, d);
    }
  }

  lemma AttributedWithinBlocked(db: Db, root: Blocker)
    requires Valid(db) && IsRanked(root)
    ensures OfRoot(Blockers(db), root) <= Blocked(db, root)
  {
    BlockersAreCovered(db, root);
    forall i | i in OfRoot(Blockers(db), root) ensures i in Blocked(db, root) {
      var k: nat :| EndsAt(Blockers(db), i, k, root);
      ChainIsReached(BlockEdges(db), Seeds(db, root), Blockers(db), root, i, k);
    }
  }

  /** A root of the ranking: every dead file and every resource that some pending step is short of. */
  ghost predicate IsRoot(db: Db, root: Blocker)
    requires Valid(db)
  {
    match root
    case ByFile(f) => Dead(db, f)
    case ByResource(name) => exists d :: Short(db, d, name)
    case _ => false
  }

  /** The lookup of its exact count never fails: every root of the ranking blocks a step. */
  lemma EveryRootBlocks(db: Db, root: Blocker)
    requires Valid(db) && IsRoot(db, root)
    ensures |Blocked(db, root)| >= 1
  {
    match root
    case ByFile(f) =>
      var d :| FileBlocks(db, f, d);
      SeedIsBlocked(db, root, d);
    case ByResource(name) =>
      var d :| Short(db, d, name);
      SeedIsBlocked(db, root, d);
  }

  lemma SeedIsBlocked(db: Db, root: Blocker, d: Id)
    requires Valid(db) && Candidate(db, d, root)
    ensures d in Blocked(db, root) && |Blocked(db, root)| >= 1
  {
    assert d in PendingSteps(db);
    SeedReached(BlockEdges(db), Seeds(db, root), d);
    SubsetSize({d}, Blocked(db, root));
  }
}
