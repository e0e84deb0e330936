/**
 * pending.py:164-165: a step of the cyclic bucket is out of reach of the roots along the primary
 * blockers. In the full blocking relation a root reaches one exactly when some attributed step blocks it.
 */
module PendingCycle {
  import opened Basics
  import opened Bytewise
  import opened Enums
  import opened SafeUpdate
  import opened PendingForest
  import opened PendingRelations
  import opened PendingClosure

  /** The steps that a root of any kind blocks directly, or is the primary blocker of. */
  ghost function RootSeeds(db: Db, root: Blocker): set<Id>
    requires Valid(db)
  {
    set d | d in PendingSteps(db) && (Candidate(db, d, root) || Primary(db, d) == root)
  }

  /** A root blocks a step, directly or through any other pending steps. */
  ghost predicate RootReaches(db: Db, root: Blocker, i: Id)
    requires Valid(db)
  {
    !root.ByStep? && Reached(BlockEdges(db), RootSeeds(db, root), i)
  }

  ghost predicate CrossesIntoCycle(db: Db, s: Id, d: Id)
    requires Valid(db)
  {
    (s, d) in BlockEdges(db) && s !in Cyclic(Blockers(db)) && d in Cyclic(Blockers(db))
  }

  lemma SeedsAreAttributed(db: Db, root: Blocker, d: Id)
    requires Valid(db) && !root.ByStep? && d in RootSeeds(db, root)
    ensures d !in Cyclic(Blockers(db))
  {
    if Primary(db, d) == root {
      assert Blockers(db)[d] == root;
      OwnRoot(Blockers(db), d);
    } else {
      RootsWin(db, d, root);
    }
  }

  /** On the way from a root to a cyclic step some edge leads from an attributed step into the bucket. */
  lemma WayIntoCycle(db: Db, root: Blocker, i: Id) returns (s: Id, d: Id)
    requires Valid(db) && RootReaches(db, root, i) && i in Cyclic(Blockers(db))
    ensures CrossesIntoCycle(db, s, d)
  {
    var k: nat :| ReachedIn(BlockEdges(db), RootSeeds(db, root), i, k);
    forall x | x in RootSeeds(db, root) ensures x !in Cyclic(Blockers(db)) { SeedsAreAttributed(db, root, x); }
    s, d := Crossing(BlockEdges(db), RootSeeds(db, root), Cyclic(Blockers(db)), i, k);
  }

  lemma RootSeedsCover(db: Db, root: Blocker)
    requires Valid(db)
    ensures Covers(BlockEdges(db), RootSeeds(db, root), Blockers(db), root)
  {
    forall d | d in Blockers(db)
      ensures Blockers(db)[d] == root ==> d in RootSeeds(db, root)
      ensures Blockers(db)[d].ByStep? ==> (Blockers(db)[d].step, d) in BlockEdges(db)
    {
      PrimaryIsCandidate(db, d);
    }
  }

  lemma CrossingIsReached(db: Db, s: Id, d: Id) returns (root: Blocker)
    requires Valid(db) && CrossesIntoCycle(db, s, d)
    ensures RootReaches(db, root, d)
  {
    root :| AttributedTo(Blockers(db), s, root);
    var k: nat :| EndsAt(Blockers(db), s, k, root);
    RootSeedsCover(db, root);
    ChainIsReached(BlockEdges(db), RootSeeds(db, root), Blockers(db), root, s, k);
    ReachedStep(BlockEdges(db), RootSeeds(db, root), s, d);
  }

  /** Some root reaches some cyclic step if and only if some attributed step blocks a cyclic one. */
  lemma CyclicReachedIff(db: Db)
    requires Valid(db)
    ensures (exists root, i :: i in Cyclic(Blockers(db)) && RootReaches(db, root, i))
            <==> exists s, d :: CrossesIntoCycle(db, s, d)
  {
    if root, i :| i in Cyclic(Blockers(db)) && RootReaches(db, root, i) {
      var s, d := WayIntoCycle(db, root, i);
    }
    if s, d :| CrossesIntoCycle(db, s, d) {
      var root := CrossingIsReached(db, s, d);
    }
  }

  // ---- An example ----

  /**
   * Plan 1 waits for file 11, made by step 2 that it created itself, and for file 12, made by step 3.
   * Step 3 waits for file 13, which nothing makes. The label of step 2 sorts before that of step 3.
   */
  predicate Example(db: Db) {
    && db.steps == map[1 := SafeUpdate.Row.Row(None, Pending, 0, true, true, false),
                       2 := SafeUpdate.Row.Row(Some(1), Pending, 0, false, false, false),
                       3 := SafeUpdate.Row.Row(None, Pending, 0, true, true, false)]
    && db.nodes == map[1 := StepNode([112], false, 1, false, false),
                       2 := StepNode([97], false, 1, false, false),
                       3 := StepNode([98], false, 1, false, false)]
    && db.files == map[11 := FileNode([1], Planned, false), 12 := FileNode([2], Planned, false),
                       13 := FileNode([3], Missing, false)]
    && db.deps == {Dep(2, 11, false), Dep(11, 1, true), Dep(3, 12, false), Dep(12, 1, true), Dep(13, 3, false)}
    && db.reqs == {} && db.threshold == 0
  }

  lemma ExampleFiles(db: Db)
    requires Example(db)
    ensures Valid(db) && forall i :: IsPending(db, i) <==> i == 1 || i == 2 || i == 3
    ensures forall f, d :: FileBlocks(db, f, d) <==> (f == 11 && d == 1) || (f == 12 && d == 1) || (f == 13 && d == 3)
    ensures forall s, f :: Produces(db, s, f) <==> (s == 2 && f == 11) || (s == 3 && f == 12)
  {
    assert Dep(11, 1, true) in db.deps && Dep(12, 1, true) in db.deps && Dep(13, 3, false) in db.deps;
    assert Dep(2, 11, false) in db.deps && Dep(3, 12, false) in db.deps;
  }

  lemma ExampleCreators(db: Db)
    requires Example(db)
    ensures Valid(db) && forall d, a :: NearestBroken(db, d, a) <==> d == 2 && a == 1
  {
    assert Up(db.steps, 2, 0) == Some(2);
    assert Up(db.steps, 2, 1) == Some(1);
    assert BrokenAt(db.steps, 2, 1);
    forall k: nat, a | BrokenAt(db.steps, 2, k) && Up(db.steps, 2, k) == Some(a) ensures a == 1 {
      assert k == 1;
    }
  }

  /** The relations of the example, without its tables. */
  ghost predicate Shape(db: Db) {
    && Valid(db)
    && (forall i :: IsPending(db, i) <==> i == 1 || i == 2 || i == 3)
    && (forall f, d :: FileBlocks(db, f, d) <==> (f == 11 && d == 1) || (f == 12 && d == 1) || (f == 13 && d == 3))
    && (forall s, f :: Produces(db, s, f) <==> (s == 2 && f == 11) || (s == 3 && f == 12))
    && (forall d, a :: NearestBroken(db, d, a) <==> d == 2 && a == 1)
    && (forall i :: IsPending(db, i) ==> !db.nodes[i].deferred)
    && (forall i :: i in db.steps ==> IsPending(db, i))
    && (forall d, name :: !Short(db, d, name))
    && SrcLabel(db, ByStep(2)) == [97] && SrcLabel(db, ByStep(3)) == [98]
  }

  lemma ExampleShape(db: Db)
    requires Example(db)
    ensures Shape(db)
  {
    ExampleFiles(db);
    ExampleCreators(db);
  }

  lemma ShapeWaits(db: Db)
    requires Shape(db)
    ensures forall s, d :: WaitsForFileOf(db, s, d) <==> (s == 2 || s == 3) && d == 1
    ensures HasBlockingFile(db, 1) && HasBlockingFile(db, 3)
    ensures Dead(db, 13) && !Dead(db, 11) && !Dead(db, 12)
  {
    assert FileBlocks(db, 11, 1) && FileBlocks(db, 12, 1) && FileBlocks(db, 13, 3);
    assert Produces(db, 2, 11) && Produces(db, 3, 12);
  }

  lemma PlanCandidates(db: Db, b: Blocker)
    requires Shape(db)
    ensures Candidate(db, 1, b) <==> b == ByStep(2) || b == ByStep(3)
  {
    ShapeWaits(db);
  }

  lemma ProductCandidates(db: Db, b: Blocker)
    requires Shape(db)
    ensures Candidate(db, 2, b) <==> b == ByStep(1)
  {
    ShapeWaits(db);
  }

  lemma BlockedCandidates(db: Db)
    requires Shape(db)
    ensures Candidate(db, 3, ByFile(13)) && Candidate(db, 1, ByStep(3))
  {
    ShapeWaits(db);
    PlanCandidates(db, ByStep(3));
  }

  lemma PlanPrimary(db: Db)
    requires Shape(db)
    ensures Primary(db, 1) == ByStep(2)
  {
    PlanCandidates(db, ByStep(2));
    assert ByStep(2) in Candidates(db, 1);
    PlanCandidates(db, Primary(db, 1));
    assert !Less([98], [97]) && !Before(db, ByStep(3), ByStep(2));
  }

  lemma ProductPrimary(db: Db)
    requires Shape(db)
    ensures Primary(db, 2) == ByStep(1)
  {
    ProductCandidates(db, ByStep(1));
    assert ByStep(1) in Candidates(db, 2);
    ProductCandidates(db, Primary(db, 2));
  }

  lemma TwoStepCycle(f: PendingForest.Forest, a: Id, b: Id)
    requires Closed(f) && a in f && b in f && f[a] == ByStep(b) && f[b] == ByStep(a)
    ensures a in Cyclic(f)
  {
    assert Chain(f, a, 0) == Some(a);
    assert Chain(f, b, 1) == Chain(f, a, 0);
    assert Chain(f, a, 2) == Chain(f, b, 1);
    assert Repeats(f, a, 0, 2);
    UnattributedIffCycle(f, a);
  }

  /** Plan 1 is counted as cyclic, yet the dead file blocks it. */
  lemma CyclicStepReachedByRoot(db: Db)
    requires Example(db)
    ensures Valid(db) && 1 in Cyclic(Blockers(db)) && 1 in Blocked(db, ByFile(13))
  {
    ExampleShape(db);
    PlanPrimary(db);
    ProductPrimary(db);
    TwoStepCycle(Blockers(db), 1, 2);
    BlockedCandidates(db);
    assert (3, 1) in BlockEdges(db);
    SeedIsBlocked(db, ByFile(13), 3);
    ReachedStep(BlockEdges(db), Seeds(db, ByFile(13)), 3, 1);
  }
}
