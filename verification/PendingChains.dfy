/**
 * pending.py: attribution and the exact closure, read off the tables as chains of pending steps, each held
 * up by the next.
 */
module PendingChains {
  import opened PendingForest
  import opened PendingRelations
  import opened PendingCauses
  import opened PendingClosure

  /** Pending steps, each of which keeps the one before it waiting. */
  ghost predicate WaitingChain(db: Db, p: seq<Id>)
    requires Valid(db)
  {
    && p != [] && (forall k :: 0 <= k < |p| ==> Pends(db, p[k]))
    && forall k :: 0 <= k < |p| - 1 ==> HeldUpBy(db, p[k], p[k + 1])
  }

  /** The chain along which the report attributes a step: every next step is the primary blocker. */
  ghost predicate PrimaryChain(db: Db, p: seq<Id>)
    requires Valid(db)
  {
    && p != [] && (forall k :: 0 <= k < |p| ==> Pends(db, p[k]))
    && forall k :: 0 <= k < |p| - 1 ==> Primary(db, p[k]) == ByStep(p[k + 1])
  }

  // ---- Attribution ----

  ghost predicate EndsIn(db: Db, p: seq<Id>, d: Id, root: Blocker)
    requires Valid(db)
  {
    PrimaryChain(db, p) && p[0] == d && Primary(db, p[|p| - 1]) == root
  }

  lemma {:induction false} ChainOf(db: Db, d: Id, k: nat, root: Blocker) returns (p: seq<Id>)
    requires Valid(db) && Pends(db, d) && EndsAt(Blockers(db), d, k, root)
    ensures EndsIn(db, p, d, root)
    decreases k
  {
    if k == 0 {
      p := [d];
    } else {
      var next := Primary(db, d).step;
      var rest := ChainOf(db, next, k - 1, root);
      PrimaryCons(db, d, rest);
      p := [d] + rest;
    }
  }

  lemma PrimaryCons(db: Db, d: Id, rest: seq<Id>)
    requires Valid(db) && Pends(db, d) && PrimaryChain(db, rest) && Primary(db, d) == ByStep(rest[0])
    ensures PrimaryChain(db, [d] + rest)
  {
    var p := [d] + rest;
    assert forall j :: 0 <= j < |rest| ==> p[j + 1] == rest[j];
    forall j | 0 <= j < |p| - 1 ensures Primary(db, p[j]) == ByStep(p[j + 1]) {
      if j > 0 { assert Primary(db, rest[j - 1]) == ByStep(rest[j - 1 + 1]); }
    }
  }

  lemma {:induction false} ChainEnds(db: Db, p: seq<Id>, d: Id, root: Blocker)
    requires Valid(db) && EndsIn(db, p, d, root) && !root.ByStep?
    ensures d in Blockers(db) && EndsAt(Blockers(db), d, |p| - 1, root)
    decreases |p|
  {
    if |p| > 1 {
      assert Primary(db, p[0]) == ByStep(p[0 + 1]);
      var q := p[1..];
      forall j | 0 <= j < |q| - 1 ensures Primary(db, q[j]) == ByStep(q[j + 1]) {
        assert Primary(db, p[j + 1]) == ByStep(p[j + 1 + 1]);
      }
      ChainEnds(db, q, p[1], root);
    }
  }

  /**
   * A step is attributed to a root exactly when the chain of primary blockers that starts at it ends at a step
   * with this root. Otherwise it is in the cyclic bucket.
   */
  lemma AttributionMeans(db: Db, d: Id, root: Blocker)
    requires Valid(db) && Pends(db, d) && !root.ByStep?
    ensures AttributedTo(Blockers(db), d, root) <==> exists p :: EndsIn(db, p, d, root)
  {
    if AttributedTo(Blockers(db), d, root) {
      var k: nat :| EndsAt(Blockers(db), d, k, root);
      var p := ChainOf(db, d, k, root);
    }
    if p :| EndsIn(db, p, d, root) { ChainEnds(db, p, d, root); }
  }

  /** The root of a step decides which of the six buckets of the report counts it, and no other does. */
  lemma BucketsMean(db: Db, d: Id, root: Blocker)
    requires Valid(db) && Pends(db, d) && AttributedTo(Blockers(db), d, root)
    ensures d in OfKind(Blockers(db), 0) <==> root.ByFile?
    ensures d in OfKind(Blockers(db), 1) <==> root.ByResource?
    ensures d in OfKind(Blockers(db), 2) <==> root.ByFailed?
    ensures d in OfKind(Blockers(db), 3) <==> root.ByDeferred?
    ensures d in OfKind(Blockers(db), 4) <==> root.ByOther?
    ensures d in OfKind(Blockers(db), 5) <==> root.Runnable?
    ensures d !in Cyclic(Blockers(db)) && !root.ByStep?
  {
    var f := Blockers(db);
    forall kind: nat ensures d in OfKind(f, kind) <==> kind == Kind(root) { InBucket(f, d, root, kind); }
  }

  lemma InBucket(f: PendingForest.Forest, d: Id, root: Blocker, kind: nat)
    requires Closed(f) && d in f && AttributedTo(f, d, root)
    ensures d in OfKind(f, kind) <==> kind == Kind(root)
  {
    assert IsOfKind(f, d, Kind(root));
    if d in OfKind(f, kind) { KindIsUnique(f, d, kind, Kind(root)); }
  }

  // ---- The exact closure ----

  /** The root itself keeps the step waiting. */
  ghost predicate Starts(db: Db, root: Blocker, d: Id)
    requires Valid(db) && Pends(db, d)
  {
    (root.ByFile? && DeadInput(db, d, root.file)) || (root.ByResource? && LacksUnits(db, d, root.name))
  }

  ghost predicate LeadsTo(db: Db, p: seq<Id>, d: Id, root: Blocker)
    requires Valid(db)
  {
    WaitingChain(db, p) && p[0] == d && Starts(db, root, p[|p| - 1])
  }

  lemma EdgeMeans(db: Db, s: Id, d: Id)
    requires Valid(db)
    ensures (s, d) in BlockEdges(db) <==> Pends(db, s) && Pends(db, d) && HeldUpBy(db, d, s)
  {
    if Pends(db, d) && s in db.steps { CandidateMeans(db, d, ByStep(s)); }
  }

  lemma SeedMeans(db: Db, root: Blocker, d: Id)
    requires Valid(db) && IsRanked(root)
    ensures d in Seeds(db, root) <==> Pends(db, d) && Starts(db, root, d)
  {
    if Pends(db, d) { CandidateMeans(db, d, root); }
  }

  lemma {:induction false} ReachedAlong(db: Db, root: Blocker, d: Id, k: nat) returns (p: seq<Id>)
    requires Valid(db) && IsRanked(root) && ReachedIn(BlockEdges(db), Seeds(db, root), d, k)
    ensures LeadsTo(db, p, d, root)
    decreases k
  {
    if k == 0 {
      SeedMeans(db, root, d);
      p := [d];
    } else {
      var s :| (s, d) in BlockEdges(db) && ReachedIn(BlockEdges(db), Seeds(db, root), s, k - 1);
      EdgeMeans(db, s, d);
      var rest := ReachedAlong(db, root, s, k - 1);
      WaitingCons(db, d, rest);
      p := [d] + rest;
    }
  }

  lemma WaitingCons(db: Db, d: Id, rest: seq<Id>)
    requires Valid(db) && Pends(db, d) && WaitingChain(db, rest) && HeldUpBy(db, d, rest[0])
    ensures WaitingChain(db, [d] + rest)
  {
    var p := [d] + rest;
    assert forall j :: 0 <= j < |rest| ==> p[j + 1] == rest[j];
    forall j | 0 <= j < |p| - 1 ensures HeldUpBy(db, p[j], p[j + 1]) {
      if j > 0 { assert HeldUpBy(db, rest[j - 1], rest[j - 1 + 1]); }
    }
  }

  lemma {:induction false} AlongIsReached(db: Db, root: Blocker, p: seq<Id>, d: Id)
    requires Valid(db) && IsRanked(root) && LeadsTo(db, p, d, root)
    ensures Reached(BlockEdges(db), Seeds(db, root), d)
    decreases |p|
  {
    if |p| == 1 {
      SeedMeans(db, root, d);
      SeedReached(BlockEdges(db), Seeds(db, root), d);
    } else {
      assert HeldUpBy(db, p[0], p[0 + 1]);
      var q := p[1..];
      forall j | 0 <= j < |q| - 1 ensures HeldUpBy(db, q[j], q[j + 1]) { assert HeldUpBy(db, p[j + 1], p[j + 1 + 1]); }
      AlongIsReached(db, root, q, p[1]);
      EdgeMeans(db, p[1], d);
      ReachedStep(BlockEdges(db), Seeds(db, root), p[1], d);
    }
  }

  /**
   * A dead file or a resource blocks exactly the steps from which a chain of pending steps, each held up by the
   * next, leads to one that lacks it.
   */
  lemma BlockedMeans(db: Db, root: Blocker, d: Id)
    requires Valid(db) && (root.ByFile? || root.ByResource?)
    ensures d in Blocked(db, root) <==> exists p :: LeadsTo(db, p, d, root)
  {
    if d in Blocked(db, root) {
      var k: nat :| ReachedIn(BlockEdges(db), Seeds(db, root), d, k);
      var p := ReachedAlong(db, root, d, k);
    }
    if p :| LeadsTo(db, p, d, root) { AlongIsReached(db, root, p, d); }
  }

  /** The ranking has a row for every file and resource that some pending step lacks for good, and no other. */
  lemma RootsMean(db: Db, root: Blocker)
    requires Valid(db)
    ensures IsRoot(db, root) <==> exists d :: Pends(db, d) && Starts(db, root, d)
  {
    if IsRoot(db, root) {
      match root
      case ByFile(f) =>
        var d :| FileBlocks(db, f, d);
        DeadMeans(db, f, d);
        assert Starts(db, root, d);
      case ByResource(name) =>
        var d :| Short(db, d, name);
        ShortMeans(db, d, name);
        assert Starts(db, root, d);
    }
    if d :| Pends(db, d) && Starts(db, root, d) {
      if root.ByFile? { DeadMeans(db, root.file, d); } else { ShortMeans(db, d, root.name); }
    }
  }
}
