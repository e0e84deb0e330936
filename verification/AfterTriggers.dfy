/** Which writes flag enough for the worklist, what it leaves where they do not, and why its seeds cannot be narrowed. */
module AfterTriggers {
  import opened AfterUpdate
  import opened Enums

  /** The flags after a trigger set `_check_after` on the rows with these ids. */
  function Flag(g: Graph, flagged: set<Id>, ids: set<Id>): set<Id> {
    flagged + set i | i in ids && i in g.steps
  }

  function InsertDependency(g: Graph, d: (Id, Id)): Graph { g.(deps := g.deps + {d}) }

  function DeleteDependency(g: Graph, d: (Id, Id)): Graph { g.(deps := g.deps - {d}) }

  function SetDuration(g: Graph, i: Id, duration: real): Graph
    requires i in g.steps
  {
    g.(steps := g.steps[i := g.steps[i].(duration := duration)])
  }

  /** Equal sinks, need and duration give the same local formula. */
  lemma SameRowSameFormula(g: Graph, h: Graph, c: Columns, i: Id)
    requires g.Valid() && h.Valid() && Covers(g, c) && Covers(h, c) && i in g.steps
    requires g.Sinks(i) == h.Sinks(i) && g.OwnNeed(i) == h.OwnNeed(i)
    requires g.steps[i].duration == h.steps[i].duration
    ensures Agrees(g, c, i) <==> Agrees(h, c, i)
  {
  }

  /** step_dependency_check_after_ins flags enough, because the first round always propagates. */
  lemma InsertKeepsFlagsComplete(g: Graph, c: Columns, flagged: set<Id>, d: (Id, Id))
    requires g.Valid() && Covers(g, c) && FlagsComplete(g, c, flagged)
    ensures FlagsComplete(g.(deps := g.deps + {d}), c, flagged + {d.0, d.1} * g.steps.Keys)
  {
    assert Flag(g, flagged, {d.0, d.1}) == flagged + {d.0, d.1} * g.steps.Keys;
    var h, after := InsertDependency(g, d), Flag(g, flagged, {d.0, d.1});
    forall i | h.Attached(i) && i !in after && forall t :: t in h.Sinks(i) ==> t !in after
      ensures Agrees(h, c, i)
    {
      forall t | t in g.Sinks(i) ensures t in h.Sinks(i) {
        var e :| e in g.deps && e.0 == i && (e.1, t) in g.deps;
        assert e in h.deps && (e.1, t) in h.deps;
      }
      forall t | t in h.Sinks(i) ensures t in g.Sinks(i) {
        var e :| e in h.deps && e.0 == i && (e.1, t) in h.deps;
        assert e != d && (e.1, t) != d;
      }
      assert g.Sinks(i) == h.Sinks(i);
      assert forall f :: g.RegularOutput(i, f) <==> h.RegularOutput(i, f);
      SameRowSameFormula(g, h, c, i);
    }
  }

  lemma DurationKeepsFlagsComplete(g: Graph, c: Columns, flagged: set<Id>, i: Id, duration: real)
    requires g.Valid() && Covers(g, c) && FlagsComplete(g, c, flagged) && i in g.steps && duration >= 0.0
    ensures FlagsComplete(g.(steps := g.steps[i := g.steps[i].(duration := duration)]), c, flagged + {i})
  {
    assert Flag(g, flagged, {i}) == flagged + {i};
    var h, after := SetDuration(g, i, duration), Flag(g, flagged, {i});
    forall j | h.Attached(j) && j !in after && forall t :: t in h.Sinks(j) ==> t !in after
      ensures Agrees(h, c, j)
    {
      assert forall t :: g.Feeds(j, t) <==> h.Feeds(j, t);
      assert g.Sinks(j) == h.Sinks(j);
      assert forall f :: g.RegularOutput(j, f) <==> h.RegularOutput(j, f);
      SameRowSameFormula(g, h, c, j);
    }
  }

  /** Only the producers of the source of a deleted edge lose sinks, apart from the two ends that are flagged. */
  lemma DeleteKeepsOtherSinks(g: Graph, d: (Id, Id), i: Id)
    ensures DeleteDependency(g, d).Sinks(i) <= g.Sinks(i)
    ensures i != d.0 ==> g.Sinks(i) <= DeleteDependency(g, d).Sinks(i) + {d.1}
    ensures i != d.0 && (i, d.0) !in g.deps ==> DeleteDependency(g, d).Sinks(i) == g.Sinks(i)
  {
    var h := DeleteDependency(g, d);
    forall t | t in h.Sinks(i) ensures t in g.Sinks(i) {
      var e :| e in h.deps && e.0 == i && (e.1, t) in h.deps;
      assert e in g.deps && (e.1, t) in g.deps;
    }
    if i != d.0 {
      forall t | t in g.Sinks(i) && (t != d.1 || (i, d.0) !in g.deps) ensures t in h.Sinks(i) {
        var e :| e in g.deps && e.0 == i && (e.1, t) in g.deps;
        assert e in h.deps && (e.1, t) in h.deps;
      }
    }
  }

  lemma DeleteKeepsOwnNeed(g: Graph, d: (Id, Id), i: Id)
    requires g.Valid() && i in g.steps && i != d.0
    ensures DeleteDependency(g, d).Valid() && DeleteDependency(g, d).OwnNeed(i) == g.OwnNeed(i)
  {
    var h := DeleteDependency(g, d);
    assert forall f :: g.RegularOutput(i, f) <==> h.RegularOutput(i, f);
  }

  /** A producer of the edge's source that is left out: neither flagged nor feeding a flagged step. */
  predicate LeftOut(g: Graph, flagged: set<Id>, d: (Id, Id), p: Id) {
    && g.Attached(p) && (p, d.0) in g.deps && p !in flagged + {d.0, d.1}
    && DeleteDependency(g, d).Sinks(p) !! flagged + {d.0, d.1}
  }

  /** Both maxima of the row are still attained by what is left. */
  ghost predicate StillAttained(h: Graph, c: Columns, p: Id)
    requires h.Valid() && Covers(h, c) && p in h.steps
  {
    && (c.need[p] == h.OwnNeed(p) || exists t :: t in h.Sinks(p) && c.need[t] == c.need[p])
    && (c.tail[p] == h.steps[p].duration ||
        exists t :: t in h.Sinks(p) && c.tail[p] == h.steps[p].duration + c.tail[t])
  }

  /** A row that was at rest and lost sinks is at rest if and only if its maxima are still attained. */
  lemma LostSinksAgreeIff(g: Graph, h: Graph, c: Columns, p: Id)
    requires g.Valid() && h.Valid() && Covers(g, c) && Covers(h, c) && p in g.steps && p in h.steps
    requires Agrees(g, c, p) && h.Sinks(p) <= g.Sinks(p)
    requires h.OwnNeed(p) == g.OwnNeed(p) && h.steps[p] == g.steps[p]
    ensures Agrees(h, c, p) <==> StillAttained(h, c, p)
  {
    AgreesIsBounded(g, c, p);
    if StillAttained(h, c, p) {
      BoundedAgrees(h, c, p);
    }
    if Agrees(h, c, p) {
      AgreesIsBounded(h, c, p);
    }
  }

  /** The row keeps its values; nothing was known of it when it fed a sink that was flagged before. */
  ghost predicate KeepsValues(h: Graph, c: Columns, flagged: set<Id>, d: (Id, Id), p: Id)
    requires h.Valid() && Covers(h, c) && p in h.steps
  {
    if d.1 in flagged then Bounded(h, c, p) else StillAttained(h, c, p)
  }

  lemma OutsideFlags(g: Graph, c: Columns, flagged: set<Id>, d: (Id, Id), i: Id)
    requires g.Valid() && Covers(g, c) && FlagsComplete(g, c, flagged) && g.Attached(i)
    requires i !in flagged + {d.0, d.1} && DeleteDependency(g, d).Sinks(i) !! flagged + {d.0, d.1}
    ensures var h := DeleteDependency(g, d);
            if LeftOut(g, flagged, d, i) then (Agrees(h, c, i) <==> KeepsValues(h, c, flagged, d, i)) else Agrees(h, c, i)
  {
    var h := DeleteDependency(g, d);
    DeleteKeepsOtherSinks(g, d, i);
    DeleteKeepsOwnNeed(g, d, i);
    if (i, d.0) !in g.deps {
      SameRowSameFormula(g, h, c, i);
    } else if d.1 in flagged {
      if Agrees(h, c, i) { AgreesIsBounded(h, c, i); } else if Bounded(h, c, i) { BoundedAgrees(h, c, i); }
    } else {
      LostSinksAgreeIff(g, h, c, i);
    }
  }

  /**
   * The delete trigger flags enough if and only if every producer that is left out keeps its values
   * without the edge.
   */
  lemma DeleteIsCoveredIff(g: Graph, c: Columns, flagged: set<Id>, d: (Id, Id))
    requires g.Valid() && Covers(g, c) && FlagsComplete(g, c, flagged)
    ensures var h := g.(deps := g.deps - {d});
            h.Valid() && (FlagsComplete(h, c, flagged + {d.0, d.1} * g.steps.Keys)
                          <==> forall p :: LeftOut(g, flagged, d, p) ==> KeepsValues(h, c, flagged, d, p))
  {
    assert Flag(g, flagged, {d.0, d.1}) == flagged + {d.0, d.1} * g.steps.Keys;
    var h, after := DeleteDependency(g, d), Flag(g, flagged, {d.0, d.1});
    forall i | h.Attached(i) && i !in after && forall t :: t in h.Sinks(i) ==> t !in after
      ensures if LeftOut(g, flagged, d, i) then (Agrees(h, c, i) <==> KeepsValues(h, c, flagged, d, i))
              else Agrees(h, c, i)
    {
      OutsideFlags(g, c, flagged, d, i);
    }
    forall p | LeftOut(g, flagged, d, p)
      ensures h.Attached(p) && p !in after && forall t :: t in h.Sinks(p) ==> t !in after
    {
    }
  }

  /** So it flags enough whenever no attached step produces the edge's source. */
  lemma DeleteKeepsFlagsComplete(g: Graph, c: Columns, flagged: set<Id>, d: (Id, Id))
    requires g.Valid() && Covers(g, c) && FlagsComplete(g, c, flagged)
    requires forall p :: g.Attached(p) ==> (p, d.0) !in g.deps
    ensures FlagsComplete(g.(deps := g.deps - {d}), c, flagged + {d.0, d.1} * g.steps.Keys)
  {
    DeleteIsCoveredIff(g, c, flagged, d);
  }

  // ---- What the update makes of a deleted edge ----

  /** workflow.py dependency_check_kinds_ins: no edge joins two steps. */
  predicate Bipartite(g: Graph) {
    forall e :: e in g.deps ==> !(e.0 in g.steps && e.1 in g.steps)
  }

  lemma DeleteKeepsAcyclic(g: Graph, d: (Id, Id))
    requires Acyclic(g)
    ensures Acyclic(DeleteDependency(g, d))
  {
    var h := DeleteDependency(g, d);
    forall p | IsPath(h, p) && |p| > 1 ensures p[0] != p[|p| - 1] {
      forall k | 0 <= k < |p| - 1 ensures g.Feeds(p[k], p[k + 1]) {
        DeleteKeepsOtherSinks(g, d, p[k]);
        assert p[k + 1] in h.Sinks(p[k]);
      }
      assert IsPath(g, p);
    }
  }

  lemma SelfFeedIsCycle(g: Graph, i: Id)
    requires g.Attached(i) && g.Feeds(i, i)
    ensures !Acyclic(g)
  {
    var p := [i, i];
    assert IsPath(g, p) && p[0] == p[|p| - 1];
  }

  lemma NoSelfFeed(g: Graph, i: Id)
    requires Acyclic(g) && g.Attached(i)
    ensures !g.Feeds(i, i)
  {
    if g.Feeds(i, i) { SelfFeedIsCycle(g, i); }
  }

  /** The consumer of the deleted edge does not feed itself, so that its formula is the same. */
  lemma ConsumerKeepsSinks(g: Graph, d: (Id, Id))
    requires Acyclic(g) && g.Attached(d.1) && d.0 != d.1
    ensures DeleteDependency(g, d).Sinks(d.1) == g.Sinks(d.1)
  {
    var h := DeleteDependency(g, d);
    DeleteKeepsOtherSinks(g, d, d.1);
    NoSelfFeed(g, d.1);
    forall t | t in g.Sinks(d.1) ensures t in h.Sinks(d.1) {
      var e :| e in g.deps && e.0 == d.1 && (e.1, t) in g.deps;
      assert e in h.deps && (e.1, t) in h.deps;
    }
  }

  /** Neither the consumer nor a step that still feeds it changes, so that the second round finds nothing to do. */
  lemma RestAtConsumer(g: Graph, c: Columns, d: (Id, Id), i: Id)
    requires g.Valid() && Covers(g, c) && Acyclic(g) && AllAgree(g, c) && d.0 !in g.steps && g.Attached(i)
    requires i == d.1 || d.1 in DeleteDependency(g, d).Sinks(i)
    ensures DeleteDependency(g, d).Valid() && Agrees(DeleteDependency(g, d), c, i)
  {
    var h := DeleteDependency(g, d);
    DeleteKeepsOtherSinks(g, d, i);
    DeleteKeepsOwnNeed(g, d, i);
    if i == d.1 { ConsumerKeepsSinks(g, d); }
    assert h.Sinks(i) == g.Sinks(i);
    SameRowSameFormula(g, h, c, i);
  }

  lemma UpdateOfAgreed(g: Graph, c: Columns, changed: set<Id>)
    requires g.Valid() && Covers(g, c) && changed <= g.steps.Keys && forall i :: i in changed ==> Agrees(g, c, i)
    ensures Updated(g, c, changed) == c && Changed(g, c, changed, true) == changed && Changed(g, c, changed, false) == {}
  {
    assert Updated(g, c, changed).need == c.need && Updated(g, c, changed).tail == c.tail;
  }

  /** A loop whose seeds, and whatever feeds them, are at rest leaves the columns as they are. */
  lemma AtRestLeaves(g: Graph, c: Columns, seeds: set<Id>)
    requires g.Valid() && Covers(g, c) && seeds <= g.steps.Keys
    requires forall i :: i in seeds + Propagated(g, seeds) ==> Agrees(g, c, i)
    ensures Leaves(g, Work(c, seeds), c)
  {
    var w, v := Work(c, seeds), Work(c, Propagated(g, seeds));
    UpdateOfAgreed(g, c, seeds);
    OneTurn(g, w, 0);
    assert Iterate(Loop(g), w, 0) == w;
    assert Iterate(Loop(g), w, 1) == v;
    UpdateOfAgreed(g, c, v.check);
    UpdateOfAgreed(g, c, {});
    OneTurn(g, v, 1);
    assert Propagated(g, {}) == {};
    assert Iterate(Loop(g), w, 2) == Work(c, {});
  }

  /** With a file's edge to a consumer deleted, the update changes no row. */
  lemma DeleteChangesNothing(g: Graph, c: Columns, d: (Id, Id))
    requires g.Valid() && Covers(g, c) && Acyclic(g) && AllAgree(g, c) && d.0 !in g.steps
    ensures DeleteDependency(g, d).Valid()
    ensures var h := DeleteDependency(g, d);
            Leaves(h, Work(c, Seeds(h, Flag(g, {}, {d.0, d.1}))), c)
  {
    var h := DeleteDependency(g, d);
    var seeds := Seeds(h, Flag(g, {}, {d.0, d.1}));
    forall i | i in seeds + Propagated(h, seeds) ensures Agrees(h, c, i) {
      if i !in seeds { assert h.Feeds(i, d.1); }
      RestAtConsumer(g, c, d, i);
    }
    AtRestLeaves(h, c, seeds);
  }

  lemma LeftStale(g: Graph, c: Columns, d: (Id, Id), p: Id)
    requires g.Valid() && Covers(g, c) && Acyclic(g) && AllAgree(g, c) && LeftOut(g, {}, d, p)
    requires DeleteDependency(g, d).Valid() && !StillAttained(DeleteDependency(g, d), c, p)
    ensures !Defined(DeleteDependency(g, d), c)
  {
    var h := DeleteDependency(g, d);
    OutsideFlags(g, c, {}, d, p);
    DeleteKeepsAcyclic(g, d);
    DefinedIffAgree(h, c);
  }

  /**
   * Columns at rest, a deleted edge, the trigger and then the update: every attached step ends with the
   * defined need and tail time if and only if every producer that the trigger leaves out still attains
   * both without the edge. Where one does not, the update leaves all columns as they were.
   */
  lemma DeleteOutcomeIff(g: Graph, c: Columns, d: (Id, Id), after: Columns)
    requires g.Valid() && Covers(g, c) && Acyclic(g) && Bipartite(g) && AllAgree(g, c)
    requires var h := g.(deps := g.deps - {d});
             Covers(h, after) && Leaves(h, Work(c, Seeds(h, {d.0, d.1} * g.steps.Keys)), after)
    ensures var h := g.(deps := g.deps - {d});
            && h.Valid() && Acyclic(h)
            && (Defined(h, after) <==> forall p :: LeftOut(g, {}, d, p) ==> StillAttained(h, c, p))
            && (!Defined(h, after) ==> after == c)
  {
    var h, flags := DeleteDependency(g, d), Flag(g, {}, {d.0, d.1});
    assert flags == {d.0, d.1} * g.steps.Keys == {} + {d.0, d.1} * g.steps.Keys;
    DeleteIsCoveredIff(g, c, {}, d);
    DeleteKeepsAcyclic(g, d);
    if p :| LeftOut(g, {}, d, p) && !StillAttained(h, c, p) {
      DeleteChangesNothing(g, c, d);
      LeavesOnce(h, Work(c, Seeds(h, flags)), c, after);
      LeftStale(g, c, d, p);
    } else {
      LeavesSettled(h, flags, c, after);
    }
  }

  /** Steps 2 and 4 joined by file 3, and step 6 by file 5. */
  function Chain(): Graph {
    Graph(map[2 := StepRow(OPTIONAL, 1.0, false), 4 := StepRow(DEFAULT, 1.0, false), 6 := StepRow(DEFAULT, 1.0, false)],
          map[], {(2, 3), (3, 4), (4, 5), (5, 6)}, {}, {})
  }

  lemma ChainFacts()
    ensures Chain().Valid() && Chain().AttachedSteps() == {2, 4, 6}
    ensures Chain().Sinks(2) == {4} && Chain().Sinks(4) == {6} && Chain().Sinks(6) == {}
    ensures Chain().OwnNeed(2) == OPTIONAL && Chain().OwnNeed(4) == DEFAULT && Chain().OwnNeed(6) == DEFAULT
  {
    var g := Chain();
    assert (2, 3) in g.deps && (3, 4) in g.deps && (4, 5) in g.deps && (5, 6) in g.deps;
    assert g.Feeds(2, 4) by { var e := (2, 3); assert e in g.deps && e.0 == 2 && (e.1, 4) in g.deps; }
    assert g.Feeds(4, 6) by { var e := (4, 5); assert e in g.deps && e.0 == 4 && (e.1, 6) in g.deps; }
  }

  lemma {:induction false} ChainPathsIncrease(p: seq<Id>)
    requires IsPath(Chain(), p)
    ensures |p| > 1 ==> p[0] < p[|p| - 1]
    decreases |p|
  {
    if |p| > 1 {
      PathTail(Chain(), p);
      ChainPathsIncrease(p[1..]);
    }
  }

  lemma ChainAcyclic()
    ensures Acyclic(Chain())
  {
    forall p | IsPath(Chain(), p) && |p| > 1 ensures p[0] != p[|p| - 1] { ChainPathsIncrease(p); }
  }

  lemma RowWithoutSinks(g: Graph, c: Columns, i: Id)
    requires g.Valid() && Covers(g, c) && i in g.steps && g.Sinks(i) == {}
    ensures NewNeed(g, c, i) == g.OwnNeed(i) && NewTail(g, c, i) == g.steps[i].duration
  {
  }

  lemma RowWithOneSink(g: Graph, c: Columns, i: Id, t: Id)
    requires g.Valid() && Covers(g, c) && i in g.steps && g.Sinks(i) == {t}
    ensures NewNeed(g, c, i) == if g.OwnNeed(i) >= c.need[t] then g.OwnNeed(i) else c.need[t]
    ensures NewTail(g, c, i) == g.steps[i].duration + c.tail[t]
  {
    assert {g.OwnNeed(i)} + (set s | s in g.Sinks(i) :: c.need[s]) == {g.OwnNeed(i), c.need[t]};
    assert (set s | s in g.Sinks(i) :: c.tail[s]) == {c.tail[t]};
  }

  /** The columns of the chain, except for the need stored for step 2. */
  function ChainColumns(need2: int): Columns {
    Columns(map[2 := need2, 4 := DEFAULT, 6 := DEFAULT], map[2 := 3.0, 4 := 2.0, 6 := 1.0])
  }

  lemma ChainColumnsFacts(need2: int)
    ensures Covers(Chain(), ChainColumns(need2))
    ensures Agrees(Chain(), ChainColumns(need2), 4) && Agrees(Chain(), ChainColumns(need2), 6)
    ensures Agrees(Chain(), ChainColumns(need2), 2) <==> need2 == DEFAULT
  {
    var g, c := Chain(), ChainColumns(need2);
    ChainFacts();
    RowWithOneSink(g, c, 2, 4);
    RowWithOneSink(g, c, 4, 6);
    RowWithoutSinks(g, c, 6);
  }

  /**
   * Dropping an input deletes the edge from the file to its consumer. The trigger flags the consumer,
   * which the file's producer no longer feeds, so the update leaves the producer a tail time it no longer has.
   */
  lemma DroppedInputLeavesProducerStale()
    ensures
      var g, c, h := Chain(), ChainColumns(DEFAULT), DeleteDependency(Chain(), (5, 6));
      && g.Valid() && h.Valid() && Covers(g, c) && Covers(h, c) && Acyclic(g) && Bipartite(g) && Defined(g, c)
      && Leaves(h, Work(c, Seeds(h, Flag(g, {}, {5, 6}))), c)
      && h.Attached(4) && c.tail[4] == 2.0 && IsTailTime(h, 4, 1.0)
  {
    ChainAtRest();
    DefinedIffAgree(Chain(), ChainColumns(DEFAULT));
    DeleteChangesNothing(Chain(), ChainColumns(DEFAULT), (5, 6));
    CutChainStale();
  }

  lemma ChainAtRest()
    ensures
      var g, c := Chain(), ChainColumns(DEFAULT);
      g.Valid() && Covers(g, c) && Acyclic(g) && Bipartite(g) && AllAgree(g, c) && 5 !in g.steps
  {
    ChainAllAgree();
    ChainAcyclic();
    ChainBipartite();
  }

  lemma ChainAllAgree()
    ensures Chain().Valid() && Covers(Chain(), ChainColumns(DEFAULT)) && AllAgree(Chain(), ChainColumns(DEFAULT))
  {
    ChainColumnsFacts(DEFAULT);
    ChainFacts();
    assert forall i :: Chain().Attached(i) ==> i in Chain().AttachedSteps();
  }

  lemma ChainBipartite()
    ensures Bipartite(Chain()) && 5 !in Chain().steps
  {
  }

  /** Without sinks the heaviest path is the step alone. */
  lemma TailOfLast(g: Graph, i: Id)
    requires g.Valid() && g.Attached(i) && g.Sinks(i) == {}
    ensures IsTailTime(g, i, g.steps[i].duration)
  {
    assert IsPath(g, [i]);
    WeightOne(g, i);
    forall p | IsPath(g, p) && p[0] == i ensures Weight(g, p) <= g.steps[i].duration {
      if |p| > 1 { PathTail(g, p); } else { assert p == [i]; }
    }
  }

  lemma CutChainStale()
    ensures
      var h := DeleteDependency(Chain(), (5, 6));
      h.Valid() && h.Attached(4) && h.Sinks(4) == {} && IsTailTime(h, 4, 1.0)
  {
    var h := DeleteDependency(Chain(), (5, 6));
    assert forall e :: e in h.deps && e.0 == 4 ==> e == (4, 5);
    assert forall t :: (5, t) !in h.deps;
    assert h.Sinks(4) == {};
    TailOfLast(h, 4);
  }

  /** The seeds without the flagged steps that have a flagged step further downstream. */
  ghost predicate IsNarrowSeed(g: Graph, flagged: set<Id>, i: Id) {
    && i in flagged && g.Attached(i)
    && !exists t, j :: t in g.Sinks(i) && j in flagged && Downstream(g, t, j)
  }

  lemma ChainNarrowSeed(i: Id)
    ensures IsNarrowSeed(Chain(), {2, 4, 6}, i) <==> i == 6
  {
    ChainFacts();
    assert Chain().Attached(i) <==> i in Chain().AttachedSteps();
    forall j | j in {4, 6} ensures Downstream(Chain(), j, j) {
      assert IsPath(Chain(), [j]) && [j][0] == j && [j][|[j]| - 1] == j;
    }
    assert 4 in Chain().Sinks(2) && 6 in Chain().Sinks(4);
  }

  lemma ChainIsFlagged()
    ensures FlagsComplete(Chain(), ChainColumns(OPTIONAL), {2, 4, 6})
  {
    ChainFacts();
    ChainColumnsFacts(OPTIONAL);
    assert forall i :: Chain().Attached(i) ==> i in Chain().AttachedSteps();
  }

  lemma OneFeeds(g: Graph, p: Id, t: Id)
    requires g.Attached(p) && p in g.steps && t in g.Sinks(p)
    requires forall i :: i in g.steps && i != p ==> t !in g.Sinks(i)
    ensures Propagated(g, {t}) == {p}
  {
    assert g.Feeds(p, t);
    forall i | i in Propagated(g, {t}) ensures i == p { assert t in g.Sinks(i); }
  }

  lemma NarrowRound()
    ensures
      var g, c := Chain(), ChainColumns(OPTIONAL);
      && g.Valid() && Covers(g, c)
      && Changed(g, c, {6}, true) == {6} && Updated(g, c, {6}) == c && Propagated(g, {6}) == {4}
  {
    ChainFacts();
    ChainColumnsFacts(OPTIONAL);
    UpdateOfAgreed(Chain(), ChainColumns(OPTIONAL), {6});
    OneFeeds(Chain(), 4, 6);
  }

  lemma NextRoundStops()
    ensures
      var g, c := Chain(), ChainColumns(OPTIONAL);
      g.Valid() && Covers(g, c) && Changed(g, c, {4}, false) == {} && !Agrees(g, c, 2)
  {
    ChainFacts();
    ChainColumnsFacts(OPTIONAL);
  }

  /**
   * The narrower seed set is unsound: propagation stops at step 4, whose values do not change,
   * and step 2 keeps a need that is too low.
   */
  lemma NarrowSeedsMissAStep()
    ensures
      var g, c, flagged := Chain(), ChainColumns(OPTIONAL), {2, 4, 6};
      && g.Valid() && Covers(g, c) && Acyclic(g) && FlagsComplete(g, c, flagged)
      && (forall i :: IsNarrowSeed(g, flagged, i) <==> i == 6)
      && Updated(g, c, Changed(g, c, {6}, true)) == c
      && Propagated(g, Changed(g, c, {6}, true)) == {4}
      && Changed(g, c, {4}, false) == {} && Leaves(g, Work(c, {6}), c)
      && !Agrees(g, c, 2)
  {
    ChainAcyclic();
    ChainIsFlagged();
    NarrowRound();
    NextRoundStops();
    ChainColumnsFacts(OPTIONAL);
    AtRestLeaves(Chain(), ChainColumns(OPTIONAL), {6});
    forall i ensures IsNarrowSeed(Chain(), {2, 4, 6}, i) <==> i == 6 { ChainNarrowSeed(i); }
  }
}
