/**
 * scheduler.py: the worklist that keeps `_implied_need` and `_tail_time` of every attached step
 * equal to their definitions over the step graph.
 */
module AfterUpdate {
  import opened Basics
  import opened Bytewise
  import opened Enums
  import opened PathPrefix

  type Id = int

  datatype StepRow = StepRow(need: int, duration: real, detached: bool)
  datatype FileRow = FileRow(path: Bytes, detached: bool, volatile: bool)

  /** The rows of step, file, dependency and the two target tables that the queries read. */
  datatype Graph = Graph(
    steps: map<Id, StepRow>,
    files: map<Id, FileRow>,
    deps: set<(Id, Id)>,
    targetPaths: set<Bytes>,
    targetDirs: set<Bytes>)
  {
    /** Column constraints of the step table, and the check of `dir_range_upper`. */
    predicate Valid() {
      && (forall i :: i in steps ==> steps[i].duration >= 0.0 && steps[i].need in {OPTIONAL, DEFAULT, PLAN})
      && (forall d :: d in targetDirs ==> EndsWithSlash(d))
    }

    predicate Attached(i: Id) { i in steps && !steps[i].detached }

    function AttachedSteps(): set<Id> { set i | i in steps && Attached(i) }

    /** Two dependency hops, step to file to step, with an attached sink. */
    predicate Feeds(i: Id, t: Id) {
      Attached(t) && exists e :: e in deps && e.0 == i && (e.1, t) in deps
    }

    function Sinks(i: Id): set<Id> { set t | t in steps && Feeds(i, t) }

    predicate RegularOutput(i: Id, f: Id) {
      f in files && (i, f) in deps && !files[f].detached && !files[f].volatile
    }

    predicate MakesTargetPath(i: Id) {
      exists f | f in files :: RegularOutput(i, f) && files[f].path in targetPaths
    }

    predicate MakesTargetDirEntry(i: Id)
      requires Valid()
    {
      exists f | f in files :: RegularOutput(i, f) &&
        exists d | d in targetDirs :: InRange(d, DirRangeUpper(d).bytes, files[f].path)
    }

    /** The declared need, lifted to TARGET when an output is a target. */
    function OwnNeed(i: Id): int
      requires Valid() && i in steps
    {
      var lift :=
        if MakesTargetPath(i) then TARGET
        else if steps[i].need == DEFAULT && MakesTargetDirEntry(i) then TARGET
        else OPTIONAL;
      if steps[i].need >= lift then steps[i].need else lift
    }
  }

  /**
   * The lift of a step depends on targets exactly as `stepup build` documents them: only on attached
   * outputs that are not volatile.
   */
  lemma LiftMeaning(g: Graph, i: Id)
    requires g.Valid() && i in g.steps
    ensures g.OwnNeed(i) ==
      if g.steps[i].need == PLAN then PLAN
      else if (exists f | f in g.files :: (i, f) in g.deps && !g.files[f].detached && !g.files[f].volatile
                                          && g.files[f].path in g.targetPaths) then TARGET
      else if g.steps[i].need == DEFAULT &&
              (exists f, d | f in g.files && d in g.targetDirs ::
                 (i, f) in g.deps && !g.files[f].detached && !g.files[f].volatile && d <= g.files[f].path)
      then TARGET
      else g.steps[i].need
  {
    forall f, d | f in g.files && d in g.targetDirs
      ensures InRange(d, DirRangeUpper(d).bytes, g.files[f].path) <==> d <= g.files[f].path
    {
      DirRangeIsPrefix(d, g.files[f].path);
    }
  }

  // ---- The two columns and their local formulas ----

  datatype Columns = Columns(need: map<Id, int>, tail: map<Id, real>)

  /** One row per step, and the `CHECK(_tail_time >= 0)` of the schema. */
  predicate Covers(g: Graph, c: Columns) {
    && c.need.Keys == g.steps.Keys && c.tail.Keys == g.steps.Keys
    && forall i :: i in c.tail ==> c.tail[i] >= 0.0
  }

  lemma {:induction false} MaxIntExists(s: set<int>) returns (m: int)
    requires s != {}
    ensures m in s && forall x :: x in s ==> x <= m
  {
    var x := Member(s);
    m := x;
    if s - {x} == {} {
      assert s == {x};
    } else {
      var r := MaxIntExists(s - {x});
      m := if r > x then r else x;
      forall y | y in s ensures y <= m {
        assert y == x || y in s - {x};
      }
    }
  }

  function MaxInt(s: set<int>): (m: int)
    requires s != {}
    ensures m in s && forall x :: x in s ==> x <= m
  {
    assert exists m :: m in s && forall x :: x in s ==> x <= m by { var w := MaxIntExists(s); }
    var m :| m in s && forall x :: x in s ==> x <= m;
    m
  }

  lemma {:induction false} MaxRealExists(s: set<real>) returns (m: real)
    requires s != {}
    ensures m in s && forall x :: x in s ==> x <= m
  {
    var x := Member(s);
    m := x;
    if s - {x} == {} {
      assert s == {x};
    } else {
      var r := MaxRealExists(s - {x});
      m := if r > x then r else x;
      forall y | y in s ensures y <= m {
        assert y == x || y in s - {x};
      }
    }
  }

  function MaxReal(s: set<real>): (m: real)
    requires s != {}
    ensures m in s && forall x :: x in s ==> x <= m
  {
    assert exists m :: m in s && forall x :: x in s ==> x <= m by { var w := MaxRealExists(s); }
    var m :| m in s && forall x :: x in s ==> x <= m;
    m
  }

  /** `MAX(step.need, <lift>, COALESCE(MAX(sink_step._implied_need), OPTIONAL))`. */
  function NewNeed(g: Graph, c: Columns, i: Id): int
    requires g.Valid() && Covers(g, c) && i in g.steps
  {
    MaxInt({g.OwnNeed(i)} + set t | t in g.Sinks(i) :: c.need[t])
  }

  /** `step.duration + COALESCE(MAX(sink_step._tail_time), 0)`. */
  function NewTail(g: Graph, c: Columns, i: Id): real
    requires g.Valid() && Covers(g, c) && i in g.steps
  {
    var tails := set t | t in g.Sinks(i) :: c.tail[t];
    g.steps[i].duration + if tails == {} then 0.0 else MaxReal(tails)
  }

  predicate Agrees(g: Graph, c: Columns, i: Id)
    requires g.Valid() && Covers(g, c) && i in g.steps
  {
    c.need[i] == NewNeed(g, c, i) && c.tail[i] == NewTail(g, c, i)
  }

  /** The ids that UPDATE_CHECK_AFTER returns. */
  function Changed(g: Graph, c: Columns, check: set<Id>, first: bool): set<Id>
    requires g.Valid() && Covers(g, c) && check <= g.steps.Keys
  {
    set i | i in check && (first || !Agrees(g, c, i))
  }

  /** The columns after UPDATE_CHECK_AFTER; every new value is computed from the old columns. */
  function Updated(g: Graph, c: Columns, changed: set<Id>): (r: Columns)
    requires g.Valid() && Covers(g, c) && changed <= g.steps.Keys
    ensures Covers(g, r)
  {
    Columns(map i | i in g.steps :: if i in changed then NewNeed(g, c, i) else c.need[i],
            map i | i in g.steps :: if i in changed then NewTail(g, c, i) else c.tail[i])
  }

  /** PROPAGATE_CHECK_AFTER: the attached steps that feed a changed one. */
  function Propagated(g: Graph, changed: set<Id>): set<Id> {
    set p | p in g.steps && g.Attached(p) && exists t | t in changed :: g.Feeds(p, t)
  }

  // ---- What the columns mean, without recursion over values ----

  ghost predicate IsPath(g: Graph, p: seq<Id>) {
    && p != []
    && (forall k :: 0 <= k < |p| ==> g.Attached(p[k]))
    && (forall k :: 0 <= k < |p| - 1 ==> g.Feeds(p[k], p[k + 1]))
  }

  ghost predicate Acyclic(g: Graph) {
    forall p :: IsPath(g, p) && |p| > 1 ==> p[0] != p[|p| - 1]
  }

  ghost predicate Downstream(g: Graph, i: Id, j: Id) {
    exists p :: IsPath(g, p) && p[0] == i && p[|p| - 1] == j
  }

  /** `n` is the largest own need among the steps reachable downstream of `i`, `i` included. */
  ghost predicate IsImpliedNeed(g: Graph, i: Id, n: int)
    requires g.Valid()
  {
    && (exists j :: Downstream(g, i, j) && j in g.steps && n == g.OwnNeed(j))
    && (forall j :: Downstream(g, i, j) && j in g.steps ==> g.OwnNeed(j) <= n)
  }

  ghost function Weight(g: Graph, p: seq<Id>): real
    requires forall k :: 0 <= k < |p| ==> p[k] in g.steps
  {
    if p == [] then 0.0 else g.steps[p[0]].duration + Weight(g, p[1..])
  }

  /** `t` is the total duration of the heaviest path that starts at `i`. */
  ghost predicate IsTailTime(g: Graph, i: Id, t: real) {
    && (exists p :: IsPath(g, p) && p[0] == i && t == Weight(g, p))
    && (forall p :: IsPath(g, p) && p[0] == i ==> Weight(g, p) <= t)
  }

  lemma PathTail(g: Graph, p: seq<Id>)
    requires IsPath(g, p) && |p| > 1
    ensures IsPath(g, p[1..]) && p[1] in g.Sinks(p[0])
  {
    assert g.Feeds(p[0], p[0 + 1]);
    forall k | 0 <= k < |p[1..]| - 1 ensures g.Feeds(p[1..][k], p[1..][k + 1]) {
      assert g.Feeds(p[k + 1], p[k + 1 + 1]);
    }
  }

  lemma PathCons(g: Graph, i: Id, p: seq<Id>)
    requires g.Attached(i) && IsPath(g, p) && g.Feeds(i, p[0])
    ensures IsPath(g, [i] + p) && ([i] + p)[1..] == p
  {
    var q := [i] + p;
    forall k | 0 <= k < |q| - 1 ensures g.Feeds(q[k], q[k + 1]) {
      if k > 0 { assert g.Feeds(p[k - 1], p[k - 1 + 1]); }
    }
  }

  /** On an acyclic graph a path visits no step twice, so it is no longer than the step count. */
  lemma PathBound(g: Graph, p: seq<Id>)
    requires Acyclic(g) && IsPath(g, p)
    ensures Distinct(p) && |p| <= |g.AttachedSteps()|
  {
    forall j, k | 0 <= j < k < |p| ensures p[j] != p[k] {
      var q := p[j..k + 1];
      forall m | 0 <= m < |q| - 1 ensures g.Feeds(q[m], q[m + 1]) {
        assert g.Feeds(p[j + m], p[j + m + 1]);
      }
      assert IsPath(g, q);
    }
    DistinctBound(p, g.AttachedSteps());
  }

  ghost predicate AllAgree(g: Graph, c: Columns)
    requires g.Valid() && Covers(g, c)
  {
    forall i :: g.Attached(i) ==> Agrees(g, c, i)
  }

  /** The two maxima of a row, spelled out as bounds that some row attains. */
  ghost predicate Bounded(g: Graph, c: Columns, i: Id)
    requires g.Valid() && Covers(g, c) && i in g.steps
  {
    && g.OwnNeed(i) <= c.need[i]
    && (forall t :: t in g.Sinks(i) ==> c.need[t] <= c.need[i])
    && (c.need[i] == g.OwnNeed(i) || exists t :: t in g.Sinks(i) && c.need[t] == c.need[i])
    && (forall t :: t in g.Sinks(i) ==> g.steps[i].duration + c.tail[t] <= c.tail[i])
    && (c.tail[i] == g.steps[i].duration ||
        exists t :: t in g.Sinks(i) && c.tail[i] == g.steps[i].duration + c.tail[t])
    && g.steps[i].duration <= c.tail[i]
  }

  lemma AgreesIsBounded(g: Graph, c: Columns, i: Id)
    requires g.Valid() && Covers(g, c) && i in g.steps && Agrees(g, c, i)
    ensures Bounded(g, c, i)
  {
    var needs := {g.OwnNeed(i)} + set t | t in g.Sinks(i) :: c.need[t];
    assert MaxInt(needs) in needs;
    forall t | t in g.Sinks(i) ensures c.need[t] <= c.need[i] {
      assert c.need[t] in needs;
    }
    var tails := set t | t in g.Sinks(i) :: c.tail[t];
    forall t | t in g.Sinks(i) ensures g.steps[i].duration + c.tail[t] <= c.tail[i] {
      assert c.tail[t] in tails;
    }
    if tails != {} {
      assert MaxReal(tails) in tails;
    }
  }

  /** The bounds determine the two maxima. */
  lemma BoundedAgrees(g: Graph, c: Columns, i: Id)
    requires g.Valid() && Covers(g, c) && i in g.steps && Bounded(g, c, i)
    ensures Agrees(g, c, i)
  {
    var needs := {g.OwnNeed(i)} + set t | t in g.Sinks(i) :: c.need[t];
    assert MaxInt(needs) in needs && c.need[i] in needs;
    if g.Sinks(i) != {} { TailAttained(g, c, i); }
  }

  lemma TailAttained(g: Graph, c: Columns, i: Id)
    requires g.Valid() && Covers(g, c) && i in g.steps && Bounded(g, c, i) && g.Sinks(i) != {}
    ensures c.tail[i] == NewTail(g, c, i)
  {
    var tails := set t | t in g.Sinks(i) :: c.tail[t];
    var some := Member(g.Sinks(i));
    assert c.tail[some] in tails && 0.0 <= c.tail[some] <= MaxReal(tails);
    var top :| top in g.Sinks(i) && c.tail[top] == MaxReal(tails);
    assert g.steps[i].duration + c.tail[top] <= c.tail[i];
    if c.tail[i] != g.steps[i].duration {
      var t :| t in g.Sinks(i) && c.tail[i] == g.steps[i].duration + c.tail[t];
      assert c.tail[t] in tails;
    }
  }

  ghost predicate AllBounded(g: Graph, c: Columns)
    requires g.Valid() && Covers(g, c)
  {
    forall i :: g.Attached(i) ==> Bounded(g, c, i)
  }

  lemma HeadIsBounded(g: Graph, c: Columns, p: seq<Id>)
    requires g.Valid() && Covers(g, c) && AllBounded(g, c) && IsPath(g, p)
    ensures g.OwnNeed(p[0]) <= c.need[p[0]] && g.steps[p[0]].duration <= c.tail[p[0]]
    ensures |p| > 1 ==> c.need[p[1]] <= c.need[p[0]] && g.steps[p[0]].duration + c.tail[p[1]] <= c.tail[p[0]]
  {
    assert Bounded(g, c, p[0]);
    if |p| > 1 { assert g.Feeds(p[0], p[0 + 1]); }
  }

  lemma {:induction false} NeedUpperBound(g: Graph, c: Columns, p: seq<Id>)
    requires g.Valid() && Covers(g, c) && AllBounded(g, c) && IsPath(g, p)
    ensures g.OwnNeed(p[|p| - 1]) <= c.need[p[0]]
    decreases |p|
  {
    HeadIsBounded(g, c, p);
    if |p| > 1 {
      PathTail(g, p);
      NeedUpperBound(g, c, p[1..]);
    }
  }

  lemma {:induction false} TailUpperBound(g: Graph, c: Columns, p: seq<Id>)
    requires g.Valid() && Covers(g, c) && AllBounded(g, c) && IsPath(g, p)
    ensures Weight(g, p) <= c.tail[p[0]]
    decreases |p|
  {
    HeadIsBounded(g, c, p);
    if |p| > 1 {
      PathTail(g, p);
      TailUpperBound(g, c, p[1..]);
    } else {
      assert Weight(g, p[1..]) == 0.0;
    }
  }

  /** What is known of the last step of a path. */
  lemma EndOfPath(g: Graph, c: Columns, above: seq<Id>, i: Id)
    requires g.Valid() && Covers(g, c) && AllBounded(g, c) && Acyclic(g) && IsPath(g, above + [i])
    ensures g.Attached(i) && Bounded(g, c, i) && |above| < |g.AttachedSteps()|
    ensures IsPath(g, [i])
  {
    PathBound(g, above + [i]);
    assert g.Attached((above + [i])[|above|]);
  }

  /** Following the sink that realises the maximum ends, because paths are bounded. */
  lemma {:induction false} NeedWitness(g: Graph, c: Columns, above: seq<Id>, i: Id) returns (p: seq<Id>)
    requires g.Valid() && Covers(g, c) && AllBounded(g, c) && Acyclic(g) && IsPath(g, above + [i])
    ensures IsPath(g, p) && p[0] == i && c.need[i] == g.OwnNeed(p[|p| - 1])
    decreases |g.AttachedSteps()| - |above|
  {
    EndOfPath(g, c, above, i);
    if c.need[i] == g.OwnNeed(i) {
      p := [i];
    } else {
      var t :| t in g.Sinks(i) && c.need[t] == c.need[i];
      ExtendPath(g, above, i, t);
      var q := NeedWitness(g, c, above + [i], t);
      PathCons(g, i, q);
      p := [i] + q;
    }
  }

  lemma WeightCons(g: Graph, i: Id, q: seq<Id>)
    requires g.Attached(i) && IsPath(g, q) && g.Feeds(i, q[0])
    ensures IsPath(g, [i] + q) && Weight(g, [i] + q) == g.steps[i].duration + Weight(g, q)
  {
    PathCons(g, i, q);
    assert ([i] + q)[1..] == q;
  }

  lemma WeightOne(g: Graph, i: Id)
    requires g.Attached(i) && IsPath(g, [i])
    ensures Weight(g, [i]) == g.steps[i].duration
  {
    assert g.Attached([i][0]);
    assert Weight(g, [i][1..]) == 0.0;
  }

  /** The sink that realises the tail time of the last step of a path. */
  lemma NextOnTail(g: Graph, c: Columns, above: seq<Id>, i: Id) returns (t: Id)
    requires g.Valid() && Covers(g, c) && AllBounded(g, c) && Acyclic(g) && IsPath(g, above + [i])
    requires g.Attached(i) && c.tail[i] != g.steps[i].duration
    ensures g.Attached(t) && g.Feeds(i, t) && c.tail[i] == g.steps[i].duration + c.tail[t]
    ensures IsPath(g, above + [i] + [t])
  {
    assert Bounded(g, c, i);
    t :| t in g.Sinks(i) && c.tail[i] == g.steps[i].duration + c.tail[t];
    ExtendPath(g, above, i, t);
  }

  lemma {:induction false} TailWitness(g: Graph, c: Columns, above: seq<Id>, i: Id) returns (p: seq<Id>)
    requires g.Valid() && Covers(g, c) && AllBounded(g, c) && Acyclic(g) && IsPath(g, above + [i])
    ensures IsPath(g, p) && p[0] == i && c.tail[i] == Weight(g, p)
    decreases |g.AttachedSteps()| - |above|
  {
    EndOfPath(g, c, above, i);
    if c.tail[i] == g.steps[i].duration {
      p := [i];
      WeightOne(g, i);
    } else {
      var t := NextOnTail(g, c, above, i);
      var q := TailWitness(g, c, above + [i], t);
      WeightCons(g, i, q);
      p := [i] + q;
    }
  }

  lemma ExtendPath(g: Graph, above: seq<Id>, i: Id, t: Id)
    requires IsPath(g, above + [i]) && t in g.Sinks(i)
    ensures IsPath(g, above + [i] + [t])
  {
    var q, r := above + [i], above + [i] + [t];
    forall k | 0 <= k < |r| - 1 ensures g.Feeds(r[k], r[k + 1]) {
      if k < |q| - 1 { assert g.Feeds(q[k], q[k + 1]); }
    }
  }

  /** Local agreement everywhere is the global definition. */
  lemma AgreementIsDefinition(g: Graph, c: Columns, i: Id)
    requires g.Valid() && Covers(g, c) && Acyclic(g) && AllAgree(g, c) && g.Attached(i)
    ensures IsImpliedNeed(g, i, c.need[i])
    ensures IsTailTime(g, i, c.tail[i])
  {
    AllAgreeIsBounded(g, c);
    assert [] + [i] == [i];
    var p := NeedWitness(g, c, [], i);
    assert Downstream(g, i, p[|p| - 1]);
    forall j | Downstream(g, i, j) && j in g.steps ensures g.OwnNeed(j) <= c.need[i] {
      var q :| IsPath(g, q) && q[0] == i && q[|q| - 1] == j;
      NeedUpperBound(g, c, q);
    }
    var w := TailWitness(g, c, [], i);
    forall q | IsPath(g, q) && q[0] == i ensures Weight(g, q) <= c.tail[i] {
      TailUpperBound(g, c, q);
    }
  }

  lemma AllAgreeIsBounded(g: Graph, c: Columns)
    requires g.Valid() && Covers(g, c) && AllAgree(g, c)
    ensures AllBounded(g, c)
  {
    forall i | g.Attached(i) ensures Bounded(g, c, i) { AgreesIsBounded(g, c, i); }
  }

  /** A path that goes on from a sink is a path from the row itself. */
  lemma FromSink(g: Graph, i: Id, p: seq<Id>)
    requires g.Attached(i) && IsPath(g, p) && p[0] in g.Sinks(i)
    ensures IsPath(g, [i] + p) && ([i] + p)[|p|] == p[|p| - 1] && Weight(g, [i] + p) == g.steps[i].duration + Weight(g, p)
  {
    WeightCons(g, i, p);
  }

  lemma SinkNeedIsBounded(g: Graph, c: Columns, i: Id, t: Id)
    requires g.Valid() && Covers(g, c) && g.Attached(i) && t in g.Sinks(i)
    requires IsImpliedNeed(g, i, c.need[i]) && IsImpliedNeed(g, t, c.need[t])
    ensures c.need[t] <= c.need[i]
  {
    var j :| Downstream(g, t, j) && j in g.steps && c.need[t] == g.OwnNeed(j);
    var p :| IsPath(g, p) && p[0] == t && p[|p| - 1] == j;
    FromSink(g, i, p);
    assert Downstream(g, i, j);
  }

  /** The maximum is the row's own need, or that of a sink. */
  lemma NeedComesFrom(g: Graph, c: Columns, i: Id)
    requires g.Valid() && Covers(g, c) && g.Attached(i) && IsImpliedNeed(g, i, c.need[i])
    requires forall t :: t in g.Sinks(i) ==> c.need[t] <= c.need[i] && IsImpliedNeed(g, t, c.need[t])
    ensures c.need[i] == g.OwnNeed(i) || exists t :: t in g.Sinks(i) && c.need[t] == c.need[i]
  {
    var j :| Downstream(g, i, j) && j in g.steps && c.need[i] == g.OwnNeed(j);
    var p :| IsPath(g, p) && p[0] == i && p[|p| - 1] == j;
    if |p| > 1 {
      PathTail(g, p);
      assert Downstream(g, p[1], j) by { assert p[1..][0] == p[1] && p[1..][|p| - 2] == j; }
    }
  }

  lemma DefinedNeedIsBounded(g: Graph, c: Columns, i: Id)
    requires g.Valid() && Covers(g, c) && Defined(g, c) && g.Attached(i)
    ensures g.OwnNeed(i) <= c.need[i] && forall t :: t in g.Sinks(i) ==> c.need[t] <= c.need[i]
    ensures c.need[i] == g.OwnNeed(i) || exists t :: t in g.Sinks(i) && c.need[t] == c.need[i]
  {
    assert g.OwnNeed(i) <= c.need[i] by {
      assert IsPath(g, [i]) && [i][0] == i && [i][|[i]| - 1] == i;
      assert Downstream(g, i, i);
    }
    forall t | t in g.Sinks(i) ensures c.need[t] <= c.need[i] { SinkNeedIsBounded(g, c, i, t); }
    NeedComesFrom(g, c, i);
  }

  lemma DefinedTailIsBounded(g: Graph, c: Columns, i: Id)
    requires g.Valid() && Covers(g, c) && Defined(g, c) && g.Attached(i)
    ensures g.steps[i].duration <= c.tail[i]
    ensures forall t :: t in g.Sinks(i) ==> g.steps[i].duration + c.tail[t] <= c.tail[i]
    ensures c.tail[i] == g.steps[i].duration ||
            exists t :: t in g.Sinks(i) && c.tail[i] == g.steps[i].duration + c.tail[t]
  {
    assert IsPath(g, [i]);
    WeightOne(g, i);
    forall t | t in g.Sinks(i) ensures g.steps[i].duration + c.tail[t] <= c.tail[i] {
      var p :| IsPath(g, p) && p[0] == t && c.tail[t] == Weight(g, p);
      FromSink(g, i, p);
    }
    TailComesFrom(g, c, i);
  }

  lemma TailComesFrom(g: Graph, c: Columns, i: Id)
    requires g.Valid() && Covers(g, c) && Defined(g, c) && g.Attached(i)
    requires forall t :: t in g.Sinks(i) ==> g.steps[i].duration + c.tail[t] <= c.tail[i]
    ensures c.tail[i] == g.steps[i].duration ||
            exists t :: t in g.Sinks(i) && c.tail[i] == g.steps[i].duration + c.tail[t]
  {
    var p :| IsPath(g, p) && p[0] == i && c.tail[i] == Weight(g, p);
    if |p| > 1 {
      PathTail(g, p);
      assert IsTailTime(g, p[1], c.tail[p[1]]);
    } else {
      assert p == [i];
      WeightOne(g, i);
    }
  }

  /** On an acyclic graph the local formulas hold everywhere exactly when the columns are what they should be. */
  lemma DefinedIffAgree(g: Graph, c: Columns)
    requires g.Valid() && Covers(g, c) && Acyclic(g)
    ensures Defined(g, c) <==> AllAgree(g, c)
  {
    if AllAgree(g, c) { AllAgreeIsDefined(g, c); }
    if Defined(g, c) {
      forall i | g.Attached(i) ensures Agrees(g, c, i) {
        DefinedNeedIsBounded(g, c, i);
        DefinedTailIsBounded(g, c, i);
        BoundedAgrees(g, c, i);
      }
    }
  }

  /**
   * Acyclicity is needed, not only sufficient: when every step takes time,
   * the columns can come to rest only on an acyclic graph.
   */
  lemma AgreementNeedsAcyclic(g: Graph, c: Columns)
    requires g.Valid() && Covers(g, c) && AllAgree(g, c)
    requires forall i :: g.Attached(i) ==> g.steps[i].duration > 0.0
    ensures Acyclic(g)
  {
    AllAgreeIsBounded(g, c);
    forall p | IsPath(g, p) && |p| > 1 ensures p[0] != p[|p| - 1] {
      TailAlongPath(g, c, p);
    }
  }

  lemma {:induction false} TailAlongPath(g: Graph, c: Columns, p: seq<Id>)
    requires g.Valid() && Covers(g, c) && AllBounded(g, c) && IsPath(g, p) && |p| > 1
    ensures c.tail[p[0]] >= g.steps[p[0]].duration + c.tail[p[|p| - 1]]
    decreases |p|
  {
    PathTail(g, p);
    assert Bounded(g, c, p[0]);
    if |p| > 2 {
      TailAlongPath(g, c, p[1..]);
    }
  }

  // ---- One round of the worklist ----

  /**
   * The attached steps that may disagree before a round: those in the worklist and, in the first round,
   * which propagates whether or not anything changed, also those that feed one of these.
   */
  function Suspects(g: Graph, check: set<Id>, first: bool): set<Id> {
    check + if first then Propagated(g, check) else {}
  }

  /** Every attached step outside the next worklist agrees after the round. */
  lemma RoundKeepsAgreement(g: Graph, c: Columns, check: set<Id>, first: bool)
    requires g.Valid() && Covers(g, c) && check <= g.AttachedSteps()
    requires forall i :: g.Attached(i) && i !in Suspects(g, check, first) ==> Agrees(g, c, i)
    ensures
      var changed := Changed(g, c, check, first);
      forall i :: g.Attached(i) && i !in Propagated(g, changed) ==> Agrees(g, Updated(g, c, changed), i)
  {
    var changed := Changed(g, c, check, first);
    var r := Updated(g, c, changed);
    if first { assert changed == check; }
    forall i | g.Attached(i) && i !in Propagated(g, changed) ensures Agrees(g, r, i) {
      forall t | t in g.Sinks(i) ensures r.need[t] == c.need[t] && r.tail[t] == c.tail[t] {
        assert t !in changed;
      }
      SameInputsSameFormula(g, c, r, i);
    }
  }

  lemma SameInputsSameFormula(g: Graph, c: Columns, r: Columns, i: Id)
    requires g.Valid() && Covers(g, c) && Covers(g, r) && i in g.steps
    requires forall t :: t in g.Sinks(i) ==> r.need[t] == c.need[t] && r.tail[t] == c.tail[t]
    ensures NewNeed(g, r, i) == NewNeed(g, c, i) && NewTail(g, r, i) == NewTail(g, c, i)
  {
    assert (set t | t in g.Sinks(i) :: r.need[t]) == (set t | t in g.Sinks(i) :: c.need[t]);
    assert (set t | t in g.Sinks(i) :: r.tail[t]) == (set t | t in g.Sinks(i) :: c.tail[t]);
  }

  /** A step in the worklist of round `k` starts a path of `k + 1` steps that ends at a flagged one. */
  ghost predicate Traced(g: Graph, flagged: set<Id>, i: Id, k: nat) {
    exists p :: IsPath(g, p) && |p| == k + 1 && p[0] == i && p[k] in flagged
  }

  lemma RoundTraces(g: Graph, flagged: set<Id>, check: set<Id>, changed: set<Id>, k: nat)
    requires changed <= check
    requires forall i :: i in check ==> Traced(g, flagged, i, k)
    ensures forall i :: i in Propagated(g, changed) ==> Traced(g, flagged, i, k + 1)
  {
    forall i | i in Propagated(g, changed) ensures Traced(g, flagged, i, k + 1) {
      var t :| t in changed && g.Feeds(i, t);
      var p :| IsPath(g, p) && |p| == k + 1 && p[0] == t && p[k] in flagged;
      PathCons(g, i, p);
      assert ([i] + p)[k + 1] == p[k];
    }
  }

  /** Rows of steps that reach no flagged step hold what they held before. */
  ghost predicate Untouched(g: Graph, flagged: set<Id>, before: Columns, after: Columns)
    requires Covers(g, before) && Covers(g, after)
  {
    forall i :: i in g.steps && !UpstreamOfFlag(g, flagged, i) ==>
      after.need[i] == before.need[i] && after.tail[i] == before.tail[i]
  }

  ghost predicate UpstreamOfFlag(g: Graph, flagged: set<Id>, i: Id) {
    exists k: nat :: Traced(g, flagged, i, k)
  }

  lemma RoundLeavesRestUntouched(g: Graph, flagged: set<Id>, before: Columns, c: Columns, changed: set<Id>, k: nat)
    requires g.Valid() && Covers(g, before) && Covers(g, c) && changed <= g.steps.Keys
    requires Untouched(g, flagged, before, c)
    requires forall i :: i in changed ==> Traced(g, flagged, i, k)
    ensures Untouched(g, flagged, before, Updated(g, c, changed))
  {
  }

  lemma SeedsAreTraced(g: Graph, flagged: set<Id>, check: set<Id>)
    requires forall i :: i in check ==> i in flagged && g.Attached(i)
    ensures forall i :: i in check ==> Traced(g, flagged, i, 0)
  {
    forall i | i in check ensures Traced(g, flagged, i, 0) {
      assert IsPath(g, [i]) && [i][0] in flagged;
    }
  }

  /** What holds before every round, whatever was flagged. */
  ghost predicate Progress(g: Graph, flagged: set<Id>, before: Columns, c: Columns, check: set<Id>, k: nat)
    requires g.Valid() && Covers(g, before) && Covers(g, c)
  {
    && check <= g.AttachedSteps()
    && (forall i :: i in check ==> Traced(g, flagged, i, k))
    && Untouched(g, flagged, before, c)
  }

  lemma ProgressKept(g: Graph, flagged: set<Id>, before: Columns, c: Columns, check: set<Id>, k: nat)
    requires g.Valid() && Covers(g, before) && Covers(g, c) && Progress(g, flagged, before, c, check, k)
    ensures
      var changed := Changed(g, c, check, k == 0);
      Progress(g, flagged, before, Updated(g, c, changed), Propagated(g, changed), k + 1)
  {
    var changed := Changed(g, c, check, k == 0);
    RoundTraces(g, flagged, check, changed, k);
    RoundLeavesRestUntouched(g, flagged, before, c, changed, k);
  }

  /** What holds before every round when every disagreement was flagged. */
  ghost predicate RoundInvariant(g: Graph, flagged: set<Id>, before: Columns, c: Columns, check: set<Id>, k: nat)
    requires g.Valid() && Covers(g, before) && Covers(g, c)
  {
    && Progress(g, flagged, before, c, check, k)
    && (forall i :: g.Attached(i) && i !in Suspects(g, check, k == 0) ==> Agrees(g, c, i))
  }

  lemma RoundInvariantKept(g: Graph, flagged: set<Id>, before: Columns, c: Columns, check: set<Id>, first: bool, k: nat)
    requires g.Valid() && Covers(g, before) && Covers(g, c) && first == (k == 0)
    requires RoundInvariant(g, flagged, before, c, check, k)
    ensures
      var changed := Changed(g, c, check, first);
      RoundInvariant(g, flagged, before, Updated(g, c, changed), Propagated(g, changed), k + 1)
  {
    RoundKeepsAgreement(g, c, check, first);
    ProgressKept(g, flagged, before, c, check, k);
  }

  // ---- All rounds ----

  /** What the loop carries from round to round. */
  datatype Work = Work(columns: Columns, check: set<Id>)

  function Seeds(g: Graph, flagged: set<Id>): set<Id> { set i | i in flagged && g.Attached(i) }

  predicate Ready(g: Graph, w: Work) {
    g.Valid() && Covers(g, w.columns) && w.check <= g.steps.Keys
  }

  function AfterRound(g: Graph, w: Work, first: bool): (r: Work)
    requires Ready(g, w)
    ensures Ready(g, r)
  {
    var changed := Changed(g, w.columns, w.check, first);
    Work(Updated(g, w.columns, changed), Propagated(g, changed))
  }

  /** The loop body as a function of the state and the number of the round. */
  function Turn(g: Graph, w: Work, k: nat): Work {
    if Ready(g, w) then AfterRound(g, w, k == 0) else w
  }

  function Loop(g: Graph): (Work, nat) -> Work {
    (w: Work, k: nat) => Turn(g, w, k)
  }

  lemma OneTurn(g: Graph, w: Work, k: nat)
    ensures Loop(g)(w, k) == Turn(g, w, k)
  {
  }

  function Iterate<W>(f: (W, nat) -> W, w: W, n: nat): W {
    if n == 0 then w else f(Iterate(f, w, n - 1), n - 1)
  }

  lemma {:induction false} FixedStays<W(!new)>(f: (W, nat) -> W, w: W, e: W, n: nat, m: nat)
    requires n <= m && Iterate(f, w, n) == e && forall k: nat :: f(e, k) == e
    ensures Iterate(f, w, m) == e
    decreases m
  {
    if n < m { FixedStays(f, w, e, n, m - 1); }
  }

  lemma {:induction false} AlwaysHolds<W(!new)>(f: (W, nat) -> W, w: W, inv: (W, nat) -> bool, n: nat)
    requires inv(w, 0) && forall v, k: nat :: inv(v, k) ==> inv(f(v, k), k + 1)
    ensures inv(Iterate(f, w, n), n)
    decreases n
  {
    if n > 0 { AlwaysHolds(f, w, inv, n - 1); }
  }

  /** The loop ends, and these are the columns it leaves. */
  ghost predicate Leaves(g: Graph, w: Work, c: Columns) {
    exists n: nat :: Iterate(Loop(g), w, n) == Work(c, {})
  }

  lemma NothingToDo(g: Graph, c: Columns, k: nat)
    ensures Loop(g)(Work(c, {}), k) == Work(c, {})
  {
    OneTurn(g, Work(c, {}), k);
    if Ready(g, Work(c, {})) {
      assert Changed(g, c, {}, k == 0) == {};
      assert Updated(g, c, {}).need == c.need && Updated(g, c, {}).tail == c.tail;
    }
  }

  /** The loop leaves one set of columns only. */
  lemma LeavesOnce(g: Graph, w: Work, a: Columns, b: Columns)
    requires Leaves(g, w, a) && Leaves(g, w, b)
    ensures a == b
  {
    var n: nat :| Iterate(Loop(g), w, n) == Work(a, {});
    var m: nat :| Iterate(Loop(g), w, m) == Work(b, {});
    forall k: nat ensures Loop(g)(Work(a, {}), k) == Work(a, {}) { NothingToDo(g, a, k); }
    forall k: nat ensures Loop(g)(Work(b, {}), k) == Work(b, {}) { NothingToDo(g, b, k); }
    if n <= m { FixedStays(Loop(g), w, Work(a, {}), n, m); } else { FixedStays(Loop(g), w, Work(b, {}), m, n); }
  }

  /** Both invariants, the second when every disagreement was flagged. */
  ghost predicate UnderWay(g: Graph, flagged: set<Id>, before: Columns, w: Work, k: nat)
    requires g.Valid() && Covers(g, before)
  {
    && Ready(g, w) && Progress(g, flagged, before, w.columns, w.check, k)
    && (FlagsComplete(g, before, flagged) ==> RoundInvariant(g, flagged, before, w.columns, w.check, k))
  }

  lemma RoundGoesOn(g: Graph, flagged: set<Id>, before: Columns, w: Work, k: nat)
    requires g.Valid() && Covers(g, before) && UnderWay(g, flagged, before, w, k)
    ensures UnderWay(g, flagged, before, Turn(g, w, k), k + 1)
  {
    ProgressKept(g, flagged, before, w.columns, w.check, k);
    if FlagsComplete(g, before, flagged) {
      RoundInvariantKept(g, flagged, before, w.columns, w.check, k == 0, k);
    }
  }

  lemma LoopGoesOn(g: Graph, flagged: set<Id>, before: Columns, n: nat)
    requires g.Valid() && Covers(g, before)
    ensures UnderWay(g, flagged, before, Iterate(Loop(g), Work(before, Seeds(g, flagged)), n), n)
  {
    var inv := (w: Work, k: nat) => UnderWay(g, flagged, before, w, k);
    SeedsAreTraced(g, flagged, Seeds(g, flagged));
    forall w, k: nat | inv(w, k) ensures inv(Loop(g)(w, k), k + 1) {
      RoundGoesOn(g, flagged, before, w, k);
      OneTurn(g, w, k);
    }
    AlwaysHolds(Loop(g), Work(before, Seeds(g, flagged)), inv, n);
  }

  /** The rows of files that are attached and not volatile. */
  function RegularFiles(g: Graph): map<Id, FileRow> {
    map f | f in g.files && !g.files[f].detached && !g.files[f].volatile :: g.files[f]
  }

  lemma OtherFilesDoNotLift(g: Graph, i: Id)
    requires g.Valid() && i in g.steps
    ensures g.(files := RegularFiles(g)).Valid() && g.(files := RegularFiles(g)).OwnNeed(i) == g.OwnNeed(i)
  {
    var h := g.(files := RegularFiles(g));
    LiftMeaning(g, i);
    LiftMeaning(h, i);
    forall f | f in g.files && !g.files[f].detached && !g.files[f].volatile
      ensures f in h.files && h.files[f] == g.files[f]
    {
    }
    assert h.deps == g.deps && h.steps == g.steps && h.targetPaths == g.targetPaths && h.targetDirs == g.targetDirs;
  }

  lemma OtherFilesDoNotTurn(g: Graph, w: Work, k: nat)
    ensures Turn(g.(files := RegularFiles(g)), w, k) == Turn(g, w, k)
  {
    var h := g.(files := RegularFiles(g));
    if Ready(g, w) {
      forall i | i in g.steps
        ensures h.OwnNeed(i) == g.OwnNeed(i) && h.Sinks(i) == g.Sinks(i) && (Agrees(h, w.columns, i) <==> Agrees(g, w.columns, i))
        ensures NewNeed(h, w.columns, i) == NewNeed(g, w.columns, i) && NewTail(h, w.columns, i) == NewTail(g, w.columns, i)
      {
        OtherFilesDoNotLift(g, i);
        assert forall t :: h.Feeds(i, t) <==> g.Feeds(i, t);
      }
      SameTurn(g, h, w, k);
    }
  }

  /** Equal formulas and equal edges make equal rounds. */
  lemma SameTurn(g: Graph, h: Graph, w: Work, k: nat)
    requires Ready(g, w) && Ready(h, w) && h.steps == g.steps && h.deps == g.deps
    requires forall i :: i in g.steps ==>
               && (Agrees(h, w.columns, i) <==> Agrees(g, w.columns, i))
               && NewNeed(h, w.columns, i) == NewNeed(g, w.columns, i) && NewTail(h, w.columns, i) == NewTail(g, w.columns, i)
    ensures Turn(h, w, k) == Turn(g, w, k)
  {
    var changed := Changed(g, w.columns, w.check, k == 0);
    assert Changed(h, w.columns, w.check, k == 0) == changed;
    assert Updated(h, w.columns, changed) == Updated(g, w.columns, changed);
    SameFeeds(g, h, changed);
  }

  lemma SameFeeds(g: Graph, h: Graph, changed: set<Id>)
    requires h.steps == g.steps && h.deps == g.deps
    ensures Propagated(h, changed) == Propagated(g, changed)
  {
    assert forall i, t :: h.Feeds(i, t) <==> g.Feeds(i, t);
  }

  lemma {:induction false} SameIterates<W(!new)>(a: (W, nat) -> W, b: (W, nat) -> W, w: W, n: nat)
    requires forall v, k: nat :: a(v, k) == b(v, k)
    ensures Iterate(a, w, n) == Iterate(b, w, n)
    decreases n
  {
    if n > 0 { SameIterates(a, b, w, n - 1); }
  }

  /** Volatile and detached files have no part in the update: without their rows it leaves the same columns. */
  lemma OtherFilesDoNotMatter(g: Graph, w: Work, c: Columns)
    ensures Leaves(g, w, c) <==> Leaves(g.(files := RegularFiles(g)), w, c)
  {
    var h := g.(files := RegularFiles(g));
    forall v, k: nat ensures Loop(g)(v, k) == Loop(h)(v, k) {
      OneTurn(g, v, k);
      OneTurn(h, v, k);
      OtherFilesDoNotTurn(g, v, k);
    }
    forall n: nat ensures Iterate(Loop(g), w, n) == Iterate(Loop(h), w, n) { SameIterates(Loop(g), Loop(h), w, n); }
  }

  /** Complete flags are enough: the columns that the loop leaves are the defined ones. */
  lemma LeavesSettled(g: Graph, flagged: set<Id>, before: Columns, c: Columns)
    requires g.Valid() && Covers(g, before) && Acyclic(g) && FlagsComplete(g, before, flagged)
    requires Leaves(g, Work(before, Seeds(g, flagged)), c)
    ensures Covers(g, c) && Settled(g, flagged, before, c)
  {
    var n: nat :| Iterate(Loop(g), Work(before, Seeds(g, flagged)), n) == Work(c, {});
    LoopGoesOn(g, flagged, before, n);
    LastRound(g, flagged, before, c, n);
  }

  /** Every attached row holds the defined values. */
  ghost predicate Defined(g: Graph, c: Columns)
    requires g.Valid() && Covers(g, c)
  {
    forall i :: g.Attached(i) ==> IsImpliedNeed(g, i, c.need[i]) && IsTailTime(g, i, c.tail[i])
  }

  lemma AllAgreeIsDefined(g: Graph, c: Columns)
    requires g.Valid() && Covers(g, c) && Acyclic(g) && AllAgree(g, c)
    ensures Defined(g, c)
  {
    forall i | g.Attached(i) ensures IsImpliedNeed(g, i, c.need[i]) && IsTailTime(g, i, c.tail[i]) {
      AgreementIsDefinition(g, c, i);
    }
  }

  /** An attached step that disagrees is flagged itself, or one of its sinks is. */
  ghost predicate FlagsComplete(g: Graph, c: Columns, flagged: set<Id>)
    requires g.Valid() && Covers(g, c)
  {
    forall i :: g.Attached(i) && i !in flagged && (forall t :: t in g.Sinks(i) ==> t !in flagged)
      ==> Agrees(g, c, i)
  }

  /** The postcondition of the worklist, over columns. */
  ghost predicate Settled(g: Graph, flagged: set<Id>, before: Columns, c: Columns)
    requires g.Valid() && Covers(g, before) && Covers(g, c)
  {
    FlagsComplete(g, c, {}) && Defined(g, c) && Untouched(g, flagged, before, c)
  }

  lemma LastRound(g: Graph, flagged: set<Id>, before: Columns, c: Columns, k: nat)
    requires g.Valid() && Covers(g, before) && Covers(g, c) && Acyclic(g)
    requires RoundInvariant(g, flagged, before, c, {}, k)
    ensures Settled(g, flagged, before, c)
  {
    AllAgreeIsDefined(g, c);
  }

  /** What the update leaves, in general and when every disagreement was flagged. */
  ghost predicate Outcome(g: Graph, flagged: set<Id>, before: Columns, c: Columns)
    requires g.Valid() && Covers(g, before) && Covers(g, c) && Acyclic(g)
  {
    && Leaves(g, Work(before, Seeds(g, flagged)), c) && Untouched(g, flagged, before, c)
    && (FlagsComplete(g, before, flagged) ==> Settled(g, flagged, before, c))
  }

  lemma RoundsAreOver(g: Graph, flagged: set<Id>, before: Columns, c: Columns, n: nat)
    requires g.Valid() && Covers(g, before) && Covers(g, c) && Acyclic(g)
    requires Iterate(Loop(g), Work(before, Seeds(g, flagged)), n) == Work(c, {})
    ensures Outcome(g, flagged, before, c)
  {
    LoopGoesOn(g, flagged, before, n);
    if FlagsComplete(g, before, flagged) { LeavesSettled(g, flagged, before, c); }
  }

  class MetaTable {
    const graph: Graph
    var impliedNeed: map<Id, int>
    var tailTime: map<Id, real>
    var flagged: set<Id>  // rows with `_check_after` set
    var checkAfter: set<Id>
    var changedAfter: set<Id>

    ghost predicate Valid()
      reads this
    {
      && graph.Valid()
      && Covers(graph, Current())
      && flagged <= graph.steps.Keys
    }

    function Current(): Columns
      reads this
    {
      Columns(impliedNeed, tailTime)
    }

    constructor (graph: Graph, impliedNeed: map<Id, int>, tailTime: map<Id, real>, flagged: set<Id>)
      requires graph.Valid() && Covers(graph, Columns(impliedNeed, tailTime)) && flagged <= graph.steps.Keys
      ensures Valid() && this.graph == graph && this.flagged == flagged
      ensures Current() == Columns(impliedNeed, tailTime)
    {
      this.graph := graph;
      this.impliedNeed, this.tailTime, this.flagged := impliedNeed, tailTime, flagged;
      checkAfter, changedAfter := {}, {};
    }

    method UpdateCheckAfter(first: bool) returns (changed: set<Id>)
      requires Valid() && checkAfter <= graph.steps.Keys
      modifies `impliedNeed, `tailTime
      ensures Valid() && changed == Changed(graph, old(Current()), checkAfter, first)
      ensures Current() == Updated(graph, old(Current()), changed)
    {
      var c := Current();
      changed := Changed(graph, c, checkAfter, first);
      var r := Updated(graph, c, changed);
      impliedNeed, tailTime := r.need, r.tail;
    }

    /** One pass through the loop body of `_update_meta_after`. */
    method Round(first: bool)
      requires Valid() && checkAfter <= graph.steps.Keys
      modifies `impliedNeed, `tailTime, `checkAfter, `changedAfter
      ensures Valid()
      ensures changedAfter == Changed(graph, old(Current()), old(checkAfter), first)
      ensures Current() == Updated(graph, old(Current()), changedAfter)
      ensures checkAfter == Propagated(graph, changedAfter)
    {
      var changed := UpdateCheckAfter(first);
      checkAfter := {};
      changedAfter := changed;
      checkAfter := Propagated(graph, changedAfter);
    }

    /**
     * scheduler.py `_update_meta_after`. The worklist ends within as many rounds as there are attached
     * steps, and no row outside the steps upstream of a flagged one was written. Every attached step
     * then holds the defined values, when every disagreement was flagged.
     */
    method UpdateMetaAfter() returns (ghost rounds: nat)
      requires Valid() && Acyclic(graph)
      modifies this
      ensures Valid() && flagged == {}
      ensures Outcome(graph, old(flagged), old(Current()), Current())
      ensures rounds <= |graph.AttachedSteps()|
    {
      rounds := 0;
      if flagged == {} {
        assert Seeds(graph, {}) == {};
        RoundsAreOver(graph, {}, Current(), Current(), 0);
        return;
      }
      rounds := RunWorklist();
      flagged := {};
    }

    method RunWorklist() returns (ghost rounds: nat)
      requires Valid() && Acyclic(graph)
      modifies `impliedNeed, `tailTime, `checkAfter, `changedAfter
      ensures Valid()
      ensures Outcome(graph, flagged, old(Current()), Current())
      ensures rounds <= |graph.AttachedSteps()|
    {
      rounds := 0;
      checkAfter := Seeds(graph, flagged);
      var first := true;
      ghost var before := Work(Current(), checkAfter);
      while checkAfter != {}
        invariant Valid() && checkAfter <= graph.steps.Keys
        invariant Work(Current(), checkAfter) == Iterate(Loop(graph), before, rounds)
        invariant rounds <= |graph.AttachedSteps()| && first == (rounds == 0)
        decreases |graph.AttachedSteps()| - rounds
      {
        LoopGoesOn(graph, flagged, before.columns, rounds);
        WorklistBound(graph, flagged, before.columns, Current(), checkAfter, rounds);
        OneTurn(graph, Work(Current(), checkAfter), rounds);
        Round(first);
        first := false;
        rounds := rounds + 1;
      }
      RoundsAreOver(graph, flagged, before.columns, Current(), rounds);
    }
  }

  lemma WorklistBound(g: Graph, flagged: set<Id>, before: Columns, c: Columns, check: set<Id>, k: nat)
    requires g.Valid() && Covers(g, before) && Covers(g, c)
    requires Progress(g, flagged, before, c, check, k)
    requires Acyclic(g) && check != {}
    ensures k + 1 <= |g.AttachedSteps()| && check <= g.steps.Keys
  {
    var i := Member(check);
    assert Traced(g, flagged, i, k);
    var p :| IsPath(g, p) && |p| == k + 1 && p[0] == i && p[k] in flagged;
    PathBound(g, p);
  }
}
