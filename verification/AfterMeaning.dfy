/**
 * What `_implied_need` and `_tail_time` mean after an update, read off the step, file and dependency rows:
 * routes through the files from step to step, the documented need of a step, and durations.
 */
module AfterMeaning {
  import opened Bytewise
  import opened Enums
  import opened AfterUpdate

  /** Attached steps, each of which makes something that the next one uses. */
  ghost predicate Route(g: Graph, p: seq<Id>) {
    && p != []
    && (forall k :: 0 <= k < |p| ==> p[k] in g.steps && !g.steps[p[k]].detached)
    && forall k :: 0 <= k < |p| - 1 ==> Joined(g, p[k], p[k + 1])
  }

  ghost predicate Joined(g: Graph, i: Id, t: Id) {
    exists e :: (i, e) in g.deps && (e, t) in g.deps
  }

  ghost predicate RoutesEnd(g: Graph) {
    forall p :: Route(g, p) && |p| > 1 ==> p[0] != p[|p| - 1]
  }

  /** An attached output of the step that is not volatile has this path. */
  ghost predicate Outputs(g: Graph, i: Id, f: Id, path: Bytes) {
    f in g.files && (i, f) in g.deps && !g.files[f].detached && !g.files[f].volatile && g.files[f].path == path
  }

  /** What `stepup build` documents: a target path lifts any step below it, a target directory a DEFAULT one. */
  ghost function DocumentedNeed(g: Graph, i: Id): int
    requires i in g.steps
  {
    if g.steps[i].need == PLAN then PLAN
    else if exists f, path :: Outputs(g, i, f, path) && path in g.targetPaths then TARGET
    else if g.steps[i].need == DEFAULT &&
            exists f, path, d :: Outputs(g, i, f, path) && d in g.targetDirs && d <= path then TARGET
    else g.steps[i].need
  }

  ghost function Duration(g: Graph, p: seq<Id>): real
    requires forall k :: 0 <= k < |p| ==> p[k] in g.steps
  {
    if p == [] then 0.0 else Duration(g, p[..|p| - 1]) + g.steps[p[|p| - 1]].duration
  }

  /** The need is the largest of those downstream, and the tail time the duration of the longest route. */
  ghost predicate RowMeans(g: Graph, c: Columns, i: Id)
    requires Covers(g, c) && i in g.steps
  {
    && (forall p :: Route(g, p) && p[0] == i ==>
          DocumentedNeed(g, p[|p| - 1]) <= c.need[i] && Duration(g, p) <= c.tail[i])
    && (exists p :: Route(g, p) && p[0] == i && DocumentedNeed(g, p[|p| - 1]) == c.need[i])
    && (exists p :: Route(g, p) && p[0] == i && Duration(g, p) == c.tail[i])
  }

  lemma NeedMeans(g: Graph, i: Id)
    requires g.Valid() && i in g.steps
    ensures g.OwnNeed(i) == DocumentedNeed(g, i)
  {
    LiftMeaning(g, i);
    if f, path :| Outputs(g, i, f, path) && path in g.targetPaths {
      assert f in g.files && g.files[f].path in g.targetPaths;
    }
    forall f | f in g.files && (i, f) in g.deps && !g.files[f].detached && !g.files[f].volatile
      ensures Outputs(g, i, f, g.files[f].path)
    {
    }
  }

  lemma JoinedBy(g: Graph, i: Id, e: Id, t: Id)
    requires (i, e) in g.deps && (e, t) in g.deps
    ensures Joined(g, i, t)
  {
  }

  lemma RouteIsPath(g: Graph, p: seq<Id>)
    ensures Route(g, p) <==> IsPath(g, p)
  {
    if Route(g, p) {
      forall k | 0 <= k < |p| - 1 ensures g.Feeds(p[k], p[k + 1]) {
        assert Joined(g, p[k], p[k + 1]);
        var e :| (p[k], e) in g.deps && (e, p[k + 1]) in g.deps;
        assert (p[k], e).0 == p[k] && (p[k], e).1 == e;
      }
    }
    if IsPath(g, p) {
      forall k | 0 <= k < |p| - 1 ensures Joined(g, p[k], p[k + 1]) {
        assert g.Feeds(p[k], p[k + 1]);
        var e :| e in g.deps && e.0 == p[k] && (e.1, p[k + 1]) in g.deps;
        JoinedBy(g, p[k], e.1, p[k + 1]);
      }
    }
  }

  lemma {:induction false} WeightSnoc(g: Graph, p: seq<Id>, i: Id)
    requires (forall k :: 0 <= k < |p| ==> p[k] in g.steps) && i in g.steps
    ensures Weight(g, p + [i]) == Weight(g, p) + g.steps[i].duration
  {
    if p == [] {
      assert p + [i] == [i] && [i][1..] == [];
    } else {
      WeightSnoc(g, p[1..], i);
      assert (p + [i])[1..] == p[1..] + [i];
    }
  }

  lemma {:induction false} WeightIsDuration(g: Graph, p: seq<Id>)
    requires forall k :: 0 <= k < |p| ==> p[k] in g.steps
    ensures Weight(g, p) == Duration(g, p)
  {
    if p != [] {
      WeightIsDuration(g, p[..|p| - 1]);
      WeightSnoc(g, p[..|p| - 1], p[|p| - 1]);
      assert p == p[..|p| - 1] + [p[|p| - 1]];
    }
  }

  lemma DefinedRowMeans(g: Graph, c: Columns, i: Id)
    requires g.Valid() && Covers(g, c) && g.Attached(i)
    requires IsImpliedNeed(g, i, c.need[i]) && IsTailTime(g, i, c.tail[i])
    ensures RowMeans(g, c, i)
  {
    forall p | Route(g, p) && p[0] == i
      ensures DocumentedNeed(g, p[|p| - 1]) <= c.need[i] && Duration(g, p) <= c.tail[i]
    {
      RouteIsPath(g, p);
      NeedMeans(g, p[|p| - 1]);
      WeightIsDuration(g, p);
      assert Downstream(g, i, p[|p| - 1]);
    }
    var j :| Downstream(g, i, j) && j in g.steps && c.need[i] == g.OwnNeed(j);
    var p :| IsPath(g, p) && p[0] == i && p[|p| - 1] == j;
    RouteIsPath(g, p);
    NeedMeans(g, j);
    var q :| IsPath(g, q) && q[0] == i && c.tail[i] == Weight(g, q);
    RouteIsPath(g, q);
    WeightIsDuration(g, q);
  }

  /**
   * Whatever the columns held before: when the disagreeing rows were flagged, the update leaves every attached
   * step with the need and the tail time that the rows of the tables give it.
   */
  lemma UpdateMeansRows(g: Graph, flagged: set<Id>, before: Columns, c: Columns, i: Id)
    requires g.Valid() && Covers(g, before) && RoutesEnd(g) && FlagsComplete(g, before, flagged)
    requires Leaves(g, Work(before, Seeds(g, flagged)), c)
    requires i in g.steps && !g.steps[i].detached
    ensures Covers(g, c) && RowMeans(g, c, i)
  {
    forall p ensures Route(g, p) <==> IsPath(g, p) { RouteIsPath(g, p); }
    LeavesSettled(g, flagged, before, c);
    DefinedRowMeans(g, c, i);
  }
}
