/**
 * pending.py: attribution of every pending step to one root. Each step has one primary blocker; the
 * recursive walk of `_INSERT_PEND_ATTRIBUTED` follows these blockers backwards from the roots.
 */
module PendingForest {
  import opened Basics
  import opened Bytewise

  type Id = int

  /** The kinds are numbered in this order. Only the last one points at another pending step. */
  datatype Blocker =
    | ByFile(file: Id)
    | ByResource(name: Bytes)
    | ByFailed(step: Id)
    | ByDeferred(step: Id)
    | ByOther(step: Id)
    | Runnable(step: Id)
    | ByStep(step: Id)

  const NKINDS := 6

  function Kind(b: Blocker): nat {
    match b
    case ByFile(_) => 0
    case ByResource(_) => 1
    case ByFailed(_) => 2
    case ByDeferred(_) => 3
    case ByOther(_) => 4
    case Runnable(_) => 5
    case ByStep(_) => 6
  }

  /** `pend_blocker`: a row for every pending step. */
  type Forest = map<Id, Blocker>

  ghost predicate Closed(f: Forest) {
    forall i :: i in f && f[i].ByStep? ==> f[i].step in f
  }

  /** The step `k` primary blockers further. */
  function Chain(f: Forest, i: Id, k: nat): Option<Id>
    requires i in f && Closed(f)
    ensures Chain(f, i, k).Some? ==> Chain(f, i, k).value in f
    decreases k
  {
    if k == 0 then Some(i)
    else if f[i].ByStep? then Chain(f, f[i].step, k - 1)
    else None
  }

  ghost predicate EndsAt(f: Forest, i: Id, k: nat, root: Blocker)
    requires i in f && Closed(f)
  {
    Chain(f, i, k).Some? && f[Chain(f, i, k).value] == root && !root.ByStep?
  }

  ghost predicate AttributedTo(f: Forest, i: Id, root: Blocker)
    requires i in f && Closed(f)
  {
    exists k: nat :: EndsAt(f, i, k, root)
  }

  ghost predicate Attributed(f: Forest, i: Id)
    requires i in f && Closed(f)
  {
    exists root :: AttributedTo(f, i, root)
  }

  lemma {:induction false} ChainSum(f: Forest, i: Id, j: nat, k: nat)
    requires Closed(f) && i in f && Chain(f, i, j).Some?
    ensures Chain(f, i, j + k) == Chain(f, Chain(f, i, j).value, k)
    decreases j
  {
    if j > 0 { ChainSum(f, f[i].step, j - 1, k); }
  }

  /** A chain has no gap: what is reached after `k` steps was reached through every earlier one. */
  lemma {:induction false} ChainPrefix(f: Forest, i: Id, j: nat, k: nat)
    requires Closed(f) && i in f && j <= k && Chain(f, i, k).Some?
    ensures Chain(f, i, j).Some?
    decreases k
  {
    if j > 0 { ChainPrefix(f, f[i].step, j - 1, k - 1); }
  }

  lemma {:induction false} EndIsUnique(f: Forest, i: Id, j: nat, a: Blocker, k: nat, b: Blocker)
    requires Closed(f) && i in f && EndsAt(f, i, j, a) && EndsAt(f, i, k, b)
    ensures j == k && a == b
    decreases j
  {
    if j > 0 && k > 0 { EndIsUnique(f, f[i].step, j - 1, a, k - 1, b); }
  }

  lemma RootIsUnique(f: Forest, i: Id, a: Blocker, b: Blocker)
    requires Closed(f) && i in f && AttributedTo(f, i, a) && AttributedTo(f, i, b)
    ensures a == b
  {
    var j: nat :| EndsAt(f, i, j, a);
    var k: nat :| EndsAt(f, i, k, b);
    EndIsUnique(f, i, j, a, k, b);
  }

  lemma OwnRoot(f: Forest, i: Id)
    requires Closed(f) && i in f && !f[i].ByStep?
    ensures AttributedTo(f, i, f[i])
  {
    assert EndsAt(f, i, 0, f[i]);
  }

  // ---- A step is unattributed exactly when its chain runs into a cycle ----

  ghost predicate Repeats(f: Forest, i: Id, j: nat, k: nat)
    requires Closed(f) && i in f
  {
    j < k && Chain(f, i, j).Some? && Chain(f, i, j) == Chain(f, i, k)
  }

  ghost predicate RunsIntoCycle(f: Forest, i: Id)
    requires Closed(f) && i in f
  {
    exists j: nat, k: nat :: Repeats(f, i, j, k)
  }

  function ChainSteps(f: Forest, i: Id, n: nat): (s: seq<Id>)
    requires Closed(f) && i in f && Chain(f, i, n).Some?
    ensures |s| == n + 1
    ensures forall k :: 0 <= k <= n ==> Chain(f, i, k) == Some(s[k]) && s[k] in f
  {
    if n == 0 then [i]
    else
      ChainPrefix(f, i, n - 1, n);
      ChainSteps(f, i, n - 1) + [Chain(f, i, n).value]
  }

  /** Pigeonhole: a chain longer than the table repeats a step. */
  lemma LongChainRepeats(f: Forest, i: Id)
    requires Closed(f) && i in f && Chain(f, i, |f|).Some?
    ensures RunsIntoCycle(f, i)
  {
    var s := ChainSteps(f, i, |f|);
    if Distinct(s) { DistinctBound(s, f.Keys); }
    var j, k :| 0 <= j < k < |s| && s[j] == s[k];
    assert Repeats(f, i, j, k);
  }

  lemma {:induction false} ShortChainEnds(f: Forest, i: Id, n: nat)
    requires Closed(f) && i in f && Chain(f, i, n) == None
    ensures Attributed(f, i)
    decreases n
  {
    if !f[i].ByStep? {
      assert EndsAt(f, i, 0, f[i]);
      assert AttributedTo(f, i, f[i]);
    } else {
      ShortChainEnds(f, f[i].step, n - 1);
      var root :| AttributedTo(f, f[i].step, root);
      var k: nat :| EndsAt(f, f[i].step, k, root);
      assert EndsAt(f, i, k + 1, root);
      assert AttributedTo(f, i, root);
    }
  }

  lemma EndHasNoRepeat(f: Forest, i: Id, n: nat, root: Blocker, j: nat, k: nat)
    requires Closed(f) && i in f && EndsAt(f, i, n, root) && j < k
    ensures !Repeats(f, i, j, k)
  {
    if Repeats(f, i, j, k) {
      PastTheEnd(f, i, n, root, k);
      var s := Chain(f, i, j).value;
      ChainSum(f, i, j, n - j);
      ChainSum(f, i, k, n - k);
      assert EndsAt(f, s, n - j, root) && EndsAt(f, s, n - k, root);
      EndIsUnique(f, s, n - j, root, n - k, root);
    }
  }

  lemma {:induction false} PastTheEnd(f: Forest, i: Id, n: nat, root: Blocker, k: nat)
    requires Closed(f) && i in f && EndsAt(f, i, n, root) && Chain(f, i, k).Some?
    ensures k <= n
    decreases k
  {
    if k > 0 && n > 0 { PastTheEnd(f, f[i].step, n - 1, root, k - 1); }
  }

  lemma UnattributedIffCycle(f: Forest, i: Id)
    requires Closed(f) && i in f
    ensures !Attributed(f, i) <==> RunsIntoCycle(f, i)
  {
    if RunsIntoCycle(f, i) && Attributed(f, i) {
      var j: nat, k: nat :| Repeats(f, i, j, k);
      var root :| AttributedTo(f, i, root);
      var n: nat :| EndsAt(f, i, n, root);
      EndHasNoRepeat(f, i, n, root, j, k);
    }
    if !Attributed(f, i) {
      if Chain(f, i, |f|) == None { ShortChainEnds(f, i, |f|); }
      LongChainRepeats(f, i);
    }
  }

  // ---- The walk ----

  datatype Row = Row(step: Id, root: Blocker)

  /** The rows that one recursive step adds for a row taken from the queue. */
  function Children(f: Forest, i: Id): set<Id> {
    set d | d in f && f[d] == ByStep(i)
  }

  /** A row that the walk may contain. */
  ghost predicate GoodRow(f: Forest, r: Row)
    requires Closed(f)
  {
    r.step in f && AttributedTo(f, r.step, r.root)
  }

  ghost predicate DistinctSteps(rows: seq<Row>) {
    forall a, b :: 0 <= a < b < |rows| ==> rows[a].step != rows[b].step
  }

  ghost function Steps(rows: seq<Row>): set<Id> {
    if rows == [] then {} else Steps(rows[..|rows| - 1]) + {rows[|rows| - 1].step}
  }

  lemma StepsAppend(rows: seq<Row>, r: Row)
    ensures Steps(rows + [r]) == Steps(rows) + {r.step}
  {
    assert (rows + [r])[..|rows|] == rows;
  }

  lemma {:induction false} InSteps(rows: seq<Row>, k: nat)
    requires k < |rows|
    ensures rows[k].step in Steps(rows)
  {
    if k < |rows| - 1 { InSteps(rows[..|rows| - 1], k); }
  }

  lemma {:induction false} FromSteps(rows: seq<Row>, i: Id) returns (k: nat)
    requires i in Steps(rows)
    ensures k < |rows| && rows[k].step == i
  {
    if rows[|rows| - 1].step == i { k := |rows| - 1; } else { k := FromSteps(rows[..|rows| - 1], i); }
  }

  lemma NotInSteps(rows: seq<Row>, i: Id)
    requires forall k :: 0 <= k < |rows| ==> rows[k].step != i
    ensures i !in Steps(rows)
  {
    if i in Steps(rows) { var k := FromSteps(rows, i); }
  }

  /** The found steps are those whose primary blocker was visited. */
  ghost predicate FoundFrom(f: Forest, found: set<Id>, visited: set<Id>) {
    forall i :: i in f && f[i].ByStep? ==> (i in found <==> f[i].step in visited)
  }

  /** Rows whose recursive step was taken come first; `n` is how many there are. */
  ghost predicate WalkInv(f: Forest, rows: seq<Row>, n: nat)
    requires Closed(f)
  {
    && n <= |rows| && DistinctSteps(rows)
    && (forall k :: 0 <= k < |rows| ==> GoodRow(f, rows[k]))
    && (forall i :: i in f && !f[i].ByStep? ==> i in Steps(rows))
    && FoundFrom(f, Steps(rows), Steps(rows[..n]))
  }

  lemma {:induction false} WalkIsComplete(f: Forest, rows: seq<Row>, i: Id, root: Blocker, k: nat)
    requires Closed(f) && WalkInv(f, rows, |rows|) && i in f && EndsAt(f, i, k, root)
    ensures Row(i, root) in rows
    decreases k
  {
    assert rows[..|rows|] == rows;
    if f[i].ByStep? {
      WalkIsComplete(f, rows, f[i].step, root, k - 1);
      var m :| 0 <= m < |rows| && rows[m] == Row(f[i].step, root);
      InSteps(rows, m);
    }
    var n := FromSteps(rows, i);
    assert AttributedTo(f, i, root);
    RootIsUnique(f, i, rows[n].root, root);
  }

  lemma ChildIsGood(f: Forest, r: Row, d: Id)
    requires Closed(f) && GoodRow(f, r) && d in Children(f, r.step)
    ensures GoodRow(f, Row(d, r.root))
  {
    var k: nat :| EndsAt(f, r.step, k, r.root);
    assert EndsAt(f, d, k + 1, r.root);
  }

  /** One row for each step of a set, all with the same root, after the given rows. */
  method AppendRows(rows: seq<Row>, steps: set<Id>, root: Blocker) returns (r: seq<Row>)
    requires DistinctSteps(rows) && Steps(rows) !! steps
    ensures DistinctSteps(r) && rows <= r && Steps(r) == Steps(rows) + steps
    ensures forall k :: |rows| <= k < |r| ==> r[k].root == root && r[k].step in steps
  {
    r := rows;
    var left := steps;
    while left != {}
      invariant left <= steps && DistinctSteps(r) && rows <= r
      invariant Steps(r) == Steps(rows) + (steps - left)
      invariant forall k :: |rows| <= k < |r| ==> r[k].root == root && r[k].step in steps
      decreases left
    {
      var i := Pick(left);
      StepsAppend(r, Row(i, root));
      forall a | 0 <= a < |r| ensures r[a].step != i { InSteps(r, a); }
      r := r + [Row(i, root)];
      left := left - {i};
    }
  }

  /** The first branch of the query: every step whose primary blocker is a root. */
  method SeedRows(f: Forest) returns (rows: seq<Row>)
    requires Closed(f)
    ensures WalkInv(f, rows, 0)
  {
    rows := [];
    ghost var roots := set i | i in f && !f[i].ByStep?;
    var left := set i | i in f && !f[i].ByStep?;
    while left != {}
      invariant left <= roots && DistinctSteps(rows)
      invariant Steps(rows) == roots - left
      invariant forall k :: 0 <= k < |rows| ==> GoodRow(f, rows[k])
      decreases left
    {
      var i := Pick(left);
      StepsAppend(rows, Row(i, f[i]));
      forall a | 0 <= a < |rows| ensures rows[a].step != i { InSteps(rows, a); }
      assert EndsAt(f, i, 0, f[i]);
      rows := rows + [Row(i, f[i])];
      left := left - {i};
    }
  }

  lemma NextRowsAreGood(f: Forest, rows: seq<Row>, n: nat, next: seq<Row>)
    requires Closed(f) && n < |rows| && rows <= next && forall k :: 0 <= k < |rows| ==> GoodRow(f, rows[k])
    requires forall k :: |rows| <= k < |next| ==>
               next[k].root == rows[n].root && next[k].step in Children(f, rows[n].step)
    ensures forall k :: 0 <= k < |next| ==> GoodRow(f, next[k])
  {
    forall k | 0 <= k < |next| ensures GoodRow(f, next[k]) {
      if k >= |rows| { ChildIsGood(f, rows[n], next[k].step); } else { assert next[k] == rows[k]; }
    }
  }

  lemma VisitFinds(f: Forest, found: set<Id>, visited: set<Id>, c: Id)
    requires Closed(f) && FoundFrom(f, found, visited)
    ensures FoundFrom(f, found + Children(f, c), visited + {c})
  {
  }

  lemma WalkStep(f: Forest, rows: seq<Row>, n: nat, next: seq<Row>)
    requires Closed(f) && WalkInv(f, rows, n) && n < |rows|
    requires DistinctSteps(next) && rows <= next && Steps(next) == Steps(rows) + Children(f, rows[n].step)
    requires forall k :: |rows| <= k < |next| ==>
               next[k].root == rows[n].root && next[k].step in Children(f, rows[n].step)
    ensures WalkInv(f, next, n + 1)
  {
    NextRowsAreGood(f, rows, n, next);
    assert next[..n + 1] == rows[..n] + [rows[n]];
    StepsAppend(rows[..n], rows[n]);
    VisitFinds(f, Steps(rows), Steps(rows[..n]), rows[n].step);
  }

  lemma ChildrenAreNew(f: Forest, rows: seq<Row>, n: nat)
    requires Closed(f) && WalkInv(f, rows, n) && n < |rows|
    ensures Steps(rows) !! Children(f, rows[n].step)
  {
    NotInSteps(rows[..n], rows[n].step);
    forall d | d in Children(f, rows[n].step) ensures d !in Steps(rows) {
      assert f[d].ByStep? && f[d].step == rows[n].step;
    }
  }

  lemma RowsBound(f: Forest, rows: seq<Row>)
    requires DistinctSteps(rows) && forall k :: 0 <= k < |rows| ==> rows[k].step in f
    ensures |rows| <= |f|
  {
    var steps := seq(|rows|, k requires 0 <= k < |rows| => rows[k].step);
    DistinctBound(steps, f.Keys);
  }

  lemma WalkFound(f: Forest, rows: seq<Row>)
    requires Closed(f) && WalkInv(f, rows, |rows|)
    ensures forall r: Row :: r in rows <==> r.step in f && AttributedTo(f, r.step, r.root)
  {
    forall r: Row ensures r in rows <==> r.step in f && AttributedTo(f, r.step, r.root) {
      if r in rows {
        var n :| 0 <= n < |rows| && rows[n] == r;
        assert GoodRow(f, rows[n]);
      }
      if r.step in f && AttributedTo(f, r.step, r.root) {
        var k: nat :| EndsAt(f, r.step, k, r.root);
        WalkIsComplete(f, rows, r.step, r.root, k);
      }
    }
  }

  /**
   * The recursive query, with its queue of rows. Although `UNION ALL` removes nothing, it ends on every
   * table, cycles included, and yields every attributed step once, with its root.
   */
  method Walk(f: Forest) returns (rows: seq<Row>)
    requires Closed(f)
    ensures DistinctSteps(rows)
    ensures forall r: Row :: r in rows <==> r.step in f && AttributedTo(f, r.step, r.root)
  {
    rows := SeedRows(f);
    var n := 0;
    while n < |rows|
      invariant WalkInv(f, rows, n)
      decreases |f| - n
    {
      RowsBound(f, rows);
      ChildrenAreNew(f, rows, n);
      var next := AppendRows(rows, Children(f, rows[n].step), rows[n].root);
      WalkStep(f, rows, n, next);
      rows, n := next, n + 1;
    }
    WalkFound(f, rows);
  }

  // ---- The partition ----

  ghost function OfRoot(f: Forest, root: Blocker): set<Id>
    requires Closed(f)
  {
    set i | i in f && AttributedTo(f, i, root)
  }

  ghost predicate IsOfKind(f: Forest, i: Id, kind: nat)
    requires Closed(f) && i in f
  {
    exists root :: Kind(root) == kind && AttributedTo(f, i, root)
  }

  ghost function OfKind(f: Forest, kind: nat): set<Id>
    requires Closed(f)
  {
    set i | i in f && IsOfKind(f, i, kind)
  }

  ghost function Cyclic(f: Forest): set<Id>
    requires Closed(f)
  {
    set i | i in f && !Attributed(f, i)
  }

  /** The totals by kind of the first `n` kinds. */
  ghost function Totals(f: Forest, n: nat): nat
    requires Closed(f)
  {
    if n == 0 then 0 else Totals(f, n - 1) + |OfKind(f, n - 1)|
  }

  ghost function OfKindsBelow(f: Forest, n: nat): set<Id>
    requires Closed(f)
  {
    set i | i in f && exists kind: nat :: kind < n && IsOfKind(f, i, kind)
  }

  lemma KindIsUnique(f: Forest, i: Id, a: nat, b: nat)
    requires Closed(f) && i in f && IsOfKind(f, i, a) && IsOfKind(f, i, b)
    ensures a == b
  {
    var p :| Kind(p) == a && AttributedTo(f, i, p);
    var q :| Kind(q) == b && AttributedTo(f, i, q);
    RootIsUnique(f, i, p, q);
  }

  lemma {:induction false} TotalsBelow(f: Forest, n: nat)
    requires Closed(f)
    ensures Totals(f, n) == |OfKindsBelow(f, n)|
  {
    if n == 0 {
      assert OfKindsBelow(f, 0) == {};
    } else {
      TotalsBelow(f, n - 1);
      var below, last := OfKindsBelow(f, n - 1), OfKind(f, n - 1);
      forall i | i in below && i in last ensures false {
        var kind: nat :| kind < n - 1 && IsOfKind(f, i, kind);
        KindIsUnique(f, i, kind, n - 1);
      }
      assert OfKindsBelow(f, n) == below + last;
    }
  }

  /** The totals of the six root kinds and the cyclic count add up to the number of pending steps. */
  lemma AttributionIsPartition(f: Forest)
    requires Closed(f)
    ensures Totals(f, NKINDS) + |Cyclic(f)| == |f|
  {
    TotalsBelow(f, NKINDS);
    var below := OfKindsBelow(f, NKINDS);
    forall i | i in f ensures i in below <==> Attributed(f, i) {
      if Attributed(f, i) {
        var root :| AttributedTo(f, i, root);
        assert Kind(root) < NKINDS && IsOfKind(f, i, Kind(root));
      }
    }
    assert below !! Cyclic(f) && below + Cyclic(f) == f.Keys;
  }
}
