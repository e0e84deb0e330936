/** pending.py: which roots are displayed, and how the number of hidden steps relates to what is really blocked. */
module PendingRanking {
  import opened Basics
  import opened PendingForest
  import opened PendingRelations
  import opened PendingClosure

  const MAX_ROWS := 10
  const RANK_POOL := 20

  /** A row of the ranking query. */
  datatype Ranked = Ranked(root: Blocker, id: int, attributed: nat)

  ghost predicate DistinctRanks(rs: seq<Ranked>) {
    forall i, j :: 0 <= i < j < |rs| ==> rs[i].root != rs[j].root && rs[i].id != rs[j].id
  }

  function Total(rs: seq<Ranked>): nat {
    if rs == [] then 0 else rs[0].attributed + Total(rs[1..])
  }

  ghost function AllBlocked(db: Db, rs: seq<Ranked>): set<Id>
    requires Valid(db)
  {
    set k, i | 0 <= k < |rs| && i in Blocked(db, rs[k].root) :: i
  }

  ghost function AllAttributed(f: Forest, rs: seq<Ranked>): set<Id>
    requires Closed(f)
  {
    if rs == [] then {} else OfRoot(f, rs[0].root) + AllAttributed(f, rs[1..])
  }

  ghost predicate CountsMatch(f: Forest, rs: seq<Ranked>)
    requires Closed(f)
  {
    forall k :: 0 <= k < |rs| ==> IsRanked(rs[k].root) && rs[k].attributed == |OfRoot(f, rs[k].root)|
  }

  lemma {:induction false} AttributedOfSome(f: Forest, rs: seq<Ranked>, i: Id) returns (k: nat)
    requires Closed(f) && i in AllAttributed(f, rs)
    ensures k < |rs| && i in OfRoot(f, rs[k].root)
  {
    if i in OfRoot(f, rs[0].root) {
      k := 0;
    } else {
      k := AttributedOfSome(f, rs[1..], i);
      k := k + 1;
    }
  }

  lemma LaterRootDiffers(f: Forest, rs: seq<Ranked>, i: Id)
    requires Closed(f) && DistinctRanks(rs) && rs != [] && i in AllAttributed(f, rs[1..])
    ensures i !in OfRoot(f, rs[0].root)
  {
    var k := AttributedOfSome(f, rs[1..], i);
    assert rs[1..][k].root != rs[0].root;
    if i in OfRoot(f, rs[0].root) {
      RootIsUnique(f, i, rs[0].root, rs[1..][k].root);
    }
  }

  lemma {:induction false} TotalIsSize(f: Forest, rs: seq<Ranked>)
    requires Closed(f) && DistinctRanks(rs) && CountsMatch(f, rs)
    ensures Total(rs) == |AllAttributed(f, rs)|
  {
    if rs != [] {
      TotalIsSize(f, rs[1..]);
      var first, rest := OfRoot(f, rs[0].root), AllAttributed(f, rs[1..]);
      forall i | i in rest ensures i !in first { LaterRootDiffers(f, rs, i); }
      assert first !! rest;
    }
  }

  /**
   * The attributed counts of any roots add up to no more than the number of distinct steps these roots
   * block. `_rank_display` reports the sum over the hidden roots, so it never overstates.
   */
  lemma AttributedIsLowerBound(db: Db, rs: seq<Ranked>)
    requires Valid(db) && DistinctRanks(rs) && CountsMatch(Blockers(db), rs)
    ensures Total(rs) <= |AllBlocked(db, rs)|
  {
    TotalIsSize(Blockers(db), rs);
    forall i | i in AllAttributed(Blockers(db), rs) ensures i in AllBlocked(db, rs) {
      var k := AttributedOfSome(Blockers(db), rs, i);
      AttributedWithinBlocked(db, rs[k].root);
    }
    SubsetSize(AllAttributed(Blockers(db), rs), AllBlocked(db, rs));
  }

  type Counts = map<Blocker, nat>

  /** The sort key (-exact, root_id). */
  predicate Earlier(exact: Counts, a: Ranked, b: Ranked)
    requires a.root in exact && b.root in exact
  {
    exact[a.root] > exact[b.root] || (exact[a.root] == exact[b.root] && a.id < b.id)
  }

  predicate Known(exact: Counts, rs: seq<Ranked>) {
    forall k :: 0 <= k < |rs| ==> rs[k].root in exact
  }

  function InsertRank(exact: Counts, r: Ranked, rs: seq<Ranked>): (s: seq<Ranked>)
    requires Known(exact, rs) && r.root in exact
    ensures multiset(s) == multiset(rs) + multiset{r} && Known(exact, s)
  {
    if rs == [] || Earlier(exact, r, rs[0]) then [r] + rs
    else
      assert rs == [rs[0]] + rs[1..];
      [rs[0]] + InsertRank(exact, r, rs[1..])
  }

  function SortRanks(exact: Counts, rs: seq<Ranked>): (s: seq<Ranked>)
    requires Known(exact, rs)
    ensures multiset(s) == multiset(rs) && Known(exact, s)
  {
    if rs == [] then []
    else
      assert rs == [rs[0]] + rs[1..];
      InsertRank(exact, rs[0], SortRanks(exact, rs[1..]))
  }

  ghost predicate InRankOrder(exact: Counts, rs: seq<Ranked>)
    requires Known(exact, rs)
  {
    forall i, j :: 0 <= i < j < |rs| ==> Earlier(exact, rs[i], rs[j])
  }

  lemma {:induction false} InsertKeepsOrder(exact: Counts, r: Ranked, rs: seq<Ranked>)
    requires Known(exact, rs) && r.root in exact && InRankOrder(exact, rs)
    requires forall k :: 0 <= k < |rs| ==> rs[k].id != r.id
    ensures InRankOrder(exact, InsertRank(exact, r, rs))
  {
    if rs != [] {
      if Earlier(exact, r, rs[0]) {
        forall j | 0 <= j < |rs| ensures Earlier(exact, r, rs[j]) {
          if j > 0 { assert Earlier(exact, rs[0], rs[j]); }
        }
      } else {
        InsertKeepsOrder(exact, r, rs[1..]);
        var t := InsertRank(exact, r, rs[1..]);
        forall j | 0 <= j < |t| ensures Earlier(exact, rs[0], t[j]) {
          assert t[j] in multiset(t);
          if t[j] != r { MemberOf(rs[1..], t[j]); }
        }
      }
    }
  }

  lemma MemberOf(rs: seq<Ranked>, r: Ranked)
    requires r in multiset(rs)
    ensures exists k :: 0 <= k < |rs| && rs[k] == r
  {
  }

  lemma {:induction false} SortOrders(exact: Counts, rs: seq<Ranked>)
    requires Known(exact, rs) && DistinctRanks(rs)
    ensures InRankOrder(exact, SortRanks(exact, rs))
  {
    if rs != [] {
      SortOrders(exact, rs[1..]);
      var t := SortRanks(exact, rs[1..]);
      forall k | 0 <= k < |t| ensures t[k].id != rs[0].id {
        assert t[k] in multiset(t);
        MemberOf(rs[1..], t[k]);
      }
      InsertKeepsOrder(exact, rs[0], t);
    }
  }

  /** The rows of the ranking whose root is, or is not, among the displayed ones. */
  function Select(ranked: seq<Ranked>, displayed: set<Blocker>, shown: bool): seq<Ranked> {
    if ranked == [] then []
    else (if (ranked[0].root in displayed) == shown then [ranked[0]] else []) + Select(ranked[1..], displayed, shown)
  }

  lemma {:induction false} SelectSplits(ranked: seq<Ranked>, displayed: set<Blocker>)
    ensures Total(ranked) == Total(Select(ranked, displayed, true)) + Total(Select(ranked, displayed, false))
  {
    if ranked != [] {
      SelectSplits(ranked[1..], displayed);
      var yes, no := Select(ranked[1..], displayed, true), Select(ranked[1..], displayed, false);
      assert ([ranked[0]] + yes)[1..] == yes && ([ranked[0]] + no)[1..] == no && [] + yes == yes && [] + no == no;
    }
  }

  lemma {:induction false} SelectMembers(ranked: seq<Ranked>, displayed: set<Blocker>, shown: bool, k: nat)
    requires k < |Select(ranked, displayed, shown)|
    ensures Select(ranked, displayed, shown)[k] in ranked
    ensures (Select(ranked, displayed, shown)[k].root in displayed) == shown
  {
    var first := (ranked[0].root in displayed) == shown;
    if !first || k > 0 { SelectMembers(ranked[1..], displayed, shown, if first then k - 1 else k); }
  }

  lemma {:induction false} SelectDistinct(ranked: seq<Ranked>, displayed: set<Blocker>, shown: bool)
    requires DistinctRanks(ranked)
    ensures DistinctRanks(Select(ranked, displayed, shown))
  {
    if ranked != [] {
      SelectDistinct(ranked[1..], displayed, shown);
      var rest := Select(ranked[1..], displayed, shown);
      forall k | 0 <= k < |rest| ensures rest[k].root != ranked[0].root && rest[k].id != ranked[0].id {
        SelectMembers(ranked[1..], displayed, shown, k);
        var n :| 0 <= n < |ranked[1..]| && ranked[1..][n] == rest[k];
        assert ranked[n + 1] == rest[k];
      }
    }
  }

  method ExactCounts(edges: Edges, seeds: map<Blocker, set<Id>>, pool: seq<Ranked>) returns (exact: Counts)
    requires forall k :: 0 <= k < |pool| ==> pool[k].root in seeds
    ensures forall b :: b in exact <==> exists k :: 0 <= k < |pool| && pool[k].root == b && Closure(edges, seeds[b]) != {}
    ensures forall b :: b in exact ==> b in seeds && exact[b] == |Closure(edges, seeds[b])|
  {
    exact := map[];
    for n := 0 to |pool|
      invariant forall b :: b in exact <==> exists k :: 0 <= k < n && pool[k].root == b && Closure(edges, seeds[b]) != {}
      invariant forall b :: b in exact ==> b in seeds && exact[b] == |Closure(edges, seeds[b])|
    {
      var reach := Reach(edges, seeds[pool[n].root]);
      if reach != {} {
        exact := exact[pool[n].root := |reach|];
      }
    }
  }

  function Min(a: nat, b: nat): nat { if a < b then a else b }

  method HiddenTotal(ranked: seq<Ranked>, shown: set<Blocker>) returns (n: nat)
    ensures n == Total(Select(ranked, shown, false))
  {
    var total, displayedAttributed := 0, 0;
    for n := 0 to |ranked|
      invariant total + Total(ranked[n..]) == Total(ranked)
      invariant displayedAttributed + Total(Select(ranked[n..], shown, true)) == Total(Select(ranked, shown, true))
    {
      var rest := Select(ranked[n + 1..], shown, true);
      assert ranked[n..][1..] == ranked[n + 1..] && ([ranked[n]] + rest)[1..] == rest && [] + rest == rest;
      total := total + ranked[n].attributed;
      if ranked[n].root in shown {
        displayedAttributed := displayedAttributed + ranked[n].attributed;
      }
    }
    SelectSplits(ranked, shown);
    n := total - displayedAttributed;
  }

  /** Every root blocks something. */
  ghost predicate Blocking(edges: Edges, seeds: map<Blocker, set<Id>>, rs: seq<Ranked>) {
    forall r :: r in rs ==> r.root in seeds && Closure(edges, seeds[r.root]) != {}
  }

  lemma PoolKnown(edges: Edges, seeds: map<Blocker, set<Id>>, pool: seq<Ranked>, exact: Counts)
    requires Blocking(edges, seeds, pool)
    requires forall b :: b in exact <==>
               exists k :: 0 <= k < |pool| && pool[k].root == b && b in seeds && Closure(edges, seeds[b]) != {}
    ensures Known(exact, pool)
  {
    forall k | 0 <= k < |pool| ensures pool[k].root in exact { assert pool[k] in pool; }
  }

  /** The first `n` rows in the order by count, then by id. */
  function First(counts: Counts, rs: seq<Ranked>, n: nat): (d: seq<Ranked>)
    requires Known(counts, rs)
    ensures |d| == Min(n, |rs|) && Known(counts, d)
  {
    var sorted := SortRanks(counts, rs);
    assert |multiset(sorted)| == |multiset(rs)|;
    sorted[..Min(n, |rs|)]
  }

  /** The chosen rows are among the given ones, and each comes before every row that is left out. */
  ghost predicate BestOf(counts: Counts, rs: seq<Ranked>, chosen: seq<Ranked>)
    requires Known(counts, rs) && Known(counts, chosen)
  {
    && DistinctRanks(chosen)
    && (forall k :: 0 <= k < |chosen| ==> chosen[k] in rs)
    && (forall j, k :: 0 <= j < |rs| && 0 <= k < |chosen| && rs[j] !in chosen ==> Earlier(counts, chosen[k], rs[j]))
  }

  lemma TakeMembers(rs: seq<Ranked>, n: nat)
    requires n <= |rs|
    ensures forall m :: 0 <= m < n ==> rs[m] in rs[..n]
  {
    forall m | 0 <= m < n ensures rs[m] in rs[..n] { assert rs[..n][m] == rs[m]; }
  }

  lemma SortKeepsDistinct(counts: Counts, rs: seq<Ranked>)
    requires Known(counts, rs) && DistinctRanks(rs)
    ensures DistinctRanks(SortRanks(counts, rs))
    ensures forall k :: 0 <= k < |SortRanks(counts, rs)| ==> SortRanks(counts, rs)[k] in rs
  {
    var s := SortRanks(counts, rs);
    SortOrders(counts, rs);
    forall k | 0 <= k < |s| ensures s[k] in rs {
      assert s[k] in multiset(s);
      MemberOf(rs, s[k]);
    }
    forall i, j | 0 <= i < j < |s| ensures s[i].root != s[j].root && s[i].id != s[j].id {
      assert Earlier(counts, s[i], s[j]) && s[i] in rs && s[j] in rs;
    }
  }

  lemma FirstIsBest(counts: Counts, rs: seq<Ranked>, n: nat)
    requires Known(counts, rs) && DistinctRanks(rs)
    ensures BestOf(counts, rs, First(counts, rs, n)) && InRankOrder(counts, First(counts, rs, n))
  {
    var sorted, chosen := SortRanks(counts, rs), First(counts, rs, n);
    SortOrders(counts, rs);
    SortKeepsDistinct(counts, rs);
    TakeMembers(sorted, |chosen|);
    forall j, k | 0 <= j < |rs| && 0 <= k < |chosen| && rs[j] !in chosen
      ensures Earlier(counts, chosen[k], rs[j])
    {
      assert rs[j] in multiset(rs);
      MemberOf(sorted, rs[j]);
    }
  }

  /** The attributed counts as a sort key. */
  function Attributed(rows: seq<Ranked>): (c: Counts)
    requires DistinctRanks(rows)
    ensures Known(c, rows) && forall r :: r in rows ==> c[r.root] == r.attributed
  {
    map r | r in rows :: r.root := r.attributed
  }

  /** `_SELECT_RANK_FILE` and `_SELECT_RANK_RESOURCE`: ORDER BY n DESC, root_id ASC. */
  function RankRows(rows: seq<Ranked>): (ranked: seq<Ranked>)
    requires DistinctRanks(rows)
    ensures multiset(ranked) == multiset(rows)
  {
    SortRanks(Attributed(rows), rows)
  }

  /** The roots whose exact counts are computed. */
  function Pool(rows: seq<Ranked>): (pool: seq<Ranked>)
    requires DistinctRanks(rows)
    ensures |pool| == Min(RANK_POOL, |rows|)
  {
    First(Attributed(rows), rows, RANK_POOL)
  }

  lemma PoolIsBest(rows: seq<Ranked>, edges: Edges, seeds: map<Blocker, set<Id>>)
    requires DistinctRanks(rows) && Blocking(edges, seeds, rows)
    ensures Known(Attributed(rows), Pool(rows)) && BestOf(Attributed(rows), rows, Pool(rows))
    ensures Blocking(edges, seeds, Pool(rows))
  {
    FirstIsBest(Attributed(rows), rows, RANK_POOL);
  }

  /** What the report says about the roots it does not show, for any choice of the shown ones. */
  lemma HiddenIsLowerBound(db: Db, ranked: seq<Ranked>, displayed: set<Blocker>)
    requires Valid(db) && DistinctRanks(ranked) && CountsMatch(Blockers(db), ranked)
    ensures Total(Select(ranked, displayed, false)) <= |AllBlocked(db, Select(ranked, displayed, false))|
  {
    var hidden := Select(ranked, displayed, false);
    SelectDistinct(ranked, displayed, false);
    forall k | 0 <= k < |hidden|
      ensures IsRanked(hidden[k].root) && hidden[k].attributed == |OfRoot(Blockers(db), hidden[k].root)|
    {
      SelectMembers(ranked, displayed, false, k);
      var n :| 0 <= n < |ranked| && ranked[n] == hidden[k];
    }
    AttributedIsLowerBound(db, hidden);
  }

  /** What the LEFT JOIN of the roots onto `pend_attributed` yields, in any order. */
  ghost predicate Joined(db: Db, rows: seq<Ranked>)
    requires Valid(db)
  {
    && DistinctRanks(rows)
    && forall r :: r in rows ==> IsRoot(db, r.root) && r.attributed == |OfRoot(Blockers(db), r.root)|
  }

  /** `pend_step_block`, and `pend_seed` for the roots of the rows. */
  ghost predicate Seeded(db: Db, rows: seq<Ranked>, edges: Edges, seeds: map<Blocker, set<Id>>)
    requires Valid(db)
  {
    edges == BlockEdges(db) && forall r :: r in rows ==> r.root in seeds && seeds[r.root] == Seeds(db, r.root)
  }

  /** GROUP BY yields a row for every ranked root, so that the lookup of its count cannot fail. */
  lemma RankedRootsBlock(db: Db, rows: seq<Ranked>, edges: Edges, seeds: map<Blocker, set<Id>>)
    requires Valid(db) && Joined(db, rows) && Seeded(db, rows, edges, seeds)
    ensures Blocking(edges, seeds, rows)
  {
    forall r | r in rows ensures Closure(edges, seeds[r.root]) != {} { EveryRootBlocks(db, r.root); }
  }

  /** The part of `_rank_display` that picks the rows to show. */
  method PickRows(ranked: seq<Ranked>, edges: Edges, seeds: map<Blocker, set<Id>>)
    returns (displayed: seq<Ranked>, exact: Counts)
    requires var pool := ranked[..Min(RANK_POOL, |ranked|)]; DistinctRanks(pool) && Blocking(edges, seeds, pool)
    ensures var pool := ranked[..Min(RANK_POOL, |ranked|)];
            Known(exact, displayed) && Known(exact, pool) && BestOf(exact, pool, displayed) && InRankOrder(exact, displayed)
    ensures |displayed| == Min(MAX_ROWS, |ranked|)
    ensures forall b :: b in exact ==> b in seeds && exact[b] == |Closure(edges, seeds[b])|
    ensures forall b :: b in exact ==> exists k :: 0 <= k < |ranked| && ranked[k].root == b
  {
    var pool := ranked[..Min(RANK_POOL, |ranked|)];
    exact := ExactCounts(edges, seeds, pool);
    PoolKnown(edges, seeds, pool, exact);
    displayed := First(exact, pool, MAX_ROWS);
    FirstIsBest(exact, pool, MAX_ROWS);
  }

  lemma ExactIsBlocked(db: Db, rows: seq<Ranked>, edges: Edges, seeds: map<Blocker, set<Id>>, exact: Counts)
    requires Valid(db) && Joined(db, rows) && Seeded(db, rows, edges, seeds)
    requires forall b :: b in exact ==> b in seeds && exact[b] == |Closure(edges, seeds[b])|
    requires forall b :: b in exact ==> exists k :: 0 <= k < |RankRows(rows)| && RankRows(rows)[k].root == b
    ensures forall b :: b in exact ==> exact[b] == |Blocked(db, b)|
  {
    SortKeepsDistinct(Attributed(rows), rows);
    forall b | b in exact ensures exact[b] == |Blocked(db, b)| {
      var k :| 0 <= k < |RankRows(rows)| && RankRows(rows)[k].root == b;
      assert RankRows(rows)[k] in rows;
    }
  }

  lemma MoreAttributed(db: Db, rows: seq<Ranked>)
    requires Valid(db) && Joined(db, rows) && Known(Attributed(rows), Pool(rows))
    requires BestOf(Attributed(rows), rows, Pool(rows))
    ensures forall p :: p in Pool(rows) ==> p in rows
    ensures forall p, r :: p in Pool(rows) && r in rows && r !in Pool(rows) ==>
              var a, b := |OfRoot(Blockers(db), p.root)|, |OfRoot(Blockers(db), r.root)|;
              a > b || (a == b && p.id < r.id)
  {
    forall p, r | p in Pool(rows) && r in rows && r !in Pool(rows)
      ensures Earlier(Attributed(rows), p, r) && p in rows
    {
    }
  }

  lemma MoreBlocked(db: Db, exact: Counts, pool: seq<Ranked>, displayed: seq<Ranked>)
    requires Valid(db) && Known(exact, pool) && Known(exact, displayed) && BestOf(exact, pool, displayed)
    requires InRankOrder(exact, displayed)
    requires forall b :: b in exact ==> exact[b] == |Blocked(db, b)|
    ensures forall j, k :: 0 <= j < k < |displayed| ==>
              var a, b := |Blocked(db, displayed[j].root)|, |Blocked(db, displayed[k].root)|;
              a > b || (a == b && displayed[j].id < displayed[k].id)
    ensures DistinctRanks(displayed) && forall d :: d in displayed ==> d in pool
    ensures forall d, r :: d in displayed && r in pool && r !in displayed ==>
              var a, b := |Blocked(db, d.root)|, |Blocked(db, r.root)|;
              a > b || (a == b && d.id < r.id)
    ensures forall d :: d in displayed ==> d.root in exact && exact[d.root] == |Blocked(db, d.root)|
  {
    forall d, r | d in displayed && r in pool && r !in displayed ensures Earlier(exact, d, r) {
    }
    forall j, k | 0 <= j < k < |displayed| ensures Earlier(exact, displayed[j], displayed[k]) {
    }
  }

  /** The steps attributed to a root that is not shown. */
  ghost function HiddenSteps(db: Db, rows: seq<Ranked>, displayed: seq<Ranked>): set<Id>
    requires Valid(db)
  {
    set r, i | r in rows && r !in displayed && i in Blockers(db) && AttributedTo(Blockers(db), i, r.root) :: i
  }

  /** The steps that such a root blocks. */
  ghost function HiddenBlocked(db: Db, rows: seq<Ranked>, displayed: seq<Ranked>): set<Id>
    requires Valid(db)
  {
    set r, i | r in rows && r !in displayed && i in Blocked(db, r.root) :: i
  }

  lemma {:induction false} SelectKeeps(ranked: seq<Ranked>, displayed: set<Blocker>, shown: bool, r: Ranked)
    requires r in ranked && (r.root in displayed) == shown
    ensures r in Select(ranked, displayed, shown)
  {
    if r != ranked[0] { SelectKeeps(ranked[1..], displayed, shown, r); }
  }

  lemma {:induction false} AttributedMembers(f: Forest, rs: seq<Ranked>, r: Ranked, i: Id)
    requires Closed(f) && r in rs && i in OfRoot(f, r.root)
    ensures i in AllAttributed(f, rs)
  {
    if r != rs[0] { AttributedMembers(f, rs[1..], r, i); }
  }

  /** The shown rows, told by their roots, are the displayed ones. */
  lemma ShownByRoot(rows: seq<Ranked>, displayed: seq<Ranked>, r: Ranked)
    requires DistinctRanks(rows) && (forall d :: d in displayed ==> d in rows) && r in rows
    ensures r.root in (set k | 0 <= k < |displayed| :: displayed[k].root) <==> r in displayed
  {
    if k :| 0 <= k < |displayed| && displayed[k].root == r.root {
      assert displayed[k] in displayed;
      var m :| 0 <= m < |rows| && rows[m] == displayed[k];
      var n :| 0 <= n < |rows| && rows[n] == r;
    }
  }

  function HiddenRows(rows: seq<Ranked>, displayed: seq<Ranked>): seq<Ranked>
    requires DistinctRanks(rows)
  {
    Select(RankRows(rows), (set k | 0 <= k < |displayed| :: displayed[k].root), false)
  }

  lemma HiddenRowsMean(rows: seq<Ranked>, displayed: seq<Ranked>)
    requires DistinctRanks(rows) && forall d :: d in displayed ==> d in rows
    ensures DistinctRanks(HiddenRows(rows, displayed))
    ensures forall r :: r in HiddenRows(rows, displayed) <==> r in rows && r !in displayed
  {
    var shown := set k | 0 <= k < |displayed| :: displayed[k].root;
    SortKeepsDistinct(Attributed(rows), rows);
    SelectDistinct(RankRows(rows), shown, false);
    forall r ensures r in HiddenRows(rows, displayed) <==> r in rows && r !in displayed {
      if k :| 0 <= k < |HiddenRows(rows, displayed)| && HiddenRows(rows, displayed)[k] == r {
        SelectMembers(RankRows(rows), shown, false, k);
        ShownByRoot(rows, displayed, r);
      }
      if r in rows && r !in displayed {
        ShownByRoot(rows, displayed, r);
        assert r in multiset(rows);
        SelectKeeps(RankRows(rows), shown, false, r);
      }
    }
  }

  lemma AttributedMean(f: Forest, rs: seq<Ranked>)
    requires Closed(f)
    ensures AllAttributed(f, rs) == set r, i | r in rs && i in f && AttributedTo(f, i, r.root) :: i
  {
    forall i ensures i in AllAttributed(f, rs) <==> exists r :: r in rs && i in f && AttributedTo(f, i, r.root) {
      if i in AllAttributed(f, rs) {
        var k := AttributedOfSome(f, rs, i);
        assert rs[k] in rs;
      }
      if r :| r in rs && i in f && AttributedTo(f, i, r.root) { AttributedMembers(f, rs, r, i); }
    }
  }

  /** What is hidden, as sets of steps. */
  lemma HiddenMeans(db: Db, rows: seq<Ranked>, displayed: seq<Ranked>)
    requires Valid(db) && Joined(db, rows) && forall d :: d in displayed ==> d in rows
    ensures Total(HiddenRows(rows, displayed)) == |HiddenSteps(db, rows, displayed)|
    ensures |HiddenSteps(db, rows, displayed)| <= |HiddenBlocked(db, rows, displayed)|
  {
    HiddenCounts(db, rows, displayed);
    HiddenRowsMean(rows, displayed);
    AttributedMean(Blockers(db), HiddenRows(rows, displayed));
    assert AllAttributed(Blockers(db), HiddenRows(rows, displayed)) == HiddenSteps(db, rows, displayed);
    HiddenWithinBlocked(db, rows, displayed);
  }

  lemma HiddenCounts(db: Db, rows: seq<Ranked>, displayed: seq<Ranked>)
    requires Valid(db) && Joined(db, rows) && forall d :: d in displayed ==> d in rows
    ensures Total(HiddenRows(rows, displayed)) == |AllAttributed(Blockers(db), HiddenRows(rows, displayed))|
  {
    var f, hidden := Blockers(db), HiddenRows(rows, displayed);
    HiddenRowsMean(rows, displayed);
    forall k | 0 <= k < |hidden|
      ensures IsRanked(hidden[k].root) && hidden[k].attributed == |OfRoot(f, hidden[k].root)|
    {
      assert hidden[k] in rows;
    }
    TotalIsSize(f, hidden);
  }

  lemma HiddenWithinBlocked(db: Db, rows: seq<Ranked>, displayed: seq<Ranked>)
    requires Valid(db) && Joined(db, rows)
    ensures |HiddenSteps(db, rows, displayed)| <= |HiddenBlocked(db, rows, displayed)|
  {
    forall i | i in HiddenSteps(db, rows, displayed) ensures i in HiddenBlocked(db, rows, displayed) {
      var r :| r in rows && r !in displayed && i in Blockers(db) && AttributedTo(Blockers(db), i, r.root);
      AttributedWithinBlocked(db, r.root);
      assert i in OfRoot(Blockers(db), r.root);
    }
    SubsetSize(HiddenSteps(db, rows, displayed), HiddenBlocked(db, rows, displayed));
  }

  /** `_rank_display`, for any database. */
  method RankDisplay(ghost db: Db, rows: seq<Ranked>, edges: Edges, seeds: map<Blocker, set<Id>>)
    returns (displayed: seq<Ranked>, exact: Counts, nhidden: nat, nhiddenBlocked: nat)
    requires Valid(db) && Joined(db, rows) && Seeded(db, rows, edges, seeds)
    ensures |displayed| == (if |rows| < 10 then |rows| else 10) && |displayed| + nhidden == |rows|
    ensures |Pool(rows)| == if |rows| < 20 then |rows| else 20
    ensures forall p :: p in Pool(rows) ==> p in rows
    ensures forall p, r :: p in Pool(rows) && r in rows && r !in Pool(rows) ==>
              var a, b := |OfRoot(Blockers(db), p.root)|, |OfRoot(Blockers(db), r.root)|;
              a > b || (a == b && p.id < r.id)
    ensures DistinctRanks(displayed) && forall d :: d in displayed ==> d in Pool(rows)
    ensures forall d, r :: d in displayed && r in Pool(rows) && r !in displayed ==>
              var a, b := |Blocked(db, d.root)|, |Blocked(db, r.root)|;
              a > b || (a == b && d.id < r.id)
    ensures forall d :: d in displayed ==> d.root in exact && exact[d.root] == |Blocked(db, d.root)|
    ensures forall j, k :: 0 <= j < k < |displayed| ==>
              var a, b := |Blocked(db, displayed[j].root)|, |Blocked(db, displayed[k].root)|;
              a > b || (a == b && displayed[j].id < displayed[k].id)
    ensures nhiddenBlocked == |HiddenSteps(db, rows, displayed)| <= |HiddenBlocked(db, rows, displayed)|
  {
    RankedRootsBlock(db, rows, edges, seeds);
    var ranked := RankRows(rows);
    assert |multiset(ranked)| == |multiset(rows)|;
    PoolIsBest(rows, edges, seeds);
    displayed, exact := PickRows(ranked, edges, seeds);
    ExactIsBlocked(db, rows, edges, seeds, exact);
    nhidden := |ranked| - |displayed|;
    var shown := set k | 0 <= k < |displayed| :: displayed[k].root;
    nhiddenBlocked := HiddenTotal(ranked, shown);
    MoreAttributed(db, rows);
    MoreBlocked(db, exact, Pool(rows), displayed);
    HiddenMeans(db, rows, displayed);
  }
}
