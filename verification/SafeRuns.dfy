/** Runs of the step table: the writes of step.py interleaved with the scheduler's safe updates. */
module SafeRuns {
  import opened Basics
  import opened Enums
  import opened SafeUpdate

  datatype Event =
    | SetState(i: Id, state: StepState)
    | Hold(i: Id)
    | Release(i: Id)
    | Define(i: Id, creator: Id, safe: bool)
    | Detach(i: Id)
    | Recycle(i: Id, creator: Id)
    | Update

  /** RECURSIVE_CHECK_WITH_PRODUCTS: the step and everything it created, recursively. */
  predicate WithProducts(t: Table, i: Id, j: Id)
    requires j in t
  {
    exists k | 0 <= k <= |t| :: Up(t, j, k) == Some(i)
  }

  function FlagTree(t: Table, i: Id): Table {
    map j | j in t :: if WithProducts(t, i, j) then t[j].(checkSafe := true) else t[j]
  }

  function Write(t: Table, i: Id, row: Row): Table { t[i := row] }

  ghost predicate Enabled(t: Table, e: Event) {
    && (e.Define? || e.Update? || e.i in t)
    && (e.Release? ==> t[e.i].holding > 0)
    && (e.Define? && e.safe ==>
          e.creator !in t && e.creator != e.i &&
          forall j :: j in t && t[j].creator == Some(e.i) ==> t[j].checkSafe)
    && ((e.Define? || e.Recycle?) ==> Forest(Apply(t, e)))
  }

  function Apply(t: Table, e: Event): Table
    requires e.Define? || e.Update? || e.i in t
    requires e.Release? ==> t[e.i].holding > 0
  {
    match e
    case SetState(i, state) =>
      // the triggers step_flag_check_safe and step_reset_holding
      Write(t, i, t[i].(state := state, checkSafe := true, holding := if state == Running then t[i].holding else 0))
    case Hold(i) =>
      var u := Write(t, i, t[i].(holding := t[i].holding + 1));
      if t[i].holding == 0 then FlagTree(u, i) else u
    case Release(i) =>
      var u := Write(t, i, t[i].(holding := t[i].holding - 1));
      if t[i].holding == 1 then FlagTree(u, i) else u
    case Define(i, creator, safe) =>
      Write(t, i, Row(Some(creator), Pending, 0, safe, safe, !safe))
    case Detach(i) => FlagTree(Write(t, i, t[i].(creator := None)), i)
    case Recycle(i, creator) => FlagTree(Write(t, i, t[i].(creator := Some(creator), holding := 0)), i)
    case Update => Updated(t)
  }

  /** Where a table was written, the rows that depend on the write are flagged. */
  ghost predicate WritesFlagged(t: Table, u: Table) {
    forall j :: j in u && Unflagged(u, j) ==>
      || (forall hold :: Stored(u, j, hold) && SeedSafe(u, j, hold))
      || (j in t && Unflagged(t, j) &&
          forall hold :: Stored(u, j, hold) == Stored(t, j, hold) && SeedSafe(u, j, hold) == SeedSafe(t, j, hold))
  }

  lemma WritesFlaggedKeeps(t: Table, u: Table)
    requires WritesFlagged(t, u)
    ensures NeverTooHigh(t) ==> NeverTooHigh(u)
    ensures Consistent(t) ==> Consistent(u)
  {
  }

  /** A write to row `i` whose row and direct products end up flagged. */
  lemma WriteRow(t: Table, u: Table, i: Id)
    requires i in t && u.Keys == t.Keys && u[i].checkSafe
    requires forall j :: j in t && j != i ==>
               && u[j].creator == t[j].creator && (t[j].checkSafe ==> u[j].checkSafe)
               && u[j].(checkSafe := false) == t[j].(checkSafe := false)
    ensures WritesFlagged(t, u)
  {
    forall j | j in u && Unflagged(u, j)
      ensures Unflagged(t, j) &&
              forall hold :: Stored(u, j, hold) == Stored(t, j, hold) && SeedSafe(u, j, hold) == SeedSafe(t, j, hold)
    {
      assert j != i && CreatorStep(u, j) == CreatorStep(t, j);
      if CreatorStep(u, j).Some? {
        var c := CreatorStep(u, j).value;
        assert c != i;
      }
    }
  }

  /** Counting one more or one fewer nested hold changes nothing that any row depends on. */
  lemma NestedHold(t: Table, i: Id, n: nat)
    requires i in t && t[i].holding > 0 && n > 0
    ensures WritesFlagged(t, Write(t, i, t[i].(holding := n)))
  {
    var u := Write(t, i, t[i].(holding := n));
    forall j | j in u && Unflagged(u, j)
      ensures Unflagged(t, j) &&
              forall hold :: Stored(u, j, hold) == Stored(t, j, hold) && SeedSafe(u, j, hold) == SeedSafe(t, j, hold)
    {
      assert CreatorStep(u, j) == CreatorStep(t, j);
    }
  }

  /** The same rows, each with the same creator or none. */
  ghost predicate NoNewCreators(t: Table, u: Table) {
    u.Keys == t.Keys && forall j :: j in t ==> u[j].creator == t[j].creator || u[j].creator.None?
  }

  lemma SameCreatorsSameForest(t: Table, u: Table)
    requires Forest(t) && NoNewCreators(t, u)
    ensures Forest(u)
  {
    var rank :| Ranked(t, rank);
    forall j | j in u && CreatorStep(u, j).Some? ensures rank[CreatorStep(u, j).value] < rank[j] {
      assert CreatorStep(t, j) == CreatorStep(u, j);
    }
    assert Ranked(u, rank);
  }

  lemma WriteAddsNoCreator(t: Table, i: Id, row: Row)
    requires i in t && (row.creator == t[i].creator || row.creator.None?)
    ensures NoNewCreators(t, Write(t, i, row)) && NoNewCreators(t, FlagTree(Write(t, i, row), i))
  {
  }

  /** The flag of the root of a flagged tree is set. */
  lemma TreeFlagsRoot(t: Table, i: Id)
    requires i in t
    ensures FlagTree(t, i).Keys == t.Keys && FlagTree(t, i)[i].checkSafe
  {
    assert Up(t, i, 0) == Some(i);
  }

  lemma HoldingKeepsForest(t: Table, i: Id, n: nat)
    requires Forest(t) && i in t
    ensures Forest(Write(t, i, t[i].(holding := n))) && Forest(FlagTree(Write(t, i, t[i].(holding := n)), i))
  {
    var row := t[i].(holding := n);
    WriteAddsNoCreator(t, i, row);
    SameCreatorsSameForest(t, Write(t, i, row));
    SameCreatorsSameForest(t, FlagTree(Write(t, i, row), i));
  }

  lemma RowKeepsForest(t: Table, e: Event)
    requires Forest(t) && Enabled(t, e) && (e.SetState? || e.Detach?)
    ensures Forest(Apply(t, e))
  {
    if e.SetState? {
      WriteAddsNoCreator(t, e.i, Apply(t, e)[e.i]);
    } else {
      WriteAddsNoCreator(t, e.i, t[e.i].(creator := None));
    }
    SameCreatorsSameForest(t, Apply(t, e));
  }

  lemma EventKeepsForest(t: Table, e: Event)
    requires Forest(t) && Enabled(t, e)
    ensures Forest(Apply(t, e))
  {
    if e.Update? {
      UpdateKeepsForest(t);
    } else if e.Hold? {
      HoldingKeepsForest(t, e.i, t[e.i].holding + 1);
    } else if e.Release? {
      HoldingKeepsForest(t, e.i, t[e.i].holding - 1);
    } else if e.SetState? || e.Detach? {
      RowKeepsForest(t, e);
    }
  }

  /** A new number of nested holds, with the tree flagged when the first comes or the last one goes. */
  lemma HoldingWritesFlagged(t: Table, i: Id, n: nat)
    requires i in t
    ensures WritesFlagged(t, FlagTree(Write(t, i, t[i].(holding := n)), i))
    ensures n > 0 && t[i].holding > 0 ==> WritesFlagged(t, Write(t, i, t[i].(holding := n)))
  {
    var u := Write(t, i, t[i].(holding := n));
    TreeFlagsRoot(u, i);
    WriteRow(t, FlagTree(u, i), i);
    if n > 0 && t[i].holding > 0 { NestedHold(t, i, n); }
  }

  lemma CreatorWritesFlagged(t: Table, i: Id, row: Row)
    requires i in t
    ensures WritesFlagged(t, FlagTree(Write(t, i, row), i))
  {
    TreeFlagsRoot(Write(t, i, row), i);
    WriteRow(t, FlagTree(Write(t, i, row), i), i);
  }

  lemma HoldWritesFlagged(t: Table, i: Id)
    requires i in t
    ensures WritesFlagged(t, Apply(t, Hold(i)))
  {
    var u := Write(t, i, t[i].(holding := t[i].holding + 1));
    HoldingWritesFlagged(t, i, t[i].holding + 1);
    assert Apply(t, Hold(i)) == if t[i].holding == 0 then FlagTree(u, i) else u;
  }

  lemma ReleaseWritesFlagged(t: Table, i: Id)
    requires i in t && t[i].holding > 0
    ensures WritesFlagged(t, Apply(t, Release(i)))
  {
    var u := Write(t, i, t[i].(holding := t[i].holding - 1));
    HoldingWritesFlagged(t, i, t[i].holding - 1);
    assert Apply(t, Release(i)) == if t[i].holding == 1 then FlagTree(u, i) else u;
  }

  lemma DefineWritesFlagged(t: Table, e: Event)
    requires Enabled(t, e) && e.Define?
    ensures WritesFlagged(t, Apply(t, e))
  {
    var u := Apply(t, e);
    forall j | j in u && Unflagged(u, j) && j != e.i
      ensures j in t && Unflagged(t, j)
      ensures forall hold :: Stored(u, j, hold) == Stored(t, j, hold) && SeedSafe(u, j, hold) == SeedSafe(t, j, hold)
    {
      assert u[j] == t[j];
      if t[j].creator != Some(e.i) {
        assert CreatorStep(u, j) == CreatorStep(t, j);
      }
    }
  }

  lemma EventWritesFlagged(t: Table, e: Event)
    requires Enabled(t, e) && !e.Update?
    ensures WritesFlagged(t, Apply(t, e))
  {
    if e.Hold? {
      HoldWritesFlagged(t, e.i);
    } else if e.Release? {
      ReleaseWritesFlagged(t, e.i);
    } else if e.Define? {
      DefineWritesFlagged(t, e);
    } else if e.SetState? {
      WriteRow(t, Apply(t, e), e.i);
    } else if e.Detach? {
      CreatorWritesFlagged(t, e.i, t[e.i].(creator := None));
    } else {
      CreatorWritesFlagged(t, e.i, t[e.i].(creator := Some(e.creator), holding := 0));
    }
  }

  lemma EventKeepsNeverTooHigh(t: Table, e: Event)
    requires Forest(t) && NeverTooHigh(t) && Enabled(t, e)
    ensures NeverTooHigh(Apply(t, e))
  {
    if e.Update? {
      UpdateKeepsNeverTooHigh(t);
    } else {
      EventWritesFlagged(t, e);
      WritesFlaggedKeeps(t, Apply(t, e));
    }
  }

  ghost predicate IsStep(t: Table, e: Event, u: Table) {
    Enabled(t, e) && u == Apply(t, e)
  }

  ghost predicate IsRun(tables: seq<Table>, events: seq<Event>) {
    && |tables| == |events| + 1
    && forall n :: 0 <= n < |events| ==> IsStep(tables[n], events[n], tables[n + 1])
  }

  lemma {:induction false} RunKeepsInvariant(tables: seq<Table>, events: seq<Event>, n: nat)
    requires IsRun(tables, events) && n < |tables|
    requires Forest(tables[0]) && NeverTooHigh(tables[0])
    ensures Forest(tables[n]) && NeverTooHigh(tables[n])
  {
    if n > 0 {
      RunKeepsInvariant(tables, events, n - 1);
      assert IsStep(tables[n - 1], events[n - 1], tables[n - 1 + 1]);
      EventKeepsForest(tables[n - 1], events[n - 1]);
      EventKeepsNeverTooHigh(tables[n - 1], events[n - 1]);
    }
  }

  /**
   * Over every run: when the scheduler has just updated the columns, a step it may dispatch
   * has only RUNNING or SUCCEEDED creators, and none that holds unless the step is hash-checkable.
   */
  lemma RunIsNeverTooSafe(tables: seq<Table>, events: seq<Event>, n: nat, i: Id, hold: bool)
    requires IsRun(tables, events) && Forest(tables[0]) && NeverTooHigh(tables[0])
    requires n < |events| && events[n].Update?
    requires i in tables[n + 1] && Stored(tables[n + 1], i, hold)
    ensures AllCreatorsUnbroken(tables[n + 1], i, hold)
  {
    RunKeepsInvariant(tables, events, n);
    var t := tables[n];
    assert IsStep(t, events[n], tables[n + 1]);
    NeverTooSafe(t, i, hold);
    forall j | j in t ensures CreatorStep(Updated(t), j) == CreatorStep(t, j)
      && Unbroken(Updated(t), j, hold) == Unbroken(t, j, hold)
    {
      UpdatedRow(t, j, hold);
    }
    SameChain(t, Updated(t), i, hold);
  }

  lemma UpdateKeepsConsistent(t: Table)
    requires Forest(t) && Consistent(t) && NoStaleZero(t, true) && NoStaleZero(t, false)
    ensures Consistent(Updated(t))
  {
    ExactIffNoStaleZero(t, true);
    ExactIffNoStaleZero(t, false);
    ExactRestoresConsistency(t);
  }

  /**
   * Over every run from an empty table: after an update, a step with `_safe` set has only creators that run
   * or have succeeded and do not hold, and one with `_safe_ignoring_hold` only such that run or have succeeded.
   */
  lemma SafeMeansCreatorsRun(tables: seq<Table>, events: seq<Event>, n: nat, i: Id)
    requires IsRun(tables, events) && tables[0] == map[] && n < |events| && events[n].Update? && i in tables[n + 1]
    ensures tables[n + 1][i].safe ==> CreatorsRun(tables[n + 1], i, false)
    ensures tables[n + 1][i].safeIgnoringHold ==> CreatorsRun(tables[n + 1], i, true)
  {
    EmptyIsConsistent();
    UnbrokenMeansRun(tables[n + 1], i);
    if Stored(tables[n + 1], i, true) { RunIsNeverTooSafe(tables, events, n, i, true); }
    if Stored(tables[n + 1], i, false) { RunIsNeverTooSafe(tables, events, n, i, false); }
  }

  lemma EmptyIsConsistent()
    ensures var t: Table := map[]; Forest(t) && NeverTooHigh(t) && Consistent(t)
  {
    var t: Table := map[];
    assert Ranked(t, map[]);
  }

  /** No update up to the `n`-th event met a stale zero. */
  ghost predicate NeverStale(tables: seq<Table>, events: seq<Event>, n: nat)
    requires IsRun(tables, events) && n < |tables|
  {
    forall m :: 0 <= m < n && events[m].Update? ==> NoStaleZero(tables[m], true) && NoStaleZero(tables[m], false)
  }

  lemma {:induction false} RunKeepsConsistent(tables: seq<Table>, events: seq<Event>, n: nat)
    requires IsRun(tables, events) && tables[0] == map[] && n < |tables| && NeverStale(tables, events, n)
    ensures Forest(tables[n]) && Consistent(tables[n])
  {
    EmptyIsConsistent();
    if n > 0 {
      RunKeepsConsistent(tables, events, n - 1);
      assert IsStep(tables[n - 1], events[n - 1], tables[n - 1 + 1]);
      EventKeepsForest(tables[n - 1], events[n - 1]);
      EventKeepsConsistent(tables[n - 1], events[n - 1]);
    }
  }

  /** The converse, over every run whose updates met no stale zero. */
  lemma CreatorsRunMeansSafe(tables: seq<Table>, events: seq<Event>, n: nat, i: Id)
    requires IsRun(tables, events) && tables[0] == map[] && n < |events| && events[n].Update? && i in tables[n + 1]
    requires NeverStale(tables, events, n + 1)
    ensures tables[n + 1][i].safe <==> CreatorsRun(tables[n + 1], i, false)
    ensures tables[n + 1][i].safeIgnoringHold <==> CreatorsRun(tables[n + 1], i, true)
  {
    var t := tables[n];
    RunKeepsConsistent(tables, events, n);
    assert IsStep(t, events[n], tables[n + 1]);
    UnbrokenMeansRun(Updated(t), i);
    ExactIsOfUpdated(t, i, true);
    ExactIsOfUpdated(t, i, false);
  }

  lemma ExactIsOfUpdated(t: Table, i: Id, hold: bool)
    requires Forest(t) && Consistent(t) && NoStaleZero(t, hold) && i in t
    ensures Stored(Updated(t), i, hold) <==> AllCreatorsUnbroken(Updated(t), i, hold)
  {
    ExactIffNoStaleZero(t, hold);
    forall j | j in t
      ensures CreatorStep(Updated(t), j) == CreatorStep(t, j) && Unbroken(Updated(t), j, hold) == Unbroken(t, j, hold)
    {
      UpdatedRow(t, j, hold);
    }
    SameChain(t, Updated(t), i, hold);
  }

  // ---- What the writes record ----

  /** What happened to a step: who created it, the state it was last put in, and the holds it has open. */
  datatype Past = Past(creator: Option<Id>, state: StepState, holding: nat)

  /** A step that stops running, or is recycled, has no open hold. */
  function Happened(p: Past, e: Event): Past {
    match e
    case SetState(_, state) => p.(state := state, holding := if state == Running then p.holding else 0)
    case Hold(_) => p.(holding := p.holding + 1)
    case Release(_) => p.(holding := if p.holding > 0 then p.holding - 1 else 0)
    case Detach(_) => p.(creator := None)
    case Recycle(_, creator) => p.(creator := Some(creator), holding := 0)
    case _ => p
  }

  /** Read off the events alone. */
  ghost function PastOf(events: seq<Event>, i: Id, n: nat): Option<Past>
    requires n <= |events|
  {
    if n == 0 then None else PastAfter(PastOf(events, i, n - 1), events[n - 1], i)
  }

  function PastAfter(before: Option<Past>, e: Event, i: Id): Option<Past> {
    if e.Update? || e.i != i then before
    else if e.Define? then Some(Past(Some(e.creator), Pending, 0))
    else if before.None? then None
    else Some(Happened(before.value, e))
  }

  ghost predicate Records(t: Table, i: Id, past: Option<Past>) {
    if i in t then past == Some(Past(t[i].creator, t[i].state, t[i].holding)) else past == None
  }

  lemma OtherRowKeeps(t: Table, e: Event, i: Id)
    requires Enabled(t, e) && (e.Update? || e.i != i)
    ensures i in Apply(t, e) <==> i in t
    ensures i in t ==> var u := Apply(t, e)[i];
              u.creator == t[i].creator && u.state == t[i].state && u.holding == t[i].holding
  {
  }

  lemma OwnRowRecords(t: Table, e: Event, past: Option<Past>)
    requires Enabled(t, e) && !e.Update? && Records(t, e.i, past)
    ensures Records(Apply(t, e), e.i, PastAfter(past, e, e.i))
  {
  }

  /** The columns that safety is read from are those that the events left, whatever was flagged or updated. */
  lemma {:induction false} RowsFollowEvents(tables: seq<Table>, events: seq<Event>, i: Id, n: nat)
    requires IsRun(tables, events) && tables[0] == map[] && n < |tables|
    ensures Records(tables[n], i, PastOf(events, i, n))
  {
    if n > 0 {
      RowsFollowEvents(tables, events, i, n - 1);
      assert IsStep(tables[n - 1], events[n - 1], tables[n - 1 + 1]);
      if events[n - 1].Update? || events[n - 1].i != i {
        OtherRowKeeps(tables[n - 1], events[n - 1], i);
      } else {
        OwnRowRecords(tables[n - 1], events[n - 1], PastOf(events, i, n - 1));
      }
    }
  }

  // ---- What the writes flag ----

  /** The write changes whether the step is held at all, or where it stands in the tree. */
  predicate Crosses(t: Table, e: Event) {
    && !e.Update? && e.i in t
    && match e
       case Hold(i) => t[i].holding == 0
       case Release(i) => t[i].holding == 1
       case Detach(_) => true
       case Recycle(_, _) => true
       case _ => false
  }

  /** A path of creators, read off the rows, leads from `j` to `i`. */
  ghost predicate CreatedBy(t: Table, j: Id, i: Id) {
    exists p :: CreatorPath(t, p) && p[0] == j && p[|p| - 1] == i
  }

  lemma ProductsAreCreated(t: Table, i: Id, j: Id)
    requires Forest(t) && j in t
    ensures WithProducts(t, i, j) <==> CreatedBy(t, j, i)
  {
    if WithProducts(t, i, j) {
      var k :| 0 <= k <= |t| && Up(t, j, k) == Some(i);
      var p := UpPath(t, j, k);
    }
    if CreatedBy(t, j, i) {
      var p :| CreatorPath(t, p) && p[0] == j && p[|p| - 1] == i;
      PathUp(t, p, |p| - 1);
      ChainBound(t, j, |p| - 1);
    }
  }

  lemma SamePath(t: Table, u: Table, p: seq<Id>)
    requires t.Keys == u.Keys && forall k :: k in t ==> t[k].creator == u[k].creator
    requires CreatorPath(t, p)
    ensures CreatorPath(u, p)
  {
    forall k | 0 <= k < |p| - 1 ensures u[p[k]].creator == Some(p[k + 1]) {
      var a := p[k];
      assert a in t && t[a].creator == Some(p[k + 1]);
      assert u[a].creator == t[a].creator;
    }
  }

  lemma SameCreators(t: Table, u: Table, j: Id, i: Id)
    requires t.Keys == u.Keys && forall k :: k in t ==> t[k].creator == u[k].creator
    ensures CreatedBy(t, j, i) <==> CreatedBy(u, j, i)
  {
    if p :| CreatorPath(t, p) && p[0] == j && p[|p| - 1] == i { SamePath(t, u, p); }
    if p :| CreatorPath(u, p) && p[0] == j && p[|p| - 1] == i { SamePath(u, t, p); }
  }

  /**
   * A step that starts or ends being held, is detached or recycled flags itself and everything it created,
   * however far down, and no other step; the first and last of nested holds are the only ones that do.
   */
  lemma FlagsItsProducts(t: Table, e: Event, j: Id)
    requires Forest(t) && Enabled(t, e) && (e.Hold? || e.Release? || e.Detach? || e.Recycle?) && j in t
    ensures Apply(t, e).Keys == t.Keys
    ensures Apply(t, e)[j].checkSafe <==> t[j].checkSafe || (Crosses(t, e) && CreatedBy(Apply(t, e), j, e.i))
  {
    EventKeepsForest(t, e);
    var w := Write(t, e.i, WrittenRow(t, e));
    WritesAndFlags(t, e);
    SameForest(Apply(t, e), w);
    ProductsAreCreated(w, e.i, j);
    SameCreators(w, Apply(t, e), j, e.i);
  }

  function WrittenRow(t: Table, e: Event): Row
    requires (e.Hold? || e.Release? || e.Detach? || e.Recycle?) && e.i in t && (e.Release? ==> t[e.i].holding > 0)
  {
    match e
    case Hold(i) => t[i].(holding := t[i].holding + 1)
    case Release(i) => t[i].(holding := t[i].holding - 1)
    case Detach(i) => t[i].(creator := None)
    case Recycle(i, creator) => t[i].(creator := Some(creator), holding := 0)
  }

  lemma WritesAndFlags(t: Table, e: Event)
    requires Enabled(t, e) && (e.Hold? || e.Release? || e.Detach? || e.Recycle?)
    ensures var w := Write(t, e.i, WrittenRow(t, e)); Apply(t, e) == if Crosses(t, e) then FlagTree(w, e.i) else w
  {
  }

  lemma SameForest(t: Table, u: Table)
    requires Forest(t) && t.Keys == u.Keys && forall k :: k in t ==> t[k].creator == u[k].creator
    ensures Forest(u)
  {
    var rank :| Ranked(t, rank);
    assert Ranked(u, rank);
  }

  /** Between updates the writes keep a consistent table consistent, so exactness can be re-established. */
  lemma EventKeepsConsistent(t: Table, e: Event)
    requires Forest(t) && Consistent(t) && Enabled(t, e)
    requires e.Update? ==> NoStaleZero(t, true) && NoStaleZero(t, false)
    ensures Consistent(Apply(t, e))
  {
    if e.Update? {
      UpdateKeepsConsistent(t);
    } else {
      EventWritesFlagged(t, e);
      WritesFlaggedKeeps(t, Apply(t, e));
    }
  }

  // ---- MIN does not always recover the right value ----

  /** A running plan (1), a step it created that has succeeded (2), and that step's pending product (3). */
  function Nested(holding: nat, safe2: bool, safe3: bool, flagged: bool): Table {
    map[1 := Row(Some(0), Running, holding, true, true, flagged),
        2 := Row(Some(1), Succeeded, 0, safe2, true, flagged),
        3 := Row(Some(2), Pending, 0, safe3, true, flagged)]
  }

  lemma NestedCreators(t: Table, holding: nat, safe2: bool, safe3: bool, flagged: bool)
    requires t == Nested(holding, safe2, safe3, flagged)
    ensures CreatorStep(t, 1) == None && CreatorStep(t, 2) == Some(1) && CreatorStep(t, 3) == Some(2)
    ensures Forest(t)
  {
    assert Ranked(t, map[1 := 0, 2 := 1, 3 := 2]);
  }

  lemma NestedTree(t: Table, holding: nat, safe2: bool, safe3: bool)
    requires t == Nested(holding, safe2, safe3, false)
    ensures FlagTree(t, 1) == Nested(holding, safe2, safe3, true)
  {
    NestedCreators(t, holding, safe2, safe3, false);
    assert |t| == 3 by { assert t.Keys == {1, 2, 3}; }
    assert Up(t, 1, 0) == Some(1);
    assert Up(t, 2, 0) == Some(2) && Up(t, 2, 1) == Some(1);
    assert Up(t, 3, 0) == Some(3) && Up(t, 3, 1) == Some(2) && Up(t, 3, 2) == Some(1);
  }

  /** The update of a flagged chain of three, written out. */
  lemma ChainOfThree(t: Table, a: Id, b: Id, c: Id, hold: bool)
    requires Forest(t) && a in t && b in t && c in t
    requires CreatorStep(t, a) == None && CreatorStep(t, b) == Some(a) && CreatorStep(t, c) == Some(b)
    requires t[a].checkSafe && t[b].checkSafe && t[c].checkSafe
    ensures Stored(Updated(t), a, hold)
    ensures Stored(Updated(t), b, hold) == (Stored(t, a, hold) && Unbroken(t, a, hold))
    ensures Stored(Updated(t), c, hold) ==
              (Stored(t, a, hold) && Unbroken(t, a, hold) && Stored(t, b, hold) && Unbroken(t, b, hold))
  {
    UpdateReaches(t, a); UpdateReaches(t, b); UpdateReaches(t, c);
    MinSafeStep(t, a, hold); MinSafeStep(t, b, hold); MinSafeStep(t, c, hold);
    UpdatedRow(t, a, hold); UpdatedRow(t, b, hold); UpdatedRow(t, c, hold);
  }

  lemma NestedStored(t: Table, holding: nat, safe2: bool, safe3: bool, hold: bool)
    requires t == Nested(holding, safe2, safe3, true)
    ensures Updated(t).Keys == {1, 2, 3}
    ensures Stored(Updated(t), 1, hold)
    ensures Stored(Updated(t), 2, hold) == (hold ==> holding == 0)
    ensures Stored(Updated(t), 3, hold) == (hold ==> holding == 0 && safe2)
  {
    NestedCreators(t, holding, safe2, safe3, true);
    ChainOfThree(t, 1, 2, 3, hold);
    assert t.Keys == {1, 2, 3};
  }

  lemma UpdatedFromStored(t: Table, i: Id)
    requires i in t
    ensures Updated(t)[i] == t[i].(safe := Stored(Updated(t), i, true),
                                   safeIgnoringHold := Stored(Updated(t), i, false), checkSafe := false)
  {
  }

  lemma NestedUpdate(t: Table, holding: nat, safe2: bool, safe3: bool)
    requires t == Nested(holding, safe2, safe3, true)
    ensures Updated(t) == Nested(holding, holding == 0, holding == 0 && safe2, false)
  {
    NestedStored(t, holding, safe2, safe3, true);
    NestedStored(t, holding, safe2, safe3, false);
    UpdatedFromStored(t, 1);
    UpdatedFromStored(t, 2);
    UpdatedFromStored(t, 3);
    SameThree(Updated(t), Nested(holding, holding == 0, holding == 0 && safe2, false));
  }

  lemma SameThree(t: Table, u: Table)
    requires t.Keys == {1, 2, 3} && u.Keys == {1, 2, 3} && t[1] == u[1] && t[2] == u[2] && t[3] == u[3]
    ensures t == u
  {
  }

  lemma NestedHoldRelease(safe2: bool, safe3: bool)
    ensures Apply(Nested(0, safe2, safe3, false), Hold(1)) == Nested(1, safe2, safe3, true)
    ensures Apply(Nested(1, safe2, safe3, false), Release(1)) == Nested(0, safe2, safe3, true)
  {
    var t, u := Nested(0, safe2, safe3, false), Nested(1, safe2, safe3, false);
    assert Write(t, 1, t[1].(holding := 1)) == u;
    assert Write(u, 1, u[1].(holding := 0)) == t;
    NestedTree(t, 0, safe2, safe3);
    NestedTree(u, 1, safe2, safe3);
  }

  /** Before the hold, and after the release: every step runs or has succeeded, except the pending product. */
  lemma NestedUnbroken(t: Table, safe3: bool)
    requires t == Nested(0, true, safe3, false)
    ensures AllCreatorsUnbroken(t, 3, true) && (safe3 ==> Consistent(t))
  {
    NestedCreators(t, 0, true, safe3, false);
    UnbrokenStep(t, 3, true);
    UnbrokenStep(t, 2, true);
    UnbrokenStep(t, 1, true);
  }

  function HeldRun(): seq<Table> {
    [Nested(0, true, true, false), Nested(1, true, true, true), Nested(1, false, false, false),
     Nested(0, false, false, true), Nested(0, true, false, false)]
  }

  lemma HeldRunIsRun(tables: seq<Table>, events: seq<Event>)
    requires tables == HeldRun() && events == [Hold(1), Update, Release(1), Update]
    ensures IsRun(tables, events)
  {
    HoldStep(tables[0], tables[1]);
    UpdateStep(tables[1], tables[2], 1, true, true);
    ReleaseStep(tables[2], tables[3]);
    UpdateStep(tables[3], tables[4], 0, false, false);
    StepsMakeRun(tables, events);
  }

  lemma HoldStep(t: Table, u: Table)
    requires t == Nested(0, true, true, false) && u == Nested(1, true, true, true)
    ensures IsStep(t, Hold(1), u)
  {
    NestedHoldRelease(true, true);
  }

  lemma ReleaseStep(t: Table, u: Table)
    requires t == Nested(1, false, false, false) && u == Nested(0, false, false, true)
    ensures IsStep(t, Release(1), u)
  {
    NestedHoldRelease(false, false);
  }

  lemma UpdateStep(t: Table, u: Table, holding: nat, safe2: bool, safe3: bool)
    requires t == Nested(holding, safe2, safe3, true)
    requires u == Nested(holding, holding == 0, holding == 0 && safe2, false)
    ensures IsStep(t, Update, u)
  {
    NestedUpdate(t, holding, safe2, safe3);
    assert Apply(t, Update) == Updated(t);
  }

  lemma StepsMakeRun(tables: seq<Table>, events: seq<Event>)
    requires |tables| == 5 && |events| == 4
    requires IsStep(tables[0], events[0], tables[1]) && IsStep(tables[1], events[1], tables[2])
    requires IsStep(tables[2], events[2], tables[3]) && IsStep(tables[3], events[3], tables[4])
    ensures IsRun(tables, events)
  {
    forall n | 0 <= n < 4 ensures IsStep(tables[n], events[n], tables[n + 1]) {
      assert n == 0 || n == 1 || n == 2 || n == 3;
    }
  }

  /**
   * Releasing a hold flags the whole tree, and the grandchild reads the zero that its creator still
   * stores from the time of the hold. MIN keeps that zero: with no hold left and every creator
   * unbroken, the grandchild stays unsafe and nothing is flagged to correct it.
   */
  lemma StaleZeroSurvivesMin(tables: seq<Table>, events: seq<Event>)
    requires tables == HeldRun() && events == [Hold(1), Update, Release(1), Update]
    ensures IsRun(tables, events) && Forest(tables[0]) && Consistent(tables[0])
    ensures AllCreatorsUnbroken(tables[4], 3, true)
    ensures forall i :: i in tables[4] ==> !tables[4][i].checkSafe
    ensures !tables[4][3].safe
  {
    HeldRunIsRun(tables, events);
    NestedCreators(tables[0], 0, true, true, false);
    NestedUnbroken(tables[0], true);
    NestedUnbroken(tables[4], false);
  }
}
