/**
 * scheduler.py and step.py: the `_safe` and `_safe_ignoring_hold` columns, which say whether every
 * (recursive) creator of a step is in a state that lets the step be queued.
 */
module SafeUpdate {
  import opened Basics
  import opened Enums

  type Id = int

  /** A row of the step table, joined with the creator of its node. */
  datatype Row = Row(
    creator: Option<Id>,
    state: StepState,
    holding: nat,
    safe: bool,
    safeIgnoringHold: bool,
    checkSafe: bool)

  /** A creator outside the table is the root, another kind of node, or NULL. */
  type Table = map<Id, Row>

  function CreatorStep(t: Table, i: Id): Option<Id>
    requires i in t
  {
    if t[i].creator.Some? && t[i].creator.value in t then t[i].creator else None
  }

  /** The node table is a forest: some ranking decreases from every step to its creator. */
  ghost predicate Ranked(t: Table, rank: map<Id, nat>) {
    && rank.Keys == t.Keys
    && forall i :: i in t && CreatorStep(t, i).Some? ==> rank[CreatorStep(t, i).value] < rank[i]
  }

  ghost predicate Forest(t: Table) {
    exists rank :: Ranked(t, rank)
  }

  /** `hold` selects the column: `_safe` when true, `_safe_ignoring_hold` when false. */
  predicate Unbroken(t: Table, i: Id, hold: bool)
    requires i in t
  {
    t[i].state in {Running, Succeeded} && (hold ==> t[i].holding == 0)
  }

  predicate Stored(t: Table, i: Id, hold: bool)
    requires i in t
  {
    if hold then t[i].safe else t[i].safeIgnoringHold
  }

  /** The step `k` creators up, if there is one. */
  function Up(t: Table, i: Id, k: nat): (r: Option<Id>)
    requires i in t
    ensures r.Some? ==> r.value in t
  {
    if k == 0 then Some(i)
    else
      match Up(t, i, k - 1)
      case None => None
      case Some(a) => CreatorStep(t, a)
  }

  /** A path from a step through its creators, read off the rows. */
  ghost predicate CreatorPath(t: Table, p: seq<Id>) {
    && p != [] && (forall k :: 0 <= k < |p| ==> p[k] in t)
    && forall k :: 0 <= k < |p| - 1 ==> t[p[k]].creator == Some(p[k + 1])
  }

  lemma {:induction false} PathUp(t: Table, p: seq<Id>, k: nat)
    requires CreatorPath(t, p) && k < |p|
    ensures Up(t, p[0], k) == Some(p[k])
  {
    if k > 0 {
      PathUp(t, p, k - 1);
      assert t[p[k - 1]].creator == Some(p[k - 1 + 1]);
    }
  }

  lemma {:induction false} UpPath(t: Table, i: Id, k: nat) returns (p: seq<Id>)
    requires i in t && Up(t, i, k).Some?
    ensures CreatorPath(t, p) && |p| == k + 1 && p[0] == i && p[k] == Up(t, i, k).value
  {
    if k == 0 {
      p := [i];
    } else {
      p := UpPath(t, i, k - 1);
      p := p + [Up(t, i, k).value];
    }
  }

  // ---- Definition ----

  /** What the columns promise: no creator, however far up, is in a state that blocks the step. */
  ghost predicate AllCreatorsUnbroken(t: Table, i: Id, hold: bool)
    requires i in t
  {
    forall k: nat :: k >= 1 && Up(t, i, k).Some? ==> Unbroken(t, Up(t, i, k).value, hold)
  }

  // ---- FILL_SAFE_UPDATE ----

  /** The first branch of the recursive query: a value derived from the creator's stored columns. */
  predicate SeedSafe(t: Table, i: Id, hold: bool)
    requires i in t
  {
    match CreatorStep(t, i)
    case None => true
    case Some(c) => Stored(t, c, hold) && Unbroken(t, c, hold)
  }

  /** The `safe` and `chain` fields of the row that reaches `i` from the seed `k` creators up. */
  function TraceRow(t: Table, i: Id, k: nat, hold: bool): (bool, bool)
    requires i in t && Up(t, i, k).Some?
    decreases k
  {
    if k == 0 then
      (SeedSafe(t, i, hold), SeedSafe(t, i, hold) && Unbroken(t, i, hold))
    else
      UpOfCreator(t, i, k - 1);
      var above := TraceRow(t, CreatorStep(t, i).value, k - 1, hold);
      (above.1, above.1 && Unbroken(t, i, hold))
  }

  lemma {:induction false} UpOfCreator(t: Table, i: Id, k: nat)
    requires i in t
    ensures match CreatorStep(t, i)
            case None => Up(t, i, k + 1) == None
            case Some(c) => Up(t, i, k + 1) == Up(t, c, k)
  {
    if k > 0 {
      UpOfCreator(t, i, k - 1);
    }
  }

  predicate HasSeed(t: Table, i: Id, k: nat)
    requires i in t
  {
    Up(t, i, k).Some? && t[Up(t, i, k).value].checkSafe
  }

  /** No creator chain is longer than the table, so the bound below cuts nothing off. */
  lemma ChainBound(t: Table, i: Id, k: nat)
    requires Forest(t) && i in t && Up(t, i, k).Some?
    ensures k < |t|
  {
    var rank :| Ranked(t, rank);
    var seen := ChainDistinct(t, rank, i, k);
    SubsetSize(seen, t.Keys);
  }

  lemma {:induction false} ChainDistinct(t: Table, rank: map<Id, nat>, i: Id, k: nat) returns (seen: set<Id>)
    requires Ranked(t, rank) && i in t && Up(t, i, k).Some?
    ensures seen <= t.Keys && |seen| == k + 1
    ensures forall a :: a in seen ==> rank[Up(t, i, k).value] <= rank[a]
  {
    if k == 0 {
      seen := {i};
    } else {
      var below := Up(t, i, k - 1).value;
      assert Up(t, i, k) == CreatorStep(t, below);
      var rest := ChainDistinct(t, rank, i, k - 1);
      var top := Up(t, i, k).value;
      assert rank[top] < rank[below];
      forall a | a in rest ensures a != top { assert rank[below] <= rank[a]; }
      seen := rest + {top};
    }
  }

  predicate InSafeUpdate(t: Table, i: Id)
    requires i in t
  {
    exists k | 0 <= k <= |t| :: HasSeed(t, i, k)
  }

  /** `MIN` over the rows of one step. */
  predicate MinSafe(t: Table, i: Id, hold: bool)
    requires i in t
  {
    forall k | 0 <= k <= |t| && HasSeed(t, i, k) :: TraceRow(t, i, k, hold).0
  }

  function SafeUpdateTable(t: Table): map<Id, (bool, bool)> {
    map i | i in t && InSafeUpdate(t, i) :: (MinSafe(t, i, true), MinSafe(t, i, false))
  }

  /** The step table after scheduler.py `_update_meta_safe`. */
  function Updated(t: Table): Table {
    var su := SafeUpdateTable(t);
    map i | i in t :: (if i in su then t[i].(safe := su[i].0, safeIgnoringHold := su[i].1) else t[i])
                      .(checkSafe := false)
  }

  class StepTable {
    var rows: Table
    var safeUpdate: map<Id, (bool, bool)>

    constructor (rows: Table)
      ensures this.rows == rows
    {
      this.rows, safeUpdate := rows, map[];
    }

    method UpdateMetaSafe()
      modifies this
      ensures rows == Updated(old(rows))
    {
      if forall i | i in rows :: !rows[i].checkSafe {
        NothingFlagged(rows);
        return;
      }
      safeUpdate := map[];
      safeUpdate := SafeUpdateTable(rows);
      rows := map i | i in rows ::
        if i in safeUpdate then rows[i].(safe := safeUpdate[i].0, safeIgnoringHold := safeUpdate[i].1) else rows[i];
      rows := map i | i in rows :: rows[i].(checkSafe := false);
    }
  }

  /** Skipping the statements when no flag is set is the same as running them. */
  lemma NothingFlagged(t: Table)
    requires forall i :: i in t ==> !t[i].checkSafe
    ensures Updated(t) == t
  {
    forall i | i in t ensures !InSafeUpdate(t, i) && Updated(t)[i] == t[i] {
      forall k: nat ensures !HasSeed(t, i, k) {
        if Up(t, i, k).Some? {
          var a: Id := Up(t, i, k).value;
          assert a in t;
        }
      }
    }
  }

  // ---- One step up the chain ----

  /** A step is reached by the seeds that reach its creator, and by itself when flagged. */
  lemma UpdateReaches(t: Table, i: Id)
    requires Forest(t) && i in t
    ensures InSafeUpdate(t, i) <==>
              t[i].checkSafe || (CreatorStep(t, i).Some? && InSafeUpdate(t, CreatorStep(t, i).value))
  {
    if k: nat :| k <= |t| && HasSeed(t, i, k) {
      if k > 0 {
        UpOfCreator(t, i, k - 1);
        assert HasSeed(t, CreatorStep(t, i).value, k - 1);
      }
    }
    if t[i].checkSafe { assert HasSeed(t, i, 0); }
    if CreatorStep(t, i).Some? && InSafeUpdate(t, CreatorStep(t, i).value) {
      var k: nat :| k <= |t| && HasSeed(t, CreatorStep(t, i).value, k);
      UpOfCreator(t, i, k);
      ChainBound(t, i, k + 1);
      assert HasSeed(t, i, k + 1);
    }
  }

  lemma RowStep(t: Table, i: Id, c: Id, k: nat, hold: bool)
    requires Forest(t) && i in t && CreatorStep(t, i) == Some(c)
    ensures HasSeed(t, i, k + 1) <==> HasSeed(t, c, k)
    ensures HasSeed(t, c, k) ==>
              k < |t| && TraceRow(t, i, k + 1, hold).0 == (TraceRow(t, c, k, hold).0 && Unbroken(t, c, hold))
  {
    UpOfCreator(t, i, k);
    if HasSeed(t, c, k) { ChainBound(t, i, k + 1); }
  }

  /** MIN over the rows of a step is the step's own seed row and what its creator passes on. */
  lemma MinSafeStep(t: Table, i: Id, hold: bool)
    requires Forest(t) && i in t
    ensures MinSafe(t, i, hold) <==>
              && (t[i].checkSafe ==> SeedSafe(t, i, hold))
              && (CreatorStep(t, i).Some? && InSafeUpdate(t, CreatorStep(t, i).value) ==>
                    MinSafe(t, CreatorStep(t, i).value, hold) && Unbroken(t, CreatorStep(t, i).value, hold))
  {
    assert t[i].checkSafe <==> HasSeed(t, i, 0);
    match CreatorStep(t, i)
    case None =>
      forall k: nat | k > 0 ensures !HasSeed(t, i, k) { UpOfCreator(t, i, k - 1); }
    case Some(c) =>
      if MinSafe(t, i, hold) && InSafeUpdate(t, c) {
        forall k: nat | k <= |t| && HasSeed(t, c, k)
          ensures TraceRow(t, c, k, hold).0 && Unbroken(t, c, hold)
        {
          RowStep(t, i, c, k, hold);
        }
      }
      if !MinSafe(t, i, hold) {
        var k: nat :| k <= |t| && HasSeed(t, i, k) && !TraceRow(t, i, k, hold).0;
        if k > 0 { RowStep(t, i, c, k - 1, hold); }
      }
  }

  lemma UnbrokenStep(t: Table, i: Id, hold: bool)
    requires i in t
    ensures AllCreatorsUnbroken(t, i, hold) <==>
              match CreatorStep(t, i)
              case None => true
              case Some(c) => Unbroken(t, c, hold) && AllCreatorsUnbroken(t, c, hold)
  {
    match CreatorStep(t, i)
    case None =>
      forall k: nat | k >= 1 ensures Up(t, i, k) == None { UpOfCreator(t, i, k - 1); }
    case Some(c) =>
      if AllCreatorsUnbroken(t, i, hold) {
        UpOfCreator(t, i, 0);
        forall k: nat | Up(t, c, k).Some? ensures Unbroken(t, Up(t, c, k).value, hold) {
          UpOfCreator(t, i, k);
        }
        assert Up(t, c, 0) == Some(c);
      } else {
        var k: nat :| k >= 1 && Up(t, i, k).Some? && !Unbroken(t, Up(t, i, k).value, hold);
        UpOfCreator(t, i, k - 1);
      }
  }

  // ---- Never too safe ----

  /** Neither the step nor its creator is flagged. */
  predicate Unflagged(t: Table, i: Id)
    requires i in t
  {
    !t[i].checkSafe && (CreatorStep(t, i).Some? ==> !t[CreatorStep(t, i).value].checkSafe)
  }

  /**
   * A row outside the reach of a flag is not more permissive than its creator's row allows.
   * It may be less permissive; see `StaleZeroSurvivesMin`.
   */
  ghost predicate NeverTooHigh(t: Table) {
    forall i, hold :: i in t && Unflagged(t, i) && Stored(t, i, hold) ==> SeedSafe(t, i, hold)
  }

  lemma UpdatedRow(t: Table, i: Id, hold: bool)
    requires i in t
    ensures Updated(t).Keys == t.Keys && CreatorStep(Updated(t), i) == CreatorStep(t, i)
    ensures Unbroken(Updated(t), i, hold) == Unbroken(t, i, hold) && !Updated(t)[i].checkSafe
    ensures Stored(Updated(t), i, hold) == if InSafeUpdate(t, i) then MinSafe(t, i, hold) else Stored(t, i, hold)
  {
  }

  lemma UpdatedStoredImpliesLocal(t: Table, i: Id, hold: bool)
    requires Forest(t) && NeverTooHigh(t) && i in t && Stored(Updated(t), i, hold)
    ensures SeedSafe(Updated(t), i, hold)
  {
    UpdatedRow(t, i, hold);
    UpdateReaches(t, i);
    if CreatorStep(t, i).Some? {
      UpdatedRow(t, CreatorStep(t, i).value, hold);
      UpdateReaches(t, CreatorStep(t, i).value);
      MinSafeStep(t, i, hold);
    }
  }

  lemma UpdateKeepsForest(t: Table)
    requires Forest(t)
    ensures Forest(Updated(t))
  {
    var rank :| Ranked(t, rank);
    forall i | i in t ensures CreatorStep(Updated(t), i) == CreatorStep(t, i) { UpdatedRow(t, i, true); }
    assert Ranked(Updated(t), rank);
  }

  lemma UpdateKeepsNeverTooHigh(t: Table)
    requires Forest(t) && NeverTooHigh(t)
    ensures NeverTooHigh(Updated(t))
  {
    forall i, hold | i in t && Stored(Updated(t), i, hold) ensures SeedSafe(Updated(t), i, hold) {
      UpdatedStoredImpliesLocal(t, i, hold);
    }
  }

  /** When a stored value implies its local formula everywhere, it implies the whole chain. */
  lemma {:induction false} LocalImpliesChain(t: Table, rank: map<Id, nat>, i: Id, hold: bool)
    requires Ranked(t, rank) && i in t && Stored(t, i, hold)
    requires forall j :: j in t && Stored(t, j, hold) ==> SeedSafe(t, j, hold)
    ensures AllCreatorsUnbroken(t, i, hold)
    decreases rank[i]
  {
    UnbrokenStep(t, i, hold);
    if CreatorStep(t, i).Some? {
      LocalImpliesChain(t, rank, CreatorStep(t, i).value, hold);
    }
  }

  /** After an update no step is marked safer than its creator chain allows. */
  lemma NeverTooSafe(t: Table, i: Id, hold: bool)
    requires Forest(t) && NeverTooHigh(t) && i in t && Stored(Updated(t), i, hold)
    ensures AllCreatorsUnbroken(t, i, hold)
  {
    UpdateKeepsForest(t);
    var u := Updated(t);
    var rank :| Ranked(u, rank);
    forall j | j in u && Stored(u, j, hold) ensures SeedSafe(u, j, hold) {
      UpdatedStoredImpliesLocal(t, j, hold);
    }
    LocalImpliesChain(u, rank, i, hold);
    forall j | j in t ensures CreatorStep(u, j) == CreatorStep(t, j) && Unbroken(u, j, hold) == Unbroken(t, j, hold) {
      UpdatedRow(t, j, hold);
    }
    SameChain(t, u, i, hold);
  }

  lemma SameChain(t: Table, u: Table, i: Id, hold: bool)
    requires t.Keys == u.Keys && i in t
    requires forall j :: j in t ==>
               CreatorStep(u, j) == CreatorStep(t, j) && Unbroken(u, j, hold) == Unbroken(t, j, hold)
    ensures AllCreatorsUnbroken(u, i, hold) == AllCreatorsUnbroken(t, i, hold)
  {
    forall k: nat ensures Up(u, i, k) == Up(t, i, k) { SameUp(t, u, i, k); }
  }

  lemma {:induction false} SameUp(t: Table, u: Table, i: Id, k: nat)
    requires t.Keys == u.Keys && i in t
    requires forall j :: j in t ==> CreatorStep(u, j) == CreatorStep(t, j)
    ensures Up(u, i, k) == Up(t, i, k)
  {
    if k > 0 { SameUp(t, u, i, k - 1); }
  }

  /** The states that let products be queued; the second column does not mind that a creator holds. */
  ghost predicate CreatorsRun(t: Table, i: Id, mayHold: bool) {
    forall p, k :: CreatorPath(t, p) && p[0] == i && 1 <= k < |p| ==>
      (t[p[k]].state == Running || t[p[k]].state == Succeeded) && (mayHold || t[p[k]].holding == 0)
  }

  lemma UnbrokenMeansRun(t: Table, i: Id)
    requires i in t
    ensures AllCreatorsUnbroken(t, i, true) <==> CreatorsRun(t, i, false)
    ensures AllCreatorsUnbroken(t, i, false) <==> CreatorsRun(t, i, true)
  {
    forall p, k: nat | CreatorPath(t, p) && p[0] == i && 1 <= k < |p| ensures Up(t, i, k) == Some(p[k]) {
      PathUp(t, p, k);
    }
    forall k: nat | k >= 1 && Up(t, i, k).Some?
      ensures CreatorsRun(t, i, false) ==> Unbroken(t, Up(t, i, k).value, true)
      ensures CreatorsRun(t, i, true) ==> Unbroken(t, Up(t, i, k).value, false)
    {
      var p := UpPath(t, i, k);
    }
  }

  // ---- Exactness ----

  /** Stored values satisfy the local formula wherever neither a step nor its creator is flagged. */
  ghost predicate Consistent(t: Table) {
    forall i, hold :: i in t && Unflagged(t, i) ==> Stored(t, i, hold) == SeedSafe(t, i, hold)
  }

  predicate BelowFlag(t: Table, i: Id)
    requires i in t
  {
    CreatorStep(t, i).Some? && InSafeUpdate(t, CreatorStep(t, i).value)
  }

  /**
   * No flagged step that sits below another flagged one reads a stale zero:
   * when its whole creator chain is unbroken, its creator's stored column says so.
   */
  ghost predicate NoStaleZero(t: Table, hold: bool) {
    forall i :: i in t && t[i].checkSafe && BelowFlag(t, i) && AllCreatorsUnbroken(t, i, hold)
      ==> Stored(t, CreatorStep(t, i).value, hold)
  }

  ghost predicate Exact(t: Table, u: Table, hold: bool)
    requires t.Keys == u.Keys
  {
    forall i :: i in t ==> (Stored(u, i, hold) <==> AllCreatorsUnbroken(t, i, hold))
  }

  lemma {:induction false} UpdatedIsExact(t: Table, rank: map<Id, nat>, i: Id, hold: bool)
    requires Ranked(t, rank) && Consistent(t) && NoStaleZero(t, hold) && i in t
    ensures Stored(Updated(t), i, hold) <==> AllCreatorsUnbroken(t, i, hold)
    decreases rank[i]
  {
    assert Forest(t) && NeverTooHigh(t);
    if Stored(Updated(t), i, hold) {
      NeverTooSafe(t, i, hold);
    } else if AllCreatorsUnbroken(t, i, hold) {
      UnbrokenStep(t, i, hold);
      UpdatedRow(t, i, hold);
      UpdateReaches(t, i);
      MinSafeStep(t, i, hold);
      if CreatorStep(t, i).Some? {
        var c := CreatorStep(t, i).value;
        UpdatedIsExact(t, rank, c, hold);
        UpdatedRow(t, c, hold);
        UpdateReaches(t, c);
      }
    }
  }

  /** The update is exact if and only if no flagged step reads a stale zero. */
  lemma ExactIffNoStaleZero(t: Table, hold: bool)
    requires Forest(t) && Consistent(t)
    ensures Exact(t, Updated(t), hold) <==> NoStaleZero(t, hold)
  {
    var rank :| Ranked(t, rank);
    if NoStaleZero(t, hold) {
      forall i | i in t ensures Stored(Updated(t), i, hold) <==> AllCreatorsUnbroken(t, i, hold) {
        UpdatedIsExact(t, rank, i, hold);
      }
    }
    if Exact(t, Updated(t), hold) {
      forall i | i in t && t[i].checkSafe && BelowFlag(t, i) && AllCreatorsUnbroken(t, i, hold)
        ensures Stored(t, CreatorStep(t, i).value, hold)
      {
        UpdatedRow(t, i, hold);
        UpdateReaches(t, i);
        MinSafeStep(t, i, hold);
      }
    }
  }

  /** An exact update leaves a table that is consistent again, with no flags left. */
  lemma ExactRestoresConsistency(t: Table)
    requires Forest(t) && Exact(t, Updated(t), true) && Exact(t, Updated(t), false)
    ensures Consistent(Updated(t)) && forall i :: i in t ==> !Updated(t)[i].checkSafe
  {
    var u := Updated(t);
    forall i, hold | i in t ensures Stored(u, i, hold) == SeedSafe(u, i, hold) {
      UpdatedRow(t, i, hold);
      UnbrokenStep(t, i, hold);
      if CreatorStep(t, i).Some? { UpdatedRow(t, CreatorStep(t, i).value, hold); }
    }
  }

  /** The schema's `CHECK (_safe_ignoring_hold >= _safe)` survives every update. */
  lemma UpdateKeepsCheck(t: Table, i: Id)
    requires Forest(t) && i in t
    requires forall j :: j in t && t[j].safe ==> t[j].safeIgnoringHold
    ensures Updated(t)[i].safe ==> Updated(t)[i].safeIgnoringHold
  {
    forall k: nat | Up(t, i, k).Some? ensures TraceRow(t, i, k, true).0 ==> TraceRow(t, i, k, false).0 {
      RowOrder(t, i, k);
    }
  }

  lemma {:induction false} RowOrder(t: Table, i: Id, k: nat)
    requires i in t && Up(t, i, k).Some?
    requires forall j :: j in t && t[j].safe ==> t[j].safeIgnoringHold
    ensures TraceRow(t, i, k, true).0 ==> TraceRow(t, i, k, false).0
    ensures TraceRow(t, i, k, true).1 ==> TraceRow(t, i, k, false).1
    decreases k
  {
    if k > 0 {
      UpOfCreator(t, i, k - 1);
      RowOrder(t, CreatorStep(t, i).value, k - 1);
    }
  }
}
