/**
 * scheduler.py, job.py and executor.py: choosing the next step, deriving its job,
 * and the step-state transitions of the executor that close the cycle.
 */
module Dispatch {
  import opened Basics
  import opened Bytewise
  import opened Enums

  type Id = int
  type JobId = int

  // ---- Inputs of a step ----

  datatype Input = Input(path: string, detached: bool, state: FileState, dynamic: bool)

  predicate Unavailable(inp: Input) {
    UnavailableInput(inp.state, inp.detached, inp.dynamic)
  }

  predicate Usable(inp: Input) {
    !inp.detached && inp.state in {Built, Confirmed}
  }

  datatype Scan = ConsistencyError | Scanned(hashed: set<string>, dynamicReady: bool)

  /**
   * The loop of `_derive_job`. Its sanity checks fire exactly on the inputs that dispatch calls
   * unavailable, so a step whose `_ready` column is right never trips them.
   */
  method ScanInputs(inputs: seq<Input>) returns (scan: Scan)
    ensures scan.ConsistencyError? <==> exists k :: 0 <= k < |inputs| && Unavailable(inputs[k])
    ensures scan.Scanned? ==>
              && scan.hashed == (set k | 0 <= k < |inputs| && !inputs[k].detached
                                         && (inputs[k].state == Built || inputs[k].state == Confirmed) :: inputs[k].path)
              && (scan.dynamicReady <==> forall k :: 0 <= k < |inputs| ==>
                    !inputs[k].detached && (inputs[k].state == Built || inputs[k].state == Confirmed))
              && (!scan.dynamicReady ==> exists k :: 0 <= k < |inputs| && inputs[k].dynamic && !Usable(inputs[k]))
  {
    var hashed: set<string>, dynamicReady := {}, true;
    for n := 0 to |inputs|
      invariant forall k :: 0 <= k < n ==> !Unavailable(inputs[k])
      invariant hashed == (set k | 0 <= k < n && Usable(inputs[k]) :: inputs[k].path)
      invariant dynamicReady <==> forall k :: 0 <= k < n ==> Usable(inputs[k])
    {
      var inp := inputs[n];
      if inp.state == Volatile {
        return ConsistencyError;
      }
      if !inp.detached && inp.state in {Built, Confirmed} {
        hashed := hashed + {inp.path};
      } else {
        if inp.dynamic {
          if !inp.detached && inp.state in {Planned, Outdated} {
            return ConsistencyError;
          }
        } else {
          return ConsistencyError;
        }
        dynamicReady := false;
      }
    }
    scan := Scanned(hashed, dynamicReady);
  }

  // ---- The tables ----

  datatype StepRow = StepRow(
    state: StepState,
    hasHash: bool,
    deferred: bool,
    safe: bool,
    safeIgnoringHold: bool,
    ready: bool,
    detached: bool,
    impliedNeed: int,
    tailTime: real,
    deferCount: nat,
    resources: map<Bytes, nat>)

  datatype JobKind = Execute | TrySkip | ValidateDynamic

  /** A job that was created and is not retired; `settled` once it has moved its step to a final state. */
  datatype Job = Job(step: Id, kind: JobKind, settled: bool)

  datatype System = System(
    steps: map<Id, StepRow>,
    available: map<Bytes, nat>,
    threshold: int,
    jobs: map<JobId, Job>,
    counter: nat,
    deferCap: nat,
    draining: bool)

  function InState(s: System, state: StepState): set<Id> {
    set i | i in s.steps && s.steps[i].state == state
  }

  // ---- Sums over a set of steps ----

  predicate IsMin(m: Id, ids: set<Id>) { m in ids && forall x :: x in ids ==> m <= x }

  lemma {:induction false} MinExists(ids: set<Id>) returns (m: Id)
    requires ids != {}
    ensures IsMin(m, ids)
  {
    var x := Member(ids);
    m := x;
    if ids - {x} == {} {
      assert ids == {x};
    } else {
      var r := MinExists(ids - {x});
      m := if r < x then r else x;
      forall y | y in ids ensures m <= y { assert y == x || y in ids - {x}; }
    }
  }

  function Min(ids: set<Id>): (m: Id)
    requires ids != {}
    ensures IsMin(m, ids)
  {
    assert exists m :: IsMin(m, ids) by { var w := MinExists(ids); }
    var m :| IsMin(m, ids);
    m
  }

  function Units(steps: map<Id, StepRow>, i: Id, name: Bytes): nat {
    if i in steps && name in steps[i].resources then steps[i].resources[name] else 0
  }

  /** `SUM(units)` over the given steps. */
  function SumUnits(steps: map<Id, StepRow>, ids: set<Id>, name: Bytes): nat {
    if ids == {} then 0
    else Units(steps, Min(ids), name) + SumUnits(steps, ids - {Min(ids)}, name)
  }

  lemma {:induction false} SumRemove(steps: map<Id, StepRow>, ids: set<Id>, i: Id, name: Bytes)
    requires i in ids
    ensures SumUnits(steps, ids, name) == Units(steps, i, name) + SumUnits(steps, ids - {i}, name)
  {
    var m := Min(ids);
    if i != m {
      SumRemove(steps, ids - {m}, i, name);
      SumRemove(steps, ids - {i}, m, name);
      assert ids - {m} - {i} == ids - {i} - {m};
    }
  }

  lemma {:induction false} SumSame(a: map<Id, StepRow>, b: map<Id, StepRow>, ids: set<Id>, name: Bytes)
    requires forall i :: i in ids ==> Units(a, i, name) == Units(b, i, name)
    ensures SumUnits(a, ids, name) == SumUnits(b, ids, name)
  {
    if ids != {} {
      SumSame(a, b, ids - {Min(ids)}, name);
    }
  }

  lemma {:induction false} SumMonotone(steps: map<Id, StepRow>, small: set<Id>, big: set<Id>, name: Bytes)
    requires small <= big
    ensures SumUnits(steps, small, name) <= SumUnits(steps, big, name)
    decreases big
  {
    if big != {} {
      var m := Min(big);
      if m in small { SumRemove(steps, small, m, name); } else { assert small - {m} == small; }
      SumMonotone(steps, small - {m}, big - {m}, name);
    }
  }

  function UnitsRunning(s: System, name: Bytes): nat {
    SumUnits(s.steps, InState(s, Running), name)
  }

  function UnitsAvailable(s: System, name: Bytes): nat {
    if name in s.available then s.available[name] else 0
  }

  // ---- SELECT_NEXT_STEP ----

  predicate ResourceUnavailable(s: System, i: Id)
    requires i in s.steps
  {
    exists name | name in s.steps[i].resources ::
      name !in s.available || s.available[name] - UnitsRunning(s, name) < s.steps[i].resources[name]
  }

  predicate Eligible(s: System, i: Id) {
    i in s.steps &&
    var r := s.steps[i];
    && r.state == Pending
    && (r.safe || (r.hasHash && r.safeIgnoringHold))
    && !r.deferred
    && r.impliedNeed > OPTIONAL
    && r.ready
    && r.impliedNeed > s.threshold
    && !r.detached
    && (r.hasHash || !ResourceUnavailable(s, i))
  }

  function Priority(r: StepRow): real { r.tailTime / (1 + r.deferCount) as real }

  /** The ORDER BY of the query, with the tie-break of the index. */
  predicate Precedes(s: System, i: Id, j: Id)
    requires i in s.steps && j in s.steps
  {
    var a, b := s.steps[i], s.steps[j];
    if a.hasHash != b.hasHash then a.hasHash
    else if (a.impliedNeed == PLAN) != (b.impliedNeed == PLAN) then a.impliedNeed == PLAN
    else if Priority(a) != Priority(b) then Priority(a) > Priority(b)
    else i < j
  }

  predicate IsFirst(s: System, i: Id, ids: set<Id>)
    requires ids <= s.steps.Keys
  {
    i in ids && forall j :: j in ids ==> j == i || Precedes(s, i, j)
  }

  lemma {:induction false} FirstExists(s: System, ids: set<Id>) returns (i: Id)
    requires ids <= s.steps.Keys && ids != {}
    ensures IsFirst(s, i, ids)
  {
    var x := Member(ids);
    i := x;
    if ids - {x} == {} {
      assert ids == {x};
    } else {
      var r := FirstExists(s, ids - {x});
      i := if Precedes(s, x, r) then x else r;
      forall j | j in ids ensures j == i || Precedes(s, i, j) { assert j == x || j in ids - {x}; }
    }
  }

  function First(s: System, ids: set<Id>): (i: Id)
    requires ids <= s.steps.Keys && ids != {}
    ensures IsFirst(s, i, ids)
  {
    assert exists i :: IsFirst(s, i, ids) by { var w := FirstExists(s, ids); }
    var i :| IsFirst(s, i, ids);
    i
  }

  function EligibleSteps(s: System): set<Id> { set i | i in s.steps && Eligible(s, i) }

  function NextStep(s: System): Option<Id> {
    if s.draining || EligibleSteps(s) == {} then None else Some(First(s, EligibleSteps(s)))
  }

  /**
   * A step that can be checked goes before every step that has to run; among equals PLAN steps go first, then
   * the larger tail time, counting less for each deferral, then the smaller id.
   */
  lemma NextStepPriority(s: System, j: Id)
    requires NextStep(s).Some? && Eligible(s, j) && j != NextStep(s).value
    ensures
      var i := NextStep(s).value;
      i in s.steps &&
      var a, b := s.steps[i], s.steps[j];
      var x, y := a.tailTime / (1 + a.deferCount) as real, b.tailTime / (1 + b.deferCount) as real;
      && (b.hasHash ==> a.hasHash)
      && (a.hasHash == b.hasHash && b.impliedNeed == PLAN ==> a.impliedNeed == PLAN)
      && (a.hasHash == b.hasHash && (a.impliedNeed == PLAN) == (b.impliedNeed == PLAN) ==> x > y || (x == y && i < j))
  {
    assert j in EligibleSteps(s);
  }

  // ---- Transitions ----

  datatype Outcome =
    | Success
    | Failure
    | WantsDefer(unavailable: bool)  // dynamic inputs are unavailable, or merely unfresh
    | Reset       // `_reset_step_to_pending`: the hash no longer holds, the step must run
    | StillValid  // dynamic info still holds, wait for new inputs

  datatype Event =
    | Pop(dynamicReady: bool)
    | Settle(job: JobId, outcome: Outcome)
    | Complete(job: JobId)
    | MarkPending(i: Id)
    | Define(i: Id, row: StepRow)
    | Detach(i: Id)
    | Recycle(i: Id, resources: map<Bytes, nat>)  // a detached step is declared again, identically
    | Redefine(i: Id, row: StepRow)                // a detached step is declared again, differently
    | LoseHash(i: Id)                              // a product was lost, or a glob has new matches
    | UpdateMeta(i: Id, row: StepRow)
    | Drain

  predicate OutcomeOf(kind: JobKind, outcome: Outcome) {
    match kind
    case Execute => outcome.Success? || outcome.Failure? || outcome.WantsDefer?
    case TrySkip => outcome.Success? || outcome.Failure? || outcome.Reset?
    case ValidateDynamic => outcome.StillValid? || outcome.Failure? || outcome.Reset?
  }

  /**
   * The row that `mark_completed`, `_reset_step_to_pending` or `set_state` leaves behind. A step that wants to
   * be deferred more often than the cap allows fails.
   */
  function SettledRow(r: StepRow, outcome: Outcome, deferCap: nat): StepRow {
    match outcome
    case Success => r.(state := Succeeded, hasHash := true, deferred := false, deferCount := 0)
    case Failure => r.(state := Failed, hasHash := false, deferred := false)
    case WantsDefer(unavailable) =>
      var counted := r.(hasHash := false, deferCount := r.deferCount + 1);
      if counted.deferCount <= deferCap then counted.(state := Pending, deferred := unavailable)
      else counted.(state := Failed, deferred := false)
    case Reset => r.(state := Pending, hasHash := false, deferred := false)
    case StillValid => r.(state := Pending, deferred := false)
  }

  /** `after_recycle` keeps every state but FAILED, and replaces the resources whatever the state. */
  function RecycledRow(r: StepRow, resources: map<Bytes, nat>): StepRow {
    var kept := r.(detached := false, resources := resources);
    if r.state == Failed then kept.(state := Pending, deferred := false) else kept
  }

  /** A row as `initialize_row` inserts it. */
  predicate Fresh(r: StepRow) {
    r.state == Pending && !r.deferred && r.deferCount == 0 && !r.detached
  }

  /** The metadata updates write the columns of safety, readiness, need and tail time. */
  predicate SameBesidesMeta(a: StepRow, b: StepRow) {
    && b.state == a.state && b.hasHash == a.hasHash && b.deferred == a.deferred && b.detached == a.detached
    && b.deferCount == a.deferCount && b.resources == a.resources
  }

  predicate Enabled(s: System, e: Event) {
    match e
    case Pop(_) => true
    case Settle(j, outcome) =>
      j in s.jobs && !s.jobs[j].settled && s.jobs[j].step in s.steps && OutcomeOf(s.jobs[j].kind, outcome)
    case Complete(j) => j in s.jobs && s.jobs[j].settled
    case MarkPending(i) => i in s.steps
    case Define(i, row) => i !in s.steps && Fresh(row) && !row.hasHash
    case Detach(i) => i in s.steps
    case Recycle(i, _) => i in s.steps && s.steps[i].detached
    case Redefine(i, row) =>
      i in s.steps && s.steps[i].detached && Fresh(row) && row.hasHash == s.steps[i].hasHash
    case LoseHash(i) => i in s.steps
    case UpdateMeta(i, row) => i in s.steps && SameBesidesMeta(s.steps[i], row)
    case Drain => true
  }

  function Apply(s: System, e: Event): System
    requires Enabled(s, e)
  {
    match e
    case Pop(dynamicReady) =>
      (match NextStep(s)
       case None => s
       case Some(i) =>
         var r := s.steps[i];
         var kind := if !r.hasHash then Execute else if dynamicReady then TrySkip else ValidateDynamic;
         s.(steps := s.steps[i := r.(state := if r.hasHash then Checking else Running, deferred := false)],
            counter := s.counter + 1,
            jobs := s.jobs[s.counter + 1 := Job(i, kind, false)]))
    case Settle(j, outcome) =>
      var i := s.jobs[j].step;
      s.(steps := s.steps[i := SettledRow(s.steps[i], outcome, s.deferCap)],
         jobs := s.jobs[j := s.jobs[j].(settled := true)])
    case Complete(j) => s.(jobs := s.jobs - {j})
    case MarkPending(i) =>
      if s.steps[i].state in {Running, Checking} then s
      else s.(steps := s.steps[i := s.steps[i].(state := Pending, deferred := false)])
    case Define(i, row) => s.(steps := s.steps[i := row])
    case Detach(i) => s.(steps := s.steps[i := s.steps[i].(detached := true)])
    case Recycle(i, resources) => s.(steps := s.steps[i := RecycledRow(s.steps[i], resources)])
    case Redefine(i, row) => s.(steps := s.steps[i := row])
    case LoseHash(i) => s.(steps := s.steps[i := s.steps[i].(hasHash := false)])
    case UpdateMeta(i, row) => s.(steps := s.steps[i := row])
    case Drain => s.(draining := true)
  }

  // ---- What every run keeps ----

  /** For every resource the RUNNING steps hold no more than is available. */
  ghost predicate WithinCapacity(s: System) {
    forall name :: UnitsRunning(s, name) <= UnitsAvailable(s, name)
  }

  predicate Busy(s: System, i: Id) {
    i in s.steps && s.steps[i].state in {Running, Checking}
  }

  /** Open jobs and busy steps correspond one to one, RUNNING steps to the jobs that execute a command. */
  ghost predicate JobsMatchStates(s: System) {
    && (forall j :: j in s.jobs ==> j <= s.counter)
    && (forall j :: j in s.jobs && !s.jobs[j].settled ==>
          && s.jobs[j].step in s.steps
          && (s.steps[s.jobs[j].step].state == if s.jobs[j].kind.Execute? then Running else Checking))
    && (forall j, k :: j in s.jobs && k in s.jobs && !s.jobs[j].settled && !s.jobs[k].settled && j != k
          ==> s.jobs[j].step != s.jobs[k].step)
    && (forall i :: Busy(s, i) ==> exists j :: j in s.jobs && !s.jobs[j].settled && s.jobs[j].step == i)
  }

  /** Writing one row changes the running units by that row only. */
  lemma RunningAfterWrite(s: System, i: Id, row: StepRow, name: Bytes)
    ensures
      var t := s.(steps := s.steps[i := row]);
      UnitsRunning(t, name) ==
        SumUnits(s.steps, InState(s, Running) - {i}, name)
        + if row.state == Running && name in row.resources then row.resources[name] else 0
  {
    var t := s.(steps := s.steps[i := row]);
    assert InState(t, Running) - {i} == InState(s, Running) - {i};
    SumSame(t.steps, s.steps, InState(s, Running) - {i}, name);
    if row.state == Running {
      SumRemove(t.steps, InState(t, Running), i, name);
    } else {
      assert InState(t, Running) - {i} == InState(t, Running);
    }
  }

  /** Writing one row, and nothing else, moves the total by what its step holds after, less what it held before. */
  lemma UnitsAreConserved(s: System, i: Id, row: StepRow, name: Bytes)
    ensures
      var t := s.(steps := s.steps[i := row]);
      var before := if i in s.steps && s.steps[i].state == Running && name in s.steps[i].resources
                    then s.steps[i].resources[name] else 0;
      var after := if row.state == Running && name in row.resources then row.resources[name] else 0;
      UnitsRunning(t, name) == UnitsRunning(s, name) - before + after
  {
    RunningAfterWrite(s, i, row, name);
    if i in InState(s, Running) {
      SumRemove(s.steps, InState(s, Running), i, name);
    } else {
      assert InState(s, Running) - {i} == InState(s, Running);
    }
  }

  /** A write that does not make the step run, and keeps what it holds if it runs, stays within capacity. */
  lemma WriteKeepsCapacity(s: System, i: Id, row: StepRow)
    requires WithinCapacity(s)
    requires row.state == Running ==> i in s.steps && s.steps[i].state == Running && s.steps[i].resources == row.resources
    ensures WithinCapacity(s.(steps := s.steps[i := row]))
  {
    var t := s.(steps := s.steps[i := row]);
    forall name ensures UnitsRunning(t, name) <= UnitsAvailable(t, name) {
      RunningAfterWrite(s, i, row, name);
      assert UnitsRunning(s, name) <= UnitsAvailable(s, name);
      if row.state == Running {
        SumRemove(s.steps, InState(s, Running), i, name);
      } else {
        SumMonotone(s.steps, InState(s, Running) - {i}, InState(s, Running), name);
      }
    }
  }

  /** Dispatching an eligible step without a hash stays within capacity. */
  lemma PopKeepsCapacity(s: System, i: Id, row: StepRow)
    requires WithinCapacity(s) && Eligible(s, i)
    requires row.resources == s.steps[i].resources
    requires row.state == if s.steps[i].hasHash then Checking else Running
    ensures WithinCapacity(s.(steps := s.steps[i := row]))
  {
    var t := s.(steps := s.steps[i := row]);
    forall name ensures UnitsRunning(t, name) <= UnitsAvailable(t, name) {
      RunningAfterWrite(s, i, row, name);
      assert UnitsRunning(s, name) <= UnitsAvailable(s, name);
      assert InState(s, Running) - {i} == InState(s, Running);
    }
  }

  lemma SameStepsSameCapacity(s: System, t: System)
    requires WithinCapacity(s) && t.steps == s.steps && t.available == s.available
    ensures WithinCapacity(t)
  {
    forall name ensures UnitsRunning(t, name) <= UnitsAvailable(t, name) {
      assert UnitsRunning(s, name) <= UnitsAvailable(s, name);
      assert InState(t, Running) == InState(s, Running);
    }
  }

  /** The new resources of a step that runs are still available next to what the other running steps hold. */
  predicate StillFits(s: System, i: Id, resources: map<Bytes, nat>)
    requires i in s.steps
  {
    s.steps[i].state == Running ==>
      forall name | name in resources ::
        UnitsRunning(s, name) - Units(s.steps, i, name) + resources[name] <= UnitsAvailable(s, name)
  }

  lemma RecycleKeepsCapacityIff(s: System, i: Id, resources: map<Bytes, nat>)
    requires WithinCapacity(s) && Enabled(s, Recycle(i, resources))
    ensures WithinCapacity(Apply(s, Recycle(i, resources))) <==> StillFits(s, i, resources)
  {
    var row := RecycledRow(s.steps[i], resources);
    var t := Apply(s, Recycle(i, resources));
    if s.steps[i].state != Running {
      WriteKeepsCapacity(s, i, row);
    } else {
      forall name
        ensures UnitsRunning(t, name) == UnitsRunning(s, name) - Units(s.steps, i, name) + Units(t.steps, i, name)
      {
        RunningAfterWrite(s, i, row, name);
        SumRemove(s.steps, InState(s, Running), i, name);
      }
      if StillFits(s, i, resources) {
        forall name ensures UnitsRunning(t, name) <= UnitsAvailable(t, name) {
          assert UnitsRunning(s, name) <= UnitsAvailable(s, name);
        }
      }
      if WithinCapacity(t) {
        forall name | name in resources
          ensures UnitsRunning(s, name) - Units(s.steps, i, name) + resources[name] <= UnitsAvailable(s, name)
        {
          assert UnitsRunning(t, name) <= UnitsAvailable(t, name);
        }
      }
    }
  }

  /** What keeps the capacity: every event but the recycling of a running step whose new resources do not fit. */
  predicate Fitting(s: System, e: Event)
    requires Enabled(s, e)
  {
    e.Recycle? ==> StillFits(s, e.i, e.resources)
  }

  lemma JobEventKeepsCapacity(s: System, e: Event)
    requires Enabled(s, e) && WithinCapacity(s) && (e.Pop? || e.Settle?)
    ensures WithinCapacity(Apply(s, e))
  {
    var t := Apply(s, e);
    if e.Settle? {
      var i := s.jobs[e.job].step;
      SettledIsIdle(s.steps[i], e.outcome, s.deferCap);
      WriteKeepsCapacity(s, i, SettledRow(s.steps[i], e.outcome, s.deferCap));
      SameStepsSameCapacity(s.(steps := t.steps), t);
    } else if NextStep(s).Some? {
      var i := NextStep(s).value;
      PopKeepsCapacity(s, i, t.steps[i]);
      SameStepsSameCapacity(s.(steps := t.steps), t);
    }
  }

  lemma SettledIsIdle(r: StepRow, outcome: Outcome, deferCap: nat)
    ensures SettledRow(r, outcome, deferCap).state !in {Running, Checking}
  {
  }

  lemma CapacityKeptIff(s: System, e: Event)
    requires Enabled(s, e) && WithinCapacity(s)
    ensures WithinCapacity(Apply(s, e)) <==> Fitting(s, e)
  {
    var t := Apply(s, e);
    match e
    case Pop(_) => JobEventKeepsCapacity(s, e);
    case Settle(j, outcome) => JobEventKeepsCapacity(s, e);
    case Complete(j) => SameStepsSameCapacity(s, t);
    case MarkPending(i) => WriteKeepsCapacity(s, i, s.steps[i].(state := Pending, deferred := false));
    case Define(i, row) => WriteKeepsCapacity(s, i, row);
    case Detach(i) => WriteKeepsCapacity(s, i, s.steps[i].(detached := true));
    case Recycle(i, resources) => RecycleKeepsCapacityIff(s, i, resources);
    case Redefine(i, row) => WriteKeepsCapacity(s, i, row);
    case LoseHash(i) => WriteKeepsCapacity(s, i, s.steps[i].(hasHash := false));
    case UpdateMeta(i, row) => WriteKeepsCapacity(s, i, row);
    case Drain => SameStepsSameCapacity(s, t);
  }

  lemma PopKeepsJobs(s: System, dynamicReady: bool)
    requires JobsMatchStates(s)
    ensures JobsMatchStates(Apply(s, Pop(dynamicReady)))
  {
    if NextStep(s).Some? {
      var i := NextStep(s).value;
      var t := Apply(s, Pop(dynamicReady));
      var n := s.counter + 1;
      assert t.jobs.Keys == s.jobs.Keys + {n};
      forall k | Busy(t, k) ensures exists j :: j in t.jobs && !t.jobs[j].settled && t.jobs[j].step == k {
        if k == i {
          assert t.jobs[n].step == k;
        } else {
          assert Busy(s, k);
          var j :| j in s.jobs && !s.jobs[j].settled && s.jobs[j].step == k;
          assert t.jobs[j] == s.jobs[j];
        }
      }
    }
  }

  lemma SettleKeepsJobs(s: System, j: JobId, outcome: Outcome)
    requires Enabled(s, Settle(j, outcome)) && JobsMatchStates(s)
    ensures JobsMatchStates(Apply(s, Settle(j, outcome)))
  {
    var t := Apply(s, Settle(j, outcome));
    forall k | Busy(t, k) ensures exists m :: m in t.jobs && !t.jobs[m].settled && t.jobs[m].step == k {
      assert Busy(s, k);
      var m :| m in s.jobs && !s.jobs[m].settled && s.jobs[m].step == k;
      assert m != j;
      assert t.jobs[m] == s.jobs[m];
    }
  }

  /** A write that neither starts nor ends a busy state keeps the correspondence. */
  lemma WriteKeepsJobs(s: System, i: Id, row: StepRow)
    requires JobsMatchStates(s)
    requires if Busy(s, i) then row.state == s.steps[i].state else row.state !in {Running, Checking}
    ensures JobsMatchStates(s.(steps := s.steps[i := row]))
  {
    var t := s.(steps := s.steps[i := row]);
    forall k | Busy(t, k) ensures exists m :: m in t.jobs && !t.jobs[m].settled && t.jobs[m].step == k {
      assert Busy(s, k);
    }
  }

  lemma CompleteKeepsJobs(s: System, j: JobId)
    requires Enabled(s, Complete(j)) && JobsMatchStates(s)
    ensures JobsMatchStates(Apply(s, Complete(j)))
  {
    var t := Apply(s, Complete(j));
    forall k | Busy(t, k) ensures exists m :: m in t.jobs && !t.jobs[m].settled && t.jobs[m].step == k {
      assert Busy(s, k);
      var m :| m in s.jobs && !s.jobs[m].settled && s.jobs[m].step == k;
      assert m in t.jobs;
    }
  }

  /** What keeps open jobs and busy states in step: every event but the redefinition of a busy step. */
  predicate Orderly(s: System, e: Event)
    requires Enabled(s, e)
  {
    e.Redefine? ==> !Busy(s, e.i)
  }

  lemma RedefineKeepsJobsIff(s: System, i: Id, row: StepRow)
    requires JobsMatchStates(s) && Enabled(s, Redefine(i, row))
    ensures JobsMatchStates(Apply(s, Redefine(i, row))) <==> !Busy(s, i)
  {
    var t := Apply(s, Redefine(i, row));
    if Busy(s, i) {
      var j :| j in s.jobs && !s.jobs[j].settled && s.jobs[j].step == i;
      assert t.jobs[j].step == i && t.steps[i].state == Pending;
    } else {
      WriteKeepsJobs(s, i, row);
    }
  }

  lemma SameJobsSameStates(s: System, t: System)
    requires JobsMatchStates(s) && t.steps == s.steps && t.jobs == s.jobs && t.counter == s.counter
    ensures JobsMatchStates(t)
  {
    forall k | Busy(t, k) ensures exists m :: m in t.jobs && !t.jobs[m].settled && t.jobs[m].step == k {
      assert Busy(s, k);
    }
  }

  lemma JobsKeptIff(s: System, e: Event)
    requires Enabled(s, e) && JobsMatchStates(s)
    ensures JobsMatchStates(Apply(s, e)) <==> Orderly(s, e)
  {
    match e
    case Pop(dynamicReady) => PopKeepsJobs(s, dynamicReady);
    case Settle(j, outcome) => SettleKeepsJobs(s, j, outcome);
    case Complete(j) => CompleteKeepsJobs(s, j);
    case MarkPending(i) =>
      if !Busy(s, i) { WriteKeepsJobs(s, i, s.steps[i].(state := Pending, deferred := false)); }
    case Define(i, row) => WriteKeepsJobs(s, i, row);
    case Detach(i) => WriteKeepsJobs(s, i, s.steps[i].(detached := true));
    case Recycle(i, resources) => WriteKeepsJobs(s, i, RecycledRow(s.steps[i], resources));
    case Redefine(i, row) => RedefineKeepsJobsIff(s, i, row);
    case LoseHash(i) => WriteKeepsJobs(s, i, s.steps[i].(hasHash := false));
    case UpdateMeta(i, row) => WriteKeepsJobs(s, i, row);
    case Drain => SameJobsSameStates(s, Apply(s, e));
  }

  ghost predicate IsStep(s: System, e: Event, t: System) { Enabled(s, e) && t == Apply(s, e) }

  ghost predicate IsRun(systems: seq<System>, events: seq<Event>) {
    && |systems| == |events| + 1
    && forall n :: 0 <= n < |events| ==> IsStep(systems[n], events[n], systems[n + 1])
  }

  /** A build phase starts with no job and no step RUNNING or CHECKING. */
  ghost predicate Initial(s: System) {
    s.jobs == map[] && forall i :: !Busy(s, i)
  }

  lemma InitialInv(s: System)
    requires Initial(s)
    ensures WithinCapacity(s) && JobsMatchStates(s)
  {
    assert InState(s, Running) == {} by {
      forall i | i in InState(s, Running) ensures false { assert Busy(s, i); }
    }
  }

  ghost predicate FittingUntil(systems: seq<System>, events: seq<Event>, n: nat)
    requires IsRun(systems, events) && n < |systems|
  {
    forall m :: 0 <= m < n ==> IsStep(systems[m], events[m], systems[m + 1]) && Fitting(systems[m], events[m])
  }

  ghost predicate OrderlyUntil(systems: seq<System>, events: seq<Event>, n: nat)
    requires IsRun(systems, events) && n < |systems|
  {
    forall m :: 0 <= m < n ==> IsStep(systems[m], events[m], systems[m + 1]) && Orderly(systems[m], events[m])
  }

  ghost predicate WithinCapacityUntil(systems: seq<System>, n: nat)
    requires n < |systems|
  {
    forall m :: 0 <= m <= n ==> WithinCapacity(systems[m])
  }

  ghost predicate JobsMatchUntil(systems: seq<System>, n: nat)
    requires n < |systems|
  {
    forall m :: 0 <= m <= n ==> JobsMatchStates(systems[m])
  }

  /**
   * No resource is over-committed at any point of a run if and only if no running step was recycled with
   * resources that do not fit.
   */
  lemma {:induction false} CapacityOverRuns(systems: seq<System>, events: seq<Event>, n: nat)
    requires IsRun(systems, events) && Initial(systems[0]) && n < |systems|
    ensures WithinCapacityUntil(systems, n) <==> FittingUntil(systems, events, n)
  {
    if n == 0 {
      InitialInv(systems[0]);
    } else {
      CapacityOverRuns(systems, events, n - 1);
      assert IsStep(systems[n - 1], events[n - 1], systems[n - 1 + 1]);
      assert WithinCapacityUntil(systems, n) <==> WithinCapacityUntil(systems, n - 1) && WithinCapacity(systems[n]);
      if WithinCapacityUntil(systems, n - 1) { CapacityKeptIff(systems[n - 1], events[n - 1]); }
    }
  }

  /** Open jobs and busy states stay in step over a run if and only if no busy step was redefined. */
  lemma {:induction false} JobsOverRuns(systems: seq<System>, events: seq<Event>, n: nat)
    requires IsRun(systems, events) && Initial(systems[0]) && n < |systems|
    ensures JobsMatchUntil(systems, n) <==> OrderlyUntil(systems, events, n)
  {
    if n == 0 {
      InitialInv(systems[0]);
    } else {
      JobsOverRuns(systems, events, n - 1);
      assert IsStep(systems[n - 1], events[n - 1], systems[n - 1 + 1]);
      assert JobsMatchUntil(systems, n) <==> JobsMatchUntil(systems, n - 1) && JobsMatchStates(systems[n]);
      if JobsMatchUntil(systems, n - 1) { JobsKeptIff(systems[n - 1], events[n - 1]); }
    }
  }

  /** Within capacity, a resource that is not defined is held by no running step. */
  lemma UndefinedIsNotHeld(s: System, i: Id, name: Bytes)
    requires WithinCapacity(s) && name !in s.available && i in InState(s, Running)
    ensures Units(s.steps, i, name) == 0
  {
    assert UnitsRunning(s, name) <= UnitsAvailable(s, name);
    SumRemove(s.steps, InState(s, Running), i, name);
  }

  /**
   * In a run that redefined no busy step, a dispatched step was PENDING with no open job, so that no step
   * is handed out twice; and it is put in RUNNING exactly when its job executes the command.
   */
  lemma DispatchedOnce(systems: seq<System>, events: seq<Event>, n: nat)
    requires IsRun(systems, events) && Initial(systems[0]) && n < |events|
    requires OrderlyUntil(systems, events, n)
    requires events[n].Pop? && NextStep(systems[n]).Some?
    ensures
      var s, t, i := systems[n], systems[n + 1], NextStep(systems[n]).value;
      && (forall j :: j in s.jobs && s.jobs[j].step == i ==> s.jobs[j].settled)
      && s.counter + 1 !in s.jobs && s.counter + 1 in t.jobs
      && t.jobs[s.counter + 1].step == i
      && s.steps[i].state == Pending
      && t.steps[i].state == (if t.jobs[s.counter + 1].kind.Execute? then Running else Checking)
  {
    JobsOverRuns(systems, events, n);
    assert JobsMatchStates(systems[n]);
    assert IsStep(systems[n], events[n], systems[n + 1]);
    assert Eligible(systems[n], NextStep(systems[n]).value);
  }

  // ---- Runs of the code that leave the invariant ----

  /** A build phase with one step, which dispatch will run. */
  ghost predicate OneRunnable(s: System, i: Id) {
    && Initial(s) && !s.draining && s.steps.Keys == {i} && Eligible(s, i)
    && !s.steps[i].hasHash && s.steps[i].deferCount == 0
  }

  lemma OnlyStepIsNext(s: System, i: Id)
    requires s.steps.Keys == {i} && Eligible(s, i) && !s.draining
    ensures NextStep(s) == Some(i)
  {
    assert EligibleSteps(s) == {i};
  }

  /** The step after it was handed out and its creator failed. */
  function RunningDetached(s: System, i: Id): System
    requires i in s.steps
  {
    s.(steps := s.steps[i := s.steps[i].(state := Running, deferred := false, detached := true)],
       counter := s.counter + 1, jobs := s.jobs[s.counter + 1 := Job(i, Execute, false)])
  }

  lemma RunsThenDetached(s: System, i: Id)
    requires OneRunnable(s, i)
    ensures Apply(Apply(s, Pop(true)), Detach(i)) == RunningDetached(s, i)
  {
    OnlyStepIsNext(s, i);
  }

  /** Nothing runs when the only step is pending. */
  lemma PendingAloneIsEligible(s: System, t: System, i: Id)
    requires OneRunnable(s, i) && t.steps == s.steps && t.available == s.available && t.threshold == s.threshold
    ensures Eligible(t, i)
  {
    assert InState(t, Running) == InState(s, Running);
  }

  /**
   * A running step is detached, because the step that created it failed, and declared again differently.
   * Its row is pending again while its first job is open, and it is handed out a second time.
   */
  lemma RedefinedStepIsHandedOutTwice(s: System, i: Id, events: seq<Event>) returns (systems: seq<System>)
    requires OneRunnable(s, i) && events == [Pop(true), Detach(i), Redefine(i, s.steps[i]), Pop(true)]
    ensures IsRun(systems, events) && systems[0] == s
    ensures exists j, k ::
              && j in systems[4].jobs && systems[4].jobs[j] == Job(i, Execute, false)
              && k in systems[4].jobs && systems[4].jobs[k] == Job(i, Execute, false) && j != k
  {
    var first := Apply(s, Pop(true));
    var detached := Apply(first, Detach(i));
    RunsThenDetached(s, i);
    var again := Apply(detached, Redefine(i, s.steps[i]));
    assert again.steps == s.steps;
    PendingAloneIsEligible(s, again, i);
    OnlyStepIsNext(again, i);
    var last := Apply(again, Pop(true));
    systems := [s, first, detached, again, last];
    assert last.jobs[s.counter + 1] == Job(i, Execute, false) && last.jobs[s.counter + 2] == Job(i, Execute, false);
    assert IsStep(s, events[0], first) && IsStep(first, events[1], detached);
    assert IsStep(detached, events[2], again) && IsStep(again, events[3], last);
    assert systems[4] == last && s.counter + 1 != s.counter + 2;
  }

  /** A running step is detached and declared again identically but for more units than there are. */
  lemma RecycledStepOvercommits(s: System, i: Id, resources: map<Bytes, nat>, name: Bytes, events: seq<Event>)
    returns (systems: seq<System>)
    requires OneRunnable(s, i) && name in resources && resources[name] > UnitsAvailable(s, name)
    requires events == [Pop(true), Detach(i), Recycle(i, resources)]
    ensures IsRun(systems, events) && systems[0] == s
    ensures UnitsRunning(systems[3], name) > UnitsAvailable(systems[3], name)
  {
    var first := Apply(s, Pop(true));
    var detached := Apply(first, Detach(i));
    RunsThenDetached(s, i);
    var last := Apply(detached, Recycle(i, resources));
    systems := [s, first, detached, last];
    assert IsStep(s, events[0], first) && IsStep(first, events[1], detached) && IsStep(detached, events[2], last);
    assert InState(last, Running) - {i} == {};
    SumRemove(last.steps, InState(last, Running), i, name);
  }

  // ---- The class ----

  datatype PopResult = NoJob | Inconsistent | Popped(job: JobId, hashed: set<string>)

  class Scheduler {
    var system: System

    constructor (system: System)
      ensures this.system == system
    {
      this.system := system;
    }

    /**
     * scheduler.py `pop_next_job`, after the metadata updates. `inputs` is what SELECT_INPUTS yields for
     * each step. A consistency error leaves the transaction, and with it the state, as it was.
     */
    method PopNextJob(inputs: map<Id, seq<Input>>) returns (r: PopResult)
      requires system.steps.Keys <= inputs.Keys
      modifies this
      ensures r.NoJob? <==> NextStep(old(system)) == None
      ensures r.Inconsistent? <==>
                var next := NextStep(old(system));
                next.Some? && exists k :: 0 <= k < |inputs[next.value]| && Unavailable(inputs[next.value][k])
      ensures !r.Popped? ==> system == old(system)
      ensures r.Popped? ==>
                var ins := inputs[NextStep(old(system)).value];
                && system == Apply(old(system), Pop(forall k :: 0 <= k < |ins| ==> Usable(ins[k])))
                && r.job == system.counter
                && r.hashed == (set k | 0 <= k < |ins| && Usable(ins[k]) :: ins[k].path)
      ensures r.Popped? ==>
                var i := NextStep(old(system)).value;
                var complete := forall k :: 0 <= k < |inputs[i]| ==>
                  !inputs[i][k].detached && (inputs[i][k].state == Built || inputs[i][k].state == Confirmed);
                && r.job == old(system.counter) + 1 && r.job in system.jobs
                && system.jobs[r.job].step == i
                && (system.jobs[r.job].kind == TrySkip <==> old(system).steps[i].hasHash && complete)
                && (system.jobs[r.job].kind == ValidateDynamic <==> old(system).steps[i].hasHash && !complete)
                && (system.steps[i].state == Running <==> system.jobs[r.job].kind == Execute)
    {
      if system.draining {
        return NoJob;
      }
      var candidates := EligibleSteps(system);
      if candidates == {} {
        return NoJob;
      }
      var i := First(system, candidates);
      var scan := ScanInputs(inputs[i]);
      if scan.ConsistencyError? {
        return Inconsistent;
      }
      var row := system.steps[i];
      var jobI := system.counter + 1;
      var kind := if scan.dynamicReady || !row.hasHash then (if row.hasHash then TrySkip else Execute) else ValidateDynamic;
      system := system.(counter := jobI, jobs := system.jobs[jobI := Job(i, kind, false)]);
      var state := if row.hasHash then Checking else Running;
      system := system.(steps := system.steps[i := row.(state := state, deferred := false)]);
      r := Popped(jobI, scan.hashed);
    }

    /** scheduler.py `record_job_completed`. A retired job was settled, so that no busy step loses its job. */
    method RecordJobCompleted(job: JobId)
      requires job in system.jobs && system.jobs[job].settled && JobsMatchStates(system)
      modifies this
      ensures system == Apply(old(system), Complete(job)) && JobsMatchStates(system)
    {
      CompleteKeepsJobs(system, job);
      system := system.(jobs := system.jobs - {job});
    }
  }
}
