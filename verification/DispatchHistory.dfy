/**
 * step.py, executor.py and workflow.py: what the columns of a step tell about the events of a run so far.
 */
module DispatchHistory {
  import opened Basics
  import opened Enums
  import opened Histories
  import opened Dispatch

  /** Row `i` at each point of a run satisfies `flag`. */
  ghost function Flag(systems: seq<System>, i: Id, flag: StepRow -> bool): nat -> bool {
    (n: nat) => n < |systems| && i in systems[n].steps && flag(systems[n].steps[i])
  }

  /** The event settles a job of step `i`. */
  predicate Settles(s: System, e: Event, i: Id, outcome: Outcome) {
    e.Settle? && e.outcome == outcome && e.job in s.jobs && s.jobs[e.job].step == i
  }

  /** The points of a run at which the event has some effect on a step. */
  ghost function Where(systems: seq<System>, events: seq<Event>, effect: (System, Event) -> bool): iset<nat> {
    iset m: nat | m < |events| && m < |systems| && effect(systems[m], events[m])
  }

  lemma {:induction false} StepStays(systems: seq<System>, events: seq<Event>, i: Id, n: nat)
    requires IsRun(systems, events) && i in systems[0].steps && n < |systems|
    ensures i in systems[n].steps && systems[n].deferCap == systems[0].deferCap
  {
    if n > 0 {
      StepStays(systems, events, i, n - 1);
      assert IsStep(systems[n - 1], events[n - 1], systems[n - 1 + 1]);
    }
  }

  // ---- The stored hash ----

  predicate Stores(s: System, e: Event, i: Id) { Settles(s, e, i, Success) }

  predicate Wishes(s: System, e: Event, i: Id) {
    Settles(s, e, i, WantsDefer(false)) || Settles(s, e, i, WantsDefer(true))
  }

  predicate Drops(s: System, e: Event, i: Id) {
    Settles(s, e, i, Failure) || Wishes(s, e, i) || Settles(s, e, i, Reset) || e == LoseHash(i)
  }

  /** What a verdict leaves in the row of its step. */
  lemma SettledTells(r: StepRow, outcome: Outcome, cap: nat)
    ensures
      var u := SettledRow(r, outcome, cap);
      && (u.hasHash <==> outcome.Success? || (outcome.StillValid? && r.hasHash))
      && (u.deferred <==> outcome == WantsDefer(true) && r.deferCount < cap)
      && (u.state == Succeeded <==> outcome.Success?)
      && (u.state == Failed <==> outcome.Failure? || (outcome.WantsDefer? && r.deferCount >= cap))
      && u.detached == r.detached && (u.deferred ==> u.state == Pending)
      && u.deferCount == if outcome.Success? then 0 else r.deferCount + if outcome.WantsDefer? then 1 else 0
  {
  }

  lemma HashSettled(s: System, e: Event, i: Id)
    requires Enabled(s, e) && i in s.steps && e.Settle?
    ensures Apply(s, e).steps[i].hasHash <==> Stores(s, e, i) || (s.steps[i].hasHash && !Drops(s, e, i))
  {
    SettledTells(s.steps[s.jobs[e.job].step], e.outcome, s.deferCap);
  }

  lemma HashStep(s: System, e: Event, i: Id)
    requires Enabled(s, e) && i in s.steps
    ensures Apply(s, e).steps[i].hasHash <==> Stores(s, e, i) || (s.steps[i].hasHash && !Drops(s, e, i))
  {
    if e.Settle? { HashSettled(s, e, i); }
  }

  /**
   * A step has a stored hash if and only if its last verdict was a success and no product was lost, nor a glob
   * match gained, since then: a command that failed, was deferred or was reset is never skipped.
   */
  lemma HashTells(systems: seq<System>, events: seq<Event>, i: Id, n: nat)
    requires IsRun(systems, events) && i in systems[0].steps && n < |systems|
    ensures i in systems[n].steps
    ensures systems[n].steps[i].hasHash <==>
              Since(systems[0].steps[i].hasHash, Where(systems, events, (s, e) => Stores(s, e, i)),
                    Where(systems, events, (s, e) => Drops(s, e, i)), n)
  {
    StepStays(systems, events, i, n);
    var on := Where(systems, events, (s, e) => Stores(s, e, i));
    var off := Where(systems, events, (s, e) => Drops(s, e, i));
    var flag := Flag(systems, i, (r: StepRow) => r.hasHash);
    forall m: nat | m < n ensures Tells(flag, on, off, m) {
      assert IsStep(systems[m], events[m], systems[m + 1]);
      StepStays(systems, events, i, m);
      HashStep(systems[m], events[m], i);
    }
    TellsOverRuns(flag, on, off, n);
  }

  /** A step that is checked instead of run has succeeded before, with nothing since then that drops its hash. */
  lemma CheckedOnlyAfterSuccess(systems: seq<System>, events: seq<Event>, i: Id, n: nat)
    requires IsRun(systems, events) && n < |events| && events[n].Pop? && NextStep(systems[n]) == Some(i)
    requires i in systems[0].steps && !systems[0].steps[i].hasHash
    ensures systems[n + 1].steps[i].state == Checking <==>
              exists m: nat :: m < n && Stores(systems[m], events[m], i)
                && forall k: nat :: m < k < n ==> !Drops(systems[k], events[k], i)
  {
    HashTells(systems, events, i, n);
    assert IsStep(systems[n], events[n], systems[n + 1]);
    var on := Where(systems, events, (s, e) => Stores(s, e, i));
    var off := Where(systems, events, (s, e) => Drops(s, e, i));
    assert forall m: nat :: m < n ==> (m in on <==> Stores(systems[m], events[m], i));
    assert forall m: nat :: m < n ==> (m in off <==> Drops(systems[m], events[m], i));
  }

  // ---- Waiting for inputs ----

  /** The schema allows the note of a deferral on a pending step only. */
  ghost predicate DeferredIsPending(s: System) {
    forall i :: i in s.steps && s.steps[i].deferred ==> s.steps[i].state == Pending
  }

  lemma DeferredSettled(s: System, e: Event)
    requires Enabled(s, e) && DeferredIsPending(s) && e.Settle?
    ensures DeferredIsPending(Apply(s, e))
  {
    var j := s.jobs[e.job].step;
    SettledTells(s.steps[j], e.outcome, s.deferCap);
    assert forall i :: i in s.steps && i != j ==> Apply(s, e).steps[i] == s.steps[i];
  }

  lemma DeferredPopped(s: System, e: Event)
    requires Enabled(s, e) && DeferredIsPending(s) && e.Pop?
    ensures DeferredIsPending(Apply(s, e))
  {
  }

  lemma DeferredStaysPending(s: System, e: Event)
    requires Enabled(s, e) && DeferredIsPending(s)
    ensures DeferredIsPending(Apply(s, e))
  {
    if e.Settle? {
      DeferredSettled(s, e);
    } else if e.Pop? {
      DeferredPopped(s, e);
    }
  }

  predicate Defers(s: System, e: Event, i: Id) {
    Settles(s, e, i, WantsDefer(true)) && i in s.steps && s.steps[i].deferCount < s.deferCap
  }

  predicate Wakes(s: System, e: Event, i: Id) { e == MarkPending(i) || (e.Redefine? && e.i == i) }

  lemma DeferredStep(s: System, e: Event, i: Id)
    requires Enabled(s, e) && i in s.steps && JobsMatchStates(s) && DeferredIsPending(s)
    ensures Apply(s, e).steps[i].deferred <==> Defers(s, e, i) || (s.steps[i].deferred && !Wakes(s, e, i))
  {
    if e.Settle? {
      SettledTells(s.steps[s.jobs[e.job].step], e.outcome, s.deferCap);
    } else if e.Pop? && NextStep(s) == Some(i) {
      assert Eligible(s, i);
    }
  }

  lemma {:induction false} DeferredPendingOverRuns(systems: seq<System>, events: seq<Event>, n: nat)
    requires IsRun(systems, events) && n < |systems| && DeferredIsPending(systems[0])
    ensures DeferredIsPending(systems[n])
  {
    if n > 0 {
      DeferredPendingOverRuns(systems, events, n - 1);
      assert IsStep(systems[n - 1], events[n - 1], systems[n - 1 + 1]);
      DeferredStaysPending(systems[n - 1], events[n - 1]);
    }
  }

  /**
   * A step waits, not to be handed out, from the moment its deferral for unavailable inputs was accepted until
   * it is marked pending or declared anew.
   */
  lemma DeferredTells(systems: seq<System>, events: seq<Event>, i: Id, n: nat)
    requires IsRun(systems, events) && i in systems[0].steps && n < |systems|
    requires Initial(systems[0]) && DeferredIsPending(systems[0]) && OrderlyUntil(systems, events, n)
    ensures i in systems[n].steps
    ensures systems[n].steps[i].deferred <==>
              Since(systems[0].steps[i].deferred, Where(systems, events, (s, e) => Defers(s, e, i)),
                    Where(systems, events, (s, e) => Wakes(s, e, i)), n)
    ensures systems[n].steps[i].deferred ==> NextStep(systems[n]) != Some(i)
  {
    StepStays(systems, events, i, n);
    JobsOverRuns(systems, events, n);
    var on := Where(systems, events, (s, e) => Defers(s, e, i));
    var off := Where(systems, events, (s, e) => Wakes(s, e, i));
    var flag := Flag(systems, i, (r: StepRow) => r.deferred);
    forall m: nat | m < n ensures Tells(flag, on, off, m) {
      assert IsStep(systems[m], events[m], systems[m + 1]);
      StepStays(systems, events, i, m);
      DeferredPendingOverRuns(systems, events, m);
      DeferredStep(systems[m], events[m], i);
    }
    TellsOverRuns(flag, on, off, n);
    if NextStep(systems[n]) == Some(i) { assert Eligible(systems[n], i); }
  }

  // ---- How often a step may be deferred ----

  /** The number of times a step wanted to be deferred since it last succeeded or was declared anew. */
  ghost function Wanted(systems: seq<System>, events: seq<Event>, i: Id, n: nat): nat
    requires IsRun(systems, events) && i in systems[0].steps && n < |systems|
  {
    if n == 0 then systems[0].steps[i].deferCount
    else
      var s, e, before := systems[n - 1], events[n - 1], Wanted(systems, events, i, n - 1);
      if Stores(s, e, i) || (e.Redefine? && e.i == i) then 0
      else if Wishes(s, e, i) then before + 1
      else before
  }

  lemma {:induction false} DeferCountTells(systems: seq<System>, events: seq<Event>, i: Id, n: nat)
    requires IsRun(systems, events) && i in systems[0].steps && n < |systems|
    ensures i in systems[n].steps && systems[n].steps[i].deferCount == Wanted(systems, events, i, n)
  {
    if n > 0 {
      DeferCountTells(systems, events, i, n - 1);
      assert IsStep(systems[n - 1], events[n - 1], systems[n - 1 + 1]);
      CountStep(systems[n - 1], events[n - 1], i);
    }
  }

  lemma CountSettled(s: System, e: Event, i: Id)
    requires Enabled(s, e) && i in s.steps && e.Settle? && s.jobs[e.job].step == i
    ensures Apply(s, e).steps[i].deferCount ==
              if Stores(s, e, i) then 0 else s.steps[i].deferCount + if Wishes(s, e, i) then 1 else 0
  {
    SettledTells(s.steps[i], e.outcome, s.deferCap);
    if e.outcome.WantsDefer? { WishIsOne(s, e, i, e.outcome.unavailable); }
  }

  lemma CountStep(s: System, e: Event, i: Id)
    requires Enabled(s, e) && i in s.steps
    ensures Apply(s, e).steps[i].deferCount ==
              if Stores(s, e, i) || (e.Redefine? && e.i == i) then 0
              else s.steps[i].deferCount + if Wishes(s, e, i) then 1 else 0
  {
    if e.Settle? && s.jobs[e.job].step == i { CountSettled(s, e, i); }
  }

  lemma WishIsOne(s: System, e: Event, i: Id, u: bool)
    requires Settles(s, e, i, WantsDefer(u))
    ensures Wishes(s, e, i) && !Stores(s, e, i)
  {
  }

  /**
   * A step that wants to be deferred becomes pending if it wanted that no more often than the cap allows since
   * it last succeeded, and fails otherwise.
   */
  lemma DeferralsAreCapped(systems: seq<System>, events: seq<Event>, i: Id, n: nat)
    requires IsRun(systems, events) && i in systems[0].steps && n < |events| && Wishes(systems[n], events[n], i)
    ensures i in systems[n + 1].steps
    ensures systems[n + 1].steps[i].state ==
              if Wanted(systems, events, i, n + 1) <= systems[0].deferCap then Pending else Failed
  {
    assert IsStep(systems[n], events[n], systems[n + 1]);
    DeferCountTells(systems, events, i, n);
    StepStays(systems, events, i, n);
    assert Wanted(systems, events, i, n + 1) == Wanted(systems, events, i, n) + 1;
  }

  // ---- Final states ----

  /** The event brings the step into one of the two states in which an attempt ends. */
  predicate EndsIn(s: System, e: Event, i: Id, state: StepState) {
    if state == Succeeded then Settles(s, e, i, Success)
    else Settles(s, e, i, Failure) || (Wishes(s, e, i) && i in s.steps && s.steps[i].deferCount >= s.deferCap)
  }

  /** A recycled step keeps its success but is retried after a failure. */
  predicate Reopens(e: Event, i: Id, state: StepState) {
    e == MarkPending(i) || (e.Redefine? && e.i == i) || (state == Failed && e.Recycle? && e.i == i)
  }

  lemma EndSettled(s: System, e: Event, i: Id, state: StepState)
    requires Enabled(s, e) && e.Settle? && s.jobs[e.job].step == i && (state == Succeeded || state == Failed)
    ensures Apply(s, e).steps[i].state == state <==> EndsIn(s, e, i, state)
  {
    SettledTells(s.steps[i], e.outcome, s.deferCap);
    if e.outcome.WantsDefer? { WishIsOne(s, e, i, e.outcome.unavailable); }
  }

  lemma EndStep(s: System, e: Event, i: Id, state: StepState)
    requires Enabled(s, e) && i in s.steps && JobsMatchStates(s) && (state == Succeeded || state == Failed)
    ensures Apply(s, e).steps[i].state == state <==>
              EndsIn(s, e, i, state) || (s.steps[i].state == state && !Reopens(e, i, state))
  {
    if e.Settle? && s.jobs[e.job].step == i {
      assert Busy(s, i);
      EndSettled(s, e, i, state);
    } else if e.Pop? && NextStep(s) == Some(i) {
      assert Eligible(s, i);
    }
  }

  /** A step is SUCCEEDED, or FAILED, exactly when its last attempt ended that way and nothing reopened it. */
  lemma FinalStateTells(systems: seq<System>, events: seq<Event>, i: Id, state: StepState, n: nat)
    requires IsRun(systems, events) && i in systems[0].steps && n < |systems|
    requires Initial(systems[0]) && OrderlyUntil(systems, events, n)
    requires state == Succeeded || state == Failed
    ensures i in systems[n].steps
    ensures systems[n].steps[i].state == state <==>
              Since(systems[0].steps[i].state == state, Where(systems, events, (s, e) => EndsIn(s, e, i, state)),
                    Where(systems, events, (s, e) => Reopens(e, i, state)), n)
  {
    StepStays(systems, events, i, n);
    JobsOverRuns(systems, events, n);
    var on := Where(systems, events, (s, e) => EndsIn(s, e, i, state));
    var off := Where(systems, events, (s, e) => Reopens(e, i, state));
    var flag := Flag(systems, i, (r: StepRow) => r.state == state);
    forall m: nat | m < n ensures Tells(flag, on, off, m) {
      assert IsStep(systems[m], events[m], systems[m + 1]);
      StepStays(systems, events, i, m);
      EndStep(systems[m], events[m], i, state);
    }
    TellsOverRuns(flag, on, off, n);
  }

  // ---- Detached steps, and the end of a build ----

  predicate Redeclares(e: Event, i: Id) { (e.Recycle? || e.Redefine?) && e.i == i }

  /** A step is detached, and not handed out, from when it is detached until it is declared again. */
  lemma DetachedTells(systems: seq<System>, events: seq<Event>, i: Id, n: nat)
    requires IsRun(systems, events) && i in systems[0].steps && n < |systems|
    ensures i in systems[n].steps
    ensures systems[n].steps[i].detached <==>
              Since(systems[0].steps[i].detached, Where(systems, events, (s, e) => e == Detach(i)),
                    Where(systems, events, (s, e) => Redeclares(e, i)), n)
    ensures systems[n].steps[i].detached ==> NextStep(systems[n]) != Some(i)
  {
    StepStays(systems, events, i, n);
    var on := Where(systems, events, (s, e) => e == Detach(i));
    var off := Where(systems, events, (s, e) => Redeclares(e, i));
    var flag := Flag(systems, i, (r: StepRow) => r.detached);
    forall m: nat | m < n ensures Tells(flag, on, off, m) {
      assert IsStep(systems[m], events[m], systems[m + 1]);
      StepStays(systems, events, i, m);
      DetachStep(systems[m], events[m], i);
    }
    TellsOverRuns(flag, on, off, n);
    if NextStep(systems[n]) == Some(i) { assert Eligible(systems[n], i); }
  }

  lemma DetachSettled(s: System, e: Event, i: Id)
    requires Enabled(s, e) && i in s.steps && e.Settle?
    ensures Apply(s, e).steps[i].detached == s.steps[i].detached
  {
    SettledTells(s.steps[s.jobs[e.job].step], e.outcome, s.deferCap);
  }

  lemma DetachStep(s: System, e: Event, i: Id)
    requires Enabled(s, e) && i in s.steps
    ensures Apply(s, e).steps[i].detached <==>
              e == Detach(i) || (s.steps[i].detached && !Redeclares(e, i))
  {
    if e.Settle? {
      DetachSettled(s, e, i);
    } else if e.Pop? {
      DetachPopped(s, e, i);
    }
  }

  lemma DetachPopped(s: System, e: Event, i: Id)
    requires i in s.steps && e.Pop?
    ensures i in Apply(s, e).steps && Apply(s, e).steps[i].detached == s.steps[i].detached
  {
  }

  /** Once the scheduler drains, no step is handed out any more. */
  lemma {:induction false} NothingAfterDrain(systems: seq<System>, events: seq<Event>, m: nat, n: nat)
    requires IsRun(systems, events) && m < n < |systems| && events[m] == Drain
    ensures NextStep(systems[n]) == None && systems[n].draining
  {
    assert IsStep(systems[n - 1], events[n - 1], systems[n - 1 + 1]);
    if m < n - 1 { NothingAfterDrain(systems, events, m, n - 1); }
  }
}
