/** builder.py: the job loop, which shares `njob` slots between hash jobs and step jobs. */
module JobLoop {
  import opened Basics
  import opened Histories
  import opened H = HashQueue

  /**
   * Where the loop is when it is not running: about to look for work, awaiting `pop_next_job`, parked on
   * the wake event, done, or ended by the exception of a task.
   */
  datatype Place = Top | Asking | Parked | Returned | Raised

  /** `done` is in the order in which the tasks ended; the tasks of `broken` ended with an exception. */
  datatype Loop = Loop(running: set<nat>, done: seq<nat>, broken: set<nat>, tasks: nat, wake: bool, draining: bool,
                       at: Place, hash: Queue)

  datatype Event =
    | Look                      // from the top of the loop to its next await
    | Answer(found: bool)       // `pop_next_job` returns
    | Wake
    | TaskEnds(task: nat, raised: bool)  // `_task_done`
    | SubmitHash(path: Path)    // on behalf of a step that is running
    | Hash(e: H.Event)  // promoted runners, completions and callbacks

  function Fresh(hash: Queue): Loop {
    Loop({}, [], {}, 0, false, false, Top, hash)
  }

  predicate Enabled(b: Loop, e: Event) {
    match e
    case Look => b.at == Top && QueueKnown(b.hash)
    case Answer(_) => b.at == Asking
    case Wake => b.at == Parked && b.wake
    case TaskEnds(t, _) => t in b.running
    case SubmitHash(_) => b.running != {}
    case Hash(h) => !h.Submit? && !h.Pop? && !h.Shutdown? && QueueKnown(b.hash) && H.Enabled(b.hash, h)
  }

  function Start(b: Loop): Loop {
    b.(running := b.running + {b.tasks}, tasks := b.tasks + 1, at := Top)
  }

  function Park(b: Loop): Loop {
    b.(at := if b.running == {} && b.done == [] then Returned else Parked)
  }

  /**
   * `handle_done_tasks` retires the done tasks, the last one first, and sets the wake event for each, until
   * one raised, which ends the loop.
   */
  function HandleDone(b: Loop): Loop
    decreases |b.done|
  {
    if b.done == [] then b
    else
      var task, rest := b.done[|b.done| - 1], b.done[..|b.done| - 1];
      if task in b.broken then b.(done := rest, draining := true, at := Raised)
      else HandleDone(b.(done := rest, wake := true))
  }

  function Looked(b: Loop, njob: nat): Loop
    requires QueueKnown(b.hash)
  {
    HandledRest(b);
    var c := HandleDone(b);
    if c.at == Raised then c
    else if |c.running| >= njob then Park(c)
    else
      var (hash, job) := Popped(c.hash);
      if job.Some? then Start(c.(hash := hash)) else c.(hash := hash, at := Asking)
  }

  function Next(b: Loop, e: Event, njob: nat): Loop
    requires Enabled(b, e)
  {
    match e
    case Look => Looked(b, njob)
    case Answer(found) => if found then Start(b) else Park(b)
    case Wake => b.(wake := false, at := Top)
    case TaskEnds(t, raised) =>
      b.(running := b.running - {t}, done := b.done + [t], wake := true,
         broken := if raised then b.broken + {t} else b.broken)
    case SubmitHash(path) => b.(hash := Submitted(b.hash, path), wake := b.wake || path !in b.hash.inFlight)
    case Hash(h) => b.(hash := H.Apply(b.hash, h))
  }

  ghost predicate NothingQueued(q: Queue) {
    forall i :: i in q.jobs ==> q.jobs[i].started
  }

  /** The tasks fit in the slots, and no task is both running and done. */
  ghost predicate Slots(b: Loop, njob: nat) {
    && |b.running| <= njob
    && (forall t :: t in b.running ==> t < b.tasks && t !in b.done)
    && (forall t :: t in b.done ==> t < b.tasks)
  }

  /** Until the loop raises, a task that raised is among the done ones. */
  ghost predicate Noticed(b: Loop) {
    b.at != Raised ==> forall t :: t in b.broken ==> t in b.done
  }

  ghost predicate Inv(b: Loop, njob: nat) {
    && H.Inv(b.hash)
    && Slots(b, njob) && Noticed(b)
    && (b.at == Asking ==> |b.running| < njob)
    // No lost wake-up: a loop that waits with the event cleared has no task to retire and no slot for a hash job.
    && ((b.at == Asking || b.at == Parked) && !b.wake ==> b.done == [] && (|b.running| == njob || NothingQueued(b.hash)))
    // A loop that may be about to return has no hash job left behind.
    && ((b.at == Asking || b.at == Returned) && b.running == {} && b.done == [] ==> NothingQueued(b.hash))
    && (b.at == Returned ==> b.running == {} && b.done == [])
    && (b.at == Parked ==> b.running != {} || b.done != [])
  }

  lemma PopNothing(q: Queue)
    requires H.Inv(q) && Popped(q).1 == None
    ensures NothingQueued(Popped(q).0)
  {
    PopKnows(q);
    forall i | i in Popped(q).0.jobs ensures Popped(q).0.jobs[i].started { PopEffect(q, i); }
  }

  lemma {:induction false} HandledRest(b: Loop)
    ensures var c := HandleDone(b);
            && c == b.(done := c.done, wake := c.wake, draining := c.draining, at := c.at)
            && c.done <= b.done && (c.at != b.at ==> c.at == Raised)
    ensures b.at != Raised && HandleDone(b).at != Raised ==>
              && HandleDone(b) == b.(done := [], wake := b.wake || b.done != [])
              && forall t :: t in b.done ==> t !in b.broken
    decreases |b.done|
  {
    if b.done != [] {
      var task, rest := b.done[|b.done| - 1], b.done[..|b.done| - 1];
      assert b.done == rest + [task];
      if task !in b.broken { HandledRest(b.(done := rest, wake := true)); }
    }
  }

  lemma HandleKeepsSlots(b: Loop, njob: nat)
    requires Slots(b, njob) && Noticed(b) && b.at == Top
    ensures Slots(HandleDone(b), njob) && Noticed(HandleDone(b))
  {
    HandledRest(b);
    assert forall t :: t in HandleDone(b).done ==> t in b.done;
  }

  lemma StartKeepsSlots(b: Loop, njob: nat)
    requires Slots(b, njob) && |b.running| < njob
    ensures Slots(Start(b), njob)
  {
    assert b.tasks !in b.running && b.tasks !in b.done;
  }

  lemma LookKeepsInv(b: Loop, njob: nat)
    requires njob > 0 && Inv(b, njob) && b.at == Top
    ensures Inv(Looked(b, njob), njob)
  {
    PopKeepsInv(b.hash);
    HandledRest(b);
    HandleKeepsSlots(b, njob);
    if |b.running| < njob { StartKeepsSlots(HandleDone(b).(hash := Popped(b.hash).0), njob); }
    if |b.running| < njob && Popped(b.hash).1.None? { PopNothing(b.hash); }
  }

  lemma HashKeepsInv(b: Loop, h: H.Event, njob: nat)
    requires Inv(b, njob) && Enabled(b, Hash(h))
    ensures Inv(Next(b, Hash(h), njob), njob)
  {
    H.EventKeepsInv(b.hash, h);
    assert NothingQueued(b.hash) ==> NothingQueued(H.Apply(b.hash, h));
  }

  lemma AnswerKeepsInv(b: Loop, found: bool, njob: nat)
    requires Inv(b, njob) && Enabled(b, Answer(found))
    ensures Inv(Next(b, Answer(found), njob), njob)
  {
    StartKeepsSlots(b, njob);
  }

  lemma TaskEndsKeepsInv(b: Loop, t: nat, raised: bool, njob: nat)
    requires Inv(b, njob) && Enabled(b, TaskEnds(t, raised))
    ensures Inv(Next(b, TaskEnds(t, raised), njob), njob)
  {
    assert |b.running - {t}| == |b.running| - 1;
    assert t in b.done + [t];
  }

  lemma SubmitHashKeepsInv(b: Loop, path: Path, njob: nat)
    requires Inv(b, njob) && Enabled(b, SubmitHash(path))
    ensures Inv(Next(b, SubmitHash(path), njob), njob)
  {
    SubmitKeepsInv(b.hash, path);
  }

  lemma EventKeepsInv(b: Loop, e: Event, njob: nat)
    requires njob > 0 && Inv(b, njob) && Enabled(b, e)
    ensures Inv(Next(b, e, njob), njob)
  {
    match e
    case Look => LookKeepsInv(b, njob);
    case Answer(found) => AnswerKeepsInv(b, found, njob);
    case SubmitHash(path) => SubmitHashKeepsInv(b, path, njob);
    case Hash(h) => HashKeepsInv(b, h, njob);
    case TaskEnds(t, raised) => TaskEndsKeepsInv(b, t, raised, njob);
    case Wake =>
  }

  ghost predicate IsStep(b: Loop, e: Event, d: Loop, njob: nat) { Enabled(b, e) && d == Next(b, e, njob) }

  ghost predicate IsRun(loops: seq<Loop>, events: seq<Event>, njob: nat) {
    && |loops| == |events| + 1
    && H.Inv(loops[0].hash) && loops[0] == Fresh(loops[0].hash)
    && forall n :: 0 <= n < |events| ==> IsStep(loops[n], events[n], loops[n + 1], njob)
  }

  lemma {:induction false} EveryRunKeepsInv(loops: seq<Loop>, events: seq<Event>, njob: nat, n: nat)
    requires njob > 0 && IsRun(loops, events, njob) && n < |loops|
    ensures Inv(loops[n], njob)
  {
    if n > 0 {
      EveryRunKeepsInv(loops, events, njob, n - 1);
      assert IsStep(loops[n - 1], events[n - 1], loops[n - 1 + 1], njob);
      EventKeepsInv(loops[n - 1], events[n - 1], njob);
    }
  }

  /** Over every run, also when tasks end or jobs are submitted while the scheduler is being asked. */
  lemma SlotsAreRespected(loops: seq<Loop>, events: seq<Event>, njob: nat, n: nat)
    requires njob > 0 && IsRun(loops, events, njob) && n < |loops|
    ensures |loops[n].running| <= njob
  {
    EveryRunKeepsInv(loops, events, njob, n);
  }

  /** A loop that sleeps with a free slot has no unclaimed hash job to start and no task to retire. */
  lemma NoLostWakeup(loops: seq<Loop>, events: seq<Event>, njob: nat, n: nat, i: int)
    requires njob > 0 && IsRun(loops, events, njob) && n < |loops|
    requires loops[n].at == Parked && !Enabled(loops[n], Wake) && i in loops[n].hash.jobs
    ensures loops[n].done == [] && loops[n].running != {}
    ensures |loops[n].running| < njob ==> loops[n].hash.jobs[i].started
  {
    EveryRunKeepsInv(loops, events, njob, n);
  }

  /** When the loop returns, nothing runs, every task was retired, and no hash job was left unclaimed. */
  lemma NothingLeftBehind(loops: seq<Loop>, events: seq<Event>, njob: nat, n: nat, i: int)
    requires njob > 0 && IsRun(loops, events, njob) && n < |loops|
    requires loops[n].at == Returned && i in loops[n].hash.jobs
    ensures loops[n].running == {} && loops[n].done == [] && loops[n].hash.jobs[i].started
  {
    EveryRunKeepsInv(loops, events, njob, n);
  }

  lemma {:induction false} BrokenIsRecorded(loops: seq<Loop>, events: seq<Event>, njob: nat, n: nat, m: nat, t: nat)
    requires IsRun(loops, events, njob) && n < m < |loops| && events[n] == TaskEnds(t, true)
    ensures t in loops[m].broken
    decreases m
  {
    assert IsStep(loops[m - 1], events[m - 1], loops[m - 1 + 1], njob);
    if n < m - 1 {
      BrokenIsRecorded(loops, events, njob, n, m - 1, t);
      HandledRest(loops[m - 1]);
    }
  }

  /** No exception is lost: the loop does not return when a task raised at any time of the run. */
  lemma ReturnsWithoutError(loops: seq<Loop>, events: seq<Event>, njob: nat, n: nat, m: nat, t: nat)
    requires njob > 0 && IsRun(loops, events, njob) && n < m < |loops| && events[n] == TaskEnds(t, true)
    ensures loops[m].at != Returned
  {
    EveryRunKeepsInv(loops, events, njob, m);
    BrokenIsRecorded(loops, events, njob, n, m, t);
  }

  // ---- What the flags tell about the events so far ----

  /** A task ended, a hash job was created, or the loop retired a task that did not raise. */
  predicate SetsWake(b: Loop, e: Event) {
    || e.TaskEnds?
    || (e.SubmitHash? && e.path !in b.hash.inFlight)
    || (e.Look? && b.done != [] && b.done[|b.done| - 1] !in b.broken)
  }

  /**
   * From the top of the loop, with no task that raised among the done ones: all slots taken, it parks or
   * returns; otherwise a hash job that nobody claimed is claimed and gets a task; with none the scheduler is asked.
   */
  lemma LookMeans(b: Loop, njob: nat)
    requires Inv(b, njob) && b.at == Top && forall t :: t in b.done ==> t !in b.broken
    ensures var c := Next(b, Look, njob);
            if |b.running| >= njob then c.at == (if b.running == {} then Returned else Parked) && c.hash == b.hash
            else if NothingQueued(b.hash) then c.at == Asking && c.running == b.running && c.hash.jobs == b.hash.jobs
            else
              && c.at == Top && c.running == b.running + {b.tasks} && b.tasks !in b.running
              && exists i :: i in b.hash.jobs && !b.hash.jobs[i].started && i in c.hash.jobs && c.hash.jobs[i].started
  {
    HandledRest(b);
    HandleSucceeds(b);
    PopClaims(b.hash);
  }

  lemma {:induction false} HandleSucceeds(b: Loop)
    requires b.at == Top && forall t :: t in b.done ==> t !in b.broken
    ensures HandleDone(b).at == Top && HandleDone(b).done == []
    decreases |b.done|
  {
    if b.done != [] {
      var task, rest := b.done[|b.done| - 1], b.done[..|b.done| - 1];
      assert task in b.done && forall t :: t in rest ==> t in b.done;
      HandleSucceeds(b.(done := rest, wake := true));
    }
  }

  lemma PopClaims(q: Queue)
    requires H.Inv(q)
    ensures Popped(q).1 == None <==> NothingQueued(q)
    ensures Popped(q).1 == None ==> Popped(q).0.jobs == q.jobs
    ensures Popped(q).1.Some? ==> exists i ::
              i in q.jobs && !q.jobs[i].started && i in Popped(q).0.jobs && Popped(q).0.jobs[i].started
  {
    PopKnows(q);
    forall i | i in q.jobs
      ensures Popped(q).0.jobs[i] == if Popped(q).1 == Some(i) then Won(q.jobs[i]) else q.jobs[i]
      ensures Popped(q).1 == None ==> q.jobs[i].started
    {
      PopEffect(q, i);
    }
    if Popped(q).1.Some? {
      PoppedWasKnown(q);
      PopEffect(q, Popped(q).1.value);
    }
  }

  /** When the scheduler has no job, the loop returns exactly when no task runs or waits to be retired. */
  lemma AnswerMeans(b: Loop, njob: nat)
    requires b.at == Asking
    ensures Next(b, Answer(false), njob) == b.(at := if b.running == {} && b.done == [] then Returned else Parked)
    ensures Next(b, Answer(true), njob) == b.(running := b.running + {b.tasks}, tasks := b.tasks + 1, at := Top)
  {
  }

  lemma {:induction false} HandleWakes(b: Loop)
    requires b.done != []
    ensures HandleDone(b).wake <==> b.wake || b.done[|b.done| - 1] !in b.broken
    decreases |b.done|
  {
    var task, rest := b.done[|b.done| - 1], b.done[..|b.done| - 1];
    if task !in b.broken && rest != [] { HandleWakes(b.(done := rest, wake := true)); }
  }

  lemma WakeStep(b: Loop, e: Event, njob: nat)
    requires Enabled(b, e)
    ensures Next(b, e, njob).wake <==> SetsWake(b, e) || (b.wake && !e.Wake?)
  {
    if e.Look? {
      HandledRest(b);
      if b.done != [] { HandleWakes(b); }
    }
  }

  /** A parked loop wakes up only for something that happened since it last woke up. */
  lemma WakeTells(loops: seq<Loop>, events: seq<Event>, njob: nat, n: nat)
    requires IsRun(loops, events, njob) && n < |loops|
    ensures loops[n].wake <==>
              Since(false, (iset m: nat | m < |events| && SetsWake(loops[m], events[m])),
                    (iset m: nat | m < |events| && events[m].Wake?), n)
  {
    var on := iset m: nat | m < |events| && SetsWake(loops[m], events[m]);
    var off := iset m: nat | m < |events| && events[m].Wake?;
    var flag := (m: nat) => m < |loops| && loops[m].wake;
    forall m: nat | m < n ensures Tells(flag, on, off, m) {
      assert IsStep(loops[m], events[m], loops[m + 1], njob);
      WakeStep(loops[m], events[m], njob);
    }
    TellsOverRuns(flag, on, off, n);
  }

  /** The loop is ended by a task, and the scheduler then drained, only when a task raised before. */
  lemma {:induction false} RaisedTells(loops: seq<Loop>, events: seq<Event>, njob: nat, n: nat)
    requires IsRun(loops, events, njob) && n < |loops|
    ensures loops[n].at == Raised <==> loops[n].draining
    ensures loops[n].broken != {} <==> exists m: nat, t :: m < n && events[m] == TaskEnds(t, true)
    ensures loops[n].at == Raised ==> loops[n].broken != {}
  {
    if n > 0 {
      var b, e := loops[n - 1], events[n - 1];
      RaisedTells(loops, events, njob, n - 1);
      assert IsStep(b, e, loops[n - 1 + 1], njob);
      if e.Look? { RaisedByTask(b, njob); }
    }
  }

  lemma RaisedByTask(b: Loop, njob: nat)
    requires Enabled(b, Look) && !b.draining
    ensures Looked(b, njob).broken == b.broken
    ensures Looked(b, njob).draining <==> Looked(b, njob).at == Raised
    ensures Looked(b, njob).at == Raised ==> b.broken != {}
  {
    HandledRest(b);
    HandleRaises(b);
  }

  lemma {:induction false} HandleRaises(b: Loop)
    requires b.at == Top && !b.draining
    ensures var c := HandleDone(b);
            (c.draining <==> c.at == Raised) && c.broken == b.broken && (c.at == Raised ==> b.broken != {})
    decreases |b.done|
  {
    if b.done != [] {
      var task, rest := b.done[|b.done| - 1], b.done[..|b.done| - 1];
      if task !in b.broken { HandleRaises(b.(done := rest, wake := true)); }
    }
  }

  // ---- The loop as it updates the builder's fields ----

  class Builder {
    const njob: nat
    var running: set<nat>
    var done: seq<nat>
    var broken: set<nat>
    var tasks: nat
    var wake: bool
    var draining: bool
    var at: Place
    const hashQueue: H.HashQueue

    constructor (njob: nat, hashQueue: H.HashQueue)
      ensures this.njob == njob && this.hashQueue == hashQueue && State() == Fresh(hashQueue.State())
    {
      this.njob, this.hashQueue := njob, hashQueue;
      running, done, broken, tasks, wake, draining, at := {}, [], {}, 0, false, false, Top;
    }

    ghost function State(): Loop
      reads this, hashQueue
    {
      Loop(running, done, broken, tasks, wake, draining, at, hashQueue.State())
    }

    method StartTask()
      modifies this
      ensures State() == Start(old(State()))
    {
      running, tasks, at := running + {tasks}, tasks + 1, Top;
    }

    /** Retires the done tasks one by one, until one raised. */
    method HandleDoneTasks()
      modifies this
      ensures State() == HandleDone(old(State()))
    {
      while done != []
        invariant HandleDone(State()) == HandleDone(old(State()))
        invariant hashQueue.State() == old(hashQueue.State())
        decreases |done|
      {
        var task := done[|done| - 1];
        done := done[..|done| - 1];
        if task in broken {
          draining, at := true, Raised;
          return;
        }
        wake := true;
      }
    }

    method ParkOrReturn()
      modifies this
      ensures State() == Park(old(State()))
    {
      at := if running == {} && done == [] then Returned else Parked;
    }

    /** The part of `job_loop` before its first await. */
    method LookForWork()
      requires QueueKnown(hashQueue.State()) && at == Top
      modifies this, hashQueue
      ensures State() == Next(old(State()), Look, njob)
    {
      HandledRest(State());
      HandleDoneTasks();
      if at == Raised {
        return;
      }
      if |running| >= njob {
        ParkOrReturn();
        return;
      }
      var job := hashQueue.PopNowait();
      if job.Some? {
        StartTask();
      } else {
        at := Asking;
      }
    }

    /** The part of `job_loop` after `pop_next_job` returned. */
    method GotAnswer(found: bool)
      requires at == Asking
      modifies this
      ensures State() == Next(old(State()), Answer(found), njob)
    {
      if found {
        StartTask();
      } else {
        ParkOrReturn();
      }
    }

    method TaskDone(task: nat, raised: bool)
      requires task in running
      modifies this
      ensures State() == Next(old(State()), TaskEnds(task, raised), njob)
    {
      running, done, wake := running - {task}, done + [task], true;
      if raised {
        broken := broken + {task};
      }
    }
  }
}
