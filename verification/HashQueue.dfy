/** hash_queue.py: one hash job for each path, raced for by the job loop and by promoted runners. */
module HashQueue {
  import opened Basics

  type Path = string

  datatype Future = Open | Resolved | Failed | Cancelled

  /**
   * `wins` counts the calls of `claim` that returned true, `owed` the winners that have not begun to run
   * the job, `runs` the times the job was run, `active` the runs that are under way. An abandoned job
   * lost its runner to a cancelled task.
   */
  datatype Job = Job(path: Path, started: bool, future: Future, retired: bool, abandoned: bool,
                     wins: nat, owed: nat, runs: nat, active: nat)

  /** `clashes` counts the `InvalidStateError`s: an exception set on a future that is settled already. */
  datatype Queue = Queue(jobs: map<int, Job>, queue: seq<int>, inFlight: map<Path, int>, counter: int, clashes: nat)

  const EMPTY := Queue(map[], [], map[], 0, 0)

  datatype Event =
    | Submit(path: Path)
    | Claim(i: int)
    | Pop
    | Begin(i: int)
    | Finish(i: int, outcome: Future)
    | Abandon(i: int)
    | Retire(i: int)  // asyncio calls `_job_done` some time after the future was settled
    | Shutdown

  predicate Enabled(q: Queue, e: Event) {
    match e
    case Claim(i) => i in q.jobs
    case Begin(i) => i in q.jobs && q.jobs[i].owed > 0
    case Finish(i, outcome) => i in q.jobs && q.jobs[i].active > 0 && outcome != Open
    case Abandon(i) => i in q.jobs && q.jobs[i].owed + q.jobs[i].active > 0
    case Retire(i) => i in q.jobs && q.jobs[i].future != Open && !q.jobs[i].retired
    case _ => true
  }

  function NewJob(path: Path): Job {
    Job(path, false, Open, false, false, 0, 0, 0, 0)
  }

  function Submitted(q: Queue, path: Path): Queue {
    if path in q.inFlight then q
    else
      var i := q.counter - 1;
      Queue(q.jobs[i := NewJob(path)], q.queue + [i], q.inFlight[path := i], i, q.clashes)
  }

  /** A won claim by a runner. */
  function Won(j: Job): Job {
    j.(started := true, wins := j.wins + 1, owed := j.owed + 1)
  }

  function Claimed(q: Queue, i: int): Queue
    requires i in q.jobs
  {
    if q.jobs[i].started then q else q.(jobs := q.jobs[i := Won(q.jobs[i])])
  }

  /** A won claim by `shutdown`, which cancels the future instead of running the job. */
  function Dropped(j: Job): Job {
    j.(started := true, wins := j.wins + 1, future := if j.future == Open then Cancelled else j.future)
  }

  predicate QueueKnown(q: Queue) {
    forall k :: 0 <= k < |q.queue| ==> q.queue[k] in q.jobs
  }

  /** `pop_nowait`: the first job of the queue that nobody claimed, with the claimed ones before it discarded. */
  function Popped(q: Queue): (Queue, Option<int>)
    requires QueueKnown(q)
    decreases |q.queue|
  {
    if q.queue == [] then (q, None)
    else
      var i, rest := q.queue[0], q.(queue := q.queue[1..]);
      if q.jobs[i].started then Popped(rest) else (Claimed(rest, i), Some(i))
  }

  function Drained(q: Queue): Queue
    requires QueueKnown(q)
    decreases |q.queue|
  {
    if q.queue == [] then q
    else
      var i, rest := q.queue[0], q.(queue := q.queue[1..]);
      if q.jobs[i].started then Drained(rest) else Drained(rest.(jobs := q.jobs[i := Dropped(q.jobs[i])]))
  }

  /** The end of `_run_hash_job`: only `set_exception` is not guarded by a test of the future. */
  function Finished(q: Queue, i: int, outcome: Future): Queue
    requires i in q.jobs && q.jobs[i].active > 0
  {
    var j := q.jobs[i].(active := q.jobs[i].active - 1);
    if j.future == Open then q.(jobs := q.jobs[i := j.(future := outcome)])
    else q.(jobs := q.jobs[i := j], clashes := if outcome == Failed then q.clashes + 1 else q.clashes)
  }

  function Abandoned(j: Job): Job
    requires j.owed + j.active > 0
  {
    if j.owed > 0 then j.(owed := j.owed - 1, abandoned := true) else j.(active := j.active - 1, abandoned := true)
  }

  /** `_job_done` pops by path, whichever job is registered for it. */
  function Retired(q: Queue, i: int): Queue
    requires i in q.jobs
  {
    q.(jobs := q.jobs[i := q.jobs[i].(retired := true)], inFlight := q.inFlight - {q.jobs[i].path})
  }

  function Apply(q: Queue, e: Event): Queue
    requires QueueKnown(q) && Enabled(q, e)
  {
    match e
    case Submit(path) => Submitted(q, path)
    case Claim(i) => Claimed(q, i)
    case Pop => Popped(q).0
    case Begin(i) =>
      var j := q.jobs[i];
      q.(jobs := q.jobs[i := j.(owed := j.owed - 1, runs := j.runs + 1, active := j.active + 1)])
    case Finish(i, outcome) => Finished(q, i, outcome)
    case Abandon(i) => q.(jobs := q.jobs[i := Abandoned(q.jobs[i])])
    case Retire(i) => Retired(q, i)
    case Shutdown => Drained(q)
  }

  // ---- Invariant ----

  predicate JobOk(j: Job) {
    && j.wins == (if j.started then 1 else 0)
    && j.owed + j.runs <= j.wins && j.active <= j.runs
    && (j.owed + j.active > 0 ==> j.future == Open)
    && (j.future != Open ==> j.started)
    && (j.retired ==> j.future != Open)
    && (j.started && j.future == Open && !j.abandoned ==> j.owed + j.active == 1)
    && (j.abandoned ==> j.started && j.owed + j.active == 0 && j.future == Open)
  }

  ghost predicate Inv(q: Queue) {
    && q.clashes == 0 && q.counter <= 0
    && QueueKnown(q) && Distinct(q.queue)
    && (forall i :: i in q.jobs ==> q.counter <= i < 0 && JobOk(q.jobs[i]))
    && (forall i :: i in q.jobs && !q.jobs[i].started ==> i in q.queue)
    && (forall p :: p in q.inFlight ==> q.inFlight[p] in q.jobs && q.jobs[q.inFlight[p]].path == p
                                        && !q.jobs[q.inFlight[p]].retired)
    && (forall i :: i in q.jobs && !q.jobs[i].retired ==>
          q.jobs[i].path in q.inFlight && q.inFlight[q.jobs[i].path] == i)
  }

  /** A job's own record may change in any way that keeps it consistent, its path and its registration. */
  lemma JobKeepsInv(q: Queue, i: int, j: Job)
    requires Inv(q) && i in q.jobs && JobOk(j)
    requires j.path == q.jobs[i].path && j.retired == q.jobs[i].retired && (q.jobs[i].started ==> j.started)
    ensures Inv(q.(jobs := q.jobs[i := j]))
  {
  }

  lemma DequeueKeepsInv(q: Queue)
    requires Inv(q) && q.queue != [] && q.jobs[q.queue[0]].started
    ensures Inv(q.(queue := q.queue[1..]))
  {
    var d := q.(queue := q.queue[1..]);
    assert q.queue == [q.queue[0]] + d.queue;
    forall i | i in d.jobs && !d.jobs[i].started ensures i in d.queue {
      assert i in q.queue;
    }
  }

  /** The queue after its first entry was discarded or handed out. */
  lemma HeadKeepsInv(q: Queue, j: Job)
    requires Inv(q) && q.queue != []
    requires JobOk(j) && j.started && j.path == q.jobs[q.queue[0]].path && j.retired == q.jobs[q.queue[0]].retired
    ensures Inv(q.(queue := q.queue[1..], jobs := q.jobs[q.queue[0] := j]))
  {
    JobKeepsInv(q, q.queue[0], j);
    DequeueKeepsInv(q.(jobs := q.jobs[q.queue[0] := j]));
  }

  lemma {:induction false} PopKeepsInv(q: Queue)
    requires Inv(q)
    ensures Inv(Popped(q).0)
    decreases |q.queue|
  {
    if q.queue != [] {
      var i, rest := q.queue[0], q.(queue := q.queue[1..]);
      if q.jobs[i].started {
        DequeueKeepsInv(q);
        PopKeepsInv(rest);
      } else {
        HeadKeepsInv(q, Won(q.jobs[i]));
      }
    }
  }

  lemma {:induction false} DrainKeepsInv(q: Queue)
    requires Inv(q)
    ensures Inv(Drained(q)) && Drained(q).queue == []
    decreases |q.queue|
  {
    if q.queue != [] {
      var i := q.queue[0];
      if q.jobs[i].started {
        DequeueKeepsInv(q);
        DrainKeepsInv(q.(queue := q.queue[1..]));
      } else {
        HeadKeepsInv(q, Dropped(q.jobs[i]));
        DrainKeepsInv(q.(queue := q.queue[1..], jobs := q.jobs[i := Dropped(q.jobs[i])]));
      }
    }
  }

  lemma SubmitKeepsInv(q: Queue, path: Path)
    requires Inv(q)
    ensures Inv(Submitted(q, path))
  {
    var d := Submitted(q, path);
    if path !in q.inFlight {
      forall i | i in d.jobs && !d.jobs[i].started ensures i in d.queue {
        if i == q.counter - 1 { assert d.queue[|q.queue|] == i; } else { assert i in q.queue; }
      }
    }
  }

  lemma RetireKeepsInv(q: Queue, i: int)
    requires Inv(q) && i in q.jobs && q.jobs[i].future != Open && !q.jobs[i].retired
    ensures Inv(Retired(q, i))
  {
    assert q.inFlight[q.jobs[i].path] == i;
  }

  lemma ClaimKeepsInv(q: Queue, i: int)
    requires Inv(q) && i in q.jobs
    ensures Inv(Claimed(q, i))
  {
    if !q.jobs[i].started { JobKeepsInv(q, i, Won(q.jobs[i])); }
  }

  lemma EventKeepsInv(q: Queue, e: Event)
    requires Inv(q) && Enabled(q, e)
    ensures Inv(Apply(q, e))
  {
    match e
    case Submit(path) => SubmitKeepsInv(q, path);
    case Claim(i) => ClaimKeepsInv(q, i);
    case Pop => PopKeepsInv(q);
    case Begin(i) => JobKeepsInv(q, i, Apply(q, e).jobs[i]);
    case Finish(i, outcome) => JobKeepsInv(q, i, Apply(q, e).jobs[i]);
    case Abandon(i) => JobKeepsInv(q, i, Apply(q, e).jobs[i]);
    case Retire(i) => RetireKeepsInv(q, i);
    case Shutdown => DrainKeepsInv(q);
  }

  ghost predicate IsStep(q: Queue, e: Event, d: Queue) { QueueKnown(q) && Enabled(q, e) && d == Apply(q, e) }

  /** The events lead from each queue to the next. */
  ghost predicate Leads(queues: seq<Queue>, events: seq<Event>) {
    && |queues| == |events| + 1
    && forall n :: 0 <= n < |events| ==> IsStep(queues[n], events[n], queues[n + 1])
  }

  ghost predicate IsRun(queues: seq<Queue>, events: seq<Event>) {
    Leads(queues, events) && queues[0] == EMPTY
  }

  lemma {:induction false} LeadsKeepsInv(queues: seq<Queue>, events: seq<Event>, n: nat)
    requires Leads(queues, events) && n < |queues| && Inv(queues[0])
    ensures Inv(queues[n])
  {
    if n > 0 {
      LeadsKeepsInv(queues, events, n - 1);
      assert IsStep(queues[n - 1], events[n - 1], queues[n - 1 + 1]);
      EventKeepsInv(queues[n - 1], events[n - 1]);
    }
  }

  lemma EveryRunKeepsInv(queues: seq<Queue>, events: seq<Event>, n: nat)
    requires IsRun(queues, events) && n < |queues|
    ensures Inv(queues[n])
  {
    LeadsKeepsInv(queues, events, n);
  }

  // ---- What every interleaving keeps ----

  /** At most one unretired job for a path; no job is claimed or run twice; no future is settled twice. */
  lemma OneJobPerPath(queues: seq<Queue>, events: seq<Event>, n: nat, i: int, k: int)
    requires IsRun(queues, events) && n < |queues| && i in queues[n].jobs && k in queues[n].jobs
    ensures !queues[n].jobs[i].retired && !queues[n].jobs[k].retired && i != k ==>
              queues[n].jobs[i].path != queues[n].jobs[k].path
    ensures queues[n].jobs[i].runs <= queues[n].jobs[i].wins <= 1
    ensures queues[n].clashes == 0
  {
    EveryRunKeepsInv(queues, events, n);
  }

  /**
   * A submission for a path whose job is not retired changes nothing; otherwise it adds one job, which nobody
   * has claimed and whose future is open, and touches no other.
   */
  lemma SubmitDeduplicates(queues: seq<Queue>, events: seq<Event>, n: nat, i: int)
    requires IsRun(queues, events) && n < |events| && events[n].Submit?
    ensures i in queues[n].jobs && queues[n].jobs[i].path == events[n].path && !queues[n].jobs[i].retired ==>
              queues[n + 1] == queues[n]
    ensures (forall k :: k in queues[n].jobs && queues[n].jobs[k].path == events[n].path ==> queues[n].jobs[k].retired) ==>
              exists k :: k !in queues[n].jobs
                && queues[n + 1].jobs == queues[n].jobs[k := Job(events[n].path, false, Open, false, false, 0, 0, 0, 0)]
  {
    EveryRunKeepsInv(queues, events, n);
    assert IsStep(queues[n], events[n], queues[n + 1]);
    var k, path := queues[n].counter - 1, events[n].path;
    assert k !in queues[n].jobs;
    if path !in queues[n].inFlight {
      assert queues[n + 1].jobs == queues[n].jobs[k := Job(path, false, Open, false, false, 0, 0, 0, 0)];
    } else {
      var j := queues[n].inFlight[path];
      assert j in queues[n].jobs && queues[n].jobs[j].path == path && !queues[n].jobs[j].retired;
    }
  }

  /** A future that is settled keeps its outcome, whatever happens next. */
  lemma {:induction false} SettledForGood(queues: seq<Queue>, events: seq<Event>, n: nat, m: nat, i: int)
    requires IsRun(queues, events) && n <= m < |queues| && i in queues[n].jobs
    ensures i in queues[m].jobs && (queues[n].jobs[i].started ==> queues[m].jobs[i].started)
    ensures queues[n].jobs[i].future != Open ==> queues[m].jobs[i].future == queues[n].jobs[i].future
    decreases m
  {
    if n < m {
      SettledForGood(queues, events, n, m - 1, i);
      EveryRunKeepsInv(queues, events, m - 1);
      assert IsStep(queues[m - 1], events[m - 1], queues[m - 1 + 1]);
      match events[m - 1]
      case Pop => PopEffect(queues[m - 1], i);
      case Shutdown => DrainEffect(queues[m - 1], i);
      case _ =>
    }
  }

  /** The run of a job settles its future with its own outcome, and those who wait for it see no other. */
  lemma FinishDelivers(queues: seq<Queue>, events: seq<Event>, n: nat, m: nat)
    requires IsRun(queues, events) && n < |events| && events[n].Finish? && n < m < |queues|
    ensures events[n].i in queues[m].jobs && queues[m].jobs[events[n].i].future == events[n].outcome
  {
    EveryRunKeepsInv(queues, events, n);
    assert IsStep(queues[n], events[n], queues[n + 1]);
    SettledForGood(queues, events, n + 1, m, events[n].i);
  }

  /** The event makes the job a claimed one. */
  ghost predicate ClaimsAt(queues: seq<Queue>, n: nat, i: int) {
    n + 1 < |queues| && i in queues[n].jobs && !queues[n].jobs[i].started
    && i in queues[n + 1].jobs && queues[n + 1].jobs[i].started
  }

  lemma {:induction false} BegunBefore(queues: seq<Queue>, events: seq<Event>, m: nat, n: nat, i: int)
    requires IsRun(queues, events) && m < n < |queues| && events[m] == Begin(i)
    ensures i in queues[n].jobs && queues[n].jobs[i].runs >= 1
    decreases n
  {
    assert IsStep(queues[n - 1], events[n - 1], queues[n - 1 + 1]);
    EveryRunKeepsInv(queues, events, n - 1);
    if m < n - 1 {
      BegunBefore(queues, events, m, n - 1, i);
      match events[n - 1]
      case Pop => PopEffect(queues[n - 1], i);
      case Shutdown => DrainEffect(queues[n - 1], i);
      case _ =>
    }
  }

  lemma {:induction false} StartedByClaim(queues: seq<Queue>, events: seq<Event>, n: nat, i: int)
    requires IsRun(queues, events) && n < |queues| && i in queues[n].jobs && queues[n].jobs[i].started
    ensures exists m: nat :: m < n && ClaimsAt(queues, m, i)
  {
    assert n > 0;
    var q := queues[n - 1];
    EveryRunKeepsInv(queues, events, n - 1);
    assert IsStep(q, events[n - 1], queues[n - 1 + 1]);
    if i in q.jobs && q.jobs[i].started {
      StartedByClaim(queues, events, n - 1, i);
    } else {
      if i !in q.jobs { NewIsUnclaimed(q, events[n - 1], i); }
      assert ClaimsAt(queues, n - 1, i);
    }
  }

  lemma NewIsUnclaimed(q: Queue, e: Event, i: int)
    requires Inv(q) && Enabled(q, e) && i !in q.jobs && i in Apply(q, e).jobs
    ensures !Apply(q, e).jobs[i].started
  {
    match e
    case Pop => PopKnows(q);
    case Shutdown => DrainKnows(q);
    case _ =>
  }

  lemma {:induction false} PopKnows(q: Queue)
    requires QueueKnown(q)
    ensures Popped(q).0.jobs.Keys == q.jobs.Keys
    decreases |q.queue|
  {
    if q.queue != [] && q.jobs[q.queue[0]].started { PopKnows(q.(queue := q.queue[1..])); }
  }

  lemma {:induction false} DrainKnows(q: Queue)
    requires QueueKnown(q)
    ensures Drained(q).jobs.Keys == q.jobs.Keys
    decreases |q.queue|
  {
    if q.queue != [] {
      var i, rest := q.queue[0], q.(queue := q.queue[1..]);
      if q.jobs[i].started { DrainKnows(rest); } else { DrainKnows(rest.(jobs := q.jobs[i := Dropped(q.jobs[i])])); }
    }
  }

  /**
   * Read off the events of any interleaving: a job is run at most once, only after it was claimed, and its run
   * finds the future open when it settles it.
   */
  lemma RunOnce(queues: seq<Queue>, events: seq<Event>, n: nat, i: int)
    requires IsRun(queues, events) && n < |events|
    ensures events[n] == Begin(i) ==> forall m: nat :: m < n ==> events[m] != Begin(i)
    ensures events[n] == Begin(i) ==> exists m: nat :: m < n && ClaimsAt(queues, m, i)
    ensures events[n].Finish? ==> events[n].i in queues[n].jobs && queues[n].jobs[events[n].i].future == Open
  {
    EveryRunKeepsInv(queues, events, n);
    assert IsStep(queues[n], events[n], queues[n + 1]);
    if events[n] == Begin(i) {
      StartedByClaim(queues, events, n, i);
      forall m: nat | m < n ensures events[m] != Begin(i) {
        if events[m] == Begin(i) { BegunBefore(queues, events, m, n, i); }
      }
    }
  }

  /** A job counts as abandoned, or as retired, exactly when the event of that name happened to it. */
  lemma {:induction false} MarksTell(queues: seq<Queue>, events: seq<Event>, n: nat, i: int)
    requires IsRun(queues, events) && n < |queues| && i in queues[n].jobs
    ensures queues[n].jobs[i].abandoned <==> exists m: nat :: m < n && events[m] == Abandon(i)
    ensures queues[n].jobs[i].retired <==> exists m: nat :: m < n && events[m] == Retire(i)
  {
    assert n > 0;
    var q, e := queues[n - 1], events[n - 1];
    EveryRunKeepsInv(queues, events, n - 1);
    assert IsStep(q, e, queues[n - 1 + 1]);
    if i in q.jobs {
      MarksTell(queues, events, n - 1, i);
      MarkStep(q, e, i);
    } else {
      NewIsUnmarked(q, e, i);
      forall m: nat | m < n ensures events[m] != Abandon(i) && events[m] != Retire(i) {
        NotYetMarked(queues, events, m, n - 1, i);
      }
    }
  }

  lemma MarkStep(q: Queue, e: Event, i: int)
    requires Inv(q) && Enabled(q, e) && i in q.jobs
    ensures i in Apply(q, e).jobs
    ensures Apply(q, e).jobs[i].abandoned <==> q.jobs[i].abandoned || e == Abandon(i)
    ensures Apply(q, e).jobs[i].retired <==> q.jobs[i].retired || e == Retire(i)
  {
    match e
    case Pop => PopEffect(q, i);
    case Shutdown => DrainEffect(q, i);
    case _ =>
  }

  lemma NewIsUnmarked(q: Queue, e: Event, i: int)
    requires Inv(q) && Enabled(q, e) && i !in q.jobs && i in Apply(q, e).jobs
    ensures !Apply(q, e).jobs[i].abandoned && !Apply(q, e).jobs[i].retired && e.Submit?
  {
    match e
    case Pop => PopKnows(q);
    case Shutdown => DrainKnows(q);
    case _ =>
  }

  lemma NotYetMarked(queues: seq<Queue>, events: seq<Event>, m: nat, n: nat, i: int)
    requires IsRun(queues, events) && m <= n < |events| && i !in queues[n].jobs
    ensures events[m] != Abandon(i) && events[m] != Retire(i)
  {
    assert IsStep(queues[m], events[m], queues[m + 1]);
    if i in queues[m].jobs { SettledForGood(queues, events, m, n, i); }
  }

  // ---- First in, first out ----

  /** The ids count down, so that the queue holds the jobs in the order of submission. */
  ghost predicate InOrder(q: Queue) {
    forall a, b :: 0 <= a < b < |q.queue| ==> q.queue[a] > q.queue[b]
  }

  lemma DequeueKeepsOrder(q: Queue)
    requires InOrder(q) && q.queue != []
    ensures InOrder(q.(queue := q.queue[1..]))
  {
  }

  lemma {:induction false} PopKeepsOrder(q: Queue)
    requires QueueKnown(q) && InOrder(q)
    ensures InOrder(Popped(q).0)
    decreases |q.queue|
  {
    if q.queue != [] {
      DequeueKeepsOrder(q);
      if q.jobs[q.queue[0]].started { PopKeepsOrder(q.(queue := q.queue[1..])); }
    }
  }

  lemma EventKeepsOrder(q: Queue, e: Event)
    requires Inv(q) && Enabled(q, e) && InOrder(q)
    ensures InOrder(Apply(q, e))
  {
    match e
    case Submit(path) => forall k | 0 <= k < |q.queue| ensures q.queue[k] >= q.counter { assert q.queue[k] in q.jobs; }
    case Pop => PopKeepsOrder(q);
    case Shutdown => DrainKeepsInv(q);
    case _ =>
  }

  lemma {:induction false} EveryRunKeepsOrder(queues: seq<Queue>, events: seq<Event>, n: nat)
    requires IsRun(queues, events) && n < |queues|
    ensures InOrder(queues[n])
  {
    if n > 0 {
      EveryRunKeepsOrder(queues, events, n - 1);
      EveryRunKeepsInv(queues, events, n - 1);
      assert IsStep(queues[n - 1], events[n - 1], queues[n - 1 + 1]);
      EventKeepsOrder(queues[n - 1], events[n - 1]);
    }
  }

  lemma {:induction false} PopTakesLargest(q: Queue, i: int, k: int)
    requires Inv(q) && InOrder(q) && Popped(q).1 == Some(i) && k in q.jobs && !q.jobs[k].started
    ensures k <= i
    decreases |q.queue|
  {
    var h, rest := q.queue[0], q.(queue := q.queue[1..]);
    if q.jobs[h].started {
      DequeueKeepsInv(q);
      DequeueKeepsOrder(q);
      PopTakesLargest(rest, i, k);
    } else {
      assert k in q.queue;
    }
  }

  lemma {:induction false} LaterJobsAreSmaller(queues: seq<Queue>, events: seq<Event>, m: nat, n: nat, i: int)
    requires IsRun(queues, events) && m <= n < |queues| && i in queues[n].jobs && i !in queues[m].jobs
    ensures forall k :: k in queues[m].jobs ==> i < k
    decreases n
  {
    if m < n {
      EveryRunKeepsInv(queues, events, n - 1);
      assert IsStep(queues[n - 1], events[n - 1], queues[n - 1 + 1]);
      forall k | k in queues[m].jobs ensures k in queues[n - 1].jobs { SettledForGood(queues, events, m, n - 1, k); }
      if i in queues[n - 1].jobs {
        LaterJobsAreSmaller(queues, events, m, n - 1, i);
      } else {
        OnlySubmitAdds(queues[n - 1], events[n - 1], i);
      }
    }
  }

  lemma OnlySubmitAdds(q: Queue, e: Event, i: int)
    requires Inv(q) && Enabled(q, e) && i !in q.jobs && i in Apply(q, e).jobs
    ensures i == q.counter - 1
  {
    if e.Pop? || e.Shutdown? {
      if k :| k in q.jobs { PopEffect(q, k); DrainEffect(q, k); }
    }
  }

  lemma {:induction false} LargerCameFirst(queues: seq<Queue>, events: seq<Event>, n: nat, i: int, k: int) returns (m: nat)
    requires IsRun(queues, events) && n < |queues| && i in queues[n].jobs && k in queues[n].jobs && i < k
    ensures m <= n && i !in queues[m].jobs && k in queues[m].jobs
  {
    assert n > 0;
    assert IsStep(queues[n - 1], events[n - 1], queues[n - 1 + 1]);
    EveryRunKeepsInv(queues, events, n - 1);
    if k !in queues[n - 1].jobs { OnlySubmitAdds(queues[n - 1], events[n - 1], k); }
    if i in queues[n - 1].jobs {
      m := LargerCameFirst(queues, events, n - 1, i, k);
    } else {
      OnlySubmitAdds(queues[n - 1], events[n - 1], i);
      m := n - 1;
    }
  }

  /**
   * A pop claims the job that was submitted first of all that nobody has claimed, and no other; it finds none
   * only if every job is claimed.
   */
  lemma FirstInFirstOut(queues: seq<Queue>, events: seq<Event>, n: nat, i: int)
    requires IsRun(queues, events) && n < |events| && events[n].Pop? && i in queues[n].jobs && !queues[n].jobs[i].started
    ensures i in queues[n + 1].jobs
    ensures queues[n + 1].jobs[i].started <==>
              forall m: nat, k: int :: m <= n && i !in queues[m].jobs && k in queues[m].jobs ==>
                k in queues[n].jobs && queues[n].jobs[k].started
  {
    var q := queues[n];
    EveryRunKeepsInv(queues, events, n);
    EveryRunKeepsOrder(queues, events, n);
    assert IsStep(q, events[n], queues[n + 1]);
    PopEffect(q, i);
    var p := Popped(q).1.value;
    PopTakesLargest(q, p, i);
    PoppedWasKnown(q);
    if p != i {
      PopEffect(q, p);
      var m := LargerCameFirst(queues, events, n, i, p);
    } else {
      forall m: nat, k: int | m <= n && i !in queues[m].jobs && k in queues[m].jobs
        ensures k in q.jobs && q.jobs[k].started
      {
        SettledForGood(queues, events, m, n, k);
        LaterJobsAreSmaller(queues, events, m, n, i);
        if !q.jobs[k].started { PopTakesLargest(q, p, k); }
      }
    }
  }

  lemma {:induction false} PoppedWasKnown(q: Queue)
    requires QueueKnown(q) && Popped(q).1.Some?
    ensures Popped(q).1.value in q.jobs
    decreases |q.queue|
  {
    if q.jobs[q.queue[0]].started { PoppedWasKnown(q.(queue := q.queue[1..])); }
  }

  /** The entry that `_job_done` removes is the one of the job that resolved, and no other entry changes. */
  lemma RetireRemovesOwnEntry(queues: seq<Queue>, events: seq<Event>, n: nat)
    requires IsRun(queues, events) && n < |events| && events[n].Retire?
    ensures var i := events[n].i;
            && i in queues[n].jobs && queues[n].jobs[i].path in queues[n].inFlight
            && queues[n].inFlight[queues[n].jobs[i].path] == i
            && (forall p :: p in queues[n].inFlight && queues[n].inFlight[p] != i <==> p in queues[n + 1].inFlight)
  {
    EveryRunKeepsInv(queues, events, n);
    assert IsStep(queues[n], events[n], queues[n + 1]);
  }

  /** Shutdown empties the queue, cancels what nobody claimed, and touches nothing else. */
  lemma ShutdownLeavesNoWaiter(q: Queue, i: int)
    requires Inv(q) && i in q.jobs
    ensures Drained(q).queue == [] && Drained(q).inFlight == q.inFlight && Drained(q).counter == q.counter
    ensures Drained(q).jobs.Keys == q.jobs.Keys
    ensures Drained(q).jobs[i] == if q.jobs[i].started then q.jobs[i] else Dropped(q.jobs[i])
    ensures !q.jobs[i].started ==> Drained(q).jobs[i].future == Cancelled && i in q.queue
  {
    DrainKeepsInv(q);
    DrainEffect(q, i);
  }

  lemma {:induction false} DrainEffect(q: Queue, i: int)
    requires Inv(q) && i in q.jobs
    ensures Drained(q).inFlight == q.inFlight && Drained(q).counter == q.counter && Drained(q).clashes == q.clashes
    ensures Drained(q).jobs.Keys == q.jobs.Keys
    ensures Drained(q).jobs[i] == if q.jobs[i].started then q.jobs[i] else Dropped(q.jobs[i])
    decreases |q.queue|
  {
    if q.queue != [] {
      var h := q.queue[0];
      if q.jobs[h].started {
        DequeueKeepsInv(q);
        DrainEffect(q.(queue := q.queue[1..]), i);
      } else {
        HeadKeepsInv(q, Dropped(q.jobs[h]));
        DrainEffect(q.(queue := q.queue[1..], jobs := q.jobs[h := Dropped(q.jobs[h])]), i);
      }
    }
  }

  /** Over every run, a claimed job whose runner was not cancelled has exactly one runner until it is settled. */
  lemma ClaimedJobHasRunner(queues: seq<Queue>, events: seq<Event>, n: nat, i: int)
    requires IsRun(queues, events) && n < |queues| && i in queues[n].jobs
    requires queues[n].jobs[i].started && !queues[n].jobs[i].abandoned
    ensures queues[n].jobs[i].future == Open <==> queues[n].jobs[i].owed + queues[n].jobs[i].active == 1
  {
    EveryRunKeepsInv(queues, events, n);
  }

  /**
   * A job whose runner was cancelled is never retired: whatever happens next, its future stays open and
   * every later submission of its path is given this dead job.
   */
  lemma AbandonedJobStays(q: Queue, e: Event, i: int)
    requires Inv(q) && Enabled(q, e) && i in q.jobs && q.jobs[i].abandoned
    ensures i in Apply(q, e).jobs && Apply(q, e).jobs[i] == q.jobs[i]
    ensures Submitted(Apply(q, e), q.jobs[i].path) == Apply(q, e)
    ensures q.jobs[i].path in Apply(q, e).inFlight && Apply(q, e).inFlight[q.jobs[i].path] == i
  {
    EventKeepsInv(q, e);
    match e
    case Pop => PopEffect(q, i);
    case Shutdown => DrainEffect(q, i);
    case _ =>
  }

  /** From any consistent queue on it stays registered for good. */
  lemma {:induction false} AbandonedForGood(queues: seq<Queue>, events: seq<Event>, n: nat, m: nat, i: int)
    requires Leads(queues, events) && Inv(queues[0])
    requires n <= m < |queues| && i in queues[n].jobs && queues[n].jobs[i].abandoned
    ensures i in queues[m].jobs && queues[m].jobs[i] == queues[n].jobs[i] && queues[m].jobs[i].future == Open
    ensures Submitted(queues[m], queues[n].jobs[i].path) == queues[m]
    ensures queues[n].jobs[i].path in queues[m].inFlight && queues[m].inFlight[queues[n].jobs[i].path] == i
    decreases m
  {
    LeadsKeepsInv(queues, events, m);
    if n < m {
      LeadsKeepsInv(queues, events, m - 1);
      AbandonedForGood(queues, events, n, m - 1, i);
      assert IsStep(queues[m - 1], events[m - 1], queues[m - 1 + 1]);
      AbandonedJobStays(queues[m - 1], events[m - 1], i);
    }
  }

  /** Some events retire the job, which removes its entry from the registry. */
  ghost predicate CanBeRetired(q: Queue, i: int) {
    exists queues, events :: Retires(queues, events, i) && queues[0] == q
  }

  ghost predicate Retires(queues: seq<Queue>, events: seq<Event>, i: int) {
    Leads(queues, events) && i in queues[|events|].jobs && queues[|events|].jobs[i].retired
  }

  lemma OneEventEarlier(q: Queue, e: Event, i: int)
    requires Inv(q) && Enabled(q, e) && CanBeRetired(Apply(q, e), i)
    ensures CanBeRetired(q, i)
  {
    var queues, events :| Retires(queues, events, i) && queues[0] == Apply(q, e);
    var more, first := [q] + queues, [e] + events;
    forall n | 0 <= n < |first| ensures IsStep(more[n], first[n], more[n + 1]) {
      if n > 0 { assert IsStep(queues[n - 1], events[n - 1], queues[n - 1 + 1]); }
    }
    assert more[|first|] == queues[|events|];
    assert Retires(more, first, i);
  }

  /** What is left to be done for a job: claim, begin, finish, retire. */
  function Stages(j: Job): nat {
    if j.retired then 0 else if j.future != Open then 1 else if j.active > 0 then 2 else if j.owed > 0 then 3 else 4
  }

  function NextEvent(i: int, j: Job): Event {
    if j.future != Open then Retire(i)
    else if j.active > 0 then Finish(i, Resolved)
    else if j.owed > 0 then Begin(i)
    else Claim(i)
  }

  lemma NextEventAdvances(q: Queue, i: int)
    requires Inv(q) && i in q.jobs && !q.jobs[i].retired && !q.jobs[i].abandoned
    ensures var e := NextEvent(i, q.jobs[i]);
            && Enabled(q, e) && i in Apply(q, e).jobs && !Apply(q, e).jobs[i].abandoned
            && Stages(Apply(q, e).jobs[i]) < Stages(q.jobs[i])
  {
  }

  lemma {:induction false} RunnerGetsThere(q: Queue, i: int)
    requires Inv(q) && i in q.jobs && !q.jobs[i].abandoned
    ensures CanBeRetired(q, i)
    decreases Stages(q.jobs[i])
  {
    if q.jobs[i].retired {
      assert Retires([q], [], i);
    } else {
      var e := NextEvent(i, q.jobs[i]);
      NextEventAdvances(q, i);
      EventKeepsInv(q, e);
      RunnerGetsThere(Apply(q, e), i);
      OneEventEarlier(q, e, i);
    }
  }

  /** An entry can still leave the registry if and only if the runner of its job was not cancelled. */
  lemma LeaksIffAbandoned(queues: seq<Queue>, events: seq<Event>, n: nat, i: int)
    requires IsRun(queues, events) && n < |queues| && i in queues[n].jobs
    ensures CanBeRetired(queues[n], i) <==> !queues[n].jobs[i].abandoned
  {
    EveryRunKeepsInv(queues, events, n);
    if !queues[n].jobs[i].abandoned { RunnerGetsThere(queues[n], i); }
    if CanBeRetired(queues[n], i) {
      var later, more :| Retires(later, more, i) && later[0] == queues[n];
      LeadsKeepsInv(later, more, |more|);
      if queues[n].jobs[i].abandoned { AbandonedForGood(later, more, 0, |more|, i); }
    }
  }

  /** Three events are enough: a submission, a claim by a runner, and its cancellation. */
  lemma RunnerIsCancelled(path: Path, events: seq<Event>) returns (queues: seq<Queue>)
    requires events == [Submit(path), Claim(-1), Abandon(-1)]
    ensures IsRun(queues, events) && -1 in queues[3].jobs && queues[3].jobs[-1].abandoned
    ensures queues[3].inFlight == map[path := -1] && !CanBeRetired(queues[3], -1)
  {
    var a := Apply(EMPTY, events[0]);
    var b := Apply(a, events[1]);
    var c := Apply(b, events[2]);
    queues := [EMPTY, a, b, c];
    assert IsStep(EMPTY, events[0], a) && IsStep(a, events[1], b) && IsStep(b, events[2], c);
    LeaksIffAbandoned(queues, events, 3, -1);
  }

  lemma {:induction false} PopEffect(q: Queue, i: int)
    requires Inv(q) && i in q.jobs
    ensures Popped(q).0.inFlight == q.inFlight && Popped(q).0.jobs.Keys == q.jobs.Keys
    ensures Popped(q).0.counter == q.counter && Popped(q).0.clashes == q.clashes
    ensures Popped(q).0.jobs[i] == if Popped(q).1 == Some(i) then Won(q.jobs[i]) else q.jobs[i]
    ensures Popped(q).1 == Some(i) ==> !q.jobs[i].started && i in q.queue
    ensures Popped(q).1 == None ==> q.jobs[i].started && Popped(q).0.queue == []
    decreases |q.queue|
  {
    if q.queue == [] {
      assert i !in q.queue;
    } else {
      var h, rest := q.queue[0], q.(queue := q.queue[1..]);
      if q.jobs[h].started {
        DequeueKeepsInv(q);
        PopEffect(rest, i);
      }
    }
  }

  // ---- The queue as it is updated in place ----

  class HashQueue {
    var jobs: map<int, Job>
    var queue: seq<int>
    var inFlight: map<Path, int>
    var counter: int
    ghost var clashes: nat

    ghost function State(): Queue
      reads this
    {
      Queue(jobs, queue, inFlight, counter, clashes)
    }

    constructor ()
      ensures State() == EMPTY && Inv(State())
    {
      jobs, queue, inFlight, counter, clashes := map[], [], map[], 0, 0;
    }

    method SubmitJob(path: Path) returns (i: int)
      requires Inv(State())
      modifies this
      ensures State() == Submitted(old(State()), path) && Inv(State())
      ensures i in jobs && jobs[i].path == path && !jobs[i].retired
      ensures path in inFlight && inFlight[path] == i
    {
      SubmitKeepsInv(State(), path);
      if path in inFlight {
        return inFlight[path];
      }
      counter := counter - 1;
      inFlight := inFlight[path := counter];
      jobs := jobs[counter := NewJob(path)];
      queue := queue + [counter];
      i := counter;
    }

    method ClaimJob(i: int) returns (won: bool)
      requires i in jobs
      modifies `jobs
      ensures won <==> !old(jobs)[i].started
      ensures State() == Claimed(old(State()), i)
    {
      if jobs[i].started {
        return false;
      }
      jobs := jobs[i := Won(jobs[i])];
      won := true;
    }

    method PopNowait() returns (r: Option<int>)
      requires QueueKnown(State())
      modifies this
      ensures (State(), r) == Popped(old(State()))
    {
      while queue != []
        invariant QueueKnown(State())
        invariant Popped(State()) == Popped(old(State()))
        decreases |queue|
      {
        var i := queue[0];
        queue := queue[1..];
        var won := ClaimJob(i);
        if won {
          return Some(i);
        }
      }
      r := None;
    }

    method JobDone(i: int)
      requires i in jobs
      modifies this
      ensures State() == Retired(old(State()), i)
    {
      inFlight := inFlight - {jobs[i].path};
      jobs := jobs[i := jobs[i].(retired := true)];
    }

    method ShutdownQueue()
      requires QueueKnown(State())
      modifies this
      ensures State() == Drained(old(State()))
    {
      while queue != []
        invariant QueueKnown(State())
        invariant Drained(State()) == Drained(old(State()))
        decreases |queue|
      {
        var i := queue[0];
        queue := queue[1..];
        if !jobs[i].started {
          jobs := jobs[i := Dropped(jobs[i])];
        }
      }
    }
  }
}
