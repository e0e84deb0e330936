/** scheduler.py: the start and stop times that decide whether a late dynamic input is fresh. */
module Timings {
  import opened Basics

  type Id = int

  datatype Times = Times(start: map<Id, int>, stop: map<Id, int>)

  datatype Event =
    | Started(step: Id, now: int)
    | Stopped(step: Id, succeeded: bool, now: int)

  /** The answer of `ran_concurrently`; a tie counts as overlapping. */
  predicate Concurrent(t: Times, producer: Id, consumer: Id) {
    producer in t.stop && consumer in t.start && t.start[consumer] <= t.stop[producer]
  }

  /** What the bookkeeping would be if nothing were ever forgotten. */
  function Record(t: Times, e: Event): Times {
    match e
    case Started(i, now) => t.(start := t.start[i := now])
    case Stopped(i, succeeded, now) =>
      Times(t.start - {i}, if succeeded then t.stop[i := now] else t.stop)
  }

  /** The stop times that `record_run_stopped` keeps. */
  function Pruned(t: Times): Times {
    t.(stop := map p | p in t.stop && (exists c | c in t.start :: t.start[c] <= t.stop[p]) :: t.stop[p])
  }

  function RecordAndPrune(t: Times, e: Event): Times {
    if e.Stopped? then Pruned(Record(t, e)) else Record(t, e)
  }

  const EMPTY := Times(map[], map[])

  function FullHistory(events: seq<Event>): Times {
    if events == [] then EMPTY else Record(FullHistory(events[..|events| - 1]), events[|events| - 1])
  }

  function Kept(events: seq<Event>): Times {
    if events == [] then EMPTY else RecordAndPrune(Kept(events[..|events| - 1]), events[|events| - 1])
  }

  /** A monotone clock that moves on between a successful stop and any later start. */
  predicate Clocked(events: seq<Event>) {
    && (forall i, j :: 0 <= i < j < |events| ==> events[i].now <= events[j].now)
    && (forall i, j :: 0 <= i < j < |events| && events[i].Stopped? && events[i].succeeded && events[j].Started?
          ==> events[i].now < events[j].now)
  }

  /** What has been forgotten lies before every current start, and before every later one. */
  ghost predicate Forgettable(full: Times, kept: Times) {
    && kept.start == full.start
    && (forall p :: p in kept.stop ==> p in full.stop && kept.stop[p] == full.stop[p])
    && (forall p, c :: p in full.stop && p !in kept.stop && c in full.start ==> full.stop[p] < full.start[c])
  }

  lemma {:induction false} StopsAreEvents(events: seq<Event>, p: Id) returns (k: nat)
    requires p in FullHistory(events).stop
    ensures k < |events| && events[k] == Stopped(p, true, FullHistory(events).stop[p])
  {
    var n := |events| - 1;
    var before := events[..n];
    if events[n].Stopped? && events[n].succeeded && events[n].step == p {
      k := n;
    } else {
      k := StopsAreEvents(before, p);
    }
  }

  lemma {:induction false} KeptForgettable(events: seq<Event>)
    requires Clocked(events)
    ensures Forgettable(FullHistory(events), Kept(events))
  {
    if events != [] {
      var n := |events| - 1;
      var before, e := events[..n], events[n];
      KeptForgettable(before);
      var full, kept := FullHistory(events), Kept(events);
      if e.Started? {
        forall p | p in full.stop ensures full.stop[p] < e.now {
          var k := StopsAreEvents(before, p);
          assert events[k] == before[k];
        }
      }
    }
  }

  /**
   * Pruning is invisible: for a consumer that is currently started, the kept times answer
   * every question about every producer as the full history would.
   */
  lemma PruningInvisible(events: seq<Event>, producer: Id, consumer: Id)
    requires Clocked(events)
    ensures consumer in Kept(events).start <==> consumer in FullHistory(events).start
    ensures consumer in FullHistory(events).start ==>
              (Concurrent(Kept(events), producer, consumer) <==> Concurrent(FullHistory(events), producer, consumer))
  {
    KeptForgettable(events);
  }

  // ---- Exactly what is forgotten when the clock stands still ----

  predicate Monotone(events: seq<Event>) {
    forall i, j :: 0 <= i <= j < |events| ==> events[i].now <= events[j].now
  }

  /** What is started and stopped after event `k`. */
  function After(events: seq<Event>, k: nat): Times
    requires k < |events|
  {
    FullHistory(events[..k + 1])
  }

  /** The last successful stop of the producer is event `k` or comes before it. */
  predicate NotStoppedAfter(events: seq<Event>, producer: Id, k: nat) {
    forall j :: k < j < |events| ==> !(events[j].Stopped? && events[j].succeeded && events[j].step == producer)
  }

  /** At stop `k` everything that is started was started after the producer's last stop. */
  predicate DropsAt(events: seq<Event>, producer: Id, k: nat)
    requires producer in FullHistory(events).stop
  {
    && k < |events| && events[k].Stopped? && NotStoppedAfter(events, producer, k)
    && forall c :: c in After(events, k).start ==> FullHistory(events).stop[producer] < After(events, k).start[c]
  }

  lemma AfterPrefix(events: seq<Event>, n: nat, k: nat)
    requires k < n <= |events|
    ensures After(events[..n], k) == After(events, k)
  {
    assert events[..n][..k + 1] == events[..k + 1];
  }

  lemma {:induction false} StopUnchanged(events: seq<Event>, producer: Id, k: nat)
    requires k < |events| && producer in FullHistory(events).stop && NotStoppedAfter(events, producer, k)
    ensures producer in After(events, k).stop
    ensures After(events, k).stop[producer] == FullHistory(events).stop[producer]
  {
    var n := |events| - 1;
    if k == n {
      assert events[..n + 1] == events;
    } else {
      assert !(events[n].Stopped? && events[n].succeeded && events[n].step == producer);
      assert NotStoppedAfter(events[..n], producer, k);
      StopUnchanged(events[..n], producer, k);
      AfterPrefix(events, n, k);
    }
  }

  /** A later event drops a stop that was kept only by pruning, and brings it back only by stopping again. */
  lemma DropsAtSnoc(events: seq<Event>, e: Event, producer: Id, k: nat)
    requires producer in FullHistory(events).stop && k < |events|
    requires !(e.Stopped? && e.succeeded && e.step == producer)
    ensures FullHistory(events + [e]).stop.Keys >= {producer}
    ensures DropsAt(events + [e], producer, k) <==> DropsAt(events, producer, k)
  {
    var all := events + [e];
    assert all[..|events|] == events;
    assert FullHistory(all).stop[producer] == FullHistory(events).stop[producer];
    AfterPrefix(all, |events|, k);
    if DropsAt(events, producer, k) {
      assert NotStoppedAfter(all, producer, k);
    }
    if DropsAt(all, producer, k) {
      forall j | k < j < |events|
        ensures !(events[j].Stopped? && events[j].succeeded && events[j].step == producer)
      {
        assert all[j] == events[j];
      }
    }
  }

  /** A stop is missing from the kept times exactly when some later stop dropped it. */
  lemma {:induction false} MissingIffDropped(events: seq<Event>, producer: Id)
    requires producer in FullHistory(events).stop
    ensures Kept(events).start == FullHistory(events).start
    ensures producer !in Kept(events).stop <==> exists k :: DropsAt(events, producer, k)
    ensures producer in Kept(events).stop ==> Kept(events).stop[producer] == FullHistory(events).stop[producer]
  {
    var n := |events| - 1;
    var init, e := events[..n], events[n];
    assert events == init + [e];
    SameStarts(init);
    if e.Stopped? && e.succeeded && e.step == producer {
      LastDrop(events, producer);
    } else {
      MissingIffDropped(init, producer);
      forall k: nat | k < n ensures DropsAt(events, producer, k) <==> DropsAt(init, producer, k) {
        DropsAtSnoc(init, e, producer, k);
      }
      if e.Stopped? { LastDrop(events, producer); }
    }
  }

  lemma {:induction false} SameStarts(events: seq<Event>)
    ensures Kept(events).start == FullHistory(events).start
  {
    if events != [] { SameStarts(events[..|events| - 1]); }
  }

  lemma LastDrop(events: seq<Event>, producer: Id)
    requires events != [] && producer in FullHistory(events).stop
    ensures DropsAt(events, producer, |events| - 1) <==>
              && events[|events| - 1].Stopped?
              && forall c :: c in FullHistory(events).start ==>
                   FullHistory(events).stop[producer] < FullHistory(events).start[c]
  {
    var k := |events| - 1;
    assert events[..k + 1] == events;
    assert After(events, k) == FullHistory(events);
  }

  /** A started step was started at the recorded time, after event `k` or before it. */
  lemma {:induction false} StartedBy(events: seq<Event>, consumer: Id, k: nat) returns (b: nat)
    requires consumer in FullHistory(events).start && k < |events|
    ensures b < |events| && events[b] == Started(consumer, FullHistory(events).start[consumer])
    ensures b <= k ==> consumer in After(events, k).start
                       && After(events, k).start[consumer] == FullHistory(events).start[consumer]
  {
    var n := |events| - 1;
    var init := events[..n];
    assert events[..n + 1] == events;
    if events[n].Started? && events[n].step == consumer {
      b := n;
    } else if k == n {
      b := StartedBy(init, consumer, if n > 0 then n - 1 else 0);
    } else {
      b := StartedBy(init, consumer, k);
      AfterPrefix(events, n, k);
    }
  }

  lemma StartTimesPast(events: seq<Event>, c: Id)
    requires Monotone(events) && c in FullHistory(events).start
    ensures FullHistory(events).start[c] <= events[|events| - 1].now
  {
    var b := StartedBy(events, c, 0);
  }

  /** The answer for the producer is lost at event `k`: no step runs then, and the clock has not moved on. */
  predicate LostAt(events: seq<Event>, producer: Id, consumer: Id, k: nat)
    requires producer in FullHistory(events).stop && consumer in FullHistory(events).start
  {
    && k < |events| && events[k].Stopped? && NotStoppedAfter(events, producer, k)
    && After(events, k).start == map[]
    && FullHistory(events).stop[producer] == FullHistory(events).start[consumer]
  }

  lemma DroppedIsLost(events: seq<Event>, producer: Id, consumer: Id, k: nat)
    requires Monotone(events) && Concurrent(FullHistory(events), producer, consumer) && DropsAt(events, producer, k)
    ensures LostAt(events, producer, consumer, k)
  {
    var v, s := FullHistory(events).stop[producer], FullHistory(events).start[consumer];
    StopUnchanged(events, producer, k);
    var b := StartedBy(events, consumer, k);
    assert b > k;
    var a := StopsAreEvents(events[..k + 1], producer);
    assert events[a] == events[..k + 1][a];
    assert v <= events[k].now <= s;
    forall c | c in After(events, k).start ensures false {
      StartTimesPast(events[..k + 1], c);
    }
  }

  /**
   * For a clock that never runs backwards, the kept times differ from the full history on a started
   * consumer exactly when its start has the time stamp of the producer's last stop, and between the two
   * some stop left no step running.
   */
  lemma ForgottenIff(events: seq<Event>, producer: Id, consumer: Id)
    requires Monotone(events) && consumer in FullHistory(events).start
    ensures Concurrent(Kept(events), producer, consumer) ==> Concurrent(FullHistory(events), producer, consumer)
    ensures producer in FullHistory(events).stop ==>
              ((Concurrent(FullHistory(events), producer, consumer) && !Concurrent(Kept(events), producer, consumer))
               <==> exists k :: LostAt(events, producer, consumer, k))
  {
    SameStarts(events);
    KeptIsPart(events, producer);
    if producer in FullHistory(events).stop {
      MissingIffDropped(events, producer);
      if k :| LostAt(events, producer, consumer, k) {
        assert DropsAt(events, producer, k);
      }
      if Concurrent(FullHistory(events), producer, consumer) && producer !in Kept(events).stop {
        var k :| DropsAt(events, producer, k);
        DroppedIsLost(events, producer, consumer, k);
      }
    }
  }

  lemma {:induction false} KeptIsPart(events: seq<Event>, producer: Id)
    ensures producer in Kept(events).stop ==>
              producer in FullHistory(events).stop && Kept(events).stop[producer] == FullHistory(events).stop[producer]
  {
    if events != [] { KeptIsPart(events[..|events| - 1], producer); }
  }

  // ---- Read off the events ----

  /** The step was started by event `b` and has not stopped, nor was started again, since then. */
  predicate RunsSince(events: seq<Event>, i: Id, b: nat) {
    && b < |events| && events[b].Started? && events[b].step == i
    && forall k :: b < k < |events| ==> events[k].step != i
  }

  predicate SucceedsAt(events: seq<Event>, i: Id, a: nat) {
    a < |events| && events[a].Stopped? && events[a].succeeded && events[a].step == i
  }

  lemma {:induction false} StartTells(events: seq<Event>, i: Id)
    ensures i in FullHistory(events).start <==> exists b: nat :: RunsSince(events, i, b)
    ensures forall b: nat :: RunsSince(events, i, b) ==> FullHistory(events).start[i] == events[b].now
  {
    if events != [] {
      var n := |events| - 1;
      var init, e := events[..n], events[n];
      StartTells(init, i);
      if e.step == i {
        assert e.Started? ==> RunsSince(events, i, n);
      } else {
        forall b: nat ensures RunsSince(events, i, b) <==> RunsSince(init, i, b) { RunsOn(events, i, b); }
      }
    }
  }

  lemma RunsOn(events: seq<Event>, i: Id, b: nat)
    requires events != [] && events[|events| - 1].step != i
    ensures RunsSince(events, i, b) <==> RunsSince(events[..|events| - 1], i, b)
  {
    var init := events[..|events| - 1];
    assert forall k :: 0 <= k < |init| ==> init[k] == events[k];
    if RunsSince(init, i, b) {
      forall k | b < k < |events| ensures events[k].step != i {
        if k < |init| { assert init[k].step != i; }
      }
    }
  }

  lemma {:induction false} StopTells(events: seq<Event>, i: Id)
    requires Monotone(events)
    ensures i in FullHistory(events).stop <==> exists a: nat :: SucceedsAt(events, i, a)
    ensures forall a: nat :: SucceedsAt(events, i, a) ==> events[a].now <= FullHistory(events).stop[i]
  {
    if events != [] {
      var n := |events| - 1;
      var init, e := events[..n], events[n];
      StopTells(init, i);
      forall a: nat | a < n ensures SucceedsAt(events, i, a) <==> SucceedsAt(init, i, a) {}
      if e.Stopped? && e.succeeded && e.step == i { assert SucceedsAt(events, i, n); }
    }
  }

  /**
   * With a monotone clock that moves on between a stop and a later start, a producer ran concurrently with a
   * step that runs now exactly when it succeeded after that step was started, however much was forgotten.
   */
  lemma OverlapIsOrder(events: seq<Event>, producer: Id, consumer: Id)
    requires Clocked(events)
    ensures Concurrent(Kept(events), producer, consumer) <==>
              exists b: nat, a: nat :: RunsSince(events, consumer, b) && b < a && SucceedsAt(events, producer, a)
  {
    PruningInvisible(events, producer, consumer);
    StartTells(events, consumer);
    StopTells(events, producer);
    if Concurrent(FullHistory(events), producer, consumer) {
      var b: nat :| RunsSince(events, consumer, b);
      var a := StopsAreEvents(events, producer);
      assert events[a].now < events[b].now || b < a;
      assert RunsSince(events, consumer, b) && b < a && SucceedsAt(events, producer, a);
    }
    if b: nat, a: nat :| RunsSince(events, consumer, b) && b < a && SucceedsAt(events, producer, a) {
      assert events[b].now <= events[a].now;
    }
  }

  lemma NothingRunning(t: Times)
    requires t.start == map[]
    ensures Pruned(t) == Times(map[], map[])
  {
  }

  /** A producer that stops alone is forgotten by a consumer that starts at the same time. */
  lemma TieIsForgotten(events: seq<Event>, t: int)
    requires events == [Started(1, t - 1), Stopped(1, true, t), Started(2, t)]
    ensures Monotone(events)
    ensures Concurrent(FullHistory(events), 1, 2) && !Concurrent(Kept(events), 1, 2)
  {
    var one, two := events[..1], events[..2];
    assert one[..0] == [] && two[..1] == one;
    assert FullHistory(one) == Times(map[1 := t - 1], map[]);
    assert FullHistory(two) == Times(map[], map[1 := t]);
    assert Kept(one) == FullHistory(one);
    NothingRunning(Record(Kept(one), two[1]));
    assert Kept(two) == Times(map[], map[]);
  }

  /** Dropping what lies before the oldest start is pruning. */
  lemma KeptByOldest(start: map<Id, int>, all: map<Id, int>, oldest: int, kept: map<Id, int>)
    requires exists c :: c in start && start[c] == oldest
    requires forall c :: c in start ==> oldest <= start[c]
    requires kept.Keys <= all.Keys && forall p :: p in kept ==> kept[p] == all[p]
    requires forall p :: p in all ==> (p in kept <==> all[p] >= oldest)
    ensures Pruned(Times(start, all)) == Times(start, kept)
  {
    var pruned := Pruned(Times(start, all)).stop;
    var first :| first in start && start[first] == oldest;
    forall p | p in all ensures p in pruned <==> p in kept {
      if p in kept { assert start[first] <= all[p]; }
    }
    assert forall p :: p in pruned ==> p in all;
    assert forall p :: p in kept ==> p in kept.Keys && p in all.Keys;
    assert pruned.Keys == kept.Keys;
    forall p | p in pruned ensures pruned[p] == kept[p] { assert p in kept.Keys; }
    assert pruned == kept;
  }

  class RunTimes {
    var startTimes: map<Id, int>
    var stopTimes: map<Id, int>
    var runCounter: nat
    ghost var events: seq<Event>

    constructor ()
      ensures Valid() && events == [] && runCounter == 0
    {
      startTimes, stopTimes, runCounter, events := map[], map[], 0, [];
    }

    /** The fields hold what is kept of all events since the build phase began. */
    ghost predicate Valid()
      reads this
    {
      Current() == Kept(events)
    }

    function Current(): Times
      reads this
    {
      Times(startTimes, stopTimes)
    }

    method RecordRunStarted(step: Id, now: int)
      requires Valid()
      modifies this
      ensures Valid() && events == old(events) + [Started(step, now)]
      ensures runCounter == old(runCounter) + 1
    {
      KeptSnoc(events, Started(step, now));
      runCounter := runCounter + 1;
      Start(step, now);
      events := events + [Started(step, now)];
    }

    method RecordRunStopped(step: Id, succeeded: bool, now: int)
      requires Valid()
      modifies this
      ensures Valid() && events == old(events) + [Stopped(step, succeeded, now)]
      ensures runCounter == old(runCounter)
    {
      KeptSnoc(events, Stopped(step, succeeded, now));
      StopAndPrune(step, succeeded, now);
      events := events + [Stopped(step, succeeded, now)];
    }

    method Start(step: Id, now: int)
      modifies `startTimes
      ensures Current() == RecordAndPrune(old(Current()), Started(step, now))
    {
      startTimes := startTimes[step := now];
    }

    method StopAndPrune(step: Id, succeeded: bool, now: int)
      modifies `startTimes, `stopTimes
      ensures Current() == RecordAndPrune(old(Current()), Stopped(step, succeeded, now))
    {
      startTimes := startTimes - {step};
      if succeeded {
        stopTimes := stopTimes[step := now];
      }
      if startTimes == map[] {
        stopTimes := map[];
      } else {
        var oldest := OldestStart();
        ghost var all, starts := stopTimes, startTimes;
        var todo := stopTimes.Keys;
        while todo != {}
          invariant todo <= stopTimes.Keys <= all.Keys && startTimes == starts
          invariant forall p :: p in stopTimes ==> stopTimes[p] == all[p]
          invariant forall p :: p in all && p !in todo ==> (p in stopTimes <==> all[p] >= oldest)
          invariant forall p :: p in todo ==> p in stopTimes
          decreases todo
        {
          var other := Pick(todo);
          todo := todo - {other};
          if stopTimes[other] < oldest {
            stopTimes := stopTimes - {other};
          }
        }
        KeptByOldest(starts, all, oldest, stopTimes);
      }
    }

    method OldestStart() returns (oldest: int)
      requires startTimes != map[]
      ensures exists c :: c in startTimes && startTimes[c] == oldest
      ensures forall c :: c in startTimes ==> oldest <= startTimes[c]
    {
      var todo := startTimes.Keys;
      var first := Pick(todo);
      oldest := startTimes[first];
      while todo != {}
        invariant todo <= startTimes.Keys
        invariant exists c :: c in startTimes && startTimes[c] == oldest
        invariant forall c :: c in startTimes && c !in todo ==> oldest <= startTimes[c]
        decreases todo
      {
        var c := Pick(todo);
        todo := todo - {c};
        if startTimes[c] < oldest {
          oldest := startTimes[c];
        }
      }
    }

    /** For a started consumer and a clock that moves between a stop and a start, the answer of the full history. */
    method RanConcurrently(producer: Id, consumer: Id) returns (overlapped: bool)
      requires Valid()
      ensures Clocked(events) && consumer in FullHistory(events).start ==>
                (overlapped <==> Concurrent(FullHistory(events), producer, consumer))
      ensures Clocked(events) ==>
                (overlapped <==> exists b: nat, a: nat ::
                   RunsSince(events, consumer, b) && b < a && SucceedsAt(events, producer, a))
      ensures Monotone(events) && overlapped ==> Concurrent(FullHistory(events), producer, consumer)
      ensures consumer !in FullHistory(events).start ==> !overlapped
    {
      overlapped := producer in stopTimes && consumer in startTimes && startTimes[consumer] <= stopTimes[producer];
      SameStarts(events);
      KeptIsPart(events, producer);
      if Clocked(events) {
        PruningInvisible(events, producer, consumer);
        OverlapIsOrder(events, producer, consumer);
      }
    }
  }

  lemma KeptSnoc(events: seq<Event>, e: Event)
    ensures Kept(events + [e]) == RecordAndPrune(Kept(events), e)
  {
    assert (events + [e])[..|events|] == events;
  }
}
