/** tools/analyze_perf.py: the sweep over job events that measures how many jobs run at a time. */
module ConcurrencySweep {
  import opened Basics

  datatype Event = Event(time: int, isStart: bool, job: int)

  datatype Interval = Interval(start: int, end: int, active: set<int>)

  /** The tuples are sorted by time, then ends before starts, then by job. */
  predicate Before(a: Event, b: Event) {
    || a.time < b.time
    || (a.time == b.time && ((!a.isStart && b.isStart) || (a.isStart == b.isStart && a.job <= b.job)))
  }

  predicate Sorted(es: seq<Event>) {
    forall i, j :: 0 <= i < j < |es| ==> Before(es[i], es[j])
  }

  function Insert(e: Event, es: seq<Event>): (r: seq<Event>)
    ensures multiset(r) == multiset{e} + multiset(es)
  {
    if es == [] || Before(e, es[0]) then [e] + es
    else
      assert es == [es[0]] + es[1..];
      [es[0]] + Insert(e, es[1..])
  }

  function Sort(es: seq<Event>): (r: seq<Event>)
    ensures multiset(r) == multiset(es)
  {
    if es == [] then []
    else
      assert es == [es[0]] + es[1..];
      Insert(es[0], Sort(es[1..]))
  }

  lemma {:induction false} InsertSorts(e: Event, es: seq<Event>)
    requires Sorted(es)
    ensures Sorted(Insert(e, es))
  {
    if es != [] && !Before(e, es[0]) {
      InsertSorts(e, es[1..]);
      var r := Insert(e, es[1..]);
      forall k | 0 <= k < |r| ensures Before(es[0], r[k]) {
        assert r[k] in multiset(r);
        assert r[k] == e || r[k] in es[1..];
      }
    }
  }

  lemma {:induction false} SortSorts(es: seq<Event>)
    ensures Sorted(Sort(es))
  {
    if es != [] {
      SortSorts(es[1..]);
      InsertSorts(es[0], Sort(es[1..]));
    }
  }

  // ---- Specification ----

  /** The jobs that started and did not end, after these events. */
  function ActiveAfter(es: seq<Event>): set<int> {
    if es == [] then {}
    else
      var e := es[|es| - 1];
      if e.isStart then ActiveAfter(es[..|es| - 1]) + {e.job} else ActiveAfter(es[..|es| - 1]) - {e.job}
  }

  function LastTime(es: seq<Event>): int
    requires es != []
  {
    es[|es| - 1].time
  }

  /** An interval for every two successive times, with the jobs that are active in between. */
  function Intervals(es: seq<Event>): seq<Interval> {
    if |es| <= 1 then []
    else
      var init, e := es[..|es| - 1], es[|es| - 1];
      Intervals(init) + if e.time > LastTime(init) then [Interval(LastTime(init), e.time, ActiveAfter(init))] else []
  }

  lemma OneMoreEvent(es: seq<Event>, i: nat)
    requires i < |es|
    ensures ActiveAfter(es[..i + 1]) ==
              if es[i].isStart then ActiveAfter(es[..i]) + {es[i].job} else ActiveAfter(es[..i]) - {es[i].job}
    ensures Intervals(es[..i + 1]) ==
              if i > 0 && es[i].time > es[i - 1].time
              then Intervals(es[..i]) + [Interval(es[i - 1].time, es[i].time, ActiveAfter(es[..i]))]
              else Intervals(es[..i])
  {
    assert es[..i + 1][..i] == es[..i] && es[..i + 1][i] == es[i];
  }

  method BuildIntervals(rows: seq<Event>) returns (intervals: seq<Interval>, stillOpen: set<int>)
    ensures intervals == Intervals(Sort(rows)) && stillOpen == ActiveAfter(Sort(rows))
  {
    var events := Sort(rows);
    intervals, stillOpen := [], {};
    var prev: Option<int> := None;
    for i := 0 to |events|
      invariant intervals == Intervals(events[..i]) && stillOpen == ActiveAfter(events[..i])
      invariant prev == if i == 0 then None else Some(events[i - 1].time)
    {
      OneMoreEvent(events, i);
      var e := events[i];
      if prev.Some? && e.time > prev.value {
        intervals := intervals + [Interval(prev.value, e.time, stillOpen)];
      }
      stillOpen := if e.isStart then stillOpen + {e.job} else stillOpen - {e.job};
      prev := Some(e.time);
    }
    assert events[..|events|] == events;
  }

  // ---- The intervals tile the time of the events ----

  lemma {:induction false} IntervalsTile(es: seq<Event>)
    requires Sorted(es) && es != []
    ensures forall k :: 0 <= k < |Intervals(es)| ==> Intervals(es)[k].start < Intervals(es)[k].end
    ensures forall k :: 0 <= k < |Intervals(es)| - 1 ==> Intervals(es)[k].end == Intervals(es)[k + 1].start
    ensures Intervals(es) != [] ==>
              Intervals(es)[0].start == es[0].time && Intervals(es)[|Intervals(es)| - 1].end == LastTime(es)
    ensures Intervals(es) == [] ==> es[0].time == LastTime(es)
  {
    if |es| > 1 {
      var init := es[..|es| - 1];
      IntervalsTile(init);
      assert Before(es[|es| - 2], es[|es| - 1]);
    }
  }

  // ---- Jobs with one start and at most one later end ----

  predicate IsEndOf(e: Event, job: int) { !e.isStart && e.job == job }

  predicate IsStartOf(e: Event, job: int) { e.isStart && e.job == job }

  ghost predicate HasStart(es: seq<Event>, job: int) {
    exists k :: 0 <= k < |es| && IsStartOf(es[k], job)
  }

  ghost predicate HasEnd(es: seq<Event>, job: int) {
    exists k :: 0 <= k < |es| && IsEndOf(es[k], job)
  }

  predicate SameSlot(a: Event, b: Event) { a.isStart == b.isStart && a.job == b.job }

  ghost predicate NoRepeat(es: seq<Event>) {
    forall i, j :: 0 <= i < j < |es| ==> !SameSlot(es[i], es[j])
  }

  ghost predicate StartsBefore(es: seq<Event>, end: Event) {
    exists i :: 0 <= i < |es| && IsStartOf(es[i], end.job) && es[i].time < end.time
  }

  /** No job starts or ends twice, and every end has a strictly earlier start. */
  ghost predicate OneRunEach(es: seq<Event>) {
    NoRepeat(es) && forall k :: 0 <= k < |es| && !es[k].isStart ==> StartsBefore(es, es[k])
  }

  lemma TimesOrdered(es: seq<Event>)
    requires Sorted(es)
    ensures forall j, k :: 0 <= j <= k < |es| ==> es[j].time <= es[k].time
  {
    forall j, k | 0 <= j <= k < |es| ensures es[j].time <= es[k].time {
      if j < k { assert Before(es[j], es[k]); }
    }
  }

  lemma StartOf(es: seq<Event>, k: nat) returns (i: nat)
    requires Sorted(es) && OneRunEach(es) && k < |es| && !es[k].isStart
    ensures i < k && IsStartOf(es[i], es[k].job) && es[i].time < es[k].time
  {
    assert StartsBefore(es, es[k]);
    i :| 0 <= i < |es| && IsStartOf(es[i], es[k].job) && es[i].time < es[k].time;
    TimesOrdered(es);
  }

  lemma PrefixRuns(es: seq<Event>)
    requires Sorted(es) && OneRunEach(es) && es != []
    ensures Sorted(es[..|es| - 1]) && OneRunEach(es[..|es| - 1])
  {
    var init := es[..|es| - 1];
    forall k | 0 <= k < |init| && !init[k].isStart ensures StartsBefore(init, init[k]) {
      var i := StartOf(es, k);
      assert IsStartOf(init[i], init[k].job);
    }
  }

  lemma LastIsEnd(es: seq<Event>)
    requires Sorted(es) && OneRunEach(es) && es != [] && !es[|es| - 1].isStart
    ensures HasStart(es[..|es| - 1], es[|es| - 1].job) && !HasEnd(es[..|es| - 1], es[|es| - 1].job)
  {
    var i := StartOf(es, |es| - 1);
    assert IsStartOf(es[..|es| - 1][i], es[|es| - 1].job);
  }

  lemma LastIsStart(es: seq<Event>)
    requires Sorted(es) && OneRunEach(es) && es != [] && es[|es| - 1].isStart
    ensures !HasStart(es[..|es| - 1], es[|es| - 1].job) && !HasEnd(es[..|es| - 1], es[|es| - 1].job)
  {
    var n := |es| - 1;
    if k :| 0 <= k < n && IsEndOf(es[..n][k], es[n].job) {
      var i := StartOf(es, k);
    }
  }

  lemma OneRunPrefix(es: seq<Event>)
    requires Sorted(es) && OneRunEach(es) && es != []
    ensures Sorted(es[..|es| - 1]) && OneRunEach(es[..|es| - 1])
    ensures !HasEnd(es[..|es| - 1], es[|es| - 1].job)
    ensures HasStart(es[..|es| - 1], es[|es| - 1].job) <==> !es[|es| - 1].isStart
  {
    PrefixRuns(es);
    if es[|es| - 1].isStart { LastIsStart(es); } else { LastIsEnd(es); }
  }

  /** The set of the sweep holds exactly the jobs that have a start and no end so far. */
  lemma {:induction false} ActiveMeans(es: seq<Event>, job: int)
    requires Sorted(es) && OneRunEach(es)
    ensures job in ActiveAfter(es) <==> HasStart(es, job) && !HasEnd(es, job)
  {
    if es != [] {
      var init, e := es[..|es| - 1], es[|es| - 1];
      OneRunPrefix(es);
      ActiveMeans(init, job);
      HasSnoc(init, e, job);
      assert es == init + [e];
    }
  }

  lemma HasSnoc(es: seq<Event>, e: Event, job: int)
    ensures HasStart(es + [e], job) <==> HasStart(es, job) || IsStartOf(e, job)
    ensures HasEnd(es + [e], job) <==> HasEnd(es, job) || IsEndOf(e, job)
  {
    var all := es + [e];
    assert all[|es|] == e && forall k :: 0 <= k < |es| ==> all[k] == es[k];
    if HasStart(es, job) {
      var k :| 0 <= k < |es| && IsStartOf(es[k], job);
      assert IsStartOf(all[k], job);
    }
    if HasEnd(es, job) {
      var k :| 0 <= k < |es| && IsEndOf(es[k], job);
      assert IsEndOf(all[k], job);
    }
  }

  /** A job covers an interval when it started before or at its start and does not end before its end. */
  ghost predicate Covers(es: seq<Event>, job: int, v: Interval) {
    && (exists k :: 0 <= k < |es| && IsStartOf(es[k], job) && es[k].time <= v.start)
    && (forall k :: 0 <= k < |es| && IsEndOf(es[k], job) ==> es[k].time >= v.end)
  }

  /** Every interval lists exactly the jobs that cover it. */
  lemma {:induction false} IntervalListsItsJobs(es: seq<Event>, n: nat, job: int)
    requires Sorted(es) && OneRunEach(es) && n < |Intervals(es)|
    ensures job in Intervals(es)[n].active <==> Covers(es, job, Intervals(es)[n])
  {
    var init, e := es[..|es| - 1], es[|es| - 1];
    var v := Intervals(es)[n];
    OneRunPrefix(es);
    assert es == init + [e];
    assert Before(es[|es| - 2], e);
    IntervalsTile(es);
    if n < |Intervals(init)| {
      IntervalListsItsJobs(init, n, job);
      IntervalsTile(init);
      EndsInTime(init, n);
      LaterEventIsOutside(init, e, job, v);
    } else {
      ActiveMeans(init, job);
      LastInterval(init, e, job, v);
    }
  }

  lemma {:induction false} EndsInTime(es: seq<Event>, n: nat)
    requires Sorted(es) && n < |Intervals(es)|
    ensures Intervals(es)[n].end <= LastTime(es)
  {
    var init := es[..|es| - 1];
    assert Before(es[|es| - 2], es[|es| - 1]);
    if n < |Intervals(init)| { EndsInTime(init, n); }
  }

  lemma LaterEventIsOutside(es: seq<Event>, e: Event, job: int, v: Interval)
    requires es != [] && v.start < v.end <= LastTime(es) <= e.time
    ensures Covers(es + [e], job, v) <==> Covers(es, job, v)
  {
    var all := es + [e];
    assert all[|es|] == e && forall k :: 0 <= k < |es| ==> all[k] == es[k];
    if Covers(es, job, v) {
      var k :| 0 <= k < |es| && IsStartOf(es[k], job) && es[k].time <= v.start;
      assert IsStartOf(all[k], job);
    }
  }

  lemma LastInterval(es: seq<Event>, e: Event, job: int, v: Interval)
    requires es != [] && Sorted(es) && v.start == LastTime(es) && v.end == e.time && v.start < v.end
    ensures Covers(es + [e], job, v) <==> HasStart(es, job) && !HasEnd(es, job)
  {
    var all := es + [e];
    assert all[|es|] == e && forall k :: 0 <= k < |es| ==> all[k] == es[k];
    forall k | 0 <= k < |es| ensures es[k].time <= v.start {
      if k < |es| - 1 { assert Before(es[k], es[|es| - 1]); }
    }
    if HasStart(es, job) {
      var k :| 0 <= k < |es| && IsStartOf(es[k], job);
      assert IsStartOf(all[k], job) && all[k].time <= v.start;
    }
    if HasEnd(es, job) {
      var k :| 0 <= k < |es| && IsEndOf(es[k], job);
      assert IsEndOf(all[k], job) && all[k].time < v.end;
    }
  }

  // ---- Conservation of job time ----

  /** When a job ended, or `now` when it did not. */
  function EndTime(es: seq<Event>, job: int, now: int): int {
    if es == [] then now
    else if IsEndOf(es[|es| - 1], job) then es[|es| - 1].time
    else EndTime(es[..|es| - 1], job, now)
  }

  /** The summed length of the jobs that start in `starts`; the open ones last until `now`. */
  function JobTime(starts: seq<Event>, es: seq<Event>, now: int): int {
    if starts == [] then 0
    else
      var e := starts[|starts| - 1];
      JobTime(starts[..|starts| - 1], es, now) + if e.isStart then EndTime(es, e.job, now) - e.time else 0
  }

  function Weight(vs: seq<Interval>): int {
    if vs == [] then 0
    else
      var v := vs[|vs| - 1];
      Weight(vs[..|vs| - 1]) + |v.active| * (v.end - v.start)
  }

  /** The jobs of these starts that have not ended. */
  ghost function OpenJobs(starts: seq<Event>, es: seq<Event>): set<int> {
    if starts == [] then {}
    else
      var e := starts[|starts| - 1];
      OpenJobs(starts[..|starts| - 1], es) + if e.isStart && !HasEnd(es, e.job) then {e.job} else {}
  }

  lemma {:induction false} OpenJobsMeans(starts: seq<Event>, es: seq<Event>, job: int)
    ensures job in OpenJobs(starts, es) <==> HasStart(starts, job) && !HasEnd(es, job)
  {
    if starts != [] {
      var n := |starts| - 1;
      OpenJobsMeans(starts[..n], es, job);
      HasSnoc(starts[..n], starts[n], job);
      assert starts == starts[..n] + [starts[n]];
    }
  }

  lemma {:induction false} EndTimeMeans(es: seq<Event>, job: int, x: int, y: int)
    ensures EndTime(es, job, y) - EndTime(es, job, x) == if HasEnd(es, job) then 0 else y - x
  {
    if es != [] {
      var n := |es| - 1;
      EndTimeMeans(es[..n], job, x, y);
      HasSnoc(es[..n], es[n], job);
      assert es == es[..n] + [es[n]];
    }
  }

  /** As time passes, every open job grows. */
  lemma {:induction false} OpenJobsGrow(starts: seq<Event>, es: seq<Event>, x: int, y: int)
    requires NoRepeat(starts)
    ensures JobTime(starts, es, y) - JobTime(starts, es, x) == |OpenJobs(starts, es)| * (y - x)
  {
    if starts != [] {
      var init, e := starts[..|starts| - 1], starts[|starts| - 1];
      OpenJobsGrow(init, es, x, y);
      if e.isStart {
        EndTimeMeans(es, e.job, x, y);
        OpenJobsMeans(init, es, e.job);
        assert !HasStart(init, e.job);
        if !HasEnd(es, e.job) {
          assert |OpenJobs(starts, es)| == |OpenJobs(init, es)| + 1;
          OneMore(|OpenJobs(init, es)|, y - x);
        }
      }
    }
  }

  lemma OneMore(a: int, b: int)
    ensures (a + 1) * b == a * b + b
  {
  }

  /** An event at the current time changes no length: a job that starts has length zero, one that ends stops growing. */
  lemma {:induction false} EventChangesNothing(starts: seq<Event>, es: seq<Event>, e: Event)
    requires e.isStart || !HasEnd(es, e.job)
    ensures JobTime(starts, es + [e], e.time) == JobTime(starts, es, e.time)
  {
    assert (es + [e])[..|es|] == es;
    if starts != [] {
      var s := starts[|starts| - 1];
      EventChangesNothing(starts[..|starts| - 1], es, e);
      if IsEndOf(e, s.job) { EndTimeIsNow(es, s.job, e.time); }
    }
  }

  lemma {:induction false} EndTimeIsNow(es: seq<Event>, job: int, now: int)
    requires !HasEnd(es, job)
    ensures EndTime(es, job, now) == now
  {
    if es != [] {
      var n := |es| - 1;
      HasSnoc(es[..n], es[n], job);
      assert es == es[..n] + [es[n]];
      EndTimeIsNow(es[..n], job, now);
    }
  }

  lemma ActiveIsOpen(es: seq<Event>)
    requires Sorted(es) && OneRunEach(es)
    ensures ActiveAfter(es) == OpenJobs(es, es)
  {
    forall job ensures job in ActiveAfter(es) <==> job in OpenJobs(es, es) {
      ActiveMeans(es, job);
      OpenJobsMeans(es, es, job);
    }
  }

  lemma WeightAppend(vs: seq<Interval>, v: Interval)
    ensures Weight(vs + [v]) == Weight(vs) + |v.active| * (v.end - v.start)
  {
    assert (vs + [v])[..|vs|] == vs;
  }

  lemma WeightUntil(vs: seq<Interval>, active: set<int>, last: int, time: int)
    requires last <= time
    ensures Weight(vs + if time > last then [Interval(last, time, active)] else []) == Weight(vs) + |active| * (time - last)
  {
    if time > last {
      WeightAppend(vs, Interval(last, time, active));
    } else {
      assert vs + [] == vs;
      NoTime(|active|, time - last);
    }
  }

  lemma NoTime(a: int, b: int)
    requires b == 0
    ensures a * b == 0
  {
  }

  lemma IntervalsStep(init: seq<Event>, e: Event)
    requires init != []
    ensures Intervals(init + [e]) ==
              Intervals(init) + if e.time > LastTime(init) then [Interval(LastTime(init), e.time, ActiveAfter(init))] else []
  {
    assert (init + [e])[..|init|] == init;
  }

  /** The weight of the intervals after one more event. */
  lemma WeightStep(init: seq<Event>, e: Event)
    requires init != [] && LastTime(init) <= e.time
    ensures Weight(Intervals(init + [e])) == Weight(Intervals(init)) + |ActiveAfter(init)| * (e.time - LastTime(init))
  {
    IntervalsStep(init, e);
    WeightUntil(Intervals(init), ActiveAfter(init), LastTime(init), e.time);
  }

  /** One more event leaves the summed length as it was when the event happened. */
  lemma JobTimeStep(init: seq<Event>, e: Event)
    requires !HasEnd(init, e.job)
    ensures JobTime(init + [e], init + [e], e.time) == JobTime(init, init, e.time)
  {
    var es := init + [e];
    assert es[..|init|] == init && es[|init|] == e;
    EventChangesNothing(init, init, e);
    if e.isStart {
      HasSnoc(init, e, e.job);
      EndTimeIsNow(es, e.job, e.time);
    }
  }

  lemma Prefix(es: seq<Event>)
    requires es != []
    ensures es == es[..|es| - 1] + [es[|es| - 1]]
  {
  }

  lemma JobTimeGrows(es: seq<Event>, now: int)
    requires Sorted(es) && OneRunEach(es) && es != []
    ensures JobTime(es, es, now) == JobTime(es, es, LastTime(es)) + |ActiveAfter(es)| * (now - LastTime(es))
  {
    ActiveIsOpen(es);
    OpenJobsGrow(es, es, LastTime(es), now);
  }

  lemma ConservationStep(init: seq<Event>, e: Event)
    requires init != [] && Sorted(init) && OneRunEach(init) && LastTime(init) <= e.time && !HasEnd(init, e.job)
    requires Weight(Intervals(init)) == JobTime(init, init, LastTime(init))
    ensures Weight(Intervals(init + [e])) == JobTime(init + [e], init + [e], e.time)
  {
    JobTimeStep(init, e);
    JobTimeGrows(init, e.time);
    WeightStep(init, e);
  }

  lemma OneEvent(e: Event)
    ensures Weight(Intervals([e])) == 0 && JobTime([e], [e], e.time) == 0
  {
    assert [e] == [] + [e];
    assert !HasEnd([], e.job);
    JobTimeStep([], e);
  }

  /** Number of active jobs times length, summed over all intervals, is the summed length of all jobs. */
  lemma {:induction false} JobTimeIsConserved(es: seq<Event>)
    requires Sorted(es) && OneRunEach(es) && es != []
    ensures Weight(Intervals(es)) == JobTime(es, es, LastTime(es))
  {
    var init, e := es[..|es| - 1], es[|es| - 1];
    Prefix(es);
    if init == [] {
      assert es == [e];
      OneEvent(e);
    } else {
      OneRunPrefix(es);
      TimesOrdered(es);
      JobTimeIsConserved(init);
      ConservationStep(init, e);
    }
  }

  // ---- In terms of the rows as they come ----

  lemma {:induction false} InsertNoRepeat(e: Event, es: seq<Event>)
    requires NoRepeat(es) && forall k :: 0 <= k < |es| ==> !SameSlot(e, es[k])
    ensures NoRepeat(Insert(e, es))
  {
    if es != [] && !Before(e, es[0]) {
      InsertNoRepeat(e, es[1..]);
      var r := Insert(e, es[1..]);
      forall k | 0 <= k < |r| ensures !SameSlot(es[0], r[k]) {
        assert r[k] in multiset(r);
        assert r[k] == e || r[k] in es[1..];
      }
    }
  }

  lemma {:induction false} SortNoRepeat(es: seq<Event>)
    requires NoRepeat(es)
    ensures NoRepeat(Sort(es))
  {
    if es != [] {
      SortNoRepeat(es[1..]);
      var r := Sort(es[1..]);
      forall k | 0 <= k < |r| ensures !SameSlot(es[0], r[k]) {
        assert r[k] in multiset(r);
        assert r[k] in es[1..];
      }
      InsertNoRepeat(es[0], r);
    }
  }

  lemma SameMembers(a: seq<Event>, b: seq<Event>, e: Event)
    requires multiset(a) == multiset(b) && e in a
    ensures exists i :: 0 <= i < |b| && b[i] == e
  {
    assert e in multiset(a);
  }

  lemma SortKeepsRuns(rows: seq<Event>)
    requires OneRunEach(rows)
    ensures OneRunEach(Sort(rows))
  {
    var es := Sort(rows);
    SortNoRepeat(rows);
    forall k | 0 <= k < |es| && !es[k].isStart ensures StartsBefore(es, es[k]) {
      SameMembers(es, rows, es[k]);
      var n :| 0 <= n < |rows| && rows[n] == es[k];
      assert StartsBefore(rows, rows[n]);
      var m :| 0 <= m < |rows| && IsStartOf(rows[m], rows[n].job) && rows[m].time < rows[n].time;
      SameMembers(rows, es, rows[m]);
    }
  }

  /**
   * For any rows in which each job starts once and ends at most once, later: the intervals add up to the
   * time of all jobs, and each lists the jobs that cover it.
   */
  lemma SweepIsFaithful(rows: seq<Event>, n: nat, job: int)
    requires OneRunEach(rows) && rows != []
    ensures Sort(rows) != [] && Weight(Intervals(Sort(rows))) == JobTime(Sort(rows), Sort(rows), LastTime(Sort(rows)))
    ensures n < |Intervals(Sort(rows))| ==>
              (job in Intervals(Sort(rows))[n].active <==> Covers(Sort(rows), job, Intervals(Sort(rows))[n]))
  {
    var es := Sort(rows);
    SortSorts(rows);
    SortKeepsRuns(rows);
    assert |multiset(es)| == |multiset(rows)|;
    JobTimeIsConserved(es);
    if n < |Intervals(es)| { IntervalListsItsJobs(es, n, job); }
  }
}
