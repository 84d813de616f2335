/**
  Weighted durations of build steps.  A sweep over the sorted start and stop events shares
  the elapsed time fairly among the steps that run at the same time.  Times are reals.

  The reference semantics has no sweep: between two successive time stamps, every step
  running across the whole interval gets the same part of its length.
 */
module BuildSweep {
  import opened Basics
  import opened NinjaLog

  datatype Span = Span(start: real, end: real)

  datatype Event = Event(time: real, stop: bool, task: nat)

  // ----- the events ----------------------------------------------------------------

  /** The sort key is (time, "start" or "stop"), so a start precedes a stop at one time. */
  predicate Before(a: Event, b: Event) {
    a.time < b.time || (a.time == b.time && (a.stop ==> b.stop))
  }

  ghost predicate IsSorted(events: seq<Event>) {
    forall i, j :: 0 <= i < j < |events| ==> Before(events[i], events[j])
  }

  function EventsOf(spans: seq<Span>): seq<Event> {
    if spans == [] then []
    else
      var n := |spans| - 1;
      EventsOf(spans[..n]) + [Event(spans[n].start, false, n), Event(spans[n].end, true, n)]
  }

  /** Any order that sorting by the key may give. */
  ghost predicate Schedules(spans: seq<Span>, events: seq<Event>) {
    IsSorted(events) && multiset(events) == multiset(EventsOf(spans))
  }

  function Insert(e: Event, events: seq<Event>): (r: seq<Event>)
    ensures multiset(r) == multiset(events) + multiset{e}
  {
    if events == [] then [e]
    else if Before(e, events[0]) then [e] + events
    else
      assert events == [events[0]] + events[1..];
      [events[0]] + Insert(e, events[1..])
  }

  lemma {:induction false} InsertSorts(e: Event, events: seq<Event>)
    requires IsSorted(events)
    ensures IsSorted(Insert(e, events))
  {
    if events != [] && !Before(e, events[0]) {
      InsertSorts(e, events[1..]);
      var rest := Insert(e, events[1..]);
      forall j | 0 <= j < |rest| ensures Before(events[0], rest[j]) {
        assert rest[j] in multiset(rest);
      }
    }
  }

  function Sort(events: seq<Event>): (r: seq<Event>)
    ensures IsSorted(r) && multiset(r) == multiset(events)
  {
    if events == [] then []
    else
      assert events == [events[0]] + events[1..];
      InsertSorts(events[0], Sort(events[1..]));
      Insert(events[0], Sort(events[1..]))
  }

  lemma {:induction false} EachEventOnce(spans: seq<Span>, e: Event)
    ensures multiset(EventsOf(spans))[e] ==
              if e.task < |spans| && e.time == (if e.stop then spans[e.task].end else spans[e.task].start) then 1 else 0
  {
    if spans != [] {
      EachEventOnce(spans[..|spans| - 1], e);
    }
  }

  /** Where the start and the stop of every task are. */
  ghost predicate Located(spans: seq<Span>, events: seq<Event>, startAt: seq<nat>, stopAt: seq<nat>) {
    && |startAt| == |stopAt| == |spans|
    && (forall i :: 0 <= i < |spans| ==>
          && startAt[i] < |events| && events[startAt[i]] == Event(spans[i].start, false, i)
          && stopAt[i] < |events| && events[stopAt[i]] == Event(spans[i].end, true, i))
    && (forall k :: 0 <= k < |events| ==>
          && events[k].task < |spans|
          && k == (if events[k].stop then stopAt else startAt)[events[k].task])
  }

  lemma Locate(spans: seq<Span>, events: seq<Event>) returns (startAt: seq<nat>, stopAt: seq<nat>)
    requires Schedules(spans, events)
    ensures Located(spans, events, startAt, stopAt)
  {
    startAt := LocateKind(spans, events, false, |spans|);
    stopAt := LocateKind(spans, events, true, |spans|);
    forall k | 0 <= k < |events|
      ensures events[k].task < |spans|
      ensures k == (if events[k].stop then stopAt else startAt)[events[k].task]
    {
      EachEventOnce(spans, events[k]);
      assert events[k] in multiset(events);
      var q := (if events[k].stop then stopAt else startAt)[events[k].task];
      if k < q {
        OccursTwice(events, k, q);
      } else if q < k {
        OccursTwice(events, q, k);
      }
    }
  }

  lemma {:induction false} LocateKind(spans: seq<Span>, events: seq<Event>, stop: bool, n: nat) returns (at: seq<nat>)
    requires Schedules(spans, events) && n <= |spans|
    ensures |at| == n
    ensures forall i :: 0 <= i < n ==>
              && at[i] < |events|
              && events[at[i]] == Event(if stop then spans[i].end else spans[i].start, stop, i)
  {
    if n == 0 {
      at := [];
    } else {
      var rest := LocateKind(spans, events, stop, n - 1);
      var e := Event(if stop then spans[n - 1].end else spans[n - 1].start, stop, n - 1);
      EachEventOnce(spans, e);
      assert e in multiset(events);
      var k :| 0 <= k < |events| && events[k] == e;
      at := rest + [k];
    }
  }

  /** Event k is the start or the stop of one task only. */
  lemma EventOfTask(spans: seq<Span>, events: seq<Event>, startAt: seq<nat>, stopAt: seq<nat>, k: nat)
    requires Located(spans, events, startAt, stopAt) && k < |events|
    ensures forall j :: 0 <= j < |spans| ==> (startAt[j] == k <==> !events[k].stop && j == events[k].task)
    ensures forall j :: 0 <= j < |spans| ==> (stopAt[j] == k <==> events[k].stop && j == events[k].task)
  {
  }

  /** A task stops after it starts exactly when its end is not before its start. */
  lemma StopAfterStart(spans: seq<Span>, events: seq<Event>, startAt: seq<nat>, stopAt: seq<nat>, i: nat)
    requires IsSorted(events) && Located(spans, events, startAt, stopAt) && i < |spans|
    ensures startAt[i] < stopAt[i] <==> spans[i].start <= spans[i].end
  {
    var p, q := startAt[i], stopAt[i];
    assert p < q ==> Before(events[p], events[q]);
    assert q < p ==> Before(events[q], events[p]);
    assert events[p].stop != events[q].stop;
  }

  // ----- the reference: sharing every interval between successive time stamps -------

  function TimesOf(events: seq<Event>): (times: seq<real>)
    ensures |times| == |events| && forall k :: 0 <= k < |events| ==> times[k] == events[k].time
  {
    seq(|events|, k requires 0 <= k < |events| => events[k].time)
  }

  /** The tasks that run during the whole interval. */
  function Running(spans: seq<Span>, from: real, to: real): set<nat> {
    set i: nat | i < |spans| && spans[i].start <= from && to <= spans[i].end
  }

  /** What each of n tasks gets of a time. */
  function Split(d: real, n: nat): real {
    if n == 0 then 0.0 else d / n as real
  }

  /** What each running task gets of the interval that ends at time stamp j. */
  function PartAt(spans: seq<Span>, times: seq<real>, j: nat): real
    requires 1 <= j < |times|
  {
    Split(times[j] - times[j - 1], |Running(spans, times[j - 1], times[j])|)
  }

  function PartsOf(spans: seq<Span>, times: seq<real>): (parts: seq<real>)
    ensures |parts| == |times|
    ensures forall j :: 1 <= j < |times| ==> parts[j] == PartAt(spans, times, j)
  {
    seq(|times|, j requires 0 <= j < |times| => if j == 0 then 0.0 else PartAt(spans, times, j))
  }

  /** What task i gets up to time stamp m, when the parts are as given. */
  function Share(spans: seq<Span>, times: seq<real>, parts: seq<real>, i: nat, m: nat): real
    requires m < |times| == |parts|
  {
    if m == 0 then 0.0
    else
      Share(spans, times, parts, i, m - 1)
      + if i in Running(spans, times[m - 1], times[m]) then parts[m] else 0.0
  }

  /** What task i gets in all. */
  function WeightedDuration(spans: seq<Span>, times: seq<real>, i: nat): real
    requires |times| > 0
  {
    Share(spans, times, PartsOf(spans, times), i, |times| - 1)
  }

  function SumOfShares(spans: seq<Span>, times: seq<real>, parts: seq<real>, n: nat, m: nat): real
    requires m < |times| == |parts|
  {
    if n == 0 then 0.0 else SumOfShares(spans, times, parts, n - 1, m) + Share(spans, times, parts, n - 1, m)
  }

  /** The sum of all weighted durations. */
  function TotalWeighted(spans: seq<Span>, times: seq<real>): real
    requires |times| > 0
  {
    SumOfShares(spans, times, PartsOf(spans, times), |spans|, |times| - 1)
  }

  /** The time up to time stamp m during which at least one task runs. */
  function BusyTime(spans: seq<Span>, times: seq<real>, m: nat): real
    requires m < |times|
  {
    if m == 0 then 0.0
    else
      BusyTime(spans, times, m - 1)
      + if Running(spans, times[m - 1], times[m]) == {} then 0.0 else times[m] - times[m - 1]
  }

  // ----- conservation --------------------------------------------------------------

  function Below(tasks: set<nat>, n: nat): set<nat> {
    set i | i in tasks && i < n
  }

  lemma BelowStep(tasks: set<nat>, n: nat)
    requires n > 0
    ensures |Below(tasks, n)| == |Below(tasks, n - 1)| + if n - 1 in tasks then 1 else 0
  {
    if n - 1 in tasks {
      assert Below(tasks, n) == Below(tasks, n - 1) + {n - 1};
    } else {
      assert Below(tasks, n) == Below(tasks, n - 1);
    }
  }

  /** What a number of tasks get together. */
  function Together(n: nat, part: real): real {
    n as real * part
  }

  lemma OneMore(n: nat, part: real)
    ensures Together(n + 1, part) == Together(n, part) + part
  {
  }

  lemma {:induction false} IntervalIsShared(spans: seq<Span>, times: seq<real>, parts: seq<real>, n: nat, m: nat)
    requires 1 <= m < |times| == |parts|
    ensures SumOfShares(spans, times, parts, n, m) ==
              SumOfShares(spans, times, parts, n, m - 1)
              + Together(|Below(Running(spans, times[m - 1], times[m]), n)|, parts[m])
  {
    if n > 0 {
      var running := Running(spans, times[m - 1], times[m]);
      IntervalIsShared(spans, times, parts, n - 1, m);
      BelowStep(running, n);
      OneMore(|Below(running, n - 1)|, parts[m]);
    }
  }

  lemma SplitIsFair(d: real, n: nat)
    ensures Together(n, Split(d, n)) == if n == 0 then 0.0 else d
    ensures d == 0.0 ==> Split(d, n) == 0.0
  {
  }

  lemma SplitIsBounded(d: real, n: nat)
    requires d >= 0.0
    ensures 0.0 <= Split(d, n) <= d
  {
    if n > 0 {
      Quotient(d, n);
    }
  }

  lemma Quotient(d: real, n: nat)
    requires d >= 0.0 && n >= 1
    ensures 0.0 <= d / n as real <= d
  {
  }

  lemma {:induction false} NothingSharedYet(spans: seq<Span>, times: seq<real>, parts: seq<real>, n: nat)
    requires 0 < |times| == |parts|
    ensures SumOfShares(spans, times, parts, n, 0) == 0.0
  {
    if n > 0 {
      NothingSharedYet(spans, times, parts, n - 1);
    }
  }

  /** The running tasks together get the whole interval. */
  ghost predicate FairAt(spans: seq<Span>, times: seq<real>, parts: seq<real>, m: nat)
    requires 1 <= m < |times| == |parts|
  {
    var running := Running(spans, times[m - 1], times[m]);
    Together(|running|, parts[m]) == if running == {} then 0.0 else times[m] - times[m - 1]
  }

  lemma {:induction false} FairPartsConserveTime(spans: seq<Span>, times: seq<real>, parts: seq<real>, m: nat)
    requires m < |times| == |parts|
    requires forall k :: 1 <= k < |times| ==> FairAt(spans, times, parts, k)
    ensures SumOfShares(spans, times, parts, |spans|, m) == BusyTime(spans, times, m)
  {
    if m == 0 {
      NothingSharedYet(spans, times, parts, |spans|);
    } else {
      FairPartsConserveTime(spans, times, parts, m - 1);
      var running := Running(spans, times[m - 1], times[m]);
      assert running == Below(running, |spans|);
      IntervalIsShared(spans, times, parts, |spans|, m);
      assert FairAt(spans, times, parts, m);
    }
  }

  /** Together the tasks get exactly the time during which at least one of them runs. */
  lemma TotalIsBusyTime(spans: seq<Span>, times: seq<real>)
    requires |times| > 0
    ensures TotalWeighted(spans, times) == BusyTime(spans, times, |times| - 1)
  {
    forall k | 1 <= k < |times| ensures FairAt(spans, times, PartsOf(spans, times), k) {
      SplitIsFair(times[k] - times[k - 1], |Running(spans, times[k - 1], times[k])|);
    }
    FairPartsConserveTime(spans, times, PartsOf(spans, times), |times| - 1);
  }

  // ----- the sweep computes the shares ---------------------------------------------

  /** The running total of parts that the sweep accumulates. */
  function Weighted(parts: seq<real>, m: nat): real
    requires m < |parts|
  {
    if m == 0 then 0.0 else Weighted(parts, m - 1) + parts[m]
  }

  /** Task i is between its two events when time stamp k is reached. */
  predicate Inside(startAt: seq<nat>, stopAt: seq<nat>, i: nat, k: nat)
    requires i < |startAt| == |stopAt|
  {
    startAt[i] < k <= stopAt[i]
  }

  /** Across an interval with a length, the tasks between their events are the running ones. */
  ghost predicate Brackets(spans: seq<Span>, times: seq<real>, startAt: seq<nat>, stopAt: seq<nat>) {
    && |startAt| == |stopAt| == |spans|
    && (forall i :: 0 <= i < |spans| ==> startAt[i] < |times|)
    && (forall i :: 0 <= i < |spans| ==> stopAt[i] < |times|)
    && forall i, k {:trigger Inside(startAt, stopAt, i, k)} ::
         0 <= i < |spans| && 1 <= k < |times| && times[k - 1] < times[k] ==>
           (Inside(startAt, stopAt, i, k) <==> i in Running(spans, times[k - 1], times[k]))
  }

  lemma EventsBracket(spans: seq<Span>, events: seq<Event>, startAt: seq<nat>, stopAt: seq<nat>)
    requires IsSorted(events) && Located(spans, events, startAt, stopAt)
    ensures Brackets(spans, TimesOf(events), startAt, stopAt)
  {
    forall i: nat, k: nat | i < |spans| && 1 <= k < |events| && events[k - 1].time < events[k].time
      ensures Inside(startAt, stopAt, i, k) <==> i in Running(spans, events[k - 1].time, events[k].time)
    {
      InsideIsRunning(spans, events, startAt, stopAt, i, k);
    }
  }

  lemma InsideIsRunning(spans: seq<Span>, events: seq<Event>, startAt: seq<nat>, stopAt: seq<nat>, i: nat, k: nat)
    requires IsSorted(events) && Located(spans, events, startAt, stopAt)
    requires i < |spans| && 1 <= k < |events| && events[k - 1].time < events[k].time
    ensures Inside(startAt, stopAt, i, k) <==> i in Running(spans, events[k - 1].time, events[k].time)
  {
    OnOneSide(events, k, startAt[i]);
    OnOneSide(events, k, stopAt[i]);
  }

  lemma OnOneSide(events: seq<Event>, k: nat, p: nat)
    requires IsSorted(events) && 1 <= k < |events| && p < |events| && events[k - 1].time < events[k].time
    ensures p < k <==> events[p].time <= events[k - 1].time
    ensures k <= p <==> events[k].time <= events[p].time
  {
    assert p < k - 1 ==> Before(events[p], events[k - 1]);
    assert p > k ==> Before(events[k], events[p]);
  }

  /** Time goes forward, and each part is what a running task gets of its interval. */
  ghost predicate ProperAt(spans: seq<Span>, times: seq<real>, parts: seq<real>, k: nat)
    requires 1 <= k < |times| == |parts|
  {
    && parts[k] == PartAt(spans, times, k)
    && times[k - 1] <= times[k]
    && 0.0 <= parts[k] <= times[k] - times[k - 1]
  }

  ghost predicate Proper(spans: seq<Span>, times: seq<real>, parts: seq<real>) {
    && |parts| == |times|
    && forall k :: 1 <= k < |times| ==> ProperAt(spans, times, parts, k)
  }

  lemma PartsAreProper(spans: seq<Span>, events: seq<Event>)
    requires IsSorted(events)
    ensures Proper(spans, TimesOf(events), PartsOf(spans, TimesOf(events)))
  {
    var times := TimesOf(events);
    forall k | 1 <= k < |times| ensures ProperAt(spans, times, PartsOf(spans, times), k) {
      assert Before(events[k - 1], events[k]);
      SplitIsBounded(times[k] - times[k - 1], |Running(spans, times[k - 1], times[k])|);
    }
  }

  /** A schedule with its time stamps, its parts and the places of its events. */
  datatype RawTimeline = RawTimeline(
    spans: seq<Span>, events: seq<Event>, times: seq<real>, parts: seq<real>, startAt: seq<nat>, stopAt: seq<nat>,
    durations: seq<real>)
  {
    /** What task i gets in all. */
    ghost predicate DurationIsShare(i: nat)
      requires i < |durations| && |times| == |parts|
    {
      |times| > 0 && durations[i] == Share(spans, times, parts, i, |times| - 1)
    }

    /** Event k is the start or the stop of one task only. */
    ghost predicate EventIsPlaced(k: nat)
      requires k < |events| == |times| && |startAt| == |stopAt|
    {
      && events[k].time == times[k] && events[k].task < |startAt|
      && (forall j :: 0 <= j < |startAt| ==> (startAt[j] == k <==> !events[k].stop && j == events[k].task))
      && (forall j :: 0 <= j < |stopAt| ==> (stopAt[j] == k <==> events[k].stop && j == events[k].task))
    }

    /** Task i stops after it starts exactly when its end is not before its start. */
    ghost predicate TaskIsPlaced(i: nat)
      requires i < |spans| == |startAt| == |stopAt| && startAt[i] < |times| && stopAt[i] < |times|
    {
      && times[startAt[i]] == spans[i].start && times[stopAt[i]] == spans[i].end
      && (startAt[i] < stopAt[i] <==> spans[i].start <= spans[i].end)
    }

    ghost predicate Valid() {
      && |times| == |events|
      && |durations| == |spans|
      && Brackets(spans, times, startAt, stopAt)
      && Proper(spans, times, parts)
      && (forall k :: 0 <= k < |events| ==> EventIsPlaced(k))
      && (forall i :: 0 <= i < |spans| ==> TaskIsPlaced(i))
      && (forall i :: 0 <= i < |spans| ==> DurationIsShare(i))
    }
  }

  type Timeline = t: RawTimeline | t.Valid() ghost witness RawTimeline([], [], [], [], [], [], [])

  /** Task i starts before it stops. */
  ghost predicate Forward(t: Timeline, i: nat) {
    i < |t.spans| && t.startAt[i] < t.stopAt[i]
  }

  ghost predicate AllForward(t: Timeline) {
    forall i :: 0 <= i < |t.spans| ==> Forward(t, i)
  }

  ghost predicate EndsAfterStarts(spans: seq<Span>) {
    forall i :: 0 <= i < |spans| ==> spans[i].start <= spans[i].end
  }

  lemma ForwardIffEndsAfterStarts(t: Timeline)
    ensures AllForward(t) <==> EndsAfterStarts(t.spans)
  {
    forall i | 0 <= i < |t.spans| ensures Forward(t, i) <==> t.spans[i].start <= t.spans[i].end {
      assert t.TaskIsPlaced(i);
    }
  }

  lemma EventsArePlaced(r: RawTimeline)
    requires Located(r.spans, r.events, r.startAt, r.stopAt) && r.times == TimesOf(r.events)
    ensures forall k :: 0 <= k < |r.events| ==> r.EventIsPlaced(k)
  {
    forall k | 0 <= k < |r.events| ensures r.EventIsPlaced(k) {
      EventOfTask(r.spans, r.events, r.startAt, r.stopAt, k);
    }
  }

  lemma TasksArePlaced(r: RawTimeline)
    requires IsSorted(r.events) && Located(r.spans, r.events, r.startAt, r.stopAt) && r.times == TimesOf(r.events)
    ensures forall i :: 0 <= i < |r.spans| ==> r.TaskIsPlaced(i)
  {
    forall i | 0 <= i < |r.spans| ensures r.TaskIsPlaced(i) {
      StopAfterStart(r.spans, r.events, r.startAt, r.stopAt, i);
    }
  }

  lemma PlaceEvents(spans: seq<Span>, events: seq<Event>, parts: seq<real>, durations: seq<real>)
    returns (r: RawTimeline)
    requires Schedules(spans, events)
    ensures r == RawTimeline(spans, events, TimesOf(events), parts, r.startAt, r.stopAt, durations)
    ensures Brackets(spans, r.times, r.startAt, r.stopAt)
    ensures forall k :: 0 <= k < |events| ==> r.EventIsPlaced(k)
    ensures forall i :: 0 <= i < |spans| ==> r.TaskIsPlaced(i)
  {
    var startAt, stopAt := Locate(spans, events);
    r := RawTimeline(spans, events, TimesOf(events), parts, startAt, stopAt, durations);
    EventsBracket(spans, events, startAt, stopAt);
    EventsArePlaced(r);
    TasksArePlaced(r);
  }

  function DurationsOf(spans: seq<Span>, times: seq<real>): (durations: seq<real>)
    requires |times| > 0
    ensures |durations| == |spans|
    ensures forall i :: 0 <= i < |spans| ==> durations[i] == WeightedDuration(spans, times, i)
  {
    seq(|spans|, i requires 0 <= i < |spans| => WeightedDuration(spans, times, i))
  }

  lemma NoTasksNoEvents(spans: seq<Span>, events: seq<Event>)
    requires Schedules(spans, events)
    ensures spans == [] <==> events == []
  {
    var startAt, stopAt := Locate(spans, events);
    assert spans != [] ==> startAt[0] < |events|;
    assert events != [] ==> events[0].task < |spans|;
  }

  lemma MakeTimeline(spans: seq<Span>, events: seq<Event>) returns (t: Timeline)
    requires Schedules(spans, events)
    ensures t.spans == spans && t.events == events && t.times == TimesOf(events) && t.parts == PartsOf(spans, t.times)
    ensures spans == [] <==> events == []
  {
    var times := TimesOf(events);
    var durations := if times == [] then [] else DurationsOf(spans, times);
    NoTasksNoEvents(spans, events);
    PartsAreProper(spans, events);
    t := PlaceEvents(spans, events, PartsOf(spans, times), durations);
  }

  /** One interval of the sum: a part while task i is between its events, else nothing. */
  lemma ShareOfInterval(t: Timeline, i: nat, k: nat)
    requires i < |t.spans| && 1 <= k < |t.times|
    ensures Share(t.spans, t.times, t.parts, i, k) ==
              Share(t.spans, t.times, t.parts, i, k - 1) + if Inside(t.startAt, t.stopAt, i, k) then t.parts[k] else 0.0
    ensures 0.0 <= t.parts[k] <= t.times[k] - t.times[k - 1]
  {
    assert ProperAt(t.spans, t.times, t.parts, k);
  }

  lemma DifferenceStep(parts: seq<real>, p: nat, q: nat, m: nat)
    requires p <= q && 1 <= m < |parts|
    ensures Weighted(parts, Min(m, q)) - Weighted(parts, Min(m, p)) ==
              Weighted(parts, Min(m - 1, q)) - Weighted(parts, Min(m - 1, p)) + if p < m <= q then parts[m] else 0.0
  {
  }

  lemma {:induction false} ShareIsDifference(t: Timeline, i: nat, m: nat)
    requires i < |t.spans| && t.startAt[i] <= t.stopAt[i] && m < |t.times|
    ensures Share(t.spans, t.times, t.parts, i, m) ==
              Weighted(t.parts, Min(m, t.stopAt[i])) - Weighted(t.parts, Min(m, t.startAt[i]))
  {
    if m > 0 {
      ShareIsDifference(t, i, m - 1);
      ShareOfInterval(t, i, m);
      DifferenceStep(t.parts, t.startAt[i], t.stopAt[i], m);
    }
  }

  lemma {:induction false} ShareIsBounded(t: Timeline, i: nat, m: nat)
    requires i < |t.spans| && t.startAt[i] <= t.stopAt[i] && m < |t.times|
    ensures 0.0 <= Share(t.spans, t.times, t.parts, i, m) <= t.times[Min(m, t.stopAt[i])] - t.times[Min(m, t.startAt[i])]
  {
    if m > 0 {
      ShareIsBounded(t, i, m - 1);
      ShareOfInterval(t, i, m);
    }
  }

  /** No weighted duration is negative or more than the elapsed time of its task. */
  lemma WeightedDurationIsBounded(spans: seq<Span>, events: seq<Event>, i: nat)
    requires Schedules(spans, events) && i < |spans| && spans[i].start <= spans[i].end
    ensures |events| > 0 && 0.0 <= WeightedDuration(spans, TimesOf(events), i) <= spans[i].end - spans[i].start
  {
    var t := MakeTimeline(spans, events);
    assert t.TaskIsPlaced(i);
    BoundedInTimeline(t, i);
    assert t.DurationIsShare(i);
  }

  lemma BoundedInTimeline(t: Timeline, i: nat)
    requires Forward(t, i)
    ensures |t.times| > 0 && 0.0 <= t.durations[i] <= t.spans[i].end - t.spans[i].start
  {
    assert t.DurationIsShare(i);
    ShareIsBounded(t, i, |t.times| - 1);
    assert t.TaskIsPlaced(i);
  }

  // ----- the sweep -----------------------------------------------------------------

  function SpansOf(entries: seq<Target>): (spans: seq<Span>)
    ensures |spans| == |entries| && forall i :: 0 <= i < |entries| ==> spans[i] == Span(entries[i].start, entries[i].end)
  {
    seq(|entries|, i requires 0 <= i < |entries| => Span(entries[i].start, entries[i].end))
  }

  /** The tasks whose start is among the first k events and whose stop is not. */
  ghost function Open(startAt: seq<nat>, stopAt: seq<nat>, k: nat): set<nat>
    requires |startAt| == |stopAt|
  {
    set i: nat | i < |startAt| && Inside(startAt, stopAt, i, k)
  }

  /** What the sweep adds to the weighted time when n tasks are open. */
  function Step(lastTime: real, time: real, n: nat): real {
    Split(time - lastTime, n)
  }

  /** Dividing by the number of open tasks gives the part of the interval. */
  lemma OpenGivesPart(t: Timeline, k: nat)
    requires 1 <= k < |t.times|
    ensures t.parts[k] == Step(t.times[k - 1], t.times[k], |Open(t.startAt, t.stopAt, k)|)
  {
    var running := Running(t.spans, t.times[k - 1], t.times[k]);
    assert ProperAt(t.spans, t.times, t.parts, k);
    if t.times[k - 1] < t.times[k] {
      assert running == Open(t.startAt, t.stopAt, k);
    } else {
      SplitIsFair(0.0, |running|);
      SplitIsFair(0.0, |Open(t.startAt, t.stopAt, k)|);
    }
  }

  lemma EventAt(t: Timeline, k: nat)
    requires k < |t.events|
    ensures t.events[k].task < |t.spans| && t.events[k].time == t.times[k]
    ensures forall j :: 0 <= j < |t.spans| ==> (t.startAt[j] == k <==> !t.events[k].stop && j == t.events[k].task)
    ensures forall j :: 0 <= j < |t.spans| ==> (t.stopAt[j] == k <==> t.events[k].stop && j == t.events[k].task)
  {
    assert t.EventIsPlaced(k);
  }

  /** No task stopped before event k stops before its start. */
  ghost predicate ForwardBefore(t: Timeline, k: nat) {
    forall i :: 0 <= i < |t.spans| && t.stopAt[i] < k ==> Forward(t, i)
  }

  /** A stop is met before its start only where that stop is the event at hand. */
  lemma ForwardAtEvent(t: Timeline, k: nat)
    requires k < |t.events| && ForwardBefore(t, k)
    ensures !t.events[k].stop ==> Forward(t, t.events[k].task)
    ensures Forward(t, t.events[k].task) ==> ForwardBefore(t, k + 1)
  {
    EventAt(t, k);
  }

  datatype SweepState = SweepState(running: map<nat, real>, lastTime: real, weighted: real)

  /** The open tasks, each with the weighted time at its start. */
  ghost function RunningAt(t: Timeline, k: nat): map<nat, real> {
    map i | i in Open(t.startAt, t.stopAt, k) :: Weighted(t.parts, t.startAt[i])
  }

  /** What the sweep holds before event k. */
  ghost function StateAt(t: Timeline, k: nat): SweepState
    requires k <= |t.events| && |t.events| > 0
  {
    if k == 0 then SweepState(map[], t.times[0], 0.0)
    else SweepState(RunningAt(t, k), t.times[k - 1], Weighted(t.parts, k - 1))
  }

  lemma NoneRunningYet(t: Timeline)
    ensures RunningAt(t, 0) == map[]
  {
    assert Open(t.startAt, t.stopAt, 0) == {};
  }

  lemma RunningInState(t: Timeline, k: nat)
    requires k <= |t.events| && |t.events| > 0
    ensures StateAt(t, k).running == RunningAt(t, k)
  {
    NoneRunningYet(t);
  }

  lemma RunningAfterEvent(t: Timeline, k: nat)
    requires k < |t.events| && Forward(t, t.events[k].task)
    ensures
      var i := t.events[k].task;
      RunningAt(t, k + 1) ==
        if t.events[k].stop then RunningAt(t, k) - {i} else RunningAt(t, k)[i := Weighted(t.parts, k)]
  {
    EventAt(t, k);
  }

  lemma RunningIsOpen(t: Timeline, k: nat)
    ensures RunningAt(t, k).Keys == Open(t.startAt, t.stopAt, k)
    ensures |RunningAt(t, k)| == |Open(t.startAt, t.stopAt, k)|
  {
    var running := RunningAt(t, k);
    assert |running| == |running.Keys|;
    assert running.Keys == Open(t.startAt, t.stopAt, k);
  }

  lemma WeightedLater(t: Timeline, k: nat)
    requires 1 <= k < |t.events|
    ensures Weighted(t.parts, k) ==
              Weighted(t.parts, k - 1) + Step(t.times[k - 1], t.times[k], |RunningAt(t, k)|)
  {
    OpenGivesPart(t, k);
    RunningIsOpen(t, k);
  }

  lemma WeightedAtEvent(t: Timeline, k: nat)
    requires k < |t.events|
    ensures
      var s := StateAt(t, k);
      Weighted(t.parts, k) == s.weighted + Step(s.lastTime, t.times[k], |s.running|)
  {
    var s := StateAt(t, k);
    if k > 0 {
      assert s.lastTime == t.times[k - 1] && s.running == RunningAt(t, k);
      WeightedLater(t, k);
    } else {
      assert |s.running| == 0;
    }
  }

  /** The sweep after event k. */
  lemma NextState(t: Timeline, k: nat)
    requires k < |t.events| && Forward(t, t.events[k].task)
    ensures
      var i, s := t.events[k].task, StateAt(t, k);
      StateAt(t, k + 1) ==
        SweepState(
          if t.events[k].stop then s.running - {i} else s.running[i := Weighted(t.parts, k)],
          t.events[k].time, Weighted(t.parts, k))
  {
    EventAt(t, k);
    RunningInState(t, k);
    RunningAfterEvent(t, k);
  }

  lemma ShareAtStop(t: Timeline, i: nat)
    requires Forward(t, i)
    ensures t.durations[i] == Weighted(t.parts, t.stopAt[i]) - Weighted(t.parts, t.startAt[i])
  {
    assert t.DurationIsShare(i);
    ShareIsDifference(t, i, |t.times| - 1);
  }

  /** At its stop a task is open exactly when it started before, and then the weighted time
      since its start is all it gets. */
  lemma DurationAtStop(t: Timeline, k: nat)
    requires k < |t.events| && t.events[k].stop
    ensures
      var i, running := t.events[k].task, StateAt(t, k).running;
      && (i in running <==> Forward(t, i))
      && (i in running ==> Weighted(t.parts, k) - running[i] == t.durations[i])
  {
    EventAt(t, k);
    RunningInState(t, k);
    RunningIsOpen(t, k);
    if Forward(t, t.events[k].task) {
      ShareAtStop(t, t.events[k].task);
    }
  }

  /** The weighted time up to an event. */
  method Accumulate(time: real, running: map<nat, real>, lastTime: real, weighted: real) returns (weighted': real)
    ensures weighted' == weighted + Step(lastTime, time, |running|)
  {
    weighted' := weighted;
    if |running| > 0 {
      weighted' := weighted' + (time - lastTime) / |running| as real;
    }
  }

  /** One event of the sweep.  A missing key is the KeyError of the original. */
  method SweepEvent(
    event: Event, running: map<nat, real>, lastTime: real, weighted: real, ghost t: Timeline, ghost k: nat)
    returns (ok: bool, running': map<nat, real>, weighted': real, weightedDuration: real)
    requires k < |t.events| && event == t.events[k] && ForwardBefore(t, k)
    requires SweepState(running, lastTime, weighted) == StateAt(t, k)
    ensures ok <==> Forward(t, event.task)
    ensures ok ==> SweepState(running', event.time, weighted') == StateAt(t, k + 1) && ForwardBefore(t, k + 1)
    ensures ok && event.stop ==> weightedDuration == t.durations[event.task]
  {
    ok, running', weightedDuration := true, running, 0.0;
    weighted' := Accumulate(event.time, running, lastTime, weighted);
    WeightedAtEvent(t, k);
    ForwardAtEvent(t, k);
    if event.stop {
      DurationAtStop(t, k);
      if event.task !in running {
        return false, running, weighted', 0.0;
      }
      weightedDuration := weighted' - running[event.task];
      running' := running - {event.task};
    } else {
      running' := running[event.task := weighted'];
    }
    NextState(t, k);
  }

  /** The weighted durations of the tasks stopped before event k. */
  ghost function SumOfStopped(durations: seq<real>, stopAt: seq<nat>, k: nat, n: nat): real
    requires n <= |stopAt| == |durations|
  {
    if n == 0 then 0.0
    else SumOfStopped(durations, stopAt, k, n - 1) + if stopAt[n - 1] < k then durations[n - 1] else 0.0
  }

  lemma {:induction false} OneMoreStopped(durations: seq<real>, stopAt: seq<nat>, k: nat, n: nat, stop: bool, i: nat)
    requires n <= |stopAt| == |durations| && i < |stopAt|
    requires forall j :: 0 <= j < |stopAt| ==> (stopAt[j] == k <==> stop && j == i)
    ensures SumOfStopped(durations, stopAt, k + 1, n) ==
              SumOfStopped(durations, stopAt, k, n) + if stop && i < n then durations[i] else 0.0
  {
    if n > 0 {
      OneMoreStopped(durations, stopAt, k, n - 1, stop, i);
    }
  }

  lemma {:induction false} NoneStoppedYet(durations: seq<real>, stopAt: seq<nat>, n: nat)
    requires n <= |stopAt| == |durations|
    ensures SumOfStopped(durations, stopAt, 0, n) == 0.0
  {
    if n > 0 {
      NoneStoppedYet(durations, stopAt, n - 1);
    }
  }

  lemma {:induction false} AllStopped(t: Timeline, n: nat)
    requires n <= |t.spans| && |t.times| > 0
    ensures SumOfStopped(t.durations, t.stopAt, |t.times|, n) == SumOfShares(t.spans, t.times, t.parts, n, |t.times| - 1)
  {
    if n > 0 {
      assert t.DurationIsShare(n - 1);
      AllStopped(t, n - 1);
    }
  }

  ghost predicate Distinct(entries: seq<Target>) {
    forall i, j :: 0 <= i < j < |entries| ==> entries[i] != entries[j]
  }

  /** The tasks stopped before event k carry their weighted durations. */
  ghost predicate Recorded(entries: seq<Target>, durations: seq<real>, stopAt: seq<nat>, k: nat)
    reads entries
    requires |stopAt| == |entries| == |durations|
  {
    forall i :: 0 <= i < |entries| && stopAt[i] < k ==> entries[i].weightedDuration == durations[i]
  }

  /** Every target carries the weighted duration of its task. */
  ghost predicate CarryDurations(entries: seq<Target>, spans: seq<Span>, times: seq<real>)
    reads entries
    requires |times| > 0
  {
    forall i :: 0 <= i < |entries| ==> entries[i].weightedDuration == WeightedDuration(spans, times, i)
  }

  /** Gives a stopped task its weighted duration and adds it to the total. */
  method Record(
    entries: seq<Target>, event: Event, weightedDuration: real, total: real,
    ghost k: nat, ghost durations: seq<real>, ghost stopAt: seq<nat>)
    returns (total': real)
    requires Distinct(entries) && event.task < |entries| == |stopAt| == |durations|
    requires forall j :: 0 <= j < |stopAt| ==> (stopAt[j] == k <==> event.stop && j == event.task)
    requires event.stop ==> weightedDuration == durations[event.task]
    requires Recorded(entries, durations, stopAt, k)
    requires total == SumOfStopped(durations, stopAt, k, |entries|)
    modifies {entries[event.task]}`weightedDuration
    ensures Recorded(entries, durations, stopAt, k + 1)
    ensures total' == SumOfStopped(durations, stopAt, k + 1, |entries|)
  {
    total' := total;
    OneMoreStopped(durations, stopAt, k, |entries|, event.stop, event.task);
    if event.stop {
      entries[event.task].weightedDuration := weightedDuration;
      total' := total' + weightedDuration;
    }
  }

  /** The state of the whole loop before event k. */
  ghost predicate Swept(
    t: Timeline, entries: seq<Target>, k: nat, running: map<nat, real>, lastTime: real, weighted: real, total: real)
    reads entries
    requires k <= |t.events| && |t.events| > 0 && |entries| == |t.spans|
  {
    && SweepState(running, lastTime, weighted) == StateAt(t, k)
    && ForwardBefore(t, k)
    && Recorded(entries, t.durations, t.stopAt, k)
    && total == SumOfStopped(t.durations, t.stopAt, k, |entries|)
  }

  /** One round of the loop. */
  method SweepRound(
    entries: seq<Target>, event: Event, running: map<nat, real>, lastTime: real, weighted: real, total: real,
    ghost t: Timeline, ghost k: nat)
    returns (ok: bool, running': map<nat, real>, weighted': real, total': real)
    requires Distinct(entries) && |entries| == |t.spans|
    requires k < |t.events| && event == t.events[k]
    requires Swept(t, entries, k, running, lastTime, weighted, total)
    modifies (set e | e in entries)`weightedDuration
    ensures ok <==> Forward(t, event.task)
    ensures ok ==> Swept(t, entries, k + 1, running', event.time, weighted', total')
  {
    var weightedDuration;
    ok, running', weighted', weightedDuration := SweepEvent(event, running, lastTime, weighted, t, k);
    total' := total;
    if ok {
      EventAt(t, k);
      total' := Record(entries, event, weightedDuration, total, k, t.durations, t.stopAt);
    }
  }

  lemma NothingSwept(t: Timeline, entries: seq<Target>)
    requires |t.events| > 0 && |entries| == |t.spans|
    ensures Swept(t, entries, 0, map[], t.times[0], 0.0, 0.0)
  {
    NoneStoppedYet(t.durations, t.stopAt, |t.spans|);
  }

  lemma AllSwept(t: Timeline)
    requires ForwardBefore(t, |t.events|)
    ensures AllForward(t)
  {
  }

  /** After the last event no task is open, as the final assertion asks. */
  lemma NoneLeftRunning(t: Timeline)
    requires |t.events| > 0
    ensures StateAt(t, |t.events|).running == map[]
  {
    assert Open(t.startAt, t.stopAt, |t.events|) == {};
  }

  /** The loop of the sweep with the final assertion, over the events in any order that sorting may give. */
  method SweepEvents(entries: seq<Target>, events: seq<Event>, ghost t: Timeline)
    returns (ok: bool, weightedTotal: real)
    requires Distinct(entries) && |entries| == |t.spans| && events == t.events && |events| > 0
    modifies (set e | e in entries)`weightedDuration
    ensures ok <==> AllForward(t)
    ensures ok ==> Recorded(entries, t.durations, t.stopAt, |events|)
    ensures ok ==> weightedTotal == SumOfStopped(t.durations, t.stopAt, |events|, |t.spans|)
  {
    var running: map<nat, real>, lastTime, weighted := map[], events[0].time, 0.0;
    weightedTotal := 0.0;
    EventAt(t, 0);
    NothingSwept(t, entries);
    for k := 0 to |events|
      invariant Swept(t, entries, k, running, lastTime, weighted, weightedTotal)
    {
      EventAt(t, k);
      ok, running, weighted, weightedTotal :=
        SweepRound(entries, events[k], running, lastTime, weighted, weightedTotal, t, k);
      if !ok {
        return;
      }
      lastTime := events[k].time;
    }
    AllSwept(t);
    NoneLeftRunning(t);
    ok := |running| == 0;
  }

  lemma DurationsAreWeighted(t: Timeline)
    requires |t.times| > 0 && t.parts == PartsOf(t.spans, t.times)
    ensures forall i :: 0 <= i < |t.spans| ==> t.durations[i] == WeightedDuration(t.spans, t.times, i)
    ensures forall i :: 0 <= i < |t.spans| ==> t.stopAt[i] < |t.events|
    ensures SumOfStopped(t.durations, t.stopAt, |t.times|, |t.spans|) == TotalWeighted(t.spans, t.times)
  {
    forall i | 0 <= i < |t.spans| ensures t.durations[i] == WeightedDuration(t.spans, t.times, i) {
      assert t.DurationIsShare(i);
    }
    AllStopped(t, |t.spans|);
  }

  /** The sweep fails on an empty list and on a task that ends before it starts, and on
      nothing else.  Otherwise every task gets its weighted duration, whatever the order of
      tied events. */
  method Sweep(entries: seq<Target>, events: seq<Event>) returns (ok: bool, weightedTotal: real)
    requires Distinct(entries) && Schedules(SpansOf(entries), events)
    modifies (set e | e in entries)`weightedDuration
    ensures ok <==> entries != [] && EndsAfterStarts(SpansOf(entries))
    ensures ok ==>
              && |events| > 0
              && CarryDurations(entries, SpansOf(entries), TimesOf(events))
              && weightedTotal == TotalWeighted(SpansOf(entries), TimesOf(events))
  {
    ghost var t := MakeTimeline(SpansOf(entries), events);
    ForwardIffEndsAfterStarts(t);
    if entries == [] {
      return false, 0.0;
    }
    ok, weightedTotal := SweepEvents(entries, events, t);
    DurationsAreWeighted(t);
  }
}
