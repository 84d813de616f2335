/**
  The whole computation of a build summary: the extent of the build, its events, and the
  sweep over them.  The weighted total is compared with the length of the build.
 */
module BuildSummary {
  import opened Basics
  import opened NinjaLog
  import opened BuildSweep

  // ----- the order of tied events does not matter ----------------------------------

  lemma {:induction false} TimesAreImages(events: seq<Event>)
    ensures multiset(TimesOf(events)) == Images(events, (e: Event) => e.time)
  {
    if events != [] {
      TimesAreImages(events[1..]);
      assert TimesOf(events) == [events[0].time] + TimesOf(events[1..]);
    }
  }

  lemma TimesOfPermutation(a: seq<Event>, b: seq<Event>)
    requires multiset(a) == multiset(b)
    ensures multiset(TimesOf(a)) == multiset(TimesOf(b))
  {
    TimesAreImages(a);
    TimesAreImages(b);
    ImagesOfPermutation(a, b, (e: Event) => e.time);
  }

  ghost predicate Ascending(times: seq<real>) {
    forall i, j :: 0 <= i < j < |times| ==> times[i] <= times[j]
  }

  lemma FirstIsLeast(times: seq<real>, t: real)
    requires Ascending(times) && t in multiset(times)
    ensures |times| > 0 && times[0] <= t
  {
    var i :| 0 <= i < |times| && times[i] == t;
  }

  lemma WithoutFirst(times: seq<real>)
    requires |times| > 0 && Ascending(times)
    ensures multiset(times[1..]) == multiset(times) - multiset{times[0]} && Ascending(times[1..])
    ensures times == [times[0]] + times[1..]
  {
    assert times == [times[0]] + times[1..];
  }

  lemma SameFirst(a: seq<real>, b: seq<real>)
    requires Ascending(a) && Ascending(b) && multiset(a) == multiset(b) && |a| > 0
    ensures |b| > 0 && a[0] == b[0]
  {
    assert a[0] in multiset(a);
    FirstIsLeast(b, a[0]);
    assert b[0] in multiset(b);
    FirstIsLeast(a, b[0]);
  }

  lemma {:induction false} AscendingIsUnique(a: seq<real>, b: seq<real>)
    requires Ascending(a) && Ascending(b) && multiset(a) == multiset(b)
    ensures a == b
    decreases |a|
  {
    assert |multiset(a)| == |a| && |multiset(b)| == |b|;
    if |a| > 0 {
      SameFirst(a, b);
      WithoutFirst(a);
      WithoutFirst(b);
      AscendingIsUnique(a[1..], b[1..]);
    }
  }

  lemma TimesAscend(events: seq<Event>)
    requires IsSorted(events)
    ensures Ascending(TimesOf(events))
  {
    forall i, j | 0 <= i < j < |events| ensures events[i].time <= events[j].time {
      assert Before(events[i], events[j]);
    }
  }

  /** Sorting may order tied events in any way: the time stamps, and with them the weighted
      durations, are the same. */
  lemma TiesDoNotMatter(spans: seq<Span>, a: seq<Event>, b: seq<Event>)
    requires Schedules(spans, a) && Schedules(spans, b)
    ensures TimesOf(a) == TimesOf(b)
  {
    TimesOfPermutation(a, b);
    TimesAscend(a);
    TimesAscend(b);
    AscendingIsUnique(TimesOf(a), TimesOf(b));
  }

  // ----- idle time -----------------------------------------------------------------

  ghost predicate Covered(spans: seq<Span>, t: real) {
    exists i :: 0 <= i < |spans| && spans[i].start <= t <= spans[i].end
  }

  /** Some task runs at every moment from one time to another. */
  ghost predicate NoIdleGap(spans: seq<Span>, from: real, to: real) {
    forall t :: from <= t <= to ==> Covered(spans, t)
  }

  ghost predicate BusyAt(spans: seq<Span>, times: seq<real>, k: nat)
    requires 1 <= k < |times|
  {
    times[k - 1] < times[k] ==> Running(spans, times[k - 1], times[k]) != {}
  }

  lemma {:induction false} BusyUpTo(spans: seq<Span>, times: seq<real>, m: nat)
    requires Ascending(times) && m < |times|
    ensures BusyTime(spans, times, m) <= times[m] - times[0]
    ensures BusyTime(spans, times, m) == times[m] - times[0] <==> forall k :: 1 <= k <= m ==> BusyAt(spans, times, k)
  {
    if m > 0 {
      BusyUpTo(spans, times, m - 1);
      assert times[m - 1] <= times[m];
      assert BusyTime(spans, times, m) == times[m] - times[0] <==>
               BusyTime(spans, times, m - 1) == times[m - 1] - times[0] && BusyAt(spans, times, m);
    }
  }

  /** Every moment is a time stamp or properly between two successive ones. */
  lemma FindInterval(times: seq<real>, t: real) returns (k: nat)
    requires |times| > 0 && times[0] <= t <= times[|times| - 1]
    ensures k < |times| && (times[k] == t || (k > 0 && times[k - 1] < t < times[k]))
  {
    k := 0;
    while times[k] < t
      invariant k < |times| && (k > 0 ==> times[k - 1] < t)
      decreases |times| - k
    {
      assert k != |times| - 1;
      k := k + 1;
    }
  }

  /** The time stamps of a schedule: the starts and ends of its tasks, in order. */
  ghost predicate HasStamps(spans: seq<Span>, times: seq<real>) {
    forall i :: 0 <= i < |spans| ==> spans[i].start in times && spans[i].end in times
  }

  ghost predicate IsStamp(spans: seq<Span>, t: real) {
    exists i :: 0 <= i < |spans| && (t == spans[i].start || t == spans[i].end)
  }

  lemma ScheduleStamps(spans: seq<Span>, events: seq<Event>)
    requires Schedules(spans, events)
    ensures Ascending(TimesOf(events)) && HasStamps(spans, TimesOf(events))
    ensures forall k :: 0 <= k < |events| ==> IsStamp(spans, TimesOf(events)[k])
  {
    TimesAscend(events);
    var startAt, stopAt := Locate(spans, events);
    var times := TimesOf(events);
    forall i | 0 <= i < |spans| ensures spans[i].start in times && spans[i].end in times {
      assert times[startAt[i]] == spans[i].start && times[stopAt[i]] == spans[i].end;
    }
    forall k | 0 <= k < |events| ensures IsStamp(spans, times[k]) {
      var i := events[k].task;
      assert events[k] == events[(if events[k].stop then stopAt else startAt)[i]];
    }
  }

  lemma StampBefore(times: seq<real>, k: nat, x: real, t: real)
    requires Ascending(times) && 1 <= k < |times| && times[k - 1] < t < times[k] && x in times
    ensures x <= t ==> x <= times[k - 1]
    ensures t <= x ==> times[k] <= x
  {
    var p :| 0 <= p < |times| && times[p] == x;
    assert p > k ==> times[k] <= times[p];
    assert p < k - 1 ==> times[p] <= times[k - 1];
  }

  /** A task that runs at a moment between two successive stamps runs from one to the other. */
  lemma CoversInterval(spans: seq<Span>, times: seq<real>, k: nat, t: real, i: nat)
    requires Ascending(times) && HasStamps(spans, times) && 1 <= k < |times| && times[k - 1] < t < times[k]
    requires i < |spans| && spans[i].start <= t <= spans[i].end
    ensures i in Running(spans, times[k - 1], times[k])
  {
    StampBefore(times, k, spans[i].start, t);
    StampBefore(times, k, spans[i].end, t);
  }

  lemma BusyMeansCovered(spans: seq<Span>, times: seq<real>, t: real)
    requires |times| > 0 && EndsAfterStarts(spans) && times[0] <= t <= times[|times| - 1]
    requires forall k :: 0 <= k < |times| ==> IsStamp(spans, times[k])
    requires forall k :: 1 <= k < |times| ==> BusyAt(spans, times, k)
    ensures Covered(spans, t)
  {
    var k := FindInterval(times, t);
    if times[k] == t {
      assert IsStamp(spans, times[k]);
    } else {
      assert BusyAt(spans, times, k);
      var i :| i in Running(spans, times[k - 1], times[k]);
    }
  }

  lemma CoveredMeansBusy(spans: seq<Span>, times: seq<real>, k: nat)
    requires Ascending(times) && HasStamps(spans, times) && 1 <= k < |times|
    requires NoIdleGap(spans, times[0], times[|times| - 1])
    ensures BusyAt(spans, times, k)
  {
    if times[k - 1] < times[k] {
      var t := (times[k - 1] + times[k]) / 2.0;
      assert k > 1 ==> times[0] <= times[k - 1];
      assert k < |times| - 1 ==> times[k] <= times[|times| - 1];
      assert Covered(spans, t);
      var i :| 0 <= i < |spans| && spans[i].start <= t <= spans[i].end;
      CoversInterval(spans, times, k, t, i);
    }
  }

  lemma BusyIffNoIdleGap(spans: seq<Span>, times: seq<real>)
    requires |times| > 0 && EndsAfterStarts(spans) && Ascending(times) && HasStamps(spans, times)
    requires forall k :: 0 <= k < |times| ==> IsStamp(spans, times[k])
    ensures (forall k :: 1 <= k < |times| ==> BusyAt(spans, times, k)) <==>
              NoIdleGap(spans, times[0], times[|times| - 1])
  {
    if forall k :: 1 <= k < |times| ==> BusyAt(spans, times, k) {
      forall t | times[0] <= t <= times[|times| - 1] ensures Covered(spans, t) {
        BusyMeansCovered(spans, times, t);
      }
    }
    if NoIdleGap(spans, times[0], times[|times| - 1]) {
      forall k | 1 <= k < |times| ensures BusyAt(spans, times, k) {
        CoveredMeansBusy(spans, times, k);
      }
    }
  }

  /** The weighted total is at most the length of the build, and equals it exactly when some
      task runs at every moment of the build. */
  lemma TotalAgainstLength(spans: seq<Span>, events: seq<Event>)
    requires Schedules(spans, events) && |events| > 0 && EndsAfterStarts(spans)
    ensures
      var times := TimesOf(events);
      var length := times[|times| - 1] - times[0];
      && TotalWeighted(spans, times) <= length
      && (TotalWeighted(spans, times) == length <==> NoIdleGap(spans, times[0], times[|times| - 1]))
  {
    var times := TimesOf(events);
    ScheduleStamps(spans, events);
    TotalIsBusyTime(spans, times);
    BusyUpTo(spans, times, |times| - 1);
    BusyIffNoIdleGap(spans, times);
  }

  // ----- the extent of the build ---------------------------------------------------

  ghost predicate IsExtent(spans: seq<Span>, earliest: real, latest: real) {
    && (exists i :: 0 <= i < |spans| && spans[i].start == earliest)
    && (exists i :: 0 <= i < |spans| && spans[i].end == latest)
    && forall i :: 0 <= i < |spans| ==> earliest <= spans[i].start && spans[i].end <= latest
  }

  function CpuTime(spans: seq<Span>): real {
    if spans == [] then 0.0 else CpuTime(spans[..|spans| - 1]) + (spans[|spans| - 1].end - spans[|spans| - 1].start)
  }

  /** -1 stands for no start seen yet, so starts must not be negative. */
  method Extent(entries: seq<Target>) returns (earliest: real, latest: real, cpu: real, events: seq<Event>)
    ensures events == EventsOf(SpansOf(entries)) && cpu == CpuTime(SpansOf(entries))
    ensures entries != [] && EndsAfterStarts(SpansOf(entries)) && NonNegative(SpansOf(entries)) ==>
              IsExtent(SpansOf(entries), earliest, latest)
  {
    earliest, latest, cpu, events := -1.0, 0.0, 0.0, [];
    ghost var spans := SpansOf(entries);
    for i := 0 to |entries|
      invariant events == EventsOf(spans[..i]) && cpu == CpuTime(spans[..i])
      invariant EndsAfterStarts(spans) && NonNegative(spans) ==>
                  if i == 0 then earliest == -1.0 && latest == 0.0 else IsExtent(spans[..i], earliest, latest)
    {
      ghost var e, l := earliest, latest;
      var target := entries[i];
      if earliest < 0.0 || target.start < earliest {
        earliest := target.start;
      }
      if target.end > latest {
        latest := target.end;
      }
      cpu := cpu + (target.end - target.start);
      assert spans[..i + 1][..i] == spans[..i];
      events := events + [Event(target.start, false, i), Event(target.end, true, i)];
      if EndsAfterStarts(spans) && NonNegative(spans) {
        ExtentStep(spans, i, e, l, earliest, latest);
      }
    }
    assert spans[..|spans|] == spans;
  }

  lemma ExtentStep(spans: seq<Span>, i: nat, e: real, l: real, e': real, l': real)
    requires i < |spans| && EndsAfterStarts(spans) && NonNegative(spans)
    requires if i == 0 then e == -1.0 && l == 0.0 else IsExtent(spans[..i], e, l)
    requires e' == if e < 0.0 || spans[i].start < e then spans[i].start else e
    requires l' == if spans[i].end > l then spans[i].end else l
    ensures IsExtent(spans[..i + 1], e', l')
  {
    var now := spans[..i + 1];
    assert now[i] == spans[i] && forall j :: 0 <= j < i ==> now[j] == spans[..i][j];
    if i > 0 {
      var p :| 0 <= p < i && spans[..i][p].start == e;
      var q :| 0 <= q < i && spans[..i][q].end == l;
      assert now[p].start == e && now[q].end == l;
    }
  }

  lemma ExtentOfTimes(spans: seq<Span>, events: seq<Event>, earliest: real, latest: real)
    requires Schedules(spans, events) && |events| > 0 && EndsAfterStarts(spans) && IsExtent(spans, earliest, latest)
    ensures TimesOf(events)[0] == earliest && TimesOf(events)[|events| - 1] == latest
  {
    var times := TimesOf(events);
    var n := |times| - 1;
    ScheduleStamps(spans, events);
    assert IsStamp(spans, times[0]) && IsStamp(spans, times[n]);
    assert earliest in times && latest in times;
    FirstAndLast(times, earliest);
    FirstAndLast(times, latest);
  }

  lemma FirstAndLast(times: seq<real>, t: real)
    requires Ascending(times) && t in times
    ensures times[0] <= t <= times[|times| - 1]
  {
  }

  ghost predicate NonNegative(spans: seq<Span>) {
    forall i :: 0 <= i < |spans| ==> spans[i].start >= 0.0
  }

  // ----- the weighted total against the CPU time -----------------------------------

  /** Two tasks run at the same time for more than a moment. */
  predicate RunTogether(a: Span, b: Span) {
    a.start < a.end && b.start < b.end && a.start < b.end && b.start < a.end
  }

  ghost predicate NoneRunTogether(spans: seq<Span>) {
    forall i, j :: 0 <= i < j < |spans| ==> !RunTogether(spans[i], spans[j])
  }

  /** The lengths of the intervals: what a task would get that shares with nobody. */
  function LengthsOf(times: seq<real>): (r: seq<real>)
    ensures |r| == |times| && forall k :: 1 <= k < |times| ==> r[k] == times[k] - times[k - 1]
  {
    seq(|times|, k requires 0 <= k < |times| => if k == 0 then 0.0 else times[k] - times[k - 1])
  }

  /** Up to time stamp m, that is the time since the start of the task. */
  lemma {:induction false} ElapsedUpTo(t: Timeline, i: nat, m: nat)
    requires Forward(t, i) && m < |t.times|
    ensures Share(t.spans, t.times, LengthsOf(t.times), i, m) ==
              t.times[Min(m, t.stopAt[i])] - t.times[Min(m, t.startAt[i])]
  {
    if m > 0 {
      ElapsedUpTo(t, i, m - 1);
      ElapsedStep(t, i, m);
    }
  }

  lemma {:induction false} ElapsedStep(t: Timeline, i: nat, m: nat)
    requires Forward(t, i) && 1 <= m < |t.times|
    ensures
      var d := if i in Running(t.spans, t.times[m - 1], t.times[m]) then t.times[m] - t.times[m - 1] else 0.0;
      t.times[Min(m, t.stopAt[i])] - t.times[Min(m, t.startAt[i])] ==
        t.times[Min(m - 1, t.stopAt[i])] - t.times[Min(m - 1, t.startAt[i])] + d
  {
    assert ProperAt(t.spans, t.times, t.parts, m);
    if t.times[m - 1] < t.times[m] {
      assert Inside(t.startAt, t.stopAt, i, m) <==> i in Running(t.spans, t.times[m - 1], t.times[m]);
    }
  }

  lemma {:induction false} SumIsCpuTime(t: Timeline, n: nat)
    requires AllForward(t) && n <= |t.spans| && |t.times| > 0
    ensures SumOfShares(t.spans, t.times, LengthsOf(t.times), n, |t.times| - 1) == CpuTime(t.spans[..n])
  {
    if n > 0 {
      SumIsCpuTime(t, n - 1);
      assert Forward(t, n - 1);
      ElapsedUpTo(t, n - 1, |t.times| - 1);
      assert t.TaskIsPlaced(n - 1);
      assert t.spans[..n][..n - 1] == t.spans[..n - 1];
    }
  }

  /** At most one task runs across the interval. */
  ghost predicate AloneAt(spans: seq<Span>, times: seq<real>, k: nat)
    requires 1 <= k < |times|
  {
    times[k - 1] < times[k] ==> |Running(spans, times[k - 1], times[k])| <= 1
  }

  ghost predicate AloneUpTo(spans: seq<Span>, times: seq<real>, m: nat)
    requires m < |times|
  {
    m == 0 || (AloneUpTo(spans, times, m - 1) && AloneAt(spans, times, m))
  }

  lemma {:induction false} AloneBelow(spans: seq<Span>, times: seq<real>, m: nat, k: nat)
    requires 1 <= k <= m < |times| && AloneUpTo(spans, times, m)
    ensures AloneAt(spans, times, k)
  {
    if k < m {
      AloneBelow(spans, times, m - 1, k);
    }
  }

  lemma {:induction false} NotAloneAt(spans: seq<Span>, times: seq<real>, m: nat) returns (k: nat)
    requires m < |times| && !AloneUpTo(spans, times, m)
    ensures 1 <= k <= m && !AloneAt(spans, times, k)
  {
    k := m;
    if AloneAt(spans, times, m) {
      k := NotAloneAt(spans, times, m - 1);
    }
  }

  /** What all tasks take together up to time stamp m, when they do not share. */
  function TakenUpTo(spans: seq<Span>, times: seq<real>, m: nat): real
    requires m < |times|
  {
    SumOfShares(spans, times, LengthsOf(times), |spans|, m)
  }

  lemma {:induction false} SeveralGetMore(n: nat, d: real)
    requires d >= 0.0
    ensures Together(n, d) >= if n == 0 then 0.0 else d
    ensures Together(n, d) == (if n == 0 then 0.0 else d) <==> d == 0.0 || n <= 1
  {
    assert Together(0, d) == 0.0;
    if n == 1 {
      OneMore(0, d);
    } else if n > 1 {
      SeveralGetMore(n - 1, d);
      OneMore(n - 1, d);
    }
  }

  lemma {:induction false} CpuUpTo(spans: seq<Span>, times: seq<real>, m: nat)
    requires Ascending(times) && m < |times|
    ensures TakenUpTo(spans, times, m) >= BusyTime(spans, times, m)
    ensures TakenUpTo(spans, times, m) == BusyTime(spans, times, m) <==> AloneUpTo(spans, times, m)
  {
    if m == 0 {
      NothingSharedYet(spans, times, LengthsOf(times), |spans|);
    } else {
      CpuUpTo(spans, times, m - 1);
      assert times[m - 1] <= times[m];
      CpuStep(spans, times, m);
    }
  }

  /** What the running tasks take of an interval together, against its length. */
  lemma {:induction false} CpuStep(spans: seq<Span>, times: seq<real>, m: nat)
    requires 1 <= m < |times| && times[m - 1] <= times[m]
    ensures
      var all, all' := TakenUpTo(spans, times, m - 1), TakenUpTo(spans, times, m);
      var busy, busy' := BusyTime(spans, times, m - 1), BusyTime(spans, times, m);
      all' - all >= busy' - busy && (all' - all == busy' - busy <==> AloneAt(spans, times, m))
  {
    var running, d := Running(spans, times[m - 1], times[m]), times[m] - times[m - 1];
    assert running == Below(running, |spans|);
    IntervalIsShared(spans, times, LengthsOf(times), |spans|, m);
    SeveralGetMore(|running|, d);
  }

  /** Between a time stamp and a later one, the next interval begins. */
  lemma NextInterval(times: seq<real>, from: real, to: real) returns (k: nat)
    requires Ascending(times) && from in times && to in times && from < to
    ensures 1 <= k < |times| && times[k - 1] == from < times[k] <= to
  {
    var p :| 0 <= p < |times| && times[p] == from;
    var q :| 0 <= q < |times| && times[q] == to;
    k := p + 1;
    while times[k] == from
      invariant p < k <= q && times[k - 1] == from
      decreases q - k
    {
      k := k + 1;
    }
  }

  lemma TwoOf(tasks: set<nat>)
    requires |tasks| > 1
    ensures exists i, j :: i in tasks && j in tasks && i < j
  {
    var i :| i in tasks;
    var rest := tasks - {i};
    assert |rest| == |tasks| - 1 && rest != {};
    var j :| j in rest;
    assert i in tasks && j in tasks && (i < j || j < i);
  }

  lemma TwoIn(tasks: set<nat>, i: nat, j: nat)
    requires i in tasks && j in tasks && i != j
    ensures |tasks| > 1
  {
    assert |tasks - {i}| == |tasks| - 1 && j in tasks - {i};
  }

  lemma TogetherIsNotAlone(spans: seq<Span>, times: seq<real>, i: nat, j: nat) returns (k: nat)
    requires Ascending(times) && i < j < |spans| && RunTogether(spans[i], spans[j])
    requires spans[i].start in times && spans[j].start in times && spans[i].end in times && spans[j].end in times
    ensures 1 <= k < |times| && !AloneAt(spans, times, k)
  {
    var from := if spans[i].start < spans[j].start then spans[j].start else spans[i].start;
    var to := if spans[i].end < spans[j].end then spans[i].end else spans[j].end;
    k := NextInterval(times, from, to);
    TwoIn(Running(spans, times[k - 1], times[k]), i, j);
  }

  /** The weighted total is at most the CPU time, and equal to it exactly when no two tasks run
      at the same time for more than a moment. */
  lemma {:induction false} TotalAgainstCpuTime(spans: seq<Span>, events: seq<Event>)
    requires EndsAfterStarts(spans) && Schedules(spans, events) && |events| > 0
    ensures TotalWeighted(spans, TimesOf(events)) <= CpuTime(spans)
    ensures TotalWeighted(spans, TimesOf(events)) == CpuTime(spans) <==> NoneRunTogether(spans)
  {
    var t := MakeTimeline(spans, events);
    ForwardIffEndsAfterStarts(t);
    TotalIsBusyTime(spans, TimesOf(events));
    TimesAscend(events);
    BusyAgainstCpuTime(t);
  }

  lemma {:induction false} BusyAgainstCpuTime(t: Timeline)
    requires AllForward(t) && Ascending(t.times) && |t.times| > 0
    ensures BusyTime(t.spans, t.times, |t.times| - 1) <= CpuTime(t.spans)
    ensures BusyTime(t.spans, t.times, |t.times| - 1) == CpuTime(t.spans) <==> NoneRunTogether(t.spans)
  {
    SumIsCpuTime(t, |t.spans|);
    assert t.spans[..|t.spans|] == t.spans;
    CpuUpTo(t.spans, t.times, |t.times| - 1);
    AloneIffNoneTogether(t);
  }

  lemma StampsAreThere(t: Timeline, i: nat)
    requires i < |t.spans|
    ensures t.spans[i].start in t.times && t.spans[i].end in t.times
  {
    assert t.TaskIsPlaced(i);
  }

  lemma {:induction false} AloneIffNoneTogether(t: Timeline)
    requires Ascending(t.times)
    requires |t.times| > 0
    ensures AloneUpTo(t.spans, t.times, |t.times| - 1) <==> NoneRunTogether(t.spans)
  {
    if i, j :| 0 <= i < j < |t.spans| && RunTogether(t.spans[i], t.spans[j]) {
      StampsAreThere(t, i);
      StampsAreThere(t, j);
      var k := TogetherIsNotAlone(t.spans, t.times, i, j);
      if AloneUpTo(t.spans, t.times, |t.times| - 1) {
        AloneBelow(t.spans, t.times, |t.times| - 1, k);
      }
    }
    if !AloneUpTo(t.spans, t.times, |t.times| - 1) {
      var k := NotAloneAt(t.spans, t.times, |t.times| - 1);
      var running := Running(t.spans, t.times[k - 1], t.times[k]);
      TwoOf(running);
      var i, j :| i in running && j in running && i < j;
      assert RunTogether(t.spans[i], t.spans[j]);
    }
  }

  // ----- the whole computation -----------------------------------------------------

  /** Every target carries its weighted duration, and the total is the time during which
      some task runs, for any order of the events. */
  ghost predicate SharesBusyTime(entries: seq<Target>, spans: seq<Span>, weightedTotal: real)
    reads entries
  {
    forall events :: Schedules(spans, events) ==> SharesTimes(entries, spans, TimesOf(events), weightedTotal)
  }

  ghost predicate SharesTimes(entries: seq<Target>, spans: seq<Span>, times: seq<real>, weightedTotal: real)
    reads entries
  {
    && |times| > 0
    && CarryDurations(entries, spans, times)
    && weightedTotal == BusyTime(spans, times, |times| - 1)
  }

  /** WeightedDuration of the original asserts the upper bound. */
  ghost predicate WithinElapsed(entries: seq<Target>)
    reads entries
  {
    forall i :: 0 <= i < |entries| ==> 0.0 <= entries[i].weightedDuration <= entries[i].end - entries[i].start
  }

  /** The total is at most the length, and equal to it exactly when no moment is idle. */
  ghost predicate FitsLength(spans: seq<Span>, earliest: real, latest: real, weightedTotal: real) {
    && IsExtent(spans, earliest, latest)
    && weightedTotal <= latest - earliest
    && (weightedTotal == latest - earliest <==> NoIdleGap(spans, earliest, latest))
  }

  lemma SharesOfSweep(entries: seq<Target>, spans: seq<Span>, events: seq<Event>)
    requires Schedules(spans, events) && |events| > 0 && CarryDurations(entries, spans, TimesOf(events))
    ensures SharesBusyTime(entries, spans, TotalWeighted(spans, TimesOf(events)))
  {
    var times := TimesOf(events);
    var total := TotalWeighted(spans, times);
    TotalIsBusyTime(spans, times);
    assert SharesTimes(entries, spans, times, total);
    forall other | Schedules(spans, other) ensures SharesTimes(entries, spans, TimesOf(other), total) {
      TiesDoNotMatter(spans, other, events);
    }
  }

  lemma ElapsedOfSweep(entries: seq<Target>, events: seq<Event>)
    requires EndsAfterStarts(SpansOf(entries)) && Schedules(SpansOf(entries), events) && |events| > 0
    requires CarryDurations(entries, SpansOf(entries), TimesOf(events))
    ensures WithinElapsed(entries)
  {
    forall i | 0 <= i < |entries|
      ensures 0.0 <= entries[i].weightedDuration <= entries[i].end - entries[i].start
    {
      WeightedDurationIsBounded(SpansOf(entries), events, i);
    }
  }

  lemma LengthOfSweep(spans: seq<Span>, events: seq<Event>, earliest: real, latest: real)
    requires EndsAfterStarts(spans) && Schedules(spans, events) && |events| > 0 && IsExtent(spans, earliest, latest)
    ensures FitsLength(spans, earliest, latest, TotalWeighted(spans, TimesOf(events)))
  {
    ExtentOfTimes(spans, events, earliest, latest);
    TotalAgainstLength(spans, events);
  }

  /** The summary of a build: it fails exactly on an empty list and on a step that ends
      before it starts. */
  method SummarizeEntries(entries: seq<Target>)
    returns (ok: bool, earliest: real, latest: real, cpu: real, weightedTotal: real)
    requires Distinct(entries)
    modifies (set e | e in entries)`weightedDuration
    ensures ok <==> entries != [] && EndsAfterStarts(SpansOf(entries))
    ensures ok ==> SharesBusyTime(entries, SpansOf(entries), weightedTotal) && WithinElapsed(entries)
    ensures ok && NonNegative(SpansOf(entries)) ==> FitsLength(SpansOf(entries), earliest, latest, weightedTotal)
    ensures cpu == CpuTime(SpansOf(entries))
    ensures ok ==> weightedTotal <= cpu && (weightedTotal == cpu <==> NoneRunTogether(SpansOf(entries)))
  {
    var unsorted;
    earliest, latest, cpu, unsorted := Extent(entries);
    var events := Sort(unsorted);
    ok, weightedTotal := Sweep(entries, events);
    if ok {
      SharesOfSweep(entries, SpansOf(entries), events);
      ElapsedOfSweep(entries, events);
      TotalAgainstCpuTime(SpansOf(entries), events);
      if NonNegative(SpansOf(entries)) {
        LengthOfSweep(SpansOf(entries), events, earliest, latest);
      }
    }
  }

  /** Two steps with a second between them: the weighted total is less than the length. */
  method IdleGapShortensTotal() returns (entries: seq<Target>, length: real, weightedTotal: real)
    ensures SpansOf(entries) == [Span(0.0, 1.0), Span(2.0, 3.0)]
    ensures SharesBusyTime(entries, SpansOf(entries), weightedTotal)
    ensures length == 3.0 && weightedTotal < length
  {
    var a := new Target(0.0, 1.0);
    var b := new Target(2.0, 3.0);
    entries := [a, b];
    var ok, earliest, latest, cpu;
    ok, earliest, latest, cpu, weightedTotal := SummarizeEntries(entries);
    length := latest - earliest;
    ghost var spans := SpansOf(entries);
    assert spans[0] == Span(0.0, 1.0) && spans[1] == Span(2.0, 3.0);
    assert earliest <= 1.5 <= latest && !Covered(spans, 1.5);
  }

  /** The sweep raises for a step that ends before it starts. */
  method BackwardStepRaises() returns (entries: seq<Target>, ok: bool)
    ensures SpansOf(entries) == [Span(2.0, 1.0)] && !ok
  {
    var step := new Target(2.0, 1.0);
    entries := [step];
    var earliest, latest, cpu, weightedTotal;
    ok, earliest, latest, cpu, weightedTotal := SummarizeEntries(entries);
    assert SpansOf(entries)[0] == Span(2.0, 1.0);
  }
}
