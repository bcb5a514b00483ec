/** The 90th percentile of a pool's concurrent jobs, by a sweep over start and end events. */
module PoolConcurrency {

  import opened Clock
  import opened Wrappers
  import opened Sequences
  import Jobs

  const MAX_CONCURRENCY_RUNTIME: nat := 2 * HOUR

  datatype HistoryEntry = HistoryEntry(status: Jobs.Status, createdAt: Option<int>, completedAt: Option<int>)

  datatype Interval = Interval(start: int, end: int)

  datatype Event = Event(time: int, delta: int)

  predicate OccupiesInstance(status: Jobs.Status, createdAt: int, now: int) {
    status in {Jobs.Launched, Jobs.Running, Jobs.Terminating} && now - createdAt < MAX_CONCURRENCY_RUNTIME
  }

  /** The time a job counts for, if it counts. */
  function Occupied(e: HistoryEntry, now: int): Option<Interval> {
    if e.createdAt.None? then None
    else if e.completedAt.Some? then Some(Interval(e.createdAt.value, e.completedAt.value))
    else if OccupiesInstance(e.status, e.createdAt.value, now) then Some(Interval(e.createdAt.value, now))
    else None
  }

  function Intervals(jobs: seq<HistoryEntry>, now: int): seq<Interval> {
    if jobs == [] then []
    else if Occupied(jobs[0], now).Some? then [Occupied(jobs[0], now).value] + Intervals(jobs[1..], now)
    else Intervals(jobs[1..], now)
  }

  function Events(ivs: seq<Interval>): seq<Event> {
    if ivs == [] then [] else [Event(ivs[0].start, 1), Event(ivs[0].end, -1)] + Events(ivs[1..])
  }

  // ----- what a sample counts

  function Before(t: int): Event -> int {
    (e: Event) => if e.time < t then e.delta else 0
  }

  function Spans(t: int): Interval -> bool {
    (iv: Interval) => iv.start < t <= iv.end
  }

  /** Recorded as ended before it started, with the sample time in between. */
  function Inverted(t: int): Interval -> bool {
    (iv: Interval) => iv.end < t <= iv.start
  }

  /** The sweep's counter at time t, for every input. */
  function Level(ivs: seq<Interval>, t: int): int {
    |Positions(ivs, Spans(t))| - |Positions(ivs, Inverted(t))|
  }

  lemma {:induction false} NetIsCounts(ivs: seq<Interval>, t: int)
    ensures Sum(Events(ivs), Before(t)) == Sum(ivs, Indicator(Spans(t))) - Sum(ivs, Indicator(Inverted(t)))
  {
    if ivs != [] {
      var pair := [Event(ivs[0].start, 1), Event(ivs[0].end, -1)];
      SumConcat(pair, Events(ivs[1..]), Before(t));
      assert pair[1..] == [Event(ivs[0].end, -1)] && pair[1..][1..] == [];
      NetIsCounts(ivs[1..], t);
    }
  }

  /** Whatever the order of the events, those before t sum up to the level at t. */
  lemma NetIsLevel(ivs: seq<Interval>, es: seq<Event>, t: int)
    requires multiset(es) == multiset(Events(ivs))
    ensures Sum(es, Before(t)) == Level(ivs, t)
  {
    SumOfPermutation(es, Events(ivs), Before(t));
    NetIsCounts(ivs, t);
    CountIsCardinality(ivs, Spans(t));
    CountIsCardinality(ivs, Inverted(t));
  }

  /**
   A sample is the number of jobs with start < t <= end exactly when no job was
   recorded with end < t <= start.
   */
  lemma LevelCountsJobs(ivs: seq<Interval>, t: int)
    ensures Level(ivs, t) == |set i | 0 <= i < |ivs| && ivs[i].start < t <= ivs[i].end|
            <==> forall i :: 0 <= i < |ivs| ==> !(ivs[i].end < t <= ivs[i].start)
  {
    var spans, inverted := Positions(ivs, Spans(t)), Positions(ivs, Inverted(t));
    assert spans == set i | 0 <= i < |ivs| && ivs[i].start < t <= ivs[i].end;
    if |inverted| == 0 {
      forall i | 0 <= i < |ivs| ensures !(ivs[i].end < t <= ivs[i].start) {
        assert i !in inverted;
      }
    } else {
      var i :| i in inverted;
    }
  }

  /** A job whose agent's clock recorded it as over before it began cancels one that was there. */
  lemma InvertedUndercounts(t: int)
    ensures var ivs := [Interval(t - 1, t), Interval(t, t - 1)];
            && |set i | 0 <= i < |ivs| && ivs[i].start < t <= ivs[i].end| == 1
            && Level(ivs, t) == 0
  {
    var ivs := [Interval(t - 1, t), Interval(t, t - 1)];
    assert (set i | 0 <= i < |ivs| && ivs[i].start < t <= ivs[i].end) == {0};
    assert Positions(ivs, Spans(t)) == {0} && Positions(ivs, Inverted(t)) == {1};
  }

  // ----- the same over the history

  /** The job was there at t: created before, and not completed before; an open one still counts up to now. */
  function ThereAt(now: int, t: int): HistoryEntry -> bool {
    (e: HistoryEntry) => var o := Occupied(e, now); o.Some? && o.value.start < t <= o.value.end
  }

  /** The job was recorded as over before it began, with t in between. */
  function InvertedAt(now: int, t: int): HistoryEntry -> bool {
    (e: HistoryEntry) => var o := Occupied(e, now); o.Some? && o.value.end < t <= o.value.start
  }

  /** Jobs there at t, less those inverted around it. */
  function Busy(jobs: seq<HistoryEntry>, now: int, t: int): int {
    |Positions(jobs, ThereAt(now, t))| - |Positions(jobs, InvertedAt(now, t))|
  }

  /** One count a minute from the start on. */
  ghost predicate AreCounts(counts: seq<int>, jobs: seq<HistoryEntry>, now: int, start: int) {
    forall k :: 0 <= k < |counts| ==> counts[k] == Busy(jobs, now, start + k * MINUTE)
  }

  lemma {:induction false} SumOverHistory(jobs: seq<HistoryEntry>, now: int, t: int)
    ensures Sum(Intervals(jobs, now), Indicator(Spans(t))) == Sum(jobs, Indicator(ThereAt(now, t)))
    ensures Sum(Intervals(jobs, now), Indicator(Inverted(t))) == Sum(jobs, Indicator(InvertedAt(now, t)))
  {
    if jobs != [] {
      SumOverHistory(jobs[1..], now, t);
      if Occupied(jobs[0], now).Some? {
        assert Intervals(jobs, now)[1..] == Intervals(jobs[1..], now);
      }
    }
  }

  lemma LevelIsBusy(jobs: seq<HistoryEntry>, now: int, t: int)
    ensures Level(Intervals(jobs, now), t) == Busy(jobs, now, t)
  {
    SumOverHistory(jobs, now, t);
    CountIsCardinality(Intervals(jobs, now), Spans(t));
    CountIsCardinality(Intervals(jobs, now), Inverted(t));
    CountIsCardinality(jobs, ThereAt(now, t));
    CountIsCardinality(jobs, InvertedAt(now, t));
  }

  /**
   What a sample counts: the jobs created before t that were completed at t or later or, never
   completed, that are launched, running or terminating, under two hours old, with t not past now;
   less the jobs completed before t and created at t or later.
   */
  lemma CountIsOfJobs(counts: seq<int>, jobs: seq<HistoryEntry>, now: int, start: int, k: nat)
    requires AreCounts(counts, jobs, now, start) && k < |counts| && start + k * MINUTE <= now
    ensures var t := start + k * MINUTE;
            var there := set i | 0 <= i < |jobs| && jobs[i].createdAt.Some? && jobs[i].createdAt.value < t
                                 && (if jobs[i].completedAt.Some? then t <= jobs[i].completedAt.value
                                     else (jobs[i].status == Jobs.Launched || jobs[i].status == Jobs.Running || jobs[i].status == Jobs.Terminating)
                                          && now < jobs[i].createdAt.value + 2 * HOUR);
            var inverted := set i | 0 <= i < |jobs| && jobs[i].createdAt.Some? && jobs[i].completedAt.Some?
                                    && jobs[i].completedAt.value < t <= jobs[i].createdAt.value;
            && counts[k] == |there| - |inverted|
            && (inverted == {} ==> counts[k] == |there|)
  {
    BusyCountsJobs(jobs, now, start + k * MINUTE);
  }

  lemma BusyCountsJobs(jobs: seq<HistoryEntry>, now: int, t: int)
    requires t <= now
    ensures var there := set i | 0 <= i < |jobs| && jobs[i].createdAt.Some? && jobs[i].createdAt.value < t
                                 && (if jobs[i].completedAt.Some? then t <= jobs[i].completedAt.value
                                     else (jobs[i].status == Jobs.Launched || jobs[i].status == Jobs.Running || jobs[i].status == Jobs.Terminating)
                                          && now < jobs[i].createdAt.value + 2 * HOUR);
            var inverted := set i | 0 <= i < |jobs| && jobs[i].createdAt.Some? && jobs[i].completedAt.Some?
                                    && jobs[i].completedAt.value < t <= jobs[i].createdAt.value;
            && Busy(jobs, now, t) == |there| - |inverted|
            && (inverted == {} ==> Busy(jobs, now, t) == |there|)
  {
    assert Positions(jobs, ThereAt(now, t)) ==
      set i | 0 <= i < |jobs| && jobs[i].createdAt.Some? && jobs[i].createdAt.value < t
              && (if jobs[i].completedAt.Some? then t <= jobs[i].completedAt.value
                  else (jobs[i].status == Jobs.Launched || jobs[i].status == Jobs.Running || jobs[i].status == Jobs.Terminating)
                       && now < jobs[i].createdAt.value + 2 * HOUR);
    assert Positions(jobs, InvertedAt(now, t)) ==
      set i | 0 <= i < |jobs| && jobs[i].createdAt.Some? && jobs[i].completedAt.Some?
              && jobs[i].completedAt.value < t <= jobs[i].createdAt.value;
  }

  // ----- the sweep

  lemma {:induction false} SumOfEarly(es: seq<Event>, t: int, u: int)
    requires t <= u && forall k :: 0 <= k < |es| ==> es[k].time < t
    ensures Sum(es, Before(u)) == Sum(es, Before(t))
  {
    if es != [] { SumOfEarly(es[1..], t, u); }
  }

  lemma {:induction false} SumOfLate(es: seq<Event>, t: int)
    requires forall k :: 0 <= k < |es| ==> t <= es[k].time
    ensures Sum(es, Before(t)) == 0
  {
    if es != [] { SumOfLate(es[1..], t); }
  }

  function SampleCount(start: int, end: int): nat {
    if end <= start then 0 else (end - start - 1) / MINUTE + 1
  }

  /** Takes in the events strictly before t. */
  method Advance(es: seq<Event>, idx0: nat, current0: int, t: int) returns (idx: nat, current: int)
    requires forall i, j :: 0 <= i < j < |es| ==> es[i].time <= es[j].time
    requires idx0 <= |es| && current0 == Sum(es[..idx0], Before(t)) && forall k :: 0 <= k < idx0 ==> es[k].time < t
    ensures idx <= |es| && current == Sum(es, Before(t)) == Sum(es[..idx], Before(t))
    ensures forall k :: 0 <= k < idx ==> es[k].time < t
  {
    idx, current := idx0, current0;
    while idx < |es| && es[idx].time < t
      invariant 0 <= idx <= |es| && current == Sum(es[..idx], Before(t))
      invariant forall k :: 0 <= k < idx ==> es[k].time < t
    {
      SumNext(es, idx, Before(t));
      current := current + es[idx].delta;
      idx := idx + 1;
    }
    SumSplit(es, idx, Before(t));
    SumOfLate(es[idx..], t);
  }

  method Sweep(es: seq<Event>, start: int, end: int) returns (samples: seq<int>)
    requires forall i, j :: 0 <= i < j < |es| ==> es[i].time <= es[j].time
    ensures |samples| == SampleCount(start, end)
    ensures forall k :: 0 <= k < |samples| ==> samples[k] == Sum(es, Before(start + k * MINUTE))
  {
    samples := [];
    var idx := 0;
    var current := 0;
    var t := start;
    while t < end
      invariant t == start + |samples| * MINUTE
      invariant |samples| <= SampleCount(start, end) && (t < end <==> |samples| < SampleCount(start, end))
      invariant 0 <= idx <= |es| && current == Sum(es[..idx], Before(t))
      invariant forall k :: 0 <= k < idx ==> es[k].time < t
      invariant forall k :: 0 <= k < |samples| ==> samples[k] == Sum(es, Before(start + k * MINUTE))
      decreases end - t
    {
      idx, current := Advance(es, idx, current, t);
      samples := samples + [current];
      SumOfEarly(es[..idx], t, t + MINUTE);
      t := t + MINUTE;
    }
  }

  // ----- the percentile

  function P90Index(n: nat): nat
    requires n > 0
  {
    (0.9 * (n - 1) as real).Floor
  }

  lemma P90IndexValue(n: nat)
    requires n > 0
    ensures P90Index(n) == 9 * (n - 1) / 10 < n
  {
    var x := 9 * (n - 1);
    assert 0.9 * (n - 1) as real == x as real / 10.0;
    assert x == 10 * (x / 10) + x % 10;
    assert (x / 10) as real <= x as real / 10.0 < (x / 10) as real + 1.0;
  }

  predicate AtMost(a: int, b: int) { a <= b }

  function Above(v: int): int -> bool { (x: int) => x > v }

  function Below(v: int): int -> bool { (x: int) => x < v }

  /** In a sorted sequence, at most n-1-k elements exceed the k-th and at most k are smaller. */
  lemma OrderStatistic(s: seq<int>, k: nat)
    requires k < |s| && SortedBy(s, AtMost)
    ensures Sum(s, Indicator(Above(s[k]))) <= |s| - 1 - k
    ensures Sum(s, Indicator(Below(s[k]))) <= k
  {
    var above, below := Positions(s, Above(s[k])), Positions(s, Below(s[k]));
    CountIsCardinality(s, Above(s[k]));
    CountIsCardinality(s, Below(s[k]));
    forall i | i in above ensures k < i { assert i < k ==> AtMost(s[i], s[k]); }
    forall i | i in below ensures i < k { assert k < i ==> AtMost(s[k], s[i]); }
    RangeSize(above, k + 1, |s|);
    RangeSize(below, 0, k);
  }

  lemma {:induction false} RangeSize(a: set<int>, lo: int, hi: int)
    requires lo <= hi && forall i :: i in a ==> lo <= i < hi
    ensures |a| <= hi - lo
    decreases hi - lo
  {
    if lo < hi {
      RangeSize(a - {hi - 1}, lo, hi - 1);
      assert |a| <= |a - {hi - 1}| + 1;
    } else {
      assert a == {};
    }
  }

  function WindowStart(queriedAt: int, windowHours: int): int {
    queriedAt - (if windowHours <= 0 then 1 else windowHours) * HOUR
  }

  predicate EarlierFirst(a: Event, b: Event) {
    a.time < b.time || (a.time == b.time && a.delta <= b.delta)
  }

  /** One start and one end event for each job that counts. */
  method CollectEvents(jobs: seq<HistoryEntry>, now: int) returns (events: seq<Event>)
    ensures events == Events(Intervals(jobs, now))
  {
    events := [];
    for i := 0 to |jobs|
      invariant events == Events(Intervals(jobs[..i], now))
    {
      IntervalsNext(jobs, i, now);
      if jobs[i].createdAt.Some? {
        var start := jobs[i].createdAt.value;
        var end := now;
        if jobs[i].completedAt.Some? {
          end := jobs[i].completedAt.value;
        } else if !OccupiesInstance(jobs[i].status, start, now) {
          continue;
        }
        EventsAppend(Intervals(jobs[..i], now), Interval(start, end));
        events := events + [Event(start, 1), Event(end, -1)];
      }
    }
    assert jobs[..|jobs|] == jobs;
  }

  lemma {:induction false} IntervalsConcat(a: seq<HistoryEntry>, b: seq<HistoryEntry>, now: int)
    ensures Intervals(a + b, now) == Intervals(a, now) + Intervals(b, now)
  {
    if a == [] {
      assert a + b == b;
    } else {
      assert (a + b)[1..] == a[1..] + b && (a + b)[0] == a[0];
      IntervalsConcat(a[1..], b, now);
    }
  }

  lemma IntervalsNext(jobs: seq<HistoryEntry>, i: nat, now: int)
    requires i < |jobs|
    ensures var o := Occupied(jobs[i], now);
            Intervals(jobs[..i + 1], now) == if o.Some? then Intervals(jobs[..i], now) + [o.value] else Intervals(jobs[..i], now)
  {
    assert jobs[..i + 1] == jobs[..i] + [jobs[i]];
    IntervalsConcat(jobs[..i], [jobs[i]], now);
  }

  /**
   `queriedAt` and `now` are the two clock readings taken around the history query, `counts` the
   jobs there at each of the n minutes of the window. The result is one of them, exceeded by at
   most a tenth of them.
   */
  method GetPoolP90Concurrency(jobs: seq<HistoryEntry>, windowHours: int, queriedAt: int, now: int)
    returns (p90: int, ghost counts: seq<int>)
    ensures var start := queriedAt - (if windowHours <= 0 then 1 else windowHours) * HOUR;
            && |counts| == (if now <= start then 0 else (now - start - 1) / MINUTE + 1)
            && AreCounts(counts, jobs, now, start)
    ensures counts == [] ==> p90 == 0
    ensures counts != [] ==> p90 in counts
    ensures counts != [] ==> |set k | 0 <= k < |counts| && counts[k] > p90| <= |counts| - 1 - 9 * (|counts| - 1) / 10
    ensures counts != [] ==> |set k | 0 <= k < |counts| && counts[k] < p90| <= 9 * (|counts| - 1) / 10
  {
    var events := CollectEvents(jobs, now);
    var start := WindowStart(queriedAt, windowHours);
    if |events| == 0 {
      counts := QuietWindow(jobs, now, start);
      return 0, counts;
    }
    var samples := SampleHistory(jobs, now, events, start);
    if |samples| == 0 { return 0, samples; }
    p90 := Rank90(samples);
    return p90, samples;
  }

  method SampleHistory(jobs: seq<HistoryEntry>, now: int, events: seq<Event>, start: int) returns (samples: seq<int>)
    requires events == Events(Intervals(jobs, now))
    ensures |samples| == SampleCount(start, now) && AreCounts(samples, jobs, now, start)
  {
    var sorted := Sort(events, EarlierFirst);
    SortedByTime(events, sorted);
    samples := Sweep(sorted, start, now);
    SamplesAreBusy(jobs, now, sorted, start, samples);
  }

  lemma QuietWindow(jobs: seq<HistoryEntry>, now: int, start: int) returns (counts: seq<int>)
    requires Events(Intervals(jobs, now)) == []
    ensures |counts| == SampleCount(start, now) && AreCounts(counts, jobs, now, start)
    ensures counts != [] ==> 0 in counts
    ensures |set k | 0 <= k < |counts| && counts[k] > 0| == 0
    ensures |set k | 0 <= k < |counts| && counts[k] < 0| == 0
  {
    counts := seq(SampleCount(start, now), _ => 0);
    NobodyCounts(jobs, now);
    if counts != [] { assert counts[0] == 0; }
    assert (set k | 0 <= k < |counts| && counts[k] > 0) == {};
    assert (set k | 0 <= k < |counts| && counts[k] < 0) == {};
  }

  method Rank90(samples: seq<int>) returns (p90: int)
    requires samples != []
    ensures p90 in samples
    ensures |set k | 0 <= k < |samples| && samples[k] > p90| <= |samples| - 1 - 9 * (|samples| - 1) / 10
    ensures |set k | 0 <= k < |samples| && samples[k] < p90| <= 9 * (|samples| - 1) / 10
  {
    var ranked := Sort(samples, AtMost);
    SortSorts(samples, AtMost);
    P90IndexValue(|samples|);
    p90 := ranked[P90Index(|ranked|)];
    Percentile(samples, ranked, P90Index(|ranked|));
    assert Positions(samples, Above(p90)) == set k | 0 <= k < |samples| && samples[k] > p90;
    assert Positions(samples, Below(p90)) == set k | 0 <= k < |samples| && samples[k] < p90;
  }

  /** Without a job that counts, nobody is ever there. */
  lemma NobodyCounts(jobs: seq<HistoryEntry>, now: int)
    requires Events(Intervals(jobs, now)) == []
    ensures forall t :: Busy(jobs, now, t) == 0
  {
    forall t ensures Busy(jobs, now, t) == 0 {
      LevelIsBusy(jobs, now, t);
      assert Intervals(jobs, now) == [];
    }
  }

  lemma SortedByTime(events: seq<Event>, sorted: seq<Event>)
    requires sorted == Sort(events, EarlierFirst)
    ensures multiset(sorted) == multiset(events)
    ensures forall i, j :: 0 <= i < j < |sorted| ==> sorted[i].time <= sorted[j].time
  {
    SortSorts(events, EarlierFirst);
    forall i, j | 0 <= i < j < |sorted| ensures sorted[i].time <= sorted[j].time {
      assert EarlierFirst(sorted[i], sorted[j]);
    }
  }

  lemma {:induction false} EventsAppend(ivs: seq<Interval>, iv: Interval)
    ensures Events(ivs + [iv]) == Events(ivs) + [Event(iv.start, 1), Event(iv.end, -1)]
  {
    if ivs == [] {
      assert ivs + [iv] == [iv];
      assert [iv][1..] == [];
    } else {
      assert (ivs + [iv])[1..] == ivs[1..] + [iv];
      EventsAppend(ivs[1..], iv);
    }
  }

  lemma Percentile(samples: seq<int>, ranked: seq<int>, k: nat)
    requires SortedBy(ranked, AtMost) && multiset(ranked) == multiset(samples) && k < |ranked|
    ensures ranked[k] in samples && |ranked| == |samples|
    ensures |Positions(samples, Above(ranked[k]))| <= |samples| - 1 - k
    ensures |Positions(samples, Below(ranked[k]))| <= k
  {
    assert |ranked| == |multiset(ranked)| == |multiset(samples)| == |samples|;
    assert ranked[k] in multiset(ranked);
    OrderStatistic(ranked, k);
    SumOfPermutation(ranked, samples, Indicator(Above(ranked[k])));
    SumOfPermutation(ranked, samples, Indicator(Below(ranked[k])));
    CountIsCardinality(samples, Above(ranked[k]));
    CountIsCardinality(samples, Below(ranked[k]));
  }

  lemma SamplesAreBusy(jobs: seq<HistoryEntry>, now: int, es: seq<Event>, start: int, samples: seq<int>)
    requires multiset(es) == multiset(Events(Intervals(jobs, now)))
    requires forall k :: 0 <= k < |samples| ==> samples[k] == Sum(es, Before(start + k * MINUTE))
    ensures AreCounts(samples, jobs, now, start)
  {
    forall k | 0 <= k < |samples| ensures samples[k] == Busy(jobs, now, start + k * MINUTE) {
      NetIsLevel(Intervals(jobs, now), es, start + k * MINUTE);
      LevelIsBusy(jobs, now, start + k * MINUTE);
    }
  }
}
