/** The spot-interruption circuit breaker: a table row per instance type and a one-minute cache. */
module CircuitBreaker {

  import opened Clock
  import opened Wrappers

  const INTERRUPTION_THRESHOLD: nat := 3
  const TIME_WINDOW: nat := 15 * MINUTE
  const COOLDOWN_PERIOD: nat := 30 * MINUTE
  const CACHE_TTL: nat := MINUTE

  datatype Circuit = Closed | Open | HalfOpen

  /** Timestamps are whole seconds; a cleared timestamp is none. */
  datatype Record = Record(
    state: Circuit, count: int, first: Option<nat>, last: Option<nat>,
    openedAt: Option<nat>, autoResetAt: Option<nat>, ttl: nat)

  const RESET_RECORD := Record(Closed, 0, None, None, None, None, 0)

  datatype Cached = Cached(state: Circuit, at: Instant)

  // ----- rows

  predicate OutsideWindow(r: Record, now: Instant) {
    r.first.Some? && now - r.first.value * SECOND > TIME_WINDOW
  }

  function AfterInterruption(row: Option<Record>, now: Instant): Record {
    var r0 := if row.Some? then row.value else RESET_RECORD.(first := Some(Seconds(now)));
    var r1 := if OutsideWindow(r0, now) then r0.(count := 0, first := Some(Seconds(now))) else r0;
    var r2 := r1.(count := r1.count + 1, last := Some(Seconds(now)));
    var r3 := if r2.count >= INTERRUPTION_THRESHOLD && r2.state == Closed
              then r2.(state := Open, openedAt := Some(Seconds(now)), autoResetAt := Some(Seconds(now + COOLDOWN_PERIOD)))
              else r2;
    if r3.autoResetAt.Some? then r3.(ttl := r3.autoResetAt.value + 3600) else r3
  }

  predicate DueForReset(r: Record, now: Instant) {
    r.state == Open && r.autoResetAt.Some? && now > r.autoResetAt.value * SECOND
  }

  /** What a check that reads the table answers. */
  function Uncached(row: Option<Record>, now: Instant): Circuit {
    if row.None? || DueForReset(row.value, now) then Closed else row.value.state
  }

  // ----- operations on table and cache; the flags say which calls were answered

  datatype Sys = Sys(table: map<string, Record>, cache: map<string, Cached>)

  predicate Fresh(s: Sys, t: string, now: Instant) {
    t in s.cache && now - s.cache[t].at < CACHE_TTL
  }

  function AfterRecord(s: Sys, t: string, now: Instant, read: bool, write: bool): Sys {
    if !read || !write then s
    else Sys(s.table[t := AfterInterruption(Lookup(s.table, t), now)], s.cache - {t})
  }

  function AfterReset(s: Sys, t: string, write: bool): Sys {
    if !write then s else Sys(s.table[t := RESET_RECORD], s.cache - {t})
  }

  function Answer(s: Sys, t: string, now: Instant, read: bool): Option<Circuit> {
    if Fresh(s, t, now) then Some(s.cache[t].state)
    else if !read then None
    else Some(Uncached(Lookup(s.table, t), now))
  }

  function AfterCheck(s: Sys, t: string, now: Instant, read: bool, write: bool): Sys {
    if Fresh(s, t, now) || !read || t !in s.table then s
    else
      var reset := DueForReset(s.table[t], now) && write;
      Sys(if reset then s.table[t := RESET_RECORD.(ttl := s.table[t].ttl)] else s.table,
          s.cache[t := Cached(Uncached(Some(s.table[t]), now), now)])
  }

  predicate Expired(c: Cached, now: Instant) {
    now > c.at + 2 * CACHE_TTL
  }

  function AfterCleanup(s: Sys, now: Instant): Sys {
    s.(cache := map t | t in s.cache && !Expired(s.cache[t], now) :: s.cache[t])
  }

  class Breaker {
    var table: map<string, Record>
    var cache: map<string, Cached>

    function State(): Sys
      reads this
    {
      Sys(table, cache)
    }

    constructor ()
      ensures State() == Sys(map[], map[])
    {
      table, cache := map[], map[];
    }

    method RecordInterruption(t: string, now: Instant, read: bool, write: bool) returns (ok: bool)
      modifies this
      ensures ok <==> read && write
      ensures State() == AfterRecord(old(State()), t, now, read, write)
      ensures !ok ==> table == old(table) && cache == old(cache)
      ensures ok ==> t in table && table == old(table)[t := table[t]] && cache == old(cache) - {t}
      ensures ok ==>
                var anew := t !in old(table)
                            || (old(table)[t].first.Some? && old(table)[t].first.value * SECOND + 15 * MINUTE < now);
                && table[t].count == (if anew then 1 else old(table)[t].count + 1)
                && table[t].first == (if anew then Some(now / SECOND) else old(table)[t].first)
                && table[t].last == Some(now / SECOND)
      ensures ok ==>
                var opens := (t in old(table) ==> old(table)[t].state == Closed) && table[t].count >= 3;
                && table[t].state == (if opens then Open else if t in old(table) then old(table)[t].state else Closed)
                && table[t].openedAt == (if opens then Some(now / SECOND) else if t in old(table) then old(table)[t].openedAt else None)
                && table[t].autoResetAt == (if opens then Some((now + 30 * MINUTE) / SECOND)
                                            else if t in old(table) then old(table)[t].autoResetAt else None)
                && (table[t].autoResetAt.Some? ==> table[t].ttl == table[t].autoResetAt.value + 3600)
    {
      if !read { return false; }
      var record := if t in table then table[t] else RESET_RECORD.(first := Some(Seconds(now)));
      if record.first.Some? && now - record.first.value * SECOND > TIME_WINDOW {
        record := record.(count := 0, first := Some(Seconds(now)));
      }
      record := record.(count := record.count + 1, last := Some(Seconds(now)));
      if record.count >= INTERRUPTION_THRESHOLD && record.state == Closed {
        record := record.(state := Open);
        record := record.(openedAt := Some(Seconds(now)), autoResetAt := Some(Seconds(now + COOLDOWN_PERIOD)));
      }
      if record.autoResetAt.Some? {
        record := record.(ttl := record.autoResetAt.value + 3600);
      }
      if !write { return false; }
      table := table[t := record];
      cache := cache - {t};
      return true;
    }

    method CheckCircuit(t: string, now: Instant, read: bool, write: bool) returns (answer: Option<Circuit>)
      modifies this
      ensures answer == Answer(old(State()), t, now, read)
      ensures State() == AfterCheck(old(State()), t, now, read, write)
      ensures if t in old(cache) && now < old(cache)[t].at + MINUTE then
                answer == Some(old(cache)[t].state) && table == old(table) && cache == old(cache)
              else if !read then answer == None && table == old(table) && cache == old(cache)
              else if t !in old(table) then answer == Some(Closed) && table == old(table) && cache == old(cache)
              else
                var row := old(table)[t];
                var due := row.state == Open && row.autoResetAt.Some? && row.autoResetAt.value * SECOND < now;
                && answer == Some(if due then Closed else row.state)
                && cache == old(cache)[t := Cached(if due then Closed else row.state, now)]
                && table == (if due && write then old(table)[t := Record(Closed, 0, None, None, None, None, row.ttl)] else old(table))
    {
      if t in cache && now - cache[t].at < CACHE_TTL { return Some(cache[t].state); }
      if !read { return None; }
      if t !in table { return Some(Closed); }
      var record := table[t];
      var state := record.state;
      if state == Open && record.autoResetAt.Some? && now > record.autoResetAt.value * SECOND {
        state := Closed;
        record := RESET_RECORD.(ttl := record.ttl);
        if write { table := table[t := record]; }
      }
      cache := cache[t := Cached(state, now)];
      return Some(state);
    }

    method ResetCircuit(t: string, write: bool) returns (ok: bool)
      modifies this
      ensures ok == write
      ensures State() == AfterReset(old(State()), t, write)
      ensures table == (if write then old(table)[t := Record(Closed, 0, None, None, None, None, 0)] else old(table))
      ensures cache == (if write then old(cache) - {t} else old(cache))
    {
      if !write { return false; }
      table := table[t := RESET_RECORD];
      cache := cache - {t};
      return true;
    }

    method CleanupExpiredCache(now: Instant)
      modifies this`cache
      ensures State() == AfterCleanup(old(State()), now)
      ensures forall t :: t in cache <==> t in old(cache) && now <= old(cache)[t].at + 2 * MINUTE
      ensures forall t :: t in cache ==> cache[t] == old(cache)[t]
    {
      var keys := cache.Keys;
      while keys != {}
        invariant keys <= old(cache).Keys
        invariant forall t :: t in cache <==> t in old(cache) && (t in keys || !Expired(old(cache)[t], now))
        invariant forall t :: t in cache ==> cache[t] == old(cache)[t]
        decreases |keys|
      {
        var t :| t in keys;
        keys := keys - {t};
        if now > cache[t].at + 2 * CACHE_TTL {
          cache := cache - {t};
        }
      }
      assert cache == AfterCleanup(old(State()), now).cache;
    }
  }

  // ----- over runs

  datatype Op =
    | DoRecord(t: string, read: bool, write: bool)
    | DoCheck(t: string, read: bool, write: bool)
    | DoReset(t: string, write: bool)
    | DoCleanup

  function Apply(s: Sys, op: Op, now: Instant): Sys {
    match op
    case DoRecord(t, read, write) => AfterRecord(s, t, now, read, write)
    case DoCheck(t, read, write) => AfterCheck(s, t, now, read, write)
    case DoReset(t, write) => AfterReset(s, t, write)
    case DoCleanup => AfterCleanup(s, now)
  }

  /** One breaker used by one caller at a time, from an empty table. */
  datatype Run = Run(states: seq<Sys>, ops: seq<Op>, at: seq<Instant>)

  ghost predicate IsRun(r: Run) {
    && |r.ops| == |r.at| && |r.states| == |r.ops| + 1 && r.states[0] == Sys(map[], map[])
    && (forall i, j :: 0 <= i < j < |r.at| ==> r.at[i] <= r.at[j])
    && (forall i :: 0 <= i < |r.ops| ==> IsStep(r, i))
  }

  ghost predicate IsStep(r: Run, i: nat)
    requires i < |r.ops| == |r.at| && |r.states| == |r.ops| + 1
  {
    r.states[i + 1] == Apply(r.states[i], r.ops[i], r.at[i])
  }

  /** Closed means below the threshold; open means an auto-reset 30 minutes after opening. */
  predicate RowOk(r: Record) {
    match r.state
    case Closed => 0 <= r.count < INTERRUPTION_THRESHOLD
    case Open => r.openedAt.Some? && r.autoResetAt == Some(r.openedAt.value + 30 * 60) && r.count >= 0
    case HalfOpen => false
  }

  /** A cached answer is the current row judged at the moment it was cached. */
  ghost predicate SysOk(s: Sys, now: Instant) {
    && (forall t :: t in s.table ==> RowOk(s.table[t]))
    && (forall t :: t in s.cache ==>
          t in s.table && s.cache[t].at <= now && s.cache[t].state == Uncached(Some(s.table[t]), s.cache[t].at))
  }

  lemma InterruptionKeepsRow(row: Option<Record>, now: Instant)
    requires row.Some? ==> RowOk(row.value)
    ensures RowOk(AfterInterruption(row, now))
  {
    assert Seconds(now + COOLDOWN_PERIOD) == Seconds(now) + 30 * 60;
  }

  lemma OpKeepsSys(s: Sys, op: Op, now: Instant)
    requires SysOk(s, now)
    ensures SysOk(Apply(s, op, now), now)
  {
    if op.DoRecord? {
      InterruptionKeepsRow(Lookup(s.table, op.t), now);
    }
  }

  ghost function When(r: Run, i: nat): Instant
    requires IsRun(r) && i < |r.states|
  {
    if i == 0 then 0 else r.at[i - 1]
  }

  lemma {:induction false} RunKeepsSys(r: Run, i: nat)
    requires IsRun(r) && i < |r.states|
    ensures SysOk(r.states[i], When(r, i))
  {
    if i > 0 {
      RunKeepsSys(r, i - 1);
      assert IsStep(r, i - 1);
      OpKeepsSys(r.states[i - 1], r.ops[i - 1], r.at[i - 1]);
    }
  }

  /** In every reachable state a closed circuit counts fewer than three, an open one resets after 30 minutes. */
  lemma CircuitRows(r: Run, i: nat, t: string)
    requires IsRun(r) && i < |r.states| && t in r.states[i].table
    ensures var row := r.states[i].table[t];
            && (row.state == Closed ==> row.count < INTERRUPTION_THRESHOLD)
            && (row.state == Open ==> row.openedAt.Some? && row.autoResetAt == Some(row.openedAt.value + 30 * 60))
            && row.state != HalfOpen
  {
    RunKeepsSys(r, i);
  }

  /** A cached answer goes back to an uncached check of an earlier step. */
  lemma {:induction false} CacheOrigin(r: Run, i: nat, t: string) returns (k: nat)
    requires IsRun(r) && i < |r.states| && t in r.states[i].cache
    ensures k < i && r.at[k] == r.states[i].cache[t].at
    ensures Uncached(Lookup(r.states[k].table, t), r.at[k]) == r.states[i].cache[t].state
  {
    assert IsStep(r, i - 1);
    if t in r.states[i - 1].cache && r.states[i - 1].cache[t] == r.states[i].cache[t] {
      k := CacheOrigin(r, i - 1, t);
    } else {
      k := i - 1;
    }
  }

  /**
   Every answer is what an uncached check said at some step within the last minute, and
   also what the row as it stands now would have answered at that moment.
   */
  lemma AnswerAtMostAMinuteOld(r: Run, i: nat)
    requires IsRun(r) && i < |r.ops| && r.ops[i].DoCheck?
    requires Answer(r.states[i], r.ops[i].t, r.at[i], r.ops[i].read).Some?
    ensures exists k :: 0 <= k <= i && r.at[i] - r.at[k] < MINUTE
                        && Some(Uncached(Lookup(r.states[k].table, r.ops[i].t), r.at[k]))
                           == Answer(r.states[i], r.ops[i].t, r.at[i], r.ops[i].read)
                           == Some(Uncached(Lookup(r.states[i].table, r.ops[i].t), r.at[k]))
  {
    var t := r.ops[i].t;
    RunKeepsSys(r, i);
    if Fresh(r.states[i], t, r.at[i]) {
      var k := CacheOrigin(r, i, t);
      assert r.at[k] <= r.at[i];
    }
  }

  // ----- how long a circuit stays open

  /** For thirty minutes after it opened, every answered check of a circuit says so, and leaves its row. */
  lemma StaysOpen(r: Run, i: nat, t: string)
    requires IsRun(r) && i < |r.ops| && r.ops[i].DoCheck? && r.ops[i].t == t && r.ops[i].read
    requires t in r.states[i].table && r.states[i].table[t].state == Open
    requires r.states[i].table[t].openedAt.Some? ==> r.at[i] <= (r.states[i].table[t].openedAt.value + 1800) * SECOND
    ensures Answer(r.states[i], t, r.at[i], r.ops[i].read) == Some(Open)
    ensures t in r.states[i + 1].table && r.states[i + 1].table[t] == r.states[i].table[t]
  {
    RunKeepsSys(r, i);
    assert IsStep(r, i);
  }

  /** After that, a check that reads the table answers closed and, if its write is answered, empties the row. */
  lemma ClosesAfterCooldown(r: Run, i: nat, t: string)
    requires IsRun(r) && i < |r.ops| && r.ops[i].DoCheck? && r.ops[i].t == t && r.ops[i].read
    requires t in r.states[i].table && r.states[i].table[t].state == Open
    requires r.states[i].table[t].openedAt.Some? ==> (r.states[i].table[t].openedAt.value + 1800) * SECOND < r.at[i]
    requires t in r.states[i].cache ==> r.states[i].cache[t].at + MINUTE <= r.at[i]
    ensures Answer(r.states[i], t, r.at[i], r.ops[i].read) == Some(Closed)
    ensures r.ops[i].write ==> t in r.states[i + 1].table && r.states[i + 1].table[t].state == Closed && r.states[i + 1].table[t].count == 0
  {
    RunKeepsSys(r, i);
    assert IsStep(r, i);
  }

  // ----- when a circuit opens

  /** Step m recorded an interruption of t, and every call of it was answered. */
  predicate Recorded(r: Run, m: nat, t: string)
    requires m < |r.ops|
  {
    r.ops[m] == DoRecord(t, true, true)
  }

  /** Interruptions of t recorded by the first n steps at or after an instant. */
  function Recordings(r: Run, t: string, from: int, n: nat): nat
    requires n <= |r.ops| == |r.at|
  {
    if n == 0 then 0
    else Recordings(r, t, from, n - 1) + if Recorded(r, n - 1, t) && from <= r.at[n - 1] then 1 else 0
  }

  lemma {:induction false} EarlierHoldsMore(r: Run, t: string, from: int, earlier: int, n: nat)
    requires n <= |r.ops| == |r.at| && earlier <= from
    ensures Recordings(r, t, from, n) <= Recordings(r, t, earlier, n)
  {
    if n > 0 { EarlierHoldsMore(r, t, from, earlier, n - 1); }
  }

  /** A row with a window counts interruptions recorded since the window began, and no more. */
  ghost predicate CountsRecordings(r: Run, i: nat, t: string)
    requires IsRun(r) && i < |r.states|
  {
    t in r.states[i].table && r.states[i].table[t].first.Some? ==>
      var from := r.states[i].table[t].first.value * SECOND;
      from <= When(r, i) && r.states[i].table[t].count <= Recordings(r, t, from, i)
  }

  lemma {:induction false} CountIsOfRecordings(r: Run, i: nat, t: string)
    requires IsRun(r) && i < |r.states|
    ensures CountsRecordings(r, i, t)
  {
    if i > 0 {
      CountIsOfRecordings(r, i - 1, t);
      var s, s' := r.states[i - 1], r.states[i];
      assert IsStep(r, i - 1);
      assert When(r, i - 1) <= r.at[i - 1];
      if Recorded(r, i - 1, t) {
        assert s'.table[t] == AfterInterruption(Lookup(s.table, t), r.at[i - 1]);
      }
    }
  }

  /** An interruption opens a closed circuit when it is the third and the window has not passed. */
  lemma OpensExactlyWhen(r: Record, now: Instant)
    requires r.state == Closed
    ensures AfterInterruption(Some(r), now).state == Open
            <==> r.count + 1 >= INTERRUPTION_THRESHOLD && !OutsideWindow(r, now)
  {
  }

  /** The step opens the circuit of t. */
  predicate Opens(r: Run, i: nat, t: string)
    requires i + 1 < |r.states|
  {
    && (t in r.states[i].table ==> r.states[i].table[t].state == Closed)
    && t in r.states[i + 1].table && r.states[i + 1].table[t].state == Open
  }

  /** Only a recorded interruption opens a circuit, and not the first one of a row. */
  lemma OpenedByRecording(s: Sys, op: Op, now: Instant, t: string)
    requires t in s.table ==> s.table[t].state == Closed
    requires t in Apply(s, op, now).table && Apply(s, op, now).table[t].state == Open
    ensures op == DoRecord(t, true, true) && t in s.table
    ensures Apply(s, op, now).table[t] == AfterInterruption(Some(s.table[t]), now)
  {
  }

  /**
   A circuit whose row has a window opens only on the third interruption recorded within
   fifteen minutes.
   */
  lemma OpensWithinWindow(r: Run, i: nat, t: string)
    requires IsRun(r) && i < |r.ops| && Opens(r, i, t)
    requires t in r.states[i].table ==> r.states[i].table[t].first.Some?
    ensures Recorded(r, i, t) && Recordings(r, t, r.at[i] - TIME_WINDOW, i + 1) >= 3
  {
    var s, now := r.states[i], r.at[i];
    assert IsStep(r, i);
    OpenedByRecording(s, r.ops[i], now, t);
    OpensExactlyWhen(s.table[t], now);
    CountIsOfRecordings(r, i, t);
    EarlierHoldsMore(r, t, s.table[t].first.value * SECOND, now - TIME_WINDOW, i);
  }

  /** Interruptions of t recorded from step a up to step b. */
  function RecordingsIn(r: Run, t: string, a: nat, b: nat): nat
    requires a <= b <= |r.ops|
    decreases b - a
  {
    if a == b then 0 else RecordingsIn(r, t, a, b - 1) + if Recorded(r, b - 1, t) then 1 else 0
  }

  /** A step of the window that began in this second, without a manual reset of t. */
  predicate InWindow(r: Run, m: nat, t: string, first: nat)
    requires m < |r.ops| == |r.at|
  {
    r.at[m] <= first * SECOND + 15 * MINUTE && !(r.ops[m].DoReset? && r.ops[m].t == t)
  }

  /** The row of the window: while closed it has counted every recording, once open it is not due for a reset. */
  predicate Counting(row: Option<Record>, first: nat, count: int) {
    && row.Some? && row.value.first == Some(first)
    && match row.value.state
       case Closed => row.value.count == count
       case Open => row.value.autoResetAt.Some? && first + 1800 <= row.value.autoResetAt.value
       case HalfOpen => false
  }

  lemma WindowStep(r: Run, m: nat, t: string, first: nat, count: int)
    requires IsRun(r) && m < |r.ops| && InWindow(r, m, t, first) && first * SECOND <= r.at[m]
    requires Counting(Lookup(r.states[m].table, t), first, count)
    ensures Counting(Lookup(r.states[m + 1].table, t), first, if Recorded(r, m, t) then count + 1 else count)
  {
    assert IsStep(r, m);
    if Recorded(r, m, t) {
      assert Lookup(r.states[m + 1].table, t) == Some(AfterInterruption(Lookup(r.states[m].table, t), r.at[m]));
    }
  }

  lemma {:induction false} WindowCounts(r: Run, a: nat, b: nat, t: string, first: nat, count: int)
    requires IsRun(r) && a <= b <= |r.ops|
    requires forall m :: a <= m < b ==> InWindow(r, m, t, first) && first * SECOND <= r.at[m]
    requires Counting(Lookup(r.states[a].table, t), first, count)
    ensures Counting(Lookup(r.states[b].table, t), first, count + RecordingsIn(r, t, a, b))
  {
    if a < b {
      WindowCounts(r, a, b - 1, t, first, count);
      WindowStep(r, b - 1, t, first, count + RecordingsIn(r, t, a, b - 1));
    }
  }

  lemma WhenBefore(r: Run, a: nat, m: nat)
    requires IsRun(r) && a <= m < |r.ops|
    ensures When(r, a) <= r.at[m]
  {
  }

  /**
   Three interruptions within fifteen minutes of a window open the circuit: from a row that is
   closed, with the window's first second and a count, as soon as the count reaches three.
   */
  lemma WindowOpens(r: Run, a: nat, b: nat, t: string, first: nat)
    requires IsRun(r) && a <= b <= |r.ops| && t in r.states[a].table
    requires r.states[a].table[t].state == Closed && r.states[a].table[t].first == Some(first)
    requires forall m :: a <= m < b ==> r.at[m] <= first * SECOND + 15 * MINUTE
    requires forall m :: a <= m < b ==> !(r.ops[m].DoReset? && r.ops[m].t == t)
    requires r.states[a].table[t].count + RecordingsIn(r, t, a, b) >= 3
    ensures t in r.states[b].table && r.states[b].table[t].state == Open
  {
    var row := r.states[a].table[t];
    CountIsOfRecordings(r, a, t);
    forall m | a <= m < b ensures InWindow(r, m, t, first) && first * SECOND <= r.at[m] { WhenBefore(r, a, m); }
    WindowCounts(r, a, b, t, first, row.count);
    RunKeepsSys(r, b);
  }

  /** The first interruption of a type begins a window; two more within fifteen minutes open the circuit. */
  lemma ThirdOpens(r: Run, a: nat, b: nat, t: string, first: nat)
    requires IsRun(r) && a < b <= |r.ops| && t !in r.states[a].table && Recorded(r, a, t) && first == r.at[a] / SECOND
    requires forall m :: a < m < b ==> r.at[m] <= first * SECOND + 15 * MINUTE
    requires forall m :: a < m < b ==> !(r.ops[m].DoReset? && r.ops[m].t == t)
    requires RecordingsIn(r, t, a + 1, b) >= 2
    ensures t in r.states[b].table && r.states[b].table[t].state == Open
  {
    FirstRow(r, a, t, first);
    WindowOpens(r, a + 1, b, t, first);
  }

  lemma FirstRow(r: Run, a: nat, t: string, first: nat)
    requires IsRun(r) && a < |r.ops| && t !in r.states[a].table && Recorded(r, a, t) && first == r.at[a] / SECOND
    ensures t in r.states[a + 1].table && r.states[a + 1].table[t].state == Closed && r.states[a + 1].table[t].count == 1
    ensures r.states[a + 1].table[t].first == Some(first)
  {
    assert IsStep(r, a);
    assert r.states[a + 1].table[t] == AfterInterruption(None, r.at[a]);
  }

  /**
   Without a window that fails: after a reset any three interruptions open the circuit,
   however far apart.
   */
  lemma ResetForgetsWindow(t: string, t1: Instant, t2: Instant, t3: Instant) returns (r: Run)
    requires t1 <= t2 && t2 + TIME_WINDOW < t3
    ensures IsRun(r) && r.at == [t1, t1, t2, t3] && r.ops[0] == DoReset(t, true)
    ensures Opens(r, 3, t) && Recordings(r, t, t3 - TIME_WINDOW, 4) == 1
  {
    var record := DoRecord(t, true, true);
    var s0 := Sys(map[], map[]);
    var s1 := Apply(s0, DoReset(t, true), t1);
    var s2 := Apply(s1, record, t1);
    var s3 := Apply(s2, record, t2);
    var s4 := Apply(s3, record, t3);
    r := Run([s0, s1, s2, s3, s4], [DoReset(t, true), record, record, record], [t1, t1, t2, t3]);
    assert Recordings(r, t, t3 - TIME_WINDOW, 1) == 0;
    assert Recordings(r, t, t3 - TIME_WINDOW, 2) == 0;
    assert Recordings(r, t, t3 - TIME_WINDOW, 3) == 0;
  }
}
