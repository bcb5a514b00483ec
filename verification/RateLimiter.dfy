/** The per-IP rate limiter of the admin API. Times are milliseconds. */
module RateLimiter {

  import opened Wrappers

  const WINDOW: nat := 60_000

  datatype Bucket = Bucket(tokens: int, lastSeen: int, resetTime: int)

  // ----- one client's bucket

  function FreshBucket(limit: nat, now: int): Bucket {
    Bucket(limit - 1, now, now + WINDOW)
  }

  function AfterRequest(b: Option<Bucket>, limit: nat, now: int): Bucket {
    if b.None? || now >= b.value.resetTime then FreshBucket(limit, now)
    else Bucket(b.value.tokens - 1, now, b.value.resetTime)
  }

  predicate Admits(b: Option<Bucket>, now: int) {
    b.None? || now >= b.value.resetTime || b.value.tokens - 1 >= 0
  }

  predicate Forgettable(b: Bucket, now: int) {
    b.lastSeen < now - 2 * WINDOW
  }

  function AfterSweep(b: Option<Bucket>, now: int): Option<Bucket> {
    if b.Some? && Forgettable(b.value, now) then None else b
  }

  function RetryAfter(b: Option<Bucket>, now: int): int {
    if b.None? || b.value.resetTime - now <= 0 then 1 else (b.value.resetTime - now) / 1000 + 1
  }

  class Limiter {
    const limit: nat
    var buckets: map<string, Bucket>

    constructor (requestsPerMinute: int)
      ensures limit == (if requestsPerMinute <= 0 then 60 else requestsPerMinute) && buckets == map[]
    {
      limit := if requestsPerMinute <= 0 then 60 else requestsPerMinute;
      buckets := map[];
    }

    method Allow(ip: string, now: int) returns (admitted: bool)
      modifies this`buckets
      ensures buckets == old(buckets)[ip := AfterRequest(Lookup(old(buckets), ip), limit, now)]
      ensures admitted == Admits(Lookup(old(buckets), ip), now)
      ensures if ip !in old(buckets) || old(buckets)[ip].resetTime <= now then
                admitted && buckets == old(buckets)[ip := Bucket(limit - 1, now, now + 60_000)]
              else
                && (admitted <==> old(buckets)[ip].tokens > 0)
                && buckets == old(buckets)[ip := Bucket(old(buckets)[ip].tokens - 1, now, old(buckets)[ip].resetTime)]
    {
      if ip !in buckets || now >= buckets[ip].resetTime {
        buckets := buckets[ip := Bucket(limit - 1, now, now + WINDOW)];
        return true;
      }
      var remaining := buckets[ip].tokens - 1;
      buckets := buckets[ip := buckets[ip].(lastSeen := now, tokens := remaining)];
      return remaining >= 0;
    }

    method RetryAfterSeconds(ip: string, now: int) returns (seconds: int)
      ensures seconds == RetryAfter(Lookup(buckets, ip), now) && seconds >= 1
      ensures ip in buckets && now < buckets[ip].resetTime ==> now + 1000 * (seconds - 1) <= buckets[ip].resetTime < now + 1000 * seconds
      ensures ip !in buckets || buckets[ip].resetTime <= now ==> seconds == 1
    {
      if ip !in buckets { return 1; }
      var remaining := buckets[ip].resetTime - now;
      if remaining <= 0 { return 1; }
      return remaining / 1000 + 1;
    }

    method Cleanup(now: int)
      modifies this`buckets
      ensures forall ip :: Lookup(buckets, ip) == AfterSweep(Lookup(old(buckets), ip), now)
      ensures forall ip :: ip in buckets <==> ip in old(buckets) && now - 120_000 <= old(buckets)[ip].lastSeen
    {
      var cutoff := now - 2 * WINDOW;
      var ips := buckets.Keys;
      while ips != {}
        invariant ips <= old(buckets).Keys
        invariant forall ip :: Lookup(buckets, ip) == if ip in ips then Lookup(old(buckets), ip) else AfterSweep(Lookup(old(buckets), ip), now)
        decreases |ips|
      {
        var ip :| ip in ips;
        assert Lookup(buckets, ip) == Lookup(old(buckets), ip);
        ips := ips - {ip};
        if buckets[ip].lastSeen < cutoff {
          buckets := buckets - {ip};
        }
      }
      assert forall ip :: ip in buckets <==> Lookup(buckets, ip).Some?;
    }
  }

  // ----- any window admits at most twice the limit

  datatype Event = Request(at: int) | Sweep(at: int)

  function After(b: Option<Bucket>, limit: nat, e: Event): Option<Bucket> {
    match e
    case Request(at) => Some(AfterRequest(b, limit, at))
    case Sweep(at) => AfterSweep(b, at)
  }

  /** One client's requests and the sweeps, in the order of the clock. */
  ghost predicate IsRun(bs: seq<Option<Bucket>>, es: seq<Event>, limit: nat) {
    && |bs| == |es| + 1 && bs[0] == None
    && (forall i, j :: 0 <= i < j < |es| ==> es[i].at <= es[j].at)
    && (forall i :: 0 <= i < |es| ==> bs[i + 1] == After(bs[i], limit, es[i]))
  }

  /** Admitted requests among the first n events at times from `from` to `from + WINDOW`. */
  function Admitted(bs: seq<Option<Bucket>>, es: seq<Event>, from: int, n: nat): nat
    requires n <= |es| < |bs|
  {
    if n == 0 then 0
    else
      var e := es[n - 1];
      Admitted(bs, es, from, n - 1)
      + if e.Request? && Admits(bs[n - 1], e.at) && from <= e.at <= from + WINDOW then 1 else 0
  }

  /** Requests the current window has admitted. */
  function Spent(b: Bucket, limit: nat): int {
    if b.tokens >= 0 then limit - b.tokens else limit
  }

  /**
   The last window opened, even if its bucket was swept since, and how the count of an
   interval splits over it and the windows before.
   */
  ghost predicate Accounted(b: Option<Bucket>, last: Option<Bucket>, limit: nat, from: int, now: int, count: nat) {
    && (b.Some? ==> last == b)
    && (last.None? ==> count == 0)
    && (last.Some? ==>
      && var start := last.value.resetTime - WINDOW;
      && start <= last.value.lastSeen <= now && last.value.tokens <= limit - 1
      && (b.None? ==> last.value.resetTime <= now)
      && (last.value.resetTime <= from ==> count == 0)
      && (start <= from ==> count <= Spent(last.value, limit))
      && (from < start <= from + WINDOW ==> count <= limit + Spent(last.value, limit)))
    && count <= 2 * limit
    && (now < from ==> count == 0)
  }

  lemma RequestAccounted(b: Option<Bucket>, last: Option<Bucket>, limit: nat, from: int, now: int, at: int, count: nat)
    requires Accounted(b, last, limit, from, now, count) && now <= at && limit > 0
    ensures var hit := if Admits(b, at) && from <= at <= from + WINDOW then 1 else 0;
            Accounted(Some(AfterRequest(b, limit, at)), Some(AfterRequest(b, limit, at)), limit, from, at, count + hit)
  {
  }

  lemma {:induction false} RunAccounted(bs: seq<Option<Bucket>>, es: seq<Event>, limit: nat, from: int, n: nat) returns (last: Option<Bucket>)
    requires IsRun(bs, es, limit) && limit > 0 && n <= |es|
    ensures Accounted(bs[n], last, limit, from, if n == 0 then from - 1 else es[n - 1].at, Admitted(bs, es, from, n))
  {
    if n == 0 {
      last := None;
    } else {
      last := RunAccounted(bs, es, limit, from, n - 1);
      var e := es[n - 1];
      if n == 1 {
        last := bs[1];
      } else if e.Request? {
        RequestAccounted(bs[n - 1], last, limit, from, es[n - 2].at, e.at, Admitted(bs, es, from, n - 1));
        last := bs[n];
      }
    }
  }

  /** Any interval of one window length admits at most twice the limit. */
  lemma AtMostTwiceTheLimit(bs: seq<Option<Bucket>>, es: seq<Event>, limit: nat, from: int)
    requires IsRun(bs, es, limit) && limit > 0
    ensures Admitted(bs, es, from, |es|) <= 2 * limit
  {
    var last := RunAccounted(bs, es, limit, from, |es|);
  }

  /** Twice the limit is reached: the last of one window and the first of the next, a window length apart. */
  lemma TwiceIsReached() returns (bs: seq<Option<Bucket>>, es: seq<Event>)
    ensures IsRun(bs, es, 1) && es == [Request(0), Request(60_000)] && Admitted(bs, es, 0, 2) == 2
  {
    var b1, b2 := FreshBucket(1, 0), FreshBucket(1, 60_000);
    bs, es := [None, Some(b1), Some(b2)], [Request(0), Request(60_000)];
    assert Admitted(bs, es, 0, 1) == 1;
  }

  // ----- a window admits its full budget

  /** A window's bucket after further requests. */
  function AfterAll(b: Bucket, limit: nat, times: seq<int>): Bucket {
    if times == [] then b
    else AfterRequest(Some(AfterAll(b, limit, times[..|times| - 1])), limit, times[|times| - 1])
  }

  lemma {:induction false} TokensLeft(limit: nat, start: int, times: seq<int>)
    requires forall k :: 0 <= k < |times| ==> times[k] < start + WINDOW
    ensures var b := AfterAll(FreshBucket(limit, start), limit, times);
            b.tokens == limit - 1 - |times| && b.resetTime == start + WINDOW
  {
    if times != [] { TokensLeft(limit, start, times[..|times| - 1]); }
  }

  /** Within the window that a client's first request opens, exactly the first `limit` requests are admitted. */
  lemma WindowAdmitsLimit(limit: nat, start: int, times: seq<int>, at: int)
    requires (forall k :: 0 <= k < |times| ==> times[k] < start + WINDOW) && at < start + WINDOW
    ensures Admits(Some(AfterAll(FreshBucket(limit, start), limit, times)), at) <==> 1 + |times| < limit
  {
    TokensLeft(limit, start, times);
  }

  // ----- waiting as told is enough

  function Swept(b: Option<Bucket>, sweeps: seq<int>): Option<Bucket> {
    if sweeps == [] then b else AfterSweep(Swept(b, sweeps[..|sweeps| - 1]), sweeps[|sweeps| - 1])
  }

  lemma {:induction false} SweptIsSameOrGone(b: Option<Bucket>, sweeps: seq<int>)
    ensures Swept(b, sweeps) == b || Swept(b, sweeps) == None
  {
    if sweeps != [] { SweptIsSameOrGone(b, sweeps[..|sweeps| - 1]); }
  }

  /**
   A refused client that sends nothing until the advertised number of seconds has passed
   is admitted, whatever is swept meanwhile; a second less could be too early.
   */
  lemma RetryAfterSuffices(b: Option<Bucket>, limit: nat, refusedAt: int, toldAt: int, sweeps: seq<int>, retryAt: int)
    requires !Admits(b, refusedAt) && refusedAt <= toldAt
    requires toldAt + 1000 * RetryAfter(Some(AfterRequest(b, limit, refusedAt)), toldAt) <= retryAt
    ensures Admits(Swept(Some(AfterRequest(b, limit, refusedAt)), sweeps), retryAt)
    ensures toldAt + 1000 * (RetryAfter(Some(AfterRequest(b, limit, refusedAt)), toldAt) - 1)
            <= (if b.value.resetTime < toldAt then toldAt else b.value.resetTime)
  {
    SweptIsSameOrGone(Some(AfterRequest(b, limit, refusedAt)), sweeps);
  }
}
