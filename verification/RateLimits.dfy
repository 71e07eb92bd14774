/**
 The two rate limiters: the sliding window of src/alerts/engine.js and the fixed window of
 src/auth/multi-actor-middleware.js. Each clock read is a parameter; a run is a list of requests
 whose reads never go backwards.
 */
module RateLimits {
  import opened JsCollections

  /** How many of the timestamps lie in the half-open interval [from, to). */
  function CountIn(log: seq<int>, from: int, to: int): nat {
    if log == [] then 0
    else CountIn(log[..|log| - 1], from, to) + (if from <= log[|log| - 1] < to then 1 else 0)
  }

  /** How many of the timestamps lie in the interval of the given length that starts at `from`. */
  function CountWindow(log: seq<int>, from: int, length: int): nat {
    CountIn(log, from, from + length)
  }

  lemma CountInAppend(log: seq<int>, t: int, from: int, to: int)
    ensures CountIn(log + [t], from, to) == CountIn(log, from, to) + (if from <= t < to then 1 else 0)
  {
    assert (log + [t])[..|log|] == log;
  }

  // ---------- Sliding window ----------

  /** `this.requests.filter(time => now - time < windowMs)`. */
  function Unexpired(requests: seq<int>, now: int, windowMs: int): seq<int> {
    if requests == [] then []
    else
      var rest := Unexpired(requests[..|requests| - 1], now, windowMs);
      if now - requests[|requests| - 1] < windowMs then rest + [requests[|requests| - 1]] else rest
  }

  datatype LimitCheck = LimitCheck(allowed: bool, remaining: int, resetTime: int)

  class RateLimiter {
    const maxRequests: int
    const windowMs: int
    var requests: seq<int>

    constructor (maxRequests: int, windowMs: int)
      ensures this.maxRequests == maxRequests && this.windowMs == windowMs && requests == []
    {
      this.maxRequests, this.windowMs, requests := maxRequests, windowMs, [];
    }

    method CheckLimit(now: int) returns (r: LimitCheck)
      modifies this
      ensures requests == Unexpired(old(requests), now, windowMs)
      ensures r.allowed <==> |requests| < maxRequests
      ensures r.remaining == Max(0, maxRequests - |requests|)
      ensures r.resetTime == (if requests != [] then requests[0] else now) + windowMs
    {
      requests := Unexpired(requests, now, windowMs);
      r := LimitCheck(
        |requests| < maxRequests,
        Max(0, maxRequests - |requests|),
        if |requests| > 0 then requests[0] + windowMs else now + windowMs);
    }

    /** `checkTime` and `recordTime` are the two reads of Date.now(). */
    method TryRequest(checkTime: int, recordTime: int) returns (r: LimitCheck)
      modifies this
      ensures (requests, r.allowed) == SlidingStep(maxRequests, windowMs, old(requests), Attempt(checkTime, recordTime))
    {
      r := CheckLimit(checkTime);
      if r.allowed {
        requests := requests + [recordTime];
      }
    }
  }

  datatype Attempt = Attempt(checkTime: int, recordTime: int)

  function SlidingStep(max: int, windowMs: int, requests: seq<int>, a: Attempt): (seq<int>, bool) {
    var kept := Unexpired(requests, a.checkTime, windowMs);
    if |kept| < max then (kept + [a.recordTime], true) else (kept, false)
  }

  ghost predicate Monotone(attempts: seq<Attempt>) {
    && (forall i :: 0 <= i < |attempts| ==> attempts[i].checkTime <= attempts[i].recordTime)
    && (forall i, j :: 0 <= i < j < |attempts| ==> attempts[i].recordTime <= attempts[j].checkTime)
  }

  datatype Sliding = Sliding(requests: seq<int>, accepted: seq<int>)

  /** The limiter's memory and the record times it accepted, after a whole run from empty. */
  function SlidingRun(max: int, windowMs: int, attempts: seq<Attempt>): Sliding {
    if attempts == [] then Sliding([], [])
    else SlidingNext(max, windowMs, SlidingRun(max, windowMs, attempts[..|attempts| - 1]), attempts[|attempts| - 1])
  }

  function SlidingNext(max: int, windowMs: int, s: Sliding, a: Attempt): Sliding {
    var (requests, ok) := SlidingStep(max, windowMs, s.requests, a);
    Sliding(requests, if ok then s.accepted + [a.recordTime] else s.accepted)
  }

  ghost predicate Sorted(s: seq<int>) {
    forall i, j :: 0 <= i < j < |s| ==> s[i] <= s[j]
  }

  ghost predicate AllUpTo(s: seq<int>, now: int) {
    forall i :: 0 <= i < |s| ==> s[i] <= now
  }

  /** Forgetting expired entries changes no count over an interval that is still in the window. */
  lemma {:induction false} UnexpiredCount(requests: seq<int>, now: int, windowMs: int, from: int, to: int)
    requires now - windowMs < from
    ensures CountIn(Unexpired(requests, now, windowMs), from, to) == CountIn(requests, from, to)
  {
    if requests != [] {
      var init, last := requests[..|requests| - 1], requests[|requests| - 1];
      UnexpiredCount(init, now, windowMs, from, to);
      CountInAppend(Unexpired(init, now, windowMs), last, from, to);
    }
  }

  /** What is left lies in the window that ends now. */
  lemma {:induction false} UnexpiredAllInWindow(requests: seq<int>, now: int, windowMs: int)
    requires AllUpTo(requests, now)
    ensures AllUpTo(Unexpired(requests, now, windowMs), now)
    ensures CountIn(Unexpired(requests, now, windowMs), now - windowMs + 1, now + 1)
      == |Unexpired(requests, now, windowMs)|
  {
    if requests != [] {
      var init, last := requests[..|requests| - 1], requests[|requests| - 1];
      UnexpiredAllInWindow(init, now, windowMs);
      CountInAppend(Unexpired(init, now, windowMs), last, now - windowMs + 1, now + 1);
    }
  }

  lemma MonotonePrefix(attempts: seq<Attempt>)
    requires Monotone(attempts) && attempts != []
    ensures var init, a := attempts[..|attempts| - 1], attempts[|attempts| - 1];
      && Monotone(init) && a.checkTime <= a.recordTime && LastTime(init, a.checkTime) <= a.checkTime
  {
  }

  function LastTime(attempts: seq<Attempt>, default: int): int {
    if attempts == [] then default else attempts[|attempts| - 1].recordTime
  }

  lemma MemorySufficesStep(max: int, windowMs: int, s: Sliding, a: Attempt, from: int, to: int)
    requires AllUpTo(s.requests, a.checkTime) && a.checkTime <= a.recordTime
    requires a.checkTime - windowMs < from && CountIn(s.requests, from, to) == CountIn(s.accepted, from, to)
    ensures var s' := SlidingNext(max, windowMs, s, a);
      && AllUpTo(s'.requests, a.recordTime)
      && CountIn(s'.requests, from, to) == CountIn(s'.accepted, from, to)
  {
    UnexpiredCount(s.requests, a.checkTime, windowMs, from, to);
    UnexpiredAllInWindow(s.requests, a.checkTime, windowMs);
    CountInAppend(Unexpired(s.requests, a.checkTime, windowMs), a.recordTime, from, to);
    CountInAppend(s.accepted, a.recordTime, from, to);
  }

  /** The memory counts like the whole accepted log, for every interval inside the current window. */
  lemma {:induction false} MemorySuffices(max: int, windowMs: int, attempts: seq<Attempt>, now: int, from: int, to: int)
    requires Monotone(attempts) && LastTime(attempts, now) <= now && now - windowMs < from
    ensures var s := SlidingRun(max, windowMs, attempts);
      && AllUpTo(s.requests, now)
      && CountIn(s.requests, from, to) == CountIn(s.accepted, from, to)
  {
    if attempts != [] {
      var init, a := attempts[..|attempts| - 1], attempts[|attempts| - 1];
      MonotonePrefix(attempts);
      MemorySuffices(max, windowMs, init, a.checkTime, from, to);
      MemorySufficesStep(max, windowMs, SlidingRun(max, windowMs, init), a, from, to);
    }
  }

  /** A request is let through exactly when fewer than max were accepted in the window ending now. */
  lemma SlidingVerdict(max: int, windowMs: int, attempts: seq<Attempt>, a: Attempt)
    requires Monotone(attempts) && LastTime(attempts, a.checkTime) <= a.checkTime
    ensures var s := SlidingRun(max, windowMs, attempts);
      SlidingStep(max, windowMs, s.requests, a).1
      <==> CountIn(s.accepted, a.checkTime - windowMs + 1, a.checkTime + 1) < max
  {
    var s := SlidingRun(max, windowMs, attempts);
    MemorySuffices(max, windowMs, attempts, a.checkTime, a.checkTime - windowMs + 1, a.checkTime + 1);
    UnexpiredCount(s.requests, a.checkTime, windowMs, a.checkTime - windowMs + 1, a.checkTime + 1);
    UnexpiredAllInWindow(s.requests, a.checkTime, windowMs);
  }

  lemma {:induction false} AcceptedUpTo(max: int, windowMs: int, attempts: seq<Attempt>, now: int)
    requires Monotone(attempts) && LastTime(attempts, now) <= now
    ensures AllUpTo(SlidingRun(max, windowMs, attempts).accepted, now)
  {
    if attempts != [] {
      MonotonePrefix(attempts);
      AcceptedUpTo(max, windowMs, attempts[..|attempts| - 1], attempts[|attempts| - 1].checkTime);
    }
  }

  lemma {:induction false} CountInWiden(log: seq<int>, from: int, to: int, from': int, to': int)
    requires from' <= from && (to <= to' || AllUpTo(log, to' - 1))
    ensures CountIn(log, from, to) <= CountIn(log, from', to')
  {
    if log != [] {
      CountInWiden(log[..|log| - 1], from, to, from', to');
    }
  }

  lemma SlidingBoundStep(max: nat, windowMs: int, accepted: seq<int>, a: Attempt, from: int)
    requires AllUpTo(accepted, a.checkTime) && a.checkTime <= a.recordTime
    requires CountIn(accepted, a.checkTime - windowMs + 1, a.checkTime + 1) < max
    requires CountWindow(accepted, from, windowMs) <= max
    ensures CountWindow(accepted + [a.recordTime], from, windowMs) <= max
  {
    CountInAppend(accepted, a.recordTime, from, from + windowMs);
    if from <= a.recordTime < from + windowMs {
      CountInWiden(accepted, from, from + windowMs, a.checkTime - windowMs + 1, a.checkTime + 1);
    }
  }

  /** No half-open interval of length windowMs ever holds more than maxRequests accepted requests. */
  lemma {:induction false} SlidingBound(max: nat, windowMs: int, attempts: seq<Attempt>, from: int)
    requires Monotone(attempts)
    ensures CountWindow(SlidingRun(max, windowMs, attempts).accepted, from, windowMs) <= max
  {
    if attempts != [] {
      var init, a := attempts[..|attempts| - 1], attempts[|attempts| - 1];
      MonotonePrefix(attempts);
      SlidingBound(max, windowMs, init, from);
      var s := SlidingRun(max, windowMs, init);
      SlidingVerdict(max, windowMs, init, a);
      AcceptedUpTo(max, windowMs, init, a.checkTime);
      if SlidingStep(max, windowMs, s.requests, a).1 {
        SlidingBoundStep(max, windowMs, s.accepted, a, from);
      }
    }
  }

  // ---------- Fixed window ----------

  datatype Entry = Entry(count: int, resetAt: int)

  datatype Limit = Limit(window: int, max: int)

  function FixedStep(limit: Limit, entry: Option<Entry>, now: int): (Entry, bool) {
    if entry.None? || now > entry.value.resetAt then (Entry(1, now + limit.window), true)
    else
      var e := entry.value.(count := entry.value.count + 1);
      (e, e.count <= limit.max)
  }

  /** Both #checkRateLimit and #checkUnauthenticatedLimit, which differ in the key and the limit. */
  class FixedWindowLimiter {
    var rateLimits: map<string, Entry>

    function Lookup(key: string): Option<Entry>
      reads this
    {
      if key in rateLimits then Some(rateLimits[key]) else None
    }

    constructor ()
      ensures rateLimits == map[]
    {
      rateLimits := map[];
    }

    method CheckKey(key: string, limit: Limit, now: int) returns (ok: bool)
      modifies this
      ensures var (e, allowed) := FixedStep(limit, old(Lookup(key)), now);
        ok == allowed && rateLimits == old(rateLimits)[key := e]
    {
      if key !in rateLimits || now > rateLimits[key].resetAt {
        rateLimits := rateLimits[key := Entry(1, now + limit.window)];
        return true;
      }
      var entry := rateLimits[key];
      entry := entry.(count := entry.count + 1);
      rateLimits := rateLimits[key := entry];
      return entry.count <= limit.max;
    }

    /** #checkUnauthenticatedLimit: twenty requests a minute per client address. */
    method CheckUnauthenticated(clientIp: string, now: int) returns (ok: bool)
      modifies this
      ensures var (e, allowed) := FixedStep(Limit(60000, 20), old(Lookup("unauth:" + clientIp)), now);
        ok == allowed && rateLimits == old(rateLimits)["unauth:" + clientIp := e]
    {
      ok := CheckKey("unauth:" + clientIp, Limit(60000, 20), now);
    }
  }

  datatype Fixed = Fixed(entry: Option<Entry>, accepted: seq<int>)

  /** One key's entry and accepted times after the requests at the given times. */
  function FixedRun(limit: Limit, times: seq<int>): Fixed {
    if times == [] then Fixed(None, [])
    else FixedNext(limit, FixedRun(limit, times[..|times| - 1]), times[|times| - 1])
  }

  function FixedNext(limit: Limit, f: Fixed, now: int): Fixed {
    var (entry, ok) := FixedStep(limit, f.entry, now);
    Fixed(Some(entry), if ok then f.accepted + [now] else f.accepted)
  }

  /**
   What an interval [from, from + window) holds, `n` being its number of accepted requests. While
   the current entry opened before the interval, only its later requests, at most max - 1, can
   count; an entry opened inside adds at most its own budget; one opened afterwards adds nothing.
   */
  ghost predicate FixedOk(limit: Limit, entry: Option<Entry>, n: nat, from: int, now: int) {
    match entry
    case None => n == 0
    case Some(e) =>
      var since := e.resetAt - limit.window;
      && e.count >= 1 && since <= now
      && (now < from ==> n == 0)
      && (since < from ==> n <= Min(e.count, limit.max) - 1)
      && (from <= since < from + limit.window ==> n <= limit.max - 1 + Min(e.count, limit.max))
      && (from + limit.window <= since ==> n <= limit.max - 1 + limit.max)
  }

  lemma FixedStepOk(limit: Limit, entry: Option<Entry>, n: nat, from: int, before: int, now: int)
    requires limit.window >= 0 && limit.max >= 1
    requires FixedOk(limit, entry, n, from, before) && before <= now
    ensures var (entry', ok) := FixedStep(limit, entry, now);
      FixedOk(limit, Some(entry'), if ok && from <= now < from + limit.window then n + 1 else n, from, now)
  {
  }

  lemma {:induction false} FixedInvariant(limit: Limit, times: seq<int>, from: int, start: int)
    requires Sorted(times) && limit.window >= 0 && limit.max >= 1
    ensures var f := FixedRun(limit, times);
      FixedOk(limit, f.entry, CountWindow(f.accepted, from, limit.window), from, LastOf(times, start))
  {
    if times != [] {
      var init, now := times[..|times| - 1], times[|times| - 1];
      FixedInvariant(limit, init, from, now);
      var f := FixedRun(limit, init);
      CountInAppend(f.accepted, now, from, from + limit.window);
      FixedStepOk(limit, f.entry, CountWindow(f.accepted, from, limit.window), from, LastOf(init, now), now);
    }
  }

  function LastOf(times: seq<int>, default: int): int {
    if times == [] then default else times[|times| - 1]
  }

  /** Any interval of one window length admits at most 2 * max - 1 requests of one key. */
  lemma FixedBound(limit: Limit, times: seq<int>, from: int)
    requires Sorted(times) && limit.window >= 0 && limit.max >= 1
    ensures CountWindow(FixedRun(limit, times).accepted, from, limit.window) <= 2 * limit.max - 1
  {
    FixedInvariant(limit, times, from, 0);
  }

  /** `n` requests at one instant. */
  function Repeat(t: int, n: nat): (r: seq<int>)
    ensures |r| == n && forall i :: 0 <= i < n ==> r[i] == t
  {
    if n == 0 then [] else Repeat(t, n - 1) + [t]
  }

  lemma FixedRunAppend(limit: Limit, times: seq<int>, now: int)
    ensures FixedRun(limit, times + [now]) == FixedNext(limit, FixedRun(limit, times), now)
  {
    assert (times + [now])[..|times|] == times;
  }

  ghost predicate Reaches(limit: Limit, times: seq<int>, entry: Entry, from: int, length: int, n: int) {
    var f := FixedRun(limit, times);
    f.entry == Some(entry) && CountWindow(f.accepted, from, length) == n
  }

  lemma FixedRequest(limit: Limit, times: seq<int>, entry: Entry, from: int, length: int, n: int, now: int)
    requires Reaches(limit, times, entry, from, length, n)
    ensures var (entry', ok) := FixedStep(limit, Some(entry), now);
      Reaches(limit, times + [now], entry', from, length, if ok && from <= now < from + length then n + 1 else n)
  {
    FixedRunAppend(limit, times, now);
    CountInAppend(FixedRun(limit, times).accepted, now, from, from + length);
  }

  lemma {:induction false} FixedBurst(limit: Limit, times: seq<int>, entry: Entry, from: int, length: int, n: int,
      t: int, k: nat)
    requires Reaches(limit, times, entry, from, length, n)
    requires from <= t < from + length && t <= entry.resetAt && entry.count + k <= limit.max
    ensures Reaches(limit, times + Repeat(t, k), entry.(count := entry.count + k), from, length, n + k)
  {
    if k == 0 {
      assert times + Repeat(t, k) == times;
    } else {
      FixedBurst(limit, times, entry, from, length, n, t, k - 1);
      FixedRequest(limit, times + Repeat(t, k - 1), entry.(count := entry.count + k - 1), from, length, n + k - 1, t);
      assert times + Repeat(t, k) == times + Repeat(t, k - 1) + [t];
    }
  }

  /** First request at 0, a full burst at the end of its window, a full burst just after it. */
  function BusyTimes(limit: Limit): (r: seq<int>)
    requires limit.max >= 1 && limit.window >= 0
    ensures Sorted(r)
  {
    [0] + Repeat(limit.window, limit.max - 1) + [limit.window + 1] + Repeat(limit.window + 1, limit.max - 1)
  }

  /** The bound 2 * max - 1 is reached, for every limit with a window of at least two ticks. */
  lemma FixedBoundIsTight(limit: Limit)
    requires limit.window >= 2 && limit.max >= 1
    ensures CountWindow(FixedRun(limit, BusyTimes(limit)).accepted, limit.window, limit.window) == 2 * limit.max - 1
  {
    var w, m := limit.window, limit.max;
    var second := [0] + Repeat(w, m - 1);
    assert Reaches(limit, second + [w + 1], Entry(1, w + 1 + w), w, w, m) by {
      FirstRequest(limit, 0, w, w);
      FixedBurst(limit, [0], Entry(1, w), w, w, 0, w, m - 1);
      FixedRequest(limit, second, Entry(m, w), w, w, m - 1, w + 1);
    }
    FixedBurst(limit, second + [w + 1], Entry(1, w + 1 + w), w, w, m, w + 1, m - 1);
  }

  lemma FirstRequest(limit: Limit, t: int, from: int, length: int)
    ensures Reaches(limit, [t], Entry(1, t + limit.window), from, length, if from <= t < from + length then 1 else 0)
  {
    assert [t] == [] + [t];
    FixedRunAppend(limit, [], t);
    CountInAppend([], t, from, from + length);
  }

  /** With a budget below one the first request of an entry still passes, so no bound of 2 * max holds. */
  lemma FixedBoundNeedsPositiveMax(limit: Limit)
    requires limit.window >= 1
    ensures (forall times, from :: Sorted(times) ==>
               CountWindow(FixedRun(limit, times).accepted, from, limit.window) <= 2 * limit.max)
       <==> limit.max >= 1
  {
    if limit.max >= 1 {
      forall times, from | Sorted(times)
        ensures CountWindow(FixedRun(limit, times).accepted, from, limit.window) <= 2 * limit.max
      {
        FixedBound(limit, times, from);
      }
    } else {
      var times := [0];
      FirstRequest(limit, 0, 0, limit.window);
      assert Sorted(times);
      assert !(CountWindow(FixedRun(limit, times).accepted, 0, limit.window) <= 2 * limit.max);
    }
  }
}
