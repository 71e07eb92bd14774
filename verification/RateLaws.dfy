/**
 src/auth/multi-actor-middleware.js, the fixed-window limiter over whole runs: which requests it admits, told from the
 times of the requests alone.
 */
module RateLaws {
  import opened JsCollections
  import opened RateLimits

  /** The request that opened the window of the last one: the first of all, or the first after a window was over. */
  function Opening(limit: Limit, times: seq<int>): (o: nat)
    requires times != []
    ensures o < |times|
  {
    if |times| == 1 then 0
    else
      var o := Opening(limit, times[..|times| - 1]);
      if times[|times| - 1] > times[o] + limit.window then |times| - 1 else o
  }

  lemma {:induction false} EntryCounts(limit: Limit, times: seq<int>)
    requires times != []
    ensures var o := Opening(limit, times);
      FixedRun(limit, times).entry == Some(Entry(|times| - o, times[o] + limit.window))
  {
    var init := times[..|times| - 1];
    if init != [] {
      EntryCounts(limit, init);
    }
  }

  /**
   A request is admitted exactly when it opens a window, or when with it no more than the maximum have come since
   the window was opened, those that were refused included.
   */
  lemma FixedVerdict(limit: Limit, times: seq<int>, now: int)
    ensures var all := times + [now];
      FixedStep(limit, FixedRun(limit, times).entry, now).1 <==>
      Opening(limit, all) == |times| || |all| - Opening(limit, all) <= limit.max
  {
    assert (times + [now])[..|times|] == times;
    if times != [] {
      EntryCounts(limit, times);
    }
  }
}
