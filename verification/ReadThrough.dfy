/**
 src/analysis/rag-embeddings.js, generate and generateBatch: the cache is read, the vector is computed
 while other calls run, and then stored. Under every interleaving: each call is answered with what would
 be computed, and the cache holds the keys that arrived last; when a batch leaves them in request order.
 */
module ReadThrough {
  import opened JsCollections
  import opened LruCaches

  /** `pending` has the text of each call whose vector is being computed. */
  datatype System<K(==, !new), V> = System(lru: Lru<K, V>, pending: multiset<K>)

  /** A call starts; one of the computations of a text succeeds, or fails. */
  datatype Event<K> = Ask(key: K, now: int, touched: int) | Finish(key: K, now: int) | Fail(key: K)

  datatype Answer<K, V> = Answer(key: K, value: V)

  /** A Finish or Fail for which nothing is pending changes nothing. */
  function Step<K(==, !new), V>(maxSize: int, ttlMs: int, fetch: K -> V, s: System<K, V>, e: Event<K>): (System<K, V>,
      Option<Answer<K, V>>) {
    match e
    case Ask(key, now, touched) =>
      var (lru, r) := GetStep(s.lru, ttlMs, key, now, touched);
      if r.Some? then (System(lru, s.pending), Some(Answer(key, r.value)))
        else (System(lru, s.pending + multiset{key}), None)
    case Finish(key, now) =>
      if key !in s.pending then (s, None)
      else (System(SetStep(s.lru, maxSize, key, fetch(key), ttlMs, now), s.pending - multiset{key}),
        Some(Answer(key, fetch(key))))
    case Fail(key) => (s.(pending := s.pending - multiset{key}), None)
  }

  function After<K(==, !new), V>(maxSize: int, ttlMs: int, fetch: K -> V, events: seq<Event<K>>): System<K, V> {
    if events == [] then System(EmptyLru(), multiset{})
    else Step(maxSize, ttlMs, fetch, After(maxSize, ttlMs, fetch, events[..|events| - 1]), events[|events| - 1]).0
  }

  // ---------- Answers ----------

  lemma {:induction false} AlwaysAgrees<K(!new), V>(maxSize: int, ttlMs: int, fetch: K -> V, events: seq<Event<K>>)
    ensures Agrees(After(maxSize, ttlMs, fetch, events).lru, fetch)
  {
    if events != [] {
      var s := After(maxSize, ttlMs, fetch, events[..|events| - 1]);
      AlwaysAgrees(maxSize, ttlMs, fetch, events[..|events| - 1]);
      match events[|events| - 1]
      case Ask(key, now, touched) => GetAgrees(s.lru, ttlMs, fetch, key, now, touched);
      case Finish(key, now) => SetAgrees(s.lru, maxSize, ttlMs, fetch, key, now);
      case Fail(key) =>
    }
  }

  /**
   Caching is invisible: whatever overlaps, and with or without TTL,
   an answer is what would be computed for the text asked.
   */
  lemma AnswersAreComputed<K(!new), V>(maxSize: int, ttlMs: int, fetch: K -> V, events: seq<Event<K>>, e: Event<K>)
    ensures var answer := Step(maxSize, ttlMs, fetch, After(maxSize, ttlMs, fetch, events), e).1;
      answer.Some? ==> answer.value == Answer(e.key, fetch(e.key))
  {
    AlwaysAgrees(maxSize, ttlMs, fetch, events);
    if e.Ask? {
      GetAgrees(After(maxSize, ttlMs, fetch, events).lru, ttlMs, fetch, e.key, e.now, e.touched);
    }
  }

  /** A call that runs alone is what Request describes. */
  lemma AloneIsRequest<K(!new), V>(maxSize: int, ttlMs: int, fetch: K -> V, s: System<K, V>, key: K, now: int)
    requires key !in s.pending
    ensures var asked := Step(maxSize, ttlMs, fetch, s, Ask(key, now, now)).0;
      Step(maxSize, ttlMs, fetch, asked, Finish(key, now)).0
        == System(Request(s.lru, maxSize, ttlMs, fetch, key, now).0, s.pending)
  {
    var asked := Step(maxSize, ttlMs, fetch, s, Ask(key, now, now)).0;
    assert asked.pending == s.pending
      || (asked.pending == s.pending + multiset{key} && asked.pending - multiset{key} == s.pending);
  }

  // ---------- Order ----------

  /**
   A hit moves its key to the end, and so does storing a key that
   is not there; storing over one leaves it in place.
   */
  function Arrival<K(==, !new), V>(s: System<K, V>, e: Event<K>): seq<Lookup<K>> {
    match e
    case Ask(key, now, _) => if s.lru.cache.Has(key) then [Lookup(key, now)] else []
    case Finish(key, now) => if key in s.pending && !s.lru.cache.Has(key) then [Lookup(key, now)] else []
    case Fail(_) => []
  }

  function Arrivals<K(==, !new), V>(maxSize: int, ttlMs: int, fetch: K -> V, events: seq<Event<K>>): seq<Lookup<K>> {
    if events == [] then []
    else
      var init := events[..|events| - 1];
      Arrivals(maxSize, ttlMs, fetch, init) + Arrival(After(maxSize, ttlMs, fetch, init), events[|events| - 1])
  }

  lemma GetMovesKeys<K(!new), V>(s: Lru<K, V>, ttlMs: int, key: K, now: int, touched: int)
    requires ttlMs <= 0
    ensures GetStep(s, ttlMs, key, now, touched).0.cache.keys == if s.cache.Has(key) then
      Without(s.cache.keys, key) + [key] else s.cache.keys
    ensures GetStep(s, ttlMs, key, now, touched).1.Some? <==> s.cache.Has(key)
  {
  }

  lemma SetMovesKeys<K(!new), V>(s: Lru<K, V>, maxSize: int, key: K, value: V, ttlMs: int, now: int)
    requires s.cache.Size() <= Capacity(maxSize)
    ensures SetStep(s, maxSize, key, value, ttlMs, now).cache.keys
      == if s.cache.Has(key) then s.cache.keys
         else (if s.cache.Size() == Capacity(maxSize) then s.cache.keys[1..] else s.cache.keys) + [key]
  {
    var keys := s.cache.keys;
    if keys != [] {
      assert keys == [keys[0]] + keys[1..];
      TailLacks(keys);
      WithoutAbsent(keys[1..], keys[0]);
      assert keys[0] in keys;
    }
  }

  lemma TailLacks<K>(keys: seq<K>)
    requires NoDup(keys) && keys != []
    ensures keys[0] !in keys[1..]
  {
    assert forall i :: 0 <= i < |keys| - 1 ==> keys[1..][i] == keys[i + 1];
  }

  lemma OneArrival<K(!new), V>(maxSize: int, ttlMs: int, fetch: K -> V, s: System<K, V>, e: Event<K>,
      trace: seq<Lookup<K>>)
    requires ttlMs <= 0 && s.lru.cache.keys == LastN(Recency(trace), Capacity(maxSize))
    ensures Step(maxSize, ttlMs, fetch, s, e).0.lru.cache.keys
      == LastN(Recency(trace + Arrival(s, e)), Capacity(maxSize))
  {
    RecencyNoDup(trace);
    LastNMoves(Recency(trace), Capacity(maxSize), e.key);
    assert s.lru.cache.Has(e.key) <==> e.key in s.lru.cache.keys;
    if Arrival(s, e) == [] {
      assert trace + Arrival(s, e) == trace;
    } else {
      assert (trace + Arrival(s, e))[..|trace|] == trace;
    }
    match e
    case Ask(key, now, touched) => GetMovesKeys(s.lru, ttlMs, key, now, touched);
    case Finish(key, now) => SetMovesKeys(s.lru, maxSize, key, fetch(key), ttlMs, now);
    case Fail(key) =>
  }

  /** Under every interleaving the cache holds exactly the distinct keys that arrived last, oldest first. */
  lemma {:induction false} HoldsLatestArrivals<K(!new), V>(maxSize: int, ttlMs: int, fetch: K -> V,
      events: seq<Event<K>>)
    requires ttlMs <= 0
    ensures After(maxSize, ttlMs, fetch, events).lru.cache.keys
      == LastN(Recency(Arrivals(maxSize, ttlMs, fetch, events)), Capacity(maxSize))
  {
    if events != [] {
      var init := events[..|events| - 1];
      HoldsLatestArrivals(maxSize, ttlMs, fetch, init);
      OneArrival(maxSize, ttlMs, fetch, After(maxSize, ttlMs, fetch, init), events[|events| - 1],
        Arrivals(maxSize, ttlMs, fetch, init));
    }
  }

  // ---------- Batches ----------

  function AskAll<K(==, !new), V>(maxSize: int, ttlMs: int, fetch: K -> V, s: System<K, V>, keys: seq<K>,
      now: int): System<K, V> {
    if keys == [] then s
    else Step(maxSize, ttlMs, fetch, AskAll(maxSize, ttlMs, fetch, s, keys[..|keys| - 1], now),
      Ask(keys[|keys| - 1], now, now)).0
  }

  function FinishAll<K(==, !new), V>(maxSize: int, ttlMs: int, fetch: K -> V, s: System<K, V>, keys: seq<K>,
      now: int): System<K, V> {
    if keys == [] then s
    else Step(maxSize, ttlMs, fetch, FinishAll(maxSize, ttlMs, fetch, s, keys[..|keys| - 1], now),
      Finish(keys[|keys| - 1], now)).0
  }

  ghost predicate NoneCached<K(!new), V>(s: System<K, V>, keys: seq<K>) {
    forall k :: k in keys ==> !s.lru.cache.Has(k)
  }

  lemma {:induction false} AllAsked<K(!new), V>(maxSize: int, ttlMs: int, fetch: K -> V, s: System<K, V>, keys: seq<K>,
      now: int)
    requires NoneCached(s, keys)
    ensures var t := AskAll(maxSize, ttlMs, fetch, s, keys, now);
      t.lru.cache == s.lru.cache && t.pending == s.pending + multiset(keys)
  {
    if keys != [] {
      assert keys == keys[..|keys| - 1] + [keys[|keys| - 1]];
      AllAsked(maxSize, ttlMs, fetch, s, keys[..|keys| - 1], now);
    }
  }

  lemma LastNOnce<T>(s: seq<T>, x: T, n: nat)
    requires n >= 1
    ensures LastN(LastN(s, n) + [x], n) == LastN(s + [x], n)
  {
  }

  lemma LastNShort<T>(s: seq<T>, n: nat)
    requires |s| <= n
    ensures LastN(s, n) == s
  {
  }

  lemma StoresLast<K(!new), V>(s: Lru<K, V>, maxSize: int, key: K, value: V, ttlMs: int, now: int, all: seq<K>)
    requires !s.cache.Has(key) && s.cache.keys == LastN(all, Capacity(maxSize))
    ensures SetStep(s, maxSize, key, value, ttlMs, now).cache.keys == LastN(all + [key], Capacity(maxSize))
  {
    SetMovesKeys(s, maxSize, key, value, ttlMs, now);
    LastNOnce(all, key, Capacity(maxSize));
  }

  lemma {:induction false} AllFinished<K(!new), V>(maxSize: int, ttlMs: int, fetch: K -> V, s: System<K, V>,
      done: seq<K>, now: int)
    requires NoDup(done) && NoneCached(s, done) && s.lru.cache.Size() <= Capacity(maxSize)
    requires multiset(done) <= s.pending
    ensures var t := FinishAll(maxSize, ttlMs, fetch, s, done, now);
      t.lru.cache.keys == LastN(s.lru.cache.keys + done, Capacity(maxSize)) && t.pending == s.pending - multiset(done)
  {
    if done == [] {
      LastNShort(s.lru.cache.keys, Capacity(maxSize));
      assert s.lru.cache.keys + done == s.lru.cache.keys;
    } else {
      var init, k := done[..|done| - 1], done[|done| - 1];
      SplitLast(done);
      PendingLeft(s.pending, init, k, done);
      NotCachedFirst(s, init, k, done);
      AllFinished(maxSize, ttlMs, fetch, s, init, now);
      OneFinished(maxSize, ttlMs, fetch, FinishAll(maxSize, ttlMs, fetch, s, init, now), s.lru.cache.keys, init, k,
        now);
    }
  }

  lemma SplitLast<T(!new)>(s: seq<T>)
    requires s != [] && NoDup(s)
    ensures var init, last := s[..|s| - 1], s[|s| - 1];
      last !in init && NoDup(init) && multiset(s) == multiset(init) + multiset{last} && s == init + [last]
  {
    assert s == s[..|s| - 1] + [s[|s| - 1]];
  }

  lemma PendingLeft<T(!new)>(pending: multiset<T>, init: seq<T>, k: T, done: seq<T>)
    requires multiset(done) == multiset(init) + multiset{k} && multiset(done) <= pending
    ensures multiset(init) <= pending && k in pending - multiset(init)
    ensures pending - multiset(init) - multiset{k} == pending - multiset(done)
  {
    assert (pending - multiset(init))[k] == pending[k] - multiset(init)[k];
  }

  lemma NotCachedFirst<K(!new), V>(s: System<K, V>, init: seq<K>, k: K, done: seq<K>)
    requires NoneCached(s, done) && done == init + [k]
    ensures NoneCached(s, init) && k !in s.lru.cache.keys
  {
    assert done[|init|] == k;
    assert !s.lru.cache.Has(k);
  }

  lemma OneFinished<K(!new), V>(
      maxSize: int, ttlMs: int, fetch: K -> V, t: System<K, V>, before: seq<K>, init: seq<K>, k: K, now: int)
    requires t.lru.cache.keys == LastN(before + init, Capacity(maxSize)) && k !in before && k !in init && k in t.pending
    ensures var u := Step(maxSize, ttlMs, fetch, t, Finish(k, now)).0;
      u.lru.cache.keys == LastN(before + (init + [k]), Capacity(maxSize)) && u.pending == t.pending - multiset{k}
  {
    NotStoredYet(t.lru, before, init, k, Capacity(maxSize));
    StoresLast(t.lru, maxSize, k, fetch(k), ttlMs, now, before + init);
    assert before + init + [k] == before + (init + [k]);
  }

  lemma NotStoredYet<K(!new), V>(s: Lru<K, V>, before: seq<K>, init: seq<K>, k: K, n: nat)
    requires s.cache.keys == LastN(before + init, n) && k !in before && k !in init
    ensures !s.cache.Has(k)
  {
    assert forall x :: x in LastN(before + init, n) ==> x in before + init;
    assert k !in s.cache.keys;
  }

  lemma LastNOfLonger<T>(front: seq<T>, a: seq<T>, b: seq<T>, n: nat)
    requires |a| == |b|
    ensures LastN(front + a, n) == LastN(front + b, n) <==> LastN(a, n) == LastN(b, n)
  {
    if |a| >= n {
      LastNBehind(front, a, n);
      LastNBehind(front, b, n);
    } else {
      LastNShort(a, n);
      LastNShort(b, n);
      var x, y := LastN(front + a, n), LastN(front + b, n);
      assert x[|x| - |a|..] == a && y[|y| - |b|..] == b;
      if a == b {
        assert x == y;
      }
    }
  }

  lemma LastNBehind<T>(front: seq<T>, s: seq<T>, n: nat)
    requires n <= |s|
    ensures LastN(front + s, n) == LastN(s, n)
  {
  }

  ghost predicate Batch<K(!new), V>(s: System<K, V>, maxSize: int, keys: seq<K>, done: seq<K>) {
    NoDup(keys) && multiset(done) == multiset(keys) && NoneCached(s, keys) && s.lru.cache.Size() <= Capacity(maxSize)
  }

  /** A batch of new texts is asked for at once, and its computations finish in the order `done`. */
  function RunBatch<K(==, !new), V>(
      maxSize: int, ttlMs: int, fetch: K -> V, s: System<K, V>, keys: seq<K>, done: seq<K>, now: int): System<K, V> {
    FinishAll(maxSize, ttlMs, fetch, AskAll(maxSize, ttlMs, fetch, s, keys, now), done, now)
  }

  lemma BatchLeaves<K(!new), V>(
      maxSize: int, ttlMs: int, fetch: K -> V, s: System<K, V>, keys: seq<K>, done: seq<K>, now: int)
    requires Batch(s, maxSize, keys, done)
    ensures var t := RunBatch(maxSize, ttlMs, fetch, s, keys, done, now);
      t.pending == s.pending && t.lru.cache.keys == LastN(s.lru.cache.keys + done, Capacity(maxSize))
  {
    var asked := AskAll(maxSize, ttlMs, fetch, s, keys, now);
    AllAsked(maxSize, ttlMs, fetch, s, keys, now);
    SameMultisetNoDup(keys, done);
    SameMultisetSameMembers(keys, done);
    AllFinished(maxSize, ttlMs, fetch, asked, done, now);
    assert asked.pending - multiset(done) == s.pending;
  }

  /**
   It leaves the cache as if they had been asked for one after the other exactly when the last of them, as
   many as the cache can hold, finish in the order in which they were asked.
   */
  lemma BatchInOrderIff<K(!new), V>(
      maxSize: int, ttlMs: int, fetch: K -> V, s: System<K, V>, keys: seq<K>, done: seq<K>, now: int)
    requires Batch(s, maxSize, keys, done)
    ensures var t, n := RunBatch(maxSize, ttlMs, fetch, s, keys, done, now), Capacity(maxSize);
      t.lru.cache.keys == LastN(s.lru.cache.keys + keys, n) <==> LastN(done, n) == LastN(keys, n)
  {
    BatchLeaves(maxSize, ttlMs, fetch, s, keys, done, now);
    assert |done| == |multiset(done)| == |multiset(keys)| == |keys|;
    LastNOfLonger(s.lru.cache.keys, done, keys, Capacity(maxSize));
  }

  /** get a, get b, set b, set a: the cache is left in the order of completion, not of the requests. */
  lemma OverlapReorders<K(!new), V>(maxSize: int, ttlMs: int, fetch: K -> V, a: K, b: K)
    requires maxSize >= 2 && a != b
    ensures var start: System<K, V> := After(maxSize, ttlMs, fetch, []);
      RunBatch(maxSize, ttlMs, fetch, start, [a, b], [b, a], 0).lru.cache.keys == [b, a]
    ensures Recency([Lookup(a, 0), Lookup(b, 0)]) == [a, b]
  {
    var start: System<K, V> := After(maxSize, ttlMs, fetch, []);
    var keys, done := [a, b], [b, a];
    assert multiset(done) == multiset(keys);
    assert Batch(start, maxSize, keys, done);
    BatchLeaves(maxSize, ttlMs, fetch, start, keys, done, 0);
    assert start.lru.cache.keys + done == done;
    LastNShort(done, Capacity(maxSize));
    RecencyOfTwo(a, b);
  }

  lemma RecencyOfTwo<K(!new)>(a: K, b: K)
    requires a != b
    ensures Recency([Lookup(a, 0), Lookup(b, 0)]) == [a, b]
  {
    var trace := [Lookup(a, 0), Lookup(b, 0)];
    assert trace[..1] == [Lookup(a, 0)] && trace[..1][..0] == [];
    assert Recency(trace[..1]) == [a];
    assert Without([a], b) == [a];
  }
}
