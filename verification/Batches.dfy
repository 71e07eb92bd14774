/**
 src/analysis/rag-embeddings.js, generateBatch: all texts of a batch are asked for at once, and their
 computations finish in any order. Whatever was cached before and however the texts repeat, when the cache is
 left as if they had been asked for one after the other.
 */
module Batches {
  import opened JsCollections
  import opened LruCaches
  import opened ReadThrough
  import R = ReadThrough

  // ---------- Runs that go on ----------

  function RunFrom<K(==, !new), V>(maxSize: int, ttlMs: int, fetch: K -> V, s: System<K, V>,
      events: seq<Event<K>>): System<K, V> {
    if events == [] then s
    else Step(maxSize, ttlMs, fetch, RunFrom(maxSize, ttlMs, fetch, s, events[..|events| - 1]), events[|events| - 1]).0
  }

  function ArrivalsFrom<K(==, !new), V>(maxSize: int, ttlMs: int, fetch: K -> V, s: System<K, V>,
      events: seq<Event<K>>): seq<Lookup<K>> {
    if events == [] then []
    else
      var init := events[..|events| - 1];
      ArrivalsFrom(maxSize, ttlMs, fetch, s, init)
        + Arrival(RunFrom(maxSize, ttlMs, fetch, s, init), events[|events| - 1])
  }

  lemma FromSnoc<K(!new), V>(maxSize: int, ttlMs: int, fetch: K -> V, s: System<K, V>, events: seq<Event<K>>,
      e: Event<K>)
    ensures var t := RunFrom(maxSize, ttlMs, fetch, s, events);
      && RunFrom(maxSize, ttlMs, fetch, s, events + [e]) == Step(maxSize, ttlMs, fetch, t, e).0
      && ArrivalsFrom(maxSize, ttlMs, fetch, s, events + [e])
        == ArrivalsFrom(maxSize, ttlMs, fetch, s, events) + Arrival(t, e)
  {
    assert (events + [e])[..|events|] == events;
  }

  lemma {:induction false} FromConcat<K(!new), V>(maxSize: int, ttlMs: int, fetch: K -> V, s: System<K, V>,
      first: seq<Event<K>>, more: seq<Event<K>>)
    ensures var t := RunFrom(maxSize, ttlMs, fetch, s, first);
      && RunFrom(maxSize, ttlMs, fetch, s, first + more) == RunFrom(maxSize, ttlMs, fetch, t, more)
      && ArrivalsFrom(maxSize, ttlMs, fetch, s, first + more)
        == ArrivalsFrom(maxSize, ttlMs, fetch, s, first) + ArrivalsFrom(maxSize, ttlMs, fetch, t, more)
  {
    if more == [] {
      assert first + more == first;
    } else {
      var init := more[..|more| - 1];
      assert (first + more)[..|first + more| - 1] == first + init;
      FromConcat(maxSize, ttlMs, fetch, s, first, init);
    }
  }

  lemma {:induction false} AfterConcat<K(!new), V>(maxSize: int, ttlMs: int, fetch: K -> V, events: seq<Event<K>>,
      more: seq<Event<K>>)
    ensures var s := R.After(maxSize, ttlMs, fetch, events);
      && R.After(maxSize, ttlMs, fetch, events + more) == RunFrom(maxSize, ttlMs, fetch, s, more)
      && Arrivals(maxSize, ttlMs, fetch, events + more)
        == Arrivals(maxSize, ttlMs, fetch, events) + ArrivalsFrom(maxSize, ttlMs, fetch, s, more)
  {
    if more == [] {
      assert events + more == events;
    } else {
      var init := more[..|more| - 1];
      assert (events + more)[..|events + more| - 1] == events + init;
      AfterConcat(maxSize, ttlMs, fetch, events, init);
    }
  }

  // ---------- Recency of what comes later ----------

  function Drop<T(==)>(s: seq<T>, members: set<T>): seq<T> {
    if s == [] then []
    else if s[0] in members then Drop(s[1..], members)
    else [s[0]] + Drop(s[1..], members)
  }

  lemma {:induction false} DropOne<T(!new)>(s: seq<T>, members: set<T>, x: T)
    ensures Without(Drop(s, members), x) == Drop(s, members + {x})
  {
    if s != [] {
      DropOne(s[1..], members, x);
      assert ([s[0]] + Drop(s[1..], members))[1..] == Drop(s[1..], members);
    }
  }

  lemma {:induction false} DropNone<T>(s: seq<T>)
    ensures Drop(s, {}) == s
  {
    if s != [] {
      DropNone(s[1..]);
    }
  }

  function KeySet<K(==, !new)>(trace: seq<Lookup<K>>): set<K> { set i | 0 <= i < |trace| :: trace[i].key }

  lemma KeySetSnoc<K(!new)>(trace: seq<Lookup<K>>)
    requires trace != []
    ensures KeySet(trace) == KeySet(trace[..|trace| - 1]) + {trace[|trace| - 1].key}
  {
    var init := trace[..|trace| - 1];
    forall k | k in KeySet(trace) ensures k in KeySet(init) + {trace[|trace| - 1].key} {
      var i :| 0 <= i < |trace| && trace[i].key == k;
      assert i < |init| ==> init[i].key == k;
    }
    forall k | k in KeySet(init) ensures k in KeySet(trace) {
      var i :| 0 <= i < |init| && init[i].key == k;
      assert trace[i].key == k;
    }
  }

  lemma KeySetConcat<K(!new)>(t: seq<Lookup<K>>, u: seq<Lookup<K>>)
    ensures KeySet(t + u) == KeySet(t) + KeySet(u)
  {
    forall k | k in KeySet(t) ensures k in KeySet(t + u) {
      var i :| 0 <= i < |t| && t[i].key == k;
      assert (t + u)[i].key == k;
    }
    forall k | k in KeySet(u) ensures k in KeySet(t + u) {
      var i :| 0 <= i < |u| && u[i].key == k;
      assert (t + u)[|t| + i].key == k;
    }
    forall k | k in KeySet(t + u) ensures k in KeySet(t) + KeySet(u) {
      var i :| 0 <= i < |t + u| && (t + u)[i].key == k;
      assert if i < |t| then t[i].key == k else u[i - |t|].key == k;
    }
  }

  /** Later lookups come last; of the earlier keys the others stay in order. */
  lemma {:induction false} RecencyConcat<K(!new)>(t: seq<Lookup<K>>, u: seq<Lookup<K>>)
    ensures Recency(t + u) == Drop(Recency(t), KeySet(u)) + Recency(u)
  {
    if u == [] {
      assert t + u == t && KeySet(u) == {};
      DropNone(Recency(t));
    } else {
      var init, k := u[..|u| - 1], u[|u| - 1].key;
      assert (t + u)[..|t + u| - 1] == t + init;
      RecencyConcat(t, init);
      WithoutConcat(Drop(Recency(t), KeySet(init)), Recency(init), k);
      DropOne(Recency(t), KeySet(init), k);
      KeySetSnoc(u);
    }
  }

  lemma RecencySize<K(!new)>(t: seq<Lookup<K>>)
    ensures |Recency(t)| == |KeySet(t)|
  {
    RecencyNoDup(t);
    RecencyMembers(t);
    forall k ensures k in Recency(t) <==> k in KeySet(t) {
      if Requested(t, k) {
        var i :| 0 <= i < |t| && t[i].key == k;
      }
    }
    NoDupSize(Recency(t), KeySet(t));
  }

  /** Two ways to look up the same keys leave the same last n exactly when they agree on their own last n. */
  lemma LastNRecencyIff<K(!new)>(t: seq<Lookup<K>>, a: seq<Lookup<K>>, b: seq<Lookup<K>>, n: nat)
    requires KeySet(a) == KeySet(b)
    ensures LastN(Recency(t + a), n) == LastN(Recency(t + b), n) <==> LastN(Recency(a), n) == LastN(Recency(b), n)
  {
    RecencyConcat(t, a);
    RecencyConcat(t, b);
    RecencySize(a);
    RecencySize(b);
    LastNOfLonger(Drop(Recency(t), KeySet(a)), Recency(a), Recency(b), n);
  }

  // ---------- One after the other ----------

  function Lookups<K>(keys: seq<K>, now: int): seq<Lookup<K>> {
    seq(|keys|, i requires 0 <= i < |keys| => Lookup(keys[i], now))
  }

  function Asks<K>(keys: seq<K>, now: int): seq<Event<K>> {
    seq(|keys|, i requires 0 <= i < |keys| => Ask(keys[i], now, now))
  }

  function Finishes<K>(done: seq<K>, now: int): seq<Event<K>> {
    seq(|done|, i requires 0 <= i < |done| => Finish(done[i], now))
  }

  lemma LookupsSnoc<K>(keys: seq<K>, k: K, now: int)
    ensures Lookups(keys + [k], now) == Lookups(keys, now) + [Lookup(k, now)]
    ensures Asks(keys + [k], now) == Asks(keys, now) + [Ask(k, now, now)]
    ensures Finishes(keys + [k], now) == Finishes(keys, now) + [Finish(k, now)]
  {
  }

  function InTurn<K(==, !new), V>(maxSize: int, ttlMs: int, fetch: K -> V, lru: Lru<K, V>,
      lookups: seq<Lookup<K>>): Lru<K, V> {
    if lookups == [] then lru
    else
      var last := lookups[|lookups| - 1];
      Request(InTurn(maxSize, ttlMs, fetch, lru, lookups[..|lookups| - 1]), maxSize, ttlMs, fetch, last.key, last.now).0
  }

  lemma RequestedKeys<K(!new), V>(s: Lru<K, V>, maxSize: int, ttlMs: int, fetch: K -> V, before: seq<Lookup<K>>,
      last: Lookup<K>)
    requires ttlMs <= 0 && s.cache.keys == LastN(Recency(before), Capacity(maxSize))
    ensures Request(s, maxSize, ttlMs, fetch, last.key, last.now).0.cache.keys
      == LastN(Recency(before + [last]), Capacity(maxSize))
  {
    assert (before + [last])[..|before|] == before;
    RecencyNoDup(before);
    LastNMoves(Recency(before), Capacity(maxSize), last.key);
    RequestMovesKeys(s, maxSize, ttlMs, fetch, last.key, last.now);
    assert last.key in s.cache.vals <==> last.key in s.cache.keys;
  }

  lemma Assoc<T>(a: seq<T>, b: seq<T>, c: seq<T>)
    ensures a + (b + c) == a + b + c
  {
  }

  lemma {:induction false} InTurnKeys<K(!new), V>(maxSize: int, ttlMs: int, fetch: K -> V, lru: Lru<K, V>,
      trace: seq<Lookup<K>>, lookups: seq<Lookup<K>>)
    requires ttlMs <= 0 && lru.cache.keys == LastN(Recency(trace), Capacity(maxSize))
    ensures InTurn(maxSize, ttlMs, fetch, lru, lookups).cache.keys == LastN(Recency(trace + lookups), Capacity(maxSize))
  {
    if lookups == [] {
      assert trace + lookups == trace;
    } else {
      var init, last := lookups[..|lookups| - 1], lookups[|lookups| - 1];
      InTurnKeys(maxSize, ttlMs, fetch, lru, trace, init);
      RequestedKeys(InTurn(maxSize, ttlMs, fetch, lru, init), maxSize, ttlMs, fetch, trace + init, last);
      Assoc(trace, init, [last]);
      assert lookups == init + [last];
    }
  }

  // ---------- A batch ----------

  /** The texts that are cached when the batch starts, and those that are not, as often as they are asked for. */
  function Hits<K(==, !new), V>(s: System<K, V>, keys: seq<K>): seq<K> {
    if keys == [] then []
    else Hits(s, keys[..|keys| - 1]) + if s.lru.cache.Has(keys[|keys| - 1]) then [keys[|keys| - 1]] else []
  }

  function Misses<K(==, !new), V>(s: System<K, V>, keys: seq<K>): seq<K> {
    if keys == [] then []
    else Misses(s, keys[..|keys| - 1]) + if s.lru.cache.Has(keys[|keys| - 1]) then [] else [keys[|keys| - 1]]
  }

  ghost predicate SameMembers<K(!new), V>(s: System<K, V>, t: System<K, V>) {
    forall k :: t.lru.cache.Has(k) <==> s.lru.cache.Has(k)
  }

  lemma OneAsked<K(!new), V>(maxSize: int, ttlMs: int, fetch: K -> V, s: System<K, V>, t: System<K, V>, k: K, now: int)
    requires ttlMs <= 0 && SameMembers(s, t)
    ensures var u := Step(maxSize, ttlMs, fetch, t, Ask(k, now, now)).0;
      && SameMembers(s, u) && u.pending == t.pending + (if s.lru.cache.Has(k) then multiset{} else multiset{k})
      && Arrival(t, Ask(k, now, now)) == (if s.lru.cache.Has(k) then [Lookup(k, now)] else [])
  {
    assert t.lru.cache.Has(k) <==> s.lru.cache.Has(k);
  }

  lemma NextAsked<K(!new), V>(maxSize: int, ttlMs: int, fetch: K -> V, s: System<K, V>, init: seq<K>,
      asks: seq<Event<K>>, k: K, now: int)
    requires ttlMs <= 0 && SameMembers(s, RunFrom(maxSize, ttlMs, fetch, s, asks))
    requires RunFrom(maxSize, ttlMs, fetch, s, asks).pending == s.pending + multiset(Misses(s, init))
    requires ArrivalsFrom(maxSize, ttlMs, fetch, s, asks) == Lookups(Hits(s, init), now)
    ensures var t := RunFrom(maxSize, ttlMs, fetch, s, asks + [Ask(k, now, now)]);
      && SameMembers(s, t) && t.pending == s.pending + multiset(Misses(s, init + [k]))
      && ArrivalsFrom(maxSize, ttlMs, fetch, s, asks + [Ask(k, now, now)]) == Lookups(Hits(s, init + [k]), now)
  {
    FromSnoc(maxSize, ttlMs, fetch, s, asks, Ask(k, now, now));
    OneAsked(maxSize, ttlMs, fetch, s, RunFrom(maxSize, ttlMs, fetch, s, asks), k, now);
    HitsSnoc(s, init, k);
    LookupsSnoc(Hits(s, init), k, now);
  }

  lemma HitsSnoc<K(!new), V>(s: System<K, V>, init: seq<K>, k: K)
    ensures Hits(s, init + [k]) == if s.lru.cache.Has(k) then Hits(s, init) + [k] else Hits(s, init)
    ensures Misses(s, init + [k]) == if s.lru.cache.Has(k) then Misses(s, init) else Misses(s, init) + [k]
  {
    assert (init + [k])[..|init|] == init;
  }

  /** While the texts are asked for, nothing enters the cache and nothing leaves it. */
  lemma {:induction false} AsksArrive<K(!new), V>(maxSize: int, ttlMs: int, fetch: K -> V, s: System<K, V>,
      keys: seq<K>, now: int)
    requires ttlMs <= 0
    ensures var t := RunFrom(maxSize, ttlMs, fetch, s, Asks(keys, now));
      && SameMembers(s, t) && t.pending == s.pending + multiset(Misses(s, keys))
      && ArrivalsFrom(maxSize, ttlMs, fetch, s, Asks(keys, now)) == Lookups(Hits(s, keys), now)
  {
    if keys != [] {
      var init, k := keys[..|keys| - 1], keys[|keys| - 1];
      AsksArrive(maxSize, ttlMs, fetch, s, init, now);
      assert keys == init + [k];
      LookupsSnoc(init, k, now);
      NextAsked(maxSize, ttlMs, fetch, s, init, Asks(init, now), k, now);
    }
  }

  /** A computation that finishes stores its text, unless it is there. */
  lemma OneFinishes<K(!new), V>(maxSize: int, ttlMs: int, fetch: K -> V, t: System<K, V>, k: K, now: int)
    requires k in t.pending
    ensures var u := Step(maxSize, ttlMs, fetch, t, Finish(k, now)).0;
      && u.pending == t.pending - multiset{k} && (forall x :: u.lru.cache.Has(x) ==> x == k || t.lru.cache.Has(x))
    ensures Arrival(t, Finish(k, now)) == if t.lru.cache.Has(k) then [] else [Lookup(k, now)]
  {
  }

  /** What is pending, cached and has arrived once `done` has finished. */
  ghost predicate Finished<K(!new), V>(t: System<K, V>, u: System<K, V>, done: seq<K>, arrived: seq<Lookup<K>>,
      now: int) {
    && u.pending == t.pending - multiset(done)
    && (forall x :: u.lru.cache.Has(x) ==> x in done || t.lru.cache.Has(x))
    && KeySet(arrived) == (set k | k in done) && (NoDup(done) ==> arrived == Lookups(done, now))
  }

  lemma PendingNext<T(!new)>(pending: multiset<T>, init: seq<T>, k: T)
    ensures pending - multiset(init) - multiset{k} == pending - multiset(init + [k])
  {
    forall x ensures (pending - multiset(init) - multiset{k})[x] == (pending - multiset(init + [k]))[x] {
      assert multiset(init + [k])[x] == multiset(init)[x] + multiset{k}[x];
    }
  }

  /** A text that finishes arrives, unless it has before. */
  lemma NextArrival<K(!new)>(init: seq<K>, arrived: seq<Lookup<K>>, k: K, more: seq<Lookup<K>>, now: int)
    requires KeySet(arrived) == (set x | x in init) && (NoDup(init) ==> arrived == Lookups(init, now))
    requires more == [Lookup(k, now)] || (more == [] && k in init)
    ensures KeySet(arrived + more) == (set x | x in init + [k])
    ensures NoDup(init + [k]) ==> arrived + more == Lookups(init + [k], now)
  {
    KeySetConcat(arrived, more);
    assert KeySet(more) == if more == [] then {} else {k} by {
      if more != [] {
        assert more[0].key == k;
      }
    }
    if NoDup(init + [k]) {
      SplitLast(init + [k]);
      assert (init + [k])[..|init|] == init;
      LookupsSnoc(init, k, now);
    }
  }

  lemma NextFinished<K(!new), V>(maxSize: int, ttlMs: int, fetch: K -> V, t: System<K, V>, u: System<K, V>,
      init: seq<K>, arrived: seq<Lookup<K>>, k: K, now: int)
    requires Finished(t, u, init, arrived, now) && k in u.pending && !t.lru.cache.Has(k)
    ensures Finished(t, Step(maxSize, ttlMs, fetch, u, Finish(k, now)).0, init + [k],
      arrived + Arrival(u, Finish(k, now)), now)
  {
    OneFinishes(maxSize, ttlMs, fetch, u, k, now);
    PendingNext(t.pending, init, k);
    NextArrival(init, arrived, k, Arrival(u, Finish(k, now)), now);
  }

  /** Every text that was missed arrives; if it was missed only once, when its computation finishes. */
  lemma {:induction false} FinishesArrive<K(!new), V>(maxSize: int, ttlMs: int, fetch: K -> V, t: System<K, V>,
      done: seq<K>, now: int)
    requires multiset(done) <= t.pending && NoneCached(t, done)
    ensures Finished(t, RunFrom(maxSize, ttlMs, fetch, t, Finishes(done, now)), done,
      ArrivalsFrom(maxSize, ttlMs, fetch, t, Finishes(done, now)), now)
  {
    if done != [] {
      var init, k := done[..|done| - 1], done[|done| - 1];
      assert done == init + [k] && k in done;
      LookupsSnoc(init, k, now);
      assert multiset(done) == multiset(init) + multiset{k};
      PendingLeft(t.pending, init, k, done);
      assert NoneCached(t, init);
      FinishesArrive(maxSize, ttlMs, fetch, t, init, now);
      FromSnoc(maxSize, ttlMs, fetch, t, Finishes(init, now), Finish(k, now));
      NextFinished(maxSize, ttlMs, fetch, t, RunFrom(maxSize, ttlMs, fetch, t, Finishes(init, now)), init,
        ArrivalsFrom(maxSize, ttlMs, fetch, t, Finishes(init, now)), k, now);
    }
  }

  lemma {:induction false} HitsAndMisses<K(!new), V>(s: System<K, V>, keys: seq<K>)
    ensures forall k :: k in Hits(s, keys) <==> k in keys && s.lru.cache.Has(k)
    ensures forall k :: k in Misses(s, keys) <==> k in keys && !s.lru.cache.Has(k)
  {
    if keys != [] {
      HitsAndMisses(s, keys[..|keys| - 1]);
      assert keys == keys[..|keys| - 1] + [keys[|keys| - 1]];
    }
  }

  lemma KeysOfLookups<K(!new)>(keys: seq<K>, now: int)
    ensures KeySet(Lookups(keys, now)) == set k | k in keys
  {
    forall k | k in keys ensures k in KeySet(Lookups(keys, now)) {
      var i :| 0 <= i < |keys| && keys[i] == k;
      assert Lookups(keys, now)[i].key == k;
    }
  }

  /** The whole batch: its texts are asked for in order, and finish in the order `done`. */
  function BatchEvents<K>(keys: seq<K>, done: seq<K>, now: int): seq<Event<K>> {
    Asks(keys, now) + Finishes(done, now)
  }

  /** Exactly the texts of the batch arrive. */
  lemma BatchArrives<K(!new), V>(maxSize: int, ttlMs: int, fetch: K -> V, s: System<K, V>, keys: seq<K>, done: seq<K>,
      now: int)
    requires ttlMs <= 0 && multiset(done) == multiset(Misses(s, keys))
    ensures var arrived := ArrivalsFrom(maxSize, ttlMs, fetch, s, BatchEvents(keys, done, now));
      && RunFrom(maxSize, ttlMs, fetch, s, BatchEvents(keys, done, now)).pending == s.pending
      && KeySet(arrived) == KeySet(Lookups(keys, now))
      && (NoDup(done) ==> arrived == Lookups(Hits(s, keys), now) + Lookups(done, now))
  {
    var t := RunFrom(maxSize, ttlMs, fetch, s, Asks(keys, now));
    AsksArrive(maxSize, ttlMs, fetch, s, keys, now);
    HitsAndMisses(s, keys);
    SameMultisetSameMembers(Misses(s, keys), done);
    assert NoneCached(t, done);
    FinishesArrive(maxSize, ttlMs, fetch, t, done, now);
    FromConcat(maxSize, ttlMs, fetch, s, Asks(keys, now), Finishes(done, now));
    KeySetConcat(Lookups(Hits(s, keys), now), ArrivalsFrom(maxSize, ttlMs, fetch, t, Finishes(done, now)));
    KeysOfLookups(Hits(s, keys), now);
    KeysOfLookups(keys, now);
    assert s.pending + multiset(done) - multiset(done) == s.pending;
  }

  /**
   After any history, a batch of any texts leaves the cache as if they had been asked for one after the other
   exactly when what arrives, the cached texts at once and the others as they are stored, comes in the order of the
   texts, as far as the cache can hold it.
   */
  lemma AnyBatchInOrderIff<K(!new), V>(maxSize: int, ttlMs: int, fetch: K -> V, events: seq<Event<K>>, keys: seq<K>,
      done: seq<K>, now: int)
    requires ttlMs <= 0 && multiset(done) == multiset(Misses(R.After(maxSize, ttlMs, fetch, events), keys))
    ensures var s, batch, n := R.After(maxSize, ttlMs, fetch, events), BatchEvents(keys, done, now), Capacity(maxSize);
      var t := R.After(maxSize, ttlMs, fetch, events + batch);
      (t.lru.cache.keys == InTurn(maxSize, ttlMs, fetch, s.lru, Lookups(keys, now)).cache.keys)
      <==> LastN(Recency(ArrivalsFrom(maxSize, ttlMs, fetch, s, batch)), n) == LastN(Recency(Lookups(keys, now)), n)
  {
    var s, batch, n := R.After(maxSize, ttlMs, fetch, events), BatchEvents(keys, done, now), Capacity(maxSize);
    var trace := Arrivals(maxSize, ttlMs, fetch, events);
    AfterConcat(maxSize, ttlMs, fetch, events, batch);
    HoldsLatestArrivals(maxSize, ttlMs, fetch, events);
    HoldsLatestArrivals(maxSize, ttlMs, fetch, events + batch);
    InTurnKeys(maxSize, ttlMs, fetch, s.lru, trace, Lookups(keys, now));
    BatchArrives(maxSize, ttlMs, fetch, s, keys, done, now);
    LastNRecencyIff(trace, ArrivalsFrom(maxSize, ttlMs, fetch, s, batch), Lookups(keys, now), n);
  }

  lemma {:induction false} RecencyOfDistinct<K(!new)>(keys: seq<K>, now: int)
    requires NoDup(keys)
    ensures Recency(Lookups(keys, now)) == keys
  {
    if keys != [] {
      var init, k := keys[..|keys| - 1], keys[|keys| - 1];
      SplitLast(keys);
      LookupsSnoc(init, k, now);
      assert Lookups(keys, now)[..|keys| - 1] == Lookups(init, now);
      RecencyOfDistinct(init, now);
      WithoutAbsent(init, k);
    }
  }

  lemma {:induction false} HitsNoDup<K(!new), V>(s: System<K, V>, keys: seq<K>)
    requires NoDup(keys)
    ensures NoDup(Hits(s, keys)) && NoDup(Misses(s, keys))
  {
    if keys != [] {
      SplitLast(keys);
      HitsNoDup(s, keys[..|keys| - 1]);
      HitsAndMisses(s, keys[..|keys| - 1]);
    }
  }

  lemma DisjointNoDup<K(!new)>(a: seq<K>, b: seq<K>)
    requires NoDup(a) && NoDup(b) && forall k :: k in a ==> k !in b
    ensures NoDup(a + b)
  {
    forall i, j | 0 <= i < j < |a + b| ensures (a + b)[i] != (a + b)[j] {
      if i < |a| <= j {
        assert a[i] in a && b[j - |a|] in b;
      }
    }
  }

  lemma DistinctArrivals<K(!new), V>(maxSize: int, ttlMs: int, fetch: K -> V, s: System<K, V>, keys: seq<K>,
      done: seq<K>, now: int)
    requires ttlMs <= 0 && NoDup(keys) && multiset(done) == multiset(Misses(s, keys))
    ensures Recency(ArrivalsFrom(maxSize, ttlMs, fetch, s, BatchEvents(keys, done, now))) == Hits(s, keys) + done
  {
    var hits := Hits(s, keys);
    HitsNoDup(s, keys);
    SameMultisetNoDup(Misses(s, keys), done);
    BatchArrives(maxSize, ttlMs, fetch, s, keys, done, now);
    HitsApart(s, keys, done);
    DisjointNoDup(hits, done);
    LookupsConcat(hits, done, now);
    RecencyOfDistinct(hits + done, now);
  }

  lemma HitsApart<K(!new), V>(s: System<K, V>, keys: seq<K>, done: seq<K>)
    requires multiset(done) == multiset(Misses(s, keys))
    ensures forall k :: k in Hits(s, keys) ==> k !in done
  {
    HitsAndMisses(s, keys);
    SameMultisetSameMembers(Misses(s, keys), done);
  }

  lemma LookupsConcat<K>(a: seq<K>, b: seq<K>, now: int)
    ensures Lookups(a + b, now) == Lookups(a, now) + Lookups(b, now)
  {
  }

  /** For different texts: exactly when the cached ones, and then the others as they finish, are in the order asked. */
  lemma DistinctBatchInOrderIff<K(!new), V>(maxSize: int, ttlMs: int, fetch: K -> V, events: seq<Event<K>>,
      keys: seq<K>, done: seq<K>, now: int)
    requires ttlMs <= 0 && NoDup(keys)
    requires multiset(done) == multiset(Misses(R.After(maxSize, ttlMs, fetch, events), keys))
    ensures var s, n := R.After(maxSize, ttlMs, fetch, events), Capacity(maxSize);
      var t := R.After(maxSize, ttlMs, fetch, events + BatchEvents(keys, done, now));
      (t.lru.cache.keys == InTurn(maxSize, ttlMs, fetch, s.lru, Lookups(keys, now)).cache.keys)
      <==> LastN(Hits(s, keys) + done, n) == LastN(keys, n)
  {
    var s := R.After(maxSize, ttlMs, fetch, events);
    AnyBatchInOrderIff(maxSize, ttlMs, fetch, events, keys, done, now);
    DistinctArrivals(maxSize, ttlMs, fetch, s, keys, done, now);
    RecencyOfDistinct(keys, now);
  }
}
