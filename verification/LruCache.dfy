/**
 src/analysis/lru-cache.js: the cache whose Map order is its recency order, and its read-through
 use in src/analysis/rag-embeddings.js.
 */
module LruCaches {
  import opened JsCollections

  datatype Entry<V> = Entry(value: V, lastAccessed: int, accessCount: nat, ttlMs: int)

  datatype Lru<K(==, !new), V> = Lru(
    cache: JsMap<K, Entry<V>>, accessStats: map<K, nat>, hits: nat, misses: nat, evictions: nat)

  function EmptyLru<K(==, !new), V>(): Lru<K, V> { Lru(EmptyMap(), map[], 0, 0, 0) }

  predicate Expired<V>(e: Entry<V>, ttlMs: int, now: int) { ttlMs > 0 && now - e.lastAccessed > ttlMs }

  /** `cache.delete(key); cache.set(key, entry)`. */
  function MovedToEnd<K(==, !new), V>(cache: JsMap<K, Entry<V>>, key: K, e: Entry<V>): JsMap<K, Entry<V>> {
    cache.Delete(key).Set(key, e)
  }

  function TouchStep<K(==, !new), V>(s: Lru<K, V>, key: K, touched: int): Lru<K, V>
    requires s.cache.Has(key)
  {
    var e := s.cache.vals[key];
    var e' := e.(lastAccessed := touched, accessCount := e.accessCount + 1);
    var count := (if key in s.accessStats then s.accessStats[key] else 0) + 1;
    s.(cache := MovedToEnd(s.cache, key, e'), hits := s.hits + 1, accessStats := s.accessStats[key := count])
  }

  /** The two clock reads of get() are the test and the new access time. */
  function GetStep<K(==, !new), V>(s: Lru<K, V>, ttlMs: int, key: K, now: int, touched: int): (Lru<K, V>, Option<V>) {
    if !s.cache.Has(key) then (s.(misses := s.misses + 1), None)
    else if Expired(s.cache.vals[key], ttlMs, now) then (s.(cache := s.cache.Delete(key), misses := s.misses + 1), None)
    else (TouchStep(s, key, touched), Some(s.cache.vals[key].value))
  }

  function EvictStep<K(==, !new), V>(s: Lru<K, V>): Lru<K, V> {
    if s.cache.keys == [] then s
    else
      var first := s.cache.keys[0];
      s.(cache := s.cache.Delete(first), accessStats := s.accessStats - {first}, evictions := s.evictions + 1)
  }

  function SetStep<K(==, !new), V>(s: Lru<K, V>, maxSize: int, key: K, value: V, ttlMs: int, now: int): Lru<K, V> {
    var s := if s.cache.Size() >= maxSize && !s.cache.Has(key) then EvictStep(s) else s;
    s.(cache := s.cache.Set(key, Entry(value, now, 1, ttlMs)), accessStats := s.accessStats[key := 1])
  }

  function HasStep<K(==, !new), V>(s: Lru<K, V>, ttlMs: int, key: K, now: int): (Lru<K, V>, bool) {
    if !s.cache.Has(key) then (s, false)
    else if Expired(s.cache.vals[key], ttlMs, now) then (s.(cache := s.cache.Delete(key)), false)
    else (s, true)
  }

  function DeleteStep<K(==, !new), V>(s: Lru<K, V>, key: K): (Lru<K, V>, bool) {
    if s.cache.Has(key) then (s.(cache := s.cache.Delete(key), accessStats := s.accessStats - {key}), true)
    else (s, false)
  }

  /** clear(): the eviction counter survives. */
  function ClearStep<K(==, !new), V>(s: Lru<K, V>): Lru<K, V> {
    Lru(EmptyMap(), map[], 0, 0, s.evictions)
  }

  /** One turn of the loop of cleanup(). */
  function CleanupOne<K(==, !new), V>(s: Lru<K, V>, key: K, ttlMs: int, now: int): Lru<K, V> {
    if s.cache.Has(key) && now - s.cache.vals[key].lastAccessed > ttlMs then
      s.(cache := s.cache.Delete(key), accessStats := s.accessStats - {key})
    else s
  }

  function CleanupAll<K(==, !new), V>(s: Lru<K, V>, keys: seq<K>, ttlMs: int, now: int): Lru<K, V> {
    if keys == [] then s else CleanupOne(CleanupAll(s, keys[..|keys| - 1], ttlMs, now), keys[|keys| - 1], ttlMs, now)
  }

  function CleanupStep<K(==, !new), V>(s: Lru<K, V>, ttlMs: int, now: int): Lru<K, V> {
    if ttlMs <= 0 then s else CleanupAll(s, s.cache.keys, ttlMs, now)
  }

  class LRUCache<K(==, !new), V> {
    const maxSize: int
    const ttlMs: int
    var cache: JsMap<K, Entry<V>>
    var accessStats: map<K, nat>
    var hits: nat
    var misses: nat
    var evictions: nat

    function State(): Lru<K, V>
      reads this
    {
      Lru(cache, accessStats, hits, misses, evictions)
    }

    constructor (maxSize: int, ttlMs: int)
      ensures this.maxSize == maxSize && this.ttlMs == ttlMs && State() == EmptyLru()
    {
      this.maxSize, this.ttlMs := maxSize, ttlMs;
      cache, accessStats, hits, misses, evictions := EmptyMap(), map[], 0, 0, 0;
    }

    method Get(key: K, now: int, touched: int) returns (r: Option<V>)
      modifies this
      ensures (State(), r) == GetStep(old(State()), ttlMs, key, now, touched)
    {
      if !cache.Has(key) {
        misses := misses + 1;
        return None;
      }
      if ttlMs > 0 && now - cache.vals[key].lastAccessed > ttlMs {
        cache := cache.Delete(key);
        misses := misses + 1;
        return None;
      }
      var value := Touch(key, touched);
      return Some(value);
    }

    /** A hit: the entry is counted and moved to the end. */
    method Touch(key: K, touched: int) returns (value: V)
      requires cache.Has(key)
      modifies this
      ensures State() == TouchStep(old(State()), key, touched) && value == old(cache.vals[key].value)
    {
      var entry := cache.vals[key];
      value := entry.value;
      MoveToEnd(key, entry.(lastAccessed := touched, accessCount := entry.accessCount + 1));
      hits := hits + 1;
      var count := if key in accessStats then accessStats[key] else 0;
      accessStats := accessStats[key := count + 1];
    }

    /** `cache.delete(key); cache.set(key, entry)`. */
    method MoveToEnd(key: K, entry: Entry<V>)
      modifies this`cache
      ensures cache == MovedToEnd(old(cache), key, entry)
    {
      cache := cache.Delete(key);
      cache := cache.Set(key, entry);
    }

    method Set(key: K, value: V, entryTtl: int, now: int)
      modifies this
      ensures State() == SetStep(old(State()), maxSize, key, value, entryTtl, now)
    {
      if cache.Size() >= maxSize && !cache.Has(key) {
        EvictLRU();
      }
      cache := cache.Set(key, Entry(value, now, 1, entryTtl));
      accessStats := accessStats[key := 1];
    }

    method EvictLRU()
      modifies this
      ensures State() == EvictStep(old(State()))
    {
      if cache.keys != [] {
        var firstKey := cache.keys[0];
        cache := cache.Delete(firstKey);
        accessStats := accessStats - {firstKey};
        evictions := evictions + 1;
      }
    }

    method Has(key: K, now: int) returns (r: bool)
      modifies this
      ensures (State(), r) == HasStep(old(State()), ttlMs, key, now)
    {
      if !cache.Has(key) {
        return false;
      }
      if ttlMs > 0 && now - cache.vals[key].lastAccessed > ttlMs {
        cache := cache.Delete(key);
        return false;
      }
      return true;
    }

    method Delete(key: K) returns (existed: bool)
      modifies this
      ensures (State(), existed) == DeleteStep(old(State()), key)
    {
      existed := cache.Has(key);
      if existed {
        cache := cache.Delete(key);
        accessStats := accessStats - {key};
      }
    }

    method Clear()
      modifies this
      ensures State() == ClearStep(old(State()))
    {
      cache, accessStats, hits, misses := EmptyMap(), map[], 0, 0;
    }

    /** Deletes as it iterates. */
    method Cleanup(now: int) returns (removed: nat)
      modifies this
      ensures State() == CleanupStep(old(State()), ttlMs, now)
      ensures removed == old(cache).Size() - cache.Size()
    {
      removed := 0;
      if ttlMs <= 0 {
        return;
      }
      ghost var before := State();
      var keys := cache.keys;
      for i := 0 to |keys|
        invariant State() == CleanupAll(before, keys[..i], ttlMs, now)
        invariant removed == old(cache).Size() - cache.Size()
      {
        assert keys[..i + 1][..i] == keys[..i];
        NextIsThere(before, keys, i, ttlMs, now);
        if now - cache.vals[keys[i]].lastAccessed > ttlMs {
          cache := cache.Delete(keys[i]);
          accessStats := accessStats - {keys[i]};
          removed := removed + 1;
        }
      }
      assert keys[..|keys|] == keys;
    }
  }

  // ---------- Cleaning up ----------

  predicate Gone<K(==, !new), V>(s: Lru<K, V>, key: K, ttlMs: int, now: int) {
    s.cache.Has(key) && Expired(s.cache.vals[key], ttlMs, now)
  }

  function Survivors<K(==, !new), V>(s: Lru<K, V>, keys: seq<K>, ttlMs: int, now: int): seq<K> {
    if keys == [] then []
    else
      var before, last := Survivors(s, keys[..|keys| - 1], ttlMs, now), keys[|keys| - 1];
      if Gone(s, last, ttlMs, now) then before else before + [last]
  }

  /** What is left after some turns: the unexpired ones of the keys visited, then the others, in their old order. */
  lemma {:induction false} CleanedUp<K(!new), V>(s: Lru<K, V>, done: seq<K>, rest: seq<K>, ttlMs: int, now: int)
    requires ttlMs > 0 && s.cache.keys == done + rest
    ensures CleanupAll(s, done, ttlMs, now).cache.keys == Survivors(s, done, ttlMs, now) + rest
  {
    if done != [] {
      var init, k := done[..|done| - 1], done[|done| - 1];
      assert done + rest == init + ([k] + rest);
      CleanedUp(s, init, [k] + rest, ttlMs, now);
      CleanedOneMore(s, init, k, rest, ttlMs, now);
      assert done == init + [k];
    }
  }

  /** A key that has not been visited is still in the cache. */
  lemma NextIsThere<K(!new), V>(s: Lru<K, V>, keys: seq<K>, i: nat, ttlMs: int, now: int)
    requires ttlMs > 0 && keys == s.cache.keys && i < |keys|
    ensures CleanupAll(s, keys[..i], ttlMs, now).cache.Has(keys[i])
  {
    var r, front := CleanupAll(s, keys[..i], ttlMs, now), Survivors(s, keys[..i], ttlMs, now);
    CleanedUp(s, keys[..i], keys[i..], ttlMs, now);
    assert r.cache.keys[|front|] == keys[i];
    assert keys[i] in r.cache.keys;
  }

  lemma CleanedOneMore<K(!new), V>(s: Lru<K, V>, init: seq<K>, k: K, rest: seq<K>, ttlMs: int, now: int)
    requires ttlMs > 0
    requires CleanupAll(s, init, ttlMs, now).cache.keys == Survivors(s, init, ttlMs, now) + ([k] + rest)
    ensures CleanupAll(s, init + [k], ttlMs, now).cache.keys == Survivors(s, init + [k], ttlMs, now) + rest
  {
    var r, front := CleanupAll(s, init, ttlMs, now), Survivors(s, init, ttlMs, now);
    assert (init + [k])[..|init|] == init;
    assert front + ([k] + rest) == front + [k] + rest;
    CleanupTurn(r, front, k, rest, ttlMs, now);
    EntryKept(s, init, k, ttlMs, now);
  }

  lemma EntryKept<K(!new), V>(s: Lru<K, V>, keys: seq<K>, k: K, ttlMs: int, now: int)
    ensures var r := CleanupAll(s, keys, ttlMs, now);
      r.cache.Has(k) ==> s.cache.Has(k) && r.cache.vals[k] == s.cache.vals[k]
  {
    CleanupKeepsEntries(s, keys, ttlMs, now);
  }

  lemma {:induction false} CleanupKeepsEntries<K(!new), V>(s: Lru<K, V>, keys: seq<K>, ttlMs: int, now: int)
    ensures var r := CleanupAll(s, keys, ttlMs, now);
      && (forall k :: k in r.cache.vals ==> k in s.cache.vals && r.cache.vals[k] == s.cache.vals[k])
      && (r.hits, r.misses, r.evictions) == (s.hits, s.misses, s.evictions)
  {
    if keys != [] {
      CleanupKeepsEntries(s, keys[..|keys| - 1], ttlMs, now);
    }
  }

  lemma OnlyThere<K>(front: seq<K>, k: K, tail: seq<K>)
    requires NoDup(front + [k] + tail)
    ensures k !in front && k !in tail
  {
    var all := front + [k] + tail;
    assert all[|front|] == k;
    assert forall i :: 0 <= i < |front| ==> all[i] == front[i];
    assert forall i :: 0 <= i < |tail| ==> all[|front| + 1 + i] == tail[i];
  }

  lemma WithoutMiddle<K(!new)>(front: seq<K>, k: K, tail: seq<K>)
    requires NoDup(front + [k] + tail)
    ensures Without(front + [k] + tail, k) == front + tail
  {
    OnlyThere(front, k, tail);
    WithoutConcat(front + [k], tail, k);
    WithoutConcat(front, [k], k);
    WithoutAbsent(front, k);
    WithoutAbsent(tail, k);
    assert Without([k], k) == [];
  }

  lemma CleanupTurn<K(!new), V>(r: Lru<K, V>, front: seq<K>, k: K, tail: seq<K>, ttlMs: int, now: int)
    requires ttlMs > 0 && r.cache.keys == front + [k] + tail
    ensures r.cache.Has(k)
    ensures CleanupOne(r, k, ttlMs, now).cache.keys
      == if Gone(r, k, ttlMs, now) then front + tail else front + [k] + tail
  {
    assert r.cache.keys[|front|] == k;
    assert k in r.cache.keys;
    WithoutMiddle(front, k, tail);
  }

  lemma {:induction false} SurvivorsAre<K(!new), V>(s: Lru<K, V>, keys: seq<K>, ttlMs: int, now: int)
    requires ttlMs > 0 && forall k :: k in keys ==> k in s.cache.vals
    ensures forall k :: k in Survivors(s, keys, ttlMs, now) <==> k in keys && !Expired(s.cache.vals[k], ttlMs, now)
  {
    if keys != [] {
      SurvivorsAre(s, keys[..|keys| - 1], ttlMs, now);
      assert keys == keys[..|keys| - 1] + [keys[|keys| - 1]];
    }
  }

  /** cleanup() drops exactly the expired entries, and leaves the others as they are, in their old order. */
  lemma CleanupKeepsOrder<K(!new), V>(s: Lru<K, V>, ttlMs: int, now: int)
    requires ttlMs > 0
    ensures var r := CleanupStep(s, ttlMs, now);
      && r.cache.keys == Survivors(s, s.cache.keys, ttlMs, now)
      && (forall k :: k in r.cache.vals <==> k in s.cache.vals && !Expired(s.cache.vals[k], ttlMs, now))
      && (forall k :: k in r.cache.vals ==> r.cache.vals[k] == s.cache.vals[k])
      && (r.hits, r.misses, r.evictions) == (s.hits, s.misses, s.evictions)
  {
    var keys := s.cache.keys;
    assert keys + [] == keys;
    CleanedUp(s, keys, [], ttlMs, now);
    CleanupKeepsEntries(s, keys, ttlMs, now);
    SurvivorsAre(s, keys, ttlMs, now);
  }

  // ---------- Read-through use ----------

  /** generate(): look the key up, and compute and store only on a miss. The time is immaterial without TTL. */
  function Request<K(==, !new), V>(s: Lru<K, V>, maxSize: int, ttlMs: int, fetch: K -> V, key: K, now: int): (Lru<K,
      V>, V) {
    var (s', r) := GetStep(s, ttlMs, key, now, now);
    match r
    case Some(v) => (s', v)
    case None => (SetStep(s', maxSize, key, fetch(key), ttlMs, now), fetch(key))
  }

  datatype Lookup<K> = Lookup(key: K, now: int)

  function Serve<K(==, !new), V>(maxSize: int, ttlMs: int, fetch: K -> V, trace: seq<Lookup<K>>): Lru<K, V> {
    if trace == [] then EmptyLru()
    else Request(Serve(maxSize, ttlMs, fetch, trace[..|trace| - 1]), maxSize, ttlMs, fetch, trace[|trace| - 1].key,
      trace[|trace| - 1].now).0
  }

  /** The requested keys, each once, ordered by their latest request. */
  function Recency<K(==, !new)>(trace: seq<Lookup<K>>): seq<K> {
    if trace == [] then []
    else Without(Recency(trace[..|trace| - 1]), trace[|trace| - 1].key) + [trace[|trace| - 1].key]
  }

  function LastN<T>(s: seq<T>, n: nat): seq<T> { s[Max(0, |s| - n)..] }

  /** A maximum below one still lets one entry in. */
  function Capacity(maxSize: int): nat { Max(1, maxSize) }

  lemma {:induction false} RecencyNoDup<K(!new)>(trace: seq<Lookup<K>>)
    ensures NoDup(Recency(trace))
  {
    if trace != [] {
      RecencyNoDup(trace[..|trace| - 1]);
      WithoutNoDup(Recency(trace[..|trace| - 1]), trace[|trace| - 1].key);
      WithoutMembers(Recency(trace[..|trace| - 1]), trace[|trace| - 1].key);
    }
  }

  /** How the keys of the cache move at one request. */
  lemma RequestMovesKeys<K(!new), V>(s: Lru<K, V>, maxSize: int, ttlMs: int, fetch: K -> V, key: K, now: int)
    requires ttlMs <= 0
    ensures var s' := Request(s, maxSize, ttlMs, fetch, key, now).0;
      && (key in s.cache.vals ==> s'.cache.keys == Without(s.cache.keys, key) + [key] && s'.hits == s.hits + 1)
      && (key !in s.cache.vals ==> s'.hits == s.hits)
      && (key !in s.cache.vals ==>
            s'.cache.keys
              == (if s.cache.keys != [] && |s.cache.keys| >= maxSize then s.cache.keys[1..] else s.cache.keys) + [key])
  {
    if key !in s.cache.vals && s.cache.keys != [] && |s.cache.keys| >= maxSize {
      var keys := s.cache.keys;
      assert keys[0] !in keys[1..];
      WithoutAbsent(keys[1..], keys[0]);
      assert keys[0] in keys;
    }
  }

  lemma LastNOfConcat<T>(front: seq<T>, tail: seq<T>, n: nat)
    requires |tail| == n || (front == [] && |tail| <= n)
    ensures LastN(front + tail, n) == tail
  {
  }

  lemma LastNSplit<T>(all: seq<T>, n: nat) returns (front: seq<T>)
    ensures all == front + LastN(all, n)
    ensures |LastN(all, n)| <= n && (front == [] || |LastN(all, n)| == n)
    ensures |LastN(all, n)| < n ==> front == []
  {
    front := all[..Max(0, |all| - n)];
  }

  /** What a move to the end does to the last n of a duplicate-free list. */
  lemma LastNMoves<K(!new)>(all: seq<K>, n: nat, key: K)
    requires NoDup(all) && n >= 1
    ensures var kept, moved := LastN(all, n), LastN(Without(all, key) + [key], n);
      && (key in kept ==> moved == Without(kept, key) + [key])
      && (key !in kept ==> moved == (if |kept| == n then kept[1..] else kept) + [key])
  {
    var kept := LastN(all, n);
    var front := LastNSplit(all, n);
    WithoutConcat(front, kept, key);
    if key in kept {
      KeptNoDup(all, front, kept, key);
      WithoutAbsent(front, key);
      MoveKept(front, kept, n, key);
    } else {
      WithoutAbsent(kept, key);
      MoveNew(Without(front, key), kept, n, key);
    }
  }

  lemma MoveKept<K>(front: seq<K>, kept: seq<K>, n: nat, key: K)
    requires |Without(kept, key)| == |kept| - 1 && (|kept| == n || (front == [] && |kept| <= n))
    ensures LastN(front + Without(kept, key) + [key], n) == Without(kept, key) + [key]
  {
    assert front + Without(kept, key) + [key] == front + (Without(kept, key) + [key]);
    LastNOfConcat(front, Without(kept, key) + [key], n);
  }

  lemma MoveNew<K>(front: seq<K>, kept: seq<K>, n: nat, key: K)
    requires n >= 1 && (|kept| == n || (front == [] && |kept| <= n))
    ensures LastN(front + kept + [key], n) == (if |kept| == n then kept[1..] else kept) + [key]
  {
    if |kept| == n {
      assert front + kept + [key] == front + [kept[0]] + (kept[1..] + [key]);
      LastNOfConcat(front + [kept[0]], kept[1..] + [key], n);
    } else {
      assert front + kept + [key] == front + (kept + [key]);
      LastNOfConcat(front, kept + [key], n);
    }
  }

  lemma KeptNoDup<K(!new)>(all: seq<K>, front: seq<K>, kept: seq<K>, key: K)
    requires NoDup(all) && all == front + kept && key in kept
    ensures key !in front && |Without(kept, key)| == |kept| - 1
  {
    var j :| 0 <= j < |kept| && kept[j] == key;
    assert all[|front| + j] == key;
    assert forall i :: 0 <= i < |front| ==> front[i] == all[i];
    assert forall i :: 0 <= i < |kept| ==> kept[i] == all[|front| + i];
    WithoutNoDup(kept, key);
  }

  /** The cache holds exactly the most recently requested distinct keys, oldest first. */
  lemma {:induction false} HoldsMostRecent<K(!new), V>(maxSize: int, ttlMs: int, fetch: K -> V, trace: seq<Lookup<K>>)
    requires ttlMs <= 0
    ensures Serve(maxSize, ttlMs, fetch, trace).cache.keys == LastN(Recency(trace), Capacity(maxSize))
  {
    if trace != [] {
      var init, l := trace[..|trace| - 1], trace[|trace| - 1];
      HoldsMostRecent(maxSize, ttlMs, fetch, init);
      RequestMovesKeys(Serve(maxSize, ttlMs, fetch, init), maxSize, ttlMs, fetch, l.key, l.now);
      RecencyNoDup(init);
      LastNMoves(Recency(init), Capacity(maxSize), l.key);
    }
  }

  predicate IsHit<K(==, !new), V>(maxSize: int, ttlMs: int, fetch: K -> V, trace: seq<Lookup<K>>, key: K) {
    key in Serve(maxSize, ttlMs, fetch, trace).cache.vals
  }

  ghost predicate IsSuffix<T>(a: seq<T>, b: seq<T>) { |a| <= |b| && a == b[|b| - |a|..] }

  /** Inclusion: the keys of a smaller cache are a suffix of those of a larger one. */
  lemma SmallerIsSuffix<K(!new), V>(small: int, large: int, ttlMs: int, fetch: K -> V, trace: seq<Lookup<K>>)
    requires ttlMs <= 0 && small <= large
    ensures IsSuffix(Serve(small, ttlMs, fetch, trace).cache.keys, Serve(large, ttlMs, fetch, trace).cache.keys)
  {
    HoldsMostRecent(small, ttlMs, fetch, trace);
    HoldsMostRecent(large, ttlMs, fetch, trace);
    LastNNested(Recency(trace), Capacity(small), Capacity(large));
  }

  lemma LastNNested<T>(s: seq<T>, n: nat, m: nat)
    requires n <= m
    ensures IsSuffix(LastN(s, n), LastN(s, m))
  {
  }

  /** A larger cache never has fewer hits. */
  lemma {:induction false} LargerHitsMore<K(!new), V>(small: int, large: int, ttlMs: int, fetch: K -> V,
      trace: seq<Lookup<K>>)
    requires ttlMs <= 0 && small <= large
    ensures Serve(small, ttlMs, fetch, trace).hits <= Serve(large, ttlMs, fetch, trace).hits
  {
    if trace != [] {
      var init, l := trace[..|trace| - 1], trace[|trace| - 1];
      LargerHitsMore(small, large, ttlMs, fetch, init);
      var a, b := Serve(small, ttlMs, fetch, init), Serve(large, ttlMs, fetch, init);
      RequestMovesKeys(a, small, ttlMs, fetch, l.key, l.now);
      RequestMovesKeys(b, large, ttlMs, fetch, l.key, l.now);
      SmallerIsSuffix(small, large, ttlMs, fetch, init);
      if l.key in a.cache.vals {
        assert l.key in a.cache.keys;
        assert l.key in b.cache.keys;
      }
    }
  }

  /** The distinct keys requested after the latest request for `key`. */
  function Since<K(==, !new)>(trace: seq<Lookup<K>>, key: K): set<K> {
    if trace == [] || trace[|trace| - 1].key == key then {}
    else Since(trace[..|trace| - 1], key) + {trace[|trace| - 1].key}
  }

  predicate Requested<K(==, !new)>(trace: seq<Lookup<K>>, key: K) {
    exists i :: 0 <= i < |trace| && trace[i].key == key
  }

  /** In the recency order, what stands behind a key is what was requested since. */
  lemma {:induction false} BehindInRecency<K(!new)>(trace: seq<Lookup<K>>, key: K)
      returns (front: seq<K>, behind: seq<K>)
    requires Requested(trace, key)
    ensures Recency(trace) == front + [key] + behind
    ensures key !in front && key !in behind
    ensures forall k :: k in behind <==> k in Since(trace, key)
  {
    var init, last := trace[..|trace| - 1], trace[|trace| - 1].key;
    RecencyNoDup(trace);
    if last == key {
      front, behind := Without(Recency(init), key), [];
      WithoutMembers(Recency(init), key);
      assert Recency(trace) == front + [key] + behind;
    } else {
      var i :| 0 <= i < |trace| && trace[i].key == key;
      assert init[i].key == key;
      var f, b := BehindInRecency(init, key);
      WithoutConcat(f + [key], b, last);
      WithoutConcat(f, [key], last);
      WithoutMembers(f, last);
      WithoutMembers(b, last);
      front, behind := Without(f, last), Without(b, last) + [last];
      assert Recency(trace) == front + [key] + behind;
    }
  }

  lemma {:induction false} RecencyMembers<K(!new)>(trace: seq<Lookup<K>>)
    ensures forall k :: k in Recency(trace) <==> Requested(trace, k)
  {
    if trace != [] {
      var init := trace[..|trace| - 1];
      RecencyMembers(init);
      WithoutMembers(Recency(init), trace[|trace| - 1].key);
      forall k ensures k in Recency(trace) <==> Requested(trace, k) {
        if Requested(init, k) {
          var i :| 0 <= i < |init| && init[i].key == k;
          assert trace[i].key == k;
        }
        if Requested(trace, k) && k != trace[|trace| - 1].key {
          var i :| 0 <= i < |trace| && trace[i].key == k;
          assert init[i].key == k;
        }
      }
    }
  }

  lemma {:induction false} NoDupSize<K(!new)>(s: seq<K>, members: set<K>)
    requires NoDup(s) && (forall k :: k in s <==> k in members)
    ensures |members| == |s|
  {
    if s != [] {
      var init := s[..|s| - 1];
      assert forall k :: k in init <==> k in members - {s[|s| - 1]};
      NoDupSize(init, members - {s[|s| - 1]});
    }
  }

  lemma {:induction false} NotRequestedIsMiss<K(!new), V>(maxSize: int, ttlMs: int, fetch: K -> V,
      trace: seq<Lookup<K>>, key: K)
    requires ttlMs <= 0 && !Requested(trace, key)
    ensures !IsHit(maxSize, ttlMs, fetch, trace, key)
  {
    HoldsMostRecent(maxSize, ttlMs, fetch, trace);
    RecencyMembers(trace);
    var keys := Serve(maxSize, ttlMs, fetch, trace).cache.keys;
    assert forall i :: 0 <= i < |keys| ==> keys[i] in Recency(trace);
    assert key !in keys;
  }

  lemma TailNoDup<K>(all: seq<K>, front: seq<K>, key: K, behind: seq<K>)
    requires NoDup(all) && all == front + [key] + behind
    ensures NoDup(behind)
  {
    forall i, j | 0 <= i < j < |behind| ensures behind[i] != behind[j] {
      assert all[|front| + 1 + i] == behind[i] && all[|front| + 1 + j] == behind[j];
    }
  }

  /** A key is among the last n exactly when fewer than n stand behind it. */
  lemma AmongLastN<K>(all: seq<K>, front: seq<K>, key: K, behind: seq<K>, n: nat)
    requires all == front + [key] + behind && key !in behind
    ensures key in LastN(all, n) <==> |behind| < n
  {
    var kept := LastN(all, n);
    if |behind| < n {
      assert kept[|kept| - |behind| - 1] == all[|front|] == key;
    } else {
      assert forall i :: 0 <= i < |kept| ==> kept[i] == behind[|behind| - |kept| + i];
    }
  }

  /** Stack distance: a request hits exactly when fewer than `capacity` other keys were asked for since its last. */
  lemma HitIffStackDistance<K(!new), V>(maxSize: int, ttlMs: int, fetch: K -> V, trace: seq<Lookup<K>>, key: K)
    requires ttlMs <= 0
    ensures IsHit(maxSize, ttlMs, fetch, trace, key)
      <==> Requested(trace, key) && |Since(trace, key)| < Capacity(maxSize)
  {
    if !Requested(trace, key) {
      NotRequestedIsMiss(maxSize, ttlMs, fetch, trace, key);
    } else {
      HoldsMostRecent(maxSize, ttlMs, fetch, trace);
      var front, behind := BehindInRecency(trace, key);
      RecencyNoDup(trace);
      TailNoDup(Recency(trace), front, key, behind);
      NoDupSize(behind, Since(trace, key));
      AmongLastN(Recency(trace), front, key, behind, Capacity(maxSize));
    }
  }

  // ---------- Over all runs, TTL included ----------

  datatype Op<K, V> =
    | Get(key: K, now: int, touched: int)
    | Set(key: K, value: V, entryTtl: int, now: int)
    | Has(key: K, now: int)
    | Delete(key: K)
    | Cleanup(now: int)
    | Clear

  function Apply<K(==, !new), V>(s: Lru<K, V>, maxSize: int, ttlMs: int, op: Op<K, V>): Lru<K, V> {
    match op
    case Get(k, now, touched) => GetStep(s, ttlMs, k, now, touched).0
    case Set(k, v, ttl, now) => SetStep(s, maxSize, k, v, ttl, now)
    case Has(k, now) => HasStep(s, ttlMs, k, now).0
    case Delete(k) => DeleteStep(s, k).0
    case Cleanup(now) => CleanupStep(s, ttlMs, now)
    case Clear => ClearStep(s)
  }

  function After<K(==, !new), V>(maxSize: int, ttlMs: int, ops: seq<Op<K, V>>): Lru<K, V> {
    if ops == [] then EmptyLru() else Apply(After(maxSize, ttlMs, ops[..|ops| - 1]), maxSize, ttlMs, ops[|ops| - 1])
  }

  lemma {:induction false} CleanupShrinks<K(!new), V>(s: Lru<K, V>, keys: seq<K>, ttlMs: int, now: int)
    ensures CleanupAll(s, keys, ttlMs, now).cache.Size() <= s.cache.Size()
  {
    if keys != [] {
      CleanupShrinks(s, keys[..|keys| - 1], ttlMs, now);
    }
  }

  lemma ApplyKeepsBound<K(!new), V>(s: Lru<K, V>, maxSize: int, ttlMs: int, op: Op<K, V>)
    requires s.cache.Size() <= Capacity(maxSize)
    ensures Apply(s, maxSize, ttlMs, op).cache.Size() <= Capacity(maxSize)
  {
    if s.cache.keys != [] {
      assert s.cache.keys[0] in s.cache.keys;
    }
    if op.Cleanup? {
      CleanupShrinks(s, s.cache.keys, ttlMs, op.now);
    }
  }

  /** Whatever the operations and whether or not entries expire, the cache never holds more than its capacity. */
  lemma {:induction false} RunKeepsBound<K(!new), V>(maxSize: int, ttlMs: int, ops: seq<Op<K, V>>)
    ensures After(maxSize, ttlMs, ops).cache.Size() <= Capacity(maxSize)
  {
    if ops != [] {
      RunKeepsBound(maxSize, ttlMs, ops[..|ops| - 1]);
      ApplyKeepsBound(After(maxSize, ttlMs, ops[..|ops| - 1]), maxSize, ttlMs, ops[|ops| - 1]);
    }
  }

  /** All runs stay within maxSize exactly when it is at least one: the first entry is always let in. */
  lemma BoundIffPositive<K(!new), V>(maxSize: int, ttlMs: int, key: K, value: V)
    ensures (forall ops: seq<Op<K, V>> :: After(maxSize, ttlMs, ops).cache.Size() <= maxSize) <==> maxSize >= 1
  {
    if maxSize >= 1 {
      forall ops: seq<Op<K, V>> ensures After(maxSize, ttlMs, ops).cache.Size() <= maxSize {
        RunKeepsBound(maxSize, ttlMs, ops);
      }
    } else {
      var op := Op.Set(key, value, ttlMs, 0);
      assert [op][..0] == [];
      assert After(maxSize, ttlMs, [op]).cache.Size() == 1;
    }
  }

  ghost predicate Agrees<K(!new), V>(s: Lru<K, V>, fetch: K -> V) {
    forall k :: k in s.cache.vals ==> s.cache.vals[k].value == fetch(k)
  }

  lemma GetAgrees<K(!new), V>(s: Lru<K, V>, ttlMs: int, fetch: K -> V, key: K, now: int, touched: int)
    requires Agrees(s, fetch)
    ensures Agrees(GetStep(s, ttlMs, key, now, touched).0, fetch)
    ensures GetStep(s, ttlMs, key, now, touched).1.Some? ==> GetStep(s, ttlMs, key, now, touched).1.value == fetch(key)
  {
  }

  lemma SetAgrees<K(!new), V>(s: Lru<K, V>, maxSize: int, ttlMs: int, fetch: K -> V, key: K, now: int)
    requires Agrees(s, fetch)
    ensures Agrees(SetStep(s, maxSize, key, fetch(key), ttlMs, now), fetch)
  {
  }

  // ---------- The time to live of a single entry ----------

  /** The same lifetime: without a positive one, entries never expire. */
  predicate SameTtl(a: int, b: int) { a == b || (a <= 0 && b <= 0) }

  /** The ttlMs that set() stores with an entry is never read: it holds at all times exactly when it is the cache's. */
  lemma SameExpiryIff<V>(e: Entry<V>, ttlMs: int)
    ensures (forall now :: Expired(e, ttlMs, now) == Expired(e, e.ttlMs, now)) <==> SameTtl(e.ttlMs, ttlMs)
  {
    if !SameTtl(e.ttlMs, ttlMs) {
      var shorter := if ttlMs <= 0 then e.ttlMs else if e.ttlMs <= 0 then ttlMs else Min(e.ttlMs, ttlMs);
      assert Expired(e, ttlMs, e.lastAccessed + shorter + 1) != Expired(e, e.ttlMs, e.lastAccessed + shorter + 1);
    }
  }

  ghost predicate EntryTtls<K(!new), V>(s: Lru<K, V>, given: int -> bool) {
    forall k :: k in s.cache.vals ==> given(s.cache.vals[k].ttlMs)
  }

  /** Callers give only such lifetimes. */
  ghost predicate AllGiven<K, V>(given: int -> bool, ops: seq<Op<K, V>>) {
    forall i :: 0 <= i < |ops| && ops[i].Set? ==> given(ops[i].entryTtl)
  }

  lemma ApplyKeepsTtls<K(!new), V>(s: Lru<K, V>, maxSize: int, ttlMs: int, op: Op<K, V>, given: int -> bool)
    requires EntryTtls(s, given) && (op.Set? ==> given(op.entryTtl))
    ensures EntryTtls(Apply(s, maxSize, ttlMs, op), given)
  {
    if op.Cleanup? {
      CleanupKeepsEntries(s, s.cache.keys, ttlMs, op.now);
    }
  }

  lemma {:induction false} RunKeepsTtls<K(!new), V>(maxSize: int, ttlMs: int, ops: seq<Op<K, V>>, given: int -> bool)
    requires AllGiven(given, ops)
    ensures EntryTtls(After(maxSize, ttlMs, ops), given)
  {
    if ops != [] {
      RunKeepsTtls(maxSize, ttlMs, ops[..|ops| - 1], given);
      ApplyKeepsTtls(After(maxSize, ttlMs, ops[..|ops| - 1]), maxSize, ttlMs, ops[|ops| - 1], given);
    }
  }

  /** An entry is refused exactly when its own lifetime is over. */
  ghost predicate HonoursEntry<K(!new), V>(s: Lru<K, V>, ttlMs: int, k: K)
    requires k in s.cache.vals
  {
    forall now :: GetStep(s, ttlMs, k, now, now).1.None? <==> Expired(s.cache.vals[k], s.cache.vals[k].ttlMs, now)
  }

  ghost predicate Honours<K(!new), V>(s: Lru<K, V>, ttlMs: int) {
    forall k :: k in s.cache.vals ==> HonoursEntry(s, ttlMs, k)
  }

  lemma EntryHonouredIff<K(!new), V>(s: Lru<K, V>, ttlMs: int, k: K)
    requires k in s.cache.vals
    ensures HonoursEntry(s, ttlMs, k) <==> SameTtl(s.cache.vals[k].ttlMs, ttlMs)
  {
    var e := s.cache.vals[k];
    SameExpiryIff(e, ttlMs);
    forall now ensures GetStep(s, ttlMs, k, now, now).1.None? <==> Expired(e, ttlMs, now) {
    }
  }

  /** One entry with another lifetime than the cache's. */
  lemma OtherTtlIsIgnored<K(!new), V>(maxSize: int, ttlMs: int, t: int, key: K, value: V)
    requires !SameTtl(t, ttlMs)
    ensures !Honours(After(maxSize, ttlMs, [Op.Set(key, value, t, 0)]), ttlMs)
  {
    var ops := [Op.Set(key, value, t, 0)];
    assert ops[..0] == [];
    var s := After(maxSize, ttlMs, ops);
    assert key in s.cache.vals && s.cache.vals[key] == Entry(value, 0, 1, t);
    EntryHonouredIff(s, ttlMs, key);
  }

  /** All runs honour the lifetimes that callers give exactly when these are the cache's own. */
  lemma TtlsHonouredIff<K(!new), V>(maxSize: int, ttlMs: int, given: int -> bool, key: K, value: V)
    ensures (forall ops: seq<Op<K, V>> :: AllGiven(given, ops) ==> Honours(After(maxSize, ttlMs, ops), ttlMs))
      <==> forall t :: given(t) ==> SameTtl(t, ttlMs)
  {
    if t :| given(t) && !SameTtl(t, ttlMs) {
      OtherTtlIsIgnored(maxSize, ttlMs, t, key, value);
      assert AllGiven(given, [Op.Set(key, value, t, 0)]);
    } else {
      forall ops: seq<Op<K, V>> | AllGiven(given, ops) ensures Honours(After(maxSize, ttlMs, ops), ttlMs) {
        RunKeepsTtls(maxSize, ttlMs, ops, given);
        forall k | k in After(maxSize, ttlMs, ops).cache.vals
          ensures HonoursEntry(After(maxSize, ttlMs, ops), ttlMs, k)
        {
          EntryHonouredIff(After(maxSize, ttlMs, ops), ttlMs, k);
        }
      }
    }
  }
}
