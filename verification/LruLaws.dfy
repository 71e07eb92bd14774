/**
 src/analysis/lru-cache.js over whole runs: what an entry holds, what each operation takes away, what the counters
 count, and exactly when the access statistics are kept for the cached keys and no others.
 */
module LruLaws {
  import opened JsCollections
  import opened LruCaches

  // ---------- Entries ----------

  /** What is said of a key after one more operation. */
  function Told<K(==, !new), V>(before: Option<Entry<V>>, op: Op<K, V>, k: K): Option<Entry<V>> {
    match op
    case Set(x, value, ttl, now) => if x == k then Some(Entry(value, now, 1, ttl)) else before
    case Get(x, _, touched) =>
      if x == k && before.Some? then
        Some(before.value.(lastAccessed := touched, accessCount := before.value.accessCount + 1))
      else before
    case _ => before
  }

  /** What was last said of a key: what was last set, and how often and when it was read since. */
  function Said<K(==, !new), V>(ops: seq<Op<K, V>>, k: K): Option<Entry<V>> {
    if ops == [] then None else Told(Said(ops[..|ops| - 1], k), ops[|ops| - 1], k)
  }

  ghost predicate Holds<K(!new), V>(s: Lru<K, V>, k: K, said: Option<Entry<V>>) {
    s.cache.Has(k) ==> said == Some(s.cache.vals[k])
  }

  lemma CleanupHolds<K(!new), V>(s: Lru<K, V>, k: K, ttlMs: int, now: int)
    ensures var s' := CleanupStep(s, ttlMs, now);
      s'.cache.Has(k) ==> s.cache.Has(k) && s'.cache.vals[k] == s.cache.vals[k]
  {
    CleanupKeepsEntries(s, s.cache.keys, ttlMs, now);
  }

  lemma ApplyHolds<K(!new), V>(s: Lru<K, V>, maxSize: int, ttlMs: int, op: Op<K, V>, k: K, said: Option<Entry<V>>)
    requires Holds(s, k, said)
    ensures Holds(Apply(s, maxSize, ttlMs, op), k, Told(said, op, k))
  {
    if op.Cleanup? {
      CleanupHolds(s, k, ttlMs, op.now);
    }
  }

  /** In every run, a cached key holds what was last said of it. */
  lemma {:induction false} EntriesHoldWhatWasSaid<K(!new), V>(maxSize: int, ttlMs: int, ops: seq<Op<K, V>>, k: K)
    ensures Holds(After(maxSize, ttlMs, ops), k, Said(ops, k))
  {
    if ops != [] {
      var init := ops[..|ops| - 1];
      EntriesHoldWhatWasSaid(maxSize, ttlMs, init, k);
      ApplyHolds(After(maxSize, ttlMs, init), maxSize, ttlMs, ops[|ops| - 1], k, Said(init, k));
    }
  }

  // ---------- What goes ----------

  /** The entry was last read or set longer ago than the cache allows, if it has a limit. */
  predicate Stale<V>(e: Entry<V>, ttlMs: int, now: int) { ttlMs > 0 && now - e.lastAccessed > ttlMs }

  /** Which key an operation takes away. */
  predicate KeyLeaves<K(==, !new), V>(s: Lru<K, V>, maxSize: int, ttlMs: int, op: Op<K, V>, k: K)
    requires s.cache.Has(k)
  {
    match op
    case Set(x, _, _, _) => s.cache.Size() >= maxSize && !s.cache.Has(x) && k == s.cache.keys[0]
    case Get(x, now, _) => x == k && Stale(s.cache.vals[k], ttlMs, now)
    case Has(x, now) => x == k && Stale(s.cache.vals[k], ttlMs, now)
    case Delete(x) => x == k
    case Cleanup(now) => Stale(s.cache.vals[k], ttlMs, now)
    case Clear => true
  }

  lemma CleanupLeaves<K(!new), V>(s: Lru<K, V>, ttlMs: int, now: int, k: K)
    ensures CleanupStep(s, ttlMs, now).cache.Has(k) <==> s.cache.Has(k) && !Stale(s.cache.vals[k], ttlMs, now)
  {
    if ttlMs > 0 {
      var r := CleanupStep(s, ttlMs, now);
      CleanedUp(s, s.cache.keys, [], ttlMs, now);
      assert s.cache.keys == s.cache.keys + [];
      SurvivorsAre(s, s.cache.keys, ttlMs, now);
      assert r.cache.Has(k) <==> k in r.cache.keys;
    }
  }

  /** Every operation leaves exactly the key it sets and those it does not take away; set takes the first key of all. */
  lemma KeysAfter<K(!new), V>(s: Lru<K, V>, maxSize: int, ttlMs: int, op: Op<K, V>, k: K)
    ensures Apply(s, maxSize, ttlMs, op).cache.Has(k)
      <==> (op.Set? && op.key == k) || (s.cache.Has(k) && !KeyLeaves(s, maxSize, ttlMs, op, k))
  {
    if op.Cleanup? {
      CleanupLeaves(s, ttlMs, op.now, k);
    }
    if s.cache.keys != [] {
      assert s.cache.keys[0] in s.cache.keys;
    }
  }

  /** get finds what has finds: the entry, unless it is stale. */
  lemma GetIffHas<K(!new), V>(s: Lru<K, V>, ttlMs: int, k: K, now: int, touched: int)
    ensures GetStep(s, ttlMs, k, now, touched).1.Some? <==> HasStep(s, ttlMs, k, now).1
    ensures GetStep(s, ttlMs, k, now, touched).1
      == if s.cache.Has(k) && !Stale(s.cache.vals[k], ttlMs, now) then Some(s.cache.vals[k].value) else None
  {
  }

  // ---------- Counters ----------

  /** How many lookups since the cache was last cleared found something, and how many did not. */
  function Lookups<K(==, !new), V>(maxSize: int, ttlMs: int, ops: seq<Op<K, V>>, found: bool): nat {
    if ops == [] then 0
    else
      var before, op := Lookups(maxSize, ttlMs, ops[..|ops| - 1], found), ops[|ops| - 1];
      match op
      case Get(k, now, touched) =>
        before + if GetStep(After(maxSize, ttlMs, ops[..|ops| - 1]), ttlMs, k, now, touched).1.Some? == found then 1
        else 0
      case Clear => 0
      case _ => before
  }

  /** How many sets have pushed a key out. */
  function PushedOut<K(==, !new), V>(maxSize: int, ttlMs: int, ops: seq<Op<K, V>>): nat {
    if ops == [] then 0
    else
      var s, op := After(maxSize, ttlMs, ops[..|ops| - 1]), ops[|ops| - 1];
      PushedOut(maxSize, ttlMs, ops[..|ops| - 1])
        + if op.Set? && s.cache.keys != [] && s.cache.Size() >= maxSize && !s.cache.Has(op.key) then 1 else 0
  }

  /** The counters count the lookups that hit and that missed since the last clear, and all keys pushed out. */
  lemma {:induction false} CountersCount<K(!new), V>(maxSize: int, ttlMs: int, ops: seq<Op<K, V>>)
    ensures var s := After(maxSize, ttlMs, ops);
      && s.hits == Lookups(maxSize, ttlMs, ops, true) && s.misses == Lookups(maxSize, ttlMs, ops, false)
      && s.evictions == PushedOut(maxSize, ttlMs, ops)
  {
    if ops != [] {
      CountersCount(maxSize, ttlMs, ops[..|ops| - 1]);
      if ops[|ops| - 1].Cleanup? {
        var s := After(maxSize, ttlMs, ops[..|ops| - 1]);
        CleanupKeepsEntries(s, s.cache.keys, ttlMs, ops[|ops| - 1].now);
      }
    }
  }

  // ---------- Access statistics ----------

  /** The statistics have every cached key, with the number of its accesses. */
  ghost predicate StatsCover<K(!new), V>(s: Lru<K, V>) {
    forall k :: k in s.cache.vals ==> k in s.accessStats && s.accessStats[k] == s.cache.vals[k].accessCount
  }

  /** And no others. */
  ghost predicate StatsExact<K(!new), V>(s: Lru<K, V>) {
    StatsCover(s) && forall k :: k in s.accessStats ==> k in s.cache.vals
  }

  lemma {:induction false} CleanupStats<K(!new), V>(s: Lru<K, V>, keys: seq<K>, ttlMs: int, now: int)
    requires StatsCover(s)
    ensures var r := CleanupAll(s, keys, ttlMs, now); StatsCover(r) && (StatsExact(s) ==> StatsExact(r))
  {
    if keys != [] {
      CleanupStats(s, keys[..|keys| - 1], ttlMs, now);
    }
  }

  /** A lookup that meets a stale entry drops it from the cache, but not from the statistics. */
  predicate Leaks<K(==, !new), V>(s: Lru<K, V>, ttlMs: int, op: Op<K, V>) {
    (op.Get? || op.Has?) && s.cache.Has(op.key) && Stale(s.cache.vals[op.key], ttlMs, op.now)
  }

  lemma ApplyStats<K(!new), V>(s: Lru<K, V>, maxSize: int, ttlMs: int, op: Op<K, V>)
    requires StatsCover(s)
    ensures var s' := Apply(s, maxSize, ttlMs, op);
      StatsCover(s') && (StatsExact(s) ==> (StatsExact(s') <==> !Leaks(s, ttlMs, op)))
  {
    match op
    case Cleanup(now) => CleanupStats(s, s.cache.keys, ttlMs, now);
    case Get(k, now, touched) => LookupStats(s, maxSize, ttlMs, op);
    case Has(k, now) => LookupStats(s, maxSize, ttlMs, op);
    case _ =>
  }

  lemma LookupStats<K(!new), V>(s: Lru<K, V>, maxSize: int, ttlMs: int, op: Op<K, V>)
    requires StatsCover(s) && (op.Get? || op.Has?)
    ensures var s' := Apply(s, maxSize, ttlMs, op);
      StatsCover(s') && (StatsExact(s) ==> (StatsExact(s') <==> !Leaks(s, ttlMs, op)))
  {
    var s' := Apply(s, maxSize, ttlMs, op);
    if Leaks(s, ttlMs, op) {
      assert op.key in s'.accessStats && op.key !in s'.cache.vals;
    }
  }

  lemma {:induction false} StatsAlwaysCover<K(!new), V>(maxSize: int, ttlMs: int, ops: seq<Op<K, V>>)
    ensures StatsCover(After(maxSize, ttlMs, ops))
  {
    if ops != [] {
      StatsAlwaysCover(maxSize, ttlMs, ops[..|ops| - 1]);
      ApplyStats(After(maxSize, ttlMs, ops[..|ops| - 1]), maxSize, ttlMs, ops[|ops| - 1]);
    }
  }

  ghost predicate AlwaysExact<K(!new), V>(maxSize: int, ttlMs: int, ops: seq<Op<K, V>>) {
    StatsExact(After(maxSize, ttlMs, ops)) && (ops == [] || AlwaysExact(maxSize, ttlMs, ops[..|ops| - 1]))
  }

  ghost predicate NeverLeaks<K(!new), V>(maxSize: int, ttlMs: int, ops: seq<Op<K, V>>) {
    ops == [] || (NeverLeaks(maxSize, ttlMs, ops[..|ops| - 1])
      && !Leaks(After(maxSize, ttlMs, ops[..|ops| - 1]), ttlMs, ops[|ops| - 1]))
  }

  /**
   In every run the statistics have the access count of every cached key; they never have another key exactly when no
   lookup met a stale entry.
   */
  lemma {:induction false} StatsExactIff<K(!new), V>(maxSize: int, ttlMs: int, ops: seq<Op<K, V>>)
    ensures StatsCover(After(maxSize, ttlMs, ops))
    ensures AlwaysExact(maxSize, ttlMs, ops) <==> NeverLeaks(maxSize, ttlMs, ops)
  {
    StatsAlwaysCover(maxSize, ttlMs, ops);
    if ops != [] {
      StatsExactIff(maxSize, ttlMs, ops[..|ops| - 1]);
      ApplyStats(After(maxSize, ttlMs, ops[..|ops| - 1]), maxSize, ttlMs, ops[|ops| - 1]);
    }
  }

  /** Each key set once, and looked up when it is stale. */
  function SetAndMiss<K, V>(keys: seq<K>, value: V, ttlMs: int): seq<Op<K, V>> {
    if keys == [] then []
    else
      SetAndMiss(keys[..|keys| - 1], value, ttlMs)
        + [Set(keys[|keys| - 1], value, ttlMs, 0)] + [Get(keys[|keys| - 1], ttlMs + 1, ttlMs + 1)]
  }

  lemma AfterSnoc<K(!new), V>(maxSize: int, ttlMs: int, ops: seq<Op<K, V>>, op: Op<K, V>)
    ensures After(maxSize, ttlMs, ops + [op]) == Apply(After(maxSize, ttlMs, ops), maxSize, ttlMs, op)
  {
    assert (ops + [op])[..|ops|] == ops;
  }

  /** However small the cache, the statistics can have any number of keys, with nothing cached. */
  lemma {:induction false} StatsGrow<K(!new), V>(maxSize: int, ttlMs: int, keys: seq<K>, value: V)
    requires maxSize >= 1 && ttlMs > 0 && NoDup(keys)
    ensures var s := After(maxSize, ttlMs, SetAndMiss(keys, value, ttlMs));
      s.cache.keys == [] && s.accessStats.Keys == (set k | k in keys)
  {
    if keys != [] {
      var init, k := keys[..|keys| - 1], keys[|keys| - 1];
      StatsGrow(maxSize, ttlMs, init, value);
      var ops := SetAndMiss(init, value, ttlMs);
      var set_: Op<K, V> := Set(k, value, ttlMs, 0);
      AfterSnoc(maxSize, ttlMs, ops, set_);
      AfterSnoc(maxSize, ttlMs, ops + [set_], Get(k, ttlMs + 1, ttlMs + 1));
      SetThenMiss(After(maxSize, ttlMs, ops), maxSize, ttlMs, k, value);
      assert keys == init + [k];
    }
  }

  lemma SetThenMiss<K(!new), V>(s: Lru<K, V>, maxSize: int, ttlMs: int, k: K, value: V)
    requires maxSize >= 1 && ttlMs > 0 && s.cache.keys == []
    ensures var s1 := Apply(s, maxSize, ttlMs, Set(k, value, ttlMs, 0));
      var s2 := Apply(s1, maxSize, ttlMs, Get(k, ttlMs + 1, ttlMs + 1));
      s2.cache.keys == [] && s2.accessStats.Keys == s.accessStats.Keys + {k}
  {
    assert forall x :: x in s.cache.vals ==> x in s.cache.keys;
    assert Without([k], k) == [];
  }
}
