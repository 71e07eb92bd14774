/**
 src/analysis/rag.js, search with its result cache: the cache is read, the query is embedded while other
 calls run, and the result of the retrieval is stored. When what the cache answers is what a fresh
 retrieval would answer.
 */
module RagCache {
  import opened JsCollections
  import opened Corpora
  import opened LruCaches
  import opened Rag

  /** Results are stored under the text that _searchCacheKey makes of a query. */
  type Cache = Lru<string, seq<Result>>

  datatype Limits = Limits(cacheSize: int, ttlMs: int)

  /** `searching` are the searches that missed the cache and await the embedding of their query. */
  datatype System = System(corpus: Corpus, cache: Cache, searching: seq<Query>)

  datatype Label =
    | IndexDone(id: Id, content: string, metadata: Metadata)
    | Delete(id: Id)
    | Clear
    | SearchStart(query: Query, now: int, touched: int)
    | SearchDone(i: nat, now: int)

  const INITIAL: System := System(EMPTY, EmptyLru(), [])

  /** Only a document that is there clears the cache when deleted; indexing always does. */
  function Step(env: Env, limits: Limits, s: System, l: Label): (System, Option<seq<Result>>) {
    match l
    case IndexDone(id, content, metadata) =>
      if id == "" || content == "" then (s, None)
      else (s.(corpus := IndexStep(env.text, s.corpus, id, content, metadata), cache := ClearStep(s.cache)), None)
    case Delete(id) =>
      if !s.corpus.documents.Has(id) then (s, None)
      else (s.(corpus := RemoveStep(env.text, s.corpus, id), cache := ClearStep(s.cache)), None)
    case Clear => (s.(corpus := EMPTY, cache := ClearStep(s.cache)), None)
    case SearchStart(q, now, touched) =>
      var (cache, hit) := GetStep(s.cache, limits.ttlMs, env.key(q), now, touched);
      (s.(cache := cache, searching := if hit.Some? then s.searching else s.searching + [q]), hit)
    case SearchDone(i, now) =>
      if i >= |s.searching| then (s, None)
      else
        var results := Retrieve(env, s.corpus, s.searching[i]);
        (s.(cache := SetStep(s.cache, limits.cacheSize, env.key(s.searching[i]), results, limits.ttlMs, now),
            searching := RemoveAt(s.searching, i)), Some(results))
  }

  function After(env: Env, limits: Limits, labels: seq<Label>): System {
    if labels == [] then INITIAL
      else Step(env, limits, After(env, limits, labels[..|labels| - 1]), labels[|labels| - 1]).0
  }

  // ---------- What is cached ----------

  /** What is cached under a key is what retrieval gives for some query of that key, among those asked. */
  ghost predicate Explained(env: Env, c: Corpus, asked: Query -> bool, key: string, results: seq<Result>) {
    exists q :: asked(q) && env.key(q) == key && results == Retrieve(env, c, q)
  }

  ghost predicate Coherent(env: Env, c: Corpus, asked: Query -> bool, cache: Cache) {
    forall k :: k in cache.cache.vals ==> Explained(env, c, asked, k, cache.cache.vals[k].value)
  }

  predicate AsksOnly(asked: Query -> bool, l: Label) { l.SearchStart? ==> asked(l.query) }

  ghost predicate AllAsked(asked: Query -> bool, labels: seq<Label>) {
    forall i :: 0 <= i < |labels| ==> AsksOnly(asked, labels[i])
  }

  ghost predicate SearchingAsked(asked: Query -> bool, searching: seq<Query>) {
    forall i :: 0 <= i < |searching| ==> asked(searching[i])
  }

  lemma ClearIsCoherent(env: Env, c: Corpus, asked: Query -> bool, cache: Cache)
    ensures Coherent(env, c, asked, ClearStep(cache))
  {
  }

  lemma EmptyIsOk(text: Text)
    ensures CorpusOk(text, EMPTY)
  {
  }

  lemma GetKeepsCoherent(env: Env, c: Corpus, asked: Query -> bool, cache: Cache, ttlMs: int, key: string, now: int,
      touched: int)
    requires Coherent(env, c, asked, cache)
    ensures var (cache', hit) := GetStep(cache, ttlMs, key, now, touched);
      Coherent(env, c, asked, cache') && (hit.Some? ==> Explained(env, c, asked, key, hit.value))
  {
    var cache' := GetStep(cache, ttlMs, key, now, touched).0;
    forall k | k in cache'.cache.vals
      ensures k in cache.cache.vals && cache'.cache.vals[k].value == cache.cache.vals[k].value
    {
    }
  }

  lemma SetKeepsCoherent(env: Env, c: Corpus, asked: Query -> bool, cache: Cache, limits: Limits, q: Query, now: int)
    requires Coherent(env, c, asked, cache) && asked(q)
    ensures Coherent(env, c, asked,
      SetStep(cache, limits.cacheSize, env.key(q), Retrieve(env, c, q), limits.ttlMs, now))
  {
    assert Explained(env, c, asked, env.key(q), Retrieve(env, c, q));
  }

  ghost predicate SystemOk(env: Env, asked: Query -> bool, s: System) {
    CorpusOk(env.text, s.corpus) && Coherent(env, s.corpus, asked, s.cache) && SearchingAsked(asked, s.searching)
  }

  lemma StartKeepsSystem(env: Env, limits: Limits, asked: Query -> bool, s: System, q: Query, now: int, touched: int)
    requires SystemOk(env, asked, s) && asked(q)
    ensures SystemOk(env, asked, Step(env, limits, s, SearchStart(q, now, touched)).0)
  {
    GetKeepsCoherent(env, s.corpus, asked, s.cache, limits.ttlMs, env.key(q), now, touched);
  }

  lemma DoneKeepsSystem(env: Env, limits: Limits, asked: Query -> bool, s: System, i: nat, now: int)
    requires SystemOk(env, asked, s)
    ensures SystemOk(env, asked, Step(env, limits, s, SearchDone(i, now)).0)
  {
    if i < |s.searching| {
      SetKeepsCoherent(env, s.corpus, asked, s.cache, limits, s.searching[i], now);
    }
  }

  lemma ChangeKeepsSystem(env: Env, asked: Query -> bool, s: System, c: Corpus)
    requires SystemOk(env, asked, s) && CorpusOk(env.text, c)
    ensures SystemOk(env, asked, s.(corpus := c, cache := ClearStep(s.cache)))
  {
    ClearIsCoherent(env, c, asked, s.cache);
  }

  lemma StepKeepsSystem(env: Env, limits: Limits, asked: Query -> bool, s: System, l: Label)
    requires SystemOk(env, asked, s) && AsksOnly(asked, l)
    ensures SystemOk(env, asked, Step(env, limits, s, l).0)
  {
    match l
    case IndexDone(id, content, metadata) =>
      IndexKeepsCorpus(env.text, s.corpus, id, content, metadata);
      ChangeKeepsSystem(env, asked, s, IndexStep(env.text, s.corpus, id, content, metadata));
    case Delete(id) =>
      DeleteKeepsCorpus(env.text, s.corpus, id);
      ChangeKeepsSystem(env, asked, s, RemoveStep(env.text, s.corpus, id));
    case Clear =>
      EmptyIsOk(env.text);
      ChangeKeepsSystem(env, asked, s, EMPTY);
    case SearchStart(q, now, touched) => StartKeepsSystem(env, limits, asked, s, q, now, touched);
    case SearchDone(i, now) => DoneKeepsSystem(env, limits, asked, s, i, now);
  }

  /**
   In every interleaving the index is exact, every document has its embedding, and what is cached under a
   key is what retrieval from the corpus as it is now gives for some query of that key.
   */
  lemma {:induction false} CacheIsCoherent(env: Env, limits: Limits, asked: Query -> bool, labels: seq<Label>)
    requires AllAsked(asked, labels)
    ensures SystemOk(env, asked, After(env, limits, labels))
  {
    if labels == [] {
      EmptyIsOk(env.text);
    } else {
      CacheIsCoherent(env, limits, asked, labels[..|labels| - 1]);
      StepKeepsSystem(env, limits, asked, After(env, limits, labels[..|labels| - 1]), labels[|labels| - 1]);
    }
  }

  // ---------- When hits are fresh ----------

  /** A search answered from the cache after this run is answered as a fresh retrieval would answer it. */
  ghost predicate HitFresh(env: Env, limits: Limits, labels: seq<Label>, q: Query, now: int) {
    var s := After(env, limits, labels);
    var hit := Step(env, limits, s, SearchStart(q, now, now)).1;
    hit.Some? ==> hit.value == Retrieve(env, s.corpus, q)
  }

  ghost predicate HitsFresh(env: Env, limits: Limits, asked: Query -> bool) {
    forall labels, q, now :: AllAsked(asked, labels) && asked(q) ==> HitFresh(env, limits, labels, q, now)
  }

  /** Queries of one key retrieve alike after every run. */
  ghost predicate KeyIdentifies(env: Env, limits: Limits, asked: Query -> bool) {
    forall labels, p, q :: AllAsked(asked, labels) && asked(p) && asked(q) && env.key(p) == env.key(q) ==>
      Retrieve(env, After(env, limits, labels).corpus, p) == Retrieve(env, After(env, limits, labels).corpus, q)
  }

  lemma IdentifiedIsFresh(env: Env, limits: Limits, asked: Query -> bool, labels: seq<Label>, q: Query, now: int)
    requires KeyIdentifies(env, limits, asked) && AllAsked(asked, labels) && asked(q)
    ensures HitFresh(env, limits, labels, q, now)
  {
    var s := After(env, limits, labels);
    CacheIsCoherent(env, limits, asked, labels);
    GetKeepsCoherent(env, s.corpus, asked, s.cache, limits.ttlMs, env.key(q), now, now);
    var hit := Step(env, limits, s, SearchStart(q, now, now)).1;
    if hit.Some? {
      var p :| asked(p) && env.key(p) == env.key(q) && hit.value == Retrieve(env, s.corpus, p);
    }
  }

  lemma AfterSnoc(env: Env, limits: Limits, labels: seq<Label>, l: Label)
    ensures After(env, limits, labels + [l]) == Step(env, limits, After(env, limits, labels), l).0
  {
    assert (labels + [l])[..|labels|] == labels;
  }

  /** An entry that was just read or stored is there for the next query of its key. */
  ghost predicate Ready(env: Env, s: System, q: Query, now: int, v: seq<Result>) {
    s.cache.cache.Has(env.key(q)) && s.cache.cache.vals[env.key(q)].value == v
      && s.cache.cache.vals[env.key(q)].lastAccessed == now
  }

  lemma ReadyHits(env: Env, limits: Limits, s: System, q: Query, now: int, v: seq<Result>)
    requires Ready(env, s, q, now, v)
    ensures Step(env, limits, s, SearchStart(q, now, now)).1 == Some(v)
  {
  }

  lemma HitLeavesReady(env: Env, limits: Limits, s: System, p: Query, now: int)
    requires Step(env, limits, s, SearchStart(p, now, now)).1.Some?
    ensures var (s1, hit) := Step(env, limits, s, SearchStart(p, now, now));
      Ready(env, s1, p, now, hit.value) && s1.corpus == s.corpus
  {
  }

  lemma MissLeavesReady(env: Env, limits: Limits, s: System, p: Query, now: int)
    requires Step(env, limits, s, SearchStart(p, now, now)).1.None?
    ensures var s1 := Step(env, limits, s, SearchStart(p, now, now)).0;
      var s2 := Step(env, limits, s1, SearchDone(|s.searching|, now)).0;
      Ready(env, s2, p, now, Retrieve(env, s.corpus, p)) && s2.corpus == s.corpus
  {
    var s1 := Step(env, limits, s, SearchStart(p, now, now)).0;
    assert s1.searching[|s.searching|] == p && s1.corpus == s.corpus;
  }

  /** A search for p, to its end, leaves what it was answered ready under its key. */
  lemma SearchLeavesReady(env: Env, limits: Limits, labels: seq<Label>, p: Query, now: int)
      returns (more: seq<Label>, v: seq<Result>)
    ensures forall l :: l in more && l.SearchStart? ==> l.query == p
    ensures var s, s' := After(env, limits, labels), After(env, limits, labels + more);
      && Ready(env, s', p, now, v) && s'.corpus == s.corpus
      && (v == Retrieve(env, s.corpus, p) || Step(env, limits, s, SearchStart(p, now, now)).1 == Some(v))
  {
    var s := After(env, limits, labels);
    var start, done := SearchStart(p, now, now), SearchDone(|s.searching|, now);
    if Step(env, limits, s, start).1.Some? {
      more, v := [start], Step(env, limits, s, start).1.value;
      HitLeavesReady(env, limits, s, p, now);
      AfterSnoc(env, limits, labels, start);
    } else {
      more, v := [start, done], Retrieve(env, s.corpus, p);
      MissLeavesReady(env, limits, s, p, now);
      AfterTwo(env, limits, labels, start, done);
    }
  }

  lemma AfterTwo(env: Env, limits: Limits, labels: seq<Label>, l: Label, m: Label)
    ensures After(env, limits, labels + [l, m])
      == Step(env, limits, Step(env, limits, After(env, limits, labels), l).0, m).0
  {
    AfterSnoc(env, limits, labels, l);
    AfterSnoc(env, limits, labels + [l], m);
    assert labels + [l, m] == labels + [l] + [m];
  }

  lemma MoreAsked(asked: Query -> bool, labels: seq<Label>, more: seq<Label>, p: Query)
    requires AllAsked(asked, labels) && asked(p) && forall l :: l in more && l.SearchStart? ==> l.query == p
    ensures AllAsked(asked, labels + more)
  {
  }

  lemma FreshIdentifies(env: Env, limits: Limits, asked: Query -> bool, labels: seq<Label>, p: Query, q: Query)
    requires HitsFresh(env, limits, asked) && AllAsked(asked, labels) && asked(p) && asked(q)
    requires env.key(p) == env.key(q)
    ensures var c := After(env, limits, labels).corpus; Retrieve(env, c, p) == Retrieve(env, c, q)
  {
    var more, v := SearchLeavesReady(env, limits, labels, p, 0);
    assert HitFresh(env, limits, labels, p, 0);
    MoreAsked(asked, labels, more, p);
    assert HitFresh(env, limits, labels + more, q, 0);
    ReadyHits(env, limits, After(env, limits, labels + more), q, 0, v);
  }

  /**
   For the queries in `asked`: every answer from the cache, in every interleaving, is what a fresh retrieval
   would give, exactly when queries of one key retrieve alike from every corpus that can come about.
   */
  lemma HitsFreshIffKeyIdentifies(env: Env, limits: Limits, asked: Query -> bool)
    ensures HitsFresh(env, limits, asked) <==> KeyIdentifies(env, limits, asked)
  {
    if HitsFresh(env, limits, asked) {
      forall labels, p, q | AllAsked(asked, labels) && asked(p) && asked(q) && env.key(p) == env.key(q)
        ensures Retrieve(env, After(env, limits, labels).corpus, p)
          == Retrieve(env, After(env, limits, labels).corpus, q)
      {
        FreshIdentifies(env, limits, asked, labels, p, q);
      }
    }
    if KeyIdentifies(env, limits, asked) {
      forall labels, q, now | AllAsked(asked, labels) && asked(q) ensures HitFresh(env, limits, labels, q, now) {
        IdentifiedIsFresh(env, limits, asked, labels, q, now);
      }
    }
  }
}
