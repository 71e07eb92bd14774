/**
 src/analysis/memory-qr.js, getPath with its cache: the key is made of the two ends only, and nothing but
 clear() drops entries. When the answer is right, and a run in which it is not.
 */
module PathCaches {
  import opened JsCollections
  import opened MemoryGraph
  import opened GraphRuns
  import opened GraphBounds
  import opened GraphSearch
  import opened GraphExtract
  import opened LruCaches
  import R = Reachability

  type PathCache = Lru<string, PathResult>

  const HOUR: int := 60 * 60 * 1000

  datatype Question = Question(start: Id, end: Id, maxDepth: int, allowed: Filter)

  function KeyOf(q: Question): string { q.start + "->" + q.end }

  /**
   What getPath should say: a shortest allowed path with the edges
   recorded along it, or null when there is none that short.
   */
  ghost predicate RightPath(g: Graph, q: Question, r: Option<PathResult>) {
    var next := AllowedSteps(g.adjacency, q.allowed);
    match r
    case Some(p) =>
      && g.nodes.Has(q.start) && g.nodes.Has(q.end) && Route(next, q.start, q.end, q.maxDepth, p.nodes)
      && Fewest(next, q.start, q.end, p.nodes) && p.length == |p.nodes| - 1
      && p.edges == Kinds(EdgesAlong(g.edges, p.nodes)) && p.totalWeight == TotalWeight(EdgesAlong(g.edges, p.nodes))
    case None => g.nodes.Has(q.start) && g.nodes.Has(q.end) ==>
      !exists path :: Route(next, q.start, q.end, q.maxDepth, path)
  }

  /** The two clock reads of a lookup, and that of storing. */
  datatype Clock = Clock(now: int, touched: int, stored: int)

  function Looked(c: PathCache, q: Question, t: Clock): (PathCache, Option<PathResult>) {
    GetStep(c, HOUR, KeyOf(q), t.now, t.touched)
  }

  predicate LiveEntry(c: PathCache, q: Question, t: Clock) {
    c.cache.Has(KeyOf(q)) && !Expired(c.cache.vals[KeyOf(q)], HOUR, t.now)
  }

  /** What getPath answers, and the cache it leaves: a live entry as it is, else a search whose result is stored. */
  ghost predicate Answers(cacheSize: int, g: Graph, c: PathCache, q: Question, t: Clock, r: Option<PathResult>,
      c': PathCache) {
    var (looked, hit) := Looked(c, q, t);
    if hit.Some? then r == hit && c' == looked
    else
      && RightPath(g, q, r)
      && c' == match r
               case None => looked
               case Some(p) => SetStep(looked, cacheSize, KeyOf(q), p, HOUR, t.stored)
  }

  lemma HitIffLive(c: PathCache, q: Question, t: Clock)
    ensures Looked(c, q, t).1 == if LiveEntry(c, q, t) then Some(c.cache.vals[KeyOf(q)].value) else None
  {
  }

  // ---------- In one state ----------

  /**
   With a given cache, the answer is right for every graph and all options
   exactly when the cache has no live entry for the two ends.
   */
  lemma RightForAllIff(cacheSize: int, c: PathCache, start: Id, end: Id, t: Clock)
    ensures (forall g, maxDepth, allowed, r, c' ::
               Answers(cacheSize, g, c, Question(start, end, maxDepth, allowed), t, r, c')
               ==> RightPath(g, Question(start, end, maxDepth, allowed), r))
       <==> !LiveEntry(c, Question(start, end, 0, None), t)
  {
    forall maxDepth, allowed
      ensures Looked(c, Question(start, end, maxDepth, allowed), t) == Looked(c, Question(start, end, 0, None), t)
    {
      assert KeyOf(Question(start, end, maxDepth, allowed)) == KeyOf(Question(start, end, 0, None));
    }
    var q := Question(start, end, 0, None);
    HitIffLive(c, q, t);
    if LiveEntry(c, q, t) {
      var (looked, hit) := Looked(c, q, t);
      assert Answers(cacheSize, EMPTY, c, q, t, hit, looked) && !RightPath(EMPTY, q, hit);
    }
  }

  // ---------- While nothing changes ----------

  /** Each entry is under the key of two plain ids, and right for them with these options. */
  ghost predicate EntriesRight(g: Graph, c: PathCache, maxDepth: int, allowed: Filter) {
    forall k :: k in c.cache.vals ==> EntryRight(g, k, c.cache.vals[k].value, maxDepth, allowed)
  }

  ghost predicate EntryRight(g: Graph, k: string, p: PathResult, maxDepth: int, allowed: Filter) {
    exists a, b ::
      PlainId(a) && PlainId(b) && k == EdgeKey(a, b) && RightPath(g, Question(a, b, maxDepth, allowed), Some(p))
  }

  lemma EntryIsOwn(g: Graph, p: PathResult, q: Question)
    requires PlainId(q.start) && PlainId(q.end) && EntryRight(g, KeyOf(q), p, q.maxDepth, q.allowed)
    ensures RightPath(g, q, Some(p))
  {
    var a, b :| PlainId(a) && PlainId(b) && KeyOf(q) == EdgeKey(a, b)
      && RightPath(g, Question(a, b, q.maxDepth, q.allowed), Some(p));
    KeyOfPlainIds(a, b, q.start, q.end);
  }

  lemma OneMoreRight(g: Graph, p: PathResult, q: Question)
    requires PlainId(q.start) && PlainId(q.end) && RightPath(g, q, Some(p))
    ensures EntryRight(g, KeyOf(q), p, q.maxDepth, q.allowed)
  {
    assert KeyOf(q) == EdgeKey(q.start, q.end);
  }

  /** On an unchanged graph, with the same options and plain ids, the answer is right, and so is what is cached. */
  lemma StaysRight(cacheSize: int, g: Graph, c: PathCache, q: Question, t: Clock, r: Option<PathResult>, c': PathCache)
    requires EntriesRight(g, c, q.maxDepth, q.allowed) && PlainId(q.start) && PlainId(q.end)
    requires Answers(cacheSize, g, c, q, t, r, c')
    ensures RightPath(g, q, r) && EntriesRight(g, c', q.maxDepth, q.allowed)
  {
    HitIffLive(c, q, t);
    var (looked, hit) := Looked(c, q, t);
    assert EntriesRight(g, looked, q.maxDepth, q.allowed);
    if hit.Some? {
      EntryIsOwn(g, hit.value, q);
    } else if r.Some? {
      OneMoreRight(g, r.value, q);
    }
  }

  /** `answers[i]` is the answer to `asked[i]`, which finds the cache as caches[i] and leaves it as caches[i + 1]. */
  ghost predicate Session(
      cacheSize: int, g: Graph, asked: seq<Question>, times: seq<Clock>, answers: seq<Option<PathResult>>,
        caches: seq<PathCache>) {
    && |times| == |answers| == |asked| && |caches| == |asked| + 1 && caches[0] == EmptyLru()
    && forall i :: 0 <= i < |asked| ==> Answers(cacheSize, g, caches[i], asked[i], times[i], answers[i], caches[i + 1])
  }

  ghost predicate SameOptions(asked: seq<Question>, maxDepth: int, allowed: Filter) {
    forall i :: 0 <= i < |asked| ==>
      PlainId(asked[i].start) && PlainId(asked[i].end) && asked[i].maxDepth == maxDepth && asked[i].allowed == allowed
  }

  lemma {:induction false} CacheStaysRight(
      cacheSize: int, g: Graph, asked: seq<Question>, times: seq<Clock>, answers: seq<Option<PathResult>>,
        caches: seq<PathCache>,
      maxDepth: int, allowed: Filter, n: nat)
    requires Session(cacheSize, g, asked, times, answers, caches) && SameOptions(asked, maxDepth, allowed)
    requires n <= |asked|
    ensures EntriesRight(g, caches[n], maxDepth, allowed)
  {
    if n > 0 {
      CacheStaysRight(cacheSize, g, asked, times, answers, caches, maxDepth, allowed, n - 1);
      StaysRight(cacheSize, g, caches[n - 1], asked[n - 1], times[n - 1], answers[n - 1], caches[n]);
    }
  }

  /** As long as the graph stays the same, and the options too, every answer is right. */
  lemma UnchangedIsRight(
      cacheSize: int, g: Graph, asked: seq<Question>, times: seq<Clock>, answers: seq<Option<PathResult>>,
        caches: seq<PathCache>,
      maxDepth: int, allowed: Filter, n: nat)
    requires Session(cacheSize, g, asked, times, answers, caches) && SameOptions(asked, maxDepth, allowed)
    requires n < |asked|
    ensures RightPath(g, asked[n], answers[n])
  {
    CacheStaysRight(cacheSize, g, asked, times, answers, caches, maxDepth, allowed, n);
    StaysRight(cacheSize, g, caches[n], asked[n], times[n], answers[n], caches[n + 1]);
  }

  // ---------- A run with a stale answer ----------

  lemma OneStepRoute(g: Graph, a: Id, b: Id, allowed: Filter)
    requires a in g.adjacency && b in g.adjacency[a].vals && Passes(allowed, g.adjacency[a].vals[b].kind)
    ensures Route(AllowedSteps(g.adjacency, allowed), a, b, 2, [a, b])
  {
  }

  lemma NoWayOut(g: Graph, a: Id, b: Id, maxDepth: int, allowed: Filter, path: seq<Id>)
    requires a in g.adjacency && g.adjacency[a].keys == [] && a != b
    ensures !Route(AllowedSteps(g.adjacency, allowed), a, b, maxDepth, path)
  {
    NoKeys(g.adjacency[a]);
    assert R.Succ(AllowedSteps(g.adjacency, allowed), a) == {};
    if |path| >= 2 && path[0] == a {
      assert path[1] !in R.Succ(AllowedSteps(g.adjacency, allowed), path[0]);
    }
  }

  lemma Disconnected(cfg: Config, ops: seq<GraphRuns.Op>, a: Id, b: Id)
    requires Star(Run(cfg, ops), a, b, [b])
    ensures var g' := Run(cfg, ops + [Disconnect(a, b)]);
      g'.nodes == Run(cfg, ops).nodes && a in g'.adjacency && g'.adjacency[a].keys == []
  {
    RunAppend(cfg, ops, Disconnect(a, b));
    SpokeGone(Run(cfg, ops), a, b);
  }

  lemma SpokeGone(g: Graph, a: Id, b: Id)
    requires Star(g, a, b, [b])
    ensures var g' := DisconnectStep(g, a, b).0; g'.nodes == g.nodes && a in g'.adjacency && g'.adjacency[a].keys == []
  {
    var row := g.adjacency[a];
    assert b in row.keys;
    assert Without([b], b) == [];
  }

  /**
   connect, getPath, disconnect, getPath. The path is found and cached; the edge goes; and for an hour the
   cached path is still the answer, though no walk leads from a to b any more.
   */
  lemma HitIsStale(cfg: Config, cacheSize: int, a: Id, b: Id, t: Clock, r: Option<PathResult>, c: PathCache,
      t': Clock, r': Option<PathResult>, c': PathCache)
    requires cfg.maxNodes >= 2 && cfg.maxEdgesPerNode >= 1 && a != b && t'.now - t.stored <= HOUR
    requires var ops, q := Addings([a, b]) + Spokes(a, b, [b]), Question(a, b, 10, None);
      && Answers(cacheSize, Run(cfg, ops), EmptyLru(), q, t, r, c)
      && Answers(cacheSize, Run(cfg, ops + [Disconnect(a, b)]), c, q, t', r', c')
    ensures r.Some? && r' == r
    ensures !RightPath(Run(cfg, Addings([a, b]) + Spokes(a, b, [b]) + [Disconnect(a, b)]), Question(a, b, 10, None), r')
  {
    var ops, q := Addings([a, b]) + Spokes(a, b, [b]), Question(a, b, 10, None);
    Connected(cfg, a, b);
    Disconnected(cfg, ops, a, b);
    StaleAnswer(cacheSize, Run(cfg, ops), Run(cfg, ops + [Disconnect(a, b)]), q, t, r, c, t', r', c');
  }

  lemma StaleAnswer(cacheSize: int, g: Graph, g': Graph, q: Question, t: Clock, r: Option<PathResult>, c: PathCache,
      t': Clock, r': Option<PathResult>, c': PathCache)
    requires Star(g, q.start, q.end, [q.end]) && g.nodes.Has(q.start) && g.nodes.Has(q.end) && q.start != q.end
    requires q.start in g'.adjacency && g'.adjacency[q.start].keys == [] && q.maxDepth >= 2 && q.allowed == None
    requires Answers(cacheSize, g, EmptyLru(), q, t, r, c) && Answers(cacheSize, g', c, q, t', r', c')
    requires t'.now - t.stored <= HOUR
    ensures r.Some? && r' == r && !RightPath(g', q, r')
  {
    assert q.end in g.adjacency[q.start].keys;
    OneStepRoute(g, q.start, q.end, q.allowed);
    assert Route(AllowedSteps(g.adjacency, q.allowed), q.start, q.end, q.maxDepth, [q.start, q.end]);
    HitIffLive(c, q, t');
    NoWayOut(g', q.start, q.end, q.maxDepth, q.allowed, r.value.nodes);
  }
}
