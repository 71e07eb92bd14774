/**
 src/analysis/memory-qr.js, the class: its operations as they change the Maps in place, each equal to
 the step that MemoryGraph specifies.
 */
module MemoryQRs {
  import opened JsCollections
  import opened MemoryGraph
  import opened GraphExtract
  import opened GraphRanking
  import opened GraphSearch
  import opened PathCaches
  import GraphJson
  import L = LruCaches
  import R = Reachability

  class MemoryQR {
    const cfg: Config
    var nodes: Nodes
    var adjacencyList: Adjacency
    var edges: JsMap<string, Edge>
    var typeIndex: Index
    var contentIndex: WordIndex
    const pathCache: L.LRUCache<string, PathResult>

    function State(): Graph
      reads this
    {
      Graph(nodes, adjacencyList, edges, typeIndex, contentIndex)
    }

    constructor (cfg: Config, cacheSize: int)
      ensures this.cfg == cfg && State() == EMPTY
      ensures fresh(pathCache) && pathCache.maxSize == cacheSize && pathCache.ttlMs == HOUR
      ensures pathCache.State() == L.EmptyLru()
    {
      this.cfg := cfg;
      pathCache := new L.LRUCache(cacheSize, HOUR);
      nodes, adjacencyList, edges := EmptyMap(), map[], EmptyMap();
      typeIndex, contentIndex := map[], map[];
    }

    // ---------- Indices ----------

    method IndexWords(nodeId: Id, content: string)
      modifies this`contentIndex
      ensures contentIndex == IndexContent(old(contentIndex), cfg.words(content), nodeId)
    {
      var words := cfg.words(content);
      for i := 0 to |words|
        invariant contentIndex == IndexContent(old(contentIndex), words[..i], nodeId)
      {
        var word := words[i];
        assert words[..i + 1][..i] == words[..i];
        if |word| < 3 {
          continue;
        }
        if word !in contentIndex {
          contentIndex := contentIndex[word := EmptyMap()];
        }
        contentIndex := contentIndex[word := contentIndex[word].Set(nodeId, ())];
      }
      assert words[..|words|] == words;
    }

    method UnindexWords(nodeId: Id, content: string)
      modifies this`contentIndex
      ensures contentIndex == UnindexContent(old(contentIndex), cfg.words(content), nodeId)
    {
      var words := cfg.words(content);
      for i := 0 to |words|
        invariant contentIndex == UnindexContent(old(contentIndex), words[..i], nodeId)
      {
        var word := words[i];
        assert words[..i + 1][..i] == words[..i];
        if word in contentIndex {
          contentIndex := contentIndex[word := contentIndex[word].Delete(nodeId)];
        }
      }
      assert words[..|words|] == words;
    }

    method FileNode(node: Node)
      modifies this
      ensures State() == PutNode(cfg, old(State()), node)
    {
      nodes := nodes.Set(node.id, node);
      adjacencyList := adjacencyList[node.id := EmptyMap()];
      if node.kind !in typeIndex {
        typeIndex := typeIndex[node.kind := {}];
      }
      typeIndex := typeIndex[node.kind := typeIndex[node.kind] + {node.id}];
      IndexWords(node.id, node.content);
    }

    // ---------- Nodes ----------

    method AddNode(id: Id, kind: string, content: string, metadata: string, now: int, accessed: int)
        returns (node: Node)
      modifies this
      ensures State() == AddNodeStep(cfg, old(State()), id, kind, content, metadata, now, accessed)
      ensures nodes.Has(id) && nodes.vals[id] == node
    {
      if nodes.Size() >= cfg.maxNodes && !nodes.Has(id) {
        EvictOldestNode();
      }
      node := Node(id, kind, content, metadata, now, 0, accessed);
      FileNode(node);
    }

    method EvictOldestNode()
      modifies this
      ensures State() == EvictOldestStep(cfg, old(State()))
    {
      var oldest: Option<Id> := None;
      for i := 0 to nodes.Size()
        invariant oldest == OldestOf(nodes, i)
      {
        var id := nodes.keys[i];
        assert id in nodes.keys;
        if oldest.None? || nodes.vals[id].lastAccessed < nodes.vals[oldest.value].lastAccessed {
          oldest := Some(id);
        }
      }
      if oldest.Some? && oldest.value != "" {
        var _ := RemoveNode(oldest.value);
      }
    }

    method GetNode(id: Id, now: int) returns (r: Option<Node>)
      modifies this
      ensures (State(), r) == GetNodeStep(old(State()), id, now)
    {
      if !nodes.Has(id) {
        return None;
      }
      var node := nodes.vals[id];
      node := node.(accessCount := node.accessCount + 1);
      node := node.(lastAccessed := now);
      nodes := nodes.Set(id, node);
      return Some(node);
    }

    /** Outgoing edges leave the adjacency list one by one. */
    method RemoveOutgoing(id: Id)
      modifies this`adjacencyList
      ensures adjacencyList == if id in old(adjacencyList) then old(adjacencyList)[id := EmptyMap()]
        else old(adjacencyList)
    {
      if id !in adjacencyList {
        return;
      }
      var targets := adjacencyList[id].keys;
      ghost var row0 := adjacencyList[id];
      for i := 0 to |targets|
        invariant id in adjacencyList && adjacencyList[id].keys == targets[i..]
        invariant adjacencyList == old(adjacencyList)[id := adjacencyList[id]]
      {
        DeleteFirst(adjacencyList[id]);
        adjacencyList := adjacencyList[id := adjacencyList[id].Delete(targets[i])];
      }
      NoKeysIsEmpty(adjacencyList[id]);
    }

    /** Edges into `id` go, row by row. */
    method RemoveIncoming(id: Id)
      modifies this`adjacencyList
      ensures adjacencyList == WithoutIncoming(old(adjacencyList), id)
    {
      var left := adjacencyList.Keys;
      while left != {}
        invariant left <= adjacencyList.Keys && adjacencyList.Keys == old(adjacencyList).Keys
        invariant forall u :: u in adjacencyList ==>
          adjacencyList[u] == if u in left then old(adjacencyList)[u] else old(adjacencyList)[u].Delete(id)
      {
        var u :| u in left;
        left := left - {u};
        if adjacencyList[u].Has(id) {
          adjacencyList := adjacencyList[u := adjacencyList[u].Delete(id)];
        } else {
          DeleteAbsent(adjacencyList[u], id);
        }
      }
    }

    method RemoveNode(id: Id) returns (removed: bool)
      modifies this
      ensures (State(), removed) == RemoveNodeStep(cfg, old(State()), id)
    {
      if !nodes.Has(id) {
        return false;
      }
      var node := nodes.vals[id];
      RemoveOutgoing(id);
      RemoveIncoming(id);
      if node.kind in typeIndex {
        typeIndex := typeIndex[node.kind := typeIndex[node.kind] - {id}];
      }
      UnindexWords(id, node.content);
      nodes := nodes.Delete(id);
      adjacencyList := adjacencyList - {id};
      OwnRowIsGone(old(adjacencyList), id);
      return true;
    }

    // ---------- Edges ----------

    method Connect(from: Id, to: Id, relationship: string, weight: real, metadata: string, now: int)
        returns (r: Option<Edge>)
      modifies this
      ensures (State(), r) == ConnectStep(cfg, old(State()), from, to, relationship, weight, metadata, now)
    {
      if !nodes.Has(from) || !nodes.Has(to) {
        return None;
      }
      var clamped := if weight < 0.0 then 0.0 else if weight > 1.0 then 1.0 else weight;
      var edge := Edge(from, to, relationship, clamped, metadata, now);
      edges := edges.Set(EdgeKey(from, to), edge);
      if Out(State(), from).Size() >= cfg.maxEdgesPerNode {
        EvictWeakestEdge(from);
      }
      adjacencyList := adjacencyList[from := Out(State(), from).Set(to, edge)];
      return Some(edge);
    }

    method EvictWeakestEdge(nodeId: Id)
      modifies this
      ensures State() == EvictWeakestStep(old(State()), nodeId)
    {
      var row := Out(State(), nodeId);
      var weakest: Option<Id> := None;
      for i := 0 to row.Size()
        invariant weakest == WeakestOf(row, i)
      {
        var id := row.keys[i];
        assert id in row.keys;
        if weakest.None? || row.vals[id].weight < row.vals[weakest.value].weight {
          weakest := Some(id);
        }
      }
      if weakest.Some? && weakest.value != "" {
        var _ := Disconnect(nodeId, weakest.value);
      }
    }

    method Disconnect(from: Id, to: Id) returns (existed: bool)
      modifies this
      ensures (State(), existed) == DisconnectStep(old(State()), from, to)
    {
      var key := EdgeKey(from, to);
      existed := edges.Has(key);
      if existed {
        edges := edges.Delete(key);
        if from in adjacencyList {
          adjacencyList := adjacencyList[from := adjacencyList[from].Delete(to)];
        }
      }
    }

    // ---------- getPath ----------

    /** The inner loop: a longer path for each allowed neighbour not visited before. */
    method ExtendPath(path: seq<Id>, allowed: Filter, visited: set<Id>) returns (added: seq<seq<Id>>, seen: set<Id>)
      requires |path| >= 1
      ensures R.Expands(AllowedSteps(adjacencyList, allowed), path, visited, added)
      ensures seen == visited + R.Succ(AllowedSteps(adjacencyList, allowed), path[|path| - 1])
    {
      added, seen := [], visited;
      var current := path[|path| - 1];
      if current !in adjacencyList {
        return;
      }
      var neighbors := adjacencyList[current];
      ghost var next := AllowedSteps(adjacencyList, allowed);
      ghost var steps := R.Succ(next, current);
      for i := 0 to |neighbors.keys|
        invariant Visiting(neighbors.keys, steps, path, i, visited, seen, added)
      {
        var targetId := neighbors.keys[i];
        assert targetId in neighbors.keys;
        if targetId in seen || !Passes(allowed, neighbors.vals[targetId].kind) {
          VisitSkips(neighbors.keys, steps, path, i, visited, seen, added);
          continue;
        }
        VisitTakes(neighbors.keys, steps, path, i, visited, seen, added);
        seen := seen + {targetId};
        added := added + [path + [targetId]];
      }
      VisitedAll(next, neighbors.keys, path, visited, seen, added);
    }

    /** One turn of the loop: the first queued path is returned, extended, or dropped as too long. */
    method FollowFirst(start: Id, end: Id, maxDepth: int, allowed: Filter, queue: seq<seq<Id>>, visited: set<Id>,
                       ghost d: nat, ghost left: nat, ghost draining: bool)
      returns (r: Option<seq<Id>>, queue': seq<seq<Id>>, visited': set<Id>, ghost d': nat, ghost left': nat,
        ghost draining': bool)
      requires queue != []
      requires Pursuit(AllowedSteps(adjacencyList, allowed), start, end, maxDepth, d, left, draining, queue, visited)
      ensures var next := AllowedSteps(adjacencyList, allowed);
        match r
        case Some(path) => Route(next, start, end, maxDepth, path) && Fewest(next, start, end, path)
        case None =>
          && Pursuit(next, start, end, maxDepth, d', left', draining', queue', visited')
          && (Universe(next, {start}) - visited' < Universe(next, {start}) - visited
            || (visited' == visited && |queue'| < |queue|))
    {
      ghost var next := AllowedSteps(adjacencyList, allowed);
      queue', visited', d', left', draining' := queue[1..], visited, d, left, draining;
      var path := queue[0];
      if |path| > maxDepth {
        if !draining {
          TooLong(next, start, end, maxDepth, d, left, queue, visited);
        }
        draining' := true;
        return None, queue', visited', d', left', draining';
      }
      FirstIsShortest(next, start, end, d, left, queue, visited);
      var current := path[|path| - 1];
      if current == end {
        return Some(path), queue', visited', d', left', draining';
      }
      var added, seen := ExtendPath(path, allowed, visited);
      d', left' := Extended(next, start, end, d, left, queue, visited, added, queue[1..] + added, seen);
      Progress(next, {start}, path, visited, added);
      queue', visited' := queue[1..] + added, seen;
      r := None;
    }

    /**
     The search itself: a walk along allowed edges with the fewest
     nodes, or null when none has at most maxDepth nodes.
     */
    method ShortestPath(start: Id, end: Id, maxDepth: int, allowed: Filter) returns (r: Option<seq<Id>>)
      ensures var next := AllowedSteps(adjacencyList, allowed);
        match r
        case Some(path) => nodes.Has(start) && nodes.Has(end) && Route(next, start, end, maxDepth, path)
          && Fewest(next, start, end, path)
        case None => nodes.Has(start) && nodes.Has(end) ==> !exists path :: Route(next, start, end, maxDepth, path)
    {
      if !nodes.Has(start) || !nodes.Has(end) {
        return None;
      }
      ghost var next := AllowedSteps(adjacencyList, allowed);
      var queue := [[start]];
      var visited := {start};
      ghost var d: nat, left: nat, draining := 0, 1, false;
      HuntStarts(next, start, end);
      while queue != []
        invariant Pursuit(next, start, end, maxDepth, d, left, draining, queue, visited)
        decreases Universe(next, {start}) - visited, |queue|
      {
        r, queue, visited, d, left, draining :=
          FollowFirst(start, end, maxDepth, allowed, queue, visited, d, left, draining);
        if r.Some? {
          return;
        }
      }
      Over(next, start, end, maxDepth, d, left, draining, visited);
      return None;
    }

    method ReconstructPath(nodeIds: seq<Id>) returns (r: PathResult)
      requires nodeIds != []
      ensures var list := EdgesAlong(edges, nodeIds);
        r == PathResult(nodeIds, Kinds(list), TotalWeight(list), |nodeIds| - 1)
    {
      var kinds, totalWeight := [], 0.0;
      for i := 0 to |nodeIds| - 1
        invariant kinds == Kinds(EdgesAlong(edges, nodeIds[..i + 1]))
        invariant totalWeight == TotalWeight(EdgesAlong(edges, nodeIds[..i + 1]))
      {
        EdgesAlongNext(edges, nodeIds, i + 1);
        var edgeKey := EdgeKey(nodeIds[i], nodeIds[i + 1]);
        if edges.Has(edgeKey) {
          var edge := edges.vals[edgeKey];
          OneEdgeMore(EdgesAlong(edges, nodeIds[..i + 1]), edge);
          kinds := kinds + [edge.kind];
          totalWeight := totalWeight + edge.weight;
        }
      }
      assert nodeIds[..|nodeIds|] == nodeIds;
      return PathResult(nodeIds, kinds, totalWeight, |nodeIds| - 1);
    }

    /** The search and the edges recorded along what it finds. */
    method FindPath(q: Question) returns (r: Option<PathResult>)
      ensures RightPath(State(), q, r)
    {
      var path := ShortestPath(q.start, q.end, q.maxDepth, q.allowed);
      if path.None? {
        return None;
      }
      var result := ReconstructPath(path.value);
      return Some(result);
    }

    /**
     A live entry of the cache is the answer, whatever the options; else
     the path is searched for, and cached if there is one.
     */
    method GetPath(q: Question, t: Clock) returns (r: Option<PathResult>)
      requires pathCache.ttlMs == HOUR
      modifies pathCache
      ensures State() == old(State())
      ensures Answers(pathCache.maxSize, State(), old(pathCache.State()), q, t, r, pathCache.State())
    {
      var cacheKey := KeyOf(q);
      var cached := pathCache.Get(cacheKey, t.now, t.touched);
      if cached.Some? {
        return cached;
      }
      r := FindPath(q);
      if r.Some? {
        pathCache.Set(cacheKey, r.value, HOUR, t.stored);
      }
    }

    // ---------- findRelated ----------

    /**
     The inner loop: each neighbour that passes the filters and was not visited is scored, recorded and
     queued. A node that was not visited has no result yet, so there is never an older score to beat.
     */
    method VisitNeighbors(path: seq<Id>, search: Search, scoring: Scoring, visited: set<Id>, results: JsMap<Id, Found>)
      returns (added: seq<seq<Id>>, seen: set<Id>, found: JsMap<Id, Found>)
      requires 1 <= |path| <= search.depth
      ensures var next := RelatedSteps(nodes, adjacencyList, search);
        R.Expands(next, path, visited, added) && seen == visited + R.Succ(next, path[|path| - 1])
      ensures Records(nodes, adjacencyList, search, scoring, path, added, results, found)
    {
      added, seen, found := [], visited, results;
      var id := path[|path| - 1];
      if id !in adjacencyList {
        return;
      }
      var neighbors := adjacencyList[id];
      ghost var next := RelatedSteps(nodes, adjacencyList, search);
      ghost var steps := R.Succ(next, id);
      for i := 0 to |neighbors.keys|
        invariant Visiting(neighbors.keys, steps, path, i, visited, seen, added)
        invariant Records(nodes, adjacencyList, search, scoring, path, added, results, found)
      {
        var targetId := neighbors.keys[i];
        assert targetId in neighbors.keys;
        var edge := neighbors.vals[targetId];
        if targetId in seen || edge.weight < search.minWeight || !Passes(search.relationships, edge.kind)
          || !nodes.Has(targetId) || !Passes(search.types, nodes.vals[targetId].kind) {
          VisitSkips(neighbors.keys, steps, path, i, visited, seen, added);
          continue;
        }
        var currentDepth := |path| - 1;
        var score := scoring(edge, currentDepth, search.depth);
        var result := Found(nodes.vals[targetId], score, currentDepth + 1, path + [targetId]);
        VisitTakes(neighbors.keys, steps, path, i, visited, seen, added);
        RecordOne(nodes, adjacencyList, search, scoring, path, added, results, found, targetId, result);
        found := found.Set(targetId, result);
        seen := seen + {targetId};
        added := added + [path + [targetId]];
      }
      VisitedAll(next, neighbors.keys, path, visited, seen, added);
    }

    /** One turn of the loop: the first queued path is worked off, or dropped at the depth limit. */
    method ExploreFirst(queue: seq<seq<Id>>, visited: set<Id>, results: JsMap<Id, Found>, search: Search,
        scoring: Scoring,
                        ghost S: set<Id>, ghost d: nat, ghost left: nat, ghost draining: bool)
      returns (queue': seq<seq<Id>>, visited': set<Id>, results': JsMap<Id, Found>, ghost d': nat, ghost left': nat,
        ghost draining': bool)
      requires queue != []
      requires Explored(RelatedSteps(nodes, adjacencyList, search), S, search.depth, d, left, draining, queue, visited)
      requires Recorded(nodes, adjacencyList, search, scoring, S, visited, results)
      ensures Explored(RelatedSteps(nodes, adjacencyList, search), S, search.depth, d', left', draining', queue',
        visited')
      ensures Recorded(nodes, adjacencyList, search, scoring, S, visited', results')
      ensures var U := Universe(RelatedSteps(nodes, adjacencyList, search), S);
        U - visited' < U - visited || (visited' == visited && |queue'| < |queue|)
    {
      ghost var n, a, next := nodes, adjacencyList, RelatedSteps(nodes, adjacencyList, search);
      var path := queue[0];
      var currentDepth := |path| - 1;
      if currentDepth >= search.depth {
        AtLimit(next, S, search.depth, d, left, draining, queue, visited);
        return queue[1..], visited, results, d, left, true;
      }
      FirstHasNodes(next, S, search.depth, d, left, draining, queue, visited);
      var added, seen, found := VisitNeighbors(path, search, scoring, visited, results);
      RecordRound(n, a, search, scoring, S, d, left, queue, visited, added, seen, results, found);
      Progress(next, S, path, visited, added);
      queue', visited', results' := queue[1..] + added, seen, found;
      d', left' := ExploreRound(next, S, search.depth, d, left, queue, visited, added, queue', seen);
      draining' := false;
    }

    /** The traversal, before ranking: exactly the nodes within depth steps that are no starts, each as Related says. */
    method Explore(starts: seq<Id>, search: Search, scoring: Scoring) returns (results: JsMap<Id, Found>)
      requires NoDup(starts)
      ensures results.vals.Keys
        == R.Within(RelatedSteps(nodes, adjacencyList, search), Ids(starts), search.depth) - Ids(starts)
      ensures AllRelated(nodes, adjacencyList, search, scoring, Ids(starts), results)
    {
      ghost var n, a, next, S := nodes, adjacencyList, RelatedSteps(nodes, adjacencyList, search), Ids(starts);
      var queue := seq(|starts|, i requires 0 <= i < |starts| => [starts[i]]);
      var visited := Ids(starts);
      results := EmptyMap();
      ghost var d: nat, left: nat, draining := 0, |queue|, false;
      ExploreStarts(next, starts, search.depth, queue);
      NothingRecorded(n, a, search, scoring, S);
      while queue != []
        invariant Explored(next, S, search.depth, d, left, draining, queue, visited)
        invariant Recorded(n, a, search, scoring, S, visited, results)
        decreases Universe(next, S) - visited, |queue|
      {
        queue, visited, results, d, left, draining :=
          ExploreFirst(queue, visited, results, search, scoring, S, d, left, draining);
      }
      ExploredResults(n, a, search, scoring, S, d, left, draining, visited, results);
    }

    /** Counts one word for every node it is indexed under. */
    method CountWord(word: string, before: JsMap<Id, nat>) returns (matches: JsMap<Id, nat>)
      ensures matches == CountIds(before, Holders(contentIndex, word).keys)
    {
      matches := before;
      if word in contentIndex {
        var nodeIds := contentIndex[word].keys;
        for i := 0 to |nodeIds|
          invariant matches == CountIds(before, nodeIds[..i])
        {
          assert nodeIds[..i + 1][..i] == nodeIds[..i];
          var id := nodeIds[i];
          matches := matches.Set(id, (if matches.Has(id) then matches.vals[id] else 0) + 1);
        }
        assert nodeIds[..|nodeIds|] == nodeIds;
      }
    }

    /** The nodes that share the most words with the query, at most five of them. */
    method FindNodesByContent(query: string) returns (ids: seq<Id>)
      ensures ids == BestMatches(cfg, nodes, contentIndex, query)
      ensures IsMatchRanking(contentIndex, cfg.words(query), ContentMatches(contentIndex, cfg.words(query)))
    {
      var words := cfg.words(query);
      var matches: JsMap<Id, nat> := EmptyMap();
      for i := 0 to |words|
        invariant matches == CountWords(contentIndex, words[..i])
      {
        assert words[..i + 1][..i] == words[..i];
        var word := words[i];
        if |word| < 3 {
          continue;
        }
        matches := CountWord(word, matches);
      }
      assert words[..|words|] == words;
      MatchesRanked(contentIndex, words);
      ids := LiveIds(nodes, SliceTo(SortDesc(Entries(matches), ByCount()), 5));
    }

    /** Every node related to the starting nodes, ranked by score, cut off at the limit. */
    method FindRelated(query: string, search: Search, limit: int, fade: Edge -> real) returns (r: seq<Found>)
      ensures IsAnswer(cfg, nodes, adjacencyList, contentIndex, query, search, Decayed(fade), limit, r)
    {
      var startNodes := [query];
      if !nodes.Has(query) {
        startNodes := FindNodesByContent(query);
      }
      StartsAreDistinct(cfg, nodes, contentIndex, query);
      var results: JsMap<Id, Found> := EmptyMap();
      if startNodes == [] {
        NothingWithin(RelatedSteps(nodes, adjacencyList, search), search.depth);
      } else {
        results := Explore(startNodes, search, Decayed(fade));
      }
      var sorted := SortDesc(ValuesOf(results), ByScore());
      Ranked(nodes, adjacencyList, search, Decayed(fade), Ids(startNodes), results, sorted);
      r := SliceTo(sorted, limit);
    }

    // ---------- getSubgraph ----------

    /** The inner loop: every edge is collected, and each neighbour not visited before is queued. */
    method Spread(hop: Hop, visited: set<Id>, order: seq<Id>, ghost path: seq<Id>)
      returns (added: seq<Hop>, seen: set<Id>, order': seq<Id>, row: seq<Edge>, ghost addedPaths: seq<seq<Id>>)
      requires |path| >= 1 && hop == Hop(path[|path| - 1], |path| - 1)
      requires NoDup(order) && Ids(order) == visited
      ensures R.Expands(AllSteps(adjacencyList), path, visited, addedPaths)
      ensures seen == visited + R.Succ(AllSteps(adjacencyList), hop.id)
      ensures HopsOf(added, addedPaths) && NoDup(order') && Ids(order') == seen
      ensures row == if hop.id in adjacencyList then ValuesOf(adjacencyList[hop.id]) else []
    {
      added, seen, order', row, addedPaths := [], visited, order, [], [];
      if hop.id !in adjacencyList {
        return;
      }
      var neighbors := adjacencyList[hop.id];
      ghost var next := AllSteps(adjacencyList);
      ghost var steps := R.Succ(next, hop.id);
      for i := 0 to |neighbors.keys|
        invariant Visiting(neighbors.keys, steps, path, i, visited, seen, addedPaths)
        invariant HopsOf(added, addedPaths) && NoDup(order') && Ids(order') == seen
        invariant row == ValuesOf(neighbors)[..i]
      {
        var targetId := neighbors.keys[i];
        assert targetId in neighbors.keys;
        if targetId !in seen {
          VisitTakes(neighbors.keys, steps, path, i, visited, seen, addedPaths);
          NewInOrder(order', targetId);
          seen := seen + {targetId};
          order' := order' + [targetId];
          added, addedPaths := added + [Hop(targetId, hop.depth + 1)], addedPaths + [path + [targetId]];
        } else {
          VisitSkips(neighbors.keys, steps, path, i, visited, seen, addedPaths);
        }
        row := row + [neighbors.vals[targetId]];
      }
      VisitedAll(next, neighbors.keys, path, visited, seen, addedPaths);
    }

    /** One turn of the loop. */
    method SpreadFirst(nodeId: Id, depth: int, queue: seq<Hop>, visited: set<Id>, order: seq<Id>, found: seq<Edge>,
                       ghost paths: seq<seq<Id>>, ghost d: nat, ghost left: nat, ghost draining: bool,
                       ghost done: set<Id>)
      returns (queue': seq<Hop>, visited': set<Id>, order': seq<Id>, found': seq<Edge>,
               ghost paths': seq<seq<Id>>, ghost d': nat, ghost left': nat, ghost draining': bool, ghost done': set<Id>)
      requires AdjacencyOk(nodes, adjacencyList) && queue != [] && HopsOf(queue, paths) && NoDup(order)
      requires Ids(order) == visited
      requires Explored(AllSteps(adjacencyList), {nodeId}, depth, d, left, draining, paths, visited)
      requires Cleared(AllSteps(adjacencyList), {nodeId}, depth, d, left, draining, paths, done)
      requires EdgesFrom(adjacencyList, done, found)
      ensures HopsOf(queue', paths') && NoDup(order') && Ids(order') == visited'
      ensures Explored(AllSteps(adjacencyList), {nodeId}, depth, d', left', draining', paths', visited')
      ensures Cleared(AllSteps(adjacencyList), {nodeId}, depth, d', left', draining', paths', done')
      ensures EdgesFrom(adjacencyList, done', found')
      ensures var U := Universe(AllSteps(adjacencyList), {nodeId});
        visited <= visited' && (U - visited' < U - visited || (visited' == visited && |queue'| < |queue|))
    {
      ghost var next := AllSteps(adjacencyList);
      var hop := queue[0];
      if hop.depth >= depth {
        DroppedAtLimit(next, {nodeId}, depth, d, left, draining, queue, paths, visited, done);
        return queue[1..], visited, order, found, paths[1..], d, left, true, done;
      }
      FirstHasNodes(next, {nodeId}, depth, d, left, draining, paths, visited);
      var added, seen, order1, row, addedPaths := Spread(hop, visited, order, paths[0]);
      d', left' := SpreadRound(nodes, adjacencyList, {nodeId}, depth, d, left, queue, paths, visited, done, added,
        addedPaths, seen, found, row);
      paths', queue' := paths[1..] + addedPaths, queue[1..] + added;
      visited', order', found' := seen, order1, found + row;
      draining', done' := false, done + {hop.id};
    }

    /** The nodes within depth steps of the centre, and every edge that leaves one closer than that. */
    method GetSubgraph(nodeId: Id, depth: int)
        returns (subgraphNodes: seq<Node>, subgraphEdges: seq<Edge>, ghost ids: seq<Id>)
      requires AdjacencyOk(nodes, adjacencyList)
      ensures !nodes.Has(nodeId) ==> subgraphNodes == [] && subgraphEdges == []
      ensures nodes.Has(nodeId) ==>
        && NoDup(ids) && Ids(ids) == {nodeId} + R.Within(AllSteps(adjacencyList), {nodeId}, depth)
        && (forall id :: id in ids ==> id in nodes.vals) && subgraphNodes == NodesOf(nodes, ids)
        && EdgesFrom(adjacencyList, R.Within(AllSteps(adjacencyList), {nodeId}, depth - 1), subgraphEdges)
    {
      if !nodes.Has(nodeId) {
        return [], [], [];
      }
      var order: seq<Id>;
      order, subgraphEdges := SpreadAll(nodeId, depth);
      ids := order;
      subgraphNodes := NodesOf(nodes, order);
    }

    /** The loop of getSubgraph. */
    method SpreadAll(nodeId: Id, depth: int) returns (order: seq<Id>, found: seq<Edge>)
      requires AdjacencyOk(nodes, adjacencyList) && nodes.Has(nodeId)
      ensures NoDup(order) && Ids(order) == {nodeId} + R.Within(AllSteps(adjacencyList), {nodeId}, depth)
      ensures forall id :: id in order ==> id in nodes.vals
      ensures EdgesFrom(adjacencyList, R.Within(AllSteps(adjacencyList), {nodeId}, depth - 1), found)
    {
      var queue, visited := [Hop(nodeId, 0)], {nodeId};
      order, found := [nodeId], [];
      ghost var paths, d: nat, left: nat, draining, done: set<Id> := [[nodeId]], 0, 1, false, {};
      SubgraphStarts(nodeId, depth, adjacencyList);
      while queue != []
        invariant HopsOf(queue, paths) && NoDup(order) && Ids(order) == visited && nodeId in visited
        invariant Explored(AllSteps(adjacencyList), {nodeId}, depth, d, left, draining, paths, visited)
        invariant Cleared(AllSteps(adjacencyList), {nodeId}, depth, d, left, draining, paths, done)
        invariant EdgesFrom(adjacencyList, done, found)
        decreases Universe(AllSteps(adjacencyList), {nodeId}) - visited, |queue|
      {
        queue, visited, order, found, paths, d, left, draining, done :=
          SpreadFirst(nodeId, depth, queue, visited, order, found, paths, d, left, draining, done);
      }
      ClearedAll(AllSteps(adjacencyList), {nodeId}, depth, d, left, draining, visited, done);
      ExploredAll(AllSteps(adjacencyList), {nodeId}, depth, d, left, draining, visited);
      SubgraphIsLive(nodes, adjacencyList, nodeId, depth, visited);
      IdsMembers(order);
    }

    // ---------- prune, fromJSON, clear ----------

    method Prune(o: PruneOptions, now: int) returns (edgesRemoved: nat, nodesRemoved: nat)
      modifies this
      ensures (State(), edgesRemoved, nodesRemoved) == PruneStep(cfg, old(State()), o, now)
    {
      edgesRemoved := 0;
      var keys := edges.keys;
      for i := 0 to |keys|
        invariant State() == PruneEdges(o, old(State()), keys[..i], now).0
        invariant edgesRemoved == PruneEdges(o, old(State()), keys[..i], now).1
      {
        PruneEdgesNext(o, old(State()), keys, i, now);
        if edges.Has(keys[i]) {
          var edge := edges.vals[keys[i]];
          if now - edge.timestamp > o.maxAgeMs || edge.weight < o.minWeight {
            var _ := Disconnect(edge.from, edge.to);
            edgesRemoved := edgesRemoved + 1;
          }
        }
      }
      assert keys[..|keys|] == keys;
      nodesRemoved := PruneUnused(o, now);
    }

    method PruneUnused(o: PruneOptions, now: int) returns (nodesRemoved: nat)
      modifies this
      ensures (State(), nodesRemoved) == PruneNodes(cfg, o, old(State()), old(nodes.keys), now)
    {
      nodesRemoved := 0;
      var ids := nodes.keys;
      for i := 0 to |ids|
        invariant State() == PruneNodes(cfg, o, old(State()), ids[..i], now).0
        invariant nodesRemoved == PruneNodes(cfg, o, old(State()), ids[..i], now).1
      {
        PruneNodesNext(cfg, o, old(State()), ids, i, now);
        var removed := PruneIfUnused(o, ids[i], now);
        nodesRemoved := if removed then nodesRemoved + 1 else nodesRemoved;
      }
      assert ids[..|ids|] == ids;
    }

    method PruneIfUnused(o: PruneOptions, id: Id, now: int) returns (removed: bool)
      modifies this
      ensures removed == Unused(o, old(State()), id, now)
      ensures State() == if removed then RemoveNodeStep(cfg, old(State()), id).0 else old(State())
    {
      if nodes.Has(id) {
        var node := nodes.vals[id];
        if node.accessCount < o.minAccessCount && now - node.timestamp > o.maxAgeMs {
          removed := RemoveNode(id);
          return;
        }
      }
      return false;
    }

    method Clear()
      modifies this, pathCache
      ensures State() == EMPTY && pathCache.State() == L.ClearStep(old(pathCache.State()))
    {
      nodes, adjacencyList, edges := EmptyMap(), map[], EmptyMap();
      typeIndex, contentIndex := map[], map[];
      pathCache.Clear();
    }

    method FromJSON(data: GraphJson.Json, clock: nat -> int)
      modifies this, pathCache
      ensures State() == GraphJson.FromJson(cfg, data, clock)
    {
      Clear();
      for i := 0 to |data.nodes|
        invariant State() == GraphJson.ImportNodes(cfg, data.nodes[..i])
      {
        GraphJson.ImportNext(cfg, data.nodes, i);
        FileNode(data.nodes[i]);
      }
      assert data.nodes[..|data.nodes|] == data.nodes;
      ConnectAll(data.edges, clock);
    }

    /** The second loop of fromJSON. */
    method ConnectAll(list: seq<Edge>, clock: nat -> int)
      modifies this
      ensures State() == GraphJson.ImportEdges(cfg, old(State()), list, clock)
    {
      for i := 0 to |list|
        invariant State() == GraphJson.ImportEdges(cfg, old(State()), list[..i], clock)
      {
        assert list[..i + 1][..i] == list[..i];
        var edge := list[i];
        var _ := Connect(edge.from, edge.to, edge.kind, edge.weight, edge.metadata, clock(i));
      }
      assert list[..|list|] == list;
    }
  }

  lemma PruneEdgesNext(o: PruneOptions, g: Graph, keys: seq<string>, n: nat, now: int)
    requires n < |keys|
    ensures var before, after := PruneEdges(o, g, keys[..n], now), PruneEdges(o, g, keys[..n + 1], now);
      if before.0.edges.Has(keys[n]) && StaleEdge(o, before.0.edges.vals[keys[n]], now) then
        var e := before.0.edges.vals[keys[n]];
        after.0 == DisconnectStep(before.0, e.from, e.to).0 && after.1 == before.1 + 1
      else after == before
  {
    assert keys[..n + 1][..n] == keys[..n];
  }

  predicate Unused(o: PruneOptions, g: Graph, id: Id, now: int) {
    g.nodes.Has(id) && StaleNode(o, g.nodes.vals[id], now)
  }

  lemma PruneNodesNext(cfg: Config, o: PruneOptions, g: Graph, ids: seq<Id>, n: nat, now: int)
    requires n < |ids|
    ensures var before, after := PruneNodes(cfg, o, g, ids[..n], now), PruneNodes(cfg, o, g, ids[..n + 1], now);
      if Unused(o, before.0, ids[n], now) then
        after.0 == RemoveNodeStep(cfg, before.0, ids[n]).0 && after.1 == before.1 + 1
      else after == before
  {
    assert ids[..n + 1][..n] == ids[..n];
  }

  lemma DeleteFirst(row: Neighbours)
    requires row.keys != []
    ensures row.Delete(row.keys[0]).keys == row.keys[1..]
  {
    WithoutAbsent(row.keys[1..], row.keys[0]);
  }

  lemma NoKeysIsEmpty(row: Neighbours)
    requires row.keys == []
    ensures row == EmptyMap()
  {
    assert row.vals == map[];
  }

  lemma DeleteAbsent(row: Neighbours, id: Id)
    requires id !in row.vals
    ensures row.Delete(id) == row
  {
    WithoutAbsent(row.keys, id);
    assert row.Delete(id).vals == row.vals;
  }

  /** Emptying the row of `id` first makes no difference, as that row goes anyway. */
  lemma OwnRowIsGone(adjacency: Adjacency, id: Id)
    ensures WithoutIncoming(if id in adjacency then adjacency[id := EmptyMap()] else adjacency, id) - {id}
      == WithoutIncoming(adjacency, id) - {id}
  {
  }

  /** At the depth limit the first queued node is dropped, and nothing else changes. */
  lemma DroppedAtLimit(next: R.Next, starts: set<Id>, depth: int, d: nat, left: nat, draining: bool, queue: seq<Hop>,
      paths: seq<seq<Id>>, visited: set<Id>, done: set<Id>)
    requires queue != [] && HopsOf(queue, paths) && queue[0].depth >= depth
    requires Explored(next, starts, depth, d, left, draining, paths, visited)
    requires Cleared(next, starts, depth, d, left, draining, paths, done)
    ensures HopsOf(queue[1..], paths[1..])
    ensures Explored(next, starts, depth, d, left, true, paths[1..], visited)
    ensures Cleared(next, starts, depth, d, left, true, paths[1..], done)
  {
    AtLimit(next, starts, depth, d, left, draining, paths, visited);
    if !draining {
      ClearedAtLimit(next, starts, depth, d, left, paths, visited, done);
    }
  }

  /** Otherwise the first queued node is expanded. */
  lemma SpreadRound(nodes: Nodes, adjacency: Adjacency, starts: set<Id>, depth: int, d: nat, left: nat, queue: seq<Hop>,
      paths: seq<seq<Id>>, visited: set<Id>, done: set<Id>, added: seq<Hop>, addedPaths: seq<seq<Id>>, seen: set<Id>,
      found: seq<Edge>, row: seq<Edge>)
      returns (d': nat, left': nat)
    requires AdjacencyOk(nodes, adjacency) && queue != [] && HopsOf(queue, paths) && queue[0].depth < depth
    requires Explored(AllSteps(adjacency), starts, depth, d, left, false, paths, visited)
    requires Cleared(AllSteps(adjacency), starts, depth, d, left, false, paths, done)
    requires R.Expands(AllSteps(adjacency), paths[0], visited, addedPaths) && HopsOf(added, addedPaths)
    requires seen == visited + R.Succ(AllSteps(adjacency), queue[0].id)
    requires EdgesFrom(adjacency, done, found)
    requires row == if queue[0].id in adjacency then ValuesOf(adjacency[queue[0].id]) else []
    ensures HopsOf(queue[1..] + added, paths[1..] + addedPaths)
    ensures Explored(AllSteps(adjacency), starts, depth, d', left', false, paths[1..] + addedPaths, seen)
    ensures Cleared(AllSteps(adjacency), starts, depth, d', left', false, paths[1..] + addedPaths, done + {queue[0].id})
    ensures EdgesFrom(adjacency, done + {queue[0].id}, found + row)
    ensures var U := Universe(AllSteps(adjacency), starts);
      U - seen < U - visited || (seen == visited && |queue[1..] + added| < |queue|)
  {
    var next, u := AllSteps(adjacency), queue[0].id;
    d', left' := ClearRound(next, starts, depth, d, left, paths, visited, addedPaths, paths[1..] + addedPaths, seen,
      done, u);
    Progress(next, starts, paths[0], visited, addedPaths);
    HopsJoin(queue, paths, added, addedPaths);
    RowFound(nodes, adjacency, done, u, found, row);
  }

  lemma StartsAreDistinct(cfg: Config, nodes: Nodes, index: WordIndex, query: string)
    ensures NoDup(StartsOf(cfg, nodes, index, query))
  {
    MatchesRanked(index, cfg.words(query));
    LiveIdsDistinct(nodes, SliceTo(ContentMatches(index, cfg.words(query)), 5));
  }

  lemma {:induction false} NothingWithin(next: R.Next, n: int)
    ensures R.Within(next, Ids([]), n) == {}
    decreases n
  {
    if n > 0 {
      NothingWithin(next, n - 1);
    }
  }

  lemma NewInOrder(order: seq<Id>, id: Id)
    requires NoDup(order) && id !in Ids(order)
    ensures NoDup(order + [id]) && Ids(order + [id]) == Ids(order) + {id}
  {
  }
}
