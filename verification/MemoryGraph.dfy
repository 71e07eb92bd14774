/**
 src/analysis/memory-qr.js, the graph itself: what each operation does to nodes, adjacency lists,
 the edge map and the two indices, which integrity every run keeps, and which it can lose.
 */
module MemoryGraph {
  import opened JsCollections

  type Id = string

  datatype Node = Node(id: Id, kind: string, content: string, metadata: string, timestamp: int, accessCount: nat,
    lastAccessed: int)

  datatype Edge = Edge(from: Id, to: Id, kind: string, weight: real, metadata: string, timestamp: int)

  type Neighbours = JsMap<Id, Edge>

  type Index = map<string, set<Id>>

  /** For every word its ids, in the order in which they were added. */
  type WordIndex = map<string, JsMap<Id, ()>>

  datatype Graph = Graph(
    nodes: JsMap<Id, Node>, adjacency: map<Id, Neighbours>, edges: JsMap<string, Edge>, typeIndex: Index,
    contentIndex: WordIndex)

  /** `words` stands for `content.toLowerCase().match(/\b\w+\b/g) || []`. */
  datatype Config = Config(maxNodes: int, maxEdgesPerNode: int, words: string -> seq<string>)

  const EMPTY: Graph := Graph(EmptyMap(), map[], EmptyMap(), map[], map[])

  function EdgeKey(from: Id, to: Id): string { from + "->" + to }

  function Clamp(w: real): real { if w < 0.0 then 0.0 else if w > 1.0 then 1.0 else w }

  function Listed(index: Index, key: string): set<Id> { if key in index then index[key] else {} }

  function Holders(index: WordIndex, word: string): JsMap<Id, ()> { if word in index then index[word] else EmptyMap() }

  function Out(g: Graph, u: Id): Neighbours { if u in g.adjacency then g.adjacency[u] else EmptyMap() }

  // ---------- Indices ----------

  /** Words of fewer than three letters are not indexed. */
  function IndexContent(index: WordIndex, words: seq<string>, id: Id): WordIndex {
    if words == [] then index
    else
      var before := IndexContent(index, words[..|words| - 1], id);
      var w := words[|words| - 1];
      if |w| < 3 then before else before[w := Holders(before, w).Set(id, ())]
  }

  function UnindexContent(index: WordIndex, words: seq<string>, id: Id): WordIndex {
    if words == [] then index
    else
      var before := UnindexContent(index, words[..|words| - 1], id);
      var w := words[|words| - 1];
      if w in before then before[w := before[w].Delete(id)] else before
  }

  lemma SetTwice(ids: JsMap<Id, ()>, id: Id)
    ensures ids.Set(id, ()).Set(id, ()) == ids.Set(id, ())
  {
  }

  lemma DeleteTwice(ids: JsMap<Id, ()>, id: Id)
    ensures ids.Delete(id).Delete(id) == ids.Delete(id)
  {
    WithoutMembers(ids.keys, id);
    WithoutAbsent(Without(ids.keys, id), id);
    assert ids.Delete(id).Delete(id).vals == ids.Delete(id).vals;
  }

  /** Indexing adds the id to exactly its long words, behind the others, or leaves it where it is. */
  lemma {:induction false} IndexContentAdds(index: WordIndex, words: seq<string>, id: Id, w: string)
    ensures Holders(IndexContent(index, words, id), w)
      == if w in words && |w| >= 3 then Holders(index, w).Set(id, ()) else Holders(index, w)
  {
    if words != [] {
      var init, last := words[..|words| - 1], words[|words| - 1];
      assert words == init + [last];
      IndexContentAdds(index, init, id, w);
      SetTwice(Holders(index, w), id);
    }
  }

  /** Unindexing takes away no other id, and leaves the others in order. */
  lemma {:induction false} UnindexContentRemoves(index: WordIndex, words: seq<string>, id: Id, w: string)
    ensures Holders(UnindexContent(index, words, id), w)
      == if w in words then Holders(index, w).Delete(id) else Holders(index, w)
    ensures w in UnindexContent(index, words, id) <==> w in index
  {
    if words != [] {
      var init, last := words[..|words| - 1], words[|words| - 1];
      assert words == init + [last];
      UnindexContentRemoves(index, init, id, w);
      DeleteTwice(Holders(index, w), id);
      assert EmptyMap<Id, ()>().Delete(id) == EmptyMap();
    }
  }

  // ---------- Operations ----------

  function WithoutIncoming(adjacency: map<Id, Neighbours>, id: Id): map<Id, Neighbours> {
    map u | u in adjacency :: adjacency[u].Delete(id)
  }

  function RemoveNodeStep(cfg: Config, g: Graph, id: Id): (Graph, bool) {
    if !g.nodes.Has(id) then (g, false)
    else
      var node := g.nodes.vals[id];
      (Graph(
         g.nodes.Delete(id),
         WithoutIncoming(g.adjacency, id) - {id},
         g.edges,
         if node.kind in g.typeIndex then g.typeIndex[node.kind := g.typeIndex[node.kind] - {id}] else g.typeIndex,
         UnindexContent(g.contentIndex, cfg.words(node.content), id)), true)
  }

  /** The first of the first n nodes with the least access time. */
  function OldestOf(nodes: JsMap<Id, Node>, n: nat): Option<Id>
    requires n <= nodes.Size()
    ensures OldestOf(nodes, n).Some? ==> OldestOf(nodes, n).value in nodes.vals
  {
    if n == 0 then None
    else
      var best, k := OldestOf(nodes, n - 1), nodes.keys[n - 1];
      assert k in nodes.keys;
      if best.None? || nodes.vals[k].lastAccessed < nodes.vals[best.value].lastAccessed then Some(k) else best
  }

  /** An empty id is falsy, and is never evicted. */
  function EvictOldestStep(cfg: Config, g: Graph): Graph {
    match OldestOf(g.nodes, g.nodes.Size())
    case None => g
    case Some(id) => if id == "" then g else RemoveNodeStep(cfg, g, id).0
  }

  function PutNode(cfg: Config, g: Graph, node: Node): Graph {
    Graph(
      g.nodes.Set(node.id, node), g.adjacency[node.id := EmptyMap()], g.edges,
      g.typeIndex[node.kind := Listed(g.typeIndex, node.kind) + {node.id}],
      IndexContent(g.contentIndex, cfg.words(node.content), node.id))
  }

  function AddNodeStep(cfg: Config, g: Graph, id: Id, kind: string, content: string, metadata: string, now: int,
      accessed: int): Graph {
    var g := if g.nodes.Size() >= cfg.maxNodes && !g.nodes.Has(id) then EvictOldestStep(cfg, g) else g;
    PutNode(cfg, g, Node(id, kind, content, metadata, now, 0, accessed))
  }

  function DisconnectStep(g: Graph, from: Id, to: Id): (Graph, bool) {
    var key := EdgeKey(from, to);
    if !g.edges.Has(key) then (g, false)
    else
      (g.(edges := g.edges.Delete(key),
          adjacency := if from in g.adjacency then g.adjacency[from := g.adjacency[from].Delete(to)] else g.adjacency),
            true)
  }

  /** The first of the first n neighbours with the least weight. */
  function WeakestOf(edges: Neighbours, n: nat): Option<Id>
    requires n <= edges.Size()
    ensures WeakestOf(edges, n).Some? ==> WeakestOf(edges, n).value in edges.vals
    ensures n > 0 ==> WeakestOf(edges, n).Some?
  {
    if n == 0 then None
    else
      var best, k := WeakestOf(edges, n - 1), edges.keys[n - 1];
      assert k in edges.keys;
      if best.None? || edges.vals[k].weight < edges.vals[best.value].weight then Some(k) else best
  }

  function EvictWeakestStep(g: Graph, u: Id): Graph {
    match WeakestOf(Out(g, u), Out(g, u).Size())
    case None => g
    case Some(w) => if w == "" then g else DisconnectStep(g, u, w).0
  }

  function ConnectStep(cfg: Config, g: Graph, from: Id, to: Id, kind: string, weight: real, metadata: string,
      now: int): (Graph, Option<Edge>) {
    if !g.nodes.Has(from) || !g.nodes.Has(to) then (g, None)
    else
      var edge := Edge(from, to, kind, Clamp(weight), metadata, now);
      var g := g.(edges := g.edges.Set(EdgeKey(from, to), edge));
      var g := if Out(g, from).Size() >= cfg.maxEdgesPerNode then EvictWeakestStep(g, from) else g;
      (g.(adjacency := g.adjacency[from := Out(g, from).Set(to, edge)]), Some(edge))
  }

  /** getNode counts the access. */
  function GetNodeStep(g: Graph, id: Id, now: int): (Graph, Option<Node>) {
    if !g.nodes.Has(id) then (g, None)
    else
      var node := g.nodes.vals[id].(accessCount := g.nodes.vals[id].accessCount + 1, lastAccessed := now);
      (g.(nodes := g.nodes.Set(id, node)), Some(node))
  }

  datatype PruneOptions = PruneOptions(maxAgeMs: int, minWeight: real, minAccessCount: int)

  predicate StaleEdge(o: PruneOptions, e: Edge, now: int) { now - e.timestamp > o.maxAgeMs || e.weight < o.minWeight }

  predicate StaleNode(o: PruneOptions, n: Node, now: int) {
    n.accessCount < o.minAccessCount && now - n.timestamp > o.maxAgeMs
  }

  /** The loop over `this.edges`, whose keys are `keys`; an entry deleted meanwhile is not visited. */
  function PruneEdges(o: PruneOptions, g: Graph, keys: seq<string>, now: int): (Graph, nat) {
    if keys == [] then (g, 0)
    else
      var (g, n) := PruneEdges(o, g, keys[..|keys| - 1], now);
      var k := keys[|keys| - 1];
      if g.edges.Has(k) && StaleEdge(o, g.edges.vals[k], now) then
        (DisconnectStep(g, g.edges.vals[k].from, g.edges.vals[k].to).0, n + 1)
      else (g, n)
  }

  function PruneNodes(cfg: Config, o: PruneOptions, g: Graph, ids: seq<Id>, now: int): (Graph, nat) {
    if ids == [] then (g, 0)
    else
      var (g, n) := PruneNodes(cfg, o, g, ids[..|ids| - 1], now);
      var id := ids[|ids| - 1];
      if g.nodes.Has(id) && StaleNode(o, g.nodes.vals[id], now) then (RemoveNodeStep(cfg, g, id).0, n + 1) else (g, n)
  }

  function PruneStep(cfg: Config, g: Graph, o: PruneOptions, now: int): (Graph, nat, nat) {
    var (g, edgesRemoved) := PruneEdges(o, g, g.edges.keys, now);
    var (g, nodesRemoved) := PruneNodes(cfg, o, g, g.nodes.keys, now);
    (g, edgesRemoved, nodesRemoved)
  }

  // ---------- Integrity ----------

  type Nodes = JsMap<Id, Node>

  type Adjacency = map<Id, Neighbours>

  /** The neighbours of u are live, and filed under their ids. */
  ghost predicate RowOk(nodes: Nodes, u: Id, row: Neighbours) {
    forall v :: v in row.vals ==> v in nodes.vals && row.vals[v].from == u && row.vals[v].to == v
  }

  /** Adjacency lists exist for exactly the live nodes, and lead only to live nodes. */
  ghost predicate AdjacencyOk(nodes: Nodes, adjacency: Adjacency) {
    && (forall u :: u in adjacency <==> u in nodes.vals)
    && (forall u :: u in adjacency ==> RowOk(nodes, u, adjacency[u]))
  }

  /** A live node is filed under its type and under each of its long words. */
  ghost predicate Filed(words: string -> seq<string>, typeIndex: Index, contentIndex: WordIndex, node: Node,
      id: Id) {
    && node.id == id && id in Listed(typeIndex, node.kind)
    && (forall w :: w in words(node.content) && |w| >= 3 ==> Holders(contentIndex, w).Has(id))
  }

  ghost predicate IndexOk(words: string -> seq<string>, nodes: Nodes, typeIndex: Index,
      contentIndex: WordIndex) {
    forall id :: id in nodes.vals ==> Filed(words, typeIndex, contentIndex, nodes.vals[id], id)
  }

  /** The edge map is keyed by its edges' ends, and weights are within [0, 1]. */
  ghost predicate EdgesOk(edges: JsMap<string, Edge>) {
    forall k :: k in edges.vals
      ==> EdgeKey(edges.vals[k].from, edges.vals[k].to) == k && 0.0 <= edges.vals[k].weight <= 1.0
  }

  ghost predicate GraphOk(cfg: Config, g: Graph) {
    && AdjacencyOk(g.nodes, g.adjacency)
    && IndexOk(cfg.words, g.nodes, g.typeIndex, g.contentIndex)
    && EdgesOk(g.edges)
  }

  lemma RemoveKeepsAdjacency(nodes: Nodes, adjacency: Adjacency, id: Id)
    requires AdjacencyOk(nodes, adjacency)
    ensures AdjacencyOk(nodes.Delete(id), WithoutIncoming(adjacency, id) - {id})
  {
    var adjacency' := WithoutIncoming(adjacency, id) - {id};
    forall u | u in adjacency' ensures RowOk(nodes.Delete(id), u, adjacency'[u]) {
      assert RowOk(nodes, u, adjacency[u]);
    }
  }

  lemma RemoveKeepsIndex(words: string -> seq<string>, nodes: Nodes, ti: Index, ci: WordIndex, id: Id)
    requires id in nodes.vals && IndexOk(words, nodes, ti, ci)
    ensures var node := nodes.vals[id];
      IndexOk(words, nodes.Delete(id), if node.kind in ti then ti[node.kind := ti[node.kind] - {id}] else ti,
        UnindexContent(ci, words(node.content), id))
  {
    var node := nodes.vals[id];
    var ti' := if node.kind in ti then ti[node.kind := ti[node.kind] - {id}] else ti;
    var ci' := UnindexContent(ci, words(node.content), id);
    forall x | x in nodes.Delete(id).vals ensures Filed(words, ti', ci', nodes.vals[x], x) {
      assert Filed(words, ti, ci, nodes.vals[x], x);
      forall w | w in words(nodes.vals[x].content) && |w| >= 3 ensures Holders(ci', w).Has(x) {
        UnindexContentRemoves(ci, words(node.content), id, w);
      }
    }
  }

  lemma RemoveNodeKeepsGraph(cfg: Config, g: Graph, id: Id)
    requires GraphOk(cfg, g)
    ensures GraphOk(cfg, RemoveNodeStep(cfg, g, id).0)
  {
    if g.nodes.Has(id) {
      RemoveKeepsAdjacency(g.nodes, g.adjacency, id);
      RemoveKeepsIndex(cfg.words, g.nodes, g.typeIndex, g.contentIndex, id);
    }
  }

  lemma PutKeepsAdjacency(nodes: Nodes, adjacency: Adjacency, node: Node)
    requires AdjacencyOk(nodes, adjacency)
    ensures AdjacencyOk(nodes.Set(node.id, node), adjacency[node.id := EmptyMap()])
  {
    var adjacency' := adjacency[node.id := EmptyMap()];
    forall u | u in adjacency' ensures RowOk(nodes.Set(node.id, node), u, adjacency'[u]) {
      if u != node.id {
        assert RowOk(nodes, u, adjacency[u]);
      }
    }
  }

  lemma PutKeepsIndex(words: string -> seq<string>, nodes: Nodes, ti: Index, ci: WordIndex, node: Node)
    requires IndexOk(words, nodes, ti, ci)
    ensures IndexOk(words, nodes.Set(node.id, node), ti[node.kind := Listed(ti, node.kind) + {node.id}],
      IndexContent(ci, words(node.content), node.id))
  {
    var nodes' := nodes.Set(node.id, node);
    var ti' := ti[node.kind := Listed(ti, node.kind) + {node.id}];
    var ci' := IndexContent(ci, words(node.content), node.id);
    forall x | x in nodes'.vals ensures Filed(words, ti', ci', nodes'.vals[x], x) {
      if x != node.id {
        assert Filed(words, ti, ci, nodes.vals[x], x);
      }
      forall w | w in words(nodes'.vals[x].content) && |w| >= 3 ensures Holders(ci', w).Has(x) {
        IndexContentAdds(ci, words(node.content), node.id, w);
      }
    }
  }

  lemma PutNodeKeepsGraph(cfg: Config, g: Graph, node: Node)
    requires GraphOk(cfg, g)
    ensures GraphOk(cfg, PutNode(cfg, g, node))
  {
    PutKeepsAdjacency(g.nodes, g.adjacency, node);
    PutKeepsIndex(cfg.words, g.nodes, g.typeIndex, g.contentIndex, node);
  }

  lemma EvictOldestKeepsGraph(cfg: Config, g: Graph)
    requires GraphOk(cfg, g)
    ensures GraphOk(cfg, EvictOldestStep(cfg, g))
  {
    var oldest := OldestOf(g.nodes, g.nodes.Size());
    if oldest.Some? {
      RemoveNodeKeepsGraph(cfg, g, oldest.value);
    }
  }

  lemma AddNodeKeepsGraph(cfg: Config, g: Graph, id: Id, kind: string, content: string, metadata: string, now: int,
      accessed: int)
    requires GraphOk(cfg, g)
    ensures GraphOk(cfg, AddNodeStep(cfg, g, id, kind, content, metadata, now, accessed))
  {
    EvictOldestKeepsGraph(cfg, g);
    var g1 := if g.nodes.Size() >= cfg.maxNodes && !g.nodes.Has(id) then EvictOldestStep(cfg, g) else g;
    PutNodeKeepsGraph(cfg, g1, Node(id, kind, content, metadata, now, 0, accessed));
  }

  lemma DeleteKeepsAdjacency(nodes: Nodes, adjacency: Adjacency, from: Id, to: Id)
    requires AdjacencyOk(nodes, adjacency) && from in adjacency
    ensures AdjacencyOk(nodes, adjacency[from := adjacency[from].Delete(to)])
  {
    var adjacency' := adjacency[from := adjacency[from].Delete(to)];
    forall u | u in adjacency' ensures RowOk(nodes, u, adjacency'[u]) {
      assert RowOk(nodes, u, adjacency[u]);
    }
  }

  lemma SetKeepsAdjacency(nodes: Nodes, adjacency: Adjacency, e: Edge)
    requires AdjacencyOk(nodes, adjacency) && e.from in adjacency && e.to in nodes.vals
    ensures AdjacencyOk(nodes, adjacency[e.from := adjacency[e.from].Set(e.to, e)])
  {
    var adjacency' := adjacency[e.from := adjacency[e.from].Set(e.to, e)];
    forall u | u in adjacency' ensures RowOk(nodes, u, adjacency'[u]) {
      assert RowOk(nodes, u, adjacency[u]);
    }
  }

  lemma DisconnectKeepsGraph(cfg: Config, g: Graph, from: Id, to: Id)
    requires GraphOk(cfg, g)
    ensures GraphOk(cfg, DisconnectStep(g, from, to).0)
  {
    if from in g.adjacency {
      DeleteKeepsAdjacency(g.nodes, g.adjacency, from, to);
    }
  }

  lemma EvictWeakestKeepsGraph(cfg: Config, g: Graph, u: Id)
    requires GraphOk(cfg, g)
    ensures GraphOk(cfg, EvictWeakestStep(g, u))
  {
    var weakest := WeakestOf(Out(g, u), Out(g, u).Size());
    if weakest.Some? {
      DisconnectKeepsGraph(cfg, g, u, weakest.value);
    }
  }

  lemma SetKeepsEdges(edges: JsMap<string, Edge>, e: Edge)
    requires EdgesOk(edges) && 0.0 <= e.weight <= 1.0
    ensures EdgesOk(edges.Set(EdgeKey(e.from, e.to), e))
  {
  }

  lemma ConnectKeepsGraph(cfg: Config, g: Graph, from: Id, to: Id, kind: string, weight: real, metadata: string,
      now: int)
    requires GraphOk(cfg, g)
    ensures GraphOk(cfg, ConnectStep(cfg, g, from, to, kind, weight, metadata, now).0)
  {
    if g.nodes.Has(from) && g.nodes.Has(to) {
      var edge := Edge(from, to, kind, Clamp(weight), metadata, now);
      SetKeepsEdges(g.edges, edge);
      var g1 := g.(edges := g.edges.Set(EdgeKey(from, to), edge));
      EvictWeakestKeepsGraph(cfg, g1, from);
      var g2 := if Out(g1, from).Size() >= cfg.maxEdgesPerNode then EvictWeakestStep(g1, from) else g1;
      SetKeepsAdjacency(g2.nodes, g2.adjacency, edge);
    }
  }

  lemma GetNodeKeepsGraph(cfg: Config, g: Graph, id: Id, now: int)
    requires GraphOk(cfg, g)
    ensures GraphOk(cfg, GetNodeStep(g, id, now).0)
  {
    var g' := GetNodeStep(g, id, now).0;
    forall u | u in g'.adjacency ensures RowOk(g'.nodes, u, g'.adjacency[u]) {
      assert RowOk(g.nodes, u, g.adjacency[u]);
    }
    forall x | x in g'.nodes.vals ensures Filed(cfg.words, g'.typeIndex, g'.contentIndex, g'.nodes.vals[x], x) {
      assert Filed(cfg.words, g.typeIndex, g.contentIndex, g.nodes.vals[x], x);
    }
  }

  lemma {:induction false} PruneEdgesKeepsGraph(cfg: Config, o: PruneOptions, g: Graph, keys: seq<string>, now: int)
    requires GraphOk(cfg, g)
    ensures GraphOk(cfg, PruneEdges(o, g, keys, now).0)
  {
    if keys != [] {
      PruneEdgesKeepsGraph(cfg, o, g, keys[..|keys| - 1], now);
      var g1, k := PruneEdges(o, g, keys[..|keys| - 1], now).0, keys[|keys| - 1];
      if g1.edges.Has(k) {
        DisconnectKeepsGraph(cfg, g1, g1.edges.vals[k].from, g1.edges.vals[k].to);
      }
    }
  }

  lemma {:induction false} PruneNodesKeepsGraph(cfg: Config, o: PruneOptions, g: Graph, ids: seq<Id>, now: int)
    requires GraphOk(cfg, g)
    ensures GraphOk(cfg, PruneNodes(cfg, o, g, ids, now).0)
  {
    if ids != [] {
      PruneNodesKeepsGraph(cfg, o, g, ids[..|ids| - 1], now);
      RemoveNodeKeepsGraph(cfg, PruneNodes(cfg, o, g, ids[..|ids| - 1], now).0, ids[|ids| - 1]);
    }
  }
}
