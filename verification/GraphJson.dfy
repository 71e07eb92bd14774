/**
 src/analysis/memory-qr.js, toJSON and fromJSON: exporting a graph and importing it again gives the
 same nodes and edges, except for the time stamps of edges, when no node has more edges than
 maxEdgesPerNode, and only then unless a node has the empty id.
 */
module GraphJson {
  import opened JsCollections
  import opened MemoryGraph
  import opened GraphRuns

  datatype Json = Json(nodes: seq<Node>, edges: seq<Edge>)

  function ToJson(g: Graph): Json { Json(ValuesOf(g.nodes), ValuesOf(g.edges)) }

  /** The first loop of fromJSON, on a cleared graph. */
  function ImportNodes(cfg: Config, nodes: seq<Node>): Graph {
    if nodes == [] then EMPTY else PutNode(cfg, ImportNodes(cfg, nodes[..|nodes| - 1]), nodes[|nodes| - 1])
  }

  function Stamped(e: Edge, now: int): Edge { e.(timestamp := now) }

  /** The second loop: edge i is connected when the clock shows clock(i). */
  function ImportEdges(cfg: Config, g: Graph, edges: seq<Edge>, clock: nat -> int): Graph {
    if edges == [] then g
    else
      var n := |edges| - 1;
      ConnectEdge(cfg, ImportEdges(cfg, g, edges[..n], clock), Stamped(edges[n], clock(n)))
  }

  function FromJson(cfg: Config, data: Json, clock: nat -> int): Graph {
    ImportEdges(cfg, ImportNodes(cfg, data.nodes), data.edges, clock)
  }

  // ---------- What is compared ----------

  predicate SameEdge(a: Edge, b: Edge) { Stamped(a, 0) == Stamped(b, 0) }

  ghost predicate SameEdges<K(!new)>(a: JsMap<K, Edge>, b: JsMap<K, Edge>) {
    forall k :: k in a.vals ==> k in b.vals && SameEdge(a.vals[k], b.vals[k])
  }

  /** The same nodes and edges in the same order; the same neighbours; only edges' time stamps may differ. */
  ghost predicate Restored(g: Graph, g': Graph) {
    && g'.nodes == g.nodes
    && g'.edges.keys == g.edges.keys && SameEdges(g'.edges, g.edges)
    && g'.adjacency.Keys == g.adjacency.Keys
    && (forall u :: u in g.adjacency ==>
      SameEdges(g'.adjacency[u], g.adjacency[u]) && SameEdges(g.adjacency[u], g'.adjacency[u]))
  }

  ghost predicate RowMirrored(u: Id, row: Neighbours, edges: JsMap<string, Edge>) {
    forall v :: v in row.vals ==> EdgeKey(u, v) in edges.vals && edges.vals[EdgeKey(u, v)] == row.vals[v]
  }

  ghost predicate Entry(adjacency: Adjacency, e: Edge) {
    e.from in adjacency && e.to in adjacency[e.from].vals && adjacency[e.from].vals[e.to] == e
  }

  /** The edge map and the adjacency lists hold the same edges. */
  ghost predicate Mirror(adjacency: Adjacency, edges: JsMap<string, Edge>) {
    && (forall u :: u in adjacency ==> RowMirrored(u, adjacency[u], edges))
    && (forall k :: k in edges.vals ==> Entry(adjacency, edges.vals[k]))
  }

  ghost predicate Exportable(cfg: Config, g: Graph) {
    GraphOk(cfg, g) && Mirror(g.adjacency, g.edges)
  }

  // ---------- Nodes ----------

  ghost predicate NodesUpTo(g: Graph, n: nat, h: Graph)
    requires n <= g.nodes.Size()
  {
    && h.nodes.keys == g.nodes.keys[..n] && h.edges == EmptyMap()
    && (forall id :: id in h.nodes.vals ==> id in g.nodes.vals && h.nodes.vals[id] == g.nodes.vals[id])
    && (forall u :: u in h.adjacency ==> h.adjacency[u] == EmptyMap())
  }

  lemma PutNext(cfg: Config, g: Graph, n: nat, h: Graph, node: Node)
    requires n < g.nodes.Size() && NodesUpTo(g, n, h)
    requires node.id == g.nodes.keys[n] && node.id in g.nodes.vals && g.nodes.vals[node.id] == node
    ensures NodesUpTo(g, n + 1, PutNode(cfg, h, node))
  {
    assert node.id !in h.nodes.keys;
    assert g.nodes.keys[..n + 1] == g.nodes.keys[..n] + [node.id];
  }

  lemma NodeIsFiled(cfg: Config, g: Graph, n: nat)
    requires IndexOk(cfg.words, g.nodes, g.typeIndex, g.contentIndex) && n < g.nodes.Size()
    ensures var node := ValuesOf(g.nodes)[n];
      node.id == g.nodes.keys[n] && node.id in g.nodes.vals && g.nodes.vals[node.id] == node
  {
    var id := g.nodes.keys[n];
    assert id in g.nodes.keys;
    assert Filed(cfg.words, g.typeIndex, g.contentIndex, g.nodes.vals[id], id);
  }

  lemma ImportNext(cfg: Config, list: seq<Node>, n: nat)
    requires n < |list|
    ensures ImportNodes(cfg, list[..n + 1]) == PutNode(cfg, ImportNodes(cfg, list[..n]), list[n])
  {
    assert list[..n + 1][..n] == list[..n];
  }

  lemma {:induction false} NodesImported(cfg: Config, g: Graph, n: nat)
    requires GraphOk(cfg, g) && n <= g.nodes.Size()
    ensures var h := ImportNodes(cfg, ValuesOf(g.nodes)[..n]); GraphOk(cfg, h) && NodesUpTo(g, n, h)
  {
    if n > 0 {
      NodesImported(cfg, g, n - 1);
      var list := ValuesOf(g.nodes);
      ImportNext(cfg, list, n - 1);
      NodeIsFiled(cfg, g, n - 1);
      NodeImported(cfg, g, n - 1, ImportNodes(cfg, list[..n - 1]), list[n - 1]);
    }
  }

  lemma NodeImported(cfg: Config, g: Graph, n: nat, h: Graph, node: Node)
    requires n < g.nodes.Size() && NodesUpTo(g, n, h) && GraphOk(cfg, h)
    requires node.id == g.nodes.keys[n] && node.id in g.nodes.vals && g.nodes.vals[node.id] == node
    ensures GraphOk(cfg, PutNode(cfg, h, node)) && NodesUpTo(g, n + 1, PutNode(cfg, h, node))
  {
    PutNext(cfg, g, n, h, node);
    PutNodeKeepsGraph(cfg, h, node);
  }

  // ---------- Edges ----------

  /** The first n edges are in, and nothing else. */
  ghost predicate Synced(g: Graph, n: nat, h: Graph) {
    && n <= g.edges.Size() && h.nodes == g.nodes && AdjacencyOk(h.nodes, h.adjacency)
    && h.edges.keys == g.edges.keys[..n] && SameEdges(h.edges, g.edges)
    && Mirror(h.adjacency, h.edges)
  }

  lemma NewEntryInRow(u: Id, row: Neighbours, edges: JsMap<string, Edge>, e: Edge)
    requires RowMirrored(u, row, edges) && EdgeKey(e.from, e.to) !in edges.vals
    ensures RowMirrored(u, if u == e.from then row.Set(e.to, e) else row, edges.Set(EdgeKey(e.from, e.to), e))
  {
  }

  lemma NewEntryMirrored(adjacency: Adjacency, edges: JsMap<string, Edge>, e: Edge)
    requires Mirror(adjacency, edges) && e.from in adjacency && EdgeKey(e.from, e.to) !in edges.vals
    ensures Mirror(adjacency[e.from := adjacency[e.from].Set(e.to, e)], edges.Set(EdgeKey(e.from, e.to), e))
  {
    var adjacency', edges' := adjacency[e.from := adjacency[e.from].Set(e.to, e)], edges.Set(EdgeKey(e.from, e.to), e);
    forall u | u in adjacency' ensures RowMirrored(u, adjacency'[u], edges') {
      NewEntryInRow(u, adjacency[u], edges, e);
    }
    forall k | k in edges'.vals ensures Entry(adjacency', edges'.vals[k]) {
      if k != EdgeKey(e.from, e.to) {
        assert Entry(adjacency, edges.vals[k]);
        OldEntryStays(adjacency, edges, e, edges.vals[k]);
      }
    }
  }

  lemma OldEntryStays(adjacency: Adjacency, edges: JsMap<string, Edge>, e: Edge, f: Edge)
    requires Entry(adjacency, f) && RowMirrored(f.from, adjacency[f.from], edges)
    requires e.from in adjacency && EdgeKey(e.from, e.to) !in edges.vals
    ensures Entry(adjacency[e.from := adjacency[e.from].Set(e.to, e)], f)
  {
    assert EdgeKey(f.from, f.to) in edges.vals;
  }

  /** In a mirrored graph the weakest edge is always found. */
  lemma MirrorEvicts(nodes: Nodes, g: Graph, u: Id)
    requires AdjacencyOk(g.nodes, g.adjacency) && Mirror(g.adjacency, g.edges) && "" !in g.nodes.vals
    requires u in g.adjacency && Degree(g, u) >= 1
    ensures Evictable(g, u)
  {
    assert RowOk(g.nodes, u, g.adjacency[u]) && RowMirrored(u, g.adjacency[u], g.edges);
  }

  // ---------- One edge ----------

  lemma ExportedEdge(g: Graph, n: nat)
    requires AdjacencyOk(g.nodes, g.adjacency) && EdgesOk(g.edges) && n < g.edges.Size()
    requires forall k :: k in g.edges.vals ==> Entry(g.adjacency, g.edges.vals[k])
    ensures var e := ValuesOf(g.edges)[n];
      && EdgeKey(e.from, e.to) == g.edges.keys[n] && e.weight == Clamp(e.weight)
      && g.edges.keys[n] in g.edges.vals && g.edges.vals[g.edges.keys[n]] == e
      && g.nodes.Has(e.from) && g.nodes.Has(e.to) && e.from in g.adjacency && e.to in g.adjacency[e.from].vals
  {
    var k := g.edges.keys[n];
    assert k in g.edges.keys;
    var e := g.edges.vals[k];
    assert Entry(g.adjacency, e) && RowOk(g.nodes, e.from, g.adjacency[e.from]);
  }

  lemma NotYetIn(g: Graph, n: nat, h: Graph)
    requires n < g.edges.Size() && h.edges.keys == g.edges.keys[..n]
    ensures g.edges.keys[n] !in h.edges.vals
  {
    assert g.edges.keys[n] !in h.edges.keys;
  }

  /** Edge n of the export is new to the first n. */
  lemma NextEdge(cfg: Config, g: Graph, n: nat, h: Graph)
    requires Exportable(cfg, g) && n < g.edges.Size() && Synced(g, n, h)
    ensures var e := ValuesOf(g.edges)[n];
      && EdgeKey(e.from, e.to) !in h.edges.vals && h.nodes.Has(e.from) && h.nodes.Has(e.to)
      && e.from in h.adjacency && e.to !in h.adjacency[e.from].vals
  {
    ExportedEdge(g, n);
    NotYetIn(g, n, h);
    var e := ValuesOf(g.edges)[n];
    assert e.from in h.adjacency && RowMirrored(e.from, h.adjacency[e.from], h.edges);
  }

  /** A node is full during the import exactly when an edge is evicted for the next one. */
  lemma EvictsWhenFull(cfg: Config, g: Graph, n: nat, h: Graph, now: int)
    requires Exportable(cfg, g) && "" !in g.nodes.vals && n < g.edges.Size() && Synced(g, n, h)
    requires cfg.maxEdgesPerNode >= 1
    ensures var e := Stamped(ValuesOf(g.edges)[n], now);
      MakesRoom(cfg, h, e) <==> Degree(h, e.from) >= cfg.maxEdgesPerNode
  {
    NextEdge(cfg, g, n, h);
    var e := Stamped(ValuesOf(g.edges)[n], now);
    RoomForNew(cfg, h, e);
    if Degree(h, e.from) >= 1 {
      MirrorEvicts(h.nodes, h, e.from);
    }
  }

  ghost predicate InStep(cfg: Config, g: Graph, n: nat, h: Graph) {
    Synced(g, n, h) && Bounded(cfg, h)
  }

  lemma SameEdgesGrow(edges: JsMap<string, Edge>, all: JsMap<string, Edge>, k: string, e: Edge)
    requires SameEdges(edges, all) && k in all.vals && SameEdge(e, all.vals[k])
    ensures SameEdges(edges.Set(k, e), all)
  {
  }

  lemma BoundedRow(cfg: Config, adjacency: Adjacency, e: Edge)
    requires e.from in adjacency && adjacency[e.from].Size() < cfg.maxEdgesPerNode
    requires forall u :: u in adjacency ==> adjacency[u].Size() <= cfg.maxEdgesPerNode
    ensures var adjacency' := adjacency[e.from := adjacency[e.from].Set(e.to, e)];
      forall u :: u in adjacency' ==> adjacency'[u].Size() <= cfg.maxEdgesPerNode
  {
  }

  /** An edge for which there is room is simply added. */
  function Extended(h: Graph, e: Edge): Graph
    requires e.from in h.adjacency
  {
    h.(edges := h.edges.Set(EdgeKey(e.from, e.to), e), adjacency :=
      h.adjacency[e.from := h.adjacency[e.from].Set(e.to, e)])
  }

  lemma ConnectsWithRoom(cfg: Config, g: Graph, n: nat, h: Graph, now: int)
    requires Exportable(cfg, g) && n < g.edges.Size() && Synced(g, n, h) && cfg.maxEdgesPerNode >= 1
    requires Degree(h, ValuesOf(g.edges)[n].from) < cfg.maxEdgesPerNode
    ensures var e := Stamped(ValuesOf(g.edges)[n], now);
      e.from in h.adjacency && ConnectEdge(cfg, h, e) == Extended(h, e)
  {
    var e := Stamped(ValuesOf(g.edges)[n], now);
    ExportedEdge(g, n);
    NextEdge(cfg, g, n, h);
    ConnectRow(cfg, h, e);
  }

  lemma ExtendedInStep(cfg: Config, g: Graph, n: nat, h: Graph, e: Edge)
    requires n < g.edges.Size() && InStep(cfg, g, n, h)
    requires e.from in h.adjacency && h.nodes.Has(e.to) && h.adjacency[e.from].Size() < cfg.maxEdgesPerNode
    requires EdgeKey(e.from, e.to) == g.edges.keys[n] && g.edges.keys[n] in g.edges.vals
    requires SameEdge(e, g.edges.vals[g.edges.keys[n]])
    ensures InStep(cfg, g, n + 1, Extended(h, e))
  {
    NotYetIn(g, n, h);
    NextKey(g.edges, n, h.edges, e);
    NewEntryMirrored(h.adjacency, h.edges, e);
    SameEdgesGrow(h.edges, g.edges, EdgeKey(e.from, e.to), e);
    SetKeepsAdjacency(h.nodes, h.adjacency, e);
    BoundedRow(cfg, h.adjacency, e);
    InStepOfParts(cfg, g, n + 1, Extended(h, e));
  }

  lemma NextKey(all: JsMap<string, Edge>, n: nat, edges: JsMap<string, Edge>, e: Edge)
    requires n < all.Size() && edges.keys == all.keys[..n] && EdgeKey(e.from, e.to) == all.keys[n]
    requires all.keys[n] !in edges.vals
    ensures edges.Set(EdgeKey(e.from, e.to), e).keys == all.keys[..n + 1]
  {
    assert all.keys[..n + 1] == all.keys[..n] + [all.keys[n]];
  }

  lemma InStepOfParts(cfg: Config, g: Graph, n: nat, h: Graph)
    requires n <= g.edges.Size() && h.nodes == g.nodes && AdjacencyOk(h.nodes, h.adjacency)
    requires h.edges.keys == g.edges.keys[..n] && SameEdges(h.edges, g.edges)
    requires Mirror(h.adjacency, h.edges) && forall u :: u in h.adjacency ==>
      h.adjacency[u].Size() <= cfg.maxEdgesPerNode
    ensures InStep(cfg, g, n, h)
  {
  }

  lemma EdgeConnected(cfg: Config, g: Graph, n: nat, h: Graph, now: int)
    requires Exportable(cfg, g) && n < g.edges.Size() && InStep(cfg, g, n, h) && cfg.maxEdgesPerNode >= 1
    requires Degree(h, ValuesOf(g.edges)[n].from) < cfg.maxEdgesPerNode
    ensures InStep(cfg, g, n + 1, ConnectEdge(cfg, h, Stamped(ValuesOf(g.edges)[n], now)))
  {
    ConnectsWithRoom(cfg, g, n, h, now);
    ExportedEdge(g, n);
    NextEdge(cfg, g, n, h);
    ExtendedInStep(cfg, g, n, h, Stamped(ValuesOf(g.edges)[n], now));
  }

  lemma SwapEntries(edges: JsMap<string, Edge>, k: string, e: Edge, j: string)
    requires k !in edges.vals && j in edges.vals
    ensures edges.Set(k, e).Delete(j).Size() == edges.Size()
  {
  }

  /** An eviction loses an edge for good. */
  lemma EdgeEvicted(cfg: Config, g: Graph, n: nat, h: Graph, now: int)
    requires Exportable(cfg, g) && "" !in g.nodes.vals && n < g.edges.Size() && Synced(g, n, h)
    requires cfg.maxEdgesPerNode >= 1
    requires Degree(h, ValuesOf(g.edges)[n].from) >= cfg.maxEdgesPerNode
    ensures ConnectEdge(cfg, h, Stamped(ValuesOf(g.edges)[n], now)).edges.Size() == n
  {
    var e := Stamped(ValuesOf(g.edges)[n], now);
    ExportedEdge(g, n);
    NextEdge(cfg, g, n, h);
    EvictsWhenFull(cfg, g, n, h, now);
    ConnectRow(cfg, h, e);
    MirrorEvicts(h.nodes, h, e.from);
    SwapEntries(h.edges, EdgeKey(e.from, e.to), e, EdgeKey(e.from, Weakest(h, e.from).value));
  }

  lemma AtMostOneMore(cfg: Config, h: Graph, e: Edge)
    ensures ConnectEdge(cfg, h, e).edges.Size() <= h.edges.Size() + 1
  {
  }

  /** The import has lost nothing, or it is behind. */
  ghost predicate InStepOrBehind(cfg: Config, g: Graph, n: nat, h: Graph) {
    InStep(cfg, g, n, h) || h.edges.Size() < n
  }

  lemma EdgeImported(cfg: Config, g: Graph, n: nat, h: Graph, now: int)
    requires Exportable(cfg, g) && "" !in g.nodes.vals && n < g.edges.Size() && InStepOrBehind(cfg, g, n, h)
    requires cfg.maxEdgesPerNode >= 1
    ensures InStepOrBehind(cfg, g, n + 1, ConnectEdge(cfg, h, Stamped(ValuesOf(g.edges)[n], now)))
  {
    if h.edges.Size() < n {
      AtMostOneMore(cfg, h, Stamped(ValuesOf(g.edges)[n], now));
    } else if Degree(h, ValuesOf(g.edges)[n].from) < cfg.maxEdgesPerNode {
      EdgeConnected(cfg, g, n, h, now);
    } else {
      EdgeEvicted(cfg, g, n, h, now);
    }
  }

  /** Whatever each connection keeps holds after the second loop. */
  lemma {:induction false} LoopKeeps(cfg: Config, h: Graph, list: seq<Edge>, n: nat, clock: nat -> int,
      keeps: (nat, Graph) -> bool)
    requires n <= |list| && keeps(0, h)
    requires forall i: nat, x: Graph :: i < n && keeps(i, x) ==>
      keeps(i + 1, ConnectEdge(cfg, x, Stamped(list[i], clock(i))))
    ensures keeps(n, ImportEdges(cfg, h, list[..n], clock))
  {
    if n > 0 {
      LoopKeeps(cfg, h, list, n - 1, clock, keeps);
      assert list[..n][..n - 1] == list[..n - 1];
    }
  }

  lemma AllKeep(cfg: Config, h: Graph, list: seq<Edge>, clock: nat -> int, keeps: (nat, Graph) -> bool)
    requires keeps(0, h)
    requires forall i: nat, x: Graph :: i < |list| && keeps(i, x) ==>
      keeps(i + 1, ConnectEdge(cfg, x, Stamped(list[i], clock(i))))
    ensures keeps(|list|, ImportEdges(cfg, h, list, clock))
  {
    LoopKeeps(cfg, h, list, |list|, clock, keeps);
    assert list[..|list|] == list;
  }

  lemma EachImported(cfg: Config, g: Graph, clock: nat -> int)
    requires Exportable(cfg, g) && "" !in g.nodes.vals && cfg.maxEdgesPerNode >= 1
    ensures forall i: nat, x: Graph :: (i < g.edges.Size() && InStepOrBehind(cfg, g, i, x)
      ==> InStepOrBehind(cfg, g, i + 1, ConnectEdge(cfg, x, Stamped(ValuesOf(g.edges)[i], clock(i)))))
  {
    forall i: nat, x: Graph | i < g.edges.Size() && InStepOrBehind(cfg, g, i, x)
      ensures InStepOrBehind(cfg, g, i + 1, ConnectEdge(cfg, x, Stamped(ValuesOf(g.edges)[i], clock(i))))
    {
      EdgeImported(cfg, g, i, x, clock(i));
    }
  }

  lemma EdgesImported(cfg: Config, g: Graph, h: Graph, clock: nat -> int)
    requires Exportable(cfg, g) && "" !in g.nodes.vals && InStep(cfg, g, 0, h) && cfg.maxEdgesPerNode >= 1
    ensures InStepOrBehind(cfg, g, g.edges.Size(), ImportEdges(cfg, h, ValuesOf(g.edges), clock))
  {
    EachImported(cfg, g, clock);
    AllKeep(cfg, h, ValuesOf(g.edges), clock, (i: nat, x: Graph) => InStepOrBehind(cfg, g, i, x));
  }

  // ---------- Without a full node ----------

  lemma SmallerRow(a: Neighbours, b: Neighbours, v: Id)
    requires v in b.vals && v !in a.vals && forall x :: x in a.vals ==> x in b.vals
    ensures a.Size() < b.Size()
  {
    SizeIsCardinality(a.keys);
    SizeIsCardinality(b.keys);
    var s, t := set x | x in a.keys, set x | x in b.keys;
    assert v in t && v !in s && s <= t;
    assert |s| < |t| by {
      assert s <= t - {v};
      SubsetSize(s, t - {v});
    }
  }

  lemma {:induction false} SubsetSize<T>(s: set<T>, t: set<T>)
    requires s <= t
    ensures |s| <= |t|
    decreases s
  {
    if x :| x in s {
      SubsetSize(s - {x}, t - {x});
    }
  }

  /** What has been imported of a row was in the row. */
  lemma ImportedRow(g: Graph, n: nat, h: Graph, u: Id)
    requires Synced(g, n, h) && u in h.adjacency && u in g.adjacency
    requires forall k :: k in g.edges.vals ==> Entry(g.adjacency, g.edges.vals[k])
    ensures SameEdges(h.adjacency[u], g.adjacency[u])
  {
    var row := h.adjacency[u];
    assert RowMirrored(u, row, h.edges) && RowOk(h.nodes, u, row);
    forall v | v in row.vals ensures v in g.adjacency[u].vals && SameEdge(row.vals[v], g.adjacency[u].vals[v]) {
      var k := EdgeKey(u, v);
      assert Entry(g.adjacency, g.edges.vals[k]);
    }
  }

  /** As long as no node has too many edges, there is always room. */
  lemma RoomLeft(cfg: Config, g: Graph, n: nat, h: Graph)
    requires Exportable(cfg, g) && Bounded(cfg, g) && n < g.edges.Size() && Synced(g, n, h)
    ensures Degree(h, ValuesOf(g.edges)[n].from) < cfg.maxEdgesPerNode
  {
    var e := ValuesOf(g.edges)[n];
    ExportedEdge(g, n);
    NextEdge(cfg, g, n, h);
    ImportedRow(g, n, h, e.from);
    SmallerRow(h.adjacency[e.from], g.adjacency[e.from], e.to);
  }

  lemma EdgeFits(cfg: Config, g: Graph, n: nat, h: Graph, now: int)
    requires Exportable(cfg, g) && Bounded(cfg, g) && n < g.edges.Size() && InStep(cfg, g, n, h)
    requires cfg.maxEdgesPerNode >= 1
    ensures InStep(cfg, g, n + 1, ConnectEdge(cfg, h, Stamped(ValuesOf(g.edges)[n], now)))
  {
    RoomLeft(cfg, g, n, h);
    EdgeConnected(cfg, g, n, h, now);
  }

  lemma EachFits(cfg: Config, g: Graph, clock: nat -> int)
    requires Exportable(cfg, g) && Bounded(cfg, g) && cfg.maxEdgesPerNode >= 1
    ensures forall i: nat, x: Graph :: (i < g.edges.Size() && InStep(cfg, g, i, x)
      ==> InStep(cfg, g, i + 1, ConnectEdge(cfg, x, Stamped(ValuesOf(g.edges)[i], clock(i)))))
  {
    forall i: nat, x: Graph | i < g.edges.Size() && InStep(cfg, g, i, x)
      ensures InStep(cfg, g, i + 1, ConnectEdge(cfg, x, Stamped(ValuesOf(g.edges)[i], clock(i))))
    {
      EdgeFits(cfg, g, i, x, clock(i));
    }
  }

  lemma NothingLost(cfg: Config, g: Graph, h: Graph, clock: nat -> int)
    requires Exportable(cfg, g) && Bounded(cfg, g) && InStep(cfg, g, 0, h) && cfg.maxEdgesPerNode >= 1
    ensures InStep(cfg, g, g.edges.Size(), ImportEdges(cfg, h, ValuesOf(g.edges), clock))
  {
    EachFits(cfg, g, clock);
    AllKeep(cfg, h, ValuesOf(g.edges), clock, (i: nat, x: Graph) => InStep(cfg, g, i, x));
  }

  /** Whatever is imported, adjacency and indices are sound afterwards. */
  lemma ImportKeepsGraph(cfg: Config, data: Json, clock: nat -> int)
    ensures GraphOk(cfg, FromJson(cfg, data, clock))
  {
    var n, h := |data.edges|, ImportNodes(cfg, data.nodes);
    ImportNodesKeepsGraph(cfg, data.nodes);
    var keeps := (i: nat, x: Graph) => GraphOk(cfg, x);
    forall i: nat, x: Graph | i < n && keeps(i, x)
      ensures keeps(i + 1, ConnectEdge(cfg, x, Stamped(data.edges[i], clock(i))))
    {
      var e := data.edges[i];
      ConnectKeepsGraph(cfg, x, e.from, e.to, e.kind, e.weight, e.metadata, clock(i));
    }
    AllKeep(cfg, h, data.edges, clock, keeps);
  }

  lemma {:induction false} ImportNodesKeepsGraph(cfg: Config, nodes: seq<Node>)
    ensures GraphOk(cfg, ImportNodes(cfg, nodes))
  {
    if nodes != [] {
      ImportNodesKeepsGraph(cfg, nodes[..|nodes| - 1]);
      PutNodeKeepsGraph(cfg, ImportNodes(cfg, nodes[..|nodes| - 1]), nodes[|nodes| - 1]);
    }
  }

  // ---------- The round trip ----------

  lemma OriginalRow(g: Graph, h: Graph, u: Id)
    requires AdjacencyOk(g.nodes, g.adjacency) && Synced(g, g.edges.Size(), h) && u in h.adjacency && u in g.adjacency
    requires RowMirrored(u, g.adjacency[u], g.edges)
    ensures SameEdges(g.adjacency[u], h.adjacency[u])
  {
    var row := g.adjacency[u];
    assert g.edges.keys[..g.edges.Size()] == g.edges.keys;
    assert RowOk(g.nodes, u, row);
    forall v | v in row.vals ensures v in h.adjacency[u].vals && SameEdge(row.vals[v], h.adjacency[u].vals[v]) {
      var k := EdgeKey(u, v);
      assert k in g.edges.keys;
      assert k in h.edges.vals;
      assert Entry(h.adjacency, h.edges.vals[k]);
    }
  }

  lemma SyncedIsRestored(cfg: Config, g: Graph, h: Graph)
    requires Exportable(cfg, g) && Synced(g, g.edges.Size(), h)
    ensures Restored(g, h)
  {
    assert g.edges.keys[..g.edges.Size()] == g.edges.keys;
    forall u | u in g.adjacency
      ensures SameEdges(h.adjacency[u], g.adjacency[u]) && SameEdges(g.adjacency[u], h.adjacency[u])
    {
      ImportedRow(g, g.edges.Size(), h, u);
      OriginalRow(g, h, u);
    }
  }

  lemma SameRowSize(a: Neighbours, b: Neighbours)
    requires SameEdges(a, b) && SameEdges(b, a)
    ensures a.Size() == b.Size()
  {
    SizeIsCardinality(a.keys);
    SizeIsCardinality(b.keys);
    assert (set x | x in a.keys) == (set x | x in b.keys);
  }

  lemma RestoredBound(cfg: Config, g: Graph, h: Graph)
    requires Restored(g, h) && Bounded(cfg, h)
    ensures Bounded(cfg, g)
  {
    forall u | u in g.adjacency ensures g.adjacency[u].Size() <= cfg.maxEdgesPerNode {
      SameRowSize(h.adjacency[u], g.adjacency[u]);
    }
  }

  lemma AllNodes(a: Nodes, b: Nodes)
    requires a.keys == b.keys && forall id :: id in a.vals ==> id in b.vals && a.vals[id] == b.vals[id]
    ensures a == b
  {
    assert forall id :: id in b.vals ==> id in a.keys;
    assert a.vals == b.vals;
  }

  lemma NoEntries(adjacency: Adjacency, edges: JsMap<string, Edge>)
    requires edges == EmptyMap() && forall u :: u in adjacency ==> adjacency[u] == EmptyMap()
    ensures Mirror(adjacency, edges)
  {
  }

  lemma ImportStarts(cfg: Config, g: Graph)
    requires Exportable(cfg, g) && cfg.maxEdgesPerNode >= 0
    ensures InStep(cfg, g, 0, ImportNodes(cfg, ValuesOf(g.nodes)))
  {
    var n := g.nodes.Size();
    NodesImported(cfg, g, n);
    assert ValuesOf(g.nodes)[..n] == ValuesOf(g.nodes) && g.nodes.keys[..n] == g.nodes.keys;
    StartInStep(cfg, g, ImportNodes(cfg, ValuesOf(g.nodes)));
  }

  lemma StartInStep(cfg: Config, g: Graph, h: Graph)
    requires NodesUpTo(g, g.nodes.Size(), h) && AdjacencyOk(h.nodes, h.adjacency) && cfg.maxEdgesPerNode >= 0
    ensures InStep(cfg, g, 0, h)
  {
    assert g.nodes.keys[..g.nodes.Size()] == g.nodes.keys;
    AllNodes(h.nodes, g.nodes);
    NoEntries(h.adjacency, h.edges);
    assert EmptyMap<string, Edge>().keys == g.edges.keys[..0];
  }

  /** Importing an export restores a mirrored graph in which no node has more edges than allowed. */
  lemma BoundedIsRestored(cfg: Config, g: Graph, clock: nat -> int)
    requires Exportable(cfg, g) && cfg.maxEdgesPerNode >= 1 && Bounded(cfg, g)
    ensures Restored(g, FromJson(cfg, ToJson(g), clock))
  {
    var h := ImportNodes(cfg, ValuesOf(g.nodes));
    ImportStarts(cfg, g);
    NothingLost(cfg, g, h, clock);
    SyncedIsRestored(cfg, g, ImportEdges(cfg, h, ValuesOf(g.edges), clock));
  }

  /** It restores no other one, as long as no node has the empty id, which is never evicted. */
  lemma RoundTripIff(cfg: Config, g: Graph, clock: nat -> int)
    requires Exportable(cfg, g) && cfg.maxEdgesPerNode >= 1 && "" !in g.nodes.vals
    ensures Restored(g, FromJson(cfg, ToJson(g), clock)) <==> Bounded(cfg, g)
  {
    if Bounded(cfg, g) {
      BoundedIsRestored(cfg, g, clock);
    }
    var h := ImportNodes(cfg, ValuesOf(g.nodes));
    ImportStarts(cfg, g);
    EdgesImported(cfg, g, h, clock);
    if Restored(g, ImportEdges(cfg, h, ValuesOf(g.edges), clock)) {
      RestoredBound(cfg, g, ImportEdges(cfg, h, ValuesOf(g.edges), clock));
    }
  }
}
