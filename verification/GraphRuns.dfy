/**
 src/analysis/memory-qr.js, over whole runs: integrity, what a connection does to the edges of a node,
 and which runs keep every adjacency entry in the edge map and every node within its bound.
 */
module GraphRuns {
  import opened JsCollections
  import opened MemoryGraph

  datatype Op =
    | AddNode(id: Id, kind: string, content: string, metadata: string, now: int, accessed: int)
    | GetNode(id: Id, now: int)
    | RemoveNode(id: Id)
    | Connect(from: Id, to: Id, relationship: string, weight: real, metadata: string, now: int)
    | Disconnect(from: Id, to: Id)
    | Prune(options: PruneOptions, now: int)
    | Clear

  function Apply(cfg: Config, g: Graph, op: Op): Graph {
    match op
    case AddNode(id, kind, content, metadata, now, accessed) => AddNodeStep(cfg, g, id, kind, content, metadata, now,
      accessed)
    case GetNode(id, now) => GetNodeStep(g, id, now).0
    case RemoveNode(id) => RemoveNodeStep(cfg, g, id).0
    case Connect(from, to, kind, weight, metadata, now) => ConnectStep(cfg, g, from, to, kind, weight, metadata, now).0
    case Disconnect(from, to) => DisconnectStep(g, from, to).0
    case Prune(o, now) => PruneStep(cfg, g, o, now).0
    case Clear => EMPTY
  }

  function Run(cfg: Config, ops: seq<Op>): Graph {
    if ops == [] then EMPTY else Apply(cfg, Run(cfg, ops[..|ops| - 1]), ops[|ops| - 1])
  }

  lemma PruneKeepsGraph(cfg: Config, g: Graph, o: PruneOptions, now: int)
    requires GraphOk(cfg, g)
    ensures GraphOk(cfg, PruneStep(cfg, g, o, now).0)
  {
    PruneEdgesKeepsGraph(cfg, o, g, g.edges.keys, now);
    var g1 := PruneEdges(o, g, g.edges.keys, now).0;
    PruneNodesKeepsGraph(cfg, o, g1, g1.nodes.keys, now);
  }

  lemma ApplyKeepsGraph(cfg: Config, g: Graph, op: Op)
    requires GraphOk(cfg, g)
    ensures GraphOk(cfg, Apply(cfg, g, op))
  {
    match op
    case AddNode(id, kind, content, metadata, now, accessed) =>
      AddNodeKeepsGraph(cfg, g, id, kind, content, metadata, now, accessed);
    case GetNode(id, now) => GetNodeKeepsGraph(cfg, g, id, now);
    case RemoveNode(id) => RemoveNodeKeepsGraph(cfg, g, id);
    case Connect(from, to, kind, weight, metadata, now) =>
      ConnectKeepsGraph(cfg, g, from, to, kind, weight, metadata, now);
    case Disconnect(from, to) => DisconnectKeepsGraph(cfg, g, from, to);
    case Prune(o, now) => PruneKeepsGraph(cfg, g, o, now);
    case Clear =>
  }

  /** Adjacency, indices and edge keys are sound after every run. */
  lemma {:induction false} RunKeepsGraph(cfg: Config, ops: seq<Op>)
    ensures GraphOk(cfg, Run(cfg, ops))
  {
    if ops != [] {
      RunKeepsGraph(cfg, ops[..|ops| - 1]);
      ApplyKeepsGraph(cfg, Run(cfg, ops[..|ops| - 1]), ops[|ops| - 1]);
    }
  }

  // ---------- Edges per node ----------

  function Degree(g: Graph, u: Id): nat { Out(g, u).Size() }

  lemma NoKeys(row: Neighbours)
    requires row.keys == []
    ensures row == EmptyMap()
  {
    assert forall v :: v in row.vals ==> v in row.keys;
    assert row.vals == map[];
  }

  lemma KeyOfSameSource(from: Id, v: Id, w: Id)
    requires EdgeKey(from, v) == EdgeKey(from, w)
    ensures v == w
  {
    assert EdgeKey(from, v)[|from| + 2..] == v && EdgeKey(from, w)[|from| + 2..] == w;
  }

  function Weakest(g: Graph, u: Id): Option<Id> { WeakestOf(Out(g, u), Out(g, u).Size()) }

  /** The guard of the branch that must make room: the weakest edge is found by its key, or no room is needed. */
  predicate Fits(cfg: Config, g: Graph, from: Id, to: Id) {
    || Degree(g, from) < cfg.maxEdgesPerNode
    || to in Out(g, from).vals
    || Evictable(g, from)
  }

  /** Whether the weakest edge of `from` is found under its key. */
  predicate Evictable(g: Graph, from: Id) {
    Weakest(g, from).Some? && Weakest(g, from).value != "" && EdgeKey(from, Weakest(g, from).value) in g.edges.vals
  }

  lemma EvictRow(g: Graph, from: Id)
    requires from in g.adjacency
    ensures var g', w := EvictWeakestStep(g, from), Weakest(g, from);
      g' == if Evictable(g, from) then
              g.(edges := g.edges.Delete(EdgeKey(from, w.value)), adjacency :=
                g.adjacency[from := g.adjacency[from].Delete(w.value)])
            else g
  {
  }

  function ConnectEdge(cfg: Config, g: Graph, e: Edge): Graph {
    ConnectStep(cfg, g, e.from, e.to, e.kind, e.weight, e.metadata, e.timestamp).0
  }

  /** The graph in which connect looks for an edge to evict: the new edge is in the edge map already. */
  function WithEdge(g: Graph, e: Edge): Graph { g.(edges := g.edges.Set(EdgeKey(e.from, e.to), e)) }

  function MakesRoom(cfg: Config, g: Graph, e: Edge): bool {
    Degree(g, e.from) >= cfg.maxEdgesPerNode && Evictable(WithEdge(g, e), e.from)
  }

  /** The adjacency list that connect leaves behind, and the edge map. */
  lemma ConnectRow(cfg: Config, g: Graph, e: Edge)
    requires AdjacencyOk(g.nodes, g.adjacency) && g.nodes.Has(e.from) && g.nodes.Has(e.to)
    requires e.weight == Clamp(e.weight)
    ensures var g', key := ConnectEdge(cfg, g, e), EdgeKey(e.from, e.to);
      var row, w := g.adjacency[e.from], Weakest(g, e.from);
      g' == if MakesRoom(cfg, g, e) then
              g.(edges := g.edges.Set(key, e).Delete(EdgeKey(e.from, w.value)),
                 adjacency := g.adjacency[e.from := row.Delete(w.value).Set(e.to, e)])
            else g.(edges := g.edges.Set(key, e), adjacency := g.adjacency[e.from := row.Set(e.to, e)])
  {
    var g1 := WithEdge(g, e);
    EvictRow(g1, e.from);
    var row := g.adjacency[e.from];
    if MakesRoom(cfg, g, e) {
      var left := row.Delete(Weakest(g, e.from).value);
      Overwrite(g.adjacency, e.from, left, left.Set(e.to, e));
    }
  }

  lemma Overwrite<K, V>(m: map<K, V>, k: K, a: V, b: V)
    ensures m[k := a][k := b] == m[k := b]
  {
  }

  /** A new neighbour finds room exactly when the weakest edge is in the edge map under its key. */
  lemma RoomForNew(cfg: Config, g: Graph, e: Edge)
    requires e.from in g.adjacency && e.to !in g.adjacency[e.from].vals
    ensures Evictable(WithEdge(g, e), e.from) <==> Evictable(g, e.from)
  {
    if Weakest(g, e.from).Some? && EdgeKey(e.from, Weakest(g, e.from).value) == EdgeKey(e.from, e.to) {
      KeyOfSameSource(e.from, Weakest(g, e.from).value, e.to);
    }
  }

  /** One call keeps a node within its bound exactly when the new edge fits. */
  lemma ConnectKeepsBoundIff(cfg: Config, g: Graph, from: Id, to: Id, kind: string, weight: real, metadata: string,
      now: int)
    requires GraphOk(cfg, g) && g.nodes.Has(from) && g.nodes.Has(to)
    requires cfg.maxEdgesPerNode >= 1 && Degree(g, from) <= cfg.maxEdgesPerNode
    ensures Degree(ConnectStep(cfg, g, from, to, kind, weight, metadata, now).0, from) <= cfg.maxEdgesPerNode
       <==> Fits(cfg, g, from, to)
  {
    var e := Edge(from, to, kind, Clamp(weight), metadata, now);
    ConnectRow(cfg, g, e);
    if to !in g.adjacency[from].vals {
      RoomForNew(cfg, g, e);
    }
  }

  /** Whether connecting again to `to` evicts `to` itself: it is the weakest neighbour of a full node. */
  predicate EvictsItself(cfg: Config, g: Graph, from: Id, to: Id) {
    Degree(g, from) >= cfg.maxEdgesPerNode && Weakest(g, from) == Some(to) && to != ""
  }

  /**
   A connection leaves its edge in the adjacency list, and leaves it out of the edge map exactly when it
   reconnects the weakest neighbour of a full node: the eviction then finds the entry just made.
   */
  lemma ReconnectDropsEntryIff(cfg: Config, g: Graph, e: Edge)
    requires AdjacencyOk(g.nodes, g.adjacency) && g.nodes.Has(e.from) && g.nodes.Has(e.to)
    requires e.weight == Clamp(e.weight)
    ensures var g' := ConnectEdge(cfg, g, e);
      && e.from in g'.adjacency && e.to in g'.adjacency[e.from].vals && g'.adjacency[e.from].vals[e.to] == e
      && (EdgeKey(e.from, e.to) !in g'.edges.vals <==> EvictsItself(cfg, g, e.from, e.to))
  {
    ConnectRow(cfg, g, e);
    EvictsItselfMakesRoom(cfg, g, e);
    if MakesRoom(cfg, g, e) {
      DroppedIff(g.edges, e, Weakest(g, e.from).value);
    }
  }

  lemma EvictsItselfMakesRoom(cfg: Config, g: Graph, e: Edge)
    ensures EvictsItself(cfg, g, e.from, e.to) <==> MakesRoom(cfg, g, e) && Weakest(g, e.from) == Some(e.to)
  {
  }

  lemma DroppedIff(edges: JsMap<string, Edge>, e: Edge, w: Id)
    ensures EdgeKey(e.from, e.to) !in edges.Set(EdgeKey(e.from, e.to), e).Delete(EdgeKey(e.from, w)).vals <==> w == e.to
  {
    if EdgeKey(e.from, w) == EdgeKey(e.from, e.to) {
      KeyOfSameSource(e.from, w, e.to);
    }
  }

  // ---------- Runs that keep the bound ----------

  /** An id that no edge key can be confused over, and that is not falsy. */
  ghost predicate PlainId(id: Id) {
    id != "" && forall i :: 0 <= i < |id| - 1 ==> !(id[i] == '-' && id[i + 1] == '>')
  }

  lemma KeyWithLongerSource(u: Id, v: Id, a: Id, b: Id)
    requires EdgeKey(u, v) == EdgeKey(a, b) && |a| >= |u| + 2
    ensures !PlainId(v)
  {
    var key, i := EdgeKey(u, v), |a| - |u| - 2;
    assert key[|a|] == '-' && key[|a| + 1] == '>' && v[i] == key[|a|] && v[i + 1] == key[|a| + 1];
  }

  lemma KeyWithShorterSource(u: Id, v: Id, a: Id, b: Id)
    requires EdgeKey(u, v) == EdgeKey(a, b) && |a| < |u| - 1
    ensures !PlainId(u)
  {
    var key := EdgeKey(u, v);
    assert key[|a|] == '-' && key[|a| + 1] == '>' && u[|a|] == key[|a|] && u[|a| + 1] == key[|a| + 1];
  }

  lemma KeyOfPlainIds(u: Id, v: Id, a: Id, b: Id)
    requires PlainId(u) && PlainId(v) && EdgeKey(u, v) == EdgeKey(a, b)
    ensures a == u && b == v
  {
    var key := EdgeKey(u, v);
    if |a| >= |u| + 2 {
      KeyWithLongerSource(u, v, a, b);
    } else if |a| < |u| - 1 {
      KeyWithShorterSource(u, v, a, b);
    } else {
      assert key[|u|] == '-' && key[|u| + 1] == '>' && key[|a|] == '-' && key[|a| + 1] == '>';
      assert |a| == |u|;
      assert key[..|u|] == u && key[..|a|] == a && key[|u| + 2..] == v && key[|a| + 2..] == b;
    }
  }

  ghost predicate CoveredRow(u: Id, row: Neighbours, edges: JsMap<string, Edge>) {
    forall v :: v in row.vals ==> EdgeKey(u, v) in edges.vals
  }

  ghost predicate PlainIds(nodes: Nodes) { forall id :: id in nodes.vals ==> PlainId(id) }

  /** Every adjacency entry has its key in the edge map, and ids are plain. */
  ghost predicate Covered(nodes: Nodes, adjacency: Adjacency, edges: JsMap<string, Edge>) {
    PlainIds(nodes) && forall u :: u in adjacency ==> CoveredRow(u, adjacency[u], edges)
  }

  /** Deleting an edge by its key uncovers only the entry that is deleted with it. */
  lemma DeleteKeepsRowCovered(nodes: Nodes, u: Id, row: Neighbours, edges: JsMap<string, Edge>, from: Id, to: Id)
    requires PlainIds(nodes) && u in nodes.vals && RowOk(nodes, u, row) && CoveredRow(u, row, edges)
    ensures CoveredRow(u, if u == from then row.Delete(to) else row, edges.Delete(EdgeKey(from, to)))
  {
    var row' := if u == from then row.Delete(to) else row;
    forall v | v in row'.vals ensures EdgeKey(u, v) in edges.Delete(EdgeKey(from, to)).vals {
      assert v in row.vals;
      if EdgeKey(u, v) == EdgeKey(from, to) {
        KeyOfPlainIds(u, v, from, to);
      }
    }
  }

  lemma DeleteKeepsCovered(nodes: Nodes, adjacency: Adjacency, edges: JsMap<string, Edge>, from: Id, to: Id)
    requires AdjacencyOk(nodes, adjacency) && Covered(nodes, adjacency, edges)
    ensures Covered(nodes, if from in adjacency then adjacency[from := adjacency[from].Delete(to)]
      else adjacency, edges.Delete(EdgeKey(from, to)))
  {
    var adjacency' := if from in adjacency then adjacency[from := adjacency[from].Delete(to)] else adjacency;
    forall u | u in adjacency' ensures CoveredRow(u, adjacency'[u], edges.Delete(EdgeKey(from, to))) {
      DeleteKeepsRowCovered(nodes, u, adjacency[u], edges, from, to);
    }
  }

  lemma SetKeepsCovered(nodes: Nodes, adjacency: Adjacency, edges: JsMap<string, Edge>, e: Edge)
    requires Covered(nodes, adjacency, edges) && e.from in adjacency && EdgeKey(e.from, e.to) in edges.vals
    ensures Covered(nodes, adjacency[e.from := adjacency[e.from].Set(e.to, e)], edges)
  {
    var adjacency' := adjacency[e.from := adjacency[e.from].Set(e.to, e)];
    forall u | u in adjacency' ensures CoveredRow(u, adjacency'[u], edges) {
      assert CoveredRow(u, adjacency[u], edges);
    }
  }

  ghost predicate Bounded(cfg: Config, g: Graph) {
    forall u :: u in g.adjacency ==> g.adjacency[u].Size() <= cfg.maxEdgesPerNode
  }

  ghost predicate Tidy(cfg: Config, g: Graph) {
    GraphOk(cfg, g) && Covered(g.nodes, g.adjacency, g.edges) && Bounded(cfg, g)
  }

  /** A call that adds plain ids only, and does not reconnect the weakest neighbour of a full node. */
  ghost predicate Careful(cfg: Config, g: Graph, op: Op) {
    match op
    case AddNode(id, _, _, _, _, _) => PlainId(id)
    case Connect(from, to, _, _, _, _) => !EvictsItself(cfg, g, from, to)
    case _ => true
  }

  lemma WithEdgeKeepsCovered(nodes: Nodes, adjacency: Adjacency, edges: JsMap<string, Edge>, e: Edge)
    requires Covered(nodes, adjacency, edges)
    ensures Covered(nodes, adjacency, edges.Set(EdgeKey(e.from, e.to), e))
  {
    forall u | u in adjacency ensures CoveredRow(u, adjacency[u], edges.Set(EdgeKey(e.from, e.to), e)) {
      assert CoveredRow(u, adjacency[u], edges);
    }
  }

  lemma ConnectKeepsCovered(cfg: Config, g: Graph, e: Edge)
    requires AdjacencyOk(g.nodes, g.adjacency) && Covered(g.nodes, g.adjacency, g.edges)
    requires g.nodes.Has(e.from) && g.nodes.Has(e.to) && e.weight == Clamp(e.weight)
    requires !EvictsItself(cfg, g, e.from, e.to)
    ensures var g' := ConnectEdge(cfg, g, e);
      Covered(g'.nodes, g'.adjacency, g'.edges)
  {
    ConnectRow(cfg, g, e);
    var w, edges := Weakest(g, e.from), g.edges.Set(EdgeKey(e.from, e.to), e);
    WithEdgeKeepsCovered(g.nodes, g.adjacency, g.edges, e);
    if MakesRoom(cfg, g, e) {
      DeleteKeepsCovered(g.nodes, g.adjacency, edges, e.from, w.value);
      var adjacency := g.adjacency[e.from := g.adjacency[e.from].Delete(w.value)];
      if EdgeKey(e.from, w.value) == EdgeKey(e.from, e.to) {
        KeyOfSameSource(e.from, w.value, e.to);
      }
      SetKeepsCovered(g.nodes, adjacency, edges.Delete(EdgeKey(e.from, w.value)), e);
      assert adjacency[e.from := adjacency[e.from].Set(e.to, e)]
        == g.adjacency[e.from := g.adjacency[e.from].Delete(w.value).Set(e.to, e)];
    } else {
      SetKeepsCovered(g.nodes, g.adjacency, edges, e);
    }
  }

  lemma ConnectKeepsBounded(cfg: Config, g: Graph, e: Edge)
    requires cfg.maxEdgesPerNode >= 1 && Tidy(cfg, g) && e.weight == Clamp(e.weight)
    requires g.nodes.Has(e.from) && g.nodes.Has(e.to)
    ensures Bounded(cfg, ConnectEdge(cfg, g, e))
  {
    ConnectRow(cfg, g, e);
    ConnectKeepsBoundIff(cfg, g, e.from, e.to, e.kind, e.weight, e.metadata, e.timestamp);
    WeakestIsCovered(g, e.from);
    var g' := ConnectEdge(cfg, g, e);
    forall u | u in g'.adjacency ensures g'.adjacency[u].Size() <= cfg.maxEdgesPerNode {
      if u != e.from {
        assert g'.adjacency[u] == g.adjacency[u];
      } else {
        assert Degree(g', e.from) <= cfg.maxEdgesPerNode;
      }
    }
  }

  lemma WeakestIsCovered(g: Graph, from: Id)
    requires AdjacencyOk(g.nodes, g.adjacency) && Covered(g.nodes, g.adjacency, g.edges) && from in g.adjacency
    ensures Degree(g, from) >= 1 ==> Evictable(g, from)
  {
    assert CoveredRow(from, g.adjacency[from], g.edges) && RowOk(g.nodes, from, g.adjacency[from]);
  }

  lemma DisconnectKeepsTidy(cfg: Config, g: Graph, from: Id, to: Id)
    requires Tidy(cfg, g)
    ensures Tidy(cfg, DisconnectStep(g, from, to).0)
  {
    if g.edges.Has(EdgeKey(from, to)) {
      DisconnectKeepsGraph(cfg, g, from, to);
      DeleteKeepsCovered(g.nodes, g.adjacency, g.edges, from, to);
      DeleteKeepsSizes(g.adjacency, from, to, cfg.maxEdgesPerNode);
    }
  }

  lemma DeleteKeepsSizes(adjacency: Adjacency, from: Id, to: Id, max: int)
    requires forall u :: u in adjacency ==> adjacency[u].Size() <= max
    ensures var adjacency' := if from in adjacency then adjacency[from := adjacency[from].Delete(to)] else adjacency;
      forall u :: u in adjacency' ==> adjacency'[u].Size() <= max
  {
  }

  lemma RemoveNodeKeepsTidy(cfg: Config, g: Graph, id: Id)
    requires Tidy(cfg, g)
    ensures Tidy(cfg, RemoveNodeStep(cfg, g, id).0)
  {
    RemoveNodeKeepsGraph(cfg, g, id);
    var g' := RemoveNodeStep(cfg, g, id).0;
    forall u | u in g'.adjacency
      ensures g'.adjacency[u].Size() <= cfg.maxEdgesPerNode && CoveredRow(u, g'.adjacency[u], g'.edges)
    {
      assert u in g.adjacency && CoveredRow(u, g.adjacency[u], g.edges);
    }
  }

  lemma AddNodeKeepsTidy(cfg: Config, g: Graph, id: Id, kind: string, content: string, metadata: string, now: int,
      accessed: int)
    requires cfg.maxEdgesPerNode >= 1 && Tidy(cfg, g) && PlainId(id)
    ensures Tidy(cfg, AddNodeStep(cfg, g, id, kind, content, metadata, now, accessed))
  {
    AddNodeKeepsGraph(cfg, g, id, kind, content, metadata, now, accessed);
    var oldest := OldestOf(g.nodes, g.nodes.Size());
    if oldest.Some? {
      RemoveNodeKeepsTidy(cfg, g, oldest.value);
    }
    var g1 := if g.nodes.Size() >= cfg.maxNodes && !g.nodes.Has(id) then EvictOldestStep(cfg, g) else g;
    assert Tidy(cfg, g1);
  }

  lemma {:induction false} PruneEdgesKeepsTidy(cfg: Config, o: PruneOptions, g: Graph, keys: seq<string>, now: int)
    requires Tidy(cfg, g)
    ensures Tidy(cfg, PruneEdges(o, g, keys, now).0)
  {
    if keys != [] {
      PruneEdgesKeepsTidy(cfg, o, g, keys[..|keys| - 1], now);
      var g1, k := PruneEdges(o, g, keys[..|keys| - 1], now).0, keys[|keys| - 1];
      if g1.edges.Has(k) {
        DisconnectKeepsTidy(cfg, g1, g1.edges.vals[k].from, g1.edges.vals[k].to);
      }
    }
  }

  lemma {:induction false} PruneNodesKeepsTidy(cfg: Config, o: PruneOptions, g: Graph, ids: seq<Id>, now: int)
    requires Tidy(cfg, g)
    ensures Tidy(cfg, PruneNodes(cfg, o, g, ids, now).0)
  {
    if ids != [] {
      PruneNodesKeepsTidy(cfg, o, g, ids[..|ids| - 1], now);
      RemoveNodeKeepsTidy(cfg, PruneNodes(cfg, o, g, ids[..|ids| - 1], now).0, ids[|ids| - 1]);
    }
  }

  lemma ConnectKeepsTidy(cfg: Config, g: Graph, e: Edge)
    requires cfg.maxEdgesPerNode >= 1 && Tidy(cfg, g) && e.weight == Clamp(e.weight)
    requires g.nodes.Has(e.from) && g.nodes.Has(e.to)
    requires !EvictsItself(cfg, g, e.from, e.to)
    ensures Tidy(cfg, ConnectEdge(cfg, g, e))
  {
    ConnectKeepsGraph(cfg, g, e.from, e.to, e.kind, e.weight, e.metadata, e.timestamp);
    ConnectKeepsCovered(cfg, g, e);
    ConnectKeepsBounded(cfg, g, e);
  }

  lemma GetNodeKeepsTidy(cfg: Config, g: Graph, id: Id, now: int)
    requires Tidy(cfg, g)
    ensures Tidy(cfg, GetNodeStep(g, id, now).0)
  {
    GetNodeKeepsGraph(cfg, g, id, now);
  }

  lemma PruneKeepsTidy(cfg: Config, g: Graph, o: PruneOptions, now: int)
    requires Tidy(cfg, g)
    ensures Tidy(cfg, PruneStep(cfg, g, o, now).0)
  {
    PruneEdgesKeepsTidy(cfg, o, g, g.edges.keys, now);
    var g1 := PruneEdges(o, g, g.edges.keys, now).0;
    PruneNodesKeepsTidy(cfg, o, g1, g1.nodes.keys, now);
  }

  lemma ApplyKeepsTidy(cfg: Config, g: Graph, op: Op)
    requires cfg.maxEdgesPerNode >= 1 && Tidy(cfg, g) && Careful(cfg, g, op)
    ensures Tidy(cfg, Apply(cfg, g, op))
  {
    match op
    case AddNode(id, kind, content, metadata, now, accessed) =>
      AddNodeKeepsTidy(cfg, g, id, kind, content, metadata, now, accessed);
    case GetNode(id, now) => GetNodeKeepsTidy(cfg, g, id, now);
    case RemoveNode(id) => RemoveNodeKeepsTidy(cfg, g, id);
    case Connect(from, to, kind, weight, metadata, now) =>
      if g.nodes.Has(from) && g.nodes.Has(to) {
        ConnectKeepsTidy(cfg, g, Edge(from, to, kind, Clamp(weight), metadata, now));
      }
    case Disconnect(from, to) => DisconnectKeepsTidy(cfg, g, from, to);
    case Prune(o, now) => PruneKeepsTidy(cfg, g, o, now);
    case Clear =>
  }

  ghost predicate CarefulRun(cfg: Config, ops: seq<Op>) {
    ops == [] || (CarefulRun(cfg, ops[..|ops| - 1]) && Careful(cfg, Run(cfg, ops[..|ops| - 1]), ops[|ops| - 1]))
  }

  /** Every careful run keeps every node within maxEdgesPerNode. */
  lemma {:induction false} CarefulRunKeepsBound(cfg: Config, ops: seq<Op>)
    requires cfg.maxEdgesPerNode >= 1 && CarefulRun(cfg, ops)
    ensures Tidy(cfg, Run(cfg, ops))
  {
    if ops != [] {
      CarefulRunKeepsBound(cfg, ops[..|ops| - 1]);
      ApplyKeepsTidy(cfg, Run(cfg, ops[..|ops| - 1]), ops[|ops| - 1]);
    }
  }
}
