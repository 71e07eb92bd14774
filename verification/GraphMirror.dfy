/**
 src/analysis/memory-qr.js: the edge map mirrors the adjacency lists. For each operation, exactly when it
 keeps that; the runs that keep it all along; and that every graph they build survives the way through JSON.
 */
module GraphMirror {
  import opened JsCollections
  import opened MemoryGraph
  import opened GraphRuns
  import opened GraphBounds
  import opened GraphJson

  lemma RowAfterDelete(nodes: Nodes, u: Id, row: Neighbours, edges: JsMap<string, Edge>, from: Id, to: Id)
    requires PlainIds(nodes) && u in nodes.vals && RowOk(nodes, u, row) && RowMirrored(u, row, edges)
    ensures RowMirrored(u, if u == from then row.Delete(to) else row, edges.Delete(EdgeKey(from, to)))
  {
    var row', edges' := if u == from then row.Delete(to) else row, edges.Delete(EdgeKey(from, to));
    forall v | v in row'.vals ensures EdgeKey(u, v) in edges'.vals && edges'.vals[EdgeKey(u, v)] == row'.vals[v] {
      assert v in row.vals;
      if EdgeKey(u, v) == EdgeKey(from, to) {
        KeyOfPlainIds(u, v, from, to);
      }
    }
  }

  lemma EntryAfterDelete(adjacency: Adjacency, edges: JsMap<string, Edge>, from: Id, to: Id, k: string)
    requires from in adjacency && k in edges.vals && EdgeKey(edges.vals[k].from, edges.vals[k].to) == k
    requires k != EdgeKey(from, to)
    requires Entry(adjacency, edges.vals[k])
    ensures Entry(adjacency[from := adjacency[from].Delete(to)], edges.vals[k])
  {
  }

  lemma DeleteKeepsMirror(nodes: Nodes, adjacency: Adjacency, edges: JsMap<string, Edge>, from: Id, to: Id)
    requires AdjacencyOk(nodes, adjacency) && PlainIds(nodes) && EdgesOk(edges) && Mirror(adjacency, edges)
    requires EdgeKey(from, to) in edges.vals
    ensures from in adjacency && Mirror(adjacency[from := adjacency[from].Delete(to)], edges.Delete(EdgeKey(from, to)))
  {
    var key := EdgeKey(from, to);
    OwnEntry(nodes, adjacency, edges, from, to);
    var adjacency', edges' := adjacency[from := adjacency[from].Delete(to)], edges.Delete(key);
    forall u | u in adjacency' ensures RowMirrored(u, adjacency'[u], edges') {
      RowAfterDelete(nodes, u, adjacency[u], edges, from, to);
    }
    forall k | k in edges'.vals ensures Entry(adjacency', edges'.vals[k]) {
      EntryAfterDelete(adjacency, edges, from, to, k);
    }
  }

  /** The entry under a key is the edge between the two ids of that key. */
  lemma OwnEntry(nodes: Nodes, adjacency: Adjacency, edges: JsMap<string, Edge>, from: Id, to: Id)
    requires AdjacencyOk(nodes, adjacency) && PlainIds(nodes) && EdgesOk(edges)
    requires EdgeKey(from, to) in edges.vals && Entry(adjacency, edges.vals[EdgeKey(from, to)])
    ensures from in adjacency && to in adjacency[from].vals && edges.vals[EdgeKey(from, to)].from == from
  {
    var e := edges.vals[EdgeKey(from, to)];
    assert RowOk(nodes, e.from, adjacency[e.from]);
    KeyOfPlainIds(e.from, e.to, from, to);
  }

  lemma RowAfterSet(nodes: Nodes, u: Id, row: Neighbours, edges: JsMap<string, Edge>, e: Edge)
    requires PlainIds(nodes) && u in nodes.vals && RowOk(nodes, u, row) && RowMirrored(u, row, edges)
    ensures RowMirrored(u, if u == e.from then row.Set(e.to, e) else row, edges.Set(EdgeKey(e.from, e.to), e))
  {
    var row', edges' := if u == e.from then row.Set(e.to, e) else row, edges.Set(EdgeKey(e.from, e.to), e);
    forall v | v in row'.vals ensures EdgeKey(u, v) in edges'.vals && edges'.vals[EdgeKey(u, v)] == row'.vals[v] {
      if v in row.vals && EdgeKey(u, v) == EdgeKey(e.from, e.to) {
        KeyOfPlainIds(u, v, e.from, e.to);
      }
    }
  }

  lemma SetKeepsMirror(nodes: Nodes, adjacency: Adjacency, edges: JsMap<string, Edge>, e: Edge)
    requires AdjacencyOk(nodes, adjacency) && PlainIds(nodes) && EdgesOk(edges) && Mirror(adjacency, edges)
    requires e.from in adjacency
    ensures Mirror(adjacency[e.from := adjacency[e.from].Set(e.to, e)], edges.Set(EdgeKey(e.from, e.to), e))
  {
    var adjacency', edges' := adjacency[e.from := adjacency[e.from].Set(e.to, e)], edges.Set(EdgeKey(e.from, e.to), e);
    forall u | u in adjacency' ensures RowMirrored(u, adjacency'[u], edges') {
      RowAfterSet(nodes, u, adjacency[u], edges, e);
    }
    forall k | k in edges'.vals ensures Entry(adjacency', edges'.vals[k]) {
      if k != EdgeKey(e.from, e.to) {
        EntryAfterSet(adjacency, edges, e, k);
      }
    }
  }

  lemma EntryAfterSet(adjacency: Adjacency, edges: JsMap<string, Edge>, e: Edge, k: string)
    requires e.from in adjacency && k in edges.vals && EdgeKey(edges.vals[k].from, edges.vals[k].to) == k
    requires k != EdgeKey(e.from, e.to)
    requires Entry(adjacency, edges.vals[k])
    ensures Entry(adjacency[e.from := adjacency[e.from].Set(e.to, e)], edges.vals[k])
  {
  }

  // ---------- One operation ----------

  ghost predicate Mirrored(cfg: Config, g: Graph) {
    GraphOk(cfg, g) && PlainIds(g.nodes) && Mirror(g.adjacency, g.edges)
  }

  /** No edge leads to the node or from it. */
  ghost predicate Lonely(g: Graph, id: Id) {
    (id in g.adjacency ==> g.adjacency[id].keys == []) && forall u :: u in g.adjacency ==> id !in g.adjacency[u].vals
  }

  lemma EvictThenSet(g: Graph, e: Edge, w: Id)
    requires e.from in g.adjacency && EdgeKey(e.from, w) != EdgeKey(e.from, e.to)
    ensures g.edges.Set(EdgeKey(e.from, e.to), e).Delete(EdgeKey(e.from, w)).vals
      == g.edges.Delete(EdgeKey(e.from, w)).Set(EdgeKey(e.from, e.to), e).vals
  {
  }

  /** Mirror looks at the entries of the edge map only, not at their order. */
  lemma MirrorOfEntries(adjacency: Adjacency, a: JsMap<string, Edge>, b: JsMap<string, Edge>)
    requires Mirror(adjacency, a) && a.vals == b.vals
    ensures Mirror(adjacency, b)
  {
    forall u | u in adjacency ensures RowMirrored(u, adjacency[u], b) {
      assert RowMirrored(u, adjacency[u], a);
    }
  }

  /** A connection keeps the mirror exactly when it does not evict its own entry. */
  lemma ConnectKeepsMirrorIff(cfg: Config, g: Graph, e: Edge)
    requires Mirrored(cfg, g) && e.weight == Clamp(e.weight) && g.nodes.Has(e.from) && g.nodes.Has(e.to)
    ensures var g' := ConnectEdge(cfg, g, e); Mirror(g'.adjacency, g'.edges) <==> !EvictsItself(cfg, g, e.from, e.to)
  {
    var g' := ConnectEdge(cfg, g, e);
    ReconnectDropsEntryIff(cfg, g, e);
    ConnectRow(cfg, g, e);
    EvictsItselfMakesRoom(cfg, g, e);
    if EvictsItself(cfg, g, e.from, e.to) {
      assert !RowMirrored(e.from, g'.adjacency[e.from], g'.edges);
    } else if MakesRoom(cfg, g, e) {
      ConnectWithEviction(cfg, g, e, Weakest(g, e.from).value);
    } else {
      SetKeepsMirror(g.nodes, g.adjacency, g.edges, e);
    }
  }

  lemma ConnectWithEviction(cfg: Config, g: Graph, e: Edge, w: Id)
    requires Mirrored(cfg, g) && e.from in g.adjacency && w in g.adjacency[e.from].vals && w != e.to
    ensures Mirror(g.adjacency[e.from := g.adjacency[e.from].Delete(w).Set(e.to, e)],
                   g.edges.Set(EdgeKey(e.from, e.to), e).Delete(EdgeKey(e.from, w)))
  {
    assert RowMirrored(e.from, g.adjacency[e.from], g.edges);
    if EdgeKey(e.from, w) == EdgeKey(e.from, e.to) {
      KeyOfSameSource(e.from, w, e.to);
    }
    var adjacency, edges := g.adjacency[e.from := g.adjacency[e.from].Delete(w)], g.edges.Delete(EdgeKey(e.from, w));
    DeleteKeepsMirror(g.nodes, g.adjacency, g.edges, e.from, w);
    DeleteKeepsAdjacency(g.nodes, g.adjacency, e.from, w);
    SetKeepsMirror(g.nodes, adjacency, edges, e);
    Overwrite(g.adjacency, e.from, adjacency[e.from], adjacency[e.from].Set(e.to, e));
    EvictThenSet(g, e, w);
    MirrorOfEntries(g.adjacency[e.from := adjacency[e.from].Set(e.to, e)],
      edges.Set(EdgeKey(e.from, e.to), e), g.edges.Set(EdgeKey(e.from, e.to), e).Delete(EdgeKey(e.from, w)));
  }

  lemma DisconnectKeepsMirror(cfg: Config, g: Graph, from: Id, to: Id)
    requires Mirrored(cfg, g)
    ensures Mirrored(cfg, DisconnectStep(g, from, to).0)
    ensures DisconnectStep(g, from, to).0.nodes == g.nodes
  {
    DisconnectKeepsGraph(cfg, g, from, to);
    if g.edges.Has(EdgeKey(from, to)) {
      DeleteKeepsMirror(g.nodes, g.adjacency, g.edges, from, to);
    }
  }

  /** The edge-map entries of a node that has gone are left behind: if it had edges, the mirror is lost. */
  lemma GoneLosesMirror(cfg: Config, g: Graph, id: Id, g': Graph)
    requires Mirrored(cfg, g) && !Lonely(g, id) && GraphOk(cfg, g') && g'.edges == g.edges && id !in g'.nodes.vals
    ensures !Mirror(g'.adjacency, g'.edges)
  {
    if id in g.adjacency && g.adjacency[id].keys != [] {
      var v := g.adjacency[id].keys[0];
      assert v in g.adjacency[id].keys;
      LeftBehind(cfg, g, id, v, g');
    } else {
      var u :| u in g.adjacency && id in g.adjacency[u].vals;
      LeftBehind(cfg, g, u, id, g');
    }
  }

  lemma LeftBehind(cfg: Config, g: Graph, u: Id, v: Id, g': Graph)
    requires Mirrored(cfg, g) && GraphOk(cfg, g') && g'.edges == g.edges && (u !in g'.nodes.vals || v !in g'.nodes.vals)
    requires u in g.adjacency && v in g.adjacency[u].vals
    ensures !Mirror(g'.adjacency, g'.edges)
  {
    assert RowMirrored(u, g.adjacency[u], g.edges) && RowOk(g.nodes, u, g.adjacency[u]);
    var e := g'.edges.vals[EdgeKey(u, v)];
    assert e.from == u && e.to == v;
    if u in g'.adjacency {
      assert RowOk(g'.nodes, u, g'.adjacency[u]);
      assert v !in g'.adjacency[u].vals;
    }
    assert !Entry(g'.adjacency, e);
  }

  lemma RemoveLonely(cfg: Config, g: Graph, id: Id)
    requires Mirrored(cfg, g) && Lonely(g, id)
    ensures Mirrored(cfg, RemoveNodeStep(cfg, g, id).0)
  {
    var g' := RemoveNodeStep(cfg, g, id).0;
    RemoveNodeKeepsGraph(cfg, g, id);
    forall u | u in g'.adjacency ensures RowMirrored(u, g'.adjacency[u], g'.edges) {
      assert RowMirrored(u, g.adjacency[u], g.edges);
    }
    forall k | k in g'.edges.vals ensures Entry(g'.adjacency, g'.edges.vals[k]) {
      var e := g.edges.vals[k];
      assert Entry(g.adjacency, e);
      assert e.to in g.adjacency[e.from].keys;
    }
  }

  /** A removal keeps the mirror exactly when the node has no edge in or out. */
  lemma RemoveKeepsMirrorIff(cfg: Config, g: Graph, id: Id)
    requires Mirrored(cfg, g) && g.nodes.Has(id)
    ensures Mirrored(cfg, RemoveNodeStep(cfg, g, id).0) <==> Lonely(g, id)
  {
    if Lonely(g, id) {
      RemoveLonely(cfg, g, id);
    } else {
      RemoveNodeKeepsGraph(cfg, g, id);
      GoneLosesMirror(cfg, g, id, RemoveNodeStep(cfg, g, id).0);
    }
  }

  /** Adding over a node empties its own list only. */
  lemma PutKeepsMirrorIff(adjacency: Adjacency, edges: JsMap<string, Edge>, id: Id)
    requires Mirror(adjacency, edges)
    requires (id in adjacency ==> forall v :: v in adjacency[id].vals ==> adjacency[id].vals[v].from == id)
    ensures Mirror(adjacency[id := EmptyMap()], edges) <==> (id in adjacency ==> adjacency[id].keys == [])
  {
    var adjacency' := adjacency[id := EmptyMap()];
    if id in adjacency && adjacency[id].keys != [] {
      var v := adjacency[id].keys[0];
      assert v in adjacency[id].keys;
      assert RowMirrored(id, adjacency[id], edges);
      assert !Entry(adjacency', edges.vals[EdgeKey(id, v)]);
    } else {
      PutEmpty(adjacency, edges, id);
    }
  }

  lemma PutEmpty(adjacency: Adjacency, edges: JsMap<string, Edge>, id: Id)
    requires Mirror(adjacency, edges) && (id in adjacency ==> adjacency[id].keys == [])
    ensures Mirror(adjacency[id := EmptyMap()], edges)
  {
    if id in adjacency {
      NoKeys(adjacency[id]);
      assert adjacency[id := EmptyMap()] == adjacency;
    } else {
      PutNew(adjacency, edges, id);
    }
  }

  lemma PutNew(adjacency: Adjacency, edges: JsMap<string, Edge>, id: Id)
    requires Mirror(adjacency, edges) && id !in adjacency
    ensures Mirror(adjacency[id := EmptyMap()], edges)
  {
    var adjacency' := adjacency[id := EmptyMap()];
    forall u | u in adjacency' ensures RowMirrored(u, adjacency'[u], edges) {
      if u != id {
        assert RowMirrored(u, adjacency[u], edges);
      }
    }
  }

  /** Whether a node that is added over has no edges out. */
  predicate AddsSafely(g: Graph, id: Id) { id in g.adjacency ==> g.adjacency[id].keys == [] }

  /** Whether a node that is evicted for a new one has no edges. */
  ghost predicate EvictsSafely(cfg: Config, g: Graph, id: Id) {
    var oldest := OldestOf(g.nodes, g.nodes.Size());
    (!g.nodes.Has(id) && g.nodes.Size() >= cfg.maxNodes && oldest.Some?) ==> Lonely(g, oldest.value)
  }

  /** Adding a node keeps the mirror exactly when these two have no edges to lose. */
  lemma AddNodeKeepsMirrorIff(cfg: Config, g: Graph, id: Id, kind: string, content: string, metadata: string, now: int,
      accessed: int)
    requires Mirrored(cfg, g) && PlainId(id)
    ensures Mirrored(cfg, AddNodeStep(cfg, g, id, kind, content, metadata, now, accessed))
      <==> AddsSafely(g, id) && EvictsSafely(cfg, g, id)
  {
    var g' := AddNodeStep(cfg, g, id, kind, content, metadata, now, accessed);
    AddNodeKeepsGraph(cfg, g, id, kind, content, metadata, now, accessed);
    var oldest := OldestOf(g.nodes, g.nodes.Size());
    if !EvictsSafely(cfg, g, id) {
      GoneLosesMirror(cfg, g, oldest.value, g');
    } else if !g.nodes.Has(id) && g.nodes.Size() >= cfg.maxNodes && oldest.Some? {
      RemoveLonely(cfg, g, oldest.value);
      var g1 := RemoveNodeStep(cfg, g, oldest.value).0;
      PutKeepsMirrorIff(g1.adjacency, g1.edges, id);
    } else {
      assert id in g.adjacency ==> RowOk(g.nodes, id, g.adjacency[id]);
      PutKeepsMirrorIff(g.adjacency, g.edges, id);
    }
  }

  // ---------- Pruning ----------

  lemma {:induction false} PruneEdgesKeepsMirror(cfg: Config, o: PruneOptions, g: Graph, keys: seq<string>, now: int)
    requires Mirrored(cfg, g)
    ensures Mirrored(cfg, PruneEdges(o, g, keys, now).0)
  {
    if keys != [] {
      PruneEdgesKeepsMirror(cfg, o, g, keys[..|keys| - 1], now);
      var g1, k := PruneEdges(o, g, keys[..|keys| - 1], now).0, keys[|keys| - 1];
      if g1.edges.Has(k) {
        DisconnectKeepsMirror(cfg, g1, g1.edges.vals[k].from, g1.edges.vals[k].to);
      }
    }
  }

  /** Pruning nodes leaves the edge map alone, and each node as it is unless it goes; the stale ones visited go. */
  lemma {:induction false} PruneNodesEffect(cfg: Config, o: PruneOptions, g: Graph, ids: seq<Id>, now: int)
    ensures var r := PruneNodes(cfg, o, g, ids, now).0;
      && r.edges == g.edges
      && (forall x :: x in r.nodes.vals ==> x in g.nodes.vals && r.nodes.vals[x] == g.nodes.vals[x])
      && (forall x :: x in r.nodes.vals && x in ids ==> !StaleNode(o, g.nodes.vals[x], now))
  {
    if ids != [] {
      PruneNodesEffect(cfg, o, g, ids[..|ids| - 1], now);
      assert ids == ids[..|ids| - 1] + [ids[|ids| - 1]];
    }
  }

  ghost predicate StaleAreLonely(o: PruneOptions, g: Graph, now: int) {
    forall id :: id in g.nodes.vals && StaleNode(o, g.nodes.vals[id], now) ==> Lonely(g, id)
  }

  lemma RemoveKeepsStaleLonely(cfg: Config, o: PruneOptions, g: Graph, id: Id, now: int)
    requires StaleAreLonely(o, g, now)
    ensures StaleAreLonely(o, RemoveNodeStep(cfg, g, id).0, now)
  {
    var g' := RemoveNodeStep(cfg, g, id).0;
    forall x | x in g'.nodes.vals && StaleNode(o, g'.nodes.vals[x], now) ensures Lonely(g', x) {
      assert Lonely(g, x);
      if x in g'.adjacency {
        assert g.adjacency[x].keys == [];
      }
    }
  }

  lemma {:induction false} PruneLonely(cfg: Config, o: PruneOptions, g: Graph, ids: seq<Id>, now: int)
    requires Mirrored(cfg, g) && StaleAreLonely(o, g, now)
    ensures Mirrored(cfg, PruneNodes(cfg, o, g, ids, now).0)
    ensures StaleAreLonely(o, PruneNodes(cfg, o, g, ids, now).0, now)
  {
    if ids != [] {
      PruneLonely(cfg, o, g, ids[..|ids| - 1], now);
      var g1, id := PruneNodes(cfg, o, g, ids[..|ids| - 1], now).0, ids[|ids| - 1];
      if g1.nodes.Has(id) && StaleNode(o, g1.nodes.vals[id], now) {
        RemoveLonely(cfg, g1, id);
        RemoveKeepsStaleLonely(cfg, o, g1, id, now);
      }
    }
  }

  /** Pruning keeps the mirror exactly when each stale node is without edges once the stale edges have gone. */
  lemma PruneKeepsMirrorIff(cfg: Config, g: Graph, o: PruneOptions, now: int)
    requires Mirrored(cfg, g)
    ensures Mirrored(cfg, PruneStep(cfg, g, o, now).0)
      <==> StaleAreLonely(o, PruneEdges(o, g, g.edges.keys, now).0, now)
  {
    var g1 := PruneEdges(o, g, g.edges.keys, now).0;
    PruneEdgesKeepsMirror(cfg, o, g, g.edges.keys, now);
    if StaleAreLonely(o, g1, now) {
      PruneLonely(cfg, o, g1, g1.nodes.keys, now);
    } else {
      var id :| id in g1.nodes.vals && StaleNode(o, g1.nodes.vals[id], now) && !Lonely(g1, id);
      PruneNodesEffect(cfg, o, g1, g1.nodes.keys, now);
      PruneNodesKeepsGraph(cfg, o, g1, g1.nodes.keys, now);
      assert id in g1.nodes.keys;
      GoneLosesMirror(cfg, g1, id, PruneNodes(cfg, o, g1, g1.nodes.keys, now).0);
    }
  }

  // ---------- Runs ----------

  /** What a call must leave alone: entries of its own, and edges of nodes that go. */
  ghost predicate Steady(cfg: Config, g: Graph, op: Op) {
    match op
    case AddNode(id, _, _, _, _, _) => AddsSafely(g, id) && EvictsSafely(cfg, g, id)
    case RemoveNode(id) => g.nodes.Has(id) ==> Lonely(g, id)
    case Connect(from, to, _, _, _, _) => g.nodes.Has(from) && g.nodes.Has(to) ==> !EvictsItself(cfg, g, from, to)
    case Prune(o, now) => StaleAreLonely(o, PruneEdges(o, g, g.edges.keys, now).0, now)
    case _ => true
  }

  ghost predicate PlainOp(op: Op) { op.AddNode? ==> PlainId(op.id) }

  lemma GetNodeKeepsMirror(cfg: Config, g: Graph, id: Id, now: int)
    requires Mirrored(cfg, g)
    ensures Mirrored(cfg, GetNodeStep(g, id, now).0)
  {
    GetNodeKeepsGraph(cfg, g, id, now);
  }

  lemma ConnectEdgeKeepsNodes(cfg: Config, g: Graph, e: Edge)
    ensures ConnectEdge(cfg, g, e).nodes == g.nodes
  {
  }

  lemma ConnectedIsMirroredIff(cfg: Config, g: Graph, e: Edge)
    requires Mirrored(cfg, g) && e.weight == Clamp(e.weight) && g.nodes.Has(e.from) && g.nodes.Has(e.to)
    ensures Mirrored(cfg, ConnectEdge(cfg, g, e)) <==> !EvictsItself(cfg, g, e.from, e.to)
  {
    ConnectKeepsGraph(cfg, g, e.from, e.to, e.kind, e.weight, e.metadata, e.timestamp);
    ConnectEdgeKeepsNodes(cfg, g, e);
    ConnectKeepsMirrorIff(cfg, g, e);
  }

  lemma ConnectIsClamped(cfg: Config, g: Graph, op: Op)
    requires op.Connect?
    ensures Apply(cfg, g, op)
      == ConnectEdge(cfg, g, Edge(op.from, op.to, op.relationship, Clamp(op.weight), op.metadata, op.now))
  {
  }

  lemma ConnectingKeepsMirrorIff(cfg: Config, g: Graph, op: Op)
    requires Mirrored(cfg, g) && op.Connect? && g.nodes.Has(op.from) && g.nodes.Has(op.to)
    ensures Mirrored(cfg, Apply(cfg, g, op)) <==> !EvictsItself(cfg, g, op.from, op.to)
  {
    ConnectIsClamped(cfg, g, op);
    ConnectedIsMirroredIff(cfg, g, Edge(op.from, op.to, op.relationship, Clamp(op.weight), op.metadata, op.now));
  }

  /** An operation keeps the mirror exactly when it is steady. */
  lemma ApplyKeepsMirrorIff(cfg: Config, g: Graph, op: Op)
    requires Mirrored(cfg, g) && PlainOp(op)
    ensures Mirrored(cfg, Apply(cfg, g, op)) <==> Steady(cfg, g, op)
  {
    match op
    case AddNode(id, kind, content, metadata, now, accessed) =>
      AddNodeKeepsMirrorIff(cfg, g, id, kind, content, metadata, now, accessed);
    case GetNode(id, now) => GetNodeKeepsMirror(cfg, g, id, now);
    case RemoveNode(id) =>
      if g.nodes.Has(id) {
        RemoveKeepsMirrorIff(cfg, g, id);
      }
    case Connect(from, to, kind, weight, metadata, now) =>
      if g.nodes.Has(from) && g.nodes.Has(to) {
        ConnectingKeepsMirrorIff(cfg, g, op);
      }
    case Disconnect(from, to) => DisconnectKeepsMirror(cfg, g, from, to);
    case Prune(o, now) => PruneKeepsMirrorIff(cfg, g, o, now);
    case Clear =>
  }

  ghost predicate PlainRun(ops: seq<Op>) { forall i :: 0 <= i < |ops| ==> PlainOp(ops[i]) }

  ghost predicate SteadyRun(cfg: Config, ops: seq<Op>) {
    ops == [] || (SteadyRun(cfg, ops[..|ops| - 1]) && Steady(cfg, Run(cfg, ops[..|ops| - 1]), ops[|ops| - 1]))
  }

  ghost predicate AlwaysMirrored(cfg: Config, ops: seq<Op>) {
    Mirrored(cfg, Run(cfg, ops)) && (ops == [] || AlwaysMirrored(cfg, ops[..|ops| - 1]))
  }

  /** With plain ids, a run keeps edge map and adjacency lists the same all along exactly when each step is steady. */
  lemma {:induction false} RunMirrorsIff(cfg: Config, ops: seq<Op>)
    requires PlainRun(ops)
    ensures AlwaysMirrored(cfg, ops) <==> SteadyRun(cfg, ops)
  {
    if ops != [] {
      var init := ops[..|ops| - 1];
      RunMirrorsIff(cfg, init);
      if AlwaysMirrored(cfg, init) {
        MirroredPrefix(cfg, init);
        ApplyKeepsMirrorIff(cfg, Run(cfg, init), ops[|ops| - 1]);
      }
    }
  }

  lemma MirroredPrefix(cfg: Config, ops: seq<Op>)
    requires AlwaysMirrored(cfg, ops)
    ensures Mirrored(cfg, Run(cfg, ops))
  {
  }

  /** Steady runs with plain ids are careful, and so keep the bound too. */
  lemma {:induction false} SteadyIsCareful(cfg: Config, ops: seq<Op>)
    requires PlainRun(ops) && SteadyRun(cfg, ops)
    ensures CarefulRun(cfg, ops)
  {
    if ops != [] {
      var init := ops[..|ops| - 1];
      SteadyIsCareful(cfg, init);
      RunKeepsGraph(cfg, init);
      SteadyOpIsCareful(cfg, Run(cfg, init), ops[|ops| - 1]);
    }
  }

  lemma SteadyOpIsCareful(cfg: Config, g: Graph, op: Op)
    requires GraphOk(cfg, g) && PlainOp(op) && Steady(cfg, g, op)
    ensures Careful(cfg, g, op)
  {
    if op.Connect? && EvictsItself(cfg, g, op.from, op.to) {
      assert op.from in g.adjacency && RowOk(g.nodes, op.from, g.adjacency[op.from]);
    }
  }

  /** Every graph built by a steady run survives the way through JSON. */
  lemma SteadyRunRoundTrips(cfg: Config, ops: seq<Op>, g: Graph, clock: nat -> int)
    requires cfg.maxEdgesPerNode >= 1 && PlainRun(ops) && SteadyRun(cfg, ops) && g == Run(cfg, ops)
    ensures Restored(g, FromJson(cfg, ToJson(g), clock))
  {
    RunMirrorsIff(cfg, ops);
    MirroredPrefix(cfg, ops);
    SteadyIsCareful(cfg, ops);
    CarefulRunKeepsBound(cfg, ops);
    BoundedIsRestored(cfg, g, clock);
  }

  // ---------- A run that loses the mirror ----------

  lemma SteadyAppend(cfg: Config, ops: seq<Op>, op: Op)
    requires SteadyRun(cfg, ops) && Steady(cfg, Run(cfg, ops), op)
    ensures SteadyRun(cfg, ops + [op])
  {
    assert (ops + [op])[..|ops|] == ops;
  }

  lemma SteadyAdding(cfg: Config, g: Graph, ids: seq<Id>, id: Id)
    requires GraphOk(cfg, g) && Isolated(g, ids) && |ids| < cfg.maxNodes && id !in ids
    ensures Steady(cfg, g, Adding(id))
  {
    assert id !in g.nodes.keys && g.nodes.Size() < cfg.maxNodes;
  }

  lemma AddingsSnoc(ids: seq<Id>)
    requires ids != []
    ensures Addings(ids) == Addings(ids[..|ids| - 1]) + [Adding(ids[|ids| - 1])]
  {
  }

  lemma {:induction false} AddingsAreSteady(cfg: Config, ids: seq<Id>)
    requires NoDup(ids) && |ids| <= cfg.maxNodes
    ensures SteadyRun(cfg, Addings(ids))
  {
    if ids != [] {
      var init, id := ids[..|ids| - 1], ids[|ids| - 1];
      AddingsAreSteady(cfg, init);
      FreshNodes(cfg, init);
      RunKeepsGraph(cfg, Addings(init));
      SteadyAdding(cfg, Run(cfg, Addings(init)), init, id);
      SteadyAppend(cfg, Addings(init), Adding(id));
      AddingsSnoc(ids);
    }
  }

  lemma SteadyConnecting(cfg: Config, g: Graph, a: Id, b: Id)
    requires cfg.maxEdgesPerNode >= 1 && a in g.adjacency && g.adjacency[a].keys == []
    ensures Steady(cfg, g, Connecting(Spoke(a, b, b)))
  {
  }

  lemma ConnectedIsMirrored(cfg: Config, a: Id, b: Id)
    requires cfg.maxNodes >= 2 && cfg.maxEdgesPerNode >= 1 && a != b && PlainId(a) && PlainId(b)
    ensures AlwaysMirrored(cfg, Addings([a, b]) + Spokes(a, b, [b]))
  {
    var nodes := Addings([a, b]);
    AddingsAreSteady(cfg, [a, b]);
    FreshNodes(cfg, [a, b]);
    assert a in [a, b];
    SteadyConnecting(cfg, Run(cfg, nodes), a, b);
    SteadyAppend(cfg, nodes, Connecting(Spoke(a, b, b)));
    assert nodes + Spokes(a, b, [b]) == nodes + [Connecting(Spoke(a, b, b))];
    RunMirrorsIff(cfg, nodes + Spokes(a, b, [b]));
  }

  lemma NeighbourGone(cfg: Config, g: Graph, a: Id, b: Id)
    requires Mirrored(cfg, g) && a in g.adjacency && b in g.adjacency[a].vals && g.nodes.Has(b)
    ensures var g' := RemoveNodeStep(cfg, g, b).0; !Mirror(g'.adjacency, g'.edges)
  {
    assert !Lonely(g, b);
    RemoveKeepsMirrorIff(cfg, g, b);
    RemoveNodeKeepsGraph(cfg, g, b);
    StaysPlain(g.nodes, RemoveNodeStep(cfg, g, b).0.nodes);
  }

  lemma StaysPlain(nodes: Nodes, nodes': Nodes)
    requires PlainIds(nodes) && nodes'.vals.Keys <= nodes.vals.Keys
    ensures PlainIds(nodes')
  {
  }

  lemma Removing(cfg: Config, ops: seq<Op>, b: Id)
    ensures Run(cfg, ops + [RemoveNode(b)]) == RemoveNodeStep(cfg, Run(cfg, ops), b).0
  {
    RunAppend(cfg, ops, RemoveNode(b));
  }

  lemma HasSpoke(g: Graph, a: Id, b: Id)
    requires Star(g, a, b, [b])
    ensures a in g.adjacency && b in g.adjacency[a].vals
  {
    assert b in g.adjacency[a].keys;
  }

  /**
   Add two nodes, connect them, and remove the second: up to there edge map and adjacency lists are the same,
   and then the edge map keeps an edge to a node that is gone.
   */
  lemma RemovalLosesMirror(cfg: Config, a: Id, b: Id)
    requires cfg.maxNodes >= 2 && cfg.maxEdgesPerNode >= 1 && a != b && PlainId(a) && PlainId(b)
    ensures var ops := Addings([a, b]) + Spokes(a, b, [b]);
      && AlwaysMirrored(cfg, ops)
      && var g := Run(cfg, ops + [RemoveNode(b)]); !Mirror(g.adjacency, g.edges)
  {
    var ops := Addings([a, b]) + Spokes(a, b, [b]);
    ConnectedIsMirrored(cfg, a, b);
    MirroredPrefix(cfg, ops);
    Connected(cfg, a, b);
    HasSpoke(Run(cfg, ops), a, b);
    NeighbourGone(cfg, Run(cfg, ops), a, b);
    Removing(cfg, ops, b);
  }
}
