/**
 src/analysis/memory-qr.js over whole runs: what a node and an edge hold is what was last said of them, and each
 operation adds and takes away exactly the adjacency entries and the edge-map entries it should.
 */
module GraphMemory {
  import opened JsCollections
  import opened MemoryGraph
  import opened GraphRuns
  import opened GraphEffects

  // ---------- Nodes ----------

  /** What is said of a node after one more operation. */
  function Told(before: Option<Node>, op: Op, x: Id): Option<Node> {
    match op
    case AddNode(id, kind, content, metadata, now, accessed) =>
      if id == x then Some(Node(x, kind, content, metadata, now, 0, accessed)) else before
    case GetNode(id, now) =>
      if id == x && before.Some? then
        Some(before.value.(accessCount := before.value.accessCount + 1, lastAccessed := now))
      else before
    case _ => before
  }

  /** What was last said of a node: how it was last added, and how often and when it was read since. */
  function NodeSaid(ops: seq<Op>, x: Id): Option<Node> {
    if ops == [] then None else Told(NodeSaid(ops[..|ops| - 1], x), ops[|ops| - 1], x)
  }

  ghost predicate Holds(nodes: Nodes, x: Id, said: Option<Node>) { x in nodes.vals ==> said == Some(nodes.vals[x]) }

  lemma AddNodeHolds(cfg: Config, g: Graph, op: Op, x: Id, said: Option<Node>)
    requires op.AddNode? && Holds(g.nodes, x, said)
    ensures Holds(Apply(cfg, g, op).nodes, x, Told(said, op, x))
  {
  }

  lemma NodeHolds(cfg: Config, g: Graph, op: Op, x: Id, said: Option<Node>)
    requires EdgesOk(g.edges) && Holds(g.nodes, x, said)
    ensures Holds(Apply(cfg, g, op).nodes, x, Told(said, op, x))
  {
    match op
    case AddNode(_, _, _, _, _, _) => AddNodeHolds(cfg, g, op, x, said);
    case Prune(o, now) => PruneIsFilter(cfg, g, o, now);
    case _ =>
  }

  /** In every run, a node that is there holds what was last said of it. */
  lemma {:induction false} NodesHoldWhatWasSaid(cfg: Config, ops: seq<Op>, x: Id)
    ensures Holds(Run(cfg, ops).nodes, x, NodeSaid(ops, x))
  {
    if ops != [] {
      var init := ops[..|ops| - 1];
      RunKeepsGraph(cfg, init);
      NodesHoldWhatWasSaid(cfg, init, x);
      NodeHolds(cfg, Run(cfg, init), ops[|ops| - 1], x, NodeSaid(init, x));
    }
  }

  // ---------- Weights ----------

  ghost predicate Nearest(weight: real, clamped: real) {
    0.0 <= clamped <= 1.0 && forall w: real :: 0.0 <= w <= 1.0 ==> Apart(clamped, weight) <= Apart(w, weight)
  }

  function Apart(a: real, b: real): real { if a < b then b - a else a - b }

  /** The weight of an edge is the nearest in [0, 1] to what was asked for. */
  lemma ClampIsNearest(weight: real, w: real)
    ensures Nearest(weight, w) <==> w == Clamp(weight)
  {
    if Nearest(weight, w) {
      assert Apart(w, weight) <= Apart(Clamp(weight), weight);
    }
  }

  // ---------- Edges ----------

  /** The last edge that was made between two nodes, when both were there. */
  function EdgeSaid(cfg: Config, ops: seq<Op>, u: Id, v: Id): Option<Edge> {
    if ops == [] then None
    else
      var op, g := ops[|ops| - 1], Run(cfg, ops[..|ops| - 1]);
      if op.Connect? && op.from == u && op.to == v && g.nodes.Has(u) && g.nodes.Has(v) then
        Some(Edge(u, v, op.relationship, Clamp(op.weight), op.metadata, op.now))
      else EdgeSaid(cfg, ops[..|ops| - 1], u, v)
  }

  ghost predicate InRow(adjacency: Adjacency, u: Id, v: Id) { u in adjacency && v in adjacency[u].vals }

  ghost predicate RowsShrink(a: Adjacency, b: Adjacency) {
    forall u, v :: InRow(b, u, v) ==> InRow(a, u, v) && b[u].vals[v] == a[u].vals[v]
  }

  ghost predicate KeysShrink(a: JsMap<string, Edge>, b: JsMap<string, Edge>) {
    forall k :: k in b.vals ==> k in a.vals && b.vals[k] == a.vals[k]
  }

  ghost predicate Shrinks(g: Graph, g': Graph) {
    RowsShrink(g.adjacency, g'.adjacency) && KeysShrink(g.edges, g'.edges)
  }

  lemma ShrinksTwice(a: Graph, b: Graph, c: Graph)
    requires Shrinks(a, b) && Shrinks(b, c)
    ensures Shrinks(a, c)
  {
  }

  lemma RemoveNodeShrinks(cfg: Config, g: Graph, id: Id)
    ensures Shrinks(g, RemoveNodeStep(cfg, g, id).0)
  {
  }

  lemma DisconnectShrinks(g: Graph, from: Id, to: Id)
    ensures Shrinks(g, DisconnectStep(g, from, to).0)
  {
  }

  lemma AddNodeShrinks(cfg: Config, g: Graph, op: Op)
    requires op.AddNode?
    ensures Shrinks(g, Apply(cfg, g, op))
  {
    var oldest := OldestOf(g.nodes, g.nodes.Size());
    if oldest.Some? {
      RemoveNodeShrinks(cfg, g, oldest.value);
    }
    var g1 := if g.nodes.Size() >= cfg.maxNodes && !g.nodes.Has(op.id) then EvictOldestStep(cfg, g) else g;
    assert Shrinks(g, g1);
    PutShrinks(cfg, g1, Node(op.id, op.kind, op.content, op.metadata, op.now, 0, op.accessed));
    ShrinksTwice(g, g1, Apply(cfg, g, op));
  }

  lemma PutShrinks(cfg: Config, g: Graph, node: Node)
    ensures Shrinks(g, PutNode(cfg, g, node))
  {
  }

  lemma {:induction false} PruneEdgesShrinks(o: PruneOptions, g: Graph, keys: seq<string>, now: int)
    ensures Shrinks(g, PruneEdges(o, g, keys, now).0)
  {
    if keys != [] {
      PruneEdgesShrinks(o, g, keys[..|keys| - 1], now);
      var g1, k := PruneEdges(o, g, keys[..|keys| - 1], now).0, keys[|keys| - 1];
      if g1.edges.Has(k) {
        DisconnectShrinks(g1, g1.edges.vals[k].from, g1.edges.vals[k].to);
        ShrinksTwice(g, g1, DisconnectStep(g1, g1.edges.vals[k].from, g1.edges.vals[k].to).0);
      }
    }
  }

  lemma {:induction false} PruneNodesShrinks(cfg: Config, o: PruneOptions, g: Graph, ids: seq<Id>, now: int)
    ensures Shrinks(g, PruneNodes(cfg, o, g, ids, now).0)
  {
    if ids != [] {
      var g1 := PruneNodes(cfg, o, g, ids[..|ids| - 1], now).0;
      PruneNodesShrinks(cfg, o, g, ids[..|ids| - 1], now);
      RemoveNodeShrinks(cfg, g1, ids[|ids| - 1]);
      ShrinksTwice(g, g1, RemoveNodeStep(cfg, g1, ids[|ids| - 1]).0);
    }
  }

  /** Whatever is no connection adds no edge and changes none. */
  lemma OthersShrink(cfg: Config, g: Graph, op: Op)
    requires !op.Connect?
    ensures Shrinks(g, Apply(cfg, g, op))
  {
    match op
    case AddNode(_, _, _, _, _, _) => AddNodeShrinks(cfg, g, op);
    case RemoveNode(id) => RemoveNodeShrinks(cfg, g, id);
    case Disconnect(from, to) => DisconnectShrinks(g, from, to);
    case Prune(o, now) =>
      var g1 := PruneEdges(o, g, g.edges.keys, now).0;
      PruneEdgesShrinks(o, g, g.edges.keys, now);
      PruneNodesShrinks(cfg, o, g1, g1.nodes.keys, now);
      ShrinksTwice(g, g1, PruneNodes(cfg, o, g1, g1.nodes.keys, now).0);
    case _ =>
  }

  ghost predicate RowsAdd(a: Adjacency, b: Adjacency, e: Edge) {
    forall u, v :: InRow(b, u, v) ==>
      if u == e.from && v == e.to then b[u].vals[v] == e else InRow(a, u, v) && b[u].vals[v] == a[u].vals[v]
  }

  ghost predicate KeysAdd(a: JsMap<string, Edge>, b: JsMap<string, Edge>, e: Edge) {
    forall k :: k in b.vals ==>
      if k == EdgeKey(e.from, e.to) then b.vals[k] == e else k in a.vals && b.vals[k] == a.vals[k]
  }

  function Connected(op: Op): Edge
    requires op.Connect?
  {
    Edge(op.from, op.to, op.relationship, Clamp(op.weight), op.metadata, op.now)
  }

  lemma RowsAddOne(a: Adjacency, row: Neighbours, e: Edge)
    requires e.from in a && forall v :: v in row.vals ==> v in a[e.from].vals && row.vals[v] == a[e.from].vals[v]
    ensures RowsAdd(a, a[e.from := row.Set(e.to, e)], e)
  {
  }

  /** A connection adds its edge, in both places, and changes no other. */
  lemma ConnectAdds(cfg: Config, g: Graph, op: Op)
    requires AdjacencyOk(g.nodes, g.adjacency) && op.Connect? && g.nodes.Has(op.from) && g.nodes.Has(op.to)
    ensures RowsAdd(g.adjacency, Apply(cfg, g, op).adjacency, Connected(op))
    ensures KeysAdd(g.edges, Apply(cfg, g, op).edges, Connected(op))
  {
    var e := Connected(op);
    ConnectRow(cfg, g, e);
    RowsAddOne(g.adjacency, g.adjacency[e.from], e);
    if MakesRoom(cfg, g, e) {
      RowsAddOne(g.adjacency, g.adjacency[e.from].Delete(Weakest(g, e.from).value), e);
    }
  }

  ghost predicate RowsHold(cfg: Config, ops: seq<Op>, g: Graph) {
    forall u, v :: InRow(g.adjacency, u, v) ==> EdgeSaid(cfg, ops, u, v) == Some(g.adjacency[u].vals[v])
  }

  ghost predicate KeysHold(cfg: Config, ops: seq<Op>, g: Graph) {
    forall k :: k in g.edges.vals ==>
      EdgeSaid(cfg, ops, g.edges.vals[k].from, g.edges.vals[k].to) == Some(g.edges.vals[k])
  }

  lemma StillHolds(cfg: Config, ops: seq<Op>, op: Op)
    requires var g := Run(cfg, ops);
      RowsHold(cfg, ops, g) && KeysHold(cfg, ops, g) && Shrinks(g, Apply(cfg, g, op)) && !op.Connect?
    ensures var g' := Apply(cfg, Run(cfg, ops), op); RowsHold(cfg, ops + [op], g') && KeysHold(cfg, ops + [op], g')
  {
    assert (ops + [op])[..|ops|] == ops;
  }

  lemma ConnectHolds(cfg: Config, ops: seq<Op>, op: Op)
    requires var g := Run(cfg, ops);
      RowsHold(cfg, ops, g) && KeysHold(cfg, ops, g) && GraphOk(cfg, g) && op.Connect?
    ensures var g' := Apply(cfg, Run(cfg, ops), op); RowsHold(cfg, ops + [op], g') && KeysHold(cfg, ops + [op], g')
  {
    var g := Run(cfg, ops);
    assert (ops + [op])[..|ops|] == ops;
    if g.nodes.Has(op.from) && g.nodes.Has(op.to) {
      ConnectAdds(cfg, g, op);
      RowsHoldNext(cfg, ops, op, g, Apply(cfg, g, op).adjacency);
      KeysHoldNext(cfg, ops, op, g, Apply(cfg, g, op).edges);
    }
  }

  /** Every edge between the ends of the new one is the new one. */
  lemma SaidNext(cfg: Config, ops: seq<Op>, op: Op, u: Id, v: Id)
    requires op.Connect? && Run(cfg, ops).nodes.Has(op.from) && Run(cfg, ops).nodes.Has(op.to)
    ensures EdgeSaid(cfg, ops + [op], u, v)
      == if u == op.from && v == op.to then Some(Connected(op)) else EdgeSaid(cfg, ops, u, v)
  {
    assert (ops + [op])[..|ops|] == ops;
  }

  lemma RowsHoldNext(cfg: Config, ops: seq<Op>, op: Op, g: Graph, rows: Adjacency)
    requires g == Run(cfg, ops) && op.Connect? && g.nodes.Has(op.from) && g.nodes.Has(op.to)
    requires RowsHold(cfg, ops, g) && RowsAdd(g.adjacency, rows, Connected(op))
    ensures forall u, v :: InRow(rows, u, v) ==> EdgeSaid(cfg, ops + [op], u, v) == Some(rows[u].vals[v])
  {
    forall u, v | InRow(rows, u, v) ensures EdgeSaid(cfg, ops + [op], u, v) == Some(rows[u].vals[v]) {
      SaidNext(cfg, ops, op, u, v);
    }
  }

  lemma KeysHoldNext(cfg: Config, ops: seq<Op>, op: Op, g: Graph, edges: JsMap<string, Edge>)
    requires g == Run(cfg, ops) && op.Connect? && g.nodes.Has(op.from) && g.nodes.Has(op.to)
    requires KeysHold(cfg, ops, g) && EdgesOk(g.edges) && KeysAdd(g.edges, edges, Connected(op))
    ensures forall k :: k in edges.vals ==>
      EdgeSaid(cfg, ops + [op], edges.vals[k].from, edges.vals[k].to) == Some(edges.vals[k])
  {
    forall k | k in edges.vals
      ensures EdgeSaid(cfg, ops + [op], edges.vals[k].from, edges.vals[k].to) == Some(edges.vals[k])
    {
      SaidNext(cfg, ops, op, edges.vals[k].from, edges.vals[k].to);
    }
  }

  /** In every run, an edge, in the adjacency lists and in the edge map, holds what was last said of it. */
  lemma {:induction false} EdgesHoldWhatWasSaid(cfg: Config, ops: seq<Op>)
    ensures RowsHold(cfg, ops, Run(cfg, ops)) && KeysHold(cfg, ops, Run(cfg, ops))
  {
    if ops != [] {
      var init, op := ops[..|ops| - 1], ops[|ops| - 1];
      EdgesHoldWhatWasSaid(cfg, init);
      RunKeepsGraph(cfg, init);
      assert ops == init + [op];
      if op.Connect? {
        ConnectHolds(cfg, init, op);
      } else {
        OthersShrink(cfg, Run(cfg, init), op);
        StillHolds(cfg, init, op);
      }
    }
  }
}
