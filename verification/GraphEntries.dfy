/**
 src/analysis/memory-qr.js, which adjacency entries and which entries of the edge map each operation takes away, in
 terms of what was there: no other goes, and none of these stays.
 */
module GraphEntries {
  import opened JsCollections
  import opened MemoryGraph
  import opened GraphRuns
  import opened GraphEffects
  import opened GraphMemory

  /** Both ends are there. */
  predicate Joins(g: Graph, op: Op) { op.Connect? && g.nodes.Has(op.from) && g.nodes.Has(op.to) }

  /** The neighbour that makes room for a connection: the weakest of a full node, unless its id is empty. */
  ghost predicate MakesWay(cfg: Config, g: Graph, op: Op, v: Id)
    requires Joins(g, op)
  {
    var row := Out(g, op.from);
    row.Size() >= cfg.maxEdgesPerNode && IsWeakest(row, v) && v != ""
  }

  /**
   Which adjacency entry an operation takes away. One that makes room goes only if the edge map has its key, and
   comes back at once if it is the one being connected.
   */
  ghost predicate EntryLeaves(cfg: Config, g: Graph, op: Op, u: Id, v: Id) {
    match op
    case AddNode(id, _, _, _, _, _) => u == id || NodeLeaves(cfg, g, op, u) || NodeLeaves(cfg, g, op, v)
    case RemoveNode(id) => u == id || v == id
    case Connect(from, to, _, _, _, _) =>
      Joins(g, op) && u == from && v != to && MakesWay(cfg, g, op, v) && EdgeKey(u, v) in g.edges.vals
    case Disconnect(from, to) => u == from && v == to && EdgeKey(u, v) in g.edges.vals
    case Prune(o, now) => EdgePruned(o, g, now, u, v) || NodeLeaves(cfg, g, op, u) || NodeLeaves(cfg, g, op, v)
    case Clear => true
    case GetNode(_, _) => false
  }

  /** The edge map has an edge between the two that is too old or too light. */
  ghost predicate EdgePruned(o: PruneOptions, g: Graph, now: int, u: Id, v: Id) {
    exists k :: k in g.edges.vals && g.edges.vals[k].from == u && g.edges.vals[k].to == v
      && GoesStale(o, g.edges.vals[k], now)
  }

  // ---------- Adjacency entries ----------

  lemma RowsWithout(adjacency: Adjacency, id: Id, u: Id, v: Id)
    ensures InRow(WithoutIncoming(adjacency, id) - {id}, u, v) <==> InRow(adjacency, u, v) && u != id && v != id
  {
  }

  lemma NoRowsOfGone(nodes: Nodes, adjacency: Adjacency, u: Id, v: Id)
    requires AdjacencyOk(nodes, adjacency) && InRow(adjacency, u, v)
    ensures u in nodes.vals && v in nodes.vals
  {
    assert RowOk(nodes, u, adjacency[u]);
  }

  lemma RemoveNodeRows(cfg: Config, g: Graph, id: Id, u: Id, v: Id)
    requires AdjacencyOk(g.nodes, g.adjacency)
    ensures InRow(RemoveNodeStep(cfg, g, id).0.adjacency, u, v) <==> InRow(g.adjacency, u, v) && u != id && v != id
  {
    if g.nodes.Has(id) {
      RowsWithout(g.adjacency, id, u, v);
    } else if InRow(g.adjacency, u, v) {
      NoRowsOfGone(g.nodes, g.adjacency, u, v);
    }
  }

  lemma EvictRows(cfg: Config, g: Graph, u: Id, v: Id)
    requires AdjacencyOk(g.nodes, g.adjacency)
    ensures InRow(EvictOldestStep(cfg, g).adjacency, u, v)
      <==> InRow(g.adjacency, u, v) && !(u != "" && IsOldest(g.nodes, u)) && !(v != "" && IsOldest(g.nodes, v))
  {
    OldestMeans(g.nodes, u);
    OldestMeans(g.nodes, v);
    var oldest := OldestOf(g.nodes, g.nodes.Size());
    if oldest.Some? {
      RemoveNodeRows(cfg, g, oldest.value, u, v);
    }
  }

  lemma NewRowIn(adjacency: Adjacency, id: Id, u: Id, v: Id)
    ensures InRow(adjacency[id := EmptyMap()], u, v) <==> InRow(adjacency, u, v) && u != id
  {
  }

  lemma AddNodeRows(cfg: Config, g: Graph, op: Op, u: Id, v: Id)
    requires op.AddNode? && AdjacencyOk(g.nodes, g.adjacency)
    ensures InRow(Apply(cfg, g, op).adjacency, u, v) <==> InRow(g.adjacency, u, v) && !EntryLeaves(cfg, g, op, u, v)
  {
    var full := g.nodes.Size() >= cfg.maxNodes && !g.nodes.Has(op.id);
    AddNodeAdjacency(cfg, g, op);
    if full {
      EvictRows(cfg, g, u, v);
      NewRowIn(EvictOldestStep(cfg, g).adjacency, op.id, u, v);
    } else {
      NewRowIn(g.adjacency, op.id, u, v);
    }
  }

  lemma AddNodeAdjacency(cfg: Config, g: Graph, op: Op)
    requires op.AddNode?
    ensures Apply(cfg, g, op).adjacency
      == (if g.nodes.Size() >= cfg.maxNodes && !g.nodes.Has(op.id) then EvictOldestStep(cfg, g)
          else g).adjacency[op.id := EmptyMap()]
  {
  }

  lemma RowSetIn(adjacency: Adjacency, row: Neighbours, e: Edge, u: Id, v: Id)
    ensures InRow(adjacency[e.from := row.Set(e.to, e)], u, v)
      <==> if u == e.from then v == e.to || v in row.vals else InRow(adjacency, u, v)
  {
  }

  lemma ConnectRows(cfg: Config, g: Graph, op: Op, u: Id, v: Id)
    requires AdjacencyOk(g.nodes, g.adjacency) && Joins(g, op)
    ensures InRow(Apply(cfg, g, op).adjacency, u, v)
      <==> (u == op.from && v == op.to) || (InRow(g.adjacency, u, v) && !EntryLeaves(cfg, g, op, u, v))
  {
    var e, row := Connected(op), g.adjacency[op.from];
    ConnectRow(cfg, g, e);
    if v != op.to {
      RoomMadeBy(cfg, g, op, v);
    }
    if MakesRoom(cfg, g, e) {
      RowSetIn(g.adjacency, row.Delete(Weakest(g, e.from).value), e, u, v);
    } else {
      RowSetIn(g.adjacency, row, e, u, v);
    }
  }

  /** Another neighbour goes exactly when it makes way and the edge map has its key. */
  lemma RoomMadeBy(cfg: Config, g: Graph, op: Op, v: Id)
    requires AdjacencyOk(g.nodes, g.adjacency) && Joins(g, op) && v != op.to
    ensures MakesRoom(cfg, g, Connected(op)) && Weakest(g, op.from) == Some(v)
      <==> MakesWay(cfg, g, op, v) && EdgeKey(op.from, v) in g.edges.vals
  {
    WeakestMeans(Out(g, op.from), v);
    if EdgeKey(op.from, v) == EdgeKey(op.from, op.to) {
      KeyOfSameSource(op.from, v, op.to);
    }
  }

  /** After the entries `keys` of the edge map have been looked at. */
  ghost predicate RowsPruned(o: PruneOptions, g: Graph, keys: seq<string>, now: int, rows: Adjacency, u: Id, v: Id) {
    InRow(rows, u, v) <==> InRow(g.adjacency, u, v) && !exists k :: k in keys && StaleBetween(o, g, k, now, u, v)
  }

  ghost predicate StaleBetween(o: PruneOptions, g: Graph, k: string, now: int, u: Id, v: Id) {
    k in g.edges.vals && g.edges.vals[k].from == u && g.edges.vals[k].to == v && GoesStale(o, g.edges.vals[k], now)
  }

  lemma PruneRowsNext(o: PruneOptions, g: Graph, init: seq<string>, k: string, now: int, g1: Graph, n: nat, u: Id,
      v: Id)
    requires EdgesOk(g.edges) && EdgesPruned(o, g, init, now, g1, n) && k !in init
    requires RowsPruned(o, g, init, now, g1.adjacency, u, v)
    ensures var stale := g1.edges.Has(k) && StaleEdge(o, g1.edges.vals[k], now);
      var g2 := if stale then DisconnectStep(g1, g1.edges.vals[k].from, g1.edges.vals[k].to).0 else g1;
      RowsPruned(o, g, init + [k], now, g2.adjacency, u, v)
  {
    var keys := init + [k];
    assert forall x :: x in keys <==> x in init || x == k;
    assert k in g1.edges.vals <==> k in g.edges.vals;
    if StaleBetween(o, g, k, now, u, v) {
      assert k in keys;
    }
  }

  lemma {:induction false} PruneEdgesRows(o: PruneOptions, g: Graph, keys: seq<string>, now: int, u: Id, v: Id)
    requires EdgesOk(g.edges) && NoDup(keys)
    ensures RowsPruned(o, g, keys, now, PruneEdges(o, g, keys, now).0.adjacency, u, v)
  {
    if keys != [] {
      var init, k := keys[..|keys| - 1], keys[|keys| - 1];
      assert keys == init + [k];
      PruneEdgesRows(o, g, init, now, u, v);
      PruneEdgesIsFilter(o, g, init, now);
      var (g1, n) := PruneEdges(o, g, init, now);
      PruneRowsNext(o, g, init, k, now, g1, n, u, v);
    }
  }

  lemma {:induction false} PruneNodesRows(cfg: Config, o: PruneOptions, g: Graph, ids: seq<Id>, now: int, u: Id, v: Id)
    requires GraphOk(cfg, g) && NoDup(ids)
    ensures var g' := PruneNodes(cfg, o, g, ids, now).0;
      InRow(g'.adjacency, u, v) <==> InRow(g.adjacency, u, v) && u in g'.nodes.vals && v in g'.nodes.vals
  {
    if ids == [] {
      if InRow(g.adjacency, u, v) {
        assert RowOk(g.nodes, u, g.adjacency[u]);
      }
    } else {
      var init, x := ids[..|ids| - 1], ids[|ids| - 1];
      PruneNodesRows(cfg, o, g, init, now, u, v);
      PruneNodesKeepsGraph(cfg, o, g, init, now);
      var g1 := PruneNodes(cfg, o, g, init, now).0;
      RemoveNodeRows(cfg, g1, x, u, v);
    }
  }

  lemma PruneRows(cfg: Config, g: Graph, op: Op, u: Id, v: Id)
    requires op.Prune? && GraphOk(cfg, g)
    ensures InRow(Apply(cfg, g, op).adjacency, u, v) <==> InRow(g.adjacency, u, v) && !EntryLeaves(cfg, g, op, u, v)
  {
    var o, now := op.options, op.now;
    var g1 := PruneEdges(o, g, g.edges.keys, now).0;
    PruneEdgeRows(o, g, now, u, v);
    PruneEdgesIsFilter(o, g, g.edges.keys, now);
    PruneEdgesKeepsGraph(cfg, o, g, g.edges.keys, now);
    PruneNodeRows(cfg, o, g1, now, u, v);
    assert IsUnused(o, g1, now, u) == IsUnused(o, g, now, u) == NodeLeaves(cfg, g, op, u);
    assert IsUnused(o, g1, now, v) == IsUnused(o, g, now, v) == NodeLeaves(cfg, g, op, v);
  }

  lemma PruneEdgeRows(o: PruneOptions, g: Graph, now: int, u: Id, v: Id)
    requires EdgesOk(g.edges)
    ensures InRow(PruneEdges(o, g, g.edges.keys, now).0.adjacency, u, v)
      <==> InRow(g.adjacency, u, v) && !EdgePruned(o, g, now, u, v)
  {
    PruneEdgesRows(o, g, g.edges.keys, now, u, v);
    PrunedMeans(o, g, now, u, v);
  }

  predicate IsUnused(o: PruneOptions, g: Graph, now: int, x: Id) {
    x in g.nodes.vals && GoesUnused(o, g.nodes.vals[x], now)
  }

  lemma PruneNodeRows(cfg: Config, o: PruneOptions, g: Graph, now: int, u: Id, v: Id)
    requires GraphOk(cfg, g)
    ensures InRow(PruneNodes(cfg, o, g, g.nodes.keys, now).0.adjacency, u, v)
      <==> InRow(g.adjacency, u, v) && !IsUnused(o, g, now, u) && !IsUnused(o, g, now, v)
  {
    PruneNodesRows(cfg, o, g, g.nodes.keys, now, u, v);
    PruneNodesIsFilter(cfg, o, g, g.nodes.keys, now);
    if InRow(g.adjacency, u, v) {
      NoRowsOfGone(g.nodes, g.adjacency, u, v);
    }
  }

  lemma PrunedMeans(o: PruneOptions, g: Graph, now: int, u: Id, v: Id)
    ensures EdgePruned(o, g, now, u, v) <==> exists k :: k in g.edges.keys && StaleBetween(o, g, k, now, u, v)
  {
    if EdgePruned(o, g, now, u, v) {
      var k :| k in g.edges.vals && g.edges.vals[k].from == u && g.edges.vals[k].to == v
        && GoesStale(o, g.edges.vals[k], now);
      assert k in g.edges.keys && StaleBetween(o, g, k, now, u, v);
    }
  }

  /** Every operation leaves exactly the adjacency entries it adds and those it does not take away. */
  lemma EntriesAfter(cfg: Config, g: Graph, op: Op, u: Id, v: Id)
    requires GraphOk(cfg, g)
    ensures InRow(Apply(cfg, g, op).adjacency, u, v)
      <==> (Joins(g, op) && u == op.from && v == op.to) || (InRow(g.adjacency, u, v) && !EntryLeaves(cfg, g, op, u, v))
  {
    match op
    case AddNode(_, _, _, _, _, _) => AddNodeRows(cfg, g, op, u, v);
    case RemoveNode(id) => RemoveNodeRows(cfg, g, id, u, v);
    case Connect(_, _, _, _, _, _) =>
      if Joins(g, op) {
        ConnectRows(cfg, g, op, u, v);
      }
    case Disconnect(from, to) => DisconnectRows(g, from, to, u, v);
    case Prune(_, _) => PruneRows(cfg, g, op, u, v);
    case _ =>
  }

  lemma DisconnectRows(g: Graph, from: Id, to: Id, u: Id, v: Id)
    ensures InRow(DisconnectStep(g, from, to).0.adjacency, u, v)
      <==> InRow(g.adjacency, u, v) && !(u == from && v == to && EdgeKey(u, v) in g.edges.vals)
  {
  }

  // ---------- The edge map ----------

  /** Which entry of the edge map an operation takes away. Removing a node takes none. */
  ghost predicate KeyLeaves(cfg: Config, g: Graph, op: Op, k: string) {
    match op
    case Connect(from, _, _, _, _, _) => Joins(g, op) && exists w :: MakesWay(cfg, g, op, w) && k == EdgeKey(from, w)
    case Disconnect(from, to) => k == EdgeKey(from, to)
    case Prune(o, now) => k in g.edges.vals && GoesStale(o, g.edges.vals[k], now)
    case Clear => true
    case _ => false
  }

  lemma ConnectKeys(cfg: Config, g: Graph, op: Op, k: string)
    requires AdjacencyOk(g.nodes, g.adjacency) && Joins(g, op)
    ensures k in Apply(cfg, g, op).edges.vals
      <==> (k == EdgeKey(op.from, op.to) || k in g.edges.vals) && !KeyLeaves(cfg, g, op, k)
  {
    var e, w := Connected(op), Weakest(g, op.from);
    ConnectRow(cfg, g, e);
    LeavingKey(cfg, g, op, k);
    if w.Some? {
      WayMade(cfg, g, op);
    }
  }

  lemma WayMade(cfg: Config, g: Graph, op: Op)
    requires AdjacencyOk(g.nodes, g.adjacency) && Joins(g, op) && Weakest(g, op.from).Some?
    ensures var w, e := Weakest(g, op.from).value, Connected(op);
      MakesRoom(cfg, g, e) <==> MakesWay(cfg, g, op, w) && EdgeKey(op.from, w) in WithEdge(g, e).edges.vals
  {
    WeakestMeans(Out(g, op.from), Weakest(g, op.from).value);
  }

  /** Only one neighbour can make way. */
  lemma LeavingKey(cfg: Config, g: Graph, op: Op, k: string)
    requires Joins(g, op)
    ensures KeyLeaves(cfg, g, op, k) <==> var w := Weakest(g, op.from);
      w.Some? && MakesWay(cfg, g, op, w.value) && k == EdgeKey(op.from, w.value)
  {
    if w :| MakesWay(cfg, g, op, w) && k == EdgeKey(op.from, w) {
      WeakestMeans(Out(g, op.from), w);
    }
  }

  /** Every operation leaves exactly the entries of the edge map that it adds and those it does not take away. */
  lemma KeysAfter(cfg: Config, g: Graph, op: Op, k: string)
    requires GraphOk(cfg, g)
    ensures k in Apply(cfg, g, op).edges.vals
      <==> ((Joins(g, op) && k == EdgeKey(op.from, op.to)) || k in g.edges.vals) && !KeyLeaves(cfg, g, op, k)
  {
    match op
    case Connect(_, _, _, _, _, _) =>
      if Joins(g, op) {
        ConnectKeys(cfg, g, op, k);
      }
    case Prune(o, now) => PruneIsFilter(cfg, g, o, now);
    case _ =>
  }
}
