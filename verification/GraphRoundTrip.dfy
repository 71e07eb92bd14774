/**
 src/analysis/memory-qr.js, toJSON and fromJSON, for every graph, whether or not a node has the empty id, which
 is never evicted: exactly when the import evicts nothing, and so restores the graph.
 */
module GraphRoundTrip {
  import opened JsCollections
  import opened MemoryGraph
  import opened GraphRuns
  import opened GraphJson

  // ---------- What the export tells ----------

  /** The neighbours of u once these edges have been connected, if nothing is evicted. */
  function RowOf(edges: seq<Edge>, u: Id): Neighbours {
    if edges == [] then EmptyMap()
    else
      var row, e := RowOf(edges[..|edges| - 1], u), edges[|edges| - 1];
      if e.from == u then row.Set(e.to, e) else row
  }

  /** No edge is evicted for edge n: there is room, or nothing to evict, or the weakest edge leads to the empty id. */
  predicate Spares(cfg: Config, edges: seq<Edge>, n: nat)
    requires n < |edges|
  {
    var row := RowOf(edges[..n], edges[n].from);
    row.Size() < cfg.maxEdgesPerNode || row.Size() == 0 || WeakestOf(row, row.Size()) == Some("")
  }

  predicate SparesAll(cfg: Config, edges: seq<Edge>, n: nat)
    requires n <= |edges|
  {
    forall i: nat :: i < n ==> Spares(cfg, edges, i)
  }

  // ---------- Rows ----------

  ghost predicate SameRow(a: Neighbours, b: Neighbours) { a.keys == b.keys && SameEdges(a, b) }

  lemma {:induction false} WeakestSame(a: Neighbours, b: Neighbours, n: nat)
    requires SameRow(a, b) && n <= a.Size()
    ensures WeakestOf(a, n) == WeakestOf(b, n)
  {
    if n > 0 {
      WeakestSame(a, b, n - 1);
      var k := a.keys[n - 1];
      assert k in a.keys && k in a.vals;
    }
  }

  ghost predicate RowsInStep(edges: seq<Edge>, adjacency: Adjacency) {
    forall u :: u in adjacency ==> SameRow(adjacency[u], RowOf(edges, u))
  }

  lemma RowSame(a: Neighbours, b: Neighbours, e: Edge, f: Edge)
    requires SameRow(a, b) && SameEdge(e, f)
    ensures SameRow(a.Set(e.to, e), b.Set(e.to, f))
  {
    assert e.to in a.vals <==> e.to in a.keys;
    assert e.to in b.vals <==> e.to in b.keys;
  }

  lemma RowsExtended(edges: seq<Edge>, adjacency: Adjacency, e: Edge, f: Edge)
    requires RowsInStep(edges, adjacency) && e.from in adjacency && SameEdge(e, f)
    ensures RowsInStep(edges + [f], adjacency[e.from := adjacency[e.from].Set(e.to, e)])
  {
    var adjacency' := adjacency[e.from := adjacency[e.from].Set(e.to, e)];
    assert (edges + [f])[..|edges|] == edges;
    forall u | u in adjacency' ensures SameRow(adjacency'[u], RowOf(edges + [f], u)) {
      assert SameRow(adjacency[u], RowOf(edges, u));
      if u == e.from {
        RowSame(adjacency[u], RowOf(edges, u), e, f);
      }
    }
  }

  // ---------- One edge ----------

  /** The first n edges are in, with their rows in the order of the export. */
  ghost predicate Exact(g: Graph, n: nat, h: Graph) {
    Synced(g, n, h) && RowsInStep(ValuesOf(g.edges)[..n], h.adjacency)
  }

  /** A neighbour's edge is found under its key. */
  lemma EvictableIff(h: Graph, u: Id)
    requires AdjacencyOk(h.nodes, h.adjacency) && Mirror(h.adjacency, h.edges) && u in h.adjacency
    ensures Evictable(h, u) <==> Degree(h, u) >= 1 && Weakest(h, u) != Some("")
  {
    assert RowMirrored(u, h.adjacency[u], h.edges);
  }

  lemma EvictsIff(cfg: Config, g: Graph, n: nat, h: Graph, now: int)
    requires Exportable(cfg, g) && n < g.edges.Size() && Exact(g, n, h)
    ensures MakesRoom(cfg, h, Stamped(ValuesOf(g.edges)[n], now)) <==> !Spares(cfg, ValuesOf(g.edges), n)
  {
    var e := Stamped(ValuesOf(g.edges)[n], now);
    NextEdge(cfg, g, n, h);
    RoomForNew(cfg, h, e);
    EvictableIff(h, e.from);
    var row := RowOf(ValuesOf(g.edges)[..n], e.from);
    assert SameRow(h.adjacency[e.from], row);
    WeakestSame(h.adjacency[e.from], row, row.Size());
  }

  lemma ExtendedSynced(g: Graph, n: nat, h: Graph, e: Edge)
    requires n < g.edges.Size() && Synced(g, n, h) && e.from in h.adjacency && h.nodes.Has(e.to)
    requires EdgeKey(e.from, e.to) == g.edges.keys[n] && g.edges.keys[n] in g.edges.vals
    requires SameEdge(e, g.edges.vals[g.edges.keys[n]])
    ensures Synced(g, n + 1, Extended(h, e))
  {
    NotYetIn(g, n, h);
    NextKey(g.edges, n, h.edges, e);
    NewEntryMirrored(h.adjacency, h.edges, e);
    SameEdgesGrow(h.edges, g.edges, EdgeKey(e.from, e.to), e);
    SetKeepsAdjacency(h.nodes, h.adjacency, e);
  }

  lemma SparedConnects(cfg: Config, g: Graph, n: nat, h: Graph, e: Edge)
    requires Exportable(cfg, g) && n < g.edges.Size() && Synced(g, n, h) && SameEdge(e, ValuesOf(g.edges)[n])
    requires !MakesRoom(cfg, h, e)
    ensures e.from in h.adjacency && ConnectEdge(cfg, h, e) == Extended(h, e)
  {
    ExportedEdge(g, n);
    NextEdge(cfg, g, n, h);
    ConnectRow(cfg, h, e);
  }

  lemma SparedSynced(cfg: Config, g: Graph, n: nat, h: Graph, e: Edge)
    requires Exportable(cfg, g) && n < g.edges.Size() && Synced(g, n, h) && SameEdge(e, ValuesOf(g.edges)[n])
    requires e.from in h.adjacency
    ensures Synced(g, n + 1, Extended(h, e))
  {
    ExportedEdge(g, n);
    NextEdge(cfg, g, n, h);
    ExtendedSynced(g, n, h, e);
  }

  lemma SparedRows(edges: seq<Edge>, n: nat, h: Graph, e: Edge)
    requires n < |edges| && RowsInStep(edges[..n], h.adjacency) && SameEdge(e, edges[n]) && e.from in h.adjacency
    ensures RowsInStep(edges[..n + 1], Extended(h, e).adjacency)
  {
    RowsExtended(edges[..n], h.adjacency, e, edges[n]);
    assert edges[..n + 1] == edges[..n] + [edges[n]];
  }

  lemma SparedEdge(cfg: Config, g: Graph, n: nat, h: Graph, now: int)
    requires Exportable(cfg, g) && n < g.edges.Size() && Exact(g, n, h)
    requires !MakesRoom(cfg, h, Stamped(ValuesOf(g.edges)[n], now))
    ensures Exact(g, n + 1, ConnectEdge(cfg, h, Stamped(ValuesOf(g.edges)[n], now)))
  {
    var e := Stamped(ValuesOf(g.edges)[n], now);
    SparedConnects(cfg, g, n, h, e);
    SparedSynced(cfg, g, n, h, e);
    SparedRows(ValuesOf(g.edges), n, h, e);
  }

  lemma LostEdge(cfg: Config, g: Graph, n: nat, h: Graph, now: int)
    requires Exportable(cfg, g) && n < g.edges.Size() && Exact(g, n, h)
    requires MakesRoom(cfg, h, Stamped(ValuesOf(g.edges)[n], now))
    ensures ConnectEdge(cfg, h, Stamped(ValuesOf(g.edges)[n], now)).edges.Size() == n
  {
    var e := Stamped(ValuesOf(g.edges)[n], now);
    ExportedEdge(g, n);
    NextEdge(cfg, g, n, h);
    ConnectRow(cfg, h, e);
    RoomForNew(cfg, h, e);
    SwapEntries(h.edges, EdgeKey(e.from, e.to), e, EdgeKey(e.from, Weakest(h, e.from).value));
  }

  // ---------- All edges ----------

  /** Nothing was evicted so far, or an edge is missing for good. */
  ghost predicate ExactOrBehind(cfg: Config, g: Graph, n: nat, h: Graph) {
    n <= g.edges.Size()
      && if SparesAll(cfg, ValuesOf(g.edges), n) then Exact(g, n, h) else h.edges.Size() < n
  }

  lemma SparesOneMore(cfg: Config, edges: seq<Edge>, n: nat)
    requires n < |edges|
    ensures SparesAll(cfg, edges, n + 1) <==> SparesAll(cfg, edges, n) && Spares(cfg, edges, n)
  {
  }

  lemma NextExact(cfg: Config, g: Graph, n: nat, h: Graph, now: int)
    requires Exportable(cfg, g) && n < g.edges.Size() && Exact(g, n, h)
    ensures var h' := ConnectEdge(cfg, h, Stamped(ValuesOf(g.edges)[n], now));
      if Spares(cfg, ValuesOf(g.edges), n) then Exact(g, n + 1, h') else h'.edges.Size() == n
  {
    EvictsIff(cfg, g, n, h, now);
    if Spares(cfg, ValuesOf(g.edges), n) {
      SparedEdge(cfg, g, n, h, now);
    } else {
      LostEdge(cfg, g, n, h, now);
    }
  }

  lemma NextImported(cfg: Config, g: Graph, n: nat, h: Graph, now: int)
    requires Exportable(cfg, g) && n < g.edges.Size() && ExactOrBehind(cfg, g, n, h)
    ensures ExactOrBehind(cfg, g, n + 1, ConnectEdge(cfg, h, Stamped(ValuesOf(g.edges)[n], now)))
  {
    SparesOneMore(cfg, ValuesOf(g.edges), n);
    if SparesAll(cfg, ValuesOf(g.edges), n) {
      NextExact(cfg, g, n, h, now);
    } else {
      AtMostOneMore(cfg, h, Stamped(ValuesOf(g.edges)[n], now));
    }
  }

  lemma EachNextImported(cfg: Config, g: Graph, clock: nat -> int)
    requires Exportable(cfg, g)
    ensures forall i: nat, x: Graph :: (i < g.edges.Size() && ExactOrBehind(cfg, g, i, x)
      ==> ExactOrBehind(cfg, g, i + 1, ConnectEdge(cfg, x, Stamped(ValuesOf(g.edges)[i], clock(i)))))
  {
    forall i: nat, x: Graph | i < g.edges.Size() && ExactOrBehind(cfg, g, i, x)
      ensures ExactOrBehind(cfg, g, i + 1, ConnectEdge(cfg, x, Stamped(ValuesOf(g.edges)[i], clock(i))))
    {
      NextImported(cfg, g, i, x, clock(i));
    }
  }

  lemma AllImported(cfg: Config, g: Graph, h: Graph, clock: nat -> int)
    requires Exportable(cfg, g) && ExactOrBehind(cfg, g, 0, h)
    ensures ExactOrBehind(cfg, g, g.edges.Size(), ImportEdges(cfg, h, ValuesOf(g.edges), clock))
  {
    EachNextImported(cfg, g, clock);
    AllKeep(cfg, h, ValuesOf(g.edges), clock, (i: nat, x: Graph) => ExactOrBehind(cfg, g, i, x));
  }

  lemma NoRowsYet(g: Graph, h: Graph)
    requires NodesUpTo(g, g.nodes.Size(), h) && AdjacencyOk(h.nodes, h.adjacency)
    ensures Exact(g, 0, h)
  {
    assert g.nodes.keys[..g.nodes.Size()] == g.nodes.keys;
    AllNodes(h.nodes, g.nodes);
    NoEntries(h.adjacency, h.edges);
    assert EmptyMap<string, Edge>().keys == g.edges.keys[..0];
    assert ValuesOf(g.edges)[..0] == [];
  }

  lemma ImportStartsExact(cfg: Config, g: Graph)
    requires Exportable(cfg, g)
    ensures ExactOrBehind(cfg, g, 0, ImportNodes(cfg, ValuesOf(g.nodes)))
  {
    NodesImported(cfg, g, g.nodes.Size());
    assert ValuesOf(g.nodes)[..g.nodes.Size()] == ValuesOf(g.nodes);
    NoRowsYet(g, ImportNodes(cfg, ValuesOf(g.nodes)));
  }

  /**
   Importing an export restores a mirrored graph exactly when, as the edges are connected in the order of the
   export, the weakest edge of a node that is full always leads to the node with the empty id.
   */
  lemma RestoredIffSpared(cfg: Config, g: Graph, clock: nat -> int)
    requires Exportable(cfg, g)
    ensures Restored(g, FromJson(cfg, ToJson(g), clock)) <==> SparesAll(cfg, ValuesOf(g.edges), g.edges.Size())
  {
    var h := ImportNodes(cfg, ValuesOf(g.nodes));
    ImportStartsExact(cfg, g);
    AllImported(cfg, g, h, clock);
    if SparesAll(cfg, ValuesOf(g.edges), g.edges.Size()) {
      SyncedIsRestored(cfg, g, ImportEdges(cfg, h, ValuesOf(g.edges), clock));
    }
  }
}
