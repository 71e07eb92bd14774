/**
 src/analysis/memory-qr.js: the bound maxEdgesPerNode. For every run, exactly when each node stays within
 it; and for every value of the bound a run that exceeds it.
 */
module GraphBounds {
  import opened JsCollections
  import opened MemoryGraph
  import opened GraphRuns

  // ---------- What can only shrink ----------

  /** No node has more edges than before; a node that is new has none. */
  ghost predicate NoGrowth(g: Graph, g': Graph) {
    forall u :: u in g'.adjacency && g'.adjacency[u].Size() > 0
      ==> u in g.adjacency && g'.adjacency[u].Size() <= g.adjacency[u].Size()
  }

  lemma NoGrowthTwice(a: Graph, b: Graph, c: Graph)
    requires NoGrowth(a, b) && NoGrowth(b, c)
    ensures NoGrowth(a, c)
  {
  }

  lemma RemoveNodeNoGrowth(cfg: Config, g: Graph, id: Id)
    ensures NoGrowth(g, RemoveNodeStep(cfg, g, id).0)
  {
  }

  lemma DisconnectNoGrowth(g: Graph, from: Id, to: Id)
    ensures NoGrowth(g, DisconnectStep(g, from, to).0)
  {
  }

  lemma AddNodeNoGrowth(cfg: Config, g: Graph, id: Id, kind: string, content: string, metadata: string, now: int,
      accessed: int)
    ensures NoGrowth(g, AddNodeStep(cfg, g, id, kind, content, metadata, now, accessed))
  {
    var oldest := OldestOf(g.nodes, g.nodes.Size());
    if oldest.Some? {
      RemoveNodeNoGrowth(cfg, g, oldest.value);
    }
  }

  lemma {:induction false} PruneEdgesNoGrowth(o: PruneOptions, g: Graph, keys: seq<string>, now: int)
    ensures NoGrowth(g, PruneEdges(o, g, keys, now).0)
  {
    if keys != [] {
      PruneEdgesNoGrowth(o, g, keys[..|keys| - 1], now);
      var g1, k := PruneEdges(o, g, keys[..|keys| - 1], now).0, keys[|keys| - 1];
      if g1.edges.Has(k) {
        DisconnectNoGrowth(g1, g1.edges.vals[k].from, g1.edges.vals[k].to);
      }
    }
  }

  lemma {:induction false} PruneNodesNoGrowth(cfg: Config, o: PruneOptions, g: Graph, ids: seq<Id>, now: int)
    ensures NoGrowth(g, PruneNodes(cfg, o, g, ids, now).0)
  {
    if ids != [] {
      PruneNodesNoGrowth(cfg, o, g, ids[..|ids| - 1], now);
      RemoveNodeNoGrowth(cfg, PruneNodes(cfg, o, g, ids[..|ids| - 1], now).0, ids[|ids| - 1]);
    }
  }

  lemma OthersNoGrowth(cfg: Config, g: Graph, op: Op)
    requires !op.Connect?
    ensures NoGrowth(g, Apply(cfg, g, op))
  {
    match op
    case AddNode(id, kind, content, metadata, now, accessed) =>
      AddNodeNoGrowth(cfg, g, id, kind, content, metadata, now, accessed);
    case RemoveNode(id) => RemoveNodeNoGrowth(cfg, g, id);
    case Disconnect(from, to) => DisconnectNoGrowth(g, from, to);
    case Prune(o, now) =>
      var g1 := PruneEdges(o, g, g.edges.keys, now).0;
      PruneEdgesNoGrowth(o, g, g.edges.keys, now);
      PruneNodesNoGrowth(cfg, o, g1, g1.nodes.keys, now);
      NoGrowthTwice(g, g1, PruneNodes(cfg, o, g1, g1.nodes.keys, now).0);
    case _ =>
  }

  // ---------- Every run ----------

  /** The guard of the branch that must make room, for a call that gets there. */
  predicate FitsOp(cfg: Config, g: Graph, op: Op) {
    op.Connect? && g.nodes.Has(op.from) && g.nodes.Has(op.to) ==> Fits(cfg, g, op.from, op.to)
  }

  lemma ConnectOthersStay(cfg: Config, g: Graph, e: Edge, u: Id)
    requires AdjacencyOk(g.nodes, g.adjacency) && g.nodes.Has(e.from) && g.nodes.Has(e.to)
    requires e.weight == Clamp(e.weight)
    requires u != e.from
    ensures Degree(ConnectEdge(cfg, g, e), u) == Degree(g, u)
  {
    ConnectRow(cfg, g, e);
  }

  lemma BoundedMeans(cfg: Config, g: Graph)
    requires cfg.maxEdgesPerNode >= 0
    ensures Bounded(cfg, g) <==> forall u :: Degree(g, u) <= cfg.maxEdgesPerNode
  {
    if Bounded(cfg, g) {
      forall u ensures Degree(g, u) <= cfg.maxEdgesPerNode {
        assert u in g.adjacency ==> g.adjacency[u].Size() <= cfg.maxEdgesPerNode;
      }
    } else {
      var u :| u in g.adjacency && g.adjacency[u].Size() > cfg.maxEdgesPerNode;
      assert Degree(g, u) > cfg.maxEdgesPerNode;
    }
  }

  lemma ConnectKeepsBoundedIff(cfg: Config, g: Graph, from: Id, to: Id, kind: string, weight: real, metadata: string,
      now: int)
    requires GraphOk(cfg, g) && g.nodes.Has(from) && g.nodes.Has(to) && cfg.maxEdgesPerNode >= 1 && Bounded(cfg, g)
    ensures Bounded(cfg, ConnectStep(cfg, g, from, to, kind, weight, metadata, now).0) <==> Fits(cfg, g, from, to)
  {
    var g' := ConnectStep(cfg, g, from, to, kind, weight, metadata, now).0;
    BoundedMeans(cfg, g);
    BoundedMeans(cfg, g');
    ConnectKeepsBoundIff(cfg, g, from, to, kind, weight, metadata, now);
    var e := Edge(from, to, kind, Clamp(weight), metadata, now);
    forall u | u != from ensures Degree(g', u) == Degree(g, u) {
      ConnectOthersStay(cfg, g, e, u);
    }
  }

  /** An operation keeps every node within its bound exactly when, for a connection, the edge fits. */
  lemma ApplyKeepsBoundIff(cfg: Config, g: Graph, op: Op)
    requires GraphOk(cfg, g) && cfg.maxEdgesPerNode >= 1 && Bounded(cfg, g)
    ensures Bounded(cfg, Apply(cfg, g, op)) <==> FitsOp(cfg, g, op)
  {
    if op.Connect? {
      if g.nodes.Has(op.from) && g.nodes.Has(op.to) {
        ConnectKeepsBoundedIff(cfg, g, op.from, op.to, op.relationship, op.weight, op.metadata, op.now);
      }
    } else {
      OthersNoGrowth(cfg, g, op);
    }
  }

  ghost predicate AlwaysBounded(cfg: Config, ops: seq<Op>) {
    Bounded(cfg, Run(cfg, ops)) && (ops == [] || AlwaysBounded(cfg, ops[..|ops| - 1]))
  }

  ghost predicate AlwaysFits(cfg: Config, ops: seq<Op>) {
    ops == [] || (AlwaysFits(cfg, ops[..|ops| - 1]) && FitsOp(cfg, Run(cfg, ops[..|ops| - 1]), ops[|ops| - 1]))
  }

  /** A run keeps every node within maxEdgesPerNode all along exactly when each of its connections fits. */
  lemma {:induction false} RunKeepsBoundIff(cfg: Config, ops: seq<Op>)
    requires cfg.maxEdgesPerNode >= 1
    ensures AlwaysBounded(cfg, ops) <==> AlwaysFits(cfg, ops)
  {
    if ops != [] {
      RunKeepsBoundIff(cfg, ops[..|ops| - 1]);
      RunKeepsGraph(cfg, ops[..|ops| - 1]);
      if AlwaysBounded(cfg, ops[..|ops| - 1]) {
        BoundedPrefix(cfg, ops[..|ops| - 1]);
        ApplyKeepsBoundIff(cfg, Run(cfg, ops[..|ops| - 1]), ops[|ops| - 1]);
      }
    }
  }

  lemma BoundedPrefix(cfg: Config, ops: seq<Op>)
    requires AlwaysBounded(cfg, ops)
    ensures Bounded(cfg, Run(cfg, ops))
  {
  }

  // ---------- How the bound is lost ----------

  /** What reconnecting the weakest neighbour of a full node does: the neighbour moves to the end, its entry goes. */
  ghost predicate Reconnected(g: Graph, again: Edge, g1: Graph) {
    && again.from in g.adjacency && again.from in g1.adjacency && g1.nodes == g.nodes
    && g1.adjacency[again.from] == g.adjacency[again.from].Delete(again.to).Set(again.to, again)
    && g1.edges.vals == g.edges.vals - {EdgeKey(again.from, again.to)}
  }

  lemma SetThenDelete(edges: JsMap<string, Edge>, k: string, e: Edge)
    ensures edges.Set(k, e).Delete(k).vals == edges.vals - {k}
  {
  }

  lemma AfterReconnecting(cfg: Config, g: Graph, again: Edge)
    requires AdjacencyOk(g.nodes, g.adjacency) && again.weight == Clamp(again.weight)
    requires g.nodes.Has(again.from) && g.nodes.Has(again.to) && EvictsItself(cfg, g, again.from, again.to)
    ensures Reconnected(g, again,
      ConnectEdge(cfg, g, again))
  {
    ConnectRow(cfg, g, again);
    EvictsItselfMakesRoom(cfg, g, again);
    SetThenDelete(g.edges, EdgeKey(again.from, again.to), again);
  }

  /** Then the next eviction finds an entry exactly when another neighbour is the weakest. */
  lemma EvictableAfterReconnecting(g: Graph, again: Edge, g1: Graph)
    requires Reconnected(g, again, g1) && again.to in g.adjacency[again.from].vals
    requires CoveredRow(again.from, g.adjacency[again.from], g.edges) && "" !in g.adjacency[again.from].vals
    ensures Evictable(g1, again.from) <==> Weakest(g1, again.from) != Some(again.to)
  {
    var w := Weakest(g1, again.from).value;
    assert w in g.adjacency[again.from].vals;
    if w != again.to && EdgeKey(again.from, w) == EdgeKey(again.from, again.to) {
      KeyOfSameSource(again.from, w, again.to);
    }
  }

  lemma SameDegree(g: Graph, again: Edge, g1: Graph)
    requires Reconnected(g, again, g1) && again.to in g.adjacency[again.from].vals
    ensures Degree(g1, again.from) == Degree(g, again.from)
    ensures forall v :: v in g1.adjacency[again.from].vals <==> v in g.adjacency[again.from].vals
  {
  }

  /**
   A full node has its weakest neighbour connected again. The next new neighbour takes it above the bound
   exactly when that neighbour is still the weakest: its entry is no longer there to be evicted.
   */
  lemma ReconnectingLosesTheBoundIff(cfg: Config, g: Graph, again: Edge, e: Edge)
    requires GraphOk(cfg, g) && again.weight == Clamp(again.weight) && cfg.maxEdgesPerNode >= 1
    requires g.nodes.Has(again.from) && g.nodes.Has(again.to) && e.from == again.from && g.nodes.Has(e.to)
    requires Degree(g, e.from) == cfg.maxEdgesPerNode && Weakest(g, e.from) == Some(again.to)
    requires CoveredRow(e.from, g.adjacency[e.from], g.edges) && "" !in g.adjacency[e.from].vals
    requires e.to !in g.adjacency[e.from].vals
    ensures var g1 := ConnectEdge(cfg, g, again);
      var g2 := ConnectEdge(cfg, g1, e);
      Degree(g2, e.from) > cfg.maxEdgesPerNode <==> Weakest(g1, e.from) == Some(again.to)
  {
    var g1 := ConnectEdge(cfg, g, again);
    AfterReconnecting(cfg, g, again);
    EvictableAfterReconnecting(g, again, g1);
    SameDegree(g, again, g1);
    ConnectKeepsGraph(cfg, g, again.from, again.to, again.kind, again.weight, again.metadata, again.timestamp);
    NextExceeds(cfg, g1, e);
  }

  lemma NextExceeds(cfg: Config, g: Graph, e: Edge)
    requires GraphOk(cfg, g) && g.nodes.Has(e.from) && g.nodes.Has(e.to) && cfg.maxEdgesPerNode >= 1
    requires Degree(g, e.from) == cfg.maxEdgesPerNode && e.to !in g.adjacency[e.from].vals
    ensures Degree(ConnectEdge(cfg, g, e), e.from) > cfg.maxEdgesPerNode
      <==> !Evictable(g, e.from)
  {
    ConnectKeepsBoundIff(cfg, g, e.from, e.to, e.kind, e.weight, e.metadata, e.timestamp);
  }

  // ---------- A run that loses the bound ----------

  lemma RunAppend(cfg: Config, ops: seq<Op>, op: Op)
    ensures Run(cfg, ops + [op]) == Apply(cfg, Run(cfg, ops), op)
  {
    assert (ops + [op])[..|ops|] == ops;
  }

  function Adding(id: Id): Op { AddNode(id, "", "", "", 0, 0) }

  /** The nodes are `ids`, in that order, and have no edges. */
  ghost predicate Isolated(g: Graph, ids: seq<Id>) {
    g.nodes.keys == ids && forall id :: id in ids ==> id in g.adjacency && g.adjacency[id].keys == []
  }

  lemma AddingEffect(cfg: Config, g: Graph, ids: seq<Id>, id: Id)
    requires |ids| < cfg.maxNodes && id !in ids && Isolated(g, ids)
    ensures Isolated(Apply(cfg, g, Adding(id)), ids + [id])
  {
    assert id !in g.nodes.keys;
  }

  function Addings(ids: seq<Id>): seq<Op> { seq(|ids|, i requires 0 <= i < |ids| => Adding(ids[i])) }

  /** Adding distinct ids, up to maxNodes of them, leaves nodes in that order and no edges. */
  lemma {:induction false} FreshNodes(cfg: Config, ids: seq<Id>)
    requires NoDup(ids) && |ids| <= cfg.maxNodes
    ensures Isolated(Run(cfg, Addings(ids)), ids)
  {
    if ids != [] {
      var init, id := ids[..|ids| - 1], ids[|ids| - 1];
      FreshNodes(cfg, init);
      var ops, op, g := Addings(init), Adding(id), Run(cfg, Addings(init));
      AddingEffect(cfg, g, init, id);
      assert Addings(ids) == ops + [op] && ids == init + [id];
      RunAppend(cfg, ops, op);
    }
  }

  /** The neighbour b gets the least weight, all others the greatest. */
  function Spoke(a: Id, b: Id, v: Id): Edge { Edge(a, v, "", if v == b then 0.0 else 1.0, "", 0) }

  function Connecting(e: Edge): Op { Connect(e.from, e.to, e.kind, e.weight, e.metadata, e.timestamp) }

  lemma ApplyConnecting(cfg: Config, g: Graph, e: Edge)
    ensures Apply(cfg, g, Connecting(e)) == ConnectEdge(cfg, g, e)
  {
  }

  function Spokes(a: Id, b: Id, targets: seq<Id>): seq<Op> {
    seq(|targets|, i requires 0 <= i < |targets| => Connecting(Spoke(a, b, targets[i])))
  }

  /** The neighbours of a are `targets`, in that order, each with its own weight, and in the edge map. */
  ghost predicate Star(g: Graph, a: Id, b: Id, targets: seq<Id>) {
    && a in g.adjacency && g.adjacency[a].keys == targets && CoveredRow(a, g.adjacency[a], g.edges)
    && forall v :: v in g.adjacency[a].vals ==> g.adjacency[a].vals[v] == Spoke(a, b, v)
  }

  lemma SpokeInRow(row: Neighbours, a: Id, b: Id, targets: seq<Id>, v: Id)
    requires row.keys == targets && v !in targets && forall u :: u in row.vals ==> row.vals[u] == Spoke(a, b, u)
    ensures var row' := row.Set(v, Spoke(a, b, v));
      row'.keys == targets + [v] && forall u :: u in row'.vals ==> row'.vals[u] == Spoke(a, b, u)
  {
    assert v !in row.keys;
  }

  lemma SpokeAdded(cfg: Config, g: Graph, a: Id, b: Id, targets: seq<Id>, v: Id)
    requires GraphOk(cfg, g) && Star(g, a, b, targets) && |targets| < cfg.maxEdgesPerNode && v !in targets
    requires g.nodes.Has(v)
    ensures var g' := ConnectEdge(cfg, g, Spoke(a, b, v)); g'.nodes == g.nodes && Star(g', a, b, targets + [v])
  {
    ConnectRow(cfg, g, Spoke(a, b, v));
    SpokeInRow(g.adjacency[a], a, b, targets, v);
  }

  lemma {:induction false} SpokesAdded(cfg: Config, ops: seq<Op>, a: Id, b: Id, targets: seq<Id>)
    requires Star(Run(cfg, ops), a, b, []) && |targets| <= cfg.maxEdgesPerNode && NoDup(targets)
    requires forall v :: v in targets ==> Run(cfg, ops).nodes.Has(v)
    ensures var g := Run(cfg, ops + Spokes(a, b, targets)); g.nodes == Run(cfg, ops).nodes && Star(g, a, b, targets)
  {
    if targets == [] {
      assert ops + Spokes(a, b, targets) == ops;
    } else {
      var init, v := targets[..|targets| - 1], targets[|targets| - 1];
      SpokesAdded(cfg, ops, a, b, init);
      assert targets == init + [v];
      var before := ops + Spokes(a, b, init);
      assert ops + Spokes(a, b, targets) == before + [Connecting(Spoke(a, b, v))];
      RunKeepsGraph(cfg, before);
      SpokeAdded(cfg, Run(cfg, before), a, b, init, v);
      RunAppend(cfg, before, Connecting(Spoke(a, b, v)));
      ApplyConnecting(cfg, Run(cfg, before), Spoke(a, b, v));
    }
  }

  /** Two nodes and an edge between them. */
  lemma Connected(cfg: Config, a: Id, b: Id)
    requires cfg.maxNodes >= 2 && cfg.maxEdgesPerNode >= 1 && a != b
    ensures var g := Run(cfg, Addings([a, b]) + Spokes(a, b, [b]));
      Star(g, a, b, [b]) && g.nodes.Has(a) && g.nodes.Has(b)
  {
    var ids := [a, b];
    FreshNodes(cfg, ids);
    NodesThere(Run(cfg, Addings(ids)), ids);
    assert a in ids && b in ids;
    SpokesAdded(cfg, Addings(ids), a, b, [b]);
  }

  lemma {:induction false} LeastIsWeakest(row: Neighbours, v: Id, n: nat)
    requires n <= row.Size() && v in row.vals && v in row.keys[..n]
    requires forall u :: u in row.vals && u != v ==> row.vals[v].weight < row.vals[u].weight
    ensures WeakestOf(row, n) == Some(v)
  {
    assert row.keys[..n] == row.keys[..n - 1] + [row.keys[n - 1]];
    if row.keys[n - 1] != v {
      LeastIsWeakest(row, v, n - 1);
    } else {
      assert row.keys[n - 1] in row.keys;
      if n > 1 {
        var best := WeakestOf(row, n - 1);
        WeakestAmong(row, n - 1);
        assert best.value != v;
      }
    }
  }

  lemma {:induction false} WeakestAmong(row: Neighbours, n: nat)
    requires 0 < n <= row.Size()
    ensures WeakestOf(row, n).value in row.keys[..n]
  {
    if n > 1 {
      WeakestAmong(row, n - 1);
      assert row.keys[..n] == row.keys[..n - 1] + [row.keys[n - 1]];
    }
  }

  lemma WeakestSpoke(g: Graph, a: Id, b: Id, targets: seq<Id>)
    requires Star(g, a, b, targets) && b in targets
    ensures Weakest(g, a) == Some(b)
  {
    var row := g.adjacency[a];
    assert row.keys[..row.Size()] == row.keys;
    LeastIsWeakest(row, b, row.Size());
  }

  /** Reconnecting b and then connecting c takes a full star one above the bound. */
  lemma StarExceeds(cfg: Config, g: Graph, a: Id, b: Id, targets: seq<Id>, c: Id)
    requires GraphOk(cfg, g) && Star(g, a, b, targets) && |targets| == cfg.maxEdgesPerNode && b in targets
    requires "" !in targets
    requires c !in targets && g.nodes.Has(b) && g.nodes.Has(c)
    ensures Degree(ConnectEdge(cfg, ConnectEdge(cfg, g, Spoke(a, b, b)), Spoke(a, b, c)), a) > cfg.maxEdgesPerNode
  {
    var again, row := Spoke(a, b, b), g.adjacency[a];
    assert (forall v :: v in row.vals <==> v in targets) && Degree(g, a) == cfg.maxEdgesPerNode;
    WeakestSpoke(g, a, b, targets);
    AfterReconnecting(cfg, g, again);
    StillWeakest(g, a, b, targets, ConnectEdge(cfg, g, again));
    ReconnectingLosesTheBoundIff(cfg, g, again, Spoke(a, b, c));
  }

  lemma StillWeakest(g: Graph, a: Id, b: Id, targets: seq<Id>, g1: Graph)
    requires Star(g, a, b, targets) && b in targets && Reconnected(g, Spoke(a, b, b), g1)
    ensures Weakest(g1, a) == Some(b)
  {
    var row := g1.adjacency[a];
    assert row.keys[..row.Size()] == row.keys;
    assert b in row.keys;
    LeastIsWeakest(row, b, row.Size());
  }

  function LosingRun(ids: seq<Id>, n: nat): seq<Op>
    requires |ids| == n + 2 && n >= 1
  {
    Addings(ids) + Spokes(ids[0], ids[1], ids[1..n + 1]) + [Connecting(Spoke(ids[0], ids[1], ids[1]))]
      + [Connecting(Spoke(ids[0], ids[1], ids[n + 1]))]
  }

  /** A run to a full star around the first id, and one node more. */
  lemma StarIsReached(cfg: Config, ids: seq<Id>, n: nat)
    requires cfg.maxEdgesPerNode == n >= 1 && cfg.maxNodes >= |ids| == n + 2 && NoDup(ids)
    ensures var g := Run(cfg, Addings(ids) + Spokes(ids[0], ids[1], ids[1..n + 1]));
      GraphOk(cfg, g) && Star(g, ids[0], ids[1], ids[1..n + 1]) && forall id :: id in ids ==> g.nodes.Has(id)
  {
    var nodes, targets := Addings(ids), ids[1..n + 1];
    FreshNodes(cfg, ids);
    RunKeepsGraph(cfg, nodes);
    NodesThere(Run(cfg, nodes), ids);
    SpokesAdded(cfg, nodes, ids[0], ids[1], targets);
    RunKeepsGraph(cfg, nodes + Spokes(ids[0], ids[1], targets));
  }

  lemma NodesThere(g: Graph, ids: seq<Id>)
    requires Isolated(g, ids) && |ids| >= 2
    ensures forall id :: id in ids ==> g.nodes.Has(id)
    ensures Star(g, ids[0], ids[1], [])
  {
    assert ids[0] in ids;
    assert forall v :: v in g.adjacency[ids[0]].vals ==> v in g.adjacency[ids[0]].keys;
  }

  /** Whatever the bound is, there is a run that exceeds it. */
  lemma BoundIsLost(cfg: Config, ids: seq<Id>, n: nat)
    requires n == cfg.maxEdgesPerNode >= 1 && cfg.maxNodes >= |ids| == n + 2 && NoDup(ids) && "" !in ids
    ensures Degree(Run(cfg, LosingRun(ids, n)), ids[0]) > cfg.maxEdgesPerNode
  {
    var full := Addings(ids) + Spokes(ids[0], ids[1], ids[1..n + 1]);
    var e, f := Spoke(ids[0], ids[1], ids[1]), Spoke(ids[0], ids[1], ids[n + 1]);
    StarIsReached(cfg, ids, n);
    SecondAndLast(ids, n);
    StarExceeds(cfg, Run(cfg, full), ids[0], ids[1], ids[1..n + 1], ids[n + 1]);
    assert LosingRun(ids, n) == full + [Connecting(e)] + [Connecting(f)];
    assert Run(cfg, LosingRun(ids, n)) == ConnectEdge(cfg, ConnectEdge(cfg, Run(cfg, full), e), f) by {
      RunTwoMore(cfg, full, e, f);
    }
  }

  lemma SecondAndLast(ids: seq<Id>, n: nat)
    requires n >= 1 && |ids| == n + 2 && NoDup(ids)
    ensures ids[1] in ids[1..n + 1] && ids[n + 1] !in ids[1..n + 1] && ids[1] in ids && ids[n + 1] in ids
    ensures "" !in ids ==> "" !in ids[1..n + 1]
  {
    assert ids[1..n + 1][0] == ids[1];
  }

  lemma RunTwoMore(cfg: Config, ops: seq<Op>, e: Edge, f: Edge)
    ensures Run(cfg, ops + [Connecting(e)] + [Connecting(f)]) == ConnectEdge(cfg, ConnectEdge(cfg, Run(cfg, ops), e), f)
  {
    RunAppend(cfg, ops, Connecting(e));
    RunAppend(cfg, ops + [Connecting(e)], Connecting(f));
  }
}
