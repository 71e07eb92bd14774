/**
 src/analysis/memory-qr.js, what each operation adds and takes away, in terms of what was there: which node and
 which edge makes room, what pruning keeps, and exactly when the number of nodes stays within its bound.
 */
module GraphEffects {
  import opened JsCollections
  import opened MemoryGraph
  import opened GraphRuns
  import opened GraphBounds
  import GraphMirror

  // ---------- Who makes room ----------

  /** Of the nodes not accessed since any other, the first. */
  ghost predicate IsOldest(nodes: Nodes, x: Id) {
    exists i :: 0 <= i < |nodes.keys| && nodes.keys[i] == x && FirstLeast(nodes, i)
  }

  ghost predicate FirstLeast(nodes: Nodes, i: nat)
    requires i < |nodes.keys|
  {
    assert forall j :: 0 <= j < |nodes.keys| ==> nodes.keys[j] in nodes.keys;
    && (forall j :: 0 <= j < |nodes.keys| ==>
      nodes.vals[nodes.keys[i]].lastAccessed <= nodes.vals[nodes.keys[j]].lastAccessed)
    && (forall j :: 0 <= j < i ==> nodes.vals[nodes.keys[i]].lastAccessed < nodes.vals[nodes.keys[j]].lastAccessed)
  }

  ghost predicate FirstLeastOf(nodes: Nodes, n: nat, i: nat)
    requires i < n <= |nodes.keys|
  {
    assert forall j :: 0 <= j < |nodes.keys| ==> nodes.keys[j] in nodes.keys;
    && (forall j :: 0 <= j < n ==>
      nodes.vals[nodes.keys[i]].lastAccessed <= nodes.vals[nodes.keys[j]].lastAccessed)
    && (forall j :: 0 <= j < i ==> nodes.vals[nodes.keys[i]].lastAccessed < nodes.vals[nodes.keys[j]].lastAccessed)
  }

  lemma {:induction false} OldestIsFirstLeast(nodes: Nodes, n: nat) returns (i: nat)
    requires 0 < n <= nodes.Size()
    ensures i < n && OldestOf(nodes, n) == Some(nodes.keys[i]) && FirstLeastOf(nodes, n, i)
  {
    assert forall j :: 0 <= j < |nodes.keys| ==> nodes.keys[j] in nodes.keys;
    if n == 1 {
      i := 0;
      assert OldestOf(nodes, 0) == None;
    } else {
      i := OldestIsFirstLeast(nodes, n - 1);
      if nodes.vals[nodes.keys[n - 1]].lastAccessed < nodes.vals[nodes.keys[i]].lastAccessed {
        i := n - 1;
      }
    }
  }

  /** evictOldest picks the node with the least access time, the first of them, and none only if there is none. */
  lemma OldestMeans(nodes: Nodes, x: Id)
    ensures OldestOf(nodes, nodes.Size()) == Some(x) <==> IsOldest(nodes, x)
    ensures OldestOf(nodes, nodes.Size()) == None <==> nodes.keys == []
  {
    if nodes.keys != [] {
      var i := OldestIsFirstLeast(nodes, nodes.Size());
      assert FirstLeast(nodes, i);
      if k :| 0 <= k < |nodes.keys| && nodes.keys[k] == x && FirstLeast(nodes, k) {
        assert k == i;
      }
    }
  }

  ghost predicate IsWeakest(row: Neighbours, x: Id) {
    exists i :: 0 <= i < |row.keys| && row.keys[i] == x && FirstLight(row, |row.keys|, i)
  }

  ghost predicate FirstLight(row: Neighbours, n: nat, i: nat)
    requires i < n <= |row.keys|
  {
    assert forall j :: 0 <= j < |row.keys| ==> row.keys[j] in row.keys;
    && (forall j :: 0 <= j < n ==> row.vals[row.keys[i]].weight <= row.vals[row.keys[j]].weight)
    && (forall j :: 0 <= j < i ==> row.vals[row.keys[i]].weight < row.vals[row.keys[j]].weight)
  }

  lemma {:induction false} WeakestIsFirstLight(row: Neighbours, n: nat) returns (i: nat)
    requires 0 < n <= row.Size()
    ensures i < n && WeakestOf(row, n) == Some(row.keys[i]) && FirstLight(row, n, i)
  {
    assert forall j :: 0 <= j < |row.keys| ==> row.keys[j] in row.keys;
    if n == 1 {
      i := 0;
      assert WeakestOf(row, 0) == None;
    } else {
      i := WeakestIsFirstLight(row, n - 1);
      if row.vals[row.keys[n - 1]].weight < row.vals[row.keys[i]].weight {
        i := n - 1;
      }
    }
  }

  /** evictWeakest picks the neighbour with the least weight, the first of them. */
  lemma WeakestMeans(row: Neighbours, x: Id)
    ensures WeakestOf(row, row.Size()) == Some(x) <==> IsWeakest(row, x)
  {
    if row.keys != [] {
      var i := WeakestIsFirstLight(row, row.Size());
      if k :| 0 <= k < |row.keys| && row.keys[k] == x && FirstLight(row, |row.keys|, k) {
        assert k == i;
      }
    }
  }

  // ---------- Pruning ----------

  /** Too old, or too light. */
  predicate GoesStale(o: PruneOptions, e: Edge, now: int) {
    now - e.timestamp > o.maxAgeMs || e.weight < o.minWeight
  }

  /** Too little used, and too old. */
  predicate GoesUnused(o: PruneOptions, n: Node, now: int) {
    n.accessCount < o.minAccessCount && now - n.timestamp > o.maxAgeMs
  }

  /** After the entries `keys` of the edge map have been looked at. */
  ghost predicate EdgesPruned(o: PruneOptions, g: Graph, keys: seq<string>, now: int, g': Graph, removed: nat) {
    && g'.nodes == g.nodes
    && (forall k :: k in g'.edges.vals <==> k in g.edges.vals && !(k in keys && GoesStale(o, g.edges.vals[k], now)))
    && (forall k :: k in g'.edges.vals ==> g'.edges.vals[k] == g.edges.vals[k])
    && g'.edges.Size() + removed == g.edges.Size()
  }

  lemma PruneEdgeNext(o: PruneOptions, g: Graph, init: seq<string>, k: string, now: int, g1: Graph, removed: nat)
    requires EdgesOk(g.edges) && EdgesPruned(o, g, init, now, g1, removed) && k !in init
    ensures var stale := g1.edges.Has(k) && StaleEdge(o, g1.edges.vals[k], now);
      EdgesPruned(o, g, init + [k], now,
        if stale then DisconnectStep(g1, g1.edges.vals[k].from, g1.edges.vals[k].to).0 else g1,
        if stale then removed + 1 else removed)
  {
  }

  lemma {:induction false} PruneEdgesIsFilter(o: PruneOptions, g: Graph, keys: seq<string>, now: int)
    requires EdgesOk(g.edges) && NoDup(keys)
    ensures var (g', n) := PruneEdges(o, g, keys, now); EdgesPruned(o, g, keys, now, g', n)
  {
    if keys != [] {
      var init, k := keys[..|keys| - 1], keys[|keys| - 1];
      assert keys == init + [k];
      PruneEdgesIsFilter(o, g, init, now);
      var (g1, n) := PruneEdges(o, g, init, now);
      PruneEdgeNext(o, g, init, k, now, g1, n);
    }
  }

  /** After the nodes `ids` have been looked at. */
  ghost predicate NodesPruned(o: PruneOptions, g: Graph, ids: seq<Id>, now: int, g': Graph, removed: nat) {
    && g'.edges == g.edges
    && (forall x :: x in g'.nodes.vals <==> x in g.nodes.vals && !(x in ids && GoesUnused(o, g.nodes.vals[x], now)))
    && (forall x :: x in g'.nodes.vals ==> g'.nodes.vals[x] == g.nodes.vals[x])
    && g'.nodes.Size() + removed == g.nodes.Size()
  }

  lemma {:induction false} PruneNodesIsFilter(cfg: Config, o: PruneOptions, g: Graph, ids: seq<Id>, now: int)
    requires NoDup(ids)
    ensures var (g', n) := PruneNodes(cfg, o, g, ids, now); NodesPruned(o, g, ids, now, g', n)
  {
    if ids != [] {
      var init, x := ids[..|ids| - 1], ids[|ids| - 1];
      assert ids == init + [x] && x !in init;
      PruneNodesIsFilter(cfg, o, g, init, now);
    }
  }

  /**
   prune removes from the edge map exactly the edges that are too old or too light, then exactly the nodes that are
   both too old and too little used, leaves the others as they are, and counts what it removed.
   */
  lemma PruneIsFilter(cfg: Config, g: Graph, o: PruneOptions, now: int)
    requires EdgesOk(g.edges)
    ensures var (g', edgesRemoved, nodesRemoved) := PruneStep(cfg, g, o, now);
      && (forall k :: k in g'.edges.vals <==>
        k in g.edges.vals && now - g.edges.vals[k].timestamp <= o.maxAgeMs && g.edges.vals[k].weight >= o.minWeight)
      && (forall k :: k in g'.edges.vals ==> g'.edges.vals[k] == g.edges.vals[k])
      && (forall x :: x in g'.nodes.vals <==>
        x in g.nodes.vals
          && (g.nodes.vals[x].accessCount >= o.minAccessCount || now - g.nodes.vals[x].timestamp <= o.maxAgeMs))
      && (forall x :: x in g'.nodes.vals ==> g'.nodes.vals[x] == g.nodes.vals[x])
      && edgesRemoved == g.edges.Size() - g'.edges.Size() && nodesRemoved == g.nodes.Size() - g'.nodes.Size()
  {
    PruneEdgesIsFilter(o, g, g.edges.keys, now);
    var g1 := PruneEdges(o, g, g.edges.keys, now).0;
    PruneNodesIsFilter(cfg, o, g1, g1.nodes.keys, now);
  }

  // ---------- Nodes ----------

  /** Which node an operation takes away. An empty id never makes room. */
  ghost predicate NodeLeaves(cfg: Config, g: Graph, op: Op, x: Id) {
    match op
    case AddNode(id, _, _, _, _, _) =>
      g.nodes.Size() >= cfg.maxNodes && !g.nodes.Has(id) && x != "" && IsOldest(g.nodes, x)
    case RemoveNode(id) => x == id
    case Prune(o, now) => x in g.nodes.vals && GoesUnused(o, g.nodes.vals[x], now)
    case Clear => true
    case _ => false
  }

  lemma AddNodeNodes(cfg: Config, g: Graph, op: Op, x: Id)
    requires op.AddNode?
    ensures x in Apply(cfg, g, op).nodes.vals
      <==> x == op.id || (x in g.nodes.vals && !NodeLeaves(cfg, g, op, x))
  {
    OldestMeans(g.nodes, x);
  }

  /** An operation leaves exactly the node it adds and those it does not take away. */
  lemma NodesAfter(cfg: Config, g: Graph, op: Op, x: Id)
    requires EdgesOk(g.edges)
    ensures x in Apply(cfg, g, op).nodes.vals
      <==> (op.AddNode? && x == op.id) || (x in g.nodes.vals && !NodeLeaves(cfg, g, op, x))
  {
    match op
    case AddNode(_, _, _, _, _, _) => AddNodeNodes(cfg, g, op, x);
    case Prune(o, now) => PruneIsFilter(cfg, g, o, now);
    case _ =>
  }

  // ---------- How many nodes ----------

  predicate WithinNodes(cfg: Config, g: Graph) { g.nodes.Size() <= cfg.maxNodes }

  /** A new node finds room, or the oldest makes room for it: there is one, and its id is not empty. */
  predicate HasRoom(cfg: Config, g: Graph, op: Op) {
    match op
    case AddNode(id, _, _, _, _, _) =>
      || g.nodes.Has(id) || g.nodes.Size() < cfg.maxNodes
      || (g.nodes.keys != [] && OldestOf(g.nodes, g.nodes.Size()) != Some(""))
    case _ => true
  }

  lemma AddNodeSize(cfg: Config, g: Graph, op: Op)
    requires op.AddNode? && WithinNodes(cfg, g)
    ensures WithinNodes(cfg, Apply(cfg, g, op)) <==> HasRoom(cfg, g, op)
  {
    OldestMeans(g.nodes, "");
  }

  lemma StepKeepsNodesIff(cfg: Config, g: Graph, op: Op)
    requires EdgesOk(g.edges) && WithinNodes(cfg, g)
    ensures WithinNodes(cfg, Apply(cfg, g, op)) <==> HasRoom(cfg, g, op)
  {
    match op
    case AddNode(_, _, _, _, _, _) => AddNodeSize(cfg, g, op);
    case Prune(o, now) => PruneIsFilter(cfg, g, o, now);
    case _ =>
  }

  ghost predicate AlwaysWithin(cfg: Config, ops: seq<Op>) {
    WithinNodes(cfg, Run(cfg, ops)) && (ops == [] || AlwaysWithin(cfg, ops[..|ops| - 1]))
  }

  ghost predicate AlwaysRoom(cfg: Config, ops: seq<Op>) {
    ops == [] || (AlwaysRoom(cfg, ops[..|ops| - 1]) && HasRoom(cfg, Run(cfg, ops[..|ops| - 1]), ops[|ops| - 1]))
  }

  /** Every run: the graph stays within maxNodes exactly when each new node finds room or an oldest that can go. */
  lemma {:induction false} NodesBoundedIff(cfg: Config, ops: seq<Op>)
    requires cfg.maxNodes >= 0
    ensures AlwaysWithin(cfg, ops) <==> AlwaysRoom(cfg, ops)
  {
    if ops != [] {
      var init := ops[..|ops| - 1];
      NodesBoundedIff(cfg, init);
      RunKeepsGraph(cfg, init);
      if AlwaysWithin(cfg, init) {
        StepKeepsNodesIff(cfg, Run(cfg, init), ops[|ops| - 1]);
      }
    }
  }

  lemma {:induction false} EmptyStaysOldest(nodes: Nodes, n: nat)
    requires 0 < n <= nodes.Size() && nodes.keys[0] == ""
    requires forall x :: x in nodes.vals ==> nodes.vals[x].lastAccessed == 0
    ensures OldestOf(nodes, n) == Some("")
  {
    assert nodes.keys[n - 1] in nodes.keys;
    if n > 1 {
      EmptyStaysOldest(nodes, n - 1);
    } else {
      assert OldestOf(nodes, 0) == None;
    }
  }

  /** The nodes are these, in that order, and none was accessed later than another. */
  ghost predicate AreAll(nodes: Nodes, ids: seq<Id>) {
    nodes.keys == ids && forall x :: x in nodes.vals ==> nodes.vals[x].lastAccessed == 0
  }

  /** With the empty id in front, and all equally old, nothing ever makes room: the graph grows without bound. */
  lemma {:induction false} EmptyIdBlocksEviction(cfg: Config, ids: seq<Id>)
    requires NoDup(ids) && ids != [] && ids[0] == ""
    ensures AreAll(Run(cfg, Addings(ids)).nodes, ids)
  {
    var init, id := ids[..|ids| - 1], ids[|ids| - 1];
    LastIsNew(ids);
    RunAdding(cfg, ids);
    if init != [] {
      EmptyIdBlocksEviction(cfg, init);
    }
    OneMoreThere(cfg, Run(cfg, Addings(init)), init, id);
  }

  lemma LastIsNew(ids: seq<Id>)
    requires NoDup(ids) && ids != []
    ensures var init, id := ids[..|ids| - 1], ids[|ids| - 1];
      ids == init + [id] && NoDup(init) && id !in init && (init != [] ==> init[0] == ids[0])
  {
  }

  lemma RunAdding(cfg: Config, ids: seq<Id>)
    requires ids != []
    ensures Run(cfg, Addings(ids)) == Apply(cfg, Run(cfg, Addings(ids[..|ids| - 1])), Adding(ids[|ids| - 1]))
    ensures |ids| == 1 ==> Run(cfg, Addings(ids[..0])) == EMPTY
  {
    GraphMirror.AddingsSnoc(ids);
    RunAppend(cfg, Addings(ids[..|ids| - 1]), Adding(ids[|ids| - 1]));
    assert Addings([]) == [];
  }

  lemma OneMoreThere(cfg: Config, g: Graph, ids: seq<Id>, id: Id)
    requires if ids == [] then g == EMPTY && id == "" else AreAll(g.nodes, ids) && ids[0] == "" && id !in ids
    ensures AreAll(Apply(cfg, g, Adding(id)).nodes, ids + [id])
  {
    if ids == [] {
      NothingToEvict(cfg);
      assert ids + [id] == [""];
    } else {
      AddsWithoutEviction(cfg, g, ids, id);
    }
  }

  lemma NothingToEvict(cfg: Config)
    ensures AreAll(Apply(cfg, EMPTY, Adding("")).nodes, [""])
  {
    assert OldestOf(EMPTY.nodes, 0) == None;
  }

  lemma AddsWithoutEviction(cfg: Config, g: Graph, ids: seq<Id>, id: Id)
    requires AreAll(g.nodes, ids) && ids != [] && ids[0] == "" && id !in ids
    ensures AreAll(Apply(cfg, g, Adding(id)).nodes, ids + [id])
  {
    EmptyStaysOldest(g.nodes, g.nodes.Size());
    assert id !in g.nodes.keys;
  }
}
