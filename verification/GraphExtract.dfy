/**
 src/analysis/memory-qr.js, getSubgraph and the edges of a path: which edges a neighbourhood has, and
 what a path's edge types and total weight are.
 */
module GraphExtract {
  import opened JsCollections
  import opened MemoryGraph
  import opened GraphSearch
  import opened R = Reachability
  import GraphJson

  // ---------- Edges of a neighbourhood ----------

  function AllSteps(adjacency: Adjacency): Next { AllowedSteps(adjacency, None) }

  datatype Hop = Hop(id: Id, depth: int)

  /** The queue without the paths by which its nodes were reached. */
  ghost predicate HopsOf(queue: seq<Hop>, paths: seq<seq<Id>>) {
    && |queue| == |paths|
    && forall i :: 0 <= i < |queue| ==> |paths[i]| >= 1 && queue[i] == Hop(paths[i][|paths[i]| - 1], |paths[i]| - 1)
  }

  lemma HopsJoin(queue: seq<Hop>, paths: seq<seq<Id>>, added: seq<Hop>, addedPaths: seq<seq<Id>>)
    requires queue != [] && HopsOf(queue, paths) && HopsOf(added, addedPaths)
    ensures HopsOf(queue[1..] + added, paths[1..] + addedPaths)
  {
  }

  ghost predicate IsEdgeOf(adjacency: Adjacency, us: set<Id>, e: Edge) {
    e.from in us && e.from in adjacency && e.to in adjacency[e.from].vals && adjacency[e.from].vals[e.to] == e
  }

  /** All edges that leave the nodes `us`, each once. */
  ghost predicate EdgesFrom(adjacency: Adjacency, us: set<Id>, list: seq<Edge>) {
    NoDup(list) && forall e :: e in list <==> IsEdgeOf(adjacency, us, e)
  }

  lemma NoEdgesYet(adjacency: Adjacency)
    ensures EdgesFrom(adjacency, {}, [])
  {
  }

  /** The row of one more node is appended. */
  lemma RowAppended(nodes: Nodes, adjacency: Adjacency, us: set<Id>, u: Id, list: seq<Edge>)
    requires EdgesFrom(adjacency, us, list) && u !in us && AdjacencyOk(nodes, adjacency) && u in adjacency
    ensures EdgesFrom(adjacency, us + {u}, list + ValuesOf(adjacency[u]))
  {
    var row := ValuesOf(adjacency[u]);
    RowValues(nodes, u, adjacency[u]);
    forall e ensures e in list + row <==> IsEdgeOf(adjacency, us + {u}, e) {
      assert e in row <==> IsEdgeOf(adjacency, {u}, e);
    }
    forall i, j | 0 <= i < j < |list + row| ensures (list + row)[i] != (list + row)[j] {
      if i < |list| <= j {
        assert list[i] in list && row[j - |list|] in row;
      }
    }
  }

  lemma RowValues(nodes: Nodes, u: Id, row: Neighbours)
    requires RowOk(nodes, u, row)
    ensures var list := ValuesOf(row);
      NoDup(list) && forall e: Edge :: e in list <==> e.from == u && e.to in row.vals && row.vals[e.to] == e
  {
    var list := ValuesOf(row);
    forall i | 0 <= i < |list|
      ensures row.keys[i] in row.vals && list[i] == row.vals[row.keys[i]] && list[i].to == row.keys[i]
        && list[i].from == u
    {
      assert row.keys[i] in row.keys;
    }
    forall e: Edge | e.to in row.vals && row.vals[e.to] == e ensures e in list {
      assert e.to in row.keys;
      var i :| 0 <= i < |row.keys| && row.keys[i] == e.to;
      assert list[i] == e;
    }
  }

  lemma RowOfGone(adjacency: Adjacency, us: set<Id>, u: Id, list: seq<Edge>)
    requires EdgesFrom(adjacency, us, list) && u !in adjacency
    ensures EdgesFrom(adjacency, us + {u}, list)
  {
    forall e ensures IsEdgeOf(adjacency, us + {u}, e) <==> IsEdgeOf(adjacency, us, e) {
    }
  }

  /** The edges that expanding a node appends: its row, or nothing if it has gone. */
  lemma RowFound(nodes: Nodes, adjacency: Adjacency, us: set<Id>, u: Id, list: seq<Edge>, row: seq<Edge>)
    requires EdgesFrom(adjacency, us, list) && u !in us && AdjacencyOk(nodes, adjacency)
    requires row == if u in adjacency then ValuesOf(adjacency[u]) else []
    ensures EdgesFrom(adjacency, us + {u}, list + row)
  {
    if u in adjacency {
      RowAppended(nodes, adjacency, us, u, list);
    } else {
      RowOfGone(adjacency, us, u, list);
      assert list + row == list;
    }
  }

  // ---------- Which nodes have been expanded ----------

  /** The nodes expanded so far: those of the levels worked off, but none at the depth limit. */
  ghost predicate Cleared(next: Next, starts: set<Id>, depth: int, d: nat, left: nat, draining: bool,
      paths: seq<seq<Id>>, done: set<Id>) {
    if draining then done == Within(next, starts, depth - 1)
    else
      && left <= |paths| && DistinctEnds(paths[..left])
      && done == Within(next, starts, d) - Ends(paths[..left]) && done <= Within(next, starts, depth - 1)
  }

  lemma ClearStarts(next: Next, center: Id, depth: int)
    ensures Cleared(next, {center}, depth, 0, 1, false, [[center]], {})
  {
    var paths := [[center]];
    assert paths[..1] == paths && paths[0][|paths[0]| - 1] == center;
    assert Ends(paths) == {center};
  }

  lemma ClearedAtLimit(next: Next, starts: set<Id>, depth: int, d: nat, left: nat, paths: seq<seq<Id>>, seen: set<Id>,
      done: set<Id>)
    requires left > 0 && Explored(next, starts, depth, d, left, false, paths, seen) && |paths[0]| - 1 >= depth
    requires Cleared(next, starts, depth, d, left, false, paths, done)
    ensures done == Within(next, starts, depth - 1)
  {
    FirstOf(next, starts, d, left, paths, seen);
    WithinGrows(next, starts, depth - 1, d - 1);
    WithinGrows(next, starts, d - 1, d);
    assert Ends(paths[..left]) <= Within(next, starts, d) - Within(next, starts, d - 1);
  }

  lemma ClearedAll(next: Next, starts: set<Id>, depth: int, d: nat, left: nat, draining: bool, seen: set<Id>,
      done: set<Id>)
    requires Explored(next, starts, depth, d, left, draining, [], seen)
    requires Cleared(next, starts, depth, d, left, draining, [], done)
    ensures done == Within(next, starts, depth - 1)
  {
    if !draining {
      AllSeen(next, starts, d, seen, depth - 1);
      DoneAtEnd(next, starts, depth, d, done);
    }
  }

  lemma DoneAtEnd(next: Next, starts: set<Id>, depth: int, d: nat, done: set<Id>)
    requires Cleared(next, starts, depth, d, 0, false, [], done)
    requires Within(next, starts, depth - 1) <= Within(next, starts, d)
    ensures done == Within(next, starts, depth - 1)
  {
    assert Ends([]) == {};
  }

  /** One round below the limit: `u` is expanded. */
  lemma ClearRound(next: Next, starts: set<Id>, depth: int, d: nat, left: nat, paths: seq<seq<Id>>, seen: set<Id>,
                   added: seq<seq<Id>>, paths': seq<seq<Id>>, seen': set<Id>, done: set<Id>, u: Id)
    returns (d': nat, left': nat)
    requires paths != [] && 1 <= |paths[0]| <= depth && u == paths[0][|paths[0]| - 1]
    requires Explored(next, starts, depth, d, left, false, paths, seen)
    requires Cleared(next, starts, depth, d, left, false, paths, done)
    requires Expands(next, paths[0], seen, added)
    requires paths' == paths[1..] + added && seen' == seen + Succ(next, u)
    ensures u !in done && Explored(next, starts, depth, d', left', false, paths', seen')
    ensures Cleared(next, starts, depth, d', left', false, paths', done + {u})
  {
    FirstOf(next, starts, d, left, paths, seen);
    Requeued(paths, left, added);
    ClearOne(next, starts, depth, d, left, paths, paths', done, u);
    Worked(next, starts, d, left, paths, seen, added);
    d', left' := ClearTurn(next, starts, depth, d, left - 1, paths', seen', done + {u});
  }

  lemma ClearTurn(next: Next, starts: set<Id>, depth: int, d: nat, left: nat, paths: seq<seq<Id>>, seen: set<Id>,
      done: set<Id>)
    returns (d': nat, left': nat)
    requires d < depth && Queued(next, starts, d, left, paths, seen)
    requires Cleared(next, starts, depth, d, left, false, paths, done)
    ensures Explored(next, starts, depth, d', left', false, paths, seen)
    ensures Cleared(next, starts, depth, d', left', false, paths, done)
  {
    d', left' := d, left;
    if left == 0 {
      Advance(next, starts, d, paths, seen);
      NextLevelCleared(next, starts, depth, d, paths, seen, done);
      d', left' := d + 1, |paths|;
    }
  }

  lemma ClearOne(next: Next, starts: set<Id>, depth: int, d: nat, left: nat, paths: seq<seq<Id>>, paths': seq<seq<Id>>,
      done: set<Id>, u: Id)
    requires left > 0 && Cleared(next, starts, depth, d, left, false, paths, done)
    requires |paths[0]| >= 1 && u == paths[0][|paths[0]| - 1] && u in Within(next, starts, d) && d < depth
    requires |paths'| >= left - 1 && paths'[..left - 1] == paths[..left][1..]
    ensures u !in done && Cleared(next, starts, depth, d, left - 1, false, paths', done + {u})
  {
    var current := paths[..left];
    assert current[0] == paths[0];
    EndsOfTail(current);
    assert u in Ends(current);
    WithinGrows(next, starts, d, depth - 1);
  }

  lemma NextLevelCleared(next: Next, starts: set<Id>, depth: int, d: nat, paths: seq<seq<Id>>, seen: set<Id>,
      done: set<Id>)
    requires Queued(next, starts, d, 0, paths, seen) && seen == Within(next, starts, d + 1)
    requires Cleared(next, starts, depth, d, 0, false, paths, done)
    ensures Cleared(next, starts, depth, d + 1, |paths|, false, paths, done)
  {
    assert paths[..0] == [] && Ends([]) == {};
    assert paths[..|paths|] == paths && paths[0..] == paths;
    assert Ends(paths) == seen - Within(next, starts, d);
  }

  // ---------- Edges of a path ----------

  datatype PathResult = PathResult(nodes: seq<Id>, edges: seq<string>, totalWeight: real, length: int)

  /** The edge-map entries along a path, where there are any. */
  function EdgesAlong(edges: JsMap<string, Edge>, path: seq<Id>): seq<Edge> {
    if |path| < 2 then []
    else
      var key := EdgeKey(path[|path| - 2], path[|path| - 1]);
      EdgesAlong(edges, path[..|path| - 1]) + if edges.Has(key) then [edges.vals[key]] else []
  }

  lemma EdgesAlongNext(edges: JsMap<string, Edge>, path: seq<Id>, n: nat)
    requires 1 <= n < |path|
    ensures var key := EdgeKey(path[n - 1], path[n]);
      EdgesAlong(edges, path[..n + 1]) ==
        if edges.Has(key) then EdgesAlong(edges, path[..n]) + [edges.vals[key]] else EdgesAlong(edges, path[..n])
  {
    assert path[..n + 1][..n] == path[..n];
  }

  function Kinds(list: seq<Edge>): seq<string> { seq(|list|, i requires 0 <= i < |list| => list[i].kind) }

  function TotalWeight(list: seq<Edge>): real {
    if list == [] then 0.0 else TotalWeight(list[..|list| - 1]) + list[|list| - 1].weight
  }

  lemma OneEdgeMore(list: seq<Edge>, e: Edge)
    ensures Kinds(list + [e]) == Kinds(list) + [e.kind] && TotalWeight(list + [e]) == TotalWeight(list) + e.weight
  {
    assert (list + [e])[..|list|] == list;
  }

  ghost predicate IsStep(adjacency: Adjacency, allowed: Filter, u: Id, v: Id, e: Edge) {
    u in adjacency && v in adjacency[u].vals && e == adjacency[u].vals[v] && Passes(allowed, e.kind)
  }

  lemma MirroredStep(adjacency: Adjacency, edges: JsMap<string, Edge>, allowed: Filter, u: Id, v: Id)
    requires u in adjacency ==> GraphJson.RowMirrored(u, adjacency[u], edges)
    requires v in Succ(AllowedSteps(adjacency, allowed), u)
    ensures EdgeKey(u, v) in edges.vals && IsStep(adjacency, allowed, u, v, edges.vals[EdgeKey(u, v)])
  {
  }

  /** The steps of a walk, in order. */
  ghost predicate AreSteps(adjacency: Adjacency, allowed: Filter, path: seq<Id>, list: seq<Edge>) {
    |list| == |path| - 1 && forall i :: 0 <= i < |list| ==> IsStep(adjacency, allowed, path[i], path[i + 1], list[i])
  }

  lemma OneStepMore(adjacency: Adjacency, allowed: Filter, path: seq<Id>, list: seq<Edge>, e: Edge)
    requires |path| >= 2 && AreSteps(adjacency, allowed, path[..|path| - 1], list)
    requires IsStep(adjacency, allowed, path[|path| - 2], path[|path| - 1], e)
    ensures AreSteps(adjacency, allowed, path, list + [e])
  {
    var init := path[..|path| - 1];
    forall i | 0 <= i < |list| ensures IsStep(adjacency, allowed, path[i], path[i + 1], list[i]) {
      assert path[i] == init[i] && path[i + 1] == init[i + 1];
    }
  }

  /** When the edge map mirrors the adjacency lists, the path's edges are the ones it was found along. */
  lemma {:induction false} MirroredPath(adjacency: Adjacency, edges: JsMap<string, Edge>, allowed: Filter,
      path: seq<Id>)
    requires forall u :: u in adjacency ==> GraphJson.RowMirrored(u, adjacency[u], edges)
    requires IsWalk(AllowedSteps(adjacency, allowed), path)
    ensures AreSteps(adjacency, allowed, path, EdgesAlong(edges, path))
  {
    if |path| > 1 {
      var init, u, v := path[..|path| - 1], path[|path| - 2], path[|path| - 1];
      assert IsWalk(AllowedSteps(adjacency, allowed), init);
      MirroredPath(adjacency, edges, allowed, init);
      MirroredStep(adjacency, edges, allowed, u, v);
      OneStepMore(adjacency, allowed, path, EdgesAlong(edges, init), edges.vals[EdgeKey(u, v)]);
    }
  }

  lemma SubgraphStarts(center: Id, depth: int, adjacency: Adjacency)
    ensures Explored(AllSteps(adjacency), {center}, depth, 0, 1, false, [[center]], {center})
    ensures Cleared(AllSteps(adjacency), {center}, depth, 0, 1, false, [[center]], {})
    ensures EdgesFrom(adjacency, {}, []) && Ids([center]) == {center}
  {
    ExploreStarts(AllSteps(adjacency), [center], depth, [[center]]);
    assert Ids([center]) == {center};
    ClearStarts(AllSteps(adjacency), center, depth);
    NoEdgesYet(adjacency);
  }

  lemma {:induction false} WithinStays(next: Next, starts: set<Id>, live: set<Id>, n: int)
    requires starts <= live && forall u :: u in live ==> Succ(next, u) <= live
    ensures Within(next, starts, n) <= live
    decreases n
  {
    if n > 0 {
      WithinStays(next, starts, live, n - 1);
    }
  }

  lemma StepsStayLive(nodes: Nodes, adjacency: Adjacency)
    requires AdjacencyOk(nodes, adjacency)
    ensures forall u :: u in nodes.vals.Keys ==> Succ(AllSteps(adjacency), u) <= nodes.vals.Keys
  {
    forall u | u in nodes.vals.Keys ensures Succ(AllSteps(adjacency), u) <= nodes.vals.Keys {
      assert RowOk(nodes, u, adjacency[u]);
    }
  }

  /** What the search has seen is the centre and the nodes within depth steps, and all of them are live. */
  lemma SubgraphIsLive(nodes: Nodes, adjacency: Adjacency, center: Id, depth: int, seen: set<Id>)
    requires AdjacencyOk(nodes, adjacency) && nodes.Has(center) && center in seen
    requires seen - {center} == Within(AllSteps(adjacency), {center}, depth) - {center}
    ensures seen == {center} + Within(AllSteps(adjacency), {center}, depth)
    ensures forall id :: id in seen ==> id in nodes.vals
  {
    StepsStayLive(nodes, adjacency);
    LiveSubgraph(AllSteps(adjacency), nodes.vals.Keys, center, depth, seen);
  }

  lemma LiveSubgraph(next: Next, live: set<Id>, center: Id, depth: int, seen: set<Id>)
    requires center in live && center in seen && forall u :: u in live ==> Succ(next, u) <= live
    requires seen - {center} == Within(next, {center}, depth) - {center}
    ensures seen == {center} + Within(next, {center}, depth) && seen <= live
  {
    WithinStays(next, {center}, live, depth);
    SeenIsLive({center}, live, seen, Within(next, {center}, depth));
  }

  lemma SeenIsLive(starts: set<Id>, live: set<Id>, seen: set<Id>, within: set<Id>)
    requires starts <= seen && seen - starts == within - starts && starts <= live && within <= live
    ensures seen == starts + within && seen <= live
  {
    forall id | id in seen ensures id in starts + within {
      if id !in starts {
        assert id in seen - starts;
      }
    }
    forall id | id in within ensures id in seen {
      if id !in starts {
        assert id in within - starts;
      }
    }
  }

  function NodesOf(nodes: Nodes, ids: seq<Id>): (r: seq<Node>)
    requires forall id :: id in ids ==> id in nodes.vals
  {
    seq(|ids|, i requires 0 <= i < |ids| => nodes.vals[ids[i]])
  }
}
