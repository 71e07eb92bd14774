/**
 src/analysis/memory-qr.js, what the three traversals look for: the steps their filters allow, and
 what a search that works level by level knows when it stops.
 */
module GraphSearch {
  import opened JsCollections
  import opened MemoryGraph
  import opened R = Reachability

  type Filter = Option<set<string>>

  /** `!filter || filter.has(x)`: an empty filter lets nothing through. */
  predicate Passes(filter: Filter, x: string) { filter.None? || x in filter.value }

  // ---------- Steps ----------

  /** The steps of getPath: edges of an allowed type. */
  function AllowedSteps(adjacency: Adjacency, allowed: Filter): Next {
    map u | u in adjacency :: set v | v in adjacency[u].vals && Passes(allowed, adjacency[u].vals[v].kind)
  }

  datatype Search = Search(depth: int, minWeight: real, types: Filter, relationships: Filter)

  predicate Follows(s: Search, nodes: Nodes, v: Id, e: Edge) {
    e.weight >= s.minWeight && Passes(s.relationships, e.kind) && nodes.Has(v) && Passes(s.types, nodes.vals[v].kind)
  }

  /** The steps of findRelated: heavy enough, of a wanted relationship, to a live node of a wanted type. */
  function RelatedSteps(nodes: Nodes, adjacency: Adjacency, s: Search): Next {
    map u | u in adjacency :: set v | v in adjacency[u].vals && Follows(s, nodes, v, adjacency[u].vals[v])
  }

  // ---------- Levels ----------

  /** Everything that can be seen at all. */
  function Universe(next: Next, starts: set<Id>): set<Id> { starts + Succs(next, next.Keys) }

  /** The queue holds what is left of level d and what was found for level d + 1. */
  ghost predicate Queued(next: Next, starts: set<Id>, d: nat, left: nat, queue: seq<seq<Id>>, seen: set<Id>) {
    left <= |queue| && Frontier(next, starts, d, queue[..left], queue[left..], seen) && seen <= Universe(next, starts)
  }

  function Ids(list: seq<Id>): set<Id> { set id | id in list }

  lemma IdsMembers(list: seq<Id>)
    ensures forall id :: id in list <==> id in Ids(list)
  {
  }

  lemma StartQueued(next: Next, starts: seq<Id>, queue: seq<seq<Id>>)
    requires NoDup(starts) && |queue| == |starts| && forall i :: 0 <= i < |starts| ==> queue[i] == [starts[i]]
    ensures var S := Ids(starts); Queued(next, S, 0, |queue|, queue, S)
  {
    var S := Ids(starts);
    assert queue[..|queue|] == queue && queue[|queue|..] == [];
    forall v | v in S ensures v in Ends(queue) {
      var i :| 0 <= i < |starts| && starts[i] == v;
      assert queue[i][|queue[i]| - 1] == v;
    }
    assert Ends(queue) == S;
    assert Succs(next, Within(next, S, 0) - Ends(queue)) == {};
  }

  /** When level d is used up, level d + 1 is next. */
  lemma Advance(next: Next, starts: set<Id>, d: nat, queue: seq<seq<Id>>, seen: set<Id>)
    requires Queued(next, starts, d, 0, queue, seen)
    ensures Queued(next, starts, d + 1, |queue|, queue, seen) && seen == Within(next, starts, d + 1)
  {
    assert queue[..0] == [] && queue[0..] == queue && queue[..|queue|] == queue && queue[|queue|..] == [];
    NextLevel(next, starts, d, queue, seen);
    assert Ends([]) == {};
    assert Within(next, starts, d) - {} == Within(next, starts, d);
  }

  lemma Requeued<T>(queue: seq<T>, left: nat, added: seq<T>)
    requires 0 < left <= |queue|
    ensures var queue' := queue[1..] + added;
      queue'[..left - 1] == queue[..left][1..] && queue'[left - 1..] == queue[left..] + added
        && queue[..left][0] == queue[0]
  {
  }

  lemma StepsAreKnown(next: Next, starts: set<Id>, u: Id)
    ensures Succ(next, u) <= Universe(next, starts)
  {
    if u in next {
      assert Succ(next, u) <= Succs(next, next.Keys);
    }
  }

  /** Working off the first path. */
  lemma Worked(next: Next, starts: set<Id>, d: nat, left: nat, queue: seq<seq<Id>>, seen: set<Id>, added: seq<seq<Id>>)
    requires left > 0 && Queued(next, starts, d, left, queue, seen) && |queue[0]| == d + 1
    requires Expands(next, queue[0], seen, added)
    ensures Queued(next, starts, d, left - 1, queue[1..] + added, seen + Succ(next, queue[0][d]))
  {
    Requeued(queue, left, added);
    StepsAreKnown(next, starts, queue[0][d]);
    WorkOff(next, starts, d, queue[..left], queue[left..], seen, added);
  }

  /** The first path of the current level is a walk of d steps to a node that is no closer. */
  lemma FirstOf(next: Next, starts: set<Id>, d: nat, left: nat, queue: seq<seq<Id>>, seen: set<Id>)
    requires left > 0 && Queued(next, starts, d, left, queue, seen)
    ensures |queue[0]| == d + 1 && IsWalkTo(next, starts, queue[0][d], queue[0])
    ensures AtDistance(next, starts, queue[0][d], d)
  {
    var current := queue[..left];
    assert current[0] == queue[0];
    assert current[0][d] in Ends(current);
  }

  /** With nothing queued, everything that can be reached has been seen. */
  lemma AllSeen(next: Next, starts: set<Id>, d: nat, seen: set<Id>, n: int)
    requires Queued(next, starts, d, 0, [], seen)
    ensures Within(next, starts, n) <= Within(next, starts, d)
    ensures n > d ==> Within(next, starts, n) == seen
  {
    Exhausted(next, starts, d, seen, n);
    assert Ends([]) == {};
    assert Within(next, starts, d) - {} == Within(next, starts, d);
    assert seen == Within(next, starts, d + 1);
    if n > d {
      WithinGrows(next, starts, d + 1, n);
    }
  }

  /** Queueing one more path. */
  lemma OneMore(added: seq<seq<Id>>, path: seq<Id>, v: Id)
    requires DistinctEnds(added) && v !in Ends(added)
    ensures DistinctEnds(added + [path + [v]]) && Ends(added + [path + [v]]) == Ends(added) + {v}
  {
    var b := [path + [v]];
    assert b[0][|b[0]| - 1] == v;
    assert DistinctEnds(b) && Ends(b) == {v};
    EndsConcat(added, b);
  }

  /** Each round sees a new node, or shortens the queue. */
  lemma Progress(next: Next, starts: set<Id>, path: seq<Id>, seen: set<Id>, added: seq<seq<Id>>)
    requires |path| >= 1 && Expands(next, path, seen, added)
    ensures var seen' := seen + Succ(next, path[|path| - 1]);
      (added == [] && seen' == seen) || Universe(next, starts) - seen' < Universe(next, starts) - seen
  {
    var u := path[|path| - 1];
    if added == [] {
      assert Ends(added) == {};
    } else {
      var v := added[0][|added[0]| - 1];
      assert v in Ends(added);
      assert v in Succ(next, u) && u in next;
      assert v in Succs(next, next.Keys);
    }
  }

  // ---------- The inner loop ----------

  /** After i neighbours of the path's last node, of which those in `steps` may be taken. */
  ghost predicate Visiting(keys: seq<Id>, steps: set<Id>, path: seq<Id>, i: nat, visited: set<Id>, seen: set<Id>,
      added: seq<seq<Id>>) {
    && i <= |keys| && DistinctEnds(added) && Ends(added) == seen - visited
    && (forall j :: 0 <= j < |added| ==> |added[j]| == |path| + 1 && added[j][..|path|] == path)
    && (forall v :: v in seen <==> v in visited || (v in keys[..i] && v in steps))
  }

  lemma VisitSkips(keys: seq<Id>, steps: set<Id>, path: seq<Id>, i: nat, visited: set<Id>, seen: set<Id>,
      added: seq<seq<Id>>)
    requires i < |keys| && Visiting(keys, steps, path, i, visited, seen, added)
    requires (keys[i] in seen || keys[i] !in steps)
    ensures Visiting(keys, steps, path, i + 1, visited, seen, added)
  {
    assert keys[..i + 1] == keys[..i] + [keys[i]];
  }

  lemma VisitTakes(keys: seq<Id>, steps: set<Id>, path: seq<Id>, i: nat, visited: set<Id>, seen: set<Id>,
      added: seq<seq<Id>>)
    requires i < |keys| && Visiting(keys, steps, path, i, visited, seen, added) && keys[i] !in seen && keys[i] in steps
    ensures Visiting(keys, steps, path, i + 1, visited, seen + {keys[i]}, added + [path + [keys[i]]])
  {
    assert keys[..i + 1] == keys[..i] + [keys[i]];
    assert keys[i] !in visited;
    OneMore(added, path, keys[i]);
  }

  lemma VisitedAll(next: Next, keys: seq<Id>, path: seq<Id>, visited: set<Id>, seen: set<Id>, added: seq<seq<Id>>)
    requires |path| >= 1 && forall v :: v in Succ(next, path[|path| - 1]) ==> v in keys
    requires Visiting(keys, Succ(next, path[|path| - 1]), path, |keys|, visited, seen, added)
    ensures Expands(next, path, visited, added) && seen == visited + Succ(next, path[|path| - 1])
  {
    assert keys[..|keys|] == keys;
  }

  // ---------- Shortest paths ----------

  /** A walk from start to end, over at most maxDepth nodes. */
  ghost predicate Route(next: Next, start: Id, end: Id, maxDepth: int, path: seq<Id>) {
    IsWalkTo(next, {start}, end, path) && |path| <= maxDepth
  }

  ghost predicate Fewest(next: Next, start: Id, end: Id, path: seq<Id>) {
    forall p :: IsWalkTo(next, {start}, end, p) ==> |path| <= |p|
  }

  lemma FewestOf(next: Next, start: Id, end: Id, path: seq<Id>)
    requires |path| >= 1 && AtDistance(next, {start}, end, |path| - 1)
    ensures Fewest(next, start, end, path)
  {
    forall p | IsWalkTo(next, {start}, end, p) ensures |path| <= |p| {
      WalkIsWithin(next, {start}, end, p);
      if |p| < |path| {
        WithinGrows(next, {start}, |p| - 1, |path| - 2);
      }
    }
  }

  lemma NoRoute(next: Next, start: Id, end: Id, maxDepth: int)
    requires end !in Within(next, {start}, maxDepth - 1)
    ensures !exists path :: Route(next, start, end, maxDepth, path)
  {
    forall path | Route(next, start, end, maxDepth, path) ensures false {
      WalkIsWithin(next, {start}, end, path);
      WithinGrows(next, {start}, |path| - 1, maxDepth - 1);
    }
  }

  /** The search has not passed `end`: if `end` is within d steps, it is queued in level d. */
  ghost predicate Hunting(next: Next, start: Id, end: Id, d: nat, left: nat, queue: seq<seq<Id>>, seen: set<Id>) {
    && Queued(next, {start}, d, left, queue, seen)
    && (end in Within(next, {start}, d) ==> end in Ends(queue[..left]))
  }

  lemma HuntStarts(next: Next, start: Id, end: Id)
    ensures Hunting(next, start, end, 0, 1, [[start]], {start})
  {
    var queue := [[start]];
    assert Ids([start]) == {start};
    StartQueued(next, [start], queue);
    assert queue[..1] == queue && queue[0][|queue[0]| - 1] == start;
  }

  lemma HuntAdvances(next: Next, start: Id, end: Id, d: nat, queue: seq<seq<Id>>, seen: set<Id>)
    requires Hunting(next, start, end, d, 0, queue, seen)
    ensures Hunting(next, start, end, d + 1, |queue|, queue, seen)
  {
    assert queue[..0] == [] && Ends([]) == {};
    assert queue[0..] == queue && queue[..|queue|] == queue;
    assert Ends(queue) == seen - Within(next, {start}, d);
    Advance(next, {start}, d, queue, seen);
  }

  lemma HuntGoesOn(next: Next, start: Id, end: Id, d: nat, left: nat, queue: seq<seq<Id>>, seen: set<Id>,
      added: seq<seq<Id>>)
    requires left > 0 && Hunting(next, start, end, d, left, queue, seen)
    requires |queue[0]| == d + 1 && queue[0][d] != end && Expands(next, queue[0], seen, added)
    ensures Hunting(next, start, end, d, left - 1, queue[1..] + added, seen + Succ(next, queue[0][d]))
  {
    Worked(next, {start}, d, left, queue, seen, added);
    EndsOfTail(queue[..left]);
    assert (queue[1..] + added)[..left - 1] == queue[..left][1..];
  }

  lemma QueueLengths(next: Next, starts: set<Id>, d: nat, left: nat, queue: seq<seq<Id>>, seen: set<Id>)
    requires Queued(next, starts, d, left, queue, seen)
    ensures forall i :: 0 <= i < |queue| ==> |queue[i]| >= d + 1
  {
    forall i | 0 <= i < |queue| ensures |queue[i]| >= d + 1 {
      if i < left {
        assert queue[..left][i] == queue[i];
      } else {
        assert queue[left..][i - left] == queue[i];
      }
    }
  }

  lemma NotCloser(next: Next, start: Id, end: Id, d: nat, left: nat, queue: seq<seq<Id>>, seen: set<Id>, n: int)
    requires Hunting(next, start, end, d, left, queue, seen) && n < d
    ensures end !in Within(next, {start}, n)
  {
    WithinGrows(next, {start}, n, d - 1);
    WithinGrows(next, {start}, d - 1, d);
    assert Ends(queue[..left]) <= Within(next, {start}, d) - Within(next, {start}, d - 1);
  }

  lemma HuntIsOver(next: Next, start: Id, end: Id, d: nat, left: nat, seen: set<Id>, n: int)
    requires Hunting(next, start, end, d, left, [], seen)
    ensures end !in Within(next, {start}, n)
  {
    AllSeen(next, {start}, d, seen, n);
  }

  /**
   The loop invariant of getPath: hunting in a level that is not
   used up, or draining a queue of paths that are too long.
   */
  ghost predicate Pursuit(next: Next, start: Id, end: Id, maxDepth: int, d: nat, left: nat, draining: bool,
      queue: seq<seq<Id>>, seen: set<Id>) {
    if draining then
      (forall i :: 0 <= i < |queue| ==> |queue[i]| > maxDepth) && end !in Within(next, {start}, maxDepth - 1)
    else Hunting(next, start, end, d, left, queue, seen) && (queue != [] ==> left > 0)
  }

  lemma TooLong(next: Next, start: Id, end: Id, maxDepth: int, d: nat, left: nat, queue: seq<seq<Id>>, seen: set<Id>)
    requires left > 0 && Hunting(next, start, end, d, left, queue, seen) && |queue[0]| > maxDepth
    ensures forall i :: 0 <= i < |queue| ==> |queue[i]| > maxDepth
    ensures end !in Within(next, {start}, maxDepth - 1)
  {
    FirstOf(next, {start}, d, left, queue, seen);
    QueueLengths(next, {start}, d, left, queue, seen);
    NotCloser(next, start, end, d, left, queue, seen, maxDepth - 1);
  }

  lemma FirstIsShortest(next: Next, start: Id, end: Id, d: nat, left: nat, queue: seq<seq<Id>>, seen: set<Id>)
    requires left > 0 && Hunting(next, start, end, d, left, queue, seen)
    ensures |queue[0]| == d + 1 && IsWalkTo(next, {start}, queue[0][d], queue[0])
    ensures queue[0][d] == end ==> Fewest(next, start, end, queue[0])
  {
    FirstOf(next, {start}, d, left, queue, seen);
    if queue[0][d] == end {
      FewestOf(next, start, end, queue[0]);
    }
  }

  lemma Extended(next: Next, start: Id, end: Id, d: nat, left: nat, queue: seq<seq<Id>>, seen: set<Id>,
                 added: seq<seq<Id>>, queue': seq<seq<Id>>, seen': set<Id>)
    returns (d': nat, left': nat)
    requires left > 0 && Hunting(next, start, end, d, left, queue, seen)
    requires |queue[0]| == d + 1 && queue[0][d] != end && Expands(next, queue[0], seen, added)
    requires queue' == queue[1..] + added && seen' == seen + Succ(next, queue[0][d])
    ensures Hunting(next, start, end, d', left', queue', seen') && (queue' != [] ==> left' > 0)
  {
    HuntGoesOn(next, start, end, d, left, queue, seen, added);
    if left > 1 {
      d', left' := d, left - 1;
    } else {
      HuntAdvances(next, start, end, d, queue', seen');
      d', left' := d + 1, |queue'|;
    }
  }

  lemma Over(next: Next, start: Id, end: Id, maxDepth: int, d: nat, left: nat, draining: bool, seen: set<Id>)
    requires Pursuit(next, start, end, maxDepth, d, left, draining, [], seen)
    ensures !exists path :: Route(next, start, end, maxDepth, path)
  {
    if !draining {
      HuntIsOver(next, start, end, d, left, seen, maxDepth - 1);
    }
    NoRoute(next, start, end, maxDepth);
  }

  // ---------- Related nodes ----------

  datatype Found = Found(node: Node, score: real, depth: int, path: seq<Id>)

  /** The score of an edge leaving a node at some depth of a search to some depth. */
  type Scoring = (Edge, int, int) -> real

  /** `fade` stands for 0.5 to the power of the edge's age in half-lives when the edge is looked at. */
  function Decayed(fade: Edge -> real): Scoring {
    (e: Edge, currentDepth: int, depth: int) =>
      if depth == 0 then 0.0 else e.weight * fade(e) * (1.0 - currentDepth as real / depth as real)
  }

  /**
   A result: `id` is exactly `depth` steps from the starts, `path`
   is a walk of that length, and its last edge scores.
   */
  ghost predicate Related(nodes: Nodes, adjacency: Adjacency, s: Search, score: Scoring, starts: set<Id>, id: Id,
      f: Found) {
    var next := RelatedSteps(nodes, adjacency, s);
    && id in nodes.vals && f.node == nodes.vals[id]
    && 1 <= f.depth <= s.depth && AtDistance(next, starts, id, f.depth)
    && |f.path| == f.depth + 1 && IsWalkTo(next, starts, id, f.path)
    && f.path[f.depth - 1] in adjacency && id in adjacency[f.path[f.depth - 1]].vals
    && f.score == score(adjacency[f.path[f.depth - 1]].vals[id], f.depth - 1, s.depth)
  }

  ghost predicate AllRelated(nodes: Nodes, adjacency: Adjacency, s: Search, score: Scoring, starts: set<Id>,
      results: JsMap<Id, Found>) {
    forall id :: id in results.vals ==> Related(nodes, adjacency, s, score, starts, id, results.vals[id])
  }

  /** What the inner loop records for the paths it queues. */
  ghost predicate Records(nodes: Nodes, adjacency: Adjacency, s: Search, score: Scoring, path: seq<Id>,
      added: seq<seq<Id>>,
                          before: JsMap<Id, Found>, after: JsMap<Id, Found>)
    requires |path| >= 1 && s.depth != 0 && DistinctEnds(added)
  {
    var u := path[|path| - 1];
    && after.vals.Keys == before.vals.Keys + Ends(added)
    && (forall id :: id in before.vals && id !in Ends(added) ==> after.vals[id] == before.vals[id])
    && (forall v :: v in Ends(added) ==>
         && v in nodes.vals && u in adjacency && v in adjacency[u].vals
         && after.vals[v] == Found(nodes.vals[v], score(adjacency[u].vals[v], |path| - 1, s.depth), |path|, path + [v]))
  }

  lemma RecordOne(nodes: Nodes, adjacency: Adjacency, s: Search, score: Scoring, path: seq<Id>, added: seq<seq<Id>>,
                  before: JsMap<Id, Found>, after: JsMap<Id, Found>, v: Id, f: Found)
    requires |path| >= 1 && s.depth != 0 && DistinctEnds(added) && v !in Ends(added)
    requires Records(nodes, adjacency, s, score, path, added, before, after)
    requires v in nodes.vals && path[|path| - 1] in adjacency && v in adjacency[path[|path| - 1]].vals
    requires f == Found(nodes.vals[v], score(adjacency[path[|path| - 1]].vals[v], |path| - 1, s.depth), |path|, path
      + [v])
    ensures DistinctEnds(added + [path + [v]])
    ensures Records(nodes, adjacency, s, score, path, added + [path + [v]], before, after.Set(v, f))
  {
    OneMore(added, path, v);
  }

  /** What was found from the first path of level d is d + 1 steps away. */
  lemma FoundNext(next: Next, starts: set<Id>, d: nat, left: nat, queue: seq<seq<Id>>, seen: set<Id>, v: Id)
    requires left > 0 && Queued(next, starts, d, left, queue, seen) && |queue[0]| == d + 1
    requires v in Succ(next, queue[0][d]) && v !in seen
    ensures AtDistance(next, starts, v, d + 1) && IsWalkTo(next, starts, v, queue[0] + [v])
  {
    FirstOf(next, starts, d, left, queue, seen);
    assert v !in Within(next, starts, d);
    var path, u := queue[0] + [v], queue[0][d];
    assert v in Succs(next, Within(next, starts, d));
    forall i | 0 <= i < |path| - 1 ensures path[i + 1] in Succ(next, path[i]) {
      if i < d {
        assert path[i] == queue[0][i] && path[i + 1] == queue[0][i + 1];
      }
    }
  }

  lemma RecordedIsRelated(nodes: Nodes, adjacency: Adjacency, s: Search, score: Scoring, starts: set<Id>,
                          d: nat, left: nat, queue: seq<seq<Id>>, seen: set<Id>, v: Id, f: Found)
    requires var next := RelatedSteps(nodes, adjacency, s);
      left > 0 && Queued(next, starts, d, left, queue, seen) && |queue[0]| == d + 1 && d < s.depth
      && v in Succ(next, queue[0][d]) && v !in seen
    requires v in nodes.vals && queue[0][d] in adjacency && v in adjacency[queue[0][d]].vals
    requires f == Found(nodes.vals[v], score(adjacency[queue[0][d]].vals[v], d, s.depth), d + 1, queue[0] + [v])
    ensures Related(nodes, adjacency, s, score, starts, v, f)
  {
    FoundNext(RelatedSteps(nodes, adjacency, s), starts, d, left, queue, seen, v);
  }

  lemma RecordsAreRelated(nodes: Nodes, adjacency: Adjacency, s: Search, score: Scoring, starts: set<Id>,
                          d: nat, left: nat, queue: seq<seq<Id>>, seen: set<Id>, added: seq<seq<Id>>, before: JsMap<Id,
                            Found>, after: JsMap<Id, Found>)
    requires var next := RelatedSteps(nodes, adjacency, s);
      left > 0 && Queued(next, starts, d, left, queue, seen) && |queue[0]| == d + 1 && d < s.depth
        && Expands(next, queue[0], seen, added)
    requires AllRelated(nodes, adjacency, s, score, starts, before)
    requires Records(nodes, adjacency, s, score, queue[0], added, before, after)
    ensures AllRelated(nodes, adjacency, s, score, starts, after)
  {
    forall id | id in after.vals ensures Related(nodes, adjacency, s, score, starts, id, after.vals[id]) {
      if id in Ends(added) {
        RecordedIsRelated(nodes, adjacency, s, score, starts, d, left, queue, seen, id, after.vals[id]);
      }
    }
  }

  /**
   The loop invariant of findRelated: below the depth limit the queue is worked off level by level; at
   the limit everything within reach has been seen, and the queue is only drained.
   */
  ghost predicate Explored(next: Next, starts: set<Id>, depth: int, d: nat, left: nat, draining: bool,
      queue: seq<seq<Id>>, seen: set<Id>) {
    if draining then
      (forall i :: 0 <= i < |queue| ==> |queue[i]| - 1 >= depth)
        && seen - starts == Within(next, starts, depth) - starts
    else
      && Queued(next, starts, d, left, queue, seen) && (queue != [] ==> left > 0)
      && d <= Max(depth, 0) && (d >= depth ==> seen == Within(next, starts, d))
  }

  lemma ExploreStarts(next: Next, starts: seq<Id>, depth: int, queue: seq<seq<Id>>)
    requires NoDup(starts) && |queue| == |starts| && forall i :: 0 <= i < |starts| ==> queue[i] == [starts[i]]
    ensures var S := Ids(starts); Explored(next, S, depth, 0, |queue|, false, queue, S)
  {
    StartQueued(next, starts, queue);
  }

  lemma AtLimit(next: Next, starts: set<Id>, depth: int, d: nat, left: nat, draining: bool, queue: seq<seq<Id>>,
      seen: set<Id>)
    requires queue != [] && Explored(next, starts, depth, d, left, draining, queue, seen) && |queue[0]| - 1 >= depth
    ensures Explored(next, starts, depth, d, left, true, queue[1..], seen)
  {
    if !draining {
      FirstOf(next, starts, d, left, queue, seen);
      QueueLengths(next, starts, d, left, queue, seen);
    }
  }

  lemma BelowLimit(next: Next, starts: set<Id>, depth: int, d: nat, left: nat, queue: seq<seq<Id>>, seen: set<Id>,
      added: seq<seq<Id>>)
    returns (d': nat, left': nat)
    requires left > 0 && Queued(next, starts, d, left, queue, seen)
    requires |queue[0]| == d + 1 && d < depth && Expands(next, queue[0], seen, added)
    ensures Explored(next, starts, depth, d', left', false, queue[1..] + added, seen + Succ(next, queue[0][d]))
  {
    Worked(next, starts, d, left, queue, seen, added);
    if left > 1 {
      d', left' := d, left - 1;
    } else {
      Advance(next, starts, d, queue[1..] + added, seen + Succ(next, queue[0][d]));
      d', left' := d + 1, |queue[1..] + added|;
    }
  }

  lemma ExploredAll(next: Next, starts: set<Id>, depth: int, d: nat, left: nat, draining: bool, seen: set<Id>)
    requires Explored(next, starts, depth, d, left, draining, [], seen)
    ensures seen - starts == Within(next, starts, depth) - starts
  {
    if !draining && depth > d {
      AllSeen(next, starts, d, seen, depth);
    }
  }

  /** One round below the limit. */
  lemma ExploreRound(next: Next, starts: set<Id>, depth: int, d: nat, left: nat, queue: seq<seq<Id>>, seen: set<Id>,
                     added: seq<seq<Id>>, queue': seq<seq<Id>>, seen': set<Id>)
    returns (d': nat, left': nat)
    requires queue != [] && 1 <= |queue[0]| <= depth && Explored(next, starts, depth, d, left, false, queue, seen)
    requires Expands(next, queue[0], seen, added)
    requires queue' == queue[1..] + added && seen' == seen + Succ(next, queue[0][|queue[0]| - 1])
    ensures Explored(next, starts, depth, d', left', false, queue', seen')
  {
    FirstOf(next, starts, d, left, queue, seen);
    d', left' := BelowLimit(next, starts, depth, d, left, queue, seen, added);
  }

  /** There is a result for every node seen that is no start. */
  ghost predicate Recorded(nodes: Nodes, adjacency: Adjacency, s: Search, score: Scoring, starts: set<Id>,
      seen: set<Id>, results: JsMap<Id, Found>) {
    starts <= seen && results.vals.Keys == seen - starts && AllRelated(nodes, adjacency, s, score, starts, results)
  }

  lemma NothingRecorded(nodes: Nodes, adjacency: Adjacency, s: Search, score: Scoring, starts: set<Id>)
    ensures Recorded(nodes, adjacency, s, score, starts, starts, EmptyMap())
  {
    assert EmptyMap<Id, Found>().vals.Keys == {};
  }

  lemma NewKeys(starts: set<Id>, seen: set<Id>, succ: set<Id>, before: set<Id>, after: set<Id>)
    requires starts <= seen && before == seen - starts && after == before + (succ - seen)
    ensures after == seen + succ - starts
  {
  }

  lemma RecordRound(nodes: Nodes, adjacency: Adjacency, s: Search, score: Scoring, starts: set<Id>, d: nat, left: nat,
                    queue: seq<seq<Id>>, seen: set<Id>, added: seq<seq<Id>>, seen': set<Id>, before: JsMap<Id, Found>,
                      after: JsMap<Id, Found>)
    requires var next := RelatedSteps(nodes, adjacency, s);
      && queue != [] && 1 <= |queue[0]| <= s.depth && Explored(next, starts, s.depth, d, left, false, queue, seen)
      && Expands(next, queue[0], seen, added) && seen' == seen + Succ(next, queue[0][|queue[0]| - 1])
    requires Recorded(nodes, adjacency, s, score, starts, seen, before)
    requires Records(nodes, adjacency, s, score, queue[0], added, before, after)
    ensures Recorded(nodes, adjacency, s, score, starts, seen', after)
  {
    var next := RelatedSteps(nodes, adjacency, s);
    FirstOf(next, starts, d, left, queue, seen);
    RecordsAreRelated(nodes, adjacency, s, score, starts, d, left, queue, seen, added, before, after);
    NewKeys(starts, seen, Succ(next, queue[0][d]), before.vals.Keys, after.vals.Keys);
  }

  lemma FirstHasNodes(next: Next, starts: set<Id>, depth: int, d: nat, left: nat, draining: bool, queue: seq<seq<Id>>,
      seen: set<Id>)
    requires queue != [] && Explored(next, starts, depth, d, left, draining, queue, seen) && |queue[0]| - 1 < depth
    ensures !draining && |queue[0]| >= 1
  {
    FirstOf(next, starts, d, left, queue, seen);
  }

  lemma ExploredResults(nodes: Nodes, adjacency: Adjacency, s: Search, score: Scoring, starts: set<Id>,
                        d: nat, left: nat, draining: bool, seen: set<Id>, results: JsMap<Id, Found>)
    requires Explored(RelatedSteps(nodes, adjacency, s), starts, s.depth, d, left, draining, [], seen)
    requires Recorded(nodes, adjacency, s, score, starts, seen, results)
    ensures results.vals.Keys == Within(RelatedSteps(nodes, adjacency, s), starts, s.depth) - starts
    ensures AllRelated(nodes, adjacency, s, score, starts, results)
  {
    ExploredAll(RelatedSteps(nodes, adjacency, s), starts, s.depth, d, left, draining, seen);
  }
}
