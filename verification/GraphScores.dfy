/**
 src/analysis/memory-qr.js, what the answers of findRelated and getPath mean in terms of the edges themselves:
 what a score is, what comes before what, which walks the filters allow, and what is left out at the limit.
 */
module GraphScores {
  import opened JsCollections
  import opened MemoryGraph
  import opened GraphSearch
  import opened GraphRanking
  import opened GraphExtract
  import opened PathCaches
  import opened R = Reachability

  // ---------- Scores ----------

  ghost predicate IsEdge(adjacency: Adjacency, u: Id, v: Id, e: Edge) {
    u in adjacency && v in adjacency[u].vals && adjacency[u].vals[v] == e
  }

  /** The edge by which a result was reached. */
  ghost predicate ReachedBy(adjacency: Adjacency, f: Found, e: Edge) {
    |f.path| >= 2 && IsEdge(adjacency, f.path[|f.path| - 2], f.path[|f.path| - 1], e)
  }

  lemma DecayedTimes(fade: Edge -> real, e: Edge, currentDepth: int, depth: int)
    requires depth >= 1
    ensures Decayed(fade)(e, currentDepth, depth) * depth as real
      == e.weight * fade(e) * (depth - currentDepth) as real
    ensures currentDepth == 0 ==> Decayed(fade)(e, currentDepth, depth) == e.weight * fade(e)
  {
    var w := e.weight * fade(e);
    Unscaled(w, currentDepth as real, depth as real);
    if currentDepth == 0 {
      assert 0 as real / depth as real == 0.0;
    }
  }

  lemma Unscaled(w: real, n: real, m: real)
    requires m > 0.0
    ensures w * (1.0 - n / m) * m == w * (m - n)
  {
    assert (1.0 - n / m) * m == m - n / m * m == m - n;
    assert w * (1.0 - n / m) * m == w * ((1.0 - n / m) * m);
  }

  /** A result's score, times the depth of the search, is its edge's decayed weight times the levels left. */
  ghost predicate ScoredBy(fade: Edge -> real, depth: int, f: Found, e: Edge) {
    && f.score * depth as real == e.weight * fade(e) * (depth - (f.depth - 1)) as real
    && (f.depth == 1 ==> f.score == e.weight * fade(e))
  }

  lemma RelatedScore(nodes: Nodes, adjacency: Adjacency, s: Search, fade: Edge -> real, starts: set<Id>, id: Id,
      f: Found)
      returns (e: Edge)
    requires Related(nodes, adjacency, s, Decayed(fade), starts, id, f)
    ensures ReachedBy(adjacency, f, e) && 1 <= f.depth == |f.path| - 1 <= s.depth && ScoredBy(fade, s.depth, f, e)
  {
    e := RelatedEdge(nodes, adjacency, s, Decayed(fade), starts, id, f);
    DecayedScore(fade, s.depth, f, e);
  }

  lemma RelatedEdge(nodes: Nodes, adjacency: Adjacency, s: Search, scoring: Scoring, starts: set<Id>, id: Id,
      f: Found)
      returns (e: Edge)
    requires Related(nodes, adjacency, s, scoring, starts, id, f)
    ensures ReachedBy(adjacency, f, e) && 1 <= f.depth == |f.path| - 1 <= s.depth
    ensures f.score == scoring(e, f.depth - 1, s.depth)
  {
    e := adjacency[f.path[f.depth - 1]].vals[id];
  }

  lemma DecayedScore(fade: Edge -> real, depth: int, f: Found, e: Edge)
    requires 1 <= f.depth <= depth && f.score == Decayed(fade)(e, f.depth - 1, depth)
    ensures ScoredBy(fade, depth, f, e)
  {
    DecayedTimes(fade, e, f.depth - 1, depth);
  }

  /** The whole ranking of which an answer is the front. */
  lemma RankingOf(cfg: Config, nodes: Nodes, adjacency: Adjacency, index: WordIndex, query: string, s: Search,
      scoring: Scoring, limit: int, answer: seq<Found>)
      returns (all: seq<Found>)
    requires IsAnswer(cfg, nodes, adjacency, index, query, s, scoring, limit, answer)
    ensures IsRanking(nodes, adjacency, s, scoring, Ids(StartsOf(cfg, nodes, index, query)), all)
    ensures answer == SliceTo(all, limit)
  {
    all :| IsRanking(nodes, adjacency, s, scoring, Ids(StartsOf(cfg, nodes, index, query)), all)
      && answer == SliceTo(all, limit);
  }

  lemma AnswerIsRelated(cfg: Config, nodes: Nodes, adjacency: Adjacency, index: WordIndex, query: string, s: Search,
      scoring: Scoring, limit: int, answer: seq<Found>, i: nat)
    requires IsAnswer(cfg, nodes, adjacency, index, query, s, scoring, limit, answer) && i < |answer|
    ensures |answer[i].path| >= 1 && Related(nodes, adjacency, s, scoring, Ids(StartsOf(cfg, nodes, index, query)),
      FoundId(answer[i]), answer[i])
  {
    var all := RankingOf(cfg, nodes, adjacency, index, query, s, scoring, limit, answer);
    assert answer[i] == all[i];
  }

  lemma AnswerIsScored(cfg: Config, nodes: Nodes, adjacency: Adjacency, index: WordIndex, query: string, s: Search,
      fade: Edge -> real, limit: int, answer: seq<Found>, i: nat)
      returns (e: Edge)
    requires IsAnswer(cfg, nodes, adjacency, index, query, s, Decayed(fade), limit, answer) && i < |answer|
    ensures ReachedBy(adjacency, answer[i], e) && 1 <= answer[i].depth == |answer[i].path| - 1 <= s.depth
    ensures ScoredBy(fade, s.depth, answer[i], e)
  {
    AnswerIsRelated(cfg, nodes, adjacency, index, query, s, Decayed(fade), limit, answer, i);
    e := RelatedScore(nodes, adjacency, s, fade, Ids(StartsOf(cfg, nodes, index, query)), FoundId(answer[i]),
      answer[i]);
  }

  /** What the score of each result is. */
  lemma AnswerScores(cfg: Config, nodes: Nodes, adjacency: Adjacency, index: WordIndex, query: string, s: Search,
      fade: Edge -> real, limit: int, answer: seq<Found>, i: nat)
      returns (e: Edge)
    requires IsAnswer(cfg, nodes, adjacency, index, query, s, Decayed(fade), limit, answer) && i < |answer|
    ensures ReachedBy(adjacency, answer[i], e) && 1 <= answer[i].depth == |answer[i].path| - 1 <= s.depth
    ensures answer[i].score * s.depth as real == e.weight * fade(e) * (s.depth - (answer[i].depth - 1)) as real
    ensures answer[i].depth == 1 ==> answer[i].score == e.weight * fade(e)
  {
    e := AnswerIsScored(cfg, nodes, adjacency, index, query, s, fade, limit, answer, i);
  }

  // ---------- Order ----------

  lemma AnswerDescends(cfg: Config, nodes: Nodes, adjacency: Adjacency, index: WordIndex, query: string, s: Search,
      scoring: Scoring, limit: int, answer: seq<Found>, i: nat, j: nat)
    requires IsAnswer(cfg, nodes, adjacency, index, query, s, scoring, limit, answer) && i <= j < |answer|
    ensures answer[i].score >= answer[j].score
  {
    var all := RankingOf(cfg, nodes, adjacency, index, query, s, scoring, limit, answer);
    assert answer[i] == all[i] && answer[j] == all[j];
    if i < j {
      assert ByScore()(all[i]) >= ByScore()(all[j]);
    }
  }

  lemma TimesGrows(a: real, x: real, y: real)
    requires a > 0.0 && x > y
    ensures a * x > a * y
  {
    assert a * (x - y) > 0.0;
    assert a * (x - y) == a * x - a * y;
  }

  /** Of two results whose edges weigh the same, decayed, the nearer scores more. */
  lemma NearerScoresMore(fade: Edge -> real, depth: int, f: Found, e: Edge, f': Found, e': Edge)
    requires depth >= 1 && ScoredBy(fade, depth, f, e) && ScoredBy(fade, depth, f', e')
    requires e.weight * fade(e) == e'.weight * fade(e') > 0.0 && f.depth < f'.depth
    ensures f.score > f'.score
  {
    var a, d := e.weight * fade(e), depth as real;
    TimesGrows(a, (depth - (f.depth - 1)) as real, (depth - (f'.depth - 1)) as real);
    if f.score <= f'.score {
      NotLess(d, f.score, f'.score);
    }
  }

  lemma NotLess(d: real, x: real, y: real)
    requires d > 0.0 && x <= y
    ensures x * d <= y * d
  {
    if x < y {
      TimesGrows(d, y, x);
    }
  }

  lemma AlikeScoresMore(fade: Edge -> real, depth: int, f: Found, e: Edge, f': Found, e': Edge, weight: real,
      faded: real)
    requires depth >= 1 && ScoredBy(fade, depth, f, e) && ScoredBy(fade, depth, f', e') && f.depth < f'.depth
    requires e.weight == e'.weight == weight > 0.0 && fade(e) == fade(e') == faded > 0.0
    ensures f.score > f'.score
  {
    TimesGrows(weight, faded, 0.0);
    NearerScoresMore(fade, depth, f, e, f', e');
  }

  /** Every edge has this weight, and has faded alike. */
  ghost predicate Uniform(adjacency: Adjacency, fade: Edge -> real, weight: real, faded: real) {
    forall u, v :: u in adjacency && v in adjacency[u].vals ==>
      adjacency[u].vals[v].weight == weight && fade(adjacency[u].vals[v]) == faded
  }

  /** When all edges have the same positive weight and age, an answer lists nearer nodes before farther ones. */
  lemma NearerFirst(cfg: Config, nodes: Nodes, adjacency: Adjacency, index: WordIndex, query: string, s: Search,
      fade: Edge -> real, limit: int, answer: seq<Found>, weight: real, faded: real, i: nat, j: nat)
    requires IsAnswer(cfg, nodes, adjacency, index, query, s, Decayed(fade), limit, answer) && i < j < |answer|
    requires Uniform(adjacency, fade, weight, faded) && weight > 0.0 && faded > 0.0
    ensures answer[i].depth <= answer[j].depth
  {
    var e := AnswerIsScored(cfg, nodes, adjacency, index, query, s, fade, limit, answer, i);
    var e' := AnswerIsScored(cfg, nodes, adjacency, index, query, s, fade, limit, answer, j);
    AnswerDescends(cfg, nodes, adjacency, index, query, s, Decayed(fade), limit, answer, i, j);
    if answer[i].depth > answer[j].depth {
      AlikeScoresMore(fade, s.depth, answer[j], e', answer[i], e, weight, faded);
    }
  }

  lemma HeavierScoresMore(fade: Edge -> real, depth: int, f: Found, e: Edge, f': Found, e': Edge)
    requires depth >= f.depth && ScoredBy(fade, depth, f, e) && ScoredBy(fade, depth, f', e') && f.depth == f'.depth
    requires depth >= 1 && e.weight * fade(e) > e'.weight * fade(e')
    ensures f.score > f'.score
  {
    var left := (depth - (f.depth - 1)) as real;
    TimesGrows(left, e.weight * fade(e), e'.weight * fade(e'));
    if f.score <= f'.score {
      NotLess(depth as real, f.score, f'.score);
    }
  }

  lemma HeavierOrFresher(weight: real, faded: real, weight': real, faded': real)
    requires (faded == faded' > 0.0 && weight > weight') || (weight == weight' > 0.0 && faded > faded')
    ensures weight * faded > weight' * faded'
  {
    if faded == faded' {
      TimesGrows(faded, weight, weight');
    } else {
      TimesGrows(weight, faded, faded');
    }
  }

  lemma HeavierScores(fade: Edge -> real, depth: int, f: Found, e: Edge, f': Found, e': Edge)
    requires 1 <= f.depth == f'.depth <= depth && ScoredBy(fade, depth, f, e) && ScoredBy(fade, depth, f', e')
    requires (fade(e) == fade(e') > 0.0 && e.weight > e'.weight) || (e.weight == e'.weight > 0.0 && fade(e) > fade(e'))
    ensures f.score > f'.score
  {
    HeavierOrFresher(e.weight, fade(e), e'.weight, fade(e'));
    HeavierScoresMore(fade, depth, f, e, f', e');
  }

  lemma SameEdge(adjacency: Adjacency, f: Found, e: Edge, e': Edge)
    requires ReachedBy(adjacency, f, e) && ReachedBy(adjacency, f, e')
    ensures e == e'
  {
  }

  /**
   At equal depth: of two edges faded alike the heavier comes first, and of two equally heavy ones the one
   that has faded less.
   */
  lemma HeavierFirst(cfg: Config, nodes: Nodes, adjacency: Adjacency, index: WordIndex, query: string, s: Search,
      fade: Edge -> real, limit: int, answer: seq<Found>, i: nat, j: nat, e: Edge, e': Edge)
    requires IsAnswer(cfg, nodes, adjacency, index, query, s, Decayed(fade), limit, answer)
    requires i < |answer| && j < |answer| && answer[i].depth == answer[j].depth
    requires ReachedBy(adjacency, answer[i], e) && ReachedBy(adjacency, answer[j], e')
    requires (fade(e) == fade(e') > 0.0 && e.weight > e'.weight) || (e.weight == e'.weight > 0.0 && fade(e) > fade(e'))
    ensures i < j && answer[i].score > answer[j].score
  {
    var e1 := AnswerIsScored(cfg, nodes, adjacency, index, query, s, fade, limit, answer, i);
    var e2 := AnswerIsScored(cfg, nodes, adjacency, index, query, s, fade, limit, answer, j);
    SameEdge(adjacency, answer[i], e, e1);
    SameEdge(adjacency, answer[j], e', e2);
    HeavierScores(fade, s.depth, answer[i], e, answer[j], e');
    if j <= i {
      AnswerDescends(cfg, nodes, adjacency, index, query, s, Decayed(fade), limit, answer, j, i);
    }
  }

  // ---------- What is left out ----------

  function IdsOf(list: seq<Found>): seq<Id>
    requires forall i :: 0 <= i < |list| ==> |list[i].path| >= 1
  {
    seq(|list|, i requires 0 <= i < |list| => FoundId(list[i]))
  }

  lemma RankingSize(nodes: Nodes, adjacency: Adjacency, s: Search, scoring: Scoring, starts: set<Id>, all: seq<Found>)
    requires IsRanking(nodes, adjacency, s, scoring, starts, all)
    ensures |all| == |Within(RelatedSteps(nodes, adjacency, s), starts, s.depth) - starts|
  {
    var near := Within(RelatedSteps(nodes, adjacency, s), starts, s.depth) - starts;
    forall i | 0 <= i < |all| ensures FoundId(all[i]) in near {
      RelatedIsNear(nodes, adjacency, s, scoring, starts, FoundId(all[i]), all[i]);
    }
    AsManyAs(near, all);
  }

  lemma AsManyAs(near: set<Id>, all: seq<Found>)
    requires forall i :: 0 <= i < |all| ==> |all[i].path| >= 1 && FoundId(all[i]) in near
    requires forall i, j :: 0 <= i < j < |all| ==> FoundId(all[i]) != FoundId(all[j])
    requires forall id :: id in near ==> exists i :: 0 <= i < |all| && FoundId(all[i]) == id
    ensures |all| == |near|
  {
    var ids := IdsOf(all);
    SizeIsCardinality(ids);
    forall id | id in near ensures id in ids {
      var i :| 0 <= i < |all| && FoundId(all[i]) == id;
      assert ids[i] == id;
    }
    assert (set x | x in ids) == near;
  }

  lemma RelatedIsNear(nodes: Nodes, adjacency: Adjacency, s: Search, scoring: Scoring, starts: set<Id>, id: Id,
      f: Found)
    requires Related(nodes, adjacency, s, scoring, starts, id, f)
    ensures id in Within(RelatedSteps(nodes, adjacency, s), starts, s.depth) - starts
  {
    var next := RelatedSteps(nodes, adjacency, s);
    WithinGrows(next, starts, f.depth, s.depth);
    WithinGrows(next, starts, 0, f.depth - 1);
  }

  ghost predicate Listed(answer: seq<Found>, id: Id) {
    exists i :: 0 <= i < |answer| && |answer[i].path| >= 1 && FoundId(answer[i]) == id
  }

  /** Nothing in the answer scores less. */
  ghost predicate NoBetter(answer: seq<Found>, f: Found) {
    forall i :: 0 <= i < |answer| ==> answer[i].score >= f.score
  }

  /** An answer is as long as the limit allows, and whatever it leaves out scores no more than anything in it. */
  lemma AnswerIsBest(cfg: Config, nodes: Nodes, adjacency: Adjacency, index: WordIndex, query: string, s: Search,
      scoring: Scoring, limit: int, answer: seq<Found>)
    requires IsAnswer(cfg, nodes, adjacency, index, query, s, scoring, limit, answer) && limit >= 0
    ensures var starts := Ids(StartsOf(cfg, nodes, index, query));
      var near := Within(RelatedSteps(nodes, adjacency, s), starts, s.depth) - starts;
      && |answer| == Min(limit, |near|)
      && forall id :: id in near ==>
           Listed(answer, id)
           || (exists f :: Related(nodes, adjacency, s, scoring, starts, id, f) && NoBetter(answer, f))
  {
    var starts := Ids(StartsOf(cfg, nodes, index, query));
    var near := Within(RelatedSteps(nodes, adjacency, s), starts, s.depth) - starts;
    var all := RankingOf(cfg, nodes, adjacency, index, query, s, scoring, limit, answer);
    RankingSize(nodes, adjacency, s, scoring, starts, all);
    forall id | id in near
      ensures Listed(answer, id)
        || exists f :: Related(nodes, adjacency, s, scoring, starts, id, f) && NoBetter(answer, f)
    {
      var k :| 0 <= k < |all| && FoundId(all[k]) == id;
      if k < |answer| {
        assert answer[k] == all[k];
      } else {
        LeftOut(all, answer, k);
      }
    }
  }

  lemma LeftOut(all: seq<Found>, answer: seq<Found>, k: nat)
    requires Descending(all, ByScore()) && answer <= all && |answer| <= k < |all|
    ensures NoBetter(answer, all[k])
  {
    forall i | 0 <= i < |answer| ensures answer[i].score >= all[k].score {
      assert ByScore()(all[i]) >= ByScore()(all[k]);
    }
  }

  // ---------- Walks that the filters allow ----------

  /** One step of findRelated: heavy enough, of a relationship asked for, to a live node of a type asked for. */
  ghost predicate OpenStep(nodes: Nodes, adjacency: Adjacency, s: Search, u: Id, v: Id) {
    && u in adjacency && v in adjacency[u].vals && v in nodes.vals
    && adjacency[u].vals[v].weight >= s.minWeight
    && (s.relationships.Some? ==> adjacency[u].vals[v].kind in s.relationships.value)
    && (s.types.Some? ==> nodes.vals[v].kind in s.types.value)
  }

  ghost predicate OpenWalk(nodes: Nodes, adjacency: Adjacency, s: Search, starts: seq<Id>, path: seq<Id>) {
    |path| >= 1 && path[0] in starts
      && forall i :: 0 <= i < |path| - 1 ==> OpenStep(nodes, adjacency, s, path[i], path[i + 1])
  }

  lemma OpenWalkIff(nodes: Nodes, adjacency: Adjacency, s: Search, starts: seq<Id>, path: seq<Id>)
    requires |path| >= 1
    ensures OpenWalk(nodes, adjacency, s, starts, path)
      <==> IsWalkTo(RelatedSteps(nodes, adjacency, s), Ids(starts), path[|path| - 1], path)
  {
    var next := RelatedSteps(nodes, adjacency, s);
    IdsMembers(starts);
    forall i | 0 <= i < |path| - 1
      ensures OpenStep(nodes, adjacency, s, path[i], path[i + 1]) <==> path[i + 1] in Succ(next, path[i])
    {
    }
  }

  /** A result's path obeys every filter at every step, and no walk that does is shorter. */
  lemma ResultsObeyFilters(cfg: Config, nodes: Nodes, adjacency: Adjacency, index: WordIndex, query: string,
      s: Search, scoring: Scoring, limit: int, answer: seq<Found>, i: nat, walk: seq<Id>)
    requires IsAnswer(cfg, nodes, adjacency, index, query, s, scoring, limit, answer) && i < |answer|
    ensures var starts := StartsOf(cfg, nodes, index, query);
      && OpenWalk(nodes, adjacency, s, starts, answer[i].path) && |answer[i].path| == answer[i].depth + 1
      && (OpenWalk(nodes, adjacency, s, starts, walk) && walk[|walk| - 1] == FoundId(answer[i]) ==>
        |answer[i].path| <= |walk|)
  {
    var starts, next := StartsOf(cfg, nodes, index, query), RelatedSteps(nodes, adjacency, s);
    AnswerIsRelated(cfg, nodes, adjacency, index, query, s, scoring, limit, answer, i);
    var f := answer[i];
    OpenWalkIff(nodes, adjacency, s, starts, f.path);
    if OpenWalk(nodes, adjacency, s, starts, walk) && walk[|walk| - 1] == FoundId(f) && |walk| < |f.path| {
      OpenWalkIff(nodes, adjacency, s, starts, walk);
      WalkIsWithin(next, Ids(starts), FoundId(f), walk);
      WithinGrows(next, Ids(starts), |walk| - 1, f.depth - 1);
    }
  }

  /** The end of every walk that obeys the filters and is no longer than the depth is found, unless cut off. */
  lemma WalksAreAnswered(cfg: Config, nodes: Nodes, adjacency: Adjacency, index: WordIndex, query: string, s: Search,
      scoring: Scoring, limit: int, answer: seq<Found>, walk: seq<Id>)
    requires IsAnswer(cfg, nodes, adjacency, index, query, s, scoring, limit, answer) && |answer| < limit
    requires OpenWalk(nodes, adjacency, s, StartsOf(cfg, nodes, index, query), walk) && |walk| - 1 <= s.depth
    requires walk[|walk| - 1] !in StartsOf(cfg, nodes, index, query)
    ensures Listed(answer, walk[|walk| - 1])
  {
    var starts, next, v := StartsOf(cfg, nodes, index, query), RelatedSteps(nodes, adjacency, s), walk[|walk| - 1];
    var all := RankingOf(cfg, nodes, adjacency, index, query, s, scoring, limit, answer);
    OpenWalkIff(nodes, adjacency, s, starts, walk);
    IdsMembers(starts);
    WalkIsWithin(next, Ids(starts), v, walk);
    WithinGrows(next, Ids(starts), |walk| - 1, s.depth);
    assert v in Within(next, Ids(starts), s.depth) - Ids(starts);
    assert answer == all;
  }

  // ---------- Where a search starts ----------

  lemma {:induction false} LiveIdsAll(nodes: Nodes, matches: seq<Match>, id: Id)
    ensures id in LiveIds(nodes, matches) <==>
      nodes.Has(id) && exists i :: 0 <= i < |matches| && matches[i].id == id
  {
    if matches != [] {
      var init := matches[..|matches| - 1];
      LiveIdsAll(nodes, init, id);
      if i :| 0 <= i < |matches| && matches[i].id == id {
        assert i < |init| ==> init[i].id == id;
      }
      if i :| 0 <= i < |init| && init[i].id == id {
        assert matches[i].id == id;
      }
    }
  }

  /** Among the first five of the ranking of content matches. */
  ghost predicate InFive(index: WordIndex, words: seq<string>, id: Id) {
    exists i :: 0 <= i < Min(5, |ContentMatches(index, words)|) && ContentMatches(index, words)[i].id == id
  }

  /** A search starts at the node of that id; if there is none, at the live ones of the first five matches. */
  lemma StartsMean(cfg: Config, nodes: Nodes, index: WordIndex, query: string, id: Id)
    ensures id in StartsOf(cfg, nodes, index, query) <==>
      if nodes.Has(query) then id == query else nodes.Has(id) && InFive(index, cfg.words(query), id)
  {
    if !nodes.Has(query) {
      var ranking := ContentMatches(index, cfg.words(query));
      LiveIdsAll(nodes, SliceTo(ranking, 5), id);
      forall i | 0 <= i < Min(5, |ranking|) ensures SliceTo(ranking, 5)[i] == ranking[i] {
      }
    }
  }

  /** The first five share a long word with the query, and none of the others shares more. */
  lemma FiveMean(index: WordIndex, words: seq<string>, id: Id, other: Id)
    requires InFive(index, words, id)
    ensures MatchCount(index, words, id) > 0
    ensures !InFive(index, words, other) ==> MatchCount(index, words, other) <= MatchCount(index, words, id)
  {
    var ranking := ContentMatches(index, words);
    MatchesRanked(index, words);
    var i :| 0 <= i < Min(5, |ranking|) && ranking[i].id == id;
    if !InFive(index, words, other) && MatchCount(index, words, other) > 0 {
      var k :| 0 <= k < |ranking| && ranking[k].id == other;
      assert ByCount()(ranking[i]) >= ByCount()(ranking[k]);
    }
  }

  // ---------- Paths ----------

  ghost predicate AllowedStep(adjacency: Adjacency, allowed: Filter, u: Id, v: Id) {
    u in adjacency && v in adjacency[u].vals && (allowed.Some? ==> adjacency[u].vals[v].kind in allowed.value)
  }

  /** A walk of getPath, in terms of the edges. */
  ghost predicate AllowedWalk(adjacency: Adjacency, allowed: Filter, start: Id, end: Id, path: seq<Id>) {
    && |path| >= 1 && path[0] == start && path[|path| - 1] == end
    && forall i :: 0 <= i < |path| - 1 ==> AllowedStep(adjacency, allowed, path[i], path[i + 1])
  }

  lemma AllowedWalkIff(adjacency: Adjacency, allowed: Filter, start: Id, end: Id, path: seq<Id>)
    ensures AllowedWalk(adjacency, allowed, start, end, path)
      <==> IsWalkTo(AllowedSteps(adjacency, allowed), {start}, end, path)
  {
    var next := AllowedSteps(adjacency, allowed);
    forall i | 0 <= i < |path| - 1
      ensures AllowedStep(adjacency, allowed, path[i], path[i + 1]) <==> path[i + 1] in Succ(next, path[i])
    {
    }
  }

  lemma {:induction false} WeightsAdd(a: seq<Edge>, b: seq<Edge>)
    ensures TotalWeight(a + b) == TotalWeight(a) + TotalWeight(b)
    ensures forall e :: TotalWeight([e]) == e.weight
  {
    if b == [] {
      assert a + b == a;
    } else {
      WeightsAdd(a, b[..|b| - 1]);
      assert (a + b)[..|a + b| - 1] == a + b[..|b| - 1];
    }
    forall e ensures TotalWeight([e]) == e.weight {
      assert [e][..0] == [] && TotalWeight([]) == 0.0;
    }
  }

  /**
   A right answer of getPath in terms of the edges: a walk along allowed edges with no more nodes than asked
   for and no fewer than any other such walk needs; and none is answered only if there is no such walk.
   */
  lemma RightPathMeans(g: Graph, q: Question, r: Option<PathResult>, walk: seq<Id>)
    requires RightPath(g, q, r) && g.nodes.Has(q.start) && g.nodes.Has(q.end)
    ensures r.Some? ==>
      && AllowedWalk(g.adjacency, q.allowed, q.start, q.end, r.value.nodes)
      && |r.value.nodes| <= q.maxDepth && r.value.length == |r.value.nodes| - 1
    ensures AllowedWalk(g.adjacency, q.allowed, q.start, q.end, walk) ==>
      if r.Some? then |r.value.nodes| <= |walk| else |walk| > q.maxDepth
  {
    AllowedWalkIff(g.adjacency, q.allowed, q.start, q.end, walk);
    if r.Some? {
      AllowedWalkIff(g.adjacency, q.allowed, q.start, q.end, r.value.nodes);
    } else if AllowedWalk(g.adjacency, q.allowed, q.start, q.end, walk) && |walk| <= q.maxDepth {
      assert Route(AllowedSteps(g.adjacency, q.allowed), q.start, q.end, q.maxDepth, walk);
    }
  }
}
