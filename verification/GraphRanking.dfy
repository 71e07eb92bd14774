/**
 src/analysis/memory-qr.js, what findRelated does before and after its traversal: which nodes a query
 matches by content, and how the results are ranked.
 */
module GraphRanking {
  import opened JsCollections
  import opened MemoryGraph
  import opened GraphSearch
  import opened R = Reachability

  // ---------- Ranking the results ----------

  /** The node a result is about: the end of its path. */
  function FoundId(f: Found): Id
    requires |f.path| >= 1
  {
    f.path[|f.path| - 1]
  }

  function ByScore(): Found -> real { (f: Found) => f.score }

  /** Every node within depth steps that is no start, exactly once, as Related says, highest score first. */
  ghost predicate IsRanking(nodes: Nodes, adjacency: Adjacency, s: Search, scoring: Scoring, starts: set<Id>,
      all: seq<Found>) {
    && Descending(all, ByScore())
    && (forall i :: 0 <= i < |all| ==>
      |all[i].path| >= 1 && Related(nodes, adjacency, s, scoring, starts, FoundId(all[i]), all[i]))
    && (forall i, j :: 0 <= i < j < |all| ==> FoundId(all[i]) != FoundId(all[j]))
    && (forall id :: id in Within(RelatedSteps(nodes, adjacency, s), starts, s.depth) - starts
          ==> exists i :: 0 <= i < |all| && FoundId(all[i]) == id)
  }

  /** Results are filed under the ends of their paths. */
  ghost predicate FiledByEnd(results: JsMap<Id, Found>) {
    forall id :: id in results.vals ==> |results.vals[id].path| >= 1 && FoundId(results.vals[id]) == id
  }

  lemma ListOfResults(results: JsMap<Id, Found>)
    requires FiledByEnd(results)
    ensures var list := ValuesOf(results);
      && NoDup(list)
      && (forall f :: f in list ==> |f.path| >= 1 && FoundId(f) in results.vals && results.vals[FoundId(f)] == f)
      && (forall id :: id in results.vals ==> results.vals[id] in list)
  {
    var list := ValuesOf(results);
    forall i | 0 <= i < |list|
      ensures results.keys[i] in results.vals && list[i] == results.vals[results.keys[i]]
        && FoundId(list[i]) == results.keys[i]
    {
      assert results.keys[i] in results.keys;
    }
    forall id | id in results.vals ensures results.vals[id] in list {
      assert id in results.keys;
      var i :| 0 <= i < |results.keys| && results.keys[i] == id;
      assert list[i] == results.vals[id];
    }
  }

  lemma SortedIds(results: JsMap<Id, Found>, all: seq<Found>)
    requires FiledByEnd(results) && all == SortDesc(ValuesOf(results), ByScore())
    ensures Descending(all, ByScore())
    ensures forall i :: 0 <= i < |all| ==>
      |all[i].path| >= 1 && FoundId(all[i]) in results.vals && results.vals[FoundId(all[i])] == all[i]
    ensures forall i, j :: 0 <= i < j < |all| ==> FoundId(all[i]) != FoundId(all[j])
    ensures forall id :: id in results.vals ==> exists i :: 0 <= i < |all| && FoundId(all[i]) == id
  {
    var list := ValuesOf(results);
    ListOfResults(results);
    SortDescSorted(list, ByScore());
    SortDescPermutes(list, ByScore());
    SameMultisetSameMembers(list, all);
    SameMultisetNoDup(list, all);
    forall i | 0 <= i < |all|
      ensures |all[i].path| >= 1 && FoundId(all[i]) in results.vals && results.vals[FoundId(all[i])] == all[i]
    {
      assert all[i] in list;
    }
    forall id | id in results.vals ensures exists i :: 0 <= i < |all| && FoundId(all[i]) == id {
      assert results.vals[id] in all;
      var i :| 0 <= i < |all| && all[i] == results.vals[id];
      assert FoundId(all[i]) == id;
    }
  }

  lemma Ranked(nodes: Nodes, adjacency: Adjacency, s: Search, scoring: Scoring, starts: set<Id>, results: JsMap<Id,
      Found>, all: seq<Found>)
    requires results.vals.Keys == Within(RelatedSteps(nodes, adjacency, s), starts, s.depth) - starts
    requires AllRelated(nodes, adjacency, s, scoring, starts, results)
    requires all == SortDesc(ValuesOf(results), ByScore())
    ensures IsRanking(nodes, adjacency, s, scoring, starts, all)
  {
    assert FiledByEnd(results) by {
      forall id | id in results.vals ensures |results.vals[id].path| >= 1 && FoundId(results.vals[id]) == id {
        assert Related(nodes, adjacency, s, scoring, starts, id, results.vals[id]);
      }
    }
    SortedIds(results, all);
  }

  // ---------- Matching content ----------

  /** How many words of the query are indexed for a node. */
  function MatchCount(index: WordIndex, words: seq<string>, id: Id): nat {
    if words == [] then 0
    else
      var w := words[|words| - 1];
      MatchCount(index, words[..|words| - 1], id) + if |w| >= 3 && Holders(index, w).Has(id) then 1 else 0
  }

  datatype Match = Match(id: Id, count: nat)

  function ByCount(): Match -> real { (m: Match) => m.count as real }

  ghost predicate Counted(index: WordIndex, words: seq<string>, matches: JsMap<Id, nat>) {
    forall id :: (id in matches.vals <==> MatchCount(index, words, id) > 0)
      && (id in matches.vals ==> matches.vals[id] == MatchCount(index, words, id))
  }

  /** One more for each of `ids`. */
  ghost predicate PlusOne(before: JsMap<Id, nat>, after: JsMap<Id, nat>, ids: seq<Id>) {
    forall id ::
      && (id in after.vals <==> id in before.vals || id in ids)
      && (id in after.vals
        ==> after.vals[id] == (if id in before.vals then before.vals[id] else 0) + (if id in ids then 1 else 0))
  }

  function CountIds(before: JsMap<Id, nat>, ids: seq<Id>): JsMap<Id, nat> {
    if ids == [] then before
    else
      var matches, id := CountIds(before, ids[..|ids| - 1]), ids[|ids| - 1];
      matches.Set(id, (if matches.Has(id) then matches.vals[id] else 0) + 1)
  }

  lemma OneMoreCounted(before: JsMap<Id, nat>, matches: JsMap<Id, nat>, ids: seq<Id>, id: Id)
    requires PlusOne(before, matches, ids) && id !in ids
    ensures PlusOne(before, matches.Set(id, (if matches.Has(id) then matches.vals[id] else 0) + 1), ids + [id])
  {
  }

  lemma {:induction false} CountIdsAddsOne(before: JsMap<Id, nat>, ids: seq<Id>)
    requires NoDup(ids)
    ensures PlusOne(before, CountIds(before, ids), ids)
  {
    if ids != [] {
      var init, last := ids[..|ids| - 1], ids[|ids| - 1];
      CountIdsAddsOne(before, init);
      OneMoreCounted(before, CountIds(before, init), init, last);
      assert ids == init + [last];
    }
  }

  /** The loop over the words of a query: ids in the order in which they first match. */
  function CountWords(index: WordIndex, words: seq<string>): JsMap<Id, nat> {
    if words == [] then EmptyMap()
    else
      var before, w := CountWords(index, words[..|words| - 1]), words[|words| - 1];
      if |w| < 3 then before else CountIds(before, Holders(index, w).keys)
  }

  lemma {:induction false} WordsAreCounted(index: WordIndex, words: seq<string>)
    ensures Counted(index, words, CountWords(index, words))
  {
    if words != [] {
      var init, w := words[..|words| - 1], words[|words| - 1];
      WordsAreCounted(index, init);
      if |w| >= 3 {
        CountIdsAddsOne(CountWords(index, init), Holders(index, w).keys);
      }
    }
  }

  function Entries(matches: JsMap<Id, nat>): seq<Match> {
    seq(|matches.keys|, i requires 0 <= i < |matches.keys| =>
      assert matches.keys[i] in matches.keys;
      Match(matches.keys[i], matches.vals[matches.keys[i]]))
  }

  /** Every node that matches at all, exactly once, best match first. */
  ghost predicate IsMatchRanking(index: WordIndex, words: seq<string>, ranking: seq<Match>) {
    && Descending(ranking, ByCount())
    && (forall i :: 0 <= i < |ranking| ==> ranking[i].count == MatchCount(index, words, ranking[i].id) > 0)
    && (forall i, j :: 0 <= i < j < |ranking| ==> ranking[i].id != ranking[j].id)
    && (forall id :: MatchCount(index, words, id) > 0 ==> exists i :: 0 <= i < |ranking| && ranking[i].id == id)
  }

  lemma EntriesMatch(matches: JsMap<Id, nat>)
    ensures var list := Entries(matches);
      && NoDup(list)
      && (forall m :: m in list ==> m.id in matches.vals && m.count == matches.vals[m.id])
      && (forall id :: id in matches.vals ==> Match(id, matches.vals[id]) in list)
  {
    var list := Entries(matches);
    forall i | 0 <= i < |list|
      ensures list[i].id == matches.keys[i] && list[i].id in matches.vals && list[i].count == matches.vals[list[i].id]
    {
      assert matches.keys[i] in matches.keys;
    }
    forall id | id in matches.vals ensures Match(id, matches.vals[id]) in list {
      assert id in matches.keys;
      var i :| 0 <= i < |matches.keys| && matches.keys[i] == id;
      assert list[i] == Match(id, matches.vals[id]);
    }
  }

  lemma SortedMatches(matches: JsMap<Id, nat>, ranking: seq<Match>)
    requires ranking == SortDesc(Entries(matches), ByCount())
    ensures Descending(ranking, ByCount()) && NoDup(ranking)
    ensures forall i :: 0 <= i < |ranking| ==>
      ranking[i].id in matches.vals && ranking[i].count == matches.vals[ranking[i].id]
    ensures forall id :: id in matches.vals ==> exists i :: 0 <= i < |ranking| && ranking[i].id == id
  {
    var list := Entries(matches);
    EntriesMatch(matches);
    SortDescSorted(list, ByCount());
    SortDescPermutes(list, ByCount());
    SameMultisetSameMembers(list, ranking);
    SameMultisetNoDup(list, ranking);
    forall i | 0 <= i < |ranking|
      ensures ranking[i].id in matches.vals && ranking[i].count == matches.vals[ranking[i].id]
    {
      assert ranking[i] in list;
    }
    forall id | id in matches.vals ensures exists i :: 0 <= i < |ranking| && ranking[i].id == id {
      var m := Match(id, matches.vals[id]);
      assert m in ranking;
      var i :| 0 <= i < |ranking| && ranking[i] == m;
    }
  }

  /** Sorted by count; the sort is stable, so that equal counts stay in the order of the first match. */
  function ContentMatches(index: WordIndex, words: seq<string>): seq<Match> {
    SortDesc(Entries(CountWords(index, words)), ByCount())
  }

  lemma MatchesRanked(index: WordIndex, words: seq<string>)
    ensures IsMatchRanking(index, words, ContentMatches(index, words))
  {
    WordsAreCounted(index, words);
    SortedMatches(CountWords(index, words), ContentMatches(index, words));
  }

  /** The ids of the nodes that are still there. */
  function LiveIds(nodes: Nodes, matches: seq<Match>): (ids: seq<Id>) {
    if matches == [] then []
    else
      var rest := LiveIds(nodes, matches[..|matches| - 1]);
      if nodes.Has(matches[|matches| - 1].id) then rest + [matches[|matches| - 1].id] else rest
  }

  lemma {:induction false} LiveIdsDistinct(nodes: Nodes, matches: seq<Match>)
    requires forall i, j :: 0 <= i < j < |matches| ==> matches[i].id != matches[j].id
    ensures NoDup(LiveIds(nodes, matches))
    ensures forall id :: id in LiveIds(nodes, matches) ==>
      nodes.Has(id) && exists i :: 0 <= i < |matches| && matches[i].id == id
  {
    if matches != [] {
      var init := matches[..|matches| - 1];
      LiveIdsDistinct(nodes, init);
      forall id | id in LiveIds(nodes, init) ensures exists i :: 0 <= i < |init| && matches[i].id == id {
        var i :| 0 <= i < |init| && init[i].id == id;
        assert matches[i].id == id;
      }
    }
  }

  /** The live ones of the five best content matches. */
  function BestMatches(cfg: Config, nodes: Nodes, index: WordIndex, query: string): seq<Id> {
    LiveIds(nodes, SliceTo(ContentMatches(index, cfg.words(query)), 5))
  }

  /** Where a search for `query` starts: at the node of that id, or else at the best content matches. */
  function StartsOf(cfg: Config, nodes: Nodes, index: WordIndex, query: string): seq<Id> {
    if nodes.Has(query) then [query] else BestMatches(cfg, nodes, index, query)
  }

  /** The answer to a query: the ranking of all nodes related to the starting nodes, cut off at the limit. */
  ghost predicate IsAnswer(cfg: Config, nodes: Nodes, adjacency: Adjacency, index: WordIndex, query: string,
      s: Search, scoring: Scoring, limit: int, answer: seq<Found>) {
    exists all: seq<Found> ::
      IsRanking(nodes, adjacency, s, scoring, Ids(StartsOf(cfg, nodes, index, query)), all)
        && answer == SliceTo(all, limit)
  }
}
