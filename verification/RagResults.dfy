/**
 src/analysis/rag.js, what a search returns: live documents, each once, best first, with scores that
 are the weighted sum of the two searches.
 */
module RagResults {
  import opened JsCollections
  import opened JsValues
  import opened Corpora
  import opened Rag

  /** The score a list gives an id, if it has one. */
  function ScoreIn(list: seq<Scored>, id: Id): Option<real> {
    if list == [] then None
    else if list[|list| - 1].id == id then Some(list[|list| - 1].score)
    else ScoreIn(list[..|list| - 1], id)
  }

  ghost predicate DistinctIds(list: seq<Scored>) { forall i, j :: 0 <= i < j < |list| ==> list[i].id != list[j].id }

  lemma {:induction false} ScoreInMeans(list: seq<Scored>, id: Id)
    ensures ScoreIn(list, id).Some? <==> exists i :: 0 <= i < |list| && list[i].id == id
  {
    if list != [] {
      var init := list[..|list| - 1];
      ScoreInMeans(init, id);
      if i :| 0 <= i < |list| && list[i].id == id {
        assert i < |init| ==> init[i] == list[i];
      }
      if i :| 0 <= i < |init| && init[i].id == id {
        assert list[i].id == id;
      }
    }
  }

  // ---------- Merging ----------

  /** What merging makes of an id's two scores; one that is missing counts as zero, unweighed. */
  function Combined(id: Id, semantic: Option<real>, keyword: Option<real>, sw: Weigh, kw: Weigh): Merged
    requires semantic.Some? || keyword.Some?
  {
    match (semantic, keyword)
    case (Some(s), None) => Merged(id, s, 0.0, sw(s))
    case (None, Some(k)) => Merged(id, 0.0, k, kw(k))
    case (Some(s), Some(k)) => Merged(id, s, k, sw(s) + kw(k))
  }

  lemma {:induction false} SemanticIsMerged(semantic: seq<Scored>, sw: Weigh, kw: Weigh, id: Id)
    ensures var m := MergeSemantic(semantic, sw);
      && (id in m.vals <==> ScoreIn(semantic, id).Some?)
      && (id in m.vals ==> m.vals[id] == Combined(id, ScoreIn(semantic, id), None, sw, kw))
  {
    if semantic != [] {
      SemanticIsMerged(semantic[..|semantic| - 1], sw, kw, id);
    }
  }

  /** Every id of either list is merged once, and its score is the sum of the weighed scores. */
  lemma {:induction false} MergedIsSum(semantic: seq<Scored>, keyword: seq<Scored>, sw: Weigh, kw: Weigh, id: Id)
    requires DistinctIds(keyword)
    ensures var m := MergeKeyword(MergeSemantic(semantic, sw), keyword, kw);
      && (id in m.vals <==> ScoreIn(semantic, id).Some? || ScoreIn(keyword, id).Some?)
      && (id in m.vals ==> m.vals[id] == Combined(id, ScoreIn(semantic, id), ScoreIn(keyword, id), sw, kw))
  {
    if keyword == [] {
      SemanticIsMerged(semantic, sw, kw, id);
    } else {
      var init, r := keyword[..|keyword| - 1], keyword[|keyword| - 1];
      MergedIsSum(semantic, init, sw, kw, id);
      ScoreInMeans(init, id);
      if r.id == id {
        assert ScoreIn(init, id).None?;
      }
    }
  }

  // ---------- The merged list ----------

  /** Merged results are filed under their ids. */
  ghost predicate FiledById(merged: JsMap<Id, Merged>) { forall id :: id in merged.vals ==> merged.vals[id].id == id }

  lemma MergedIsFiled(semantic: seq<Scored>, keyword: seq<Scored>, sw: Weigh, kw: Weigh)
    requires DistinctIds(keyword)
    ensures FiledById(MergeKeyword(MergeSemantic(semantic, sw), keyword, kw))
  {
    var m := MergeKeyword(MergeSemantic(semantic, sw), keyword, kw);
    forall id | id in m.vals ensures m.vals[id].id == id {
      MergedIsSum(semantic, keyword, sw, kw, id);
    }
  }

  ghost predicate DistinctMerged(list: seq<Merged>) { forall i, j :: 0 <= i < j < |list| ==> list[i].id != list[j].id }

  lemma ValuesAreFiled(merged: JsMap<Id, Merged>)
    requires FiledById(merged)
    ensures var list := ValuesOf(merged);
      NoDup(list) && forall r :: r in list ==> r.id in merged.vals && merged.vals[r.id] == r
  {
    var list := ValuesOf(merged);
    forall i | 0 <= i < |list|
      ensures merged.keys[i] in merged.vals && list[i] == merged.vals[merged.keys[i]] && list[i].id == merged.keys[i]
    {
      assert merged.keys[i] in merged.keys;
    }
  }

  lemma SortedMerged(merged: JsMap<Id, Merged>, list: seq<Merged>)
    requires FiledById(merged) && list == SortDesc(ValuesOf(merged), ByMergedScore())
    ensures Descending(list, ByMergedScore()) && DistinctMerged(list)
    ensures forall i :: 0 <= i < |list| ==> list[i].id in merged.vals && merged.vals[list[i].id] == list[i]
  {
    ValuesAreFiled(merged);
    SortDescSorted(ValuesOf(merged), ByMergedScore());
    SortDescPermutes(ValuesOf(merged), ByMergedScore());
    SameMultisetSameMembers(ValuesOf(merged), list);
    SameMultisetNoDup(ValuesOf(merged), list);
    forall i | 0 <= i < |list| ensures list[i].id in merged.vals && merged.vals[list[i].id] == list[i] {
      assert list[i] in ValuesOf(merged);
    }
  }

  /** Best first, each id once. */
  ghost predicate Ranked(list: seq<Merged>) { Descending(list, ByMergedScore()) && DistinctMerged(list) }

  /** What stands before the last of a ranked list goes on being ranked with it. */
  lemma RankedSnoc(kept: seq<Merged>, init: seq<Merged>, last: Merged)
    requires Ranked(kept) && Ranked(init + [last]) && forall i :: 0 <= i < |kept| ==> kept[i] in init
    ensures Ranked(kept + [last])
  {
    forall i | 0 <= i < |kept| ensures ByMergedScore()(kept[i]) >= ByMergedScore()(last) && kept[i].id != last.id {
      assert kept[i] in init;
      var j :| 0 <= j < |init| && init[j] == kept[i];
      assert (init + [last])[j] == kept[i] && (init + [last])[|init|] == last;
    }
  }

  lemma RankedPrefix(init: seq<Merged>, last: Merged)
    requires Ranked(init + [last])
    ensures Ranked(init)
  {
    assert forall i :: 0 <= i < |init| ==> (init + [last])[i] == init[i];
  }

  lemma {:induction false} FilteredIsRanked(env: Env, c: Corpus, filters: Setting<Filters>, list: seq<Merged>)
    requires Ranked(list)
    ensures var kept := Filtered(env, c, filters, list);
      Ranked(kept) && forall i :: 0 <= i < |kept| ==> kept[i] in list && Kept(env, c, filters, kept[i].id)
  {
    if list != [] {
      var init, last := list[..|list| - 1], list[|list| - 1];
      assert list == init + [last];
      RankedPrefix(init, last);
      FilteredIsRanked(env, c, filters, init);
      RankedSnoc(Filtered(env, c, filters, init), init, last);
    }
  }

  // ---------- Live documents ----------

  lemma {:induction false} SimilarAreEmbedded(env: Env, embeddings: JsMap<Id, Vector>, query: Vector, threshold: Num,
      n: nat)
    requires n <= embeddings.Size()
    ensures forall i :: 0 <= i < |Similar(env, embeddings, query, threshold, n)| ==>
      var r := Similar(env, embeddings, query, threshold, n)[i];
      r.id in embeddings.vals && r.score == env.similarity(query, embeddings.vals[r.id]) && Reaches(r.score, threshold)
  {
    if n > 0 {
      SimilarAreEmbedded(env, embeddings, query, threshold, n - 1);
      assert embeddings.keys[n - 1] in embeddings.keys;
    }
  }

  lemma {:induction false} SimilarHasAll(env: Env, embeddings: JsMap<Id, Vector>, query: Vector, threshold: Num,
      n: nat, i: nat)
    requires i < n <= embeddings.Size() && embeddings.keys[i] in embeddings.vals
    requires Reaches(env.similarity(query, embeddings.vals[embeddings.keys[i]]), threshold)
    ensures var id := embeddings.keys[i];
      Scored(id, env.similarity(query, embeddings.vals[id])) in Similar(env, embeddings, query, threshold, n)
  {
    assert embeddings.keys[n - 1] in embeddings.keys;
    if i < n - 1 {
      SimilarHasAll(env, embeddings, query, threshold, n - 1, i);
    }
  }

  function SimilarityTo(env: Env, c: Corpus, query: Vector, id: Id): real
    requires c.documents.Has(id)
  {
    env.similarity(query, env.text.embed(c.documents.vals[id].content))
  }

  /** A document that is similar enough to the query. */
  ghost predicate IsSimilar(env: Env, c: Corpus, query: Vector, threshold: Num, r: Scored) {
    c.documents.Has(r.id) && r.score == SimilarityTo(env, c, query, r.id) && Reaches(r.score, threshold)
  }

  lemma SimilarIff(env: Env, c: Corpus, query: Vector, threshold: Num, r: Scored)
    requires CorpusOk(env.text, c)
    ensures r in Similar(env, c.embeddings, query, threshold, c.embeddings.Size())
      <==> IsSimilar(env, c, query, threshold, r)
  {
    var all := Similar(env, c.embeddings, query, threshold, c.embeddings.Size());
    SimilarAreEmbedded(env, c.embeddings, query, threshold, c.embeddings.Size());
    if r in all {
      var j :| 0 <= j < |all| && all[j] == r;
    }
    if IsSimilar(env, c, query, threshold, r) {
      assert r.id in c.embeddings.vals;
      assert r.id in c.embeddings.keys;
      var i :| 0 <= i < |c.embeddings.keys| && c.embeddings.keys[i] == r.id;
      SimilarHasAll(env, c.embeddings, query, threshold, c.embeddings.Size(), i);
    }
  }

  /** Semantic results are the documents that are similar enough, best first; if one is left out, none kept is worse. */
  lemma SemanticIsBest(env: Env, c: Corpus, query: Vector, limit: Num, threshold: Num)
    requires CorpusOk(env.text, c)
    ensures var r := SemanticSearch(env, c, query, limit, threshold);
      && Descending(r, BySimilarity()) && (forall x :: x in r ==> IsSimilar(env, c, query, threshold, x))
      && (forall x, y :: IsSimilar(env, c, query, threshold, x) && x !in r && y in r ==> x.score <= y.score)
      && (RoomLeft(limit, |r|) ==> forall x :: IsSimilar(env, c, query, threshold, x) ==> x in r)
  {
    var all := Similar(env, c.embeddings, query, threshold, c.embeddings.Size());
    SortedCut(all, BySimilarity(), limit);
    forall x ensures x in all <==> IsSimilar(env, c, query, threshold, x) {
      SimilarIff(env, c, query, threshold, x);
    }
  }

  lemma NormalizedIds(scores: JsMap<Id, real>)
    ensures var list := Normalized(scores);
      && DistinctIds(list) && NoDup(list)
      && forall r :: r in list <==>
        r.id in scores.vals && r.score == scores.vals[r.id] / MaxScore(scores, scores.Size())
  {
    var list := Normalized(scores);
    forall i | 0 <= i < |list|
      ensures list[i].id == scores.keys[i] && list[i].id in scores.vals
        && list[i].score == scores.vals[list[i].id] / MaxScore(scores, scores.Size())
    {
      assert scores.keys[i] in scores.keys;
    }
    forall r: Scored | r.id in scores.vals && r.score == scores.vals[r.id] / MaxScore(scores, scores.Size())
      ensures r in list
    {
      assert r.id in scores.keys;
      var i :| 0 <= i < |scores.keys| && scores.keys[i] == r.id;
      assert list[i] == r;
    }
  }

  /** The greatest score of a document for the query, but at least 1. */
  function BestScore(env: Env, c: Corpus, query: string): real {
    var scores := IndexScores(env.log, c, env.text.terms(query));
    MaxScore(scores, scores.Size())
  }

  /** A document that shares a term with the query, with the score that scanning would give it, normalised. */
  ghost predicate IsKeyword(env: Env, c: Corpus, query: string, r: Scored) {
    && Shares(env.text, c.documents, env.text.terms(query), r.id)
    && r.score == ScanScore(env.text, env.log, c.documents, env.text.terms(query), r.id) / BestScore(env, c, query)
  }

  lemma KeywordIff(env: Env, c: Corpus, query: string, r: Scored)
    requires CorpusOk(env.text, c)
    ensures r in Normalized(IndexScores(env.log, c, env.text.terms(query))) <==> IsKeyword(env, c, query, r)
  {
    NormalizedIds(IndexScores(env.log, c, env.text.terms(query)));
    IndexScoresAreScans(env.text, env.log, c, env.text.terms(query), r.id);
  }

  /**
   Keyword results are the documents that share a term with the
   query, best first; if one is left out, none kept is worse.
   */
  lemma KeywordIsBest(env: Env, c: Corpus, query: string, limit: Num)
    requires CorpusOk(env.text, c)
    ensures var r := KeywordSearch(env, c, query, limit);
      && Descending(r, BySimilarity()) && DistinctIds(r) && (forall x :: x in r ==> IsKeyword(env, c, query, x))
      && (forall x, y :: IsKeyword(env, c, query, x) && x !in r && y in r ==> x.score <= y.score)
      && (RoomLeft(limit, |r|) ==> forall x :: IsKeyword(env, c, query, x) ==> x in r)
  {
    KeywordsDistinct(env, c, query, limit);
    forall x ensures x in Normalized(IndexScores(env.log, c, env.text.terms(query))) <==> IsKeyword(env, c, query, x) {
      KeywordIff(env, c, query, x);
    }
    KeywordSlice(env, c, query, limit, Normalized(IndexScores(env.log, c, env.text.terms(query))));
  }

  lemma KeywordSlice(env: Env, c: Corpus, query: string, limit: Num, list: seq<Scored>)
    requires forall x :: x in list <==> IsKeyword(env, c, query, x)
    ensures var r := Slice(SortDesc(list, BySimilarity()), limit);
      && Descending(r, BySimilarity()) && (forall x :: x in r ==> IsKeyword(env, c, query, x))
      && (forall x, y :: IsKeyword(env, c, query, x) && x !in r && y in r ==> x.score <= y.score)
      && (RoomLeft(limit, |r|) ==> forall x :: IsKeyword(env, c, query, x) ==> x in r)
  {
    SortedCut(list, BySimilarity(), limit);
  }

  lemma KeywordsDistinct(env: Env, c: Corpus, query: string, limit: Num)
    ensures DistinctIds(KeywordSearch(env, c, query, limit))
  {
    var scores := IndexScores(env.log, c, env.text.terms(query));
    var list, sorted := Normalized(scores), SortDesc(Normalized(scores), BySimilarity());
    NormalizedIds(scores);
    SortDescPermutes(list, BySimilarity());
    SameMultisetSameMembers(list, sorted);
    SameMultisetNoDup(list, sorted);
    SameIdIsSame(list, sorted);
  }

  lemma SameIdIsSame(list: seq<Scored>, sorted: seq<Scored>)
    requires DistinctIds(list) && NoDup(sorted) && forall r :: r in sorted ==> r in list
    ensures DistinctIds(sorted)
  {
    forall i, j | 0 <= i < j < |sorted| ensures sorted[i].id != sorted[j].id {
      assert sorted[i] in list && sorted[j] in list;
      var a :| 0 <= a < |list| && list[a] == sorted[i];
      var b :| 0 <= b < |list| && list[b] == sorted[j];
    }
  }

  // ---------- The result of a search ----------

  ghost predicate AllHave(documents: Documents, list: seq<Scored>) {
    forall i :: 0 <= i < |list| ==> documents.Has(list[i].id)
  }

  lemma SemanticOfIsLive(env: Env, c: Corpus, q: Query)
    requires CorpusOk(env.text, c)
    ensures AllHave(c.documents, SemanticOf(env, c, q))
  {
    var query, limit, threshold :=
      env.text.embed(q.text), Doubled(LimitOf(q)), ThresholdOf(q);
    SemanticIsBest(env, c, query, limit, threshold);
    forall i | 0 <= i < |SemanticOf(env, c, q)| ensures c.documents.Has(SemanticOf(env, c, q)[i].id) {
      assert SemanticOf(env, c, q)[i] in SemanticSearch(env, c, query, limit, threshold);
    }
  }

  lemma KeywordOfIsLive(env: Env, c: Corpus, q: Query)
    requires CorpusOk(env.text, c)
    ensures DistinctIds(KeywordOf(env, c, q)) && AllHave(c.documents, KeywordOf(env, c, q))
  {
    var limit := Doubled(LimitOf(q));
    KeywordIsBest(env, c, q.text, limit);
    forall i | 0 <= i < |KeywordOf(env, c, q)| ensures c.documents.Has(KeywordOf(env, c, q)[i].id) {
      assert KeywordOf(env, c, q)[i] in KeywordSearch(env, c, q.text, limit);
    }
  }

  ghost predicate AllLive(documents: Documents, list: seq<Merged>) {
    forall i :: 0 <= i < |list| ==> documents.Has(list[i].id)
  }

  lemma MergedIsLive(documents: Documents, q: Query, semantic: seq<Scored>, keyword: seq<Scored>)
    requires DistinctIds(keyword) && AllHave(documents, semantic) && AllHave(documents, keyword)
    ensures Ranked(MergeFor(q, semantic, keyword)) && AllLive(documents, MergeFor(q, semantic, keyword))
  {
    ResultsAreLive(documents, semantic, keyword, WeightOf(q));
  }

  lemma ResultsAreLive(documents: Documents, semantic: seq<Scored>, keyword: seq<Scored>, weight: real)
    requires DistinctIds(keyword) && AllHave(documents, semantic) && AllHave(documents, keyword)
    ensures var list := MergeResults(semantic, keyword, weight, 1.0 - weight); Ranked(list) && AllLive(documents, list)
  {
    MergeIsLive(documents, semantic, keyword, Times(weight), Times(1.0 - weight),
      MergeResults(semantic, keyword, weight, 1.0 - weight));
  }

  lemma MergedOfIsLive(env: Env, c: Corpus, q: Query)
    requires CorpusOk(env.text, c)
    ensures Ranked(MergedOf(env, c, q)) && AllLive(c.documents, MergedOf(env, c, q))
  {
    SemanticOfIsLive(env, c, q);
    KeywordOfIsLive(env, c, q);
    MergedIsLive(c.documents, q, SemanticOf(env, c, q), KeywordOf(env, c, q));
  }

  lemma MergeIsLive(documents: Documents, semantic: seq<Scored>, keyword: seq<Scored>, sw: Weigh, kw: Weigh,
      list: seq<Merged>)
    requires DistinctIds(keyword) && AllHave(documents, semantic) && AllHave(documents, keyword)
    requires list == SortDesc(ValuesOf(MergeKeyword(MergeSemantic(semantic, sw), keyword, kw)), ByMergedScore())
    ensures Ranked(list) && AllLive(documents, list)
  {
    MergedIsFiled(semantic, keyword, sw, kw);
    SortedMerged(MergeKeyword(MergeSemantic(semantic, sw), keyword, kw), list);
    forall i | 0 <= i < |list| ensures documents.Has(list[i].id) {
      MergedIsSum(semantic, keyword, sw, kw, list[i].id);
      ScoreInMeans(semantic, list[i].id);
      ScoreInMeans(keyword, list[i].id);
    }
  }

  /** A ranked list of live documents that pass the filters, at most `limit`. */
  ghost predicate Presentable(env: Env, c: Corpus, q: Query, top: seq<Merged>) {
    && Ranked(top) && AllLive(c.documents, top) && (forall r :: r in top ==> Kept(env, c, q.options.filters, r.id))
    && AtMost(|top|, LimitOf(q))
  }

  /** Whatever was merged and passes the filters is in the list, or scores no more than anything in it. */
  ghost predicate Best(env: Env, c: Corpus, q: Query, top: seq<Merged>) {
    var merged, limit := MergedOf(env, c, q), LimitOf(q);
    && (forall x, y :: x in merged && Kept(env, c, q.options.filters, x.id) && x !in top && y in top ==>
      x.score <= y.score)
    && (RoomLeft(limit, |top|) ==> forall x :: x in merged && Kept(env, c, q.options.filters, x.id) ==> x in top)
  }

  lemma {:induction false} FilteredHasKept(env: Env, c: Corpus, filters: Setting<Filters>, list: seq<Merged>, x: Merged)
    ensures x in Filtered(env, c, filters, list) <==> x in list && Kept(env, c, filters, x.id)
  {
    if list != [] {
      FilteredHasKept(env, c, filters, list[..|list| - 1], x);
      assert list == list[..|list| - 1] + [list[|list| - 1]];
    }
  }

  lemma PrefixIsBest(kept: seq<Merged>, limit: Num)
    requires Ranked(kept)
    ensures var top := Slice(kept, limit);
      && Ranked(top) && AtMost(|top|, limit)
        && (forall x, y :: x in kept && x !in top && y in top ==> x.score <= y.score)
      && (RoomLeft(limit, |top|) ==> top == kept)
  {
    var top := Slice(kept, limit);
    forall x, y | x in kept && x !in top && y in top ensures x.score <= y.score {
      var i :| 0 <= i < |kept| && kept[i] == x;
      var j :| 0 <= j < |top| && top[j] == y;
      assert forall n :: 0 <= n < |top| ==> top[n] == kept[n] && kept[n] in top;
      assert i >= |top| && kept[j] == y;
      assert ByMergedScore()(kept[j]) >= ByMergedScore()(kept[i]);
    }
  }

  /** Retrieval from a sound corpus never meets a missing document; it presents the best that passes the filters. */
  lemma ResultsArePresentable(env: Env, c: Corpus, q: Query)
    requires CorpusOk(env.text, c)
    ensures Presentable(env, c, q, Top(env, c, q)) && Best(env, c, q, Top(env, c, q))
  {
    var merged, limit, filters := MergedOf(env, c, q), LimitOf(q), q.options.filters;
    var kept := Filtered(env, c, filters, merged);
    MergedOfIsLive(env, c, q);
    FilteredIsRanked(env, c, filters, merged);
    PrefixIsBest(kept, limit);
    forall x ensures x in kept <==> x in merged && Kept(env, c, filters, x.id) {
      FilteredHasKept(env, c, filters, merged, x);
    }
    forall i | 0 <= i < |Top(env, c, q)|
      ensures c.documents.Has(Top(env, c, q)[i].id) && Kept(env, c, filters, Top(env, c, q)[i].id)
    {
      assert kept[i] in merged;
      var j :| 0 <= j < |merged| && merged[j] == kept[i];
    }
  }

  /** What a search returns shows each of these in order, with its document's own content where content is asked for. */
  lemma ResultsShowTop(env: Env, c: Corpus, q: Query, i: nat)
    requires CorpusOk(env.text, c) && i < |Retrieve(env, c, q)|
    ensures |Retrieve(env, c, q)| == |Top(env, c, q)|
    ensures var r, m, fields := Retrieve(env, c, q)[i], Top(env, c, q)[i], q.options.includeFields;
      && r.id == m.id && c.documents.Has(m.id)
      && (r.content.Some? <==> fields.None? || "content" in fields.value)
        && (r.content.Some? ==> r.content.value == c.documents.vals[m.id].content)
      && (r.score.Some? ==> r.score.value == m.score)
  {
    ResultsArePresentable(env, c, q);
  }
}
