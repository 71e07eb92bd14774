/**
 src/analysis/rag.js, what the scores of a search mean: the weight that the query asks for blends similarity
 and shared terms, the two ends of the scale are the two searches alone, and which values a range lets through.
 */
module RagBlend {
  import opened JsCollections
  import opened JsValues
  import opened Corpora
  import opened Rag
  import opened RagResults

  /** `v` is what the caller chose, or the default. */
  predicate Chosen<T(==)>(option: Setting<T>, default: T, v: T) {
    match option
    case Is(x) => v == x
    case _ => v == default
  }

  // ---------- One merged result ----------

  lemma {:induction false} ScoreInIsMember(list: seq<Scored>, id: Id)
    ensures ScoreIn(list, id).Some? ==> Scored(id, ScoreIn(list, id).value) in list
  {
    if list != [] {
      ScoreInIsMember(list[..|list| - 1], id);
      assert list == list[..|list| - 1] + [list[|list| - 1]];
    }
  }

  lemma MemberIsScoreIn(list: seq<Scored>, r: Scored)
    requires DistinctIds(list) && r in list
    ensures ScoreIn(list, r.id) == Some(r.score)
  {
    ScoreInMeans(list, r.id);
    ScoreInIsMember(list, r.id);
    var i :| 0 <= i < |list| && list[i] == r;
    var j :| 0 <= j < |list| && list[j] == Scored(r.id, ScoreIn(list, r.id).value);
  }

  /** The score of an id in one of the lists, or zero. */
  function ScoreOr(list: seq<Scored>, id: Id): real {
    match ScoreIn(list, id)
    case Some(s) => s
    case None => 0.0
  }

  function Blend(w: real, s: real, k: real): real { w * s + (1.0 - w) * k }

  /** A merged result has both scores and blends them. */
  ghost predicate Blends(semantic: seq<Scored>, keyword: seq<Scored>, w: real, m: Merged) {
    && m.semanticScore == ScoreOr(semantic, m.id) && m.keywordScore == ScoreOr(keyword, m.id)
    && m.score == Blend(w, m.semanticScore, m.keywordScore)
  }

  /** The loops add up what the formula says; what is missing adds nothing. */
  lemma SumIsBlend(w: real, s: real, k: real)
    ensures Times(w)(s) == Blend(w, s, 0.0)
    ensures Times(1.0 - w)(k) == Blend(w, 0.0, k)
    ensures Times(w)(s) + Times(1.0 - w)(k) == Blend(w, s, k)
  {
    assert Times(w)(s) == s * w == w * s;
    assert Times(1.0 - w)(k) == k * (1.0 - w) == (1.0 - w) * k;
    assert (1.0 - w) * 0.0 == 0.0 && w * 0.0 == 0.0;
  }

  lemma CombinedBlends(semantic: seq<Scored>, keyword: seq<Scored>, w: real, id: Id)
    requires ScoreIn(semantic, id).Some? || ScoreIn(keyword, id).Some?
    ensures Blends(semantic, keyword, w,
      Combined(id, ScoreIn(semantic, id), ScoreIn(keyword, id), Times(w), Times(1.0 - w)))
  {
    SumIsBlend(w, ScoreOr(semantic, id), ScoreOr(keyword, id));
  }

  lemma MergedBlends(semantic: seq<Scored>, keyword: seq<Scored>, w: real, m: Merged)
    requires DistinctIds(keyword) && m in MergeResults(semantic, keyword, w, 1.0 - w)
    ensures Blends(semantic, keyword, w, m) && (ScoreIn(semantic, m.id).Some? || ScoreIn(keyword, m.id).Some?)
  {
    var merged := MergeKeyword(MergeSemantic(semantic, Times(w)), keyword, Times(1.0 - w));
    var list := MergeResults(semantic, keyword, w, 1.0 - w);
    MergedIsFiled(semantic, keyword, Times(w), Times(1.0 - w));
    SortedMerged(merged, list);
    var i :| 0 <= i < |list| && list[i] == m;
    MergedIsSum(semantic, keyword, Times(w), Times(1.0 - w), m.id);
    CombinedBlends(semantic, keyword, w, m.id);
  }

  lemma FoundIsMerged(semantic: seq<Scored>, keyword: seq<Scored>, w: real, id: Id) returns (m: Merged)
    requires DistinctIds(keyword) && (ScoreIn(semantic, id).Some? || ScoreIn(keyword, id).Some?)
    ensures m in MergeResults(semantic, keyword, w, 1.0 - w) && m.id == id
  {
    var merged := MergeKeyword(MergeSemantic(semantic, Times(w)), keyword, Times(1.0 - w));
    MergedIsFiled(semantic, keyword, Times(w), Times(1.0 - w));
    MergedIsSum(semantic, keyword, Times(w), Times(1.0 - w), id);
    m := merged.vals[id];
    assert id in merged.keys;
    var i :| 0 <= i < |merged.keys| && merged.keys[i] == id;
    assert ValuesOf(merged)[i] == m;
    SortDescPermutes(ValuesOf(merged), ByMergedScore());
    SameMultisetSameMembers(ValuesOf(merged), MergeResults(semantic, keyword, w, 1.0 - w));
  }

  // ---------- What a search returns ----------

  /**
   The document's similarity to the query, or zero when it was not found by similarity; its share of the query's
   terms, or zero when it was not found by terms; and their blend.
   */
  ghost predicate IsBlend(env: Env, c: Corpus, q: Query, w: real, threshold: Num, m: Merged) {
    && m.score == Blend(w, m.semanticScore, m.keywordScore)
    && (m.semanticScore == 0.0
      || IsSimilar(env, c, env.text.embed(q.text), threshold, Scored(m.id, m.semanticScore)))
    && (m.keywordScore == 0.0 || IsKeyword(env, c, q.text, Scored(m.id, m.keywordScore)))
  }

  lemma SemanticScores(env: Env, c: Corpus, q: Query, threshold: Num, id: Id)
    requires CorpusOk(env.text, c) && Chosen(q.options.threshold, Finite(0.5), threshold)
    ensures ScoreIn(SemanticOf(env, c, q), id).Some? ==>
      IsSimilar(env, c, env.text.embed(q.text), threshold, Scored(id, ScoreIn(SemanticOf(env, c, q), id).value))
  {
    SemanticIsBest(env, c, env.text.embed(q.text), Doubled(LimitOf(q)), threshold);
    ScoreInIsMember(SemanticOf(env, c, q), id);
  }

  lemma KeywordScores(env: Env, c: Corpus, q: Query, id: Id)
    requires CorpusOk(env.text, c)
    ensures DistinctIds(KeywordOf(env, c, q))
    ensures ScoreIn(KeywordOf(env, c, q), id).Some? ==>
      IsKeyword(env, c, q.text, Scored(id, ScoreIn(KeywordOf(env, c, q), id).value))
  {
    KeywordIsBest(env, c, q.text, Doubled(LimitOf(q)));
    ScoreInIsMember(KeywordOf(env, c, q), id);
  }

  lemma MergedOfBlends(env: Env, c: Corpus, q: Query, w: real, threshold: Num, m: Merged)
    requires CorpusOk(env.text, c) && m in MergedOf(env, c, q)
    requires Chosen(q.options.semanticWeight, 0.7, w) && Chosen(q.options.threshold, Finite(0.5), threshold)
    ensures IsBlend(env, c, q, w, threshold, m)
    ensures Blends(SemanticOf(env, c, q), KeywordOf(env, c, q), w, m)
    ensures ScoreIn(SemanticOf(env, c, q), m.id).Some? || ScoreIn(KeywordOf(env, c, q), m.id).Some?
  {
    SemanticScores(env, c, q, threshold, m.id);
    KeywordScores(env, c, q, m.id);
    MergedBlends(SemanticOf(env, c, q), KeywordOf(env, c, q), w, m);
  }

  lemma TopIsMerged(env: Env, c: Corpus, q: Query, m: Merged)
    requires m in Top(env, c, q)
    ensures m in MergedOf(env, c, q)
  {
    FilteredHasKept(env, c, q.options.filters, MergedOf(env, c, q), m);
  }

  /** Every result of a search blends its two scores with the weight asked for, or 0.7. */
  lemma ResultsBlend(env: Env, c: Corpus, q: Query, w: real, threshold: Num, i: nat)
    requires CorpusOk(env.text, c) && i < |Retrieve(env, c, q)|
    requires Chosen(q.options.semanticWeight, 0.7, w) && Chosen(q.options.threshold, Finite(0.5), threshold)
    ensures |Top(env, c, q)| == |Retrieve(env, c, q)| && IsBlend(env, c, q, w, threshold, Top(env, c, q)[i])
    ensures var m := Top(env, c, q)[i]; m.score == w * m.semanticScore + (1.0 - w) * m.keywordScore
    ensures Shows(c, q.options.includeFields, Top(env, c, q)[i], Retrieve(env, c, q)[i])
  {
    ResultsArePresentable(env, c, q);
    TopBlends(env, c, q, w, threshold, i);
  }

  /** A result shows the id, and of the other fields those asked for, with the document's own content and metadata. */
  ghost predicate Shows(c: Corpus, fields: Option<set<string>>, m: Merged, r: Result) {
    && r.id == m.id && c.documents.Has(m.id)
    && IsShown(fields, "score", m.score, r.score)
    && IsShown(fields, "semanticScore", m.semanticScore, r.semanticScore)
    && IsShown(fields, "keywordScore", m.keywordScore, r.keywordScore)
    && IsShown(fields, "content", c.documents.vals[m.id].content, r.content)
    && IsShown(fields, "metadata", c.documents.vals[m.id].metadata, r.metadata)
  }

  predicate IsShown<T(==)>(fields: Option<set<string>>, name: string, v: T, shown: Option<T>) {
    match shown
    case Some(x) => x == v && (fields.Some? ==> name in fields.value)
    case None => fields.Some? && name !in fields.value
  }

  /** With all the weight on similarity, results are ordered by similarity; with none, by shared terms. */
  lemma EndsOfTheScale(env: Env, c: Corpus, q: Query, i: nat, j: nat)
    requires CorpusOk(env.text, c) && i < j < |Top(env, c, q)|
    ensures q.options.semanticWeight == Is(1.0) ==> Top(env, c, q)[i].semanticScore >= Top(env, c, q)[j].semanticScore
    ensures q.options.semanticWeight == Is(0.0) ==> Top(env, c, q)[i].keywordScore >= Top(env, c, q)[j].keywordScore
  {
    TopDescends(env, c, q, i, j);
    TopBlends(env, c, q, WeightOf(q), ThresholdOf(q), i);
    TopBlends(env, c, q, WeightOf(q), ThresholdOf(q), j);
  }

  lemma TopDescends(env: Env, c: Corpus, q: Query, i: nat, j: nat)
    requires CorpusOk(env.text, c) && i < j < |Top(env, c, q)|
    ensures Top(env, c, q)[i].score >= Top(env, c, q)[j].score
  {
    ResultsArePresentable(env, c, q);
    assert ByMergedScore()(Top(env, c, q)[i]) >= ByMergedScore()(Top(env, c, q)[j]);
  }

  lemma TopBlends(env: Env, c: Corpus, q: Query, w: real, threshold: Num, i: nat)
    requires CorpusOk(env.text, c) && i < |Top(env, c, q)|
    requires Chosen(q.options.semanticWeight, 0.7, w) && Chosen(q.options.threshold, Finite(0.5), threshold)
    ensures IsBlend(env, c, q, w, threshold, Top(env, c, q)[i])
  {
    TopIsMerged(env, c, q, Top(env, c, q)[i]);
    MergedOfBlends(env, c, q, w, threshold, Top(env, c, q)[i]);
  }

  /** For a positive weight: equal in shared terms, the more similar comes first; and the other way round. */
  lemma MoreIsBetter(env: Env, c: Corpus, q: Query, w: real, i: nat, j: nat)
    requires CorpusOk(env.text, c) && i < |Top(env, c, q)| && j < |Top(env, c, q)|
    requires Chosen(q.options.semanticWeight, 0.7, w) && 0.0 < w < 1.0
    requires var x, y := Top(env, c, q)[i], Top(env, c, q)[j];
      && x.semanticScore >= y.semanticScore && x.keywordScore >= y.keywordScore
      && (x.semanticScore > y.semanticScore || x.keywordScore > y.keywordScore)
    ensures i < j
  {
    var x, y := Top(env, c, q)[i], Top(env, c, q)[j];
    TopBlends(env, c, q, w, ThresholdOf(q), i);
    TopBlends(env, c, q, w, ThresholdOf(q), j);
    BlendGrows(w, x.semanticScore, x.keywordScore, y.semanticScore, y.keywordScore);
    if j < i {
      TopDescends(env, c, q, j, i);
    }
  }

  lemma BlendGrows(w: real, s: real, k: real, s': real, k': real)
    requires 0.0 < w < 1.0 && s >= s' && k >= k' && (s > s' || k > k')
    ensures Blend(w, s, k) > Blend(w, s', k')
  {
    var p := Grown(w, s, s');
    var n := Grown(1.0 - w, k, k');
    Split(w, s, k);
    Split(w, s', k');
  }

  function Scaled(a: real, x: real): real { a * x }

  lemma Split(w: real, s: real, k: real)
    ensures Blend(w, s, k) == Scaled(w, s) + Scaled(1.0 - w, k)
  {
  }

  lemma Grown(a: real, x: real, y: real) returns (d: real)
    requires a > 0.0 && x >= y
    ensures Scaled(a, x) == Scaled(a, y) + d && d >= 0.0 && (x > y ==> d > 0.0)
  {
    d := a * (x - y);
    assert a * x == a * y + a * (x - y);
    if x > y {
      Positive(a, x - y);
    } else {
      assert d == a * 0.0;
    }
  }

  lemma Positive(a: real, b: real)
    requires a > 0.0 && b > 0.0
    ensures a * b > 0.0
  {
  }

  /** A document that one search leaves out, though it may find it: the search found twice the limit no worse. */
  ghost predicate CutOff(list: seq<Scored>, limit: Num, x: Scored) {
    !RoomLeft(Doubled(limit), |list|) && forall y :: y in list ==> y.score >= x.score
  }

  /**
   The similarity of a document counts exactly when it reaches the threshold and is not cut off, and when the
   search is hybrid or similarity has weight; likewise its terms.
   */
  lemma WhatCounts(env: Env, c: Corpus, q: Query, w: real, limit: Num, threshold: Num, m: Merged)
    requires CorpusOk(env.text, c) && m in MergedOf(env, c, q)
    requires Chosen(q.options.semanticWeight, 0.7, w) && Chosen(q.options.limit, Finite(10.0), limit)
    requires Chosen(q.options.threshold, Finite(0.5), threshold)
    ensures forall s | IsSimilar(env, c, env.text.embed(q.text), threshold, Scored(m.id, s))
      && (q.options.hybrid != Is(false) || w > 0.0) ::
      m.semanticScore == s || CutOff(SemanticOf(env, c, q), limit, Scored(m.id, s))
    ensures forall s :: IsKeyword(env, c, q.text, Scored(m.id, s)) && (q.options.hybrid != Is(false) || w < 1.0) ==>
      m.keywordScore == s || CutOff(KeywordOf(env, c, q), limit, Scored(m.id, s))
    ensures q.options.hybrid == Is(false) && w <= 0.0 ==> m.semanticScore == 0.0
    ensures q.options.hybrid == Is(false) && w >= 1.0 ==> m.keywordScore == 0.0
  {
    MergedOfBlends(env, c, q, w, threshold, m);
    SemanticCounts(env, c, q, w, limit, threshold, m.id);
    KeywordCounts(env, c, q, w, limit, m.id);
  }

  lemma SemanticCounts(env: Env, c: Corpus, q: Query, w: real, limit: Num, threshold: Num, id: Id)
    requires CorpusOk(env.text, c) && Chosen(q.options.semanticWeight, 0.7, w)
    requires Chosen(q.options.limit, Finite(10.0), limit) && Chosen(q.options.threshold, Finite(0.5), threshold)
    ensures forall s | IsSimilar(env, c, env.text.embed(q.text), threshold, Scored(id, s))
      && (q.options.hybrid != Is(false) || w > 0.0) ::
      ScoreOr(SemanticOf(env, c, q), id) == s || CutOff(SemanticOf(env, c, q), limit, Scored(id, s))
    ensures q.options.hybrid == Is(false) && w <= 0.0 ==> ScoreOr(SemanticOf(env, c, q), id) == 0.0
  {
    var query, list := env.text.embed(q.text), SemanticOf(env, c, q);
    if q.options.hybrid != Is(false) || w > 0.0 {
      SemanticIsBest(env, c, query, Doubled(limit), threshold);
      SemanticIdsDistinct(env, c, query, Doubled(limit), threshold);
      forall s | IsSimilar(env, c, query, threshold, Scored(id, s))
        ensures ScoreOr(list, id) == s || CutOff(list, limit, Scored(id, s))
      {
        if Scored(id, s) in list {
          MemberIsScoreIn(list, Scored(id, s));
        }
      }
    }
  }

  lemma KeywordCounts(env: Env, c: Corpus, q: Query, w: real, limit: Num, id: Id)
    requires CorpusOk(env.text, c) && Chosen(q.options.semanticWeight, 0.7, w)
    requires Chosen(q.options.limit, Finite(10.0), limit)
    ensures forall s :: IsKeyword(env, c, q.text, Scored(id, s)) && (q.options.hybrid != Is(false) || w < 1.0) ==>
      ScoreOr(KeywordOf(env, c, q), id) == s || CutOff(KeywordOf(env, c, q), limit, Scored(id, s))
    ensures q.options.hybrid == Is(false) && w >= 1.0 ==> ScoreOr(KeywordOf(env, c, q), id) == 0.0
  {
    var list := KeywordOf(env, c, q);
    if q.options.hybrid != Is(false) || w < 1.0 {
      KeywordIsBest(env, c, q.text, Doubled(limit));
      forall s | IsKeyword(env, c, q.text, Scored(id, s))
        ensures ScoreOr(list, id) == s || CutOff(list, limit, Scored(id, s))
      {
        if Scored(id, s) in list {
          MemberIsScoreIn(list, Scored(id, s));
        }
      }
    }
  }

  // ---------- One search alone ----------

  /** The merged results are what one search found, with the scores it gave. */
  ghost predicate IsListing(list: seq<Scored>, merged: seq<Merged>) {
    && |merged| == |list|
    && (forall m :: m in merged ==> Scored(m.id, m.score) in list)
    && (forall r :: r in list ==> exists m :: m in merged && m.id == r.id && m.score == r.score)
  }

  function IdsFound(list: seq<Scored>): seq<Id> { seq(|list|, i requires 0 <= i < |list| => list[i].id) }

  function IdsMerged(list: seq<Merged>): seq<Id> { seq(|list|, i requires 0 <= i < |list| => list[i].id) }

  lemma SameIdsSameSize(list: seq<Scored>, merged: seq<Merged>)
    requires DistinctIds(list) && DistinctMerged(merged)
    requires forall m :: m in merged ==> Scored(m.id, m.score) in list
    requires forall r :: r in list ==> exists m :: m in merged && m.id == r.id && m.score == r.score
    ensures |merged| == |list|
  {
    var a, b := IdsFound(list), IdsMerged(merged);
    SizeIsCardinality(a);
    SizeIsCardinality(b);
    forall x ensures x in a <==> x in b {
      if i :| 0 <= i < |a| && a[i] == x {
        assert list[i] in list;
        var m :| m in merged && m.id == list[i].id && m.score == list[i].score;
        var j :| 0 <= j < |merged| && merged[j] == m;
        assert b[j] == x;
      }
      if j :| 0 <= j < |b| && b[j] == x {
        var m := merged[j];
        assert m in merged;
        var i :| 0 <= i < |list| && list[i] == Scored(m.id, m.score);
        assert a[i] == x;
      }
    }
    assert (set x | x in a) == (set x | x in b);
  }

  /** With nothing found by terms and all the weight on similarity, or the other way round. */
  lemma OneListMerged(semantic: seq<Scored>, keyword: seq<Scored>, w: real, list: seq<Scored>)
    requires DistinctIds(semantic) && DistinctIds(keyword)
    requires (keyword == [] && w == 1.0 && list == semantic) || (semantic == [] && w == 0.0 && list == keyword)
    ensures var merged := MergeResults(semantic, keyword, w, 1.0 - w); Ranked(merged) && IsListing(list, merged)
    ensures forall m :: m in MergeResults(semantic, keyword, w, 1.0 - w) ==>
      m.semanticScore == (if w == 1.0 then m.score else 0.0) && m.keywordScore == (if w == 1.0 then 0.0 else m.score)
  {
    var merged := MergeResults(semantic, keyword, w, 1.0 - w);
    MergedIsFiled(semantic, keyword, Times(w), Times(1.0 - w));
    SortedMerged(MergeKeyword(MergeSemantic(semantic, Times(w)), keyword, Times(1.0 - w)), merged);
    forall m | m in merged
      ensures m.semanticScore == (if w == 1.0 then m.score else 0.0)
      ensures m.keywordScore == (if w == 1.0 then 0.0 else m.score)
      ensures Scored(m.id, m.score) in list
    {
      MergedBlends(semantic, keyword, w, m);
      ScoreInIsMember(list, m.id);
    }
    forall r | r in list ensures exists m :: m in merged && m.id == r.id && m.score == r.score {
      MemberIsScoreIn(list, r);
      var m := FoundIsMerged(semantic, keyword, w, r.id);
      MergedBlends(semantic, keyword, w, m);
    }
    SameIdsSameSize(list, merged);
  }

  /** The best of all that `found` accepts, each once, best first, no more than the limit allows. */
  ghost predicate IsBestOf(found: Scored -> bool, limit: Num, top: seq<Merged>) {
    && Ranked(top) && AtMost(|top|, limit)
    && (forall m :: m in top ==> found(Scored(m.id, m.score)))
    && (forall x, m :: found(x) && m in top && (forall y :: y in top ==> y.id != x.id) ==> x.score <= m.score)
    && (RoomLeft(limit, |top|) ==> forall x :: found(x) ==> exists m :: m in top && m.id == x.id)
  }

  lemma RoomTwice(limit: Num, n: nat)
    requires RoomLeft(limit, n)
    ensures RoomLeft(Doubled(limit), n)
  {
  }

  /** A list cut at twice the limit, merged and cut at the limit, keeps what one cut would have kept. */
  lemma CutTwice(found: Scored -> bool, list: seq<Scored>, merged: seq<Merged>, limit: Num)
    requires Ranked(merged) && IsListing(list, merged) && forall x :: x in list ==> found(x)
    requires forall x, y :: found(x) && x !in list && y in list ==> x.score <= y.score
    requires RoomLeft(Doubled(limit), |list|) ==> forall x :: found(x) ==> x in list
    ensures IsBestOf(found, limit, Slice(merged, limit))
  {
    var top := Slice(merged, limit);
    PrefixIsBest(merged, limit);
    assert forall m :: m in top ==> m in merged;
    forall x, m | found(x) && m in top && (forall y :: y in top ==> y.id != x.id) ensures x.score <= m.score {
      assert Scored(m.id, m.score) in list;
      if x in list {
        var y :| y in merged && y.id == x.id && y.score == x.score;
      }
    }
    if RoomLeft(limit, |top|) {
      RoomTwice(limit, |list|);
    }
  }

  lemma SemanticIdsDistinct(env: Env, c: Corpus, query: Vector, limit: Num, threshold: Num)
    ensures DistinctIds(SemanticSearch(env, c, query, limit, threshold))
  {
    var list := Similar(env, c.embeddings, query, threshold, c.embeddings.Size());
    SimilarDistinct(env, c.embeddings, query, threshold, c.embeddings.Size());
    DistinctIsNoDup(list);
    SortDescPermutes(list, BySimilarity());
    SameMultisetSameMembers(list, SortDesc(list, BySimilarity()));
    SameMultisetNoDup(list, SortDesc(list, BySimilarity()));
    SameIdIsSame(list, SortDesc(list, BySimilarity()));
  }

  lemma DistinctIsNoDup(list: seq<Scored>)
    requires DistinctIds(list)
    ensures NoDup(list)
  {
  }

  lemma {:induction false} SimilarDistinct(env: Env, embeddings: JsMap<Id, Vector>, query: Vector, threshold: Num,
      n: nat)
    requires n <= embeddings.Size()
    ensures var list := Similar(env, embeddings, query, threshold, n);
      DistinctIds(list) && forall r :: r in list ==> r.id in embeddings.keys[..n]
  {
    if n > 0 {
      SimilarDistinct(env, embeddings, query, threshold, n - 1);
      var before, id := Similar(env, embeddings, query, threshold, n - 1), embeddings.keys[n - 1];
      assert id in embeddings.keys && id !in embeddings.keys[..n - 1];
      assert embeddings.keys[..n] == embeddings.keys[..n - 1] + [id];
      forall i | 0 <= i < |before| ensures before[i].id != id {
        assert before[i] in before;
      }
    }
  }

  lemma NoFilters(env: Env, c: Corpus, list: seq<Merged>, filters: Setting<Filters>)
    requires !filters.Is?
    ensures Filtered(env, c, filters, list) == list
  {
    if list != [] {
      NoFilters(env, c, list[..|list| - 1], filters);
    }
  }

  /**
   Not hybrid, with all the weight on similarity and no filters: the documents most similar to the query, best
   first, as many as the limit allows; the limit is 10 unless given, the threshold 0.5.
   */
  lemma SimilarityAlone(env: Env, c: Corpus, q: Query, limit: Num, threshold: Num)
    requires CorpusOk(env.text, c) && q.options.hybrid == Is(false) && q.options.semanticWeight == Is(1.0)
    requires !q.options.filters.Is? && Chosen(q.options.limit, Finite(10.0), limit)
    requires Chosen(q.options.threshold, Finite(0.5), threshold)
    ensures IsBestOf(x => IsSimilar(env, c, env.text.embed(q.text), threshold, x), limit, Top(env, c, q))
    ensures forall m :: m in Top(env, c, q) ==> m.semanticScore == m.score && m.keywordScore == 0.0
  {
    var query, list, merged := env.text.embed(q.text), SemanticOf(env, c, q), MergedOf(env, c, q);
    assert KeywordOf(env, c, q) == [] && WeightOf(q) == 1.0;
    SemanticIsBest(env, c, query, Doubled(limit), threshold);
    SemanticIdsDistinct(env, c, query, Doubled(limit), threshold);
    OneListMerged(list, [], 1.0, list);
    NoFilters(env, c, merged, q.options.filters);
    CutTwice(x => IsSimilar(env, c, query, threshold, x), list, merged, limit);
  }

  /** Not hybrid, with no weight on similarity: the same for the query's terms. */
  lemma TermsAlone(env: Env, c: Corpus, q: Query, limit: Num)
    requires CorpusOk(env.text, c) && q.options.hybrid == Is(false) && q.options.semanticWeight == Is(0.0)
    requires !q.options.filters.Is? && Chosen(q.options.limit, Finite(10.0), limit)
    ensures IsBestOf(x => IsKeyword(env, c, q.text, x), limit, Top(env, c, q))
    ensures forall m :: m in Top(env, c, q) ==> m.semanticScore == 0.0 && m.keywordScore == m.score
  {
    var list, merged := KeywordOf(env, c, q), MergedOf(env, c, q);
    assert SemanticOf(env, c, q) == [] && WeightOf(q) == 0.0;
    KeywordIsBest(env, c, q.text, Doubled(limit));
    OneListMerged([], list, 0.0, list);
    NoFilters(env, c, merged, q.options.filters);
    CutTwice(x => IsKeyword(env, c, q.text, x), list, merged, limit);
  }

  // ---------- Ranges ----------

  /** A bound that is given is kept by the number. */
  predicate Keeps(bounds: seq<(string, Value)>, name: string, holds: real -> bool) {
    match Bound(bounds, name)
    case Number(Finite(b)) => holds(b)
    case _ => true
  }

  predicate IsFiniteBound(v: Value) { v == Undefined || (v.Number? && v.number.Finite?) }

  /** Every bound that the filter reads is a finite number, if it is there. */
  predicate NumericBounds(bounds: seq<(string, Value)>) {
    && IsFiniteBound(Bound(bounds, "$gte")) && IsFiniteBound(Bound(bounds, "$lte"))
    && IsFiniteBound(Bound(bounds, "$gt")) && IsFiniteBound(Bound(bounds, "$lt"))
  }

  predicate InRange(bounds: seq<(string, Value)>, x: real) {
    && Keeps(bounds, "$gte", b => x >= b) && Keeps(bounds, "$lte", b => x <= b)
    && Keeps(bounds, "$gt", b => x > b) && Keeps(bounds, "$lt", b => x < b)
  }

  /**
   A range accepts exactly the numbers in it, and also whatever is no number at all, such as a field that the
   document does not have: comparing with NaN is false, and each bound only rejects when its comparison is true.
   */
  lemma RangeIff(parse: Parse, bounds: seq<(string, Value)>, v: Value)
    requires NumericBounds(bounds)
    ensures ToNumber(parse, v) == NaN ==> InBounds(parse, bounds, v)
    ensures ToNumber(parse, v).Finite? ==> (InBounds(parse, bounds, v) <==> InRange(bounds, ToNumber(parse, v).value))
  {
  }
}
