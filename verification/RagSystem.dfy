/**
 src/analysis/rag.js, the class: indexing, deletion and search as they change the Maps in place, each
 equal to the step that Rag specifies.
 */
module RagSystems {
  import opened JsCollections
  import opened JsValues
  import opened Corpora
  import opened LruCaches
  import opened Rag
  import opened RagCache

  class RAGSystem {
    const env: Env
    const limits: Limits
    const searchCache: LRUCache<string, seq<Result>>
    var documents: JsMap<Id, Document>
    var invertedIndex: Index
    var embeddings: JsMap<Id, Vector>

    function Corpus(): Corpora.Corpus
      reads this
    {
      Corpora.Corpus(documents, invertedIndex, embeddings)
    }

    ghost predicate Valid()
      reads this
    {
      searchCache.maxSize == limits.cacheSize && searchCache.ttlMs == limits.ttlMs
    }

    constructor (env: Env, limits: Limits)
      ensures Valid() && fresh(searchCache) && this.env == env && this.limits == limits
      ensures Corpus() == EMPTY && searchCache.State() == EmptyLru()
    {
      this.env, this.limits := env, limits;
      searchCache := new LRUCache(limits.cacheSize, limits.ttlMs);
      documents, invertedIndex, embeddings := EmptyMap(), map[], EmptyMap();
    }

    // ---------- The inverted index ----------

    method AddToInvertedIndex(id: Id, content: string)
      modifies this`invertedIndex
      ensures invertedIndex == AddTerms(old(invertedIndex), env.text.terms(content), id)
    {
      var terms := env.text.terms(content);
      for i := 0 to |terms|
        invariant invertedIndex == AddTerms(old(invertedIndex), terms[..i], id)
      {
        assert terms[..i + 1][..i] == terms[..i];
        var term := terms[i];
        if term !in invertedIndex {
          invertedIndex := invertedIndex[term := []];
        }
        if id !in invertedIndex[term] {
          invertedIndex := invertedIndex[term := invertedIndex[term] + [id]];
        }
      }
      assert terms[..|terms|] == terms;
    }

    method RemoveFromInvertedIndex(id: Id, content: string)
      modifies this`invertedIndex
      ensures invertedIndex == RemoveTerms(old(invertedIndex), env.text.terms(content), id)
    {
      var terms := env.text.terms(content);
      for i := 0 to |terms|
        invariant invertedIndex == RemoveTerms(old(invertedIndex), terms[..i], id)
      {
        assert terms[..i + 1][..i] == terms[..i];
        if terms[i] in invertedIndex {
          invertedIndex := invertedIndex[terms[i] := Without(invertedIndex[terms[i]], id)];
        }
      }
      assert terms[..|terms|] == terms;
    }

    /** The old version's entries in the inverted index go; which version comes next. */
    method NextVersion(id: Id) returns (version: nat)
      modifies this`invertedIndex
      ensures version == if documents.Has(id) then documents.vals[id].version + 1 else 1
      ensures invertedIndex
        == if documents.Has(id) then RemoveTerms(old(invertedIndex), env.text.terms(documents.vals[id].content), id)
          else old(invertedIndex)
    {
      version := 1;
      if documents.Has(id) {
        version := documents.vals[id].version + 1;
        RemoveFromInvertedIndex(id, documents.vals[id].content);
      }
    }

    /** indexDocument once the content is embedded; None stands for the errors it throws. */
    method FinishIndexing(id: Id, content: string, metadata: Metadata) returns (r: Option<Document>)
      requires Valid()
      modifies this`documents, this`invertedIndex, this`embeddings, searchCache
      ensures Valid() && (r.None? <==> id == "" || content == "")
      ensures r.None? ==> Corpus() == old(Corpus()) && searchCache.State() == old(searchCache.State())
      ensures r.Some? ==>
        && Corpus() == IndexStep(env.text, old(Corpus()), id, content, metadata)
        && searchCache.State() == ClearStep(old(searchCache.State())) && documents.Has(id)
          && documents.vals[id] == r.value
    {
      if id == "" || content == "" {
        return None;
      }
      var version := NextVersion(id);
      var document := Document(id, content, env.text.embed(content), metadata, version);
      Store(document);
      searchCache.Clear();
      return Some(document);
    }

    method Store(d: Document)
      modifies this`documents, this`invertedIndex, this`embeddings
      ensures documents == old(documents).Set(d.id, d) && embeddings == old(embeddings).Set(d.id, d.embedding)
      ensures invertedIndex == AddTerms(old(invertedIndex), env.text.terms(d.content), d.id)
    {
      documents := documents.Set(d.id, d);
      embeddings := embeddings.Set(d.id, d.embedding);
      AddToInvertedIndex(d.id, d.content);
    }

    method DeleteDocument(id: Id) returns (deleted: bool)
      requires Valid()
      modifies this`documents, this`invertedIndex, this`embeddings, searchCache
      ensures Valid() && deleted == old(documents).Has(id) && Corpus() == RemoveStep(env.text, old(Corpus()), id)
      ensures searchCache.State() == if deleted then ClearStep(old(searchCache.State())) else old(searchCache.State())
    {
      if !documents.Has(id) {
        return false;
      }
      RemoveFromInvertedIndex(id, documents.vals[id].content);
      embeddings := embeddings.Delete(id);
      documents := documents.Delete(id);
      searchCache.Clear();
      return true;
    }

    // ---------- The two searches ----------

    method FindSimilar(query: Vector, limit: Num, threshold: Num) returns (r: seq<Scored>)
      ensures r == SemanticSearch(env, Corpus(), query, limit, threshold)
    {
      var results := [];
      for i := 0 to |embeddings.keys|
        invariant results == Similar(env, embeddings, query, threshold, i)
      {
        var id := embeddings.keys[i];
        assert id in embeddings.keys;
        var similarity := env.similarity(query, embeddings.vals[id]);
        if Reaches(similarity, threshold) {
          results := results + [Scored(id, similarity)];
        }
      }
      r := Slice(SortDesc(results, BySimilarity()), limit);
    }

    method AddWeight(before: JsMap<Id, real>, docIds: seq<Id>, idf: real) returns (scores: JsMap<Id, real>)
      ensures scores == AddTo(before, docIds, idf)
    {
      scores := before;
      for j := 0 to |docIds|
        invariant scores == AddTo(before, docIds[..j], idf)
      {
        assert docIds[..j + 1][..j] == docIds[..j];
        var currentScore := if scores.Has(docIds[j]) then scores.vals[docIds[j]] else 0.0;
        scores := scores.Set(docIds[j], currentScore + idf);
      }
      assert docIds[..|docIds|] == docIds;
    }

    method ScoreTerms(terms: seq<string>) returns (scores: JsMap<Id, real>)
      ensures scores == IndexScores(env.log, Corpus(), terms)
    {
      scores := EmptyMap();
      for i := 0 to |terms|
        invariant scores == IndexScores(env.log, Corpus(), terms[..i])
      {
        assert terms[..i + 1][..i] == terms[..i];
        if terms[i] in invertedIndex {
          var docIds := invertedIndex[terms[i]];
          scores := AddWeight(scores, docIds, Idf(env.log, documents.Size(), |docIds|));
        }
      }
      assert terms[..|terms|] == terms;
    }

    method FindByKeyword(query: string, limit: Num) returns (r: seq<Scored>)
      ensures r == KeywordSearch(env, Corpus(), query, limit)
    {
      var scores := ScoreTerms(env.text.terms(query));
      var maxScore := 1.0;
      for i := 0 to |scores.keys|
        invariant maxScore == MaxScore(scores, i)
      {
        assert scores.keys[i] in scores.keys;
        if scores.vals[scores.keys[i]] > maxScore {
          maxScore := scores.vals[scores.keys[i]];
        }
      }
      r := Slice(SortDesc(Normalized(scores), BySimilarity()), limit);
    }

    // ---------- Merging ----------

    method AddSemantic(semantic: seq<Scored>, weigh: Weigh) returns (merged: JsMap<Id, Merged>)
      ensures merged == MergeSemantic(semantic, weigh)
    {
      merged := EmptyMap();
      for i := 0 to |semantic|
        invariant merged == MergeSemantic(semantic[..i], weigh)
      {
        assert semantic[..i + 1][..i] == semantic[..i];
        var result := semantic[i];
        merged := merged.Set(result.id, Merged(result.id, result.score, 0.0, weigh(result.score)));
      }
      assert semantic[..|semantic|] == semantic;
    }

    method AddKeyword(before: JsMap<Id, Merged>, keyword: seq<Scored>, weigh: Weigh) returns (merged: JsMap<Id, Merged>)
      ensures merged == MergeKeyword(before, keyword, weigh)
    {
      merged := before;
      for i := 0 to |keyword|
        invariant merged == MergeKeyword(before, keyword[..i], weigh)
      {
        assert keyword[..i + 1][..i] == keyword[..i];
        merged := AddResult(merged, keyword[i], weigh);
      }
      assert keyword[..|keyword|] == keyword;
    }

    method AddResult(before: JsMap<Id, Merged>, result: Scored, weigh: Weigh) returns (merged: JsMap<Id, Merged>)
      ensures merged == MergeOne(before, result, weigh)
    {
      if before.Has(result.id) {
        var existing := before.vals[result.id];
        existing := existing.(keywordScore := result.score);
        existing := existing.(score := existing.score + weigh(result.score));
        merged := before.Set(result.id, existing);
      } else {
        merged := before.Set(result.id, Merged(result.id, 0.0, result.score, weigh(result.score)));
      }
    }

    // ---------- search ----------

    /** Up to the await: a hit, or None. */
    method BeginSearch(q: Query, now: int, touched: int) returns (hit: Option<seq<Result>>)
      requires Valid()
      modifies searchCache
      ensures Valid()
      ensures (searchCache.State(), hit) == GetStep(old(searchCache.State()), limits.ttlMs, env.key(q), now, touched)
    {
      hit := searchCache.Get(env.key(q), now, touched);
    }

    method FindSemantic(q: Query) returns (semantic: seq<Scored>)
      ensures semantic == SemanticOf(env, Corpus(), q)
    {
      semantic := [];
      if IsHybrid(q) || WeightOf(q) > 0.0 {
        semantic := FindSimilar(env.text.embed(q.text), Doubled(LimitOf(q)), ThresholdOf(q));
      }
    }

    method FindKeyword(q: Query) returns (keyword: seq<Scored>)
      ensures keyword == KeywordOf(env, Corpus(), q)
    {
      keyword := [];
      if IsHybrid(q) || 1.0 - WeightOf(q) > 0.0 {
        keyword := FindByKeyword(q.text, Doubled(LimitOf(q)));
      }
    }

    method Merge(q: Query, semantic: seq<Scored>, keyword: seq<Scored>) returns (r: seq<Merged>)
      ensures r == MergeFor(q, semantic, keyword)
    {
      var semanticWeight := WeightOf(q);
      var first := AddSemantic(semantic, Times(semanticWeight));
      var merged := AddKeyword(first, keyword, Times(1.0 - semanticWeight));
      r := SortDesc(ValuesOf(merged), ByMergedScore());
    }

    /** Both searches, merged and sorted. */
    method Gather(q: Query) returns (r: seq<Merged>)
      ensures r == MergedOf(env, Corpus(), q)
    {
      var semantic := FindSemantic(q);
      var keyword := FindKeyword(q);
      r := Merge(q, semantic, keyword);
    }

    method ApplyFilters(list: seq<Merged>, filters: Setting<Filters>) returns (r: seq<Merged>)
      ensures r == Filtered(env, Corpus(), filters, list)
    {
      r := [];
      for i := 0 to |list|
        invariant r == Filtered(env, Corpus(), filters, list[..i])
      {
        assert list[..i + 1][..i] == list[..i];
        if Kept(env, Corpus(), filters, list[i].id) {
          r := r + [list[i]];
        }
      }
      assert list[..|list|] == list;
    }

    /** After the await. */
    method FinishSearch(q: Query, now: int) returns (results: seq<Result>)
      requires Valid()
      modifies searchCache
      ensures Valid() && results == Retrieve(env, Corpus(), q)
      ensures searchCache.State()
        == SetStep(old(searchCache.State()), limits.cacheSize, env.key(q), results, limits.ttlMs, now)
    {
      var merged := Gather(q);
      var kept := ApplyFilters(merged, q.options.filters);
      results := FormatAll(Corpus(), q.options.includeFields, Slice(kept, LimitOf(q)));
      searchCache.Set(env.key(q), results, limits.ttlMs, now);
    }
  }
}
