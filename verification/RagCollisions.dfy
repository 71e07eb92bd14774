/**
 src/analysis/rag.js, _searchCacheKey: queries that share a key because JSON loses what they differ in. When
 they are answered alike nevertheless.
 */
module RagCollisions {
  import opened JsCollections
  import opened JsValues
  import opened JsonText
  import opened Corpora
  import opened Rag
  import opened RagCache
  import opened RagKeys
  import opened RagResults

  const PLAIN: Options := Options(Unset, Unset, Unset, Unset, Unset, None)

  function Filtering(text: string, filters: Filters): Query { Query(text, PLAIN.(filters := Is(filters))) }

  function Limited(text: string, limit: Setting<Num>): Query { Query(text, PLAIN.(limit := limit)) }

  function Either(p: Query, q: Query): Query -> bool { (x: Query) => x == p || x == q }

  /** Two queries of one key that are answered differently after some run. */
  lemma Collide(env: Env, limits: Limits, asked: Query -> bool, labels: seq<Label>, p: Query, q: Query)
    requires AllAsked(asked, labels) && asked(p) && asked(q) && env.key(p) == env.key(q)
    requires Retrieve(env, After(env, limits, labels).corpus, p) != Retrieve(env, After(env, limits, labels).corpus, q)
    ensures !HitsFresh(env, limits, asked)
  {
    HitsFreshIffKeyIdentifies(env, limits, asked);
  }

  /** Two queries that are always answered alike. */
  lemma AlwaysAlike(env: Env, limits: Limits, p: Query, q: Query)
    requires forall c :: Retrieve(env, c, p) == Retrieve(env, c, q)
    ensures HitsFresh(env, limits, Either(p, q))
  {
    HitsFreshIffKeyIdentifies(env, limits, Either(p, q));
  }

  // ---------- Something is found ----------

  /** Similar enough for the default threshold. */
  predicate Near(env: Env, c: Corpus, text: string, id: Id) {
    c.documents.Has(id) && SimilarityTo(env, c, env.text.embed(text), id) >= 0.5
  }

  /** Only a limit that leaves room for something, and filters, may be given. */
  predicate NearlyPlain(q: Query) {
    q.options == PLAIN.(limit := q.options.limit, filters := q.options.filters) && RoomLeft(Doubled(LimitOf(q)), 0)
  }

  lemma SomethingFound(env: Env, c: Corpus, q: Query, id: Id)
    requires CorpusOk(env.text, c) && Near(env, c, q.text, id) && NearlyPlain(q)
    ensures MergedOf(env, c, q) != [] && AllLive(c.documents, MergedOf(env, c, q))
  {
    var query, limit := env.text.embed(q.text), Doubled(LimitOf(q));
    SemanticIsBest(env, c, query, limit, Finite(0.5));
    assert IsSimilar(env, c, query, Finite(0.5), Scored(id, SimilarityTo(env, c, query, id)));
    var semantic := SemanticOf(env, c, q);
    assert semantic == SemanticSearch(env, c, query, limit, Finite(0.5));
    assert semantic != [];
    KeywordOfIsLive(env, c, q);
    MergedOfIsLive(env, c, q);
    MergedNotEmpty(semantic, KeywordOf(env, c, q), 0.7);
  }

  lemma MergedNotEmpty(semantic: seq<Scored>, keyword: seq<Scored>, weight: real)
    requires semantic != [] && DistinctIds(keyword)
    ensures MergeResults(semantic, keyword, weight, 1.0 - weight) != []
  {
    var sw, kw, id := Times(weight), Times(1.0 - weight), semantic[|semantic| - 1].id;
    var m := MergeKeyword(MergeSemantic(semantic, sw), keyword, kw);
    MergedIsSum(semantic, keyword, sw, kw, id);
    assert id in m.keys;
    SortDescPermutes(ValuesOf(m), ByMergedScore());
  }

  /** A run that indexes one document. */
  lemma OneDocument(env: Env, limits: Limits, asked: Query -> bool, text: string, content: string, m: Metadata)
      returns (labels: seq<Label>)
    requires content != "" && env.similarity(env.text.embed(text), env.text.embed(content)) >= 0.5
    ensures AllAsked(asked, labels)
    ensures var c := After(env, limits, labels).corpus;
      CorpusOk(env.text, c) && Near(env, c, text, "d") && AllHaveMetadata(c.documents, m)
  {
    labels := [IndexDone("d", content, m)];
    assert labels[..0] == [] && After(env, limits, []) == INITIAL;
    CacheIsCoherent(env, limits, q => true, labels);
    var c := After(env, limits, labels).corpus;
    assert c.documents.vals == map["d" := Document("d", content, env.text.embed(content), m, 1)];
  }

  // ---------- Filters ----------

  ghost predicate AllHaveMetadata(documents: Documents, m: Metadata) {
    forall id :: id in documents.vals ==> documents.vals[id].metadata == m
  }

  lemma {:induction false} AllOrNothing(env: Env, c: Corpus, filters: Filters, m: Metadata, list: seq<Merged>)
    requires AllLive(c.documents, list) && AllHaveMetadata(c.documents, m)
    ensures Filtered(env, c, Is(filters), list) == if PassesAll(env.parse, filters, m) then list else []
  {
    if list != [] {
      var init := list[..|list| - 1];
      assert forall i :: 0 <= i < |init| ==> init[i] == list[i];
      AllOrNothing(env, c, filters, m, init);
      assert list == init + [list[|list| - 1]] && c.documents.Has(list[|list| - 1].id);
    }
  }

  ghost predicate PassAlike(parse: Parse, a: Filters, b: Filters) {
    forall m :: PassesAll(parse, a, m) == PassesAll(parse, b, m)
  }

  lemma {:induction false} FilteredAlike(env: Env, c: Corpus, a: Filters, b: Filters, list: seq<Merged>)
    requires PassAlike(env.parse, a, b)
    ensures Filtered(env, c, Is(a), list) == Filtered(env, c, Is(b), list)
  {
    if list != [] {
      FilteredAlike(env, c, a, b, list[..|list| - 1]);
    }
  }

  lemma RetrievedAlike(env: Env, c: Corpus, text: string, a: Filters, b: Filters)
    requires PassAlike(env.parse, a, b)
    ensures Retrieve(env, c, Filtering(text, a)) == Retrieve(env, c, Filtering(text, b))
  {
    SameMerged(env, c, Filtering(text, a), Filtering(text, b));
    FilteredAlike(env, c, a, b, MergedOf(env, c, Filtering(text, a)));
  }

  /** The search itself does not look at filters or fields. */
  lemma SameMerged(env: Env, c: Corpus, p: Query, q: Query)
    requires p == Query(q.text, q.options.(filters := p.options.filters, includeFields := p.options.includeFields))
    ensures MergedOf(env, c, p) == MergedOf(env, c, q)
  {
    assert SemanticOf(env, c, p) == SemanticOf(env, c, q) && KeywordOf(env, c, p) == KeywordOf(env, c, q);
  }

  /** When one of two filter objects lets a document pass, and the other does not, only one finds it. */
  lemma RetrievedApart(env: Env, c: Corpus, text: string, a: Filters, b: Filters, m: Metadata, id: Id)
    requires CorpusOk(env.text, c) && Near(env, c, text, id) && AllHaveMetadata(c.documents, m)
    requires PassesAll(env.parse, a, m) != PassesAll(env.parse, b, m)
    ensures Retrieve(env, c, Filtering(text, a)) != Retrieve(env, c, Filtering(text, b))
  {
    var p, q := Filtering(text, a), Filtering(text, b);
    SomethingFound(env, c, p, id);
    SameMerged(env, c, q, p);
    AllOrNothing(env, c, a, m, MergedOf(env, c, p));
    AllOrNothing(env, c, b, m, MergedOf(env, c, p));
    assert (Top(env, c, p) == []) != (Top(env, c, q) == []);
  }

  lemma FiltersSameKey(env: Env, n: Numerals, text: string, a: Filters, b: Filters)
    requires UsesJson(env, n) && FilterFields(n, a) == FilterFields(n, b)
    ensures env.key(Filtering(text, a)) == env.key(Filtering(text, b))
  {
  }

  /** Some answer from the cache is wrong, if both filter objects may be asked for. */
  lemma FilterCollisionIsStale(env: Env, n: Numerals, limits: Limits, asked: Query -> bool, text: string,
      content: string, a: Filters, b: Filters, m: Metadata)
    requires UsesJson(env, n) && FilterFields(n, a) == FilterFields(n, b)
    requires content != "" && env.similarity(env.text.embed(text), env.text.embed(content)) >= 0.5
    requires asked(Filtering(text, a)) && asked(Filtering(text, b))
    requires PassesAll(env.parse, a, m) != PassesAll(env.parse, b, m)
    ensures !HitsFresh(env, limits, asked)
  {
    var labels := OneDocument(env, limits, asked, text, content, m);
    RetrievedApart(env, After(env, limits, labels).corpus, text, a, b, m, "d");
    FiltersSameKey(env, n, text, a, b);
    Collide(env, limits, asked, labels, Filtering(text, a), Filtering(text, b));
  }

  /**
   Two filter objects of one JSON text are answered rightly in every run exactly when they accept the same
   metadata, for a query that has something to find.
   */
  lemma FiltersCollideIff(env: Env, n: Numerals, limits: Limits, text: string, content: string, a: Filters, b: Filters)
    requires UsesJson(env, n) && FilterFields(n, a) == FilterFields(n, b)
    requires content != "" && env.similarity(env.text.embed(text), env.text.embed(content)) >= 0.5
    ensures HitsFresh(env, limits, Either(Filtering(text, a), Filtering(text, b))) <==> PassAlike(env.parse, a, b)
  {
    var asked := Either(Filtering(text, a), Filtering(text, b));
    if PassAlike(env.parse, a, b) {
      forall c ensures Retrieve(env, c, Filtering(text, a)) == Retrieve(env, c, Filtering(text, b)) {
        RetrievedAlike(env, c, text, a, b);
      }
      AlwaysAlike(env, limits, Filtering(text, a), Filtering(text, b));
    } else {
      var m :| PassesAll(env.parse, a, m) != PassesAll(env.parse, b, m);
      FilterCollisionIsStale(env, n, limits, asked, text, content, a, b, m);
    }
  }

  datatype Lossy = Lossy(a: Filters, b: Filters, probe: Metadata)

  /** Filter objects that JSON makes the same, with metadata that only one of the two accepts. */
  function LossyFilters(k: string): seq<Lossy> {
    [ // undefined is left out
      Lossy([(k, Scalar(Undefined))], [], map[k := Str("")]),
      // an undefined element becomes null
      Lossy([(k, OneOf([Undefined]))], [(k, OneOf([Null]))], map[]),
      // NaN becomes null
      Lossy([(k, Scalar(Number(NaN)))], [(k, Scalar(Null))], map[k := Null]),
      Lossy([(k, Bounds([("$gte", Number(NaN))]))], [(k, Bounds([("$gte", Null)]))], map[k := Number(Finite(-1.0))]),
      // and so does an infinity
      Lossy([(k, Bounds([("$lte", Number(Infinite(true)))]))], [(k, Bounds([("$lte", Null)]))],
            map[k := Number(Finite(1.0))])]
  }

  lemma BoundOf(name: string, v: Value, other: string)
    ensures Bound([(name, v)], other) == if name == other then v else Undefined
  {
    assert [(name, v)][1..] == [];
  }

  lemma OneFilter(n: Numerals, parse: Parse, k: string, f: Filter, m: Metadata)
    ensures FilterFields(n, [(k, f)]) == WithField(k, FilterJson(n, f), NoFields)
    ensures PassesAll(parse, [(k, f)], m) == Accepts(parse, f, ValueOf(m, k))
  {
    assert [(k, f)][1..] == [];
  }

  lemma OneBound(n: Numerals, parse: Parse, name: string, v: Value, x: Value)
    ensures BoundFields(n, [(name, v)]) == WithField(name, ValueJson(n, v), NoFields)
    ensures name == "$gte" ==> InBounds(parse, [(name, v)], x) == (v == Undefined || !Less(parse, x, v))
    ensures name == "$lte" ==> InBounds(parse, [(name, v)], x) == (v == Undefined || !Less(parse, v, x))
  {
    assert [(name, v)][1..] == [];
    BoundOf(name, v, "$gte");
    BoundOf(name, v, "$lte");
    BoundOf(name, v, "$gt");
    BoundOf(name, v, "$lt");
  }

  lemma LossyCollide(n: Numerals, parse: Parse, k: string, i: nat)
    requires i < |LossyFilters(k)|
    ensures var x := LossyFilters(k)[i];
      FilterFields(n, x.a) == FilterFields(n, x.b) && PassesAll(parse, x.a, x.probe) != PassesAll(parse, x.b, x.probe)
  {
    var x := LossyFilters(k)[i];
    OneFilter(n, parse, k, x.a[0].1, x.probe);
    if i > 0 {
      OneFilter(n, parse, k, x.b[0].1, x.probe);
    }
    if i == 1 {
      assert [Undefined][1..] == [Null][1..];
    } else if i == 3 {
      OneBound(n, parse, "$gte", Number(NaN), Number(Finite(-1.0)));
      OneBound(n, parse, "$gte", Null, Number(Finite(-1.0)));
    } else if i == 4 {
      OneBound(n, parse, "$lte", Number(Infinite(true)), Number(Finite(1.0)));
      OneBound(n, parse, "$lte", Null, Number(Finite(1.0)));
    }
  }

  /** Any of these pairs makes some answer from the cache wrong, if both may be asked for. */
  lemma LossyFiltersAreStale(env: Env, n: Numerals, limits: Limits, asked: Query -> bool, text: string,
      content: string, k: string, i: nat)
    requires UsesJson(env, n) && i < |LossyFilters(k)|
    requires content != "" && env.similarity(env.text.embed(text), env.text.embed(content)) >= 0.5
    requires asked(Filtering(text, LossyFilters(k)[i].a)) && asked(Filtering(text, LossyFilters(k)[i].b))
    ensures !HitsFresh(env, limits, asked)
  {
    var x := LossyFilters(k)[i];
    LossyCollide(n, env.parse, k, i);
    FilterCollisionIsStale(env, n, limits, asked, text, content, x.a, x.b, x.probe);
  }

  // ---------- Limits ----------

  /** Null, NaN and the infinities. */
  predicate WrittenAsNull(limit: Setting<Num>) { limit.SetToNull? || (limit.Is? && !limit.value.Finite?) }

  lemma NullLimitsSameKey(env: Env, n: Numerals, text: string, a: Setting<Num>, b: Setting<Num>)
    requires UsesJson(env, n) && WrittenAsNull(a) && WrittenAsNull(b)
    ensures env.key(Limited(text, a)) == env.key(Limited(text, b))
  {
    assert NumSetting(n, a) == Some(JNull) && NumSetting(n, b) == Some(JNull);
  }

  /** Without filters everything that was merged is kept. */
  lemma {:induction false} NothingFiltered(env: Env, c: Corpus, filters: Setting<Filters>, list: seq<Merged>)
    requires !filters.Is?
    ensures Filtered(env, c, filters, list) == list
  {
    if list != [] {
      NothingFiltered(env, c, filters, list[..|list| - 1]);
    }
  }

  /** A limit of NaN finds nothing, nor does one of minus infinity; null stands for ten, and infinity for all. */
  lemma LimitedTop(env: Env, c: Corpus, text: string, limit: Setting<Num>)
    requires WrittenAsNull(limit)
    ensures var merged := MergedOf(env, c, Limited(text, limit));
      Top(env, c, Limited(text, limit)) == (match limit
        case Is(Infinite(true)) => merged
        case Is(_) => []
        case _ => SliceTo(merged, 10))
  {
    NothingFiltered(env, c, Unset, MergedOf(env, c, Limited(text, limit)));
  }

  /** With NaN or minus infinity nothing is found. */
  predicate FindsNothing(limit: Setting<Num>) { limit == Is(NaN) || limit == Is(Infinite(false)) }

  lemma LimitedFinds(env: Env, c: Corpus, text: string, limit: Setting<Num>, id: Id)
    requires WrittenAsNull(limit) && CorpusOk(env.text, c) && Near(env, c, text, id)
    ensures (Retrieve(env, c, Limited(text, limit)) == []) == FindsNothing(limit)
  {
    LimitedTop(env, c, text, limit);
    if !FindsNothing(limit) {
      SomethingFound(env, c, Limited(text, limit), id);
    }
  }

  /**
   A limit that finds nothing and another that JSON writes alike are answered rightly only if that finds nothing
   too.
   */
  lemma EmptyLimitFreshIff(env: Env, n: Numerals, limits: Limits, text: string, content: string,
      a: Setting<Num>, b: Setting<Num>)
    requires UsesJson(env, n) && FindsNothing(a) && WrittenAsNull(b)
    requires content != "" && env.similarity(env.text.embed(text), env.text.embed(content)) >= 0.5
    ensures HitsFresh(env, limits, Either(Limited(text, a), Limited(text, b))) <==> FindsNothing(b)
  {
    var p, q := Limited(text, a), Limited(text, b);
    if FindsNothing(b) {
      forall c ensures Retrieve(env, c, p) == Retrieve(env, c, q) {
        LimitedTop(env, c, text, a);
        LimitedTop(env, c, text, b);
      }
      AlwaysAlike(env, limits, p, q);
    } else {
      var labels := OneDocument(env, limits, Either(p, q), text, content, map[]);
      LimitedFinds(env, After(env, limits, labels).corpus, text, a, "d");
      LimitedFinds(env, After(env, limits, labels).corpus, text, b, "d");
      NullLimitsSameKey(env, n, text, a, b);
      Collide(env, limits, Either(p, q), labels, p, q);
    }
  }

  ghost predicate Occurs(merged: seq<Merged>, id: Id) { exists j :: 0 <= j < |merged| && merged[j].id == id }

  /** A list of different ids that all occur among the merged ones is no longer. */
  lemma IdsFit(list: seq<Scored>, merged: seq<Merged>)
    requires DistinctIds(list) && forall i :: 0 <= i < |list| ==> Occurs(merged, list[i].id)
    ensures |list| <= |merged|
  {
    var ids := seq(|merged|, j requires 0 <= j < |merged| => merged[j].id);
    var few := seq(|list|, i requires 0 <= i < |list| => list[i].id);
    forall i | 0 <= i < |few| ensures few[i] in ids {
      assert Occurs(merged, list[i].id);
      var j :| 0 <= j < |merged| && merged[j].id == list[i].id;
      assert ids[j] == few[i];
    }
    NoMoreThan(few, ids);
  }

  lemma {:induction false} NoMoreThan(few: seq<Id>, ids: seq<Id>)
    requires NoDup(few) && forall i :: 0 <= i < |few| ==> few[i] in ids
    ensures |few| <= |ids|
  {
    if few != [] {
      assert few[0] in ids;
      var k :| 0 <= k < |ids| && ids[k] == few[0];
      var rest := ids[..k] + ids[k + 1..];
      forall i | 0 <= i < |few[1..]| ensures few[1..][i] in rest {
        assert few[1..][i] == few[i + 1] && few[i + 1] in ids;
        var j :| 0 <= j < |ids| && ids[j] == few[i + 1];
        assert j != k && (if j < k then rest[j] else rest[j - 1]) == ids[j];
      }
      NoMoreThan(few[1..], rest);
    }
  }

  lemma {:induction false} SimilarDistinct(env: Env, embeddings: JsMap<Id, Vector>, query: Vector, threshold: Num,
      n: nat)
    requires n <= embeddings.Size()
    ensures var list := Similar(env, embeddings, query, threshold, n);
      DistinctIds(list) && forall i :: 0 <= i < |list| ==> list[i].id in embeddings.keys[..n]
  {
    if n > 0 {
      SimilarDistinct(env, embeddings, query, threshold, n - 1);
      assert embeddings.keys[..n] == embeddings.keys[..n - 1] + [embeddings.keys[n - 1]];
      assert embeddings.keys[n - 1] !in embeddings.keys[..n - 1];
    }
  }

  lemma SemanticDistinct(env: Env, c: Corpus, q: Query)
    ensures DistinctIds(SemanticOf(env, c, q))
  {
    var all := Similar(env, c.embeddings, env.text.embed(q.text), ThresholdOf(q), c.embeddings.Size());
    SimilarDistinct(env, c.embeddings, env.text.embed(q.text), ThresholdOf(q), c.embeddings.Size());
    var sorted := SortDesc(all, BySimilarity());
    SortDescPermutes(all, BySimilarity());
    SameMultisetSameMembers(all, sorted);
    SameMultisetNoDup(all, sorted);
    SameIdIsSame(all, sorted);
  }

  /** A merged list is at least as long as each of the lists it was merged from. */
  lemma MergedIsLonger(semantic: seq<Scored>, keyword: seq<Scored>, weight: real)
    requires DistinctIds(semantic) && DistinctIds(keyword)
    ensures var merged := MergeResults(semantic, keyword, weight, 1.0 - weight);
      |semantic| <= |merged| && |keyword| <= |merged|
  {
    var sw, kw := Times(weight), Times(1.0 - weight);
    var m := MergeKeyword(MergeSemantic(semantic, sw), keyword, kw);
    var merged := SortDesc(ValuesOf(m), ByMergedScore());
    forall id | ScoreIn(semantic, id).Some? || ScoreIn(keyword, id).Some?
      ensures Occurs(merged, id)
    {
      MergedIsSum(semantic, keyword, sw, kw, id);
      MergedHas(m, semantic, keyword, sw, kw, id);
    }
    forall i | 0 <= i < |semantic| ensures ScoreIn(semantic, semantic[i].id).Some? {
      ScoreInMeans(semantic, semantic[i].id);
    }
    forall i | 0 <= i < |keyword| ensures ScoreIn(keyword, keyword[i].id).Some? {
      ScoreInMeans(keyword, keyword[i].id);
    }
    IdsFit(semantic, merged);
    IdsFit(keyword, merged);
  }

  lemma MergedHas(m: JsMap<Id, Merged>, semantic: seq<Scored>, keyword: seq<Scored>, sw: Weigh, kw: Weigh, id: Id)
    requires DistinctIds(keyword) && m == MergeKeyword(MergeSemantic(semantic, sw), keyword, kw) && id in m.vals
    ensures Occurs(SortDesc(ValuesOf(m), ByMergedScore()), id)
  {
    MergedIsSum(semantic, keyword, sw, kw, id);
    assert id in m.keys;
    var i :| 0 <= i < |m.keys| && m.keys[i] == id;
    var merged := SortDesc(ValuesOf(m), ByMergedScore());
    assert ValuesOf(m)[i] == m.vals[id];
    SortDescPermutes(ValuesOf(m), ByMergedScore());
    SameMultisetSameMembers(ValuesOf(m), merged);
    assert m.vals[id] in merged;
  }

  const ALL: Setting<Num> := Is(Infinite(true))

  /** With null the searches are cut off at twenty. */
  lemma CutAtTwenty(env: Env, c: Corpus, text: string)
    ensures SemanticOf(env, c, Limited(text, SetToNull)) == SliceTo(SemanticOf(env, c, Limited(text, ALL)), 20)
    ensures KeywordOf(env, c, Limited(text, SetToNull)) == SliceTo(KeywordOf(env, c, Limited(text, ALL)), 20)
  {
  }

  /** What is no longer than that is not cut off. */
  lemma SearchesUncut(env: Env, c: Corpus, text: string)
    requires |MergedOf(env, c, Limited(text, ALL))| <= 10 && CorpusOk(env.text, c)
    ensures MergedOf(env, c, Limited(text, SetToNull)) == MergedOf(env, c, Limited(text, ALL))
  {
    var semantic, keyword := SemanticOf(env, c, Limited(text, ALL)), KeywordOf(env, c, Limited(text, ALL));
    SemanticDistinct(env, c, Limited(text, ALL));
    KeywordOfIsLive(env, c, Limited(text, ALL));
    assert MergedOf(env, c, Limited(text, ALL)) == MergeResults(semantic, keyword, 0.7, 1.0 - 0.7);
    MergedIsLonger(semantic, keyword, 0.7);
    CutAtTwenty(env, c, text);
    Uncut(semantic, 20);
    Uncut(keyword, 20);
  }

  lemma Uncut<T>(list: seq<T>, k: nat)
    requires |list| <= k
    ensures SliceTo(list, k) == list
  {
  }

  /**
   Null stands for ten, infinity for all: without filters both find the same exactly when all are no more than
   ten.
   */
  lemma NullIsInfinityIff(env: Env, c: Corpus, text: string)
    requires CorpusOk(env.text, c)
    ensures Retrieve(env, c, Limited(text, SetToNull)) == Retrieve(env, c, Limited(text, ALL))
      <==> |Retrieve(env, c, Limited(text, ALL))| <= 10
  {
    LimitedTop(env, c, text, SetToNull);
    LimitedTop(env, c, text, Is(Infinite(true)));
    if |MergedOf(env, c, Limited(text, ALL))| <= 10 {
      SearchesUncut(env, c, text);
    }
  }

  // ---------- Fields ----------

  predicate Shows(fields: Option<set<string>>, name: string) { fields.None? || name in fields.value }

  /** The same of the fields that a result has besides its id. */
  predicate ShownAlike(f: Option<set<string>>, g: Option<set<string>>) {
    && Shows(f, "content") == Shows(g, "content") && Shows(f, "score") == Shows(g, "score")
    && Shows(f, "semanticScore") == Shows(g, "semanticScore") && Shows(f, "keywordScore") == Shows(g, "keywordScore")
    && Shows(f, "metadata") == Shows(g, "metadata")
  }

  lemma FormattedAlikeIff(c: Corpus, f: Option<set<string>>, g: Option<set<string>>, r: Merged)
    ensures Formatted(c, f, r) == Formatted(c, g, r) <==> ShownAlike(f, g)
  {
    var x, y := Formatted(c, f, r), Formatted(c, g, r);
    assert x.content == y.content <==> Shows(f, "content") == Shows(g, "content");
    assert x.metadata == y.metadata <==> Shows(f, "metadata") == Shows(g, "metadata");
  }

  /**
   Two queries that differ in includeFields only, in whatever way, have one key. They retrieve alike exactly
   when there are no results, or both show the same of what a result has.
   */
  lemma FieldsCollideIff(env: Env, n: Numerals, c: Corpus, p: Query, q: Query)
    requires UsesJson(env, n) && p == q.(options := q.options.(includeFields := p.options.includeFields))
    ensures env.key(p) == env.key(q)
    ensures Retrieve(env, c, p) == Retrieve(env, c, q)
      <==> Top(env, c, q) == [] || ShownAlike(p.options.includeFields, q.options.includeFields)
  {
    var top, f, g := Top(env, c, q), p.options.includeFields, q.options.includeFields;
    SameMerged(env, c, p, q);
    assert Top(env, c, p) == top;
    if ShownAlike(f, g) {
      forall i | 0 <= i < |top| ensures Formatted(c, f, top[i]) == Formatted(c, g, top[i]) {
        FormattedAlikeIff(c, f, g, top[i]);
      }
    } else if top != [] {
      FormattedAlikeIff(c, f, g, top[0]);
      assert Retrieve(env, c, p)[0] != Retrieve(env, c, q)[0];
    }
  }

  function Showing(text: string, fields: Option<set<string>>): Query { Query(text, PLAIN.(includeFields := fields)) }

  lemma ShowingFinds(env: Env, c: Corpus, text: string, fields: Option<set<string>>, id: Id)
    requires CorpusOk(env.text, c) && Near(env, c, text, id)
    ensures Top(env, c, Showing(text, fields)) != []
  {
    SomethingFound(env, c, Showing(text, None), id);
    SameMerged(env, c, Showing(text, fields), Showing(text, None));
    NothingFiltered(env, c, Unset, MergedOf(env, c, Showing(text, None)));
  }

  /** Over all runs: two such queries are answered rightly exactly when both show the same. */
  lemma FieldsFreshIff(env: Env, n: Numerals, limits: Limits, text: string, content: string,
      f: Option<set<string>>, g: Option<set<string>>)
    requires UsesJson(env, n) && content != ""
    requires env.similarity(env.text.embed(text), env.text.embed(content)) >= 0.5
    ensures HitsFresh(env, limits, Either(Showing(text, f), Showing(text, g))) <==> ShownAlike(f, g)
  {
    var p, q := Showing(text, f), Showing(text, g);
    if ShownAlike(f, g) {
      forall c ensures Retrieve(env, c, p) == Retrieve(env, c, q) {
        FieldsCollideIff(env, n, c, p, q);
      }
      AlwaysAlike(env, limits, p, q);
    } else {
      var labels := OneDocument(env, limits, Either(p, q), text, content, map[]);
      ShowingFinds(env, After(env, limits, labels).corpus, text, g, "d");
      FieldsCollideIff(env, n, After(env, limits, labels).corpus, p, q);
      Collide(env, limits, Either(p, q), labels, p, q);
    }
  }
}
