/**
 src/analysis/rag.js, search: what is retrieved from the corpus for a query.
 */
module Rag {
  import opened JsCollections
  import opened JsValues
  import opened Corpora

  /** A filter is a scalar, a list, or any other object, of which the bounds are read. */
  datatype Filter = Scalar(value: Value) | OneOf(list: seq<Value>) | Bounds(bounds: seq<(string, Value)>)

  /** The entries of a filter object, in their order. */
  type Filters = seq<(string, Filter)>

  /** The options that search reads. A weight that is no finite number would leave the order of a sort open. */
  datatype Options = Options(
    limit: Setting<Num>, threshold: Setting<Num>, hybrid: Setting<bool>, semanticWeight: Setting<real>,
    filters: Setting<Filters>, includeFields: Option<set<string>>)

  datatype Query = Query(text: string, options: Options)

  /**
   Foreign parts: the text functions, the logarithm, cosineSimilarity, the conversion of texts to numbers,
   and the text of a cache key.
   */
  datatype Env = Env(
    text: Text, log: real -> real, similarity: (Vector, Vector) -> real, parse: Parse, key: Query -> string)

  datatype Scored = Scored(id: Id, score: real)

  datatype Merged = Merged(id: Id, semanticScore: real, keywordScore: real, score: real)

  /** A field is None when includeFields leaves it out. */
  datatype Result = Result(
    id: Id, content: Option<string>, score: Option<real>, semanticScore: Option<real>, keywordScore: Option<real>,
    metadata: Option<Metadata>)

  function LimitOf(q: Query): Num { OrElse(q.options.limit, Finite(10.0)) }

  function ThresholdOf(q: Query): Num { OrElse(q.options.threshold, Finite(0.5)) }

  function WeightOf(q: Query): real { OrElse(q.options.semanticWeight, 0.7) }

  /** `options.hybrid !== false`. */
  predicate IsHybrid(q: Query) { q.options.hybrid != Is(false) }

  // ---------- The two searches ----------

  function BySimilarity(): Scored -> real { (r: Scored) => r.score }

  function Similar(env: Env, embeddings: JsMap<Id, Vector>, query: Vector, threshold: Num, n: nat): seq<Scored>
    requires n <= embeddings.Size()
  {
    if n == 0 then []
    else
      var before, id := Similar(env, embeddings, query, threshold, n - 1), embeddings.keys[n - 1];
      assert id in embeddings.keys;
      var similarity := env.similarity(query, embeddings.vals[id]);
      if Reaches(similarity, threshold) then before + [Scored(id, similarity)] else before
  }

  function SemanticSearch(env: Env, c: Corpus, query: Vector, limit: Num, threshold: Num): seq<Scored> {
    Slice(SortDesc(Similar(env, c.embeddings, query, threshold, c.embeddings.Size()), BySimilarity()), limit)
  }

  /** Math.max(...scores, 1). */
  function MaxScore(scores: JsMap<Id, real>, n: nat): (m: real)
    requires n <= scores.Size()
    ensures m >= 1.0
    ensures forall i :: 0 <= i < n ==> scores.keys[i] in scores.vals && scores.vals[scores.keys[i]] <= m
  {
    if n == 0 then 1.0
    else
      var before, id := MaxScore(scores, n - 1), scores.keys[n - 1];
      assert id in scores.keys;
      if scores.vals[id] > before then scores.vals[id] else before
  }

  function Normalized(scores: JsMap<Id, real>): seq<Scored> {
    var max := MaxScore(scores, scores.Size());
    seq(|scores.keys|, i requires 0 <= i < |scores.keys| =>
      assert scores.keys[i] in scores.keys;
      Scored(scores.keys[i], scores.vals[scores.keys[i]] / max))
  }

  function KeywordSearch(env: Env, c: Corpus, query: string, limit: Num): seq<Scored> {
    Slice(SortDesc(Normalized(IndexScores(env.log, c, env.text.terms(query))), BySimilarity()), limit)
  }

  // ---------- Merging ----------

  type Weigh = real -> real

  function Times(weight: real): Weigh { (score: real) => score * weight }

  function MergeSemantic(semantic: seq<Scored>, weigh: Weigh): JsMap<Id, Merged> {
    if semantic == [] then EmptyMap()
    else
      var r := semantic[|semantic| - 1];
      MergeSemantic(semantic[..|semantic| - 1], weigh).Set(r.id, Merged(r.id, r.score, 0.0, weigh(r.score)))
  }

  function MergeOne(merged: JsMap<Id, Merged>, r: Scored, weigh: Weigh): JsMap<Id, Merged> {
    if merged.Has(r.id) then
      merged.Set(r.id, merged.vals[r.id].(keywordScore := r.score, score := merged.vals[r.id].score + weigh(r.score)))
    else merged.Set(r.id, Merged(r.id, 0.0, r.score, weigh(r.score)))
  }

  function MergeKeyword(merged: JsMap<Id, Merged>, keyword: seq<Scored>, weigh: Weigh): JsMap<Id, Merged> {
    if keyword == [] then merged
    else MergeOne(MergeKeyword(merged, keyword[..|keyword| - 1], weigh), keyword[|keyword| - 1], weigh)
  }

  function ByMergedScore(): Merged -> real { (r: Merged) => r.score }

  function MergeResults(semantic: seq<Scored>, keyword: seq<Scored>, semanticWeight: real,
      keywordWeight: real): seq<Merged> {
    SortDesc(ValuesOf(MergeKeyword(MergeSemantic(semantic, Times(semanticWeight)), keyword, Times(keywordWeight))),
      ByMergedScore())
  }

  function ValueOf(m: Metadata, k: string): Value { if k in m then m[k] else Undefined }

  /** `value.$gte` and the like: undefined when there is no such bound. */
  function Bound(bounds: seq<(string, Value)>, name: string): Value {
    if bounds == [] then Undefined else if bounds[0].0 == name then bounds[0].1 else Bound(bounds[1..], name)
  }

  predicate InBounds(parse: Parse, bounds: seq<(string, Value)>, v: Value) {
    var gte, lte, gt, lt := Bound(bounds, "$gte"), Bound(bounds, "$lte"), Bound(bounds, "$gt"), Bound(bounds, "$lt");
    && (gte != Undefined ==> !Less(parse, v, gte)) && (lte != Undefined ==> !Less(parse, lte, v))
    && (gt != Undefined ==> !LessOrEqual(parse, v, gt)) && (lt != Undefined ==> !LessOrEqual(parse, lt, v))
  }

  predicate Accepts(parse: Parse, filter: Filter, v: Value) {
    match filter
    case Scalar(w) => StrictlyEqual(v, w)
    case OneOf(list) => Includes(list, v)
    case Bounds(bounds) => InBounds(parse, bounds, v)
  }

  /** The loop over the entries of the filter object. */
  predicate PassesAll(parse: Parse, filters: Filters, m: Metadata) {
    filters == [] || (Accepts(parse, filters[0].1, ValueOf(m, filters[0].0)) && PassesAll(parse, filters[1..], m))
  }

  predicate Kept(env: Env, c: Corpus, filters: Setting<Filters>, id: Id) {
    !filters.Is? || (c.documents.Has(id) && PassesAll(env.parse, filters.value, c.documents.vals[id].metadata))
  }

  function Filtered(env: Env, c: Corpus, filters: Setting<Filters>, list: seq<Merged>): seq<Merged> {
    if list == [] then []
    else
      var before, r := Filtered(env, c, filters, list[..|list| - 1]), list[|list| - 1];
      if Kept(env, c, filters, r.id) then before + [r] else before
  }

  function Shown<T>(fields: Option<set<string>>, name: string, v: T): Option<T> {
    if fields.None? || name in fields.value then Some(v) else None
  }

  /** A result without a document would be an error in the source; it cannot happen in a sound corpus. */
  function Formatted(c: Corpus, fields: Option<set<string>>, r: Merged): Result {
    var d := if c.documents.Has(r.id) then c.documents.vals[r.id] else Document(r.id, "", [], map[], 0);
    Result(r.id, Shown(fields, "content", d.content), Shown(fields, "score", r.score),
           Shown(fields, "semanticScore", r.semanticScore), Shown(fields, "keywordScore", r.keywordScore),
           Shown(fields, "metadata", d.metadata))
  }

  function FormatAll(c: Corpus, fields: Option<set<string>>, list: seq<Merged>): seq<Result> {
    seq(|list|, i requires 0 <= i < |list| => Formatted(c, fields, list[i]))
  }

  /** What the two searches found for a query, before merging. */
  function SemanticOf(env: Env, c: Corpus, q: Query): seq<Scored> {
    if IsHybrid(q) || WeightOf(q) > 0.0 then
      SemanticSearch(env, c, env.text.embed(q.text), Doubled(LimitOf(q)), ThresholdOf(q))
    else []
  }

  function KeywordOf(env: Env, c: Corpus, q: Query): seq<Scored> {
    if IsHybrid(q) || 1.0 - WeightOf(q) > 0.0 then KeywordSearch(env, c, q.text, Doubled(LimitOf(q))) else []
  }

  function MergeFor(q: Query, semantic: seq<Scored>, keyword: seq<Scored>): seq<Merged> {
    MergeResults(semantic, keyword, WeightOf(q), 1.0 - WeightOf(q))
  }

  function MergedOf(env: Env, c: Corpus, q: Query): seq<Merged> {
    MergeFor(q, SemanticOf(env, c, q), KeywordOf(env, c, q))
  }

  /** The best merged results that pass the filters, as many as asked for. */
  function Top(env: Env, c: Corpus, q: Query): seq<Merged> {
    Slice(Filtered(env, c, q.options.filters, MergedOf(env, c, q)), LimitOf(q))
  }

  /** What search computes after its await, from the corpus as it is then. */
  function Retrieve(env: Env, c: Corpus, q: Query): seq<Result> {
    FormatAll(c, q.options.includeFields, Top(env, c, q))
  }
}
