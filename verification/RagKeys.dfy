/**
 src/analysis/rag.js, _searchCacheKey: the query, a colon, and the options as JSON. JSON leaves out undefined
 values and includeFields, and makes null of NaN, the infinities and undefined list elements: queries that
 differ in these alone share a key, and can be answered wrongly from the cache. Queries whose values all
 survive JSON, and whose fields are the same, never share a key.
 */
module RagKeys {
  import opened JsCollections
  import opened JsValues
  import opened JsonText
  import opened Corpora
  import opened Rag
  import opened RagCache
  import opened RagResults

  // ---------- The key ----------

  /** How numbers are written, and which reals are numbers of the language. */
  datatype Numerals = Numerals(digits: real -> string, known: real -> bool)

  /** Different numbers are written differently. */
  ghost predicate Distinct(n: Numerals) {
    && (forall x :: n.known(x) ==> IsNumeral(n.digits(x)))
    && (forall x, y :: n.known(x) && n.known(y) && n.digits(x) == n.digits(y) ==> x == y)
  }

  function NumJson(n: Numerals, x: Num): Json { if x.Finite? then JNumber(n.digits(x.value)) else JNull }

  /** Undefined has no text. */
  function ValueJson(n: Numerals, v: Value): Option<Json> {
    match v
    case Undefined => None
    case Null => Some(JNull)
    case Bool(b) => Some(JBool(b))
    case Number(x) => Some(NumJson(n, x))
    case Str(s) => Some(JText(s))
  }

  function ListItems(n: Numerals, list: seq<Value>): Items {
    if list == [] then NoItems
    else
      var first := ValueJson(n, list[0]);
      Item(if first.Some? then first.value else JNull, ListItems(n, list[1..]))
  }

  function WithField(name: string, value: Option<Json>, rest: Fields): Fields {
    if value.None? then rest else Field(name, value.value, rest)
  }

  function BoundFields(n: Numerals, bounds: seq<(string, Value)>): Fields {
    if bounds == [] then NoFields
    else WithField(bounds[0].0, ValueJson(n, bounds[0].1), BoundFields(n, bounds[1..]))
  }

  function FilterJson(n: Numerals, f: Filter): Option<Json> {
    match f
    case Scalar(v) => ValueJson(n, v)
    case OneOf(list) => Some(JArray(ListItems(n, list)))
    case Bounds(bounds) => Some(JObject(BoundFields(n, bounds)))
  }

  function FilterFields(n: Numerals, filters: Filters): Fields {
    if filters == [] then NoFields
    else WithField(filters[0].0, FilterJson(n, filters[0].1), FilterFields(n, filters[1..]))
  }

  /** Null has the text of null, and undefined none. */
  function NumSetting(n: Numerals, s: Setting<Num>): Option<Json> {
    match s
    case Unset => None
    case SetToNull => Some(JNull)
    case Is(x) => Some(NumJson(n, x))
  }

  function FlagSetting(s: Setting<bool>): Option<Json> {
    match s
    case Unset => None
    case SetToNull => Some(JNull)
    case Is(b) => Some(JBool(b))
  }

  function WeightSetting(n: Numerals, s: Setting<real>): Option<Json> {
    match s
    case Unset => None
    case SetToNull => Some(JNull)
    case Is(x) => Some(JNumber(n.digits(x)))
  }

  function FiltersSetting(n: Numerals, s: Setting<Filters>): Option<Json> {
    match s
    case Unset => None
    case SetToNull => Some(JNull)
    case Is(f) => Some(JObject(FilterFields(n, f)))
  }

  /** The weight and the filters, the last two of the options. */
  function LastFields(n: Numerals, o: Options): Fields {
    WithField("semanticWeight", WeightSetting(n, o.semanticWeight),
      WithField("filters", FiltersSetting(n, o.filters), NoFields))
  }

  function OptionFields(n: Numerals, o: Options): Fields {
    WithField("limit", NumSetting(n, o.limit),
      WithField("threshold", NumSetting(n, o.threshold), WithField("hybrid", FlagSetting(o.hybrid), LastFields(n, o))))
  }

  function JsonKey(n: Numerals, q: Query): string { Tagged(q.text, OptionFields(n, q.options)) }

  ghost predicate UsesJson(env: Env, n: Numerals) { forall q :: env.key(q) == JsonKey(n, q) }

  // ---------- Queries that never collide ----------

  /** It is enough that the key tells the queries asked apart. */
  lemma InjectiveIsFresh(env: Env, limits: Limits, asked: Query -> bool)
    requires forall p, q :: asked(p) && asked(q) && env.key(p) == env.key(q) ==> p == q
    ensures HitsFresh(env, limits, asked)
  {
    HitsFreshIffKeyIdentifies(env, limits, asked);
  }

  predicate NumSurvives(n: Numerals, x: Num) { x.Finite? && n.known(x.value) }

  predicate ValueSurvives(n: Numerals, v: Value) { v != Undefined && (v.Number? ==> NumSurvives(n, v.number)) }

  predicate FilterSurvives(n: Numerals, f: Filter) {
    match f
    case Scalar(v) => ValueSurvives(n, v)
    case OneOf(list) => forall v :: v in list ==> ValueSurvives(n, v)
    case Bounds(bounds) => forall i :: 0 <= i < |bounds| ==> ValueSurvives(n, bounds[i].1)
  }

  predicate FiltersSurvive(n: Numerals, filters: Filters) {
    forall i :: 0 <= i < |filters| ==> FilterSurvives(n, filters[i].1)
  }

  /** Every value of the query can be read off its JSON text, and its fields are the given ones. */
  predicate Survives(n: Numerals, fields: Option<set<string>>, q: Query) {
    var o := q.options;
    && o.includeFields == fields
    && (o.limit.Is? ==> NumSurvives(n, o.limit.value)) && (o.threshold.Is? ==> NumSurvives(n, o.threshold.value))
    && (o.semanticWeight.Is? ==> n.known(o.semanticWeight.value))
    && (o.filters.Is? ==> FiltersSurvive(n, o.filters.value))
  }

  lemma ValueRead(n: Numerals, v: Value, w: Value)
    requires Distinct(n) && ValueSurvives(n, v) && ValueSurvives(n, w) && ValueJson(n, v) == ValueJson(n, w)
    ensures v == w && ValueJson(n, v).Some? && Good(ValueJson(n, v).value)
  {
  }

  lemma {:induction false} ListRead(n: Numerals, a: seq<Value>, b: seq<Value>)
    requires Distinct(n) && (forall v :: v in a ==> ValueSurvives(n, v)) && (forall v :: v in b ==> ValueSurvives(n, v))
    ensures GoodItems(ListItems(n, a)) && (ListItems(n, a) == ListItems(n, b) ==> a == b)
    decreases |a|
  {
    if a != [] {
      var rest := if b == [] then [] else b[1..];
      assert a == [a[0]] + a[1..] && a[0] in a && (b != [] ==> b == [b[0]] + rest && b[0] in b);
      assert forall v :: v in rest ==> v in b;
      ListRead(n, a[1..], rest);
      ValueRead(n, a[0], a[0]);
      if ListItems(n, a) == ListItems(n, b) {
        ValueRead(n, a[0], b[0]);
      }
    }
  }

  ghost predicate BoundsSurvive(n: Numerals, bounds: seq<(string, Value)>) {
    forall i :: 0 <= i < |bounds| ==> ValueSurvives(n, bounds[i].1)
  }

  lemma {:induction false} BoundsRead(n: Numerals, a: seq<(string, Value)>, b: seq<(string, Value)>)
    requires Distinct(n) && BoundsSurvive(n, a) && BoundsSurvive(n, b)
    ensures GoodFields(BoundFields(n, a)) && (BoundFields(n, a) == BoundFields(n, b) ==> a == b)
    decreases |a|
  {
    if a != [] {
      var rest := if b == [] then [] else b[1..];
      assert a == [a[0]] + a[1..] && (b != [] ==> b == [b[0]] + rest);
      assert forall i :: 0 <= i < |rest| ==> rest[i] == b[i + 1];
      BoundsRead(n, a[1..], rest);
      ValueRead(n, a[0].1, a[0].1);
      if BoundFields(n, a) == BoundFields(n, b) {
        ValueRead(n, a[0].1, b[0].1);
      }
    } else if b != [] {
      ValueRead(n, b[0].1, b[0].1);
    }
  }

  lemma FilterRead(n: Numerals, a: Filter, b: Filter)
    requires Distinct(n) && FilterSurvives(n, a) && FilterSurvives(n, b)
    ensures FilterJson(n, a).Some? && Good(FilterJson(n, a).value)
    ensures FilterJson(n, a) == FilterJson(n, b) ==> a == b
  {
    match a
    case Scalar(v) =>
      ValueRead(n, v, v);
      if FilterJson(n, a) == FilterJson(n, b) {
        ValueRead(n, v, b.value);
      }
    case OneOf(list) => ListRead(n, list, if b.OneOf? then b.list else []);
    case Bounds(bounds) => BoundsRead(n, bounds, if b.Bounds? then b.bounds else []);
  }

  lemma {:induction false} FiltersRead(n: Numerals, a: Filters, b: Filters)
    requires Distinct(n) && FiltersSurvive(n, a) && FiltersSurvive(n, b)
    ensures GoodFields(FilterFields(n, a)) && (FilterFields(n, a) == FilterFields(n, b) ==> a == b)
    decreases |a|
  {
    if a != [] {
      var rest := if b == [] then [] else b[1..];
      assert a == [a[0]] + a[1..] && (b != [] ==> b == [b[0]] + rest);
      assert forall i :: 0 <= i < |rest| ==> rest[i] == b[i + 1];
      FiltersRead(n, a[1..], rest);
      FilterRead(n, a[0].1, if b == [] then a[0].1 else b[0].1);
    } else if b != [] {
      FilterRead(n, b[0].1, b[0].1);
    }
  }

  lemma GoodField(name: string, value: Option<Json>, rest: Fields)
    requires GoodFields(rest) && (value.Some? ==> Good(value.value))
    ensures GoodFields(WithField(name, value, rest))
  {
  }

  lemma OptionsGood(n: Numerals, fields: Option<set<string>>, q: Query)
    requires Distinct(n) && Survives(n, fields, q)
    ensures GoodFields(OptionFields(n, q.options))
  {
    var o := q.options;
    if o.filters.Is? {
      FiltersRead(n, o.filters.value, o.filters.value);
    }
    GoodField("filters", FiltersSetting(n, o.filters), NoFields);
    GoodField("semanticWeight", WeightSetting(n, o.semanticWeight),
      WithField("filters", FiltersSetting(n, o.filters), NoFields));
    GoodField("hybrid", FlagSetting(o.hybrid), LastFields(n, o));
  }

  lemma NumSettingRead(n: Numerals, a: Setting<Num>, b: Setting<Num>)
    requires Distinct(n) && (a.Is? ==> NumSurvives(n, a.value)) && (b.Is? ==> NumSurvives(n, b.value))
    requires NumSetting(n, a) == NumSetting(n, b)
    ensures a == b
  {
  }

  lemma FiltersSettingRead(n: Numerals, a: Setting<Filters>, b: Setting<Filters>)
    requires Distinct(n) && (a.Is? ==> FiltersSurvive(n, a.value)) && (b.Is? ==> FiltersSurvive(n, b.value))
    requires FiltersSetting(n, a) == FiltersSetting(n, b)
    ensures a == b
  {
    if a.Is? {
      FiltersRead(n, a.value, if b.Is? then b.value else []);
    }
  }

  /** Fields of different names can be told apart, whichever of them are there. */
  lemma FieldsRead(n: Numerals, a: Options, b: Options)
    requires OptionFields(n, a) == OptionFields(n, b)
    ensures NumSetting(n, a.limit) == NumSetting(n, b.limit)
    ensures NumSetting(n, a.threshold) == NumSetting(n, b.threshold)
    ensures FlagSetting(a.hybrid) == FlagSetting(b.hybrid)
    ensures WeightSetting(n, a.semanticWeight) == WeightSetting(n, b.semanticWeight)
    ensures FiltersSetting(n, a.filters) == FiltersSetting(n, b.filters)
  {
    assert LastFields(n, a) == LastFields(n, b);
  }

  lemma OptionsRead(n: Numerals, fields: Option<set<string>>, p: Query, q: Query)
    requires Distinct(n) && Survives(n, fields, p) && Survives(n, fields, q)
    requires OptionFields(n, p.options) == OptionFields(n, q.options)
    ensures p.options == q.options
  {
    var a, b := p.options, q.options;
    FieldsRead(n, a, b);
    NumSettingRead(n, a.limit, b.limit);
    NumSettingRead(n, a.threshold, b.threshold);
    FiltersSettingRead(n, a.filters, b.filters);
  }

  /** Two such queries have different keys. */
  lemma SurvivingKeysDiffer(env: Env, n: Numerals, fields: Option<set<string>>, p: Query, q: Query)
    requires UsesJson(env, n) && Distinct(n) && Survives(n, fields, p) && Survives(n, fields, q)
    requires env.key(p) == env.key(q)
    ensures p == q
  {
    OptionsGood(n, fields, p);
    OptionsGood(n, fields, q);
    TaggedUnique(p.text, q.text, OptionFields(n, p.options), OptionFields(n, q.options));
    OptionsRead(n, fields, p, q);
  }

  /** As long as all values survive JSON and includeFields stays the same, every answer from the cache is fresh. */
  lemma SurvivorsAreFresh(env: Env, n: Numerals, limits: Limits, fields: Option<set<string>>)
    requires UsesJson(env, n) && Distinct(n)
    ensures HitsFresh(env, limits, q => Survives(n, fields, q))
  {
    var asked := q => Survives(n, fields, q);
    forall p, q | asked(p) && asked(q) && env.key(p) == env.key(q) ensures p == q {
      SurvivingKeysDiffer(env, n, fields, p, q);
    }
    InjectiveIsFresh(env, limits, asked);
  }

  // ---------- Numbers in decimal ----------

  function Digits(x: nat): string { (if x < 10 then "" else Digits(x / 10)) + [HEX[x % 10]] }

  function Decimal(x: int): string { if x < 0 then "-" + Digits(-x) else Digits(x) }

  /** The safe integers, up to 2^53 - 1, written in decimal. */
  const INTEGERS: Numerals := Numerals((x: real) => Decimal(x.Floor),
    (x: real) => x == x.Floor as real && -0x20_0000_0000_0000 < x.Floor < 0x20_0000_0000_0000)

  lemma {:induction false} DigitsAreDigits(x: nat)
    ensures Digits(x) != "" && forall c :: c in Digits(x) ==> IsDigit(c)
  {
    if x >= 10 {
      DigitsAreDigits(x / 10);
    }
  }

  lemma {:induction false} DigitsDiffer(x: nat, y: nat)
    requires Digits(x) == Digits(y)
    ensures x == y
  {
    var a, b := Digits(x), Digits(y);
    assert a[|a| - 1] == HEX[x % 10] && b[|b| - 1] == HEX[y % 10];
    assert a[..|a| - 1] == (if x < 10 then "" else Digits(x / 10))
      && b[..|b| - 1] == (if y < 10 then "" else Digits(y / 10));
    if x >= 10 {
      DigitsAreDigits(x / 10);
    }
    if y >= 10 {
      DigitsAreDigits(y / 10);
    }
    if x >= 10 && y >= 10 {
      DigitsDiffer(x / 10, y / 10);
    }
  }

  lemma SignIsSeen(x: int)
    ensures IsNumeral(Decimal(x)) && (x < 0 <==> Decimal(x)[0] == '-')
  {
    DigitsAreDigits(if x < 0 then -x else x);
    if x >= 0 {
      assert Digits(x)[0] in Digits(x);
    }
  }

  lemma BehindSign(x: int)
    requires x < 0
    ensures Decimal(x)[1..] == Digits(-x)
  {
  }

  lemma DecimalsDiffer(x: int, y: int)
    requires Decimal(x) == Decimal(y)
    ensures x == y
  {
    SignIsSeen(x);
    SignIsSeen(y);
    if x < 0 {
      BehindSign(x);
      BehindSign(y);
      DigitsDiffer(-x, -y);
    } else {
      DigitsDiffer(x, y);
    }
  }

  lemma IntegersAreDistinct()
    ensures Distinct(INTEGERS)
  {
    forall x: real | INTEGERS.known(x) ensures IsNumeral(INTEGERS.digits(x)) {
      SignIsSeen(x.Floor);
    }
    forall x: real, y: real | INTEGERS.known(x) && INTEGERS.known(y) && INTEGERS.digits(x) == INTEGERS.digits(y)
      ensures x == y
    {
      DecimalsDiffer(x.Floor, y.Floor);
    }
  }

  /** So with such integers for numbers every answer is fresh, and nothing is left to assume about the key. */
  lemma IntegralQueriesAreFresh(env: Env, limits: Limits, fields: Option<set<string>>)
    ensures HitsFresh(env.(key := q => JsonKey(INTEGERS, q)), limits, q => Survives(INTEGERS, fields, q))
  {
    IntegersAreDistinct();
    SurvivorsAreFresh(env.(key := q => JsonKey(INTEGERS, q)), INTEGERS, limits, fields);
  }
}
