/**
 The JavaScript values that options, filters and metadata are made of: numbers with NaN and the infinities,
 undefined and null, and how the language compares them.
 */
module JsValues {
  import opened JsCollections

  datatype Num = NaN | Infinite(positive: bool) | Finite(value: real)

  datatype Value = Undefined | Null | Bool(flag: bool) | Number(number: Num) | Str(text: string)

  /** An option that may be undefined or null. */
  datatype Setting<+T> = Unset | SetToNull | Is(value: T)

  /** `option ?? default`. */
  function OrElse<T>(o: Setting<T>, default: T): T { if o.Is? then o.value else default }

  /** `===`: NaN equals nothing. */
  predicate StrictlyEqual(a: Value, b: Value) { a == b && a != Number(NaN) }

  /** `Array.prototype.includes`: here NaN equals itself. */
  predicate Includes(list: seq<Value>, v: Value) { v in list }

  // ---------- Order ----------

  predicate NumLess(a: Num, b: Num) {
    match (a, b)
    case (Finite(x), Finite(y)) => x < y
    case (Finite(_), Infinite(p)) => p
    case (Infinite(p), Finite(_)) => !p
    case (Infinite(p), Infinite(r)) => !p && r
    case _ => false
  }

  predicate TextLess(s: string, t: string) {
    t != "" && (s == "" || s[0] < t[0] || (s[0] == t[0] && TextLess(s[1..], t[1..])))
  }

  /** `parse` stands for the conversion of a text to a number. */
  type Parse = string -> Num

  function ToNumber(parse: Parse, v: Value): Num {
    match v
    case Undefined => NaN
    case Null => Finite(0.0)
    case Bool(b) => Finite(if b then 1.0 else 0.0)
    case Number(n) => n
    case Str(s) => parse(s)
  }

  /** `a < b`. */
  predicate Less(parse: Parse, a: Value, b: Value) {
    if a.Str? && b.Str? then TextLess(a.text, b.text) else NumLess(ToNumber(parse, a), ToNumber(parse, b))
  }

  /** `a <= b`. */
  predicate LessOrEqual(parse: Parse, a: Value, b: Value) {
    if a.Str? && b.Str? then !TextLess(b.text, a.text)
    else
      var x, y := ToNumber(parse, a), ToNumber(parse, b);
      x != NaN && y != NaN && !NumLess(y, x)
  }

  // ---------- Numbers as limits ----------

  function Truncated(r: real): int { if r >= 0.0 then r.Floor else -(-r).Floor }

  function Doubled(n: Num): Num {
    match n
    case Finite(r) => Finite(2.0 * r)
    case _ => n
  }

  /** `list.slice(0, n)`: NaN is taken for 0. */
  function Slice<T>(list: seq<T>, n: Num): (r: seq<T>)
    ensures r <= list
  {
    match n
    case NaN => []
    case Infinite(p) => if p then list else []
    case Finite(r) => SliceTo(list, Truncated(r))
  }

  /** A slice of n things is not full yet. */
  predicate RoomLeft(limit: Num, n: nat) { limit == Infinite(true) || (limit.Finite? && n < Truncated(limit.value)) }

  /** What a limit allows, when it is not negative. */
  predicate AtMost(n: nat, limit: Num) {
    match limit
    case NaN => n == 0
    case Infinite(p) => p || n == 0
    case Finite(r) => Truncated(r) >= 0 ==> n <= Truncated(r)
  }

  /** `x >= n`. */
  predicate Reaches(x: real, n: Num) {
    match n
    case NaN => false
    case Infinite(p) => !p
    case Finite(r) => x >= r
  }

  /** What is sorted and cut off keeps the best, whatever the limit. */
  lemma SortedCut<T(!new)>(list: seq<T>, key: T -> real, limit: Num)
    ensures var r := Slice(SortDesc(list, key), limit);
      && Descending(r, key) && (forall x :: x in r ==> x in list) && AtMost(|r|, limit)
      && (forall x, y :: x in list && x !in r && y in r ==> key(x) <= key(y))
      && (RoomLeft(limit, |r|) ==> forall x :: x in list ==> x in r)
  {
    SortedSlice(list, key, if limit.Finite? then Truncated(limit.value) else |list|);
    SortDescPermutes(list, key);
  }
}
