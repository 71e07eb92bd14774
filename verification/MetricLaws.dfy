/**
 src/analysis/rag-metrics.js, what the discount does: what exchanging two documents changes, and what one relevant
 document alone is worth at each position.
 */
module MetricLaws {
  import opened JsCollections
  import opened RagMetrics

  lemma {:induction false} DcgUpdate(s: seq<real>, discount: nat -> real, n: nat, i: nat, x: real)
    requires i < |s|
    ensures Dcg(s[i := x], discount, n)
      == Dcg(s, discount, n) + if i < n then Times(x, discount(i)) - Times(s[i], discount(i)) else 0.0
  {
    if n > 0 {
      DcgUpdate(s, discount, n - 1, i, x);
    }
  }

  function Swapped<T>(s: seq<T>, i: nat, j: nat): seq<T>
    requires i < |s| && j < |s|
  {
    s[i := s[j]][j := s[i]]
  }

  /** The gains of the documents that count. */
  function Counted(retrieved: seq<string>, scores: Scores, k: int): seq<real> { Gains(SliceTo(retrieved, k), scores) }

  function Gain(retrieved: seq<string>, scores: Scores, k: int, discount: nat -> real): real {
    Dcg(Counted(retrieved, scores, k), discount, |Counted(retrieved, scores, k)|)
  }

  lemma SwappedGains(retrieved: seq<string>, scores: Scores, k: int, i: nat, j: nat)
    requires i < j < |SliceTo(retrieved, k)|
    ensures Counted(Swapped(retrieved, i, j), scores, k) == Swapped(Counted(retrieved, scores, k), i, j)
  {
    var a, b := SliceTo(retrieved, k), SliceTo(Swapped(retrieved, i, j), k);
    assert |a| == |b| && forall n :: 0 <= n < |a| ==> a[n] == retrieved[n] && b[n] == Swapped(retrieved, i, j)[n];
  }

  /** Exchanging two documents moves their difference in relevance by the difference of the discounts. */
  lemma SwapLaw(retrieved: seq<string>, scores: Scores, k: int, discount: nat -> real, i: nat, j: nat)
    requires i < j < |SliceTo(retrieved, k)|
    ensures Gain(Swapped(retrieved, i, j), scores, k, discount) - Gain(retrieved, scores, k, discount)
      == (Relevance(scores, retrieved[j]) - Relevance(scores, retrieved[i])) * (discount(i) - discount(j))
  {
    var s := Counted(retrieved, scores, k);
    SwappedGains(retrieved, scores, k, i, j);
    SwappedSum(s, discount, i, j);
    assert s[i] == Relevance(scores, retrieved[i]) && s[j] == Relevance(scores, retrieved[j]);
  }

  lemma SwappedSum(s: seq<real>, discount: nat -> real, i: nat, j: nat)
    requires i < j < |s|
    ensures Dcg(Swapped(s, i, j), discount, |s|) - Dcg(s, discount, |s|) == (s[j] - s[i]) * (discount(i) - discount(j))
  {
    SwappedDcg(s, discount, i, j);
    Expand(s[i], s[j], discount(i), discount(j));
  }

  lemma SwappedDcg(s: seq<real>, discount: nat -> real, i: nat, j: nat)
    requires i < j < |s|
    ensures Dcg(Swapped(s, i, j), discount, |s|) - Dcg(s, discount, |s|)
      == Times(s[j], discount(i)) - Times(s[i], discount(i)) + (Times(s[i], discount(j)) - Times(s[j], discount(j)))
  {
    DcgUpdate(s, discount, |s|, i, s[j]);
    DcgUpdate(s[i := s[j]], discount, |s|, j, s[i]);
  }

  lemma Expand(x: real, y: real, d: real, d': real)
    ensures Times(y, d) - Times(x, d) + (Times(x, d') - Times(y, d')) == (y - x) * (d - d')
  {
  }

  /** If the discount falls strictly, moving the more relevant of two documents forward raises a positive score. */
  lemma BetterFirstIsBetter(retrieved: seq<string>, scores: Scores, k: int, discount: nat -> real, i: nat, j: nat)
    requires i < j < |SliceTo(retrieved, k)| && discount(i) > discount(j)
    requires Relevance(scores, retrieved[j]) > Relevance(scores, retrieved[i])
    requires var ideal := SliceTo(IdealGains(scores), k); Dcg(ideal, discount, |ideal|) > 0.0
    ensures Ndcg(Swapped(retrieved, i, j), scores, k, discount) > Ndcg(retrieved, scores, k, discount)
  {
    var ideal := SliceTo(IdealGains(scores), k);
    SwapLaw(retrieved, scores, k, discount, i, j);
    SwappedGains(retrieved, scores, k, i, j);
    Positive(Relevance(scores, retrieved[j]) - Relevance(scores, retrieved[i]), discount(i) - discount(j));
    Divided(Gain(retrieved, scores, k, discount), Gain(Swapped(retrieved, i, j), scores, k, discount),
      Dcg(ideal, discount, |ideal|));
  }

  lemma Positive(x: real, y: real)
    requires x > 0.0 && y > 0.0
    ensures x * y > 0.0
  {
  }

  lemma Divided(x: real, y: real, m: real)
    requires x < y && m > 0.0
    ensures x / m < y / m
  {
    assert x / m * m == x && y / m * m == y;
    if x / m >= y / m {
      assert (x / m - y / m) * m >= 0.0;
      assert (x / m - y / m) * m == x / m * m - y / m * m;
    }
  }

  // ---------- One relevant document ----------

  function OnlyOne(id: string): Scores { OrderedMap([id], map[id := 1.0]) }

  lemma {:induction false} OneGain(s: seq<real>, discount: nat -> real, n: nat, i: nat)
    requires i < |s| && s[i] == 1.0 && forall j :: 0 <= j < |s| && j != i ==> s[j] == 0.0
    ensures Dcg(s, discount, n) == if i < n then discount(i) else 0.0
  {
    if n > 0 {
      OneGain(s, discount, n - 1, i);
    }
  }

  lemma IdealOfOne(id: string)
    ensures IdealGains(OnlyOne(id)) == [1.0]
  {
    var gains := Gains([id], OnlyOne(id));
    assert gains == [1.0];
    assert SortDesc(gains[..0], (x: real) => x) == [];
  }

  /** One relevant document at position i among the first k is worth the discount there, relative to the first. */
  lemma OneRelevant(retrieved: seq<string>, i: nat, k: nat, discount: nat -> real)
    requires i < |retrieved| && i < k && discount(0) > 0.0
    requires forall j :: 0 <= j < |retrieved| && j != i ==> retrieved[j] != retrieved[i]
    ensures Ndcg(retrieved, OnlyOne(retrieved[i]), k, discount) == discount(i) / discount(0)
  {
    var scores := OnlyOne(retrieved[i]);
    var s := Counted(retrieved, scores, k);
    OneGain(s, discount, |s|, i);
    IdealOfOne(retrieved[i]);
    assert SliceTo([1.0], k) == [1.0];
    OneGain([1.0], discount, 1, 0);
  }
}
