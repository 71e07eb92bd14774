/**
 src/analysis/rag-metrics.js: normalized discounted cumulative gain. `discount(i)` stands for
 1 / Math.log2(i + 2), of which only positivity and descent matter.
 */
module RagMetrics {
  import opened JsCollections

  type Scores = JsMap<string, real>

  ghost predicate IsDiscount(discount: nat -> real) {
    && (forall i: nat :: discount(i) > 0.0)
    && (forall i: nat, j: nat :: i <= j ==> discount(i) >= discount(j))
  }

  /** `relevanceScores[id] ?? 0`. */
  function Relevance(scores: Scores, id: string): real {
    if scores.Has(id) then scores.vals[id] else 0.0
  }

  function Gains(ids: seq<string>, scores: Scores): (r: seq<real>)
    ensures |r| == |ids| && forall i :: 0 <= i < |ids| ==> r[i] == Relevance(scores, ids[i])
  {
    seq(|ids|, i requires 0 <= i < |ids| => Relevance(scores, ids[i]))
  }

  /** `Object.values(relevanceScores).sort((a, b) => b - a)`. */
  function IdealGains(scores: Scores): (r: seq<real>)
    ensures |r| == scores.Size()
  {
    SortDescPermutes(Gains(scores.keys, scores), (x: real) => x);
    SortDesc(Gains(scores.keys, scores), (x: real) => x)
  }

  function At(s: seq<real>, i: nat): real { if i < |s| then s[i] else 0.0 }

  function Times(x: real, y: real): real { x * y }

  /** The discounted sum of the first n gains, absent ones counting 0. */
  function Dcg(s: seq<real>, discount: nat -> real, n: nat): real {
    if n == 0 then 0.0 else Dcg(s, discount, n - 1) + Times(At(s, n - 1), discount(n - 1))
  }

  function Ndcg(retrieved: seq<string>, scores: Scores, k: int, discount: nat -> real): real {
    var gains, ideal := Gains(SliceTo(retrieved, k), scores), SliceTo(IdealGains(scores), k);
    var idcg := Dcg(ideal, discount, |ideal|);
    if gains == [] || idcg == 0.0 then 0.0 else Dcg(gains, discount, |gains|) / idcg
  }

  method CalculateNDCG(retrieved: seq<string>, scores: Scores, k: int, discount: nat -> real) returns (r: real)
    ensures r == Ndcg(retrieved, scores, k, discount)
  {
    var retrievedK := SliceTo(retrieved, k);
    if |retrievedK| == 0 {
      return 0.0;
    }
    ghost var gains := Gains(retrievedK, scores);
    var dcg := 0.0;
    for i := 0 to |retrievedK|
      invariant dcg == Dcg(gains, discount, i)
    {
      var rel := if scores.Has(retrievedK[i]) then scores.vals[retrievedK[i]] else 0.0;
      dcg := dcg + Times(rel, discount(i));
    }
    var idealRels := SliceTo(IdealGains(scores), k);
    var idcg := 0.0;
    for i := 0 to |idealRels|
      invariant idcg == Dcg(idealRels, discount, i)
    {
      idcg := idcg + Times(idealRels[i], discount(i));
    }
    return if idcg == 0.0 then 0.0 else dcg / idcg;
  }

  ghost predicate NonNegative(scores: Scores) {
    forall id :: id in scores.vals ==> scores.vals[id] >= 0.0
  }

  // ---------- Abel summation ----------

  /** The plain sum of the first n. */
  function Sum(s: seq<real>, n: nat): real {
    if n == 0 then 0.0 else Sum(s, n - 1) + At(s, n - 1)
  }

  lemma AbelStep(wg: real, wh: real, sg: real, sh: real, g: real, h: real, d: real, d': real)
    requires d >= d' >= 0.0 && sg <= sh && wg + Times(d, sh - sg) <= wh
    ensures wg + Times(g, d') + Times(d', (sh + h) - (sg + g)) <= wh + Times(h, d')
  {
    assert Times(d, sh - sg) - Times(d', sh - sg) == Times(d - d', sh - sg);
    NonNegativeProduct(d - d', sh - sg);
    assert Times(d', (sh + h) - (sg + g)) == Times(d', sh - sg) + Times(h, d') - Times(g, d');
  }

  lemma NonNegativeProduct(x: real, y: real)
    requires x >= 0.0 && y >= 0.0
    ensures Times(x, y) >= 0.0
  {
  }

  /** If the sums of all prefixes are dominated, so is the discounted sum. */
  lemma {:induction false} Abel(g: seq<real>, h: seq<real>, discount: nat -> real, n: nat)
    requires IsDiscount(discount) && n >= 1
    requires forall j: nat :: j <= n ==> Sum(g, j) <= Sum(h, j)
    ensures Dcg(g, discount, n) + Times(discount(n - 1), Sum(h, n) - Sum(g, n)) <= Dcg(h, discount, n)
  {
    if n == 1 {
      assert Sum(g, 0) == Sum(h, 0) == Dcg(g, discount, 0) == Dcg(h, discount, 0) == 0.0;
      AbelStep(0.0, 0.0, 0.0, 0.0, At(g, 0), At(h, 0), discount(0), discount(0));
    } else {
      Abel(g, h, discount, n - 1);
      AbelStep(Dcg(g, discount, n - 1), Dcg(h, discount, n - 1), Sum(g, n - 1), Sum(h, n - 1),
        At(g, n - 1), At(h, n - 1), discount(n - 2), discount(n - 1));
    }
  }

  lemma DominatedDcg(g: seq<real>, h: seq<real>, discount: nat -> real, n: nat)
    requires IsDiscount(discount)
    requires forall j: nat :: j <= n ==> Sum(g, j) <= Sum(h, j)
    ensures Dcg(g, discount, n) <= Dcg(h, discount, n)
  {
    if n >= 1 {
      Abel(g, h, discount, n);
      NonNegativeProduct(discount(n - 1), Sum(h, n) - Sum(g, n));
    }
  }

  // ---------- The best sum of n documents ----------

  function SumOf(ids: seq<string>, scores: Scores): real {
    if ids == [] then 0.0 else Relevance(scores, ids[0]) + SumOf(ids[1..], scores)
  }

  lemma {:induction false} SumOfSplit(ids: seq<string>, scores: Scores, i: nat)
    requires i < |ids|
    ensures SumOf(ids, scores) == Relevance(scores, ids[i]) + SumOf(ids[..i] + ids[i + 1..], scores)
  {
    if i == 0 {
      assert ids[..0] + ids[1..] == ids[1..];
    } else {
      SumOfSplit(ids[1..], scores, i - 1);
      assert (ids[..i] + ids[i + 1..])[1..] == ids[1..][..i - 1] + ids[1..][i..];
    }
  }

  ghost predicate RankedBy(order: seq<string>, scores: Scores) {
    forall i, j :: 0 <= i < j < |order| ==> Relevance(scores, order[i]) >= Relevance(scores, order[j])
  }

  ghost predicate Listed(ids: seq<string>, order: seq<string>, scores: Scores) {
    forall i :: 0 <= i < |ids| ==> ids[i] in order || Relevance(scores, ids[i]) == 0.0
  }

  lemma ListedTail(ids: seq<string>, order: seq<string>, scores: Scores)
    requires order != [] && Listed(ids, order, scores) && order[0] !in ids
    ensures Listed(ids, order[1..], scores)
  {
    assert order == [order[0]] + order[1..];
    forall i | 0 <= i < |ids| ensures ids[i] in order[1..] || Relevance(scores, ids[i]) == 0.0 {
      assert ids[i] in ids;
    }
  }

  /** Distinct documents never sum to more than as many from the top of the ranking. */
  lemma {:induction false} BestSum(ids: seq<string>, order: seq<string>, scores: Scores)
    requires NonNegative(scores) && NoDup(ids) && RankedBy(order, scores) && Listed(ids, order, scores)
    ensures SumOf(ids, scores) <= SumOf(order[..Min(|ids|, |order|)], scores)
    decreases |order|, |ids|
  {
    if ids == [] {
    } else if order == [] {
      BestSum(ids[1..], order, scores);
    } else {
      var top, rest := order[0], order[1..];
      var n := Min(|ids|, |order|);
      assert order[..n][1..] == rest[..n - 1] && order[..n][0] == top;
      if top in ids {
        var i :| 0 <= i < |ids| && ids[i] == top;
        var others := ids[..i] + ids[i + 1..];
        SumOfSplit(ids, scores, i);
        assert NoDup(others) && Listed(others, order, scores) by {
          forall j | 0 <= j < |others| ensures others[j] == ids[if j < i then j else j + 1] {
          }
        }
        assert top !in others;
        ListedTail(others, order, scores);
        BestSum(others, rest, scores);
      } else {
        ListedTail(ids, order, scores);
        BestSum(ids[1..], rest, scores);
        FirstIsBest(ids[0], order, scores);
      }
    }
  }

  lemma FirstIsBest(id: string, order: seq<string>, scores: Scores)
    requires NonNegative(scores) && order != [] && RankedBy(order, scores)
    requires id in order || Relevance(scores, id) == 0.0
    ensures Relevance(scores, id) <= Relevance(scores, order[0])
  {
    if id in order {
      var i :| 0 <= i < |order| && order[i] == id;
    }
  }

  lemma {:induction false} SumIsSumOf(ids: seq<string>, scores: Scores, n: nat)
    requires n <= |ids|
    ensures Sum(Gains(ids, scores), n) == SumOf(ids[..n], scores)
  {
    if n > 0 {
      SumIsSumOf(ids, scores, n - 1);
      SumOfSplit(ids[..n], scores, n - 1);
      assert ids[..n][..n - 1] + ids[..n][n..] == ids[..n - 1];
    }
  }

  lemma {:induction false} SumBeyond(s: seq<real>, n: nat)
    requires n >= |s|
    ensures Sum(s, n) == Sum(s, |s|)
  {
    if n > |s| {
      SumBeyond(s, n - 1);
    }
  }

  // ---------- The ideal ranking ----------

  function ByRelevance(scores: Scores): string -> real { (id: string) => Relevance(scores, id) }

  /** The scored documents, best first. */
  function Ranking(scores: Scores): (r: seq<string>)
    ensures |r| == scores.Size()
  {
    SortDescPermutes(scores.keys, ByRelevance(scores));
    SortDesc(scores.keys, ByRelevance(scores))
  }

  lemma {:induction false} InsertMaps(ids: seq<string>, id: string, scores: Scores)
    ensures Gains(InsertDesc(ids, id, ByRelevance(scores)), scores)
         == InsertDesc(Gains(ids, scores), Relevance(scores, id), (x: real) => x)
  {
    if ids != [] {
      var init, last := ids[..|ids| - 1], ids[|ids| - 1];
      assert Gains(ids, scores)[..|ids| - 1] == Gains(init, scores);
      if Relevance(scores, last) < Relevance(scores, id) {
        InsertMaps(init, id, scores);
        GainsAppend(InsertDesc(init, id, ByRelevance(scores)), last, scores);
      } else {
        GainsAppend(ids, id, scores);
      }
    } else {
      assert Gains([id], scores) == [Relevance(scores, id)];
    }
  }

  lemma GainsAppend(ids: seq<string>, id: string, scores: Scores)
    ensures Gains(ids + [id], scores) == Gains(ids, scores) + [Relevance(scores, id)]
  {
  }

  lemma {:induction false} SortMaps(ids: seq<string>, scores: Scores)
    ensures Gains(SortDesc(ids, ByRelevance(scores)), scores) == SortDesc(Gains(ids, scores), (x: real) => x)
  {
    if ids != [] {
      var init := ids[..|ids| - 1];
      SortMaps(init, scores);
      assert Gains(ids, scores)[..|ids| - 1] == Gains(init, scores);
      InsertMaps(SortDesc(init, ByRelevance(scores)), ids[|ids| - 1], scores);
    }
  }

  /** Sorting the scores is ranking the documents. */
  lemma IdealIsRanking(scores: Scores)
    ensures IdealGains(scores) == Gains(Ranking(scores), scores)
    ensures RankedBy(Ranking(scores), scores) && |Ranking(scores)| == scores.Size()
    ensures forall id :: id in Ranking(scores) <==> id in scores.vals
  {
    SortMaps(scores.keys, scores);
    SortDescSorted(scores.keys, ByRelevance(scores));
    SortDescPermutes(scores.keys, ByRelevance(scores));
    SameMultisetSameMembers(Ranking(scores), scores.keys);
  }

  /** The ideal gains are not negative, and their prefix sums are those of the ranking. */
  lemma IdealPrefix(scores: Scores, q: nat, m: nat)
    requires NonNegative(scores) && m <= q <= |IdealGains(scores)|
    ensures Sum(IdealGains(scores)[..q], m) == SumOf(Ranking(scores)[..m], scores)
    ensures forall i :: 0 <= i < q ==> IdealGains(scores)[..q][i] >= 0.0
  {
    IdealIsRanking(scores);
    SumIsSumOf(Ranking(scores), scores, m);
    SumOfSlice(IdealGains(scores), q, m);
    forall i | 0 <= i < q ensures IdealGains(scores)[..q][i] >= 0.0 {
      assert IdealGains(scores)[i] == Relevance(scores, Ranking(scores)[i]);
    }
  }

  lemma BestPrefix(ids: seq<string>, scores: Scores, n: nat)
    requires NonNegative(scores) && NoDup(ids) && n <= |ids|
    ensures |Ranking(scores)| == scores.Size()
    ensures Sum(Gains(ids, scores), n) <= SumOf(Ranking(scores)[..Min(n, scores.Size())], scores)
  {
    IdealIsRanking(scores);
    SumIsSumOf(ids, scores, n);
    assert Listed(ids[..n], Ranking(scores), scores);
    BestSum(ids[..n], Ranking(scores), scores);
  }

  /** Every prefix of a duplicate-free ranking gains at most what the ideal one does. */
  lemma PrefixDominated(ids: seq<string>, scores: Scores, q: nat, j: nat)
    requires NonNegative(scores) && NoDup(ids) && q <= |IdealGains(scores)|
    requires |ids| <= q || q == scores.Size()
    ensures Sum(Gains(ids, scores), j) <= Sum(IdealGains(scores)[..q], j)
  {
    var n := Min(j, |ids|);
    SumAtLength(Gains(ids, scores), j);
    assert |IdealGains(scores)| == scores.Size() by {
      IdealIsRanking(scores);
    }
    BestPrefix(ids, scores, n);
    var m := Min(n, q);
    assert m == Min(n, scores.Size());
    IdealPrefix(scores, q, m);
    SumGrows(IdealGains(scores)[..q], m, j);
  }

  lemma SumAtLength(s: seq<real>, j: nat)
    ensures Sum(s, j) == Sum(s, Min(j, |s|))
  {
    if j > |s| {
      SumBeyond(s, j);
    }
  }

  lemma {:induction false} SumOfSlice(s: seq<real>, q: nat, m: nat)
    requires m <= q <= |s|
    ensures Sum(s[..q], m) == Sum(s, m)
  {
    if m > 0 {
      SumOfSlice(s, q, m - 1);
    }
  }

  lemma {:induction false} SumGrows(s: seq<real>, m: nat, j: nat)
    requires m <= j && forall i :: 0 <= i < |s| ==> s[i] >= 0.0
    ensures Sum(s, m) <= Sum(s, j)
  {
    if m < j {
      SumGrows(s, m, j - 1);
    }
  }

  lemma {:induction false} DcgBeyond(s: seq<real>, discount: nat -> real, n: nat)
    requires n >= |s|
    ensures Dcg(s, discount, n) == Dcg(s, discount, |s|)
  {
    if n > |s| {
      DcgBeyond(s, discount, n - 1);
      assert Times(At(s, n - 1), discount(n - 1)) == 0.0;
    }
  }

  lemma {:induction false} DcgNonNegative(s: seq<real>, discount: nat -> real, n: nat)
    requires IsDiscount(discount) && forall i :: 0 <= i < |s| ==> s[i] >= 0.0
    ensures Dcg(s, discount, n) >= 0.0
  {
    if n > 0 {
      DcgNonNegative(s, discount, n - 1);
      NonNegativeProduct(At(s, n - 1), discount(n - 1));
    }
  }

  lemma RatioBound(x: real, y: real)
    requires 0.0 <= x <= y && y > 0.0
    ensures 0.0 <= x / y <= 1.0
  {
  }

  /** The slices that calculateNDCG compares, for lists of n documents and m scores. */
  predicate Comparable(n: nat, m: nat, k: int) { k >= 0 || n <= m || m + k <= 0 }

  lemma DcgBound(ids: seq<string>, scores: Scores, q: nat, discount: nat -> real)
    requires IsDiscount(discount) && NonNegative(scores) && NoDup(ids) && q <= |IdealGains(scores)|
    requires |ids| <= q || q == scores.Size()
    ensures 0.0 <= Dcg(Gains(ids, scores), discount, |ids|) <= Dcg(IdealGains(scores)[..q], discount, q)
  {
    var gains, ideal := Gains(ids, scores), IdealGains(scores)[..q];
    var n := Max(|ids|, q);
    forall j: nat | j <= n ensures Sum(gains, j) <= Sum(ideal, j) {
      PrefixDominated(ids, scores, q, j);
    }
    DominatedDcg(gains, ideal, discount, n);
    DcgBeyond(gains, discount, n);
    DcgBeyond(ideal, discount, n);
    DcgNonNegative(gains, discount, |ids|);
  }

  /** NDCG lies between 0 and 1 for every ranking without duplicates among its first k. */
  lemma NdcgBound(retrieved: seq<string>, scores: Scores, k: int, discount: nat -> real)
    requires IsDiscount(discount) && NonNegative(scores) && NoDup(SliceTo(retrieved, k))
    requires Comparable(|retrieved|, scores.Size(), k)
    ensures 0.0 <= Ndcg(retrieved, scores, k, discount) <= 1.0
  {
    var ids, ideal := SliceTo(retrieved, k), SliceTo(IdealGains(scores), k);
    var q := |ideal|;
    IdealIsRanking(scores);
    if q == 0 {
      assert Dcg(ideal, discount, 0) == 0.0;
    } else if |ids| > 0 {
      assert ideal == IdealGains(scores)[..q];
      DcgBound(ids, scores, q, discount);
      if Dcg(ideal, discount, q) != 0.0 {
        RatioBound(Dcg(Gains(ids, scores), discount, |ids|), Dcg(ideal, discount, q));
      }
    }
  }

  /** The bound is reached: retrieving the scored documents best first scores 1 for every cut-off. */
  lemma PerfectRankingScoresOne(scores: Scores, k: int, discount: nat -> real)
    ensures Ndcg(Ranking(scores), scores, k, discount)
      == if Dcg(SliceTo(IdealGains(scores), k), discount, |SliceTo(IdealGains(scores), k)|) == 0.0 then 0.0 else 1.0
  {
    var gains, ideal := Gains(SliceTo(Ranking(scores), k), scores), SliceTo(IdealGains(scores), k);
    IdealIsRanking(scores);
    GainsOfSlice(Ranking(scores), scores, k);
    if Dcg(ideal, discount, |ideal|) != 0.0 {
      RatioOne(Dcg(ideal, discount, |ideal|));
    }
  }

  lemma GainsOfSlice(ids: seq<string>, scores: Scores, k: int)
    ensures Gains(SliceTo(ids, k), scores) == SliceTo(Gains(ids, scores), k)
  {
  }

  lemma RatioOne(x: real)
    requires x != 0.0
    ensures x / x == 1.0
  {
  }

  // ---------- Where the bound fails ----------

  /** Scores that value every listed document 1. */
  function AllOnes(ids: seq<string>): (r: Scores)
    requires NoDup(ids)
    ensures r.keys == ids && NonNegative(r) && forall i :: 0 <= i < |ids| ==> Relevance(r, ids[i]) == 1.0
  {
    OrderedMap(ids, map id | id in ids :: 1.0)
  }

  lemma IdealOfOnes(ids: seq<string>)
    requires NoDup(ids)
    ensures |IdealGains(AllOnes(ids))| == |ids|
    ensures forall i :: 0 <= i < |ids| ==> IdealGains(AllOnes(ids))[i] == 1.0
  {
    var scores := AllOnes(ids);
    IdealIsRanking(scores);
    forall i | 0 <= i < |ids| ensures IdealGains(scores)[i] == 1.0 {
      assert Ranking(scores)[i] in Ranking(scores);
    }
  }

  /** More ones earlier: strictly more discounted gain. */
  lemma {:induction false} MoreOnes(g: seq<real>, h: seq<real>, discount: nat -> real, n: nat)
    requires IsDiscount(discount) && n <= |h| && n <= |g|
    requires forall i :: 0 <= i < n ==> g[i] == 1.0 && h[i] == 1.0
    ensures Dcg(g, discount, n) == Dcg(h, discount, n)
    ensures n > 0 ==> Dcg(h, discount, n) > 0.0
  {
    if n > 0 {
      MoreOnes(g, h, discount, n - 1);
    }
  }

  lemma {:induction false} DcgGrows(s: seq<real>, discount: nat -> real, n: nat, m: nat)
    requires IsDiscount(discount) && n <= m && forall i :: 0 <= i < |s| ==> s[i] >= 0.0
    ensures Dcg(s, discount, n) <= Dcg(s, discount, m)
  {
    if n < m {
      DcgGrows(s, discount, n, m - 1);
      NonNegativeProduct(At(s, m - 1), discount(m - 1));
    }
  }

  lemma RatioAbove(x: real, y: real)
    requires 0.0 < y < x
    ensures x / y > 1.0
  {
  }

  /** When the first n + 1 compared documents count 1 each but the ideal list has only n ones, NDCG exceeds 1. */
  lemma Exceeds(retrieved: seq<string>, ids: seq<string>, k: int, n: nat, discount: nat -> real)
    requires IsDiscount(discount) && NoDup(ids)
    requires |SliceTo(IdealGains(AllOnes(ids)), k)| == n && n >= 1 && n < |SliceTo(retrieved, k)|
    requires forall i :: 0 <= i <= n ==> SliceTo(retrieved, k)[i] in ids
    ensures Ndcg(retrieved, AllOnes(ids), k, discount) > 1.0
  {
    var scores := AllOnes(ids);
    var gains, ideal := Gains(SliceTo(retrieved, k), scores), SliceTo(IdealGains(scores), k);
    IdealOfOnes(ids);
    MoreOnes(gains, ideal, discount, n);
    DcgGrows(gains, discount, n + 1, |gains|);
    assert Dcg(gains, discount, n + 1) == Dcg(gains, discount, n) + Times(1.0, discount(n));
    RatioAbove(Dcg(gains, discount, |gains|), Dcg(ideal, discount, n));
  }

  lemma {:induction false} FirstDuplicate(s: seq<string>) returns (j: nat)
    requires !NoDup(s)
    ensures j < |s| && NoDup(s[..j]) && s[j] in s[..j]
  {
    var init := s[..|s| - 1];
    if NoDup(init) {
      j := |init|;
    } else {
      j := FirstDuplicate(init);
      assert init[..j] == s[..j];
    }
  }

  /** For k >= 0 the bound holds for all relevance scores exactly when the first k have no duplicate. */
  lemma BoundIffNoDuplicate(retrieved: seq<string>, k: nat, discount: nat -> real)
    requires IsDiscount(discount)
    ensures (forall scores: Scores :: NonNegative(scores) ==> Ndcg(retrieved, scores, k, discount) <= 1.0)
       <==> NoDup(SliceTo(retrieved, k))
  {
    var ids := SliceTo(retrieved, k);
    if NoDup(ids) {
      forall scores: Scores | NonNegative(scores) ensures Ndcg(retrieved, scores, k, discount) <= 1.0 {
        NdcgBound(retrieved, scores, k, discount);
      }
    } else {
      var j := FirstDuplicate(ids);
      IdealOfOnes(ids[..j]);
      Exceeds(retrieved, ids[..j], k, j, discount);
    }
  }

  /** Distinct names for any number of documents. */
  function Name(i: nat): (r: string)
    ensures |r| == i
  {
    if i == 0 then "" else Name(i - 1) + "a"
  }

  function Names(n: nat): (r: seq<string>)
    ensures |r| == n && NoDup(r) && forall i :: 0 <= i < n ==> r[i] == Name(i)
  {
    if n == 0 then [] else Names(n - 1) + [Name(n - 1)]
  }

  /** For n retrieved and m scored documents, the bound holds for all inputs exactly when the slices compare. */
  lemma BoundIffComparable(n: nat, m: nat, k: int, discount: nat -> real)
    requires IsDiscount(discount)
    ensures (forall retrieved: seq<string>, scores: Scores ::
               |retrieved| == n && scores.Size() == m && NoDup(retrieved) && NonNegative(scores) ==>
               Ndcg(retrieved, scores, k, discount) <= 1.0)
       <==> Comparable(n, m, k)
  {
    if Comparable(n, m, k) {
      forall retrieved: seq<string>, scores: Scores |
        |retrieved| == n && scores.Size() == m && NoDup(retrieved) && NonNegative(scores)
        ensures Ndcg(retrieved, scores, k, discount) <= 1.0
      {
        NdcgBound(retrieved, scores, k, discount);
      }
    } else {
      IdealOfOnes(Names(m));
      Exceeds(Names(n), Names(m), k, m + k, discount);
      assert AllOnes(Names(m)).Size() == m;
    }
  }
}
