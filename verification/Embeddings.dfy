/**
 src/analysis/rag-embeddings.js: cosine similarity, over the reals, and the fitting of a provider's
 vector to the configured dimensions.
 */
module Embeddings {
  import opened JsCollections

  function Dot(a: seq<real>, b: seq<real>): real
    requires |a| == |b|
  {
    if a == [] then 0.0
    else Dot(a[..|a| - 1], b[..|b| - 1]) + a[|a| - 1] * b[|b| - 1]
  }

  function Square(x: real): real { x * x }

  lemma PositiveProduct(x: real, y: real)
    requires x > 0.0 && y > 0.0
    ensures x * y > 0.0
  {
  }

  lemma ZeroProduct(x: real, y: real)
    ensures x * y == 0.0 <==> x == 0.0 || y == 0.0
  {
  }

  lemma SquareOfNegation(x: real)
    ensures (-x) * (-x) == x * x
  {
  }

  lemma SquareNonNegative(x: real)
    ensures x * x >= 0.0
  {
    if x > 0.0 {
      PositiveProduct(x, x);
    } else if x < 0.0 {
      PositiveProduct(-x, -x);
      SquareOfNegation(x);
    }
  }

  lemma SquareSign(x: real)
    ensures Square(x) >= 0.0 && (Square(x) == 0.0 <==> x == 0.0)
  {
    SquareNonNegative(x);
    ZeroProduct(x, x);
  }

  /** The sum of squares of p * a - q * b, the sum that cannot be negative. */
  function Residual(a: seq<real>, b: seq<real>, p: real, q: real): real
    requires |a| == |b|
  {
    if a == [] then 0.0
    else Residual(a[..|a| - 1], b[..|b| - 1], p, q) + Square(p * a[|a| - 1] - q * b[|b| - 1])
  }

  ghost predicate Proportional(p: real, a: seq<real>, q: real, b: seq<real>)
    requires |a| == |b|
  {
    forall i :: 0 <= i < |a| ==> p * a[i] == q * b[i]
  }

  lemma ProportionalLast(p: real, a: seq<real>, q: real, b: seq<real>)
    requires |a| == |b| > 0
    ensures Proportional(p, a, q, b)
      <==> Proportional(p, a[..|a| - 1], q, b[..|b| - 1]) && p * a[|a| - 1] == q * b[|b| - 1]
  {
    var n := |a| - 1;
    if Proportional(p, a[..n], q, b[..n]) && p * a[n] == q * b[n] {
      forall i | 0 <= i < |a| ensures p * a[i] == q * b[i] {
        if i < n {
          assert a[..n][i] == a[i] && b[..n][i] == b[i];
        }
      }
    }
  }

  lemma {:induction false} ResidualZero(a: seq<real>, b: seq<real>, p: real, q: real)
    requires |a| == |b|
    ensures Residual(a, b, p, q) >= 0.0
    ensures Residual(a, b, p, q) == 0.0 <==> Proportional(p, a, q, b)
  {
    if a != [] {
      ResidualZero(a[..|a| - 1], b[..|b| - 1], p, q);
      ProportionalLast(p, a, q, b);
      SquareSign(p * a[|a| - 1] - q * b[|b| - 1]);
    }
  }

  lemma SquareOfDifference(p: real, x: real, q: real, y: real)
    ensures Square(p * x - q * y) == p * p * (x * x) - 2.0 * p * q * (x * y) + q * q * (y * y)
  {
  }

  lemma Collect(p: real, q: real, d: real, na: real, nb: real, xy: real, xx: real, yy: real)
    ensures (p * p * na - 2.0 * p * q * d + q * q * nb) + (p * p * xx - 2.0 * p * q * xy + q * q * yy)
         == p * p * (na + xx) - 2.0 * p * q * (d + xy) + q * q * (nb + yy)
  {
  }

  /** What the residual amounts to, for given sums. */
  function Expanded(p: real, q: real, na: real, d: real, nb: real): real {
    p * p * na - 2.0 * p * q * d + q * q * nb
  }

  lemma ExpandedStep(p: real, q: real, na: real, d: real, nb: real, x: real, y: real)
    ensures Expanded(p, q, na, d, nb) + Square(p * x - q * y) == Expanded(p, q, na + x * x, d + x * y, nb + y * y)
  {
    SquareOfDifference(p, x, q, y);
    Collect(p, q, d, na, nb, x * y, x * x, y * y);
  }

  lemma {:induction false} ResidualExpands(a: seq<real>, b: seq<real>, p: real, q: real)
    requires |a| == |b|
    ensures Residual(a, b, p, q) == Expanded(p, q, Dot(a, a), Dot(a, b), Dot(b, b))
  {
    if a != [] {
      var a', b', x, y := a[..|a| - 1], b[..|b| - 1], a[|a| - 1], b[|b| - 1];
      ResidualExpands(a', b', p, q);
      ExpandedStep(p, q, Dot(a', a'), Dot(a', b'), Dot(b', b'), x, y);
    }
  }

  ghost predicate AtMost(na: real, nb: real, d: real) { d * d <= na * nb }

  /** The sums of two parallel vectors: Cauchy-Schwarz as an equation. */
  ghost predicate Tight(na: real, nb: real, d: real) { d * d == na * nb }

  /** The residual for p = |b|^2 and q = a . b is |b|^2 times the gap |a|^2 |b|^2 - (a . b)^2. */
  lemma GapSign(na: real, nb: real, d: real, residual: real)
    requires nb > 0.0 && residual == Expanded(nb, d, na, d, nb) && residual >= 0.0
    ensures AtMost(na, nb, d)
    ensures residual == 0.0 <==> Tight(na, nb, d)
  {
    var gap := na * nb - d * d;
    assert residual == nb * gap;
    ProductSign(nb, gap);
  }

  lemma ProductSign(x: real, y: real)
    requires x > 0.0
    ensures x * y >= 0.0 ==> y >= 0.0
    ensures x * y == 0.0 <==> y == 0.0
  {
    if y < 0.0 {
      assert x * -y > 0.0;
    }
  }

  lemma {:induction false} NormZero(a: seq<real>, b: seq<real>)
    requires |a| == |b|
    ensures Dot(b, b) >= 0.0
    ensures Dot(b, b) == 0.0 ==> Dot(a, b) == 0.0
  {
    if a != [] {
      NormZero(a[..|a| - 1], b[..|b| - 1]);
      SquareSign(b[|b| - 1]);
      ZeroProduct(a[|a| - 1], b[|b| - 1]);
      assert Square(b[|b| - 1]) == b[|b| - 1] * b[|b| - 1];
    }
  }

  /** Cauchy-Schwarz. */
  lemma CauchySchwarz(a: seq<real>, b: seq<real>)
    requires |a| == |b|
    ensures AtMost(Dot(a, a), Dot(b, b), Dot(a, b))
  {
    NormZero(a, b);
    if Dot(b, b) > 0.0 {
      ResidualOfDot(a, b);
      GapSign(Dot(a, a), Dot(b, b), Dot(a, b), Residual(a, b, Dot(b, b), Dot(a, b)));
    }
  }

  lemma ResidualOfDot(a: seq<real>, b: seq<real>)
    requires |a| == |b|
    ensures Residual(a, b, Dot(b, b), Dot(a, b)) == Expanded(Dot(b, b), Dot(a, b), Dot(a, a), Dot(a, b), Dot(b, b))
    ensures Residual(a, b, Dot(b, b), Dot(a, b)) >= 0.0
    ensures Residual(a, b, Dot(b, b), Dot(a, b)) == 0.0 <==> Proportional(Dot(b, b), a, Dot(a, b), b)
  {
    ResidualExpands(a, b, Dot(b, b), Dot(a, b));
    ResidualZero(a, b, Dot(b, b), Dot(a, b));
  }

  /** It is an equation exactly for parallel vectors. */
  lemma TightIffParallel(a: seq<real>, b: seq<real>)
    requires |a| == |b| && Dot(b, b) > 0.0
    ensures Tight(Dot(a, a), Dot(b, b), Dot(a, b)) <==> Proportional(Dot(b, b), a, Dot(a, b), b)
  {
    ResidualOfDot(a, b);
    GapSign(Dot(a, a), Dot(b, b), Dot(a, b), Residual(a, b, Dot(b, b), Dot(a, b)));
  }

  ghost predicate IsRoot(s: real, x: real) { s >= 0.0 && s * s == x }

  /** What Math.sqrt promises, on the two squared lengths. */
  ghost predicate Roots(sqrt: real -> real, a: seq<real>, b: seq<real>) {
    IsRoot(sqrt(Dot(a, a)), Dot(a, a)) && IsRoot(sqrt(Dot(b, b)), Dot(b, b))
  }

  lemma ProductOfRoots(x: real, y: real, s: real, t: real)
    requires s * s == x && t * t == y
    ensures (s * t) * (s * t) == x * y
  {
    assert (s * t) * (s * t) == (s * s) * (t * t);
  }

  lemma DifferenceOfSquares(x: real, y: real)
    ensures (x - y) * (x + y) == x * x - y * y
  {
  }

  lemma SquareAbove(x: real, y: real)
    requires 0.0 <= y < x
    ensures x * x > y * y
  {
    PositiveProduct(x - y, x + y);
    DifferenceOfSquares(x, y);
  }

  lemma SquareMonotone(x: real, y: real)
    requires y >= 0.0 && x * x <= y * y
    ensures -y <= x <= y
  {
    if x > y {
      SquareAbove(x, y);
    } else if -x > y {
      SquareOfNegation(x);
      SquareAbove(-x, y);
    }
  }

  lemma Scaled(q: real, m: real)
    requires m > 0.0
    ensures q > 1.0 ==> q * m > m
    ensures q < -1.0 ==> q * m < -m
  {
    if q > 1.0 {
      PositiveProduct(q - 1.0, m);
    } else if q < -1.0 {
      PositiveProduct(-1.0 - q, m);
    }
  }

  lemma QuotientBound(d: real, m: real)
    requires m > 0.0 && d * d <= m * m
    ensures -1.0 <= d / m <= 1.0
    ensures (d / m) * m == d
  {
    SquareMonotone(d, m);
    Scaled(d / m, m);
    assert (d / m) * m == d;
  }

  lemma PositiveRoot(x: real, s: real)
    requires x != 0.0 && s >= 0.0 && s * s == x
    ensures s > 0.0
  {
    SquareSign(s);
  }

  function Similarity(dotProduct: real, rootA: real, rootB: real): real
    requires rootA > 0.0 && rootB > 0.0
  {
    PositiveProduct(rootA, rootB);
    dotProduct / (rootA * rootB)
  }

  ghost predicate IsQuotient(r: real, na: real, nb: real, d: real, lengths: real) {
    lengths > 0.0 && lengths * lengths == na * nb && r * lengths == d
  }

  /** The result in terms of the vectors: times both lengths it is the dot product. */
  ghost predicate IsCosine(r: real, a: seq<real>, b: seq<real>, lengths: real)
    requires |a| == |b|
  {
    IsQuotient(r, Dot(a, a), Dot(b, b), Dot(a, b), lengths)
  }

  /** None where the function throws. No division by zero can occur. */
  method CosineSimilarity(a: seq<real>, b: seq<real>, sqrt: real -> real) returns (r: Option<real>)
    requires Roots(sqrt, a, b)
    ensures r.Some? <==> |a| == |b|
    ensures r.Some? ==> -1.0 <= r.value <= 1.0
    ensures r.Some? && (Dot(a, a) == 0.0 || Dot(b, b) == 0.0) ==> r.value == 0.0
    ensures r.Some? && Dot(a, a) != 0.0 && Dot(b, b) != 0.0
      ==> IsCosine(r.value, a, b, sqrt(Dot(a, a)) * sqrt(Dot(b, b)))
  {
    if |a| != |b| {
      return None;
    }
    var dotProduct, normA, normB := 0.0, 0.0, 0.0;
    for i := 0 to |a|
      invariant dotProduct == Dot(a[..i], b[..i])
      invariant normA == Dot(a[..i], a[..i]) && normB == Dot(b[..i], b[..i])
    {
      DotNext(a, b, i);
      DotNext(a, a, i);
      DotNext(b, b, i);
      dotProduct := dotProduct + a[i] * b[i];
      normA := normA + a[i] * a[i];
      normB := normB + b[i] * b[i];
    }
    assert a[..|a|] == a && b[..|b|] == b;
    if normA == 0.0 || normB == 0.0 {
      return Some(0.0);
    }
    var rootA, rootB := sqrt(normA), sqrt(normB);
    NormZero(a, a);
    NormZero(b, b);
    SimilarityOfRoots(a, b, rootA, rootB);
    return Some(Similarity(dotProduct, rootA, rootB));
  }

  lemma SimilarityOfRoots(a: seq<real>, b: seq<real>, rootA: real, rootB: real)
    requires |a| == |b| && Dot(a, a) != 0.0 && Dot(b, b) != 0.0
    requires IsRoot(rootA, Dot(a, a)) && IsRoot(rootB, Dot(b, b))
    ensures rootA > 0.0 && rootB > 0.0
    ensures -1.0 <= Similarity(Dot(a, b), rootA, rootB) <= 1.0
    ensures IsCosine(Similarity(Dot(a, b), rootA, rootB), a, b, rootA * rootB)
  {
    CauchySchwarz(a, b);
    Lengths(Dot(a, a), Dot(b, b), Dot(a, b), rootA, rootB);
  }

  lemma DotNext(a: seq<real>, b: seq<real>, i: nat)
    requires i < |a| == |b|
    ensures Dot(a[..i + 1], b[..i + 1]) == Dot(a[..i], b[..i]) + a[i] * b[i]
  {
    assert a[..i + 1][..i] == a[..i] && b[..i + 1][..i] == b[..i];
  }

  lemma Lengths(na: real, nb: real, d: real, rootA: real, rootB: real)
    requires na != 0.0 && nb != 0.0 && AtMost(na, nb, d)
    requires IsRoot(rootA, na) && IsRoot(rootB, nb)
    ensures rootA > 0.0 && rootB > 0.0
    ensures -1.0 <= Similarity(d, rootA, rootB) <= 1.0
    ensures IsQuotient(Similarity(d, rootA, rootB), na, nb, d, rootA * rootB)
  {
    PositiveRoot(na, rootA);
    PositiveRoot(nb, rootB);
    PositiveProduct(rootA, rootB);
    ProductOfRoots(na, nb, rootA, rootB);
    QuotientBound(d, rootA * rootB);
  }

  /** The extremes are reached exactly by parallel vectors, 1 by those of one direction. */
  lemma ExtremeIffParallel(r: real, a: seq<real>, b: seq<real>, lengths: real)
    requires |a| == |b| && IsCosine(r, a, b, lengths)
    ensures r == 1.0 || r == -1.0 <==> Proportional(Dot(b, b), a, Dot(a, b), b)
    ensures r == 1.0 ==> Dot(a, b) > 0.0
    ensures r == -1.0 ==> Dot(a, b) < 0.0
  {
    UnitQuotient(r, Dot(a, a), Dot(b, b), Dot(a, b), lengths);
    assert Dot(b, b) > 0.0 by {
      NormZero(a, b);
    }
    TightIffParallel(a, b);
  }

  lemma UnitQuotient(r: real, na: real, nb: real, d: real, lengths: real)
    requires IsQuotient(r, na, nb, d, lengths)
    ensures nb != 0.0
    ensures r == 1.0 || r == -1.0 <==> Tight(na, nb, d)
    ensures r == 1.0 ==> d > 0.0
    ensures r == -1.0 ==> d < 0.0
  {
    NonZeroFactor(na, nb, lengths);
    UnitSquare(r, lengths, d);
  }

  lemma NonZeroFactor(x: real, y: real, m: real)
    requires m > 0.0 && m * m == x * y
    ensures y != 0.0
  {
    SquareSign(m);
    ZeroProduct(x, y);
  }

  lemma UnitSquare(r: real, m: real, d: real)
    requires m > 0.0 && r * m == d
    ensures r == 1.0 || r == -1.0 <==> d * d == m * m
  {
    assert d - m == m * (r - 1.0) && d + m == m * (r + 1.0);
    ProductSign(m, r - 1.0);
    ProductSign(m, r + 1.0);
    assert d * d - m * m == (d - m) * (d + m);
    ZeroProduct(d - m, d + m);
  }

  // ---------- _normalizeDimensions ----------

  function Zeros(n: nat): (r: seq<real>)
    ensures |r| == n
  {
    if n == 0 then [] else Zeros(n - 1) + [0.0]
  }

  function NormalizeDimensions(vector: seq<real>, dimensions: nat): (r: seq<real>)
    ensures |r| == dimensions
    ensures forall i :: 0 <= i < Min(|vector|, dimensions) ==> r[i] == vector[i]
  {
    if |vector| == dimensions then vector
    else if |vector| > dimensions then vector[..dimensions]
    else vector + Zeros(dimensions - |vector|)
  }

  lemma {:induction false} DotOfPadded(a: seq<real>, b: seq<real>, n: nat)
    requires |a| == |b|
    ensures Dot(a + Zeros(n), b + Zeros(n)) == Dot(a, b)
  {
    if n == 0 {
      assert a + Zeros(n) == a && b + Zeros(n) == b;
    } else {
      var a', b' := a + Zeros(n), b + Zeros(n);
      assert a'[..|a'| - 1] == a + Zeros(n - 1) && b'[..|b'| - 1] == b + Zeros(n - 1);
      DotOfPadded(a, b, n - 1);
    }
  }

  /** Padding two vectors of one provider changes none of the sums the similarity is made of. */
  lemma PaddingKeepsSimilarity(a: seq<real>, b: seq<real>, dimensions: nat)
    requires |a| == |b| <= dimensions
    ensures var a', b' := NormalizeDimensions(a, dimensions), NormalizeDimensions(b, dimensions);
      Dot(a', b') == Dot(a, b) && Dot(a', a') == Dot(a, a) && Dot(b', b') == Dot(b, b)
  {
    DotOfPadded(a, b, dimensions - |a|);
    DotOfPadded(a, a, dimensions - |a|);
    DotOfPadded(b, b, dimensions - |a|);
  }
}
