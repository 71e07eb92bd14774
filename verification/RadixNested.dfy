/**
 scripts/fix-parseint-radix.js, nested calls. The points are applied in reverse order of the calls, at their
 original offsets. For any number of calls: exactly when that is what was meant.
 */
module RadixNested {
  import opened JsCollections
  import opened RadixScan
  import opened RadixFix

  // ---------- What is meant ----------

  function Copies(n: nat): string { if n == 0 then "" else Copies(n - 1) + RADIX }

  function CountOf(points: seq<nat>, x: nat): nat {
    if points == [] then 0 else CountOf(points[..|points| - 1], x) + if points[|points| - 1] == x then 1 else 0
  }

  /** The first n characters, with the radix inserted at each of the original offsets up to n, as often as it occurs. */
  function Spread(s: string, points: seq<nat>, n: nat): string
    requires n <= |s|
  {
    if n == 0 then Copies(CountOf(points, 0)) else Spread(s, points, n - 1) + [s[n - 1]] + Copies(CountOf(points, n))
  }

  /** Insertion at all the original offsets at once: the order of the points is immaterial. */
  function AllAtOnce(s: string, points: seq<nat>): string { Spread(s, points, |s|) }

  ghost predicate NonDecreasing(points: seq<nat>) { forall i, j :: 0 <= i < j < |points| ==> points[i] <= points[j] }

  ghost predicate UpTo(points: seq<nat>, n: nat) { forall i :: 0 <= i < |points| ==> points[i] <= n }

  // ---------- The rightmost point ----------

  lemma {:induction false} NoneAbove(points: seq<nat>, n: nat, x: nat)
    requires UpTo(points, n) && n < x
    ensures CountOf(points, x) == 0
  {
    if points != [] {
      NoneAbove(points[..|points| - 1], n, x);
    }
  }

  lemma {:induction false} SpreadBehind(s: string, points: seq<nat>, n: nat, k: nat)
    requires n <= k <= |s| && UpTo(points, n)
    ensures Spread(s, points, k) == Spread(s, points, n) + s[n..k]
  {
    if n < k {
      SpreadBehind(s, points, n, k - 1);
      NoneAbove(points, n, k);
    }
  }

  lemma {:induction false} SpreadOfPrefix(s: string, points: seq<nat>, n: nat, k: nat)
    requires k <= n <= |s|
    ensures Spread(s[..n], points, k) == Spread(s, points, k)
  {
    if k > 0 {
      SpreadOfPrefix(s, points, n, k - 1);
    }
  }

  lemma {:induction false} SpreadBelow(s: string, init: seq<nat>, x: nat, k: nat)
    requires k <= |s| && k < x
    ensures Spread(s, init + [x], k) == Spread(s, init, k)
  {
    assert (init + [x])[..|init|] == init;
    if k > 0 {
      SpreadBelow(s, init, x, k - 1);
    }
  }

  /** The rightmost point comes out of the text with what is behind it. */
  lemma AllButLast(s: string, init: seq<nat>, x: nat)
    requires x <= |s| && UpTo(init, x)
    ensures AllAtOnce(s, init + [x]) == AllAtOnce(s[..x], init) + (RADIX + s[x..])
  {
    var points := init + [x];
    assert points[..|init|] == init;
    SpreadBehind(s, points, x, |s|);
    SpreadOfPrefix(s, init, x, x);
    if x > 0 {
      SpreadBelow(s, init, x, x - 1);
      assert Spread(s, points, x) == Spread(s, init, x - 1) + [s[x - 1]] + (Copies(CountOf(init, x)) + RADIX);
    } else {
      assert Spread(s, points, 0) == Copies(CountOf(init, 0)) + RADIX;
    }
    assert Spread(s, points, x) == Spread(s, init, x) + RADIX;
  }

  lemma {:induction false} Occurs(points: seq<nat>, j: nat)
    requires j < |points|
    ensures CountOf(points, points[j]) >= 1
  {
    if j < |points| - 1 {
      Occurs(points[..|points| - 1], j);
    }
  }

  /** What is meant ends in a radix, and what is behind the rightmost point. */
  lemma EndsInRadix(s: string, points: seq<nat>, j: nat) returns (front: string)
    requires j < |points| && points[j] <= |s| && UpTo(points, points[j])
    ensures AllAtOnce(s, points) == front + (RADIX + s[points[j]..])
  {
    var x := points[j];
    SpreadBehind(s, points, x, |s|);
    Occurs(points, j);
    var c := CountOf(points, x);
    front := (if x == 0 then "" else Spread(s, points, x - 1) + [s[x - 1]]) + Copies(c - 1);
    assert Spread(s, points, x) == front + RADIX;
  }

  // ---------- Inserting in reverse order ----------

  lemma {:induction false} ReversedConcat(s: string, a: seq<nat>, b: seq<nat>)
    requires Inside(s, a) && Inside(s, b)
    ensures |ApplyReversed(s, b)| == |s| + 4 * |b| && Inside(ApplyReversed(s, b), a)
    ensures Inside(s, a + b) && ApplyReversed(s, a + b) == ApplyReversed(ApplyReversed(s, b), a)
    decreases |b|
  {
    if b == [] {
      assert a + b == a;
    } else {
      assert (a + b)[..|a + b| - 1] == a + b[..|b| - 1];
      ReversedConcat(Insert(s, b[|b| - 1]), a, b[..|b| - 1]);
    }
  }

  /** Points up to |a| leave what is behind a alone. */
  lemma {:induction false} ReversedInFront(a: string, b: string, points: seq<nat>)
    requires Inside(a, points)
    ensures Inside(a + b, points) && ApplyReversed(a + b, points) == ApplyReversed(a, points) + b
    decreases |points|
  {
    if points != [] {
      var p := points[|points| - 1];
      assert Insert(a + b, p) == Insert(a, p) + b;
      ReversedInFront(Insert(a, p), b, points[..|points| - 1]);
    } else {
      assert ApplyReversed(a + b, points) == a + b;
    }
  }

  lemma ReversedTail(s: string, n: nat, points: seq<nat>) returns (front: string)
    requires n <= |s| && UpTo(points, n)
    ensures Inside(s, points) && ApplyReversed(s, points) == front + s[n..] && |front| == n + 4 * |points|
  {
    assert s == s[..n] + s[n..];
    ReversedInFront(s[..n], s[n..], points);
    front := ApplyReversed(s[..n], points);
    ReversedConcat(s[..n], [], points);
  }

  // ---------- Exactly when reverse order is right ----------

  ghost predicate HasClose(s: string, from: nat, to: nat) { exists k :: from <= k < to <= |s| && s[k] == ')' }

  /**
   What is known of a point behind which a later call's point lies to the left: close by there is a
   closing parenthesis between them, further off the text before it is not a radix.
   */
  ghost predicate Honest(s: string, points: seq<nat>) {
    && Inside(s, points)
    && forall i, j :: 0 <= j < i < |points| && points[i] < points[j] ==>
         if points[j] - points[i] < 4 then HasClose(s, points[i], points[j]) else s[points[j] - 4..points[j]] != RADIX
  }

  lemma HonestPrefix(s: string, init: seq<nat>, x: nat)
    requires x <= |s| && UpTo(init, x) && Honest(s, init + [x])
    ensures Honest(s[..x], init)
  {
    var points := init + [x];
    forall i, j | 0 <= j < i < |init| && init[i] < init[j]
      ensures if init[j] - init[i] < 4 then HasClose(s[..x], init[i], init[j])
        else s[..x][init[j] - 4..init[j]] != RADIX
    {
      assert points[i] == init[i] && points[j] == init[j];
      if init[j] - init[i] < 4 {
        var k :| init[i] <= k < init[j] <= |s| && s[k] == ')';
        assert s[..x][k] == ')';
      } else {
        assert s[..x][init[j] - 4..init[j]] == s[init[j] - 4..init[j]];
      }
    }
  }

  lemma {:induction false} Rightmost(points: seq<nat>) returns (j: nat)
    requires points != []
    ensures j < |points| && UpTo(points, points[j]) && forall i :: j < i < |points| ==> points[i] < points[j]
  {
    j := |points| - 1;
    if |points| > 1 {
      var k := Rightmost(points[..|points| - 1]);
      if points[k] > points[|points| - 1] {
        j := k;
      }
    }
  }

  lemma ReversedOne(t: string, x: nat)
    requires x <= |t|
    ensures ApplyReversed(t, [x]) == Insert(t, x)
  {
    assert [x][..0] == [];
  }

  lemma ReversedThree(s: string, a: seq<nat>, x: nat, b: seq<nat>)
    requires Inside(s, a) && x <= |s| && Inside(s, b)
    ensures var t := ApplyReversed(s, b);
      && |t| == |s| + 4 * |b| && Inside(s, a + ([x] + b)) && Inside(Insert(t, x), a)
      && ApplyReversed(s, a + ([x] + b)) == ApplyReversed(Insert(t, x), a)
  {
    ReversedConcat(s, [x], b);
    ReversedConcat(s, a, [x] + b);
    ReversedConcat(s, a, b);
    ReversedOne(ApplyReversed(s, b), x);
  }

  /** A stale insertion leaves the four characters before the place it should have gone to where they are. */
  lemma StaleTail(t: string, x: nat, n: nat, a: seq<nat>) returns (front: string)
    requires x + 4 <= n <= |t| && UpTo(a, x)
    ensures Inside(Insert(t, x), a) && ApplyReversed(Insert(t, x), a) == front + (t[n - 4..n] + t[n..])
  {
    assert Insert(t, x)[n..] == t[n - 4..] == t[n - 4..n] + t[n..];
    front := ReversedTail(Insert(t, x), n, a);
  }

  lemma StaleEnds(s: string, a: seq<nat>, x: nat, b: seq<nat>, meant: string)
    requires Inside(s, a) && x <= |s| && Inside(s, b) && UpTo(a, x) && b != []
    requires var t, n := ApplyReversed(s, b), x + 4 * |b|; n <= |t| && t[n - 4..n] != RADIX && t[n..] == s[x..]
    ensures Inside(s, a + ([x] + b)) && ApplyReversed(s, a + ([x] + b)) != meant + (RADIX + s[x..])
  {
    var t, n := ApplyReversed(s, b), x + 4 * |b|;
    ReversedThree(s, a, x, b);
    var front := StaleTail(t, x, n, a);
    DifferentEnds(front, t[n - 4..n], meant, RADIX, s[x..]);
  }

  /** When points of later calls lie to its left, the rightmost point is not where its radix goes. */
  lemma RightmostIsStale(s: string, points: seq<nat>, j: nat)
    requires Honest(s, points) && j < |points| - 1 && UpTo(points, points[j])
    requires forall i :: j < i < |points| ==> points[i] < points[j]
    ensures ApplyReversed(s, points) != AllAtOnce(s, points)
  {
    LaterTail(s, points, j);
    StaleTailDiffers(s, points, j);
  }

  lemma StaleTailDiffers(s: string, points: seq<nat>, j: nat)
    requires Inside(s, points) && j < |points| - 1 && UpTo(points, points[j]) && Inside(s, points[j + 1..])
    requires var t, n := ApplyReversed(s, points[j + 1..]), points[j] + 4 * |points[j + 1..]|;
      4 <= n <= |t| && t[n - 4..n] != RADIX && t[n..] == s[points[j]..]
    ensures ApplyReversed(s, points) != AllAtOnce(s, points)
  {
    SplitAt(s, points, j);
    var meant := EndsInRadix(s, points, j);
    StaleSplit(s, points, points[..j], points[j], points[j + 1..], meant);
  }

  lemma SplitAt(s: string, points: seq<nat>, j: nat)
    requires Inside(s, points) && j < |points| && UpTo(points, points[j])
    ensures points == points[..j] + ([points[j]] + points[j + 1..])
    ensures Inside(s, points[..j]) && Inside(s, points[j + 1..]) && UpTo(points[..j], points[j]) && points[j] <= |s|
  {
  }

  lemma StaleSplit(s: string, points: seq<nat>, a: seq<nat>, x: nat, b: seq<nat>, meant: string)
    requires points == a + ([x] + b) && Inside(s, a) && x <= |s| && Inside(s, b) && UpTo(a, x) && b != []
    requires var t, n := ApplyReversed(s, b), x + 4 * |b|; n <= |t| && t[n - 4..n] != RADIX && t[n..] == s[x..]
    ensures Inside(s, points) && ApplyReversed(s, points) != meant + (RADIX + s[x..])
  {
    StaleEnds(s, a, x, b, meant);
  }

  lemma LaterTail(s: string, points: seq<nat>, j: nat)
    requires Honest(s, points) && j < |points| - 1 && forall i :: j < i < |points| ==> points[i] < points[j]
    ensures Inside(s, points[j + 1..])
    ensures var t, n := ApplyReversed(s, points[j + 1..]), points[j] + 4 * |points[j + 1..]|;
      4 <= n <= |t| && t[n - 4..n] != RADIX && t[n..] == s[points[j]..]
  {
    var b := points[j + 1..];
    var k := Rightmost(b);
    assert points[j + 1 + k] == b[k];
    var front := ReversedTail(s, b[k], b);
    TailIsNoRadix(s, points, j, j + 1 + k, front);
  }

  lemma DifferentEnds(a: string, b: string, c: string, d: string, tail: string)
    requires |b| == |d| && b != d
    ensures a + (b + tail) != c + (d + tail)
  {
    var x, y := a + (b + tail), c + (d + tail);
    assert x[|x| - |tail| - |b|..|x| - |tail|] == b && y[|y| - |tail| - |d|..|y| - |tail|] == d;
  }

  /** The four characters before the rightmost point, once the later points have been inserted to its left. */
  lemma TailIsNoRadix(s: string, points: seq<nat>, j: nat, i: nat, front: string)
    requires Honest(s, points) && j < i < |points| && points[i] < points[j] && |front| >= points[i] + 4
    ensures var t, n := front + s[points[i]..], |front| + (points[j] - points[i]);
      n <= |t| && t[n - 4..n] != RADIX && t[n..] == s[points[j]..]
  {
    var t, n := front + s[points[i]..], |front| + (points[j] - points[i]);
    if points[j] - points[i] < 4 {
      var k :| points[i] <= k < points[j] <= |s| && s[k] == ')';
      assert t[n - 4..n][k - points[j] + 4] == ')';
    } else {
      assert t[n - 4..n] == s[points[j] - 4..points[j]];
    }
  }

  /** A rightmost point of the last call is inserted where it belongs; the rest happens in the text before it. */
  lemma StripIff(s: string, init: seq<nat>, x: nat)
    requires x <= |s| && Inside(s, init) && UpTo(init, x)
    ensures Inside(s, init + [x]) && Inside(s[..x], init)
    ensures ApplyReversed(s, init + [x]) == AllAtOnce(s, init + [x])
      <==> ApplyReversed(s[..x], init) == AllAtOnce(s[..x], init)
  {
    ReversedButLast(s, init, x);
    AllButLast(s, init, x);
    SameFront(ApplyReversed(s[..x], init), AllAtOnce(s[..x], init), RADIX + s[x..]);
  }

  lemma ReversedButLast(s: string, init: seq<nat>, x: nat)
    requires x <= |s| && Inside(s, init) && UpTo(init, x)
    ensures Inside(s, init + [x]) && Inside(s[..x], init)
    ensures ApplyReversed(s, init + [x]) == ApplyReversed(s[..x], init) + (RADIX + s[x..])
  {
    assert Insert(s, x) == s[..x] + (RADIX + s[x..]);
    ReversedInFront(s[..x], RADIX + s[x..], init);
    assert (init + [x])[..|init|] == init;
  }

  lemma NonDecreasingSnoc(init: seq<nat>, x: nat)
    requires UpTo(init, x)
    ensures NonDecreasing(init + [x]) <==> NonDecreasing(init)
  {
    if NonDecreasing(init + [x]) {
      forall i, j | 0 <= i < j < |init| ensures init[i] <= init[j] {
        assert (init + [x])[i] <= (init + [x])[j];
      }
    }
  }

  lemma NothingToInsert(s: string)
    ensures ApplyReversed(s, []) == AllAtOnce(s, [])
  {
    SpreadBehind(s, [], 0, |s|);
  }

  lemma {:induction false} ReversedIff(s: string, points: seq<nat>)
    requires Honest(s, points)
    ensures ApplyReversed(s, points) == AllAtOnce(s, points) <==> NonDecreasing(points)
    decreases |points|, 1
  {
    if points == [] {
      NothingToInsert(s);
    } else {
      var j := Rightmost(points);
      if j < |points| - 1 {
        RightmostIsStale(s, points, j);
      } else {
        ReversedLastIff(s, points, points[..j], points[j]);
      }
    }
  }

  lemma ReversedLastIff(s: string, points: seq<nat>, init: seq<nat>, x: nat)
    requires Honest(s, points) && points == init + [x] && UpTo(init, x) && Inside(s, init) && x <= |s|
    ensures ApplyReversed(s, points) == AllAtOnce(s, points) <==> NonDecreasing(points)
    decreases |points|, 0
  {
    StripIff(s, init, x);
    HonestPrefix(s, init, x);
    ReversedIff(s[..x], init);
    NonDecreasingSnoc(init, x);
  }

  lemma SameFront(a: string, b: string, tail: string)
    ensures a + tail == b + tail <==> a == b
  {
    if a + tail == b + tail {
      assert a == (a + tail)[..|a|] && b == (b + tail)[..|b|];
    }
  }

  // ---------- The points of a text are honest ----------

  /** Which call each point belongs to. */
  lemma {:induction false} CallOf(s: string, n: nat, i: nat) returns (m: nat)
    requires n <= |s| && i < |FixesBefore(s, n)|
    ensures m < n && FixPoint(s, m) == Some(FixesBefore(s, n)[i]) && |FixesBefore(s, m)| == i
  {
    if i < |FixesBefore(s, n - 1)| {
      m := CallOf(s, n - 1, i);
    } else {
      m := n - 1;
    }
  }

  lemma {:induction false} MoreFixes(s: string, m: nat, n: nat)
    requires m <= n <= |s|
    ensures |FixesBefore(s, m)| <= |FixesBefore(s, n)|
  {
    if m < n {
      MoreFixes(s, m, n - 1);
    }
  }

  lemma PointsHonest(s: string, m: nat, n: nat)
    requires m < n <= |s| && FixPoint(s, m).Some? && FixPoint(s, n).Some? && FixPoint(s, n).value < FixPoint(s, m).value
    ensures var p, r := FixPoint(s, m).value, FixPoint(s, n).value;
      p <= |s| && if p - r < 4 then HasClose(s, r, p) else s[p - 4..p] != RADIX
  {
    var p, r := FixPoint(s, m).value, FixPoint(s, n).value;
    PointOfCall(s, m);
    PointOfCall(s, n);
    MatchesDisjoint(s, m, n);
    if p - r < 4 {
      SkipsSpaces(s, r);
      assert s[SkipSpace(s, r)] == ')' && SkipSpace(s, r) < p;
    } else {
      NotRadixAlready(s, MatchEnd(s, m).value, 0, None, MatchEnd(s, m).value, p);
    }
  }

  lemma FixesHonest(s: string)
    ensures Honest(s, Fixes(s))
  {
    var points := Fixes(s);
    FixesInside(s, |s|);
    forall i, j | 0 <= j < i < |points| && points[i] < points[j]
      ensures if points[j] - points[i] < 4 then HasClose(s, points[i], points[j])
        else s[points[j] - 4..points[j]] != RADIX
    {
      var m := CallOf(s, |s|, j);
      var n := CallOf(s, |s|, i);
      if n <= m {
        MoreFixes(s, n, m);
      }
      PointsHonest(s, m, n);
    }
  }

  /**
   For any number of calls: the rewriter inserts the radix where each call needs it exactly when no call's
   point lies behind that of a later call, that is when no call to fix is nested in another.
   */
  lemma RewriteIsRightIff(s: string)
    ensures Rewrite(s) == AllAtOnce(s, Fixes(s)) <==> NonDecreasing(Fixes(s))
  {
    FixesHonest(s);
    ReversedIff(s, Fixes(s));
  }
}
