/**
 scripts/fix-parseint-radix.js, rewriting twice, for any number of calls, nested or not. Each radix lands
 somewhere in the original text; a second pass changes nothing exactly when every call to fix is settled by
 one of them, its own or another's.
 */
module RadixMany {
  import opened JsCollections
  import opened RadixScan
  import opened RadixFix
  import opened RadixNested
  import opened RadixTwice

  // ---------- Where a radix may land ----------

  predicate Mark(c: char) { c == '/' || c == '*' }

  /** Nothing is split here that belongs together: an escaped character, or the mark of a comment. */
  predicate Clean(s: string, y: nat) {
    0 < y < |s| ==>
      !(s[y - 1] == '\\' && (IsQuote(s[y]) || s[y] == '\\')) && !(Mark(s[y - 1]) && Mark(s[y]))
  }

  // ---------- What is before a call ----------

  lemma {:induction false} EscapedBehindBackslash(s: string, n: nat)
    requires n <= |s| && StringState(s, n).1
    ensures n > 0 && s[n - 1] == '\\'
  {
  }

  /** The four characters of a radix leave the string as it is, and end an escape. */
  lemma RadixInString(s: string, y: nat)
    requires y <= |s|
    ensures StringState(Insert(s, y), y + 4) == (StringState(s, y).0, false)
  {
    var t := Insert(s, y);
    InsertChars(s, y);
    PrefixContext(s, t, y, y);
    StringQuote(s, y);
    var q := StringState(s, y).0;
    assert StringState(t, y + 1) == (q, false);
    assert StringState(t, y + 2) == (q, false);
    assert StringState(t, y + 3) == (q, false);
  }

  lemma {:induction false} CleanStringShift(s: string, y: nat, n: nat)
    requires Clean(s, y) && y <= n <= |s|
    ensures StringState(Insert(s, y), n + 4).0 == StringState(s, n).0
    ensures n > y ==> StringState(Insert(s, y), n + 4) == StringState(s, n)
  {
    var t := Insert(s, y);
    InsertChars(s, y);
    if n == y {
      RadixInString(s, y);
    } else {
      CleanStringShift(s, y, n - 1);
      assert t[n + 3] == s[n - 1];
      if n == y + 1 {
        RadixInString(s, y);
        if StringState(s, y).1 {
          EscapedBehindBackslash(s, y);
          StringQuote(s, y);
        }
      }
    }
  }

  lemma {:induction false} CleanPairShift(s: string, y: nat, n: nat, a: char, b: char)
    requires Clean(s, y) && y <= n <= |s| && Mark(a) && Mark(b)
    ensures LastPair(Insert(s, y), n + 4, a, b) == Shifted(LastPair(s, n, a, b), y)
  {
    var t := Insert(s, y);
    InsertChars(s, y);
    if n == y {
      PrefixContext(s, t, y, y);
      assert LastPair(t, y + 4, a, b) == LastPair(t, y + 3, a, b) == LastPair(t, y + 2, a, b);
      assert LastPair(t, y + 2, a, b) == LastPair(t, y + 1, a, b) == LastPair(t, y, a, b);
      PairBelow(s, y, a, b);
    } else {
      CleanPairShift(s, y, n - 1, a, b);
      assert t[n + 3] == s[n - 1];
      if n - 1 > y {
        assert t[n + 2] == s[n - 2];
      }
    }
  }

  lemma CleanContext(s: string, y: nat, n: nat)
    requires Clean(s, y) && y <= n <= |s|
    ensures IsInComment(Insert(s, y), n + 4) == IsInComment(s, n)
    ensures StringState(Insert(s, y), n + 4).0 == StringState(s, n).0
  {
    NewlineShift(s, y, n);
    CleanPairShift(s, y, n, '/', '/');
    CleanPairShift(s, y, n, '/', '*');
    CleanPairShift(s, y, n, '*', '/');
    CleanStringShift(s, y, n);
  }

  // ---------- One insertion, one call ----------

  function Moved(m: nat, y: nat): nat { if y <= m then m + 4 else m }

  /** Exactly when a radix at y is the end of a call to fix: it breaks up the name, or is an argument of the call. */
  predicate Settles(s: string, m: nat, y: nat)
    requires y <= |s|
  {
    match MatchEnd(s, m)
    case None => false
    case Some(e) => m < y < e || (e <= y && AtTop(s, e, y))
  }

  predicate AtTop(s: string, e: nat, y: nat)
    requires 1 <= e <= y <= |s|
  {
    StateAt(s, e, 0, None, y).Some? && IsTop(StateAt(s, e, 0, None, y).value)
  }

  /** A call whose scan stops before x is scanned alike in any text with the same characters up to there. */
  lemma {:induction false} StoppedBefore(s: string, t: string, i: nat, depth: nat, q: Option<char>, x: nat)
    requires 1 <= i <= x <= |s| && x <= |t| && s[..x] == t[..x] && StateAt(s, i, depth, q, x).None?
    ensures HasRadixFrom(t, i, depth, q) == HasRadixFrom(s, i, depth, q)
    ensures !HasRadixFrom(s, i, depth, q) ==> Closes(t, i, depth, q) && Closes(s, i, depth, q)
    decreases x - i
  {
    assert s[i] == s[..x][i] == t[i] && s[i - 1] == s[..x][i - 1] == t[i - 1];
    var q' := Quote(q, s[i], s[i - 1]);
    if !(q'.None? && depth == 0 && (s[i] == ')' || s[i] == ',')) {
      var depth' := if q'.None? && s[i] == '(' then depth + 1 else if q'.None? && s[i] == ')' then depth - 1 else depth;
      StoppedBefore(s, t, i + 1, depth', q', x);
    }
  }

  lemma {:induction false} StaysStopped(s: string, i: nat, depth: nat, q: Option<char>, x: nat, z: nat)
    requires 1 <= i <= x <= z <= |s| && StateAt(s, i, depth, q, x).None?
    ensures StateAt(s, i, depth, q, z).None?
    decreases x - i
  {
    var q' := Quote(q, s[i], s[i - 1]);
    if !(q'.None? && depth == 0 && (s[i] == ')' || s[i] == ',')) {
      var depth' := if q'.None? && s[i] == '(' then depth + 1 else if q'.None? && s[i] == ')' then depth - 1 else depth;
      StaysStopped(s, i + 1, depth', q', x, z);
    }
  }

  /** The scan in front of a radix. */
  lemma StateInFront(s: string, e: nat, y: nat)
    requires 1 <= e <= y <= |s|
    ensures StateAt(Insert(s, y), e, 0, None, y) == StateAt(s, e, 0, None, y)
    ensures StateAt(s, e, 0, None, y).Some? ==> QuoteOk(StateAt(s, e, 0, None, y).value.inString)
  {
    InsertChars(s, y);
    StateSame(s, Insert(s, y), e, 0, None, y);
    if StateAt(s, e, 0, None, y).Some? {
      StateGoesOn(s, e, 0, None, y, y);
    }
  }

  /** The scan within and just behind a radix that does not count for it. */
  lemma StatePasses(s: string, e: nat, y: nat, z: nat)
    requires 1 <= e <= y <= |s| && y <= z <= y + 4 && !AtTop(s, e, y)
    ensures StateAt(Insert(s, y), e, 0, None, z) == StateAt(s, e, 0, None, y)
  {
    var t := Insert(s, y);
    InsertChars(s, y);
    StateInFront(s, e, y);
    if StateAt(s, e, 0, None, y).None? {
      StaysStopped(t, e, 0, None, y, z);
    } else {
      var c := StateAt(s, e, 0, None, y).value;
      assert forall k :: y <= k < z ==> t[k] == RADIX[k - y];
      PassesOver(t, y, z, c);
      StateGoesOn(t, e, 0, None, y, z);
    }
  }

  lemma SameQuote(s: string, y: nat, q: Option<char>)
    requires Clean(s, y) && 1 <= y < |s| && QuoteOk(q)
    ensures Quote(q, s[y], '0') == Quote(q, s[y], s[y - 1])
  {
  }

  /** A radix that is no argument of the call leaves the rest of its scan as it is. */
  lemma ScanUnchanged(s: string, e: nat, y: nat)
    requires 1 <= e <= y <= |s| && Clean(s, y) && !AtTop(s, e, y)
    ensures var t := Insert(s, y);
      && HasRadixFrom(t, e, 0, None) == HasRadixFrom(s, e, 0, None)
      && (!HasRadixFrom(s, e, 0, None) ==> Closes(t, e, 0, None) == Closes(s, e, 0, None))
  {
    var t := Insert(s, y);
    InsertChars(s, y);
    if StateAt(s, e, 0, None, y).None? {
      StoppedBefore(s, t, e, 0, None, y);
    } else {
      var c := StateAt(s, e, 0, None, y).value;
      StatePasses(s, e, y, y + 4);
      StateGoesOn(s, e, 0, None, y, y);
      StateGoesOn(t, e, 0, None, y + 4, y + 4);
      assert t[y + 4..] == s[y..];
      if y < |s| {
        SameQuote(s, y, c.inString);
      }
      SameTail(t, y + 4, s, y, c.depth, c.inString);
    }
  }

  lemma TopSettles(s: string, e: nat, y: nat)
    requires 1 <= e <= y <= |s| && AtTop(s, e, y)
    ensures HasRadixFrom(Insert(s, y), e, 0, None)
  {
    var t := Insert(s, y);
    InsertChars(s, y);
    StateInFront(s, e, y);
    StateGoesOn(t, e, 0, None, y, y);
    TopCounts(t, y);
  }

  lemma BrokenName(s: string, m: nat, y: nat)
    requires MatchEnd(s, m).Some? && m < y < MatchEnd(s, m).value
    ensures MatchEnd(Insert(s, y), m).None?
  {
    var t := Insert(s, y);
    InsertChars(s, y);
    if MatchEnd(t, m).Some? {
      MatchChars(t, m);
      assert MatchEnd(t, m).value <= y by {
        assert !MatchChar(t[y]);
      }
      MatchSame(t, s, m, y);
    }
  }

  /** FixPoint in terms of what a scan finds. */
  lemma FixPointIff(s: string, m: nat)
    requires m <= |s|
    ensures FixPoint(s, m).Some? <==>
      && MatchEnd(s, m).Some? && !IsInComment(s, m) && StringState(s, m).0.None?
      && !HasRadixFrom(s, MatchEnd(s, m).value, 0, None) && Closes(s, MatchEnd(s, m).value, 0, None)
  {
    if MatchEnd(s, m).Some? {
      FindIffCloses(s, MatchEnd(s, m).value, 0, None, MatchEnd(s, m).value);
    }
  }

  lemma CallInFront(s: string, y: nat, m: nat)
    requires Clean(s, y) && y <= |s| && MatchEnd(s, m).Some? && MatchEnd(s, m).value <= y
    ensures m <= |s| && MatchEnd(Insert(s, y), m) == MatchEnd(s, m)
    ensures FixPoint(Insert(s, y), m).Some? <==> FixPoint(s, m).Some? && !Settles(s, m, y)
  {
    var t, e := Insert(s, y), MatchEnd(s, m).value;
    InsertChars(s, y);
    MatchSame(s, t, m, y);
    PrefixContext(s, t, y, m);
    FixPointIff(s, m);
    FixPointIff(t, m);
    if AtTop(s, e, y) {
      TopSettles(s, e, y);
    } else {
      ScanUnchanged(s, e, y);
    }
  }

  lemma CallBehind(s: string, y: nat, m: nat)
    requires Clean(s, y) && y <= m <= |s| && MatchEnd(s, m).Some?
    ensures MatchEnd(Insert(s, y), m + 4) == Some(MatchEnd(s, m).value + 4)
    ensures FixPoint(Insert(s, y), m + 4).Some? <==> FixPoint(s, m).Some?
  {
    var t, e := Insert(s, y), MatchEnd(s, m).value;
    MatchShift(s, y, m);
    CleanContext(s, y, m);
    FixPointIff(s, m);
    FixPointIff(t, m + 4);
    ScanAfter(s, y, e, 0, None);
  }

  /** After one insertion a call is left to fix exactly when it was before, and the radix does not settle it. */
  lemma CallAfter(s: string, y: nat, m: nat)
    requires Clean(s, y) && y <= |s| && m <= |s| && MatchEnd(s, m).Some?
    ensures FixPoint(Insert(s, y), Moved(m, y)).Some? <==> FixPoint(s, m).Some? && !Settles(s, m, y)
  {
    if y <= m {
      CallBehind(s, y, m);
    } else if y < MatchEnd(s, m).value {
      BrokenName(s, m, y);
    } else {
      CallInFront(s, y, m);
    }
  }

  // ---------- All insertions ----------

  /** Some insertion of the run settles the call. */
  predicate SettledBy(s: string, points: seq<nat>, m: nat)
    requires Inside(s, points)
    decreases |points|
  {
    points != [] && var y := points[|points| - 1];
      Settles(s, m, y) || SettledBy(Insert(s, y), points[..|points| - 1], Moved(m, y))
  }

  predicate CleanRun(s: string, points: seq<nat>)
    requires Inside(s, points)
    decreases |points|
  {
    points != [] ==> var y := points[|points| - 1];
      Clean(s, y) && CleanRun(Insert(s, y), points[..|points| - 1])
  }

  /** What is left to fix was to fix before. */
  lemma OldCall(s: string, y: nat, x: nat) returns (m: nat)
    requires Clean(s, y) && y <= |s| && x <= |s| + 4 && FixPoint(Insert(s, y), x).Some?
    ensures m <= |s| && x == Moved(m, y) && FixPoint(s, m).Some? && !Settles(s, m, y)
  {
    NoNewMatch(s, y, x);
    m := if x < y then x else x - 4;
    CallAfter(s, y, m);
  }

  ghost predicate AllSettled(s: string, points: seq<nat>)
    requires Inside(s, points)
  {
    forall m: nat :: m <= |s| && FixPoint(s, m).Some? ==> SettledBy(s, points, m)
  }

  ghost predicate NothingToFix(s: string) { forall m: nat :: m <= |s| ==> FixPoint(s, m).None? }

  /** After the whole run nothing is left to fix exactly when every call was settled on the way. */
  lemma {:induction false} NothingLeftIffSettled(s: string, points: seq<nat>)
    requires Inside(s, points) && CleanRun(s, points)
    ensures NothingToFix(ApplyReversed(s, points)) <==> AllSettled(s, points)
    decreases |points|
  {
    if points != [] {
      var y, init := points[|points| - 1], points[..|points| - 1];
      NothingLeftIffSettled(Insert(s, y), init);
      AllSettledStep(s, y, init);
    }
  }

  lemma AllSettledStep(s: string, y: nat, init: seq<nat>)
    requires y <= |s| && Inside(s, init) && Clean(s, y)
    ensures Inside(s, init + [y]) && (AllSettled(s, init + [y]) <==> AllSettled(Insert(s, y), init))
  {
    var t, points := Insert(s, y), init + [y];
    assert points[..|points| - 1] == init;
    if AllSettled(s, points) {
      forall x: nat | x <= |t| && FixPoint(t, x).Some? ensures SettledBy(t, init, x) {
        var m := OldCall(s, y, x);
      }
    }
    if AllSettled(t, init) {
      forall m: nat | m <= |s| && FixPoint(s, m).Some? ensures SettledBy(s, points, m) {
        CallAfter(s, y, m);
      }
    }
  }

  // ---------- Landings ----------

  /** Where in a text the offset x lies that is meant in the text with a radix at z. */
  function Unmap(z: nat, x: nat): (r: nat)
    ensures r <= x
  {
    if x <= z then x else if x < z + 4 then z else x - 4
  }

  /**
   Where in the original text a radix at x lands, when those at `after` have been inserted, the last of them
   first.
   */
  function Land(after: seq<nat>, x: nat): (r: nat)
    ensures r <= x
    decreases |after|
  {
    if after == [] then x else Land(after[1..], Unmap(after[0], x))
  }

  lemma {:induction false} LandSnoc(after: seq<nat>, z: nat, x: nat)
    ensures Land(after + [z], x) == Unmap(z, Land(after, x))
    decreases |after|
  {
    if after == [] {
      assert [z][1..] == [];
    } else {
      assert (after + [z])[1..] == after[1..] + [z];
      LandSnoc(after[1..], z, Unmap(after[0], x));
    }
  }

  function Landing(points: seq<nat>, i: nat): (r: nat)
    requires i < |points|
    ensures r <= points[i]
  {
    Land(points[i + 1..], points[i])
  }

  lemma LandingSnoc(init: seq<nat>, y: nat, i: nat)
    requires i < |init|
    ensures Landing(init + [y], i) == Unmap(y, Landing(init, i))
  {
    assert (init + [y])[i + 1..] == init[i + 1..] + [y];
    LandSnoc(init[i + 1..], y, init[i]);
  }

  lemma CleanUnmapped(s: string, z: nat, x: nat)
    requires z <= |s| && x <= |s| + 4 && Clean(s, z) && Clean(s, Unmap(z, x))
    ensures Clean(Insert(s, z), x)
  {
    InsertChars(s, z);
    var t := Insert(s, z);
    if 0 < x < |t| {
      assert t[x - 1] == if x <= z then s[x - 1] else if x <= z + 4 then RADIX[x - 1 - z] else s[x - 5];
      assert t[x] == if x < z then s[x] else if x < z + 4 then RADIX[x - z] else s[x - 4];
    }
  }

  /** The scan behind a radix that does not count for the call, at a later offset. */
  lemma StateBehind(s: string, e: nat, z: nat, x: nat)
    requires 1 <= e <= z <= |s| && z + 4 <= x <= |s| + 4 && Clean(s, z) && !AtTop(s, e, z)
    ensures StateAt(Insert(s, z), e, 0, None, x) == StateAt(s, e, 0, None, x - 4)
  {
    var t := Insert(s, z);
    InsertChars(s, z);
    StatePasses(s, e, z, z + 4);
    if StateAt(s, e, 0, None, z).None? {
      StaysStopped(s, e, 0, None, z, x - 4);
      StaysStopped(t, e, 0, None, z + 4, x);
    } else {
      var c := StateAt(s, e, 0, None, z).value;
      StateGoesOn(s, e, 0, None, z, x - 4);
      StateGoesOn(t, e, 0, None, z + 4, x);
      assert t[z + 4..x] == s[z..x - 4];
      if z < |s| {
        SameQuote(s, z, c.inString);
      }
      SameStretch(t, z + 4, s, z, x - 4 - z, c.depth, c.inString);
    }
  }

  /** The scan of a call that has been moved on as a whole. */
  lemma StateMoved(s: string, e: nat, z: nat, x: nat)
    requires 1 <= e && z < e <= x <= |s|
    ensures StateAt(Insert(s, z), e + 4, 0, None, x + 4) == StateAt(s, e, 0, None, x)
  {
    var t := Insert(s, z);
    InsertChars(s, z);
    assert t[e + 4..x + 4] == s[e..x];
    assert t[e + 3] == s[e - 1];
    SameStretch(t, e + 4, s, e, x - e, 0, None);
  }

  /** Whether a later radix settles a call can be told in the text without the earlier one. */
  lemma SettlesUnmapped(s: string, m: nat, z: nat, x: nat)
    requires z <= |s| && m <= |s| && x <= |s| + 4 && Clean(s, z) && FixPoint(s, m).Some? && !Settles(s, m, z)
    ensures Settles(Insert(s, z), Moved(m, z), x) <==> Settles(s, m, Unmap(z, x))
  {
    var e := MatchEnd(s, m).value;
    if z <= m {
      CallBehind(s, z, m);
      if e + 4 <= x {
        StateMoved(s, e, z, x - 4);
      }
    } else {
      CallInFront(s, z, m);
      if e <= x <= z {
        InsertChars(s, z);
        assert Insert(s, z)[..x] == Insert(s, z)[..z][..x] == s[..x];
        StateSame(s, Insert(s, z), e, 0, None, x);
      } else if z < x < z + 4 {
        StatePasses(s, e, z, x);
      } else if z + 4 <= x {
        StateBehind(s, e, z, x);
      }
    }
  }

  /** Some radix lands where it settles the call. */
  predicate SomeSettles(s: string, points: seq<nat>, m: nat)
    requires Inside(s, points)
  {
    exists i :: 0 <= i < |points| && Settles(s, m, Landing(points, i))
  }

  predicate CleanLandings(s: string, points: seq<nat>) {
    forall i :: 0 <= i < |points| ==> Clean(s, Landing(points, i))
  }

  lemma LastLanding(init: seq<nat>, y: nat)
    ensures Landing(init + [y], |init|) == y
  {
    assert (init + [y])[|init| + 1..] == [];
  }

  /** In the text with the last radix inserted, the other landings are clean as well. */
  lemma CleanLandingsStep(s: string, init: seq<nat>, y: nat)
    requires Inside(s, init + [y]) && CleanLandings(s, init + [y])
    ensures y <= |s| && Clean(s, y) && Inside(Insert(s, y), init) && CleanLandings(Insert(s, y), init)
  {
    var points := init + [y];
    LastLanding(init, y);
    assert points[|init|] == y && Clean(s, Landing(points, |init|));
    forall i | 0 <= i < |init| ensures init[i] <= |s| && Clean(Insert(s, y), Landing(init, i)) {
      assert points[i] == init[i] && Clean(s, Landing(points, i));
      LandingSnoc(init, y, i);
      CleanUnmapped(s, y, Landing(init, i));
    }
  }

  lemma {:induction false} CleanLandingsRun(s: string, points: seq<nat>)
    requires Inside(s, points) && CleanLandings(s, points)
    ensures CleanRun(s, points)
    decreases |points|
  {
    if points != [] {
      var y, init := points[|points| - 1], points[..|points| - 1];
      assert points == init + [y];
      CleanLandingsStep(s, init, y);
      CleanLandingsRun(Insert(s, y), init);
    }
  }

  /** One more insertion, told by landings. */
  lemma SomeSettlesStep(s: string, init: seq<nat>, y: nat, m: nat)
    requires Inside(s, init + [y]) && y <= |s| && Clean(s, y) && m <= |s| && FixPoint(s, m).Some?
    ensures Inside(Insert(s, y), init)
    ensures SomeSettles(s, init + [y], m)
      <==> Settles(s, m, y) || SomeSettles(Insert(s, y), init, Moved(m, y))
  {
    var points, t := init + [y], Insert(s, y);
    LastLanding(init, y);
    assert points[|init|] == y;
    forall i | 0 <= i < |init| ensures points[i] == init[i] <= |s| && Landing(points, i) == Unmap(y, Landing(init, i)) {
      LandingSnoc(init, y, i);
    }
    if Settles(s, m, y) {
      assert Settles(s, m, Landing(points, |init|));
    } else {
      forall i | 0 <= i < |init|
        ensures Settles(t, Moved(m, y), Landing(init, i)) <==> Settles(s, m, Landing(points, i))
      {
        SettlesUnmapped(s, m, y, Landing(init, i));
      }
    }
  }

  lemma {:induction false} SettledByIffLanding(s: string, points: seq<nat>, m: nat)
    requires Inside(s, points) && CleanLandings(s, points) && m <= |s| && FixPoint(s, m).Some?
    ensures SettledBy(s, points, m) <==> SomeSettles(s, points, m)
    decreases |points|
  {
    if points != [] {
      var y, init := points[|points| - 1], points[..|points| - 1];
      assert points == init + [y];
      CleanLandingsStep(s, init, y);
      SomeSettlesStep(s, init, y, m);
      if !Settles(s, m, y) {
        CallAfter(s, y, m);
        SettledByIffLanding(Insert(s, y), init, Moved(m, y));
      }
    }
  }

  // ---------- Rewriting twice ----------

  lemma NoFixesIff(s: string)
    ensures Fixes(s) == [] <==> NothingToFix(s)
  {
    if Fixes(s) == [] {
      forall m: nat | m <= |s| ensures FixPoint(s, m).None? {
        if m < |s| {
          MoreFixes(s, m + 1, |s|);
        }
      }
    } else {
      var m := LastFix(s, |s|);
    }
  }

  /**
   For any number of calls to fix, and any others: if each radix lands where it splits no escape and no comment
   mark, a second pass changes nothing exactly when for every call to fix some radix lands within its name or
   at the top level of its arguments.
   */
  lemma IdempotentIffAllSettled(s: string)
    requires CleanLandings(s, Fixes(s))
    ensures Inside(s, Fixes(s))
    ensures Rewrite(Rewrite(s)) == Rewrite(s)
      <==> forall m: nat :: m <= |s| && FixPoint(s, m).Some? ==> SomeSettles(s, Fixes(s), m)
  {
    var points := Fixes(s);
    FixesInside(s, |s|);
    CleanLandingsRun(s, points);
    NothingLeftIffSettled(s, points);
    NoFixesIff(Rewrite(s));
    IdempotentIffNothingLeft(s);
    forall m: nat | m <= |s| && FixPoint(s, m).Some? ensures SettledBy(s, points, m) <==> SomeSettles(s, points, m) {
      SettledByIffLanding(s, points, m);
    }
  }
}
