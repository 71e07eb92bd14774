/**
 scripts/fix-parseint-radix.js, rewriting twice. A file with two calls to fix is left alone by a second pass
 exactly when the calls are not nested, or the outer call's radix, which lands too far to the left, lands
 where it counts for that call all the same or spoils it altogether.
 */
module RadixTwice {
  import opened JsCollections
  import opened RadixScan
  import opened RadixFix
  import opened RadixNested

  // ---------- Nothing left to fix ----------

  /** A second pass changes nothing exactly when the first left nothing to fix. */
  lemma IdempotentIffNothingLeft(s: string)
    ensures Rewrite(Rewrite(s)) == Rewrite(s) <==> Fixes(Rewrite(s)) == []
  {
    var t := Rewrite(s);
    FixesInside(t, |t|);
    ReversedConcat(t, [], Fixes(t));
  }

  // ---------- The state of a scan ----------

  datatype Scan = Scan(depth: nat, inString: Option<char>)

  predicate IsTop(c: Scan) { c.depth == 0 && c.inString.None? }

  /** The scan of a call when it comes to position x; None when it has met a radix or the end of the call before. */
  function StateAt(s: string, i: nat, depth: nat, inString: Option<char>, x: nat): Option<Scan>
    requires 1 <= i <= x <= |s|
    decreases x - i
  {
    if i == x then Some(Scan(depth, inString))
    else
      var q := Quote(inString, s[i], s[i - 1]);
      if q.None? && s[i] == '(' then StateAt(s, i + 1, depth + 1, q, x)
      else if q.None? && s[i] == ')' then if depth == 0 then None else StateAt(s, i + 1, depth - 1, q, x)
      else if q.None? && s[i] == ',' && depth == 0 then None
      else StateAt(s, i + 1, depth, q, x)
  }

  lemma {:induction false} StateSame(s: string, t: string, i: nat, depth: nat, q: Option<char>, x: nat)
    requires 1 <= i <= x <= |s| && x <= |t| && s[..x] == t[..x]
    ensures StateAt(t, i, depth, q, x) == StateAt(s, i, depth, q, x)
    decreases x - i
  {
    if i < x {
      assert s[i] == s[..x][i] == t[i] && s[i - 1] == s[..x][i - 1] == t[i - 1];
      var q' := Quote(q, s[i], s[i - 1]);
      var depth' := if q'.None? && s[i] == '(' then depth + 1
        else if q'.None? && s[i] == ')' && depth > 0 then depth - 1 else depth;
      StateSame(s, t, i + 1, depth', q', x);
    }
  }

  /** From the state on, the scan is the same. */
  lemma {:induction false} StateGoesOn(s: string, i: nat, depth: nat, q: Option<char>, x: nat, z: nat)
    requires 1 <= i <= x <= z <= |s| && QuoteOk(q) && StateAt(s, i, depth, q, x).Some?
    ensures var c := StateAt(s, i, depth, q, x).value;
      && QuoteOk(c.inString)
      && HasRadixFrom(s, i, depth, q) == HasRadixFrom(s, x, c.depth, c.inString)
      && Closes(s, i, depth, q) == Closes(s, x, c.depth, c.inString)
      && StateAt(s, i, depth, q, z) == StateAt(s, x, c.depth, c.inString, z)
    decreases x - i
  {
    if i < x {
      var q' := Quote(q, s[i], s[i - 1]);
      var depth' := if q'.None? && s[i] == '(' then depth + 1 else if q'.None? && s[i] == ')' then depth - 1 else depth;
      StateGoesOn(s, i + 1, depth', q', x, z);
    }
  }

  lemma {:induction false} FindGoesOn(s: string, i: nat, depth: nat, q: Option<char>, last: nat, x: nat)
      returns (last': nat)
    requires 1 <= i <= x <= |s| && last <= i && StateAt(s, i, depth, q, x).Some?
    ensures var c := StateAt(s, i, depth, q, x).value;
      last' <= x && FindFrom(s, i, depth, q, last) == FindFrom(s, x, c.depth, c.inString, last')
    decreases x - i
  {
    if i == x {
      last' := last;
    } else {
      var q' := Quote(q, s[i], s[i - 1]);
      var depth' := if q'.None? && s[i] == '(' then depth + 1 else if q'.None? && s[i] == ')' then depth - 1 else depth;
      last' := FindGoesOn(s, i + 1, depth', q', if IsSpace(s[i]) then last else i + 1, x);
    }
  }

  /** Up to its point a call without radix is scanned without a stop. */
  lemma {:induction false} StateExists(s: string, i: nat, depth: nat, q: Option<char>, last: nat, x: nat)
    requires 1 <= i <= x <= |s| && last <= i && !HasRadixFrom(s, i, depth, q)
    requires FindFrom(s, i, depth, q, last).Some? && x <= FindFrom(s, i, depth, q, last).value
    ensures StateAt(s, i, depth, q, x).Some?
    decreases x - i
  {
    if i < x {
      var q' := Quote(q, s[i], s[i - 1]);
      assert !(q'.None? && s[i] == ')' && depth == 0);
      var depth' := if q'.None? && s[i] == '(' then depth + 1 else if q'.None? && s[i] == ')' then depth - 1 else depth;
      StateExists(s, i + 1, depth', q', if IsSpace(s[i]) then last else i + 1, x);
    }
  }

  /** Two texts that end alike are scanned alike from there on, if the first character is taken alike. */
  lemma {:induction false} SameTail(a: string, i: nat, b: string, j: nat, depth: nat, q: Option<char>)
    requires 1 <= i <= |a| && 1 <= j <= |b| && a[i..] == b[j..]
    requires i < |a| ==> Quote(q, a[i], a[i - 1]) == Quote(q, a[i], b[j - 1])
    ensures HasRadixFrom(a, i, depth, q) == HasRadixFrom(b, j, depth, q)
    ensures Closes(a, i, depth, q) == Closes(b, j, depth, q)
    decreases |a| - i
  {
    assert |a[i..]| == |b[j..]|;
    if i < |a| {
      assert a[i] == a[i..][0] == b[j];
      assert a[i + 1..] == a[i..][1..] == b[j + 1..];
      var q' := Quote(q, a[i], a[i - 1]);
      var depth' := if q'.None? && a[i] == '(' then depth + 1
        else if q'.None? && a[i] == ')' && depth > 0 then depth - 1 else depth;
      SameTail(a, i + 1, b, j + 1, depth', q');
    }
  }

  /** The state after n more characters that are the same in both texts. */
  lemma {:induction false} SameStretch(a: string, i: nat, b: string, j: nat, n: nat, depth: nat, q: Option<char>)
    requires 1 <= i && i + n <= |a| && 1 <= j && j + n <= |b| && a[i..i + n] == b[j..j + n]
    requires n > 0 ==> Quote(q, a[i], a[i - 1]) == Quote(q, a[i], b[j - 1])
    ensures StateAt(a, i, depth, q, i + n) == StateAt(b, j, depth, q, j + n)
    decreases n
  {
    if n > 0 {
      assert a[i] == a[i..i + n][0] == b[j..j + n][0] == b[j];
      assert a[i + 1..i + n] == a[i..i + n][1..] == b[j..j + n][1..] == b[j + 1..j + n];
      var q' := Quote(q, a[i], a[i - 1]);
      var depth' := if q'.None? && a[i] == '(' then depth + 1
        else if q'.None? && a[i] == ')' && depth > 0 then depth - 1 else depth;
      SameStretch(a, i + 1, b, j + 1, n - 1, depth', q');
    }
  }

  /** Text that changes no state: no quotes, no parentheses, and no comma that counts. */
  lemma {:induction false} PassesOver(t: string, x: nat, z: nat, c: Scan)
    requires 1 <= x <= z <= |t| && QuoteOk(c.inString)
    requires forall k :: x <= k < z ==> !IsQuote(t[k]) && t[k] != '(' && t[k] != ')' && (t[k] == ',' ==> !IsTop(c))
    ensures StateAt(t, x, c.depth, c.inString, z) == Some(c)
    decreases z - x
  {
    if x < z {
      PassesOver(t, x + 1, z, c);
    }
  }

  // ---------- The inner point, as the outer call sees it ----------

  lemma {:induction false} SpacesThenClose(s: string, r: nat, last: nat)
    requires 1 <= r && BeforeClose(s, r)
    ensures FindFrom(s, r, 0, None, last) == Some(last)
    decreases SkipSpace(s, r) - r
  {
    if IsSpace(s[r]) {
      SpaceIsNeutral(s[r]);
      SpacesThenClose(s, r + 1, last);
    }
  }

  /** If the outer call ends behind it, a radix at the inner point does not count for the outer call. */
  lemma InnerIsNotTop(s: string, e: nat, p: nat, r: nat)
    requires 1 <= e <= r < p && BeforeClose(s, r) && !HasRadixFrom(s, e, 0, None)
    requires FindFrom(s, e, 0, None, e) == Some(p) && p <= |s|
    ensures StateAt(s, e, 0, None, r).Some? && !IsTop(StateAt(s, e, 0, None, r).value)
  {
    StateExists(s, e, 0, None, e, r);
    var last := FindGoesOn(s, e, 0, None, e, r);
    if IsTop(StateAt(s, e, 0, None, r).value) {
      SpacesThenClose(s, r, last);
    }
  }

  // ---------- Where the outer radix lands ----------

  /** Where in the original text the outer call's radix lands, once the inner radix has moved the text on. */
  function Landing(p: nat, r: nat): nat { if p >= r + 4 then p - 4 else r }

  /** The text from y on, as it reads behind an inserted radix. */
  function Behind(s: string, y: nat): string
    requires y <= |s|
  {
    "0" + s[y..]
  }

  /**
   What becomes of the call scanned from e when a radix is put at y: it counts, or another radix is found
   behind it, or the call no longer closes. (The scan treats a quote behind a backslash differently.)
   */
  predicate SettledAt(s: string, e: nat, y: nat)
    requires 1 <= e <= y <= |s|
  {
    match StateAt(s, e, 0, None, y)
    case None => false
    case Some(c) =>
      IsTop(c) || HasRadixFrom(Behind(s, y), 1, c.depth, c.inString) || !Closes(Behind(s, y), 1, c.depth, c.inString)
  }

  /** An insertion where it counts. */
  lemma TopCounts(w: string, x: nat)
    requires 1 <= x < |w| && w[x] == ','
    ensures HasRadixFrom(w, x, 0, None)
  {
  }

  lemma ResumesBehind(w: string, x: nat, s: string, y: nat, c: Scan)
    requires 1 <= x <= |w| && y <= |s| && w[x - 1] == '0' && w[x..] == s[y..]
    ensures HasRadixFrom(w, x, c.depth, c.inString) == HasRadixFrom(Behind(s, y), 1, c.depth, c.inString)
    ensures Closes(w, x, c.depth, c.inString) == Closes(Behind(s, y), 1, c.depth, c.inString)
  {
    assert Behind(s, y)[1..] == s[y..];
    SameTail(w, x, Behind(s, y), 1, c.depth, c.inString);
  }

  /** The two texts: after the inner insertion, and after the outer one at its stale offset. */
  ghost predicate Inserted(s: string, r: nat, p: nat, t: string, w: string) {
    r < p <= |s| && t == Insert(s, r) && w == Insert(t, p)
  }

  lemma InnerPassed(s: string, e: nat, r: nat, p: nat, t: string, w: string)
    requires Inserted(s, r, p, t, w) && 1 <= e <= r && StateAt(s, e, 0, None, r).Some?
    requires !IsTop(StateAt(s, e, 0, None, r).value)
    ensures var x := if p < r + 4 then p else r + 4; StateAt(w, e, 0, None, x) == StateAt(s, e, 0, None, r)
    ensures QuoteOk(StateAt(s, e, 0, None, r).value.inString)
  {
    var x := if p < r + 4 then p else r + 4;
    var c := StateAt(s, e, 0, None, r).value;
    StateGoesOn(s, e, 0, None, r, r);
    assert w[..r] == s[..r];
    StateSame(s, w, e, 0, None, r);
    assert forall k :: r <= k < x ==> w[k] == t[k] == RADIX[k - r];
    PassesOver(w, r, x, c);
    StateGoesOn(w, e, 0, None, r, x);
  }

  /** Close by: the outer radix splits the inner one, and counts for neither. */
  lemma NearLanding(s: string, e: nat, r: nat, p: nat, t: string, w: string)
    requires Inserted(s, r, p, t, w) && p < r + 4 && 1 <= e <= r
    requires StateAt(s, e, 0, None, r).Some? && !IsTop(StateAt(s, e, 0, None, r).value)
    ensures HasRadixFrom(w, e, 0, None) || !Closes(w, e, 0, None) <==> SettledAt(s, e, r)
  {
    var c := StateAt(s, e, 0, None, r).value;
    InnerPassed(s, e, r, p, t, w);
    assert forall k :: p <= k < p + 4 ==> w[k] == RADIX[k - p];
    assert forall k :: p + 4 <= k < r + 8 ==> w[k] == t[k - 4] == RADIX[k - 4 - r];
    PassesOver(w, p, r + 8, c);
    StateGoesOn(w, e, 0, None, p, r + 8);
    StateGoesOn(w, e, 0, None, r + 8, r + 8);
    assert w[r + 8..] == s[r..] && w[r + 7] == '0';
    ResumesBehind(w, r + 8, s, r, c);
  }

  /** Further off: the outer radix lands four characters too early. */
  lemma FarState(s: string, e: nat, r: nat, p: nat, t: string, w: string)
    requires Inserted(s, r, p, t, w) && p >= r + 4 && 1 <= e <= r && BeforeClose(s, r)
    requires StateAt(s, e, 0, None, r).Some? && !IsTop(StateAt(s, e, 0, None, r).value)
    ensures StateAt(w, e, 0, None, p) == StateAt(s, e, 0, None, p - 4)
  {
    var c, n := StateAt(s, e, 0, None, r).value, p - 4 - r;
    InnerPassed(s, e, r, p, t, w);
    StateGoesOn(s, e, 0, None, r, p - 4);
    StateGoesOn(w, e, 0, None, r + 4, p);
    assert w[r + 4..p] == t[r + 4..p] == s[r..p - 4];
    if IsSpace(s[r]) {
      SpaceIsNeutral(s[r]);
    }
    assert n > 0 ==> w[r + 4] == s[r] && !IsQuote(s[r]);
    SameStretch(w, r + 4, s, r, n, c.depth, c.inString);
  }

  lemma FarLanding(s: string, e: nat, r: nat, p: nat, t: string, w: string)
    requires Inserted(s, r, p, t, w) && p >= r + 4 && 1 <= e <= r && BeforeClose(s, r)
    requires StateAt(s, e, 0, None, r).Some? && !IsTop(StateAt(s, e, 0, None, r).value)
    requires StateAt(s, e, 0, None, p - 4).Some?
    ensures HasRadixFrom(w, e, 0, None) || !Closes(w, e, 0, None) <==> SettledAt(s, e, p - 4)
  {
    var c := StateAt(s, e, 0, None, p - 4).value;
    FarState(s, e, r, p, t, w);
    StateGoesOn(w, e, 0, None, p, p);
    assert forall k :: p <= k < p + 4 ==> w[k] == RADIX[k - p];
    if IsTop(c) {
      TopCounts(w, p);
    } else {
      PassesOver(w, p, p + 4, c);
      StateGoesOn(w, p, c.depth, c.inString, p + 4, p + 4);
      assert w[p + 4..] == t[p..] == s[p - 4..];
      ResumesBehind(w, p + 4, s, p - 4, c);
    }
  }

  /** The outer call is settled by the two insertions exactly when it is settled by a radix at the landing point. */
  lemma OuterSettledIff(s: string, e: nat, p: nat, r: nat)
    requires 1 <= e <= r < p <= |s| && BeforeClose(s, r) && !HasRadixFrom(s, e, 0, None)
    requires FindFrom(s, e, 0, None, e) == Some(p)
    ensures var w := Insert(Insert(s, r), p);
      HasRadixFrom(w, e, 0, None) || !Closes(w, e, 0, None) <==> SettledAt(s, e, Landing(p, r))
  {
    var t := Insert(s, r);
    var w := Insert(t, p);
    InnerIsNotTop(s, e, p, r);
    if p < r + 4 {
      NearLanding(s, e, r, p, t, w);
    } else {
      StateExists(s, e, 0, None, e, p - 4);
      FarLanding(s, e, r, p, t, w);
    }
  }

  // ---------- Files with two calls ----------

  /** An insertion makes no match, and moves those behind it. */
  lemma NoNewMatch(t: string, x: nat, y: nat)
    requires x <= |t| && MatchEnd(Insert(t, x), y).Some?
    ensures y < x || y >= x + 4
    ensures y < x ==> MatchEnd(t, y) == MatchEnd(Insert(t, x), y)
    ensures y >= x + 4 ==> MatchEnd(t, y - 4).Some?
  {
    var w := Insert(t, x);
    InsertChars(t, x);
    MatchChars(w, y);
    if y < x {
      assert MatchEnd(w, y).value <= x by {
        assert !MatchChar(w[x]);
      }
      MatchSame(w, t, y, x);
    } else if y >= x + 4 {
      MatchShift(t, x, y - 4);
    }
  }

  /** Two calls to fix, at m and n, and no other call in the file. */
  ghost predicate TwoCalls(s: string, m: nat, n: nat) {
    && m < n <= |s| && FixPoint(s, m).Some? && FixPoint(s, n).Some?
    && forall x: nat :: x <= |s| && MatchEnd(s, x).Some? ==> x == m || x == n
  }

  ghost predicate NoFixIn(s: string, a: nat, b: nat)
    requires b <= |s|
  {
    forall x :: a <= x < b ==> FixPoint(s, x).None?
  }

  lemma OneFix(s: string, a: nat, m: nat, b: nat)
    requires a <= m < b <= |s| && FixPoint(s, m).Some? && NoFixIn(s, a, m) && NoFixIn(s, m + 1, b)
    ensures FixesBefore(s, b) == FixesBefore(s, a) + [FixPoint(s, m).value]
  {
    NoFixesAfter(s, a, m);
    NoFixesAfter(s, m + 1, b);
    assert FixesBefore(s, m + 1) == FixesBefore(s, m) + [FixPoint(s, m).value];
  }

  lemma TwoFixes(s: string, m: nat, n: nat)
    requires TwoCalls(s, m, n)
    ensures Fixes(s) == [FixPoint(s, m).value, FixPoint(s, n).value]
  {
    forall x: nat | x < |s| && x != m && x != n ensures FixPoint(s, x).None? {
      assert MatchEnd(s, x).None?;
    }
    OneFix(s, 0, m, n);
    OneFix(s, n, n, |s|);
    assert FixesBefore(s, 0) == [];
  }

  /** Both insertions. */
  function Twice(s: string, m: nat, n: nat): string
    requires m <= |s| && n <= |s| && FixPoint(s, m).Some? && FixPoint(s, n).Some?
  {
    PointOfCall(s, m);
    PointOfCall(s, n);
    Insert(Insert(s, FixPoint(s, n).value), FixPoint(s, m).value)
  }

  lemma RewriteIsTwice(s: string, m: nat, n: nat)
    requires TwoCalls(s, m, n)
    ensures Rewrite(s) == Twice(s, m, n)
  {
    var p, r := FixPoint(s, m).value, FixPoint(s, n).value;
    PointOfCall(s, m);
    PointOfCall(s, n);
    TwoFixes(s, m, n);
    assert [p, r] == [p] + [r];
    ReversedConcat(s, [p], [r]);
    ReversedOne(s, r);
    ReversedOne(Insert(s, r), p);
  }

  /** Where the two calls are in the original text, and that both come before either point. */
  lemma CallsInFront(s: string, m: nat, n: nat)
    requires TwoCalls(s, m, n)
    ensures var p, r := FixPoint(s, m).value, FixPoint(s, n).value;
      && MatchEnd(s, m).Some? && MatchEnd(s, n).Some? && m < MatchEnd(s, m).value <= n < MatchEnd(s, n).value <= r < |s|
      && MatchEnd(s, m).value <= p < |s| && BeforeClose(s, r)
  {
    PointOfCall(s, m);
    PointOfCall(s, n);
    MatchesDisjoint(s, m, n);
  }

  lemma NoOtherCall(s: string, m: nat, n: nat, y: nat)
    requires TwoCalls(s, m, n) && FixPoint(s, n).value <= FixPoint(s, m).value && MatchEnd(Twice(s, m, n), y).Some?
    ensures y == m || y == n
  {
    var p, r := FixPoint(s, m).value, FixPoint(s, n).value;
    CallsInFront(s, m, n);
    NoNewMatch(Insert(s, r), p, y);
    NoNewMatch(s, r, if y < p then y else y - 4);
  }

  /** A text that is the same up to a point, and goes on with a comma there: the call has a radix. */
  lemma OwnRadixCounts(s: string, e: nat, p: nat, w: string)
    requires 1 <= e <= p < |s| && p < |w| && w[..p] == s[..p] && w[p] == ','
    requires !HasRadixFrom(s, e, 0, None) && FindFrom(s, e, 0, None, e) == Some(p)
    ensures HasRadixFrom(w, e, 0, None)
  {
    StateExists(s, e, 0, None, e, p);
    StateGoesOn(s, e, 0, None, p, p);
    var c := StateAt(s, e, 0, None, p).value;
    var last := FindGoesOn(s, e, 0, None, e, p);
    AtInsertion(s, p, c.depth, c.inString, last);
    StateSame(s, w, e, 0, None, p);
    StateGoesOn(w, e, 0, None, p, p);
    TopCounts(w, p);
  }

  /** What is left of a call whose context is the same: it is settled, or still to fix. */
  lemma SameContext(s: string, w: string, m: nat, k: nat)
    requires m <= k <= |s| && k <= |w| && s[..k] == w[..k] && FixPoint(s, m).Some? && MatchEnd(s, m).Some?
    requires MatchEnd(s, m).value <= k
    ensures var e := MatchEnd(s, m).value;
      FixPoint(w, m).None? <==> HasRadixFrom(w, e, 0, None) || !Closes(w, e, 0, None)
  {
    var e := MatchEnd(s, m).value;
    MatchSame(s, w, m, k);
    PrefixContext(s, w, k, m);
    FindIffCloses(w, e, 0, None, e);
  }

  lemma PrefixKept(s: string, r: nat, p: nat)
    requires r <= p <= |s|
    ensures var w := Insert(Insert(s, r), p); w[..r] == s[..r] && w[r] == ',' && |w| == |s| + 8
  {
  }

  lemma InnerIsSettled(s: string, m: nat, n: nat)
    requires TwoCalls(s, m, n) && FixPoint(s, n).value <= FixPoint(s, m).value
    ensures n <= |Twice(s, m, n)| && FixPoint(Twice(s, m, n), n).None?
  {
    var p, r, e := FixPoint(s, m).value, FixPoint(s, n).value, MatchEnd(s, n).value;
    var w := Twice(s, m, n);
    CallsInFront(s, m, n);
    PrefixKept(s, r, p);
    OwnRadixCounts(s, e, r, w);
    SameContext(s, w, n, r);
  }

  /** The outer call has no more to be fixed: its radix counts where it lands, or it is past fixing. */
  ghost predicate Settled(s: string, m: nat, n: nat)
    requires TwoCalls(s, m, n)
  {
    var e, y := MatchEnd(s, m).value, Landing(FixPoint(s, m).value, FixPoint(s, n).value);
    1 <= e <= y <= |s| && SettledAt(s, e, y)
  }

  lemma OuterIsSettledIff(s: string, m: nat, n: nat)
    requires TwoCalls(s, m, n) && FixPoint(s, n).value < FixPoint(s, m).value
    ensures m <= |Twice(s, m, n)| && (FixPoint(Twice(s, m, n), m).None? <==> Settled(s, m, n))
  {
    var p, r, e := FixPoint(s, m).value, FixPoint(s, n).value, MatchEnd(s, m).value;
    CallsInFront(s, m, n);
    PrefixKept(s, r, p);
    SameContext(s, Twice(s, m, n), m, r);
    OuterSettledIff(s, e, p, r);
  }

  lemma NothingLeftIff(s: string, m: nat, n: nat)
    requires TwoCalls(s, m, n) && FixPoint(s, n).value <= FixPoint(s, m).value
    ensures m <= |Twice(s, m, n)| && (Fixes(Twice(s, m, n)) == [] <==> FixPoint(Twice(s, m, n), m).None?)
  {
    var w := Twice(s, m, n);
    CallsInFront(s, m, n);
    PrefixKept(s, FixPoint(s, n).value, FixPoint(s, m).value);
    InnerIsSettled(s, m, n);
    if FixPoint(w, m).None? {
      forall y: nat | y < |w| ensures FixPoint(w, y).None? {
        if MatchEnd(w, y).Some? {
          NoOtherCall(s, m, n, y);
        }
      }
      NoFixesAfter(w, 0, |w|);
    } else {
      MoreFixes(w, m + 1, |w|);
    }
  }

  lemma SamePointSettles(s: string, m: nat, n: nat)
    requires TwoCalls(s, m, n) && FixPoint(s, m) == FixPoint(s, n)
    ensures m <= |Twice(s, m, n)| && FixPoint(Twice(s, m, n), m).None?
  {
    var p, e := FixPoint(s, m).value, MatchEnd(s, m).value;
    CallsInFront(s, m, n);
    PrefixKept(s, p, p);
    OwnRadixCounts(s, e, p, Twice(s, m, n));
    SameContext(s, Twice(s, m, n), m, p);
  }

  /**
   A file with two calls to fix and no others is left alone by a second pass exactly when the second call is
   not nested in the first, or the first call is settled by its radix where that lands.
   */
  lemma TwoCallsIdempotentIff(s: string, m: nat, n: nat)
    requires TwoCalls(s, m, n)
    ensures Rewrite(Rewrite(s)) == Rewrite(s) <==> FixPoint(s, m).value <= FixPoint(s, n).value || Settled(s, m, n)
  {
    var p, r := FixPoint(s, m).value, FixPoint(s, n).value;
    if p < r {
      TwoFixes(s, m, n);
      RewriteIdempotent(s);
    } else {
      IdempotentIffNothingLeft(s);
      RewriteIsTwice(s, m, n);
      NothingLeftIff(s, m, n);
      if p == r {
        SamePointSettles(s, m, n);
      } else {
        OuterIsSettledIff(s, m, n);
      }
    }
  }

  /**
   Unless the radix lands between a backslash and a quote of the string the scan is in, being settled means
   that it lands at the top level of the first call's arguments, outside any string. In
   `parseInt(parseInt(x)+"\"ab")` it does land there: the quote then ends the string, and the call stays open.
   */
  lemma SettledIffTop(s: string, m: nat, n: nat)
    requires TwoCalls(s, m, n) && FixPoint(s, n).value < FixPoint(s, m).value
    ensures var e, y := MatchEnd(s, m).value, Landing(FixPoint(s, m).value, FixPoint(s, n).value);
      && 1 <= e <= y < |s| && StateAt(s, e, 0, None, y).Some?
      && (!EscapedQuote(s, y, StateAt(s, e, 0, None, y).value)
        ==> (Settled(s, m, n) <==> IsTop(StateAt(s, e, 0, None, y).value)))
  {
    var p, r, e := FixPoint(s, m).value, FixPoint(s, n).value, MatchEnd(s, m).value;
    CallsInFront(s, m, n);
    StateExists(s, e, 0, None, e, Landing(p, r));
    FindIffCloses(s, e, 0, None, e);
    if !EscapedQuote(s, Landing(p, r), StateAt(s, e, 0, None, Landing(p, r)).value) {
      SettledAtIffTop(s, e, Landing(p, r), StateAt(s, e, 0, None, Landing(p, r)).value);
    }
  }

  /** Position y is a quote of the string that the scan is in, behind a backslash. */
  predicate EscapedQuote(s: string, y: nat, c: Scan) { 1 <= y < |s| && s[y - 1] == '\\' && c.inString == Some(s[y]) }

  lemma SettledAtIffTop(s: string, e: nat, y: nat, c: Scan)
    requires 1 <= e <= y < |s| && StateAt(s, e, 0, None, y) == Some(c) && !EscapedQuote(s, y, c)
    requires !HasRadixFrom(s, e, 0, None) && Closes(s, e, 0, None)
    ensures SettledAt(s, e, y) <==> IsTop(c)
  {
    StateGoesOn(s, e, 0, None, y, y);
    assert Behind(s, y)[1..] == s[y..];
    SameTail(s, y, Behind(s, y), 1, c.depth, c.inString);
  }

  /** When the outer call ends close behind the inner one, the second pass has something to do again. */
  lemma NearIsNotIdempotent(s: string, m: nat, n: nat)
    requires TwoCalls(s, m, n) && FixPoint(s, n).value < FixPoint(s, m).value < FixPoint(s, n).value + 4
    ensures Rewrite(Rewrite(s)) != Rewrite(s)
  {
    var p, r, e := FixPoint(s, m).value, FixPoint(s, n).value, MatchEnd(s, m).value;
    CallsInFront(s, m, n);
    InnerIsNotTop(s, e, p, r);
    StateGoesOn(s, e, 0, None, r, r);
    if IsSpace(s[r]) {
      SpaceIsNeutral(s[r]);
    }
    SettledIffTop(s, m, n);
    TwoCallsIdempotentIff(s, m, n);
  }

  // ---------- Nested calls ----------

  const NESTED: string := "parseInt(parseInt(x))"

  lemma NestedMatch()
    ensures MatchEnd(NESTED, 0) == Some(9) && MatchEnd(NESTED, 9) == Some(18)
  {
  }

  lemma NestedOuterTail()
    ensures FindFrom(NESTED, 14, 0, None, 14) == Some(20)
  {
  }

  lemma NestedOuter()
    ensures FindFrom(NESTED, 9, 0, None, 9) == Some(20)
  {
    NestedOuterTail();
  }

  lemma NestedOuterRadix()
    ensures !HasRadixFrom(NESTED, 9, 0, None)
  {
  }

  lemma NestedInner()
    ensures FindFrom(NESTED, 18, 0, None, 18) == Some(19) && !HasRadixFrom(NESTED, 18, 0, None)
  {
  }

  lemma {:induction false} PlainText(s: string, n: nat)
    requires n <= |s| && forall i :: 0 <= i < n ==> s[i] != '/' && s[i] != '\\' && !IsQuote(s[i])
    ensures !IsInComment(s, n) && StringState(s, n) == (None, false)
    ensures forall a, b :: a == '/' || b == '/' ==> LastPair(s, n, a, b) == -1
  {
    if n > 0 {
      PlainText(s, n - 1);
    }
  }

  lemma NestedPoints()
    ensures FixPoint(NESTED, 0) == Some(20) && FixPoint(NESTED, 9) == Some(19)
  {
    NestedMatch();
    PlainText(NESTED, 0);
    PlainText(NESTED, 9);
    NestedOuter();
    NestedOuterRadix();
    NestedInner();
  }

  const SPOILT: string := "parseInt(parseInt(x,, 10 10))"

  lemma NestedIsTwoCalls()
    ensures TwoCalls(NESTED, 0, 9) && FixPoint(NESTED, 0) == Some(20) && FixPoint(NESTED, 9) == Some(19)
  {
    NestedPoints();
    forall x: nat | x <= 21 && MatchEnd(NESTED, x).Some? ensures x == 0 || x == 9 {
      MatchChars(NESTED, x);
    }
  }

  /** Nested calls are spoilt, the outer radix landing inside the inner one, and a second pass spoils them further. */
  lemma NestedCallsAreSpoilt()
    ensures TwoCalls(NESTED, 0, 9) && Fixes(NESTED) == [20, 19]
    ensures Rewrite(NESTED) == SPOILT != AllAtOnce(NESTED, [20, 19])
    ensures Rewrite(Rewrite(NESTED)) != Rewrite(NESTED)
  {
    NestedIsTwoCalls();
    TwoFixes(NESTED, 0, 9);
    RewriteIsRightIff(NESTED);
    NestedText();
    NearIsNotIdempotent(NESTED, 0, 9);
  }

  lemma NestedInsertions()
    ensures Insert(Insert(NESTED, 19), 20) == SPOILT
  {
    assert Insert(NESTED, 19) == "parseInt(parseInt(x, 10))";
  }

  lemma TwiceIs(s: string, m: nat, n: nat, p: nat, r: nat)
    requires TwoCalls(s, m, n) && FixPoint(s, m) == Some(p) && FixPoint(s, n) == Some(r)
    ensures r <= |s| && p <= |s| && Rewrite(s) == Insert(Insert(s, r), p)
  {
    CallsInFront(s, m, n);
    RewriteIsTwice(s, m, n);
  }

  lemma NestedText()
    ensures Rewrite(NESTED) == SPOILT
  {
    NestedIsTwoCalls();
    TwiceIs(NESTED, 0, 9, 20, 19);
    NestedInsertions();
  }
}
