/**
 scripts/fix-parseint-radix.js, the rewriting: what one insertion changes for every call of the
 text, and that calls that are not nested are all fixed by one pass.
 */
module RadixFix {
  import opened JsCollections
  import opened RadixScan

  const RADIX: string := ", 10"

  function Insert(s: string, p: nat): (r: string)
    requires p <= |s|
    ensures |r| == |s| + 4
  {
    s[..p] + RADIX + s[p..]
  }

  lemma InsertChars(s: string, p: nat)
    requires p <= |s|
    ensures forall i :: 0 <= i < p ==> Insert(s, p)[i] == s[i]
    ensures Insert(s, p)[p] == ',' && Insert(s, p)[p + 1] == ' ' && Insert(s, p)[p + 2] == '1'
    ensures Insert(s, p)[p + 3] == '0'
    ensures forall i :: p <= i < |s| ==> Insert(s, p)[i + 4] == s[i]
    ensures Insert(s, p)[..p] == s[..p]
  {
  }

  ghost predicate QuoteOk(q: Option<char>) { q.Some? ==> IsQuote(q.value) }

  // ---------- The scan of a call that contains the insertion point ----------

  /** Inserting at the point found gives the call a radix. */
  lemma {:induction false} InsertionIsRadix(s: string, p: nat, i: nat, depth: nat, q: Option<char>, last: nat)
    requires 1 <= i <= p < |s| && last <= i && QuoteOk(q)
    requires FindFrom(s, i, depth, q, last) == Some(p)
    ensures HasRadixFrom(Insert(s, p), i, depth, q)
    decreases |s| - i
  {
    var t := Insert(s, p);
    assert t[i - 1] == s[i - 1];
    if i == p {
      AtInsertion(s, i, depth, q, last);
      assert t[i] == ',';
    } else {
      assert t[i] == s[i];
      var q' := Quote(q, s[i], s[i - 1]);
      var last' := if IsSpace(s[i]) then last else i + 1;
      var depth' := if q'.None? && s[i] == '(' then depth + 1 else if q'.None? && s[i] == ')' then depth - 1 else depth;
      InsertionIsRadix(s, p, i + 1, depth', q', last');
    }
  }

  /** Whether the scan meets the closing parenthesis at all. */
  function Closes(s: string, i: nat, depth: nat, inString: Option<char>): bool
    requires i >= 1
    decreases |s| - i
  {
    if i >= |s| then false
    else
      var q := Quote(inString, s[i], s[i - 1]);
      if q.None? && s[i] == '(' then Closes(s, i + 1, depth + 1, q)
      else if q.None? && s[i] == ')' then depth == 0 || Closes(s, i + 1, depth - 1, q)
      else Closes(s, i + 1, depth, q)
  }

  lemma {:induction false} FindIffCloses(s: string, i: nat, depth: nat, q: Option<char>, last: nat)
    requires i >= 1
    ensures FindFrom(s, i, depth, q, last).Some? <==> Closes(s, i, depth, q)
    decreases |s| - i
  {
    if i < |s| {
      var q' := Quote(q, s[i], s[i - 1]);
      var last' := if IsSpace(s[i]) then last else i + 1;
      if q'.None? && s[i] == '(' {
        FindIffCloses(s, i + 1, depth + 1, q', last');
      } else if q'.None? && s[i] == ')' {
        if depth > 0 {
          FindIffCloses(s, i + 1, depth - 1, q', last');
        }
      } else {
        FindIffCloses(s, i + 1, depth, q', last');
      }
    }
  }

  /** After the insertion point the scans run in step. */
  lemma {:induction false} ScanAfter(s: string, p: nat, i: nat, depth: nat, q: Option<char>)
    requires p < i && p <= |s|
    ensures HasRadixFrom(Insert(s, p), i + 4, depth, q) == HasRadixFrom(s, i, depth, q)
    ensures Closes(Insert(s, p), i + 4, depth, q) == Closes(s, i, depth, q)
    decreases |s| - i
  {
    var t := Insert(s, p);
    if i < |s| {
      assert t[i + 4] == s[i] && t[i + 3] == s[i - 1];
      var q' := Quote(q, s[i], s[i - 1]);
      if q'.None? && s[i] == '(' {
        ScanAfter(s, p, i + 1, depth + 1, q');
      } else if q'.None? && s[i] == ')' {
        if depth > 0 {
          ScanAfter(s, p, i + 1, depth - 1, q');
        }
      } else {
        ScanAfter(s, p, i + 1, depth, q');
      }
    }
  }

  /** A character that changes nothing about a scan. */
  ghost predicate Neutral(c: char) { !IsQuote(c) && c != '(' && c != ')' && c != ',' }

  lemma NeutralStep(t: string, i: nat, depth: nat, q: Option<char>)
    requires 1 <= i < |t| && QuoteOk(q) && Neutral(t[i])
    ensures HasRadixFrom(t, i, depth, q) == HasRadixFrom(t, i + 1, depth, q)
    ensures Closes(t, i, depth, q) == Closes(t, i + 1, depth, q)
  {
  }

  /** At the insertion point: the new comma counts, or is passed over. */
  lemma ScanAt(s: string, p: nat, depth: nat, q: Option<char>)
    requires 1 <= p && BeforeClose(s, p) && QuoteOk(q)
    ensures HasRadixFrom(s, p, depth, q) ==> HasRadixFrom(Insert(s, p), p, depth, q)
    ensures Closes(Insert(s, p), p, depth, q) == Closes(s, p, depth, q)
  {
    var t := Insert(s, p);
    InsertChars(s, p);
    NeutralStep(t, p + 1, depth, q);
    NeutralStep(t, p + 2, depth, q);
    NeutralStep(t, p + 3, depth, q);
    assert t[p + 4] == s[p];
    assert IsSpace(s[p]) || s[p] == ')';
    assert Quote(q, s[p], s[p - 1]) == q == Quote(q, s[p], '0');
    if s[p] == ')' {
      if depth > 0 {
        ScanAfter(s, p, p + 1, depth - 1, q);
      }
      ScanAfter(s, p, p + 1, depth, q);
    } else {
      SpaceIsNeutral(s[p]);
      NeutralStep(s, p, depth, q);
      NeutralStep(t, p + 4, depth, q);
      ScanAfter(s, p, p + 1, depth, q);
    }
  }

  /** An insertion never takes a radix away and never closes an open call. */
  lemma {:induction false} ScanUpTo(s: string, p: nat, i: nat, depth: nat, q: Option<char>)
    requires 1 <= i <= p && BeforeClose(s, p) && QuoteOk(q)
    ensures HasRadixFrom(s, i, depth, q) ==> HasRadixFrom(Insert(s, p), i, depth, q)
    ensures Closes(Insert(s, p), i, depth, q) == Closes(s, i, depth, q)
    decreases p - i
  {
    var t := Insert(s, p);
    if i == p {
      ScanAt(s, p, depth, q);
    } else {
      assert t[i] == s[i] && t[i - 1] == s[i - 1];
      var q' := Quote(q, s[i], s[i - 1]);
      if q'.None? && s[i] == '(' {
        ScanUpTo(s, p, i + 1, depth + 1, q');
      } else if q'.None? && s[i] == ')' {
        if depth > 0 {
          ScanUpTo(s, p, i + 1, depth - 1, q');
        }
      } else {
        ScanUpTo(s, p, i + 1, depth, q');
      }
    }
  }

  // ---------- The scan of a call that ends before the insertion point ----------

  lemma {:induction false} SkipStops(s: string, i: nat, e: nat)
    requires i <= e < |s| && !IsSpace(s[e])
    requires forall k :: i <= k < e ==> IsSpace(s[k])
    ensures SkipSpace(s, i) == e
    decreases e - i
  {
    if i < e {
      SkipStops(s, i + 1, e);
    }
  }

  lemma {:induction false} SkipsSpaces(s: string, i: nat)
    requires i <= |s|
    ensures forall k :: i <= k < SkipSpace(s, i) ==> IsSpace(s[k])
    decreases |s| - i
  {
    if i < |s| && IsSpace(s[i]) {
      SkipsSpaces(s, i + 1);
    }
  }

  ghost predicate Tight(s: string, i: nat, last: nat) {
    && 1 <= last <= i <= |s| && !IsSpace(s[last - 1])
    && forall k :: last <= k < i ==> IsSpace(s[k])
  }

  /** The point found: behind a non-space, its closing parenthesis not before the scan's position. */
  lemma {:induction false} PointFound(s: string, i: nat, depth: nat, q: Option<char>, last: nat)
    requires Tight(s, i, last) && FindFrom(s, i, depth, q, last).Some?
    ensures var p := FindFrom(s, i, depth, q, last).value;
      last <= p < |s| && !IsSpace(s[p - 1]) && BeforeClose(s, p) && SkipSpace(s, p) >= i
    decreases |s| - i
  {
    var q' := Quote(q, s[i], s[i - 1]);
    if q'.None? && s[i] == ')' && depth == 0 {
      SkipStops(s, last, i);
    } else {
      var last' := if IsSpace(s[i]) then last else i + 1;
      var depth' := if q'.None? && s[i] == '(' then depth + 1 else if q'.None? && s[i] == ')' then depth - 1 else depth;
      PointFound(s, i + 1, depth', q', last');
    }
  }

  /**
   A call whose closing parenthesis comes before n is scanned
   alike in every text with the same first n characters.
   */
  lemma {:induction false} SamePrefix(s: string, t: string, n: nat, i: nat, depth: nat, q: Option<char>, last: nat)
    requires n <= |s| && n <= |t| && s[..n] == t[..n]
    requires Tight(s, i, last) && FindFrom(s, i, depth, q, last).Some?
    requires var p := FindFrom(s, i, depth, q, last).value; p <= |s| && SkipSpace(s, p) < n
    ensures FindFrom(t, i, depth, q, last) == FindFrom(s, i, depth, q, last)
    ensures HasRadixFrom(t, i, depth, q) == HasRadixFrom(s, i, depth, q)
    decreases |s| - i
  {
    PointFound(s, i, depth, q, last);
    assert i < n;
    assert s[i] == s[..n][i] == t[i] && s[i - 1] == s[..n][i - 1] == t[i - 1];
    var q' := Quote(q, s[i], s[i - 1]);
    if !(q'.None? && s[i] == ')' && depth == 0) {
      var last' := if IsSpace(s[i]) then last else i + 1;
      var depth' := if q'.None? && s[i] == '(' then depth + 1 else if q'.None? && s[i] == ')' then depth - 1 else depth;
      SamePrefix(s, t, n, i + 1, depth', q', last');
    }
  }

  // ---------- Matches ----------

  ghost predicate MatchChar(c: char) { c in NAME || IsSpace(c) || c == '(' }

  lemma MatchChars(s: string, m: nat)
    requires MatchEnd(s, m).Some?
    ensures forall k :: m <= k < MatchEnd(s, m).value ==> MatchChar(s[k])
    ensures s[m] == 'p' && forall k :: m < k < MatchEnd(s, m).value ==> s[k] != 'p'
    ensures forall k :: m + 8 <= k < MatchEnd(s, m).value - 1 ==> IsSpace(s[k])
  {
    var e := MatchEnd(s, m).value;
    SkipsSpaces(s, m + 8);
    forall k | m <= k < m + 8 ensures s[k] == NAME[k - m] {
      assert s[m..m + 8][k - m] == s[k];
    }
    forall k | m + 8 <= k < e - 1 ensures IsSpace(s[k]) && s[k] != 'p' {
      SpaceIsNeutral(s[k]);
    }
  }

  lemma {:induction false} SkipSame(s: string, t: string, i: nat, n: nat)
    requires i <= n <= |s| && n <= |t| && s[..n] == t[..n] && SkipSpace(s, i) < n
    ensures SkipSpace(t, i) == SkipSpace(s, i)
    decreases |s| - i
  {
    assert s[i] == s[..n][i] == t[i];
    if IsSpace(s[i]) {
      SkipSame(s, t, i + 1, n);
    }
  }

  lemma MatchSame(s: string, t: string, m: nat, n: nat)
    requires n <= |s| && n <= |t| && s[..n] == t[..n]
    requires MatchEnd(s, m).Some? && MatchEnd(s, m).value <= n
    ensures MatchEnd(t, m) == MatchEnd(s, m)
  {
    forall k | m <= k < m + 8 ensures s[k] == t[k] {
      assert s[k] == s[..n][k];
    }
    assert t[m..m + 8] == s[m..m + 8];
    SkipSame(s, t, m + 8, n);
    var j := SkipSpace(s, m + 8);
    assert s[j] == s[..n][j] == t[j];
  }

  lemma {:induction false} SkipShift(s: string, p: nat, i: nat)
    requires p <= i <= |s|
    ensures SkipSpace(Insert(s, p), i + 4) == SkipSpace(s, i) + 4
    decreases |s| - i
  {
    if i < |s| && IsSpace(s[i]) {
      SkipShift(s, p, i + 1);
    }
  }

  lemma MatchShift(s: string, p: nat, m: nat)
    requires p <= m <= |s|
    ensures MatchEnd(Insert(s, p), m + 4) == match MatchEnd(s, m) case None => None case Some(e) => Some(e + 4)
  {
    var t := Insert(s, p);
    if m + 8 <= |s| {
      assert t[m + 4..m + 12] == s[m..m + 8];
      SkipShift(s, p, m + 8);
    }
  }

  /** A match that starts before the insertion point ends before it, in either text. */
  lemma MatchBefore(s: string, p: nat, m: nat)
    requires BeforeClose(s, p) && m < p
    ensures MatchEnd(Insert(s, p), m) == MatchEnd(s, m)
    ensures MatchEnd(s, m).Some? ==> MatchEnd(s, m).value <= p
  {
    var t := Insert(s, p);
    InsertChars(s, p);
    if MatchEnd(s, m).Some? {
      MatchClear(s, p, m);
      MatchSame(s, t, m, p);
    }
    if MatchEnd(t, m).Some? {
      MatchChars(t, m);
      assert MatchEnd(t, m).value <= p by {
        assert !MatchChar(',');
      }
      MatchSame(t, s, m, p);
    }
  }

  lemma MatchClear(s: string, p: nat, m: nat)
    requires BeforeClose(s, p) && m < p && MatchEnd(s, m).Some?
    ensures MatchEnd(s, m).value <= p
  {
    var e := MatchEnd(s, m).value;
    MatchChars(s, m);
    if m + 8 <= p < e {
      SkipStops(s, p, e - 1);
    }
  }

  // ---------- Comments and strings ----------

  lemma {:induction false} PrefixContext(s: string, t: string, n: nat, k: nat)
    requires k <= n <= |s| && n <= |t| && s[..n] == t[..n]
    ensures LastNewline(t, k) == LastNewline(s, k) && StringState(t, k) == StringState(s, k)
    ensures forall a, b :: LastPair(t, k, a, b) == LastPair(s, k, a, b)
  {
    if k > 0 {
      PrefixContext(s, t, n, k - 1);
      assert s[k - 1] == s[..n][k - 1] == t[k - 1];
      if k >= 2 {
        assert s[k - 2] == s[..n][k - 2] == t[k - 2];
      }
    }
  }

  function Shifted(i: int, p: nat): int { if i < p then i else i + 4 }

  lemma {:induction false} NewlineShift(s: string, p: nat, n: nat)
    requires p <= n <= |s|
    ensures LastNewline(Insert(s, p), n + 4) == Shifted(LastNewline(s, n), p)
  {
    var t := Insert(s, p);
    InsertChars(s, p);
    if n == p {
      PrefixContext(s, t, p, p);
      assert LastNewline(t, p + 4) == LastNewline(t, p + 3) == LastNewline(t, p + 2) == LastNewline(t, p + 1)
        == LastNewline(t, p);
      NewlineBelow(s, p);
    } else {
      NewlineShift(s, p, n - 1);
      assert t[n + 3] == s[n - 1];
    }
  }

  lemma {:induction false} NewlineBelow(s: string, n: nat)
    requires n <= |s|
    ensures LastNewline(s, n) < n
  {
    if n > 0 {
      NewlineBelow(s, n - 1);
    }
  }

  lemma {:induction false} PairBelow(s: string, n: nat, a: char, b: char)
    requires n <= |s|
    ensures LastPair(s, n, a, b) <= n - 2 || LastPair(s, n, a, b) == -1
  {
    if n >= 2 {
      PairBelow(s, n - 1, a, b);
    }
  }

  /** Neither comment mark can be split by the insertion, nor made by it. */
  lemma {:induction false} PairShift(s: string, p: nat, n: nat, a: char, b: char)
    requires BeforeClose(s, p) && p <= n <= |s| && b in "/*"
    ensures LastPair(Insert(s, p), n + 4, a, b) == Shifted(LastPair(s, n, a, b), p)
  {
    var t := Insert(s, p);
    InsertChars(s, p);
    if n == p {
      PrefixContext(s, t, p, p);
      assert LastPair(t, p + 4, a, b) == LastPair(t, p + 3, a, b) == LastPair(t, p + 2, a, b);
      assert LastPair(t, p + 2, a, b) == LastPair(t, p + 1, a, b) == LastPair(t, p, a, b);
      PairBelow(s, p, a, b);
    } else {
      PairShift(s, p, n - 1, a, b);
      assert t[n + 3] == s[n - 1];
      if n - 1 > p {
        assert t[n + 2] == s[n - 2];
      } else {
        if IsSpace(s[p]) {
          SpaceIsNeutral(s[p]);
        }
        assert s[p] != b;
      }
    }
  }

  lemma {:induction false} StringShift(s: string, p: nat, n: nat)
    requires BeforeClose(s, p) && p < n <= |s|
    ensures StringState(Insert(s, p), n + 4) == StringState(s, n)
  {
    var t := Insert(s, p);
    InsertChars(s, p);
    assert t[n + 3] == s[n - 1];
    if n == p + 1 {
      PrefixContext(s, t, p, p);
      StringQuote(s, p);
      var q := StringState(s, p).0;
      assert StringState(t, p + 1) == (q, false);
      assert StringState(t, p + 2) == (q, false);
      assert StringState(t, p + 3) == (q, false);
      assert StringState(t, p + 4) == (q, false);
      if IsSpace(s[p]) {
        SpaceIsNeutral(s[p]);
      }
      assert StringState(s, p + 1) == (q, false);
    } else {
      StringShift(s, p, n - 1);
    }
  }

  lemma {:induction false} StringQuote(s: string, n: nat)
    requires n <= |s|
    ensures QuoteOk(StringState(s, n).0)
  {
    if n > 0 {
      StringQuote(s, n - 1);
    }
  }

  lemma CommentShift(s: string, p: nat, n: nat)
    requires BeforeClose(s, p) && p < n <= |s|
    ensures IsInComment(Insert(s, p), n + 4) == IsInComment(s, n)
  {
    NewlineShift(s, p, n);
    PairShift(s, p, n, '/', '/');
    PairShift(s, p, n, '/', '*');
    PairShift(s, p, n, '*', '/');
  }

  // ---------- One insertion, all calls ----------

  lemma PointOfCall(s: string, m: nat)
    requires m <= |s| && FixPoint(s, m).Some?
    ensures var p := FixPoint(s, m).value;
      && MatchEnd(s, m).Some? && MatchEnd(s, m).value <= p < |s|
      && BeforeClose(s, p) && !IsSpace(s[p - 1])
  {
    var e := MatchEnd(s, m).value;
    PointFound(s, e, 0, None, e);
  }

  /** The fixed call has its radix now. */
  lemma OwnCallIsFixed(s: string, m: nat)
    requires m <= |s| && FixPoint(s, m).Some?
    ensures var p := FixPoint(s, m).value; p <= |s| && FixPoint(Insert(s, p), m).None?
  {
    var p := FixPoint(s, m).value;
    PointOfCall(s, m);
    var e := MatchEnd(s, m).value;
    MatchBefore(s, p, m);
    InsertionIsRadix(s, p, e, 0, None, e);
  }

  /** A call before the insertion point that needed no fix needs none now. */
  lemma EarlierStaysFixed(s: string, p: nat, m: nat)
    requires p >= 1 && BeforeClose(s, p) && m < p && FixPoint(s, m).None?
    ensures FixPoint(Insert(s, p), m).None?
  {
    var t := Insert(s, p);
    InsertChars(s, p);
    MatchBefore(s, p, m);
    if MatchEnd(s, m).Some? {
      var e := MatchEnd(s, m).value;
      PrefixContext(s, t, p, m);
      ScanUpTo(s, p, e, 0, None);
      FindIffCloses(s, e, 0, None, e);
      FindIffCloses(t, e, 0, None, e);
    }
  }

  /** A call that closes before the insertion point keeps its own point. */
  lemma EarlierKeepsPoint(s: string, p: nat, m: nat)
    requires p >= 1 && BeforeClose(s, p) && !IsSpace(s[p - 1])
    requires m <= |s| && FixPoint(s, m).Some? && FixPoint(s, m).value < p
    ensures FixPoint(Insert(s, p), m) == FixPoint(s, m)
  {
    var t, r := Insert(s, p), FixPoint(s, m).value;
    InsertChars(s, p);
    PointOfCall(s, m);
    var e := MatchEnd(s, m).value;
    MatchBefore(s, p, m);
    PrefixContext(s, t, p, m);
    SkipsSpaces(s, r);
    PointFound(s, e, 0, None, e);
    SamePrefix(s, t, p, e, 0, None, e);
  }

  lemma LaterCallShifts(s: string, p: nat, x: nat)
    requires p >= 1 && BeforeClose(s, p) && p <= x <= |s| && MatchEnd(s, x).Some?
    ensures FixPoint(s, x).None? ==> FixPoint(Insert(s, p), x + 4).None?
  {
    var e := MatchEnd(s, x).value;
    MatchShift(s, p, x);
    assert x != p by {
      MatchChars(s, x);
      if IsSpace(s[p]) {
        SpaceIsNeutral(s[p]);
      }
    }
    CommentShift(s, p, x);
    StringShift(s, p, x);
    ScanAfter(s, p, e, 0, None);
    FindIffCloses(s, e, 0, None, e);
    FindIffCloses(Insert(s, p), e + 4, 0, None, e + 4);
  }

  /** Nothing new needs fixing inside or behind the insertion. */
  lemma LaterStaysFixed(s: string, p: nat, m: nat)
    requires p >= 1 && BeforeClose(s, p) && p <= m <= |Insert(s, p)|
    requires m >= p + 4 ==> FixPoint(s, m - 4).None?
    ensures FixPoint(Insert(s, p), m).None?
  {
    if m >= p + 4 {
      MatchShift(s, p, m - 4);
      if MatchEnd(s, m - 4).Some? {
        LaterCallShifts(s, p, m - 4);
      }
    } else {
      InsertChars(s, p);
      if MatchEnd(Insert(s, p), m).Some? {
        MatchChars(Insert(s, p), m);
      }
    }
  }

  // ---------- The list of fixes ----------

  /** The last call to fix. */
  lemma {:induction false} LastFix(s: string, n: nat) returns (m: nat)
    requires n <= |s| && FixesBefore(s, n) != []
    ensures m < n && FixPoint(s, m).Some?
    ensures FixesBefore(s, n) == FixesBefore(s, m) + [FixPoint(s, m).value]
    ensures forall x :: m < x < n ==> FixPoint(s, x).None?
  {
    if FixPoint(s, n - 1).Some? {
      m := n - 1;
    } else {
      m := LastFix(s, n - 1);
    }
  }

  ghost predicate Increasing(points: seq<nat>) {
    forall i, j :: 0 <= i < j < |points| ==> points[i] < points[j]
  }

  lemma {:induction false} EarlierFixesKept(s: string, p: nat, n: nat)
    requires p >= 1 && BeforeClose(s, p) && !IsSpace(s[p - 1]) && n <= p
    requires forall i :: 0 <= i < |FixesBefore(s, n)| ==> FixesBefore(s, n)[i] < p
    ensures FixesBefore(Insert(s, p), n) == FixesBefore(s, n)
  {
    if n > 0 {
      var before := FixesBefore(s, n - 1);
      assert forall i :: 0 <= i < |before| ==> before[i] == FixesBefore(s, n)[i];
      EarlierFixesKept(s, p, n - 1);
      if FixPoint(s, n - 1).Some? {
        assert FixesBefore(s, n)[|before|] == FixPoint(s, n - 1).value;
        EarlierKeepsPoint(s, p, n - 1);
      } else {
        EarlierStaysFixed(s, p, n - 1);
      }
    }
  }

  lemma {:induction false} NoFixesAfter(t: string, m: nat, n: nat)
    requires m <= n <= |t| && forall x :: m <= x < n ==> FixPoint(t, x).None?
    ensures FixesBefore(t, n) == FixesBefore(t, m)
  {
    if m < n {
      NoFixesAfter(t, m, n - 1);
    }
  }

  /** Inserting at the last of increasing points removes exactly that fix. */
  lemma InsertRemovesLast(s: string)
    requires Fixes(s) != [] && Increasing(Fixes(s))
    ensures var p := Fixes(s)[|Fixes(s)| - 1];
      p <= |s| && Fixes(Insert(s, p)) == Fixes(s)[..|Fixes(s)| - 1]
  {
    var m := LastFix(s, |s|);
    var p := FixPoint(s, m).value;
    PointOfCall(s, m);
    var before := FixesBefore(s, m);
    forall i | 0 <= i < |before| ensures before[i] < p {
      assert Fixes(s)[i] == before[i] && Fixes(s)[|before|] == p;
    }
    EarlierFixesKept(s, p, m);
    var t := Insert(s, p);
    forall x | m <= x < |t| ensures FixPoint(t, x).None? {
      if x == m {
        OwnCallIsFixed(s, m);
      } else if x < p {
        EarlierStaysFixed(s, p, x);
      } else {
        LaterStaysFixed(s, p, x);
      }
    }
    NoFixesAfter(t, m, |t|);
    assert Fixes(s)[..|Fixes(s)| - 1] == before;
  }

  // ---------- Rewriting a file ----------

  ghost predicate Inside(s: string, points: seq<nat>) {
    forall i :: 0 <= i < |points| ==> points[i] <= |s|
  }

  /** `for (const fix of fixes.reverse())`: the last point first. */
  function ApplyReversed(s: string, points: seq<nat>): string
    requires Inside(s, points)
    decreases |points|
  {
    if points == [] then s
    else ApplyReversed(Insert(s, points[|points| - 1]), points[..|points| - 1])
  }

  lemma {:induction false} FixesInside(s: string, n: nat)
    requires n <= |s|
    ensures Inside(s, FixesBefore(s, n))
  {
    if n > 0 {
      FixesInside(s, n - 1);
      if FixPoint(s, n - 1).Some? {
        PointOfCall(s, n - 1);
      }
    }
  }

  /** What processFile writes back. */
  function Rewrite(s: string): string {
    FixesInside(s, |s|);
    ApplyReversed(s, Fixes(s))
  }

  method ProcessFile(content: string) returns (newContent: string, fixes: nat)
    ensures newContent == Rewrite(content) && fixes == |Fixes(content)|
  {
    var points: seq<nat> := [];
    for m := 0 to |content|
      invariant points == FixesBefore(content, m)
    {
      var e := MatchEnd(content, m);
      if e.Some? {
        var fullMatch := content[m..e.value];
        var inString := IsInString(content, m);
        var hasRadix := HasRadix(content, m, fullMatch);
        if !IsInComment(content, m) && !inString && !hasRadix {
          var insertPoint := FindInsertionPoint(content, m, fullMatch);
          if insertPoint.Some? {
            points := points + [insertPoint.value];
          }
        }
      }
    }
    FixesInside(content, |content|);
    fixes := |points|;
    newContent := content;
    while points != []
      invariant Inside(newContent, points)
      invariant ApplyReversed(newContent, points) == Rewrite(content)
      decreases |points|
    {
      newContent := Insert(newContent, points[|points| - 1]);
      points := points[..|points| - 1];
    }
  }

  /** With increasing points one pass fixes every call: nothing is left to fix. */
  lemma {:induction false} IncreasingLeavesNothing(s: string, k: nat)
    requires Increasing(Fixes(s)) && k == |Fixes(s)|
    ensures Fixes(Rewrite(s)) == []
    decreases k
  {
    FixesInside(s, |s|);
    if k > 0 {
      var p := Fixes(s)[k - 1];
      InsertRemovesLast(s);
      var t := Insert(s, p);
      IncreasingLeavesNothing(t, k - 1);
      assert Rewrite(s) == Rewrite(t);
    }
  }

  /** The rewriter is idempotent on every file whose insertion points increase. */
  lemma RewriteIdempotent(s: string)
    requires Increasing(Fixes(s))
    ensures Rewrite(Rewrite(s)) == Rewrite(s)
  {
    IncreasingLeavesNothing(s, |Fixes(s)|);
  }

  // ---------- The text before a point ----------

  lemma PassOver(s: string, i: nat, depth: nat, q: Option<char>, last: nat)
    requires 1 <= i < |s| && QuoteOk(q) && !IsQuote(s[i]) && s[i] != '(' && s[i] != ')'
    ensures FindFrom(s, i, depth, q, last) == FindFrom(s, i + 1, depth, q, if IsSpace(s[i]) then last else i + 1)
  {
  }

  /** The text of a call without radix does not end in the text that is inserted. */
  lemma {:induction false} NotRadixAlready(s: string, i: nat, depth: nat, q: Option<char>, last: nat, p: nat)
    requires 1 <= i && last <= i <= p - 4 && p <= |s| && QuoteOk(q)
    requires FindFrom(s, i, depth, q, last) == Some(p) && !HasRadixFrom(s, i, depth, q)
    ensures s[p - 4..p] != RADIX
    decreases p - i
  {
    var q' := Quote(q, s[i], s[i - 1]);
    if i < p - 4 {
      var last' := if IsSpace(s[i]) then last else i + 1;
      var depth' := if q'.None? && s[i] == '(' then depth + 1 else if q'.None? && s[i] == ')' then depth - 1 else depth;
      NotRadixAlready(s, i + 1, depth', q', last', p);
    } else if s[p - 4..p] == RADIX {
      assert s[i] == s[p - 4..p][0] && s[i + 1] == s[p - 4..p][1] && s[i + 2] == s[p - 4..p][2]
        && s[i + 3] == s[p - 4..p][3];
      PassOver(s, i, depth, q, last);
      PassOver(s, i + 1, depth, q, i + 1);
      PassOver(s, i + 2, depth, q, i + 1);
      PassOver(s, i + 3, depth, q, i + 3);
      AtInsertion(s, p, depth, q, p);
      assert false;
    }
  }

  lemma MatchesDisjoint(s: string, m: nat, n: nat)
    requires m < n && MatchEnd(s, m).Some? && MatchEnd(s, n).Some?
    ensures MatchEnd(s, m).value <= n
  {
    MatchChars(s, m);
    MatchChars(s, n);
  }
}
