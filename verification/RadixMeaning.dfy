/**
 scripts/fix-parseint-radix.js, what the scanners look for, said of the text itself: where a call closes, what a
 radix is, when a position is in a comment and when in a string.
 */
module RadixMeaning {
  import opened JsCollections
  import opened RadixScan

  // ---------- The call ----------

  /** The string a scan from e is in at k, before it reads the character there. */
  function InsideAt(s: string, e: nat, k: nat): Option<char>
    requires 1 <= e <= k <= |s|
  {
    if k == e then None else Quote(InsideAt(s, e, k - 1), s[k - 1], s[k - 2])
  }

  /** The character at k counts: it is not part of a string. A closing quote does, an opening one does not. */
  predicate Plain(s: string, e: nat, k: nat)
    requires 1 <= e <= k < |s|
  {
    InsideAt(s, e, k + 1).None?
  }

  /** Parentheses opened less those closed between e and k, outside strings. */
  function DepthAt(s: string, e: nat, k: nat): int
    requires 1 <= e <= k <= |s|
  {
    if k == e then 0
    else
      DepthAt(s, e, k - 1)
        + if Plain(s, e, k - 1) && s[k - 1] == '(' then 1 else if Plain(s, e, k - 1) && s[k - 1] == ')' then -1 else 0
  }

  /** The parenthesis at k matches the one before e. */
  predicate Closes(s: string, e: nat, k: nat)
    requires 1 <= e <= k < |s|
  {
    Plain(s, e, k) && s[k] == ')' && DepthAt(s, e, k) == 0
  }

  ghost predicate OpenUntil(s: string, e: nat, k: nat)
    requires 1 <= e <= k <= |s|
  {
    forall j :: e <= j < k ==> !Closes(s, e, j)
  }

  lemma {:induction false} OpenIsDeep(s: string, e: nat, k: nat)
    requires 1 <= e <= k <= |s| && OpenUntil(s, e, k)
    ensures DepthAt(s, e, k) >= 0
  {
    if k > e {
      OpenIsDeep(s, e, k - 1);
      assert !Closes(s, e, k - 1);
    }
  }

  /** A comma between the arguments of the call that opens before e. */
  ghost predicate CommaAt(s: string, e: nat, k: nat) {
    1 <= e <= k < |s| && s[k] == ',' && Plain(s, e, k) && DepthAt(s, e, k) == 0 && OpenUntil(s, e, k)
  }

  lemma {:induction false} CommaFrom(s: string, e: nat, i: nat)
    requires 1 <= e <= i <= |s| && OpenUntil(s, e, i) && DepthAt(s, e, i) >= 0
    ensures HasRadixFrom(s, i, DepthAt(s, e, i), InsideAt(s, e, i)) <==> exists k :: i <= k && CommaAt(s, e, k)
    decreases |s| - i
  {
    if i < |s| {
      if Closes(s, e, i) {
        forall k | i <= k && CommaAt(s, e, k) ensures false {
          assert k != i;
        }
      } else {
        assert OpenUntil(s, e, i + 1);
        OpenIsDeep(s, e, i + 1);
        CommaFrom(s, e, i + 1);
        if CommaAt(s, e, i) {
          assert exists k :: i <= k && CommaAt(s, e, k);
        } else {
          assert forall k :: i <= k && CommaAt(s, e, k) ==> i + 1 <= k;
        }
      }
    }
  }

  /** hasRadix: there is a comma at the top level of the call, outside strings, before the call closes. */
  lemma HasRadixIff(s: string, e: nat)
    requires 1 <= e <= |s|
    ensures HasRadixFrom(s, e, 0, None) <==> exists k :: CommaAt(s, e, k)
  {
    CommaFrom(s, e, e);
  }

  /** The end of the last character before k, from e on, that is no space; e if there is none. */
  function SolidEnd(s: string, e: nat, k: nat): nat
    requires e <= k <= |s|
  {
    if k == e then e else if IsSpace(s[k - 1]) then SolidEnd(s, e, k - 1) else k
  }

  ghost predicate ClosesFirst(s: string, e: nat, k: nat) {
    1 <= e <= k < |s| && Closes(s, e, k) && OpenUntil(s, e, k)
  }

  lemma {:induction false} CloseFrom(s: string, e: nat, i: nat)
    requires 1 <= e <= i <= |s| && OpenUntil(s, e, i) && DepthAt(s, e, i) >= 0
    ensures var r := FindFrom(s, i, DepthAt(s, e, i), InsideAt(s, e, i), SolidEnd(s, e, i));
      && (r.Some? <==> exists k :: i <= k && ClosesFirst(s, e, k))
      && forall k :: i <= k && ClosesFirst(s, e, k) ==> r == Some(SolidEnd(s, e, k))
    decreases |s| - i
  {
    if i < |s| {
      if Closes(s, e, i) {
        assert ClosesFirst(s, e, i);
        forall k | i <= k && ClosesFirst(s, e, k) ensures k == i {
        }
      } else {
        assert OpenUntil(s, e, i + 1);
        OpenIsDeep(s, e, i + 1);
        CloseFrom(s, e, i + 1);
        assert forall k :: i <= k && ClosesFirst(s, e, k) ==> i + 1 <= k;
      }
    }
  }

  /**
   findInsertionPoint: behind the last character of the call that is no space, if the call closes. It does where
   as many parentheses have been closed as opened, outside strings.
   */
  lemma InsertionIff(s: string, e: nat)
    requires 1 <= e <= |s|
    ensures var r := FindFrom(s, e, 0, None, e);
      && (r.Some? <==> exists k :: ClosesFirst(s, e, k))
      && forall k :: ClosesFirst(s, e, k) ==> r == Some(SolidEnd(s, e, k))
  {
    CloseFrom(s, e, e);
  }

  // ---------- Comments ----------

  predicate PairAt(s: string, i: nat, a: char, b: char) { i + 2 <= |s| && s[i] == a && s[i + 1] == b }

  lemma {:induction false} LastPairIs(s: string, n: nat, a: char, b: char)
    requires n <= |s|
    ensures var p := LastPair(s, n, a, b);
      && -1 <= p && (p >= 0 ==> p + 2 <= n && PairAt(s, p, a, b))
      && forall i: nat :: p < i && i + 2 <= n ==> !PairAt(s, i, a, b)
  {
    if n >= 2 && !(s[n - 2] == a && s[n - 1] == b) {
      LastPairIs(s, n - 1, a, b);
    }
  }

  lemma {:induction false} LastNewlineIs(s: string, n: nat)
    requires n <= |s|
    ensures var p := LastNewline(s, n);
      && -1 <= p < n && (p >= 0 ==> s[p] == '\n') && forall i :: p < i < n ==> s[i] != '\n'
  {
    if n > 0 && s[n - 1] != '\n' {
      LastNewlineIs(s, n - 1);
    }
  }

  /** Two slashes before n on the same line. */
  ghost predicate LineComment(s: string, n: nat)
    requires n <= |s|
  {
    exists i: nat :: i + 2 <= n && PairAt(s, i, '/', '/') && forall j :: i <= j < n ==> s[j] != '\n'
  }

  /** A block comment opened before n, with nothing closed after it. */
  ghost predicate BlockComment(s: string, n: nat)
    requires n <= |s|
  {
    exists i: nat :: i + 2 <= n && PairAt(s, i, '/', '*')
      && forall j: nat :: i <= j && j + 2 <= n ==> !PairAt(s, j, '*', '/')
  }

  lemma LineCommentIff(s: string, n: nat)
    requires n <= |s|
    ensures LastPair(s, n, '/', '/') >= 0 && LastPair(s, n, '/', '/') >= LastNewline(s, n) <==> LineComment(s, n)
  {
    var p, k := LastPair(s, n, '/', '/'), LastNewline(s, n);
    LastPairIs(s, n, '/', '/');
    LastNewlineIs(s, n);
    if p >= 0 && p >= k {
      assert PairAt(s, p, '/', '/') && forall j :: p <= j < n ==> s[j] != '\n';
    }
    if LineComment(s, n) {
      var i: nat :| i + 2 <= n && PairAt(s, i, '/', '/') && forall j :: i <= j < n ==> s[j] != '\n';
      assert i <= p && k < i;
    }
  }

  lemma BlockCommentIff(s: string, n: nat)
    requires n <= |s|
    ensures LastPair(s, n, '/', '*') > LastPair(s, n, '*', '/') <==> BlockComment(s, n)
  {
    var p, q := LastPair(s, n, '/', '*'), LastPair(s, n, '*', '/');
    LastPairIs(s, n, '/', '*');
    LastPairIs(s, n, '*', '/');
    if BlockComment(s, n) {
      var i: nat :| i + 2 <= n && PairAt(s, i, '/', '*')
        && forall j: nat :: i <= j && j + 2 <= n ==> !PairAt(s, j, '*', '/');
      assert i <= p && q < i;
    }
  }

  /** isInComment: behind two slashes on the line, or behind a block comment's start with no end since. */
  lemma InCommentIff(s: string, n: nat)
    requires n <= |s|
    ensures IsInComment(s, n) <==> LineComment(s, n) || BlockComment(s, n)
  {
    LineCommentIff(s, n);
    BlockCommentIff(s, n);
  }

  // ---------- Strings ----------

  /** How many backslashes stand together just before n. */
  function Backslashes(s: string, n: nat): nat
    requires n <= |s|
  {
    if n == 0 || s[n - 1] != '\\' then 0 else Backslashes(s, n - 1) + 1
  }

  /** A character is escaped by an odd number of backslashes before it, in a string or not. */
  lemma {:induction false} EscapedIff(s: string, n: nat)
    requires n <= |s|
    ensures StringState(s, n).1 <==> Backslashes(s, n) % 2 == 1
  {
    if n > 0 {
      EscapedIff(s, n - 1);
    }
  }

  predicate QuoteAt(s: string, i: nat, c: char)
    requires i < |s|
  {
    s[i] == c && Backslashes(s, i) % 2 == 0
  }

  /** A string in quotes c opened at i, outside other strings, and not closed before n. */
  ghost predicate OpenedAt(s: string, n: nat, i: nat, c: char)
    requires n <= |s|
  {
    && i < n && IsQuote(c) && QuoteAt(s, i, c) && StringState(s, i).0 == None
    && forall j :: i < j < n ==> !QuoteAt(s, j, c)
  }

  lemma StringNext(s: string, n: nat)
    requires 0 < n <= |s|
    ensures StringState(s, n).0
      == if StringState(s, n - 1).0.None? then
           if IsQuote(s[n - 1]) && QuoteAt(s, n - 1, s[n - 1]) then Some(s[n - 1]) else None
         else if QuoteAt(s, n - 1, StringState(s, n - 1).0.value) then None else StringState(s, n - 1).0
  {
    EscapedIff(s, n - 1);
    QuoteIsNoBackslash(s, n - 1);
  }

  lemma {:induction false} QuoteIsNoBackslash(s: string, n: nat)
    requires n <= |s|
    ensures StringState(s, n).0.Some? ==> IsQuote(StringState(s, n).0.value)
  {
    if n > 0 {
      QuoteIsNoBackslash(s, n - 1);
    }
  }

  /** isInString: some quote, not escaped, has opened a string that no such quote has closed since. */
  lemma {:induction false} InStringIff(s: string, n: nat, c: char)
    requires n <= |s|
    ensures StringState(s, n).0 == Some(c) <==> exists i: nat :: OpenedAt(s, n, i, c)
  {
    if n > 0 {
      InStringIff(s, n - 1, c);
      StringNext(s, n);
      QuoteIsNoBackslash(s, n - 1);
      if StringState(s, n).0 == Some(c) {
        if StringState(s, n - 1).0 == Some(c) {
          var i: nat :| OpenedAt(s, n - 1, i, c);
          assert OpenedAt(s, n, i, c);
        } else {
          assert OpenedAt(s, n, n - 1, c);
        }
      }
      if i: nat :| OpenedAt(s, n, i, c) {
        if i < n - 1 {
          assert OpenedAt(s, n - 1, i, c);
          assert !QuoteAt(s, n - 1, c);
        }
      }
    }
  }

  // ---------- Which calls are fixed ----------

  lemma {:induction false} SkippedAreSpaces(s: string, i: nat)
    requires i <= |s|
    ensures var j := SkipSpace(s, i); (forall k :: i <= k < j ==> IsSpace(s[k])) && (j < |s| ==> !IsSpace(s[j]))
    decreases |s| - i
  {
    if i < |s| && IsSpace(s[i]) {
      SkippedAreSpaces(s, i + 1);
    }
  }

  /** The name at m, then only white space, then the parenthesis before e. */
  ghost predicate IsCall(s: string, m: nat, e: nat) {
    && m + 9 <= e <= |s| && s[m..m + 8] == "parseInt" && s[e - 1] == '('
    && forall i :: m + 8 <= i < e - 1 ==> IsSpace(s[i])
  }

  lemma CallIff(s: string, m: nat, e: nat)
    ensures MatchEnd(s, m) == Some(e) <==> IsCall(s, m, e)
  {
    if m + 8 <= |s| {
      var j := SkipSpace(s, m + 8);
      SkippedAreSpaces(s, m + 8);
      if IsCall(s, m, e) {
        assert !IsSpace(s[e - 1]);
        assert j >= e - 1;
        assert j <= e - 1;
      }
    }
  }

  /** A call the script fixes: in no comment and no string, with no comma of its own, closed at k. */
  ghost predicate FixedAt(s: string, m: nat, e: nat, k: nat)
    requires m <= |s|
  {
    && IsCall(s, m, e) && !LineComment(s, m) && !BlockComment(s, m) && (forall i, c :: !OpenedAt(s, m, i, c))
    && (forall i :: !CommaAt(s, e, i)) && ClosesFirst(s, e, k)
  }

  lemma NoStringIff(s: string, n: nat)
    requires n <= |s|
    ensures StringState(s, n).0 == None <==> forall i: nat, c :: !OpenedAt(s, n, i, c)
  {
    if StringState(s, n).0.Some? {
      InStringIff(s, n, StringState(s, n).0.value);
      var i: nat :| OpenedAt(s, n, i, StringState(s, n).0.value);
    } else {
      forall i: nat, c ensures !OpenedAt(s, n, i, c) {
        InStringIff(s, n, c);
      }
    }
  }

  /** The script inserts a radix for exactly these calls, each behind its last character that is no space. */
  lemma CallIsFixedIff(s: string, m: nat, e: nat, k: nat)
    requires m <= |s|
    ensures FixedAt(s, m, e, k) ==> FixPoint(s, m) == Some(SolidEnd(s, e, k))
    ensures FixPoint(s, m).Some? && IsCall(s, m, e) && ClosesFirst(s, e, k) ==> FixedAt(s, m, e, k)
    ensures FixPoint(s, m).Some? ==> exists e', k' :: FixedAt(s, m, e', k')
  {
    CallIff(s, m, e);
    InCommentIff(s, m);
    NoStringIff(s, m);
    var end := MatchEnd(s, m);
    if end.Some? {
      CallIff(s, m, end.value);
      HasRadixIff(s, end.value);
      InsertionIff(s, end.value);
      if FixPoint(s, m).Some? {
        var k' :| ClosesFirst(s, end.value, k');
        assert FixedAt(s, m, end.value, k');
        if IsCall(s, m, e) && ClosesFirst(s, e, k) {
          assert FixedAt(s, m, e, k);
        }
      }
      if FixedAt(s, m, e, k) {
        assert end.value == e && !IsInComment(s, m) && StringState(s, m).0 == None;
        assert !HasRadixFrom(s, e, 0, None);
      }
    }
  }
}
