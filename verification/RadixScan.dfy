/**
 scripts/fix-parseint-radix.js, the scanners: where a parseInt call is, whether it has a radix,
 and where one would be inserted.
 */
module RadixScan {
  import opened JsCollections

  /** The regular expression class \s. */
  predicate IsSpace(c: char) {
    || '\t' <= c <= '\r' || c == ' ' || c == '\U{00A0}' || c == '\U{1680}' || '\U{2000}' <= c <= '\U{200A}'
    || c == '\U{2028}' || c == '\U{2029}' || c == '\U{202F}' || c == '\U{205F}' || c == '\U{3000}' || c == '\U{FEFF}'
  }

  predicate IsQuote(c: char) { c == '"' || c == '\'' || c == '`' }

  /** `inString` after one more character. */
  function Quote(inString: Option<char>, c: char, prev: char): Option<char> {
    if inString.None? && IsQuote(c) then Some(c)
    else if inString == Some(c) && prev != '\\' then None
    else inString
  }

  /** The scan of hasRadix from position i on. */
  function HasRadixFrom(s: string, i: nat, depth: nat, inString: Option<char>): bool
    requires i >= 1
    decreases |s| - i
  {
    if i >= |s| then false
    else
      var q := Quote(inString, s[i], s[i - 1]);
      if q.None? && s[i] == '(' then HasRadixFrom(s, i + 1, depth + 1, q)
      else if q.None? && s[i] == ')' then depth != 0 && HasRadixFrom(s, i + 1, depth - 1, q)
      else if q.None? && s[i] == ',' && depth == 0 then true
      else HasRadixFrom(s, i + 1, depth, q)
  }

  /** The scan of findInsertionPoint from position i on; None for -1. */
  function FindFrom(s: string, i: nat, depth: nat, inString: Option<char>, last: nat): Option<nat>
    requires i >= 1
    decreases |s| - i
  {
    if i >= |s| then None
    else
      var q := Quote(inString, s[i], s[i - 1]);
      var last' := if IsSpace(s[i]) then last else i + 1;
      if q.None? && s[i] == '(' then FindFrom(s, i + 1, depth + 1, q, last')
      else if q.None? && s[i] == ')' then
        if depth == 0 then Some(last) else FindFrom(s, i + 1, depth - 1, q, last')
      else FindFrom(s, i + 1, depth, q, last')
  }

  method HasRadix(content: string, matchIndex: nat, fullMatch: string) returns (r: bool)
    requires |fullMatch| >= 1
    ensures r == HasRadixFrom(content, matchIndex + |fullMatch|, 0, None)
  {
    var parenCount: nat, inString := 0, None;
    var i := matchIndex + |fullMatch|;
    while i < |content|
      invariant i >= 1
      invariant HasRadixFrom(content, matchIndex + |fullMatch|, 0, None)
        == HasRadixFrom(content, i, parenCount, inString)
    {
      var c, prevChar := content[i], content[i - 1];
      if inString.None? && IsQuote(c) {
        inString := Some(c);
      } else if inString == Some(c) && prevChar != '\\' {
        inString := None;
      }
      if inString.None? {
        if c == '(' {
          parenCount := parenCount + 1;
        } else if c == ')' {
          if parenCount == 0 {
            break;
          }
          parenCount := parenCount - 1;
        } else if c == ',' && parenCount == 0 {
          return true;
        }
      }
      i := i + 1;
    }
    return false;
  }

  method FindInsertionPoint(content: string, matchIndex: nat, fullMatch: string) returns (r: Option<nat>)
    requires |fullMatch| >= 1
    ensures r == FindFrom(content, matchIndex + |fullMatch|, 0, None, matchIndex + |fullMatch|)
  {
    var parenCount: nat, inString := 0, None;
    var i := matchIndex + |fullMatch|;
    var lastNonWhitespace: nat := i;
    while i < |content|
      invariant i >= 1
      invariant FindFrom(content, matchIndex + |fullMatch|, 0, None, matchIndex + |fullMatch|)
             == FindFrom(content, i, parenCount, inString, lastNonWhitespace)
    {
      var c, prevChar := content[i], content[i - 1];
      if inString.None? && IsQuote(c) {
        inString := Some(c);
      } else if inString == Some(c) && prevChar != '\\' {
        inString := None;
      }
      if inString.None? {
        if c == '(' {
          parenCount := parenCount + 1;
        } else if c == ')' {
          if parenCount == 0 {
            return Some(lastNonWhitespace);
          }
          parenCount := parenCount - 1;
        }
      }
      if !IsSpace(c) {
        lastNonWhitespace := i + 1;
      }
      i := i + 1;
    }
    return None;
  }

  // ---------- Matches, comments and strings ----------

  function SkipSpace(s: string, i: nat): (r: nat)
    requires i <= |s|
    ensures i <= r <= |s|
    decreases |s| - i
  {
    if i < |s| && IsSpace(s[i]) then SkipSpace(s, i + 1) else i
  }

  const NAME: string := "parseInt"

  /** The end of a match of /parseInt\s*\(/ at m, just after the parenthesis. */
  function MatchEnd(s: string, m: nat): (r: Option<nat>)
    ensures r.Some? ==> m + 9 <= r.value <= |s| && s[r.value - 1] == '('
  {
    if m + 8 <= |s| && s[m..m + 8] == NAME then
      var j := SkipSpace(s, m + 8);
      if j < |s| && s[j] == '(' then Some(j + 1) else None
    else None
  }

  /** lastIndexOf('\n', ...) among the first n characters. */
  function LastNewline(s: string, n: nat): int
    requires n <= |s|
  {
    if n == 0 then -1 else if s[n - 1] == '\n' then n - 1 else LastNewline(s, n - 1)
  }

  /** lastIndexOf of the two-character text ab within the first n characters. */
  function LastPair(s: string, n: nat, a: char, b: char): int
    requires n <= |s|
  {
    if n < 2 then -1 else if s[n - 2] == a && s[n - 1] == b then n - 2 else LastPair(s, n - 1, a, b)
  }

  predicate IsInComment(s: string, index: nat)
    requires index <= |s|
  {
    // the line up to the index contains a line comment
    || (LastPair(s, index, '/', '/') >= 0 && LastPair(s, index, '/', '/') >= LastNewline(s, index))
    // a block comment was opened and not closed
    || LastPair(s, index, '/', '*') > LastPair(s, index, '*', '/')
  }

  /** `inString` and `escaped` of isInString after n characters. */
  function StringState(s: string, n: nat): (Option<char>, bool)
    requires n <= |s|
  {
    if n == 0 then (None, false)
    else
      var (q, escaped) := StringState(s, n - 1);
      var c := s[n - 1];
      if escaped then (q, false)
      else if c == '\\' then (q, true)
      else if q.None? && IsQuote(c) then (Some(c), false)
      else if q == Some(c) then (None, false)
      else (q, false)
  }

  method IsInString(content: string, index: nat) returns (r: bool)
    requires index <= |content|
    ensures r == StringState(content, index).0.Some?
  {
    var inString: Option<char>, escaped := None, false;
    for i := 0 to index
      invariant StringState(content, i) == (inString, escaped)
    {
      var c := content[i];
      if escaped {
        escaped := false;
      } else if c == '\\' {
        escaped := true;
      } else if inString.None? && IsQuote(c) {
        inString := Some(c);
      } else if inString == Some(c) {
        inString := None;
      }
    }
    return inString.Some?;
  }

  /** The insertion point of the call matched at m, if the script would fix it. */
  function FixPoint(s: string, m: nat): Option<nat>
    requires m <= |s|
  {
    var e := MatchEnd(s, m);
    if e.None? || IsInComment(s, m) || StringState(s, m).0.Some? || HasRadixFrom(s, e.value, 0, None) then None
    else FindFrom(s, e.value, 0, None, e.value)
  }

  /** All insertion points of the calls before position n, in the order of the calls. */
  function FixesBefore(s: string, n: nat): seq<nat>
    requires n <= |s|
  {
    if n == 0 then []
    else
      var before := FixesBefore(s, n - 1);
      var p := FixPoint(s, n - 1);
      if p.Some? then before + [p.value] else before
  }

  function Fixes(s: string): seq<nat> { FixesBefore(s, |s|) }

  // ---------- What an insertion point looks like ----------

  /** The insertion point stands before the closing parenthesis, only white space between. */
  ghost predicate BeforeClose(s: string, p: nat) {
    p < |s| && SkipSpace(s, p) < |s| && s[SkipSpace(s, p)] == ')'
  }

  lemma SpaceIsNeutral(c: char)
    requires IsSpace(c)
    ensures !IsQuote(c) && c != '(' && c != ')' && c != ',' && c != '/' && c != '*' && c != '\\' && c != 'p'
  {
  }

  /** Reaching the insertion point: the scan stands at top level, outside any string. */
  lemma {:induction false} AtInsertion(s: string, i: nat, depth: nat, inString: Option<char>, last: nat)
    requires i >= 1 && last <= i && (inString.Some? ==> IsQuote(inString.value))
    requires FindFrom(s, i, depth, inString, last).Some? && FindFrom(s, i, depth, inString, last).value <= i
    ensures FindFrom(s, i, depth, inString, last).value == last
    ensures depth == 0 && inString.None? && BeforeClose(s, i)
    decreases |s| - i
  {
    var q := Quote(inString, s[i], s[i - 1]);
    if !(q.None? && s[i] == ')' && depth == 0) {
      var last' := if IsSpace(s[i]) then last else i + 1;
      var depth' := if q.None? && s[i] == '(' then depth + 1 else if q.None? && s[i] == ')' then depth - 1 else depth;
      AtInsertion(s, i + 1, depth', q, last');
    }
  }
}
