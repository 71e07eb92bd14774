/**
 JSON.stringify: the text of a JSON value, and that the value can be read off it, also when an arbitrary
 text and a colon stand before the text of an object.
 */
module JsonText {
  import opened JsCollections

  /** A number is given by its digits. */
  datatype Json = JNull | JBool(flag: bool) | JNumber(digits: string) | JText(text: string) | JArray(items: Items)
    | JObject(fields: Fields)

  datatype Items = NoItems | Item(head: Json, rest: Items)

  datatype Fields = NoFields | Field(name: string, value: Json, rest: Fields)

  // ---------- The text ----------

  /** The characters that are escaped by a letter. */
  function Letter(c: char): Option<char> {
    if c == '"' then Some('"')
    else if c == '\\' then Some('\\')
    else if c == '\U{0008}' then Some('b')
    else if c == '\t' then Some('t')
    else if c == '\n' then Some('n')
    else if c == '\U{000C}' then Some('f')
    else if c == '\r' then Some('r')
    else None
  }

  const HEX: string := "0123456789abcdef"

  function Escape(c: char): (r: string)
    ensures r != "" && r[0] != '"'
  {
    if Letter(c).Some? then ['\\', Letter(c).value]
    else if c < ' ' then ['\\', 'u', '0', '0', HEX[c as int / 16], HEX[c as int % 16]]
    else [c]
  }

  function Escaped(s: string): string { if s == "" then "" else Escape(s[0]) + Escaped(s[1..]) }

  function Quoted(s: string): string { "\"" + (Escaped(s) + "\"") }

  function Render(j: Json): string {
    match j
    case JNull => "null"
    case JBool(b) => if b then "true" else "false"
    case JNumber(digits) => digits
    case JText(s) => Quoted(s)
    case JArray(items) => "[" + ItemsText(items) + "]"
    case JObject(fields) => "{" + FieldsText(fields) + "}"
  }

  function ItemsText(items: Items): string {
    match items
    case NoItems => ""
    case Item(head, rest) => Render(head) + (if rest.NoItems? then "" else "," + ItemsText(rest))
  }

  function FieldsText(fields: Fields): string {
    match fields
    case NoFields => ""
    case Field(name, value, rest) =>
      Quoted(name) + (":" + (Render(value) + (if rest.NoFields? then "" else "," + FieldsText(rest))))
  }

  function OtherFieldsText(rest: Fields): string { if rest.NoFields? then "" else "," + FieldsText(rest) }

  // ---------- Reading one value off a text ----------

  predicate IsDigit(c: char) { '0' <= c <= '9' }

  predicate InNumeral(c: char) { IsDigit(c) || c in "+-.e" }

  /** The text of a number, such as `-1.5e+21`. */
  predicate IsNumeral(s: string) { s != "" && (IsDigit(s[0]) || s[0] == '-') && forall c :: c in s ==> InNumeral(c) }

  predicate Good(j: Json) {
    match j
    case JNumber(digits) => IsNumeral(digits)
    case JArray(items) => GoodItems(items)
    case JObject(fields) => GoodFields(fields)
    case _ => true
  }

  predicate GoodItems(items: Items) { items.Item? ==> Good(items.head) && GoodItems(items.rest) }

  predicate GoodFields(fields: Fields) { fields.Field? ==> Good(fields.value) && GoodFields(fields.rest) }

  /** What can stand behind a value. */
  predicate Stops(x: string) { x == "" || x[0] in ",]}" }

  lemma Assoc(a: string, b: string, c: string)
    ensures (a + b) + c == a + (b + c)
  {
  }

  /** How long the escape of a character is can be seen from its first two characters. */
  lemma EscapeSeen(c: char, x: string)
    ensures var e, p := Escape(c), Escape(c) + x;
      && (|e| == 1 <==> p[0] != '\\') && (|e| > 1 ==> p[1] == e[1]) && (|e| == 2 <==> |e| > 1 && p[1] != 'u')
      && (|e| == 1 || |e| == 2 || |e| == 6)
  {
  }

  lemma EscapeInjective(c: char, d: char)
    requires Escape(c) == Escape(d)
    ensures c == d
  {
    if |Escape(c)| == 6 {
      assert Escape(c)[4] == Escape(d)[4] && Escape(c)[5] == Escape(d)[5];
    } else if |Escape(c)| == 2 {
      assert Escape(c)[1] == Escape(d)[1];
    } else {
      assert Escape(c)[0] == Escape(d)[0];
    }
  }

  lemma EscapeUnique(c: char, d: char, x: string, y: string)
    requires Escape(c) + x == Escape(d) + y
    ensures c == d && x == y
  {
    EscapeSeen(c, x);
    EscapeSeen(d, y);
    assert |Escape(c)| == |Escape(d)|;
    assert Escape(c) == (Escape(c) + x)[..|Escape(c)|] && Escape(d) == (Escape(d) + y)[..|Escape(d)|];
    EscapeInjective(c, d);
    TailOf(Escape(c), x, y);
  }

  lemma {:induction false} EscapedUnique(s: string, t: string, x: string, y: string)
    requires Escaped(s) + ("\"" + x) == Escaped(t) + ("\"" + y)
    ensures s == t && x == y
    decreases |s|
  {
    if s == "" || t == "" {
      QuoteStops(s, x);
      QuoteStops(t, y);
      assert "" + ("\"" + x) == "\"" + x && "" + ("\"" + y) == "\"" + y;
      TailOf("\"", x, y);
    } else {
      EscapedSplit(s, "\"" + x);
      EscapedSplit(t, "\"" + y);
      EscapeUnique(s[0], t[0], Escaped(s[1..]) + ("\"" + x), Escaped(t[1..]) + ("\"" + y));
      EscapedUnique(s[1..], t[1..], x, y);
      assert s == [s[0]] + s[1..] && t == [t[0]] + t[1..];
    }
  }

  lemma EscapedSplit(s: string, x: string)
    requires s != ""
    ensures Escaped(s) + x == Escape(s[0]) + (Escaped(s[1..]) + x)
  {
    Assoc(Escape(s[0]), Escaped(s[1..]), x);
  }

  /** A text in quotes begins with a quote behind the first one exactly when it is empty. */
  lemma QuoteStops(s: string, x: string)
    ensures (Escaped(s) + ("\"" + x))[0] == '"' <==> s == ""
  {
    if s != "" {
      assert (Escaped(s) + ("\"" + x))[0] == Escape(s[0])[0];
    }
  }

  lemma QuotedSplit(s: string, x: string)
    ensures Quoted(s) + x == "\"" + (Escaped(s) + ("\"" + x))
  {
    Assoc("\"", Escaped(s) + "\"", x);
    Assoc(Escaped(s), "\"", x);
  }

  lemma QuotedUnique(s: string, t: string, x: string, y: string)
    requires Quoted(s) + x == Quoted(t) + y
    ensures s == t && x == y
  {
    QuotedSplit(s, x);
    QuotedSplit(t, y);
    TailOf("\"", Escaped(s) + ("\"" + x), Escaped(t) + ("\"" + y));
    EscapedUnique(s, t, x, y);
  }

  /** A numeral ends where no character of one follows. */
  lemma NumeralStops(s: string, x: string)
    requires (forall c :: c in s ==> InNumeral(c)) && Stops(x)
    ensures s + x == "" || !InNumeral((s + x)[0]) <==> s == ""
  {
    if s == "" {
      assert s + x == x;
    } else {
      assert (s + x)[0] == s[0] && s[0] in s;
    }
  }

  lemma {:induction false} NumeralUnique(s: string, t: string, x: string, y: string)
    requires (forall c :: c in s ==> InNumeral(c)) && (forall c :: c in t ==> InNumeral(c))
    requires s + x == t + y && Stops(x) && Stops(y)
    ensures s == t && x == y
    decreases |s|
  {
    if s == "" || t == "" {
      NumeralStops(s, x);
      NumeralStops(t, y);
      assert "" + x == x && "" + y == y;
    } else {
      assert s[0] == (s + x)[0] == (t + y)[0] == t[0];
      assert s[1..] + x == (s + x)[1..] == (t + y)[1..] == t[1..] + y;
      NumeralUnique(s[1..], t[1..], x, y);
      assert s == [s[0]] + s[1..] && t == [t[0]] + t[1..];
    }
  }

  datatype Kind = KNull | KTrue | KFalse | KNumber | KText | KArray | KObject

  function KindOf(j: Json): Kind {
    match j
    case JNull => KNull
    case JBool(b) => if b then KTrue else KFalse
    case JNumber(_) => KNumber
    case JText(_) => KText
    case JArray(_) => KArray
    case JObject(_) => KObject
  }

  function KindFrom(c: char): Kind {
    if c == 'n' then KNull
    else if c == 't' then KTrue
    else if c == 'f' then KFalse
    else if c == '"' then KText
    else if c == '[' then KArray
    else if c == '{' then KObject
    else KNumber
  }

  /** The first character tells the kind of a value. */
  lemma KindIsSeen(j: Json, x: string)
    requires Good(j)
    ensures Render(j) != "" && KindFrom((Render(j) + x)[0]) == KindOf(j) && (Render(j) + x)[0] !in ",]}"
  {
    assert (Render(j) + x)[0] == Render(j)[0];
  }

  /** Whatever stands behind it, a value is read off a text in one way only. */
  lemma {:induction false} RenderUnique(a: Json, b: Json, x: string, y: string)
    requires Good(a) && Good(b) && Stops(x) && Stops(y) && Render(a) + x == Render(b) + y
    ensures a == b && x == y
    decreases a, 0
  {
    KindIsSeen(a, x);
    KindIsSeen(b, y);
    match a
    case JNull => TailOf("null", x, y);
    case JBool(flag) => TailOf(if flag then "true" else "false", x, y);
    case JNumber(digits) => NumeralUnique(digits, b.digits, x, y);
    case JText(s) => QuotedUnique(s, b.text, x, y);
    case JArray(items) =>
      BracketsSplit("[", ItemsText(items), "]", x);
      BracketsSplit("[", ItemsText(b.items), "]", y);
      TailOf("[", ItemsText(items) + ("]" + x), ItemsText(b.items) + ("]" + y));
      ItemsUnique(items, b.items, x, y);
    case JObject(fields) =>
      BracketsSplit("{", FieldsText(fields), "}", x);
      BracketsSplit("{", FieldsText(b.fields), "}", y);
      TailOf("{", FieldsText(fields) + ("}" + x), FieldsText(b.fields) + ("}" + y));
      FieldsUnique(fields, b.fields, x, y);
  }

  lemma BracketsSplit(open: string, s: string, close: string, x: string)
    ensures open + s + close + x == open + (s + (close + x))
  {
  }

  lemma TailOf(s: string, x: string, y: string)
    requires s + x == s + y
    ensures x == y
  {
    assert (s + x)[|s|..] == x && (s + y)[|s|..] == y;
  }

  /** What stands behind the first item. */
  function Behind(rest: Items, x: string): string {
    if rest.NoItems? then "]" + x else "," + ItemsText(rest) + ("]" + x)
  }

  lemma ItemsSplit(items: Items, x: string)
    requires items.Item?
    ensures ItemsText(items) + ("]" + x) == Render(items.head) + Behind(items.rest, x)
  {
    if items.rest.NoItems? {
      assert Render(items.head) + "" == Render(items.head);
    } else {
      Assoc(Render(items.head), "," + ItemsText(items.rest), "]" + x);
    }
  }

  lemma {:induction false} ItemsUnique(a: Items, b: Items, x: string, y: string)
    requires GoodItems(a) && GoodItems(b) && ItemsText(a) + ("]" + x) == ItemsText(b) + ("]" + y)
    ensures a == b && x == y
    decreases a, 1
  {
    if a.NoItems? || b.NoItems? {
      ItemsStop(a, x);
      ItemsStop(b, y);
      assert "" + ("]" + x) == "]" + x && "" + ("]" + y) == "]" + y;
      TailOf("]", x, y);
    } else {
      ItemsSplit(a, x);
      ItemsSplit(b, y);
      RenderUnique(a.head, b.head, Behind(a.rest, x), Behind(b.rest, y));
      RestUnique(a.rest, b.rest, x, y);
    }
  }

  lemma ItemsStop(items: Items, x: string)
    requires GoodItems(items)
    ensures (ItemsText(items) + ("]" + x))[0] == ']' <==> items.NoItems?
  {
    if items.Item? {
      ItemsSplit(items, x);
      KindIsSeen(items.head, Behind(items.rest, x));
    }
  }

  lemma {:induction false} RestUnique(a: Items, b: Items, x: string, y: string)
    requires GoodItems(a) && GoodItems(b) && Behind(a, x) == Behind(b, y)
    ensures a == b && x == y
    decreases a, 2
  {
    if a.Item? && b.Item? {
      Assoc(",", ItemsText(a), "]" + x);
      Assoc(",", ItemsText(b), "]" + y);
      TailOf(",", ItemsText(a) + ("]" + x), ItemsText(b) + ("]" + y));
      ItemsUnique(a, b, x, y);
    } else {
      assert Behind(a, x)[0] == Behind(b, y)[0];
      TailOf("]", x, y);
    }
  }

  function BehindField(rest: Fields, x: string): string {
    if rest.NoFields? then "}" + x else "," + FieldsText(rest) + ("}" + x)
  }

  lemma FieldsSplit(fields: Fields, x: string)
    requires fields.Field?
    ensures FieldsText(fields) + ("}" + x)
      == Quoted(fields.name) + (":" + (Render(fields.value) + BehindField(fields.rest, x)))
  {
    var name, value, tail := Quoted(fields.name), Render(fields.value), OtherFieldsText(fields.rest);
    Assoc(name, ":" + (value + tail), "}" + x);
    Assoc(":", value + tail, "}" + x);
    Assoc(value, tail, "}" + x);
    if fields.rest.NoFields? {
      assert tail + ("}" + x) == "}" + x;
    }
  }

  lemma {:induction false} FieldsUnique(a: Fields, b: Fields, x: string, y: string)
    requires GoodFields(a) && GoodFields(b) && FieldsText(a) + ("}" + x) == FieldsText(b) + ("}" + y)
    ensures a == b && x == y
    decreases a, 1
  {
    if a.NoFields? || b.NoFields? {
      FieldsStop(a, x);
      FieldsStop(b, y);
      assert "" + ("}" + x) == "}" + x && "" + ("}" + y) == "}" + y;
      TailOf("}", x, y);
    } else {
      FieldsSplit(a, x);
      FieldsSplit(b, y);
      var p, q := Render(a.value) + BehindField(a.rest, x), Render(b.value) + BehindField(b.rest, y);
      QuotedUnique(a.name, b.name, ":" + p, ":" + q);
      TailOf(":", p, q);
      RenderUnique(a.value, b.value, BehindField(a.rest, x), BehindField(b.rest, y));
      OtherFieldsUnique(a.rest, b.rest, x, y);
    }
  }

  lemma FieldsStop(fields: Fields, x: string)
    ensures (FieldsText(fields) + ("}" + x))[0] == '}' <==> fields.NoFields?
  {
    if fields.Field? {
      FieldsSplit(fields, x);
      assert (FieldsText(fields) + ("}" + x))[0] == Quoted(fields.name)[0] == '"';
    }
  }

  lemma {:induction false} OtherFieldsUnique(a: Fields, b: Fields, x: string, y: string)
    requires GoodFields(a) && GoodFields(b) && BehindField(a, x) == BehindField(b, y)
    ensures a == b && x == y
    decreases a, 2
  {
    if a.Field? && b.Field? {
      Assoc(",", FieldsText(a), "}" + x);
      Assoc(",", FieldsText(b), "}" + y);
      TailOf(",", FieldsText(a) + ("}" + x), FieldsText(b) + ("}" + y));
      FieldsUnique(a, b, x, y);
    } else {
      assert BehindField(a, x)[0] == BehindField(b, y)[0];
      TailOf("}", x, y);
    }
  }

  // ---------- A text, a colon and an object ----------

  /** The state of a reader: outside a text at some depth, inside one, behind a backslash in one, or stuck. */
  datatype Lex = Out(depth: nat) | In(depth: nat) | Escaping(depth: nat) | Stuck

  function Next(l: Lex, c: char): Lex {
    match l
    case Out(d) =>
      if c == '"' then In(d)
      else if c == '\\' then Stuck
      else if c == '{' || c == '[' then Out(d + 1)
      else if c == '}' || c == ']' then (if d == 0 then Stuck else Out(d - 1))
      else l
    case In(d) => if c == '"' then Out(d) else if c == '\\' then Escaping(d) else l
    case Escaping(d) => In(d)
    case Stuck => Stuck
  }

  function Read(l: Lex, s: string): Lex
    decreases s
  {
    if s == "" then l else Read(Next(l, s[0]), s[1..])
  }

  lemma {:induction false} ReadConcat(l: Lex, s: string, t: string)
    ensures Read(l, s + t) == Read(Read(l, s), t)
    decreases s
  {
    if s == "" {
      assert s + t == t;
    } else {
      assert (s + t)[1..] == s[1..] + t;
      ReadConcat(Next(l, s[0]), s[1..], t);
    }
  }

  lemma {:induction false} ReadPlain(l: Lex, s: string)
    requires l.Out? && forall c :: c in s ==> c !in "\"\\{}[]"
    ensures Read(l, s) == l
  {
    if s != "" {
      assert s[0] in s && forall c :: c in s[1..] ==> c in s;
      ReadPlain(l, s[1..]);
    }
  }

  lemma ReadOne(l: Lex, c: char)
    ensures Read(l, [c]) == Next(l, c)
  {
    assert [c][1..] == "";
  }

  lemma ReadEscape(d: nat, c: char)
    ensures Read(In(d), Escape(c)) == In(d)
  {
    var e := Escape(c);
    if |e| == 1 {
      ReadOne(In(d), c);
    } else {
      assert e == [e[0]] + ([e[1]] + e[2..]);
      ReadConcat(In(d), [e[0]], [e[1]] + e[2..]);
      ReadConcat(Escaping(d), [e[1]], e[2..]);
      ReadOne(In(d), e[0]);
      ReadOne(Escaping(d), e[1]);
      ReadInside(d, e[2..]);
    }
  }

  lemma {:induction false} ReadInside(d: nat, s: string)
    requires forall c :: c in s ==> c != '"' && c != '\\'
    ensures Read(In(d), s) == In(d)
  {
    if s != "" {
      assert s[0] in s && forall c :: c in s[1..] ==> c in s;
      ReadInside(d, s[1..]);
    }
  }

  lemma {:induction false} ReadEscaped(d: nat, s: string)
    ensures Read(In(d), Escaped(s)) == In(d)
  {
    if s != "" {
      ReadConcat(In(d), Escape(s[0]), Escaped(s[1..]));
      ReadEscape(d, s[0]);
      ReadEscaped(d, s[1..]);
    }
  }

  lemma ReadQuoted(d: nat, s: string)
    ensures Read(Out(d), Quoted(s)) == Out(d)
  {
    ReadConcat(Out(d), "\"", Escaped(s) + "\"");
    ReadConcat(In(d), Escaped(s), "\"");
    ReadEscaped(d, s);
    ReadOne(Out(d), '"');
    ReadOne(In(d), '"');
  }

  /** Reading a value brings the reader back to where it was. */
  lemma {:induction false} ReadRender(d: nat, j: Json)
    requires Good(j)
    ensures Read(Out(d), Render(j)) == Out(d)
    decreases j
  {
    match j
    case JText(s) => ReadQuoted(d, s);
    case JArray(items) =>
      ReadItems(d + 1, items);
      ReadBrackets(d, '[', ItemsText(items), ']');
    case JObject(fields) =>
      ReadFields(d + 1, fields);
      ReadBrackets(d, '{', FieldsText(fields), '}');
    case _ => ReadPlain(Out(d), Render(j));
  }

  lemma ReadBrackets(d: nat, open: char, s: string, close: char)
    requires (open == '[' || open == '{') && (close == ']' || close == '}') && Read(Out(d + 1), s) == Out(d + 1)
    ensures Read(Out(d), [open] + s + [close]) == Out(d)
  {
    ReadConcat(Out(d), [open] + s, [close]);
    ReadConcat(Out(d), [open], s);
    ReadOne(Out(d), open);
    ReadOne(Out(d + 1), close);
  }

  lemma {:induction false} ReadItems(d: nat, items: Items)
    requires GoodItems(items)
    ensures Read(Out(d), ItemsText(items)) == Out(d)
    decreases items
  {
    if items.Item? {
      var tail := if items.rest.NoItems? then "" else "," + ItemsText(items.rest);
      ReadConcat(Out(d), Render(items.head), tail);
      ReadRender(d, items.head);
      if items.rest.Item? {
        ReadConcat(Out(d), ",", ItemsText(items.rest));
        ReadOne(Out(d), ',');
        ReadItems(d, items.rest);
      }
    }
  }

  lemma {:induction false} ReadFields(d: nat, fields: Fields)
    requires GoodFields(fields)
    ensures Read(Out(d), FieldsText(fields)) == Out(d)
    decreases fields
  {
    if fields.Field? {
      ReadRender(d, fields.value);
      ReadField(d, fields);
      if fields.rest.Field? {
        ReadFields(d, fields.rest);
        ReadConcat(Out(d), ",", FieldsText(fields.rest));
        ReadOne(Out(d), ',');
      }
    }
  }

  lemma ReadField(d: nat, fields: Fields)
    requires fields.Field? && Read(Out(d), Render(fields.value)) == Out(d)
    ensures Read(Out(d), FieldsText(fields)) == Read(Out(d), OtherFieldsText(fields.rest))
  {
    var value, tail := Render(fields.value), OtherFieldsText(fields.rest);
    ReadConcat(Out(d), Quoted(fields.name), ":" + (value + tail));
    ReadConcat(Out(d), ":", value + tail);
    ReadConcat(Out(d), value, tail);
    ReadQuoted(d, fields.name);
    ReadOne(Out(d), ':');
  }

  /** Two readers, one inside a text where the other is outside, unless one of them is stuck. */
  predicate Opposite(l: Lex, m: Lex) {
    l.Stuck? || m.Stuck? || (l.Out? && m.In?) || (l.In? && m.Out?) || (l.Escaping? && m.Stuck?)
  }

  lemma {:induction false} StayOpposite(l: Lex, m: Lex, s: string)
    requires Opposite(l, m)
    ensures Opposite(Read(l, s), Read(m, s))
    decreases s
  {
    if s != "" {
      StayOpposite(Next(l, s[0]), Next(m, s[0]), s[1..]);
    }
  }

  /**
   Within an object no colon is followed by the text of another object up to the end: the reader does not come
   back.
   */
  lemma NoObjectBehindColon(u: string, a: Fields)
    requires GoodFields(a)
    ensures Read(Out(0), u + (":{" + FieldsText(a))) != Out(0)
  {
    var body := FieldsText(a);
    var l := Read(Out(0), u);
    ReadConcat(Out(0), u, ":{" + body);
    ReadConcat(l, ":{", body);
    assert ":{" == ":" + "{";
    ReadConcat(l, ":", "{");
    ReadOne(l, ':');
    ReadOne(Next(l, ':'), '{');
    var m := Next(Next(l, ':'), '{');
    match m {
      case Out(d) => ReadFields(d, a);
      case In(d) =>
        ReadFields(0, a);
        StayOpposite(Out(0), m, body);
      case Escaping(_) =>
      case Stuck => StayStuck(body);
    }
  }

  lemma {:induction false} StayStuck(s: string)
    ensures Read(Stuck, s) == Stuck
  {
    if s != "" {
      StayStuck(s[1..]);
    }
  }

  function Tagged(s: string, fields: Fields): string { s + (":" + Render(JObject(fields))) }

  /** Behind a shorter text and a colon stands another object. */
  lemma LongerDiffers(s: string, t: string, a: Fields, b: Fields)
    requires GoodFields(a) && GoodFields(b) && |s| > |t|
    ensures Tagged(s, a) != Tagged(t, b)
  {
    if Tagged(s, a) == Tagged(t, b) {
      Overlap(s, t, FieldsText(a), FieldsText(b));
      NoObjectBehindColon(s[|t| + 2..], a);
      ReadFields(0, b);
    }
  }

  lemma Overlap(s: string, t: string, a: string, b: string)
    requires s + (":" + ("{" + a + "}")) == t + (":" + ("{" + b + "}")) && |s| > |t|
    ensures |s| >= |t| + 2 && b == s[|t| + 2..] + (":{" + a)
  {
    var whole, n := t + (":" + ("{" + b + "}")), |t| + 2;
    assert whole[n - 1] == '{' && (s + (":" + ("{" + a + "}")))[|s|] == ':';
    assert b == whole[n..|whole| - 1];
    assert (s + (":" + ("{" + a + "}")))[n..|whole| - 1] == s[n..] + (":{" + a);
  }

  /** A text, a colon and the text of an object: both can be told apart, whatever the first text is. */
  lemma TaggedUnique(s: string, t: string, a: Fields, b: Fields)
    requires GoodFields(a) && GoodFields(b) && Tagged(s, a) == Tagged(t, b)
    ensures s == t && a == b
  {
    if |s| > |t| {
      LongerDiffers(s, t, a, b);
    } else if |t| > |s| {
      LongerDiffers(t, s, b, a);
    }
    assert s == Tagged(s, a)[..|s|] && t == Tagged(t, b)[..|t|];
    assert Tagged(s, a)[|s| + 1..] == Render(JObject(a)) && Tagged(t, b)[|t| + 1..] == Render(JObject(b));
    assert Render(JObject(a)) + "" == Render(JObject(b)) + "";
    RenderUnique(JObject(a), JObject(b), "", "");
  }
}
