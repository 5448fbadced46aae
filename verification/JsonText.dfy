/** JSON values and the text `JSON.stringify` writes for them. */
module JsonText {
  import opened Wrappers
  import Decimal

  /** A string as its UTF-16 code units. */
  type Text = seq<nat>

  /** A JSON value. `fields` lists an object's properties in enumeration order. */
  datatype Json =
    | Null
    | Bool(b: bool)
    | Num(n: int)
    | Str(s: Text)
    | Arr(items: seq<Json>)
    | Obj(fields: seq<Field>)

  datatype Field = Field(key: Text, value: Json)

  /** A property whose value is already text. */
  datatype Rendered = Rendered(key: Text, text: Text)

  const QUOTE: nat := 34
  const COMMA: nat := 44
  const COLON: nat := 58
  const BACKSLASH: nat := 92
  const LOWER_U: nat := 117

  // ---- JSON.stringify ----

  predicate High(c: nat) { 0xD800 <= c < 0xDC00 }

  predicate Low(c: nat) { 0xDC00 <= c < 0xE000 }

  function HexDigit(d: nat): nat
    requires d < 16
  {
    if d < 10 then 48 + d else 87 + d
  }

  function HexValue(c: nat): nat {
    if 48 <= c < 58 then c - 48 else if 97 <= c < 103 then c - 87 else 0
  }

  function Hex4(c: nat): Text
    requires c < 0x10000
  {
    [HexDigit(c / 4096), HexDigit(c / 256 % 16), HexDigit(c / 16 % 16), HexDigit(c % 16)]
  }

  /** The letter of a two-character escape, if `c` has one. */
  function ShortEscape(c: nat): Option<nat> {
    if c == QUOTE || c == BACKSLASH then Some(c)
    else if c == 8 then Some(98)
    else if c == 9 then Some(116)
    else if c == 10 then Some(110)
    else if c == 12 then Some(102)
    else if c == 13 then Some(114)
    else None
  }

  /** One code unit that is not half of a surrogate pair. */
  function EscapeUnit(c: nat): Text {
    if ShortEscape(c).Some? then [BACKSLASH, ShortEscape(c).value]
    else if c < 32 || High(c) || Low(c) then [BACKSLASH, LOWER_U] + Hex4(c)
    else [c]
  }

  function Escape(s: Text): Text {
    if s == [] then []
    else if |s| >= 2 && High(s[0]) && Low(s[1]) then [s[0], s[1]] + Escape(s[2..])
    else EscapeUnit(s[0]) + Escape(s[1..])
  }

  function Quote(s: Text): Text {
    [QUOTE] + Escape(s) + [QUOTE]
  }

  function NumberText(n: int): Text {
    if n < 0 then [45] + DigitText(Decimal.Digits(-n)) else DigitText(Decimal.Digits(n))
  }

  function DigitText(d: seq<nat>): Text {
    seq(|d|, i requires 0 <= i < |d| => d[i] + 48)
  }

  function Join(texts: seq<Text>): Text {
    if texts == [] then [] else texts[0] + After(texts[1..])
  }

  /** What follows the first element of a joined list. */
  function After(texts: seq<Text>): Text {
    if texts == [] then [] else [COMMA] + texts[0] + After(texts[1..])
  }

  function Pairs(fields: seq<Rendered>): seq<Text> {
    if fields == [] then [] else [Quote(fields[0].key) + [COLON] + fields[0].text] + Pairs(fields[1..])
  }

  /** `JSON.stringify`. */
  function Render(v: Json): Text
    decreases v
  {
    match v
    case Null => [110, 117, 108, 108]
    case Bool(b) => if b then [116, 114, 117, 101] else [102, 97, 108, 115, 101]
    case Num(n) => NumberText(n)
    case Str(s) => Quote(s)
    case Arr(items) => [91] + Join(RenderItems(items)) + [93]
    case Obj(fields) => [123] + Join(Pairs(RenderFields(fields))) + [125]
  }

  function RenderItems(items: seq<Json>): (r: seq<Text>)
    ensures |r| == |items|
    decreases items
  {
    if items == [] then [] else [Render(items[0])] + RenderItems(items[1..])
  }

  function RenderFields(fields: seq<Field>): (r: seq<Rendered>)
    ensures |r| == |fields|
    decreases fields
  {
    if fields == [] then [] else [Rendered(fields[0].key, Render(fields[0].value))] + RenderFields(fields[1..])
  }

  // ---- Reading the text back ----

  function Prepend(c: nat, read: Option<(Text, Text)>): Option<(Text, Text)> {
    if read.None? then None else Some(([c] + read.value.0, read.value.1))
  }

  /** A literal of the grammar, in ASCII. */
  function Ascii(s: string): Text {
    seq(|s|, i requires 0 <= i < |s| => s[i] as nat)
  }

  predicate StartsWith(t: Text, literal: Text) {
    |t| >= |literal| && t[..|literal|] == literal
  }

  /** The code unit that an escaped letter stands for (section 7 of RFC 8259), if it stands for one. */
  function LongEscape(letter: nat): Option<nat> {
    if letter == 98 then Some(8)
    else if letter == 116 then Some(9)
    else if letter == 110 then Some(10)
    else if letter == 102 then Some(12)
    else if letter == 114 then Some(13)
    else if letter == QUOTE || letter == BACKSLASH || letter == 47 then Some(letter)
    else None
  }

  /** A hexadecimal digit as `JSON.stringify` writes it, in lower case. */
  predicate HexUnit(c: nat) { 48 <= c < 58 || 97 <= c < 103 }

  /** The string up to its closing quote, and what follows the quote; control characters must be escaped. */
  function ReadString(t: Text): (r: Option<(Text, Text)>)
    ensures r.Some? ==> |r.value.1| < |t|
  {
    if t == [] then None
    else if t[0] == QUOTE then Some(([], t[1..]))
    else if t[0] < 32 then None
    else if t[0] != BACKSLASH then Prepend(t[0], ReadString(t[1..]))
    else if |t| >= 2 && LongEscape(t[1]).Some? then Prepend(LongEscape(t[1]).value, ReadString(t[2..]))
    else if |t| >= 6 && t[1] == LOWER_U && forall i :: 2 <= i < 6 ==> HexUnit(t[i]) then
      Prepend(HexValue(t[2]) * 4096 + HexValue(t[3]) * 256 + HexValue(t[4]) * 16 + HexValue(t[5]), ReadString(t[6..]))
    else None
  }

  predicate DigitUnit(c: nat) { 48 <= c < 58 }

  /** The leading digits, and what follows them. */
  function ReadDigits(t: Text): (r: (seq<nat>, Text))
    ensures |r.0| + |r.1| == |t|
  {
    if t == [] || !DigitUnit(t[0]) then ([], t)
    else
      var digit: nat := t[0] - 48;
      var (d, rest) := ReadDigits(t[1..]);
      ([digit] + d, rest)
  }

  /** The digits of a number: at least one, and no zero before others. No integer is minus zero. */
  predicate NumberDigits(d: seq<nat>) { d != [] && (d[0] == 0 ==> |d| == 1) }

  /** A value and the text after it. */
  function ReadValue(t: Text): (r: Option<(Json, Text)>)
    ensures r.Some? ==> |r.value.1| < |t|
    decreases |t|, 0
  {
    if t == [] then None
    else if StartsWith(t, Ascii("null")) then Some((Null, t[4..]))
    else if StartsWith(t, Ascii("true")) then Some((Bool(true), t[4..]))
    else if StartsWith(t, Ascii("false")) then Some((Bool(false), t[5..]))
    else if t[0] == QUOTE then
      var r := ReadString(t[1..]);
      if r.None? then None else Some((Str(r.value.0), r.value.1))
    else if t[0] == 91 then
      var r := ReadItems(t[1..], true);
      if r.None? then None else Some((Arr(r.value.0), r.value.1))
    else if t[0] == 123 then
      var r := ReadFields(t[1..], true);
      if r.None? then None else Some((Obj(r.value.0), r.value.1))
    else if t[0] == 45 then
      var (d, rest) := ReadDigits(t[1..]);
      var n: int := Decimal.Value(d);
      if NumberDigits(d) && n != 0 then Some((Num(0 - n), rest)) else None
    else if DigitUnit(t[0]) then
      var (d, rest) := ReadDigits(t);
      if NumberDigits(d) then Some((Num(Decimal.Value(d)), rest)) else None
    else None
  }

  /** The elements up to the closing bracket; each but the first follows a comma. */
  function ReadItems(t: Text, first: bool): (r: Option<(seq<Json>, Text)>)
    ensures r.Some? ==> |r.value.1| < |t|
    decreases |t|, 1
  {
    if t == [] then None
    else if t[0] == 93 then Some(([], t[1..]))
    else
      var item := if first then ReadValue(t) else if t[0] == COMMA then ReadValue(t[1..]) else None;
      if item.None? then None
      else
        var rest := ReadItems(item.value.1, false);
        if rest.None? then None else Some(([item.value.0] + rest.value.0, rest.value.1))
  }

  function ReadField(t: Text): (r: Option<(Field, Text)>)
    ensures r.Some? ==> |r.value.1| < |t|
    decreases |t|, 1
  {
    if t == [] || t[0] != QUOTE then None
    else
      var key := ReadString(t[1..]);
      if key.None? || key.value.1 == [] || key.value.1[0] != COLON then None
      else
        var value := ReadValue(key.value.1[1..]);
        if value.None? then None else Some((Field(key.value.0, value.value.0), value.value.1))
  }

  function ReadFields(t: Text, first: bool): (r: Option<(seq<Field>, Text)>)
    ensures r.Some? ==> |r.value.1| < |t|
    decreases |t|, 2
  {
    if t == [] then None
    else if t[0] == 125 then Some(([], t[1..]))
    else
      var field := if first then ReadField(t) else if t[0] == COMMA then ReadField(t[1..]) else None;
      if field.None? then None
      else
        var rest := ReadFields(field.value.1, false);
        if rest.None? then None else Some(([field.value.0] + rest.value.0, rest.value.1))
  }

  lemma Cons(c: nat, x: Text)
    ensures ([c] + x)[0] == c && ([c] + x)[1..] == x && [c] + x != []
  {
  }

  lemma Assoc(a: Text, b: Text, c: Text)
    ensures a + b + c == a + (b + c)
  {
  }

  lemma {:induction false} LiteralStep(c: nat, t: Text)
    requires c != QUOTE && c != BACKSLASH && c >= 32
    ensures ReadString([c] + t) == Prepend(c, ReadString(t))
  {
    Cons(c, t);
  }

  lemma HexRoundTrip(c: nat)
    requires c < 0x10000
    ensures var h := Hex4(c); HexValue(h[0]) * 4096 + HexValue(h[1]) * 256 + HexValue(h[2]) * 16 + HexValue(h[3]) == c
    ensures forall i :: 0 <= i < 4 ==> HexUnit(Hex4(c)[i])
  {
    assert c / 256 == (c / 16) / 16 && c / 4096 == (c / 256) / 16;
  }

  lemma {:induction false} UnitStep(c: nat, t: Text)
    ensures ReadString(EscapeUnit(c) + t) == Prepend(c, ReadString(t))
  {
    var e := EscapeUnit(c) + t;
    if ShortEscape(c).Some? {
      assert e[2..] == t;
    } else if c < 32 || High(c) || Low(c) {
      assert e[6..] == t;
      assert e[2] == Hex4(c)[0] && e[3] == Hex4(c)[1] && e[4] == Hex4(c)[2] && e[5] == Hex4(c)[3];
      HexRoundTrip(c);
    } else {
      LiteralStep(c, t);
    }
  }

  lemma Prepended(s: Text, x: Text)
    requires s != []
    ensures Prepend(s[0], Some((s[1..], x))) == Some((s, x))
  {
    assert [s[0]] + s[1..] == s;
  }

  /** A quoted string is read back exactly, whatever text follows it. */
  lemma {:induction false} StringRoundTrip(s: Text, x: Text)
    ensures ReadString(Escape(s) + ([QUOTE] + x)) == Some((s, x))
    decreases |s|
  {
    var q := [QUOTE] + x;
    if s == [] {
      Cons(QUOTE, x);
      assert Escape(s) + q == q;
    } else if |s| >= 2 && High(s[0]) && Low(s[1]) {
      PairStep(s[0], s[1], Escape(s[2..]), q);
      StringRoundTrip(s[2..], x);
      Prepended(s[1..], x);
      assert s[1..][1..] == s[2..];
      Prepended(s, x);
    } else {
      Assoc(EscapeUnit(s[0]), Escape(s[1..]), q);
      UnitStep(s[0], Escape(s[1..]) + q);
      StringRoundTrip(s[1..], x);
      Prepended(s, x);
    }
  }

  lemma {:induction false} PairStep(high: nat, low: nat, tail: Text, q: Text)
    requires High(high) && Low(low)
    ensures ReadString([high, low] + tail + q) == Prepend(high, Prepend(low, ReadString(tail + q)))
  {
    assert [high, low] + tail + q == [high] + ([low] + (tail + q));
    LiteralStep(high, [low] + (tail + q));
    LiteralStep(low, tail + q);
  }

  /** Text that can follow a value: nothing, or a comma or closing bracket. */
  predicate Delimited(x: Text) {
    x == [] || x[0] in {COMMA, 93, 125}
  }

  lemma {:induction false} DigitsRoundTrip(d: seq<nat>, x: Text)
    requires Delimited(x) && forall i :: 0 <= i < |d| ==> d[i] < 10
    ensures ReadDigits(DigitText(d) + x) == (d, x)
  {
    if d == [] {
      assert DigitText(d) + x == x;
    } else {
      assert DigitText(d) == [d[0] + 48] + DigitText(d[1..]);
      Assoc([d[0] + 48], DigitText(d[1..]), x);
      Cons(d[0] + 48, DigitText(d[1..]) + x);
      DigitsRoundTrip(d[1..], x);
      assert [d[0]] + d[1..] == d;
    }
  }

  lemma NaturalRoundTrip(n: nat, x: Text)
    requires Delimited(x)
    ensures ReadDigits(DigitText(Decimal.Digits(n)) + x) == (Decimal.Digits(n), x)
      && Decimal.Value(Decimal.Digits(n)) == n
    ensures var t := DigitText(Decimal.Digits(n)) + x; t != [] && DigitUnit(t[0])
  {
    var d := Decimal.Digits(n);
    Decimal.ValueOfDigits(n);
    DigitsRoundTrip(d, x);
    assert (DigitText(d) + x)[0] == d[0] + 48;
  }

  lemma ReadNegative(u: Text, d: seq<nat>, x: Text)
    requires ReadDigits(u) == (d, x) && NumberDigits(d) && Decimal.Value(d) != 0
    ensures ReadValue([45] + u) == Some((Num(0 - Decimal.Value(d)), x))
  {
    Cons(45, u);
    NoLiteral([45] + u);
  }

  lemma ReadNatural(u: Text, d: seq<nat>, x: Text)
    requires u != [] && DigitUnit(u[0]) && ReadDigits(u) == (d, x) && NumberDigits(d)
    ensures ReadValue(u) == Some((Num(Decimal.Value(d)), x))
  {
    NoLiteral(u);
  }

  lemma NumberRoundTrip(n: int, x: Text)
    requires Delimited(x)
    ensures ReadValue(NumberText(n) + x) == Some((Num(n), x))
  {
    var d := Decimal.Digits(if n < 0 then -n else n);
    NaturalRoundTrip(if n < 0 then -n else n, x);
    Decimal.NoLeadingZero(if n < 0 then -n else n);
    if n < 0 {
      Assoc([45], DigitText(d), x);
      ReadNegative(DigitText(d) + x, d, x);
    } else {
      ReadNatural(DigitText(d) + x, d, x);
    }
  }

  /** The first code unit of a value's text is never a bracket that closes a list. */
  lemma FirstUnit(v: Json)
    ensures Render(v) != [] && Render(v)[0] != 93 && Render(v)[0] != 125
  {
    if v.Num? && v.n >= 0 {
      assert DigitText(Decimal.Digits(v.n))[0] == Decimal.Digits(v.n)[0] + 48;
    }
  }

  /** Reading back what was rendered gives the value, with its properties in the same order, and the text after it. */
  lemma {:induction false} RenderRoundTrip(v: Json, x: Text)
    requires Delimited(x)
    ensures ReadValue(Render(v) + x) == Some((v, x))
    decreases v
  {
    match v
    case Null => ReadNull(x);
    case Bool(b) => ReadBool(b, x);
    case Num(n) => NumberRoundTrip(n, x);
    case Str(s) => ReadQuoted(s, x);
    case Arr(items) =>
      ItemsRoundTrip(items, x);
      ReadBracketed(items, Join(RenderItems(items)), x);
    case Obj(fields) =>
      FieldsRoundTrip(fields, x);
      ReadBraced(fields, Join(Pairs(RenderFields(fields))), x);
  }

  lemma StartsOtherwise(t: Text, literal: Text)
    requires t != [] && literal != [] && t[0] != literal[0]
    ensures !StartsWith(t, literal)
  {
    if |t| >= |literal| { assert t[..|literal|][0] == t[0]; }
  }

  lemma ReadNull(x: Text)
    ensures ReadValue(Render(Null) + x) == Some((Null, x))
  {
    assert Render(Null) == Ascii("null");
    assert (Render(Null) + x)[..4] == Render(Null) && (Render(Null) + x)[4..] == x;
  }

  lemma ReadBool(b: bool, x: Text)
    ensures ReadValue(Render(Bool(b)) + x) == Some((Bool(b), x))
  {
    var r := Render(Bool(b));
    assert r == if b then Ascii("true") else Ascii("false");
    assert (r + x)[..|r|] == r && (r + x)[|r|..] == x;
    assert (r + x)[0] == if b then 116 else 102;
    StartsOtherwise(r + x, Ascii("null"));
    if !b { StartsOtherwise(r + x, Ascii("true")); }
  }

  /** No literal begins like a string, a list, an object or a number. */
  lemma NoLiteral(t: Text)
    requires t != [] && t[0] !in {110, 116, 102}
    ensures !StartsWith(t, Ascii("null")) && !StartsWith(t, Ascii("true")) && !StartsWith(t, Ascii("false"))
  {
    StartsOtherwise(t, Ascii("null"));
    StartsOtherwise(t, Ascii("true"));
    StartsOtherwise(t, Ascii("false"));
  }

  lemma ReadQuoted(s: Text, x: Text)
    ensures ReadValue(Quote(s) + x) == Some((Str(s), x))
  {
    var u := Escape(s) + ([QUOTE] + x);
    assert Quote(s) + x == [QUOTE] + u;
    Cons(QUOTE, u);
    NoLiteral([QUOTE] + u);
    StringRoundTrip(s, x);
  }

  lemma ReadBracketed(items: seq<Json>, inner: Text, x: Text)
    requires ReadItems(inner + ([93] + x), true) == Some((items, x))
    ensures ReadValue([91] + inner + [93] + x) == Some((Arr(items), x))
  {
    var u := inner + ([93] + x);
    assert [91] + inner + [93] + x == [91] + u;
    Cons(91, u);
    NoLiteral([91] + u);
  }

  lemma ReadBraced(fields: seq<Field>, inner: Text, x: Text)
    requires ReadFields(inner + ([125] + x), true) == Some((fields, x))
    ensures ReadValue([123] + inner + [125] + x) == Some((Obj(fields), x))
  {
    var u := inner + ([125] + x);
    assert [123] + inner + [125] + x == [123] + u;
    Cons(123, u);
    NoLiteral([123] + u);
  }

  lemma {:induction false} ItemsRoundTrip(items: seq<Json>, x: Text)
    ensures ReadItems(Join(RenderItems(items)) + ([93] + x), true) == Some((items, x))
    decreases items, 1
  {
    var q := [93] + x;
    Cons(93, x);
    if items == [] {
      assert Join(RenderItems(items)) + q == q;
    } else {
      var tail := After(RenderItems(items[1..]));
      Assoc(Render(items[0]), tail, q);
      FirstUnit(items[0]);
      AfterDelimits(RenderItems(items[1..]), q);
      RenderRoundTrip(items[0], tail + q);
      ItemsAfterRoundTrip(items[1..], x);
      assert [items[0]] + items[1..] == items;
    }
  }

  lemma AfterDelimits(texts: seq<Text>, q: Text)
    requires q != [] && Delimited(q)
    ensures Delimited(After(texts) + q) && After(texts) + q != []
  {
    if texts == [] { assert After(texts) + q == q; }
  }

  lemma {:induction false} ItemsAfterRoundTrip(items: seq<Json>, x: Text)
    ensures ReadItems(After(RenderItems(items)) + ([93] + x), false) == Some((items, x))
    decreases items, 0
  {
    var q := [93] + x;
    Cons(93, x);
    if items == [] {
      assert After(RenderItems(items)) + q == q;
    } else {
      var tail := After(RenderItems(items[1..]));
      AfterStep(Render(items[0]), tail, q);
      AfterDelimits(RenderItems(items[1..]), q);
      RenderRoundTrip(items[0], tail + q);
      ItemsAfterRoundTrip(items[1..], x);
      assert [items[0]] + items[1..] == items;
    }
  }

  lemma AfterStep(head: Text, tail: Text, q: Text)
    ensures ([COMMA] + head + tail + q)[0] == COMMA && ([COMMA] + head + tail + q)[1..] == head + (tail + q)
  {
  }

  lemma QuotedThen(key: Text, u: Text, x: Text)
    ensures Quote(key) + u + x == [QUOTE] + (Escape(key) + ([QUOTE] + (u + x)))
  {
  }

  lemma FieldRoundTrip(f: Field, value: Text, x: Text)
    requires ReadValue(value + x) == Some((f.value, x))
    ensures ReadField(Quote(f.key) + [COLON] + value + x) == Some((f, x))
    ensures (Quote(f.key) + [COLON] + value + x)[0] == QUOTE
  {
    var u := [COLON] + (value + x);
    QuotedThen(f.key, [COLON] + value, x);
    Assoc(Quote(f.key), [COLON], value);
    Assoc([COLON], value, x);
    Cons(QUOTE, Escape(f.key) + ([QUOTE] + u));
    StringRoundTrip(f.key, u);
    Cons(COLON, value + x);
  }

  /** A field read first, and the fields after it. */
  lemma ReadFirstField(f: Field, rest: seq<Field>, t: Text, u: Text, x: Text)
    requires t != [] && t[0] == QUOTE && ReadField(t) == Some((f, u)) && ReadFields(u, false) == Some((rest, x))
    ensures ReadFields(t, true) == Some(([f] + rest, x))
  {
  }

  lemma ReadNextField(f: Field, rest: seq<Field>, t: Text, u: Text, x: Text)
    requires t != [] && t[0] == COMMA && ReadField(t[1..]) == Some((f, u)) && ReadFields(u, false) == Some((rest, x))
    ensures ReadFields(t, false) == Some(([f] + rest, x))
  {
  }

  function FieldText(f: Field): Text {
    Quote(f.key) + [COLON] + Render(f.value)
  }

  lemma FirstAndRest<T>(s: seq<T>)
    requires s != []
    ensures [s[0]] + s[1..] == s
  {
  }

  lemma {:induction false} FieldsRoundTrip(fields: seq<Field>, x: Text)
    ensures ReadFields(Join(Pairs(RenderFields(fields))) + ([125] + x), true) == Some((fields, x))
    decreases fields, 1
  {
    var q := [125] + x;
    Cons(125, x);
    if fields == [] {
      assert Join(Pairs(RenderFields(fields))) + q == q;
    } else {
      var f, tail := fields[0], After(Pairs(RenderFields(fields[1..])));
      Assoc(FieldText(f), tail, q);
      AfterDelimits(Pairs(RenderFields(fields[1..])), q);
      RenderRoundTrip(f.value, tail + q);
      FieldRoundTrip(f, Render(f.value), tail + q);
      FieldsAfterRoundTrip(fields[1..], x);
      ReadFirstField(f, fields[1..], FieldText(f) + (tail + q), tail + q, x);
      FirstAndRest(fields);
    }
  }

  lemma {:induction false} FieldsAfterRoundTrip(fields: seq<Field>, x: Text)
    ensures ReadFields(After(Pairs(RenderFields(fields))) + ([125] + x), false) == Some((fields, x))
    decreases fields, 0
  {
    var q := [125] + x;
    Cons(125, x);
    if fields == [] {
      assert After(Pairs(RenderFields(fields))) + q == q;
    } else {
      var f, tail := fields[0], After(Pairs(RenderFields(fields[1..])));
      AfterStep(FieldText(f), tail, q);
      AfterDelimits(Pairs(RenderFields(fields[1..])), q);
      RenderRoundTrip(f.value, tail + q);
      FieldRoundTrip(f, Render(f.value), tail + q);
      FieldsAfterRoundTrip(fields[1..], x);
      ReadNextField(f, fields[1..], [COMMA] + FieldText(f) + tail + q, tail + q, x);
      FirstAndRest(fields);
    }
  }

  // ---- What the text looks like ----

  /** Printable: no control character, and every surrogate is half of a pair. */
  predicate Printable(t: Text)
    decreases |t|
  {
    if t == [] then true
    else if High(t[0]) then |t| >= 2 && Low(t[1]) && Printable(t[2..])
    else t[0] >= 32 && !Low(t[0]) && Printable(t[1..])
  }

  lemma {:induction false} PrintableConcat(a: Text, b: Text)
    requires Printable(a) && Printable(b)
    ensures Printable(a + b)
    decreases |a|
  {
    if a == [] {
      assert a + b == b;
    } else if High(a[0]) {
      PrintableConcat(a[2..], b);
      assert (a + b)[2..] == a[2..] + b;
    } else {
      PrintableConcat(a[1..], b);
      assert (a + b)[1..] == a[1..] + b;
    }
  }

  /** The halves of a surrogate pair, by their leading six bits (section 2 of RFC 2781). */
  lemma SurrogateHalves(c: nat)
    ensures High(c) <==> c / 0x400 == 54
    ensures Low(c) <==> c / 0x400 == 55
  {
  }

  /** Text without surrogates or control characters, unit by unit. */
  lemma {:induction false} PlainIsPrintable(t: Text)
    requires forall i :: 0 <= i < |t| ==> t[i] >= 32 && !High(t[i]) && !Low(t[i])
    ensures Printable(t)
    decreases |t|
  {
    if t != [] { PlainIsPrintable(t[1..]); }
  }

  lemma UnitIsPrintable(c: nat)
    ensures Printable(EscapeUnit(c))
  {
    PlainIsPrintable(EscapeUnit(c));
  }

  lemma {:induction false} QuoteIsPrintable(s: Text)
    ensures Printable(Escape(s)) && Printable(Quote(s))
    decreases |s|
  {
    if s == [] {
    } else if |s| >= 2 && High(s[0]) && Low(s[1]) {
      QuoteIsPrintable(s[2..]);
      assert Escape(s)[2..] == Escape(s[2..]);
    } else {
      QuoteIsPrintable(s[1..]);
      UnitIsPrintable(s[0]);
      PrintableConcat(EscapeUnit(s[0]), Escape(s[1..]));
    }
    PlainIsPrintable([QUOTE]);
    PrintableConcat([QUOTE], Escape(s));
    PrintableConcat([QUOTE] + Escape(s), [QUOTE]);
  }

  lemma {:induction false} AfterIsPrintable(texts: seq<Text>)
    requires forall i :: 0 <= i < |texts| ==> Printable(texts[i])
    ensures Printable(After(texts))
  {
    if texts != [] {
      AfterIsPrintable(texts[1..]);
      PlainIsPrintable([COMMA]);
      PrintableConcat([COMMA], texts[0]);
      PrintableConcat([COMMA] + texts[0], After(texts[1..]));
    }
  }

  lemma JoinIsPrintable(texts: seq<Text>, first: nat, last: nat)
    requires forall i :: 0 <= i < |texts| ==> Printable(texts[i])
    requires 32 <= first < 127 && 32 <= last < 127
    ensures Printable([first] + Join(texts) + [last])
  {
    if texts != [] {
      AfterIsPrintable(texts[1..]);
      PrintableConcat(texts[0], After(texts[1..]));
    }
    PlainIsPrintable([first]);
    PlainIsPrintable([last]);
    PrintableConcat([first], Join(texts));
    PrintableConcat([first] + Join(texts), [last]);
  }

  /** Whatever the strings of a value hold, its text is well-formed Unicode without control characters. */
  lemma {:induction false} RenderIsPrintable(v: Json)
    ensures Printable(Render(v))
    decreases v
  {
    match v
    case Str(s) => QuoteIsPrintable(s);
    case Arr(items) =>
      ItemsArePrintable(items);
      JoinIsPrintable(RenderItems(items), 91, 93);
    case Obj(fields) =>
      FieldsArePrintable(fields);
      JoinIsPrintable(Pairs(RenderFields(fields)), 123, 125);
    case _ => PlainIsPrintable(Render(v));
  }

  lemma {:induction false} ItemsArePrintable(items: seq<Json>)
    ensures forall i :: 0 <= i < |RenderItems(items)| ==> Printable(RenderItems(items)[i])
    decreases items
  {
    if items != [] {
      RenderIsPrintable(items[0]);
      ItemsArePrintable(items[1..]);
    }
  }

  lemma {:induction false} FieldsArePrintable(fields: seq<Field>)
    ensures forall i :: 0 <= i < |Pairs(RenderFields(fields))| ==> Printable(Pairs(RenderFields(fields))[i])
    decreases fields
  {
    if fields != [] {
      RenderIsPrintable(fields[0].value);
      FieldsArePrintable(fields[1..]);
      QuoteIsPrintable(fields[0].key);
      PlainIsPrintable([COLON]);
      PrintableConcat(Quote(fields[0].key), [COLON]);
      PrintableConcat(Quote(fields[0].key) + [COLON], Render(fields[0].value));
    }
  }

  /** Nothing is escaped that need not be: printable text without quotes and backslashes is written as it is. */
  lemma {:induction false} PlainTextIsKept(s: Text)
    requires Printable(s) && forall i :: 0 <= i < |s| ==> s[i] != QUOTE && s[i] != BACKSLASH
    ensures Escape(s) == s
    decreases |s|
  {
    if s == [] {
    } else if High(s[0]) {
      PlainTextIsKept(s[2..]);
      assert s == [s[0], s[1]] + s[2..];
    } else {
      PlainTextIsKept(s[1..]);
      assert s == [s[0]] + s[1..];
    }
  }

  /** What is escaped takes two units for the characters that have a letter (section 7 of RFC 8259), and else six. */
  lemma EscapesAreShort(c: nat)
    ensures (exists letter :: letter != 47 && LongEscape(letter) == Some(c)) <==> |EscapeUnit(c)| == 2
    ensures |EscapeUnit(c)| in {1, 2, 6}
  {
    if ShortEscape(c).Some? { assert LongEscape(ShortEscape(c).value) == Some(c); }
  }

  /** Different values have different texts. */
  lemma RenderInjective(a: Json, b: Json)
    requires Render(a) == Render(b)
    ensures a == b
  {
    assert Render(a) + [] == Render(a) && Render(b) + [] == Render(b);
    RenderRoundTrip(a, []);
    RenderRoundTrip(b, []);
  }
}
