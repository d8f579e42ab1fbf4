/**
 The text backend/app/sensitive_config.py hashes: Python's json.dumps with compact separators and ASCII escapes.  An
 object lists its fields in the order given, which for sort_keys is that of their names.
 */
module CanonicalJson {
  datatype Json = Text(text: string) | Flag(flag: bool) | Array(items: seq<Json>) | Object(fields: seq<Field>)
  datatype Field = Field(name: string, value: Json)

  // ---------------------------------------------------------------------------
  // Strings
  // ---------------------------------------------------------------------------

  type Hex = x: int | 0 <= x < 16
  type Unit = x: int | 0 <= x < 0x10000

  function HexDigit(d: Hex): char { if d < 10 then ('0' as int + d) as char else ('a' as int + d - 10) as char }

  function HexValue(c: char): Hex {
    if '0' <= c <= '9' then c as int - '0' as int else if 'a' <= c <= 'f' then c as int - 'a' as int + 10 else 0
  }

  /** A four-digit escape of one UTF-16 unit. */
  function UnitEscape(u: Unit): string {
    ['\\', 'u', HexDigit(u / 4096), HexDigit(u / 256 % 16), HexDigit(u / 16 % 16), HexDigit(u % 16)]
  }

  /** How one character is written inside a string literal. */
  function Escape(c: char): string {
    var code := c as int;
    if c == '"' then "\\\""
    else if c == '\\' then "\\\\"
    else if code == 8 then "\\b"
    else if code == 9 then "\\t"
    else if code == 10 then "\\n"
    else if code == 12 then "\\f"
    else if code == 13 then "\\r"
    else if 0x20 <= code <= 0x7E then [c]
    else if code < 0x10000 then UnitEscape(code)
    else UnitEscape(0xD800 + (code - 0x10000) / 1024) + UnitEscape(0xDC00 + (code - 0x10000) % 1024)
  }

  /** The characters of a literal and its closing quote. */
  function Quoted(s: string): string { if s == [] then "\"" else Escape(s[0]) + Quoted(s[1..]) }

  // ---------------------------------------------------------------------------
  // Values
  // ---------------------------------------------------------------------------

  function Dumps(j: Json): string
    decreases j, 0
  {
    match j
    case Text(s) => "\"" + Quoted(s)
    case Flag(b) => if b then "true" else "false"
    case Array(items) => "[" + if items == [] then "]" else Dumps(items[0]) + MoreItems(items[1..])
    case Object(fields) => "{" + if fields == [] then "}" else DumpField(fields[0]) + MoreFields(fields[1..])
  }

  function MoreItems(items: seq<Json>): string
    decreases items, 0
  {
    if items == [] then "]" else "," + Dumps(items[0]) + MoreItems(items[1..])
  }

  function DumpField(f: Field): string
    decreases f, 0
  {
    "\"" + Quoted(f.name) + ":" + Dumps(f.value)
  }

  function MoreFields(fields: seq<Field>): string
    decreases fields, 0
  {
    if fields == [] then "}" else "," + DumpField(fields[0]) + MoreFields(fields[1..])
  }

  // ---------------------------------------------------------------------------
  // What the text looks like
  // ---------------------------------------------------------------------------

  /** Printable ASCII other than the quotation mark and the backslash. */
  predicate Plain(s: string) { forall c :: c in s ==> ' ' <= c <= '~' && c != '"' && c != '\\' }

  lemma {:induction false} PlainQuoted(s: string)
    requires Plain(s)
    ensures Quoted(s) == s + "\""
  {
    if s != "" {
      assert s[0] in s && forall c :: c in s[1..] ==> c in s;
      PlainQuoted(s[1..]);
    }
  }

  /** The texts with a comma between any two. */
  function Listed(texts: seq<string>): string {
    if texts == [] then "" else if |texts| == 1 then texts[0] else texts[0] + "," + Listed(texts[1..])
  }

  /** A name and a value with a colon between them. */
  function Pair(name: string, text: string): string { "\"" + name + "\":" + text }

  lemma {:induction false} ItemsListed(items: seq<Json>, texts: seq<string>)
    requires |texts| == |items| && forall i :: 0 <= i < |items| ==> texts[i] == Dumps(items[i])
    ensures ArrayBody(items) == Listed(texts) + "]"
  {
    hide Dumps;
    if |items| > 1 {
      var rest := items[1..];
      ItemsListed(rest, texts[1..]);
      assert MoreItems(rest) == "," + ArrayBody(rest);
      assert ArrayBody(items) == texts[0] + MoreItems(rest);
    }
  }

  /** An array is its values' texts between brackets, with commas and nothing else between them. */
  lemma ArrayText(items: seq<Json>, texts: seq<string>)
    requires |texts| == |items| && forall i :: 0 <= i < |items| ==> texts[i] == Dumps(items[i])
    ensures Dumps(Array(items)) == "[" + Listed(texts) + "]"
  {
    assert Dumps(Array(items)) == "[" + ArrayBody(items);
    hide Dumps, ArrayBody;
    ItemsListed(items, texts);
  }

  lemma FieldText(f: Field)
    requires Plain(f.name)
    ensures DumpField(f) == Pair(f.name, Dumps(f.value))
  {
    hide Dumps;
    PlainQuoted(f.name);
  }

  lemma {:induction false} FieldsListed(fields: seq<Field>, texts: seq<string>)
    requires |texts| == |fields| && forall i :: 0 <= i < |fields| ==> texts[i] == DumpField(fields[i])
    ensures ObjectBody(fields) == Listed(texts) + "}"
  {
    hide DumpField;
    if |fields| > 1 {
      var rest := fields[1..];
      FieldsListed(rest, texts[1..]);
      assert MoreFields(rest) == "," + ObjectBody(rest);
      assert ObjectBody(fields) == texts[0] + MoreFields(rest);
    }
  }

  /** An object is its fields between braces, each its name in quotes, a colon and its value, and nothing else. */
  lemma ObjectText(fields: seq<Field>, texts: seq<string>)
    requires |texts| == |fields|
    requires forall i :: 0 <= i < |fields| ==>
      Plain(fields[i].name) && texts[i] == Pair(fields[i].name, Dumps(fields[i].value))
    ensures Dumps(Object(fields)) == "{" + Listed(texts) + "}"
  {
    assert Dumps(Object(fields)) == "{" + ObjectBody(fields);
    hide Dumps, ObjectBody, Pair, Plain;
    forall i | 0 <= i < |fields| ensures texts[i] == DumpField(fields[i]) { FieldText(fields[i]); }
    FieldsListed(fields, texts);
  }

  lemma PlainText(s: string)
    requires Plain(s)
    ensures Dumps(Text(s)) == "\"" + s + "\""
  {
    PlainQuoted(s);
  }

  // ---------------------------------------------------------------------------
  // No text begins with another's: strings
  // ---------------------------------------------------------------------------

  function UnitAt(s: string): Unit {
    if |s| < 6 then 0
    else HexValue(s[2]) * 4096 + HexValue(s[3]) * 256 + HexValue(s[4]) * 16 + HexValue(s[5])
  }

  /** The code point and the length of the escape a text begins with. */
  function FirstChar(s: string): (int, nat) {
    if |s| == 0 then (0, 0)
    else if s[0] != '\\' || |s| == 1 then (s[0] as int, 1)
    else if s[1] == 'b' then (8, 2)
    else if s[1] == 't' then (9, 2)
    else if s[1] == 'n' then (10, 2)
    else if s[1] == 'f' then (12, 2)
    else if s[1] == 'r' then (13, 2)
    else if s[1] != 'u' || |s| < 6 then (s[1] as int, 2)
    else if 0xD800 <= UnitAt(s) < 0xDC00 then (0x10000 + (UnitAt(s) - 0xD800) * 1024 + UnitAt(s[6..]) - 0xDC00, 12)
    else (UnitAt(s), 6)
  }

  lemma HexRoundTrip(d: Hex)
    ensures HexValue(HexDigit(d)) == d
  {
  }

  lemma UnitRoundTrip(u: Unit, rest: string)
    ensures UnitAt(UnitEscape(u) + rest) == u
  {
    HexRoundTrip(u / 4096);
    HexRoundTrip(u / 256 % 16);
    HexRoundTrip(u / 16 % 16);
    HexRoundTrip(u % 16);
    hide HexDigit, HexValue;
    assert u / 4096 * 4096 + u / 256 % 16 * 256 + u / 16 % 16 * 16 + u % 16 == u by { Digits(u); }
  }

  lemma Digits(u: Unit)
    ensures u / 4096 * 4096 + u / 256 % 16 * 256 + u / 16 % 16 * 16 + u % 16 == u
  {
    assert u / 256 / 16 == u / 4096 && u / 16 / 16 == u / 256;
  }

  /** An escape can be read back, whatever follows it. */
  lemma EscapeRoundTrip(c: char, rest: string)
    ensures FirstChar(Escape(c) + rest) == (c as int, |Escape(c)|)
    ensures |Escape(c)| > 0 && Escape(c)[0] != '"'
  {
    hide UnitAt, UnitEscape;
    var code := c as int;
    if code >= 0x10000 {
      PairRoundTrip(c, rest);
    } else if !(0x20 <= code <= 0x7E) && code !in {8, 9, 10, 12, 13} {
      UnitRoundTrip(code, rest);
      UnitShape(code);
    }
  }

  lemma UnitShape(u: Unit)
    ensures |UnitEscape(u)| == 6 && UnitEscape(u)[0] == '\\' && UnitEscape(u)[1] == 'u'
  {
  }

  lemma PairRoundTrip(c: char, rest: string)
    requires c as int >= 0x10000
    ensures FirstChar(Escape(c) + rest) == (c as int, |Escape(c)|)
    ensures |Escape(c)| > 0 && Escape(c)[0] != '"'
  {
    var high, low := 0xD800 + (c as int - 0x10000) / 1024, 0xDC00 + (c as int - 0x10000) % 1024;
    assert Escape(c) == UnitEscape(high) + UnitEscape(low);
    ReadsPair(high, low, Escape(c), rest);
  }

  lemma ReadsPair(high: Unit, low: Unit, pair: string, rest: string)
    requires 0xD800 <= high < 0xDC00 && pair == UnitEscape(high) + UnitEscape(low)
    ensures FirstChar(pair + rest) == (0x10000 + (high - 0xD800) * 1024 + low - 0xDC00, 12)
    ensures |pair| == 12 && pair[0] != '"'
  {
    UnitRoundTrip(high, UnitEscape(low) + rest);
    UnitRoundTrip(low, rest);
    UnitShape(high);
    UnitShape(low);
    hide UnitAt, UnitEscape;
    assert pair + rest == UnitEscape(high) + (UnitEscape(low) + rest);
    assert (pair + rest)[6..] == UnitEscape(low) + rest;
  }

  lemma QuotedUnfolds(s: string, x: string)
    requires s != []
    ensures Quoted(s) + x == Escape(s[0]) + (Quoted(s[1..]) + x)
  {
    hide Escape;
  }

  lemma QuotedOpens(s: string, x: string)
    ensures |Quoted(s) + x| > 0 && ((Quoted(s) + x)[0] == '"' <==> s == [])
    ensures s == [] ==> (Quoted(s) + x)[1..] == x
  {
    hide Escape, FirstChar;
    if s != [] { EscapeRoundTrip(s[0], []); }
  }

  lemma {:induction false} QuotedIsPrefixFree(s: string, t: string, x: string, y: string)
    requires Quoted(s) + x == Quoted(t) + y
    ensures s == t && x == y
  {
    hide Escape, FirstChar, Quoted;
    QuotedOpens(s, x);
    QuotedOpens(t, y);
    if s != [] {
      var x', y' := Quoted(s[1..]) + x, Quoted(t[1..]) + y;
      QuotedUnfolds(s, x);
      QuotedUnfolds(t, y);
      EscapeRoundTrip(s[0], x');
      EscapeRoundTrip(t[0], y');
      assert x' == (Escape(s[0]) + x')[|Escape(s[0])|..] && y' == (Escape(t[0]) + y')[|Escape(t[0])|..];
      QuotedIsPrefixFree(s[1..], t[1..], x, y);
    }
  }

  // ---------------------------------------------------------------------------
  // No text begins with another's: values
  // ---------------------------------------------------------------------------

  function Opening(j: Json): char {
    match j
    case Text(_) => '"'
    case Flag(b) => if b then 't' else 'f'
    case Array(_) => '['
    case Object(_) => '{'
  }

  lemma OpeningChar(j: Json)
    ensures |Dumps(j)| > 0 && Dumps(j)[0] == Opening(j)
  {
    hide Quoted, MoreItems, MoreFields;
  }

  lemma FlagIsPrefixFree(a: bool, b: bool, x: string, y: string)
    requires Dumps(Flag(a)) + x == Dumps(Flag(b)) + y
    ensures a == b && x == y
  {
    var s := Dumps(Flag(a)) + x;
    assert s[0] == Dumps(Flag(a))[0] && s[0] == Dumps(Flag(b))[0];
    assert x == s[|Dumps(Flag(a))|..];
    assert y == s[|Dumps(Flag(b))|..];
  }

  /** What a text says is settled by the text itself, whatever follows it. */
  lemma {:induction false} DumpsIsPrefixFree(a: Json, b: Json, x: string, y: string)
    requires Dumps(a) + x == Dumps(b) + y
    ensures a == b && x == y
    decreases a, 0
  {
    OpeningChar(a);
    OpeningChar(b);
    hide Quoted, MoreItems, MoreFields;
    assert Opening(a) == (Dumps(a) + x)[0] && Opening(b) == (Dumps(b) + y)[0];
    match a
    case Text(s) =>
      assert Quoted(s) + x == (Dumps(a) + x)[1..] && Quoted(b.text) + y == (Dumps(b) + y)[1..];
      QuotedIsPrefixFree(s, b.text, x, y);
    case Flag(f) => FlagIsPrefixFree(f, b.flag, x, y);
    case Array(items) => ArrayIsPrefixFree(items, b.items, x, y);
    case Object(fields) => ObjectIsPrefixFree(fields, b.fields, x, y);
  }

  function ArrayBody(items: seq<Json>): string { if items == [] then "]" else Dumps(items[0]) + MoreItems(items[1..]) }

  function ObjectBody(fields: seq<Field>): string {
    if fields == [] then "}" else DumpField(fields[0]) + MoreFields(fields[1..])
  }

  lemma ArrayUnfolds(a: seq<Json>, x: string)
    ensures (Dumps(Array(a)) + x)[1..] == ArrayBody(a) + x
  {
    hide MoreItems, MoreFields, Quoted, DumpField;
    assert Dumps(Array(a)) == "[" + ArrayBody(a);
  }

  lemma {:induction false} ArrayIsPrefixFree(a: seq<Json>, b: seq<Json>, x: string, y: string)
    requires Dumps(Array(a)) + x == Dumps(Array(b)) + y
    ensures a == b && x == y
    decreases a, 1
  {
    hide Dumps, MoreItems, MoreFields;
    ArrayUnfolds(a, x);
    ArrayUnfolds(b, y);
    BodyIsPrefixFree(a, b, x, y);
  }

  lemma {:induction false} BodyIsPrefixFree(a: seq<Json>, b: seq<Json>, x: string, y: string)
    requires ArrayBody(a) + x == ArrayBody(b) + y
    ensures a == b && x == y
    decreases a, 0
  {
    hide Dumps, MoreItems;
    if a != [] { OpeningChar(a[0]); }
    if b != [] { OpeningChar(b[0]); }
    assert (ArrayBody(a) + x)[0] == (ArrayBody(b) + y)[0];
    if a == [] {
      assert x == (ArrayBody(a) + x)[1..] && y == (ArrayBody(b) + y)[1..];
    } else {
      var x', y' := MoreItems(a[1..]) + x, MoreItems(b[1..]) + y;
      assert ArrayBody(a) + x == Dumps(a[0]) + x' && ArrayBody(b) + y == Dumps(b[0]) + y';
      DumpsIsPrefixFree(a[0], b[0], x', y');
      MoreItemsIsPrefixFree(a[1..], b[1..], x, y);
      assert a == [a[0]] + a[1..] && b == [b[0]] + b[1..];
    }
  }

  lemma {:induction false} MoreItemsIsPrefixFree(a: seq<Json>, b: seq<Json>, x: string, y: string)
    requires MoreItems(a) + x == MoreItems(b) + y
    ensures a == b && x == y
    decreases a, 1
  {
    hide Dumps, DumpField;
    assert (MoreItems(a) + x)[0] == (MoreItems(b) + y)[0];
    if a == [] {
      assert x == (MoreItems(a) + x)[1..] && y == (MoreItems(b) + y)[1..];
    } else {
      MoreItemsUnfolds(a, x);
      MoreItemsUnfolds(b, y);
      BodyIsPrefixFree(a, b, x, y);
    }
  }

  lemma MoreItemsUnfolds(a: seq<Json>, x: string)
    requires a != []
    ensures (MoreItems(a) + x)[1..] == ArrayBody(a) + x
  {
    hide Dumps, DumpField;
  }

  lemma {:induction false} FieldIsPrefixFree(a: Field, b: Field, x: string, y: string)
    requires DumpField(a) + x == DumpField(b) + y
    ensures a == b && x == y
    decreases a, 0
  {
    hide Dumps, Quoted;
    var p, q := ":" + Dumps(a.value) + x, ":" + Dumps(b.value) + y;
    assert Quoted(a.name) + p == (DumpField(a) + x)[1..] && Quoted(b.name) + q == (DumpField(b) + y)[1..];
    QuotedIsPrefixFree(a.name, b.name, p, q);
    assert Dumps(a.value) + x == p[1..] && Dumps(b.value) + y == q[1..];
    DumpsIsPrefixFree(a.value, b.value, x, y);
  }

  lemma ObjectUnfolds(a: seq<Field>, x: string)
    ensures (Dumps(Object(a)) + x)[1..] == ObjectBody(a) + x
  {
    hide MoreItems, MoreFields, Quoted, DumpField;
    assert Dumps(Object(a)) == "{" + ObjectBody(a);
  }

  lemma {:induction false} ObjectIsPrefixFree(a: seq<Field>, b: seq<Field>, x: string, y: string)
    requires Dumps(Object(a)) + x == Dumps(Object(b)) + y
    ensures a == b && x == y
    decreases a, 1
  {
    hide Dumps, MoreItems, MoreFields;
    ObjectUnfolds(a, x);
    ObjectUnfolds(b, y);
    FieldsBodyIsPrefixFree(a, b, x, y);
  }

  lemma {:induction false} FieldsBodyIsPrefixFree(a: seq<Field>, b: seq<Field>, x: string, y: string)
    requires ObjectBody(a) + x == ObjectBody(b) + y
    ensures a == b && x == y
    decreases a, 0
  {
    hide DumpField, MoreFields;
    if a != [] { FieldOpens(a[0]); }
    if b != [] { FieldOpens(b[0]); }
    assert (ObjectBody(a) + x)[0] == (ObjectBody(b) + y)[0];
    if a == [] {
      assert x == (ObjectBody(a) + x)[1..] && y == (ObjectBody(b) + y)[1..];
    } else {
      var x', y' := MoreFields(a[1..]) + x, MoreFields(b[1..]) + y;
      assert ObjectBody(a) + x == DumpField(a[0]) + x' && ObjectBody(b) + y == DumpField(b[0]) + y';
      FieldIsPrefixFree(a[0], b[0], x', y');
      MoreFieldsIsPrefixFree(a[1..], b[1..], x, y);
      assert a == [a[0]] + a[1..] && b == [b[0]] + b[1..];
    }
  }

  lemma FieldOpens(f: Field)
    ensures |DumpField(f)| > 0 && DumpField(f)[0] == '"'
  {
    hide Dumps, Quoted;
  }

  lemma {:induction false} MoreFieldsIsPrefixFree(a: seq<Field>, b: seq<Field>, x: string, y: string)
    requires MoreFields(a) + x == MoreFields(b) + y
    ensures a == b && x == y
    decreases a, 1
  {
    hide Dumps, DumpField;
    assert (MoreFields(a) + x)[0] == (MoreFields(b) + y)[0];
    if a == [] {
      assert x == (MoreFields(a) + x)[1..] && y == (MoreFields(b) + y)[1..];
    } else {
      MoreFieldsUnfolds(a, x);
      MoreFieldsUnfolds(b, y);
      FieldsBodyIsPrefixFree(a, b, x, y);
    }
  }

  lemma MoreFieldsUnfolds(a: seq<Field>, x: string)
    requires a != []
    ensures (MoreFields(a) + x)[1..] == ObjectBody(a) + x
  {
    hide Dumps, DumpField;
  }

  /** Two values have one text exactly when they are the same value. */
  lemma DumpsIsInjective(a: Json, b: Json)
    ensures Dumps(a) == Dumps(b) <==> a == b
  {
    if Dumps(a) == Dumps(b) {
      assert Dumps(a) + [] == Dumps(b) + [];
      DumpsIsPrefixFree(a, b, [], []);
    }
  }
}
