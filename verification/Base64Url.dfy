/**
 The base64url codec of frontend/js/auth.js: one encoder and two decoders that pad differently.  The alphabet is that of
 section 5 of RFC 4648, without padding (section 3.2); btoa and atob are the browser's, over binary strings.
 */
module Base64Url {
  import opened Options

  type Byte = x: int | 0 <= x < 256
  type Sextet = x: int | 0 <= x < 64

  // ---------------------------------------------------------------------------
  // Bits: groups of three bytes and of four sextets
  // ---------------------------------------------------------------------------

  // the four sextets of bytes a, b, c
  function First(a: Byte): Sextet { a / 4 }
  function Second(a: Byte, b: Byte): Sextet { (a % 4) * 16 + b / 16 }
  function Third(b: Byte, c: Byte): Sextet { (b % 16) * 4 + c / 64 }
  function Fourth(c: Byte): Sextet { c % 64 }

  // the three bytes of sextets p, q, r, s
  function Upper(p: Sextet, q: Sextet): Byte { p * 4 + q / 16 }
  function Middle(q: Sextet, r: Sextet): Byte { (q % 16) * 16 + r / 4 }
  function Lower(r: Sextet, s: Sextet): Byte { (r % 4) * 64 + s }

  lemma GroupOfBytes(a: Byte, b: Byte, c: Byte)
    ensures Upper(First(a), Second(a, b)) == a
    ensures Middle(Second(a, b), Third(b, c)) == b
    ensures Lower(Third(b, c), Fourth(c)) == c
    ensures Second(a, 0) % 16 == 0 && Third(b, 0) % 4 == 0
  {
  }

  lemma GroupOfSextets(p: Sextet, q: Sextet, r: Sextet, s: Sextet)
    ensures First(Upper(p, q)) == p
    ensures Second(Upper(p, q), Middle(q, r)) == q
    ensures Third(Middle(q, r), Lower(r, s)) == r
    ensures Fourth(Lower(r, s)) == s
    ensures q % 16 == 0 ==> Second(Upper(p, q), 0) == q
    ensures r % 4 == 0 ==> Third(Middle(q, r), 0) == r
  {
  }

  function Sextets(b: seq<Byte>): (v: seq<Sextet>)
    ensures |v| % 4 != 1
  {
    if |b| == 0 then []
    else if |b| == 1 then [First(b[0]), Second(b[0], 0)]
    else if |b| == 2 then [First(b[0]), Second(b[0], b[1]), Third(b[1], 0)]
    else [First(b[0]), Second(b[0], b[1]), Third(b[1], b[2]), Fourth(b[2])] + Sextets(b[3..])
  }

  /** The whole bytes in a run of sextets; bits left over are dropped. */
  function Bytes(v: seq<Sextet>): (b: seq<Byte>)
    requires |v| % 4 != 1
  {
    if |v| == 0 then []
    else if |v| == 2 then [Upper(v[0], v[1])]
    else if |v| == 3 then [Upper(v[0], v[1]), Middle(v[1], v[2])]
    else [Upper(v[0], v[1]), Middle(v[1], v[2]), Lower(v[2], v[3])] + Bytes(v[4..])
  }

  /** The bits that do not fill a byte are zero. */
  predicate NoLooseBits(v: seq<Sextet>) {
    && (|v| % 4 == 2 ==> v[|v| - 1] % 16 == 0)
    && (|v| % 4 == 3 ==> v[|v| - 1] % 4 == 0)
  }

  lemma {:induction false} SextetsLength(b: seq<Byte>)
    ensures |Sextets(b)| == (4 * |b| + 2) / 3
  {
    if |b| >= 3 { SextetsLength(b[3..]); }
  }

  lemma {:induction false} BytesOfSextets(b: seq<Byte>)
    ensures Bytes(Sextets(b)) == b && NoLooseBits(Sextets(b))
  {
    hide First, Second, Third, Fourth, Upper, Middle, Lower;
    if |b| == 0 {
    } else if |b| == 1 {
      GroupOfBytes(b[0], 0, 0);
    } else if |b| == 2 {
      GroupOfBytes(b[0], b[1], 0);
    } else {
      GroupOfBytes(b[0], b[1], b[2]);
      BytesOfSextets(b[3..]);
      var rest := Sextets(b[3..]);
      GroupAppended(Sextets(b)[..4], rest);
      assert Sextets(b)[4..] == rest && Sextets(b) == Sextets(b)[..4] + rest;
      assert b == [b[0], b[1], b[2]] + b[3..];
    }
  }

  lemma GroupAppended(group: seq<Sextet>, rest: seq<Sextet>)
    requires |group| == 4 && NoLooseBits(rest)
    ensures |group + rest| % 4 == |rest| % 4 && NoLooseBits(group + rest)
  {
  }

  lemma {:induction false} SextetsOfBytes(v: seq<Sextet>)
    requires |v| % 4 != 1 && NoLooseBits(v)
    ensures Sextets(Bytes(v)) == v
  {
    hide First, Second, Third, Fourth, Upper, Middle, Lower;
    if |v| == 0 {
    } else if |v| == 2 {
      GroupOfSextets(v[0], v[1], 0, 0);
    } else if |v| == 3 {
      GroupOfSextets(v[0], v[1], v[2], 0);
    } else {
      GroupOfSextets(v[0], v[1], v[2], v[3]);
      var rest := v[4..];
      GroupDropped(v, rest);
      SextetsOfBytes(rest);
      hide NoLooseBits;
      assert Bytes(v)[3..] == Bytes(rest);
      assert v == [v[0], v[1], v[2], v[3]] + rest;
    }
  }

  lemma GroupDropped(v: seq<Sextet>, rest: seq<Sextet>)
    requires |v| >= 4 && rest == v[4..] && NoLooseBits(v)
    ensures |rest| % 4 == |v| % 4 && NoLooseBits(rest)
  {
  }

  // ---------------------------------------------------------------------------
  // Characters
  // ---------------------------------------------------------------------------

  /** The standard alphabet. */
  function Char(v: Sextet): char {
    if v < 26 then ('A' as int + v) as char
    else if v < 52 then ('a' as int + v - 26) as char
    else if v < 62 then ('0' as int + v - 52) as char
    else if v == 62 then '+' else '/'
  }

  function Value(c: char): Option<Sextet> {
    if 'A' <= c <= 'Z' then Some(c as int - 'A' as int)
    else if 'a' <= c <= 'z' then Some(c as int - 'a' as int + 26)
    else if '0' <= c <= '9' then Some(c as int - '0' as int + 52)
    else if c == '+' then Some(62) else if c == '/' then Some(63) else None
  }

  function Chars(v: seq<Sextet>): (s: string)
    ensures |s| == |v| && forall i :: 0 <= i < |v| ==> s[i] == Char(v[i])
  {
    seq(|v|, i requires 0 <= i < |v| => Char(v[i]))
  }

  predicate InAlphabet(s: string) { forall i :: 0 <= i < |s| ==> Value(s[i]).Some? }

  function Values(s: string): (v: seq<Sextet>)
    requires InAlphabet(s)
    ensures |v| == |s| && forall i :: 0 <= i < |s| ==> Value(s[i]) == Some(v[i])
  {
    seq(|s|, i requires 0 <= i < |s| => Value(s[i]).value)
  }

  function Repeat(c: char, n: nat): (s: string)
    ensures |s| == n && forall i :: 0 <= i < n ==> s[i] == c
  {
    seq(n, _ => c)
  }

  function ReplaceAll(s: string, c: char, repl: string): string {
    if s == [] then [] else (if s[0] == c then repl else [s[0]]) + ReplaceAll(s[1..], c, repl)
  }

  // ---------------------------------------------------------------------------
  // btoa and atob
  // ---------------------------------------------------------------------------

  function Btoa(b: seq<Byte>): string { Chars(Sextets(b)) + Repeat('=', (3 - |b| % 3) % 3) }

  predicate IsSpace(c: char) { c == '\t' || c == '\n' || c as int == 0x0C || c == '\r' || c == ' ' }

  function WithoutSpaces(s: string): string {
    if s == [] then [] else (if IsSpace(s[0]) then [] else [s[0]]) + WithoutSpaces(s[1..])
  }

  /** One or two padding characters are removed from a length that is a multiple of four. */
  function WithoutPadding(s: string): string {
    if |s| > 0 && |s| % 4 == 0 && s[|s| - 1] == '=' then
      if s[|s| - 2] == '=' then s[..|s| - 2] else s[..|s| - 1]
    else s
  }

  /** The forgiving decode; None is the exception for an invalid character or length. */
  function Atob(s: string): Option<seq<Byte>> {
    var data := WithoutPadding(WithoutSpaces(s));
    if |data| % 4 == 1 || !InAlphabet(data) then None else Some(Bytes(Values(data)))
  }

  // ---------------------------------------------------------------------------
  // The encoder and the two decoders
  // ---------------------------------------------------------------------------

  function BytesToB64url(b: seq<Byte>): string {
    ReplaceAll(ReplaceAll(ReplaceAll(Btoa(b), '+', "-"), '/', "_"), '=', "")
  }

  function ToStandard(s: string): string { ReplaceAll(ReplaceAll(s, '-', "+"), '_', "/") }

  function B64ToBytes(s: string): Option<seq<Byte>> {
    Atob(ToStandard(s + Repeat('=', (4 - |s| % 4) % 4)))
  }

  /** Pads in a loop, after replacing, and copies the binary string byte by byte; the result is the closed form's. */
  method Base64urlToBuffer(s: string) returns (buffer: Option<array<Byte>>)
    ensures buffer.Some? <==> B64ToBytes(s).Some?
    ensures buffer.Some? ==> buffer.value[..] == B64ToBytes(s).value
  {
    hide ReplaceAll, ToStandard, Atob;
    var b64 := ToStandard(s);
    StandardKeepsLength(s);
    ghost var n := 0;
    while |b64| % 4 != 0
      invariant n <= (4 - |s| % 4) % 4 && b64 == ToStandard(s) + Repeat('=', n)
      decreases 4 - n
    {
      b64 := b64 + "=";
      n := n + 1;
      assert Repeat('=', n) == Repeat('=', n - 1) + "=";
    }
    StandardPadded(s, n);
    var decoded := Atob(b64);
    if decoded.None? { return None; }
    var binary := decoded.value;
    var bytes := new Byte[|binary|];
    for i := 0 to |binary|
      invariant bytes[..i] == binary[..i]
    {
      bytes[i] := binary[i];
    }
    return Some(bytes);
  }

  // ---------------------------------------------------------------------------
  // Replacing characters
  // ---------------------------------------------------------------------------

  lemma {:induction false} ReplaceAt(s: string, c: char, d: char)
    ensures |ReplaceAll(s, c, [d])| == |s|
    ensures forall i :: 0 <= i < |s| ==> ReplaceAll(s, c, [d])[i] == if s[i] == c then d else s[i]
  {
    if s != [] { ReplaceAt(s[1..], c, d); }
  }

  lemma {:induction false} RemoveFromEnd(s: string, c: char, n: nat)
    requires c !in s
    ensures ReplaceAll(s + Repeat(c, n), c, "") == s
  {
    if s != [] {
      assert (s + Repeat(c, n))[1..] == s[1..] + Repeat(c, n);
      RemoveFromEnd(s[1..], c, n);
    } else if n > 0 {
      assert (s + Repeat(c, n))[1..] == s + Repeat(c, n - 1);
      RemoveFromEnd(s, c, n - 1);
    }
  }

  function StandardChar(c: char): char { if c == '-' then '+' else if c == '_' then '/' else c }

  lemma StandardAt(s: string)
    ensures |ToStandard(s)| == |s| && forall i :: 0 <= i < |s| ==> ToStandard(s)[i] == StandardChar(s[i])
  {
    ReplaceAt(s, '-', '+');
    ReplaceAt(ReplaceAll(s, '-', "+"), '_', '/');
  }

  lemma StandardKeepsLength(s: string)
    ensures |ToStandard(s)| == |s|
  {
    StandardAt(s);
  }

  lemma StandardPadded(s: string, n: nat)
    ensures ToStandard(s + Repeat('=', n)) == ToStandard(s) + Repeat('=', n)
  {
    StandardAt(s);
    StandardAt(s + Repeat('=', n));
  }

  lemma {:induction false} NoSpacesToRemove(s: string)
    requires forall i :: 0 <= i < |s| ==> !IsSpace(s[i])
    ensures WithoutSpaces(s) == s
  {
    if s != [] { NoSpacesToRemove(s[1..]); }
  }

  // ---------------------------------------------------------------------------
  // Main results
  // ---------------------------------------------------------------------------

  /** Section 5 of RFC 4648. */
  function UrlChar(v: Sextet): char { if v == 62 then '-' else if v == 63 then '_' else Char(v) }

  predicate IsUrlChar(c: char) { 'A' <= c <= 'Z' || 'a' <= c <= 'z' || '0' <= c <= '9' || c == '-' || c == '_' }

  predicate IsUrlText(s: string) { forall i :: 0 <= i < |s| ==> IsUrlChar(s[i]) }

  function UrlValue(c: char): Sextet
    requires IsUrlChar(c)
  {
    Value(StandardChar(c)).value
  }

  lemma CharReplaced(v: Sextet)
    ensures Char(v) != '=' && UrlChar(v) != '='
    ensures UrlChar(v) == (if Char(v) == '+' then '-' else if Char(v) == '/' then '_' else Char(v))
  {
  }

  lemma EncodedAt(b: seq<Byte>)
    ensures |BytesToB64url(b)| == |Sextets(b)|
    ensures forall i :: 0 <= i < |Sextets(b)| ==> BytesToB64url(b)[i] == UrlChar(Sextets(b)[i])
  {
    hide Sextets, Char, UrlChar;
    var n := (3 - |b| % 3) % 3;
    var dashed := ReplaceAll(Btoa(b), '+', "-");
    var url := ReplaceAll(dashed, '/', "_");
    ReplaceAt(Btoa(b), '+', '-');
    ReplaceAt(dashed, '/', '_');
    var body := url[..|Sextets(b)|];
    forall i | 0 <= i < |body|
      ensures body[i] == UrlChar(Sextets(b)[i]) && body[i] != '='
    {
      CharReplaced(Sextets(b)[i]);
    }
    assert url == body + Repeat('=', n);
    RemoveFromEnd(body, '=', n);
  }

  /** The code is of ceil(4n/3) characters, none of them '+', '/' or '='. */
  lemma EncodingIsUrlSafe(b: seq<Byte>)
    ensures |BytesToB64url(b)| == (4 * |b| + 2) / 3
    ensures IsUrlText(BytesToB64url(b))
    ensures '+' !in BytesToB64url(b) && '/' !in BytesToB64url(b) && '=' !in BytesToB64url(b)
  {
    hide Sextets, BytesToB64url;
    SextetsLength(b);
    EncodedAt(b);
    EncodedValues(b);
  }

  lemma UrlCharStands(c: char)
    requires IsUrlChar(c)
    ensures Value(StandardChar(c)).Some? && StandardChar(c) != '=' && !IsSpace(StandardChar(c))
  {
  }

  lemma UrlCharOf(v: Sextet)
    ensures IsUrlChar(UrlChar(v)) && UrlValue(UrlChar(v)) == v
  {
  }

  function UrlValues(s: string): (v: seq<Sextet>)
    requires IsUrlText(s)
    ensures |v| == |s| && forall i :: 0 <= i < |s| ==> v[i] == UrlValue(s[i])
  {
    seq(|s|, i requires 0 <= i < |s| => UrlValue(s[i]))
  }

  lemma UrlTextStands(s: string)
    requires IsUrlText(s)
    ensures InAlphabet(ToStandard(s)) && Values(ToStandard(s)) == UrlValues(s)
    ensures forall i :: 0 <= i < |s| ==> ToStandard(s)[i] != '=' && !IsSpace(ToStandard(s)[i])
  {
    StandardAt(s);
    hide ToStandard;
    forall i | 0 <= i < |s|
      ensures Value(ToStandard(s)[i]).Some? && ToStandard(s)[i] != '=' && !IsSpace(ToStandard(s)[i])
    {
      UrlCharStands(s[i]);
    }
  }

  lemma PaddingRemoved(s: string, n: nat)
    requires n == (4 - |s| % 4) % 4 && (forall i :: 0 <= i < |s| ==> s[i] != '=')
    ensures WithoutPadding(s + Repeat('=', n)) == if |s| % 4 == 1 then s + "=" else s
  {
    var padded := s + Repeat('=', n);
    assert n > 0 ==> padded[|padded| - 1] == '=';
    assert n > 1 ==> padded[|padded| - 2] == '=';
    assert n == 1 ==> padded[|padded| - 2] == s[|s| - 1] && padded[..|padded| - 1] == s;
    assert n == 2 ==> padded[..|padded| - 2] == s;
    assert n == 3 ==> padded[..|padded| - 2] == s + "=";
    assert n == 0 ==> padded == s && (s != "" ==> padded[|padded| - 1] == s[|s| - 1]);
  }

  /**
   What both decoders make of any text over the alphabet: every length but 4k+1 is accepted, and gives its whole bytes.
   */
  lemma DecodesUrlTextIff(s: string)
    requires IsUrlText(s)
    ensures B64ToBytes(s) == if |s| % 4 == 1 then None else Some(Bytes(UrlValues(s)))
  {
    hide Bytes, WithoutSpaces, WithoutPadding, ToStandard, IsUrlText;
    var n := (4 - |s| % 4) % 4;
    var standard := ToStandard(s);
    StandardAt(s);
    StandardPadded(s, n);
    UrlTextStands(s);
    NoSpacesToRemove(standard + Repeat('=', n));
    PaddingRemoved(standard, n);
    if |s| % 4 == 1 { assert (standard + "=")[|s|] == '='; }
  }

  /** Decoding an encoding gives the bytes back. */
  lemma RoundTrip(b: seq<Byte>)
    ensures B64ToBytes(BytesToB64url(b)) == Some(b)
  {
    hide Bytes, Sextets, B64ToBytes, BytesToB64url, IsUrlChar;
    var s := BytesToB64url(b);
    EncodingIsUrlSafe(b);
    BytesOfSextets(b);
    DecodesUrlTextIff(s);
    EncodedValues(b);
  }

  lemma EncodedValues(b: seq<Byte>)
    ensures IsUrlText(BytesToB64url(b)) && UrlValues(BytesToB64url(b)) == Sextets(b)
  {
    hide Sextets, BytesToB64url, IsUrlChar, UrlChar, UrlValue;
    EncodedAt(b);
    forall i | 0 <= i < |Sextets(b)|
      ensures IsUrlChar(BytesToB64url(b)[i]) && UrlValue(BytesToB64url(b)[i]) == Sextets(b)[i]
    {
      UrlCharOf(Sextets(b)[i]);
    }
  }

  /** Two different byte strings never get one code. */
  lemma EncodingIsInjective(a: seq<Byte>, b: seq<Byte>)
    ensures BytesToB64url(a) == BytesToB64url(b) <==> a == b
  {
    RoundTrip(a);
    RoundTrip(b);
  }

  lemma UrlCharBack(c: char)
    requires IsUrlChar(c)
    ensures UrlChar(UrlValue(c)) == c
  {
  }

  /** A text that decodes is the encoding of its bytes exactly when the bits dropped at its end are zero. */
  lemma CanonicalIff(s: string)
    requires IsUrlText(s) && |s| % 4 != 1
    ensures B64ToBytes(s).Some?
    ensures BytesToB64url(B64ToBytes(s).value) == s <==>
      (|s| % 4 == 2 ==> UrlValue(s[|s| - 1]) % 16 == 0) && (|s| % 4 == 3 ==> UrlValue(s[|s| - 1]) % 4 == 0)
  {
    hide Bytes, Sextets, B64ToBytes, BytesToB64url, IsUrlChar, UrlChar, UrlValue, NoLooseBits;
    var v := UrlValues(s);
    DecodesUrlTextIff(s);
    var b := Bytes(v);
    EncodedAt(b);
    EncodedValues(b);
    BytesOfSextets(b);
    LooseBits(s);
    if NoLooseBits(v) {
      SextetsOfBytes(v);
      forall i | 0 <= i < |s| ensures BytesToB64url(b)[i] == s[i] { UrlCharBack(s[i]); }
      assert BytesToB64url(b) == s;
    }
  }

  lemma LooseBits(s: string)
    requires IsUrlText(s)
    ensures NoLooseBits(UrlValues(s)) <==>
      (|s| % 4 == 2 ==> UrlValue(s[|s| - 1]) % 16 == 0) && (|s| % 4 == 3 ==> UrlValue(s[|s| - 1]) % 4 == 0)
  {
  }

  // ---------------------------------------------------------------------------
  // The alphabet and the bits
  // ---------------------------------------------------------------------------

  const SMALL := "abcdefghijklmnopqrstuvwxyz"
  const CAPITALS := "ABCDEFGHIJKLMNOPQRSTUVWXYZ"

  /** The table of section 5 of RFC 4648. */
  const URL_ALPHABET := CAPITALS + SMALL + "0123456789-_"

  lemma AlphabetIs(v: Sextet)
    ensures |URL_ALPHABET| == 64 && UrlChar(v) == URL_ALPHABET[v]
  {
  }

  function ByteAt(b: seq<Byte>, k: nat): Byte { if k < |b| then b[k] else 0 }

  /** Three bytes as one number of 24 bits, with zeros for the bytes past the end. */
  function Group(b: seq<Byte>, j: nat): nat {
    65536 * ByteAt(b, 3 * j) + 256 * ByteAt(b, 3 * j + 1) + ByteAt(b, 3 * j + 2)
  }

  /** The six bits at place i, the first ones counting most. */
  function SixBits(n: nat, i: nat): Sextet {
    if i == 0 then n / 262144 % 64 else if i == 1 then n / 4096 % 64 else if i == 2 then n / 64 % 64 else n % 64
  }

  lemma DivideBy64(n: nat, q: nat, r: nat)
    requires n == 64 * q + r && r < 64
    ensures n / 64 == q && n % 64 == r
  {
  }

  lemma FirstBits(a: Byte, n: nat, low: nat)
    requires n == 65536 * a + low && low < 65536
    ensures First(a) == SixBits(n, 0)
  {
    assert n / 262144 == a / 4;
  }

  lemma SecondBits(a: Byte, b: Byte, n: nat, low: nat)
    requires n == 65536 * a + 256 * b + low && low < 256
    ensures Second(a, b) == SixBits(n, 1)
  {
    assert n / 4096 == 16 * a + b / 16;
    assert 16 * a + b / 16 == 64 * (a / 4) + Second(a, b);
  }

  lemma ThirdBits(a: Byte, b: Byte, c: Byte, n: nat)
    requires n == 65536 * a + 256 * b + c
    ensures Third(b, c) == SixBits(n, 2)
  {
    DivideBy64(n, 1024 * a + 4 * b + c / 64, c % 64);
    DivideBy64(1024 * a + 4 * b + c / 64, 16 * a + b / 16, Third(b, c));
  }

  lemma FourthBits(c: Byte, n: nat, high: nat)
    requires n == 256 * high + c
    ensures Fourth(c) == SixBits(n, 3)
  {
    assert n == 64 * (4 * high + c / 64) + Fourth(c);
  }

  lemma SextetsAreBits(a: Byte, b: Byte, c: Byte)
    ensures var n := 65536 * a + 256 * b + c;
      First(a) == SixBits(n, 0) && Second(a, b) == SixBits(n, 1) && Third(b, c) == SixBits(n, 2)
      && Fourth(c) == SixBits(n, 3)
  {
    hide First, Second, Third, Fourth, SixBits;
    var n := 65536 * a + 256 * b + c;
    FirstBits(a, n, 256 * b + c);
    SecondBits(a, b, n, c);
    ThirdBits(a, b, c, n);
    FourthBits(c, n, 256 * a + b);
  }

  lemma {:induction false} SextetAt(b: seq<Byte>, i: nat)
    requires i < |Sextets(b)|
    ensures Sextets(b)[i] == SixBits(Group(b, i / 4), i % 4)
  {
    hide First, Second, Third, Fourth, SixBits;
    if i >= 4 {
      SextetAt(b[3..], i - 4);
      assert (i - 4) / 4 == i / 4 - 1 && (i - 4) % 4 == i % 4;
      assert Group(b[3..], i / 4 - 1) == Group(b, i / 4);
    } else {
      SextetsAreBits(ByteAt(b, 0), ByteAt(b, 1), ByteAt(b, 2));
    }
  }

  /** Each character stands in the alphabet at the place that its six bits of the bytes say. */
  lemma EncodesBits(b: seq<Byte>, i: nat)
    requires i < |BytesToB64url(b)|
    ensures BytesToB64url(b)[i] == URL_ALPHABET[SixBits(Group(b, i / 4), i % 4)]
  {
    hide Sextets, BytesToB64url, UrlChar, Group, SixBits;
    EncodedAt(b);
    SextetAt(b, i);
    AlphabetIs(Sextets(b)[i]);
  }
}
