/**
 The placeholder translation of backend/app/database.py: every ? of a query becomes $1, $2, ... in order.

 PostgreSQL reads $ followed by as many digits as there are as one parameter number; both readings of a query
 are modelled as filling argument text into it.
 */
module PgParams {
  import opened Options

  // ---------------------------------------------------------------------------
  // Decimal numbers
  // ---------------------------------------------------------------------------

  predicate IsDigit(c: char) { '0' <= c <= '9' }

  predicate AllDigits(s: string) { forall i :: 0 <= i < |s| ==> IsDigit(s[i]) }

  function Decimal(n: nat): (s: string)
    ensures s != "" && AllDigits(s)
  {
    var last := [('0' as int + n % 10) as char];
    if n < 10 then last else Decimal(n / 10) + last
  }

  function Parse(s: string): nat
    requires AllDigits(s)
  {
    if s == "" then 0 else 10 * Parse(s[..|s| - 1]) + (s[|s| - 1] as int - '0' as int)
  }

  lemma {:induction false} ParseDecimal(n: nat)
    ensures Parse(Decimal(n)) == n
  {
    if n >= 10 {
      var s := Decimal(n);
      assert s[..|s| - 1] == Decimal(n / 10);
      ParseDecimal(n / 10);
    }
  }

  function Power(k: nat): nat { if k == 0 then 1 else 10 * Power(k - 1) }

  /** The digit at place k is the number's digit of that place to base ten, and the first one is not zero. */
  lemma {:induction false} DecimalDigit(n: nat, k: nat)
    requires k < |Decimal(n)|
    ensures Power(k) > 0 && Decimal(n)[|Decimal(n)| - 1 - k] as int - '0' as int == n / Power(k) % 10
    ensures n < Power(|Decimal(n)|) && (n > 0 ==> Power(|Decimal(n)| - 1) <= n)
    decreases n, k
  {
    PowerIsPositive(k);
    if n >= 10 {
      DecimalDigit(n / 10, if k > 0 then k - 1 else 0);
      if k > 0 { DivideTwice(n, Power(k - 1)); PowerIsPositive(k - 1); }
    }
  }

  lemma {:induction false} PowerIsPositive(k: nat)
    ensures Power(k) > 0
  {
    if k > 0 { PowerIsPositive(k - 1); }
  }

  lemma DivideTwice(n: nat, m: nat)
    requires m > 0
    ensures n / (10 * m) == n / 10 / m
  {
    var q, r := n / 10 / m, n / 10 % m;
    assert n / 10 == q * m + r;
    assert n == (10 * m) * q + (10 * r + n % 10);
    assert 10 * r + n % 10 < 10 * m;
    Quotient(n, 10 * m, q, 10 * r + n % 10);
  }

  lemma Quotient(n: nat, d: nat, q: nat, r: nat)
    requires r < d && n == d * q + r
    ensures n / d == q
  {
    var x: int, e: int := n / d - q, d;
    assert x * e == r - n % d;
    assert x >= 1 ==> x * e >= e;
    assert x <= -1 ==> x * e <= 0 - e;
  }

  // ---------------------------------------------------------------------------
  // Translation and the two readings
  // ---------------------------------------------------------------------------

  function Translated(q: string, counter: nat): string {
    if q == "" then ""
    else if q[0] == '?' then "$" + Decimal(counter + 1) + Translated(q[1..], counter + 1)
    else [q[0]] + Translated(q[1..], counter)
  }

  lemma NextTranslated(q: string, i: nat, counter: nat)
    requires i < |q|
    ensures Translated(q[i..], counter) ==
      if q[i] == '?' then "$" + Decimal(counter + 1) + Translated(q[i + 1..], counter + 1)
      else [q[i]] + Translated(q[i + 1..], counter)
  {
    assert q[i..][1..] == q[i + 1..];
  }

  method Translate(query: string) returns (pgQuery: string)
    ensures pgQuery == Translated(query, 0)
  {
    var counter := 0;
    pgQuery := "";
    for i := 0 to |query|
      invariant Translated(query, 0) == pgQuery + Translated(query[i..], counter)
    {
      hide Translated, Decimal;
      NextTranslated(query, i, counter);
      if query[i] == '?' {
        counter := counter + 1;
        pgQuery := pgQuery + "$" + Decimal(counter);
      } else {
        pgQuery := pgQuery + [query[i]];
      }
    }
  }

  function Marks(q: string): nat {
    if q == "" then 0 else (if q[0] == '?' then 1 else 0) + Marks(q[1..])
  }

  /** What the author of a query means: the arguments go where the question marks are, in order. */
  function FillMarks(q: string, args: seq<string>): string
    requires Marks(q) <= |args|
  {
    if q == "" then ""
    else if q[0] == '?' then args[0] + FillMarks(q[1..], args[1..])
    else [q[0]] + FillMarks(q[1..], args)
  }

  function DigitRun(s: string): (n: nat)
    ensures n <= |s| && AllDigits(s[..n]) && (n < |s| ==> !IsDigit(s[n]))
  {
    if s == "" || !IsDigit(s[0]) then 0 else 1 + DigitRun(s[1..])
  }

  /** What the server does: $n stands for argument n, and a number without an argument is an error. */
  function FillNumbered(t: string, args: seq<string>): Option<string>
    decreases |t|
  {
    if t == "" then Some("")
    else
      var digits := DigitRun(t[1..]);
      if t[0] == '$' && digits > 0 then
        var n := Parse(t[1..][..digits]);
        if 1 <= n <= |args| then Prepend(args[n - 1], FillNumbered(t[1..][digits..], args)) else None
      else
        Prepend([t[0]], FillNumbered(t[1..], args))
  }

  function Prepend(s: string, rest: Option<string>): Option<string> {
    if rest.Some? then Some(s + rest.value) else None
  }

  // ---------------------------------------------------------------------------
  // When the two readings agree
  // ---------------------------------------------------------------------------

  /** No digit stands directly after a question mark or a dollar sign. */
  predicate Unambiguous(q: string) {
    forall i :: 0 < i < |q| && IsDigit(q[i]) ==> q[i - 1] != '?' && q[i - 1] != '$'
  }

  lemma {:induction false} DigitRunOf(s: string, n: nat)
    requires n <= |s| && AllDigits(s[..n]) && (n < |s| ==> !IsDigit(s[n]))
    ensures DigitRun(s) == n
  {
    if n > 0 {
      assert s[1..][..n - 1] == s[..n][1..];
      DigitRunOf(s[1..], n - 1);
    }
  }

  lemma PlaceholderParts(t: string, run: string, rest: string)
    requires run != "" && AllDigits(run) && (rest != "" ==> !IsDigit(rest[0])) && t == ['$'] + (run + rest)
    ensures t[1..][..|run|] == run && t[1..][|run|..] == rest && DigitRun(t[1..]) == |run|
  {
    assert t[1..] == run + rest;
    DigitRunOf(run + rest, |run|);
  }

  /** A dollar sign takes the whole run of digits after it. */
  lemma FillPlaceholder(t: string, run: string, rest: string, args: seq<string>)
    requires run != "" && AllDigits(run) && (rest != "" ==> !IsDigit(rest[0])) && t == ['$'] + (run + rest)
    ensures FillNumbered(t, args) ==
      if 1 <= Parse(run) <= |args| then Prepend(args[Parse(run) - 1], FillNumbered(rest, args)) else None
  {
    hide DigitRun, Parse, Prepend;
    PlaceholderParts(t, run, rest);
  }

  lemma FillOther(c: char, rest: string, args: seq<string>)
    requires c == '$' ==> rest == "" || !IsDigit(rest[0])
    ensures FillNumbered([c] + rest, args) == Prepend([c], FillNumbered(rest, args))
  {
    assert ([c] + rest)[1..] == rest;
  }

  lemma UnambiguousTail(q: string)
    requires q != "" && Unambiguous(q)
    ensures Unambiguous(q[1..])
  {
    assert forall i :: 0 < i < |q[1..]| ==> q[1..][i] == q[i + 1] && q[1..][i - 1] == q[i];
  }

  lemma TranslatedOpens(q: string, counter: nat)
    ensures var t := Translated(q, counter);
      t != "" ==> q != "" && t[0] == if q[0] == '?' then '$' else q[0]
  {
  }

  lemma MarkUnfolds(q: string, counter: nat, args: seq<string>)
    requires q != "" && q[0] == '?' && counter + Marks(q) <= |args|
    ensures counter < |args| && Marks(q[1..]) <= |args[counter + 1..]|
    ensures Translated(q, counter) == ['$'] + (Decimal(counter + 1) + Translated(q[1..], counter + 1))
    ensures FillMarks(q, args[counter..]) == args[counter] + FillMarks(q[1..], args[counter + 1..])
  {
    hide Decimal;
    assert args[counter..][1..] == args[counter + 1..];
  }

  lemma AgreeAtMark(q: string, counter: nat, args: seq<string>)
    requires q != "" && q[0] == '?' && Unambiguous(q) && counter + Marks(q) <= |args|
    requires counter + 1 + Marks(q[1..]) <= |args|
      && FillNumbered(Translated(q[1..], counter + 1), args) == Some(FillMarks(q[1..], args[counter + 1..]))
    ensures FillNumbered(Translated(q, counter), args) == Some(FillMarks(q, args[counter..]))
  {
    hide Decimal, Parse, FillNumbered, Translated, FillMarks, Marks, AllDigits;
    var next, rest := counter + 1, Translated(q[1..], counter + 1);
    TranslatedOpens(q[1..], next);
    assert |q| > 1 ==> !IsDigit(q[1]);
    hide Unambiguous;
    MarkUnfolds(q, counter, args);
    ParseDecimal(next);
    FillPlaceholder(Translated(q, counter), Decimal(next), rest, args);
  }

  lemma AgreeAtOther(q: string, counter: nat, args: seq<string>)
    requires q != "" && q[0] != '?' && Unambiguous(q) && counter + Marks(q) <= |args|
    requires counter + Marks(q[1..]) <= |args|
      && FillNumbered(Translated(q[1..], counter), args) == Some(FillMarks(q[1..], args[counter..]))
    ensures FillNumbered(Translated(q, counter), args) == Some(FillMarks(q, args[counter..]))
  {
    hide FillNumbered;
    var rest := Translated(q[1..], counter);
    TranslatedOpens(q[1..], counter);
    assert |q| > 1 && q[0] == '$' ==> !IsDigit(q[1]);
    assert Translated(q, counter) == [q[0]] + rest;
    assert FillMarks(q, args[counter..]) == [q[0]] + FillMarks(q[1..], args[counter..]);
    hide Unambiguous, Translated, FillMarks, Marks;
    FillOther(q[0], rest, args);
  }

  lemma {:induction false} ReadingsAgree(q: string, counter: nat, args: seq<string>)
    requires Unambiguous(q) && counter + Marks(q) <= |args|
    ensures FillNumbered(Translated(q, counter), args) == Some(FillMarks(q, args[counter..]))
  {
    if q != "" {
      var next := if q[0] == '?' then counter + 1 else counter;
      UnambiguousTail(q);
      assert next + Marks(q[1..]) == counter + Marks(q);
      hide Unambiguous, FillNumbered, Translated, FillMarks, Marks;
      ReadingsAgree(q[1..], next, args);
      if q[0] == '?' { AgreeAtMark(q, counter, args); } else { AgreeAtOther(q, counter, args); }
    } else {
      assert FillMarks(q, args[counter..]) == "";
    }
  }

  // ---------------------------------------------------------------------------
  // ... and that they agree on no other query
  // ---------------------------------------------------------------------------

  function Blanks(n: nat): seq<string> { seq(n, _ => "") }

  lemma {:induction false} BlankMarks(q: string, n: nat)
    requires Marks(q) <= n
    ensures |FillMarks(q, Blanks(n))| == |q| - Marks(q)
  {
    if q != "" {
      if q[0] == '?' {
        assert Blanks(n)[1..] == Blanks(n - 1);
        BlankMarks(q[1..], n - 1);
      } else {
        BlankMarks(q[1..], n);
      }
    }
  }

  lemma {:induction false} TranslatedDigits(digits: string, q: string, counter: nat)
    requires AllDigits(digits)
    ensures Translated(digits + q, counter) == digits + Translated(q, counter)
    ensures Marks(digits + q) == Marks(q)
  {
    if digits == "" {
      assert digits + q == q;
    } else {
      assert (digits + q)[1..] == digits[1..] + q;
      TranslatedDigits(digits[1..], q, counter);
    }
  }

  /** The server's reading with empty arguments, if there is one, has no more than n characters. */
  predicate AtMostLeft(r: Option<string>, n: int) { r.Some? ==> |r.value| <= n }

  /** What the query has outside its question marks, or less if a question mark or dollar sign swallows a digit. */
  function Outside(q: string): int { |q| - Marks(q) - if Unambiguous(q) then 0 else 1 }

  lemma SwallowPlaceholder(q: string, counter: nat, n: nat, d: nat)
    requires q != "" && d == DigitRun(q[1..]) && (q[0] == '?' || (q[0] == '$' && d > 0))
    requires var next := if q[0] == '?' then counter + 1 else counter;
      AtMostLeft(FillNumbered(Translated(q[1 + d..], next), Blanks(n)), Outside(q[1 + d..]))
    ensures AtMostLeft(FillNumbered(Translated(q, counter), Blanks(n)), Outside(q))
  {
    hide Decimal, Parse, Translated, FillNumbered, Marks, Unambiguous;
    var digits, tail := q[1..][..d], q[1 + d..];
    assert q[1..][d..] == tail;
    var next := if q[0] == '?' then counter + 1 else counter;
    TranslatedPlaceholder(q, counter, digits, tail);
    TranslatedOpens(tail, next);
    var run := if q[0] == '?' then Decimal(next) + digits else digits;
    FillPlaceholder(Translated(q, counter), run, Translated(tail, next), Blanks(n));
    if d == 0 { UnambiguousStep(q); }
  }

  lemma SwallowOther(q: string, counter: nat, n: nat)
    requires q != "" && q[0] != '?' && (q[0] == '$' ==> DigitRun(q[1..]) == 0)
    requires AtMostLeft(FillNumbered(Translated(q[1..], counter), Blanks(n)), Outside(q[1..]))
    ensures AtMostLeft(FillNumbered(Translated(q, counter), Blanks(n)), Outside(q))
  {
    var rest := Translated(q[1..], counter);
    assert Translated(q, counter) == [q[0]] + rest && Marks(q) == Marks(q[1..]);
    TranslatedOpens(q[1..], counter);
    hide Decimal, Parse, Translated, FillNumbered, Marks, Unambiguous;
    FillOther(q[0], rest, Blanks(n));
    UnambiguousStep(q);
  }

  /**
   With empty arguments, the server's reading never has more text left than the query has outside its question
   marks, and has less once a question mark or dollar sign swallows a digit.
   */
  lemma {:induction false} SwallowedDigits(q: string, counter: nat, n: nat)
    ensures var r := FillNumbered(Translated(q, counter), Blanks(n));
      r.Some? ==> |r.value| <= |q| - Marks(q) && (!Unambiguous(q) ==> |r.value| < |q| - Marks(q))
    decreases |q|
  {
    if q == "" {
      assert Unambiguous(q);
    } else {
      var d := DigitRun(q[1..]);
      hide Translated, FillNumbered, Marks, Unambiguous;
      if q[0] == '?' || (q[0] == '$' && d > 0) {
        SwallowedDigits(q[1 + d..], if q[0] == '?' then counter + 1 else counter, n);
        SwallowPlaceholder(q, counter, n, d);
      } else {
        SwallowedDigits(q[1..], counter, n);
        SwallowOther(q, counter, n);
      }
    }
  }

  lemma TranslatedPlaceholder(q: string, counter: nat, digits: string, tail: string)
    requires q != "" && (q[0] == '?' || q[0] == '$') && AllDigits(digits) && q[1..] == digits + tail
    ensures var next := if q[0] == '?' then counter + 1 else counter;
      Translated(q, counter) ==
        ['$'] + ((if q[0] == '?' then Decimal(next) + digits else digits) + Translated(tail, next))
    ensures Marks(q) == (if q[0] == '?' then 1 else 0) + Marks(tail)
  {
    TranslatedDigits(digits, tail, if q[0] == '?' then counter + 1 else counter);
  }

  lemma UnambiguousStep(q: string)
    requires q != "" && (|q| == 1 || !IsDigit(q[1]) || (q[0] != '?' && q[0] != '$'))
    ensures Unambiguous(q) <==> Unambiguous(q[1..])
  {
    if Unambiguous(q[1..]) {
      forall i | 0 < i < |q| && IsDigit(q[i]) ensures q[i - 1] != '?' && q[i - 1] != '$' {
        if i > 1 { assert q[1..][i - 1] == q[i] && q[1..][i - 2] == q[i - 1]; }
      }
    } else if Unambiguous(q) {
      UnambiguousTail(q);
    }
  }

  /** For whatever arguments come with it, the translated query means what the original does. */
  ghost predicate MeaningKept(q: string) {
    forall args: seq<string> :: |args| == Marks(q) ==>
      FillNumbered(Translated(q, 0), args) == Some(FillMarks(q, args))
  }

  /** The translation keeps a query's meaning exactly when no digit directly follows a ? or a $. */
  lemma MeaningKeptIff(q: string)
    ensures MeaningKept(q) <==> Unambiguous(q)
  {
    if Unambiguous(q) {
      forall args: seq<string> | |args| == Marks(q)
        ensures FillNumbered(Translated(q, 0), args) == Some(FillMarks(q, args))
      {
        ReadingsAgree(q, 0, args);
        assert args[0..] == args;
      }
    } else {
      var args := Blanks(Marks(q));
      SwallowedDigits(q, 0, Marks(q));
      BlankMarks(q, Marks(q));
      assert FillNumbered(Translated(q, 0), args) != Some(FillMarks(q, args));
    }
  }
}
