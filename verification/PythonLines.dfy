/**
 What Python's splitlines, strip and count give, said of the text itself and not of how they are computed.
 */
module PythonLines {
  import opened PythonText

  // ---------------------------------------------------------------------------
  // splitlines
  // ---------------------------------------------------------------------------

  /** A line break: one break character, or a carriage return and line feed together. */
  predicate IsLineBreak(b: string) { b == "\r\n" || (|b| == 1 && IsBreak(b[0])) }

  /** Each line with its break after it. */
  function Woven(lines: seq<string>, breaks: seq<string>): string
    requires |lines| == |breaks|
  {
    if lines == [] then "" else lines[0] + breaks[0] + Woven(lines[1..], breaks[1..])
  }

  /** The line is free of breaks and has one after it; the last may do without if it is not empty. */
  predicate Ends(line: string, b: string, last: bool) {
    NoBreak(line) && (IsLineBreak(b) || (last && b == "" && line != ""))
  }

  /** The text is these lines with these breaks, and no carriage return is cut off from its line feed. */
  ghost predicate AreLines(s: string, lines: seq<string>, breaks: seq<string>) {
    && |lines| == |breaks| && s == Woven(lines, breaks)
    && (forall i :: 0 <= i < |lines| ==> Ends(lines[i], breaks[i], i == |lines| - 1))
    && forall i :: 0 <= i < |lines| - 1 && breaks[i] == "\r" ==> !(lines[i + 1] == "" && breaks[i + 1] == "\n")
  }

  lemma {:induction false} LineEndOf(s: string, n: nat)
    requires n <= |s| && NoBreak(s[..n]) && (n < |s| ==> IsBreak(s[n]))
    ensures LineEnd(s) == n
  {
    if n > 0 {
      assert s[0] == s[..n][0] && s[1..][..n - 1] == s[..n][1..];
      LineEndOf(s[1..], n - 1);
    }
  }

  /** Where a line and its break end, the rest is split by itself. */
  lemma FirstLine(line: string, b: string, rest: string)
    requires NoBreak(line) && IsLineBreak(b) && !(b == "\r" && rest != "" && rest[0] == '\n')
    ensures SplitLines(line + b + rest) == [line] + SplitLines(rest)
  {
    var s, n := line + b + rest, |line|;
    assert s[..n] == line && s[n] == b[0];
    LineEndOf(s, n);
    if b == "\r\n" {
      assert s[n + 1] == '\n' && s[n + 2..] == rest;
    } else {
      assert s[n + 1..] == rest;
    }
  }

  lemma Feeds()
    ensures IsBreak('\n') && IsBreak('\r')
  {
  }

  /** What a woven text begins with. */
  lemma WovenOpens(lines: seq<string>, breaks: seq<string>)
    requires |lines| == |breaks| && lines != [] && Ends(lines[0], breaks[0], |lines| == 1)
    ensures var s := Woven(lines, breaks);
      s != "" && (s[0] == '\n' <==> lines[0] == "" && breaks[0] == "\n")
  {
    Feeds();
    var line, b, rest := lines[0], breaks[0], Woven(lines[1..], breaks[1..]);
    var s := Woven(lines, breaks);
    assert s == line + b + rest;
    hide IsBreak, Woven;
    if line != "" { assert s[0] == line[0]; } else { assert s[0] == b[0]; }
  }

  lemma AnotherLine(line: string, b: string, rest: string, lines: seq<string>, breaks: seq<string>)
    requires NoBreak(line) && IsLineBreak(b) && !(b == "\r" && rest != "" && rest[0] == '\n')
    requires AreLines(rest, lines, breaks)
    ensures AreLines(line + b + rest, [line] + lines, [b] + breaks)
  {
    var lines', breaks' := [line] + lines, [b] + breaks;
    assert lines'[1..] == lines && breaks'[1..] == breaks;
    assert Woven(lines', breaks') == line + b + rest;
    if lines != [] { WovenOpens(lines, breaks); }
    hide IsBreak, Woven;
    forall i | 0 <= i < |lines'| ensures Ends(lines'[i], breaks'[i], i == |lines'| - 1) {
      if i > 0 { assert Ends(lines[i - 1], breaks[i - 1], i - 1 == |lines| - 1); }
    }
    forall i | 0 <= i < |lines'| - 1 && breaks'[i] == "\r" ensures !(lines'[i + 1] == "" && breaks'[i + 1] == "\n") {
      if i > 0 {
        assert breaks[i - 1] == "\r" && lines'[i + 1] == lines[i - 1 + 1] && breaks'[i + 1] == breaks[i - 1 + 1];
      }
    }
  }

  /** The first line of a text with its break, if it has one, and what follows. */
  lemma FirstCut(s: string) returns (line: string, b: string, rest: string)
    requires s != ""
    ensures s == line + b + rest && NoBreak(line)
    ensures b == "" ==> rest == "" && SplitLines(s) == [line]
    ensures b != "" ==>
      && IsLineBreak(b) && !(b == "\r" && rest != "" && rest[0] == '\n')
      && SplitLines(s) == [line] + SplitLines(rest)
  {
    Feeds();
    var n := LineEnd(s);
    line := s[..n];
    b := if n == |s| then "" else if s[n] == '\r' && n + 1 < |s| && s[n + 1] == '\n' then "\r\n" else [s[n]];
    rest := s[n + |b|..];
    assert n == |s| ==> line == s;
    assert n < |s| ==> rest == (if b == "\r\n" then s[n + 2..] else s[n + 1..]);
  }

  lemma {:induction false} LinesHold(s: string) returns (breaks: seq<string>)
    ensures AreLines(s, SplitLines(s), breaks)
    decreases |s|
  {
    breaks := [];
    if s != "" {
      var line, b, rest := FirstCut(s);
      if b == "" {
        breaks := [""];
        assert [line][1..] == [] && Woven([line], [""]) == line + "" + Woven([], []);
      } else {
        breaks := LinesHold(rest);
        hide SplitLines;
        AnotherLine(line, b, rest, SplitLines(rest), breaks);
        breaks := [b] + breaks;
      }
    }
  }

  lemma {:induction false} LinesAreUnique(s: string, lines: seq<string>, breaks: seq<string>)
    requires AreLines(s, lines, breaks)
    ensures lines == SplitLines(s)
    decreases |lines|
  {
    if lines != [] {
      var rest := Woven(lines[1..], breaks[1..]);
      if breaks[0] == "" {
        assert s == lines[0] && s[..|s|] == s;
        LineEndOf(s, |s|);
      } else {
        forall i | 0 <= i < |lines[1..]|
          ensures Ends(lines[1..][i], breaks[1..][i], i == |lines[1..]| - 1)
        {
          assert Ends(lines[i + 1], breaks[i + 1], i + 1 == |lines| - 1);
        }
        LinesAreUnique(rest, lines[1..], breaks[1..]);
        if |lines| > 1 { WovenOpens(lines[1..], breaks[1..]); }
        FirstLine(lines[0], breaks[0], rest);
        assert lines == [lines[0]] + lines[1..];
      }
    }
  }

  /**
   The lines of a text are the one way to write it as lines free of breaks, each with a break after it but for the last,
   which has none exactly when the text goes on to its end.
   */
  lemma SplitLinesIff(s: string, lines: seq<string>)
    ensures lines == SplitLines(s) <==> exists breaks :: AreLines(s, lines, breaks)
  {
    if lines == SplitLines(s) { var breaks := LinesHold(s); }
    else if breaks :| AreLines(s, lines, breaks) { LinesAreUnique(s, lines, breaks); }
  }

  lemma SplitLinesHaveNoBreak(s: string)
    ensures forall line :: line in SplitLines(s) ==> NoBreak(line)
  {
    var breaks := LinesHold(s);
    var lines := SplitLines(s);
    forall line | line in lines ensures NoBreak(line) {
      var i :| 0 <= i < |lines| && lines[i] == line;
      assert Ends(lines[i], breaks[i], i == |lines| - 1);
    }
  }

  /** A line break at the end of joined lines is the last line's own and starts no further one. */
  lemma {:induction false} SplitEnded(lines: seq<string>)
    requires lines != [] && forall line :: line in lines ==> NoBreak(line)
    ensures SplitLines(Join(lines) + "\n") == lines
    decreases |lines|
  {
    Feeds();
    NothingToSplit();
    hide IsBreak, SplitLines;
    var s, line := Join(lines), lines[0];
    if |lines| == 1 {
      FirstLine(line, "\n", "");
      assert line + "\n" + "" == s + "\n";
    } else {
      var rest := Join(lines[1..]);
      assert s == line + "\n" + rest;
      hide Join;
      SplitEnded(lines[1..]);
      FirstLine(line, "\n", rest + "\n");
      assert line + "\n" + (rest + "\n") == s + "\n";
    }
  }

  /** Lines without breaks, the last not empty, come back from joining and splitting. */
  lemma {:induction false} SplitJoined(lines: seq<string>)
    requires (forall line :: line in lines ==> NoBreak(line)) && (lines != [] ==> lines[|lines| - 1] != "")
    ensures SplitLines(Join(lines)) == lines
    decreases |lines|
  {
    Feeds();
    if |lines| == 1 {
      assert lines[0][..|lines[0]|] == lines[0];
      LineEndOf(lines[0], |lines[0]|);
    } else if |lines| > 1 {
      var s, line, rest := Join(lines), lines[0], Join(lines[1..]);
      assert s == line + "\n" + rest;
      hide IsBreak, SplitLines, Join;
      SplitJoined(lines[1..]);
      FirstLine(line, "\n", rest);
    }
  }

  /** A line feed at the end of any text adds an empty line at most. */
  lemma {:induction false} LineFeedAdded(s: string)
    ensures SplitLines(s + "\n") == SplitLines(s) || SplitLines(s + "\n") == SplitLines(s) + [""]
    decreases |s|
  {
    Feeds();
    NothingToSplit();
    if s == "" {
      FirstLine("", "\n", "");
      assert "" + "\n" + "" == s + "\n";
    } else {
      var line, b, rest := FirstCut(s);
      hide IsBreak, SplitLines, NoBreak;
      if rest == "" && (b == "" || b == "\r") {
        var ended := b + "\n";
        assert IsLineBreak(ended);
        FirstLine(line, ended, "");
        assert line + ended + "" == s + "\n";
        assert SplitLines(s) == [line];
      } else {
        LineFeedAdded(rest);
        assert rest == "" ==> b != "\r";
        FirstLine(line, b, rest + "\n");
        assert line + b + (rest + "\n") == s + "\n";
        assert [line] + (SplitLines(rest) + [""]) == SplitLines(s) + [""];
      }
    }
  }

  lemma NothingToSplit()
    ensures SplitLines("") == []
  {
  }

  // ---------------------------------------------------------------------------
  // strip
  // ---------------------------------------------------------------------------

  lemma {:induction false} LStripPrefix(pre: string, s: string)
    requires AllSpace(pre)
    ensures LStrip(pre + s) == LStrip(s)
  {
    hide IsSpace, IsBreak;
    if pre == "" {
      assert pre + s == s;
    } else {
      assert (pre + s)[1..] == pre[1..] + s;
      LStripPrefix(pre[1..], s);
    }
  }

  lemma {:induction false} RStripSuffix(s: string, post: string)
    requires AllSpace(post)
    ensures RStrip(s + post) == RStrip(s)
  {
    hide IsSpace, IsBreak;
    if post == "" {
      assert s + post == s;
    } else {
      var n := |post| - 1;
      assert (s + post)[..|s + post| - 1] == s + post[..n];
      RStripSuffix(s, post[..n]);
    }
  }

  lemma {:induction false} LStripSplits(s: string) returns (pre: string)
    ensures AllSpace(pre) && s == pre + LStrip(s) && (LStrip(s) != "" ==> !IsSpace(LStrip(s)[0]))
  {
    hide IsSpace, IsBreak;
    if s != "" && IsSpace(s[0]) {
      var rest := LStripSplits(s[1..]);
      pre := [s[0]] + rest;
    } else {
      pre := "";
    }
  }

  lemma {:induction false} RStripSplits(s: string) returns (post: string)
    ensures AllSpace(post) && s == RStrip(s) + post && (RStrip(s) != "" ==> !IsSpace(RStrip(s)[|RStrip(s)| - 1]))
  {
    hide IsSpace, IsBreak;
    if s != "" && IsSpace(s[|s| - 1]) {
      var rest := RStripSplits(s[..|s| - 1]);
      post := rest + [s[|s| - 1]];
    } else {
      post := "";
    }
  }

  /** A text with no white space at either end. */
  predicate Tight(s: string) { s != "" && !IsSpace(s[0]) && !IsSpace(s[|s| - 1]) }

  lemma RStripDone(s: string)
    requires s != "" && !IsSpace(s[|s| - 1])
    ensures RStrip(s) == s
  {
  }

  lemma LStripDone(s: string)
    requires s != "" && !IsSpace(s[0])
    ensures LStrip(s) == s
  {
  }

  lemma StripCore(pre: string, core: string, post: string)
    requires AllSpace(pre) && AllSpace(post) && Tight(core)
    ensures Strip(pre + core + post) == core
  {
    hide IsSpace, LStrip, RStrip;
    assert pre + core + post == pre + (core + post);
    LStripPrefix(pre, core + post);
    LStripDone(core + post);
    RStripSuffix(core, post);
    RStripDone(core);
  }

  lemma StripSplits(s: string) returns (pre: string, post: string)
    requires Strip(s) != ""
    ensures AllSpace(pre) && AllSpace(post) && s == pre + Strip(s) + post && Tight(Strip(s))
    ensures LStrip(s) == Strip(s) + post && RStrip(s) == pre + Strip(s)
  {
    hide IsSpace, LStrip, RStrip;
    pre := LStripSplits(s);
    post := RStripSplits(LStrip(s));
    var core := Strip(s);
    assert LStrip(s)[0] == core[0];
    assert s == (pre + core) + post;
    RStripSuffix(pre + core, post);
    assert (pre + core)[|pre + core| - 1] == core[|core| - 1];
    RStripDone(pre + core);
  }

  lemma StripSame(s: string)
    requires Strip(s) != ""
    ensures Strip(LStrip(s)) == Strip(s) && Strip(RStrip(s)) == Strip(s) && Strip(Strip(s)) == Strip(s)
  {
    hide Strip;
    var pre, post := StripSplits(s);
    StripCore("", Strip(s), post);
    assert "" + Strip(s) + post == LStrip(s);
    StripCore(pre, Strip(s), "");
    assert pre + Strip(s) + "" == RStrip(s);
    StripCore("", Strip(s), "");
    assert "" + Strip(s) + "" == Strip(s);
  }

  lemma NotStripped(s: string)
    requires s != "" && !IsSpace(s[0]) && !IsSpace(s[|s| - 1])
    ensures Strip(s) == s
  {
  }

  /** Nothing is left exactly of a text that is all white space. */
  lemma BlankIff(s: string)
    ensures Strip(s) == "" <==> AllSpace(s)
  {
    hide IsSpace, LStrip, RStrip;
    var pre := LStripSplits(s);
    var post := RStripSplits(LStrip(s));
    assert s == pre + (Strip(s) + post);
    if Strip(s) == "" { assert s == pre + post; }
    if LStrip(s) != "" { assert LStrip(s)[0] in s; }
  }

  // ---------------------------------------------------------------------------
  // count
  // ---------------------------------------------------------------------------

  /** Places where "$$" stands in the text, none of them overlapping the next. */
  ghost predicate Pairs(s: string, at: seq<nat>) {
    && (forall i :: 0 <= i < |at| ==> at[i] + 2 <= |s| && s[at[i]] == '$' && s[at[i] + 1] == '$')
    && forall i :: 0 <= i < |at| - 1 ==> at[i] + 2 <= at[i + 1]
  }

  function Shift(at: seq<nat>, n: nat): (r: seq<nat>)
    ensures |r| == |at| && forall i :: 0 <= i < |at| ==> r[i] == at[i] + n
  {
    seq(|at|, i requires 0 <= i < |at| => at[i] + n)
  }

  lemma {:induction false} DollarsFound(s: string) returns (at: seq<nat>)
    ensures Pairs(s, at) && |at| == Dollars(s)
  {
    if |s| < 2 {
      at := [];
    } else {
      var n := if s[0] == '$' && s[1] == '$' then 2 else 1;
      var rest := DollarsFound(s[n..]);
      at := (if n == 2 then [0] else []) + Shift(rest, n);
    }
  }

  lemma {:induction false} DollarsMost(s: string, at: seq<nat>)
    requires Pairs(s, at)
    ensures |at| <= Dollars(s)
  {
    if at != [] {
      assert at[0] + 2 <= |s|;
      var n := if s[0] == '$' && s[1] == '$' then 2 else 1;
      var later := if n == 2 then at[1..] else at;
      forall i | 0 <= i < |later| ensures n <= later[i] {
        var j := if n == 2 then i + 1 else i;
        if j > 0 { Increasing(s, at, 0, j); }
      }
      var back := seq(|later|, i requires 0 <= i < |later| && n <= later[i] => later[i] - n);
      forall i | 0 <= i < |back| - 1 ensures back[i] + 2 <= back[i + 1] {}
      DollarsMost(s[n..], back);
    }
  }

  lemma {:induction false} Increasing(s: string, at: seq<nat>, i: nat, j: nat)
    requires Pairs(s, at) && i < j < |at|
    ensures at[i] + 2 <= at[j]
  {
    if i + 1 < j { Increasing(s, at, i, j - 1); assert at[j - 1] + 2 <= at[j - 1 + 1]; }
  }

  /** The count is the greatest number of "$$" in the text no two of which overlap. */
  lemma DollarsIff(s: string, n: nat)
    ensures n == Dollars(s) <==> (exists at :: Pairs(s, at) && |at| == n) && forall at :: Pairs(s, at) ==> |at| <= n
  {
    var found := DollarsFound(s);
    forall at | Pairs(s, at) ensures |at| <= Dollars(s) { DollarsMost(s, at); }
  }
}
