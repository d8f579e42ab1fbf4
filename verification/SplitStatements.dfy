/**
 The SQL script splitter of backend/app/database.py, over Python's own lines and white space.
 */
module SplitStatements {
  import opened PythonText
  import opened PythonLines

  // ---------------------------------------------------------------------------
  // Splitting
  // ---------------------------------------------------------------------------

  predicate IsComment(stripped: string) { |stripped| >= 2 && stripped[..2] == "--" }

  /** Blank lines never count; comments do not count until the first $$ of the script. */
  predicate Skipped(line: string, depth: nat) {
    Strip(line) == "" || (IsComment(Strip(line)) && depth == 0)
  }

  predicate IsCommentLine(line: string) { Strip(line) != "" && IsComment(Strip(line)) }

  predicate EndsStatement(line: string) {
    var stripped := Strip(line);
    stripped != "" && stripped[|stripped| - 1] == ';'
  }

  /** The lines of each statement, cut at every boundary; lines after the last boundary are dropped. */
  function Groups(lines: seq<string>, buf: seq<string>, depth: nat): seq<seq<string>>
    decreases |lines|
  {
    if lines == [] then []
    else if Skipped(lines[0], depth) then Groups(lines[1..], buf, depth)
    else
      var depth' := depth + Dollars(Strip(lines[0]));
      if EndsStatement(lines[0]) && depth' % 2 == 0 then [buf + [lines[0]]] + Groups(lines[1..], [], depth')
      else Groups(lines[1..], buf + [lines[0]], depth')
  }

  function Texts(groups: seq<seq<string>>): seq<string> {
    if groups == [] then [] else [Strip(Join(groups[0]))] + Texts(groups[1..])
  }

  function Statements(sql: string): seq<string> { Texts(Groups(SplitLines(sql), [], 0)) }

  lemma NextTexts(lines: seq<string>, i: nat, buf: seq<string>, depth: nat) returns (rest: seq<string>)
    requires i < |lines|
    ensures var depth' := depth + Dollars(Strip(lines[i]));
      if Skipped(lines[i], depth) then
        rest == Texts(Groups(lines[i + 1..], buf, depth)) && Texts(Groups(lines[i..], buf, depth)) == rest
      else if EndsStatement(lines[i]) && depth' % 2 == 0 then
        && rest == Texts(Groups(lines[i + 1..], [], depth'))
        && Texts(Groups(lines[i..], buf, depth)) == [Strip(Join(buf + [lines[i]]))] + rest
      else
        && rest == Texts(Groups(lines[i + 1..], buf + [lines[i]], depth'))
        && Texts(Groups(lines[i..], buf, depth)) == rest
  {
    hide Skipped, EndsStatement, Strip, Join, Dollars;
    rest := if Skipped(lines[i], depth) then Texts(Groups(lines[i + 1..], buf, depth))
            else if EndsStatement(lines[i]) && (depth + Dollars(Strip(lines[i]))) % 2 == 0 then
              Texts(Groups(lines[i + 1..], [], depth + Dollars(Strip(lines[i]))))
            else Texts(Groups(lines[i + 1..], buf + [lines[i]], depth + Dollars(Strip(lines[i]))));
    assert lines[i..][0] == lines[i] && lines[i..][1..] == lines[i + 1..];
  }

  method Split(sql: string) returns (stmts: seq<string>)
    ensures stmts == Statements(sql)
  {
    hide Groups, Texts, Join;
    stmts := [];
    var lines, buf := SplitLines(sql), [];
    var dollarDepth: nat := 0;
    ghost var all := Texts(Groups(lines, buf, dollarDepth));
    for i := 0 to |lines|
      invariant NoneBlank(buf)
      invariant all == stmts + Texts(Groups(lines[i..], buf, dollarDepth))
    {
      ghost var rest := NextTexts(lines, i, buf, dollarDepth);
      if !Skipped(lines[i], dollarDepth) {
        dollarDepth := dollarDepth + Dollars(Strip(lines[i]));
        buf := buf + [lines[i]];
        if EndsStatement(lines[i]) && dollarDepth % 2 == 0 {
          var stmt := Strip(Join(buf));
          JoinNotBlank(buf);
          if stmt != "" {
            assert stmts + ([stmt] + rest) == (stmts + [stmt]) + rest;
            stmts := stmts + [stmt];
          }
          buf := [];
        }
      }
      assert rest == Texts(Groups(lines[i + 1..], buf, dollarDepth));
      assert all == stmts + rest;
    }
    NothingLeft(lines, buf, dollarDepth);
  }

  lemma NothingLeft(lines: seq<string>, buf: seq<string>, depth: nat)
    ensures Texts(Groups(lines[|lines|..], buf, depth)) == []
  {
  }

  lemma JoinNotBlank(lines: seq<string>)
    requires lines != [] && NoneBlank(lines)
    ensures Strip(Join(lines)) != ""
  {
    StripJoin(lines);
  }

  // ---------------------------------------------------------------------------
  // The tests on a line
  // ---------------------------------------------------------------------------

  lemma Marks()
    ensures !IsSpace(';') && !IsSpace('-')
  {
  }

  /** A line ends a statement exactly when nothing but white space follows a ';' that is in it. */
  lemma EndsStatementIff(line: string)
    ensures EndsStatement(line) <==> exists body, post :: line == body + ";" + post && AllSpace(post)
  {
    Marks();
    hide IsSpace, Strip;
    if EndsStatement(line) {
      var pre, post := StripSplits(line);
      var n := |Strip(line)| - 1;
      assert line == (pre + Strip(line)[..n]) + ";" + post;
    }
    if body, post :| line == body + ";" + post && AllSpace(post) { EndsWithSemicolon(body, post); }
  }

  lemma EndsWithSemicolon(body: string, post: string)
    requires AllSpace(post)
    ensures EndsStatement(body + ";" + post)
  {
    Marks();
    hide IsSpace, LStrip, RStrip, Strip;
    var s := body + ";";
    var pre := LStripSplits(s);
    var core := LStrip(s);
    assert s[|s| - 1] == ';' && !AllSpace(s);
    assert core[|core| - 1] == s[|s| - 1];
    StripCore(pre, core, post);
    assert pre + core + post == body + ";" + post;
  }

  /** A line is a comment exactly when "--" stands in it after nothing but white space. */
  lemma CommentLineIff(line: string)
    ensures IsCommentLine(line) <==> exists pre, rest :: line == pre + "--" + rest && AllSpace(pre)
  {
    Marks();
    hide IsSpace, Strip;
    if IsCommentLine(line) {
      var pre, post := StripSplits(line);
      var core := Strip(line);
      assert core == "--" + core[2..];
      assert line == pre + "--" + (core[2..] + post);
    }
    if pre, rest :| line == pre + "--" + rest && AllSpace(pre) { OpensComment(pre, rest); }
  }

  lemma InCore(core: string, post: string, i: nat)
    requires AllSpace(post) && i < |core + post| && !IsSpace((core + post)[i])
    ensures i < |core|
  {
  }

  lemma OpensComment(pre: string, rest: string)
    requires AllSpace(pre)
    ensures IsCommentLine(pre + "--" + rest)
  {
    Marks();
    hide IsSpace, LStrip, RStrip, Strip;
    var s := "--" + rest;
    var post := RStripSplits(s);
    var core := RStrip(s);
    InCore(core, post, 1);
    assert core[..2] == s[..2] == "--";
    StripCore(pre, core, post);
    assert pre + core + post == pre + "--" + rest;
  }

  /** An empty line at the end changes no statement. */
  lemma {:induction false} EmptyLineAdded(lines: seq<string>, buf: seq<string>, depth: nat)
    ensures Groups(lines + [""], buf, depth) == Groups(lines, buf, depth)
    decreases |lines|
  {
    hide IsSpace;
    if lines == [] {
      assert ([] + [""])[1..] == [];
    } else {
      hide Strip, Dollars, IsComment, EndsStatement;
      assert (lines + [""])[1..] == lines[1..] + [""];
      var deeper := depth + Dollars(Strip(lines[0]));
      EmptyLineAdded(lines[1..], buf, depth);
      EmptyLineAdded(lines[1..], [], deeper);
      EmptyLineAdded(lines[1..], buf + [lines[0]], deeper);
    }
  }

  /** Whether a script ends in a line break makes no difference. */
  lemma LastLineFeed(sql: string)
    ensures Statements(sql + "\n") == Statements(sql)
  {
    LineFeedAdded(sql);
    EmptyLineAdded(SplitLines(sql), [], 0);
  }

  // ---------------------------------------------------------------------------
  // The lines of a statement
  // ---------------------------------------------------------------------------

  ghost predicate NoneBlank(lines: seq<string>) { forall line :: line in lines ==> Strip(line) != "" }

  /** What .strip() on the joined lines does to the lines. */
  function Trim(lines: seq<string>): seq<string>
    requires lines != []
  {
    var n := |lines| - 1;
    if n == 0 then [Strip(lines[0])] else [LStrip(lines[0])] + lines[1..n] + [RStrip(lines[n])]
  }

  lemma {:induction false} JoinLast(lines: seq<string>, last: string, post: string)
    ensures Join(lines + [last + post]) == Join(lines + [last]) + post
    decreases |lines|
  {
    if lines != [] {
      assert (lines + [last + post])[1..] == lines[1..] + [last + post];
      assert (lines + [last])[1..] == lines[1..] + [last];
      JoinLast(lines[1..], last, post);
    }
  }

  lemma JoinFirst(pre: string, first: string, lines: seq<string>)
    ensures Join([pre + first] + lines) == pre + Join([first] + lines)
  {
    assert ([pre + first] + lines)[1..] == lines == ([first] + lines)[1..];
  }

  lemma {:induction false} JoinEnds(lines: seq<string>)
    requires lines != [] && lines[0] != "" && lines[|lines| - 1] != ""
    ensures Join(lines) != "" && Join(lines)[0] == lines[0][0]
    ensures var last := lines[|lines| - 1]; Join(lines)[|Join(lines)| - 1] == last[|last| - 1]
    decreases |lines|
  {
    if |lines| == 2 {
      assert Join(lines[1..]) == lines[1];
    } else if |lines| > 2 {
      JoinTailEnds(lines[1..]);
    }
  }

  lemma {:induction false} JoinTailEnds(lines: seq<string>)
    requires lines != [] && lines[|lines| - 1] != ""
    ensures Join(lines) != ""
    ensures var last := lines[|lines| - 1]; Join(lines)[|Join(lines)| - 1] == last[|last| - 1]
    decreases |lines|
  {
    if |lines| > 1 { JoinTailEnds(lines[1..]); }
  }

  predicate TightLeft(s: string) { s != "" && !IsSpace(s[0]) }

  predicate TightRight(s: string) { s != "" && !IsSpace(s[|s| - 1]) }

  lemma StrippedEnds(s: string)
    requires Strip(s) != ""
    ensures TightLeft(LStrip(s)) && TightRight(RStrip(s)) && TightLeft(Strip(s)) && TightRight(Strip(s))
  {
    hide IsSpace, LStrip, RStrip;
    var pre, post := StripSplits(s);
    assert LStrip(s)[0] == Strip(s)[0];
  }

  lemma TrimEnds(lines: seq<string>)
    requires lines != [] && NoneBlank(lines)
    ensures TightLeft(Trim(lines)[0]) && TightRight(Trim(lines)[|lines| - 1])
  {
    hide IsSpace, Strip, LStrip, RStrip;
    StrippedEnds(lines[0]);
    StrippedEnds(lines[|lines| - 1]);
  }

  lemma TrimSame(lines: seq<string>)
    requires lines != [] && NoneBlank(lines)
    ensures |Trim(lines)| == |lines| && forall i :: 0 <= i < |lines| ==> Strip(Trim(lines)[i]) == Strip(lines[i])
  {
    hide Strip, LStrip, RStrip;
    StripSame(lines[0]);
    StripSame(lines[|lines| - 1]);
    var n, t := |lines| - 1, Trim(lines);
    forall i | 0 <= i < |lines| ensures Strip(t[i]) == Strip(lines[i]) {
      if 0 < i < n { assert t[i] == lines[i]; }
    }
  }

  lemma TrimmedTight(lines: seq<string>)
    requires lines != [] && NoneBlank(lines)
    ensures Tight(Join(Trim(lines)))
  {
    hide IsSpace, Strip, LStrip, RStrip, Join;
    TrimEnds(lines);
    JoinEnds(Trim(lines));
  }

  /** Stripping the joined lines strips the first line on the left and the last on the right. */
  lemma StripJoin(lines: seq<string>)
    requires lines != [] && NoneBlank(lines)
    ensures Strip(Join(lines)) == Join(Trim(lines)) && Tight(Join(Trim(lines)))
  {
    hide IsSpace, Strip, LStrip, RStrip;
    TrimmedTight(lines);
    if |lines| > 1 {
      var pre, post := JoinSplits(lines);
      StripCore(pre, Join(Trim(lines)), post);
    }
  }

  lemma JoinSplits(lines: seq<string>) returns (pre: string, post: string)
    requires |lines| > 1
    ensures AllSpace(pre) && AllSpace(post) && Join(lines) == pre + Join(Trim(lines)) + post
  {
    hide IsSpace, Strip, LStrip, RStrip, Join;
    var n := |lines| - 1;
    pre := LStripSplits(lines[0]);
    post := RStripSplits(lines[n]);
    var middle := lines[1..n];
    var back := middle + [lines[n]];
    assert lines == [pre + LStrip(lines[0])] + back;
    JoinFirst(pre, LStrip(lines[0]), back);
    var front := [LStrip(lines[0])] + middle;
    assert [LStrip(lines[0])] + back == front + [RStrip(lines[n]) + post];
    JoinLast(front, RStrip(lines[n]), post);
    assert front + [RStrip(lines[n])] == Trim(lines);
  }

  // ---------------------------------------------------------------------------
  // What the groups are
  // ---------------------------------------------------------------------------

  function Flatten(groups: seq<seq<string>>): seq<string> {
    if groups == [] then [] else groups[0] + Flatten(groups[1..])
  }

  /** The lines the loop appends to its buffer. */
  function Kept(lines: seq<string>, depth: nat): seq<string> {
    if lines == [] then []
    else if Skipped(lines[0], depth) then Kept(lines[1..], depth)
    else [lines[0]] + Kept(lines[1..], depth + Dollars(Strip(lines[0])))
  }

  function DollarSum(lines: seq<string>): nat {
    if lines == [] then 0 else Dollars(Strip(lines[0])) + DollarSum(lines[1..])
  }

  /** A complete statement: its last line ends in ';' and its dollar quotes are closed. */
  predicate Complete(lines: seq<string>) {
    lines != [] && EndsStatement(lines[|lines| - 1]) && DollarSum(lines) % 2 == 0
  }

  /** No statement is complete before its last line. */
  ghost predicate Minimal(lines: seq<string>) {
    forall n :: 0 < n < |lines| ==> !Complete(lines[..n])
  }

  lemma {:induction false} DollarSumConcat(a: seq<string>, b: seq<string>)
    ensures DollarSum(a + b) == DollarSum(a) + DollarSum(b)
    decreases |a|
  {
    if a == [] {
      assert a + b == b;
    } else {
      assert (a + b)[1..] == a[1..] + b;
      DollarSumConcat(a[1..], b);
    }
  }

  /** What is left in the buffer when the input ends: the unterminated tail. */
  function Tail(lines: seq<string>, buf: seq<string>, depth: nat): seq<string>
    decreases |lines|
  {
    if lines == [] then buf
    else if Skipped(lines[0], depth) then Tail(lines[1..], buf, depth)
    else
      var depth' := depth + Dollars(Strip(lines[0]));
      if EndsStatement(lines[0]) && depth' % 2 == 0 then Tail(lines[1..], [], depth')
      else Tail(lines[1..], buf + [lines[0]], depth')
  }

  ghost predicate Pending(buf: seq<string>, depth: nat) {
    NoneBlank(buf) && (depth - DollarSum(buf)) % 2 == 0 && NoCompletePrefix(buf)
  }

  lemma PendingGrows(buf: seq<string>, depth: nat, line: string)
    requires Pending(buf, depth) && !Skipped(line, depth)
    ensures var depth' := depth + Dollars(Strip(line));
      && NoneBlank(buf + [line]) && (depth' - DollarSum(buf + [line])) % 2 == 0 && Minimal(buf + [line])
      && (Complete(buf + [line]) <==> EndsStatement(line) && depth' % 2 == 0)
      && (!Complete(buf + [line]) ==> Pending(buf + [line], depth'))
  {
    hide Strip, IsComment, Dollars;
    DollarSumConcat(buf, [line]);
    assert DollarSum([line]) == Dollars(Strip(line)) + DollarSum([]);
    forall n | 0 < n < |buf + [line]| ensures !Complete((buf + [line])[..n]) {
      assert (buf + [line])[..n] == buf[..n];
    }
    assert (buf + [line])[..|buf| + 1] == buf + [line];
  }

  /** The groups and the dropped tail together are exactly the kept lines, in order. */
  lemma {:induction false} GroupsHoldKept(lines: seq<string>, buf: seq<string>, depth: nat)
    ensures Flatten(Groups(lines, buf, depth)) + Tail(lines, buf, depth) == buf + Kept(lines, depth)
    decreases |lines|
  {
    hide Strip, Skipped, EndsStatement, Dollars;
    if lines != [] {
      if Skipped(lines[0], depth) {
        GroupsHoldKept(lines[1..], buf, depth);
      } else {
        var depth' := depth + Dollars(Strip(lines[0]));
        var buf' := buf + [lines[0]];
        assert buf + Kept(lines, depth) == buf' + Kept(lines[1..], depth');
        if EndsStatement(lines[0]) && depth' % 2 == 0 {
          GroupsHoldKept(lines[1..], [], depth');
          FlattenCons(buf', Groups(lines[1..], [], depth'));
          assert Flatten(Groups(lines, buf, depth)) + Tail(lines, buf, depth)
              == buf' + (Flatten(Groups(lines[1..], [], depth')) + Tail(lines[1..], [], depth'));
        } else {
          GroupsHoldKept(lines[1..], buf', depth');
        }
      }
    }
  }

  lemma FlattenCons(g: seq<string>, groups: seq<seq<string>>)
    ensures Flatten([g] + groups) == g + Flatten(groups)
  {
    assert ([g] + groups)[1..] == groups;
  }

  ghost predicate NoCompletePrefix(lines: seq<string>) {
    forall n :: 0 < n <= |lines| ==> !Complete(lines[..n])
  }

  /** Each group is a complete statement cut as early as it can be; the dropped tail completes nothing. */
  lemma {:induction false} GroupsAreComplete(lines: seq<string>, buf: seq<string>, depth: nat)
    requires Pending(buf, depth)
    ensures forall g :: g in Groups(lines, buf, depth) ==> NoneBlank(g) && Complete(g) && Minimal(g)
    ensures NoCompletePrefix(Tail(lines, buf, depth))
    decreases |lines|
  {
    hide Strip, EndsStatement, DollarSum, Dollars, Pending, Complete, Minimal, NoneBlank, Skipped, NoCompletePrefix;
    if lines == [] {
      PendingCompletesNothing(buf, depth);
    } else if Skipped(lines[0], depth) {
      GroupsAreComplete(lines[1..], buf, depth);
    } else {
      var depth' := depth + Dollars(Strip(lines[0]));
      PendingGrows(buf, depth, lines[0]);
      if EndsStatement(lines[0]) && depth' % 2 == 0 {
        NothingPending(depth');
        GroupsAreComplete(lines[1..], [], depth');
      } else {
        GroupsAreComplete(lines[1..], buf + [lines[0]], depth');
      }
    }
  }

  lemma PendingCompletesNothing(buf: seq<string>, depth: nat)
    requires Pending(buf, depth)
    ensures NoCompletePrefix(buf)
  {
  }

  lemma NothingPending(depth: nat)
    requires depth % 2 == 0
    ensures Pending([], depth)
  {
  }

  // ---------------------------------------------------------------------------
  // Splitting again
  // ---------------------------------------------------------------------------

  ghost predicate Solid(groups: seq<seq<string>>) {
    forall i :: 0 <= i < |groups| ==> groups[i] != [] && NoneBlank(groups[i])
  }

  ghost function TrimAll(groups: seq<seq<string>>): seq<seq<string>>
    requires Solid(groups)
  {
    if groups == [] then [] else [Trim(groups[0])] + TrimAll(groups[1..])
  }

  ghost predicate SameStripped(a: seq<string>, b: seq<string>) {
    |a| == |b| && forall i :: 0 <= i < |a| ==> Strip(a[i]) == Strip(b[i])
  }

  /** Cuts lines into groups of the sizes of the given ones. */
  function CutLike(lines: seq<string>, groups: seq<seq<string>>): seq<seq<string>>
    requires |lines| == |Flatten(groups)|
  {
    if groups == [] then [] else [lines[..|groups[0]|]] + CutLike(lines[|groups[0]|..], groups[1..])
  }

  lemma {:induction false} BufIsPrefix(lines: seq<string>, buf: seq<string>, depth: nat)
    ensures Groups(lines, buf, depth) != [] ==> buf <= Flatten(Groups(lines, buf, depth))
    decreases |lines|
  {
    if lines != [] {
      if Skipped(lines[0], depth) {
        BufIsPrefix(lines[1..], buf, depth);
      } else {
        BufIsPrefix(lines[1..], buf + [lines[0]], depth + Dollars(Strip(lines[0])));
      }
    }
  }

  /** Lines that strip to the same texts as the grouped ones are kept, and cut, in the same places. */
  lemma {:induction false} GroupsAgain(lines: seq<string>, buf: seq<string>, depth: nat, again: seq<string>,
                                       buf2: seq<string>)
    requires Groups(lines, buf, depth) != [] && |buf2| == |buf|
    requires buf <= Flatten(Groups(lines, buf, depth))
    requires SameStripped(Flatten(Groups(lines, buf, depth))[|buf|..], again)
    ensures Groups(again, buf2, depth) == CutLike(buf2 + again, Groups(lines, buf, depth))
    decreases |lines|, 1
  {
    var groups := Groups(lines, buf, depth);
    if Skipped(lines[0], depth) {
      GroupsAgain(lines[1..], buf, depth, again, buf2);
    } else {
      var depth' := depth + Dollars(Strip(lines[0]));
      if EndsStatement(lines[0]) && depth' % 2 == 0 {
        GroupEndsAgain(lines, buf, depth, again, buf2);
      } else {
        GroupGoesOnAgain(lines, buf, depth, again, buf2);
      }
    }
  }

  lemma GroupsUnfold(lines: seq<string>, buf: seq<string>, depth: nat)
    requires lines != [] && !Skipped(lines[0], depth)
    ensures var depth' := depth + Dollars(Strip(lines[0]));
      Groups(lines, buf, depth) ==
        if EndsStatement(lines[0]) && depth' % 2 == 0 then [buf + [lines[0]]] + Groups(lines[1..], [], depth')
        else Groups(lines[1..], buf + [lines[0]], depth')
  {
  }

  /** The tests of the loop see a line through its stripped text only. */
  lemma SameTests(a: string, b: string, depth: nat)
    requires Strip(a) == Strip(b)
    ensures Skipped(a, depth) == Skipped(b, depth) && EndsStatement(a) == EndsStatement(b)
  {
  }

  lemma CutFirst(first: seq<string>, rest: seq<string>, g: seq<string>, groups: seq<seq<string>>)
    requires |first| == |g| && |rest| == |Flatten(groups)|
    ensures |first + rest| == |Flatten([g] + groups)|
    ensures CutLike(first + rest, [g] + groups) == [first] + CutLike(rest, groups)
  {
    assert ([g] + groups)[1..] == groups;
    assert (first + rest)[..|g|] == first && (first + rest)[|g|..] == rest;
  }

  lemma {:induction false} GroupEndsAgain(lines: seq<string>, buf: seq<string>, depth: nat, again: seq<string>,
                                          buf2: seq<string>)
    requires Groups(lines, buf, depth) != [] && |buf2| == |buf|
    requires buf <= Flatten(Groups(lines, buf, depth))
    requires SameStripped(Flatten(Groups(lines, buf, depth))[|buf|..], again)
    requires lines != [] && !Skipped(lines[0], depth) && EndsStatement(lines[0])
      && (depth + Dollars(Strip(lines[0]))) % 2 == 0
    ensures Groups(again, buf2, depth) == CutLike(buf2 + again, Groups(lines, buf, depth))
    decreases |lines|, 0
  {
    hide Groups, Skipped, EndsStatement, Strip, CutLike, Flatten, Dollars;
    GroupsUnfold(lines, buf, depth);
    var depth', buf' := depth + Dollars(Strip(lines[0])), buf + [lines[0]];
    var rest := Groups(lines[1..], [], depth');
    FlattenCons(buf', rest);
    assert (buf' + Flatten(rest))[|buf|..] == [lines[0]] + Flatten(rest);
    SameStrippedTail([lines[0]] + Flatten(rest), again);
    assert ([lines[0]] + Flatten(rest))[1..] == Flatten(rest);
    SameTests(lines[0], again[0], depth);
    GroupsUnfold(again, buf2, depth);
    var buf2' := buf2 + [again[0]];
    assert Groups(again[1..], [], depth') == CutLike(again[1..], rest) by {
      if rest == [] {
        NothingToCut(again[1..], depth');
      } else {
        GroupsAgain(lines[1..], [], depth', again[1..], []);
        assert [] + again[1..] == again[1..];
      }
    }
    CutFirst(buf2', again[1..], buf', rest);
    assert buf2' + again[1..] == buf2 + again;
  }

  lemma NothingToCut(again: seq<string>, depth: nat)
    requires |again| == |Flatten([])|
    ensures Groups(again, [], depth) == CutLike(again, [])
  {
  }

  lemma {:induction false} GroupGoesOnAgain(lines: seq<string>, buf: seq<string>, depth: nat, again: seq<string>,
                                            buf2: seq<string>)
    requires Groups(lines, buf, depth) != [] && |buf2| == |buf|
    requires buf <= Flatten(Groups(lines, buf, depth))
    requires SameStripped(Flatten(Groups(lines, buf, depth))[|buf|..], again)
    requires lines != [] && !Skipped(lines[0], depth)
    requires !(EndsStatement(lines[0]) && (depth + Dollars(Strip(lines[0]))) % 2 == 0)
    ensures Groups(again, buf2, depth) == CutLike(buf2 + again, Groups(lines, buf, depth))
    decreases |lines|, 0
  {
    hide Groups, Skipped, EndsStatement, Strip, CutLike, Flatten, Dollars;
    GroupsUnfold(lines, buf, depth);
    var groups := Groups(lines, buf, depth);
    var depth', buf' := depth + Dollars(Strip(lines[0])), buf + [lines[0]];
    BufIsPrefix(lines[1..], buf', depth');
    var flat := Flatten(groups);
    assert flat[|buf|..] == [lines[0]] + flat[|buf'|..];
    SameStrippedTail(flat[|buf|..], again);
    assert flat[|buf'|..] == flat[|buf|..][1..];
    SameTests(lines[0], again[0], depth);
    GroupsUnfold(again, buf2, depth);
    GroupsAgain(lines[1..], buf', depth', again[1..], buf2 + [again[0]]);
    assert buf2 + [again[0]] + again[1..] == buf2 + again;
  }

  lemma SameStrippedTail(a: seq<string>, b: seq<string>)
    requires a != [] && SameStripped(a, b)
    ensures b != [] && Strip(b[0]) == Strip(a[0]) && SameStripped(a[1..], b[1..])
  {
  }

  lemma {:induction false} CutTrimmed(groups: seq<seq<string>>)
    requires Solid(groups)
    ensures SameStripped(Flatten(groups), Flatten(TrimAll(groups)))
    ensures CutLike(Flatten(TrimAll(groups)), groups) == TrimAll(groups)
  {
    if groups != [] {
      TrimSame(groups[0]);
      CutTrimmed(groups[1..]);
      var flat, rest := Flatten(TrimAll(groups)), Flatten(TrimAll(groups[1..]));
      FlattenCons(Trim(groups[0]), TrimAll(groups[1..]));
      assert TrimAll(groups)[1..] == TrimAll(groups[1..]);
      assert flat[..|groups[0]|] == Trim(groups[0]) && flat[|groups[0]|..] == rest;
    }
  }

  lemma {:induction false} TextsOfTrimmed(groups: seq<seq<string>>)
    requires Solid(groups)
    ensures Texts(TrimAll(groups)) == Texts(groups)
  {
    if groups != [] {
      TextsOfTrimmed(groups[1..]);
      StripJoin(groups[0]);
      var core := Join(Trim(groups[0]));
      StripCore("", core, "");
      assert "" + core + "" == core;
      assert TrimAll(groups)[1..] == TrimAll(groups[1..]);
    }
  }

  lemma {:induction false} JoinConcat(a: seq<string>, b: seq<string>)
    requires a != [] && b != []
    ensures Join(a + b) == Join(a) + "\n" + Join(b)
    decreases |a|
  {
    assert (a + b)[1..] == a[1..] + b;
    if |a| > 1 { JoinConcat(a[1..], b); }
  }

  /** The rejoined statements are the trimmed lines of all groups, joined. */
  lemma {:induction false} RejoinedTexts(groups: seq<seq<string>>)
    requires Solid(groups)
    ensures Join(Texts(groups)) == Join(Flatten(TrimAll(groups)))
    ensures groups != [] ==> Flatten(TrimAll(groups)) != []
  {
    if groups != [] {
      StripJoin(groups[0]);
      TrimSame(groups[0]);
      RejoinedTexts(groups[1..]);
      assert TrimAll(groups)[1..] == TrimAll(groups[1..]);
      if |groups| == 1 {
        assert Flatten(TrimAll(groups)) == Trim(groups[0]);
      } else {
        JoinConcat(Trim(groups[0]), Flatten(TrimAll(groups[1..])));
      }
    }
  }

  // ---------------------------------------------------------------------------
  // Main results
  // ---------------------------------------------------------------------------

  ghost predicate Unbroken(lines: seq<string>) { forall i :: 0 <= i < |lines| ==> NoBreak(lines[i]) }

  lemma {:induction false} KeptUnbroken(lines: seq<string>, depth: nat)
    requires Unbroken(lines)
    ensures Unbroken(Kept(lines, depth))
  {
    if lines != [] {
      KeptUnbroken(lines[1..], depth);
      KeptUnbroken(lines[1..], depth + Dollars(Strip(lines[0])));
    }
  }

  lemma TrimUnbroken(lines: seq<string>)
    requires lines != [] && Unbroken(lines)
    ensures Unbroken(Trim(lines))
  {
    hide NoBreak;
    var n := |lines| - 1;
    StripUnbroken(lines[0]);
    StripUnbroken(lines[n]);
    var t := Trim(lines);
    forall i | 0 <= i < |t| ensures NoBreak(t[i]) {
      if 0 < i < n { assert t[i] == lines[i]; }
    }
  }

  lemma StripUnbroken(s: string)
    requires NoBreak(s)
    ensures NoBreak(Strip(s)) && NoBreak(LStrip(s)) && NoBreak(RStrip(s))
  {
    var pre := LStripSplits(s);
    var post := RStripSplits(s);
    var inner := RStripSplits(LStrip(s));
    assert forall c :: c in LStrip(s) ==> c in s;
  }

  lemma {:induction false} TrimAllUnbroken(groups: seq<seq<string>>)
    requires Solid(groups) && Unbroken(Flatten(groups))
    ensures Unbroken(Flatten(TrimAll(groups)))
  {
    if groups != [] {
      var flat := Flatten(groups);
      assert forall i :: 0 <= i < |groups[0]| ==> groups[0][i] == flat[i];
      assert forall i :: 0 <= i < |Flatten(groups[1..])| ==> Flatten(groups[1..])[i] == flat[i + |groups[0]|];
      TrimUnbroken(groups[0]);
      TrimAllUnbroken(groups[1..]);
      assert TrimAll(groups)[1..] == TrimAll(groups[1..]);
    }
  }

  ghost function GroupsOf(sql: string): (groups: seq<seq<string>>)
    ensures Solid(groups)
  {
    GroupsAreComplete(SplitLines(sql), [], 0);
    assert forall i :: 0 <= i < |Groups(SplitLines(sql), [], 0)| ==>
        Groups(SplitLines(sql), [], 0)[i] in Groups(SplitLines(sql), [], 0);
    Groups(SplitLines(sql), [], 0)
  }

  lemma GroupsOfSql(sql: string)
    ensures Unbroken(Flatten(GroupsOf(sql)))
    ensures forall i :: 0 <= i < |GroupsOf(sql)| ==> Complete(GroupsOf(sql)[i]) && Minimal(GroupsOf(sql)[i])
  {
    var lines := SplitLines(sql);
    GroupsAreComplete(lines, [], 0);
    GroupsHoldKept(lines, [], 0);
    assert [] + Kept(lines, 0) == Kept(lines, 0);
    SplitLinesHaveNoBreak(sql);
    KeptUnbroken(lines, 0);
    var flat := Flatten(GroupsOf(sql));
    assert forall i :: 0 <= i < |flat| ==> flat[i] == Kept(lines, 0)[i];
    forall i | 0 <= i < |GroupsOf(sql)|
      ensures Complete(GroupsOf(sql)[i]) && Minimal(GroupsOf(sql)[i])
    {
      assert GroupsOf(sql)[i] in GroupsOf(sql);
    }
  }

  /** A nonempty list of trimmed lines comes back from joining and splitting. */
  lemma {:induction false} LastLineSolid(groups: seq<seq<string>>)
    requires Solid(groups) && groups != []
    ensures var flat := Flatten(TrimAll(groups)); flat != [] && flat[|flat| - 1] != ""
  {
    TrimSame(groups[0]);
    assert TrimAll(groups)[1..] == TrimAll(groups[1..]);
    if |groups| == 1 {
      TrimEnds(groups[0]);
      assert Flatten(TrimAll(groups)) == Trim(groups[0]);
    } else {
      LastLineSolid(groups[1..]);
    }
  }

  lemma NothingRejoined()
    ensures SplitLines(Join([])) == []
  {
  }

  /**
   The lines of the emitted statements are exactly the kept lines, in order, up to the last boundary, with white
   space removed at each statement's two ends.
   */
  lemma EmittedLines(sql: string)
    ensures SplitLines(Join(Statements(sql))) == Flatten(TrimAll(GroupsOf(sql)))
    ensures Flatten(GroupsOf(sql)) + Tail(SplitLines(sql), [], 0) == Kept(SplitLines(sql), 0)
    ensures NoCompletePrefix(Tail(SplitLines(sql), [], 0))
  {
    hide Strip, Join, Groups, Trim, Kept, EndsStatement, Dollars, IsBreak, SplitLines;
    NothingRejoined();
    var groups := GroupsOf(sql);
    GroupsOfSql(sql);
    GroupsHoldKept(SplitLines(sql), [], 0);
    GroupsAreComplete(SplitLines(sql), [], 0);
    RejoinedTexts(groups);
    if groups != [] {
      TrimAllUnbroken(groups);
      LastLineSolid(groups);
      var flat := Flatten(TrimAll(groups));
      assert forall line :: line in flat ==> NoBreak(line);
      SplitJoined(flat);
    }
  }

  lemma {:induction false} TextsLength(groups: seq<seq<string>>)
    ensures |Texts(groups)| == |groups|
  {
    if groups != [] { TextsLength(groups[1..]); }
  }

  lemma {:induction false} TextAt(groups: seq<seq<string>>, i: nat)
    requires i < |Texts(groups)|
    ensures i < |groups| && Texts(groups)[i] == Strip(Join(groups[i]))
  {
    TextsLength(groups);
    if i > 0 { TextAt(groups[1..], i - 1); }
  }

  lemma {:induction false} FlattenHas(groups: seq<seq<string>>, i: nat)
    requires i < |groups| && Unbroken(Flatten(groups))
    ensures Unbroken(groups[i])
  {
    var flat, rest := Flatten(groups), Flatten(groups[1..]);
    if i == 0 {
      assert forall j :: 0 <= j < |groups[0]| ==> groups[0][j] == flat[j];
    } else {
      assert forall j :: 0 <= j < |rest| ==> rest[j] == flat[j + |groups[0]|];
      FlattenHas(groups[1..], i - 1);
    }
  }

  lemma {:induction false} SameDollars(a: seq<string>, b: seq<string>)
    requires SameStripped(a, b)
    ensures DollarSum(a) == DollarSum(b)
  {
    if a != [] {
      SameStrippedTail(a, b);
      SameDollars(a[1..], b[1..]);
    }
  }

  /** Trimming the ends of a group changes nothing the loop looks at. */
  lemma TrimmedComplete(g: seq<string>)
    requires g != [] && NoneBlank(g) && Complete(g) && Minimal(g)
    ensures Complete(Trim(g)) && Minimal(Trim(g)) && TightRight(Trim(g)[|g| - 1])
  {
    hide Strip, EndsStatement, DollarSum, Trim;
    var t := Trim(g);
    TrimSame(g);
    TrimEnds(g);
    SameDollars(g, t);
    SameTests(g[|g| - 1], t[|t| - 1], 0);
    forall n | 0 < n < |t| ensures !Complete(t[..n]) {
      SameDollars(g[..n], t[..n]);
      SameTests(g[n - 1], t[n - 1], 0);
      assert !Complete(g[..n]);
    }
  }

  /** Every emitted statement ends in ';', has an even number of $$ over its lines, and no shorter cut would do. */
  lemma EveryStatementComplete(sql: string, i: nat)
    requires i < |Statements(sql)|
    ensures var stmt := Statements(sql)[i];
      && Tight(stmt) && stmt[|stmt| - 1] == ';'
      && DollarSum(SplitLines(stmt)) % 2 == 0 && Minimal(SplitLines(stmt))
  {
    hide Strip, EndsStatement, DollarSum, Trim, SplitLines, Join;
    var groups := GroupsOf(sql);
    GroupsOfSql(sql);
    TextAt(groups, i);
    var g := groups[i];
    var t := Trim(g);
    StripJoin(g);
    TrimmedComplete(g);
    TrimSame(g);
    FlattenHas(groups, i);
    TrimUnbroken(g);
    TrimEnds(g);
    SplitJoined(t);
    JoinEnds(t);
    LastChar(t);
  }

  lemma LastChar(t: seq<string>)
    requires t != [] && EndsStatement(t[|t| - 1]) && TightRight(t[|t| - 1])
    ensures var last := t[|t| - 1]; last[|last| - 1] == ';'
  {
    hide LStrip, IsSpace, IsBreak;
    var last := t[|t| - 1];
    var pre, post := StripSplits(last);
    assert RStrip(last) == last;
  }

  /** Splitting the rejoined statements gives the same list again. */
  lemma SplitAgain(sql: string)
    ensures Statements(Join(Statements(sql))) == Statements(sql)
  {
    var groups := GroupsOf(sql);
    EmittedLines(sql);
    GroupsOfSql(sql);
    if groups != [] {
      var again := Flatten(TrimAll(groups));
      CutTrimmed(groups);
      assert Flatten(groups)[0..] == Flatten(groups);
      GroupsAgain(SplitLines(sql), [], 0, again, []);
      assert [] + again == again;
      TextsOfTrimmed(groups);
    }
  }

  /** Nothing is dropped exactly when the last kept line ends a statement outside every dollar quote. */
  lemma NothingDroppedIff(sql: string)
    ensures var kept := Kept(SplitLines(sql), 0);
      Tail(SplitLines(sql), [], 0) == [] <==>
        kept == [] || (EndsStatement(kept[|kept| - 1]) && DollarSum(kept) % 2 == 0)
  {
    EmittedLines(sql);
    GroupsOfSql(sql);
    FlattenedComplete(GroupsOf(sql));
    TailEmptyIff(Flatten(GroupsOf(sql)), Tail(SplitLines(sql), [], 0), Kept(SplitLines(sql), 0));
  }

  lemma TailEmptyIff(flat: seq<string>, tail: seq<string>, kept: seq<string>)
    requires kept == flat + tail && DollarSum(flat) % 2 == 0 && NoCompletePrefix(tail)
    requires flat != [] ==> EndsStatement(flat[|flat| - 1])
    ensures tail == [] <==> kept == [] || (EndsStatement(kept[|kept| - 1]) && DollarSum(kept) % 2 == 0)
  {
    if tail == [] {
      assert kept == flat;
    } else {
      LastIncomplete(flat, tail);
    }
  }

  lemma LastIncomplete(flat: seq<string>, tail: seq<string>)
    requires DollarSum(flat) % 2 == 0 && NoCompletePrefix(tail) && tail != []
    ensures !(EndsStatement((flat + tail)[|flat + tail| - 1]) && DollarSum(flat + tail) % 2 == 0)
  {
    hide Strip, EndsStatement, DollarSum;
    DollarSumConcat(flat, tail);
    assert (flat + tail)[|flat + tail| - 1] == tail[|tail| - 1];
    assert !Complete(tail) by { assert tail[..|tail|] == tail; }
  }

  lemma {:induction false} FlattenedComplete(groups: seq<seq<string>>)
    requires forall i :: 0 <= i < |groups| ==> Complete(groups[i])
    ensures DollarSum(Flatten(groups)) % 2 == 0
    ensures groups != [] ==>
      Flatten(groups) != [] && EndsStatement(Flatten(groups)[|Flatten(groups)| - 1])
  {
    hide Strip, EndsStatement;
    if groups != [] {
      FlattenedComplete(groups[1..]);
      DollarSumConcat(groups[0], Flatten(groups[1..]));
    }
  }

  // ---------------------------------------------------------------------------
  // Comments
  // ---------------------------------------------------------------------------

  /**
   The lines that would be kept if comments were skipped whenever they stand outside dollar quotes, as is announced.
   */
  function Promised(lines: seq<string>, depth: nat): seq<string> {
    if lines == [] then []
    else if Strip(lines[0]) == "" || (IsCommentLine(lines[0]) && depth % 2 == 0) then Promised(lines[1..], depth)
    else [lines[0]] + Promised(lines[1..], depth + Dollars(Strip(lines[0])))
  }

  /** No comment stands outside dollar quotes after the first $$. */
  predicate NoLateComment(lines: seq<string>, depth: nat) {
    lines == []
    || (if Skipped(lines[0], depth) then NoLateComment(lines[1..], depth)
        else !(IsCommentLine(lines[0]) && depth % 2 == 0)
             && NoLateComment(lines[1..], depth + Dollars(Strip(lines[0]))))
  }

  /** Past the first $$ every line that is not blank is kept, so no rule keeps more. */
  lemma {:induction false} PromisedIsShorter(lines: seq<string>, depth: nat, other: nat)
    requires depth > 0
    ensures |Promised(lines, other)| <= |Kept(lines, depth)|
  {
    hide Strip, Dollars, IsComment;
    if lines != [] {
      PromisedIsShorter(lines[1..], depth, other);
      PromisedIsShorter(lines[1..], depth + Dollars(Strip(lines[0])), other);
      PromisedIsShorter(lines[1..], depth + Dollars(Strip(lines[0])), other + Dollars(Strip(lines[0])));
    }
  }

  /** The lines kept are the lines announced exactly when no comment stands outside dollar quotes after the first $$. */
  lemma {:induction false} CommentsSkippedIff(lines: seq<string>, depth: nat)
    ensures Kept(lines, depth) == Promised(lines, depth) <==> NoLateComment(lines, depth)
  {
    hide Strip, Dollars, IsComment;
    if lines != [] {
      var rest, deeper := lines[1..], depth + Dollars(Strip(lines[0]));
      if Skipped(lines[0], depth) {
        CommentsSkippedIff(rest, depth);
      } else if IsCommentLine(lines[0]) && depth % 2 == 0 {
        PromisedIsShorter(rest, deeper, depth);
        assert |Kept(lines, depth)| == 1 + |Kept(rest, deeper)|;
      } else {
        CommentsSkippedIff(rest, deeper);
        assert Kept(lines, depth) == [lines[0]] + Kept(rest, deeper);
        assert Promised(lines, depth) == [lines[0]] + Promised(rest, deeper);
        assert Kept(lines, depth)[1..] == Kept(rest, deeper) && Promised(lines, depth)[1..] == Promised(rest, deeper);
      }
    }
  }

  /** With no late comment the statements are those of the announced rule. */
  function PromisedGroups(lines: seq<string>, buf: seq<string>, depth: nat): seq<seq<string>>
    decreases |lines|
  {
    if lines == [] then []
    else if Strip(lines[0]) == "" || (IsCommentLine(lines[0]) && depth % 2 == 0) then
      PromisedGroups(lines[1..], buf, depth)
    else
      var depth' := depth + Dollars(Strip(lines[0]));
      if EndsStatement(lines[0]) && depth' % 2 == 0 then [buf + [lines[0]]] + PromisedGroups(lines[1..], [], depth')
      else PromisedGroups(lines[1..], buf + [lines[0]], depth')
  }

  lemma {:induction false} CommentsDoNoHarm(lines: seq<string>, buf: seq<string>, depth: nat)
    requires NoLateComment(lines, depth)
    ensures Groups(lines, buf, depth) == PromisedGroups(lines, buf, depth)
    decreases |lines|
  {
    hide Strip, Dollars, IsComment, EndsStatement;
    if lines != [] {
      var rest, deeper := lines[1..], depth + Dollars(Strip(lines[0]));
      if Skipped(lines[0], depth) {
        CommentsDoNoHarm(rest, buf, depth);
      } else {
        CommentsDoNoHarm(rest, [], deeper);
        CommentsDoNoHarm(rest, buf + [lines[0]], deeper);
      }
    }
  }

  /** A comment ending in ';' after a dollar quote is emitted as a statement of its own. */
  lemma LateCommentIsEmitted()
    ensures Groups(["$$$$;", "--;"], [], 0) == [["$$$$;"], ["--;"]]
    ensures PromisedGroups(["$$$$;", "--;"], [], 0) == [["$$$$;"]]
  {
    var lines := ["$$$$;", "--;"];
    NotStripped("$$$$;");
    NotStripped("--;");
    assert Dollars("$$$$;") == 2 by {
      assert "$$$$;"[2..] == "$$;" && "$$;"[2..] == ";" && Dollars(";") == 0;
    }
    assert Dollars("--;") == 0 by { assert "--;"[1..] == "-;" && "-;"[1..] == ";"; }
    assert "--;"[..2] == "--" && "$$$$;"[..2] != "--";
    hide Strip, Dollars;
    assert lines[1..] == ["--;"] && ["--;"][1..] == [];
    assert [] + ["$$$$;"] == ["$$$$;"] && [] + ["--;"] == ["--;"];
    assert Groups([], [], 2) == [];
    assert Groups(["--;"], [], 2) == [["--;"]];
    assert PromisedGroups(["--;"], [], 2) == PromisedGroups([], [], 2) == [];
  }
}
