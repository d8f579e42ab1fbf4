/**
 Short-link slugs: three words joined (backend/app/wordlist.py), the pattern that recognises them and the redirect
 behind it (backend/app/main.py), and the two retrying inserts.
 */
module Slugs {
  import opened Options
  import PythonText

  // ---------------------------------------------------------------------------
  // The pattern
  // ---------------------------------------------------------------------------

  predicate IsUpper(c: char) { 'A' <= c <= 'Z' }
  predicate IsLower(c: char) { 'a' <= c <= 'z' }

  /** One capital and two to eleven small letters. */
  predicate Shaped(w: string) {
    3 <= |w| <= 12 && IsUpper(w[0]) && forall i :: 1 <= i < |w| ==> IsLower(w[i])
  }

  /** A capital with n small letters after it is a word exactly for n from two to eleven. */
  lemma WordLengths(c: char, small: string)
    requires IsUpper(c) && forall i :: 0 <= i < |small| ==> IsLower(small[i])
    ensures Shaped([c] + small) <==> 2 <= |small| <= 11
    ensures FirstWord([c] + small).Some? <==> 2 <= |small| <= 11
  {
    assert ([c] + small)[1..] == small;
  }

  function LowerRun(s: string): (n: nat)
    ensures n <= |s| && (forall i :: 0 <= i < n ==> IsLower(s[i])) && (n < |s| ==> !IsLower(s[n]))
  {
    if s != [] && IsLower(s[0]) then 1 + LowerRun(s[1..]) else 0
  }

  /** The length of the word a text begins with. */
  function FirstWord(s: string): (n: Option<nat>)
    ensures n.Some? ==> n.value <= |s| && Shaped(s[..n.value])
  {
    if s == [] || !IsUpper(s[0]) then None
    else
      var n := 1 + LowerRun(s[1..]);
      if 3 <= n <= 12 then Some(n) else None
  }

  /** The three words the pattern finds; a line break may follow them, as the end-of-text mark allows. */
  function Parse(slug: string): Option<(string, string, string)> {
    var n := FirstWord(slug);
    if n.None? then None
    else
      var rest := slug[n.value..];
      var m := FirstWord(rest);
      if m.None? then None
      else
        var last := rest[m.value..];
        var k := FirstWord(last);
        if k.None? || !(last[k.value..] == "" || last[k.value..] == "\n") then None
        else Some((slug[..n.value], rest[..m.value], last[..k.value]))
  }

  lemma WordFound(w: string, s: string, t: string)
    requires Shaped(w) && s == w + t && (t == "" || !IsLower(t[0]))
    ensures FirstWord(s) == Some(|w|) && s[..|w|] == w && s[|w|..] == t
  {
    assert forall i :: 0 <= i < |w| - 1 ==> s[1..][i] == w[i + 1];
    assert t != "" ==> s[1..][|w| - 1] == t[0];
  }

  /** The pattern accepts exactly the joins of three words, with or without a line break after them, and in one way. */
  lemma ParseIff(slug: string, a: string, b: string, c: string)
    ensures Parse(slug) == Some((a, b, c)) <==>
      Shaped(a) && Shaped(b) && Shaped(c) && (slug == a + b + c || slug == a + b + c + "\n")
  {
    hide FirstWord, Shaped;
    if Shaped(a) && Shaped(b) && Shaped(c) && (slug == a + b + c || slug == a + b + c + "\n") {
      var end := if slug == a + b + c then "" else "\n";
      JoinParsed(slug, a, b, c, end);
    }
    if Parse(slug) == Some((a, b, c)) { ParsedJoin(slug, a, b, c); }
  }

  lemma ParsedJoin(slug: string, a: string, b: string, c: string)
    requires Parse(slug) == Some((a, b, c))
    ensures Shaped(a) && Shaped(b) && Shaped(c) && (slug == a + b + c || slug == a + b + c + "\n")
  {
    hide FirstWord, Shaped;
    var rest := slug[|a|..];
    var last := rest[|b|..];
    var end := last[|c|..];
    assert FirstWord(slug) == Some(|a|) && FirstWord(rest) == Some(|b|) && FirstWord(last) == Some(|c|);
    assert a == slug[..|a|] && b == rest[..|b|] && c == last[..|c|];
    assert slug == a + rest && rest == b + last && last == c + end;
    Reassociate(slug, a, b, c, rest, last, end);
  }

  lemma Reassociate(s: string, a: string, b: string, c: string, rest: string, last: string, end: string)
    requires s == a + rest && rest == b + last && last == c + end
    ensures s == a + b + c + end && (end == "" ==> s == a + b + c)
  {
  }

  lemma JoinParsed(slug: string, a: string, b: string, c: string, end: string)
    requires Shaped(a) && Shaped(b) && Shaped(c) && slug == a + b + c + end && (end == "" || end == "\n")
    ensures Parse(slug) == Some((a, b, c))
  {
    hide FirstWord;
    var last := c + end;
    var rest := b + last;
    assert slug == a + rest;
    WordFound(c, last, end);
    WordFound(b, rest, last);
    WordFound(a, slug, rest);
  }

  // ---------------------------------------------------------------------------
  // Slugs of a word list
  // ---------------------------------------------------------------------------

  /** What one line adds to the list. */
  function WordOn(line: string): seq<string> {
    var word := PythonText.Strip(line);
    if word == "" || word[0] == '#' then [] else [word]
  }

  function WordsIn(lines: seq<string>): seq<string> {
    if lines == [] then [] else WordOn(lines[0]) + WordsIn(lines[1..])
  }

  lemma {:induction false} WordsMore(lines: seq<string>, i: nat)
    requires i < |lines|
    ensures WordsIn(lines[..i + 1]) == WordsIn(lines[..i]) + WordOn(lines[i])
  {
    hide WordOn;
    if i > 0 {
      WordsMore(lines[1..], i - 1);
      assert lines[..i + 1][1..] == lines[1..][..i] && lines[..i][1..] == lines[1..][..i - 1];
    }
  }

  /** The line has a word on it: something other than white space, and not a comment. */
  predicate HasWord(line: string) { PythonText.Strip(line) != "" && !("#" <= PythonText.Strip(line)) }

  /** The k-th word is what is on line at[k], the lines are in order, and none that has a word is left out. */
  ghost predicate OnLines(lines: seq<string>, words: seq<string>, at: seq<nat>) {
    && |at| == |words| && (forall k :: 0 <= k < |at| - 1 ==> at[k] < at[k + 1])
    && (forall k :: 0 <= k < |at| ==>
          at[k] < |lines| && HasWord(lines[at[k]]) && words[k] == PythonText.Strip(lines[at[k]]))
    && forall i :: 0 <= i < |lines| && HasWord(lines[i]) ==> i in at
  }

  lemma NextOnLines(lines: seq<string>, line: string, words: seq<string>, at: seq<nat>)
    requires OnLines(lines, words, at)
    ensures HasWord(line) ==> OnLines(lines + [line], words + [PythonText.Strip(line)], at + [|lines|])
    ensures !HasWord(line) ==> OnLines(lines + [line], words, at)
  {
    hide HasWord, PythonText.Strip;
    var more := at + [|lines|];
    assert more[|at|] == |lines|;
    forall i | 0 <= i < |lines + [line]| && HasWord((lines + [line])[i])
      ensures if HasWord(line) then i in more else i in at
    {
      if i < |lines| { assert (lines + [line])[i] == lines[i]; }
    }
  }

  /** The words are those of the lines that have one, in order and without the white space around them. */
  lemma {:induction false} WordsAre(lines: seq<string>) returns (at: seq<nat>)
    ensures OnLines(lines, WordsIn(lines), at)
  {
    at := [];
    if lines != [] {
      var n := |lines| - 1;
      at := WordsAre(lines[..n]);
      WordsMore(lines, n);
      assert lines[..n + 1] == lines && lines == lines[..n] + [lines[n]];
      hide WordsIn, OnLines;
      NextOnLines(lines[..n], lines[n], WordsIn(lines[..n]), at);
      LineWord(lines[n], WordsIn(lines[..n]));
      at := if HasWord(lines[n]) then at + [n] else at;
    }
  }

  lemma LineWord(line: string, words: seq<string>)
    ensures words + WordOn(line) == if HasWord(line) then words + [PythonText.Strip(line)] else words
  {
  }

  /** The words of the list's lines; None is the error for fewer than ten. */
  method LoadWords(lines: seq<string>) returns (words: Option<seq<string>>)
    ensures words == if |WordsIn(lines)| < 10 then None else Some(WordsIn(lines))
  {
    hide WordsIn, PythonText.Strip;
    var found := [];
    NoWords();
    for i := 0 to |lines|
      invariant found == WordsIn(lines[..i])
    {
      WordsMore(lines, i);
      var word := PythonText.Strip(lines[i]);
      if word != "" && word[0] != '#' { found := found + [word]; }
    }
    assert lines[..|lines|] == lines;
    if |found| < 10 { return None; }
    return Some(found);
  }

  lemma NoWords()
    ensures WordsIn([]) == []
  {
  }

  /** What generate_slug can return. */
  ghost predicate IsSlugOf(words: set<string>, slug: string) {
    exists a, b, c :: a in words && b in words && c in words && slug == a + b + c
  }

  /** Different triples of shaped words give different slugs. */
  lemma JoinIsInjective(a: string, b: string, c: string, x: string, y: string, z: string)
    requires Shaped(a) && Shaped(b) && Shaped(c) && Shaped(x) && Shaped(y) && Shaped(z)
    ensures a + b + c == x + y + z <==> (a, b, c) == (x, y, z)
  {
    hide Shaped, Parse;
    ParseIff(a + b + c, a, b, c);
    ParseIff(x + y + z, x, y, z);
  }

  /** A remark: words without the shape can give one slug twice. */
  lemma UnshapedWordsCollide()
    ensures "Ab" + "AbAb" + "Ab" == "AbAb" + "Ab" + "Ab" && !Shaped("Ab") && !Shaped("AbAb")
  {
    assert "AbAb"[2] == 'A';
  }

  /** Every slug of the list is recognised by the redirect exactly when every word has the shape. */
  lemma AllRecognisedIff(words: set<string>)
    ensures (forall slug :: IsSlugOf(words, slug) ==> Parse(slug).Some?) <==> forall w :: w in words ==> Shaped(w)
  {
    hide Shaped, Parse;
    if forall w :: w in words ==> Shaped(w) {
      forall slug | IsSlugOf(words, slug) ensures Parse(slug).Some? {
        var a, b, c :| a in words && b in words && c in words && slug == a + b + c;
        ParseIff(slug, a, b, c);
      }
    }
    if forall slug :: IsSlugOf(words, slug) ==> Parse(slug).Some? {
      forall w | w in words ensures Shaped(w) {
        assert IsSlugOf(words, w + w + w);
        TripledIsShaped(w);
      }
    }
  }

  lemma TripledIsShaped(w: string)
    requires Parse(w + w + w).Some?
    ensures Shaped(w)
  {
    hide Parse, Shaped;
    var s := w + w + w;
    var (a, b, c) := Parse(s).value;
    ParseIff(s, a, b, c);
    JoinLength(a, b, c);
    TripledLetters(w, s, a + b + c);
    FirstIsWord(a, b, c, a + b + c, |w|);
  }

  lemma JoinLength(a: string, b: string, c: string)
    requires Shaped(a) && Shaped(b) && Shaped(c)
    ensures |a + b + c| >= 9
  {
  }

  /** If a join of three words shows its first letter again at n and at 2n, its first word has length n. */
  lemma FirstIsWord(a: string, b: string, c: string, join: string, n: nat)
    requires Shaped(a) && Shaped(b) && Shaped(c) && join == a + b + c
    requires 0 < n && 2 * n < |join| && join[n] == join[0] && join[2 * n] == join[0]
    ensures n == |a| && join[..n] == a
  {
    assert join[0] == a[0];
    Capitals(a, b, c, n);
    Capitals(a, b, c, 2 * n);
  }

  lemma TripledLetters(w: string, s: string, join: string)
    requires s == w + w + w && (s == join || s == join + "\n") && |join| >= 9
    ensures 0 < |w| && 2 * |w| < |join| && join[|w|] == join[0] && join[2 * |w|] == join[0] && join[..|w|] == w
  {
    assert |s| == 3 * |w|;
    assert join == s[..|join|];
    assert s[0] == w[0] && s[|w|] == w[0] && s[2 * |w|] == w[0] && s[..|w|] == w;
  }

  /** In a join of three words only their first letters are capitals. */
  lemma Capitals(a: string, b: string, c: string, i: nat)
    requires Shaped(a) && Shaped(b) && Shaped(c)
    ensures i < |a + b + c| && IsUpper((a + b + c)[i]) ==> i == 0 || i == |a| || i == |a| + |b|
  {
  }

  // ---------------------------------------------------------------------------
  // How many slugs there are
  // ---------------------------------------------------------------------------

  ghost function Joins(heads: set<string>, tails: set<string>): set<string> {
    set a, b | a in heads && b in tails :: a + b
  }

  ghost predicate JoinsApart(heads: set<string>, tails: set<string>) {
    forall a, b, x, y :: a in heads && x in heads && b in tails && y in tails && a + b == x + y ==> a == x && b == y
  }

  lemma {:induction false} CountOneHead(a: string, tails: set<string>)
    ensures |Joins({a}, tails)| == |tails|
  {
    if tails == {} {
      assert Joins({a}, tails) == {};
    } else {
      var b :| b in tails;
      CountOneHead(a, tails - {b});
      forall y | y in tails && a + y == a + b ensures y == b { assert (a + y)[|a|..] == y && (a + b)[|a|..] == b; }
      assert Joins({a}, tails) == Joins({a}, tails - {b}) + {a + b};
      assert a + b !in Joins({a}, tails - {b});
    }
  }

  lemma JoinsSplit(heads: set<string>, tails: set<string>, a: string)
    requires JoinsApart(heads, tails) && a in heads
    ensures Joins(heads, tails) == Joins(heads - {a}, tails) + Joins({a}, tails)
    ensures Joins(heads - {a}, tails) !! Joins({a}, tails)
    ensures JoinsApart(heads - {a}, tails)
  {
  }

  lemma {:induction false} CountJoins(heads: set<string>, tails: set<string>)
    requires JoinsApart(heads, tails)
    ensures |Joins(heads, tails)| == Times(|heads|, |tails|)
  {
    hide Joins, JoinsApart, Times;
    if heads == {} {
      NoJoins(tails);
    } else {
      var a :| a in heads;
      var others := heads - {a};
      JoinsSplit(heads, tails, a);
      CountJoins(others, tails);
      CountOneHead(a, tails);
      SumOfSizes(Joins(others, tails), Joins({a}, tails));
      OneMore(heads, a);
      OneMoreHead(|others|, |tails|);
    }
  }

  lemma NoJoins(tails: set<string>)
    ensures Joins({}, tails) == {} && Times(0, |tails|) == 0
  {
  }

  lemma OneMore(s: set<string>, x: string)
    requires x in s
    ensures |s| == |s - {x}| + 1
  {
  }

  lemma SumOfSizes(a: set<string>, b: set<string>)
    requires a !! b
    ensures |a + b| == |a| + |b|
  {
  }

  function Times(n: nat, m: nat): int { n * m }

  lemma OneMoreHead(n: nat, m: nat)
    ensures Times(n + 1, m) == Times(n, m) + m
  {
  }

  ghost function SlugsOf(words: set<string>): set<string> { Joins(Joins(words, words), words) }

  lemma SetKeyspace(words: set<string>)
    requires forall w :: w in words ==> Shaped(w)
    ensures |SlugsOf(words)| == |words| * |words| * |words|
  {
    hide Shaped;
    forall a, b, x, y | a in words && b in words && x in words && y in words && a + b == x + y
      ensures a == x && b == y
    {
      assert a + b + a == x + y + a;
      JoinIsInjective(a, b, a, x, y, a);
    }
    assert JoinsApart(words, words);
    CountJoins(words, words);
    var pairs := Joins(words, words);
    forall p, c, q, z | p in pairs && q in pairs && c in words && z in words && p + c == q + z
      ensures p == q && c == z
    {
      var a, b :| a in words && b in words && p == a + b;
      var x, y :| x in words && y in words && q == x + y;
      JoinIsInjective(a, b, c, x, y, z);
    }
    assert JoinsApart(pairs, words);
    CountJoins(pairs, words);
  }

  /** A list has as many words as its set exactly when it repeats none. */
  lemma {:induction false} SetOfList(list: seq<string>)
    ensures |set w | w in list| <= |list|
    ensures |set w | w in list| == |list| <==> NoneRepeated(list)
  {
    if list != [] {
      var rest := list[1..];
      SetOfList(rest);
      assert (set w | w in list) == (set w | w in rest) + {list[0]};
      assert forall i :: 0 <= i < |rest| ==> rest[i] == list[i + 1];
      if list[0] in rest {
        var i :| 0 <= i < |rest| && rest[i] == list[0];
        assert list[i + 1] == list[0];
        assert (set w | w in list) == (set w | w in rest);
      }
    }
  }

  predicate NoneRepeated(list: seq<string>) { forall i, j :: 0 <= i < j < |list| ==> list[i] != list[j] }

  lemma Cubes(n: nat, m: nat)
    requires n <= m
    ensures n * n * n == m * m * m <==> n == m
  {
    if n < m {
      assert n * n <= m * m;
      assert n * n * n <= m * m * n < m * m * m;
    }
  }

  /** The slugs of a list of shaped words number the cube of its length exactly when no word is listed twice. */
  lemma Keyspace(list: seq<string>)
    requires forall w :: w in list ==> Shaped(w)
    ensures var words := set w | w in list;
      && (forall slug :: slug in SlugsOf(words) <==> IsSlugOf(words, slug))
      && (|SlugsOf(words)| == |list| * |list| * |list| <==> NoneRepeated(list))
  {
    hide Shaped, NoneRepeated;
    var words := set w | w in list;
    SetKeyspace(words);
    SetOfList(list);
    Cubes(|words|, |list|);
    SlugsListed(words);
  }

  lemma SlugsListed(words: set<string>)
    ensures forall slug :: slug in SlugsOf(words) <==> IsSlugOf(words, slug)
  {
  }

  // ---------------------------------------------------------------------------
  // Inserting and redirecting
  // ---------------------------------------------------------------------------

  datatype Share = Share(token: string, active: bool, expiresAt: Option<int>)
  datatype ShareLink = ShareLink(id: string, slug: string, shareId: string, createdBy: string, expiresAt: int,
                                 shareKey: Option<string>)
  datatype InviteLink = InviteLink(id: string, slug: string, inviteId: string, token: string, expiresAt: int)

  datatype Outcome = Inserted(slug: string) | Exhausted | ForeignKeyMissing

  /** Neither the primary key nor the slug is taken. */
  predicate FreeFor(ids: seq<string>, slugs: seq<string>, id: string, slug: string) { id !in ids && slug !in slugs }

  function LinkIds(links: seq<ShareLink>): (r: seq<string>)
    ensures |r| == |links| && forall i :: 0 <= i < |links| ==> r[i] == links[i].id
  {
    seq(|links|, i requires 0 <= i < |links| => links[i].id)
  }

  function LinkSlugs(links: seq<ShareLink>): (r: seq<string>)
    ensures |r| == |links| && forall i :: 0 <= i < |links| ==> r[i] == links[i].slug
  {
    seq(|links|, i requires 0 <= i < |links| => links[i].slug)
  }

  function InviteIds(links: seq<InviteLink>): (r: seq<string>)
    ensures |r| == |links| && forall i :: 0 <= i < |links| ==> r[i] == links[i].id
  {
    seq(|links|, i requires 0 <= i < |links| => links[i].id)
  }

  function InviteSlugs(links: seq<InviteLink>): (r: seq<string>)
    ensures |r| == |links| && forall i :: 0 <= i < |links| ==> r[i] == links[i].slug
  {
    seq(|links|, i requires 0 <= i < |links| => links[i].slug)
  }

  /** What the unique constraints of both tables keep. */
  predicate Unique(links: seq<ShareLink>, invites: seq<InviteLink>) {
    && (forall i, j :: 0 <= i < j < |links| ==> links[i].id != links[j].id && links[i].slug != links[j].slug)
    && (forall i, j :: 0 <= i < j < |invites| ==> invites[i].id != invites[j].id && invites[i].slug != invites[j].slug)
  }

  class ShortLinks {
    var links: seq<ShareLink>
    var invites: seq<InviteLink>
    var shares: map<string, Share>
    var pending: set<string>   // ids of the invites there are

    /** One generated slug for each attempt; the first free one is taken. */
    method InsertShortLink(id: string, shareId: string, createdBy: string, expiresAt: int, shareKey: Option<string>,
                           generated: seq<string>)
      returns (outcome: Outcome)
      requires Unique(links, invites)
      modifies `links
      ensures Unique(links, invites)
      ensures outcome.Exhausted? <==>
        forall k :: 0 <= k < |generated| ==> !FreeFor(old(LinkIds(links)), old(LinkSlugs(links)), id, generated[k])
      ensures outcome.ForeignKeyMissing? ==> shareId !in shares
      ensures outcome.Inserted? ==> shareId in shares && id !in old(LinkIds(links)) && exists k ::
        && 0 <= k < |generated| && generated[k] == outcome.slug
        && outcome.slug !in old(LinkSlugs(links)) && forall j :: 0 <= j < k ==> generated[j] in old(LinkSlugs(links))
      ensures links == if outcome.Inserted? then
        old(links) + [ShareLink(id, outcome.slug, shareId, createdBy, expiresAt, shareKey)] else old(links)
    {
      for k := 0 to |generated|
        invariant links == old(links)
        invariant forall j :: 0 <= j < k ==> !FreeFor(LinkIds(links), LinkSlugs(links), id, generated[j])
      {
        if FreeFor(LinkIds(links), LinkSlugs(links), id, generated[k]) {
          if shareId !in shares { return ForeignKeyMissing; }
          links := links + [ShareLink(id, generated[k], shareId, createdBy, expiresAt, shareKey)];
          return Inserted(generated[k]);
        }
      }
      return Exhausted;
    }

    method InsertInviteLink(id: string, inviteId: string, token: string, expiresAt: int, generated: seq<string>)
      returns (outcome: Outcome)
      requires Unique(links, invites)
      modifies `invites
      ensures Unique(links, invites)
      ensures outcome.Exhausted? <==>
        forall k :: 0 <= k < |generated| ==>
          !FreeFor(old(InviteIds(invites)), old(InviteSlugs(invites)), id, generated[k])
      ensures outcome.ForeignKeyMissing? ==> inviteId !in pending
      ensures outcome.Inserted? ==> inviteId in pending && id !in old(InviteIds(invites)) && exists k ::
        && 0 <= k < |generated| && generated[k] == outcome.slug
        && outcome.slug !in old(InviteSlugs(invites)) && forall j :: 0 <= j < k ==>
          generated[j] in old(InviteSlugs(invites))
      ensures invites == if outcome.Inserted? then
        old(invites) + [InviteLink(id, outcome.slug, inviteId, token, expiresAt)] else old(invites)
    {
      for k := 0 to |generated|
        invariant invites == old(invites)
        invariant forall j :: 0 <= j < k ==> !FreeFor(InviteIds(invites), InviteSlugs(invites), id, generated[j])
      {
        if FreeFor(InviteIds(invites), InviteSlugs(invites), id, generated[k]) {
          if inviteId !in pending { return ForeignKeyMissing; }
          invites := invites + [InviteLink(id, generated[k], inviteId, token, expiresAt)];
          return Inserted(generated[k]);
        }
      }
      return Exhausted;
    }
  }

  datatype Page = Register(token: string) | OpenShare(token: string, key: string) | Spa

  function FindInvite(invites: seq<InviteLink>, slug: string, now: int): Option<InviteLink> {
    if invites == [] then None
    else if invites[0].slug == slug && invites[0].expiresAt > now then Some(invites[0])
    else FindInvite(invites[1..], slug, now)
  }

  predicate Opens(link: ShareLink, shares: map<string, Share>, slug: string, now: int) {
    && link.slug == slug && link.expiresAt > now && link.shareKey.Some? && link.shareId in shares
    && shares[link.shareId].active
      && (shares[link.shareId].expiresAt.Some? ==> shares[link.shareId].expiresAt.value > now)
  }

  function FindLink(links: seq<ShareLink>, shares: map<string, Share>, slug: string,
                    now: int): (link: Option<ShareLink>)
    ensures link.Some? ==> Opens(link.value, shares, slug, now)
  {
    if links == [] then None
    else if Opens(links[0], shares, slug, now) then Some(links[0])
    else FindLink(links[1..], shares, slug, now)
  }

  /** Where a slug leads: an invite, else a share, else the application's own page. */
  function Redirect(links: seq<ShareLink>, invites: seq<InviteLink>, shares: map<string, Share>, slug: string,
                    now: int): Page {
    if Parse(slug).None? then Spa
    else
      var invite := FindInvite(invites, slug, now);
      if invite.Some? then Register(invite.value.token)
      else
        var link := FindLink(links, shares, slug, now);
        if link.None? then Spa else OpenShare(shares[link.value.shareId].token, link.value.shareKey.value)
  }

  lemma {:induction false} FoundLink(links: seq<ShareLink>, shares: map<string, Share>, slug: string, now: int, i: nat)
    requires forall j, k :: 0 <= j < k < |links| ==> links[j].slug != links[k].slug
    requires i < |links| && Opens(links[i], shares, slug, now)
    ensures FindLink(links, shares, slug, now) == Some(links[i])
  {
    if i > 0 { FoundLink(links[1..], shares, slug, now, i - 1); }
  }

  lemma {:induction false} FoundInviteIs(invites: seq<InviteLink>, slug: string, now: int, i: nat)
    requires forall j, k :: 0 <= j < k < |invites| ==> invites[j].slug != invites[k].slug
    requires i < |invites| && invites[i].slug == slug && invites[i].expiresAt > now
    ensures FindInvite(invites, slug, now) == Some(invites[i])
  {
    if i > 0 { FoundInviteIs(invites[1..], slug, now, i - 1); }
  }

  /** An invite that the slug leads to: it has not expired. */
  predicate LiveInvite(invite: InviteLink, slug: string, now: int) { invite.slug == slug && invite.expiresAt > now }

  /** A share that the slug leads to: link and share have not expired, the share is active and the key was stored. */
  ghost predicate LiveShare(link: ShareLink, shares: map<string, Share>, slug: string, now: int, token: string,
                            key: string) {
    && link.slug == slug && link.expiresAt > now && link.shareKey == Some(key)
    && exists share :: Row(shares, link.shareId, share) && share.token == token && share.active
         && (share.expiresAt == None || exists end :: share.expiresAt == Some(end) && end > now)
  }

  predicate Row(shares: map<string, Share>, id: string, share: Share) { id in shares && shares[id] == share }

  lemma {:induction false} FindLinkIs(links: seq<ShareLink>, shares: map<string, Share>, slug: string, now: int)
    ensures FindLink(links, shares, slug, now).None? ==>
      forall i :: 0 <= i < |links| ==> !Opens(links[i], shares, slug, now)
    ensures FindLink(links, shares, slug, now).Some? ==> FindLink(links, shares, slug, now).value in links
  {
    if links != [] { FindLinkIs(links[1..], shares, slug, now); }
  }

  lemma OpensIff(link: ShareLink, shares: map<string, Share>, slug: string, now: int)
    ensures forall token, key :: LiveShare(link, shares, slug, now, token, key) <==>
      Opens(link, shares, slug, now) && shares[link.shareId].token == token && link.shareKey == Some(key)
  {
    if link.shareId in shares { assert Row(shares, link.shareId, shares[link.shareId]); }
  }

  /**
   Where a slug leads, in terms of the stored rows: to a live invite's registration; else to a live share under its
   token and key; and to the application's own page exactly when the slug has not the pattern or there is neither.
   */
  lemma RedirectIff(links: seq<ShareLink>, invites: seq<InviteLink>, shares: map<string, Share>, slug: string,
                    now: int, token: string, key: string)
    requires Unique(links, invites)
    ensures Redirect(links, invites, shares, slug, now) == Register(token) <==>
      && Parse(slug).Some?
      && exists i :: 0 <= i < |invites| && LiveInvite(invites[i], slug, now) && invites[i].token == token
    ensures Redirect(links, invites, shares, slug, now) == OpenShare(token, key) <==>
      && Parse(slug).Some? && (forall i :: 0 <= i < |invites| ==> !LiveInvite(invites[i], slug, now))
      && exists i :: 0 <= i < |links| && LiveShare(links[i], shares, slug, now, token, key)
    ensures Redirect(links, invites, shares, slug, now) == Spa <==>
      || Parse(slug).None?
      || ((forall i :: 0 <= i < |invites| ==> !LiveInvite(invites[i], slug, now))
          && forall i, t, k :: 0 <= i < |links| ==> !LiveShare(links[i], shares, slug, now, t, k))
  {
    hide Parse, LiveShare;
    FoundInvite(invites, slug, now);
    forall i | 0 <= i < |invites| && LiveInvite(invites[i], slug, now)
      ensures FindInvite(invites, slug, now) == Some(invites[i])
    {
      FoundInviteIs(invites, slug, now, i);
    }
    FindLinkIs(links, shares, slug, now);
    LinkLeads(links, shares, slug, now);
    var found := FindLink(links, shares, slug, now);
    if found.Some? {
      var i :| 0 <= i < |links| && links[i] == found.value;
      var t, k := shares[links[i].shareId].token, links[i].shareKey.value;
      assert LiveShare(links[i], shares, slug, now, t, k);
    }
  }

  /** The link found, and only that, is the live one. */
  lemma LinkLeads(links: seq<ShareLink>, shares: map<string, Share>, slug: string, now: int)
    requires forall j, k :: 0 <= j < k < |links| ==> links[j].slug != links[k].slug
    ensures var found := FindLink(links, shares, slug, now);
      forall i, t, k :: 0 <= i < |links| ==>
        (LiveShare(links[i], shares, slug, now, t, k) <==>
          found == Some(links[i]) && shares[links[i].shareId].token == t && links[i].shareKey == Some(k))
  {
    hide LiveShare;
    forall i | 0 <= i < |links|
      ensures Opens(links[i], shares, slug, now) <==> FindLink(links, shares, slug, now) == Some(links[i])
    {
      if Opens(links[i], shares, slug, now) { FoundLink(links, shares, slug, now, i); }
    }
    forall i | 0 <= i < |links|
      ensures forall t, k :: LiveShare(links[i], shares, slug, now, t, k) <==>
        Opens(links[i], shares, slug, now) && shares[links[i].shareId].token == t && links[i].shareKey == Some(k)
    {
      OpensIff(links[i], shares, slug, now);
    }
  }

  lemma {:induction false} FoundInvite(invites: seq<InviteLink>, slug: string, now: int)
    ensures FindInvite(invites, slug, now).Some? <==>
      exists i :: 0 <= i < |invites| && invites[i].slug == slug && invites[i].expiresAt > now
  {
    if invites != [] { FoundInvite(invites[1..], slug, now); }
  }

  /**
   A stored share link that may be opened leads to its share exactly when its slug has the pattern and no live invite
   carries the same slug: the two tables do not keep slugs apart from each other.
   */
  lemma LinkOpensIff(links: seq<ShareLink>, invites: seq<InviteLink>, shares: map<string, Share>, i: nat, now: int)
    requires Unique(links, invites) && i < |links| && Opens(links[i], shares, links[i].slug, now)
    ensures var share := OpenShare(shares[links[i].shareId].token, links[i].shareKey.value);
      Redirect(links, invites, shares, links[i].slug, now) == share <==>
      && Parse(links[i].slug).Some?
      && !exists j :: 0 <= j < |invites| && invites[j].slug == links[i].slug && invites[j].expiresAt > now
  {
    hide Parse;
    FoundLink(links, shares, links[i].slug, now, i);
    FoundInvite(invites, links[i].slug, now);
  }

  /** The slug is a join of three shaped words, as every generated one is. */
  ghost predicate IsJoin(slug: string) { exists a, b, c :: Shaped(a) && Shaped(b) && Shaped(c) && slug == a + b + c }

  /** A live invite of the same slug hides a share link that could otherwise be opened, for every slug there is. */
  lemma InviteHidesLink(slug: string)
    requires IsJoin(slug)
    ensures var shares := map["s" := Share("t", true, None)];
      var links, invites := [ShareLink("1", slug, "s", "u", 9, Some("k"))], [InviteLink("2", slug, "i", "r", 9)];
      && Unique(links, invites) && Opens(links[0], shares, slug, 5)
      && Redirect(links, [], shares, slug, 5) == OpenShare("t", "k")
      && Redirect(links, invites, shares, slug, 5) == Register("r")
  {
    JoinAccepted(slug);
    hide Parse, IsJoin;
  }

  lemma JoinAccepted(slug: string)
    requires IsJoin(slug)
    ensures Parse(slug).Some? && Parse(slug + "\n").Some?
  {
    hide Parse, Shaped;
    var a, b, c :| Shaped(a) && Shaped(b) && Shaped(c) && slug == a + b + c;
    ParseIff(slug, a, b, c);
    ParseIff(slug + "\n", a, b, c);
  }

  lemma JoinEndsSmall(slug: string)
    requires IsJoin(slug)
    ensures slug != "" && IsLower(slug[|slug| - 1])
  {
    var a, b, c :| Shaped(a) && Shaped(b) && Shaped(c) && slug == a + b + c;
    assert slug[|slug| - 1] == c[|c| - 1];
  }

  /**
   The pattern also accepts a line break after a slug, but no stored slug has one: as long as the tables hold joins of
   shaped words, such a request leads to the application's own page.
   */
  lemma LineBreakLeadsNowhere(links: seq<ShareLink>, invites: seq<InviteLink>, shares: map<string, Share>,
                              slug: string, now: int)
    requires forall i :: 0 <= i < |links| ==> IsJoin(links[i].slug)
    requires forall i :: 0 <= i < |invites| ==> IsJoin(invites[i].slug)
    ensures IsJoin(slug) ==> Parse(slug + "\n").Some?
    ensures Redirect(links, invites, shares, slug + "\n", now) == Spa
  {
    hide IsJoin, Parse;
    var asked := slug + "\n";
    assert asked[|asked| - 1] == '\n';
    forall i | 0 <= i < |links| ensures links[i].slug != asked { JoinEndsSmall(links[i].slug); }
    forall i | 0 <= i < |invites| ensures invites[i].slug != asked { JoinEndsSmall(invites[i].slug); }
    FoundInvite(invites, asked, now);
    NoLink(links, shares, asked, now);
    if IsJoin(slug) { JoinAccepted(slug); }
  }

  lemma {:induction false} NoLink(links: seq<ShareLink>, shares: map<string, Share>, slug: string, now: int)
    requires forall i :: 0 <= i < |links| ==> links[i].slug != slug
    ensures FindLink(links, shares, slug, now) == None
  {
    if links != [] { NoLink(links[1..], shares, slug, now); }
  }
}
