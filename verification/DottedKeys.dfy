/**
 The lookup rule of backend/app/sensitive_config.py over dotted keys: an exact entry, else the wildcard entry for the
 longest prefix of segments, else a default.  It is computed on split segments and specified on the key itself.
 */
module DottedKeys {
  import opened Options

  datatype Entry = Entry(isSensitive: bool, challengeType: string)
  type Config = map<string, Entry>

  // ---------------------------------------------------------------------------
  // Segments
  // ---------------------------------------------------------------------------

  function Split(key: string): (parts: seq<string>)
    ensures |parts| > 0
  {
    if key == [] then [""]
    else
      var rest := Split(key[1..]);
      if key[0] == '.' then [""] + rest else [[key[0]] + rest[0]] + rest[1..]
  }

  function Join(parts: seq<string>): string
    requires parts != []
  {
    if |parts| == 1 then parts[0] else parts[0] + "." + Join(parts[1..])
  }

  /** Where the first i segments of the key end. */
  function Cut(key: string, i: nat): nat
    requires 1 <= i <= |Split(key)|
  {
    |Join(Split(key)[..i])|
  }

  lemma JoinGrows(c: char, parts: seq<string>)
    requires parts != []
    ensures Join([[c] + parts[0]] + parts[1..]) == [c] + Join(parts)
  {
    var grown := [[c] + parts[0]] + parts[1..];
    assert grown[1..] == parts[1..];
    if |parts| > 1 { assert [c] + parts[0] + "." + Join(parts[1..]) == [c] + (parts[0] + "." + Join(parts[1..])); }
  }

  /** The first i segments joined are a prefix of the key, which ends there or goes on with a dot. */
  lemma {:induction false} JoinedIsPrefix(key: string, i: nat)
    requires 1 <= i <= |Split(key)|
    ensures Cut(key, i) <= |key| && Join(Split(key)[..i]) == key[..Cut(key, i)]
    ensures if i == |Split(key)| then Cut(key, i) == |key| else Cut(key, i) < |key| && key[Cut(key, i)] == '.'
  {
    if key != [] {
      var parts, rest := Split(key), Split(key[1..]);
      if key[0] == '.' {
        if i > 1 {
          JoinedIsPrefix(key[1..], i - 1);
          assert parts[..i][1..] == rest[..i - 1];
          assert Join(parts[..i]) == "." + Join(rest[..i - 1]);
        } else {
          assert parts[..i] == [""];
        }
      } else {
        JoinedIsPrefix(key[1..], i);
        assert parts[..i] == [[key[0]] + rest[..i][0]] + rest[..i][1..];
        JoinGrows(key[0], rest[..i]);
      }
    }
  }

  lemma EmptyFirstSegment(key: string)
    requires key != [] && key[0] == '.'
    ensures Cut(key, 1) == 0
  {
    assert Split(key)[..1] == [""];
  }

  /** Between the ends of two segments next to each other there is no dot. */
  lemma {:induction false} NoDotBetween(key: string, i: nat, k: nat)
    requires 1 <= i <= |Split(key)| && k < Cut(key, i) && (i > 1 ==> Cut(key, i - 1) < k)
    ensures k < |key| && key[k] != '.'
  {
    JoinedIsPrefix(key, i);
    if key != [] {
      var parts, rest := Split(key), Split(key[1..]);
      if key[0] == '.' {
        EmptyFirstSegment(key);
        if i > 1 {
          assert parts[..i][1..] == rest[..i - 1] && Join(parts[..i]) == "." + Join(rest[..i - 1]);
          if i > 2 { assert parts[..i - 1][1..] == rest[..i - 2] && Join(parts[..i - 1]) == "." + Join(rest[..i - 2]); }
          assert Cut(key, i) == 1 + Cut(key[1..], i - 1);
          NoDotBetween(key[1..], i - 1, k - 1);
        }
      } else if k > 0 {
        assert parts[..i] == [[key[0]] + rest[..i][0]] + rest[..i][1..];
        JoinGrows(key[0], rest[..i]);
        if i > 1 {
          assert parts[..i - 1] == [[key[0]] + rest[..i - 1][0]] + rest[..i - 1][1..];
          JoinGrows(key[0], rest[..i - 1]);
        }
        NoDotBetween(key[1..], i, k - 1);
      }
    }
  }

  // ---------------------------------------------------------------------------
  // The rule
  // ---------------------------------------------------------------------------

  /** The key has a dot at k, and what is before it has a wildcard entry. */
  predicate Covers(config: Config, key: string, k: nat) { k < |key| && key[k] == '.' && key[..k] + ".*" in config }

  /** The last such dot before n. */
  function LastCover(config: Config, key: string, n: nat): (k: Option<nat>)
    ensures k.Some? ==> k.value < n && Covers(config, key, k.value)
    ensures forall j: nat :: j < n && Covers(config, key, j) ==> k.Some? && j <= k.value
  {
    if n == 0 then None
    else if Covers(config, key, n - 1) then Some(n - 1) else LastCover(config, key, n - 1)
  }

  function Resolve(config: Config, key: string): Option<Entry> {
    if key in config then Some(config[key])
    else
      var k := LastCover(config, key, |key|);
      if k.Some? then Some(config[key[..k.value] + ".*"]) else None
  }

  lemma LastCoverSkips(config: Config, key: string, m: nat, n: nat)
    requires m <= n && forall k: nat :: m <= k < n ==> !Covers(config, key, k)
    ensures LastCover(config, key, n) == LastCover(config, key, m)
  {
    if m < n { LastCoverSkips(config, key, m, n - 1); }
  }

  lemma {:induction false} JoinMore(parts: seq<string>, i: nat)
    requires 1 <= i < |parts|
    ensures Join(parts[..i + 1]) == Join(parts[..i]) + "." + parts[i]
  {
    assert parts[..i + 1][1..] == parts[1..][..i];
    if i > 1 {
      JoinMore(parts[1..], i - 1);
      assert parts[..i][1..] == parts[1..][..i - 1];
    }
  }

  /** What is left to search once the prefixes of more than i segments are done. */
  function Remaining(key: string, i: nat): nat
    requires i < |Split(key)|
  {
    if i == 0 then 0 else Cut(key, i) + 1
  }

  /** Going from i segments to i - 1 skips no wildcard. */
  lemma NextShorter(config: Config, key: string, i: nat)
    requires 1 <= i <= |Split(key)|
    ensures Remaining(key, i - 1) <= Cut(key, i) <= |key|
    ensures LastCover(config, key, Cut(key, i)) == LastCover(config, key, Remaining(key, i - 1))
  {
    JoinedIsPrefix(key, i);
    if i > 1 { JoinMore(Split(key), i - 1); }
    forall k: nat | Remaining(key, i - 1) <= k < Cut(key, i)
      ensures !Covers(config, key, k)
    {
      NoDotBetween(key, i, k);
    }
    LastCoverSkips(config, key, Remaining(key, i - 1), Cut(key, i));
  }

  /** The prefix of i segments has a wildcard entry exactly when it is the last cover of what remains. */
  lemma TakenIff(config: Config, key: string, i: nat)
    requires 1 <= i < |Split(key)|
    ensures Cut(key, i) < |key|
    ensures Covers(config, key, Cut(key, i)) <==> Join(Split(key)[..i]) + ".*" in config
    ensures Join(Split(key)[..i]) == key[..Cut(key, i)]
    ensures LastCover(config, key, Remaining(key, i)) ==
      if Covers(config, key, Cut(key, i)) then Some(Cut(key, i)) else LastCover(config, key, Cut(key, i))
  {
    JoinedIsPrefix(key, i);
  }

  lemma WholeKey(key: string)
    ensures Cut(key, |Split(key)|) == |key|
  {
    JoinedIsPrefix(key, |Split(key)|);
  }

  lemma NothingLeft(config: Config, key: string)
    ensures LastCover(config, key, Remaining(key, 0)) == None
  {
  }

  /** P.* is a wildcard entry that matches the key. */
  predicate Matches(config: Config, key: string, p: string) { p + "." <= key && p + ".*" in config }

  lemma MatchIsCover(config: Config, key: string, p: string)
    ensures Matches(config, key, p) <==> Covers(config, key, |p|) && key[..|p|] == p
  {
    if Matches(config, key, p) {
      assert key[|p|] == (p + ".")[|p|] && key[..|p|] == (p + ".")[..|p|];
    }
  }

  /**
   The rule in words: an exact key wins; otherwise the entry P.* with the longest P such that the key starts with P
   and a dot; and nothing is found only if there is no such P.
   */
  lemma LongestWildcardWins(config: Config, key: string, p: string)
    ensures key in config ==> Resolve(config, key) == Some(config[key])
    ensures key !in config && Matches(config, key, p) && (forall q :: Matches(config, key, q) ==> |q| <= |p|) ==>
      Resolve(config, key) == Some(config[p + ".*"])
    ensures key !in config && Resolve(config, key).None? ==> !Matches(config, key, p)
    ensures key !in config && Resolve(config, key).Some? ==> exists q :: Matches(config, key, q)
  {
    hide Matches, Covers;
    MatchIsCover(config, key, p);
    var k := LastCover(config, key, |key|);
    if k.Some? { CoverIsMatch(config, key, k.value); }
    if Matches(config, key, p) { CoverInside(config, key, |p|); }
  }

  /** P.* is the most specific wildcard entry that matches the key. */
  ghost predicate LongestMatch(config: Config, key: string, p: string) {
    Matches(config, key, p) && forall q :: Matches(config, key, q) ==> |q| <= |p|
  }

  /** Of the wildcard entries that match a key one is the most specific, if there are any. */
  lemma LongestMatchIsOne(config: Config, key: string)
    ensures (exists p :: Matches(config, key, p)) <==> exists p :: LongestMatch(config, key, p)
    ensures forall p, q :: LongestMatch(config, key, p) && LongestMatch(config, key, q) ==> p == q
  {
    var k := LastCover(config, key, |key|);
    forall p | Matches(config, key, p) ensures k.Some? && |p| <= k.value && p == key[..|p|] {
      MatchIsCover(config, key, p);
    }
    if k.Some? {
      CoverIsMatch(config, key, k.value);
      assert LongestMatch(config, key, key[..k.value]);
    }
  }

  /** The rule for all keys at once. */
  lemma ResolveIs(config: Config, key: string)
    ensures key in config ==> Resolve(config, key) == Some(config[key])
    ensures forall p :: key !in config && LongestMatch(config, key, p) ==>
      Resolve(config, key) == Some(config[p + ".*"])
    ensures key !in config && (forall p :: !Matches(config, key, p)) ==> Resolve(config, key) == None
  {
    forall p | key !in config && LongestMatch(config, key, p)
      ensures Resolve(config, key) == Some(config[p + ".*"])
    {
      LongestWildcardWins(config, key, p);
    }
    LongestWildcardWins(config, key, "");
  }

  lemma CoverInside(config: Config, key: string, k: nat)
    requires Covers(config, key, k)
    ensures k < |key|
  {
  }

  lemma CoverIsMatch(config: Config, key: string, k: nat)
    requires Covers(config, key, k)
    ensures k < |key| && Matches(config, key, key[..k])
  {
    MatchIsCover(config, key, key[..k]);
  }
}
