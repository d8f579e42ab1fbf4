/**
 The step-up token cache of frontend/js/auth.js: a token is kept per action key for nine tenths of its sudo window.
 Times are in milliseconds, windows in seconds.
 */
module StepUpCache {
  import opened Options

  datatype Entry = Entry(token: string, expiresAt: int)
  type Tokens = map<string, Entry>

  /** The window assumed for a user record that does not say. */
  const DEFAULT_WINDOW := 300

  function Lookup(tokens: Tokens, action: string, now: int): Option<string> {
    if action in tokens && now < tokens[action].expiresAt then Some(tokens[action].token) else None
  }

  function Expire(tokens: Tokens, action: string, now: int): Tokens {
    if action in tokens && now >= tokens[action].expiresAt then tokens - {action} else tokens
  }

  function Remember(tokens: Tokens, action: string, token: string, window: int, now: int): Tokens {
    if window > 0 then tokens[action := Entry(token, now + window * 900)] else tokens
  }

  class TokenCache {
    var tokens: Tokens

    constructor ()
      ensures tokens == map[]
    {
      tokens := map[];
    }

    method GetCached(action: string, now: int) returns (token: Option<string>)
      modifies this
      ensures token == Lookup(old(tokens), action, now)
      ensures tokens == Expire(old(tokens), action, now)
    {
      if action !in tokens { return None; }
      if now >= tokens[action].expiresAt {
        tokens := tokens - {action};
        return None;
      }
      token := Some(tokens[action].token);
    }

    method Cache(action: string, token: string, window: int, now: int)
      modifies this
      ensures tokens == Remember(old(tokens), action, token, window, now)
    {
      if window > 0 {
        tokens := tokens[action := Entry(token, now + window * 900)];
      }
    }
  }

  // ---------------------------------------------------------------------------
  // Where a token came from
  // ---------------------------------------------------------------------------

  /** The server's record: a token it issued for an action, and when the client received it. */
  datatype Issue = Issue(action: string, token: string, window: int, at: int)

  /** Less than nine tenths of the window have passed, at time t, since the token was received. */
  predicate InNineTenths(issue: Issue, t: int) { 10 * (t - issue.at) < 9 * (1000 * issue.window) }

  ghost predicate Backs(issue: Issue, action: string, entry: Entry) {
    && issue.action == action && issue.token == entry.token && issue.window > 0
    && forall t {:trigger InNineTenths(issue, t)} :: InNineTenths(issue, t) <==> t < entry.expiresAt
  }

  /** The last issue for this action that had a window: the one a cache is to remember. */
  function Latest(issued: seq<Issue>, action: string): Option<Issue> {
    if issued == [] then None
    else
      var last := issued[|issued| - 1];
      if last.action == action && last.window > 0 then Some(last) else Latest(issued[..|issued| - 1], action)
  }

  /** Every kept token is the latest issued for the very key it is kept under, and expires in time. */
  ghost predicate Backed(tokens: Tokens, issued: seq<Issue>) {
    forall action :: action in tokens ==>
      Latest(issued, action).Some? && Backs(Latest(issued, action).value, action, tokens[action])
  }

  /** And a latest token that is not kept is out of time. */
  ghost predicate NoneForgotten(tokens: Tokens, issued: seq<Issue>, now: int) {
    forall action :: Latest(issued, action).Some? && InNineTenths(Latest(issued, action).value, now) ==>
      action in tokens
  }

  lemma LatestMore(issued: seq<Issue>, issue: Issue, action: string)
    ensures Latest(issued + [issue], action) ==
      if issue.action == action && issue.window > 0 then Some(issue) else Latest(issued, action)
  {
    assert (issued + [issue])[..|issued|] == issued;
  }

  lemma {:induction false} LatestIsIssued(issued: seq<Issue>, action: string)
    ensures Latest(issued, action).Some? ==>
      Latest(issued, action).value in issued && Latest(issued, action).value.action == action
      && Latest(issued, action).value.window > 0
  {
    if issued != [] { LatestIsIssued(issued[..|issued| - 1], action); }
  }

  /** The issue at k is the last one for this action that has a window. */
  predicate LastAt(issued: seq<Issue>, action: string, k: nat) {
    && k < |issued| && issued[k].action == action && issued[k].window > 0
    && forall j :: k < j < |issued| && issued[j].action == action ==> issued[j].window <= 0
  }

  lemma {:induction false} LatestIff(issued: seq<Issue>, action: string, issue: Issue)
    ensures Latest(issued, action) == Some(issue) <==> exists k: nat :: LastAt(issued, action, k) && issued[k] == issue
  {
    if issued != [] {
      var n := |issued| - 1;
      var front := issued[..n];
      LatestIff(front, action, issue);
      if issued[n].action == action && issued[n].window > 0 {
        assert LastAt(issued, action, n);
      } else {
        forall k: nat ensures LastAt(issued, action, k) <==> LastAt(front, action, k) {
          assert forall j :: 0 <= j < n ==> front[j] == issued[j];
        }
      }
    }
  }

  lemma RememberKeepsBacked(tokens: Tokens, issued: seq<Issue>, issue: Issue)
    requires Backed(tokens, issued) && NoneForgotten(tokens, issued, issue.at)
    ensures var tokens' := Remember(tokens, issue.action, issue.token, issue.window, issue.at);
      Backed(tokens', issued + [issue]) && NoneForgotten(tokens', issued + [issue], issue.at)
  {
    hide Latest;
    forall action ensures Latest(issued + [issue], action) ==
      if issue.action == action && issue.window > 0 then Some(issue) else Latest(issued, action)
    {
      LatestMore(issued, issue, action);
    }
    var tokens' := Remember(tokens, issue.action, issue.token, issue.window, issue.at);
    if issue.window > 0 { assert Backs(issue, issue.action, tokens'[issue.action]); }
  }

  lemma ExpireKeepsBacked(tokens: Tokens, issued: seq<Issue>, action: string, now: int)
    requires Backed(tokens, issued) && NoneForgotten(tokens, issued, now)
    ensures Backed(Expire(tokens, action, now), issued) && NoneForgotten(Expire(tokens, action, now), issued, now)
  {
    hide Latest;
    if action in tokens { assert Backs(Latest(issued, action).value, action, tokens[action]); }
  }

  lemma TimeKeepsNoneForgotten(tokens: Tokens, issued: seq<Issue>, now: int, later: int)
    requires NoneForgotten(tokens, issued, now) && now <= later
    ensures NoneForgotten(tokens, issued, later)
  {
    hide Latest;
    forall issue | InNineTenths(issue, later) ensures InNineTenths(issue, now) {}
  }

  /**
   A token is found exactly when it is the last that was issued with a window for the key asked for, and less than nine
   tenths of that window have passed.
   */
  lemma FoundIff(tokens: Tokens, issued: seq<Issue>, action: string, now: int, token: string)
    requires Backed(tokens, issued) && NoneForgotten(tokens, issued, now)
    ensures Lookup(tokens, action, now) == Some(token) <==>
      exists k: nat :: LastAt(issued, action, k) && issued[k].token == token && InNineTenths(issued[k], now)
  {
    hide Latest;
    forall issue ensures Latest(issued, action) == Some(issue) <==>
      exists k: nat :: LastAt(issued, action, k) && issued[k] == issue
    {
      LatestIff(issued, action, issue);
    }
    FoundIsLatest(tokens, issued, action, now);
    var latest := Latest(issued, action);
    if k: nat :| LastAt(issued, action, k) && issued[k].token == token && InNineTenths(issued[k], now) {
      assert latest == Some(issued[k]);
    }
    if Lookup(tokens, action, now) == Some(token) {
      var k: nat :| LastAt(issued, action, k) && issued[k] == latest.value;
    }
  }

  lemma FoundIsLatest(tokens: Tokens, issued: seq<Issue>, action: string, now: int)
    requires Backed(tokens, issued) && NoneForgotten(tokens, issued, now)
    ensures Lookup(tokens, action, now) ==
      if Latest(issued, action).Some? && InNineTenths(Latest(issued, action).value, now)
      then Some(Latest(issued, action).value.token) else None
  {
    hide Latest;
    if action in tokens { assert InNineTenths(Latest(issued, action).value, now) <==> now < tokens[action].expiresAt; }
  }
}
