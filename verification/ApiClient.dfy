/**
 The HTTP client of frontend/js/api.js: any number of calls, cut at every await, sharing one token refresh, one
 password prompt and one cache of step-up tokens.
 */
module ApiClient {
  import opened Options
  import opened StepUpCache

  datatype Denial = NoDenial | MfaEnrollmentRequired | StepUpRequired(action: string)
  datatype Response = Response(status: nat, denial: Denial)

  /** Why a request was sent. */
  datatype Why =
    | First
    | AfterRefresh(refresh: nat)
    | AfterStepUp(token: string, cached: bool, at: int)   // whether the token came from the cache, and when

  /** One sending of a call's request, with its X-CSRF-Token header. */
  datatype Sent = Sent(csrf: Option<string>, why: Why)

  datatype Outcome =
    | Answered(response: Response)
    | SessionExpired
    | MfaEnrollment
    | Forbidden
    | StepUpFailed
    | NetworkError

  datatype Phase =
    | Sending
    | Waiting(refresh: nat)
    | Hashing                                   // step-up was asked for; the payload is being hashed
    | Prompting
    | HasToken(token: string, cached: bool, at: int)
    | Resending
    | Done(outcome: Outcome)

  /** A call; answer is the first response, waited the refresh it joined, verifying its password checks under way. */
  datatype Call = Call(path: string, writes: bool, sends: seq<Sent>, answer: Option<Response>, waited: Option<nat>,
                       verifying: nat, phase: Phase)

  datatype Refresh = Pending | Settled(ok: bool)

  /** refreshing is the shared slot; shown is the call whose prompt is on the screen. */
  datatype State = State(refreshing: Option<nat>, refreshes: seq<Refresh>, tokens: Tokens, shown: Option<nat>,
                         calls: seq<Call>)

  // ---------------------------------------------------------------------------
  // The client's steps
  // ---------------------------------------------------------------------------

  predicate Includes(path: string, part: string) {
    exists i | 0 <= i <= |path| :: part <= path[i..]
  }

  /** A 401 on these paths is not answered by a refresh. */
  predicate RefreshEligible(path: string) {
    && !Includes(path, "/auth/refresh") && !Includes(path, "/auth/login")
    && !Includes(path, "/auth/totp/") && !Includes(path, "/auth/mfa/") && !Includes(path, "/auth/webauthn/authenticate")
  }

  predicate AskedStepUp(call: Call) { call.answer.Some? && call.answer.value.denial.StepUpRequired? }

  function ActionOf(call: Call): string
    requires AskedStepUp(call)
  {
    call.answer.value.denial.action
  }

  function SetPhase(c: State, i: nat, phase: Phase): State
    requires i < |c.calls|
  {
    c.(calls := c.calls[i := c.calls[i].(phase := phase)])
  }

  function Begin(c: State, path: string, writes: bool, cookie: string): State {
    var sent := Sent(if writes then Some(cookie) else None, First);
    c.(calls := c.calls + [Call(path, writes, [sent], None, None, 0, Sending)])
  }

  /** The refresh that whoever asks now will wait for. */
  function Joined(c: State): nat { if c.refreshing.Some? then c.refreshing.value else |c.refreshes| }

  function TryRefresh(c: State): State {
    if c.refreshing.Some? then c else c.(refreshing := Some(|c.refreshes|), refreshes := c.refreshes + [Pending])
  }

  function OnRefreshSettled(c: State, r: nat, ok: bool): State
    requires r < |c.refreshes|
  {
    c.(refreshing := None, refreshes := c.refreshes[r := Settled(ok)])
  }

  function OnResponse(c: State, i: nat, response: Response): State
    requires i < |c.calls|
  {
    var call := c.calls[i];
    if call.phase.Resending? then SetPhase(c, i, Done(Answered(response)))
    else
      var heard := call.(answer := Some(response));
      if response.status == 401 && RefreshEligible(call.path) then
        TryRefresh(c).(calls := c.calls[i := heard.(waited := Some(Joined(c)), phase := Waiting(Joined(c)))])
      else if response.status == 403 && !Includes(call.path, "/auth/step-up") then
        c.(calls := c.calls[i := heard.(phase :=
             match response.denial
             case MfaEnrollmentRequired => Done(MfaEnrollment)
             case StepUpRequired(_) => Hashing
             case NoDenial => Done(Forbidden))])
      else c.(calls := c.calls[i := heard.(phase := Done(Answered(response)))])
  }

  /** The request goes out again: a CSRF header is renewed from the cookie if it was set and not empty. */
  function SendAgain(call: Call, cookie: string, why: Why): Call
    requires |call.sends| > 0
  {
    var csrf := call.sends[0].csrf;
    call.(sends := call.sends + [Sent(if csrf.Some? && csrf.value != "" then Some(cookie) else csrf, why)],
      phase := Resending)
  }

  /** A call that waited for a refresh goes on. */
  function OnResumed(c: State, i: nat, cookie: string): State
    requires i < |c.calls| && c.calls[i].phase.Waiting? && |c.calls[i].sends| > 0
    requires c.calls[i].phase.refresh < |c.refreshes| && c.refreshes[c.calls[i].phase.refresh].Settled?
  {
    var r := c.calls[i].phase.refresh;
    if c.refreshes[r].ok then c.(calls := c.calls[i := SendAgain(c.calls[i], cookie, AfterRefresh(r))])
    else SetPhase(c, i, Done(SessionExpired))
  }

  /** The payload is hashed: take a cached token, or show a prompt in the place of any other. */
  function OnHashed(c: State, i: nat, now: int): State
    requires i < |c.calls| && AskedStepUp(c.calls[i])
  {
    var action := ActionOf(c.calls[i]);
    var found := Lookup(c.tokens, action, now);
    var c' := c.(tokens := Expire(c.tokens, action, now));
    if found.Some? && found.value != "" then SetPhase(c', i, HasToken(found.value, true, now))
    else SetPhase(c'.(shown := Some(i)), i, Prompting)
  }

  function OnToken(c: State, i: nat, cookie: string): State
    requires i < |c.calls| && c.calls[i].phase.HasToken? && |c.calls[i].sends| > 0
  {
    var p := c.calls[i].phase;
    c.(calls := c.calls[i := SendAgain(c.calls[i], cookie, AfterStepUp(p.token, p.cached, p.at))])
  }

  /** The user confirms the password in the prompt of call i. */
  function OnSubmit(c: State, i: nat): State
    requires i < |c.calls|
  {
    c.(calls := c.calls[i := c.calls[i].(verifying := c.calls[i].verifying + 1)])
  }

  /** A prompt takes itself off the screen; one that was replaced is off already. */
  function Dismiss(c: State, i: nat): State { if c.shown == Some(i) then c.(shown := None) else c }

  /** The promise of call i is settled; only the first settlement counts. */
  function Settle(c: State, i: nat, phase: Phase): State
    requires i < |c.calls|
  {
    if c.calls[i].phase.Prompting? then SetPhase(c, i, phase) else c
  }

  function Checked(c: State, i: nat): State
    requires i < |c.calls| && c.calls[i].verifying > 0
  {
    c.(calls := c.calls[i := c.calls[i].(verifying := c.calls[i].verifying - 1)])
  }

  function OnVerified(c: State, i: nat, token: string, window: Option<int>, now: int): State
    requires i < |c.calls| && c.calls[i].verifying > 0 && AskedStepUp(c.calls[i])
  {
    var seconds := if window.Some? then window.value else DEFAULT_WINDOW;
    var c' := Dismiss(Checked(c, i), i);
    Settle(c'.(tokens := Remember(c.tokens, ActionOf(c.calls[i]), token, seconds, now)), i, HasToken(token, false, now))
  }

  function OnLockedOut(c: State, i: nat): State
    requires i < |c.calls| && c.calls[i].verifying > 0
  {
    Settle(Dismiss(Checked(c, i), i), i, Done(StepUpFailed))
  }

  function OnCancel(c: State, i: nat): State
    requires i < |c.calls|
  {
    Settle(Dismiss(c, i), i, Done(StepUpFailed))
  }

  /** The slot holds exactly the refreshes that are outstanding. */
  predicate SlotInv(c: State) {
    && (c.refreshing.Some? ==> c.refreshing.value < |c.refreshes|)
    && forall r :: 0 <= r < |c.refreshes| ==> (c.refreshes[r].Pending? <==> c.refreshing == Some(r))
  }

  class Client {
    var refreshing: Option<nat>
    var refreshes: seq<Refresh>
    var shown: Option<nat>
    var calls: seq<Call>
    const stepUp: TokenCache

    constructor ()
      ensures GetState() == State(None, [], map[], None, []) && fresh(stepUp)
    {
      refreshing, refreshes, shown, calls := None, [], None, [];
      stepUp := new TokenCache();
    }

    function GetState(): State
      reads this, stepUp
    {
      State(refreshing, refreshes, stepUp.tokens, shown, calls)
    }

    method Fetch(path: string, writes: bool, cookie: string) returns (i: nat)
      modifies this
      ensures i == old(|calls|) && GetState() == Begin(old(GetState()), path, writes, cookie)
    {
      var csrf := None;
      if writes { csrf := Some(cookie); }
      calls := calls + [Call(path, writes, [Sent(csrf, First)], None, None, 0, Sending)];
      i := |calls| - 1;
    }

    method RefreshTokens() returns (r: nat)
      modifies this
      ensures r == Joined(old(GetState())) && GetState() == TryRefresh(old(GetState()))
      ensures old(SlotInv(GetState())) ==> SlotInv(GetState()) && r < |refreshes| && refreshes[r].Pending?
    {
      if refreshing.Some? { return refreshing.value; }
      r := |refreshes|;
      refreshes := refreshes + [Pending];
      refreshing := Some(r);
    }

    /** Whichever refresh it is that settles, none is outstanding afterwards and the slot is free. */
    method RefreshSettled(r: nat, ok: bool)
      requires SlotInv(GetState()) && r < |refreshes| && refreshes[r].Pending?
      modifies this
      ensures GetState() == OnRefreshSettled(old(GetState()), r, ok)
      ensures SlotInv(GetState()) && refreshing.None? && refreshes[r] == Settled(ok)
      ensures forall q :: 0 <= q < |refreshes| ==>
        refreshes[q].Settled? && (q != r ==> refreshes[q] == old(refreshes)[q])
    {
      refreshes := refreshes[r := Settled(ok)];
      refreshing := None;
    }

    method Respond(i: nat, response: Response)
      requires i < |calls|
      modifies this
      ensures GetState() == OnResponse(old(GetState()), i, response)
      ensures old(calls[i].phase.Resending?) ==> calls[i].phase == Done(Answered(response))
    {
      if calls[i].phase.Resending? {
        calls := calls[i := calls[i].(phase := Done(Answered(response)))];
        return;
      }
      var heard := calls[i].(answer := Some(response));
      if response.status == 401 && RefreshEligible(heard.path) {
        var r := RefreshTokens();
        calls := calls[i := heard.(waited := Some(r), phase := Waiting(r))];
        return;
      }
      if response.status == 403 && !Includes(heard.path, "/auth/step-up") {
        match response.denial {
          case MfaEnrollmentRequired => calls := calls[i := heard.(phase := Done(MfaEnrollment))];
          case StepUpRequired(_) => calls := calls[i := heard.(phase := Hashing)];
          case NoDenial => calls := calls[i := heard.(phase := Done(Forbidden))];
        }
        return;
      }
      calls := calls[i := heard.(phase := Done(Answered(response)))];
    }

    method Resumed(i: nat, cookie: string)
      requires i < |calls| && calls[i].phase.Waiting? && |calls[i].sends| > 0
      requires calls[i].phase.refresh < |refreshes| && refreshes[calls[i].phase.refresh].Settled?
      modifies this
      ensures GetState() == OnResumed(old(GetState()), i, cookie)
    {
      var r := calls[i].phase.refresh;
      if refreshes[r].ok {
        calls := calls[i := SendAgain(calls[i], cookie, AfterRefresh(r))];
      } else {
        calls := calls[i := calls[i].(phase := Done(SessionExpired))];
      }
    }

    method Challenge(i: nat, now: int)
      requires i < |calls| && AskedStepUp(calls[i])
      modifies this, stepUp
      ensures GetState() == OnHashed(old(GetState()), i, now)
    {
      var found := stepUp.GetCached(ActionOf(calls[i]), now);
      if found.Some? && found.value != "" {
        calls := calls[i := calls[i].(phase := HasToken(found.value, true, now))];
      } else {
        shown := Some(i);
        calls := calls[i := calls[i].(phase := Prompting)];
      }
    }

    method Verified(i: nat, token: string, window: Option<int>, now: int)
      requires i < |calls| && calls[i].verifying > 0 && AskedStepUp(calls[i])
      modifies this, stepUp
      ensures GetState() == OnVerified(old(GetState()), i, token, window, now)
    {
      calls := calls[i := calls[i].(verifying := calls[i].verifying - 1)];
      stepUp.Cache(ActionOf(calls[i]), token, if window.Some? then window.value else DEFAULT_WINDOW, now);
      if shown == Some(i) { shown := None; }
      if calls[i].phase.Prompting? {
        calls := calls[i := calls[i].(phase := HasToken(token, false, now))];
      }
    }

    method LockedOut(i: nat)
      requires i < |calls| && calls[i].verifying > 0
      modifies this
      ensures GetState() == OnLockedOut(old(GetState()), i)
    {
      calls := calls[i := calls[i].(verifying := calls[i].verifying - 1)];
      if shown == Some(i) { shown := None; }
      if calls[i].phase.Prompting? { calls := calls[i := calls[i].(phase := Done(StepUpFailed))]; }
    }

    method Cancel(i: nat)
      requires i < |calls|
      modifies this
      ensures GetState() == OnCancel(old(GetState()), i)
    {
      if shown == Some(i) { shown := None; }
      if calls[i].phase.Prompting? { calls := calls[i := calls[i].(phase := Done(StepUpFailed))]; }
    }
  }

  // ---------------------------------------------------------------------------
  // Interleavings
  // ---------------------------------------------------------------------------

  /** The client, the clock, the CSRF cookie, the step-up tokens issued so far, and each call's responses so far. */
  datatype World = World(state: State, now: int, cookie: string, issued: seq<Issue>, heard: seq<seq<Response>>)

  datatype Step =
    | Start(path: string, writes: bool)
    | AskRefresh                               // another part of the program asks for a refresh
    | Tick(elapsed: nat)
    | SetCookie(cookie: string)
    | SettleRefresh(refresh: nat, ok: bool)
    | Receive(call: nat, response: Response)
    | Fail(call: nat)                          // the request itself fails
    | Resume(call: nat)
    | LookUp(call: nat)
    | Resend(call: nat)
    | Submit(call: nat)
    | Verify(call: nat, token: string, window: Option<int>)
    | Refuse(call: nat)                        // a wrong password, or any error while checking it
    | LockOut(call: nat)
    | Cancel(call: nat)

  predicate InFlight(phase: Phase) { phase.Sending? || phase.Resending? }

  predicate Enabled(w: World, s: Step) {
    var c := w.state;
    match s
    case SettleRefresh(r, _) => r < |c.refreshes| && c.refreshes[r].Pending?
    case Receive(i, _) => i < |c.calls| && InFlight(c.calls[i].phase)
    case Fail(i) => i < |c.calls| && InFlight(c.calls[i].phase)
    case Resume(i) =>
      && i < |c.calls| && c.calls[i].phase.Waiting? && |c.calls[i].sends| > 0
      && c.calls[i].phase.refresh < |c.refreshes| && c.refreshes[c.calls[i].phase.refresh].Settled?
    case LookUp(i) => i < |c.calls| && c.calls[i].phase.Hashing? && AskedStepUp(c.calls[i])
    case Resend(i) => i < |c.calls| && c.calls[i].phase.HasToken? && |c.calls[i].sends| > 0
    case Submit(i) => i < |c.calls| && c.shown == Some(i)
    case Verify(i, _, _) => i < |c.calls| && c.calls[i].verifying > 0 && AskedStepUp(c.calls[i])
    case Refuse(i) => i < |c.calls| && c.calls[i].verifying > 0
    case LockOut(i) => i < |c.calls| && c.calls[i].verifying > 0
    case Cancel(i) => i < |c.calls| && c.shown == Some(i)
    case _ => true
  }

  function NextState(w: World, s: Step): State
    requires Enabled(w, s)
  {
    var c := w.state;
    match s
    case Start(path, writes) => Begin(c, path, writes, w.cookie)
    case AskRefresh => TryRefresh(c)
    case Tick(_) => c
    case SetCookie(_) => c
    case SettleRefresh(r, ok) => OnRefreshSettled(c, r, ok)
    case Receive(i, response) => OnResponse(c, i, response)
    case Fail(i) => SetPhase(c, i, Done(NetworkError))
    case Resume(i) => OnResumed(c, i, w.cookie)
    case LookUp(i) => OnHashed(c, i, w.now)
    case Resend(i) => OnToken(c, i, w.cookie)
    case Submit(i) => OnSubmit(c, i)
    case Verify(i, token, window) => OnVerified(c, i, token, window, w.now)
    case Refuse(i) => Checked(c, i)
    case LockOut(i) => OnLockedOut(c, i)
    case Cancel(i) => OnCancel(c, i)
  }

  function Next(w: World, s: Step): World
    requires Enabled(w, s)
  {
    var c := NextState(w, s);
    match s
    case Tick(elapsed) => w.(now := w.now + elapsed)
    case SetCookie(cookie) => w.(cookie := cookie)
    case Verify(i, token, window) => w.(state := c, issued := w.issued + [IssueOf(w, i, token, window)])
    case Start(_, _) => w.(state := c, heard := w.heard + [[]])
    case Receive(i, response) => w.(state := c, heard := Hear(w.heard, i, response))
    case _ => w.(state := c)
  }

  function Hear(heard: seq<seq<Response>>, i: nat, response: Response): seq<seq<Response>> {
    if i < |heard| then heard[i := heard[i] + [response]] else heard
  }

  function IssueOf(w: World, i: nat, token: string, window: Option<int>): Issue
    requires i < |w.state.calls| && AskedStepUp(w.state.calls[i])
  {
    Issue(ActionOf(w.state.calls[i]), token, if window.Some? then window.value else DEFAULT_WINDOW, w.now)
  }

  // ---------------------------------------------------------------------------
  // What every step keeps
  // ---------------------------------------------------------------------------

  /** The token was issued for this action; one taken from the cache was then still in nine tenths of its window. */
  ghost predicate TokenFits(issued: seq<Issue>, action: string, token: string, cached: bool, at: int) {
    exists issue ::
      && issue in issued && issue.action == action && issue.token == token && issue.at <= at
      && (cached ==> issue.window > 0 && InNineTenths(issue, at))
  }

  /** The second sending of a request had a reason. */
  ghost predicate Justified(w: World, call: Call, why: Why) {
    match why
    case First => false
    case AfterRefresh(r) =>
      && call.waited == Some(r) && r < |w.state.refreshes| && w.state.refreshes[r] == Settled(true)
    case AfterStepUp(token, cached, at) =>
      && call.waited.None? && AskedStepUp(call) && at <= w.now
      && TokenFits(w.issued, ActionOf(call), token, cached, at)
  }

  /** How the call stands with the refresh it joined. */
  predicate RefreshInv(w: World, call: Call) {
    && (call.phase.Waiting? ==> call.waited == Some(call.phase.refresh))
    && (call.phase == Done(SessionExpired) ==> call.waited.Some?)
    && (call.waited.Some? ==>
          && call.waited.value < |w.state.refreshes|
          && call.answer.Some? && call.answer.value.status == 401 && RefreshEligible(call.path)
          && (!call.phase.Waiting? ==>
                && w.state.refreshes[call.waited.value].Settled?
                && (|call.sends| == 2 <==> w.state.refreshes[call.waited.value].ok)
                && (call.phase == Done(SessionExpired) <==> !w.state.refreshes[call.waited.value].ok)))
  }

  ghost predicate PhaseInv(w: World, call: Call) {
    match call.phase
    case Sending => call.answer.None? && call.waited.None?
    case Waiting(_) => true
    case Hashing => call.waited.None? && AskedStepUp(call) && call.answer.value.status == 403
    case Prompting => call.waited.None? && AskedStepUp(call) && call.answer.value.status == 403
    case HasToken(token, cached, at) =>
      && call.waited.None? && AskedStepUp(call) && call.answer.value.status == 403 && at <= w.now
      && TokenFits(w.issued, ActionOf(call), token, cached, at)
    case Resending => |call.sends| == 2
    case Done(_) => true
  }

  ghost predicate CallInv(w: World, call: Call) {
    && 1 <= |call.sends| <= 2
    && call.sends[0].why.First? && (call.sends[0].csrf.Some? <==> call.writes)
    && (|call.sends| == 2 ==> (call.phase.Resending? || call.phase.Done?) && Justified(w, call, call.sends[1].why))
    && (call.verifying > 0 ==> AskedStepUp(call) && !call.phase.Sending?)
    && RefreshInv(w, call) && PhaseInv(w, call)
  }

  ghost predicate Inv(w: World) {
    && SlotInv(w.state)
    && (w.state.shown.Some? ==>
      w.state.shown.value < |w.state.calls| && w.state.calls[w.state.shown.value].phase.Prompting?)
    && Backed(w.state.tokens, w.issued) && NoneForgotten(w.state.tokens, w.issued, w.now)
    && (forall issue :: issue in w.issued ==> issue.at <= w.now)
    && forall i :: 0 <= i < |w.state.calls| ==> CallInv(w, w.state.calls[i])
  }

  ghost predicate Initial(w: World) { w.state == State(None, [], map[], None, []) && w.issued == [] && w.heard == [] }

  /** Nothing a call relies on is taken away by another call's step. */
  predicate Extends(w: World, w': World) {
    && w.now <= w'.now && w.issued <= w'.issued && |w.state.refreshes| <= |w'.state.refreshes|
    && forall r :: 0 <= r < |w.state.refreshes| && w.state.refreshes[r].Settled? ==>
         w'.state.refreshes[r] == w.state.refreshes[r]
  }

  lemma TokenStillFits(issued: seq<Issue>, issued': seq<Issue>, action: string, token: string, cached: bool, at: int)
    requires issued <= issued' && TokenFits(issued, action, token, cached, at)
    ensures TokenFits(issued', action, token, cached, at)
  {
    var issue :| issue in issued && issue.action == action && issue.token == token && issue.at <= at
      && (cached ==> issue.window > 0 && InNineTenths(issue, at));
    var k :| 0 <= k < |issued| && issued[k] == issue;
    assert issued'[k] == issue;
  }

  lemma CallInvExtends(w: World, w': World, call: Call)
    requires CallInv(w, call) && Extends(w, w')
    ensures CallInv(w', call)
  {
    if call.phase.HasToken? {
      TokenStillFits(w.issued, w'.issued, ActionOf(call), call.phase.token, call.phase.cached, call.phase.at);
    }
    if |call.sends| == 2 && call.sends[1].why.AfterStepUp? {
      var why := call.sends[1].why;
      TokenStillFits(w.issued, w'.issued, ActionOf(call), why.token, why.cached, why.at);
    }
  }

  /** The call a step is about. */
  function Subject(s: Step): Option<nat> {
    match s
    case Receive(i, _) => Some(i)
    case Fail(i) => Some(i)
    case Resume(i) => Some(i)
    case LookUp(i) => Some(i)
    case Resend(i) => Some(i)
    case Submit(i) => Some(i)
    case Verify(i, _, _) => Some(i)
    case Refuse(i) => Some(i)
    case LockOut(i) => Some(i)
    case Cancel(i) => Some(i)
    case _ => None
  }

  lemma StepExtends(w: World, s: Step)
    requires Inv(w) && Enabled(w, s)
    ensures Extends(w, Next(w, s)) && SlotInv(Next(w, s).state)
  {
    hide CallInv, Backed, NoneForgotten, Lookup, Expire, Remember, SendAgain, Includes;
    var c, c' := w.state, Next(w, s).state;
    assert
      || (s.SettleRefresh? && c'.refreshing.None? && c'.refreshes == c.refreshes[s.refresh := Settled(s.ok)])
      || (c'.refreshes == c.refreshes && c'.refreshing == c.refreshing)
      || (c.refreshing.None? && c'.refreshing == Some(|c.refreshes|) && c'.refreshes == c.refreshes + [Pending]);
    hide NextState;
  }

  lemma OthersUntouched(w: World, s: Step, i: nat)
    requires Enabled(w, s) && i < |w.state.calls| && Subject(s) != Some(i)
    ensures i < |Next(w, s).state.calls| && Next(w, s).state.calls[i] == w.state.calls[i]
  {
    hide Lookup, Expire, Remember, SendAgain, Includes;
  }

  lemma VerifiedKeepsCall(w: World, i: nat, token: string, window: Option<int>)
    requires Inv(w) && Enabled(w, Verify(i, token, window))
    ensures CallInv(Next(w, Verify(i, token, window)), Next(w, Verify(i, token, window)).state.calls[i])
  {
    var w' := Next(w, Verify(i, token, window));
    var issue := IssueOf(w, i, token, window);
    assert CallInv(w, w.state.calls[i]) && issue in w'.issued;
    CallInvExtends(w, w', w.state.calls[i]);
    if w.state.calls[i].phase.Prompting? {
      assert TokenFits(w'.issued, ActionOf(w.state.calls[i]), token, false, w.now);
    }
  }

  lemma LookedUpKeepsCall(w: World, i: nat)
    requires Inv(w) && Enabled(w, LookUp(i))
    ensures CallInv(Next(w, LookUp(i)), Next(w, LookUp(i)).state.calls[i])
  {
    var call := w.state.calls[i];
    assert CallInv(w, call);
    var found := Lookup(w.state.tokens, ActionOf(call), w.now);
    if found.Some? && found.value != "" {
      FoundIsLatest(w.state.tokens, w.issued, ActionOf(call), w.now);
      LatestIsIssued(w.issued, ActionOf(call));
      assert TokenFits(w.issued, ActionOf(call), found.value, true, w.now);
    }
  }

  lemma ReceivedKeepsCall(w: World, i: nat, response: Response)
    requires Inv(w) && Enabled(w, Receive(i, response))
    ensures CallInv(Next(w, Receive(i, response)), Next(w, Receive(i, response)).state.calls[i])
  {
    hide Backed, NoneForgotten, Includes;
    assert CallInv(w, w.state.calls[i]);
  }

  lemma SentAgainKeepsCall(w: World, s: Step, i: nat)
    requires Inv(w) && Enabled(w, s) && (s == Resume(i) || s == Resend(i))
    ensures CallInv(Next(w, s), Next(w, s).state.calls[i])
  {
    hide Backed, NoneForgotten;
    assert CallInv(w, w.state.calls[i]);
  }

  lemma EndedKeepsInv(w: World, call: Call, outcome: Outcome)
    requires CallInv(w, call) && (call.phase.Prompting? || InFlight(call.phase))
    requires outcome.StepUpFailed? || outcome.NetworkError?
    ensures CallInv(w, call.(phase := Done(outcome)))
  {
    hide Includes;
  }

  lemma CheckingKeepsInv(w: World, call: Call, n: nat)
    requires CallInv(w, call) && (n > 0 ==> AskedStepUp(call) && !call.phase.Sending?)
    ensures CallInv(w, call.(verifying := n))
  {
    hide Includes;
  }

  lemma PromptedKeepsCall(w: World, s: Step, i: nat)
    requires Inv(w) && Enabled(w, s) && (s == Submit(i) || s == Refuse(i) || s == LockOut(i) || s == Cancel(i))
    ensures CallInv(Next(w, s), Next(w, s).state.calls[i])
  {
    var call := w.state.calls[i];
    var n := if s.Submit? then call.verifying + 1 else if s.Cancel? then call.verifying else call.verifying - 1;
    assert CallInv(w, call) && AskedStepUp(call) && !call.phase.Sending?;
    hide CallInv, Backed, NoneForgotten;
    CheckingKeepsInv(w, call, n);
    var checked := call.(verifying := n);
    if call.phase.Prompting? { EndedKeepsInv(w, checked, StepUpFailed); }
    CallInvExtends(w, Next(w, s), checked);
    if call.phase.Prompting? { CallInvExtends(w, Next(w, s), checked.(phase := Done(StepUpFailed))); }
  }

  lemma FailedKeepsCall(w: World, i: nat)
    requires Inv(w) && Enabled(w, Fail(i))
    ensures CallInv(Next(w, Fail(i)), Next(w, Fail(i)).state.calls[i])
  {
    hide CallInv, Backed, NoneForgotten;
    EndedKeepsInv(w, w.state.calls[i], NetworkError);
    CallInvExtends(w, Next(w, Fail(i)), w.state.calls[i].(phase := Done(NetworkError)));
  }

  lemma SubjectKeepsInv(w: World, s: Step)
    requires Inv(w) && Enabled(w, s) && Subject(s).Some?
    ensures CallInv(Next(w, s), Next(w, s).state.calls[Subject(s).value])
  {
    hide CallInv, Inv, NextState;
    if s.LookUp? { LookedUpKeepsCall(w, s.call); }
    else if s.Verify? { VerifiedKeepsCall(w, s.call, s.token, s.window); }
    else if s.Receive? { ReceivedKeepsCall(w, s.call, s.response); }
    else if s.Resume? || s.Resend? { SentAgainKeepsCall(w, s, Subject(s).value); }
    else if s.Fail? { FailedKeepsCall(w, s.call); }
    else { PromptedKeepsCall(w, s, Subject(s).value); }
  }

  lemma TokensStayBacked(w: World, s: Step)
    requires Inv(w) && Enabled(w, s)
    ensures Backed(Next(w, s).state.tokens, Next(w, s).issued)
    ensures NoneForgotten(Next(w, s).state.tokens, Next(w, s).issued, Next(w, s).now)
  {
    hide CallInv, SlotInv, SendAgain, Includes, Lookup, Backed, NoneForgotten;
    match s
    case Tick(elapsed) => TimeKeepsNoneForgotten(w.state.tokens, w.issued, w.now, w.now + elapsed);
    case LookUp(i) => ExpireKeepsBacked(w.state.tokens, w.issued, ActionOf(w.state.calls[i]), w.now);
    case Verify(i, token, window) => RememberKeepsBacked(w.state.tokens, w.issued, IssueOf(w, i, token, window));
    case _ =>
  }

  /** Every step of every interleaving keeps the invariant. */
  lemma StepKeepsInv(w: World, s: Step)
    requires Inv(w) && Enabled(w, s)
    ensures Inv(Next(w, s))
  {
    hide CallInv, Backed, NoneForgotten, NextState;
    var w' := Next(w, s);
    StepExtends(w, s);
    TokensStayBacked(w, s);
    forall i | 0 <= i < |w'.state.calls| ensures CallInv(w', w'.state.calls[i]) {
      if Subject(s) == Some(i) { SubjectKeepsInv(w, s); }
      else if i < |w.state.calls| { OthersUntouched(w, s, i); CallInvExtends(w, w', w.state.calls[i]); }
      else { BegunCallInv(w, s); }
    }
    ShownIsPrompting(w, s);
  }

  lemma BegunCallInv(w: World, s: Step)
    requires Enabled(w, s) && |Next(w, s).state.calls| > |w.state.calls|
    ensures |Next(w, s).state.calls| == |w.state.calls| + 1
      && CallInv(Next(w, s), Next(w, s).state.calls[|w.state.calls|])
  {
  }

  lemma ShownIsPrompting(w: World, s: Step)
    requires Inv(w) && Enabled(w, s)
    ensures var c := Next(w, s).state;
      c.shown.Some? ==> c.shown.value < |c.calls| && c.calls[c.shown.value].phase.Prompting?
  {
    if Subject(s).Some? { assert CallInv(w, w.state.calls[Subject(s).value]); }
  }

  ghost predicate CanRun(w: World, steps: seq<Step>)
    decreases |steps|
  {
    steps != [] ==> Enabled(w, steps[0]) && CanRun(Next(w, steps[0]), steps[1..])
  }

  ghost function Run(w: World, steps: seq<Step>): World
    requires CanRun(w, steps)
    decreases |steps|
  {
    if steps == [] then w else Run(Next(w, steps[0]), steps[1..])
  }

  lemma {:induction false} RunKeepsInv(w: World, steps: seq<Step>)
    requires Inv(w) && CanRun(w, steps)
    ensures Inv(Run(w, steps))
    decreases |steps|
  {
    if steps != [] {
      StepKeepsInv(w, steps[0]);
      RunKeepsInv(Next(w, steps[0]), steps[1..]);
    }
  }

  // ---------------------------------------------------------------------------
  // Main results
  // ---------------------------------------------------------------------------

  /** However the calls interleave, at most one refresh is outstanding, and the slot is empty exactly when none is. */
  lemma OneRefreshOutstanding(w0: World, steps: seq<Step>)
    requires Initial(w0) && CanRun(w0, steps)
    ensures var c := Run(w0, steps).state;
      && (forall r, q :: 0 <= r < |c.refreshes| && 0 <= q < |c.refreshes| ==>
            c.refreshes[r].Pending? && c.refreshes[q].Pending? ==> r == q)
      && (c.refreshing.None? <==> forall r :: 0 <= r < |c.refreshes| ==> c.refreshes[r].Settled?)
      && (c.refreshing.Some? ==> c.refreshing.value < |c.refreshes| && c.refreshes[c.refreshing.value].Pending?)
  {
    RunKeepsInv(w0, steps);
  }

  /**
   A request is sent a second time at most, and then either because the refresh its call had joined succeeded, or with
   a step-up token issued for the action the call was refused for; a token from the cache had been received less than
   nine tenths of its window, never zero, before it was taken.
   */
  lemma ResentOnceWithReason(w0: World, steps: seq<Step>, i: nat)
    requires Initial(w0) && CanRun(w0, steps) && i < |Run(w0, steps).state.calls|
    ensures var w := Run(w0, steps); var call := w.state.calls[i];
      && 1 <= |call.sends| <= 2 && call.sends[0].why.First?
      && (|call.sends| == 2 ==> Justified(w, call, call.sends[1].why) && (call.phase.Resending? || call.phase.Done?))
  {
    RunKeepsInv(w0, steps);
    assert CallInv(Run(w0, steps), Run(w0, steps).state.calls[i]);
  }

  /** A call only ever joins a refresh that is outstanding at that moment, and only for a 401 on an eligible path. */
  lemma JoinsOutstandingRefresh(w: World, i: nat, response: Response)
    requires Inv(w) && Enabled(w, Receive(i, response))
    ensures var call, w' := w.state.calls[i], Next(w, Receive(i, response));
      && (w'.state.calls[i].phase.Waiting? <==>
        call.phase.Sending? && response.status == 401 && RefreshEligible(call.path))
      && (w'.state.calls[i].phase.Waiting? ==>
            w'.state.refreshing == Some(w'.state.calls[i].phase.refresh)
            && w'.state.refreshes[w'.state.calls[i].phase.refresh].Pending?)
  {
    assert CallInv(w, w.state.calls[i]);
  }

  /** All calls that waited on one refresh see one outcome: either all are sent again, or all end as expired. */
  lemma WaitersAgree(w0: World, steps: seq<Step>, i: nat, j: nat)
    requires Initial(w0) && CanRun(w0, steps) && i < |Run(w0, steps).state.calls| && j < |Run(w0, steps).state.calls|
    requires var c := Run(w0, steps).state;
      && c.calls[i].waited.Some? && c.calls[i].waited == c.calls[j].waited
      && !c.calls[i].phase.Waiting? && !c.calls[j].phase.Waiting?
    ensures var c := Run(w0, steps).state;
      && |c.calls[i].sends| == |c.calls[j].sends|
      && (c.calls[i].phase == Done(SessionExpired) <==> |c.calls[i].sends| == 1)
      && (c.calls[i].phase == Done(SessionExpired) <==> c.calls[j].phase == Done(SessionExpired))
  {
    RunKeepsInv(w0, steps);
    var w := Run(w0, steps);
    assert CallInv(w, w.state.calls[i]) && CallInv(w, w.state.calls[j]);
  }

  /** The second sending carries the current CSRF cookie, unless the first went out with an empty one. */
  lemma ResentWithCurrentCookieIff(w: World, s: Step)
    requires Inv(w) && Enabled(w, s) && (s.Resume? || s.Resend?)
    requires Next(w, s).state.calls[s.call].phase.Resending?
    ensures var call := w.state.calls[s.call];
      && |call.sends| == 1
      && (Next(w, s).state.calls[s.call].sends[1].csrf == (if call.writes then Some(w.cookie) else None)
          <==> !(call.writes && call.sends[0].csrf == Some("") && w.cookie != ""))
  {
    assert CallInv(w, w.state.calls[s.call]);
  }

  // ---------------------------------------------------------------------------
  // What a call ends with
  // ---------------------------------------------------------------------------

  /** A first response that is answered by a refresh, and one that is looked into for its denial. */
  predicate WantsRefresh(path: string, response: Response) { response.status == 401 && RefreshEligible(path) }
  predicate IsRefused(path: string, response: Response) {
    response.status == 403 && !Includes(path, "/auth/step-up")
  }

  /** What the responses to a call's sendings so far allow it to be doing, or to have ended with. */
  predicate Told(call: Call, heard: seq<Response>) {
    && call.answer == (if heard == [] then None else Some(heard[0]))
    && (call.waited.Some? <==> heard != [] && WantsRefresh(call.path, heard[0]))
    && (|call.sends| == 2 ==>
          && heard != []
          && (WantsRefresh(call.path, heard[0]) || (IsRefused(call.path, heard[0]) && heard[0].denial.StepUpRequired?)))
    && match call.phase
       case Sending => |call.sends| == 1 && heard == []
       case Waiting(_) => |call.sends| == 1 && |heard| == 1 && WantsRefresh(call.path, heard[0])
       case Resending => |call.sends| == 2 && |heard| == 1
       case Done(outcome) => Ends(call, heard, outcome)
       case _ =>
         |call.sends| == 1 && |heard| == 1 && IsRefused(call.path, heard[0]) && heard[0].denial.StepUpRequired?
  }

  predicate Ends(call: Call, heard: seq<Response>, outcome: Outcome) {
    match outcome
    case NetworkError => |heard| + 1 == |call.sends|
    case Answered(response) =>
      && |heard| == |call.sends| && heard != [] && response == heard[|heard| - 1]
      && (|heard| == 1 ==> !WantsRefresh(call.path, heard[0]) && !IsRefused(call.path, heard[0]))
    case SessionExpired => |call.sends| == 1 && |heard| == 1 && WantsRefresh(call.path, heard[0])
    case MfaEnrollment =>
      |call.sends| == 1 && |heard| == 1 && IsRefused(call.path, heard[0]) && heard[0].denial.MfaEnrollmentRequired?
    case Forbidden => |call.sends| == 1 && |heard| == 1 && IsRefused(call.path, heard[0]) && heard[0].denial.NoDenial?
    case StepUpFailed =>
      |call.sends| == 1 && |heard| == 1 && IsRefused(call.path, heard[0]) && heard[0].denial.StepUpRequired?
  }

  ghost predicate AllTold(w: World) {
    |w.heard| == |w.state.calls| && forall i :: 0 <= i < |w.heard| ==> Told(w.state.calls[i], w.heard[i])
  }

  lemma ReceivedTold(w: World, i: nat, response: Response)
    requires AllTold(w) && Enabled(w, Receive(i, response))
    ensures var w' := Next(w, Receive(i, response)); Told(w'.state.calls[i], w'.heard[i])
  {
    hide Includes, RefreshEligible;
    assert Told(w.state.calls[i], w.heard[i]);
  }

  lemma SentAgainTold(w: World, s: Step, i: nat)
    requires Inv(w) && AllTold(w) && Enabled(w, s) && (s == Resume(i) || s == Resend(i))
    ensures Told(Next(w, s).state.calls[i], w.heard[i])
  {
    hide Includes, RefreshEligible, Backed, NoneForgotten;
    assert CallInv(w, w.state.calls[i]) && Told(w.state.calls[i], w.heard[i]);
  }

  lemma LookedUpTold(w: World, i: nat)
    requires Inv(w) && AllTold(w) && Enabled(w, LookUp(i))
    ensures Told(Next(w, LookUp(i)).state.calls[i], w.heard[i])
  {
    hide Includes, RefreshEligible, Backed, NoneForgotten, Lookup, Expire;
    assert Told(w.state.calls[i], w.heard[i]);
  }

  lemma PromptedTold(w: World, s: Step, i: nat)
    requires Inv(w) && AllTold(w) && Enabled(w, s)
    requires s == Submit(i) || s == Refuse(i) || s == LockOut(i) || s == Cancel(i) || (s.Verify? && s.call == i)
    ensures Told(Next(w, s).state.calls[i], w.heard[i])
  {
    hide Includes, RefreshEligible, Backed, NoneForgotten, Remember, CallInv;
    assert Told(w.state.calls[i], w.heard[i]);
  }

  lemma FailedTold(w: World, i: nat)
    requires Inv(w) && AllTold(w) && Enabled(w, Fail(i))
    ensures Told(Next(w, Fail(i)).state.calls[i], w.heard[i])
  {
    hide Includes, RefreshEligible, Backed, NoneForgotten;
    assert CallInv(w, w.state.calls[i]) && Told(w.state.calls[i], w.heard[i]);
  }

  lemma SubjectTold(w: World, s: Step)
    requires Inv(w) && AllTold(w) && Enabled(w, s) && Subject(s).Some? && !s.Receive?
    ensures Told(Next(w, s).state.calls[Subject(s).value], w.heard[Subject(s).value])
  {
    hide Told, Inv, NextState;
    if s.Resume? || s.Resend? { SentAgainTold(w, s, s.call); }
    else if s.LookUp? { LookedUpTold(w, s.call); }
    else if s.Fail? { FailedTold(w, s.call); }
    else { PromptedTold(w, s, s.call); }
  }

  lemma StepKeepsTold(w: World, s: Step)
    requires Inv(w) && AllTold(w) && Enabled(w, s)
    ensures AllTold(Next(w, s))
  {
    hide Inv, Told, NextState;
    var w' := Next(w, s);
    CallsCounted(w, s);
    forall i | 0 <= i < |w'.heard| ensures Told(w'.state.calls[i], w'.heard[i]) {
      if s.Receive? && s.call == i { ReceivedTold(w, i, s.response); }
      else if Subject(s) == Some(i) { SubjectTold(w, s); }
      else if i < |w.heard| { OthersUntouched(w, s, i); assert Told(w.state.calls[i], w.heard[i]); }
      else { BegunTold(w, s); }
    }
  }

  lemma CallsCounted(w: World, s: Step)
    requires Enabled(w, s)
    ensures |Next(w, s).state.calls| == |w.state.calls| + if s.Start? then 1 else 0
  {
    hide Lookup, Expire, Remember, SendAgain, Includes;
  }

  lemma BegunTold(w: World, s: Step)
    requires s.Start? && |w.heard| == |w.state.calls|
    ensures var w', i := Next(w, s), |w.state.calls|; Told(w'.state.calls[i], w'.heard[i])
  {
  }

  lemma {:induction false} RunKeepsTold(w: World, steps: seq<Step>)
    requires Inv(w) && AllTold(w) && CanRun(w, steps)
    ensures AllTold(Run(w, steps))
    decreases |steps|
  {
    hide Inv, AllTold, Next;
    if steps != [] {
      StepKeepsInv(w, steps[0]);
      StepKeepsTold(w, steps[0]);
      RunKeepsTold(Next(w, steps[0]), steps[1..]);
    }
  }

  /**
   In every run: how a finished call ended can be told from its sendings, its path and the responses to them.  A request
   sent once ends with its response as it is, unless that is a 401 to be answered by a refresh or a 403 that says more;
   a request sent twice ends with the second response, whatever that is; and a sending without a response is a network
   error.
   */
  lemma OutcomeIff(w0: World, steps: seq<Step>, i: nat)
    requires Initial(w0) && CanRun(w0, steps) && i < |Run(w0, steps).state.calls|
    requires Run(w0, steps).state.calls[i].phase.Done?
    ensures |Run(w0, steps).heard| == |Run(w0, steps).state.calls|
    ensures var call, heard := Run(w0, steps).state.calls[i], Run(w0, steps).heard[i];
      var n, outcome := |call.sends|, call.phase.outcome;
      && |heard| <= n <= |heard| + 1 && 1 <= n <= 2
      && (outcome == NetworkError <==> |heard| < n)
      && (outcome.Answered? ==> |heard| == n && outcome.response == heard[n - 1])
      && (|heard| == n == 2 ==> outcome.Answered?)
      && (|heard| == n == 1 ==>
            var first := heard[0];
            && (outcome == SessionExpired <==> first.status == 401 && RefreshEligible(call.path))
            && (outcome == MfaEnrollment <==>
                  first.status == 403 && !Includes(call.path, "/auth/step-up") && first.denial == MfaEnrollmentRequired)
            && (outcome == Forbidden <==>
                  first.status == 403 && !Includes(call.path, "/auth/step-up") && first.denial == NoDenial)
            && (outcome == StepUpFailed <==>
                  first.status == 403 && !Includes(call.path, "/auth/step-up") && first.denial.StepUpRequired?)
            && (outcome.Answered? <==>
                  !(first.status == 401 && RefreshEligible(call.path))
                  && !(first.status == 403 && !Includes(call.path, "/auth/step-up"))))
  {
    RunKeepsInv(w0, steps);
    RunKeepsTold(w0, steps);
    var w := Run(w0, steps);
    assert CallInv(w, w.state.calls[i]) && Told(w.state.calls[i], w.heard[i]);
  }

  /**
   A prompting call goes on with the token of a verified password, and fails exactly when it is locked out or cancelled;
   whatever else happens, it goes on prompting.
   */
  lemma PromptLeavesIff(w: World, s: Step, i: nat)
    requires Enabled(w, s) && i < |w.state.calls| && w.state.calls[i].phase.Prompting?
    ensures i < |Next(w, s).state.calls|
    ensures var phase := Next(w, s).state.calls[i].phase;
      && (phase.HasToken? <==> s.Verify? && s.call == i)
      && (phase.HasToken? ==> phase == HasToken(s.token, false, w.now))
      && (phase == Done(StepUpFailed) <==> s == LockOut(i) || s == Cancel(i))
      && (!phase.HasToken? && phase != Done(StepUpFailed) ==> phase == Prompting)
  {
    hide Lookup, Expire, Remember, Includes;
    CallsCounted(w, s);
    if Subject(s) != Some(i) { OthersUntouched(w, s, i); }
  }

  /** A call sent twice had a first response that called for it. */
  lemma ResentAfter(w0: World, steps: seq<Step>, i: nat)
    requires Initial(w0) && CanRun(w0, steps) && i < |Run(w0, steps).state.calls|
    requires |Run(w0, steps).state.calls[i].sends| == 2
    ensures var w := Run(w0, steps); var call := w.state.calls[i];
      && i < |w.heard| && w.heard[i] != []
      && (call.sends[1].why.AfterRefresh? ==> w.heard[i][0].status == 401 && RefreshEligible(call.path))
      && (call.sends[1].why.AfterStepUp? ==>
            && w.heard[i][0].status == 403 && !Includes(call.path, "/auth/step-up")
            && w.heard[i][0].denial.StepUpRequired?)
  {
    hide Includes, RefreshEligible;
    RunKeepsInv(w0, steps);
    RunKeepsTold(w0, steps);
    var w := Run(w0, steps);
    assert CallInv(w, w.state.calls[i]) && Told(w.state.calls[i], w.heard[i]);
  }

  // ---------------------------------------------------------------------------
  // Which paths are refreshed, and who is asked for a password
  // ---------------------------------------------------------------------------

  /** The part stands somewhere in the path. */
  ghost predicate Occurs(part: string, path: string) { exists before, after :: path == before + part + after }

  lemma IncludesIff(path: string, part: string)
    ensures Includes(path, part) <==> Occurs(part, path)
  {
    if Includes(path, part) {
      var i :| 0 <= i <= |path| && part <= path[i..];
      var before, after := path[..i], path[i + |part|..];
      assert path[i..] == part + after;
      assert path == before + part + after;
    }
    if Occurs(part, path) {
      var before, after :| path == before + part + after;
      PartAt(path, before, part, after);
    }
  }

  lemma PartAt(path: string, before: string, part: string, after: string)
    requires path == before + part + after
    ensures |before| <= |path| && part <= path[|before|..]
  {
    assert path[|before|..] == part + after;
  }

  /** The five places whose 401 is passed on. */
  const UNREFRESHED := ["/auth/refresh", "/auth/login", "/auth/totp/", "/auth/mfa/", "/auth/webauthn/authenticate"]

  /** A 401 is answered by a refresh on every path in which none of the five occurs. */
  lemma RefreshEligibleIff(path: string)
    ensures RefreshEligible(path) <==> forall k :: 0 <= k < |UNREFRESHED| ==> !Occurs(UNREFRESHED[k], path)
  {
    hide Includes, Occurs;
    forall k | 0 <= k < |UNREFRESHED| ensures Includes(path, UNREFRESHED[k]) <==> Occurs(UNREFRESHED[k], path) {
      IncludesIff(path, UNREFRESHED[k]);
    }
    assert UNREFRESHED[0] == "/auth/refresh" && UNREFRESHED[1] == "/auth/login" && UNREFRESHED[2] == "/auth/totp/"
      && UNREFRESHED[3] == "/auth/mfa/" && UNREFRESHED[4] == "/auth/webauthn/authenticate";
  }

  lemma LetterMissing(path: string, part: string, c: char)
    requires c in part && c !in path
    ensures !Includes(path, part)
  {
    var j :| 0 <= j < |part| && part[j] == c;
    forall i | 0 <= i <= |path| ensures !(part <= path[i..]) {
      assert |path[i..]| > j ==> path[i..][j] == path[i + j];
    }
  }

  /** A path without a 'u', such as that of the file list, is refreshed. */
  lemma OrdinaryPathIsEligible(path: string)
    requires 'u' !in path
    ensures RefreshEligible(path) && !Includes(path, "/auth/step-up")
  {
    hide Includes;
    LetterInParts();
    LetterMissing(path, "/auth/refresh", 'u');
    LetterMissing(path, "/auth/login", 'u');
    LetterMissing(path, "/auth/totp/", 'u');
    LetterMissing(path, "/auth/mfa/", 'u');
    LetterMissing(path, "/auth/webauthn/authenticate", 'u');
    LetterMissing(path, "/auth/step-up", 'u');
  }

  lemma LetterInParts()
    ensures "/auth/refresh"[2] == 'u' && "/auth/login"[2] == 'u' && "/auth/totp/"[2] == 'u'
    ensures "/auth/mfa/"[2] == 'u' && "/auth/webauthn/authenticate"[2] == 'u' && "/auth/step-up"[2] == 'u'
  {
  }

  lemma FileListIsEligible()
    ensures RefreshEligible("/api/v1/files")
  {
    OrdinaryPathIsEligible("/api/v1/files");
  }

  /**
   In every run: a call refused for want of step-up is let through without a prompt exactly when the last token that was
   issued with a window for its action, by whatever call, is not empty and came less than nine tenths of that window
   ago; and it then takes that token.
   */
  lemma PromptedIff(w0: World, steps: seq<Step>, i: nat)
    requires Initial(w0) && CanRun(w0, steps) && Enabled(Run(w0, steps), LookUp(i))
    ensures var w := Run(w0, steps);
      var action, phase := ActionOf(w.state.calls[i]), Next(w, LookUp(i)).state.calls[i].phase;
      && (phase.Prompting? || phase.HasToken?)
      && (phase.HasToken? <==> exists k: nat ::
            LastAt(w.issued, action, k) && w.issued[k].token != "" && InNineTenths(w.issued[k], w.now))
      && (phase.HasToken? ==> exists k: nat :: LastAt(w.issued, action, k) && w.issued[k].token == phase.token)
  {
    RunKeepsInv(w0, steps);
    var w := Run(w0, steps);
    var action := ActionOf(w.state.calls[i]);
    var found := Lookup(w.state.tokens, action, w.now);
    hide CallInv, Backed, NoneForgotten, Lookup, Expire, LastAt, InNineTenths;
    if found.Some? { FoundIff(w.state.tokens, w.issued, action, w.now, found.value); }
    LastTokens(w, action);
  }

  lemma LastTokens(w: World, action: string)
    requires Inv(w)
    ensures forall k: nat :: LastAt(w.issued, action, k) && InNineTenths(w.issued[k], w.now) ==>
      Lookup(w.state.tokens, action, w.now) == Some(w.issued[k].token)
  {
    hide CallInv, Backed, NoneForgotten, Lookup;
    forall k: nat | LastAt(w.issued, action, k) && InNineTenths(w.issued[k], w.now)
      ensures Lookup(w.state.tokens, action, w.now) == Some(w.issued[k].token)
    {
      FoundIff(w.state.tokens, w.issued, action, w.now, w.issued[k].token);
    }
  }

  /** A first sending carries the CSRF cookie of its moment exactly when the method writes. */
  lemma FirstSending(w: World, path: string, writes: bool)
    ensures var calls := Next(w, Start(path, writes)).state.calls;
      && |calls| == |w.state.calls| + 1 && calls[|w.state.calls|].path == path
      && calls[|w.state.calls|].sends == [Sent(if writes then Some(w.cookie) else None, First)]
  {
  }

  // ---------------------------------------------------------------------------
  // Every call finishes, or waits for the user
  // ---------------------------------------------------------------------------

  function Weight(call: Call): nat {
    call.verifying
    + match call.phase
      case Sending => 5
      case Hashing => 4
      case Prompting => 3
      case Waiting(_) => 2
      case HasToken(_, _, _) => 2
      case Resending => 1
      case Done(_) => 0
  }

  function Total(calls: seq<Call>): nat { if calls == [] then 0 else Weight(calls[0]) + Total(calls[1..]) }

  /** What is still to happen: at most this many steps, unless the user or the program starts something new. */
  function Measure(c: State): nat { Total(c.calls) + if c.refreshing.Some? then 1 else 0 }

  lemma {:induction false} TotalUpdate(calls: seq<Call>, i: nat, call: Call)
    requires i < |calls|
    ensures Total(calls[i := call]) + Weight(calls[i]) == Total(calls) + Weight(call)
  {
    if i > 0 {
      TotalUpdate(calls[1..], i - 1, call);
      assert calls[i := call][1..] == calls[1..][i - 1 := call];
    }
  }

  lemma {:induction false} TotalAppend(calls: seq<Call>, call: Call)
    ensures Total(calls + [call]) == Total(calls) + Weight(call)
  {
    if calls != [] {
      TotalAppend(calls[1..], call);
      assert (calls + [call])[1..] == calls[1..] + [call];
    }
  }

  /** Work a step brings in from outside, and whether it is itself one of the client's own steps. */
  function Brings(s: Step): nat {
    match s
    case Start(_, _) => 5
    case AskRefresh => 1
    case Submit(_) => 1
    case _ => 0
  }

  predicate IsOwn(s: Step) { !(s.Start? || s.AskRefresh? || s.Submit? || s.Tick? || s.SetCookie?) }

  lemma ReceivedDecreases(w: World, i: nat, response: Response)
    requires Inv(w) && Enabled(w, Receive(i, response))
    ensures var c, c' := w.state, Next(w, Receive(i, response)).state;
      && c'.calls == c.calls[i := c'.calls[i]]
      && Weight(c'.calls[i]) + 1 + (if c'.refreshing == c.refreshing then 0 else 1) <= Weight(c.calls[i])
      && (c'.refreshing != c.refreshing ==> c.refreshing.None?)
  {
    hide Backed, NoneForgotten, CallInv, Includes;
  }

  lemma PromptedDecreases(w: World, s: Step, i: nat)
    requires Inv(w) && Enabled(w, s)
    requires s == Submit(i) || s == Refuse(i) || s == LockOut(i) || s == Cancel(i) || (s.Verify? && s.call == i)
    ensures var c, c' := w.state, Next(w, s).state;
      && c'.calls == c.calls[i := c'.calls[i]] && c'.refreshing == c.refreshing
      && Weight(c'.calls[i]) + (if IsOwn(s) then 1 else 0) <= Weight(c.calls[i]) + Brings(s)
  {
    hide Backed, NoneForgotten, CallInv, Remember;
  }

  lemma OtherwiseDecreases(w: World, s: Step, i: nat)
    requires Inv(w) && Enabled(w, s)
    requires s == Fail(i) || s == Resume(i) || s == LookUp(i) || s == Resend(i)
    ensures var c, c' := w.state, Next(w, s).state;
      && c'.calls == c.calls[i := c'.calls[i]] && c'.refreshing == c.refreshing
      && Weight(c'.calls[i]) + 1 <= Weight(c.calls[i])
  {
    hide Backed, NoneForgotten, CallInv, Lookup, Expire;
  }

  lemma StepDecreases(w: World, s: Step)
    requires Inv(w) && Enabled(w, s)
    ensures Measure(Next(w, s).state) + (if IsOwn(s) then 1 else 0) <= Measure(w.state) + Brings(s)
  {
    hide Total, Weight, CallInv, Backed, NoneForgotten, OnResponse, OnHashed, OnVerified, OnResumed, OnToken,
      OnLockedOut, OnCancel, OnSubmit, Checked, SetPhase;
    var c, c' := w.state, Next(w, s).state;
    if Subject(s).Some? {
      var i := Subject(s).value;
      if s.Receive? { ReceivedDecreases(w, i, s.response); }
      else if s.Fail? || s.Resume? || s.LookUp? || s.Resend? { OtherwiseDecreases(w, s, i); }
      else { PromptedDecreases(w, s, i); }
      TotalUpdate(c.calls, i, c'.calls[i]);
    } else if s.Start? {
      BegunWeight(w, s);
      TotalAppend(c.calls, c'.calls[|c.calls|]);
    }
  }

  lemma BegunWeight(w: World, s: Step)
    requires s.Start?
    ensures Weight(Next(w, s).state.calls[|w.state.calls|]) == 5
  {
  }

  function Owned(steps: seq<Step>): nat {
    if steps == [] then 0 else (if IsOwn(steps[0]) then 1 else 0) + Owned(steps[1..])
  }
  function Brought(steps: seq<Step>): nat { if steps == [] then 0 else Brings(steps[0]) + Brought(steps[1..]) }

  /** The client's own steps are bounded by the work there was and the work brought in: no run goes on by itself. */
  lemma {:induction false} RunsAreBounded(w: World, steps: seq<Step>)
    requires Inv(w) && CanRun(w, steps)
    ensures Measure(Run(w, steps).state) + Owned(steps) <= Measure(w.state) + Brought(steps)
    decreases |steps|
  {
    hide Measure, Inv, Next, IsOwn, Brings;
    if steps != [] {
      StepDecreases(w, steps[0]);
      StepKeepsInv(w, steps[0]);
      RunsAreBounded(Next(w, steps[0]), steps[1..]);
    }
  }

  /** The call's prompt was replaced by another's, and no password check of its own is under way. */
  predicate Lost(c: State, i: nat)
    requires i < |c.calls|
  {
    c.calls[i].phase.Prompting? && c.shown != Some(i) && c.calls[i].verifying == 0
  }

  ghost predicate CanMove(w: World) { exists s :: IsOwn(s) && !s.Cancel? && Enabled(w, s) }

  /** When nothing can move but the user, every call is done, has its prompt on the screen, or has lost its prompt. */
  lemma QuietMeansFinished(w: World, i: nat)
    requires Inv(w) && i < |w.state.calls|
    ensures CanMove(w) || w.state.calls[i].phase.Done? || w.state.shown == Some(i) || Lost(w.state, i)
  {
    var call := w.state.calls[i];
    assert CallInv(w, call);
    match call.phase
    case Waiting(r) => assert Enabled(w, Resume(i)) || Enabled(w, SettleRefresh(r, true));
    case Hashing => assert Enabled(w, LookUp(i));
    case Prompting => assert Lost(w.state, i) || w.state.shown == Some(i) || Enabled(w, Refuse(i));
    case HasToken(_, _, _) => assert Enabled(w, Resend(i));
    case Done(_) =>
    case _ => assert Enabled(w, Fail(i));
  }

  /** The step puts the prompt of another call on the screen. */
  predicate Replaces(w: World, s: Step, i: nat)
    requires Enabled(w, s)
  {
    s.LookUp? && s.call != i && Next(w, s).state.calls[s.call].phase.Prompting?
  }

  lemma ShownChanges(w: World, s: Step, i: nat)
    requires Inv(w) && Enabled(w, s) && Subject(s) != Some(i) && w.state.shown == Some(i)
    ensures Next(w, s).state.shown != Some(i) <==> Replaces(w, s, i)
  {
    hide CallInv, Backed, NoneForgotten, Lookup, Expire, Remember, SendAgain, Includes;
  }

  lemma ShownOnlyBySelf(w: World, s: Step, i: nat)
    requires Inv(w) && Enabled(w, s) && Subject(s) != Some(i) && w.state.shown != Some(i)
    ensures Next(w, s).state.shown != Some(i)
  {
    hide CallInv, Backed, NoneForgotten, Lookup, Expire, Remember, SendAgain, Includes;
  }

  lemma LostBySelf(w: World, s: Step, i: nat)
    requires Inv(w) && Enabled(w, s) && i < |w.state.calls| && Subject(s) == Some(i)
    ensures i < |Next(w, s).state.calls|
    ensures Lost(Next(w, s).state, i) <==>
      w.state.shown != Some(i) && w.state.calls[i].phase.Prompting? && w.state.calls[i].verifying == 1 && s == Refuse(i)
  {
    hide Backed, NoneForgotten, Lookup, Expire, Remember, Includes;
    assert CallInv(w, w.state.calls[i]);
  }

  /**
   A call is lost exactly when another call's prompt takes the place of its own while no check is under way, or when a
   check fails after that had happened; and a lost call never ends.
   */
  lemma LostIff(w: World, s: Step, i: nat)
    requires Inv(w) && Enabled(w, s) && i < |w.state.calls|
    ensures i < |Next(w, s).state.calls|
    ensures Lost(Next(w, s).state, i) <==>
      || Lost(w.state, i)
      || (w.state.shown == Some(i) && w.state.calls[i].verifying == 0 && Replaces(w, s, i))
      || (w.state.shown != Some(i) && w.state.calls[i].phase.Prompting? && w.state.calls[i].verifying == 1
          && s == Refuse(i))
  {
    hide CallInv, Backed, NoneForgotten, NextState;
    if Subject(s) == Some(i) { LostBySelf(w, s, i); }
    else {
      OthersUntouched(w, s, i);
      if w.state.shown == Some(i) { ShownChanges(w, s, i); } else { ShownOnlyBySelf(w, s, i); }
    }
  }

  // ---------------------------------------------------------------------------
  // How a client gets there
  // ---------------------------------------------------------------------------

  lemma NoSteps(w: World)
    ensures CanRun(w, []) && Run(w, []) == w
  {
  }

  lemma FirstStep(w: World, steps: seq<Step>)
    requires steps != [] && Enabled(w, steps[0]) && CanRun(Next(w, steps[0]), steps[1..])
    ensures CanRun(w, steps) && Run(w, steps) == Run(Next(w, steps[0]), steps[1..])
  {
  }

  /** Two calls for sensitive actions, each refused for want of step-up. */
  function TwoRefusals(path: string, action: string): seq<Step> {
    var refusal := Response(403, StepUpRequired(action));
    [Start(path, true), Start(path, true), Receive(0, refusal), Receive(1, refusal), LookUp(0), LookUp(1)]
  }

  lemma TwoRefused(w0: World, path: string, action: string)
    requires Initial(w0) && !Includes(path, "/auth/step-up")
    ensures var steps := TwoRefusals(path, action);
      var w1 := Next(w0, steps[0]);
      var w2 := Next(w1, steps[1]);
      && Enabled(w2, steps[2])
      && var w3 := Next(w2, steps[2]);
      && Enabled(w3, steps[3])
      && var w4 := Next(w3, steps[3]);
      && w4.state.tokens == map[] && w4.state.shown == None && |w4.state.calls| == 2
      && (forall i :: 0 <= i < 2 ==>
            && w4.state.calls[i].phase == Hashing && w4.state.calls[i].verifying == 0
            && w4.state.calls[i].answer == Some(Response(403, StepUpRequired(action))))
  {
  }

  lemma SecondPromptReplaces(w: World, action: string)
    requires w.state.tokens == map[] && |w.state.calls| == 2
    requires forall i :: 0 <= i < 2 ==>
      && w.state.calls[i].phase == Hashing && w.state.calls[i].verifying == 0
      && w.state.calls[i].answer == Some(Response(403, StepUpRequired(action)))
    ensures Enabled(w, LookUp(0)) && Enabled(Next(w, LookUp(0)), LookUp(1))
    ensures var w' := Next(Next(w, LookUp(0)), LookUp(1));
      0 < |w'.state.calls| && Lost(w'.state, 0) && w'.state.shown == Some(1)
  {
    assert Next(w, LookUp(0)).state.tokens == map[];
  }

  /** A second step-up request while the first prompt is on the screen loses the first call. */
  lemma TwoPromptsLoseOne(w0: World, path: string, action: string)
    requires Initial(w0) && !Includes(path, "/auth/step-up")
    ensures CanRun(w0, TwoRefusals(path, action))
    ensures var c := Run(w0, TwoRefusals(path, action)).state; |c.calls| == 2 && Lost(c, 0)
  {
    var steps := TwoRefusals(path, action);
    TwoRefused(w0, path, action);
    var w1 := Next(w0, steps[0]);
    var w2 := Next(w1, steps[1]);
    var w3 := Next(w2, steps[2]);
    var w4 := Next(w3, steps[3]);
    SecondPromptReplaces(w4, action);
    var w5 := Next(w4, steps[4]);
    var w6 := Next(w5, steps[5]);
    OthersUntouched(w4, steps[4], 1);
    assert |w6.state.calls| == 2;
    hide Next, CanRun, Run;
    NoSteps(w6);
    assert steps[5..][1..] == [];
    FirstStep(w5, steps[5..]);
    assert steps[4..][1..] == steps[5..];
    FirstStep(w4, steps[4..]);
    assert steps[3..][1..] == steps[4..];
    FirstStep(w3, steps[3..]);
    assert steps[2..][1..] == steps[3..];
    FirstStep(w2, steps[2..]);
    assert steps[1..][1..] == steps[2..];
    FirstStep(w1, steps[1..]);
    FirstStep(w0, steps);
  }

  /** A writing call sent before there is a cookie, refreshed, and sent again after the cookie has come. */
  function LateCookie(path: string, cookie: string): seq<Step> {
    [SetCookie(""), Start(path, true), Receive(0, Response(401, NoDenial)), SettleRefresh(0, true), SetCookie(cookie),
      Resume(0)]
  }

  lemma LateCookieSteps(w0: World, path: string, cookie: string)
    requires Initial(w0) && RefreshEligible(path)
    ensures var steps := LateCookie(path, cookie);
      var w1 := Next(w0, steps[0]);
      var w2 := Next(w1, steps[1]);
      && Enabled(w2, steps[2])
      && var w3 := Next(w2, steps[2]);
      && Enabled(w3, steps[3])
      && var w4 := Next(w3, steps[3]);
      var w5 := Next(w4, steps[4]);
      && Enabled(w5, steps[5])
      && var w6 := Next(w5, steps[5]);
      && w6.cookie == cookie && |w6.state.calls| == 1 && |w6.state.calls[0].sends| == 2
      && w6.state.calls[0].sends[1].csrf == Some("")
  {
    hide Includes;
  }

  /** The second sending then goes out without the cookie there is. */
  lemma EmptyCookieIsSentAgain(w0: World, path: string, cookie: string)
    requires Initial(w0) && RefreshEligible(path) && cookie != ""
    ensures CanRun(w0, LateCookie(path, cookie))
    ensures var w := Run(w0, LateCookie(path, cookie));
      && w.cookie == cookie && |w.state.calls| == 1 && |w.state.calls[0].sends| == 2
      && w.state.calls[0].sends[1].csrf != Some(w.cookie)
  {
    var steps := LateCookie(path, cookie);
    LateCookieSteps(w0, path, cookie);
    var w1 := Next(w0, steps[0]);
    var w2 := Next(w1, steps[1]);
    var w3 := Next(w2, steps[2]);
    var w4 := Next(w3, steps[3]);
    var w5 := Next(w4, steps[4]);
    var w6 := Next(w5, steps[5]);
    hide Next, CanRun, Run;
    NoSteps(w6);
    assert steps[5..][1..] == [];
    FirstStep(w5, steps[5..]);
    assert steps[4..][1..] == steps[5..];
    FirstStep(w4, steps[4..]);
    assert steps[3..][1..] == steps[4..];
    FirstStep(w3, steps[3..]);
    assert steps[2..][1..] == steps[3..];
    FirstStep(w2, steps[2..]);
    assert steps[1..][1..] == steps[2..];
    FirstStep(w1, steps[1..]);
    FirstStep(w0, steps);
  }
}
