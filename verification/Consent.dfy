/** The consent controller and the request handler, called one at a time. */
module Consent {
  import opened Wrappers
  import opened Authority

  datatype ConsentRecord = ConsentRecord(target: Target, grant: Grant)
  datatype State = State(grants: Grants, byToken: map<string, ConsentRecord>, byTarget: map<Target, string>)

  const START := State(map[], map[], map[])

  /** What the native side answers to one presentation; `token` is the fresh UUID it is given. */
  datatype Presentation = Presentation(
    token: string, windowOpen: bool, serializes: bool, evaluates: bool, focuses: bool)

  datatype ConsentError = NotPending | WindowError | Serialization
  datatype HandlerError = Refused(error: AuthError) | NotPresented(cause: ConsentError)

  function RemovedRecord(s: State, token: string): State {
    if token !in s.byToken then s
    else
      var t := s.byToken[token].target;
      State(s.grants, s.byToken - {token},
            if t in s.byTarget && s.byTarget[t] == token then s.byTarget - {t} else s.byTarget)
  }

  function Shown(s: State, target: Target, grant: Grant, token: string): State {
    State(s.grants, s.byToken[token := ConsentRecord(target, grant)], s.byTarget[target := token])
  }

  /** `present`: keeps a live dialog for the same grant, otherwise replaces it. */
  function Presented(s: State, target: Target, p: Presentation): (State, Option<ConsentError>) {
    var pending := PendingGrant(s.grants, target);
    if pending.None? then (s, Some(NotPending))
    else
      var grant := pending.value;
      var shown := target in s.byTarget && s.byTarget[target] in s.byToken;
      if shown && s.byToken[s.byTarget[target]].grant == grant then (s, None)
      else
        var s1 := if target in s.byTarget then RemovedRecord(s, s.byTarget[target]) else s;
        if grant.windowSessionId.None? || !p.windowOpen then (s1, Some(WindowError))
        else if !p.serializes then (s1, Some(Serialization))
        else
          var s2 := Shown(s1, target, grant, p.token);
          if !p.evaluates || !p.focuses then (RemovedRecord(s2, p.token), Some(WindowError)) else (s2, None)
  }

  /** `decide_for_window`. */
  function DecidedFor(s: State, token: string, window: string, approve: bool): (State, bool) {
    if token !in s.byToken || s.byToken[token].grant.windowSessionId != Some(window) then (s, false)
    else
      var record := s.byToken[token];
      var s1 := RemovedRecord(s, token);
      var decision := if approve then Authorized else Denied;
      (s1.(grants := Decided(s1.grants, record.target, Some(record.grant), decision).0), true)
  }

  function CancelledIfPending(s: State, token: string): State {
    if token !in s.byToken then s
    else
      var record := s.byToken[token];
      var s1 := RemovedRecord(s, token);
      s1.(grants := Decided(s1.grants, record.target, Some(record.grant), Denied).0)
  }

  function CancelledAll(s: State, tokens: seq<string>): State
    decreases |tokens|
  {
    if tokens == [] then s else CancelledAll(CancelledIfPending(s, tokens[0]), tokens[1..])
  }

  predicate PresentedOn(s: State, token: string, window: string) {
    token in s.byToken && s.byToken[token].grant.windowSessionId == Some(window)
  }

  /** `tokens` lists, in any order, the tokens presented on `window`. */
  ghost predicate TokensOf(s: State, window: string, tokens: seq<string>) {
    forall t :: t in tokens <==> PresentedOn(s, t, window)
  }

  /** The handler's request: start the grant, present it if pending, deny it if that fails. */
  function HandledRequest(s: State, q: GrantRequest, domain: Option<ValidTarget>, p: Presentation)
    : (State, Result<View, HandlerError>)
  {
    var (g, r) := Requested(s.grants, q, domain);
    var s1 := s.(grants := g);
    if r.Err? then (s1, Err(Refused(r.error)))
    else if !r.value.decision.Pending? then (s1, Ok(r.value))
    else
      var (s2, failure) := Presented(s1, r.value.target, p);
      if failure.None? then (s2, Ok(r.value))
      else (s2.(grants := Decided(s2.grants, r.value.target, None, Denied).0), Err(NotPresented(failure.value)))
  }

  /** The destroy hook: the window's own grant is revoked, then its dialogs are cancelled. */
  function Destroyed(s: State, window: string, tokens: seq<string>): State {
    CancelledAll(s.(grants := RevokedAt(s.grants, Window(window))), tokens)
  }

  // ---- the controller ----

  class AuthConsentController {
    const authority: AuthenticatedSessionAuthority
    var byToken: map<string, ConsentRecord>
    var byTarget: map<Target, string>

    function Abs(): State
      reads this, authority
    {
      State(authority.grants, byToken, byTarget)
    }

    constructor (authority: AuthenticatedSessionAuthority)
      ensures this.authority == authority && byToken == map[] && byTarget == map[]
    {
      this.authority := authority;
      byToken, byTarget := map[], map[];
    }

    method RemoveRecord(token: string) returns (r: Option<ConsentRecord>)
      modifies this
      ensures Abs() == RemovedRecord(old(Abs()), token)
      ensures r == if token in old(byToken) then Some(old(byToken)[token]) else None
    {
      if token !in byToken {
        return None;
      }
      var record := byToken[token];
      byToken := byToken - {token};
      if record.target in byTarget && byTarget[record.target] == token {
        byTarget := byTarget - {record.target};
      }
      r := Some(record);
    }

    method Present(target: Target, p: Presentation) returns (failure: Option<ConsentError>)
      modifies this
      ensures (Abs(), failure) == Presented(old(Abs()), target, p)
    {
      var pending := PendingGrant(authority.grants, target);
      if pending.None? {
        return Some(NotPending);
      }
      var grant := pending.value;
      if target in byTarget {
        var token := byTarget[target];
        if token in byToken && byToken[token].grant == grant {
          return None;
        }
        var _ := RemoveRecord(token);
      }
      if grant.windowSessionId.None? || !p.windowOpen {
        return Some(WindowError);
      }
      if !p.serializes {
        return Some(Serialization);
      }
      byToken := byToken[p.token := ConsentRecord(target, grant)];
      byTarget := byTarget[target := p.token];
      if !p.evaluates || !p.focuses {
        var _ := RemoveRecord(p.token);
        return Some(WindowError);
      }
      failure := None;
    }

    method DecideForWindow(token: string, window: string, approve: bool) returns (handled: bool)
      modifies this, authority
      ensures (Abs(), handled) == DecidedFor(old(Abs()), token, window, approve)
    {
      if token !in byToken {
        return false;
      }
      var record := byToken[token];
      if record.grant.windowSessionId != Some(window) {
        return false;
      }
      var _ := RemoveRecord(token);
      var _ := authority.SetPendingDecision(record.target, Some(record.grant), if approve then Authorized else Denied);
      handled := true;
    }

    method CancelWindow(window: string, tokens: seq<string>)
      requires TokensOf(Abs(), window, tokens)
      modifies this, authority
      ensures Abs() == CancelledAll(old(Abs()), tokens)
    {
      var i := 0;
      while i < |tokens|
        invariant 0 <= i <= |tokens|
        invariant CancelledAll(Abs(), tokens[i..]) == CancelledAll(old(Abs()), tokens)
      {
        assert tokens[i..][1..] == tokens[i + 1..];
        var record := RemoveRecord(tokens[i]);
        if record.Some? {
          var _ := authority.SetPendingDecision(record.value.target, Some(record.value.grant), Denied);
        }
        i := i + 1;
      }
    }

    /** The request half of the handler. */
    method HandleRequest(q: GrantRequest, domain: Option<ValidTarget>, p: Presentation)
      returns (r: Result<View, HandlerError>)
      modifies this, authority
      ensures (Abs(), r) == HandledRequest(old(Abs()), q, domain, p)
    {
      var view := authority.Request(q, domain);
      if view.Err? {
        return Err(Refused(view.error));
      }
      if view.value.decision.Pending? {
        var failure := Present(view.value.target, p);
        if failure.Some? {
          var _ := authority.SetPendingDecision(view.value.target, None, Denied);
          return Err(NotPresented(failure.value));
        }
      }
      r := Ok(view.value);
    }

    /** The destroy hook's authority and consent half. */
    method WindowDestroyed(window: string, tokens: seq<string>)
      requires TokensOf(Abs(), window, tokens)
      modifies this, authority
      ensures Abs() == Destroyed(old(Abs()), window, tokens)
    {
      authority.Revoke(Window(window));
      CancelWindow(window, tokens);
    }
  }

  // ---- what every sequence of calls keeps ----

  /** `by_token` and `by_target` are mutually inverse. */
  ghost predicate Inverse(s: State) {
    && (forall k :: k in s.byToken ==>
          s.byToken[k].target in s.byTarget && s.byTarget[s.byToken[k].target] == k
          && s.byToken[k].grant.target == s.byToken[k].target)
    && (forall t :: t in s.byTarget ==> s.byTarget[t] in s.byToken && s.byToken[s.byTarget[t]].target == t)
  }

  /** The pending grant at `t` has a live token carrying exactly it. */
  ghost predicate Answerable(s: State, t: Target) {
    t in s.grants && s.grants[t].decision.Pending? ==>
      t in s.byTarget && s.byTarget[t] in s.byToken && s.byToken[s.byTarget[t]].grant == s.grants[t].grant
  }

  ghost predicate Inv(s: State) {
    GrantsInv(s.grants) && Inverse(s) && forall t :: t in s.grants ==> Answerable(s, t)
  }

  datatype Call =
    | Request(q: GrantRequest, domain: Option<ValidTarget>, p: Presentation)
    | Revoke(key: Target)
    | Decide(token: string, window: string, approve: bool)
    | Destroy(window: string, tokens: seq<string>)
    | SetAvailable(key: Target, available: bool)
    | SetApplied(key: Target, applied: bool)
    | ClearOnce(key: Target)

  function Step(s: State, c: Call): State {
    match c
    case Request(q, domain, p) => HandledRequest(s, q, domain, p).0
    case Revoke(key) => s.(grants := RevokedAt(s.grants, key))
    case Decide(token, window, approve) => DecidedFor(s, token, window, approve).0
    case Destroy(window, tokens) => Destroyed(s, window, tokens)
    case SetAvailable(key, available) => s.(grants := MarkedAvailable(s.grants, key, available).0)
    case SetApplied(key, applied) => s.(grants := MarkedApplied(s.grants, key, applied).0)
    case ClearOnce(key) => s.(grants := ClearedOnce(s.grants, key))
  }

  /** A presentation's token is a fresh UUID; the hook cancels the tokens of its window. */
  ghost predicate Wellformed(s: State, c: Call) {
    && (c.Request? ==> c.p.token !in s.byToken)
    && (c.Destroy? ==> TokensOf(s, c.window, c.tokens))
  }

  lemma RemoveKeepsInverse(s: State, token: string)
    requires Inverse(s)
    ensures Inverse(RemovedRecord(s, token)) && token !in RemovedRecord(s, token).byToken
    ensures forall t :: t in s.byTarget && s.byTarget[t] == token ==> t !in RemovedRecord(s, token).byTarget
    ensures forall t :: t in s.byTarget && s.byTarget[t] != token ==>
              t in RemovedRecord(s, token).byTarget && RemovedRecord(s, token).byTarget[t] == s.byTarget[t]
  {
  }

  ghost predicate OthersAnswerable(s: State, target: Target) {
    forall t :: t in s.grants && t != target ==> Answerable(s, t)
  }

  lemma RemoveKeepsOthers(s: State, target: Target)
    requires Inverse(s) && OthersAnswerable(s, target) && target in s.byTarget
    ensures OthersAnswerable(RemovedRecord(s, s.byTarget[target]), target)
  {
    RemoveKeepsInverse(s, s.byTarget[target]);
  }

  lemma ShownKeeps(s: State, target: Target, grant: Grant, token: string)
    requires Inverse(s) && OthersAnswerable(s, target)
    requires token !in s.byToken && target !in s.byTarget && grant.target == target
    ensures Inverse(Shown(s, target, grant, token)) && OthersAnswerable(Shown(s, target, grant, token), target)
    ensures PendingGrant(s.grants, target) == Some(grant) ==> Answerable(Shown(s, target, grant, token), target)
  {
  }

  /** The state once an earlier dialog for the target is gone. */
  function Vacated(s: State, target: Target): State {
    if target in s.byTarget then RemovedRecord(s, s.byTarget[target]) else s
  }

  lemma VacatedKeeps(s: State, target: Target)
    requires Inverse(s) && OthersAnswerable(s, target)
    ensures var s1 := Vacated(s, target);
            && Inverse(s1) && OthersAnswerable(s1, target) && target !in s1.byTarget
            && s1.grants == s.grants && s1.byToken.Keys <= s.byToken.Keys
  {
    if target in s.byTarget {
      RemoveKeepsInverse(s, s.byTarget[target]);
      RemoveKeepsOthers(s, target);
    }
  }

  lemma WithdrawnKeeps(s: State, target: Target, grant: Grant, token: string)
    requires Inverse(s) && OthersAnswerable(s, target)
    requires token !in s.byToken && target !in s.byTarget && grant.target == target
    ensures var s1 := RemovedRecord(Shown(s, target, grant, token), token);
            Inverse(s1) && OthersAnswerable(s1, target) && s1.grants == s.grants
  {
    ShownKeeps(s, target, grant, token);
    RemoveKeepsInverse(Shown(s, target, grant, token), token);
    RemoveKeepsOthers(Shown(s, target, grant, token), target);
  }

  /** A dialog that already shows the pending grant answers it. */
  lemma ShownAnswers(s: State, target: Target)
    requires target in s.byTarget && s.byTarget[target] in s.byToken
    requires PendingGrant(s.grants, target) == Some(s.byToken[s.byTarget[target]].grant)
    ensures Answerable(s, target)
  {
  }

  /** Presenting a pending grant leaves it answerable, or reports a failure. */
  lemma {:induction false} PresentedKeeps(s: State, target: Target, p: Presentation)
    requires GrantsInv(s.grants) && Inverse(s) && p.token !in s.byToken && OthersAnswerable(s, target)
    ensures var (s1, failure) := Presented(s, target, p);
            && s1.grants == s.grants && Inverse(s1) && OthersAnswerable(s1, target)
            && (failure.None? ==> Answerable(s1, target))
  {
    var pending := PendingGrant(s.grants, target);
    if pending.Some? {
      var s1 := Vacated(s, target);
      VacatedKeeps(s, target);
      ShownKeeps(s1, target, pending.value, p.token);
      WithdrawnKeeps(s1, target, pending.value, p.token);
      if target in s.byTarget && s.byTarget[target] in s.byToken
         && s.byToken[s.byTarget[target]].grant == pending.value {
        ShownAnswers(s, target);
      }
      hide Inverse, OthersAnswerable, Answerable, RemovedRecord, Shown, GrantsInv, PendingGrant;
      assert s1 == if target in s.byTarget then RemovedRecord(s, s.byTarget[target]) else s;
    }
  }

  lemma RequestKeepsInv(s: State, q: GrantRequest, domain: Option<ValidTarget>, p: Presentation)
    requires Inv(s) && p.token !in s.byToken
    ensures Inv(HandledRequest(s, q, domain, p).0)
  {
    RequestedKeeps(s, q, domain);
    hide Requested, Presented, Decided, OthersAnswerable;
    var (g, r) := Requested(s.grants, q, domain);
    var s1 := s.(grants := g);
    if r.Ok? && r.value.decision.Pending? {
      var target := r.value.target;
      PresentedKeeps(s1, target, p);
      var (s2, failure) := Presented(s1, target, p);
      if failure.Some? {
        DenyKeeps(s2, target);
      } else {
        assert forall t :: t in s2.grants && t != target ==> Answerable(s2, t) by {
          AllOthers(s2, target);
        }
      }
    }
  }

  lemma AllOthers(s: State, target: Target)
    requires OthersAnswerable(s, target)
    ensures forall t :: t in s.grants && t != target ==> Answerable(s, t)
  {
  }

  /** A request that does not end pending changes nothing pending; one that does touches its target only. */
  lemma RequestedKeeps(s: State, q: GrantRequest, domain: Option<ValidTarget>)
    requires Inv(s)
    ensures var (g, r) := Requested(s.grants, q, domain);
            var s1 := s.(grants := g);
            && GrantsInv(g) && Inverse(s1)
            && (if r.Ok? && r.value.decision.Pending? then OthersAnswerable(s1, r.value.target) else Inv(s1))
  {
    var g := Requested(s.grants, q, domain).0;
    assert forall t :: t in s.grants ==> Answerable(s, t);
  }

  lemma DenyKeeps(s: State, target: Target)
    requires GrantsInv(s.grants) && Inverse(s) && OthersAnswerable(s, target)
    ensures Inv(s.(grants := Decided(s.grants, target, None, Denied).0))
  {
  }

  /** What deciding an expected grant does to the pending ones. */
  ghost predicate Settles(g: Grants, g1: Grants, key: Target, grant: Grant) {
    forall t :: t in g1 && g1[t].decision.Pending? ==>
      t in g && g1[t] == g[t] && !(t == key && g[t].grant == grant)
  }

  lemma DecidedSettles(g: Grants, key: Target, grant: Grant, d: Decision)
    requires GrantsInv(g) && !d.Pending?
    ensures var g1 := Decided(g, key, Some(grant), d).0; GrantsInv(g1) && Settles(g, g1, key, grant)
  {
  }

  /** Taking a dialog away and settling its grant leaves every other pending grant its dialog. */
  lemma SettledKeepsInv(s: State, token: string, g1: Grants)
    requires Inv(s) && token in s.byToken && GrantsInv(g1)
    requires Settles(s.grants, g1, s.byToken[token].target, s.byToken[token].grant)
    ensures Inv(RemovedRecord(s, token).(grants := g1))
  {
    RemoveKeepsInverse(s, token);
    var s1 := RemovedRecord(s, token).(grants := g1);
    forall t | t in g1
      ensures Answerable(s1, t)
    {
      assert t in s.grants ==> Answerable(s, t);
    }
  }

  lemma CancelKeepsInv(s: State, token: string)
    requires Inv(s)
    ensures Inv(CancelledIfPending(s, token))
  {
    if token in s.byToken {
      var record := s.byToken[token];
      DecidedSettles(s.grants, record.target, record.grant, Denied);
      hide Inv, Decided, Settles, GrantsInv;
      SettledKeepsInv(s, token, Decided(s.grants, record.target, Some(record.grant), Denied).0);
    }
  }

  lemma {:induction false} CancelAllKeepsInv(s: State, tokens: seq<string>)
    requires Inv(s)
    ensures Inv(CancelledAll(s, tokens))
    decreases |tokens|
  {
    if tokens != [] {
      CancelKeepsInv(s, tokens[0]);
      CancelAllKeepsInv(CancelledIfPending(s, tokens[0]), tokens[1..]);
    }
  }

  lemma DecideKeepsInv(s: State, token: string, window: string, approve: bool)
    requires Inv(s)
    ensures Inv(DecidedFor(s, token, window, approve).0)
  {
    if token in s.byToken {
      var record, d := s.byToken[token], if approve then Authorized else Denied;
      DecidedSettles(s.grants, record.target, record.grant, d);
      hide Inv, Decided, Settles, GrantsInv;
      SettledKeepsInv(s, token, Decided(s.grants, record.target, Some(record.grant), d).0);
    }
  }

  ghost predicate NoNewPending(g: Grants, g1: Grants) {
    forall t :: t in g1 && g1[t].decision.Pending? ==> t in g && g1[t] == g[t]
  }

  lemma FlagsKeepInv(s: State, g1: Grants)
    requires Inv(s) && GrantsInv(g1) && NoNewPending(s.grants, g1)
    ensures Inv(s.(grants := g1))
  {
    var s1 := s.(grants := g1);
    forall t | t in g1
      ensures Answerable(s1, t)
    {
      assert t in s.grants ==> Answerable(s, t);
    }
  }

  /** The calls that only mark or withdraw grants. */
  lemma MarkingKeeps(g: Grants, key: Target, b: bool)
    requires GrantsInv(g)
    ensures GrantsInv(MarkedAvailable(g, key, b).0) && NoNewPending(g, MarkedAvailable(g, key, b).0)
    ensures GrantsInv(MarkedApplied(g, key, b).0) && NoNewPending(g, MarkedApplied(g, key, b).0)
  {
  }

  lemma WithdrawingKeeps(g: Grants, key: Target)
    requires GrantsInv(g)
    ensures GrantsInv(RevokedAt(g, key)) && NoNewPending(g, RevokedAt(g, key))
    ensures GrantsInv(ClearedOnce(g, key)) && NoNewPending(g, ClearedOnce(g, key))
  {
  }

  lemma RevokedKeepsInv(s: State, key: Target)
    requires Inv(s)
    ensures Inv(s.(grants := RevokedAt(s.grants, key)))
  {
    WithdrawingKeeps(s.grants, key);
    FlagsKeepInv(s, RevokedAt(s.grants, key));
  }

  lemma StepKeepsInv(s: State, c: Call)
    requires Inv(s) && Wellformed(s, c)
    ensures Inv(Step(s, c))
  {
    assert GrantsInv(s.grants);
    hide Inv, GrantsInv, NoNewPending, HandledRequest, DecidedFor, CancelledAll;
    hide RevokedAt, MarkedAvailable, MarkedApplied, ClearedOnce;
    match c
    case Request(q, domain, p) => RequestKeepsInv(s, q, domain, p);
    case Decide(token, window, approve) => DecideKeepsInv(s, token, window, approve);
    case Destroy(window, tokens) =>
      RevokedKeepsInv(s, Window(window));
      CancelAllKeepsInv(s.(grants := RevokedAt(s.grants, Window(window))), tokens);
    case Revoke(key) => RevokedKeepsInv(s, key);
    case SetAvailable(key, b) =>
      MarkingKeeps(s.grants, key, b);
      FlagsKeepInv(s, MarkedAvailable(s.grants, key, b).0);
    case SetApplied(key, b) =>
      MarkingKeeps(s.grants, key, b);
      FlagsKeepInv(s, MarkedApplied(s.grants, key, b).0);
    case ClearOnce(key) =>
      WithdrawingKeeps(s.grants, key);
      FlagsKeepInv(s, ClearedOnce(s.grants, key));
  }

  ghost predicate Run(states: seq<State>, calls: seq<Call>) {
    && |states| == |calls| + 1 && states[0] == START
    && forall i :: 0 <= i < |calls| ==> Wellformed(states[i], calls[i]) && states[i + 1] == Step(states[i], calls[i])
  }

  /** Over every sequence of calls no pending grant is stuck without its dialog, and no dialog is orphaned. */
  lemma {:induction false} NoStuckConsent(states: seq<State>, calls: seq<Call>, k: nat)
    requires Run(states, calls) && k <= |calls|
    ensures Inv(states[k])
  {
    if k > 0 {
      NoStuckConsent(states, calls, k - 1);
      StepKeepsInv(states[k - 1], calls[k - 1]);
    }
  }

  // ---- the destroy hook ----

  ghost predicate OnlySettles(g: Grants, g1: Grants) {
    g1.Keys == g.Keys &&
    forall t :: t in g ==> g1[t].grant == g[t].grant && (g1[t].decision.Authorized? ==> g[t].decision.Authorized?)
  }

  lemma CancelCancels(s: State, token: string)
    requires Inv(s)
    ensures var r := CancelledIfPending(s, token);
            r.byToken == s.byToken - {token} && OnlySettles(s.grants, r.grants)
  {
  }

  lemma {:induction false} CancelAllCancels(s: State, tokens: seq<string>)
    requires Inv(s)
    ensures var r := CancelledAll(s, tokens);
            r.byToken == s.byToken - (set t | t in tokens) && OnlySettles(s.grants, r.grants)
    decreases |tokens|
  {
    if tokens != [] {
      CancelKeepsInv(s, tokens[0]);
      CancelCancels(s, tokens[0]);
      hide Inv, CancelledIfPending;
      CancelAllCancels(CancelledIfPending(s, tokens[0]), tokens[1..]);
      assert tokens == [tokens[0]] + tokens[1..];
    }
  }

  /** Once a window is destroyed, no grant presented on it is pending, no dialog of it is left and its own
      grant is not authorized. */
  lemma DestroyLeavesNothingPending(s: State, window: string, tokens: seq<string>)
    requires Inv(s) && TokensOf(s, window, tokens)
    ensures var r := Destroyed(s, window, tokens);
            && (forall t :: t in r.grants && r.grants[t].grant.windowSessionId == Some(window) ==>
                  !r.grants[t].decision.Pending?)
            && (forall k :: k in r.byToken ==> r.byToken[k].grant.windowSessionId != Some(window))
            && (Window(window) in r.grants ==> !r.grants[Window(window)].decision.Authorized?)
  {
    var s1 := s.(grants := RevokedAt(s.grants, Window(window)));
    CancelAllKeepsInv(s1, tokens);
    CancelAllCancels(s1, tokens);
    var r := Destroyed(s, window, tokens);
    forall k | k in r.byToken
      ensures r.byToken[k].grant.windowSessionId != Some(window)
    {
      assert !PresentedOn(s, k, window);
    }
    forall t | t in r.grants && r.grants[t].grant.windowSessionId == Some(window)
      ensures !r.grants[t].decision.Pending?
    {
      assert Answerable(r, t);
    }
  }

  // ---- what a request comes to ----

  predicate IsPending(g: Grants, t: Target) { t in g && g[t].decision.Pending? }

  ghost predicate HasDialog(d: map<string, ConsentRecord>, t: Target) { exists k :: k in d && d[k].target == t }

  /** Some live dialog shows exactly this grant. */
  ghost predicate Showing(d: map<string, ConsentRecord>, t: Target, grant: Grant) {
    exists k :: k in d && d[k] == ConsentRecord(t, grant)
  }

  predicate NativeWorks(p: Presentation) { p.windowOpen && p.serializes && p.evaluates && p.focuses }

  /** The dialogs of the other targets stay as they are. */
  ghost predicate OtherDialogsStay(d: map<string, ConsentRecord>, d1: map<string, ConsentRecord>, target: Target) {
    && (forall k :: k in d && d[k].target != target ==> k in d1 && d1[k] == d[k])
    && (forall k :: k in d1 && d1[k].target != target ==> k in d)
  }

  lemma ShowingIsByTarget(s: State, t: Target, grant: Grant)
    requires Inverse(s)
    ensures Showing(s.byToken, t, grant) <==> t in s.byTarget && s.byToken[s.byTarget[t]].grant == grant
    ensures HasDialog(s.byToken, t) <==> t in s.byTarget
  {
    if t in s.byTarget {
      assert s.byTarget[t] in s.byToken && s.byToken[s.byTarget[t]].target == t;
    }
  }

  /** A presentation succeeds if and only if a grant is pending and either a live dialog already shows it, which is
      then left alone, or every native answer is good, and then the fresh token shows exactly it. A failure leaves
      the target without a dialog unless nothing was pending. */
  lemma {:induction false} PresentedIff(s: State, target: Target, p: Presentation)
    requires GrantsInv(s.grants) && Inverse(s) && p.token !in s.byToken
    ensures var (s1, failure) := Presented(s, target, p);
            if !IsPending(s.grants, target) then s1 == s && failure == Some(NotPending)
            else
              var grant := s.grants[target].grant;
              && (failure.None? <==> Showing(s.byToken, target, grant) || NativeWorks(p))
              && (Showing(s.byToken, target, grant) ==> s1 == s)
              && (failure.None? && !Showing(s.byToken, target, grant) ==>
                    && target in s1.byTarget && s1.byTarget[target] == p.token
                    && p.token in s1.byToken && s1.byToken[p.token] == ConsentRecord(target, grant))
              && (failure.Some? ==> !HasDialog(s1.byToken, target))
              && (failure == Some(Serialization)
                  <==> !Showing(s.byToken, target, grant) && p.windowOpen && !p.serializes)
    ensures var s1 := Presented(s, target, p).0;
            s1.grants == s.grants && OtherDialogsStay(s.byToken, s1.byToken, target)
  {
    if IsPending(s.grants, target) {
      ShowingIsByTarget(s, target, s.grants[target].grant);
    }
  }

  /** A grant that has just become pending, presented and denied again if that fails. */
  lemma {:induction false} PendingEnds(s: State, asked: Grant, p: Presentation)
    requires GrantsInv(s.grants) && Inverse(s) && p.token !in s.byToken
    requires asked.target in s.grants && s.grants[asked.target] == GrantRecord(asked, Pending, false, false)
    ensures var key := asked.target;
            var (s1, failure) := Presented(s, key, p);
            var denied := s1.(grants := Decided(s1.grants, key, None, Denied).0);
            && OtherDialogsStay(s.byToken, s1.byToken, key) && OtherDialogsStay(s.byToken, denied.byToken, key)
            && s1.grants == s.grants
            && if Showing(s.byToken, key, asked) || NativeWorks(p) then failure.None? && Showing(s1.byToken, key, asked)
               else
                 && failure.Some? && !HasDialog(denied.byToken, key)
                 && denied.grants == s.grants[key := GrantRecord(asked, Denied, false, false)]
  {
    PresentedIff(s, asked.target, p);
    hide Presented, GrantsInv, Inverse;
  }

  /** What the handler does with the answer of the authority. */
  lemma HandledIs(s: State, q: GrantRequest, domain: Option<ValidTarget>, p: Presentation, g: Grants,
                  r: Result<View, AuthError>)
    requires (g, r) == Requested(s.grants, q, domain)
    ensures r.Err? ==> HandledRequest(s, q, domain, p) == (s.(grants := g), Err(Refused(r.error)))
    ensures r.Ok? && !r.value.decision.Pending? ==> HandledRequest(s, q, domain, p) == (s.(grants := g), Ok(r.value))
    ensures r.Ok? && r.value.decision.Pending? ==>
              var (s1, failure) := Presented(s.(grants := g), r.value.target, p);
              HandledRequest(s, q, domain, p)
              == if failure.None? then (s1, Ok(r.value))
                 else (s1.(grants := Decided(s1.grants, r.value.target, None, Denied).0),
                       Err(NotPresented(failure.value)))
  {
    hide Requested, Presented, Decided;
  }

  lemma NewlyPending(s: State, q: GrantRequest, domain: Option<ValidTarget>, asked: Grant)
    requires Inv(s) && AsksFor(q, domain, asked)
    ensures var s0 := s.(grants := s.grants[asked.target := GrantRecord(asked, Pending, false, false)]);
            GrantsInv(s0.grants) && Inverse(s0)
  {
  }

  /** The grant asked for is pending and a live dialog shows exactly it. */
  ghost predicate EndsPending(s: State, q: GrantRequest, asked: Grant, s1: State, r: Result<View, HandlerError>) {
    && r == Ok(View(asked.target, asked.domain, q.browser, q.scope, Pending, false, false, q.reason))
    && s1.grants == s.grants[asked.target := GrantRecord(asked, Pending, false, false)]
    && Showing(s1.byToken, asked.target, asked)
  }

  /** The grant asked for is denied and its target has no dialog. */
  ghost predicate EndsDenied(s: State, asked: Grant, s1: State, r: Result<View, HandlerError>) {
    && r.Err? && r.error.NotPresented?
    && s1.grants == s.grants[asked.target := GrantRecord(asked, Denied, false, false)]
    && !HasDialog(s1.byToken, asked.target)
  }

  lemma {:induction false} NewRequestEnds(s: State, q: GrantRequest, domain: Option<ValidTarget>, p: Presentation,
                                          asked: Grant)
    requires Inv(s) && p.token !in s.byToken && AsksFor(q, domain, asked)
    requires asked.target in s.grants ==>
               !AlreadyCovers(s.grants[asked.target], asked) && !s.grants[asked.target].applied
    ensures var (s1, r) := HandledRequest(s, q, domain, p);
            && OtherDialogsStay(s.byToken, s1.byToken, asked.target)
            && if Showing(s.byToken, asked.target, asked) || NativeWorks(p) then EndsPending(s, q, asked, s1, r)
               else EndsDenied(s, asked, s1, r)
  {
    var s0 := s.(grants := s.grants[asked.target := GrantRecord(asked, Pending, false, false)]);
    var view := View(asked.target, asked.domain, q.browser, q.scope, Pending, false, false, q.reason);
    assert Requested(s.grants, q, domain) == (s0.grants, Ok(view)) by {
      RequestedIff(s.grants, q, domain, asked);
    }
    HandledIs(s, q, domain, p, s0.grants, Ok(view));
    NewlyPending(s, q, domain, asked);
    hide Presented, Requested, HandledRequest, Inv, Inverse, GrantsInv, Showing, HasDialog, AsksFor, Decided;
    hide AlreadyCovers, NativeWorks, OtherDialogsStay;
    PendingEnds(s0, asked, p);
  }

  /** Everything a request can come to, for the grant it asks for. With an authorization of the same browser, scope
      and domain it is answered and nothing changes; while the target's grant is applied it is refused and nothing
      changes; else it ends pending with a live dialog that shows exactly the grant asked for, if one showed it
      already or every native answer is good, and denied without a dialog if not. */
  lemma {:induction false} RequestEnds(s: State, q: GrantRequest, domain: Option<ValidTarget>, p: Presentation,
                                       asked: Grant)
    requires Inv(s) && p.token !in s.byToken && AsksFor(q, domain, asked)
    ensures var (s1, r) := HandledRequest(s, q, domain, p);
            var key := asked.target;
            if key in s.grants && AlreadyCovers(s.grants[key], asked) then
              s1 == s && r.Ok? && r.value.decision == Authorized
            else if key in s.grants && s.grants[key].applied then s1 == s && r == Err(Refused(GrantInUse))
            else if Showing(s.byToken, key, asked) || NativeWorks(p) then EndsPending(s, q, asked, s1, r)
            else EndsDenied(s, asked, s1, r)
    ensures OtherDialogsStay(s.byToken, HandledRequest(s, q, domain, p).0.byToken, asked.target)
  {
    hide HandledRequest, Inv, AsksFor, Showing, EndsPending, EndsDenied, NativeWorks, AlreadyCovers, Requested;
    if asked.target in s.grants && (AlreadyCovers(s.grants[asked.target], asked) || s.grants[asked.target].applied) {
      var (g, r) := Requested(s.grants, q, domain);
      RequestedIff(s.grants, q, domain, asked);
      HandledIs(s, q, domain, p, g, r);
    } else {
      NewRequestEnds(s, q, domain, p, asked);
    }
  }

  /** A decision from the window that presents the dialog settles exactly the grant shown, if it is still pending,
      as decided; it changes nothing otherwise and uses the token up. Any other decision changes nothing. */
  lemma DecisionIsExact(s: State, token: string, window: string, approve: bool)
    requires Inv(s)
    ensures var (r, handled) := DecidedFor(s, token, window, approve);
            && (handled <==> PresentedOn(s, token, window))
            && (!handled ==> r == s)
            && (handled ==>
                  var shown := s.byToken[token];
                  && r.byToken == s.byToken - {token} && r.grants.Keys == s.grants.Keys
                  && forall t :: t in s.grants ==>
                       r.grants[t]
                       == if t == shown.target && s.grants[t] == GrantRecord(shown.grant, Pending, false, false)
                          then GrantRecord(shown.grant, if approve then Authorized else Denied, false, false)
                          else s.grants[t])
  {
  }

  // ---- what the destroy hook does ----

  /** The record once the dialogs of `tokens` are cancelled. */
  ghost predicate CancelledRecord(s: State, tokens: seq<string>, t: Target, r: GrantRecord)
    requires t in s.grants
  {
    r == if s.grants[t].decision == Pending && t in s.byTarget && s.byTarget[t] in tokens
         then GrantRecord(s.grants[t].grant, Denied, false, false) else s.grants[t]
  }

  lemma CancelIsExact(s: State, token: string)
    requires Inv(s)
    ensures var r := CancelledIfPending(s, token);
            && r.grants.Keys == s.grants.Keys
            && (forall t :: t in s.grants ==> CancelledRecord(s, [token], t, r.grants[t]))
            && (forall t :: t in s.grants && r.grants[t].decision == Pending ==>
                  t in s.byTarget && t in r.byTarget && r.byTarget[t] == s.byTarget[t])
  {
    assert forall t :: t in s.grants ==> Answerable(s, t);
  }

  lemma {:induction false} CancelAllIsExact(s: State, tokens: seq<string>)
    requires Inv(s)
    ensures var r := CancelledAll(s, tokens);
            && r.grants.Keys == s.grants.Keys
            && (forall t :: t in s.grants ==> CancelledRecord(s, tokens, t, r.grants[t]))
    decreases |tokens|
  {
    if tokens != [] {
      var s1 := CancelledIfPending(s, tokens[0]);
      CancelIsExact(s, tokens[0]);
      CancelKeepsInv(s, tokens[0]);
      hide Inv, CancelledIfPending;
      CancelAllIsExact(s1, tokens[1..]);
      assert tokens == [tokens[0]] + tokens[1..];
      forall t | t in s.grants
        ensures CancelledRecord(s, tokens, t, CancelledAll(s, tokens).grants[t])
      {
        assert CancelledRecord(s, [tokens[0]], t, s1.grants[t]);
        assert CancelledRecord(s1, tokens[1..], t, CancelledAll(s1, tokens[1..]).grants[t]);
      }
    }
  }

  /** Destroying a window takes its dialogs away, revokes the window's own grant, denies the other grants pending on
      it, and changes nothing else. */
  lemma {:induction false} DestroyIsExact(s: State, window: string, tokens: seq<string>)
    requires Inv(s) && TokensOf(s, window, tokens)
    ensures var r := Destroyed(s, window, tokens);
            && r.byToken
               == (map k | k in s.byToken && s.byToken[k].grant.windowSessionId != Some(window) :: s.byToken[k])
            && r.grants.Keys == s.grants.Keys
            && forall t :: t in s.grants ==>
                 r.grants[t]
                 == if t == Window(window) then GrantRecord(s.grants[t].grant, Revoked, false, false)
                    else if s.grants[t].decision == Pending && s.grants[t].grant.windowSessionId == Some(window)
                    then GrantRecord(s.grants[t].grant, Denied, false, false)
                    else s.grants[t]
  {
    var s1 := s.(grants := RevokedAt(s.grants, Window(window)));
    RevokedKeepsInv(s, Window(window));
    CancelAllIsExact(s1, tokens);
    CancelAllCancels(s1, tokens);
    forall t | t in s.grants && s.grants[t].decision == Pending
      ensures t in s.byTarget && (s.byTarget[t] in tokens <==> s.grants[t].grant.windowSessionId == Some(window))
    {
      assert Answerable(s, t);
      assert s.byTarget[t] in tokens <==> PresentedOn(s, s.byTarget[t], window);
    }
    forall t | t in s.grants
      ensures CancelledRecord(s1, tokens, t, Destroyed(s, window, tokens).grants[t])
    {
    }
    forall k | k in s.byToken
      ensures k in tokens <==> s.byToken[k].grant.windowSessionId == Some(window)
    {
      assert k in tokens <==> PresentedOn(s, k, window);
    }
  }
}
