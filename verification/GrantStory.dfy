/** A grant from the request to its end, when every part answers well: what the whole protocol is for. */
module GrantStory {
  import opened Wrappers
  import opened Authority
  import opened Cookies
  import opened CookieTracking
  import opened GrantFlags
  import Broker
  import Consent

  /** A dialog on the grant's own window asks for it. */
  lemma {:induction false} RequestAsks(s: World, q: GrantRequest, domain: Option<ValidTarget>, p: Consent.Presentation,
                                       asked: Grant)
    requires Inv(s) && Wellformed(s, Request(q, domain, p)) && AsksFor(q, domain, asked) && Consent.NativeWorks(p)
    requires asked.target in s.dialogs.grants ==>
               !AlreadyCovers(s.dialogs.grants[asked.target], asked) && !s.dialogs.grants[asked.target].applied
    ensures var s1 := Step(s, Request(q, domain, p));
            && Inv(s1) && Consent.Showing(s1.dialogs.byToken, asked.target, asked)
            && s1.dialogs.grants == s.dialogs.grants[asked.target := GrantRecord(asked, Pending, false, false)]
            && s1.sessions == s.sessions && s1.applied == s.applied && s1.jars == s.jars
  {
    StepKeepsInv(s, Request(q, domain, p));
    Consent.RequestEnds(s.dialogs, q, domain, p, asked);
    hide Consent.HandledRequest, Consent.Inv, AsksFor, Consent.Showing, AlreadyCovers;
  }

  /** Approved in that window, it is authorized. */
  lemma {:induction false} ApprovalAuthorizes(s: World, token: string, asked: Grant)
    requires Inv(s) && asked.windowSessionId.Some? && asked.target in s.dialogs.grants
    requires s.dialogs.grants[asked.target] == GrantRecord(asked, Pending, false, false)
    requires token in s.dialogs.byToken && s.dialogs.byToken[token] == Consent.ConsentRecord(asked.target, asked)
    ensures var s1 := Step(s, Decide(token, asked.windowSessionId.value, true));
            && Inv(s1)
            && s1.dialogs.grants == s.dialogs.grants[asked.target := GrantRecord(asked, Authorized, false, false)]
            && s1.sessions == s.sessions && s1.applied == s.applied && s1.jars == s.jars
  {
    StepKeepsInv(s, Decide(token, asked.windowSessionId.value, true));
    Consent.DecisionIsExact(s.dialogs, token, asked.windowSessionId.value, true);
    hide Inv, Consent.Inv, Consent.DecidedFor;
    assert Step(s, Decide(token, asked.windowSessionId.value, true)).dialogs.grants
        == s.dialogs.grants[asked.target := GrantRecord(asked, Authorized, false, false)];
  }

  /** Its cookies brokered, it is available. */
  lemma {:induction false} CookiesAreBrokered(s: World, asked: Grant, cookies: seq<BrokeredCookie>)
    requires Inv(s) && asked.target in s.dialogs.grants && asked.browser == Firefox && cookies != []
    requires s.dialogs.grants[asked.target] == GrantRecord(asked, Authorized, false, false)
    ensures var s1 := Step(s, Acquire(asked.target, Ok(cookies)));
            && Inv(s1) && s1.sessions == s.sessions[asked.target := cookies]
            && s1.dialogs.grants == s.dialogs.grants[asked.target := GrantRecord(asked, Authorized, true, false)]
            && s1.applied == s.applied && s1.jars == s.jars
  {
    StepKeepsInv(s, Acquire(asked.target, Ok(cookies)));
    Broker.AcquiredIff(s.dialogs.grants, s.sessions, asked.target, Ok(cookies));
    hide Inv, Broker.Acquired;
  }

  /** Applied to its window, they are in that window and tracked. */
  lemma {:induction false} CookiesAreApplied(s: World, asked: Grant, cookies: seq<BrokeredCookie>, window: string,
                                             n: ApplyNative)
    requires Inv(s) && asked.target in s.dialogs.grants && asked.target in s.sessions
    requires s.sessions[asked.target] == cookies
    requires s.dialogs.grants[asked.target] == GrantRecord(asked, Authorized, true, false)
    requires asked.target.Window? ==> asked.target.windowSessionId == window
    requires n.profile && n.cookieWindow && n.shows && forall i :: n.installs(i)
    ensures var s1 := Step(s, Apply(asked.target, window, n));
            && Inv(s1)
            && s1.dialogs.grants == s.dialogs.grants[asked.target := GrantRecord(asked, Authorized, true, true)]
            && asked.target in s1.applied && s1.applied[asked.target].windowSessionId == window
            && s1.applied[asked.target].cookies == TrackedAll(cookies)
            && forall c :: c in TrackedAll(cookies) ==> c in Jar(s1.jars, window)
  {
    StepKeepsInv(s, Apply(asked.target, window, n));
    assert Reaches(Creds(s), asked.target, window, n);
    hide Inv, Applied, Reaches;
    ApplyOkIff(Creds(s), asked.target, window, n);
    ApplyOkMeans(Creds(s), asked.target, window, n);
  }

  /** Revoked, nothing of it is left: not the authorization, not the session tracked, not one of its cookies. */
  lemma {:induction false} RevocationEnds(s: World, key: Target, n: RevokeNative)
    requires Inv(s) && key in s.applied && key in s.dialogs.grants
    requires n.handle && (n.webVideo ==> n.restores) && forall i :: n.deletes(i)
    ensures var s1, session := Step(s, Revoke(key, n)), s.applied[key];
            && s1.dialogs.grants
               == s.dialogs.grants[key := GrantRecord(s.dialogs.grants[key].grant, Revoked, false, false)]
            && key !in s1.applied && forall c :: c in session.cookies ==> c !in Jar(s1.jars, session.windowSessionId)
  {
    var s0 := s.(dialogs := s.dialogs.(grants := RevokedAt(s.dialogs.grants, key)));
    RevokeOkIff(Creds(s0), key, n);
    RevokeExact(Creds(s0), key, n);
    assert MarkedApplied(s0.dialogs.grants, key, false).0 == s0.dialogs.grants;
    hide Undeleted, Cleaned;
  }

  /** From any state the calls can reach: a request for a Firefox grant that is neither in use nor authorized already,
      approved in its window, its cookies brokered and applied, ends with the grant authorized, available and applied
      and every cookie in the window and tracked; and a revoke then ends with none of that left. */
  lemma {:induction false} ApprovedGrantRuns(s: World, q: GrantRequest, domain: Option<ValidTarget>,
                                             p: Consent.Presentation, asked: Grant, token: string,
                                             cookies: seq<BrokeredCookie>, window: string, n: ApplyNative,
                                             m: RevokeNative)
    requires Inv(s) && Wellformed(s, Request(q, domain, p)) && AsksFor(q, domain, asked) && Consent.NativeWorks(p)
    requires asked.target in s.dialogs.grants ==>
               !AlreadyCovers(s.dialogs.grants[asked.target], asked) && !s.dialogs.grants[asked.target].applied
    requires var dialogs := Step(s, Request(q, domain, p)).dialogs.byToken;
             token in dialogs && dialogs[token] == Consent.ConsentRecord(asked.target, asked)
    requires asked.browser == Firefox && cookies != []
    requires asked.target.Window? ==> asked.target.windowSessionId == window
    requires n.profile && n.cookieWindow && n.shows && forall i :: n.installs(i)
    requires m.handle && (m.webVideo ==> m.restores) && forall i :: m.deletes(i)
    ensures asked.windowSessionId.Some?
    ensures var key := asked.target;
            var approved := Step(Step(s, Request(q, domain, p)), Decide(token, asked.windowSessionId.value, true));
            var applied := Step(Step(approved, Acquire(key, Ok(cookies))), Apply(key, window, n));
            var revoked := Step(applied, Revoke(key, m));
            && key in applied.dialogs.grants
            && applied.dialogs.grants[key] == GrantRecord(asked, Authorized, true, true)
            && (forall c :: c in TrackedAll(cookies) ==>
                  && c in Jar(applied.jars, window) && IsTracked(Creds(applied), window, c)
                  && c !in Jar(revoked.jars, window))
            && key in revoked.dialogs.grants
            && revoked.dialogs.grants[key] == GrantRecord(asked, Revoked, false, false) && key !in revoked.applied
  {
    var key := asked.target;
    var requested := Step(s, Request(q, domain, p));
    RequestAsks(s, q, domain, p, asked);
    assert asked.windowSessionId.Some?;
    hide Inv, Step, AsksFor, AlreadyCovers, Wellformed, Consent.NativeWorks;
    var approved := Step(requested, Decide(token, asked.windowSessionId.value, true));
    ApprovalAuthorizes(requested, token, asked);
    var brokered := Step(approved, Acquire(key, Ok(cookies)));
    CookiesAreBrokered(approved, asked, cookies);
    var applied := Step(brokered, Apply(key, window, n));
    CookiesAreApplied(brokered, asked, cookies, window, n);
    RevocationEnds(applied, key, m);
    forall c | c in TrackedAll(cookies)
      ensures IsTracked(Creds(applied), window, c)
    {
      assert c in CookiesOf(Creds(applied), key, window);
    }
  }

  /** The hook of a closing window, and that of a destroyed one, leave nothing of the session tracked for it when every
      deletion works. */
  lemma {:induction false} WindowEnds(s: World, window: string, tokens: seq<string>, key: Target, n: RevokeNative)
    requires Inv(s) && key in s.applied && s.applied[key].windowSessionId == window
    requires Consent.TokensOf(s.dialogs, window, tokens)
    requires n.handle && (n.webVideo ==> n.restores) && forall i :: n.deletes(i)
    ensures var closed := Step(s, BeforeClose(window, Some(key), n));
            var destroyed := Step(s, Destroy(window, tokens, Some(key), n));
            && key !in closed.applied && key !in destroyed.applied
            && (key in closed.dialogs.grants ==> !closed.dialogs.grants[key].applied)
            && (forall c :: c in s.applied[key].cookies ==>
                  c !in Jar(closed.jars, window) && c !in Jar(destroyed.jars, window))
  {
    var gone := s.(dialogs := Consent.Destroyed(s.dialogs, window, tokens));
    RevokeOkIff(Creds(s), key, n);
    RevokeExact(Creds(s), key, n);
    RevokeOkIff(Creds(gone), key, n);
    RevokeExact(Creds(gone), key, n);
    hide Undeleted, Cleaned, Withdrawn, Consent.Destroyed;
  }
}
