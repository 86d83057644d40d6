/** The grant flags against the components behind them, over every sequence of API calls: authority,
    consent, broker and applier together. */
module GrantFlags {
  import opened Wrappers
  import opened Authority
  import opened Cookies
  import opened CookieTracking
  import Broker
  import Consent

  datatype World = World(dialogs: Consent.State, sessions: Broker.Sessions, applied: map<Target, AppliedSession>,
                         jars: Jars)

  const START := World(Consent.START, map[], map[], map[])

  function Creds(s: World): Credentials { Credentials(s.dialogs.grants, s.sessions, s.applied, s.jars) }

  function WithCreds(s: World, c: Credentials): World {
    World(s.dialogs.(grants := c.grants), c.sessions, c.applied, c.jars)
  }

  datatype Call =
    | Request(q: GrantRequest, domain: Option<ValidTarget>, p: Consent.Presentation)
    | Decide(token: string, window: string, approve: bool)
    | Acquire(key: Target, loaded: Result<seq<BrokeredCookie>, Broker.BrokerError>)
    | Discard(key: Target)
    | Apply(key: Target, window: string, apply: ApplyNative)
    | Revoke(key: Target, native: RevokeNative)
    | ClearOnce(key: Target)
    | BeforeClose(window: string, chosen: Option<Target>, native: RevokeNative)
    | Destroy(window: string, tokens: seq<string>, chosen: Option<Target>, native: RevokeNative)
    | PageSets(window: string, cookie: AppliedCookie) // the page in the window stores a cookie of its own

  /** Revoke the applied target of a window, if it has one. */
  function WithdrawnFrom(s: World, chosen: Option<Target>, n: RevokeNative): World {
    if chosen.None? then s else WithCreds(s, Withdrawn(Creds(s), chosen.value, n).0)
  }

  function Step(s: World, c: Call): World {
    match c
    case Request(q, domain, p) => s.(dialogs := Consent.HandledRequest(s.dialogs, q, domain, p).0)
    case Decide(token, window, approve) => s.(dialogs := Consent.DecidedFor(s.dialogs, token, window, approve).0)
    case Acquire(key, loaded) =>
      var (g, sessions, _) := Broker.Acquired(s.dialogs.grants, s.sessions, key, loaded);
      s.(dialogs := s.dialogs.(grants := g), sessions := sessions)
    case Discard(key) =>
      var (g, sessions) := Broker.Discarded(s.dialogs.grants, s.sessions, key);
      s.(dialogs := s.dialogs.(grants := g), sessions := sessions)
    case Apply(key, window, n) => WithCreds(s, Applied(Creds(s), key, window, n).0)
    case Revoke(key, n) =>
      WithdrawnFrom(s.(dialogs := s.dialogs.(grants := RevokedAt(s.dialogs.grants, key))), Some(key), n)
    case ClearOnce(key) => s.(dialogs := s.dialogs.(grants := ClearedOnce(s.dialogs.grants, key)))
    case BeforeClose(window, chosen, n) => WithdrawnFrom(s, chosen, n)
    case Destroy(window, tokens, chosen, n) =>
      WithdrawnFrom(s.(dialogs := Consent.Destroyed(s.dialogs, window, tokens)), chosen, n)
    case PageSets(window, cookie) => s.(jars := s.jars[window := Jar(s.jars, window) + {cookie}])
  }

  /** `chosen` is some target tracked for the window, and None only when there is none. */
  ghost predicate TargetOf(applied: map<Target, AppliedSession>, window: string, chosen: Option<Target>) {
    if chosen.Some? then chosen.value in applied && applied[chosen.value].windowSessionId == window
    else forall t :: t in applied ==> applied[t].windowSessionId != window
  }

  ghost predicate Wellformed(s: World, c: Call) {
    && (c.Request? ==> c.p.token !in s.dialogs.byToken)
    && (c.BeforeClose? ==> TargetOf(s.applied, c.window, c.chosen))
    && (c.Destroy? ==> Consent.TokensOf(s.dialogs, c.window, c.tokens) && TargetOf(s.applied, c.window, c.chosen))
  }

  // ---- the handler and its hooks ----

  /** The components as the daemon wires them: one authority behind all of them. */
  class AuthHandler {
    const consent: Consent.AuthConsentController
    const webkit: AuthenticatedSessionWebKit

    constructor (consent: Consent.AuthConsentController, webkit: AuthenticatedSessionWebKit)
      ensures this.consent == consent && this.webkit == webkit
    {
      this.consent, this.webkit := consent, webkit;
    }

    ghost predicate Wired() { consent.authority == webkit.authority }

    function State(): World
      reads consent, consent.authority, webkit, webkit.authority, webkit.broker
    {
      World(consent.Abs(), webkit.broker.sessions, webkit.applied, webkit.jars)
    }

    /** The revoke half of the handler: the grant first, then its cookies. */
    method HandleRevoke(key: Target, n: RevokeNative) returns (failure: Option<ApplyError>)
      requires Wired()
      modifies consent.authority, webkit
      ensures State() == Step(old(State()), Revoke(key, n))
    {
      consent.authority.Revoke(key);
      failure := webkit.Revoke(key, n);
    }

    /** The hook before a window closes. */
    method BeforeClose(window: string, chosen: Option<Target>, n: RevokeNative) returns (failure: Option<ApplyError>)
      requires Wired()
      modifies consent.authority, webkit
      ensures State() == Step(old(State()), Call.BeforeClose(window, chosen, n))
    {
      failure := None;
      if chosen.Some? {
        failure := webkit.Revoke(chosen.value, n);
      }
    }

    /** The whole destroy hook: the window's grant, its dialogs, then its cookies. */
    method AfterDestroy(window: string, tokens: seq<string>, chosen: Option<Target>, n: RevokeNative)
      requires Wired() && Consent.TokensOf(consent.Abs(), window, tokens)
      modifies consent, consent.authority, webkit
      ensures State() == Step(old(State()), Destroy(window, tokens, chosen, n))
    {
      consent.WindowDestroyed(window, tokens);
      if chosen.Some? {
        var _ := webkit.Revoke(chosen.value, n);
      }
    }
  }

  // ---- the invariant ----

  ghost predicate Backed(g: Grants, sessions: Broker.Sessions, applied: map<Target, AppliedSession>) {
    forall t :: t in g ==>
      && (g[t].available ==> t in sessions && sessions[t] != [])
      && (g[t].applied ==> t in applied)
  }

  ghost predicate Inv(s: World) {
    Consent.Inv(s.dialogs) && Backed(s.dialogs.grants, s.sessions, s.applied)
  }

  /** Consent calls and revocations never raise a flag nor touch a record whose cookies stay available. */
  ghost predicate OnlyLowers(g: Grants, g1: Grants) {
    forall t :: t in g1 && g1[t].available ==> t in g && g1[t] == g[t]
  }

  /** A grant applied before and after has the same contents. */
  ghost predicate AppliedStays(g: Grants, g1: Grants) {
    forall t :: t in g && t in g1 && g[t].applied && g1[t].applied ==> g1[t].grant == g[t].grant
  }

  /** No grant becomes applied, and none that is changes its contents. */
  ghost predicate NoneApplied(g: Grants, g1: Grants) {
    forall t :: t in g1 && g1[t].applied ==> t in g && g[t].applied && g1[t].grant == g[t].grant
  }

  lemma LowersApplies(g: Grants, g1: Grants)
    requires OnlyLowers(g, g1) && GrantsInv(g1)
    ensures NoneApplied(g, g1)
  {
  }

  lemma DecidedOnlyLowers(g: Grants, key: Target, expected: Option<Grant>, d: Decision)
    requires GrantsInv(g)
    ensures OnlyLowers(g, Decided(g, key, expected, d).0) && GrantsInv(Decided(g, key, expected, d).0)
  {
  }

  lemma RequestOnlyLowers(s: Consent.State, q: GrantRequest, domain: Option<ValidTarget>, p: Consent.Presentation)
    requires GrantsInv(s.grants)
    ensures OnlyLowers(s.grants, Consent.HandledRequest(s, q, domain, p).0.grants)
  {
    RequestedOnlyLowers(s.grants, q, domain);
    hide Requested, Decided, Consent.Presented, OnlyLowers, GrantsInv;
    var (g, r) := Requested(s.grants, q, domain);
    if r.Ok? && r.value.decision.Pending? {
      PresentedKeepsGrants(s.(grants := g), r.value.target, p);
      DecidedOnlyLowers(g, r.value.target, None, Denied);
      LowersTwice(s.grants, g, Decided(g, r.value.target, None, Denied).0);
    }
  }

  lemma RequestedOnlyLowers(g: Grants, q: GrantRequest, domain: Option<ValidTarget>)
    requires GrantsInv(g)
    ensures OnlyLowers(g, Requested(g, q, domain).0) && GrantsInv(Requested(g, q, domain).0)
  {
  }

  lemma LowersTwice(g: Grants, g1: Grants, g2: Grants)
    requires OnlyLowers(g, g1) && OnlyLowers(g1, g2)
    ensures OnlyLowers(g, g2)
  {
  }

  lemma PresentedKeepsGrants(s: Consent.State, target: Target, p: Consent.Presentation)
    ensures Consent.Presented(s, target, p).0.grants == s.grants
  {
  }

  lemma {:induction false} CancelOnlyLowers(s: Consent.State, tokens: seq<string>)
    requires GrantsInv(s.grants)
    ensures OnlyLowers(s.grants, Consent.CancelledAll(s, tokens).grants)
    decreases |tokens|
  {
    if tokens != [] {
      var s1 := Consent.CancelledIfPending(s, tokens[0]);
      if tokens[0] in s.byToken {
        var record := s.byToken[tokens[0]];
        DecidedOnlyLowers(s.grants, record.target, Some(record.grant), Denied);
      }
      CancelOnlyLowers(s1, tokens[1..]);
    }
  }

  lemma LowerKeepsBacked(g: Grants, g1: Grants, sessions: Broker.Sessions, applied: map<Target, AppliedSession>)
    requires GrantsInv(g1) && OnlyLowers(g, g1) && Backed(g, sessions, applied)
    ensures Backed(g1, sessions, applied)
  {
  }

  /** What marking one flag changes. */
  ghost predicate OneFlag(g: Grants, g1: Grants, key: Target) {
    && g1.Keys == g.Keys
    && forall t :: t in g ==>
         && g1[t].grant == g[t].grant && g1[t].decision == g[t].decision
         && (t != key || g[t].decision.Pending? ==> g1[t] == g[t])
  }

  /** Marking flags leaves the dialogs answerable. */
  lemma FlagKeepsConsent(s: Consent.State, g1: Grants, key: Target)
    requires Consent.Inv(s) && GrantsInv(g1) && OneFlag(s.grants, g1, key)
    ensures Consent.Inv(s.(grants := g1))
  {
    Consent.FlagsKeepInv(s, g1);
  }

  lemma MarkedAppliedKeeps(g: Grants, key: Target, b: bool)
    requires GrantsInv(g)
    ensures var g1 := MarkedApplied(g, key, b).0; GrantsInv(g1) && OneFlag(g, g1, key)
  {
  }

  lemma MarkedAvailableKeeps(g: Grants, key: Target, b: bool)
    requires GrantsInv(g)
    ensures var g1 := MarkedAvailable(g, key, b).0; GrantsInv(g1) && OneFlag(g, g1, key)
  {
  }

  ghost predicate BackedCreds(c: Credentials) { GrantsInv(c.grants) && Backed(c.grants, c.sessions, c.applied) }

  /** A revoke lowers at most the flag of its target, and keeps the session of every target still applied. */
  lemma WithdrawnGrants(c: Credentials, key: Target, n: RevokeNative)
    ensures var c1 := Withdrawn(c, key, n).0;
            && (c1.grants == c.grants || c1.grants == MarkedApplied(c.grants, key, false).0)
            && c1.sessions == c.sessions
            && (c1.applied.Keys == c.applied.Keys
                || (c1.applied.Keys == c.applied.Keys - {key} && c1.grants == MarkedApplied(c.grants, key, false).0))
  {
    hide Undeleted, Cleaned, Jar, MarkedApplied;
  }

  lemma UnmarkedNoneApplied(g: Grants, key: Target)
    requires GrantsInv(g)
    ensures var g1 := MarkedApplied(g, key, false).0;
            NoneApplied(g, g1) && OnlyLowersFlag(g, g1) && (key in g1 ==> !g1[key].applied)
  {
  }

  ghost predicate OnlyLowersFlag(g: Grants, g1: Grants) {
    forall t :: t in g1 ==> t in g && (g1[t].available ==> g[t].available) && (g1[t].applied ==> g[t].applied)
  }

  lemma WithdrawnBacked(c: Credentials, key: Target, n: RevokeNative)
    requires BackedCreds(c)
    ensures var c1 := Withdrawn(c, key, n).0;
            && BackedCreds(c1) && OneFlag(c.grants, c1.grants, key) && c1.sessions == c.sessions
            && NoneApplied(c.grants, c1.grants)
  {
    WithdrawnGrants(c, key, n);
    MarkedAppliedKeeps(c.grants, key, false);
    UnmarkedNoneApplied(c.grants, key);
    hide Withdrawn, MarkedApplied;
    assert BackedCreds(Withdrawn(c, key, n).0);
  }

  lemma InstalledBacked(c: Credentials, key: Target, window: string, n: ApplyNative)
    requires BackedCreds(c)
    ensures var (c1, r) := ApplyCookies(c, key, window, n);
            && BackedCreds(c1) && c1.grants == c.grants && c1.sessions == c.sessions
            && (r.Ok? ==> key in c1.applied)
  {
  }

  lemma AppliedBacked(c: Credentials, key: Target, window: string, n: ApplyNative)
    requires BackedCreds(c)
    ensures var c1 := Applied(c, key, window, n).0;
            && BackedCreds(c1) && OneFlag(c.grants, c1.grants, key) && c1.sessions == c.sessions
  {
    hide ApplyCookies, Withdrawn;
    InstalledBacked(c, key, window, n);
    var c1 := ApplyCookies(c, key, window, n).0;
    WithdrawnBacked(c1, key, n.cleanup);
    MarkedAppliedKeeps(c1.grants, key, true);
  }

  lemma WithdrawnKeeps(s: World, key: Target, n: RevokeNative)
    requires Inv(s)
    ensures var s1 := WithCreds(s, Withdrawn(Creds(s), key, n).0);
            Inv(s1) && NoneApplied(s.dialogs.grants, s1.dialogs.grants)
  {
    WithdrawnBacked(Creds(s), key, n);
    FlagKeepsConsent(s.dialogs, Withdrawn(Creds(s), key, n).0.grants, key);
  }

  lemma AppliedKeeps(s: World, key: Target, window: string, n: ApplyNative)
    requires Inv(s)
    ensures var s1 := WithCreds(s, Applied(Creds(s), key, window, n).0);
            Inv(s1) && OneFlag(s.dialogs.grants, s1.dialogs.grants, key)
  {
    AppliedBacked(Creds(s), key, window, n);
    FlagKeepsConsent(s.dialogs, Applied(Creds(s), key, window, n).0.grants, key);
  }

  lemma AcquiredBacked(g: Grants, sessions: Broker.Sessions, applied: map<Target, AppliedSession>, key: Target,
                       loaded: Result<seq<BrokeredCookie>, Broker.BrokerError>)
    requires GrantsInv(g) && Backed(g, sessions, applied)
    ensures var (g1, s1, _) := Broker.Acquired(g, sessions, key, loaded);
            GrantsInv(g1) && Backed(g1, s1, applied) && OneFlag(g, g1, key)
  {
    MarkedAvailableKeeps(g, key, true);
  }

  lemma AcquireKeeps(s: World, key: Target, loaded: Result<seq<BrokeredCookie>, Broker.BrokerError>)
    requires Inv(s)
    ensures var s1 := Step(s, Acquire(key, loaded));
            Inv(s1) && OneFlag(s.dialogs.grants, s1.dialogs.grants, key)
  {
    AcquiredBacked(s.dialogs.grants, s.sessions, s.applied, key, loaded);
    FlagKeepsConsent(s.dialogs, Step(s, Acquire(key, loaded)).dialogs.grants, key);
  }

  lemma DiscardKeeps(s: World, key: Target)
    requires Inv(s)
    ensures var s1 := Step(s, Discard(key)); Inv(s1) && OneFlag(s.dialogs.grants, s1.dialogs.grants, key)
  {
    MarkedAvailableKeeps(s.dialogs.grants, key, false);
    FlagKeepsConsent(s.dialogs, Step(s, Discard(key)).dialogs.grants, key);
  }

  /** Consent calls: the invariant, and the flags only go down. */
  lemma ConsentCallKeeps(s: World, c: Call)
    requires Inv(s) && Wellformed(s, c) && (c.Request? || c.Decide? || c.ClearOnce?)
    ensures Inv(Step(s, c)) && OnlyLowers(s.dialogs.grants, Step(s, c).dialogs.grants)
  {
    hide Consent.Inv, Consent.HandledRequest, Consent.DecidedFor, OnlyLowers;
    ConsentKeepsDialogs(s, c);
    LowerKeepsBacked(s.dialogs.grants, Step(s, c).dialogs.grants, s.sessions, s.applied);
  }

  lemma ConsentKeepsDialogs(s: World, c: Call)
    requires Inv(s) && Wellformed(s, c) && (c.Request? || c.Decide? || c.ClearOnce?)
    ensures Consent.Inv(Step(s, c).dialogs) && GrantsInv(Step(s, c).dialogs.grants)
    ensures OnlyLowers(s.dialogs.grants, Step(s, c).dialogs.grants)
  {
    hide Consent.HandledRequest, Consent.DecidedFor, Consent.Answerable, Consent.Inverse;
    match c
    case Request(q, domain, p) =>
      Consent.RequestKeepsInv(s.dialogs, q, domain, p);
      RequestOnlyLowers(s.dialogs, q, domain, p);
    case Decide(token, window, approve) =>
      Consent.DecideKeepsInv(s.dialogs, token, window, approve);
      DecideOnlyLowers(s.dialogs, token, window, approve);
    case ClearOnce(key) =>
      Consent.StepKeepsInv(s.dialogs, Consent.ClearOnce(key));
  }

  lemma DecideOnlyLowers(s: Consent.State, token: string, window: string, approve: bool)
    requires GrantsInv(s.grants)
    ensures OnlyLowers(s.grants, Consent.DecidedFor(s, token, window, approve).0.grants)
  {
    if token in s.byToken {
      var record := s.byToken[token];
      DecidedOnlyLowers(s.grants, record.target, Some(record.grant), if approve then Authorized else Denied);
    }
  }

  lemma RevokedKeeps(s: World, key: Target)
    requires Inv(s)
    ensures var s1 := s.(dialogs := s.dialogs.(grants := RevokedAt(s.dialogs.grants, key)));
            Inv(s1) && OnlyLowers(s.dialogs.grants, s1.dialogs.grants)
  {
    Consent.StepKeepsInv(s.dialogs, Consent.Revoke(key));
  }

  lemma DestroyedKeeps(s: World, window: string, tokens: seq<string>)
    requires Inv(s) && Consent.TokensOf(s.dialogs, window, tokens)
    ensures var s1 := s.(dialogs := Consent.Destroyed(s.dialogs, window, tokens));
            Inv(s1) && OnlyLowers(s.dialogs.grants, s1.dialogs.grants)
  {
    RevokedKeeps(s, Window(window));
    var d1 := s.dialogs.(grants := RevokedAt(s.dialogs.grants, Window(window)));
    Consent.CancelAllKeepsInv(d1, tokens);
    CancelOnlyLowers(d1, tokens);
  }

  lemma RevokeKeeps(s: World, key: Target, n: RevokeNative)
    requires Inv(s)
    ensures Inv(Step(s, Revoke(key, n))) && NoneApplied(s.dialogs.grants, Step(s, Revoke(key, n)).dialogs.grants)
  {
    hide Withdrawn, Consent.Answerable, Consent.Inverse, RevokedAt;
    var s1 := s.(dialogs := s.dialogs.(grants := RevokedAt(s.dialogs.grants, key)));
    RevokedKeeps(s, key);
    LowersApplies(s.dialogs.grants, s1.dialogs.grants);
    WithdrawnKeeps(s1, key, n);
  }

  lemma DestroyKeeps(s: World, window: string, tokens: seq<string>, chosen: Option<Target>, n: RevokeNative)
    requires Inv(s) && Consent.TokensOf(s.dialogs, window, tokens)
    ensures var s1 := Step(s, Destroy(window, tokens, chosen, n));
            Inv(s1) && NoneApplied(s.dialogs.grants, s1.dialogs.grants)
  {
    hide Withdrawn, Consent.Answerable, Consent.Inverse, Consent.Destroyed;
    var s1 := s.(dialogs := Consent.Destroyed(s.dialogs, window, tokens));
    DestroyedKeeps(s, window, tokens);
    LowersApplies(s.dialogs.grants, s1.dialogs.grants);
    if chosen.Some? {
      WithdrawnKeeps(s1, chosen.value, n);
    }
  }

  /** One call keeps the flags backed, and never changes the contents of a grant that stays applied. */
  lemma {:induction false} StepKeepsInv(s: World, c: Call)
    requires Inv(s) && Wellformed(s, c)
    ensures Inv(Step(s, c)) && AppliedStays(s.dialogs.grants, Step(s, c).dialogs.grants)
  {
    hide Inv, Withdrawn, Applied, Consent.HandledRequest, Consent.DecidedFor, Consent.Destroyed;
    match c
    case Acquire(key, loaded) => AcquireKeeps(s, key, loaded);
    case Discard(key) => DiscardKeeps(s, key);
    case Apply(key, window, n) => AppliedKeeps(s, key, window, n);
    case Revoke(key, n) => RevokeKeeps(s, key, n);
    case BeforeClose(window, chosen, n) => if chosen.Some? { WithdrawnKeeps(s, chosen.value, n); }
    case Destroy(window, tokens, chosen, n) => DestroyKeeps(s, window, tokens, chosen, n);
    case PageSets(window, cookie) => SameFlags(s, Step(s, c));
    case _ =>
      ConsentCallKeeps(s, c);
      LowersOfInv(s, Step(s, c));
  }

  lemma SameFlags(s: World, s1: World)
    requires Inv(s) && s1.dialogs == s.dialogs && s1.sessions == s.sessions && s1.applied == s.applied
    ensures Inv(s1)
  {
  }

  lemma LowersOfInv(s: World, s1: World)
    requires Inv(s1) && OnlyLowers(s.dialogs.grants, s1.dialogs.grants)
    ensures NoneApplied(s.dialogs.grants, s1.dialogs.grants)
  {
    LowersApplies(s.dialogs.grants, s1.dialogs.grants);
  }

  // ---- every run ----

  ghost predicate Run(states: seq<World>, calls: seq<Call>) {
    && |states| == |calls| + 1 && states[0] == START
    && forall i :: 0 <= i < |calls| ==> Wellformed(states[i], calls[i]) && states[i + 1] == Step(states[i], calls[i])
  }

  /** In every reachable state: applied implies available implies Authorized, available implies the broker
      holds cookies for the target, applied implies the applier tracks a session for it; and along the run
      an applied grant keeps its contents while it stays applied. */
  lemma {:induction false} FlagsAgree(states: seq<World>, calls: seq<Call>, i: nat)
    requires Run(states, calls) && i < |states|
    ensures Inv(states[i])
    ensures forall t :: t in states[i].dialogs.grants ==>
              var r := states[i].dialogs.grants[t];
              && (r.applied ==> r.available && t in states[i].applied)
              && (r.available ==> r.decision.Authorized? && t in states[i].sessions && states[i].sessions[t] != [])
    ensures i < |calls| ==> AppliedStays(states[i].dialogs.grants, states[i + 1].dialogs.grants)
  {
    if i > 0 {
      FlagsAgree(states, calls, i - 1);
      StepKeepsInv(states[i - 1], calls[i - 1]);
    }
    if i < |calls| {
      StepKeepsInv(states[i], calls[i]);
    }
  }

  // ---- no brokered cookie is forgotten ----

  /** The brokered cookies in a window after `i` calls: written by an apply, neither deleted nor replaced by the
      page since. */
  function Written(states: seq<World>, calls: seq<Call>, i: nat, w: string): set<AppliedCookie>
    requires i < |states| == |calls| + 1
  {
    if i == 0 then {}
    else
      var s, c := states[i - 1], calls[i - 1];
      var before := Written(states, calls, i - 1, w);
      var left := if c.PageSets? && c.window == w then before - {c.cookie} else before;
      var added := if c.Apply? && c.window == w then WrittenBy(Creds(s), c.key, c.window, c.apply) else {};
      (left + added) * Jar(states[i].jars, w)
  }

  /** An apply lets no failed installation land, and a second one forgets nothing. */
  ghost predicate Tidy(s: World, c: Call) {
    c.Apply? ==>
      && !StrayLanding(Creds(s), c.key, c.window, c.apply)
      && (c.key in s.applied ==> !Forgets(Creds(s), c.key, c.window, c.apply))
  }

  lemma SameTracking(a: Credentials, b: Credentials, w: string, cookie: AppliedCookie)
    requires IsTracked(a, w, cookie) && a.applied == b.applied
    ensures IsTracked(b, w, cookie)
  {
    var t :| t in a.applied && cookie in CookiesOf(a, t, w);
    assert cookie in CookiesOf(b, t, w);
  }

  lemma WithdrawnKeepsTracked(s: World, chosen: Option<Target>, n: RevokeNative, w: string, cookie: AppliedCookie)
    requires IsTracked(Creds(s), w, cookie) && cookie in Jar(WithdrawnFrom(s, chosen, n).jars, w)
    ensures IsTracked(Creds(WithdrawnFrom(s, chosen, n)), w, cookie)
  {
    if chosen.Some? {
      RevokeKeepsTracked(Creds(s), chosen.value, n, w, cookie);
    }
  }

  /** A tidy call keeps a tracked cookie that stays in its window tracked. */
  lemma StepKeepsTracked(s: World, c: Call, w: string, cookie: AppliedCookie)
    requires Tidy(s, c) && IsTracked(Creds(s), w, cookie) && cookie in Jar(Step(s, c).jars, w)
    ensures IsTracked(Creds(Step(s, c)), w, cookie)
  {
    match c
    case Apply(key, window, n) => ApplyKeepsTracked(Creds(s), key, window, n, w, cookie);
    case Revoke(key, n) =>
      var s1 := s.(dialogs := s.dialogs.(grants := RevokedAt(s.dialogs.grants, key)));
      SameTracking(Creds(s), Creds(s1), w, cookie);
      WithdrawnKeepsTracked(s1, Some(key), n, w, cookie);
    case BeforeClose(window, chosen, n) => WithdrawnKeepsTracked(s, chosen, n, w, cookie);
    case Destroy(window, tokens, chosen, n) =>
      var s1 := s.(dialogs := Consent.Destroyed(s.dialogs, window, tokens));
      SameTracking(Creds(s), Creds(s1), w, cookie);
      WithdrawnKeepsTracked(s1, chosen, n, w, cookie);
    case _ => SameTracking(Creds(s), Creds(Step(s, c)), w, cookie);
  }

  /** Over every run, pages setting cookies of their own in between, in which no failed installation lands and no
      second apply forgets, every brokered cookie in a window is tracked. */
  lemma {:induction false} NoCookieForgotten(states: seq<World>, calls: seq<Call>, i: nat, w: string,
                                             cookie: AppliedCookie)
    requires Run(states, calls) && i < |states|
    requires forall j :: 0 <= j < |calls| ==> Tidy(states[j], calls[j])
    requires cookie in Written(states, calls, i, w)
    ensures IsTracked(Creds(states[i]), w, cookie)
  {
    hide WrittenBy, Tidy;
    var s, c := states[i - 1], calls[i - 1];
    assert Tidy(s, c);
    if cookie in Written(states, calls, i - 1, w) {
      NoCookieForgotten(states, calls, i - 1, w, cookie);
      StepKeepsTracked(s, c, w, cookie);
    } else {
      JustWritten(s, c, cookie);
    }
  }

  lemma JustWritten(s: World, c: Call, cookie: AppliedCookie)
    requires c.Apply? && Tidy(s, c) && cookie in WrittenBy(Creds(s), c.key, c.window, c.apply)
    requires cookie in Jar(Step(s, c).jars, c.window)
    ensures IsTracked(Creds(Step(s, c)), c.window, cookie)
  {
    WrittenIsTracked(Creds(s), c.key, c.window, c.apply, cookie);
  }
}
