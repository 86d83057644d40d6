/** Consent under interleaving. Every component locks for itself, so between any two lock sections of one
    call the lock sections of any other call may run. A state holds the shared maps and the calls in
    flight; a step is one lock section of one call. */
module ConsentRace {
  import opened Wrappers
  import opened Authority
  import opened Consent

  /** What a call goes on to do once `remove_record` returns. */
  datatype Then = ThenInsert(target: Target, grant: Grant) | ThenDecide(record: ConsentRecord, approve: bool)
                | ThenDeny | ThenFail(target: Target)

  /** A call between two lock sections. */
  datatype InFlight =
    | ReadTarget(target: Target, grant: Grant)
    | ReadToken(target: Target, grant: Grant, token: string)
    | InsertRecord(target: Target, grant: Grant)
    | LinkTarget(target: Target, grant: Grant, token: string)
    | Show(target: Target, token: string)
    | RemoveToken(token: string, then_: Then)
    | Unlink(token: string, removed: ConsentRecord, then_: Then)
    | SetDecision(record: ConsentRecord, approve: bool)
    | DenyAny(target: Target)

  /** The user pressed Allow in `window` on the dialog of `token`, which showed `grant`. */
  datatype Approval = Approval(token: string, window: string, grant: Grant)

  /** History only: who approved what, which approving call last authorized each target, and which calls have
      authorized. */
  datatype Log = Log(approvals: map<nat, Approval>, authorizer: map<Target, nat>, spent: set<nat>)

  /** Call numbers are used once. */
  datatype Shared = Shared(desk: Consent.State, calls: map<nat, InFlight>, started: set<nat>, log: Log)

  const IDLE := Shared(Consent.START, map[], {}, Log(map[], map[], {}))

  datatype Action =
    | RequestSection(q: GrantRequest, domain: Option<ValidTarget>)
    | RevokeSection(key: Target)
    | AvailableSection(key: Target, available: bool)
    | AppliedSection(key: Target, applied: bool)
    | ClearSection(key: Target)
    | StartPresent(call: nat, target: Target)
    | StartDecide(call: nat, token: string, window: string, approve: bool)
    | StartCancel(call: nat, token: string)
    | Continue(call: nat, p: Presentation)

  function Goto(s: Shared, call: nat, c: InFlight): Shared {
    s.(calls := s.calls[call := c], started := s.started + {call})
  }

  function Done(s: Shared, call: nat): Shared {
    s.(calls := s.calls - {call})
  }

  function WithGrants(s: Shared, g: Grants): Shared {
    s.(desk := s.desk.(grants := g))
  }

  function WithTokens(s: Shared, byToken: map<string, ConsentRecord>): Shared {
    s.(desk := s.desk.(byToken := byToken))
  }

  function WithTargets(s: Shared, byTarget: map<Target, string>): Shared {
    s.(desk := s.desk.(byTarget := byTarget))
  }

  /** `remove_record` came back with `removed`: where the call goes on, or `None` when it ends. */
  function Resumed(removed: Option<ConsentRecord>, t: Then): Option<InFlight> {
    match t
    case ThenInsert(target, grant) => Some(InsertRecord(target, grant))
    case ThenDecide(record, approve) => Some(SetDecision(record, approve))
    case ThenDeny => if removed.Some? then Some(SetDecision(removed.value, false)) else None
    case ThenFail(target) => Some(DenyAny(target))
  }

  function Resume(s: Shared, call: nat, removed: Option<ConsentRecord>, t: Then): Shared {
    match Resumed(removed, t)
    case Some(c) => Goto(s, call, c)
    case None => Done(s, call)
  }

  /** The lock section of the final decision. */
  function Conclude(s: Shared, call: nat, record: ConsentRecord, approve: bool): Shared {
    var (g, r) := Decided(s.desk.grants, record.target, Some(record.grant), if approve then Authorized else Denied);
    var s1 := WithGrants(Done(s, call), g);
    if approve && r.Ok?
    then s1.(log := s.log.(authorizer := s.log.authorizer[record.target := call], spent := s.log.spent + {call}))
    else s1
  }

  function Unlinked(byTarget: map<Target, string>, target: Target, token: string): map<Target, string> {
    if target in byTarget && byTarget[target] == token then byTarget - {target} else byTarget
  }

  function Advance(s: Shared, call: nat, p: Presentation): Shared
    requires call in s.calls
  {
    var d := s.desk;
    match s.calls[call]
    case ReadTarget(target, grant) =>
      Goto(s, call, if target in d.byTarget then ReadToken(target, grant, d.byTarget[target])
                    else InsertRecord(target, grant))
    case ReadToken(target, grant, token) =>
      if token in d.byToken && d.byToken[token].grant == grant then Done(s, call)
      else Goto(s, call, RemoveToken(token, ThenInsert(target, grant)))
    case InsertRecord(target, grant) =>
      if grant.windowSessionId.None? || !p.windowOpen || !p.serializes then Goto(s, call, DenyAny(target))
      else Goto(WithTokens(s, d.byToken[p.token := ConsentRecord(target, grant)]), call,
                LinkTarget(target, grant, p.token))
    case LinkTarget(target, grant, token) =>
      Goto(WithTargets(s, d.byTarget[target := token]), call, Show(target, token))
    case Show(target, token) =>
      if p.evaluates && p.focuses then Done(s, call) else Goto(s, call, RemoveToken(token, ThenFail(target)))
    case RemoveToken(token, t) =>
      if token in d.byToken
      then Goto(WithTokens(s, d.byToken - {token}), call, Unlink(token, d.byToken[token], t))
      else Resume(s, call, None, t)
    case Unlink(token, removed, t) =>
      Resume(WithTargets(s, Unlinked(d.byTarget, removed.target, token)), call, Some(removed), t)
    case SetDecision(record, approve) => Conclude(s, call, record, approve)
    case DenyAny(target) => Done(WithGrants(s, Decided(d.grants, target, None, Denied).0), call)
  }

  /** The grants after a lock section of the authority that cannot authorize. */
  function Section(g: Grants, a: Action): Grants {
    match a
    case RequestSection(q, domain) => Requested(g, q, domain).0
    case RevokeSection(key) => RevokedAt(g, key)
    case AvailableSection(key, available) => MarkedAvailable(g, key, available).0
    case AppliedSection(key, applied) => MarkedApplied(g, key, applied).0
    case ClearSection(key) => ClearedOnce(g, key)
    case _ => g
  }

  /** One lock section. */
  function Next(s: Shared, a: Action): Shared {
    match a
    case StartPresent(call, target) =>
      if call in s.started then s
      else if PendingGrant(s.desk.grants, target).None? then Goto(s, call, DenyAny(target))
      else Goto(s, call, ReadTarget(target, PendingGrant(s.desk.grants, target).value))
    case StartDecide(call, token, window, approve) =>
      if call in s.started || !PresentedOn(s.desk, token, window) then s
      else
        var record := s.desk.byToken[token];
        var s1 := if approve
                  then s.(log := s.log.(approvals := s.log.approvals[call := Approval(token, window, record.grant)]))
                  else s;
        Goto(s1, call, RemoveToken(token, ThenDecide(record, approve)))
    case StartCancel(call, token) =>
      if call in s.started then s else Goto(s, call, RemoveToken(token, ThenDeny))
    case Continue(call, p) => if call in s.calls then Advance(s, call, p) else s
    case _ => WithGrants(s, Section(s.desk.grants, a))
  }

  function Exec(s: Shared, actions: seq<Action>): Shared {
    if actions == [] then s else Next(Exec(s, actions[..|actions| - 1]), actions[|actions| - 1])
  }

  // ---- the invariant ----

  /** `call` is the call of a user who approved `record`'s grant from the grant's own window, and it has not
      authorized anything yet. */
  ghost predicate Approves(l: Log, call: nat, record: ConsentRecord) {
    && call in l.approvals && call !in l.spent
    && l.approvals[call].grant == record.grant
    && record.grant.windowSessionId == Some(l.approvals[call].window)
  }

  ghost predicate WellTargeted(record: ConsentRecord) {
    record.grant.target == record.target
  }

  ghost predicate ThenInv(l: Log, call: nat, t: Then) {
    match t
    case ThenInsert(target, grant) => grant.target == target
    case ThenDecide(record, approve) => WellTargeted(record) && (approve ==> Approves(l, call, record))
    case _ => true
  }

  ghost predicate CallInv(l: Log, call: nat, c: InFlight) {
    match c
    case ReadTarget(target, grant) => grant.target == target
    case ReadToken(target, grant, _) => grant.target == target
    case InsertRecord(target, grant) => grant.target == target
    case LinkTarget(target, grant, _) => grant.target == target
    case RemoveToken(_, t) => ThenInv(l, call, t)
    case Unlink(_, removed, t) => WellTargeted(removed) && ThenInv(l, call, t)
    case SetDecision(record, approve) => WellTargeted(record) && (approve ==> Approves(l, call, record))
    case _ => true
  }

  /** The authorization at `t` is the work of one approving call: the user approved, field for field, the grant
      recorded there, from that grant's own presentation window. */
  ghost predicate Consented(g: Grants, l: Log, t: Target)
    requires t in g
  {
    && t in l.authorizer && l.authorizer[t] in l.approvals
    && l.approvals[l.authorizer[t]].grant == g[t].grant
    && g[t].grant.windowSessionId == Some(l.approvals[l.authorizer[t]].window)
  }

  ghost predicate AllConsented(g: Grants, l: Log) {
    forall t :: t in g && g[t].decision.Authorized? ==> Consented(g, l, t)
  }

  ghost predicate LogInv(l: Log, started: set<nat>) {
    && l.approvals.Keys <= started && l.spent <= l.approvals.Keys
    && (forall t :: t in l.authorizer ==> l.authorizer[t] in l.spent)
    && (forall t, u :: t in l.authorizer && u in l.authorizer && t != u ==> l.authorizer[t] != l.authorizer[u])
  }

  ghost predicate CallsInv(s: Shared) {
    forall c :: c in s.calls ==> c in s.started && CallInv(s.log, c, s.calls[c])
  }

  ghost predicate TokensInv(byToken: map<string, ConsentRecord>) {
    forall k :: k in byToken ==> WellTargeted(byToken[k])
  }

  ghost predicate Inv(s: Shared) {
    && GrantsInv(s.desk.grants) && AllConsented(s.desk.grants, s.log)
    && TokensInv(s.desk.byToken)
    && CallsInv(s) && LogInv(s.log, s.started)
  }

  lemma GotoKeepsInv(s: Shared, call: nat, c: InFlight)
    requires Inv(s) && CallInv(s.log, call, c)
    ensures Inv(Goto(s, call, c))
  {
  }

  lemma DoneKeepsInv(s: Shared, call: nat)
    requires Inv(s)
    ensures Inv(Done(s, call))
  {
  }

  lemma ResumeKeepsInv(s: Shared, call: nat, removed: Option<ConsentRecord>, t: Then)
    requires Inv(s) && ThenInv(s.log, call, t) && (removed.Some? ==> WellTargeted(removed.value))
    ensures Inv(Resume(s, call, removed, t))
  {
    match Resumed(removed, t)
    case Some(c) => GotoKeepsInv(s, call, c);
    case None => DoneKeepsInv(s, call);
  }

  /** `h` authorizes nothing that `g` does not. */
  ghost predicate NothingNew(g: Grants, h: Grants) {
    && GrantsInv(h)
    && forall t :: t in h && h[t].decision.Authorized? ==>
         t in g && g[t].decision.Authorized? && g[t].grant == h[t].grant
  }

  lemma RequestAuthorizesNothing(g: Grants, q: GrantRequest, domain: Option<ValidTarget>)
    requires GrantsInv(g)
    ensures NothingNew(g, Requested(g, q, domain).0)
  {
  }

  lemma SectionAuthorizesNothing(g: Grants, a: Action)
    requires GrantsInv(g)
    ensures NothingNew(g, Section(g, a))
  {
    hide Requested;
    if a.RequestSection? {
      RequestAuthorizesNothing(g, a.q, a.domain);
    }
  }

  lemma GrantsKeepInv(s: Shared, h: Grants)
    requires Inv(s) && NothingNew(s.desk.grants, h)
    ensures Inv(WithGrants(s, h))
  {
    forall t | t in h && h[t].decision.Authorized? ensures Consented(h, s.log, t) {
      assert Consented(s.desk.grants, s.log, t);
    }
  }

  lemma AuthorizeKeepsLog(l: Log, started: set<nat>, call: nat, target: Target)
    requires LogInv(l, started) && call in l.approvals && call !in l.spent
    ensures LogInv(l.(authorizer := l.authorizer[target := call], spent := l.spent + {call}), started)
  {
  }

  /** Spending one call's approval leaves every other call in flight as it was. */
  lemma SpendKeepsCalls(s: Shared, call: nat, log: Log)
    requires CallsInv(s) && log.approvals == s.log.approvals && log.spent == s.log.spent + {call}
    ensures CallsInv(Done(s, call).(log := log))
  {
    var r := Done(s, call).(log := log);
    forall c | c in r.calls ensures c in r.started && CallInv(r.log, c, r.calls[c]) {
      assert c in s.calls && c != call;
      assert CallInv(s.log, c, s.calls[c]);
    }
  }

  lemma ConcludeKeepsInv(s: Shared, call: nat, record: ConsentRecord, approve: bool)
    requires Inv(s) && WellTargeted(record) && (approve ==> Approves(s.log, call, record))
    ensures Inv(Conclude(s, call, record, approve))
  {
    var g := s.desk.grants;
    var (h, r) := Decided(g, record.target, Some(record.grant), if approve then Authorized else Denied);
    DoneKeepsInv(s, call);
    if approve && r.Ok? {
      var log := s.log.(authorizer := s.log.authorizer[record.target := call], spent := s.log.spent + {call});
      AuthorizeKeepsLog(s.log, s.started, call, record.target);
      SpendKeepsCalls(s, call, log);
      assert GrantsInv(h);
      forall t | t in h && h[t].decision.Authorized? ensures Consented(h, log, t) {
        if t != record.target {
          assert Consented(g, s.log, t);
        }
      }
    } else {
      assert NothingNew(g, h);
      GrantsKeepInv(Done(s, call), h);
    }
  }

  lemma RemoveKeepsInv(s: Shared, call: nat, token: string, t: Then)
    requires Inv(s) && ThenInv(s.log, call, t) && token in s.desk.byToken
    ensures Inv(Goto(WithTokens(s, s.desk.byToken - {token}), call, Unlink(token, s.desk.byToken[token], t)))
  {
    var s1 := WithTokens(s, s.desk.byToken - {token});
    assert Inv(s1);
    GotoKeepsInv(s1, call, Unlink(token, s.desk.byToken[token], t));
  }

  lemma InsertKeepsInv(s: Shared, call: nat, target: Target, grant: Grant, token: string)
    requires Inv(s) && grant.target == target
    ensures Inv(Goto(WithTokens(s, s.desk.byToken[token := ConsentRecord(target, grant)]), call,
                     LinkTarget(target, grant, token)))
  {
    var s1 := WithTokens(s, s.desk.byToken[token := ConsentRecord(target, grant)]);
    assert Inv(s1);
    GotoKeepsInv(s1, call, LinkTarget(target, grant, token));
  }

  lemma DenyKeepsInv(s: Shared, call: nat, target: Target)
    requires Inv(s)
    ensures Inv(Done(WithGrants(s, Decided(s.desk.grants, target, None, Denied).0), call))
  {
    var h := Decided(s.desk.grants, target, None, Denied).0;
    assert NothingNew(s.desk.grants, h);
    GrantsKeepInv(s, h);
    DoneKeepsInv(WithGrants(s, h), call);
  }

  lemma AdvanceKeepsInv(s: Shared, call: nat, p: Presentation)
    requires Inv(s) && call in s.calls
    ensures Inv(Advance(s, call, p))
  {
    var d := s.desk;
    assert CallInv(s.log, call, s.calls[call]);
    match s.calls[call]
    case ReadTarget(target, grant) =>
      GotoKeepsInv(s, call, if target in d.byTarget then ReadToken(target, grant, d.byTarget[target])
                            else InsertRecord(target, grant));
    case ReadToken(target, grant, token) =>
      DoneKeepsInv(s, call);
      GotoKeepsInv(s, call, RemoveToken(token, ThenInsert(target, grant)));
    case InsertRecord(target, grant) =>
      GotoKeepsInv(s, call, DenyAny(target));
      InsertKeepsInv(s, call, target, grant, p.token);
    case LinkTarget(target, grant, token) =>
      GotoKeepsInv(WithTargets(s, d.byTarget[target := token]), call, Show(target, token));
    case Show(target, token) =>
      DoneKeepsInv(s, call);
      GotoKeepsInv(s, call, RemoveToken(token, ThenFail(target)));
    case RemoveToken(token, t) =>
      if token in d.byToken {
        RemoveKeepsInv(s, call, token, t);
      } else {
        ResumeKeepsInv(s, call, None, t);
      }
    case Unlink(token, removed, t) =>
      ResumeKeepsInv(WithTargets(s, Unlinked(d.byTarget, removed.target, token)), call, Some(removed), t);
    case SetDecision(record, approve) => ConcludeKeepsInv(s, call, record, approve);
    case DenyAny(target) => DenyKeepsInv(s, call, target);
  }

  lemma StartDecideKeepsInv(s: Shared, call: nat, token: string, window: string, approve: bool)
    requires Inv(s) && call !in s.started && PresentedOn(s.desk, token, window)
    ensures Inv(Next(s, StartDecide(call, token, window, approve)))
  {
    var record := s.desk.byToken[token];
    var log := if approve
               then s.log.(approvals := s.log.approvals[call := Approval(token, window, record.grant)]) else s.log;
    var s1 := s.(log := log, started := s.started + {call});
    assert AllConsented(s.desk.grants, log) by {
      forall t | t in s.desk.grants && s.desk.grants[t].decision.Authorized? ensures Consented(s.desk.grants, log, t) {
        assert Consented(s.desk.grants, s.log, t);
      }
    }
    assert CallsInv(s1) by {
      forall c | c in s.calls ensures CallInv(log, c, s.calls[c]) {
        assert CallInv(s.log, c, s.calls[c]) && c != call;
      }
    }
    GotoKeepsInv(s1, call, RemoveToken(token, ThenDecide(record, approve)));
    assert Next(s, StartDecide(call, token, window, approve))
        == Goto(s1, call, RemoveToken(token, ThenDecide(record, approve)));
  }

  lemma NextKeepsInv(s: Shared, a: Action)
    requires Inv(s)
    ensures Inv(Next(s, a))
  {
    match a
    case StartPresent(call, target) =>
      if PendingGrant(s.desk.grants, target).Some? {
        GotoKeepsInv(s, call, ReadTarget(target, PendingGrant(s.desk.grants, target).value));
      }
    case StartDecide(call, token, window, approve) =>
      if call !in s.started && PresentedOn(s.desk, token, window) {
        StartDecideKeepsInv(s, call, token, window, approve);
      }
    case StartCancel(call, token) => GotoKeepsInv(s, call, RemoveToken(token, ThenDeny));
    case Continue(call, p) => if call in s.calls { AdvanceKeepsInv(s, call, p); }
    case _ =>
      SectionAuthorizesNothing(s.desk.grants, a);
      GrantsKeepInv(s, Section(s.desk.grants, a));
  }

  /** Consent safety over every interleaving: an authorized grant was approved, field for field, by the user in
      that grant's own presentation window, whatever requests, revocations and re-requests ran between the
      decision's read and its authorization; and no approval stands behind two authorizations. */
  lemma {:induction false} ConsentSafety(actions: seq<Action>)
    ensures var s := Exec(IDLE, actions);
            && Inv(s)
            && AllConsented(s.desk.grants, s.log)
            && forall t, u :: t in s.log.authorizer && u in s.log.authorizer && t != u ==>
                 s.log.authorizer[t] != s.log.authorizer[u]
  {
    if actions != [] {
      ConsentSafety(actions[..|actions| - 1]);
      NextKeepsInv(Exec(IDLE, actions[..|actions| - 1]), actions[|actions| - 1]);
    }
  }

  /** A grant becomes authorized in one way only: it is pending, unchanged, and an approving call concludes.
      The call is spent by it, and a spent call never authorizes again. */
  lemma OnlyApprovalAuthorizes(s: Shared, a: Action, t: Target)
    requires Inv(s)
    requires AuthorizedGrant(s.desk.grants, t).None? && AuthorizedGrant(Next(s, a).desk.grants, t).Some?
    ensures AuthorizedGrant(Next(s, a).desk.grants, t) == PendingGrant(s.desk.grants, t)
    ensures a.Continue? && a.call in s.calls
    ensures s.calls[a.call] == SetDecision(ConsentRecord(t, Next(s, a).desk.grants[t].grant), true)
    ensures a.call !in s.log.spent && a.call in Next(s, a).log.spent
  {
    if a.Continue? && a.call in s.calls {
      AdvanceAuthorizes(s, a.call, a.p, t);
    } else {
      SectionAuthorizesNothing(s.desk.grants, a);
    }
  }

  lemma ConcludeAuthorizes(s: Shared, call: nat, record: ConsentRecord, approve: bool, t: Target)
    requires AuthorizedGrant(s.desk.grants, t).None?
    requires AuthorizedGrant(Conclude(s, call, record, approve).desk.grants, t).Some?
    ensures var s1 := Conclude(s, call, record, approve);
            && AuthorizedGrant(s1.desk.grants, t) == PendingGrant(s.desk.grants, t)
            && record == ConsentRecord(t, s1.desk.grants[t].grant) && approve && call in s1.log.spent
  {
  }

  lemma AdvanceAuthorizes(s: Shared, call: nat, p: Presentation, t: Target)
    requires Inv(s) && call in s.calls
    requires AuthorizedGrant(s.desk.grants, t).None? && AuthorizedGrant(Advance(s, call, p).desk.grants, t).Some?
    ensures AuthorizedGrant(Advance(s, call, p).desk.grants, t) == PendingGrant(s.desk.grants, t)
    ensures s.calls[call] == SetDecision(ConsentRecord(t, Advance(s, call, p).desk.grants[t].grant), true)
    ensures call !in s.log.spent && call in Advance(s, call, p).log.spent
  {
    assert CallInv(s.log, call, s.calls[call]);
    hide Conclude, Inv;
    match s.calls[call]
    case SetDecision(record, approve) =>
      assert Advance(s, call, p) == Conclude(s, call, record, approve);
      ConcludeAuthorizes(s, call, record, approve, t);
    case _ =>
  }

  // ---- the sequential calls are these lock sections run back to back ----

  /** Without interference, starting a decision and continuing it to its end is `DecidedFor`. */
  lemma UninterruptedDecide(s: Shared, call: nat, token: string, window: string, approve: bool, p: Presentation)
    requires call !in s.started && PresentedOn(s.desk, token, window)
    ensures var go := Continue(call, p);
            var r := Next(Next(Next(Next(s, StartDecide(call, token, window, approve)), go), go), go);
            r.desk == DecidedFor(s.desk, token, window, approve).0 && call !in r.calls
  {
    var record := s.desk.byToken[token];
    var go := Continue(call, p);
    var s1 := Next(s, StartDecide(call, token, window, approve));
    var s2 := Next(s1, go);
    assert s2.desk == s.desk.(byToken := s.desk.byToken - {token})
        && s2.calls[call] == Unlink(token, record, ThenDecide(record, approve));
    var s3 := Next(s2, go);
    assert s3.desk == RemovedRecord(s.desk, token) && s3.calls[call] == SetDecision(record, approve);
  }

  /** Without interference, cancelling a live token is `CancelledIfPending`. */
  lemma UninterruptedCancel(s: Shared, call: nat, token: string, p: Presentation)
    requires call !in s.started && token in s.desk.byToken
    ensures var go := Continue(call, p);
            var r := Next(Next(Next(Next(s, StartCancel(call, token)), go), go), go);
            r.desk == CancelledIfPending(s.desk, token) && call !in r.calls
  {
    var record := s.desk.byToken[token];
    var go := Continue(call, p);
    var s1 := Next(s, StartCancel(call, token));
    var s2 := Next(s1, go);
    assert s2.desk == s.desk.(byToken := s.desk.byToken - {token})
        && s2.calls[call] == Unlink(token, record, ThenDeny);
    var s3 := Next(s2, go);
    assert s3.desk == RemovedRecord(s.desk, token) && s3.calls[call] == SetDecision(record, false);
  }
}
