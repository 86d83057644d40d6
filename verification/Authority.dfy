/** The grant authority (`AuthenticatedSessionAuthority`): one record per target. */
module Authority {
  import opened Wrappers

  datatype BrowserKind = Firefox | Chromium | Chrome | Brave
  datatype Scope = Once | Session | Remembered
  datatype Decision = Pending | Authorized | Denied | Revoked
  datatype SiteBundle = ExactDomain | YouTube
  datatype Target = Domain(domain: string) | Window(windowSessionId: string)

  datatype Grant = Grant(
    target: Target, domain: string, windowSessionId: Option<string>, browser: BrowserKind, scope: Scope,
    reason: Option<string>, cookieDomains: seq<string>, bundle: SiteBundle)

  datatype GrantRecord = GrantRecord(grant: Grant, decision: Decision, available: bool, applied: bool)
  type Grants = map<Target, GrantRecord>

  datatype ValidTarget = ValidTarget(requestedDomain: string, cookieDomains: seq<string>, bundle: SiteBundle)

  /** `ValidatedAuthRequest::Request`. */
  datatype GrantRequest = GrantRequest(
    target: Option<ValidTarget>, windowSessionId: Option<string>, browser: BrowserKind, scope: Scope,
    reason: Option<string>, presentationWindow: Option<string>)

  datatype AuthError = RememberedUnsupported | WindowDomainUnavailable | GrantNotFound | NotAuthorized | GrantInUse

  datatype View = View(target: Target, domain: string, browser: BrowserKind, scope: Scope, decision: Decision,
                       available: bool, applied: bool, reason: Option<string>)

  function Viewed(r: GrantRecord): View {
    View(r.grant.target, r.grant.domain, r.grant.browser, r.grant.scope, r.decision, r.available, r.applied,
         r.grant.reason)
  }

  /** The pending grant a request asks for. */
  function AskedGrant(q: GrantRequest, resolvedDomain: Option<ValidTarget>): Result<Grant, AuthError> {
    if q.scope.Remembered? then Err(RememberedUnsupported)
    else match (q.target, q.windowSessionId)
      case (Some(t), None) =>
        if q.presentationWindow.None? then Err(GrantNotFound)
        else Ok(Grant(Domain(t.requestedDomain), t.requestedDomain, q.presentationWindow, q.browser, q.scope, q.reason,
                      t.cookieDomains, t.bundle))
      case (None, Some(w)) =>
        if q.presentationWindow.Some? then Err(GrantNotFound)
        else if resolvedDomain.None? then Err(WindowDomainUnavailable)
        else
          var t := resolvedDomain.value;
          Ok(Grant(Window(w), t.requestedDomain, Some(w), q.browser, q.scope, q.reason, t.cookieDomains, t.bundle))
      case _ => Err(GrantNotFound)
  }

  predicate AlreadyGranted(r: GrantRecord, asked: Grant) {
    r.decision.Authorized? && r.grant.browser == asked.browser && r.grant.scope == asked.scope
    && r.grant.domain == asked.domain
  }

  /** `request`: answers with a matching authorization, refuses to replace an applied grant, else
      starts a new pending record. */
  function Requested(g: Grants, q: GrantRequest, resolvedDomain: Option<ValidTarget>)
    : (Grants, Result<View, AuthError>)
  {
    match AskedGrant(q, resolvedDomain)
    case Err(e) => (g, Err(e))
    case Ok(asked) =>
      var key := asked.target;
      if key in g && AlreadyGranted(g[key], asked) then (g, Ok(Viewed(g[key])))
      else if key in g && g[key].applied then (g, Err(GrantInUse))
      else
        var r := GrantRecord(asked, Pending, false, false);
        (g[key := r], Ok(Viewed(r)))
  }

  /** `revoke` and `revoke_window`. */
  function RevokedAt(g: Grants, key: Target): Grants {
    if key in g then g[key := GrantRecord(g[key].grant, Revoked, false, false)] else g
  }

  /** `set_pending_decision`: only a pending record, and with `expected` only the very grant expected. */
  function Decided(g: Grants, key: Target, expected: Option<Grant>, d: Decision): (Grants, Result<View, AuthError>) {
    if key !in g || !g[key].decision.Pending? || (expected.Some? && expected.value != g[key].grant)
    then (g, Err(GrantNotFound))
    else
      var r := if d.Authorized? then g[key].(decision := d) else GrantRecord(g[key].grant, d, false, false);
      (g[key := r], Ok(Viewed(r)))
  }

  function MarkedAvailable(g: Grants, key: Target, available: bool): (Grants, Result<View, AuthError>) {
    if key !in g then (g, Err(GrantNotFound))
    else if !g[key].decision.Authorized? then (g, Err(NotAuthorized))
    else
      var r := g[key].(available := available, applied := g[key].applied && available);
      (g[key := r], Ok(Viewed(r)))
  }

  function MarkedApplied(g: Grants, key: Target, applied: bool): (Grants, Result<View, AuthError>) {
    if key !in g then (g, Err(GrantNotFound))
    else if !g[key].decision.Authorized? || (applied && !g[key].available) then (g, Err(NotAuthorized))
    else
      var r := g[key].(applied := applied);
      (g[key := r], Ok(Viewed(r)))
  }

  function ClearedOnce(g: Grants, key: Target): Grants {
    if key in g && g[key].grant.scope.Once? then RevokedAt(g, key) else g
  }

  function AuthorizedGrant(g: Grants, key: Target): Option<Grant> {
    if key in g && g[key].decision.Authorized? then Some(g[key].grant) else None
  }

  function PendingGrant(g: Grants, key: Target): Option<Grant> {
    if key in g && g[key].decision.Pending? then Some(g[key].grant) else None
  }

  /** Flags agree with the decision, and a record sits under its grant's target and, for a window
      target, is presented on that window. */
  ghost predicate GrantsInv(g: Grants) {
    forall k :: k in g ==>
      && g[k].grant.target == k
      && (g[k].applied ==> g[k].available)
      && (g[k].available ==> g[k].decision.Authorized?)
      && (k.Window? ==> g[k].grant.windowSessionId == Some(k.windowSessionId))
      && g[k].grant.windowSessionId.Some?
  }

  class AuthenticatedSessionAuthority {
    var grants: Grants

    constructor ()
      ensures grants == map[]
    {
      grants := map[];
    }

    method Request(q: GrantRequest, resolvedDomain: Option<ValidTarget>) returns (r: Result<View, AuthError>)
      modifies this
      ensures (grants, r) == Requested(old(grants), q, resolvedDomain)
      ensures GrantsInv(old(grants)) ==> GrantsInv(grants)
    {
      var asked := AskedGrant(q, resolvedDomain);
      if asked.Err? {
        return Err(asked.error);
      }
      var pending := asked.value;
      if pending.target in grants {
        var existing := grants[pending.target];
        if AlreadyGranted(existing, pending) {
          return Ok(Viewed(existing));
        }
        if existing.applied {
          return Err(GrantInUse);
        }
      }
      var record := GrantRecord(pending, Pending, false, false);
      grants := grants[pending.target := record];
      r := Ok(Viewed(record));
    }

    method Revoke(key: Target)
      modifies this
      ensures grants == RevokedAt(old(grants), key)
      ensures GrantsInv(old(grants)) ==> GrantsInv(grants)
    {
      if key in grants {
        var record := grants[key];
        grants := grants[key := record.(decision := Revoked, available := false, applied := false)];
      }
    }

    method SetPendingDecision(key: Target, expected: Option<Grant>, decision: Decision)
      returns (r: Result<View, AuthError>)
      modifies this
      ensures (grants, r) == Decided(old(grants), key, expected, decision)
      ensures GrantsInv(old(grants)) ==> GrantsInv(grants)
      ensures r.Ok? <==> key in old(grants) && old(grants)[key].decision.Pending?
                         && (expected.Some? ==> old(grants)[key].grant == expected.value)
    {
      if key !in grants {
        return Err(GrantNotFound);
      }
      var record := grants[key];
      if !record.decision.Pending? || (expected.Some? && expected.value != record.grant) {
        return Err(GrantNotFound);
      }
      record := record.(decision := decision);
      if !decision.Authorized? {
        record := record.(available := false, applied := false);
      }
      grants := grants[key := record];
      r := Ok(Viewed(record));
    }

    method MarkAvailable(key: Target, available: bool) returns (r: Result<View, AuthError>)
      modifies this
      ensures (grants, r) == MarkedAvailable(old(grants), key, available)
      ensures GrantsInv(old(grants)) ==> GrantsInv(grants)
    {
      if key !in grants {
        return Err(GrantNotFound);
      }
      if !grants[key].decision.Authorized? {
        return Err(NotAuthorized);
      }
      var record := grants[key].(available := available);
      if !available {
        record := record.(applied := false);
      }
      grants := grants[key := record];
      r := Ok(Viewed(record));
    }

    method MarkApplied(key: Target, applied: bool) returns (r: Result<View, AuthError>)
      modifies this
      ensures (grants, r) == MarkedApplied(old(grants), key, applied)
      ensures GrantsInv(old(grants)) ==> GrantsInv(grants)
    {
      if key !in grants {
        return Err(GrantNotFound);
      }
      if !grants[key].decision.Authorized? {
        return Err(NotAuthorized);
      }
      if applied && !grants[key].available {
        return Err(NotAuthorized);
      }
      grants := grants[key := grants[key].(applied := applied)];
      r := Ok(Viewed(grants[key]));
    }

    method ClearOnceAfterUse(key: Target)
      modifies this
      ensures grants == ClearedOnce(old(grants), key)
      ensures GrantsInv(old(grants)) ==> GrantsInv(grants)
    {
      if key in grants && grants[key].grant.scope.Once? {
        grants := grants[key := grants[key].(decision := Revoked, available := false, applied := false)];
      }
    }
  }

  // ---- what a request is answered ----

  ghost predicate SameSite(g: Grant, t: ValidTarget) {
    g.domain == t.requestedDomain && g.cookieDomains == t.cookieDomains && g.bundle == t.bundle
  }

  /** The request asks for exactly this grant: one of a domain, presented on a window that is named, or one of a
      window, presented on itself, whose domain was resolved. */
  ghost predicate AsksFor(q: GrantRequest, resolvedDomain: Option<ValidTarget>, g: Grant) {
    && !q.scope.Remembered? && g.browser == q.browser && g.scope == q.scope && g.reason == q.reason
    && ((&& q.target.Some? && q.windowSessionId.None? && q.presentationWindow.Some?
         && SameSite(g, q.target.value) && g.target == Domain(g.domain) && g.windowSessionId == q.presentationWindow)
        || (&& q.target.None? && q.windowSessionId.Some? && q.presentationWindow.None? && resolvedDomain.Some?
            && SameSite(g, resolvedDomain.value) && g.target == Window(q.windowSessionId.value)
            && g.windowSessionId == q.windowSessionId))
  }

  /** The record was authorized for the browser, the scope and the domain asked for. */
  ghost predicate AlreadyCovers(r: GrantRecord, asked: Grant) {
    && r.decision == Authorized && r.grant.browser == asked.browser && r.grant.scope == asked.scope
    && r.grant.domain == asked.domain
  }

  /** A request for a grant is answered Authorized only by an authorization of the same browser, scope and domain;
      otherwise it is refused while the target's grant is applied, and else the grant asked for becomes pending.
      A request that asks for no grant is refused; nothing else changes. */
  lemma RequestedIff(g: Grants, q: GrantRequest, resolvedDomain: Option<ValidTarget>, asked: Grant)
    requires AsksFor(q, resolvedDomain, asked)
    ensures var (g1, r) := Requested(g, q, resolvedDomain);
            var key := asked.target;
            if key in g && AlreadyCovers(g[key], asked) then
              && g1 == g && r.Ok? && r.value.decision == Authorized && r.value.browser == q.browser
              && r.value.scope == q.scope && r.value.domain == asked.domain
              && r.value.available == g[key].available && r.value.applied == g[key].applied
            else if key in g && g[key].applied then g1 == g && r == Err(GrantInUse)
            else
              && g1 == g[key := GrantRecord(asked, Pending, false, false)]
              && r == Ok(View(key, asked.domain, q.browser, q.scope, Pending, false, false, q.reason))
  {
  }

  lemma RefusedIff(g: Grants, q: GrantRequest, resolvedDomain: Option<ValidTarget>)
    ensures (forall asked :: !AsksFor(q, resolvedDomain, asked)) <==> AskedGrant(q, resolvedDomain).Err?
    ensures AskedGrant(q, resolvedDomain).Err? ==>
              Requested(g, q, resolvedDomain) == (g, Err(AskedGrant(q, resolvedDomain).error))
  {
    var a := AskedGrant(q, resolvedDomain);
    if a.Ok? {
      assert AsksFor(q, resolvedDomain, a.value);
    }
  }

  /** Clearing after use revokes the grants given once and touches no other. */
  lemma ClearedIff(g: Grants, key: Target)
    ensures var g1 := ClearedOnce(g, key);
            && g1.Keys == g.Keys
            && forall t :: t in g ==>
                 g1[t] == if t == key && g[t].grant.scope == Once then GrantRecord(g[t].grant, Revoked, false, false)
                          else g[t]
  {
  }
}
