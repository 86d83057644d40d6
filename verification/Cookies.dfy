/** Brokered cookies: what the applier installs in a window, tracks, rolls back and later removes. */
module Cookies {
  import opened Wrappers
  import opened Authority
  import Broker

  type BrokeredCookie = Broker.BrokeredCookie
  datatype AppliedCookie = AppliedCookie(name: string, domain: string, path: string)
  datatype AppliedSession = AppliedSession(domain: string, windowSessionId: string, cookies: seq<AppliedCookie>)
  datatype Metadata = Metadata(domain: string, windowSessionId: string, cookieCount: nat)

  datatype ApplyError =
    | AuthorityRefused(cause: AuthError)
    | NoUsableCookies
    | WindowManagerError
    | CookieOperation
    | CleanupPending

  type Jars = map<string, set<AppliedCookie>>

  /** The grants, the broker's sessions, what the applier tracks, and the cookies in each window. */
  datatype Credentials = Credentials(
    grants: Grants, sessions: map<Target, seq<BrokeredCookie>>, applied: map<Target, AppliedSession>, jars: Jars)

  /** The native side of one revoke: does the window have a handle, can its profile be purged, which
      deletions work, is it a web video and can that be restored. */
  datatype RevokeNative = RevokeNative(
    handle: bool, purges: bool, deletes: nat -> bool, webVideo: bool, restores: bool)

  /** The native side of one apply. `lands` says whether a failed installation reaches the window after
      all, as one reported failed by the five-second timeout may. */
  datatype ApplyNative = ApplyNative(
    profile: bool, cookieWindow: bool, installs: nat -> bool, lands: nat -> bool, rollbacks: nat -> bool,
    shows: bool, cleanup: RevokeNative)

  function Tracked(c: BrokeredCookie): AppliedCookie { AppliedCookie(c.name, c.domain, c.path) }

  function TrackedAll(cs: seq<BrokeredCookie>): (r: seq<AppliedCookie>)
    ensures |r| == |cs| && forall i :: 0 <= i < |cs| ==> r[i] == Tracked(cs[i])
  {
    seq(|cs|, i requires 0 <= i < |cs| => Tracked(cs[i]))
  }

  function Jar(jars: Jars, window: string): set<AppliedCookie> { if window in jars then jars[window] else {} }

  function Elements<T>(s: seq<T>): set<T> { set c | c in s }

  // ---- one pass over a list of cookies ----

  /** The cookies whose deletion failed, in order. */
  function Undeleted(cookies: seq<AppliedCookie>, deletes: nat -> bool): seq<AppliedCookie> {
    if cookies == [] then []
    else
      var n := |cookies| - 1;
      Undeleted(cookies[..n], deletes) + (if deletes(n) then [] else [cookies[n]])
  }

  /** The jar after trying to delete each cookie. */
  function Cleaned(jar: set<AppliedCookie>, cookies: seq<AppliedCookie>, deletes: nat -> bool): set<AppliedCookie> {
    if cookies == [] then jar
    else
      var n := |cookies| - 1;
      var rest := Cleaned(jar, cookies[..n], deletes);
      if deletes(n) then rest - {cookies[n]} else rest
  }

  /** How many installations work before the first that fails. */
  function InstalledCount(n: nat, installs: nat -> bool): (k: nat)
    ensures k <= n && (forall i :: 0 <= i < k ==> installs(i)) && (k < n ==> !installs(k))
  {
    if n == 0 then 0
    else
      var k := InstalledCount(n - 1, installs);
      if k == n - 1 && installs(k) then n else k
  }

  /** A cookie survives a pass exactly when it was there and none of its deletions worked. */
  lemma {:induction false} CleanedSpec(jar: set<AppliedCookie>, cookies: seq<AppliedCookie>, deletes: nat -> bool,
                                       c: AppliedCookie)
    ensures c in Cleaned(jar, cookies, deletes)
            <==> c in jar && forall i :: 0 <= i < |cookies| && cookies[i] == c ==> !deletes(i)
  {
    if cookies != [] {
      var n := |cookies| - 1;
      CleanedSpec(jar, cookies[..n], deletes, c);
      assert forall i :: 0 <= i < n ==> cookies[..n][i] == cookies[i];
    }
  }

  /** A cookie is kept for retry exactly when one of its deletions failed. */
  lemma {:induction false} UndeletedSpec(cookies: seq<AppliedCookie>, deletes: nat -> bool, c: AppliedCookie)
    ensures c in Undeleted(cookies, deletes) <==> exists i :: 0 <= i < |cookies| && cookies[i] == c && !deletes(i)
  {
    if cookies != [] {
      var n := |cookies| - 1;
      UndeletedSpec(cookies[..n], deletes, c);
      assert forall i :: 0 <= i < n ==> cookies[..n][i] == cookies[i];
    }
  }

  /** Whatever deletions fail, a pass leaves behind only cookies it keeps for retry or never listed. */
  lemma PassLosesNothing(jar: set<AppliedCookie>, cookies: seq<AppliedCookie>, deletes: nat -> bool)
    ensures forall c :: c in Cleaned(jar, cookies, deletes) && c in cookies ==> c in Undeleted(cookies, deletes)
    ensures Cleaned(jar, cookies, deletes) <= jar
    ensures forall c :: c in jar && c !in cookies ==> c in Cleaned(jar, cookies, deletes)
    ensures forall c :: c in Undeleted(cookies, deletes) ==> c in cookies
  {
    forall c
      ensures c in Cleaned(jar, cookies, deletes) && c in cookies ==> c in Undeleted(cookies, deletes)
      ensures c in Cleaned(jar, cookies, deletes) ==> c in jar
      ensures c in jar && c !in cookies ==> c in Cleaned(jar, cookies, deletes)
      ensures c in Undeleted(cookies, deletes) ==> c in cookies
    {
      CleanedSpec(jar, cookies, deletes, c);
      UndeletedSpec(cookies, deletes, c);
    }
  }

  /** When the listed cookies are distinct, the cookies kept for retry are exactly those still in the jar. */
  lemma KeptIsWhatRemains(jar: set<AppliedCookie>, cookies: seq<AppliedCookie>, deletes: nat -> bool, c: AppliedCookie)
    requires forall i, j :: 0 <= i < j < |cookies| ==> cookies[i] != cookies[j]
    requires forall x :: x in cookies ==> x in jar
    requires c in cookies
    ensures c in Undeleted(cookies, deletes) <==> c in Cleaned(jar, cookies, deletes)
  {
    CleanedSpec(jar, cookies, deletes, c);
    UndeletedSpec(cookies, deletes, c);
  }

  // ---- the two operations ----

  /** `revoke`. */
  function Withdrawn(s: Credentials, target: Target, n: RevokeNative): (Credentials, Option<ApplyError>) {
    if target !in s.applied then (s, None)
    else
      var session := s.applied[target];
      var w := session.windowSessionId;
      var unmarked := MarkedApplied(s.grants, target, false).0;
      if !n.handle then
        if n.purges then (Credentials(unmarked, s.sessions, s.applied - {target}, s.jars - {w}), None)
        else (s, Some(CleanupPending))
      else
        var failed := Undeleted(session.cookies, n.deletes);
        var jars := s.jars[w := Cleaned(Jar(s.jars, w), session.cookies, n.deletes)];
        if failed != [] then
          (s.(applied := s.applied[target := session.(cookies := failed)], jars := jars), Some(CookieOperation))
        else if n.webVideo && !n.restores then (s.(jars := jars), Some(WindowManagerError))
        else (Credentials(unmarked, s.sessions, s.applied - {target}, jars), None)
  }

  /** `apply_authorized_cookies`. */
  function ApplyCookies(s: Credentials, target: Target, window: string, n: ApplyNative)
    : (Credentials, Result<Metadata, ApplyError>)
  {
    var grant := AuthorizedGrant(s.grants, target);
    if grant.None? then (s, Err(AuthorityRefused(NotAuthorized)))
    else if target.Window? && target.windowSessionId != window then (s, Err(AuthorityRefused(GrantNotFound)))
    else if !n.cookieWindow then (s, Err(WindowManagerError))
    else if target !in s.sessions then (s, Err(NoUsableCookies))
    else
      var wanted := TrackedAll(s.sessions[target]);
      var k := InstalledCount(|wanted|, n.installs);
      var filled := Jar(s.jars, window) + Elements(wanted[..k]);
      if k == |wanted| then
        (s.(applied := s.applied[target := AppliedSession(grant.value.domain, window, wanted)],
            jars := s.jars[window := filled]),
         Ok(Metadata(grant.value.domain, window, k)))
      else
        var stray := if n.lands(k) then {wanted[k]} else {};
        var failed := Undeleted(wanted[..k], n.rollbacks);
        var jars := s.jars[window := Cleaned(filled + stray, wanted[..k], n.rollbacks)];
        if failed != [] then
          (s.(applied := s.applied[target := AppliedSession(grant.value.domain, window, failed)], jars := jars),
           Err(CookieOperation))
        else (s.(jars := jars), Err(CookieOperation))
  }

  /** `apply`: a failure after installation is answered with a revoke. */
  function Applied(s: Credentials, target: Target, window: string, n: ApplyNative)
    : (Credentials, Result<Metadata, ApplyError>)
  {
    if AuthorizedGrant(s.grants, target).None? then (s, Err(AuthorityRefused(NotAuthorized)))
    else if !n.profile then (s, Err(WindowManagerError))
    else
      var (s1, r) := ApplyCookies(s, target, window, n);
      if r.Err? then (s1, r)
      else if !n.shows then (Withdrawn(s1, target, n.cleanup).0, Err(WindowManagerError))
      else
        var (g, marked) := MarkedApplied(s1.grants, target, true);
        if marked.Err? then (Withdrawn(s1, target, n.cleanup).0, Err(AuthorityRefused(marked.error)))
        else (s1.(grants := g), r)
  }

  // ---- the class ----

  class AuthenticatedSessionWebKit {
    const authority: AuthenticatedSessionAuthority
    const broker: Broker.AuthenticatedSessionBroker
    var applied: map<Target, AppliedSession>
    var jars: Jars

    function Abs(): Credentials
      reads this, authority, broker
    {
      Credentials(authority.grants, broker.sessions, applied, jars)
    }

    constructor (authority: AuthenticatedSessionAuthority, broker: Broker.AuthenticatedSessionBroker)
      ensures this.authority == authority && this.broker == broker && applied == map[] && jars == map[]
    {
      this.authority, this.broker := authority, broker;
      applied, jars := map[], map[];
    }

    /** The deletion loop that rollback and revoke share in form. */
    method DeleteEach(window: string, cookies: seq<AppliedCookie>, deletes: nat -> bool)
      returns (failed: seq<AppliedCookie>)
      modifies this`jars
      ensures failed == Undeleted(cookies, deletes)
      ensures jars == old(jars)[window := Cleaned(Jar(old(jars), window), cookies, deletes)]
    {
      failed := [];
      jars := jars[window := Jar(jars, window)];
      var i := 0;
      while i < |cookies|
        invariant 0 <= i <= |cookies|
        invariant failed == Undeleted(cookies[..i], deletes)
        invariant jars == old(jars)[window := Cleaned(Jar(old(jars), window), cookies[..i], deletes)]
      {
        assert cookies[..i + 1][..i] == cookies[..i];
        if deletes(i) {
          jars := jars[window := jars[window] - {cookies[i]}];
        } else {
          failed := failed + [cookies[i]];
        }
        i := i + 1;
      }
      assert cookies[..i] == cookies;
    }

    /** What an installation failure does to the cookies installed so far. */
    method RollBack(target: Target, window: string, domain: string, cookies: seq<AppliedCookie>, rollbacks: nat -> bool)
      modifies this
      ensures jars == old(jars)[window := Cleaned(Jar(old(jars), window), cookies, rollbacks)]
      ensures var failed := Undeleted(cookies, rollbacks);
              applied == if failed != [] then old(applied)[target := AppliedSession(domain, window, failed)]
                         else old(applied)
    {
      var failed := DeleteEach(window, cookies, rollbacks);
      if failed != [] {
        applied := applied[target := AppliedSession(domain, window, failed)];
      }
    }

    /** The installation loop; `ok` when every cookie was installed. */
    method InstallEach(target: Target, window: string, domain: string, brokered: seq<BrokeredCookie>, n: ApplyNative)
      returns (ok: bool, cookies: seq<AppliedCookie>)
      modifies this
      ensures var wanted := TrackedAll(brokered);
              var k := InstalledCount(|brokered|, n.installs);
              var filled := Jar(old(jars), window) + Elements(wanted[..k]);
              && ok == (k == |brokered|)
              && (ok ==> cookies == wanted && applied == old(applied) && jars == old(jars)[window := filled])
              && (!ok ==>
                    var failed := Undeleted(wanted[..k], n.rollbacks);
                    && applied == (if failed != [] then old(applied)[target := AppliedSession(domain, window, failed)]
                                   else old(applied))
                    && jars == old(jars)[window := Cleaned(filled + (if n.lands(k) then {wanted[k]} else {}),
                                                           wanted[..k], n.rollbacks)])
    {
      hide Cleaned, Undeleted;
      ghost var wanted := TrackedAll(brokered);
      ghost var before := Jar(jars, window);
      cookies := [];
      jars := jars[window := Jar(jars, window)];
      var i := 0;
      assert before + Elements(wanted[..i]) == before;
      while i < |brokered|
        invariant 0 <= i <= |brokered|
        invariant cookies == wanted[..i]
        invariant i <= InstalledCount(|brokered|, n.installs)
        invariant jars == old(jars)[window := before + Elements(wanted[..i])]
        invariant applied == old(applied)
      {
        if !n.installs(i) {
          assert i == InstalledCount(|brokered|, n.installs);
          if n.lands(i) {
            jars := jars[window := jars[window] + {Tracked(brokered[i])}];
          }
          assert Jar(jars, window)
              == before + Elements(wanted[..i]) + (if n.lands(i) then {wanted[i]} else {});
          RollBack(target, window, domain, cookies, n.rollbacks);
          assert jars == old(jars)[window := jars[window]];
          return false, cookies;
        }
        assert wanted[..i + 1] == wanted[..i] + [wanted[i]];
        assert before + Elements(wanted[..i]) + {wanted[i]} == before + Elements(wanted[..i + 1]);
        jars := jars[window := jars[window] + {Tracked(brokered[i])}];
        cookies := cookies + [Tracked(brokered[i])];
        i := i + 1;
      }
      assert wanted[..i] == wanted;
      ok := true;
    }

    method ApplyAuthorizedCookies(target: Target, window: string, n: ApplyNative)
      returns (r: Result<Metadata, ApplyError>)
      modifies this
      ensures (Abs(), r) == ApplyCookies(old(Abs()), target, window, n)
    {
      hide Cleaned, Undeleted, Elements, InstalledCount;
      var grant := AuthorizedGrant(authority.grants, target);
      if grant.None? {
        return Err(AuthorityRefused(NotAuthorized));
      }
      if target.Window? && target.windowSessionId != window {
        return Err(AuthorityRefused(GrantNotFound));
      }
      if !n.cookieWindow {
        return Err(WindowManagerError);
      }
      if target !in broker.sessions {
        return Err(NoUsableCookies);
      }
      var brokered := broker.sessions[target];
      var ok, cookies := InstallEach(target, window, grant.value.domain, brokered, n);
      if !ok {
        return Err(CookieOperation);
      }
      applied := applied[target := AppliedSession(grant.value.domain, window, cookies)];
      r := Ok(Metadata(grant.value.domain, window, |cookies|));
    }

    method Revoke(target: Target, n: RevokeNative) returns (failure: Option<ApplyError>)
      modifies this, authority
      ensures (Abs(), failure) == Withdrawn(old(Abs()), target, n)
    {
      if target !in applied {
        return None;
      }
      var session := applied[target];
      if !n.handle {
        if !n.purges {
          return Some(CleanupPending);
        }
        jars := jars - {session.windowSessionId};
        applied := applied - {target};
        var _ := authority.MarkApplied(target, false);
        return None;
      }
      var failed := DeleteEach(session.windowSessionId, session.cookies, n.deletes);
      if failed != [] {
        applied := applied[target := session.(cookies := failed)];
        return Some(CookieOperation);
      }
      if n.webVideo && !n.restores {
        return Some(WindowManagerError);
      }
      applied := applied - {target};
      var _ := authority.MarkApplied(target, false);
      failure := None;
    }

    method Apply(target: Target, window: string, n: ApplyNative) returns (r: Result<Metadata, ApplyError>)
      modifies this, authority
      ensures (Abs(), r) == Applied(old(Abs()), target, window, n)
    {
      if AuthorizedGrant(authority.grants, target).None? {
        return Err(AuthorityRefused(NotAuthorized));
      }
      if !n.profile {
        return Err(WindowManagerError);
      }
      r := ApplyAuthorizedCookies(target, window, n);
      if r.Err? {
        return;
      }
      if !n.shows {
        var _ := Revoke(target, n.cleanup);
        return Err(WindowManagerError);
      }
      var marked := authority.MarkApplied(target, true);
      if marked.Err? {
        var _ := Revoke(target, n.cleanup);
        return Err(AuthorityRefused(marked.error));
      }
    }
  }
}
