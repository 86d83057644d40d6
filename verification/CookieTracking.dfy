/** No installed cookie is forgotten: install, rollback, retry and revoke against the cookies in the window. */
module CookieTracking {
  import opened Wrappers
  import opened Authority
  import opened Cookies

  /** The cookies tracked for `target` in `window`. */
  function CookiesOf(s: Credentials, target: Target, window: string): set<AppliedCookie> {
    if target in s.applied && s.applied[target].windowSessionId == window
    then Elements(s.applied[target].cookies) else {}
  }

  /** The apply gets as far as installing cookies. */
  predicate Reaches(s: Credentials, target: Target, window: string, n: ApplyNative) {
    && AuthorizedGrant(s.grants, target).Some? && n.profile && n.cookieWindow && target in s.sessions
    && (target.Window? ==> target.windowSessionId == window)
  }

  /** The cookie whose installation fails first. */
  function FirstFailing(s: Credentials, target: Target, n: ApplyNative): AppliedCookie
    requires target in s.sessions && InstalledCount(|s.sessions[target]|, n.installs) < |s.sessions[target]|
  {
    TrackedAll(s.sessions[target])[InstalledCount(|s.sessions[target]|, n.installs)]
  }

  /** A failed installation reached the window all the same, and no earlier one installed that cookie. */
  predicate StrayLanding(s: Credentials, target: Target, window: string, n: ApplyNative) {
    Reaches(s, target, window, n) &&
    var wanted := TrackedAll(s.sessions[target]);
    var k := InstalledCount(|wanted|, n.installs);
    k < |wanted| && n.lands(k) && wanted[k] !in wanted[..k]
  }

  /** The cookies the apply writes to the window: those installed, and one whose installation failed and landed.
      Each may replace a cookie of the same name, domain and path. */
  function WrittenBy(s: Credentials, target: Target, window: string, n: ApplyNative): set<AppliedCookie> {
    if !Reaches(s, target, window, n) then {}
    else
      var wanted := TrackedAll(s.sessions[target]);
      var k := InstalledCount(|wanted|, n.installs);
      Elements(wanted[..k]) + (if k < |wanted| && n.lands(k) then {wanted[k]} else {})
  }

  /** It was not in the window before, either. */
  predicate NewStray(s: Credentials, target: Target, window: string, n: ApplyNative) {
    StrayLanding(s, target, window, n) && FirstFailing(s, target, n) !in Jar(s.jars, window)
  }

  /** What a revoke does to the tracked session, by outcome. */
  lemma RevokeExact(s: Credentials, target: Target, n: RevokeNative)
    requires target in s.applied
    ensures var (s1, failure) := Withdrawn(s, target, n);
            var before := s.applied[target];
            var jar := Jar(s1.jars, before.windowSessionId);
            match failure
            case None => target !in s1.applied && forall c :: c in before.cookies ==> c !in jar
            case Some(CookieOperation) =>
              && s1.applied == s.applied[target := before.(cookies := Undeleted(before.cookies, n.deletes))]
              && s1.applied[target].cookies != []
              && forall c :: c in before.cookies && c in jar ==> c in s1.applied[target].cookies
            case Some(WindowManagerError) =>
              s1.applied == s.applied && n.webVideo && forall c :: c in before.cookies ==> c !in jar
            case Some(e) => e == CleanupPending && s1 == s && !n.handle
  {
    var session := s.applied[target];
    PassLosesNothing(Jar(s.jars, session.windowSessionId), session.cookies, n.deletes);
  }

  /** A revoke touches no other target and no other window, and leaves behind nothing it forgets. */
  lemma RevokeFrame(s: Credentials, target: Target, n: RevokeNative, w: string)
    ensures var s1 := Withdrawn(s, target, n).0;
            && (forall t :: t != target ==> (t in s1.applied <==> t in s.applied)
                                            && (t in s.applied ==> s1.applied[t] == s.applied[t]))
            && Jar(s1.jars, w) <= Jar(s.jars, w)
            && Jar(s1.jars, w) * CookiesOf(s, target, w) <= CookiesOf(s1, target, w)
            && (CookiesOf(s, target, w) == {} && !(target in s.applied && s.applied[target].windowSessionId == w)
                ==> Jar(s1.jars, w) == Jar(s.jars, w))
  {
    if target in s.applied {
      RevokeExact(s, target, n);
      var session := s.applied[target];
      PassLosesNothing(Jar(s.jars, session.windowSessionId), session.cookies, n.deletes);
    }
  }

  ghost predicate Frame(s: Credentials, s1: Credentials, target: Target) {
    forall t :: t != target ==> (t in s1.applied <==> t in s.applied)
                                && (t in s.applied ==> s1.applied[t] == s.applied[t])
  }

  /** The installation half alone: what is new in the window is tracked, but for a new stray. */
  lemma InstallTracks(s: Credentials, target: Target, window: string, n: ApplyNative, w: string)
    requires n.profile
    ensures var s1 := ApplyCookies(s, target, window, n).0;
            && Frame(s, s1, target)
            && (!NewStray(s, target, window, n) ==> Jar(s1.jars, w) <= Jar(s.jars, w) + CookiesOf(s1, target, w))
            && (w != window ==> Jar(s1.jars, w) == Jar(s.jars, w))
            && (target in s1.applied && target !in s.applied ==> s1.applied[target].windowSessionId == window)
  {
    hide Cleaned, Undeleted;
    if Reaches(s, target, window, n) {
      var wanted := TrackedAll(s.sessions[target]);
      var k := InstalledCount(|wanted|, n.installs);
      var stray := if k < |wanted| && n.lands(k) then {wanted[k]} else {};
      PassLosesNothing(Jar(s.jars, window) + Elements(wanted[..k]) + stray, wanted[..k], n.rollbacks);
      assert wanted[..|wanted|] == wanted;
    }
  }

  lemma InstallTracksWritten(s: Credentials, target: Target, window: string, n: ApplyNative)
    requires n.profile && !StrayLanding(s, target, window, n)
    ensures var s1 := ApplyCookies(s, target, window, n).0;
            Jar(s1.jars, window) * WrittenBy(s, target, window, n) <= CookiesOf(s1, target, window)
  {
    hide Cleaned, Undeleted;
    if Reaches(s, target, window, n) {
      var wanted := TrackedAll(s.sessions[target]);
      var k := InstalledCount(|wanted|, n.installs);
      var stray := if k < |wanted| && n.lands(k) then {wanted[k]} else {};
      PassLosesNothing(Jar(s.jars, window) + Elements(wanted[..k]) + stray, wanted[..k], n.rollbacks);
      assert wanted[..|wanted|] == wanted;
    }
  }

  lemma InstallOnlyWrites(s: Credentials, target: Target, window: string, n: ApplyNative, w: string)
    requires n.profile
    ensures var s1 := ApplyCookies(s, target, window, n).0;
            Jar(s1.jars, w) <= Jar(s.jars, w) + (if w == window then WrittenBy(s, target, window, n) else {})
  {
    hide Cleaned, Undeleted;
    if Reaches(s, target, window, n) {
      var wanted := TrackedAll(s.sessions[target]);
      var k := InstalledCount(|wanted|, n.installs);
      var stray := if k < |wanted| && n.lands(k) then {wanted[k]} else {};
      PassLosesNothing(Jar(s.jars, window) + Elements(wanted[..k]) + stray, wanted[..k], n.rollbacks);
    }
  }

  /** Whatever installations, rollbacks and deletions fail and whatever the apply answers, each cookie it
      writes and leaves in the window is tracked for the target, unless a failed installation landed; nothing
      but what it writes comes into a window, and other targets are untouched. */
  lemma ApplyTracks(s: Credentials, target: Target, window: string, n: ApplyNative, w: string)
    ensures var s1 := Applied(s, target, window, n).0;
            var written := WrittenBy(s, target, window, n);
            && Frame(s, s1, target)
            && Jar(s1.jars, w) <= Jar(s.jars, w) + (if w == window then written else {})
            && (!StrayLanding(s, target, window, n) ==>
                  Jar(s1.jars, window) * written <= CookiesOf(s1, target, window))
  {
    if AuthorizedGrant(s.grants, target).Some? && n.profile {
      InstallTracks(s, target, window, n, w);
      InstallOnlyWrites(s, target, window, n, w);
      var s1 := ApplyCookies(s, target, window, n).0;
      RevokeFrame(s1, target, n.cleanup, w);
      RevokeFrame(s1, target, n.cleanup, window);
      if !StrayLanding(s, target, window, n) {
        InstallTracksWritten(s, target, window, n);
      }
    }
  }

  /** What it adds to a window is tracked for the target, unless a failed installation put it there. */
  lemma AddedAreTracked(s: Credentials, target: Target, window: string, n: ApplyNative, w: string)
    requires !NewStray(s, target, window, n)
    ensures var s1 := Applied(s, target, window, n).0;
            && Jar(s1.jars, w) <= Jar(s.jars, w) + CookiesOf(s1, target, w)
            && (w != window && target !in s.applied ==> Jar(s1.jars, w) == Jar(s.jars, w))
  {
    if AuthorizedGrant(s.grants, target).Some? && n.profile {
      InstallTracks(s, target, window, n, w);
      var s1 := ApplyCookies(s, target, window, n).0;
      RevokeFrame(s1, target, n.cleanup, w);
    }
  }

  /** A stray stays in the window untracked. */
  lemma StrayIsForgotten(s: Credentials, target: Target, window: string, n: ApplyNative)
    requires target !in s.applied && StrayLanding(s, target, window, n)
    ensures var s1 := Applied(s, target, window, n).0;
            var stray := FirstFailing(s, target, n);
            stray in Jar(s1.jars, window) && stray !in CookiesOf(s1, target, window)
  {
    var wanted := TrackedAll(s.sessions[target]);
    var k := InstalledCount(|wanted|, n.installs);
    PassLosesNothing(Jar(s.jars, window) + Elements(wanted[..k]) + {wanted[k]}, wanted[..k], n.rollbacks);
  }

  /** From a target with no tracked session, every cookie an apply writes and leaves in the window is tracked if
      and only if no failed installation landed there. */
  lemma ApplyTracksIff(s: Credentials, target: Target, window: string, n: ApplyNative)
    requires target !in s.applied
    ensures var s1 := Applied(s, target, window, n).0;
            Jar(s1.jars, window) * WrittenBy(s, target, window, n) <= CookiesOf(s1, target, window)
            <==> !StrayLanding(s, target, window, n)
  {
    ApplyTracks(s, target, window, n, window);
    if StrayLanding(s, target, window, n) {
      StrayIsForgotten(s, target, window, n);
      assert FirstFailing(s, target, n) in WrittenBy(s, target, window, n);
    }
  }

  /** Of the cookies it adds the same holds, but for one that was in the window already. */
  lemma AddedAreTrackedIff(s: Credentials, target: Target, window: string, n: ApplyNative)
    requires target !in s.applied
    ensures var s1 := Applied(s, target, window, n).0;
            (forall w :: Jar(s1.jars, w) <= Jar(s.jars, w) + CookiesOf(s1, target, w))
            <==> !NewStray(s, target, window, n)
  {
    var s1 := Applied(s, target, window, n).0;
    if NewStray(s, target, window, n) {
      StrayIsForgotten(s, target, window, n);
      assert !(Jar(s1.jars, window) <= Jar(s.jars, window) + CookiesOf(s1, target, window));
    } else {
      forall w
        ensures Jar(s1.jars, w) <= Jar(s.jars, w) + CookiesOf(s1, target, w)
      {
        AddedAreTracked(s, target, window, n, w);
      }
    }
  }

  // ---- failed revokes ----

  /** A failed revoke that could try the deletions keeps exactly the cookies it could not delete, if and only
      if it had none to delete or not both of these hold: every deletion worked, and the window is a web video
      that could not be restored. */
  lemma FailedRevokeKeepsUndeletedIff(s: Credentials, target: Target, n: RevokeNative)
    requires target in s.applied && n.handle && Withdrawn(s, target, n).1.Some?
    ensures var s1, cookies := Withdrawn(s, target, n).0, s.applied[target].cookies;
            && target in s1.applied
            && (s1.applied[target].cookies == Undeleted(cookies, n.deletes)
                <==> cookies == []
                     || !(n.webVideo && !n.restores && forall i :: 0 <= i < |cookies| ==> n.deletes(i)))
  {
    var cookies := s.applied[target].cookies;
    var failed := Undeleted(cookies, n.deletes);
    if failed != [] {
      UndeletedSpec(cookies, n.deletes, failed[0]);
    } else {
      forall i | 0 <= i < |cookies|
        ensures n.deletes(i)
      {
        UndeletedSpec(cookies, n.deletes, cookies[i]);
      }
    }
  }

  const EVERY: nat -> bool := i => true

  /** One such revoke: the only cookie is gone from the window and still tracked. */
  lemma UnrestoredVideoKeepsList(c: AppliedCookie, target: Target, w: string)
    ensures var s := Credentials(map[], map[], map[target := AppliedSession("", w, [c])], map[w := {c}]);
            var (s1, failure) := Withdrawn(s, target, RevokeNative(true, false, EVERY, true, false));
            && failure == Some(WindowManagerError)
            && s1.applied[target].cookies == [c] && Jar(s1.jars, w) == {}
  {
    assert [c][..0] == [];
    assert Undeleted([c], EVERY) == [] && Cleaned({c}, [c], EVERY) == {};
  }

  // ---- applying again ----

  /** The apply puts a new session in place of the tracked one: every cookie was installed, or some could not be
      rolled back. */
  predicate Replaces(s: Credentials, target: Target, window: string, n: ApplyNative) {
    Reaches(s, target, window, n) &&
    var wanted := TrackedAll(s.sessions[target]);
    var k := InstalledCount(|wanted|, n.installs);
    k == |wanted| || Undeleted(wanted[..k], n.rollbacks) != []
  }

  /** If the cookie is in the tracked session's window, or lands there, it is among those installed, in the same
      window. */
  ghost predicate CoversOne(s: Credentials, target: Target, window: string, n: ApplyNative, c: AppliedCookie)
    requires target in s.applied && target in s.sessions
  {
    var w0 := s.applied[target].windowSessionId;
    var wanted := TrackedAll(s.sessions[target]);
    var k := InstalledCount(|wanted|, n.installs);
    var landed := w0 == window && k < |wanted| && n.lands(k);
    c in Jar(s.jars, w0) || (landed && c == wanted[k]) ==> w0 == window && c in wanted[..k]
  }

  /** So it is for every cookie of the tracked session. */
  ghost predicate Covers(s: Credentials, target: Target, window: string, n: ApplyNative)
    requires target in s.applied && target in s.sessions
  {
    forall c :: c in s.applied[target].cookies ==> CoversOne(s, target, window, n, c)
  }

  /** Every cookie is installed, the window cannot be shown or the grant is not available, and then the window is
      gone and its profile purged. */
  predicate Purges(s: Credentials, target: Target, window: string, n: ApplyNative) {
    && Reaches(s, target, window, n)
    && InstalledCount(|s.sessions[target]|, n.installs) == |s.sessions[target]|
    && (!n.shows || !s.grants[target].available)
    && !n.cleanup.handle && n.cleanup.purges
  }

  /** An apply to a tracked target forgets a cookie it leaves in a window. */
  ghost predicate Forgets(s: Credentials, target: Target, window: string, n: ApplyNative)
    requires target in s.applied
  {
    Replaces(s, target, window, n) && !Covers(s, target, window, n)
    && !(Purges(s, target, window, n) && s.applied[target].windowSessionId == window)
  }

  /** Every cookie tracked before and still in its window is tracked after. */
  ghost predicate KeepsEarlier(s: Credentials, s1: Credentials, target: Target) {
    forall w :: Jar(s1.jars, w) * CookiesOf(s, target, w) <= CookiesOf(s1, target, w)
  }

  lemma ReinstallKeepsOne(s: Credentials, target: Target, window: string, n: ApplyNative, c: AppliedCookie)
    requires target in s.applied && Replaces(s, target, window, n)
    ensures var s1, w0 := ApplyCookies(s, target, window, n).0, s.applied[target].windowSessionId;
            (c in Jar(s1.jars, w0) ==> c in CookiesOf(s1, target, w0)) <==> CoversOne(s, target, window, n, c)
  {
    hide Cleaned, Undeleted;
    var wanted := TrackedAll(s.sessions[target]);
    var k := InstalledCount(|wanted|, n.installs);
    var stray := if k < |wanted| && n.lands(k) then {wanted[k]} else {};
    PassLosesNothing(Jar(s.jars, window) + Elements(wanted[..k]) + stray, wanted[..k], n.rollbacks);
    assert wanted[..|wanted|] == wanted;
  }

  lemma ReinstallKeepsIff(s: Credentials, target: Target, window: string, n: ApplyNative)
    requires target in s.applied && n.profile
    ensures KeepsEarlier(s, ApplyCookies(s, target, window, n).0, target)
            <==> (Replaces(s, target, window, n) ==> Covers(s, target, window, n))
  {
    var s1, session := ApplyCookies(s, target, window, n).0, s.applied[target];
    var w0 := session.windowSessionId;
    if Replaces(s, target, window, n) {
      forall c
        ensures (c in Jar(s1.jars, w0) ==> c in CookiesOf(s1, target, w0)) <==> CoversOne(s, target, window, n, c)
      {
        ReinstallKeepsOne(s, target, window, n, c);
      }
      hide ApplyCookies, CoversOne, Jar;
      assert KeepsEarlier(s, s1, target) <==> Jar(s1.jars, w0) * CookiesOf(s, target, w0) <= CookiesOf(s1, target, w0);
      assert forall c :: c in session.cookies <==> c in CookiesOf(s, target, w0);
    }
  }

  /** A revoke that does not purge takes nothing but tracked cookies out, and tracks nothing new. */
  lemma RevokeTakesTracked(s: Credentials, target: Target, n: RevokeNative, w: string)
    requires n.handle || !n.purges
    ensures var s1 := Withdrawn(s, target, n).0;
            Jar(s.jars, w) - CookiesOf(s, target, w) <= Jar(s1.jars, w)
            && CookiesOf(s1, target, w) <= CookiesOf(s, target, w)
  {
    if target in s.applied {
      var session := s.applied[target];
      PassLosesNothing(Jar(s.jars, session.windowSessionId), session.cookies, n.deletes);
    }
  }

  /** A revoke after the installation forgets nothing more, and undoes the forgetting only by purging. */
  lemma RevokeKeepsIff(s: Credentials, s1: Credentials, target: Target, n: RevokeNative)
    requires n.handle || !n.purges
    ensures KeepsEarlier(s, Withdrawn(s1, target, n).0, target) <==> KeepsEarlier(s, s1, target)
  {
    var s2 := Withdrawn(s1, target, n).0;
    forall w
      ensures Jar(s2.jars, w) * CookiesOf(s, target, w) <= CookiesOf(s2, target, w)
              <==> Jar(s1.jars, w) * CookiesOf(s, target, w) <= CookiesOf(s1, target, w)
    {
      RevokeFrame(s1, target, n, w);
      RevokeTakesTracked(s1, target, n, w);
    }
  }

  /** A purge empties the window and ends the tracking. */
  lemma PurgeKeepsIff(s: Credentials, s1: Credentials, target: Target, n: RevokeNative)
    requires !n.handle && n.purges && target in s.applied && target in s1.applied
    ensures var w0 := s.applied[target].windowSessionId;
            KeepsEarlier(s, Withdrawn(s1, target, n).0, target)
            <==> s1.applied[target].windowSessionId == w0 || Jar(s1.jars, w0) * CookiesOf(s, target, w0) == {}
  {
    var w0 := s.applied[target].windowSessionId;
    var s2 := Withdrawn(s1, target, n).0;
    assert KeepsEarlier(s, s2, target) ==> Jar(s2.jars, w0) * CookiesOf(s, target, w0) <= CookiesOf(s2, target, w0);
  }

  /** An apply to a tracked target, whatever it answers, keeps every earlier cookie that is still in its window
      tracked if and only if it does not put another session in place of the tracked one, or that session covers
      what the window holds, or the window's profile is purged. */
  lemma ReapplyKeepsIff(s: Credentials, target: Target, window: string, n: ApplyNative)
    requires target in s.applied
    ensures KeepsEarlier(s, Applied(s, target, window, n).0, target) <==> !Forgets(s, target, window, n)
  {
    if AuthorizedGrant(s.grants, target).Some? && n.profile {
      var (s1, r) := ApplyCookies(s, target, window, n);
      ReinstallKeepsIff(s, target, window, n);
      if r.Ok? {
        InstalledReplaces(s, target, window, n);
        if !n.cleanup.handle && n.cleanup.purges {
          PurgeKeepsIff(s, s1, target, n.cleanup);
        } else {
          RevokeKeepsIff(s, s1, target, n.cleanup);
        }
      }
    }
  }

  lemma InstalledReplaces(s: Credentials, target: Target, window: string, n: ApplyNative)
    requires target in s.applied && n.profile && ApplyCookies(s, target, window, n).1.Ok?
    ensures var s1, w0 := ApplyCookies(s, target, window, n).0, s.applied[target].windowSessionId;
            && Replaces(s, target, window, n)
            && target in s1.applied && s1.applied[target].windowSessionId == window
            && (w0 != window ==>
                  (Covers(s, target, window, n) <==> Jar(s1.jars, w0) * CookiesOf(s, target, w0) == {}))
  {
    var w0 := s.applied[target].windowSessionId;
    var s1 := ApplyCookies(s, target, window, n).0;
    if w0 != window {
      var left := Jar(s1.jars, w0) * CookiesOf(s, target, w0);
      assert Jar(s1.jars, w0) == Jar(s.jars, w0);
      assert forall c :: c in left <==> c in s.applied[target].cookies && c in Jar(s.jars, w0);
      assert forall c :: CoversOne(s, target, window, n, c) <==> c !in Jar(s.jars, w0);
      hide CoversOne;
      assert Covers(s, target, window, n) <==> forall c :: c !in left;
    }
  }

  /** When the installation succeeds, the tracked list itself loses nothing exactly when it was empty, or the
      cookies went to the same window and all of them were installed again. */
  lemma ReinstalledListIff(s: Credentials, target: Target, window: string, n: ApplyNative)
    requires target in s.applied && ApplyCookies(s, target, window, n).1.Ok?
    ensures var s1, before := ApplyCookies(s, target, window, n).0, s.applied[target];
            (forall w :: CookiesOf(s, target, w) <= CookiesOf(s1, target, w))
            <==> before.cookies == []
                 || (before.windowSessionId == window
                     && forall c :: c in before.cookies ==> c in TrackedAll(s.sessions[target]))
  {
    var s1, session := ApplyCookies(s, target, window, n).0, s.applied[target];
    var mine := CookiesOf(s, target, session.windowSessionId);
    if forall w :: CookiesOf(s, target, w) <= CookiesOf(s1, target, w) {
      assert mine <= CookiesOf(s1, target, session.windowSessionId);
      if session.cookies != [] {
        assert session.cookies[0] in mine;
        assert forall c :: c in session.cookies ==> c in mine;
      }
    }
  }

  /** An apply answers Ok only for a grant that was authorized and available, with every installation
      done; then the grant is marked applied and every brokered cookie is in the window and tracked. */
  lemma ApplyOkMeans(s: Credentials, target: Target, window: string, n: ApplyNative)
    requires Applied(s, target, window, n).1.Ok?
    ensures var s1 := Applied(s, target, window, n).0;
            && Reaches(s, target, window, n) && s.grants[target].available
            && (forall i :: 0 <= i < |s.sessions[target]| ==> n.installs(i))
            && s1.grants == s.grants[target := s.grants[target].(applied := true)]
            && s1.applied[target].cookies == TrackedAll(s.sessions[target])
            && s1.applied[target].windowSessionId == window
            && forall c :: c in TrackedAll(s.sessions[target]) ==> c in Jar(s1.jars, window)
  {
    var wanted := TrackedAll(s.sessions[target]);
    assert wanted[..|wanted|] == wanted;
  }

  /** An apply succeeds exactly when it gets as far as installing, every cookie installs, the window shows and the
      grant is available. */
  lemma ApplyOkIff(s: Credentials, target: Target, window: string, n: ApplyNative)
    ensures Applied(s, target, window, n).1.Ok?
            <==> Reaches(s, target, window, n) && s.grants[target].available && n.shows
                 && forall i :: 0 <= i < |s.sessions[target]| ==> n.installs(i)
  {
    if Reaches(s, target, window, n) {
      var k := InstalledCount(|s.sessions[target]|, n.installs);
    }
  }

  lemma {:induction false} AllDeleted(cookies: seq<AppliedCookie>, deletes: nat -> bool)
    ensures Undeleted(cookies, deletes) == [] <==> forall i :: 0 <= i < |cookies| ==> deletes(i)
  {
    if exists i :: 0 <= i < |cookies| && !deletes(i) {
      var i :| 0 <= i < |cookies| && !deletes(i);
      UndeletedSpec(cookies, deletes, cookies[i]);
    } else if Undeleted(cookies, deletes) != [] {
      UndeletedSpec(cookies, deletes, Undeleted(cookies, deletes)[0]);
    }
  }

  /** A revoke succeeds exactly when nothing is tracked, or the window is gone and its profile can be purged, or every
      tracked cookie is deleted and a web video is restored. Then the target is tracked no more and its grant, if
      authorized, not applied. */
  lemma RevokeOkIff(s: Credentials, target: Target, n: RevokeNative)
    ensures var (s1, failure) := Withdrawn(s, target, n);
            && (failure.None?
                <==> target in s.applied ==>
                       if n.handle then (forall i :: 0 <= i < |s.applied[target].cookies| ==> n.deletes(i))
                                        && (n.webVideo ==> n.restores)
                       else n.purges)
            && (failure.None? ==>
                  && target !in s1.applied && s1.sessions == s.sessions && s1.grants.Keys == s.grants.Keys
                  && (target in s.applied && target in s.grants && s.grants[target].decision == Authorized ==>
                        s1.grants == s.grants[target := s.grants[target].(applied := false)]))
            && (failure.Some? ==> s1.grants == s.grants)
  {
    if target in s.applied {
      AllDeleted(s.applied[target].cookies, n.deletes);
    }
    hide Undeleted, Cleaned;
  }

  /** The broker can still hold a session for a grant asked for again; applying it before the new grant
      is made available installs, is refused, and leaves nothing behind that is not tracked. */
  lemma StaleSessionIsNotApplied(s: Credentials, target: Target, window: string, n: ApplyNative)
    requires Reaches(s, target, window, n) && !s.grants[target].available && target !in s.applied
    requires forall i :: n.installs(i)
    requires n.shows && n.cleanup.handle && !n.cleanup.webVideo && forall i :: n.cleanup.deletes(i)
    ensures var (s1, r) := Applied(s, target, window, n);
            && r == Err(AuthorityRefused(NotAuthorized)) && target !in s1.applied
            && forall c :: c in TrackedAll(s.sessions[target]) ==> c !in Jar(s1.jars, window)
  {
    var s1 := ApplyCookies(s, target, window, n).0;
    RevokeExact(s1, target, n.cleanup);
    var cookies := s1.applied[target].cookies;
    if Undeleted(cookies, n.cleanup.deletes) != [] {
      UndeletedSpec(cookies, n.cleanup.deletes, Undeleted(cookies, n.cleanup.deletes)[0]);
    }
  }

  /** One apply in another window: the only earlier cookie stays in the first window, tracked no more. */
  lemma OtherWindowForgets(g: Grant, c: AppliedCookie, target: Target, w: string, window: string, n: ApplyNative)
    requires w != window && target.Domain? && n.profile && n.cookieWindow
    ensures var s := Credentials(map[target := GrantRecord(g, Authorized, true, true)], map[target := []],
                                 map[target := AppliedSession("", w, [c])], map[w := {c}]);
            var s1 := ApplyCookies(s, target, window, n).0;
            && Forgets(s, target, window, n)
            && c in Jar(s1.jars, w) && c !in CookiesOf(s1, target, w)
  {
    var s := Credentials(map[target := GrantRecord(g, Authorized, true, true)], map[target := []],
                         map[target := AppliedSession("", w, [c])], map[w := {c}]);
    assert c in s.applied[target].cookies && !CoversOne(s, target, window, n, c);
  }

  // ---- over whole runs ----

  ghost predicate IsTracked(s: Credentials, w: string, c: AppliedCookie) {
    exists t :: t in s.applied && c in CookiesOf(s, t, w)
  }

  lemma RevokeKeepsTracked(s: Credentials, target: Target, n: RevokeNative, w: string, c: AppliedCookie)
    requires IsTracked(s, w, c) && c in Jar(Withdrawn(s, target, n).0.jars, w)
    ensures IsTracked(Withdrawn(s, target, n).0, w, c)
  {
    RevokeFrame(s, target, n, w);
    var t :| t in s.applied && c in CookiesOf(s, t, w);
    assert c in CookiesOf(Withdrawn(s, target, n).0, t, w);
  }

  /** An apply that forgets nothing keeps what was tracked and is still there tracked. */
  lemma ApplyKeepsTracked(s: Credentials, target: Target, window: string, n: ApplyNative, w: string, c: AppliedCookie)
    requires IsTracked(s, w, c) && c in Jar(Applied(s, target, window, n).0.jars, w)
    requires target in s.applied ==> !Forgets(s, target, window, n)
    ensures IsTracked(Applied(s, target, window, n).0, w, c)
  {
    var s1 := Applied(s, target, window, n).0;
    ApplyTracks(s, target, window, n, w);
    var t :| t in s.applied && c in CookiesOf(s, t, w);
    if t == target {
      ReapplyKeepsIff(s, target, window, n);
      assert Jar(s1.jars, w) * CookiesOf(s, target, w) <= CookiesOf(s1, target, w);
    }
    assert c in CookiesOf(s1, t, w);
  }

  /** An apply in which no failed installation lands tracks what it writes. */
  lemma WrittenIsTracked(s: Credentials, target: Target, window: string, n: ApplyNative, c: AppliedCookie)
    requires !StrayLanding(s, target, window, n)
    requires c in WrittenBy(s, target, window, n) && c in Jar(Applied(s, target, window, n).0.jars, window)
    ensures IsTracked(Applied(s, target, window, n).0, window, c)
  {
    ApplyTracks(s, target, window, n, window);
    assert c in CookiesOf(Applied(s, target, window, n).0, target, window);
  }
}
