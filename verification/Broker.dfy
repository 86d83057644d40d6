/** The cookie broker (`AuthenticatedSessionBroker`): reads the cookies a grant allows and holds them per target. */
module Broker {
  import opened Wrappers
  import opened Authority
  import opened Text

  const MAX_COOKIE_NAME_BYTES := 256
  const MAX_COOKIE_VALUE_BYTES := 4096
  const MAX_COOKIE_PATH_BYTES := 1024
  const MAX_BROKER_COOKIES := 200
  const MAX_BROKER_SECRET_BYTES := 64 * 1024

  datatype BrokeredCookie = BrokeredCookie(
    name: string, value: string, domain: string, path: string, expires: Option<int>,
    secure: bool, httpOnly: bool, sameSite: Option<int>)

  /** One row of the browser's cookie table. */
  datatype Row = Row(name: string, value: string, host: string, path: string, expiry: int, secure: int,
                     httpOnly: int, sameSite: Option<int>)

  datatype BrokerError =
    | NotAuthorizedGrant | MarkRefused | FirefoxCookieStore | ChromiumUnavailable | NoUsableCookies | TransferLimit

  datatype SessionMetadata = SessionMetadata(cookieCount: nat, cookieDomains: set<string>)

  type Sessions = map<Target, seq<BrokeredCookie>>

  predicate EndsWith(s: string, suffix: string) {
    |suffix| <= |s| && s[|s| - |suffix|..] == suffix
  }

  predicate HostMatches(bundle: SiteBundle, domain: string, host: string) {
    host == domain || host == "." + domain || (bundle.YouTube? && EndsWith(host, "." + domain))
  }

  /** `cookie_host_allowed`. */
  predicate HostAllowed(grant: Grant, host: string) {
    exists d :: d in grant.cookieDomains && HostMatches(grant.bundle, d, host)
  }

  function ToCookie(row: Row): BrokeredCookie {
    BrokeredCookie(row.name, row.value, row.host, row.path, if row.expiry > 0 then Some(row.expiry) else None,
                   row.secure != 0, row.httpOnly != 0, row.sameSite)
  }

  /** `validate_for_handoff`. */
  predicate ValidForHandoff(grant: Grant, now: int, c: BrokeredCookie) {
    && HostAllowed(grant, c.domain)
    && Utf8Len(c.name) <= MAX_COOKIE_NAME_BYTES
    && Utf8Len(c.value) <= MAX_COOKIE_VALUE_BYTES
    && Utf8Len(c.path) <= MAX_COOKIE_PATH_BYTES
    && StartsWith(c.path, "/")
    && (c.expires.Some? ==> c.expires.value > now)
  }

  /** A row the browser may use at `now`: its host is granted and it has not expired. */
  predicate Usable(grant: Grant, now: int, row: Row) {
    HostAllowed(grant, row.host) && !(0 < row.expiry <= now)
  }

  /** The cookies of the usable rows, in table order. */
  function UsableCookies(grant: Grant, now: int, rows: seq<Row>): seq<BrokeredCookie> {
    if rows == [] then []
    else
      var n := |rows| - 1;
      UsableCookies(grant, now, rows[..n]) + (if Usable(grant, now, rows[n]) then [ToCookie(rows[n])] else [])
  }

  function SecretBytes(cookies: seq<BrokeredCookie>): nat {
    if cookies == [] then 0
    else
      var c := cookies[|cookies| - 1];
      SecretBytes(cookies[..|cookies| - 1]) + Utf8Len(c.name) + Utf8Len(c.value)
  }

  ghost predicate Transferable(grant: Grant, now: int, cookies: seq<BrokeredCookie>) {
    && |cookies| <= MAX_BROKER_COOKIES
    && SecretBytes(cookies) <= MAX_BROKER_SECRET_BYTES
    && forall c :: c in cookies ==> ValidForHandoff(grant, now, c)
  }

  ghost predicate AllRead(table: seq<Option<Row>>) { forall i :: 0 <= i < |table| ==> table[i].Some? }

  function RowsOf(table: seq<Option<Row>>): (r: seq<Row>)
    requires forall i :: 0 <= i < |table| ==> table[i].Some?
    ensures |r| == |table| && forall i :: 0 <= i < |r| ==> r[i] == table[i].value
  {
    seq(|table|, i requires 0 <= i < |table| => table[i].value)
  }

  ghost predicate PrefixTransferable(grant: Grant, now: int, table: seq<Option<Row>>, n: nat)
    requires n <= |table|
  {
    AllRead(table[..n]) && Transferable(grant, now, UsableCookies(grant, now, RowsOf(table[..n])))
  }

  /** The cookies of the first `n` table rows. */
  ghost function Collected(grant: Grant, now: int, table: seq<Option<Row>>, n: nat): seq<BrokeredCookie>
    requires n <= |table| && AllRead(table[..n])
  {
    UsableCookies(grant, now, RowsOf(table[..n]))
  }

  lemma SecretBytesOfOneMore(cookies: seq<BrokeredCookie>, c: BrokeredCookie)
    ensures SecretBytes(cookies + [c]) == SecretBytes(cookies) + Utf8Len(c.name) + Utf8Len(c.value)
  {
    assert (cookies + [c])[..|cookies|] == cookies;
  }

  lemma UsableOfOneMore(grant: Grant, now: int, rows: seq<Row>, row: Row)
    ensures UsableCookies(grant, now, rows + [row])
            == UsableCookies(grant, now, rows) + (if Usable(grant, now, row) then [ToCookie(row)] else [])
  {
    assert (rows + [row])[..|rows|] == rows;
  }

  /** Limits on a prefix follow from limits on the whole. */
  lemma {:induction false} PrefixWithin(grant: Grant, now: int, rows: seq<Row>, n: nat)
    requires n <= |rows|
    ensures UsableCookies(grant, now, rows[..n]) <= UsableCookies(grant, now, rows)
    ensures SecretBytes(UsableCookies(grant, now, rows[..n])) <= SecretBytes(UsableCookies(grant, now, rows))
    decreases |rows|
  {
    if n == |rows| {
      assert rows[..n] == rows;
    } else {
      var m := |rows| - 1;
      assert rows[..m][..n] == rows[..n];
      PrefixWithin(grant, now, rows[..m], n);
      SecretBytesOfOneMore(UsableCookies(grant, now, rows[..m]), ToCookie(rows[m]));
      assert UsableCookies(grant, now, rows[..m]) + [] == UsableCookies(grant, now, rows[..m]);
    }
  }

  lemma PrefixOfTransferable(grant: Grant, now: int, table: seq<Option<Row>>, n: nat, m: nat)
    requires n <= m <= |table| && PrefixTransferable(grant, now, table, m)
    ensures PrefixTransferable(grant, now, table, n)
  {
    assert table[..n] == table[..m][..n];
    var rows := RowsOf(table[..m]);
    assert RowsOf(table[..n]) == rows[..n];
    PrefixWithin(grant, now, rows, n);
  }

  predicate RoomFor(grant: Grant, now: int, cookies: seq<BrokeredCookie>, c: BrokeredCookie) {
    && |cookies| < MAX_BROKER_COOKIES
    && SecretBytes(cookies) + Utf8Len(c.name) + Utf8Len(c.value) <= MAX_BROKER_SECRET_BYTES
    && ValidForHandoff(grant, now, c)
  }

  lemma TransferableOfOneMore(grant: Grant, now: int, cookies: seq<BrokeredCookie>, c: BrokeredCookie)
    requires Transferable(grant, now, cookies)
    ensures Transferable(grant, now, cookies + [c]) <==> RoomFor(grant, now, cookies, c)
  {
    SecretBytesOfOneMore(cookies, c);
    assert c in cookies + [c];
  }

  /** What one more row does to a transferable prefix. */
  lemma NextRow(grant: Grant, now: int, table: seq<Option<Row>>, i: nat)
    requires i < |table| && PrefixTransferable(grant, now, table, i)
    ensures table[i].None? ==> !PrefixTransferable(grant, now, table, i + 1)
    ensures table[i].Some? ==>
              && AllRead(table[..i + 1])
              && Collected(grant, now, table, i + 1)
                 == Collected(grant, now, table, i)
                    + (if Usable(grant, now, table[i].value) then [ToCookie(table[i].value)] else [])
              && (PrefixTransferable(grant, now, table, i + 1)
                  <==> (Usable(grant, now, table[i].value) ==>
                          RoomFor(grant, now, Collected(grant, now, table, i), ToCookie(table[i].value))))
  {
    if table[i].None? {
      assert table[..i + 1][i].None?;
    } else {
      assert RowsOf(table[..i + 1]) == RowsOf(table[..i]) + [table[i].value];
      UsableOfOneMore(grant, now, RowsOf(table[..i]), table[i].value);
      if Usable(grant, now, table[i].value) {
        TransferableOfOneMore(grant, now, Collected(grant, now, table, i), ToCookie(table[i].value));
      } else {
        assert Collected(grant, now, table, i + 1) == Collected(grant, now, table, i);
      }
    }
  }

  /** Row `i` is the first in the way, and `e` says why. */
  ghost predicate StopsAt(grant: Grant, now: int, table: seq<Option<Row>>, i: nat, e: BrokerError) {
    && i < |table|
    && PrefixTransferable(grant, now, table, i) && !PrefixTransferable(grant, now, table, i + 1)
    && e == if table[i].None? then FirefoxCookieStore else TransferLimit
  }

  /** The body of the loop for one row: the cookie it adds, if any, and whether the limits stop it. */
  method Admit(grant: Grant, now: int, cookies: seq<BrokeredCookie>, totalSecretBytes: nat, row: Row)
    returns (ok: bool, more: seq<BrokeredCookie>, total: nat)
    requires totalSecretBytes == SecretBytes(cookies)
    ensures ok <==> (Usable(grant, now, row) ==> RoomFor(grant, now, cookies, ToCookie(row)))
    ensures ok ==> more == cookies + (if Usable(grant, now, row) then [ToCookie(row)] else [])
    ensures ok ==> total == SecretBytes(more)
  {
    ok, more, total := true, cookies, totalSecretBytes;
    if !HostAllowed(grant, row.host) {
      return;
    }
    if row.expiry > 0 && row.expiry <= now {
      return;
    }
    total := total + Utf8Len(row.name) + Utf8Len(row.value);
    if total > MAX_BROKER_SECRET_BYTES || |cookies| >= MAX_BROKER_COOKIES {
      return false, more, total;
    }
    var cookie := ToCookie(row);
    if !ValidForHandoff(grant, now, cookie) {
      return false, more, total;
    }
    SecretBytesOfOneMore(cookies, cookie);
    more := cookies + [cookie];
  }

  /** The bounded filter loop of `FirefoxCookieSource::load`: the usable cookies in table order when every
      row reads and the limits hold for all of them, the error of the first row in the way otherwise. */
  method Load(grant: Grant, now: int, table: seq<Option<Row>>) returns (r: Result<seq<BrokeredCookie>, BrokerError>)
    ensures r.Ok? <==> PrefixTransferable(grant, now, table, |table|)
    ensures r.Ok? ==> AllRead(table) && r.value == UsableCookies(grant, now, RowsOf(table))
    ensures r.Err? ==> exists i :: StopsAt(grant, now, table, i, r.error)
  {
    var cookies: seq<BrokeredCookie> := [];
    var totalSecretBytes := 0;
    var i := 0;
    while i < |table|
      invariant 0 <= i <= |table|
      invariant PrefixTransferable(grant, now, table, i)
      invariant cookies == Collected(grant, now, table, i) && totalSecretBytes == SecretBytes(cookies)
    {
      NextRow(grant, now, table, i);
      if table[i].None? {
        NotWhole(grant, now, table, i + 1);
        assert StopsAt(grant, now, table, i, FirefoxCookieStore);
        return Err(FirefoxCookieStore);
      }
      var ok;
      ok, cookies, totalSecretBytes := Admit(grant, now, cookies, totalSecretBytes, table[i].value);
      if !ok {
        NotWhole(grant, now, table, i + 1);
        assert StopsAt(grant, now, table, i, TransferLimit);
        return Err(TransferLimit);
      }
      i := i + 1;
    }
    assert table[..i] == table;
    r := Ok(cookies);
  }

  lemma NotWhole(grant: Grant, now: int, table: seq<Option<Row>>, n: nat)
    requires n <= |table| && !PrefixTransferable(grant, now, table, n)
    ensures !PrefixTransferable(grant, now, table, |table|)
  {
    if PrefixTransferable(grant, now, table, |table|) {
      PrefixOfTransferable(grant, now, table, n, |table|);
    }
  }

  /** The row is for a granted host, has not expired, and holds exactly this cookie. An expiry of 0 or less is none. */
  ghost predicate Holds(grant: Grant, now: int, row: Row, c: BrokeredCookie) {
    && (exists d :: d in grant.cookieDomains && HostMatches(grant.bundle, d, row.host))
    && (row.expiry <= 0 || row.expiry > now)
    && c.name == row.name && c.value == row.value && c.domain == row.host && c.path == row.path
    && c.secure == (row.secure != 0) && c.httpOnly == (row.httpOnly != 0) && c.sameSite == row.sameSite
    && (if row.expiry <= 0 then c.expires == None else c.expires == Some(row.expiry))
  }

  /** Handing over nothing else: the loaded cookies are exactly those of unexpired rows for granted hosts. */
  lemma {:induction false} LoadedAreUsable(grant: Grant, now: int, rows: seq<Row>, c: BrokeredCookie)
    ensures c in UsableCookies(grant, now, rows) <==> exists i :: 0 <= i < |rows| && Holds(grant, now, rows[i], c)
  {
    if rows != [] {
      var n := |rows| - 1;
      LoadedAreUsable(grant, now, rows[..n], c);
      assert Holds(grant, now, rows[n], c) <==> Usable(grant, now, rows[n]) && ToCookie(rows[n]) == c;
      hide Holds, Usable, ToCookie;
      assert forall i :: 0 <= i < n ==> rows[..n][i] == rows[i];
    }
  }

  /** The hosts the query asks for (`authorized_cookie_hosts`, as a set). */
  function QueriedHosts(grant: Grant): set<string> {
    (set d | d in grant.cookieDomains) +
    (if grant.bundle.YouTube? then set d | d in grant.cookieDomains :: "." + d else {})
  }

  /** The query never reaches beyond the filter. */
  lemma QueryWithinFilter(grant: Grant, host: string)
    ensures host in QueriedHosts(grant) ==> HostAllowed(grant, host)
  {
    if host in QueriedHosts(grant) {
      if host in grant.cookieDomains {
        assert HostMatches(grant.bundle, host, host);
      } else {
        var d :| d in grant.cookieDomains && host == "." + d;
        assert HostMatches(grant.bundle, d, host);
      }
    }
  }

  /** The hosts the filter allows and the query never asks for: for an exact domain the dotted ones, for YouTube
      the proper subdomains; never a listed domain. */
  lemma QueryMissesIff(grant: Grant, host: string)
    ensures HostAllowed(grant, host) && host !in QueriedHosts(grant)
            <==> host !in grant.cookieDomains
                 && if grant.bundle.ExactDomain? then exists d :: d in grant.cookieDomains && host == "." + d
                    else (exists d :: d in grant.cookieDomains && EndsWith(host, "." + d))
                         && forall e :: e in grant.cookieDomains ==> host != "." + e
  {
    if HostAllowed(grant, host) && host !in grant.cookieDomains {
      var d :| d in grant.cookieDomains && HostMatches(grant.bundle, d, host);
      assert host == "." + d ==> EndsWith(host, "." + d);
    }
    if exists d :: d in grant.cookieDomains && host == "." + d {
      var d :| d in grant.cookieDomains && host == "." + d;
      assert HostMatches(grant.bundle, d, host);
    }
    if grant.bundle.YouTube? && exists d :: d in grant.cookieDomains && EndsWith(host, "." + d) {
      var d :| d in grant.cookieDomains && EndsWith(host, "." + d);
      assert HostMatches(grant.bundle, d, host);
    }
  }

  /** A YouTube grant for "youtube.com": "www.youtube.com" is allowed and never asked for. */
  lemma SubdomainIsMissed(grant: Grant)
    requires grant.bundle.YouTube? && grant.cookieDomains == ["youtube.com"]
    ensures HostAllowed(grant, "www.youtube.com") && "www.youtube.com" !in QueriedHosts(grant)
  {
    assert "www.youtube.com"[3..] == "." + "youtube.com";
    assert "youtube.com" in grant.cookieDomains && EndsWith("www.youtube.com", "." + "youtube.com");
    assert |"www.youtube.com"| != |"." + "youtube.com"|;
    QueryMissesIff(grant, "www.youtube.com");
  }

  // ---- sessions ----

  /** `acquire`: the grant must be authorized and for Firefox, and at least one cookie usable. */
  function Acquired(g: Grants, sessions: Sessions, target: Target, loaded: Result<seq<BrokeredCookie>, BrokerError>)
    : (Grants, Sessions, Result<SessionMetadata, BrokerError>)
  {
    var grant := AuthorizedGrant(g, target);
    if grant.None? then (g, sessions, Err(NotAuthorizedGrant))
    else if !grant.value.browser.Firefox? then (g, sessions, Err(ChromiumUnavailable))
    else if loaded.Err? then (g, sessions, Err(loaded.error))
    else if loaded.value == [] then (g, sessions, Err(NoUsableCookies))
    else
      var (g1, marked) := MarkedAvailable(g, target, true);
      var domains := set c | c in loaded.value :: c.domain;
      (g1, sessions[target := loaded.value],
       if marked.Err? then Err(MarkRefused) else Ok(SessionMetadata(|loaded.value|, domains)))
  }

  /** `discard`. */
  function Discarded(g: Grants, sessions: Sessions, target: Target): (Grants, Sessions) {
    (MarkedAvailable(g, target, false).0, sessions - {target})
  }

  class AuthenticatedSessionBroker {
    const authority: AuthenticatedSessionAuthority
    var sessions: Sessions

    constructor (authority: AuthenticatedSessionAuthority)
      ensures this.authority == authority && sessions == map[]
    {
      this.authority := authority;
      sessions := map[];
    }

    method Acquire(target: Target, loaded: Result<seq<BrokeredCookie>, BrokerError>)
      returns (r: Result<SessionMetadata, BrokerError>)
      modifies this, authority
      ensures (authority.grants, sessions, r) == Acquired(old(authority.grants), old(sessions), target, loaded)
    {
      var grant := AuthorizedGrant(authority.grants, target);
      if grant.None? {
        return Err(NotAuthorizedGrant);
      }
      if !grant.value.browser.Firefox? {
        return Err(ChromiumUnavailable);
      }
      if loaded.Err? {
        return Err(loaded.error);
      }
      if loaded.value == [] {
        return Err(NoUsableCookies);
      }
      var metadata := SessionMetadata(|loaded.value|, set c | c in loaded.value :: c.domain);
      sessions := sessions[target := loaded.value];
      var marked := authority.MarkAvailable(target, true);
      if marked.Err? {
        return Err(MarkRefused);
      }
      r := Ok(metadata);
    }

    method Discard(target: Target)
      modifies this, authority
      ensures (authority.grants, sessions) == Discarded(old(authority.grants), old(sessions), target)
    {
      sessions := sessions - {target};
      var _ := authority.MarkAvailable(target, false);
    }
  }

  /** An acquisition succeeds exactly for a grant that is authorized, for Firefox, and yields some cookie; then these
      are the target's session and the grant is available. Otherwise nothing changes. */
  lemma AcquiredIff(g: Grants, sessions: Sessions, target: Target, loaded: Result<seq<BrokeredCookie>, BrokerError>)
    ensures var (g1, sessions1, r) := Acquired(g, sessions, target, loaded);
            && (r.Ok? <==> target in g && g[target].decision == Authorized && g[target].grant.browser == Firefox
                           && loaded.Ok? && loaded.value != [])
            && (r.Ok? ==>
                  && g1 == g[target := g[target].(available := true)] && sessions1 == sessions[target := loaded.value]
                  && r.value.cookieCount == |loaded.value|
                  && forall d :: d in r.value.cookieDomains <==> exists c :: c in loaded.value && c.domain == d)
            && (r.Err? ==> g1 == g && sessions1 == sessions)
  {
  }

  /** A discard takes the session away, and from an authorized grant both flags. */
  lemma DiscardedIff(g: Grants, sessions: Sessions, target: Target)
    ensures var (g1, sessions1) := Discarded(g, sessions, target);
            && sessions1 == sessions - {target}
            && g1 == if target in g && g[target].decision == Authorized
                     then g[target := g[target].(available := false, applied := false)] else g
  {
  }
}
