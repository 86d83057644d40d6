/** The history query: a greedy prefix of the matching closed rows that fits one frame. */
module HistoryQuery {
  import opened Wrappers
  import opened Protocol
  import opened Text
  import opened HistoryWorker
  import opened Numbers

  const MAX_HISTORY_SCAN_ROWS: nat := 10_000

  datatype Entry = Entry(id: string, row: Row)

  // ---- the order of the rows ----

  predicate TextLess(a: string, b: string) {
    b != [] && (a == [] || a[0] < b[0] || (a[0] == b[0] && TextLess(a[1..], b[1..])))
  }

  /** Newest close first, ties by session id from the highest. */
  predicate Before(a: Entry, b: Entry)
    requires a.row.closed.Some? && b.row.closed.Some?
  {
    a.row.closed.value.at > b.row.closed.value.at
    || (a.row.closed.value.at == b.row.closed.value.at && TextLess(b.id, a.id))
  }

  ghost predicate Sorted(l: seq<Entry>) {
    && (forall i :: 0 <= i < |l| ==> l[i].row.closed.Some?)
    && (forall i, j :: 0 <= i < j < |l| ==> Before(l[i], l[j]))
  }

  /** What the ORDER BY yields, before the LIMIT. */
  ghost predicate IsListing(rows: Rows, l: seq<Entry>) {
    && Sorted(l)
    && (forall e :: e in l <==> e.id in rows && rows[e.id] == e.row && e.row.closed.Some?)
  }

  lemma {:induction false} TextLessIsOneWay(a: string, b: string)
    requires TextLess(a, b)
    ensures !TextLess(b, a)
  {
    if a != [] && a[0] == b[0] { TextLessIsOneWay(a[1..], b[1..]); }
  }

  lemma {:induction false} SortedIsUnique(l: seq<Entry>, m: seq<Entry>)
    requires Sorted(l) && Sorted(m) && forall e :: e in l <==> e in m
    ensures l == m
  {
    assert m != [] ==> m[0] in l;
    assert l != [] ==> l[0] in m;
    if l != [] {
      assert l[0] in m;
      FirstIsFirst(l, m);
      forall e
        ensures e in l[1..] <==> e in m[1..]
      {
        TailHasNoFirst(l);
        TailHasNoFirst(m);
        assert e in l <==> e == l[0] || e in l[1..];
        assert e in m <==> e == m[0] || e in m[1..];
      }
      SortedIsUnique(l[1..], m[1..]);
      assert l == [l[0]] + l[1..] && m == [m[0]] + m[1..];
    }
  }

  lemma TailHasNoFirst(l: seq<Entry>)
    requires Sorted(l) && l != []
    ensures l[0] !in l[1..]
  {
    if l[0] in l[1..] {
      var k :| 0 <= k < |l| - 1 && l[1..][k] == l[0];
      assert Before(l[0], l[k + 1]);
      TextLessIsOneWay(l[0].id, l[0].id);
    }
  }

  lemma FirstIsFirst(l: seq<Entry>, m: seq<Entry>)
    requires Sorted(l) && Sorted(m) && l != [] && m != [] && l[0] in m && m[0] in l
    ensures l[0] == m[0]
  {
    var j :| 0 <= j < |m| && m[j] == l[0];
    var i :| 0 <= i < |l| && l[i] == m[0];
    if i > 0 && j > 0 {
      assert Before(l[0], m[0]) && Before(m[0], l[0]);
      if l[0].row.closed.value.at == m[0].row.closed.value.at {
        TextLessIsOneWay(l[0].id, m[0].id);
      }
    }
  }

  /** The table fixes the order the query scans in. */
  lemma ListingIsUnique(rows: Rows, l: seq<Entry>, m: seq<Entry>)
    requires IsListing(rows, l) && IsListing(rows, m)
    ensures l == m
  {
    SortedIsUnique(l, m);
  }

  // ---- the query ----

  /** `history_matches`; `lower` is `str::to_lowercase`. */
  predicate Matches(e: Entry, query: Option<string>, lower: string -> string) {
    query.Some? ==>
      var q := lower(query.value);
      || Contains(lower(e.row.origin.windowSessionId), q)
      || Contains(lower(e.row.shown.title), q)
      || Contains(lower(e.row.origin.requestedSource), q)
      || (e.row.shown.description.Some? && Contains(lower(e.row.shown.description.value), q))
      || (e.row.shown.finalUrl.Some? && Contains(lower(e.row.shown.finalUrl.value), q))
  }

  /** The texts of a row the query looks in. */
  ghost predicate Carries(row: Row, text: string) {
    || text == row.origin.windowSessionId || text == row.origin.requestedSource || text == row.shown.title
    || row.shown.description == Some(text) || row.shown.finalUrl == Some(text)
  }

  /** A query matches a row exactly when one of its five texts contains it, in whatever case; no query matches all. */
  lemma MatchesIff(e: Entry, q: string, lower: string -> string)
    ensures Matches(e, Some(q), lower) <==> exists text :: Carries(e.row, text) && Contains(lower(text), lower(q))
    ensures Matches(e, None, lower)
  {
    hide Contains;
    assert Carries(e.row, e.row.origin.windowSessionId) && Carries(e.row, e.row.shown.title)
        && Carries(e.row, e.row.origin.requestedSource);
    if e.row.shown.description.Some? { assert Carries(e.row, e.row.shown.description.value); }
    if e.row.shown.finalUrl.Some? { assert Carries(e.row, e.row.shown.finalUrl.value); }
  }

  /** The matching entries of `l`, in order. */
  function Selected(l: seq<Entry>, matches: Entry -> bool): seq<Entry> {
    if l == [] then []
    else Selected(l[..|l| - 1], matches) + (if matches(l[|l| - 1]) then [l[|l| - 1]] else [])
  }

  function TotalBytes(l: seq<Entry>, json: Entry -> string): nat {
    if l == [] then 0 else TotalBytes(l[..|l| - 1], json) + |json(l[|l| - 1])|
  }

  /** The first `k` rows can be scanned and their matches returned together. */
  predicate Fits(l: seq<Entry>, k: nat, matches: Entry -> bool, json: Entry -> string)
    requires k <= |l|
  {
    k <= MAX_HISTORY_SCAN_ROWS && TotalBytes(Selected(l[..k], matches), json) <= MAX_HISTORY_RESULT_BYTES
  }

  datatype HistoryResult = HistoryResult(entries: seq<Entry>, truncated: bool)

  lemma SelectedOneMore(l: seq<Entry>, k: nat, matches: Entry -> bool, json: Entry -> string)
    requires k < |l|
    ensures Selected(l[..k + 1], matches) == Selected(l[..k], matches) + (if matches(l[k]) then [l[k]] else [])
    ensures TotalBytes(Selected(l[..k + 1], matches), json)
            == TotalBytes(Selected(l[..k], matches), json) + (if matches(l[k]) then |json(l[k])| else 0)
  {
    assert l[..k + 1][..k] == l[..k];
    var s := Selected(l[..k], matches);
    assert (s + [l[k]])[..|s|] == s;
    assert s + [] == s;
  }

  /** What fits is a prefix: once the rows do not fit, no longer prefix does. */
  lemma {:induction false} FitsDownward(l: seq<Entry>, j: nat, k: nat, matches: Entry -> bool, json: Entry -> string)
    requires j <= k <= |l| && Fits(l, k, matches, json)
    ensures Fits(l, j, matches, json)
    decreases k
  {
    if j < k {
      SelectedOneMore(l, k - 1, matches, json);
      FitsDownward(l, j, k - 1, matches, json);
    }
  }

  /** The most rows that fit. */
  ghost predicate IsCut(l: seq<Entry>, k: nat, matches: Entry -> bool, json: Entry -> string) {
    && k <= |l| && Fits(l, k, matches, json)
    && forall j :: k < j <= |l| ==> !Fits(l, j, matches, json)
  }

  ghost predicate IsAnswer(listing: seq<Entry>, k: nat, r: HistoryResult, matches: Entry -> bool,
                           readable: Entry -> bool, json: Entry -> string)
  {
    && IsCut(listing, k, matches, json)
    && r == HistoryResult(Selected(listing[..k], matches), k < |listing|)
    && (forall i :: 0 <= i < k ==> readable(listing[i]))
    && (k < |listing| && k < MAX_HISTORY_SCAN_ROWS ==> readable(listing[k]))
  }

  ghost predicate Fails(listing: seq<Entry>, k: nat, matches: Entry -> bool, readable: Entry -> bool,
                        json: Entry -> string)
  {
    k < |listing| && k < MAX_HISTORY_SCAN_ROWS && !readable(listing[k]) && Fits(listing, k, matches, json)
    && forall i :: 0 <= i < k ==> readable(listing[i])
  }

  /** A query that has an answer has no row that fails it. */
  lemma AnswerNeverFails(listing: seq<Entry>, j: nat, r: HistoryResult, matches: Entry -> bool,
                         readable: Entry -> bool, json: Entry -> string)
    requires IsAnswer(listing, j, r, matches, readable, json)
    ensures forall k :: !Fails(listing, k, matches, readable, json)
  {
    hide Fits;
  }

  /** The scanning loop. */
  method Scan(listing: seq<Entry>, matches: Entry -> bool, readable: Entry -> bool, json: Entry -> string)
    returns (r: Result<HistoryResult, PersistenceError>)
    ensures r.Ok? ==> exists k :: IsAnswer(listing, k, r.value, matches, readable, json)
    ensures r.Err? ==> exists k :: Fails(listing, k, matches, readable, json)
  {
    assert Selected(listing[..0], matches) == [] && TotalBytes([], json) == 0;
    hide TotalBytes, Selected, IsCut;
    var rows := if |listing| > MAX_HISTORY_SCAN_ROWS + 1 then listing[..MAX_HISTORY_SCAN_ROWS + 1] else listing;
    var entries: seq<Entry> := [];
    var bytes, scanned := 0, 0;
    while scanned < |rows|
      invariant 0 <= scanned <= |rows| && scanned <= MAX_HISTORY_SCAN_ROWS
      invariant entries == Selected(listing[..scanned], matches)
      invariant bytes == TotalBytes(entries, json) <= MAX_HISTORY_RESULT_BYTES
      invariant forall i :: 0 <= i < scanned ==> readable(listing[i])
    {
      if scanned + 1 > MAX_HISTORY_SCAN_ROWS {
        CutHere(listing, scanned, matches, json);
        assert IsAnswer(listing, scanned, HistoryResult(entries, true), matches, readable, json);
        return Ok(HistoryResult(entries, true));
      }
      var entry := rows[scanned];
      if !readable(entry) {
        assert Fails(listing, scanned, matches, readable, json);
        return Err(Storage);
      }
      SelectedOneMore(listing, scanned, matches, json);
      if matches(entry) {
        if bytes + |json(entry)| > MAX_HISTORY_RESULT_BYTES {
          CutHere(listing, scanned, matches, json);
          assert IsAnswer(listing, scanned, HistoryResult(entries, true), matches, readable, json);
          return Ok(HistoryResult(entries, true));
        }
        bytes := bytes + |json(entry)|;
        entries := entries + [entry];
      }
      scanned := scanned + 1;
    }
    assert listing[..scanned] == listing[..|listing|];
    CutHere(listing, |listing|, matches, json);
    assert IsAnswer(listing, |listing|, HistoryResult(entries, false), matches, readable, json);
    r := Ok(HistoryResult(entries, false));
  }

  /** `history`: `listing` are the closed rows in order, of which the statement yields at most 10001, and a
      row is `readable` when its stored text converts. The answer holds the matches of the longest prefix
      that fits, and says it is truncated exactly when rows are left over; it fails exactly when an
      unreadable row stands among those scanned before anything stops the scan. */
  method History(listing: seq<Entry>, matches: Entry -> bool, readable: Entry -> bool, json: Entry -> string)
    returns (r: Result<HistoryResult, PersistenceError>)
    ensures r.Ok? ==> exists k :: IsAnswer(listing, k, r.value, matches, readable, json)
    ensures r.Err? <==> exists k :: Fails(listing, k, matches, readable, json)
  {
    r := Scan(listing, matches, readable, json);
    hide IsAnswer, Fails;
    if r.Ok? {
      ghost var j :| IsAnswer(listing, j, r.value, matches, readable, json);
      AnswerNeverFails(listing, j, r.value, matches, readable, json);
    }
  }

  lemma CutHere(l: seq<Entry>, k: nat, matches: Entry -> bool, json: Entry -> string)
    requires k <= |l| && Fits(l, k, matches, json)
    requires k < |l| ==> !Fits(l, k + 1, matches, json)
    ensures IsCut(l, k, matches, json)
  {
    forall j | k < j <= |l|
      ensures !Fits(l, j, matches, json)
    {
      if Fits(l, j, matches, json) { FitsDownward(l, k + 1, j, matches, json); }
    }
  }

  /** There is one cut, so the answer is determined by the table, the query and the encoding. */
  lemma OneCut(l: seq<Entry>, j: nat, k: nat, matches: Entry -> bool, json: Entry -> string)
    requires IsCut(l, j, matches, json) && IsCut(l, k, matches, json)
    ensures j == k
  {
  }

  lemma {:induction false} SelectedSpec(l: seq<Entry>, matches: Entry -> bool, e: Entry)
    ensures e in Selected(l, matches) <==> e in l && matches(e)
  {
    if l != [] {
      SelectedSpec(l[..|l| - 1], matches, e);
      assert l == l[..|l| - 1] + [l[|l| - 1]];
    }
  }

  lemma {:induction false} SelectedIsPrefix(l: seq<Entry>, k: nat, matches: Entry -> bool)
    requires k <= |l|
    ensures Selected(l[..k], matches) <= Selected(l, matches)
    decreases |l|
  {
    if k == |l| {
      assert l[..k] == l;
    } else {
      assert l[..|l| - 1][..k] == l[..k];
      SelectedIsPrefix(l[..|l| - 1], k, matches);
    }
  }

  /** The answer is a prefix of all matching closed rows in order, and an answer that does not say it is
      truncated holds every one of them. */
  lemma {:induction false} AnswerIsCompletePrefix(rows: Rows, listing: seq<Entry>, k: nat, matches: Entry -> bool,
                                                  json: Entry -> string)
    requires IsListing(rows, listing) && IsCut(listing, k, matches, json)
    ensures Selected(listing[..k], matches) <= Selected(listing, matches)
    ensures k == |listing| ==>
              forall id :: id in rows && rows[id].closed.Some? && matches(Entry(id, rows[id])) ==>
                Entry(id, rows[id]) in Selected(listing[..k], matches)
    ensures forall e :: e in Selected(listing[..k], matches) ==>
              e.id in rows && rows[e.id] == e.row && e.row.closed.Some? && matches(e)
  {
    SelectedIsPrefix(listing, k, matches);
    assert k == |listing| ==> listing[..k] == listing;
    forall e
      ensures e in Selected(listing[..k], matches) ==> e in listing && matches(e)
      ensures k == |listing| && e in listing && matches(e) ==> e in Selected(listing[..k], matches)
    {
      SelectedSpec(listing[..k], matches, e);
    }
  }

  /** Newest close first, and of those left out none is newer than one delivered. */
  ghost predicate NewestFirst(rows: Rows, entries: seq<Entry>, matches: Entry -> bool) {
    && (forall e :: e in entries ==> e.row.closed.Some?)
    && (forall i, j :: 0 <= i < j < |entries| ==>
          && entries[i].row.closed.value.at >= entries[j].row.closed.value.at
          && (entries[i].row.closed.value.at == entries[j].row.closed.value.at ==>
                TextLess(entries[j].id, entries[i].id)))
    && (forall e, id :: e in entries && id in rows && IsLeftOut(rows, entries, matches, id) ==>
          rows[id].closed.value.at <= e.row.closed.value.at)
  }

  ghost predicate IsLeftOut(rows: Rows, entries: seq<Entry>, matches: Entry -> bool, id: string)
    requires id in rows
  {
    rows[id].closed.Some? && matches(Entry(id, rows[id])) && Entry(id, rows[id]) !in entries
  }

  lemma {:induction false} SelectedSorted(l: seq<Entry>, matches: Entry -> bool)
    requires Sorted(l)
    ensures Sorted(Selected(l, matches))
  {
    if l != [] {
      var n := |l| - 1;
      SelectedSorted(l[..n], matches);
      var front := Selected(l[..n], matches);
      forall e | e in front
        ensures Before(e, l[n])
      {
        SelectedSpec(l[..n], matches, e);
        var i :| 0 <= i < n && l[..n][i] == e;
        assert Before(l[i], l[n]);
      }
      hide Before;
      assert forall i :: 0 <= i < |front| ==> front[i] in front;
    }
  }

  lemma {:induction false} AnswerIsNewest(rows: Rows, listing: seq<Entry>, k: nat, matches: Entry -> bool)
    requires IsListing(rows, listing) && k <= |listing|
    ensures NewestFirst(rows, Selected(listing[..k], matches), matches)
  {
    var entries := Selected(listing[..k], matches);
    SelectedSorted(listing[..k], matches);
    assert forall i, j :: 0 <= i < j < |entries| ==> Before(entries[i], entries[j]);
    forall e, id | e in entries && id in rows && IsLeftOut(rows, entries, matches, id)
      ensures rows[id].closed.value.at <= e.row.closed.value.at
    {
      var f := Entry(id, rows[id]);
      SelectedSpec(listing[..k], matches, e);
      SelectedSpec(listing[..k], matches, f);
      var a :| 0 <= a < k && listing[..k][a] == e;
      var b :| 0 <= b < |listing| && listing[b] == f;
      assert forall m :: 0 <= m < k ==> listing[m] in listing[..k];
      assert Before(listing[a], listing[b]);
    }
  }

  // ---- the frame ----

  /** The entries as the JSON array writes them, one character a byte. */
  function Joined(entries: seq<Entry>, json: Entry -> string): string {
    if entries == [] then ""
    else if |entries| == 1 then json(entries[0])
    else Joined(entries[..|entries| - 1], json) + "," + json(entries[|entries| - 1])
  }

  const OPENING := "{\"status\":\"ok\",\"version\":" + Decimal(PROTOCOL_VERSION) + ",\"data\":{\"entries\":["
  const CLOSING := "],\"truncated\":"

  /** `encode_frame` of the response, newline included. */
  function Frame(r: HistoryResult, json: Entry -> string): string {
    OPENING + Joined(r.entries, json) + CLOSING + (if r.truncated then "true" else "false") + "}}" + "\n"
  }

  lemma {:induction false} JoinedLength(entries: seq<Entry>, json: Entry -> string)
    requires forall e :: |json(e)| >= 4
    ensures TotalBytes(entries, json) >= 4 * |entries|
    ensures |Joined(entries, json)| == TotalBytes(entries, json) + (if entries == [] then 0 else |entries| - 1)
  {
    if entries != [] {
      JoinedLength(entries[..|entries| - 1], json);
      if |entries| == 1 {
        assert entries[..0] == [];
      }
    }
  }

  /** Whatever rows the table holds, an answer fits the 65536-byte frame. An encoded entry is a JSON object
      of fourteen named members, so four bytes is far below its size. */
  lemma {:induction false} AnswerFitsFrame(listing: seq<Entry>, k: nat, matches: Entry -> bool, json: Entry -> string,
                                           truncated: bool)
    requires IsCut(listing, k, matches, json)
    requires forall e :: |json(e)| >= 4
    ensures |Frame(HistoryResult(Selected(listing[..k], matches), truncated), json)| <= MAX_FRAME_BYTES
  {
    JoinedLength(Selected(listing[..k], matches), json);
    assert Decimal(PROTOCOL_VERSION) == [DigitChar(PROTOCOL_VERSION)];
    assert |OPENING| + |CLOSING| <= 100;
  }

  // ---- what the client gets ----

  function Matcher(query: Option<string>, lower: string -> string): Entry -> bool { e => Matches(e, query, lower) }

  /** The answer `r` is a prefix of the matching closed rows of the table, all of them unless it says it is
      truncated, the newest first, and it fits one frame. */
  ghost predicate Delivers(rows: Rows, listing: seq<Entry>, r: HistoryResult, matches: Entry -> bool,
                           json: Entry -> string)
  {
    && r.entries <= Selected(listing, matches)
    && (forall e :: e in r.entries ==> e.id in rows && rows[e.id] == e.row && e.row.closed.Some? && matches(e))
    && (!r.truncated ==>
          forall id :: id in rows && rows[id].closed.Some? && matches(Entry(id, rows[id])) ==>
            Entry(id, rows[id]) in r.entries)
    && NewestFirst(rows, r.entries, matches)
    && ((forall e :: |json(e)| >= 4) ==> |Frame(r, json)| <= MAX_FRAME_BYTES)
  }

  lemma AnswerDelivers(rows: Rows, listing: seq<Entry>, k: nat, r: HistoryResult, matches: Entry -> bool,
                       readable: Entry -> bool, json: Entry -> string)
    requires IsListing(rows, listing) && IsAnswer(listing, k, r, matches, readable, json)
    ensures Delivers(rows, listing, r, matches, json)
  {
    AnswerIsCompletePrefix(rows, listing, k, matches, json);
    AnswerIsNewest(rows, listing, k, matches);
    hide NewestFirst;
    if forall e :: |json(e)| >= 4 {
      AnswerFitsFrame(listing, k, matches, json, r.truncated);
    }
  }

  /** The query of the protocol. The table, the query and the encoding determine what it returns: an error exactly
      when an unreadable row is reached, and otherwise the answer at the only cut there is. */
  method HistoryFor(ghost rows: Rows, listing: seq<Entry>, query: Option<string>, lower: string -> string,
                    readable: Entry -> bool, json: Entry -> string)
    returns (r: Result<HistoryResult, PersistenceError>)
    requires IsListing(rows, listing)
    ensures r.Ok? ==> Delivers(rows, listing, r.value, Matcher(query, lower), json)
    ensures r.Ok? ==>
              forall k :: IsCut(listing, k, Matcher(query, lower), json) ==>
                IsAnswer(listing, k, r.value, Matcher(query, lower), readable, json)
    ensures r.Err? <==> exists k :: Fails(listing, k, Matcher(query, lower), readable, json)
  {
    var matches := Matcher(query, lower);
    r := History(listing, matches, readable, json);
    if r.Ok? {
      ghost var k :| IsAnswer(listing, k, r.value, matches, readable, json);
      AnswerDelivers(rows, listing, k, r.value, matches, readable, json);
      forall j | IsCut(listing, j, matches, json)
        ensures IsAnswer(listing, j, r.value, matches, readable, json)
      {
        OneCut(listing, j, k, matches, json);
      }
    }
  }
}
