/** From the window to the client: what a window showed when it closed finds its row. */
module HistoryFinds {
  import opened Wrappers
  import opened Protocol
  import opened Text
  import opened HistoryWorker
  import opened HistoryRuns
  import opened HistoryTimelines
  import opened HistoryQuery

  /** What identifies a window to its user. */
  ghost predicate Shows(w: ActiveWindow, text: string) {
    || text == w.windowSessionId || text == w.page.title
    || w.description == Some(text) || w.page.currentUrl == Some(text)
  }

  /** A recorded window, closed: a query for any part of its id, title, description or URL, in whatever case, finds
      its row, and every answer that is not truncated holds it. */
  lemma {:induction false} ClosedWindowIsFound(db: Database, cmds: seq<Command>, w: ActiveWindow, reason: CloseReason,
                                               now: int, text: string, q: string, lower: string -> string,
                                               listing: seq<Entry>)
    requires WellformedRun(cmds) && UrlFits(w) && HistoryTimelines.Records(Run(db, cmds), w.windowSessionId)
    requires MIN_I64 <= now && Shows(w, text) && Contains(lower(text), lower(q))
    requires IsListing(Closed(Run(db, cmds).worker, w, reason, now, true).0.db.rows, listing)
    ensures var s := Run(db, cmds).worker;
            var id, rows := s.active[w.windowSessionId].sessionId, Closed(s, w, reason, now, true).0.db.rows;
            id in rows && Entry(id, rows[id]) in Selected(listing, Matcher(Some(q), lower))
  {
    var s := Run(db, cmds).worker;
    var id := s.active[w.windowSessionId].sessionId;
    ClosedRowTells(db, cmds, w, reason, now);
    WorkerAndTableAgree(db, cmds);
    var e := Entry(id, Closed(s, w, reason, now, true).0.db.rows[id]);
    assert e.row.origin.windowSessionId == w.windowSessionId by {
      assert IsOpen(s.db.rows, id);
    }
    assert Carries(e.row, text);
    hide Closed, Tells, Agree, Contains, Run;
    MatchesIff(e, q, lower);
    SelectedSpec(listing, Matcher(Some(q), lower), e);
  }
}
