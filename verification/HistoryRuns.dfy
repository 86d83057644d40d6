/** What the history worker keeps true over every run of commands, with failing statements, dropped
    transactions, crashes and restarts. */
module HistoryRuns {
  import opened Wrappers
  import opened Protocol
  import opened BoundedLog
  import opened Windows
  import opened Text
  import opened HistoryWorker

  /** Between a crash and a successful start only the database is there. */
  datatype Process = Down(db: Database) | Up(worker: Worker)

  datatype Command =
    | Open(window: ActiveWindow, reset: bool, id: string, now: int, ok: bool)
    | AbortOpen(windowId: string, ok: bool)
    | Sync(window: ActiveWindow, ok: bool)
    | Close(window: ActiveWindow, reason: CloseReason, now: int, ok: bool)
    | Clear(ok: bool)
    | Enable(enabled: bool, windows: seq<ActiveWindow>, ids: seq<string>, now: int, ok: bool)
    | Retain(days: Option<nat>, now: int, ok: bool)
    | Crash
    | Start(now: int, steps: nat)

  function Table(p: Process): Database { if p.Down? then p.db else p.worker.db }

  function WorkerStep(s: Worker, c: Command): Worker
    requires !c.Crash? && !c.Start? && (c.Enable? ==> |c.ids| == |c.windows|)
  {
    match c
    case Open(w, reset, id, now, ok) => Opened(s, w, reset, id, now, ok).0
    case AbortOpen(id, ok) => Aborted(s, id, ok).0
    case Sync(w, ok) => Synced(s, w, ok).0
    case Close(w, reason, now, ok) => Closed(s, w, reason, now, ok).0
    case Clear(ok) => Cleared(s, ok).0
    case Enable(enabled, windows, ids, now, ok) => SetEnabled(s, enabled, windows, ids, now, ok).0
    case Retain(days, now, ok) => SetRetention(s, days, now, ok).0
  }

  function Step(p: Process, c: Command): Process
    requires c.Enable? ==> |c.ids| == |c.windows|
  {
    match c
    case Crash => Down(Table(p))
    case Start(now, steps) =>
      if p.Up? then p
      else
        var (db, r) := Initialized(p.db, now, steps);
        if r.Ok? then Up(r.value) else Down(db)
    case _ => if p.Down? then p else Up(WorkerStep(p.worker, c))
  }

  /** The windows passed when history is enabled are the registry's: one per session id, one new id each.
      No observed URL is longer than the history's byte bound, as the registry's 4096 characters ensure. */
  ghost predicate Wellformed(c: Command) {
    && (c.Enable? ==> |c.ids| == |c.windows| && Distinct(c.windows) && forall w :: w in c.windows ==> UrlFits(w))
    && (c.Open? || c.Sync? || c.Close? ==> UrlFits(c.window))
  }

  predicate UrlFits(w: ActiveWindow) {
    w.page.currentUrl.Some? ==> Utf8Len(w.page.currentUrl.value) <= MAX_URL_HISTORY_BYTES
  }

  ghost predicate Distinct(windows: seq<ActiveWindow>) {
    forall i, j :: 0 <= i < j < |windows| ==> windows[i].windowSessionId != windows[j].windowSessionId
  }

  ghost predicate WellformedRun(cmds: seq<Command>) { forall i :: 0 <= i < |cmds| ==> Wellformed(cmds[i]) }

  /** Every record of a reachable registry is such a window. */
  lemma RegistryUrlsFit(w: ActiveWindow)
    requires WindowInv(w) && |w.requestedSource| <= MAX_URL_CHARS
    ensures UrlFits(w)
  {
  }

  function Run(db: Database, cmds: seq<Command>): Process
    requires forall i :: 0 <= i < |cmds| && cmds[i].Enable? ==> |cmds[i].ids| == |cmds[i].windows|
  {
    if cmds == [] then Down(db) else Step(Run(db, cmds[..|cmds| - 1]), cmds[|cmds| - 1])
  }

  // ---- worker and table agree ----

  ghost predicate OpenRowsAreActive(rows: Rows, active: Sessions) {
    forall id :: IsOpen(rows, id) ==>
      && rows[id].origin.windowSessionId in active
      && active[rows[id].origin.windowSessionId].sessionId == id
  }

  ghost predicate ActiveHaveOpenRows(rows: Rows, active: Sessions) {
    forall win :: win in active ==>
      && IsOpen(rows, active[win].sessionId)
      && rows[active[win].sessionId].origin.windowSessionId == win
  }

  /** One open row per active session and the other way round, none of either while history is off, and the
      configuration in memory is the stored one. */
  ghost predicate Agree(s: Worker) {
    && OpenRowsAreActive(s.db.rows, s.active)
    && ActiveHaveOpenRows(s.db.rows, s.active)
    && (!s.config.historyEnabled ==> s.active == map[])
    && LoadConfig(s.db.config) == Some(s.config)
  }

  lemma OpenAgrees(s: Worker, w: ActiveWindow, reset: bool, id: string, now: int, ok: bool)
    requires Agree(s)
    ensures Agree(Opened(s, w, reset, id, now, ok).0)
  {
  }

  lemma AbortAgrees(s: Worker, window: string, ok: bool)
    requires Agree(s)
    ensures Agree(Aborted(s, window, ok).0)
  {
  }

  lemma SyncAgrees(s: Worker, w: ActiveWindow, ok: bool)
    requires Agree(s)
    ensures Agree(Synced(s, w, ok).0)
  {
  }

  lemma CloseAgrees(s: Worker, w: ActiveWindow, reason: CloseReason, now: int, ok: bool)
    requires Agree(s)
    ensures Agree(Closed(s, w, reason, now, ok).0)
  {
  }

  /** The rows and sessions that enabling adds. */
  ghost predicate RowsAdded(rows: Rows, r: Rows, windows: seq<ActiveWindow>, ids: seq<string>, now: int)
    requires |ids| == |windows|
  {
    && (forall id :: id in rows ==> id in r && r[id] == rows[id])
    && (forall id :: id in r && id !in rows ==> id in ids)
    && (forall k :: 0 <= k < |ids| ==> IsAdded(rows, r, windows[k], ids[k], now))
  }

  ghost predicate IsAdded(rows: Rows, r: Rows, w: ActiveWindow, id: string, now: int) {
    id !in rows && id in r && r[id] == NewRow(w, now, true)
  }

  lemma RowsAddedOneMore(rows: Rows, r: Rows, windows: seq<ActiveWindow>, ids: seq<string>, now: int, w: ActiveWindow,
                         id: string)
    requires |ids| == |windows| && RowsAdded(rows, r, windows, ids, now) && id !in r
    ensures RowsAdded(rows, r[id := NewRow(w, now, true)], windows + [w], ids + [id], now)
  {
    var r1 := r[id := NewRow(w, now, true)];
    forall k | 0 <= k < |ids| + 1
      ensures IsAdded(rows, r1, (windows + [w])[k], (ids + [id])[k], now)
    {
      if k < |ids| { assert IsAdded(rows, r, windows[k], ids[k], now); }
    }
  }

  lemma {:induction false} InsertedSpec(rows: Rows, windows: seq<ActiveWindow>, ids: seq<string>, now: int)
    requires |ids| == |windows| && InsertedAll(rows, windows, ids, now).Some?
    ensures RowsAdded(rows, InsertedAll(rows, windows, ids, now).value, windows, ids, now)
    decreases |windows|
  {
    if windows != [] {
      var n := |windows| - 1;
      assert windows == windows[..n] + [windows[n]] && ids == ids[..n] + [ids[n]];
      hide NewRow, RowsAdded;
      InsertedSpec(rows, windows[..n], ids[..n], now);
      RowsAddedOneMore(rows, InsertedAll(rows, windows[..n], ids[..n], now).value, windows[..n], ids[..n], now,
                       windows[n], ids[n]);
    }
  }

  lemma {:induction false} NewSessionsSpec(windows: seq<ActiveWindow>, ids: seq<string>)
    requires |ids| == |windows| && Distinct(windows)
    ensures forall win :: win in NewSessions(windows, ids) ==>
              exists k :: 0 <= k < |windows| && windows[k].windowSessionId == win
    ensures forall k :: 0 <= k < |windows| ==>
              && windows[k].windowSessionId in NewSessions(windows, ids)
              && NewSessions(windows, ids)[windows[k].windowSessionId]
                 == ActiveSession(ids[k], true, Restarted(windows[k]))
    decreases |windows|
  {
    hide Restarted;
    if windows != [] {
      var n := |windows| - 1;
      NewSessionsSpec(windows[..n], ids[..n]);
      forall win | win in NewSessions(windows, ids)
        ensures exists k :: 0 <= k < |windows| && windows[k].windowSessionId == win
      {
        if win != windows[n].windowSessionId {
          var k :| 0 <= k < n && windows[..n][k].windowSessionId == win;
          assert windows[k].windowSessionId == win;
        }
      }
    }
  }

  lemma EnableAgrees(s: Worker, windows: seq<ActiveWindow>, ids: seq<string>, now: int)
    requires Agree(s) && s.active == map[] && |ids| == |windows| && Distinct(windows)
    requires InsertedAll(s.db.rows, windows, ids, now).Some?
    ensures var rows := InsertedAll(s.db.rows, windows, ids, now).value;
            OpenRowsAreActive(rows, NewSessions(windows, ids)) && ActiveHaveOpenRows(rows, NewSessions(windows, ids))
  {
    InsertedSpec(s.db.rows, windows, ids, now);
    NewSessionsSpec(windows, ids);
    var rows, active := InsertedAll(s.db.rows, windows, ids, now).value, NewSessions(windows, ids);
    forall id | IsOpen(rows, id)
      ensures rows[id].origin.windowSessionId in active && active[rows[id].origin.windowSessionId].sessionId == id
    {
      assert id in s.db.rows ==> IsOpen(s.db.rows, id);
      var k :| 0 <= k < |ids| && ids[k] == id;
      assert IsAdded(s.db.rows, rows, windows[k], ids[k], now);
      assert windows[k].windowSessionId in active;
    }
    forall win | win in active
      ensures IsOpen(rows, active[win].sessionId) && rows[active[win].sessionId].origin.windowSessionId == win
    {
      var k :| 0 <= k < |windows| && windows[k].windowSessionId == win;
      assert IsAdded(s.db.rows, rows, windows[k], ids[k], now);
    }
  }

  lemma ConfigAgrees(s: Worker, enabled: bool, windows: seq<ActiveWindow>, ids: seq<string>, now: int, ok: bool)
    requires Agree(s) && |ids| == |windows| && Distinct(windows)
    ensures Agree(SetEnabled(s, enabled, windows, ids, now, ok).0)
  {
    ConfigRoundTrip(Configuration(enabled, None), s.db.config);
    if enabled && !s.config.historyEnabled && InsertedAll(s.db.rows, windows, ids, now).Some? {
      EnableAgrees(s, windows, ids, now);
    }
  }

  lemma RetainAgrees(s: Worker, days: Option<nat>, now: int, ok: bool)
    requires Agree(s)
    ensures Agree(SetRetention(s, days, now, ok).0)
  {
    if ValidDays(days) {
      ConfigRoundTrip(Configuration(true, days), s.db.config);
    }
  }

  /** Whatever the crashed process left, a start that succeeds begins in agreement. */
  lemma StartAgrees(db: Database, now: int, steps: nat)
    ensures var r := Initialized(db, now, steps).1; r.Ok? ==> Agree(r.value)
  {
  }

  lemma {:induction false} StepAgrees(p: Process, c: Command)
    requires Wellformed(c) && (p.Up? ==> Agree(p.worker))
    ensures Step(p, c).Up? ==> Agree(Step(p, c).worker)
  {
    if p.Up? {
      match c
      case Open(w, reset, id, now, ok) => OpenAgrees(p.worker, w, reset, id, now, ok);
      case AbortOpen(id, ok) => AbortAgrees(p.worker, id, ok);
      case Sync(w, ok) => SyncAgrees(p.worker, w, ok);
      case Close(w, reason, now, ok) => CloseAgrees(p.worker, w, reason, now, ok);
      case Enable(enabled, windows, ids, now, ok) => ConfigAgrees(p.worker, enabled, windows, ids, now, ok);
      case Retain(days, now, ok) => RetainAgrees(p.worker, days, now, ok);
      case _ =>
    } else if c.Start? {
      StartAgrees(p.db, c.now, c.steps);
    }
  }

  /** Worker and table agree in every state reached from any database. */
  lemma {:induction false} WorkerAndTableAgree(db: Database, cmds: seq<Command>)
    requires WellformedRun(cmds)
    ensures Run(db, cmds).Up? ==> Agree(Run(db, cmds).worker)
    decreases |cmds|
  {
    if cmds != [] {
      WorkerAndTableAgree(db, cmds[..|cmds| - 1]);
      StepAgrees(Run(db, cmds[..|cmds| - 1]), cmds[|cmds| - 1]);
    }
  }
}
