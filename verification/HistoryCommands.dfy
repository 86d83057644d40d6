/** When recording starts and ends: what each command of the history worker is for, exactly. */
module HistoryCommands {
  import opened Wrappers
  import opened Protocol
  import opened Windows
  import opened HistoryWorker
  import opened HistoryRuns
  import opened HistoryTimelines

  // ---- when a session begins ----

  /** New ids: none is a row's, none comes twice. */
  ghost predicate FreshIds(rows: Rows, ids: seq<string>) {
    && (forall i :: 0 <= i < |ids| ==> ids[i] !in rows)
    && (forall i, j :: 0 <= i < j < |ids| ==> ids[i] != ids[j])
  }

  lemma {:induction false} InsertedIff(rows: Rows, windows: seq<ActiveWindow>, ids: seq<string>, now: int)
    requires |ids| == |windows|
    ensures InsertedAll(rows, windows, ids, now).Some? <==> FreshIds(rows, ids)
    ensures InsertedAll(rows, windows, ids, now).Some? ==>
              InsertedAll(rows, windows, ids, now).value.Keys == rows.Keys + set id | id in ids
    decreases |windows|
  {
    if windows != [] {
      var n := |windows| - 1;
      InsertedIff(rows, windows[..n], ids[..n], now);
      assert ids == ids[..n] + [ids[n]];
      hide NewRow;
      if FreshIds(rows, ids) {
        assert FreshIds(rows, ids[..n]);
      } else if FreshIds(rows, ids[..n]) {
        assert ids[n] in rows || ids[n] in ids[..n];
      }
    }
  }

  ghost predicate Lists(windows: seq<ActiveWindow>, win: string) {
    exists k :: 0 <= k < |windows| && windows[k].windowSessionId == win
  }

  /** The command asks for a session of the window, and nothing stands in its way. */
  ghost predicate Starts(s: Worker, c: Command, win: string) {
    match c
    case Open(w, _, id, _, ok) =>
      ok && s.config.historyEnabled && w.windowSessionId == win && win !in s.active && id !in s.db.rows
    case Enable(enabled, windows, ids, _, ok) =>
      ok && enabled && !s.config.historyEnabled && Lists(windows, win) && FreshIds(s.db.rows, ids)
    case _ => false
  }

  lemma EnableStarts(s: Worker, windows: seq<ActiveWindow>, ids: seq<string>, now: int, ok: bool, win: string)
    requires Agree(s) && !s.config.historyEnabled && |ids| == |windows| && Distinct(windows)
    ensures win in EnabledHistory(s, windows, ids, now, ok).0.active
            <==> ok && Lists(windows, win) && FreshIds(s.db.rows, ids)
  {
    InsertedIff(s.db.rows, windows, ids, now);
    NewSessionsSpec(windows, ids);
    hide InsertedAll, NewSessions, FreshIds, Restarted;
  }

  /** A session of the window begins exactly when the command asks for one, every statement succeeds, history is on
      (or being switched on), the window has none and the new id is free. */
  lemma {:induction false} BeginsIff(s: Worker, c: Command, win: string)
    requires Agree(s) && Wellformed(c) && !c.Crash? && !c.Start?
    ensures Begins(Up(s), c, win) <==> Starts(s, c, win)
  {
    hide StartTimeline, NewRow, Snapshot, Appended, Pruned, Written;
    assert win in s.active ==> IsOpen(s.db.rows, s.active[win].sessionId);
    match c
    case Enable(enabled, windows, ids, now, ok) =>
      if enabled && !s.config.historyEnabled {
        EnableStarts(s, windows, ids, now, ok, win);
      }
    case _ =>
  }

  // ---- when it ends ----

  /** The command gives the session of the window up: its row goes with it. */
  predicate Drops(s: Worker, c: Command, win: string) {
    match c
    case AbortOpen(id, ok) => ok && id == win
    case Enable(enabled, _, _, _, ok) => ok && !enabled
    case _ => false
  }

  predicate Closes(c: Command, win: string) { c.Close? && c.ok && c.window.windowSessionId == win }

  /** A session ends exactly by its window's close, by the abort of its opening, or by switching history off, each
      if its statements succeed. The last two delete its row; a close leaves it closed. */
  lemma {:induction false} EndsIff(s: Worker, c: Command, win: string)
    requires Agree(s) && Wellformed(c) && !c.Crash? && !c.Start? && win in s.active
    ensures win in WorkerStep(s, c).active <==> !Drops(s, c, win) && !Closes(c, win)
    ensures Drops(s, c, win) ==> s.active[win].sessionId !in WorkerStep(s, c).db.rows
    ensures Closes(c, win) && MIN_I64 <= c.now ==>
              && IsClosed(Up(WorkerStep(s, c)), s.active[win].sessionId)
              && WorkerStep(s, c).db.rows[s.active[win].sessionId].closed == Some(Closure(c.now, c.reason))
  {
    assert IsOpen(s.db.rows, s.active[win].sessionId);
    hide StartTimeline, HistoryWorker.Observed, InsertedAll, NewSessions, ShownOf;
  }

  // ---- starting ----

  /** A start succeeds exactly when all its steps do and the stored configuration, defaults added for what is missing,
      can be read; that is then in force. Rows left open are then closed, now and as abruptly terminated, and
      otherwise as they were. */
  lemma {:induction false} StartsIff(db: Database, now: int, steps: nat)
    requires MIN_I64 <= now
    ensures var p := Step(Down(db), Start(now, steps));
            && (p.Up? <==> steps >= 5 && LoadConfig(WithDefaults(db.config, 2)).Some?)
            && (p.Up? ==>
                  && p.worker.config == LoadConfig(WithDefaults(db.config, 2)).value
                  && (LoadConfig(db.config).Some? ==> p.worker.config == LoadConfig(db.config).value)
                  && forall id :: IsOpen(db.rows, id) ==>
                       && id in Table(p).rows
                       && Table(p).rows[id] == db.rows[id].(closed := Some(Closure(now, AbruptTermination))))
  {
    DefaultsAreForMissing(db.config, 2);
    assert LoadConfig(db.config).Some? ==> LoadConfig(WithDefaults(db.config, 2)) == LoadConfig(db.config);
    hide LoadConfig, WithDefaults;
    if steps >= 2 {
      DefaultsSettle(db.config, steps);
    }
  }

  // ---- the configuration ----

  /** History is on or off, and the retention is, as last set by a command whose statements succeeded. */
  lemma {:induction false} ConfigStep(s: Worker, c: Command)
    requires Wellformed(c) && !c.Crash? && !c.Start?
    ensures WorkerStep(s, c).config.retentionDays
            == if c.Retain? && c.ok && (c.days.Some? ==> 1 <= c.days.value <= MAX_RETENTION_DAYS) then c.days
               else s.config.retentionDays
    ensures WorkerStep(s, c).config.historyEnabled
            == if c.Enable? && c.ok && (c.enabled ==> FreshIds(s.db.rows, c.ids)) then c.enabled
               else s.config.historyEnabled
  {
    hide StartTimeline, HistoryWorker.Observed, NewSessions, ShownOf, Pruned, Written;
    if c.Enable? {
      InsertedIff(s.db.rows, c.windows, c.ids, c.now);
      hide InsertedAll, FreshIds;
    }
  }

  /** A clear that succeeds leaves exactly the open rows and answers how many closed ones there were. */
  lemma ClearIsExact(s: Worker)
    ensures var (s1, r) := Cleared(s, true);
            && s1.db.rows == (map id | id in s.db.rows && s.db.rows[id].closed == None :: s.db.rows[id])
            && r == Ok(|set id | id in s.db.rows && s.db.rows[id].closed != None|)
  {
    var s1 := Cleared(s, true).0;
    assert s.db.rows.Keys - s1.db.rows.Keys == set id | id in s.db.rows && s.db.rows[id].closed != None;
  }

  // ---- what a session begins with ----

  /** The row is open and names the window, its source and the time. */
  ghost predicate IsBegun(w: ActiveWindow, now: int, r: Row) {
    && r.closed == None && Describes(w, r)
    && r.origin.windowSessionId == w.windowSessionId && r.origin.sourceKind == w.sourceKind
    && r.origin.contentKind == w.contentKind && r.origin.requestedSource == w.requestedSource
    && r.origin.openedAt == now
  }

  /** A session that begins has a new row, of the window it was asked for. */
  lemma {:induction false} BegunRow(s: Worker, c: Command, win: string)
    requires Agree(s) && Wellformed(c) && Starts(s, c, win)
    ensures var s1 := WorkerStep(s, c);
            && win in s1.active && s1.active[win].sessionId !in s.db.rows && s1.active[win].sessionId in s1.db.rows
            && exists w :: (c.Open? ==> w == c.window) && (c.Enable? ==> w in c.windows) && w.windowSessionId == win
                           && IsBegun(w, c.now, s1.db.rows[s1.active[win].sessionId])
  {
    match c
    case Open(w, reset, id, now, ok) =>
      assert IsBegun(w, now, WorkerStep(s, c).db.rows[id]);
    case Enable(enabled, windows, ids, now, ok) =>
      InsertedIff(s.db.rows, windows, ids, now);
      InsertedSpec(s.db.rows, windows, ids, now);
      NewSessionsSpec(windows, ids);
      var k :| 0 <= k < |windows| && windows[k].windowSessionId == win;
      var rows := InsertedAll(s.db.rows, windows, ids, now).value;
      assert IsAdded(s.db.rows, rows, windows[k], ids[k], now);
      assert IsBegun(windows[k], now, rows[ids[k]]);
      hide InsertedAll, NewSessions, FreshIds, StartTimeline;
      assert WorkerStep(s, c).active[win].sessionId == ids[k];
  }
}
