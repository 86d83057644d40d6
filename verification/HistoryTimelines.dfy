/** What the rows say: closed rows are final, and a recorded timeline never reaches back before the moment
    recording started. */
module HistoryTimelines {
  import opened Wrappers
  import opened Protocol
  import opened BoundedLog
  import opened Windows
  import opened Text
  import opened HistoryWorker
  import opened HistoryRuns

  // ---- closed rows ----

  predicate IsClosed(p: Process, id: string) { id in Table(p).rows && Table(p).rows[id].closed.Some? }

  /** Closed more than so many days before `now`; never, without a retention. Times are i64, so a cutoff before the
      first of them keeps every row. */
  predicate TooOld(at: int, days: Option<nat>, now: int) {
    days.Some? && (at < now - 86_400 * days.value || at < MIN_I64)
  }

  /** The command deletes the rows closed at `at`: a clear deletes them all; a close of a recorded window, a retention
      that is new, and a start that gets that far delete those too old for the retention then in force. Every
      statement must succeed. */
  ghost predicate Removes(p: Process, c: Command, at: int) {
    match c
    case Clear(ok) => p.Up? && ok
    case Close(w, _, now, ok) =>
      p.Up? && ok && w.windowSessionId in p.worker.active && TooOld(at, p.worker.config.retentionDays, now)
    case Retain(days, now, ok) =>
      && p.Up? && ok && days != p.worker.config.retentionDays
      && (days.Some? ==> 1 <= days.value <= MAX_RETENTION_DAYS) && TooOld(at, days, now)
    case Start(now, steps) =>
      p.Down? && steps >= 5 && var loaded := LoadConfig(WithDefaults(p.db.config, 2));
      loaded.Some? && TooOld(at, loaded.value.retentionDays, now)
    case _ => false
  }

  lemma DefaultsSettle(config: map<string, string>, n: nat)
    requires n >= 2
    ensures WithDefaults(config, n) == WithDefaults(config, 2)
  {
  }

  lemma StartKeepsClosed(db: Database, now: int, steps: nat, id: string)
    requires id in db.rows && db.rows[id].closed.Some?
    ensures var db1 := Table(Step(Down(db), Start(now, steps)));
            && (id in db1.rows <==> !Removes(Down(db), Start(now, steps), db.rows[id].closed.value.at))
            && (id in db1.rows ==> db1.rows[id] == db.rows[id])
  {
    hide LoadConfig, WithDefaults;
    if steps >= 2 {
      DefaultsSettle(db.config, steps);
    }
  }

  lemma EnableKeepsClosed(s: Worker, enabled: bool, windows: seq<ActiveWindow>, ids: seq<string>, now: int, ok: bool,
                          id: string)
    requires |ids| == |windows| && id in s.db.rows && s.db.rows[id].closed.Some?
    ensures var rows := SetEnabled(s, enabled, windows, ids, now, ok).0.db.rows; id in rows && rows[id] == s.db.rows[id]
  {
    if InsertedAll(s.db.rows, windows, ids, now).Some? {
      InsertedSpec(s.db.rows, windows, ids, now);
    }
    hide InsertedAll;
  }

  /** A closed row stays in the table, as it is, unless the command deletes rows of its age, and is deleted if it
      does. */
  lemma StepKeepsClosed(p: Process, c: Command, id: string)
    requires Wellformed(c) && (p.Up? ==> Agree(p.worker)) && IsClosed(p, id)
    ensures id in Table(Step(p, c)).rows <==> !Removes(p, c, Table(p).rows[id].closed.value.at)
    ensures id in Table(Step(p, c)).rows ==> Table(Step(p, c)).rows[id] == Table(p).rows[id]
  {
    hide InsertedAll, LoadConfig, WithDefaults, StartTimeline, ShownOf, HistoryWorker.Observed;
    match c
    case Enable(enabled, windows, ids, now, ok) =>
      if p.Up? {
        EnableKeepsClosed(p.worker, enabled, windows, ids, now, ok, id);
        hide SetEnabled;
      }
    case Start(now, steps) =>
      if p.Down? {
        StartKeepsClosed(p.db, now, steps, id);
        hide Initialized;
      }
    case _ =>
  }

  /** The table holds the row from command `n` of the run on. */
  ghost predicate Held(db: Database, cmds: seq<Command>, n: nat, id: string)
    requires WellformedRun(cmds)
  {
    forall k :: n <= k <= |cmds| ==> id in Table(Run(db, cmds[..k])).rows
  }

  lemma {:induction false} HeldBefore(db: Database, cmds: seq<Command>, n: nat, id: string)
    requires WellformedRun(cmds) && n < |cmds| && Held(db, cmds, n, id)
    ensures Held(db, cmds[..|cmds| - 1], n, id) && id in Table(Run(db, cmds)).rows
  {
    hide Run;
    assert cmds[..|cmds|] == cmds;
    var front := cmds[..|cmds| - 1];
    forall k | n <= k <= |front|
      ensures id in Table(Run(db, front[..k])).rows
    {
      assert front[..k] == cmds[..k];
    }
  }

  lemma {:induction false} ClosedStep(db: Database, cmds: seq<Command>, id: string)
    requires WellformedRun(cmds) && cmds != []
    requires IsClosed(Run(db, cmds[..|cmds| - 1]), id) && id in Table(Run(db, cmds)).rows
    ensures IsClosed(Run(db, cmds), id)
    ensures Table(Run(db, cmds)).rows[id] == Table(Run(db, cmds[..|cmds| - 1])).rows[id]
  {
    WorkerAndTableAgree(db, cmds[..|cmds| - 1]);
    hide Agree, Step;
    StepKeepsClosed(Run(db, cmds[..|cmds| - 1]), cmds[|cmds| - 1], id);
  }

  /** A row that is closed at some point of a run is the same row for as long as the table holds it. */
  lemma {:induction false} ClosedRowsAreFinal(db: Database, cmds: seq<Command>, n: nat, id: string)
    requires WellformedRun(cmds) && n <= |cmds| && IsClosed(Run(db, cmds[..n]), id)
    requires Held(db, cmds, n, id)
    ensures IsClosed(Run(db, cmds), id) && Table(Run(db, cmds)).rows[id] == Table(Run(db, cmds[..n])).rows[id]
    decreases |cmds|
  {
    hide Run, Held;
    if n == |cmds| {
      assert cmds[..n] == cmds;
    } else {
      assert cmds[..|cmds| - 1][..n] == cmds[..n];
      HeldBefore(db, cmds, n, id);
      ClosedRowsAreFinal(db, cmds[..|cmds| - 1], n, id);
      ClosedStep(db, cmds, id);
    }
  }

  // ---- timelines ----

  predicate Records(p: Process, win: string) { p.Up? && win in p.worker.active }

  /** The command starts a session for the window. */
  predicate Begins(p: Process, c: Command, win: string)
    requires c.Enable? ==> |c.ids| == |c.windows|
  {
    Records(Step(p, c), win)
    && !(Records(p, win) && p.worker.active[win].sessionId == Step(p, c).worker.active[win].sessionId)
  }

  function WindowNamed(windows: seq<ActiveWindow>, win: string): seq<ActiveWindow> {
    if windows == [] then []
    else if windows[|windows| - 1].windowSessionId == win then [windows[|windows| - 1]]
    else WindowNamed(windows[..|windows| - 1], win)
  }

  /** The windows the present session of `win` was shown, from the one it started with. */
  function Seen(db: Database, cmds: seq<Command>, win: string): seq<ActiveWindow>
    requires forall i :: 0 <= i < |cmds| && cmds[i].Enable? ==> |cmds[i].ids| == |cmds[i].windows|
  {
    if cmds == [] then []
    else
      var before, c := cmds[..|cmds| - 1], cmds[|cmds| - 1];
      var p := Run(db, before);
      if Begins(p, c, win) then
        if c.Open? then [c.window] else if c.Enable? then WindowNamed(c.windows, win) else []
      else if c.Sync? && c.window.windowSessionId == win && Records(p, win) then Seen(db, before, win) + [c.window]
      else Seen(db, before, win)
  }

  /** Whether the present session of `win` began with a restarted timeline: always when history was
      switched on, and when its opening asked for it. */
  predicate BeganFresh(db: Database, cmds: seq<Command>, win: string)
    requires forall i :: 0 <= i < |cmds| && cmds[i].Enable? ==> |cmds[i].ids| == |cmds[i].windows|
  {
    cmds != [] &&
    var before, c := cmds[..|cmds| - 1], cmds[|cmds| - 1];
    if Begins(Run(db, before), c, win) then c.Enable? || (c.Open? && c.reset) else BeganFresh(db, before, win)
  }

  /** How many of them the row had been written with. */
  function Saved(db: Database, cmds: seq<Command>, win: string): nat
    requires forall i :: 0 <= i < |cmds| && cmds[i].Enable? ==> |cmds[i].ids| == |cmds[i].windows|
  {
    if cmds == [] then 0
    else
      var before, c := cmds[..|cmds| - 1], cmds[|cmds| - 1];
      var p := Run(db, before);
      if Begins(p, c, win) then 1
      else if c.Sync? && c.ok && c.window.windowSessionId == win && Records(p, win) then |Seen(db, before, win)| + 1
      else Saved(db, before, win)
  }

  /** The unbounded log of the URLs of these windows, without adjacent repeats. */
  function UrlLog(ws: seq<ActiveWindow>): seq<string> {
    if ws == [] then []
    else
      var log, url := UrlLog(ws[..|ws| - 1]), ws[|ws| - 1].page.currentUrl;
      if url.None? then log else Push(log, url.value)
  }

  function SpaceLog(ws: seq<ActiveWindow>): seq<nat> {
    if ws == [] then []
    else
      var log, space := SpaceLog(ws[..|ws| - 1]), ws[|ws| - 1].desk.workspace;
      if space.None? then log else Push(log, space.value)
  }

  /** A timeline is what the windows say: since the restart for a session that began with one, the last
      window's own histories for any other. */
  ghost predicate Tells(reset: bool, ws: seq<ActiveWindow>, t: Timeline) {
    ws != [] &&
    if reset then
      && Mirrors(UrlLog(ws), t.urls, t.urlsTruncated, URL_LIMITS, Utf8Len)
      && Mirrors(SpaceLog(ws), t.spaces, t.spacesTruncated, WORKSPACE_LIMITS, NoSize)
    else Copies(ws[|ws| - 1], t)
  }

  /** The timeline is the window's own histories. */
  ghost predicate Copies(w: ActiveWindow, t: Timeline) {
    && (if w.page.urlHistory.Some? then t.urls == w.page.urlHistory.value else t.urls == [])
    && (t.urlsTruncated <==> w.page.urlHistoryTruncated == Some(true))
    && t.spaces == w.desk.history && t.spacesTruncated == w.desk.historyTruncated
  }

  /** The row's columns are those of the window. */
  ghost predicate Describes(w: ActiveWindow, r: Row) {
    && r.shown.title == w.page.title && r.shown.renderedUrl == w.renderedUrl && r.shown.finalUrl == w.page.currentUrl
    && r.shown.description == w.description && r.shown.workspace == w.desk.workspace
    && r.shown.isOnAllWorkspaces == w.desk.isOnAllWorkspaces
  }

  lemma {:induction false} AppendedMirrors<T(!new)>(log: seq<T>, h: seq<T>, truncated: bool, x: Option<T>, lim: Limits,
                                                    size: T -> nat)
    requires Mirrors(log, h, truncated, lim, size) && 1 <= lim.entries
    requires x.Some? ==> size(x.value) <= lim.bytes
    ensures var (h1, flag) := AppendedTo(h, truncated, x, lim, size);
            Mirrors(if x.None? then log else Push(log, x.value), h1, flag, lim, size)
  {
    hide Mirrors, PushTrim, Push, Trim;
    if x.Some? {
      PushMirrors(log, h, truncated, x.value, lim, size);
    }
  }

  lemma ObservedTells(a: ActiveSession, ws: seq<ActiveWindow>, w: ActiveWindow)
    requires Tells(a.resetTimeline, ws, a.timeline) && UrlFits(w)
    ensures Tells(a.resetTimeline, ws + [w], Observed(a, w).timeline)
  {
    hide Mirrors, AppendedTo, Utf8Len;
    assert (ws + [w])[..|ws|] == ws;
    if a.resetTimeline {
      AppendedMirrors(UrlLog(ws), a.timeline.urls, a.timeline.urlsTruncated, w.page.currentUrl, URL_LIMITS, Utf8Len);
      AppendedMirrors(SpaceLog(ws), a.timeline.spaces, a.timeline.spacesTruncated, w.desk.workspace,
                      WORKSPACE_LIMITS, NoSize);
    }
  }

  lemma StartMirrors<T(!new)>(x: Option<T>, lim: Limits, size: T -> nat)
    ensures Mirrors(if x.None? then [] else Push([], x.value), AsSeq(x), false, lim, size)
  {
    if x.Some? {
      assert [] + [x.value] == [x.value];
    }
  }

  lemma StartTells(w: ActiveWindow, reset: bool)
    ensures Tells(reset, [w], StartTimeline(w, reset))
  {
    hide Mirrors, Push;
    StartMirrors(w.page.currentUrl, URL_LIMITS, Utf8Len);
    StartMirrors(w.desk.workspace, WORKSPACE_LIMITS, NoSize);
    assert UrlLog([]) == [] && SpaceLog([]) == [];
    assert [w][..0] == [];
  }

  ghost predicate SessionTells(s: Worker, win: string, ws: seq<ActiveWindow>, n: nat)
    requires win in s.active
  {
    var a := s.active[win];
    && 1 <= n <= |ws| && a.sessionId in s.db.rows
    && Tells(a.resetTimeline, ws, a.timeline)
    && Tells(a.resetTimeline, ws[..n], s.db.rows[a.sessionId].timeline)
    && Describes(ws[n - 1], s.db.rows[a.sessionId])
  }

  lemma OpenTells(s: Worker, w: ActiveWindow, reset: bool, id: string, now: int, ok: bool)
    requires Opened(s, w, reset, id, now, ok).1.Ok? && s.config.historyEnabled
    ensures SessionTells(Opened(s, w, reset, id, now, ok).0, w.windowSessionId, [w], 1)
  {
    StartTells(w, reset);
    assert [w][..1] == [w];
  }

  lemma {:induction false} NamedIsThere(windows: seq<ActiveWindow>, k: nat)
    requires Distinct(windows) && k < |windows|
    ensures WindowNamed(windows, windows[k].windowSessionId) == [windows[k]]
    decreases |windows|
  {
    var n := |windows| - 1;
    if k < n {
      NamedIsThere(windows[..n], k);
    }
  }

  lemma EnableTells(s: Worker, windows: seq<ActiveWindow>, ids: seq<string>, now: int, win: string)
    requires |ids| == |windows| && Distinct(windows) && InsertedAll(s.db.rows, windows, ids, now).Some?
    requires win in NewSessions(windows, ids)
    ensures SessionTells(EnabledHistory(s, windows, ids, now, true).0, win, WindowNamed(windows, win), 1)
    ensures EnabledHistory(s, windows, ids, now, true).0.active[win].resetTimeline
  {
    InsertedSpec(s.db.rows, windows, ids, now);
    NewSessionsSpec(windows, ids);
    var k :| 0 <= k < |windows| && windows[k].windowSessionId == win;
    var rows := InsertedAll(s.db.rows, windows, ids, now).value;
    assert IsAdded(s.db.rows, rows, windows[k], ids[k], now);
    NamedIsThere(windows, k);
    StartTells(windows[k], true);
    assert [windows[k]][..1] == [windows[k]];
  }

  lemma SyncTells(s: Worker, w: ActiveWindow, ok: bool, ws: seq<ActiveWindow>, n: nat)
    requires Agree(s) && UrlFits(w)
    requires w.windowSessionId in s.active && SessionTells(s, w.windowSessionId, ws, n)
    ensures SessionTells(Synced(s, w, ok).0, w.windowSessionId, ws + [w], if ok then |ws| + 1 else n)
  {
    ObservedTells(s.active[w.windowSessionId], ws, w);
    assert (ws + [w])[..n] == ws[..n];
    assert (ws + [w])[..|ws| + 1] == ws + [w];
  }

  /** A command that neither starts a session for the window nor syncs it leaves its row and session alone. */
  lemma OthersUntouched(s: Worker, c: Command, win: string)
    requires Agree(s) && Wellformed(c) && !c.Crash? && !c.Start? && !(c.Sync? && c.window.windowSessionId == win)
    requires win in s.active && win in WorkerStep(s, c).active
    requires s.active[win].sessionId == WorkerStep(s, c).active[win].sessionId
    ensures var s1 := WorkerStep(s, c);
            s1.active[win] == s.active[win]
            && s.active[win].sessionId in s1.db.rows
            && s1.db.rows[s.active[win].sessionId] == s.db.rows[s.active[win].sessionId]
  {
    var id := s.active[win].sessionId;
    var id1 := WorkerStep(s, c).active[win].sessionId;
    assert IsOpen(s.db.rows, id) && id1 == id;
  }

  lemma OtherTells(s: Worker, c: Command, win: string, ws: seq<ActiveWindow>, n: nat)
    requires Agree(s) && Wellformed(c) && !c.Crash? && !c.Start? && !(c.Sync? && c.window.windowSessionId == win)
    requires win in s.active && win in WorkerStep(s, c).active
    requires s.active[win].sessionId == WorkerStep(s, c).active[win].sessionId
    requires SessionTells(s, win, ws, n)
    ensures SessionTells(WorkerStep(s, c), win, ws, n)
  {
    OthersUntouched(s, c, win);
  }

  /** What one command does to the account of the window, by the same cases as `Seen` and `Saved`. */
  lemma StepTells(s: Worker, c: Command, win: string, ws: seq<ActiveWindow>, n: nat)
    requires Agree(s) && Wellformed(c) && !c.Crash? && !c.Start? && Records(Step(Up(s), c), win)
    requires !Begins(Up(s), c, win) ==> SessionTells(s, win, ws, n)
    ensures var s1 := WorkerStep(s, c);
            if Begins(Up(s), c, win) then
              if c.Open? then SessionTells(s1, win, [c.window], 1)
              else c.Enable? && SessionTells(s1, win, WindowNamed(c.windows, win), 1)
            else if c.Sync? && c.window.windowSessionId == win then
              SessionTells(s1, win, ws + [c.window], if c.ok then |ws| + 1 else n)
            else SessionTells(s1, win, ws, n)
  {
    if Begins(Up(s), c, win) {
      BeginTells(s, c, win);
    } else if c.Sync? && c.window.windowSessionId == win {
      SyncTells(s, c.window, c.ok, ws, n);
    } else {
      OtherTells(s, c, win, ws, n);
    }
  }

  /** For every active session of every run: its timeline in memory tells what the window showed since the
      session began, its row tells a beginning of that, up to the last write that worked. */
  lemma {:induction false} TimelinesTell(db: Database, cmds: seq<Command>, win: string)
    requires WellformedRun(cmds) && Records(Run(db, cmds), win)
    ensures SessionTells(Run(db, cmds).worker, win, Seen(db, cmds, win), Saved(db, cmds, win))
    decreases |cmds|
  {
    var before, c := cmds[..|cmds| - 1], cmds[|cmds| - 1];
    var p := Run(db, before);
    if p.Up? && !c.Crash? && !c.Start? {
      WorkerAndTableAgree(db, before);
      if !Begins(p, c, win) {
        TimelinesTell(db, before, win);
      }
      StepTells(p.worker, c, win, Seen(db, before, win), Saved(db, before, win));
    } else if p.Up? {
      TimelinesTell(db, before, win);
    }
  }

  lemma BeginTells(s: Worker, c: Command, win: string)
    requires Agree(s) && Wellformed(c) && !c.Crash? && !c.Start? && Begins(Up(s), c, win)
    ensures c.Open? ==> c.window.windowSessionId == win && SessionTells(WorkerStep(s, c), win, [c.window], 1)
                        && WorkerStep(s, c).active[win].resetTimeline == c.reset
    ensures c.Enable? ==> SessionTells(WorkerStep(s, c), win, WindowNamed(c.windows, win), 1)
                          && WorkerStep(s, c).active[win].resetTimeline
    ensures c.Open? || c.Enable?
  {
    match c
    case Open(w, reset, id, now, ok) => OpenTells(s, w, reset, id, now, ok);
    case Enable(enabled, windows, ids, now, ok) => EnableTells(s, windows, ids, now, win);
    case _ =>
  }

  /** The flag in memory says whether the session began fresh. */
  lemma {:induction false} FreshIsReset(db: Database, cmds: seq<Command>, win: string)
    requires WellformedRun(cmds) && Records(Run(db, cmds), win)
    ensures Run(db, cmds).worker.active[win].resetTimeline == BeganFresh(db, cmds, win)
    decreases |cmds|
  {
    var before, c := cmds[..|cmds| - 1], cmds[|cmds| - 1];
    var p := Run(db, before);
    if p.Up? && !c.Crash? && !c.Start? {
      WorkerAndTableAgree(db, before);
      if Begins(p, c, win) {
        BeginTells(p.worker, c, win);
      } else {
        FreshIsReset(db, before, win);
        if !(c.Sync? && c.window.windowSessionId == win) {
          OthersUntouched(p.worker, c, win);
        }
      }
    } else if p.Up? {
      FreshIsReset(db, before, win);
    }
  }

  /** Re-enabling history never backfills: while a session begun by enabling is active, the row's timeline
      is a bounded view of the log of what was shown at or after the enabling, and of nothing before. */
  lemma {:induction false} NeverBackfills(db: Database, cmds: seq<Command>, win: string)
    requires WellformedRun(cmds) && Records(Run(db, cmds), win) && BeganFresh(db, cmds, win)
    ensures var s := Run(db, cmds).worker;
            Saved(db, cmds, win) <= |Seen(db, cmds, win)| &&
            var shown := Seen(db, cmds, win)[..Saved(db, cmds, win)];
            s.active[win].sessionId in s.db.rows &&
            var t := s.db.rows[s.active[win].sessionId].timeline;
            && Mirrors(UrlLog(shown), t.urls, t.urlsTruncated, URL_LIMITS, Utf8Len)
            && Mirrors(SpaceLog(shown), t.spaces, t.spacesTruncated, WORKSPACE_LIMITS, NoSize)
  {
    TimelinesTell(db, cmds, win);
    FreshIsReset(db, cmds, win);
  }

  /** The row a close leaves is in the table and tells everything the window showed, the closing window included. */
  lemma {:induction false} ClosedRowTells(db: Database, cmds: seq<Command>, w: ActiveWindow, reason: CloseReason,
                                          now: int)
    requires WellformedRun(cmds) && UrlFits(w) && Records(Run(db, cmds), w.windowSessionId) && MIN_I64 <= now
    ensures var s := Run(db, cmds).worker;
            var a := s.active[w.windowSessionId];
            var rows := Closed(s, w, reason, now, true).0.db.rows;
            && a.sessionId in rows && rows[a.sessionId].closed == Some(Closure(now, reason))
            && Tells(a.resetTimeline, Seen(db, cmds, w.windowSessionId) + [w], rows[a.sessionId].timeline)
            && Describes(w, rows[a.sessionId])
            && rows[a.sessionId].origin == s.db.rows[a.sessionId].origin
  {
    TimelinesTell(db, cmds, w.windowSessionId);
    WorkerAndTableAgree(db, cmds);
    var s := Run(db, cmds).worker;
    ObservedTells(s.active[w.windowSessionId], Seen(db, cmds, w.windowSessionId), w);
  }
}
