/** The history worker (`DbWorker`): a sessions table, a stored configuration, and what the worker keeps in
    memory. A transaction commits whole or not at all; every statement may fail; the process may die. */
module HistoryWorker {
  import opened Wrappers
  import opened Protocol
  import opened BoundedLog
  import opened Windows
  import opened Text
  import opened Numbers

  const DEFAULT_RETENTION_DAYS: nat := 15
  const MIN_I64 := -0x8000_0000_0000_0000

  datatype Timeline = Timeline(urls: seq<string>, urlsTruncated: bool, spaces: seq<nat>, spacesTruncated: bool)

  /** The columns every write copies from the window. */
  datatype Shown = Shown(title: string, renderedUrl: Option<string>, finalUrl: Option<string>,
                         description: Option<string>, workspace: Option<nat>, isOnAllWorkspaces: bool)
  datatype Origin = Origin(windowSessionId: string, sourceKind: SourceKind, contentKind: ContentKind,
                           requestedSource: string, openedAt: int)
  datatype Closure = Closure(at: int, reason: CloseReason)
  datatype Row = Row(origin: Origin, shown: Shown, timeline: Timeline, closed: Option<Closure>)

  type Rows = map<string, Row>
  datatype Database = Database(rows: Rows, config: map<string, string>)
  datatype Configuration = Configuration(historyEnabled: bool, retentionDays: Option<nat>)
  datatype ActiveSession = ActiveSession(sessionId: string, resetTimeline: bool, timeline: Timeline)
  type Sessions = map<string, ActiveSession>
  datatype Worker = Worker(db: Database, config: Configuration, active: Sessions)
  datatype PersistenceError = Validation | Storage

  // ---- timelines ----

  /** The registry's own histories. */
  function Snapshot(w: ActiveWindow): Timeline {
    Timeline(Or(w.page.urlHistory, []), Or(w.page.urlHistoryTruncated, false),
             w.desk.history, w.desk.historyTruncated)
  }

  function AsSeq<T>(o: Option<T>): seq<T> { if o.Some? then [o.value] else [] }

  /** A timeline that starts now. */
  function Restarted(w: ActiveWindow): Timeline {
    Timeline(AsSeq(w.page.currentUrl), false, AsSeq(w.desk.workspace), false)
  }

  function StartTimeline(w: ActiveWindow, reset: bool): Timeline {
    if reset then Restarted(w) else Snapshot(w)
  }

  /** One observation of a bounded history: nothing, a repeat, or a new newest entry. */
  function AppendedTo<T(==)>(h: seq<T>, truncated: bool, x: Option<T>, lim: Limits, size: T -> nat): (seq<T>, bool) {
    if x.None? then (h, truncated)
    else
      var kept := PushTrim(h, x.value, lim, size);
      (kept, truncated || |kept| < |Push(h, x.value)|)
  }

  function Appended(t: Timeline, w: ActiveWindow): Timeline {
    var (urls, urlsTruncated) := AppendedTo(t.urls, t.urlsTruncated, w.page.currentUrl, URL_LIMITS, Utf8Len);
    var (spaces, spacesTruncated) :=
      AppendedTo(t.spaces, t.spacesTruncated, w.desk.workspace, WORKSPACE_LIMITS, NoSize);
    Timeline(urls, urlsTruncated, spaces, spacesTruncated)
  }

  /** `ActiveSession::observe`. */
  function Observed(a: ActiveSession, w: ActiveWindow): ActiveSession {
    a.(timeline := if a.resetTimeline then Appended(a.timeline, w) else Snapshot(w))
  }

  predicate Repeats<T(==)>(s: seq<T>, x: T) { s != [] && s[|s| - 1] == x }

  lemma PushedSpace(spaces: seq<nat>, space: nat)
    ensures PushTrim(spaces, space, WORKSPACE_LIMITS, NoSize)
            == if Repeats(spaces, space) then spaces
               else if |spaces| < MAX_WORKSPACE_HISTORY_ENTRIES then spaces + [space]
               else (spaces + [space])[|spaces| + 1 - MAX_WORKSPACE_HISTORY_ENTRIES..]
    ensures Push(spaces, space) == if Repeats(spaces, space) then spaces else spaces + [space]
  {
    hide Trim;
    WorkspaceTrimIsLast128(spaces + [space]);
  }

  method AppendUrl(urls: seq<string>, truncated: bool, url: Option<string>) returns (r: seq<string>, flag: bool)
    ensures (r, flag) == AppendedTo(urls, truncated, url, URL_LIMITS, Utf8Len)
  {
    hide Trim, Utf8Len, PushTrim, Push;
    r, flag := urls, truncated;
    if url.Some? {
      r, flag := AppendTrimmed(urls, truncated, url.value, URL_LIMITS, Utf8Len);
    }
  }

  method AppendSpace(spaces: seq<nat>, truncated: bool, space: Option<nat>) returns (r: seq<nat>, flag: bool)
    ensures (r, flag) == AppendedTo(spaces, truncated, space, WORKSPACE_LIMITS, NoSize)
  {
    r, flag := spaces, truncated;
    if space.Some? {
      PushedSpace(spaces, space.value);
      if spaces == [] || spaces[|spaces| - 1] != space.value {
        r := spaces + [space.value];
        if |r| > MAX_WORKSPACE_HISTORY_ENTRIES {
          var overflow := |r| - MAX_WORKSPACE_HISTORY_ENTRIES;
          r := r[overflow..];
          flag := true;
        }
      }
    }
  }

  /** `observe` as the source runs it. */
  method ObserveWindow(a: ActiveSession, w: ActiveWindow) returns (r: ActiveSession)
    ensures r == Observed(a, w)
  {
    if !a.resetTimeline {
      return a.(timeline := Snapshot(w));
    }
    var urls, urlsTruncated := AppendUrl(a.timeline.urls, a.timeline.urlsTruncated, w.page.currentUrl);
    var spaces, spacesTruncated := AppendSpace(a.timeline.spaces, a.timeline.spacesTruncated, w.desk.workspace);
    r := a.(timeline := Timeline(urls, urlsTruncated, spaces, spacesTruncated));
  }

  // ---- rows ----

  function ShownOf(w: ActiveWindow): Shown {
    Shown(w.page.title, w.renderedUrl, w.page.currentUrl, w.description, w.desk.workspace, w.desk.isOnAllWorkspaces)
  }

  function OriginOf(w: ActiveWindow, now: int): Origin {
    Origin(w.windowSessionId, w.sourceKind, w.contentKind, w.requestedSource, now)
  }

  function NewRow(w: ActiveWindow, now: int, reset: bool): Row {
    Row(OriginOf(w, now), ShownOf(w), StartTimeline(w, reset), None)
  }

  predicate IsOpen(rows: Rows, id: string) { id in rows && rows[id].closed.None? }

  /** `update_session` and `close_session_row` write the open row of the session, if it is still there. */
  function Written(rows: Rows, a: ActiveSession, w: ActiveWindow, closed: Option<Closure>): Rows {
    if !IsOpen(rows, a.sessionId) then rows
    else rows[a.sessionId := Row(rows[a.sessionId].origin, ShownOf(w), a.timeline, closed)]
  }

  /** `now.saturating_sub(days * 86400)`. */
  function Cutoff(now: int, days: nat): int {
    var t := now - days * 86_400;
    if t < MIN_I64 then MIN_I64 else t
  }

  predicate Expired(r: Row, retention: Option<nat>, now: int) {
    retention.Some? && r.closed.Some? && r.closed.value.at < Cutoff(now, retention.value)
  }

  /** `prune_closed`. */
  function Pruned(rows: Rows, retention: Option<nat>, now: int): Rows {
    map id | id in rows && !Expired(rows[id], retention, now) :: rows[id]
  }

  function WithoutOpen(rows: Rows): Rows { map id | id in rows && rows[id].closed.Some? :: rows[id] }

  function WithoutClosed(rows: Rows): Rows { map id | id in rows && rows[id].closed.None? :: rows[id] }

  /** What start-up does to rows left open. */
  function Terminated(rows: Rows, now: int): Rows {
    map id | id in rows ::
      if rows[id].closed.None? then rows[id].(closed := Some(Closure(now, AbruptTermination))) else rows[id]
  }

  // ---- the stored configuration ----

  function RenderBool(b: bool): string { if b then "true" else "false" }
  function RenderDays(days: Option<nat>): string { if days.None? then "null" else Decimal(days.value) }

  predicate ValidDays(days: Option<nat>) { days.None? || 1 <= days.value <= MAX_RETENTION_DAYS }

  function ParseEnabled(s: string): Option<bool> {
    if s == "true" then Some(true) else if s == "false" then Some(false) else None
  }

  function ParseDays(s: string): Option<Option<nat>> {
    if s == "null" then Some(None)
    else
      var days := ParseUnsigned(s, MAX_U32);
      if days.None? || !(1 <= days.value <= MAX_RETENTION_DAYS) then None else Some(days)
  }

  /** `load_config`. */
  function LoadConfig(config: map<string, string>): Option<Configuration> {
    if "history_enabled" !in config || "retention_days" !in config then None
    else
      var enabled, days := ParseEnabled(config["history_enabled"]), ParseDays(config["retention_days"]);
      if enabled.None? || days.None? then None else Some(Configuration(enabled.value, days.value))
  }

  /** `initialize_config`: the first `n` of its two statements. */
  function WithDefaults(config: map<string, string>, n: nat): map<string, string> {
    var c1 := if n < 1 || "history_enabled" in config then config else config["history_enabled" := "true"];
    if n < 2 || "retention_days" in c1 then c1 else c1["retention_days" := Decimal(DEFAULT_RETENTION_DAYS)]
  }

  /** The defaults are for missing values only. */
  lemma DefaultsAreForMissing(config: map<string, string>, n: nat)
    ensures var c := WithDefaults(config, n);
            && (forall k :: k in config ==> k in c && c[k] == config[k])
            && (n >= 2 ==>
                  && "history_enabled" in c && ("history_enabled" !in config ==> c["history_enabled"] == "true")
                  && "retention_days" in c && ("retention_days" !in config ==> c["retention_days"] == Decimal(15)))
  {
    hide Decimal;
  }

  lemma DaysRoundTrip(days: Option<nat>)
    requires ValidDays(days)
    ensures ParseDays(RenderDays(days)) == Some(days)
  {
    if days.Some? {
      hide Decimal;
      DecimalRoundTrip(days.value, MAX_U32);
      DecimalIsNotNull(days.value);
    }
  }

  /** What is stored is read back. */
  lemma ConfigRoundTrip(c: Configuration, stored: map<string, string>)
    requires ValidDays(c.retentionDays)
    ensures LoadConfig(stored["history_enabled" := RenderBool(c.historyEnabled)]
                             ["retention_days" := RenderDays(c.retentionDays)]) == Some(c)
    ensures LoadConfig(stored).Some? ==>
              && LoadConfig(stored["history_enabled" := RenderBool(c.historyEnabled)])
                 == Some(Configuration(c.historyEnabled, LoadConfig(stored).value.retentionDays))
              && LoadConfig(stored["retention_days" := RenderDays(c.retentionDays)])
                 == Some(Configuration(LoadConfig(stored).value.historyEnabled, c.retentionDays))
    ensures LoadConfig(WithDefaults(map[], 2)) == Some(Configuration(true, Some(DEFAULT_RETENTION_DAYS)))
  {
    assert RenderDays(Some(DEFAULT_RETENTION_DAYS)) == Decimal(DEFAULT_RETENTION_DAYS);
    hide Decimal, ParseDays, RenderDays;
    DaysRoundTrip(c.retentionDays);
    DaysRoundTrip(Some(DEFAULT_RETENTION_DAYS));
  }

  lemma DecimalIsNotNull(n: nat)
    ensures Decimal(n) != "null"
  {
    assert IsDigit(Decimal(n)[0]);
  }

  // ---- the commands ----

  /** `open_session`; `id` is the new session's UUID. */
  function Opened(s: Worker, w: ActiveWindow, reset: bool, id: string, now: int, ok: bool)
    : (Worker, Result<(), PersistenceError>)
  {
    if !s.config.historyEnabled then (s, Ok(()))
    else if w.windowSessionId in s.active || id in s.db.rows || !ok then (s, Err(Storage))
    else
      (Worker(s.db.(rows := s.db.rows[id := NewRow(w, now, reset)]), s.config,
              s.active[w.windowSessionId := ActiveSession(id, reset, StartTimeline(w, reset))]),
       Ok(()))
  }

  /** `abort_open`. */
  function Aborted(s: Worker, window: string, ok: bool): (Worker, Result<(), PersistenceError>) {
    if window !in s.active then (s, Ok(()))
    else if !ok then (s, Err(Storage))
    else
      var id := s.active[window].sessionId;
      (Worker(s.db.(rows := if IsOpen(s.db.rows, id) then s.db.rows - {id} else s.db.rows), s.config,
              s.active - {window}),
       Ok(()))
  }

  /** `sync_window`: the session in memory observes the window even when the update then fails. */
  function Synced(s: Worker, w: ActiveWindow, ok: bool): (Worker, Result<(), PersistenceError>) {
    if !s.config.historyEnabled || w.windowSessionId !in s.active then (s, Ok(()))
    else
      var a := Observed(s.active[w.windowSessionId], w);
      var s1 := s.(active := s.active[w.windowSessionId := a]);
      if ok then (s1.(db := s.db.(rows := Written(s.db.rows, a, w, None))), Ok(())) else (s1, Err(Storage))
  }

  /** `close_session`: closing the row and pruning are one transaction. */
  function Closed(s: Worker, w: ActiveWindow, reason: CloseReason, now: int, ok: bool)
    : (Worker, Result<(), PersistenceError>)
  {
    if !s.config.historyEnabled || w.windowSessionId !in s.active then (s, Ok(()))
    else if !ok then (s, Err(Storage))
    else
      var a := Observed(s.active[w.windowSessionId], w);
      var rows := Pruned(Written(s.db.rows, a, w, Some(Closure(now, reason))), s.config.retentionDays, now);
      (Worker(s.db.(rows := rows), s.config, s.active - {w.windowSessionId}), Ok(()))
  }

  /** `clear_history`. */
  function Cleared(s: Worker, ok: bool): (Worker, Result<nat, PersistenceError>) {
    if !ok then (s, Err(Storage))
    else
      var rows := WithoutClosed(s.db.rows);
      (s.(db := s.db.(rows := rows)), Ok(|s.db.rows.Keys - rows.Keys|))
  }

  /** The inserts of `enable_history`, in order; a repeated session id fails the transaction. */
  function InsertedAll(rows: Rows, windows: seq<ActiveWindow>, ids: seq<string>, now: int): Option<Rows>
    requires |ids| == |windows|
  {
    if windows == [] then Some(rows)
    else
      var n := |windows| - 1;
      var r := InsertedAll(rows, windows[..n], ids[..n], now);
      if r.None? || ids[n] in r.value then None else Some(r.value[ids[n] := NewRow(windows[n], now, true)])
  }

  function NewSessions(windows: seq<ActiveWindow>, ids: seq<string>): Sessions
    requires |ids| == |windows|
  {
    if windows == [] then map[]
    else
      var n := |windows| - 1;
      NewSessions(windows[..n], ids[..n])
        [windows[n].windowSessionId := ActiveSession(ids[n], true, Restarted(windows[n]))]
  }

  /** `enable_history`: one transaction. */
  function EnabledHistory(s: Worker, windows: seq<ActiveWindow>, ids: seq<string>, now: int, ok: bool)
    : (Worker, Result<(), PersistenceError>)
    requires |ids| == |windows|
  {
    var rows := InsertedAll(s.db.rows, windows, ids, now);
    if rows.None? || !ok then (s, Err(Storage))
    else
      (Worker(Database(rows.value, s.db.config["history_enabled" := RenderBool(true)]),
              s.config.(historyEnabled := true), NewSessions(windows, ids)),
       Ok(()))
  }

  /** `SetHistoryEnabled`. */
  function SetEnabled(s: Worker, enabled: bool, windows: seq<ActiveWindow>, ids: seq<string>, now: int, ok: bool)
    : (Worker, Result<(), PersistenceError>)
    requires |ids| == |windows|
  {
    if enabled == s.config.historyEnabled then (s, Ok(()))
    else if enabled then EnabledHistory(s, windows, ids, now, ok)
    else if !ok then (s, Err(Storage))
    else
      (Worker(Database(WithoutOpen(s.db.rows), s.db.config["history_enabled" := RenderBool(false)]),
              s.config.(historyEnabled := false), map[]),
       Ok(()))
  }

  /** `SetRetentionDays`: storing the value and pruning are one transaction. */
  function SetRetention(s: Worker, days: Option<nat>, now: int, ok: bool): (Worker, Result<(), PersistenceError>) {
    if !ValidDays(days) then (s, Err(PersistenceError.Validation))
    else if days == s.config.retentionDays then (s, Ok(()))
    else if !ok then (s, Err(Storage))
    else
      (s.(db := Database(Pruned(s.db.rows, days, now), s.db.config["retention_days" := RenderDays(days)]),
          config := s.config.(retentionDays := days)),
       Ok(()))
  }

  /** `initialize` after the schema is in place: five steps, each its own statement, of which the first
      `steps` succeed: two configuration defaults, reading the configuration, closing what was left open,
      pruning. */
  function Initialized(db: Database, now: int, steps: nat): (Database, Result<Worker, PersistenceError>) {
    var config := WithDefaults(db.config, steps);
    var loaded := LoadConfig(config);
    if steps < 3 || loaded.None? then (db.(config := config), Err(Storage))
    else if steps < 4 then (db.(config := config), Err(Storage))
    else
      var rows := Terminated(db.rows, now);
      if steps < 5 then (Database(rows, config), Err(Storage))
      else
        var done := Database(Pruned(rows, loaded.value.retentionDays, now), config);
        (done, Ok(Worker(done, loaded.value, map[])))
  }

  // ---- the class ----

  class DbWorker {
    var db: Database
    var config: Configuration
    var active: Sessions

    function Abs(): Worker
      reads this
    {
      Worker(db, config, active)
    }

    constructor (w: Worker)
      ensures Abs() == w
    {
      db, config, active := w.db, w.config, w.active;
    }

    method OpenSession(w: ActiveWindow, reset: bool, id: string, now: int, ok: bool)
      returns (r: Result<(), PersistenceError>)
      modifies this
      ensures (Abs(), r) == Opened(old(Abs()), w, reset, id, now, ok)
    {
      if !config.historyEnabled {
        return Ok(());
      }
      if w.windowSessionId in active {
        return Err(Storage);
      }
      if id in db.rows || !ok {
        return Err(Storage);
      }
      db := db.(rows := db.rows[id := NewRow(w, now, reset)]);
      active := active[w.windowSessionId := ActiveSession(id, reset, StartTimeline(w, reset))];
      r := Ok(());
    }

    method AbortOpen(window: string, ok: bool) returns (r: Result<(), PersistenceError>)
      modifies this
      ensures (Abs(), r) == Aborted(old(Abs()), window, ok)
    {
      if window !in active {
        return Ok(());
      }
      if !ok {
        return Err(Storage);
      }
      var id := active[window].sessionId;
      if IsOpen(db.rows, id) {
        db := db.(rows := db.rows - {id});
      }
      active := active - {window};
      r := Ok(());
    }

    method SyncWindow(w: ActiveWindow, ok: bool) returns (r: Result<(), PersistenceError>)
      modifies this
      ensures (Abs(), r) == Synced(old(Abs()), w, ok)
    {
      if !config.historyEnabled {
        return Ok(());
      }
      if w.windowSessionId !in active {
        return Ok(());
      }
      var session := ObserveWindow(active[w.windowSessionId], w);
      active := active[w.windowSessionId := session];
      if !ok {
        return Err(Storage);
      }
      db := db.(rows := Written(db.rows, session, w, None));
      r := Ok(());
    }

    method CloseSession(w: ActiveWindow, reason: CloseReason, now: int, ok: bool)
      returns (r: Result<(), PersistenceError>)
      modifies this
      ensures (Abs(), r) == Closed(old(Abs()), w, reason, now, ok)
    {
      if !config.historyEnabled {
        return Ok(());
      }
      if w.windowSessionId !in active {
        return Ok(());
      }
      var session := ObserveWindow(active[w.windowSessionId], w);
      var rows := Written(db.rows, session, w, Some(Closure(now, reason)));
      rows := Pruned(rows, config.retentionDays, now);
      if !ok {
        return Err(Storage);
      }
      db := db.(rows := rows);
      active := active - {w.windowSessionId};
      r := Ok(());
    }

    method ClearHistory(ok: bool) returns (r: Result<nat, PersistenceError>)
      modifies this
      ensures (Abs(), r) == Cleared(old(Abs()), ok)
    {
      if !ok {
        return Err(Storage);
      }
      var rows := WithoutClosed(db.rows);
      r := Ok(|db.rows.Keys - rows.Keys|);
      db := db.(rows := rows);
    }

    /** The loop of inserts, in a transaction that is dropped when one fails. */
    method EnableHistory(windows: seq<ActiveWindow>, ids: seq<string>, now: int, ok: bool)
      returns (r: Result<(), PersistenceError>)
      requires |ids| == |windows|
      modifies this
      ensures (Abs(), r) == EnabledHistory(old(Abs()), windows, ids, now, ok)
    {
      var rows := db.rows;
      var newSessions: Sessions := map[];
      var i := 0;
      while i < |windows|
        invariant 0 <= i <= |windows|
        invariant InsertedAll(db.rows, windows[..i], ids[..i], now) == Some(rows)
        invariant newSessions == NewSessions(windows[..i], ids[..i])
        invariant Abs() == old(Abs())
      {
        assert windows[..i + 1][..i] == windows[..i] && ids[..i + 1][..i] == ids[..i];
        if ids[i] in rows {
          InsertFailureStays(db.rows, windows, ids, now, i + 1);
          return Err(Storage);
        }
        rows := rows[ids[i] := NewRow(windows[i], now, true)];
        newSessions := newSessions[windows[i].windowSessionId := ActiveSession(ids[i], true, Restarted(windows[i]))];
        i := i + 1;
      }
      assert windows[..i] == windows && ids[..i] == ids;
      if !ok {
        return Err(Storage);
      }
      db := Database(rows, db.config["history_enabled" := RenderBool(true)]);
      active := newSessions;
      config := config.(historyEnabled := true);
      r := Ok(());
    }

    method ApplyEnabled(enabled: bool, windows: seq<ActiveWindow>, ids: seq<string>, now: int, ok: bool)
      returns (r: Result<(), PersistenceError>)
      requires |ids| == |windows|
      modifies this
      ensures (Abs(), r) == SetEnabled(old(Abs()), enabled, windows, ids, now, ok)
    {
      if enabled != config.historyEnabled {
        if enabled {
          r := EnableHistory(windows, ids, now, ok);
          return;
        }
        if !ok {
          return Err(Storage);
        }
        db := Database(WithoutOpen(db.rows), db.config["history_enabled" := RenderBool(false)]);
        active := map[];
        config := config.(historyEnabled := false);
      }
      r := Ok(());
    }

    method ApplyRetention(days: Option<nat>, now: int, ok: bool) returns (r: Result<(), PersistenceError>)
      modifies this
      ensures (Abs(), r) == SetRetention(old(Abs()), days, now, ok)
    {
      if !ValidDays(days) {
        return Err(PersistenceError.Validation);
      }
      if days != config.retentionDays {
        var newConfig := config.(retentionDays := days);
        if !ok {
          return Err(Storage);
        }
        db := Database(Pruned(db.rows, days, now), db.config["retention_days" := RenderDays(days)]);
        config := newConfig;
      }
      r := Ok(());
    }
  }

  lemma {:induction false} InsertFailureStays(rows: Rows, windows: seq<ActiveWindow>, ids: seq<string>, now: int,
                                              n: nat)
    requires |ids| == |windows| && n <= |windows|
    requires InsertedAll(rows, windows[..n], ids[..n], now).None?
    ensures InsertedAll(rows, windows, ids, now).None?
    decreases |windows|
  {
    if n == |windows| {
      assert windows[..n] == windows && ids[..n] == ids;
    } else {
      var m := |windows| - 1;
      assert windows[..m][..n] == windows[..n] && ids[..m][..n] == ids[..n];
      InsertFailureStays(rows, windows[..m], ids[..m], now, n);
    }
  }
}
