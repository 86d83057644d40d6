/** What a record says: for each thing reported about a window, the last report since it was opened. */
module Reports {
  import opened Wrappers
  import opened Protocol
  import opened Text
  import opened BoundedLog
  import opened Windows
  import opened Registry
  import opened Timelines

  // ---- one window's share of a run ----

  /** The window as it was opened last. */
  function OpenedAs(events: seq<Event>, id: string): Option<ActiveWindow> {
    if events == [] then None
    else
      var e := events[|events| - 1];
      if e.Opened? && e.window.windowSessionId == id then Some(e.window) else OpenedAs(events[..|events| - 1], id)
  }

  /** What was reported about it since then. */
  function ReportsOf(events: seq<Event>, id: string): seq<Observation> {
    if events == [] then []
    else
      var before, e := events[..|events| - 1], events[|events| - 1];
      if e.Opened? && e.window.windowSessionId == id then []
      else if e.Observed? && e.id == id then ReportsOf(before, id) + [e.observation]
      else ReportsOf(before, id)
  }

  lemma ObserveFocus(w: ActiveWindow, o: Observation, focused: bool)
    ensures Observe(w.(isFocused := focused), o) == Observe(w, o).(isFocused := focused)
  {
  }

  /** The events of other windows matter to nothing but the focus. */
  lemma {:induction false} RecordIsItsReports(events: seq<Event>, id: string)
    requires id in Run(events).windows
    ensures OpenedAs(events, id).Some?
    ensures var w := Run(events).windows[id].window;
            w == ObserveAll(OpenedAs(events, id).value, ReportsOf(events, id)).(isFocused := w.isFocused)
  {
    var before, e := events[..|events| - 1], events[|events| - 1];
    if e.Opened? && e.window.windowSessionId == id {
    } else {
      RecordIsItsReports(before, id);
      if e.Observed? && e.id == id {
        var w, told := Run(before).windows[id].window, ReportsOf(before, id);
        assert (told + [e.observation])[..|told|] == told;
        ObserveFocus(ObserveAll(OpenedAs(before, id).value, told), e.observation, w.isFocused);
      }
      hide Observe;
    }
  }

  // ---- the last report of a kind ----

  function LastOf(obs: seq<Observation>, kind: Observation -> bool): Option<Observation> {
    if obs == [] then None
    else if kind(obs[|obs| - 1]) then Some(obs[|obs| - 1])
    else LastOf(obs[..|obs| - 1], kind)
  }

  function Shortened(s: string, max: nat): string { if |s| <= max then s else s[..max] }

  /** The title last reported, at most 1024 characters of it. */
  ghost predicate TitleIsLast(w: ActiveWindow, obs: seq<Observation>, r: ActiveWindow) {
    match LastOf(obs, (o: Observation) => o.Title?)
    case Some(o) => o.Title? && r.page.title == if w.sourceKind.Web? then Shortened(o.title, 1024) else w.page.title
    case None => r.page.title == w.page.title
  }

  ghost predicate AuthenticatedIsLast(w: ActiveWindow, obs: seq<Observation>, r: ActiveWindow) {
    match LastOf(obs, (o: Observation) => o.Authenticated?)
    case Some(o) =>
      o.Authenticated? && r.authenticated == if w.sourceKind.Web? then o.authenticated else w.authenticated
    case None => r.authenticated == w.authenticated
  }

  predicate PlaysMedia(w: ActiveWindow) {
    w.sourceKind == LocalMedia && (w.contentKind == Audio || w.contentKind == Video)
  }

  ghost predicate MediaIsLast(w: ActiveWindow, obs: seq<Observation>, r: ActiveWindow) {
    match LastOf(obs, (o: Observation) => o.MediaReport?)
    case Some(o) => o.MediaReport? && r.mediaState == if PlaysMedia(w) then Some(o.media) else w.mediaState
    case None => r.mediaState == w.mediaState
  }

  ghost predicate DescriptionIsLast(w: ActiveWindow, obs: seq<Observation>, r: ActiveWindow) {
    match LastOf(obs, (o: Observation) => o.Describe?)
    case Some(o) => o.Describe? && r.description == o.description
    case None => r.description == w.description
  }

  /** The placement last reported with an index of at most 255. */
  ghost predicate PlacementIsLast(w: ActiveWindow, obs: seq<Observation>, r: ActiveWindow) {
    match LastOf(obs, (o: Observation) => o.Placement? && (o.index.Some? ==> o.index.value <= 255))
    case Some(o) =>
      o.Placement? && r.desk.isOnAllWorkspaces == o.all && r.desk.workspace == if o.all then None else o.index
    case None => r.desk == w.desk
  }

  /** What no report changes. */
  ghost predicate SameKind(w: ActiveWindow, r: ActiveWindow) {
    && r.windowSessionId == w.windowSessionId && r.sourceKind == w.sourceKind && r.contentKind == w.contentKind
    && r.requestedSource == w.requestedSource && r.renderedUrl == w.renderedUrl && r.profile == w.profile
  }

  lemma KindStep(w: ActiveWindow, r: ActiveWindow, o: Observation)
    requires SameKind(w, r)
    ensures SameKind(w, Observe(r, o))
  {
  }

  lemma TitleStep(w: ActiveWindow, obs: seq<Observation>, r: ActiveWindow)
    requires obs != [] && SameKind(w, r) && TitleIsLast(w, obs[..|obs| - 1], r)
    ensures TitleIsLast(w, obs, Observe(r, obs[|obs| - 1]))
  {
  }

  lemma AuthenticatedStep(w: ActiveWindow, obs: seq<Observation>, r: ActiveWindow)
    requires obs != [] && SameKind(w, r) && AuthenticatedIsLast(w, obs[..|obs| - 1], r)
    ensures AuthenticatedIsLast(w, obs, Observe(r, obs[|obs| - 1]))
  {
  }

  lemma MediaStep(w: ActiveWindow, obs: seq<Observation>, r: ActiveWindow)
    requires obs != [] && SameKind(w, r) && MediaIsLast(w, obs[..|obs| - 1], r)
    ensures MediaIsLast(w, obs, Observe(r, obs[|obs| - 1]))
  {
  }

  lemma DescriptionStep(w: ActiveWindow, obs: seq<Observation>, r: ActiveWindow)
    requires obs != [] && SameKind(w, r) && DescriptionIsLast(w, obs[..|obs| - 1], r)
    ensures DescriptionIsLast(w, obs, Observe(r, obs[|obs| - 1]))
  {
  }

  lemma PlacementStep(w: ActiveWindow, obs: seq<Observation>, r: ActiveWindow)
    requires obs != [] && SameKind(w, r) && PlacementIsLast(w, obs[..|obs| - 1], r)
    ensures PlacementIsLast(w, obs, Observe(r, obs[|obs| - 1]))
  {
  }

  lemma NothingReported(w: ActiveWindow)
    ensures TitleIsLast(w, [], w) && AuthenticatedIsLast(w, [], w) && MediaIsLast(w, [], w)
    ensures DescriptionIsLast(w, [], w) && PlacementIsLast(w, [], w)
  {
  }

  lemma {:induction false} FieldsAreLast(w: ActiveWindow, obs: seq<Observation>)
    ensures var r := ObserveAll(w, obs);
            && SameKind(w, r)
            && TitleIsLast(w, obs, r) && AuthenticatedIsLast(w, obs, r) && MediaIsLast(w, obs, r)
            && DescriptionIsLast(w, obs, r) && PlacementIsLast(w, obs, r)
  {
    hide Observe, TitleIsLast, AuthenticatedIsLast, MediaIsLast, DescriptionIsLast, PlacementIsLast;
    if obs == [] {
      NothingReported(w);
    } else {
      var before := obs[..|obs| - 1];
      var r := ObserveAll(w, before);
      FieldsAreLast(w, before);
      KindStep(w, r, obs[|obs| - 1]);
      TitleStep(w, obs, r);
      AuthenticatedStep(w, obs, r);
      MediaStep(w, obs, r);
      DescriptionStep(w, obs, r);
      PlacementStep(w, obs, r);
    }
  }

  // ---- the console ----

  /** All console entries reported. */
  function ConsoleLog(obs: seq<Observation>): seq<ConsoleEntry> {
    if obs == [] then []
    else
      var log, o := ConsoleLog(obs[..|obs| - 1]), obs[|obs| - 1];
      if o.ConsoleEntries? then log + o.entries else log
  }

  function Newest<T>(s: seq<T>, n: nat): seq<T> { if |s| <= n then s else s[|s| - n..] }

  /** The console holds the newest 50 entries reported. Its flag says what the last report said of itself, or that
      this report pushed out older entries. */
  ghost predicate ConsoleIsNewest(obs: seq<Observation>, r: ActiveWindow) {
    && r.console.errors == Newest(ConsoleLog(obs), 50)
    && match LastOf(obs, (o: Observation) => o.ConsoleEntries?)
       case Some(o) =>
         o.ConsoleEntries? && r.console.truncated == (o.sourceTruncated || (o.entries != [] && |ConsoleLog(obs)| > 50))
       case None => !r.console.truncated
  }

  lemma NewestPlus<T>(log: seq<T>, more: seq<T>, n: nat)
    ensures Newest(Newest(log, n) + more, n) == Newest(log + more, n)
    ensures |Newest(log, n) + more| > n <==> |log + more| > n && (more != [] || |Newest(log, n)| > n)
  {
    assert |Newest(log, n)| <= n;
  }

  lemma ConsoleStep(obs: seq<Observation>, r: ActiveWindow)
    requires obs != [] && r.sourceKind.Web? && ConsoleIsNewest(obs[..|obs| - 1], r)
    ensures ConsoleIsNewest(obs, Observe(r, obs[|obs| - 1]))
  {
    var o := obs[|obs| - 1];
    if o.ConsoleEntries? {
      AppendedIsNewest(r.console, ConsoleLog(obs[..|obs| - 1]), o.entries, o.sourceTruncated);
    }
    hide Newest, AppendConsole;
  }

  lemma AppendedIsNewest(c: ConsoleBuffer, log: seq<ConsoleEntry>, entries: seq<ConsoleEntry>, sourceTruncated: bool)
    requires c.errors == Newest(log, 50)
    ensures var c1 := AppendConsole(c, entries, sourceTruncated);
            && c1.errors == Newest(log + entries, 50)
            && c1.truncated == (sourceTruncated || (entries != [] && |log + entries| > 50))
  {
    NewestPlus(log, entries, 50);
  }

  lemma {:induction false} ConsoleKept(w: ActiveWindow, obs: seq<Observation>)
    requires w.sourceKind.Web? && w.console == ConsoleBuffer([], false)
    ensures ObserveAll(w, obs).sourceKind.Web? && ConsoleIsNewest(obs, ObserveAll(w, obs))
  {
    if obs != [] {
      ConsoleKept(w, obs[..|obs| - 1]);
      hide ConsoleIsNewest;
      ConsoleStep(obs, ObserveAll(w, obs[..|obs| - 1]));
    }
  }

  // ---- the page ----

  /** Reports about the page that a web window takes: while a failure stands, no finish and no restart of its URL. */
  predicate Takes(p: Page, o: Observation) {
    || o.ObservedUrl? || o.PageFailed?
    || (o.PageFinished? && !p.loadState.Failed?)
    || (o.PageStarted? && !(p.loadState.Failed? && p.currentUrl == Some(o.url)))
  }

  /** The last report of its page that the window took; with `loads`, the last about a load. */
  function LastTaken(w: ActiveWindow, obs: seq<Observation>, loads: bool): Option<Observation> {
    if obs == [] then None
    else
      var before, o := obs[..|obs| - 1], obs[|obs| - 1];
      if Takes(ObserveAll(w, before).page, o) && !(loads && o.ObservedUrl?) then Some(o)
      else LastTaken(w, before, loads)
  }

  /** The URL is that of the last report taken, at most 4096 characters of it. */
  ghost predicate UrlIsLast(w: ActiveWindow, obs: seq<Observation>, p: Page) {
    match LastTaken(w, obs, false)
    case Some(ObservedUrl(url)) => p.currentUrl == Some(Shortened(url, 4096))
    case Some(PageStarted(url)) => p.currentUrl == Some(Shortened(url, 4096))
    case Some(PageFinished(url)) => p.currentUrl == Some(Shortened(url, 4096))
    case Some(PageFailed(url, _)) => p.currentUrl == Some(Shortened(url, 4096))
    case Some(_) => false
    case None => p.currentUrl == w.page.currentUrl
  }

  /** The load state is that of the last report taken about a load, with its error if it failed. */
  ghost predicate LoadIsLast(w: ActiveWindow, obs: seq<Observation>, p: Page) {
    match LastTaken(w, obs, true)
    case Some(PageStarted(_)) => p.loadState == Started && p.loadError == None
    case Some(PageFinished(_)) => p.loadState == Loaded && p.loadError == None
    case Some(PageFailed(_, error)) => p.loadState == Failed && p.loadError == Some(Shortened(error, 1024))
    case Some(_) => false
    case None => p.loadState == w.page.loadState && p.loadError == w.page.loadError
  }

  ghost predicate PageIsLast(w: ActiveWindow, obs: seq<Observation>, r: ActiveWindow) {
    && IsWebPage(r) && (r.page.loadError.Some? <==> r.page.loadState.Failed?)
    && UrlIsLast(w, obs, r.page) && LoadIsLast(w, obs, r.page)
  }

  lemma PageStep(w: ActiveWindow, obs: seq<Observation>)
    requires obs != [] && PageIsLast(w, obs[..|obs| - 1], ObserveAll(w, obs[..|obs| - 1]))
    ensures PageIsLast(w, obs, Observe(ObserveAll(w, obs[..|obs| - 1]), obs[|obs| - 1]))
  {
    hide ObserveAll, PushTrim, Place, AppendConsole, ResizeGeometry, Utf8Len;
  }

  lemma {:induction false} PageKept(w: ActiveWindow, obs: seq<Observation>)
    requires IsWebPage(w) && (w.page.loadError.Some? <==> w.page.loadState.Failed?)
    ensures PageIsLast(w, obs, ObserveAll(w, obs))
  {
    if obs != [] {
      PageKept(w, obs[..|obs| - 1]);
      PageStep(w, obs);
    }
    hide Observe;
  }

  /** Over every run: each record holds the title, the authenticated flag, the media state, the description and the
      placement last reported since its window was opened, or what it was opened with; a web window's console the
      newest 50 entries; and a web page's URL and load state are those of the last report it took. */
  lemma {:induction false} RecordTellsLastReports(events: seq<Event>, id: string)
    requires HostRun(events) && id in Run(events).windows
    ensures OpenedAs(events, id).Some?
    ensures var w, obs, r := OpenedAs(events, id).value, ReportsOf(events, id), Run(events).windows[id].window;
            && TitleIsLast(w, obs, r) && AuthenticatedIsLast(w, obs, r) && MediaIsLast(w, obs, r)
            && DescriptionIsLast(w, obs, r) && PlacementIsLast(w, obs, r)
            && (w.sourceKind.Web? ==> ConsoleIsNewest(obs, r))
            && (IsWebPage(w) ==> PageIsLast(w, obs, r))
  {
    RecordIsItsReports(events, id);
    var w, obs := OpenedAs(events, id).value, ReportsOf(events, id);
    FieldsAreLast(w, obs);
    OpenedFresh(events, id);
    if w.sourceKind.Web? {
      ConsoleKept(w, obs);
    }
    if IsWebPage(w) {
      PageKept(w, obs);
    }
    hide ObserveAll, Run, UrlIsLast, LoadIsLast;
  }

  lemma {:induction false} OpenedFresh(events: seq<Event>, id: string)
    requires HostRun(events) && OpenedAs(events, id).Some?
    ensures var w := OpenedAs(events, id).value;
            w.console == ConsoleBuffer([], false) && (w.page.loadError.Some? <==> w.page.loadState.Failed?)
  {
    if !(events[|events| - 1].Opened? && events[|events| - 1].window.windowSessionId == id) {
      OpenedFresh(events[..|events| - 1], id);
    } else {
      assert IsFresh(events[|events| - 1].window);
    }
  }

  /** An empty console report clears the flag though older entries are gone. */
  lemma {:induction false} EmptyReportClearsFlag(w: ActiveWindow, entries: seq<ConsoleEntry>)
    requires w.sourceKind.Web? && w.console == ConsoleBuffer([], false) && |entries| > 50
    ensures var full := ObserveAll(w, [ConsoleEntries(entries, false)]);
            var cleared := ObserveAll(w, [ConsoleEntries(entries, false), ConsoleEntries([], false)]);
            full.console.truncated && !cleared.console.truncated && cleared.console.errors == entries[|entries| - 50..]
  {
    var a, b := ConsoleEntries(entries, false), ConsoleEntries([], false);
    assert [a, b][..1] == [a] && [a][..0] == [];
    ConsoleKept(w, [a]);
    ConsoleKept(w, [a, b]);
    assert [] + entries + [] == entries && [] + entries == entries;
  }

  // ---- the focus ----

  /** The window that holds the focus after the run: the last one focused, until it is unfocused, removed or opened
      anew. */
  function FocusHolder(events: seq<Event>): Option<string> {
    if events == [] then None
    else
      var before := events[..|events| - 1];
      var holder := FocusHolder(before);
      match events[|events| - 1]
      case Focus(id, focused) =>
        if id !in Run(before).windows then holder
        else if focused then Some(id)
        else if holder == Some(id) then None else holder
      case Opened(w) => if holder == Some(w.windowSessionId) then None else holder
      case Removed(id) => if holder == Some(id) then None else holder
      case Observed(_, _) => holder
  }

  lemma FocusStep(s: State, e: Event, k: string)
    requires HostEvent(e) && k in Step(s, e).windows
    ensures Step(s, e).windows[k].window.isFocused
            <==> match e
                 case Focus(id, focused) =>
                   if id !in s.windows then s.windows[k].window.isFocused
                   else if focused then k == id
                   else k != id && s.windows[k].window.isFocused
                 case Opened(w) => k != w.windowSessionId && s.windows[k].window.isFocused
                 case Removed(_) => s.windows[k].window.isFocused
                 case Observed(_, _) => s.windows[k].window.isFocused
  {
  }

  /** A record is marked focused exactly when its window holds the focus. */
  lemma {:induction false} FocusedIsHolder(events: seq<Event>, id: string)
    requires HostRun(events) && id in Run(events).windows
    ensures Run(events).windows[id].window.isFocused <==> FocusHolder(events) == Some(id)
  {
    var before, e := events[..|events| - 1], events[|events| - 1];
    FocusStep(Run(before), e, id);
    hide Step;
    if id in Run(before).windows {
      FocusedIsHolder(before, id);
    }
    HolderIsThere(before);
    StepKeys(Run(before), e, id);
  }

  lemma StepKeys(s: State, e: Event, k: string)
    ensures k in Step(s, e).windows <==> if e.Opened? && e.window.windowSessionId == k then true
                                         else k in s.windows && e != Removed(k)
  {
    hide Observe;
  }

  lemma {:induction false} HolderIsThere(events: seq<Event>)
    ensures FocusHolder(events).Some? ==> FocusHolder(events).value in Run(events).windows
  {
    if events != [] {
      var before, e := events[..|events| - 1], events[|events| - 1];
      HolderIsThere(before);
      if FocusHolder(events).Some? {
        StepKeys(Run(before), e, FocusHolder(events).value);
      }
      hide Step;
    }
  }
}
