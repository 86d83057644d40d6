/** One registry record: how a freshly opened window looks and how each observation changes it. */
module Windows {
  import opened Wrappers
  import opened Protocol
  import opened Text
  import opened BoundedLog

  const URL_LIMITS := Limits(MAX_URL_HISTORY_ENTRIES, MAX_URL_HISTORY_BYTES)
  const WORKSPACE_LIMITS := Limits(MAX_WORKSPACE_HISTORY_ENTRIES, 0)

  /** Workspace histories are bounded by count only. */
  function NoSize(index: nat): nat { 0 }

  lemma {:induction false} NoTotalSize(s: seq<nat>)
    ensures TotalSize(s, NoSize) == 0
  {
    if s != [] {
      NoTotalSize(s[1..]);
    }
  }

  /** With a count bound alone the longest fitting suffix is the last 128 entries. */
  lemma {:induction false} WorkspaceTrimIsLast128(log: seq<nat>)
    ensures Trim(log, WORKSPACE_LIMITS, NoSize) == if |log| <= 128 then log else log[|log| - 128..]
  {
    hide TotalSize;
    NoTotalSize(log);
    if |log| > 128 {
      WorkspaceTrimIsLast128(log[1..]);
    }
  }

  datatype ResizeSpec = ResizeSpec(
    width: Option<nat>, height: Option<nat>, x: Option<int>, y: Option<int>,
    state: Option<WindowStateAction>, alwaysOnTop: Option<bool>)

  datatype CoreError = Validation | TargetNotFound(target: string) | TargetAmbiguous(target: string)

  /** What can be reported about one window. */
  datatype Observation =
    | ObservedUrl(url: string)
    | PageStarted(url: string)
    | PageFinished(url: string)
    | PageFailed(url: string, error: string)
    | Title(title: string)
    | Authenticated(authenticated: Option<bool>)
    | ConsoleEntries(entries: seq<ConsoleEntry>, sourceTruncated: bool)
    | MediaReport(media: MediaState)
    | Describe(description: Option<string>)
    | SetMaximized(value: bool)
    | SetMinimized(value: bool)
    | Resize(spec: ResizeSpec)
    | Placement(index: Option<nat>, all: bool)

  function Blank(id: string, source: SourceKind, content: ContentKind, requested: string,
                 description: Option<string>, profile: Option<string>, page: Page): ActiveWindow
  {
    ActiveWindow(id, source, content, requested, None, description, profile, None, None, false, page,
                 ConsoleBuffer([], false), Geometry(1024, 768, 0, 0, false, false, false), Desk(None, false, [], false))
  }

  function OpenedWeb(id: string, url: string, description: Option<string>, profile: Option<string>): ActiveWindow {
    Blank(id, Web, WebContent, url, description, profile,
          Page(Some(url), Some([url]), Some(false), "Portus Window", Started, None))
  }

  function OpenedWebVideo(id: string, url: string, rendered: string, description: Option<string>,
                          profile: Option<string>): ActiveWindow
  {
    Blank(id, Web, Video, url, description, profile, Page(Some(url), None, None, "YouTube Video", Started, None))
    .(renderedUrl := Some(rendered))
  }

  function OpenedMedia(id: string, path: string, content: ContentKind, title: string, description: Option<string>,
                       profile: Option<string>): ActiveWindow
  {
    Blank(id, LocalMedia, content, path, description, profile, Page(None, None, None, title, Loaded, None))
    .(mediaState := if content.Video? || content.Audio?
                    then Some(MediaState(false, false, false, None, None, None, None)) else None)
  }

  /** The three shapes `insert_opened_web`, `insert_opened_web_video` and `insert_opened_media` insert. */
  predicate IsFresh(w: ActiveWindow) {
    || w == OpenedWeb(w.windowSessionId, w.requestedSource, w.description, w.profile)
    || (w.renderedUrl.Some?
        && w == OpenedWebVideo(w.windowSessionId, w.requestedSource, w.renderedUrl.value, w.description, w.profile))
    || w == OpenedMedia(w.windowSessionId, w.requestedSource, w.contentKind, w.page.title, w.description, w.profile)
  }

  predicate IsWebPage(w: ActiveWindow) {
    w.sourceKind.Web? && w.contentKind.WebContent?
  }

  predicate ValidResize(spec: ResizeSpec) {
    && (spec.width.Some? ==> 1 <= spec.width.value <= 16_384)
    && (spec.height.Some? ==> 1 <= spec.height.value <= 16_384)
  }

  function Or<T>(o: Option<T>, default: T): T {
    if o.Some? then o.value else default
  }

  function ResizeGeometry(g: Geometry, spec: ResizeSpec): Geometry {
    Geometry(Or(spec.width, g.width), Or(spec.height, g.height), Or(spec.x, g.x), Or(spec.y, g.y),
             if spec.state.Some? then spec.state.value.Maximize? else g.isMaximized,
             if spec.state.Some? then spec.state.value.Minimize? else g.isMinimized,
             Or(spec.alwaysOnTop, g.isAlwaysOnTop))
  }

  function Place(d: Desk, index: Option<nat>, all: bool): Desk {
    var workspace := if all then None else index;
    if workspace.None? then d.(workspace := None, isOnAllWorkspaces := all)
    else
      var history := PushTrim(d.history, workspace.value, WORKSPACE_LIMITS, NoSize);
      Desk(workspace, all, history, d.historyTruncated || |history| < |Push(d.history, workspace.value)|)
  }

  /** The branch of `record_page_finished` that accepts the page. */
  predicate AcceptsFinish(w: ActiveWindow) {
    IsWebPage(w) && !w.page.loadState.Failed? && w.page.loadError.None?
  }

  function FinishPage(p: Page, url: string): Page {
    var url := TruncateChars(url, MAX_URL_CHARS);
    var before := Or(p.urlHistory, []);
    var history := PushTrim(before, url, URL_LIMITS, Utf8Len);
    Page(Some(url), Some(history),
         if |history| < |Push(before, url)| then Some(true) else p.urlHistoryTruncated,
         p.title, Loaded, None)
  }

  function AppendConsole(c: ConsoleBuffer, entries: seq<ConsoleEntry>, sourceTruncated: bool): ConsoleBuffer {
    var all := c.errors + entries;
    if |all| > MAX_CONSOLE_ENTRIES
    then ConsoleBuffer(all[|all| - MAX_CONSOLE_ENTRIES..], true)
    else ConsoleBuffer(all, sourceTruncated)
  }

  /** Observations answered with an error before the window is looked up. */
  predicate Malformed(o: Observation) {
    (o.Resize? && !ValidResize(o.spec)) || (o.Placement? && o.index.Some? && o.index.value > 255)
  }

  /** Observations a method answers with an error instead of recording. */
  predicate Rejected(w: ActiveWindow, o: Observation) {
    Malformed(o) || (o.MediaReport? && !(w.sourceKind.LocalMedia? && (w.contentKind.Audio? || w.contentKind.Video?)))
  }

  function ObservePage(w: ActiveWindow, o: Observation): Page {
    var p := w.page;
    match o
    case ObservedUrl(url) => if IsWebPage(w) then p.(currentUrl := Some(TruncateChars(url, MAX_URL_CHARS))) else p
    case PageStarted(url) =>
      if IsWebPage(w) && !(p.loadState.Failed? && p.currentUrl == Some(url))
      then p.(loadState := Started, loadError := None, currentUrl := Some(TruncateChars(url, MAX_URL_CHARS)))
      else p
    case PageFinished(url) => if AcceptsFinish(w) then FinishPage(p, url) else p
    case PageFailed(url, error) =>
      if w.sourceKind.Web?
      then p.(loadState := Failed, loadError := Some(TruncateChars(error, MAX_LOAD_ERROR_CHARS)),
              currentUrl := Some(TruncateChars(url, MAX_URL_CHARS)))
      else p
    case Title(title) => if w.sourceKind.Web? then p.(title := TruncateChars(title, MAX_TITLE_CHARS)) else p
    case _ => p
  }

  /** The record after an observation. */
  function Observe(w: ActiveWindow, o: Observation): ActiveWindow {
    if Rejected(w, o) then w else
    match o
    case Authenticated(a) => if w.sourceKind.Web? then w.(authenticated := a) else w
    case ConsoleEntries(entries, truncated) =>
      if w.sourceKind.Web? then w.(console := AppendConsole(w.console, entries, truncated)) else w
    case MediaReport(media) => w.(mediaState := Some(media))
    case Describe(description) => w.(description := description)
    case SetMaximized(value) => w.(geometry := w.geometry.(isMaximized := value))
    case SetMinimized(value) => w.(geometry := w.geometry.(isMinimized := value))
    case Resize(spec) => w.(geometry := ResizeGeometry(w.geometry, spec))
    case Placement(index, all) => w.(desk := Place(w.desk, index, all))
    case _ => w.(page := ObservePage(w, o))
  }

  ghost predicate GeometryInv(g: Geometry) {
    1 <= g.width <= 16_384 && 1 <= g.height <= 16_384 && !(g.isMaximized && g.isMinimized)
  }

  ghost predicate DeskInv(d: Desk) {
    d.workspace.Some? ==>
      && !d.isOnAllWorkspaces
      && d.workspace.value <= 255
      && d.history != []
      && d.history[|d.history| - 1] == d.workspace.value
  }

  /** What holds of every record in every reachable registry. */
  ghost predicate WindowInv(w: ActiveWindow) {
    && (w.page.loadError.Some? <==> w.page.loadState.Failed?)
    && GeometryInv(w.geometry)
    && DeskInv(w.desk)
    && |w.console.errors| <= MAX_CONSOLE_ENTRIES
    && (w.page.currentUrl.Some? ==>
          w.page.currentUrl.value == w.requestedSource || Utf8Len(w.page.currentUrl.value) <= 4 * MAX_URL_CHARS)
  }

  /** `set_maximized` and `set_minimized` are only ever called with false. */
  ghost predicate HostObservation(o: Observation) {
    !(o == SetMaximized(true) || o == SetMinimized(true))
  }

  lemma PlaceKeepsInv(d: Desk, index: Option<nat>, all: bool)
    requires DeskInv(d) && (index.Some? ==> index.value <= 255)
    ensures DeskInv(Place(d, index, all))
  {
    if !all && index.Some? {
      PushTrimRepeats(d.history, index.value, WORKSPACE_LIMITS, NoSize);
    }
  }

  lemma ObserveKeepsInv(w: ActiveWindow, o: Observation)
    requires WindowInv(w) && HostObservation(o)
    ensures WindowInv(Observe(w, o))
    ensures Observe(w, o).windowSessionId == w.windowSessionId && Observe(w, o).isFocused == w.isFocused
    ensures Observe(w, o).requestedSource == w.requestedSource
    ensures Observe(w, o).sourceKind == w.sourceKind && Observe(w, o).contentKind == w.contentKind
  {
    if o.Placement? && !Rejected(w, o) {
      PlaceKeepsInv(w.desk, o.index, o.all);
    }
    hide Place, PushTrim, Push, Utf8Len, TruncateChars;
  }

  lemma FreshInv(w: ActiveWindow)
    requires IsFresh(w)
    ensures WindowInv(w) && !w.isFocused
  {
  }

  /** A placement that is reported twice is recorded once. */
  lemma PlaceIdempotent(d: Desk, index: Option<nat>, all: bool)
    ensures Place(Place(d, index, all), index, all) == Place(d, index, all)
  {
    if !all && index.Some? {
      PushTrimRepeats(d.history, index.value, WORKSPACE_LIMITS, NoSize);
    }
  }
}
