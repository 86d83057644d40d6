/** Declarative layouts: exporting the registry and applying a specification to it.

    Everything native is an oracle. `Native` holds the answers one applied entry gets; any of them may
    be a failure. `order` enumerates the registry's keys in list order. */
module Layout {
  import opened Wrappers
  import opened Protocol
  import opened Text
  import opened Windows
  import opened Registry
  import opened Targets

  datatype Whereabouts = Whereabouts(index: Option<nat>, all: bool)

  datatype Native = Native(
    ok: nat -> bool,                         // the k-th native call of a resize succeeds
    workspaces: set<nat>,                    // indices in the workspace catalog
    named: string -> Option<nat>,            // exact, unambiguous workspace name
    persisted: bool,                         // the history sync of a tag succeeds
    media: Option<MediaState>,               // the media control's report
    inserted: Option<ActiveWindow>,          // the window an open inserts
    closed: bool)                            // the native window is destroyed

  datatype ApplyResult = ApplyResult(created: seq<string>, updated: seq<string>, closed: seq<string>,
                                     untouched: seq<string>)

  type Query = string -> Option<Whereabouts>

  // ---- listing ----

  /** `refresh_all_workspaces`: asks where each window is; stops at the first failure. */
  function Refresh(s: State, order: seq<string>, query: Query): (State, bool)
    decreases |order|
  {
    if order == [] then (s, true)
    else
      var id := order[0];
      if query(id).None? || id !in s.windows then (s, false)
      else
        var o := Placement(query(id).value.index, query(id).value.all);
        if Rejected(s.windows[id].window, o) then (s, false)
        else Refresh(Step(s, Observed(id, o)), order[1..], query)
  }

  function Listed(s: State, order: seq<string>): (r: seq<ActiveWindow>)
    requires forall i :: 0 <= i < |order| ==> order[i] in s.windows
    ensures |r| == |order| && forall i :: 0 <= i < |r| ==> r[i] == s.windows[order[i]].window
  {
    seq(|order|, i requires 0 <= i < |order| => s.windows[order[i]].window)
  }

  // ---- export ----

  function ExportState(g: Geometry): WindowStateAction {
    if g.isMaximized then Maximize else if g.isMinimized then Minimize else Restore
  }

  function ExportWindow(w: ActiveWindow): WindowSpec {
    var source := match w.sourceKind
                  case Web => WebSource(Or(w.page.currentUrl, w.requestedSource))
                  case LocalMedia => LocalMediaSource(w.requestedSource);
    var g := w.geometry;
    var workspace := if w.desk.workspace.Some? then Some(Index(w.desk.workspace.value)) else None;
    WindowSpec(Some(w.windowSessionId), source, w.description, w.profile,
               Some(WindowGeometrySpec(Some(g.width), Some(g.height), Some(g.x), Some(g.y), Some(ExportState(g)),
                                       Some(g.isAlwaysOnTop), workspace)),
               None)
  }

  function Export(windows: seq<ActiveWindow>): (specs: seq<WindowSpec>)
    ensures |specs| == |windows| && forall i :: 0 <= i < |specs| ==> specs[i] == ExportWindow(windows[i])
  {
    seq(|windows|, i requires 0 <= i < |windows| => ExportWindow(windows[i]))
  }

  // ---- resizing one window ----

  /** A native call and, once it succeeded, what the registry records. */
  datatype Effect = Effect(call: nat, observation: Option<Observation>)

  const NO_RESIZE := ResizeSpec(None, None, None, None, None, None)

  function ResolveWorkspace(target: WorkspaceTarget, n: Native): Option<nat> {
    match target
    case Index(i) => if i < 64 && i in n.workspaces then Some(i) else None
    case Name(name) => n.named(name)
  }

  function StateEffects(state: WindowStateAction): seq<Effect> {
    if state.Restore?
    then [Effect(3, None), Effect(4, Some(SetMaximized(false))), Effect(5, Some(SetMinimized(false)))]
    else [Effect(3, Some(Resize(NO_RESIZE.(state := Some(state)))))]
  }

  /** A rejected record or a failed call ends the resize where it stands. */
  function RunEffects(s: State, id: string, effects: seq<Effect>, n: Native): (State, bool)
    decreases |effects|
  {
    if effects == [] then (s, true)
    else
      var e := effects[0];
      if !n.ok(e.call) || id !in s.windows then (s, false)
      else if e.observation.None? then RunEffects(s, id, effects[1..], n)
      else if Rejected(s.windows[id].window, e.observation.value) then (s, false)
      else RunEffects(Step(s, Observed(id, e.observation.value)), id, effects[1..], n)
  }

  /** The calls of `resize`, in order; `workspace` is the resolved index to move to. */
  function ResizeEffects(g: WindowGeometrySpec, workspace: Option<nat>): seq<Effect> {
    [Effect(0, None)]
    + (if g.width.Some? || g.height.Some?
       then [Effect(1, Some(Resize(NO_RESIZE.(width := g.width, height := g.height))))] else [])
    + (if g.x.Some? || g.y.Some? then [Effect(2, Some(Resize(NO_RESIZE.(x := g.x, y := g.y))))] else [])
    + (if g.state.Some? then StateEffects(g.state.value) else [])
    + (if workspace.Some? then [Effect(6, Some(Placement(workspace, false))), Effect(7, None)] else [])
    + (if g.alwaysOnTop.Some?
       then [Effect(8, Some(Resize(NO_RESIZE.(alwaysOnTop := g.alwaysOnTop))))] else [])
  }

  function Resized(s: State, id: string, g: WindowGeometrySpec, n: Native): (State, bool) {
    var workspace := if g.workspace.Some? then ResolveWorkspace(g.workspace.value, n) else None;
    if !ValidResize(NO_RESIZE.(width := g.width, height := g.height)) then (s, false)
    else if g.workspace.Some? && workspace.None? then (s, false)
    else RunEffects(s, id, ResizeEffects(g, workspace), n)
  }

  // ---- tagging ----

  function ValidateDescription(description: string): Result<Option<string>, CoreError> {
    var trimmed := Trimmed(description);
    if trimmed == [] then Ok(None)
    else if |trimmed| > MAX_DESCRIPTION_CHARS then Err(Validation)
    else Ok(Some(trimmed))
  }

  /** `tag`: a failed history sync restores the previous description. */
  function Tagged(s: State, id: string, description: string, n: Native): State {
    if id !in s.windows || ValidateDescription(description).Err? || !n.persisted then s
    else Step(s, Observed(id, Describe(ValidateDescription(description).value)))
  }

  // ---- applying ----

  predicate MatchesSource(w: ActiveWindow, source: OpenSource) {
    match source
    case WebSource(url) => w.sourceKind.Web? && (w.requestedSource == url || w.page.currentUrl == Some(url))
    case LocalMediaSource(path) => w.sourceKind.LocalMedia? && w.requestedSource == path
  }

  predicate Matches(w: ActiveWindow, spec: WindowSpec) {
    || (spec.name.Some? && (w.description == spec.name || w.windowSessionId == spec.name.value))
    || MatchesSource(w, spec.source)
  }

  /** `iter().find`: the first listed window that matches. */
  function FirstMatch(current: seq<ActiveWindow>, spec: WindowSpec): (r: Option<nat>)
    ensures r.Some? ==> r.value < |current| && Matches(current[r.value], spec)
                        && forall i :: 0 <= i < r.value ==> !Matches(current[i], spec)
    ensures r.None? ==> forall i :: 0 <= i < |current| ==> !Matches(current[i], spec)
  {
    if current == [] then None
    else if Matches(current[0], spec) then Some(0)
    else match FirstMatch(current[1..], spec)
      case None => assert forall i :: 1 <= i < |current| ==> current[i] == current[1..][i - 1]; None
      case Some(i) => assert forall k :: 1 <= k <= i ==> current[k] == current[1..][k - 1]; Some(i + 1)
  }

  predicate Differs<T(==)>(wanted: Option<T>, actual: T) {
    wanted.Some? && wanted.value != actual
  }

  predicate StateDiffers(state: Option<WindowStateAction>, g: Geometry) {
    match state
    case None => false
    case Some(Maximize) => !g.isMaximized
    case Some(Minimize) => !g.isMinimized
    case Some(_) => g.isMaximized || g.isMinimized
  }

  predicate GeometryChanged(g: Geometry, wanted: WindowGeometrySpec) {
    || Differs(wanted.width, g.width) || Differs(wanted.height, g.height)
    || Differs(wanted.x, g.x) || Differs(wanted.y, g.y)
    || Differs(wanted.alwaysOnTop, g.isAlwaysOnTop)
    || StateDiffers(wanted.state, g)
  }

  /** One entry that matched the listed window `w`: the registry afterwards and whether it counts as updated. */
  function Reconciled(s: State, w: ActiveWindow, spec: WindowSpec, n: Native): (State, bool) {
    var id := w.windowSessionId;
    var retag := spec.description.Some? && w.description != spec.description;
    var s1 := if retag then Tagged(s, id, spec.description.value, n) else s;
    var s2 := if spec.geometry.Some? then Resized(s1, id, spec.geometry.value, n).0 else s1;
    var s3 := if spec.media.Some? && n.media.Some? && id in s2.windows
              then Step(s2, Observed(id, MediaReport(n.media.value))) else s2;
    (s3, retag || (spec.geometry.Some? && GeometryChanged(w.geometry, spec.geometry.value)) || spec.media.Some?)
  }

  /** The loop over the entries: registry, result so far, matched ids; `false` when an open failed. */
  datatype Progress = Progress(state: State, result: ApplyResult, matched: set<string>, ok: bool)

  function ApplyEntry(p: Progress, current: seq<ActiveWindow>, spec: WindowSpec, n: Native): Progress {
    match FirstMatch(current, spec)
    case Some(i) =>
      var id := current[i].windowSessionId;
      var (s, updated) := Reconciled(p.state, current[i], spec, n);
      Progress(s, if updated then p.result.(updated := p.result.updated + [id])
                  else p.result.(untouched := p.result.untouched + [id]), p.matched + {id}, true)
    case None =>
      if n.inserted.None? then p.(ok := false)
      else
        var w := n.inserted.value;
        var shown := Step(Step(p.state, Opened(w)), Focus(w.windowSessionId, true));
        var s := if spec.media.Some? && n.media.Some?
                 then Step(shown, Observed(w.windowSessionId, MediaReport(n.media.value))) else shown;
        Progress(s, p.result.(created := p.result.created + [w.windowSessionId]), p.matched + {w.windowSessionId}, true)
  }

  const NOTHING := ApplyResult([], [], [], [])

  function ApplyEntries(s: State, current: seq<ActiveWindow>, specs: seq<WindowSpec>, env: nat -> Native): Progress {
    if specs == [] then Progress(s, NOTHING, {}, true)
    else
      var last := |specs| - 1;
      var p := ApplyEntries(s, current, specs[..last], env);
      if p.ok then ApplyEntry(p, current, specs[last], env(last)) else p
  }

  /** The pruning loop: closes the listed windows nothing matched. */
  function Pruned(s: State, current: seq<ActiveWindow>, matched: set<string>, env: nat -> Native)
    : (State, seq<string>)
  {
    if current == [] then (s, [])
    else
      var last := |current| - 1;
      var (s1, closed) := Pruned(s, current[..last], matched, env);
      var id := current[last].windowSessionId;
      if id !in matched && id in s1.windows && env(last).closed then (Step(s1, Removed(id)), closed + [id])
      else (s1, closed)
  }

  /** `apply_spec` with every answer given: `None` when listing or opening failed. */
  function Applied(s: State, order: seq<string>, query: Query, specs: seq<WindowSpec>, prune: bool,
                   env: nat -> Native, closes: nat -> Native): (State, Option<ApplyResult>)
    requires Enumerates(order, s.windows.Keys)
  {
    var (s0, listed) := Refresh(s, order, query);
    RefreshKeepsKeys(s, order, query);
    if !listed then (s0, None)
    else
      var current := Listed(s0, order);
      var p := ApplyEntries(s0, current, specs, env);
      if !p.ok then (p.state, None)
      else if !prune then (p.state, Some(p.result))
      else
        var (s1, closed) := Pruned(p.state, current, p.matched, closes);
        (s1, Some(p.result.(closed := closed)))
  }

  lemma {:induction false} RefreshKeepsKeys(s: State, order: seq<string>, query: Query)
    ensures Refresh(s, order, query).0.windows.Keys == s.windows.Keys
    decreases |order|
  {
    if order != [] {
      var id := order[0];
      if query(id).Some? && id in s.windows {
        var o := Placement(query(id).value.index, query(id).value.all);
        RefreshKeepsKeys(Step(s, Observed(id, o)), order[1..], query);
      }
    }
  }
}
