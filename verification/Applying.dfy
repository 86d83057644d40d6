/** What applying a layout does to the windows it names, when the native side does as it is told. */
module Applying {
  import opened Wrappers
  import opened Protocol
  import opened Text
  import opened BoundedLog
  import opened Windows
  import opened Registry
  import opened Targets
  import opened Layout
  import opened RoundTrip

  // ---- one resize ----

  /** The record of one window after these effects, none failing. */
  function RunOn(w: ActiveWindow, effects: seq<Effect>): ActiveWindow
    decreases |effects|
  {
    if effects == [] then w
    else RunOn(if effects[0].observation.Some? then Observe(w, effects[0].observation.value) else w, effects[1..])
  }

  ghost predicate Acceptable(effects: seq<Effect>) {
    forall i :: 0 <= i < |effects| && effects[i].observation.Some? ==>
      !Malformed(effects[i].observation.value) && !effects[i].observation.value.MediaReport?
  }

  function WithWindow(s: State, id: string, w: ActiveWindow): State
    requires id in s.windows
  {
    s.(windows := s.windows[id := s.windows[id].(window := w)])
  }

  lemma {:induction false} EffectsRun(s: State, id: string, effects: seq<Effect>, n: Native)
    requires id in s.windows && Acceptable(effects) && forall k :: n.ok(k)
    ensures RunEffects(s, id, effects, n) == (WithWindow(s, id, RunOn(s.windows[id].window, effects)), true)
    decreases |effects|
  {
    hide Observe;
    if effects == [] {
      assert WithWindow(s, id, s.windows[id].window).windows == s.windows;
    } else if effects[0].observation.Some? {
      var s1 := Step(s, Observed(id, effects[0].observation.value));
      EffectsRun(s1, id, effects[1..], n);
      var w := RunOn(s1.windows[id].window, effects[1..]);
      assert WithWindow(s1, id, w).windows == WithWindow(s, id, w).windows;
    } else {
      EffectsRun(s, id, effects[1..], n);
    }
  }

  /** The first call that fails ends the resize, with what the calls before it recorded. */
  lemma {:induction false} EffectsStop(s: State, id: string, effects: seq<Effect>, n: Native, m: nat)
    requires id in s.windows && Acceptable(effects) && m < |effects| && !n.ok(effects[m].call)
    requires forall i :: 0 <= i < m ==> n.ok(effects[i].call)
    ensures RunEffects(s, id, effects, n) == (WithWindow(s, id, RunOn(s.windows[id].window, effects[..m])), false)
    decreases |effects|
  {
    hide Observe;
    if m == 0 {
      assert WithWindow(s, id, s.windows[id].window).windows == s.windows;
    } else {
      assert n.ok(effects[0].call);
      assert effects[..m][0] == effects[0] && effects[..m][1..] == effects[1..][..m - 1];
      if effects[0].observation.Some? {
        var s1 := Step(s, Observed(id, effects[0].observation.value));
        EffectsStop(s1, id, effects[1..], n, m - 1);
        var w := RunOn(s1.windows[id].window, effects[1..][..m - 1]);
        assert WithWindow(s1, id, w).windows == WithWindow(s, id, w).windows;
      } else {
        EffectsStop(s, id, effects[1..], n, m - 1);
      }
    }
  }

  lemma {:induction false} RunOnPlus(w: ActiveWindow, a: seq<Effect>, b: seq<Effect>)
    ensures RunOn(w, a + b) == RunOn(RunOn(w, a), b)
    decreases |a|
  {
    hide Observe;
    if a == [] {
      assert a + b == b;
    } else {
      assert (a + b)[0] == a[0] && (a + b)[1..] == a[1..] + b;
      RunOnPlus(if a[0].observation.Some? then Observe(w, a[0].observation.value) else w, a[1..], b);
    }
  }

  lemma RunOnOne(w: ActiveWindow, e: Effect)
    ensures RunOn(w, [e]) == if e.observation.Some? then Observe(w, e.observation.value) else w
  {
    assert [e][1..] == [];
  }

  lemma AcceptablePlus(a: seq<Effect>, b: seq<Effect>)
    requires Acceptable(a) && Acceptable(b)
    ensures Acceptable(a + b)
  {
  }

  predicate StateIs(state: Option<WindowStateAction>, before: Geometry, after: Geometry) {
    match state
    case None => after.isMaximized == before.isMaximized && after.isMinimized == before.isMinimized
    case Some(Maximize) => after.isMaximized && !after.isMinimized
    case Some(Minimize) => after.isMinimized && !after.isMaximized
    case Some(_) => !after.isMaximized && !after.isMinimized
  }

  /** Each wanted value is the recorded one, and each unwanted one is unchanged. */
  predicate GeometryIs(g: WindowGeometrySpec, before: Geometry, after: Geometry) {
    && after.width == (if g.width.Some? then g.width.value else before.width)
    && after.height == (if g.height.Some? then g.height.value else before.height)
    && after.x == (if g.x.Some? then g.x.value else before.x)
    && after.y == (if g.y.Some? then g.y.value else before.y)
    && after.isAlwaysOnTop == (if g.alwaysOnTop.Some? then g.alwaysOnTop.value else before.isAlwaysOnTop)
    && StateIs(g.state, before, after)
  }

  /** The window is on the wanted workspace alone, and it is the newest of its history. */
  ghost predicate DeskIs(workspace: Option<nat>, before: Desk, after: Desk) {
    if workspace.None? then after == before
    else
      && after.workspace == workspace && !after.isOnAllWorkspaces
      && after.history != [] && after.history[|after.history| - 1] == workspace.value
  }

  ghost predicate ResizedAs(g: WindowGeometrySpec, workspace: Option<nat>, w: ActiveWindow, r: ActiveWindow) {
    && GeometryIs(g, w.geometry, r.geometry) && DeskIs(workspace, w.desk, r.desk)
    && r == w.(geometry := r.geometry, desk := r.desk)
  }

  const NO_GEOMETRY := WindowGeometrySpec(None, None, None, None, None, None, None)

  function SizePart(g: WindowGeometrySpec): seq<Effect> {
    [Effect(0, None)]
    + (if g.width.Some? || g.height.Some?
       then [Effect(1, Some(Resize(NO_RESIZE.(width := g.width, height := g.height))))] else [])
  }

  function PositionPart(g: WindowGeometrySpec): seq<Effect> {
    if g.x.Some? || g.y.Some? then [Effect(2, Some(Resize(NO_RESIZE.(x := g.x, y := g.y))))] else []
  }

  function StatePart(g: WindowGeometrySpec): seq<Effect> {
    if g.state.Some? then StateEffects(g.state.value) else []
  }

  function WorkspacePart(workspace: Option<nat>): seq<Effect> {
    if workspace.Some? then [Effect(6, Some(Placement(workspace, false))), Effect(7, None)] else []
  }

  function TopPart(g: WindowGeometrySpec): seq<Effect> {
    if g.alwaysOnTop.Some? then [Effect(8, Some(Resize(NO_RESIZE.(alwaysOnTop := g.alwaysOnTop))))] else []
  }

  lemma SizeRuns(w: ActiveWindow, g: WindowGeometrySpec)
    requires ValidResize(NO_RESIZE.(width := g.width, height := g.height))
    ensures Acceptable(SizePart(g))
    ensures ResizedAs(NO_GEOMETRY.(width := g.width, height := g.height), None, w, RunOn(w, SizePart(g)))
  {
    var e := Effect(1, Some(Resize(NO_RESIZE.(width := g.width, height := g.height))));
    RunOnPlus(w, [Effect(0, None)], if g.width.Some? || g.height.Some? then [e] else []);
    RunOnOne(w, Effect(0, None));
    RunOnOne(w, e);
  }

  lemma PositionRuns(w: ActiveWindow, g: WindowGeometrySpec)
    ensures Acceptable(PositionPart(g))
    ensures ResizedAs(NO_GEOMETRY.(x := g.x, y := g.y), None, w, RunOn(w, PositionPart(g)))
  {
    RunOnOne(w, Effect(2, Some(Resize(NO_RESIZE.(x := g.x, y := g.y)))));
  }

  lemma {:induction false} RestoreRuns(w: ActiveWindow)
    ensures RunOn(w, StateEffects(Restore))
            == w.(geometry := w.geometry.(isMaximized := false, isMinimized := false))
  {
    var a, b := Effect(4, Some(SetMaximized(false))), Effect(5, Some(SetMinimized(false)));
    var w1 := w.(geometry := w.geometry.(isMaximized := false));
    assert StateEffects(Restore) == [Effect(3, None)] + ([a] + [b]);
    RunOnOne(w, Effect(3, None));
    RunOnOne(w, a);
    RunOnOne(w1, b);
    hide RunOn, StateEffects;
    RunOnPlus(w, [Effect(3, None)], [a] + [b]);
    RunOnPlus(w, [a], [b]);
  }

  lemma StateRuns(w: ActiveWindow, g: WindowGeometrySpec)
    ensures Acceptable(StatePart(g)) && ResizedAs(NO_GEOMETRY.(state := g.state), None, w, RunOn(w, StatePart(g)))
  {
    if g.state == Some(Restore) {
      RestoreRuns(w);
      hide RunOn;
    } else if g.state.Some? {
      RunOnOne(w, Effect(3, Some(Resize(NO_RESIZE.(state := g.state)))));
    }
  }

  lemma {:induction false} PlacedDesk(d: Desk, index: nat)
    ensures DeskIs(Some(index), d, Place(d, Some(index), false))
  {
    hide PushTrim, Push;
    PushTrimRepeats(d.history, index, WORKSPACE_LIMITS, NoSize);
  }

  lemma {:induction false} PlacedIs(w: ActiveWindow, index: nat)
    requires index <= 255
    ensures ResizedAs(NO_GEOMETRY, Some(index), w, Observe(w, Placement(Some(index), false)))
  {
    PlacedDesk(w.desk, index);
    hide DeskIs, Place;
  }

  lemma {:induction false} WorkspaceRuns(w: ActiveWindow, workspace: Option<nat>)
    requires workspace.Some? ==> workspace.value <= 255
    ensures Acceptable(WorkspacePart(workspace))
    ensures ResizedAs(NO_GEOMETRY, workspace, w, RunOn(w, WorkspacePart(workspace)))
  {
    hide Observe;
    if workspace.Some? {
      var a, b := Effect(6, Some(Placement(workspace, false))), Effect(7, None);
      RunOnOne(w, a);
      RunOnOne(Observe(w, Placement(workspace, false)), b);
      hide RunOn, ResizedAs;
      RunOnPlus(w, [a], [b]);
      assert [a, b] == [a] + [b];
      PlacedIs(w, workspace.value);
    }
  }

  lemma TopRuns(w: ActiveWindow, g: WindowGeometrySpec)
    ensures Acceptable(TopPart(g))
    ensures ResizedAs(NO_GEOMETRY.(alwaysOnTop := g.alwaysOnTop), None, w, RunOn(w, TopPart(g)))
  {
    RunOnOne(w, Effect(8, Some(Resize(NO_RESIZE.(alwaysOnTop := g.alwaysOnTop)))));
  }

  /** Five changes, each of its own part, are the whole one. */
  lemma ResizedTogether(g: WindowGeometrySpec, workspace: Option<nat>, w: ActiveWindow, w1: ActiveWindow,
                        w2: ActiveWindow, w3: ActiveWindow, w4: ActiveWindow, w5: ActiveWindow)
    requires ResizedAs(NO_GEOMETRY.(width := g.width, height := g.height), None, w, w1)
    requires ResizedAs(NO_GEOMETRY.(x := g.x, y := g.y), None, w1, w2)
    requires ResizedAs(NO_GEOMETRY.(state := g.state), None, w2, w3)
    requires ResizedAs(NO_GEOMETRY, workspace, w3, w4)
    requires ResizedAs(NO_GEOMETRY.(alwaysOnTop := g.alwaysOnTop), None, w4, w5)
    ensures ResizedAs(g, workspace, w, w5)
  {
  }

  /** The calls of a resize together record exactly what was wanted. */
  lemma {:induction false} ResizeRuns(w: ActiveWindow, g: WindowGeometrySpec, workspace: Option<nat>)
    requires ValidResize(NO_RESIZE.(width := g.width, height := g.height))
    requires workspace.Some? ==> workspace.value <= 255
    ensures Acceptable(ResizeEffects(g, workspace))
    ensures ResizedAs(g, workspace, w, RunOn(w, ResizeEffects(g, workspace)))
  {
    var a, b, c, d, e := SizePart(g), PositionPart(g), StatePart(g), WorkspacePart(workspace), TopPart(g);
    assert ResizeEffects(g, workspace) == a + b + c + d + e;
    hide SizePart, PositionPart, StatePart, WorkspacePart, TopPart;
    hide RunOn, Acceptable, ResizeEffects, ValidResize, ResizedAs;
    var w1 := RunOn(w, a);
    var w2 := RunOn(w1, b);
    var w3 := RunOn(w2, c);
    var w4 := RunOn(w3, d);
    SizeRuns(w, g);
    PositionRuns(w1, g);
    StateRuns(w2, g);
    WorkspaceRuns(w3, workspace);
    TopRuns(w4, g);
    RunOnPlus(w, a, b);
    RunOnPlus(w, a + b, c);
    RunOnPlus(w, a + b + c, d);
    RunOnPlus(w, a + b + c + d, e);
    AcceptablePlus(a, b);
    AcceptablePlus(a + b, c);
    AcceptablePlus(a + b + c, d);
    AcceptablePlus(a + b + c + d, e);
    ResizedTogether(g, workspace, w, w1, w2, w3, w4, RunOn(w4, e));
  }

  // ---- one matched entry ----

  /** The index the entry moves the window to. */
  function WantedWorkspace(spec: WindowSpec, n: Native): Option<nat> {
    if spec.geometry.Some? && spec.geometry.value.workspace.Some?
    then ResolveWorkspace(spec.geometry.value.workspace.value, n) else None
  }

  /** Every native call works, the wanted size is a size, the wanted workspace is there, and the wanted description is
      one unless the window has it already. */
  ghost predicate Works(w: ActiveWindow, spec: WindowSpec, n: Native) {
    && n.persisted && (forall k :: n.ok(k))
    && (spec.geometry.Some? ==>
          var g := spec.geometry.value;
          && (g.width.Some? ==> 1 <= g.width.value <= 16_384)
          && (g.height.Some? ==> 1 <= g.height.value <= 16_384)
          && (g.workspace.Some? ==> WantedWorkspace(spec, n).Some? && WantedWorkspace(spec, n).value <= 255))
    && (spec.description.Some? && spec.description != w.description ==>
          |Trimmed(spec.description.value)| <= MAX_DESCRIPTION_CHARS)
  }

  /** The wanted description without surrounding blanks, which is none if nothing is left. */
  function WantedDescription(spec: WindowSpec, before: Option<string>): Option<string> {
    if spec.description.None? || spec.description == before then before
    else if Trimmed(spec.description.value) == [] then None
    else Some(Trimmed(spec.description.value))
  }

  /** The media state the media control reported, if the entry has an action and the window plays media. */
  function WantedMedia(w: ActiveWindow, spec: WindowSpec, n: Native): Option<MediaState> {
    if spec.media.Some? && n.media.Some? && w.sourceKind.LocalMedia? && (w.contentKind.Audio? || w.contentKind.Video?)
    then n.media else w.mediaState
  }

  /** The window ends as the entry says, and is otherwise as it was; the focus may have moved on. */
  ghost predicate EndsAs(spec: WindowSpec, n: Native, w: ActiveWindow, r: ActiveWindow) {
    && GeometryIs(if spec.geometry.Some? then spec.geometry.value else NO_GEOMETRY, w.geometry, r.geometry)
    && DeskIs(WantedWorkspace(spec, n), w.desk, r.desk)
    && r.description == WantedDescription(spec, w.description)
    && r.mediaState == WantedMedia(w, spec, n)
    && r == w.(geometry := r.geometry, desk := r.desk, description := r.description, mediaState := r.mediaState,
               isFocused := r.isFocused)
  }

  lemma TagDoes(s: State, id: string, w: ActiveWindow, spec: WindowSpec, n: Native)
    requires id in s.windows && Works(w, spec, n) && s.windows[id].window.description == w.description
    requires spec.description.Some? && w.description != spec.description
    ensures var d := WantedDescription(spec, w.description);
            Tagged(s, id, spec.description.value, n) == WithWindow(s, id, s.windows[id].window.(description := d))
  {
    var d := WantedDescription(spec, w.description);
    assert ValidateDescription(spec.description.value) == Ok(d);
    hide Trimmed, ValidateDescription, WantedDescription;
    DescribeDoes(s.windows[id].window, d);
    hide Observe, FocusOn;
  }

  /** A tag that is not persisted, or whose text is too long, changes nothing. */
  lemma TagFails(s: State, id: string, description: string, n: Native)
    requires !n.persisted || |Trimmed(description)| > MAX_DESCRIPTION_CHARS
    ensures Tagged(s, id, description, n) == s
  {
  }

  lemma DescribeDoes(w: ActiveWindow, d: Option<string>)
    ensures Observe(w, Describe(d)) == w.(description := d)
  {
  }

  lemma {:induction false} ResizeDoes(s: State, id: string, spec: WindowSpec, n: Native)
    requires id in s.windows && Works(s.windows[id].window, spec, n) && spec.geometry.Some?
    ensures var s1 := Resized(s, id, spec.geometry.value, n).0;
            && id in s1.windows && s1 == WithWindow(s, id, s1.windows[id].window)
            && ResizedAs(spec.geometry.value, WantedWorkspace(spec, n), s.windows[id].window, s1.windows[id].window)
  {
    var g, workspace := spec.geometry.value, WantedWorkspace(spec, n);
    ResizeRuns(s.windows[id].window, g, workspace);
    EffectsRun(s, id, ResizeEffects(g, workspace), n);
    hide ResizeEffects, RunOn, RunEffects, ResizedAs, Acceptable, ResolveWorkspace;
  }

  lemma MediaDoes(s: State, id: string, spec: WindowSpec, n: Native)
    requires id in s.windows
    ensures var s1 := if spec.media.Some? && n.media.Some?
                      then Step(s, Observed(id, MediaReport(n.media.value))) else s;
            s1 == WithWindow(s, id, s.windows[id].window.(mediaState := WantedMedia(s.windows[id].window, spec, n)))
  {
    assert WithWindow(s, id, s.windows[id].window).windows == s.windows;
  }

  lemma WithWindowTwice(s: State, id: string, w: ActiveWindow, w1: ActiveWindow)
    requires id in s.windows
    ensures WithWindow(WithWindow(s, id, w), id, w1) == WithWindow(s, id, w1)
    ensures WithWindow(s, id, s.windows[id].window) == s
  {
    assert WithWindow(WithWindow(s, id, w), id, w1).windows == WithWindow(s, id, w1).windows;
    assert WithWindow(s, id, s.windows[id].window).windows == s.windows;
  }

  /** The record after the three parts of a matched entry. */
  lemma PartsMakeTheEntry(spec: WindowSpec, n: Native, w: ActiveWindow, w1: ActiveWindow, w2: ActiveWindow,
                          w3: ActiveWindow)
    requires w1 == w.(description := WantedDescription(spec, w.description))
    requires if spec.geometry.Some? then ResizedAs(spec.geometry.value, WantedWorkspace(spec, n), w1, w2) else w2 == w1
    requires w3 == w2.(mediaState := WantedMedia(w2, spec, n))
    ensures EndsAs(spec, n, w, w3)
  {
    hide WantedDescription;
  }

  /** A matched entry, when everything works, makes its window end as it says and leaves every other alone. */
  lemma {:induction false} ReconciledDoes(s: State, w: ActiveWindow, spec: WindowSpec, n: Native)
    requires var id := w.windowSessionId;
             id in s.windows && s.windows[id].window == w.(isFocused := s.windows[id].window.isFocused)
    requires Works(w, spec, n)
    ensures var id := w.windowSessionId;
            var s1 := Reconciled(s, w, spec, n).0;
            && id in s1.windows && s1 == WithWindow(s, id, s1.windows[id].window)
            && EndsAs(spec, n, w, s1.windows[id].window)
  {
    var id := w.windowSessionId;
    var retag := spec.description.Some? && w.description != spec.description;
    var s1 := if retag then Tagged(s, id, spec.description.value, n) else s;
    var w0 := s.windows[id].window;
    var w1 := w0.(description := WantedDescription(spec, w.description));
    if retag {
      TagDoes(s, id, w, spec, n);
    }
    WithWindowTwice(s, id, w1, w1);
    assert s1 == WithWindow(s, id, w1);
    hide Tagged, Resized, Observe, FocusOn;
    var s2 := if spec.geometry.Some? then Resized(s1, id, spec.geometry.value, n).0 else s1;
    if spec.geometry.Some? {
      ResizeDoes(s1, id, spec, n);
    }
    var w2 := s2.windows[id].window;
    WithWindowTwice(s, id, w1, w2);
    MediaDoes(s2, id, spec, n);
    var w3 := w2.(mediaState := WantedMedia(w2, spec, n));
    WithWindowTwice(s, id, w2, w3);
    hide ResizedAs, EndsAs;
    PartsMakeTheEntry(spec, n, w0, w1, w2, w3);
    hide Reconciled;
    EndsAsFocus(spec, n, w, w0, w3);
  }

  lemma EndsAsFocus(spec: WindowSpec, n: Native, w: ActiveWindow, w0: ActiveWindow, r: ActiveWindow)
    requires w0 == w.(isFocused := w0.isFocused) && EndsAs(spec, n, w0, r)
    ensures EndsAs(spec, n, w, r)
  {
  }

  /** The entry has a media action, or its description, size, position, state or topmost flag is not the window's. Its
      workspace does not matter. */
  predicate Updates(w: ActiveWindow, spec: WindowSpec) {
    || spec.media.Some?
    || (spec.description.Some? && spec.description != w.description)
    || (spec.geometry.Some? && !GeometryIs(spec.geometry.value, w.geometry, w.geometry))
  }

  /** Which entries count as an update, whatever the native side answers. */
  lemma UpdatesIff(s: State, w: ActiveWindow, spec: WindowSpec, n: Native)
    requires GeometryInv(w.geometry)
    ensures Reconciled(s, w, spec, n).1 <==> Updates(w, spec)
  {
    hide Tagged, Resized, Step;
  }

  // ---- entries about other windows ----

  /** The same record, but for the focus. */
  ghost predicate SameRecord(r: WindowRecord, r1: WindowRecord) {
    r1 == r.(window := r.window.(isFocused := r1.window.isFocused))
  }

  lemma {:induction false} EffectsFrame(s: State, id: string, effects: seq<Effect>, n: Native, other: string)
    requires other in s.windows && other != id
    ensures var s1 := RunEffects(s, id, effects, n).0; other in s1.windows && s1.windows[other] == s.windows[other]
    decreases |effects|
  {
    hide Observe, FocusOn;
    if effects != [] && id in s.windows {
      if effects[0].observation.Some? {
        EffectsFrame(Step(s, Observed(id, effects[0].observation.value)), id, effects[1..], n, other);
      } else {
        EffectsFrame(s, id, effects[1..], n, other);
      }
    }
  }

  lemma {:induction false} ReconciledFrame(s: State, w: ActiveWindow, spec: WindowSpec, n: Native, other: string)
    requires other in s.windows && other != w.windowSessionId
    ensures var s1 := Reconciled(s, w, spec, n).0; other in s1.windows && s1.windows[other] == s.windows[other]
  {
    hide Observe, FocusOn, ValidateDescription, ResizeEffects, RunEffects, GeometryChanged, ResolveWorkspace;
    var id := w.windowSessionId;
    var s1 := if spec.description.Some? && w.description != spec.description
              then Tagged(s, id, spec.description.value, n) else s;
    if spec.geometry.Some? {
      var g := spec.geometry.value;
      var workspace := if g.workspace.Some? then ResolveWorkspace(g.workspace.value, n) else None;
      EffectsFrame(s1, id, ResizeEffects(g, workspace), n, other);
    }
  }

  /** The registry once an entry has opened a window. */
  function OpenedBy(s: State, w: ActiveWindow, spec: WindowSpec, n: Native): State {
    var shown := Step(Step(s, Opened(w)), Focus(w.windowSessionId, true));
    if spec.media.Some? && n.media.Some?
    then Step(shown, Observed(w.windowSessionId, MediaReport(n.media.value))) else shown
  }

  /** The opened window is there, focused and with the newest focus order; no other window is focused, and every other
      is otherwise as it was. */
  lemma OpensFocused(s: State, w: ActiveWindow, spec: WindowSpec, n: Native)
    ensures var s1, id := OpenedBy(s, w, spec, n), w.windowSessionId;
            && s1.windows.Keys == s.windows.Keys + {id}
            && s1.windows[id].window == w.(isFocused := true, mediaState := WantedMedia(w, spec, n))
            && s1.windows[id].focusOrder == s1.focusCounter == (s.focusCounter + 1) % U64
            && forall k :: k in s.windows && k != id ==>
                 SameRecord(s.windows[k], s1.windows[k]) && !s1.windows[k].window.isFocused
  {
    var s0 := FocusOn(Step(s, Opened(w)), w.windowSessionId);
    MediaDoes(s0, w.windowSessionId, spec, n);
  }

  /** The ids a result lists for windows that were there. */
  ghost predicate ListsAlike(r: ApplyResult, r1: ApplyResult, id: string) {
    && (id in r1.updated <==> id in r.updated) && (id in r1.untouched <==> id in r.untouched)
    && (id in r1.created <==> id in r.created)
  }

  /** An entry that finds another window, or opens a new one, leaves this one alone. */
  lemma {:induction false} EntryFrame(p: Progress, current: seq<ActiveWindow>, spec: WindowSpec, n: Native, i: nat)
    requires i < |current| && DistinctIds(current) && current[i].windowSessionId in p.state.windows && p.ok
    requires FirstMatch(current, spec) != Some(i)
    requires FirstMatch(current, spec).None? ==>
               n.inserted.Some? && n.inserted.value.windowSessionId != current[i].windowSessionId
    ensures var id, p1 := current[i].windowSessionId, ApplyEntry(p, current, spec, n);
            && p1.ok && id in p1.state.windows && SameRecord(p.state.windows[id], p1.state.windows[id])
            && ListsAlike(p.result, p1.result, id) && (id in p1.matched <==> id in p.matched)
  {
    var id := current[i].windowSessionId;
    hide Reconciled, Matches, Step;
    match FirstMatch(current, spec)
    case Some(k) =>
      ReconciledFrame(p.state, current[k], spec, n, id);
    case None =>
      OpensFocused(p.state, n.inserted.value, spec, n);
      assert ApplyEntry(p, current, spec, n).state == OpenedBy(p.state, n.inserted.value, spec, n);
      hide OpenedBy;
  }

  // ---- the entries ----

  /** Every entry that matches no listed window opens one, with an id that no listed window has. */
  ghost predicate OpensWork(current: seq<ActiveWindow>, specs: seq<WindowSpec>, env: nat -> Native) {
    forall k :: 0 <= k < |specs| && FirstMatch(current, specs[k]).None? ==>
      env(k).inserted.Some? && !IdOf(current, env(k).inserted.value.windowSessionId)
  }

  /** Which of the first `k` entries find listed window `i`: none of them. */
  ghost predicate UnnamedBy(current: seq<ActiveWindow>, specs: seq<WindowSpec>, k: nat, i: nat) {
    k <= |specs| && forall m :: 0 <= m < k ==> FirstMatch(current, specs[m]) != Some(i)
  }

  /** Entry `j` finds listed window `i`, and no other entry does. */
  ghost predicate NamedOnce(current: seq<ActiveWindow>, specs: seq<WindowSpec>, i: nat, j: nat) {
    && j < |specs| && FirstMatch(current, specs[j]) == Some(i)
    && forall m :: 0 <= m < |specs| && m != j ==> FirstMatch(current, specs[m]) != Some(i)
  }

  /** The progress after the first `k` entries. */
  function UpTo(s: State, current: seq<ActiveWindow>, specs: seq<WindowSpec>, k: nat, env: nat -> Native): Progress
    requires k <= |specs|
  {
    ApplyEntries(s, current, specs[..k], env)
  }

  lemma UpToNext(s: State, current: seq<ActiveWindow>, specs: seq<WindowSpec>, k: nat, env: nat -> Native)
    requires k < |specs| && UpTo(s, current, specs, k, env).ok
    ensures UpTo(s, current, specs, k + 1, env)
            == ApplyEntry(UpTo(s, current, specs, k, env), current, specs[k], env(k))
  {
    assert specs[..k + 1][..k] == specs[..k];
  }

  /** Window `i` has not been touched so far. */
  ghost predicate Waiting(s: State, current: seq<ActiveWindow>, i: nat, p: Progress)
    requires i < |current|
  {
    var id := current[i].windowSessionId;
    && p.ok && id in s.windows && id in p.state.windows && SameRecord(s.windows[id], p.state.windows[id])
    && ListsAlike(NOTHING, p.result, id) && id !in p.matched
  }

  lemma {:induction false} EntriesLeave(s: State, current: seq<ActiveWindow>, specs: seq<WindowSpec>,
                                        env: nat -> Native, i: nat, k: nat)
    requires i < |current| && DistinctIds(current) && current[i].windowSessionId in s.windows
    requires OpensWork(current, specs, env) && UnnamedBy(current, specs, k, i)
    ensures Waiting(s, current, i, UpTo(s, current, specs, k, env))
  {
    hide ApplyEntry, FirstMatch, Matches;
    if k > 0 {
      EntriesLeave(s, current, specs, env, i, k - 1);
      UpToNext(s, current, specs, k - 1, env);
      hide UpTo;
      assert IdOf(current, current[i].windowSessionId);
      EntryFrame(UpTo(s, current, specs, k - 1, env), current, specs[k - 1], env(k - 1), i);
    }
  }

  /** Window `i` is done: as its entry says, and listed as updated or as untouched. */
  ghost predicate Done(s: State, current: seq<ActiveWindow>, i: nat, spec: WindowSpec, n: Native, p: Progress)
    requires i < |current|
  {
    var id := current[i].windowSessionId;
    && p.ok && id in s.windows && id in p.state.windows && id in p.matched
    && p.state.windows[id].focusOrder == s.windows[id].focusOrder
    && EndsAs(spec, n, current[i], p.state.windows[id].window)
    && (id in p.result.updated <==> Updates(current[i], spec))
    && (id in p.result.untouched <==> !Updates(current[i], spec)) && id !in p.result.created
  }

  lemma {:induction false} EntryDoes(s: State, current: seq<ActiveWindow>, i: nat, spec: WindowSpec, n: Native,
                                     p: Progress)
    requires i < |current| && Waiting(s, current, i, p) && FirstMatch(current, spec) == Some(i)
    requires s.windows[current[i].windowSessionId].window == current[i] && GeometryInv(current[i].geometry)
    requires Works(current[i], spec, n)
    ensures Done(s, current, i, spec, n, ApplyEntry(p, current, spec, n))
  {
    ReconciledDoes(p.state, current[i], spec, n);
    UpdatesIff(p.state, current[i], spec, n);
    hide Reconciled, EndsAs, Works, Updates, FirstMatch;
  }

  lemma DoneStays(s: State, current: seq<ActiveWindow>, i: nat, spec: WindowSpec, n: Native, p: Progress, p1: Progress)
    requires i < |current| && Done(s, current, i, spec, n, p)
    requires var id := current[i].windowSessionId;
             && p1.ok && id in p1.state.windows && SameRecord(p.state.windows[id], p1.state.windows[id])
             && ListsAlike(p.result, p1.result, id) && id in p1.matched
    ensures Done(s, current, i, spec, n, p1)
  {
    var id := current[i].windowSessionId;
    var r, r1 := p.state.windows[id].window, p1.state.windows[id].window;
    EndsAsLater(spec, n, current[i], r, r1);
    hide EndsAs;
  }

  lemma EndsAsLater(spec: WindowSpec, n: Native, w: ActiveWindow, r: ActiveWindow, r1: ActiveWindow)
    requires EndsAs(spec, n, w, r) && r1 == r.(isFocused := r1.isFocused)
    ensures EndsAs(spec, n, w, r1)
  {
  }

  lemma {:induction false} EntriesDo(s: State, current: seq<ActiveWindow>, specs: seq<WindowSpec>, env: nat -> Native,
                                     i: nat, j: nat, k: nat)
    requires i < |current| && DistinctIds(current) && NamedOnce(current, specs, i, j) && j < k <= |specs|
    requires current[i].windowSessionId in s.windows
    requires s.windows[current[i].windowSessionId].window == current[i] && GeometryInv(current[i].geometry)
    requires OpensWork(current, specs, env) && Works(current[i], specs[j], env(j))
    ensures Done(s, current, i, specs[j], env(j), UpTo(s, current, specs, k, env))
  {
    hide ApplyEntry, FirstMatch, Matches, Works, Done, EndsAs;
    if k == j + 1 {
      EntriesLeave(s, current, specs, env, i, j);
      UpToNext(s, current, specs, j, env);
      EntryDoes(s, current, i, specs[j], env(j), UpTo(s, current, specs, j, env));
    } else {
      EntriesDo(s, current, specs, env, i, j, k - 1);
      DoneNext(s, current, specs, env, i, specs[j], env(j), k - 1);
    }
  }

  lemma {:induction false} DoneNext(s: State, current: seq<ActiveWindow>, specs: seq<WindowSpec>, env: nat -> Native,
                                    i: nat, spec: WindowSpec, n: Native, k: nat)
    requires i < |current| && DistinctIds(current) && k < |specs| && FirstMatch(current, specs[k]) != Some(i)
    requires OpensWork(current, specs, env) && Done(s, current, i, spec, n, UpTo(s, current, specs, k, env))
    ensures Done(s, current, i, spec, n, UpTo(s, current, specs, k + 1, env))
  {
    var p := UpTo(s, current, specs, k, env);
    DoneIsOk(s, current, i, spec, n, p);
    UpToNext(s, current, specs, k, env);
    assert IdOf(current, current[i].windowSessionId);
    hide UpTo, ListsAlike, ApplyEntry, FirstMatch, Done, SameRecord;
    EntryFrame(p, current, specs[k], env(k), i);
    DoneStays(s, current, i, spec, n, p, ApplyEntry(p, current, specs[k], env(k)));
  }

  lemma DoneIsOk(s: State, current: seq<ActiveWindow>, i: nat, spec: WindowSpec, n: Native, p: Progress)
    requires i < |current| && Done(s, current, i, spec, n, p)
    ensures p.ok && current[i].windowSessionId in p.state.windows && current[i].windowSessionId in p.matched
  {
  }

  // ---- the whole apply ----

  /** What the refresh that starts an apply lists. */
  function ListedBy(s: State, order: seq<string>, query: Query): (r: seq<ActiveWindow>)
    requires Enumerates(order, s.windows.Keys)
    ensures |r| == |order|
  {
    RefreshKeepsKeys(s, order, query);
    Listed(Refresh(s, order, query).0, order)
  }

  lemma {:induction false} ListedWell(s: State, order: seq<string>, query: Query)
    requires Records(s) && Enumerates(order, s.windows.Keys) && Refresh(s, order, query).1
    ensures var s0, current := Refresh(s, order, query).0, ListedBy(s, order, query);
            && DistinctIds(current)
            && (forall i :: 0 <= i < |order| ==>
                  && current[i].windowSessionId == order[i] && order[i] in s0.windows
                  && s0.windows[order[i]].window == current[i] && GeometryInv(current[i].geometry))
  {
    RefreshedIsStable(s, order, query);
    ListedIds(Refresh(s, order, query).0, order);
  }

  lemma {:induction false} ApplyIs(s: State, order: seq<string>, query: Query, specs: seq<WindowSpec>, prune: bool,
                                   env: nat -> Native, closes: nat -> Native)
    requires Enumerates(order, s.windows.Keys) && Refresh(s, order, query).1
    requires UpTo(Refresh(s, order, query).0, ListedBy(s, order, query), specs, |specs|, env).ok
    ensures var current := ListedBy(s, order, query);
            var p := UpTo(Refresh(s, order, query).0, current, specs, |specs|, env);
            var (s1, closed) := Pruned(p.state, current, p.matched, closes);
            Applied(s, order, query, specs, prune, env, closes)
            == if prune then (s1, Some(p.result.(closed := closed))) else (p.state, Some(p.result))
  {
    hide ApplyEntries, Refresh, Pruned;
    RefreshKeepsKeys(s, order, query);
    assert specs[..|specs|] == specs;
  }

  lemma {:induction false} EntriesKeepKeys(s: State, current: seq<ActiveWindow>, specs: seq<WindowSpec>, k: nat,
                                           env: nat -> Native)
    requires k <= |specs|
    ensures s.windows.Keys <= UpTo(s, current, specs, k, env).state.windows.Keys
  {
    if k > 0 {
      EntriesKeepKeys(s, current, specs, k - 1, env);
      var p := UpTo(s, current, specs, k - 1, env);
      assert specs[..k][..k - 1] == specs[..k - 1];
      if p.ok {
        UpToNext(s, current, specs, k - 1, env);
        hide ApplyEntries, FirstMatch, Reconciled, Step;
        match FirstMatch(current, specs[k - 1])
        case Some(i) => ReconciledKeepsKeys(p.state, current[i], specs[k - 1], env(k - 1));
        case None =>
          if env(k - 1).inserted.Some? {
            OpensFocused(p.state, env(k - 1).inserted.value, specs[k - 1], env(k - 1));
            assert ApplyEntry(p, current, specs[k - 1], env(k - 1)).state
                == OpenedBy(p.state, env(k - 1).inserted.value, specs[k - 1], env(k - 1));
          }
      }
    }
  }

  lemma {:induction false} PruneOf(s: State, current: seq<ActiveWindow>, p: Progress, closes: nat -> Native, i: nat)
    requires i < |current| && DistinctIds(current)
    requires forall k :: 0 <= k < |current| ==> current[k].windowSessionId in p.state.windows
    ensures var (s1, closed) := Pruned(p.state, current, p.matched, closes);
            var id := current[i].windowSessionId;
            && (id in closed <==> id !in p.matched && closes(i).closed)
            && (id in s1.windows <==> id !in closed)
            && (id in s1.windows ==> s1.windows[id] == p.state.windows[id])
  {
    PrunedSpec(p.state, current, p.matched, closes);
    hide Pruned;
  }

  /** An apply makes each listed window that exactly one entry finds, and for which everything works, end as that
      entry says, whatever fails for the others, and reports it updated exactly if the entry was an update. */
  lemma {:induction false} AppliedDoes(s: State, order: seq<string>, query: Query, specs: seq<WindowSpec>, prune: bool,
                                       env: nat -> Native, closes: nat -> Native, i: nat, j: nat)
    requires Records(s) && Enumerates(order, s.windows.Keys) && Refresh(s, order, query).1 && i < |order|
    requires var current := ListedBy(s, order, query);
             && NamedOnce(current, specs, i, j) && OpensWork(current, specs, env)
             && Works(current[i], specs[j], env(j))
    ensures var w := ListedBy(s, order, query)[i];
            var (s1, r) := Applied(s, order, query, specs, prune, env, closes);
            && r.Some? && order[i] in s1.windows
            && EndsAs(specs[j], env(j), w, s1.windows[order[i]].window)
            && (order[i] in r.value.updated <==> Updates(w, specs[j]))
            && (order[i] in r.value.untouched <==> !Updates(w, specs[j]))
            && order[i] !in r.value.created && order[i] !in r.value.closed
  {
    var s0, current := Refresh(s, order, query).0, ListedBy(s, order, query);
    ListedWell(s, order, query);
    EntriesDo(s0, current, specs, env, i, j, |specs|);
    EntriesKeepKeys(s0, current, specs, |specs|, env);
    var p := UpTo(s0, current, specs, |specs|, env);
    DoneIsOk(s0, current, i, specs[j], env(j), p);
    ApplyIs(s, order, query, specs, prune, env, closes);
    hide UpTo, Refresh, ListedBy, EndsAs, Updates, Works, NamedOnce, OpensWork, Applied, FirstMatch;
    ClosedOnlyByPruning(s0, current, specs, |specs|, env);
    PruneOf(s0, current, p, closes, i);
  }

  /** A listed window that no entry finds is closed if the apply prunes and its close works, and is otherwise as the
      refresh found it, but for the focus; nothing but the close is reported. */
  lemma {:induction false} AppliedLeaves(s: State, order: seq<string>, query: Query, specs: seq<WindowSpec>,
                                         prune: bool, env: nat -> Native, closes: nat -> Native, i: nat)
    requires Records(s) && Enumerates(order, s.windows.Keys) && Refresh(s, order, query).1 && i < |order|
    requires var current := ListedBy(s, order, query);
             UnnamedBy(current, specs, |specs|, i) && OpensWork(current, specs, env)
    ensures var (s1, r) := Applied(s, order, query, specs, prune, env, closes);
            var s0 := Refresh(s, order, query).0;
            && r.Some? && order[i] in s0.windows
            && (order[i] in s1.windows <==> !(prune && closes(i).closed))
            && (order[i] in r.value.closed <==> prune && closes(i).closed)
            && (order[i] in s1.windows ==> SameRecord(s0.windows[order[i]], s1.windows[order[i]]))
            && order[i] !in r.value.created && order[i] !in r.value.updated && order[i] !in r.value.untouched
  {
    var s0, current := Refresh(s, order, query).0, ListedBy(s, order, query);
    ListedWell(s, order, query);
    EntriesLeave(s0, current, specs, env, i, |specs|);
    EntriesKeepKeys(s0, current, specs, |specs|, env);
    var p := UpTo(s0, current, specs, |specs|, env);
    ApplyIs(s, order, query, specs, prune, env, closes);
    hide UpTo, Refresh, ListedBy, OpensWork, Applied, FirstMatch, UnnamedBy;
    ClosedOnlyByPruning(s0, current, specs, |specs|, env);
    PruneOf(s0, current, p, closes, i);
  }

  /** The entries close nothing. */
  lemma {:induction false} ClosedOnlyByPruning(s: State, current: seq<ActiveWindow>, specs: seq<WindowSpec>, k: nat,
                                               env: nat -> Native)
    requires k <= |specs|
    ensures UpTo(s, current, specs, k, env).result.closed == []
  {
    if k > 0 {
      ClosedOnlyByPruning(s, current, specs, k - 1, env);
      assert specs[..k][..k - 1] == specs[..k - 1];
      hide FirstMatch, Reconciled, Step;
      if UpTo(s, current, specs, k - 1, env).ok {
        UpToNext(s, current, specs, k - 1, env);
      }
    }
  }

  lemma {:induction false} FailedStays(s: State, current: seq<ActiveWindow>, specs: seq<WindowSpec>, k: nat, m: nat,
                                       env: nat -> Native)
    requires k <= m <= |specs| && !UpTo(s, current, specs, k, env).ok
    ensures UpTo(s, current, specs, m, env) == UpTo(s, current, specs, k, env)
  {
    if k < m {
      FailedStays(s, current, specs, k, m - 1, env);
      assert specs[..m][..m - 1] == specs[..m - 1];
    }
  }

  /** An open that fails ends the apply, pruning included, with what the entries before it did. */
  lemma {:induction false} FailedOpenEnds(s: State, order: seq<string>, query: Query, specs: seq<WindowSpec>,
                                          prune: bool, env: nat -> Native, closes: nat -> Native, k: nat)
    requires Enumerates(order, s.windows.Keys) && Refresh(s, order, query).1 && k < |specs|
    requires var current := ListedBy(s, order, query);
             && UpTo(Refresh(s, order, query).0, current, specs, k, env).ok
             && FirstMatch(current, specs[k]).None? && env(k).inserted.None?
    ensures Applied(s, order, query, specs, prune, env, closes)
            == (UpTo(Refresh(s, order, query).0, ListedBy(s, order, query), specs, k, env).state, None)
  {
    var s0, current := Refresh(s, order, query).0, ListedBy(s, order, query);
    UpToNext(s0, current, specs, k, env);
    FailedStays(s0, current, specs, k + 1, |specs|, env);
    hide Refresh, FirstMatch, ApplyEntries;
    RefreshKeepsKeys(s, order, query);
    assert specs[..|specs|] == specs;
  }

  // ---- applying again ----

  /** The description is one as it stands: some text, without blanks around it. */
  predicate Settled(description: Option<string>) {
    description.Some? ==> description.value != [] && Trimmed(description.value) == description.value
  }

  /** A window that ended as its entry says counts as an update again exactly for a media action or a description that
      the registry does not keep as written. */
  lemma QuietIff(spec: WindowSpec, n: Native, w: ActiveWindow, r: ActiveWindow)
    requires EndsAs(spec, n, w, r)
    ensures !Updates(r, spec) <==> spec.media.None? && (spec.description == w.description || Settled(spec.description))
  {
    hide Trimmed;
  }

  /** Applying the same specification again: a window that its entry finds again, alone, is reported untouched and
      keeps its size, position, state and description if and only if the entry has no media action and a description
      that is kept as written. Which listed window an entry finds may change in between, as descriptions do. */
  lemma {:induction false} AppliedTwice(s: State, order: seq<string>, query: Query, specs: seq<WindowSpec>, prune: bool,
                                        env: nat -> Native, closes: nat -> Native, i: nat, j: nat,
                                        order2: seq<string>, query2: Query, prune2: bool, env2: nat -> Native,
                                        closes2: nat -> Native, i2: nat)
    requires Records(s) && Enumerates(order, s.windows.Keys) && Refresh(s, order, query).1 && i < |order|
    requires var current := ListedBy(s, order, query);
             && NamedOnce(current, specs, i, j) && OpensWork(current, specs, env)
             && Works(current[i], specs[j], env(j))
    requires var s1 := Applied(s, order, query, specs, prune, env, closes).0;
             && Records(s1) && Enumerates(order2, s1.windows.Keys) && Refresh(s1, order2, query2) == (s1, true)
             && i2 < |order2| && order2[i2] == order[i]
             && var current2 := ListedBy(s1, order2, query2);
                && NamedOnce(current2, specs, i2, j) && OpensWork(current2, specs, env2)
                && Works(current2[i2], specs[j], env2(j))
    ensures var w, id := ListedBy(s, order, query)[i], order[i];
            var s1 := Applied(s, order, query, specs, prune, env, closes).0;
            var (s2, r2) := Applied(s1, order2, query2, specs, prune2, env2, closes2);
            && r2.Some? && id in s1.windows && id in s2.windows
            && (id in r2.value.untouched
                <==> specs[j].media.None?
                     && (specs[j].description == w.description || Settled(specs[j].description)))
            && s2.windows[id].window.geometry == s1.windows[id].window.geometry
            && (id in r2.value.untouched ==>
                  s2.windows[id].window.description == s1.windows[id].window.description)
  {
    var s1 := Applied(s, order, query, specs, prune, env, closes).0;
    AppliedDoes(s, order, query, specs, prune, env, closes, i, j);
    AppliedDoes(s1, order2, query2, specs, prune2, env2, closes2, i2, j);
    var w, r := ListedBy(s, order, query)[i], s1.windows[order[i]].window;
    assert ListedBy(s1, order2, query2)[i2] == r;
    hide Applied, Refresh, ListedBy, NamedOnce, OpensWork, Works, Records, Enumerates;
    QuietIff(specs[j], env(j), w, r);
    var s2 := Applied(s1, order2, query2, specs, prune2, env2, closes2).0;
    EndsAlike(specs[j], env(j), w, r, env2(j), s2.windows[order[i]].window);
  }

  lemma EndsAlike(spec: WindowSpec, n: Native, w: ActiveWindow, r: ActiveWindow, n2: Native, r2: ActiveWindow)
    requires EndsAs(spec, n, w, r) && EndsAs(spec, n2, r, r2)
    ensures r2.geometry == r.geometry && (!Updates(r, spec) ==> r2.description == r.description)
  {
  }

  // ---- restoring an exported layout ----

  /** The window looks as it did: size, position, state, topmost flag; its workspace and its description, if it had
      them. */
  ghost predicate Restored(was: ActiveWindow, r: ActiveWindow) {
    && r.geometry == was.geometry
    && (was.desk.workspace.Some? ==> r.desk.workspace == was.desk.workspace && !r.desk.isOnAllWorkspaces)
    && (was.description.Some? && Settled(was.description) ==> r.description == was.description)
  }

  lemma ExportedEntryRestores(was: ActiveWindow, n: Native, w: ActiveWindow, r: ActiveWindow)
    requires WindowInv(was) && Works(w, ExportWindow(was), n) && EndsAs(ExportWindow(was), n, w, r)
    ensures Restored(was, r)
  {
    hide Trimmed;
  }

  /** Whatever has become of a window since the export, applying the exported layout to a later registry makes it
      look as it did then, if it is still listed and its own entry alone finds it. */
  lemma {:induction false} ExportRestores(exported: seq<ActiveWindow>, s: State, order: seq<string>, query: Query,
                                          prune: bool, env: nat -> Native, closes: nat -> Native, i: nat, j: nat)
    requires j < |exported| && WindowInv(exported[j])
    requires Records(s) && Enumerates(order, s.windows.Keys) && Refresh(s, order, query).1 && i < |order|
    requires var current, specs := ListedBy(s, order, query), Export(exported);
             && NamedOnce(current, specs, i, j) && OpensWork(current, specs, env)
             && Works(current[i], specs[j], env(j))
    ensures var s1 := Applied(s, order, query, Export(exported), prune, env, closes).0;
            order[i] in s1.windows && Restored(exported[j], s1.windows[order[i]].window)
  {
    AppliedDoes(s, order, query, Export(exported), prune, env, closes, i, j);
    hide Applied, Refresh, NamedOnce, OpensWork, Works, Records, Enumerates, EndsAs, Restored;
    ExportedEntryRestores(exported[j], env(j), ListedBy(s, order, query)[i],
                          Applied(s, order, query, Export(exported), prune, env, closes).0.windows[order[i]].window);
  }

  /** The entry of a window finds a window opened anew on what it showed, and names its profile. */
  lemma ReopenedIsFound(w: ActiveWindow, id: string, description: Option<string>, title: string)
    ensures var shown := if w.page.currentUrl.Some? then w.page.currentUrl.value else w.requestedSource;
            w.sourceKind == Web ==> Matches(OpenedWeb(id, shown, description, w.profile), ExportWindow(w))
    ensures w.sourceKind == LocalMedia ==>
              Matches(OpenedMedia(id, w.requestedSource, w.contentKind, title, description, w.profile), ExportWindow(w))
    ensures ExportWindow(w).profile == w.profile && ExportWindow(w).media == None
  {
  }

  /** An entry that only moves its window to another workspace moves it and reports it untouched. */
  lemma {:induction false} MoveIsReportedUntouched(s: State, id: string, n: Native)
    requires id in s.windows && s.windows[id].window.windowSessionId == id
    requires s.windows[id].window.desk.workspace != Some(3) && 3 in n.workspaces && n.persisted && forall k :: n.ok(k)
    ensures var spec := WindowSpec(Some(id), WebSource(""), None, None,
                                   Some(NO_GEOMETRY.(workspace := Some(Index(3)))), None);
            var (s1, updated) := Reconciled(s, s.windows[id].window, spec, n);
            && !updated && id in s1.windows && s1.windows[id].window.desk.workspace == Some(3)
  {
    var w := s.windows[id].window;
    var spec := WindowSpec(Some(id), WebSource(""), None, None, Some(NO_GEOMETRY.(workspace := Some(Index(3)))), None);
    assert Works(w, spec, n);
    ReconciledDoes(s, w, spec, n);
    hide Resized, Tagged;
  }
}
