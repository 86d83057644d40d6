/** The window manager's layout commands, as the loops and early returns the host runs. */
module Manager {
  import opened Wrappers
  import opened Protocol
  import opened Windows
  import opened Registry
  import opened Targets
  import opened Layout

  class WindowManager {
    const registry: WindowRegistry

    constructor (registry: WindowRegistry)
      ensures this.registry == registry
    {
      this.registry := registry;
    }

    function State(): Registry.State
      reads registry
    {
      registry.Abs()
    }

    method RefreshAllWorkspaces(order: seq<string>, query: Query) returns (ok: bool)
      modifies registry
      ensures (State(), ok) == Refresh(old(State()), order, query)
    {
      var i := 0;
      while i < |order|
        invariant 0 <= i <= |order|
        invariant Refresh(old(State()), order, query) == Refresh(State(), order[i..], query)
      {
        if query(order[i]).None? {
          return false;
        }
        var place := query(order[i]).value;
        var r := registry.Record(order[i], Placement(place.index, place.all));
        if r.Err? {
          return false;
        }
        assert order[i..][1..] == order[i + 1..];
        i := i + 1;
      }
      ok := true;
    }

    /** `resize`: each native call, then what it records; the first failure ends it. */
    method Resize(id: string, g: WindowGeometrySpec, n: Native) returns (ok: bool)
      modifies registry
      ensures (State(), ok) == Resized(old(State()), id, g, n)
    {
      if !ValidResize(NO_RESIZE.(width := g.width, height := g.height)) {
        return false;
      }
      var workspace := if g.workspace.Some? then ResolveWorkspace(g.workspace.value, n) else None;
      if g.workspace.Some? && workspace.None? {
        return false;
      }
      var effects := ResizeEffects(g, workspace);
      var i := 0;
      while i < |effects|
        invariant 0 <= i <= |effects|
        invariant RunEffects(old(State()), id, effects, n) == RunEffects(State(), id, effects[i..], n)
      {
        var e := effects[i];
        if !n.ok(e.call) || id !in registry.windows {
          return false;
        }
        if e.observation.Some? {
          var r := registry.Record(id, e.observation.value);
          if r.Err? {
            return false;
          }
        }
        assert effects[i..][1..] == effects[i + 1..];
        i := i + 1;
      }
      ok := true;
    }

    /** `tag`: records the description, then restores the previous one if the history sync fails. */
    method Tag(id: string, description: string, n: Native)
      modifies registry
      ensures State() == Tagged(old(State()), id, description, n)
    {
      if id !in registry.windows {
        return;
      }
      var previous := registry.windows[id].window.description;
      var validated := ValidateDescription(description);
      if validated.Err? {
        return;
      }
      var _ := registry.Record(id, Describe(validated.value));
      if !n.persisted {
        var _ := registry.Record(id, Describe(previous));
        DescribeBack(old(State()), id, validated.value);
      }
    }

    /** One entry that matched a listed window. */
    method Reconcile(w: ActiveWindow, spec: WindowSpec, n: Native) returns (updated: bool)
      modifies registry
      ensures (State(), updated) == Reconciled(old(State()), w, spec, n)
    {
      hide Observe, ValidateDescription, ResizeEffects, RunEffects, FocusOn;
      var id := w.windowSessionId;
      updated := false;
      if spec.description.Some? && w.description != spec.description {
        Tag(id, spec.description.value, n);
        updated := true;
      }
      if spec.geometry.Some? {
        var _ := Resize(id, spec.geometry.value, n);
        updated := updated || GeometryChanged(w.geometry, spec.geometry.value);
      }
      if spec.media.Some? {
        if n.media.Some? {
          var _ := registry.Record(id, MediaReport(n.media.value));
        }
        updated := true;
      }
    }

    /** One entry: reconcile the first listed match, or open a window; `false` when the open failed. */
    method ApplyEntry(current: seq<ActiveWindow>, spec: WindowSpec, n: Native, r: ApplyResult, matched: set<string>)
      returns (ok: bool, r': ApplyResult, matched': set<string>)
      modifies registry
      ensures Progress(State(), r', matched', ok)
              == Layout.ApplyEntry(Progress(old(State()), r, matched, true), current, spec, n)
    {
      ok, r', matched' := true, r, matched;
      var found := FirstMatch(current, spec);
      if found.Some? {
        var w := current[found.value];
        var updated := Reconcile(w, spec, n);
        if updated {
          r' := r.(updated := r.updated + [w.windowSessionId]);
        } else {
          r' := r.(untouched := r.untouched + [w.windowSessionId]);
        }
        matched' := matched + {w.windowSessionId};
      } else if n.inserted.None? {
        ok := false;
      } else {
        var w := n.inserted.value;
        registry.Insert(w);
        registry.RecordFocus(w.windowSessionId, true);
        if spec.media.Some? && n.media.Some? {
          var _ := registry.Record(w.windowSessionId, MediaReport(n.media.value));
        }
        matched' := matched + {w.windowSessionId};
        r' := r.(created := r.created + [w.windowSessionId]);
      }
    }

    method ApplyEntries(current: seq<ActiveWindow>, specs: seq<WindowSpec>, env: nat -> Native)
      returns (ok: bool, r: ApplyResult, matched: set<string>)
      modifies registry
      ensures Progress(State(), r, matched, ok) == Layout.ApplyEntries(old(State()), current, specs, env)
    {
      ok, r, matched := true, NOTHING, {};
      var i := 0;
      while i < |specs|
        invariant 0 <= i <= |specs|
        invariant Layout.ApplyEntries(old(State()), current, specs[..i], env) == Progress(State(), r, matched, true)
        invariant ok
      {
        assert specs[..i + 1][..i] == specs[..i];
        ok, r, matched := ApplyEntry(current, specs[i], env(i), r, matched);
        if !ok {
          FailureEnds(old(State()), current, specs, i + 1, env);
          return;
        }
        i := i + 1;
      }
      assert specs[..i] == specs;
    }

    method Prune(current: seq<ActiveWindow>, matched: set<string>, closes: nat -> Native) returns (closed: seq<string>)
      modifies registry
      ensures (State(), closed) == Pruned(old(State()), current, matched, closes)
    {
      closed := [];
      var k := 0;
      while k < |current|
        invariant 0 <= k <= |current|
        invariant Pruned(old(State()), current[..k], matched, closes) == (State(), closed)
      {
        assert current[..k + 1][..k] == current[..k];
        var id := current[k].windowSessionId;
        if id !in matched && id in registry.windows && closes(k).closed {
          var _ := registry.Remove(id);
          closed := closed + [id];
        }
        k := k + 1;
      }
      assert current[..k] == current;
    }

    /** `apply_spec`. */
    method ApplySpec(order: seq<string>, query: Query, specs: seq<WindowSpec>, prune: bool,
                     env: nat -> Native, closes: nat -> Native)
      returns (result: Option<ApplyResult>)
      requires Enumerates(order, State().windows.Keys)
      modifies registry
      ensures (State(), result) == Applied(old(State()), order, query, specs, prune, env, closes)
    {
      RefreshKeepsKeys(State(), order, query);
      var listed := RefreshAllWorkspaces(order, query);
      if !listed {
        return None;
      }
      var current := Listed(State(), order);
      var ok, r, matched := ApplyEntries(current, specs, env);
      if !ok {
        return None;
      }
      if prune {
        var closed := Prune(current, matched, closes);
        r := r.(closed := closed);
      }
      result := Some(r);
    }

    /** `export_spec`. */
    method ExportSpec(order: seq<string>, query: Query) returns (specs: Option<seq<WindowSpec>>)
      requires Enumerates(order, State().windows.Keys)
      modifies registry
      ensures State() == Refresh(old(State()), order, query).0
      ensures Enumerates(order, State().windows.Keys)
      ensures specs == if Refresh(old(State()), order, query).1 then Some(Export(Listed(State(), order))) else None
    {
      RefreshKeepsKeys(State(), order, query);
      var ok := RefreshAllWorkspaces(order, query);
      if !ok {
        return None;
      }
      var list := ExportAll(Listed(State(), order));
      specs := Some(list);
    }
  }

  method ExportAll(windows: seq<ActiveWindow>) returns (specs: seq<WindowSpec>)
    ensures specs == Export(windows)
  {
    specs := [];
    for i := 0 to |windows|
      invariant specs == Export(windows[..i])
    {
      assert Export(windows[..i + 1]) == Export(windows[..i]) + [ExportWindow(windows[i])];
      specs := specs + [ExportWindow(windows[i])];
    }
    assert windows[..|windows|] == windows;
  }

  lemma DescribeBack(s: Registry.State, id: string, description: Option<string>)
    requires id in s.windows
    ensures Step(Step(s, Observed(id, Describe(description))),
                 Observed(id, Describe(s.windows[id].window.description))) == s
  {
    var w := s.windows[id].window;
    assert Observe(Observe(w, Describe(description)), Describe(w.description)) == w;
    assert s.windows[id].(window := w) == s.windows[id];
  }

  /** A failed open stops the loop: later entries are not looked at. */
  lemma {:induction false} FailureEnds(s: Registry.State, current: seq<ActiveWindow>, specs: seq<WindowSpec>, i: nat,
                                       env: nat -> Native)
    requires i <= |specs|
    requires !Layout.ApplyEntries(s, current, specs[..i], env).ok
    ensures Layout.ApplyEntries(s, current, specs, env) == Layout.ApplyEntries(s, current, specs[..i], env)
    decreases |specs|
  {
    if |specs| == i {
      assert specs[..i] == specs;
    } else {
      assert specs[..|specs| - 1][..i] == specs[..i];
      FailureEnds(s, current, specs[..|specs| - 1], i, env);
    }
  }
}
