/** What a target means to its user: the texts a window bears, and the window that holds the focus. */
module Naming {
  import opened Wrappers
  import opened Protocol
  import opened Text
  import opened Windows
  import opened Registry
  import opened Reports
  import opened Targets

  /** The texts of a window that a target is looked for in. */
  ghost predicate Bears(w: ActiveWindow, text: string) {
    || text == w.page.title || text == w.requestedSource
    || w.description == Some(text) || w.page.currentUrl == Some(text)
  }

  /** The window is one the target may mean: it holds the focus, is maximized, or bears a text that contains the
      target in whatever case. */
  ghost predicate MayMean(w: ActiveWindow, target: string, lower: Lower) {
    if lower(target) == "focused" then w.isFocused
    else if lower(target) == "maximized" then w.geometry.isMaximized
    else exists text :: Bears(w, text) && Contains(lower(text), lower(target))
  }

  lemma SelectsIff(w: ActiveWindow, target: string, lower: Lower)
    ensures Targets.Selects(w, target, lower) <==> MayMean(w, target, lower)
  {
    hide Contains;
    assert Bears(w, w.page.title) && Bears(w, w.requestedSource);
    if w.description.Some? { assert Bears(w, w.description.value); }
    if w.page.currentUrl.Some? { assert Bears(w, w.page.currentUrl.value); }
  }

  ghost function Meant(s: State, target: string, lower: Lower): set<string> {
    set k | k in s.windows && MayMean(s.windows[k].window, target, lower)
  }

  /** In every reachable registry a target that is no session id resolves among the windows it may mean: to none, to
      the only one, to the one the run focused last, or to an ambiguity of several never focused. */
  lemma {:induction false} TargetMeans(events: seq<Event>, order: seq<string>, target: string, lower: Lower)
    requires HostRun(events) && FocusCount(events) < U64
    requires Enumerates(order, Run(events).windows.Keys)
    requires target !in Run(events).windows && !StartsWith(target, "wsess_")
    ensures ByRecency(events, Meant(Run(events), target, lower), target,
                      ResolveTarget(Run(events), order, target, lower))
  {
    var s := Run(events);
    ResolveTargetSpec(events, order, target, lower);
    forall k | k in s.windows
      ensures Targets.Selects(s.windows[k].window, target, lower) <==> MayMean(s.windows[k].window, target, lower)
    {
      SelectsIff(s.windows[k].window, target, lower);
    }
    hide Targets.Selects, MayMean, ByRecency, Run, ResolveTarget;
    assert Matching(s, w => Targets.Selects(w, target, lower)) == Meant(s, target, lower);
  }

  /** "focused", in whatever case, is the window that holds the focus, and not found when none does. */
  lemma {:induction false} FocusedMeansHolder(events: seq<Event>, order: seq<string>, target: string, lower: Lower)
    requires HostRun(events) && FocusCount(events) < U64
    requires Enumerates(order, Run(events).windows.Keys)
    requires target !in Run(events).windows && !StartsWith(target, "wsess_") && lower(target) == "focused"
    ensures ResolveTarget(Run(events), order, target, lower)
            == match FocusHolder(events) case Some(id) => Ok(id) case None => Err(TargetNotFound(target))
  {
    var s := Run(events);
    TargetMeans(events, order, target, lower);
    HolderIsThere(events);
    forall k | k in s.windows
      ensures s.windows[k].window.isFocused <==> FocusHolder(events) == Some(k)
    {
      FocusedIsHolder(events, k);
    }
    var m := Meant(s, target, lower);
    hide Run, ResolveTarget, FocusHolder;
    match FocusHolder(events)
    case Some(id) => assert m == {id}; assert Targets.LastOf(events, m, id);
    case None => assert m == {};
  }

  /** In every reachable registry a workspace index resolves, by the same rule, among the windows on that workspace
      and those on all of them. */
  lemma {:induction false} WorkspaceMeans(events: seq<Event>, order: seq<string>, index: nat)
    requires HostRun(events) && FocusCount(events) < U64
    requires Enumerates(order, Run(events).windows.Keys)
    ensures var s := Run(events);
            var there := set k | k in s.windows
                                 && (s.windows[k].window.desk.workspace == Some(index)
                                     || s.windows[k].window.desk.isOnAllWorkspaces);
            ByRecency(events, there, "workspace", ResolveWorkspaceIndex(s, order, index))
  {
    ResolveWorkspaceSpec(events, order, index);
    var s := Run(events);
    hide ByRecency, Run, ResolveWorkspaceIndex;
    assert Matching(s, w => OnWorkspace(w, index))
        == set k | k in s.windows
                   && (s.windows[k].window.desk.workspace == Some(index)
                       || s.windows[k].window.desk.isOnAllWorkspaces);
  }
}
