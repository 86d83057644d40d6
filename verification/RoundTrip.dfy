/** Exporting a layout and applying it back. */
module RoundTrip {
  import opened Wrappers
  import opened Protocol
  import opened Windows
  import opened Registry
  import opened Targets
  import opened Layout

  /** What `ReachableInv` gives: every record is well formed and stored under its own id. */
  ghost predicate Records(s: State) {
    forall k :: k in s.windows ==> WindowInv(s.windows[k].window) && s.windows[k].window.windowSessionId == k
  }

  /** No listed window matches the exported entry of a later one. */
  ghost predicate NoCrossMatch(current: seq<ActiveWindow>) {
    forall i, j :: 0 <= i < j < |current| ==> !Matches(current[i], ExportWindow(current[j]))
  }

  // ---- refreshing ----

  predicate Answered(query: Query, id: string) {
    query(id).Some? && (query(id).value.index.Some? ==> query(id).value.index.value <= 255)
  }

  lemma PlacementDesk(w: ActiveWindow, index: Option<nat>, all: bool)
    requires !Rejected(w, Placement(index, all))
    ensures Observe(w, Placement(index, all)).desk == Place(w.desk, index, all)
  {
  }

  /** One recorded placement. */
  lemma RefreshedOne(s: State, id: string, index: Option<nat>, all: bool)
    requires Records(s) && id in s.windows && !Rejected(s.windows[id].window, Placement(index, all))
    ensures var s1 := Step(s, Observed(id, Placement(index, all)));
            && Records(s1) && s1.windows.Keys == s.windows.Keys
            && (forall k :: k in s.windows && k != id ==> s1.windows[k] == s.windows[k])
            && s1.windows[id].window.desk == Place(s.windows[id].window.desk, index, all)
  {
    hide Observe, WindowInv, Place, FocusOn;
    ObserveKeepsInv(s.windows[id].window, Placement(index, all));
    PlacementDesk(s.windows[id].window, index, all);
  }

  /** `r` is `s` with the answers of `query` recorded for the windows in `order`. */
  ghost predicate RecordsAnswers(s: State, r: State, order: seq<string>, query: Query) {
    && Records(r) && r.windows.Keys == s.windows.Keys
    && (forall k :: k in s.windows && k !in order ==> r.windows[k] == s.windows[k])
    && (forall k :: k in order ==> RecordsAnswer(s, r, k, query))
  }

  ghost predicate RecordsAnswer(s: State, r: State, k: string, query: Query) {
    && k in s.windows && k in r.windows && Answered(query, k)
    && r.windows[k].window.desk == Place(s.windows[k].window.desk, query(k).value.index, query(k).value.all)
  }

  lemma AnswersPlus(s: State, s1: State, r: State, id: string, rest: seq<string>, query: Query)
    requires RecordsAnswer(s, s1, id, query) && RecordsAnswers(s1, r, rest, query) && id !in rest
    requires s1.windows.Keys == s.windows.Keys
    requires forall k :: k in s.windows && k != id ==> s1.windows[k] == s.windows[k]
    ensures RecordsAnswers(s, r, [id] + rest, query)
  {
    hide Place, Records, Answered;
    forall k | k in [id] + rest
      ensures RecordsAnswer(s, r, k, query)
    {
      if k != id {
        assert RecordsAnswer(s1, r, k, query);
      }
    }
  }

  /** The first step of a refresh that succeeds. */
  lemma {:induction false} RefreshBegins(s: State, order: seq<string>, query: Query)
    requires Records(s) && order != [] && Refresh(s, order, query).1
    ensures var id := order[0];
            && id in s.windows && Answered(query, id) &&
            var s1 := Step(s, Observed(id, Placement(query(id).value.index, query(id).value.all)));
            && Refresh(s, order, query) == Refresh(s1, order[1..], query)
            && Records(s1) && s1.windows.Keys == s.windows.Keys && RecordsAnswer(s, s1, id, query)
            && forall k :: k in s.windows && k != id ==> s1.windows[k] == s.windows[k]
  {
    RefreshedOne(s, order[0], query(order[0]).value.index, query(order[0]).value.all);
  }

  ghost predicate NoRepeats(order: seq<string>) { forall i, j :: 0 <= i < j < |order| ==> order[i] != order[j] }

  lemma {:induction false} RefreshSpec(s: State, order: seq<string>, query: Query)
    requires Records(s) && NoRepeats(order)
    requires Refresh(s, order, query).1
    ensures RecordsAnswers(s, Refresh(s, order, query).0, order, query)
    decreases |order|
  {
    if order != [] {
      var id, rest := order[0], order[1..];
      RefreshBegins(s, order, query);
      hide Refresh, Step, Place, Records, RecordsAnswers, RecordsAnswer, Answered;
      var s1 := Step(s, Observed(id, Placement(query(id).value.index, query(id).value.all)));
      assert order == [id] + rest;
      assert id !in rest && NoRepeats(rest);
      hide NoRepeats;
      RefreshSpec(s1, rest, query);
      AnswersPlus(s, s1, Refresh(s1, rest, query).0, id, rest, query);
    }
  }

  /** A refresh stops at the first window without a usable answer, with the answers before it recorded. */
  lemma {:induction false} RefreshStops(s: State, order: seq<string>, query: Query, m: nat)
    requires m < |order| && !Answered(query, order[m])
    requires forall i :: 0 <= i < m ==> Answered(query, order[i])
    requires forall i :: 0 <= i < |order| ==> order[i] in s.windows
    ensures Refresh(s, order, query) == (Refresh(s, order[..m], query).0, false) && Refresh(s, order[..m], query).1
    decreases |order|
  {
    if m > 0 {
      assert Answered(query, order[0]);
      assert order[..m][0] == order[0] && order[..m][1..] == order[1..][..m - 1];
      var s1 := Step(s, Observed(order[0], Placement(query(order[0]).value.index, query(order[0]).value.all)));
      hide Observe;
      RefreshStops(s1, order[1..], query, m - 1);
    }
  }

  /** Asking again for placements that have not changed changes nothing. */
  lemma {:induction false} RefreshTwice(s: State, order: seq<string>, query: Query)
    requires forall k :: k in order ==>
               k in s.windows && Answered(query, k)
               && s.windows[k].window.desk == Place(s.windows[k].window.desk, query(k).value.index, query(k).value.all)
    ensures Refresh(s, order, query) == (s, true)
    decreases |order|
  {
    if order != [] {
      var id := order[0];
      var o := Placement(query(id).value.index, query(id).value.all);
      assert Observe(s.windows[id].window, o) == s.windows[id].window;
      assert Step(s, Observed(id, o)).windows == s.windows;
      RefreshTwice(s, order[1..], query);
    }
  }

  // ---- one window ----

  ghost predicate Harmless(w: ActiveWindow, effects: seq<Effect>) {
    forall i :: 0 <= i < |effects| && effects[i].observation.Some? ==> Observe(w, effects[i].observation.value) == w
  }

  lemma {:induction false} HarmlessEffects(s: State, id: string, effects: seq<Effect>, n: Native)
    requires id in s.windows && Harmless(s.windows[id].window, effects)
    ensures RunEffects(s, id, effects, n).0 == s
    decreases |effects|
  {
    if effects != [] {
      assert effects[0].observation.Some? ==> Step(s, Observed(id, effects[0].observation.value)).windows == s.windows;
      HarmlessEffects(s, id, effects[1..], n);
    }
  }

  lemma HarmlessPlus(w: ActiveWindow, a: seq<Effect>, b: seq<Effect>)
    requires Harmless(w, a) && Harmless(w, b)
    ensures Harmless(w, a + b)
  {
  }

  lemma HarmlessGeometry(w: ActiveWindow)
    requires WindowInv(w)
    ensures var g := ExportWindow(w).geometry.value;
            && Observe(w, Resize(NO_RESIZE.(width := g.width, height := g.height))) == w
            && Observe(w, Resize(NO_RESIZE.(x := g.x, y := g.y))) == w
            && Observe(w, Resize(NO_RESIZE.(alwaysOnTop := g.alwaysOnTop))) == w
            && Harmless(w, StateEffects(g.state.value))
  {
    var g := w.geometry;
    assert ResizeGeometry(g, NO_RESIZE.(width := Some(g.width), height := Some(g.height))) == g;
    assert ResizeGeometry(g, NO_RESIZE.(x := Some(g.x), y := Some(g.y))) == g;
    assert ResizeGeometry(g, NO_RESIZE.(alwaysOnTop := Some(g.isAlwaysOnTop))) == g;
    assert ResizeGeometry(g, NO_RESIZE.(state := Some(ExportState(g)))) == g;
  }

  lemma HarmlessPlacement(w: ActiveWindow)
    requires WindowInv(w) && w.desk.workspace.Some?
    ensures Observe(w, Placement(w.desk.workspace, false)) == w
  {
    assert Place(w.desk, w.desk.workspace, false) == w.desk;
  }

  lemma HarmlessParts(w: ActiveWindow)
    requires WindowInv(w)
    ensures var g := ExportWindow(w).geometry.value;
            && Harmless(w, [Effect(0, None), Effect(1, Some(Resize(NO_RESIZE.(width := g.width, height := g.height)))),
                            Effect(2, Some(Resize(NO_RESIZE.(x := g.x, y := g.y))))])
            && Harmless(w, StateEffects(g.state.value))
            && Harmless(w, if w.desk.workspace.Some?
                           then [Effect(6, Some(Placement(w.desk.workspace, false))), Effect(7, None)] else [])
            && Harmless(w, [Effect(8, Some(Resize(NO_RESIZE.(alwaysOnTop := g.alwaysOnTop))))])
  {
    HarmlessGeometry(w);
    if w.desk.workspace.Some? {
      HarmlessPlacement(w);
    }
    hide Observe, StateEffects, WindowInv;
  }

  /** Every call of the resize that an exported geometry asks for records what is already recorded. */
  lemma ExportedEffectsHarmless(w: ActiveWindow)
    requires WindowInv(w)
    ensures Harmless(w, ResizeEffects(ExportWindow(w).geometry.value, w.desk.workspace))
  {
    var g := ExportWindow(w).geometry.value;
    hide Observe, StateEffects, WindowInv, Harmless;
    var a := [Effect(0, None), Effect(1, Some(Resize(NO_RESIZE.(width := g.width, height := g.height)))),
              Effect(2, Some(Resize(NO_RESIZE.(x := g.x, y := g.y))))];
    var b := StateEffects(g.state.value);
    var c := if w.desk.workspace.Some?
             then [Effect(6, Some(Placement(w.desk.workspace, false))), Effect(7, None)] else [];
    var d := [Effect(8, Some(Resize(NO_RESIZE.(alwaysOnTop := g.alwaysOnTop))))];
    HarmlessParts(w);
    HarmlessPlus(w, a, b);
    HarmlessPlus(w, a + b, c);
    HarmlessPlus(w, a + b + c, d);
    assert ResizeEffects(g, w.desk.workspace) == a + b + c + d;
  }

  /** Whatever native calls fail, reconciling a window with its own entry leaves the registry equal and
      does not count as an update. */
  lemma ReconciledIsIdentity(s: State, id: string, n: Native)
    requires Records(s) && id in s.windows
    ensures Reconciled(s, s.windows[id].window, ExportWindow(s.windows[id].window), n) == (s, false)
  {
    var w := s.windows[id].window;
    var g := ExportWindow(w).geometry.value;
    var workspace := if g.workspace.Some? then ResolveWorkspace(g.workspace.value, n) else None;
    ExportedEffectsHarmless(w);
    HarmlessEffects(s, id, ResizeEffects(g, w.desk.workspace), n);
    assert workspace.Some? || g.workspace.None? ==> workspace == w.desk.workspace;
  }

  // ---- the whole layout ----

  lemma OwnEntryMatches(current: seq<ActiveWindow>, i: nat)
    requires i < |current|
    ensures Matches(current[i], ExportWindow(current[i]))
    ensures FirstMatch(current, ExportWindow(current[i])).Some?
    ensures FirstMatch(current, ExportWindow(current[i])).value <= i
    ensures NoCrossMatch(current) ==> FirstMatch(current, ExportWindow(current[i])).value == i
  {
    assert Matches(current[i], ExportWindow(current[i]));
  }

  lemma OwnEntryApplied(p: Progress, s: State, order: seq<string>, i: nat, n: Native)
    requires Records(s) && Enumerates(order, s.windows.Keys) && i < |order| && p.state == s
    requires NoCrossMatch(Listed(s, order))
    ensures var current := Listed(s, order);
            ApplyEntry(p, current, ExportWindow(current[i]), n)
            == Progress(s, p.result.(untouched := p.result.untouched + [order[i]]), p.matched + {order[i]}, true)
  {
    var current := Listed(s, order);
    OwnEntryMatches(current, i);
    ReconciledIsIdentity(s, order[i], n);
  }

  /** After `k` entries nothing has changed and the first `k` windows are matched and untouched. */
  ghost predicate Untouched(p: Progress, s: State, order: seq<string>, k: nat) {
    && k <= |order|
    && p.ok && p.state == s && p.result == NOTHING.(untouched := order[..k])
    && forall i :: 0 <= i < k ==> order[i] in p.matched
  }

  lemma UntouchedStep(p: Progress, s: State, order: seq<string>, k: nat, n: Native)
    requires Records(s) && Enumerates(order, s.windows.Keys) && k < |order|
    requires NoCrossMatch(Listed(s, order)) && Untouched(p, s, order, k)
    ensures Untouched(ApplyEntry(p, Listed(s, order), ExportWindow(Listed(s, order)[k]), n), s, order, k + 1)
  {
    hide ApplyEntry, Matches, NoCrossMatch;
    OwnEntryApplied(p, s, order, k, n);
    assert order[..k + 1] == order[..k] + [order[k]];
  }

  /** The progress after the first `k` exported entries. */
  function After(s: State, current: seq<ActiveWindow>, k: nat, env: nat -> Native): Progress
    requires k <= |current|
  {
    ApplyEntries(s, current, Export(current[..k]), env)
  }

  lemma AfterNext(s: State, current: seq<ActiveWindow>, k: nat, env: nat -> Native)
    requires k < |current| && After(s, current, k, env).ok
    ensures After(s, current, k + 1, env)
            == ApplyEntry(After(s, current, k, env), current, ExportWindow(current[k]), env(k))
  {
    assert Export(current[..k + 1])[..k] == Export(current[..k]);
  }

  lemma {:induction false} EntriesIdentity(s: State, order: seq<string>, k: nat, env: nat -> Native)
    requires Records(s) && Enumerates(order, s.windows.Keys)
    requires NoCrossMatch(Listed(s, order)) && k <= |order|
    ensures Untouched(After(s, Listed(s, order), k, env), s, order, k)
  {
    hide NoCrossMatch, ApplyEntry, Records;
    if k > 0 {
      var current := Listed(s, order);
      hide Untouched, After, Listed;
      EntriesIdentity(s, order, k - 1, env);
      UntouchedStep(After(s, current, k - 1, env), s, order, k - 1, env(k - 1));
      AfterNext(s, current, k - 1, env);
    }
  }

  lemma {:induction false} NothingPruned(s: State, current: seq<ActiveWindow>, matched: set<string>, env: nat -> Native)
    requires forall i :: 0 <= i < |current| ==> current[i].windowSessionId in matched
    ensures Pruned(s, current, matched, env) == (s, [])
  {
    if current != [] {
      NothingPruned(s, current[..|current| - 1], matched, env);
    }
  }

  lemma AppliedIdentity(s: State, order: seq<string>, query: Query, prune: bool, env: nat -> Native,
                        closes: nat -> Native)
    requires Records(s) && Enumerates(order, s.windows.Keys)
    requires Refresh(s, order, query) == (s, true)
    requires NoCrossMatch(Listed(s, order))
    ensures Applied(s, order, query, Export(Listed(s, order)), prune, env, closes)
            == (s, Some(NOTHING.(untouched := order)))
  {
    var current := Listed(s, order);
    EntriesIdentity(s, order, |order|, env);
    assert current[..|order|] == current && order[..|order|] == order;
    NothingPruned(s, current, ApplyEntries(s, current, Export(current), env).matched, closes);
  }

  /** The registry an export sees answers an unchanged refresh unchanged. */
  lemma RefreshedIsStable(s0: State, order: seq<string>, query: Query)
    requires Records(s0) && Enumerates(order, s0.windows.Keys) && Refresh(s0, order, query).1
    ensures var s := Refresh(s0, order, query).0;
            Records(s) && s.windows.Keys == s0.windows.Keys && Refresh(s, order, query) == (s, true)
  {
    var s := Refresh(s0, order, query).0;
    RefreshSpec(s0, order, query);
    forall k | k in order
      ensures s.windows[k].window.desk
              == Place(s.windows[k].window.desk, query(k).value.index, query(k).value.all)
    {
      PlaceIdempotent(s0.windows[k].window.desk, query(k).value.index, query(k).value.all);
    }
    RefreshTwice(s, order, query);
  }

  // ---- exactly when ----

  /** Which listed window the exported entry of window `j` finds. */
  function Target(current: seq<ActiveWindow>, j: nat): (i: nat)
    requires j < |current|
    ensures i <= j && Matches(current[i], ExportWindow(current[j]))
    ensures i < j <==> exists k :: 0 <= k < j && Matches(current[k], ExportWindow(current[j]))
  {
    OwnEntryMatches(current, j);
    FirstMatch(current, ExportWindow(current[j])).value
  }

  /** A map that never moves forward and reaches everything moves nothing. */
  lemma {:induction false} OntoIsIdentity(f: seq<nat>, k: nat)
    requires forall j :: 0 <= j < |f| ==> f[j] <= j
    requires forall i :: 0 <= i < |f| ==> i in f
    requires k < |f|
    ensures f[k] == k
    decreases |f| - k
  {
    assert k in f;
    var m :| 0 <= m < |f| && f[m] == k;
    if m > k {
      OntoIsIdentity(f, m);
    }
  }

  lemma {:induction false} EffectsKeepKeys(s: State, id: string, effects: seq<Effect>, n: Native)
    ensures RunEffects(s, id, effects, n).0.windows.Keys == s.windows.Keys
    decreases |effects|
  {
    if effects != [] && id in s.windows {
      if effects[0].observation.Some? {
        EffectsKeepKeys(Step(s, Observed(id, effects[0].observation.value)), id, effects[1..], n);
      } else {
        EffectsKeepKeys(s, id, effects[1..], n);
      }
    }
  }

  lemma ReconciledKeepsKeys(s: State, w: ActiveWindow, spec: WindowSpec, n: Native)
    ensures Reconciled(s, w, spec, n).0.windows.Keys == s.windows.Keys
  {
    hide Observe, ValidateDescription, GeometryChanged, ResolveWorkspace, ResizeEffects, RunEffects, FocusOn;
    var id := w.windowSessionId;
    var s1 := if spec.description.Some? && w.description != spec.description
              then Tagged(s, id, spec.description.value, n) else s;
    if spec.geometry.Some? {
      var g := spec.geometry.value;
      var workspace := if g.workspace.Some? then ResolveWorkspace(g.workspace.value, n) else None;
      EffectsKeepKeys(s1, id, ResizeEffects(g, workspace), n);
    }
  }

  function FoundBy(current: seq<ActiveWindow>): (f: seq<nat>)
    ensures |f| == |current| && forall j :: 0 <= j < |f| ==> f[j] <= j && f[j] == Target(current, j)
  {
    seq(|current|, j requires 0 <= j < |current| => Target(current, j))
  }

  function Ids(current: seq<ActiveWindow>): (ids: seq<string>)
    ensures |ids| == |current| && forall i :: 0 <= i < |ids| ==> ids[i] == current[i].windowSessionId
  {
    seq(|current|, i requires 0 <= i < |current| => current[i].windowSessionId)
  }

  /** The ids that the first `k` entries find. */
  function Reached(ids: seq<string>, f: seq<nat>, k: nat): (r: set<string>)
    requires |ids| == |f| && k <= |f| && forall j :: 0 <= j < |f| ==> f[j] <= j
    ensures forall j :: 0 <= j < k ==> ids[f[j]] in r
    ensures forall id :: id in r ==> exists j :: 0 <= j < k && ids[f[j]] == id
  {
    if k == 0 then {} else Reached(ids, f, k - 1) + {ids[f[k - 1]]}
  }

  /** Every id is found exactly when each entry finds its own. */
  lemma AllReached(ids: seq<string>, f: seq<nat>)
    requires |ids| == |f| && forall j :: 0 <= j < |f| ==> f[j] <= j
    requires forall i, j :: 0 <= i < j < |ids| ==> ids[i] != ids[j]
    requires forall i :: 0 <= i < |ids| ==> ids[i] in Reached(ids, f, |f|)
    ensures forall j :: 0 <= j < |f| ==> f[j] == j
  {
    forall i | 0 <= i < |f| ensures i in f {
      assert ids[i] in Reached(ids, f, |f|);
      var j :| 0 <= j < |f| && ids[f[j]] == ids[i];
      assert f[j] == i;
    }
    forall j | 0 <= j < |f| ensures f[j] == j {
      OntoIsIdentity(f, j);
    }
  }

  lemma NoCrossMatchIff(current: seq<ActiveWindow>)
    ensures NoCrossMatch(current) <==> forall j :: 0 <= j < |current| ==> Target(current, j) == j
  {
    if NoCrossMatch(current) {
      forall j | 0 <= j < |current| ensures Target(current, j) == j {
        OwnEntryMatches(current, j);
      }
    } else {
      var i, j :| 0 <= i < j < |current| && Matches(current[i], ExportWindow(current[j]));
      assert Target(current, j) < j;
    }
  }

  lemma EntryMatched(p: Progress, current: seq<ActiveWindow>, j: nat, n: Native)
    requires j < |current|
    ensures var r := ApplyEntry(p, current, ExportWindow(current[j]), n);
            && r.ok && r.state.windows.Keys == p.state.windows.Keys
            && r.matched == p.matched + {current[Target(current, j)].windowSessionId}
  {
    OwnEntryMatches(current, j);
    ReconciledKeepsKeys(p.state, current[Target(current, j)], ExportWindow(current[j]), n);
  }

  ghost predicate MatchedUpTo(p: Progress, s: State, current: seq<ActiveWindow>, k: nat) {
    && k <= |current|
    && p.ok && p.state.windows.Keys == s.windows.Keys
    && p.matched == Reached(Ids(current), FoundBy(current), k)
  }

  lemma MatchedStep(p: Progress, s: State, current: seq<ActiveWindow>, k: nat, n: Native)
    requires k < |current| && MatchedUpTo(p, s, current, k)
    ensures MatchedUpTo(ApplyEntry(p, current, ExportWindow(current[k]), n), s, current, k + 1)
  {
    EntryMatched(p, current, k, n);
    var ids, f := Ids(current), FoundBy(current);
    assert ids[f[k]] == current[Target(current, k)].windowSessionId;
  }

  lemma NothingMatchedYet(s: State, current: seq<ActiveWindow>, env: nat -> Native)
    ensures MatchedUpTo(After(s, current, 0, env), s, current, 0)
  {
  }

  lemma {:induction false} EntriesMatched(s: State, current: seq<ActiveWindow>, k: nat, env: nat -> Native)
    requires k <= |current|
    ensures MatchedUpTo(After(s, current, k, env), s, current, k)
  {
    hide ApplyEntry, After, Reached, FoundBy, Ids;
    if k == 0 {
      NothingMatchedYet(s, current, env);
    } else {
      EntriesMatched(s, current, k - 1, env);
      MatchedStep(After(s, current, k - 1, env), s, current, k - 1, env(k - 1));
      AfterNext(s, current, k - 1, env);
    }
  }

  /** What pruning closes, exactly the unmatched windows whose close works, and what it leaves as it was. */
  ghost predicate PrunedWell(s: State, current: seq<ActiveWindow>, matched: set<string>, env: nat -> Native, s1: State,
                             closed: seq<string>)
  {
    && (forall i :: 0 <= i < |current| ==>
          (current[i].windowSessionId in closed <==> current[i].windowSessionId !in matched && env(i).closed))
    && (forall id :: id in closed ==> IdOf(current, id))
    && (forall id :: id in s1.windows <==> id in s.windows && id !in closed)
    && (forall id :: id in s1.windows ==> s1.windows[id] == s.windows[id])
  }

  ghost predicate IdOf(current: seq<ActiveWindow>, id: string) {
    exists i :: 0 <= i < |current| && current[i].windowSessionId == id
  }

  /** The last window is not among those closed before it. */
  lemma LastStillOpen(s: State, current: seq<ActiveWindow>, matched: set<string>, env: nat -> Native, s1: State,
                      closed: seq<string>)
    requires current != [] && DistinctIds(current) && current[|current| - 1].windowSessionId in s.windows
    requires PrunedWell(s, current[..|current| - 1], matched, env, s1, closed)
    ensures var id := current[|current| - 1].windowSessionId; id in s1.windows && id !in closed && IdOf(current, id)
    ensures forall x :: x in closed ==> IdOf(current, x)
  {
    var last := |current| - 1;
    forall x | x in closed
      ensures IdOf(current, x) && x != current[last].windowSessionId
    {
      assert IdOf(current[..last], x);
      var i :| 0 <= i < last && current[..last][i].windowSessionId == x;
      assert current[i].windowSessionId == x;
    }
  }

  lemma PrunedOneMore(s: State, current: seq<ActiveWindow>, matched: set<string>, env: nat -> Native, s1: State,
                      closed: seq<string>)
    requires current != [] && DistinctIds(current) && current[|current| - 1].windowSessionId in s.windows
    requires PrunedWell(s, current[..|current| - 1], matched, env, s1, closed)
    ensures var last := |current| - 1;
            var id := current[last].windowSessionId;
            && id in s1.windows
            && if id !in matched && env(last).closed
               then PrunedWell(s, current, matched, env, Step(s1, Removed(id)), closed + [id])
               else PrunedWell(s, current, matched, env, s1, closed)
  {
    LastStillOpen(s, current, matched, env, s1, closed);
    hide Observe, FocusOn, SetFocus, IdOf;
    assert forall i :: 0 <= i < |current| - 1 ==> current[..|current| - 1][i] == current[i];
  }

  lemma {:induction false} PrunedSpec(s: State, current: seq<ActiveWindow>, matched: set<string>, env: nat -> Native)
    requires forall i :: 0 <= i < |current| ==> current[i].windowSessionId in s.windows
    requires DistinctIds(current)
    ensures var (s1, closed) := Pruned(s, current, matched, env); PrunedWell(s, current, matched, env, s1, closed)
  {
    hide PrunedWell, Step;
    if current == [] {
      NothingPrunedWell(s, matched, env);
    } else {
      var last := |current| - 1;
      PrunedSpec(s, current[..last], matched, env);
      var (s1, closed) := Pruned(s, current[..last], matched, env);
      PrunedOneMore(s, current, matched, env, s1, closed);
    }
  }

  lemma NothingPrunedWell(s: State, matched: set<string>, env: nat -> Native)
    ensures PrunedWell(s, [], matched, env, s, [])
  {
  }

  lemma {:induction false} AppliedIs(s: State, order: seq<string>, query: Query, env: nat -> Native,
                                     closes: nat -> Native)
    requires Enumerates(order, s.windows.Keys) && Refresh(s, order, query) == (s, true)
    ensures var current := Listed(s, order);
            var p := ApplyEntries(s, current, Export(current), env);
            var (s1, closed) := Pruned(p.state, current, p.matched, closes);
            && Applied(s, order, query, Export(current), true, env, closes)
               == (s1, Some(p.result.(closed := closed)))
            && p.state.windows.Keys == s.windows.Keys
            && p.matched == ReachedBy(current)
  {
    hide ApplyEntries, Pruned, Reached, FoundBy, Ids;
    var current := Listed(s, order);
    assert current[..|order|] == current;
    EntriesMatched(s, current, |order|, env);
  }

  ghost predicate AllIn(current: seq<ActiveWindow>, matched: set<string>) {
    forall i :: 0 <= i < |current| ==> current[i].windowSessionId in matched
  }

  function ReachedBy(current: seq<ActiveWindow>): set<string> { Reached(Ids(current), FoundBy(current), |current|) }

  lemma FoundImpliesNoCrossMatch(current: seq<ActiveWindow>)
    requires DistinctIds(current)
    requires AllIn(current, ReachedBy(current))
    ensures NoCrossMatch(current)
  {
    var ids, f := Ids(current), FoundBy(current);
    AllReached(ids, f);
    forall j | 0 <= j < |current| ensures Target(current, j) == j {
      assert f[j] == j;
    }
    NoCrossMatchIff(current);
  }

  lemma NoCrossMatchImpliesFound(current: seq<ActiveWindow>)
    requires NoCrossMatch(current)
    ensures AllIn(current, ReachedBy(current))
  {
    var ids, f := Ids(current), FoundBy(current);
    NoCrossMatchIff(current);
    forall i | 0 <= i < |current| ensures current[i].windowSessionId in Reached(ids, f, |current|) {
      assert ids[f[i]] in Reached(ids, f, |current|);
    }
  }

  lemma AllFoundIff(current: seq<ActiveWindow>)
    requires DistinctIds(current)
    ensures AllIn(current, ReachedBy(current)) <==> NoCrossMatch(current)
  {
    if NoCrossMatch(current) {
      NoCrossMatchImpliesFound(current);
    } else if AllIn(current, ReachedBy(current)) {
      FoundImpliesNoCrossMatch(current);
    }
  }

  lemma ClosedIffUnmatched(s: State, current: seq<ActiveWindow>, matched: set<string>, env: nat -> Native)
    requires forall i :: 0 <= i < |current| ==> current[i].windowSessionId in s.windows && env(i).closed
    requires DistinctIds(current)
    ensures var (s1, closed) := Pruned(s, current, matched, env);
            && (closed == [] <==> AllIn(current, matched))
            && (s1.windows.Keys == s.windows.Keys <==> closed == [])
  {
    PrunedSpec(s, current, matched, env);
    var (s1, closed) := Pruned(s, current, matched, env);
    if closed != [] {
      assert closed[0] in closed && IdOf(current, closed[0]);
      assert closed[0] in s.windows && closed[0] !in s1.windows;
    }
  }

  /** The exact condition: with pruning and working closes, applying the exported layout keeps every
      window open if and only if no window matches the exported entry of a later one. Two windows on the
      same URL are enough to lose the second. */
  lemma {:induction false} PruneKeepsAllIff(s: State, order: seq<string>, query: Query, env: nat -> Native,
                                            closes: nat -> Native)
    requires Records(s) && Enumerates(order, s.windows.Keys)
    requires Refresh(s, order, query) == (s, true)
    requires forall i :: 0 <= i < |order| ==> closes(i).closed
    ensures var (s1, r) := Applied(s, order, query, Export(Listed(s, order)), true, env, closes);
            && r.Some?
            && (r.value.closed == [] <==> NoCrossMatch(Listed(s, order)))
            && (s1.windows.Keys == s.windows.Keys <==> NoCrossMatch(Listed(s, order)))
  {
    hide Refresh, Records, ApplyEntries, Applied, Pruned, Listed, Export;
    hide Reached, FoundBy, Ids, NoCrossMatch, ReachedBy, AllIn, Matches, ExportWindow;
    var current := Listed(s, order);
    var p := ApplyEntries(s, current, Export(current), env);
    AppliedIs(s, order, query, env, closes);
    ListedIds(s, order);
    hide Enumerates;
    AllFoundIff(current);
    hide DistinctIds;
    ClosedIffUnmatched(p.state, current, p.matched, closes);
  }

  ghost predicate DistinctIds(current: seq<ActiveWindow>) {
    forall i, j :: 0 <= i < j < |current| ==> current[i].windowSessionId != current[j].windowSessionId
  }

  lemma ListedIds(s: State, order: seq<string>)
    requires Records(s) && Enumerates(order, s.windows.Keys)
    ensures var current := Listed(s, order);
            DistinctIds(current) && forall i :: 0 <= i < |current| ==> current[i].windowSessionId in s.windows
  {
  }

  /** What one exported entry adds to the lists: the id of the window it finds, to one of two. */
  lemma EntryLists(p: Progress, current: seq<ActiveWindow>, j: nat, n: Native)
    requires j < |current|
    ensures var r := ApplyEntry(p, current, ExportWindow(current[j]), n);
            var id := current[Target(current, j)].windowSessionId;
            && r.ok
            && (r.result == p.result.(untouched := p.result.untouched + [id])
                || r.result == p.result.(updated := p.result.updated + [id]))
  {
    hide Reconciled;
    OwnEntryMatches(current, j);
  }

  /** As long as nothing counts as updated, the untouched windows are the ones the entries found. */
  ghost predicate ListsFound(p: Progress, current: seq<ActiveWindow>, k: nat)
    requires k <= |current|
  {
    && p.ok && |p.result.untouched| <= k
    && (|p.result.untouched| == k ==>
          forall j :: 0 <= j < k ==> p.result.untouched[j] == current[Target(current, j)].windowSessionId)
  }

  lemma ListsFoundStep(p: Progress, current: seq<ActiveWindow>, k: nat, n: Native)
    requires k < |current| && ListsFound(p, current, k)
    ensures ListsFound(ApplyEntry(p, current, ExportWindow(current[k]), n), current, k + 1)
  {
    EntryLists(p, current, k, n);
    hide ApplyEntry, Target;
  }

  lemma NothingListed(s: State, current: seq<ActiveWindow>, env: nat -> Native)
    ensures ListsFound(After(s, current, 0, env), current, 0)
  {
  }

  lemma {:induction false} EntriesList(s: State, current: seq<ActiveWindow>, k: nat, env: nat -> Native)
    requires k <= |current|
    ensures ListsFound(After(s, current, k, env), current, k)
  {
    hide ApplyEntry, After, Target;
    if k == 0 {
      NothingListed(s, current, env);
    } else {
      EntriesList(s, current, k - 1, env);
      ListsFoundStep(After(s, current, k - 1, env), current, k - 1, env(k - 1));
      AfterNext(s, current, k - 1, env);
    }
  }

  /** An apply that reports every window unchanged found each window by its own entry. */
  lemma {:induction false} AllUntouchedMeans(s: State, order: seq<string>, query: Query, prune: bool,
                                             env: nat -> Native, closes: nat -> Native)
    requires Records(s) && Enumerates(order, s.windows.Keys) && Refresh(s, order, query) == (s, true)
    requires Applied(s, order, query, Export(Listed(s, order)), prune, env, closes)
             == (s, Some(NOTHING.(untouched := order)))
    ensures NoCrossMatch(Listed(s, order))
  {
    var current := Listed(s, order);
    assert current[..|order|] == current;
    EntriesList(s, current, |order|, env);
    ListedIds(s, order);
    var p := ApplyEntries(s, current, Export(current), env);
    assert p.result.untouched == order;
    forall j | 0 <= j < |current|
      ensures Target(current, j) == j
    {
      assert order[j] == current[Target(current, j)].windowSessionId;
      assert order[j] == current[j].windowSessionId;
    }
    NoCrossMatchIff(current);
  }

  /** The exact condition of the round trip: with or without pruning and whichever native calls fail, applying the
      exported layout is the identity, with every window reported unchanged, if and only if no listed window
      matches the exported entry of a later one. */
  lemma {:induction false} RoundTripIff(s: State, order: seq<string>, query: Query, prune: bool,
                                        env: nat -> Native, closes: nat -> Native)
    requires Records(s) && Enumerates(order, s.windows.Keys) && Refresh(s, order, query) == (s, true)
    ensures Applied(s, order, query, Export(Listed(s, order)), prune, env, closes)
            == (s, Some(NOTHING.(untouched := order)))
            <==> NoCrossMatch(Listed(s, order))
  {
    hide Applied, NoCrossMatch;
    if NoCrossMatch(Listed(s, order)) {
      AppliedIdentity(s, order, query, prune, env, closes);
    } else if Applied(s, order, query, Export(Listed(s, order)), prune, env, closes)
              == (s, Some(NOTHING.(untouched := order))) {
      AllUntouchedMeans(s, order, query, prune, env, closes);
    }
  }

  /** In every reachable registry: after an export, applying the exported layout reports every window unchanged,
      creates, updates and closes none even when pruning, and leaves every record equal, whichever native calls
      fail, if and only if no listed window matches the exported entry of a later one. */
  lemma {:induction false} ExportThenApplyIff(events: seq<Event>, order: seq<string>, query: Query, prune: bool,
                                              env: nat -> Native, closes: nat -> Native)
    requires HostRun(events) && FocusCount(events) < U64
    requires Enumerates(order, Run(events).windows.Keys) && Refresh(Run(events), order, query).1
    ensures var s := Refresh(Run(events), order, query).0;
            && s.windows.Keys == Run(events).windows.Keys
            && (Applied(s, order, query, Export(Listed(s, order)), prune, env, closes)
                == (s, Some(NOTHING.(untouched := order)))
                <==> NoCrossMatch(Listed(s, order)))
  {
    ReachableInv(events);
    RefreshedIsStable(Run(events), order, query);
    hide Applied, NoCrossMatch, Inv, Run, HostRun;
    RoundTripIff(Refresh(Run(events), order, query).0, order, query, prune, env, closes);
  }

  /** Two windows opened on the same URL: the export does not apply back. */
  lemma SameUrlCrossMatches(a: string, b: string, url: string)
    ensures !NoCrossMatch([OpenedWeb(a, url, None, None), OpenedWeb(b, url, None, None)])
  {
    var current := [OpenedWeb(a, url, None, None), OpenedWeb(b, url, None, None)];
    assert Matches(current[0], ExportWindow(current[1]));
  }
}
