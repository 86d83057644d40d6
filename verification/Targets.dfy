/** Target resolution: which window a textual target means. `lower` stands for `str::to_lowercase`;
    every result holds for any such function. `order` enumerates the registry's keys; the results
    hold for every enumeration, so also for the ascending one of a `BTreeMap`. */
module Targets {
  import opened Wrappers
  import opened Protocol
  import opened Text
  import opened Windows
  import opened Registry

  type Lower = string -> string

  ghost predicate Enumerates(order: seq<string>, keys: set<string>) {
    && (forall i :: 0 <= i < |order| ==> order[i] in keys)
    && (forall i, j :: 0 <= i < j < |order| ==> order[i] != order[j])
    && (forall k :: k in keys ==> k in order)
  }

  predicate FuzzyMatch(w: ActiveWindow, part: string, lower: Lower) {
    || (w.description.Some? && Contains(lower(w.description.value), part))
    || Contains(lower(w.page.title), part)
    || Contains(lower(w.requestedSource), part)
    || (w.page.currentUrl.Some? && Contains(lower(w.page.currentUrl.value), part))
  }

  /** The filter chosen by the lower-cased target. */
  predicate Selects(w: ActiveWindow, target: string, lower: Lower) {
    var t := lower(target);
    if t == "focused" then w.isFocused
    else if t == "maximized" then w.geometry.isMaximized
    else FuzzyMatch(w, t, lower)
  }

  predicate OnWorkspace(w: ActiveWindow, index: nat) {
    w.desk.workspace == Some(index) || w.desk.isOnAllWorkspaces
  }

  /** A matching window as the sort sees it: its key, its own id and its focus order. */
  datatype Candidate = Candidate(key: string, windowId: string, focusOrder: nat)

  function AsCandidate(s: State, key: string): Candidate
    requires key in s.windows
  {
    Candidate(key, s.windows[key].window.windowSessionId, s.windows[key].focusOrder)
  }

  /** The windows that satisfy a filter, in enumeration order. */
  function Candidates(s: State, order: seq<string>, keep: ActiveWindow -> bool): (r: seq<Candidate>)
    requires forall i :: 0 <= i < |order| ==> order[i] in s.windows
  {
    if order == [] then []
    else (if keep(s.windows[order[0]].window) then [AsCandidate(s, order[0])] else []) + Candidates(s, order[1..], keep)
  }

  function InsertByFocus(c: Candidate, sorted: seq<Candidate>): (r: seq<Candidate>)
    ensures |r| == |sorted| + 1
  {
    if sorted == [] || c.focusOrder >= sorted[0].focusOrder then [c] + sorted
    else [sorted[0]] + InsertByFocus(c, sorted[1..])
  }

  /** The stable sort, most recently focused first. */
  function SortByFocus(cs: seq<Candidate>): (r: seq<Candidate>)
    ensures |r| == |cs|
  {
    if cs == [] then [] else InsertByFocus(cs[0], SortByFocus(cs[1..]))
  }

  function Newest(cs: seq<Candidate>, target: string): Result<string, CoreError> {
    if cs == [] then Err(TargetNotFound(target))
    else if |cs| == 1 then Ok(cs[0].key)
    else
      var sorted := SortByFocus(cs);
      if sorted[1].focusOrder == sorted[0].focusOrder && sorted[1].windowId != sorted[0].windowId
      then Err(TargetAmbiguous(target))
      else Ok(sorted[0].windowId)
  }

  function ResolveTarget(s: State, order: seq<string>, target: string, lower: Lower): Result<string, CoreError>
    requires forall i :: 0 <= i < |order| ==> order[i] in s.windows
  {
    if target in s.windows then Ok(target)
    else if StartsWith(target, "wsess_") then Err(TargetNotFound(target))
    else Newest(Candidates(s, order, w => Selects(w, target, lower)), target)
  }

  function ResolveWorkspaceIndex(s: State, order: seq<string>, index: nat): Result<string, CoreError>
    requires forall i :: 0 <= i < |order| ==> order[i] in s.windows
  {
    Newest(Candidates(s, order, w => OnWorkspace(w, index)), "workspace")
  }

  // ---- the sort ----

  ghost predicate Descending(cs: seq<Candidate>) {
    forall i, j :: 0 <= i < j < |cs| ==> cs[i].focusOrder >= cs[j].focusOrder
  }

  ghost predicate Distinct(cs: seq<Candidate>) {
    forall i, j :: 0 <= i < j < |cs| ==> cs[i].key != cs[j].key
  }

  lemma {:induction false} InsertSorted(c: Candidate, sorted: seq<Candidate>)
    requires Descending(sorted) && Distinct(sorted)
    requires forall x :: x in sorted ==> x.key != c.key
    ensures Descending(InsertByFocus(c, sorted)) && Distinct(InsertByFocus(c, sorted))
    ensures forall x :: x in InsertByFocus(c, sorted) <==> x == c || x in sorted
  {
    if sorted != [] && c.focusOrder < sorted[0].focusOrder {
      assert sorted == [sorted[0]] + sorted[1..];
      InsertSorted(c, sorted[1..]);
      var rest := InsertByFocus(c, sorted[1..]);
      forall i | 0 <= i < |rest|
        ensures rest[i].focusOrder <= sorted[0].focusOrder && rest[i].key != sorted[0].key
      {
        assert rest[i] in rest;
      }
    }
  }

  lemma {:induction false} SortSorted(cs: seq<Candidate>)
    requires Distinct(cs)
    ensures Descending(SortByFocus(cs)) && Distinct(SortByFocus(cs))
    ensures forall x :: x in SortByFocus(cs) <==> x in cs
  {
    if cs != [] {
      assert cs == [cs[0]] + cs[1..];
      SortSorted(cs[1..]);
      forall x | x in SortByFocus(cs[1..])
        ensures x.key != cs[0].key
      {
        assert x in cs[1..];
      }
      InsertSorted(cs[0], SortByFocus(cs[1..]));
    }
  }

  // ---- the winner ----

  /** `c` was focused after every other candidate. */
  ghost predicate StrictlyNewest(cs: seq<Candidate>, c: Candidate) {
    c in cs && forall x :: x in cs && x != c ==> x.focusOrder < c.focusOrder
  }

  /** The window chosen is the strictly newest candidate; with none strictly newest the target is ambiguous. */
  lemma NewestSpec(cs: seq<Candidate>, target: string)
    requires Distinct(cs) && forall c :: c in cs ==> c.windowId == c.key
    ensures cs == [] ==> Newest(cs, target) == Err(TargetNotFound(target))
    ensures forall c :: StrictlyNewest(cs, c) ==> Newest(cs, target) == Ok(c.key)
    ensures cs != [] && (forall c :: !StrictlyNewest(cs, c)) ==> Newest(cs, target) == Err(TargetAmbiguous(target))
  {
    if |cs| == 1 {
      assert StrictlyNewest(cs, cs[0]);
    } else if |cs| >= 2 {
      var sorted := SortByFocus(cs);
      SortSorted(cs);
      assert sorted[0] in cs && sorted[1] in cs;
      assert sorted[0].key != sorted[1].key;
      if sorted[1].focusOrder < sorted[0].focusOrder {
        assert StrictlyNewest(cs, sorted[0]);
      }
    }
  }

  lemma {:induction false} CandidatesAre(s: State, order: seq<string>, keep: ActiveWindow -> bool)
    requires forall i :: 0 <= i < |order| ==> order[i] in s.windows
    requires forall i, j :: 0 <= i < j < |order| ==> order[i] != order[j]
    ensures forall c :: c in Candidates(s, order, keep)
                        <==> c.key in order && keep(s.windows[c.key].window) && c == AsCandidate(s, c.key)
    ensures Distinct(Candidates(s, order, keep))
  {
    if order != [] {
      CandidatesAre(s, order[1..], keep);
      assert order == [order[0]] + order[1..];
      var rest := Candidates(s, order[1..], keep);
      forall i | 0 <= i < |rest|
        ensures rest[i].key != order[0]
      {
        assert rest[i] in rest;
      }
    }
  }

  /** The ids a filter matches. */
  ghost function Matching(s: State, keep: ActiveWindow -> bool): set<string> {
    set k | k in s.windows && keep(s.windows[k].window)
  }

  /** `id` is the only match, or it was focused after every other match. */
  ghost predicate FocusedLast(s: State, m: set<string>, id: string)
    requires m <= s.windows.Keys
  {
    id in m && forall k :: k in m && k != id ==> s.windows[k].focusOrder < s.windows[id].focusOrder
  }

  lemma CandidatesMatch(s: State, order: seq<string>, keep: ActiveWindow -> bool)
    requires Enumerates(order, s.windows.Keys)
    ensures var cs, m := Candidates(s, order, keep), Matching(s, keep);
            && Distinct(cs)
            && (cs == [] <==> m == {})
            && (forall k :: k in m ==> AsCandidate(s, k) in cs)
            && (forall c :: c in cs ==> c.key in m && c == AsCandidate(s, c.key))
  {
    CandidatesAre(s, order, keep);
    var cs, m := Candidates(s, order, keep), Matching(s, keep);
    if cs != [] {
      assert cs[0] in cs;
      assert cs[0].key in m;
    }
    if m != {} {
      var k :| k in m;
      assert AsCandidate(s, k) in cs;
    }
  }

  lemma StrictlyNewestMatch(s: State, cs: seq<Candidate>, m: set<string>, c: Candidate)
    requires m <= s.windows.Keys
    requires forall k :: k in m ==> AsCandidate(s, k) in cs
    requires forall c :: c in cs ==> c.key in m && c == AsCandidate(s, c.key)
    ensures StrictlyNewest(cs, c) <==> FocusedLast(s, m, c.key) && c == AsCandidate(s, c.key)
  {
    if StrictlyNewest(cs, c) {
      forall k | k in m && k != c.key
        ensures s.windows[k].focusOrder < s.windows[c.key].focusOrder
      {
        assert AsCandidate(s, k) in cs;
      }
    }
  }

  /** A filter resolves to the window focused last among those it matches. */
  lemma ResolvesByRecency(s: State, order: seq<string>, keep: ActiveWindow -> bool, target: string)
    requires Enumerates(order, s.windows.Keys)
    requires forall k :: k in s.windows ==> s.windows[k].window.windowSessionId == k
    ensures var r, m := Newest(Candidates(s, order, keep), target), Matching(s, keep);
            && (r == Err(TargetNotFound(target)) <==> m == {})
            && (r == Err(TargetAmbiguous(target)) <==> m != {} && !exists id :: FocusedLast(s, m, id))
            && (forall id :: r == Ok(id) <==> FocusedLast(s, m, id))
  {
    var cs, m := Candidates(s, order, keep), Matching(s, keep);
    CandidatesMatch(s, order, keep);
    NewestSpec(cs, target);
    if id :| FocusedLast(s, m, id) {
      StrictlyNewestMatch(s, cs, m, AsCandidate(s, id));
    } else {
      forall c ensures !StrictlyNewest(cs, c) {
        StrictlyNewestMatch(s, cs, m, c);
      }
    }
  }

  /** Some match was focused last, unless several match and none was ever focused. */
  lemma {:induction false} SomeFocusedLast(s: State, m: set<string>)
    requires Recency(s) && m <= s.windows.Keys && m != {}
    ensures (exists id :: FocusedLast(s, m, id)) <==> |m| == 1 || exists k :: k in m && s.windows[k].focusOrder > 0
    decreases m
  {
    var k :| k in m;
    var rest := m - {k};
    hide Recency;
    if rest == {} {
      assert m == {k};
      assert FocusedLast(s, m, k);
    } else {
      SomeFocusedLast(s, rest);
      if exists i :: i in rest && s.windows[i].focusOrder > 0 {
        var id :| FocusedLast(s, rest, id);
        assert FocusedLast(s, m, if s.windows[k].focusOrder > s.windows[id].focusOrder then k else id);
      } else if s.windows[k].focusOrder > 0 {
        assert FocusedLast(s, m, k);
      } else {
        var i :| i in rest;
      }
    }
  }

  // ---- the stored order and the run ----

  /** The position in the run of the last event that focused the window since it was opened, counted from 1; 0 if
      there is none. */
  function FocusedAt(events: seq<Event>, id: string): nat {
    if events == [] then 0
    else
      var before, e := events[..|events| - 1], events[|events| - 1];
      if e.Opened? && e.window.windowSessionId == id then 0
      else if e == Focus(id, true) && id in Run(before).windows then |events|
      else FocusedAt(before, id)
  }

  lemma {:induction false} FocusedAtBound(events: seq<Event>, id: string)
    ensures FocusedAt(events, id) <= |events|
  {
    if events != [] {
      FocusedAtBound(events[..|events| - 1], id);
    }
  }

  /** What one event does to a stored order. */
  lemma OrderStep(s: State, e: Event, k: string)
    requires k in Step(s, e).windows && (e.Focus? && e.focused ==> s.focusCounter + 1 < U64)
    ensures if e.Opened? && e.window.windowSessionId == k then Step(s, e).windows[k].focusOrder == 0
            else
              && k in s.windows
              && Step(s, e).windows[k].focusOrder
                 == if e == Focus(k, true) then s.focusCounter + 1 else s.windows[k].focusOrder
  {
    hide Observe;
  }

  lemma CounterFits(events: seq<Event>)
    requires events != [] && HostRun(events) && FocusCount(events) < U64
    ensures var before, e := events[..|events| - 1], events[|events| - 1];
            && HostRun(before) && FocusCount(before) < U64 && Inv(Run(before))
            && (e.Focus? && e.focused ==> Run(before).focusCounter + 1 < U64)
  {
    ReachableInv(events[..|events| - 1]);
  }

  /** The stored focus orders are in the order of the focus events. */
  lemma {:induction false} FocusOrderIsRecency(events: seq<Event>, k: string, l: string)
    requires HostRun(events) && FocusCount(events) < U64
    requires k in Run(events).windows && l in Run(events).windows
    ensures Run(events).windows[k].focusOrder == 0 <==> FocusedAt(events, k) == 0
    ensures Run(events).windows[k].focusOrder < Run(events).windows[l].focusOrder
            <==> FocusedAt(events, k) < FocusedAt(events, l)
  {
    var before, e := events[..|events| - 1], events[|events| - 1];
    var s := Run(before);
    CounterFits(events);
    OrderStep(s, e, k);
    OrderStep(s, e, l);
    FocusedAtBound(before, k);
    FocusedAtBound(before, l);
    assert forall i :: i in s.windows ==> s.windows[i].focusOrder <= s.focusCounter;
    hide Step, Inv, HostRun, FocusCount;
    if k in s.windows && l in s.windows {
      FocusOrderIsRecency(before, k, l);
      FocusOrderIsRecency(before, l, l);
    } else if k in s.windows {
      FocusOrderIsRecency(before, k, k);
    } else if l in s.windows {
      FocusOrderIsRecency(before, l, l);
    }
  }

  /** `id` is the only one of `m`, or its last focus event came after that of every other. */
  ghost predicate LastOf(events: seq<Event>, m: set<string>, id: string) {
    id in m && forall k :: k in m && k != id ==> FocusedAt(events, k) < FocusedAt(events, id)
  }

  ghost predicate NeverFocused(events: seq<Event>, m: set<string>) {
    forall k :: k in m ==> FocusedAt(events, k) == 0
  }

  lemma LastOfIsFocusedLast(events: seq<Event>, m: set<string>, id: string)
    requires HostRun(events) && FocusCount(events) < U64 && m <= Run(events).windows.Keys
    ensures LastOf(events, m, id) <==> FocusedLast(Run(events), m, id)
    ensures NeverFocused(events, m) <==> forall k :: k in m ==> Run(events).windows[k].focusOrder == 0
  {
    forall k | k in m
      ensures Run(events).windows[k].focusOrder == 0 <==> FocusedAt(events, k) == 0
    {
      FocusOrderIsRecency(events, k, k);
    }
    if id in m {
      forall k | k in m
        ensures Run(events).windows[k].focusOrder < Run(events).windows[id].focusOrder
                <==> FocusedAt(events, k) < FocusedAt(events, id)
      {
        FocusOrderIsRecency(events, k, id);
      }
    }
  }

  /** What a filter that matches `m` resolves to after the run: the match focused last; nothing when there is no
      match; and ambiguous exactly when several match and none was ever focused. */
  ghost predicate ByRecency(events: seq<Event>, m: set<string>, target: string, r: Result<string, CoreError>) {
    && (r == Err(TargetNotFound(target)) <==> m == {})
    && (r == Err(TargetAmbiguous(target)) <==> |m| >= 2 && NeverFocused(events, m))
    && (forall id :: r == Ok(id) <==> LastOf(events, m, id))
  }

  lemma {:induction false} FilterByRecency(events: seq<Event>, order: seq<string>, keep: ActiveWindow -> bool,
                                           target: string)
    requires HostRun(events) && FocusCount(events) < U64
    requires Enumerates(order, Run(events).windows.Keys)
    ensures ByRecency(events, Matching(Run(events), keep), target, Newest(Candidates(Run(events), order, keep), target))
  {
    ReachableInv(events);
    var s := Run(events);
    var m := Matching(s, keep);
    ResolvesByRecency(s, order, keep, target);
    if m != {} {
      SomeFocusedLast(s, m);
    }
    forall id
      ensures LastOf(events, m, id) <==> FocusedLast(s, m, id)
    {
      LastOfIsFocusedLast(events, m, id);
    }
    LastOfIsFocusedLast(events, m, "");
    hide LastOf, NeverFocused, FocusedLast, Newest, Candidates;
    assert |m| == 0 <==> m == {};
  }

  /** In every reachable registry: an exact id names its own window; a stale session id is not found; any other
      target names the window focused last in the run among its matches, and "focused" is never ambiguous. */
  lemma {:induction false} ResolveTargetSpec(events: seq<Event>, order: seq<string>, target: string, lower: Lower)
    requires HostRun(events) && FocusCount(events) < U64
    requires Enumerates(order, Run(events).windows.Keys)
    ensures var r := ResolveTarget(Run(events), order, target, lower);
            if target in Run(events).windows then r == Ok(target)
            else if StartsWith(target, "wsess_") then r == Err(TargetNotFound(target))
            else
              && ByRecency(events, Matching(Run(events), w => Selects(w, target, lower)), target, r)
              && (lower(target) == "focused" ==> r != Err(TargetAmbiguous(target)))
  {
    var keep := w => Selects(w, target, lower);
    FilterByRecency(events, order, keep, target);
    if target !in Run(events).windows && !StartsWith(target, "wsess_") && lower(target) == "focused" {
      FocusedIsNotAmbiguous(events, order, target, lower);
    }
  }

  lemma {:induction false} FocusedIsNotAmbiguous(events: seq<Event>, order: seq<string>, target: string, lower: Lower)
    requires HostRun(events) && FocusCount(events) < U64
    requires Enumerates(order, Run(events).windows.Keys)
    requires target !in Run(events).windows && !StartsWith(target, "wsess_") && lower(target) == "focused"
    ensures ResolveTarget(Run(events), order, target, lower) != Err(TargetAmbiguous(target))
  {
    ReachableInv(events);
    var s := Run(events);
    var keep := w => Selects(w, target, lower);
    var m := Matching(s, keep);
    ResolvesByRecency(s, order, keep, target);
    if m != {} {
      SomeFocusedLast(s, m);
    }
  }

  lemma FocusIsLast(s: State, id: string, m: set<string>)
    requires Recency(s) && id in s.windows && s.focusCounter + 1 < U64
    requires m <= s.windows.Keys && id in m
    ensures FocusedLast(FocusOn(s, id), m, id)
  {
  }

  lemma FocusResolves(s: State, id: string, order: seq<string>, keep: ActiveWindow -> bool, target: string)
    requires Inv(s) && id in s.windows && s.focusCounter + 1 < U64
    requires Enumerates(order, s.windows.Keys) && keep(FocusOn(s, id).windows[id].window)
    ensures FocusOn(s, id).windows.Keys == s.windows.Keys
    ensures Newest(Candidates(FocusOn(s, id), order, keep), target) == Ok(id)
  {
    var after := FocusOn(s, id);
    var m := Matching(after, keep);
    ResolvesByRecency(after, order, keep, target);
    FocusIsLast(s, id, m);
  }

  /** Focusing a window makes every non-exact target that matches it resolve to it. */
  lemma {:induction false} FocusThenResolve(events: seq<Event>, id: string, order: seq<string>, target: string,
                                            lower: Lower)
    requires HostRun(events) && FocusCount(events) + 1 < U64
    requires id in Run(events).windows && Enumerates(order, Run(events).windows.Keys)
    requires target !in Run(events).windows && !StartsWith(target, "wsess_")
    requires Selects(FocusOn(Run(events), id).windows[id].window, target, lower)
    ensures ResolveTarget(FocusOn(Run(events), id), order, target, lower) == Ok(id)
  {
    ReachableInv(events);
    var before := Run(events);
    FocusResolves(before, id, order, w => Selects(w, target, lower), target);
  }

  /** The workspace form of the same rule. */
  lemma {:induction false} ResolveWorkspaceSpec(events: seq<Event>, order: seq<string>, index: nat)
    requires HostRun(events) && FocusCount(events) < U64
    requires Enumerates(order, Run(events).windows.Keys)
    ensures ByRecency(events, Matching(Run(events), w => OnWorkspace(w, index)), "workspace",
                      ResolveWorkspaceIndex(Run(events), order, index))
  {
    FilterByRecency(events, order, w => OnWorkspace(w, index), "workspace");
  }
}
