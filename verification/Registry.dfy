/** The active-window registry (`WindowRegistry`) and what every run of events keeps. */
module Registry {
  import opened Wrappers
  import opened Protocol
  import opened Text
  import opened BoundedLog
  import opened Windows

  datatype WindowRecord = WindowRecord(window: ActiveWindow, focusOrder: nat)
  datatype State = State(windows: map<string, WindowRecord>, focusCounter: nat)

  const EMPTY := State(map[], 0)
  const U64: nat := 0x1_0000_0000_0000_0000

  datatype Event =
    | Opened(window: ActiveWindow)
    | Removed(id: string)
    | Focus(id: string, focused: bool)
    | Observed(id: string, observation: Observation)

  function SetFocus(r: WindowRecord, focused: bool): WindowRecord {
    r.(window := r.window.(isFocused := focused))
  }

  /** `record_focus(id, true)`: the counter is a u64. */
  function FocusOn(s: State, id: string): State
    requires id in s.windows
  {
    var counter := (s.focusCounter + 1) % U64;
    State(map k | k in s.windows ::
            if k == id then SetFocus(s.windows[k], true).(focusOrder := counter) else SetFocus(s.windows[k], false),
          counter)
  }

  /** The registry after one event. */
  function Step(s: State, e: Event): State {
    match e
    case Opened(w) => s.(windows := s.windows[w.windowSessionId := WindowRecord(w, 0)])
    case Removed(id) => s.(windows := s.windows - {id})
    case Focus(id, focused) =>
      if id !in s.windows then s
      else if focused then FocusOn(s, id)
      else s.(windows := s.windows[id := SetFocus(s.windows[id], false)])
    case Observed(id, o) =>
      if id !in s.windows then s
      else s.(windows := s.windows[id := s.windows[id].(window := Observe(s.windows[id].window, o))])
  }

  function Run(events: seq<Event>): State {
    if events == [] then EMPTY else Step(Run(events[..|events| - 1]), events[|events| - 1])
  }

  class WindowRegistry {
    var windows: map<string, WindowRecord>
    var focusCounter: nat

    function Abs(): State
      reads this
    {
      State(windows, focusCounter)
    }

    constructor ()
      ensures Abs() == EMPTY
    {
      windows, focusCounter := map[], 0;
    }

    method Insert(window: ActiveWindow)
      modifies this
      ensures Abs() == Step(old(Abs()), Opened(window))
    {
      windows := windows[window.windowSessionId := WindowRecord(window, 0)];
    }

    method Remove(id: string) returns (removed: Option<ActiveWindow>)
      modifies this
      ensures Abs() == Step(old(Abs()), Removed(id))
      ensures removed == if id in old(windows) then Some(old(windows)[id].window) else None
    {
      removed := if id in windows then Some(windows[id].window) else None;
      windows := windows - {id};
    }

    method RecordFocus(id: string, focused: bool)
      modifies this
      ensures Abs() == Step(old(Abs()), Focus(id, focused))
    {
      if id !in windows {
        return;
      }
      if focused {
        focusCounter := (focusCounter + 1) % U64;
        var rest := windows.Keys;
        while rest != {}
          invariant rest <= windows.Keys == old(windows).Keys
          invariant focusCounter == FocusOn(old(Abs()), id).focusCounter
          invariant forall k :: k in windows ==>
                      windows[k] == if k in rest then old(windows)[k] else SetFocus(old(windows)[k], false)
          decreases rest
        {
          var k :| k in rest;
          windows := windows[k := SetFocus(windows[k], false)];
          rest := rest - {k};
        }
        windows := windows[id := SetFocus(windows[id], true).(focusOrder := focusCounter)];
        assert windows.Keys == old(windows).Keys;
        assert windows == FocusOn(old(Abs()), id).windows;
      } else {
        windows := windows[id := SetFocus(windows[id], false)];
      }
    }

    /** The methods that report one thing about one window. An unknown window and a rejected value
        leave the registry alone; the methods that answer say which it was, a malformed value first. */
    method Record(id: string, observation: Observation) returns (r: Result<ActiveWindow, CoreError>)
      modifies this
      ensures Abs() == Step(old(Abs()), Observed(id, observation))
      ensures match r
              case Ok(w) =>
                id in old(windows) && windows[id].window == w && !Rejected(old(windows)[id].window, observation)
              case Err(TargetNotFound(t)) =>
                t == id && id !in old(windows) && !Malformed(observation) && Abs() == old(Abs())
              case Err(Validation) =>
                && (Malformed(observation) || (id in old(windows) && Rejected(old(windows)[id].window, observation)))
                && Abs() == old(Abs())
              case Err(TargetAmbiguous(_)) => false
    {
      if Malformed(observation) {
        assert id in windows ==> windows[id := windows[id].(window := windows[id].window)] == windows;
        return Err(Validation);
      }
      if id !in windows {
        return Err(TargetNotFound(id));
      }
      var w := windows[id].window;
      if Rejected(w, observation) {
        assert windows[id := windows[id].(window := w)] == windows;
        return Err(Validation);
      }
      hide Trim, Utf8Len;
      if observation.PageFinished? && AcceptsFinish(w) {
        var page := RecordPageFinished(w.page, observation.url);
        w := w.(page := page);
      } else {
        w := Observe(w, observation);
      }
      windows := windows[id := windows[id].(window := w)];
      r := Ok(w);
    }
  }

  /** The accepting branch of `record_page_finished`, with its trimming loop. */
  method RecordPageFinished(p: Page, url: string) returns (r: Page)
    ensures r == FinishPage(p, url)
  {
    hide Trim, Utf8Len, PushTrim, Push;
    var url := TruncateChars(url, MAX_URL_CHARS);
    var history, dropped := AppendTrimmed(Or(p.urlHistory, []), false, url, URL_LIMITS, Utf8Len);
    var truncated := if dropped then Some(true) else p.urlHistoryTruncated;
    r := Page(Some(url), Some(history), truncated, p.title, Loaded, None);
  }

  // ---- what every run keeps ----

  /** Windows enter through one of the three insert methods; maximized and minimized are only ever cleared. */
  ghost predicate HostEvent(e: Event) {
    match e
    case Opened(w) => IsFresh(w)
    case Observed(_, o) => HostObservation(o)
    case _ => true
  }

  ghost predicate HostRun(events: seq<Event>) {
    forall i :: 0 <= i < |events| ==> HostEvent(events[i])
  }

  function FocusCount(events: seq<Event>): nat {
    if events == [] then 0
    else
      var e := events[|events| - 1];
      FocusCount(events[..|events| - 1]) + if e.Focus? && e.focused then 1 else 0
  }

  /** Recency: nonzero focus orders are distinct, and a focused window carries the newest one. */
  ghost predicate Recency(s: State) {
    && (forall k :: k in s.windows ==> s.windows[k].focusOrder <= s.focusCounter)
    && (forall k, l :: k in s.windows && l in s.windows && k != l ==>
          s.windows[k].focusOrder == 0 || s.windows[k].focusOrder != s.windows[l].focusOrder)
    && (forall k :: k in s.windows && s.windows[k].window.isFocused ==>
          s.windows[k].focusOrder == s.focusCounter && s.focusCounter > 0)
  }

  ghost predicate Inv(s: State) {
    && (forall k :: k in s.windows ==> WindowInv(s.windows[k].window) && s.windows[k].window.windowSessionId == k)
    && Recency(s)
  }

  lemma FocusFlagKeepsInv(r: WindowRecord, focused: bool)
    requires WindowInv(r.window)
    ensures var r1 := SetFocus(r, focused);
            && WindowInv(r1.window) && r1.window.windowSessionId == r.window.windowSessionId
            && r1.window.isFocused == focused && r1.focusOrder == r.focusOrder
  {
  }

  lemma FocusKeepsInv(s: State, id: string)
    requires Inv(s) && id in s.windows && s.focusCounter + 1 < U64
    ensures Inv(FocusOn(s, id)) && FocusOn(s, id).focusCounter == s.focusCounter + 1
  {
    hide WindowInv, SetFocus;
    forall k | k in s.windows
      ensures WindowInv(FocusOn(s, id).windows[k].window)
      ensures FocusOn(s, id).windows[k].window.windowSessionId == k
      ensures FocusOn(s, id).windows[k].window.isFocused <==> k == id
      ensures FocusOn(s, id).windows[k].focusOrder == if k == id then s.focusCounter + 1 else s.windows[k].focusOrder
    {
      FocusFlagKeepsInv(s.windows[k], k == id);
    }
  }

  lemma UnfocusKeepsInv(s: State, id: string)
    requires Inv(s) && id in s.windows
    ensures Inv(Step(s, Focus(id, false)))
  {
    hide WindowInv, SetFocus;
    FocusFlagKeepsInv(s.windows[id], false);
  }

  lemma ObservedKeepsInv(s: State, id: string, o: Observation)
    requires Inv(s) && id in s.windows && HostObservation(o)
    ensures Inv(Step(s, Observed(id, o)))
  {
    hide WindowInv, Observe;
    ObserveKeepsInv(s.windows[id].window, o);
  }

  lemma {:induction false} StepKeepsInv(s: State, e: Event)
    requires Inv(s) && HostEvent(e)
    requires e.Focus? && e.focused ==> s.focusCounter + 1 < U64
    ensures Inv(Step(s, e))
    ensures Step(s, e).focusCounter <= s.focusCounter + if e.Focus? && e.focused then 1 else 0
  {
    hide WindowInv, Observe, IsFresh, FocusOn, SetFocus;
    match e
    case Opened(w) => FreshInv(w);
    case Removed(_) =>
    case Focus(id, focused) =>
      if id in s.windows {
        if focused { FocusKeepsInv(s, id); } else { UnfocusKeepsInv(s, id); }
      }
    case Observed(id, o) => if id in s.windows { ObservedKeepsInv(s, id, o); }
  }

  /** Every reachable registry satisfies the invariant, until the u64 focus counter is used up. */
  lemma {:induction false} ReachableInv(events: seq<Event>)
    requires HostRun(events) && FocusCount(events) < U64
    ensures Inv(Run(events)) && Run(events).focusCounter <= FocusCount(events)
  {
    if events != [] {
      ReachableInv(events[..|events| - 1]);
      StepKeepsInv(Run(events[..|events| - 1]), events[|events| - 1]);
    }
  }
}
