/** `bound_result_for_frame`: an interaction result is cut down, least important part first, until it fits. */
module FrameShrink {
  import opened Wrappers
  import opened Protocol

  const FRAME_HEADROOM: nat := 1_024
  const RESULT_BUDGET: nat := MAX_FRAME_BYTES - FRAME_HEADROOM

  datatype StepCode =
    | StepOk | SelectorNotFound | SelectorAmbiguous | SelectorNotInteractable | TextNotFound | TimedOut | ScriptError
    | Cancelled
  datatype StepResult = StepResult(index: nat, kind: string, ok: bool, code: StepCode, elapsedMs: nat)
  datatype ConsoleResult = ConsoleResult(windowSessionId: string, entries: seq<ConsoleEntry>, truncated: bool)
  datatype InteractionResult = InteractionResult(
    windowSessionId: string, completed: bool, actions: seq<StepResult>, postStatus: Option<ActiveWindow>,
    console: Option<ConsoleResult>, screenshot: Option<string>, postErrors: seq<string>, outputTruncated: bool)

  // ---- what there is to cut ----

  function Entries(c: Option<ConsoleResult>): nat { if c.Some? then |c.value.entries| else 0 }
  function Errors(s: Option<ActiveWindow>): nat { if s.Some? then |s.value.console.errors| else 0 }

  /** All URLs but the newest. */
  function SpareUrls(s: Option<ActiveWindow>): nat {
    if s.Some? && s.value.page.urlHistory.Some? && |s.value.page.urlHistory.value| > 1
    then |s.value.page.urlHistory.value| - 1 else 0
  }

  function One(b: bool): nat { if b then 1 else 0 }

  /** The pieces in one status, and in the whole result. */
  function Inside(s: Option<ActiveWindow>): nat { Errors(s) + SpareUrls(s) }

  function Total(r: InteractionResult): nat {
    Entries(r.console) + Inside(r.postStatus) + One(r.console.Some?) + One(r.postStatus.Some?)
  }

  // ---- the result with the first `i` pieces cut ----

  function CutConsole(c: ConsoleResult, n: nat): ConsoleResult
    requires n <= |c.entries|
  {
    if n == 0 then c else c.(entries := c.entries[n..], truncated := true)
  }

  function CutErrors(c: ConsoleBuffer, n: nat): ConsoleBuffer
    requires n <= |c.errors|
  {
    if n == 0 then c else ConsoleBuffer(c.errors[n..], true)
  }

  function CutUrls(p: Page, n: nat): Page
    requires n > 0 ==> p.urlHistory.Some? && n <= |p.urlHistory.value|
  {
    if n == 0 then p else p.(urlHistory := Some(p.urlHistory.value[n..]), urlHistoryTruncated := Some(true))
  }

  /** Console errors from the oldest, then URLs from the oldest but never the newest. */
  function CutStatus(w: ActiveWindow, n: nat): ActiveWindow
    requires n <= Inside(Some(w))
  {
    var errors := Errors(Some(w));
    if n <= errors then w.(console := CutErrors(w.console, n))
    else w.(console := CutErrors(w.console, errors), page := CutUrls(w.page, n - errors))
  }

  /** In order: console entries from the oldest, then what is inside the status, then the console itself,
      then the status. */
  function Dropped(r: InteractionResult, i: nat): InteractionResult
    requires i <= Total(r)
  {
    var entries, inside := Entries(r.console), Inside(r.postStatus);
    if i == 0 then r.(outputTruncated := false)
    else if i <= entries then
      r.(console := Some(CutConsole(r.console.value, i)), outputTruncated := true)
    else
      var console := if r.console.Some? then Some(CutConsole(r.console.value, entries)) else None;
      if i <= entries + inside then
        r.(console := console, postStatus := Some(CutStatus(r.postStatus.value, i - entries)), outputTruncated := true)
      else if r.console.Some? && i == entries + inside + 1 then
        r.(console := None,
           postStatus := if r.postStatus.Some? then Some(CutStatus(r.postStatus.value, inside)) else None,
           outputTruncated := true)
      else r.(console := None, postStatus := None, outputTruncated := true)
  }

  /** The status half of one turn of the loop. */
  method TurnStatus(status: ActiveWindow) returns (r: ActiveWindow, changed: bool)
    ensures changed <==> Inside(Some(status)) > 0
    ensures r == if changed then CutStatus(status, 1) else status
  {
    r, changed := status, false;
    if status.console.errors != [] {
      r := status.(console := ConsoleBuffer(status.console.errors[1..], true));
      changed := true;
    } else if status.page.urlHistory.Some? {
      var history := status.page.urlHistory.value;
      if |history| > 1 {
        r := status.(page := status.page.(urlHistory := Some(history[1..]), urlHistoryTruncated := Some(true)));
        changed := true;
      }
    }
  }

  /** One turn of the loop, and whether it found anything to cut. */
  method Turn(r: InteractionResult) returns (result: InteractionResult, changed: bool)
    ensures changed <==> Total(r) > 0
    ensures result == if changed then Dropped(r, 1) else r
  {
    result, changed := r, false;
    if r.console.Some? && r.console.value.entries != [] {
      var console := r.console.value;
      result := r.(console := Some(console.(entries := console.entries[1..], truncated := true)));
      changed := true;
    }
    if !changed && r.postStatus.Some? {
      var status;
      status, changed := TurnStatus(r.postStatus.value);
      result := r.(postStatus := Some(status));
    }
    if !changed && r.console.Some? {
      result := r.(console := None);
      changed := true;
    }
    if !changed && r.postStatus.Some? {
      result := r.(postStatus := None);
      changed := true;
    }
    if changed {
      result := result.(outputTruncated := true);
    }
  }

  lemma CutStatusStep(w: ActiveWindow, n: nat)
    requires n < Inside(Some(w))
    ensures Inside(Some(CutStatus(w, n))) == Inside(Some(w)) - n
    ensures CutStatus(CutStatus(w, n), 1) == CutStatus(w, n + 1)
  {
  }

  lemma CutStatusNothing(w: ActiveWindow)
    ensures CutStatus(w, 0) == w
  {
  }

  lemma CutStatusInside(w: ActiveWindow, n: nat)
    requires n <= Inside(Some(w))
    ensures Inside(Some(CutStatus(w, n))) == Inside(Some(w)) - n
  {
  }

  lemma DroppedTotal(r: InteractionResult, i: nat)
    requires i <= Total(r)
    ensures Total(Dropped(r, i)) == Total(r) - i
  {
    var entries, inside := Entries(r.console), Inside(r.postStatus);
    if r.postStatus.Some? && entries < i {
      CutStatusInside(r.postStatus.value, if i <= entries + inside then i - entries else inside);
    }
  }

  /** Cutting one more piece is the next cut. */
  lemma {:induction false} DroppedStep(r: InteractionResult, i: nat)
    requires i < Total(r)
    ensures Total(Dropped(r, i)) > 0 && Dropped(Dropped(r, i), 1) == Dropped(r, i + 1)
  {
    hide CutStatus;
    DroppedTotal(r, i);
    var entries, inside := Entries(r.console), Inside(r.postStatus);
    if r.postStatus.Some? {
      CutStatusNothing(r.postStatus.value);
    }
    if Dropped(r, i).postStatus.Some? {
      CutStatusNothing(Dropped(r, i).postStatus.value);
    }
    if r.postStatus.Some? && entries <= i {
      CutStatusInside(r.postStatus.value, if i <= entries + inside then i - entries else inside);
      if i < entries + inside {
        CutStatusStep(r.postStatus.value, i - entries);
      }
    }
  }

  /** The fewest cuts that make the result fit, or all of them. `len` is the serialized length. */
  ghost predicate IsFewest(r: InteractionResult, i: nat, len: InteractionResult -> nat) {
    && i <= Total(r)
    && (forall j :: 0 <= j < i ==> len(Dropped(r, j)) > RESULT_BUDGET)
    && (i < Total(r) ==> len(Dropped(r, i)) <= RESULT_BUDGET)
  }

  /** There is one such number. */
  lemma FewestIsUnique(r: InteractionResult, i: nat, j: nat, len: InteractionResult -> nat)
    requires IsFewest(r, i, len) && IsFewest(r, j, len)
    ensures i == j
  {
  }

  /** The loop. Its result is determined: it is the input with the fewest cuts that make it fit. */
  method BoundResultForFrame(input: InteractionResult, len: InteractionResult -> nat)
    returns (result: InteractionResult, ghost cuts: nat)
    ensures IsFewest(input, cuts, len) && result == Dropped(input, cuts)
    ensures forall i :: IsFewest(input, i, len) ==> result == Dropped(input, i)
    ensures len(result) <= RESULT_BUDGET || (result.console.None? && result.postStatus.None?)
  {
    result := input.(outputTruncated := false);
    cuts := 0;
    assert result == Dropped(input, 0);
    while len(result) > RESULT_BUDGET
      invariant cuts <= Total(input) && result == Dropped(input, cuts)
      invariant forall j :: 0 <= j < cuts ==> len(Dropped(input, j)) > RESULT_BUDGET
      decreases Total(input) - cuts
    {
      DroppedTotal(input, cuts);
      var changed;
      result, changed := Turn(result);
      if !changed {
        break;
      }
      DroppedStep(input, cuts);
      cuts := cuts + 1;
    }
    if cuts == Total(input) {
      DroppedTotal(input, cuts);
    }
    assert IsFewest(input, cuts, len) by {
      if cuts == Total(input) { DroppedTotal(input, cuts); }
    }
    forall i | IsFewest(input, i, len)
      ensures i == cuts
    {
      FewestIsUnique(input, i, cuts, len);
    }
  }

  // ---- what a cut result is worth ----

  predicate IsSuffix<T(==)>(s: seq<T>, of: seq<T>) { |s| <= |of| && s == of[|of| - |s|..] }

  /** `output_truncated` says exactly whether something was cut. */
  lemma {:induction false} FlagIsExact(r: InteractionResult, i: nat)
    requires i <= Total(r)
    ensures var d := Dropped(r, i); d.outputTruncated <==> d.(outputTruncated := r.outputTruncated) != r
  {
    DroppedTotal(r, i);
    hide CutStatus;
    if i > 0 {
      assert Total(Dropped(r, i).(outputTruncated := r.outputTruncated)) != Total(r);
    }
  }

  lemma {:induction false} SurvivorsAreFaithful(r: InteractionResult, i: nat)
    requires i <= Total(r)
    ensures var d := Dropped(r, i);
            && (d.console.Some? ==> r.console.Some? && ConsoleIsFaithful(d.console.value, r.console.value))
            && (d.postStatus.Some? ==> r.postStatus.Some? && StatusIsFaithful(d.postStatus.value, r.postStatus.value))
  {
    hide CutStatus, StatusIsFaithful;
    var d := Dropped(r, i);
    if r.postStatus.Some? {
      CutStatusNothing(r.postStatus.value);
      CutStatusIsFaithful(r.postStatus.value, 0);
    }
    if d.postStatus.Some? && i > Entries(r.console) {
      var n := if i <= Entries(r.console) + Inside(r.postStatus) then i - Entries(r.console) else Inside(r.postStatus);
      CutStatusIsFaithful(r.postStatus.value, n);
    }
  }

  lemma {:induction false} LeastImportantFirst(r: InteractionResult, i: nat)
    requires i <= Total(r)
    ensures var d := Dropped(r, i);
            && (d.postStatus != r.postStatus ==> Entries(d.console) == 0)
            && (d.console.None? && r.console.Some? ==> Inside(d.postStatus) == 0)
            && (d.postStatus.None? && r.postStatus.Some? ==> d.console.None?)
            && (d.postStatus.Some? && r.postStatus.Some? && d.postStatus.value.page != r.postStatus.value.page ==>
                  d.postStatus.value.console.errors == [])
  {
    hide CutStatus;
    if r.postStatus.Some? {
      var entries, inside := Entries(r.console), Inside(r.postStatus);
      CutStatusInside(r.postStatus.value, inside);
      var n := if i <= entries then 0 else if i <= entries + inside then i - entries else inside;
      ErrorsFirst(r.postStatus.value, n);
    }
  }

  /** A URL is cut only once no console error is left. */
  lemma ErrorsFirst(w: ActiveWindow, n: nat)
    requires n <= Inside(Some(w))
    ensures CutStatus(w, n).page != w.page ==> CutStatus(w, n).console.errors == []
  {
  }

  /** Whatever survives is the newest part of the original, in the order of importance. */
  lemma {:induction false} CutsAreFaithful(r: InteractionResult, i: nat)
    requires i <= Total(r)
    ensures var d := Dropped(r, i);
            && d.windowSessionId == r.windowSessionId && d.completed == r.completed && d.actions == r.actions
            && d.screenshot == r.screenshot && d.postErrors == r.postErrors
            && (d.console.Some? ==> r.console.Some? && ConsoleIsFaithful(d.console.value, r.console.value))
            && (d.postStatus.Some? ==> r.postStatus.Some? && StatusIsFaithful(d.postStatus.value, r.postStatus.value))
            && (d.postStatus != r.postStatus ==> Entries(d.console) == 0)
            && (d.console.None? && r.console.Some? ==> Inside(d.postStatus) == 0)
            && (d.postStatus.None? && r.postStatus.Some? ==> d.console.None?)
            && (d.postStatus.Some? && r.postStatus.Some? && d.postStatus.value.page != r.postStatus.value.page ==>
                  d.postStatus.value.console.errors == [])
            && (d.outputTruncated <==> d.(outputTruncated := r.outputTruncated) != r)
  {
    hide CutStatus, StatusIsFaithful, ConsoleIsFaithful, CutConsole, Entries, Inside;
    FlagIsExact(r, i);
    SurvivorsAreFaithful(r, i);
    LeastImportantFirst(r, i);
  }

  lemma CutStatusIsFaithful(w: ActiveWindow, n: nat)
    requires n <= Inside(Some(w))
    ensures StatusIsFaithful(CutStatus(w, n), w)
  {
  }

  ghost predicate ConsoleIsFaithful(d: ConsoleResult, c: ConsoleResult) {
    && d.windowSessionId == c.windowSessionId && IsSuffix(d.entries, c.entries)
    && d.truncated == (c.truncated || |d.entries| < |c.entries|)
  }

  ghost predicate StatusIsFaithful(d: ActiveWindow, w: ActiveWindow) {
    && IsSuffix(d.console.errors, w.console.errors)
    && d.console.truncated == (w.console.truncated || |d.console.errors| < |w.console.errors|)
    && (d.page.urlHistory.Some? <==> w.page.urlHistory.Some?)
    && (w.page.urlHistory.Some? ==>
          && IsSuffix(d.page.urlHistory.value, w.page.urlHistory.value)
          && (w.page.urlHistory.value != [] ==> d.page.urlHistory.value != [])
          && d.page.urlHistoryTruncated == (if |d.page.urlHistory.value| < |w.page.urlHistory.value| then Some(true)
                                            else w.page.urlHistoryTruncated))
    && d.(page := d.page.(urlHistory := w.page.urlHistory, urlHistoryTruncated := w.page.urlHistoryTruncated),
          console := w.console) == w
  }
}
