/** What the registry's histories and load states mean over whole runs of events. */
module Timelines {
  import opened Wrappers
  import opened Protocol
  import opened Text
  import opened BoundedLog
  import opened Windows
  import opened Registry

  /** An event other than opening the window leaves its page and desk alone unless it reports on it. */
  lemma StepWindow(s: State, e: Event, id: string)
    requires id in Step(s, e).windows && !(e.Opened? && e.window.windowSessionId == id)
    ensures id in s.windows
    ensures var w, r := s.windows[id].window, Step(s, e).windows[id].window;
            if e.Observed? && e.id == id then r == Observe(w, e.observation)
            else r.page == w.page && r.desk == w.desk && IsWebPage(r) == IsWebPage(w)
  {
  }

  lemma ObserveTouches(w: ActiveWindow, o: Observation)
    ensures IsWebPage(Observe(w, o)) == IsWebPage(w)
    ensures !o.PageFinished? ==> Observe(w, o).page.urlHistory == w.page.urlHistory
    ensures !o.PageFinished? ==> Observe(w, o).page.urlHistoryTruncated == w.page.urlHistoryTruncated
    ensures o.PageFinished? ==> Observe(w, o).page == if AcceptsFinish(w) then FinishPage(w.page, o.url) else w.page
    ensures Observe(w, o).desk == if o.Placement? && !Rejected(w, o) then Place(w.desk, o.index, o.all) else w.desk
  {
  }

  // ---- URL history ----

  /** The unbounded log of window `id`: its first URL and every accepted finish, without adjacent repeats. */
  function UrlLog(events: seq<Event>, id: string): seq<string> {
    if events == [] then []
    else
      var before, e := events[..|events| - 1], events[|events| - 1];
      var s := Run(before);
      if e.Opened? && e.window.windowSessionId == id then Or(e.window.page.urlHistory, [])
      else if e.Observed? && e.id == id && e.observation.PageFinished? && id in s.windows
              && AcceptsFinish(s.windows[id].window)
      then Push(UrlLog(before, id), TruncateChars(e.observation.url, MAX_URL_CHARS))
      else UrlLog(before, id)
  }

  ghost predicate UrlHistoryMirrors(p: Page, log: seq<string>) {
    && p.urlHistory.Some? && p.urlHistoryTruncated.Some?
    && log != []
    && Mirrors(log, p.urlHistory.value, p.urlHistoryTruncated.value, URL_LIMITS, Utf8Len)
  }

  lemma FinishMirrors(p: Page, log: seq<string>, url: string)
    requires UrlHistoryMirrors(p, log)
    ensures UrlHistoryMirrors(FinishPage(p, url), Push(log, TruncateChars(url, MAX_URL_CHARS)))
  {
    hide Mirrors, PushTrim, Utf8Len;
    PushMirrors(log, p.urlHistory.value, p.urlHistoryTruncated.value, TruncateChars(url, MAX_URL_CHARS),
                URL_LIMITS, Utf8Len);
  }

  lemma FreshMirrors(w: ActiveWindow)
    requires IsFresh(w) && IsWebPage(w)
    ensures UrlHistoryMirrors(w.page, Or(w.page.urlHistory, []))
  {
    var url := w.requestedSource;
    assert w == OpenedWeb(w.windowSessionId, url, w.description, w.profile);
    assert Mirrors([url], [url], false, URL_LIMITS, Utf8Len);
  }

  lemma MirrorsEndAlike(p: Page, log: seq<string>)
    requires UrlHistoryMirrors(p, log)
    ensures var h := p.urlHistory.value; h != [] && h[|h| - 1] == log[|log| - 1]
  {
    hide Utf8Len, Fits;
  }

  /** After any run, a web window's stored history is the longest suffix of its unbounded log within
      128 entries and 32768 bytes, the truncated flag says exactly whether an entry was dropped, and
      the newest logged URL is the newest stored one. */
  lemma {:induction false} UrlHistoryIsSlidingWindow(events: seq<Event>, id: string)
    requires HostRun(events)
    requires id in Run(events).windows && IsWebPage(Run(events).windows[id].window)
    ensures UrlHistoryMirrors(Run(events).windows[id].window.page, UrlLog(events, id))
    ensures var h := Run(events).windows[id].window.page.urlHistory.value;
            h != [] && h[|h| - 1] == UrlLog(events, id)[|UrlLog(events, id)| - 1]
  {
    hide Mirrors, FinishPage, Observe, Push;
    var before, e := events[..|events| - 1], events[|events| - 1];
    var s := Run(before);
    if e.Opened? && e.window.windowSessionId == id {
      FreshMirrors(e.window);
    } else {
      StepWindow(s, e, id);
      var w := s.windows[id].window;
      if e.Observed? && e.id == id {
        ObserveTouches(w, e.observation);
      }
      UrlHistoryIsSlidingWindow(before, id);
      if e.Observed? && e.id == id && e.observation.PageFinished? && AcceptsFinish(w) {
        FinishMirrors(w.page, UrlLog(before, id), e.observation.url);
      }
    }
    MirrorsEndAlike(Run(events).windows[id].window.page, UrlLog(events, id));
  }

  // ---- workspace history ----

  function WorkspaceLog(events: seq<Event>, id: string): seq<nat> {
    if events == [] then []
    else
      var before, e := events[..|events| - 1], events[|events| - 1];
      if e.Opened? && e.window.windowSessionId == id then []
      else if e.Observed? && e.id == id && id in Run(before).windows && e.observation.Placement?
              && e.observation.index.Some? && e.observation.index.value <= 255 && !e.observation.all
      then Push(WorkspaceLog(before, id), e.observation.index.value)
      else WorkspaceLog(before, id)
  }

  ghost predicate DeskMirrors(d: Desk, log: seq<nat>) {
    Mirrors(log, d.history, d.historyTruncated, WORKSPACE_LIMITS, NoSize)
  }

  lemma NoDeskMirrors()
    ensures DeskMirrors(Desk(None, false, [], false), [])
  {
  }

  lemma PlaceMirrors(d: Desk, log: seq<nat>, index: Option<nat>, all: bool)
    requires DeskMirrors(d, log)
    ensures DeskMirrors(Place(d, index, all), if index.Some? && !all then Push(log, index.value) else log)
  {
    if index.Some? && !all {
      PushMirrors(log, d.history, d.historyTruncated, index.value, WORKSPACE_LIMITS, NoSize);
    }
  }

  /** The workspace history is the newest 128 entries of its log, flagged exactly when older ones are gone. */
  lemma {:induction false} WorkspaceHistoryIsSlidingWindow(events: seq<Event>, id: string)
    requires HostRun(events)
    requires id in Run(events).windows
    ensures DeskMirrors(Run(events).windows[id].window.desk, WorkspaceLog(events, id))
  {
    hide Mirrors, Place, Observe, Push;
    var before, e := events[..|events| - 1], events[|events| - 1];
    if e.Opened? && e.window.windowSessionId == id {
      NoDeskMirrors();
      assert e.window.desk == Desk(None, false, [], false);
    } else {
      StepWindow(Run(before), e, id);
      WorkspaceHistoryIsSlidingWindow(before, id);
      if e.Observed? && e.id == id {
        ObserveTouches(Run(before).windows[id].window, e.observation);
        if e.observation.Placement? {
          PlaceMirrors(Run(before).windows[id].window.desk, WorkspaceLog(before, id),
                       e.observation.index, e.observation.all);
        }
      }
    }
  }

  // ---- load state ----

  function ObserveAll(w: ActiveWindow, obs: seq<Observation>): ActiveWindow {
    if obs == [] then w else Observe(ObserveAll(w, obs[..|obs| - 1]), obs[|obs| - 1])
  }

  /** Reports that can replace a failure at `url`. */
  predicate Replaces(o: Observation, url: string) {
    || (o.PageStarted? && o.url != url)
    || o.PageFailed?
    || (o.ObservedUrl? && o.url != url)
  }

  /** A failed load stays reported, with its error and URL, through any later starts of the same URL,
      finishes, titles, resizes and so on, until another page starts, fails or is observed. */
  lemma {:induction false} FailureSurvives(w: ActiveWindow, url: string, error: string, obs: seq<Observation>)
    requires IsWebPage(w) && |url| <= MAX_URL_CHARS
    requires forall i :: 0 <= i < |obs| ==> !Replaces(obs[i], url)
    ensures var r := ObserveAll(Observe(w, PageFailed(url, error)), obs);
            && IsWebPage(r)
            && r.page.loadState == Failed
            && r.page.loadError == Some(TruncateChars(error, MAX_LOAD_ERROR_CHARS))
            && r.page.currentUrl == Some(url)
            && r.page.urlHistory == w.page.urlHistory
  {
    if obs != [] {
      FailureSurvives(w, url, error, obs[..|obs| - 1]);
    }
  }

  /** The event leaves a failure of window `id` at `url` alone. */
  predicate Spares(e: Event, id: string, url: string) {
    match e
    case Opened(w) => w.windowSessionId != id
    case Removed(i) => i != id
    case Observed(i, o) => i == id ==> !Replaces(o, url)
    case Focus(_, _) => true
  }

  /** The window is reported failed at `url` with `error`. */
  predicate FailedAt(s: State, id: string, url: string, error: string) {
    id in s.windows &&
    var w := s.windows[id].window;
    && IsWebPage(w) && w.page.loadState == Failed && w.page.currentUrl == Some(url)
    && w.page.loadError == Some(TruncateChars(error, MAX_LOAD_ERROR_CHARS))
  }

  lemma SparesFailure(s: State, e: Event, id: string, url: string, error: string)
    requires |url| <= MAX_URL_CHARS && FailedAt(s, id, url, error) && Spares(e, id, url)
    ensures FailedAt(Step(s, e), id, url, error)
  {
  }

  /** Over the registry's runs: after a web window failed at a URL of at most 4096 characters it stays reported
      failed there, with its error, through every event of any window, until its window is opened anew or removed,
      or another page starts, fails or is observed in it. */
  lemma {:induction false} FailureSurvivesRun(before: seq<Event>, id: string, url: string, error: string,
                                              after: seq<Event>)
    requires id in Run(before).windows && IsWebPage(Run(before).windows[id].window) && |url| <= MAX_URL_CHARS
    requires forall i :: 0 <= i < |after| ==> Spares(after[i], id, url)
    ensures FailedAt(Run(before + [Observed(id, PageFailed(url, error))] + after), id, url, error)
    decreases |after|
  {
    var failed := before + [Observed(id, PageFailed(url, error))];
    if after == [] {
      assert failed + after == failed && failed[..|failed| - 1] == before;
    } else {
      var m := |after| - 1;
      FailureSurvivesRun(before, id, url, error, after[..m]);
      var all := failed + after;
      assert all[..|all| - 1] == failed + after[..m] && all[|all| - 1] == after[m];
      hide Step;
      SparesFailure(Run(failed + after[..m]), after[m], id, url, error);
    }
  }

  /** The documented rule that a restart of the failed URL keeps the failure holds exactly for URLs of
      at most 4096 characters: a longer one was stored truncated and no longer compares equal. */
  lemma RestartKeepsFailureIff(w: ActiveWindow, url: string, error: string)
    requires IsWebPage(w)
    ensures Observe(Observe(w, PageFailed(url, error)), PageStarted(url)).page.loadState.Failed?
            <==> |url| <= MAX_URL_CHARS
  {
    var failed := Observe(w, PageFailed(url, error));
    assert failed.page.currentUrl == Some(url) <==> |url| <= MAX_URL_CHARS;
  }

  /** A failure does end: another page starting clears it, and its finish is logged again. */
  lemma OtherPageClearsFailure(w: ActiveWindow, url: string, error: string, next: string)
    requires IsWebPage(w) && next != TruncateChars(url, MAX_URL_CHARS)
    ensures var r := Observe(Observe(Observe(w, PageFailed(url, error)), PageStarted(next)), PageFinished(next));
            r.page == FinishPage(w.page, next)
  {
    hide PushTrim, Utf8Len, Push;
    var started := Observe(Observe(w, PageFailed(url, error)), PageStarted(next));
    assert started.page == w.page.(loadState := Started, loadError := None,
                                   currentUrl := Some(TruncateChars(next, MAX_URL_CHARS)));
  }
}
