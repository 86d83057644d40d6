# Portus Window: verified models of its state machines

Portus Window is a desktop host that opens web pages and local media in native windows and is driven over
a local socket. Behind its windowing code it keeps several interacting state machines. This project models
the logic of those machines in Dafny and proves what they keep over every run, whatever the native side
answers. The web view, the desktop, SQLite and the clock appear as oracles: parameters that may answer
anything, failure included.

| module | models |
|---|---|
| `Wrappers`, `Text`, `Numbers` | results, Rust strings (UTF-8 length, trim, truncation), decimal numbers |
| `BoundedLog` | bounded, adjacent-de-duplicated histories as windows onto an unbounded log |
| `Protocol`, `Windows`, `Registry`, `Timelines`, `Reports` | the window registry: records, reducer, histories, load state, what each record tells, the focus |
| `Targets`, `Naming` | target resolution and what a target means |
| `Layout`, `Manager`, `Applying`, `RoundTrip` | declarative layouts: refresh, export, apply, prune; what an apply does, and the round trip |
| `Authority`, `Consent`, `ConsentRace` | grants and consent dialogs, as sequential calls and as interleaved lock sections |
| `Broker`, `Cookies`, `CookieTracking`, `GrantFlags`, `GrantStory` | brokered cookies: bounded loading, install, rollback, retryable revoke; the grant flags over all calls; a grant from request to revocation |
| `HistoryWorker`, `HistoryRuns`, `HistoryCommands`, `HistoryTimelines`, `HistoryQuery`, `HistoryFinds` | the history worker, its commands, its table and its query |
| `FrameShrink`, `Deadline` | interaction results cut to a frame, and batches against a deadline |
| `Ranges`, `Timestamp`, `Gate` | byte-range streaming, start-time parsing, and the observation gate |

Objects whose methods change their fields are classes here; each method is proved equal to a specification
function on values, and the lemmas are about those functions and about runs of them. Registries and tables
are maps. `env`, `query`, `closes`, `RevokeNative`, `ApplyNative`, `Presentation`, `Evaluation` and the `ok`
flags are what the native side, SQLite or the page answers; a lemma that mentions them holds for all answers.

## What the proofs found

- Exporting a layout and applying it back is the identity exactly when no listed window matches the exported
  entry of a later one, with or without pruning and whatever native calls fail (`RoundTrip.RoundTripIff`,
  `RoundTrip.ExportThenApplyIff`). Two windows on one URL are enough to break it
  (`RoundTrip.SameUrlCrossMatches`), and with pruning a window is then closed (`RoundTrip.PruneKeepsAllIff`).
- An entry of a layout that only moves its window to another workspace moves it and reports it unchanged
  (`Applying.MoveIsReportedUntouched`); the comparison before the resize leaves the workspace out. Applied a second
  time an entry reports its window unchanged exactly when it has no media action and its description is kept as
  written; the registry trims it (`Applying.AppliedTwice`).
- `docs/LINUX.md:40` says a failed load stays failed through later events for the same URL. The reducer keeps
  this exactly for URLs of at most 4096 characters, because a longer one is stored truncated and no longer
  compares equal (`Timelines.RestartKeepsFailureIff`).
- `docs/CLI.md:102` says a fuzzy target with several matches is ambiguous. The code picks the match focused
  last and is ambiguous only when none was ever focused; the model follows the code (`Targets.ResolveTargetSpec`).
- A console report that is empty clears the flag that tells of older entries pushed out, though they stay gone
  (`Reports.EmptyReportClearsFlag`); the flag is otherwise exact (`Reports.RecordTellsLastReports`).
- The focus counter is a wrapping u64; recency results hold for runs with fewer than 2^64 focus events.
- From an untracked target an apply tracks every cookie it writes and leaves in the window exactly when no
  installation that was reported failed landed there, as the five-second timeout allows
  (`CookieTracking.ApplyTracksIff`). A cookie written over one the page had set counts as written.
- An apply to a tracked target keeps every earlier cookie that is still in its window tracked unless it puts
  another session in place of the tracked one, by installing everything or by failing to roll back, and that
  session does not cover what the window holds; purging the window's profile also settles it
  (`CookieTracking.ReapplyKeepsIff`, both directions, for every outcome; `CookieTracking.OtherWindowForgets` is one
  apply that forgets).
- A failed revoke keeps exactly the cookies it could not delete, except when it deleted every one of them and then
  could not restore a web video: then it keeps the full list although nothing of it is left
  (`CookieTracking.FailedRevokeKeepsUndeletedIff`, `CookieTracking.UnrestoredVideoKeepsList`).
- The cookie query never asks for some hosts that the filter after it would allow: the dotted ones of an exact
  domain, the proper subdomains of a YouTube grant, and no others (`Broker.QueryMissesIff`,
  `Broker.SubdomainIsMissed`).
- Of the single ranges that section 14.1.2 of RFC 9110 writes in digits after "bytes=", leading zeros included, the
  parser misreads exactly those that are satisfiable and write a number beyond u64, which it answers with 416
  (`Ranges.ParseAgreesIff`, `Ranges.BeyondU64IsRefused`). It accepts a plus sign before a number, which the section
  does not, and nothing else (`Ranges.AcceptsIff`, `Ranges.PlusIsAccepted`): a set of ranges and a unit in capital
  letters are answered with 416, and so is another unit, where section 14.2 has it ignored. A file over 8 MiB is
  answered with 206 even without a Range header, and only such a file (`Ranges.AnswersAreExact`).
- Start times with a leading plus sign are accepted as plain seconds, "+90" and "+90s", because Rust's integer
  parser accepts the sign; nothing else beyond the written grammar is (`Timestamp.AcceptsIff`,
  `Timestamp.PlusNinety`).
- Observations buffered before activation keep their order, but one that arrives after it can overtake them
  (`Gate.LaterMayOvertake`). Everything is applied in order of arrival exactly when every callback takes its turn:
  it applies its observation only once the buffer is drained and no earlier one is on its way (`Gate.OrderIff`).

## Model

| member | source | states |
|---|---|---|
| `Text.TruncateChars` | portus-window/src/window_core.rs:736-742 | the result is a prefix of at most `max` characters, and the whole string exactly when it is that short |
| `BoundedLog.TrimHistory` | portus-window/src/window_core.rs:744-754 | the trimming loop ends with the longest suffix within the bounds and raises the flag exactly when it dropped something |
| `BoundedLog.AppendTrimmed` | portus-window/src/database.rs:151-156 | a repeat of the newest entry changes nothing, anything else is appended and the result cut to the bounds |
| `BoundedLog.TrimIsLongest` | portus-window/src/window_core.rs:744-754 | what trimming keeps fits both bounds, and every longer suffix exceeds one |
| `BoundedLog.TrimAppend` | portus-window/src/window_core.rs:497-515 | trimming early never changes what a later trim keeps |
| `BoundedLog.NewestSurvives` | portus-window/src/window_core.rs:744-754 | an entry that fits alone is never trimmed away by its own arrival |
| `BoundedLog.PushMirrors` | portus-window/src/window_core.rs:497-515 | one observation keeps a bounded history the longest fitting suffix of the unbounded log, with an exact truncation flag |
| `Windows.ObserveKeepsInv` | portus-window/src/window_core.rs:472-686 | each reported observation keeps sizes in 1..16384, never both maximized and minimized, load error present exactly when failed, workspace equal to the newest history entry, console bounded, URL size bounded |
| `Windows.PlaceIdempotent` | portus-window/src/window_core.rs:403-432 | reporting the same placement twice records it once |
| `Windows.FreshInv` | portus-window/src/window_core.rs:161-284 | every freshly inserted window satisfies the record invariant and is unfocused |
| `Windows.WorkspaceTrimIsLast128` | portus-window/src/window_core.rs:420-431 | the workspace history keeps exactly the newest 128 entries |
| `Registry.WindowRegistry.RecordFocus` | portus-window/src/window_core.rs:452-470 | focusing clears every other focus and gives the window the next wrapping order; unfocusing clears only its own |
| `Registry.WindowRegistry.Record` | portus-window/src/window_core.rs:472-686 | each report changes one record; a malformed value is reported before an unknown window, a value the window cannot take after it, and both change nothing |
| `Registry.RecordPageFinished` | portus-window/src/window_core.rs:497-515 | the accepting branch with its trimming loop appends unless it repeats the newest URL, and flags exactly a drop |
| `Registry.StepKeepsInv` | portus-window/src/window_core.rs:286-686 | every event keeps record invariants and recency: nonzero focus orders distinct, a focused window carries the newest |
| `Registry.ReachableInv` | portus-window/src/window_core.rs:452-470 | after any run below 2^64 focus events at most one window is focused and nonzero focus orders are pairwise distinct |
| `Timelines.UrlHistoryIsSlidingWindow` | portus-window/src/window_core.rs:497-515 | after any run the stored URL history is the longest suffix of the de-duplicated log of accepted finishes within 128 entries and 32768 bytes, flagged exactly when something was dropped, ending in the newest logged URL |
| `Timelines.WorkspaceHistoryIsSlidingWindow` | portus-window/src/window_core.rs:403-432 | the same for workspace placements |
| `Timelines.FailureSurvives` | portus-window/src/window_core.rs:482-525 | in one record a failure at a URL of at most 4096 characters survives any observations that do not replace it |
| `Timelines.FailureSurvivesRun` | portus-window/src/window_core.rs:286-525 | over the registry's runs such a failure stays reported through every event of any window until its window is opened anew or removed, or another page starts, fails or is observed in it |
| `Timelines.RestartKeepsFailureIff` | portus-window/src/window_core.rs:482-525 | a restart of the failed URL keeps the failure if and only if the URL has at most 4096 characters |
| `Timelines.OtherPageClearsFailure` | portus-window/src/window_core.rs:482-515 | another page starting clears a failure, and its finish is logged as if the failure had not been |
| `Reports.RecordTellsLastReports` | portus-window/src/window_core.rs:472-600 | over every run each record holds the title, authenticated flag, media state, description and placement last reported since its window was opened, a web window's console the newest 50 entries with the exact flag, and a web page's URL and load state are those of the last report it took |
| `Reports.RecordIsItsReports` | portus-window/src/window_core.rs:286-686 | a record depends on the reports about its own window alone; other windows move only its focus |
| `Reports.EmptyReportClearsFlag` | portus-window/src/window_core.rs:543-566 | an empty console report clears the truncation flag though older entries are gone |
| `Reports.FocusedIsHolder` | portus-window/src/window_core.rs:452-470 | after any run a record is marked focused exactly when its window was focused last and not unfocused, removed or opened anew since |
| `Targets.NewestSpec` | portus-window/src/window_core.rs:349-371 | sorting candidates by focus picks the strictly newest one, and answers ambiguous exactly when none is |
| `Targets.ResolvesByRecency` | portus-window/src/window_core.rs:330-371 | a filter resolves to the match with the greatest stored focus order |
| `Targets.FocusOrderIsRecency` | portus-window/src/window_core.rs:452-470 | in every reachable registry stored focus orders are in the order of the run's focus events, and 0 exactly for a window not focused since it was opened |
| `Targets.ResolveTargetSpec` | portus-window/src/window_core.rs:312-372 | in every reachable registry an exact id names its own window, a stale session id is not found, and any other target names the match whose last focus event in the run came last, is ambiguous exactly when several match and none was focused since it was opened, never for "focused" |
| `Targets.FocusThenResolve` | portus-window/src/window_core.rs:312-372 | focusing a window makes every non-exact target that matches it resolve to it |
| `Targets.ResolveWorkspaceSpec` | portus-window/src/window_core.rs:374-401 | the same rule, by the run's focus events, for workspace targets |
| `Naming.TargetMeans` | portus-window/src/window_core.rs:312-372 | a target that is no session id resolves by recency among exactly the windows that are focused, maximized or bear a text (description, title, source, URL) containing it in whatever case |
| `Naming.FocusedMeansHolder` | portus-window/src/window_core.rs:318-371 | "focused" is the window that holds the focus after the run, and not found when none does |
| `Naming.WorkspaceMeans` | portus-window/src/window_core.rs:374-401 | a workspace index resolves by recency among exactly the windows on it or on all workspaces |
| `Layout.FirstMatch` | portus-window/src/tauri_window/commands.rs:170-186 | the window found matches the entry and no earlier listed window does |
| `Manager.WindowManager.RefreshAllWorkspaces` | portus-window/src/tauri_window.rs:296-312 | records each answered placement in list order and stops at the first failure |
| `Manager.WindowManager.Resize` | portus-window/src/tauri_window/commands.rs:565-712 | each native call is followed by its record, and the first failed call or rejected value ends the resize with what was recorded so far |
| `Manager.WindowManager.Tag` | portus-window/src/tauri_window/commands.rs:525-539 | a failed history sync leaves the registry exactly as before |
| `Manager.WindowManager.Reconcile` | portus-window/src/tauri_window/commands.rs:188-236 | tag, resize and media of one matched entry, in order; what they come to is `Applying.ReconciledDoes` and `Applying.UpdatesIff` |
| `Manager.WindowManager.ApplyEntries` | portus-window/src/tauri_window/commands.rs:169-257 | the entry loop with its result lists and matched ids, media actions of opened windows included; a failed open ends it with the registry as it then is |
| `Manager.WindowManager.Prune` | portus-window/src/tauri_window/commands.rs:259-268 | closes exactly the listed windows nothing matched whose native close works, in list order |
| `Manager.WindowManager.ApplySpec` | portus-window/src/tauri_window/commands.rs:158-275 | refresh, entries and pruning composed, with both early failures |
| `Manager.WindowManager.ExportSpec` | portus-window/src/tauri_window/commands.rs:277-323 | the exported list is the refreshed registry entry by entry, or nothing when listing fails |
| `Applying.ResizeRuns` | portus-window/src/tauri_window/commands.rs:565-712 | the calls of a resize together record exactly what was wanted: each wanted size, position, state and topmost flag, the workspace moved to, and nothing else |
| `Applying.EffectsStop` | portus-window/src/tauri_window/commands.rs:583-712 | the first failing call ends a resize with exactly what the calls before it recorded |
| `Applying.ReconciledDoes` | portus-window/src/tauri_window/commands.rs:188-236 | when every native answer is good a matched entry leaves its window with every wanted value recorded, every unwanted one unchanged, and every other window as it was |
| `Applying.UpdatesIff` | portus-window/src/tauri_window/commands.rs:191-236 | an entry counts as an update exactly for a media action or a description, size, position, state or topmost flag that is not the window's |
| `Applying.MoveIsReportedUntouched` | portus-window/src/tauri_window/commands.rs:208-236 | an entry that only moves its window to workspace 3 moves it and does not count as an update |
| `Applying.OpensFocused` | portus-window/src/tauri_window/commands.rs:238-256 | an entry without a match leaves the opened window in the registry, alone focused, and the others otherwise as they were |
| `Applying.AppliedDoes` | portus-window/src/tauri_window/commands.rs:158-275 | after an apply each listed window that exactly one entry finds, and for which everything works, is as that entry says, and is reported updated or unchanged accordingly, whatever fails for others |
| `Applying.AppliedLeaves` | portus-window/src/tauri_window/commands.rs:158-275 | a listed window no entry finds is closed exactly when pruning and its close work, and is otherwise as refreshed |
| `Applying.FailedOpenEnds` | portus-window/src/tauri_window/commands.rs:238-257 | an open that fails ends the apply, pruning included, with exactly what the entries before it did |
| `Applying.AppliedTwice` | portus-window/src/tauri_window/commands.rs:158-275 | applying the same specification again keeps each such window as it is and reports it unchanged if and only if its entry has no media action and a description that is kept as written |
| `Applying.ExportRestores` | portus-window/src/tauri_window/commands.rs:158-323 | whatever changed since an export, applying it restores size, position, state, topmost flag, workspace and description of each window its own entry finds |
| `Applying.ReopenedIsFound` | portus-window/src/tauri_window/commands.rs:277-323 | an exported entry finds a window opened anew on what the exported one showed |
| `RoundTrip.RefreshedIsStable` | portus-window/src/tauri_window.rs:296-312 | refreshing again with unchanged answers changes nothing |
| `RoundTrip.RefreshStops` | portus-window/src/tauri_window.rs:296-312 | a refresh stops at the first window without a usable answer, with the answers before it recorded |
| `RoundTrip.ReconciledIsIdentity` | portus-window/src/tauri_window/commands.rs:188-236 | reconciling a window with its own exported entry leaves the registry equal and counts as unchanged, whatever native calls fail |
| `RoundTrip.RoundTripIff` | portus-window/src/tauri_window/commands.rs:158-323 | for every registry, with or without pruning and whatever native calls fail, applying the exported layout is the identity with every window reported unchanged if and only if no listed window matches the exported entry of a later one |
| `RoundTrip.ExportThenApplyIff` | portus-window/src/tauri_window/commands.rs:158-323 | the same in every reachable registry after the refresh an export does |
| `RoundTrip.PruneKeepsAllIff` | portus-window/src/tauri_window/commands.rs:158-275 | with pruning, applying the exported layout keeps every window if and only if no listed window matches the exported entry of a later one |
| `RoundTrip.SameUrlCrossMatches` | portus-window/src/tauri_window/commands.rs:170-186 | two windows opened on one URL are such a cross match |
| `Authority.AuthenticatedSessionAuthority.Request` | portus-window/src/auth_session/authority.rs:62-141 | answers with a matching authorization, refuses to replace an applied grant, else starts a pending record with both flags down; keeps the record invariant |
| `Authority.AuthenticatedSessionAuthority.Revoke` | portus-window/src/auth_session/authority.rs:206-239 | revokes the record and drops both flags, touching no other record |
| `Authority.AuthenticatedSessionAuthority.SetPendingDecision` | portus-window/src/auth_session/authority.rs:268-289 | succeeds exactly for a pending record whose grant is the expected one, when one is expected |
| `Authority.AuthenticatedSessionAuthority.MarkAvailable` | portus-window/src/auth_session/authority.rs:291-308 | only an authorized record; withdrawing availability withdraws application too |
| `Authority.AuthenticatedSessionAuthority.MarkApplied` | portus-window/src/auth_session/authority.rs:310-327 | only an authorized record, and applied only when available |
| `Authority.AuthenticatedSessionAuthority.ClearOnceAfterUse` | portus-window/src/auth_session/authority.rs:329-343 | revokes a once grant and leaves every other alone |
| `Authority.RequestedIff` | portus-window/src/auth_session/authority.rs:62-141 | a request is answered Authorized only by an authorization of the same browser, scope and domain, refused while another grant is applied, and otherwise the grant asked for becomes pending |
| `Authority.RefusedIff` | portus-window/src/auth_session/authority.rs:62-117 | a request is refused outright exactly when it asks for no grant at all |
| `Authority.ClearedIff` | portus-window/src/auth_session/authority.rs:329-343 | exactly a grant given once is revoked, all others stay as they are |
| `Consent.AuthConsentController.RemoveRecord` | portus-window/src/auth_session/consent.rs:177-188 | takes the dialog away and unlinks its target only when the target still points to it |
| `Consent.AuthConsentController.Present` | portus-window/src/auth_session/consent.rs:57-112 | keeps a live dialog for the same grant, otherwise replaces it; when it succeeds and what it then shows is `Consent.PresentedIff` |
| `Consent.AuthConsentController.DecideForWindow` | portus-window/src/auth_session/consent.rs:134-161 | only the presenting window decides, once, and the decision goes to exactly the grant shown |
| `Consent.AuthConsentController.CancelWindow` | portus-window/src/auth_session/consent.rs:114-175 | cancels every dialog of the window, denying what is still pending |
| `Consent.AuthConsentController.HandleRequest` | portus-window/src/handler.rs:363-381 | request, present, and the compensating deny; what a request ends as is `Consent.RequestEnds` |
| `Consent.AuthConsentController.WindowDestroyed` | portus-window/src/main.rs:90-91 | revokes the window's own grant, then cancels its dialogs |
| `Consent.PresentedKeeps` | portus-window/src/auth_session/consent.rs:57-112 | after presenting, the token maps are inverse and the grant has its dialog, or a failure is reported |
| `Consent.NoStuckConsent` | portus-window/src/auth_session/consent.rs:57-188 | over every sequence of calls the token maps stay mutually inverse and each pending grant has a live dialog carrying exactly it |
| `Consent.DestroyLeavesNothingPending` | portus-window/src/main.rs:85-97 | after a window is destroyed no grant presented on it is pending, no dialog of it is left, and its own grant is not authorized |
| `Consent.DestroyIsExact` | portus-window/src/main.rs:85-97 | destroying a window takes exactly its dialogs away, revokes its own grant, denies the others pending on it, and changes nothing else |
| `Consent.PresentedIff` | portus-window/src/auth_session/consent.rs:57-112 | a presentation succeeds if and only if a grant is pending and a live dialog already shows it or every native answer is good; then the fresh token shows exactly it, and a failure leaves the target without a dialog |
| `Consent.RequestEnds` | portus-window/src/handler.rs:346-381 | a request ends authorized as before, refused while in use, pending with a live dialog showing exactly the grant asked for, or denied without one, each exactly when it should |
| `Consent.DecisionIsExact` | portus-window/src/auth_session/consent.rs:134-161 | a decision from the presenting window settles exactly the pending grant shown, as decided, uses the token up, and changes nothing otherwise |
| `ConsentRace.ConsentSafety` | portus-window/src/auth_session/consent.rs:134-161 | over every interleaving of lock sections an authorized record's grant equals, field for field, the grant of a dialog approved in its own presentation window |
| `ConsentRace.OnlyApprovalAuthorizes` | portus-window/src/auth_session/authority.rs:252-289 | in any run a record becomes authorized only by the decision section of one approving call, which is spent by it |
| `ConsentRace.UninterruptedDecide` | portus-window/src/auth_session/consent.rs:134-161 | the lock sections run back to back are the sequential decision |
| `ConsentRace.UninterruptedCancel` | portus-window/src/auth_session/consent.rs:163-188 | the lock sections run back to back are the sequential cancellation |
| `Broker.Load` | portus-window/src/auth_session/broker.rs:236-266 | returns exactly the usable cookies in table order when all rows read and 200 cookies, 64 KiB of secrets and the field limits hold for all, and otherwise the error of the first row in the way |
| `Broker.LoadedAreUsable` | portus-window/src/auth_session/broker.rs:238-265 | a cookie is loaded exactly when it is, field by field, that of some unexpired row for a granted host |
| `Broker.QueryWithinFilter` | portus-window/src/auth_session/broker.rs:393-416 | for any grant the query asks only for hosts the filter allows |
| `Broker.QueryMissesIff` | portus-window/src/auth_session/broker.rs:393-416 | for any grant and host, allowed but never asked for if and only if it is no listed domain and is a dotted one (exact domain) or a proper subdomain of one (YouTube) |
| `Broker.SubdomainIsMissed` | portus-window/src/auth_session/broker.rs:393-416 | "www.youtube.com" is such a host for a grant of "youtube.com" |
| `Broker.AuthenticatedSessionBroker.Acquire` | portus-window/src/auth_session/broker.rs:109-141 | only an authorized Firefox grant with at least one cookie gets a session, and then is marked available |
| `Broker.AuthenticatedSessionBroker.Discard` | portus-window/src/auth_session/broker.rs:150-153 | the session is gone and availability withdrawn |
| `Broker.AcquiredIff` | portus-window/src/auth_session/broker.rs:109-141 | an acquisition succeeds if and only if the grant is authorized, for Firefox, and yields a cookie; then these are its session and it is available; otherwise nothing changes |
| `Broker.DiscardedIff` | portus-window/src/auth_session/broker.rs:150-153 | exactly the session goes, and both flags of an authorized grant |
| `Cookies.CleanedSpec` | portus-window/src/auth_session/webkit.rs:84-95 | a cookie survives a deletion pass exactly when it was there and none of its deletions worked |
| `Cookies.UndeletedSpec` | portus-window/src/auth_session/webkit.rs:209-222 | a cookie is kept for retry exactly when one of its deletions failed |
| `Cookies.KeptIsWhatRemains` | portus-window/src/auth_session/webkit.rs:209-222 | for distinct cookies that are there, what is kept is exactly what remains |
| `Cookies.AuthenticatedSessionWebKit.DeleteEach` | portus-window/src/auth_session/webkit.rs:209-215 | the deletion loop, for any pattern of failures |
| `Cookies.AuthenticatedSessionWebKit.InstallEach` | portus-window/src/auth_session/webkit.rs:83-119 | installs up to the first failure, then rolls back and tracks what could not be deleted |
| `Cookies.AuthenticatedSessionWebKit.ApplyAuthorizedCookies` | portus-window/src/auth_session/webkit.rs:68-136 | the checks before installation and the tracking after it |
| `Cookies.AuthenticatedSessionWebKit.Apply` | portus-window/src/auth_session/webkit.rs:138-182 | a failure to show the window or to mark the grant is answered with a revoke |
| `Cookies.AuthenticatedSessionWebKit.Revoke` | portus-window/src/auth_session/webkit.rs:184-239 | every outcome: nothing tracked, window gone, cookies left, video not restored, done |
| `CookieTracking.ApplyTracks` | portus-window/src/auth_session/webkit.rs:68-182 | each cookie an apply writes and leaves in the window is tracked afterwards, whatever fails and whatever it answers, unless a failed installation landed; nothing else comes into a window and other targets are untouched |
| `CookieTracking.ApplyTracksIff` | portus-window/src/auth_session/webkit.rs:68-182 | from an untracked target, every cookie an apply writes and leaves in the window is tracked if and only if no failed installation landed there |
| `CookieTracking.AddedAreTrackedIff` | portus-window/src/auth_session/webkit.rs:68-182 | of the cookies it adds to any window the same holds, but for a landed one that was there already |
| `CookieTracking.StrayIsForgotten` | portus-window/src/auth_session/webkit.rs:84-109 | a cookie whose installation failed and landed, and that no earlier one installed, stays in the window and is not tracked |
| `CookieTracking.RevokeExact` | portus-window/src/auth_session/webkit.rs:184-239 | Ok leaves none of the tracked cookies, a cookie failure keeps exactly the undeleted ones and covers all that remain, a pending cleanup changes nothing, an unrestored video keeps the full list |
| `CookieTracking.RevokeFrame` | portus-window/src/auth_session/webkit.rs:184-239 | a revoke touches no other target or window and forgets nothing it leaves behind |
| `CookieTracking.FailedRevokeKeepsUndeletedIff` | portus-window/src/auth_session/webkit.rs:209-234 | a failed revoke with a window keeps exactly the cookies it could not delete if and only if it had none, or it is not the case that all deletions worked and a web video was not restored |
| `CookieTracking.UnrestoredVideoKeepsList` | portus-window/src/auth_session/webkit.rs:224-234 | such a revoke, with its only cookie gone from the window and still tracked |
| `CookieTracking.ReapplyKeepsIff` | portus-window/src/auth_session/webkit.rs:68-182 | an apply to a tracked target, whatever it answers, keeps every earlier cookie still in its window tracked if and only if it does not replace the session, or the new one covers what the window holds, or the profile is purged |
| `CookieTracking.OtherWindowForgets` | portus-window/src/auth_session/webkit.rs:122-135 | such an apply in another window, with the only earlier cookie left in the first and tracked no more |
| `CookieTracking.ReinstalledListIff` | portus-window/src/auth_session/webkit.rs:122-135 | when the installation succeeds, the tracked list itself loses nothing if and only if it was empty or all of it was installed again in the same window |
| `CookieTracking.ApplyOkMeans` | portus-window/src/auth_session/webkit.rs:138-182 | Ok only for an authorized and available grant with every cookie installed, in the window and tracked |
| `CookieTracking.ApplyOkIff` | portus-window/src/auth_session/webkit.rs:138-182 | an apply succeeds if and only if it gets as far as installing, every cookie installs, the window shows and the grant is available |
| `CookieTracking.RevokeOkIff` | portus-window/src/auth_session/webkit.rs:184-239 | a revoke succeeds if and only if nothing is tracked, or every tracked cookie is deleted and a web video restored, or the window is gone and its profile purged; then nothing is tracked or applied |
| `CookieTracking.StaleSessionIsNotApplied` | portus-window/src/auth_session/webkit.rs:177-181 | a session left from an earlier grant is installed, refused and taken out again |
| `GrantFlags.StepKeepsInv` | portus-window/src/auth_session/authority.rs:291-352 | every API call keeps the flags backed by their components and never changes the contents of a grant that stays applied |
| `GrantFlags.FlagsAgree` | portus-window/src/auth_session/broker.rs:109-153 | in every reachable state applied implies available implies authorized, available implies the broker holds cookies, applied implies the applier tracks a session |
| `GrantFlags.NoCookieForgotten` | portus-window/src/auth_session/webkit.rs:68-239 | over every run, with pages setting cookies of their own in between, in which no failed installation lands and no second apply forgets, every brokered cookie in a window is tracked |
| `GrantStory.ApprovedGrantRuns` | portus-window/src/auth_session/webkit.rs:68-239 | from any reachable state a new Firefox grant requested, approved, brokered and applied with good native answers ends authorized, available and applied with every cookie in its window and tracked, and a revoke then leaves none of that |
| `GrantStory.WindowEnds` | portus-window/src/main.rs:76-97 | the hooks of a closing and of a destroyed window leave nothing of the session chosen for it when the deletions work |
| `GrantFlags.AuthHandler.HandleRevoke` | portus-window/src/handler.rs:383-394 | the grant is revoked first and its cookies are cleaned up even when there is no grant record |
| `GrantFlags.AuthHandler.BeforeClose` | portus-window/src/main.rs:76-84 | a closing window's applied target is revoked first |
| `GrantFlags.AuthHandler.AfterDestroy` | portus-window/src/main.rs:85-97 | the whole destroy hook: grant, dialogs, then cookies |
| `HistoryWorker.ObserveWindow` | portus-window/src/database.rs:142-168 | a session mirrors the window's own histories, or extends its own bounded ones after a restart |
| `HistoryWorker.ConfigRoundTrip` | portus-window/src/database.rs:412-471 | each stored configuration value reads back as it was written, and the defaults read as on with 15 days |
| `HistoryWorker.DefaultsAreForMissing` | portus-window/src/database.rs:412-422 | stored values are kept, and only missing ones become on and 15 days |
| `HistoryWorker.DbWorker.OpenSession` | portus-window/src/database/service.rs:268-289 | row and session appear together or not at all; nothing while history is off; a second session of a window is refused |
| `HistoryWorker.DbWorker.AbortOpen` | portus-window/src/database/service.rs:291-301 | row and session disappear together or not at all |
| `HistoryWorker.DbWorker.SyncWindow` | portus-window/src/database/service.rs:303-313 | the session observes the window even when the row cannot be written |
| `HistoryWorker.DbWorker.CloseSession` | portus-window/src/database/service.rs:315-334 | closing and pruning commit together with dropping the session, or nothing changes |
| `HistoryWorker.DbWorker.ClearHistory` | portus-window/src/database/service.rs:397-404 | deletes exactly the closed rows and counts them |
| `HistoryWorker.DbWorker.EnableHistory` | portus-window/src/database/service.rs:448-465 | one row and one restarted session for each window, or no change when any insert fails |
| `HistoryWorker.DbWorker.ApplyEnabled` | portus-window/src/database/service.rs:414-427 | switching off drops open rows, sessions and the stored flag together, or nothing |
| `HistoryWorker.DbWorker.ApplyRetention` | portus-window/src/database/service.rs:428-443 | a valid new retention is stored and pruned with in one transaction |
| `HistoryRuns.StartAgrees` | portus-window/src/database/service.rs:174-205 | whatever the crashed process left, a start that succeeds has no open row, no session and the stored configuration |
| `HistoryRuns.StepAgrees` | portus-window/src/database/service.rs:207-465 | every command, failing or not, keeps worker and table in agreement |
| `HistoryRuns.WorkerAndTableAgree` | portus-window/src/database/service.rs:174-465 | in every state reached from any database, through failed statements, toggles, crashes and restarts, open rows and sessions correspond one to one by session id and window id, both are empty while history is off, and the configuration in memory is the stored one |
| `HistoryRuns.RegistryUrlsFit` | portus-window/src/window_core.rs:736-742 | every window of a reachable registry whose requested URL is within the limit satisfies the size assumption of the runs |
| `HistoryCommands.BeginsIff` | portus-window/src/database/service.rs:268-289 | a session begins if and only if it is asked for, every statement succeeds, history is on or being switched on, the window has none and the id is new |
| `HistoryCommands.BegunRow` | portus-window/src/database.rs:473-520 | the row of a session that begins is open and describes the window it was asked for |
| `HistoryCommands.EndsIff` | portus-window/src/database/service.rs:291-334 | a session ends if and only if its close, its abort or switching off succeeds; the last two delete its row, a close leaves it closed |
| `HistoryCommands.StartsIff` | portus-window/src/database/service.rs:174-205 | a start succeeds if and only if all its steps do and the configuration reads; rows left open are then closed as abruptly terminated |
| `HistoryCommands.ConfigStep` | portus-window/src/database/service.rs:406-465 | history and retention are as last set by a command that succeeded |
| `HistoryCommands.ClearIsExact` | portus-window/src/database/service.rs:397-404 | a clear leaves exactly the open rows and answers how many closed ones it deleted |
| `HistoryTimelines.StepKeepsClosed` | portus-window/src/database.rs:637-650 | a closed row stays, unchanged, if and only if the command deletes none of its age: a clear deletes all, a close, a new retention and a start exactly those closed more than the days in force before |
| `HistoryTimelines.ClosedRowsAreFinal` | portus-window/src/database/service.rs:315-465 | a row once closed is the same row for as long as the table holds it |
| `HistoryTimelines.TimelinesTell` | portus-window/src/database.rs:110-168 | each active session's timeline tells what its windows showed since it began, and its row tells a beginning of that, up to the last write that worked |
| `HistoryTimelines.FreshIsReset` | portus-window/src/database/service.rs:448-465 | a session restarts its timeline exactly when it began by enabling or was opened so |
| `HistoryTimelines.NeverBackfills` | portus-window/src/database.rs:110-168 | the row of a session begun by enabling holds bounded suffixes of what was shown at or after the enabling, nothing before |
| `HistoryTimelines.ClosedRowTells` | portus-window/src/database/service.rs:315-334 | the row a close leaves is in the table and tells everything the window showed, the closing window included |
| `HistoryQuery.ListingIsUnique` | portus-window/src/database/service.rs:338-345 | the table fixes the order of the scan: newest close first, ties by session id |
| `HistoryQuery.History` | portus-window/src/database/service.rs:365-394 | the answer holds the matches of the longest scannable prefix within 10000 rows and 49152 bytes and is truncated exactly when rows are left; it fails exactly when an unreadable row is reached before that |
| `HistoryQuery.HistoryFor` | portus-window/src/database.rs:676-688 | for a case-folded query over id, title, source, description and final URL it fails exactly at an unreadable row it reaches; otherwise the answer is a prefix of all matching closed rows, complete unless it says it is truncated, fits one frame, and is the only one there is |
| `HistoryQuery.AnswerIsCompletePrefix` | portus-window/src/database/service.rs:336-395 | the answer is a prefix of all matching closed rows, and holds every one of them when it is not truncated |
| `HistoryQuery.AnswerFitsFrame` | portus-window-protocol/src/lib.rs:838-849 | the encoded response with separators, envelope and newline never exceeds 65536 bytes |
| `HistoryQuery.MatchesIff` | portus-window/src/database.rs:676-688 | a query matches exactly the rows one of whose five texts contains it in whatever case |
| `HistoryQuery.AnswerIsNewest` | portus-window/src/database/service.rs:338-345 | the answer holds the newest closes first, and nothing left out is newer than anything delivered |
| `HistoryFinds.ClosedWindowIsFound` | portus-window/src/database/service.rs:315-395 | a recorded window, closed, is found by any part of its id, title, description or URL |
| `FrameShrink.Turn` | portus-window/src/interaction.rs:274-307 | a turn of the loop finds something to cut exactly when something is left, and cuts the least important piece |
| `FrameShrink.BoundResultForFrame` | portus-window/src/interaction.rs:269-312 | the loop ends with the fewest cuts that fit 63 KiB, or with neither console nor status, and its result is the only one with that property |
| `FrameShrink.DroppedStep` | portus-window/src/interaction.rs:274-307 | cuts compose in a fixed order of importance, each lowering what is left by one |
| `FrameShrink.CutsAreFaithful` | portus-window/src/interaction.rs:269-312 | entries, errors and URLs are suffixes with the newest URL kept; the status is touched only after the console entries, its URLs only after its errors, and dropped only after the console; actions, screenshot and errors never; the flags say exactly what was cut |
| `Deadline.EvaluateForAction` | portus-window/src/interaction.rs:217-230 | one evaluation within three seconds and the time left, or a timeout without one |
| `Deadline.ExecuteWait` | portus-window/src/interaction.rs:189-215 | the wait is the one page and clock determine: it answers its last poll as reported, all before it saying "not yet", or times out at the deadline; polls start one delay and 100 ms apart |
| `Deadline.WaitedFromPoll` | portus-window/src/interaction.rs:189-215 | as long as polls say "not yet" in their time and the deadline is ahead, the next one starts at its moment, a delay and 100 ms after the one before |
| `Deadline.WaitedAnswers` | portus-window/src/interaction.rs:189-215 | a wait has a last poll and answers it as reported and when it is, or a timeout at the deadline |
| `Deadline.WaitSucceedsIff` | portus-window/src/interaction.rs:189-215 | a wait succeeds if and only if the first poll that does not report SelectorNotFound or TextNotFound is ok in its time |
| `Deadline.InstantPolls` | portus-window/src/interaction.rs:189-215 | a wait told "not yet" at once every time polls exactly ceil(time / 100 ms) times and ends at the deadline |
| `Deadline.ExecuteAction` | portus-window/src/interaction.rs:172-187 | a wait polls as above, anything else is evaluated exactly once, nothing starts at the deadline; determined by page and clock |
| `Deadline.Execute` | portus-window/src/interaction.rs:114-146 | the batch is the one page and clock determine: each step starts where the one before ended and reports what its action then answers; it ends by its deadline, its steps are an ordered prefix all but the last successful and cut short only by a failure, completed says all succeeded, reported times fit the timeout, and evaluations number at most the steps plus one for each 100 ms |
| `Ranges.ParseRange` | portus-window/src/media.rs:654-682 | an accepted range is not empty and lies inside the file |
| `Ranges.ParseIsExact` | portus-window/src/media.rs:654-682 | every single range written in digits, leading zeros included, selects exactly the bytes of section 14.1.2 of RFC 9110 when its numbers are u64, and is refused otherwise |
| `Ranges.ParseAgreesIff` | portus-window/src/media.rs:654-682 | parser and standard agree on such a range if and only if its numbers are u64 or it is unsatisfiable |
| `Ranges.AcceptsIff` | portus-window/src/media.rs:654-682 | accepted are exactly those satisfiable ranges, each number with at most one plus sign before it, and nothing else |
| `Ranges.BeyondU64IsRefused` | portus-window/src/media.rs:670-677 | "bytes=0-18446744073709551616" is satisfiable and refused |
| `Ranges.PlusIsAccepted` | portus-window/src/media.rs:670-677 | "bytes=+5-" is accepted as "bytes=5-" |
| `Ranges.CapStaysInside` | portus-window/src/media.rs:649-652 | a capped range starts where asked, is not empty, holds at most 8 MiB, stays in u64, and is full when cut |
| `Ranges.AdmittedMedia.ReadRange` | portus-window/src/media.rs:684-694 | reads exactly the asked bytes wherever the file stood before, or fails |
| `Ranges.AdmittedMedia.ServeContent` | portus-window/src/media.rs:591-647 | method check, range selection, cap and read composed; what is answered is `Ranges.AnswersWhatIsAsked` and `Ranges.AnswersWithoutRange` |
| `Ranges.AnswersAreExact` | portus-window/src/media.rs:591-647 | 206 carries exactly the bytes it names, 200 the whole file, 416 nothing, HEAD the same without a body, never more than 8 MiB |
| `Ranges.AnswersWhatIsAsked` | portus-window/src/media.rs:591-682 | a written range is answered with 206 and the bytes section 14.1.2 of RFC 9110 selects, from the first on and at most 8 MiB of them, and with 416 exactly when it is unsatisfiable or writes a number beyond u64 |
| `Ranges.AnswersWithoutRange` | portus-window/src/media.rs:591-647 | without a range a file of at most 8 MiB is answered whole and of another come its first 8 MiB; other methods are refused |
| `Ranges.Reassembles` | portus-window/src/media.rs:591-694 | asking "bytes=pos-" from 0 on ends after ceil(total / 8 MiB) requests with the original bytes |
| `Timestamp.ParseTimestamp` | portus-window/src/web_video.rs:117-158 | the two early returns and the checked loop compute the specification |
| `Timestamp.EarlyReturnsAgree` | portus-window/src/web_video.rs:122-128 | away from a plus sign the early returns say what the general loop would |
| `Timestamp.ParseIsExact` | portus-window/src/web_video.rs:117-158 | digit groups tagged h, m or s with optional untagged last digits give their weighted sum, or nothing exactly when it exceeds u64 |
| `Timestamp.AcceptsIff` | portus-window/src/web_video.rs:117-158 | accepted are exactly those, after trimming, and a plus-signed number of seconds |
| `Timestamp.PlusNinety` | portus-window/src/web_video.rs:122-128 | "+90" and "+90s" are ninety seconds |
| `Timestamp.RoundTrip` | portus-window/src/web_video.rs:117-158 | the rendering of h, m and s parses to 3600h+60m+s |
| `Gate.ObservationGate.RecordOrBuffer` | portus-window/src/tauri_window.rs:446-461 | before activation an observation is buffered last, after it the caller applies it; this is the arrival step of the runs |
| `Gate.ObservationGate.Activate` | portus-window/src/tauri_window.rs:463-472 | the activation takes the whole buffer and opens the gate; this is the activation step of the runs |
| `Gate.ExactlyOnePlace` | portus-window/src/tauri_window.rs:446-476 | in every interleaving each observation is buffered, on its way, being drained or applied, exactly one of these, and applied at most once |
| `Gate.NothingLost` | portus-window/src/tauri_window.rs:446-476 | once activation and callbacks are done each observation was applied exactly once |
| `Gate.BufferedInOrder` | portus-window/src/tauri_window.rs:463-476 | observations buffered before the activation are applied in the order they arrived in |
| `Gate.LaterMayOvertake` | portus-window/src/tauri_window.rs:446-476 | a run in which a later observation is applied before an earlier buffered one |
| `Gate.OrderIff` | portus-window/src/tauri_window.rs:446-476 | in every run everything is applied in order of arrival if and only if every callback applies its observation only once the buffer is drained and no earlier one is on its way |
| `Gate.PromptArrivalsKeepOrder` | portus-window/src/tauri_window.rs:446-476 | so it is when none arrives at the open gate while an earlier one is on its way |

## Left out

- Opening a window natively: an applied entry without a match inserts a window given by an oracle and focuses it; admission, profiles and rollback of `open` are not part of this model.
- Native calls of web views, desktops and pickers, and the injected scripts and pages: each is an oracle that answers or fails.
- `str::to_lowercase` and serde_json: arbitrary functions, the latter with the size facts each lemma states.
- The order of the registry's `BTreeMap`: an arbitrary enumeration of the keys; uniqueness of ids from UUIDs is assumed.
- The schema, pragmas and file checks of the database: a start begins once the schema is in place.
- The reply channel and queue of the history worker: commands are taken one at a time.
- The moment a native failure is reported after the fact other than a landed installation, such as a deletion reported failed that worked after all.
- Firefox profile discovery and the SQL of the cookie store: the rows of the query are given.
- A manager that is gone when an observation is delivered: the gate is modelled while the manager lives.
- Messages of interaction steps and their selectors: only kinds, codes and times are modelled.
- URL parsing, IDNA, video hosts, field validators, media signatures, exit codes and enum names: each is settled by reading one branch.
- Token maps of the media and web-video authorities: the same inverse-maps invariant as the consent dialogs, with fewer operations.
- Workspace services: catalog and moves are oracles; a confirmed move reports the index asked for, as both services do (portus-window/src/workspace/linux.rs:289-295, portus-window/src/workspace/windows.rs:271-278 with 168-182).
- Sockets, pipes and the command line.
- HistoryRuns.WorkerAndTableAgree: assumes that enabling history is given one window per session id, which the registry's keys ensure.
