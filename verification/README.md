# A verified model of the MRU window switcher

The switcher keeps a most-recently-used list of windows and lets the user walk through a frozen copy
of it before one window is focused. This project models the parts that decide what happens, and
proves what they keep over every run and against every environment.

How the model is built:

- State that the program changes in place is a class (`FakeClock`, `HistoryTracker`,
  `SessionController`, `WindowIdentityRegistry`, `HyprlandWindowSource`, `BorderHighlightUI`,
  `HyprlandWorkspaceNavigator`, `OverlaySocketServer`). Each method is proved equal to a function on
  the abstract state (a function named by a past participle is the state after the operation), and
  the laws are lemmas about those functions over whole runs. Reading loops, printers and the merge
  are methods with loop invariants.
- The environment is an oracle that also gets the number of calls made so far, so it may change its
  mind at every call: window validity, candidates, focused window, focus results, focus events
  delivered from inside a focus call, property reads and writes, timers. A theorem for every
  environment holds against an adversary. Calls are recorded in a trace.
- Most laws are stated by a second, independent reading: of the clock's event log, of the list of
  events given to the tracker, of the trace of port calls, of the bytes on the wire.

| files | subject |
|---|---|
| `Sequences`, `Blanks`, `Domain`, `Ports` | shared vocabulary, trimming, value types, selection arithmetic, scope rule, the environment |
| `Clock`, `ClockLaws` | jobs with due times and the sweep |
| `History`, `Debounced` | the debounced list and its refinement |
| `Session`, `SessionLaws`, `CommandLaws`, `Grammar`, `ApplyLaws`, `ApplyTargets`, `PolicyFreeze` | the session controller |
| `MruMerge`, `Chain` | merging, and chains of sessions |
| `Registry`, `Candidates`, `CandidateLaws`, `Switcher` | window identity, the candidate list, and the controller over both |
| `Capture`, `Highlight`, `HighlightGrammar`, `HighlightLaws`, `HighlightRuns`, `HighlightLimits`, `Agreement`, `AgreementLimits` | the border highlight, alone and together with the controller |
| `Navigator` | workspace elevation and restore |
| `OverlayText`, `OverlayPrinter`, `Json`, `OverlayReader` | what the plugin prints for its peer, and a peer that reads it as JSON |
| `OverlayCommand`, `OverlayPeer`, `Framing`, `Protocol` | what the peer sends, however it spaces and cuts it |

Where the code and its own comments disagree, the model follows the code:

- The comment at src/plugin/hypr/identity_registry.cpp:67-69 says that a closed window that is still
  alive stays resolvable; `resolve` rejects a closed entry (line 48).
- `prune_closed` erases `next_generation` with the entry, so generations restart at 1 for that
  address (src/plugin/hypr/identity_registry.cpp:63-76). `Identity.ErasureRun` is a run in which an
  old ref then resolves to a new window; `Identity.RefsNeverChangeHands` is what holds until then.
- The comment at src/plugin/hypr/identity_registry.cpp:42 says that `live_ref` finds nothing for an
  unseen window. When an earlier window died at the same address without a close event, it finds that
  window's ref, which resolves to nothing (`Identity.StaleRun`). `Registry.LiveRefResolves` says when
  the ref it finds is the window's own: exactly when that window was registered.
- The highlight indexes its own copy of the start snapshot and is not told about prunes
  (src/plugin/border_highlight_ui.cpp:232, src/domain/session_controller.cpp:186). In a session that
  lost no window they agree (`Agreement.HighlightIsSelection`). In one that did,
  `AgreementLimits.AgreementExactly` says when they still agree: exactly when the highlighted window
  is still in the snapshot, and all windows before it are, or none after it.
  `AgreementLimits.DisagreementRun` is a run that ends in disagreement.
- `pulse_tick` writes both colours whether or not their overrides had succeeded
  (src/plugin/border_highlight_ui.cpp:414-418). `HighlightLimits.TickThenEnd` says exactly when the
  end of the session still restores everything: when at each of the two colours the override was
  applied, or the tick's write failed, or the written colour is a clean value of the slot.
  `HighlightLimits.StrandingRun` is a run that leaves the throb colour behind.
- `normalize_capture` can leave whitespace at the end of an `rgb(...)` value, and such a value is cut
  again at the next capture. `Capture.StableExactly` says exactly which values survive a second
  capture, and `HighlightLimits.UnstableColorDrifts` what two ordinary sessions do to one that does not.
- `from_chars` reads "-0" as 0, so a select with the index "-0" is accepted as index 0.

## Model

| member | source | states |
|---|---|---|
| Clock.FakeClock.ScheduleAfter | src/domain/fake_clock.cpp:8-12 | the job gets the next id, is due `delay` after now, and joins the clock; nothing else changes |
| Clock.FakeClock.Cancel | src/domain/fake_clock.cpp:14-16 | every job with the id is gone, the others keep their order |
| Clock.FakeClock.BeginSweep | src/domain/fake_clock.cpp:18-31 | time has moved, and the list holds what is due then, sorted by (due time, id) |
| Clock.FakeClock.Take | src/domain/fake_clock.cpp:33-40 | the job is taken out once; nothing is taken when it was cancelled meanwhile |
| Clock.FakeClock.Advance | src/domain/fake_clock.cpp:18-42 | the whole sweep, whatever the callbacks schedule and cancel, is the run on which the sweep laws are proved |
| ClockLaws.SweepLawsHold | src/domain/fake_clock.cpp:8-42 | over any run: each job runs at most once, never after being cancelled, never before its due time, in (due time, id) order within a sweep, and never in a sweep that had begun when it was armed |
| ClockLaws.SweepIsComplete | src/domain/fake_clock.cpp:18-42 | after a sweep nothing is outstanding that was outstanding and due when it began |
| History.HistoryTracker.OnFocus | src/domain/history_tracker.cpp:14-21 | ignored while locked; otherwise the pending promotion is replaced by one for this window, due after the debounce time |
| History.HistoryTracker.SetSessionLocked | src/domain/history_tracker.cpp:23-27 | locking withdraws what is pending, once; unlocking does not |
| History.HistoryTracker.FlushPending | src/domain/history_tracker.cpp:29-36 | the pending promotion is committed now and its job cancelled; a no-op when nothing is pending |
| History.HistoryTracker.SetDebounceMs | src/domain/history_tracker.cpp:38-40 | the debounce time is clamped to 5000 ms; a pending job keeps its due time |
| History.HistoryTracker.Seed | src/domain/history_tracker.cpp:42-51 | the order is rebuilt from the given windows, one question each |
| History.HistoryTracker.CancelPending | src/domain/history_tracker.cpp:53-59 | nothing is pending, and the job is gone from the clock |
| History.HistoryTracker.Commit | src/domain/history_tracker.cpp:61-70 | a window that is valid when asked moves to the front, any other leaves the order alone |
| History.HistoryTracker.AdvanceClock | src/domain/fake_clock.cpp:18-42 | a clock sweep with the tracker's own callbacks |
| SessionLaws.SeedKeepsFirstValid | src/domain/history_tracker.cpp:42-51 | seeding keeps the first occurrence of every window that was valid when its entry was asked about, in the given order, and nothing of the old order |
| Debounced.DebounceRefinement | src/domain/history_tracker.cpp:14-70 | for every run of focus, lock, flush, debounce and time events and any changing validity, the order is the fold of move-to-front over exactly the focus events that were accepted while unlocked, reached their due time or a flush before a later accepted focus or lock, and were valid at commit |
| Debounced.OneJobIffPending | src/domain/history_tracker.cpp:14-70 | the clock holds a job iff a promotion is pending, and then only that of the last accepted focus, at its due time |
| Selection.WrappedIndex | src/domain/selection.cpp:19-34 | with wrapping, any mix of steps lands on (start + nexts - prevs) mod len |
| Selection.AdvanceSteps | src/domain/selection.cpp:19-34 | one step goes to the neighbour; at an end it goes round with wrapping and stays without; an index beyond the list counts as the last |
| Selection.HeldIndex | src/domain/selection.cpp:25-29 | without wrapping, k steps forward land on min(start + k, len - 1) and k steps back on max(start - k, 0) |
| Selection.InsideIndex | src/domain/selection.cpp:25-29 | without wrapping, a walk that never leaves the list lands on start + nexts - prevs |
| Session.SessionController.Cycle | src/domain/session_controller.cpp:15-27 | idle: begins a session of the override scope or else the default one; active: advances by the frozen wrap rule and tells the UI, ignoring the scope (told by the calls alone in `CommandLaws.CycleOpens` and `CommandLaws.CycleMoves`) |
| Session.SessionController.SelectIndex | src/domain/session_controller.cpp:29-37 | selects an index in range and tells the UI; a no-op when idle or out of range |
| Session.SessionController.BeginSession | src/domain/session_controller.cpp:39-64 | flush, then candidates; none: idle with an error; some: snapshot, start index, origin, next session id, frozen policy, lock, and one UI start |
| Session.SessionController.Apply | src/domain/session_controller.cpp:66-93 | the state, trace and result of an apply with its one bounded re-attempt |
| Session.SessionController.CompleteApply | src/domain/session_controller.cpp:95-105 | the session ends as Applied, and then the applied window is seen by the unlocked history |
| Session.SessionController.ResolveAndFocus | src/domain/session_controller.cpp:107-120 | prune, at most one more prune, clamp, at most one focus; none when no window is left |
| Session.SessionController.Cancel | src/domain/session_controller.cpp:122-134 | the session ends first, then a valid origin is focused if the frozen policy restores |
| Session.SessionController.PluginShutdown | src/domain/session_controller.cpp:136-140 | ends an open session with the shutdown reason |
| Session.SessionController.EndSession | src/domain/session_controller.cpp:142-154 | the controller is reset, history unlocked, and one UI end sent, Applied only for that reason |
| Session.SessionController.PrunedSnapshot | src/domain/snapshot.cpp:35-47 | exactly the windows answered valid, each asked once, in order; none when empty |
| Session.SessionController.PruneActive | src/domain/session_controller.cpp:156-170 | the snapshot loses its invalid windows and keeps its scope, the index is clamped |
| Session.SessionController.OnFocus | src/domain/session_controller.cpp:172-176 | a focus event reaches history only while idle |
| Session.SessionController.OnWindowInvalid | src/domain/session_controller.cpp:178-189 | prunes for a window of the snapshot only, and ends the session when none is left |
| Session.SessionController.SetPolicy | src/domain/session_controller.cpp:191-193 | replaces the live policy and nothing else |
| CommandLaws.CycleOpens | src/domain/session_controller.cpp:15-64 | a cycle while idle settles a pending promotion and asks once for candidates, of the override scope or else the live default; a session starts iff there are any, and its start tells exactly that list and scope at the first or second place; its origin is the answer about the focused window, its policy the live one |
| CommandLaws.CycleMoves | src/domain/session_controller.cpp:22-26 | a cycle in a session moves one place by the frozen wrap rule, makes the one UI change that tells it, and changes nothing else, whatever scope it names |
| CommandLaws.SelectMoves | src/domain/session_controller.cpp:29-37 | a select in range sets the place and makes one UI change; any other does nothing |
| CommandLaws.CancelRestores | src/domain/session_controller.cpp:122-134 | the exact calls of a cancel: the end, then the question about the origin iff the frozen policy restores and there is one, then its focus iff the answer was valid |
| CommandLaws.ShutdownEnds | src/domain/session_controller.cpp:136-140 | a shutdown makes the one UI end, and nothing of the session is left but its id and the reason |
| CommandLaws.LossPrunes | src/domain/session_controller.cpp:178-189 | a lost window of the session has every window asked about once; those answered valid remain in order and the place is clamped to them; with none left the session ends; any other lost window does nothing |
| CommandLaws.IdleIsQuiet | src/domain/session_controller.cpp:29-189 | without a session, select, apply, cancel, shutdown and lost windows do nothing |
| CommandLaws.FocusPends | src/domain/session_controller.cpp:172-176 | a focus event is swallowed by a session; otherwise it becomes the one pending promotion, due after the debounce time |
| CommandLaws.TimeCommits | src/domain/history_tracker.cpp:61-70 | time commits the pending promotion exactly when it is due, asking about its window only, and does nothing in a session |
| CommandLaws.SettingsChange | src/domain/history_tracker.cpp:38-40 | a new policy is the live policy and nothing else; a new debounce time is held at 5000 ms and moves no pending promotion |
| SessionLaws.WholeRunInvariant | src/domain/session_controller.cpp:15-193 | after any commands and answers: active iff snapshot present iff tracker locked; while active the snapshot is non-empty, the index is inside, nothing is pending and the clock holds no job |
| SessionLaws.SessionIsFrozen | src/domain/session_controller.cpp:15-193 | between any two moments of one session the order has not moved, the snapshot is an in-order subsequence with the same scope, frozen policy and origin are those of the start |
| SessionLaws.StepKeeps | src/domain/session_controller.cpp:15-193 | every command keeps the invariant, a session keeps its id until it ends, and a new one gets the next id |
| SessionLaws.NoWindowTwice | src/domain/history_tracker.cpp:61-70 | if candidate lists have no window twice, neither the order nor any session's snapshot ever has |
| Grammar.TraceGrammar | src/domain/session_controller.cpp:15-134 | every run's calls form (start change* end)*; a start tells the list and scope just asked for; starts equal the session id; indices are in range; an end is Applied iff a focus of that session succeeded; a session's focus calls are for its own windows and stop after a success; outside a session only the window that had focus at the last start is focused |
| Grammar.ChangesAreCurrent | src/domain/session_controller.cpp:24-36 | the UI is told of a change only by a cycle or a select in a session, about the index just set, in range for the snapshot as it is after all prunes |
| Grammar.FocusOnlyInApplyOrRestore | src/domain/session_controller.cpp:122-134 | a command makes a focus call only if it applies an open session, or cancels one whose frozen policy restores, after the end, for the origin just answered valid |
| ApplyLaws.ApplyAgainstAdversary | src/domain/session_controller.cpp:66-120 | whatever the answers and re-entrant focus events: at most two focus calls, the second only after InvalidTarget; exactly one UI end, and an end reason determined by the focus calls; every focused window is of the session and its latest validity answer was true |
| ApplyLaws.ApplyAfterAnyRun | src/domain/session_controller.cpp:66-170 | the same for an apply after any commands, given duplicate-free candidate lists |
| ApplyLaws.SteadyTarget | src/domain/session_controller.cpp:107-120 | with unchanging validity the first target is the valid part of the snapshot at min(index, length - 1), and there is none iff no window is valid |
| ApplyTargets.ApplyTargetsSlot | src/domain/session_controller.cpp:66-120 | whatever the answers: every focus call of an apply is for place min(index, length - 1) among the windows whose latest answer at that moment is "valid"; it ends for want of windows only if the latest answer about every one is "invalid"; the result carries the error text of its end |
| PolicyFreeze.PolicyNonInterference | src/domain/session_controller.cpp:191-193 | two runs of an open session that differ only in policy changes return the same results and make the same port calls until it ends |
| PolicyFreeze.PolicyInvisible | src/domain/session_controller.cpp:54-58 | a run of an open session looks as if its policy changes had not been made |
| MruMerge.MergeMruOrder | src/plugin/mru_merge.cpp:7-25 | the two pushing loops compute the first occurrences of primary followed by fallback |
| MruMerge.MergeKeepsOrder | src/plugin/mru_merge.cpp:7-25 | exactly the windows of both lists, each once, and a duplicate-free primary list comes first unchanged |
| MruMerge.MergeMovesToFront | src/plugin/mru_merge.cpp:7-25 | merge(moveToFront(p, w), f) = moveToFront(merge(p, f), w) |
| Chain.RoundMovesToFront | src/domain/session_controller.cpp:29-105 | with all windows valid and focus succeeding, an applied session with any cycles, selects, time, focus and close events in it, and time and repeat focus events after it, turns the list into itself with the applied window moved to the front, a permutation |
| Chain.CancelledRound | src/domain/session_controller.cpp:122-134 | a cancelled session leaves the next list as it was, unless a focus event re-enters from the focus it restores; then the last such window is at its front |
| Chain.ShutDownRound | src/domain/session_controller.cpp:136-140 | a session ended by shutdown leaves the next list as it was |
| Chain.ChainMovesToFront | src/domain/session_controller.cpp:29-140 | any number of applied, cancelled and shut down sessions: the next list is the fold of move-to-front over the landings of the applied ones, always a permutation |
| Chain.LandingWraps | src/domain/selection.cpp:7-34 | with wrapping, a session lands on (anchor + nexts - prevs) mod n, where the anchor is its start or its last select in range and the steps are those since |
| Chain.SingleCyclesAlternate | src/domain/session_controller.cpp:95-105 | single-cycle sessions starting at the second window alternate between the two front windows |
| Registry.WindowIdentityRegistry.RegisterWindow | src/plugin/hypr/identity_registry.cpp:15-30 | an open entry of the same live window keeps its ref; otherwise a new generation and sequence number are issued |
| Registry.WindowIdentityRegistry.ResolveRef | src/plugin/hypr/identity_registry.cpp:46-54 | the window of an open entry of this generation, if it is alive |
| Registry.WindowIdentityRegistry.OnWindowClose | src/plugin/hypr/identity_registry.cpp:56-61 | the entry at the window's address is closed, then closed entries of dead windows are erased |
| Registry.WindowIdentityRegistry.PruneClosed | src/plugin/hypr/identity_registry.cpp:63-76 | exactly the closed entries of dead windows are erased |
| Registry.WindowIdentityRegistry.LiveRefsNewestFirst | src/plugin/hypr/identity_registry.cpp:82-96 | all refs of open entries, each once, in strictly decreasing registration sequence, for any iteration order of the map |
| Registry.WindowIdentityRegistry.LiveRef | src/plugin/hypr/identity_registry.cpp:39-44 | the ref of the open entry at the window's address, whichever window it was handed out for |
| Registry.LiveRefResolves | src/plugin/hypr/hypr_window_source.cpp:122-127 | a ref that resolves to a window is the one found for it; the ref found for a live window resolves to it iff that window was registered, and never to another |
| Registry.LatestRegistrationLeads | src/plugin/hypr/identity_registry.cpp:24-28 | a registration that changes anything leads the newest-first list; the ref its address had leaves it, the others keep their order |
| Registry.PruneIsInvisible | src/plugin/hypr/identity_registry.cpp:63-76 | erasing closed entries of dead windows changes no answer of `resolve` |
| Registry.NewestFirstUnique | src/plugin/hypr/identity_registry.cpp:82-96 | that list is determined by the entries |
| Identity.RefsNeverChangeHands | src/plugin/hypr/identity_registry.cpp:15-61 | while an address's entry is not erased, a ref handed out there resolves to its window or to nothing, never stands for two windows, and a later window there gets a greater generation |
| Identity.LiveWindowKeepsRef | src/plugin/hypr/identity_registry.cpp:15-30 | a window that stays alive and unclosed keeps its ref through any events |
| Identity.ErasureRestarts | src/plugin/hypr/identity_registry.cpp:63-76 | once an entry is gone, the next window at its address gets generation 1 again |
| Identity.ErasureRun | src/plugin/hypr/identity_registry.cpp:63-76 | a run in which one ref stands first for one window and then for another |
| Identity.ClosedRefStaysGone | src/plugin/hypr/identity_registry.cpp:46-61 | after its close event a window is never again reached by a ref it had before: not while it lives on, not when it is registered again, not after the entry is erased |
| Identity.StaleRun | src/plugin/hypr/identity_registry.cpp:39-44 | a run after which the ref found for a new window is that of a dead one at its address, and resolves to nothing |
| Candidates.HyprlandWindowSource.CurrentFocus | src/plugin/hypr/hypr_window_source.cpp:34-64 | the anchors of the focused window, and all active and shown special workspaces in monitor order |
| Candidates.HyprlandWindowSource.FromHistory | src/plugin/hypr/hypr_window_source.cpp:89-101 | every candidate of the history is registered on sight; the refs are those of the places of the history that qualify, all of them, the latest place first |
| Candidates.HyprlandWindowSource.FromRegistry | src/plugin/hypr/hypr_window_source.cpp:102-106 | what was listed is continued by the listed part of the live refs, in their order |
| Candidates.HyprlandWindowSource.FromOrder | src/plugin/hypr/hypr_window_source.cpp:108-113 | the qualifying part of the tracker's order, in its order |
| Candidates.HyprlandWindowSource.Candidates | src/plugin/hypr/hypr_window_source.cpp:84-116 | exactly the refs of open entries whose window is alive, mapped, not hidden and in scope, each once, no two with one address; the qualifying part of the order comes first in its order; of any two others the one whose window stands later in the history comes first, windows of the history before all others, and those in descending sequence number |
| Candidates.CandidatesAreExact | src/plugin/hypr/hypr_window_source.cpp:84-116 | two lists for one situation hold the same refs |
| Candidates.CandidateListBuilt | src/plugin/hypr/hypr_window_source.cpp:102-115 | any fallback of listed refs that covers the registry's list merges with the order to an exact candidate list |
| Candidates.QualifyingPartListed | src/plugin/hypr/hypr_window_source.cpp:108-113 | the primary part is an in-order part of the tracker's order, all of it listed |
| CandidateLaws.CandidatesInScope | src/domain/scope_predicate.cpp:12-29 | told by looks and screens alone: a ref is a candidate iff it resolves to a live window that is mapped, not hidden, on screen if it is special or the scope asks for it, and of the monitor, workspace or class of the focused window if the scope names it and there is one |
| CandidateLaws.SightedRegisters | src/plugin/hypr/hypr_window_source.cpp:93-97 | building the list registers every candidate of the history, also those out of scope |
| CandidateLaws.SightedElsewhere | src/plugin/hypr/hypr_window_source.cpp:93-97 | and leaves the entries of all other addresses alone |
| CandidateLaws.SightedOrder | src/plugin/hypr/hypr_window_source.cpp:93-97 | of two windows first seen in one pass the one focused more recently gets the smaller sequence number |
| CandidateLaws.SeedFollowsHistory | src/plugin/plugin_lifecycle.cpp:122-124 | the order seeded from a candidate list holds exactly its windows, more recently focused ones first, those of the history before the rest |
| Switcher.ApplyFocusesWhatWasShown | src/plugin/hypr/hypr_focus_gateway.cpp:11-17 | after any run of window events and commands over the real registry, window source and gateway: an apply focuses exactly one window if any of the session's windows is still there, none otherwise; it is the selected slot of those, and it is the very window its ref meant when the session began unless that window's entry was erased since |
| Switcher.SeenIsSighted | src/plugin/hypr/hypr_window_source.cpp:89-101 | the registry of the composed run is the one that building the candidate list leaves |
| Switcher.ResolvesToIssued | src/plugin/hypr/identity_registry.cpp:46-54 | a ref on record resolves to the window it was handed out for, or to nothing |
| Capture.StableExactly | src/plugin/border_highlight_ui.cpp:164-221 | exactly when a captured value survives being captured again: always for sizes, alphas and hex colours, otherwise unless the text drifts; without whitespace it is a fixed point |
| Capture.DriftingReply | src/plugin/border_highlight_ui.cpp:191-210 | a reply that is shortened by the second capture |
| Capture.ColorExactly | src/plugin/border_highlight_ui.cpp:164-221 | a colour is captured exactly from the replies that name one (six or eight hex digits, "0x" and hex digits, or an rgb form, with an angle behind it or not), and the value written back has the same digits or the same rgb text |
| Capture.PlainExactly | src/plugin/border_highlight_ui.cpp:166-189 | a size or alpha is captured exactly from the replies that hold it between whitespace |
| Highlight.BorderHighlightUI.OnSessionStart | src/plugin/border_highlight_ui.cpp:230-243 | restore, fresh snapshot, probe; degraded when the interface is unavailable, else highlighted |
| Highlight.BorderHighlightUI.OnSelectionChanged | src/plugin/border_highlight_ui.cpp:245-248 | everything is put back before the next highlight |
| Highlight.BorderHighlightUI.OnSessionEnd | src/plugin/border_highlight_ui.cpp:250-262 | everything is put back, the navigator ended, the snapshot dropped |
| Highlight.BorderHighlightUI.ProbeAvailable | src/plugin/border_highlight_ui.cpp:274-288 | the first valid window decides; available when there is none |
| Highlight.BorderHighlightUI.DoHighlight | src/plugin/border_highlight_ui.cpp:290-346 | nothing without a valid target in range; the style acts only after the overrides |
| Highlight.BorderHighlightUI.TryOverride | src/plugin/border_highlight_ui.cpp:297-305 | no override unless both colours were read back |
| Highlight.BorderHighlightUI.ApplyOverrides | src/plugin/border_highlight_ui.cpp:317-335 | both colours and the size, each remembered as applied iff its write succeeded; the size captured before it is overridden |
| Highlight.BorderHighlightUI.ApplyStyle | src/plugin/border_highlight_ui.cpp:337-346 | the pulse timer is armed for Pulse, the ring dimmed for Dim |
| Highlight.BorderHighlightUI.DimRing | src/plugin/border_highlight_ui.cpp:348-376 | every window but the selected one is visited, in order; nothing when dimming is off |
| Highlight.BorderHighlightUI.DimOne | src/plugin/border_highlight_ui.cpp:360-374 | a valid window is dimmed only after both alphas were read back |
| Highlight.BorderHighlightUI.CancelPulse | src/plugin/border_highlight_ui.cpp:395-403 | the timer is disarmed and the throb starts from the bright colour again |
| Highlight.BorderHighlightUI.PulseTick | src/plugin/border_highlight_ui.cpp:405-419 | both colours of the first capture are toggled; the captures do not change |
| Highlight.BorderHighlightUI.ReadSlot | src/plugin/border_highlight_ui.cpp:421-428 | the captured form of the reply, which `Capture.ColorExactly` and `Capture.PlainExactly` determine; empty when the slot could not be read |
| Highlight.BorderHighlightUI.RestoreWindow | src/plugin/border_highlight_ui.cpp:434-452 | exactly the applied slots are put back, in order, with the captured value or "unset" |
| Highlight.BorderHighlightUI.RestoreAll | src/plugin/border_highlight_ui.cpp:454-459 | all captures are put back in order and forgotten, the timer is disarmed |
| HighlightGrammar.StartCalls | src/plugin/border_highlight_ui.cpp:230-346 | whatever the ports answer, a session start makes exactly these calls: restores, the navigator begin, questions up to the first valid window and the read of its active colour, and if that was not empty a highlight; the store is what the successful writes leave. A highlight: the question, both colours read, the window shown, both colours painted, the size read and painted if one is set, then the timer or every other window in order, each asked about, both alphas read and then both painted; an unusable reply ends its part |
| HighlightGrammar.ChangeCalls | src/plugin/border_highlight_ui.cpp:245-248 | a change makes restores and then the calls of a highlight; in a degraded session restores only |
| HighlightGrammar.EndCalls | src/plugin/border_highlight_ui.cpp:250-262 | an end makes restores and then the navigator end; no capture, snapshot or armed timer is left |
| HighlightGrammar.TickCalls | src/plugin/border_highlight_ui.cpp:405-419 | a tick of an armed pulse paints both colours of the highlighted window, darker and plain by turns; any other tick does nothing |
| HighlightRuns.ExactRestore | src/plugin/border_highlight_ui.cpp:230-459 | for each slot on its own, over any number of sessions, changes and ticks, with failing reads, override and throb writes: after an end it holds its original value or its captured form ("unset" only for a size that could not be read) and carries no override |
| HighlightRuns.SlotBooked | src/plugin/border_highlight_ui.cpp:290-459 | one slot whose restore writes succeed carries an override iff a capture marks it applied; a throb counts as one if every tick that reached it found its override applied; colours and sizes only on the selected window, alphas never there |
| HighlightRuns.OverrideAccounting | src/plugin/border_highlight_ui.cpp:290-459 | between calls this holds of all slots whose restore writes succeed; no override or throb of a colour or alpha was written before both its channels were read since either was last put back; an armed timer implies Pulse, not degraded, and a capture |
| HighlightLimits.TickFitsExactly | src/plugin/border_highlight_ui.cpp:405-459 | a tick and then the end leave a slot clean iff its override was applied, or the tick's write there failed, or the written colour is a clean value of the slot |
| HighlightLimits.TickThenEnd | src/plugin/border_highlight_ui.cpp:405-459 | all slots are clean after a tick and then the end iff this holds at both colours of the highlighted window |
| HighlightLimits.UnappliedTickStrands | src/plugin/border_highlight_ui.cpp:414-418 | otherwise that slot holds the throb colour after the end, neither its original value nor its captured form |
| HighlightLimits.StrandingRun | src/plugin/border_highlight_ui.cpp:414-418 | a run from a fresh backend with a failed inactive override, a tick and an end that strands the throb colour |
| HighlightLimits.UnstableColorDrifts | src/plugin/border_highlight_ui.cpp:191-210 | two ordinary sessions on a window one of whose colours is not stable leave it neither as it was nor in its captured form |
| Agreement.HighlightIsSelection | src/domain/session_controller.cpp:24-36 | after any commands and ticks: in a session that lost no window the highlighted window, if any, is the controller's selected ref; between sessions nothing is highlighted |
| AgreementLimits.AgreementExactly | src/domain/session_controller.cpp:156-189 | at any moment of a session, whatever was lost: the highlighted window is the selected ref iff it is still in the snapshot, and all windows before it are, or none after it |
| AgreementLimits.AgreementInRuns | src/domain/session_controller.cpp:156-189 | the same after any commands and ticks, given duplicate-free candidate lists |
| AgreementLimits.PrefixDecides | src/domain/session_controller.cpp:24-36 | right after a cycle or select they agree iff no window at or before the selected one was lost |
| AgreementLimits.PruneShiftsSelection | src/domain/session_controller.cpp:178-189 | a loss leaves the selection on its window iff that window is still there, and all before it are, or none after it; the UI is told nothing either way |
| AgreementLimits.DisagreementRun | src/domain/session_controller.cpp:178-189 | a run from the start of three windows in which the second is highlighted while the third is selected |
| Navigator.HyprlandWorkspaceNavigator.Begin | src/plugin/hypr/hypr_workspace_navigator.cpp:12-14 | the touches of the last session are forgotten |
| Navigator.HyprlandWorkspaceNavigator.EnsureVisible | src/plugin/hypr/hypr_workspace_navigator.cpp:16-47 | the window's workspace is shown on its monitor, and what was shown before is recorded once per monitor |
| Navigator.HyprlandWorkspaceNavigator.End | src/plugin/hypr/hypr_workspace_navigator.cpp:49-65 | on cancel the recorded workspaces are shown again; touches are cleared either way |
| Navigator.WorkspaceRestore | src/plugin/hypr/hypr_workspace_navigator.cpp:12-65 | cancelled: a monitor shows what it showed at the start if that was a regular workspace or it was never left, otherwise the last ensured one; applied: the workspace of the last window ensured on it |
| OverlayPrinter.AppendJsonString | src/plugin/overlay_protocol.cpp:10-48 | the loop appends the quoted and escaped text that the readers below invert |
| OverlayPrinter.EncodeAddr | src/plugin/overlay_protocol.cpp:50-66 | sixteen nibbles with leading zeros skipped are the hexadecimal numeral of the address |
| OverlayPrinter.EncodeSessionStart | src/plugin/overlay_protocol.cpp:167-188 | the loops print the message that `OverlayReader.PrinterIsInvertible` reads back |
| OverlayText.StringReads | src/plugin/overlay_protocol.cpp:10-48 | a reader of section 7 of RFC 8259 recovers every string from its escaped form |
| OverlayReader.PrinterIsInvertible | src/plugin/overlay_protocol.cpp:167-188 | a peer that reads JSON and looks members up by the names "v", "type", "windows", "index", "addr", "title" and "class" recovers every window, in order, and the index from every session_start message |
| OverlayReader.SelectionIsRead | src/plugin/overlay_protocol.cpp:190-192 | the same peer recovers the index of every selection message |
| OverlayReader.EndIsRead | src/plugin/overlay_protocol.cpp:194-197 | and the reason of every session_end message |
| Json.ReadsBack | tools/overlay_stub.py:67 | the JSON reader recovers every value of objects, arrays, strings and natural numbers from its compact text |
| OverlayPrinter.MessagesArePrintable | src/plugin/overlay_protocol.cpp:167-197 | no message of the plugin contains a character below 0x20 |
| OverlayCommand.OwnReader | src/plugin/overlay_protocol.cpp:109-155 | the repository's own string reader inverts the printer exactly on strings whose control characters have a short escape, and refuses all others |
| OverlayCommand.SkipWsFrom | src/plugin/overlay_protocol.cpp:73-76 | the loop stops at the first character that is not whitespace |
| OverlayCommand.ReadStringFrom | src/plugin/overlay_protocol.cpp:113-154 | the loop reads what the recursive reader reads, and fails where it fails |
| OverlayCommand.TrimLine | src/plugin/overlay_protocol.cpp:157-163 | the two loops trim both ends |
| OverlayCommand.KeyExactly | src/plugin/overlay_protocol.cpp:78-94 | the value of a key is what follows its first quoted occurrence, whitespace, a colon and whitespace, and there is none otherwise |
| OverlayCommand.CommandExactly | src/plugin/overlay_protocol.cpp:199-225 | a line is a command iff it is within the cap and, trimmed, in braces, with version 1, the type of that command and, for a select, its index |
| OverlayPeer.CommandRoundTrip | src/plugin/overlay_protocol.cpp:78-225 | the parser returns the command whose fields are told, whatever whitespace stands around the line and before and after every key, colon, value and comma, and whatever else stands before the closing brace, up to the size cap; a select of 2^63 or more is rejected |
| OverlayPeer.AnyOrderTells | src/plugin/overlay_protocol.cpp:68-94 | the needed fields tell the command in any order, among any fields from which no needed key can be read |
| OverlayPeer.PeerPlain | tools/overlay_stub.py:30-32 | the reference peer's compact message is one such line, and the parser returns its command |
| OverlayPeer.SelectNeedsIndex | src/plugin/overlay_protocol.cpp:218-223 | a select is refused without an index, with a negative one, and with one that is no number |
| OverlayPeer.WrongVersionRefused | src/plugin/overlay_protocol.cpp:206-208 | any version but 1, also one that is no number, is refused |
| OverlayPeer.MissingKeyRefused | src/plugin/overlay_protocol.cpp:206-212 | a line that does not mention the version, or the type, is refused |
| OverlayPeer.UnknownTypeRefused | src/plugin/overlay_protocol.cpp:210-224 | a type other than the three, or one that is no string, is refused |
| OverlayPeer.UnframedRefused | src/plugin/overlay_protocol.cpp:200-204 | a line over the cap is refused, and one that is not in braces once trimmed |
| Framing.OverlaySocketServer.CloseClient | src/plugin/overlay_socket_server.cpp:105-111 | the client is gone and the buffer empty |
| Framing.OverlaySocketServer.PollClient | src/plugin/overlay_socket_server.cpp:139-171 | receives until the socket would block, drops an over-long buffer and counts it, then dispatches; end of stream and hard errors close without dispatching |
| Framing.OverlaySocketServer.DispatchBuffer | src/plugin/overlay_socket_server.cpp:173-188 | the non-empty complete lines of the buffer are handed out in order, what follows the last line break stays |
| Framing.OverlaySocketServer.SendLine | src/plugin/overlay_socket_server.cpp:190-209 | done iff the frame was taken whole; otherwise counted, and the connection closed unless the peer is merely slow; closing empties the receive buffer, anything else leaves it |
| Framing.ChunkingDoesNotMatter | src/plugin/overlay_socket_server.cpp:139-188 | for any cut of a stream into receives and polls within the cap, the dispatched lines are the non-empty lines of the whole stream in order, and the buffer is its tail |
| Framing.PollOutcome | src/plugin/overlay_socket_server.cpp:139-171 | whatever arrives: a closing poll dispatches and keeps nothing; any other dispatches the lines of all that was buffered and received, or, iff some receive overran the cap, of what came after such a receive |
| Framing.DispatchedLinesAreShort | src/plugin/overlay_socket_server.cpp:147-155 | whatever arrives, buffer and dispatched lines stay within the cap |
| Framing.FramesSplitBack | src/plugin/overlay_socket_server.cpp:190-209 | whatever the socket does with the frames, the lines on the wire are exactly the messages reported as sent |
| Framing.SendAccounting | src/plugin/overlay_socket_server.cpp:190-209 | every message is reported as sent or counted as dropped; the connection is up iff it was and every frame was taken whole or the peer was merely slow |
| Protocol.CommandsArrive | src/plugin/overlay_socket_server.cpp:139-188 | the peer's messages, one line each, cut into any receives and polls within the cap, are parsed to exactly the peer's commands in order, and nothing is left over |

## Left out

- Sockets, file descriptors, permissions, accept and unlink, Wayland watches and timers, hyprctl, the Lua bridge, plugin start and teardown: input and output, or calls into foreign code. Received bytes, send results and ticks are inputs of the model.
- Configuration, clamps, token and argument parsing, sidecar keys and the status string: each is settled by reading one branch.
- The forwarding backends (proxy, external overlay, null UI).
- Exceptions: a port that throws is a failed call without effect, and cancelling a timer always works. Warnings are not recorded.
- Re-entrancy other than focus events delivered from inside a focus call; line handlers that stop the server.
- Machine integers: time, job ids, generations, sequence numbers and session ids are unbounded, so wrap-around of 32-bit time is not modelled. Addresses are below 2^64 and indices of commands below 2^63, as in the code. Workspace and monitor ids in the scope rule are taken after their conversion to unsigned.
- Floating point: "is a valid alpha" and the dim value as it is written are parameters; so is the darker colour of the pulse. The branch of the colour parser for hexadecimal digits in parentheses cannot be reached in the code.
- Window objects: a window is a number with an address and an alive bit, and a weak reference locks to it exactly while it is alive.
- Navigator.WorkspaceRestore: no workspace switches other than the navigator's own, monitors do not disappear, and a switch always takes effect; `changeWorkspace` itself is not part of this model.
- ApplyLaws.ApplyAgainstAdversary: the windows of a session are distinct; `ApplyLaws.ApplyAfterAnyRun` derives this from duplicate-free candidate lists, which `Candidates.HyprlandWindowSource.Candidates` guarantees.
- HighlightRuns.ExactRestore: for a slot whose restore writes succeed and whose original value is stable, with distinct snapshot addresses and ticks that fit; `HighlightLimits.TickFitsExactly` and `HighlightLimits.UnstableColorDrifts` show what happens without the last two.
- Agreement.HighlightIsSelection: for sessions that lost no window; `AgreementLimits.AgreementExactly` has the condition for all others.
- Chain.ChainMovesToFront: the fallback list is fixed, between sessions only the applied window reports focus, and no focus event re-enters from a cancel; `Chain.CancelledRound` says what such an event does.
- Switcher.ApplyFocusesWhatWasShown: windows change between commands, not within one; the window that a cancel focuses is not followed.
