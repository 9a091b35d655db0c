# shellman: a verified model of its runtime

shellman streams tmux panes to browsers. This project models three parts of it in Dafny and proves
what they promise over whole runs, not only call by call:

- **The pane runtime.** A pane actor samples a snapshot hash, debounces running/ready with a
  sequence-guarded timer, and triggers auto-completion. Registry, connection and browser keep
  most-recently-used lists of watched panes. A task-state actor queues pane reports, writes them
  behind to a table and sends tree deltas that the browser applies. An edge hub multiplexes clients
  over one agent.
- **The byte pipeline.** tmux control lines are unescaped, split at UTF-8 boundaries per pane
  (RFC 3629), cut into bounded frames and folded back by the client.
- **Loop algorithms with a sharp specification.** Unified-patch application (POSIX `diff`, "Diff -u
  or -U Output Format"), greedy splitting of status messages, and the prompt history budget.

Code that updates objects step by step is modelled by classes and methods with loops; each method is
proved equal to a function of the old state, or to the property itself, and the theorems are about
those functions. Runs are sequences of events. Where goroutines share state an event is one lock section
(the pane's timer, the subscription, the report queue) or one select (the channel to a connection), so
that everything another goroutine can do in between is covered; selecting and handling a pane, an
operation of the registry and the writing of a flush are one event each. Byte strings are sequences of numbers or characters; times
and counters are unbounded integers.

## What the proofs found

- A unified diff whose old range is empty names the line *before* the insertion (line 0 at the top of
  a file). `applyUnifiedPatchText` takes that number as the first line to replace, so it inserts one
  line early, and refuses line 0. A changed line whose printed form begins `--- ` or `+++ ` ends its
  hunk: the rest of the body is skipped, its old lines are left standing and its new lines are lost
  (`PatchMeaning.DeletionIsNotCarriedOut`, `AdditionIsLost`). `EditScripts.ScriptApplies` says what
  becomes of every script, in every style of hunk header, `PatchMeaning.SingleHunkIff` exactly when a
  hunk does what it says, and `PatchMeaning.PatchAppliesIff` the same for whole scripts: always if, and
  only if unless lines lost in one place are left over in another, which can happen (`LossesCanCancel`).
- The "no newline" marker is skipped (`NewlineMarkers.MarkersDoNotMatter`), so a patch that only
  changes the final newline has no effect, unless the line begins `++ `
  (`NewlineMarkers.FinalNewlineStays`).
- Line ends of text and patch make no difference, but a patched text comes back with plain newlines
  throughout (`LineEndings.AnyEndsApplyIff`).
- Live output can overtake older output that was kept back for a fresh subscriber, exactly when the
  broadcaster sends directly while the flush still has messages (`PaneSubscription.OvertakenIffJumped`).
- A send that finds the channel full takes a message out, and puts it back behind the others if it is no
  append. The order of such messages is kept throughout exactly when no send takes one out while a
  different one waits (`SerialSends.OrderHoldsThroughoutIff`). The connection can receive between the
  selects of a send, so that this happens although the head of the full channel was an append
  (`FullQueueRotates`, `ReceivingLetsRotate`). With two senders a message taken out can be lost
  (`TwoSendersCanLose`); with one at a time nothing is (`SerialSendsLoseNothing`).
- Every frame of a long reset but the first is an append to the channel, so a reset can lose its tail
  under backpressure (`PaneQueue.ResetArrivesIff`). Where the rows below speak of appends, they mean live
  output and such frames.
- The server also closes panes that are alive, when a control client exits or a pane moves to another
  session. The browser does not flag such a pane, and a select of it while it is still among the five
  selected last does not ask for recovery (`GapRecovery.SilentGapIff`, `ClosedPaneIsSilent`).
- Reports taken over when there is no project, or when a store fails, are lost, and the same content
  reported again is not news (`TaskReportLoss.StoreKeepsAgreementIff`, `LostReportStaysLost`).
- Bindings are loaded again for every report of a flush, and repositories are written in map order. If a
  binding is saved between two reports of one pane, they can go to different repositories and the older
  row can stay, with nothing left to correct it (`TaskReportLoss.BindingSavedMidFlush`). Whatever the
  order, a flush keeps the table in step exactly when every pane settles
  (`TaskReportLoss.EveryOrderAgreesIff`); bindings that stay steady guarantee it
  (`TaskReportQueue.EverythingIsWritten`).
- Subscribing before the tmux service is configured leaves a pane watched that has no subscribers
  (`RegistryState.SubscribeKeepsIff`).
- The browser strips project ids and the ids of tasks it removes, but not of tasks it adds, so it follows
  the server exactly when its own trimming leaves the ids alone (`TreeLimits.StaysInStepIff`). Its notion
  of white space is not the server's (`Strings.TrimsDiffer`). Deltas carry `last_modified` while the
  browser reads `updated_at`, so it shows that time only for tasks that have none
  (`TreeLimits.TimeIsShownIff`).
- Deltas carry no archived mark, and the browser takes a missing one for false: a task that is sent is
  shown as not archived (`DeltaContents.PatchKeepsReadMark`).
- An agent that another agent replaced, but that has not left, can reach a client of a later session
  under an id it remembers (`EdgeRouting.SupersededAgentCrosses`).
- The summary in front of a shortened prompt history is not charged to the character budget, so the
  output can exceed it, but by no more than that (`PromptHistory.OutputFitsIff`, `ExcessIsBounded`,
  `OutputCanExceedBudget`).
- Continuous output does not by itself turn a ready pane into a running one: the timer samples an
  unchanged hash and cancels the candidate. Nothing here claims otherwise; `PaneSamples` says exactly
  which samples change the emitted status.

## Reading order

`SessionStatus`, `PaneActor`, then `PaneDebounce`, `PaneSamples`, `PaneTimer`, `PaneQuiescence`;
`RecencyList`, `ConnActor`, `BrowserPanes`, `BrowserRecency`, `GapRecovery`; `Protocol`, `PaneQueue`,
`ChannelRuns`, `SerialSends`, `PaneStream`, `PaneSubscription`, `KeptOutput`; `RegistryState`,
`RegistryActor`; `TaskReports`, `TaskFlush`, `TaskStateActor`, `TaskReportQueue`, `TaskReportLoss`,
`LatestReports`, `ReportRoutes`; `StringOrder`, `TaskTree`, `TaskNodes`, `TreeSync`, `TreeLimits`,
`DeltaContents`; `EdgeHub`, `EdgeRouting`; `ControlLine`, `ControlLineForms`, `Utf8`, `Utf8Encoding`, `Utf8Stream`,
`TermFrames`, `FrameEncoding`, `RecentText`; `Lines`, `UnifiedPatch`, `EditScripts`, `PatchMeaning`,
`LineEndings`, `HunkHeaders`, `PatchRefusals`, `NewlineMarkers`, `PatchSoundness`; `StatusChunks`;
`PromptHistory`. `Wrappers`, `Sequences`, `Strings`, `Decimal` and `Lines` are shared helpers.
`dafny verify dfyconfig.toml` checks everything.

## Model

| member | source | states |
|---|---|---|
| SessionStatus.AdvancePaneStatus | cli/cmd/shellman/session_status.go:49-122 | one sample moves hash, candidate, emitted status and activity time as the debounce function says, in every branch |
| PaneSamples.CandidateIs | cli/cmd/shellman/session_status.go:79-91 | after a sample the candidate is running if and only if the hash is new and the pane is running already or no input is recent; it is unknown only where the status is |
| PaneSamples.OutputStartsChangeIff | cli/cmd/shellman/session_status.go:84-115 | new output in a settled ready pane makes the candidate running if and only if there was no input or it is at least the window ago; either way ready stays emitted |
| PaneSamples.RunningIsNeverMasked | cli/cmd/shellman/session_status.go:84-91 | recent input makes no difference to a running pane |
| PaneSamples.FirstStatus | cli/cmd/shellman/session_status.go:84-99 | a pane without a status shows one at its first sample: running for output without recent input, else ready |
| PaneSamples.NoSnapshotForgets | cli/cmd/shellman/session_status.go:57-66 | an empty hash makes the status unknown at once, whatever came before, and keeps only the last activity |
| PaneActor.PaneActor.SetRuntimeBaseline | cli/cmd/shellman/runtime_pane_actor.go:146-174 | a restored pane starts from the stored status, activity time and hash, and only from those that are set |
| PaneSamples.BaselineIsTaken | cli/cmd/shellman/runtime_pane_actor.go:146-174 | a new pane takes over status, hash and activity of a baseline |
| PaneSamples.KnownIsKept | cli/cmd/shellman/runtime_pane_actor.go:146-174 | what a pane knows already no baseline replaces |
| PaneSamples.RestartIsNoOutput | cli/cmd/shellman/runtime_pane_actor.go:523-526 | a pane restored with hash and activity counts as quiet at its first sample, whatever its hash is by then |
| PaneActor.PaneActor.ScheduleStatusEvalTimer | cli/cmd/shellman/runtime_pane_actor.go:801-826 | an evaluation is armed under a fresh sequence number unless an earlier or equal one is pending |
| PaneActor.PaneActor.StopStatusEvalTimer | cli/cmd/shellman/runtime_pane_actor.go:864-883 | no timer is left, and the pane is otherwise unchanged |
| PaneActor.PaneActor.EmitStatusWithHash | cli/cmd/shellman/runtime_pane_actor.go:519-593 | one sample updates status, start-up hash, auto-process arming and timer together, and says when auto-completion is called |
| PaneSamples.EvaluationIsDueIff | cli/cmd/shellman/runtime_pane_actor.go:778-799 | an evaluation is due if and only if the pane is running, or ready with another candidate: the delay after the candidate was first seen, or after now |
| PaneSamples.TimerIsArmedIff | cli/cmd/shellman/runtime_pane_actor.go:778-799 | after a sample there is a timer if and only if the pane is running, or ready with another candidate; it is due when the candidate will have been held for the delay, or earlier if one was armed |
| PaneActor.PaneActor.OnStatusEvalTimerFired | cli/cmd/shellman/runtime_pane_actor.go:828-862 | a callback is stale, early or evaluates; a stale one changes nothing and an early one arms again |
| PaneSamples.CallbackSamplesIff | cli/cmd/shellman/runtime_pane_actor.go:828-862 | the callback of the armed timer samples if and only if the pane is not running or has been quiet for the delay; else a timer is armed for that time |
| PaneDebounce.EmittedChangesIffHeld | cli/cmd/shellman/session_status.go:84-122 | over any run the emitted status changes to S exactly when consecutive samples ending there, spanning at least the delay, all observed S |
| PaneSamples.BecomesRunningIff | cli/cmd/shellman/session_status.go:76-122 | over any run a pane that is not running is shown as running if and only if consecutive samples ending there, spanning the delay, all had a new hash and no recent input |
| PaneSamples.BecomesReadyIff | cli/cmd/shellman/session_status.go:76-122 | and one that is not ready is shown as ready if and only if consecutive samples ending there, spanning the delay, all had the hash of the sample before |
| PaneSamples.ActivityIsLastChange | cli/cmd/shellman/session_status.go:68-77 | over any run the last activity is the time of the last sample with a new hash, or else what the first sample made it |
| PaneDebounce.NoCallBeforeChange | cli/cmd/shellman/runtime_pane_actor.go:536-578 | no auto-completion before a sample whose hash differs from the start-up hash, and each one is a change to ready |
| PaneSamples.CallsIff | cli/cmd/shellman/runtime_pane_actor.go:528-578 | a sample calls auto-completion if and only if it makes the pane ready, some sample up to it differed from the one at start-up, and the call is not suppressed |
| PaneDebounce.CallsAreSpaced | cli/cmd/shellman/runtime_pane_actor.go:519-578 | any two auto-completion calls of a pane are at least twice the delay apart |
| PaneTimer.TimerSafety | cli/cmd/shellman/runtime_pane_actor.go:778-883 | in every reachable state a sampled running pane has a live timer or a callback about to sample, unless it was stopped from outside, and a callback of any other timer leaves the pane as it is |
| PaneTimer.RunKeepsInvariant | cli/cmd/shellman/runtime_pane_actor.go:801-862 | every step of samples, callbacks and stops keeps the timer invariant, stopped timers' late callbacks included |
| PaneQuiescence.ReadyWithinThreeFirings | cli/cmd/shellman/runtime_pane_actor.go:778-862 | once the hash stops changing at t0 on a pane left running, ready is emitted within three firings and by t0 + 2 * delay |
| PaneQuiescence.ChangeStartsTheBound | cli/cmd/shellman/runtime_pane_actor.go:519-593 | a sample, from outside or of a timer callback, that observes a change and leaves the pane running starts that bound |
| PaneQuiescence.FirstSampleStartsTheBound | cli/cmd/shellman/runtime_pane_actor.go:519-593 | so does the first sample of a pane, new or restored, if it leaves the pane running |
| ConnActor.ConnActor.SelectAndWatch | cli/cmd/shellman/runtime_conn_actor.go:45-83 | the watch order becomes the most recent panes with the target last, and the evicted pane is reported |
| ConnActor.ConnActor.DropWatch | cli/cmd/shellman/runtime_conn_actor.go:108-137 | the pane is gone from order and set, the rest keeps its order, and a dropped selection falls back to the most recent pane |
| ConnActor.ConnActor.EvictDownTo | cli/cmd/shellman/runtime_conn_actor.go:69-81 | exactly the most recent panes are left, and the first one dropped is reported |
| ConnActor.FiveAreWatched | cli/cmd/shellman/runtime_registry_actor.go:163-192 | a sixth pane pushes out the one selected longest ago, and nothing else is pushed out |
| ConnActor.EvictionIsExact | cli/cmd/shellman/runtime_conn_actor.go:45-83 | a selection adds the target and removes the evicted pane and nothing else, within the limit and without duplicates |
| BrowserPanes.BrowserPanes.TouchActivePane | webui/src/stores/shellman.ts:1713-1731 | the browser's list becomes the touched one, and the pane pushed out, and no other, is flagged |
| BrowserPanes.BrowserPanes.SelectPaneOfTask | webui/src/stores/shellman.ts:1797-1844 | a select is sent unless there is no pane, no connection or a repeat, and takes the pane's gap flag with it |
| BrowserPanes.SelectIsSentIff | webui/src/stores/shellman.ts:1797-1844 | a request goes out if and only if there is a pane and a connection and it does not repeat task, pane and last request; without one only the selection changes |
| BrowserPanes.RepeatIsNotSent | webui/src/stores/shellman.ts:1797-1844 | what was just sent is not sent again, until the pane is heard to have ended |
| BrowserPanes.BrowserPanes.MarkPaneEnded | webui/src/stores/shellman.ts:1676-1682 | a selected pane that has ended is no longer selected, and nothing else changes |
| GapRecovery.BrowserListIsSuffix | webui/src/stores/shellman.ts:1713-1731 | once all selects are handled, the browser's list, without panes that are dead or were closed, is a suffix of the server's watch order without them |
| GapRecovery.SilentGapIff | cli/cmd/shellman/runtime_registry_actor.go:163-192 | a select that reaches the server for a live pane it has dropped asks for gap recovery exactly when the pane is not among the five selected last; only a pane that was closed alive can be |
| GapRecovery.NoNeedlessRecovery | cli/cmd/shellman/runtime_registry_actor.go:163-192 | no select asks for recovery of a pane the server never watched |
| GapRecovery.ClosedPaneIsSilent | cli/cmd/shellman/runtime_control_mode_hub.go:197-223 | a run in which a live pane is closed, and selecting its task again does not ask for recovery |
| GapRecovery.UnwatchedIsFlagged | webui/src/stores/shellman.ts:1713-1731 | in every reachable state a live pane the server has dropped, but not closed, carries the gap flag, or its first select in transit asks for recovery |
| GapRecovery.FlagIsSent | webui/src/stores/shellman.ts:1819-1827 | in every reachable state a select that is sent asks for recovery exactly when its pane carries the flag |
| BrowserRecency.RunKeepsInvariant | cli/cmd/shellman/runtime_conn_actor.go:45-137 | selects, deaths, closures, of live panes too, and any other change of what is selected keep browser and server in the simulation relation |
| PaneQueue.Channel.EnqueuePaneMessage | cli/cmd/shellman/runtime_pane_actor.go:639-668 | if nothing is received between its selects, the queue after a send is the specified one in each case of a full channel, and the answer says whether the message is in it |
| SerialSends.UninterruptedSend | cli/cmd/shellman/runtime_pane_actor.go:639-668 | the selects of a send, when nothing comes between them, make that send |
| ChannelRuns.OthersAreConserved | cli/cmd/shellman/runtime_pane_actor.go:639-668 | over any interleaving of receives and the selects of any number of senders, accepted messages that are no appends are queued, received, being put back or put back in vain, exactly once, and capacity is never exceeded |
| SerialSends.SerialSendsLoseNothing | cli/cmd/shellman/runtime_pane_actor.go:639-668 | with one sender at a time none is put back in vain, whatever is received in between |
| ChannelRuns.TwoSendersCanLose | cli/cmd/shellman/runtime_pane_actor.go:651-658 | with two, an accepted message can be lost |
| ChannelRuns.AppendsKeepTheirOrder | cli/cmd/shellman/runtime_pane_actor.go:639-668 | appends that survive any such run are received and queued in the order they were sent |
| SerialSends.StepKeepsOrderIff | cli/cmd/shellman/runtime_pane_actor.go:639-668 | a select or receive keeps the other messages in order if and only if it does not take one out while a different one waits |
| SerialSends.OrderHoldsThroughoutIff | cli/cmd/shellman/runtime_pane_actor.go:639-668 | with one sender at a time, throughout a run, accepted messages that are no appends are received and queued in the order they got in, if and only if the run has no such step |
| SerialSends.FullQueueRotates | cli/cmd/shellman/runtime_pane_actor.go:651-658 | the shortest run that breaks the order |
| SerialSends.ReceivingLetsRotate | cli/cmd/shellman/runtime_pane_actor.go:651-658 | a run that breaks it although the head was an append when the send began, and refuses the new message although there is room |
| PaneQueue.ResetArrivesIff | cli/cmd/shellman/runtime_pane_actor.go:639-668 | a reset of several frames arrives whole if and only if there is room for all of it, or it is one message that displaces an append; when it displaces one, all later frames are lost |
| PaneStream.PaneStream.BeginSubscribe | cli/cmd/shellman/runtime_pane_actor.go:203-219 | a subscription opens with a pending reset and nothing kept back |
| PaneStream.PaneStream.AppendPending | cli/cmd/shellman/runtime_pane_actor.go:310-331 | live output is kept back only while the reset is pending, as exactly the last 64 messages |
| PaneStream.PaneStream.TakePendingAppends | cli/cmd/shellman/runtime_pane_actor.go:333-364 | the kept messages are handed over in order and the buffer is left empty |
| PaneSubscription.ResetBeforeLiveOutput | cli/cmd/shellman/runtime_pane_actor.go:203-251 | on a first subscription no live output is offered before the whole reset; what came meanwhile is offered as its last 64 messages or, for gap recovery, not at all |
| KeptOutput.KeptIsLast64 | cli/cmd/shellman/runtime_pane_actor.go:310-351 | told from the events alone: a completed subscription offers exactly the last 64 live messages broadcast before the reset was sent, and every other broadcast directly, in order |
| KeptOutput.BroadcastsAreAccounted | cli/cmd/shellman/runtime_pane_actor.go:595-621 | in every run without a failed capture each broadcast is kept back or offered directly, in order |
| KeptOutput.SubscribingStartsOver | cli/cmd/shellman/runtime_pane_actor.go:216-219 | subscribing again drops what was kept back, and output is kept back if and only if it is an append and the reset is pending |
| KeptOutput.ResetIsOneHead | cli/cmd/shellman/runtime_pane_actor.go:885-912 | of the frames of a reset the first is no append and all others are |
| PaneSubscription.OvertakenIffJumped | cli/cmd/shellman/runtime_pane_actor.go:242-247 | kept-back output is overtaken exactly when a direct offer came while the flush had messages left |
| PaneSubscription.OvertakingRun | cli/cmd/shellman/runtime_pane_actor.go:595-621 | a run in which the second message is offered before the first |
| RegistryActor.RegistryActor.Subscribe | cli/cmd/shellman/runtime_registry_actor.go:163-192 | connection, pane and status item are created as needed, the connection is enrolled, and the evicted pane loses it |
| RegistryActor.RegistryActor.GetOrCreatePane | cli/cmd/shellman/runtime_registry_actor.go:150-223 | a pane is created with a seeded status item, and not at all without a tmux service |
| RegistryActor.RegistryActor.OnPaneClosed | cli/cmd/shellman/runtime_registry_actor.go:476-518 | pane and item go, and every connection stops watching it |
| RegistryState.CloseLeavesOthers | cli/cmd/shellman/runtime_registry_actor.go:492-515 | every connection watches the same other panes in the same order, and their subscribers and items are the same; the closed pane is gone from all |
| RegistryState.SubscribeLeavesOthers | cli/cmd/shellman/runtime_registry_actor.go:163-192 | a subscription changes no other connection, and no pane but its own and the one pushed out; the watch order keeps the others and ends with its pane |
| RegistryState.StaysWatched | cli/cmd/shellman/runtime_registry_actor.go:163-223 | a connection that subscribes to nothing keeps watching a pane, and stays subscribed, through any run that does not close it |
| RegistryActor.RegistryActor.OnPaneStatusUpdate | cli/cmd/shellman/runtime_registry_actor.go:395-438 | the pane's item is present afterwards and subscriptions are untouched |
| RegistryState.StatusLeavesOthers | cli/cmd/shellman/runtime_registry_actor.go:395-438 | a status update adds its pane to the items and changes nothing else |
| RegistryState.AlwaysConsistent | cli/cmd/shellman/runtime_registry_actor.go:163-223 | in every state between operations a connection watches a target exactly when the pane lists it as subscriber; orders are duplicate-free with at most 5 entries; every pane has an item |
| RegistryState.SubscribeKeepsIff | cli/cmd/shellman/runtime_registry_actor.go:194-223 | a subscription keeps that relation if and only if the runtime is configured or the pane exists |
| RegistryState.CloseKeeps | cli/cmd/shellman/runtime_registry_actor.go:476-518 | closing a pane keeps the relation and leaves nobody watching it |
| TaskStateActor.TaskStateActor.OnPaneReport | cli/cmd/shellman/runtime_task_state_actor.go:154-181 | a report is recorded, marked dirty, queued and signalled exactly when it names a pane and its content is new |
| LatestReports.ReportCountsIff | cli/cmd/shellman/runtime_task_state_actor.go:154-181 | a report changes nothing if and only if it names no pane or agrees with the latest on all eight fields; any other is recorded, queued and signalled |
| LatestReports.LatestIsLastReport | cli/cmd/shellman/runtime_task_state_actor.go:564-573 | after any run the latest report of a pane agrees with the last one that named the pane on each of the eight fields |
| TaskStateActor.TaskStateActor.SwapDirtyReports | cli/cmd/shellman/runtime_task_state_actor.go:464-478 | all queued reports are taken over and the dirty set is cleared with them |
| TaskStateActor.CollectBatches | cli/cmd/shellman/runtime_task_state_actor.go:335-377 | whatever loading the bindings answers for each report, each repository's batch holds the rows of the reports routed to it, in order, and one row for each report bound to one of its tasks |
| ReportRoutes.MatchesIff | cli/cmd/shellman/runtime_task_state_actor.go:480-493 | a binding matches a report if and only if they share a non-empty name |
| ReportRoutes.RouteIs | cli/cmd/shellman/runtime_task_state_actor.go:346-379 | a report goes to the first project with a store, loaded bindings and a match, and to the first of all if there is none |
| ReportRoutes.TaskRowsShowReports | cli/cmd/shellman/runtime_task_state_actor.go:362-371 | each task row emitted has the values of a report and names a task bound to it in the project that took it, and every report so taken has one |
| TaskStateActor.WriteBatches | cli/cmd/shellman/runtime_task_state_actor.go:379-393 | the table gets the rows of the reports that reach it, repository by repository in the order they were visited, last row of a pane winning, and what is emitted is what was stored |
| TaskFlush.OrderDoesNotMatter | cli/cmd/shellman/runtime_task_state_actor.go:379-393 | with one route per pane the order of repositories does not show in the table |
| TaskFlush.OrderCanMatter | cli/cmd/shellman/runtime_task_state_actor.go:379-393 | with two routes an order leaves the older of two reports |
| TaskStateActor.TaskStateActor.FlushDirtyRuntime | cli/cmd/shellman/runtime_task_state_actor.go:305-394 | the same for the whole flush, from the queue to the table |
| TaskReports.PanesHaveOneRoute | cli/cmd/shellman/runtime_task_state_actor.go:346-377 | reports that name the pane as their target all go to one repository per pane, as long as between them no project gains its first or loses its last binding of the pane |
| TaskReportQueue.QueuedReportsAreSignalled | cli/cmd/shellman/runtime_task_state_actor.go:154-247 | no lost wake-up: in every reachable state a queued report has a token, a reporter about to send one, or a tick about to swap; the dirty set is the ids in the queue |
| TaskReportQueue.QueueAgreesWithLatest | cli/cmd/shellman/runtime_task_state_actor.go:305-394 | without failures, with steady bindings, and with panes that report themselves as target, replaying flush and queue over the table always gives the rows of the latest reports, whatever the order of repositories |
| TaskReportQueue.EverythingIsWritten | cli/cmd/shellman/runtime_task_state_actor.go:229-247 | under the same conditions, once reports stop, one more round leaves the table with exactly the latest row of every pane |
| LatestReports.UnnamedHasNone | cli/cmd/shellman/runtime_task_state_actor.go:154-181 | a pane that no report of the run names has no latest report |
| LatestReports.LastReportIsShown | cli/cmd/shellman/runtime_task_state_actor.go:331-344 | and the row of a pane then shows what the last report naming the pane showed, field by field, its snapshot cut to the last 2000 lines |
| TaskReportLoss.StoreKeepsAgreementIff | cli/cmd/shellman/runtime_task_state_actor.go:305-394 | with failing stores or no projects, and one route per pane, a flush keeps that agreement if and only if every report not written is superseded |
| TaskReportLoss.EveryOrderAgreesIff | cli/cmd/shellman/runtime_task_state_actor.go:305-394 | for any bindings and any failures, a flush keeps that agreement in every order of repositories if and only if for every pane a newer report is queued, or each repository that writes it leaves its latest row and, where none does, the table holds it |
| TaskReportLoss.SomeOrderLeaves | cli/cmd/shellman/runtime_task_state_actor.go:379-393 | every row a writing repository leaves for a pane is the final one in some order |
| TaskReportQueue.RunsHaveOneRoute | cli/cmd/shellman/runtime_pane_actor.go:424-430 | in runs of panes that report themselves as target, the reports in flight have one route per pane while bindings are steady |
| TaskReportLoss.OlderRowCanStay | cli/cmd/shellman/runtime_task_state_actor.go:379-393 | with two routes a flush loses the agreement by writing the newer report's repository first |
| TaskReportLoss.BindingSavedMidFlush | cli/cmd/shellman/runtime_task_state_actor.go:346-353 | a run of a pane that reports itself as target, without failures, in which a binding saved between two loads leaves the older row for good |
| TaskReportLoss.LostReportStaysLost | cli/cmd/shellman/runtime_task_state_actor.go:306-308 | without projects a report is dropped, and reporting the same content again changes nothing |
| TaskTree.DiffTaskRows | cli/cmd/shellman/runtime_task_state_actor.go:503-536 | the delta holds exactly the added, removed, changed and moved tasks, each list in ascending order, for any order of visiting the rows |
| StringOrder.LessIff | cli/cmd/shellman/runtime_task_state_actor.go:531-534 | the lists of a delta are in lexicographic order: a beginning first, else the smaller character where two ids first differ |
| TaskTree.DeltaIsUnique | cli/cmd/shellman/runtime_task_state_actor.go:510-535 | there is one such delta, so map iteration order does not show |
| DeltaContents.DeltaListsIff | cli/cmd/shellman/runtime_task_state_actor.go:503-562 | a task is added, removed, updated or reparented if and only if it came, went, or differs in a compared field; what is sent has every field of the row |
| DeltaContents.LastRowCounts | cli/cmd/shellman/runtime_task_state_actor.go:495-501 | of several rows of a task the last one counts |
| DeltaContents.SameRowsSendNothing | cli/cmd/shellman/runtime_task_state_actor.go:503-547 | rows that differ in no compared field make no delta |
| TaskStateActor.TaskStateActor.DiffProjectsTree | cli/cmd/shellman/runtime_task_state_actor.go:396-442 | each project is skipped or diffed against its cached rows, changes are sent, and the cache becomes what was read |
| DeltaContents.ReadingIsCachedIff | cli/cmd/shellman/runtime_task_state_actor.go:408-439 | a reading is cached if and only if the store answered and something was modified since; other projects stay |
| TaskNodes.Shell.ApplyTreeDelta | webui/src/stores/shellman.ts:754-814 | the node lists are patched delta by delta: removals, merges that keep the read mark, and moves |
| DeltaContents.PatchKeepsReadMark | webui/src/stores/shellman.ts:767-807 | a delta leaves the read mark of every task it does not remove, and clears the archived mark of every task it sends |
| DeltaContents.ReadMarkStays | webui/src/stores/shellman.ts:642-647 | over any run of deltas a task keeps its read mark until one removes it |
| TreeSync.PatchAgrees | webui/src/stores/shellman.ts:754-814 | one delta takes a list that shows the old rows to one that shows the new rows, without duplicates |
| TreeSync.BrowserShowsCachedRows | cli/cmd/shellman/runtime_task_state_actor.go:396-442 | for ids the browser's trimming leaves alone, after any run of readings, failures and skips included, the browser's tasks are the cached rows on id, parent, title, command, description, flag, flag description, checked and status |
| TreeLimits.StaysInStepIff | webui/src/stores/shellman.ts:765-800 | that holds for all runs over given projects and tasks if and only if their ids are non-empty and the browser's trimming leaves them alone |
| TreeLimits.TimeIsShownIff | webui/src/stores/shellman.ts:455-470 | after any run a task shows the time its row was last modified if and only if the row has none |
| Strings.SpacesAre | webui/src/stores/shellman.ts:767 | the characters each side trims, by code point |
| Strings.TrimsDiffer | webui/src/stores/shellman.ts:767 | server and browser disagree on two characters of white space |
| EdgeHub.EdgeWSHub.Attach | cli/internal/appserver/edge_ws.go:95-115 | an agent takes the agent's place; a client gets the next id of its session, in both maps |
| EdgeHub.EdgeWSHub.Detach | cli/internal/appserver/edge_ws.go:117-139 | the peer leaves both maps, and a session nobody is left in is deleted |
| EdgeHub.LeavingLeavesOthers | cli/internal/appserver/edge_ws.go:117-139 | the session goes if and only if nobody else is attached; all others keep their ids, and other sessions are as before |
| EdgeHub.JoiningLeavesOthers | cli/internal/appserver/edge_ws.go:95-115 | a new peer takes the agent's place or gets the next id; nobody else and no other session changes |
| EdgeHub.EdgeWSHub.WrapClientOutbound | cli/internal/appserver/edge_ws.go:141-161 | a client's message goes to its turn's agent under the client's id, or nowhere |
| EdgeHub.EdgeWSHub.RouteAgentOutbound | cli/internal/appserver/edge_ws.go:163-187 | an enveloped message reaches the client it names and nobody else; any other reaches every client once |
| EdgeHub.ClientsHaveIDs | cli/internal/appserver/edge_ws.go:163-187 | the clients a message without an envelope goes to are exactly those with an id |
| EdgeHub.ConnIDIsInjective | cli/internal/appserver/edge_ws.go:109-114 | different sequence numbers make different ids |
| EdgeRouting.SessionsAreSound | cli/internal/appserver/edge_ws.go:95-139 | in every run ids and clients are mutual inverses, only attached peers are clients, and no stored session is empty |
| EdgeRouting.IDsAreNotReissued | cli/internal/appserver/edge_ws.go:95-139 | while a session stays up an id means the client it was given to: a message to it reaches that client, or nobody once it has left |
| EdgeRouting.NoCrossDelivery | cli/internal/appserver/edge_ws.go:141-187 | what a turn's only agent answers to a client's message reaches that client or nobody |
| EdgeRouting.DeliveredRightIff | cli/internal/appserver/edge_ws.go:117-187 | a message that is delivered reaches the right client if and only if the session has stayed up |
| EdgeRouting.SupersededAgentCrosses | cli/internal/appserver/edge_ws.go:107-108 | the run in which a replaced agent reaches another client |
| ControlLine.DecodeControlEscaped | cli/internal/tmux/control_mode_parser.go:48-67 | the index loop decodes octal escapes with byte arithmetic and copies everything else |
| ControlLineForms.FirstEscape | cli/internal/tmux/control_mode_parser.go:55-66 | bytes before the first complete escape are copied, and the escape becomes its octal value modulo 256 |
| ControlLineForms.NoEscapes | cli/internal/tmux/control_mode_parser.go:48-71 | text without a complete escape is copied, backslashes and incomplete ones included |
| ControlLine.DecodeUndoesEscape | cli/internal/tmux/control_mode_parser.go:48-71 | decoding undoes tmux's escaping of control bytes and backslashes, for every byte string |
| ControlLine.OutputLineRoundTrip | cli/internal/tmux/control_mode_parser.go:10-46 | parsing a printed output line gives back the pane and the bytes |
| ControlLine.ExtendedLineRoundTrip | cli/internal/tmux/control_mode_parser.go:10-46 | the same for the extended form, whatever its extra fields |
| ControlLineForms.PlainLine | cli/internal/tmux/control_mode_parser.go:11-22 | of any plain line the pane is the name without white space around it, and a blank one is refused |
| ControlLineForms.ExtendedLine | cli/internal/tmux/control_mode_parser.go:24-43 | of any extended line the pane is the first word of the head, and a blank head is refused |
| ControlLineForms.OtherLinesAreIgnored | cli/internal/tmux/control_mode_parser.go:10-46 | lines that begin with neither word, or lack the separator, are no output |
| ControlLine.PipelinePassesOnWhatWasWritten | cli/cmd/shellman/runtime_control_mode_hub.go:157-195 | from printed lines to passed-on text, a target gets a prefix of what its panes wrote, at most three bytes short, and all of it when it is valid |
| Utf8Encoding.EncodingIsCharacter | cli/cmd/shellman/runtime_control_mode_hub.go:337-355 | the encoding of every code point but the surrogates (RFC 3629, section 3) is one of the sequences taken for characters |
| Utf8Encoding.CharacterIsEncoding | cli/cmd/shellman/runtime_control_mode_hub.go:337-355 | and every such sequence is the encoding of exactly one of them |
| Utf8.EmitLengthConcat | cli/cmd/shellman/runtime_control_mode_hub.go:337-355 | splitting a stream early or late passes on the same bytes |
| Utf8.RestIsProperPrefix | cli/cmd/shellman/runtime_control_mode_hub.go:337-355 | what is held back is at most three bytes and a proper prefix of a well-formed sequence |
| Utf8Stream.Watcher.ConsumeUTF8Chunk | cli/cmd/shellman/runtime_control_mode_hub.go:318-335 | one chunk is merged with the pane's pending bytes, split, and the rest kept for that pane only |
| Utf8Stream.SplitUTF8Payload | cli/cmd/shellman/runtime_control_mode_hub.go:337-355 | the position loop cuts where the first incomplete character begins |
| Utf8Stream.ChunkingInvariance | cli/cmd/shellman/runtime_control_mode_hub.go:318-355 | however a stream is cut and mixed with other panes', what is passed on depends on the stream alone and the rest is pending |
| Utf8Stream.ValidStreamEmitsValid | cli/cmd/shellman/runtime_control_mode_hub.go:318-355 | a stream that is or can become valid text is passed on in valid pieces only |
| Utf8Stream.ValidStreamIsPassedOn | cli/cmd/shellman/runtime_control_mode_hub.go:318-355 | a complete valid stream leaves nothing pending |
| TermFrames.ChunkTermData | cli/cmd/shellman/stream_pump.go:278-304 | the loops terminate and produce the specified frames |
| TermFrames.FramesCover | cli/cmd/shellman/stream_pump.go:278-304 | frames concatenate to the data, none exceeds 24576 bytes, and only the first keeps the mode |
| TermFrames.ValidFrames | cli/cmd/shellman/stream_pump.go:278-304 | for valid text every frame is valid and every frame but the last has at least 24573 bytes |
| TermFrames.TermOutputMessages | cli/cmd/shellman/runtime_pane_actor.go:885-912 | the messages carry the frames, the cursor on the last, and a reset without its final newline |
| TermFrames.CursorComesLast | cli/cmd/shellman/runtime_pane_actor.go:885-912 | only the last message places the cursor, and only the first has the mode |
| TermFrames.OneNewlineGoes | cli/cmd/shellman/runtime_pane_actor.go:891-895 | of a text that ends with newlines one is removed, and nothing of any other |
| TermFrames.FramesFoldBack | webui/src/stores/turn.ts:138-140 | folding the messages of a reset rebuilds the snapshot whatever was shown before; those of an append add the data |
| FrameEncoding.FramesFoldBackAsReceived | cli/cmd/shellman/stream_pump.go:278-304 | with invalid bytes replaced in every message by the JSON encoder, the fold is what the whole text would have become in one message: cutting into frames never shows, for any bytes |
| FrameEncoding.ReceivedIsValid | cli/cmd/shellman/stream_pump.go:278-304 | whatever bytes a message holds, the client receives valid text, each byte that begins no character as U+FFFD |
| FrameEncoding.ValidIsReceived | cli/cmd/shellman/stream_pump.go:278-304 | valid text is received as it is |
| RecentText.TrimToRecentLines | cli/cmd/shellman/runtime_task_state_actor.go:104-125 | cutting into lines and joining the last ones is the longest suffix with at most that many lines |
| RecentText.RecentIsLongestSuffix | webui/src/stores/shellman.ts:1611-1626 | that text is a suffix, has at most that many lines, and no longer suffix has |
| RecentText.TrimIsIncremental | cli/cmd/shellman/runtime_task_state_actor.go:104-125 | trimming as text arrives equals trimming all of it, trailing newlines included |
| RecentText.AppendRealtimeSnapshot | cli/cmd/shellman/runtime_pane_actor.go:737-761 | the case analysis on lengths keeps the last bytes of the concatenation |
| RecentText.SnapshotIsLastBytes | cli/cmd/shellman/runtime_pane_actor.go:737-761 | folding any chunks gives the last bytes of everything appended to the start, which stays as it is when there is nothing |
| UnifiedPatch.ApplyUnifiedPatchText | cli/internal/localapi/routes_addon.go:555-629 | the nested loops compute the applier's specification, every error included |
| LineEndings.EveryPairIsReplaced | cli/internal/localapi/routes_addon.go:556-561 | of any text, cut at its pairs of carriage return and newline, each pair becomes a newline and the pieces stay |
| LineEndings.HasPieces | cli/internal/localapi/routes_addon.go:556-561 | every text is such pieces joined by such pairs |
| LineEndings.EndsDoNotMatter | cli/internal/localapi/routes_addon.go:556-561 | for clean lines the answer is the same whichever of the two ends each line of text and patch has |
| LineEndings.AnyEndsApplyIff | cli/internal/localapi/routes_addon.go:555-629 | so a printed patch applies to a text with any line ends under the same condition, and the result has plain newlines |
| LineEndings.LastBlankIsDropped | cli/internal/localapi/routes_addon.go:557-560 | a last patch line of white space is dropped, every other line is read |
| HunkHeaders.HeaderIsRead | cli/internal/localapi/routes_addon.go:553 | every line of the header's form, counts or none and anything after it, is a header with that start |
| HunkHeaders.ReadIsHeader | cli/internal/localapi/routes_addon.go:553 | and every line taken for a header has that form |
| UnifiedPatch.ApplyHunkBody | cli/internal/localapi/routes_addon.go:590-625 | the inner loop applies one hunk body and stops at the next header, or reports its first error |
| PatchRefusals.RefusedWhereItDiffers | cli/internal/localapi/routes_addon.go:607-618 | a body whose old lines are not those of the text is refused at the first that differs, as context or as removal |
| PatchRefusals.OddLineIsRefused | cli/internal/localapi/routes_addon.go:601-623 | a line in a hunk that is no edit, header or marker is refused, an empty one with its own error |
| PatchRefusals.MarkerIsSkipped | cli/internal/localapi/routes_addon.go:597-600 | a newline marker in a hunk is passed over, whatever follows the words |
| PatchRefusals.HeaderIsRefusedIff | cli/internal/localapi/routes_addon.go:577-583 | a header is refused if and only if its start is no positive 64-bit number, lies before what was copied, or past the end |
| EditScripts.ScriptApplies | cli/internal/localapi/routes_addon.go:565-629 | what the applier makes of the printed form of any edit script, counts of one-line ranges printed or not and any text after the headers: hunks without old lines go in one line early, bodies are cut at their first lookalike, and line 0 is refused |
| PatchMeaning.PatchAppliesIff | cli/internal/localapi/routes_addon.go:565-629 | the printed patch takes the old lines to the new ones if every hunk is faithful: it has an old line or inserts only copies of the line before it, and what it drops leaves the same lines; and only if, unless the dropped parts of several hunks remove and add as many lines in all but not each |
| PatchMeaning.SingleHunkIff | cli/internal/localapi/routes_addon.go:565-629 | for one hunk the same, if and only if without exception |
| PatchMeaning.PlainHunksAreFaithful | cli/internal/localapi/routes_addon.go:565-629 | hunks with old lines and no lookalikes are faithful, adjacent hunks included |
| PatchMeaning.LossesCanCancel | cli/internal/localapi/routes_addon.go:594-596 | two unfaithful hunks that together do what they say |
| PatchMeaning.TextPatchAppliesIff | cli/internal/localapi/routes_addon.go:555-629 | the same from text to text, line splitting and any lines before the first hunk included |
| PatchMeaning.PreambleIsSkipped | cli/internal/localapi/routes_addon.go:568-576 | lines that are no hunk headers are passed over before the first hunk |
| PatchMeaning.PatchRoundTrip | cli/internal/localapi/routes_addon.go:555-629 | when a script and its swap are faithful, the patch takes A to B and the swapped patch takes B back to A |
| PatchMeaning.DeletionIsNotCarriedOut | cli/internal/localapi/routes_addon.go:594-596 | a deletion of a line beginning `-- ` is not carried out |
| PatchMeaning.AdditionIsLost | cli/internal/localapi/routes_addon.go:594-596 | an addition of a line beginning `++ ` is lost, though the deletion before it is carried out |
| PatchMeaning.LookalikeCanBeHarmless | cli/internal/localapi/routes_addon.go:594-596 | replacing a line beginning `-- ` by itself does apply |
| NewlineMarkers.MarkersDoNotMatter | cli/internal/localapi/routes_addon.go:597-600 | the applier's answer, errors included, is the same without the newline markers |
| NewlineMarkers.FinalNewlineStays | cli/internal/localapi/routes_addon.go:597-600 | a patch that adds or removes the final newline leaves the text as it was, if and only if the line does not begin `++ ` |
| PatchSoundness.AcceptedPatchIsItsHunks | cli/internal/localapi/routes_addon.go:565-629 | any successful application is the edit script of the patch's own hunks, and no line outside a hunk changes |
| StatusChunks.SplitTmuxStatusItems | cli/cmd/shellman/status_pump.go:83-112 | the loop computes the greedy chunks, and one empty chunk for no items |
| StatusChunks.GreedySplits | cli/cmd/shellman/status_pump.go:83-112 | the chunks partition the items in order; each fits or is a single item |
| StatusChunks.GreedyIsOptimal | cli/cmd/shellman/status_pump.go:83-112 | no other such partition has fewer chunks, for any notion of fitting that parts inherit |
| PromptHistory.BuildTaskPromptHistory | cli/internal/localapi/task_prompt_history.go:30-98 | the kept lines are, in order, the longest run of last lines within both budgets, newlines counted; included + dropped = total |
| PromptHistory.LinesAreMessages | cli/internal/localapi/task_prompt_history.go:37-48 | the lines are exactly the messages with a role and a content, each with its role, number and content, in the order of the messages |
| PromptHistory.LastMessagesAreKept | cli/internal/localapi/task_prompt_history.go:53-97 | the output is the last such messages in their order, after the number left out and the number shown if any were left out |
| PromptHistory.OutputFitsIff | cli/internal/localapi/task_prompt_history.go:80-97 | the output keeps to the character budget if and only if all lines are within the budgets, or the longest run of last lines that is leaves room for the header counting the rest |
| PromptHistory.ExcessIsBounded | cli/internal/localapi/task_prompt_history.go:80-97 | it never exceeds the budget by more than the length of a header |
| PromptHistory.OutputCanExceedBudget | cli/internal/localapi/task_prompt_history.go:89-97 | two lines of which the last fits and the header does not |
| PromptHistory.KeepWithin | cli/internal/localapi/task_prompt_history.go:62-75 | the running total is the joined length, and collecting from the end stops exactly where one more line is too long |
| PromptHistory.ReverseInPlace | cli/internal/localapi/task_prompt_history.go:76-78 | swapping from both ends reverses the collected lines in place |

## Left out

- HTTP handlers, websockets, SQL, git, tmux and process execution, the file system: plumbing. The store is a map with last-write-wins upsert that fails as a whole or not at all.
- The agent loop, prompts, tool registry, completion clients and the rest of the browser store: string assembly or UI state.
- JSON (but for the replacement of invalid bytes), CRC32C and regular expressions: the snapshot hash is an unknown function, envelopes an unknown codec, message normalisation an unknown function, and the hunk header is a hand-written parser.
- White space: tmux control lines are cut at ASCII white space only, and case folding is not modelled.
- Counters: sequence numbers and times do not wrap around.
- RegistryActor.RegistryActor.Subscribe: subscription options and the reset the pane then sends belong to `PaneSubscription`, and are not linked here; connections and panes are values filed under their ids, so aliasing between the registry and an actor is not captured; each actor's own updates in place are, in its class.
- RegistryState.AlwaysConsistent: operations of the registry follow one another. A closure between the two halves of a subscription leaves a subscriber that watches nothing, and is not modelled.
- RegistryActor.RegistryActor.GetOrCreatePane: the baseline, the status hook and the start of the new pane are not modelled.
- RegistryActor.RegistryActor.OnPaneClosed: the ended notice to subscribers and the status emission are not modelled.
- RegistryActor.RegistryActor.OnPaneStatusUpdate: what an item holds, whether it changed, and its emission are not modelled.
- PaneActor.PaneActor.SetRuntimeBaseline: the activity time that dates the first task-state report is not modelled.
- PaneActor.PaneActor.EmitStatusWithHash: the status hook is not called.
- BrowserPanes.BrowserPanes.SelectPaneOfTask: the pane's browser id and its target are one string, and the connection's sequence number is not modelled.
- PaneActor.PaneActor.OnStatusEvalTimerFired: reading the snapshot and the clock are parameters, and cancellation of the actor's context is only the stop event.
- PaneQuiescence.ReadyWithinThreeFirings: assumes timers fire when due and callbacks sample before the clock moves on; a pane that is stopped gets no bound.
- GapRecovery.BrowserListIsSuffix: one connection without reconnects, selects in order, a select of a live pane never fails, and a pane's browser id and target are one string.
- PaneSubscription.ResetBeforeLiveOutput: one subscriber; a channel that is full drops messages as `PaneQueue` says, which this run does not show.
- PaneQueue.Channel.EnqueuePaneMessage: the method is one uninterrupted send; receives between its selects, and other senders, are in the runs of `ChannelRuns`.
- SerialSends.OrderHoldsThroughoutIff: sends of several panes at once are covered by conservation and by the order of appends, not by this order.
- TaskReportQueue.EverythingIsWritten: panes report themselves as target, as the pane actor does; the store's replacement of non-positive timestamps by the current time, and its update of the task's own command column, are not modelled.
- TaskTree.DiffTaskRows: fields that are neither compared nor sent (role, sidecar mode, creation time) are left out of the rows.
- TaskNodes.Shell.ApplyTreeDelta: the pane lookup recomputed after a delta is not modelled.
- ControlLine.PipelinePassesOnWhatWasWritten: the map from panes to targets is fixed for the run, while the program refreshes it.
- TreeSync.BrowserShowsCachedRows: loading a tree over HTTP and command patches of the runtime delta also change the browser's nodes and are not modelled.
- EdgeHub.EdgeWSHub.RouteAgentOutbound: writing to the sockets, and events the server publishes to all clients, are not modelled; a wrapped payload may come back re-spaced.
- StatusChunks.SplitTmuxStatusItems: an error while measuring; and since the size probe omits the chunk counters, nothing is said about the size of the final message.
- The consistency loop that captures a reset snapshot twice, loss of tmux lines when a reader is slow, and the contents of status items.
- PromptHistory.BuildTaskPromptHistory: a missing message list and byte-wise cutting of a long message are inside the unknown normalisation.
