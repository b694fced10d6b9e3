# GTA-Claw, modelled and proved in Dafny

This project models the parts of GTA-Claw whose correctness depends on whole runs rather than on
single functions, and proves what they promise. `dafny verify dfyconfig.toml` checks everything.

| files | what they model |
|---|---|
| `Platform`, `RunPolicy`, `Onboarding`, `Session`, `ControlLoop` | the Android connection controller: the run policy, the generation-fenced view model, the attempt slot and one turn of the control loop, as classes that update fields in place |
| `Protocol`, `ProtocolSafety`, `ProtocolRuns`, `ProtocolEnvironment`, `ProtocolView` | the controller with its attempt tasks and its bounded update queue as one transition system, its inductive invariant, what holds in every run, how attempt and view keep up with the reported environment, and what the shell sees |
| `ConfigFile`, `ConfigSave`, `ConfigHistory` | the provider-configuration save: writing behind a verified backup under every fault and crash, restoring, and whole histories of such commands |
| `Utf8Pages`, `JsonLength`, `Assembly`, `PartialExport`, `MemoryExport` | paged exports: the daemon's pager, the size of its encoded pages, both collectors of the command line, and their collection loops |
| `VersionNeeds`, `VersionTables`, `VersionNames` | the two walks over an ELF file's version requirements and the GLIBC ceiling, what the walks collect in terms of the records alone, and what the bytes, strings and names mean |
| `Decimal`, `CostEstimate` | exact cost estimates and the decimal amount they print |
| `SessionStore`, `RateLimiter`, `SplitMessage` | the legacy server's session store, token bucket and message splitter |

## How the controller is modelled

A turn of the loop is a function from the loop's state to a `Turn`: the new state, where control is,
which snapshots went to the shell and which attempt was launched. A turn that cancels an attempt
stops at the join and goes on in a second half. The methods of `Controller`, `MobileRunPolicy`,
`ViewModel` and `AttemptSlot` update fields in the source's order and are proved to compute exactly
those functions. `Protocol` interleaves turns with the steps of attempt tasks: a task may take the
slot, send any update of the transport, send after it was cancelled, give up silently, or be aborted
at any point. Nothing in the transition system limits the number of tasks; that there is at most one
is a theorem.

The invariant `ProtocolSafety.Inv` has four parts: the loop's own state (at rest or waiting for a
join), the tasks and the slot, the queue, and the history of snapshots and launches. Its heart is the
queue: no update of the generation on screen is queued unless an attempt of that generation is held,
a terminal update is the last one its attempt sends, and a task that sent one is silent.

## Where the code does not do what one might expect

Each of these is proved in both directions, with the exact condition.

- A held attempt stays on its route, the usable network it was launched on or else the first one
  reported to it, except when the shell reports an unknown network and then a different usable one:
  the comparison of routes then has nothing to compare with
  (`ProtocolEnvironment.RouteKeptUnlessSilent`, `ProtocolEnvironment.SilentRouteChangeHappens`,
  `ProtocolEnvironment.SilentRouteChangeAfterUnknownLaunch`).
- A live view need not have a task behind it: a task that ends without telling how leaves the view
  connecting (`ProtocolRuns.AttendedUnlessUntold`, `ProtocolRuns.UntoldEndHappens`). A Disconnect and
  a Connect always get out of it (`ProtocolRuns.ReconnectAlwaysWorks`).
- A restore undoes an interrupted apply whenever the residue is within the size limit, but an
  interrupted restore only if its original also parses: a restore does not parse what it replaces
  (`ConfigSave.RestoreUndoesInterruption`, `ConfigSave.RestoreOverUnparsedSource`).
- A confirmed write is on disk byte for byte, except for contents of exactly one byte over the 4 MiB
  limit, where the capped readback cannot tell a longer file (`ConfigFile.ReadbackSoundExactly`). The
  callers never write contents over the limit.
- The section walk accepts some version tables the dynamic walk refuses, for instance an auxiliary
  list that runs out of its count without a terminator (`VersionNeeds.WalksAgree`,
  `VersionNeeds.SectionAloneIsLaxer`).
- The name of the blocker a waiting request is shown with can be out of date: a report that swaps one
  blocker for another leaves the view alone (`ProtocolEnvironment.BlockerNamedUnlessSwapped`,
  `ProtocolEnvironment.StaleBlockerHappens`). That the request is shown as blocked is never out of date.
- The session store exceeds its maximum in some run exactly when conversations may have the empty id,
  which the chat route accepts (src/server.ts:246-250), and do not all fit
  (`SessionStore.BoundHoldsExactly`, `SessionStore.EmptyIdStopsEviction`).
- The rate limiter lets a client's first request through unconditionally, so its bound holds exactly
  for allowances of at least one request a minute (`RateLimiter.EveryWindowIsBounded`); the
  configuration accepts no smaller allowance (src/config.ts:274).

## Model

| member | source | states |
|---|---|---|
| RunPolicy.MobileRunPolicy.RequestConnection | apps/gta-claw-android/src/controller.rs:363-381 | a request is retained; blocked it waits and stops any live attempt, unblocked it starts or restarts |
| RunPolicy.MobileRunPolicy.Retry | apps/gta-claw-android/src/controller.rs:383-395 | only a retained, idle request is retried; blocked it waits, otherwise it starts |
| RunPolicy.MobileRunPolicy.Disconnect | apps/gta-claw-android/src/controller.rs:397-406 | nothing stays requested, active or pending; a live attempt is told to stop |
| RunPolicy.MobileRunPolicy.SetLifecycle | apps/gta-claw-android/src/controller.rs:408-414 | an unchanged lifecycle does nothing; a changed one is reconciled and never restarts |
| RunPolicy.MobileRunPolicy.SetNetwork | apps/gta-claw-android/src/controller.rs:416-423 | an unchanged network does nothing; a moved usable route is reconciled as a restart |
| RunPolicy.MobileRunPolicy.ReconcileActive | apps/gta-claw-android/src/controller.rs:425-443 | a blocker parks a live attempt; its absence resumes a parked one or restarts a moved one |
| RunPolicy.MobileRunPolicy.AttemptFinished | apps/gta-claw-android/src/controller.rs:445-448 | neither active nor pending, request retained |
| Onboarding.ViewModel.PrepareAttempt | apps/gta-claw-android/src/onboarding.rs:1111-1120 | a new generation and revision with the request's address and credential, identity cleared |
| Onboarding.ViewModel.BeginAttempt | apps/gta-claw-android/src/onboarding.rs:1093-1096 | a connecting attempt under the returned generation |
| Onboarding.ViewModel.DeferAttempt | apps/gta-claw-android/src/onboarding.rs:1099-1102 | a blocked attempt under the returned generation |
| Onboarding.ViewModel.SuspendAttempt | apps/gta-claw-android/src/onboarding.rs:1105-1109 | the live generation is superseded and the blocker shown |
| Onboarding.ViewModel.ChangeEnvironment | apps/gta-claw-android/src/onboarding.rs:1129-1137 | reports a change exactly when the state changed |
| Onboarding.ViewModel.ChangeCapabilities | apps/gta-claw-android/src/onboarding.rs:1152-1159 | reports a change exactly when the state changed |
| Onboarding.ViewModel.ApplyUpdate | apps/gta-claw-android/src/onboarding.rs:1165-1191 | an update counts only for the generation on screen and only when it changes something |
| Onboarding.ViewModel.StopRequested | apps/gta-claw-android/src/onboarding.rs:1196-1205 | supersedes the generation and drops the request, unless already so |
| Session.AttemptSlot.Acquire | apps/gta-claw-android/src/session.rs:67-80 | granted exactly when idle; a refusal changes nothing |
| Session.AttemptSlot.Release | apps/gta-claw-android/src/session.rs:94-121 | frees the slot only for its owner |
| ControlLoop.Controller.PublishModel | apps/gta-claw-android/src/controller.rs:478-485 | the sink gets the rendered view unless it was the last one shown |
| ControlLoop.Controller.StartRequestedAttempt | apps/gta-claw-android/src/controller.rs:693-748 | a new generation begins before the old attempt is joined; without identity nothing is spawned and the attempt fails |
| ControlLoop.Controller.FinishLaunch | apps/gta-claw-android/src/controller.rs:709-747 | the half after the join: identity shown, task spawned and held, or the failure applied and the policy finished |
| ControlLoop.Controller.OnConnect | apps/gta-claw-android/src/controller.rs:515-545 | deferred and, if need be, stopped while blocked; started or restarted otherwise |
| ControlLoop.Controller.OnDisconnect | apps/gta-claw-android/src/controller.rs:555-563 | shown as stopped before the join, request dropped after it |
| ControlLoop.Controller.OnRetry | apps/gta-claw-android/src/controller.rs:564-587 | deferred while blocked, started when the policy says so, else only republished |
| ControlLoop.Controller.OnCommand | apps/gta-claw-android/src/controller.rs:512-663 | every command turn, up to the select or to the join it waits for, computes the turn function |
| ControlLoop.Controller.OnUpdate | apps/gta-claw-android/src/controller.rs:664-681 | a current terminal update of the held attempt finishes the policy and joins the task; others only render |
| ControlLoop.Controller.OnJoined | apps/gta-claw-android/src/controller.rs:750-762 | after the join each turn goes on with its own second half |
| ControlLoop.Controller.OnClose | apps/gta-claw-android/src/controller.rs:513-514 | closing the commands joins the held attempt and ends the loop |
| ProtocolSafety.CommandTurn | apps/gta-claw-android/src/controller.rs:512-663 | from rest, every command leaves the loop at rest or in a sound join, shows at most one newer snapshot, and keeps, supersedes or newly launches the attempt |
| ProtocolSafety.UpdateTurn | apps/gta-claw-android/src/controller.rs:664-681 | exactly a terminal update of the live generation ends the attempt; all others leave it held |
| ProtocolSafety.ResumeTurn | apps/gta-claw-android/src/controller.rs:708-747 | the second half of every turn returns to rest, launching exactly when a launch was pending |
| ProtocolSafety.CommitsUpdate | apps/gta-claw-android/src/controller.rs:664-681 | dequeuing keeps the queue invariant: after a terminal update nothing of that generation is left |
| ProtocolSafety.TaskStep | apps/gta-claw-android/src/controller.rs:764-914 | every step of every attempt task keeps slot, lease and queue in order |
| ProtocolRuns.RunKeepsInv | apps/gta-claw-android/src/controller.rs:493-686 | the invariant holds after every run of events, in every interleaving |
| ProtocolRuns.LoopStateAgrees | apps/gta-claw-android/src/controller.rs:493-686 | in every reachable state at the select: active iff held, with the model's generation; requested iff stored iff retained; pending implies requested, blocked, idle; active implies unblocked; the address, credential and identity shown belong to the stored request and held attempt |
| ProtocolRuns.NothingPanics | apps/gta-claw-android/src/controller.rs:588-598 | no `expect` of the loop can fail in any run: every stop directive has a blocker |
| ProtocolRuns.StartFindsRequest | apps/gta-claw-android/src/controller.rs:599-655 | no start or restart directive ever meets a missing request |
| ProtocolRuns.SnapshotRefinesPolicy | apps/gta-claw-android/src/onboarding.rs:1222-1400 | the last snapshot shown is the current one and its phase and flags are functions of the policy: blocked iff pending, pending connection iff active or pending, connect offered iff neither, retry offered only when it does something |
| ProtocolRuns.ShownRevisionsIncrease | apps/gta-claw-android/src/controller.rs:473-486 | over every run the published revisions strictly increase |
| ProtocolRuns.AtMostOneAttempt | apps/gta-claw-android/src/session.rs:67-121 | in every reachable state at most one task lives, no task was refused the slot, and no "controller busy" update exists |
| ProtocolRuns.SpawnsIntoIdleSlot | apps/gta-claw-android/src/controller.rs:693-788 | join before spawn: a task is only ever spawned with no task alive and the slot idle, above every queued generation |
| ProtocolRuns.LiveAttemptServesStoredRequest | apps/gta-claw-android/src/controller.rs:693-748 | the held attempt is the last one launched and was launched for the request stored now |
| ProtocolRuns.JoinCompletes | apps/gta-claw-android/src/controller.rs:750-762 | every join that any run reaches can finish once its task is gone, and returns to the select, or to the end if commands were closed, with policy and launches unchanged unless a launch was pending |
| ProtocolRuns.AttendedUnlessUntold | apps/gta-claw-android/src/controller.rs:813-869 | if the held attempt has a living task or its end in the queue, the next event keeps that so iff it is not its task ending untold |
| ProtocolRuns.UntoldEndHappens | apps/gta-claw-android/src/controller.rs:836-851 | the excepted case is reachable: a live view with no task and an empty queue |
| ProtocolRuns.ReconnectAlwaysWorks | apps/gta-claw-android/src/controller.rs:512-663 | from every state at the select, unblocked, a Disconnect, its join and a Connect launch once; a living task then serves the new request iff the platform has yielded an identity, otherwise the failure is shown |
| ProtocolRuns.NoSpontaneousLaunch | apps/gta-claw-android/src/controller.rs:363-448 | once nothing is live or pending, no run without Connect or Retry launches anything |
| ProtocolRuns.TerminalUpdateQuiets | apps/gta-claw-android/src/controller.rs:664-681 | a terminal update of the live attempt leaves such a quiet state |
| ProtocolRuns.DisconnectQuiets | apps/gta-claw-android/src/controller.rs:555-563 | so does a Disconnect, from any state, and it launches nothing |
| ProtocolRuns.DeferredStep | apps/gta-claw-android/src/controller.rs:512-663 | one event with a deferred request: still waiting, for the new request after a Connect, or launched, decided by the environment alone |
| ProtocolRuns.DeferredRequestLaunchesOnce | apps/gta-claw-android/src/controller.rs:363-443 | while a deferred request stays blocked nothing is launched, whatever is connected or retried meanwhile; the first unblocked state has launched exactly once, for the request connected last; only Disconnect or the end of the program cancels it |
| ProtocolRuns.WithoutConnectSameRequest | apps/gta-claw-android/src/controller.rs:515-516 | without a Connect the request launched last is the one that was deferred |
| ProtocolEnvironment.RouteKeptUnlessSilent | apps/gta-claw-android/src/controller.rs:416-467 | for an attempt launched on a known or an unknown network: if it is on its route, the next event keeps it there iff it is not a usable report of another route right after an unknown network |
| ProtocolEnvironment.LiveAttemptIsOnCurrentRoute | apps/gta-claw-android/src/controller.rs:408-467 | in every run whose network never returns to unknown, however the attempt was launched, the network is available over the transport and in the generation of its route, or none was ever reported |
| ProtocolEnvironment.SilentRouteChangeHappens | apps/gta-claw-android/src/controller.rs:451-467 | the excepted case is reachable: Wi-Fi, unknown, cellular leaves the attempt on Wi-Fi |
| ProtocolEnvironment.SilentRouteChangeAfterUnknownLaunch | apps/gta-claw-android/src/controller.rs:348-356 | the same for an attempt launched before any network was reported |
| ProtocolEnvironment.RestartsOnlyOnRouteChange | apps/gta-claw-android/src/controller.rs:425-467 | a usable report restarts the live attempt iff transport or generation moved; metering and validation never do |
| ProtocolEnvironment.BlockerNamedUnlessSwapped | apps/gta-claw-android/src/controller.rs:425-433 | if the view names the current blocker, the next event keeps that so iff it does not swap one blocker for another under a waiting request |
| ProtocolEnvironment.StaleBlockerHappens | apps/gta-claw-android/src/controller.rs:588-620 | the excepted case is reachable: a request deferred for lack of network still names the network in the background |
| ProtocolRuns.OnlyLiveAttemptIsRendered | apps/gta-claw-android/src/controller.rs:664-681 | an update of any attempt but the held one changes nothing |
| ProtocolView.UpdateIsShown | apps/gta-claw-android/src/onboarding.rs:1165-1191 | in every reachable state an update of the live attempt is shown as exactly the phase it reports, once, and nothing else of the view changes |
| ProtocolView.CommandIsShown | apps/gta-claw-android/src/controller.rs:512-663 | the phase and environment every command shows, from the state before it: connecting, the blocker by name, the identity failure, the rejection by its code, stopped, or unchanged |
| ProtocolView.JoinShows | apps/gta-claw-android/src/controller.rs:708-747 | a turn that paused at a join shows its drafted phase after it |
| ProtocolView.RequestIsShown | apps/gta-claw-android/src/onboarding.rs:1222-1400 | the snapshot shows the address and credential of the stored request and the identity of the held attempt; retry is offered iff a request is stored and failed |
| ProtocolView.CapabilitiesAreShown | apps/gta-claw-android/src/controller.rs:654-660 | in every run the snapshot shows the capabilities of the start with the discovery reported last |
| ProtocolView.LiveOnlyUnblocked | apps/gta-claw-android/src/platform.rs:134-145 | an attempt is live only in the foreground with a network not known to be down, and a request waits only otherwise |
| ProtocolView.NothingNewIsSilent | apps/gta-claw-android/src/onboarding.rs:1129-1205 | a report already on record, a second disconnect, a rejection under a live or waiting request and a retry without effect change nothing and show nothing |
| ConfigFile.HeldFile.WriteAndVerify | apps/gta-claw-cli/src/provider_config.rs:348-367 | the in-place write runs the modelled steps, and confirmation means the exact bytes are in the file and on disk |
| ConfigFile.FaultlessWriteIsConfirmed | apps/gta-claw-cli/src/provider_config.rs:348-367 | without faults every write within the limit is confirmed, whatever the file held before |
| ConfigFile.FirstFaultIsNamed | apps/gta-claw-cli/src/provider_config.rs:348-367 | the error names the first operation that did not report success, or the readback |
| ConfigFile.ReadbackSoundExactly | apps/gta-claw-cli/src/provider_config.rs:359-366 | confirmation is sound for every file and every fault pattern iff the length is not one over the read limit |
| ConfigSave.SaveAfterBackup | apps/gta-claw-cli/src/provider_config.rs:370-387 | backup, checks, then source; a backup failure leaves the source object untouched |
| ConfigSave.SaveIsRecoverable | apps/gta-claw-cli/src/provider_config.rs:370-387 | at every step the source is still the original or the backup is verified; no source byte changes before that |
| ConfigSave.CrashSafety | apps/gta-claw-cli/src/provider_config.rs:390-489 | for every fault pattern and a crash after any step, the original is on disk in the source or in the backup, and the candidate is intact |
| ConfigSave.ReportsAreSound | apps/gta-claw-cli/src/provider_config.rs:518-538 | "source may have changed: false" is never wrong; a source failure has a complete backup; success means both files hold what they should; however the task ended, lost at any step included, the original is on disk in the source or the backup |
| ConfigSave.CalmCommandSaves | apps/gta-claw-cli/src/provider_config.rs:390-489 | a fault-free command that passes its checks saves the candidate behind a full backup |
| ConfigSave.OutcomeIsExact | apps/gta-claw-cli/src/provider_config.rs:390-489 | which of the four outcomes a command has, iff by iff, from its inputs: nothing is touched unless both files are the reviewed ones by digest and pass every check, the source is written only behind a confirmed backup and the last checks, success needs the checks afterwards, and the report says "may have changed" exactly when the source write began |
| ConfigSave.SourceWaitsForChecks | apps/gta-claw-cli/src/provider_config.rs:370-387 | without the last checks no state of any run has the source changed |
| ConfigSave.RestoreUndoesInterruption | apps/gta-claw-cli/src/provider_config.rs:390-489 | crash an apply or a restore anywhere with the original backed up: a calm restore brings the original back, keeps the residue and leaves the old backup alone iff the residue is within the size limit and the original passes the schema, which an applied-over original always does; otherwise it touches nothing |
| ConfigSave.RestoreOverUnparsedSource | apps/gta-claw-cli/src/provider_config.rs:421-441 | the schema condition is needed: a restore over any source that does not parse cannot be undone by another restore |
| ConfigHistory.OldFilesUntouched | apps/gta-claw-cli/src/provider_config.rs:447-451 | no command, however it fails, changes a file that existed before it other than the source |
| ConfigHistory.ActionKeeps | apps/gta-claw-cli/src/provider_config.rs:370-387 | bytes that are on disk somewhere are still on disk somewhere after any command killed at any step, or a reboot |
| ConfigHistory.NothingIsEverLost | apps/gta-claw-cli/src/provider_config.rs:348-489 | through any sequence of applies, restores, kills and reboots, every content that was ever on disk stays on disk |
| Utf8Pages.BoundaryIsNear | apps/gta-claw-daemon/src/adapters/agent_runtime.rs:1413-1416 | in valid UTF-8 a character boundary is at most three bytes back |
| Utf8Pages.ValidExactly | apps/gta-claw-daemon/src/adapters/agent_runtime.rs:1386-1395 | the valid texts are exactly the encodings of sequences of Unicode scalar values |
| Utf8Pages.CutPage | apps/gta-claw-daemon/src/adapters/agent_runtime.rs:1413-1416 | the cursor loop finds the last boundary within 2048 bytes |
| Utf8Pages.PageIsNearlyFull | apps/gta-claw-daemon/src/adapters/native_memory.rs:223-236 | every page but the last carries at least 2045 bytes |
| Assembly.GrowKeepsSound | apps/gta-claw-cli/src/native_gateway.rs:127-146 | every accepted page but the last strictly reduces what is missing |
| Assembly.GrowAllIsConcatenation | apps/gta-claw-cli/src/native_gateway.rs:394-436 | accepted pages concatenate in order under one identity, whatever was collected before |
| Assembly.VerifiedContentIsIntact | apps/gta-claw-cli/src/native_gateway.rs:438-451 | from any responses in any order, verified content is the in-order concatenation of the accepted pages of one identity, of the stated length and digest |
| Assembly.VerifiedContentIsOriginalOrCollision | apps/gta-claw-cli/src/native_gateway.rs:438-451 | from any responses: if any accepted page states the digest of a content, verified content is that content or collides with it |
| Assembly.FaithfulCutAssembles | apps/gta-claw-cli/src/native_gateway.rs:394-436 | every faithful cut of a content fits page by page and assembles to it |
| Assembly.DaemonCutsFaithfully | apps/gta-claw-daemon/src/adapters/agent_runtime.rs:1386-1422 | the daemon's greedy paging is a faithful cut with at most one page per 2045 bytes, plus one |
| Assembly.NextPieceStaysOnTrack | apps/gta-claw-cli/src/native_gateway.rs:2618-2654 | from any state of an honest collection the daemon's next page fits, makes progress and leaves budget |
| Assembly.BudgetIsAmple | apps/gta-claw-cli/src/native_gateway.rs:2618-2625 | 4 MiB never take more than 2052 of the 4096 pages |
| PartialExport.PartialExportPages.PushPage | apps/gta-claw-cli/src/native_gateway.rs:394-436 | a refused page changes nothing; an accepted one is appended under the pinned identity |
| PartialExport.ExaminerIsCareful | apps/gta-claw-cli/src/native_gateway.rs:74-151 | whatever passes `check_partial_page` continues the content at its cursor, inside the total, last exactly at its end |
| PartialExport.TakenExactlyIfGenuine | apps/gta-claw-cli/src/native_gateway.rs:74-151 | a response is taken iff, field by field, it is for this run and revision, durable, unacknowledged, no replay, terminal, available, untrusted, without reasoning or tool arguments, within 16 KiB, and the next stretch under the pinned identity |
| PartialExport.RefusalsAreNamed | apps/gta-claw-cli/src/native_gateway.rs:394-410 | a finished or overlong export, a foreign page and a run without text are refused as such |
| PartialExport.ServesWhatIsAsked | apps/gta-claw-daemon/src/adapters/agent_runtime.rs:1386-1422 | the daemon answers iff revision, cursor, boundary and digest are right, with the stretch asked for |
| PartialExport.BudgetKept | apps/gta-claw-cli/src/native_gateway.rs:401-403 | no sequence of responses takes the collector past 4096 pages |
| PartialExport.NextChunkIsAccepted | apps/gta-claw-cli/src/native_gateway.rs:74-151 | a reply with the next chunk of the retained text passes every check |
| PartialExport.RoundTrip | apps/gta-claw-cli/src/native_gateway.rs:394-451 | however the text is cut, collecting the replies and finishing returns exactly the text |
| PartialExport.DaemonKeepsOnTrack | apps/gta-claw-daemon/src/adapters/agent_runtime.rs:2852-2890 | at every turn the daemon accepts the collector's query and the collector accepts the daemon's page |
| PartialExport.ReplyFits | apps/gta-claw-cli/src/native_gateway.rs:84-86 | a full page, every byte escaped at its longest, still encodes within 16 KiB |
| PartialExport.CompactRepliesServe | apps/gta-claw-daemon/src/adapters/agent_runtime.rs:2885-2889 | so the daemon in compact JSON is a peer the export loop succeeds against |
| PartialExport.CollectPartialExport | apps/gta-claw-cli/src/native_gateway.rs:2607-2664 | the loop ends within its budget against any peer; a returned text is verified and is the concatenation of the pages accepted from the peer's own answers, every one of them genuine; every error names what the peer did; against the daemon the retained text is returned |
| MemoryExport.MemoryArchivePages.PushPage | apps/gta-claw-cli/src/native_gateway.rs:486-534 | a refused page changes nothing; an accepted one extends the archive |
| MemoryExport.MemoryExaminerIsCareful | apps/gta-claw-cli/src/native_gateway.rs:494-521 | whatever passes the page checks fits, so the integrity results hold of memory archives |
| MemoryExport.TakenExactlyIfGenuine | apps/gta-claw-cli/src/native_gateway.rs:486-534 | a page is taken iff, field by field, it has the schema version, notebook revision, flags, cursor, sizes, digest form and identity required |
| MemoryExport.ExportsWhatIsAsked | apps/gta-claw-daemon/src/adapters/native_memory.rs:286-312 | the daemon answers iff revision, size and cursor are right, with the stretch asked for |
| MemoryExport.NextChunkIsTaken | apps/gta-claw-daemon/src/adapters/native_memory.rs:286-312 | a page with the next chunk of the archive passes every check |
| MemoryExport.CompactPagesExport | apps/gta-claw-daemon/src/adapters/native_memory.rs:308-311 | every page of the daemon in compact JSON encodes within 16 KiB, so the export loop succeeds against it |
| MemoryExport.MemoryRoundTrip | apps/gta-claw-cli/src/native_gateway.rs:486-548 | however a non-empty archive is cut, collecting the pages and finishing returns exactly the archive |
| MemoryExport.CollectMemoryArchive | apps/gta-claw-cli/src/native_gateway.rs:2344-2478 | the loop ends within its budget against any peer; a returned archive is verified, valid and the concatenation of the pages accepted from the peer's own answers, every one of them genuine; a failure has one of four causes; against the daemon the archive is returned |
| VersionNeeds.WalkDynamicAux | packaging/linux/strict_elf.py:201-229 | the inner dynamic loop collects exactly `count` names and needs its terminator there; the loop check never fires |
| VersionNeeds.WalkDynamic | packaging/linux/strict_elf.py:176-236 | the dynamic walk accepts and collects as specified; records are readable only inside the file, so every read of the walk is proved to be |
| VersionNeeds.WalkSectionAux | packaging/linux/strict_elf.py:270-303 | the inner section loop stays inside the section and ends at a terminator or after `count` names |
| VersionNeeds.WalkSection | packaging/linux/strict_elf.py:255-308 | the section walk terminates, stays inside the section and collects as specified |
| VersionNeeds.AuxWalksAgree | packaging/linux/strict_elf.py:201-229 | over the same bytes the two inner walks differ exactly by the terminator |
| VersionNeeds.WalksAgree | packaging/linux/strict_elf.py:176-308 | over a covered chain the dynamic walk accepts iff the section walk accepts and the chain is attested, and then the name sets are equal |
| VersionNeeds.AcceptedDynamicMatchesSection | packaging/linux/strict_elf.py:310-311 | a table the dynamic walk accepts always passes the comparison with its section |
| VersionNeeds.SectionAloneIsLaxer | packaging/linux/strict_elf.py:297-303 | the converse fails: a file of 38 bytes whose table only the section walk accepts |
| VersionNeeds.CeilingBoundsEveryRequirement | packaging/linux/strict_elf.py:312-324 | testing the last sorted requirement against the ceiling tests all of them |
| VersionNeeds.VerdictCoversEveryRequirement | packaging/linux/strict_elf.py:176-324 | from file bytes to verdict: every name of an accepted table is a GLIBC or GCC version, and the one comparison passes iff every GLIBC requirement is within the ceiling |
| VersionTables.DynamicExact | packaging/linux/strict_elf.py:176-236 | over the records by number: the dynamic walk accepts iff every record and every auxiliary record is as required, and collects a name iff some auxiliary record of some record has it |
| VersionTables.SectionAuxExact | packaging/linux/strict_elf.py:270-303 | the same of the inner section walk, with its own bounds and terminator rule |
| VersionTables.SectionNames | packaging/linux/strict_elf.py:255-308 | an accepted section is a whole chain of records, at most 4097, and a name is collected iff some auxiliary record of the chain has it |
| VersionTables.ChainIsAccepted | packaging/linux/strict_elf.py:255-308 | every such chain is accepted |
| VersionTables.VerdictIsOverEveryRecord | packaging/linux/strict_elf.py:176-324 | from file bytes to verdict, the comparison with the ceiling passes iff every GLIBC version named by any auxiliary record of the table is within it |
| VersionNames.NeedReadsBack | packaging/linux/strict_elf.py:14-14 | a little-endian Elf64_Verneed anywhere in a file reads back field by field |
| VersionNames.AuxReadsBack | packaging/linux/strict_elf.py:15-15 | so does an Elf64_Vernaux, whatever its hash, flags and index |
| VersionNames.LoadedNamesExact | packaging/linux/strict_elf.py:35-46 | a string is read iff it is printable and closed by a NUL inside table and file; it is a version iff it is spelled as one |
| VersionNames.VersionSpelling | packaging/linux/strict_elf.py:16-17 | GLIBC versions are the prefix and two or three numerals with dots between, GCC versions one or more |
| VersionNames.TupleReadsBack | packaging/linux/strict_elf.py:49-50 | the tuple of a version written in decimal is its numbers |
| VersionNames.LessIsLexicographic | packaging/linux/strict_elf.py:323-324 | tuples compare by the first number that differs, a prefix below its extensions |
| VersionNames.MajorThenMinor | packaging/linux/strict_elf.py:312-324 | two-part versions compare by major, then minor, as numbers |
| CostEstimate.CheckRates | apps/gta-claw-cli/src/accounting_cost.rs:250-272 | accepted iff all pairs are distinct and all prices bounded |
| CostEstimate.BuildIndex | apps/gta-claw-cli/src/accounting_cost.rs:280-284 | the index answers every pair exactly as a linear search of the list |
| CostEstimate.AddRound | apps/gta-claw-cli/src/accounting_cost.rs:290-323 | one round's checked arithmetic equals exact pricing unless the 128-bit total overflows |
| CostEstimate.Estimate | apps/gta-claw-cli/src/accounting_cost.rs:276-323 | succeeds iff at most 1024 rounds, all classifications known and the exact total fits 128 bits; each count is the number of rounds that meet its class's own condition, a single listed round costs its tokens at its own prices; names the failure: too many rounds, an unknown classification on a parsed card, an overflow of known classifications |
| CostEstimate.CountsByClass | apps/gta-claw-cli/src/accounting_cost.rs:290-323 | priced, missing, partial and unreported are the numbers of rounds with complete usage of a listed pair, complete usage of no listed pair, partial usage, and no response or unreported usage |
| CostEstimate.OneRoundCosts | apps/gta-claw-cli/src/accounting_cost.rs:308-316 | a round of a listed pair costs input tokens at the input price plus output tokens at the output price |
| CostEstimate.OtherRoundsAreFree | apps/gta-claw-cli/src/accounting_cost.rs:290-307 | any other round adds nothing |
| CostEstimate.TotalsAdd | apps/gta-claw-cli/src/accounting_cost.rs:317-321 | the subtotal of a concatenation is the sum of the subtotals |
| CostEstimate.ParsedCardNeverOverflows | apps/gta-claw-cli/src/accounting_cost.rs:308-321 | for every parsed card and at most 1024 rounds no checked operation overflows |
| CostEstimate.CountsPartitionRounds | apps/gta-claw-cli/src/accounting_cost.rs:286-323 | the four counts partition the rounds |
| CostEstimate.EstimateIgnoresOrder | apps/gta-claw-cli/src/accounting_cost.rs:290-323 | permuting the rounds changes neither the estimate nor whether there is one |
| CostEstimate.ReportedAmountIsExact | apps/gta-claw-cli/src/accounting_cost.rs:324-339 | the printed subtotal reads back to the exact total; a total estimate is given iff every round was priced |
| Decimal.PrintedValue | apps/gta-claw-cli/src/accounting_cost.rs:326-328 | the whole part is digits without a leading zero and denotes its number |
| Decimal.AmountRoundTrip | apps/gta-claw-cli/src/accounting_cost.rs:324-330 | twelve fraction digits after the point; reading the amount back gives the same units |
| SessionStore.SessionManager.Get | src/engine/sessionManager.ts:23-30 | a hit returns the session and refreshes only its access time; a miss changes nothing; either is a step of the run relation |
| SessionStore.SessionManager.Set | src/engine/sessionManager.ts:32-50 | evicts only when full and the id is new, then stores the entry |
| SessionStore.SessionManager.EvictLRU | src/engine/sessionManager.ts:79-97 | removes a least recently accessed entry, unless its id is empty |
| SessionStore.SessionManager.Cleanup | src/engine/sessionManager.ts:60-77 | keeps exactly the entries within their time to live |
| SessionStore.Chat | src/engine/copilotEngine.ts:88-143 | a chat turn is one step of the run relation and returns the stored or the new session |
| SessionStore.RunKeepsRecency | src/engine/sessionManager.ts:23-97 | in every run of gets, sets, whole turns and expiry, the store knows the true access times, holds no id without every more recently accessed one and is bounded; without expiry it is as full as can be |
| SessionStore.HoldsMostRecent | src/engine/sessionManager.ts:23-97 | without expiry the store holds exactly the ids with fewer than `maxSessions` ids accessed since, also when turns overlap |
| SessionStore.ExpiryIsExact | src/engine/sessionManager.ts:60-77 | in any run, a cleanup removes exactly the conversations last accessed longer ago than the time to live, by the history's own access times |
| SessionStore.SizeIsBounded | src/engine/sessionManager.ts:32-50 | with non-empty ids no interleaving of gets, sets and expiry exceeds `maxSessions`, whatever the clock does |
| SessionStore.FullStoreEvictsUnlessEmptyId | src/engine/sessionManager.ts:90-96 | a new entry in a full store keeps the bound iff the oldest id is not empty |
| SessionStore.EmptyIdStopsEviction | src/engine/sessionManager.ts:79-97 | in every run that starts with the empty id and does not use it again, the store holds every conversation accessed, whatever its maximum |
| SessionStore.BoundHoldsExactly | src/engine/sessionManager.ts:32-97 | over any set of ids, every run from the empty store stays within `maxSessions` iff the empty id is not among them or all of them fit |
| RateLimiter.Limiter.IsAllowed | src/server.ts:47-68 | decides by this client's bucket alone and changes no other |
| RateLimiter.AllowedWithinSupply | src/server.ts:47-68 | what gets through in a run is paid for by the tokens at its start and the refill until its end |
| RateLimiter.WindowIsBounded | src/server.ts:47-68 | any window of any client's history is within a full bucket plus its refill |
| RateLimiter.EveryWindowIsBounded | src/server.ts:37-69 | that holds of all histories iff the allowance is at least one a minute |
| RateLimiter.RefusedOnlyWithoutRoom | src/server.ts:47-68 | a request is let through iff every window up to it has room for one more: the limiter refuses nothing it need not |
| RateLimiter.PollingClientIsServed | src/server.ts:57-63 | a request 60000/maxPerMinute milliseconds after the last one let through is let through, whatever was refused in between |
| RateLimiter.PacedClientIsServed | src/server.ts:47-68 | a client that leaves 60000/maxPerMinute milliseconds between requests is never refused |
| RateLimiter.ClientsAreIndependent | src/server.ts:37-69 | in any interleaving a client's verdicts are those it would get alone |
| RateLimiter.EveryClientIsLimited | src/server.ts:37-69 | in any run of the server with a monotone clock, each client gets at most maxPerMinute + maxPerMinute * elapsed / 60000 through in any window |
| SplitMessage.FindLast | src/utils/splitMessage.ts:13-15 | the last occurrence at or before the limit, or -1 |
| SplitMessage.SplitPointChoice | src/utils/splitMessage.ts:13-19 | the cut is the last line break of the second half, else the last space after 30 percent, else the limit |
| SplitMessage.SplitText | src/utils/splitMessage.ts:1-26 | the loop terminates and computes the specified chunks |
| SplitMessage.SplitsOnce | src/utils/splitMessage.ts:1-26 | a text that fits is left alone; any other is cut once, at the last line break of the second half, else the last space after 30 percent, else the limit, loses the white space after the cut and no more, and goes on the same way |
| SplitMessage.LaterChunksStartWithInk | src/utils/splitMessage.ts:21-23 | every chunk after the first starts with a unit that is not white |
| SplitMessage.ChunksCoverText | src/utils/splitMessage.ts:7-23 | the text is its chunks in order with only white space between and after them |
| SplitMessage.SplitKeepsText | src/utils/splitMessage.ts:1-26 | no non-white unit is lost, repeated or moved; every chunk fits; all but the last have 30 percent of the limit; hence a bound on their number |

## Left out

- Generation and revision counters are natural numbers; their wrap-around at 2^64 is not modelled.
- The texts, notices and remedies of the onboarding snapshot are not modelled; the snapshot keeps phase, flags, revision, address, credential flag, identity kind and environment.
- Tokio, sockets, the gateway client, keyrings and the join timeout: an attempt task is the updates it may send and the lease it holds; the loop may take any command whenever it is at its select, so the command queue's own bound plays no part.
- ProtocolRuns.JoinCompletes: says that a join can finish, not when; that the task ends at all is the abort after the timeout, which is outside the model.
- Directory durability and the creation of the backup file are taken to be durable; reads are truthful, a synchronisation that reports success did synchronise, and the source is synchronised before the command starts.
- ConfigSave.CrashSafety: a crash is taken between the modelled steps; a crash inside a write or truncation is covered by the unsynchronised state that follows it, in which the disk may hold anything.
- UTF-8 decoding, JSON5 parsing, the schema and the provider-only comparison of a configuration are parameters; path checks and exclusive opening are single yes/no answers.
- The preparation and inspection modes of the provider-configuration command.
- SHA-256 is an arbitrary function; collision freedom is never assumed.
- JSON decoding of pages: a response is malformed or a decoded record with some encoded length; of the daemon's encoding only the length is modelled. The session id's length is counted in characters, in the source in bytes. Allocation failure of the collector is not modelled.
- PartialExport.CompactRepliesServe: run ids are taken to be digests of 64 hexadecimal digits, as the command line demands where it reads one; revisions and turns to be 64-bit numbers.
- MemoryExport.CollectMemoryArchive: the health checks, idempotency keys, receipts and event waits between pages are one answer of the peer, or its absence; the archive's own validation is a parameter.
- The model export and accounting export collectors, whose page validators are not part of this model.
- ELF header, program header, dynamic segment and section table parsing, address translation, more than one version-needs section, and a section linked to a string table other than the dynamic one.
- VersionNeeds.CeilingBoundsEveryRequirement: the list is given as the sort leaves it; the sort itself is Python's.
- Rate-card header fields and the character rules for provider and model names; the archive and digest checks around the estimate.
- SessionStore.HoldsMostRecent: the clock strictly increases, so equal access times, which `Map` order would decide, do not arise; the session itself is an opaque number.
- SessionStore.SizeIsBounded: needs a maximum of at least one, the smallest the configuration accepts (src/config.ts:266).
- The rate limiter and the splitter's thresholds use exact numbers; floating-point rounding is not modelled.
- SplitMessage.SplitText: needs a limit of at least one; with zero the source's loop makes no progress.
- Command-line parsing, help and error texts, channel clients, bots, tools, the updater, package scripts other than the version-needs check, and the remaining routes of the legacy server.
