# Koinon: verified model of its durable protocols

Koinon is a daemon that keeps its state in one SQLite database. Several of its protocols are
written as small transactions whose correctness depends on durable history rather than on memory.
This project models four of them, and two kinds of bounded reads, and proves what they promise.
A database transaction is one step; a crash may fall between any two steps; adapters, processes
and clocks are environments that may do anything their contract allows.

| files | subject |
|---|---|
| `Cycle.dfy`, `CycleController.dfy`, `CycleRuns.dfy` | the managed context cycle: its row, its history with the queries over it, its transactions, the controller's decisions, and runs with calls in flight, other callers and crashes |
| `CycleHistory.dfy`, `CycleSafety.dfy`, `CycleCalls.dfy`, `CycleOnce.dfy`, `CycleInvariant.dfy`, `CycleInputs.dfy`, `CycleEpochs.dfy`, `CycleAnswers.dfy`, `CycleWaits.dfy` | what every action of a cycle keeps |
| `CycleDecisions.dfy`, `CycleResults.dfy`, `CycleEnds.dfy` | what each action of a cycle does, exactly when, and what an end leaves |
| `CycleTheorems.dfy`, `CycleStore.dfy` | the main results of every run; the transactions that change the row in place |
| `KeptRetry.dfy` | ready timeouts that keep a session's Enable, over many cycles |
| `Resources.dfy`, `Leases.dfy`, `LeaseAnswers.dfy`, `LeaseEngine.dfy`, `LeaseRuns.dfy` | the lease engine with its exact answers, and the cycle's protection of leases |
| `Archive.dfy`, `ArchiveCodec.dfy`, `ArchiveMoves.dfy`, `ArchiveSafety.dfy`, `ArchiveRuns.dfy`, `ArchiveStore.dfy`, `ArchiveAges.dfy` | the deep archive of decisions, from a database row to a line of an append-only log |
| `Export.dfy`, `ExportClient.dfy` | the paged export of the decision board and the client that joins it |
| `TailScan.dfy`, `LogScan.dfy` | the bounded backward scans of session records |
| `Keyset.dfy` | the in-memory keyset page of the dashboard |
| `Bytes.dfy`, `Options.dfy`, `Splitting.dfy` | bytes, optional values, and splitting at a separator |

`dafny verify dfyconfig.toml` checks the whole project.

## Assumptions

- Each transaction is atomic and durable, and reads the clock once; the clock never goes back from
  one transaction to the next.
- A cycle adapter's call submits at most once, an unsent refusal or `submitted=false` means that
  nothing was submitted, and a receipt means that the input was submitted. The session adapter
  proves only the session that the row records. These contracts are `CycleRuns.HonestResult` and
  `CycleController.HonestProof`.
- The encoding of a decision record has no newline in it, decodes to its record, and no other
  stretch of it decodes as a record (section 4 of RFC 8259). The contract is `Archive.Good`,
  and `ArchiveCodec.CodecExists` shows that it can be met.
- A power failure keeps a prefix of a log that is no shorter than its synced bytes.
- A change of the board version accompanies every move, restore, edit and verdict; an
  acknowledgement changes live records without it. Digests are injective.

## Where the code falls short of its description

Each of these is a fact about the code, with the exact condition or a concrete run.

- `finishMove` deletes the rows on a complete line that was never synced, so a power failure can
  take the item: `ArchiveRuns.PowerLossIsSafeIff`, `ArchiveRuns.StepKeepsDurable`,
  `ArchiveRuns.UnsyncedDeleteHappens`, `ArchiveRuns.ItemIsLost`.
- The mark does not look at waiting deliveries again, so an acknowledgement can be lost with the
  rows: `ArchiveRuns.MarkIsExactIff`, `ArchiveRuns.HastyMarkIsReachable`.
- An advance that meets the event limit ends the cycle and returns no error. A compaction then
  keeps its Enable, so it can be entered after its cycle ended, though never twice; for every
  ended cycle the condition is `CycleTheorems.EndedFenceIff`, for the step that ends it
  `CycleTheorems.LimitFenceIff`, and `CycleTheorems.EndedCompactionIsEntered` is its witness.
- A cycle protects its session's claims only while the session is registered in their repository.
  A claim loses its floor if and only if it is renewed short and unprotected:
  `LeaseRuns.RenewKeepsFloorIff`, `LeaseRuns.FloorHeldIff`; witness
  `LeaseRuns.MovedSessionLosesProtection`.
- The Enable remembers one kept timeout, so a timeout that is kept under another epoch lets the
  first epoch be admitted without a read: `KeptRetry.AnotherTimeoutForgets`.
- A record whose times go back can hide a turn from `recordTurnRead`: `TailScan.HiddenTurnIff`;
  witness `TailScan.DisorderHidesTurn`.
- `recordTurnRead` indexes the last of no lines when its first window, of a larger file, has no line
  end: `TailScan.RecordTurnRead`.

## Model

| member | source | states |
|---|---|---|
| `CycleTheorems.AtMostOnce` | internal/core/context_cycle_controller.go:702-722 | in every run of one cycle, with crashes between any two steps, a clear, a create request, a select, a pickup and a compaction are each made at most once, although refused ones are tried again |
| `CycleTheorems.SelectQueryIsExact` | internal/core/context_cycle_controller.go:911-940 | the select query says "sent" of exactly the intents that may have been sent: when it says no, no select was made and none is in flight |
| `CycleTheorems.RecordedSuccessorIsKept` | internal/core/cycle_opencode.go:645-681 | with either adapter, once a row has a successor epoch every later row has the same one, also the row that ends the cycle, and a create at a later row makes no request |
| `CycleTheorems.UnprovenEndsUncertain` | internal/core/context_cycle.go:193-214 | a cycle that made a clear or a select whose reset was never verified, a create whose session was never recorded, a pickup or a compaction whose receipt was never recorded, or a session adapter's pickup that was never displayed, ends uncertain whichever caller ends it, unless that last one's report completes it or the compaction was submitted after its cycle ended at the event limit |
| `CycleTheorems.UnansweredEndsUncertain` | internal/core/context_cycle.go:193-204 | a dialog's answer is made at its intent, and the row after that intent has its receipt, or the cycle ends there uncertain, or completes by the report of the pickup that the dialog held up |
| `CycleTheorems.IntentMadeOnce` | internal/core/context_cycle_controller.go:702-722 | over a whole run, no two effects have the same revision, so every dialog answer is made at most once |
| `CycleTheorems.EndedHandoffIsFenced` | internal/core/context_cycle_controller.go:1193-1241 | the fence of a handoff's input never passes after the cycle ended, also for the call that follows an advance which ended it |
| `CycleTheorems.EndedFenceIff` | internal/core/context_cycle_controller.go:1193-1241 | for every ended cycle and every call in flight, the fence passes if and only if the cycle is a compaction that ended at the event limit, the call is of that last revision, both deadlines lie ahead, and its Enable and its policy hold |
| `CycleTheorems.LimitFenceIff` | internal/core/context_cycle.go:983-991 | the controller step that starts a call ends the cycle instead if and only if the row is not funded, at any time; the fence of that call then passes if and only if the cycle is a compaction whose policy holds |
| `CycleTheorems.PickupRevisionIsHistory` | internal/core/context_cycle.go:1501-1526 | pickupRevision(r) holds if and only if the cycle at revision r was in a stage that accepts a pickup report, for every r and every reachable cycle |
| `CycleTheorems.NoReturnAfterReset` | internal/core/context_cycle.go:1510-1526 | no later stage of an unfinished cycle is before the proof of its reset again |
| `CycleTheorems.ReportIsLatest` | internal/core/context_cycle_controller.go:1295-1310 | the report that the target names is the latest accepted one, by its time and the revision it answered, across refused clears, dialogs and repeated requests, and the row has its artifact |
| `CycleTheorems.ReadyHasReport` | internal/core/context_cycle_controller.go:1295-1310 | a cycle in ready or in its clear has an accepted report, so the target never falls back on the admission |
| `CycleTheorems.CompletionIsCaused` | internal/core/context_cycle.go:1595-1656 | a completed handoff had an accepted ready report, then a clear intent, then the proof of its reset; it has the latest report's artifact and the successor epoch that the reset proved, which differs from the requester's |
| `CycleTheorems.CreditIsConserved` | internal/core/context_cycle.go:52-61 | events, revision and credit are one count, both guards of an advance refuse in the same states, the terminal outcome is always funded, and there are at most 16 revisions |
| `CycleTheorems.DeadlinesNeverCreep` | internal/core/context_cycle.go:997-1032 | the stage deadline is never after the cycle's; in waiting_ready it is the newest request's, in compact_waiting the admission's, and in a pickup's dialogs the first dialog's, by the store's own queries; WaitsAreExact has the waits of all stages in milliseconds |
| `CycleTheorems.WaitsAreExact` | internal/core/context_cycle.go:997-1032 | in every run, the deadlines of every unfinished row in milliseconds: 30 minutes for the cycle; 5 minutes in waiting_pickup, 10 in compact_sent and in a dialog that did not begin in the pickup, 2 in ready, the intents, clear_received and reset_verified, each from the event that entered the stage, also after later events of that stage; 15 minutes from the newest request or the admission; and 10 from the first dialog of a pickup, which also cuts the 2 minutes of its answers |
| `CycleWaits.NextWaited` | internal/core/context_cycle.go:997-1032 | every action of every caller keeps the deadline of the stage at its own wait from the event that entered it |
| `CycleWaits.DialogWaitIs` | internal/core/context_cycle.go:1047-1058 | the query for a pickup's dialog wait finds 10 minutes from the first dialog after the first pickup event, in every ordered history |
| `CycleWaits.RequestIs` | internal/core/context_cycle.go:700-709 | the query for the request's time finds the newest repeated request, or the admission when there is none |
| `CycleTheorems.DialogWaitIsFixed` | internal/core/context_cycle.go:1047-1058 | no action of an unfinished cycle moves the deadline that the first dialog of a pickup set |
| `CycleTheorems.LifetimeEnds` | internal/core/context_cycle_controller.go:260-276 | in every run, a controller step that reads the clock at or after the cycle deadline ends the cycle, and its row and its history never change again |
| `CycleTheorems.EndedCompactionIsEntered` | internal/core/context_cycle.go:983-991 | for every Enable that is on and every admission time there is a run in which a compaction is entered after its cycle ended at the event limit |
| `CycleTheorems.LimitKeepsFence` | internal/core/context_cycle_controller.go:597-603 | the witness of that condition: a compaction that waits at its last event, admitted at any time, ends at the limit with a call that is fenced and made |
| `CycleInputs.RunSafe` | internal/core/context_cycle.go:951-1043 | every run from a safe state is safe: counters, rows against history, deadlines, calls in flight, effects and completion |
| `CycleInputs.AdmittedSafe` | internal/core/context_cycle.go:781-924 | an admission starts safe, for a handoff and for a compaction, with either adapter |
| `CycleResults.AdmissionStarts` | internal/core/context_cycle.go:879-924 | an admission starts at revision 1 in the stage of its mode, of the reading's epoch and under the Enable, open exactly when that is on, with 15 and 30 minutes and the pages of 14 advances and an end |
| `CycleInputs.NextAccounted` | internal/core/context_cycle.go:1156-1160 | an input that was entered and is not proven stays in its intent's stages or ends uncertain, through every action |
| `CycleInputs.DisplayIsProof` | internal/core/context_cycle.go:216-226 | the display query says yes exactly when the history has the display event |
| `CycleInputs.NextCompleted` | internal/core/context_cycle.go:1550-1680 | the chain and the epochs of a completed handoff, through every action |
| `CycleInputs.NextSwitched` | internal/core/context_cycle.go:1061-1069 | a handoff that ended at the event limit never has an Enable that its fence accepts, also after a new Enable |
| `CycleEpochs.NextSteady` | internal/core/context_cycle.go:1593-1680 | every action keeps the recorded successor epoch: a create returns the kept session, a reset proves it, and a report was read against it |
| `CycleAnswers.NextAnswered` | internal/core/context_cycle_controller.go:702-745 | every action keeps the account of dialog answers: one effect for each revision, and each intent settled by the row after it |
| `CycleInvariant.NextInv` | internal/core/context_cycle.go:951-1043 | every action keeps the invariant of the row, the history, the calls in flight and the pending pickup reports |
| `CycleOnce.NextOnce` | internal/core/context_cycle_controller.go:702-745 | every action keeps "at most one call can make the effect, and none before its intent" |
| `CycleOnce.EdgeBefore` | internal/core/context_cycle_controller.go:708-716 | only a call that was refused unsent leads a cycle back to a stage before that effect's intent |
| `CycleCalls.NextDid` | internal/core/context_cycle_controller.go:260-511 | every action of every caller does nothing, one of the listed stage transitions, or one end to the row, and only a refused call goes back; when each happens is stated in CycleDecisions, CycleResults and CycleEnds |
| `CycleCalls.ControlIsEdge` | internal/core/context_cycle_controller.go:335-511 | what the controller does next with a cycle is one of the listed transitions, an end that is not complete, or a repeated request from ready; which of them, and when, are CycleDecisions.BeginsIff, EntersIff and EndsIff |
| `CycleDecisions.BeginsIff` | internal/core/context_cycle_controller.go:335-511 | over the step system, for each call and every observation: a controller step starts it if and only if the cycle is before both deadlines under its own Enable, the adapter and the Enable are there, and the call is ripe: a clear or create in ready, a pickup in reset_verified only while the epoch seen is the one that the reset proved, with the pane idle, the artifact the reported one, the probe good and for the session adapter a free worker; a select before its recorded intent; a compaction that may go; an answerable dialog |
| `CycleDecisions.EntersIff` | internal/core/context_cycle_controller.go:335-511 | it records a stage, with its reason, if and only if the cycle has one of its 14 advances left and that stage is asked for: the intent of a ripe call, the proof of the reset by another epoch, a dialog and its end, the display, the receipt, a changed artifact, or a request that is repeated |
| `CycleDecisions.EndsIff` | internal/core/context_cycle_controller.go:260-511 | it ends the cycle for a reason if and only if that reason is seen: a deadline of the stage or the cycle, a closed adapter, a changed Enable, a missing receipt, an unproven reset, an unrecognized prompt, a bad probe, a changed artifact, another epoch than the proven one, a compaction that may not go, or a stage that is asked for when the events are used up |
| `CycleDecisions.StepIsSilent` | internal/core/context_cycle_controller.go:260-511 | and otherwise a controller step changes nothing |
| `CycleCalls.ResultIsEdge` | internal/core/context_cycle_controller.go:597-610 | what is recorded after a call is one of the listed transitions or an end that is not complete |
| `CycleResults.ResultEntersIff` | internal/core/context_cycle_controller.go:702-760 | the result of a call records a stage if and only if the call's row is still the cycle's, the cycle is open with an event left, and the result leads there: a refusal back before the input, a receipt or a created session other than the requester's on, an answered dialog back to where it began |
| `CycleResults.ResultEndsIff` | internal/core/context_cycle_controller.go:702-760 | it ends the cycle, uncertain, if and only if it leaves unknown what the call of the current row did, or at the event limit |
| `CycleResults.ResultIsSilent` | internal/core/context_cycle_controller.go:702-760 | and otherwise it only takes the call out of flight, as does every result of an older row or an ended cycle |
| `CycleResults.ReportIff` | internal/core/context_cycle.go:1350-1405 | a ready report is recorded, with its artifact, its time and the revision that it answers, if and only if it answers the current request of an open cycle with an event left; at the last event it ends the cycle; else nothing changes |
| `CycleResults.MaintainerIff` | internal/core/context_cycle_controller.go:1406-1454 | a maintainer's option starts a call if and only if it names the current row of an open dialog; it records the choice, or ends the cycle at the last event |
| `CycleResults.PickupReadIff` | internal/core/context_cycle.go:1550-1616 | a pickup report is taken if and only if the row takes one, the report names a revision of the cycle that took one, the row's artifact, and an epoch that is not the requester's and is the recorded one if there is one |
| `CycleResults.PickupCompletesIff` | internal/core/context_cycle.go:1550-1684 | such a report that nothing comes between completes the cycle in its epoch, with the Enable kept, if and only if the cycle is open and the requester pinned; every other report leaves the cycle as it was |
| `CycleResults.NextRow` | internal/core/context_cycle.go:997-1043 | every transition of every action, part by part of the row: one revision, event and stage's credit on, the artifact of the report or none after a return to the request, the epoch that the reset proved or the create named, and the stage that a dialog interrupts |
| `CycleEnds.OutcomeIs` | internal/core/context_cycle.go:1156-1205 | the outcome of every end by every caller: complete exactly for a pickup's report or a confirmed compaction, uncertain exactly after an input without its proof or when asked for, and cancelled exactly for a closed adapter, a changed Enable or a compaction that may not go |
| `CycleEnds.EndLeaves` | internal/core/context_cycle.go:1156-1205 | what every end leaves: its event, the mark of a kept timeout, no credit, and the Enable turned off with a new revision, but kept after a completion, a compaction that ended before its input or under another epoch, and a ready timeout in whose history no input is and that is the first of its epoch and Enable, which the Enable then records |
| `CycleCalls.RepeatIsStep` | internal/core/context_cycle.go:717-776 | a repeated request is the transition from ready to waiting_ready, with the deadline of a return to readiness |
| `CycleSafety.StepCore` | internal/core/context_cycle.go:951-1043 | a stage transition keeps the invariant: event ordinal is revision, last event is stage, deadlines, report, causal chain and queries |
| `CycleSafety.EndCore` | internal/core/context_cycle.go:1156-1205 | an end keeps the invariant, also when it adds the mark of a kept Enable past the event bound |
| `CycleSafety.PromptDeadlineAppend` | internal/core/context_cycle.go:1047-1058 | one more event sets the pickup's dialog wait at its first dialog and never changes it later |
| `CycleSafety.SelectAppend` | internal/core/context_cycle_controller.go:911-918 | how one more event changes the select query: a ready event closes it and a select_sent event opens it |
| `CycleHistory.MaxAppend` | internal/core/context_cycle.go:700-709 | a query for the newest matching event finds the new event when it matches |
| `CycleHistory.MinAppend` | internal/core/context_cycle.go:1047-1058 | a query for the oldest matching event keeps what it found |
| `CycleStore.Store.AdvanceCycle` | internal/core/context_cycle.go:951-1043 | the new row, history and Enable of an advance, with the end at the event limit that its callers take for success; the waits that it sets are CycleTheorems.WaitsAreExact and its rows CycleResults.NextRow |
| `CycleStore.Store.RepeatCycleRequest` | internal/core/context_cycle.go:717-776 | the new row and history of a repeated request, or no change when it is refused |
| `CycleStore.Store.EndCycleTx` | internal/core/context_cycle.go:1156-1205 | the one terminal outcome, uncertain after an unproven input, and what it does with the Enable; over the history, CycleEnds.EndLeaves |
| `CycleStore.Store.EndCycle` | internal/core/context_cycle.go:1125-1141 | an end at a revision: exactly when the cycle is unfinished and at that revision |
| `CycleStore.Store.CycleEvent` | internal/core/context_cycle.go:372-381 | the last event slot takes a terminal outcome only |
| `CycleStore.Store.WritePickup` | internal/core/context_cycle.go:1617-1680 | the report completes the cycle exactly when it is still accepted, before the deadlines and under the Enable |
| `KeptRetry.KeptTimeoutsDiffer` | internal/core/context_cycle_retry.go:20-45 | two consecutive ready timeouts that keep a session's Enable differ in the epoch or the Enable revision, over any number of cycles |
| `KeptRetry.NoAdmissionBeforeRead` | internal/core/context_cycle_retry.go:47-58 | after a kept timeout no cycle is admitted under its epoch and Enable revision before an inbox read, unless another timeout was kept in between |
| `KeptRetry.AwaitingReadIsHistory` | internal/core/context_cycle_retry.go:47-58 | awaitingRead holds if and only if the newest kept timeout is of this epoch and Enable revision and no read counted since |
| `KeptRetry.AnotherTimeoutForgets` | internal/core/context_cycle_retry.go:38-45 | the condition is needed: after timeouts kept under two epochs the first one is admitted again without a read |
| `KeptRetry.NextKeeps` | internal/core/context_cycle_retry.go:25-85 | admissions, ends, changes of the Enable and reads keep the record and its history in step |
| `KeptRetry.ReadEndsWait` | internal/core/context_cycle_retry.go:59-85 | an inbox read ends the wait for one if and only if the Enable waits under some epoch, and changes nothing else of the Enable |
| `KeptRetry.EnableIsNew` | internal/core/context_policy.go:315-335 | a new Enable, on or off, has the next revision and waits for no read, whatever was kept before |
| `LeaseRuns.MutualExclusion` | internal/core/claims.go:208-398 | in every run with a monotone clock, at every time from the last step on, no two live bundles of a store hold overlapping resources |
| `LeaseRuns.StaleForever` | internal/core/claims.go:276-285 | a generation that lapsed or ended never passes owner again |
| `LeaseRuns.OwnedIsLive` | internal/core/claims.go:276-285 | a generation passes owner for somebody if and only if its row is live |
| `LeaseRuns.ClaimsOutliveCycle` | internal/core/context_cycle_claims.go:14-53 | a claim live at a handoff's admission and still active keeps an expiry of at least the cycle deadline and 60 seconds while the cycle is unfinished and its session stays registered in the repository |
| `LeaseRuns.RenewKeepsFloorIff` | internal/core/claims.go:288-311 | a granted renewal of a claim at its floor or above leaves it there if and only if an unfinished cycle, a handoff or a compaction, protects the claim, or the lease asked for reaches the floor |
| `LeaseRuns.StepKeepsFloorIff` | internal/core/claims.go:288-311 | of all lease and cycle steps, exactly such a short and unprotected renewal takes a claim below its floor |
| `LeaseRuns.FloorHeldIff` | internal/core/context_cycle_claims.go:14-53 | over runs, and whatever becomes of the cycle: a claim at its floor is there in every state up to a later one if and only if no step between is such a renewal |
| `LeaseRuns.AdmissionAtFloor` | internal/core/context_cycle_claims.go:23-39 | the admission of a handoff brings every claim that it covers to the floor |
| `LeaseRuns.CoveredClaimEndsOnlyByReleaseOrFloor` | internal/core/context_cycle_claims.go:14-53 | such a claim ends by its release, or by its expiry at or after that floor |
| `LeaseRuns.MovedSessionLosesProtection` | internal/core/context_cycle_claims.go:43-53 | such a renewal happens: a run in which the session registers in another repository and a short renewal takes the claim below the cycle deadline |
| `LeaseRuns.NextKeepsInv` | internal/core/claims.go:208-398 | every lease and cycle step keeps well-formed rows, exclusion and the floor of covered claims |
| `Leases.AcquireKeeps` | internal/core/claims.go:208-273 | acquire keeps rows well formed and live bundles disjoint |
| `Leases.RenewInPlace` | internal/core/claims.go:288-311 | renew changes the revision, the renewal time and the expiry of the one live row of its generation and nothing else, shortens no protected row and brings no lapsed row back; what it grants is LeaseAnswers.RenewExtends |
| `Leases.ProgressInPlace` | internal/core/claims.go:314-325 | progress changes no identity, key or expiry |
| `Leases.OverdueInPlace` | internal/core/claims.go:328-346 | overdue changes no identity, key or expiry |
| `Leases.EndInPlace` | internal/core/claims.go:349-377 | an expiry or a release makes the rows of its generation inactive without credits, and changes nothing else of any row |
| `Leases.ProtectInPlace` | internal/core/context_cycle_claims.go:26-39 | the protection changes exactly the live matched claims that end before the floor, and only their expiry, to exactly the floor |
| `Leases.WithoutKeeps` | internal/core/claims.go:379-398 | removing a reclaimed row keeps the rest well formed and disjoint |
| `Leases.ReclaimNeverIncompatible` | internal/core/claims.go:379-398 | reclaimOne never meets a funded row, and finds nothing if and only if every bundle is active |
| `LeaseAnswers.RenewAnswers` | internal/core/claims.go:288-311 | renew grants if and only if a row of the owner is live, its revision is the asked one and not the last; it is stale if and only if none is live, a conflict names the row's revision, and only a revision at 2^63-1 exhausts the counter |
| `LeaseAnswers.RenewExtends` | internal/core/claims.go:300-305 | the granted row has the next revision, was renewed now and has the answer's expiry, which is the asked time from now, or for a protected claim the later of that and the old expiry; every other row is as it was |
| `LeaseAnswers.ProgressAnswers` | internal/core/claims.go:314-325 | progress is recorded if and only if a row of the owner is live and the epoch is its next; the row can be overdue again |
| `LeaseAnswers.ReleaseAnswers` | internal/core/claims.go:364-368 | a release ends the rows of the generation if and only if its owner has one live |
| `LeaseAnswers.ExpireAnswers` | internal/core/claims.go:349-361 | an expiry ends them if and only if the row is active and its time has come |
| `LeaseAnswers.OverdueAnswers` | internal/core/claims.go:328-346 | a claim is recorded overdue, once, if and only if its row is active and in the asked progress epoch |
| `LeaseAnswers.ReclaimAnswers` | internal/core/claims.go:379-398 | the oldest inactive row goes, or none when all are active |
| `LeaseAnswers.AcquireAnswers` | internal/core/claims.go:208-273 | a claim is refused for the first row that is live on an overlapping key or is the work item's own, then for 16 bundles of the store, 32 of the daemon, or an exhausted counter, and granted if and only if none of these holds and the keys are valid |
| `LeaseAnswers.AcquireAppends` | internal/core/claims.go:208-273 | the granted claim is one new row of the next generation, at revision 1, live from now for its duration |
| `LeaseAnswers.ProtectRaises` | internal/core/context_cycle_claims.go:23-39 | the protection raises exactly the live matched claims to 60 seconds after the cycle's deadline, unless they are there |
| `LeaseEngine.Engine.Acquire` | internal/core/claims.go:208-273 | the new state and answer of acquire: the refusals in their order, or the new generation |
| `LeaseEngine.Engine.Overlapping` | internal/core/claims.go:228-246 | the loops over two key lists find an overlap if and only if there is one |
| `LeaseEngine.Engine.Renew` | internal/core/claims.go:288-311 | the new state and answer of renew, as LeaseAnswers.RenewAnswers and RenewExtends state them |
| `LeaseEngine.Engine.Progress` | internal/core/claims.go:314-325 | the new state and answer of progress |
| `LeaseEngine.Engine.Expire` | internal/core/claims.go:349-361 | the new state and answer of expire |
| `LeaseEngine.Engine.Release` | internal/core/claims.go:364-368 | the new state and answer of release |
| `LeaseEngine.Engine.ReclaimOne` | internal/core/claims.go:379-398 | the new state and answer of reclaimOne |
| `LeaseEngine.Engine.ProtectCycleClaims` | internal/core/context_cycle_claims.go:26-39 | the new state after the protection of a cycle's claims |
| `Resources.PathKeyIsPath` | internal/core/claims.go:71-94 | a path key is accepted if and only if it is "." or spells a path of the repository, without empty, "." or ".." components, in 1 to 512 bytes without backslashes and control characters, and then it spells one path only |
| `Resources.OverlapsIsCommonPath` | internal/core/claims.go:71-106 | two accepted path keys overlap if and only if some repository path lies under both |
| `Resources.OverlapsIsComponentPrefix` | internal/core/claims.go:71-106 | on accepted keys the string test is prefix of component lists, with "." as the empty list |
| `Resources.PrefixTestIsComponentPrefix` | internal/core/claims.go:98-105 | a key followed by a slash is a string prefix if and only if its components are a proper prefix |
| `Resources.LongerNameIsDisjoint` | internal/core/claims.go:98-106 | a longer name in the last component never overlaps, as auth and authorization |
| `Resources.ClaimBundle` | internal/core/claims.go:109-129 | the bundle is the writer key and the optional keys if and only if they are at most eight, of kind path or exact, valid and distinct |
| `ArchiveRuns.AlwaysInOnePlace` | internal/core/decision_archive.go:270-426 | in every run, with stops, crashes and power failures between any two commits or bytes, every item is in exactly one place: one row with what it last was, or one locator. The locator names the complete line that is its encoding, unless a power failure cut that line, and a record found there is never another version. With exact set, the runs are those without a mark while a delivery waits; without it, every run, and acknowledgements may be missing from a line |
| `ArchiveRuns.LostIffGone` | internal/core/decision_archive.go:161-190 | a line that was there can no longer be read after a power failure if and only if the failure kept fewer bytes than its end |
| `ArchiveRuns.StepKeeps` | internal/core/decision_archive.go:193-426 | every step of the mover, of a request, of a crash and of a power failure keeps the archive's invariant, with torn lines and lines of other items at a marked or a cut offset |
| `ArchiveRuns.PowerLossIsSafeIff` | internal/core/decision_archive.go:320-322 | no power failure takes a deep-archived item if and only if every line that is still there ends within its log's synced bytes |
| `ArchiveRuns.StepKeepsDurable` | internal/core/decision_archive.go:384-395 | a step makes a locator that is not durable if and only if it deletes rows on a line that was never synced |
| `ArchiveRuns.SyncedRunsAreSafe` | internal/core/decision_archive.go:309-326 | a run that never does so loses nothing to the power failures in it |
| `ArchiveRuns.UnsyncedDeleteHappens` | internal/core/decision_archive.go:391-395 | finishMove does so after a crash between the last byte and the sync |
| `ArchiveRuns.ItemIsLost` | internal/core/decision_archive.go:375-395 | a run from the empty archive, without a hasty mark, that loses an item so |
| `ArchiveRuns.MarkIsExactIff` | internal/core/decision_archive.go:232-243 | all lines stay exact after a mark, however the run goes on, if and only if no delivery waits at the mark |
| `ArchiveRuns.AcknowledgementLost` | internal/core/decision_archive.go:285-306 | a mark with a waiting delivery can be followed by a lost acknowledgement |
| `ArchiveRuns.HastyMarkIsReachable` | internal/core/decision_archive.go:232-285 | such a mark is reachable: an edit and a verdict fall between the check and the mark |
| `ArchiveRuns.RestoreGivesBack` | internal/core/decision_archive.go:441-506 | a restore of a deep-archived item whose line no power failure cut is never refused for its line or its ID and brings back its rows, unmarked and archived from now on |
| `ArchiveAges.ArchivedStaysThirtyDays` | internal/core/decision_archive.go:439-506 | over every run: an item that a verdict, a close, a withdrawal or a restore archives now is selected by no pass, with any cursor, whose clock is at or before 30 days from now |
| `ArchiveAges.ThenItIsSelected` | internal/core/decision_archive.go:203-208 | and later than that it is, by a pass whose cursor is before it |
| `ArchiveAges.RestoreLeaves` | internal/core/decision_archive.go:441-506 | a restore succeeds if and only if the reference is deep-archived and a complete line of the locator's length decodes to its record; it takes the locator and leaves the item archived from now on without a mark, and changes nothing else |
| `ArchiveAges.VerdictLeaves` | internal/core/decision_verdicts.go:299-307 | a verdict keeps the revision, adds its deliveries and clears the mark; it archives from now on, or leaves no archive time |
| `ArchiveAges.RetireLeaves` | internal/core/decision_verdicts.go:660-800 | a close and a withdrawal archive the item from now on, at the same revision and without a mark |
| `ArchiveAges.EditLeaves` | internal/core/decisions.go:640-650 | an edit makes the next revision, active and without a mark or an archive time |
| `ArchiveAges.NextAged` | internal/core/decision_archive.go:193-506 | no step of a run changes an item's archive time but to the time at which it archives the item, or to none |
| `ArchiveRuns.AppendsMove` | internal/core/decision_archive.go:309-370 | from any point of the append, an undisturbed mover ends with the rows gone and a locator of their line |
| `ArchiveSafety.WriteKeeps` | internal/core/decision_archive.go:309-318 | one more byte of a line keeps the invariant: nothing but the whole line comes to decode |
| `ArchiveSafety.OpenKeeps` | internal/core/decision_archive.go:119-156 | closing a torn line with a newline keeps it |
| `ArchiveSafety.OpenClosesTornOnly` | internal/core/decision_archive.go:119-156 | an open log ends at a line's start, with one newline more exactly when its last line was torn, and nothing is synced by it |
| `ArchiveSafety.SetMarkKeeps` | internal/core/decision_archive.go:285-298 | setting or moving a mark keeps it: no line is at the mark yet |
| `ArchiveSafety.DeleteKeeps` | internal/core/decision_archive.go:330-370 | deleting the rows of a marked item keeps it: the line at the mark is the encoding of the rows |
| `ArchiveSafety.RequestKeeps` | internal/core/decision_archive.go:328-343 | creates, edits, verdicts, closes, withdrawals, acknowledgements and restores keep it |
| `Archive.StretchDecodes` | internal/core/decision_archive.go:391-395 | in a log of whole and torn lines, only a whole line decodes, and to its own record |
| `Archive.NewlineKeeps` | internal/core/decision_archive.go:138-153 | a newline that closes a torn line changes no line's text |
| `ArchiveStore.MoveMoves` | internal/core/decision_archive.go:270-370 | moveDecision moves an archived item without a mark, with its locator naming the line of its rows, and no other item |
| `ArchiveStore.FinishMoves` | internal/core/decision_archive.go:375-426 | recovery: whatever a crash left, finishMove ends the move of a marked item |
| `ArchiveStore.FinishAllFinishes` | internal/core/decision_archive.go:196-204 | a pass leaves none of the marked items that it found marked, also after a hasty mark |
| `ArchiveStore.MoveAllMoves` | internal/core/decision_archive.go:226-248 | every candidate that a pass has seen is moved, waits for an acknowledgement, or is no candidate any more, and no more than the batch is moved, also after a hasty mark |
| `ArchiveStore.PassCovers` | internal/core/decision_archive.go:193-249 | with the answers of the two queries: of the eligible items after the old cursor, those up to the last one seen, or all of them when a window that is not full was seen to its end, are moved, wait for an acknowledgement or are marked; the pass moves at most its batch besides the marked items |
| `ArchiveStore.PassIsFull` | internal/core/decision_archive.go:226-248 | a pass with fewer marked items than its batch goes to the end of what its query found, or moves exactly 64 items |
| `ArchiveStore.MarksAreFinished` | internal/core/decision_archive.go:196-204 | a pass with fewer marked items than its batch leaves no mark |
| `ArchiveStore.Store.OpenDecisionLog` | internal/core/decision_archive.go:119-156 | the end offset, after a newline for a torn line |
| `ArchiveStore.Store.ReadDecisionLine` | internal/core/decision_archive.go:161-190 | the complete line at an offset, or none |
| `ArchiveStore.Store.DeleteMovedRows` | internal/core/decision_archive.go:330-370 | the rows go and the locator comes only while the item has the marked revision, state and mark |
| `ArchiveStore.Store.AppendAndDelete` | internal/core/decision_archive.go:309-326 | the log, the rows and the locators after the append, the sync and the delete |
| `ArchiveStore.Store.MoveDecision` | internal/core/decision_archive.go:270-307 | the archive after moveDecision |
| `ArchiveStore.Store.FinishMove` | internal/core/decision_archive.go:375-426 | the archive after finishMove, with the line found or written again |
| `ArchiveStore.Store.DecisionRestore` | internal/core/decision_archive.go:441-506 | the archive after a restore, as ArchiveAges.RestoreLeaves states it |
| `ArchiveStore.Store.ArchiveDecisions` | internal/core/decision_archive.go:193-249 | the archive and the cursor after a pass, for the answers of its two queries: marked items by ID up to the batch, and items archived more than 30 days ago after the cursor, oldest first, up to the window |
| `ExportClient.ExportAttempt` | cmd/koinon/decision_export.go:76-161 | when an attempt succeeds, all its calls read one version and the file has each deep-archived item and then each live item exactly once and whole, each the bytes that one of its calls read; it fails only for an unreadable line that its last call met, or because its last call read another version than all before it or a live record that differs from what an earlier call read; and it always ends |
| `ExportClient.DecisionExportFile` | cmd/koinon/decision_export.go:31-68 | the same of the attempt that the restart loop takes, the first of four that met no change; it reports a change only after the fourth |
| `ExportClient.TakePage` | cmd/koinon/decision_export.go:118-159 | a page read from the board is written without a refusal, and the attempt goes on at its cursor or is complete |
| `ExportClient.PartIsNext` | cmd/koinon/decision_export.go:118-143 | a part that the daemon sends for this cursor is always the next bytes of the same snapshot |
| `ExportClient.WritePart` | cmd/koinon/decision_export.go:118-143 | the checks of a part, in their order, and what it writes |
| `ExportClient.ChangedMeansChanged` | internal/core/decision_export.go:98-100 | a cursor is refused for a change only when the board has another version, or the live record that the cursor is inside of differs from what an earlier call of the attempt read |
| `ExportClient.CursorFits` | internal/core/decision_export.go:82-84 | a cursor of the client is never malformed and never outside its record |
| `ExportClient.DeepRecordsAreFixed` | cmd/koinon/decision_export.go:132-135 | only live records can be of different moments |
| `Export.DecisionExport` | internal/core/decision_export.go:75-226 | a page is the next whole records or one part of the next record, and its cursor lies right after it. Of whole records it holds at most the asked number, 1 to 100, or 100, in at most size bytes with one newline each, or one record of at most size bytes; it stops before the end of its phase only when it is full or the next record does not fit. A part is of a record larger than size or of one that the cursor is inside of, and takes what fits. Each of the three refusals holds if and only if its cause does: an unreadable line in reach, another version or digest than the cursor's, or a malformed or outside cursor |
| `Export.ReadRows` | internal/core/decision_export.go:139-225 | the walk over a phase lists its rows from the cursor on, or ends with a page or a refusal |
| `Export.Add` | internal/core/decision_export.go:101-138 | the page takes a record while there is room, and a large record's bytes go into a page of their own |
| `TailScan.RecordTurnRead` | internal/core/cycle_claude.go:473-543 | the exact answer of one read for every file, size and order: that of the whole file, unless the first window of 1 MiB has no line end, the last line is partial, the times of a window that the read gets to go back, the widest window of 16 MiB holds neither the file nor the mark, or the file grew during a read without a turn |
| `TailScan.RecordTurnReads` | internal/core/cycle_claude.go:459-471 | the repeated reads give the answer of the first of three that is not of a changed file, or of the third |
| `TailScan.TurnAnswers` | internal/core/cycle_claude.go:473-543 | an answer about turns is the whole file's, and "no turn" that of a file that did not grow; without the order check there is one exactly when the widest window holds the file or the mark and the whole file has one |
| `TailScan.WindowDecides` | internal/core/cycle_claude.go:488-530 | a window that holds the mark, or the whole file, decides as the whole file does |
| `TailScan.WiderHolds` | internal/core/cycle_claude.go:488-517 | a wider window holds every line of a narrower one |
| `TailScan.NoTurnMissed` | internal/core/cycle_claude.go:448-457 | with times that do not go back, "no turn" means that no timed turn is later than the report |
| `TailScan.HiddenTurnIff` | internal/core/cycle_claude.go:448-457 | the answer "no turn" hides a timed turn later than the report if and only if one lies before the last mark and every line after that mark passes |
| `TailScan.LateTurnIff` | internal/core/cycle_claude.go:448-457 | so, given "no turn", the record has such a turn if and only if its last mark comes after one |
| `TailScan.DisorderHidesTurn` | internal/core/cycle_claude.go:452-457 | the witness: a record whose late mark hides a turn |
| `TailScan.ScanMeans` | internal/core/cycle_claude.go:518-530 | the scan of the lines after the mark answers "no turn" if and only if none of them starts a turn or cannot be read |
| `TailScan.ScanStops` | internal/core/cycle_claude.go:522-535 | and else by the first line that is a turn or cannot be read |
| `LogScan.History` | internal/core/cycle_deepseek.go:248-289 | the visited events are the newest ones in sequence, each once, across at most four pages; the scan is stopped at the first event that the visitor refuses, reaches the start if and only if a page says so or begins at number 0, and fails if and only if a page is missing, empty or wrongly numbered or four are not enough |
| `LogScan.TurnSince` | internal/core/cycle_deepseek.go:359-410 | the exact answer for every reply of the harness: a turn, no turn or unread, by the first event that decides and the second view; "no turn" on a log with times in order means that no user message or turn start is later than the report |
| `LogScan.WatchIs` | internal/core/cycle_deepseek.go:379-401 | what the scan concludes from the first event that decides: an absent time, or one later than the newer event's, leaves it unread; a message or a start later than the report is a turn; an earlier start is the report's own turn, unless the nearest end after it is not later than the report |
| `LogScan.ScanFinds` | internal/core/cycle_deepseek.go:379-401 | what each outcome of the backward scan found among the events it visited |
| `LogScan.VisitedIsLog` | internal/core/cycle_deepseek.go:271-284 | the visited events are those of the log at their numbers |
| `LogScan.NothingBefore` | internal/core/cycle_deepseek.go:379-410 | the older events that a scan did not visit are not later than the report |
| `Keyset.ListedExactlyOnce` | internal/core/dashboard_data.go:312-347 | a row that keeps its key through a walk over the pages is listed on exactly one page, and there as the list of that page has it, whatever becomes of its other columns and of the rows around it |
| `Keyset.NeverRepeats` | internal/core/dashboard_data.go:336-347 | every row of an earlier page of a walk is before every row of a later page, as their lists had them, so no key is listed on two pages |
| `Keyset.NeverSkips` | internal/core/dashboard_data.go:336-347 | a row that keeps its key is not skipped, whatever becomes of its other columns |
| `Keyset.PageIsPosition` | internal/core/dashboard_data.go:333-347 | a page is the first rows past its cursor in order, and the next cursor is given exactly when a row is beyond it |
| `Keyset.PageIsSorted` | internal/core/dashboard_data.go:312-348 | the rows of a page ascend, or descend, by the column that the request names, and by the repository where that is equal |
| `Keyset.RowBeforeIs` | internal/core/dashboard_data.go:291-311 | a row is before another exactly when the named column, compared as text or number, or else the repository, says so in the asked direction |
| `Keyset.TextIs` | internal/core/dashboard_sort.go:234-250 | the text comparison is lexicographic |
| `Keyset.DashboardMemory` | internal/core/dashboard_data.go:312-348 | the page that is filled, sorted, filtered and cut is that page |
| `Keyset.BeforeOrder` | internal/core/dashboard_sort.go:253-259 | before is a strict order, in both directions |
| `Keyset.KeyOrder` | internal/core/dashboard_sort.go:234-250 | compareValues is a total order on keys of the same terms |
| `Keyset.SortOrders` | internal/core/dashboard_data.go:333-335 | the sorted rows are a permutation in order |

## Left out

- Host-less adapters and the worker pool: their create is retried by design and is safe through a
  derived ID; the pane and the session adapter are modelled.
- Legacy bootstrap states: no cycle enters them.
- Screens, keys, processes, registry and skill-file checks: an adapter's observation is any value
  that its contract allows, and pins, artifact files and policies are answers of the environment.
- `cycleOfCaller`, roles and addresses: who may report is an answer of the environment.
- The two transactions of an advance that meets the event limit are one step.
- The request messages, refusal slots, audit rows, notices and views of a cycle.
- The carry of a completed cycle's Enable to a successor session, which is another session's record.
- `SelectContextTrigger`, its latches and the ages of context readings.
- ArchiveRuns.AlwaysInOnePlace: reads all rows of an item in one step; `readDecisionRecord` reads
  its tables one after another, and every change in between but an acknowledgement clears the mark.
- Decision rows besides identity, revision, state, archive time, mark and waiting deliveries are one
  opaque value.
- ArchiveStore.PassCovers: speaks of a pass that nothing comes between; the candidates that a
  request changes during a pass are covered by the runs.
- LeaseRuns.ClaimsOutliveCycle: is of a session that stays registered; for every other session the
  exact condition is LeaseRuns.FloorHeldIff.
- The actor of a lease is passed to acquire, which the store sets in the same transaction.
- Lease times are real numbers, without floating-point rounding.
- 64-bit widths: counters, revisions and times are unbounded here.
- Keyset.DashboardMemory: takes the library's stable sort as a function on sequences.
- JSON bytes, SHA-256, file modes, links and directory entries, and SQLite itself with its capacity
  refusals, which change nothing.
- Work items, decision creation and validation, memory and room stores, HTTP routes and views.
