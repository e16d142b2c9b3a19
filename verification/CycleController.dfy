/** What the controller (internal/core/context_cycle_controller.go) does next with a cycle that it
    read, given what it sees of the pane, the adapter and the Enable. */
module CycleController {
  import opened Options
  import opened Cycle

  /** What an inspection of the pane shows; afterReady means work after the ready report. */
  datatype PaneView = Unreadable | Prompt(code: nat, recognized: bool) | Busy(seen: nat, afterReady: bool) | Idle

  /** A waiting compaction's checks: it may go, it waits, or its policy or reading changed. */
  datatype Compactable = Go | NotYet | Stale(why: Why)

  /** What one step sees besides the row. repeatable is what the pane last showed, when that is a
      code that a request is repeated for (cycleRepeatable); newEpoch is None
      when it could not be read, and Some(None) when there is none. receipt is the published
      receipt of an asynchronous pickup. */
  datatype Seen = Seen(
    available: bool, enabled: bool, pinned: bool, repeatable: Option<nat>, pane: PaneView,
    artifactOk: bool, probeOk: bool,
    newEpoch: Option<Option<nat>>, dialog: bool, displayed: bool, answerable: bool, workerFree: bool,
    receipt: Option<bool>, compaction: Compactable)

  /** The effects that the controller makes through an adapter. */
  datatype Call = Clear | Create | Select | Pickup | SendPickup | Answer | Choose | Compact

  /** One transaction at most. An advance can be followed by a call, which the returned row fences. */
  datatype Move =
    | Wait
    | End(outcome: Stage, reason: Reason)
    | Step(to: Stage, reason: Reason, guard: bool, change: Change, call: Option<Call>)
    | Ask(seen: nat, orElse: Option<Reason>)

  // The reasons of the ends that have no case of their own.

  const ADAPTER_UNAVAILABLE := Other(0)
  const ENABLE_CHANGED := Other(1)
  const COMPACT_UNRECEIPTED := Other(2)
  const RESET_UNPROVEN := Other(3)
  const PICKUP_UNRECEIPTED := Other(4)
  const PROMPT_UNRECEIPTED := Other(5)
  const PROBE_FAILED := Other(6)
  const PROMPT_UNRECOGNIZED := Other(7)
  const ARTIFACT_GONE := Other(8)
  const INPUT_UNRECEIVED := Other(9)
  const SELECT_UNRECEIVED := Other(10)
  const COMPACT_UNRECEIVED := Other(11)
  const PROMPT_UNANSWERED := Other(12)

  const STAGE_TIMEOUT := End(Failed, Because(StageTimeout))

  /** The deadline cases of stepCycle; None when no deadline passed that ends or repeats. */
  function DeadlineMove(row: Row, now: nat, seen: Seen): Option<Move> {
    if now >= row.cycleDeadline then Some(End(Failed, Because(CycleTimeout)))
    else if now < row.stageDeadline then None
    else if row.state == CompactWaiting then Some(End(Cancelled, Because(StageTimeout)))
    else if row.state == CompactSent then Some(STAGE_TIMEOUT)
    else if InputUnproven(row.state) then None
    else if row.state == Ready && seen.repeatable.Some?
    then Some(Ask(seen.repeatable.value, Some(Because(StageTimeout))))
    else if row.state == WaitingReady then Some(End(Failed, Because(ReadyTimeout)))
    else Some(STAGE_TIMEOUT)
  }

  /** stepCycle. */
  function StepMove(adapter: Adapter, db: Db, now: nat, seen: Seen): Move {
    var row := db.row;
    var due := DeadlineMove(row, now, seen);
    if due.Some? then due.value
    else if !seen.available then End(Cancelled, Because(ADAPTER_UNAVAILABLE))
    else if !seen.enabled then End(Cancelled, Because(ENABLE_CHANGED))
    else if adapter == Session && row.state == PickupIntent then ReceiptMove(seen)
    else
      match row.state
      case CompactWaiting => CompactMove(adapter, seen)
      case CompactIntent => End(Uncertain, Because(COMPACT_UNRECEIPTED))
      case Ready => PaneMove(adapter, row, seen)
      case ResetVerified => PaneMove(adapter, row, seen)
      case WaitingPickup =>
        if adapter == Session && !PickupIsDisplayed(db.log) && seen.displayed
        then Step(WaitingPickup, PickupDisplayed, true, Same, None)
        else if seen.dialog then Step(WaitingPrompt, NativeDialog, true, BeginPrompt(WaitingPickup), None)
        else Wait
      case ClearIntent => ProofMove(row, now, seen)
      case ClearReceived =>
        if adapter == Session && row.successorEpoch == None then End(Uncertain, Because(RESET_UNPROVEN))
        else if adapter == Session && !SelectRecorded(db.log)
        then Step(ClearReceived, SelectSent, seen.pinned, Same, Some(Select))
        else ProofMove(row, now, seen)
      case PickupIntent => End(Uncertain, Because(PICKUP_UNRECEIPTED))
      case PromptIntent => End(Uncertain, Because(PROMPT_UNRECEIPTED))
      case WaitingPrompt => PromptMove(row, seen)
      case _ => Wait
  }

  /** pickupReceipt. */
  function ReceiptMove(seen: Seen): Move {
    if seen.receipt == None then Wait
    else if seen.receipt.value then Step(WaitingPickup, NoReason, true, Same, None)
    else End(Uncertain, Because(PICKUP_UNRECEIPTED))
  }

  /** stepCompaction, up to its input. */
  function CompactMove(adapter: Adapter, seen: Seen): Move {
    if adapter == Session then End(Cancelled, Because(ADAPTER_UNAVAILABLE))
    else if seen.pane != Idle then Wait
    else match seen.compaction
      case NotYet => Wait
      case Stale(why) => End(Cancelled, Because(why))
      case Go =>
        if !seen.probeOk then End(Failed, Because(PROBE_FAILED))
        else Step(CompactIntent, NoReason, seen.pinned, Same, Some(Compact))
  }

  /** The stages that wait for an idle pane. */
  function PaneMove(adapter: Adapter, row: Row, seen: Seen): Move {
    match seen.pane
    case Unreadable => Wait
    case Prompt(code, recognized) =>
      if recognized then Step(WaitingPrompt, Dialog(code), true, BeginPrompt(row.state), None)
      else End(Failed, Because(PROMPT_UNRECOGNIZED))
    case Busy(code, afterReady) => if afterReady && row.state == Ready then Ask(code, None) else Wait
    case Idle =>
      if !seen.artifactOk then
        if row.state == Ready then Step(WaitingReady, ArtifactChanged, true, DropArtifact, None)
        else End(Failed, Because(ARTIFACT_GONE))
      else if !seen.probeOk then End(Failed, Because(PROBE_FAILED))
      else if row.state == Ready then
        Step(ClearIntent, NoReason, seen.pinned, Same, Some(if adapter == Session then Create else Clear))
      else if seen.newEpoch == None then Wait
      else if seen.newEpoch.value != row.successorEpoch then End(Failed, Because(EpochChanged))
      else if adapter == Session then
        if seen.workerFree then Step(PickupIntent, NoReason, true, Same, Some(SendPickup)) else Wait
      else Step(PickupIntent, NoReason, true, Same, Some(Pickup))
  }

  /** A clear is reconciled by its proof only, another epoch. */
  function ProofMove(row: Row, now: nat, seen: Seen): Move {
    if seen.newEpoch.Some? && seen.newEpoch.value.Some? && seen.newEpoch.value.value != row.epoch
    then Step(ResetVerified, NoReason, true, SetSuccessor(seen.newEpoch.value.value), None)
    else if row.state == ClearIntent || now >= row.stageDeadline then End(Uncertain, Because(RESET_UNPROVEN))
    else Wait
  }

  function PromptMove(row: Row, seen: Seen): Move {
    if seen.answerable then Step(PromptIntent, CyclePrompt(row), true, Same, Some(Answer))
    else if row.promptFrom == Some(WaitingPickup) || row.promptFrom == None then Wait
    else if seen.pane.Unreadable? || seen.pane.Prompt? then Wait
    else Step(row.promptFrom.value, PromptResolved, true, EndPrompt, None)
  }

  /** cyclePrompt. */
  function CyclePrompt(row: Row): Reason {
    if row.promptFrom == Some(WaitingPickup) then NativeDialog else row.reason
  }

  /** The adapter contract of a proof: the session adapter proves only the session that the row
      records from clear_received on. */
  predicate HonestProof(adapter: Adapter, row: Row, seen: Seen) {
    adapter == Session && seen.newEpoch.Some? && seen.newEpoch.value.Some? ==>
      row.state != ClearIntent && seen.newEpoch.value == row.successorEpoch
  }

  /** How a call ended: refused unsent, failed or without its receipt, received; ID is the session
      that a create names. */
  datatype Result = NotSent(code: nat) | Failing | Received | ID(session: nat)

  /** What the caller records after a call, in one transaction at the row that the call had. */
  function ResultMove(call: Call, row: Row, result: Result): Move {
    match call
    case Clear =>
      (match result
       case NotSent(code) => Step(Ready, Unsent(code), true, Same, None)
       case Received => Step(ClearReceived, NoReason, true, Same, None)
       case _ => End(Uncertain, Because(INPUT_UNRECEIVED)))
    case Create =>
      (match result
       case NotSent(code) => Step(Ready, Unsent(code), true, Same, None)
       case ID(session) =>
         if session == row.epoch then End(Uncertain, Because(INPUT_UNRECEIVED))
         else Step(ClearReceived, NoReason, true, SetSuccessor(session), None)
       case _ => End(Uncertain, Because(INPUT_UNRECEIVED)))
    case Select =>
      (match result
       case NotSent(code) => Step(Ready, Unsent(code), true, Same, None)
       case Received => Wait
       case _ => End(Uncertain, Because(SELECT_UNRECEIVED)))
    case Pickup =>
      if result == Received then Step(WaitingPickup, NoReason, true, Same, None)
      else End(Uncertain, Because(INPUT_UNRECEIVED))
    case SendPickup => Wait
    case Answer => AnsweredMove(row, result)
    case Choose =>
      if result.NotSent? then Step(WaitingPrompt, NativeDialog, true, Same, None) else AnsweredMove(row, result)
    case Compact =>
      (match result
       case NotSent(code) => Step(CompactWaiting, NotSubmitted(code), true, Same, None)
       case Received => Step(CompactSent, NoReason, true, Same, None)
       case _ => End(Uncertain, Because(COMPACT_UNRECEIVED)))
  }

  /** promptReturn: a wait that began in waiting_pickup goes on. */
  function AnsweredMove(row: Row, result: Result): Move {
    if result != Received then End(Uncertain, Because(PROMPT_UNANSWERED))
    else if row.promptFrom == Some(WaitingPickup) || row.promptFrom == None
    then Step(WaitingPrompt, PromptAnswered, true, Same, None)
    else Step(row.promptFrom.value, PromptAnswered, true, EndPrompt, None)
  }

  /** From which stage a call's result is recorded. */
  function CallStage(call: Call): Stage {
    match call
    case Clear => ClearIntent
    case Create => ClearIntent
    case Select => ClearReceived
    case Pickup => PickupIntent
    case SendPickup => PickupIntent
    case Answer => PromptIntent
    case Choose => PromptIntent
    case Compact => CompactIntent
  }
}
