/** The managed context cycle (internal/core/context_cycle.go): its row, its history, the queries
    over the history and the transactions that move the cycle. */
module Cycle {
  import opened Options

  // Page credits and bounds; times are milliseconds.

  const STAGE_PAGES := 280
  const TERMINAL_PAGES := 491
  const MAX_EVENTS := 16
  const CREDIT_PAGES := (MAX_EVENTS - 2) * STAGE_PAGES + TERMINAL_PAGES
  const MINUTE := 60_000
  const READY_WAIT := 15 * MINUTE
  const RECEIPT_WAIT := 2 * MINUTE
  const PICKUP_WAIT := 5 * MINUTE
  const PROMPT_WAIT := 10 * MINUTE
  const COMPACT_CONFIRM := 10 * MINUTE
  const LIFETIME := 30 * MINUTE

  /** The states; Requested and EnableKept are stages of events only. */
  datatype Stage =
    | Requested | WaitingReady | Ready | ClearIntent | ClearReceived | ResetVerified
    | PickupIntent | WaitingPickup | WaitingPrompt | PromptIntent
    | CompactWaiting | CompactIntent | CompactSent
    | Complete | Cancelled | Failed | Uncertain | EnableKept

  /** Why a cycle ended. */
  datatype Why =
    | ReadyTimeout | StageTimeout | CycleTimeout | EventLimit | EpochChanged | Resumed | Compacted
    | Other(code: nat)

  /** The reason column; NoReason is the empty text. */
  datatype Reason =
    | NoReason | NotIdle(seen: nat) | Unsent(code: nat) | NotSubmitted(code: nat)
    | SelectSent | PickupDisplayed | Dialog(code: nat) | NativeDialog
    | PromptResolved | PromptAnswered | MaintainerOption | ArtifactChanged
    | Because(why: Why)

  datatype Event = Event(ordinal: nat, at: nat, stage: Stage, reason: Reason)

  datatype Row = Row(
    revision: nat, state: Stage, promptFrom: Option<Stage>, reason: Reason,
    compaction: bool, enableRevision: nat, epoch: nat,
    createdAt: nat, stageDeadline: nat, cycleDeadline: nat,
    artifact: Option<nat>, successorEpoch: Option<nat>, events: nat, credit: nat)

  /** The requester's Enable, with the ready timeout that it kept. */
  datatype Enable = Enable(enabled: bool, revision: nat, keptEpoch: Option<nat>, keptRevision: nat, keptRead: bool)

  datatype Db = Db(row: Row, log: seq<Event>, enable: Enable)

  /** An adapter that enters its inputs in the pane, or the session adapter, which creates the
      successor session, selects it, sends the pickup and proves its display. */
  datatype Adapter = Pane | Session

  predicate Terminal(state: Stage) {
    state == Complete || state == Cancelled || state == Failed || state == Uncertain
  }

  predicate Intent(state: Stage) {
    state == ClearIntent || state == PickupIntent || state == PromptIntent || state == CompactIntent
  }

  predicate InputUnproven(state: Stage) {
    Intent(state) || state == ClearReceived
  }

  predicate InPrompt(row: Row, from: Stage) {
    (row.state == WaitingPrompt || row.state == PromptIntent) && row.promptFrom == Some(from)
  }

  predicate AwaitingPickup(row: Row) {
    row.state == WaitingPickup || InPrompt(row, WaitingPickup)
  }

  predicate AcceptsPickupReport(row: Row) {
    AwaitingPickup(row) || row.state == ResetVerified || InPrompt(row, ResetVerified)
  }

  function Min(a: nat, b: nat): nat {
    if a < b then a else b
  }

  // Queries over the history

  datatype ReasonFilter = AnyReason | Exactly(reason: Reason) | AnyNotIdle

  /** A where clause: stage IN stages, a test of the reason, and ordinal > above. */
  datatype Filter = Filter(stages: set<Stage>, reason: ReasonFilter, above: nat)

  predicate Matches(f: Filter, e: Event) {
    && e.stage in f.stages && e.ordinal > f.above
    && match f.reason
       case AnyReason => true
       case Exactly(r) => e.reason == r
       case AnyNotIdle => e.reason.NotIdle?
  }

  datatype Column = At | Ordinal

  function Value(e: Event, c: Column): nat {
    match c
    case At => e.at
    case Ordinal => e.ordinal
  }

  /** SELECT MAX(c) over the first n events; None is NULL. */
  function MaxOf(log: seq<Event>, n: nat, f: Filter, c: Column): Option<nat>
    requires n <= |log|
  {
    if n == 0 then None else
      var rest := MaxOf(log, n - 1, f, c);
      if !Matches(f, log[n - 1]) || (rest.Some? && rest.value > Value(log[n - 1], c)) then rest
      else Some(Value(log[n - 1], c))
  }

  function MinOf(log: seq<Event>, n: nat, f: Filter, c: Column): Option<nat>
    requires n <= |log|
  {
    if n == 0 then None else
      var rest := MinOf(log, n - 1, f, c);
      if !Matches(f, log[n - 1]) || (rest.Some? && rest.value < Value(log[n - 1], c)) then rest
      else Some(Value(log[n - 1], c))
  }

  function Stages(stages: set<Stage>): Filter {
    Filter(stages, AnyReason, 0)
  }

  const REPEATED := Filter({WaitingReady}, AnyNotIdle, 0)
  const REPORTED := Filter({Ready}, Exactly(NoReason), 0)
  const PROVEN := Filter({ResetVerified, WaitingPickup}, AnyReason, 0)

  /** cycleRequestedAt: the newest repeated request, or the admission. */
  function RequestedAt(log: seq<Event>, createdAt: nat): nat {
    var at := MaxOf(log, |log|, REPEATED, At);
    if at == None then createdAt else at.value
  }

  /** pickupPromptDeadline: the prompt wait from the first dialog after the pickup. */
  function PickupPromptDeadline(log: seq<Event>): Option<nat> {
    var first := MinOf(log, |log|, Stages({WaitingPickup}), Ordinal);
    if first == None then None else
      var at := MinOf(log, |log|, Filter({WaitingPrompt}, AnyReason, first.value), At);
      if at == None then None else Some(at.value + PROMPT_WAIT)
  }

  /** The select query: a select_sent event after the newest ready event. */
  predicate SelectRecorded(log: seq<Event>) {
    var ready := MaxOf(log, |log|, Stages({Ready}), Ordinal);
    var above := if ready == None then 0 else ready.value;
    MaxOf(log, |log|, Filter({ClearReceived}, Exactly(SelectSent), above), Ordinal).Some?
  }

  /** pickupRevision. */
  predicate PickupRevision(log: seq<Event>, revision: nat) {
    var first := MinOf(log, |log|, PROVEN, Ordinal);
    first.Some? && revision >= first.value &&
    exists i :: 0 <= i < |log| && log[i].ordinal == revision &&
                log[i].stage in {ResetVerified, WaitingPickup, WaitingPrompt, PromptIntent}
  }

  predicate PickupIsDisplayed(log: seq<Event>) {
    MaxOf(log, |log|, Filter({WaitingPickup}, Exactly(PickupDisplayed), 0), Ordinal).Some?
  }

  /** The ready report that cycleTarget takes: its time and the revision that it answered. */
  function ReportOf(log: seq<Event>, createdAt: nat): (nat, nat) {
    var ordinal := MaxOf(log, |log|, REPORTED, Ordinal);
    if ordinal.Some? && 0 < ordinal.value <= |log| then (log[ordinal.value - 1].at, ordinal.value - 1)
    else (createdAt, 0)
  }

  predicate InputEntered(log: seq<Event>) {
    MaxOf(log, |log|, Stages({ClearIntent, PickupIntent, PromptIntent, CompactIntent}), Ordinal).Some?
  }

  // Transactions

  /** cycleEnabled. */
  predicate CycleEnabled(db: Db) {
    db.enable.enabled && db.enable.revision == db.row.enableRevision
  }

  /** cycleUnproven: a recorded input without its proof, and for the session adapter a pickup that
      the pane was never seen to show. */
  predicate Unproven(db: Db, adapter: Adapter) {
    InputUnproven(db.row.state) || (adapter == Session && AwaitingPickup(db.row) && !PickupIsDisplayed(db.log))
  }

  predicate CompactionKeepsEnable(row: Row, reason: Reason) {
    row.compaction && (row.state == CompactWaiting || reason == Because(EpochChanged))
  }

  /** readyTimeoutKeepsEnable. */
  predicate TimeoutKeepsEnable(db: Db, outcome: Stage, reason: Reason) {
    && outcome == Failed && db.row.state == WaitingReady && reason == Because(ReadyTimeout)
    && !InputEntered(db.log)
    && CycleEnabled(db)
    && !(db.enable.keptRevision == db.enable.revision && db.enable.keptEpoch == Some(db.row.epoch))
  }

  /** The terminal outcome that is recorded. */
  function FinalOutcome(db: Db, adapter: Adapter, outcome: Stage): Stage {
    if outcome != Complete && Unproven(db, adapter) then Uncertain else outcome
  }

  function AfterEnd(db: Db, final: Stage, reason: Reason): Enable {
    var e := db.enable;
    if final == Complete || CompactionKeepsEnable(db.row, reason) then e
    else if TimeoutKeepsEnable(db, final, reason)
    then e.(keptEpoch := Some(db.row.epoch), keptRevision := e.revision, keptRead := false)
    else if e.enabled then e.(enabled := false, revision := e.revision + 1)
    else e
  }

  /** endCycleTx, but for the carry of a completed cycle's Enable. */
  function EndTx(db: Db, adapter: Adapter, now: nat, outcome: Stage, reason: Reason): Db {
    var row, final := db.row, FinalOutcome(db, adapter, outcome);
    var ended := Event(row.events + 1, now, final, reason);
    var kept := if TimeoutKeepsEnable(db, final, reason) then [Event(row.events + 2, now, EnableKept, reason)] else [];
    Db(row.(revision := row.revision + 1, state := final, reason := reason, events := row.events + 1 + |kept|,
            credit := 0),
       db.log + [ended] + kept,
       AfterEnd(db, final, reason))
  }

  /** A change that advanceCycle makes to the row besides its stage. */
  datatype Change =
    | Same | SetArtifact(artifact: nat) | DropArtifact | SetSuccessor(epoch: nat) | BeginPrompt(from: Stage) | EndPrompt

  function Apply(row: Row, change: Change): Row {
    match change
    case Same => row
    case SetArtifact(a) => row.(artifact := Some(a))
    case DropArtifact => row.(artifact := None)
    case SetSuccessor(e) => row.(successorEpoch := Some(e))
    case BeginPrompt(from) => row.(promptFrom := Some(from))
    case EndPrompt => row.(promptFrom := None)
  }

  datatype Written = Refused | Advanced(db: Db) | Ended(db: Db)

  /** The stage deadline of an advance, before the cycle's own; log has the new event. None when
      the first dialog of a pickup's prompt wait is missing. */
  function NextDeadline(row: Row, log: seq<Event>, now: nat, to: Stage): Option<nat> {
    if row.state == to then Some(row.stageDeadline)
    else if row.promptFrom == Some(WaitingPickup) && (to == WaitingPrompt || to == PromptIntent) then
      var wait := PickupPromptDeadline(log);
      if wait.Some? && to == PromptIntent then Some(Min(now + RECEIPT_WAIT, wait.value)) else wait
    else Some(match to
              case WaitingReady => RequestedAt(log, row.createdAt) + READY_WAIT
              case WaitingPrompt => now + PROMPT_WAIT
              case CompactWaiting => row.createdAt + READY_WAIT
              case CompactSent => now + COMPACT_CONFIRM
              case WaitingPickup => now + PICKUP_WAIT
              case _ => now + RECEIPT_WAIT)
  }

  /** What advanceCycle checks of the row that it reads. */
  predicate AtStage(db: Db, now: nat, revision: nat, from: Stage) {
    db.row.revision == revision && db.row.state == from && now < db.row.stageDeadline && now < db.row.cycleDeadline
  }

  predicate Funded(row: Row) {
    row.credit >= STAGE_PAGES + TERMINAL_PAGES && row.events < MAX_EVENTS - 1
  }

  /** The row of the next revision. */
  function StageRow(row: Row, to: Stage, reason: Reason, change: Change, deadline: nat): Row
    requires row.credit >= STAGE_PAGES
  {
    Apply(row.(revision := row.revision + 1, state := to, reason := reason, events := row.events + 1,
               credit := row.credit - STAGE_PAGES, stageDeadline := Min(deadline, row.cycleDeadline)),
          change)
  }

  /** advanceCycle: guard is the answer of the caller's own checks. A stage that would take the
      last event slot ends the cycle. */
  function Advance(db: Db, adapter: Adapter, now: nat, revision: nat, from: Stage, to: Stage, reason: Reason,
                   guard: bool, change: Change): Written {
    if !AtStage(db, now, revision, from) || !CycleEnabled(db) || !guard then Refused
    else if !Funded(db.row) then Ended(EndTx(db, adapter, now, Failed, Because(EventLimit)))
    else
      var row := db.row;
      var log := db.log + [Event(row.events + 1, now, to, reason)];
      var deadline := NextDeadline(row, log, now, to);
      if deadline == None then Refused else
        Advanced(Db(StageRow(row, to, reason, change, deadline.value), log, db.enable))
  }

  datatype Repeated = RepeatRefused | RepeatLimit | Repeat(db: Db)

  /** repeatCycleRequest: the cycle asks its requester again. */
  function RepeatRequest(db: Db, now: nat, revision: nat, seen: nat, pinned: bool): Repeated {
    var row := db.row;
    if row.revision != revision || row.state != Ready || now >= row.cycleDeadline || !CycleEnabled(db) || !pinned
    then RepeatRefused
    else if !Funded(row) then RepeatLimit
    else Repeat(Db(row.(revision := row.revision + 1, state := WaitingReady, reason := NotIdle(seen),
                        events := row.events + 1, credit := row.credit - STAGE_PAGES,
                        stageDeadline := Min(now + READY_WAIT, row.cycleDeadline), artifact := None),
                   db.log + [Event(row.events + 1, now, WaitingReady, NotIdle(seen))], db.enable))
  }

  // The Enable

  function SetEnabled(e: Enable, on: bool): Enable {
    e.(enabled := on, revision := e.revision + 1)
  }

  /** noteCycleInboxRead writes only while a kept timeout waits for a read. */
  predicate ReadCounts(e: Enable) {
    e.enabled && e.keptRevision == e.revision && !e.keptRead
  }

  function NoteRead(e: Enable): Enable {
    if ReadCounts(e) then e.(keptRead := true) else e
  }

  /** admitContextCycle: the row and its first event. */
  function Admit(compaction: bool, enable: Enable, epoch: nat, now: nat): Db {
    Db(Row(1, if compaction then CompactWaiting else WaitingReady, None, NoReason, compaction, enable.revision, epoch,
           now, now + READY_WAIT, now + LIFETIME, None, None, 1, CREDIT_PAGES),
       [Event(1, now, Requested, NoReason)], enable)
  }
}
