/** What a step of the controller does, exactly when: the calls that it starts, the stages that it
    enters and the ends that it makes (internal/core/context_cycle_controller.go). */
module CycleDecisions {
  import opened Options
  import opened Cycle
  import opened CycleController
  import opened CycleRuns
  import opened CycleHistory
  import opened CycleSafety
  import opened CycleCalls
  import opened CycleOnce
  import opened CycleInvariant

  // What a step shows

  /** t has a new call in flight, of the row that it added. */
  ghost predicate Begins(s: Sys, t: Sys, call: Call) {
    && |t.rows| == |s.rows| + 1 && t.db.row.revision !in s.calls && t.db.row.revision in t.calls
    && t.calls[t.db.row.revision].call == call && t.calls[t.db.row.revision].row == t.db.row
  }

  /** t has a new row in an unfinished stage. */
  ghost predicate Enters(s: Sys, t: Sys, to: Stage, reason: Reason) {
    |t.rows| == |s.rows| + 1 && !Terminal(to) && t.db.row.state == to && t.db.row.reason == reason
  }

  ghost predicate Ends(s: Sys, t: Sys, why: Why) {
    !Terminal(s.db.row.state) && Terminal(t.db.row.state) && t.db.row.reason == Because(why)
  }

  // When

  /** The row is read after its stage's deadline, in a cycle that still runs. */
  predicate Late(row: Row, read: nat) {
    row.stageDeadline <= read < row.cycleDeadline
  }

  /** No deadline ends the step: an input without its proof is looked at also after its own. */
  predicate InTime(row: Row, read: nat) {
    && read < row.cycleDeadline
    && (read < row.stageDeadline
        || row.state in {ClearIntent, ClearReceived, PickupIntent, PromptIntent, CompactIntent})
  }

  predicate Acts(row: Row, read: nat, seen: Seen) {
    InTime(row, read) && seen.available && seen.enabled
  }

  /** A transaction can move the cycle: before both deadlines, under the Enable that admitted it. */
  predicate Open(s: Sys) {
    && s.now < s.db.row.stageDeadline && s.now < s.db.row.cycleDeadline
    && s.db.enable.enabled && s.db.enable.revision == s.db.row.enableRevision
  }

  /** The pane is idle, the saved handoff is still the reported file, and the pickup skill is installed. */
  predicate Fit(seen: Seen) {
    seen.pane == Idle && seen.artifactOk && seen.probeOk
  }

  /** The stage and what is seen ask for the call. The pickup is entered only while the pane still shows
      the epoch that the reset proved. */
  predicate Ripe(adapter: Adapter, row: Row, seen: Seen, call: Call) {
    match call
    case Clear => adapter == Pane && row.state == Ready && Fit(seen) && seen.pinned
    case Create => adapter == Session && row.state == Ready && Fit(seen) && seen.pinned
    case Select =>
      adapter == Session && row.state == ClearReceived && row.reason != SelectSent && seen.pinned
    case Pickup =>
      adapter == Pane && row.state == ResetVerified && Fit(seen) && seen.newEpoch == Some(row.successorEpoch)
    case SendPickup =>
      && adapter == Session && row.state == ResetVerified && Fit(seen) && seen.newEpoch == Some(row.successorEpoch)
      && seen.workerFree
    case Answer => row.state == WaitingPrompt && seen.answerable
    case Choose => false
    case Compact =>
      && adapter == Pane && row.state == CompactWaiting && seen.pane == Idle && seen.compaction == Go && seen.probeOk
      && seen.pinned
  }

  /** The stage that a call is made in, with its event's reason. */
  predicate IntentOf(row: Row, call: Call, to: Stage, reason: Reason) {
    match call
    case Clear => to == ClearIntent && reason == NoReason
    case Create => to == ClearIntent && reason == NoReason
    case Select => to == ClearReceived && reason == SelectSent
    case Pickup => to == PickupIntent && reason == NoReason
    case SendPickup => to == PickupIntent && reason == NoReason
    case Compact => to == CompactIntent && reason == NoReason
    case _ =>
      to == PromptIntent && reason == if row.promptFrom == Some(WaitingPickup) then NativeDialog else row.reason
  }

  /** Another epoch than the requester's proves the reset; the session adapter's only after its select. */
  predicate Proof(adapter: Adapter, row: Row, seen: Seen, epoch: nat) {
    && (row.state == ClearIntent || (row.state == ClearReceived && (adapter == Session ==> row.reason == SelectSent)))
    && seen.newEpoch == Some(Some(epoch)) && epoch != row.epoch
  }

  /** The event of another stage, or of the display, that the step records without a call; displays says
      that the pane shows the successor for the first time. */
  predicate Moves(adapter: Adapter, row: Row, seen: Seen, displays: bool, to: Stage, reason: Reason) {
    match to
    case ResetVerified =>
      || (reason == NoReason && seen.newEpoch.Some? && seen.newEpoch.value.Some?
          && Proof(adapter, row, seen, seen.newEpoch.value.value))
      || (reason == PromptResolved && row.promptFrom == Some(ResetVerified) && Resolved(row, seen))
    case Ready => reason == PromptResolved && row.promptFrom == Some(Ready) && Resolved(row, seen)
    case WaitingReady => row.state == Ready && reason == ArtifactChanged && seen.pane == Idle && !seen.artifactOk
    case WaitingPrompt =>
      || ((row.state == Ready || row.state == ResetVerified)
          && seen.pane.Prompt? && seen.pane.recognized && reason == Dialog(seen.pane.code))
      || (row.state == WaitingPickup && reason == NativeDialog && seen.dialog && !displays)
    case WaitingPickup =>
      || (reason == PickupDisplayed && row.state == WaitingPickup && displays)
      || (reason == NoReason && adapter == Session && row.state == PickupIntent && seen.receipt == Some(true))
    case _ => false
  }

  /** The dialog of a wait that is not the pickup's is gone, and nobody else is to answer it. */
  predicate Resolved(row: Row, seen: Seen) {
    row.state == WaitingPrompt && !seen.answerable && (seen.pane == Idle || seen.pane.Busy?)
  }

  /** The pane shows the successor for the first time. */
  predicate Displays(adapter: Adapter, db: Db, seen: Seen) {
    && adapter == Session && db.row.state == WaitingPickup && seen.displayed
    && forall i :: 0 <= i < |db.log| ==> !(db.log[i].stage == WaitingPickup && db.log[i].reason == PickupDisplayed)
  }

  /** Work after the ready report, or what the pane showed when the wait for it ended, asks the requester
      again. */
  predicate Asks(row: Row, read: nat, seen: Seen, code: nat) {
    && row.state == Ready
    && if Late(row, read) then seen.repeatable == Some(code)
       else read < row.cycleDeadline && seen.available && seen.enabled && seen.pane == Busy(code, true)
  }

  /** The request may be repeated; its stage's own deadline does not matter. */
  predicate Repeatable(s: Sys, seen: Seen) {
    && s.now < s.db.row.cycleDeadline && seen.pinned
    && s.db.enable.enabled && s.db.enable.revision == s.db.row.enableRevision
  }

  /** A step that would record a new stage, if the cycle has an event left for it. */
  ghost predicate Wants(s: Sys, read: nat, seen: Seen, to: Stage, reason: Reason) {
    || (Open(s) && seen.available && seen.enabled
        && Moves(s.adapter, s.db.row, seen, Displays(s.adapter, s.db, seen), to, reason))
    || (Open(s) && seen.available && seen.enabled &&
        exists call :: Ripe(s.adapter, s.db.row, seen, call) && IntentOf(s.db.row, call, to, reason))
    || (to == WaitingReady && reason.NotIdle? && Asks(s.db.row, read, seen, reason.seen) && Repeatable(s, seen))
  }

  /** Why the step ends the cycle, but for the event limit. */
  predicate EndsFor(adapter: Adapter, row: Row, read: nat, seen: Seen, repeats: bool, why: Why) {
    || (why == CycleTimeout && read >= row.cycleDeadline)
    || (why == ReadyTimeout && Late(row, read) && row.state == WaitingReady)
    || (why == StageTimeout && Late(row, read) &&
        (row.state in {CompactWaiting, CompactSent, ResetVerified, WaitingPickup, WaitingPrompt}
         || (row.state == Ready && (seen.repeatable == None || !repeats))))
    || (why == ADAPTER_UNAVAILABLE && InTime(row, read) && !seen.available)
    || (why == ENABLE_CHANGED && InTime(row, read) && seen.available && !seen.enabled)
    || (Acts(row, read, seen) && SeenEnds(adapter, row, read, seen, why))
  }

  /** The ends that what is seen asks for. */
  predicate SeenEnds(adapter: Adapter, row: Row, read: nat, seen: Seen, why: Why) {
    || (why == ADAPTER_UNAVAILABLE && row.state == CompactWaiting && adapter == Session)
    || (row.state == CompactWaiting && adapter == Pane && seen.pane == Idle && seen.compaction == Stale(why))
    || (why == COMPACT_UNRECEIPTED && row.state == CompactIntent)
    || (why == PICKUP_UNRECEIPTED && row.state == PickupIntent && (adapter == Session ==> seen.receipt == Some(false)))
    || (why == PROMPT_UNRECEIPTED && row.state == PromptIntent)
    || (why == RESET_UNPROVEN && Unproved(adapter, row, read, seen))
    || (why == PROMPT_UNRECOGNIZED && WaitsForPane(row) && seen.pane.Prompt? && !seen.pane.recognized)
    || (why == ARTIFACT_GONE && row.state == ResetVerified && seen.pane == Idle && !seen.artifactOk)
    || (why == PROBE_FAILED && seen.pane == Idle && !seen.probeOk
        && ((WaitsForPane(row) && seen.artifactOk)
            || (row.state == CompactWaiting && adapter == Pane && seen.compaction == Go)))
    || (why == EpochChanged && row.state == ResetVerified && Fit(seen)
        && seen.newEpoch.Some? && seen.newEpoch.value != row.successorEpoch)
  }

  predicate WaitsForPane(row: Row) {
    row.state == Ready || row.state == ResetVerified
  }

  /** A clear that no epoch proves is not looked at again once its receipt is missing or late. */
  predicate Unproved(adapter: Adapter, row: Row, read: nat, seen: Seen) {
    && (row.state == ClearIntent
        || (row.state == ClearReceived && (adapter == Session ==> row.reason == SelectSent)
            && read >= row.stageDeadline))
    && !(seen.newEpoch.Some? && seen.newEpoch.value.Some? && seen.newEpoch.value.value != row.epoch)
  }

  // What the controller decides

  lemma DisplayedIs(db: Db, now: nat)
    requires Ordered(db.log, now)
    ensures PickupIsDisplayed(db.log) <==>
              exists i :: 0 <= i < |db.log| && db.log[i].stage == WaitingPickup && db.log[i].reason == PickupDisplayed
  {
    var f := Filter({WaitingPickup}, Exactly(PickupDisplayed), 0);
    FoundIn(db.log, |db.log|, f, Ordinal);
    forall i | 0 <= i < |db.log|
      ensures Matches(f, db.log[i]) <==> db.log[i].stage == WaitingPickup && db.log[i].reason == PickupDisplayed
    {
    }
  }

  /** What holds of the row and the history of a reachable cycle, as far as a decision needs it. */
  ghost predicate Sound(adapter: Adapter, db: Db, now: nat) {
    && Ordered(db.log, now) && !Terminal(db.row.state) && Shaped(db.row)
    && (db.row.state == ClearReceived ==> (SelectRecorded(db.log) <==> db.row.reason == SelectSent))
    && (db.row.state == ClearReceived && adapter == Session ==> db.row.successorEpoch.Some?)
  }

  lemma InvIsSound(s: Sys)
    requires Counted(s) && Recorded(s) && Selected(s) && !Terminal(s.db.row.state)
    ensures Sound(s.adapter, s.db, s.now)
  {
  }

  lemma PaneCallDecided(adapter: Adapter, row: Row, seen: Seen, call: Call)
    requires WaitsForPane(row)
    ensures
      var move := PaneMove(adapter, row, seen);
      && (move.Step? && move.guard && move.call == Some(call) <==> Ripe(adapter, row, seen, call))
      && (move.Step? && move.call == Some(call) ==> IntentOf(row, call, move.to, move.reason))
  {
  }

  lemma CallDecided(adapter: Adapter, db: Db, clock: nat, read: nat, seen: Seen, call: Call)
    requires Sound(adapter, db, clock) && read < db.row.stageDeadline && read < db.row.cycleDeadline
    ensures
      var move := StepMove(adapter, db, read, seen);
      && (move.Step? && move.guard && move.call == Some(call) <==>
            seen.available && seen.enabled && Ripe(adapter, db.row, seen, call))
      && (move.Step? && move.call == Some(call) ==> IntentOf(db.row, call, move.to, move.reason))
  {
    if WaitsForPane(db.row) {
      PaneCallDecided(adapter, db.row, seen, call);
    }
  }

  /** The step is an event without a call. */
  predicate Records(move: Move, to: Stage, reason: Reason) {
    move.Step? && move.call == None && move.guard && move.to == to && move.reason == reason
  }

  /** The event that the controller records is the one that is asked for. */
  ghost predicate MoveIs(adapter: Adapter, db: Db, read: nat, seen: Seen, displays: bool, to: Stage, reason: Reason) {
    Records(StepMove(adapter, db, read, seen), to, reason) <==>
      seen.available && seen.enabled && Moves(adapter, db.row, seen, displays, to, reason)
  }

  lemma PaneRecords(adapter: Adapter, row: Row, seen: Seen, displays: bool, to: Stage, reason: Reason)
    requires WaitsForPane(row) && Shaped(row)
    ensures Records(PaneMove(adapter, row, seen), to, reason) <==> Moves(adapter, row, seen, displays, to, reason)
  {
  }

  lemma ProofRecords(row: Row, read: nat, seen: Seen, to: Stage, reason: Reason)
    ensures
      Records(ProofMove(row, read, seen), to, reason) <==>
        && to == ResetVerified && reason == NoReason
        && seen.newEpoch.Some? && seen.newEpoch.value.Some? && seen.newEpoch.value.value != row.epoch
  {
  }

  lemma PromptRecords(adapter: Adapter, row: Row, seen: Seen, displays: bool, to: Stage, reason: Reason)
    requires row.state == WaitingPrompt && Shaped(row)
    ensures Records(PromptMove(row, seen), to, reason) <==> Moves(adapter, row, seen, displays, to, reason)
  {
  }

  lemma PaneMoveDecided(adapter: Adapter, db: Db, clock: nat, read: nat, seen: Seen, displays: bool, to: Stage,
        reason: Reason)
    requires Sound(adapter, db, clock) && read < db.row.stageDeadline && read < db.row.cycleDeadline
    requires WaitsForPane(db.row)
    ensures MoveIs(adapter, db, read, seen, displays, to, reason)
  {
    PaneRecords(adapter, db.row, seen, displays, to, reason);
  }

  lemma ProofMoveDecided(adapter: Adapter, db: Db, clock: nat, read: nat, seen: Seen, displays: bool, to: Stage,
        reason: Reason)
    requires Sound(adapter, db, clock) && read < db.row.stageDeadline && read < db.row.cycleDeadline
    requires db.row.state == ClearIntent || db.row.state == ClearReceived
    ensures MoveIs(adapter, db, read, seen, displays, to, reason)
  {
    ProofRecords(db.row, read, seen, to, reason);
  }

  lemma PromptMoveDecided(adapter: Adapter, db: Db, clock: nat, read: nat, seen: Seen, displays: bool, to: Stage,
        reason: Reason)
    requires Sound(adapter, db, clock) && read < db.row.stageDeadline && read < db.row.cycleDeadline
    requires db.row.state == WaitingPrompt
    ensures MoveIs(adapter, db, read, seen, displays, to, reason)
  {
    PromptRecords(adapter, db.row, seen, displays, to, reason);
  }

  lemma WaitMoveDecided(adapter: Adapter, db: Db, clock: nat, read: nat, seen: Seen, displays: bool, to: Stage,
        reason: Reason)
    requires Sound(adapter, db, clock) && read < db.row.stageDeadline && read < db.row.cycleDeadline
    requires db.row.state == WaitingPickup
    requires displays <==> adapter == Session && db.row.state == WaitingPickup && seen.displayed
                           && !PickupIsDisplayed(db.log)
    ensures MoveIs(adapter, db, read, seen, displays, to, reason)
  {
  }

  lemma ReceiptMoveDecided(adapter: Adapter, db: Db, clock: nat, read: nat, seen: Seen, displays: bool, to: Stage,
        reason: Reason)
    requires Sound(adapter, db, clock) && read < db.row.stageDeadline && read < db.row.cycleDeadline
    requires db.row.state == PickupIntent
    ensures MoveIs(adapter, db, read, seen, displays, to, reason)
  {
  }

  lemma NoneRecorded(adapter: Adapter, db: Db, read: nat, seen: Seen)
    requires db.row.state in {WaitingReady, CompactWaiting, CompactIntent, CompactSent, PromptIntent}
    ensures
      var move := StepMove(adapter, db, read, seen);
      !(move.Step? && move.call == None)
  {
  }

  lemma NoneMoves(adapter: Adapter, row: Row, seen: Seen, displays: bool, to: Stage, reason: Reason)
    requires row.state in {WaitingReady, CompactWaiting, CompactIntent, CompactSent, PromptIntent}
    requires displays ==> row.state == WaitingPickup
    ensures !Moves(adapter, row, seen, displays, to, reason)
  {
  }

  lemma NoMoveDecided(adapter: Adapter, db: Db, read: nat, seen: Seen, displays: bool, to: Stage, reason: Reason)
    requires db.row.state in {WaitingReady, CompactWaiting, CompactIntent, CompactSent, PromptIntent}
    requires displays ==> db.row.state == WaitingPickup
    ensures MoveIs(adapter, db, read, seen, displays, to, reason)
  {
    NoneRecorded(adapter, db, read, seen);
    NoneMoves(adapter, db.row, seen, displays, to, reason);
  }

  lemma MoveDecided(adapter: Adapter, db: Db, clock: nat, read: nat, seen: Seen, to: Stage, reason: Reason)
    requires Sound(adapter, db, clock) && read < db.row.stageDeadline && read < db.row.cycleDeadline
    ensures MoveIs(adapter, db, read, seen, Displays(adapter, db, seen), to, reason)
  {
    var displays := Displays(adapter, db, seen);
    match db.row.state
    case Ready => PaneMoveDecided(adapter, db, clock, read, seen, displays, to, reason);
    case ResetVerified => PaneMoveDecided(adapter, db, clock, read, seen, displays, to, reason);
    case ClearIntent => ProofMoveDecided(adapter, db, clock, read, seen, displays, to, reason);
    case ClearReceived => ProofMoveDecided(adapter, db, clock, read, seen, displays, to, reason);
    case WaitingPrompt => PromptMoveDecided(adapter, db, clock, read, seen, displays, to, reason);
    case WaitingPickup =>
      DisplayedIs(db, clock);
      WaitMoveDecided(adapter, db, clock, read, seen, displays, to, reason);
    case PickupIntent => ReceiptMoveDecided(adapter, db, clock, read, seen, displays, to, reason);
    case _ => NoMoveDecided(adapter, db, read, seen, displays, to, reason);
  }

  lemma UnguardedMove(adapter: Adapter, db: Db, read: nat, seen: Seen)
    ensures
      var move := StepMove(adapter, db, read, seen);
      move.Step? && move.call == None ==> move.guard
  {
  }

  lemma AskDecided(adapter: Adapter, db: Db, clock: nat, read: nat, seen: Seen, code: nat)
    requires Sound(adapter, db, clock)
    ensures
      var move := StepMove(adapter, db, read, seen);
      && (move.Ask? && move.seen == code <==> Asks(db.row, read, seen, code))
      && (move.Ask? ==> move.orElse == if Late(db.row, read) then Some(Because(StageTimeout)) else None)
  {
  }

  lemma EndDecided(adapter: Adapter, db: Db, clock: nat, read: nat, seen: Seen, why: Why)
    requires Sound(adapter, db, clock)
    ensures
      var move := StepMove(adapter, db, read, seen);
      move.End? && move.reason == Because(why) <==> EndsFor(adapter, db.row, read, seen, true, why)
  {
    if Acts(db.row, read, seen) {
      SeenDecided(adapter, db, clock, read, seen, why);
    }
  }

  lemma PaneEndDecided(adapter: Adapter, row: Row, read: nat, seen: Seen, why: Why)
    requires WaitsForPane(row)
    ensures
      var move := PaneMove(adapter, row, seen);
      move.End? && move.reason == Because(why) <==> SeenEnds(adapter, row, read, seen, why)
  {
  }

  lemma CompactEndDecided(adapter: Adapter, row: Row, read: nat, seen: Seen, why: Why)
    requires row.state == CompactWaiting
    ensures
      var move := CompactMove(adapter, seen);
      move.End? && move.reason == Because(why) <==> SeenEnds(adapter, row, read, seen, why)
  {
  }

  lemma SeenDecided(adapter: Adapter, db: Db, clock: nat, read: nat, seen: Seen, why: Why)
    requires Sound(adapter, db, clock) && Acts(db.row, read, seen)
    ensures
      var move := StepMove(adapter, db, read, seen);
      move.End? && move.reason == Because(why) <==> SeenEnds(adapter, db.row, read, seen, why)
  {
    if WaitsForPane(db.row) {
      PaneEndDecided(adapter, db.row, read, seen, why);
    } else if db.row.state == CompactWaiting {
      CompactEndDecided(adapter, db.row, read, seen, why);
    } else {
      InputEndDecided(adapter, db, clock, read, seen, why);
    }
  }

  lemma InputEndDecided(adapter: Adapter, db: Db, clock: nat, read: nat, seen: Seen, why: Why)
    requires Sound(adapter, db, clock) && Acts(db.row, read, seen)
    requires !WaitsForPane(db.row) && db.row.state != CompactWaiting
    ensures
      var move := StepMove(adapter, db, read, seen);
      move.End? && move.reason == Because(why) <==> SeenEnds(adapter, db.row, read, seen, why)
  {
  }

  // What the step does

  /** A dialog of the pickup has its wait, so the deadline of a transition is always found. */
  lemma DeadlineFound(s: Sys, to: Stage, reason: Reason, change: Change)
    requires Counted(s) && PickupTimed(s) && Shaped(s.db.row) && !Terminal(s.db.row.state)
    requires Edge(s.adapter, s.db, to, reason, change)
    ensures NextDeadline(s.db.row, s.db.log + [Event(s.db.row.events + 1, s.now, to, reason)], s.now, to).Some?
  {
    PromptDeadlineAppend(s.db.log, s.now, Event(s.db.row.events + 1, s.now, to, reason));
  }

  /** An advance at the current row: refused unless the cycle is open, and at the last event the end. */
  lemma AdvanceShows(s: Sys, move: Move)
    requires Counted(s) && PickupTimed(s) && Shaped(s.db.row) && !Terminal(s.db.row.state)
    requires move.Step? && Edge(s.adapter, s.db, move.to, move.reason, move.change)
    ensures
      var t := AdvanceAt(s, s.db.row, s.db.row.state, move);
      if !Open(s) || !move.guard then t == s
      else
        && |t.rows| == |s.rows| + 1 && t.db.row.revision == s.db.row.revision + 1
        && t.calls == Called(WithDb(s, t.db), move.call, s.db.row).calls
        && if s.db.row.events < 15 then !Terminal(move.to) && Enters(s, t, move.to, move.reason)
           else Ends(s, t, EventLimit)
  {
    DeadlineFound(s, move.to, move.reason, move.change);
  }

  lemma EndShows(s: Sys, outcome: Stage, why: Why)
    requires !Terminal(s.db.row.state) && Terminal(outcome)
    ensures
      var t := EndAt(s, s.db.row.revision, outcome, Because(why));
      Ends(s, t, why) && |t.rows| == |s.rows| + 1 && t.calls == s.calls
  {
  }

  lemma AskShows(s: Sys, code: nat, orElse: Option<Reason>, seen: Seen)
    requires Counted(s) && s.db.row.state == Ready && (orElse.Some? ==> orElse.value.Because?)
    ensures
      var t := AskAt(s, s.db.row, code, orElse, seen.pinned);
      && t.calls == s.calls
      && if Repeatable(s, seen) then
           if s.db.row.events < 15 then Enters(s, t, WaitingReady, NotIdle(code)) else Ends(s, t, EventLimit)
         else if orElse.Some? then Ends(s, t, orElse.value.why) else t == s
  {
  }

  /** The step, by what the controller decides. */
  ghost predicate Shows(s: Sys, t: Sys, seen: Seen, move: Move) {
    match move
    case Wait => t == s
    case Step(to, reason, guard, change, call) =>
      if !Open(s) || !guard then t == s
      else
        && |t.rows| == |s.rows| + 1 && t.db.row.revision == s.db.row.revision + 1
        && t.calls == Called(WithDb(s, t.db), call, s.db.row).calls
        && if s.db.row.events < 15 then !Terminal(to) && Enters(s, t, to, reason) else Ends(s, t, EventLimit)
    case Ask(code, orElse) =>
      && t.calls == s.calls
      && if Repeatable(s, seen) then
           if s.db.row.events < 15 then Enters(s, t, WaitingReady, NotIdle(code)) else Ends(s, t, EventLimit)
         else if orElse.Some? then orElse.value.Because? && Ends(s, t, orElse.value.why) else t == s
    case End(outcome, reason) => t.calls == s.calls && reason.Because? && Ends(s, t, reason.why)
  }

  lemma StepShows(s: Sys, read: nat, seen: Seen)
    requires Counted(s) && Recorded(s) && PickupTimed(s) && Selected(s) && Enabled(s, Control(read, seen))
    ensures Shows(s, Next(s, Control(read, seen)), seen, StepMove(s.adapter, s.db, read, seen))
  {
    var move := StepMove(s.adapter, s.db, read, seen);
    DecidedShape(s.adapter, s.db, read, seen);
    match move
    case Wait =>
    case Step(_, _, _, _, _) =>
      ControlIsEdge(s.adapter, s.db, read, seen);
      AdvanceShows(s, move);
    case Ask(code, orElse) => AskShows(s, code, orElse, seen);
    case End(outcome, reason) => EndShows(s, outcome, reason.why);
  }

  lemma DecidedShape(adapter: Adapter, db: Db, read: nat, seen: Seen)
    requires !Terminal(db.row.state)
    ensures
      var move := StepMove(adapter, db, read, seen);
      && (move.End? ==> move.reason.Because? && Terminal(move.outcome))
      && (move.Ask? ==> db.row.state == Ready && (move.orElse.Some? ==> move.orElse.value.Because?))
  {
  }

  lemma NewRevision(s: Sys)
    requires Recorded(s) && CallsFit(s)
    ensures s.db.row.revision + 1 !in s.calls
  {
    forall r | r in s.calls
      ensures r <= s.db.row.revision
    {
      assert CallFitsAt(s, r);
    }
  }

  /** The step begins the call that is decided, if the transaction lets it. */
  predicate Calls(s: Sys, move: Move, call: Call) {
    Open(s) && move.Step? && move.guard && move.call == Some(call)
  }

  lemma BeginsShown(s: Sys, t: Sys, seen: Seen, move: Move, call: Call)
    requires Shows(s, t, seen, move) && s.db.row.revision + 1 !in s.calls
    ensures Begins(s, t, call) <==> Calls(s, move, call)
  {
  }

  lemma CallIsRipe(s: Sys, read: nat, seen: Seen, call: Call)
    requires Counted(s) && Recorded(s) && Selected(s) && Enabled(s, Control(read, seen))
    ensures
      Calls(s, StepMove(s.adapter, s.db, read, seen), call) <==>
        Open(s) && seen.available && seen.enabled && Ripe(s.adapter, s.db.row, seen, call)
  {
    InvIsSound(s);
    if Open(s) {
      CallDecided(s.adapter, s.db, s.now, read, seen, call);
    }
  }

  /** The step records the stage, if the transaction lets it. */
  predicate Writes(s: Sys, seen: Seen, move: Move, to: Stage, reason: Reason) {
    || (Open(s) && move.Step? && move.guard && move.to == to && move.reason == reason)
    || (move.Ask? && to == WaitingReady && reason == NotIdle(move.seen) && Repeatable(s, seen))
  }

  lemma EntersShown(s: Sys, t: Sys, seen: Seen, move: Move, to: Stage, reason: Reason)
    requires Shows(s, t, seen, move)
    ensures Enters(s, t, to, reason) <==> s.db.row.events < 15 && Writes(s, seen, move, to, reason)
  {
  }

  lemma OneIntent(row: Row, call: Call, to: Stage, reason: Reason, to': Stage, reason': Reason)
    requires IntentOf(row, call, to, reason) && IntentOf(row, call, to', reason')
    ensures to == to' && reason == reason'
  {
  }

  /** A call that is made is recorded at its intent. */
  lemma CallIsWritten(s: Sys, seen: Seen, move: Move, call: Call, to: Stage, reason: Reason)
    requires Calls(s, move, call) && IntentOf(s.db.row, call, move.to, move.reason)
    requires IntentOf(s.db.row, call, to, reason)
    ensures Writes(s, seen, move, to, reason)
  {
    OneIntent(s.db.row, call, to, reason, move.to, move.reason);
  }

  lemma RecordIsWanted(s: Sys, read: nat, seen: Seen, to: Stage, reason: Reason)
    requires Counted(s) && Recorded(s) && Selected(s) && Enabled(s, Control(read, seen))
    requires Writes(s, seen, StepMove(s.adapter, s.db, read, seen), to, reason)
    ensures Wants(s, read, seen, to, reason)
  {
    var move := StepMove(s.adapter, s.db, read, seen);
    InvIsSound(s);
    if move.Ask? {
      AskDecided(s.adapter, s.db, s.now, read, seen, move.seen);
    } else if move.call == None {
      MoveDecided(s.adapter, s.db, s.now, read, seen, to, reason);
    } else {
      CallDecided(s.adapter, s.db, s.now, read, seen, move.call.value);
    }
  }

  lemma WantedIsRecord(s: Sys, read: nat, seen: Seen, to: Stage, reason: Reason)
    requires Counted(s) && Recorded(s) && Selected(s) && Enabled(s, Control(read, seen))
    requires Wants(s, read, seen, to, reason)
    ensures Writes(s, seen, StepMove(s.adapter, s.db, read, seen), to, reason)
  {
    InvIsSound(s);
    if to == WaitingReady && reason.NotIdle? {
      AskIsRecord(s, read, seen, reason.seen);
    } else if Moves(s.adapter, s.db.row, seen, Displays(s.adapter, s.db, seen), to, reason) {
      MoveDecided(s.adapter, s.db, s.now, read, seen, to, reason);
    } else {
      var call :| Ripe(s.adapter, s.db.row, seen, call) && IntentOf(s.db.row, call, to, reason);
      CallIsRecord(s, read, seen, call, to, reason);
    }
  }

  lemma AskIsRecord(s: Sys, read: nat, seen: Seen, code: nat)
    requires Counted(s) && Recorded(s) && Selected(s) && Enabled(s, Control(read, seen))
    requires Wants(s, read, seen, WaitingReady, NotIdle(code))
    ensures Writes(s, seen, StepMove(s.adapter, s.db, read, seen), WaitingReady, NotIdle(code))
  {
    InvIsSound(s);
    AskDecided(s.adapter, s.db, s.now, read, seen, code);
  }

  lemma CallIsRecord(s: Sys, read: nat, seen: Seen, call: Call, to: Stage, reason: Reason)
    requires Counted(s) && Recorded(s) && Selected(s) && Enabled(s, Control(read, seen))
    requires Open(s) && seen.available && seen.enabled && Ripe(s.adapter, s.db.row, seen, call)
    requires IntentOf(s.db.row, call, to, reason)
    ensures Writes(s, seen, StepMove(s.adapter, s.db, read, seen), to, reason)
  {
    InvIsSound(s);
    CallDecided(s.adapter, s.db, s.now, read, seen, call);
    CallIsWritten(s, seen, StepMove(s.adapter, s.db, read, seen), call, to, reason);
  }

  // The results

  /** A step of the controller starts a call if and only if the cycle is open, the adapter and the
      Enable are there, and the stage and what is seen ask for that call. */
  lemma BeginsIff(s: Sys, read: nat, seen: Seen, call: Call)
    requires Inv(s) && Enabled(s, Control(read, seen))
    ensures
      Begins(s, Next(s, Control(read, seen)), call) <==>
        Open(s) && seen.available && seen.enabled && Ripe(s.adapter, s.db.row, seen, call)
  {
    NewRevision(s);
    StepShows(s, read, seen);
    BeginsShown(s, Next(s, Control(read, seen)), seen, StepMove(s.adapter, s.db, read, seen), call);
    CallIsRipe(s, read, seen, call);
  }

  /** It records a stage if and only if an event is left and that stage is wanted. */
  lemma EntersIff(s: Sys, read: nat, seen: Seen, to: Stage, reason: Reason)
    requires Inv(s) && Enabled(s, Control(read, seen))
    ensures
      Enters(s, Next(s, Control(read, seen)), to, reason) <==>
        s.db.row.events < 15 && Wants(s, read, seen, to, reason)
  {
    StepShows(s, read, seen);
    EntersShown(s, Next(s, Control(read, seen)), seen, StepMove(s.adapter, s.db, read, seen), to, reason);
    if Writes(s, seen, StepMove(s.adapter, s.db, read, seen), to, reason) {
      RecordIsWanted(s, read, seen, to, reason);
    }
    if Wants(s, read, seen, to, reason) {
      WantedIsRecord(s, read, seen, to, reason);
    }
  }

  /** Some stage is wanted. */
  ghost predicate WantsAny(s: Sys, read: nat, seen: Seen) {
    exists to, reason :: Wants(s, read, seen, to, reason)
  }

  lemma EndsShown(s: Sys, t: Sys, seen: Seen, move: Move, why: Why)
    requires Shows(s, t, seen, move) && !Terminal(s.db.row.state)
    ensures
      Ends(s, t, why) <==>
        || (move.End? && move.reason == Because(why))
        || (move.Ask? && !Repeatable(s, seen) && move.orElse == Some(Because(why)))
        || (why == EventLimit && s.db.row.events >= 15 && WritesAny(s, seen, move))
  {
  }

  predicate WritesAny(s: Sys, seen: Seen, move: Move) {
    (Open(s) && move.Step? && move.guard) || (move.Ask? && Repeatable(s, seen))
  }

  lemma AnyIsWanted(s: Sys, read: nat, seen: Seen)
    requires Counted(s) && Recorded(s) && Selected(s) && Enabled(s, Control(read, seen))
    ensures WritesAny(s, seen, StepMove(s.adapter, s.db, read, seen)) <==> WantsAny(s, read, seen)
  {
    var move := StepMove(s.adapter, s.db, read, seen);
    if WritesAny(s, seen, move) {
      var to := if move.Ask? then WaitingReady else move.to;
      var reason := if move.Ask? then NotIdle(move.seen) else move.reason;
      RecordIsWanted(s, read, seen, to, reason);
    }
    if WantsAny(s, read, seen) {
      var to, reason :| Wants(s, read, seen, to, reason);
      WantedIsRecord(s, read, seen, to, reason);
    }
  }

  /** The ends that do not need the event limit, with a request that could not be repeated. */
  lemma EndIsFor(s: Sys, read: nat, seen: Seen, why: Why)
    requires Counted(s) && Recorded(s) && Selected(s) && Enabled(s, Control(read, seen))
    ensures
      var move := StepMove(s.adapter, s.db, read, seen);
      ((move.End? && move.reason == Because(why))
       || (move.Ask? && !Repeatable(s, seen) && move.orElse == Some(Because(why)))) <==>
        EndsFor(s.adapter, s.db.row, read, seen, Repeatable(s, seen), why)
  {
    var move := StepMove(s.adapter, s.db, read, seen);
    InvIsSound(s);
    EndDecided(s.adapter, s.db, s.now, read, seen, why);
    if move.Ask? {
      AskDecided(s.adapter, s.db, s.now, read, seen, move.seen);
    }
    if seen.repeatable.Some? {
      AskDecided(s.adapter, s.db, s.now, read, seen, seen.repeatable.value);
    }
  }

  /** It ends the cycle with a reason if and only if a deadline, the adapter, the Enable or what is seen
      asks for that end, or a stage is wanted and the cycle's events are used up. */
  lemma EndsIff(s: Sys, read: nat, seen: Seen, why: Why)
    requires Inv(s) && Enabled(s, Control(read, seen))
    ensures
      Ends(s, Next(s, Control(read, seen)), why) <==>
        || EndsFor(s.adapter, s.db.row, read, seen, Repeatable(s, seen), why)
        || (why == EventLimit && s.db.row.events >= 15 && WantsAny(s, read, seen))
  {
    StepShows(s, read, seen);
    EndsShown(s, Next(s, Control(read, seen)), seen, StepMove(s.adapter, s.db, read, seen), why);
    EndIsFor(s, read, seen, why);
    AnyIsWanted(s, read, seen);
  }

  /** And otherwise it changes nothing. */
  lemma StepIsSilent(s: Sys, read: nat, seen: Seen)
    requires Inv(s) && Enabled(s, Control(read, seen))
    ensures
      || Next(s, Control(read, seen)) == s
      || (exists to, reason :: Enters(s, Next(s, Control(read, seen)), to, reason))
      || (exists why :: Ends(s, Next(s, Control(read, seen)), why))
  {
    StepShows(s, read, seen);
    ShownIsSilent(s, Next(s, Control(read, seen)), seen, StepMove(s.adapter, s.db, read, seen));
  }

  lemma ShownIsSilent(s: Sys, t: Sys, seen: Seen, move: Move)
    requires Shows(s, t, seen, move)
    ensures t == s || (exists to, reason :: Enters(s, t, to, reason)) || (exists why :: Ends(s, t, why))
  {
  }
}
