/** How an end leaves a cycle: its outcome, its last events and the requester's Enable, whoever ends it
    (internal/core/context_cycle.go). */
module CycleEnds {
  import opened Options
  import opened Cycle
  import opened CycleController
  import opened CycleRuns
  import opened CycleHistory
  import opened CycleSafety
  import opened CycleCalls
  import opened CycleInvariant
  import opened CycleDecisions
  import opened CycleResults

  /** An input is recorded whose effect nothing proves. */
  ghost predicate Unsettled(s: Sys) {
    || s.db.row.state in {ClearIntent, ClearReceived, PickupIntent, PromptIntent, CompactIntent}
    || (s.adapter == Session && AwaitingPickup(s.db.row)
        && forall i :: 0 <= i < |s.db.log| ==>
             !(s.db.log[i].stage == WaitingPickup && s.db.log[i].reason == PickupDisplayed))
  }

  lemma UnsettledIs(s: Sys)
    requires Ordered(s.db.log, s.now)
    ensures Unproven(s.db, s.adapter) <==> Unsettled(s)
  {
    DisplayedIs(s.db, s.now);
  }

  ghost predicate Finishes(s: Sys, t: Sys) {
    !Terminal(s.db.row.state) && Terminal(t.db.row.state)
  }

  // The outcome

  /** The report that completes the cycle. */
  predicate Completes(a: Action) {
    a.PickupWrite? || (a.EndBy? && a.outcome == Complete)
  }

  /** What the controller sees makes its end a cancellation. */
  predicate Cancels(adapter: Adapter, row: Row, read: nat, seen: Seen) {
    || (InTime(row, read) && (!seen.available || !seen.enabled))
    || (row.state == CompactWaiting
        && (Late(row, read)
            || (Acts(row, read, seen) && (adapter == Session || (seen.pane == Idle && seen.compaction.Stale?)))))
  }

  /** t is s after an end with the asked outcome; a report sets the successor's epoch with it. */
  ghost predicate EndedAs(s: Sys, t: Sys, successor: Option<nat>, outcome: Stage) {
    t.db == EndTx(s.db.(row := s.db.row.(successorEpoch := successor)), s.adapter, s.now, outcome, t.db.row.reason)
  }

  function Asked(move: Move): Stage {
    if move.End? then move.outcome else Failed
  }

  lemma MakeFinishes(s: Sys, row: Row, from: Stage, move: Move, pinned: bool)
    requires !Terminal(s.db.row.state) && (move.Step? ==> !Terminal(move.to))
    ensures
      var t := Make(s, row, from, move, pinned);
      Terminal(t.db.row.state) ==> EndedAs(s, t, s.db.row.successorEpoch, Asked(move))
  {
    assert s.db.(row := s.db.row.(successorEpoch := s.db.row.successorEpoch)) == s.db;
  }

  lemma ControlAsks(adapter: Adapter, db: Db, clock: nat, read: nat, seen: Seen)
    requires Sound(adapter, db, clock)
    ensures
      var move := StepMove(adapter, db, read, seen);
      && (move.Step? ==> !Terminal(move.to))
      && (move.End? && move.outcome == Cancelled <==> Cancels(adapter, db.row, read, seen))
      && (move.End? && move.outcome == Uncertain ==> InputUnproven(db.row.state))
      && (move.End? ==> move.outcome in {Cancelled, Failed, Uncertain})
  {
  }

  lemma ControlFinishes(s: Sys, read: nat, seen: Seen) returns (outcome: Stage)
    requires Inv(s) && Enabled(s, Control(read, seen)) && Finishes(s, Next(s, Control(read, seen)))
    ensures EndedAs(s, Next(s, Control(read, seen)), s.db.row.successorEpoch, outcome)
    ensures outcome in {Cancelled, Failed, Uncertain} && (outcome == Uncertain ==> Unsettled(s))
    ensures outcome == Cancelled <==> Cancels(s.adapter, s.db.row, read, seen)
  {
    var move := StepMove(s.adapter, s.db, read, seen);
    InvIsSound(s);
    ControlAsks(s.adapter, s.db, s.now, read, seen);
    MakeFinishes(s, s.db.row, s.db.row.state, move, seen.pinned);
    outcome := Asked(move);
  }

  lemma ResultFinishes(u: Sys, c: InFlight, result: Result)
    requires Shaped(u.db.row) && c.row == u.db.row && u.db.row.state == CallStage(c.call)
    requires CallFits(u.adapter, c) && HonestResult(c, result)
    ensures
      var t := Make(u, c.row, CallStage(c.call), ResultMove(c.call, c.row, result), true);
      && (Terminal(t.db.row.state) ==>
            EndedAs(u, t, u.db.row.successorEpoch, Asked(ResultMove(c.call, c.row, result))))
      && Asked(ResultMove(c.call, c.row, result)) in {Uncertain, Failed}
  {
    ResultShape(c.row, c.call, result);
    ResultIsEdge(u.adapter, u.db, c, result);
    MakeFinishes(u, c.row, CallStage(c.call), ResultMove(c.call, c.row, result), true);
  }

  lemma ReturnFinishes(s: Sys, revision: nat, result: Result) returns (outcome: Stage)
    requires Recorded(s) && CallsFit(s) && Enabled(s, Return(revision, result))
    requires Finishes(s, Next(s, Return(revision, result)))
    ensures EndedAs(s, Next(s, Return(revision, result)), s.db.row.successorEpoch, outcome)
    ensures (outcome == Uncertain && Unsettled(s)) || outcome == Failed
  {
    if Current(s, revision) {
      CurrentFits(s, revision);
      var c := s.calls[revision];
      ResultFinishes(Settled(s, revision), c, result);
      outcome := Asked(ResultMove(c.call, c.row, result));
    } else {
      OlderResult(s, revision, result);
      outcome := Failed;
    }
  }

  lemma NextFinishes(s: Sys, a: Action) returns (successor: Option<nat>, outcome: Stage)
    requires Inv(s) && Enabled(s, a) && Finishes(s, Next(s, a))
    ensures EndedAs(s, Next(s, a), successor, outcome)
    ensures outcome == Complete <==> Completes(a)
    ensures outcome == Uncertain ==> Unsettled(s) || (a.EndBy? && a.outcome == Uncertain)
    ensures a.EndBy? ==> outcome == a.outcome
    ensures outcome == Cancelled ==>
              (a.EndBy? && a.outcome == Cancelled)
              || (a.Control? && Cancels(s.adapter, s.db.row, a.read, a.seen))
    ensures a.Control? && Cancels(s.adapter, s.db.row, a.read, a.seen) ==> outcome == Cancelled
  {
    successor := s.db.row.successorEpoch;
    if a.Control? {
      outcome := ControlFinishes(s, a.read, a.seen);
    } else if a.Return? {
      outcome := ReturnFinishes(s, a.revision, a.result);
    } else if a.PickupWrite? {
      successor, outcome := Some(s.claims[a.id].epoch), Complete;
    } else {
      outcome := if a.EndBy? then a.outcome else Failed;
      CallerFinishes(s, a);
    }
  }

  lemma CallerFinishes(s: Sys, a: Action)
    requires Enabled(s, a) && Finishes(s, Next(s, a)) && !a.Control? && !a.Return? && !a.PickupWrite?
    ensures EndedAs(s, Next(s, a), s.db.row.successorEpoch, if a.EndBy? then a.outcome else Failed)
    ensures a.EndBy? ==> Terminal(a.outcome)
  {
    assert s.db.(row := s.db.row.(successorEpoch := s.db.row.successorEpoch)) == s.db;
  }

  lemma EndedState(s: Sys, t: Sys, successor: Option<nat>, outcome: Stage)
    requires Ordered(s.db.log, s.now) && EndedAs(s, t, successor, outcome)
    ensures t.db.row.state == if outcome != Complete && Unsettled(s) then Uncertain else outcome
  {
    UnsettledIs(s);
  }

  /** Only a report completes a cycle. Every other end after an input without its proof is uncertain,
      whoever makes it; and of the rest, the controller's cancels for a closed adapter, a changed Enable or
      a compaction that may not go, and fails else. */
  lemma OutcomeIs(s: Sys, a: Action)
    requires Inv(s) && Enabled(s, a) && Finishes(s, Next(s, a))
    ensures
      var outcome := Next(s, a).db.row.state;
      && (outcome == Complete <==> Completes(a))
      && (outcome == Uncertain <==> !Completes(a) && (Unsettled(s) || (a.EndBy? && a.outcome == Uncertain)))
      && (outcome == Cancelled <==>
            && !Unsettled(s)
            && ((a.EndBy? && a.outcome == Cancelled)
                || (a.Control? && Cancels(s.adapter, s.db.row, a.read, a.seen))))
  {
    var successor, outcome := NextFinishes(s, a);
    EndedState(s, Next(s, a), successor, outcome);
  }

  // The Enable and the history

  /** The end is a ready timeout before any input, the first under the Enable in this epoch. */
  ghost predicate KeepsTimeout(s: Sys, t: Sys) {
    && t.db.row.state == Failed && s.db.row.state == WaitingReady && t.db.row.reason == Because(ReadyTimeout)
    && (forall i :: 0 <= i < |s.db.log| ==>
          s.db.log[i].stage !in {ClearIntent, PickupIntent, PromptIntent, CompactIntent})
    && s.db.enable.enabled && s.db.enable.revision == s.db.row.enableRevision
    && !(s.db.enable.keptRevision == s.db.enable.revision && s.db.enable.keptEpoch == Some(s.db.row.epoch))
  }

  /** The end is a compaction's before its input, or under another epoch. */
  ghost predicate KeepsCompaction(s: Sys, t: Sys) {
    s.db.row.compaction && (s.db.row.state == CompactWaiting || t.db.row.reason == Because(EpochChanged))
  }

  lemma NoInput(log: seq<Event>, now: nat)
    requires Ordered(log, now)
    ensures InputEntered(log) <==>
              exists i :: 0 <= i < |log| && log[i].stage in {ClearIntent, PickupIntent, PromptIntent, CompactIntent}
  {
    var f := Stages({ClearIntent, PickupIntent, PromptIntent, CompactIntent});
    FoundIn(log, |log|, f, Ordinal);
  }

  lemma KeptIs(s: Sys, t: Sys, successor: Option<nat>)
    requires Ordered(s.db.log, s.now)
    ensures TimeoutKeepsEnable(s.db.(row := s.db.row.(successorEpoch := successor)), t.db.row.state, t.db.row.reason)
            <==> KeepsTimeout(s, t)
  {
    NoInput(s.db.log, s.now);
  }

  /** t has the Enable as it was, as a kept timeout leaves it, or turned off. */
  ghost predicate EnableAfter(before: Enable, after: Enable, epoch: nat, keeps: bool, timeout: bool) {
    if keeps then after == before
    else if timeout
    then
      && after.enabled && after.revision == before.revision
      && after.keptEpoch == Some(epoch) && after.keptRevision == after.revision && !after.keptRead
    else
      && !after.enabled && after.revision == before.revision + (if before.enabled then 1 else 0)
      && after.keptEpoch == before.keptEpoch && after.keptRevision == before.keptRevision
      && after.keptRead == before.keptRead
  }

  lemma EndedEnable(s: Sys, t: Sys, successor: Option<nat>, outcome: Stage)
    requires Ordered(s.db.log, s.now) && EndedAs(s, t, successor, outcome)
    ensures EnableAfter(s.db.enable, t.db.enable, s.db.row.epoch, t.db.row.state == Complete || KeepsCompaction(s, t),
                        KeepsTimeout(s, t))
    ensures
      var ended := s.db.log + [Event(s.db.row.events + 1, s.now, t.db.row.state, t.db.row.reason)];
      t.db.log == if KeepsTimeout(s, t)
                  then ended + [Event(s.db.row.events + 2, s.now, EnableKept, Because(ReadyTimeout))]
                  else ended
    ensures t.db.row == s.db.row.(revision := s.db.row.revision + 1, state := t.db.row.state, reason := t.db.row.reason,
                                  successorEpoch := successor, events := |t.db.log| - |s.db.log| + s.db.row.events,
                                  credit := 0)
  {
    KeptIs(s, t, successor);
  }

  /** An end adds its event, and the mark of a kept timeout, and turns the Enable off; but the Enable stays
      after a completion, a compaction that ended before its input or under another epoch, and the first
      ready timeout before any input, which the Enable then records. */
  lemma EndLeaves(s: Sys, a: Action)
    requires Inv(s) && Enabled(s, a) && Finishes(s, Next(s, a))
    ensures
      var t := Next(s, a);
      && EnableAfter(s.db.enable, t.db.enable, s.db.row.epoch, t.db.row.state == Complete || KeepsCompaction(s, t),
                     KeepsTimeout(s, t))
      && t.db.log == s.db.log + [Event(s.db.row.events + 1, s.now, t.db.row.state, t.db.row.reason)]
                     + (if KeepsTimeout(s, t)
                        then [Event(s.db.row.events + 2, s.now, EnableKept, Because(ReadyTimeout))]
                        else [])
      && t.db.row.revision == s.db.row.revision + 1 && t.db.row.credit == 0 && t.db.row.events == |t.db.log|
  {
    var successor, outcome := NextFinishes(s, a);
    EndedEnable(s, Next(s, a), successor, outcome);
  }
}
