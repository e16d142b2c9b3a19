/** An input that is never proven ends its cycle uncertain, whoever ends it. */
module CycleInputs {
  import opened Options
  import opened Cycle
  import opened CycleController
  import opened CycleRuns
  import opened CycleHistory
  import opened CycleSafety
  import opened CycleCalls
  import opened CycleOnce
  import opened CycleInvariant

  /** A handoff that ended at the event limit has no Enable that a fence passes. */
  ghost predicate Switched(s: Sys) {
    && s.db.enable.revision >= s.db.row.enableRevision
    && (Terminal(s.db.row.state) && s.db.row.reason == Because(EventLimit) && !s.db.row.compaction ==>
          !CycleEnabled(s.db))
  }

  /** Without a new row, only a change of the Enable writes. */
  lemma NoRowNoWrite(s: Sys, a: Action)
    requires Enabled(s, a) && Next(s, a).rows == s.rows && !a.SetEnable? && !a.ReadInbox?
    ensures Next(s, a).db == s.db
  {
    match a
    case Control(read, seen) =>
      NoRowNoMake(s, s.db.row, s.db.row.state, StepMove(s.adapter, s.db, read, seen), seen.pinned);
    case Return(revision, result) =>
      var c := s.calls[revision];
      NoRowNoMake(s.(calls := s.calls - {revision}), c.row, CallStage(c.call), ResultMove(c.call, c.row, result), true);
    case _ =>
  }

  lemma NoRowNoMake(s: Sys, row: Row, from: Stage, move: Move, pinned: bool)
    requires Make(s, row, from, move, pinned).rows == s.rows
    ensures Make(s, row, from, move, pinned).db == s.db
  {
  }

  lemma EnableSwitched(s: Sys, a: Action)
    requires Switched(s) && Enabled(s, a) && (a.SetEnable? || a.ReadInbox?)
    ensures Switched(Next(s, a))
  {
  }

  lemma ClosedSwitched(s: Sys, successorEpoch: Option<nat>, outcome: Stage, why: Reason)
    requires Switched(s) && (outcome == Complete ==> why != Because(EventLimit))
    ensures Switched(EndSys(s, successorEpoch, outcome, why))
  {
  }

  lemma SwitchedFrame(s: Sys, t: Sys)
    requires Switched(s) && t.db.enable == s.db.enable && SameCycle(s.db.row, t.db.row)
    requires !Terminal(t.db.row.state) || t.db == s.db
    ensures Switched(t)
  {
  }

  lemma NextSwitched(s: Sys, a: Action, d: Done)
    requires Recorded(s) && Switched(s) && Enabled(s, a) && Did(s, Next(s, a), d)
    requires d.Closed? && d.outcome == Complete ==> d.why != Because(EventLimit)
    ensures Switched(Next(s, a))
  {
    if a.SetEnable? || a.ReadInbox? {
      EnableSwitched(s, a);
    } else {
      var t := Next(s, a);
      match d
      case Nothing =>
        NoRowNoWrite(s, a);
        SwitchedFrame(s, t);
      case Moved(to, reason, change) =>
        StepFollows(s, to, reason, change);
        SwitchedFrame(s, t);
      case Closed(successorEpoch, outcome, why) =>
        ClosedSwitched(s, successorEpoch, outcome, why);
        assert t.db == EndSys(s, successorEpoch, outcome, why).db;
    }
  }

  // Inputs

  /** The inputs of each adapter whose effect a later stage proves. */
  predicate Tracked(adapter: Adapter, call: Call) {
    if adapter == Pane then call == Clear || call == Pickup || call == Compact
    else call == Create || call == Select || call == SendPickup
  }

  /** The event that proves an input: the reset of a clear or a select, the record of a created
      session, the receipt of a pickup, and the display of a session adapter's pickup. */
  predicate Proves(call: Call, e: Event) {
    match call
    case Pickup => e.stage == WaitingPickup
    case SendPickup => e.stage == WaitingPickup && e.reason == PickupDisplayed
    case Create => e.stage == ClearReceived && e.reason == NoReason
    case Compact => e.stage == CompactSent
    case _ => e.stage == ResetVerified
  }

  predicate InputProven(log: seq<Event>, call: Call) {
    exists i :: 0 <= i < |log| && Proves(call, log[i])
  }

  /** The stages between an input's intent and its proof. */
  predicate Limbo(row: Row, call: Call) {
    match call
    case Clear => row.state == ClearIntent || row.state == ClearReceived
    case Create => row.state == ClearIntent && row.successorEpoch == None
    case Select => row.state == ClearReceived && row.reason == SelectSent
    case Pickup => row.state == PickupIntent
    case SendPickup => row.state == PickupIntent || AwaitingPickup(row)
    case Compact => row.state == CompactIntent
    case _ => false
  }

  /** An end that owns up to an unproven input; the report of a session adapter's pickup brings its
      own view of the pane, and a compaction that its own advance ended at the event limit may still
      be submitted. */
  predicate OwnsUp(row: Row, call: Call) {
    || row.state == Uncertain || (call == SendPickup && row.state == Complete)
    || (call == Compact && Terminal(row.state) && row.reason == Because(EventLimit))
  }

  /** The input was made, or nothing can stop it any more. */
  ghost predicate Entered(s: Sys, call: Call) {
    Made(s, call) > 0 || exists r :: r in s.calls && Making(s.calls[r], call) && s.calls[r].fenced
  }

  ghost predicate Accounted(s: Sys, call: Call) {
    Entered(s, call) && !InputProven(s.db.log, call) ==> Limbo(s.db.row, call) || OwnsUp(s.db.row, call)
  }

  lemma ProvenGrows(log: seq<Event>, more: seq<Event>, call: Call)
    requires InputProven(log, call)
    ensures InputProven(log + more, call)
  {
    var i :| 0 <= i < |log| && Proves(call, log[i]);
    assert (log + more)[i] == log[i];
  }

  /** The display query finds the display event. */
  lemma DisplayIsProof(log: seq<Event>, now: nat)
    requires Ordered(log, now)
    ensures PickupIsDisplayed(log) <==> InputProven(log, SendPickup)
  {
    var f := Filter({WaitingPickup}, Exactly(PickupDisplayed), 0);
    FoundIn(log, |log|, f, Ordinal);
    forall i | 0 <= i < |log|
      ensures Matches(f, log[i]) <==> Proves(SendPickup, log[i])
    {
    }
  }

  /** A fence lets an input through only while its intent is the cycle's row. */
  lemma FenceInLimbo(s: Sys, revision: nat, holds: bool, call: Call)
    requires Recorded(s) && Switched(s) && revision in s.calls && CallFitsAt(s, revision)
    requires FencePasses(s, s.calls[revision].row, holds) && Tracked(s.adapter, call) && Making(s.calls[revision], call)
    ensures Limbo(s.db.row, call) || OwnsUp(s.db.row, call)
  {
    CurrentCall(s, revision);
  }

  lemma EdgeLimbo(s: Sys, to: Stage, reason: Reason, change: Change, call: Call)
    requires CanStep(s, to, reason, change) && Limbo(s.db.row, call) && Tracked(s.adapter, call) && Shaped(s.db.row)
    ensures Limbo(StepSys(s, to, reason, change).db.row, call)
            || Proves(call, Event(s.db.row.events + 1, s.now, to, reason)) || Back(s.db.row.state, to)
  {
  }

  lemma ClosedLimbo(s: Sys, successorEpoch: Option<nat>, outcome: Stage, why: Reason, call: Call)
    requires Counted(s) && Tracked(s.adapter, call) && Limbo(s.db.row, call) && !InputProven(s.db.log, call)
    requires outcome == Complete ==> call == SendPickup
    ensures OwnsUp(EndSys(s, successorEpoch, outcome, why).db.row, call)
  {
    if call == SendPickup {
      DisplayIsProof(s.db.log, s.now);
    }
  }

  /** What was done to a row in limbo, but for a return before its intent. */
  lemma DidLimbo(s: Sys, t: Sys, d: Done, call: Call)
    requires Did(s, t, d) && Tracked(s.adapter, call) && Limbo(s.db.row, call) && Counted(s) && Recorded(s)
    requires !InputProven(s.db.log, call)
    requires d.Closed? && d.outcome == Complete ==> call == SendPickup
    requires d.Moved? ==> !Back(s.db.row.state, d.to)
    ensures Limbo(t.db.row, call) || OwnsUp(t.db.row, call) || InputProven(t.db.log, call)
  {
    match d
    case Nothing =>
    case Moved(to, reason, change) =>
      EdgeLimbo(s, to, reason, change, call);
      StepFollows(s, to, reason, change);
      assert t.db.log[|s.db.log|] == Event(s.db.row.events + 1, s.now, to, reason);
    case Closed(successorEpoch, outcome, why) => ClosedLimbo(s, successorEpoch, outcome, why, call);
  }

  lemma DidProven(s: Sys, t: Sys, d: Done, call: Call)
    requires Did(s, t, d) && InputProven(s.db.log, call)
    ensures InputProven(t.db.log, call)
  {
    assert s.db.log <= t.db.log;
    ProvenGrows(s.db.log, t.db.log[|s.db.log|..], call);
    assert t.db.log == s.db.log + t.db.log[|s.db.log|..];
  }

  /** Every fenced call, and every effect, is of a call that was fenced already. */
  ghost predicate NoNewEntry(s: Sys, t: Sys, call: Call) {
    && (Made(t, call) > 0 ==> Entered(s, call))
    && forall r :: r in t.calls && Making(t.calls[r], call) && t.calls[r].fenced ==>
         r in s.calls && Making(s.calls[r], call) && s.calls[r].fenced
  }

  lemma SubmitEntry(s: Sys, t: Sys, revision: nat, call: Call)
    requires Submits(s, t, revision) && s.calls[revision].fenced
    ensures NoNewEntry(s, t, call)
  {
    CountAppend(s.sent, Effect(s.calls[revision].call, revision), call);
  }

  lemma GrowEntry(s: Sys, t: Sys, call: Call)
    requires CallsGrow(s, t)
    ensures NoNewEntry(s, t, call)
  {
    forall r | r in t.calls && Making(t.calls[r], call) && t.calls[r].fenced
      ensures r in s.calls && Making(s.calls[r], call) && s.calls[r].fenced
    {
      assert OldCall(s, t, r) || NewCall(s, t, r);
    }
  }

  lemma SameEntry(s: Sys, t: Sys, call: Call)
    requires t.sent == s.sent && forall r :: r in t.calls ==> r in s.calls && t.calls[r] == s.calls[r]
    ensures NoNewEntry(s, t, call)
  {
  }

  lemma OtherFence(s: Sys, revision: nat, holds: bool, call: Call)
    requires Enabled(s, Fence(revision, holds)) && !Making(s.calls[revision], call)
    ensures NoNewEntry(s, Next(s, Fence(revision, holds)), call)
  {
    var t := Next(s, Fence(revision, holds));
    assert t.sent == s.sent && forall r :: r in t.calls && r != revision ==> r in s.calls && t.calls[r] == s.calls[r];
  }

  lemma GrowingEntry(s: Sys, a: Action, call: Call)
    requires Counted(s) && Recorded(s) && Selected(s) && Enabled(s, a)
    requires !a.Fence? && !a.Submit? && !a.Return? && !a.Crash?
    ensures NoNewEntry(s, Next(s, a), call)
  {
    NextCalls(s, a);
    GrowEntry(s, Next(s, a), call);
  }

  lemma ReturnEntry(s: Sys, revision: nat, result: Result, call: Call)
    requires Enabled(s, Return(revision, result))
    ensures NoNewEntry(s, Next(s, Return(revision, result)), call)
  {
    ReturnCalls(s, revision, result);
    SameEntry(s, Next(s, Return(revision, result)), call);
  }

  /** Nothing enters but through a fence. */
  lemma NextEntry(s: Sys, a: Action, call: Call)
    requires Counted(s) && Recorded(s) && Selected(s) && Enabled(s, a)
    requires !(a.Fence? && Making(s.calls[a.revision], call))
    ensures NoNewEntry(s, Next(s, a), call)
  {
    if a.Submit? {
      SubmitIs(s, a.revision);
      SubmitEntry(s, Next(s, a), a.revision, call);
    } else if a.Return? {
      ReturnEntry(s, a.revision, a.result, call);
    } else if a.Fence? {
      OtherFence(s, a.revision, a.policyHolds, call);
    } else if a.Crash? {
      SameEntry(s, Next(s, a), call);
    } else {
      GrowingEntry(s, a, call);
    }
  }

  lemma EnteredBefore(s: Sys, t: Sys, call: Call)
    requires NoNewEntry(s, t, call) && Entered(t, call)
    ensures Entered(s, call)
  {
  }

  lemma BackFromIntent(s: Sys, to: Stage, reason: Reason, change: Change, call: Call)
    requires CanStep(s, to, reason, change) && Back(s.db.row.state, to) && Limbo(s.db.row, call)
    requires Tracked(s.adapter, call)
    ensures AtIntent(s.db.row, call) && !Terminal(s.db.row.state)
  {
  }

  /** What was done to a cycle whose input was entered, but for a return before its intent. */
  lemma AccountedOn(s: Sys, t: Sys, d: Done, call: Call)
    requires Did(s, t, d) && Counted(s) && Recorded(s) && Tracked(s.adapter, call) && Accounted(s, call)
    requires Entered(s, call)
    requires d.Closed? && Limbo(s.db.row, call) && d.outcome == Complete ==> call == SendPickup
    requires d.Moved? && Limbo(s.db.row, call) ==> !Back(s.db.row.state, d.to)
    ensures Accounted(t, call)
  {
    if InputProven(s.db.log, call) {
      DidProven(s, t, d, call);
    } else if Limbo(s.db.row, call) {
      DidLimbo(s, t, d, call);
    } else {
      EndedStays(s, t, d);
    }
  }

  lemma EndedStays(s: Sys, t: Sys, d: Done)
    requires Did(s, t, d) && Terminal(s.db.row.state)
    ensures t.db.row == s.db.row
  {
  }

  lemma RefusedAccounted(s: Sys, a: Action, d: Done, call: Call)
    requires Recorded(s) && CallsFit(s) && Enabled(s, a) && Once(s, call) && Tracked(s.adapter, call)
    requires Did(s, Next(s, a), d) && d.Moved? && Back(s.db.row.state, d.to) && Limbo(s.db.row, call)
    requires a.Return? && a.revision == s.db.row.revision && a.result.NotSent?
    ensures Accounted(Next(s, a), call)
  {
    assert CallFitsAt(s, a.revision);
    BackFromIntent(s, d.to, d.reason, d.change, call);
    RefusedIsMaking(s, a.revision, a.result, call);
    ReturnCalls(s, a.revision, a.result);
    RefusedNoneMade(s, Next(s, a), a.revision, call);
  }

  lemma FenceAccounted(s: Sys, revision: nat, holds: bool, call: Call)
    requires Recorded(s) && Switched(s) && Enabled(s, Fence(revision, holds)) && CallFitsAt(s, revision)
    requires Making(s.calls[revision], call) && Tracked(s.adapter, call)
    ensures Accounted(Next(s, Fence(revision, holds)), call)
  {
    FenceInLimbo(s, revision, holds, call);
    assert Next(s, Fence(revision, holds)).db == s.db;
  }

  /** Of the stages in limbo, only those of a session adapter's pickup take its report. */
  lemma LimboTakesNoReport(row: Row, call: Call)
    requires Limbo(row, call) && call != SendPickup
    ensures !AcceptsPickupReport(row) && row.state != CompactSent
  {
  }

  lemma OtherAccounted(s: Sys, a: Action, d: Done, call: Call)
    requires Counted(s) && Recorded(s) && Selected(s) && CallsFit(s)
    requires Enabled(s, a) && Once(s, call) && Tracked(s.adapter, call) && Accounted(s, call)
    requires !(a.Fence? && Making(s.calls[a.revision], call))
    requires Did(s, Next(s, a), d)
    requires d.Moved? && Back(s.db.row.state, d.to) ==>
               a.Return? && a.revision == s.db.row.revision && a.result.NotSent?
    requires d.Closed? && d.outcome == Complete ==> AcceptsPickupReport(s.db.row) || s.db.row.state == CompactSent
    ensures Accounted(Next(s, a), call)
  {
    if Entered(Next(s, a), call) {
      NextEntry(s, a, call);
      EnteredBefore(s, Next(s, a), call);
      if d.Moved? && Back(s.db.row.state, d.to) && Limbo(s.db.row, call) {
        RefusedAccounted(s, a, d, call);
      } else {
        if Limbo(s.db.row, call) && call != SendPickup {
          LimboTakesNoReport(s.db.row, call);
        }
        AccountedOn(s, Next(s, a), d, call);
      }
    }
  }

  lemma NextAccounted(s: Sys, a: Action, call: Call)
    requires Counted(s) && Recorded(s) && Selected(s) && CallsFit(s)
    requires Switched(s) && Enabled(s, a) && Once(s, call) && Tracked(s.adapter, call) && Accounted(s, call)
    ensures Accounted(Next(s, a), call)
  {
    if a.Fence? && Making(s.calls[a.revision], call) {
      assert CallFitsAt(s, a.revision);
      FenceAccounted(s, a.revision, a.policyHolds, call);
    } else {
      var d := NextDid(s, a);
      OtherAccounted(s, a, d, call);
    }
  }

  // Completion

  /** A completed handoff followed from a report, a clear and the proof of its reset; it has the
      artifact of the latest report and the epoch that the reset proved. */
  ghost predicate WellCompleted(s: Sys) {
    var row := s.db.row;
    row.state == Complete && !row.compaction ==>
      && Reset(s.db.log) && s.report.Some? && row.artifact == Some(s.report.value.artifact)
      && row.successorEpoch.Some? && row.successorEpoch != Some(row.epoch) && ProvenEpoch(s)
  }

  lemma ResetStays(log: seq<Event>, more: seq<Event>)
    requires Reset(log)
    ensures Reset(log + more)
  {
    var i, j, k :| ResetAt(log, i, j, k);
    assert ResetAt(log + more, i, j, k);
  }

  lemma ProvenStays(s: Sys, t: Sys)
    requires ProvenEpoch(s) && t.rows == s.rows + [t.db.row] && t.db.row.successorEpoch == s.db.row.successorEpoch
    ensures ProvenEpoch(t)
  {
    var k :| 0 <= k < |s.rows| && s.rows[k].state == ResetVerified &&
             s.rows[k].successorEpoch == s.db.row.successorEpoch;
    assert t.rows[k] == s.rows[k];
  }

  /** The pickup report of the claim completes the cycle. */
  lemma ClaimCompletes(s: Sys, t: Sys, claim: Claim, why: Reason)
    requires Core(s) && !Terminal(s.db.row.state) && AcceptsPickupReport(s.db.row) && !s.db.row.compaction
    requires s.db.row.successorEpoch == claim.successorEpoch && claim.epoch != s.db.row.epoch
    requires claim.successorEpoch.Some? ==> claim.successorEpoch == Some(claim.epoch)
    requires Did(s, t, Closed(Some(claim.epoch), Complete, why))
    ensures WellCompleted(t)
  {
    var more := EndCloses(s, Some(claim.epoch), Complete, why);
    assert Post(s.db.row);
    ResetStays(s.db.log, more);
    ProvenStays(s, t);
  }

  lemma CompletedStays(s: Sys, t: Sys, d: Done)
    requires Recorded(s) && Did(s, t, d) && WellCompleted(s)
    requires d.Closed? && !s.db.row.compaction ==> d.outcome != Complete
    ensures WellCompleted(t)
  {
    match d
    case Nothing =>
    case Moved(to, reason, change) => StepFollows(s, to, reason, change);
    case Closed(_, _, _) =>
  }

  lemma NextCompleted(s: Sys, a: Action)
    requires Inv(s) && Enabled(s, a) && WellCompleted(s)
    ensures WellCompleted(Next(s, a))
  {
    var d := NextDid(s, a);
    if d.Closed? && d.outcome == Complete && !s.db.row.compaction {
      NotCompacting(s);
      ClaimCompletes(s, Next(s, a), s.claims[a.id], d.why);
    } else {
      CompletedStays(s, Next(s, a), d);
    }
  }

  lemma NotCompacting(s: Sys)
    requires Recorded(s) && !s.db.row.compaction
    ensures s.db.row.state != CompactSent
  {
  }

  // Every run

  ghost predicate AllOnce(s: Sys) {
    forall call :: Claimed(s.adapter, call) ==> Once(s, call)
  }

  ghost predicate AllAccounted(s: Sys) {
    forall call :: Tracked(s.adapter, call) ==> Accounted(s, call)
  }

  /** What every run of a cycle keeps. */
  ghost predicate Safe(s: Sys) {
    Inv(s) && Switched(s) && AllOnce(s) && AllAccounted(s) && WellCompleted(s)
  }

  lemma NextAllOnce(s: Sys, a: Action)
    requires Inv(s) && AllOnce(s) && Enabled(s, a) && Next(s, a).adapter == s.adapter
    ensures AllOnce(Next(s, a))
  {
    forall call | Claimed(s.adapter, call)
      ensures Once(Next(s, a), call)
    {
      NextOnce(s, a, call);
    }
  }

  lemma NextAllAccounted(s: Sys, a: Action)
    requires Counted(s) && Recorded(s) && Selected(s) && CallsFit(s)
    requires Switched(s) && AllOnce(s) && AllAccounted(s) && Enabled(s, a) && Next(s, a).adapter == s.adapter
    ensures AllAccounted(Next(s, a))
  {
    forall call | Tracked(s.adapter, call)
      ensures Accounted(Next(s, a), call)
    {
      assert Claimed(s.adapter, call);
      NextAccounted(s, a, call);
    }
  }

  lemma NextSafe(s: Sys, a: Action)
    requires Safe(s) && Enabled(s, a)
    ensures Safe(Next(s, a))
  {
    var d := NextDid(s, a);
    NextInv(s, a);
    NextSwitched(s, a, d);
    NextCompleted(s, a);
    NextAllOnce(s, a);
    NextAllAccounted(s, a);
  }

  lemma {:induction false} RunSafe(s: Sys, actions: seq<Action>)
    requires Safe(s) && Runs(s, actions)
    ensures Safe(After(s, actions))
    decreases |actions|
  {
    if actions != [] {
      NextSafe(s, actions[0]);
      RunSafe(Next(s, actions[0]), actions[1..]);
    }
  }

  lemma AdmittedSafe(adapter: Adapter, compaction: bool, enable: Enable, epoch: nat, now: nat)
    ensures Safe(Admitted(adapter, compaction, enable, epoch, now))
  {
    var s := Admitted(adapter, compaction, enable, epoch, now);
    assert MaxOf(s.db.log, 1, REPEATED, At) == None;
    assert MinOf(s.db.log, 1, PROVEN, Ordinal) == None;
    assert MaxOf(s.db.log, 1, REPORTED, Ordinal) == None;
    assert MinOf(s.db.log, 1, Stages({WaitingPickup}), Ordinal) == None;
    assert MaxOf(s.db.log, 1, Stages({Ready}), Ordinal) == None;
    assert MaxOf(s.db.log, 1, Filter({ClearReceived}, Exactly(SelectSent), 0), Ordinal) == None;
  }
}
