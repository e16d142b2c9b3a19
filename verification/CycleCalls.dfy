/** The moves of the controller and of the calls are the transitions of CycleSafety, so every run
    keeps its invariant. */
module CycleCalls {
  import opened Options
  import opened Cycle
  import opened CycleController
  import opened CycleRuns
  import opened CycleSafety

  /** A call in flight fits the row that its advance returned, which is in the history. */
  ghost predicate CallFits(adapter: Adapter, c: InFlight) {
    && (if Terminal(c.row.state) then c.row.reason == Because(EventLimit)
        else
          && c.row.state == CallStage(c.call) && Shaped(c.row)
          && (c.call == Select ==> c.row.reason == SelectSent)
          && (c.call == Create ==> c.kept == c.row.successorEpoch))
    && (c.call == Clear || c.call == Pickup ==> adapter == Pane)
    && (c.call == Create || c.call == Select || c.call == SendPickup ==> adapter == Session)
    && (c.call == Compact <==> c.row.compaction)
    && (c.submitted ==> c.fenced && MakesRequest(c))
  }

  ghost predicate CallFitsAt(s: Sys, r: nat)
    requires r in s.calls
  {
    && 1 <= r <= |s.rows| && s.calls[r].row == s.rows[r - 1] && s.calls[r].row.revision == r
    && CallFits(s.adapter, s.calls[r])
  }

  ghost predicate CallsFit(s: Sys) {
    forall r :: r in s.calls ==> CallFitsAt(s, r)
  }

  ghost predicate ClaimsFit(s: Sys) {
    forall id :: id in s.claims ==>
      && s.claims[id].epoch != s.db.row.epoch
      && (s.claims[id].successorEpoch.Some? ==> s.claims[id].successorEpoch == Some(s.claims[id].epoch))
  }

  ghost predicate Inv(s: Sys) {
    Core(s) && CallsFit(s) && ClaimsFit(s)
  }

  /** A return to the stage before an input. */
  predicate Back(from: Stage, to: Stage) {
    ((from == ClearIntent || from == ClearReceived) && to == Ready) || (from == CompactIntent && to == CompactWaiting)
  }

  // Moves are edges

  lemma PaneIsEdge(adapter: Adapter, db: Db, seen: Seen)
    requires Shaped(db.row) && (db.row.state == Ready || db.row.state == ResetVerified)
    ensures
      var move := PaneMove(adapter, db.row, seen);
      && (move.Step? ==> Edge(adapter, db, move.to, move.reason, move.change) && !Back(db.row.state, move.to))
      && (move.End? ==> Terminal(move.outcome) && move.outcome != Complete)
      && (move.Ask? ==> db.row.state == Ready)
  {
  }

  lemma ControlIsEdge(adapter: Adapter, db: Db, now: nat, seen: Seen)
    requires Shaped(db.row) && !Terminal(db.row.state) && HonestProof(adapter, db.row, seen)
    ensures
      var move := StepMove(adapter, db, now, seen);
      && (move.Step? ==>
            && Edge(adapter, db, move.to, move.reason, move.change) && db.row.state != WaitingReady
            && !Back(db.row.state, move.to))
      && (move.End? ==> Terminal(move.outcome) && move.outcome != Complete)
      && (move.Ask? ==> db.row.state == Ready)
  {
    if db.row.state == Ready || db.row.state == ResetVerified {
      PaneIsEdge(adapter, db, seen);
    }
  }

  lemma ResultIsEdge(adapter: Adapter, db: Db, c: InFlight, result: Result)
    requires Shaped(db.row) && !Terminal(db.row.state) && c.row == db.row && CallFits(adapter, c)
    requires HonestResult(c, result)
    ensures
      var move := ResultMove(c.call, c.row, result);
      && (move.Step? ==> Edge(adapter, db, move.to, move.reason, move.change) && move.call == None)
      && (move.End? ==> Terminal(move.outcome) && move.outcome != Complete)
      && !move.Ask?
  {
  }

  /** The calls that an advance of the controller starts. */
  lemma ControlCall(adapter: Adapter, db: Db, now: nat, seen: Seen)
    requires Shaped(db.row) && !Terminal(db.row.state)
    requires db.row.state == ClearReceived ==> (SelectRecorded(db.log) <==> db.row.reason == SelectSent)
    ensures
      var move := StepMove(adapter, db, now, seen);
      move.Step? && move.call.Some? ==> Starts(adapter, db.row, move)
  {
  }

  predicate Starts(adapter: Adapter, row: Row, move: Move)
    requires move.Step? && move.call.Some?
  {
    var call := move.call.value;
    && move.to == CallStage(call) && move.change == Same && StartsFrom(row, call)
    && (call == Select ==> move.reason == SelectSent)
    && (call == Clear || call == Pickup ==> adapter == Pane)
    && (call == Create || call == Select || call == SendPickup ==> adapter == Session)
    && (call == Compact <==> row.compaction)
  }

  /** The stage from which a call starts. */
  predicate StartsFrom(row: Row, call: Call) {
    match call
    case Clear => row.state == Ready
    case Create => row.state == Ready
    case Select => row.state == ClearReceived && row.reason != SelectSent
    case Pickup => row.state == ResetVerified
    case SendPickup => row.state == ResetVerified
    case Answer => row.state == WaitingPrompt
    case Choose => row.state == WaitingPrompt
    case Compact => row.state == CompactWaiting
  }

  /** What a transaction did to the row and its history: nothing, a transition or an end. */
  datatype Done =
    | Nothing
    | Moved(to: Stage, reason: Reason, change: Change)
    | Closed(successorEpoch: Option<nat>, outcome: Stage, why: Reason)

  ghost predicate Did(s: Sys, t: Sys, d: Done) {
    && t.adapter == s.adapter
    && match d
       case Nothing =>
         && t.db.row == s.db.row && t.db.log == s.db.log && t.rows == s.rows && t.report == s.report
         && t.now >= s.now
       case Moved(to, reason, change) =>
         && CanStep(s, to, reason, change) && t.db == StepSys(s, to, reason, change).db && t.rows == s.rows + [t.db.row]
         && t.report == StepSys(s, to, reason, change).report && t.now == s.now
       case Closed(successorEpoch, outcome, why) =>
         && !Terminal(s.db.row.state) && Terminal(outcome)
         && t.db == EndSys(s, successorEpoch, outcome, why).db && t.rows == s.rows + [t.db.row]
         && t.report == s.report && t.now == s.now
  }

  lemma DidKeeps(s: Sys, t: Sys, d: Done)
    requires Core(s) && Did(s, t, d)
    ensures Core(t)
  {
    match d
    case Nothing => CoreFrame(s, t);
    case Moved(to, reason, change) =>
      StepCore(s, to, reason, change);
      CoreFrame(StepSys(s, to, reason, change), t);
    case Closed(successorEpoch, outcome, why) =>
      EndCore(s, successorEpoch, outcome, why);
      CoreFrame(EndSys(s, successorEpoch, outcome, why), t);
  }

  // Each action does one of them

  lemma EndDid(s: Sys, revision: nat, outcome: Stage, reason: Reason) returns (d: Done)
    requires Terminal(outcome)
    ensures Did(s, EndAt(s, revision, outcome, reason), d)
    ensures d == Nothing || d == Closed(s.db.row.successorEpoch, outcome, reason)
    ensures d == Nothing ==> EndAt(s, revision, outcome, reason) == s
  {
    if Terminal(s.db.row.state) || (revision != 0 && s.db.row.revision != revision) {
      d := Nothing;
    } else {
      d := Closed(s.db.row.successorEpoch, outcome, reason);
      assert s.db.(row := s.db.row.(successorEpoch := s.db.row.successorEpoch)) == s.db;
    }
  }

  function AdvanceOf(s: Sys, revision: nat, from: Stage, move: Move): Written
    requires move.Step?
  {
    Advance(s.db, s.adapter, s.now, revision, from, move.to, move.reason, move.guard, move.change)
  }

  lemma AdvancedIs(s: Sys, revision: nat, from: Stage, move: Move)
    requires move.Step? && !Terminal(from) && AdvanceOf(s, revision, from, move).Advanced?
    requires Edge(s.adapter, s.db, move.to, move.reason, move.change)
    ensures revision == s.db.row.revision && from == s.db.row.state
    ensures CanStep(s, move.to, move.reason, move.change)
    ensures AdvanceOf(s, revision, from, move).db == StepSys(s, move.to, move.reason, move.change).db
  {
  }

  lemma EndedIs(s: Sys, revision: nat, from: Stage, move: Move)
    requires move.Step? && !Terminal(from) && AdvanceOf(s, revision, from, move).Ended?
    ensures revision == s.db.row.revision && from == s.db.row.state
    ensures AdvanceOf(s, revision, from, move).db == EndSys(s, s.db.row.successorEpoch, Failed, Because(EventLimit)).db
  {
    assert s.db.(row := s.db.row.(successorEpoch := s.db.row.successorEpoch)) == s.db;
  }

  lemma AdvanceAtIs(s: Sys, row: Row, from: Stage, move: Move)
    requires move.Step?
    ensures
      var t, w := AdvanceAt(s, row, from, move), AdvanceOf(s, row.revision, from, move);
      && t.adapter == s.adapter && t.now == s.now && t.report == s.report && t.claims == s.claims && t.sent == s.sent
      && (w == Refused ==> t == s)
      && (w.Advanced? ==> t.db == w.db && t.rows == s.rows + [w.db.row])
      && (w.Ended? ==> t.db == w.db && t.rows == s.rows + [w.db.row])
  {
  }

  lemma AdvanceDid(s: Sys, row: Row, from: Stage, move: Move) returns (d: Done)
    requires move.Step? && from != WaitingReady && !Terminal(from)
    requires row.revision == s.db.row.revision && from == s.db.row.state ==>
               Edge(s.adapter, s.db, move.to, move.reason, move.change)
    ensures Did(s, AdvanceAt(s, row, from, move), d)
    ensures d == Nothing || d == Moved(move.to, move.reason, move.change)
            || d == Closed(s.db.row.successorEpoch, Failed, Because(EventLimit))
    ensures d == Nothing ==> AdvanceAt(s, row, from, move) == s
    ensures d != Nothing ==> row.revision == s.db.row.revision && from == s.db.row.state
  {
    AdvanceAtIs(s, row, from, move);
    match AdvanceOf(s, row.revision, from, move)
    case Refused => d := Nothing;
    case Advanced(_) =>
      d := Moved(move.to, move.reason, move.change);
      AdvancedIs(s, row.revision, from, move);
    case Ended(_) =>
      d := Closed(s.db.row.successorEpoch, Failed, Because(EventLimit));
      EndedIs(s, row.revision, from, move);
  }

  /** A repeated request is the transition back to waiting_ready. */
  lemma RepeatIsStep(s: Sys, row: Row, seen: nat, pinned: bool)
    requires Counted(s) && Shaped(s.db.row) && RepeatRequest(s.db, s.now, row.revision, seen, pinned).Repeat?
    ensures CanStep(s, WaitingReady, NotIdle(seen), DropArtifact)
    ensures RepeatRequest(s.db, s.now, row.revision, seen, pinned).db ==
              Stepped(s.db, s.now, WaitingReady, NotIdle(seen), DropArtifact)
  {
    RequestAppend(s.db.log, s.now, Event(s.db.row.events + 1, s.now, WaitingReady, NotIdle(seen)), s.db.row.createdAt);
  }

  lemma AskDid(s: Sys, row: Row, seen: nat, orElse: Option<Reason>, pinned: bool) returns (d: Done)
    requires Counted(s) && Shaped(s.db.row)
    ensures Did(s, AskAt(s, row, seen, orElse, pinned), d)
    ensures d == Nothing || d == Moved(WaitingReady, NotIdle(seen), DropArtifact) || d.Closed?
    ensures d.Closed? ==> d.successorEpoch == s.db.row.successorEpoch && d.outcome == Failed
    ensures d == Nothing ==> AskAt(s, row, seen, orElse, pinned) == s
  {
    match RepeatRequest(s.db, s.now, row.revision, seen, pinned)
    case Repeat(db) =>
      RepeatIsStep(s, row, seen, pinned);
      d := Moved(WaitingReady, NotIdle(seen), DropArtifact);
    case RepeatLimit => d := EndDid(s, row.revision, Failed, Because(EventLimit));
    case RepeatRefused =>
      if orElse == None {
        d := Nothing;
      } else {
        d := EndDid(s, row.revision, Failed, orElse.value);
      }
  }

  /** A move at the current row or at an earlier one. */
  lemma MakeDid(s: Sys, row: Row, from: Stage, move: Move, pinned: bool) returns (d: Done)
    requires Counted(s) && Shaped(s.db.row) && from != WaitingReady && !Terminal(from)
    requires move.Step? && row.revision == s.db.row.revision && from == s.db.row.state ==>
               Edge(s.adapter, s.db, move.to, move.reason, move.change)
    requires move.End? ==> Terminal(move.outcome) && move.outcome != Complete
    ensures Did(s, Make(s, row, from, move, pinned), d)
    ensures d.Moved? ==>
              (move.Step? && d == Moved(move.to, move.reason, move.change)) || (move.Ask? && d.to == WaitingReady)
    ensures d.Closed? ==> d.successorEpoch == s.db.row.successorEpoch && d.outcome != Complete
    ensures d == Nothing ==> Make(s, row, from, move, pinned) == s
    ensures d.Moved? && move.Step? ==> row.revision == s.db.row.revision && from == s.db.row.state
  {
    match move
    case Wait => d := Nothing;
    case End(outcome, reason) => d := EndDid(s, row.revision, outcome, reason);
    case Step(_, _, _, _, _) => d := AdvanceDid(s, row, from, move);
    case Ask(code, orElse) => d := AskDid(s, row, code, orElse, pinned);
  }

  /** waiting_ready only waits or ends. */
  lemma WaitingDid(s: Sys, now: nat, seen: Seen) returns (d: Done)
    requires s.db.row.state == WaitingReady
    ensures Did(s, Make(s, s.db.row, WaitingReady, StepMove(s.adapter, s.db, now, seen), seen.pinned), d)
    ensures d == Nothing || (d.Closed? && d.successorEpoch == s.db.row.successorEpoch && d.outcome != Complete)
  {
    var move := StepMove(s.adapter, s.db, now, seen);
    assert move == Wait || (move.End? && Terminal(move.outcome) && move.outcome != Complete);
    if move == Wait {
      d := Nothing;
    } else {
      d := EndDid(s, s.db.row.revision, move.outcome, move.reason);
    }
  }

  lemma ControlDid(s: Sys, now: nat, seen: Seen) returns (d: Done)
    requires Counted(s) && Shaped(s.db.row) && !Terminal(s.db.row.state) && HonestProof(s.adapter, s.db.row, seen)
    ensures Did(s, Make(s, s.db.row, s.db.row.state, StepMove(s.adapter, s.db, now, seen), seen.pinned), d)
    ensures d.Moved? ==> !Back(s.db.row.state, d.to)
    ensures d.Closed? ==> d.successorEpoch == s.db.row.successorEpoch && d.outcome != Complete
  {
    if s.db.row.state == WaitingReady {
      d := WaitingDid(s, now, seen);
    } else {
      ControlIsEdge(s.adapter, s.db, now, seen);
      d := MakeDid(s, s.db.row, s.db.row.state, StepMove(s.adapter, s.db, now, seen), seen.pinned);
    }
  }

  lemma ReportDid(s: Sys, a: Action) returns (d: Done)
    requires a.ReadyReport? && Shaped(s.db.row)
    ensures Did(s, ReportReady(s, a), d)
    ensures d == Nothing || d == Moved(Ready, NoReason, SetArtifact(a.artifact))
            || d == Closed(s.db.row.successorEpoch, Failed, Because(EventLimit))
    ensures d.Moved? ==> s.db.row.state == WaitingReady
  {
    var move := Step(Ready, NoReason, a.pinned, SetArtifact(a.artifact), None);
    if s.db.row.state != WaitingReady || s.db.row.revision != a.revision || a.epoch != s.db.row.epoch || !a.fileOk {
      d := Nothing;
    } else {
      match AdvanceOf(s, a.revision, WaitingReady, move)
      case Refused => d := Nothing;
      case Advanced(_) =>
        d := Moved(Ready, NoReason, SetArtifact(a.artifact));
        AdvancedIs(s, a.revision, WaitingReady, move);
      case Ended(_) =>
        d := Closed(s.db.row.successorEpoch, Failed, Because(EventLimit));
        EndedIs(s, a.revision, WaitingReady, move);
    }
  }

  lemma WriteDid(s: Sys, id: nat, pinned: bool) returns (d: Done)
    requires Shaped(s.db.row) || Terminal(s.db.row.state)
    ensures Did(s, WritePickup(s, id, pinned), d)
    ensures d == Nothing || (id in s.claims && d == Closed(Some(s.claims[id].epoch), Complete, Because(Resumed))
                             && AcceptsPickupReport(s.db.row) && s.db.row.artifact == Some(s.claims[id].artifact)
                             && s.db.row.successorEpoch == s.claims[id].successorEpoch)
  {
    if id !in s.claims {
      d := Nothing;
    } else {
      var claim, row := s.claims[id], s.db.row;
      if !AcceptsPickupReport(row) || row.artifact != Some(claim.artifact) || row.successorEpoch != claim.successorEpoch
         || s.now >= row.stageDeadline || s.now >= row.cycleDeadline || !CycleEnabled(s.db) || !pinned
      {
        d := Nothing;
      } else {
        d := Closed(Some(claim.epoch), Complete, Because(Resumed));
      }
    }
  }

  lemma MaintainerDid(s: Sys, revision: nat) returns (d: Done)
    requires Counted(s) && (Shaped(s.db.row) || Terminal(s.db.row.state))
    ensures Did(s, Next(s, Maintainer(revision)), d)
    ensures d == Nothing || d == Moved(PromptIntent, MaintainerOption, Same)
            || d == Closed(s.db.row.successorEpoch, Failed, Because(EventLimit))
  {
    if s.db.row.state != WaitingPrompt || s.db.row.revision != revision {
      d := Nothing;
    } else {
      d := AdvanceDid(s, s.db.row, WaitingPrompt, Step(PromptIntent, MaintainerOption, true, Same, Some(Choose)));
    }
  }

  lemma CurrentCall(s: Sys, r: nat)
    requires Recorded(s) && r in s.calls && CallFitsAt(s, r)
    ensures s.calls[r].row.revision == s.db.row.revision ==> s.calls[r].row == s.db.row
  {
  }

  lemma ReturnDid(s: Sys, u: Sys, c: InFlight, result: Result) returns (d: Done)
    requires Counted(s) && Shaped(s.db.row) && !Terminal(s.db.row.state) && u == s.(calls := u.calls)
    requires c.row.revision == s.db.row.revision ==> c.row == s.db.row
    requires CallFits(s.adapter, c) && HonestResult(c, result)
    ensures Did(s, Make(u, c.row, CallStage(c.call), ResultMove(c.call, c.row, result), true), d)
    ensures d.Moved? ==> c.row == s.db.row
    ensures d.Moved? && Back(s.db.row.state, d.to) ==> result.NotSent?
    ensures d.Closed? ==> d.successorEpoch == s.db.row.successorEpoch && d.outcome != Complete
  {
    ResultEnds(c, result);
    if c.row.revision == s.db.row.revision {
      ResultIsEdge(s.adapter, s.db, c, result);
    }
    d := MakeDid(u, c.row, CallStage(c.call), ResultMove(c.call, c.row, result), true);
    DidFrame(s, u, Make(u, c.row, CallStage(c.call), ResultMove(c.call, c.row, result), true), d);
  }

  /** The calls do not matter to what was done. */
  lemma DidFrame(s: Sys, u: Sys, t: Sys, d: Done)
    requires u == s.(calls := u.calls) && Did(u, t, d)
    ensures Did(s, t, d)
  {
  }

  lemma ResultEnds(c: InFlight, result: Result)
    ensures
      var move := ResultMove(c.call, c.row, result);
      && !move.Ask? && (move.End? ==> Terminal(move.outcome) && move.outcome != Complete)
      && (move.Step? && Back(CallStage(c.call), move.to) ==> result.NotSent?)
  {
  }

  /** Nothing moves a finished cycle. */
  lemma TerminalDid(s: Sys, row: Row, from: Stage, move: Move)
    requires Terminal(s.db.row.state) && !Terminal(from) && !move.Ask?
    ensures Make(s, row, from, move, true) == s
  {
  }

  lemma EndedSettles(s: Sys, revision: nat, result: Result)
    requires revision in s.calls && Terminal(s.db.row.state)
    ensures Settle(s, revision, result) == s.(calls := s.calls - {revision})
  {
    var c := s.calls[revision];
    ResultEnds(c, result);
    TerminalDid(s.(calls := s.calls - {revision}), c.row, CallStage(c.call), ResultMove(c.call, c.row, result));
  }

  lemma SettleDid(s: Sys, revision: nat, result: Result) returns (d: Done)
    requires Counted(s) && Recorded(s)
    requires revision in s.calls && CallFitsAt(s, revision) && HonestResult(s.calls[revision], result)
    ensures Did(s, Settle(s, revision, result), d)
    ensures d.Moved? && Back(s.db.row.state, d.to) ==> revision == s.db.row.revision && result.NotSent?
    ensures d.Closed? ==> d.successorEpoch == s.db.row.successorEpoch && d.outcome != Complete
  {
    if Terminal(s.db.row.state) {
      EndedSettles(s, revision, result);
      d := Nothing;
    } else {
      CurrentCall(s, revision);
      d := ReturnDid(s, s.(calls := s.calls - {revision}), s.calls[revision], result);
    }
  }

  /** An action that touches no row. */
  predicate Quiet(a: Action) {
    a.Tick? || a.PickupRead? || a.SetEnable? || a.ReadInbox? || a.Fence? || a.Submit? || a.Crash?
  }

  lemma QuietDid(s: Sys, a: Action)
    requires Enabled(s, a) && Quiet(a)
    ensures Did(s, Next(s, a), Nothing)
  {
  }

  /** What a caller does that neither ends a call nor writes a pickup report. */
  lemma CallerDid(s: Sys, a: Action) returns (d: Done)
    requires Counted(s) && Recorded(s) && Enabled(s, a) && !Quiet(a) && !a.Return? && !a.PickupWrite?
    ensures Did(s, Next(s, a), d)
    ensures d.Moved? ==> !Back(s.db.row.state, d.to)
    ensures d.Closed? ==> d.successorEpoch == s.db.row.successorEpoch
    ensures d.Closed? && d.outcome == Complete ==>
              a.EndBy? && s.db.row.state == CompactSent && d.why == Because(Compacted)
  {
    match a
    case Control(read, seen) => d := ControlDid(s, read, seen);
    case ReadyReport(_, _, _, _, _) =>
      if Terminal(s.db.row.state) {
        d := Nothing;
      } else {
        d := ReportDid(s, a);
      }
    case Maintainer(revision) => d := MaintainerDid(s, revision);
    case EndBy(outcome, why) => d := EndDid(s, 0, outcome, Because(why));
  }

  lemma NextDid(s: Sys, a: Action) returns (d: Done)
    requires Counted(s) && Recorded(s) && CallsFit(s) && Enabled(s, a)
    ensures Did(s, Next(s, a), d)
    ensures d.Moved? && Back(s.db.row.state, d.to) ==> a.Return? && a.revision == s.db.row.revision && a.result.NotSent?
    ensures d.Closed? && d.outcome == Complete ==> a.PickupWrite? || (a.EndBy? && s.db.row.state == CompactSent)
    ensures d.Closed? && d.outcome == Complete ==> d.why == Because(Resumed) || d.why == Because(Compacted)
    ensures d.Closed? && !a.PickupWrite? ==> d.successorEpoch == s.db.row.successorEpoch
    ensures d.Closed? && a.PickupWrite? ==>
              && a.id in s.claims && d.successorEpoch == Some(s.claims[a.id].epoch) && AcceptsPickupReport(s.db.row)
              && s.db.row.successorEpoch == s.claims[a.id].successorEpoch
  {
    if Quiet(a) {
      QuietDid(s, a);
      d := Nothing;
    } else if a.Return? {
      assert CallFitsAt(s, a.revision);
      d := SettleDid(s, a.revision, a.result);
    } else if a.PickupWrite? {
      d := WriteDid(s, a.id, a.pinned);
    } else {
      d := CallerDid(s, a);
    }
  }
}
