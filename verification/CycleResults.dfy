/** What the result of a call, a report and a maintainer's option do to the cycle, exactly when, and
    how an end leaves the cycle and its Enable (internal/core/context_cycle.go,
    internal/core/context_cycle_controller.go). */
module CycleResults {
  import opened Options
  import opened Cycle
  import opened CycleController
  import opened CycleRuns
  import opened CycleHistory
  import opened CycleSafety
  import opened CycleCalls
  import opened CycleInvariant
  import opened CycleDecisions
  import CycleTheorems

  /** An admission starts at revision 1 in the mode's waiting stage, of the given epoch and under the given
      Enable, with 15 minutes for the stage, 30 for the cycle, and the pages of 14 advances and an end. */
  lemma AdmissionStarts(adapter: Adapter, compaction: bool, enable: Enable, epoch: nat, now: nat)
    ensures
      var s := Admitted(adapter, compaction, enable, epoch, now);
      && s.db.row.state == (if compaction then CompactWaiting else WaitingReady)
      && s.db.row.compaction == compaction && s.db.row.epoch == epoch && s.db.row.revision == 1
      && s.db.row.createdAt == now && s.db.row.stageDeadline == now + 900_000
      && s.db.row.cycleDeadline == now + 1_800_000
      && s.db.row.artifact == None && s.db.row.successorEpoch == None && s.db.row.promptFrom == None
      && s.db.row.credit == 14 * 280 + 491 && s.db.log == [Event(1, now, Requested, NoReason)]
      && s.db.enable == enable && (Open(s) <==> enable.enabled)
  {
  }

  // The results of calls

  predicate Answering(call: Call) {
    call == Answer || call == Choose
  }

  /** The stage and the reason that a result of the row's call records. A refusal before the input goes
      back to the stage before it, a receipt goes on, and an answered dialog to where it began. */
  predicate Leads(row: Row, call: Call, result: Result, to: Stage, reason: Reason) {
    match to
    case Ready =>
      || (call in {Clear, Create, Select} && result.NotSent? && reason == Unsent(result.code))
      || (Answering(call) && result == Received && row.promptFrom == Some(Ready) && reason == PromptAnswered)
    case ClearReceived =>
      && reason == NoReason
      && ((call == Clear && result == Received) || (call == Create && result.ID? && result.session != row.epoch))
    case ResetVerified =>
      Answering(call) && result == Received && row.promptFrom == Some(ResetVerified) && reason == PromptAnswered
    case WaitingPickup => call == Pickup && result == Received && reason == NoReason
    case WaitingPrompt =>
      || (Answering(call) && result == Received && row.promptFrom == Some(WaitingPickup) && reason == PromptAnswered)
      || (call == Choose && result.NotSent? && reason == NativeDialog)
    case CompactWaiting => call == Compact && result.NotSent? && reason == NotSubmitted(result.code)
    case CompactSent => call == Compact && result == Received && reason == NoReason
    case _ => false
  }

  /** The result leaves unknown what the call did. */
  predicate Spoils(row: Row, call: Call, result: Result, why: Why) {
    match call
    case Clear => why == INPUT_UNRECEIVED && (result == Failing || result.ID?)
    case Create =>
      why == INPUT_UNRECEIVED && (result == Failing || result == Received || result == ID(row.epoch))
    case Select => why == SELECT_UNRECEIVED && (result == Failing || result.ID?)
    case Pickup => why == INPUT_UNRECEIVED && result != Received
    case SendPickup => false
    case Answer => why == PROMPT_UNANSWERED && result != Received
    case Choose => why == PROMPT_UNANSWERED && (result == Failing || result.ID?)
    case Compact => why == COMPACT_UNRECEIVED && (result == Failing || result.ID?)
  }

  lemma ResultDecided(row: Row, call: Call, result: Result, to: Stage, reason: Reason, why: Why)
    requires Shaped(row) && row.state == CallStage(call)
    ensures
      var move := ResultMove(call, row, result);
      && (move.Step? && move.to == to && move.reason == reason <==> Leads(row, call, result, to, reason))
      && (move.End? && move.reason == Because(why) <==> Spoils(row, call, result, why))
      && (move.End? ==> move.outcome == Uncertain)
  {
  }

  lemma ResultShape(row: Row, call: Call, result: Result)
    ensures
      var move := ResultMove(call, row, result);
      && !move.Ask? && (move.Step? ==> move.guard && move.call == None)
      && (move.End? ==> move.outcome == Uncertain && move.reason.Because?)
  {
  }

  /** The call's own row is the cycle's, and the cycle is not finished. */
  predicate Current(s: Sys, revision: nat) {
    revision == s.db.row.revision && !Terminal(s.db.row.state)
  }

  /** What a move does at the current row, without a call. */
  ghost predicate Made(s: Sys, t: Sys, move: Move) {
    match move
    case Wait => t == s
    case Step(to, reason, guard, change, call) =>
      if !Open(s) then t == s
      else if s.db.row.events < 15 then Enters(s, t, to, reason) && t.calls == s.calls
      else Ends(s, t, EventLimit) && t.calls == s.calls
    case Ask(_, _) => false
    case End(outcome, reason) =>
      && reason.Because? && Ends(s, t, reason.why) && t.calls == s.calls && t.db.row.state == outcome
  }

  lemma MoveIsMade(u: Sys, row: Row, move: Move)
    requires Counted(u) && PickupTimed(u) && Shaped(u.db.row) && !Terminal(u.db.row.state) && row == u.db.row
    requires move.Step? ==> move.guard && move.call == None && Edge(u.adapter, u.db, move.to, move.reason, move.change)
    requires move.End? ==> move.outcome == Uncertain && move.reason.Because?
    requires !move.Ask?
    ensures Made(u, Make(u, row, u.db.row.state, move, true), move)
  {
    match move
    case Wait =>
    case Step(_, _, _, _, _) => AdvanceShows(u, move);
    case End(outcome, reason) => EndShows(u, outcome, reason.why);
  }

  lemma LateResult(s: Sys, c: InFlight, result: Result)
    requires c.row.revision > 0
    requires c.row.revision != s.db.row.revision || (Terminal(s.db.row.state) && !Terminal(CallStage(c.call)))
    ensures Make(s, c.row, CallStage(c.call), ResultMove(c.call, c.row, result), true) == s
  {
    ResultShape(c.row, c.call, result);
  }

  /** Taking the call out of flight leaves the rest as it is. */
  function Settled(s: Sys, revision: nat): Sys {
    s.(calls := s.calls - {revision})
  }

  lemma SettledFrame(s: Sys, revision: nat)
    requires Counted(s) && PickupTimed(s)
    ensures Counted(Settled(s, revision)) && PickupTimed(Settled(s, revision))
  {
  }

  lemma CurrentFits(s: Sys, revision: nat)
    requires Recorded(s) && CallsFit(s) && revision in s.calls && Current(s, revision)
    ensures s.calls[revision].row == s.db.row && CallFits(s.adapter, s.calls[revision]) && Shaped(s.db.row)
    ensures s.db.row.state == CallStage(s.calls[revision].call)
  {
    assert CallFitsAt(s, revision);
    CurrentCall(s, revision);
  }

  lemma RevisionOf(s: Sys, revision: nat)
    requires CallsFit(s) && revision in s.calls
    ensures s.calls[revision].row.revision == revision > 0
  {
    assert CallFitsAt(s, revision);
  }

  lemma ResultMade(s: Sys, revision: nat, result: Result)
    requires Counted(s) && Recorded(s) && PickupTimed(s) && CallsFit(s)
    requires Enabled(s, Return(revision, result)) && Current(s, revision)
    ensures Made(Settled(s, revision), Next(s, Return(revision, result)),
                 ResultMove(s.calls[revision].call, s.db.row, result))
  {
    CurrentFits(s, revision);
    var c := s.calls[revision];
    ResultIsEdge(s.adapter, s.db, c, result);
    ResultShape(s.db.row, c.call, result);
    SettledFrame(s, revision);
    MoveIsMade(Settled(s, revision), c.row, ResultMove(c.call, c.row, result));
  }

  lemma MadeEnters(s: Sys, t: Sys, move: Move, to: Stage, reason: Reason)
    requires Made(s, t, move)
    ensures Enters(s, t, to, reason) <==>
              Open(s) && s.db.row.events < 15 && move.Step? && move.to == to && move.reason == reason
  {
  }

  lemma MadeEnds(s: Sys, t: Sys, move: Move, why: Why)
    requires Made(s, t, move) && !Terminal(s.db.row.state)
    ensures Ends(s, t, why) <==>
              || (move.End? && move.reason == Because(why))
              || (why == EventLimit && Open(s) && s.db.row.events >= 15 && move.Step?)
    ensures Ends(s, t, why) && move.End? ==> t.db.row.state == move.outcome
    ensures t == s || (exists to, reason :: Enters(s, t, to, reason)) || (exists w :: Ends(s, t, w))
  {
    if t != s && move.End? {
      assert Ends(s, t, move.reason.why);
    } else if t != s && Terminal(t.db.row.state) {
      assert Ends(s, t, EventLimit);
    } else if t != s {
      assert Enters(s, t, move.to, move.reason);
    }
  }

  lemma OlderResult(s: Sys, revision: nat, result: Result)
    requires CallsFit(s) && Enabled(s, Return(revision, result)) && !Current(s, revision)
    ensures Next(s, Return(revision, result)) == Settled(s, revision)
  {
    RevisionOf(s, revision);
    LateResult(Settled(s, revision), s.calls[revision], result);
  }

  lemma MadeLeads(s: Sys, u: Sys, t: Sys, call: Call, result: Result, to: Stage, reason: Reason)
    requires u == s.(calls := u.calls) && Made(u, t, ResultMove(call, s.db.row, result))
    requires Shaped(s.db.row) && s.db.row.state == CallStage(call)
    ensures Enters(s, t, to, reason) <==>
              Open(s) && s.db.row.events < 15 && Leads(s.db.row, call, result, to, reason)
  {
    ResultDecided(s.db.row, call, result, to, reason, EventLimit);
    MadeEnters(u, t, ResultMove(call, s.db.row, result), to, reason);
  }

  lemma MadeSpoils(s: Sys, u: Sys, t: Sys, call: Call, result: Result, why: Why)
    requires u == s.(calls := u.calls) && Made(u, t, ResultMove(call, s.db.row, result))
    requires Shaped(s.db.row) && s.db.row.state == CallStage(call) && !Terminal(s.db.row.state)
    ensures Ends(s, t, why) <==>
              || Spoils(s.db.row, call, result, why)
              || (why == EventLimit && Open(s) && s.db.row.events >= 15 && LeadsOn(s.db.row, call, result))
    ensures Ends(s, t, why) && Spoils(s.db.row, call, result, why) ==> t.db.row.state == Uncertain
  {
    LeadsIsStep(s.db.row, call, result, why);
    MadeEnds(u, t, ResultMove(call, s.db.row, result), why);
  }

  /** A result records a stage if and only if its call's row is still the cycle's, the cycle is open and
      has an event left, and the result leads there. */
  lemma ResultEntersIff(s: Sys, revision: nat, result: Result, to: Stage, reason: Reason)
    requires Inv(s) && Enabled(s, Return(revision, result))
    ensures Enters(s, Next(s, Return(revision, result)), to, reason) <==>
              && Current(s, revision) && Open(s) && s.db.row.events < 15
              && Leads(s.db.row, s.calls[revision].call, result, to, reason)
  {
    if Current(s, revision) {
      ResultMade(s, revision, result);
      CurrentFits(s, revision);
      MadeLeads(s, Settled(s, revision), Next(s, Return(revision, result)), s.calls[revision].call, result, to, reason);
    } else {
      OlderResult(s, revision, result);
    }
  }

  /** Some stage that the result leads to. */
  ghost predicate LeadsOn(row: Row, call: Call, result: Result) {
    exists to, reason :: Leads(row, call, result, to, reason)
  }

  /** It ends the cycle if and only if it leaves unknown what the call did, and then uncertain, or it
      leads to a stage and the cycle's events are used up. */
  lemma ResultEndsIff(s: Sys, revision: nat, result: Result, why: Why)
    requires Inv(s) && Enabled(s, Return(revision, result))
    ensures
      var t := Next(s, Return(revision, result));
      && (Ends(s, t, why) <==>
            && Current(s, revision)
            && (Spoils(s.db.row, s.calls[revision].call, result, why)
                || (why == EventLimit && Open(s) && s.db.row.events >= 15
                    && LeadsOn(s.db.row, s.calls[revision].call, result))))
      && (Ends(s, t, why) && Spoils(s.db.row, s.calls[revision].call, result, why) ==> t.db.row.state == Uncertain)
  {
    if Current(s, revision) {
      ResultMade(s, revision, result);
      CurrentFits(s, revision);
      MadeSpoils(s, Settled(s, revision), Next(s, Return(revision, result)), s.calls[revision].call, result, why);
    } else {
      OlderResult(s, revision, result);
    }
  }

  lemma LeadsIsStep(row: Row, call: Call, result: Result, why: Why)
    requires Shaped(row) && row.state == CallStage(call)
    ensures
      var move := ResultMove(call, row, result);
      && (move.Step? <==> LeadsOn(row, call, result))
      && (move.End? && move.reason == Because(why) <==> Spoils(row, call, result, why))
      && (move.End? ==> move.outcome == Uncertain)
  {
    var move := ResultMove(call, row, result);
    if move.Step? {
      ResultDecided(row, call, result, move.to, move.reason, why);
    } else {
      forall to, reason
        ensures !Leads(row, call, result, to, reason)
      {
        ResultDecided(row, call, result, to, reason, why);
      }
    }
    ResultDecided(row, call, result, Ready, NoReason, why);
  }

  /** And otherwise it only takes the call out of flight. */
  lemma ResultIsSilent(s: Sys, revision: nat, result: Result)
    requires Inv(s) && Enabled(s, Return(revision, result))
    ensures
      var t := Next(s, Return(revision, result));
      || t == s.(calls := s.calls - {revision})
      || (exists to, reason :: Enters(s, t, to, reason))
      || (exists why :: Ends(s, t, why))
  {
    if Current(s, revision) {
      ResultMade(s, revision, result);
      MadeEnds(Settled(s, revision), Next(s, Return(revision, result)),
               ResultMove(s.calls[revision].call, s.db.row, result), EventLimit);
      SilentFrame(s, Settled(s, revision), Next(s, Return(revision, result)));
    } else {
      OlderResult(s, revision, result);
    }
  }

  lemma SilentFrame(s: Sys, u: Sys, t: Sys)
    requires u == s.(calls := u.calls)
    requires t == u || (exists to, reason :: Enters(u, t, to, reason)) || (exists why :: Ends(u, t, why))
    ensures t == u || (exists to, reason :: Enters(s, t, to, reason)) || (exists why :: Ends(s, t, why))
  {
    if to, reason :| Enters(u, t, to, reason) {
      assert Enters(s, t, to, reason);
    } else if why :| Ends(u, t, why) {
      assert Ends(s, t, why);
    }
  }

  // Reports and the maintainer

  /** The report answers the request that the cycle waits for. */
  predicate Accepts(s: Sys, a: Action)
    requires a.ReadyReport?
  {
    && s.db.row.state == WaitingReady && s.db.row.revision == a.revision && s.db.row.epoch == a.epoch
    && a.fileOk && a.pinned
  }

  /** A ready report is recorded, with its file, if and only if it answers the current request of an open
      cycle with an event left; at the last event it ends the cycle; and otherwise it changes nothing. */
  lemma ReportIff(s: Sys, a: Action)
    requires Inv(s) && a.ReadyReport?
    ensures
      var t := Next(s, a);
      && (Enters(s, t, Ready, NoReason) <==> Accepts(s, a) && Open(s) && s.db.row.events < 15)
      && (Enters(s, t, Ready, NoReason) ==>
            t.db.row.artifact == Some(a.artifact) && t.report == Some(Report(s.now, a.revision, a.artifact)))
      && (Ends(s, t, EventLimit) <==> Accepts(s, a) && Open(s) && s.db.row.events >= 15)
      && (t == s || Enters(s, t, Ready, NoReason) || Ends(s, t, EventLimit))
  {
    var t := Next(s, a);
    EnterOrEnd(s, t, Ready, NoReason, EventLimit);
    if Accepts(s, a) && Open(s) {
      ReportShows(s, a);
    } else {
      NotAccepted(s, a);
    }
  }

  lemma ReportShows(s: Sys, a: Action)
    requires Counted(s) && PickupTimed(s) && Shaped(s.db.row) && a.ReadyReport? && Accepts(s, a) && Open(s)
    ensures
      var t := ReportReady(s, a);
      if s.db.row.events < 15 then
        && Enters(s, t, Ready, NoReason)
        && t.db.row.artifact == Some(a.artifact) && t.report == Some(Report(s.now, a.revision, a.artifact))
      else Ends(s, t, EventLimit)
  {
    AdvanceShows(s, Step(Ready, NoReason, a.pinned, SetArtifact(a.artifact), None));
  }

  lemma NotAccepted(s: Sys, a: Action)
    requires a.ReadyReport? && !(Accepts(s, a) && Open(s))
    ensures ReportReady(s, a) == s
  {
  }

  lemma EnterOrEnd(s: Sys, t: Sys, to: Stage, reason: Reason, why: Why)
    ensures !(Enters(s, t, to, reason) && Ends(s, t, why))
    ensures !Enters(s, s, to, reason) && !Ends(s, s, why)
  {
  }

  /** An open dialog at the named row. */
  predicate Choosable(s: Sys, revision: nat) {
    s.db.row.state == WaitingPrompt && s.db.row.revision == revision && Open(s)
  }

  const CHOSEN := Step(PromptIntent, MaintainerOption, true, Same, Some(Choose))

  lemma ChosenShows(s: Sys)
    requires Counted(s) && Recorded(s) && PickupTimed(s) && s.db.row.revision + 1 !in s.calls
    requires s.db.row.state == WaitingPrompt && Open(s)
    ensures
      var t := AdvanceAt(s, s.db.row, WaitingPrompt, CHOSEN);
      && (if s.db.row.events < 15 then Enters(s, t, PromptIntent, MaintainerOption) else Ends(s, t, EventLimit))
      && Begins(s, t, Choose)
  {
    AdvanceShows(s, CHOSEN);
  }

  /** The maintainer's option starts a call if and only if it names the current row of an open dialog;
      it records the choice, or ends the cycle when no event is left, and else it changes nothing. */
  lemma MaintainerIff(s: Sys, revision: nat)
    requires Inv(s)
    ensures
      var t := Next(s, Maintainer(revision));
      && (Enters(s, t, PromptIntent, MaintainerOption) <==> Choosable(s, revision) && s.db.row.events < 15)
      && (Ends(s, t, EventLimit) <==> Choosable(s, revision) && s.db.row.events >= 15)
      && (Begins(s, t, Choose) <==> Choosable(s, revision))
      && (t == s || Choosable(s, revision))
  {
    var t := Next(s, Maintainer(revision));
    EnterOrEnd(s, t, PromptIntent, MaintainerOption, EventLimit);
    if Choosable(s, revision) {
      NewRevision(s);
      ChosenShows(s);
    } else {
      NotChosen(s, revision);
    }
  }

  lemma NotChosen(s: Sys, revision: nat)
    requires !Choosable(s, revision)
    ensures Next(s, Maintainer(revision)) == s
  {
  }

  // The pickup report

  /** The report is of a session in the proven epoch, or of any other epoch than the requester's when none
      is recorded, and names the artifact and a revision of the cycle that took a pickup report. */
  predicate Reports(s: Sys, revision: nat, artifact: nat, epoch: nat) {
    && AcceptsPickupReport(s.db.row) && 1 <= revision <= |s.rows| && AcceptsPickupReport(s.rows[revision - 1])
    && s.db.row.artifact == Some(artifact) && s.db.row.epoch != epoch
    && (s.db.row.successorEpoch == None || s.db.row.successorEpoch == Some(epoch))
  }

  lemma PickupReadIff(s: Sys, id: nat, revision: nat, artifact: nat, epoch: nat)
    requires Inv(s)
    ensures
      var t := Next(s, PickupRead(id, revision, artifact, epoch));
      && t == s.(claims := t.claims)
      && if Reports(s, revision, artifact, epoch)
         then t.claims == s.claims[id := Claim(artifact, epoch, s.db.row.successorEpoch)]
         else t == s
  {
    if 1 <= revision <= |s.rows| {
      CycleTheorems.RevisionInHistory(s, revision);
    } else {
      CycleTheorems.RevisionOutside(s, revision);
    }
  }

  /** t is s completed in an epoch, with the Enable kept. */
  ghost predicate Completed(s: Sys, t: Sys, epoch: nat) {
    && t.db.row.state == Complete && t.db.row.successorEpoch == Some(epoch) && t.db.row.reason == Because(Resumed)
    && t.db.enable == s.db.enable && t.claims == s.claims && t.calls == s.calls
  }

  /** A pickup report that nothing comes between completes the cycle, in its epoch and with its Enable
      kept, if and only if it is one and the cycle is open and its requester pinned; else the report
      leaves the cycle as it was. */
  lemma PickupCompletesIff(s: Sys, id: nat, revision: nat, artifact: nat, epoch: nat, pinned: bool)
    requires Inv(s) && id !in s.claims && !Terminal(s.db.row.state)
    ensures
      var t := Next(Next(s, PickupRead(id, revision, artifact, epoch)), PickupWrite(id, pinned));
      if Reports(s, revision, artifact, epoch) && Open(s) && pinned then Completed(s, t, epoch) else t == s
  {
    PickupReadIff(s, id, revision, artifact, epoch);
    var t := Next(s, PickupRead(id, revision, artifact, epoch));
    WriteIsNext(t, id, pinned);
    if Reports(s, revision, artifact, epoch) {
      ReportsName(s, revision, artifact, epoch);
      ClaimWrites(s, t, id, Claim(artifact, epoch, s.db.row.successorEpoch), pinned);
    } else {
      NoClaim(s, id, pinned);
    }
  }

  lemma WriteIsNext(s: Sys, id: nat, pinned: bool)
    ensures Next(s, PickupWrite(id, pinned)) == WritePickup(s, id, pinned)
  {
  }

  lemma ReportsName(s: Sys, revision: nat, artifact: nat, epoch: nat)
    requires Reports(s, revision, artifact, epoch)
    ensures AcceptsPickupReport(s.db.row) && s.db.row.artifact == Some(artifact)
  {
  }

  lemma NoClaim(s: Sys, id: nat, pinned: bool)
    requires id !in s.claims
    ensures WritePickup(s, id, pinned) == s
  {
  }

  lemma ClaimWrites(s: Sys, t: Sys, id: nat, claim: Claim, pinned: bool)
    requires id !in s.claims && t == s.(claims := s.claims[id := claim]) && !Terminal(s.db.row.state)
    requires AcceptsPickupReport(s.db.row) && s.db.row.artifact == Some(claim.artifact)
    requires claim.successorEpoch == s.db.row.successorEpoch
    ensures
      var u := WritePickup(t, id, pinned);
      if Open(s) && pinned then Completed(s, u, claim.epoch) else u == s
  {
    assert t.claims - {id} == s.claims;
  }

  // The row of a new stage

  /** The parts of the row that a transition changes besides its stage, its reason and its deadline: the
      artifact of a report, gone with a return to the request; the epoch that a reset proves or a create
      names; and the stage that a dialog interrupts. */
  ghost predicate RowFollows(s: Sys, t: Sys, a: Action) {
    Counts(s, t) && Carries(s.db.row, t.db.row, a)
  }

  ghost predicate Counts(s: Sys, t: Sys) {
    var row, next := s.db.row, t.db.row;
    && next.revision == row.revision + 1 && next.events == row.events + 1 && next.credit + 280 == row.credit
    && SameCycle(row, next) && t.db.enable == s.db.enable
    && t.db.log == s.db.log + [Event(row.events + 1, s.now, next.state, next.reason)]
  }

  predicate Carries(row: Row, next: Row, a: Action) {
    && next.artifact == (if a.ReadyReport? then Some(a.artifact)
                         else if next.state == WaitingReady then None else row.artifact)
    && next.successorEpoch == (if a.Control? && next.state == ResetVerified && next.reason == NoReason
                                  && a.seen.newEpoch.Some?
                               then a.seen.newEpoch.value
                               else if a.Return? && a.result.ID? then Some(a.result.session) else row.successorEpoch)
    && next.promptFrom == (if next.state != WaitingPrompt && next.state != PromptIntent then None
                           else if row.promptFrom.Some? then row.promptFrom else Some(row.state))
  }

  /** What a move of the controller, a result or a report changes in the row. */
  predicate Alters(a: Action, move: Move)
    requires move.Step?
  {
    match a
    case Control(_, seen) =>
      if move.to == ResetVerified && move.reason == NoReason
      then seen.newEpoch.Some? && seen.newEpoch.value.Some? && move.change == SetSuccessor(seen.newEpoch.value.value)
      else !move.change.SetSuccessor? && !move.change.SetArtifact?
    case Return(_, result) =>
      if result.ID? then move.change == SetSuccessor(result.session)
      else !move.change.SetSuccessor? && !move.change.SetArtifact?
    case _ => true
  }

  lemma ChangeMade(s: Sys, t: Sys, a: Action, to: Stage, reason: Reason, change: Change)
    requires CanStep(s, to, reason, change) && Shaped(s.db.row) && Shaped(StepSys(s, to, reason, change).db.row)
    requires t.db == StepSys(s, to, reason, change).db
    requires a.Control? || a.Return? || a.ReadyReport? || a.Maintainer?
    requires a.Control? || a.Return? ==> Alters(a, Step(to, reason, true, change, None))
    requires a.ReadyReport? ==> change == SetArtifact(a.artifact)
    requires a.Maintainer? ==> change == Same
    ensures RowFollows(s, t, a)
  {
    StepFollows(s, to, reason, change);
    ChangeCarries(s.adapter, s.db, t.db.row, a, to, reason, change);
  }

  lemma ChangeCarries(adapter: Adapter, db: Db, next: Row, a: Action, to: Stage, reason: Reason, change: Change)
    requires Edge(adapter, db, to, reason, change) && Shaped(db.row) && Shaped(next)
    requires next.state == to && next.reason == reason && next.promptFrom == Apply(db.row, change).promptFrom
    requires next.artifact == Apply(db.row, change).artifact
    requires next.successorEpoch == Apply(db.row, change).successorEpoch
    requires a.Control? || a.Return? || a.ReadyReport? || a.Maintainer?
    requires a.Control? || a.Return? ==> Alters(a, Step(to, reason, true, change, None))
    requires a.ReadyReport? ==> change == SetArtifact(a.artifact)
    requires a.Maintainer? ==> change == Same
    ensures Carries(db.row, next, a)
  {
  }

  ghost predicate Grows(s: Sys, t: Sys) {
    |t.rows| == |s.rows| + 1 && !Terminal(t.db.row.state)
  }

  lemma MovedRow(s: Sys, t: Sys, a: Action, d: Done)
    requires Recorded(s) && Did(s, t, d) && Grows(s, t) && !Terminal(s.db.row.state)
    requires a.Control? || a.Return? || a.ReadyReport? || a.Maintainer?
    requires d.Moved? && (a.Control? || a.Return?) ==> Alters(a, Step(d.to, d.reason, true, d.change, None))
    requires d.Moved? && a.ReadyReport? ==> d.change == SetArtifact(a.artifact)
    requires d.Moved? && a.Maintainer? ==> d.change == Same
    ensures RowFollows(s, t, a)
  {
    if d.Moved? {
      StepFollows(s, d.to, d.reason, d.change);
      ChangeMade(s, t, a, d.to, d.reason, d.change);
    }
  }

  lemma ControlAlters(adapter: Adapter, db: Db, read: nat, seen: Seen)
    requires Shaped(db.row)
    ensures
      var move := StepMove(adapter, db, read, seen);
      move.Step? ==> Alters(Control(read, seen), Step(move.to, move.reason, true, move.change, None))
  {
  }

  lemma ControlRow(s: Sys, read: nat, seen: Seen)
    requires Counted(s) && Recorded(s) && Enabled(s, Control(read, seen)) && Grows(s, Next(s, Control(read, seen)))
    ensures RowFollows(s, Next(s, Control(read, seen)), Control(read, seen))
  {
    var move := StepMove(s.adapter, s.db, read, seen);
    var t := Next(s, Control(read, seen));
    if s.db.row.state == WaitingReady {
      var d := WaitingDid(s, read, seen);
      MovedRow(s, t, Control(read, seen), d);
    } else {
      ControlIsEdge(s.adapter, s.db, read, seen);
      ControlAlters(s.adapter, s.db, read, seen);
      var d := MakeDid(s, s.db.row, s.db.row.state, move, seen.pinned);
      AskAlters(d, read, seen, move);
      MovedRow(s, t, Control(read, seen), d);
    }
  }

  lemma AskAlters(d: Done, read: nat, seen: Seen, move: Move)
    requires d.Moved? && move.Ask? ==> d == Moved(WaitingReady, NotIdle(move.seen), DropArtifact)
    ensures d.Moved? && move.Ask? ==> Alters(Control(read, seen), Step(d.to, d.reason, true, d.change, None))
  {
  }

  lemma ResultAlters(revision: nat, row: Row, call: Call, result: Result)
    requires result.ID? ==> call == Create
    ensures
      var move := ResultMove(call, row, result);
      move.Step? ==> Alters(Return(revision, result), Step(move.to, move.reason, true, move.change, None))
  {
  }

  lemma ReturnRow(s: Sys, revision: nat, result: Result)
    requires Counted(s) && Recorded(s) && CallsFit(s) && Enabled(s, Return(revision, result))
    requires Grows(s, Next(s, Return(revision, result))) && !Terminal(s.db.row.state)
    ensures RowFollows(s, Next(s, Return(revision, result)), Return(revision, result))
  {
    if Current(s, revision) {
      CurrentFits(s, revision);
      var c, u := s.calls[revision], Settled(s, revision);
      ResultIsEdge(s.adapter, s.db, c, result);
      ResultShape(c.row, c.call, result);
      ResultAlters(revision, c.row, c.call, result);
      var d := MakeDid(u, c.row, CallStage(c.call), ResultMove(c.call, c.row, result), true);
      DidFrame(s, u, Next(s, Return(revision, result)), d);
      MovedRow(s, Next(s, Return(revision, result)), Return(revision, result), d);
    } else {
      OlderResult(s, revision, result);
    }
  }

  /** Every transition to an unfinished stage changes the row in exactly these parts. */
  lemma NextRow(s: Sys, a: Action)
    requires Inv(s) && Enabled(s, a) && Grows(s, Next(s, a))
    ensures RowFollows(s, Next(s, a), a)
  {
    if Terminal(s.db.row.state) {
      EndedStays(s, a);
    } else if a.Control? {
      ControlRow(s, a.read, a.seen);
    } else if a.Return? {
      ReturnRow(s, a.revision, a.result);
    } else {
      CallerRow(s, a);
    }
  }

  lemma CallerRow(s: Sys, a: Action)
    requires Counted(s) && Recorded(s) && Enabled(s, a) && Grows(s, Next(s, a)) && !Terminal(s.db.row.state)
    requires !a.Control? && !a.Return?
    ensures RowFollows(s, Next(s, a), a)
  {
    if Quiet(a) {
      QuietDid(s, a);
      assert false;
    } else if a.ReadyReport? {
      var d := ReportDid(s, a);
      MovedRow(s, Next(s, a), a, d);
    } else if a.Maintainer? {
      var d := MaintainerDid(s, a.revision);
      MovedRow(s, Next(s, a), a, d);
    } else if a.PickupWrite? {
      WriteEnds(s, a.id, a.pinned);
    }
  }

  lemma WriteEnds(s: Sys, id: nat, pinned: bool)
    ensures !Grows(s, WritePickup(s, id, pinned))
  {
  }

  lemma EndedStays(s: Sys, a: Action)
    requires Counted(s) && Recorded(s) && CallsFit(s) && Enabled(s, a) && Terminal(s.db.row.state)
    ensures !Grows(s, Next(s, a))
  {
    var d := NextDid(s, a);
  }
}
