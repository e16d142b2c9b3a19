/** What holds in every run of one managed cycle, from its admission on, with the transactions of
    all callers, the effects of its calls and crashes in any order. */
module CycleTheorems {
  import opened Options
  import opened Cycle
  import opened CycleController
  import opened CycleRuns
  import opened CycleHistory
  import opened CycleSafety
  import opened CycleCalls
  import opened CycleOnce
  import opened CycleInvariant
  import opened CycleInputs
  import opened CycleEpochs
  import opened CycleAnswers
  import opened CycleWaits

  /** s is reachable from an admission. */
  ghost predicate Reachable(s: Sys) {
    exists adapter, compaction, enable, epoch, now, actions ::
      Reaches(Admitted(adapter, compaction, enable, epoch, now), actions, s)
  }

  ghost predicate Reaches(start: Sys, actions: seq<Action>, s: Sys) {
    Runs(start, actions) && After(start, actions) == s
  }

  lemma ReachableIsSafe(s: Sys)
    requires Reachable(s)
    ensures Safe(s)
  {
    var adapter, compaction, enable, epoch, now, actions :|
      Reaches(Admitted(adapter, compaction, enable, epoch, now), actions, s);
    AdmittedSafe(adapter, compaction, enable, epoch, now);
    RunSafe(Admitted(adapter, compaction, enable, epoch, now), actions);
  }

  lemma ReachableIsSteady(s: Sys)
    requires Reachable(s)
    ensures Steady(s)
  {
    var adapter, compaction, enable, epoch, now, actions :|
      Reaches(Admitted(adapter, compaction, enable, epoch, now), actions, s);
    AdmittedSafe(adapter, compaction, enable, epoch, now);
    RunSteady(Admitted(adapter, compaction, enable, epoch, now), actions);
  }

  lemma ReachableIsAnswered(s: Sys)
    requires Reachable(s)
    ensures Answered(s)
  {
    var adapter, compaction, enable, epoch, now, actions :|
      Reaches(Admitted(adapter, compaction, enable, epoch, now), actions, s);
    AdmittedSafe(adapter, compaction, enable, epoch, now);
    RunAnswered(Admitted(adapter, compaction, enable, epoch, now), actions);
  }

  // Effects

  /** A clear, a create request, a select, a pickup and a compaction are each made at most once. */
  lemma AtMostOnce(s: Sys, call: Call)
    requires Reachable(s) && Claimed(s.adapter, call)
    ensures Made(s, call) <= 1
  {
    ReachableIsSafe(s);
  }

  /** The select query is true of exactly the select intents that may have been sent: without it no
      select was made and none is in flight. */
  lemma SelectQueryIsExact(s: Sys)
    requires Reachable(s) && s.adapter == Session && s.db.row.state == ClearReceived
    ensures SelectRecorded(s.db.log) <==> s.db.row.reason == SelectSent
    ensures !SelectRecorded(s.db.log) ==> NoneMade(s, Select)
    ensures Made(s, Select) > 0 ==> SelectRecorded(s.db.log)
  {
    ReachableIsSafe(s);
    assert Claimed(s.adapter, Select) && Once(s, Select);
  }

  /** With either adapter, once a row has a successor epoch every later row has the same one, also
      the one that ends the cycle; and a create at a later row makes no request for a session. */
  lemma RecordedSuccessorIsKept(s: Sys, i: nat)
    requires Reachable(s) && i < |s.rows| && s.rows[i].successorEpoch.Some?
    ensures forall j :: i <= j < |s.rows| ==> s.rows[j].successorEpoch == s.rows[i].successorEpoch
    ensures forall r :: r in s.calls && r > i && s.calls[r].call == Create && !Terminal(s.calls[r].row.state) ==>
              s.calls[r].kept == s.rows[i].successorEpoch && !s.calls[r].submitted
  {
    ReachableIsSafe(s);
    ReachableIsSteady(s);
    CreateKeeps(s, i);
  }

  lemma CreateKeeps(s: Sys, i: nat)
    requires CallsFit(s) && Steady(s) && i < |s.rows| && s.rows[i].successorEpoch.Some?
    ensures forall r :: r in s.calls && r > i && s.calls[r].call == Create && !Terminal(s.calls[r].row.state) ==>
              s.calls[r].kept == s.rows[i].successorEpoch && !s.calls[r].submitted
  {
    forall r | r in s.calls && r > i && s.calls[r].call == Create && !Terminal(s.calls[r].row.state)
      ensures s.calls[r].kept == s.rows[i].successorEpoch && !s.calls[r].submitted
    {
      FitsAt(s, r);
    }
  }

  lemma FitsAt(s: Sys, revision: nat)
    requires CallsFit(s) && revision in s.calls
    ensures CallFitsAt(s, revision)
  {
  }

  /** A clear, a created session, a pickup, a select, a compaction or a session adapter's pickup without its
      proof ends its cycle uncertain; only the report of a session adapter's pickup, which brings its own view
      of the pane, completes it instead, and a compaction may also be submitted after its own advance ended
      the cycle at the event limit. */
  lemma UnprovenEndsUncertain(s: Sys, call: Call)
    requires Reachable(s) && Tracked(s.adapter, call) && Terminal(s.db.row.state)
    requires Made(s, call) > 0 && !InputProven(s.db.log, call)
    ensures s.db.row.state == Uncertain || (call == SendPickup && s.db.row.state == Complete)
            || (call == Compact && s.db.row.reason == Because(EventLimit))
  {
    ReachableIsSafe(s);
    assert Accounted(s, call);
  }

  /** A dialog's answer whose receipt the cycle did not record next ends it uncertain; only the
      report of the pickup that the dialog held up completes it instead. */
  lemma UnansweredEndsUncertain(s: Sys, i: nat)
    requires Reachable(s) && i < |s.sent| && Answers(s.sent[i].call)
    ensures
      var r := s.sent[i].revision;
      && 1 <= r <= |s.rows| && s.rows[r - 1].state == PromptIntent
      && (r == |s.rows| || s.rows[r].reason == PromptAnswered || s.db.row.state == Uncertain
          || s.db.row.state == Complete)
  {
    ReachableIsSafe(s);
    ReachableIsAnswered(s);
    SentSettles(s, i);
  }

  lemma SentSettles(s: Sys, i: nat)
    requires Recorded(s) && Answered(s) && i < |s.sent| && Answers(s.sent[i].call)
    ensures
      var r := s.sent[i].revision;
      && OwnedUp(s, r)
      && (r == |s.rows| || s.rows[r].reason == PromptAnswered || s.db.row.state == Uncertain
          || s.db.row.state == Complete)
  {
    assert AnswerEntered(s, s.sent[i].revision);
  }

  /** Each intent is made at most once: no two effects have one revision. */
  lemma IntentMadeOnce(s: Sys, i: nat, j: nat)
    requires Reachable(s) && i < j < |s.sent|
    ensures s.sent[i].revision != s.sent[j].revision
  {
    ReachableIsAnswered(s);
  }

  // The fence of an ended cycle

  /** Once a cycle ended, the fence of a call in flight passes for exactly the call of a compaction
      that its own advance ended at the event limit, while its Enable and its deadlines hold. */
  lemma EndedFenceIff(s: Sys, revision: nat, holds: bool)
    requires Reachable(s) && Terminal(s.db.row.state) && revision in s.calls
    ensures FencePasses(s, s.calls[revision].row, holds) <==>
              && s.db.row.compaction && s.db.row.reason == Because(EventLimit) && revision == s.db.row.revision
              && s.now < s.db.row.stageDeadline && s.now < s.db.row.cycleDeadline && CycleEnabled(s.db) && holds
  {
    ReachableIsSafe(s);
    FitsAt(s, revision);
    CurrentCall(s, revision);
    if !s.db.row.compaction {
      NoFenceAfterEnd(s, revision, holds);
    }
  }

  /** The step of the controller that starts a call ends the cycle instead if and only if its row is
      not funded, and the fence of that call then passes if and only if the cycle is a compaction
      whose policy holds. */
  lemma LimitFenceIff(s: Sys, read: nat, seen: Seen, holds: bool)
    requires Reachable(s) && Enabled(s, Control(read, seen)) && StartsCall(s, read, seen)
    ensures
      var t := Next(s, Control(read, seen));
      var r := t.db.row.revision;
      && r in t.calls && r == s.db.row.revision + 1
      && (Terminal(t.db.row.state) <==> !Funded(s.db.row))
      && (Terminal(t.db.row.state) ==> (FencePasses(t, t.calls[r].row, holds) <==> s.db.row.compaction && holds))
  {
    ReachableIsSafe(s);
    var move := StepMove(s.adapter, s.db, read, seen);
    StartedCall(s, read, seen);
    if Funded(s.db.row) {
      AdvancedInLimit(s, move);
    } else {
      EndedAtLimit(s, move);
    }
  }

  lemma AdvancedInLimit(s: Sys, move: Move)
    requires !Terminal(s.db.row.state) && Funded(s.db.row) && move.Step? && move.call.Some? && !Terminal(move.to)
    requires AdvanceOf(s, s.db.row.revision, s.db.row.state, move) != Refused && move.change == Same
    ensures
      var t := AdvanceAt(s, s.db.row, s.db.row.state, move);
      && !Terminal(t.db.row.state) && t.db.row.revision == s.db.row.revision + 1 && t.db.row.revision in t.calls
  {
  }

  /** The controller's advance is not refused, and a call follows it. */
  ghost predicate StartsCall(s: Sys, read: nat, seen: Seen) {
    var move := StepMove(s.adapter, s.db, read, seen);
    move.Step? && move.call.Some? && AdvanceOf(s, s.db.row.revision, s.db.row.state, move) != Refused
  }

  lemma StartedCall(s: Sys, read: nat, seen: Seen)
    requires Counted(s) && Recorded(s) && Selected(s) && Enabled(s, Control(read, seen)) && StartsCall(s, read, seen)
    ensures
      var move := StepMove(s.adapter, s.db, read, seen);
      && Starts(s.adapter, s.db.row, move)
      && Next(s, Control(read, seen)) == AdvanceAt(s, s.db.row, s.db.row.state, move)
      && !Terminal(move.to)
  {
    ControlCall(s.adapter, s.db, read, seen);
  }

  lemma EndedAtLimit(s: Sys, move: Move)
    requires Recorded(s) && !Terminal(s.db.row.state) && !Funded(s.db.row)
    requires move.Step? && move.call.Some? && Starts(s.adapter, s.db.row, move)
    requires AdvanceOf(s, s.db.row.revision, s.db.row.state, move) != Refused
    ensures
      var t := AdvanceAt(s, s.db.row, s.db.row.state, move);
      && Terminal(t.db.row.state) && t.db.row.revision == s.db.row.revision + 1 && t.db.row.revision in t.calls
      && forall holds :: FencePasses(t, t.calls[t.db.row.revision].row, holds) <==> s.db.row.compaction && holds
  {
  }

  /** The fence of a handoff's input never passes once the cycle ended, not even for the call that
      follows an advance which ended it. */
  lemma EndedHandoffIsFenced(s: Sys, revision: nat, holds: bool)
    requires Reachable(s) && !s.db.row.compaction && Terminal(s.db.row.state)
    ensures revision in s.calls ==> !FencePasses(s, s.calls[revision].row, holds)
  {
    ReachableIsSafe(s);
    if revision in s.calls {
      FitsAt(s, revision);
      NoFenceAfterEnd(s, revision, holds);
    }
  }

  lemma NoFenceAfterEnd(s: Sys, revision: nat, holds: bool)
    requires Recorded(s) && Switched(s) && revision in s.calls && CallFitsAt(s, revision)
    requires !s.db.row.compaction && Terminal(s.db.row.state)
    ensures !FencePasses(s, s.calls[revision].row, holds)
  {
    if s.db.row.revision == revision {
      assert s.calls[revision].row == s.db.row;
    }
  }

  // History

  /** pickupRevision holds of exactly the revisions at which the cycle accepted a pickup report. */
  lemma PickupRevisionIsHistory(s: Sys, revision: nat)
    requires Reachable(s)
    ensures PickupRevision(s.db.log, revision) <==>
              1 <= revision <= |s.rows| && AcceptsPickupReport(s.rows[revision - 1])
  {
    ReachableIsSafe(s);
    if 1 <= revision <= |s.rows| {
      RevisionInHistory(s, revision);
    } else {
      RevisionOutside(s, revision);
    }
  }

  /** The query's event at a revision is the one with that ordinal. */
  lemma PickupRevisionAt(log: seq<Event>, now: nat, revision: nat)
    requires Ordered(log, now) && 1 <= revision <= |log|
    ensures
      var first := MinOf(log, |log|, PROVEN, Ordinal);
      PickupRevision(log, revision) <==>
        && first.Some? && revision >= first.value
        && log[revision - 1].stage in {ResetVerified, WaitingPickup, WaitingPrompt, PromptIntent}
  {
    assert log[revision - 1].ordinal == revision;
  }

  lemma RevisionInHistory(s: Sys, revision: nat)
    requires Counted(s) && Recorded(s) && ProvenInHistory(s) && 1 <= revision <= |s.rows|
    ensures PickupRevision(s.db.log, revision) <==> AcceptsPickupReport(s.rows[revision - 1])
  {
    PickupRevisionAt(s.db.log, s.now, revision);
    RowAtRevision(s, revision);
    AcceptsIsPost(s.rows[revision - 1]);
  }

  lemma RowAtRevision(s: Sys, revision: nat)
    requires Counted(s) && Recorded(s) && 1 <= revision <= |s.rows|
    ensures Terminal(s.rows[revision - 1].state) || Shaped(s.rows[revision - 1])
    ensures s.rows[revision - 1].state in {ResetVerified, WaitingPickup, WaitingPrompt, PromptIntent} <==>
              s.db.log[revision - 1].stage in {ResetVerified, WaitingPickup, WaitingPrompt, PromptIntent}
  {
  }

  lemma RevisionOutside(s: Sys, revision: nat)
    requires Counted(s) && Recorded(s) && (revision == 0 || revision > |s.rows|)
    ensures !PickupRevision(s.db.log, revision)
  {
    forall i | 0 <= i < |s.db.log| && s.db.log[i].ordinal == revision
      ensures s.db.log[i].stage == EnableKept
    {
      assert i == |s.rows|;
    }
  }

  /** Among the rows of an unfinished cycle, those after the reset in these stages take the report. */
  lemma AcceptsIsPost(row: Row)
    requires Terminal(row.state) || Shaped(row)
    ensures AcceptsPickupReport(row) <==>
              Post(row) && row.state in {ResetVerified, WaitingPickup, WaitingPrompt, PromptIntent}
  {
  }

  /** No row of an unfinished cycle is before the proof of its reset again. */
  lemma NoReturnAfterReset(s: Sys, i: nat, j: nat)
    requires Reachable(s) && i <= j < |s.rows| && Post(s.rows[i]) && !Terminal(s.rows[j].state)
    ensures Post(s.rows[j])
  {
    ReachableIsSafe(s);
    PostStays(s, i, j);
  }

  lemma PostStays(s: Sys, i: nat, j: nat)
    requires ProvenInHistory(s) && i <= j < |s.rows| && Post(s.rows[i]) && !Terminal(s.rows[j].state)
    ensures Post(s.rows[j])
  {
  }

  /** From ready to the end of the clear, the target names the latest accepted report: its time, and
      the revision that it answered. */
  lemma ReportIsLatest(s: Sys)
    requires Reachable(s) && s.report.Some?
    ensures ReportOf(s.db.log, s.db.row.createdAt) == (s.report.value.at, s.report.value.answered)
    ensures s.db.row.state in {Ready, ClearIntent, ClearReceived} ==> s.db.row.artifact == Some(s.report.value.artifact)
  {
    ReachableIsSafe(s);
    ReportFound(s);
  }

  lemma ReportFound(s: Sys)
    requires Recorded(s) && Reported(s) && s.report.Some?
    ensures ReportOf(s.db.log, s.db.row.createdAt) == (s.report.value.at, s.report.value.answered)
    ensures s.db.row.state in {Ready, ClearIntent, ClearReceived} ==> s.db.row.artifact == Some(s.report.value.artifact)
  {
  }

  /** A cycle past waiting_ready has a report, so the target never falls back on the admission. */
  lemma ReadyHasReport(s: Sys)
    requires Reachable(s) && s.db.row.state in {Ready, ClearIntent, ClearReceived}
    ensures s.report.Some?
  {
    ReachableIsSafe(s);
  }

  /** A completed handoff had an accepted report, then a clear intent, then the proof of its reset;
      it completed with the artifact of the latest report and the epoch that the reset proved. */
  lemma CompletionIsCaused(s: Sys)
    requires Reachable(s) && s.db.row.state == Complete && !s.db.row.compaction
    ensures Reset(s.db.log)
    ensures s.report.Some? && s.db.row.artifact == Some(s.report.value.artifact)
    ensures s.db.row.successorEpoch.Some? && s.db.row.successorEpoch != Some(s.db.row.epoch)
    ensures exists k :: 0 <= k < |s.rows| && s.rows[k].state == ResetVerified
              && s.rows[k].successorEpoch == s.db.row.successorEpoch
  {
    ReachableIsSafe(s);
  }

  // Counters and deadlines

  /** Credit, events and revision are one count: both guards of an advance refuse together, the end
      is always funded, and at most 14 advances follow the admission. */
  lemma CreditIsConserved(s: Sys)
    requires Reachable(s)
    ensures s.db.row.revision <= MAX_EVENTS
    ensures !Terminal(s.db.row.state) ==>
              && s.db.row.events == s.db.row.revision == |s.db.log| <= MAX_EVENTS - 1
              && s.db.row.credit == TERMINAL_PAGES + STAGE_PAGES * (MAX_EVENTS - 1 - s.db.row.events)
              && (s.db.row.credit >= STAGE_PAGES + TERMINAL_PAGES <==> s.db.row.events < MAX_EVENTS - 1)
    ensures Terminal(s.db.row.state) ==> s.db.row.credit == 0
    ensures |s.rows| <= MAX_EVENTS
  {
    ReachableIsSafe(s);
  }

  /** Deadlines never creep: a return to waiting_ready has the newest request's, a compaction's
      return the admission's, and every dialog of a pickup the first dialog's. */
  lemma DeadlinesNeverCreep(s: Sys)
    requires Reachable(s)
    ensures
      var row, log := s.db.row, s.db.log;
      && row.stageDeadline <= row.cycleDeadline == row.createdAt + LIFETIME
      && (row.state == WaitingReady ==>
            row.stageDeadline == Min(RequestedAt(log, row.createdAt) + READY_WAIT, row.cycleDeadline))
      && (row.state == CompactWaiting ==> row.stageDeadline == row.createdAt + READY_WAIT)
      && (InPrompt(row, WaitingPickup) ==>
            && PickupPromptDeadline(log).Some? && row.stageDeadline <= PickupPromptDeadline(log).value
            && (row.state == WaitingPrompt ==>
                  row.stageDeadline == Min(PickupPromptDeadline(log).value, row.cycleDeadline)))
  {
    ReachableIsSafe(s);
    assert Core(s);
  }

  lemma ReachableIsWaited(s: Sys)
    requires Reachable(s)
    ensures Waited(s)
  {
    var adapter, compaction, enable, epoch, now, actions :|
      Reaches(Admitted(adapter, compaction, enable, epoch, now), actions, s);
    AdmittedSafe(adapter, compaction, enable, epoch, now);
    RunWaited(Admitted(adapter, compaction, enable, epoch, now), actions);
  }

  /** The deadline of every unfinished row, in milliseconds. The cycle has 30 minutes. A stage with a wait
      of its own has it from the event that entered the stage, also after further events of the stage; an
      answer's intent of a pickup's dialog is cut by the wait of that dialog. The request has 15 minutes
      from the newest repeated one, or from the admission, a waiting compaction 15 from the admission, and
      the dialogs of a pickup 10 from the first of them. */
  lemma WaitsAreExact(s: Sys)
    requires Reachable(s) && !Terminal(s.db.row.state)
    ensures s.db.row.cycleDeadline == s.db.row.createdAt + 1_800_000
    ensures HasWait(s.db.row) && !InPrompt(s.db.row, WaitingPickup) ==> OwnWait(s.db.row, s.db.log)
    ensures s.db.row.state == WaitingReady ==> RequestWait(s.db.row, s.db.log)
    ensures s.db.row.state == CompactWaiting ==> s.db.row.stageDeadline == s.db.row.createdAt + 900_000
    ensures InPrompt(s.db.row, WaitingPickup) ==> DialogWait(s.db.row, s.db.log)
  {
    ReachableIsSafe(s);
    ReachableIsWaited(s);
    StageWaits(s);
    if InPrompt(s.db.row, WaitingPickup) {
      DialogsWait(s);
    }
  }

  /** The first dialog's deadline holds for the rest of the run. */
  lemma DialogWaitIsFixed(s: Sys, a: Action)
    requires Reachable(s) && Enabled(s, a) && PickupPromptDeadline(s.db.log).Some?
    requires !Terminal(Next(s, a).db.row.state)
    ensures PickupPromptDeadline(Next(s, a).db.log) == PickupPromptDeadline(s.db.log)
  {
    ReachableIsSafe(s);
    var d := NextDid(s, a);
    if d.Moved? {
      StepFollows(s, d.to, d.reason, d.change);
      FollowsOneMore(s, Next(s, a), Event(s.db.row.events + 1, s.now, d.to, d.reason));
      PromptDeadlineAppend(s.db.log, s.now, Event(s.db.row.events + 1, s.now, d.to, d.reason));
    }
  }

  /** A step of the controller that reads the clock at or after the cycle's deadline ends the cycle,
      and nothing in the rest of the run changes its row or its history. */
  lemma LifetimeEnds(s: Sys, read: nat, seen: Seen, rest: seq<Action>)
    requires Reachable(s) && Enabled(s, Control(read, seen)) && read >= s.db.row.cycleDeadline
    requires Runs(Next(s, Control(read, seen)), rest)
    ensures
      var t := Next(s, Control(read, seen));
      && Terminal(t.db.row.state)
      && After(t, rest).db.row == t.db.row && After(t, rest).db.log == t.db.log && After(t, rest).rows == t.rows
  {
    ReachableIsSafe(s);
    NextSafe(s, Control(read, seen));
    EndedForever(Next(s, Control(read, seen)), rest);
  }

  lemma {:induction false} EndedForever(s: Sys, actions: seq<Action>)
    requires Safe(s) && Terminal(s.db.row.state) && Runs(s, actions)
    ensures After(s, actions).db.row == s.db.row && After(s, actions).db.log == s.db.log
    ensures After(s, actions).rows == s.rows
    decreases |actions|
  {
    if actions != [] {
      var d := NextDid(s, actions[0]);
      NextSafe(s, actions[0]);
      EndedForever(Next(s, actions[0]), actions[1..]);
    }
  }

  // The event limit of a compaction

  /** A step of the controller that finds the pane idle and the compaction's checks passed. */
  const GO := Seen(true, true, true, None, Idle, true, true, None, false, false, false, true, None, Go)

  const ENTER := Step(CompactIntent, NoReason, true, Same, Some(Compact))

  /** A compaction admitted at a time waits to go, with its events so far. */
  ghost predicate WaitsToCompact(s: Sys, at: nat, events: nat) {
    var row := s.db.row;
    && s.adapter == Pane && row.compaction && row.state == CompactWaiting && row.promptFrom == None
    && row.revision == row.events == events < MAX_EVENTS
    && row.credit == TERMINAL_PAGES + STAGE_PAGES * (MAX_EVENTS - 1 - events)
    && row.createdAt == s.now == at && row.stageDeadline == at + READY_WAIT && row.cycleDeadline == at + LIFETIME
    && s.calls == map[] && CycleEnabled(s.db) && Made(s, Compact) == 0
  }

  lemma GoEnters(db: Db, at: nat)
    requires db.row.state == CompactWaiting && at < db.row.stageDeadline && at < db.row.cycleDeadline
    ensures StepMove(Pane, db, at, GO) == ENTER
  {
  }

  /** A compaction in its intent, with its call not yet fenced. */
  ghost predicate Compacts(s: Sys, at: nat, events: nat) {
    var row := s.db.row;
    && s.adapter == Pane && row.compaction && row.state == CompactIntent && row.promptFrom == None
    && row.revision == row.events == events < MAX_EVENTS
    && row.credit == TERMINAL_PAGES + STAGE_PAGES * (MAX_EVENTS - 1 - events)
    && row.createdAt == s.now == at && row.stageDeadline == at + RECEIPT_WAIT && row.cycleDeadline == at + LIFETIME
    && s.calls == map[events := InFlight(Compact, row, None, false, false)] && CycleEnabled(s.db)
    && Made(s, Compact) == 0
  }

  lemma Enters(s: Sys, at: nat, events: nat)
    requires WaitsToCompact(s, at, events) && events + 1 < MAX_EVENTS
    ensures Enabled(s, Control(at, GO)) && Compacts(Next(s, Control(at, GO)), at, events + 1)
  {
    GoEnters(s.db, at);
  }

  lemma Refuses(s: Sys, at: nat, events: nat)
    requires Compacts(s, at, events) && events + 1 < MAX_EVENTS
    ensures Enabled(s, Return(events, NotSent(0)))
    ensures WaitsToCompact(Next(s, Return(events, NotSent(0))), at, events + 1)
  {
    assert s.calls - {events} == map[];
  }

  lemma OneStep(s: Sys, a: Action)
    requires Enabled(s, a)
    ensures Runs(s, [a]) && After(s, [a]) == Next(s, a)
  {
    assert [a][1..] == [];
    assert Runs(Next(s, a), []);
  }

  lemma TwoSteps(s: Sys, a: Action, b: Action)
    requires Enabled(s, a) && Enabled(Next(s, a), b)
    ensures Runs(s, [a, b]) && After(s, [a, b]) == Next(Next(s, a), b)
  {
    OneStep(Next(s, a), b);
    assert [a, b][1..] == [b];
  }

  lemma {:induction false} RunsOn(s: Sys, first: seq<Action>, more: seq<Action>)
    requires Runs(s, first) && Runs(After(s, first), more)
    ensures Runs(s, first + more) && After(s, first + more) == After(After(s, first), more)
    decreases |first|
  {
    if first == [] {
      assert first + more == more;
    } else {
      RunsOn(Next(s, first[0]), first[1..], more);
      assert (first + more)[1..] == first[1..] + more;
    }
  }

  /** A compaction that was not submitted is tried again, two events later, so seven refusals fill
      the events of a cycle. */
  lemma {:induction false} Tries(enable: Enable, epoch: nat, at: nat, n: nat) returns (actions: seq<Action>)
    requires enable.enabled && n <= 7
    ensures Runs(Admitted(Pane, true, enable, epoch, at), actions)
    ensures WaitsToCompact(After(Admitted(Pane, true, enable, epoch, at), actions), at, 1 + 2 * n)
  {
    var start := Admitted(Pane, true, enable, epoch, at);
    if n == 0 {
      actions := [];
    } else {
      var earlier := Tries(enable, epoch, at, n - 1);
      var s, go, refused := After(start, earlier), Control(at, GO), Return(2 * n, NotSent(0));
      Enters(s, at, 2 * n - 1);
      Refuses(Next(s, go), at, 2 * n);
      TwoSteps(s, go, refused);
      RunsOn(start, earlier, [go, refused]);
      actions := earlier + [go, refused];
    }
  }

  /** Then the step that starts the compaction ends it at the event limit, and its call is fenced. */
  lemma LimitKeepsFence(s: Sys, at: nat)
    requires WaitsToCompact(s, at, MAX_EVENTS - 1)
    ensures
      var t, r := Next(s, Control(at, GO)), MAX_EVENTS;
      && Enabled(s, Control(at, GO)) && t.db.row.state == Failed && t.db.row.revision == r && t.sent == s.sent
      && Enabled(t, Fence(r, true)) && Enabled(Next(t, Fence(r, true)), Submit(r)) && t.calls[r].call == Compact
  {
    GoEnters(s.db, at);
  }

  lemma FenceAndSubmit(t: Sys, r: nat)
    requires Enabled(t, Fence(r, true)) && Enabled(Next(t, Fence(r, true)), Submit(r))
    ensures
      var u, e := Next(Next(t, Fence(r, true)), Submit(r)), Effect(t.calls[r].call, r);
      u.db == t.db && u.sent == t.sent + [e] && Made(u, e.call) == Made(t, e.call) + 1
  {
    CountAppend(t.sent, Effect(t.calls[r].call, r), t.calls[r].call);
  }

  lemma LimitIsEntered(s: Sys, at: nat) returns (actions: seq<Action>)
    requires WaitsToCompact(s, at, MAX_EVENTS - 1)
    ensures Runs(s, actions)
    ensures
      var t := After(s, actions);
      t.db.row.state == Failed && Made(t, Compact) == 1 && t.sent[|t.sent| - 1] == Effect(Compact, t.db.row.revision)
  {
    var go, r := Control(at, GO), MAX_EVENTS;
    LimitKeepsFence(s, at);
    var t := Next(s, go);
    OneStep(s, go);
    FenceAndSubmit(t, r);
    TwoSteps(t, Fence(r, true), Submit(r));
    RunsOn(s, [go], [Fence(r, true), Submit(r)]);
    actions := [go] + [Fence(r, true), Submit(r)];
  }

  /** For every Enable that is on, and at every time, there is a run that enters a compaction after
      its cycle ended. */
  lemma EndedCompactionIsEntered(enable: Enable, epoch: nat, at: nat) returns (actions: seq<Action>)
    requires enable.enabled
    ensures Runs(Admitted(Pane, true, enable, epoch, at), actions)
    ensures
      var s := After(Admitted(Pane, true, enable, epoch, at), actions);
      s.db.row.state == Failed && Made(s, Compact) == 1 && s.sent[|s.sent| - 1] == Effect(Compact, s.db.row.revision)
  {
    var start := Admitted(Pane, true, enable, epoch, at);
    var tries := Tries(enable, epoch, at, 7);
    var last := LimitIsEntered(After(start, tries), at);
    RunsOn(start, tries, last);
    actions := tries + last;
  }
}
