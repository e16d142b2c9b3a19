/** What every transaction of a cycle keeps: its counters, its rows against its history, its
    deadlines, and what the history queries find. */
module CycleSafety {
  import opened Options
  import opened Cycle
  import opened CycleRuns
  import opened CycleHistory

  // Stages

  /** The reset is proven. */
  predicate Post(row: Row) {
    row.state == ResetVerified || row.state == PickupIntent || AwaitingPickup(row) || InPrompt(row, ResetVerified)
  }

  /** The reset is not entered. */
  predicate Pre(row: Row) {
    row.state == WaitingReady || row.state == Ready || InPrompt(row, Ready)
  }

  predicate Compaction(state: Stage) {
    state == CompactWaiting || state == CompactIntent || state == CompactSent
  }

  /** The stages of an unfinished handoff and of an unfinished compaction. */
  predicate Shaped(row: Row) {
    if row.compaction then Compaction(row.state) && row.promptFrom == None
    else
      && (Pre(row) || row.state == ClearIntent || row.state == ClearReceived || Post(row))
      && (row.promptFrom.Some? <==> row.state == WaitingPrompt || row.state == PromptIntent)
  }

  /** The transitions between unfinished stages, with the reason and the change of each. */
  predicate Edge(adapter: Adapter, db: Db, to: Stage, reason: Reason, change: Change) {
    var row := db.row;
    match row.state
    case WaitingReady => to == Ready && reason == NoReason && change.SetArtifact?
    case Ready =>
      || (to == WaitingPrompt && reason.Dialog? && change == BeginPrompt(Ready))
      || (to == WaitingReady && (reason == ArtifactChanged || reason.NotIdle?) && change == DropArtifact)
      || (to == ClearIntent && reason == NoReason && change == Same)
    case ClearIntent =>
      || (to == Ready && reason.Unsent? && change == Same)
      || (to == ClearReceived && reason == NoReason &&
          if adapter == Session then change.SetSuccessor? && change.epoch != row.epoch else change == Same)
      || (to == ResetVerified && reason == NoReason && adapter == Pane && change.SetSuccessor?
          && change.epoch != row.epoch)
    case ClearReceived =>
      || (to == ClearReceived && adapter == Session && reason == SelectSent && change == Same
          && !SelectRecorded(db.log))
      || (to == Ready && adapter == Session && reason.Unsent? && change == Same)
      || (to == ResetVerified && reason == NoReason && change.SetSuccessor? && change.epoch != row.epoch &&
          (adapter == Session ==> Some(change.epoch) == row.successorEpoch && SelectRecorded(db.log)))
    case ResetVerified =>
      || (to == WaitingPrompt && reason.Dialog? && change == BeginPrompt(ResetVerified))
      || (to == PickupIntent && reason == NoReason && change == Same)
    case PickupIntent => to == WaitingPickup && reason == NoReason && change == Same
    case WaitingPickup =>
      || (to == WaitingPickup && reason == PickupDisplayed && change == Same)
      || (to == WaitingPrompt && reason == NativeDialog && change == BeginPrompt(WaitingPickup))
    case WaitingPrompt =>
      || (to == PromptIntent && change == Same)
      || (row.promptFrom != Some(WaitingPickup) && Some(to) == row.promptFrom && reason == PromptResolved
          && change == EndPrompt)
    case PromptIntent =>
      || (to == WaitingPrompt && (reason == NativeDialog || reason == PromptAnswered) && change == Same)
      || (row.promptFrom != Some(WaitingPickup) && Some(to) == row.promptFrom && reason == PromptAnswered
          && change == EndPrompt)
    case CompactWaiting => to == CompactIntent && reason == NoReason && change == Same
    case CompactIntent =>
      change == Same && ((to == CompactWaiting && reason.NotSubmitted?) || (to == CompactSent && reason == NoReason))
    case _ => false
  }

  /** The database after a transition. */
  function Stepped(db: Db, now: nat, to: Stage, reason: Reason, change: Change): Db
    requires NextDeadline(db.row, db.log + [Event(db.row.events + 1, now, to, reason)], now, to).Some?
    requires db.row.credit >= STAGE_PAGES
  {
    var row := db.row;
    var log := db.log + [Event(row.events + 1, now, to, reason)];
    Db(StageRow(row, to, reason, change, NextDeadline(row, log, now, to).value), log, db.enable)
  }

  // The invariant

  /** Events, revision and credit. */
  ghost predicate Counted(s: Sys) {
    var row, log := s.db.row, s.db.log;
    && Ordered(log, s.now) && |log| == row.events && |log| > 0
    && log[0].stage == Requested && log[0].at == row.createdAt && log[0].reason == NoReason
    && if Terminal(row.state)
       then row.credit == 0 && 2 <= row.revision <= MAX_EVENTS &&
            (row.events == row.revision || (row.events == row.revision + 1 && log[row.revision].stage == EnableKept))
       else
         && row.events == row.revision < MAX_EVENTS
         && row.credit == TERMINAL_PAGES + STAGE_PAGES * (MAX_EVENTS - 1 - row.events)
  }

  ghost predicate SameCycle(a: Row, b: Row) {
    && a.compaction == b.compaction && a.enableRevision == b.enableRevision && a.epoch == b.epoch
    && a.createdAt == b.createdAt && a.cycleDeadline == b.cycleDeadline
  }

  /** Each revision's row, and its stage in the history. */
  ghost predicate Recorded(s: Sys) {
    var n := |s.rows|;
    && 0 < n == s.db.row.revision && n <= |s.db.log| && s.rows[n - 1] == s.db.row
    && (forall i :: 0 <= i < n ==> s.rows[i].revision == i + 1 && SameCycle(s.rows[i], s.db.row))
    && (forall i :: 0 <= i < n - 1 ==> !Terminal(s.rows[i].state) && Shaped(s.rows[i]))
    && (forall i :: 0 < i < n ==> s.rows[i].state == s.db.log[i].stage && s.rows[i].reason == s.db.log[i].reason)
    && (s.rows[0].state == if s.db.row.compaction then CompactWaiting else WaitingReady)
    && (!Terminal(s.db.row.state) ==> Shaped(s.db.row))
  }

  ghost predicate Timed(s: Sys) {
    Bounded(s) && PickupTimed(s)
  }

  /** The stage deadline: never after the cycle's own, and in the waits that a return keeps, that of
      the request. */
  ghost predicate Bounded(s: Sys) {
    var row, log := s.db.row, s.db.log;
    && row.createdAt <= s.now && row.cycleDeadline == row.createdAt + LIFETIME && row.stageDeadline <= row.cycleDeadline
    && (row.state == WaitingReady ==>
          row.stageDeadline == Min(RequestedAt(log, row.createdAt) + READY_WAIT, row.cycleDeadline))
    && (row.state == CompactWaiting ==> row.stageDeadline == row.createdAt + READY_WAIT)
  }

  /** All dialogs of a pickup share the wait of the first one. */
  ghost predicate PickupTimed(s: Sys) {
    var row, log := s.db.row, s.db.log;
    var wait := PickupPromptDeadline(log);
    && (!Terminal(row.state) ==> (AwaitingPickup(row) <==> MinOf(log, |log|, Stages({WaitingPickup}), Ordinal).Some?))
    && (row.state == WaitingPickup ==> wait == None)
    && (InPrompt(row, WaitingPickup) ==>
          && wait.Some? && row.stageDeadline <= wait.value
          && (row.state == WaitingPrompt ==> row.stageDeadline == Min(wait.value, row.cycleDeadline)))
  }

  /** The proof of the reset in the history, of the current row and of each earlier one. */
  ghost predicate ProvenInHistory(s: Sys) {
    var first := MinOf(s.db.log, |s.db.log|, PROVEN, Ordinal);
    && (first.Some? ==> first.value <= |s.rows|)
    && forall i :: 0 <= i < |s.rows| && !Terminal(s.rows[i].state) ==>
         (Post(s.rows[i]) <==> first.Some? && first.value <= i + 1)
  }

  /** The accepted report in the history. */
  ghost predicate Reported(s: Sys) {
    var row, log := s.db.row, s.db.log;
    var ordinal := MaxOf(log, |log|, REPORTED, Ordinal);
    && (s.report == None ==> ordinal == None)
    && (s.report.Some? ==>
          && ordinal == Some(s.report.value.answered + 1) && ordinal.value <= |log|
          && log[ordinal.value - 1].at == s.report.value.at)
    && (!row.compaction && !Terminal(row.state) ==>
          if row.state == WaitingReady then row.artifact == None
          else s.report.Some? && row.artifact == Some(s.report.value.artifact))
  }

  ghost predicate Accepted(log: seq<Event>) {
    exists i :: 0 <= i < |log| && log[i].stage == Ready && log[i].reason == NoReason
  }

  /** An accepted report, and then a clear intent, and then the proof of the reset. */
  ghost predicate Cleared(log: seq<Event>) {
    exists i, j :: ClearedAt(log, i, j)
  }

  predicate ClearedAt(log: seq<Event>, i: int, j: int) {
    0 <= i < j < |log| && log[i].stage == Ready && log[i].reason == NoReason && log[j].stage == ClearIntent
  }

  ghost predicate Reset(log: seq<Event>) {
    exists i, j, k :: ResetAt(log, i, j, k)
  }

  predicate ResetAt(log: seq<Event>, i: int, j: int, k: int) {
    ClearedAt(log, i, j) && j < k < |log| && log[k].stage == ResetVerified
  }

  ghost predicate Caused(s: Sys) {
    var row, log := s.db.row, s.db.log;
    !row.compaction && !Terminal(row.state) ==>
      && (row.state != WaitingReady ==> Accepted(log))
      && (row.state == ClearIntent || row.state == ClearReceived ==> Cleared(log))
      && (Post(row) ==> Reset(log) && ProvenEpoch(s))
      && (row.successorEpoch.Some? ==> row.successorEpoch != Some(row.epoch))
  }

  /** The row has the epoch that its reset proved. */
  ghost predicate ProvenEpoch(s: Sys) {
    && s.db.row.successorEpoch.Some?
    && exists k ::
         && 0 <= k < |s.rows| && s.rows[k].state == ResetVerified
         && s.rows[k].successorEpoch == s.db.row.successorEpoch
  }

  /** The select query says whether the select's intent is recorded and not refused. */
  ghost predicate Selected(s: Sys) {
    var row, log := s.db.row, s.db.log;
    && (!Terminal(row.state) && row.state != ClearReceived && !Post(row) ==> !SelectRecorded(log))
    && (row.state == ClearReceived ==>
          && (SelectRecorded(log) <==> row.reason == SelectSent)
          && (s.adapter == Session ==> row.successorEpoch.Some?)
          && (s.adapter == Pane ==> row.reason != SelectSent))
  }

  ghost predicate Core(s: Sys) {
    Counted(s) && Recorded(s) && Timed(s) && ProvenInHistory(s) && Reported(s) && Caused(s) && Selected(s)
  }

  // Transitions between unfinished stages

  ghost predicate CanStep(s: Sys, to: Stage, reason: Reason, change: Change) {
    && !Terminal(s.db.row.state) && Funded(s.db.row) && Edge(s.adapter, s.db, to, reason, change)
    && NextDeadline(s.db.row, s.db.log + [Event(s.db.row.events + 1, s.now, to, reason)], s.now, to).Some?
  }

  /** The report that a transition out of waiting_ready records. */
  function NewReport(s: Sys, change: Change): Option<Report> {
    if s.db.row.state == WaitingReady && change.SetArtifact?
    then Some(Report(s.now, s.db.row.revision, change.artifact))
    else s.report
  }

  function StepSys(s: Sys, to: Stage, reason: Reason, change: Change): Sys
    requires CanStep(s, to, reason, change)
  {
    WithDb(s, Stepped(s.db, s.now, to, reason, change)).(report := NewReport(s, change))
  }

  /** A transition, without its reasons. */
  ghost predicate Follows(s: Sys, t: Sys, e: Event) {
    && t.db.log == s.db.log + [e] && t.rows == s.rows + [t.db.row] && t.now == s.now && t.adapter == s.adapter
    && e.ordinal == s.db.row.events + 1 && e.at == s.now && !Terminal(s.db.row.state) && !Terminal(e.stage)
    && t.db.row.revision == s.db.row.revision + 1 && t.db.row.events == s.db.row.events + 1
    && t.db.row.state == e.stage && t.db.row.reason == e.reason
    && SameCycle(s.db.row, t.db.row) && Shaped(s.db.row) && Shaped(t.db.row)
  }

  lemma StepFollows(s: Sys, to: Stage, reason: Reason, change: Change)
    requires CanStep(s, to, reason, change) && Shaped(s.db.row)
    ensures Follows(s, StepSys(s, to, reason, change), Event(s.db.row.events + 1, s.now, to, reason))
  {
  }

  lemma FollowsOneMore(s: Sys, t: Sys, e: Event)
    requires Counted(s) && Follows(s, t, e)
    ensures OneMore(s.db.log, s.now, e)
  {
  }

  lemma StepCounted(s: Sys, t: Sys, e: Event)
    requires Counted(s) && Follows(s, t, e) && Funded(s.db.row) && t.db.row.credit == s.db.row.credit - STAGE_PAGES
    ensures Counted(t)
  {
    OrderedAppend(s.db.log, s.now, e);
  }

  lemma StepRecorded(s: Sys, t: Sys, e: Event)
    requires Counted(s) && Recorded(s) && Follows(s, t, e)
    ensures Recorded(t)
  {
  }

  // The deadlines

  lemma PickupAppend(log: seq<Event>, now: nat, e: Event)
    requires OneMore(log, now, e)
    ensures
      var first := MinOf(log, |log|, Stages({WaitingPickup}), Ordinal);
      MinOf(log + [e], |log| + 1, Stages({WaitingPickup}), Ordinal) ==
        if first.Some? || e.stage != WaitingPickup then first else Some(e.ordinal)
  {
    MinAppend(log, now, e, Stages({WaitingPickup}), Ordinal);
  }

  lemma RequestAppend(log: seq<Event>, now: nat, e: Event, createdAt: nat)
    requires OneMore(log, now, e)
    ensures RequestedAt(log + [e], createdAt) ==
            if e.stage == WaitingReady && e.reason.NotIdle? then now else RequestedAt(log, createdAt)
  {
    MaxAppend(log, now, e, REPEATED, At);
  }

  /** The wait for a dialog of the pickup: its first dialog sets it. */
  lemma PromptDeadlineAppend(log: seq<Event>, now: nat, e: Event)
    requires OneMore(log, now, e)
    ensures
      PickupPromptDeadline(log + [e]) ==
        if PickupPromptDeadline(log).Some? then PickupPromptDeadline(log)
        else if e.stage == WaitingPrompt && MinOf(log, |log|, Stages({WaitingPickup}), Ordinal).Some?
        then Some(now + PROMPT_WAIT)
        else None
  {
    PickupAppend(log, now, e);
    var first := MinOf(log, |log|, Stages({WaitingPickup}), Ordinal);
    if first.Some? {
      FoundIn(log, |log|, Stages({WaitingPickup}), Ordinal);
      MinAppend(log, now, e, Filter({WaitingPrompt}, AnyReason, first.value), At);
    } else if e.stage == WaitingPickup {
      NoneAfter(log + [e], now, {WaitingPrompt}, e.ordinal);
    }
  }

  lemma NoneAfter(log: seq<Event>, now: nat, stages: set<Stage>, above: nat)
    requires Ordered(log, now) && above >= |log|
    ensures MinOf(log, |log|, Filter(stages, AnyReason, above), At) == None
  {
    FoundIn(log, |log|, Filter(stages, AnyReason, above), At);
  }

  lemma EdgeDeadline(s: Sys, to: Stage, reason: Reason, change: Change)
    requires CanStep(s, to, reason, change) && Shaped(s.db.row)
    ensures
      var row, t := s.db.row, StepSys(s, to, reason, change);
      && t.db.row.stageDeadline == Min(NextDeadline(row, t.db.log, s.now, to).value, row.cycleDeadline)
      && (row.state == to ==> to == WaitingPickup || to == ClearReceived)
  {
  }

  lemma EdgePickup(s: Sys, to: Stage, reason: Reason, change: Change)
    requires CanStep(s, to, reason, change) && Shaped(s.db.row)
    ensures
      var row, next := s.db.row, StepSys(s, to, reason, change).db.row;
      && (AwaitingPickup(next) <==> AwaitingPickup(row) || to == WaitingPickup)
      && (to == WaitingPickup ==> row.state == PickupIntent || row.state == WaitingPickup)
      && (InPrompt(next, WaitingPickup) ==>
            || (row.state == WaitingPickup && to == WaitingPrompt && row.promptFrom == None)
            || (InPrompt(row, WaitingPickup) && row.state != to))
  {
  }

  lemma StepBounded(s: Sys, to: Stage, reason: Reason, change: Change)
    requires Counted(s) && Recorded(s) && Bounded(s) && CanStep(s, to, reason, change)
    ensures Bounded(StepSys(s, to, reason, change))
  {
    StepFollows(s, to, reason, change);
    EdgeDeadline(s, to, reason, change);
  }

  lemma StepPickupTimed(s: Sys, to: Stage, reason: Reason, change: Change)
    requires Counted(s) && Recorded(s) && PickupTimed(s) && CanStep(s, to, reason, change)
    ensures PickupTimed(StepSys(s, to, reason, change))
  {
    var t, e := StepSys(s, to, reason, change), Event(s.db.row.events + 1, s.now, to, reason);
    StepFollows(s, to, reason, change);
    EdgeDeadline(s, to, reason, change);
    EdgePickup(s, to, reason, change);
    PickupAppend(s.db.log, s.now, e);
    PromptDeadlineAppend(s.db.log, s.now, e);
  }

  // The proof of the reset

  lemma ProvenAppend(log: seq<Event>, now: nat, e: Event)
    requires OneMore(log, now, e)
    ensures
      var first := MinOf(log, |log|, PROVEN, Ordinal);
      MinOf(log + [e], |log| + 1, PROVEN, Ordinal) ==
        if first.Some? || (e.stage != ResetVerified && e.stage != WaitingPickup) then first else Some(e.ordinal)
  {
    MinAppend(log, now, e, PROVEN, Ordinal);
  }

  lemma EdgePost(s: Sys, to: Stage, reason: Reason, change: Change)
    requires CanStep(s, to, reason, change) && Shaped(s.db.row)
    ensures Post(StepSys(s, to, reason, change).db.row) <==>
              Post(s.db.row) || to == ResetVerified || to == WaitingPickup
  {
  }

  lemma StepProven(s: Sys, t: Sys, e: Event)
    requires Counted(s) && Recorded(s) && ProvenInHistory(s) && Follows(s, t, e)
    requires Post(t.db.row) <==> Post(s.db.row) || e.stage == ResetVerified || e.stage == WaitingPickup
    ensures ProvenInHistory(t)
  {
    ProvenAppend(s.db.log, s.now, e);
    var n := |s.rows|;
    assert s.rows[n - 1] == s.db.row && t.rows[n] == t.db.row;
    assert forall i :: 0 <= i < n ==> t.rows[i] == s.rows[i];
  }

  // The report

  lemma ReportAppend(log: seq<Event>, now: nat, e: Event)
    requires OneMore(log, now, e)
    ensures
      MaxOf(log + [e], |log| + 1, REPORTED, Ordinal) ==
        if e.stage == Ready && e.reason == NoReason then Some(e.ordinal) else MaxOf(log, |log|, REPORTED, Ordinal)
  {
    MaxAppend(log, now, e, REPORTED, Ordinal);
  }

  /** Only a report enters ready without a reason, and only a return to waiting_ready drops it. */
  lemma EdgeReport(s: Sys, to: Stage, reason: Reason, change: Change)
    requires CanStep(s, to, reason, change) && Shaped(s.db.row) && !s.db.row.compaction
    ensures
      var row := StepSys(s, to, reason, change).db.row;
      && (to == Ready && reason == NoReason <==> s.db.row.state == WaitingReady)
      && (s.db.row.state == WaitingReady ==> change.SetArtifact? && row.artifact == Some(change.artifact))
      && (to == WaitingReady ==> row.artifact == None)
      && (s.db.row.state != WaitingReady && to != WaitingReady ==> row.artifact == s.db.row.artifact)
  {
  }

  lemma CompactionReport(s: Sys, to: Stage, reason: Reason, change: Change)
    requires CanStep(s, to, reason, change) && Shaped(s.db.row) && s.db.row.compaction
    ensures to != Ready && s.db.row.state != WaitingReady
  {
  }

  lemma StepReported(s: Sys, t: Sys, e: Event, report: Option<Report>)
    requires Counted(s) && Recorded(s) && Reported(s) && Follows(s, t, e) && t.report == report
    requires e.stage == Ready && e.reason == NoReason <==> s.db.row.state == WaitingReady
    requires report == if s.db.row.state == WaitingReady && t.db.row.artifact.Some?
                       then Some(Report(s.now, s.db.row.revision, t.db.row.artifact.value)) else s.report
    requires s.db.row.state == WaitingReady ==> t.db.row.artifact.Some?
    requires e.stage == WaitingReady ==> t.db.row.artifact == None
    requires !s.db.row.compaction && s.db.row.state != WaitingReady && e.stage != WaitingReady ==>
               t.db.row.artifact == s.db.row.artifact
    ensures Reported(t)
  {
    ReportAppend(s.db.log, s.now, e);
  }

  // The chain of a completion

  lemma ClearedGrows(log: seq<Event>, e: Event)
    requires Cleared(log)
    ensures Cleared(log + [e])
  {
    var i, j :| ClearedAt(log, i, j);
    assert ClearedAt(log + [e], i, j);
  }

  lemma ResetGrows(log: seq<Event>, e: Event)
    requires Reset(log)
    ensures Reset(log + [e])
  {
    var i, j, k :| ResetAt(log, i, j, k);
    assert ResetAt(log + [e], i, j, k);
  }

  lemma AcceptedGrows(log: seq<Event>, e: Event)
    ensures Accepted(log) ==> Accepted(log + [e])
    ensures e.stage == Ready && e.reason == NoReason ==> Accepted(log + [e])
  {
    var more := log + [e];
    assert more[|log|] == e;
    if Accepted(log) {
      var i :| 0 <= i < |log| && log[i].stage == Ready && log[i].reason == NoReason;
      assert more[i] == log[i];
    }
  }

  lemma ClearBegins(log: seq<Event>, e: Event)
    requires Accepted(log) && e.stage == ClearIntent
    ensures Cleared(log + [e])
  {
    var i :| 0 <= i < |log| && log[i].stage == Ready && log[i].reason == NoReason;
    assert ClearedAt(log + [e], i, |log|);
  }

  lemma ResetBegins(log: seq<Event>, e: Event)
    requires Cleared(log) && e.stage == ResetVerified
    ensures Reset(log + [e])
  {
    var i, j :| ClearedAt(log, i, j);
    assert ResetAt(log + [e], i, j, |log|);
  }

  lemma StepChain(s: Sys, t: Sys, e: Event)
    requires Caused(s) && Follows(s, t, e) && !s.db.row.compaction
    requires s.db.row.state == WaitingReady ==> e.stage == Ready && e.reason == NoReason
    requires e.stage == ClearIntent ==> s.db.row.state == Ready
    requires e.stage == ClearReceived ==> s.db.row.state == ClearIntent || s.db.row.state == ClearReceived
    requires Post(t.db.row) ==>
               || Post(s.db.row)
               || (e.stage == ResetVerified && (s.db.row.state == ClearIntent || s.db.row.state == ClearReceived))
    ensures t.db.row.state != WaitingReady ==> Accepted(t.db.log)
    ensures t.db.row.state == ClearIntent || t.db.row.state == ClearReceived ==> Cleared(t.db.log)
    ensures Post(t.db.row) ==> Reset(t.db.log)
  {
    AcceptedGrows(s.db.log, e);
    if e.stage == ClearIntent {
      ClearBegins(s.db.log, e);
    } else if e.stage == ClearReceived {
      ClearedGrows(s.db.log, e);
    } else if Post(s.db.row) {
      ResetGrows(s.db.log, e);
    } else if Post(t.db.row) {
      ResetBegins(s.db.log, e);
    }
  }

  lemma EdgeChain(s: Sys, to: Stage, reason: Reason, change: Change)
    requires CanStep(s, to, reason, change) && Shaped(s.db.row) && !s.db.row.compaction
    ensures
      var row, next := s.db.row, StepSys(s, to, reason, change).db.row;
      && (row.state == WaitingReady ==> to == Ready && reason == NoReason)
      && (to == ClearIntent ==> row.state == Ready)
      && (to == ClearReceived ==> row.state == ClearIntent || row.state == ClearReceived)
      && (Post(next) ==>
            || Post(row)
            || (to == ResetVerified && change.SetSuccessor?
                && (row.state == ClearIntent || row.state == ClearReceived)))
      && (Post(row) ==> Post(next))
      && (if change.SetSuccessor? then next.successorEpoch == Some(change.epoch) && change.epoch != row.epoch
          else next.successorEpoch == row.successorEpoch)
      && (Post(row) ==> !change.SetSuccessor?)
  {
  }

  lemma StepProvenEpoch(s: Sys, t: Sys, e: Event)
    requires Follows(s, t, e) && t.db.row.successorEpoch.Some?
    requires (ProvenEpoch(s) && t.db.row.successorEpoch == s.db.row.successorEpoch) || e.stage == ResetVerified
    ensures ProvenEpoch(t)
  {
    assert t.rows[|s.rows|] == t.db.row;
    if e.stage != ResetVerified {
      var k :| 0 <= k < |s.rows| && s.rows[k].state == ResetVerified &&
               s.rows[k].successorEpoch == s.db.row.successorEpoch;
      assert t.rows[k] == s.rows[k];
    }
  }

  lemma StepCaused(s: Sys, to: Stage, reason: Reason, change: Change)
    requires Recorded(s) && Caused(s) && CanStep(s, to, reason, change)
    ensures Caused(StepSys(s, to, reason, change))
  {
    var t, e := StepSys(s, to, reason, change), Event(s.db.row.events + 1, s.now, to, reason);
    StepFollows(s, to, reason, change);
    if !s.db.row.compaction {
      EdgeChain(s, to, reason, change);
      StepChain(s, t, e);
      if Post(t.db.row) {
        StepProvenEpoch(s, t, e);
      }
    }
  }

  // The select query

  lemma SelectAppend(log: seq<Event>, now: nat, e: Event)
    requires OneMore(log, now, e)
    ensures
      SelectRecorded(log + [e]) <==>
        e.stage != Ready && (SelectRecorded(log) || (e.stage == ClearReceived && e.reason == SelectSent))
  {
    var ready := MaxOf(log, |log|, Stages({Ready}), Ordinal);
    var above := if ready == None then 0 else ready.value;
    MaxAppend(log, now, e, Stages({Ready}), Ordinal);
    if e.stage == Ready {
      OrderedAppend(log, now, e);
      NoneAbove(log + [e], now, {ClearReceived}, Exactly(SelectSent), e.ordinal);
    } else {
      FoundIn(log, |log|, Stages({Ready}), Ordinal);
      MaxAppend(log, now, e, Filter({ClearReceived}, Exactly(SelectSent), above), Ordinal);
    }
  }

  lemma EdgeSelect(s: Sys, to: Stage, reason: Reason, change: Change)
    requires CanStep(s, to, reason, change) && Shaped(s.db.row)
    ensures
      var row, next := s.db.row, StepSys(s, to, reason, change).db.row;
      && (to == ClearReceived ==>
            || (row.state == ClearIntent && reason == NoReason && (s.adapter == Session ==> next.successorEpoch.Some?))
            || (row.state == ClearReceived && reason == SelectSent && s.adapter == Session
                && next.successorEpoch == row.successorEpoch))
      && (row.state == ClearReceived ==> to == ClearReceived || to == Ready || to == ResetVerified)
      && (Post(row) ==> Post(next))
  {
  }

  lemma StepSelected(s: Sys, to: Stage, reason: Reason, change: Change)
    requires Counted(s) && Recorded(s) && Selected(s) && CanStep(s, to, reason, change)
    ensures Selected(StepSys(s, to, reason, change))
  {
    var e := Event(s.db.row.events + 1, s.now, to, reason);
    StepFollows(s, to, reason, change);
    EdgeSelect(s, to, reason, change);
    SelectAppend(s.db.log, s.now, e);
  }

  // All of it

  lemma StepReportedAll(s: Sys, to: Stage, reason: Reason, change: Change)
    requires Counted(s) && Recorded(s) && Reported(s) && CanStep(s, to, reason, change)
    ensures Reported(StepSys(s, to, reason, change))
  {
    var e := Event(s.db.row.events + 1, s.now, to, reason);
    var t := StepSys(s, to, reason, change);
    StepFollows(s, to, reason, change);
    if s.db.row.compaction {
      CompactionReport(s, to, reason, change);
    } else {
      EdgeReport(s, to, reason, change);
    }
    StepReported(s, t, e, t.report);
  }

  lemma StepCore(s: Sys, to: Stage, reason: Reason, change: Change)
    requires Core(s) && CanStep(s, to, reason, change)
    ensures Core(StepSys(s, to, reason, change))
  {
    var t, e := StepSys(s, to, reason, change), Event(s.db.row.events + 1, s.now, to, reason);
    StepFollows(s, to, reason, change);
    StepCounted(s, t, e);
    StepRecorded(s, t, e);
    StepBounded(s, to, reason, change);
    StepPickupTimed(s, to, reason, change);
    EdgePost(s, to, reason, change);
    StepProven(s, t, e);
    StepReportedAll(s, to, reason, change);
    StepCaused(s, to, reason, change);
    StepSelected(s, to, reason, change);
  }

  // Ends

  /** An end of the cycle; a pickup's end sets the successor's epoch in the same write. */
  function EndSys(s: Sys, successorEpoch: Option<nat>, outcome: Stage, reason: Reason): Sys {
    WithDb(s, EndTx(s.db.(row := s.db.row.(successorEpoch := successorEpoch)), s.adapter, s.now, outcome, reason))
  }

  /** The last events of a cycle are none that a query of its unfinished stages looks for. */
  ghost predicate Final(log: seq<Event>, more: seq<Event>, now: nat) {
    && 1 <= |more| <= 2 && (|more| == 2 ==> more[1].stage == EnableKept)
    && (forall i :: 0 <= i < |more| ==> more[i].ordinal == |log| + i + 1 && more[i].at == now
                                        && (Terminal(more[i].stage) || more[i].stage == EnableKept))
  }

  lemma FinalQueries(log: seq<Event>, now: nat, more: seq<Event>)
    requires Ordered(log, now) && Final(log, more, now)
    ensures
      var all := log + more;
      && Ordered(all, now)
      && MinOf(all, |all|, PROVEN, Ordinal) == MinOf(log, |log|, PROVEN, Ordinal)
      && MaxOf(all, |all|, REPORTED, Ordinal) == MaxOf(log, |log|, REPORTED, Ordinal)
  {
    var one := log + [more[0]];
    OrderedAppend(log, now, more[0]);
    MinAppend(log, now, more[0], PROVEN, Ordinal);
    MaxAppend(log, now, more[0], REPORTED, Ordinal);
    if |more| == 2 {
      OrderedAppend(one, now, more[1]);
      MinAppend(one, now, more[1], PROVEN, Ordinal);
      MaxAppend(one, now, more[1], REPORTED, Ordinal);
      assert log + more == one + [more[1]];
    } else {
      assert log + more == one;
    }
  }

  /** The parts of the database that an end does not touch. */
  ghost predicate Closes(s: Sys, t: Sys, more: seq<Event>) {
    var row, next := s.db.row, t.db.row;
    && Final(s.db.log, more, s.now) && t.db.log == s.db.log + more
    && t.rows == s.rows + [next] && t.now == s.now && t.adapter == s.adapter && t.report == s.report
    && !Terminal(row.state) && Terminal(next.state) && more[0].stage == next.state && more[0].reason == next.reason
    && next.revision == row.revision + 1 && next.events == row.events + |more| && next.credit == 0
    && SameCycle(row, next) && next.stageDeadline == row.stageDeadline
  }

  lemma EndCloses(s: Sys, successorEpoch: Option<nat>, outcome: Stage, reason: Reason) returns (more: seq<Event>)
    requires Counted(s) && !Terminal(s.db.row.state) && Terminal(outcome)
    ensures Closes(s, EndSys(s, successorEpoch, outcome, reason), more)
  {
    var db := s.db.(row := s.db.row.(successorEpoch := successorEpoch));
    var row, final := db.row, FinalOutcome(db, s.adapter, outcome);
    more := [Event(row.events + 1, s.now, final, reason)];
    if TimeoutKeepsEnable(db, final, reason) {
      more := more + [Event(row.events + 2, s.now, EnableKept, reason)];
    }
    assert EndSys(s, successorEpoch, outcome, reason).db.log == s.db.log + more;
  }

  lemma CloseCounted(s: Sys, t: Sys, more: seq<Event>)
    requires Counted(s) && Closes(s, t, more)
    ensures Counted(t)
  {
    FinalQueries(s.db.log, s.now, more);
  }

  lemma CloseRecorded(s: Sys, t: Sys, more: seq<Event>)
    requires Counted(s) && Recorded(s) && Closes(s, t, more)
    ensures Recorded(t)
  {
    var n := |s.rows|;
    assert t.rows[n] == t.db.row && t.db.log[n] == more[0];
    forall i | 0 <= i < n
      ensures t.rows[i] == s.rows[i] && t.db.log[i] == s.db.log[i]
    {
    }
  }

  lemma CloseTimed(s: Sys, t: Sys, more: seq<Event>)
    requires Timed(s) && Closes(s, t, more)
    ensures Timed(t)
  {
  }

  lemma CloseProven(s: Sys, t: Sys, more: seq<Event>)
    requires Counted(s) && Recorded(s) && ProvenInHistory(s) && Closes(s, t, more)
    ensures ProvenInHistory(t)
  {
    FinalQueries(s.db.log, s.now, more);
    assert forall i :: 0 <= i < |s.rows| ==> t.rows[i] == s.rows[i];
  }

  lemma CloseReported(s: Sys, t: Sys, more: seq<Event>)
    requires Counted(s) && Reported(s) && Closes(s, t, more)
    ensures Reported(t)
  {
    FinalQueries(s.db.log, s.now, more);
  }

  lemma EndCore(s: Sys, successorEpoch: Option<nat>, outcome: Stage, reason: Reason)
    requires Core(s) && !Terminal(s.db.row.state) && Terminal(outcome)
    ensures Core(EndSys(s, successorEpoch, outcome, reason))
    ensures Terminal(EndSys(s, successorEpoch, outcome, reason).db.row.state)
  {
    var t := EndSys(s, successorEpoch, outcome, reason);
    var more := EndCloses(s, successorEpoch, outcome, reason);
    CloseCounted(s, t, more);
    CloseRecorded(s, t, more);
    CloseTimed(s, t, more);
    CloseProven(s, t, more);
    CloseReported(s, t, more);
  }

  /** The clock, the Enable, the calls and the claims are outside of it. */
  lemma CoreFrame(s: Sys, t: Sys)
    requires Core(s) && t.db.row == s.db.row && t.db.log == s.db.log && t.rows == s.rows && t.report == s.report
    requires t.adapter == s.adapter && t.now >= s.now
    ensures Core(t)
  {
    CountedFrame(s, t);
    RecordedFrame(s, t);
    TimedFrame(s, t);
    CausedFrame(s, t);
  }

  lemma CountedFrame(s: Sys, t: Sys)
    requires Counted(s) && t.db.row == s.db.row && t.db.log == s.db.log && t.now >= s.now
    ensures Counted(t)
  {
  }

  lemma RecordedFrame(s: Sys, t: Sys)
    requires Recorded(s) && ProvenInHistory(s) && t.db.row == s.db.row && t.db.log == s.db.log && t.rows == s.rows
    ensures Recorded(t) && ProvenInHistory(t)
  {
  }

  lemma TimedFrame(s: Sys, t: Sys)
    requires Timed(s) && t.db.row == s.db.row && t.db.log == s.db.log && t.now >= s.now
    ensures Timed(t)
  {
  }

  lemma CausedFrame(s: Sys, t: Sys)
    requires Caused(s) && t.db.row == s.db.row && t.db.log == s.db.log && t.rows == s.rows
    ensures Caused(t)
  {
  }
}
