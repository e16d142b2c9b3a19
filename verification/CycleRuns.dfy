/** Runs of one managed cycle: transactions of every caller, adapter calls in flight, the clock,
    and crashes, in any order. */
module CycleRuns {
  import opened Options
  import opened Cycle
  import opened CycleController

  /** A call in flight: the row that its advance returned and the created session that it may use
      again. */
  datatype InFlight = InFlight(call: Call, row: Row, kept: Option<nat>, fenced: bool, submitted: bool)

  /** An effect that reached the session. */
  datatype Effect = Effect(call: Call, revision: nat)

  /** An accepted ready report. */
  datatype Report = Report(at: nat, answered: nat, artifact: nat)

  /** A pickup report between its read and its write. */
  datatype Claim = Claim(artifact: nat, epoch: nat, successorEpoch: Option<nat>)

  /** rows has the cycle's row at each revision; sent and report are history too. */
  datatype Sys = Sys(adapter: Adapter, db: Db, now: nat, calls: map<nat, InFlight>, claims: map<nat, Claim>,
                     rows: seq<Row>, sent: seq<Effect>, report: Option<Report>)

  datatype Action =
    | Tick(now: nat)
    | Control(read: nat, seen: Seen)
    | ReadyReport(revision: nat, epoch: nat, artifact: nat, fileOk: bool, pinned: bool)
    | PickupRead(id: nat, revision: nat, artifact: nat, epoch: nat)
    | PickupWrite(id: nat, pinned: bool)
    | Maintainer(revision: nat)
    | EndBy(outcome: Stage, why: Why)
    | SetEnable(on: bool)
    | ReadInbox
    | Fence(revision: nat, policyHolds: bool)
    | Submit(revision: nat)
    | Return(revision: nat, result: Result)
    | Crash

  ghost predicate Enabled(s: Sys, a: Action) {
    match a
    case Tick(now) => now >= s.now
    case Control(read, seen) => read <= s.now && !Terminal(s.db.row.state) && HonestProof(s.adapter, s.db.row, seen)
    case EndBy(outcome, why) =>
      && why != ReadyTimeout
      && (outcome == Failed || outcome == Cancelled || outcome == Uncertain
          || (outcome == Complete && why == Compacted && s.db.row.state == CompactSent))
    case Fence(revision, holds) => revision in s.calls && FencePasses(s, s.calls[revision].row, holds)
    case Submit(revision) =>
      revision in s.calls && s.calls[revision].fenced && !s.calls[revision].submitted && MakesRequest(s.calls[revision])
    case Return(revision, result) => revision in s.calls && HonestResult(s.calls[revision], result)
    case _ => true
  }

  /** A create that uses a kept session makes no request. */
  predicate MakesRequest(c: InFlight) {
    !(c.call == Create && c.kept.Some?)
  }

  /** The adapter contract: a refusal before the effect is honest, and a receipt means that the
      effect was made. */
  predicate HonestResult(c: InFlight, result: Result) {
    match result
    case NotSent(_) => !c.submitted
    case Failing => true
    case Received => c.submitted
    case ID(session) => c.call == Create && if c.kept.Some? then session == c.kept.value else c.submitted
  }

  /** cycleFence. */
  predicate FencePasses(s: Sys, row: Row, policyHolds: bool) {
    && s.db.row.revision == row.revision && s.db.row.state == row.state
    && s.now < s.db.row.stageDeadline && s.now < s.db.row.cycleDeadline
    && CycleEnabled(s.db) && (s.db.row.compaction ==> policyHolds)
  }

  function WithDb(s: Sys, db: Db): Sys {
    s.(db := db, rows := s.rows + [db.row])
  }

  /** endCycle at a revision; 0 is any. */
  function EndAt(s: Sys, revision: nat, outcome: Stage, reason: Reason): Sys {
    if Terminal(s.db.row.state) || (revision != 0 && s.db.row.revision != revision) then s
    else WithDb(s, EndTx(s.db, s.adapter, s.now, outcome, reason))
  }

  /** An advance, and the call that follows it: also when it ended the cycle at the event limit,
      because advanceCycle then returns the ended row without an error. */
  function AdvanceAt(s: Sys, row: Row, from: Stage, move: Move): Sys
    requires move.Step?
  {
    match Advance(s.db, s.adapter, s.now, row.revision, from, move.to, move.reason, move.guard, move.change)
    case Refused => s
    case Advanced(db) => Called(WithDb(s, db), move.call, row)
    case Ended(db) => Called(WithDb(s, db), move.call, row)
  }

  function Called(s: Sys, call: Option<Call>, from: Row): Sys {
    if call == None then s else
      var kept := if call.value == Create then from.successorEpoch else None;
      s.(calls := s.calls[s.db.row.revision := InFlight(call.value, s.db.row, kept, false, false)])
  }

  function AskAt(s: Sys, row: Row, seen: nat, orElse: Option<Reason>, pinned: bool): Sys {
    match RepeatRequest(s.db, s.now, row.revision, seen, pinned)
    case Repeat(db) => WithDb(s, db)
    case RepeatLimit => EndAt(s, row.revision, Failed, Because(EventLimit))
    case RepeatRefused => if orElse == None then s else EndAt(s, row.revision, Failed, orElse.value)
  }

  function Make(s: Sys, row: Row, from: Stage, move: Move, pinned: bool): Sys {
    match move
    case Wait => s
    case End(outcome, reason) => EndAt(s, row.revision, outcome, reason)
    case Step(_, _, _, _, _) => AdvanceAt(s, row, from, move)
    case Ask(seen, orElse) => AskAt(s, row, seen, orElse, pinned)
  }

  /** ContextCycleReady, for a report that is not a retry of the accepted one. */
  function ReportReady(s: Sys, a: Action): Sys
    requires a.ReadyReport?
  {
    if s.db.row.state != WaitingReady || s.db.row.revision != a.revision || a.epoch != s.db.row.epoch || !a.fileOk
    then s
    else
      match Advance(s.db, s.adapter, s.now, a.revision, WaitingReady, Ready, NoReason, a.pinned,
                    SetArtifact(a.artifact))
      case Refused => s
      case Advanced(db) => WithDb(s, db).(report := Some(Report(s.now, a.revision, a.artifact)))
      case Ended(db) => WithDb(s, db)
  }

  /** The read of ContextCyclePickup. */
  function ReadPickup(s: Sys, a: Action): Sys
    requires a.PickupRead?
  {
    var row := s.db.row;
    if AcceptsPickupReport(row) && PickupRevision(s.db.log, a.revision) && row.artifact == Some(a.artifact)
       && a.epoch != row.epoch && (row.successorEpoch.Some? ==> row.successorEpoch == Some(a.epoch))
    then s.(claims := s.claims[a.id := Claim(a.artifact, a.epoch, row.successorEpoch)])
    else s
  }

  /** The write of ContextCyclePickup, which completes the cycle. */
  function WritePickup(s: Sys, id: nat, pinned: bool): Sys {
    if id !in s.claims then s else
      var claim, row := s.claims[id], s.db.row;
      var t := s.(claims := s.claims - {id});
      if !AcceptsPickupReport(row) || row.artifact != Some(claim.artifact) || row.successorEpoch != claim.successorEpoch
         || s.now >= row.stageDeadline || s.now >= row.cycleDeadline || !CycleEnabled(s.db) || !pinned then t
      else
        var db := s.db.(row := row.(successorEpoch := Some(claim.epoch)));
        WithDb(t, EndTx(db, s.adapter, s.now, Complete, Because(Resumed)))
  }

  /** The caller of a call that returned records its result at the row that the call had. */
  function Settle(s: Sys, revision: nat, result: Result): Sys
    requires revision in s.calls
  {
    var c := s.calls[revision];
    Make(s.(calls := s.calls - {revision}), c.row, CallStage(c.call), ResultMove(c.call, c.row, result), true)
  }

  function Next(s: Sys, a: Action): Sys
    requires Enabled(s, a)
  {
    match a
    case Tick(now) => s.(now := now)
    case Control(read, seen) => Make(s, s.db.row, s.db.row.state, StepMove(s.adapter, s.db, read, seen), seen.pinned)
    case ReadyReport(_, _, _, _, _) => ReportReady(s, a)
    case PickupRead(_, _, _, _) => ReadPickup(s, a)
    case PickupWrite(id, pinned) => WritePickup(s, id, pinned)
    case Maintainer(revision) =>
      if s.db.row.state != WaitingPrompt || s.db.row.revision != revision then s
      else AdvanceAt(s, s.db.row, WaitingPrompt, Step(PromptIntent, MaintainerOption, true, Same, Some(Choose)))
    case EndBy(outcome, why) => EndAt(s, 0, outcome, Because(why))
    case SetEnable(on) => s.(db := s.db.(enable := SetEnabled(s.db.enable, on)))
    case ReadInbox => s.(db := s.db.(enable := NoteRead(s.db.enable)))
    case Fence(revision, _) => s.(calls := s.calls[revision := s.calls[revision].(fenced := true)])
    case Submit(revision) =>
      s.(calls := s.calls[revision := s.calls[revision].(submitted := true)],
         sent := s.sent + [Effect(s.calls[revision].call, revision)])
    case Return(revision, result) => Settle(s, revision, result)
    case Crash => s.(calls := map[], claims := map[])
  }

  /** A run from an admission. */
  ghost predicate Runs(s: Sys, actions: seq<Action>)
    decreases |actions|
  {
    actions == [] || (Enabled(s, actions[0]) && Runs(Next(s, actions[0]), actions[1..]))
  }

  ghost function After(s: Sys, actions: seq<Action>): Sys
    requires Runs(s, actions)
    decreases |actions|
  {
    if actions == [] then s else After(Next(s, actions[0]), actions[1..])
  }

  function Admitted(adapter: Adapter, compaction: bool, enable: Enable, epoch: nat, now: nat): Sys {
    var db := Admit(compaction, enable, epoch, now);
    Sys(adapter, db, now, map[], map[], [db.row], [], None)
  }
}
