/** The cycle's transactions as the store runs them: they change the row, the history and the
    Enable in place (internal/core/context_cycle.go). */
module CycleStore {
  import opened Options
  import opened Cycle
  import opened CycleRuns

  datatype Answer = Changed | Limit | Done

  /** The part of an advance after its checks: the event, the deadline and the row. */
  function Entered(db: Db, now: nat, to: Stage, reason: Reason, change: Change): Option<Db>
    requires Funded(db.row)
  {
    var row := db.row;
    var log := db.log + [Event(row.events + 1, now, to, reason)];
    var deadline := NextDeadline(row, log, now, to);
    if deadline == None then None else
      Some(Db(StageRow(row, to, reason, change, deadline.value), log, db.enable))
  }

  lemma AdvanceIs(db: Db, adapter: Adapter, now: nat, revision: nat, from: Stage, to: Stage, reason: Reason,
                  guard: bool, change: Change)
    ensures
      Advance(db, adapter, now, revision, from, to, reason, guard, change) ==
        if !AtStage(db, now, revision, from) || !CycleEnabled(db) || !guard then Refused
        else if !Funded(db.row) then Ended(EndTx(db, adapter, now, Failed, Because(EventLimit)))
        else if Entered(db, now, to, reason, change) == None then Refused
        else Advanced(Entered(db, now, to, reason, change).value)
  {
  }

  lemma EndTxIs(db: Db, adapter: Adapter, now: nat, outcome: Stage, reason: Reason)
    ensures
      var final, t := FinalOutcome(db, adapter, outcome), EndTx(db, adapter, now, outcome, reason);
      var ended := db.log + [Event(db.row.events + 1, now, final, reason)];
      && t.enable == AfterEnd(db, final, reason)
      && t.log == (if TimeoutKeepsEnable(db, final, reason)
                   then ended + [Event(db.row.events + 2, now, EnableKept, reason)]
                   else ended)
      && t.row == db.row.(revision := db.row.revision + 1, state := final, reason := reason, credit := 0,
                          events := db.row.events + if TimeoutKeepsEnable(db, final, reason) then 2 else 1)
  {
  }

  class Store {
    const adapter: Adapter
    var row: Row
    var log: seq<Event>
    var enable: Enable

    function Database(): Db
      reads this
    {
      Db(row, log, enable)
    }

    constructor (adapter: Adapter, admitted: Db)
      ensures this.adapter == adapter && Database() == admitted
    {
      this.adapter := adapter;
      row, log, enable := admitted.row, admitted.log, admitted.enable;
    }

    /** cycleEvent: the last slot is kept for the terminal outcome. The caller writes the row. */
    method CycleEvent(c: Row, now: nat, stage: Stage, reason: Reason) returns (stored: bool, next: Row)
      modifies this`log
      ensures stored <==> Terminal(stage) || c.events < MAX_EVENTS - 1
      ensures next == if stored then c.(events := c.events + 1) else c
      ensures log == if stored then old(log) + [Event(c.events + 1, now, stage, reason)] else old(log)
    {
      if !Terminal(stage) && c.events >= MAX_EVENTS - 1 {
        return false, c;
      }
      next := c.(events := c.events + 1);
      log := log + [Event(next.events, now, stage, reason)];
      stored := true;
    }

    /** endCycleTx. */
    method EndCycleTx(now: nat, outcome: Stage, reason: Reason)
      requires Terminal(outcome)
      modifies this`row, this`log, this`enable
      ensures Database() == EndTx(old(Database()), adapter, now, outcome, reason)
    {
      var final := outcome;
      if outcome != Complete && Unproven(Database(), adapter) {
        final := Uncertain;
      }
      var keep := CompactionKeepsEnable(row, reason);
      var keepTimeout := TimeoutKeepsEnable(Database(), final, reason);
      EndTxIs(Database(), adapter, now, outcome, reason);
      WriteEnd(now, final, reason, keepTimeout);
      TurnEnable(final, keep, keepTimeout);
    }

    /** The terminal event, the mark of a kept timeout beyond the bound, and the row. */
    method WriteEnd(now: nat, final: Stage, reason: Reason, keepTimeout: bool)
      requires Terminal(final)
      modifies this`row, this`log
      ensures
        var ended := old(log) + [Event(old(row).events + 1, now, final, reason)];
        log == if keepTimeout then ended + [Event(old(row).events + 2, now, EnableKept, reason)] else ended
      ensures row == old(row).(revision := old(row).revision + 1, state := final, reason := reason, credit := 0,
                               events := old(row).events + if keepTimeout then 2 else 1)
    {
      var stored, c := CycleEvent(row, now, final, reason);
      if keepTimeout {
        c := c.(events := c.events + 1);
        log := log + [Event(c.events, now, EnableKept, reason)];
      }
      row := c.(revision := c.revision + 1, state := final, reason := reason, credit := 0);
    }

    /** What an end does with the Enable: a completed cycle's is carried, and a kept timeout is
        recorded in it. */
    method TurnEnable(final: Stage, keep: bool, keepTimeout: bool)
      modifies this`enable
      ensures enable == if final == Complete || keep then old(enable)
                        else if keepTimeout
                        then old(enable).(keptEpoch := Some(row.epoch), keptRevision := old(enable).revision,
                                          keptRead := false)
                        else if old(enable).enabled
                        then old(enable).(enabled := false, revision := old(enable).revision + 1)
                        else old(enable)
    {
      if final != Complete && !keep {
        if keepTimeout {
          enable := enable.(keptEpoch := Some(row.epoch), keptRevision := enable.revision, keptRead := false);
        } else if enable.enabled {
          enable := enable.(enabled := false, revision := enable.revision + 1);
        }
      }
    }

    /** endCycle; revision 0 is any. */
    method EndCycle(now: nat, revision: nat, outcome: Stage, reason: Reason) returns (ended: bool)
      requires Terminal(outcome)
      modifies this`row, this`log, this`enable
      ensures ended <==> !Terminal(old(row).state) && (revision == 0 || revision == old(row).revision)
      ensures Database() == if ended then EndTx(old(Database()), adapter, now, outcome, reason) else old(Database())
    {
      if Terminal(row.state) || (revision != 0 && row.revision != revision) {
        return false;
      }
      EndCycleTx(now, outcome, reason);
      return true;
    }

    /** advanceCycle: Limit is the end at the event limit, which the callers take for success. */
    method AdvanceCycle(now: nat, revision: nat, from: Stage, to: Stage, reason: Reason, guard: bool,
                        change: Change) returns (a: Answer)
      requires !Terminal(from) && !Terminal(to)
      modifies this`row, this`log, this`enable
      ensures
        match Advance(old(Database()), adapter, now, revision, from, to, reason, guard, change)
        case Refused => a == Changed && Database() == old(Database())
        case Advanced(db) => a == Done && Database() == db
        case Ended(db) => a == Limit && Database() == db
    {
      if row.revision != revision || row.state != from || now >= row.stageDeadline || now >= row.cycleDeadline
         || !CycleEnabled(Database()) || !guard
      {
        return Changed;
      }
      AdvanceIs(Database(), adapter, now, revision, from, to, reason, guard, change);
      if row.credit >= STAGE_PAGES + TERMINAL_PAGES && row.events < MAX_EVENTS - 1 {
        a := EnterStage(now, to, reason, change);
      } else {
        var ended := EndCycle(now, revision, Failed, Because(EventLimit));
        a := Limit;
      }
    }

    method EnterStage(now: nat, to: Stage, reason: Reason, change: Change) returns (a: Answer)
      requires Funded(row) && !Terminal(to)
      modifies this`row, this`log
      ensures
        var stored := old(log) + [Event(old(row).events + 1, now, to, reason)];
        var deadline := NextDeadline(old(row), stored, now, to);
        if deadline == None then a == Changed && row == old(row) && log == old(log)
        else a == Done && row == StageRow(old(row), to, reason, change, deadline.value) && log == stored
    {
      var history := log;
      var stored, c := CycleEvent(row, now, to, reason);
      var deadline := DeadlineOf(row, now, to);
      if deadline == None {
        log := history;
        return Changed;
      }
      row := StageRow(row, to, reason, change, deadline.value);
      return Done;
    }

    /** The stage deadline of an advance of c, whose event is recorded. */
    method DeadlineOf(c: Row, now: nat, to: Stage) returns (deadline: Option<nat>)
      ensures deadline == NextDeadline(c, log, now, to)
    {
      if c.state == to {
        return Some(c.stageDeadline);
      }
      if c.promptFrom == Some(WaitingPickup) && (to == WaitingPrompt || to == PromptIntent) {
        deadline := PickupPromptDeadline(log);
        if deadline.Some? && to == PromptIntent {
          deadline := Some(Min(now + RECEIPT_WAIT, deadline.value));
        }
        return;
      }
      match to
      case WaitingReady => deadline := Some(RequestedAt(log, c.createdAt) + READY_WAIT);
      case WaitingPrompt => deadline := Some(now + PROMPT_WAIT);
      case CompactWaiting => deadline := Some(c.createdAt + READY_WAIT);
      case CompactSent => deadline := Some(now + COMPACT_CONFIRM);
      case WaitingPickup => deadline := Some(now + PICKUP_WAIT);
      case _ => deadline := Some(now + RECEIPT_WAIT);
    }

    /** repeatCycleRequest. */
    method RepeatCycleRequest(now: nat, revision: nat, seen: nat, pinned: bool) returns (a: Answer)
      modifies this`row, this`log
      ensures
        match RepeatRequest(old(Database()), now, revision, seen, pinned)
        case RepeatRefused => a == Changed && Database() == old(Database())
        case RepeatLimit => a == Limit && Database() == old(Database())
        case Repeat(db) => a == Done && Database() == db
    {
      if row.revision != revision || row.state != Ready || now >= row.cycleDeadline || !CycleEnabled(Database())
         || !pinned
      {
        return Changed;
      }
      if row.credit < STAGE_PAGES + TERMINAL_PAGES {
        return Limit;
      }
      var stored, c := CycleEvent(row, now, WaitingReady, NotIdle(seen));
      if !stored {
        return Limit;
      }
      c := c.(revision := c.revision + 1, credit := c.credit - STAGE_PAGES, state := WaitingReady,
              reason := NotIdle(seen));
      row := c.(stageDeadline := Min(now + READY_WAIT, c.cycleDeadline), artifact := None);
      return Done;
    }

    /** The write of ContextCyclePickup. */
    method WritePickup(now: nat, claim: Claim, pinned: bool) returns (done: bool)
      modifies this`row, this`log, this`enable
      ensures done <==>
                && AcceptsPickupReport(old(row)) && old(row).artifact == Some(claim.artifact)
                && old(row).successorEpoch == claim.successorEpoch
                && now < old(row).stageDeadline && now < old(row).cycleDeadline && CycleEnabled(old(Database()))
                && pinned
      ensures Database() ==
              if done
              then EndTx(Db(old(row).(successorEpoch := Some(claim.epoch)), old(log), old(enable)), adapter, now,
                         Complete, Because(Resumed))
              else old(Database())
    {
      if !AcceptsPickupReport(row) || row.artifact != Some(claim.artifact) || row.successorEpoch != claim.successorEpoch
         || now >= row.stageDeadline || now >= row.cycleDeadline || !CycleEnabled(Database()) || !pinned
      {
        return false;
      }
      row := row.(successorEpoch := Some(claim.epoch));
      EndCycleTx(now, Complete, Because(Resumed));
      return true;
    }
  }
}
