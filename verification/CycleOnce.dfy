/** No effect of a cycle is made twice, and an effect that is not confirmed ends the cycle
    uncertain, through any number of crashes. */
module CycleOnce {
  import opened Options
  import opened Cycle
  import opened CycleController
  import opened CycleRuns
  import opened CycleSafety
  import opened CycleCalls

  function Count(sent: seq<Effect>, n: nat, call: Call): nat
    requires n <= |sent|
  {
    if n == 0 then 0 else Count(sent, n - 1, call) + if sent[n - 1].call == call then 1 else 0
  }

  function Made(s: Sys, call: Call): nat {
    Count(s.sent, |s.sent|, call)
  }

  lemma {:induction false} CountPrefix(sent: seq<Effect>, e: Effect, n: nat, call: Call)
    requires n <= |sent|
    ensures Count(sent + [e], n, call) == Count(sent, n, call)
  {
    if n > 0 {
      CountPrefix(sent, e, n - 1, call);
    }
  }

  lemma CountAppend(sent: seq<Effect>, e: Effect, call: Call)
    ensures Count(sent + [e], |sent| + 1, call) == Count(sent, |sent|, call) + if e.call == call then 1 else 0
  {
    CountPrefix(sent, e, |sent|, call);
  }

  predicate Making(c: InFlight, call: Call) {
    c.call == call && MakesRequest(c)
  }

  /** The effects that each adapter makes at most once; the answers of dialogs are not among them. */
  predicate Claimed(adapter: Adapter, call: Call) {
    match call
    case Clear => adapter == Pane
    case Pickup => adapter == Pane
    case Create => adapter == Session
    case Select => adapter == Session
    case SendPickup => adapter == Session
    case Compact => true
    case _ => false
  }

  /** The unfinished stages before an effect's intent: those in which it can still be entered. */
  predicate Before(row: Row, call: Call) {
    match call
    case Clear => Pre(row)
    case Create => Pre(row) && row.successorEpoch == None
    case Select => Pre(row) || row.state == ClearIntent || (row.state == ClearReceived && row.reason != SelectSent)
    case Pickup => BeforePickup(row)
    case SendPickup => BeforePickup(row)
    case Compact => row.state == CompactWaiting
    case _ => false
  }

  predicate BeforePickup(row: Row) {
    || Pre(row) || row.state == ClearIntent || row.state == ClearReceived || row.state == ResetVerified
    || InPrompt(row, ResetVerified)
  }

  ghost predicate NoneMade(s: Sys, call: Call) {
    Made(s, call) == 0 && forall r :: r in s.calls ==> !Making(s.calls[r], call)
  }

  /** At most one call in flight can make the effect, and it is made at most once. */
  ghost predicate Once(s: Sys, call: Call) {
    && Made(s, call) <= 1
    && Counts(s, call)
    && Sole(s, call)
    && (Before(s.db.row, call) ==> NoneMade(s, call))
  }

  ghost predicate Counts(s: Sys, call: Call) {
    forall r :: r in s.calls && Making(s.calls[r], call) ==> Made(s, call) == if s.calls[r].submitted then 1 else 0
  }

  ghost predicate Sole(s: Sys, call: Call) {
    forall r, q :: r in s.calls && q in s.calls && Making(s.calls[r], call) && Making(s.calls[q], call) ==> r == q
  }

  // How the calls change

  ghost predicate OldCall(s: Sys, t: Sys, r: nat) {
    r in t.calls && r in s.calls && t.calls[r] == s.calls[r]
  }

  ghost predicate NewCall(s: Sys, t: Sys, r: nat) {
    && r in t.calls && r == t.db.row.revision == |t.rows| && r > s.db.row.revision
    && t.calls[r].row == t.db.row && CallFits(t.adapter, t.calls[r]) && !t.calls[r].fenced && !t.calls[r].submitted
    && !Terminal(s.db.row.state) && StartsFrom(s.db.row, t.calls[r].call)
    && (t.calls[r].call == Create ==> t.calls[r].kept == s.db.row.successorEpoch)
  }

  ghost predicate CallsGrow(s: Sys, t: Sys) {
    t.sent == s.sent && forall r :: r in t.calls ==> OldCall(s, t, r) || NewCall(s, t, r)
  }

  /** A call that starts fits the row of its advance, which is a step or the end at the limit. */
  lemma CalledFits(s: Sys, db: Db, move: Move)
    requires Recorded(s) && !Terminal(s.db.row.state) && move.Step?
    requires move.call.Some? ==> Starts(s.adapter, s.db.row, move)
    requires db.row.revision == s.db.row.revision + 1 && db.row.compaction == s.db.row.compaction
    requires if Terminal(db.row.state) then db.row.reason == Because(EventLimit)
             else
               && db.row == Apply(db.row, move.change) && db.row.state == move.to && db.row.reason == move.reason
               && Shaped(db.row) && (move.change == Same ==> db.row.successorEpoch == s.db.row.successorEpoch)
    ensures CallsGrow(s, Called(WithDb(s, db), move.call, s.db.row))
  {
  }

  lemma SpawnFits(s: Sys, move: Move)
    requires Counted(s) && Recorded(s) && !Terminal(s.db.row.state)
    requires move.Step? && (move.call.Some? ==> Starts(s.adapter, s.db.row, move))
    requires Edge(s.adapter, s.db, move.to, move.reason, move.change)
    ensures CallsGrow(s, AdvanceAt(s, s.db.row, s.db.row.state, move))
  {
    var row := s.db.row;
    match AdvanceOf(s, row.revision, row.state, move)
    case Refused =>
    case Advanced(db) =>
      AdvancedIs(s, row.revision, row.state, move);
      StepFollows(s, move.to, move.reason, move.change);
      CalledFits(s, db, move);
    case Ended(db) =>
      EndedIs(s, row.revision, row.state, move);
      CalledFits(s, db, move);
  }

  lemma MakeCalls(s: Sys, row: Row, from: Stage, move: Move, pinned: bool)
    requires move.Step? ==> move.call == None
    ensures CallsGrow(s, Make(s, row, from, move, pinned))
    ensures Make(s, row, from, move, pinned).calls == s.calls
    ensures Make(s, row, from, move, pinned).claims == s.claims
  {
  }

  lemma ControlCalls(s: Sys, now: nat, seen: Seen)
    requires Counted(s) && Recorded(s) && Selected(s) && !Terminal(s.db.row.state)
    requires HonestProof(s.adapter, s.db.row, seen)
    ensures CallsGrow(s, Make(s, s.db.row, s.db.row.state, StepMove(s.adapter, s.db, now, seen), seen.pinned))
  {
    var move := StepMove(s.adapter, s.db, now, seen);
    ControlIsEdge(s.adapter, s.db, now, seen);
    ControlCall(s.adapter, s.db, now, seen);
    if move.Step? {
      SpawnFits(s, move);
    } else {
      MakeCalls(s, s.db.row, s.db.row.state, move, seen.pinned);
    }
  }

  lemma MaintainerCalls(s: Sys, revision: nat)
    requires Counted(s) && Recorded(s)
    ensures CallsGrow(s, Next(s, Maintainer(revision)))
  {
    if s.db.row.state == WaitingPrompt && s.db.row.revision == revision {
      SpawnFits(s, Step(PromptIntent, MaintainerOption, true, Same, Some(Choose)));
    }
  }

  /** Every action but a fence, an effect, a return and a crash keeps the calls and may start one. */
  lemma NextCalls(s: Sys, a: Action)
    requires Counted(s) && Recorded(s) && Selected(s) && Enabled(s, a)
    requires !a.Fence? && !a.Submit? && !a.Return? && !a.Crash?
    ensures CallsGrow(s, Next(s, a))
  {
    match a
    case Control(read, seen) => ControlCalls(s, read, seen);
    case Maintainer(revision) => MaintainerCalls(s, revision);
    case _ =>
  }

  // At most once

  /** The stage of an effect's own intent. */
  predicate AtIntent(row: Row, call: Call) {
    && row.state == CallStage(call) && (call == Create ==> row.successorEpoch == None)
    && (call == Select ==> row.reason == SelectSent)
  }

  lemma EdgePre(s: Sys, to: Stage, reason: Reason, change: Change)
    requires CanStep(s, to, reason, change) && Shaped(s.db.row)
    ensures
      var row, next := s.db.row, StepSys(s, to, reason, change).db.row;
      && (Pre(next) ==>
            || Pre(row)
            || (to == Ready && (row.state == ClearIntent || (row.state == ClearReceived && s.adapter == Session))))
      && (Pre(next) && !change.SetSuccessor? ==> next.successorEpoch == row.successorEpoch)
      && (Pre(next) ==> !change.SetSuccessor?)
  {
  }

  lemma EdgeSelectable(s: Sys, to: Stage, reason: Reason, change: Change)
    requires CanStep(s, to, reason, change) && Shaped(s.db.row) && s.adapter == Session
    ensures Before(StepSys(s, to, reason, change).db.row, Select) ==>
              || Before(s.db.row, Select)
              || (Back(s.db.row.state, to) && s.db.row.state == ClearReceived && s.db.row.reason == SelectSent)
  {
  }

  lemma EdgePickupable(s: Sys, to: Stage, reason: Reason, change: Change)
    requires CanStep(s, to, reason, change) && Shaped(s.db.row)
    ensures BeforePickup(StepSys(s, to, reason, change).db.row) ==> BeforePickup(s.db.row)
    ensures to == CompactWaiting ==> Back(s.db.row.state, to)
  {
  }

  /** Only a refused call leads back before its intent. */
  lemma EdgeBefore(s: Sys, to: Stage, reason: Reason, change: Change, call: Call)
    requires CanStep(s, to, reason, change) && Shaped(s.db.row) && Claimed(s.adapter, call)
    requires s.adapter == Session && s.db.row.state == ClearReceived ==> s.db.row.successorEpoch.Some?
    ensures Before(StepSys(s, to, reason, change).db.row, call) ==>
              Before(s.db.row, call) || (Back(s.db.row.state, to) && AtIntent(s.db.row, call))
  {
    EdgePre(s, to, reason, change);
    EdgePickupable(s, to, reason, change);
    if call == Select {
      EdgeSelectable(s, to, reason, change);
    }
  }

  lemma DidBefore(s: Sys, t: Sys, d: Done, call: Call)
    requires Did(s, t, d) && Recorded(s) && Selected(s) && Claimed(s.adapter, call)
    ensures Before(t.db.row, call) ==>
              Before(s.db.row, call) || (d.Moved? && Back(s.db.row.state, d.to) && AtIntent(s.db.row, call))
  {
    match d
    case Nothing =>
    case Moved(to, reason, change) => EdgeBefore(s, to, reason, change, call);
    case Closed(successorEpoch, outcome, why) => assert Terminal(t.db.row.state);
  }

  lemma NewStarts(s: Sys, t: Sys, r: nat, call: Call)
    requires NewCall(s, t, r) && Making(t.calls[r], call) && Claimed(s.adapter, call) && t.adapter == s.adapter
    ensures Before(s.db.row, call) && !Before(t.db.row, call)
  {
  }

  /** Every call of t that can make the effect is of s, or new where none could make it. */
  ghost predicate OneMaker(s: Sys, t: Sys, call: Call) {
    t.sent == s.sent && forall r :: r in t.calls && Making(t.calls[r], call) ==>
      || OldCall(s, t, r)
      || (r == t.db.row.revision && !t.calls[r].submitted && NoneMade(s, call) && !Before(t.db.row, call))
  }

  lemma GrowsOneMaker(s: Sys, t: Sys, call: Call)
    requires CallsGrow(s, t) && Once(s, call) && Claimed(s.adapter, call) && t.adapter == s.adapter
    ensures OneMaker(s, t, call)
  {
    forall r | r in t.calls && Making(t.calls[r], call) && !OldCall(s, t, r)
      ensures r == t.db.row.revision && !t.calls[r].submitted && NoneMade(s, call) && !Before(t.db.row, call)
    {
      NewStarts(s, t, r, call);
    }
  }

  lemma CountsGrow(s: Sys, t: Sys, call: Call)
    requires Counts(s, call) && OneMaker(s, t, call)
    ensures Counts(t, call)
  {
  }

  lemma SoleGrows(s: Sys, t: Sys, call: Call)
    requires Sole(s, call) && OneMaker(s, t, call)
    ensures Sole(t, call)
  {
  }

  lemma OnceGrows(s: Sys, t: Sys, call: Call)
    requires Once(s, call) && OneMaker(s, t, call) && (Before(t.db.row, call) ==> Before(s.db.row, call))
    ensures Once(t, call)
  {
    CountsGrow(s, t, call);
    SoleGrows(s, t, call);
  }

  /** t is s after the effect of one call. */
  ghost predicate Submits(s: Sys, t: Sys, revision: nat) {
    && revision in s.calls && !s.calls[revision].submitted && MakesRequest(s.calls[revision])
    && t.db == s.db && t.sent == s.sent + [Effect(s.calls[revision].call, revision)]
    && t.calls == s.calls[revision := s.calls[revision].(submitted := true)]
  }

  lemma SubmitOnce(s: Sys, t: Sys, revision: nat, call: Call)
    requires Once(s, call) && Submits(s, t, revision)
    ensures Once(t, call)
  {
    CountAppend(s.sent, Effect(s.calls[revision].call, revision), call);
    assert Made(t, call) == Made(s, call) + if s.calls[revision].call == call then 1 else 0;
    forall r | r in t.calls
      ensures r in s.calls && (Making(t.calls[r], call) <==> Making(s.calls[r], call))
      ensures r != revision ==> t.calls[r] == s.calls[r]
    {
    }
    if s.calls[revision].call == call {
      assert Making(s.calls[revision], call);
    }
  }

  /** t has no call that s has not, but for the fences passed since. */
  ghost predicate CallsLeft(s: Sys, t: Sys) {
    t.sent == s.sent && forall r :: r in t.calls ==>
      && r in s.calls && t.calls[r].call == s.calls[r].call && t.calls[r].kept == s.calls[r].kept
      && t.calls[r].submitted == s.calls[r].submitted
  }

  lemma CountsLeft(s: Sys, t: Sys, call: Call)
    requires Counts(s, call) && CallsLeft(s, t)
    ensures Counts(t, call)
  {
  }

  lemma SoleLeft(s: Sys, t: Sys, call: Call)
    requires Sole(s, call) && CallsLeft(s, t)
    ensures Sole(t, call)
  {
  }

  lemma NoneLeft(s: Sys, t: Sys, call: Call)
    requires NoneMade(s, call) && CallsLeft(s, t)
    ensures NoneMade(t, call)
  {
  }

  lemma OnceLeft(s: Sys, t: Sys, call: Call)
    requires Once(s, call) && CallsLeft(s, t)
    requires Before(t.db.row, call) ==> Before(s.db.row, call) || NoneMade(t, call)
    ensures Once(t, call)
  {
    CountsLeft(s, t, call);
    SoleLeft(s, t, call);
    if Before(s.db.row, call) {
      NoneLeft(s, t, call);
    }
  }

  /** A call that was refused unsent was the only one that could make its effect. */
  lemma RefusedNoneMade(s: Sys, t: Sys, revision: nat, call: Call)
    requires Counts(s, call) && Sole(s, call) && revision in s.calls
    requires Making(s.calls[revision], call) && !s.calls[revision].submitted
    requires t.calls == s.calls - {revision} && t.sent == s.sent
    ensures NoneMade(t, call)
  {
  }

  lemma RefusedIsMaking(s: Sys, revision: nat, result: Result, call: Call)
    requires Recorded(s) && revision in s.calls && CallFitsAt(s, revision) && HonestResult(s.calls[revision], result)
    requires revision == s.db.row.revision && result.NotSent? && AtIntent(s.db.row, call) && Claimed(s.adapter, call)
    requires !Terminal(s.db.row.state)
    ensures Making(s.calls[revision], call) && !s.calls[revision].submitted
  {
    CurrentCall(s, revision);
  }

  lemma ReturnOnce(s: Sys, revision: nat, result: Result, d: Done, call: Call)
    requires Once(s, call) && revision in s.calls && CallFitsAt(s, revision) && Claimed(s.adapter, call)
    requires Recorded(s) && Selected(s) && HonestResult(s.calls[revision], result)
    requires Did(s, Settle(s, revision, result), d)
    requires d.Moved? && Back(s.db.row.state, d.to) ==> revision == s.db.row.revision && result.NotSent?
    ensures Once(Settle(s, revision, result), call)
  {
    var t := Settle(s, revision, result);
    ReturnCalls(s, revision, result);
    DidBefore(s, t, d, call);
    if Before(t.db.row, call) && !Before(s.db.row, call) {
      RefusedIsMaking(s, revision, result, call);
      RefusedNoneMade(s, t, revision, call);
    }
    OnceLeft(s, t, call);
  }

  lemma ReturnCalls(s: Sys, revision: nat, result: Result)
    requires revision in s.calls && HonestResult(s.calls[revision], result)
    ensures Settle(s, revision, result).calls == s.calls - {revision}
    ensures Settle(s, revision, result).sent == s.sent
    ensures Settle(s, revision, result).claims == s.claims
  {
    var c := s.calls[revision];
    var move := ResultMove(c.call, c.row, result);
    assert move.Step? ==> move.call == None;
    MakeCalls(s.(calls := s.calls - {revision}), c.row, CallStage(c.call), move, true);
  }

  lemma FenceOnce(s: Sys, revision: nat, holds: bool, call: Call)
    requires Once(s, call) && Enabled(s, Fence(revision, holds))
    ensures Once(Next(s, Fence(revision, holds)), call)
  {
    OnceLeft(s, Next(s, Fence(revision, holds)), call);
  }

  lemma GrowsOnce(s: Sys, a: Action, d: Done, call: Call)
    requires Counted(s) && Recorded(s) && Selected(s) && CallsFit(s) && Enabled(s, a) && Once(s, call)
    requires Claimed(s.adapter, call)
    requires !a.Fence? && !a.Submit? && !a.Return? && !a.Crash?
    requires Did(s, Next(s, a), d) && (d.Moved? ==> !Back(s.db.row.state, d.to))
    ensures Once(Next(s, a), call)
  {
    var t := Next(s, a);
    NextCalls(s, a);
    DidBefore(s, t, d, call);
    GrowsOneMaker(s, t, call);
    OnceGrows(s, t, call);
  }

  lemma SubmitIs(s: Sys, revision: nat)
    requires Enabled(s, Submit(revision))
    ensures Submits(s, Next(s, Submit(revision)), revision)
  {
  }

  lemma CrashOnce(s: Sys, call: Call)
    requires Once(s, call)
    ensures Once(Next(s, Crash), call)
  {
    OnceLeft(s, Next(s, Crash), call);
  }

  lemma NextOnce(s: Sys, a: Action, call: Call)
    requires Counted(s) && Recorded(s) && Selected(s) && CallsFit(s) && Enabled(s, a) && Once(s, call)
    requires Claimed(s.adapter, call)
    ensures Once(Next(s, a), call)
  {
    if a.Fence? {
      FenceOnce(s, a.revision, a.policyHolds, call);
    } else if a.Submit? {
      SubmitIs(s, a.revision);
      SubmitOnce(s, Next(s, a), a.revision, call);
    } else if a.Crash? {
      CrashOnce(s, call);
    } else {
      var d := NextDid(s, a);
      if a.Return? {
        assert CallFitsAt(s, a.revision);
        ReturnOnce(s, a.revision, a.result, d, call);
      } else {
        GrowsOnce(s, a, d, call);
      }
    }
  }
}
