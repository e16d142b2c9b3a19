/** A dialog's answer is made at most once, and one whose receipt is not recorded ends its cycle
    uncertain. */
module CycleAnswers {
  import opened Options
  import opened Cycle
  import opened CycleController
  import opened CycleRuns
  import opened CycleSafety
  import opened CycleCalls
  import opened CycleOnce
  import opened CycleInvariant
  import opened CycleInputs

  predicate Answers(call: Call) {
    call == Answer || call == Choose
  }

  /** Each effect has its own revision, which no unsubmitted call has. */
  ghost predicate Distinct(s: Sys) {
    && (forall i :: 0 <= i < |s.sent| ==> EffectFits(s, s.sent[i].revision))
    && (forall i, j :: 0 <= i < j < |s.sent| ==> s.sent[i].revision != s.sent[j].revision)
  }

  ghost predicate EffectFits(s: Sys, r: nat) {
    r <= |s.rows| && (r in s.calls ==> s.calls[r].submitted)
  }

  ghost predicate Sent(s: Sys, r: nat) {
    exists i :: 0 <= i < |s.sent| && s.sent[i].revision == r && Answers(s.sent[i].call)
  }

  /** The answer of a revision was made, or nothing can stop it any more. */
  ghost predicate AnswerEntered(s: Sys, r: nat) {
    Sent(s, r) || (r in s.calls && Answers(s.calls[r].call) && s.calls[r].fenced)
  }

  /** The intent of an answer and what the cycle recorded next: its receipt, an uncertain end, or
      the pickup report that a dialog waited for. */
  ghost predicate OwnedUp(s: Sys, r: nat) {
    && 1 <= r <= |s.rows| && s.rows[r - 1].state == PromptIntent
    && (r < |s.rows| ==> Settles(s.rows[r]))
  }

  predicate Settles(row: Row) {
    row.reason == PromptAnswered || row.state == Uncertain || row.state == Complete
  }

  ghost predicate Answered(s: Sys) {
    Distinct(s) && forall r :: AnswerEntered(s, r) ==> OwnedUp(s, r)
  }

  // What follows an intent

  lemma EndSettles(s: Sys, revision: nat, outcome: Stage, reason: Reason)
    requires s.db.row.state == PromptIntent
    ensures EndAt(s, revision, outcome, reason).rows == s.rows || Settles(EndAt(s, revision, outcome, reason).db.row)
  {
  }

  lemma ControlSettles(s: Sys, now: nat, seen: Seen)
    requires s.db.row.state == PromptIntent
    ensures
      var t := Make(s, s.db.row, PromptIntent, StepMove(s.adapter, s.db, now, seen), seen.pinned);
      t.rows == s.rows || Settles(t.db.row)
  {
    var move := StepMove(s.adapter, s.db, now, seen);
    assert move.End? || move == Wait;
    if move.End? {
      EndSettles(s, s.db.row.revision, move.outcome, move.reason);
    }
  }

  lemma MakeSettles(s: Sys, row: Row, from: Stage, move: Move, pinned: bool)
    requires s.db.row.state == PromptIntent && !move.Ask?
    requires move.Step? && row.revision == s.db.row.revision ==> move.reason == PromptAnswered
    ensures
      var t := Make(s, row, from, move, pinned);
      t.rows == s.rows || Settles(t.db.row)
  {
  }

  /** What is recorded of an answer: its receipt, an uncertain end, or a refusal. */
  lemma AnswerResult(adapter: Adapter, c: InFlight, result: Result)
    requires CallFits(adapter, c) && c.row.state == PromptIntent
    ensures
      var move := ResultMove(c.call, c.row, result);
      result.NotSent? || (!move.Ask? && (move.Step? ==> move.reason == PromptAnswered))
  {
  }

  lemma ResultSettles(s: Sys, revision: nat, result: Result)
    requires Recorded(s) && s.db.row.state == PromptIntent
    requires revision in s.calls && CallFitsAt(s, revision) && HonestResult(s.calls[revision], result)
    ensures
      || Settle(s, revision, result).rows == s.rows
      || Settles(Settle(s, revision, result).db.row)
      || (revision == s.db.row.revision && result.NotSent?)
  {
    var c := s.calls[revision];
    var move := ResultMove(c.call, c.row, result);
    CurrentCall(s, revision);
    ResultEnds(c, result);
    if revision == s.db.row.revision {
      AnswerResult(s.adapter, c, result);
    }
    if revision != s.db.row.revision || !result.NotSent? {
      MakeSettles(s.(calls := s.calls - {revision}), c.row, CallStage(c.call), move, true);
    }
  }

  lemma NextSettles(s: Sys, a: Action)
    requires Recorded(s) && CallsFit(s) && Enabled(s, a) && s.db.row.state == PromptIntent
    ensures
      || Next(s, a).rows == s.rows
      || Settles(Next(s, a).db.row)
      || (a.Return? && a.revision == s.db.row.revision && a.result.NotSent?)
  {
    match a
    case Control(read, seen) => ControlSettles(s, read, seen);
    case Return(revision, result) =>
      assert CallFitsAt(s, revision);
      ResultSettles(s, revision, result);
    case EndBy(outcome, why) => EndSettles(s, 0, outcome, Because(why));
    case _ =>
  }

  // The effects

  /** t has no effect and no fence that s has not. */
  ghost predicate NoAnswerEnters(s: Sys, t: Sys) {
    && t.sent == s.sent
    && forall r :: r in t.calls && t.calls[r].fenced ==>
         r in s.calls && t.calls[r].call == s.calls[r].call && s.calls[r].fenced
  }

  lemma DistinctGrows(s: Sys, t: Sys)
    requires Distinct(s) && t.sent == s.sent && |s.rows| <= |t.rows|
    requires forall r :: r in t.calls ==> r > |s.rows| || (r in s.calls && t.calls[r].submitted == s.calls[r].submitted)
    ensures Distinct(t)
  {
    forall i | 0 <= i < |t.sent|
      ensures EffectFits(t, t.sent[i].revision)
    {
      assert EffectFits(s, s.sent[i].revision);
    }
  }

  lemma SubmitDistinct(s: Sys, revision: nat)
    requires Distinct(s) && CallsFit(s) && Enabled(s, Submit(revision))
    ensures Distinct(Next(s, Submit(revision)))
  {
    var t, n := Next(s, Submit(revision)), |s.sent|;
    assert CallFitsAt(s, revision);
    forall i | 0 <= i < |t.sent|
      ensures EffectFits(t, t.sent[i].revision) && (i < n ==> t.sent[i].revision != revision)
    {
      if i < n {
        assert EffectFits(s, s.sent[i].revision);
      }
    }
  }

  lemma GrowingAnswers(s: Sys, a: Action)
    requires Inv(s) && Enabled(s, a) && Distinct(s) && !a.Fence? && !a.Submit?
    ensures NoAnswerEnters(s, Next(s, a)) && Distinct(Next(s, a))
  {
    var t := Next(s, a);
    var d := NextDid(s, a);
    RowsGrow(s, t, d);
    if a.Return? {
      ReturnCalls(s, a.revision, a.result);
    } else if !a.Crash? {
      NextCalls(s, a);
      GrownAreNew(s, t);
    }
    DistinctGrows(s, t);
  }

  lemma GrownAreNew(s: Sys, t: Sys)
    requires Recorded(s) && CallsGrow(s, t)
    ensures forall r :: r in t.calls ==>
              (r > |s.rows| && !t.calls[r].fenced) || (r in s.calls && t.calls[r] == s.calls[r])
  {
    forall r | r in t.calls
      ensures (r > |s.rows| && !t.calls[r].fenced) || (r in s.calls && t.calls[r] == s.calls[r])
    {
      assert OldCall(s, t, r) || NewCall(s, t, r);
    }
  }

  /** A refused answer was never made. */
  lemma RefusedNotSent(s: Sys, t: Sys, r: nat)
    requires Distinct(s) && r in s.calls && !s.calls[r].submitted
    requires t.sent == s.sent && r !in t.calls
    ensures !AnswerEntered(t, r)
  {
    forall i | 0 <= i < |s.sent|
      ensures s.sent[i].revision != r
    {
      assert EffectFits(s, s.sent[i].revision);
    }
  }

  lemma EnteredBefore(s: Sys, t: Sys, r: nat)
    requires NoAnswerEnters(s, t) && AnswerEntered(t, r)
    ensures AnswerEntered(s, r)
  {
  }

  lemma OwnedUpGrows(s: Sys, t: Sys, r: nat)
    requires OwnedUp(s, r) && (t.rows == s.rows || t.rows == s.rows + [t.db.row])
    requires r < |s.rows| || t.rows == s.rows || Settles(t.db.row)
    ensures OwnedUp(t, r)
  {
  }

  /** The row of an entered answer's intent goes only to a row that settles it. */
  lemma LastSettles(s: Sys, a: Action)
    requires Recorded(s) && CallsFit(s) && Distinct(s) && Enabled(s, a) && s.db.row.state == PromptIntent
    requires AnswerEntered(Next(s, a), s.db.row.revision)
    ensures Next(s, a).rows == s.rows || Settles(Next(s, a).db.row)
  {
    NextSettles(s, a);
    if a.Return? && a.revision == s.db.row.revision && a.result.NotSent? {
      ReturnCalls(s, a.revision, a.result);
      RefusedNotSent(s, Next(s, a), a.revision);
    }
  }

  lemma OtherAnswered(s: Sys, a: Action, d: Done, r: nat)
    requires Recorded(s) && CallsFit(s) && Distinct(s) && Enabled(s, a) && Did(s, Next(s, a), d)
    requires AnswerEntered(Next(s, a), r) && OwnedUp(s, r)
    ensures OwnedUp(Next(s, a), r)
  {
    if r == |s.rows| {
      LastSettles(s, a);
    }
    OwnedUpGrows(s, Next(s, a), r);
  }

  lemma FenceOwned(s: Sys, revision: nat, holds: bool)
    requires Recorded(s) && Switched(s) && Enabled(s, Fence(revision, holds)) && CallFitsAt(s, revision)
    requires Answers(s.calls[revision].call)
    ensures OwnedUp(s, revision)
  {
    CurrentCall(s, revision);
  }

  lemma FenceDistinct(s: Sys, revision: nat, holds: bool)
    requires Distinct(s) && Enabled(s, Fence(revision, holds))
    ensures Distinct(Next(s, Fence(revision, holds)))
  {
    DistinctGrows(s, Next(s, Fence(revision, holds)));
  }

  lemma FencedAnswer(s: Sys, revision: nat, holds: bool, r: nat)
    requires Enabled(s, Fence(revision, holds)) && AnswerEntered(Next(s, Fence(revision, holds)), r)
    requires !AnswerEntered(s, r)
    ensures r == revision && Answers(s.calls[revision].call)
  {
  }

  lemma FenceAnswered(s: Sys, revision: nat, holds: bool)
    requires Recorded(s) && CallsFit(s) && Switched(s) && Answered(s) && Enabled(s, Fence(revision, holds))
    ensures Answered(Next(s, Fence(revision, holds)))
  {
    var t := Next(s, Fence(revision, holds));
    assert CallFitsAt(s, revision);
    FenceDistinct(s, revision, holds);
    forall r | AnswerEntered(t, r)
      ensures OwnedUp(t, r)
    {
      if !AnswerEntered(s, r) {
        FencedAnswer(s, revision, holds, r);
        FenceOwned(s, revision, holds);
      }
      assert OwnedUp(s, r);
      OwnedUpGrows(s, t, r);
    }
  }

  lemma SubmitAnswered(s: Sys, revision: nat)
    requires CallsFit(s) && Answered(s) && Enabled(s, Submit(revision))
    ensures Answered(Next(s, Submit(revision)))
  {
    var t := Next(s, Submit(revision));
    SubmitDistinct(s, revision);
    forall r | AnswerEntered(t, r)
      ensures OwnedUp(t, r)
    {
      assert AnswerEntered(s, r);
      assert OwnedUp(s, r);
    }
  }

  lemma NextAnswered(s: Sys, a: Action)
    requires Inv(s) && Switched(s) && Answered(s) && Enabled(s, a)
    ensures Answered(Next(s, a))
  {
    if a.Fence? {
      FenceAnswered(s, a.revision, a.policyHolds);
    } else if a.Submit? {
      SubmitAnswered(s, a.revision);
    } else {
      GrowingAnswers(s, a);
      var d := NextDid(s, a);
      forall r | AnswerEntered(Next(s, a), r)
        ensures OwnedUp(Next(s, a), r)
      {
        EnteredBefore(s, Next(s, a), r);
        OtherAnswered(s, a, d, r);
      }
    }
  }

  lemma {:induction false} RunAnswered(s: Sys, actions: seq<Action>)
    requires Safe(s) && Answered(s) && Runs(s, actions)
    ensures Answered(After(s, actions))
    decreases |actions|
  {
    if actions != [] {
      NextSafe(s, actions[0]);
      NextAnswered(s, actions[0]);
      RunAnswered(Next(s, actions[0]), actions[1..]);
    }
  }
}
