/** The successor epoch of a cycle is recorded once: no later row, finished or not, has another. */
module CycleEpochs {
  import opened Options
  import opened Cycle
  import opened CycleController
  import opened CycleRuns
  import opened CycleSafety
  import opened CycleCalls
  import opened CycleInvariant
  import opened CycleInputs

  /** The rows after one with a successor epoch have the same one. */
  ghost predicate Kept(rows: seq<Row>) {
    forall i, j :: 0 <= i <= j < |rows| && rows[i].successorEpoch.Some? ==>
      rows[j].successorEpoch == rows[i].successorEpoch
  }

  /** Without the session adapter, only the proof of the reset records one. */
  ghost predicate Bare(s: Sys) {
    s.adapter == Pane && !Terminal(s.db.row.state) && !Post(s.db.row) ==> s.db.row.successorEpoch == None
  }

  ghost predicate Steady(s: Sys) {
    Kept(s.rows) && Bare(s)
  }

  /** A move that records the epoch that the row already has, or none. */
  predicate SameEpoch(row: Row, move: Move) {
    move.Step? && move.change.SetSuccessor? ==> Some(move.change.epoch) == row.successorEpoch
  }

  lemma MakeKeepsEpoch(s: Sys, row: Row, from: Stage, move: Move, pinned: bool)
    requires row.revision == s.db.row.revision ==> SameEpoch(s.db.row, move)
    ensures Make(s, row, from, move, pinned).db.row.successorEpoch == s.db.row.successorEpoch
  {
  }

  /** A create that follows a recorded session returns that session, and the controller proves no
      reset of an unreceived clear. */
  lemma ClearKeepsEpoch(s: Sys, a: Action)
    requires Recorded(s) && CallsFit(s) && Enabled(s, a) && !a.PickupWrite?
    requires s.adapter == Session && s.db.row.state == ClearIntent && s.db.row.successorEpoch.Some?
    ensures Next(s, a).db.row.successorEpoch == s.db.row.successorEpoch
  {
    if a.Control? {
      MakeKeepsEpoch(s, s.db.row, ClearIntent, StepMove(s.adapter, s.db, a.read, a.seen), a.seen.pinned);
    } else if a.Return? {
      assert CallFitsAt(s, a.revision);
      SettleKeepsEpoch(s, a.revision, a.result);
    }
  }

  lemma SettleKeepsEpoch(s: Sys, revision: nat, result: Result)
    requires Recorded(s) && revision in s.calls && CallFitsAt(s, revision) && HonestResult(s.calls[revision], result)
    requires s.adapter == Session && s.db.row.state == ClearIntent && s.db.row.successorEpoch.Some?
    ensures Settle(s, revision, result).db.row.successorEpoch == s.db.row.successorEpoch
  {
    var c := s.calls[revision];
    var move := ResultMove(c.call, c.row, result);
    CurrentCall(s, revision);
    MakeKeepsEpoch(s.(calls := s.calls - {revision}), c.row, CallStage(c.call), move, true);
  }

  lemma MovedEpoch(s: Sys, to: Stage, reason: Reason, change: Change)
    requires CanStep(s, to, reason, change) && Bare(s) && Shaped(s.db.row) && s.db.row.successorEpoch.Some?
    requires s.adapter == Session ==> s.db.row.state != ClearIntent
    ensures StepSys(s, to, reason, change).db.row.successorEpoch == s.db.row.successorEpoch
  {
  }

  /** A pickup report was read against the successor epoch of the row. */
  lemma WriteKeepsEpoch(s: Sys, id: nat, pinned: bool)
    requires ClaimsFit(s) && s.db.row.successorEpoch.Some?
    ensures WritePickup(s, id, pinned).db.row.successorEpoch == s.db.row.successorEpoch
  {
  }

  lemma DidKeepsEpoch(s: Sys, t: Sys, d: Done)
    requires Did(s, t, d) && Bare(s) && Recorded(s) && s.db.row.successorEpoch.Some?
    requires s.adapter == Session ==> s.db.row.state != ClearIntent
    requires d.Closed? ==> d.successorEpoch == s.db.row.successorEpoch
    ensures t.db.row.successorEpoch == s.db.row.successorEpoch
  {
    if d.Moved? {
      MovedEpoch(s, d.to, d.reason, d.change);
    }
  }

  lemma NextKeepsEpoch(s: Sys, a: Action)
    requires Counted(s) && Recorded(s) && CallsFit(s) && ClaimsFit(s) && Bare(s) && Enabled(s, a)
    requires s.db.row.successorEpoch.Some?
    ensures Next(s, a).db.row.successorEpoch == s.db.row.successorEpoch
  {
    if a.PickupWrite? {
      WriteKeepsEpoch(s, a.id, a.pinned);
    } else if s.adapter == Session && s.db.row.state == ClearIntent {
      ClearKeepsEpoch(s, a);
    } else {
      var d := NextDid(s, a);
      DidKeepsEpoch(s, Next(s, a), d);
    }
  }

  lemma MovedBare(s: Sys, to: Stage, reason: Reason, change: Change)
    requires CanStep(s, to, reason, change) && Bare(s) && Shaped(s.db.row)
    ensures Bare(StepSys(s, to, reason, change))
  {
  }

  lemma NextBare(s: Sys, a: Action)
    requires Inv(s) && Bare(s) && Enabled(s, a)
    ensures Bare(Next(s, a))
  {
    var d := NextDid(s, a);
    if d.Moved? {
      MovedBare(s, d.to, d.reason, d.change);
    }
  }

  lemma KeptGrows(rows: seq<Row>, row: Row)
    requires Kept(rows) && |rows| > 0
    requires var last := rows[|rows| - 1]; last.successorEpoch.Some? ==> row.successorEpoch == last.successorEpoch
    ensures Kept(rows + [row])
  {
    var n, more := |rows|, rows + [row];
    forall i, j | 0 <= i <= j <= n && more[i].successorEpoch.Some?
      ensures more[j].successorEpoch == more[i].successorEpoch
    {
      if i < n && j == n {
        assert rows[n - 1].successorEpoch == rows[i].successorEpoch;
      }
    }
  }

  lemma NextSteady(s: Sys, a: Action)
    requires Inv(s) && Steady(s) && Enabled(s, a)
    ensures Steady(Next(s, a))
  {
    NextBare(s, a);
    var d := NextDid(s, a);
    if d != Nothing {
      if s.db.row.successorEpoch.Some? {
        NextKeepsEpoch(s, a);
      }
      KeptGrows(s.rows, Next(s, a).db.row);
    }
  }

  lemma {:induction false} RunSteady(s: Sys, actions: seq<Action>)
    requires Safe(s) && Steady(s) && Runs(s, actions)
    ensures Steady(After(s, actions))
    decreases |actions|
  {
    if actions != [] {
      NextSafe(s, actions[0]);
      NextSteady(s, actions[0]);
      RunSteady(Next(s, actions[0]), actions[1..]);
    }
  }
}
