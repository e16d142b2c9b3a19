/** The invariant that every action of a cycle keeps. */
module CycleInvariant {
  import opened Cycle
  import opened CycleController
  import opened CycleRuns
  import opened CycleSafety
  import opened CycleCalls
  import opened CycleOnce

  // The invariant of every run

  lemma RowsGrow(s: Sys, t: Sys, d: Done)
    requires Did(s, t, d)
    ensures |s.rows| <= |t.rows| && forall i :: 0 <= i < |s.rows| ==> t.rows[i] == s.rows[i]
    ensures |s.rows| > 0 && Recorded(s) ==> SameCycle(s.db.row, t.db.row)
  {
    match d
    case Nothing =>
    case Moved(to, reason, change) => if Recorded(s) { StepFollows(s, to, reason, change); }
    case Closed(_, _, _) =>
  }

  lemma CallsFitGrows(s: Sys, t: Sys, d: Done)
    requires CallsFit(s) && Did(s, t, d) && Recorded(s) && Core(t) && CallsGrow(s, t)
    ensures CallsFit(t)
  {
    RowsGrow(s, t, d);
    forall r | r in t.calls
      ensures CallFitsAt(t, r)
    {
      if OldCall(s, t, r) {
        assert CallFitsAt(s, r);
      }
    }
  }

  /** Every call of t is one of s, perhaps fenced or submitted since. */
  ghost predicate CallsShrink(s: Sys, t: Sys) {
    forall r :: r in t.calls ==>
      && r in s.calls && t.calls[r].row == s.calls[r].row && t.calls[r].call == s.calls[r].call
      && t.calls[r].kept == s.calls[r].kept
      && (t.calls[r].submitted ==> t.calls[r].fenced && MakesRequest(t.calls[r]))
  }

  lemma CallsFitShrinks(s: Sys, t: Sys, d: Done)
    requires CallsFit(s) && Did(s, t, d) && CallsShrink(s, t)
    ensures CallsFit(t)
  {
    RowsGrow(s, t, d);
    forall r | r in t.calls
      ensures CallFitsAt(t, r)
    {
      assert CallFitsAt(s, r);
    }
  }

  lemma ShrinkingCalls(s: Sys, a: Action)
    requires CallsFit(s) && Enabled(s, a) && (a.Fence? || a.Submit? || a.Return? || a.Crash?)
    ensures CallsShrink(s, Next(s, a))
  {
    if a.Return? {
      ReturnCalls(s, a.revision, a.result);
    }
    forall r | r in s.calls
      ensures s.calls[r].submitted ==> s.calls[r].fenced && MakesRequest(s.calls[r])
    {
      assert CallFitsAt(s, r);
    }
  }

  lemma ReadClaims(s: Sys, a: Action)
    requires ClaimsFit(s) && a.PickupRead?
    ensures ClaimsFit(ReadPickup(s, a))
  {
  }

  lemma ClaimsLeft(s: Sys, t: Sys)
    requires ClaimsFit(s) && SameCycle(s.db.row, t.db.row)
    requires forall id :: id in t.claims ==> id in s.claims && t.claims[id] == s.claims[id]
    ensures ClaimsFit(t)
  {
  }

  lemma NextClaims(s: Sys, a: Action)
    requires ClaimsFit(s) && Enabled(s, a) && SameCycle(s.db.row, Next(s, a).db.row)
    ensures ClaimsFit(Next(s, a))
  {
    if a.PickupRead? {
      ReadClaims(s, a);
    } else {
      if a.Control? {
        MakeClaims(s, s.db.row, s.db.row.state, StepMove(s.adapter, s.db, a.read, a.seen), a.seen.pinned);
      } else if a.Return? {
        ReturnCalls(s, a.revision, a.result);
      }
      ClaimsLeft(s, Next(s, a));
    }
  }

  lemma MakeClaims(s: Sys, row: Row, from: Stage, move: Move, pinned: bool)
    ensures Make(s, row, from, move, pinned).claims == s.claims
  {
  }

  lemma NextCallsFit(s: Sys, a: Action, d: Done)
    requires Inv(s) && Enabled(s, a) && Did(s, Next(s, a), d) && Core(Next(s, a))
    ensures CallsFit(Next(s, a))
  {
    if a.Fence? || a.Submit? || a.Return? || a.Crash? {
      ShrinkingCalls(s, a);
      CallsFitShrinks(s, Next(s, a), d);
    } else {
      NextCalls(s, a);
      CallsFitGrows(s, Next(s, a), d);
    }
  }

  lemma NextInv(s: Sys, a: Action)
    requires Inv(s) && Enabled(s, a)
    ensures Inv(Next(s, a))
  {
    var d := NextDid(s, a);
    DidKeeps(s, Next(s, a), d);
    RowsGrow(s, Next(s, a), d);
    NextCallsFit(s, a, d);
    NextClaims(s, a);
  }
}
