/** How long a cycle may stay in each stage: the deadline of every unfinished row, from the time at
    which it entered its stage. */
module CycleWaits {
  import opened Options
  import opened Cycle
  import opened CycleRuns
  import opened CycleHistory
  import opened CycleSafety
  import opened CycleCalls
  import opened CycleInvariant
  import opened CycleInputs

  /** The first event of the stretch of one stage that ends at index n. */
  function Began(log: seq<Event>, n: nat): (i: nat)
    requires n < |log|
    ensures i <= n && log[i].stage == log[n].stage
    ensures i > 0 ==> log[i - 1].stage != log[i].stage
    ensures forall k :: i <= k <= n ==> log[k].stage == log[n].stage
  {
    if n > 0 && log[n - 1].stage == log[n].stage then Began(log, n - 1) else n
  }

  /** When the cycle entered its present stage; later events of the same stage do not count. */
  function EnteredAt(log: seq<Event>): nat
    requires |log| > 0
  {
    log[Began(log, |log| - 1)].at
  }

  lemma {:induction false} BeganPrefix(log: seq<Event>, more: seq<Event>, n: nat)
    requires n < |log|
    ensures Began(log + more, n) == Began(log, n)
  {
    if n > 0 && log[n - 1].stage == log[n].stage {
      BeganPrefix(log, more, n - 1);
    }
  }

  lemma EnteredAppend(log: seq<Event>, e: Event)
    requires |log| > 0
    ensures EnteredAt(log + [e]) == if log[|log| - 1].stage == e.stage then EnteredAt(log) else e.at
  {
    BeganPrefix(log, [e], |log| - 1);
    assert (log + [e])[|log| - 1] == log[|log| - 1] && (log + [e])[|log|] == e;
  }

  /** The wait of a stage, in milliseconds: the pickup report 5 minutes, a submitted compaction and a
      dialog 10, and every other stage 2. The stages that keep an earlier wait have none of their own. */
  predicate HasWait(row: Row) {
    && row.state != WaitingReady && row.state != CompactWaiting
    && !(row.state == WaitingPrompt && row.promptFrom == Some(WaitingPickup))
  }

  function WaitOf(state: Stage): nat {
    match state
    case WaitingPickup => 300_000
    case CompactSent => 600_000
    case WaitingPrompt => 600_000
    case _ => 120_000
  }

  /** The deadline of a stage that was entered at a time. */
  ghost predicate Due(row: Row, log: seq<Event>, entered: nat) {
    if row.state == PromptIntent && row.promptFrom == Some(WaitingPickup) then
      && PickupPromptDeadline(log).Some?
      && row.stageDeadline == Min(Min(entered + 120_000, PickupPromptDeadline(log).value), row.cycleDeadline)
    else row.stageDeadline == Min(entered + WaitOf(row.state), row.cycleDeadline)
  }

  ghost predicate Waited(s: Sys) {
    |s.db.log| > 0 && !Terminal(s.db.row.state) && HasWait(s.db.row) ==> Due(s.db.row, s.db.log, EnteredAt(s.db.log))
  }

  lemma LastStage(s: Sys)
    requires Counted(s) && Recorded(s) && !Terminal(s.db.row.state) && HasWait(s.db.row)
    ensures s.db.log[|s.db.log| - 1].stage == s.db.row.state
  {
  }

  /** A transition to another stage gives that stage its own wait from now. */
  lemma NewWait(s: Sys, to: Stage, reason: Reason, change: Change)
    requires CanStep(s, to, reason, change) && Shaped(s.db.row) && s.db.row.state != to
    requires HasWait(StepSys(s, to, reason, change).db.row)
    ensures Due(StepSys(s, to, reason, change).db.row, StepSys(s, to, reason, change).db.log, s.now)
  {
  }

  /** One within the same stage keeps it. */
  lemma SameWait(s: Sys, to: Stage, reason: Reason, change: Change)
    requires CanStep(s, to, reason, change) && Shaped(s.db.row) && s.db.row.state == to && Bounded(s)
    ensures
      var t := StepSys(s, to, reason, change);
      && t.db.row.stageDeadline == s.db.row.stageDeadline && (to == WaitingPickup || to == ClearReceived)
  {
  }

  lemma StepWaited(s: Sys, to: Stage, reason: Reason, change: Change)
    requires Counted(s) && Recorded(s) && Bounded(s) && Waited(s) && CanStep(s, to, reason, change)
    ensures Waited(StepSys(s, to, reason, change))
  {
    var t, e := StepSys(s, to, reason, change), Event(s.db.row.events + 1, s.now, to, reason);
    StepFollows(s, to, reason, change);
    EnteredAppend(s.db.log, e);
    if s.db.row.state == to {
      SameWait(s, to, reason, change);
      LastStage(s);
    } else if HasWait(t.db.row) {
      NewWait(s, to, reason, change);
      NewStage(s, to, reason, change);
    }
  }

  lemma NewStage(s: Sys, to: Stage, reason: Reason, change: Change)
    requires Counted(s) && Recorded(s) && CanStep(s, to, reason, change) && s.db.row.state != to
    ensures s.db.log[|s.db.log| - 1].stage != to
  {
  }

  lemma NextWaited(s: Sys, a: Action)
    requires Counted(s) && Recorded(s) && Bounded(s) && CallsFit(s) && Waited(s) && Enabled(s, a)
    ensures Waited(Next(s, a))
  {
    var d := NextDid(s, a);
    DidWaited(s, Next(s, a), d);
  }

  lemma DidWaited(s: Sys, t: Sys, d: Done)
    requires Counted(s) && Recorded(s) && Bounded(s) && Waited(s) && Did(s, t, d)
    ensures Waited(t)
  {
    if d.Moved? {
      StepWaited(s, d.to, d.reason, d.change);
    }
  }

  lemma {:induction false} RunWaited(s: Sys, actions: seq<Action>)
    requires Safe(s) && Waited(s) && Runs(s, actions)
    ensures Waited(After(s, actions))
    decreases |actions|
  {
    if actions != [] {
      NextSafe(s, actions[0]);
      NextWaited(s, actions[0]);
      RunWaited(Next(s, actions[0]), actions[1..]);
    }
  }

  // The waits that are kept from an earlier event

  /** The first dialog after the pickup. */
  ghost predicate FirstDialog(log: seq<Event>, i: nat) {
    && i < |log| && log[i].stage == WaitingPrompt
    && (exists j :: 0 <= j < i && log[j].stage == WaitingPickup)
    && forall j, k :: 0 <= j < k < i && log[j].stage == WaitingPickup ==> log[k].stage != WaitingPrompt
  }

  /** A wait that the query finds has its first dialog. */
  lemma DialogFound(log: seq<Event>, now: nat) returns (i: nat)
    requires Ordered(log, now) && PickupPromptDeadline(log).Some?
    ensures FirstDialog(log, i)
  {
    var pickup := Stages({WaitingPickup});
    FoundIn(log, |log|, pickup, Ordinal);
    var first := MinOf(log, |log|, pickup, Ordinal).value;
    FoundIn(log, |log|, Filter({WaitingPrompt}, AnyReason, first), At);
    i := first;
    while log[i].stage != WaitingPrompt
      invariant first <= i < |log|
      invariant forall k :: first <= k < i ==> log[k].stage != WaitingPrompt
      invariant exists k :: i <= k < |log| && log[k].stage == WaitingPrompt
      decreases |log| - i
    {
      i := i + 1;
    }
    assert log[first - 1].stage == WaitingPickup;
    NoEarlierPickup(log, now, first);
  }

  lemma NoEarlierPickup(log: seq<Event>, now: nat, first: nat)
    requires Ordered(log, now) && MinOf(log, |log|, Stages({WaitingPickup}), Ordinal) == Some(first)
    ensures forall j :: 0 <= j < |log| && log[j].stage == WaitingPickup ==> j >= first - 1
  {
    FoundIn(log, |log|, Stages({WaitingPickup}), Ordinal);
    forall j | 0 <= j < |log| && log[j].stage == WaitingPickup
      ensures j >= first - 1
    {
      assert Matches(Stages({WaitingPickup}), log[j]);
    }
  }

  lemma DialogWaitIs(log: seq<Event>, now: nat, i: nat)
    requires Ordered(log, now) && FirstDialog(log, i)
    ensures PickupPromptDeadline(log) == Some(log[i].at + 600_000)
  {
    var pickup, first := Stages({WaitingPickup}), MinOf(log, |log|, Stages({WaitingPickup}), Ordinal);
    FoundIn(log, |log|, pickup, Ordinal);
    var j :| 0 <= j < i && log[j].stage == WaitingPickup;
    assert Matches(pickup, log[j]);
    var f := Filter({WaitingPrompt}, AnyReason, first.value);
    FoundIn(log, |log|, f, At);
    assert Matches(f, log[i]);
    DialogIsFirst(log, now, i, first.value);
  }

  lemma DialogIsFirst(log: seq<Event>, now: nat, i: nat, first: nat)
    requires Ordered(log, now) && FirstDialog(log, i)
    requires 0 < first <= |log| && log[first - 1].stage == WaitingPickup
    ensures forall k :: 0 <= k < |log| && Matches(Filter({WaitingPrompt}, AnyReason, first), log[k]) ==>
              log[i].at <= log[k].at
  {
  }

  ghost predicate DialogDue(row: Row, log: seq<Event>, i: nat)
    requires i < |log|
  {
    row.stageDeadline ==
      if row.state == WaitingPrompt then Min(log[i].at + 600_000, row.cycleDeadline)
      else Min(Min(EnteredAt(log) + 120_000, log[i].at + 600_000), row.cycleDeadline)
  }

  /** The dialogs of a pickup have a first one, and wait 10 minutes from it; an answer's intent has 2
      minutes of that wait. */
  ghost predicate DialogWait(row: Row, log: seq<Event>) {
    && (exists i: nat :: FirstDialog(log, i))
    && forall i: nat :: FirstDialog(log, i) ==> DialogDue(row, log, i)
  }

  lemma DialogsWait(s: Sys)
    requires Counted(s) && PickupTimed(s) && Waited(s) && InPrompt(s.db.row, WaitingPickup)
    ensures DialogWait(s.db.row, s.db.log)
  {
    var first := DialogFound(s.db.log, s.now);
    forall i: nat | FirstDialog(s.db.log, i)
      ensures DialogDue(s.db.row, s.db.log, i)
    {
      DialogWaitIs(s.db.log, s.now, i);
      DialogIsDue(s, i);
    }
  }

  lemma DialogIsDue(s: Sys, i: nat)
    requires |s.db.log| > 0 && PickupTimed(s) && Waited(s) && InPrompt(s.db.row, WaitingPickup) && i < |s.db.log|
    requires PickupPromptDeadline(s.db.log) == Some(s.db.log[i].at + 600_000)
    ensures DialogDue(s.db.row, s.db.log, i)
  {
  }

  /** The newest repeated request, or none. */
  ghost predicate NewestRequest(log: seq<Event>, i: nat) {
    && i < |log| && log[i].stage == WaitingReady && log[i].reason.NotIdle?
    && forall k :: i < k < |log| ==> !(log[k].stage == WaitingReady && log[k].reason.NotIdle?)
  }

  ghost predicate NoRequest(log: seq<Event>) {
    forall i :: 0 <= i < |log| ==> !(log[i].stage == WaitingReady && log[i].reason.NotIdle?)
  }

  lemma RequestIs(log: seq<Event>, now: nat, createdAt: nat)
    requires Ordered(log, now)
    ensures forall i: nat :: NewestRequest(log, i) ==> RequestedAt(log, createdAt) == log[i].at
    ensures NoRequest(log) ==> RequestedAt(log, createdAt) == createdAt
  {
    FoundIn(log, |log|, REPEATED, At);
    forall i: nat | NewestRequest(log, i)
      ensures RequestedAt(log, createdAt) == log[i].at
    {
      assert Matches(REPEATED, log[i]);
    }
  }

  /** The stage has its own wait from the event that entered it. */
  ghost predicate OwnWait(row: Row, log: seq<Event>) {
    && |log| > 0 && log[|log| - 1].stage == row.state
    && row.stageDeadline == Min(EnteredAt(log) + WaitOf(row.state), row.cycleDeadline)
  }

  /** The wait of the newest repeated request, or of the admission. */
  ghost predicate RequestWait(row: Row, log: seq<Event>) {
    && (NoRequest(log) ==> row.stageDeadline == row.createdAt + 900_000)
    && forall i: nat :: NewestRequest(log, i) ==> row.stageDeadline == Min(log[i].at + 900_000, row.cycleDeadline)
  }

  lemma StageWaits(s: Sys)
    requires Counted(s) && Recorded(s) && Bounded(s) && Waited(s) && !Terminal(s.db.row.state)
    ensures s.db.row.cycleDeadline == s.db.row.createdAt + 1_800_000
    ensures HasWait(s.db.row) && !InPrompt(s.db.row, WaitingPickup) ==> OwnWait(s.db.row, s.db.log)
    ensures s.db.row.state == WaitingReady ==> RequestWait(s.db.row, s.db.log)
    ensures s.db.row.state == CompactWaiting ==> s.db.row.stageDeadline == s.db.row.createdAt + 900_000
  {
    if HasWait(s.db.row) {
      LastStage(s);
    }
    RequestIs(s.db.log, s.now, s.db.row.createdAt);
  }
}
