/** Ready timeouts that keep a session's Enable, over any number of its cycles
    (internal/core/context_cycle_retry.go). */
module KeptRetry {
  import opened Options
  import opened Cycle

  /** What happened to the session. A read counts when it reached the Enable's record. */
  datatype Mark =
    | Kept(epoch: nat, revision: nat)
    | InboxRead(counted: bool)
    | Admission(epoch: nat, revision: nat)

  datatype Requester = Requester(enable: Enable, cycle: Option<Db>, marks: seq<Mark>)

  datatype Action =
    | AdmitCycle(compaction: bool, epoch: nat, now: nat)
    | MoveCycle(row: Row, log: seq<Event>)
    | EndCycle(adapter: Adapter, outcome: Stage, reason: Reason, now: nat)
    | SetEnable(on: bool)
    | ReadInbox

  /** awaitingRead. */
  predicate AwaitingRead(e: Enable, epoch: nat) {
    e.enabled && e.keptRevision == e.revision && !e.keptRead && e.keptEpoch == Some(epoch)
  }

  predicate Unfinished(s: Requester) {
    s.cycle.Some? && !Terminal(s.cycle.value.row.state)
  }

  ghost predicate Enabled(s: Requester, a: Action) {
    match a
    case AdmitCycle(_, epoch, _) => !Unfinished(s) && s.enable.enabled && !AwaitingRead(s.enable, epoch)
    case MoveCycle(row, log) => Unfinished(s) && !Terminal(row.state) && row.epoch == s.cycle.value.row.epoch
    case EndCycle(_, outcome, _, _) => Unfinished(s) && Terminal(outcome)
    case SetEnable(_) => true
    case ReadInbox => true
  }

  function Next(s: Requester, a: Action): Requester
    requires Enabled(s, a)
  {
    match a
    case AdmitCycle(compaction, epoch, now) =>
      s.(cycle := Some(Admit(compaction, s.enable, epoch, now)),
         marks := s.marks + [Admission(epoch, s.enable.revision)])
    case MoveCycle(row, log) => s.(cycle := Some(Db(row, log, s.enable)))
    case EndCycle(adapter, outcome, reason, now) =>
      var db := s.cycle.value.(enable := s.enable);
      var t := EndTx(db, adapter, now, outcome, reason);
      Requester(t.enable, Some(t),
              if TimeoutKeepsEnable(db, FinalOutcome(db, adapter, outcome), reason)
                 && !CompactionKeepsEnable(db.row, reason)
              then s.marks + [Kept(db.row.epoch, s.enable.revision)] else s.marks)
    case SetEnable(on) => s.(enable := SetEnabled(s.enable, on))
    case ReadInbox =>
      s.(enable := NoteRead(s.enable), marks := s.marks + [InboxRead(ReadCounts(s.enable))])
  }

  ghost predicate Runs(s: Requester, actions: seq<Action>)
    decreases |actions|
  {
    actions == [] || (Enabled(s, actions[0]) && Runs(Next(s, actions[0]), actions[1..]))
  }

  ghost function After(s: Requester, actions: seq<Action>): Requester
    requires Runs(s, actions)
    decreases |actions|
  {
    if actions == [] then s else After(Next(s, actions[0]), actions[1..])
  }

  function NewRequester(enabled: bool): Requester {
    Requester(Enable(enabled, 1, None, 0, false), None, [])
  }

  // The record against the history

  /** The newest kept timeout among the first n marks. */
  function LastKept(marks: seq<Mark>, n: nat): Option<nat>
    requires n <= |marks|
    ensures LastKept(marks, n).Some? ==> LastKept(marks, n).value < n && marks[LastKept(marks, n).value].Kept?
    ensures forall i :: (if LastKept(marks, n).Some? then LastKept(marks, n).value < i < n else 0 <= i < n) ==>
              !marks[i].Kept?
  {
    if n == 0 then None else if marks[n - 1].Kept? then Some((n - 1) as nat) else LastKept(marks, n - 1)
  }

  lemma {:induction false} LastKeptPrefix(marks: seq<Mark>, m: Mark, n: nat)
    requires n <= |marks|
    ensures LastKept(marks + [m], n) == LastKept(marks, n)
  {
    if n > 0 {
      LastKeptPrefix(marks, m, n - 1);
    }
  }

  lemma LastKeptAppend(marks: seq<Mark>, m: Mark)
    ensures LastKept(marks + [m], |marks| + 1) == if m.Kept? then Some(|marks| as nat) else LastKept(marks, |marks|)
  {
    LastKeptPrefix(marks, m, |marks|);
  }

  ghost predicate ReadSince(marks: seq<Mark>, k: nat) {
    exists i :: k < i < |marks| && marks[i] == InboxRead(true)
  }

  /** The Enable's record is the newest kept timeout, and whether a read counted since. */
  ghost predicate Recorded(s: Requester) {
    var k := LastKept(s.marks, |s.marks|);
    && s.enable.keptRevision <= s.enable.revision && s.enable.revision > 0
    && if k == None then s.enable.keptEpoch == None && s.enable.keptRevision == 0
       else
         && s.enable.keptEpoch == Some(s.marks[k.value].epoch) && s.enable.keptRevision == s.marks[k.value].revision
         && (s.enable.keptRead <==> ReadSince(s.marks, k.value))
  }

  /** Every admission, and every kept timeout, obeys the record that it found. */
  ghost predicate Obeyed(marks: seq<Mark>) {
    forall j :: 0 <= j < |marks| ==> ObeyedAt(marks, j)
  }

  ghost predicate ObeyedAt(marks: seq<Mark>, j: nat)
    requires j < |marks|
  {
    var k := LastKept(marks, j);
    k.Some? ==>
      && (marks[j].Kept? ==> marks[j] != marks[k.value])
      && (marks[j].Admission? && marks[j].epoch == marks[k.value].epoch
          && marks[j].revision == marks[k.value].revision ==>
            exists i :: k.value < i < j && marks[i] == InboxRead(true))
  }

  ghost predicate Inv(s: Requester) {
    Recorded(s) && Obeyed(s.marks)
  }

  lemma ReadSinceAppend(marks: seq<Mark>, m: Mark, k: nat)
    requires k < |marks|
    ensures ReadSince(marks + [m], k) <==> ReadSince(marks, k) || m == InboxRead(true)
  {
    var more := marks + [m];
    assert more[|marks|] == m;
    if ReadSince(marks, k) {
      var i :| k < i < |marks| && marks[i] == InboxRead(true);
      assert more[i] == marks[i];
    }
  }

  lemma ObeyedAppend(marks: seq<Mark>, m: Mark)
    requires Obeyed(marks)
    requires
      var k := LastKept(marks, |marks|);
      k.Some? ==>
        && (m.Kept? ==> m != marks[k.value])
        && (m.Admission? && m.epoch == marks[k.value].epoch && m.revision == marks[k.value].revision ==>
              ReadSince(marks, k.value))
    ensures Obeyed(marks + [m])
  {
    var more := marks + [m];
    forall j | 0 <= j < |more|
      ensures ObeyedAt(more, j)
    {
      LastKeptPrefix(marks, m, j);
      if j < |marks| {
        assert ObeyedAt(marks, j);
        ObeyedCopy(marks, m, j);
      } else {
        NewObeys(marks, m);
      }
    }
  }

  lemma ObeyedCopy(marks: seq<Mark>, m: Mark, j: nat)
    requires j < |marks| && ObeyedAt(marks, j) && LastKept(marks + [m], j) == LastKept(marks, j)
    ensures ObeyedAt(marks + [m], j)
  {
    var k, more := LastKept(marks, j), marks + [m];
    if k.Some? && marks[j].Admission? && marks[j].epoch == marks[k.value].epoch
       && marks[j].revision == marks[k.value].revision
    {
      var i :| k.value < i < j && marks[i] == InboxRead(true);
      assert more[i] == marks[i];
    }
  }

  lemma NewObeys(marks: seq<Mark>, m: Mark)
    requires LastKept(marks + [m], |marks|) == LastKept(marks, |marks|)
    requires
      var k := LastKept(marks, |marks|);
      k.Some? ==>
        && (m.Kept? ==> m != marks[k.value])
        && (m.Admission? && m.epoch == marks[k.value].epoch && m.revision == marks[k.value].revision ==>
              ReadSince(marks, k.value))
    ensures ObeyedAt(marks + [m], |marks|)
  {
    var k, more := LastKept(marks, |marks|), marks + [m];
    if k.Some? && m.Admission? && m.epoch == marks[k.value].epoch && m.revision == marks[k.value].revision {
      var i :| k.value < i < |marks| && marks[i] == InboxRead(true);
      assert more[i] == marks[i];
    }
  }

  lemma AdmitKeeps(s: Requester, a: Action)
    requires Inv(s) && Enabled(s, a) && a.AdmitCycle?
    ensures Inv(Next(s, a))
  {
    var m := Admission(a.epoch, s.enable.revision);
    var k := LastKept(s.marks, |s.marks|);
    LastKeptAppend(s.marks, m);
    if k.Some? {
      ReadSinceAppend(s.marks, m, k.value);
    }
    ObeyedAppend(s.marks, m);
  }

  lemma ReadKeeps(s: Requester)
    requires Inv(s)
    ensures Inv(Next(s, ReadInbox))
  {
    var m := InboxRead(ReadCounts(s.enable));
    var k := LastKept(s.marks, |s.marks|);
    LastKeptAppend(s.marks, m);
    if k.Some? {
      ReadSinceAppend(s.marks, m, k.value);
    }
    ObeyedAppend(s.marks, m);
  }

  lemma EndKeeps(s: Requester, a: Action)
    requires Inv(s) && Enabled(s, a) && a.EndCycle?
    ensures Inv(Next(s, a))
  {
    var t := Next(s, a);
    if t.marks != s.marks {
      var m := Kept(s.cycle.value.row.epoch, s.enable.revision);
      LastKeptAppend(s.marks, m);
      ObeyedAppend(s.marks, m);
    }
  }

  lemma NextKeeps(s: Requester, a: Action)
    requires Inv(s) && Enabled(s, a)
    ensures Inv(Next(s, a))
  {
    match a
    case AdmitCycle(_, _, _) => AdmitKeeps(s, a);
    case EndCycle(_, _, _, _) => EndKeeps(s, a);
    case ReadInbox => ReadKeeps(s);
    case _ =>
  }

  lemma {:induction false} RunKeeps(s: Requester, actions: seq<Action>)
    requires Inv(s) && Runs(s, actions)
    ensures Inv(After(s, actions))
    decreases |actions|
  {
    if actions != [] {
      NextKeeps(s, actions[0]);
      RunKeeps(Next(s, actions[0]), actions[1..]);
    }
  }

  // What the record means

  /** Two timeouts in a row that keep the Enable differ in the epoch or in its revision. */
  lemma KeptTimeoutsDiffer(enabled: bool, actions: seq<Action>, i: nat, j: nat)
    requires Runs(NewRequester(enabled), actions)
    requires
      var marks := After(NewRequester(enabled), actions).marks;
      i < j < |marks| && marks[i].Kept? && marks[j].Kept? && forall k :: i < k < j ==> !marks[k].Kept?
    ensures
      var marks := After(NewRequester(enabled), actions).marks;
      marks[i].epoch != marks[j].epoch || marks[i].revision != marks[j].revision
  {
    RunKeeps(NewRequester(enabled), actions);
    var marks := After(NewRequester(enabled), actions).marks;
    assert ObeyedAt(marks, j) && LastKept(marks, j) == Some(i);
  }

  /** After a kept timeout no cycle is admitted under its epoch and Enable revision before a read of
      the inbox that counts, unless another timeout was kept in between. */
  lemma NoAdmissionBeforeRead(enabled: bool, actions: seq<Action>, i: nat, j: nat)
    requires Runs(NewRequester(enabled), actions)
    requires
      var marks := After(NewRequester(enabled), actions).marks;
      i < j < |marks| && marks[i].Kept? && marks[j] == Admission(marks[i].epoch, marks[i].revision)
    ensures
      var marks := After(NewRequester(enabled), actions).marks;
      (exists k :: i < k < j && marks[k] == InboxRead(true)) || (exists k :: i < k < j && marks[k].Kept?)
  {
    RunKeeps(NewRequester(enabled), actions);
    var marks := After(NewRequester(enabled), actions).marks;
    assert ObeyedAt(marks, j);
    if forall k :: i < k < j ==> !marks[k].Kept? {
      assert LastKept(marks, j) == Some(i);
    }
  }

  /** An unfinished session waits for a read exactly when the newest kept timeout is of this epoch
      and of the Enable's revision, and no read counted since. */
  lemma AwaitingReadIsHistory(enabled: bool, actions: seq<Action>, epoch: nat)
    requires Runs(NewRequester(enabled), actions)
    ensures
      var s := After(NewRequester(enabled), actions);
      var k := LastKept(s.marks, |s.marks|);
      AwaitingRead(s.enable, epoch) <==>
        && s.enable.enabled && k.Some? && s.marks[k.value] == Kept(epoch, s.enable.revision)
        && !ReadSince(s.marks, k.value)
  {
    RunKeeps(NewRequester(enabled), actions);
  }

  lemma RunCons(s: Requester, a: Action, rest: seq<Action>)
    requires Enabled(s, a) && Runs(Next(s, a), rest)
    ensures Runs(s, [a] + rest) && After(s, [a] + rest) == After(Next(s, a), rest)
  {
    assert ([a] + rest)[1..] == rest;
  }

  const TIMEOUT := EndCycle(Pane, Failed, Because(ReadyTimeout), 0)

  /** A cycle that is admitted and times out at its ready deadline. */
  lemma AdmittedTimesOut(s: Requester, epoch: nat)
    requires !Unfinished(s) && s.enable.enabled && s.enable.keptEpoch != Some(epoch)
    ensures Enabled(s, AdmitCycle(false, epoch, 0))
    ensures
      var t := Next(s, AdmitCycle(false, epoch, 0));
      && Enabled(t, TIMEOUT)
      && var u := Next(t, TIMEOUT);
      && !Unfinished(u)
      && u.enable == s.enable.(keptEpoch := Some(epoch), keptRevision := s.enable.revision, keptRead := false)
      && u.marks == s.marks + [Admission(epoch, s.enable.revision)] + [Kept(epoch, s.enable.revision)]
  {
    var t := Next(s, AdmitCycle(false, epoch, 0));
    var inputs := Stages({ClearIntent, PickupIntent, PromptIntent, CompactIntent});
    assert MaxOf(t.cycle.value.log, 1, inputs, Ordinal) == None;
  }

  function TimedOut(s: Requester, epoch: nat): (u: Requester)
    requires !Unfinished(s) && s.enable.enabled && s.enable.keptEpoch != Some(epoch)
    ensures !Unfinished(u)
    ensures u.enable == s.enable.(keptEpoch := Some(epoch), keptRevision := s.enable.revision, keptRead := false)
    ensures u.marks == s.marks + [Admission(epoch, s.enable.revision)] + [Kept(epoch, s.enable.revision)]
  {
    AdmittedTimesOut(s, epoch);
    Next(Next(s, AdmitCycle(false, epoch, 0)), TIMEOUT)
  }

  lemma TimedOutThen(s: Requester, epoch: nat, rest: seq<Action>)
    requires !Unfinished(s) && s.enable.enabled && s.enable.keptEpoch != Some(epoch) && Runs(TimedOut(s, epoch), rest)
    ensures
      var actions := [AdmitCycle(false, epoch, 0)] + ([TIMEOUT] + rest);
      Runs(s, actions) && After(s, actions) == After(TimedOut(s, epoch), rest)
  {
    AdmittedTimesOut(s, epoch);
    RunCons(Next(s, AdmitCycle(false, epoch, 0)), TIMEOUT, rest);
    RunCons(s, AdmitCycle(false, epoch, 0), [TIMEOUT] + rest);
  }

  /** An inbox read ends the wait for one, if the Enable waits, and changes nothing else. */
  lemma ReadEndsWait(s: Requester)
    requires Recorded(s)
    ensures
      var e := Next(s, ReadInbox).enable;
      && e == s.enable.(keptRead := e.keptRead)
      && (e.keptRead <==> s.enable.keptRead || exists epoch :: AwaitingRead(s.enable, epoch))
      && forall epoch :: !AwaitingRead(e, epoch)
  {
    if ReadCounts(s.enable) {
      assert AwaitingRead(s.enable, s.enable.keptEpoch.value);
    }
  }

  /** A new Enable, on or off, has a new revision and waits for no read, whatever was kept before. */
  lemma EnableIsNew(s: Requester, on: bool)
    requires Recorded(s)
    ensures
      var e := Next(s, SetEnable(on)).enable;
      && e == Enable(on, s.enable.revision + 1, s.enable.keptEpoch, s.enable.keptRevision, s.enable.keptRead)
      && forall epoch :: !AwaitingRead(e, epoch)
  {
  }

  /** The condition is needed: after kept timeouts under two epochs, the first epoch is admitted
      again without a read. */
  lemma AnotherTimeoutForgets() returns (actions: seq<Action>)
    ensures Runs(NewRequester(true), actions)
    ensures After(NewRequester(true), actions).marks ==
            [Admission(7, 1), Kept(7, 1), Admission(8, 1), Kept(8, 1), Admission(7, 1)]
  {
    var s := NewRequester(true);
    var rest := SecondTimeout(TimedOut(s, 7));
    TimedOutThen(s, 7, rest);
    actions := [AdmitCycle(false, 7, 0)] + ([TIMEOUT] + rest);
  }

  lemma SecondTimeout(s: Requester) returns (actions: seq<Action>)
    requires !Unfinished(s) && s.enable.enabled && s.enable.keptEpoch == Some(7)
    ensures Runs(s, actions)
    ensures
      var r := s.enable.revision;
      After(s, actions).marks == s.marks + [Admission(8, r)] + [Kept(8, r)] + [Admission(7, r)]
  {
    var again := AdmitCycle(false, 7, 0);
    AdmittedAgain(TimedOut(s, 8));
    TimedOutThen(s, 8, [again]);
    actions := [AdmitCycle(false, 8, 0)] + ([TIMEOUT] + [again]);
  }

  lemma AdmittedAgain(u: Requester)
    requires !Unfinished(u) && u.enable.enabled && u.enable.keptEpoch != Some(7)
    ensures
      var again := AdmitCycle(false, 7, 0);
      Runs(u, [again]) && After(u, [again]).marks == u.marks + [Admission(7, u.enable.revision)]
  {
    RunCons(u, AdmitCycle(false, 7, 0), []);
  }
}
