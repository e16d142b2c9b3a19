/** Whole runs of the deep archive, with crashes, and what their items can lose. */
module ArchiveRuns {
  import opened Bytes
  import opened Options
  import opened Archive
  import opened ArchiveMoves
  import opened ArchiveSafety

  /** Every line that is still there survives a power failure. */
  ghost predicate Durable(s: State) {
    forall r :: r in s.locators && r !in s.lost ==> LocatorDurable(s, s.locators[r])
  }

  ghost predicate LocatorDurable(s: State, l: Locator) {
    Ends(l) <= FileOf(s.logs, l.file).synced
  }

  /** finishMove deletes the rows on a line that is complete but was never synced. */
  ghost predicate UnsyncedDelete(s: State, step: Step) {
    step.Delete? && s.mover.Found? && s.mover.mark.offset + s.mover.length > FileOf(s.logs, s.mover.mark.file).synced
  }

  lemma CutLogs(c: Codec, s: State, kept: map<nat, nat>)
    requires Good(c) && LogsWellFormed(c, s.logs) && Enabled(c, s, PowerLoss(kept))
    ensures LogsWellFormed(c, Cut(s.logs, kept))
  {
    forall f | f in s.logs
      ensures Archive.Lines(c, Cut(s.logs, kept)[f].bytes)
    {
      CutLines(c, s.logs[f].bytes, kept[f]);
    }
  }

  /** A cut takes slots away and brings no other record to any offset. */
  lemma CutSlots(c: Codec, logs: map<nat, Log>, kept: map<nat, nat>)
    requires Good(c) && LogsWellFormed(c, logs)
    requires kept.Keys == logs.Keys && forall f :: f in logs ==> kept[f] <= |logs[f].bytes|
    ensures SlotsChange(c, logs, Cut(logs, kept), 0, 0, None)
  {
    forall f: nat, p: nat
      ensures
        SlotAt(c, Cut(logs, kept), f, p) == SlotAt(c, logs, f, p) || SlotAt(c, Cut(logs, kept), f, p) == None
    {
      CutContents(logs, kept, f);
      CutSlot(c, logs, f, |Contents(Cut(logs, kept), f)|, p);
    }
  }

  lemma CutSlot(c: Codec, logs: map<nat, Log>, f: nat, n: nat, p: nat)
    requires Good(c) && LogsWellFormed(c, logs) && n <= |Contents(logs, f)|
    ensures
      var b := Contents(logs, f);
      p <= n && c.dec(Segment(b[..n], p)) != None ==> Segment(b[..n], p) == Segment(b, p)
  {
    var b := Contents(logs, f);
    if p <= n {
      CutEnd(b, n, p);
      FileLines(c, logs, f);
      if c.dec(Segment(b, p)[..LineEnd(b[..n], p) - p]) != None {
        StretchDecodes(c, Segment(b, p), LineEnd(b[..n], p) - p);
      }
    }
  }

  lemma CutLine(b: Bytes, n: nat, p: nat)
    requires n <= |b|
    ensures LineAt(b[..n], p) == if p <= |b| && LineEnd(b, p) < n then LineAt(b, p) else None
  {
    if p <= n {
      CutEnd(b, n, p);
      assert b[..n][p..LineEnd(b[..n], p)] == b[p..LineEnd(b[..n], p)];
    }
  }

  lemma CutContents(logs: map<nat, Log>, kept: map<nat, nat>, file: nat)
    requires kept.Keys == logs.Keys && forall f :: f in logs ==> kept[f] <= |logs[f].bytes|
    ensures
      var n := |Contents(Cut(logs, kept), file)|;
      n <= |Contents(logs, file)| && Contents(Cut(logs, kept), file) == Contents(logs, file)[..n]
  {
  }

  /** A line that was there is gone after a power failure if and only if it is among the lost. */
  lemma LostIffGone(c: Codec, s: State, kept: map<nat, nat>, exact: bool, r: nat)
    requires LocatorsGood(c, s, exact) && r in s.locators && r !in s.lost && Enabled(c, s, PowerLoss(kept))
    ensures r in s.last
    ensures
      var t := Next(c, s, PowerLoss(kept));
      GoodLocator(c, t.logs, exact, s.locators[r], s.last[r]) <==> r !in t.lost
  {
    var l := s.locators[r];
    assert LocatorFits(c, s, exact, r);
    CutContents(s.logs, kept, l.file);
    CutLine(Contents(s.logs, l.file), |Contents(Cut(s.logs, kept), l.file)|, l.offset);
  }

  lemma LostFits(c: Codec, logs: map<nat, Log>, logs': map<nat, Log>, exact: bool, l: Locator, last: Record)
    requires GoodLocator(c, logs, exact, l, last) || LostLocator(c, logs, exact, l, last)
    requires SlotsChange(c, logs, logs', 0, 0, None)
    ensures LostLocator(c, logs', exact, l, last)
  {
    assert SlotAt(c, logs', l.file, l.offset) == SlotAt(c, logs, l.file, l.offset)
        || SlotAt(c, logs', l.file, l.offset) == None;
  }

  lemma CutLocators(c: Codec, s: State, kept: map<nat, nat>, exact: bool)
    requires LocatorsGood(c, s, exact) && Enabled(c, s, PowerLoss(kept))
    requires SlotsChange(c, s.logs, Cut(s.logs, kept), 0, 0, None)
    ensures LocatorsGood(c, Next(c, s, PowerLoss(kept)), exact)
  {
    var t := Next(c, s, PowerLoss(kept));
    forall r | r in t.locators
      ensures LocatorFits(c, t, exact, r)
    {
      assert LocatorFits(c, s, exact, r);
      if r in t.lost {
        LostFits(c, s.logs, t.logs, exact, s.locators[r], s.last[r]);
      } else {
        LostIffGone(c, s, kept, exact, r);
      }
    }
  }

  lemma PowerLossKeeps(c: Codec, s: State, kept: map<nat, nat>, exact: bool)
    requires Good(c) && Inv(c, s, exact) && Enabled(c, s, PowerLoss(kept))
    ensures Inv(c, Next(c, s, PowerLoss(kept)), exact)
  {
    RowsFrame(s, Next(c, s, PowerLoss(kept)), exact);
    CutLogs(c, s, kept);
    CutSlots(c, s.logs, kept);
    SlotsMarks(c, s, Cut(s.logs, kept), exact);
    CutLocators(c, s, kept, exact);
  }

  lemma DurableLosesNone(c: Codec, s: State, kept: map<nat, nat>)
    requires Durable(s) && Enabled(c, s, PowerLoss(kept))
    ensures Next(c, s, PowerLoss(kept)).lost == s.lost
  {
    forall r | r in CutOff(s, kept)
      ensures r in s.lost
    {
      if r !in s.lost {
        DurableStays(s, kept, s.locators[r]);
      }
    }
  }

  lemma DurableStays(s: State, kept: map<nat, nat>, l: Locator)
    requires kept.Keys == s.logs.Keys
    requires forall f :: f in s.logs ==> s.logs[f].synced <= kept[f] <= |s.logs[f].bytes|
    requires LocatorDurable(s, l)
    ensures Ends(l) <= |Contents(Cut(s.logs, kept), l.file)|
  {
  }

  /** A power failure can take a deep-archived item if and only if some line that is still there
      reaches past the synced bytes of its log. */
  lemma PowerLossIsSafeIff(c: Codec, s: State)
    requires LogsWellFormed(c, s.logs)
    ensures Durable(s) <==>
            forall kept :: Enabled(c, s, PowerLoss(kept)) ==> Next(c, s, PowerLoss(kept)).lost == s.lost
  {
    if Durable(s) {
      forall kept | Enabled(c, s, PowerLoss(kept))
        ensures Next(c, s, PowerLoss(kept)).lost == s.lost
      {
        DurableLosesNone(c, s, kept);
      }
    } else {
      var kept, r := UnluckyCut(c, s);
    }
  }

  /** A power failure that keeps no more than the synced bytes takes a line that is not durable. */
  lemma UnluckyCut(c: Codec, s: State) returns (kept: map<nat, nat>, r: nat)
    requires LogsWellFormed(c, s.logs) && !Durable(s)
    ensures Enabled(c, s, PowerLoss(kept)) && r !in s.lost && r in Next(c, s, PowerLoss(kept)).lost
  {
    r :| r in s.locators && r !in s.lost && !LocatorDurable(s, s.locators[r]);
    kept := SyncedOnly(c, s);
    CutToSynced(s.logs, kept, s.locators[r].file);
  }

  lemma SyncedOnly(c: Codec, s: State) returns (kept: map<nat, nat>)
    requires LogsWellFormed(c, s.logs)
    ensures kept.Keys == s.logs.Keys && forall f :: f in s.logs ==> kept[f] == s.logs[f].synced <= |s.logs[f].bytes|
    ensures Enabled(c, s, PowerLoss(kept))
  {
    kept := map f | f in s.logs :: s.logs[f].synced;
  }

  lemma CutToSynced(logs: map<nat, Log>, kept: map<nat, nat>, file: nat)
    requires kept.Keys == logs.Keys && forall f :: f in logs ==> kept[f] == logs[f].synced <= |logs[f].bytes|
    ensures |Contents(Cut(logs, kept), file)| == FileOf(logs, file).synced
  {
  }

  lemma NotGood(c: Codec, s: State, exact: bool, reference: nat)
    requires reference in s.locators && reference in s.last && reference !in s.lost
    requires !GoodLocator(c, s.logs, exact, s.locators[reference], s.last[reference])
    ensures !LocatorsGood(c, s, exact)
  {
    assert !LocatorFits(c, s, exact, reference);
  }

  // Steps and runs

  lemma MoverStepKeeps(c: Codec, s: State, step: Step, exact: bool)
    requires Good(c) && Inv(c, s, exact) && Enabled(c, s, step)
    requires step.Check? || step.ReadMarked? || step.ReadRows? || step.Stop?
    ensures Inv(c, Next(c, s, step), exact)
  {
    var t := Next(c, s, step);
    RowsFrame(s, t, exact);
    LocatorsFrame(c, s, t, exact);
    if step.ReadMarked? {
      ReadMarkedFits(c, s, step.id, exact);
    } else if step.ReadRows? && s.mover.id in s.rows {
      ReadRowsFits(c, s, exact);
    }
  }

  lemma ReadMarkedFits(c: Codec, s: State, id: nat, exact: bool)
    requires id in s.rows && s.rows[id].mark.Some?
    ensures MoverAtRows(s.rows, exact, ReadMarkedLine(c, s, id)) && MoverAtLog(c, s.logs, ReadMarkedLine(c, s, id))
    ensures !ReadMarkedLine(c, s, id).Appending?
  {
  }

  lemma ReadRowsFits(c: Codec, s: State, exact: bool)
    requires RowsWellFormed(s, exact) && MoverAtLog(c, s.logs, s.mover) && s.mover.Marked? && s.mover.id in s.rows
    ensures
      var m := Appending(s.rows[s.mover.id].record, s.mover.file, s.mover.offset, 0);
      && MoverAtRows(s.rows, exact, m) && MoverAtLog(c, s.logs, m) && m.record.reference !in s.locators
  {
    var m := s.mover;
    var r := s.rows[m.id].record;
    assert GoodRow(s, exact, m.id, s.rows[m.id]);
    assert c.enc(r)[..0] == [];
    assert Contents(s.logs, m.file)[m.offset..] == [];
  }

  /** Without exact lines every step is admissible; with them, a mark while a delivery waits is not. */
  ghost predicate Admissible(s: State, step: Step, exact: bool) {
    exact ==> !Hasty(s, step)
  }

  lemma StepKeeps(c: Codec, s: State, step: Step, exact: bool)
    requires Good(c) && Inv(c, s, exact) && Enabled(c, s, step) && Admissible(s, step, exact)
    ensures Inv(c, Next(c, s, step), exact)
  {
    match step
    case OpenLog(file) => OpenKeeps(c, s, file, exact);
    case SetMark => SetMarkKeeps(c, s, exact);
    case WriteByte => WriteKeeps(c, s, exact);
    case Sync => SyncKeeps(c, s, exact);
    case Delete => DeleteKeeps(c, s, exact);
    case PowerLoss(kept) => PowerLossKeeps(c, s, kept, exact);
    case Check(_) => MoverStepKeeps(c, s, step, exact);
    case ReadMarked(_) => MoverStepKeeps(c, s, step, exact);
    case ReadRows => MoverStepKeeps(c, s, step, exact);
    case Stop => MoverStepKeeps(c, s, step, exact);
    case _ => RequestKeeps(c, s, step, exact);
  }

  ghost predicate Runs(c: Codec, s: State, steps: seq<Step>, exact: bool)
    decreases |steps|
  {
    steps == [] ||
    (Enabled(c, s, steps[0]) && Admissible(s, steps[0], exact) && Runs(c, Next(c, s, steps[0]), steps[1..], exact))
  }

  ghost function After(c: Codec, s: State, steps: seq<Step>, exact: bool): State
    requires Runs(c, s, steps, exact)
    decreases |steps|
  {
    if steps == [] then s else After(c, Next(c, s, steps[0]), steps[1..], exact)
  }

  lemma RunCons(c: Codec, s: State, step: Step, rest: seq<Step>, exact: bool)
    requires Enabled(c, s, step) && Admissible(s, step, exact) && Runs(c, Next(c, s, step), rest, exact)
    ensures Runs(c, s, [step] + rest, exact)
    ensures After(c, s, [step] + rest, exact) == After(c, Next(c, s, step), rest, exact)
  {
    assert ([step] + rest)[1..] == rest;
  }

  const EMPTY := State(map[], map[], 1, map[], Idle, map[], {})

  lemma {:induction false} RunKeeps(c: Codec, s: State, steps: seq<Step>, exact: bool)
    requires Good(c) && Inv(c, s, exact) && Runs(c, s, steps, exact)
    ensures Inv(c, After(c, s, steps, exact), exact)
    decreases |steps|
  {
    if steps != [] {
      StepKeeps(c, s, steps[0], exact);
      RunKeeps(c, Next(c, s, steps[0]), steps[1..], exact);
    }
  }

  /** A reference is in exactly one place: one row with what it last was, or one locator. The
      locator names a complete line that is the encoding of what it last was, unless a power failure
      cut that line; then a restore is refused or gives back that record and no other. */
  ghost predicate OnePlace(c: Codec, s: State, exact: bool, reference: nat) {
    if reference in s.locators then
      && !RowOf(s, reference) && reference in s.last
      && var l := s.locators[reference];
      && (reference !in s.lost ==> OnLine(c, s, exact, l, s.last[reference]))
      && (RecordAt(c, s.logs, l, reference).Some? ==> OnLine(c, s, exact, l, s.last[reference]))
    else if reference in s.last then
      && (exists id :: id in s.rows && s.rows[id].record == s.last[reference])
      && (forall i, j ::
            i in s.rows && j in s.rows && s.rows[i].record.reference == reference == s.rows[j].record.reference ==>
              i == j)
    else !RowOf(s, reference)
  }

  ghost predicate OnLine(c: Codec, s: State, exact: bool, l: Locator, last: Record) {
    exists r :: l.length == |c.enc(r)| + 1 && Same(exact, r, last)
             && LineAt(Contents(s.logs, l.file), l.offset) == Some(c.enc(r))
  }

  lemma LocatorOnLine(c: Codec, s: State, exact: bool, reference: nat)
    requires Good(c) && LogsWellFormed(c, s.logs) && LocatorsGood(c, s, exact) && reference in s.locators
    requires RecordAt(c, s.logs, s.locators[reference], reference).Some?
    ensures reference in s.last && OnLine(c, s, exact, s.locators[reference], s.last[reference])
  {
    var l := s.locators[reference];
    FoundIsLast(c, s, reference, exact);
    FileLines(c, s.logs, l.file);
    var line := LineAt(Contents(s.logs, l.file), l.offset).value;
    assert line[..|line|] == line;
    StretchDecodes(c, line, |line|);
  }

  lemma InvOnePlace(c: Codec, s: State, exact: bool, reference: nat)
    requires Good(c) && Inv(c, s, exact)
    ensures OnePlace(c, s, exact, reference)
  {
    forall i | i in s.rows
      ensures s.rows[i].record.reference !in s.locators && s.rows[i].record.reference in s.last
      ensures s.last[s.rows[i].record.reference] == s.rows[i].record && s.rows[i].record.id == i
    {
      assert GoodRow(s, exact, i, s.rows[i]);
    }
    if reference in s.locators {
      FoundIsLast(c, s, reference, exact);
      if RecordAt(c, s.logs, s.locators[reference], reference).Some? {
        LocatorOnLine(c, s, exact, reference);
      }
    } else if reference in s.last {
      assert GoodLast(s, reference);
    }
  }

  /** In every run, with a stop, a crash or a power failure between any two steps, every item ever
      created is in exactly one place. */
  lemma AlwaysInOnePlace(c: Codec, steps: seq<Step>, exact: bool, reference: nat)
    requires Good(c) && Runs(c, EMPTY, steps, exact)
    ensures OnePlace(c, After(c, EMPTY, steps, exact), exact, reference)
  {
    RunKeeps(c, EMPTY, steps, exact);
    InvOnePlace(c, After(c, EMPTY, steps, exact), exact, reference);
  }

  /** More bytes or more synced bytes of a log, or fewer locators, keep the rest durable. */
  lemma DurableFrame(s: State, t: State)
    requires Durable(s)
    requires forall r :: r in t.locators && r !in t.lost ==>
               r in s.locators && r !in s.lost && t.locators[r] == s.locators[r]
    requires forall f :: FileOf(t.logs, f).synced >= FileOf(s.logs, f).synced
    ensures Durable(t)
  {
    forall r | r in t.locators && r !in t.lost
      ensures LocatorDurable(t, t.locators[r])
    {
      assert LocatorDurable(s, s.locators[r]);
    }
  }

  lemma DeletedDurable(s: State, id: nat, reference: nat, revision: nat, locator: Locator)
    requires Durable(s) && (DeleteMoved(s, id, reference, revision, locator) != s ==> reference !in s.lost)
    ensures
      var t := DeleteMoved(s, id, reference, revision, locator);
      Durable(t) <==> (t.rows == s.rows || LocatorDurable(s, locator))
  {
    var t := DeleteMoved(s, id, reference, revision, locator);
    if t.rows == s.rows {
      assert id in s.rows ==> id in t.rows;
      assert t == s;
    } else {
      assert reference in t.locators && t.locators[reference] == locator;
      forall r | r in t.locators && r !in t.lost && r != reference
        ensures LocatorDurable(t, t.locators[r])
      {
        assert LocatorDurable(s, s.locators[r]);
      }
      assert LocatorDurable(t, locator) <==> LocatorDurable(s, locator);
    }
  }

  /** A step makes a locator that is not durable exactly when it deletes rows on an unsynced line. */
  lemma StepKeepsDurable(c: Codec, s: State, step: Step, exact: bool)
    requires Good(c) && Inv(c, s, exact) && Durable(s) && Enabled(c, s, step)
    ensures Durable(Next(c, s, step)) <==> !(UnsyncedDelete(s, step) && Next(c, s, step).rows != s.rows)
  {
    if step.Delete? {
      match s.mover
      case Found(id, reference, m, length) =>
        assert GoodRow(s, exact, id, s.rows[id]);
        DeletedDurable(s, id, reference, m.revision, Locator(m.file, m.offset, length));
      case Synced(r, file, offset) =>
        if r.id in s.rows {
          assert GoodRow(s, exact, r.id, s.rows[r.id]);
        }
        DeletedDurable(s, r.id, r.reference, r.revision, Locator(file, offset, |Line(c, r)|));
    } else {
      OtherStepsDurable(c, s, step, exact);
    }
  }

  lemma OtherStepsDurable(c: Codec, s: State, step: Step, exact: bool)
    requires LogsWellFormed(c, s.logs) && Durable(s) && Enabled(c, s, step) && !step.Delete?
    ensures Durable(Next(c, s, step))
  {
    DurableFrame(s, Next(c, s, step));
  }

  /** The record of a deep-archived item comes back whole: restore never refuses it. */
  lemma RestoreGivesBack(c: Codec, s: State, exact: bool, reference: nat, now: int)
    requires Good(c) && Inv(c, s, exact) && reference in s.locators && reference !in s.lost
    ensures
      var t := Next(c, s, Restore(reference, now));
      var id := s.last[reference].id;
      && reference !in t.locators && id in t.rows && t.rows[id].status == Archived && t.rows[id].mark == None
      && t.rows[id].archivedAt == now
      && Same(exact, t.rows[id].record, s.last[reference])
      && t.rows == s.rows[id := t.rows[id]] && t.logs == s.logs
  {
    MovedIdIsFree(s, reference, exact);
    FoundIsLast(c, s, reference, exact);
  }

  // The two conditions

  /** A run that may lose power at any time, but never deletes rows on an unsynced line. */
  ghost predicate SyncedRun(c: Codec, s: State, steps: seq<Step>, exact: bool)
    decreases |steps|
  {
    steps == [] ||
    (&& Enabled(c, s, steps[0]) && !UnsyncedDelete(s, steps[0]) && (exact ==> !Hasty(s, steps[0]))
     && SyncedRun(c, Next(c, s, steps[0]), steps[1..], exact))
  }

  lemma StepLosesNone(c: Codec, s: State, step: Step)
    requires Durable(s) && Enabled(c, s, step)
    ensures Next(c, s, step).lost <= s.lost
  {
    if step.PowerLoss? {
      DurableLosesNone(c, s, step.kept);
    }
  }

  /** Such a run loses nothing to the power failures in it. */
  lemma {:induction false} SyncedRunsAreSafe(c: Codec, s: State, steps: seq<Step>, exact: bool)
    requires Good(c) && Inv(c, s, exact) && Durable(s) && SyncedRun(c, s, steps, exact)
    ensures Runs(c, s, steps, exact) && Durable(After(c, s, steps, exact)) && After(c, s, steps, exact).lost <= s.lost
    decreases |steps|
  {
    if steps != [] {
      StepKeeps(c, s, steps[0], exact);
      StepKeepsDurable(c, s, steps[0], exact);
      StepLosesNone(c, s, steps[0]);
      SyncedRunsAreSafe(c, Next(c, s, steps[0]), steps[1..], exact);
    }
  }

  /** The rest of a move that nothing disturbs, from the append on. */
  function Appends(n: nat): seq<Step> {
    if n == 0 then [Sync, Delete] else [WriteByte] + Appends(n - 1)
  }

  /** The log with the rest of the line. */
  function WrittenOut(c: Codec, s: State): State
    requires s.mover.Appending? && s.mover.written <= |Line(c, s.mover.record)|
  {
    var m := s.mover;
    var line, log := Line(c, m.record), FileOf(s.logs, m.file);
    s.(logs := s.logs[m.file := log.(bytes := log.bytes + line[m.written..])], mover := m.(written := |line|))
  }

  lemma NothingLeft(c: Codec, s: State)
    requires s.mover.Appending? && s.mover.written == |Line(c, s.mover.record)| && s.mover.file in s.logs
    ensures WrittenOut(c, s) == s
  {
    var b := FileOf(s.logs, s.mover.file).bytes;
    assert b + Line(c, s.mover.record)[s.mover.written..] == b;
    assert WrittenOut(c, s).logs == s.logs;
  }

  lemma WriteThenRest(c: Codec, s: State)
    requires s.mover.Appending? && s.mover.written < |Line(c, s.mover.record)|
    ensures WrittenOut(c, Write(c, s)) == WrittenOut(c, s)
  {
    var line, n := Line(c, s.mover.record), s.mover.written;
    var b := FileOf(s.logs, s.mover.file).bytes;
    assert b + line[n..] == b + [line[n]] + line[n + 1..];
    assert WrittenOut(c, Write(c, s)).logs == WrittenOut(c, s).logs;
  }

  lemma {:induction false} AppendsAre(c: Codec, s: State, left: nat, exact: bool)
    requires s.mover.Appending? && s.mover.written + left == |Line(c, s.mover.record)| && s.mover.file in s.logs
    ensures Runs(c, s, Appends(left), exact)
    ensures After(c, s, Appends(left), exact) == Finished(c, s)
    decreases left
  {
    if left == 0 {
      NothingLeft(c, s);
      RunCons(c, SyncStep(s), Delete, [], exact);
      RunCons(c, s, Sync, [Delete], exact);
    } else {
      var t := Write(c, s);
      AppendsAre(c, t, left - 1, exact);
      RunCons(c, s, WriteByte, Appends(left - 1), exact);
      WriteThenRest(c, s);
    }
  }

  /** The mover is about to write the line of a row that is still marked for it. */
  ghost predicate MoverWrites(c: Codec, s: State, r: Record, file: nat, offset: nat) {
    && s.mover.Appending? && s.mover.record == r && s.mover.file == file && s.mover.offset == offset
    && s.mover.written <= |Line(c, r)|
    && r.id in s.rows && s.rows[r.id].status == Archived && s.rows[r.id].record.revision == r.revision
    && s.rows[r.id].mark == Some(Mark(r.revision, file, offset))
  }

  function Finished(c: Codec, s: State): State
    requires s.mover.Appending? && s.mover.written <= |Line(c, s.mover.record)|
  {
    DeleteStep(c, SyncStep(WrittenOut(c, s)))
  }

  /** It ends with a locator of the record that the mover read, and without its rows. */
  lemma AppendsMove(c: Codec, s: State, r: Record, file: nat, offset: nat, exact: bool)
    requires Good(c) && Inv(c, s, exact) && MoverWrites(c, s, r, file, offset)
    ensures
      var t := Finished(c, s);
      && t.last == s.last && t.rows == s.rows - {r.id}
      && t.locators == s.locators[r.reference := Locator(file, offset, |Line(c, r)|)]
      && LineAt(Contents(t.logs, file), offset) == Some(c.enc(r))
  {
    WholeAfter(c, s, exact);
    assert Contents(Finished(c, s).logs, file) == Contents(WrittenOut(c, s).logs, file);
  }

  lemma {:induction false} WholeAfter(c: Codec, s: State, exact: bool)
    requires Good(c) && Inv(c, s, exact) && s.mover.Appending?
    requires s.mover.written <= |Line(c, s.mover.record)|
    ensures WholeLine(c, Contents(WrittenOut(c, s).logs, s.mover.file), s.mover.offset, s.mover.record)
    decreases |Line(c, s.mover.record)| - s.mover.written
  {
    if s.mover.written == |Line(c, s.mover.record)| {
      NothingLeft(c, s);
    } else {
      WriteKeeps(c, s, exact);
      WholeAfter(c, Write(c, s), exact);
      WriteThenRest(c, s);
    }
  }

  /** A crash between the last byte and the sync: the next pass finds the line and deletes the rows
      on it, and a power failure can then take both. */
  lemma UnsyncedDeleteHappens(c: Codec, s: State, r: Record, file: nat, offset: nat)
    requires Good(c) && Inv(c, s, false) && MoverWrites(c, s, r, file, offset) && s.mover.written == |Line(c, r)|
    requires FileOf(s.logs, file).synced < |Contents(s.logs, file)|
    ensures
      var steps := [Stop, ReadMarked(r.id), Delete];
      && Runs(c, s, steps, true) && r.reference in After(c, s, steps, true).locators
      && !Durable(After(c, s, steps, true))
  {
    var t := Next(c, s, Stop);
    var u := Next(c, t, ReadMarked(r.id));
    assert GoodRow(s, false, r.id, s.rows[r.id]);
    assert LineAt(Contents(t.logs, file), offset) == Some(c.enc(r));
    assert u.mover == Found(r.id, s.rows[r.id].record.reference, Mark(r.revision, file, offset), |c.enc(r)| + 1);
    var v := Next(c, u, Delete);
    RunCons(c, u, Delete, [], true);
    RunCons(c, t, ReadMarked(r.id), [Delete], true);
    RunCons(c, s, Stop, [ReadMarked(r.id), Delete], true);
    assert !LocatorDurable(v, v.locators[r.reference]);
  }

  /** The writes of a line's bytes, up to but not with the sync. */
  function Writes(n: nat): seq<Step> {
    if n == 0 then [] else [WriteByte] + Writes(n - 1)
  }

  lemma {:induction false} WritesAre(c: Codec, s: State, left: nat, exact: bool)
    requires s.mover.Appending? && s.mover.written + left == |Line(c, s.mover.record)| && s.mover.file in s.logs
    ensures Runs(c, s, Writes(left), exact) && After(c, s, Writes(left), exact) == WrittenOut(c, s)
    decreases left
  {
    if left == 0 {
      NothingLeft(c, s);
    } else {
      WritesAre(c, Write(c, s), left - 1, exact);
      RunCons(c, s, WriteByte, Writes(left - 1), exact);
      WriteThenRest(c, s);
    }
  }

  lemma {:induction false} RunsOn(c: Codec, s: State, first: seq<Step>, more: seq<Step>, exact: bool)
    requires Runs(c, s, first, exact) && Runs(c, After(c, s, first, exact), more, exact)
    ensures Runs(c, s, first + more, exact)
    ensures After(c, s, first + more, exact) == After(c, After(c, s, first, exact), more, exact)
    decreases |first|
  {
    if first == [] {
      assert first + more == more;
    } else {
      RunsOn(c, Next(c, s, first[0]), first[1..], more, exact);
      assert (first + more)[1..] == first[1..] + more;
    }
  }

  const ARCHIVED := Record(1, 1, 1, 0, 0)

  /** From the empty archive to a mover that is about to append a line to a log that was never synced. */
  lemma AboutToAppend(c: Codec) returns (steps: seq<Step>)
    ensures Runs(c, EMPTY, steps, true)
    ensures
      var s := After(c, EMPTY, steps, true);
      MoverWrites(c, s, ARCHIVED, 0, 0) && s.mover.written == 0 && s.logs == map[0 := Log([], 0)] && s.lost == {}
  {
    var s1 := Next(c, EMPTY, Create(1, 0));
    var s2 := Next(c, s1, Verdict(1, Archived, 0, 0, 0));
    var s3 := Next(c, s2, Check(1));
    var s4 := Next(c, s3, OpenLog(0));
    var s5 := Next(c, s4, SetMark);
    RunCons(c, s5, ReadRows, [], true);
    RunCons(c, s4, SetMark, [ReadRows], true);
    RunCons(c, s3, OpenLog(0), [SetMark] + [ReadRows], true);
    RunCons(c, s2, Check(1), [OpenLog(0)] + ([SetMark] + [ReadRows]), true);
    steps := [Check(1)] + ([OpenLog(0)] + ([SetMark] + [ReadRows]));
    RunCons(c, s1, Verdict(1, Archived, 0, 0, 0), steps, true);
    RunCons(c, EMPTY, Create(1, 0), [Verdict(1, Archived, 0, 0, 0)] + steps, true);
    steps := [Create(1, 0)] + ([Verdict(1, Archived, 0, 0, 0)] + steps);
  }

  lemma OneStep(c: Codec, s: State, step: Step, exact: bool)
    requires Enabled(c, s, step) && Admissible(s, step, exact)
    ensures Runs(c, s, [step], exact) && After(c, s, [step], exact) == Next(c, s, step)
  {
    RunCons(c, s, step, [], exact);
    assert [step] + [] == [step];
  }

  /** The line is written and not synced. */
  lemma AppendedUnsynced(c: Codec) returns (steps: seq<Step>)
    requires Good(c)
    ensures Runs(c, EMPTY, steps, true)
    ensures
      var s := After(c, EMPTY, steps, true);
      MoverWrites(c, s, ARCHIVED, 0, 0) && s.mover.written == |Line(c, ARCHIVED)|
      && FileOf(s.logs, 0).synced < |Contents(s.logs, 0)|
  {
    var first := AboutToAppend(c);
    var s, n := After(c, EMPTY, first, true), |Line(c, ARCHIVED)|;
    WritesAre(c, s, n, true);
    RunsOn(c, EMPTY, first, Writes(n), true);
    steps := first + Writes(n);
  }

  lemma DeletedUnsynced(c: Codec) returns (steps: seq<Step>)
    requires Good(c)
    ensures Runs(c, EMPTY, steps, true) && !Durable(After(c, EMPTY, steps, true))
  {
    var first := AppendedUnsynced(c);
    var s := After(c, EMPTY, first, true);
    RunKeeps(c, EMPTY, first, true);
    Weaker(c, s);
    UnsyncedDeleteHappens(c, s, ARCHIVED, 0, 0);
    RunsOn(c, EMPTY, first, [Stop, ReadMarked(1), Delete], true);
    steps := first + [Stop, ReadMarked(1), Delete];
  }

  /** So there is a run from the empty archive that loses an item: a stop between the last byte and
      the sync, a pass that deletes the rows on the line that it finds, and a power failure. */
  lemma ItemIsLost(c: Codec) returns (steps: seq<Step>)
    requires Good(c)
    ensures Runs(c, EMPTY, steps, true) && After(c, EMPTY, steps, true).lost != {}
  {
    var first := DeletedUnsynced(c);
    var s := After(c, EMPTY, first, true);
    RunKeeps(c, EMPTY, first, true);
    var kept, r := UnluckyCut(c, s);
    OneStep(c, s, PowerLoss(kept), true);
    RunsOn(c, EMPTY, first, [PowerLoss(kept)], true);
    steps := first + [PowerLoss(kept)];
  }

  /** After a mark that was set while a delivery waits, an acknowledgement can be lost: the rows
      are deleted with it, and the line does not have it. */
  lemma AcknowledgementLost(c: Codec, s: State) returns (steps: seq<Step>)
    requires Good(c) && Inv(c, s, false) && s.mover.Marked?
    requires s.mover.id in s.rows && s.rows[s.mover.id].record.queued > 0
    requires
      s.rows[s.mover.id].mark == Some(Mark(s.rows[s.mover.id].record.revision, s.mover.file, s.mover.offset))
    ensures Runs(c, s, steps, true) && !LocatorsGood(c, After(c, s, steps, true), true)
  {
    var id := s.mover.id;
    var r := s.rows[id].record;
    var rest := Appends(|Line(c, r)|);
    var t := Next(c, s, ReadRows);
    StepKeeps(c, s, ReadRows, false);
    StaleLine(c, t, id, r);
    RunCons(c, t, Acknowledge(id), rest, true);
    RunCons(c, s, ReadRows, [Acknowledge(id)] + rest, true);
    steps := [ReadRows] + ([Acknowledge(id)] + rest);
  }

  /** The acknowledgement falls between the read of the rows and their delete. */
  lemma StaleLine(c: Codec, s: State, id: nat, r: Record)
    requires Good(c) && Inv(c, s, false) && s.mover.Appending? && s.mover.written == 0 && s.mover.record == r
    requires id in s.rows && s.rows[id].record == r && r.queued > 0
    requires s.rows[id].mark == Some(Mark(r.revision, s.mover.file, s.mover.offset))
    ensures
      var t := Next(c, s, Acknowledge(id));
      && Runs(c, t, Appends(|Line(c, r)|), true)
      && !LocatorsGood(c, After(c, t, Appends(|Line(c, r)|), true), true)
  {
    assert GoodRow(s, false, id, s.rows[id]);
    var t := Next(c, s, Acknowledge(id));
    var file, offset := s.mover.file, s.mover.offset;
    StepKeeps(c, s, Acknowledge(id), false);
    AppendsAre(c, t, |Line(c, r)|, true);
    StaleEnd(c, t, r, file, offset);
  }

  lemma StaleEnd(c: Codec, s: State, r: Record, file: nat, offset: nat)
    requires Good(c) && Inv(c, s, false) && MoverWrites(c, s, r, file, offset)
    requires r.reference in s.last && s.last[r.reference] != r && s.last[r.reference].reference == r.reference
    ensures !LocatorsGood(c, Finished(c, s), true)
  {
    AppendsMove(c, s, r, file, offset, false);
    NotGood(c, Finished(c, s), true, r.reference);
  }

  /** A mark is followed by exact lines only, however the run goes on, exactly when no delivery
      waits at the mark. */
  lemma MarkIsExactIff(c: Codec, s: State)
    requires Good(c) && Inv(c, s, true) && s.mover.Opened? && MarkRow(s, s.mover).Some?
    ensures s.rows[s.mover.id].record.queued == 0 <==>
            forall steps :: Runs(c, Next(c, s, SetMark), steps, true) ==>
              LocatorsGood(c, After(c, Next(c, s, SetMark), steps, true), true)
  {
    var t := Next(c, s, SetMark);
    var item := s.rows[s.mover.id];
    assert GoodRow(s, true, s.mover.id, item);
    if item.record.queued == 0 {
      StepKeeps(c, s, SetMark, true);
      forall steps | Runs(c, t, steps, true)
        ensures LocatorsGood(c, After(c, t, steps, true), true)
      {
        RunKeeps(c, t, steps, true);
      }
    } else {
      Weaker(c, s);
      StepKeeps(c, s, SetMark, false);
      var steps := AcknowledgementLost(c, t);
    }
  }

  lemma Weaker(c: Codec, s: State)
    requires Inv(c, s, true)
    ensures Inv(c, s, false)
  {
    forall i | i in s.rows
      ensures GoodRow(s, false, i, s.rows[i]) && GoodMark(c, s.logs, false, s.rows[i])
    {
      assert GoodRow(s, true, i, s.rows[i]) && GoodMark(c, s.logs, true, s.rows[i]);
    }
    forall r | r in s.locators
      ensures LocatorFits(c, s, false, r)
    {
      assert LocatorFits(c, s, true, r);
    }
  }

  /** The check before a move saw no waiting delivery: an edit and a verdict between it and the
      mark bring one. */
  lemma HastyAfterCheck(c: Codec, s: State, id: nat, file: nat)
    requires s.mover == Checked(id) && id in s.rows && s.rows[id].status == Archived && s.rows[id].record.id == id
    ensures
      var steps := [Edit(id, 0)] + ([Verdict(id, Archived, 0, 1, 0)] + [OpenLog(file)]);
      Runs(c, s, steps, true) && Hasty(After(c, s, steps, true), SetMark)
  {
    var t := Next(c, s, Edit(id, 0));
    var u := Next(c, t, Verdict(id, Archived, 0, 1, 0));
    RunCons(c, u, OpenLog(file), [], true);
    RunCons(c, t, Verdict(id, Archived, 0, 1, 0), [OpenLog(file)], true);
    RunCons(c, s, Edit(id, 0), [Verdict(id, Archived, 0, 1, 0)] + [OpenLog(file)], true);
  }

  /** So a mark with a waiting delivery is reachable. */
  lemma HastyMarkIsReachable(c: Codec) returns (steps: seq<Step>)
    ensures Runs(c, EMPTY, steps, true) && Hasty(After(c, EMPTY, steps, true), SetMark)
  {
    var s := Next(c, EMPTY, Create(1, 0));
    var t := Next(c, s, Verdict(1, Archived, 0, 0, 0));
    HastyAfterCheck(c, Next(c, t, Check(1)), 1, 0);
    var rest := [Edit(1, 0)] + ([Verdict(1, Archived, 0, 1, 0)] + [OpenLog(0)]);
    RunCons(c, t, Check(1), rest, true);
    RunCons(c, s, Verdict(1, Archived, 0, 0, 0), [Check(1)] + rest, true);
    RunCons(c, EMPTY, Create(1, 0), [Verdict(1, Archived, 0, 0, 0)] + ([Check(1)] + rest), true);
    steps := [Create(1, 0)] + ([Verdict(1, Archived, 0, 0, 0)] + ([Check(1)] + rest));
  }
}
