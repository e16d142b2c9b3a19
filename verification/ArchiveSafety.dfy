/** Every step of the deep archive keeps each item in exactly one place. */
module ArchiveSafety {
  import opened Bytes
  import opened Options
  import opened Archive
  import opened ArchiveMoves

  // Requests

  /** A new row, or a new version of one: either without a mark, or with the mark that it had and
      a record that the same lines stand for. */
  ghost predicate RowChange(s: State, item: Item, nextId: nat, exact: bool) {
    var id, reference := item.record.id, item.record.reference;
    && reference !in s.locators && s.nextId <= nextId && id < nextId
    && (id in s.rows ==> reference == s.rows[id].record.reference)
    && (id !in s.rows ==> forall r :: r in s.last ==> (s.last[r].id == id <==> r == reference))
    && (item.mark.Some? ==>
          && id in s.rows && s.rows[id].mark == item.mark && item.status == Archived
          && item.record.revision == s.rows[id].record.revision && (exact ==> item.record.queued == 0)
          && forall r :: Same(exact, r, s.rows[id].record) ==> Same(exact, r, item.record))
  }

  lemma RowChangeRows(s: State, item: Item, nextId: nat, exact: bool)
    requires RowsWellFormed(s, exact) && RowChange(s, item, nextId, exact)
    ensures RowsWellFormed(WithRow(s, item).(nextId := nextId), exact)
  {
    var t := WithRow(s, item).(nextId := nextId);
    var id, reference := item.record.id, item.record.reference;
    forall i | i in t.rows
      ensures GoodRow(t, exact, i, t.rows[i])
    {
      if i != id {
        assert GoodRow(s, exact, i, s.rows[i]);
        RowNotOther(s, exact, i, item);
      }
    }
    forall r | r in t.last
      ensures GoodLast(t, r)
    {
      if r != reference {
        assert GoodLast(s, r);
        LastNotOther(s, exact, r, item);
      }
    }
    forall r, q | r in t.last && q in t.last && r != q
      ensures t.last[r].id != t.last[q].id
    {
      if r != reference {
        LastNotOther(s, exact, r, item);
      }
      if q != reference {
        LastNotOther(s, exact, q, item);
      }
    }
  }

  /** A change of one row leaves the other rows alone. */
  lemma RowNotOther(s: State, exact: bool, i: nat, item: Item)
    requires RowsWellFormed(s, exact) && i in s.rows && i != item.record.id
    requires item.record.id in s.rows ==> item.record.reference == s.rows[item.record.id].record.reference
    requires item.record.id !in s.rows ==> forall r :: r in s.last ==>
               (s.last[r].id == item.record.id <==> r == item.record.reference)
    ensures s.rows[i].record.reference != item.record.reference
  {
    assert GoodRow(s, exact, i, s.rows[i]);
    if item.record.id in s.rows {
      assert GoodRow(s, exact, item.record.id, s.rows[item.record.id]);
    }
  }

  lemma LastNotOther(s: State, exact: bool, r: nat, item: Item)
    requires RowsWellFormed(s, exact) && r in s.last && r != item.record.reference
    requires item.record.id in s.rows ==> item.record.reference == s.rows[item.record.id].record.reference
    requires item.record.id !in s.rows ==> forall r :: r in s.last ==>
               (s.last[r].id == item.record.id <==> r == item.record.reference)
    ensures s.last[r].id != item.record.id
  {
    if item.record.id in s.rows {
      assert GoodRow(s, exact, item.record.id, s.rows[item.record.id]);
    }
  }

  lemma RowChangeLocators(c: Codec, s: State, item: Item, exact: bool)
    requires LocatorsGood(c, s, exact) && item.record.reference !in s.locators
    ensures LocatorsGood(c, WithRow(s, item), exact)
  {
    forall r | r in s.locators
      ensures LocatorFits(c, WithRow(s, item), exact, r)
    {
      assert LocatorFits(c, s, exact, r);
    }
  }

  lemma RowChangeMarks(c: Codec, s: State, item: Item, nextId: nat, exact: bool)
    requires RowsWellFormed(s, exact) && MarksGood(c, s, exact) && RowChange(s, item, nextId, exact)
    ensures MarksGood(c, WithRow(s, item), exact)
  {
    var id := item.record.id;
    if id in s.rows {
      assert GoodRow(s, exact, id, s.rows[id]);
      assert GoodMark(c, s.logs, exact, s.rows[id]);
    }
    assert GoodMark(c, s.logs, exact, item);
  }

  lemma RowChangeMover(s: State, item: Item, nextId: nat, exact: bool)
    requires MoverAtRows(s.rows, exact, s.mover) && RowChange(s, item, nextId, exact)
    ensures MoverAtRows(WithRow(s, item).rows, exact, s.mover)
  {
  }

  lemma RowChangeKeeps(c: Codec, s: State, item: Item, nextId: nat, exact: bool)
    requires Inv(c, s, exact) && RowChange(s, item, nextId, exact)
    ensures Inv(c, WithRow(s, item).(nextId := nextId), exact)
  {
    RowChangeRows(s, item, nextId, exact);
    RowChangeLocators(c, s, item, exact);
    RowChangeMarks(c, s, item, nextId, exact);
    RowChangeMover(s, item, nextId, exact);
  }

  /** The next ID is free. */
  lemma NextIdIsFree(s: State, exact: bool)
    requires RowsWellFormed(s, exact)
    ensures s.nextId !in s.rows && forall r :: r in s.last ==> s.last[r].id < s.nextId
  {
    forall r | r in s.last
      ensures s.last[r].id < s.nextId
    {
      assert GoodLast(s, r);
    }
    forall i | i in s.rows
      ensures i != s.nextId
    {
      assert GoodRow(s, exact, i, s.rows[i]);
    }
  }

  /** A reference in neither place was never there. */
  lemma NewReference(s: State, reference: nat, exact: bool)
    requires RowsWellFormed(s, exact) && !RowOf(s, reference) && reference !in s.locators
    ensures reference !in s.last
  {
    forall r | r in s.last && r !in s.locators
      ensures RowOf(s, r)
    {
      assert GoodLast(s, r);
    }
  }

  lemma CreateKeeps(c: Codec, s: State, reference: nat, body: int, exact: bool)
    requires Inv(c, s, exact) && !RowOf(s, reference) && reference !in s.locators
    ensures Inv(c, CreateRow(s, reference, body), exact)
  {
    NextIdIsFree(s, exact);
    NewReference(s, reference, exact);
    RowChangeKeeps(c, s, Item(Record(s.nextId, reference, 1, body, 0), Active, None, 0), s.nextId + 1, exact);
  }

  /** An edit, a verdict, a close, a withdrawal or an acknowledgement of a row. */
  lemma ChangeKeeps(c: Codec, s: State, id: nat, item: Item, exact: bool)
    requires Inv(c, s, exact) && id in s.rows
    requires item.record.id == s.rows[id].record.id && item.record.reference == s.rows[id].record.reference
    requires
      || item.mark == None
      || (item.mark == s.rows[id].mark && s.rows[id].status != Archived)
      || (s.rows[id].record.queued > 0 && item == AcknowledgeRow(s.rows[id]))
    ensures Inv(c, WithRow(s, item), exact)
  {
    assert GoodRow(s, exact, id, s.rows[id]);
    assert GoodLast(s, item.record.reference);
    RowChangeKeeps(c, s, item, s.nextId, exact);
  }

  lemma RestoreRows(s: State, reference: nat, r: Record, now: int, exact: bool)
    requires RowsWellFormed(s, exact) && reference in s.locators && Same(exact, r, s.last[reference]) && r.id !in s.rows
    ensures
      RowsWellFormed(WithRow(s, Item(r, Archived, None, now)).(locators := s.locators - {reference},
                                                               lost := s.lost - {reference}), exact)
  {
    var item := Item(r, Archived, None, now);
    var t := WithRow(s, item).(locators := s.locators - {reference}, lost := s.lost - {reference});
    assert GoodLast(s, reference);
    forall i | i in t.rows
      ensures GoodRow(t, exact, i, t.rows[i])
    {
      if i != r.id {
        assert GoodRow(s, exact, i, s.rows[i]);
      }
    }
    forall q | q in t.last
      ensures GoodLast(t, q)
    {
      assert GoodLast(s, q);
    }
    assert forall q :: q in s.last ==> t.last[q].id == s.last[q].id;
  }

  /** A deep-archived item's ID is free. */
  lemma MovedIdIsFree(s: State, reference: nat, exact: bool)
    requires RowsWellFormed(s, exact) && reference in s.locators
    ensures s.last[reference].id !in s.rows
  {
    forall i | i in s.rows
      ensures i != s.last[reference].id
    {
      assert GoodRow(s, exact, i, s.rows[i]);
    }
  }

  /** What a restore finds at a locator, whole or cut, is what the rows last were. */
  lemma FoundIsLast(c: Codec, s: State, reference: nat, exact: bool)
    requires LocatorsGood(c, s, exact) && reference in s.locators
    ensures reference in s.last && s.last[reference].reference == reference
    ensures
      var r := RecordAt(c, s.logs, s.locators[reference], reference);
      && (r.Some? ==> Same(exact, r.value, s.last[reference]))
      && (reference !in s.lost ==> r.Some?)
  {
    assert LocatorFits(c, s, exact, reference);
  }

  lemma RestoreKeeps(c: Codec, s: State, reference: nat, now: int, exact: bool)
    requires Inv(c, s, exact)
    ensures Inv(c, RestoreRow(c, s, reference, now), exact)
  {
    if reference in s.locators {
      var r := RecordAt(c, s.logs, s.locators[reference], reference);
      FoundIsLast(c, s, reference, exact);
      if r.Some? {
        MovedIdIsFree(s, reference, exact);
        RestoreRows(s, reference, r.value, now, exact);
        RestoreRest(c, s, Item(r.value, Archived, None, now), exact);
      }
    }
  }

  lemma RestoreRest(c: Codec, s: State, item: Item, exact: bool)
    requires Inv(c, s, exact) && item.mark == None && item.record.id !in s.rows
    ensures
      var r := item.record.reference;
      var t := WithRow(s, item).(locators := s.locators - {r}, lost := s.lost - {r});
      LocatorsGood(c, t, exact) && MarksGood(c, t, exact) && MoverAtRows(t.rows, exact, s.mover)
  {
    var r := item.record.reference;
    var t := WithRow(s, item).(locators := s.locators - {r}, lost := s.lost - {r});
    forall q | q in t.locators
      ensures LocatorFits(c, t, exact, q)
    {
      assert LocatorFits(c, s, exact, q);
    }
  }

  lemma RequestKeeps(c: Codec, s: State, step: Step, exact: bool)
    requires Good(c) && Inv(c, s, exact) && Enabled(c, s, step)
    requires step.Create? || step.Edit? || step.Verdict? || step.Retire? || step.Acknowledge? || step.Restore?
    ensures Inv(c, Next(c, s, step), exact)
  {
    match step
    case Create(reference, body) => CreateKeeps(c, s, reference, body, exact);
    case Restore(reference, now) => RestoreKeeps(c, s, reference, now, exact);
    case Edit(id, body) => ChangeKeeps(c, s, id, EditRow(s.rows[id], body), exact);
    case Verdict(id, status, body, deliveries, now) =>
      ChangeKeeps(c, s, id, VerdictRow(s.rows[id], status, body, deliveries, now), exact);
    case Retire(id, body, now) => ChangeKeeps(c, s, id, RetireRow(s.rows[id], body, now), exact);
    case Acknowledge(id) => ChangeKeeps(c, s, id, AcknowledgeRow(s.rows[id]), exact);
  }

  // Logs

  /** At every offset a change of a log leaves what decodes there, takes it away, or brings the new
      record at its own offset. */
  ghost predicate SlotsChange(c: Codec, logs: map<nat, Log>, logs': map<nat, Log>, file: nat, offset: nat,
                              added: Option<Record>) {
    forall f: nat, p: nat ::
      var slot := SlotAt(c, logs', f, p);
      slot == SlotAt(c, logs, f, p) || slot == None || (slot == added && f == file && p == offset)
  }

  /** A log that keeps its complete lines. */
  ghost predicate LogChange(c: Codec, s: State, file: nat, log: Log) {
    var b := Contents(s.logs, file);
    && Archive.Lines(c, log.bytes) && log.synced <= |log.bytes|
    && (forall p: nat :: p <= |b| && LineEnd(b, p) < |b| ==> LineAt(log.bytes, p) == LineAt(b, p))
  }

  lemma RowsFrame(s: State, t: State, exact: bool)
    requires RowsWellFormed(s, exact)
    requires t.rows == s.rows && t.locators == s.locators && t.last == s.last && t.nextId == s.nextId
    ensures RowsWellFormed(t, exact)
  {
    forall i | i in t.rows
      ensures GoodRow(t, exact, i, t.rows[i])
    {
      assert GoodRow(s, exact, i, s.rows[i]);
    }
    forall r | r in t.last
      ensures GoodLast(t, r)
    {
      assert GoodLast(s, r);
    }
  }

  lemma SlotsMarks(c: Codec, s: State, logs: map<nat, Log>, exact: bool)
    requires MarksGood(c, s, exact) && SlotsChange(c, s.logs, logs, 0, 0, None)
    ensures MarksGood(c, s.(logs := logs), exact)
  {
    forall id | id in s.rows
      ensures GoodMark(c, logs, exact, s.rows[id])
    {
      assert GoodMark(c, s.logs, exact, s.rows[id]);
    }
  }

  lemma LogChangeLocators(c: Codec, s: State, file: nat, log: Log, offset: nat, added: Option<Record>, exact: bool)
    requires LocatorsGood(c, s, exact) && LogChange(c, s, file, log)
    requires SlotsChange(c, s.logs, s.logs[file := log], file, offset, added)
    requires added.Some? ==> added.value.reference !in s.locators
    ensures LocatorsGood(c, s.(logs := s.logs[file := log]), exact)
  {
    var t := s.(logs := s.logs[file := log]);
    forall r | r in s.locators
      ensures LocatorFits(c, t, exact, r)
    {
      assert LocatorFits(c, s, exact, r);
      var l := s.locators[r];
      assert SlotAt(c, t.logs, l.file, l.offset) == SlotAt(c, s.logs, l.file, l.offset)
          || SlotAt(c, t.logs, l.file, l.offset) == None || SlotAt(c, t.logs, l.file, l.offset) == added;
    }
  }

  lemma LogChangeKeeps(c: Codec, s: State, file: nat, log: Log, offset: nat, added: Option<Record>, m: Mover,
                       exact: bool)
    requires Inv(c, s, exact) && LogChange(c, s, file, log)
    requires SlotsChange(c, s.logs, s.logs[file := log], file, offset, added)
    requires added.Some? ==> added.value.reference !in s.locators
    requires MarksGood(c, s.(logs := s.logs[file := log]), exact)
    requires MoverAtRows(s.rows, exact, m) && MoverAtLog(c, s.logs[file := log], m)
    requires m.Appending? ==> m.record.reference !in s.locators
    ensures Inv(c, s.(logs := s.logs[file := log], mover := m), exact)
  {
    var t := s.(logs := s.logs[file := log], mover := m);
    RowsFrame(s, t, exact);
    LogChangeLocators(c, s, file, log, offset, added, exact);
    LocatorsFrame(c, s.(logs := s.logs[file := log]), t, exact);
  }

  lemma LocatorsFrame(c: Codec, s: State, t: State, exact: bool)
    requires LocatorsGood(c, s, exact)
    requires t.locators == s.locators && t.last == s.last && t.lost == s.lost && t.logs == s.logs
    ensures LocatorsGood(c, t, exact)
  {
    forall r | r in t.locators
      ensures LocatorFits(c, t, exact, r)
    {
      assert LocatorFits(c, s, exact, r);
    }
  }

  lemma OpeningChange(c: Codec, s: State, file: nat)
    requires Good(c) && LogsWellFormed(c, s.logs)
    ensures LogChange(c, s, file, Opening(FileOf(s.logs, file)))
    ensures SlotsChange(c, s.logs, s.logs[file := Opening(FileOf(s.logs, file))], 0, 0, None)
  {
    var was := FileOf(s.logs, file);
    var log := Opening(was);
    FileLines(c, s.logs, file);
    if log == was {
      SlotsFrame(c, s.logs, s.logs[file := log]);
    } else {
      NewlineLines(c, was.bytes);
      SlotsAfterNewline(c, s.logs, file);
      forall p: nat | p <= |was.bytes| && LineEnd(was.bytes, p) < |was.bytes|
        ensures LineAt(log.bytes, p) == LineAt(was.bytes, p)
      {
        NewlineKeeps(was.bytes, p);
      }
    }
  }

  /** An open log ends at a line's start; only a torn line is closed, and nothing is synced by it. */
  lemma OpenClosesTornOnly(log: Log)
    ensures AtLineStart(Opening(log).bytes, |Opening(log).bytes|) && Opening(log).synced == log.synced
    ensures Opening(log) == log <==> AtLineStart(log.bytes, |log.bytes|)
    ensures log.bytes <= Opening(log).bytes && |Opening(log).bytes| <= |log.bytes| + 1
  {
  }

  lemma OpenKeeps(c: Codec, s: State, file: nat, exact: bool)
    requires Good(c) && Inv(c, s, exact)
    requires s.mover.Checked? || (s.mover.Unfinished? && s.mover.mark.file == file)
    ensures Inv(c, Open(s, file), exact)
  {
    var log := Opening(FileOf(s.logs, file));
    OpeningChange(c, s, file);
    SlotsMarks(c, s, s.logs[file := log], exact);
    LogChangeKeeps(c, s, file, log, 0, None, Open(s, file).mover, exact);
  }

  lemma FileLines(c: Codec, logs: map<nat, Log>, file: nat)
    requires Good(c) && LogsWellFormed(c, logs)
    ensures Archive.Lines(c, Contents(logs, file)) && FileOf(logs, file).synced <= |Contents(logs, file)|
  {
    Empty(c);
  }

  /** The same bytes have the same slots. */
  lemma SlotsFrame(c: Codec, logs: map<nat, Log>, logs': map<nat, Log>)
    requires forall f :: Contents(logs', f) == Contents(logs, f)
    ensures SlotsChange(c, logs, logs', 0, 0, None)
  {
  }

  lemma SlotsAfterNewline(c: Codec, logs: map<nat, Log>, file: nat)
    requires Good(c)
    ensures
      var was := FileOf(logs, file);
      SlotsChange(c, logs, logs[file := was.(bytes := was.bytes + [NEWLINE])], 0, 0, None)
  {
    var was := FileOf(logs, file);
    var b := was.bytes;
    var logs' := logs[file := was.(bytes := b + [NEWLINE])];
    forall f: nat, p: nat
      ensures SlotAt(c, logs', f, p) == SlotAt(c, logs, f, p) || SlotAt(c, logs', f, p) == None
    {
      if f == file && p <= |b| {
        NewlineKeeps(b, p);
      } else if f == file && p == |b| + 1 {
        Empty(c);
        assert Segment(b + [NEWLINE], p) == [];
      }
    }
  }

  /** One byte of a record's line: nothing but the line itself can come to decode. */
  lemma WriteChange(c: Codec, s: State)
    requires Good(c) && LogsWellFormed(c, s.logs) && MoverAtLog(c, s.logs, s.mover)
    requires s.mover.Appending? && s.mover.written < |Line(c, s.mover.record)|
    ensures LogChange(c, s, s.mover.file, FileOf(Write(c, s).logs, s.mover.file))
    ensures SlotsChange(c, s.logs, Write(c, s).logs, s.mover.file, s.mover.offset, Some(s.mover.record))
  {
    var m, b := s.mover, Contents(s.logs, s.mover.file);
    var byte := Line(c, m.record)[m.written];
    FileLines(c, s.logs, m.file);
    if m.written < |c.enc(m.record)| {
      assert byte == c.enc(m.record)[m.written];
      TailLines(c, b, m.offset, m.record, m.written);
      SlotsAfterByte(c, s);
    } else {
      assert byte == NEWLINE;
      NewlineLines(c, b);
      SlotsAfterNewline(c, s.logs, m.file);
    }
    forall p: nat | p <= |b| && LineEnd(b, p) < |b|
      ensures LineAt(b + [byte], p) == LineAt(b, p)
    {
      AppendKeeps(b, [byte], p);
    }
  }

  lemma WriteMoves(c: Codec, s: State)
    requires Good(c) && MoverAtLog(c, s.logs, s.mover) && s.mover.Appending?
    requires s.mover.written < |Line(c, s.mover.record)|
    ensures MoverAtLog(c, Write(c, s).logs, Write(c, s).mover)
  {
    if s.mover.written < |c.enc(s.mover.record)| {
      TailGrows(c, Contents(s.logs, s.mover.file), s.mover.offset, s.mover.record, s.mover.written);
    } else {
      LastByte(c, Contents(s.logs, s.mover.file), s.mover.offset, s.mover.record);
    }
  }

  /** The newline makes the line whole. */
  lemma LastByte(c: Codec, b: Bytes, offset: nat, r: Record)
    requires Good(c) && Tail(c, b, offset, r, |c.enc(r)|)
    ensures WholeLine(c, b + [NEWLINE], offset, r)
  {
    TailSegment(c, b, offset, r, |c.enc(r)|, offset);
    NewlineKeeps(b, offset);
    assert c.enc(r)[0..|c.enc(r)|] == c.enc(r);
  }

  /** A line that comes to stand at a mark is of the record that was read for it. */
  lemma WriteMarks(c: Codec, s: State, exact: bool)
    requires MarksGood(c, s, exact) && RowsWellFormed(s, exact) && MoverAtRows(s.rows, exact, s.mover)
    requires s.mover.Appending? && s.mover.written < |Line(c, s.mover.record)|
    requires SlotsChange(c, s.logs, Write(c, s).logs, s.mover.file, s.mover.offset, Some(s.mover.record))
    ensures MarksGood(c, s.(logs := Write(c, s).logs), exact)
  {
    forall id | id in s.rows
      ensures GoodMark(c, Write(c, s).logs, exact, s.rows[id])
    {
      assert GoodMark(c, s.logs, exact, s.rows[id]) && GoodRow(s, exact, id, s.rows[id]);
    }
  }

  lemma WriteKeeps(c: Codec, s: State, exact: bool)
    requires Good(c) && Inv(c, s, exact) && s.mover.Appending? && s.mover.written < |Line(c, s.mover.record)|
    ensures Inv(c, Write(c, s), exact)
  {
    WriteChange(c, s);
    WriteMarks(c, s, exact);
    WriteMoves(c, s);
    LogChangeKeeps(c, s, s.mover.file, FileOf(Write(c, s).logs, s.mover.file), s.mover.offset, Some(s.mover.record),
                   Write(c, s).mover, exact);
  }

  lemma ByteSegment(c: Codec, b: Bytes, at: nat, r: Record, n: nat, p: nat)
    requires Good(c) && Tail(c, b, at, r, n) && n < |c.enc(r)| && p <= |b| + 1
    ensures
      var g := b + [c.enc(r)[n]];
      if p < at then Segment(g, p) == Segment(b, p)
      else c.dec(Segment(g, p)) == if p == at && n + 1 == |c.enc(r)| then Some(r) else None
  {
    var g := b + [c.enc(r)[n]];
    if p < at {
      LineBefore(b, p, at);
      AppendKeeps(b, [c.enc(r)[n]], p);
    } else {
      TailGrows(c, b, at, r, n);
      TailSegment(c, g, at, r, n + 1, p);
      WholeOnly(c, r, p - at, n + 1);
    }
  }

  lemma SlotsAfterByte(c: Codec, s: State)
    requires Good(c) && MoverAtLog(c, s.logs, s.mover)
    requires s.mover.Appending? && s.mover.written < |c.enc(s.mover.record)|
    ensures SlotsChange(c, s.logs, Write(c, s).logs, s.mover.file, s.mover.offset, Some(s.mover.record))
  {
    var m := s.mover;
    var b := Contents(s.logs, m.file);
    forall f: nat, p: nat
      ensures
        var slot := SlotAt(c, Write(c, s).logs, f, p);
        || slot == SlotAt(c, s.logs, f, p) || slot == None
        || (slot == Some(m.record) && f == m.file && p == m.offset)
    {
      if f == m.file && p <= |b| + 1 {
        ByteSegment(c, b, m.offset, m.record, m.written, p);
      }
    }
  }

  lemma WholeOnly(c: Codec, r: Record, i: nat, j: nat)
    requires Good(c) && i <= j <= |c.enc(r)|
    ensures c.dec(c.enc(r)[i..j]) == if i == 0 && j == |c.enc(r)| then Some(r) else None
  {
    assert c.enc(r)[0..|c.enc(r)|] == c.enc(r);
  }

  lemma SyncKeeps(c: Codec, s: State, exact: bool)
    requires Good(c) && Inv(c, s, exact) && s.mover.Appending? && s.mover.written == |Line(c, s.mover.record)|
    ensures Inv(c, SyncStep(s), exact)
  {
    var m := s.mover;
    var log := FileOf(s.logs, m.file).(synced := |Contents(s.logs, m.file)|);
    FileLines(c, s.logs, m.file);
    SlotsFrame(c, s.logs, s.logs[m.file := log]);
    SlotsMarks(c, s, s.logs[m.file := log], exact);
    LogChangeKeeps(c, s, m.file, log, 0, None, Synced(m.record, m.file, m.offset), exact);
  }

  // The mover's transactions

  /** At the mark there is no line yet. */
  lemma NewMarkGood(c: Codec, logs: map<nat, Log>, exact: bool, item: Item)
    requires Good(c) && item.mark.Some? && |Contents(logs, item.mark.value.file)| == item.mark.value.offset
    ensures GoodMark(c, logs, exact, item)
  {
    Empty(c);
    assert Segment(Contents(logs, item.mark.value.file), item.mark.value.offset) == [];
  }

  /** A mark is set while a delivery waits. */
  ghost predicate Hasty(s: State, step: Step) {
    step.SetMark? && s.mover.Opened? && MarkRow(s, s.mover).Some? && s.rows[s.mover.id].record.queued > 0
  }

  lemma SetMarkKeeps(c: Codec, s: State, exact: bool)
    requires Good(c) && Inv(c, s, exact) && s.mover.Opened? && (exact ==> !Hasty(s, SetMark))
    ensures Inv(c, SetMarkStep(s), exact)
  {
    var item, t := MarkRow(s, s.mover), SetMarkStep(s);
    LocatorsFrame(c, s, t, exact);
    if item == None {
      RowsFrame(s, t, exact);
    } else {
      NewMarkGood(c, s.logs, exact, item.value);
      SetMarkRows(s, exact);
    }
  }

  lemma SetMarkRows(s: State, exact: bool)
    requires RowsWellFormed(s, exact) && s.mover.Opened? && (exact ==> !Hasty(s, SetMark))
    requires MarkRow(s, s.mover).Some?
    ensures RowsWellFormed(SetMarkStep(s), exact)
  {
    var t := SetMarkStep(s);
    assert GoodRow(s, exact, s.mover.id, s.rows[s.mover.id]);
    forall i | i in t.rows
      ensures GoodRow(t, exact, i, t.rows[i])
    {
      assert GoodRow(s, exact, i, s.rows[i]);
    }
    forall r | r in t.last
      ensures GoodLast(t, r)
    {
      assert GoodLast(s, r);
    }
  }

  lemma DeleteRows(s: State, id: nat, locator: Locator, exact: bool)
    requires RowsWellFormed(s, exact) && id in s.rows
    ensures
      var reference := s.rows[id].record.reference;
      RowsWellFormed(s.(rows := s.rows - {id}, locators := s.locators[reference := locator]), exact)
  {
    var reference := s.rows[id].record.reference;
    var t := s.(rows := s.rows - {id}, locators := s.locators[reference := locator]);
    assert GoodRow(s, exact, id, s.rows[id]);
    forall i | i in t.rows
      ensures GoodRow(t, exact, i, t.rows[i])
    {
      assert GoodRow(s, exact, i, s.rows[i]);
    }
    forall r | r in t.last
      ensures GoodLast(t, r)
    {
      assert GoodLast(s, r);
    }
  }

  lemma DeleteLocators(c: Codec, s: State, id: nat, locator: Locator, r: Record, exact: bool)
    requires LocatorsGood(c, s, exact) && RowsWellFormed(s, exact) && id in s.rows
    requires Same(exact, r, s.rows[id].record)
    requires RecordAt(c, s.logs, locator, s.rows[id].record.reference) == Some(r)
    ensures
      var reference := s.rows[id].record.reference;
      LocatorsGood(c, s.(rows := s.rows - {id}, locators := s.locators[reference := locator]), exact)
  {
    var reference := s.rows[id].record.reference;
    assert GoodRow(s, exact, id, s.rows[id]);
    assert GoodLocator(c, s.logs, exact, locator, s.last[reference]);
  }

  /** The rows go when their line is there. */
  lemma DeleteMovedKeeps(c: Codec, s: State, id: nat, reference: nat, revision: nat, locator: Locator, r: Record,
                         exact: bool)
    requires Inv(c, s, exact)
    requires
      var t := DeleteMoved(s, id, reference, revision, locator);
      t != s ==>
        && Same(exact, r, s.rows[id].record) && reference == s.rows[id].record.reference
        && RecordAt(c, s.logs, locator, reference) == Some(r)
    ensures Inv(c, DeleteMoved(s, id, reference, revision, locator).(mover := Idle), exact)
  {
    var t := DeleteMoved(s, id, reference, revision, locator);
    if t != s {
      DeleteRows(s, id, locator, exact);
      DeleteLocators(c, s, id, locator, r, exact);
      assert MarksGood(c, t, exact);
    }
    RowsFrame(t, t.(mover := Idle), exact);
  }

  lemma DeleteKeeps(c: Codec, s: State, exact: bool)
    requires Good(c) && Inv(c, s, exact) && (s.mover.Found? || s.mover.Synced?)
    ensures Inv(c, DeleteStep(c, s), exact)
  {
    match s.mover
    case Found(id, reference, m, length) =>
      var b := Contents(s.logs, m.file);
      var line := LineAt(b, m.offset).value;
      FileLines(c, s.logs, m.file);
      assert line[..|line|] == line;
      StretchDecodes(c, line, |line|);
      assert GoodMark(c, s.logs, exact, s.rows[id]) && GoodRow(s, exact, id, s.rows[id]);
      DeleteMovedKeeps(c, s, id, reference, m.revision, Locator(m.file, m.offset, length), c.dec(line).value, exact);
    case Synced(r, file, offset) =>
      DeleteMovedKeeps(c, s, r.id, r.reference, r.revision, Locator(file, offset, |Line(c, r)|), r, exact);
  }
}
