/** The moves of the deep archive as a step system: each database transaction, each byte that
    reaches a log and each sync is one step, and between any two of them another request may
    change the rows, the mover may stop, or the power may fail. */
module ArchiveMoves {
  import opened Bytes
  import opened Options
  import opened Archive

  datatype Status = Active | Returned | InProgress | Archived

  datatype Mark = Mark(revision: nat, file: nat, offset: nat)

  /** archivedAt is when the item was archived, and 0 while it is not. */
  datatype Item = Item(record: Record, status: Status, mark: Option<Mark>, archivedAt: int)

  datatype Locator = Locator(file: nat, offset: nat, length: nat)

  /** A monthly log; the first synced bytes survive a power failure. */
  datatype Log = Log(bytes: Bytes, synced: nat)

  /** Where the one mover is. Checked and Unfinished have read the rows only. */
  datatype Mover =
    | Idle
    | Checked(id: nat)
    | Unfinished(id: nat, mark: Mark)
    | Found(id: nat, reference: nat, mark: Mark, length: nat)
    | Opened(id: nat, again: Option<Mark>, file: nat, offset: nat)
    | Marked(id: nat, file: nat, offset: nat)
    | Appending(record: Record, file: nat, offset: nat, written: nat)
    | Synced(record: Record, file: nat, offset: nat)

  /** The database, the logs and the mover. last and lost are history: what each reference's rows were
      when they were last in the database, and whose line a power failure cut. */
  datatype State = State(rows: map<nat, Item>, locators: map<nat, Locator>, nextId: nat, logs: map<nat, Log>,
                         mover: Mover, last: map<nat, Record>, lost: set<nat>)

  datatype Step =
    | Create(reference: nat, body: int)
    | Edit(id: nat, body: int)
    | Verdict(id: nat, status: Status, body: int, deliveries: nat, now: int)
    | Retire(id: nat, body: int, now: int)
    | Acknowledge(id: nat)
    | Restore(reference: nat, now: int)
    | Check(id: nat)
    | ReadMarked(id: nat)
    | OpenLog(file: nat)
    | SetMark
    | ReadRows
    | WriteByte
    | Sync
    | Delete
    | Stop
    | PowerLoss(kept: map<nat, nat>)

  /** A file that does not exist reads as an empty one. */
  function FileOf(logs: map<nat, Log>, file: nat): Log {
    if file in logs then logs[file] else Log([], 0)
  }

  function Contents(logs: map<nat, Log>, file: nat): Bytes {
    FileOf(logs, file).bytes
  }

  ghost predicate RowOf(s: State, reference: nat) {
    exists id :: id in s.rows && s.rows[id].record.reference == reference
  }

  /** The bytes of a record's line. */
  function Line(c: Codec, r: Record): Bytes {
    c.enc(r) + [NEWLINE]
  }

  function WithRow(s: State, item: Item): State {
    s.(rows := s.rows[item.record.id := item], last := s.last[item.record.reference := item.record])
  }

  // The requests

  function CreateRow(s: State, reference: nat, body: int): State {
    WithRow(s, Item(Record(s.nextId, reference, 1, body, 0), Active, None, 0)).(nextId := s.nextId + 1)
  }

  /** DecisionEdit and reopenWithdrawn: an item that is not active becomes active without a mark. */
  function EditRow(item: Item, body: int): Item {
    Item(item.record.(revision := item.record.revision + 1, body := body), Active,
         if item.status == Active then item.mark else None,
         if item.status == Active then item.archivedAt else 0)
  }

  /** DecisionVerdict: of an active item only, at the same revision; it clears the mark. */
  function VerdictRow(item: Item, status: Status, body: int, deliveries: nat, now: int): Item {
    Item(item.record.(body := body, queued := item.record.queued + deliveries), status, None,
         if status == Archived then now else 0)
  }

  /** DecisionClose and DecisionWithdraw: they leave the mark columns alone. */
  function RetireRow(item: Item, body: int, now: int): Item {
    Item(item.record.(body := body), Archived, item.mark, now)
  }

  function AcknowledgeRow(item: Item): Item
    requires item.record.queued > 0
  {
    item.(record := item.record.(queued := item.record.queued - 1))
  }

  /** The record on the line at a locator, when its length and its reference match. */
  function RecordAt(c: Codec, logs: map<nat, Log>, l: Locator, reference: nat): Option<Record> {
    var line := LineAt(Contents(logs, l.file), l.offset);
    if line == None || |line.value| + 1 != l.length then None else
      var r := c.dec(line.value);
      if r != None && r.value.reference == reference then r else None
  }

  /** DecisionRestore: refused, without a change, unless the line matches its locator. */
  function RestoreRow(c: Codec, s: State, reference: nat, now: int): State {
    var r := if reference in s.locators then RecordAt(c, s.logs, s.locators[reference], reference) else None;
    if r == None || r.value.id in s.rows then s
    else
      WithRow(s, Item(r.value, Archived, None, now)).(locators := s.locators - {reference},
                                                      lost := s.lost - {reference})
  }

  // The mover

  /** finishMove reads the line at the mark: found, or to be written again. */
  function ReadMarkedLine(c: Codec, s: State, id: nat): Mover
    requires id in s.rows && s.rows[id].mark.Some?
  {
    var m := s.rows[id].mark.value;
    var line := LineAt(Contents(s.logs, m.file), m.offset);
    if line == None then Unfinished(id, m) else
      var r := c.dec(line.value);
      if r != None && r.value.id == id && r.value.revision == m.revision
      then Found(id, s.rows[id].record.reference, m, |line.value| + 1)
      else Unfinished(id, m)
  }

  /** openDecisionLog: a torn line gets a newline. */
  function Opening(log: Log): Log {
    if |log.bytes| > 0 && log.bytes[|log.bytes| - 1] != NEWLINE then log.(bytes := log.bytes + [NEWLINE]) else log
  }

  /** The row with its mark at the open log's end, or None when the item changed in between. */
  function MarkRow(s: State, m: Mover): Option<Item>
    requires m.Opened?
  {
    if m.id !in s.rows then None else
      var item := s.rows[m.id];
      match m.again
      case None =>
        if item.status == Archived && item.mark == None
        then Some(item.(mark := Some(Mark(item.record.revision, m.file, m.offset)))) else None
      case Some(was) =>
        if item.mark == Some(was) then Some(item.(mark := Some(was.(offset := m.offset)))) else None
  }

  function SetMarkStep(s: State): State
    requires s.mover.Opened?
  {
    var item := MarkRow(s, s.mover);
    if item == None then s.(mover := Idle)
    else s.(rows := s.rows[s.mover.id := item.value], mover := Marked(s.mover.id, s.mover.file, s.mover.offset))
  }

  /** deleteMoved: only while the item has the marked revision, state and mark. */
  function DeleteMoved(s: State, id: nat, reference: nat, revision: nat, locator: Locator): State {
    if id in s.rows && s.rows[id].status == Archived && s.rows[id].record.revision == revision
       && s.rows[id].mark == Some(Mark(revision, locator.file, locator.offset))
    then s.(rows := s.rows - {id}, locators := s.locators[reference := locator])
    else s
  }

  function DeleteStep(c: Codec, s: State): State
    requires s.mover.Found? || s.mover.Synced?
  {
    match s.mover
    case Found(id, reference, m, length) =>
      DeleteMoved(s, id, reference, m.revision, Locator(m.file, m.offset, length)).(mover := Idle)
    case Synced(r, file, offset) =>
      DeleteMoved(s, r.id, r.reference, r.revision, Locator(file, offset, |Line(c, r)|)).(mover := Idle)
  }

  function Write(c: Codec, s: State): State
    requires s.mover.Appending? && s.mover.written < |Line(c, s.mover.record)|
  {
    var m := s.mover;
    var log := FileOf(s.logs, m.file);
    s.(logs := s.logs[m.file := log.(bytes := log.bytes + [Line(c, m.record)[m.written]])],
       mover := m.(written := m.written + 1))
  }

  function SyncStep(s: State): State
    requires s.mover.Appending?
  {
    var m := s.mover;
    var log := FileOf(s.logs, m.file);
    s.(logs := s.logs[m.file := log.(synced := |log.bytes|)], mover := Synced(m.record, m.file, m.offset))
  }

  function Open(s: State, file: nat): State
    requires s.mover.Checked? || s.mover.Unfinished?
  {
    var log := Opening(FileOf(s.logs, file));
    s.(logs := s.logs[file := log],
       mover := Opened(s.mover.id, if s.mover.Checked? then None else Some(s.mover.mark), file, |log.bytes|))
  }

  ghost predicate Enabled(c: Codec, s: State, step: Step) {
    match step
    case Create(reference, body) => !RowOf(s, reference) && reference !in s.locators
    case Edit(id, body) => id in s.rows
    case Verdict(id, status, body, deliveries, now) => id in s.rows && s.rows[id].status == Active && status != Active
    case Retire(id, body, now) => id in s.rows && s.rows[id].status != Archived
    case Acknowledge(id) => id in s.rows && s.rows[id].record.queued > 0
    case Restore(reference, now) => true
    case Check(id) => s.mover.Idle? && (id in s.rows ==> s.rows[id].record.queued == 0)
    case ReadMarked(id) => s.mover.Idle? && id in s.rows && s.rows[id].mark.Some?
    case OpenLog(file) => s.mover.Checked? || (s.mover.Unfinished? && s.mover.mark.file == file)
    case SetMark => s.mover.Opened?
    case ReadRows => s.mover.Marked?
    case WriteByte => s.mover.Appending? && s.mover.written < |Line(c, s.mover.record)|
    case Sync => s.mover.Appending? && s.mover.written == |Line(c, s.mover.record)|
    case Delete => s.mover.Found? || s.mover.Synced?
    case Stop => true
    case PowerLoss(kept) =>
      && kept.Keys == s.logs.Keys
      && forall f :: f in s.logs ==> s.logs[f].synced <= kept[f] <= |s.logs[f].bytes|
  }

  function Cut(logs: map<nat, Log>, kept: map<nat, nat>): map<nat, Log>
    requires kept.Keys == logs.Keys && forall f :: f in logs ==> kept[f] <= |logs[f].bytes|
  {
    map f | f in logs :: logs[f].(bytes := logs[f].bytes[..kept[f]])
  }

  /** The references whose line does not end within the bytes that a power failure keeps. */
  function CutOff(s: State, kept: map<nat, nat>): set<nat>
    requires kept.Keys == s.logs.Keys && forall f :: f in s.logs ==> kept[f] <= |s.logs[f].bytes|
  {
    set r | r in s.locators && Ends(s.locators[r]) > |Contents(Cut(s.logs, kept), s.locators[r].file)|
  }

  function Ends(l: Locator): nat {
    l.offset + l.length
  }

  function Next(c: Codec, s: State, step: Step): State
    requires Enabled(c, s, step)
  {
    match step
    case Create(reference, body) => CreateRow(s, reference, body)
    case Edit(id, body) => WithRow(s, EditRow(s.rows[id], body))
    case Verdict(id, status, body, deliveries, now) =>
      WithRow(s, VerdictRow(s.rows[id], status, body, deliveries, now))
    case Retire(id, body, now) => WithRow(s, RetireRow(s.rows[id], body, now))
    case Acknowledge(id) => WithRow(s, AcknowledgeRow(s.rows[id]))
    case Restore(reference, now) => RestoreRow(c, s, reference, now)
    case Check(id) => s.(mover := Checked(id))
    case ReadMarked(id) => s.(mover := ReadMarkedLine(c, s, id))
    case OpenLog(file) => Open(s, file)
    case SetMark => SetMarkStep(s)
    case ReadRows =>
      var m := s.mover;
      s.(mover := if m.id in s.rows then Appending(s.rows[m.id].record, m.file, m.offset, 0) else Idle)
    case WriteByte => Write(c, s)
    case Sync => SyncStep(s)
    case Delete => DeleteStep(c, s)
    case Stop => s.(mover := Idle)
    case PowerLoss(kept) => s.(logs := Cut(s.logs, kept), mover := Idle, lost := s.lost + CutOff(s, kept))
  }

  // The invariant

  /** A record on a line is what the rows last were. Unless exact, an acknowledgement may be
      missing from the line. */
  predicate Same(exact: bool, r: Record, rows: Record) {
    if exact then r == rows else r.(queued := 0) == rows.(queued := 0) && r.queued >= rows.queued
  }

  ghost predicate RowsWellFormed(s: State, exact: bool) {
    && (forall id :: id in s.rows ==> GoodRow(s, exact, id, s.rows[id]))
    && (forall r :: r in s.last ==> GoodLast(s, r))
    && (forall r :: r in s.locators ==> r in s.last)
    && (forall r, t :: r in s.last && t in s.last && r != t ==> s.last[r].id != s.last[t].id)
  }

  /** Every reference is in one of its two places. */
  ghost predicate GoodLast(s: State, reference: nat)
    requires reference in s.last
  {
    var r := s.last[reference];
    && r.reference == reference && r.id < s.nextId
    && (reference !in s.locators ==> r.id in s.rows && s.rows[r.id].record == r)
  }

  ghost predicate GoodRow(s: State, exact: bool, id: nat, item: Item) {
    && item.record.id == id
    && item.record.reference !in s.locators
    && item.record.reference in s.last && s.last[item.record.reference] == item.record
    && (item.mark.Some? ==>
          && item.status == Archived && item.mark.value.revision == item.record.revision
          && (exact ==> item.record.queued == 0))
  }

  /** What decodes at an offset, whether or not its line is complete. */
  function SlotAt(c: Codec, logs: map<nat, Log>, file: nat, offset: nat): Option<Record> {
    var b := Contents(logs, file);
    if offset <= |b| then c.dec(Segment(b, offset)) else None
  }

  /** The locator names a complete line, which decodes to what the rows last were. */
  ghost predicate GoodLocator(c: Codec, logs: map<nat, Log>, exact: bool, l: Locator, last: Record) {
    var r := RecordAt(c, logs, l, last.reference);
    r.Some? && Same(exact, r.value, last)
  }

  /** Where a power failure cut a locator's line, no line is another version of the item. */
  ghost predicate LostLocator(c: Codec, logs: map<nat, Log>, exact: bool, l: Locator, last: Record) {
    var r := SlotAt(c, logs, l.file, l.offset);
    r.Some? && r.value.reference == last.reference ==> Same(exact, r.value, last)
  }

  /** No line at the mark is another version of the item. */
  ghost predicate GoodMark(c: Codec, logs: map<nat, Log>, exact: bool, item: Item) {
    item.mark.Some? ==>
      var m := item.mark.value;
      var r := SlotAt(c, logs, m.file, m.offset);
      r.Some? && r.value.id == item.record.id && r.value.revision == m.revision ==> Same(exact, r.value, item.record)
  }

  /** The file ends with a whole line, or is empty. */
  predicate AtLineStart(b: Bytes, offset: nat) {
    |b| == offset && (offset > 0 ==> b[offset - 1] == NEWLINE)
  }

  ghost predicate WholeLine(c: Codec, b: Bytes, offset: nat, r: Record) {
    |b| == offset + |c.enc(r)| + 1 && LineAt(b, offset) == Some(c.enc(r))
  }

  /** What the mover has read of the rows still stands for them, as long as its mark does. */
  ghost predicate MoverAtRows(rows: map<nat, Item>, exact: bool, m: Mover) {
    match m
    case Found(id, reference, mark, length) => id in rows && rows[id].record.reference == reference
    case Appending(r, file, offset, written) => ReadStands(rows, exact, r, file, offset)
    case Synced(r, file, offset) => ReadStands(rows, exact, r, file, offset)
    case _ => true
  }

  ghost predicate ReadStands(rows: map<nat, Item>, exact: bool, r: Record, file: nat, offset: nat) {
    r.id in rows && rows[r.id].mark == Some(Mark(r.revision, file, offset)) ==> Same(exact, r, rows[r.id].record)
  }

  /** What the mover has found or written in the log. */
  ghost predicate MoverAtLog(c: Codec, logs: map<nat, Log>, m: Mover) {
    match m
    case Found(id, reference, mark, length) =>
      var line := LineAt(Contents(logs, mark.file), mark.offset);
      && line.Some? && length == |line.value| + 1
      && var r := c.dec(line.value);
      && r.Some? && r.value.id == id && r.value.revision == mark.revision
    case Opened(id, again, file, offset) =>
      file in logs && AtLineStart(Contents(logs, file), offset) && (again.Some? ==> again.value.file == file)
    case Marked(id, file, offset) => file in logs && AtLineStart(Contents(logs, file), offset)
    case Appending(r, file, offset, written) =>
      file in logs &&
      if written <= |c.enc(r)| then Tail(c, Contents(logs, file), offset, r, written)
      else written == |Line(c, r)| && WholeLine(c, Contents(logs, file), offset, r)
    case Synced(r, file, offset) =>
      WholeLine(c, Contents(logs, file), offset, r) && FileOf(logs, file).synced == |Contents(logs, file)|
    case _ => true
  }

  ghost predicate LogsWellFormed(c: Codec, logs: map<nat, Log>) {
    forall f :: f in logs ==> Archive.Lines(c, logs[f].bytes) && logs[f].synced <= |logs[f].bytes|
  }

  ghost predicate LocatorFits(c: Codec, s: State, exact: bool, r: nat)
    requires r in s.locators
  {
    && r in s.last && s.last[r].reference == r
    && if r in s.lost then LostLocator(c, s.logs, exact, s.locators[r], s.last[r])
       else GoodLocator(c, s.logs, exact, s.locators[r], s.last[r])
  }

  ghost predicate LocatorsGood(c: Codec, s: State, exact: bool) {
    forall r :: r in s.locators ==> LocatorFits(c, s, exact, r)
  }

  ghost predicate MarksGood(c: Codec, s: State, exact: bool) {
    forall id :: id in s.rows ==> GoodMark(c, s.logs, exact, s.rows[id])
  }

  ghost predicate Inv(c: Codec, s: State, exact: bool) {
    && RowsWellFormed(s, exact)
    && LogsWellFormed(c, s.logs)
    && LocatorsGood(c, s, exact)
    && MarksGood(c, s, exact)
    && MoverAtRows(s.rows, exact, s.mover)
    && MoverAtLog(c, s.logs, s.mover)
    && s.lost <= s.locators.Keys
    && (s.mover.Appending? ==> s.mover.record.reference !in s.locators)
  }
}
