/** The archive's own methods (internal/core/decision_archive.go), each run to its end; ArchiveRuns
    has the runs that stop or mix with requests in between. */
module ArchiveStore {
  import opened Bytes
  import opened Options
  import opened Archive
  import opened ArchiveMoves
  import opened ArchiveSafety
  import opened ArchiveRuns

  const ARCHIVE_BATCH := 64
  const ARCHIVE_WINDOW := 256

  /** Thirty days, in milliseconds. */
  const ARCHIVE_AFTER := 2_592_000_000

  /** An item that a pass may move, and the cursor of the passes: by archive time, then by ID. */
  datatype Candidate = Candidate(id: nat, at: int)

  predicate Precedes(a: Candidate, b: Candidate) {
    a.at < b.at || (a.at == b.at && a.id < b.id)
  }

  /** state='archived' AND archived_at<cutoff. */
  predicate Eligible(item: Item, cutoff: int) {
    item.status == Archived && item.archivedAt < cutoff
  }

  /** The answer of the first query: the marked items by ID, up to the batch. */
  ghost predicate MarkedAnswer(rows: map<nat, Item>, marked: seq<nat>) {
    && |marked| <= ARCHIVE_BATCH
    && (forall i :: 0 <= i < |marked| ==> marked[i] in rows && rows[marked[i]].mark.Some?)
    && (forall i, j :: 0 <= i < j < |marked| ==> marked[i] < marked[j])
    && (forall id :: id in rows && rows[id].mark.Some? && id !in marked ==>
          |marked| == ARCHIVE_BATCH && forall i :: 0 <= i < |marked| ==> marked[i] < id)
  }

  /** The answer of the second query: the eligible items after the cursor, oldest first, up to the
      window. */
  ghost predicate FoundAnswer(rows: map<nat, Item>, found: seq<Candidate>, cutoff: int, after: Candidate) {
    && |found| <= ARCHIVE_WINDOW
    && (forall i :: 0 <= i < |found| ==> Selected(rows, found[i], cutoff, after))
    && (forall i, j :: 0 <= i < j < |found| ==> Precedes(found[i], found[j]))
    && (forall k: Candidate :: Selected(rows, k, cutoff, after) && k !in found ==>
          |found| == ARCHIVE_WINDOW && forall i :: 0 <= i < |found| ==> Precedes(found[i], k))
  }

  ghost predicate Selected(rows: map<nat, Item>, k: Candidate, cutoff: int, after: Candidate) {
    k.id in rows && Eligible(rows[k.id], cutoff) && rows[k.id].archivedAt == k.at && Precedes(after, k)
  }

  /** A move of an item, from the check to the delete, that nothing comes between. */
  function MoveOf(c: Codec, s: State, id: nat, file: nat): State {
    MarkedMove(c, SetMarkStep(Open(s.(mover := Checked(id)), file)))
  }

  /** From the mark on. */
  function MarkedMove(c: Codec, s: State): State {
    if s.mover.Marked? && s.mover.id in s.rows
    then Finished(c, s.(mover := Appending(s.rows[s.mover.id].record, s.mover.file, s.mover.offset, 0)))
    else s.(mover := Idle)
  }

  /** What finishMove does with an item that a crash left marked. */
  function FinishOf(c: Codec, s: State, id: nat): State {
    if id !in s.rows || s.rows[id].mark == None then s.(mover := Idle) else
      var read := s.(mover := ReadMarkedLine(c, s, id));
      if read.mover.Found? then DeleteStep(c, read)
      else MarkedMove(c, SetMarkStep(Open(read, read.mover.mark.file)))
  }

  lemma FinishedKeeps(c: Codec, s: State, exact: bool)
    requires Good(c) && Inv(c, s, exact) && s.mover.Appending? && s.mover.written <= |Line(c, s.mover.record)|
    ensures Inv(c, Finished(c, s), exact)
  {
    AppendsAre(c, s, |Line(c, s.mover.record)| - s.mover.written, exact);
    RunKeeps(c, s, Appends(|Line(c, s.mover.record)| - s.mover.written), exact);
  }

  lemma MarkedMoveKeeps(c: Codec, s: State, exact: bool)
    requires Good(c) && Inv(c, s, exact)
    ensures Inv(c, MarkedMove(c, s), exact)
  {
    if s.mover.Marked? && s.mover.id in s.rows {
      MoverStepKeeps(c, s, ReadRows, exact);
      FinishedKeeps(c, Next(c, s, ReadRows), exact);
    } else {
      MoverStepKeeps(c, s, Stop, exact);
    }
  }

  /** A marked row goes, and its locator names the line that holds it. */
  lemma MarkedMoveMoves(c: Codec, s: State, exact: bool)
    requires Good(c) && Inv(c, s, exact) && s.mover.Marked? && s.mover.id in s.rows
    requires
      s.rows[s.mover.id].mark == Some(Mark(s.rows[s.mover.id].record.revision, s.mover.file, s.mover.offset))
    ensures
      var t, r := MarkedMove(c, s), s.rows[s.mover.id].record;
      && t.rows == s.rows - {s.mover.id} && t.last == s.last
      && t.locators == s.locators[r.reference := Locator(s.mover.file, s.mover.offset, |c.enc(r)| + 1)]
      && LineAt(Contents(t.logs, s.mover.file), s.mover.offset) == Some(c.enc(r))
  {
    var r := s.rows[s.mover.id].record;
    assert GoodRow(s, exact, s.mover.id, s.rows[s.mover.id]);
    MoverStepKeeps(c, s, ReadRows, exact);
    AppendsMove(c, Next(c, s, ReadRows), r, s.mover.file, s.mover.offset, exact);
  }

  lemma MoveKeeps(c: Codec, s: State, id: nat, file: nat, exact: bool)
    requires Good(c) && Inv(c, s, exact) && s.mover == Idle
    requires exact && id in s.rows ==> s.rows[id].record.queued == 0
    ensures Inv(c, MoveOf(c, s, id, file), exact)
    ensures Inv(c, SetMarkStep(Open(s.(mover := Checked(id)), file)), exact)
  {
    var checked := s.(mover := Checked(id));
    RowsFrame(s, checked, exact);
    LocatorsFrame(c, s, checked, exact);
    OpenKeeps(c, checked, file, exact);
    SetMarkKeeps(c, Open(checked, file), exact);
    MarkedMoveKeeps(c, SetMarkStep(Open(checked, file)), exact);
  }

  /** An archived item without a mark leaves the rows, and its locator names the line that holds
      them; any other item stays. */
  lemma MoveMoves(c: Codec, s: State, id: nat, file: nat, exact: bool)
    requires Good(c) && Inv(c, s, exact) && s.mover == Idle
    requires exact && id in s.rows ==> s.rows[id].record.queued == 0
    ensures
      var t := MoveOf(c, s, id, file);
      if id in s.rows && s.rows[id].status == Archived && s.rows[id].mark == None then
        var r := s.rows[id].record;
        && t.rows == s.rows - {id} && r.reference in t.locators
        && var l := t.locators[r.reference];
        && t.locators == s.locators[r.reference := l] && l.file == file && l.length == |c.enc(r)| + 1
        && LineAt(Contents(t.logs, file), l.offset) == Some(c.enc(r))
      else
        t.rows == s.rows && t.locators == s.locators
  {
    var began := Open(s.(mover := Checked(id)), file);
    MoveKeeps(c, s, id, file, exact);
    SetMarkSets(began);
    if SetMarkStep(began).mover.Marked? {
      MarkedMoveMoves(c, SetMarkStep(began), exact);
    }
  }

  lemma SetMarkSets(s: State)
    requires s.mover.Opened?
    ensures
      var t, m := SetMarkStep(s), s.mover;
      && t.locators == s.locators && t.last == s.last && t.logs == s.logs
      && if MarkRow(s, m) == None then t.mover == Idle && t.rows == s.rows
         else
           && t.mover == Marked(m.id, m.file, m.offset) && m.id in t.rows && t.rows - {m.id} == s.rows - {m.id}
           && t.rows[m.id].record == s.rows[m.id].record && t.rows[m.id].mark.Some?
           && t.rows[m.id].mark.value.file == (if m.again == None then m.file else m.again.value.file)
           && t.rows[m.id].mark.value.offset == m.offset
           && t.rows[m.id].mark.value.revision ==
              (if m.again == None then s.rows[m.id].record.revision else m.again.value.revision)
  {
  }

  lemma FinishKeeps(c: Codec, s: State, id: nat, exact: bool)
    requires Good(c) && Inv(c, s, exact) && s.mover == Idle
    ensures Inv(c, FinishOf(c, s, id), exact)
  {
    if id in s.rows && s.rows[id].mark.Some? {
      var read := s.(mover := ReadMarkedLine(c, s, id));
      MoverStepKeeps(c, s, ReadMarked(id), exact);
      if read.mover.Found? {
        DeleteKeeps(c, read, exact);
      } else {
        RemarkKeeps(c, read, exact);
        MarkedMoveKeeps(c, SetMarkStep(Open(read, read.mover.mark.file)), exact);
      }
    }
  }

  lemma RemarkKeeps(c: Codec, s: State, exact: bool)
    requires Good(c) && Inv(c, s, exact) && s.mover.Unfinished?
    ensures Inv(c, SetMarkStep(Open(s, s.mover.mark.file)), exact)
  {
    var file, t := s.mover.mark.file, Open(s, s.mover.mark.file);
    OpenKeeps(c, s, file, exact);
    if MarkRow(t, t.mover).Some? {
      assert GoodRow(s, exact, s.mover.id, s.rows[s.mover.id]);
    }
    SetMarkKeeps(c, t, exact);
  }

  /** Recovery: whatever a crash left at the mark, the item's move ends. */
  lemma FinishMoves(c: Codec, s: State, id: nat, exact: bool)
    requires Good(c) && Inv(c, s, exact) && s.mover == Idle && id in s.rows && s.rows[id].mark.Some?
    ensures
      var t, r := FinishOf(c, s, id), s.rows[id].record;
      && t.rows == s.rows - {id} && t.last == s.last && r.reference in t.locators
      && t.locators == s.locators[r.reference := t.locators[r.reference]]
  {
    assert GoodRow(s, exact, id, s.rows[id]);
    var read := s.(mover := ReadMarkedLine(c, s, id));
    MoverStepKeeps(c, s, ReadMarked(id), exact);
    if !read.mover.Found? {
      RemarkKeeps(c, read, exact);
      var began := Open(read, read.mover.mark.file);
      SetMarkSets(began);
      MarkedMoveMoves(c, SetMarkStep(began), exact);
    }
  }

  class Store {
    var rows: map<nat, Item>
    var locators: map<nat, Locator>
    var nextId: nat
    var logs: map<nat, Log>
    ghost var last: map<nat, Record>
    ghost var lost: set<nat>
    var afterAt: int
    var afterId: nat

    ghost function At(m: Mover): State
      reads this
    {
      State(rows, locators, nextId, logs, m, last, lost)
    }

    /** openDecisionLog: closes a torn line and gives the offset of the next one. */
    method OpenDecisionLog(file: nat) returns (end: nat)
      modifies this`logs
      ensures logs == old(logs)[file := Opening(FileOf(old(logs), file))] && end == |logs[file].bytes|
    {
      var log := FileOf(logs, file);
      end := |log.bytes|;
      if end > 0 && log.bytes[end - 1] != NEWLINE {
        log := log.(bytes := log.bytes + [NEWLINE]);
        end := end + 1;
      }
      logs := logs[file := log];
    }

    /** readDecisionLine. */
    method ReadDecisionLine(file: nat, offset: nat) returns (line: Option<Bytes>)
      ensures line == LineAt(Contents(logs, file), offset)
    {
      var b := FileOf(logs, file).bytes;
      if offset > |b| {
        return None;
      }
      var end := offset;
      while end < |b| && b[end] != NEWLINE
        invariant offset <= end <= |b|
        invariant forall i :: offset <= i < end ==> b[i] != NEWLINE
      {
        end := end + 1;
      }
      LineEndIs(b, offset, end);
      line := if end < |b| then Some(b[offset..end]) else None;
    }

    /** deleteMoved. */
    method DeleteMovedRows(id: nat, reference: nat, revision: nat, locator: Locator)
      modifies this`rows, this`locators
      ensures forall m :: At(m) == DeleteMoved(old(At(m)), id, reference, revision, locator)
    {
      if id in rows && rows[id].status == Archived && rows[id].record.revision == revision
         && rows[id].mark == Some(Mark(revision, locator.file, locator.offset))
      {
        rows := rows - {id};
        locators := locators[reference := locator];
      }
    }

    /** appendAndDelete: the line, the sync, and the delete. */
    method AppendAndDelete(c: Codec, file: nat, offset: nat, record: Record)
      modifies this`rows, this`locators, this`logs
      ensures At(Idle) == Finished(c, old(At(Appending(record, file, offset, 0))))
    {
      var line := c.enc(record) + [NEWLINE];
      assert line[0..] == line;
      var log := FileOf(logs, file);
      logs := logs[file := log.(bytes := log.bytes + line)];
      logs := logs[file := logs[file].(synced := |logs[file].bytes|)];
      DeleteMovedRows(record.id, record.reference, record.revision, Locator(file, offset, |line|));
    }

    /** moveDecision. */
    method MoveDecision(c: Codec, id: nat, file: nat)
      modifies this`rows, this`locators, this`logs
      ensures At(Idle) == MoveOf(c, old(At(Idle)), id, file)
    {
      var offset := OpenDecisionLog(file);
      if id !in rows || rows[id].status != Archived || rows[id].mark != None {
        return;
      }
      rows := rows[id := rows[id].(mark := Some(Mark(rows[id].record.revision, file, offset)))];
      AppendAndDelete(c, file, offset, rows[id].record);
    }

    /** finishMove. */
    method FinishMove(c: Codec, id: nat)
      modifies this`rows, this`locators, this`logs
      ensures At(Idle) == FinishOf(c, old(At(Idle)), id)
    {
      if id !in rows || rows[id].mark == None {
        return;
      }
      var m, reference := rows[id].mark.value, rows[id].record.reference;
      var line := ReadDecisionLine(m.file, m.offset);
      if line != None {
        var found := c.dec(line.value);
        if found != None && found.value.id == id && found.value.revision == m.revision {
          DeleteMovedRows(id, reference, m.revision, Locator(m.file, m.offset, |line.value| + 1));
          return;
        }
      }
      var offset := OpenDecisionLog(m.file);
      rows := rows[id := rows[id].(mark := Some(m.(offset := offset)))];
      AppendAndDelete(c, m.file, offset, rows[id].record);
    }

    /** DecisionRestore of a deep-archived reference. */
    method DecisionRestore(c: Codec, reference: nat, now: int) returns (restored: bool)
      modifies this`rows, this`locators, this`last, this`lost
      ensures At(Idle) == RestoreRow(c, old(At(Idle)), reference, now)
      ensures restored <==> At(Idle) != old(At(Idle))
    {
      if reference !in locators {
        return false;
      }
      var l := locators[reference];
      var line := ReadDecisionLine(l.file, l.offset);
      if line == None || |line.value| + 1 != l.length {
        return false;
      }
      var r := c.dec(line.value);
      if r == None || r.value.reference != reference || r.value.id in rows {
        return false;
      }
      rows := rows[r.value.id := Item(r.value, Archived, None, now)];
      last, lost := last[reference := r.value], lost - {reference};
      locators := locators - {reference};
      restored := true;
    }

    /** archiveDecisions: one pass. marked is the answer of the first query and found that of the
        second, which runs when the marked moves are finished. The pass finishes the marked moves
        and then walks the candidates. */
    method ArchiveDecisions(c: Codec, marked: seq<nat>, found: seq<Candidate>, now: int, file: nat)
      requires MarkedAnswer(rows, marked)
      requires
        FoundAnswer(FinishAll(c, At(Idle), marked).rows, found, now - ARCHIVE_AFTER, Candidate(afterId, afterAt))
      modifies this
      ensures At(Idle) == PassOf(c, old(At(Idle)), marked, found, file).state
      ensures
        var seen := PassOf(c, old(At(Idle)), marked, found, file).seen;
        if |found| < 256 then afterAt == 0 && afterId == 0
        else afterAt == found[seen - 1].at && afterId == found[seen - 1].id
    {
      FinishMarked(c, marked);
      var seen := MoveCandidates(c, found, file);
      if |found| < ARCHIVE_WINDOW {
        afterAt, afterId := 0, 0;
      }
    }

    method FinishMarked(c: Codec, marked: seq<nat>)
      modifies this`rows, this`locators, this`logs
      ensures At(Idle) == FinishAll(c, old(At(Idle)), marked)
    {
      for i := 0 to |marked|
        invariant FinishAll(c, At(Idle), marked[i..]) == FinishAll(c, old(At(Idle)), marked)
      {
        FinishMove(c, marked[i]);
      }
    }

    /** A candidate that waits for an acknowledgement stays. */
    method MoveCandidate(c: Codec, id: nat, file: nat) returns (moves: bool)
      modifies this`rows, this`locators, this`logs
      ensures At(Idle) == CandidateOf(c, old(At(Idle)), id, file)
      ensures moves <==> !Waits(old(At(Idle)), id)
    {
      moves := id !in rows || rows[id].record.queued == 0;
      if moves {
        MoveDecision(c, id, file);
      }
    }

    /** One step of the walk. */
    method MoveSeen(c: Codec, found: seq<Candidate>, seen: nat, moved: nat, file: nat) returns (more: nat)
      requires seen < |found| && moved < ARCHIVE_BATCH
      modifies this`rows, this`locators, this`logs, this`afterAt, this`afterId
      ensures MoveAll(c, At(Idle), found, seen + 1, more, file) == MoveAll(c, old(At(Idle)), found, seen, moved, file)
      ensures more <= ARCHIVE_BATCH && afterAt == found[seen].at && afterId == found[seen].id
    {
      MoveAllStep(c, At(Idle), found, seen, moved, file);
      afterAt, afterId := found[seen].at, found[seen].id;
      var moves := MoveCandidate(c, found[seen].id, file);
      more := if moves then moved + 1 else moved;
    }

    method MoveCandidates(c: Codec, found: seq<Candidate>, file: nat) returns (seen: nat)
      modifies this`rows, this`locators, this`logs, this`afterAt, this`afterId
      ensures Walk(At(Idle), seen) == MoveAll(c, old(At(Idle)), found, 0, 0, file)
      ensures seen > 0 ==> afterAt == found[seen - 1].at && afterId == found[seen - 1].id
    {
      var moved: nat := 0;
      seen := 0;
      ghost var all := MoveAll(c, At(Idle), found, 0, 0, file);
      while seen < |found| && moved < ARCHIVE_BATCH
        invariant seen <= |found| && moved <= ARCHIVE_BATCH
        invariant MoveAll(c, At(Idle), found, seen, moved, file) == all
        invariant seen > 0 ==> afterAt == found[seen - 1].at && afterId == found[seen - 1].id
      {
        moved := MoveSeen(c, found, seen, moved, file);
        seen := seen + 1;
      }
    }
  }

  function FinishAll(c: Codec, s: State, marked: seq<nat>): State
    decreases |marked|
  {
    if marked == [] then s else FinishAll(c, FinishOf(c, s, marked[0]), marked[1..])
  }

  datatype Walk = Walk(state: State, seen: nat)

  /** The walk over the candidates from one of them on: it passes those that wait for an
      acknowledgement, moves the others, and ends at the batch limit. */
  function MoveAll(c: Codec, s: State, found: seq<Candidate>, seen: nat, moved: nat, file: nat): (w: Walk)
    requires seen <= |found|
    ensures seen <= w.seen <= |found| && (seen < |found| && moved < ARCHIVE_BATCH ==> w.seen > seen)
    decreases |found| - seen
  {
    if seen == |found| || moved >= ARCHIVE_BATCH then Walk(s, seen)
    else
      var id := found[seen].id;
      MoveAll(c, CandidateOf(c, s, id, file), found, seen + 1, if Waits(s, id) then moved else moved + 1, file)
  }

  lemma MoveAllStep(c: Codec, s: State, found: seq<Candidate>, seen: nat, moved: nat, file: nat)
    requires seen < |found| && moved < ARCHIVE_BATCH
    ensures
      var id := found[seen].id;
      MoveAll(c, s, found, seen, moved, file) ==
        MoveAll(c, CandidateOf(c, s, id, file), found, seen + 1, if Waits(s, id) then moved else moved + 1, file)
  {
  }

  /** One candidate of the walk. */
  function CandidateOf(c: Codec, s: State, id: nat, file: nat): State {
    if Waits(s, id) then s else MoveOf(c, s, id, file)
  }

  predicate Waits(s: State, id: nat) {
    id in s.rows && s.rows[id].record.queued > 0
  }

  /** One pass. */
  function PassOf(c: Codec, s: State, marked: seq<nat>, found: seq<Candidate>, file: nat): (w: Walk)
    ensures w.seen <= |found| && (found != [] ==> w.seen > 0)
  {
    MoveAll(c, FinishAll(c, s, marked), found, 0, 0, file)
  }

  /** Some rows are gone, the others as they were. */
  ghost predicate FewerRows(rows: map<nat, Item>, was: map<nat, Item>) {
    forall id :: id in rows ==> id in was && rows[id] == was[id]
  }

  /** A candidate that a pass leaves in the rows. */
  predicate Stays(item: Item) {
    item.record.queued > 0 || item.status != Archived || item.mark != None
  }

  lemma FinishPasses(c: Codec, s: State, id: nat, exact: bool)
    requires Good(c) && Inv(c, s, exact) && s.mover == Idle
    ensures
      var t := FinishOf(c, s, id);
      && Inv(c, t, exact) && t.mover == Idle && FewerRows(t.rows, s.rows)
      && (id in t.rows ==> t.rows[id].mark == None)
  {
    FinishKeeps(c, s, id, exact);
    FinishIsIdle(c, s, id);
    if id in s.rows && s.rows[id].mark.Some? {
      FinishMoves(c, s, id, exact);
    }
  }

  lemma FinishIsIdle(c: Codec, s: State, id: nat)
    ensures FinishOf(c, s, id).mover == Idle
  {
  }

  lemma MoveIsIdle(c: Codec, s: State, id: nat, file: nat)
    ensures MoveOf(c, s, id, file).mover == Idle
  {
  }

  /** Every marked item of a pass is moved, also one whose mark is hasty. */
  lemma {:induction false} FinishAllFinishes(c: Codec, s: State, marked: seq<nat>, exact: bool)
    requires Good(c) && Inv(c, s, exact) && s.mover == Idle
    ensures Inv(c, FinishAll(c, s, marked), exact) && FinishAll(c, s, marked).mover == Idle
    ensures FewerRows(FinishAll(c, s, marked).rows, s.rows)
    ensures NoneMarked(FinishAll(c, s, marked).rows, marked)
    decreases |marked|
  {
    if marked != [] {
      var n := FinishOf(c, s, marked[0]);
      FinishPasses(c, s, marked[0], exact);
      FinishAllFinishes(c, n, marked[1..], exact);
      StillNone(n.rows, FinishAll(c, s, marked).rows, marked);
    }
  }

  ghost predicate NoneMarked(rows: map<nat, Item>, marked: seq<nat>) {
    forall i :: 0 <= i < |marked| && marked[i] in rows ==> rows[marked[i]].mark == None
  }

  lemma StillNone(rows: map<nat, Item>, later: map<nat, Item>, marked: seq<nat>)
    requires marked != [] && FewerRows(later, rows) && NoneMarked(later, marked[1..])
    requires marked[0] in rows ==> rows[marked[0]].mark == None
    ensures NoneMarked(later, marked)
  {
    forall i | 0 <= i < |marked| && marked[i] in later
      ensures later[marked[i]].mark == None
    {
      assert i > 0 ==> marked[1..][i - 1] == marked[i];
    }
  }

  lemma CandidateKeeps(c: Codec, s: State, id: nat, file: nat, exact: bool)
    requires Good(c) && Inv(c, s, exact) && s.mover == Idle
    ensures Inv(c, CandidateOf(c, s, id, file), exact) && CandidateOf(c, s, id, file).mover == Idle
  {
    if !Waits(s, id) {
      MoveKeeps(c, s, id, file, exact);
      MoveIsIdle(c, s, id, file);
    }
  }

  lemma MovePasses(c: Codec, s: State, id: nat, file: nat, exact: bool)
    requires Good(c) && Inv(c, s, exact) && s.mover == Idle
    ensures
      var t := CandidateOf(c, s, id, file);
      && FewerRows(t.rows, s.rows) && (id in t.rows ==> Stays(t.rows[id]))
      && |t.rows| + (if Waits(s, id) then 0 else 1) >= |s.rows|
  {
    if !Waits(s, id) {
      MoveMoves(c, s, id, file, exact);
      OneRowLess(s.rows, MoveOf(c, s, id, file).rows, id);
    }
  }

  lemma OneRowLess(rows: map<nat, Item>, later: map<nat, Item>, id: nat)
    requires later == rows || later == rows - {id}
    ensures |later| + 1 >= |rows| && FewerRows(later, rows)
  {
    assert later.Keys == if later == rows then rows.Keys else rows.Keys - {id};
    assert |later| == |later.Keys| && |rows| == |rows.Keys|;
  }

  ghost predicate AllStay(rows: map<nat, Item>, found: seq<Candidate>, from: nat, seen: nat)
    requires seen <= |found|
  {
    forall i :: from <= i < seen && found[i].id in rows ==> Stays(rows[found[i].id])
  }

  ghost predicate Walked(rows: map<nat, Item>, later: map<nat, Item>, found: seq<Candidate>, from: nat, seen: nat,
                         moved: nat)
    requires from <= seen <= |found|
  {
    && FewerRows(later, rows) && AllStay(later, found, from, seen)
    && |later| + ARCHIVE_BATCH >= |rows| + moved
  }

  lemma WalksOn(rows: map<nat, Item>, next: map<nat, Item>, later: map<nat, Item>, found: seq<Candidate>, from: nat,
                seen: nat, moved: nat, k: nat)
    requires from < seen <= |found| && FewerRows(next, rows) && |next| + (k - moved) >= |rows|
    requires found[from].id in next ==> Stays(next[found[from].id])
    requires Walked(next, later, found, from + 1, seen, k)
    ensures Walked(rows, later, found, from, seen, moved)
  {
  }

  lemma {:induction false} MoveAllKeeps(c: Codec, s: State, found: seq<Candidate>, seen: nat, moved: nat, file: nat,
                                        exact: bool)
    requires Good(c) && Inv(c, s, exact) && s.mover == Idle && seen <= |found|
    ensures Inv(c, MoveAll(c, s, found, seen, moved, file).state, exact)
    decreases |found| - seen
  {
    if seen < |found| && moved < ARCHIVE_BATCH {
      var id := found[seen].id;
      var t, k := CandidateOf(c, s, id, file), if Waits(s, id) then moved else moved + 1;
      CandidateKeeps(c, s, id, file, exact);
      MoveAllKeeps(c, t, found, seen + 1, k, file, exact);
      MoveAllStep(c, s, found, seen, moved, file);
    }
  }

  /** Every candidate that a pass has seen is moved, waits for an acknowledgement, or is no longer
      one; and a pass moves no more than its batch. */
  lemma {:induction false} MoveAllMoves(c: Codec, s: State, found: seq<Candidate>, seen: nat, moved: nat, file: nat,
                                        exact: bool)
    requires Good(c) && Inv(c, s, exact) && s.mover == Idle && seen <= |found| && moved <= ARCHIVE_BATCH
    ensures
      var w := MoveAll(c, s, found, seen, moved, file);
      Walked(s.rows, w.state.rows, found, seen, w.seen, moved)
    decreases |found| - seen
  {
    if seen < |found| && moved < ARCHIVE_BATCH {
      var id, w := found[seen].id, MoveAll(c, s, found, seen, moved, file);
      var t, k := CandidateOf(c, s, id, file), if Waits(s, id) then moved else moved + 1;
      MovePasses(c, s, id, file, exact);
      CandidateKeeps(c, s, id, file, exact);
      MoveAllMoves(c, t, found, seen + 1, k, file, exact);
      WalksOn(s.rows, t.rows, w.state.rows, found, seen, w.seen, moved, k);
    }
  }

  /** What a pass has gone through, in the order of its cursor: all that it selected, when it saw all
      of a window that was not full, and else all up to the last candidate that it saw. */
  predicate Covered(w: Walk, found: seq<Candidate>, k: Candidate)
    requires w.seen <= |found|
  {
    (w.seen == |found| < ARCHIVE_WINDOW) || (w.seen > 0 && !Precedes(found[w.seen - 1], k))
  }

  lemma CoveredIsSeen(rows: map<nat, Item>, w: Walk, found: seq<Candidate>, cutoff: int, after: Candidate, k: Candidate)
    requires FoundAnswer(rows, found, cutoff, after) && Selected(rows, k, cutoff, after)
    requires w.seen <= |found| && Covered(w, found, k)
    ensures exists i :: 0 <= i < w.seen && found[i] == k
  {
    assert k in found;
    var i :| 0 <= i < |found| && found[i] == k;
    assert i < w.seen || Precedes(found[w.seen - 1], found[i]);
  }

  ghost predicate PassedOver(w: Walk, found: seq<Candidate>, cutoff: int, after: Candidate)
    requires w.seen <= |found|
  {
    forall k :: Selected(w.state.rows, k, cutoff, after) && Covered(w, found, k) ==> Stays(w.state.rows[k.id])
  }

  lemma CoveredStays(rows: map<nat, Item>, w: Walk, found: seq<Candidate>, cutoff: int, after: Candidate)
    requires FoundAnswer(rows, found, cutoff, after) && w.seen <= |found|
    requires FewerRows(w.state.rows, rows) && AllStay(w.state.rows, found, 0, w.seen)
    ensures PassedOver(w, found, cutoff, after)
  {
    forall k | Selected(w.state.rows, k, cutoff, after) && Covered(w, found, k)
      ensures Stays(w.state.rows[k.id])
    {
      CoveredIsSeen(rows, w, found, cutoff, after, k);
    }
  }

  /** No pass goes past an item that it should move: of the items that were eligible after the old
      cursor, those that the pass has covered are moved, or wait for an acknowledgement, or have the
      mark of another move. And it moves no
      more than its batch, besides the marked items. */
  lemma PassCovers(c: Codec, s: State, marked: seq<nat>, found: seq<Candidate>, now: int, after: Candidate, file: nat,
                   exact: bool)
    requires Good(c) && Inv(c, s, exact) && s.mover == Idle
    requires FoundAnswer(FinishAll(c, s, marked).rows, found, now - ARCHIVE_AFTER, after)
    ensures
      var f, w := FinishAll(c, s, marked), PassOf(c, s, marked, found, file);
      && Inv(c, w.state, exact) && FewerRows(w.state.rows, f.rows) && |w.state.rows| + ARCHIVE_BATCH >= |f.rows|
      && PassedOver(w, found, now - ARCHIVE_AFTER, after)
  {
    var f, w := FinishAll(c, s, marked), PassOf(c, s, marked, found, file);
    FinishAllFinishes(c, s, marked, exact);
    MoveAllKeeps(c, f, found, 0, 0, file, exact);
    MoveAllMoves(c, f, found, 0, 0, file, exact);
    CoveredStays(f.rows, w, found, now - ARCHIVE_AFTER, after);
  }

  /** A pass that had room for all marked items leaves no mark. */
  lemma MarksAreFinished(c: Codec, s: State, marked: seq<nat>, exact: bool)
    requires Good(c) && Inv(c, s, exact) && s.mover == Idle
    requires MarkedAnswer(s.rows, marked) && |marked| < ARCHIVE_BATCH
    ensures forall id :: id in FinishAll(c, s, marked).rows ==> FinishAll(c, s, marked).rows[id].mark == None
  {
    FinishAllFinishes(c, s, marked, exact);
    forall id | id in FinishAll(c, s, marked).rows
      ensures FinishAll(c, s, marked).rows[id].mark == None
    {
      assert s.rows[id].mark.Some? ==> id in marked;
    }
  }

  /** The candidates from an index on are all archived and without a mark. */
  ghost predicate Movable(rows: map<nat, Item>, found: seq<Candidate>, from: nat) {
    forall i :: from <= i < |found| ==> MovableAt(rows, found[i].id)
  }

  ghost predicate Distinct(found: seq<Candidate>) {
    forall i, j :: 0 <= i < j < |found| ==> found[i].id != found[j].id
  }

  predicate MovableAt(rows: map<nat, Item>, id: nat) {
    id in rows && rows[id].record.id == id && rows[id].status == Archived && rows[id].mark == None
  }

  lemma MovesRow(c: Codec, s: State, id: nat, file: nat)
    requires MovableAt(s.rows, id)
    ensures MoveOf(c, s, id, file).rows == s.rows - {id}
  {
  }

  lemma RowGone(rows: map<nat, Item>, found: seq<Candidate>, from: nat)
    requires from < |found| && Movable(rows, found, from) && Distinct(found)
    ensures
      var later := rows - {found[from].id};
      Movable(later, found, from + 1) && |later| + 1 == |rows|
  {
    var id := found[from].id;
    assert MovableAt(rows, id);
    assert (rows - {id}).Keys == rows.Keys - {id};
    assert |rows| == |rows.Keys| && |rows - {id}| == |(rows - {id}).Keys|;
  }

  /** The rows after a walk over movable candidates, and how many of them it saw. */
  function RowsAfter(rows: map<nat, Item>, found: seq<Candidate>, seen: nat, moved: nat): (map<nat, Item>, nat)
    requires seen <= |found|
    decreases |found| - seen
  {
    if seen == |found| || moved >= ARCHIVE_BATCH then (rows, seen)
    else if found[seen].id in rows && rows[found[seen].id].record.queued > 0
    then RowsAfter(rows, found, seen + 1, moved)
    else RowsAfter(rows - {found[seen].id}, found, seen + 1, moved + 1)
  }

  lemma {:induction false} RowsAreFull(rows: map<nat, Item>, found: seq<Candidate>, seen: nat, moved: nat)
    requires seen <= |found| && moved <= ARCHIVE_BATCH && Movable(rows, found, seen) && Distinct(found)
    ensures
      var (later, n) := RowsAfter(rows, found, seen, moved);
      n == |found| || |rows| + moved == |later| + 64
    decreases |found| - seen
  {
    if seen < |found| && moved < ARCHIVE_BATCH {
      assert MovableAt(rows, found[seen].id);
      if rows[found[seen].id].record.queued > 0 {
        RowsAreFull(rows, found, seen + 1, moved);
      } else {
        RowGone(rows, found, seen);
        RowsAreFull(rows - {found[seen].id}, found, seen + 1, moved + 1);
      }
    }
  }

  lemma {:induction false} WalkRows(c: Codec, s: State, found: seq<Candidate>, seen: nat, moved: nat, file: nat)
    requires seen <= |found| && Movable(s.rows, found, seen) && Distinct(found)
    ensures
      var w := MoveAll(c, s, found, seen, moved, file);
      (w.state.rows, w.seen) == RowsAfter(s.rows, found, seen, moved)
    decreases |found| - seen
  {
    if seen < |found| && moved < ARCHIVE_BATCH {
      var id := found[seen].id;
      assert MovableAt(s.rows, id);
      MoveAllStep(c, s, found, seen, moved, file);
      if Waits(s, id) {
        WalkRows(c, s, found, seen + 1, moved, file);
      } else {
        MovesRow(c, s, id, file);
        RowGone(s.rows, found, seen);
        WalkRows(c, MoveOf(c, s, id, file), found, seen + 1, moved + 1, file);
      }
    }
  }

  ghost predicate Unmarked(rows: map<nat, Item>) {
    forall id :: id in rows ==> rows[id].record.id == id && rows[id].mark == None
  }

  lemma FinishedUnmarked(c: Codec, s: State, marked: seq<nat>, exact: bool)
    requires Good(c) && Inv(c, s, exact) && s.mover == Idle
    requires MarkedAnswer(s.rows, marked) && |marked| < ARCHIVE_BATCH
    ensures Unmarked(FinishAll(c, s, marked).rows)
  {
    var f := FinishAll(c, s, marked);
    FinishAllFinishes(c, s, marked, exact);
    MarksAreFinished(c, s, marked, exact);
    forall id | id in f.rows
      ensures f.rows[id].record.id == id
    {
      assert GoodRow(f, exact, id, f.rows[id]);
    }
  }

  lemma FoundIsMovable(rows: map<nat, Item>, found: seq<Candidate>, cutoff: int, after: Candidate)
    requires FoundAnswer(rows, found, cutoff, after) && Unmarked(rows)
    ensures Movable(rows, found, 0) && Distinct(found)
  {
    forall i | 0 <= i < |found|
      ensures MovableAt(rows, found[i].id)
    {
      assert Selected(rows, found[i], cutoff, after);
    }
    forall i, j | 0 <= i < j < |found|
      ensures found[i].id != found[j].id
    {
      assert Precedes(found[i], found[j]);
    }
  }

  /** A pass that had room for all marked items goes to the end of what it found, or moves 64 items. */
  lemma PassIsFull(c: Codec, s: State, marked: seq<nat>, found: seq<Candidate>, now: int, after: Candidate, file: nat,
                   exact: bool)
    requires Good(c) && Inv(c, s, exact) && s.mover == Idle
    requires MarkedAnswer(s.rows, marked) && |marked| < ARCHIVE_BATCH
    requires FoundAnswer(FinishAll(c, s, marked).rows, found, now - ARCHIVE_AFTER, after)
    ensures
      var w := PassOf(c, s, marked, found, file);
      w.seen == |found| || |FinishAll(c, s, marked).rows| == |w.state.rows| + 64
  {
    FinishedUnmarked(c, s, marked, exact);
    FoundIsMovable(FinishAll(c, s, marked).rows, found, now - ARCHIVE_AFTER, after);
    WalkRows(c, FinishAll(c, s, marked), found, 0, 0, file);
    RowsAreFull(FinishAll(c, s, marked).rows, found, 0, 0);
  }
}
