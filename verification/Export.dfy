/** The paged export of the decision board: the pages that the daemon reads
    (internal/core/decision_export.go) and the client that joins them into a file
    (cmd/koinon/decision_export.go). */
module Export {
  import opened Bytes
  import opened Options

  const EXPORT_ITEMS := 100
  const ATTEMPTS := 4

  datatype Item = Item(key: nat, record: Bytes)

  /** The board at one moment: its change version, the deep-archived items in reference order
      and the live items in ID order. The references are numbered in their order, from 1. An
      item in broken has a line that does not match its locator. */
  datatype Board = Board(version: nat, deep: seq<Item>, live: seq<Item>, broken: set<nat>)

  /** The digest of a record, taken as injective. */
  datatype Digest = Digest(of: Bytes)

  datatype Phase = Deep | Live

  /** A cursor; version and digest are given with an offset. */
  datatype At = At(phase: Phase, after: nat, offset: nat, version: Option<nat>, digest: Option<Digest>)

  const START := At(Deep, 0, 0, None, None)

  datatype Part = Part(offset: nat, data: Bytes, digest: Digest, final: bool)

  datatype Page = Page(version: nat, records: seq<Bytes>, part: Option<Part>, more: bool, next: Option<At>)

  datatype Reply = Read(page: Page) | Invalid | ExportChanged | Unavailable

  ghost predicate Sorted(items: seq<Item>) {
    && (forall i :: 0 <= i < |items| ==> items[i].key > 0 && |items[i].record| > 0)
    && (forall i, j :: 0 <= i < j < |items| ==> items[i].key < items[j].key)
  }

  ghost predicate ValidBoard(b: Board) {
    Sorted(b.deep) && Sorted(b.live)
  }

  /** The number of items, and the n-th of them in export order. */
  function Total(b: Board): nat {
    |b.deep| + |b.live|
  }

  function Nth(b: Board, n: nat): Item
    requires n < Total(b)
  {
    if n < |b.deep| then b.deep[n] else b.live[n - |b.deep|]
  }

  /** How many of the items a cursor has passed. */
  function Passed(items: seq<Item>, after: nat): (n: nat)
    ensures n <= |items|
    ensures n < |items| ==> items[n].key > after
    ensures forall i :: 0 <= i < n ==> items[i].key <= after
  {
    PassedFrom(items, after, 0)
  }

  function PassedFrom(items: seq<Item>, after: nat, from: nat): (n: nat)
    requires from <= |items|
    ensures from <= n <= |items|
    ensures n < |items| ==> items[n].key > after
    ensures forall i :: from <= i < n ==> items[i].key <= after
    decreases |items| - from
  {
    if from == |items| || items[from].key > after then from else PassedFrom(items, after, from + 1)
  }

  /** The items of a phase, and how many are before them. */
  function Items(b: Board, phase: Phase): seq<Item> {
    if phase == Deep then b.deep else b.live
  }

  function Base(b: Board, phase: Phase): nat {
    if phase == Deep then 0 else |b.deep|
  }

  function Position(b: Board, at: At): (p: nat)
    ensures p <= Total(b)
    ensures Passed(Items(b, at.phase), at.after) < |Items(b, at.phase)| ==>
              p < Total(b) && Nth(b, p) == Items(b, at.phase)[Passed(Items(b, at.phase), at.after)]
  {
    Base(b, at.phase) + Passed(Items(b, at.phase), at.after)
  }

  lemma PassedItem(items: seq<Item>, i: nat)
    requires Sorted(items) && i < |items|
    ensures Passed(items, items[i].key) == i + 1
  {
    PassedIs(items, items[i].key, i + 1);
  }

  lemma PassedIs(items: seq<Item>, after: nat, n: nat)
    requires n <= |items|
    requires forall i :: 0 <= i < n ==> items[i].key <= after
    requires n < |items| ==> items[n].key > after
    ensures Passed(items, after) == n
  {
  }

  lemma PassedNothing(items: seq<Item>)
    requires Sorted(items)
    ensures Passed(items, 0) == 0
  {
  }

  /** The records of the items from one index up to another. */
  function Records(items: seq<Item>, from: nat, to: nat): (r: seq<Bytes>)
    requires from <= to <= |items|
    ensures |r| == to - from && forall k :: 0 <= k < |r| ==> r[k] == items[from + k].record
  {
    seq(to - from, k requires 0 <= k < to - from => items[from + k].record)
  }

  lemma RecordsGrow(items: seq<Item>, from: nat, to: nat)
    requires from <= to < |items|
    ensures Records(items, from, to + 1) == Records(items, from, to) + [items[to].record]
  {
  }

  // What a page is, of the board that it read

  /** The records of the p-th item and of those after it. */
  ghost predicate RecordsFrom(b: Board, p: nat, records: seq<Bytes>) {
    p + |records| <= Total(b) && forall k :: 0 <= k < |records| ==> records[k] == Nth(b, p + k).record
  }

  /** A page of whole records: the next ones from the cursor on, and a cursor right after them
      that lies further on. Without more, they are the last. */
  ghost predicate RecordsPage(b: Board, at: At, page: Page) {
    var p := Position(b, at);
    && page.part == None && at.offset == 0
    && RecordsFrom(b, p, page.records)
    && (page.more ==>
          && page.next.Some? && page.next.value.offset == 0
          && Position(b, page.next.value) == p + |page.records|
          && (|page.records| > 0 || (at.phase == Deep && page.next.value.phase == Live))
          && (at.phase == Live ==> page.next.value.phase == Live))
    && (!page.more ==> p + |page.records| == Total(b))
  }

  /** A page with a part: bytes of the next record from the cursor's offset on. */
  ghost predicate PartPage(b: Board, at: At, page: Page) {
    var p := Position(b, at);
    && page.part.Some? && page.records == [] && page.more && page.next.Some?
    && p < Total(b) && Passed(Items(b, at.phase), at.after) < |Items(b, at.phase)|
    && var record, part, next := Nth(b, p).record, page.part.value, page.next.value;
    && part.offset == at.offset && part.digest == Digest(record)
    && (at.offset > 0 ==> at.digest == Some(Digest(record)))
    && |part.data| > 0 && at.offset + |part.data| <= |record|
    && part.data == record[at.offset..at.offset + |part.data|]
    && (part.final <==> at.offset + |part.data| == |record|)
    && (part.final ==>
          next.offset == 0 && Position(b, next) == p + 1 && next.phase == at.phase)
    && (!part.final ==>
          next == at.(offset := at.offset + |part.data|, version := Some(b.version), digest := Some(Digest(record))))
  }

  ghost predicate GoodPage(b: Board, at: At, page: Page) {
    page.version == b.version && (RecordsPage(b, at, page) || PartPage(b, at, page))
  }

  // How much a page holds

  /** The bytes of records with one newline each. */
  function Volume(records: seq<Bytes>): nat {
    if records == [] then 0 else Volume(records[..|records| - 1]) + |records[|records| - 1]| + 1
  }

  lemma VolumeSnoc(records: seq<Bytes>, record: Bytes)
    ensures Volume(records + [record]) == Volume(records) + |record| + 1
  {
    assert (records + [record])[..|records|] == records;
  }

  /** The records and bytes that a page may hold. */
  ghost predicate Within(records: seq<Bytes>, limit: nat, size: nat) {
    && |records| <= limit
    && (Volume(records) <= size || (|records| == 1 && |records[0]| <= size))
  }

  /** A page of whole records stops before the end of its phase only when it is full, or when the next
      record does not fit. */
  ghost predicate RecordsFill(b: Board, at: At, page: Page, limit: nat, size: nat) {
    var items, start := Items(b, at.phase), Passed(Items(b, at.phase), at.after);
    var stop := start + |page.records|;
    && at.offset == 0 && Within(page.records, limit, size)
    && (start < |items| ==> page.records != [])
    && (stop < |items| ==>
          && (|page.records| == limit || Volume(page.records) + |items[stop].record| + 1 > size)
          && page.more && page.next.Some? && page.next.value.phase == at.phase)
    && (stop >= |items| ==> if at.phase == Live then !page.more && page.next.None?
                            else page.more && page.next == Some(At(Live, 0, 0, None, None)))
  }

  /** A part is of a record larger than a page, or of one that a cursor is inside of; it takes what
      fits. */
  ghost predicate PartFills(b: Board, at: At, page: Page, size: nat) {
    var items, start := Items(b, at.phase), Passed(Items(b, at.phase), at.after);
    && page.part.Some? && start < |items|
    && (at.offset > 0 || |items[start].record| > size)
    && at.offset < |items[start].record|
    && |page.part.value.data| ==
       if |items[start].record| - at.offset < size then |items[start].record| - at.offset else size
  }

  ghost predicate PageFills(b: Board, at: At, page: Page, limit: nat, size: nat) {
    if page.part.Some? then PartFills(b, at, page, size) else RecordsFill(b, at, page, limit, size)
  }

  /** The walk of a deep phase meets an unreadable line at index i, after the records before it. */
  ghost predicate Meets(b: Board, at: At, limit: nat, size: nat, i: nat) {
    var start := Passed(b.deep, at.after);
    && at.phase == Deep && start <= i < |b.deep| && b.deep[i].key in b.broken
    && (forall k :: start <= k < i ==> b.deep[k].key !in b.broken)
    && (i > start ==> at.offset == 0 && Within(Records(b.deep, start, i), limit, size))
  }

  ghost predicate MeetsBroken(b: Board, at: At, limit: nat, size: nat) {
    exists i :: Meets(b, at, limit, size, i)
  }

  /** The lines from the cursor up to index i are readable. */
  ghost predicate Clear(b: Board, at: At, i: nat) {
    at.phase == Deep ==>
      forall k :: Passed(b.deep, at.after) <= k < i && k < |b.deep| ==> b.deep[k].key !in b.broken
  }

  /** The record at index i does not go in the page with those before it. */
  ghost predicate Overflows(b: Board, at: At, limit: nat, size: nat, i: nat)
    requires Passed(Items(b, at.phase), at.after) <= i < |Items(b, at.phase)|
  {
    var items, start := Items(b, at.phase), Passed(Items(b, at.phase), at.after);
    if i == start then at.offset > 0 || |items[i].record| > size
    else i - start == limit || Volume(Records(items, start, i)) + |items[i].record| + 1 > size
  }

  lemma {:induction false} VolumeGrows(items: seq<Item>, start: nat, i: nat, j: nat)
    requires start <= i <= j <= |items|
    ensures Volume(Records(items, start, i)) <= Volume(Records(items, start, j))
    decreases j
  {
    if i < j {
      VolumeGrows(items, start, i, j - 1);
      RecordsGrow(items, start, j - 1);
      VolumeSnoc(Records(items, start, j - 1), items[j - 1].record);
    }
  }

  /** Nothing behind a record that does not fit is read. */
  lemma OverflowHides(b: Board, at: At, limit: nat, size: nat, i: nat, j: nat)
    requires Passed(Items(b, at.phase), at.after) <= i < j <= |Items(b, at.phase)|
    requires Overflows(b, at, limit, size, i)
    ensures
      var start := Passed(Items(b, at.phase), at.after);
      at.offset > 0 || !Within(Records(Items(b, at.phase), start, j), limit, size)
  {
    var items, start := Items(b, at.phase), Passed(Items(b, at.phase), at.after);
    VolumeGrows(items, start, i + 1, j);
    RecordsGrow(items, start, i);
    VolumeSnoc(Records(items, start, i), items[i].record);
  }

  /** So a walk that stopped there met no unreadable line. */
  lemma NotMet(b: Board, at: At, limit: nat, size: nat, i: nat)
    requires Passed(Items(b, at.phase), at.after) <= i <= |Items(b, at.phase)|
    requires Clear(b, at, i + 1)
    requires i < |Items(b, at.phase)| ==> Overflows(b, at, limit, size, i)
    ensures !MeetsBroken(b, at, limit, size)
  {
    forall j | i < j < |Items(b, at.phase)|
      ensures !Meets(b, at, limit, size, j)
    {
      OverflowHides(b, at, limit, size, i, j);
    }
  }

  // The cursor and the replies

  /** A cursor with an offset needs its version and its digest. */
  predicate Malformed(at: At) {
    at.offset > 0 && (at.version == None || at.digest == None)
  }

  /** The board has another version than the cursor's part. */
  predicate Stale(b: Board, at: At) {
    at.offset > 0 && !Malformed(at) && at.version != Some(b.version)
  }

  /** The line of the next deep record cannot be read. */
  ghost predicate NextBroken(b: Board, at: At) {
    at.phase == Deep && Passed(b.deep, at.after) < |b.deep| && b.deep[Passed(b.deep, at.after)].key in b.broken
  }

  /** The record that the cursor is inside of is another one now. */
  ghost predicate Differs(b: Board, at: At) {
    var items, n := Items(b, at.phase), Passed(Items(b, at.phase), at.after);
    at.offset > 0 && !NextBroken(b, at) && n < |items| && at.digest != Some(Digest(items[n].record))
  }

  /** No next record in the cursor's phase, or the offset is not inside it. */
  ghost predicate Outside(b: Board, at: At) {
    var items, n := Items(b, at.phase), Passed(Items(b, at.phase), at.after);
    n < |items| ==> at.offset >= |items[n].record| && at.digest == Some(Digest(items[n].record))
  }

  /** How many records a page may hold. */
  function Limit(asked: nat): nat {
    if 1 <= asked <= 100 then asked else 100
  }

  /** The page under construction and its byte count. */
  datatype Draft = Draft(page: Page, used: nat, changed: bool, invalid: bool)

  /** The page with the part of a record at the cursor's offset. */
  ghost function WithPart(page: Page, at: At, record: Bytes, next: At, size: nat): Page
    requires at.offset < |record|
  {
    var end := if at.offset + size < |record| then at.offset + size else |record|;
    page.(part := Some(Part(at.offset, record[at.offset..end], Digest(record), end == |record|)),
          more := true,
          next := Some(if end == |record| then next
                       else at.(offset := end, version := Some(page.version), digest := Some(Digest(record)))))
  }

  /** A page that took no more records: it is full, or it has a part of its own, or the cursor's
      offset does not go with the record. */
  ghost predicate Stopped(at: At, draft: Draft, record: Bytes, next: At, limit: nat, size: nat, d: Draft) {
    var page := draft.page;
    if d.changed then page.records == [] && at.offset > 0 && at.digest != Some(Digest(record))
    else if d.invalid then
      page.records == [] && at.offset > 0 && at.offset >= |record| && at.digest == Some(Digest(record))
    else if d.page.part == None then
      && page.records != [] && d.page == page.(more := true)
      && (|page.records| == limit || draft.used + |record| + 1 > size)
    else
      && page.records == [] && at.offset < |record| && (at.offset > 0 || |record| > size)
      && (at.offset > 0 ==> at.digest == Some(Digest(record)))
      && d.page == WithPart(page, at, record, next, size)
  }

  /** The reply that a stopped walk ends with. */
  function Answer(d: Draft): Reply {
    if d.changed then ExportChanged else if d.invalid then Invalid else Read(d.page)
  }

  /** The add closure: puts a record in the page, or one part of a record larger than a page in
      a page of its own, and reports whether the page has room for another. */
  method Add(at: At, draft: Draft, record: Bytes, next: At, limit: nat, size: nat) returns (d: Draft, room: bool)
    requires limit > 0 && size > 0 && |record| > 0
    requires draft.page.part == None && !draft.page.more && !draft.changed && !draft.invalid
    requires |draft.page.records| <= limit
    ensures room ==>
              && (draft.page.records == [] ==> at.offset == 0 && |record| <= size)
              && (draft.page.records != [] ==> draft.used + |record| + 1 <= size)
              && d == Draft(draft.page.(records := draft.page.records + [record], next := Some(next)),
                            draft.used + |record| + 1, false, false)
    ensures room ==> |d.page.records| <= limit
    ensures !room ==> Stopped(at, draft, record, next, limit, size, d)
    ensures |draft.page.records| == limit ==> !room
  {
    if |draft.page.records| == 0 && (at.offset > 0 || |record| > size) {
      var digest := Digest(record);
      if at.offset > 0 && at.digest != Some(digest) {
        return draft.(changed := true), false;
      }
      if at.offset >= |record| {
        return draft.(invalid := true), false;
      }
      var end := if at.offset + size < |record| then at.offset + size else |record|;
      var part := Part(at.offset, record[at.offset..end], digest, end == |record|);
      var after := next;
      if !part.final {
        after := at.(offset := end, version := Some(draft.page.version), digest := Some(digest));
      }
      return draft.(page := draft.page.(part := Some(part), more := true, next := Some(after))), false;
    }
    if |draft.page.records| == limit || (|draft.page.records| > 0 && draft.used + |record| + 1 > size) {
      return draft.(page := draft.page.(more := true)), false;
    }
    d := Draft(draft.page.(records := draft.page.records + [record], next := Some(next)), draft.used + |record| + 1,
               false, false);
    room := true;
  }

  /** DecisionExport, of the board that its transaction reads; asked is the caller's limit. */
  method DecisionExport(b: Board, at: At, asked: nat, size: nat) returns (r: Reply)
    requires ValidBoard(b) && size > 0
    ensures r.Read? ==> GoodPage(b, at, r.page) && PageFills(b, at, r.page, Limit(asked), size)
    ensures r == Unavailable <==>
              !Malformed(at) && !Stale(b, at) && MeetsBroken(b, at, Limit(asked), size)
    ensures r == ExportChanged <==> Stale(b, at) || (!Malformed(at) && Differs(b, at))
    ensures r == Invalid <==>
              || Malformed(at)
              || (at.offset > 0 && !Stale(b, at) && !NextBroken(b, at) && Outside(b, at))
  {
    if at.offset > 0 && (at.version == None || at.digest == None) {
      return Invalid;
    }
    var limit := if asked == 0 || asked > EXPORT_ITEMS then EXPORT_ITEMS else asked;
    if at.offset > 0 && at.version != Some(b.version) {
      return ExportChanged;
    }
    var ended, page := ReadRows(b, at, limit, size);
    if at.offset > 0 {
      CursorMeets(b, at, limit, size);
    }
    if ended.Some? {
      return ended.value;
    }
    if at.offset > 0 {
      return Invalid;
    }
    LastPage(b, at);
    if at.phase == Deep {
      return Read(page.(more := true, next := Some(At(Live, 0, 0, None, None))));
    }
    r := Read(page.(next := None));
  }

  /** The walk over the phase's rows after the cursor: the reply that it ends with, or the page of
      all of them. */
  method ReadRows(b: Board, at: At, limit: nat, size: nat) returns (ended: Option<Reply>, page: Page)
    requires ValidBoard(b) && limit > 0 && size > 0
    ensures ended.Some? ==> Ends(b, at, limit, size, ended.value)
    ensures ended.None? ==>
              && page == Listing(b, at, |Items(b, at.phase)|) && Within(page.records, limit, size)
              && !MeetsBroken(b, at, limit, size)
    ensures ended.None? && at.offset > 0 ==> Passed(Items(b, at.phase), at.after) == |Items(b, at.phase)|
  {
    var items := if at.phase == Deep then b.deep else b.live;
    var start := Passed(items, at.after);
    var stop := if start + limit + 1 < |items| then start + limit + 1 else |items|;
    var draft := Draft(Page(b.version, [], None, false, None), 0, false, false);
    var i := start;
    while i < stop
      invariant start <= i <= stop && Walks(b, at, limit, size, i, draft)
    {
      ended, draft := ReadRow(b, at, limit, size, i, draft);
      if ended.Some? {
        return ended, draft.page;
      }
      i := i + 1;
    }
    WalkListsAll(b, at, limit, size, i, draft);
    return None, draft.page;
  }

  /** One row of the walk. */
  method ReadRow(b: Board, at: At, limit: nat, size: nat, i: nat, draft: Draft)
    returns (ended: Option<Reply>, d: Draft)
    requires ValidBoard(b) && limit > 0 && size > 0 && i < |Items(b, at.phase)| && Walks(b, at, limit, size, i, draft)
    ensures ended.Some? ==> Ends(b, at, limit, size, ended.value)
    ensures ended.None? ==> Walks(b, at, limit, size, i + 1, d)
  {
    var item := if at.phase == Deep then b.deep[i] else b.live[i];
    if at.phase == Deep && item.key in b.broken {
      WalkMeets(b, at, limit, size, i, draft);
      return Some(Unavailable), draft;
    }
    var room;
    d, room := Add(at, draft, item.record, At(at.phase, item.key, 0, None, None), limit, size);
    if !room {
      StoppedEnds(b, at, i, draft, d, limit, size);
      return Some(Answer(d)), d;
    }
    WalkGoesOn(b, at, limit, size, i, draft, d);
    ended := None;
  }

  /** The walk has listed the items from the cursor up to index i. */
  ghost predicate Walks(b: Board, at: At, limit: nat, size: nat, i: nat, d: Draft) {
    && Passed(Items(b, at.phase), at.after) <= i <= |Items(b, at.phase)|
    && d.page == Listing(b, at, i) && d.used == Volume(d.page.records) && !d.changed && !d.invalid
    && Within(d.page.records, limit, size) && Clear(b, at, i)
    && (at.offset > 0 ==> i == Passed(Items(b, at.phase), at.after))
  }

  lemma WalkMeets(b: Board, at: At, limit: nat, size: nat, i: nat, d: Draft)
    requires Walks(b, at, limit, size, i, d)
    requires at.phase == Deep && i < |b.deep| && b.deep[i].key in b.broken
    ensures MeetsBroken(b, at, limit, size)
  {
    assert Meets(b, at, limit, size, i);
  }

  lemma WalkGoesOn(b: Board, at: At, limit: nat, size: nat, i: nat, was: Draft, d: Draft)
    requires Walks(b, at, limit, size, i, was) && i < |Items(b, at.phase)| && Clear(b, at, i + 1)
    requires
      var item := Items(b, at.phase)[i];
      && (was.page.records == [] ==> at.offset == 0 && |item.record| <= size)
      && (was.page.records != [] ==> was.used + |item.record| + 1 <= size)
      && |d.page.records| <= limit
      && d == Draft(was.page.(records := was.page.records + [item.record],
                              next := Some(At(at.phase, item.key, 0, None, None))),
                    was.used + |item.record| + 1, false, false)
    ensures Walks(b, at, limit, size, i + 1, d)
  {
    var items, start := Items(b, at.phase), Passed(Items(b, at.phase), at.after);
    RecordsGrow(items, start, i);
    VolumeSnoc(was.page.records, items[i].record);
  }

  lemma WalkListsAll(b: Board, at: At, limit: nat, size: nat, i: nat, d: Draft)
    requires Walks(b, at, limit, size, i, d)
    requires
      var items, start := Items(b, at.phase), Passed(Items(b, at.phase), at.after);
      i == (if start + limit + 1 < |items| then start + limit + 1 else |items|)
    ensures i == |Items(b, at.phase)| && !MeetsBroken(b, at, limit, size)
  {
    NotMet(b, at, limit, size, i);
  }

  /** With an offset, the next record is the only one that is read. */
  lemma CursorMeets(b: Board, at: At, limit: nat, size: nat)
    requires at.offset > 0
    ensures MeetsBroken(b, at, limit, size) <==> NextBroken(b, at)
  {
    if NextBroken(b, at) {
      assert Meets(b, at, limit, size, Passed(b.deep, at.after));
    }
  }

  /** A reply that ends the walk over the rows. */
  ghost predicate Ends(b: Board, at: At, limit: nat, size: nat, r: Reply) {
    match r
    case Read(page) =>
      && GoodPage(b, at, page) && PageFills(b, at, page, limit, size)
      && !MeetsBroken(b, at, limit, size)
    case Unavailable => MeetsBroken(b, at, limit, size)
    case ExportChanged => Differs(b, at)
    case Invalid => at.offset > 0 && !NextBroken(b, at) && Outside(b, at)
  }

  lemma StoppedEnds(b: Board, at: At, i: nat, was: Draft, d: Draft, limit: nat, size: nat)
    requires ValidBoard(b) && size > 0 && i < |Items(b, at.phase)| && Walks(b, at, limit, size, i, was)
    requires Clear(b, at, i + 1)
    requires
      var item := Items(b, at.phase)[i];
      Stopped(at, was, item.record, At(at.phase, item.key, 0, None, None), limit, size, d)
    ensures Ends(b, at, limit, size, Answer(d))
  {
    if !d.changed && !d.invalid {
      NotMet(b, at, limit, size, i);
      if d.page.part == None {
        FullPage(b, at, i);
        FullFills(b, at, i, was, limit, size);
      } else {
        PartOfItem(b, at, size);
      }
    }
  }

  lemma FullFills(b: Board, at: At, i: nat, was: Draft, limit: nat, size: nat)
    requires i < |Items(b, at.phase)| && Walks(b, at, limit, size, i, was) && was.page.records != []
    requires |was.page.records| == limit || was.used + |Items(b, at.phase)[i].record| + 1 > size
    ensures RecordsFill(b, at, was.page.(more := true), limit, size)
  {
  }

  /** The page that lists the phase's items from the cursor up to index i. */
  ghost function Listing(b: Board, at: At, i: nat): Page
    requires Passed(Items(b, at.phase), at.after) <= i <= |Items(b, at.phase)|
  {
    var start := Passed(Items(b, at.phase), at.after);
    Page(b.version, Records(Items(b, at.phase), start, i), None, false,
         if i == start then None else Some(At(at.phase, Items(b, at.phase)[i - 1].key, 0, None, None)))
  }

  lemma PartOfItem(b: Board, at: At, size: nat)
    requires ValidBoard(b) && size > 0
    requires Passed(Items(b, at.phase), at.after) < |Items(b, at.phase)|
    requires var record := Items(b, at.phase)[Passed(Items(b, at.phase), at.after)].record;
             at.offset < |record| && (at.offset > 0 ==> at.digest == Some(Digest(record)))
    ensures
      var start := Passed(Items(b, at.phase), at.after);
      var item := Items(b, at.phase)[start];
      PartPage(b, at, WithPart(Listing(b, at, start), at, item.record, At(at.phase, item.key, 0, None, None), size))
  {
    var start := Passed(Items(b, at.phase), at.after);
    PassedItem(Items(b, at.phase), start);
  }

  lemma FullPage(b: Board, at: At, i: nat)
    requires ValidBoard(b)
    requires Passed(Items(b, at.phase), at.after) < i <= |Items(b, at.phase)| && at.offset == 0
    ensures RecordsPage(b, at, Listing(b, at, i).(more := true))
  {
    var items := Items(b, at.phase);
    var page, next := Listing(b, at, i), At(at.phase, items[i - 1].key, 0, None, None);
    var p := Position(b, at);
    assert page.next == Some(next);
    assert Position(b, next) == p + |page.records| by {
      PassedItem(items, i - 1);
    }
    ListingRecords(b, at, i);
  }

  lemma ListingRecords(b: Board, at: At, i: nat)
    requires Passed(Items(b, at.phase), at.after) <= i <= |Items(b, at.phase)|
    ensures Position(b, at) + |Listing(b, at, i).records| == Base(b, at.phase) + i
    ensures RecordsFrom(b, Position(b, at), Listing(b, at, i).records)
  {
    var start, records := Passed(Items(b, at.phase), at.after), Listing(b, at, i).records;
    forall k | 0 <= k < |records|
      ensures records[k] == Nth(b, Position(b, at) + k).record
    {
      PhaseNth(b, at.phase, start + k);
    }
  }

  lemma PhaseNth(b: Board, phase: Phase, i: nat)
    requires i < |Items(b, phase)|
    ensures Base(b, phase) + i < Total(b) && Nth(b, Base(b, phase) + i) == Items(b, phase)[i]
  {
  }

  lemma LastPage(b: Board, at: At)
    requires ValidBoard(b) && at.offset == 0
    ensures
      var page := Listing(b, at, |Items(b, at.phase)|);
      if at.phase == Deep then RecordsPage(b, at, page.(more := true, next := Some(At(Live, 0, 0, None, None))))
      else RecordsPage(b, at, page.(next := None))
  {
    PassedNothing(b.live);
    ListingRecords(b, at, |Items(b, at.phase)|);
  }
}
