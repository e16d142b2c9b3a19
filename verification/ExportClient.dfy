/** The client of the paged export: it joins pages that were read at different moments into one
    file (exportAttempt and decisionExport, cmd/koinon/decision_export.go). */
module ExportClient {
  import opened Bytes
  import opened Options
  import opened Export

  datatype Outcome = File(content: Bytes, records: nat, version: nat) | Changed | Refused | OutOfOrder | Ongoing

  /** The lines of a file. */
  function Lines(records: seq<Bytes>): Bytes {
    if records == [] then [] else Lines(records[..|records| - 1]) + records[|records| - 1] + [NEWLINE]
  }

  function Keys(items: seq<Item>): (k: seq<nat>)
    ensures |k| == |items| && forall i :: 0 <= i < |k| ==> k[i] == items[i].key
  {
    seq(|items|, i requires 0 <= i < |items| => items[i].key)
  }

  /** The board at each call. Every move, restore, edit and verdict changes the version; what
      does not change it, an acknowledgement, changes the records of live items only. */
  ghost predicate Boards(boards: nat -> Board) {
    forall i: nat {:trigger boards(i)} ::
      && ValidBoard(boards(i))
      && (boards(i).version == boards(0).version ==> SameItems(boards(0), boards(i)))
  }

  ghost predicate SameItems(a: Board, b: Board) {
    a.deep == b.deep && Keys(a.live) == Keys(b.live)
  }

  /** At one of the calls made, which had the version of the first, record was the whole record of
      the k-th item. */
  ghost predicate WasRecord(boards: nat -> Board, calls: nat, k: nat, record: Bytes) {
    exists i: nat :: i < calls && RecordAt(boards, i, k, record)
  }

  ghost predicate RecordAt(boards: nat -> Board, i: nat, k: nat, record: Bytes) {
    boards(i).version == boards(0).version && k < Total(boards(i)) && Nth(boards(i), k).record == record
  }

  lemma SamePassed(a: seq<Item>, b: seq<Item>, after: nat)
    requires Keys(a) == Keys(b)
    ensures |a| == |b| && Passed(a, after) == Passed(b, after)
  {
    assert |a| == |Keys(a)| == |b|;
    forall i | 0 <= i < |a|
      ensures a[i].key == b[i].key
    {
      assert Keys(a)[i] == Keys(b)[i];
    }
    PassedIs(a, after, Passed(b, after));
  }

  lemma SamePosition(a: Board, b: Board, at: At)
    requires SameItems(a, b)
    ensures Position(a, at) == Position(b, at) && Total(a) == Total(b)
  {
    SamePassed(a.live, b.live, at.after);
  }

  lemma LinesSnoc(records: seq<Bytes>, record: Bytes)
    ensures Lines(records + [record]) == Lines(records) + record + [NEWLINE]
  {
    assert (records + [record])[..|records|] == records;
  }

  /** Writes a page's whole records. */
  method WriteRecords(content: Bytes, page: seq<Bytes>, ghost chosen: seq<Bytes>) returns (written: Bytes)
    requires content == Lines(chosen)
    ensures written == Lines(chosen + page)
  {
    written := content;
    assert chosen + page[..0] == chosen;
    for i := 0 to |page|
      invariant written == Lines(chosen + page[..i])
    {
      LinesSnoc(chosen + page[..i], page[i]);
      assert chosen + page[..i + 1] == chosen + page[..i] + [page[i]];
      written := written + page[i] + [NEWLINE];
    }
    assert page[..|page|] == page;
  }

  /** The records taken so far: one for each item before the cursor. */
  ghost predicate Taken(boards: nat -> Board, calls: nat, at: At, chosen: seq<Bytes>) {
    && |chosen| == Position(boards(0), at)
    && forall k :: 0 <= k < |chosen| ==> WasRecord(boards, calls, k, chosen[k])
  }

  /** The start of one snapshot of the next record, as far as the cursor's offset. */
  ghost predicate Partway(boards: nat -> Board, calls: nat, at: At, k: nat, sum: Bytes, digest: Option<Digest>) {
    && at.offset == |sum|
    && (at.offset > 0 ==>
          && digest.Some? && at.digest == digest && at.version == Some(boards(0).version)
          && at.offset < |digest.value.of| && sum == digest.value.of[..at.offset]
          && WasRecord(boards, calls, k, digest.value.of)
          && Passed(Items(boards(0), at.phase), at.after) < |Items(boards(0), at.phase)|)
  }

  lemma Associates(a: Bytes, b: Bytes, c: Bytes)
    ensures a + b + c == a + (b + c)
  {
  }

  /** How far an attempt still has to read. */
  function Left(digest: Option<Digest>, at: At): nat {
    if at.offset > 0 && digest.Some? && at.offset <= |digest.value.of| then |digest.value.of| - at.offset else 0
  }

  lemma MoreCalls(boards: nat -> Board, calls: nat, at: At, w: Written, chosen: seq<Bytes>)
    requires Joined(boards, calls, at, w, chosen)
    ensures Joined(boards, calls + 1, at, w, chosen)
  {
    forall k, record | WasRecord(boards, calls, k, record)
      ensures WasRecord(boards, calls + 1, k, record)
    {
    }
  }

  lemma PageRecords(boards: nat -> Board, i: nat, at: At, page: Page)
    requires boards(i).version == boards(0).version && RecordsPage(boards(i), at, page)
    ensures forall k :: 0 <= k < |page.records| ==>
              WasRecord(boards, i + 1, Position(boards(i), at) + k, page.records[k])
  {
    var p := Position(boards(i), at);
    forall k | 0 <= k < |page.records|
      ensures WasRecord(boards, i + 1, p + k, page.records[k])
    {
      assert page.records[k] == Nth(boards(i), p + k).record;
      assert RecordAt(boards, i, p + k, page.records[k]);
    }
  }

  /** A page of whole records goes from one cursor to the next, or to the end. */
  lemma RecordsGoOn(boards: nat -> Board, i: nat, at: At, page: Page, chosen: seq<Bytes>)
    requires boards(i).version == boards(0).version && SameItems(boards(0), boards(i))
    requires RecordsPage(boards(i), at, page) && Taken(boards, i + 1, at, chosen)
    ensures
      forall k :: 0 <= k < |chosen + page.records| ==> WasRecord(boards, i + 1, k, (chosen + page.records)[k])
    ensures page.more ==>
              && page.next.Some? && page.next.value.offset == 0
              && Taken(boards, i + 1, page.next.value, chosen + page.records)
    ensures !page.more ==> |chosen + page.records| == Total(boards(0))
    ensures page.more && page.records == [] ==> at.phase == Deep && page.next.value.phase == Live
  {
    SamePosition(boards(0), boards(i), at);
    PageRecords(boards, i, at, page);
    if page.more {
      SamePosition(boards(0), boards(i), page.next.value);
    }
  }

  /** The page of the i-th call holds a part that an attempt can take after the bytes written. */
  ghost predicate PartFits(boards: nat -> Board, i: nat, at: At, page: Page, chosen: seq<Bytes>, sum: Bytes,
                           digest: Option<Digest>) {
    && boards(i).version == boards(0).version && SameItems(boards(0), boards(i))
    && PartPage(boards(i), at, page)
    && Taken(boards, i + 1, at, chosen) && Partway(boards, i + 1, at, |chosen|, sum, digest)
  }

  /** The snapshot that a part was cut from goes on from the bytes already written. */
  lemma PartGoesOn(boards: nat -> Board, i: nat, at: At, page: Page, chosen: seq<Bytes>, sum: Bytes,
                   digest: Option<Digest>)
    requires PartFits(boards, i, at, page, chosen, sum, digest)
    ensures |chosen| < Total(boards(0))
    ensures
      var part := page.part.value;
      && WasRecord(boards, i + 1, |chosen|, part.digest.of)
      && |sum| + |part.data| <= |part.digest.of| && sum + part.data == part.digest.of[..|sum| + |part.data|]
      && (part.final <==> |sum| + |part.data| == |part.digest.of|)
  {
    SamePosition(boards(0), boards(i), at);
    var record, data := Nth(boards(i), Position(boards(i), at)).record, page.part.value.data;
    assert RecordAt(boards, i, |chosen|, record);
    assert record[..at.offset] + record[at.offset..at.offset + |data|] == record[..at.offset + |data|];
    assert at.offset == 0 ==> sum == record[..at.offset];
  }

  lemma NextPart(boards: nat -> Board, i: nat, at: At, page: Page, chosen: seq<Bytes>, sum: Bytes,
                 digest: Option<Digest>)
    requires PartFits(boards, i, at, page, chosen, sum, digest) && !page.part.value.final
    ensures
      var part, next := page.part.value, page.next.value;
      && Taken(boards, i + 1, next, chosen)
      && Partway(boards, i + 1, next, |chosen|, sum + part.data, Some(part.digest))
      && next.phase == at.phase && next.offset > 0
      && Position(boards(0), next) == Position(boards(0), at)
      && (at.offset > 0 ==> Left(Some(part.digest), next) < Left(digest, at))
  {
    PartGoesOn(boards, i, at, page, chosen, sum, digest);
  }

  lemma LastPart(boards: nat -> Board, i: nat, at: At, page: Page, chosen: seq<Bytes>, sum: Bytes,
                 digest: Option<Digest>)
    requires PartFits(boards, i, at, page, chosen, sum, digest) && page.part.value.final
    ensures
      var part, next := page.part.value, page.next.value;
      && sum + part.data == part.digest.of
      && Taken(boards, i + 1, next, chosen + [part.digest.of]) && next.offset == 0
      && Position(boards(0), at) < Position(boards(0), next)
  {
    PartGoesOn(boards, i, at, page, chosen, sum, digest);
    var record := page.part.value.digest.of;
    assert record[..|record|] == record;
    SamePosition(boards(0), boards(i), at);
    SamePosition(boards(0), boards(i), page.next.value);
  }

  /** What an attempt has written, and the record that it is in the middle of. */
  datatype Written = Written(content: Bytes, records: nat, sum: Bytes, digest: Option<Digest>)

  ghost predicate Joined(boards: nat -> Board, calls: nat, at: At, w: Written, chosen: seq<Bytes>) {
    && Taken(boards, calls, at, chosen) && Partway(boards, calls, at, |chosen|, w.sum, w.digest)
    && w.content == Lines(chosen) + w.sum && w.records == |chosen|
  }

  /** A cursor that lies further on. */
  ghost predicate Further(first: Board, at: At, digest: Option<Digest>, next: At,
                          nextDigest: Option<Digest>) {
    var p, q := Position(first, at), Position(first, next);
    || p < q
    || (p == q && at.phase == Deep && next.phase == Live)
    || (p == q && at.phase == next.phase && at.offset == 0 && next.offset > 0)
    || (p == q && at.phase == next.phase && at.offset > 0 && next.offset > 0
        && Left(nextDigest, next) < Left(digest, at))
  }

  /** What a cursor has not passed: the records, and the switch from the deep records to the live. */
  ghost function Ahead(first: Board, at: At): nat {
    2 * (Total(first) - Position(first, at)) + if at.phase == Deep then 1 else 0
  }

  /** Less is left to read. */
  ghost predicate Less(first: Board, at: At, digest: Option<Digest>, next: At, nextDigest: Option<Digest>) {
    || Ahead(first, next) < Ahead(first, at)
    || (Ahead(first, next) == Ahead(first, at) && at.offset == 0 && next.offset > 0)
    || (Ahead(first, next) == Ahead(first, at) && at.offset > 0 && next.offset > 0
        && Left(nextDigest, next) < Left(digest, at))
  }

  lemma FurtherIsLess(first: Board, at: At, digest: Option<Digest>, next: At, nextDigest: Option<Digest>)
    requires Further(first, at, digest, next, nextDigest)
    ensures Less(first, at, digest, next, nextDigest)
  {
  }

  /** What an attempt has written after a part. */
  ghost function AfterPart(w: Written, part: Part): Written {
    if part.final then Written(w.content + part.data + [NEWLINE], w.records + 1, [], Some(part.digest))
    else Written(w.content + part.data, w.records, w.sum + part.data, Some(part.digest))
  }

  /** A part of a page is always the one that the attempt waits for. */
  lemma PartIsNext(boards: nat -> Board, i: nat, at: At, page: Page, w: Written, chosen: seq<Bytes>)
    requires PartFits(boards, i, at, page, chosen, w.sum, w.digest)
    ensures
      var part := page.part.value;
      && part.offset == |w.sum| && page.records == [] && |part.data| > 0
      && (|w.sum| > 0 ==> w.digest == Some(part.digest))
      && (part.final ==> w.sum + part.data == part.digest.of)
      && page.more && page.next.Some?
  {
    if page.part.value.final {
      LastPart(boards, i, at, page, chosen, w.sum, w.digest);
    }
  }

  lemma LastPartJoins(boards: nat -> Board, i: nat, at: At, page: Page, w: Written, chosen: seq<Bytes>)
    requires PartFits(boards, i, at, page, chosen, w.sum, w.digest) && page.part.value.final
    requires w.content == Lines(chosen) + w.sum && w.records == |chosen|
    ensures
      var part := page.part.value;
      Joined(boards, i + 1, page.next.value, AfterPart(w, part), chosen + [part.digest.of])
  {
    var part := page.part.value;
    Associates(Lines(chosen), w.sum, part.data);
    LastPart(boards, i, at, page, chosen, w.sum, w.digest);
    LinesSnoc(chosen, part.digest.of);
  }

  lemma NextPartJoins(boards: nat -> Board, i: nat, at: At, page: Page, w: Written, chosen: seq<Bytes>)
    requires PartFits(boards, i, at, page, chosen, w.sum, w.digest) && !page.part.value.final
    requires w.content == Lines(chosen) + w.sum && w.records == |chosen|
    ensures Joined(boards, i + 1, page.next.value, AfterPart(w, page.part.value), chosen)
  {
    Associates(Lines(chosen), w.sum, page.part.value.data);
    NextPart(boards, i, at, page, chosen, w.sum, w.digest);
  }

  lemma PartGoesFurther(boards: nat -> Board, i: nat, at: At, page: Page, w: Written, chosen: seq<Bytes>)
    requires PartFits(boards, i, at, page, chosen, w.sum, w.digest)
    ensures Further(boards(0), at, w.digest, page.next.value, AfterPart(w, page.part.value).digest)
  {
    if page.part.value.final {
      LastPart(boards, i, at, page, chosen, w.sum, w.digest);
    } else {
      NextPart(boards, i, at, page, chosen, w.sum, w.digest);
    }
  }

  /** A page with a part. */
  method TakePart(ghost boards: nat -> Board, ghost i: nat, ghost at: At, page: Page, w: Written,
                  ghost chosen: seq<Bytes>)
    returns (stop: Outcome, v: Written, ghost taken: seq<Bytes>)
    requires boards(i).version == boards(0).version && SameItems(boards(0), boards(i))
    requires PartPage(boards(i), at, page) && Joined(boards, i + 1, at, w, chosen)
    ensures stop == Ongoing
    ensures page.more && page.next.Some?
    ensures Joined(boards, i + 1, page.next.value, v, taken)
    ensures Further(boards(0), at, w.digest, page.next.value, v.digest)
  {
    PartIsNext(boards, i, at, page, w, chosen);
    PartGoesFurther(boards, i, at, page, w, chosen);
    if page.part.value.final {
      LastPartJoins(boards, i, at, page, w, chosen);
      taken := chosen + [page.part.value.digest.of];
    } else {
      NextPartJoins(boards, i, at, page, w, chosen);
      taken := chosen;
    }
    stop, v := WritePart(page, w);
  }

  /** Checks the part and writes its bytes; after the last one the line is whole. */
  method WritePart(page: Page, w: Written) returns (stop: Outcome, v: Written)
    requires page.part.Some?
    ensures
      var part := page.part.value;
      stop == (if part.offset != |w.sum| || |page.records| > 0 || |part.data| == 0 then OutOfOrder
               else if |w.sum| > 0 && w.digest != Some(part.digest) then Changed
               else if part.final && w.sum + part.data != part.digest.of then OutOfOrder
               else Ongoing)
    ensures stop == Ongoing ==> v == AfterPart(w, page.part.value)
  {
    var part := page.part.value;
    v := w;
    if part.offset != |w.sum| || |page.records| > 0 || |part.data| == 0 {
      return OutOfOrder, v;
    }
    if |w.sum| == 0 {
      v := v.(digest := Some(part.digest));
    }
    if Some(part.digest) != v.digest {
      return Changed, v;
    }
    v := v.(content := v.content + part.data, sum := v.sum + part.data);
    if part.final {
      if Some(Digest(v.sum)) != v.digest {
        return OutOfOrder, v;
      }
      v := Written(v.content + [NEWLINE], v.records + 1, [], v.digest);
    }
    return Ongoing, v;
  }

  /** The whole export: each item of the one board version exactly once, in order, and whole,
      that is the bytes of one snapshot of its record. */
  ghost predicate Complete(boards: nat -> Board, calls: nat, content: Bytes, records: nat, chosen: seq<Bytes>) {
    && records == |chosen| == Total(boards(0))
    && content == Lines(chosen)
    && forall k :: 0 <= k < |chosen| ==> WasRecord(boards, calls, k, chosen[k])
  }

  /** A page of whole records. */
  method TakeRecords(ghost boards: nat -> Board, ghost i: nat, ghost at: At, page: Page, w: Written,
                     ghost chosen: seq<Bytes>)
    returns (v: Written, ghost taken: seq<Bytes>)
    requires boards(i).version == boards(0).version && SameItems(boards(0), boards(i))
    requires RecordsPage(boards(i), at, page) && Joined(boards, i + 1, at, w, chosen) && |w.sum| == 0
    ensures v.sum == w.sum && v.digest == w.digest
    ensures page.more ==>
              && page.next.Some? && Joined(boards, i + 1, page.next.value, v, taken)
              && Further(boards(0), at, w.digest, page.next.value, v.digest)
    ensures !page.more ==> Complete(boards, i + 1, v.content, v.records, taken)
  {
    RecordsGoOn(boards, i, at, page, chosen);
    taken := chosen + page.records;
    assert w.content == Lines(chosen);
    var content := WriteRecords(w.content, page.records, chosen);
    v := w.(content := content, records := w.records + |page.records|);
  }

  /** One page: the writing of what it holds, and whether the attempt goes on at its cursor. */
  method TakePage(ghost boards: nat -> Board, ghost i: nat, ghost at: At, page: Page, w: Written,
                  ghost chosen: seq<Bytes>)
    returns (stop: Outcome, v: Written, ghost taken: seq<Bytes>)
    requires boards(i).version == boards(0).version && SameItems(boards(0), boards(i))
    requires GoodPage(boards(i), at, page) && Joined(boards, i + 1, at, w, chosen)
    ensures stop == Ongoing
    ensures page.more ==>
              && page.next.Some? && Joined(boards, i + 1, page.next.value, v, taken)
              && Further(boards(0), at, w.digest, page.next.value, v.digest)
    ensures !page.more ==> Complete(boards, i + 1, v.content, v.records, taken) && |v.sum| == 0
  {
    if page.part.Some? {
      stop, v, taken := TakePart(boards, i, at, page, w, chosen);
    } else if |w.sum| > 0 {
      return OutOfOrder, w, chosen;
    } else {
      v, taken := TakeRecords(boards, i, at, page, w, chosen);
      stop := Ongoing;
    }
  }

  /** The calls made had one version, but for the last, or the version stayed and a live record of the last
      call is not what it was at an earlier one. */
  ghost predicate ChangedAt(boards: nat -> Board, calls: nat) {
    && calls > 1 && OneVersion(boards, calls - 1)
    && (boards((calls - 1) as nat).version != boards(0).version || LiveDiffers(boards, calls - 1))
  }

  ghost predicate OneVersion(boards: nat -> Board, calls: nat) {
    forall i: nat {:trigger boards(i)} :: i < calls ==> boards(i).version == boards(0).version
  }

  /** Between an earlier call and the i-th one. */
  ghost predicate LiveDiffers(boards: nat -> Board, i: nat) {
    exists j: nat, k: nat, record :: j < i && LiveRecordAt(boards, j, k, record) && !RecordAt(boards, i, k, record)
  }

  ghost predicate LiveRecordAt(boards: nat -> Board, j: nat, k: nat, record: Bytes) {
    |boards(0).deep| <= k && RecordAt(boards, j, k, record)
  }

  /** An attempt's cursor is refused only when an earlier call of the attempt read another version, or
      another state of the live record that the cursor is inside of. */
  lemma ChangedMeansChanged(boards: nat -> Board, i: nat, at: At, w: Written, chosen: seq<Bytes>)
    requires Boards(boards) && Joined(boards, i, at, w, chosen) && at.offset > 0
    requires
      || at.version != Some(boards(i).version)
      || (Position(boards(i), at) < Total(boards(i))
          && at.digest != Some(Digest(Nth(boards(i), Position(boards(i), at)).record)))
    ensures i > 0 && (boards(i).version != boards(0).version || LiveDiffers(boards, i))
  {
    var record := w.digest.value.of;
    var j: nat :| j < i && RecordAt(boards, j, |chosen|, record);
    if boards(i).version == boards(0).version {
      SamePosition(boards(0), boards(i), at);
      if |chosen| < |boards(0).deep| {
        DeepIsSame(boards, i, j, |chosen|, record);
      }
      assert LiveRecordAt(boards, j, |chosen|, record);
    }
  }

  lemma DeepIsSame(boards: nat -> Board, i: nat, j: nat, k: nat, record: Bytes)
    requires Boards(boards) && RecordAt(boards, j, k, record) && boards(i).version == boards(0).version
    requires k < |boards(0).deep|
    ensures RecordAt(boards, i, k, record)
  {
    assert SameItems(boards(0), boards(i)) && SameItems(boards(0), boards(j));
  }

  /** An attempt's cursor is never malformed and never outside its record. */
  lemma CursorFits(boards: nat -> Board, i: nat, at: At, w: Written, chosen: seq<Bytes>)
    requires Boards(boards) && Joined(boards, i, at, w, chosen) && at.offset > 0
    ensures at.version.Some? && at.digest.Some?
    ensures at.version == Some(boards(i).version) ==> !Outside(boards(i), at)
  {
    if at.version == Some(boards(i).version) {
      SamePassed(boards(0).live, boards(i).live, at.after);
    }
  }

  lemma Starts(boards: nat -> Board)
    requires Boards(boards)
    ensures Joined(boards, 0, START, Written([], 0, [], None), [])
  {
    PassedNothing(boards(0).deep);
  }

  /** What an attempt may end with after its calls: the whole export of the one version that all of them
      read, a refusal for an unreadable line that the last call met, or a change that the last call met. */
  ghost predicate Justified(boards: nat -> Board, calls: nat, r: Outcome, chosen: seq<Bytes>) {
    match r
    case File(content, records, version) =>
      version == boards(0).version && OneVersion(boards, calls) && Complete(boards, calls, content, records, chosen)
    case Changed => ChangedAt(boards, calls)
    case Refused => calls > 0 && boards((calls - 1) as nat).broken != {}
    case OutOfOrder => false
    case Ongoing => true
  }

  /** The i-th call of an attempt: its page, when it is of the version of the first one. */
  method AskPage(boards: nat -> Board, i: nat, at: At, ghost w: Written, asked: Option<nat>, size: nat,
                 ghost chosen: seq<Bytes>)
    returns (stop: Outcome, page: Option<Page>, version: Option<nat>)
    requires Boards(boards) && size > 0 && Joined(boards, i, at, w, chosen) && OneVersion(boards, i)
    requires asked == if i == 0 then None else Some(boards(0).version)
    ensures !stop.File? && Justified(boards, i + 1, stop, chosen)
    ensures stop.Ongoing? ==>
              && page.Some? && GoodPage(boards(i), at, page.value)
              && version == Some(boards(0).version) == Some(boards(i).version)
              && page.value.version == boards(0).version
  {
    page, version := None, asked;
    var reply := DecisionExport(boards(i), at, 0, size);
    if !reply.Read? {
      if at.offset > 0 {
        CursorFits(boards, i, at, w, chosen);
      }
      if reply == ExportChanged {
        ChangedMeansChanged(boards, i, at, w, chosen);
        return Changed, page, version;
      }
      return Refused, page, version;
    }
    if version == None {
      version := Some(reply.page.version);
    }
    if Some(reply.page.version) != version {
      return Changed, page, version;
    }
    return Ongoing, Some(reply.page), version;
  }

  /** A call that read the first version. */
  lemma CallFits(boards: nat -> Board, i: nat, at: At, w: Written, chosen: seq<Bytes>)
    requires Boards(boards) && Joined(boards, i, at, w, chosen) && OneVersion(boards, i)
    requires boards(i).version == boards(0).version
    ensures SameItems(boards(0), boards(i)) && Joined(boards, i + 1, at, w, chosen) && OneVersion(boards, i + 1)
  {
    MoreCalls(boards, i, at, w, chosen);
  }

  /** The i-th call of an attempt, and the writing of its page; made counts the calls. */
  method AttemptCall(boards: nat -> Board, i: nat, at: At, w: Written, asked: Option<nat>, size: nat,
                     ghost chosen: seq<Bytes>)
    returns (r: Outcome, made: nat, next: At, v: Written, version: Option<nat>, ghost taken: seq<Bytes>)
    requires Boards(boards) && size > 0 && Joined(boards, i, at, w, chosen) && OneVersion(boards, i)
    requires asked == if i == 0 then None else Some(boards(0).version)
    ensures made == i + 1 && Justified(boards, made, r, taken)
    ensures r.Ongoing? ==>
              && version == Some(boards(0).version) && Joined(boards, made, next, v, taken) && OneVersion(boards, made)
              && Less(boards(0), at, w.digest, next, v.digest)
  {
    made, next, v, taken := i + 1, at, w, chosen;
    var answer;
    r, answer, version := AskPage(boards, i, at, w, asked, size, chosen);
    if !r.Ongoing? {
      return;
    }
    var page := answer.value;
    CallFits(boards, i, at, w, chosen);
    r, v, taken := TakePage(boards, i, at, page, w, chosen);
    if !r.Ongoing? {
      return;
    }
    if !page.more {
      r := if |v.sum| > 0 then OutOfOrder else File(v.content, v.records, version.value);
    } else if page.next.None? {
      r := OutOfOrder;
    } else {
      next := page.next.value;
      FurtherIsLess(boards(0), at, w.digest, next, v.digest);
    }
  }

  /** exportAttempt: the i-th call reads boards(i). It always ends; without a change and an
      unreadable line it succeeds, and then the file is the whole export. */
  method ExportAttempt(boards: nat -> Board, size: nat)
    returns (r: Outcome, ghost chosen: seq<Bytes>, ghost calls: nat)
    requires Boards(boards) && size > 0
    ensures Justified(boards, calls, r, chosen) && !r.Ongoing?
  {
    chosen := [];
    var at, w, i: nat, version: Option<nat> := START, Written([], 0, [], None), 0, None;
    Starts(boards);
    r := Ongoing;
    ghost var first := boards(0);
    while r.Ongoing?
      invariant boards(0) == first
      invariant r.Ongoing? ==> version == if i == 0 then None else Some(boards(0).version)
      invariant r.Ongoing? ==> Joined(boards, i, at, w, chosen) && OneVersion(boards, i)
      invariant Justified(boards, i, r, chosen)
      decreases r.Ongoing?, Ahead(first, at), at.offset == 0, Left(w.digest, at)
    {
      r, i, at, w, version, chosen := AttemptCall(boards, i, at, w, version, size, chosen);
    }
    calls := i;
  }

  ghost predicate MetChange(boards: nat -> Board) {
    exists calls: nat :: ChangedAt(boards, calls)
  }

  /** decisionExport: an attempt that met a changed board starts again, a bounded number of
      times. attempts(n)(i) is the board at the i-th call of attempt n. */
  method DecisionExportFile(attempts: nat -> (nat -> Board), size: nat)
    returns (r: Outcome, ghost chosen: seq<Bytes>, ghost n: nat, ghost calls: nat)
    requires (forall k: nat {:trigger attempts(k)} :: Boards(attempts(k))) && size > 0
    ensures n < 4 && Justified(attempts(n), calls, r, chosen) && !r.Ongoing?
    ensures forall m: nat :: m < n ==> MetChange(attempts(m))
    ensures r == Changed ==> n == 3
  {
    r, chosen, n, calls := Changed, [], 0, 0;
    for attempt := 0 to ATTEMPTS
      invariant attempt > 0 ==> n == attempt - 1 && Justified(attempts(n), calls, r, chosen) && r == Changed
      invariant forall m: nat :: m < attempt ==> MetChange(attempts(m))
    {
      n := attempt;
      assert Boards(attempts(attempt));
      r, chosen, calls := ExportAttempt(attempts(attempt), size);
      if r != Changed {
        return;
      }
    }
  }

  /** The lines of deep-archived items are always those of the one board: only acknowledged live
      records can be of different moments. */
  lemma DeepRecordsAreFixed(boards: nat -> Board, calls: nat, k: nat, record: Bytes)
    requires Boards(boards) && k < |boards(0).deep| && WasRecord(boards, calls, k, record)
    ensures record == boards(0).deep[k].record
  {
    var i: nat :| i < calls && RecordAt(boards, i, k, record);
    assert SameItems(boards(0), boards(i));
  }
}
