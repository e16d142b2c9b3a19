/** The bounded read of a session record's end (recordTurnRead and its callers,
    internal/core/cycle_claude.go), against the simple scan of the whole file. */
module TailScan {
  import opened Bytes
  import opened Splitting

  const TAIL_MIN := 0x10_0000
  const TAIL_MAX := 0x100_0000
  const READS := 3

  /** What a family's reader says of one line: its time when it has one, whether it starts a
      turn, and whether it can be read. */
  datatype Reading = Reading(at: int, timed: bool, starts: bool, ok: bool)

  /** A record format: how a line reads, and whether it is only white space. */
  datatype Format = Format(turn: Bytes -> Reading, blank: Bytes -> bool)

  datatype Outcome =
    | Turn(found: bool)
    | Partial
    | TimeGoesBack
    | NoMark
    | Unreadable
    | Changed
    | IndexPanic

  predicate Marks(f: Format, line: Bytes, at: int) {
    f.turn(line).ok && f.turn(line).timed && f.turn(line).at <= at
  }

  /** The last of the first n lines that marks the report, or -1. */
  function LastMark(f: Format, lines: seq<Bytes>, n: nat, at: int): (m: int)
    requires n <= |lines|
    ensures -1 <= m < n
    ensures m >= 0 ==> Marks(f, lines[m], at)
    ensures forall i :: m < i < n ==> !Marks(f, lines[i], at)
  {
    if n == 0 then -1
    else if Marks(f, lines[n - 1], at) then n - 1
    else LastMark(f, lines, n - 1, at)
  }

  predicate HoldsMark(f: Format, lines: seq<Bytes>, at: int) {
    LastMark(f, lines, |lines|, at) >= 0
  }

  /** The first line from index i on that decides: a turn, or one that cannot be read. */
  function Scan(f: Format, lines: seq<Bytes>, i: nat): Outcome
    requires i <= |lines|
    decreases |lines| - i
  {
    if i == |lines| then Turn(false)
    else if f.blank(lines[i]) then Scan(f, lines, i + 1)
    else if !f.turn(lines[i]).ok then Unreadable
    else if f.turn(lines[i]).starts then Turn(true)
    else Scan(f, lines, i + 1)
  }

  /** The simple scan: the last mark of the whole file, and the lines after it. */
  function WholeScan(f: Format, data: Bytes, at: int): Outcome {
    Decide(f, Split(data, NEWLINE), at)
  }

  function Decide(f: Format, lines: seq<Bytes>, at: int): Outcome
    requires |lines| > 0
  {
    if !f.blank(lines[|lines| - 1]) then Partial else Scan(f, lines, LastMark(f, lines, |lines|, at) + 1)
  }

  predicate Timed(f: Format, line: Bytes) {
    f.turn(line).ok && f.turn(line).timed
  }

  /** No timed one of the first n lines is earlier than one before it. */
  ghost predicate TimesInOrder(f: Format, lines: seq<Bytes>, n: nat)
    requires n <= |lines|
  {
    forall i, j :: 0 <= i < j < n && Timed(f, lines[i]) && Timed(f, lines[j]) ==>
      f.turn(lines[i]).at <= f.turn(lines[j]).at
  }

  /** The lines of a window of the file's end, without a first part that may be cut. */
  function TailLines(data: Bytes, window: nat): seq<Bytes> {
    if |data| <= window then Split(data, NEWLINE) else Split(data[|data| - window..], NEWLINE)[1..]
  }

  lemma TailIsSuffix(data: Bytes, window: nat) returns (head: seq<Bytes>)
    ensures Split(data, NEWLINE) == head + TailLines(data, window)
    ensures |data| <= window ==> head == []
  {
    if |data| <= window {
      head := [];
    } else {
      var a, b := data[..|data| - window], data[|data| - window..];
      assert data == a + b;
      SplitOfTail(a, b, NEWLINE);
      var whole := Split(data, NEWLINE);
      head := whole[..|whole| - |Split(b, NEWLINE)| + 1];
    }
  }

  lemma {:induction false} LastMarkOfTail(f: Format, head: seq<Bytes>, tail: seq<Bytes>, n: nat, at: int)
    requires n <= |tail|
    ensures LastMark(f, head + tail, |head| + n, at) ==
            if LastMark(f, tail, n, at) >= 0 then |head| + LastMark(f, tail, n, at)
            else LastMark(f, head + tail, |head|, at)
  {
    if n > 0 {
      LastMarkOfTail(f, head, tail, n - 1, at);
    }
  }

  lemma {:induction false} ScanOfTail(f: Format, head: seq<Bytes>, tail: seq<Bytes>, i: nat)
    requires i <= |tail|
    ensures Scan(f, head + tail, |head| + i) == Scan(f, tail, i)
    decreases |tail| - i
  {
    if i < |tail| {
      ScanOfTail(f, head, tail, i + 1);
    }
  }

  /** Lines at the end that hold the mark decide as all the lines do. */
  lemma SuffixDecides(f: Format, head: seq<Bytes>, tail: seq<Bytes>, at: int)
    requires |tail| > 0
    requires head == [] || HoldsMark(f, tail, at)
    ensures Decide(f, head + tail, at) == Decide(f, tail, at)
  {
    LastMarkOfTail(f, head, tail, |tail|, at);
    ScanOfTail(f, head, tail, LastMark(f, tail, |tail|, at) + 1);
  }

  /** A window that holds the mark, or the whole file, decides as the whole file does. */
  lemma WindowDecides(f: Format, data: Bytes, at: int, window: nat)
    requires |TailLines(data, window)| > 0
    ensures |data| <= window || HoldsMark(f, TailLines(data, window), at) ==>
              WholeScan(f, data, at) == Decide(f, TailLines(data, window), at)
    ensures !f.blank(TailLines(data, window)[|TailLines(data, window)| - 1]) ==> WholeScan(f, data, at) == Partial
  {
    var head := TailIsSuffix(data, window);
    var tail := TailLines(data, window);
    if head == [] || HoldsMark(f, tail, at) {
      SuffixDecides(f, head, tail, at);
    }
    assert (head + tail)[|head + tail| - 1] == tail[|tail| - 1];
  }

  /** A narrower window's lines are the last ones of a wider one's. */
  lemma NarrowIsSuffix(data: Bytes, narrow: nat, wide: nat) returns (head: seq<Bytes>)
    requires narrow <= wide
    ensures TailLines(data, wide) == head + TailLines(data, narrow)
  {
    if |data| <= wide {
      head := TailIsSuffix(data, narrow);
    } else {
      var b := data[|data| - narrow..];
      head := LaterPart(data[|data| - wide..|data| - narrow], b);
      assert data[|data| - wide..] == data[|data| - wide..|data| - narrow] + b;
    }
  }

  lemma LaterPart(a: Bytes, b: Bytes) returns (head: seq<Bytes>)
    ensures Split(a + b, NEWLINE)[1..] == head + Split(b, NEWLINE)[1..]
  {
    var w, n := Split(a + b, NEWLINE), Split(b, NEWLINE);
    SplitOfTail(a, b, NEWLINE);
    var k := |w| - |n| + 1;
    head := w[1..k];
    assert w[1..] == w[1..k] + w[k..];
  }

  /** A wider window holds every line of a narrower one. */
  lemma WiderHolds(f: Format, data: Bytes, at: int, narrow: nat, wide: nat)
    requires narrow <= wide
    ensures HoldsMark(f, TailLines(data, narrow), at) ==> HoldsMark(f, TailLines(data, wide), at)
    ensures |TailLines(data, narrow)| <= |TailLines(data, wide)|
  {
    var head := NarrowIsSuffix(data, narrow, wide);
    var tail := TailLines(data, narrow);
    LastMarkOfTail(f, head, tail, |tail|, at);
  }

  // What one read answers

  /** The sizes of a read's windows: 1 MiB, doubled up to 16. */
  predicate Width(w: nat) {
    w == 1_048_576 || w == 2_097_152 || w == 4_194_304 || w == 8_388_608 || w == 16_777_216
  }

  /** The window holds the whole file or the mark. */
  predicate Suffices(f: Format, data: Bytes, at: int, w: nat) {
    |data| <= w || HoldsMark(f, TailLines(data, w), at)
  }

  /** The read gets to the window: no narrower one suffices. */
  ghost predicate Visits(f: Format, data: Bytes, at: int, w: nat) {
    Width(w) && forall v: nat :: Width(v) && v < w ==> !Suffices(f, data, at, v)
  }

  /** The times of a window's lines go back; the first of them is taken to follow the millisecond before
      1970. */
  ghost predicate TimesGoBack(f: Format, lines: seq<Bytes>) {
    !TimesInOrder(f, lines, |lines|) || EarlyTime(f, lines, |lines|)
  }

  ghost predicate EarlyTime(f: Format, lines: seq<Bytes>, n: nat)
    requires n <= |lines|
  {
    exists i :: 0 <= i < n && Timed(f, lines[i]) && f.turn(lines[i]).at < -1
  }

  ghost predicate SeesTimesGoBack(f: Format, data: Bytes, at: int) {
    exists w: nat :: Visits(f, data, at, w) && TimesGoBack(f, TailLines(data, w))
  }

  /** The first window holds no line end at all. The read then takes the last of no lines. */
  ghost predicate NoLineEnd(data: Bytes) {
    |data| > 1_048_576 && NEWLINE !in data[|data| - 1_048_576..]
  }

  ghost predicate LastIsPartial(f: Format, data: Bytes) {
    !f.blank(Split(data, NEWLINE)[|Split(data, NEWLINE)| - 1])
  }

  /** The answer of one read of the file as it was at the read's begin; grown says that its size was
      another one at the end. */
  ghost function ReadAnswer(f: Format, data: Bytes, at: int, ordered: bool, grown: bool): Outcome {
    if NoLineEnd(data) then IndexPanic
    else if LastIsPartial(f, data) then Partial
    else if ordered && SeesTimesGoBack(f, data, at) then TimeGoesBack
    else if !Suffices(f, data, at, 16_777_216) then NoMark
    else if WholeScan(f, data, at) == Turn(false) && grown then Changed
    else WholeScan(f, data, at)
  }

  /** One read of the file's end. Its answer is the whole file's, unless the first window holds no line
      end, the times of a window go back, the mark is out of reach, or the file grew. */
  method RecordTurnRead(f: Format, data: Bytes, at: int, ordered: bool, grown: bool) returns (r: Outcome)
    ensures r == ReadAnswer(f, data, at, ordered, grown)
  {
    var window: nat := TAIL_MIN;
    var decided := false;
    r := NoMark;
    while !decided
      invariant Width(window)
      invariant !decided ==> Undecided(f, data, at, ordered, window)
      invariant decided ==> r == ReadAnswer(f, data, at, ordered, grown)
      decreases !decided, TAIL_MAX - window
    {
      decided, r := ReadWindow(f, data, at, ordered, grown, window);
      if !decided {
        window := window * 2;
      }
    }
  }

  /** No narrower window decided. */
  ghost predicate Undecided(f: Format, data: Bytes, at: int, ordered: bool, window: nat) {
    && (window > TAIL_MIN ==> !NoLineEnd(data) && !LastIsPartial(f, data))
    && forall v: nat :: Width(v) && v < window ==>
         !Suffices(f, data, at, v) && (ordered ==> !TimesGoBack(f, TailLines(data, v)))
  }

  /** One window of a read; it does not decide when it is too narrow for the mark. */
  method ReadWindow(f: Format, data: Bytes, at: int, ordered: bool, grown: bool, window: nat)
    returns (decided: bool, r: Outcome)
    requires Width(window) && Undecided(f, data, at, ordered, window)
    ensures decided ==> r == ReadAnswer(f, data, at, ordered, grown)
    ensures !decided ==> window < TAIL_MAX && Undecided(f, data, at, ordered, 2 * window)
  {
    var lines := Window(data, window);
    NoLinesOnlyAtFirst(f, data, at, window);
    if |lines| == 0 {
      return true, IndexPanic;
    }
    LastIsLast(f, data, window);
    if !f.blank(lines[|lines| - 1]) {
      return true, Partial;
    }
    var mark, back := FindMark(f, lines, at, ordered);
    if back {
      assert Visits(f, data, at, window);
      return true, TimeGoesBack;
    }
    if mark < 0 && |data| > window {
      if window >= TAIL_MAX {
        NeverBack(f, data, at, ordered, window);
      }
      return window >= TAIL_MAX, NoMark;
    }
    Decides(f, data, at, ordered, grown, window);
    r := ScanLines(f, lines, mark + 1);
    if r == Turn(false) && grown {
      r := Changed;
    }
    decided := true;
  }

  /** A window that suffices decides as the read answers. */
  lemma Decides(f: Format, data: Bytes, at: int, ordered: bool, grown: bool, window: nat)
    requires Width(window) && Undecided(f, data, at, ordered, window) && Suffices(f, data, at, window)
    requires ordered ==> !TimesGoBack(f, TailLines(data, window))
    requires |TailLines(data, window)| > 0 && !NoLineEnd(data) && !LastIsPartial(f, data)
    ensures
      var r := Decide(f, TailLines(data, window), at);
      ReadAnswer(f, data, at, ordered, grown) == if r == Turn(false) && grown then Changed else r
  {
    NeverBack(f, data, at, ordered, window);
    WindowDecides(f, data, at, window);
    WiderHolds(f, data, at, window, TAIL_MAX);
  }

  /** A window that suffices, or is the widest, and whose times are in order ends the order check. */
  lemma NeverBack(f: Format, data: Bytes, at: int, ordered: bool, window: nat)
    requires Width(window) && Undecided(f, data, at, ordered, window)
    requires ordered ==> !TimesGoBack(f, TailLines(data, window))
    requires Suffices(f, data, at, window) || window == TAIL_MAX
    ensures ordered ==> !SeesTimesGoBack(f, data, at)
  {
    forall w: nat | ordered && Visits(f, data, at, w)
      ensures !TimesGoBack(f, TailLines(data, w))
    {
      assert w > window ==> !Suffices(f, data, at, window);
    }
  }

  lemma LastIsLast(f: Format, data: Bytes, window: nat)
    requires |TailLines(data, window)| > 0
    ensures f.blank(TailLines(data, window)[|TailLines(data, window)| - 1]) <==> !LastIsPartial(f, data)
  {
    var head := TailIsSuffix(data, window);
    var tail := TailLines(data, window);
    assert (head + tail)[|head + tail| - 1] == tail[|tail| - 1];
  }

  /** An answer about turns is the whole file's, and "no turn" that of a file that did not grow; without
      the order check the read gives one exactly when the window of 16 MiB holds the file or the mark. */
  lemma TurnAnswers(f: Format, data: Bytes, at: int, ordered: bool, grown: bool)
    ensures
      var r := ReadAnswer(f, data, at, ordered, grown);
      && (r.Turn? ==> r == WholeScan(f, data, at))
      && (r == Turn(false) ==> !grown)
      && (!ordered ==>
            (r.Turn? <==> !NoLineEnd(data) && Suffices(f, data, at, 16_777_216) && WholeScan(f, data, at).Turn?
                          && (WholeScan(f, data, at).found || !grown)))
  {
  }

  method Window(data: Bytes, window: nat) returns (lines: seq<Bytes>)
    ensures lines == TailLines(data, window)
  {
    var offset := if |data| < window then 0 else |data| - window;
    lines := Split(data[offset..], NEWLINE);
    if offset > 0 {
      lines := lines[1..];
    } else {
      assert data[0..] == data;
    }
  }

  lemma NoLinesOnlyAtFirst(f: Format, data: Bytes, at: int, window: nat)
    requires window >= TAIL_MIN && (window > TAIL_MIN ==> !NoLineEnd(data))
    ensures |TailLines(data, window)| == 0 <==> NoLineEnd(data)
  {
    if |data| > TAIL_MIN {
      OnePart(data[|data| - TAIL_MIN..], NEWLINE);
    }
    WiderHolds(f, data, at, TAIL_MIN, window);
  }

  /** The last line at or before the report, with the order check of the timed lines. */
  method FindMark(f: Format, lines: seq<Bytes>, at: int, ordered: bool) returns (mark: int, back: bool)
    ensures back <==> ordered && TimesGoBack(f, lines)
    ensures !back ==> mark == LastMark(f, lines, |lines|, at)
  {
    mark, back := -1, false;
    var last := -1;
    for i := 0 to |lines|
      invariant mark == LastMark(f, lines, i, at)
      invariant ordered ==> NotBack(f, lines, i, last)
    {
      var reading := f.turn(lines[i]);
      if ordered && reading.ok && reading.timed {
        if reading.at < last {
          WentBack(f, lines, i, last);
          return mark, true;
        }
        last := reading.at;
      }
      if reading.ok && reading.timed && reading.at <= at {
        mark := i;
      }
    }
  }

  /** The times of the first n lines do not go back, and last is the last of them, or -1. */
  ghost predicate NotBack(f: Format, lines: seq<Bytes>, n: nat, last: int)
    requires n <= |lines|
  {
    && TimesInOrder(f, lines, n) && !EarlyTime(f, lines, n)
    && (forall j :: 0 <= j < n && Timed(f, lines[j]) ==> f.turn(lines[j]).at <= last)
    && (last == -1 || exists j :: 0 <= j < n && Timed(f, lines[j]) && f.turn(lines[j]).at == last)
  }

  lemma WentBack(f: Format, lines: seq<Bytes>, i: nat, last: int)
    requires i < |lines| && NotBack(f, lines, i, last) && Timed(f, lines[i]) && f.turn(lines[i]).at < last
    ensures TimesGoBack(f, lines)
  {
    if last != -1 {
      var j :| 0 <= j < i && Timed(f, lines[j]) && f.turn(lines[j]).at == last;
      assert !TimesInOrder(f, lines, |lines|);
    } else {
      assert EarlyTime(f, lines, |lines|);
    }
  }

  method ScanLines(f: Format, lines: seq<Bytes>, start: nat) returns (r: Outcome)
    requires start <= |lines|
    ensures r == Scan(f, lines, start) && (r == Turn(false) || r == Turn(true) || r == Unreadable)
  {
    for i := start to |lines|
      invariant Scan(f, lines, start) == Scan(f, lines, i)
    {
      if f.blank(lines[i]) {
        continue;
      }
      if !f.turn(lines[i]).ok {
        return Unreadable;
      }
      if f.turn(lines[i]).starts {
        return Turn(true);
      }
    }
    r := Turn(false);
  }

  /** A read of the file as one of its snapshots had it. */
  datatype Snapshot = Snapshot(data: Bytes, grown: bool)

  /** recordTurnReads: a file that changes during a read without a turn is read again, twice. The answer
      is that of the first of three reads that is not of a changed file. */
  method RecordTurnReads(f: Format, snapshots: seq<Snapshot>, at: int, ordered: bool) returns (r: Outcome)
    requires |snapshots| == 3
    ensures exists i :: 0 <= i < 3 && FirstAnswer(f, snapshots, at, ordered, i, r)
  {
    for i := 0 to READS - 1
      invariant forall j :: 0 <= j < i ==> AnswerOf(f, snapshots[j], at, ordered) == Changed
    {
      r := RecordTurnRead(f, snapshots[i].data, at, ordered, snapshots[i].grown);
      if r != Changed {
        assert FirstAnswer(f, snapshots, at, ordered, i, r);
        return r;
      }
    }
    r := RecordTurnRead(f, snapshots[READS - 1].data, at, ordered, snapshots[READS - 1].grown);
    assert FirstAnswer(f, snapshots, at, ordered, READS - 1, r);
  }

  ghost function AnswerOf(f: Format, s: Snapshot, at: int, ordered: bool): Outcome {
    ReadAnswer(f, s.data, at, ordered, s.grown)
  }

  /** All reads before the i-th were of a changed file, and that one was not, or is the last. */
  ghost predicate FirstAnswer(f: Format, snapshots: seq<Snapshot>, at: int, ordered: bool, i: nat, r: Outcome)
    requires i < |snapshots|
  {
    && (forall j :: 0 <= j < i ==> AnswerOf(f, snapshots[j], at, ordered) == Changed)
    && AnswerOf(f, snapshots[i], at, ordered) == r && (r != Changed || i == |snapshots| - 1)
  }

  /** Neither a turn nor an unreadable line. */
  predicate Passes(f: Format, line: Bytes) {
    f.blank(line) || (f.turn(line).ok && !f.turn(line).starts)
  }

  /** The first line from an index on that does not pass. */
  ghost predicate FirstStop(f: Format, lines: seq<Bytes>, start: nat, i: nat) {
    start <= i < |lines| && !Passes(f, lines[i]) && forall j :: start <= j < i ==> Passes(f, lines[j])
  }

  /** The scan answers "no turn" if and only if all lines from the start on pass. */
  lemma {:induction false} ScanMeans(f: Format, lines: seq<Bytes>, start: nat)
    requires start <= |lines|
    ensures Scan(f, lines, start) == Turn(false) <==> forall i :: start <= i < |lines| ==> Passes(f, lines[i])
    decreases |lines| - start
  {
    if start < |lines| {
      ScanMeans(f, lines, start + 1);
    }
  }

  /** Else the first that does not decides: a turn when it can be read. */
  lemma {:induction false} ScanStops(f: Format, lines: seq<Bytes>, start: nat, i: nat)
    requires FirstStop(f, lines, start, i)
    ensures Scan(f, lines, start) == if f.turn(lines[i]).ok then Turn(true) else Unreadable
    decreases i - start
  {
    if start < i {
      ScanStops(f, lines, start + 1, i);
    }
  }

  /** A timed line that starts a turn later than the report. */
  predicate LateTurn(f: Format, line: Bytes, at: int) {
    Timed(f, line) && f.turn(line).starts && !f.blank(line) && f.turn(line).at > at
  }

  ghost predicate LateTurnIn(f: Format, lines: seq<Bytes>, n: nat, at: int)
    requires n <= |lines|
  {
    exists i :: 0 <= i < n && LateTurn(f, lines[i], at)
  }

  /** The answer "no turn" hides a late turn if and only if one lies before the last mark, and all
      lines after that mark pass. */
  lemma HiddenTurnIff(f: Format, data: Bytes, at: int)
    ensures
      var lines := Split(data, NEWLINE);
      var m := LastMark(f, lines, |lines|, at);
      WholeScan(f, data, at) == Turn(false) && LateTurnIn(f, lines, |lines|, at) <==>
        && f.blank(lines[|lines| - 1])
        && m >= 0 && LateTurnIn(f, lines, m, at)
        && forall i :: m < i < |lines| ==> Passes(f, lines[i])
  {
    var lines := Split(data, NEWLINE);
    ScanMeans(f, lines, LastMark(f, lines, |lines|, at) + 1);
  }

  /** So, given the answer "no turn", the file has a late turn if and only if the last mark comes
      after one. */
  lemma LateTurnIff(f: Format, data: Bytes, at: int)
    requires WholeScan(f, data, at) == Turn(false)
    ensures
      var lines := Split(data, NEWLINE);
      var m := LastMark(f, lines, |lines|, at);
      LateTurnIn(f, lines, |lines|, at) <==> m >= 0 && LateTurnIn(f, lines, m, at)
  {
    HiddenTurnIff(f, data, at);
  }

  /** No turn is missed: in a file whose times never go back, the answer "no turn" means that no
      timed line that starts a turn is later than the report. */
  lemma NoTurnMissed(f: Format, data: Bytes, at: int)
    requires WholeScan(f, data, at) == Turn(false)
    requires TimesInOrder(f, Split(data, NEWLINE), |Split(data, NEWLINE)|)
    ensures !LateTurnIn(f, Split(data, NEWLINE), |Split(data, NEWLINE)|, at)
  {
    LateTurnIff(f, data, at);
  }

  /** Without that order a late mark does hide a turn before it. */
  lemma DisorderHidesTurn()
    ensures exists f: Format, data: Bytes, at: int, i: nat ::
              && WholeScan(f, data, at) == Turn(false)
              && i < |Split(data, NEWLINE)|
              && LateTurn(f, Split(data, NEWLINE)[i], at)
  {
    var f := Format((l: Bytes) => if l == [1] then Reading(6, true, true, true) else Reading(5, true, false, l != []),
                    (l: Bytes) => l == []);
    var data: Bytes := [1, 10, 2, 10];
    SplitOfConcat<byte>([1], [2, 10], NEWLINE);
    SplitOfConcat<byte>([2], [], NEWLINE);
    assert data == [1] + [NEWLINE] + [2, 10] && [2, 10] == [2] + [NEWLINE] + [];
    assert Split<byte>([], NEWLINE) == [[]];
    OnlyPart([1]);
    OnlyPart([2]);
    var lines := Split(data, NEWLINE);
    assert lines == [[1], [2], []];
    assert Marks(f, [2], 5) && !Marks(f, [], 5);
    assert LastMark(f, lines, 2, 5) == 1;
    assert Scan(f, lines, 2) == Turn(false);
    assert WholeScan(f, data, 5) == Turn(false);
    assert LateTurn(f, lines[0], 5);
  }

  lemma OnlyPart(line: Bytes)
    requires NEWLINE !in line
    ensures Split(line, NEWLINE) == [line]
  {
    OnePart(line, NEWLINE);
    JoinOfSplit(line, NEWLINE);
  }
}
