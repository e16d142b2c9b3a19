/** The backward scan of a harness log in pages (deepSeekHistory and deepSeekTurnSince,
    internal/core/cycle_deepseek.go). */
module LogScan {
  import opened Options

  const PAGES := 4
  const MAX_SAFE_INT := 0x1f_ffff_ffff_ffff

  datatype Kind = UserMessage | TurnStart | TurnEnd | Other

  /** An event of the log; number and time are valid counts, or absent. */
  datatype Event = Event(kind: Kind, number: Option<nat>, time: Option<nat>)

  datatype Record = Record(isEvent: bool, event: Event)

  /** One page as the harness replies it, oldest record first; hasMore may be absent. */
  datatype Reply = Failed | Page(records: seq<Record>, hasMore: Option<bool>)

  datatype End = Stopped | StartReached | Harness

  /** The events of the first n records of a page, newest first. */
  function Newest(records: seq<Record>, n: nat): (events: seq<Event>)
    requires n <= |records|
    ensures |events| == n
    ensures forall i :: 0 <= i < n ==> events[i] == records[|records| - 1 - i].event
  {
    seq(n, i requires 0 <= i < n => records[|records| - 1 - i].event)
  }

  /** The visited events carry the numbers from newest down, without a gap. */
  ghost predicate Descends(events: seq<Event>, newest: int) {
    forall i :: 0 <= i < |events| ==> events[i].number.Some? && events[i].number.value as int == newest - i
  }

  /** A page that the scan takes: it says whether more is before it, and its records are events with the
      numbers up to the one before next. */
  ghost predicate Takes(page: Reply, next: int) {
    page.Page? && page.hasMore.Some? && page.records != [] && Numbered(page.records, next - |page.records|)
  }

  /** The events of the first k pages, newest first. */
  ghost function Events(pages: nat -> Reply, k: nat): seq<Event> {
    if k == 0 then []
    else if pages(k - 1).Failed? then Events(pages, k - 1)
    else Events(pages, k - 1) + Newest(pages(k - 1).records, |pages(k - 1).records|)
  }

  ghost predicate TakesAt(pages: nat -> Reply, asOf: int, k: nat) {
    Takes(pages(k), asOf + 1 - |Events(pages, k)|)
  }

  /** After the first k pages there is more: the last of them says so and does not begin at number 0. */
  ghost predicate MoreAfter(pages: nat -> Reply, asOf: int, k: nat) {
    || k == 0
    || (pages(k - 1).Page? && pages(k - 1).hasMore.Some? && pages(k - 1).hasMore.value && |Events(pages, k)| <= asOf)
  }

  /** The scan took the first k pages. */
  ghost predicate Took(pages: nat -> Reply, asOf: int, k: nat) {
    forall j: nat :: j < k ==> TakesAt(pages, asOf, j) && MoreAfter(pages, asOf, j)
  }

  /** What the scan ends with. It visits the events of at most four pages in turn; it is stopped at the
      first event that goOn refuses, reaches the start behind a page that says so or begins at number 0,
      and else leaves the harness for a page that it does not take, or for more than four. */
  ghost predicate Scanned(pages: nat -> Reply, asOf: int, end: End, visited: seq<Event>, k: nat) {
    && k <= 4 && Took(pages, asOf, k)
    && match end
       case Stopped =>
         && k < 4 && MoreAfter(pages, asOf, k) && TakesAt(pages, asOf, k)
         && Events(pages, k) < visited <= Events(pages, k + 1)
       case StartReached => visited == Events(pages, k) && if k == 0 then asOf < 0 else !MoreAfter(pages, asOf, k)
       case Harness =>
         && visited == Events(pages, k) && asOf >= 0 && MoreAfter(pages, asOf, k)
         && (k == 4 || !TakesAt(pages, asOf, k))
  }

  /** Reads back from asOf and visits each event until goOn, which sees all the events visited
      so far, says no. */
  method History(pages: nat -> Reply, asOf: int, goOn: seq<Event> -> bool) returns (end: End, visited: seq<Event>)
    ensures exists k: nat :: Scanned(pages, asOf, end, visited, k)
    ensures Descends(visited, asOf)
    ensures visited == [] || |visited| <= asOf + 1
    ensures forall n :: 0 < n < |visited| ==> goOn(visited[..n])
    ensures end == Stopped ==> |visited| > 0 && !goOn(visited)
    ensures end != Stopped && |visited| > 0 ==> goOn(visited)
    ensures forall e :: e in visited ==> FromPages(pages, e)
    ensures end == StartReached ==> |visited| == asOf + 1 || asOf < 0 || EndsAt(pages, asOf - |visited| + 1)
  {
    visited := [];
    if asOf < 0 {
      assert Scanned(pages, asOf, StartReached, [], 0);
      return StartReached, visited;
    }
    for k := 0 to PAGES
      invariant Went(pages, asOf, goOn, visited)
      invariant visited == Events(pages, k) && Took(pages, asOf, k) && MoreAfter(pages, asOf, k) && |visited| <= asOf
    {
      var ended;
      ended, visited := HistoryPage(pages, asOf, goOn, k, visited);
      if ended.Some? {
        DescendsToZero(visited, asOf);
        return ended.value, visited;
      }
    }
    assert Scanned(pages, asOf, Harness, visited, PAGES);
    end := Harness;
  }

  lemma DescendsToZero(visited: seq<Event>, newest: int)
    requires Descends(visited, newest)
    ensures visited == [] || |visited| <= newest + 1
  {
    if visited != [] {
      assert visited[|visited| - 1].number.Some?;
    }
  }

  /** One page: its events are visited, unless the scan leaves the harness. */
  method HistoryPage(pages: nat -> Reply, asOf: int, goOn: seq<Event> -> bool, k: nat, before: seq<Event>)
    returns (ended: Option<End>, visited: seq<Event>)
    requires asOf >= 0 && k < PAGES && |before| <= asOf && Went(pages, asOf, goOn, before)
    requires before == Events(pages, k) && Took(pages, asOf, k) && MoreAfter(pages, asOf, k)
    ensures ended.Some? ==> Scanned(pages, asOf, ended.value, visited, if ended == Some(StartReached) then k + 1 else k)
    ensures ended == Some(StartReached) ==> |visited| == asOf + 1 || EndsAt(pages, asOf - |visited| + 1)
    ensures ended == Some(Stopped) ==> |visited| > 0 && !goOn(visited) && WentUpTo(pages, asOf, goOn, visited)
    ensures ended != Some(Stopped) ==> Went(pages, asOf, goOn, visited)
    ensures ended.None? ==>
              visited == Events(pages, k + 1) && Took(pages, asOf, k + 1) && MoreAfter(pages, asOf, k + 1)
  {
    var page := pages(k);
    var taken := CheckPage(page, asOf + 1 - |before|);
    if !taken {
      return Some(Harness), before;
    }
    assert forall r :: r in page.records ==> FromPages(pages, r.event);
    var stopped;
    stopped, visited := VisitPage(pages, asOf, goOn, before, page.records);
    if stopped {
      return Some(Stopped), visited;
    }
    TookMore(pages, asOf, k);
    if !page.hasMore.value || asOf + 1 - |visited| <= 0 {
      StartIs(pages, asOf, k, visited);
      return Some(StartReached), visited;
    }
    ended := None;
  }

  method CheckPage(page: Reply, next: int) returns (taken: bool)
    ensures taken <==> Takes(page, next)
  {
    if page.Failed? || page.hasMore.None? || |page.records| == 0 {
      return false;
    }
    taken := CheckNumbers(page.records, next - |page.records|);
  }

  lemma StartIs(pages: nat -> Reply, asOf: int, k: nat, visited: seq<Event>)
    requires TakesAt(pages, asOf, k) && |Events(pages, k)| <= asOf && visited == Events(pages, k + 1)
    requires !MoreAfter(pages, asOf, k + 1)
    ensures |visited| == asOf + 1 || EndsAt(pages, asOf - |visited| + 1)
  {
    var page := pages(k);
    assert page.records[0].event.number.value as int == asOf + 1 - |visited|;
    if |visited| <= asOf {
      assert !page.hasMore.value;
    }
  }

  lemma TookMore(pages: nat -> Reply, asOf: int, k: nat)
    requires Took(pages, asOf, k) && TakesAt(pages, asOf, k) && MoreAfter(pages, asOf, k)
    ensures Took(pages, asOf, k + 1)
  {
  }

  /** The scan visited these events and went on after each but the last. */
  ghost predicate WentUpTo(pages: nat -> Reply, asOf: int, goOn: seq<Event> -> bool, visited: seq<Event>) {
    && Descends(visited, asOf)
    && (forall n :: 0 < n < |visited| ==> goOn(visited[..n]))
    && forall e :: e in visited ==> FromPages(pages, e)
  }

  /** The scan visited these events and went on after each of them. */
  ghost predicate Went(pages: nat -> Reply, asOf: int, goOn: seq<Event> -> bool, visited: seq<Event>) {
    && Descends(visited, asOf)
    && (forall n :: 0 < n <= |visited| ==> goOn(visited[..n]))
    && (forall e :: e in visited ==> FromPages(pages, e))
    && (visited != [] ==> goOn(visited))
  }

  ghost predicate Numbered(records: seq<Record>, first: int) {
    forall j :: 0 <= j < |records| ==>
      records[j].isEvent && records[j].event.number.Some? && records[j].event.number.value as int == first + j
  }

  method CheckNumbers(records: seq<Record>, first: int) returns (good: bool)
    ensures good <==> Numbered(records, first)
  {
    for i := 0 to |records|
      invariant Numbered(records[..i], first)
    {
      var record := records[i];
      if !record.isEvent || record.event.number.None? || record.event.number.value as int != first + i {
        return false;
      }
    }
    assert records[..|records|] == records;
    return true;
  }

  method VisitPage(ghost pages: nat -> Reply, ghost asOf: int, goOn: seq<Event> -> bool, before: seq<Event>,
                   records: seq<Record>)
    returns (stopped: bool, visited: seq<Event>)
    requires Went(pages, asOf, goOn, before)
    requires Numbered(records, asOf + 1 - |before| - |records|)
    requires forall r :: r in records ==> FromPages(pages, r.event)
    ensures WentUpTo(pages, asOf, goOn, visited)
    ensures stopped ==> !goOn(visited) && before < visited <= before + Newest(records, |records|)
    ensures !stopped ==> Went(pages, asOf, goOn, visited) && visited == before + Newest(records, |records|)
  {
    visited := before;
    for i := |records| downto 0
      invariant visited == before + Newest(records, |records| - i)
      invariant Went(pages, asOf, goOn, visited)
    {
      ghost var was := visited;
      assert records[i] in records;
      visited := visited + [records[i].event];
      assert visited == before + Newest(records, |records| - i);
      assert Newest(records, |records| - i) <= Newest(records, |records|);
      assert forall n :: 0 < n <= |was| ==> visited[..n] == was[..n];
      assert visited[..|visited|] == visited;
      if !goOn(visited) {
        return true, visited;
      }
    }
    stopped := false;
  }

  ghost predicate FromPages(pages: nat -> Reply, e: Event) {
    exists k: nat, r :: pages(k).Page? && r in pages(k).records && r.event == e
  }

  /** Some page says that no event is before number. */
  ghost predicate EndsAt(pages: nat -> Reply, number: int) {
    exists k: nat :: pages(k).Page? && pages(k).hasMore == Some(false) && |pages(k).records| > 0 &&
      pages(k).records[0].event.number.Some? && pages(k).records[0].event.number.value as int == number
  }

  // deepSeekTurnSince

  /** What the backward scan knows: it goes on, with the newer event's time and the newest turn's
      end, or it is decided. */
  datatype Watch = Going(newer: int, ended: int) | SawTurn | Unread | AtReport

  function Look(w: Watch, e: Event, readyAt: int): Watch {
    if !w.Going? then w
    else if e.time.None? || e.time.value as int > w.newer then Unread
    else if e.time.value as int > readyAt && (e.kind == UserMessage || e.kind == TurnStart) then SawTurn
    else if e.kind == TurnEnd then Going(e.time.value, e.time.value)
    else if e.kind == TurnStart then (if 0 <= w.ended <= readyAt then Unread else AtReport)
    else Going(e.time.value, w.ended)
  }

  function Watching(visited: seq<Event>, readyAt: int): Watch {
    if visited == [] then Going(MAX_SAFE_INT, -1)
    else Look(Watching(visited[..|visited| - 1], readyAt), visited[|visited| - 1], readyAt)
  }

  datatype Answer = Turn | NoTurn | HistoryUnread

  /** A time that is absent, or later than that of the newer event. */
  predicate Odd(visited: seq<Event>, i: nat)
    requires i < |visited|
  {
    || visited[i].time.None?
    || if i == 0 then visited[i].time.value > 9_007_199_254_740_991
       else visited[i - 1].time.Some? && visited[i].time.value > visited[i - 1].time.value
  }

  /** The scan ends at the event. */
  predicate Decisive(visited: seq<Event>, i: nat, readyAt: int)
    requires i < |visited|
  {
    Odd(visited, i) || LateTurn(visited[i], readyAt) || visited[i].kind == TurnStart
  }

  ghost predicate Undecided(visited: seq<Event>, n: nat, readyAt: int)
    requires n <= |visited|
  {
    forall j: nat :: j < n ==> !Decisive(visited, j, readyAt)
  }

  ghost predicate FirstDecisive(visited: seq<Event>, i: nat, readyAt: int) {
    i < |visited| && Decisive(visited, i, readyAt) && Undecided(visited, i, readyAt)
  }

  /** Of the newer events, the nearest end of a turn is not later than the report. */
  ghost predicate EndedBefore(visited: seq<Event>, i: nat, readyAt: int)
    requires i <= |visited|
  {
    exists j ::
      0 <= j < i && NearestEnd(visited, i, j) && visited[j].time.Some? && visited[j].time.value as int <= readyAt
  }

  ghost predicate NearestEnd(visited: seq<Event>, i: nat, j: int)
    requires 0 <= j < i <= |visited|
  {
    visited[j].kind == TurnEnd && forall k :: j < k < i ==> visited[k].kind != TurnEnd
  }

  /** What the scan knows after events that do not decide. */
  lemma {:induction false} StillGoing(visited: seq<Event>, readyAt: int)
    requires Undecided(visited, |visited|, readyAt)
    ensures Watching(visited, readyAt).Going?
    ensures visited == [] ==> Watching(visited, readyAt).newer == 9_007_199_254_740_991
    ensures visited != [] ==>
              visited[|visited| - 1].time == Some(Watching(visited, readyAt).newer as nat)
              && Watching(visited, readyAt).newer >= 0
    ensures Watching(visited, readyAt).ended >= 0 ==>
              exists j :: 0 <= j < |visited| && NearestEnd(visited, |visited|, j)
                          && visited[j].time == Some(Watching(visited, readyAt).ended as nat)
    ensures Watching(visited, readyAt).ended < 0 ==> forall j :: 0 <= j < |visited| ==> visited[j].kind != TurnEnd
  {
    if visited != [] {
      var rest, last := visited[..|visited| - 1], visited[|visited| - 1];
      forall j: nat | j < |rest|
        ensures !Decisive(rest, j, readyAt)
      {
        assert !Decisive(visited, j, readyAt);
      }
      StillGoing(rest, readyAt);
      assert !Decisive(visited, |visited| - 1, readyAt);
    }
  }

  lemma {:induction false} GoingMeans(visited: seq<Event>, readyAt: int)
    requires Watching(visited, readyAt).Going?
    ensures Undecided(visited, |visited|, readyAt)
  {
    if visited != [] {
      var rest, n := visited[..|visited| - 1], |visited| - 1;
      GoingMeans(rest, readyAt);
      StillGoing(rest, readyAt);
      forall j: nat | j < |visited|
        ensures !Decisive(visited, j, readyAt)
      {
        assert j < n ==> !Decisive(rest, j, readyAt);
      }
    }
  }

  /** A scan that goes on while nothing decides. */
  lemma GoesOnUndecided(visited: seq<Event>, readyAt: int)
    ensures Watching(visited, readyAt).Going? <==> Undecided(visited, |visited|, readyAt)
  {
    if Undecided(visited, |visited|, readyAt) {
      StillGoing(visited, readyAt);
    }
    if Watching(visited, readyAt).Going? {
      GoingMeans(visited, readyAt);
    }
  }

  lemma ScanStops(end: End, visited: seq<Event>, readyAt: int)
    requires forall n :: 0 < n < |visited| ==> Watching(visited[..n], readyAt).Going?
    requires end == Stopped ==> visited != [] && !Watching(visited, readyAt).Going?
    requires end != Stopped && visited != [] ==> Watching(visited, readyAt).Going?
    ensures StopsThere(end, visited, readyAt)
  {
    GoesOnUndecided(visited, readyAt);
    if visited != [] {
      GoesOnUndecided(visited[..|visited| - 1], readyAt);
      PrefixUndecided(visited, |visited| - 1, readyAt);
      if |visited| == 1 {
        assert visited[..0] == [];
      }
    }
  }

  lemma PrefixUndecided(visited: seq<Event>, n: nat, readyAt: int)
    requires n <= |visited|
    ensures Undecided(visited[..n], n, readyAt) <==> Undecided(visited, n, readyAt)
  {
    forall j: nat | j < n
      ensures Decisive(visited[..n], j, readyAt) <==> Decisive(visited, j, readyAt)
    {
    }
  }

  lemma {:induction false} DecidedStays(visited: seq<Event>, n: nat, readyAt: int)
    requires n <= |visited| && !Watching(visited[..n], readyAt).Going?
    ensures Watching(visited, readyAt) == Watching(visited[..n], readyAt)
    decreases |visited| - n
  {
    if n < |visited| {
      assert visited[..n + 1][..n] == visited[..n];
      DecidedStays(visited, n + 1, readyAt);
    } else {
      assert visited[..n] == visited;
    }
  }

  /** What the scan knows after the first event that decides: an odd time leaves it unread, a user's
      message or a turn's start after the report is a turn, and the start of an earlier turn is the
      report's own, unless its end is not later than the report. */
  lemma WatchIs(visited: seq<Event>, i: nat, readyAt: int)
    requires FirstDecisive(visited, i, readyAt)
    ensures Watching(visited, readyAt) ==
              if Odd(visited, i) then Unread
              else if LateTurn(visited[i], readyAt) then SawTurn
              else if EndedBefore(visited, i, readyAt) then Unread
              else AtReport
  {
    var rest, upTo := visited[..i], visited[..i + 1];
    assert upTo[..i] == rest;
    forall j: nat | j < i
      ensures !Decisive(rest, j, readyAt)
    {
      assert !Decisive(visited, j, readyAt);
    }
    StillGoing(rest, readyAt);
    EndedIs(visited, i, readyAt, Watching(rest, readyAt).ended);
    DecidedStays(visited, i + 1, readyAt);
  }

  lemma EndedIs(visited: seq<Event>, i: nat, readyAt: int, ended: int)
    requires i <= |visited|
    requires ended >= 0 ==>
               exists j :: 0 <= j < i && NearestEnd(visited[..i], i, j) && visited[j].time == Some(ended as nat)
    requires ended < 0 ==> forall j :: 0 <= j < i ==> visited[j].kind != TurnEnd
    ensures EndedBefore(visited, i, readyAt) <==> 0 <= ended <= readyAt
  {
    if ended >= 0 {
      var j :| 0 <= j < i && NearestEnd(visited[..i], i, j) && visited[j].time == Some(ended as nat);
      assert NearestEnd(visited, i, j);
      forall k | 0 <= k < i && NearestEnd(visited, i, k)
        ensures k == j
      {
      }
    }
  }

  /** The answer that the end of the scan and the second view leave. */
  ghost predicate Concludes(end: End, visited: seq<Event>, readyAt: int, same: bool, answer: Answer) {
    match answer
    case HistoryUnread =>
      end == Harness || Watching(visited, readyAt) == Unread || (Watching(visited, readyAt) != SawTurn && !same)
    case Turn => end != Harness && Watching(visited, readyAt) == SawTurn
    case NoTurn =>
      end != Harness && same && Watching(visited, readyAt) != Unread && Watching(visited, readyAt) != SawTurn
  }

  /** The scan ended so, at the first event that decides if one does. */
  ghost predicate ScansTo(pages: nat -> Reply, asOf: int, readyAt: int, end: End, visited: seq<Event>) {
    (exists k: nat :: Scanned(pages, asOf, end, visited, k)) && StopsThere(end, visited, readyAt)
  }

  ghost predicate StopsThere(end: End, visited: seq<Event>, readyAt: int) {
    && (visited != [] ==> Undecided(visited, |visited| - 1, readyAt))
    && (end == Stopped <==> visited != [] && Decisive(visited, |visited| - 1, readyAt))
  }

  ghost predicate Answers(pages: nat -> Reply, asOf: int, readyAt: int, same: bool, answer: Answer) {
    exists end, visited ::
      ScansTo(pages, asOf, readyAt, end, visited) && Concludes(end, visited, readyAt, same, answer)
  }

  lemma AnswerIs(pages: nat -> Reply, asOf: int, readyAt: int, end: End, visited: seq<Event>, same: bool,
                 answer: Answer)
    requires ScansTo(pages, asOf, readyAt, end, visited) && Concludes(end, visited, readyAt, same, answer)
    ensures Answers(pages, asOf, readyAt, same, answer)
  {
  }

  /** The two views' newest event numbers, before and after the scan; None when unread. */
  method TurnSince(pages: nat -> Reply, before: Option<int>, after: Option<int>, readyAt: int, ghost log: seq<Event>)
    returns (answer: Answer)
    ensures readyAt <= 0 ==> answer == NoTurn
    ensures readyAt > 0 && before.None? ==> answer == HistoryUnread
    ensures readyAt > 0 && before.Some? ==>
              Answers(pages, before.value, readyAt, after == before, answer)
    ensures readyAt > 0 && answer == NoTurn ==> before.Some? && after == before
    ensures readyAt > 0 && answer == NoTurn && Honest(pages, log) && InOrder(log) ==>
              forall i :: 0 <= i < |log| && i <= before.value ==> !LateTurn(log[i], readyAt)
    ensures answer == Turn && Honest(pages, log) ==>
              before.Some? && exists i :: 0 <= i < |log| && i <= before.value && LateTurn(log[i], readyAt)
  {
    if readyAt <= 0 {
      return NoTurn;
    }
    if before.None? {
      return HistoryUnread;
    }
    var end, visited := History(pages, before.value, v => Watching(v, readyAt).Going?);
    var w := Watching(visited, readyAt);
    ScanFinds(visited, readyAt);
    ScanStops(end, visited, readyAt);
    assert ScansTo(pages, before.value, readyAt, end, visited);
    if end == Harness || w.Unread? {
      AnswerIs(pages, before.value, readyAt, end, visited, after == before, HistoryUnread);
      return HistoryUnread;
    }
    if Honest(pages, log) {
      VisitedIsLog(pages, log, visited, before.value);
    }
    if w.SawTurn? {
      AnswerIs(pages, before.value, readyAt, end, visited, after == before, Turn);
      return Turn;
    }
    if after != before {
      AnswerIs(pages, before.value, readyAt, end, visited, false, HistoryUnread);
      return HistoryUnread;
    }
    if Honest(pages, log) && InOrder(log) {
      NothingBefore(pages, log, visited, before.value, end, readyAt);
    }
    AnswerIs(pages, before.value, readyAt, end, visited, true, NoTurn);
    return NoTurn;
  }

  predicate LateTurn(e: Event, readyAt: int) {
    (e.kind == UserMessage || e.kind == TurnStart) && e.time.Some? && e.time.value as int > readyAt
  }

  /** The harness's contract: a record is the log's event of its number, and a page that says
      that there are no more starts the log. */
  ghost predicate Honest(pages: nat -> Reply, log: seq<Event>) {
    && (forall e :: FromPages(pages, e) && e.number.Some? ==> e.number.value < |log| && e == log[e.number.value])
    && (forall number :: EndsAt(pages, number) ==> number == 0)
  }

  /** The harness's clock never went back over the log. */
  ghost predicate InOrder(log: seq<Event>) {
    && (forall i :: 0 <= i < |log| ==> log[i].time.Some?)
    && (forall i, j :: 0 <= i < j < |log| ==> log[i].time.value <= log[j].time.value)
  }

  /** What each outcome of the scan found. */
  lemma {:induction false} ScanFinds(visited: seq<Event>, readyAt: int)
    ensures Watching(visited, readyAt) == SawTurn ==> exists e :: e in visited && LateTurn(e, readyAt)
    ensures Watching(visited, readyAt).Going? || Watching(visited, readyAt).AtReport? ==>
              forall e :: e in visited[..Decided(visited, readyAt)] ==> !LateTurn(e, readyAt)
    ensures Watching(visited, readyAt).Going? ==> Decided(visited, readyAt) == |visited|
    ensures Watching(visited, readyAt).AtReport? ==>
              && 0 < Decided(visited, readyAt)
              && var e := visited[Decided(visited, readyAt) - 1];
              && e.kind == TurnStart && e.time.Some? && e.time.value as int <= readyAt
  {
    if visited != [] {
      var rest, last := visited[..|visited| - 1], visited[|visited| - 1];
      ScanFinds(rest, readyAt);
      assert visited == rest + [last];
      var n := Decided(visited, readyAt);
      if Watching(rest, readyAt) == SawTurn {
        var e :| e in rest && LateTurn(e, readyAt);
        assert e in visited;
      } else if Watching(visited, readyAt) == SawTurn {
        assert last in visited && LateTurn(last, readyAt);
      } else if Watching(rest, readyAt).Going? {
        assert rest[..|rest|] == rest && visited[..n] == visited;
      } else {
        assert visited[..n] == rest[..n];
      }
    }
  }

  /** How many events the scan looked at before it was decided. */
  function Decided(visited: seq<Event>, readyAt: int): (n: nat)
    ensures n <= |visited|
  {
    if visited == [] then 0
    else if Watching(visited[..|visited| - 1], readyAt).Going? then |visited|
    else Decided(visited[..|visited| - 1], readyAt)
  }

  ghost predicate IsAt(log: seq<Event>, e: Event, number: int) {
    0 <= number < |log| && e == log[number]
  }

  /** The visited events are the block of the log that ends at asOf, newest first. */
  ghost predicate LogBlock(log: seq<Event>, visited: seq<Event>, asOf: int) {
    forall i :: 0 <= i < |visited| ==> IsAt(log, visited[i], asOf - i)
  }

  lemma VisitedIsLog(pages: nat -> Reply, log: seq<Event>, visited: seq<Event>, asOf: int)
    requires Honest(pages, log) && (forall e :: e in visited ==> FromPages(pages, e))
    requires Descends(visited, asOf)
    ensures LogBlock(log, visited, asOf)
  {
    forall i | 0 <= i < |visited|
      ensures IsAt(log, visited[i], asOf - i)
    {
      assert visited[i] in visited && FromPages(pages, visited[i]);
    }
  }

  lemma NothingBefore(pages: nat -> Reply, log: seq<Event>, visited: seq<Event>, asOf: int, end: End, readyAt: int)
    requires Honest(pages, log) && InOrder(log)
    requires LogBlock(log, visited, asOf)
    requires end == StartReached ==> |visited| == asOf + 1 || asOf < 0 || EndsAt(pages, asOf - |visited| + 1)
    requires end == Stopped || end == StartReached
    requires end == StartReached ==> Watching(visited, readyAt).Going?
    requires end == Stopped ==> Watching(visited, readyAt).AtReport?
    ensures forall i :: 0 <= i < |log| && i <= asOf ==> !LateTurn(log[i], readyAt)
  {
    ScanFinds(visited, readyAt);
    var n := Decided(visited, readyAt);
    forall i | 0 <= i < |log| && i <= asOf
      ensures !LateTurn(log[i], readyAt)
    {
      if asOf - i < n {
        assert IsAt(log, visited[asOf - i], i) && visited[asOf - i] == visited[..n][asOf - i];
        assert visited[asOf - i] in visited[..n];
      } else if end == Stopped {
        assert IsAt(log, visited[n - 1], asOf - (n - 1)) && i < asOf - (n - 1);
      }
    }
  }
}
