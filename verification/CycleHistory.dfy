/** How the queries over a cycle's history change with one more event. */
module CycleHistory {
  import opened Options
  import opened Cycle

  /** Ordinals count the events, and their times never go back. */
  ghost predicate Ordered(log: seq<Event>, now: nat) {
    && (forall i :: 0 <= i < |log| ==> log[i].ordinal == i + 1 && log[i].at <= now)
    && (forall i, j :: 0 <= i < j < |log| ==> log[i].at <= log[j].at)
  }

  lemma {:induction false} Prefix(log: seq<Event>, more: seq<Event>, n: nat, f: Filter, c: Column)
    requires n <= |log|
    ensures MaxOf(log + more, n, f, c) == MaxOf(log, n, f, c)
    ensures MinOf(log + more, n, f, c) == MinOf(log, n, f, c)
  {
    if n > 0 {
      Prefix(log, more, n - 1, f, c);
    }
  }

  /** What a query finds is the value of a matching event. */
  lemma {:induction false} FoundIn(log: seq<Event>, n: nat, f: Filter, c: Column)
    requires n <= |log|
    ensures MaxOf(log, n, f, c).Some? ==>
              exists i :: 0 <= i < n && Matches(f, log[i]) && Value(log[i], c) == MaxOf(log, n, f, c).value
    ensures MinOf(log, n, f, c).Some? ==>
              exists i :: 0 <= i < n && Matches(f, log[i]) && Value(log[i], c) == MinOf(log, n, f, c).value
    ensures forall i :: 0 <= i < n && Matches(f, log[i]) ==>
              && MaxOf(log, n, f, c).Some? && MaxOf(log, n, f, c).value >= Value(log[i], c)
              && MinOf(log, n, f, c).Some? && MinOf(log, n, f, c).value <= Value(log[i], c)
  {
    if n > 0 {
      FoundIn(log, n - 1, f, c);
    }
  }

  ghost predicate OneMore(log: seq<Event>, now: nat, e: Event) {
    Ordered(log, now) && e.ordinal == |log| + 1 && e.at == now
  }

  /** The newest matching event is the new one, if it matches. */
  lemma MaxAppend(log: seq<Event>, now: nat, e: Event, f: Filter, c: Column)
    requires OneMore(log, now, e)
    ensures MaxOf(log + [e], |log| + 1, f, c) == if Matches(f, e) then Some(Value(e, c)) else MaxOf(log, |log|, f, c)
  {
    Prefix(log, [e], |log|, f, c);
    FoundIn(log, |log|, f, c);
  }

  /** The oldest one stays. */
  lemma MinAppend(log: seq<Event>, now: nat, e: Event, f: Filter, c: Column)
    requires OneMore(log, now, e)
    ensures MinOf(log + [e], |log| + 1, f, c) ==
            if MinOf(log, |log|, f, c).Some? then MinOf(log, |log|, f, c)
            else if Matches(f, e) then Some(Value(e, c)) else None
  {
    Prefix(log, [e], |log|, f, c);
    FoundIn(log, |log|, f, c);
  }

  lemma OrderedAppend(log: seq<Event>, now: nat, e: Event)
    requires OneMore(log, now, e)
    ensures Ordered(log + [e], now)
  {
  }

  /** Nothing matches above the last ordinal. */
  lemma NoneAbove(log: seq<Event>, now: nat, stages: set<Stage>, reason: ReasonFilter, above: nat)
    requires Ordered(log, now) && above >= |log|
    ensures MaxOf(log, |log|, Filter(stages, reason, above), Ordinal) == None
    ensures MinOf(log, |log|, Filter(stages, reason, above), Ordinal) == None
  {
    FoundIn(log, |log|, Filter(stages, reason, above), Ordinal);
  }
}
