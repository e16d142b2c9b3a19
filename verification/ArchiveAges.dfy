/** What the requests leave of an item, and how long an archived item stays in the database
    (internal/core/decision_archive.go, internal/core/decision_verdicts.go). */
module ArchiveAges {
  import opened Options
  import opened Archive
  import opened ArchiveMoves
  import opened ArchiveSafety
  import opened ArchiveRuns
  import opened ArchiveStore

  // The requests

  /** The row of one item changes, and its history; nothing else does. */
  ghost predicate OnlyRow(s: State, t: State, id: nat, item: Item) {
    && t.rows == s.rows[id := item] && t.last == s.last[item.record.reference := item.record]
    && t.logs == s.logs && t.mover == s.mover
  }

  /** An item that is not archived has no mark and no archive time. */
  ghost predicate Dated(s: State) {
    forall id :: id in s.rows && s.rows[id].status != Archived ==> s.rows[id].archivedAt == 0
  }

  /** A new item is active at revision 1. */
  lemma CreateLeaves(c: Codec, s: State, reference: nat, body: int)
    requires Enabled(c, s, Create(reference, body))
    ensures
      var t := Next(c, s, Create(reference, body));
      && OnlyRow(s, t, s.nextId, Item(Record(s.nextId, reference, 1, body, 0), Active, None, 0))
      && t.nextId == s.nextId + 1 && t.locators == s.locators && t.lost == s.lost
  {
  }

  /** An edit makes the next revision, active and without a mark or an archive time. */
  lemma EditLeaves(c: Codec, s: State, id: nat, body: int, exact: bool)
    requires Inv(c, s, exact) && Dated(s) && Enabled(c, s, Edit(id, body))
    ensures
      var t, r := Next(c, s, Edit(id, body)), s.rows[id].record;
      && OnlyRow(s, t, id, Item(Record(id, r.reference, r.revision + 1, body, r.queued), Active, None, 0))
      && t.nextId == s.nextId && t.locators == s.locators && t.lost == s.lost
  {
    assert GoodRow(s, exact, id, s.rows[id]);
  }

  /** A verdict keeps the revision, clears the mark and adds its deliveries; it archives the item from
      now on, or leaves it without an archive time. */
  lemma VerdictLeaves(c: Codec, s: State, id: nat, status: Status, body: int, deliveries: nat, now: int, exact: bool)
    requires Inv(c, s, exact) && Enabled(c, s, Verdict(id, status, body, deliveries, now))
    ensures
      var t, r := Next(c, s, Verdict(id, status, body, deliveries, now)), s.rows[id].record;
      && OnlyRow(s, t, id, Item(Record(id, r.reference, r.revision, body, r.queued + deliveries), status, None,
                                if status == Archived then now else 0))
      && t.nextId == s.nextId && t.locators == s.locators && t.lost == s.lost
  {
    assert GoodRow(s, exact, id, s.rows[id]);
  }

  /** A close and a withdrawal archive the item from now on. */
  lemma RetireLeaves(c: Codec, s: State, id: nat, body: int, now: int, exact: bool)
    requires Inv(c, s, exact) && Enabled(c, s, Retire(id, body, now))
    ensures
      var t, r := Next(c, s, Retire(id, body, now)), s.rows[id].record;
      && OnlyRow(s, t, id, Item(Record(id, r.reference, r.revision, body, r.queued), Archived, None, now))
      && t.nextId == s.nextId && t.locators == s.locators && t.lost == s.lost
  {
    assert GoodRow(s, exact, id, s.rows[id]);
  }

  /** An acknowledgement takes one waiting delivery and nothing else. */
  lemma AcknowledgeLeaves(c: Codec, s: State, id: nat, exact: bool)
    requires Inv(c, s, exact) && Enabled(c, s, Acknowledge(id))
    ensures
      var t, item := Next(c, s, Acknowledge(id)), s.rows[id];
      && OnlyRow(s, t, id, item.(record := t.rows[id].record))
      && t.rows[id].record == Record(id, item.record.reference, item.record.revision, item.record.body,
                                     item.record.queued - 1)
      && t.nextId == s.nextId && t.locators == s.locators && t.lost == s.lost
  {
    assert GoodRow(s, exact, id, s.rows[id]);
  }

  /** A restore succeeds if and only if the reference is deep-archived and a complete line of the
      locator's length decodes to its record; it takes the locator and leaves an archived item without
      a mark that counts its time from now. */
  lemma RestoreLeaves(c: Codec, s: State, reference: nat, now: int, exact: bool)
    requires Inv(c, s, exact)
    ensures
      var t := Next(c, s, Restore(reference, now));
      if reference in s.locators && RecordAt(c, s.logs, s.locators[reference], reference).Some? then
        var r := RecordAt(c, s.logs, s.locators[reference], reference).value;
        && OnlyRow(s, t, r.id, Item(r, Archived, None, now)) && r.id == s.last[reference].id
        && t.locators == s.locators - {reference} && t.lost == s.lost - {reference} && t.nextId == s.nextId
      else t == s
  {
    if reference in s.locators {
      FoundIsLast(c, s, reference, exact);
      MovedIdIsFree(s, reference, exact);
    }
  }

  /** What a step does to the status and the archive time of an item: nothing, or it leaves it without
      one, or archives it at the step's time. */
  ghost predicate Aged(s: State, step: Step, t: State, id: nat) {
    id in t.rows ==>
      || (id in s.rows && t.rows[id].status == s.rows[id].status && t.rows[id].archivedAt == s.rows[id].archivedAt)
      || (t.rows[id].status != Archived && t.rows[id].archivedAt == 0)
      || ((step.Verdict? || step.Retire? || step.Restore?)
          && t.rows[id].status == Archived && t.rows[id].archivedAt == step.now)
  }

  lemma OneRowAged(s: State, step: Step, t: State, i: nat, id: nat)
    requires i in t.rows && t.rows == s.rows[i := t.rows[i]] && Aged(s, step, t, i)
    ensures Aged(s, step, t, id)
  {
  }

  lemma NextAged(c: Codec, s: State, step: Step, id: nat, exact: bool)
    requires Inv(c, s, exact) && Dated(s) && Enabled(c, s, step)
    ensures Aged(s, step, Next(c, s, step), id)
  {
    var t := Next(c, s, step);
    match step
    case Create(reference, body) =>
      CreateLeaves(c, s, reference, body);
      OneRowAged(s, step, t, s.nextId, id);
    case Edit(i, body) =>
      EditLeaves(c, s, i, body, exact);
      OneRowAged(s, step, t, i, id);
    case Verdict(i, status, body, deliveries, now) =>
      VerdictLeaves(c, s, i, status, body, deliveries, now, exact);
      OneRowAged(s, step, t, i, id);
    case Retire(i, body, now) =>
      RetireLeaves(c, s, i, body, now, exact);
      OneRowAged(s, step, t, i, id);
    case Acknowledge(i) =>
      AcknowledgeLeaves(c, s, i, exact);
      OneRowAged(s, step, t, i, id);
    case Restore(reference, now) =>
      RestoreAged(c, s, reference, now, id, exact);
    case _ => MoverAged(c, s, step, id);
  }

  lemma RestoreAged(c: Codec, s: State, reference: nat, now: int, id: nat, exact: bool)
    requires Inv(c, s, exact)
    ensures Aged(s, Restore(reference, now), Next(c, s, Restore(reference, now)), id)
  {
    RestoreLeaves(c, s, reference, now, exact);
    var t := Next(c, s, Restore(reference, now));
    if t != s {
      OneRowAged(s, Restore(reference, now), t, s.last[reference].id, id);
    }
  }

  lemma MoverAged(c: Codec, s: State, step: Step, id: nat)
    requires Enabled(c, s, step)
    requires !step.Create? && !step.Edit? && !step.Verdict? && !step.Retire? && !step.Acknowledge? && !step.Restore?
    ensures Aged(s, step, Next(c, s, step), id)
  {
  }

  lemma NextDated(c: Codec, s: State, step: Step, exact: bool)
    requires Inv(c, s, exact) && Dated(s) && Enabled(c, s, step)
    ensures Dated(Next(c, s, step))
  {
    forall id | id in Next(c, s, step).rows
      ensures Aged(s, step, Next(c, s, step), id)
    {
      NextAged(c, s, step, id, exact);
    }
  }

  lemma {:induction false} RunDated(c: Codec, s: State, steps: seq<Step>, exact: bool)
    requires Good(c) && Inv(c, s, exact) && Dated(s) && Runs(c, s, steps, exact)
    ensures Dated(After(c, s, steps, exact))
    decreases |steps|
  {
    if steps != [] {
      StepKeeps(c, s, steps[0], exact);
      NextDated(c, s, steps[0], exact);
      RunDated(c, Next(c, s, steps[0]), steps[1..], exact);
    }
  }

  // The thirty days

  /** The item is not archived, or was archived at a time or later. */
  ghost predicate Young(s: State, id: nat, at: int) {
    id in s.rows && s.rows[id].status == Archived ==> s.rows[id].archivedAt >= at
  }

  /** A request that archives an item does so at a time or later. */
  predicate NotBefore(step: Step, at: int) {
    (step.Verdict? || step.Retire? || step.Restore?) ==> step.now >= at
  }

  lemma NextYoung(c: Codec, s: State, step: Step, id: nat, at: int, exact: bool)
    requires Inv(c, s, exact) && Dated(s) && Young(s, id, at) && Enabled(c, s, step) && NotBefore(step, at)
    ensures Young(Next(c, s, step), id, at)
  {
    NextAged(c, s, step, id, exact);
  }

  lemma {:induction false} RunYoung(c: Codec, s: State, steps: seq<Step>, id: nat, at: int, exact: bool)
    requires Good(c) && Inv(c, s, exact) && Dated(s) && Young(s, id, at) && Runs(c, s, steps, exact)
    requires forall i :: 0 <= i < |steps| ==> NotBefore(steps[i], at)
    ensures Young(After(c, s, steps, exact), id, at)
    decreases |steps|
  {
    if steps != [] {
      StepKeeps(c, s, steps[0], exact);
      NextDated(c, s, steps[0], exact);
      NextYoung(c, s, steps[0], id, at, exact);
      RunYoung(c, Next(c, s, steps[0]), steps[1..], id, at, exact);
    }
  }

  /** A request that archives the item now: a verdict, a close, a withdrawal or a restore. */
  ghost predicate ArchivesNow(c: Codec, s: State, step: Step, id: nat, now: int) {
    match step
    case Verdict(i, status, _, _, n) => i == id && status == Archived && n == now
    case Retire(i, _, n) => i == id && n == now
    case Restore(reference, n) =>
      && n == now && reference in s.locators && reference in s.last && s.last[reference].id == id
      && RecordAt(c, s.logs, s.locators[reference], reference).Some?
    case _ => false
  }

  lemma ArchivesAt(c: Codec, s: State, step: Step, id: nat, now: int, exact: bool)
    requires Inv(c, s, exact) && Enabled(c, s, step) && ArchivesNow(c, s, step, id, now)
    ensures
      var t := Next(c, s, step);
      id in t.rows && t.rows[id].status == Archived && t.rows[id].archivedAt == now
  {
    match step
    case Verdict(_, status, body, deliveries, _) => VerdictLeaves(c, s, id, status, body, deliveries, now, exact);
    case Retire(_, body, _) => RetireLeaves(c, s, id, body, now, exact);
    case Restore(reference, _) => RestoreLeaves(c, s, reference, now, exact);
  }

  /** An item that a request archives, or restores, stays for thirty days: however the run goes on, no
      pass up to that time selects it, with any cursor. */
  lemma ArchivedStaysThirtyDays(c: Codec, s: State, step: Step, id: nat, now: int, rest: seq<Step>, clock: int,
                                k: Candidate, after: Candidate, exact: bool)
    requires Good(c) && Inv(c, s, exact) && Dated(s) && Enabled(c, s, step) && Admissible(s, step, exact)
    requires ArchivesNow(c, s, step, id, now) && Runs(c, Next(c, s, step), rest, exact)
    requires forall i :: 0 <= i < |rest| ==> NotBefore(rest[i], now)
    requires clock <= now + 2_592_000_000 && k.id == id
    ensures !Selected(After(c, Next(c, s, step), rest, exact).rows, k, clock - ARCHIVE_AFTER, after)
  {
    StepKeeps(c, s, step, exact);
    NextDated(c, s, step, exact);
    ArchivesAt(c, s, step, id, now, exact);
    RunYoung(c, Next(c, s, step), rest, id, now, exact);
  }

  /** After them it is selected: an undisturbed item is found by the first pass later than that whose
      cursor is before it. */
  lemma ThenItIsSelected(s: State, id: nat, clock: int, after: Candidate)
    requires id in s.rows && s.rows[id].status == Archived && clock > s.rows[id].archivedAt + 2_592_000_000
    requires Precedes(after, Candidate(id, s.rows[id].archivedAt))
    ensures Selected(s.rows, Candidate(id, s.rows[id].archivedAt), clock - ARCHIVE_AFTER, after)
  {
  }
}
