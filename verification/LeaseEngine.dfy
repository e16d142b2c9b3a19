/** The lease engine in its own form: methods that change one store's rows in place. */
module LeaseEngine {
  import opened Resources
  import opened Leases

  class Engine {
    var bundles: seq<Bundle>
    var counter: nat

    ghost function State(): Store
      reads this
    {
      Store(bundles, counter)
    }

    constructor ()
      ensures State() == Store([], 0)
    {
      bundles, counter := [], 0;
    }

    method Overlapping(keys: seq<Resource>, held: seq<Resource>) returns (found: bool)
      ensures found == BundlesOverlap(keys, held)
    {
      for j := 0 to |held|
        invariant forall i, k :: 0 <= i < |keys| && 0 <= k < j ==> !Overlaps(keys[i], held[k])
      {
        for i := 0 to |keys|
          invariant forall k :: 0 <= k < i ==> !Overlaps(keys[k], held[j])
        {
          if Overlaps(keys[i], held[j]) {
            return true;
          }
        }
      }
      return false;
    }

    method Acquire(others: nat, workId: string, consumer: string, actor: string, epoch: int,
                   optional: seq<Resource>, now: real, duration: int) returns (outcome: Outcome)
      modifies this
      ensures (State(), outcome) ==
              Leases.Acquire(old(State()), others, workId, consumer, actor, epoch, optional, now, duration)
    {
      var taken := ClaimBundle(workId, optional);
      if taken.None? {
        return Refused(InvalidRequest);
      }
      var keys := taken.value;
      var i := 0;
      while i < |bundles|
        invariant i <= |bundles| && State() == old(State())
        invariant FirstBlock(bundles, keys, workId, now) == FirstBlock(bundles[i..], keys, workId, now)
      {
        var b := bundles[i];
        assert bundles[i..][0] == b && bundles[i..][1..] == bundles[i + 1..];
        if b.active && b.expiresAt > now {
          var conflict := Overlapping(keys, b.resources);
          if conflict {
            return Refused(ClaimConflict(b.generation));
          }
        }
        if b.workId == workId {
          return Refused(ClaimCapacity);
        }
        i := i + 1;
      }
      if |bundles| >= MAX_BUNDLES {
        return Refused(ClaimCapacity);
      }
      if |bundles| + others >= MAX_DAEMON_BUNDLES {
        return Refused(ClaimCapacity);
      }
      if counter >= MAX_INT64 {
        return Refused(CounterExhausted);
      }
      counter := counter + 1;
      var expires := now + duration as real;
      bundles := bundles + [NewBundle(counter, workId, consumer, actor, epoch, keys, now, expires)];
      outcome := Granted(counter, 1, expires);
    }

    /** The live row of the owner, if any. */
    method Owner(workId: string, consumer: string, generation: nat, now: real) returns (i: nat)
      ensures i == OwnerIndex(State(), workId, consumer, generation, now)
    {
      i := IndexWhere(bundles, (b: Bundle) => Owns(b, workId, consumer, generation, now));
    }

    method Renew(workId: string, consumer: string, generation: nat, revision: int, now: real, duration: int,
                 protected: bool) returns (outcome: Outcome)
      modifies this`bundles
      ensures (State(), outcome) ==
              Leases.Renew(old(State()), workId, consumer, generation, revision, now, duration, protected)
    {
      var i := Owner(workId, consumer, generation, now);
      if i == |bundles| {
        return Refused(StaleClaim);
      }
      var b := bundles[i];
      if b.revision != revision {
        return Refused(RevisionConflict(b.revision));
      }
      if revision == MAX_INT64 {
        return Refused(CounterExhausted);
      }
      var expires := now + duration as real;
      if protected {
        expires := Max(expires, b.expiresAt);
      }
      bundles := Update(bundles, generation,
        (b: Bundle) => b.(revision := revision + 1, renewedAt := now, expiresAt := expires));
      assert State() == Leases.Renew(old(State()), workId, consumer, generation, revision, now, duration, protected).0;
      outcome := Granted(generation, revision + 1, expires);
    }

    method Progress(workId: string, consumer: string, generation: nat, epoch: int, now: real) returns (outcome: Outcome)
      modifies this`bundles
      ensures (State(), outcome) == Leases.Progress(old(State()), workId, consumer, generation, epoch, now)
    {
      var i := Owner(workId, consumer, generation, now);
      if i == |bundles| {
        return Refused(StaleClaim);
      }
      if epoch != bundles[i].progressEpoch + 1 {
        return Refused(IncompatibleStore);
      }
      bundles := Update(bundles, generation,
        (b: Bundle) => b.(progressEpoch := epoch, overdueRecorded := false, overdueCredit := true));
      assert State() == Leases.Progress(old(State()), workId, consumer, generation, epoch, now).0;
      outcome := Done(true);
    }

    method EndGeneration(generation: nat)
      modifies this`bundles
      ensures State() == End(old(State()), generation)
    {
      bundles := Update(bundles, generation,
        (b: Bundle) => b.(active := false, overdueCredit := false, endCredit := false));
      assert State().bundles == End(old(State()), generation).bundles;
    }

    method Expire(generation: nat, now: real) returns (outcome: Outcome)
      modifies this`bundles
      ensures (State(), outcome) == Leases.Expire(old(State()), generation, now)
    {
      var i := IndexWhere(bundles, (b: Bundle) => b.generation == generation);
      if i == |bundles| || !bundles[i].active || bundles[i].expiresAt > now {
        return Done(false);
      }
      EndGeneration(generation);
      outcome := Done(true);
    }

    method Release(workId: string, consumer: string, generation: nat, now: real) returns (outcome: Outcome)
      modifies this`bundles
      ensures (State(), outcome) == Leases.Release(old(State()), workId, consumer, generation, now)
    {
      var i := Owner(workId, consumer, generation, now);
      if i == |bundles| {
        return Refused(StaleClaim);
      }
      EndGeneration(generation);
      outcome := Done(true);
    }

    method ReclaimOne() returns (outcome: Outcome)
      modifies this`bundles
      ensures (State(), outcome) == Leases.ReclaimOne(old(State()))
    {
      var i := IndexWhere(bundles, (b: Bundle) => !b.active);
      if i == |bundles| {
        return Done(false);
      }
      if bundles[i].overdueCredit || bundles[i].endCredit {
        return Refused(IncompatibleStore);
      }
      bundles := Without(bundles, i);
      outcome := Done(true);
    }

    /** protectCycleClaims, row by row. */
    method ProtectCycleClaims(h: Holder, deadline: int, now: real)
      modifies this`bundles
      ensures State() == Protect(old(State()), h, deadline, now)
    {
      var floor := deadline as real / 1000.0 + CYCLE_CLAIM_GRACE;
      var i := 0;
      while i < |bundles|
        invariant i <= |bundles| == |old(bundles)|
        invariant forall k :: 0 <= k < i ==> bundles[k] == Extended(old(bundles)[k], h, deadline, now)
        invariant forall k :: i <= k < |bundles| ==> bundles[k] == old(bundles)[k]
      {
        var b := bundles[i];
        if b.active && b.expiresAt > now && b.expiresAt < floor && Matches(h, b) {
          bundles := bundles[i := b.(expiresAt := floor)];
        }
        i := i + 1;
      }
      assert bundles == Protect(old(State()), h, deadline, now).bundles;
    }
  }
}
