/** Runs of one store's leases under a clock that never goes back, with the managed cycles
    that protect them: mutual exclusion, fencing and the cycles' promise to their claims. */
module LeaseRuns {
  import opened Resources
  import opened Leases

  /** An unfinished cycle as the leases see it. registered says that its session is registered
      in this store's repository now, and stayed that it always was. covered are the claims
      that the admission of a handoff found live there; a compaction protects its session's
      claims too, but extends none at its admission. */
  datatype Cycle = Cycle(holder: Holder, deadline: int, registered: bool, stayed: bool, covered: set<nat>)

  datatype Sys = Sys(store: Store, now: real, cycles: map<nat, Cycle>)

  datatype Step =
    | AcquireStep(others: nat, workId: string, consumer: string, actor: string, epoch: int,
                  optional: seq<Resource>, duration: int)
    | RenewStep(workId: string, consumer: string, generation: nat, revision: int, duration: int)
    | ProgressStep(workId: string, consumer: string, generation: nat, epoch: int)
    | OverdueStep(generation: nat, epoch: int)
    | ExpireStep(generation: nat)
    | ReleaseStep(workId: string, consumer: string, generation: nat)
    | ReclaimStep
    | ReclaimWorkStep(index: nat)
    | AdmitStep(id: nat, holder: Holder, deadline: int, handoff: bool, here: bool)
    | RegisterStep(id: nat, here: bool)
    | FinishStep(id: nat)

  /** cycleProtects: an unfinished cycle, whose session is registered here, matches the row. */
  ghost predicate Protects(cycles: map<nat, Cycle>, s: Store, generation: nat) {
    exists id, i :: id in cycles && cycles[id].registered && 0 <= i < |s.bundles| &&
      s.bundles[i].generation == generation && Matches(cycles[id].holder, s.bundles[i])
  }

  function CoveredAt(s: Store, h: Holder, now: real): set<nat> {
    set i | 0 <= i < |s.bundles| && Matches(h, s.bundles[i]) && LiveAt(s.bundles[i], now) :: s.bundles[i].generation
  }

  /** One step at s'.now, which is not earlier than s.now. */
  ghost predicate Next(s: Sys, step: Step, s': Sys) {
    && s.now <= s'.now
    && (step.AdmitStep? || step.RegisterStep? || step.FinishStep? || s'.cycles == s.cycles)
    && match step
       case AcquireStep(others, workId, consumer, actor, epoch, optional, duration) =>
         s'.store == Acquire(s.store, others, workId, consumer, actor, epoch, optional, s'.now, duration).0
       case RenewStep(workId, consumer, generation, revision, duration) =>
         s'.store == Renew(s.store, workId, consumer, generation, revision, s'.now, duration,
                           Protects(s.cycles, s.store, generation)).0
       case ProgressStep(workId, consumer, generation, epoch) =>
         s'.store == Progress(s.store, workId, consumer, generation, epoch, s'.now).0
       case OverdueStep(generation, epoch) =>
         s'.store == Overdue(s.store, generation, epoch).0
       case ExpireStep(generation) =>
         s'.store == Expire(s.store, generation, s'.now).0
       case ReleaseStep(workId, consumer, generation) =>
         s'.store == Release(s.store, workId, consumer, generation, s'.now).0
       case ReclaimStep =>
         s'.store == ReclaimOne(s.store).0
       case ReclaimWorkStep(index) =>
         && index < |s.store.bundles| && !s.store.bundles[index].active
         && s'.store == s.store.(bundles := Without(s.store.bundles, index))
       case AdmitStep(id, holder, deadline, handoff, here) =>
         && id !in s.cycles
         && s'.store == (if handoff && here then Protect(s.store, holder, deadline, s'.now) else s.store)
         && s'.cycles == s.cycles[id := Cycle(holder, deadline, here, here,
                                              if handoff && here then CoveredAt(s.store, holder, s'.now) else {})]
       case RegisterStep(id, here) =>
         && id in s.cycles
         && s'.store == s.store
         && s'.cycles == s.cycles[id := s.cycles[id].(registered := here, stayed := s.cycles[id].stayed && here)]
       case FinishStep(id) =>
         && s'.store == s.store
         && s'.cycles == map k | k in s.cycles && k != id :: s.cycles[k]
  }

  /** A run: the table starts empty, and each state follows from the one before it. */
  ghost predicate Run(states: seq<Sys>, steps: seq<Step>) {
    && |states| == |steps| + 1
    && states[0].store == Store([], 0)
    && states[0].cycles == map[]
    && forall i :: 0 <= i < |steps| ==> Next(states[i], steps[i], states[i + 1])
  }

  ghost predicate Inv(s: Sys) {
    && WellFormed(s.store)
    && Exclusive(s.store, s.now)
    && (forall id :: id in s.cycles ==> CycleInv(s.store, s.cycles[id]))
  }

  /** A cycle whose session stayed registered here keeps each active claim it covered at its
      floor or above. */
  ghost predicate CycleInv(s: Store, c: Cycle) {
    && (c.stayed ==> c.registered)
    && (forall g :: g in c.covered ==> g <= s.counter)
    && (c.stayed ==> forall i :: 0 <= i < |s.bundles| && s.bundles[i].generation in c.covered && s.bundles[i].active ==>
                       Matches(c.holder, s.bundles[i]) && s.bundles[i].expiresAt >= Floor(c.deadline))
  }

  /** A step adds a row, removes an inactive one, or changes rows in place. */
  ghost predicate Removes(s: Store, i: nat, s': Store) {
    i < |s.bundles| && !s.bundles[i].active && s' == s.(bundles := Without(s.bundles, i))
  }

  ghost predicate Appends(s: Store, s': Store) {
    s'.counter == s.counter + 1 && |s'.bundles| == |s.bundles| + 1 && s'.bundles[..|s.bundles|] == s.bundles
    && s'.bundles[|s.bundles|].generation == s'.counter
  }

  lemma StepShape(s: Sys, step: Step, s': Sys)
    requires Inv(s) && Next(s, step, s')
    ensures
      || InPlace(s.store, s'.store, s'.now) || Appends(s.store, s'.store)
      || exists i :: Removes(s.store, i, s'.store)
  {
    match step
    case AcquireStep(_, _, _, _, _, _, _) =>
    case RenewStep(workId, consumer, generation, revision, duration) =>
      RenewInPlace(s.store, workId, consumer, generation, revision, s'.now, duration,
                   Protects(s.cycles, s.store, generation));
    case ProgressStep(workId, consumer, generation, epoch) =>
      ProgressInPlace(s.store, workId, consumer, generation, epoch, s'.now);
    case OverdueStep(generation, epoch) =>
      OverdueInPlace(s.store, generation, epoch, s'.now);
    case ExpireStep(generation) =>
      EndInPlace(s.store, generation, s'.now);
    case ReleaseStep(_, _, generation) =>
      EndInPlace(s.store, generation, s'.now);
    case ReclaimStep =>
      var i := IndexWhere(s.store.bundles, (b: Bundle) => !b.active);
      assert s'.store != s.store ==> Removes(s.store, i, s'.store);
    case ReclaimWorkStep(index) =>
      assert Removes(s.store, index, s'.store);
    case AdmitStep(_, holder, deadline, _, _) =>
      ProtectInPlace(s.store, holder, deadline, s'.now);
    case RegisterStep(_, _) =>
    case FinishStep(_) =>
  }

  lemma StoreStepKeeps(s: Sys, step: Step, s': Sys)
    requires Inv(s) && Next(s, step, s')
    ensures WellFormed(s'.store) && Exclusive(s'.store, s'.now)
    ensures s.store.counter <= s'.store.counter
  {
    StepShape(s, step, s');
    if InPlace(s.store, s'.store, s'.now) {
      InPlaceKeeps(s.store, s'.store, s'.now);
    } else if i :| Removes(s.store, i, s'.store) {
      WithoutKeeps(s.store, i, s'.now);
    } else {
      assert step.AcquireStep?;
      AcquireKeeps(s.store, step.others, step.workId, step.consumer, step.actor, step.epoch, step.optional, s'.now,
                   step.duration);
    }
  }

  ghost predicate SameRow(b: Bundle, b': Bundle, now: real) {
    b'.generation == b.generation && (LiveAt(b', now) ==> LiveAt(b, now))
  }

  /** A row after the step has the generation of a row before it that was live if it is, unless
      acquire added it. */
  lemma RowsFollow(s: Sys, step: Step, s': Sys, k: nat)
    requires Inv(s) && Next(s, step, s') && k < |s'.store.bundles|
    ensures
      || s'.store.bundles[k].generation > s.store.counter
      || exists i :: 0 <= i < |s.store.bundles| && SameRow(s.store.bundles[i], s'.store.bundles[k], s'.now)
  {
    StepShape(s, step, s');
    if InPlace(s.store, s'.store, s'.now) {
      assert SameRow(s.store.bundles[k], s'.store.bundles[k], s'.now);
    } else if i :| Removes(s.store, i, s'.store) {
      assert SameRow(s.store.bundles[if k < i then k else k + 1], s'.store.bundles[k], s'.now);
    } else if k < |s.store.bundles| {
      assert SameRow(s.store.bundles[k], s'.store.bundles[k], s'.now);
    }
  }

  // The floor of a claim

  /** A renewal that no cycle protects, with a lease that ends before the floor. */
  ghost predicate ShortRenew(s: Sys, step: Step, s': Sys, generation: nat, floor: real) {
    && step.RenewStep? && step.generation == generation
    && Renew(s.store, step.workId, step.consumer, generation, step.revision, s'.now, step.duration, false).1.Granted?
    && !Protects(s.cycles, s.store, generation) && s'.now + step.duration as real < floor
  }

  /** A granted renewal of a claim at its floor or above leaves it there if and only if a cycle
      protects the claim, or the lease that it asks for reaches the floor. */
  lemma RenewKeepsFloorIff(s: Store, cycles: map<nat, Cycle>, workId: string, consumer: string, generation: nat,
                           revision: int, now: real, duration: int, k: nat, floor: real)
    requires WellFormed(s) && k < |s.bundles|
    requires s.bundles[k].generation == generation && s.bundles[k].expiresAt >= floor
    requires Renew(s, workId, consumer, generation, revision, now, duration, Protects(cycles, s, generation)).1.Granted?
    ensures
      var s' := Renew(s, workId, consumer, generation, revision, now, duration, Protects(cycles, s, generation)).0;
      s'.bundles[k].expiresAt >= floor <==> Protects(cycles, s, generation) || now + duration as real >= floor
  {
    UniqueRow(s, k, OwnerIndex(s, workId, consumer, generation, now));
  }

  /** The active row of a generation, if it has one, is at the floor or above. */
  ghost predicate AtFloor(s: Store, generation: nat, floor: real) {
    forall k :: 0 <= k < |s.bundles| && s.bundles[k].generation == generation && s.bundles[k].active ==>
      s.bundles[k].expiresAt >= floor
  }

  /** Besides a renewal, no step shortens a row, and only its expiry and its release end it. */
  lemma OtherInPlace(s: Sys, step: Step, s': Sys, k: nat)
    requires WellFormed(s.store) && Next(s, step, s') && InPlace(s.store, s'.store, s'.now) && k < |s.store.bundles|
    requires !step.RenewStep?
    ensures s'.store.bundles[k].expiresAt >= s.store.bundles[k].expiresAt
    ensures
      || s'.store.bundles[k].active == s.store.bundles[k].active
      || ((step.ExpireStep? || step.ReleaseStep?) && step.generation == s.store.bundles[k].generation)
  {
    match step
    case ProgressStep(workId, consumer, generation, epoch) =>
      ProgressInPlace(s.store, workId, consumer, generation, epoch, s'.now);
    case OverdueStep(generation, epoch) =>
      OverdueInPlace(s.store, generation, epoch, s'.now);
    case ExpireStep(generation) =>
      EndInPlace(s.store, generation, s'.now);
    case ReleaseStep(_, _, generation) =>
      EndInPlace(s.store, generation, s'.now);
    case AdmitStep(_, holder, deadline, _, _) =>
      ProtectInPlace(s.store, holder, deadline, s'.now);
    case _ =>
  }

  lemma FloorInPlace(s: Sys, step: Step, s': Sys, k: nat, floor: real)
    requires WellFormed(s.store) && Next(s, step, s') && InPlace(s.store, s'.store, s'.now) && k < |s.store.bundles|
    requires !ShortRenew(s, step, s', s.store.bundles[k].generation, floor)
    requires s.store.bundles[k].expiresAt >= floor
    ensures s'.store.bundles[k].expiresAt >= floor
  {
    if step.RenewStep? {
      var protected := Protects(s.cycles, s.store, step.generation);
      RenewInPlace(s.store, step.workId, step.consumer, step.generation, step.revision, s'.now, step.duration,
                   protected);
      if s.store.bundles[k].generation == step.generation && s'.store != s.store {
        RenewKeepsFloorIff(s.store, s.cycles, step.workId, step.consumer, step.generation, step.revision, s'.now,
                           step.duration, k, floor);
      }
    } else {
      OtherInPlace(s, step, s', k);
    }
  }

  /** A short renewal is of the one live row of its generation. */
  lemma ShortRenewShortens(s: Sys, step: Step, s': Sys, generation: nat, floor: real)
    requires Inv(s) && Next(s, step, s') && ShortRenew(s, step, s', generation, floor)
    ensures !AtFloor(s'.store, generation, floor)
  {
    var o := OwnerIndex(s.store, step.workId, step.consumer, generation, s'.now);
    assert s'.store.bundles[o].generation == generation && s'.store.bundles[o].active;
  }

  /** An active row after the step is an active row before it, unless acquire added it. */
  lemma FloorFollows(s: Sys, step: Step, s': Sys, k: nat, floor: real)
    requires Inv(s) && Next(s, step, s') && k < |s'.store.bundles| && s'.store.bundles[k].active
    requires s'.store.bundles[k].generation <= s.store.counter
    requires AtFloor(s.store, s'.store.bundles[k].generation, floor)
    requires !ShortRenew(s, step, s', s'.store.bundles[k].generation, floor)
    ensures s'.store.bundles[k].expiresAt >= floor
  {
    StepShape(s, step, s');
    if InPlace(s.store, s'.store, s'.now) {
      assert Kept(s.store.bundles[k], s'.store.bundles[k], s'.now);
      FloorInPlace(s, step, s', k, floor);
    } else if i :| Removes(s.store, i, s'.store) {
      assert s'.store.bundles[k] == s.store.bundles[if k < i then k else k + 1];
    } else {
      assert s'.store.bundles[k] == s.store.bundles[k];
    }
  }

  /** Of all steps, exactly the short renewals take a claim below its floor. */
  lemma StepKeepsFloorIff(s: Sys, step: Step, s': Sys, generation: nat, floor: real)
    requires Inv(s) && Next(s, step, s') && generation <= s.store.counter && AtFloor(s.store, generation, floor)
    ensures AtFloor(s'.store, generation, floor) <==> !ShortRenew(s, step, s', generation, floor)
  {
    if ShortRenew(s, step, s', generation, floor) {
      ShortRenewShortens(s, step, s', generation, floor);
    } else {
      forall k | && 0 <= k < |s'.store.bundles|
                 && s'.store.bundles[k].generation == generation && s'.store.bundles[k].active
        ensures s'.store.bundles[k].expiresAt >= floor
      {
        FloorFollows(s, step, s', k, floor);
      }
    }
  }

  /** A covered claim of a cycle whose session stayed is protected, so no renewal of it is short. */
  lemma StayedIsProtected(s: Sys, step: Step, s': Sys, id: nat, generation: nat)
    requires Inv(s) && id in s.cycles && s.cycles[id].stayed && generation in s.cycles[id].covered
    ensures !ShortRenew(s, step, s', generation, Floor(s.cycles[id].deadline))
  {
    assert CycleInv(s.store, s.cycles[id]);
    if step.RenewStep? && step.generation == generation {
      var o := OwnerIndex(s.store, step.workId, step.consumer, generation, s'.now);
      if o < |s.store.bundles| {
        assert Matches(s.cycles[id].holder, s.store.bundles[o]);
      }
    }
  }

  /** A covered claim keeps its floor through every step while the session stays. */
  lemma ExpiryHolds(s: Sys, step: Step, s': Sys, id: nat, k: nat)
    requires Inv(s) && Next(s, step, s') && id in s.cycles && s.cycles[id].stayed
    requires k < |s'.store.bundles|
    requires s'.store.bundles[k].generation in s.cycles[id].covered && s'.store.bundles[k].active
    ensures s'.store.bundles[k].expiresAt >= Floor(s.cycles[id].deadline)
    ensures Matches(s.cycles[id].holder, s'.store.bundles[k])
  {
    assert CycleInv(s.store, s.cycles[id]);
    StayedIsProtected(s, step, s', id, s'.store.bundles[k].generation);
    FloorFollows(s, step, s', k, Floor(s.cycles[id].deadline));
    RowMatches(s, step, s', k, s.cycles[id]);
  }

  lemma RowMatches(s: Sys, step: Step, s': Sys, k: nat, c: Cycle)
    requires Inv(s) && Next(s, step, s') && CycleInv(s.store, c) && c.stayed
    requires k < |s'.store.bundles| && s'.store.bundles[k].generation in c.covered && s'.store.bundles[k].active
    ensures Matches(c.holder, s'.store.bundles[k])
  {
    StepShape(s, step, s');
    if InPlace(s.store, s'.store, s'.now) {
      assert Kept(s.store.bundles[k], s'.store.bundles[k], s'.now);
    } else if i :| Removes(s.store, i, s'.store) {
      assert s'.store.bundles[k] == s.store.bundles[if k < i then k else k + 1];
    } else {
      assert s'.store.bundles[k] == s.store.bundles[k];
    }
  }

  lemma NextKeepsInv(s: Sys, step: Step, s': Sys)
    requires Inv(s) && Next(s, step, s')
    ensures Inv(s')
  {
    StoreStepKeeps(s, step, s');
    forall id | id in s'.cycles
      ensures CycleInv(s'.store, s'.cycles[id])
    {
      if id in s.cycles {
        assert CycleInv(s.store, s.cycles[id]);
        var c, c' := s.cycles[id], s'.cycles[id];
        assert c'.covered == c.covered && c'.deadline == c.deadline && c'.holder == c.holder;
        assert c'.stayed ==> c.stayed;
        if c'.stayed {
          forall k | && 0 <= k < |s'.store.bundles|
                     && s'.store.bundles[k].generation in c.covered && s'.store.bundles[k].active
            ensures Matches(c.holder, s'.store.bundles[k]) && s'.store.bundles[k].expiresAt >= Floor(c.deadline)
          {
            ExpiryHolds(s, step, s', id, k);
          }
        }
      } else {
        AdmissionCovers(s, step, s');
      }
    }
  }

  lemma AdmissionCovers(s: Sys, step: Step, s': Sys)
    requires Inv(s) && step.AdmitStep? && Next(s, step, s')
    ensures CycleInv(s'.store, s'.cycles[step.id])
  {
    var c := s'.cycles[step.id];
    forall k | 0 <= k < |s'.store.bundles| && s'.store.bundles[k].generation in c.covered && s'.store.bundles[k].active
      ensures Matches(c.holder, s'.store.bundles[k]) && s'.store.bundles[k].expiresAt >= Floor(c.deadline)
    {
      var i :| 0 <= i < |s.store.bundles| && Matches(c.holder, s.store.bundles[i]) &&
               LiveAt(s.store.bundles[i], s'.now) && s.store.bundles[i].generation == s'.store.bundles[k].generation;
      assert i == k;
    }
  }

  lemma {:induction false} RunKeepsInv(states: seq<Sys>, steps: seq<Step>, i: nat)
    requires Run(states, steps) && i < |states|
    ensures Inv(states[i])
  {
    if i > 0 {
      RunKeepsInv(states, steps, i - 1);
      NextKeepsInv(states[i - 1], steps[i - 1], states[i]);
    }
  }

  // The main results

  /** Mutual exclusion: in every run, at every time from the last step on, no two live bundles
      hold overlapping resources. */
  lemma MutualExclusion(states: seq<Sys>, steps: seq<Step>, i: nat, t: real)
    requires Run(states, steps) && i < |states| && t >= states[i].now
    ensures Exclusive(states[i].store, t)
  {
    RunKeepsInv(states, steps, i);
  }

  /** A generation passes owner at a time for some consumer and work item. */
  ghost predicate Owned(s: Store, generation: nat, t: real) {
    exists workId, consumer :: OwnerIndex(s, workId, consumer, generation, t) < |s.bundles|
  }

  lemma OwnedIsLive(s: Store, generation: nat, t: real)
    ensures Owned(s, generation, t) <==>
            exists i :: 0 <= i < |s.bundles| && s.bundles[i].generation == generation && LiveAt(s.bundles[i], t)
  {
    if Owned(s, generation, t) {
      var workId, consumer :| OwnerIndex(s, workId, consumer, generation, t) < |s.bundles|;
      var i := OwnerIndex(s, workId, consumer, generation, t);
      assert s.bundles[i].generation == generation && LiveAt(s.bundles[i], t);
    }
    if i :| 0 <= i < |s.bundles| && s.bundles[i].generation == generation && LiveAt(s.bundles[i], t) {
      var b := s.bundles[i];
      assert Owns(b, b.workId, b.consumer, generation, t);
      assert OwnerIndex(s, b.workId, b.consumer, generation, t) < |s.bundles|;
    }
  }

  /** Fencing: once an allocated generation has lapsed or ended, it never passes owner again,
      at any later time of the run. */
  lemma {:induction false} StaleForever(states: seq<Sys>, steps: seq<Step>, i: nat, j: nat, generation: nat, t: real)
    requires Run(states, steps) && i <= j < |states|
    requires generation <= states[i].store.counter && !Owned(states[i].store, generation, states[i].now)
    requires t >= states[j].now
    ensures generation <= states[j].store.counter && !Owned(states[j].store, generation, t)
    decreases j
  {
    OwnedIsLive(states[j].store, generation, t);
    if i == j {
      OwnedIsLive(states[i].store, generation, states[i].now);
    } else {
      var s, s' := states[j - 1], states[j];
      assert Next(s, steps[j - 1], s');
      StaleForever(states, steps, i, j - 1, generation, s'.now);
      RunKeepsInv(states, steps, j - 1);
      StoreStepKeeps(s, steps[j - 1], s');
      OwnedIsLive(s.store, generation, s'.now);
      forall k | 0 <= k < |s'.store.bundles| && s'.store.bundles[k].generation == generation
        ensures !LiveAt(s'.store.bundles[k], t)
      {
        RowsFollow(s, steps[j - 1], s', k);
      }
    }
  }

  /** Claims outlive the cycle: while a cycle is unfinished and its session stays registered in
      this store's repository, a claim that was live at the admission is active with an expiry
      of at least the cycle's deadline and its grace, or it was ended. */
  lemma ClaimsOutliveCycle(states: seq<Sys>, steps: seq<Step>, i: nat, id: nat, k: nat)
    requires Run(states, steps) && i < |states| && id in states[i].cycles && states[i].cycles[id].stayed
    requires k < |states[i].store.bundles| && states[i].store.bundles[k].generation in states[i].cycles[id].covered
    ensures states[i].store.bundles[k].active ==>
              states[i].store.bundles[k].expiresAt >= Floor(states[i].cycles[id].deadline)
  {
    RunKeepsInv(states, steps, i);
  }

  ghost predicate Held(states: seq<Sys>, i: nat, j: nat, generation: nat, floor: real)
    requires j < |states|
  {
    forall m :: i <= m <= j ==> HeldAt(states, m, generation, floor)
  }

  ghost predicate HeldAt(states: seq<Sys>, m: nat, generation: nat, floor: real)
    requires m < |states|
  {
    AtFloor(states[m].store, generation, floor)
  }

  lemma HeldOn(states: seq<Sys>, i: nat, j: nat, generation: nat, floor: real)
    requires i < j < |states|
    ensures Held(states, i, j, generation, floor) <==>
              Held(states, i, j - 1, generation, floor) && HeldAt(states, j, generation, floor)
    ensures Held(states, i, j - 1, generation, floor) ==> HeldAt(states, j - 1, generation, floor)
  {
  }

  ghost predicate NoneShort(states: seq<Sys>, steps: seq<Step>, i: nat, j: nat, generation: nat, floor: real)
    requires j <= |steps| < |states|
  {
    forall m :: i <= m < j ==> !ShortAt(states, steps, m, generation, floor)
  }

  ghost predicate ShortAt(states: seq<Sys>, steps: seq<Step>, m: nat, generation: nat, floor: real)
    requires m < |steps| < |states|
  {
    ShortRenew(states[m], steps[m], states[m + 1], generation, floor)
  }

  lemma NoneShortOn(states: seq<Sys>, steps: seq<Step>, i: nat, j: nat, generation: nat, floor: real)
    requires i < j <= |steps| < |states|
    ensures NoneShort(states, steps, i, j, generation, floor) <==>
              && NoneShort(states, steps, i, j - 1, generation, floor)
              && !ShortAt(states, steps, j - 1, generation, floor)
  {
  }

  lemma FloorGoesOn(states: seq<Sys>, steps: seq<Step>, j: nat, generation: nat, floor: real)
    requires Run(states, steps) && 0 < j < |states| && generation <= states[j - 1].store.counter
    ensures generation <= states[j].store.counter
    ensures HeldAt(states, j - 1, generation, floor) ==>
              (HeldAt(states, j, generation, floor) <==> !ShortAt(states, steps, j - 1, generation, floor))
  {
    RunKeepsInv(states, steps, j - 1);
    assert Next(states[j - 1], steps[j - 1], states[j]);
    StoreStepKeeps(states[j - 1], steps[j - 1], states[j]);
    if HeldAt(states, j - 1, generation, floor) {
      StepKeepsFloorIff(states[j - 1], steps[j - 1], states[j], generation, floor);
    }
  }

  /** The exact condition, in every run and whatever becomes of the cycle: from a state in which a
      claim is at its floor, it is there in every later state up to j if and only if none of the
      steps between renews it short and unprotected. */
  lemma {:induction false} FloorHeldIff(states: seq<Sys>, steps: seq<Step>, i: nat, j: nat, generation: nat,
                                        floor: real)
    requires Run(states, steps) && i <= j < |states| && generation <= states[i].store.counter
    requires AtFloor(states[i].store, generation, floor)
    ensures generation <= states[j].store.counter
    ensures Held(states, i, j, generation, floor) <==> NoneShort(states, steps, i, j, generation, floor)
    decreases j
  {
    if i < j {
      FloorHeldIff(states, steps, i, j - 1, generation, floor);
      FloorGoesOn(states, steps, j, generation, floor);
      HeldOn(states, i, j, generation, floor);
      NoneShortOn(states, steps, i, j, generation, floor);
    }
  }

  /** The admission of a handoff brings every claim that it covers to the floor. */
  lemma AdmissionAtFloor(states: seq<Sys>, steps: seq<Step>, i: nat, generation: nat)
    requires Run(states, steps) && i < |steps| && steps[i].AdmitStep?
    requires generation in states[i + 1].cycles[steps[i].id].covered
    ensures generation <= states[i + 1].store.counter
    ensures AtFloor(states[i + 1].store, generation, Floor(steps[i].deadline))
  {
    RunKeepsInv(states, steps, i);
    assert Next(states[i], steps[i], states[i + 1]);
    AdmissionCovers(states[i], steps[i], states[i + 1]);
  }

  ghost predicate ActiveRow(s: Store, generation: nat) {
    exists i :: 0 <= i < |s.bundles| && s.bundles[i].generation == generation && s.bundles[i].active
  }

  /** Such a claim ends in one of two ways only: its owner releases it, or it expires at or
      after the floor. So it never lapses before the cycle's deadline. */
  lemma CoveredClaimEndsOnlyByReleaseOrFloor(states: seq<Sys>, steps: seq<Step>, i: nat, id: nat, generation: nat)
    requires Run(states, steps) && i < |steps|
    requires id in states[i].cycles && states[i].cycles[id].stayed && generation in states[i].cycles[id].covered
    requires ActiveRow(states[i].store, generation) && !ActiveRow(states[i + 1].store, generation)
    ensures
      || (steps[i].ReleaseStep? && steps[i].generation == generation)
      || (steps[i].ExpireStep? && steps[i].generation == generation
          && states[i + 1].now >= Floor(states[i].cycles[id].deadline))
  {
    var s, step, s' := states[i], steps[i], states[i + 1];
    RunKeepsInv(states, steps, i);
    assert CycleInv(s.store, s.cycles[id]);
    assert Next(s, step, s');
    var k :| 0 <= k < |s.store.bundles| && s.store.bundles[k].generation == generation && s.store.bundles[k].active;
    StepShape(s, step, s');
    RowStays(s.store, s'.store, s'.now, k);
    EndsInPlace(s, step, s', k);
  }

  /** An active row stays active in a step that adds or removes a row. */
  lemma RowStays(s: Store, s': Store, now: real, k: nat)
    requires InPlace(s, s', now) || Appends(s, s') || exists i :: Removes(s, i, s')
    requires k < |s.bundles| && s.bundles[k].active
    ensures
      || ActiveRow(s', s.bundles[k].generation)
      || (InPlace(s, s', now) && !s'.bundles[k].active)
  {
    if InPlace(s, s', now) {
      assert Kept(s.bundles[k], s'.bundles[k], now);
    } else if r :| Removes(s, r, s') {
      assert s'.bundles[if k < r then k else k - 1] == s.bundles[k];
    } else {
      assert s'.bundles[k] == s.bundles[k];
    }
  }

  lemma EndsInPlace(s: Sys, step: Step, s': Sys, k: nat)
    requires WellFormed(s.store) && Next(s, step, s') && InPlace(s.store, s'.store, s'.now)
    requires k < |s.store.bundles| && s.store.bundles[k].active && !s'.store.bundles[k].active
    ensures
      || (step.ReleaseStep? && step.generation == s.store.bundles[k].generation)
      || (step.ExpireStep? && step.generation == s.store.bundles[k].generation
          && s.store.bundles[k].expiresAt <= s'.now)
  {
    if step.RenewStep? {
      RenewInPlace(s.store, step.workId, step.consumer, step.generation, step.revision, s'.now, step.duration,
                   Protects(s.cycles, s.store, step.generation));
    } else {
      OtherInPlace(s, step, s', k);
      if step.ExpireStep? {
        UniqueRow(s.store, k, IndexWhere(s.store.bundles, (b: Bundle) => b.generation == step.generation));
      }
    }
  }

  /** Such a renewal happens: when the session registers in another repository during the cycle,
      a short lease takes the covered claim below the cycle's deadline. */
  lemma MovedSessionLosesProtection() returns (states: seq<Sys>, steps: seq<Step>)
    ensures Run(states, steps) && |states| == 5
    ensures 1 in states[4].cycles && 1 in states[4].cycles[1].covered && !states[4].cycles[1].stayed
    ensures |states[4].store.bundles| == 1
    ensures states[4].store.bundles[0].active && states[4].store.bundles[0].expiresAt < 1800.0
    ensures states[4].cycles[1].deadline == 1_800_000
    ensures |steps| == 4 && ShortRenew(states[3], steps[3], states[4], 1, Floor(1_800_000))
  {
    var h, deadline := Holder("peer", "claude:s", "", false, ""), 1_800_000;
    var b := NewBundle(1, "w", "peer", "", 1, [Resource(Writer, "w")] + [], 0.0, 900.0);
    var s0, s1 := Sys(Store([], 0), 0.0, map[]), Sys(Store([b], 1), 0.0, map[]);
    var c := Cycle(h, deadline, true, true, {1});
    var s2 := Sys(Store([b.(expiresAt := 1860.0)], 1), 0.0, map[1 := c]);
    var s3 := Sys(s2.store, 0.0, map[1 := c.(registered := false, stayed := false)]);
    var s4 := Sys(Renew(s3.store, "w", "peer", 1, 1, 0.0, 60, false).0, 0.0, s3.cycles);
    states := [s0, s1, s2, s3, s4];
    steps := [AcquireStep(0, "w", "peer", "", 1, [], 900), AdmitStep(1, h, deadline, true, true),
              RegisterStep(1, false), RenewStep("w", "peer", 1, 1, 60)];
    assert Next(states[0], steps[0], states[1]);
    AdmitsOne(s1, s2, b, h, deadline);
    assert Next(states[2], steps[2], states[3]) by {
      assert s3.cycles == s2.cycles[1 := c.(registered := false, stayed := false)];
    }
    assert Owns(s3.store.bundles[0], "w", "peer", 1, 0.0);
    assert Next(states[3], steps[3], states[4]) by {
      assert !Protects(s3.cycles, s3.store, 1);
    }
  }

  /** The admission of a handoff covers the one live claim of its session. */
  lemma AdmitsOne(s: Sys, s': Sys, b: Bundle, h: Holder, deadline: int)
    requires s.store == Store([b], 1) && s.cycles == map[] && s.now == s'.now && b.generation == 1
    requires LiveAt(b, s.now) && Matches(h, b) && b.expiresAt < Floor(deadline)
    requires s'.store == Store([b.(expiresAt := Floor(deadline))], 1)
    requires s'.cycles == map[1 := Cycle(h, deadline, true, true, {1})]
    ensures Next(s, AdmitStep(1, h, deadline, true, true), s')
  {
    assert s.store.bundles[0] == b;
    assert CoveredAt(s.store, h, s.now) == {1};
    assert Protect(s.store, h, deadline, s.now).bundles == s'.store.bundles;
  }
}
