/** What each lease operation answers, exactly when, and the rows that it leaves
    (internal/core/claims.go). */
module LeaseAnswers {
  import opened Options
  import opened Resources
  import opened Leases

  /** The row is this consumer's live claim of the work item under this generation. */
  predicate Held(b: Bundle, workId: string, consumer: string, generation: nat, now: real) {
    && b.workId == workId && b.consumer == consumer && b.generation == generation
    && b.active && b.expiresAt > now
  }

  /** The index of the one such row, or None. */
  ghost predicate HeldAt(s: Store, workId: string, consumer: string, generation: nat, now: real, k: nat) {
    k < |s.bundles| && Held(s.bundles[k], workId, consumer, generation, now)
  }

  ghost predicate Holds(s: Store, workId: string, consumer: string, generation: nat, now: real) {
    exists k: nat :: HeldAt(s, workId, consumer, generation, now, k)
  }

  lemma OwnerIsHeld(s: Store, workId: string, consumer: string, generation: nat, now: real)
    requires WellFormed(s)
    ensures
      var o := OwnerIndex(s, workId, consumer, generation, now);
      && (o == |s.bundles| <==> !Holds(s, workId, consumer, generation, now))
      && forall k: nat :: HeldAt(s, workId, consumer, generation, now, k) ==> k == o
  {
    var o := OwnerIndex(s, workId, consumer, generation, now);
    if o < |s.bundles| {
      assert HeldAt(s, workId, consumer, generation, now, o);
    }
    forall k: nat | HeldAt(s, workId, consumer, generation, now, k)
      ensures k == o
    {
      assert Owns(s.bundles[k], workId, consumer, generation, now);
      UniqueRow(s, k, o);
    }
  }

  // renew

  /** renew is granted if and only if the claim is held at the asked revision and that revision is not
      the last one; each refusal has its own condition, and changes nothing. */
  lemma RenewAnswers(s: Store, workId: string, consumer: string, generation: nat, revision: int, now: real,
                     duration: int, protected: bool)
    requires WellFormed(s)
    ensures
      var r, held := Renew(s, workId, consumer, generation, revision, now, duration, protected),
                     Holds(s, workId, consumer, generation, now);
      && (r.1 == Refused(StaleClaim) <==> !held)
      && (forall current :: r.1 == Refused(RevisionConflict(current)) <==>
            current != revision &&
            exists k: nat :: HeldAt(s, workId, consumer, generation, now, k) && s.bundles[k].revision == current)
      && (r.1 == Refused(CounterExhausted) <==>
            revision == 9223372036854775807 &&
            exists k: nat :: HeldAt(s, workId, consumer, generation, now, k) && s.bundles[k].revision == revision)
      && (r.1.Granted? <==>
            revision != 9223372036854775807 &&
            exists k: nat :: HeldAt(s, workId, consumer, generation, now, k) && s.bundles[k].revision == revision)
      && (!r.1.Granted? ==> r.0 == s)
  {
    OwnerIsHeld(s, workId, consumer, generation, now);
    var o := OwnerIndex(s, workId, consumer, generation, now);
    assert o < |s.bundles| ==> HeldAt(s, workId, consumer, generation, now, o);
  }

  /** A granted renewal extends the claim to the asked lease, and a protected one never below what it
      had. */
  lemma RenewExtends(s: Store, workId: string, consumer: string, generation: nat, revision: int, now: real,
                     duration: int, protected: bool, k: nat)
    requires WellFormed(s) && HeldAt(s, workId, consumer, generation, now, k)
    requires Renew(s, workId, consumer, generation, revision, now, duration, protected).1.Granted?
    ensures
      var r := Renew(s, workId, consumer, generation, revision, now, duration, protected);
      var b, b' := s.bundles[k], r.0.bundles[k];
      && r.1 == Granted(generation, revision + 1, b'.expiresAt)
      && b'.revision == b.revision + 1 == revision + 1 && b'.renewedAt == now
      && b'.expiresAt >= now + duration as real
      && (!protected ==> b'.expiresAt == now + duration as real)
      && (protected ==> b'.expiresAt >= b.expiresAt
                        && (b'.expiresAt == b.expiresAt || b'.expiresAt == now + duration as real))
  {
    OwnerIsHeld(s, workId, consumer, generation, now);
  }

  // progress, release, overdue, expire

  /** progress is done if and only if the claim is held and the epoch is its next one; then the row has
      that epoch and its overdue obligation is armed again. */
  lemma ProgressAnswers(s: Store, workId: string, consumer: string, generation: nat, epoch: int, now: real)
    requires WellFormed(s)
    ensures
      var r, held := Progress(s, workId, consumer, generation, epoch, now), Holds(s, workId, consumer, generation, now);
      && (r.1 == Refused(StaleClaim) <==> !held)
      && (r.1 == Refused(IncompatibleStore) <==>
            exists k: nat :: HeldAt(s, workId, consumer, generation, now, k) && s.bundles[k].progressEpoch + 1 != epoch)
      && (r.1 == Done(true) <==>
            exists k: nat :: HeldAt(s, workId, consumer, generation, now, k) && s.bundles[k].progressEpoch + 1 == epoch)
      && (r.1 == Done(true) || r.1.Refused?) && (r.1.Refused? ==> r.0 == s)
      && (r.1 == Done(true) ==>
            && r.0.counter == s.counter && |r.0.bundles| == |s.bundles|
            && forall k :: 0 <= k < |s.bundles| ==>
                 var b, b' := s.bundles[k], r.0.bundles[k];
                 if b.generation == generation
                 then b'.progressEpoch == epoch && !b'.overdueRecorded && b'.overdueCredit
                      && b == b'.(progressEpoch := b.progressEpoch, overdueRecorded := b.overdueRecorded,
                                  overdueCredit := b.overdueCredit)
                 else b' == b)
  {
    OwnerIsHeld(s, workId, consumer, generation, now);
    var o := OwnerIndex(s, workId, consumer, generation, now);
    assert o < |s.bundles| ==> HeldAt(s, workId, consumer, generation, now, o);
  }

  /** release ends the generation if and only if the claim is held. */
  lemma ReleaseAnswers(s: Store, workId: string, consumer: string, generation: nat, now: real)
    requires WellFormed(s)
    ensures
      var r := Release(s, workId, consumer, generation, now);
      if Holds(s, workId, consumer, generation, now)
      then r.1 == Done(true) && r.0.counter == s.counter && EndsRows(s, r.0, generation)
      else r == (s, Refused(StaleClaim))
  {
    OwnerIsHeld(s, workId, consumer, generation, now);
    EndInPlace(s, generation, now);
  }

  /** The rows of the generation, and no others, are ended. */
  ghost predicate EndsRows(s: Store, s': Store, generation: nat) {
    && |s'.bundles| == |s.bundles|
    && forall k :: 0 <= k < |s.bundles| ==>
         var b, b' := s.bundles[k], s'.bundles[k];
         if b.generation == generation
         then !b'.active && !b'.overdueCredit && !b'.endCredit
              && b == b'.(active := b.active, overdueCredit := b.overdueCredit, endCredit := b.endCredit)
         else b' == b
  }

  ghost predicate RowAt(s: Store, generation: nat, k: nat) {
    k < |s.bundles| && s.bundles[k].generation == generation
  }

  lemma RowIndex(s: Store, generation: nat)
    requires WellFormed(s)
    ensures
      var i := IndexWhere(s.bundles, (b: Bundle) => b.generation == generation);
      forall k: nat :: RowAt(s, generation, k) <==> k == i && i < |s.bundles|
  {
    var i := IndexWhere(s.bundles, (b: Bundle) => b.generation == generation);
    forall k: nat | RowAt(s, generation, k)
      ensures k == i && i < |s.bundles|
    {
      UniqueRow(s, k, i);
    }
  }

  /** expire ends the generation if and only if its row is active and its time has come. */
  lemma ExpireAnswers(s: Store, generation: nat, now: real)
    requires WellFormed(s)
    ensures
      var r := Expire(s, generation, now);
      if exists k: nat :: RowAt(s, generation, k) && s.bundles[k].active && s.bundles[k].expiresAt <= now
      then r.1 == Done(true) && r.0.counter == s.counter && EndsRows(s, r.0, generation)
      else r == (s, Done(false))
  {
    RowIndex(s, generation);
    EndInPlace(s, generation, now);
    var i := IndexWhere(s.bundles, (b: Bundle) => b.generation == generation);
    assert i < |s.bundles| ==> RowAt(s, generation, i);
  }

  /** overdue spends the credit of an active row that has not recorded it, at the row's epoch. */
  lemma OverdueAnswers(s: Store, generation: nat, epoch: int)
    requires WellFormed(s)
    ensures
      var r := Overdue(s, generation, epoch);
      var due := exists k: nat :: RowAt(s, generation, k) && s.bundles[k].active && !s.bundles[k].overdueRecorded;
      && (r.1 == Done(false) <==> !due)
      && (r.1 == Refused(IncompatibleStore) <==>
            due && exists k: nat :: RowAt(s, generation, k) && s.bundles[k].progressEpoch != epoch)
      && (r.1 == Done(true) <==>
            due && exists k: nat :: RowAt(s, generation, k) && s.bundles[k].progressEpoch == epoch)
      && (r.1 != Done(true) ==> r.0 == s)
      && (r.1 == Done(true) ==>
            && r.0.counter == s.counter && |r.0.bundles| == |s.bundles|
            && forall k :: 0 <= k < |s.bundles| ==>
                 var b, b' := s.bundles[k], r.0.bundles[k];
                 if b.generation == generation
                 then b'.overdueRecorded && !b'.overdueCredit
                      && b == b'.(overdueRecorded := b.overdueRecorded, overdueCredit := b.overdueCredit)
                 else b' == b)
  {
    RowIndex(s, generation);
    var i := IndexWhere(s.bundles, (b: Bundle) => b.generation == generation);
    assert i < |s.bundles| ==> RowAt(s, generation, i);
  }

  /** reclaimOne deletes the oldest inactive row if there is one, and no other. */
  lemma ReclaimAnswers(s: Store)
    requires WellFormed(s)
    ensures
      var r := ReclaimOne(s);
      if exists k: nat :: 0 <= k < |s.bundles| && !s.bundles[k].active
      then r.1 == Done(true) && exists k: nat :: ReclaimsAt(s, r.0, k)
      else r == (s, Done(false))
  {
    var i := IndexWhere(s.bundles, (b: Bundle) => !b.active);
    if i < |s.bundles| {
      assert ReclaimsAt(s, ReclaimOne(s).0, i);
    }
  }

  ghost predicate ReclaimsAt(s: Store, s': Store, k: nat) {
    && k < |s.bundles| && !s.bundles[k].active
    && (forall i :: 0 <= i < |s.bundles| && !s.bundles[i].active ==> s.bundles[k].generation <= s.bundles[i].generation)
    && s'.counter == s.counter && s'.bundles == s.bundles[..k] + s.bundles[k + 1..]
  }

  // acquire

  /** The row is live on a key that overlaps one of the claim's. */
  ghost predicate Conflicts(b: Bundle, workId: string, optional: seq<Resource>, now: real) {
    b.active && b.expiresAt > now &&
    exists i, j :: 0 <= i < |b.resources| && 0 <= j <= |optional|
                   && Overlaps(b.resources[i], ([Resource(Writer, workId)] + optional)[j])
  }

  /** The first row that refuses the claim. */
  ghost predicate Blocks(s: Store, workId: string, optional: seq<Resource>, now: real, k: nat) {
    && k < |s.bundles|
    && (Conflicts(s.bundles[k], workId, optional, now) || s.bundles[k].workId == workId)
    && forall i :: 0 <= i < k ==> !Conflicts(s.bundles[i], workId, optional, now) && s.bundles[i].workId != workId
  }

  ghost predicate Blocked(s: Store, workId: string, optional: seq<Resource>, now: real) {
    exists k: nat :: Blocks(s, workId, optional, now, k)
  }

  lemma ConflictIs(b: Bundle, workId: string, optional: seq<Resource>, now: real)
    ensures Conflicts(b, workId, optional, now) <==>
              LiveAt(b, now) && BundlesOverlap([Resource(Writer, workId)] + optional, b.resources)
  {
    var keys := [Resource(Writer, workId)] + optional;
    BundlesOverlapIsSymmetric(keys, b.resources);
    if BundlesOverlap(b.resources, keys) {
      var i, j :| 0 <= i < |b.resources| && 0 <= j < |keys| && Overlaps(b.resources[i], keys[j]);
      assert 0 <= j <= |optional|;
    }
  }

  lemma {:induction false} FirstBlockIs(bundles: seq<Bundle>, workId: string, optional: seq<Resource>, now: real)
    returns (k: nat)
    ensures k <= |bundles|
    ensures forall i :: 0 <= i < k ==>
              !Conflicts(bundles[i], workId, optional, now) && bundles[i].workId != workId
    ensures k == |bundles| <==> FirstBlock(bundles, [Resource(Writer, workId)] + optional, workId, now) == None
    ensures k < |bundles| ==>
              && (Conflicts(bundles[k], workId, optional, now) || bundles[k].workId == workId)
              && FirstBlock(bundles, [Resource(Writer, workId)] + optional, workId, now) ==
                 Some(if Conflicts(bundles[k], workId, optional, now) then ClaimConflict(bundles[k].generation)
                      else ClaimCapacity)
    decreases |bundles|
  {
    var keys := [Resource(Writer, workId)] + optional;
    if bundles == [] {
      k := 0;
    } else {
      ConflictIs(bundles[0], workId, optional, now);
      if Block(bundles[0], keys, workId, now).Some? {
        k := 0;
      } else {
        var n := FirstBlockIs(bundles[1..], workId, optional, now);
        k := n + 1;
      }
    }
  }

  lemma OneBlocks(s: Store, workId: string, optional: seq<Resource>, now: real, i: nat, j: nat)
    requires Blocks(s, workId, optional, now, i) && Blocks(s, workId, optional, now, j)
    ensures i == j
  {
  }

  /** acquire is granted if and only if the resources are good, no row of the store blocks the claim,
      there are fewer than 16 rows in the store and 32 in the daemon, and the counter is not exhausted;
      the first row that blocks it gives the refusal. */
  lemma AcquireAnswers(s: Store, others: nat, workId: string, consumer: string, actor: string, epoch: int,
                       optional: seq<Resource>, now: real, duration: int)
    ensures
      var r := Acquire(s, others, workId, consumer, actor, epoch, optional, now, duration);
      var blocked := Blocked(s, workId, optional, now);
      var full := |s.bundles| >= 16 || |s.bundles| + others >= 32;
      && (r.1 == Refused(InvalidRequest) <==> !GoodOptional(optional))
      && (forall g :: r.1 == Refused(ClaimConflict(g)) <==>
            GoodOptional(optional) &&
            exists k: nat :: Blocks(s, workId, optional, now, k) && Conflicts(s.bundles[k], workId, optional, now)
                        && s.bundles[k].generation == g)
      && (r.1 == Refused(ClaimCapacity) <==>
            GoodOptional(optional) &&
            ((!blocked && full) ||
             exists k: nat :: Blocks(s, workId, optional, now, k) && !Conflicts(s.bundles[k], workId, optional, now)))
      && (r.1 == Refused(CounterExhausted) <==>
            GoodOptional(optional) && !blocked && !full && s.counter >= 9223372036854775807)
      && (r.1.Granted? <==> GoodOptional(optional) && !blocked && !full && s.counter < 9223372036854775807)
      && (!r.1.Granted? ==> r.0 == s)
  {
    var k := FirstBlockIs(s.bundles, workId, optional, now);
    if k < |s.bundles| {
      assert Blocks(s, workId, optional, now, k);
      forall i: nat | Blocks(s, workId, optional, now, i)
        ensures i == k
      {
        OneBlocks(s, workId, optional, now, i, k);
      }
    }
  }

  /** A granted claim is a new row of the next generation, live from now for its duration. */
  lemma AcquireAppends(s: Store, others: nat, workId: string, consumer: string, actor: string, epoch: int,
                       optional: seq<Resource>, now: real, duration: int)
    requires Acquire(s, others, workId, consumer, actor, epoch, optional, now, duration).1.Granted?
    ensures
      var r := Acquire(s, others, workId, consumer, actor, epoch, optional, now, duration);
      && r.1 == Granted(s.counter + 1, 1, now + duration as real) && r.0.counter == s.counter + 1
      && |r.0.bundles| == |s.bundles| + 1 && r.0.bundles[..|s.bundles|] == s.bundles
      && var b := r.0.bundles[|s.bundles|];
      && b.generation == s.counter + 1 && b.workId == workId && b.consumer == consumer && b.nativeActor == actor
      && b.revision == 1 && b.issuedAt == b.renewedAt == now && b.expiresAt == now + duration as real
      && b.progressEpoch == epoch && !b.overdueRecorded && b.active && b.overdueCredit && b.endCredit
      && b.resources == [Resource(Writer, workId)] + optional
  {
  }

  /** The protection raises exactly the live claims that match to a minute after the cycle's deadline,
      which is in milliseconds, unless they are there already; and it touches nothing else. */
  lemma ProtectRaises(s: Store, h: Holder, deadline: int, now: real, k: nat)
    requires k < |s.bundles|
    ensures
      var t, b := Protect(s, h, deadline, now), s.bundles[k];
      && |t.bundles| == |s.bundles| && t.counter == s.counter
      && t.bundles[k] == b.(expiresAt := t.bundles[k].expiresAt)
      && if b.active && b.expiresAt > now && Matches(h, b)
         then 1000.0 * t.bundles[k].expiresAt == Max(1000.0 * b.expiresAt, (deadline + 60_000) as real)
         else t.bundles[k] == b
  {
    assert 1000.0 * Floor(deadline) == (deadline + 60_000) as real;
  }
}
