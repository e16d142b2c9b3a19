/** The advisory lease engine (internal/core/claims.go) as functions on one work store's
    table, and a cycle's protection of leases (internal/core/context_cycle_claims.go). Times
    are seconds. */
module Leases {
  import opened Options
  import opened Resources

  const MAX_BUNDLES := 16
  const MAX_DAEMON_BUNDLES := 32
  const MAX_INT64 := 0x7fff_ffff_ffff_ffff
  const CYCLE_CLAIM_GRACE := 60.0

  /** A claim_bundles row with its claim_resources rows. */
  datatype Bundle = Bundle(
    generation: nat, workId: string, consumer: string, nativeActor: string, revision: int,
    issuedAt: real, renewedAt: real, expiresAt: real, progressEpoch: int,
    overdueRecorded: bool, active: bool, overdueCredit: bool, endCredit: bool,
    resources: seq<Resource>)

  /** One store: its bundles in generation order and its durable claim counter. */
  datatype Store = Store(bundles: seq<Bundle>, counter: nat)

  datatype Refusal =
    | InvalidRequest
    | ClaimConflict(generation: nat)
    | ClaimCapacity
    | CounterExhausted
    | StaleClaim
    | RevisionConflict(current: int)
    | IncompatibleStore

  datatype Outcome =
    | Granted(generation: nat, revision: int, expiresAt: real)
    | Done(changed: bool)
    | Refused(refusal: Refusal)

  predicate LiveAt(b: Bundle, t: real) {
    b.active && b.expiresAt > t
  }

  /** Changes the rows of one generation. */
  function Update(bundles: seq<Bundle>, generation: nat, change: Bundle -> Bundle): (r: seq<Bundle>)
    ensures |r| == |bundles|
    ensures forall i :: 0 <= i < |r| ==>
              r[i] == if bundles[i].generation == generation then change(bundles[i]) else bundles[i]
  {
    seq(|bundles|, i requires 0 <= i < |bundles| =>
      if bundles[i].generation == generation then change(bundles[i]) else bundles[i])
  }

  /** The index of the first row that p selects, or the row count. */
  function IndexWhere(bundles: seq<Bundle>, p: Bundle -> bool): (i: nat)
    ensures i <= |bundles|
    ensures i < |bundles| ==> p(bundles[i])
    ensures forall j :: 0 <= j < i ==> !p(bundles[j])
  {
    if bundles == [] || p(bundles[0]) then 0 else 1 + IndexWhere(bundles[1..], p)
  }

  // acquire

  /** A retained bundle refuses a claim: it is live on an overlapping key, or it is the work
      item's own. */
  function Block(b: Bundle, keys: seq<Resource>, workId: string, now: real): Option<Refusal> {
    if LiveAt(b, now) && BundlesOverlap(keys, b.resources) then Some(ClaimConflict(b.generation))
    else if b.workId == workId then Some(ClaimCapacity)
    else None
  }

  function FirstBlock(bundles: seq<Bundle>, keys: seq<Resource>, workId: string, now: real): (r: Option<Refusal>)
    ensures r == None <==> forall i :: 0 <= i < |bundles| ==> Block(bundles[i], keys, workId, now) == None
  {
    if bundles == [] then None
    else
      var first := Block(bundles[0], keys, workId, now);
      if first.Some? then first else FirstBlock(bundles[1..], keys, workId, now)
  }

  function NewBundle(generation: nat, workId: string, consumer: string, actor: string, epoch: int,
                     keys: seq<Resource>, now: real, expires: real): Bundle
  {
    Bundle(generation, workId, consumer, actor, 1, now, now, expires, epoch, false, true, true, true, keys)
  }

  function Acquire(s: Store, others: nat, workId: string, consumer: string, actor: string, epoch: int,
                   optional: seq<Resource>, now: real, duration: int): (r: (Store, Outcome))
    ensures r.1.Refused? ==> r.0 == s
  {
    var keys := [Resource(Writer, workId)] + optional;
    var block := FirstBlock(s.bundles, keys, workId, now);
    if !GoodOptional(optional) then (s, Refused(InvalidRequest))
    else if block.Some? then (s, Refused(block.value))
    else if |s.bundles| >= MAX_BUNDLES || |s.bundles| + others >= MAX_DAEMON_BUNDLES then (s, Refused(ClaimCapacity))
    else if s.counter >= MAX_INT64 then (s, Refused(CounterExhausted))
    else
      var g, expires := s.counter + 1, now + duration as real;
      (Store(s.bundles + [NewBundle(g, workId, consumer, actor, epoch, keys, now, expires)], g), Granted(g, 1, expires))
  }

  // owner, renew, progress

  /** owner: consumer holds this generation of workId live now. */
  predicate Owns(b: Bundle, workId: string, consumer: string, generation: nat, now: real) {
    b.workId == workId && b.consumer == consumer && b.generation == generation && LiveAt(b, now)
  }

  function OwnerIndex(s: Store, workId: string, consumer: string, generation: nat, now: real): (i: nat)
    ensures i <= |s.bundles|
    ensures i < |s.bundles| ==> Owns(s.bundles[i], workId, consumer, generation, now)
    ensures i == |s.bundles| ==> forall j :: 0 <= j < i ==> !Owns(s.bundles[j], workId, consumer, generation, now)
  {
    IndexWhere(s.bundles, b => Owns(b, workId, consumer, generation, now))
  }

  function Max(a: real, b: real): real {
    if a < b then b else a
  }

  function Renew(s: Store, workId: string, consumer: string, generation: nat, revision: int, now: real,
                 duration: int, protected: bool): (r: (Store, Outcome))
    ensures r.1.Refused? ==> r.0 == s
  {
    var i := OwnerIndex(s, workId, consumer, generation, now);
    if i == |s.bundles| then (s, Refused(StaleClaim))
    else if s.bundles[i].revision != revision then (s, Refused(RevisionConflict(s.bundles[i].revision)))
    else if revision == MAX_INT64 then (s, Refused(CounterExhausted))
    else
      var asked := now + duration as real;
      var expires := if protected then Max(asked, s.bundles[i].expiresAt) else asked;
      (s.(bundles := Update(s.bundles, generation,
            (b: Bundle) => b.(revision := revision + 1, renewedAt := now, expiresAt := expires))),
       Granted(generation, revision + 1, expires))
  }

  function Progress(s: Store, workId: string, consumer: string, generation: nat, epoch: int,
                    now: real): (r: (Store, Outcome))
    ensures r.1.Refused? ==> r.0 == s
  {
    var i := OwnerIndex(s, workId, consumer, generation, now);
    if i == |s.bundles| then (s, Refused(StaleClaim))
    else if epoch != s.bundles[i].progressEpoch + 1 then (s, Refused(IncompatibleStore))
    else
      (s.(bundles := Update(s.bundles, generation,
            (b: Bundle) => b.(progressEpoch := epoch, overdueRecorded := false, overdueCredit := true))),
       Done(true))
  }

  function Overdue(s: Store, generation: nat, epoch: int): (r: (Store, Outcome))
    ensures r.1 != Done(true) ==> r.0 == s
  {
    var i := IndexWhere(s.bundles, (b: Bundle) => b.generation == generation);
    if i == |s.bundles| || !s.bundles[i].active || s.bundles[i].overdueRecorded then (s, Done(false))
    else if s.bundles[i].progressEpoch != epoch then (s, Refused(IncompatibleStore))
    else
      (s.(bundles := Update(s.bundles, generation,
            (b: Bundle) => b.(overdueCredit := false, overdueRecorded := true))),
       Done(true))
  }

  // the ends of a generation

  function End(s: Store, generation: nat): Store {
    s.(bundles := Update(s.bundles, generation,
         (b: Bundle) => b.(active := false, overdueCredit := false, endCredit := false)))
  }

  function Expire(s: Store, generation: nat, now: real): (r: (Store, Outcome))
    ensures r.1 != Done(true) ==> r.0 == s
  {
    var i := IndexWhere(s.bundles, (b: Bundle) => b.generation == generation);
    if i == |s.bundles| || !s.bundles[i].active || s.bundles[i].expiresAt > now then (s, Done(false))
    else (End(s, generation), Done(true))
  }

  function Release(s: Store, workId: string, consumer: string, generation: nat, now: real): (r: (Store, Outcome))
    ensures r.1.Refused? ==> r.0 == s
  {
    if OwnerIndex(s, workId, consumer, generation, now) == |s.bundles| then (s, Refused(StaleClaim))
    else (End(s, generation), Done(true))
  }

  function Without(bundles: seq<Bundle>, i: nat): (r: seq<Bundle>)
    requires i < |bundles|
    ensures |r| == |bundles| - 1
    ensures forall k :: 0 <= k < |r| ==> r[k] == bundles[if k < i then k else k + 1]
  {
    bundles[..i] + bundles[i + 1..]
  }

  /** reclaimOne: deletes the oldest inactive bundle. */
  function ReclaimOne(s: Store): (r: (Store, Outcome))
    ensures r.1 != Done(true) ==> r.0 == s
  {
    var i := IndexWhere(s.bundles, (b: Bundle) => !b.active);
    if i == |s.bundles| then (s, Done(false))
    else if s.bundles[i].overdueCredit || s.bundles[i].endCredit then (s, Refused(IncompatibleStore))
    else (s.(bundles := Without(s.bundles, i)), Done(true))
  }

  // the cycle's protection

  /** The facts of a cycle row that its claims match: nativeActor is the session's work actor,
      and sessionLabel its family:id. */
  datatype Holder = Holder(peer: string, sessionLabel: string, nativeActor: string, held: bool, address: string)

  const PARTICIPANT_PREFIX := "participant:"

  predicate Matches(h: Holder, b: Bundle) {
    || b.consumer == h.peer
    || b.consumer == h.sessionLabel
    || (b.nativeActor != "" && b.nativeActor == h.nativeActor)
    || (h.held && h.address != "" && b.consumer == PARTICIPANT_PREFIX + h.address)
  }

  /** The protection floor of a cycle that ends at deadline (in milliseconds). */
  function Floor(deadline: int): real {
    deadline as real / 1000.0 + CYCLE_CLAIM_GRACE
  }

  /** protectCycleClaims: a live claim below the floor is extended to it. */
  function Protect(s: Store, h: Holder, deadline: int, now: real): (r: Store)
    ensures |r.bundles| == |s.bundles| && r.counter == s.counter
    ensures forall i :: 0 <= i < |s.bundles| ==> r.bundles[i] == Extended(s.bundles[i], h, deadline, now)
  {
    s.(bundles := seq(|s.bundles|, i requires 0 <= i < |s.bundles| => Extended(s.bundles[i], h, deadline, now)))
  }

  function Extended(b: Bundle, h: Holder, deadline: int, now: real): Bundle {
    if b.active && b.expiresAt > now && b.expiresAt < Floor(deadline) && Matches(h, b)
    then b.(expiresAt := Floor(deadline))
    else b
  }

  // what every operation keeps

  /** Generations grow with the table and never pass the counter; one bundle per work item; an
      active bundle still funds its end, an inactive one funds nothing. */
  ghost predicate WellFormed(s: Store) {
    && (forall i, j :: 0 <= i < j < |s.bundles| ==> s.bundles[i].generation < s.bundles[j].generation)
    && (forall i :: 0 <= i < |s.bundles| ==> 0 < s.bundles[i].generation <= s.counter)
    && (forall i, j :: 0 <= i < j < |s.bundles| ==> s.bundles[i].workId != s.bundles[j].workId)
    && (forall i :: 0 <= i < |s.bundles| ==> s.bundles[i].endCredit == s.bundles[i].active)
    && (forall i :: 0 <= i < |s.bundles| ==> s.bundles[i].overdueCredit ==> s.bundles[i].active)
  }

  /** No two live bundles hold overlapping keys. */
  ghost predicate Exclusive(s: Store, t: real) {
    forall i, j :: 0 <= i < j < |s.bundles| && LiveAt(s.bundles[i], t) && LiveAt(s.bundles[j], t) ==>
      !BundlesOverlap(s.bundles[i].resources, s.bundles[j].resources)
  }

  /** An inactive bundle never holds credits, so reclaimOne never meets a funded one. */
  lemma ReclaimNeverIncompatible(s: Store)
    requires WellFormed(s)
    ensures !ReclaimOne(s).1.Refused?
    ensures ReclaimOne(s).1 == Done(false) <==> forall i :: 0 <= i < |s.bundles| ==> s.bundles[i].active
  {
  }

  lemma BundlesOverlapIsSymmetric(a: seq<Resource>, b: seq<Resource>)
    ensures BundlesOverlap(a, b) == BundlesOverlap(b, a)
  {
    if BundlesOverlap(a, b) {
      var i, j :| 0 <= i < |a| && 0 <= j < |b| && Overlaps(a[i], b[j]);
      OverlapsIsSymmetric(a[i], b[j]);
      assert Overlaps(b[j], a[i]);
    }
    if BundlesOverlap(b, a) {
      var i, j :| 0 <= i < |b| && 0 <= j < |a| && Overlaps(b[i], a[j]);
      OverlapsIsSymmetric(b[i], a[j]);
      assert Overlaps(a[j], b[i]);
    }
  }

  /** What a change in place does to a row at a time: it keeps the row's identity and keys, and
      it brings no lapsed or ended row back. */
  ghost predicate Kept(b: Bundle, b': Bundle, now: real) {
    && b'.generation == b.generation && b'.workId == b.workId
    && b'.consumer == b.consumer && b'.nativeActor == b.nativeActor && b'.resources == b.resources
    && (LiveAt(b', now) ==> LiveAt(b, now))
    && (b'.active ==> b.active)
    && (b.endCredit == b.active ==> b'.endCredit == b'.active)
    && ((b.overdueCredit ==> b.active) ==> (b'.overdueCredit ==> b'.active))
  }

  ghost predicate InPlace(s: Store, s': Store, now: real) {
    && s'.counter == s.counter
    && |s'.bundles| == |s.bundles|
    && forall i :: 0 <= i < |s.bundles| ==> Kept(s.bundles[i], s'.bundles[i], now)
  }

  lemma UniqueRow(s: Store, i: nat, j: nat)
    requires WellFormed(s) && i < |s.bundles| && j < |s.bundles|
    requires s.bundles[i].generation == s.bundles[j].generation
    ensures i == j
  {
  }

  /** renew changes the one live row of its generation, and only its revision, its renewal time and
      its expiry. */
  lemma RenewInPlace(s: Store, workId: string, consumer: string, generation: nat, revision: int, now: real,
                     duration: int, protected: bool)
    requires WellFormed(s)
    ensures
      var s' := Renew(s, workId, consumer, generation, revision, now, duration, protected).0;
      && InPlace(s, s', now)
      && forall i :: 0 <= i < |s.bundles| ==>
           && s'.bundles[i] == s.bundles[i].(revision := s'.bundles[i].revision, renewedAt := s'.bundles[i].renewedAt,
                                             expiresAt := s'.bundles[i].expiresAt)
           && (s.bundles[i].generation != generation ==> s'.bundles[i] == s.bundles[i])
           && (protected ==> s'.bundles[i].expiresAt >= s.bundles[i].expiresAt)
  {
    var r := Renew(s, workId, consumer, generation, revision, now, duration, protected);
    var o := OwnerIndex(s, workId, consumer, generation, now);
    if r.1.Granted? {
      forall i | 0 <= i < |s.bundles|
        ensures Kept(s.bundles[i], r.0.bundles[i], now)
        ensures protected ==> r.0.bundles[i].expiresAt >= s.bundles[i].expiresAt
      {
        if s.bundles[i].generation == generation {
          UniqueRow(s, i, o);
        }
      }
    }
  }

  lemma ProgressInPlace(s: Store, workId: string, consumer: string, generation: nat, epoch: int, now: real)
    requires WellFormed(s)
    ensures
      var s' := Progress(s, workId, consumer, generation, epoch, now).0;
      && InPlace(s, s', now)
      && forall i :: 0 <= i < |s.bundles| ==>
           s'.bundles[i].expiresAt == s.bundles[i].expiresAt && s'.bundles[i].active == s.bundles[i].active
  {
    var r := Progress(s, workId, consumer, generation, epoch, now);
    var o := OwnerIndex(s, workId, consumer, generation, now);
    if r.1 == Done(true) {
      forall i | 0 <= i < |s.bundles|
        ensures Kept(s.bundles[i], r.0.bundles[i], now)
      {
        if s.bundles[i].generation == generation {
          UniqueRow(s, i, o);
        }
      }
    }
  }

  lemma OverdueInPlace(s: Store, generation: nat, epoch: int, now: real)
    ensures
      var s' := Overdue(s, generation, epoch).0;
      && InPlace(s, s', now)
      && forall i :: 0 <= i < |s.bundles| ==>
           s'.bundles[i].expiresAt == s.bundles[i].expiresAt && s'.bundles[i].active == s.bundles[i].active
  {
  }

  /** expire and release take the rows of their generation and their credits out, and change nothing
      else of any row. */
  lemma EndInPlace(s: Store, generation: nat, now: real)
    ensures InPlace(s, End(s, generation), now)
    ensures forall i :: 0 <= i < |s.bundles| ==>
              var b, b' := s.bundles[i], End(s, generation).bundles[i];
              if b.generation == generation
              then !b'.active && !b'.overdueCredit && !b'.endCredit
                   && b == b'.(active := b.active, overdueCredit := b.overdueCredit, endCredit := b.endCredit)
              else b' == b
  {
  }

  /** An admission extends exactly the live claims of its session that end before the floor, and
      exactly to the floor. */
  lemma ProtectInPlace(s: Store, h: Holder, deadline: int, now: real)
    ensures InPlace(s, Protect(s, h, deadline, now), now)
    ensures forall i :: 0 <= i < |s.bundles| ==>
              var b, b' := s.bundles[i], Protect(s, h, deadline, now).bundles[i];
              && b' == b.(expiresAt := b'.expiresAt) && b'.expiresAt >= b.expiresAt
              && (b' != b <==> LiveAt(b, now) && Matches(h, b) && b.expiresAt < Floor(deadline))
              && (b' != b ==> b'.expiresAt == Floor(deadline))
  {
  }

  lemma InPlaceKeeps(s: Store, s': Store, now: real)
    requires WellFormed(s) && Exclusive(s, now) && InPlace(s, s', now)
    ensures WellFormed(s') && Exclusive(s', now)
  {
  }

  lemma AcquireKeeps(s: Store, others: nat, workId: string, consumer: string, actor: string, epoch: int,
                     optional: seq<Resource>, now: real, duration: int)
    requires WellFormed(s) && Exclusive(s, now)
    ensures
      var s' := Acquire(s, others, workId, consumer, actor, epoch, optional, now, duration).0;
      WellFormed(s') && Exclusive(s', now)
  {
    var r := Acquire(s, others, workId, consumer, actor, epoch, optional, now, duration);
    if r.1.Granted? {
      var keys := [Resource(Writer, workId)] + optional;
      var n := |s.bundles|;
      forall i | 0 <= i < n
        ensures s.bundles[i].workId != workId
        ensures LiveAt(s.bundles[i], now) ==> !BundlesOverlap(s.bundles[i].resources, keys)
      {
        assert Block(s.bundles[i], keys, workId, now) == None;
        BundlesOverlapIsSymmetric(s.bundles[i].resources, keys);
      }
      assert r.0.bundles[n].resources == keys;
    }
  }

  lemma WithoutKeeps(s: Store, i: nat, now: real)
    requires i < |s.bundles| && WellFormed(s) && Exclusive(s, now)
    ensures WellFormed(s.(bundles := Without(s.bundles, i)))
    ensures Exclusive(s.(bundles := Without(s.bundles, i)), now)
  {
    var r := Without(s.bundles, i);
    forall j, k | 0 <= j < k < |r|
      ensures r[j].generation < r[k].generation && r[j].workId != r[k].workId
      ensures LiveAt(r[j], now) && LiveAt(r[k], now) ==> !BundlesOverlap(r[j].resources, r[k].resources)
    {
      var j', k' := if j < i then j else j + 1, if k < i then k else k + 1;
      assert r[j] == s.bundles[j'] && r[k] == s.bundles[k'] && j' < k';
    }
  }
}
