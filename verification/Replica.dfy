/** One node as a value: the applied log, the idempotency cache, tombstones,
    the durable rows and the allocator. The functions here say what each
    request and each delivery does to it; the class `SharedState` is proved to
    follow them, and the theorems about whole systems and whole runs are
    proved about them. */
module ReplicaModel {
  import opened Types
  import opened Sums
  import opened Ledger
  import Allocator

  datatype Config = Config(nodeId: string, holdMultiplier: nat, holdDuration: nat)

  datatype Replica = Replica(
    cfg: Config,
    applied: Log,
    cache: map<IdemKey, Event>,
    deleted: set<string>,
    stored: Log,
    alloc: Allocator.AllocState)

  /** Clock reading and fresh event ids for one request or delivery. */
  datatype Mint = Mint(now: nat, first: string, second: string, third: string)

  datatype Input = Input(
    bucket: string,
    account: string,
    amount: int,
    note: Option<string>,
    maxOverdraft: nat,
    nonce: string,
    allowReservedBucket: bool,
    holdAmount: Option<nat>,
    holdExpires: Option<nat>,
    settleReservation: Option<string>,
    releaseReservation: Option<string>,
    skipHold: bool,
    transferTo: Option<string>)
  {
    function Owner(): BalanceKey { BalanceKey(bucket, account) }
    function Idem(): IdemKey { IdemKey(nonce, bucket, account, amount) }
  }

  datatype Mode =
    | Charge(holdOverride: Option<(nat, nat)>)
    | Reserve
    | Settle(reservationId: string)
    | Release(reservationId: string)

  datatype Reason =
    | SettleAndRelease
    | HoldFieldsNotPaired
    | SkipHoldWithReservation
    | SkipHoldWithHold
    | SettleNeedsDebit
    | SettleWithHold
    | ReleaseNeedsZero
    | ReleaseWithHold
    | ZeroHold
    | HoldInThePast
    | CreditWithHold
    | TransferOverflows

  datatype CreateError =
    | InsufficientFunds(balance: int, available: int, projected: int, holdBlocking: bool)
    | BucketReserved(bucket: string)
    | BucketDeleted(bucket: string)
    | InvalidRequest(reason: Reason)
    | ReservationNotFound(id: string)
    | ReservationExpired(id: string)
    | ReservationAlreadyReleased(id: string)
    | ReservationOverspend(reserved: nat, attempted: nat)

  datatype CreateResult =
    | Created(primary: Event, emitted: seq<Event>)
    | Failed(error: CreateError)

  /** The refusal of a transfer whose credit is not a signed word. It comes
      after the debit was allocated, booked and cached. */
  const LATE_REFUSAL := Failed(InvalidRequest(TransferOverflows))

  datatype ModeResult = Selected(mode: Mode) | Rejected(reason: Reason)

  /** `LocalCreateMode::from_input`: which branch a request takes. */
  function ModeOf(input: Input, now: nat): ModeResult {
    var settles := input.settleReservation.Some?;
    var releases := input.releaseReservation.Some?;
    var explicitHold := input.holdAmount.Some? && input.holdExpires.Some?;
    if settles && releases then Rejected(SettleAndRelease)
    else if input.holdAmount.Some? != input.holdExpires.Some? then Rejected(HoldFieldsNotPaired)
    else if input.skipHold && (settles || releases) then Rejected(SkipHoldWithReservation)
    else if input.skipHold && explicitHold then Rejected(SkipHoldWithHold)
    else if settles then
      if input.amount >= 0 then Rejected(SettleNeedsDebit)
      else if explicitHold then Rejected(SettleWithHold)
      else Selected(Settle(input.settleReservation.value))
    else if releases then
      if input.amount != 0 then Rejected(ReleaseNeedsZero)
      else if explicitHold then Rejected(ReleaseWithHold)
      else Selected(Release(input.releaseReservation.value))
    else if explicitHold then
      if input.holdAmount.value == 0 then Rejected(ZeroHold)
      else if input.holdExpires.value <= now then Rejected(HoldInThePast)
      else if input.amount == 0 then Selected(Reserve)
      else if input.amount > 0 then Rejected(CreditWithHold)
      else Selected(Charge(Some((input.holdAmount.value, input.holdExpires.value))))
    else if input.skipHold then Selected(Charge(Some((0, 0))))
    else Selected(Charge(None))
  }

  // ---- Arithmetic of the funds guard ----

  function Min(a: int, b: int): int { if a <= b then a else b }
  function Max(a: int, b: int): int { if a >= b then a else b }
  function SaturatingSub(a: nat, b: nat): nat { if a >= b then a - b else 0 }
  function Abs(a: int): nat { if a >= 0 then a else -a }
  function Floor(maxOverdraft: nat): int { WrapI64(0 - maxOverdraft) }

  /** A tenth of the hold duration, rounded up: holds that expire sooner are renewed. */
  function RenewalWindow(cfg: Config): nat {
    (cfg.holdDuration + 9) / 10
  }

  /** The hold a debit asks for before any shrinking. */
  function RawHold(cfg: Config, amount: int): nat {
    if amount < 0 && cfg.holdMultiplier > 0 then Min(Abs(amount) * cfg.holdMultiplier, U64_MAX) else 0
  }

  /** What the bare debit leaves above the floor, in 64-bit words. */
  function Headroom(available: int, amount: int, maxOverdraft: nat): nat {
    Max(WrapI64(available + amount - Floor(maxOverdraft)), 0)
  }

  /** Implicit hold: shrunk to the headroom the bare debit leaves, less what
      this origin already holds. */
  function SizedHold(cfg: Config, amount: int, maxOverdraft: nat, available: int, current: nat): nat {
    var raw := RawHold(cfg, amount);
    var useful := if amount < 0 then Headroom(available, amount, maxOverdraft) else raw;
    SaturatingSub(Min(raw, useful), current)
  }

  /** The size in plain numbers: the configured multiple of the debit as far as
      a word holds it, at most what the bare debit leaves above the limit, and
      as much of it as is not held already. */
  lemma SizedHoldIs(cfg: Config, amount: int, maxOverdraft: nat, available: int, current: nat)
    ensures SizedHold(cfg, amount, maxOverdraft, available, current) ==
      if amount < 0
      then Max(Min(Min(-amount * cfg.holdMultiplier, U64_MAX), Max(WrapI64(available + amount + maxOverdraft), 0)) - current, 0)
      else 0
  {
    WrapSteps(available + amount, 0 - maxOverdraft);
    assert available + amount - (0 - maxOverdraft) == available + amount + maxOverdraft;
    hide WrapI64;
  }

  /** A hold outside the renewal window has a tenth of its duration or more to go. */
  lemma LastingHolds(cfg: Config, holds: set<Hold>, now: nat)
    ensures HoldsOfOrigin(holds, cfg.nodeId, now, RenewalWindow(cfg)) ==
      set h | h in holds && h.origin == cfg.nodeId && 10 * (h.expires - now) >= cfg.holdDuration
  {
  }

  // ---- Minting ----

  function Bare(cfg: Config, p: Allocator.Pair, now: nat, id: string, kind: EventType,
                owner: BalanceKey, amount: int, nonce: string): Event {
    Event(id, cfg.nodeId, p.0, p.1, now, kind, owner.bucket, owner.account, amount, None, nonce, None, 0, 0, None)
  }

  function NextPair(r: Replica, bucket: string): Allocator.Pair {
    Allocator.NextPair(r.alloc, bucket)
  }

  /** Apply an event this node just minted with the next pair of its bucket. */
  function Minted(r: Replica, e: Event): Replica {
    r.(alloc := Allocator.AfterAllocate(r.alloc, e.bucket),
       applied := With(r.applied, e),
       cache := r.cache[e.Idem() := e])
  }

  function ReservationEvent(r: Replica, input: Input, hold: nat, expires: nat, now: nat, id: string): Event {
    Bare(r.cfg, NextPair(r, input.bucket), now, id, ReservationCreate, input.Owner(), 0, ReserveNonce(input.nonce))
    .(holdAmount := hold, holdExpires := expires)
  }

  function ChargeEvent(r: Replica, input: Input, now: nat, id: string): Event {
    Bare(r.cfg, NextPair(r, input.bucket), now, id, Standard, input.Owner(), input.amount, input.nonce)
    .(note := input.note, transferTo := input.transferTo)
  }

  function CreditEvent(r: Replica, input: Input, to: string, now: nat, id: string): Event {
    Bare(r.cfg, NextPair(r, input.bucket), now, id, Standard, BalanceKey(input.bucket, to), Abs(input.amount),
         CreditNonce(input.nonce))
    .(note := input.note)
  }

  function ReserveEvent(r: Replica, input: Input, hold: nat, expires: nat, now: nat, id: string): Event {
    Bare(r.cfg, NextPair(r, input.bucket), now, id, ReservationCreate, input.Owner(), 0, input.nonce)
    .(note := input.note, holdAmount := hold, holdExpires := expires)
  }

  function ReleaseEvent(r: Replica, input: Input, nonce: string, note: Option<string>, hold: string, now: nat,
                        id: string): Event {
    Bare(r.cfg, NextPair(r, input.bucket), now, id, HoldRelease, input.Owner(), 0, nonce)
    .(note := note, voidRef := Some(hold))
  }

  // ---- Local requests ----

  ghost function CurrentOriginHold(r: Replica, owner: BalanceKey, now: nat): nat {
    WrapU64(HoldTotal(HoldsOfOrigin(ActiveHolds(r.applied, owner, now), r.cfg.nodeId, now, RenewalWindow(r.cfg))))
  }

  /** Size and expiry of the hold a charge takes. */
  ghost function ChargeHold(r: Replica, input: Input, holdOverride: Option<(nat, nat)>, now: nat): (nat, nat) {
    match holdOverride
    case Some(h) => h
    case None =>
      var hold := SizedHold(r.cfg, input.amount, input.maxOverdraft,
                            Available(r.applied, input.Owner(), now), CurrentOriginHold(r, input.Owner(), now));
      (hold, if hold > 0 then now + r.cfg.holdDuration else 0)
  }

  ghost function EmitCharge(r: Replica, input: Input, holdOverride: Option<(nat, nat)>, m: Mint): (Replica,
                            CreateResult) {
    var available := Available(r.applied, input.Owner(), m.now);
    var (hold, expires) := ChargeHold(r, input, holdOverride, m.now);
    var floor := Floor(input.maxOverdraft);
    var projected := WrapI64(available + input.amount - hold);
    if input.amount < 0 && projected < floor then
      (r, Failed(InsufficientFunds(WrapI64(Balance(r.applied, input.Owner())), available, projected,
                                   WrapI64(available + input.amount) >= floor)))
    else
      HeldCharge(r, input, hold, expires, m)
  }

  /** `checked_abs` of a transfer's amount fails: among signed words, for the least one. */
  predicate Overflows(input: Input) {
    input.transferTo.Some? && Abs(input.amount) > I64_MAX
  }

  /** The optional hold, then the charge; nothing of a request that is refused
      in between reaches the log. */
  function HeldCharge(r: Replica, input: Input, hold: nat, expires: nat, m: Mint): (Replica, CreateResult) {
    if Overflows(input) then
      (DebitBooked(r, input, hold, expires, m).(applied := r.applied), LATE_REFUSAL)
    else if hold > 0 then
      var reservation := ReservationEvent(r, input, hold, expires, m.now, m.first);
      EmitTransfer(Minted(r, reservation), input, [reservation], m)
    else
      EmitTransfer(r, input, [], m)
  }

  /** With the optional hold and the charge minted, but no credit. */
  function DebitBooked(r: Replica, input: Input, hold: nat, expires: nat, m: Mint): Replica {
    var r0 := if hold > 0 then Minted(r, ReservationEvent(r, input, hold, expires, m.now, m.first)) else r;
    Minted(r0, ChargeEvent(r0, input, m.now, m.second))
  }

  /** The charge itself and, for a transfer whose amount does not overflow, the
      credit to the other account. */
  function EmitTransfer(r: Replica, input: Input, before: seq<Event>, m: Mint): (Replica, CreateResult) {
    var charge := ChargeEvent(r, input, m.now, m.second);
    var r1 := Minted(r, charge);
    match input.transferTo
    case None => (r1, Created(charge, before + [charge]))
    case Some(to) =>
      var credit := CreditEvent(r1, input, to, m.now, m.third);
      (Minted(r1, credit), Created(charge, before + [charge, credit]))
  }

  ghost function EmitReserve(r: Replica, input: Input, m: Mint): (Replica, CreateResult) {
    var hold := if input.holdAmount.Some? then input.holdAmount.value else 0;
    var expires := if input.holdExpires.Some? then input.holdExpires.value else 0;
    var available := Available(r.applied, input.Owner(), m.now);
    var projected := WrapI64(available - hold);
    if projected < Floor(input.maxOverdraft) then
      (r, Failed(InsufficientFunds(WrapI64(Balance(r.applied, input.Owner())), available, projected, false)))
    else
      var e := ReserveEvent(r, input, hold, expires, m.now, m.first);
      (Minted(r, e), Created(e, [e]))
  }

  ghost predicate IsActive(r: Replica, owner: BalanceKey, id: string, now: nat) {
    exists h :: h in ActiveHolds(r.applied, owner, now) && h.id == id
  }

  ghost function ActiveHold(r: Replica, owner: BalanceKey, id: string, now: nat): (h: Hold)
    requires IsActive(r, owner, id, now)
    ensures h in ActiveHolds(r.applied, owner, now) && h.id == id
  {
    var h :| h in ActiveHolds(r.applied, owner, now) && h.id == id;
    h
  }

  ghost function EmitSettle(r: Replica, input: Input, id: string, m: Mint): (Replica, CreateResult) {
    if !IsActive(r, input.Owner(), id, m.now) then
      (r, Failed(ReservationNotFound(id)))
    else if Abs(input.amount) > ActiveHold(r, input.Owner(), id, m.now).amount then
      (r, Failed(ReservationOverspend(ActiveHold(r, input.Owner(), id, m.now).amount, Abs(input.amount))))
    else
      Capture(r, input, id, m)
  }

  /** The charge, and the release of the whole hold. */
  function Capture(r: Replica, input: Input, id: string, m: Mint): (Replica, CreateResult) {
    var charge := ChargeEvent(r, input.(transferTo := None), m.now, m.first);
    var r1 := Minted(r, charge);
    var release := ReleaseEvent(r1, input, ReleaseNonce(input.nonce), None, id, m.now, m.second);
    (Minted(r1, release), Created(charge, [charge, release]))
  }

  ghost function EmitRelease(r: Replica, input: Input, id: string, m: Mint): (Replica, CreateResult) {
    if !IsActive(r, input.Owner(), id, m.now) then
      (r, Failed(ReservationNotFound(id)))
    else
      var release := ReleaseEvent(r, input, input.nonce, input.note, id, m.now, m.first);
      (Minted(r, release), Created(release, [release]))
  }

  ghost function EmitMode(r: Replica, input: Input, mode: Mode, m: Mint): (Replica, CreateResult) {
    match mode
    case Charge(holdOverride) => EmitCharge(r, input, holdOverride, m)
    case Reserve => EmitReserve(r, input, m)
    case Settle(id) => EmitSettle(r, input, id, m)
    case Release(id) => EmitRelease(r, input, id, m)
  }

  ghost function Matching(log: Log, key: IdemKey): set<Event> {
    set k | k in log && log[k].Idem() == key :: log[k]
  }

  ghost predicate IsLeast(s: set<Event>, e: Event) {
    e in s && forall x :: x in s && x != e ==> Precedes(e, x)
  }

  ghost predicate DistinctIds(s: set<Event>) {
    forall x, y :: x in s && y in s && x.id == y.id ==> x == y
  }

  lemma {:induction false} LeastExists(s: set<Event>)
    requires s != {} && DistinctIds(s)
    ensures exists e :: IsLeast(s, e)
    decreases |s|
  {
    var x :| x in s;
    if s == {x} {
      assert IsLeast(s, x);
    } else {
      LeastExists(s - {x});
      var y :| IsLeast(s - {x}, y);
      PrecedesTotal(x, y);
      if Precedes(x, y) {
        forall z | z in s && z != x
          ensures Precedes(x, z)
        {
          if z != y { PrecedesTransitive(x, y, z); }
        }
        assert IsLeast(s, x);
      } else {
        assert IsLeast(s, y);
      }
    }
  }

  lemma LeastUnique(s: set<Event>, a: Event, b: Event)
    requires IsLeast(s, a) && IsLeast(s, b)
    ensures a == b
  {
    PrecedesTotal(a, b);
  }

  ghost function LeastOf(s: set<Event>): (e: Event)
    requires s != {}
    ensures e in s
    ensures DistinctIds(s) ==> IsLeast(s, e)
  {
    if DistinctIds(s) then
      LeastExists(s);
      var e :| IsLeast(s, e);
      e
    else
      var e :| e in s;
      e
  }

  lemma MatchingDistinct(log: Log, key: IdemKey)
    requires WellFormed(log)
    ensures DistinctIds(Matching(log, key))
  {
  }

  /** `create_local_events`. */
  ghost function CreateLocal(r: Replica, input: Input, m: Mint): (Replica, CreateResult) {
    if !input.allowReservedBucket && IsReservedBucketName(input.bucket) then (r, Failed(BucketReserved(input.bucket)))
    else if input.bucket in r.deleted then (r, Failed(BucketDeleted(input.bucket)))
    else match ModeOf(input, m.now)
      case Rejected(reason) => (r, Failed(InvalidRequest(reason)))
      case Selected(mode) =>
        if input.Idem() in r.cache then (r, Created(r.cache[input.Idem()], []))
        else if Matching(r.stored, input.Idem()) != {} then
          var winner := LeastOf(Matching(r.stored, input.Idem()));
          (r.(cache := r.cache[input.Idem() := winner]), Created(winner, []))
        else EmitMode(r, input, mode, m)
  }

  // ---- Bucket deletion ----

  function CacheWithout(cache: map<IdemKey, Event>, bucket: string): map<IdemKey, Event> {
    map k | k in cache && k.bucket != bucket :: cache[k]
  }

  /** Tombstone a bucket and drop every trace of it. */
  function Purge(r: Replica, bucket: string): Replica {
    r.(applied := DropBucket(r.applied, bucket),
       cache := CacheWithout(r.cache, bucket),
       deleted := r.deleted + {bucket},
       stored := DropBucket(r.stored, bucket),
       alloc := Allocator.AfterForget(r.alloc, bucket))
  }

  function DeleteEvent(r: Replica, bucket: string, reason: Option<string>, m: Mint): Event {
    Bare(r.cfg, NextPair(r, META_BUCKET), m.now, m.first, EventType.BucketDelete, BalanceKey(META_BUCKET, bucket), 0, DeleteNonce(bucket))
    .(note := reason)
  }

  /** `create_meta_bucket_delete`: the meta event is applied but its nonce is not cached. */
  function CreateDelete(r: Replica, bucket: string, reason: Option<string>, m: Mint): (Replica, CreateResult) {
    if bucket == META_BUCKET || IsReservedBucketName(bucket) then (r, Failed(BucketReserved(bucket)))
    else if bucket in r.deleted then (r, Failed(BucketDeleted(bucket)))
    else
      var e := DeleteEvent(r, bucket, reason, m);
      var r1 := Purge(r.(alloc := Allocator.AfterAllocate(r.alloc, META_BUCKET)), bucket);
      (r1.(applied := With(r1.applied, e)), Created(e, [e]))
  }

  // ---- Deliveries ----

  predicate Accepts(r: Replica, e: Event) {
    e.bucket !in r.deleted && e.seqNo >= 1 && e.Key() !in r.applied
  }

  /** The node holds exactly this event. */
  predicate Holds(r: Replica, e: Event) {
    e.Key() in r.applied && r.applied[e.Key()] == e
  }

  function VoidKey(loser: Event): IdemKey {
    IdemKey(VoidNonce(loser.id), loser.bucket, loser.account, -loser.amount)
  }

  function ReleaseKey(loser: Event): IdemKey {
    IdemKey(ReleaseNonce(loser.id), loser.bucket, loser.account, 0)
  }

  function VoidEvent(r: Replica, winner: Event, loser: Event, now: nat, id: string): Event {
    Bare(r.cfg, NextPair(r, loser.bucket), now, id, Void, loser.Owner(), -loser.amount, VoidNonce(loser.id))
    .(note := Some("void: duplicate of event " + winner.id), voidRef := Some(loser.id))
  }

  function LoserReleaseEvent(r: Replica, winner: Event, loser: Event, now: nat, id: string): Event {
    Bare(r.cfg, NextPair(r, loser.bucket), now, id, HoldRelease, loser.Owner(), 0, ReleaseNonce(loser.id))
    .(note := Some("release hold: duplicate of event " + winner.id), voidRef := Some(loser.id))
  }

  /** `check_idempotency_conflict`: the corrections one applied event triggers. */
  ghost function Resolve(r: Replica, e: Event, m: Mint): (Replica, seq<Event>) {
    if e.Idem() !in r.cache || r.cache[e.Idem()].id == e.id then
      (r.(cache := r.cache[e.Idem() := e]), [])
    else
      var (winner, loser) := IdempotencyWinner(r.cache[e.Idem()], e);
      var r1 := r.(cache := r.cache[e.Idem() := winner]);
      if VoidKey(loser) in r1.cache || Matching(r1.stored, VoidKey(loser)) != {} then (r1, [])
      else EmitCorrections(r1, winner, loser, m)
  }

  function EmitCorrections(r: Replica, winner: Event, loser: Event, m: Mint): (Replica, seq<Event>) {
    var v := VoidEvent(r, winner, loser, m.now, m.first);
    var r1 := Minted(r, v);
    if loser.HasHold() && ReleaseKey(loser) !in r1.cache then
      var release := LoserReleaseEvent(r1, winner, loser, m.now, m.second);
      (Minted(r1, release), [v, release])
    else (r1, [v])
  }

  /** The log after the event itself, before any correction. */
  function Admit(r: Replica, e: Event): Replica {
    var target := e.MetaTargetBucket();
    var r1 := if target.Some? && target.value != META_BUCKET then Purge(r, target.value) else r;
    r1.(applied := With(r1.applied, e))
  }

  /** `insert_event`. */
  ghost function Receive(r: Replica, e: Event, m: Mint): (Replica, seq<Event>) {
    if Accepts(r, e) then Resolve(Admit(r, e), e, m) else (r, [])
  }

  /** A batch flush or orphan sweep made some applied events durable. */
  function Persist(r: Replica, keys: set<OriginKey>): Replica {
    r.(stored := r.stored + map k | k in keys && k in r.applied :: r.applied[k])
  }

  // ---- What every request and delivery keeps ----

  ghost predicate StoredAgrees(stored: Log, applied: Log) {
    forall k :: k in stored ==> k in applied && stored[k] == applied[k]
  }

  /** Every applied event of this node's own lines lies below the allocator. */
  ghost predicate OwnBelowNext(r: Replica) {
    forall k :: k in r.applied && k.line.origin == r.cfg.nodeId ==>
      Allocator.PairLess((k.line.epoch, k.seqNo), NextPair(r, k.line.bucket))
  }

  ghost predicate Valid(r: Replica) {
    && WellFormed(r.applied)
    && StoredAgrees(r.stored, r.applied)
    && Allocator.Consistent(r.alloc)
    && OwnBelowNext(r)
    && META_BUCKET !in r.deleted
    && (forall k :: k in r.applied ==> k.line.bucket !in r.deleted)
  }

  ghost predicate MintFresh(r: Replica, m: Mint) {
    && IdFresh(r.applied, m.first) && IdFresh(r.applied, m.second) && IdFresh(r.applied, m.third)
    && m.first != m.second && m.first != m.third && m.second != m.third
  }

  /** A delivered event fits: its id is new and, if it is one of this node's
      own, this node did issue it. */
  ghost predicate Deliverable(r: Replica, e: Event) {
    && IdFresh(r.applied, e.id)
    && (e.origin == r.cfg.nodeId ==> Allocator.PairLess((e.epoch, e.seqNo), NextPair(r, e.bucket)))
  }

  ghost predicate MintsNext(r: Replica, e: Event) {
    && e.origin == r.cfg.nodeId
    && (e.epoch, e.seqNo) == NextPair(r, e.bucket)
    && e.bucket !in r.deleted
    && IdFresh(r.applied, e.id)
  }

  /** The next pair is always new, positive, and minting with it keeps the replica valid. */
  lemma MintedValid(r: Replica, e: Event)
    requires Valid(r) && MintsNext(r, e)
    ensures e.Key() !in r.applied && e.seqNo >= 1
    ensures Valid(Minted(r, e))
    ensures NextPair(Minted(r, e), e.bucket) == (e.epoch, e.seqNo + 1)
    ensures forall b :: b != e.bucket ==> NextPair(Minted(r, e), b) == NextPair(r, b)
  {
    Allocator.AllocateAdvances(r.alloc, e.bucket);
    WithWellFormed(r.applied, e);
  }

  lemma AddValid(r: Replica, e: Event)
    requires Valid(r) && Accepts(r, e) && Deliverable(r, e)
    ensures Valid(r.(applied := With(r.applied, e)))
  {
    WithWellFormed(r.applied, e);
    hide WellFormed;
  }

  lemma StoredFree(r: Replica, stored: Log)
    requires Valid(r) && StoredAgrees(stored, r.applied)
    ensures Valid(r.(stored := stored))
  {
  }

  lemma CacheFree(r: Replica, cache: map<IdemKey, Event>)
    requires Valid(r)
    ensures Valid(r.(cache := cache))
  {
  }

  lemma PurgeBelowNext(r: Replica, bucket: string)
    requires OwnBelowNext(r)
    ensures OwnBelowNext(Purge(r, bucket))
  {
  }

  lemma PurgeValid(r: Replica, bucket: string)
    requires Valid(r) && bucket != META_BUCKET
    ensures Valid(Purge(r, bucket))
  {
    PurgeBelowNext(r, bucket);
    hide OwnBelowNext;
  }

  // ---- A delete in two steps ----

  /** The meta event of a delete, as minted by the replica that already purged the bucket. */
  lemma DeleteSplits(r: Replica, bucket: string, reason: Option<string>, m: Mint)
    requires bucket != META_BUCKET
    ensures var q := Purge(r, bucket);
      var e := DeleteEvent(r, bucket, reason, m);
      && e == DeleteEvent(q, bucket, reason, m)
      && q.(alloc := Allocator.AfterAllocate(q.alloc, META_BUCKET)) ==
           Purge(r.(alloc := Allocator.AfterAllocate(r.alloc, META_BUCKET)), bucket)
  {
    var q := Purge(r, bucket);
    assert Allocator.NextPair(q.alloc, META_BUCKET) == Allocator.NextPair(r.alloc, META_BUCKET);
    var x := Allocator.AfterAllocate(q.alloc, META_BUCKET);
    var y := Allocator.AfterForget(Allocator.AfterAllocate(r.alloc, META_BUCKET), bucket);
    assert x.counters == y.counters;
    assert x.rows == y.rows;
  }

  /** The replica after an unchecked event that is applied but not cached. */
  function Appended(r: Replica, e: Event): Replica {
    Minted(r, e).(cache := r.cache)
  }

  /** A delete, as a purge followed by the appended meta event. */
  lemma DeleteResult(r: Replica, bucket: string, reason: Option<string>, m: Mint)
    requires CreateDelete(r, bucket, reason, m).1.Created?
    ensures var e := DeleteEvent(Purge(r, bucket), bucket, reason, m);
      && bucket != META_BUCKET
      && CreateDelete(r, bucket, reason, m) == (Appended(Purge(r, bucket), e), Created(e, [e]))
  {
    hide Purge;
    DeleteSplits(r, bucket, reason, m);
  }
}
