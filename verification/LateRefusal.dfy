/** The one request that is refused after it left traces: a transfer of the
    least amount, whose credit would not be a signed word. The debit is then
    allocated, booked and cached, but never recorded. */
module LateRefusal {
  import opened Types
  import opened Ledger
  import opened ReplicaModel
  import opened Emission
  import opened OwnLine
  import Allocator

  /** Among signed words, only the least amount overflows. */
  lemma OnlyTheLeast(input: Input)
    requires IsI64(input.amount)
    ensures Overflows(input) <==> input.transferTo.Some? && input.amount == -TWO63
  {
  }

  /** A debit to a live bucket whose funds the guard accepts. */
  ghost predicate GuardPasses(r: Replica, input: Input, m: Mint) {
    var mode := ModeOf(input, m.now);
    && (input.allowReservedBucket || !IsReservedBucketName(input.bucket)) && input.bucket !in r.deleted
    && mode.Selected? && mode.mode.Charge?
    && WrapI64(Available(r.applied, input.Owner(), m.now) + input.amount - ChargeHold(r, input, mode.mode.holdOverride, m.now).0)
         >= Floor(input.maxOverdraft)
  }

  lemma LateIff(r: Replica, input: Input, m: Mint)
    requires IsI64(input.amount) && CreateLocal(r, input, m).1.Failed?
    ensures CreateLocal(r, input, m).1 == LATE_REFUSAL <==> Overflows(input) && GuardPasses(r, input, m)
  {
    ModeNeverLate(input, m.now);
    OnlyTheLeast(input);
    hide ModeOf, Matching, EmitTransfer, ChargeHold, Available, IsActive, DebitBooked, WrapI64, Floor, Balance;
  }

  /** A debit takes one pair of its bucket, its hold another. */
  lemma DebitTakesPairs(r: Replica, input: Input, hold: nat, expires: nat, m: Mint)
    requires Valid(r)
    ensures var r', p := DebitBooked(r, input, hold, expires, m), NextPair(r, input.bucket);
      && NextPair(r', input.bucket) == (p.0, p.1 + (if hold > 0 then 2 else 1))
      && input.Idem() in r'.cache && r'.cache[input.Idem()].id == m.second
      && r'.cache[input.Idem()].kind == Standard && r'.cache[input.Idem()].amount == input.amount
  {
    hide Allocator.AfterAllocate, Allocator.Consistent, Allocator.NextPair;
    assert Allocator.Consistent(r.alloc);
    var r0 := r;
    if hold > 0 {
      var reservation := ReservationEvent(r, input, hold, expires, m.now, m.first);
      Allocator.AllocateAdvances(r.alloc, reservation.bucket);
      r0 := Minted(r, reservation);
    }
    Allocator.AllocateAdvances(r0.alloc, input.bucket);
  }

  /** What a late refusal leaves: the log as it was, seqs used up for good, and
      a cache entry of an event nobody has. */
  lemma LateTrace(r: Replica, input: Input, m: Mint)
    requires Valid(r) && CreateLocal(r, input, m).1 == LATE_REFUSAL
    ensures var r' := CreateLocal(r, input, m).0;
      && r'.applied == r.applied && r'.stored == r.stored
      && NextPair(r', input.bucket).0 == NextPair(r, input.bucket).0
      && NextPair(r', input.bucket).1 > NextPair(r, input.bucket).1
      && input.Idem() in r'.cache && r'.cache[input.Idem()].id == m.second && r'.cache[input.Idem()].amount == input.amount
  {
    ModeNeverLate(input, m.now);
    var mode := ModeOf(input, m.now);
    assert mode.Selected? && mode.mode.Charge?;
    var (hold, expires) := ChargeHold(r, input, mode.mode.holdOverride, m.now);
    hide ModeOf, Matching, ChargeHold, Available, IsActive, WrapI64, Floor, Balance, Valid, EmitTransfer;
    DebitTakesPairs(r, input, hold, expires, m);
    hide DebitBooked;
    assert CreateLocal(r, input, m).0 == DebitBooked(r, input, hold, expires, m).(applied := r.applied);
  }

  /** A refused request leaves the node as it was exactly when it is not a
      transfer of the least amount whose funds the guard accepted. */
  lemma RefusedWithoutTraceIff(r: Replica, input: Input, m: Mint)
    requires Valid(r) && MintFresh(r, m) && IsI64(input.amount) && CreateLocal(r, input, m).1.Failed?
    ensures CreateLocal(r, input, m).0 == r <==>
      !(input.transferTo.Some? && input.amount == -TWO63 && GuardPasses(r, input, m))
  {
    LateIff(r, input, m);
    OnlyTheLeast(input);
    CreateLocalValid(r, input, m);
    hide GuardPasses, CreateLocal, Valid, MintFresh;
    if CreateLocal(r, input, m).1 == LATE_REFUSAL {
      LateTrace(r, input, m);
    }
  }

  /** The own line keeps a hole: the node never has the seqs it used up. */
  lemma LateLeavesHole(r: Replica, input: Input, m: Mint)
    requires Valid(r) && Gapless(r) && CreateLocal(r, input, m).1 == LATE_REFUSAL && input.bucket !in r.deleted
    ensures !Gapless(CreateLocal(r, input, m).0)
  {
    LateTrace(r, input, m);
    LateKeepsNode(r, input, m);
    var r' := CreateLocal(r, input, m).0;
    var p := NextPair(r, input.bucket);
    hide CreateLocal, Allocator.NextPair;
    assert p.1 >= 1;
    var lost := OriginKey(EpochKey(input.bucket, r.cfg.nodeId, p.0), p.1);
    assert lost !in r.applied;
  }

  lemma LateKeepsNode(r: Replica, input: Input, m: Mint)
    requires CreateLocal(r, input, m).1 == LATE_REFUSAL
    ensures CreateLocal(r, input, m).0.cfg == r.cfg && CreateLocal(r, input, m).0.deleted == r.deleted
  {
    ModeNeverLate(input, m.now);
    hide ModeOf, Matching, ChargeHold, Available, IsActive, WrapI64, Floor, Balance;
  }

  /** A retry is answered as granted, with the event that was never recorded. */
  lemma LateRetryIsGranted(r: Replica, input: Input, m: Mint, m': Mint)
    requires Valid(r) && MintFresh(r, m) && CreateLocal(r, input, m).1 == LATE_REFUSAL && ModeOf(input, m'.now).Selected?
    ensures var r' := CreateLocal(r, input, m).0;
      var retried := CreateLocal(r', input, m').1;
      && retried.Created? && retried.emitted == [] && retried.primary.amount == input.amount
      && forall k :: k in r'.applied ==> r'.applied[k] != retried.primary
  {
    LateTrace(r, input, m);
    LateKeepsNode(r, input, m);
    LateIsLive(r, input, m);
    var r' := CreateLocal(r, input, m).0;
    assert CreateLocal(r', input, m').1 == Created(r'.cache[input.Idem()], []);
    assert IdFresh(r.applied, m.second);
  }

  lemma LateIsLive(r: Replica, input: Input, m: Mint)
    requires CreateLocal(r, input, m).1 == LATE_REFUSAL
    ensures (input.allowReservedBucket || !IsReservedBucketName(input.bucket)) && input.bucket !in r.deleted
  {
  }

  /** For instance: the first request of a fresh node, for the least amount and
      an overdraft limit to match. */
  lemma LeastTransferIsRefusedLate(cfg: Config, m: Mint)
    ensures var start := Replica(cfg, map[], map[], {}, map[], Allocator.AllocState(map[], map[]));
      var input := Input("b", "x", -TWO63, None, TWO63, "k", false, None, None, None, None, true, Some("z"));
      CreateLocal(start, input, m).1 == LATE_REFUSAL
  {
    var start := Replica(cfg, map[], map[], {}, map[], Allocator.AllocState(map[], map[]));
    var input := Input("b", "x", -TWO63, None, TWO63, "k", false, None, None, None, None, true, Some("z"));
    assert EventsOf(map[], input.Owner()) == {} && ActiveHolds(map[], input.Owner(), m.now) == {};
    assert Available(start.applied, input.Owner(), m.now) == 0;
    assert Matching(start.stored, input.Idem()) == {};
  }
}
