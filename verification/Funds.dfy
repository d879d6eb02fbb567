/** Money and holds: what one more event does to an account's funds, why no
    mix of local requests overdraws an account, how implicit holds are sized,
    and why a reservation ends at most once. */
module Funds {
  import opened Types
  import opened Sums
  import opened Ledger
  import opened ReplicaModel
  import opened Emission
  import Allocator

  /** Balance less active holds, without machine arithmetic. */
  ghost function Spendable(log: Log, owner: BalanceKey, now: nat): int {
    Balance(log, owner) - HeldTotal(log, owner, now)
  }

  // ---- What one event does to holds ----

  lemma HoldTotalGrows(holds: set<Hold>, h: Hold)
    requires h !in holds
    ensures HoldTotal(holds + {h}) == HoldTotal(holds) + h.amount
  {
    SumInsert(holds, HoldAmount, h);
  }

  lemma HoldTotalMonotone(a: set<Hold>, b: set<Hold>)
    requires a <= b
    ensures HoldTotal(a) <= HoldTotal(b)
  {
    SumSubset(a, b, HoldAmount);
  }

  /** Events without hold or release leave the active holds of every account as
      they are, and events of other accounts those of this one. */
  lemma PlainHolds(log: Log, e: Event, owner: BalanceKey, now: nat)
    requires WellFormed(log) && e.Key() !in log
    requires e.Owner() != owner || (!e.HasHold() && e.ReleasedHold().None?)
    ensures ActiveHolds(With(log, e), owner, now) == ActiveHolds(log, owner, now)
  {
    HoldsOfWith(log, e, owner);
    ReleasesOfWith(log, e, owner);
    hide HoldsOf, ReleasesOf;
    var noHold: set<Hold> := {};
    assert HoldsOf(log, owner) + noHold == HoldsOf(log, owner);
    var noId: set<string> := {};
    assert ReleasesOf(log, owner) + noId == ReleasesOf(log, owner);
  }

  lemma PlainSpendable(log: Log, e: Event, owner: BalanceKey, now: nat)
    requires WellFormed(log) && e.Key() !in log
    requires e.Owner() != owner || (!e.HasHold() && e.ReleasedHold().None?)
    ensures Spendable(With(log, e), owner, now) == Spendable(log, owner, now) + (if e.Owner() == owner then e.amount else 0)
  {
    PlainHolds(log, e, owner, now);
    BalanceWith(log, e, owner);
    hide ActiveHolds, Balance;
  }

  /** A new hold that nothing releases becomes active at once. */
  lemma HeldHolds(log: Log, e: Event, now: nat)
    requires WellFormed(log) && e.Key() !in log && IdFresh(log, e.id)
    requires e.HasHold() && e.ReleasedHold().None?
    ensures var before, after := ActiveHolds(log, e.Owner(), now), ActiveHolds(With(log, e), e.Owner(), now);
      && HoldOf(e) !in before
      && after == before + (if e.holdExpires > now && e.id !in ReleasesOf(log, e.Owner()) then {HoldOf(e)} else {})
  {
    HoldsOfWith(log, e, e.Owner());
    ReleasesOfWith(log, e, e.Owner());
    hide HoldsOf, ReleasesOf;
  }

  lemma HeldSpendable(log: Log, e: Event, now: nat)
    requires WellFormed(log) && e.Key() !in log && IdFresh(log, e.id)
    requires e.HasHold() && e.ReleasedHold().None?
    ensures Spendable(With(log, e), e.Owner(), now) >= Spendable(log, e.Owner(), now) + e.amount - e.holdAmount
  {
    HeldHolds(log, e, now);
    BalanceWith(log, e, e.Owner());
    hide ActiveHolds, Balance;
    HoldTotalGrows(ActiveHolds(log, e.Owner(), now), HoldOf(e));
    var none: set<Hold> := {};
    assert ActiveHolds(log, e.Owner(), now) + none == ActiveHolds(log, e.Owner(), now);
  }

  /** Releasing an active hold frees exactly its amount. */
  lemma ReleasedSpendable(log: Log, e: Event, h: Hold, now: nat)
    requires WellFormed(log) && e.Key() !in log && !e.HasHold() && e.ReleasedHold() == Some(h.id)
    requires h in ActiveHolds(log, e.Owner(), now)
    ensures Spendable(With(log, e), e.Owner(), now) == Spendable(log, e.Owner(), now) + e.amount + h.amount
  {
    var owner := e.Owner();
    HoldsOfWith(log, e, owner);
    ReleasesOfWith(log, e, owner);
    BalanceWith(log, e, owner);
    var before, after := ActiveHolds(log, owner, now), ActiveHolds(With(log, e), owner, now);
    forall g | g in before && g.id == h.id
      ensures g == h
    {
      SameId(log, owner, g, h);
    }
    hide HoldsOf, ReleasesOf, Balance;
    assert before == after + {h};
    HoldTotalGrows(after, h);
  }

  lemma SameId(log: Log, owner: BalanceKey, g: Hold, h: Hold)
    requires WellFormed(log) && g in HoldsOf(log, owner) && h in HoldsOf(log, owner) && g.id == h.id
    ensures g == h
  {
  }

  /** Time only frees holds. */
  lemma LaterSpendable(log: Log, owner: BalanceKey, now: nat, later: nat)
    requires now <= later
    ensures Spendable(log, owner, later) >= Spendable(log, owner, now)
  {
    HoldTotalMonotone(ActiveHolds(log, owner, later), ActiveHolds(log, owner, now));
  }

  /** An event holds funds of its account while it is a reservation or a debit
      with a positive hold whose time is not over, and no release names it; only
      releases do. */
  lemma HoldsIff(log: Log, e: Event, now: nat)
    requires WellFormed(log) && e.Key() in log && log[e.Key()] == e
    ensures (exists h :: h in ActiveHolds(log, e.Owner(), now) && h.id == e.id) <==>
      && (e.kind == ReservationCreate || (e.kind == Standard && e.amount < 0))
      && e.holdAmount > 0 && e.holdExpires > now
      && forall k :: k in log && log[k].kind == HoldRelease && log[k].Owner() == e.Owner() ==> log[k].voidRef != Some(e.id)
    ensures forall h :: h in ActiveHolds(log, e.Owner(), now) && h.id == e.id ==>
      h == Hold(e.id, e.origin, e.holdAmount, e.holdExpires)
  {
    var owner := e.Owner();
    forall h | h in ActiveHolds(log, owner, now) && h.id == e.id
      ensures e.HasHold() && h == HoldOf(e)
    {
      var k :| k in log && log[k].Owner() == owner && log[k].HasHold() && HoldOf(log[k]) == h;
    }
    if e.HasHold() {
      assert HoldOf(e) in HoldsOf(log, owner);
    }
    assert e.id in ReleasesOf(log, owner) <==>
      exists k :: k in log && log[k].kind == HoldRelease && log[k].Owner() == owner && log[k].voidRef == Some(e.id);
    hide HoldsOf, ReleasesOf, WellFormed;
  }

  // ---- Local requests never overdraw ----

  /** Every account is at or above the floor. */
  ghost predicate Covered(log: Log, now: nat, limit: nat) {
    forall owner :: Spendable(log, owner, now) + limit >= 0
  }

  ghost predicate BalancesBounded(log: Log) {
    forall owner :: Balance(log, owner) <= I64_MAX
  }

  function Debit(input: Input): nat {
    if input.amount < 0 then -input.amount else 0
  }

  function AskedHold(input: Input): nat {
    if input.holdAmount.Some? then input.holdAmount.value else 0
  }

  /** The bounds a request has to respect for the guard's word arithmetic to be
      exact at any account that is above the floor. */
  predicate RequestBounded(input: Input, limit: nat) {
    && input.maxOverdraft <= limit
    && limit + Debit(input) + AskedHold(input) <= TWO63
    && input.transferTo != Some(input.account)
  }

  /** What the guard computes is the spendable amount, exactly when that fits a signed word. */
  lemma AvailableExactIff(log: Log, owner: BalanceKey, now: nat)
    ensures Available(log, owner, now) == WrapI64(Spendable(log, owner, now)) && IsI64(Available(log, owner, now))
    ensures Available(log, owner, now) == Spendable(log, owner, now) <==> IsI64(Spendable(log, owner, now))
  {
    hide Balance, HoldTotal, ActiveHolds, WrapI64;
    WrapExact(Spendable(log, owner, now));
  }

  lemma AvailableIsSpendable(log: Log, owner: BalanceKey, now: nat, limit: nat)
    requires Covered(log, now, limit) && BalancesBounded(log) && limit <= TWO63
    ensures Available(log, owner, now) == Spendable(log, owner, now)
    ensures IsI64(Available(log, owner, now)) && Available(log, owner, now) + limit >= 0
  {
    AvailableExactIff(log, owner, now);
    hide Available, Balance, HoldTotal, ActiveHolds, HeldTotal;
    assert Spendable(log, owner, now) + limit >= 0 && Balance(log, owner) <= I64_MAX;
  }

  lemma CoveredLater(log: Log, now: nat, later: nat, limit: nat)
    requires Covered(log, now, limit) && now <= later
    ensures Covered(log, later, limit)
  {
    forall owner
      ensures Spendable(log, owner, later) + limit >= 0
    {
      LaterSpendable(log, owner, now, later);
      assert Spendable(log, owner, now) + limit >= 0;
    }
  }

  /** An event that leaves its own account covered leaves all of them covered. */
  lemma CoveredWith(log: Log, e: Event, now: nat, limit: nat)
    requires WellFormed(log) && Covered(log, now, limit) && e.Key() !in log
    requires Spendable(With(log, e), e.Owner(), now) + limit >= 0
    ensures Covered(With(log, e), now, limit)
  {
    forall owner
      ensures Spendable(With(log, e), owner, now) + limit >= 0
    {
      if owner != e.Owner() {
        PlainSpendable(log, e, owner, now);
        assert Spendable(log, owner, now) + limit >= 0;
      }
    }
  }

  /** The funds left after the optional hold and the charge of one account. */
  lemma TransferCovered(r: Replica, input: Input, m: Mint, limit: nat)
    requires Valid(r) && Covered(r.applied, m.now, limit) && input.bucket !in r.deleted
    requires IdFresh(r.applied, m.second) && IdFresh(r.applied, m.third) && m.second != m.third
    requires Spendable(r.applied, input.Owner(), m.now) + input.amount + limit >= 0
    ensures Covered(EmitTransfer(r, input, [], m).0.applied, m.now, limit)
  {
    hide Covered, Spendable, Valid;
    var charge := ChargeEvent(r, input, m.now, m.second);
    MintedFresh(r, charge);
    ValidLog(r);
    PlainSpendable(r.applied, charge, charge.Owner(), m.now);
    CoveredWith(r.applied, charge, m.now, limit);
    if input.transferTo.Some? {
      var r1 := Minted(r, charge);
      var credit := CreditEvent(r1, input, input.transferTo.value, m.now, m.third);
      NextAfter(r, charge, credit);
      MintedFresh(r1, credit);
      ValidLog(r1);
      PlainSpendable(r1.applied, credit, credit.Owner(), m.now);
      CoveredAt(r1.applied, credit.Owner(), m.now, limit);
      CoveredWith(r1.applied, credit, m.now, limit);
    }
  }

  lemma ValidLog(r: Replica)
    requires Valid(r)
    ensures WellFormed(r.applied)
  {
  }

  lemma CoveredAt(log: Log, owner: BalanceKey, now: nat, limit: nat)
    requires Covered(log, now, limit)
    ensures Spendable(log, owner, now) + limit >= 0
  {
  }

  lemma HeldChargeCovered(r: Replica, input: Input, hold: nat, expires: nat, m: Mint, limit: nat)
    requires Valid(r) && MintFresh(r, m) && Covered(r.applied, m.now, limit) && input.bucket !in r.deleted
    requires Spendable(r.applied, input.Owner(), m.now) + input.amount - hold + limit >= 0 && (hold > 0 ==> input.amount <= 0)
    ensures Covered(HeldCharge(r, input, hold, expires, m).0.applied, m.now, limit)
  {
    hide Covered, Spendable, Valid, EmitTransfer, Minted, DebitBooked;
    if Overflows(input) {
    } else if hold > 0 {
      var e := ReservationEvent(r, input, hold, expires, m.now, m.first);
      MintedFresh(r, e);
      ValidLog(r);
      if e.HasHold() {
        HeldSpendable(r.applied, e, m.now);
      } else {
        PlainSpendable(r.applied, e, e.Owner(), m.now);
      }
      CoveredWith(r.applied, e, m.now, limit);
      MintedApplied(r, e);
      NextAfter(r, e, e.(id := m.second));
      NextAfter(r, e, e.(id := m.third));
      TransferCovered(Minted(r, e), input, m, limit);
      TransferAfter(Minted(r, e), input, [e], m);
    } else {
      TransferCovered(r, input, m, limit);
    }
  }

  lemma MintedApplied(r: Replica, e: Event)
    ensures Minted(r, e).applied == With(r.applied, e) && Minted(r, e).deleted == r.deleted
  {
  }

  /** Which override a charge can carry: credits and zero charges have no hold. */
  lemma OverrideOfMode(input: Input, now: nat)
    requires ModeOf(input, now).Selected? && ModeOf(input, now).mode.Charge?
    ensures var o := ModeOf(input, now).mode.holdOverride;
      && (o.Some? && o.value.0 > 0 ==> input.amount < 0 && input.holdAmount == Some(o.value.0))
      && (o.None? || o.value == (0, 0) || input.amount < 0)
  {
  }

  /** Size and acceptance of a charge, given what is available. */
  lemma ChargeParts(r: Replica, input: Input, holdOverride: Option<(nat, nat)>, m: Mint)
    requires EmitCharge(r, input, holdOverride, m) != (r, EmitCharge(r, input, holdOverride, m).1)
      || EmitCharge(r, input, holdOverride, m).1.Created?
    ensures var hold := ChargeHold(r, input, holdOverride, m.now);
      && EmitCharge(r, input, holdOverride, m) == HeldCharge(r, input, hold.0, hold.1, m)
      && (input.amount < 0 ==>
            WrapI64(Available(r.applied, input.Owner(), m.now) + input.amount - hold.0) >= Floor(input.maxOverdraft))
  {
  }

  /** Above the floor and within the bounds, the guard's comparison is the exact one. */
  lemma GuardIsExact(s: int, debit: nat, hold: nat, maxOverdraft: nat, limit: nat)
    requires IsI64(s) && s + limit >= 0 && maxOverdraft <= limit && limit <= TWO63
    requires limit + debit + hold <= TWO63 || (hold <= s - debit + maxOverdraft && s - debit >= -TWO63)
    ensures WrapI64(s - debit - hold) >= Floor(maxOverdraft) <==> s - debit - hold + maxOverdraft >= 0
  {
    assert -TWO63 <= s - debit - hold < TWO63;
  }

  lemma LimitFits(input: Input, limit: nat)
    requires RequestBounded(input, limit)
    ensures limit <= TWO63 && limit + AskedHold(input) <= TWO63 && input.maxOverdraft <= limit
  {
  }

  lemma ChargeCovered(r: Replica, input: Input, holdOverride: Option<(nat, nat)>, m: Mint, limit: nat)
    requires Valid(r) && MintFresh(r, m) && input.bucket !in r.deleted
    requires Covered(r.applied, m.now, limit) && BalancesBounded(r.applied) && RequestBounded(input, limit)
    requires ModeOf(input, m.now) == Selected(Charge(holdOverride))
    ensures Covered(EmitCharge(r, input, holdOverride, m).0.applied, m.now, limit)
  {
    hide *;
    OverrideOfMode(input, m.now);
    LimitFits(input, limit);
    AvailableIsSpendable(r.applied, input.Owner(), m.now, limit);
    CoveredAt(r.applied, input.Owner(), m.now, limit);
    var outcome := EmitCharge(r, input, holdOverride, m);
    if outcome != (r, outcome.1) || outcome.1.Created? {
      var (hold, expires) := ChargeHold(r, input, holdOverride, m.now);
      ChargeParts(r, input, holdOverride, m);
      HoldInBounds(r, input, holdOverride, m.now, limit);
      PassedGuard(r, input, Available(r.applied, input.Owner(), m.now), hold, limit);
      HeldChargeCovered(r, input, hold, expires, m, limit);
    }
  }

  /** What passes the guard leaves the account above the floor. */
  lemma PassedGuard(r: Replica, input: Input, s: int, hold: nat, limit: nat)
    requires IsI64(s) && s + limit >= 0 && RequestBounded(input, limit) && (hold > 0 ==> input.amount < 0)
    requires limit + Debit(input) + hold <= TWO63 || hold <= s - Debit(input) + input.maxOverdraft
    requires input.amount < 0 ==> WrapI64(s + input.amount - hold) >= Floor(input.maxOverdraft)
    ensures s + input.amount - hold + limit >= 0 && (hold > 0 ==> input.amount <= 0)
  {
    if input.amount < 0 {
      GuardIsExact(s, Debit(input), hold, input.maxOverdraft, limit);
      assert s + input.amount - hold == s - Debit(input) - hold;
      hide WrapI64, Floor;
    }
  }

  /** The hold of a charge is what the caller asked, or fits the headroom. */
  lemma HoldInBounds(r: Replica, input: Input, holdOverride: Option<(nat, nat)>, now: nat, limit: nat)
    requires RequestBounded(input, limit)
    requires IsI64(Available(r.applied, input.Owner(), now)) && Available(r.applied, input.Owner(), now) + limit >= 0
    requires holdOverride.Some? && holdOverride.value.0 > 0 ==> input.amount < 0 && input.holdAmount == Some(holdOverride.value.0)
    ensures var hold := ChargeHold(r, input, holdOverride, now).0;
      && (hold > 0 ==> input.amount < 0)
      && (limit + Debit(input) + hold <= TWO63
          || hold <= Available(r.applied, input.Owner(), now) - Debit(input) + input.maxOverdraft)
  {
    var available, current := Available(r.applied, input.Owner(), now), CurrentOriginHold(r, input.Owner(), now);
    hide Available, CurrentOriginHold;
    if holdOverride.None? && input.amount < 0 {
      HeadroomBound(available, input.amount, input.maxOverdraft, limit);
      hide Headroom, WrapI64;
    }
  }

  lemma HeadroomBound(available: int, amount: int, maxOverdraft: nat, limit: nat)
    requires IsI64(available) && available + limit >= 0 && amount < 0 && maxOverdraft <= limit
    requires limit - amount <= TWO63
    ensures Headroom(available, amount, maxOverdraft) == 0
      || Headroom(available, amount, maxOverdraft) <= available + amount + maxOverdraft
  {
    WrapExact(available + amount + maxOverdraft);
  }

  lemma ReserveParts(r: Replica, input: Input, m: Mint)
    requires EmitReserve(r, input, m).1.Created? && input.holdAmount.Some?
    requires MintFresh(r, m) && input.bucket !in r.deleted
    ensures WrapI64(Available(r.applied, input.Owner(), m.now) - AskedHold(input)) >= Floor(input.maxOverdraft)
    ensures var e := EmitReserve(r, input, m).1.primary;
      && EmitReserve(r, input, m).0 == Minted(r, e) && MintsNext(r, e)
      && e.Owner() == input.Owner() && e.amount == 0 && e.kind == ReservationCreate && e.holdAmount == AskedHold(input)
  {
    hide Available, WrapI64, Floor, Minted;
  }

  /** A reservation that the funds of its account cover. */
  lemma ReservedCovered(r: Replica, e: Event, now: nat, limit: nat)
    requires Valid(r) && MintsNext(r, e) && e.amount == 0 && e.kind == ReservationCreate && Covered(r.applied, now, limit)
    requires Spendable(r.applied, e.Owner(), now) - e.holdAmount + limit >= 0
    ensures Covered(Minted(r, e).applied, now, limit)
  {
    hide Covered, Spendable, Valid;
    MintedFresh(r, e);
    ValidLog(r);
    CoveredAt(r.applied, e.Owner(), now, limit);
    if e.HasHold() {
      HeldSpendable(r.applied, e, now);
    } else {
      PlainSpendable(r.applied, e, e.Owner(), now);
    }
    CoveredWith(r.applied, e, now, limit);
  }

  lemma ReserveCovered(r: Replica, input: Input, m: Mint, limit: nat)
    requires Valid(r) && MintFresh(r, m) && input.bucket !in r.deleted
    requires Covered(r.applied, m.now, limit) && BalancesBounded(r.applied) && RequestBounded(input, limit)
    requires input.holdAmount.Some?
    ensures Covered(EmitReserve(r, input, m).0.applied, m.now, limit)
  {
    ReserveFails(r, input, m);
    hide *;
    if EmitReserve(r, input, m).1.Created? {
      ReserveParts(r, input, m);
      LimitFits(input, limit);
      AvailableIsSpendable(r.applied, input.Owner(), m.now, limit);
      GuardIsExact(Available(r.applied, input.Owner(), m.now), 0, AskedHold(input), input.maxOverdraft, limit);
      ReservedCovered(r, EmitReserve(r, input, m).1.primary, m.now, limit);
    }
  }

  lemma ReserveFails(r: Replica, input: Input, m: Mint)
    ensures EmitReserve(r, input, m).1.Failed? ==> EmitReserve(r, input, m).0 == r
  {
    hide Available, WrapI64, Floor, Minted;
  }

  /** A release of an active hold only adds funds. */
  lemma ReleaseCovered(r: Replica, e: Event, h: Hold, now: nat, limit: nat)
    requires Valid(r) && MintsNext(r, e) && e.kind == HoldRelease && e.voidRef == Some(h.id) && e.amount == 0
    requires h in ActiveHolds(r.applied, e.Owner(), now)
    requires Covered(r.applied, now, limit)
    ensures Covered(Minted(r, e).applied, now, limit)
  {
    hide Covered, Spendable, Valid, ActiveHolds;
    MintedFresh(r, e);
    ValidLog(r);
    ReleasedSpendable(r.applied, e, h, now);
    CoveredAt(r.applied, e.Owner(), now, limit);
    CoveredWith(r.applied, e, now, limit);
  }

  lemma EmitReleaseCovered(r: Replica, input: Input, id: string, m: Mint, limit: nat)
    requires Valid(r) && MintFresh(r, m) && input.bucket !in r.deleted && Covered(r.applied, m.now, limit)
    ensures Covered(EmitRelease(r, input, id, m).0.applied, m.now, limit)
  {
    hide Covered, Valid, IsActive, ActiveHolds;
    var (r', result) := EmitRelease(r, input, id, m);
    if result.Created? {
      ReleaseCovered(r, result.primary, ActiveHold(r, input.Owner(), id, m.now), m.now, limit);
    }
  }

  /** A settle frees the hold, less what it captures: available funds rise by
      exactly the uncaptured remainder, although no funds check is made. */
  lemma SettleReturnsRemainder(r: Replica, input: Input, id: string, m: Mint)
    requires Valid(r) && MintFresh(r, m) && input.bucket !in r.deleted && input.amount <= 0
    requires EmitSettle(r, input, id, m).1.Created?
    ensures IsActive(r, input.Owner(), id, m.now)
    ensures var h := ActiveHold(r, input.Owner(), id, m.now);
      && Abs(input.amount) <= h.amount
      && Spendable(EmitSettle(r, input, id, m).0.applied, input.Owner(), m.now)
           == Spendable(r.applied, input.Owner(), m.now) + h.amount - Abs(input.amount)
  {
    hide Spendable, Valid, IsActive, ActiveHolds;
    CaptureSpendable(r, input, ActiveHold(r, input.Owner(), id, m.now), m);
  }

  lemma CaptureSpendable(r: Replica, input: Input, h: Hold, m: Mint)
    requires Valid(r) && MintFresh(r, m) && input.bucket !in r.deleted
    requires h in ActiveHolds(r.applied, input.Owner(), m.now)
    ensures Spendable(Capture(r, input, h.id, m).0.applied, input.Owner(), m.now)
      == Spendable(r.applied, input.Owner(), m.now) + h.amount + input.amount
    ensures forall owner :: owner != input.Owner() ==>
      Spendable(Capture(r, input, h.id, m).0.applied, owner, m.now) == Spendable(r.applied, owner, m.now)
  {
    hide Spendable, Valid, ActiveHolds;
    var charge := ChargeEvent(r, input.(transferTo := None), m.now, m.first);
    var r1 := Minted(r, charge);
    var release := ReleaseEvent(r1, input, ReleaseNonce(input.nonce), None, h.id, m.now, m.second);
    MintedFresh(r, charge);
    ValidLog(r);
    NextAfter(r, charge, release);
    MintedFresh(r1, release);
    ValidLog(r1);
    PlainHolds(r.applied, charge, input.Owner(), m.now);
    PlainSpendable(r.applied, charge, input.Owner(), m.now);
    ReleasedSpendable(r1.applied, release, h, m.now);
    forall owner | owner != input.Owner()
      ensures Spendable(Minted(r1, release).applied, owner, m.now) == Spendable(r.applied, owner, m.now)
    {
      PlainSpendable(r.applied, charge, owner, m.now);
      PlainSpendable(r1.applied, release, owner, m.now);
    }
  }

  lemma CaptureCovered(r: Replica, input: Input, h: Hold, m: Mint, limit: nat)
    requires Valid(r) && MintFresh(r, m) && input.bucket !in r.deleted && Covered(r.applied, m.now, limit)
    requires h in ActiveHolds(r.applied, input.Owner(), m.now) && h.amount + input.amount >= 0
    ensures Covered(Capture(r, input, h.id, m).0.applied, m.now, limit)
  {
    CaptureSpendable(r, input, h, m);
    hide Spendable, Valid, ActiveHolds, Capture, MintFresh;
    forall owner
      ensures Spendable(Capture(r, input, h.id, m).0.applied, owner, m.now) + limit >= 0
    {
      assert Spendable(r.applied, owner, m.now) + limit >= 0;
    }
  }

  lemma SettleCovered(r: Replica, input: Input, id: string, m: Mint, limit: nat)
    requires Valid(r) && MintFresh(r, m) && input.bucket !in r.deleted && input.amount < 0
    requires Covered(r.applied, m.now, limit)
    ensures Covered(EmitSettle(r, input, id, m).0.applied, m.now, limit)
  {
    hide Covered, Valid, ActiveHolds, Minted, MintFresh;
    if EmitSettle(r, input, id, m).1.Created? {
      CaptureCovered(r, input, ActiveHold(r, input.Owner(), id, m.now), m, limit);
    }
  }

  lemma RequestCovered(r: Replica, input: Input, m: Mint, limit: nat)
    requires Valid(r) && MintFresh(r, m)
    requires Covered(r.applied, m.now, limit) && BalancesBounded(r.applied) && RequestBounded(input, limit)
    ensures Covered(CreateLocal(r, input, m).0.applied, m.now, limit)
  {
    hide Covered, Valid, Matching, EmitCharge, EmitReserve, EmitSettle, EmitRelease, BalancesBounded, MintFresh;
    var mode := ModeOf(input, m.now);
    if input.bucket !in r.deleted && mode.Selected? {
      match mode.mode
      case Charge(h) => ChargeCovered(r, input, h, m, limit);
      case Reserve => ReserveCovered(r, input, m, limit);
      case Settle(id) => SettleCovered(r, input, id, m, limit);
      case Release(id) => EmitReleaseCovered(r, input, id, m, limit);
    }
  }

  // ---- Whole runs of one node ----

  datatype LocalOp =
    | Request(input: Input, mint: Mint)
    | Drop(bucket: string, reason: Option<string>, mint: Mint)
    | Flush(keys: set<OriginKey>)

  ghost function Apply(r: Replica, op: LocalOp): Replica {
    match op
    case Request(input, m) => CreateLocal(r, input, m).0
    case Drop(bucket, reason, m) => CreateDelete(r, bucket, reason, m).0
    case Flush(keys) => Persist(r, keys)
  }

  function Clock(op: LocalOp, now: nat): nat {
    if op.Flush? then now else op.mint.now
  }

  /** The clock never runs backwards, ids are new, requests and balances stay in bounds. */
  ghost predicate OpAllowed(r: Replica, op: LocalOp, now: nat, limit: nat) {
    && BalancesBounded(r.applied)
    && match op
       case Request(input, m) => now <= m.now && MintFresh(r, m) && RequestBounded(input, limit)
       case Drop(_, _, m) => now <= m.now && MintFresh(r, m)
       case Flush(_) => true
  }

  ghost predicate Allowed(r: Replica, ops: seq<LocalOp>, now: nat, limit: nat)
    decreases |ops|
  {
    ops == [] || (OpAllowed(r, ops[0], now, limit) && Allowed(Apply(r, ops[0]), ops[1..], Clock(ops[0], now), limit))
  }

  ghost function RunAll(r: Replica, ops: seq<LocalOp>): Replica
    decreases |ops|
  {
    if ops == [] then r else RunAll(Apply(r, ops[0]), ops[1..])
  }

  function EndClock(ops: seq<LocalOp>, now: nat): nat
    decreases |ops|
  {
    if ops == [] then now else EndClock(ops[1..], Clock(ops[0], now))
  }

  lemma DropCovered(r: Replica, bucket: string, reason: Option<string>, m: Mint, limit: nat)
    requires Valid(r) && IdFresh(r.applied, m.first) && Covered(r.applied, m.now, limit)
    ensures Covered(CreateDelete(r, bucket, reason, m).0.applied, m.now, limit)
    ensures Valid(CreateDelete(r, bucket, reason, m).0)
  {
    if CreateDelete(r, bucket, reason, m).1.Created? {
      CreateDeleteValid(r, bucket, reason, m);
      ValidLog(r);
      ValidLog(Purge(r, bucket));
      DroppedCovered(r.applied, bucket, m.now, limit);
      hide Covered, Spendable, Valid, CreateDelete, DropBucket;
      var e := DeleteEvent(Purge(r, bucket), bucket, reason, m);
      var log := DropBucket(r.applied, bucket);
      PlainSpendable(log, e, e.Owner(), m.now);
      CoveredAt(log, e.Owner(), m.now, limit);
      CoveredWith(log, e, m.now, limit);
    }
  }

  lemma DroppedCovered(log: Log, bucket: string, now: nat, limit: nat)
    requires WellFormed(log) && Covered(log, now, limit)
    ensures Covered(DropBucket(log, bucket), now, limit)
  {
    forall owner
      ensures Spendable(DropBucket(log, bucket), owner, now) + limit >= 0
    {
      EventsOfDrop(log, bucket, owner);
      HoldsOfDrop(log, bucket, owner);
      hide EventsOf, HoldsOf, ReleasesOf, DropBucket;
      if owner.bucket == bucket {
        assert ActiveHolds(DropBucket(log, bucket), owner, now) == {};
      } else {
        assert ActiveHolds(DropBucket(log, bucket), owner, now) == ActiveHolds(log, owner, now);
        assert Spendable(log, owner, now) + limit >= 0;
      }
    }
  }

  lemma OpCovered(r: Replica, op: LocalOp, now: nat, limit: nat)
    requires Valid(r) && Covered(r.applied, now, limit) && OpAllowed(r, op, now, limit)
    ensures Valid(Apply(r, op)) && Covered(Apply(r, op).applied, Clock(op, now), limit)
  {
    hide Covered, Valid, CreateLocal, CreateDelete, Persist;
    CoveredLater(r.applied, now, Clock(op, now), limit);
    match op
    case Request(input, m) =>
      RequestCovered(r, input, m, limit);
      CreateLocalValid(r, input, m);
    case Drop(bucket, reason, m) =>
      DropCovered(r, bucket, reason, m, limit);
    case Flush(keys) =>
      PersistPlain(r, keys);
  }

  lemma PersistPlain(r: Replica, keys: set<OriginKey>)
    requires Valid(r)
    ensures Valid(Persist(r, keys)) && Persist(r, keys).applied == r.applied
  {
  }

  lemma {:induction false} RunsCovered(r: Replica, ops: seq<LocalOp>, now: nat, limit: nat)
    requires Valid(r) && Covered(r.applied, now, limit) && Allowed(r, ops, now, limit)
    ensures Covered(RunAll(r, ops).applied, EndClock(ops, now), limit)
    decreases |ops|
  {
    if ops != [] {
      hide Covered, Valid, Apply, OpAllowed;
      OpCovered(r, ops[0], now, limit);
      RunsCovered(Apply(r, ops[0]), ops[1..], Clock(ops[0], now), limit);
    }
  }

  /** No run of local requests, deletes and flushes takes any account below the
      overdraft limit all its requests respect, now or at any later time. */
  lemma NoOverdraft(cfg: Config, ops: seq<LocalOp>, now: nat, limit: nat, owner: BalanceKey, later: nat)
    requires var start := Replica(cfg, map[], map[], {}, map[], Allocator.AllocState(map[], map[]));
      Allowed(start, ops, now, limit)
    requires EndClock(ops, now) <= later
    ensures var start := Replica(cfg, map[], map[], {}, map[], Allocator.AllocState(map[], map[]));
      Spendable(RunAll(start, ops).applied, owner, later) + limit >= 0
  {
    var start := Replica(cfg, map[], map[], {}, map[], Allocator.AllocState(map[], map[]));
    StartCovered(start, now, limit);
    RunsCovered(start, ops, now, limit);
    CoveredLater(RunAll(start, ops).applied, EndClock(ops, now), later, limit);
  }

  lemma StartCovered(start: Replica, now: nat, limit: nat)
    requires start.applied == map[] && start.stored == map[] && start.deleted == {}
    requires start.alloc == Allocator.AllocState(map[], map[])
    ensures Valid(start) && Covered(start.applied, now, limit)
  {
  }

  // ---- Implicit holds ----

  /** An implicit-hold debit is rejected exactly when the bare debit, in 64-bit
      words, is below the floor: never because of the hold. The exception needs
      a limit beyond the signed range, which makes the floor positive: there the
      headroom itself wraps, and a hold that takes the difference past the end
      of the range lets the debit through. What this origin already holds and
      the configured multiple say whether the hold gets that large. */
  lemma ImplicitHoldNeverRejects(r: Replica, input: Input, m: Mint)
    requires input.amount < 0
    ensures var bare, floor := WrapI64(Available(r.applied, input.Owner(), m.now) + input.amount), WrapI64(0 - input.maxOverdraft);
      var lasting := set h | h in ActiveHolds(r.applied, input.Owner(), m.now)
                             && h.origin == r.cfg.nodeId && 10 * (h.expires - m.now) >= r.cfg.holdDuration;
      var current, multiple := WrapU64(HoldTotal(lasting)), Min(-input.amount * r.cfg.holdMultiplier, U64_MAX);
      NoFunds(EmitCharge(r, input, None, m).1) <==>
        bare < floor && !(bare - floor < -TWO63 && current + floor < TWO63 && multiple > bare + TWO63 + current)
  {
    var available, current := Available(r.applied, input.Owner(), m.now), CurrentOriginHold(r, input.Owner(), m.now);
    LastingHolds(r.cfg, ActiveHolds(r.applied, input.Owner(), m.now), m.now);
    assert RawHold(r.cfg, input.amount) == Min(-input.amount * r.cfg.holdMultiplier, U64_MAX);
    hide Available, CurrentOriginHold, HeldCharge, Balance, RawHold, HoldsOfOrigin, ActiveHolds, HoldTotal, WrapU64;
    SizedHoldGuard(r.cfg, available, input.amount, input.maxOverdraft, current);
    HeldChargeCreates(r, input, ChargeHold(r, input, None, m.now).0, ChargeHold(r, input, None, m.now).1, m);
    hide WrapI64, SizedHold, Floor;
  }

  /** Not enough funds: the guard's refusal. */
  predicate NoFunds(result: CreateResult) {
    result.Failed? && result.error.InsufficientFunds?
  }

  /** Behind the guard only a transfer that overflows is refused. */
  lemma HeldChargeCreates(r: Replica, input: Input, hold: nat, expires: nat, m: Mint)
    ensures HeldCharge(r, input, hold, expires, m).1.Created? <==> !Overflows(input)
    ensures !NoFunds(HeldCharge(r, input, hold, expires, m).1)
  {
  }

  lemma SizedHoldGuard(cfg: Config, available: int, amount: int, maxOverdraft: nat, current: nat)
    requires amount < 0
    ensures var bare, floor := WrapI64(available + amount), Floor(maxOverdraft);
      var hold := SizedHold(cfg, amount, maxOverdraft, available, current);
      && (WrapI64(available + amount - hold) < floor <==> bare < floor && !(bare - floor < -TWO63 && hold > bare + TWO63))
      && (bare - floor < -TWO63 ==>
            (hold > bare + TWO63 <==> current + floor < TWO63 && RawHold(cfg, amount) > bare + TWO63 + current))
  {
    hide *;
    var bare, floor := WrapI64(available + amount), Floor(maxOverdraft);
    SizedHoldOfWords(cfg, amount, maxOverdraft, available, current);
    WrapSteps(available + amount, SizedHold(cfg, amount, maxOverdraft, available, current));
    GuardOfWords(bare, floor, RawHold(cfg, amount), current);
  }

  lemma SizedHoldOfWords(cfg: Config, amount: int, maxOverdraft: nat, available: int, current: nat)
    requires amount < 0
    ensures var bare, floor := WrapI64(available + amount), Floor(maxOverdraft);
      && IsI64(bare) && IsI64(floor) && RawHold(cfg, amount) <= U64_MAX
      && SizedHold(cfg, amount, maxOverdraft, available, current)
           == SaturatingSub(Min(RawHold(cfg, amount), Max(WrapI64(bare - floor), 0)), current)
  {
    WrapSteps(available + amount, Floor(maxOverdraft));
    WrapExact(available + amount);
    WrapExact(0 - maxOverdraft);
    hide WrapI64;
  }

  lemma GuardOfWords(bare: int, floor: int, raw: nat, current: nat)
    requires IsI64(bare) && IsI64(floor) && raw <= U64_MAX
    ensures var hold := SaturatingSub(Min(raw, Max(WrapI64(bare - floor), 0)), current);
      && (WrapI64(bare - hold) < floor <==> bare < floor && !(bare - floor < -TWO63 && hold > bare + TWO63))
      && (bare - floor < -TWO63 ==>
            (hold > bare + TWO63 <==> current + floor < TWO63 && raw > bare + TWO63 + current))
  {
    WrapOnce(bare - floor);
    var hold := SaturatingSub(Min(raw, Max(WrapI64(bare - floor), 0)), current);
    assert 0 <= hold < TWO63 by { WrapExact(bare - floor); hide WrapI64; }
    WrapOnce(bare - hold);
    hide WrapI64;
  }

  /** Differences of two words wrap at most once. */
  lemma WrapOnce(x: int)
    requires -TWO63 - TWO64 <= x < TWO63 + TWO64
    ensures WrapI64(x) == if x < -TWO63 then x + TWO64 else if x >= TWO63 then x - TWO64 else x
  {
  }

  /** With a limit in the signed range, the rejection is right exactly when the
      bare debit does not run off the lower end of the range. */
  lemma ImplicitHoldExactIff(r: Replica, input: Input, m: Mint)
    requires input.amount < 0 && IsI64(input.amount) && input.maxOverdraft <= TWO63
    ensures var bare := Available(r.applied, input.Owner(), m.now) + input.amount;
      (NoFunds(EmitCharge(r, input, None, m).1) <==> bare + input.maxOverdraft < 0) <==> bare >= -TWO63
  {
    var bare := Available(r.applied, input.Owner(), m.now) + input.amount;
    ImplicitHoldNeverRejects(r, input, m);
    AvailableExactIff(r.applied, input.Owner(), m.now);
    WrapExact(bare);
    hide Available, EmitCharge, Balance, ChargeHold;
    WrapOnce(bare);
    WrapOnce(0 - input.maxOverdraft);
    hide WrapI64;
  }

  /** The flag that blames the hold for a rejection is set only when the caller
      sized the hold, and then exactly when the bare debit clears the floor. */
  lemma OnlyExplicitHoldsBlock(r: Replica, input: Input, holdOverride: Option<(nat, nat)>, m: Mint)
    requires input.amount < 0 && EmitCharge(r, input, holdOverride, m).1.Failed?
    ensures var error := EmitCharge(r, input, holdOverride, m).1.error;
      && (error.InsufficientFunds? || (Overflows(input) && error == InvalidRequest(TransferOverflows)))
      && (error.InsufficientFunds? ==> (error.holdBlocking <==>
            (holdOverride.Some? &&
             WrapI64(Available(r.applied, input.Owner(), m.now) + input.amount) >= Floor(input.maxOverdraft))))
  {
    var (hold, expires) := ChargeHold(r, input, holdOverride, m.now);
    HeldChargeCreates(r, input, hold, expires, m);
    if holdOverride.None? {
      ImplicitHoldNeverRejects(r, input, m);
    }
    hide WrapI64, Floor, ChargeHold, Available, HeldCharge, Balance;
  }

  /** Holds of this origin with a tenth of their duration or more to go. */
  ghost function OriginHolds(r: Replica, log: Log, owner: BalanceKey, now: nat): set<Hold> {
    set h | h in ActiveHolds(log, owner, now) && h.origin == r.cfg.nodeId && 10 * (h.expires - now) >= r.cfg.holdDuration
  }

  lemma OriginHoldGrows(r: Replica, input: Input, hold: nat, m: Mint)
    requires Valid(r) && IdFresh(r.applied, m.first) && input.bucket !in r.deleted
    requires hold > 0 && m.first !in ReleasesOf(r.applied, input.Owner())
    ensures var e := ReservationEvent(r, input, hold, m.now + r.cfg.holdDuration, m.now, m.first);
      HoldTotal(OriginHolds(r, With(r.applied, e), input.Owner(), m.now))
        == HoldTotal(OriginHolds(r, r.applied, input.Owner(), m.now)) + (if r.cfg.holdDuration > 0 then hold else 0)
  {
    var e := ReservationEvent(r, input, hold, m.now + r.cfg.holdDuration, m.now, m.first);
    MintedFresh(r, e);
    ValidLog(r);
    var before := OriginHolds(r, r.applied, input.Owner(), m.now);
    if r.cfg.holdDuration > 0 {
      HeldHolds(r.applied, e, m.now);
      hide ActiveHolds, Valid, HoldTotal, ReleasesOf;
      assert OriginHolds(r, With(r.applied, e), input.Owner(), m.now) == before + {HoldOf(e)};
      HoldTotalGrows(before, HoldOf(e));
    } else {
      ExpiredHolds(r.applied, e, m.now);
    }
  }

  /** A hold that ends at once is never active. */
  lemma ExpiredHolds(log: Log, e: Event, now: nat)
    requires WellFormed(log) && e.Key() !in log && IdFresh(log, e.id)
    requires e.ReleasedHold().None? && e.holdExpires <= now
    ensures ActiveHolds(With(log, e), e.Owner(), now) == ActiveHolds(log, e.Owner(), now)
  {
    if e.HasHold() {
      HeldHolds(log, e, now);
      hide ActiveHolds;
      var none: set<Hold> := {};
      assert ActiveHolds(log, e.Owner(), now) + none == ActiveHolds(log, e.Owner(), now);
    } else {
      PlainHolds(log, e, e.Owner(), now);
    }
  }

  /** After an accepted implicit-hold debit, what this origin holds with a tenth
      of the duration or more to go is what it was, or the configured multiple
      of the debit, as far as a word and the headroom of the bare debit allow,
      whichever is more; as long as the total fits an unsigned word, beyond
      which the multiple is added to the whole multiples of the word. Without a
      hold duration nothing is held. */
  lemma ImplicitHoldCoverage(r: Replica, input: Input, m: Mint)
    requires Valid(r) && MintFresh(r, m) && input.bucket !in r.deleted && input.amount < 0
    requires m.first !in ReleasesOf(r.applied, input.Owner())
    requires EmitCharge(r, input, None, m).1.Created?
    ensures var (owner, log') := (input.Owner(), EmitCharge(r, input, None, m).0.applied);
      var lasting := set h | h in ActiveHolds(r.applied, owner, m.now)
                             && h.origin == r.cfg.nodeId && 10 * (h.expires - m.now) >= r.cfg.holdDuration;
      var lasting' := set h | h in ActiveHolds(log', owner, m.now)
                              && h.origin == r.cfg.nodeId && 10 * (h.expires - m.now) >= r.cfg.holdDuration;
      var headroom := Max(WrapI64(Available(r.applied, owner, m.now) + input.amount + input.maxOverdraft), 0);
      var target := Min(Min(-input.amount * r.cfg.holdMultiplier, U64_MAX), headroom);
      var before, after := HoldTotal(lasting), HoldTotal(lasting');
      if r.cfg.holdDuration == 0 then after == before
      else
        && (before <= U64_MAX ==> after == Max(before, target))
        && after == before - WrapU64(before) + Max(WrapU64(before), target)
  {
    var (hold, expires) := ChargeHold(r, input, None, m.now);
    ChargeIsHeld(r, input, m, hold, expires);
    ChargeHoldIs(r, input, m.now);
    HeldChargeOriginHolds(r, input, hold, expires, m);
    hide ActiveHolds, HoldTotal, Available, WrapI64, WrapU64, EmitCharge, ChargeHold, HeldCharge, Valid, MintFresh, ReleasesOf;
    var headroom := Max(WrapI64(Available(r.applied, input.Owner(), m.now) + input.amount + input.maxOverdraft), 0);
    WordsTopUp(HoldTotal(OriginHolds(r, r.applied, input.Owner(), m.now)),
               Min(Min(-input.amount * r.cfg.holdMultiplier, U64_MAX), headroom));
  }

  lemma ChargeHoldIs(r: Replica, input: Input, now: nat)
    requires input.amount < 0
    ensures var headroom := Max(WrapI64(Available(r.applied, input.Owner(), now) + input.amount + input.maxOverdraft), 0);
      var target := Min(Min(-input.amount * r.cfg.holdMultiplier, U64_MAX), headroom);
      && target >= 0
      && ChargeHold(r, input, None, now).0
           == Max(target - WrapU64(HoldTotal(OriginHolds(r, r.applied, input.Owner(), now))), 0)
      && (ChargeHold(r, input, None, now).0 > 0 ==> ChargeHold(r, input, None, now).1 == now + r.cfg.holdDuration)
  {
    LastingHolds(r.cfg, ActiveHolds(r.applied, input.Owner(), now), now);
    SizedHoldIs(r.cfg, input.amount, input.maxOverdraft, Available(r.applied, input.Owner(), now),
                CurrentOriginHold(r, input.Owner(), now));
    hide SizedHold, HoldTotal, ActiveHolds, Available, WrapU64, WrapI64, HoldsOfOrigin;
  }

  lemma WordsTopUp(before: nat, target: nat)
    ensures before <= U64_MAX ==> before + Max(target - WrapU64(before), 0) == Max(before, target)
    ensures before + Max(target - WrapU64(before), 0) == before - WrapU64(before) + Max(WrapU64(before), target)
  {
  }

  lemma ChargeIsHeld(r: Replica, input: Input, m: Mint, hold: nat, expires: nat)
    requires EmitCharge(r, input, None, m).1.Created? && (hold, expires) == ChargeHold(r, input, None, m.now)
    ensures EmitCharge(r, input, None, m) == HeldCharge(r, input, hold, expires, m)
  {
  }

  lemma HeldChargeOriginHolds(r: Replica, input: Input, hold: nat, expires: nat, m: Mint)
    requires Valid(r) && MintFresh(r, m) && input.bucket !in r.deleted
    requires m.first !in ReleasesOf(r.applied, input.Owner())
    requires (hold > 0 ==> expires == m.now + r.cfg.holdDuration) && !Overflows(input)
    ensures HoldTotal(OriginHolds(r, HeldCharge(r, input, hold, expires, m).0.applied, input.Owner(), m.now))
      == HoldTotal(OriginHolds(r, r.applied, input.Owner(), m.now)) + (if r.cfg.holdDuration > 0 then hold else 0)
  {
    hide Valid, EmitTransfer, Minted, HoldTotal, ActiveHolds, ReleasesOf;
    if hold > 0 {
      var e := ReservationEvent(r, input, hold, expires, m.now, m.first);
      MintedFresh(r, e);
      MintedApplied(r, e);
      OriginHoldGrows(r, input, hold, m);
      NextAfter(r, e, e.(id := m.second));
      NextAfter(r, e, e.(id := m.third));
      TransferKeepsHolds(Minted(r, e), input, m);
      TransferAfter(Minted(r, e), input, [e], m);
    } else {
      TransferKeepsHolds(r, input, m);
    }
  }

  lemma TransferKeepsHolds(r: Replica, input: Input, m: Mint)
    requires Valid(r) && input.bucket !in r.deleted
    requires IdFresh(r.applied, m.second) && IdFresh(r.applied, m.third) && m.second != m.third
    ensures ActiveHolds(EmitTransfer(r, input, [], m).0.applied, input.Owner(), m.now) == ActiveHolds(r.applied, input.Owner(), m.now)
  {
    hide Valid, ActiveHolds;
    var charge := ChargeEvent(r, input, m.now, m.second);
    MintedFresh(r, charge);
    ValidLog(r);
    PlainHolds(r.applied, charge, input.Owner(), m.now);
    if input.transferTo.Some? {
      var r1 := Minted(r, charge);
      var credit := CreditEvent(r1, input, input.transferTo.value, m.now, m.third);
      NextAfter(r, charge, credit);
      MintedFresh(r1, credit);
      ValidLog(r1);
      PlainHolds(r1.applied, credit, input.Owner(), m.now);
    }
  }

  // ---- A reservation ends once ----

  /** The reservation was released, or its time has passed. */
  ghost predicate Ended(log: Log, owner: BalanceKey, id: string, now: nat) {
    id in ReleasesOf(log, owner) || exists h :: h in HoldsOf(log, owner) && h.id == id && h.expires <= now
  }

  /** Released or expired, a reservation is never active again, whatever else
      arrives, even if its release arrived before its creation. */
  lemma EndedNeverActive(log: Log, log': Log, owner: BalanceKey, id: string, now: nat, later: nat)
    requires WellFormed(log') && LogGrows(log, log') && now <= later && Ended(log, owner, id, now)
    ensures !exists h :: h in ActiveHolds(log', owner, later) && h.id == id
  {
  }

  lemma ReleaseEnds(log: Log, e: Event, id: string, now: nat)
    requires e.ReleasedHold() == Some(id)
    ensures forall log' :: LogGrows(With(log, e), log') ==> Ended(log', e.Owner(), id, now)
  {
    var after := With(log, e);
    assert after[e.Key()] == e;
    forall log' | LogGrows(after, log')
      ensures Ended(log', e.Owner(), id, now)
    {
      assert e.Key() in log' && log'[e.Key()] == e;
    }
  }

  /** A settle is granted exactly for an active reservation of at least the
      amount, all of it included, and a release for any active one; otherwise
      the answer says what is missing. */
  lemma EndsActiveOnly(r: Replica, input: Input, id: string, m: Mint)
    requires Valid(r) && input.amount <= 0
    ensures EmitSettle(r, input, id, m).1.Created? <==>
      exists h :: h in ActiveHolds(r.applied, input.Owner(), m.now) && h.id == id && -input.amount <= h.amount
    ensures EmitRelease(r, input, id, m).1.Created? <==>
      exists h :: h in ActiveHolds(r.applied, input.Owner(), m.now) && h.id == id
    ensures (forall h :: h in ActiveHolds(r.applied, input.Owner(), m.now) ==> h.id != id) ==>
      EmitSettle(r, input, id, m) == EmitRelease(r, input, id, m) == (r, Failed(ReservationNotFound(id)))
    ensures forall h :: h in ActiveHolds(r.applied, input.Owner(), m.now) && h.id == id && h.amount < -input.amount ==>
      EmitSettle(r, input, id, m) == (r, Failed(ReservationOverspend(h.amount, -input.amount)))
  {
    ValidLog(r);
    forall g, h | g in ActiveHolds(r.applied, input.Owner(), m.now) && h in ActiveHolds(r.applied, input.Owner(), m.now) && g.id == h.id
      ensures g == h
    {
      SameId(r.applied, input.Owner(), g, h);
    }
    hide Valid, ActiveHolds, Capture, Minted, WellFormed;
  }

  /** Once a request has settled or released a reservation, every later settle
      or release of it is refused, at any later state of the node's log. */
  lemma EndsOnce(r: Replica, input: Input, id: string, m: Mint, r': Replica, input': Input, m': Mint)
    requires Valid(r') && m.now <= m'.now && input'.Owner() == input.Owner()
    requires
      || (EmitSettle(r, input, id, m).1.Created? && LogGrows(EmitSettle(r, input, id, m).0.applied, r'.applied))
      || (EmitRelease(r, input, id, m).1.Created? && LogGrows(EmitRelease(r, input, id, m).0.applied, r'.applied))
    ensures EmitSettle(r', input', id, m').1 == Failed(ReservationNotFound(id))
    ensures EmitRelease(r', input', id, m').1 == Failed(ReservationNotFound(id))
  {
    ValidLog(r');
    hide Valid, LogGrows, HoldsOf, ReleasesOf, WellFormed;
    assert Ended(r'.applied, input.Owner(), id, m'.now) by {
      if EmitSettle(r, input, id, m).1.Created? && LogGrows(EmitSettle(r, input, id, m).0.applied, r'.applied) {
        var charge := ChargeEvent(r, input.(transferTo := None), m.now, m.first);
        var r1 := Minted(r, charge);
        ReleaseEnds(r1.applied, ReleaseEvent(r1, input, ReleaseNonce(input.nonce), None, id, m.now, m.second), id, m'.now);
      } else {
        ReleaseEnds(r.applied, ReleaseEvent(r, input, input.nonce, input.note, id, m.now, m.first), id, m'.now);
      }
    }
    GrowsRefl(r'.applied);
    EndedNeverActive(r'.applied, r'.applied, input.Owner(), id, m'.now, m'.now);
  }

  lemma GrowsRefl(log: Log)
    ensures LogGrows(log, log)
  {
  }

  // ---- Conservation ----

  ghost function EventsIn(log: Log, bucket: string): set<Event> {
    set k | k in log && log[k].bucket == bucket :: log[k]
  }

  ghost function BucketTotal(log: Log, bucket: string): int {
    SumOf(EventsIn(log, bucket), AmountOf)
  }

  lemma TotalWith(log: Log, e: Event)
    requires WellFormed(log) && e.Key() !in log
    ensures BucketTotal(With(log, e), e.bucket) == BucketTotal(log, e.bucket) + e.amount
  {
    var log' := With(log, e);
    assert log'[e.Key()] == e;
    forall x | x in EventsIn(log, e.bucket)
      ensures x in EventsIn(log', e.bucket)
    {
      assert x.Key() in log' && log'[x.Key()] == x;
    }
    assert EventsIn(log', e.bucket) == EventsIn(log, e.bucket) + {e};
    SumInsert(EventsIn(log, e.bucket), AmountOf, e);
  }

  /** A transfer moves money inside its bucket exactly when it is not a credit:
      a positive amount credits both sides. */
  lemma TransferConservesIff(r: Replica, input: Input, hold: nat, expires: nat, m: Mint)
    requires Valid(r) && MintFresh(r, m) && input.bucket !in r.deleted && input.transferTo.Some? && IsI64(input.amount)
    ensures BucketTotal(HeldCharge(r, input, hold, expires, m).0.applied, input.bucket) == BucketTotal(r.applied, input.bucket)
      <==> input.amount <= 0
  {
    hide Valid, BucketTotal, EmitTransfer, DebitBooked;
    if !Overflows(input) && hold > 0 {
      var reservation := ReservationEvent(r, input, hold, expires, m.now, m.first);
      MintedFresh(r, reservation);
      ValidLog(r);
      TotalWith(r.applied, reservation);
      NextAfter(r, reservation, reservation.(id := m.second));
      NextAfter(r, reservation, reservation.(id := m.third));
      MintedApplied(r, reservation);
      hide Minted;
      TransferTotal(Minted(r, reservation), input, [reservation], m);
    } else if !Overflows(input) {
      TransferTotal(r, input, [], m);
    }
  }

  lemma TransferTotal(r: Replica, input: Input, before: seq<Event>, m: Mint)
    requires Valid(r) && input.bucket !in r.deleted && input.transferTo.Some?
    requires IdFresh(r.applied, m.second) && IdFresh(r.applied, m.third) && m.second != m.third
    ensures BucketTotal(EmitTransfer(r, input, before, m).0.applied, input.bucket)
      == BucketTotal(r.applied, input.bucket) + input.amount + Abs(input.amount)
  {
    hide Valid, BucketTotal;
    var charge := ChargeEvent(r, input, m.now, m.second);
    MintedFresh(r, charge);
    ValidLog(r);
    TotalWith(r.applied, charge);
    var r1 := Minted(r, charge);
    var credit := CreditEvent(r1, input, input.transferTo.value, m.now, m.third);
    NextAfter(r, charge, credit);
    MintedFresh(r1, credit);
    ValidLog(r1);
    TotalWith(r1.applied, credit);
  }

  // ---- What 64-bit words cost the guard ----

  /** Where the guard's comparison of words agrees with the exact one, for a
      difference `x` of at most three words and any limit `m`. With a limit in
      the signed range it fails for an `x` below the range that wraps to or
      above the floor. A limit beyond the signed range has the positive floor
      `TWO64 - m`, which refuses what the limit would allow. */
  predicate GuardExact(x: int, m: nat) {
    if m <= TWO63 then x >= -TWO63 || (x + TWO64 >= -TWO63 && x + TWO64 + m < 0)
    else x >= TWO64 - m || -TWO63 - TWO64 <= x < -TWO63 || x + m + TWO64 < 0
  }

  lemma GuardExactIff(x: int, m: nat)
    requires -2 * TWO64 <= x < TWO63 && m <= U64_MAX
    ensures (WrapI64(x) >= Floor(m) <==> x + m >= 0) <==> GuardExact(x, m)
  {
    var f := Floor(m);
    WrapOnce(0 - m);
    if x >= -TWO63 - TWO64 {
      WrapOnce(x);
    } else {
      WrapOnce(x + TWO64);
      ModShift(x + TWO63, -1);
    }
    hide WrapI64;
  }

  /** A reservation is granted by the funds, for every account, limit and hold
      of 64 bits, exactly where the words do not run off the range. */
  lemma ReserveGuardExactIff(r: Replica, input: Input, m: Mint)
    requires AskedHold(input) <= U64_MAX && input.maxOverdraft <= U64_MAX
    ensures var left := Available(r.applied, input.Owner(), m.now) - AskedHold(input);
      (EmitReserve(r, input, m).1.Created? <==> left + input.maxOverdraft >= 0) <==> GuardExact(left, input.maxOverdraft)
  {
    AvailableExactIff(r.applied, input.Owner(), m.now);
    var left := Available(r.applied, input.Owner(), m.now) - AskedHold(input);
    hide Available, Balance;
    GuardExactIff(left, input.maxOverdraft);
    hide WrapI64, Floor;
  }

  /** ... and so is a debit, whether it takes a hold or not. */
  lemma ChargeGuardExactIff(r: Replica, input: Input, holdOverride: Option<(nat, nat)>, m: Mint)
    requires input.amount < 0 && IsI64(input.amount) && input.maxOverdraft <= U64_MAX
    requires holdOverride.Some? ==> holdOverride.value.0 <= U64_MAX
    ensures var left := Available(r.applied, input.Owner(), m.now) + input.amount - ChargeHold(r, input, holdOverride, m.now).0;
      && ((!NoFunds(EmitCharge(r, input, holdOverride, m).1) <==> left + input.maxOverdraft >= 0)
          <==> GuardExact(left, input.maxOverdraft))
      && (!Overflows(input) ==>
            (EmitCharge(r, input, holdOverride, m).1.Created? <==> !NoFunds(EmitCharge(r, input, holdOverride, m).1)))
  {
    AvailableExactIff(r.applied, input.Owner(), m.now);
    var (hold, expires) := ChargeHold(r, input, holdOverride, m.now);
    assert hold <= U64_MAX;
    HeldChargeCreates(r, input, hold, expires, m);
    var left := Available(r.applied, input.Owner(), m.now) + input.amount - hold;
    hide Available, Balance, ChargeHold, HeldCharge;
    GuardExactIff(left, input.maxOverdraft);
    hide WrapI64, Floor;
  }

  /** A refusal for lack of funds reports the balance, what was available, and
      the amount, below the floor, that the request would have left. */
  lemma RefusalReports(r: Replica, input: Input, holdOverride: Option<(nat, nat)>, m: Mint)
    ensures var (owner, floor) := (input.Owner(), WrapI64(0 - input.maxOverdraft));
      var available := Available(r.applied, owner, m.now);
      && (NoFunds(EmitCharge(r, input, holdOverride, m).1) ==>
            var error := EmitCharge(r, input, holdOverride, m).1.error;
            && error.balance == WrapI64(Balance(r.applied, owner)) && error.available == available
            && error.projected == WrapI64(available + input.amount - ChargeHold(r, input, holdOverride, m.now).0) < floor)
      && (NoFunds(EmitReserve(r, input, m).1) ==>
            var error := EmitReserve(r, input, m).1.error;
            && error.balance == WrapI64(Balance(r.applied, owner)) && error.available == available && !error.holdBlocking
            && error.projected == WrapI64(available - AskedHold(input)) < floor)
  {
    var (hold, expires) := ChargeHold(r, input, holdOverride, m.now);
    HeldChargeCreates(r, input, hold, expires, m);
    hide Available, Balance, ChargeHold, HeldCharge, WrapI64, Minted;
  }

  /** Credits and zero charges pass whatever the account holds. */
  lemma CreditsAlwaysPass(r: Replica, input: Input, holdOverride: Option<(nat, nat)>, m: Mint)
    requires input.amount >= 0
    ensures !NoFunds(EmitCharge(r, input, holdOverride, m).1)
    ensures input.transferTo.None? ==> EmitCharge(r, input, holdOverride, m).1.Created?
  {
    var (hold, expires) := ChargeHold(r, input, holdOverride, m.now);
    HeldChargeCreates(r, input, hold, expires, m);
    hide Available, Balance, ChargeHold, HeldCharge;
  }

  /** Two units below zero with a limit of two, a reservation of the greatest
      signed word is granted; with nothing available and no limit, one of the
      next greater word is refused. */
  lemma ReserveGuardWraps(r: Replica, input: Input, m: Mint)
    ensures Available(r.applied, input.Owner(), m.now) == -2 && input.maxOverdraft == 2 && input.holdAmount == Some(I64_MAX)
      ==> EmitReserve(r, input, m).1.Created?
    ensures Available(r.applied, input.Owner(), m.now) == 0 && input.maxOverdraft == 0 && input.holdAmount == Some(I64_MAX + 1)
      ==> EmitReserve(r, input, m).1.Failed?
  {
  }

  // ---- Why the bounds of a request are needed ----

  const SAMPLE := BalanceKey("b", "x")

  function PlainInput(amount: int, limit: nat, nonce: string): Input {
    Input(SAMPLE.bucket, SAMPLE.account, amount, None, limit, nonce, false, None, None, None, None, amount < 0, None)
  }

  /** A debit down to the floor, then a reservation. */
  function DebitThenReserve(limit: nat, hold: nat): seq<LocalOp> {
    [Request(PlainInput(0 - limit, limit, "k"), Mint(1, "a", "b", "c")),
     Request(PlainInput(0, limit, "l").(holdAmount := Some(hold), holdExpires := Some(3)), Mint(2, "d", "e", "f"))]
  }

  /** Beyond the bound a node grants a reservation to an account at its floor:
      two requests of the same limit leave the account below it. */
  lemma BoundIsNeeded(cfg: Config, limit: nat, hold: nat)
    requires 1 <= limit && 2 * limit <= TWO63 && hold <= U64_MAX - limit && limit + hold > TWO63
    ensures var start := Replica(cfg, map[], map[], {}, map[], Allocator.AllocState(map[], map[]));
      Spendable(RunAll(start, DebitThenReserve(limit, hold)).applied, SAMPLE, 2) == 0 - limit - hold
  {
    var start := Replica(cfg, map[], map[], {}, map[], Allocator.AllocState(map[], map[]));
    var r1 := DebitToFloor(start, limit);
    RunTwo(start, PlainInput(0 - limit, limit, "k"), Mint(1, "a", "b", "c"),
           PlainInput(0, limit, "l").(holdAmount := Some(hold), holdExpires := Some(3)), Mint(2, "d", "e", "f"));
    hide CreateLocal, Spendable, DebitedTo, RunAll, Apply;
    ReserveAtFloor(r1, limit, hold);
  }

  lemma RunTwo(r: Replica, input: Input, m: Mint, input': Input, m': Mint)
    ensures RunAll(r, [Request(input, m), Request(input', m')])
      == CreateLocal(CreateLocal(r, input, m).0, input', m').0
  {
    hide CreateLocal;
    var ops := [Request(input, m), Request(input', m')];
    var rest := [Request(input', m')];
    assert ops[1..] == rest && rest[1..] == [];
    assert RunAll(r, ops) == RunAll(Apply(r, ops[0]), rest);
  }

  /** The log holds one plain debit of the account; nothing is stored or tombstoned. */
  ghost predicate DebitedTo(r: Replica, limit: nat) {
    && Valid(r) && r.stored == map[] && r.deleted == {} && IdFresh(r.applied, "d") && "d" !in ReleasesOf(r.applied, SAMPLE)
    && Spendable(r.applied, SAMPLE, 2) == 0 - limit
    && PlainInput(0, limit, "l").Idem() !in r.cache
  }

  lemma DebitToFloor(start: Replica, limit: nat) returns (r: Replica)
    requires start == Replica(start.cfg, map[], map[], {}, map[], Allocator.AllocState(map[], map[]))
    requires 1 <= limit && 2 * limit <= TWO63
    ensures r == CreateLocal(start, PlainInput(0 - limit, limit, "k"), Mint(1, "a", "b", "c")).0
    ensures DebitedTo(r, limit)
  {
    var input, m := PlainInput(0 - limit, limit, "k"), Mint(1, "a", "b", "c");
    r := CreateLocal(start, input, m).0;
    NothingThere(1);
    NothingThere(2);
    var charge := ChargeEvent(start, input, 1, "b");
    DebitPasses(start, input, m);
    StartCovered(start, 1, 0);
    assert ReleasesOf(start.applied, SAMPLE) == {};
    hide CreateLocal, Valid, ActiveHolds, Spendable, ReleasesOf, Covered;
    assert MintsNext(start, charge);
    MintedFresh(start, charge);
    ValidLog(start);
    PlainSpendable(start.applied, charge, SAMPLE, 2);
    ReleasesOfWith(start.applied, charge, SAMPLE);
  }

  lemma NothingThere(now: nat)
    ensures Spendable(map[], SAMPLE, now) == 0 && Available(map[], SAMPLE, now) == 0
  {
    assert EventsOf(map[], SAMPLE) == {} && ActiveHolds(map[], SAMPLE, now) == {};
    assert HoldTotal({}) == 0;
  }

  /** A first debit that takes no hold, within the limit, is minted at once. */
  lemma DebitPasses(r: Replica, input: Input, m: Mint)
    requires r.cache == map[] && r.stored == map[] && r.deleted == {} && Available(r.applied, input.Owner(), m.now) == 0
    requires input == PlainInput(input.amount, input.maxOverdraft, input.nonce)
    requires input.amount < 0 && input.amount + input.maxOverdraft == 0 && input.maxOverdraft <= TWO63
    ensures CreateLocal(r, input, m).0 == Minted(r, ChargeEvent(r, input, m.now, m.second))
  {
    assert Matching(r.stored, input.Idem()) == {};
    hide Available, Balance, Minted, Matching;
    WrapOnce(0 - input.maxOverdraft);
  }

  /** A reservation nobody requested before is left to the guard. */
  lemma ReserveReached(r: Replica, input: Input, m: Mint)
    requires r.stored == map[] && r.deleted == {} && input.Idem() !in r.cache
    requires input == PlainInput(0, input.maxOverdraft, input.nonce).(holdAmount := input.holdAmount, holdExpires := input.holdExpires)
    requires input.holdAmount.Some? && input.holdAmount.value > 0 && input.holdExpires.Some?
    requires input.holdExpires.value > m.now
    ensures CreateLocal(r, input, m) == EmitReserve(r, input, m)
  {
    assert Matching(r.stored, input.Idem()) == {};
    hide EmitReserve, Matching;
  }

  lemma ReserveAtFloor(r: Replica, limit: nat, hold: nat)
    requires DebitedTo(r, limit) && 1 <= limit && 2 * limit <= TWO63 && hold <= U64_MAX - limit && limit + hold > TWO63
    ensures var input := PlainInput(0, limit, "l").(holdAmount := Some(hold), holdExpires := Some(3));
      Spendable(CreateLocal(r, input, Mint(2, "d", "e", "f")).0.applied, SAMPLE, 2) == 0 - limit - hold
  {
    var input, m := PlainInput(0, limit, "l").(holdAmount := Some(hold), holdExpires := Some(3)), Mint(2, "d", "e", "f");
    hide CreateLocal, EmitReserve, Valid, Spendable, ReleasesOf, Available, IdFresh;
    ReserveReached(r, input, m);
    AvailableExactIff(r.applied, SAMPLE, 2);
    ReserveWraps(r, input, m);
    var e := ReserveEvent(r, input, hold, 3, 2, "d");
    MintedFresh(r, e);
    ValidLog(r);
    HoldTakes(r.applied, e, 2);
  }

  lemma ReserveWraps(r: Replica, input: Input, m: Mint)
    requires Available(r.applied, input.Owner(), m.now) + input.maxOverdraft == 0 && input.maxOverdraft <= TWO63
    requires input.holdAmount.Some? && input.holdExpires.Some?
    requires TWO63 < input.maxOverdraft + input.holdAmount.value <= U64_MAX
    ensures EmitReserve(r, input, m).0
      == Minted(r, ReserveEvent(r, input, input.holdAmount.value, input.holdExpires.value, m.now, m.first))
  {
    WrapOnce(0 - input.maxOverdraft - input.holdAmount.value);
    WrapOnce(0 - input.maxOverdraft);
    hide Available, WrapI64, Balance, Minted;
  }

  lemma HoldTakes(log: Log, e: Event, now: nat)
    requires WellFormed(log) && e.Key() !in log && IdFresh(log, e.id) && e.id !in ReleasesOf(log, e.Owner())
    requires e.HasHold() && e.ReleasedHold().None? && e.holdExpires > now
    ensures Spendable(With(log, e), e.Owner(), now) == Spendable(log, e.Owner(), now) + e.amount - e.holdAmount
  {
    HeldHolds(log, e, now);
    BalanceWith(log, e, e.Owner());
    hide ActiveHolds, Balance, ReleasesOf;
    HoldTotalGrows(ActiveHolds(log, e.Owner(), now), HoldOf(e));
  }

  /** The gateway's unlimited overdraft, the greatest unsigned word, is a floor
      of one: a debit without hold passes exactly when it leaves something. */
  lemma UnlimitedOverdraftNeedsFunds(r: Replica, input: Input, m: Mint)
    requires input.amount < 0 && input.maxOverdraft == U64_MAX
    ensures EmitCharge(r, input, Some((0, 0)), m).1.Created? <==>
      WrapI64(Available(r.applied, input.Owner(), m.now) + input.amount) >= 1 && !Overflows(input)
  {
    HeldChargeCreates(r, input, 0, 0, m);
    assert Floor(U64_MAX) == 1;
    hide Available, Balance, HeldCharge, WrapI64, Floor;
  }
}
