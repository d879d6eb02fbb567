/** Field by field, what a granted request and a resolved conflict add to the
    node's line: consecutive seqs of one epoch, the node's own name and clock,
    and nothing the request did not ask for. */
module Emitted {
  import opened Emission
  import opened Ledger
  import opened ReplicaModel
  import opened Requests
  import opened Types
  import Allocator

  /** The request was neither refused nor answered from an earlier one. */
  ghost predicate Grants(r: Replica, input: Input, m: Mint) {
    Valid(r) && CreateLocal(r, input, m).1.Created? && CreateLocal(r, input, m).1.emitted != []
  }

  lemma GrantedByMode(r: Replica, input: Input, m: Mint)
    requires Grants(r, input, m)
    ensures ModeOf(input, m.now).Selected?
    ensures CreateLocal(r, input, m) == EmitMode(r, input, ModeOf(input, m.now).mode, m)
  {
    hide EmitMode, Valid, Matching;
  }

  lemma Advances(r: Replica, e: Event)
    requires Valid(r)
    ensures Allocator.Consistent(Minted(r, e).alloc)
    ensures NextPair(Minted(r, e), e.bucket) == (NextPair(r, e.bucket).0, NextPair(r, e.bucket).1 + 1)
  {
    Allocator.AllocateAdvances(r.alloc, e.bucket);
  }

  lemma AdvancesTwice(r: Replica, e: Event, f: Event)
    requires Valid(r) && e.bucket == f.bucket
    ensures NextPair(Minted(Minted(r, e), f), e.bucket) == (NextPair(r, e.bucket).0, NextPair(r, e.bucket).1 + 2)
  {
    Advances(r, e);
    Allocator.AllocateAdvances(Minted(r, e).alloc, e.bucket);
  }

  /** A reserve adds one event that moves no money and holds what was asked
      until it was asked. */
  lemma ReserveAdds(r: Replica, input: Input, m: Mint)
    requires Grants(r, input, m) && MeansSizedHold(input, m.now) && input.amount == 0
    ensures var ((epoch, s), result) := (NextPair(r, input.bucket), CreateLocal(r, input, m).1);
      && result.emitted == [result.primary]
      && result.primary == Event(m.first, r.cfg.nodeId, epoch, s, m.now, ReservationCreate, input.bucket, input.account, 0,
                                 input.note, input.nonce, None, input.holdAmount.value, input.holdExpires.value, None)
  {
    ModeIffMeant(input, m.now);
    GrantedByMode(r, input, m);
    hide CreateLocal, Valid, Available, Minted;
  }

  /** A settle adds the charge and the release of the reservation it names. */
  lemma SettleAdds(r: Replica, input: Input, id: string, m: Mint)
    requires Grants(r, input, m) && MeansSettle(input, id)
    ensures var ((epoch, s), result) := (NextPair(r, input.bucket), CreateLocal(r, input, m).1);
      && |result.emitted| == 2 && result.primary == result.emitted[0]
      && result.emitted[0] == Event(m.first, r.cfg.nodeId, epoch, s, m.now, Standard, input.bucket, input.account, input.amount,
                                    input.note, input.nonce, None, 0, 0, None)
      && result.emitted[1] == Event(m.second, r.cfg.nodeId, epoch, s + 1, m.now, HoldRelease, input.bucket, input.account, 0,
                                    None, "release:" + input.nonce, Some(id), 0, 0, None)
  {
    ModeIffMeant(input, m.now);
    GrantedByMode(r, input, m);
    Advances(r, ChargeEvent(r, input.(transferTo := None), m.now, m.first));
    hide CreateLocal, Valid, IsActive, Minted;
  }

  /** A release adds the release alone. */
  lemma ReleaseAdds(r: Replica, input: Input, id: string, m: Mint)
    requires Grants(r, input, m) && MeansRelease(input, id)
    ensures var ((epoch, s), result) := (NextPair(r, input.bucket), CreateLocal(r, input, m).1);
      && result.emitted == [result.primary]
      && result.primary == Event(m.first, r.cfg.nodeId, epoch, s, m.now, HoldRelease, input.bucket, input.account, 0,
                                 input.note, input.nonce, Some(id), 0, 0, None)
  {
    ModeIffMeant(input, m.now);
    GrantedByMode(r, input, m);
    hide CreateLocal, Valid, IsActive, Minted;
  }

  /** The hold in front of a charge, if there is one. */
  function HoldPart(r: Replica, input: Input, hold: nat, expires: nat, m: Mint): seq<Event> {
    var (epoch, s) := NextPair(r, input.bucket);
    if hold == 0 then []
    else [Event(m.first, r.cfg.nodeId, epoch, s, m.now, ReservationCreate, input.bucket, input.account, 0,
                None, "reserve:" + input.nonce, None, hold, expires, None)]
  }

  /** A charge on the next pair but `k`, and the credit of its transfer behind it. */
  function ChargePart(r: Replica, input: Input, k: nat, m: Mint): seq<Event> {
    var (epoch, s) := NextPair(r, input.bucket);
    [Event(m.second, r.cfg.nodeId, epoch, s + k, m.now, Standard, input.bucket, input.account, input.amount,
           input.note, input.nonce, None, 0, 0, input.transferTo)]
    + if input.transferTo.None? then []
      else [Event(m.third, r.cfg.nodeId, epoch, s + k + 1, m.now, Standard, input.bucket, input.transferTo.value,
                  if input.amount < 0 then -input.amount else input.amount,
                  input.note, "credit:" + input.nonce, None, 0, 0, None)]
  }

  lemma HeldChargeAdds(r: Replica, input: Input, hold: nat, expires: nat, m: Mint)
    requires Valid(r) && !Overflows(input)
    ensures var result := HeldCharge(r, input, hold, expires, m).1;
      && result.Created?
      && result.emitted == HoldPart(r, input, hold, expires, m) + ChargePart(r, input, if hold == 0 then 0 else 1, m)
      && result.primary == ChargePart(r, input, if hold == 0 then 0 else 1, m)[0]
  {
    hide Valid;
    if hold > 0 {
      var reservation := ReservationEvent(r, input, hold, expires, m.now, m.first);
      Advances(r, reservation);
      AdvancesTwice(r, reservation, ChargeEvent(Minted(r, reservation), input, m.now, m.second));
      hide Allocator.NextPair, Allocator.AfterAllocate;
    } else {
      Advances(r, ChargeEvent(r, input, m.now, m.second));
      hide Allocator.NextPair, Allocator.AfterAllocate;
    }
  }

  /** A charge adds its hold, if any, the charge, and the credit of a transfer.
      The hold is the caller's, or none if it was waived; otherwise it is sized
      by the node, lasts for the configured duration and is absent for a
      credit. */
  lemma ChargeAdds(r: Replica, input: Input, m: Mint)
    requires Grants(r, input, m) && Plain(input)
    requires NoHoldFields(input) || (MeansSizedHold(input, m.now) && input.amount < 0)
    ensures exists hold: nat, expires: nat ::
      var result := CreateLocal(r, input, m).1;
      && result.emitted == HoldPart(r, input, hold, expires, m) + ChargePart(r, input, if hold == 0 then 0 else 1, m)
      && result.primary == ChargePart(r, input, if hold == 0 then 0 else 1, m)[0]
      && (if HasExplicitHold(input) then hold == input.holdAmount.value && expires == input.holdExpires.value
          else if input.skipHold || input.amount >= 0 then hold == 0
          else expires == m.now + r.cfg.holdDuration || hold == 0)
  {
    ModeIffMeant(input, m.now);
    GrantedByMode(r, input, m);
    hide CreateLocal, Valid, Available, HeldCharge, CurrentOriginHold, Balance;
    var holdOverride := ModeOf(input, m.now).mode.holdOverride;
    var (hold, expires) := ChargeHold(r, input, holdOverride, m.now);
    NoLateCharge(r, input, hold, expires, m);
    HeldChargeAdds(r, input, hold, expires, m);
  }

  lemma NoLateCharge(r: Replica, input: Input, hold: nat, expires: nat, m: Mint)
    ensures HeldCharge(r, input, hold, expires, m).1.Created? ==> !Overflows(input)
  {
    hide EmitTransfer;
  }

  /** A delete adds one event to the meta log, which names the bucket. */
  lemma DeleteAdds(r: Replica, bucket: string, reason: Option<string>, m: Mint)
    requires CreateDelete(r, bucket, reason, m).1.Created?
    ensures var ((epoch, s), result) := (NextPair(r, "__meta__"), CreateDelete(r, bucket, reason, m).1);
      && result.emitted == [result.primary]
      && result.primary == Event(m.first, r.cfg.nodeId, epoch, s, m.now, EventType.BucketDelete, "__meta__", bucket, 0,
                                 reason, "delete:" + bucket, None, 0, 0, None)
  {
    hide Purge;
  }
}
