/** The events a request mints, as one gapless stretch of the node's own line:
    consecutive pairs, new ids, nothing skipped. */
module Emission {
  import opened Types
  import opened Ledger
  import opened ReplicaModel
  import Allocator

  function WithAll(log: Log, events: seq<Event>): Log
    decreases |events|
  {
    if events == [] then log else WithAll(With(log, events[0]), events[1..])
  }

  /** The events can be added one after the other. */
  ghost predicate Recordable(log: Log, events: seq<Event>) {
    && (forall i :: 0 <= i < |events| ==>
          events[i].Key() !in log && events[i].seqNo >= 1 && IdFresh(log, events[i].id))
    && (forall i, j :: 0 <= i < j < |events| ==>
          events[i].Key() != events[j].Key() && events[i].id != events[j].id)
  }

  function MintAll(r: Replica, events: seq<Event>): Replica
    decreases |events|
  {
    if events == [] then r else MintAll(Minted(r, events[0]), events[1..])
  }

  /** Each event is the next of its bucket's line when its turn comes. */
  ghost predicate AllNext(r: Replica, events: seq<Event>)
    decreases |events|
  {
    events == [] || (MintsNext(r, events[0]) && AllNext(Minted(r, events[0]), events[1..]))
  }

  lemma RecordableStep(log: Log, e: Event, rest: seq<Event>)
    requires e.Key() !in log && e.seqNo >= 1 && IdFresh(log, e.id)
    requires Recordable(With(log, e), rest)
    ensures Recordable(log, [e] + rest)
  {
    var log', all := With(log, e), [e] + rest;
    forall i | 0 <= i < |rest|
      ensures rest[i].Key() !in log && rest[i].Key() != e.Key() && rest[i].id != e.id && rest[i].seqNo >= 1
      ensures IdFresh(log, rest[i].id)
    {
      FreshBefore(log, e, rest[i].id);
    }
    hide IdFresh, With;
    forall i | 0 <= i < |all|
      ensures all[i] == if i == 0 then e else rest[i - 1]
    {
    }
  }

  lemma FreshBefore(log: Log, e: Event, id: string)
    requires e.Key() !in log && IdFresh(With(log, e), id)
    ensures IdFresh(log, id) && id != e.id
  {
    var log' := With(log, e);
    assert e.Key() in log' && log'[e.Key()] == e;
    assert forall k :: k in log ==> k in log' && log'[k] == log[k];
  }

  /** Minting in turn keeps the replica valid, and the events it adds are new. */
  lemma {:induction false} MintAllValid(r: Replica, events: seq<Event>)
    requires Valid(r) && AllNext(r, events)
    ensures Valid(MintAll(r, events)) && Recordable(r.applied, events)
    ensures MintAll(r, events).applied == WithAll(r.applied, events)
    decreases |events|
  {
    if events != [] {
      hide Valid, MintsNext;
      var e := events[0];
      MintedFresh(r, e);
      MintAllValid(Minted(r, e), events[1..]);
      RecordableStep(r.applied, e, events[1..]);
      assert [e] + events[1..] == events;
    }
  }

  lemma MintedFresh(r: Replica, e: Event)
    requires Valid(r) && MintsNext(r, e)
    ensures Valid(Minted(r, e)) && e.Key() !in r.applied && e.seqNo >= 1 && IdFresh(r.applied, e.id)
  {
    MintedValid(r, e);
  }

  lemma MintOne(r: Replica, e: Event)
    ensures MintAll(r, [e]) == Minted(r, e)
    ensures AllNext(r, [e]) <==> MintsNext(r, e)
  {
  }

  lemma MintMore(r: Replica, e: Event, rest: seq<Event>)
    ensures MintAll(r, [e] + rest) == MintAll(Minted(r, e), rest)
    ensures AllNext(r, [e] + rest) <==> MintsNext(r, e) && AllNext(Minted(r, e), rest)
  {
  }

  /** A freshly minted event of the replica's own leaves a different new id new. */
  lemma NextAfter(r: Replica, e: Event, f: Event)
    requires Valid(r) && MintsNext(r, e) && IdFresh(r.applied, f.id) && f.id != e.id
    ensures IdFresh(Minted(r, e).applied, f.id)
  {
  }

  // ---- What each request emits ----

  /** Pairs and cache entries are used up, but nothing reached the log. */
  ghost predicate Burnt(r: Replica, r': Replica) {
    Valid(r') && r'.applied == r.applied && r'.stored == r.stored && r'.deleted == r.deleted && r'.cfg == r.cfg
  }

  /** A request either leaves the replica alone, or the log, or mints what it reports. */
  ghost predicate EmitsNext(r: Replica, outcome: (Replica, CreateResult)) {
    match outcome.1
    case Failed(_) => if outcome.1 == LATE_REFUSAL then Burnt(r, outcome.0) else outcome.0 == r
    case Created(_, emitted) => AllNext(r, emitted) && outcome.0 == MintAll(r, emitted)
  }

  lemma TransferEmits(r: Replica, input: Input, m: Mint)
    requires Valid(r) && input.bucket !in r.deleted
    requires IdFresh(r.applied, m.second) && IdFresh(r.applied, m.third) && m.second != m.third
    ensures EmitsNext(r, EmitTransfer(r, input, [], m))
  {
    var charge := ChargeEvent(r, input, m.now, m.second);
    MintOne(r, charge);
    if input.transferTo.Some? {
      var r1 := Minted(r, charge);
      var credit := CreditEvent(r1, input, input.transferTo.value, m.now, m.third);
      NextAfter(r, charge, credit);
      hide Minted;
      MintOne(r1, credit);
      MintMore(r, charge, [credit]);
      assert [] + [charge, credit] == [charge] + [credit];
    } else {
      assert [] + [charge] == [charge];
    }
  }

  lemma TransferAfter(r: Replica, input: Input, before: seq<Event>, m: Mint)
    ensures EmitTransfer(r, input, before, m).0 == EmitTransfer(r, input, [], m).0
    ensures EmitTransfer(r, input, before, m).1.Created?
    ensures EmitTransfer(r, input, [], m).1.Created?
    ensures EmitTransfer(r, input, before, m).1.emitted == before + EmitTransfer(r, input, [], m).1.emitted
    ensures EmitTransfer(r, input, before, m).1.primary == EmitTransfer(r, input, [], m).1.primary
  {
  }

  lemma HeldTransferEmits(r: Replica, input: Input, reservation: Event, m: Mint)
    requires Valid(r) && MintFresh(r, m) && input.bucket !in r.deleted
    requires MintsNext(r, reservation) && reservation.id == m.first
    ensures EmitsNext(r, EmitTransfer(Minted(r, reservation), input, [reservation], m))
  {
    var r1 := Minted(r, reservation);
    MintedFresh(r, reservation);
    NextAfter(r, reservation, reservation.(id := m.second));
    NextAfter(r, reservation, reservation.(id := m.third));
    hide EmitTransfer, Valid, Minted, MintsNext;
    MintedDeleted(r, reservation);
    TransferEmits(r1, input, m);
    TransferAfter(r1, input, [reservation], m);
    MintMore(r, reservation, EmitTransfer(r1, input, [], m).1.emitted);
  }

  lemma MintedDeleted(r: Replica, e: Event)
    ensures Minted(r, e).deleted == r.deleted
  {
  }

  lemma HeldChargeEmits(r: Replica, input: Input, hold: nat, expires: nat, m: Mint)
    requires Valid(r) && MintFresh(r, m) && input.bucket !in r.deleted
    ensures var outcome := HeldCharge(r, input, hold, expires, m);
      && EmitsNext(r, outcome)
      && (if Overflows(input) then outcome.1 == LATE_REFUSAL else
          && outcome.1.Created? && Recordable(r.applied, outcome.1.emitted)
          && outcome.0.applied == WithAll(r.applied, outcome.1.emitted))
  {
    hide Valid, Minted, EmitsNext, DebitBooked;
    if Overflows(input) {
      DebitIsBurnt(r, input, hold, expires, m);
    } else if hold > 0 {
      HeldTransferEmits(r, input, ReservationEvent(r, input, hold, expires, m.now, m.first), m);
    } else {
      TransferEmits(r, input, m);
    }
    EmittedValid(r, HeldCharge(r, input, hold, expires, m));
  }

  /** A debit that is booked but never recorded. */
  lemma DebitIsBurnt(r: Replica, input: Input, hold: nat, expires: nat, m: Mint)
    requires Valid(r) && MintFresh(r, m) && input.bucket !in r.deleted
    ensures var r' := DebitBooked(r, input, hold, expires, m);
      Valid(r') && Burnt(r, r'.(applied := r.applied)) && EmitsNext(r, (r'.(applied := r.applied), LATE_REFUSAL))
  {
    var r0 := r;
    if hold > 0 {
      var reservation := ReservationEvent(r, input, hold, expires, m.now, m.first);
      MintedFresh(r, reservation);
      NextAfter(r, reservation, reservation.(id := m.second));
      MintUnrecorded(r, r.applied, reservation);
      r0 := Minted(r, reservation);
    }
    hide Valid;
    var charge := ChargeEvent(r0, input, m.now, m.second);
    MintedFresh(r0, charge);
    LogFree(r);
    MintUnrecorded(r0, r.applied, charge);
  }

  /** A log that fits still fits when only the allocator and the cache move on. */
  lemma MintUnrecorded(r: Replica, log: Log, e: Event)
    requires Valid(r) && MintsNext(r, e) && Valid(r.(applied := log))
    ensures Valid(Minted(r, e).(applied := log))
  {
    Allocator.AllocateAdvances(r.alloc, e.bucket);
  }

  lemma LogFree(r: Replica)
    ensures r.(applied := r.applied) == r
  {
  }

  lemma ModeNeverLate(input: Input, now: nat)
    ensures ModeOf(input, now) != Rejected(TransferOverflows)
  {
  }

  lemma ChargeEmits(r: Replica, input: Input, holdOverride: Option<(nat, nat)>, m: Mint)
    requires Valid(r) && MintFresh(r, m) && input.bucket !in r.deleted
    ensures EmitsNext(r, EmitCharge(r, input, holdOverride, m))
  {
    hide Valid, ChargeHold, HeldCharge, Available, EmitsNext;
    var (hold, expires) := ChargeHold(r, input, holdOverride, m.now);
    FailureEmits(r, EmitCharge(r, input, holdOverride, m));
    HeldChargeEmits(r, input, hold, expires, m);
  }

  lemma FailureEmits(r: Replica, outcome: (Replica, CreateResult))
    ensures outcome.1.Failed? && outcome.1 != LATE_REFUSAL && outcome.0 == r ==> EmitsNext(r, outcome)
  {
  }

  lemma CaptureEmits(r: Replica, input: Input, id: string, m: Mint)
    requires Valid(r) && MintFresh(r, m) && input.bucket !in r.deleted
    ensures EmitsNext(r, Capture(r, input, id, m))
  {
    var charge := ChargeEvent(r, input.(transferTo := None), m.now, m.first);
    var r1 := Minted(r, charge);
    var release := ReleaseEvent(r1, input, ReleaseNonce(input.nonce), None, id, m.now, m.second);
    NextAfter(r, charge, release);
    hide Minted;
    MintedDeleted(r, charge);
    MintOne(r1, release);
    MintMore(r, charge, [release]);
    assert [charge, release] == [charge] + [release];
  }

  lemma SettleEmits(r: Replica, input: Input, id: string, m: Mint)
    requires Valid(r) && MintFresh(r, m) && input.bucket !in r.deleted
    ensures EmitsNext(r, EmitSettle(r, input, id, m))
  {
    hide IsActive, Capture, EmitsNext;
    CaptureEmits(r, input, id, m);
    FailureEmits(r, EmitSettle(r, input, id, m));
  }

  lemma EmitModeEmits(r: Replica, input: Input, mode: Mode, m: Mint)
    requires Valid(r) && MintFresh(r, m) && input.bucket !in r.deleted
    ensures EmitsNext(r, EmitMode(r, input, mode, m))
  {
    match mode
    case Charge(h) => ChargeEmits(r, input, h, m);
    case Reserve =>
      hide Available, Minted;
      var result := EmitReserve(r, input, m).1;
      if result.Created? { MintOne(r, result.primary); }
    case Settle(id) => SettleEmits(r, input, id, m);
    case Release(id) =>
      hide IsActive, Minted;
      var result := EmitRelease(r, input, id, m).1;
      if result.Created? { MintOne(r, result.primary); }
  }

  lemma EmittedValid(r: Replica, outcome: (Replica, CreateResult))
    requires Valid(r) && EmitsNext(r, outcome)
    ensures Valid(outcome.0)
    ensures outcome.1.Failed? ==> outcome.0.applied == r.applied && (outcome.1 != LATE_REFUSAL ==> outcome.0 == r)
    ensures outcome.1.Created? ==> Recordable(r.applied, outcome.1.emitted)
    ensures outcome.1.Created? ==> outcome.0.applied == WithAll(r.applied, outcome.1.emitted)
  {
    hide Valid;
    if outcome.1.Created? {
      MintAllValid(r, outcome.1.emitted);
    }
  }

  /** Whatever a request does, the replica stays valid and the log grows by
      exactly the reported events. A refusal leaves no trace, but for the late
      one. */
  lemma CreateLocalValid(r: Replica, input: Input, m: Mint)
    requires Valid(r) && MintFresh(r, m)
    ensures var (r', result) := CreateLocal(r, input, m);
      && Valid(r') && r'.stored == r.stored && r'.deleted == r.deleted && r'.cfg == r.cfg
      && (result.Failed? ==> r'.applied == r.applied && (result != LATE_REFUSAL ==> r' == r))
      && (result.Created? ==> Recordable(r.applied, result.emitted) && r'.applied == WithAll(r.applied, result.emitted))
  {
    hide EmitMode, Matching, Valid, Recordable, MintFresh, EmitsNext;
    RecordableNone(r.applied);
    var mode := ModeOf(input, m.now);
    if input.bucket !in r.deleted && Matching(r.stored, input.Idem()) != {} {
      CacheFree(r, r.cache[input.Idem() := LeastOf(Matching(r.stored, input.Idem()))]);
    }
    if mode.Selected? && input.bucket !in r.deleted {
      EmitModeEmits(r, input, mode.mode, m);
      EmittedValid(r, EmitMode(r, input, mode.mode, m));
      EmittedKeeps(r, EmitMode(r, input, mode.mode, m));
    }
  }

  lemma RecordableNone(log: Log)
    ensures Recordable(log, []) && WithAll(log, []) == log
  {
  }

  lemma {:induction false} MintAllKeeps(r: Replica, events: seq<Event>)
    ensures MintAll(r, events).stored == r.stored && MintAll(r, events).deleted == r.deleted
    ensures MintAll(r, events).cfg == r.cfg
    decreases |events|
  {
    if events != [] {
      MintAllKeeps(Minted(r, events[0]), events[1..]);
    }
  }

  lemma EmittedKeeps(r: Replica, outcome: (Replica, CreateResult))
    requires EmitsNext(r, outcome)
    ensures outcome.0.stored == r.stored && outcome.0.deleted == r.deleted && outcome.0.cfg == r.cfg
  {
    if outcome.1.Created? {
      MintAllKeeps(r, outcome.1.emitted);
    }
  }

  // ---- Deletes and deliveries ----

  lemma AllocatedValid(r: Replica, bucket: string)
    requires Valid(r)
    ensures Valid(r.(alloc := Allocator.AfterAllocate(r.alloc, bucket)))
  {
    Allocator.AllocateAdvances(r.alloc, bucket);
  }

  lemma AppendedValid(q: Replica, e: Event)
    requires Valid(q) && MintsNext(q, e)
    ensures Valid(Appended(q, e)) && e.Key() !in q.applied && e.seqNo >= 1 && IdFresh(q.applied, e.id)
  {
    MintedFresh(q, e);
  }

  lemma CreateDeleteValid(r: Replica, bucket: string, reason: Option<string>, m: Mint)
    requires Valid(r) && IdFresh(r.applied, m.first) && CreateDelete(r, bucket, reason, m).1.Created?
    ensures var q := Purge(r, bucket);
      var e := DeleteEvent(q, bucket, reason, m);
      && bucket != META_BUCKET && Valid(q) && e == DeleteEvent(r, bucket, reason, m)
      && CreateDelete(r, bucket, reason, m) == (Appended(q, e), Created(e, [e]))
      && Valid(Appended(q, e)) && e.Key() !in q.applied && e.seqNo >= 1 && IdFresh(q.applied, e.id)
  {
    DeleteResult(r, bucket, reason, m);
    DeleteSplits(r, bucket, reason, m);
    PurgeValid(r, bucket);
    AppendedValid(Purge(r, bucket), DeleteEvent(Purge(r, bucket), bucket, reason, m));
  }

  /** The replica a delivered event is added to. */
  function Cleared(r: Replica, e: Event): Replica {
    var target := e.MetaTargetBucket();
    if target.Some? && target.value != META_BUCKET then Purge(r, target.value) else r
  }

  /** Clearing a bucket leaves room for the event. */
  lemma ClearedFits(r: Replica, e: Event)
    requires Valid(r) && Accepts(r, e) && Deliverable(r, e)
    ensures var q := Cleared(r, e);
      && Valid(q) && Accepts(q, e) && Deliverable(q, e) && Admit(r, e) == q.(applied := With(q.applied, e))
  {
    var target := e.MetaTargetBucket();
    if target.Some? && target.value != META_BUCKET {
      PurgeValid(r, target.value);
      assert NextPair(Purge(r, target.value), e.bucket) == NextPair(r, e.bucket);
      hide Valid, OwnBelowNext, WellFormed;
    }
  }

  lemma AdmitValid(r: Replica, e: Event)
    requires Valid(r) && Accepts(r, e) && Deliverable(r, e)
    ensures var q := Cleared(r, e);
      && Valid(q) && Accepts(q, e) && IdFresh(q.applied, e.id) && Admit(r, e) == q.(applied := With(q.applied, e))
      && Valid(Admit(r, e))
  {
    hide Valid, Cleared, Admit, Accepts;
    ClearedFits(r, e);
    AddValid(Cleared(r, e), e);
  }
}
