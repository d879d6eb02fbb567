/** What a delivery does to the holds of every account: which reservation a
    conflict between duplicates frees, and that it touches no other. */
module Corrections {
  import opened Emission
  import opened Funds
  import opened Ledger
  import opened ReplicaModel
  import opened Types
  import Allocator

  // ---- One event of a log ----

  /** A release ends the hold it names and no other. */
  lemma ReleaseFrees(log: Log, e: Event, id: string, now: nat)
    requires WellFormed(log) && e.Key() !in log && !e.HasHold() && e.ReleasedHold() == Some(id)
    ensures ReleasesOf(With(log, e), e.Owner()) == ReleasesOf(log, e.Owner()) + {id}
    ensures ActiveHolds(With(log, e), e.Owner(), now) == set h | h in ActiveHolds(log, e.Owner(), now) && h.id != id
  {
    HoldsOfWith(log, e, e.Owner());
    ReleasesOfWith(log, e, e.Owner());
    hide HoldsOf, ReleasesOf;
    var none: set<Hold> := {};
    assert HoldsOf(log, e.Owner()) + none == HoldsOf(log, e.Owner());
  }

  /** A reservation, or a debit with a hold, that holds something for some time. */
  predicate Reserves(e: Event) {
    (e.kind == ReservationCreate || (e.kind == Standard && e.amount < 0)) && e.holdAmount > 0 && e.holdExpires > 0
  }

  // ---- The corrections of a conflict ----

  lemma VoidIsPlain(r: Replica, winner: Event, loser: Event, now: nat, id: string)
    ensures var v := VoidEvent(r, winner, loser, now, id);
      !v.HasHold() && v.ReleasedHold().None? && v.Idem() == VoidKey(loser) && VoidKey(loser) != ReleaseKey(loser)
  {
    DerivedNonceClasses(loser.id);
  }

  lemma CorrectionsFree(r: Replica, winner: Event, loser: Event, m: Mint, owner: BalanceKey, now: nat)
    requires Valid(r) && loser.bucket !in r.deleted
    requires IdFresh(r.applied, m.first) && IdFresh(r.applied, m.second) && m.first != m.second
    ensures var after := EmitCorrections(r, winner, loser, m).0.applied;
      && (owner == loser.Owner() && loser.HasHold() && ReleaseKey(loser) !in r.cache ==>
            loser.id in ReleasesOf(after, owner)
            && ActiveHolds(after, owner, now) == set h | h in ActiveHolds(r.applied, owner, now) && h.id != loser.id)
      && (!(owner == loser.Owner() && loser.HasHold() && ReleaseKey(loser) !in r.cache) ==>
            ActiveHolds(after, owner, now) == ActiveHolds(r.applied, owner, now))
  {
    hide Valid, ActiveHolds, ReleasesOf;
    var v := VoidEvent(r, winner, loser, m.now, m.first);
    VoidIsPlain(r, winner, loser, m.now, m.first);
    MintedFresh(r, v);
    ValidLog(r);
    PlainHolds(r.applied, v, owner, now);
    var r1 := Minted(r, v);
    var release := LoserReleaseEvent(r1, winner, loser, m.now, m.second);
    NextAfter(r, v, release);
    MintedFresh(r1, release);
    ValidLog(r1);
    if owner == loser.Owner() {
      ReleaseFrees(r1.applied, release, loser.id, now);
    } else {
      PlainHolds(r1.applied, release, owner, now);
    }
  }

  // ---- What clearing a deleted bucket leaves alone ----

  lemma ClearedHolds(r: Replica, e: Event, owner: BalanceKey, now: nat)
    requires Valid(r) && Accepts(r, e) && Deliverable(r, e)
    requires e.MetaTargetBucket() != Some(owner.bucket) || owner.bucket == META_BUCKET
    ensures ActiveHolds(Admit(r, e).applied, owner, now) == ActiveHolds(With(r.applied, e), owner, now)
  {
    var q := Cleared(r, e);
    AdmitValid(r, e);
    ValidLog(r);
    ValidLog(q);
    AcceptsIsNew(r, e);
    AcceptsIsNew(q, e);
    hide Valid, HoldsOf, ReleasesOf, Admit, Accepts;
    HoldsOfWith(r.applied, e, owner);
    ReleasesOfWith(r.applied, e, owner);
    HoldsOfWith(q.applied, e, owner);
    ReleasesOfWith(q.applied, e, owner);
    if e.MetaTargetBucket().Some? {
      HoldsOfDrop(r.applied, e.MetaTargetBucket().value, owner);
    }
  }

  lemma AcceptsIsNew(r: Replica, e: Event)
    requires Accepts(r, e)
    ensures e.Key() !in r.applied
  {
  }

  lemma GoneHolds(r: Replica, e: Event, owner: BalanceKey, now: nat)
    requires Valid(r) && Accepts(r, e) && Deliverable(r, e)
    requires e.MetaTargetBucket() == Some(owner.bucket) && owner.bucket != META_BUCKET
    ensures ActiveHolds(Admit(r, e).applied, owner, now) == {}
  {
    var q := Cleared(r, e);
    AdmitValid(r, e);
    ValidLog(r);
    ValidLog(q);
    AcceptsIsNew(q, e);
    hide Valid, HoldsOf, ReleasesOf, Admit, Accepts;
    HoldsOfWith(q.applied, e, owner);
    HoldsOfDrop(r.applied, owner.bucket, owner);
    var none: set<Hold> := {};
    assert HoldsOf(Admit(r, e).applied, owner) == none + none;
  }

  lemma ClearedKeys(r: Replica, e: Event, key: IdemKey)
    requires Valid(r) && Accepts(r, e) && key.bucket == e.bucket
    ensures key in Admit(r, e).cache <==> key in r.cache
    ensures key in r.cache ==> Admit(r, e).cache[key] == r.cache[key]
    ensures Matching(Admit(r, e).stored, key) == Matching(r.stored, key)
  {
    var target := e.MetaTargetBucket();
    if target.Some? && target.value != META_BUCKET {
      DroppedElsewhere(r.stored, r.applied, target.value, key);
      hide Matching, Valid;
    }
  }

  lemma DroppedElsewhere(stored: Log, applied: Log, bucket: string, key: IdemKey)
    requires WellFormed(applied) && StoredAgrees(stored, applied) && key.bucket != bucket
    ensures Matching(DropBucket(stored, bucket), key) == Matching(stored, key)
  {
    forall x | x in Matching(stored, key)
      ensures x in Matching(DropBucket(stored, bucket), key)
    {
      var k :| k in stored && stored[k].Idem() == key && stored[k] == x;
      assert applied[k].Key() == k;
      assert k in DropBucket(stored, bucket) && DropBucket(stored, bucket)[k] == x;
    }
  }

  // ---- A delivery ----

  /** The loser of a conflict whose void nobody here knows yet, and whose hold
      has not been released under its own release key. */
  ghost predicate Frees(r: Replica, e: Event, loser: Event) {
    && e.Idem() in r.cache && r.cache[e.Idem()].id != e.id
    && loser == (if Precedes(r.cache[e.Idem()], e) then e else r.cache[e.Idem()])
    && IdemKey("void:" + loser.id, loser.bucket, loser.account, -loser.amount) !in r.cache
    && Matching(r.stored, IdemKey("void:" + loser.id, loser.bucket, loser.account, -loser.amount)) == {}
    && Reserves(loser) && IdemKey("release:" + loser.id, loser.bucket, loser.account, 0) !in r.cache
  }

  /** A delivered event, as the replica can receive it. */
  ghost predicate Fits(r: Replica, e: Event, m: Mint) {
    && Valid(r) && Accepts(r, e) && Deliverable(r, e) && MintFresh(r, m) && m.first != e.id && m.second != e.id
    && (e.Idem() in r.cache ==> r.cache[e.Idem()].Idem() == e.Idem())
  }

  /** The replica with the event applied, before its conflict is resolved. */
  lemma AdmittedFits(r: Replica, e: Event, m: Mint)
    requires Fits(r, e, m)
    ensures var a := Admit(r, e);
      && Valid(a) && e.bucket !in a.deleted
      && IdFresh(a.applied, m.first) && IdFresh(a.applied, m.second) && m.first != m.second
      && (e.Idem() in a.cache ==> a.cache[e.Idem()].Idem() == e.Idem())
    ensures Valid(r) && Accepts(r, e) && Deliverable(r, e) && (e.Idem() in r.cache ==> r.cache[e.Idem()].Idem() == e.Idem())
    ensures WellFormed(r.applied) && e.Key() !in r.applied && IdFresh(r.applied, e.id)
  {
    AdmitValid(r, e);
    ClearedKeys(r, e, e.Idem());
  }

  lemma ResolvedHolds(a: Replica, e: Event, m: Mint, owner: BalanceKey, now: nat)
    requires Valid(a) && e.bucket !in a.deleted && (e.Idem() in a.cache ==> a.cache[e.Idem()].Idem() == e.Idem())
    requires IdFresh(a.applied, m.first) && IdFresh(a.applied, m.second) && m.first != m.second
    ensures var after := Resolve(a, e, m).0.applied;
      && (forall loser :: Frees(a, e, loser) && owner == loser.Owner() ==>
            && loser.id in ReleasesOf(after, owner)
            && ActiveHolds(after, owner, now) == set h | h in ActiveHolds(a.applied, owner, now) && h.id != loser.id)
      && ((forall loser :: Frees(a, e, loser) ==> owner != loser.Owner()) ==>
            ActiveHolds(after, owner, now) == ActiveHolds(a.applied, owner, now))
  {
    if e.Idem() in a.cache && a.cache[e.Idem()].id != e.id {
      var cached := a.cache[e.Idem()];
      var (winner, loser) := IdempotencyWinner(cached, e);
      PrecedesTotal(cached, e);
      var a1 := a.(cache := a.cache[e.Idem() := winner]);
      CacheFree(a, a1.cache);
      hide Valid, ActiveHolds, ReleasesOf, Matching, EmitCorrections, Precedes;
      assert a1.cache.Keys == a.cache.Keys;
      assert Frees(a, e, loser) ==
        (VoidKey(loser) !in a1.cache && Matching(a1.stored, VoidKey(loser)) == {}
         && loser.HasHold() && ReleaseKey(loser) !in a1.cache);
      CorrectionsFree(a1, winner, loser, m, owner, now);
    } else {
      hide Valid, ActiveHolds, ReleasesOf, Matching;
    }
  }

  lemma FreesAdmitted(r: Replica, e: Event, loser: Event)
    requires Valid(r) && Accepts(r, e) && (e.Idem() in r.cache ==> r.cache[e.Idem()].Idem() == e.Idem())
    ensures Frees(Admit(r, e), e, loser) <==> Frees(r, e, loser)
    ensures Frees(r, e, loser) ==> loser.Owner() == e.Owner()
  {
    hide Valid, Accepts, Matching, Admit, Precedes, Event.HasHold;
    ClearedKeys(r, e, e.Idem());
    if loser.bucket == e.bucket {
      ClearedKeys(r, e, IdemKey("void:" + loser.id, loser.bucket, loser.account, -loser.amount));
      ClearedKeys(r, e, IdemKey("release:" + loser.id, loser.bucket, loser.account, 0));
    }
  }

  lemma ReceivedIs(r: Replica, e: Event, m: Mint)
    requires Accepts(r, e)
    ensures Receive(r, e, m) == Resolve(Admit(r, e), e, m)
  {
  }

  /** A delivered duplicate frees exactly the reservation that lost, whichever
      of the two it is and whichever arrived first: no active hold has the
      loser's id any more, and every other hold of the account, the winner's
      included, is active as before, with the hold the event itself brings. */
  lemma ConflictFreesLoser(r: Replica, e: Event, m: Mint, loser: Event, now: nat)
    requires Fits(r, e, m) && Frees(r, e, loser)
    ensures var before, after, owner := r.applied, Receive(r, e, m).0.applied, loser.Owner();
      && loser.id in ReleasesOf(after, owner)
      && (forall h :: h in ActiveHolds(after, owner, now) ==> h.id != loser.id)
      && (forall h: Hold :: h.id != loser.id ==>
            (h in ActiveHolds(after, owner, now) <==> h in ActiveHolds(With(before, e), owner, now)))
      && (e.ReleasedHold().None? ==> forall h: Hold :: h.id != loser.id ==>
            (h in ActiveHolds(after, owner, now) <==>
              || h in ActiveHolds(before, owner, now)
              || (e.HasHold() && h == HoldOf(e) && e.holdExpires > now && e.id !in ReleasesOf(before, owner))))
  {
    hide *;
    var owner := loser.Owner();
    AdmittedFits(r, e, m);
    FreesAdmitted(r, e, loser);
    ReceivedIs(r, e, m);
    ResolvedHolds(Admit(r, e), e, m, owner, now);
    NotDropped(e);
    OwnBucket(e, loser);
    ClearedHolds(r, e, owner, now);
    if e.ReleasedHold().None? {
      AddedHold(r.applied, e, now);
    }
  }

  lemma OwnBucket(e: Event, f: Event)
    requires f.Owner() == e.Owner()
    ensures f.Owner().bucket == e.bucket
  {
  }

  lemma AddedHold(log: Log, e: Event, now: nat)
    requires WellFormed(log) && e.Key() !in log && IdFresh(log, e.id) && e.ReleasedHold().None?
    ensures forall h :: h in ActiveHolds(With(log, e), e.Owner(), now) <==>
      || h in ActiveHolds(log, e.Owner(), now)
      || (e.HasHold() && h == HoldOf(e) && e.holdExpires > now && e.id !in ReleasesOf(log, e.Owner()))
  {
    if e.HasHold() { HeldHolds(log, e, now); } else { PlainHolds(log, e, e.Owner(), now); }
    hide ActiveHolds, ReleasesOf, With;
  }

  lemma NotDropped(e: Event)
    ensures e.MetaTargetBucket() != Some(e.bucket) || e.bucket == META_BUCKET
  {
  }

  /** Every other delivery, and every other account, keeps its active holds, but
      for those of a bucket the event deletes and those the event itself adds
      or releases. */
  lemma NothingElseIsFreed(r: Replica, e: Event, m: Mint, owner: BalanceKey, now: nat)
    requires Fits(r, e, m)
    requires forall loser :: Frees(r, e, loser) ==> owner != loser.Owner()
    ensures ActiveHolds(Receive(r, e, m).0.applied, owner, now) ==
      if e.MetaTargetBucket() == Some(owner.bucket) && owner.bucket != "__meta__" then {}
      else ActiveHolds(With(r.applied, e), owner, now)
    ensures owner != e.Owner() && e.MetaTargetBucket() != Some(owner.bucket) ==>
      ActiveHolds(Receive(r, e, m).0.applied, owner, now) == ActiveHolds(r.applied, owner, now)
  {
    AdmittedFits(r, e, m);
    forall loser | Frees(Admit(r, e), e, loser)
      ensures owner != loser.Owner()
    {
      FreesAdmitted(r, e, loser);
    }
    ReceivedIs(r, e, m);
    ResolvedHolds(Admit(r, e), e, m, owner, now);
    ValidLog(r);
    AcceptsIsNew(r, e);
    assert "__meta__" == META_BUCKET;
    hide *;
    if e.MetaTargetBucket() == Some(owner.bucket) && owner.bucket != "__meta__" {
      GoneHolds(r, e, owner, now);
    } else {
      ClearedHolds(r, e, owner, now);
    }
    if owner != e.Owner() {
      PlainHolds(r.applied, e, owner, now);
    }
  }

  // ---- The corrections, field by field ----

  lemma CorrectionsAre(r: Replica, winner: Event, loser: Event, m: Mint)
    requires Allocator.Consistent(r.alloc)
    ensures var ((epoch, s), corrections) := (NextPair(r, loser.bucket), EmitCorrections(r, winner, loser, m).1);
      && |corrections| ==
           (if Reserves(loser) && IdemKey("release:" + loser.id, loser.bucket, loser.account, 0) !in r.cache then 2 else 1)
      && corrections[0] ==
           Event(m.first, r.cfg.nodeId, epoch, s, m.now, EventType.Void, loser.bucket, loser.account, -loser.amount,
                 Some("void: duplicate of event " + winner.id), "void:" + loser.id, Some(loser.id), 0, 0, None)
      && (|corrections| == 2 ==>
            corrections[1] ==
              Event(m.second, r.cfg.nodeId, epoch, s + 1, m.now, HoldRelease, loser.bucket, loser.account, 0,
                    Some("release hold: duplicate of event " + winner.id), "release:" + loser.id, Some(loser.id), 0, 0, None))
  {
    Allocator.AllocateAdvances(r.alloc, loser.bucket);
    VoidIsPlain(r, winner, loser, m.now, m.first);
    hide Allocator.NextPair, Allocator.AfterAllocate, Allocator.Consistent;
  }

  lemma AdmittedAlloc(r: Replica, e: Event)
    requires Valid(r)
    ensures Admit(r, e).cfg == r.cfg && NextPair(Admit(r, e), e.bucket) == NextPair(r, e.bucket)
    ensures Valid(Admit(r, e)) ==> Allocator.Consistent(Admit(r, e).alloc)
  {
    hide OwnBelowNext, WellFormed, StoredAgrees;
  }

  /** Two events of one key, of which the cache knows one and the other was just
      delivered, the void of the loser not being known. */
  ghost predicate Resolves(r: Replica, e: Event, winner: Event, loser: Event) {
    && e.Idem() in r.cache && r.cache[e.Idem()].id != e.id
    && {winner, loser} == {r.cache[e.Idem()], e} && Precedes(winner, loser)
    && IdemKey("void:" + loser.id, loser.bucket, loser.account, -loser.amount) !in r.cache
    && Matching(r.stored, IdemKey("void:" + loser.id, loser.bucket, loser.account, -loser.amount)) == {}
  }

  /** A conflict adds the void of the loser and, if the loser holds funds under a
      release key the cache does not know, the release of that hold: both on the
      loser's account, both naming the loser, with the winner in the note. */
  lemma ConflictAdds(r: Replica, e: Event, m: Mint, winner: Event, loser: Event)
    requires Fits(r, e, m) && Resolves(r, e, winner, loser)
    ensures var ((epoch, s), corrections) := (NextPair(r, loser.bucket), Receive(r, e, m).1);
      && |corrections| ==
           (if Reserves(loser) && IdemKey("release:" + loser.id, loser.bucket, loser.account, 0) !in r.cache then 2 else 1)
      && corrections[0] ==
           Event(m.first, r.cfg.nodeId, epoch, s, m.now, EventType.Void, loser.bucket, loser.account, -loser.amount,
                 Some("void: duplicate of event " + winner.id), "void:" + loser.id, Some(loser.id), 0, 0, None)
      && (|corrections| == 2 ==>
            corrections[1] ==
              Event(m.second, r.cfg.nodeId, epoch, s + 1, m.now, HoldRelease, loser.bucket, loser.account, 0,
                    Some("release hold: duplicate of event " + winner.id), "release:" + loser.id, Some(loser.id), 0, 0, None))
  {
    AdmittedFits(r, e, m);
    ReceivedIs(r, e, m);
    AdmittedAlloc(r, e);
    ResolvesBy(r, e, winner, loser);
    ClearedKeys(r, e, e.Idem());
    ClearedKeys(r, e, VoidKey(loser));
    ClearedKeys(r, e, ReleaseKey(loser));
    hide Valid, Matching, Admit, Accepts, Deliverable, Receive, EmitCorrections, IdempotencyWinner;
    var a := Admit(r, e);
    assert Resolve(a, e, m) == EmitCorrections(a.(cache := a.cache[e.Idem() := winner]), winner, loser, m);
    CorrectionsAre(a.(cache := a.cache[e.Idem() := winner]), winner, loser, m);
  }

  lemma ResolvesBy(r: Replica, e: Event, winner: Event, loser: Event)
    requires Resolves(r, e, winner, loser) && r.cache[e.Idem()].Idem() == e.Idem()
    ensures IdempotencyWinner(r.cache[e.Idem()], e) == (winner, loser) && loser.Idem() == e.Idem()
    ensures VoidKey(loser) !in r.cache && Matching(r.stored, VoidKey(loser)) == {}
  {
    var cached := r.cache[e.Idem()];
    PrecedesTotal(cached, e);
    LexTotal(cached.id, e.id);
    hide Matching, LexLess;
    assert winner in {cached, e} && loser in {cached, e} && cached in {winner, loser};
  }

  /** Nothing else that is delivered adds anything but itself. */
  lemma OnlyConflictsAdd(r: Replica, e: Event, m: Mint)
    requires Fits(r, e, m) && Receive(r, e, m).1 != []
    ensures exists winner, loser :: Resolves(r, e, winner, loser)
  {
    AdmittedFits(r, e, m);
    ReceivedIs(r, e, m);
    ClearedKeys(r, e, e.Idem());
    hide Valid, Matching, Admit, Accepts, Deliverable, Receive, EmitCorrections, LexLess;
    var a, cached := Admit(r, e), r.cache[e.Idem()];
    var (winner, loser) := IdempotencyWinner(cached, e);
    assert loser.Idem() == e.Idem();
    ClearedKeys(r, e, VoidKey(loser));
    assert {winner, loser} == {cached, e};
    assert Resolves(r, e, winner, loser);
  }
}
