/** One node's in-memory state, updated step by step. The ghost field `applied`
    is the log; `Valid` says that every cache agrees with it, and each
    operation's contract says which replica function it carries out. */
module NodeState {
  import opened Types
  import opened Sums
  import opened Ledger
  import opened ReplicaModel
  import opened Caches
  import opened Emission
  import Allocator
  import BucketAllocators
  import Storage
  import opened Rebuild

  // ---- Value-level steps of `advance_head` ----

  /** The next seq of a line arrived: the head runs over everything it joins. */
  lemma LinesJoined(log: Log, e: Event, heads: map<EpochKey, nat>, pending: map<EpochKey, set<nat>>,
                    pending': map<EpochKey, set<nat>>, h: nat)
    requires LinesOk(log, heads, pending) && e.Key() !in log
    requires e.seqNo == HeadAt(heads, e.Line()) + 1 && Drains(PendingAt(pending, e.Line()), e.seqNo, h)
    requires forall s :: s in PendingAt(pending', e.Line()) <==> s in PendingAt(pending, e.Line()) && !(e.seqNo < s <= h)
    requires forall line :: line != e.Line() ==> PendingAt(pending', line) == PendingAt(pending, line)
    ensures LinesOk(With(log, e), heads[e.Line() := h], pending')
  {
    forall line
      ensures LineOk(SeqsOf(With(log, e), line), HeadAt(heads[e.Line() := h], line), PendingAt(pending', line))
      ensures line in heads[e.Line() := h] <==> SeqsOf(With(log, e), line) != {}
    {
      SeqsOfWith(log, e, line);
      var seqs, head := SeqsOf(log, line), HeadAt(heads, line);
      assert LineOk(seqs, head, PendingAt(pending, line)) && (line in heads <==> seqs != {});
      if line == e.Line() {
        hide SeqsOf, LineOk, LinesOk, Drains, With, PendingAt;
        LineDrained(seqs, head, PendingAt(pending, line), h, PendingAt(pending', line));
      } else {
        hide SeqsOf, LineOk, LinesOk, Drains, With, PendingAt;
      }
    }
  }

  /** A seq beyond the next one waits. */
  lemma LinesPending(log: Log, e: Event, heads: map<EpochKey, nat>, pending: map<EpochKey, set<nat>>)
    requires LinesOk(log, heads, pending) && e.seqNo > HeadAt(heads, e.Line()) + 1
    ensures LinesOk(With(log, e), heads[e.Line() := HeadAt(heads, e.Line())],
                    pending[e.Line() := PendingAt(pending, e.Line()) + {e.seqNo}])
  {
    forall line
      ensures LineOk(SeqsOf(With(log, e), line), HeadAt(heads[e.Line() := HeadAt(heads, e.Line())], line),
                     PendingAt(pending[e.Line() := PendingAt(pending, e.Line()) + {e.seqNo}], line))
      ensures line in heads[e.Line() := HeadAt(heads, e.Line())] <==> SeqsOf(With(log, e), line) != {}
    {
      SeqsOfWith(log, e, line);
      var seqs, head := SeqsOf(log, line), HeadAt(heads, line);
      assert LineOk(seqs, head, PendingAt(pending, line)) && (line in heads <==> seqs != {});
      hide SeqsOf;
      if line == e.Line() {
        LinePends(seqs, head, PendingAt(pending, line), e.seqNo);
      }
    }
  }

  /** A new event lies beyond its line's head. */
  lemma NewIsBeyondHead(log: Log, e: Event, heads: map<EpochKey, nat>, pending: map<EpochKey, set<nat>>)
    requires LinesOk(log, heads, pending) && e.Key() !in log && e.seqNo >= 1
    ensures e.seqNo > HeadAt(heads, e.Line())
  {
    var line := e.Line();
    assert LineOk(SeqsOf(log, line), HeadAt(heads, line), PendingAt(pending, line));
    InSeqsOf(log, line, e.seqNo);
  }

  /** Everything a head jumps over is applied and, being beyond the old head, still buffered. */
  lemma JumpIsBuffered(log: Log, e: Event, heads: map<EpochKey, nat>, pending: map<EpochKey, set<nat>>,
                       unpersisted: map<OriginKey, nat>, buffer: Log, h: nat, s: nat)
    requires LinesOk(log, heads, pending) && BufferOk(With(log, e), heads, unpersisted, buffer)
    requires e.seqNo == HeadAt(heads, e.Line()) + 1 && Drains(PendingAt(pending, e.Line()), e.seqNo, h)
    requires e.seqNo <= s <= h
    ensures var k := OriginKey(e.Line(), s); k in buffer && k in With(log, e) && buffer[k] == With(log, e)[k]
  {
    var line := e.Line();
    assert LineOk(SeqsOf(log, line), HeadAt(heads, line), PendingAt(pending, line));
    InSeqsOf(log, line, s);
  }

  lemma JumpIsFull(log: Log, e: Event, heads: map<EpochKey, nat>, pending: map<EpochKey, set<nat>>, h: nat)
    requires LinesOk(log, heads, pending)
    requires e.seqNo == HeadAt(heads, e.Line()) + 1 && Drains(PendingAt(pending, e.Line()), e.seqNo, h)
    ensures Full(With(log, e), e.Line(), h)
  {
    var line := e.Line();
    assert LineOk(SeqsOf(log, line), HeadAt(heads, line), PendingAt(pending, line));
    forall i | 1 <= i <= h
      ensures OriginKey(line, i) in With(log, e)
    {
      InSeqsOf(log, line, i);
    }
  }

  lemma DigestsJoined(log: Log, e: Event, heads: map<EpochKey, nat>, digests: map<EpochKey, (nat, Digest)>, h: nat)
    requires DigestsOk(log, heads, digests) && e.Key() !in log && Full(With(log, e), e.Line(), h)
    ensures DigestsOk(With(log, e), heads[e.Line() := h], digests[e.Line() := (h, DigestUpTo(With(log, e), e.Line(), h))])
  {
    var heads', digests' := heads[e.Line() := h], digests[e.Line() := (h, DigestUpTo(With(log, e), e.Line(), h))];
    forall line
      ensures DigestOk(With(log, e), line, HeadAt(heads', line), line in digests', DigestAt(digests', line))
    {
      assert DigestOk(log, line, HeadAt(heads, line), line in digests, DigestAt(digests, line));
      if line != e.Line() {
        DigestOkFrame(log, With(log, e), line, HeadAt(heads, line), line in digests, DigestAt(digests, line));
      }
    }
  }

  lemma DigestsKept(log: Log, e: Event, heads: map<EpochKey, nat>, digests: map<EpochKey, (nat, Digest)>)
    requires DigestsOk(log, heads, digests) && e.Key() !in log
    ensures DigestsOk(With(log, e), heads[e.Line() := HeadAt(heads, e.Line())], digests)
  {
    var heads' := heads[e.Line() := HeadAt(heads, e.Line())];
    forall line
      ensures DigestOk(With(log, e), line, HeadAt(heads', line), line in digests, DigestAt(digests, line))
    {
      assert DigestOk(log, line, HeadAt(heads, line), line in digests, DigestAt(digests, line));
      DigestOkFrame(log, With(log, e), line, HeadAt(heads, line), line in digests, DigestAt(digests, line));
    }
  }

  /** `buffer` without the keys of a seq range that are already durable. */
  ghost predicate Pruned(buffer: Log, unpersisted: map<OriginKey, nat>, line: EpochKey, from: nat, to: int,
                         buffer': Log) {
    && (forall k :: k in buffer' <==> k in buffer && !(k.line == line && from <= k.seqNo <= to && k !in unpersisted))
    && (forall k :: k in buffer' ==> buffer'[k] == buffer[k])
  }

  /** Whatever the pruning of a jumped range leaves is right for the new head. */
  lemma BufferJoinedAll(log: Log, heads: map<EpochKey, nat>, unpersisted: map<OriginKey, nat>, buffer: Log,
                        line: EpochKey,
                        from: nat, h: nat)
    requires BufferOk(log, heads, unpersisted, buffer) && from == HeadAt(heads, line) + 1 <= h
    ensures forall buffer' :: Pruned(buffer, unpersisted, line, from, h, buffer') ==>
      BufferOk(log, heads[line := h], unpersisted, buffer')
  {
  }

  lemma BufferKept(log: Log, heads: map<EpochKey, nat>, unpersisted: map<OriginKey, nat>, buffer: Log, line: EpochKey)
    requires BufferOk(log, heads, unpersisted, buffer)
    ensures BufferOk(log, heads[line := HeadAt(heads, line)], unpersisted, buffer)
  {
  }

  lemma RecordableHead(log: Log, events: seq<Event>)
    requires Recordable(log, events) && events != []
    ensures events[0].Key() !in log && events[0].seqNo >= 1 && IdFresh(log, events[0].id)
    ensures Recordable(With(log, events[0]), events[1..])
    ensures WithAll(log, events) == WithAll(With(log, events[0]), events[1..])
  {
  }

  lemma {:induction false} TombstonesAll(log: Log, events: seq<Event>)
    requires Recordable(log, events) && forall i :: 0 <= i < |events| ==> events[i].MetaTargetBucket().None?
    ensures Tombstones(WithAll(log, events)) == Tombstones(log)
    decreases |events|
  {
    if events != [] {
      RecordableHead(log, events);
      TombstonesWith(log, events[0]);
      hide Recordable, Tombstones;
      var none: set<string> := {};
      assert Tombstones(log) + none == Tombstones(log);
      TombstonesAll(With(log, events[0]), events[1..]);
    }
  }

  lemma TotalMore(holds: set<Hold>, h: Hold)
    requires h !in holds
    ensures WrapU64(HoldTotal(holds + {h})) == WrapU64(WrapU64(HoldTotal(holds)) + h.amount)
  {
    hide WrapU64;
    SumInsert(holds, HoldAmount, h);
    WrapSteps(HoldTotal(holds), h.amount);
  }

  lemma NothingTotal()
    ensures WrapU64(HoldTotal({})) == 0
  {
  }

  /** Total amount of some of an account's reservations, in 64-bit words. */
  method ReservationTotal(state: AccountState, ids: set<string>) returns (total: nat)
    requires ids <= state.reservations.Keys
    ensures total == WrapU64(HoldTotal(set id | id in ids :: AsHold(id, state.reservations[id])))
  {
    hide WrapU64, HoldTotal;
    NothingTotal();
    total := 0;
    var left := ids;
    ghost var summed: set<Hold> := {};
    while left != {}
      invariant left <= ids
      invariant summed == set id | id in ids - left :: AsHold(id, state.reservations[id])
      invariant total == WrapU64(HoldTotal(summed))
      decreases |left|
    {
      var id :| id in left;
      ghost var h := AsHold(id, state.reservations[id]);
      TotalMore(summed, h);
      summed := summed + {h};
      total := WrapU64(total + state.reservations[id].amount);
      left := left - {id};
    }
    assert ids - left == ids;
  }

  /** `active_hold_total`. */
  method ActiveHoldTotal(state: AccountState, now: nat) returns (total: nat)
    ensures total == WrapU64(HoldTotal(state.Active(now)))
  {
    var ids := set id | id in state.reservations && state.reservations[id].expires > now && id !in state.released;
    total := ReservationTotal(state, ids);
    assert (set id | id in ids :: AsHold(id, state.reservations[id])) == state.Active(now) by {
      forall h | h in state.Active(now)
        ensures h.id in ids && AsHold(h.id, state.reservations[h.id]) == h
      {
      }
    }
  }

  /** `active_hold_total_for_origin`. */
  method ActiveHoldTotalForOrigin(state: AccountState, origin: string, now: nat, minRemaining: nat) returns (total: nat)
    ensures total == WrapU64(HoldTotal(HoldsOfOrigin(state.Active(now), origin, now, minRemaining)))
  {
    var ids := set id | id in state.reservations && state.reservations[id].expires > now && id !in state.released
      && state.reservations[id].origin == origin && SaturatingSub(state.reservations[id].expires, now) >= minRemaining;
    total := ReservationTotal(state, ids);
    assert (set id | id in ids :: AsHold(id, state.reservations[id])) == HoldsOfOrigin(state.Active(now), origin, now, minRemaining) by {
      forall h | h in HoldsOfOrigin(state.Active(now), origin, now, minRemaining)
        ensures h.id in ids && AsHold(h.id, state.reservations[h.id]) == h
      {
      }
    }
  }

  /** The widest gap between a line's head and its highest known seq. */
  method WidestGap(heads: map<EpochKey, nat>, maxKnown: map<EpochKey, nat>) returns (gap: nat)
    ensures gap == 0 <==> forall line :: line in maxKnown ==> maxKnown[line] <= HeadAt(heads, line)
    ensures forall line :: line in maxKnown ==> SaturatingSub(maxKnown[line], HeadAt(heads, line)) <= gap
    ensures gap > 0 ==> exists line :: line in maxKnown && SaturatingSub(maxKnown[line], HeadAt(heads, line)) == gap
  {
    gap := 0;
    var left := maxKnown.Keys;
    while left != {}
      invariant left <= maxKnown.Keys
      invariant forall line :: line in maxKnown.Keys - left ==> SaturatingSub(maxKnown[line], HeadAt(heads, line)) <= gap
      invariant gap > 0 ==> exists line :: line in maxKnown && SaturatingSub(maxKnown[line], HeadAt(heads, line)) == gap
      decreases |left|
    {
      var line :| line in left;
      left := left - {line};
      var lineGap := SaturatingSub(maxKnown[line], HeadAt(heads, line));
      if lineGap > gap {
        gap := lineGap;
      }
    }
  }

  /** Sweep the accounts one by one, skipping those in use. */
  method SweepAll(before: map<BalanceKey, AccountState>, busy: set<BalanceKey>,
                  now: nat) returns (accounts: map<BalanceKey, AccountState>)
    ensures accounts == SweptAccounts(before, busy, now)
  {
    hide AccountState.Swept;
    accounts := before;
    var left := before.Keys;
    while left != {}
      invariant left <= before.Keys && accounts.Keys == before.Keys
      invariant forall owner :: owner in accounts ==>
        accounts[owner] == if owner in busy || owner in left then before[owner] else before[owner].Swept(now)
      decreases |left|
    {
      var owner :| owner in left;
      if owner !in busy {
        accounts := accounts[owner := accounts[owner].Swept(now)];
      }
      left := left - {owner};
    }
  }

  /** The buffered events queued at or before a time, in no particular order. */
  method CollectQueued(queued: map<OriginKey, nat>, buffer: Log, cutoff: nat,
                       ghost log: Log) returns (found: seq<Event>)
    requires forall k :: k in queued ==> k in buffer
    requires forall k :: k in buffer ==> k in log && buffer[k] == log[k] && log[k].Key() == k
    ensures Storage.BatchOf(log, found)
    ensures forall i, j :: 0 <= i < j < |found| ==> found[i].Key() != found[j].Key()
    ensures Storage.KeySet(found) == set k | k in queued && queued[k] <= cutoff
  {
    var left := queued.Keys;
    found := [];
    assert Storage.KeySet(found) == {};
    hide Storage.KeySet;
    while left != {}
      invariant left <= queued.Keys && Storage.BatchOf(log, found)
      invariant forall i, j :: 0 <= i < j < |found| ==> found[i].Key() != found[j].Key()
      invariant Storage.KeySet(found) == set k | k in queued && queued[k] <= cutoff && k !in left
      decreases |left|
    {
      var k :| k in left;
      left := left - {k};
      if queued[k] <= cutoff && k in buffer {
        CollectMore(found, buffer[k]);
        found := found + [buffer[k]];
      }
    }
  }

  lemma CollectMore(found: seq<Event>, e: Event)
    ensures Storage.KeySet(found + [e]) == Storage.KeySet(found) + {e.Key()}
    ensures e.Key() !in Storage.KeySet(found) ==> forall i :: 0 <= i < |found| ==> found[i].Key() != e.Key()
  {
    var all := found + [e];
    assert all[|found|] == e;
    forall k | k in Storage.KeySet(found)
      ensures k in Storage.KeySet(all)
    {
      var i :| 0 <= i < |found| && found[i].Key() == k;
      assert all[i].Key() == k;
    }
    forall i | 0 <= i < |found|
      ensures found[i].Key() in Storage.KeySet(found)
    {
    }
  }

  /** `available_balance`. */
  method AvailableBalance(state: AccountState, now: nat) returns (available: int)
    ensures available == WrapI64(state.balance - HoldTotal(state.Active(now)))
  {
    hide HoldTotal, AccountState.Active, WrapI64, WrapU64;
    var held := ActiveHoldTotal(state, now);
    available := WrapI64(state.balance - WrapI64(held));
    WrapSteps(HoldTotal(state.Active(now)), 0);
    WrapSteps(state.balance, HoldTotal(state.Active(now)));
  }

  /** The overdraft floor: the limit cast to a signed word, and negated. */
  method FloorOf(maxOverdraft: nat) returns (floor: int)
    ensures floor == Floor(maxOverdraft)
  {
    hide WrapI64;
    WrapSteps(0, maxOverdraft);
    floor := WrapI64(0 - WrapI64(maxOverdraft));
  }

  /** `available + amount - hold`, left to right. */
  method Projected(available: int, amount: int, hold: nat) returns (projected: int)
    ensures projected == WrapI64(available + amount - hold)
  {
    hide WrapI64;
    var bare := WrapI64(available + amount);
    projected := WrapI64(bare - WrapI64(hold));
    WrapSteps(available + amount, 0 - WrapI64(hold));
    WrapSteps(available + amount, hold);
  }

  /** The implicit hold of a charge: the configured multiple, shrunk to the
      headroom the bare debit leaves, less what this origin already holds. */
  method ImplicitHold(cfg: Config, state: AccountState, input: Input, now: nat) returns (hold: nat)
    ensures var available := WrapI64(state.balance - HoldTotal(state.Active(now)));
      var lasting := set h | h in state.Active(now) && h.origin == cfg.nodeId && 10 * (h.expires - now) >= cfg.holdDuration;
      var multiple := Min(Abs(input.amount) * cfg.holdMultiplier, U64_MAX);
      var useful := Max(WrapI64(available + input.amount + input.maxOverdraft), 0);
      hold == if input.amount < 0 then Max(Min(multiple, useful) - WrapU64(HoldTotal(lasting)), 0) else 0
    ensures hold == SizedHold(cfg, input.amount, input.maxOverdraft, WrapI64(state.balance - HoldTotal(state.Active(now))),
                              WrapU64(HoldTotal(HoldsOfOrigin(state.Active(now), cfg.nodeId, now, RenewalWindow(cfg)))))
  {
    SizedHoldIs(cfg, input.amount, input.maxOverdraft, WrapI64(state.balance - HoldTotal(state.Active(now))),
                WrapU64(HoldTotal(HoldsOfOrigin(state.Active(now), cfg.nodeId, now, RenewalWindow(cfg)))));
    LastingHolds(cfg, state.Active(now), now);
    var rawHold := if input.amount < 0 && cfg.holdMultiplier > 0 then Min(Abs(input.amount) * cfg.holdMultiplier, U64_MAX) else 0;
    assert rawHold == RawHold(cfg, input.amount);
    hide RawHold, HoldTotal, HoldsOfOrigin, AccountState.Active, WrapI64, WrapU64;
    var renewalWindow := if cfg.holdDuration == 0 then 0 else (cfg.holdDuration + 9) / 10;
    var currentHold := ActiveHoldTotalForOrigin(state, cfg.nodeId, now, renewalWindow);
    var maxUsefulHold := rawHold;
    if input.amount < 0 {
      var available := AvailableBalance(state, now);
      var floor := FloorOf(input.maxOverdraft);
      WrapSteps(available + input.amount, 0 - floor);
      maxUsefulHold := Max(WrapI64(WrapI64(available + input.amount) - floor), 0);
    }
    hold := SaturatingSub(Min(rawHold, maxUsefulHold), currentHold);
  }

  /** The overdraft guard of a charge; credits always pass. */
  method GuardCharge(state: AccountState, input: Input, hold: nat, now: nat) returns (error: Option<CreateError>)
    ensures var available := WrapI64(state.balance - HoldTotal(state.Active(now)));
      var projected := WrapI64(available + input.amount - hold);
      error == if input.amount < 0 && projected < Floor(input.maxOverdraft)
               then Some(InsufficientFunds(state.balance, available, projected,
                                           WrapI64(available + input.amount) >= Floor(input.maxOverdraft)))
               else None
  {
    hide HoldTotal, AccountState.Active, WrapI64;
    if input.amount < 0 {
      var available := AvailableBalance(state, now);
      var projected := Projected(available, input.amount, hold);
      var floor := FloorOf(input.maxOverdraft);
      if projected < floor {
        var bareProjected := WrapI64(available + input.amount);
        return Some(InsufficientFunds(state.balance, available, projected, bareProjected >= floor));
      }
    }
    return None;
  }

  /** `min_by` creation time, then event id. */
  method Earliest(events: set<Event>) returns (least: Event)
    requires events != {} && DistinctIds(events)
    ensures IsLeast(events, least)
  {
    var left := events;
    least :| least in left;
    left := left - {least};
    while left != {}
      invariant left <= events && least in events - left
      invariant forall x :: x in events - left && x != least ==> Precedes(least, x)
      decreases |left|
    {
      var e :| e in left;
      PrecedesTotal(e, least);
      if Precedes(e, least) {
        forall x | x in events - left && x != least
          ensures Precedes(e, x)
        {
          PrecedesTransitive(e, least, x);
        }
        least := e;
      }
      left := left - {e};
    }
  }

  class SharedState {
    const cfg: Config
    const storage: Storage.Backend
    const allocators: BucketAllocators.Registry
    var accounts: map<BalanceKey, AccountState>
    var heads: map<EpochKey, nat>
    var pendingSeqs: map<EpochKey, set<nat>>
    var accountOriginEpochs: map<BalanceKey, set<EpochKey>>
    var maxKnownSeqs: map<EpochKey, nat>
    var eventBuffer: Log
    var unpersisted: map<OriginKey, nat>
    var idempotencyCache: map<IdemKey, Event>
    var digests: map<EpochKey, (nat, Digest)>
    var deletedBuckets: map<string, nat>
    var batchTx: seq<Event>
    var correctionTx: seq<Event>

    /** The events the line caches reflect, those the accounts reflect (ahead
        of them while a request is under way), and the time of the last sweep. */
    ghost var applied: Log
    ghost var booked: Log
    ghost var clock: nat

    /** The deletes this node issued since it started: they are booked to no account. */
    ghost var issued: set<Event>

    /** `new`: rebuild every cache from the results of the startup queries. */
    constructor (cfg: Config, storage: Storage.Backend, balances: map<BalanceKey, int>, seqs: map<EpochKey, seq<nat>>,
                 byTime: seq<Event>, byLine: seq<Event>, metaEvents: seq<Event>, now: nat)
      requires storage.Valid() && WellFormed(storage.events) && RowsCover(storage.events, storage.rows, cfg.nodeId)
      requires Snapshot(storage.events, balances, seqs, byTime, byLine, metaEvents)
      modifies storage`rows
      ensures Valid() <==> Restorable(storage.events)
      ensures Agreeing() && applied == booked == storage.events == old(storage.events)
      ensures Durable(applied, storage.events, unpersisted)
      ensures AccountsOk(applied, accounts, clock, issued) && issued == {}
      ensures clock == now && this.storage == storage && storage.Valid() && fresh(allocators)
      ensures allocators.storage == storage
      ensures View() == Restarted(cfg, storage.events, old(storage.rows), idempotencyCache)
      ensures CachesNewest(idempotencyCache, CacheWindow(byTime)) && Keyed(idempotencyCache)
      ensures unpersisted == map[] && batchTx == [] && correctionTx == []
    {
      hide Snapshot, CachesAgree, AccountsOk, CachesNewest, Restorable, RowsCover, ReplicaModel.Valid,
           Storage.Indexes, Tombstones, MetaTargets, Keyed, Durable, WellFormed;
      ghost var log := storage.events;
      NothingQueued(log);
      var found := RebuildAll(balances, seqs, byTime, byLine, metaEvents, now, log);
      var registry := new BucketAllocators.Registry(storage);
      registry.LoadFromStorage();
      this.cfg := cfg;
      this.storage := storage;
      allocators := registry;
      accounts, heads, pendingSeqs, maxKnownSeqs := found.accounts, found.heads, found.pending, found.maxKnown;
      accountOriginEpochs, eventBuffer, unpersisted, idempotencyCache := found.origins, found.buffer, map[], found.cache;
      digests, deletedBuckets, batchTx, correctionTx := found.digests, found.deleted, [], [];
      applied, booked, clock, issued := log, log, now, {};
      new;
      RestartedValidIff(cfg, log, old(storage.rows), found.cache);
    }

    ghost function View(): Replica
      reads this, storage, allocators
    {
      Replica(cfg, applied, idempotencyCache, deletedBuckets.Keys, storage.events,
              Allocator.AllocState(allocators.counters, storage.rows))
    }

    /** The line caches agree with the log. */
    ghost predicate Agreeing()
      reads this
    {
      CachesAgree(applied, heads, pendingSeqs, maxKnownSeqs, accountOriginEpochs, digests, unpersisted, eventBuffer)
    }

    /** All caches agree with the log, given what the buffer should hold. */
    ghost predicate Sound(buffer: Log)
      reads this, storage, allocators
    {
      && allocators.storage == storage && storage.Valid()
      && ReplicaModel.Valid(View())
      && CachesAgree(applied, heads, pendingSeqs, maxKnownSeqs, accountOriginEpochs, digests, unpersisted, buffer)
      && booked == applied && AccountsOk(applied, accounts, clock, issued)
      && Durable(applied, storage.events, unpersisted)
      && Keyed(idempotencyCache)
    }

    ghost predicate Valid()
      reads this, storage, allocators
    {
      Sound(eventBuffer) && deletedBuckets.Keys == Tombstones(applied)
    }

    // ---- Heads, digests and the buffer ----

    /** `drain_pending`: run the head over the pending seqs it reaches, taking them out. */
    method DrainPending(line: EpochKey, currentHead: nat) returns (head: nat)
      modifies this`pendingSeqs
      ensures Drains(PendingAt(old(pendingSeqs), line), currentHead, head)
      ensures forall s :: s in PendingAt(pendingSeqs, line) <==>
        s in PendingAt(old(pendingSeqs), line) && !(currentHead < s <= head)
      ensures forall other :: other != line ==> PendingAt(pendingSeqs, other) == PendingAt(old(pendingSeqs), other)
    {
      head := currentHead;
      if line in pendingSeqs {
        while head + 1 in pendingSeqs[line]
          invariant currentHead <= head && line in pendingSeqs
          invariant forall s :: currentHead < s <= head ==> s in PendingAt(old(pendingSeqs), line)
          invariant forall s :: s in PendingAt(pendingSeqs, line) <==>
            s in PendingAt(old(pendingSeqs), line) && !(currentHead < s <= head)
          invariant forall other :: other != line ==> PendingAt(pendingSeqs, other) == PendingAt(old(pendingSeqs), other)
          decreases |PendingAt(pendingSeqs, line)|
        {
          pendingSeqs := pendingSeqs[line := pendingSeqs[line] - {head + 1}];
          head := head + 1;
        }
      }
    }

    /** `update_digest`: fold the newly contiguous events into the rolling
        digest. A seq missing from the buffer would be skipped silently;
        callers show that none is. */
    method UpdateDigest(line: EpochKey, oldHead: nat, newHead: nat, ghost log: Log)
      requires oldHead <= newHead && Full(log, line, newHead)
      requires DigestOk(log, line, oldHead, line in digests, DigestAt(digests, line))
      requires forall s :: oldHead < s <= newHead ==>
        OriginKey(line, s) in eventBuffer && eventBuffer[OriginKey(line, s)] == log[OriginKey(line, s)]
      modifies this`digests
      ensures digests == old(digests)[line := (newHead, DigestUpTo(log, line, newHead))]
    {
      hide CanonicalOf;
      var current := DigestAt(digests, line).1;
      for s := oldHead to newHead
        invariant digests == old(digests)
        invariant current == DigestUpTo(log, line, s)
      {
        var key := OriginKey(line, s + 1);
        if key in eventBuffer {
          current := Chain(current, CanonicalOf(eventBuffer[key]));
        }
      }
      digests := digests[line := (newHead, current)];
    }

    /** `prune_persisted_buffer_range`. */
    method PrunePersistedBufferRange(line: EpochKey, from: nat, to: nat)
      modifies this`eventBuffer
      ensures Pruned(old(eventBuffer), unpersisted, line, from, to, eventBuffer)
    {
      if from > to { return; }
      for s := from to to + 1
        invariant s >= from && Pruned(old(eventBuffer), unpersisted, line, from, s - 1, eventBuffer)
      {
        var key := OriginKey(line, s);
        if key !in unpersisted {
          eventBuffer := eventBuffer - {key};
        }
      }
    }

    /** `advance_head`, for the event that was just applied. */
    method AdvanceHead(line: EpochKey, seqNo: nat, ghost e: Event)
      requires e.Line() == line && e.seqNo == seqNo && seqNo >= 1 && e.Key() !in applied
      requires LinesOk(applied, heads, pendingSeqs) && DigestsOk(applied, heads, digests)
      requires BufferOk(With(applied, e), heads, unpersisted, eventBuffer)
      modifies this`heads, this`pendingSeqs, this`digests, this`eventBuffer
      ensures LinesOk(With(applied, e), heads, pendingSeqs) && DigestsOk(With(applied, e), heads, digests)
      ensures BufferOk(With(applied, e), heads, unpersisted, eventBuffer)
    {
      hide LinesOk, DigestsOk, BufferOk, With;
      var current := HeadAt(heads, line);
      NewIsBeyondHead(applied, e, heads, pendingSeqs);
      if seqNo == current + 1 {
        JoinHead(line, current, e);
      } else {
        LinesPending(applied, e, heads, pendingSeqs);
        DigestsKept(applied, e, heads, digests);
        BufferKept(With(applied, e), heads, unpersisted, eventBuffer, line);
        pendingSeqs := pendingSeqs[line := PendingAt(pendingSeqs, line) + {seqNo}];
        heads := heads[line := current];
      }
    }

    /** The next seq arrived: drain, fold, publish the head, prune. */
    method JoinHead(line: EpochKey, current: nat, ghost e: Event)
      requires e.Line() == line && e.seqNo == current + 1 && current == HeadAt(heads, line) && e.Key() !in applied
      requires LinesOk(applied, heads, pendingSeqs) && DigestsOk(applied, heads, digests)
      requires BufferOk(With(applied, e), heads, unpersisted, eventBuffer)
      modifies this`heads, this`pendingSeqs, this`digests, this`eventBuffer
      ensures LinesOk(With(applied, e), heads, pendingSeqs) && DigestsOk(With(applied, e), heads, digests)
      ensures BufferOk(With(applied, e), heads, unpersisted, eventBuffer)
    {
      hide LinesOk, DigestsOk, BufferOk, Full, With, DigestOk, DigestUpTo, Pruned, Drains;
      var newHead := DrainPending(line, current + 1);
      DrainedFacts(e, old(pendingSeqs), newHead);
      LinesJoined(applied, e, heads, old(pendingSeqs), pendingSeqs, newHead);
      DigestBefore(e);
      DigestsJoined(applied, e, heads, digests, newHead);
      UpdateDigest(line, current, newHead, With(applied, e));
      BufferJoinedAll(With(applied, e), heads, unpersisted, eventBuffer, line, current + 1, newHead);
      heads := heads[line := newHead];
      PrunePersistedBufferRange(line, current + 1, newHead);
    }

    /** What a drain from a new event reached is applied and buffered. */
    lemma DrainedFacts(e: Event, pending: map<EpochKey, set<nat>>, newHead: nat)
      requires LinesOk(applied, heads, pending) && BufferOk(With(applied, e), heads, unpersisted, eventBuffer)
      requires e.seqNo == HeadAt(heads, e.Line()) + 1 && Drains(PendingAt(pending, e.Line()), e.seqNo, newHead)
      ensures Full(With(applied, e), e.Line(), newHead) && newHead > HeadAt(heads, e.Line())
      ensures forall s :: HeadAt(heads, e.Line()) < s <= newHead ==>
        OriginKey(e.Line(), s) in eventBuffer && OriginKey(e.Line(), s) in With(applied, e)
        && eventBuffer[OriginKey(e.Line(), s)] == With(applied, e)[OriginKey(e.Line(), s)]
    {
      hide LinesOk, BufferOk, With;
      JumpIsFull(applied, e, heads, pending, newHead);
      forall s | HeadAt(heads, e.Line()) < s <= newHead
        ensures OriginKey(e.Line(), s) in eventBuffer && OriginKey(e.Line(), s) in With(applied, e)
        ensures eventBuffer[OriginKey(e.Line(), s)] == With(applied, e)[OriginKey(e.Line(), s)]
      {
        JumpIsBuffered(applied, e, heads, pending, unpersisted, eventBuffer, newHead, s);
      }
    }

    lemma DigestBefore(e: Event)
      requires DigestsOk(applied, heads, digests) && e.Key() !in applied
      ensures DigestOk(With(applied, e), e.Line(), HeadAt(heads, e.Line()), e.Line() in digests, DigestAt(digests, e.Line()))
    {
      var line := e.Line();
      assert DigestOk(applied, line, HeadAt(heads, line), line in digests, DigestAt(digests, line));
      DigestOkFrame(applied, With(applied, e), line, HeadAt(heads, line), line in digests, DigestAt(digests, line));
    }

    /** `update_origin_tracking`. */
    method UpdateOriginTracking(e: Event)
      modifies this`accountOriginEpochs, this`maxKnownSeqs
      ensures accountOriginEpochs == old(accountOriginEpochs)[e.Owner() := OriginsAt(old(accountOriginEpochs), e.Owner()) + {e.Line()}]
      ensures maxKnownSeqs == MaxKnownWith(old(maxKnownSeqs), e)
    {
      accountOriginEpochs := accountOriginEpochs[e.Owner() := OriginsAt(accountOriginEpochs, e.Owner()) + {e.Line()}];
      if e.Line() in maxKnownSeqs {
        if e.seqNo > maxKnownSeqs[e.Line()] {
          maxKnownSeqs := maxKnownSeqs[e.Line() := e.seqNo];
        }
      } else {
        maxKnownSeqs := maxKnownSeqs[e.Line() := e.seqNo];
      }
    }

    /** The steps every applied event goes through once it is buffered and
        queued: the head, its digest, and origin tracking. */
    method AdvanceCaches(e: Event)
      requires e.seqNo >= 1 && e.Key() !in applied
      requires LinesOk(applied, heads, pendingSeqs) && DigestsOk(applied, heads, digests)
      requires MaxKnownOk(applied, maxKnownSeqs) && OriginsOk(applied, accountOriginEpochs)
      requires BufferOk(With(applied, e), heads, unpersisted, eventBuffer)
      modifies this`heads, this`pendingSeqs, this`digests, this`eventBuffer
      modifies this`accountOriginEpochs, this`maxKnownSeqs, this`applied
      ensures Agreeing() && applied == With(old(applied), e)
    {
      hide LinesOk, DigestsOk, BufferOk, MaxKnownOk, OriginsOk, With;
      AdvanceHead(e.Line(), e.seqNo, e);
      MaxKnownGrows(applied, maxKnownSeqs, e);
      OriginsGrow(applied, accountOriginEpochs, e);
      UpdateOriginTracking(e);
      applied := With(applied, e);
    }

    /** `store_event_buffer`. */
    method StoreEventBuffer(e: Event)
      modifies this`eventBuffer, this`unpersisted
      ensures eventBuffer == old(eventBuffer)[e.Key() := e]
      ensures unpersisted == old(unpersisted)[e.Key() := e.createdAt]
    {
      eventBuffer := eventBuffer[e.Key() := e];
      unpersisted := unpersisted[e.Key() := e.createdAt];
    }

    /** `record_new_local_event`. */
    method RecordNewLocalEvent(e: Event)
      requires Agreeing() && e.seqNo >= 1 && e.Key() !in applied
      requires Durable(applied, storage.events, unpersisted)
      modifies this`heads, this`pendingSeqs, this`digests, this`eventBuffer, this`unpersisted
      modifies this`accountOriginEpochs, this`maxKnownSeqs, this`applied, this`batchTx
      ensures Agreeing() && applied == With(old(applied), e) && batchTx == old(batchTx) + [e]
      ensures Durable(applied, storage.events, unpersisted)
    {
      hide LinesOk, DigestsOk, BufferOk, MaxKnownOk, OriginsOk;
      BufferGrows(applied, heads, unpersisted, eventBuffer, e);
      StoreEventBuffer(e);
      AdvanceCaches(e);
      batchTx := batchTx + [e];
    }

    /** `flush_local_events`. */
    method FlushLocalEvents(events: seq<Event>)
      requires Agreeing() && Recordable(applied, events)
      requires Durable(applied, storage.events, unpersisted)
      modifies this`heads, this`pendingSeqs, this`digests, this`eventBuffer, this`unpersisted
      modifies this`accountOriginEpochs, this`maxKnownSeqs, this`applied, this`batchTx
      ensures Agreeing() && applied == WithAll(old(applied), events) && batchTx == old(batchTx) + events
      ensures Durable(applied, storage.events, unpersisted)
    {
      hide CachesAgree, Recordable, Durable, With;
      for i := 0 to |events|
        invariant Agreeing() && Durable(applied, storage.events, unpersisted)
        invariant WithAll(applied, events[i..]) == WithAll(old(applied), events)
        invariant Recordable(applied, events[i..])
        invariant batchTx == old(batchTx) + events[..i]
      {
        RecordableHead(applied, events[i..]);
        assert events[i..][1..] == events[i + 1..];
        assert events[..i + 1] == events[..i] + [events[i]];
        RecordNewLocalEvent(events[i]);
      }
      assert events[..|events|] == events;
      assert events[|events|..] == [];
    }

    // ---- Accounts ----

    /** One more event on its account. */
    method BookEvent(e: Event)
      requires WellFormed(booked) && AccountsOk(booked, accounts, clock, issued) && e.Key() !in booked
      requires IdFresh(booked, e.id)
      modifies this`accounts, this`booked
      ensures booked == With(old(booked), e) && AccountsOk(booked, accounts, clock, issued)
    {
      hide AccountsOk;
      AccountsBooked(booked, accounts, e, clock, issued);
      var state := AccountAt(accounts, e.Owner());
      accounts := accounts[e.Owner() := state.Booked(e)];
      booked := With(booked, e);
    }

    /** While a request is under way: everything but the allocator is as in
        `r`, except that the line caches still wait for the events minted so far. */
    ghost predicate Ahead(r: Replica)
      reads this, storage, allocators
    {
      && allocators.storage == storage && storage.Valid()
      && r == View().(applied := booked, alloc := r.alloc)
      && ReplicaModel.Valid(r)
      && Agreeing() && WellFormed(applied) && AccountsOk(booked, accounts, clock, issued)
      && Durable(applied, storage.events, unpersisted)
      && deletedBuckets.Keys == Tombstones(applied)
      && Keyed(idempotencyCache)
    }

    /** Book and cache the event that takes the next pair of its line. */
    method EmitEvent(e: Event, ghost r: Replica)
      requires Ahead(r) && MintsNext(r, e)
      modifies this`accounts, this`booked, this`idempotencyCache
      ensures Ahead(Minted(r, e)) && View().alloc == old(View()).alloc
    {
      hide Ahead, ReplicaModel.Valid, CachesAgree, AccountsOk, MintsNext, Durable, Tombstones, With, IdFresh, Minted,
           Storage.Indexes, Keyed;
      AheadParts(r);
      AheadAlloc(r);
      AheadWellFormed(r);
      MintedFresh(r, e);
      KeyedWith(idempotencyCache, e);
      BookEvent(e);
      idempotencyCache := idempotencyCache[e.Idem() := e];
      AheadAgain(r, e);
    }

    lemma AheadParts(r: Replica)
      requires Ahead(r)
      ensures allocators.storage == storage && storage.Valid() && Keyed(idempotencyCache) && WellFormed(applied)
      ensures Agreeing() && AccountsOk(booked, accounts, clock, issued)
      ensures Durable(applied, storage.events, unpersisted) && deletedBuckets.Keys == Tombstones(applied)
      ensures r == View().(applied := booked, alloc := r.alloc)
    {
    }

    lemma AheadAgain(r: Replica, e: Event)
      requires allocators.storage == storage && storage.Valid() && Keyed(idempotencyCache) && WellFormed(applied)
      requires Agreeing() && AccountsOk(booked, accounts, clock, issued)
      requires Durable(applied, storage.events, unpersisted) && deletedBuckets.Keys == Tombstones(applied)
      requires ReplicaModel.Valid(Minted(r, e)) && booked == With(r.applied, e)
      requires idempotencyCache == r.cache[e.Idem() := e] && cfg == r.cfg && storage.events == r.stored
      requires deletedBuckets.Keys == r.deleted
      ensures Ahead(Minted(r, e))
    {
    }

    lemma AheadWellFormed(r: Replica)
      requires Ahead(r)
      ensures WellFormed(booked)
    {
    }

    /** Record what a request minted; the node is then valid again, as the replica `r`. */
    method Finish(events: seq<Event>, ghost r: Replica)
      requires Ahead(r) && View().alloc == r.alloc
      requires Recordable(applied, events) && booked == WithAll(applied, events)
      requires forall i :: 0 <= i < |events| ==> events[i].MetaTargetBucket().None?
      modifies this`heads, this`pendingSeqs, this`digests, this`eventBuffer, this`unpersisted
      modifies this`accountOriginEpochs, this`maxKnownSeqs, this`applied, this`batchTx
      ensures Valid() && View() == r && batchTx == old(batchTx) + events
    {
      hide ReplicaModel.Valid, CachesAgree, AccountsOk, Recordable, Durable, Tombstones, WithAll;
      TombstonesAll(applied, events);
      FlushLocalEvents(events);
    }

    lemma AtRest()
      requires Valid()
      ensures Ahead(View()) && ReplicaModel.Valid(View()) && WellFormed(applied) && booked == applied == View().applied
    {
    }

    // ---- Local requests ----

    static lemma AvailableIs(log: Log, owner: BalanceKey, now: nat)
      ensures HeldTotal(log, owner, now) == HoldTotal(ActiveHolds(log, owner, now))
      ensures Available(log, owner, now) == WrapI64(Balance(log, owner) - HeldTotal(log, owner, now))
    {
    }

    static lemma AvailableSeen(log: Log, owner: BalanceKey, a: AccountState, clock: nat, now: nat, issued: set<Event>)
      requires WellFormed(log) && AccountOk(log, owner, a, clock, issued) && clock <= now
      ensures a.balance == WrapI64(Balance(log, owner)) && a.Active(now) == ActiveHolds(log, owner, now)
      ensures WrapI64(a.balance - HoldTotal(a.Active(now))) == Available(log, owner, now)
    {
      hide *;
      BalanceSeen(log, owner, a, clock, issued);
      ActiveAgrees(log, owner, a, clock, now, issued);
      WrapSteps(Balance(log, owner), HeldTotal(log, owner, now));
      AvailableIs(log, owner, now);
    }

    /** What the source's cache lookups see of the account. */
    lemma AccountSeen(owner: BalanceKey, now: nat)
      requires Valid() && clock <= now
      ensures var a := AccountAt(accounts, owner);
        && a.balance == WrapI64(Balance(applied, owner))
        && a.Active(now) == ActiveHolds(applied, owner, now)
        && WrapI64(a.balance - HoldTotal(a.Active(now))) == Available(applied, owner, now)
    {
      hide *;
      AtRest();
      AccountIsOk(owner);
      AvailableSeen(applied, owner, AccountAt(accounts, owner), clock, now, issued);
    }

    /** Size and expiry of the hold a charge takes. */
    method ChargeHoldFor(state: AccountState, input: Input, holdOverride: Option<(nat, nat)>,
                         now: nat) returns (hold: nat, expires: nat)
      requires Valid() && clock <= now && state == AccountAt(accounts, input.Owner())
      ensures (hold, expires) == ChargeHold(View(), input, holdOverride, now)
    {
      hide Valid, AccountAt, Available, AccountState.Active, HoldTotal, SizedHold, WrapI64, WrapU64;
      if holdOverride.Some? {
        return holdOverride.value.0, holdOverride.value.1;
      }
      AccountSeen(input.Owner(), now);
      hold := ImplicitHold(cfg, state, input, now);
      expires := if hold > 0 then now + cfg.holdDuration else 0;
    }

    /** `allocate_or_fail`, the storage behind it answering. */
    method AllocateNext(bucket: string, ghost r: Replica) returns (pair: Allocator.Pair)
      requires Ahead(r) && Allocator.Consistent(View().alloc)
      modifies allocators, storage`rows
      ensures Ahead(r) && Allocator.Consistent(View().alloc)
      ensures pair == Allocator.NextPair(old(View()).alloc, bucket)
      ensures View().alloc == Allocator.AfterAllocate(old(View()).alloc, bucket)
    {
      hide ReplicaModel.Valid, CachesAgree, AccountsOk, Durable, Tombstones, Allocator.Consistent,
           Allocator.AfterAllocate, Allocator.NextPair;
      var got := allocators.Allocate(bucket, Allocator.Done);
      pair := got.value;
    }

    lemma AheadAlloc(r: Replica)
      requires Ahead(r)
      ensures Allocator.Consistent(r.alloc) && ReplicaModel.Valid(r) && r.cfg == cfg && booked == r.applied
    {
    }

    /** The charge of a request and, for a transfer, the credit of the other
        account, unless its amount overflows: then only the charge is emitted. */
    method EmitTransferLocked(input: Input, before: seq<Event>, m: Mint, ghost r: Replica) returns (ok: bool,
                              charge: Event, emitted: seq<Event>)
      requires Ahead(r) && View().alloc == r.alloc && input.bucket !in r.deleted
      requires IdFresh(r.applied, m.second) && IdFresh(r.applied, m.third) && m.second != m.third
      modifies this`accounts, this`booked, this`idempotencyCache, allocators, storage`rows
      ensures ok <==> !Overflows(input)
      ensures ok ==> EmitTransfer(r, input, before, m).1 == Created(charge, emitted)
      ensures var r' := if ok then EmitTransfer(r, input, before, m).0 else Minted(r, ChargeEvent(r, input, m.now, m.second));
        Ahead(r') && View().alloc == r'.alloc
    {
      ok := true;
      hide Ahead, Minted, Allocator.AfterAllocate, Allocator.Consistent, Allocator.NextPair;
      AheadAlloc(r);
      var chargePair := AllocateNext(input.bucket, r);
      charge := Event(m.second, cfg.nodeId, chargePair.0, chargePair.1, m.now, Standard, input.bucket, input.account,
                      input.amount, input.note, input.nonce, None, 0, 0, input.transferTo);
      assert charge == ChargeEvent(r, input, m.now, m.second);
      EmitEvent(charge, r);
      emitted := before + [charge];
      ghost var r1 := Minted(r, charge);
      MintedParts(r, charge);
      if input.transferTo.Some? {
        if Abs(input.amount) > I64_MAX {
          ok := false;
          return;
        }
        AheadAlloc(r1);
        var creditPair := AllocateNext(input.bucket, r1);
        var credit := Event(m.third, cfg.nodeId, creditPair.0, creditPair.1, m.now, Standard, input.bucket, input.transferTo.value,
                            Abs(input.amount), input.note, CreditNonce(input.nonce), None, 0, 0, None);
        assert credit == CreditEvent(r1, input, input.transferTo.value, m.now, m.third);
        NextAfter(r, charge, credit);
        EmitEvent(credit, r1);
        MintedParts(r1, credit);
        emitted := before + [charge, credit];
      }
    }

    static lemma MintedParts(r: Replica, e: Event)
      ensures Minted(r, e).alloc == Allocator.AfterAllocate(r.alloc, e.bucket) && Minted(r, e).deleted == r.deleted
      ensures Minted(r, e).cfg == r.cfg
    {
    }

    /** The replica after the optional hold of a charge, and the hold. */
    static function AfterHold(v: Replica, input: Input, hold: nat, expires: nat, m: Mint): (Replica, seq<Event>) {
      var e := ReservationEvent(v, input, hold, expires, m.now, m.first);
      if hold > 0 then (Minted(v, e), [e]) else (v, [])
    }

    /** The optional hold of a charge, on a pair of its own. */
    method EmitReservation(input: Input, hold: nat, expires: nat, m: Mint,
                           ghost v: Replica) returns (emitted: seq<Event>)
      requires Ahead(v) && View().alloc == v.alloc && MintFresh(v, m) && input.bucket !in v.deleted
      modifies this`accounts, this`booked, this`idempotencyCache, allocators, storage`rows
      ensures emitted == AfterHold(v, input, hold, expires, m).1
      ensures forall i :: 0 <= i < |emitted| ==> emitted[i].MetaTargetBucket().None?
      ensures var r := AfterHold(v, input, hold, expires, m).0;
        && Ahead(r) && View().alloc == r.alloc && r.deleted == v.deleted
        && IdFresh(r.applied, m.second) && IdFresh(r.applied, m.third)
    {
      hide Ahead, Minted, Allocator.AfterAllocate, Allocator.Consistent, Allocator.NextPair, ReplicaModel.Valid,
           IdFresh;
      AheadAlloc(v);
      if hold == 0 {
        return [];
      }
      var pair := AllocateNext(input.bucket, v);
      var reservation := Event(m.first, cfg.nodeId, pair.0, pair.1, m.now, ReservationCreate, input.bucket, input.account,
                               0, None, ReserveNonce(input.nonce), None, hold, expires, None);
      assert reservation == ReservationEvent(v, input, hold, expires, m.now, m.first);
      EmitEvent(reservation, v);
      MintedParts(v, reservation);
      NextAfter(v, reservation, reservation.(id := m.second));
      NextAfter(v, reservation, reservation.(id := m.third));
      AheadAlloc(Minted(v, reservation));
      emitted := [reservation];
    }

    static lemma HeldChargeParts(v: Replica, input: Input, hold: nat, expires: nat, m: Mint)
      ensures LATE_REFUSAL.Failed?
      ensures var (r, emitted) := AfterHold(v, input, hold, expires, m);
        && HeldCharge(v, input, hold, expires, m) ==
             (if Overflows(input) then (DebitBooked(v, input, hold, expires, m).(applied := v.applied), LATE_REFUSAL)
              else EmitTransfer(r, input, emitted, m))
        && DebitBooked(v, input, hold, expires, m) == Minted(r, ChargeEvent(r, input, m.now, m.second))
    {
    }

    /** The part of `emit_charge_locked` after the overdraft guard. */
    method EmitHeldCharge(input: Input, hold: nat, expires: nat, m: Mint,
                          ghost v: Replica) returns (result: CreateResult)
      requires v == View() && Valid() && MintFresh(v, m) && input.bucket !in v.deleted
      modifies this, allocators, storage`rows
      ensures (View(), result) == HeldCharge(v, input, hold, expires, m)
      ensures if result == LATE_REFUSAL then Stranded(v, input) else Valid() && result.Created?
      ensures batchTx == old(batchTx) + (if result.Created? then result.emitted else [])
      ensures clock == old(clock) && issued == old(issued) && correctionTx == old(correctionTx)
    {
      hide *;
      FreshPair(v, m);
      AtRest();
      HeldChargeEmits(v, input, hold, expires, m);
      HeldChargeParts(v, input, hold, expires, m);
      ghost var r := AfterHold(v, input, hold, expires, m).0;
      var emitted := EmitReservation(input, hold, expires, m, v);
      var ok, charge, all := EmitTransferLocked(input, emitted, m, r);
      if !ok {
        IsStranded(v, input, hold, expires, m);
        return LATE_REFUSAL;
      }
      TransferEventsPlain(r, input, emitted, m);
      AheadAlloc(EmitTransfer(r, input, emitted, m).0);
      Finish(all, EmitTransfer(r, input, emitted, m).0);
      result := Created(charge, all);
    }

    /** After a late refusal: the log and the caches of lines are as they were,
        but the account is off them by the amount. */
    ghost predicate Stranded(before: Replica, input: Input)
      reads this, storage, allocators
    {
      && View().(alloc := before.alloc, cache := before.cache) == before
      && Agreeing() && Durable(applied, storage.events, unpersisted) && deletedBuckets.Keys == Tombstones(applied)
      && AccountsOk(booked, accounts, clock, issued)
      && Balance(booked, input.Owner()) == Balance(applied, input.Owner()) + input.amount
    }

    lemma IsStranded(v: Replica, input: Input, hold: nat, expires: nat, m: Mint)
      requires ReplicaModel.Valid(v) && MintFresh(v, m) && input.bucket !in v.deleted
      requires Ahead(DebitBooked(v, input, hold, expires, m)) && View().alloc == DebitBooked(v, input, hold, expires, m).alloc
      requires applied == v.applied
      ensures Stranded(v, input) && View() == DebitBooked(v, input, hold, expires, m).(applied := v.applied)
    {
      hide Ahead, ReplicaModel.Valid, Agreeing, Durable, Tombstones, AccountsOk, Balance, MintFresh;
      AheadParts(DebitBooked(v, input, hold, expires, m));
      DebitShows(v, input, hold, expires, m);
      hide DebitBooked;
    }

    static lemma DebitShows(v: Replica, input: Input, hold: nat, expires: nat, m: Mint)
      requires ReplicaModel.Valid(v) && MintFresh(v, m) && input.bucket !in v.deleted
      ensures var r' := DebitBooked(v, input, hold, expires, m);
        && Balance(r'.applied, input.Owner()) == Balance(v.applied, input.Owner()) + input.amount
        && r'.stored == v.stored && r'.deleted == v.deleted && r'.cfg == v.cfg
    {
      hide Balance;
      var r0 := v;
      if hold > 0 {
        var reservation := ReservationEvent(v, input, hold, expires, m.now, m.first);
        MintedFresh(v, reservation);
        NextAfter(v, reservation, reservation.(id := m.second));
        BalanceWith(v.applied, reservation, input.Owner());
        r0 := Minted(v, reservation);
      }
      var charge := ChargeEvent(r0, input, m.now, m.second);
      MintedFresh(r0, charge);
      BalanceWith(r0.applied, charge, input.Owner());
    }

    /** Such an account is wrong: its balance is not that of the log. */
    lemma StrandedIsWrong(before: Replica, input: Input)
      requires Stranded(before, input) && input.amount == -TWO63
      ensures AccountAt(accounts, input.Owner()).balance == WrapI64(Balance(applied, input.Owner()) - TWO63)
      ensures AccountAt(accounts, input.Owner()).balance != WrapI64(Balance(applied, input.Owner()))
      ensures !Valid()
    {
      hide *;
      StrandedAccount(before, input);
      BalanceSeen(booked, input.Owner(), AccountAt(accounts, input.Owner()), clock, issued);
      HalfRangeOff(Balance(applied, input.Owner()));
      if Valid() {
        AccountIsOk(input.Owner());
        BalanceSeen(applied, input.Owner(), AccountAt(accounts, input.Owner()), clock, issued);
      }
    }

    lemma StrandedAccount(before: Replica, input: Input)
      requires Stranded(before, input)
      ensures AccountOk(booked, input.Owner(), AccountAt(accounts, input.Owner()), clock, issued)
      ensures Balance(booked, input.Owner()) == Balance(applied, input.Owner()) + input.amount
    {
      hide Agreeing, Tombstones, Durable, AccountOk, Balance;
    }

    /** `emit_charge_locked`. */
    method EmitChargeLocked(input: Input, holdOverride: Option<(nat, nat)>, m: Mint) returns (result: CreateResult)
      requires Valid() && MintFresh(View(), m) && clock <= m.now && input.bucket !in deletedBuckets
      modifies this, allocators, storage`rows
      ensures (View(), result) == EmitCharge(old(View()), input, holdOverride, m)
      ensures if result == LATE_REFUSAL then Stranded(old(View()), input) else Valid()
      ensures batchTx == old(batchTx) + (if result.Created? then result.emitted else [])
      ensures clock == old(clock) && issued == old(issued) && correctionTx == old(correctionTx)
    {
      hide Valid, ChargeHold, Available, Balance, EmitTransfer, AccountAt, AccountState.Active, ActiveHolds,
           HoldTotal, Minted, MintFresh, WrapI64, WrapU64, Stranded;
      var state := AccountAt(accounts, input.Owner());
      AccountSeen(input.Owner(), m.now);
      var hold, expires := ChargeHoldFor(state, input, holdOverride, m.now);
      var error := GuardCharge(state, input, hold, m.now);
      if error.Some? {
        result := Failed(error.value);
      } else {
        result := EmitHeldCharge(input, hold, expires, m, View());
      }
    }

    lemma TransferEventsPlain(r: Replica, input: Input, before: seq<Event>, m: Mint)
      requires forall i :: 0 <= i < |before| ==> before[i].MetaTargetBucket().None?
      ensures EmitTransfer(r, input, before, m).1.Created?
      ensures forall i :: 0 <= i < |EmitTransfer(r, input, before, m).1.emitted| ==>
        EmitTransfer(r, input, before, m).1.emitted[i].MetaTargetBucket().None?
    {
    }

    /** `emit_reserve_locked`. */
    method EmitReserveLocked(input: Input, m: Mint) returns (result: CreateResult)
      requires Valid() && MintFresh(View(), m) && clock <= m.now && input.bucket !in deletedBuckets
      modifies this, allocators, storage`rows
      ensures Valid() && (View(), result) == EmitReserve(old(View()), input, m) && result != LATE_REFUSAL
      ensures batchTx == old(batchTx) + (if result.Created? then result.emitted else [])
      ensures clock == old(clock) && issued == old(issued) && correctionTx == old(correctionTx)
    {
      hide Valid, Ahead, Available, Balance, AccountAt, AccountState.Active, ActiveHolds, HoldTotal, Minted, WrapI64;
      hide Allocator.AfterAllocate, Allocator.Consistent, Allocator.NextPair, ReplicaModel.Valid;
      ghost var v := View();
      AtRest();
      var state := AccountAt(accounts, input.Owner());
      AccountSeen(input.Owner(), m.now);
      var holdAmount := if input.holdAmount.Some? then input.holdAmount.value else 0;
      var holdExpires := if input.holdExpires.Some? then input.holdExpires.value else 0;
      var available := AvailableBalance(state, m.now);
      var projected := Projected(available, 0, holdAmount);
      var floor := FloorOf(input.maxOverdraft);
      if projected < floor {
        return Failed(InsufficientFunds(state.balance, available, projected, false));
      }
      AheadAlloc(v);
      var pair := AllocateNext(input.bucket, v);
      var e := Event(m.first, cfg.nodeId, pair.0, pair.1, m.now, ReservationCreate, input.bucket, input.account,
                     0, input.note, input.nonce, None, holdAmount, holdExpires, None);
      assert e == ReserveEvent(v, input, holdAmount, holdExpires, m.now, m.first);
      EmitAlone(e, v);
      result := Created(e, [e]);
    }

    /** Emit and record a request's only event. */
    method EmitAlone(e: Event, ghost v: Replica)
      requires Ahead(v) && MintsNext(v, e) && e.MetaTargetBucket().None? && booked == applied
      requires View().alloc == Allocator.AfterAllocate(v.alloc, e.bucket)
      modifies this
      ensures Valid() && View() == Minted(v, e) && batchTx == old(batchTx) + [e]
      ensures clock == old(clock) && issued == old(issued) && correctionTx == old(correctionTx)
    {
      hide Valid, Ahead, Minted, MintsNext, Allocator.AfterAllocate, ReplicaModel.Valid, Recordable;
      AheadAlloc(v);
      MintOne(v, e);
      MintAllValid(v, [e]);
      EmitEvent(e, v);
      MintedParts(v, e);
      AheadAlloc(Minted(v, e));
      Finish([e], Minted(v, e));
    }

    /** Why a reservation cannot be settled or released, if so. */
    static function Refusal(state: AccountState, id: string, now: nat): Option<CreateError> {
      if id !in state.reservations then Some(ReservationNotFound(id))
      else if id in state.released then Some(ReservationAlreadyReleased(id))
      else if state.reservations[id].expires <= now then Some(ReservationExpired(id))
      else None
    }

    /** The answer agrees with the replica's up to which reason refuses an inactive reservation. */
    static predicate Answers(actual: CreateResult, expected: CreateResult, state: AccountState, now: nat) {
      actual == expected
      || (expected.Failed? && expected.error.ReservationNotFound? && Refusal(state, expected.error.id, now).Some?
          && actual == Failed(Refusal(state, expected.error.id, now).value))
    }

    /** A reservation is refused exactly when no active hold has its id, and
        each reason is true of the log. */
    lemma RefusalSound(owner: BalanceKey, id: string, now: nat)
      requires Valid() && clock <= now
      ensures var state := AccountAt(accounts, owner);
        && (Refusal(state, id, now).None? <==> IsActive(View(), owner, id, now))
        && (IsActive(View(), owner, id, now) ==> ActiveHold(View(), owner, id, now) == AsHold(id, state.reservations[id]))
        && (Refusal(state, id, now) == Some(ReservationAlreadyReleased(id)) ==> id in ReleasesOf(applied, owner))
        && (Refusal(state, id, now) == Some(ReservationExpired(id)) ==>
              exists h :: h in HoldsOf(applied, owner) && h.id == id && h.expires <= now)
        && (Refusal(state, id, now) == Some(ReservationNotFound(id)) ==>
              forall h :: h in HoldsOf(applied, owner) && h.id == id ==> h.expires <= clock)
        && (forall h :: h in HoldsOf(applied, owner) && h.id == id && h.expires > clock ==>
              Refusal(state, id, now) ==
                if id in ReleasesOf(applied, owner) then Some(ReservationAlreadyReleased(id))
                else if h.expires <= now then Some(ReservationExpired(id)) else None)
    {
      forall h | h in HoldsOf(applied, owner) && h.id == id && h.expires > clock
        ensures Refusal(AccountAt(accounts, owner), id, now) ==
          if id in ReleasesOf(applied, owner) then Some(ReservationAlreadyReleased(id))
          else if h.expires <= now then Some(ReservationExpired(id)) else None
      {
        AtRest();
        AccountIsOk(owner);
        hide Valid, AccountAt;
        RefusalIsExact(applied, owner, AccountAt(accounts, owner), clock, issued, h, now);
      }
      hide Valid, AccountAt, ActiveHolds, WellFormed, HoldsOf, ReleasesOf, Balance, HoldTotal, Available, EventsOf;
      hide AccountState.Reserved, AccountState.Active, Ahead, ReplicaModel.Valid;
      AccountSeen(owner, now);
      AtRest();
      AccountIsOk(owner);
      var state := AccountAt(accounts, owner);
      RefusalFacts(state, id, now);
      ActiveIsReserved(state, id, now);
    }

    /** Of a reservation the account has not forgotten, the refusal is exact: a
        release comes before expiry. */
    static lemma RefusalIsExact(log: Log, owner: BalanceKey, a: AccountState, clock: nat, issued: set<Event>, h: Hold, now: nat)
      requires WellFormed(log) && AccountOk(log, owner, a, clock, issued) && h in HoldsOf(log, owner) && h.expires > clock
      ensures Refusal(a, h.id, now) ==
        if h.id in ReleasesOf(log, owner) then Some(ReservationAlreadyReleased(h.id))
        else if h.expires <= now then Some(ReservationExpired(h.id)) else None
    {
      assert h in a.Reserved();
      forall g | g in HoldsOf(log, owner) && g.id == h.id
        ensures g == h
      {
      }
      hide HoldsOf, ReleasesOf, Balance, EventsOf;
    }

    lemma AccountIsOk(owner: BalanceKey)
      requires Valid()
      ensures AccountOk(applied, owner, AccountAt(accounts, owner), clock, issued)
    {
    }

    /** An account's event count is exact unless some of its events are deletes
        this node issued itself; outside the meta bucket it always is. */
    lemma CountSeen(owner: BalanceKey)
      requires Valid()
      ensures AccountAt(accounts, owner).eventCount == |EventsOf(applied, owner)| - |EventsOf(applied, owner) * issued|
      ensures AccountAt(accounts, owner).eventCount == |EventsOf(applied, owner)| <==> EventsOf(applied, owner) !! issued
      ensures owner.bucket != META_BUCKET ==> AccountAt(accounts, owner).eventCount == |EventsOf(applied, owner)|
    {
      AccountIsOk(owner);
      SoundParts(eventBuffer);
      CountExactIff(applied, owner, AccountAt(accounts, owner), clock, issued);
    }

    static lemma RefusalFacts(state: AccountState, id: string, now: nat)
      ensures id in state.reservations <==> exists h :: h in state.Reserved() && h.id == id
      ensures id in state.reservations ==> AsHold(id, state.reservations[id]) in state.Reserved()
    {
      forall h | h in state.Reserved() && h.id == id
        ensures id in state.reservations
      {
      }
      if id in state.reservations {
        assert AsHold(id, state.reservations[id]) in state.Reserved();
        assert AsHold(id, state.reservations[id]).id == id;
      }
    }

    static lemma ActiveIsReserved(state: AccountState, id: string, now: nat)
      ensures Refusal(state, id, now).None? <==> exists h :: h in state.Active(now) && h.id == id
      ensures forall h :: h in state.Active(now) && h.id == id ==> id in state.reservations && h == AsHold(id, state.reservations[id])
    {
      if Refusal(state, id, now).None? {
        var h := AsHold(id, state.reservations[id]);
        assert h in state.Reserved();
        assert h in state.Active(now) && h.id == id;
      }
    }

    /** `emit_settle_locked`: both pairs are allocated before either event is built. */
    method EmitSettleLocked(input: Input, id: string, m: Mint) returns (result: CreateResult)
      requires Valid() && MintFresh(View(), m) && clock <= m.now && input.bucket !in deletedBuckets
      modifies this, allocators, storage`rows
      ensures Valid() && View() == EmitSettle(old(View()), input, id, m).0 && result != LATE_REFUSAL
      ensures Answers(result, EmitSettle(old(View()), input, id, m).1, AccountAt(old(accounts), input.Owner()), m.now)
      ensures batchTx == old(batchTx) + (if result.Created? then result.emitted else [])
      ensures clock == old(clock) && issued == old(issued) && correctionTx == old(correctionTx)
    {
      hide Valid, AccountAt, IsActive, Minted, MintFresh, Balance;
      var state := AccountAt(accounts, input.Owner());
      RefusalSound(input.Owner(), id, m.now);
      if id !in state.reservations {
        return Failed(ReservationNotFound(id));
      }
      var reservation := state.reservations[id];
      if id in state.released {
        return Failed(ReservationAlreadyReleased(id));
      }
      if reservation.expires <= m.now {
        return Failed(ReservationExpired(id));
      }
      var attempted := Abs(input.amount);
      if attempted > reservation.amount {
        return Failed(ReservationOverspend(reservation.amount, attempted));
      }
      result := EmitCapture(input, id, m, View());
    }

    method EmitCapture(input: Input, id: string, m: Mint, ghost v: Replica) returns (result: CreateResult)
      requires v == View() && Valid() && MintFresh(v, m) && input.bucket !in v.deleted
      modifies this, allocators, storage`rows
      ensures Valid() && (View(), result) == Capture(v, input, id, m)
      ensures result.Created? && batchTx == old(batchTx) + result.emitted
      ensures clock == old(clock) && issued == old(issued) && correctionTx == old(correctionTx)
    {
      hide *;
      AtRest();
      AheadAlloc(v);
      var chargePair := AllocateNext(input.bucket, v);
      var releasePair := AllocateNext(input.bucket, v);
      var charge := Event(m.first, cfg.nodeId, chargePair.0, chargePair.1, m.now, Standard, input.bucket, input.account,
                          input.amount, input.note, input.nonce, None, 0, 0, None);
      var release := Event(m.second, cfg.nodeId, releasePair.0, releasePair.1, m.now, HoldRelease, input.bucket, input.account,
                           0, None, ReleaseNonce(input.nonce), Some(id), 0, 0, None);
      ghost var r1 := Minted(v, charge);
      CapturedEvents(v, input, id, m, charge, release);
      EmitEvent(charge, v);
      EmitEvent(release, r1);
      AheadAlloc(Minted(r1, release));
      Finish([charge, release], Minted(r1, release));
      result := Created(charge, [charge, release]);
    }

    /** The two events built after two allocations are those of a capture. */
    static lemma CapturedEvents(v: Replica, input: Input, id: string, m: Mint, charge: Event, release: Event)
      requires ReplicaModel.Valid(v) && MintFresh(v, m) && input.bucket !in v.deleted
      requires charge == Event(m.first, v.cfg.nodeId, charge.epoch, charge.seqNo, m.now, Standard, input.bucket, input.account,
                               input.amount, input.note, input.nonce, None, 0, 0, None)
      requires (charge.epoch, charge.seqNo) == Allocator.NextPair(v.alloc, input.bucket)
      requires release == Event(m.second, v.cfg.nodeId, release.epoch, release.seqNo, m.now, HoldRelease, input.bucket, input.account,
                                0, None, ReleaseNonce(input.nonce), Some(id), 0, 0, None)
      requires (release.epoch, release.seqNo) == Allocator.NextPair(Allocator.AfterAllocate(v.alloc, input.bucket), input.bucket)
      ensures var r1 := Minted(v, charge);
        && MintsNext(v, charge) && MintsNext(r1, release)
        && charge.MetaTargetBucket().None? && release.MetaTargetBucket().None?
        && Capture(v, input, id, m) == (Minted(r1, release), Created(charge, [charge, release]))
        && Recordable(v.applied, [charge, release]) && Minted(r1, release).applied == WithAll(v.applied, [charge, release])
        && Minted(r1, release).alloc
             == Allocator.AfterAllocate(Allocator.AfterAllocate(v.alloc, input.bucket), input.bucket)
    {
      hide Allocator.AfterAllocate, Allocator.NextPair, ReplicaModel.Valid, Recordable, WithAll, EmitsNext, IdFresh;
      var r1 := Minted(v, charge);
      MintedParts(v, charge);
      FreshPair(v, m);
      NextAfter(v, charge, release);
      CaptureEmits(v, input, id, m);
      EmittedValid(v, Capture(v, input, id, m));
      MintedParts(r1, release);
    }

    static lemma FreshPair(v: Replica, m: Mint)
      requires MintFresh(v, m)
      ensures IdFresh(v.applied, m.first) && IdFresh(v.applied, m.second) && m.first != m.second
      ensures IdFresh(v.applied, m.third) && m.second != m.third
    {
    }

    /** `emit_release_locked`. */
    method EmitReleaseLocked(input: Input, id: string, m: Mint) returns (result: CreateResult)
      requires Valid() && MintFresh(View(), m) && clock <= m.now && input.bucket !in deletedBuckets
      modifies this, allocators, storage`rows
      ensures Valid() && View() == EmitRelease(old(View()), input, id, m).0 && result != LATE_REFUSAL
      ensures Answers(result, EmitRelease(old(View()), input, id, m).1, AccountAt(old(accounts), input.Owner()), m.now)
      ensures batchTx == old(batchTx) + (if result.Created? then result.emitted else [])
      ensures clock == old(clock) && issued == old(issued) && correctionTx == old(correctionTx)
    {
      hide Valid, Ahead, AccountAt, IsActive, Minted, Balance, Allocator.AfterAllocate, Allocator.Consistent,
           Allocator.NextPair, ReplicaModel.Valid;
      ghost var v := View();
      AtRest();
      var state := AccountAt(accounts, input.Owner());
      RefusalSound(input.Owner(), id, m.now);
      if id !in state.reservations {
        return Failed(ReservationNotFound(id));
      }
      var reservation := state.reservations[id];
      if id in state.released {
        return Failed(ReservationAlreadyReleased(id));
      }
      if reservation.expires <= m.now {
        return Failed(ReservationExpired(id));
      }
      AheadAlloc(v);
      var pair := AllocateNext(input.bucket, v);
      var e := Event(m.first, cfg.nodeId, pair.0, pair.1, m.now, HoldRelease, input.bucket, input.account,
                     0, input.note, input.nonce, Some(id), 0, 0, None);
      assert e == ReleaseEvent(v, input, input.nonce, input.note, id, m.now, m.first);
      EmitAlone(e, v);
      result := Created(e, [e]);
    }

    /** `create_local_events`. */
    method CreateLocalEvents(input: Input, m: Mint) returns (result: CreateResult)
      requires Valid() && MintFresh(View(), m) && clock <= m.now
      modifies this, allocators, storage`rows
      ensures View() == CreateLocal(old(View()), input, m).0
      ensures if result == LATE_REFUSAL then Stranded(old(View()), input) else Valid()
      ensures Answers(result, CreateLocal(old(View()), input, m).1, AccountAt(old(accounts), input.Owner()), m.now)
      ensures batchTx == old(batchTx) + (if result.Created? then result.emitted else [])
      ensures clock == old(clock) && issued == old(issued) && correctionTx == old(correctionTx)
    {
      hide Valid, Ahead, AccountAt, Matching, MintFresh, EmitCharge, EmitReserve, EmitSettle, EmitRelease, Stranded;
      ModeNeverLate(input, m.now);
      if !input.allowReservedBucket && IsReservedBucketName(input.bucket) {
        return Failed(BucketReserved(input.bucket));
      }
      if input.bucket in deletedBuckets {
        return Failed(BucketDeleted(input.bucket));
      }
      var selected := ModeOf(input, m.now);
      if selected.Rejected? {
        return Failed(InvalidRequest(selected.reason));
      }
      OpenAccount(input.Owner());
      if input.Idem() in idempotencyCache {
        return Created(idempotencyCache[input.Idem()], []);
      }
      var matches := storage.FindByIdempotencyKey(input.Idem());
      if matches != {} {
        StoredDistinct(input.Idem());
        var winner := Earliest(matches);
        LeastUnique(matches, winner, LeastOf(matches));
        MatchingKeyed(storage.events, input.Idem(), winner);
        CacheWinner(input.Idem(), winner);
        return Created(winner, []);
      }
      match selected.mode
      case Charge(holdOverride) => result := EmitChargeLocked(input, holdOverride, m);
      case Reserve => result := EmitReserveLocked(input, m);
      case Settle(id) => result := EmitSettleLocked(input, id, m);
      case Release(id) => result := EmitReleaseLocked(input, id, m);
    }

    /** The account's entry comes into being with the first request that names it. */
    method OpenAccount(owner: BalanceKey)
      requires Valid()
      modifies this`accounts
      ensures Valid() && View() == old(View())
      ensures forall other :: AccountAt(accounts, other) == AccountAt(old(accounts), other)
    {
      hide ReplicaModel.Valid, CachesAgree, Durable, Tombstones, AccountOk;
      accounts := accounts[owner := AccountAt(accounts, owner)];
      forall other
        ensures AccountAt(accounts, other) == AccountAt(old(accounts), other)
        ensures AccountOk(applied, other, AccountAt(accounts, other), clock, issued)
      {
        assert AccountOk(applied, other, AccountAt(old(accounts), other), clock, issued);
      }
    }

    method CacheWinner(key: IdemKey, winner: Event)
      requires Valid() && winner.Idem() == key
      modifies this`idempotencyCache
      ensures Valid() && View() == old(View()).(cache := old(idempotencyCache)[key := winner])
    {
      hide CachesAgree, AccountsOk, Durable, Tombstones;
      idempotencyCache := idempotencyCache[key := winner];
    }

    static lemma MatchingKeyed(log: Log, key: IdemKey, e: Event)
      requires e in Matching(log, key)
      ensures e.Idem() == key
    {
    }

    lemma StoredDistinct(key: IdemKey)
      requires Valid()
      ensures DistinctIds(Matching(storage.events, key))
    {
    }

    // ---- Bucket deletion ----

    /** `apply_bucket_delete_cascade`: strip every map of the bucket's entries. */
    method ApplyBucketDeleteCascade(bucket: string)
      requires storage.Valid()
      modifies this`heads, this`pendingSeqs, this`maxKnownSeqs, this`digests, this`eventBuffer, this`unpersisted
      modifies this`accounts, this`accountOriginEpochs, this`idempotencyCache, allocators, storage
      ensures storage.Valid()
      ensures bucket == META_BUCKET ==> unchanged(this) && unchanged(allocators) && unchanged(storage)
      ensures bucket != META_BUCKET ==>
        && storage.events == DropBucket(old(storage.events), bucket) && storage.rows == old(storage.rows) - {bucket}
        && heads == LinesWithout(old(heads), bucket) && pendingSeqs == LinesWithout(old(pendingSeqs), bucket)
        && maxKnownSeqs == LinesWithout(old(maxKnownSeqs), bucket) && digests == LinesWithout(old(digests), bucket)
        && eventBuffer == KeysWithout(old(eventBuffer), bucket) && unpersisted == KeysWithout(old(unpersisted), bucket)
        && accounts == OwnersWithout(old(accounts), bucket)
        && accountOriginEpochs == OwnersWithout(old(accountOriginEpochs), bucket)
        && idempotencyCache == CacheWithout(old(idempotencyCache), bucket)
        && allocators.counters == old(allocators.counters) - {bucket}
    {
      hide *;
      if bucket == META_BUCKET { return; }
      var done := storage.DeleteBucketCascade(bucket);
      heads, pendingSeqs := LinesWithout(heads, bucket), LinesWithout(pendingSeqs, bucket);
      maxKnownSeqs, digests := LinesWithout(maxKnownSeqs, bucket), LinesWithout(digests, bucket);
      eventBuffer, unpersisted := KeysWithout(eventBuffer, bucket), KeysWithout(unpersisted, bucket);
      accounts, accountOriginEpochs := OwnersWithout(accounts, bucket), OwnersWithout(accountOriginEpochs, bucket);
      idempotencyCache := CacheWithout(idempotencyCache, bucket);
      allocators.Forget(bucket);
    }

    static lemma DurableDropped(log: Log, stored: Log, unpersisted: map<OriginKey, nat>, bucket: string)
      requires WellFormed(log) && StoredAgrees(stored, log) && Durable(log, stored, unpersisted)
      ensures Durable(DropBucket(log, bucket), DropBucket(stored, bucket), KeysWithout(unpersisted, bucket))
    {
    }

    static lemma KeyedDropped(cache: map<IdemKey, Event>, bucket: string)
      requires Keyed(cache)
      ensures Keyed(CacheWithout(cache, bucket))
    {
    }

    lemma SoundParts(buffer: Log)
      requires Sound(buffer)
      ensures ReplicaModel.Valid(View()) && WellFormed(applied) && StoredAgrees(storage.events, applied)
      ensures booked == applied
      ensures AccountsOk(applied, accounts, clock, issued) && Durable(applied, storage.events, unpersisted)
      ensures Keyed(idempotencyCache)
    {
    }

    /** What is left after dropping a bucket from a sound state is sound. */
    lemma DroppedIsSound(buffer: Log, bucket: string)
      requires Sound(buffer) && bucket != META_BUCKET
      ensures ReplicaModel.Valid(Purge(View(), bucket))
      ensures CachesAgree(DropBucket(applied, bucket), LinesWithout(heads, bucket), LinesWithout(pendingSeqs, bucket),
                          LinesWithout(maxKnownSeqs, bucket), OwnersWithout(accountOriginEpochs, bucket), LinesWithout(digests, bucket),
                          KeysWithout(unpersisted, bucket), KeysWithout(buffer, bucket))
      ensures AccountsOk(DropBucket(applied, bucket), OwnersWithout(accounts, bucket), clock, issued)
      ensures Durable(DropBucket(applied, bucket), DropBucket(storage.events, bucket), KeysWithout(unpersisted, bucket))
      ensures Keyed(CacheWithout(idempotencyCache, bucket))
      ensures Tombstones(DropBucket(applied, bucket)) == Tombstones(applied)
    {
      SoundParts(buffer);
      hide ReplicaModel.Valid, CachesAgree, AccountsOk, Durable, Tombstones, Keyed, DropBucket, StoredAgrees,
           WellFormed, Purge;
      PurgeValid(View(), bucket);
      CachesDropped(applied, heads, pendingSeqs, maxKnownSeqs, accountOriginEpochs, digests, unpersisted, buffer, bucket);
      AccountsDropped(applied, accounts, bucket, clock, issued);
      DurableDropped(applied, storage.events, unpersisted, bucket);
      KeyedDropped(idempotencyCache, bucket);
      TombstonesDrop(applied, bucket);
    }

    /** Tombstone a bucket and drop every trace of it, given what the buffer
        holds beside an event just claimed. */
    method TombstoneAndCascade(bucket: string, createdAt: nat, ghost buffer: Log)
      requires Sound(buffer) && bucket != META_BUCKET
      modifies this, allocators, storage
      ensures Sound(KeysWithout(buffer, bucket)) && View() == Purge(old(View()), bucket)
      ensures eventBuffer == KeysWithout(old(eventBuffer), bucket) && Tombstones(applied) == Tombstones(old(applied))
      ensures batchTx == old(batchTx) && correctionTx == old(correctionTx) && clock == old(clock)
      ensures issued == old(issued) && deletedBuckets == old(deletedBuckets)[bucket := createdAt]
    {
      hide *;
      Linked(buffer);
      SoundParts(buffer);
      DroppedIsSound(buffer, bucket);
      ViewParts();
      deletedBuckets := deletedBuckets[bucket := createdAt];
      ApplyBucketDeleteCascade(bucket);
      RecordDrop(bucket);
      Purged(old(View()), bucket, KeysWithout(buffer, bucket));
    }

    ghost method RecordDrop(bucket: string)
      modifies this`applied, this`booked
      ensures applied == booked == DropBucket(old(applied), bucket)
    {
      applied := DropBucket(applied, bucket);
      booked := applied;
    }

    lemma ViewParts()
      ensures View() == Replica(cfg, applied, idempotencyCache, deletedBuckets.Keys, storage.events,
                                Allocator.AllocState(allocators.counters, storage.rows))
    {
    }

    lemma Linked(buffer: Log)
      requires Sound(buffer)
      ensures allocators.storage == storage && storage.Valid()
    {
    }

    lemma SoundAgain(buffer: Log)
      requires allocators.storage == storage && storage.Valid()
      requires ReplicaModel.Valid(View())
      requires CachesAgree(applied, heads, pendingSeqs, maxKnownSeqs, accountOriginEpochs, digests, unpersisted, buffer)
      requires booked == applied && AccountsOk(applied, accounts, clock, issued)
      requires Durable(applied, storage.events, unpersisted)
      requires Keyed(idempotencyCache)
      ensures Sound(buffer)
    {
    }

    lemma Purged(v: Replica, bucket: string, buffer: Log)
      requires cfg == v.cfg && applied == DropBucket(v.applied, bucket)
      requires idempotencyCache == CacheWithout(v.cache, bucket)
      requires deletedBuckets.Keys == v.deleted + {bucket} && storage.events == DropBucket(v.stored, bucket)
      requires allocators.counters == v.alloc.counters - {bucket} && storage.rows == v.alloc.rows - {bucket}
      requires allocators.storage == storage && storage.Valid() && ReplicaModel.Valid(Purge(v, bucket))
      requires CachesAgree(applied, heads, pendingSeqs, maxKnownSeqs, accountOriginEpochs, digests, unpersisted, buffer)
      requires booked == applied && AccountsOk(applied, accounts, clock, issued)
      requires Durable(applied, storage.events, unpersisted) && Keyed(idempotencyCache)
      ensures View() == Purge(v, bucket) && Sound(buffer)
    {
      hide *;
      IsPurge(v, bucket);
      SoundAgain(buffer);
    }

    lemma IsPurge(v: Replica, bucket: string)
      requires cfg == v.cfg && applied == DropBucket(v.applied, bucket)
      requires idempotencyCache == CacheWithout(v.cache, bucket)
      requires deletedBuckets.Keys == v.deleted + {bucket} && storage.events == DropBucket(v.stored, bucket)
      requires allocators.counters == v.alloc.counters - {bucket} && storage.rows == v.alloc.rows - {bucket}
      ensures View() == Purge(v, bucket)
    {
    }

    /** `create_meta_bucket_delete`. The meta event itself is recorded but,
        unlike at the nodes that receive it, not counted on an account. */
    method CreateMetaBucketDelete(bucket: string, reason: Option<string>, m: Mint) returns (result: CreateResult)
      requires Valid() && IdFresh(applied, m.first)
      modifies this, allocators, storage
      ensures Valid() && (View(), result) == CreateDelete(old(View()), bucket, reason, m)
      ensures batchTx == old(batchTx) + (if result.Created? then result.emitted else [])
      ensures clock == old(clock) && correctionTx == old(correctionTx)
      ensures issued == old(issued) + (if result.Created? then {result.primary} else {})
    {
      if bucket == META_BUCKET || IsReservedBucketName(bucket) {
        return Failed(BucketReserved(bucket));
      }
      if bucket in deletedBuckets {
        return Failed(BucketDeleted(bucket));
      }
      result := DeleteBucket(bucket, reason, m, View());
    }

    method DeleteBucket(bucket: string, reason: Option<string>, m: Mint,
                        ghost v: Replica) returns (result: CreateResult)
      requires v == View() && Valid() && IdFresh(applied, m.first) && CreateDelete(v, bucket, reason, m).1.Created?
      modifies this, allocators, storage
      ensures Valid() && (View(), result) == CreateDelete(v, bucket, reason, m)
      ensures result.Created? && batchTx == old(batchTx) + result.emitted
      ensures clock == old(clock) && correctionTx == old(correctionTx)
      ensures issued == old(issued) + {result.primary}
    {
      hide Sound, Valid, Ahead, CreateDelete, Purge, DeleteEvent, IdFresh, ReplicaModel.Valid, Appended, Tombstones;
      hide Allocator.AfterAllocate, Allocator.NextPair, Allocator.Consistent;
      AtRest();
      AheadAlloc(v);
      CreateDeleteValid(v, bucket, reason, m);
      var pair := AllocateNext(META_BUCKET, v);
      AllocatedSound(v, META_BUCKET);
      var e := Event(m.first, cfg.nodeId, pair.0, pair.1, m.now, EventType.BucketDelete, META_BUCKET, bucket,
                     0, reason, DeleteNonce(bucket), None, 0, 0, None);
      DeleteEventParts(v, e, bucket, reason, m);
      TombstoneAndCascade(bucket, m.now, eventBuffer);
      PurgedParts(v, bucket, e);
      RecordDelete(bucket, e, Appended(Purge(v, bucket), e));
      result := Created(e, [e]);
    }

    lemma AllocatedSound(v: Replica, bucket: string)
      requires Ahead(v) && v.applied == applied && booked == applied
      requires View().alloc == Allocator.AfterAllocate(v.alloc, bucket)
      ensures Sound(eventBuffer) && View() == v.(alloc := Allocator.AfterAllocate(v.alloc, bucket))
      ensures deletedBuckets.Keys == Tombstones(applied)
    {
      AllocatedValid(v, bucket);
      hide ReplicaModel.Valid, CachesAgree, AccountsOk, Durable, Tombstones, Keyed, WellFormed;
    }

    lemma DeleteEventParts(v: Replica, e: Event, bucket: string, reason: Option<string>, m: Mint)
      requires (e.epoch, e.seqNo) == NextPair(v, META_BUCKET)
      requires e == Event(m.first, v.cfg.nodeId, e.epoch, e.seqNo, m.now, EventType.BucketDelete, META_BUCKET, bucket,
                          0, reason, DeleteNonce(bucket), None, 0, 0, None)
      ensures e == DeleteEvent(v, bucket, reason, m)
    {
    }

    lemma PurgedParts(v: Replica, bucket: string, e: Event)
      requires View() == Purge(v.(alloc := Allocator.AfterAllocate(v.alloc, META_BUCKET)), bucket)
      requires bucket != META_BUCKET && e.bucket == META_BUCKET
      ensures View().(applied := With(applied, e)) == Appended(Purge(v, bucket), e)
      ensures applied == Purge(v, bucket).applied && deletedBuckets.Keys == v.deleted + {bucket}
    {
      hide With, DropBucket;
      var q := Purge(v, bucket);
      assert Allocator.NextPair(q.alloc, META_BUCKET) == Allocator.NextPair(v.alloc, META_BUCKET);
      var x := Allocator.AfterAllocate(q.alloc, META_BUCKET);
      assert x.counters == View().alloc.counters;
      assert x.rows == View().alloc.rows;
    }

    /** Record a delete of this node's own, which no account books. */
    method RecordUnbooked(e: Event)
      requires Agreeing() && e.seqNo >= 1 && e.Key() !in applied && e.MetaTargetBucket().Some? && e.amount == 0
      requires Durable(applied, storage.events, unpersisted) && WellFormed(applied)
      requires booked == applied && AccountsOk(applied, accounts, clock, issued)
      modifies this`heads, this`pendingSeqs, this`digests, this`eventBuffer, this`unpersisted
      modifies this`accountOriginEpochs, this`maxKnownSeqs, this`applied, this`batchTx, this`booked, this`issued
      ensures Agreeing() && applied == With(old(applied), e) && batchTx == old(batchTx) + [e]
      ensures Durable(applied, storage.events, unpersisted)
      ensures booked == applied && issued == old(issued) + {e} && AccountsOk(applied, accounts, clock, issued)
    {
      hide CachesAgree, AccountsOk, Durable, WellFormed, With;
      AccountsUnbooked(applied, accounts, e, clock, issued);
      RecordNewLocalEvent(e);
      booked, issued := applied, issued + {e};
    }

    /** Record the meta event of a delete just carried out. */
    method RecordDelete(bucket: string, e: Event, ghost r: Replica)
      requires Sound(eventBuffer) && bucket != META_BUCKET && e.MetaTargetBucket() == Some(bucket) && e.amount == 0
      requires ReplicaModel.Valid(r) && r == View().(applied := With(applied, e))
      requires e.Key() !in applied && e.seqNo >= 1 && deletedBuckets.Keys == Tombstones(applied) + {bucket}
      modifies this
      ensures Valid() && View() == r && batchTx == old(batchTx) + [e]
      ensures clock == old(clock) && correctionTx == old(correctionTx) && issued == old(issued) + {e}
    {
      hide ReplicaModel.Valid, CachesAgree, AccountsOk, Durable, Tombstones, Keyed, WellFormed, StoredAgrees, With;
      hide Sound, Storage.Indexes;
      SoundParts(eventBuffer);
      Linked(eventBuffer);
      SoundCaches(eventBuffer);
      DeleteTombstones(applied, e, bucket);
      RecordUnbooked(e);
      SoundAgain(eventBuffer);
    }

    static lemma DeleteTombstones(log: Log, e: Event, bucket: string)
      requires e.Key() !in log && e.MetaTargetBucket() == Some(bucket) && bucket != META_BUCKET
      ensures Tombstones(With(log, e)) == Tombstones(log) + {bucket}
    {
      TombstonesWith(log, e);
    }

    // ---- Deliveries ----

    /** `event_is_present`. */
    method EventIsPresent(e: Event) returns (present: bool)
      requires Valid()
      ensures e.Key() in eventBuffer ==> present == (eventBuffer[e.Key()].id == e.id)
      ensures e.Key() !in eventBuffer ==> present == (e.Key() in applied || e.seqNo == 0)
    {
      hide ReplicaModel.Valid, AccountsOk, Durable, Tombstones;
      AtRest();
      var key := e.Key();
      if key in eventBuffer {
        return eventBuffer[key].id == e.id;
      }
      LineSeen(e);
      if e.Line() in pendingSeqs && e.seqNo in pendingSeqs[e.Line()] {
        return true;
      }
      var head := HeadAt(heads, e.Line());
      return e.seqNo <= head;
    }

    /** A seq is applied exactly when it is pending or at or below the head. */
    lemma LineSeen(e: Event)
      requires Valid()
      ensures e.Key() in applied || e.seqNo == 0 <==>
        e.seqNo in PendingAt(pendingSeqs, e.Line()) || e.seqNo <= HeadAt(heads, e.Line())
    {
      AtRest();
      assert LineOk(SeqsOf(applied, e.Line()), HeadAt(heads, e.Line()), PendingAt(pendingSeqs, e.Line()));
      InSeqsOf(applied, e.Line(), e.seqNo);
      InSeqsOf(applied, e.Line(), 0);
    }

    lemma BufferedIsApplied(key: OriginKey)
      requires Valid() && key in eventBuffer
      ensures key in applied
    {
    }

    /** Claim the buffer slot of an event about to be admitted. */
    method ClaimSlot(e: Event)
      requires Sound(eventBuffer)
      modifies this`eventBuffer
      ensures Sound(old(eventBuffer)) && View() == old(View()) && eventBuffer == old(eventBuffer)[e.Key() := e]
    {
      hide ReplicaModel.Valid, CachesAgree, AccountsOk, Durable, Tombstones, Keyed, Storage.Indexes;
      eventBuffer := eventBuffer[e.Key() := e];
    }

    /** Book a buffered and queued event, advance the caches, queue it for persistence. */
    method Absorb(e: Event)
      requires CachesAgree(applied, heads, pendingSeqs, maxKnownSeqs, accountOriginEpochs, digests,
                           MapWithout(unpersisted, e.Key()), MapWithout(eventBuffer, e.Key()))
      requires e.Key() in unpersisted && unpersisted[e.Key()] == e.createdAt && e.Key() in eventBuffer
      requires eventBuffer[e.Key()] == e
      requires booked == applied && AccountsOk(booked, accounts, clock, issued) && WellFormed(applied)
      requires e.Key() !in applied && IdFresh(applied, e.id) && e.seqNo >= 1
      modifies this`heads, this`pendingSeqs, this`digests, this`eventBuffer, this`accountOriginEpochs, this`maxKnownSeqs
      modifies this`applied, this`accounts, this`booked, this`batchTx
      ensures Agreeing() && applied == With(old(applied), e) && booked == applied
      ensures AccountsOk(booked, accounts, clock, issued)
      ensures batchTx == old(batchTx) + [e]
    {
      hide LinesOk, MaxKnownOk, OriginsOk, DigestsOk, BufferOk, AccountsOk, IdFresh, WellFormed, With;
      BufferGrows(applied, heads, MapWithout(unpersisted, e.Key()), MapWithout(eventBuffer, e.Key()), e);
      assert MapWithout(unpersisted, e.Key())[e.Key() := e.createdAt] == unpersisted;
      assert MapWithout(eventBuffer, e.Key())[e.Key() := e] == eventBuffer;
      BookEvent(e);
      AdvanceCaches(e);
      batchTx := batchTx + [e];
    }

    static function MapWithout<V>(m: map<OriginKey, V>, key: OriginKey): map<OriginKey, V> {
      m - {key}
    }

    /** Neither buffer nor queue mention an event that is not applied. */
    lemma NotYetKnown(buffer: Log, e: Event)
      requires CachesAgree(applied, heads, pendingSeqs, maxKnownSeqs, accountOriginEpochs, digests, unpersisted, buffer)
      requires e.Key() !in applied
      ensures MapWithout(buffer[e.Key() := e], e.Key()) == buffer
      ensures MapWithout(unpersisted[e.Key() := e.createdAt], e.Key()) == unpersisted
    {
      hide LinesOk, MaxKnownOk, OriginsOk, DigestsOk;
    }

    lemma SoundCaches(buffer: Log)
      requires Sound(buffer)
      ensures CachesAgree(applied, heads, pendingSeqs, maxKnownSeqs, accountOriginEpochs, digests, unpersisted, buffer)
    {
    }

    /** Book a claimed event and advance the caches. `buffer` is what the
        buffer holds beside the claim. */
    method BookAndAdvance(e: Event, ghost buffer: Log)
      requires Sound(buffer) && eventBuffer == buffer[e.Key() := e]
      requires e.Key() !in applied && IdFresh(applied, e.id) && e.seqNo >= 1
      requires ReplicaModel.Valid(View().(applied := With(applied, e)))
      requires deletedBuckets.Keys == Tombstones(With(applied, e))
      modifies this
      ensures Valid() && View() == old(View()).(applied := With(old(applied), e))
      ensures batchTx == old(batchTx) + [e] && correctionTx == old(correctionTx) && clock == old(clock)
      ensures issued == old(issued)
    {
      hide Sound, ReplicaModel.Valid, CachesAgree, AccountsOk, Durable, Tombstones, Keyed, IdFresh, WellFormed, With,
           StoredAgrees;
      hide Storage.Indexes, AccountAt;
      Linked(buffer);
      SoundParts(buffer);
      SoundCaches(buffer);
      NotYetKnown(buffer, e);
      DurableWith(applied, e, storage.events, unpersisted);
      unpersisted := unpersisted[e.Key() := e.createdAt];
      Absorb(e);
      SoundAgain(eventBuffer);
    }

    static lemma DurableWith(log: Log, e: Event, stored: Log, unpersisted: map<OriginKey, nat>)
      requires Durable(log, stored, unpersisted)
      ensures Durable(With(log, e), stored, unpersisted[e.Key() := e.createdAt])
    {
    }

    lemma ReadyToAdmit(e: Event)
      requires Valid() && Accepts(View(), e) && Deliverable(View(), e)
      ensures Sound(eventBuffer) && booked == applied && deletedBuckets.Keys == Tombstones(applied)
      ensures e.Key() !in applied && e.seqNo >= 1 && ReplicaModel.Valid(View()) && e.bucket !in deletedBuckets
    {
    }

    static lemma AcceptedParts(q: Replica, e: Event)
      requires Accepts(q, e)
      ensures e.Key() !in q.applied && e.seqNo >= 1
    {
    }

    /** The first half of `insert_event`: claim the buffer slot, carry out a
        bucket delete, book the event and advance the caches. */
    method AdmitEvent(e: Event)
      requires Valid() && Accepts(View(), e) && Deliverable(View(), e)
      modifies this, allocators, storage
      ensures Valid() && View() == Admit(old(View()), e)
      ensures batchTx == old(batchTx) + [e] && correctionTx == old(correctionTx) && clock == old(clock)
      ensures issued == old(issued)
    {
      hide Valid, Sound, Accepts, Deliverable, Admit, ReplicaModel.Valid, Tombstones, IdFresh, Purge, With;
      ghost var buffer := eventBuffer;
      ReadyToAdmit(e);
      AdmitValid(View(), e);
      AcceptedParts(Cleared(View(), e), e);
      ClaimSlot(e);
      var target := e.MetaTargetBucket();
      if target.Some? && target.value != META_BUCKET {
        TombstoneAndCascade(target.value, e.createdAt, buffer);
        KeysWithoutOther(buffer, e, target.value);
        buffer := KeysWithout(buffer, target.value);
        TombstonesPurged(old(View()), target.value);
      }
      TombstonesWith(applied, e);
      assert deletedBuckets.Keys == Tombstones(With(applied, e));
      BookAndAdvance(e, buffer);
    }

    static lemma TombstonesPurged(v: Replica, bucket: string)
      ensures Purge(v, bucket).deleted == v.deleted + {bucket}
    {
    }

    static lemma KeysWithoutOther(buffer: Log, e: Event, bucket: string)
      requires e.bucket != bucket
      ensures KeysWithout(buffer[e.Key() := e], bucket) == KeysWithout(buffer, bucket)[e.Key() := e]
    {
    }

    // ---- Corrections ----

    /** `apply_correction_event`: store, book, cache and announce a void or hold release. */
    method ApplyCorrectionEvent(e: Event, ghost r: Replica)
      requires Ahead(r) && booked == applied && MintsNext(r, e) && e.MetaTargetBucket().None?
      requires View().alloc == Allocator.AfterAllocate(r.alloc, e.bucket)
      modifies this
      ensures Valid() && View() == Minted(r, e) && LogGrows(old(applied), applied)
      ensures batchTx == old(batchTx) + [e] && correctionTx == old(correctionTx) + [e] && clock == old(clock)
      ensures issued == old(issued)
    {
      hide Ahead, Sound, Valid, LogGrows, ReplicaModel.Valid, Tombstones, MintsNext, Minted, Allocator.AfterAllocate,
           IdFresh, With;
      ghost var buffer := eventBuffer;
      AheadAlloc(r);
      MintedFresh(r, e);
      AllocatedSound(r, e.bucket);
      CorrectionFits(r, e);
      PlainTombstones(applied, e);
      WithGrows(applied, e);
      ClaimSlot(e);
      BookAndAdvance(e, buffer);
      InstallCorrection(e);
      CorrectionMints(r, e);
    }

    /** Cache a correction and broadcast it. */
    method InstallCorrection(e: Event)
      requires Valid()
      modifies this`idempotencyCache, this`correctionTx
      ensures Valid() && View() == old(View()).(cache := old(idempotencyCache)[e.Idem() := e])
      ensures correctionTx == old(correctionTx) + [e]
    {
      hide Sound, ReplicaModel.Valid, CachesAgree, AccountsOk, Durable, Tombstones, Keyed, Storage.Indexes, WellFormed;
      Linked(eventBuffer);
      SoundParts(eventBuffer);
      SoundCaches(eventBuffer);
      KeyedWith(idempotencyCache, e);
      CacheFree(View(), idempotencyCache[e.Idem() := e]);
      idempotencyCache := idempotencyCache[e.Idem() := e];
      correctionTx := correctionTx + [e];
      SoundAgain(eventBuffer);
    }

    static lemma WithGrows(log: Log, e: Event)
      requires e.Key() !in log
      ensures LogGrows(log, With(log, e))
    {
    }

    static lemma GrowsTwice(log: Log, log': Log, log'': Log)
      requires LogGrows(log, log') && LogGrows(log', log'')
      ensures LogGrows(log, log'')
    {
    }

    static lemma CorrectionFits(r: Replica, e: Event)
      requires ReplicaModel.Valid(Minted(r, e))
      ensures ReplicaModel.Valid(r.(alloc := Allocator.AfterAllocate(r.alloc, e.bucket), applied := With(r.applied, e)))
    {
    }

    static lemma CorrectionMints(r: Replica, e: Event)
      ensures Minted(r, e) == r.(alloc := Allocator.AfterAllocate(r.alloc, e.bucket), applied := With(r.applied, e),
                                 cache := r.cache[e.Idem() := e])
    {
    }

    static lemma PlainTombstones(log: Log, e: Event)
      requires e.Key() !in log && e.MetaTargetBucket().None?
      ensures Tombstones(With(log, e)) == Tombstones(log)
    {
      TombstonesWith(log, e);
    }

    /** `check_idempotency_conflict`. */
    method CheckIdempotencyConflict(e: Event, m: Mint)
      requires Valid() && e.bucket !in deletedBuckets
      requires IdFresh(applied, m.first) && IdFresh(applied, m.second) && m.first != m.second
      modifies this, allocators, storage`rows
      ensures Valid() && View() == Resolve(old(View()), e, m).0 && LogGrows(old(applied), applied)
      ensures batchTx == old(batchTx) + Resolve(old(View()), e, m).1
      ensures correctionTx == old(correctionTx) + Resolve(old(View()), e, m).1 && clock == old(clock)
      ensures issued == old(issued)
    {
      hide Valid, Sound, Matching, EmitCorrections, Minted;
      CachedKey(e.Idem());
      if e.Idem() !in idempotencyCache || idempotencyCache[e.Idem()].id == e.id {
        CacheWinner(e.Idem(), e);
        return;
      }
      var (winner, loser) := IdempotencyWinner(idempotencyCache[e.Idem()], e);
      CacheWinner(e.Idem(), winner);
      if VoidKey(loser) in idempotencyCache {
        return;
      }
      var matches := storage.FindByIdempotencyKey(VoidKey(loser));
      if matches != {} {
        return;
      }
      EmitVoid(winner, loser, m, View());
    }

    lemma CachedKey(key: IdemKey)
      requires Valid()
      ensures key in idempotencyCache ==> idempotencyCache[key].Idem() == key
    {
    }

    /** Void the loser of a conflict and release its hold. */
    method EmitVoid(winner: Event, loser: Event, m: Mint, ghost v: Replica)
      requires v == View() && Valid() && loser.bucket !in v.deleted
      requires IdFresh(applied, m.first) && IdFresh(applied, m.second) && m.first != m.second
      modifies this, allocators, storage`rows
      ensures Valid() && View() == EmitCorrections(v, winner, loser, m).0 && LogGrows(old(applied), applied)
      ensures batchTx == old(batchTx) + EmitCorrections(v, winner, loser, m).1
      ensures correctionTx == old(correctionTx) + EmitCorrections(v, winner, loser, m).1 && clock == old(clock)
      ensures issued == old(issued)
    {
      hide Valid, Sound, Ahead, ReplicaModel.Valid, Minted, Allocator.AfterAllocate, Allocator.Consistent,
           Allocator.NextPair, LogGrows;
      AtRest();
      AheadAlloc(v);
      var voidPair := AllocateNext(loser.bucket, v);
      var voidEvent := Event(m.first, cfg.nodeId, voidPair.0, voidPair.1, m.now, Void, loser.bucket, loser.account, -loser.amount,
                             Some("void: duplicate of event " + winner.id), VoidNonce(loser.id), Some(loser.id), 0, 0, None);
      assert voidEvent == VoidEvent(v, winner, loser, m.now, m.first);
      NextAfter(v, voidEvent, voidEvent.(id := m.second));
      MintedParts(v, voidEvent);
      ApplyCorrectionEvent(voidEvent, v);
      if loser.HasHold() && ReleaseKey(loser) !in idempotencyCache {
        ghost var r1 := Minted(v, voidEvent);
        AtRest();
        AheadAlloc(r1);
        var releasePair := AllocateNext(loser.bucket, r1);
        var release := Event(m.second, cfg.nodeId, releasePair.0, releasePair.1, m.now, HoldRelease, loser.bucket, loser.account, 0,
                             Some("release hold: duplicate of event " + winner.id), ReleaseNonce(loser.id), Some(loser.id), 0, 0, None);
        assert release == LoserReleaseEvent(r1, winner, loser, m.now, m.second);
        ghost var between := applied;
        ApplyCorrectionEvent(release, r1);
        GrowsTwice(old(applied), between, applied);
      }
    }

    /** `insert_event`. */
    method InsertEvent(e: Event, m: Mint) returns (inserted: bool)
      requires Valid()
      requires Accepts(View(), e) ==> Deliverable(View(), e) && MintFresh(Admit(View(), e), m)
      modifies this, allocators, storage
      ensures Valid() && View() == Receive(old(View()), e, m).0
      ensures inserted <==> Accepts(old(View()), e)
      ensures inserted ==> e.Key() in applied && applied[e.Key()] == e
      ensures batchTx == old(batchTx) + (if inserted then [e] + Receive(old(View()), e, m).1 else [])
      ensures correctionTx == old(correctionTx) + Receive(old(View()), e, m).1 && clock == old(clock)
      ensures issued == old(issued)
    {
      hide Valid, Sound, Deliverable, Admit, Resolve;
      if e.bucket in deletedBuckets {
        return false;
      }
      var present := EventIsPresent(e);
      if e.Key() in eventBuffer {
        BufferedIsApplied(e.Key());
        return false;
      }
      if present {
        return false;
      }
      AdmittedIsLive(View(), e);
      AdmitEvent(e);
      CheckIdempotencyConflict(e, m);
      return true;
    }

    static lemma AdmittedIsLive(r: Replica, e: Event)
      requires Accepts(r, e)
      ensures e.bucket !in Admit(r, e).deleted
      ensures e.Key() in Admit(r, e).applied && Admit(r, e).applied[e.Key()] == e
    {
    }

    // ---- Persistence tracking ----

    /** Whether the head has passed an event and nothing holds it back. */
    predicate Folded(key: OriginKey)
      reads this
    {
      key.seqNo <= HeadAt(heads, key.line) && key.seqNo !in PendingAt(pendingSeqs, key.line)
    }

    /** One key of `mark_persisted`: folded events leave the buffer. In a valid
        state that is right if the event is durable, or not there at all. */
    method MarkOnePersisted(key: OriginKey)
      modifies this`unpersisted, this`eventBuffer
      ensures View() == old(View()) && unpersisted == old(unpersisted) - {key}
      ensures eventBuffer == if old(Folded(key)) then old(eventBuffer) - {key} else old(eventBuffer)
      ensures old(Valid()) && (key in applied ==> key in storage.events) ==> Valid()
    {
      hide Valid, Sound, ReplicaModel.Valid, CachesAgree, AccountsOk, Tombstones, Keyed, Storage.Indexes, Durable;
      ghost var sound := Valid() && (key in applied ==> key in storage.events);
      if sound {
        MarkedIsSound(key);
      }
      unpersisted := unpersisted - {key};
      var head := HeadAt(heads, key.line);
      var stillPending := key.line in pendingSeqs && key.seqNo in pendingSeqs[key.line];
      if key.seqNo <= head && !stillPending {
        eventBuffer := eventBuffer - {key};
      }
      if sound {
        SoundAgain(eventBuffer);
        ValidAgain();
      }
    }

    lemma ValidAgain()
      requires Sound(eventBuffer) && deletedBuckets.Keys == Tombstones(applied)
      ensures Valid()
    {
    }

    /** What remains of buffer and queue still agrees with log and storage. */
    lemma MarkedIsSound(key: OriginKey)
      requires Valid() && (key in applied ==> key in storage.events)
      ensures Durable(applied, storage.events, unpersisted - {key})
      ensures CachesAgree(applied, heads, pendingSeqs, maxKnownSeqs, accountOriginEpochs, digests, unpersisted - {key},
                          if Folded(key) then eventBuffer - {key} else eventBuffer)
      ensures allocators.storage == storage && storage.Valid() && ReplicaModel.Valid(View()) && Keyed(idempotencyCache)
      ensures booked == applied && AccountsOk(applied, accounts, clock, issued)
      ensures deletedBuckets.Keys == Tombstones(applied)
    {
      hide ReplicaModel.Valid, AccountsOk, Tombstones, Keyed, LinesOk, MaxKnownOk, OriginsOk, DigestsOk,
           Storage.Indexes, BufferOk, Durable;
      HeadSeen(key.line, key.seqNo);
      MarkedDurable(applied, storage.events, unpersisted, key);
      MarkedOk(applied, heads, unpersisted, eventBuffer, key, eventBuffer - {key});
    }

    lemma HeadSeen(line: EpochKey, s: nat)
      requires Valid()
      ensures s in PendingAt(pendingSeqs, line) ==> s > HeadAt(heads, line)
    {
    }

    static lemma MarkedOk(log: Log, heads: map<EpochKey, nat>, unpersisted: map<OriginKey, nat>, buffer: Log,
                          key: OriginKey, without: Log)
      requires BufferOk(log, heads, unpersisted, buffer) && without == buffer - {key}
      ensures BufferOk(log, heads, unpersisted - {key}, if key.seqNo <= HeadAt(heads, key.line) then without else buffer)
    {
    }

    static lemma MarkedDurable(log: Log, stored: Log, unpersisted: map<OriginKey, nat>, key: OriginKey)
      requires Durable(log, stored, unpersisted) && (key in log ==> key in stored)
      ensures Durable(log, stored, unpersisted - {key})
    {
    }

    /** `mark_persisted`. */
    method MarkPersisted(keys: seq<OriginKey>)
      modifies this`unpersisted, this`eventBuffer
      ensures View() == old(View())
      ensures unpersisted.Keys == old(unpersisted.Keys) - (set i | 0 <= i < |keys| :: keys[i])
      ensures forall k :: k in eventBuffer <==> k in old(eventBuffer) && !(k in keys && old(Folded(k)))
      ensures forall k :: k in eventBuffer ==> eventBuffer[k] == old(eventBuffer)[k]
      ensures old(Valid()) && (forall i :: 0 <= i < |keys| && keys[i] in applied ==> keys[i] in storage.events) ==> Valid()
    {
      hide Valid;
      for i := 0 to |keys|
        invariant View() == old(View())
        invariant old(Valid()) && (forall j :: 0 <= j < |keys| && keys[j] in applied ==> keys[j] in storage.events) ==> Valid()
        invariant unpersisted.Keys == old(unpersisted.Keys) - (set j | 0 <= j < i :: keys[j])
        invariant forall k :: k in eventBuffer <==> k in old(eventBuffer) && !(k in keys[..i] && old(Folded(k)))
        invariant forall k :: k in eventBuffer ==> eventBuffer[k] == old(eventBuffer)[k]
      {
        assert keys[..i + 1] == keys[..i] + [keys[i]];
        MarkOnePersisted(keys[i]);
      }
      assert keys[..|keys|] == keys;
    }

    /** `get_unpersisted_events`: the queued events that are old enough, each once. */
    method GetUnpersistedEvents(cutoff: nat) returns (found: seq<Event>)
      requires Valid()
      ensures Storage.BatchOf(applied, found)
      ensures forall i, j :: 0 <= i < j < |found| ==> found[i].Key() != found[j].Key()
      ensures Storage.KeySet(found) == set k | k in unpersisted && unpersisted[k] <= cutoff
    {
      QueuedIsBuffered();
      hide Valid;
      found := CollectQueued(unpersisted, eventBuffer, cutoff, applied);
    }

    lemma QueuedIsBuffered()
      requires Valid()
      ensures forall k :: k in unpersisted ==> k in eventBuffer && k in applied
      ensures forall k :: k in eventBuffer ==> k in applied && eventBuffer[k] == applied[k] && applied[k].Key() == k
    {
    }

    /** `get_events_from_buffer`: the buffered events of a seq range, in order. */
    method GetEventsFromBuffer(line: EpochKey, from: nat, to: nat) returns (found: seq<Event>)
      requires Valid()
      ensures Storage.IsRange(eventBuffer, line, from, to, found)
    {
      QueuedIsBuffered();
      hide Valid;
      found := Storage.ScanRange(eventBuffer, line, from, to);
    }

    /** `insert_events_bulk` on this node's storage. The state stays valid if it
        still holds the events, however many are stored already. */
    method StoreBatch(batch: seq<Event>)
      requires storage.Valid()
      modifies storage`events, storage`eventIds
      ensures storage.Valid() && storage.events == Storage.KeptAll(old(storage.events), batch)
      ensures View() == old(View()).(stored := storage.events)
      ensures old(Valid()) && Storage.BatchOf(applied, batch) ==>
        Valid() && storage.events.Keys == old(storage.events.Keys) + Storage.KeySet(batch)
    {
      hide Valid, Sound, ReplicaModel.Valid, CachesAgree, AccountsOk, Durable, Tombstones, Keyed, Storage.Indexes,
           WellFormed, StoredAgrees;
      hide Storage.KeptAll, Storage.KeySet, Storage.BatchOf;
      ghost var sound := Valid() && Storage.BatchOf(applied, batch);
      if sound {
        StoredBatch(batch);
      }
      var count := storage.InsertEventsBulk(batch);
      if sound {
        SoundAgain(eventBuffer);
        ValidAgain();
      }
    }

    lemma StoredBatch(batch: seq<Event>)
      requires Valid() && Storage.BatchOf(applied, batch)
      ensures var stored := Storage.KeptAll(storage.events, batch);
        && stored.Keys == storage.events.Keys + Storage.KeySet(batch)
        && ReplicaModel.Valid(View().(stored := stored)) && Durable(applied, stored, unpersisted)
      ensures allocators.storage == storage && booked == applied && AccountsOk(applied, accounts, clock, issued)
      ensures CachesAgree(applied, heads, pendingSeqs, maxKnownSeqs, accountOriginEpochs, digests, unpersisted, eventBuffer)
      ensures Keyed(idempotencyCache) && deletedBuckets.Keys == Tombstones(applied)
    {
      hide Sound, ReplicaModel.Valid, CachesAgree, AccountsOk, Durable, Tombstones, Keyed, Storage.Indexes,
           WellFormed, StoredAgrees;
      hide Storage.KeptAll, Storage.KeySet, Storage.BatchOf;
      Linked(eventBuffer);
      SoundParts(eventBuffer);
      SoundCaches(eventBuffer);
      Storage.KeptAllIsPersist(storage.events, applied, batch);
      StoredFree(View(), Storage.KeptAll(storage.events, batch));
      DurableStored(applied, storage.events, Storage.KeptAll(storage.events, batch), unpersisted);
    }

    /** The batch writer takes the oldest event off its channel. */
    method TakeQueued() returns (e: Event)
      requires batchTx != []
      modifies this`batchTx
      ensures old(Valid()) ==> Valid()
      ensures View() == old(View()) && e == old(batchTx)[0] && batchTx == old(batchTx)[1..]
    {
      hide ReplicaModel.Valid, CachesAgree, AccountsOk, Durable, Tombstones, Keyed, Storage.Indexes;
      e := batchTx[0];
      batchTx := batchTx[1..];
    }

    static lemma DurableStored(log: Log, stored: Log, stored': Log, unpersisted: map<OriginKey, nat>)
      requires Durable(log, stored, unpersisted) && stored.Keys <= stored'.Keys
      ensures Durable(log, stored', unpersisted)
    {
    }

    /** An applied event that storage lacks is queued and buffered. */
    lemma UnstoredIsQueuedAndBuffered(key: OriginKey)
      requires Valid() && key in applied && key !in storage.events
      ensures key in unpersisted && key in eventBuffer && eventBuffer[key] == applied[key]
    {
    }

    lemma LiveBucket(key: OriginKey)
      requires Valid() && key in applied
      ensures key.line.bucket !in deletedBuckets
    {
    }

    // ---- Sweeping and reads ----

    /** `sweep_expired_holds`: accounts locked by someone else are skipped. */
    method SweepExpiredHolds(now: nat, busy: set<BalanceKey>)
      requires Valid() && clock <= now
      modifies this`accounts, this`clock
      ensures Valid() && View() == old(View()) && clock == now
      ensures accounts == SweptAccounts(old(accounts), busy, now)
      ensures accounts.Keys == old(accounts.Keys) && forall owner :: owner in accounts ==>
        var (a, b) := (old(accounts[owner]), accounts[owner]);
        if owner in busy then b == a
        else
          && b.balance == a.balance && b.eventCount == a.eventCount
          && (forall id :: id in b.reservations <==> id in a.reservations && a.reservations[id].expires > now)
          && (forall id :: id in b.reservations ==> b.reservations[id] == a.reservations[id])
          && (forall id :: id in b.released <==> id in a.released && !(id in a.reservations && a.reservations[id].expires <= now))
    {
      hide Sound, ReplicaModel.Valid, CachesAgree, Tombstones, Keyed, Storage.Indexes, Durable, AccountsOk, WellFormed;
      Linked(eventBuffer);
      SoundParts(eventBuffer);
      SoundCaches(eventBuffer);
      AccountsSwept(applied, accounts, busy, clock, now, issued);
      accounts := SweepAll(accounts, busy, now);
      clock := now;
      SoundAgain(eventBuffer);
    }

    /** `account_available_balance`. */
    method AccountAvailableBalance(owner: BalanceKey, now: nat) returns (available: int)
      requires Valid() && clock <= now
      ensures available == Available(applied, owner, now)
    {
      hide *;
      AccountSeen(owner, now);
      available := AvailableBalance(AccountAt(accounts, owner), now);
    }

    /** `sync_gap`: the widest gap between a line's head and its highest known seq. */
    method SyncGap() returns (gap: nat)
      requires Valid()
      ensures gap == 0 <==> forall line :: PendingAt(pendingSeqs, line) == {}
      ensures forall line :: line in maxKnownSeqs ==> SaturatingSub(maxKnownSeqs[line], HeadAt(heads, line)) <= gap
      ensures gap > 0 ==> exists line :: line in maxKnownSeqs && SaturatingSub(maxKnownSeqs[line], HeadAt(heads, line)) == gap
    {
      hide ReplicaModel.Valid, AccountsOk, Durable, Tombstones, Keyed, OriginsOk, DigestsOk, BufferOk, LinesOk,
           MaxKnownOk, WellFormed;
      AtRest();
      NoGapMeansNothingPending(applied, heads, pendingSeqs, maxKnownSeqs);
      hide Valid;
      gap := WidestGap(heads, maxKnownSeqs);
    }
  }
}
