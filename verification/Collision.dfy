/** What happens to transfers whose credits share an idempotency key: two
    clients that know nothing of each other need only pick one nonce, one
    amount and one receiving account in one bucket. The keys of their requests
    differ, both are granted, and the cluster converges on one credit. */
module Collision {
  import opened Types
  import opened Sums
  import opened Ledger
  import opened ReplicaModel
  import opened Emission
  import opened Cluster
  import opened ExactlyOnce
  import Allocator

  // ---- Runs that ask nothing of credit keys ----

  ghost function LooseNext(s: System, step: Step): System {
    if Proper(s, step) then Taken(s, step) else s
  }

  ghost function LooseRun(s: System, steps: seq<Step>): System
    decreases |steps|
  {
    if steps == [] then s else LooseRun(LooseNext(s, steps[0]), steps[1..])
  }

  lemma RunStep(s: System, step: Step, rest: seq<Step>)
    ensures LooseRun(s, [step] + rest) == LooseRun(LooseNext(s, step), rest)
  {
    hide LooseNext;
    assert ([step] + rest)[1..] == rest;
  }

  // ---- Two transfers that clash ----

  /** Two nodes, two debited accounts, one credited account, one nonce; the
      ids of everything minted, three to each step. */
  datatype Clash = Clash(a: string, b: string, bucket: string, x: string, y: string, z: string, nonce: string,
                         amount: nat, ids: seq<string>)
  {
    ghost predicate Valid() {
      && a != b && x != y && x != z && y != z && 0 < amount <= I64_MAX && IsClientNonce(nonce) && !IsReservedBucketName(bucket)
      && |ids| == 21 && forall i, j :: 0 <= i < j < 21 ==> ids[i] != ids[j]
    }

    function MintAt(step: nat): Mint
      requires |ids| == 21 && 1 <= step <= 7
    {
      Mint(step, ids[3 * step - 3], ids[3 * step - 2], ids[3 * step - 1])
    }

    function Transfer(from: string): Input {
      Input(bucket, from, -(amount as int), None, amount, nonce, false, None, None, None, None, true, Some(z))
    }

    function Debit(node: string, from: string, id: string, now: nat): Event {
      Event(id, node, 1, 1, now, Standard, bucket, from, -(amount as int), None, nonce, None, 0, 0, Some(z))
    }

    function Credit(node: string, id: string, now: nat): Event {
      Event(id, node, 1, 2, now, Standard, bucket, z, amount, None, CreditNonce(nonce), None, 0, 0, None)
    }

    function DebitX(): Event requires |ids| == 21 { Debit(a, x, ids[1], 1) }
    function CreditX(): Event requires |ids| == 21 { Credit(a, ids[2], 1) }
    function DebitY(): Event requires |ids| == 21 { Debit(b, y, ids[4], 2) }
    function CreditY(): Event requires |ids| == 21 { Credit(b, ids[5], 2) }

    /** The void that node `a` mints when the later credit reaches it. */
    function Voided(): Event requires |ids| == 21 {
      Event(ids[6], a, 1, 3, 3, Void, bucket, z, -(amount as int), Some("void: duplicate of event " + ids[2]),
            VoidNonce(ids[5]), Some(ids[5]), 0, 0, None)
    }

    function VoidedKey(): IdemKey requires |ids| == 21 {
      IdemKey(VoidNonce(ids[5]), bucket, z, -(amount as int))
    }

    function Fresh(node: string): Replica {
      Replica(Config(node, 0, 0), map[], map[], {}, map[], Allocator.AllocState(map[], map[]))
    }

    function Start(): System {
      System(map[a := Fresh(a), b := Fresh(b)], {}, map[], map[])
    }

    function Steps(): seq<Step> requires |ids| == 21 {
      [Create(a, Transfer(x), MintAt(1))] + ([Create(b, Transfer(y), MintAt(2))]
      + ([Deliver(a, CreditY(), MintAt(3))] + ([Deliver(a, DebitY(), MintAt(4))]
      + ([Deliver(b, Voided(), MintAt(5))] + ([Deliver(b, CreditX(), MintAt(6))]
      + ([Deliver(b, DebitX(), MintAt(7))] + []))))))
    }
  }

  // ---- What each step does ----

  /** A node that only received and minted so far, with the given log and cache, and so many own seqs. */
  predicate Holding(r: Replica, node: string, bucket: string, log: Log, cache: map<IdemKey, Event>, next: nat) {
    && r.cfg == Config(node, 0, 0) && r.applied == log && r.cache == cache && r.deleted == {} && r.stored == map[]
    && NextPair(r, bucket) == (1, next)
  }

  lemma NothingStored(key: IdemKey)
    ensures Matching(map[], key) == {}
  {
  }

  lemma NothingAvailable(owner: BalanceKey, now: nat)
    ensures Available(map[], owner, now) == 0
  {
    assert EventsOf(map[], owner) == {} && ActiveHolds(map[], owner, now) == {};
  }

  lemma NextAfterMint(r: Replica, e: Event)
    requires NextPair(r, e.bucket) == (e.epoch, e.seqNo) && Allocator.Consistent(r.alloc)
    ensures NextPair(Minted(r, e), e.bucket) == (e.epoch, e.seqNo + 1) && Allocator.Consistent(Minted(r, e).alloc)
  {
    Allocator.AllocateAdvances(r.alloc, e.bucket);
  }

  /** A first transfer on a fresh node is granted and mints debit and credit. */
  lemma TransferGranted(c: Clash, node: string, from: string, m: Mint)
    requires c.Valid() && from != c.z
    ensures var outcome := CreateLocal(c.Fresh(node), c.Transfer(from), m);
      var (debit, credit) := (c.Debit(node, from, m.second, m.now), c.Credit(node, m.third, m.now));
      && outcome.1 == Created(debit, [debit, credit])
      && Holding(outcome.0, node, c.bucket, With(With(map[], debit), credit), map[debit.Idem() := debit, credit.Idem() := credit], 3)
      && Allocator.Consistent(outcome.0.alloc)
  {
    var r, input := c.Fresh(node), c.Transfer(from);
    var debit, credit := c.Debit(node, from, m.second, m.now), c.Credit(node, m.third, m.now);
    NothingStored(input.Idem());
    NothingAvailable(input.Owner(), m.now);
    GrantedByGuard(r, input, m);
    Allocator.FirstPair(c.bucket);
    hide CreateLocal, WrapI64;
    assert ChargeEvent(r, input, m.now, m.second) == debit;
    NextAfterMint(r, debit);
    var r1 := Minted(r, debit);
    assert CreditEvent(r1, input, c.z, m.now, m.third) == credit;
    NextAfterMint(r1, credit);
    assert [] + [debit, credit] == [debit, credit];
  }

  lemma GrantedByGuard(r: Replica, input: Input, m: Mint)
    requires Available(r.applied, input.Owner(), m.now) == 0 && input.amount + input.maxOverdraft == 0
    requires input.amount < 0
    requires input.skipHold && input.holdAmount.None? && input.holdExpires.None? && input.settleReservation.None?
    requires input.releaseReservation.None?
    requires input.Idem() !in r.cache && Matching(r.stored, input.Idem()) == {} && input.bucket !in r.deleted
    requires !IsReservedBucketName(input.bucket) && !Overflows(input)
    ensures CreateLocal(r, input, m) == EmitTransfer(r, input, [], m)
  {
    assert ModeOf(input, m.now) == Selected(Charge(Some((0, 0))));
    assert WrapI64(input.amount) == Floor(input.maxOverdraft);
    hide Available, Matching, WrapI64, Balance, EmitTransfer;
  }

  /** An event of a key the cache does not know is added and cached. */
  lemma FirstOfKey(r: Replica, e: Event, m: Mint)
    requires Accepts(r, e) && e.MetaTargetBucket().None? && e.Idem() !in r.cache
    ensures Receive(r, e, m) == (r.(applied := With(r.applied, e), cache := r.cache[e.Idem() := e]), [])
  {
  }

  /** A later event of a known key is voided, unless the void is known. */
  lemma LaterOfKey(r: Replica, e: Event, winner: Event, m: Mint)
    requires Accepts(r, e) && e.MetaTargetBucket().None? && !e.HasHold() && r.stored == map[]
    requires e.Idem() in r.cache && r.cache[e.Idem()] == winner && winner.id != e.id && winner.createdAt < e.createdAt
    requires VoidKey(e) !in r.cache && VoidKey(e) != e.Idem()
    ensures var r1 := r.(applied := With(r.applied, e), cache := r.cache[e.Idem() := winner]);
      Receive(r, e, m) == (Minted(r1, VoidEvent(r1, winner, e, m.now, m.first)), [VoidEvent(r1, winner, e, m.now, m.first)])
  {
    NothingStored(VoidKey(e));
    hide Minted, Matching;
    assert IdempotencyWinner(winner, e) == (winner, e);
  }

  /** An earlier event of a known key takes over; the void of the other is known. */
  lemma EarlierOfKey(r: Replica, e: Event, loser: Event, m: Mint)
    requires Accepts(r, e) && e.MetaTargetBucket().None?
    requires e.Idem() in r.cache && r.cache[e.Idem()] == loser && loser.id != e.id && e.createdAt < loser.createdAt
    requires VoidKey(loser) in r.cache
    ensures Receive(r, e, m) == (r.(applied := With(r.applied, e), cache := r.cache[e.Idem() := e]), [])
  {
    assert IdempotencyWinner(loser, e) == (e, loser);
  }

  lemma TakesDelivery(s: System, n: string, e: Event, m: Mint)
    requires n in s.nodes && NewIds(s, m) && e in s.minted
    ensures var (r', corrections) := Receive(s.nodes[n], e, m);
      var s' := LooseNext(s, Deliver(n, e, m));
      && s'.nodes == s.nodes[n := r'] && s'.minted == s.minted + (set x | x in corrections) && s'.intents == s.intents
  {
    hide Receive, Stewards, NewIds;
  }

  lemma TakesRequest(s: System, n: string, input: Input, m: Mint)
    requires n in s.nodes && NewIds(s, m) && Faithful(s, input) && CreateLocal(s.nodes[n], input, m).1.Created?
    ensures var (r', result) := CreateLocal(s.nodes[n], input, m);
      var s' := LooseNext(s, Create(n, input, m));
      && s'.nodes == s.nodes[n := r'] && s'.minted == s.minted + (set x | x in result.emitted)
      && s'.intents == s.intents[input.Idem() := Intent(input)]
  {
    hide CreateLocal, Stewards, NewIds;
  }

  // ---- The two nodes ----

  /** The clash's events differ in their keys as far as the protocol sees it,
      and only the two credits share an idempotency key. */
  lemma KeysApart(c: Clash)
    requires c.Valid()
    ensures c.CreditX().Idem() == c.CreditY().Idem() && c.VoidedKey() == c.Voided().Idem() == VoidKey(c.CreditY())
    ensures c.DebitX().Idem() != c.DebitY().Idem() && c.DebitX().Idem() != c.CreditX().Idem()
    ensures c.DebitY().Idem() != c.CreditX().Idem()
    ensures c.VoidedKey() != c.DebitX().Idem() && c.VoidedKey() != c.DebitY().Idem()
    ensures c.VoidedKey() != c.CreditX().Idem()
  {
    DerivedNonceClasses(c.nonce);
    DerivedNonceClasses(c.ids[5]);
  }

  function LogA(c: Clash): Log
    requires |c.ids| == 21
  {
    With(With(With(With(With(map[], c.DebitX()), c.CreditX()), c.CreditY()), c.Voided()), c.DebitY())
  }

  function LogB(c: Clash): Log
    requires |c.ids| == 21
  {
    With(With(With(With(With(map[], c.DebitY()), c.CreditY()), c.Voided()), c.CreditX()), c.DebitX())
  }

  /** Node `a`: its own transfer, the other credit, which it voids, and the other debit. */
  lemma AtNodeA(c: Clash)
    requires c.Valid()
    ensures var first := CreateLocal(c.Fresh(c.a), c.Transfer(c.x), c.MintAt(1));
      var second := Receive(first.0, c.CreditY(), c.MintAt(3));
      var third := Receive(second.0, c.DebitY(), c.MintAt(4));
      && first.1 == Created(c.DebitX(), [c.DebitX(), c.CreditX()])
      && second.1 == [c.Voided()] && third.1 == []
      && third.0.applied == LogA(c) && third.0.deleted == {}
  {
    KeysApart(c);
    TransferGranted(c, c.a, c.x, c.MintAt(1));
    var r1 := CreateLocal(c.Fresh(c.a), c.Transfer(c.x), c.MintAt(1)).0;
    hide CreateLocal, Receive, Resolve, Clash.Valid;
    var r2 := AVoids(c, r1);
    ATakesDebit(c, r2);
  }

  lemma AVoids(c: Clash, r1: Replica) returns (r2: Replica)
    requires c.Valid()
    requires Holding(r1, c.a, c.bucket, With(With(map[], c.DebitX()), c.CreditX()),
                     map[c.DebitX().Idem() := c.DebitX(), c.CreditX().Idem() := c.CreditX()], 3)
    ensures Receive(r1, c.CreditY(), c.MintAt(3)) == (r2, [c.Voided()])
    ensures r2.applied == With(With(r1.applied, c.CreditY()), c.Voided()) && r2.deleted == {}
    ensures r2.cache == r1.cache[c.CreditX().Idem() := c.CreditX()][c.VoidedKey() := c.Voided()]
  {
    KeysApart(c);
    LaterOfKey(r1, c.CreditY(), c.CreditX(), c.MintAt(3));
    hide Receive, Resolve;
    var admitted := r1.(applied := With(r1.applied, c.CreditY()), cache := r1.cache[c.CreditY().Idem() := c.CreditX()]);
    assert VoidEvent(admitted, c.CreditX(), c.CreditY(), 3, c.ids[6]) == c.Voided();
    r2 := Minted(admitted, c.Voided());
  }

  lemma ATakesDebit(c: Clash, r2: Replica)
    requires c.Valid() && r2.deleted == {}
    requires r2.applied == With(With(With(With(map[], c.DebitX()), c.CreditX()), c.CreditY()), c.Voided())
    requires r2.cache == map[c.DebitX().Idem() := c.DebitX(), c.CreditX().Idem() := c.CreditX()]
      [c.CreditX().Idem() := c.CreditX()][c.VoidedKey() := c.Voided()]
    ensures Receive(r2, c.DebitY(), c.MintAt(4)).1 == []
    ensures Receive(r2, c.DebitY(), c.MintAt(4)).0.applied == With(r2.applied, c.DebitY())
    ensures Receive(r2, c.DebitY(), c.MintAt(4)).0.deleted == {}
  {
    KeysApart(c);
    FirstOfKey(r2, c.DebitY(), c.MintAt(4));
    hide Receive, Resolve;
  }

  /** Node `b`: its own transfer, the void from `a`, the winning credit and the other debit. */
  lemma AtNodeB(c: Clash)
    requires c.Valid()
    ensures var first := CreateLocal(c.Fresh(c.b), c.Transfer(c.y), c.MintAt(2));
      var second := Receive(first.0, c.Voided(), c.MintAt(5));
      var third := Receive(second.0, c.CreditX(), c.MintAt(6));
      var fourth := Receive(third.0, c.DebitX(), c.MintAt(7));
      && first.1 == Created(c.DebitY(), [c.DebitY(), c.CreditY()])
      && second.1 == [] && third.1 == [] && fourth.1 == []
      && fourth.0.applied == LogB(c) && fourth.0.deleted == {}
  {
    KeysApart(c);
    TransferGranted(c, c.b, c.y, c.MintAt(2));
    var r1 := CreateLocal(c.Fresh(c.b), c.Transfer(c.y), c.MintAt(2)).0;
    BTakesAll(c, r1);
  }

  lemma BTakesAll(c: Clash, r1: Replica)
    requires c.Valid() && r1.deleted == {} && r1.applied == With(With(map[], c.DebitY()), c.CreditY())
    requires r1.cache == map[c.DebitY().Idem() := c.DebitY(), c.CreditY().Idem() := c.CreditY()]
    ensures var second := Receive(r1, c.Voided(), c.MintAt(5));
      var third := Receive(second.0, c.CreditX(), c.MintAt(6));
      var fourth := Receive(third.0, c.DebitX(), c.MintAt(7));
      && second.1 == [] && third.1 == [] && fourth.1 == [] && fourth.0.applied == LogB(c) && fourth.0.deleted == {}
  {
    KeysApart(c);
    FirstOfKey(r1, c.Voided(), c.MintAt(5));
    hide Receive, Resolve;
    BTakesRest(c, Receive(r1, c.Voided(), c.MintAt(5)).0);
  }

  lemma BTakesRest(c: Clash, r2: Replica)
    requires c.Valid() && r2.deleted == {} && r2.applied == With(With(With(map[], c.DebitY()), c.CreditY()), c.Voided())
    requires r2.cache == map[c.DebitY().Idem() := c.DebitY(), c.CreditY().Idem() := c.CreditY()][c.VoidedKey() := c.Voided()]
    ensures var third := Receive(r2, c.CreditX(), c.MintAt(6));
      var fourth := Receive(third.0, c.DebitX(), c.MintAt(7));
      && third.1 == [] && fourth.1 == [] && fourth.0.applied == LogB(c) && fourth.0.deleted == {}
  {
    KeysApart(c);
    EarlierOfKey(r2, c.CreditX(), c.CreditY(), c.MintAt(6));
    hide Receive, Resolve;
    FirstOfKey(Receive(r2, c.CreditX(), c.MintAt(6)).0, c.DebitX(), c.MintAt(7));
  }

  // ---- The books ----

  lemma LogsMeet(c: Clash)
    requires c.Valid()
    ensures LogA(c) == LogB(c)
  {
  }

  function Share(e: Event, owner: BalanceKey): int {
    if e.Owner() == owner then e.amount else 0
  }

  lemma OneMore(log: Log, e: Event, owner: BalanceKey)
    requires WellFormed(log) && e.Key() !in log && IdFresh(log, e.id) && e.seqNo >= 1
    ensures WellFormed(With(log, e)) && Balance(With(log, e), owner) == Balance(log, owner) + Share(e, owner)
    ensures forall k :: k in With(log, e) <==> k in log || k == e.Key()
    ensures forall id :: IdFresh(log, id) && id != e.id ==> IdFresh(With(log, e), id)
  {
    WithWellFormed(log, e);
    BalanceWith(log, e, owner);
  }

  function SharesOf(events: seq<Event>, owner: BalanceKey): int {
    if events == [] then 0 else Share(events[0], owner) + SharesOf(events[1..], owner)
  }

  /** What a list of new events books to an account. */
  lemma {:induction false} BooksAll(log: Log, events: seq<Event>, owner: BalanceKey)
    requires WellFormed(log) && Recordable(log, events)
    ensures Balance(WithAll(log, events), owner) == Balance(log, owner) + SharesOf(events, owner)
    decreases |events|
  {
    if events != [] {
      var e, rest := events[0], events[1..];
      OneMore(log, e, owner);
      hide WellFormed, With, Balance, Share, IdFresh, Event.Key;
      forall i | 0 <= i < |rest|
        ensures rest[i].Key() !in With(log, e) && rest[i].seqNo >= 1 && IdFresh(With(log, e), rest[i].id)
      {
        assert rest[i] == events[i + 1];
      }
      forall i, j | 0 <= i < j < |rest|
        ensures rest[i].Key() != rest[j].Key() && rest[i].id != rest[j].id
      {
        assert rest[i] == events[i + 1] && rest[j] == events[j + 1];
      }
      BooksAll(With(log, e), rest, owner);
    }
  }

  lemma FiveInTurn(e1: Event, e2: Event, e3: Event, e4: Event, e5: Event, owner: BalanceKey)
    ensures WithAll(map[], [e1, e2, e3, e4, e5]) == With(With(With(With(With(map[], e1), e2), e3), e4), e5)
    ensures SharesOf([e1, e2, e3, e4, e5], owner)
      == Share(e1, owner) + Share(e2, owner) + Share(e3, owner) + Share(e4, owner) + Share(e5, owner)
  {
    hide With, Share;
    var l1 := With(map[], e1);
    var l2 := With(l1, e2);
    var l3 := With(l2, e3);
    InTurn(map[], e1, [e2, e3, e4, e5], owner);
    InTurn(l1, e2, [e3, e4, e5], owner);
    InTurn(l2, e3, [e4, e5], owner);
    InTurn(l3, e4, [e5], owner);
    InTurn(With(l3, e4), e5, [], owner);
    assert [e1] + [e2, e3, e4, e5] == [e1, e2, e3, e4, e5] && [e2] + [e3, e4, e5] == [e2, e3, e4, e5];
    assert [e3] + [e4, e5] == [e3, e4, e5] && [e4] + [e5] == [e4, e5] && [e5] + [] == [e5];
  }

  lemma InTurn(log: Log, e: Event, rest: seq<Event>, owner: BalanceKey)
    ensures WithAll(log, [e] + rest) == WithAll(With(log, e), rest)
    ensures SharesOf([e] + rest, owner) == Share(e, owner) + SharesOf(rest, owner)
  {
    assert ([e] + rest)[1..] == rest;
  }

  lemma OneCreditLeft(c: Clash)
    requires c.Valid()
    ensures Balance(LogA(c), BalanceKey(c.bucket, c.z)) == c.amount
    ensures Balance(LogA(c), BalanceKey(c.bucket, c.x)) == Balance(LogA(c), BalanceKey(c.bucket, c.y)) == -(c.amount as int)
  {
    var x, y, z := BalanceKey(c.bucket, c.x), BalanceKey(c.bucket, c.y), BalanceKey(c.bucket, c.z);
    BooksA(c, x);
    BooksA(c, y);
    BooksA(c, z);
  }

  lemma BooksA(c: Clash, owner: BalanceKey)
    requires c.Valid()
    ensures Balance(LogA(c), owner) == Share(c.DebitX(), owner) + Share(c.CreditX(), owner) + Share(c.CreditY(), owner)
                                       + Share(c.Voided(), owner) + Share(c.DebitY(), owner)
  {
    var log: Log := map[];
    var events := [c.DebitX(), c.CreditX(), c.CreditY(), c.Voided(), c.DebitY()];
    NothingBooked(owner);
    EventsAreNew(c);
    hide Balance, With, Share, WithAll, SharesOf, Recordable, WellFormed;
    FiveInTurn(c.DebitX(), c.CreditX(), c.CreditY(), c.Voided(), c.DebitY(), owner);
    BooksAll(log, events, owner);
  }

  lemma EventsAreNew(c: Clash)
    requires c.Valid()
    ensures WellFormed(map[]) && Recordable(map[], [c.DebitX(), c.CreditX(), c.CreditY(), c.Voided(), c.DebitY()])
  {
  }

  lemma NothingBooked(owner: BalanceKey)
    ensures Balance(map[], owner) == 0
  {
    assert EventsOf(map[], owner) == {};
  }

  lemma TwoCreditsPromised(c: Clash)
    requires c.Valid()
    ensures PromisedBalance(map[c.DebitX().Idem() := Some(c.z), c.DebitY().Idem() := Some(c.z)], BalanceKey(c.bucket, c.z))
      == 2 * c.amount
  {
    KeysApart(c);
    var z := BalanceKey(c.bucket, c.z);
    var intents := map[c.DebitX().Idem() := Some(c.z), c.DebitY().Idem() := Some(c.z)];
    assert ExactlyOnce.KeysOf(intents.Keys, z) == {};
    var one := {c.DebitX().Idem()};
    var none: set<IdemKey> := {};
    assert TransfersTo(intents, z) == one + {c.DebitY().Idem()};
    assert none + {c.DebitX().Idem()} == one;
    SumInsert(none, AbsAmount, c.DebitX().Idem());
    SumInsert(one, AbsAmount, c.DebitY().Idem());
  }

  // ---- The run ----

  ghost function A1(c: Clash): Replica requires |c.ids| == 21 { CreateLocal(c.Fresh(c.a), c.Transfer(c.x),
                    c.MintAt(1)).0 }
  ghost function A2(c: Clash): Replica requires |c.ids| == 21 { Receive(A1(c), c.CreditY(), c.MintAt(3)).0 }
  ghost function A3(c: Clash): Replica requires |c.ids| == 21 { Receive(A2(c), c.DebitY(), c.MintAt(4)).0 }
  ghost function B1(c: Clash): Replica requires |c.ids| == 21 { CreateLocal(c.Fresh(c.b), c.Transfer(c.y),
                    c.MintAt(2)).0 }
  ghost function B2(c: Clash): Replica requires |c.ids| == 21 { Receive(B1(c), c.Voided(), c.MintAt(5)).0 }
  ghost function B3(c: Clash): Replica requires |c.ids| == 21 { Receive(B2(c), c.CreditX(), c.MintAt(6)).0 }
  ghost function B4(c: Clash): Replica requires |c.ids| == 21 { Receive(B3(c), c.DebitX(), c.MintAt(7)).0 }

  lemma IdsNew(c: Clash, s: System, step: nat)
    requires c.Valid() && 1 <= step <= 7
    requires forall e :: e in s.minted ==>
      || e.id == c.ids[1] || e.id == c.ids[2] || (step > 2 && (e.id == c.ids[4] || e.id == c.ids[5])) || (step > 3 && e.id == c.ids[6])
    requires step == 1 ==> s.minted == {}
    ensures NewIds(s, c.MintAt(step))
  {
  }

  lemma NodeResults(c: Clash)
    requires c.Valid()
    ensures CreateLocal(c.Fresh(c.a), c.Transfer(c.x), c.MintAt(1)) == (A1(c), Created(c.DebitX(), [c.DebitX(), c.CreditX()]))
    ensures CreateLocal(c.Fresh(c.b), c.Transfer(c.y), c.MintAt(2)) == (B1(c), Created(c.DebitY(), [c.DebitY(), c.CreditY()]))
    ensures Receive(A1(c), c.CreditY(), c.MintAt(3)) == (A2(c), [c.Voided()])
    ensures Receive(A2(c), c.DebitY(), c.MintAt(4)) == (A3(c), [])
    ensures Receive(B1(c), c.Voided(), c.MintAt(5)) == (B2(c), [])
    ensures Receive(B2(c), c.CreditX(), c.MintAt(6)) == (B3(c), [])
    ensures Receive(B3(c), c.DebitX(), c.MintAt(7)) == (B4(c), [])
    ensures A3(c).applied == B4(c).applied == LogA(c) && A3(c).deleted == B4(c).deleted == {}
  {
    AtNodeA(c);
    AtNodeB(c);
    LogsMeet(c);
    hide CreateLocal, Receive, LogA, LogB, Clash.Valid, Clash.DebitX, Clash.DebitY, Clash.CreditX, Clash.CreditY,
         Clash.Voided;
  }

  lemma TransferIs(c: Clash, from: string)
    requires c.Valid()
    ensures c.Transfer(from).Idem() == IdemKey(c.nonce, c.bucket, from, -(c.amount as int))
    ensures Intent(c.Transfer(from)) == Some(c.z)
    ensures from != c.z ==> Faithful(System(map[], {}, map[], map[]), c.Transfer(from))
  {
  }

  /** One request of the run. */
  lemma OneRequest(c: Clash, s: System, step: nat, n: string, from: string, debit: Event, credit: Event,
                   rest: seq<Step>)
    returns (s': System)
    requires c.Valid() && 1 <= step <= 2 && n in s.nodes && from != c.z && debit.Idem() == c.Transfer(from).Idem()
    requires s.minted == if step == 1 then {} else {c.DebitX(), c.CreditX()}
    requires debit.Idem() !in s.intents
    requires CreateLocal(s.nodes[n], c.Transfer(from), c.MintAt(step)).1 == Created(debit, [debit, credit])
    ensures LooseRun(s, [Create(n, c.Transfer(from), c.MintAt(step))] + rest) == LooseRun(s', rest)
    ensures s'.nodes == s.nodes[n := CreateLocal(s.nodes[n], c.Transfer(from), c.MintAt(step)).0]
    ensures s'.minted == s.minted + {debit, credit} && s'.intents == s.intents[debit.Idem() := Some(c.z)]
  {
    hide LooseRun, LooseNext, CreateLocal;
    IdsNew(c, s, step);
    TransferIs(c, from);
    TakesRequest(s, n, c.Transfer(from), c.MintAt(step));
    RunStep(s, Create(n, c.Transfer(from), c.MintAt(step)), rest);
    s' := LooseNext(s, Create(n, c.Transfer(from), c.MintAt(step)));
    assert (set x | x in [debit, credit]) == {debit, credit};
  }

  lemma ClashParts(c: Clash)
    requires c.Valid()
    ensures c.a != c.b && c.x != c.z && c.y != c.z && |c.ids| == 21
    ensures c.DebitX().Idem() == c.Transfer(c.x).Idem() && c.DebitY().Idem() == c.Transfer(c.y).Idem()
    ensures c.DebitX().Idem() != c.DebitY().Idem()
    ensures c.Start().nodes == map[c.a := c.Fresh(c.a), c.b := c.Fresh(c.b)] && c.Start().minted == {}
    ensures c.Start().intents == map[]
  {
  }

  lemma BothRequests(c: Clash, rest: seq<Step>) returns (s: System)
    requires c.Valid()
    ensures LooseRun(c.Start(), [Create(c.a, c.Transfer(c.x), c.MintAt(1))]
                                + ([Create(c.b, c.Transfer(c.y), c.MintAt(2))] + rest)) == LooseRun(s, rest)
    ensures s.nodes == map[c.a := A1(c), c.b := B1(c)]
    ensures s.minted == {c.DebitX(), c.CreditX(), c.DebitY(), c.CreditY()}
    ensures s.intents == map[c.DebitX().Idem() := Some(c.z), c.DebitY().Idem() := Some(c.z)]
  {
    hide *;
    ClashParts(c);
    NodeResults(c);
    var s1 := OneRequest(c, c.Start(), 1, c.a, c.x, c.DebitX(), c.CreditX(), [Create(c.b, c.Transfer(c.y), c.MintAt(2))] + rest);
    s := OneRequest(c, s1, 2, c.b, c.y, c.DebitY(), c.CreditY(), rest);
  }

  /** One delivery of the run. */
  lemma OneDelivery(c: Clash, s: System, step: nat, n: string, e: Event, rest: seq<Step>) returns (s': System)
    requires c.Valid() && 3 <= step <= 7 && n in s.nodes && e in s.minted
    requires forall x :: x in s.minted ==> x in {c.DebitX(), c.CreditX(), c.DebitY(), c.CreditY()} || (step > 3 && x == c.Voided())
    ensures LooseRun(s, [Deliver(n, e, c.MintAt(step))] + rest) == LooseRun(s', rest)
    ensures s'.nodes == s.nodes[n := Receive(s.nodes[n], e, c.MintAt(step)).0] && s'.intents == s.intents
    ensures s'.minted == s.minted + (set x | x in Receive(s.nodes[n], e, c.MintAt(step)).1)
  {
    hide LooseRun, LooseNext, Receive;
    IdsNew(c, s, step);
    TakesDelivery(s, n, e, c.MintAt(step));
    RunStep(s, Deliver(n, e, c.MintAt(step)), rest);
    s' := LooseNext(s, Deliver(n, e, c.MintAt(step)));
  }

  lemma TheRun(c: Clash)
    requires c.Valid()
    ensures var end := LooseRun(c.Start(), c.Steps());
      && end.nodes == map[c.a := A3(c), c.b := B4(c)]
      && end.intents == map[c.DebitX().Idem() := Some(c.z), c.DebitY().Idem() := Some(c.z)]
  {
    hide *;
    ClashParts(c);
    NodeResults(c);
    StepsAre(c);
    var t7 := [Deliver(c.b, c.DebitX(), c.MintAt(7))] + [];
    var t6 := [Deliver(c.b, c.CreditX(), c.MintAt(6))] + t7;
    var t5 := [Deliver(c.b, c.Voided(), c.MintAt(5))] + t6;
    var t4 := [Deliver(c.a, c.DebitY(), c.MintAt(4))] + t5;
    var t3 := [Deliver(c.a, c.CreditY(), c.MintAt(3))] + t4;
    var s2 := BothRequests(c, t3);
    var s3 := OneDelivery(c, s2, 3, c.a, c.CreditY(), t4);
    assert s3.minted == {c.DebitX(), c.CreditX(), c.DebitY(), c.CreditY()} + {c.Voided()};
    var s4 := OneDelivery(c, s3, 4, c.a, c.DebitY(), t5);
    assert s4.minted == s3.minted;
    var s5 := OneDelivery(c, s4, 5, c.b, c.Voided(), t6);
    var s6 := OneDelivery(c, s5, 6, c.b, c.CreditX(), t7);
    var s7 := OneDelivery(c, s6, 7, c.b, c.DebitX(), []);
    NothingLeft(s7);
  }

  lemma StepsAre(c: Clash)
    requires |c.ids| == 21
    ensures c.Steps() == [Create(c.a, c.Transfer(c.x), c.MintAt(1))] + ([Create(c.b, c.Transfer(c.y), c.MintAt(2))]
      + ([Deliver(c.a, c.CreditY(), c.MintAt(3))] + ([Deliver(c.a, c.DebitY(), c.MintAt(4))]
      + ([Deliver(c.b, c.Voided(), c.MintAt(5))] + ([Deliver(c.b, c.CreditX(), c.MintAt(6))]
      + ([Deliver(c.b, c.DebitX(), c.MintAt(7))] + []))))))
  {
  }

  lemma NothingLeft(s: System)
    ensures LooseRun(s, []) == s
  {
  }

  /** The cluster converges on one credit where its clients were promised two:
      whatever the names and the amount, a granted transfer's money is lost,
      while both debits stay. */
  lemma CollidingTransfersLoseMoney(c: Clash)
    requires c.Valid()
    ensures Initial(c.Start())
    ensures var end := LooseRun(c.Start(), c.Steps());
      var z := BalanceKey(c.bucket, c.z);
      && end.nodes.Keys == {c.a, c.b} && Live(end, c.bucket) && Converged(end, c.bucket)
      && Balance(end.nodes[c.a].applied, z) == Balance(end.nodes[c.b].applied, z) == c.amount
      && PromisedBalance(end.intents, z) == 2 * c.amount
      && Balance(end.nodes[c.a].applied, BalanceKey(c.bucket, c.x)) == -(c.amount as int)
      && Balance(end.nodes[c.a].applied, BalanceKey(c.bucket, c.y)) == -(c.amount as int)
  {
    hide *;
    ClashParts(c);
    StartIsInitial(c);
    NodeResults(c);
    OneCreditLeft(c);
    TwoCreditsPromised(c);
    TheRun(c);
    TwoNodes(LooseRun(c.Start(), c.Steps()), c.a, c.b, A3(c), B4(c), c.bucket);
  }

  /** A void needs a delivery: a node that mints the credit itself installs it
      unchecked, whatever credit its cache has under the key, and the receiving
      account gets the money. */
  lemma OwnCreditIsKept(r: Replica, input: Input, m: Mint)
    requires ReplicaModel.Valid(r) && input.bucket !in r.deleted && input.transferTo.Some?
    requires input.transferTo != Some(input.account)
    requires IdFresh(r.applied, m.second) && IdFresh(r.applied, m.third) && m.second != m.third && !Overflows(input)
    ensures var to := BalanceKey(input.bucket, input.transferTo.value);
      && Balance(EmitTransfer(r, input, [], m).0.applied, to) == Balance(r.applied, to) + Abs(input.amount)
      && forall e :: e in EmitTransfer(r, input, [], m).1.emitted ==> e.kind == Standard
  {
    var to := BalanceKey(input.bucket, input.transferTo.value);
    var charge := ChargeEvent(r, input, m.now, m.second);
    var r1 := Minted(r, charge);
    var credit := CreditEvent(r1, input, input.transferTo.value, m.now, m.third);
    MintedFresh(r, charge);
    NextAfter(r, charge, credit);
    MintedFresh(r1, credit);
    hide Balance;
    BalanceWith(r.applied, charge, to);
    BalanceWith(r1.applied, credit, to);
  }

  lemma StartIsInitial(c: Clash)
    ensures Initial(c.Start())
  {
  }

  lemma TwoNodes(s: System, a: string, b: string, ra: Replica, rb: Replica, bucket: string)
    requires s.nodes == map[a := ra, b := rb] && a != b
    requires ra.applied == rb.applied && ra.deleted == rb.deleted == {}
    ensures s.nodes.Keys == {a, b} && s.nodes[a] == ra && s.nodes[b] == rb
    ensures Live(s, bucket) && Converged(s, bucket)
  {
  }
}
