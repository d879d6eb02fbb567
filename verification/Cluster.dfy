/** Any number of nodes creating, exchanging, persisting and deleting events in
    any order, and the invariant every such run keeps: what each cache knows,
    who was voided, and which voids may exist at all. */
module Cluster {
  import opened Types
  import opened Sums
  import opened Ledger
  import opened ReplicaModel
  import opened Tracking
  import Allocator

  /** The nodes, and three records of the past: `minted` is every event ever
      created, also of buckets deleted since; `intents` has every request
      answered with success, with the account its transfer credits, if any;
      `stewards` names the node that first minted each transfer credit. */
  datatype System = System(
    nodes: map<string, Replica>,
    minted: set<Event>,
    intents: map<IdemKey, Option<string>>,
    stewards: map<IdemKey, string>)

  datatype Step =
    | Create(node: string, input: Input, mint: Mint)
    | Delete(node: string, bucket: string, reason: Option<string>, mint: Mint)
    | Deliver(node: string, event: Event, mint: Mint)
    | Flush(node: string, keys: set<OriginKey>)

  // ---- Steps ----

  ghost predicate NewId(s: System, id: string) {
    forall x :: x in s.minted ==> x.id != id
  }

  ghost predicate NewIds(s: System, m: Mint) {
    && NewId(s, m.first) && NewId(s, m.second) && NewId(s, m.third)
    && m.first != m.second && m.first != m.third && m.second != m.third
  }

  /** The account a request credits: only the charge mode transfers. */
  function Intent(input: Input): Option<string> {
    if input.settleReservation.Some? || input.releaseReservation.Some? || (input.amount == 0 && input.holdAmount.Some?)
    then None
    else input.transferTo
  }

  function CreditKey(key: IdemKey, to: string): IdemKey {
    IdemKey(CreditNonce(key.nonce), key.bucket, to, Abs(key.amount))
  }

  /** Own nonces, transfers to another account and of an amount that can be
      credited, and retries that repeat the request. */
  predicate Faithful(s: System, input: Input) {
    && IsClientNonce(input.nonce)
    && input.transferTo != Some(input.account)
    && (Intent(input).Some? ==> !Overflows(input))
    && (input.Idem() in s.intents ==> s.intents[input.Idem()] == Intent(input))
  }

  /** No other transfer requested so far has the credit key of this one. */
  ghost predicate CreditsApart(s: System, input: Input) {
    Intent(input).Some? ==>
      forall key ::
        (key in s.intents && s.intents[key].Some?
         && CreditKey(key, s.intents[key].value) == CreditKey(input.Idem(), Intent(input).value))
        ==> key == input.Idem()
  }

  /** What clients owe the protocol. */
  ghost predicate WellUsed(s: System, input: Input) {
    Faithful(s, input) && CreditsApart(s, input)
  }

  /** A step of this shape can happen in this state, if the clients keep to the protocol. */
  ghost predicate Enabled(s: System, step: Step) {
    Proper(s, step) && (step.Create? ==> CreditsApart(s, step.input))
  }

  /** ... but for credit keys of transfers, which no client can keep apart from
      those of other clients. */
  ghost predicate Proper(s: System, step: Step) {
    && step.node in s.nodes
    && match step
       case Create(_, input, m) => NewIds(s, m) && Faithful(s, input)
       case Delete(_, _, _, m) => NewIds(s, m)
       case Deliver(_, e, m) => NewIds(s, m) && e in s.minted
       case Flush(_, _) => true
  }

  /** The first node to mint a credit is its steward. */
  function Stewards(stewards: map<IdemKey, string>, n: string, events: seq<Event>): map<IdemKey, string> {
    stewards + map k | k in CreditsIn(events) && k !in stewards :: n
  }

  function CreditsIn(events: seq<Event>): set<IdemKey> {
    set e | e in events && IsCreditNonce(e.nonce) :: e.Idem()
  }

  function Record(s: System, n: string, r: Replica, events: seq<Event>): System {
    s.(nodes := s.nodes[n := r],
       minted := s.minted + (set e | e in events),
       stewards := Stewards(s.stewards, n, events))
  }

  ghost function Next(s: System, step: Step): System {
    if Enabled(s, step) then Taken(s, step) else s
  }

  /** The system after a step. */
  ghost function Taken(s: System, step: Step): System
    requires step.node in s.nodes
  {
    var r := s.nodes[step.node];
    match step
    case Create(n, input, m) =>
      var (r', result) := CreateLocal(r, input, m);
      if result.Failed? then Record(s, n, r', [])
      else Record(s, n, r', result.emitted).(intents := s.intents[input.Idem() := Intent(input)])
    case Delete(n, bucket, reason, m) =>
      var (r', result) := CreateDelete(r, bucket, reason, m);
      Record(s, n, r', if result.Created? then result.emitted else [])
    case Deliver(n, e, m) =>
      var (r', corrections) := Receive(r, e, m);
      Record(s, n, r', corrections)
    case Flush(n, keys) => Record(s, n, Persist(r, keys), [])
  }

  ghost function Run(s: System, steps: seq<Step>): System
    decreases |steps|
  {
    if steps == [] then s else Next(Run(s, steps[..|steps| - 1]), steps[|steps| - 1])
  }

  /** A cluster whose nodes have neither events nor rows yet. */
  ghost predicate Initial(s: System) {
    && s.minted == {} && s.intents == map[] && s.stewards == map[]
    && forall n :: n in s.nodes ==>
         s.nodes[n] == Replica(s.nodes[n].cfg, map[], map[], {}, map[], Allocator.AllocState(map[], map[]))
         && s.nodes[n].cfg.nodeId == n
  }

  // ---- The invariant ----

  ghost predicate UniqueMints(minted: set<Event>) {
    && (forall x, y :: x in minted && y in minted && x.id == y.id ==> x == y)
    && (forall x, y :: x in minted && y in minted && x.Key() == y.Key() ==> x == y)
  }

  /** Each node holds what it minted, unless the bucket is gone there. */
  ghost predicate HeldAtOrigin(nodes: map<string, Replica>, minted: set<Event>) {
    forall x :: x in minted ==>
      x.origin in nodes && (x.bucket in nodes[x.origin].deleted
        || (x.Key() in nodes[x.origin].applied && nodes[x.origin].applied[x.Key()] == x))
  }

  ghost predicate AppliedMinted(log: Log, minted: set<Event>) {
    forall k :: k in log ==> log[k] in minted
  }

  /** A void targets a minted event that a minted event of the same key precedes. */
  ghost predicate Justified(minted: set<Event>, v: Event, target: Event) {
    && target in minted && v.Idem() == VoidKey(target)
    && exists w :: w in minted && w.Idem() == target.Idem() && Precedes(w, target)
  }

  ghost predicate VoidsJustified(minted: set<Event>) {
    forall v :: v in minted && IsVoidNonce(v.nonce) ==> exists t :: Justified(minted, v, t)
  }

  /** Unchecked nonces carry no money, except the credit side of transfers. */
  ghost predicate UncheckedAreFree(minted: set<Event>) {
    forall x :: x in minted && IsUncheckedNonce(x.nonce) && !IsCreditNonce(x.nonce) ==> x.amount == 0
  }

  /** Every minted credit has a steward. */
  ghost predicate CreditsStewarded(s: System) {
    && (forall x :: x in s.minted && IsCreditNonce(x.nonce) ==> x.Idem() in s.stewards)
    && (forall k :: k in s.stewards ==> s.stewards[k] in s.nodes && IsCreditNonce(k.nonce))
  }

  function Stewarded(stewards: map<IdemKey, string>, n: string): set<IdemKey> {
    set k | k in stewards && stewards[k] == n
  }

  ghost function ClientKeys(minted: set<Event>): set<IdemKey> {
    set x | x in minted && IsClientNonce(x.nonce) :: x.Idem()
  }

  ghost function CreditKeys(minted: set<Event>): set<IdemKey> {
    set x | x in minted && IsCreditNonce(x.nonce) :: x.Idem()
  }

  function PromisedCredits(intents: map<IdemKey, Option<string>>): set<IdemKey> {
    set k | k in intents && intents[k].Some? :: CreditKey(k, intents[k].value)
  }

  /** The invariant; node `n` may have losers in `pending` not voided yet. */
  ghost predicate InvBut(s: System, n: string, pending: set<Event>) {
    && UniqueMints(s.minted)
    && HeldAtOrigin(s.nodes, s.minted)
    && VoidsJustified(s.minted)
    && UncheckedAreFree(s.minted)
    && CreditsStewarded(s)
    && (forall m :: m in s.nodes ==> s.nodes[m].cfg.nodeId == m && AppliedMinted(s.nodes[m].applied, s.minted))
    && (forall m :: m in s.nodes ==>
          Knows(s.nodes[m], if m == n then pending else {}, Stewarded(s.stewards, m)))
  }

  /** A steward still remembers the request behind its credit. */
  ghost predicate Remembers(r: Replica, intents: map<IdemKey, Option<string>>, credit: IdemKey) {
    credit.bucket in r.deleted
    || exists k :: k in intents && intents[k].Some? && CreditKey(k, intents[k].value) == credit && k in r.cache
  }

  ghost predicate StewardsRemember(s: System) {
    forall c :: c in s.stewards ==> s.stewards[c] in s.nodes && Remembers(s.nodes[s.stewards[c]], s.intents, c)
  }

  ghost predicate CreditsDistinct(intents: map<IdemKey, Option<string>>) {
    forall j, k ::
      (j in intents && k in intents && intents[j].Some? && intents[k].Some?
       && CreditKey(j, intents[j].value) == CreditKey(k, intents[k].value)) ==> j == k
  }

  /** What the history of requests says about the minted events. */
  ghost predicate HistoryMatches(s: System) {
    && ClientKeys(s.minted) == s.intents.Keys
    && CreditKeys(s.minted) == PromisedCredits(s.intents)
    && CreditsDistinct(s.intents)
    && StewardsRemember(s)
  }

  ghost predicate Inv(s: System) {
    InvBut(s, "", {}) && HistoryMatches(s)
  }

  // ---- One mint ----

  ghost predicate MayMint(s: System, n: string, e: Event) {
    && n in s.nodes && MintsNext(s.nodes[n], e) && NewId(s, e.id)
    && (Watched(e.Idem(), Stewarded(s.stewards, n)) ==> Matching(s.nodes[n].applied, e.Idem()) == {})
    && (IsVoidNonce(e.nonce) ==> exists t :: Justified(s.minted, e, t))
    && (IsUncheckedNonce(e.nonce) && !IsCreditNonce(e.nonce) ==> e.amount == 0)
  }

  function WithMint(s: System, n: string, e: Event): System
    requires n in s.nodes
  {
    s.(nodes := s.nodes[n := Minted(s.nodes[n], e)],
       minted := s.minted + {e},
       stewards := Stewards(s.stewards, n, [e]))
  }

  /** No minted event already uses the pair a node is about to hand out. */
  lemma MintIsNew(s: System, n: string, e: Event)
    requires UniqueMints(s.minted) && HeldAtOrigin(s.nodes, s.minted)
    requires n in s.nodes && s.nodes[n].cfg.nodeId == n && Valid(s.nodes[n])
    requires MintsNext(s.nodes[n], e) && NewId(s, e.id)
    ensures UniqueMints(s.minted + {e})
  {
    MintedValid(s.nodes[n], e);
    forall x | x in s.minted
      ensures x.Key() != e.Key()
    {
    }
  }

  lemma MintJustified(minted: set<Event>, e: Event)
    requires VoidsJustified(minted)
    requires IsVoidNonce(e.nonce) ==> exists t :: Justified(minted, e, t)
    ensures VoidsJustified(minted + {e})
  {
    forall v | v in minted + {e} && IsVoidNonce(v.nonce)
      ensures exists t :: Justified(minted + {e}, v, t)
    {
      var t :| Justified(minted, v, t);
      var w :| w in minted && w.Idem() == t.Idem() && Precedes(w, t);
      assert w in minted + {e};
      assert Justified(minted + {e}, v, t);
    }
  }

  lemma MintHeld(s: System, n: string, e: Event)
    requires HeldAtOrigin(s.nodes, s.minted)
    requires n in s.nodes && s.nodes[n].cfg.nodeId == n && Valid(s.nodes[n]) && MintsNext(s.nodes[n], e)
    ensures HeldAtOrigin(WithMint(s, n, e).nodes, s.minted + {e})
  {
  }

  /** A credit without steward is new everywhere, so its first minter can start watching it. */
  lemma MintStewards(s: System, n: string, e: Event)
    requires CreditsStewarded(s) && n in s.nodes
    requires AppliedMinted(s.nodes[n].applied, s.minted)
    ensures CreditsStewarded(WithMint(s, n, e))
    ensures forall m :: m != n ==> Stewarded(Stewards(s.stewards, n, [e]), m) == Stewarded(s.stewards, m)
    ensures Stewarded(Stewards(s.stewards, n, [e]), n) == Stewarded(s.stewards, n)
      || (Stewarded(Stewards(s.stewards, n, [e]), n) == Stewarded(s.stewards, n) + {e.Idem()}
          && Matching(s.nodes[n].applied, e.Idem()) == {})
  {
    CreditOf(e);
    hide CreditsIn;
    if IsCreditNonce(e.nonce) && e.Idem() !in s.stewards {
      assert forall x :: x in Matching(s.nodes[n].applied, e.Idem()) ==> x in s.minted && x.Idem() in s.stewards;
    }
  }

  lemma CreditOf(e: Event)
    ensures CreditsIn([e]) == if IsCreditNonce(e.nonce) then {e.Idem()} else {}
  {
  }

  lemma WatchMore(r: Replica, pending: set<Event>, extra: set<IdemKey>, key: IdemKey)
    requires Knows(r, pending, extra) && Matching(r.applied, key) == {}
    ensures Knows(r, pending, extra + {key})
  {
  }

  lemma MintNodeKnows(s: System, n: string, e: Event, pending: set<Event>, pending': set<Event>)
    requires n in s.nodes && Knows(s.nodes[n], pending, Stewarded(s.stewards, n)) && MayMint(s, n, e)
    requires CreditsStewarded(s) && AppliedMinted(s.nodes[n].applied, s.minted)
    requires forall x :: x in pending ==> x in pending' || e.Idem() == VoidKey(x)
    ensures Knows(Minted(s.nodes[n], e), pending', Stewarded(Stewards(s.stewards, n, [e]), n))
  {
    hide Knows, Stewards, Stewarded;
    MintStewards(s, n, e);
    var extra := Stewarded(s.stewards, n);
    if Matching(s.nodes[n].applied, e.Idem()) == {} {
      WatchMore(s.nodes[n], pending, extra, e.Idem());
      MintedKnows(s.nodes[n], e, pending, pending', extra + {e.Idem()});
    }
    if Stewarded(Stewards(s.stewards, n, [e]), n) == extra {
      MintedKnows(s.nodes[n], e, pending, pending', extra);
    }
  }

  lemma NodeFacts(s: System, n: string, m: string, pending: set<Event>)
    requires InvBut(s, n, pending) && m in s.nodes
    ensures Knows(s.nodes[m], if m == n then pending else {}, Stewarded(s.stewards, m))
    ensures Valid(s.nodes[m]) && s.nodes[m].cfg.nodeId == m && AppliedMinted(s.nodes[m].applied, s.minted)
    ensures META_BUCKET !in s.nodes[m].deleted
  {
  }

  /** The clauses of the invariant a mint could break, one by one. */
  lemma MintFacts(s: System, n: string, e: Event, pending: set<Event>, pending': set<Event>)
    requires InvBut(s, n, pending) && MayMint(s, n, e)
    requires forall x :: x in pending ==> x in pending' || e.Idem() == VoidKey(x)
    ensures UniqueMints(s.minted + {e}) && VoidsJustified(s.minted + {e}) && UncheckedAreFree(s.minted + {e})
    ensures HeldAtOrigin(WithMint(s, n, e).nodes, s.minted + {e}) && CreditsStewarded(WithMint(s, n, e))
    ensures Knows(Minted(s.nodes[n], e), pending', Stewarded(WithMint(s, n, e).stewards, n))
    ensures forall m :: m != n ==> Stewarded(WithMint(s, n, e).stewards, m) == Stewarded(s.stewards, m)
  {
    NodeFacts(s, n, n, pending);
    hide Knows, Valid;
    MintIsNew(s, n, e);
    MintJustified(s.minted, e);
    MintHeld(s, n, e);
    MintStewards(s, n, e);
    MintNodeKnows(s, n, e, pending, pending');
  }

  lemma MintKeepsInv(s: System, n: string, e: Event, pending: set<Event>, pending': set<Event>)
    requires InvBut(s, n, pending) && MayMint(s, n, e)
    requires forall x :: x in pending ==> x in pending' || e.Idem() == VoidKey(x)
    ensures InvBut(WithMint(s, n, e), n, pending')
  {
    hide Knows, Valid, HeldAtOrigin, VoidsJustified, UniqueMints, MintsNext, Stewards, Stewarded, CreditsStewarded,
         MayMint;
    MayMintAt(s, n, e);
    MintFacts(s, n, e, pending, pending');
    var s' := WithMint(s, n, e);
    assert AppliedMinted(s'.nodes[n].applied, s'.minted);
  }

  // ---- What a request or delivery changes ----

  /** A replica forgets a cached key only with its bucket. */
  ghost predicate KeepsKeys(r: Replica, r': Replica) {
    && r.deleted <= r'.deleted
    && forall k :: k in r.cache ==> k in r'.cache || k.bucket in r'.deleted
  }

  /** Node `n` alone changed, keeping the invariant, and the events minted add
      just these client keys and these credit keys. */
  ghost predicate Effect(s: System, s': System, n: string, clients: set<IdemKey>, credits: set<IdemKey>) {
    && n in s.nodes && n in s'.nodes && s'.nodes == s.nodes[n := s'.nodes[n]]
    && InvBut(s', n, {})
    && s'.intents == s.intents
    && ClientKeys(s'.minted) == ClientKeys(s.minted) + clients
    && CreditKeys(s'.minted) == CreditKeys(s.minted) + credits
    && KeepsKeys(s.nodes[n], s'.nodes[n])
    && clients <= s'.nodes[n].cache.Keys
    && (forall c :: c in s.stewards ==> c in s'.stewards && s'.stewards[c] == s.stewards[c])
    && (forall c :: c in s'.stewards && c !in s.stewards ==> c in credits && s'.stewards[c] == n)
  }

  lemma EffectChain(s: System, t: System, u: System, n: string,
                    clients: set<IdemKey>, credits: set<IdemKey>, clients': set<IdemKey>, credits': set<IdemKey>)
    requires Effect(s, t, n, clients, credits) && Effect(t, u, n, clients', credits')
    requires forall k :: k in clients ==> k in u.nodes[n].cache
    ensures Effect(s, u, n, clients + clients', credits + credits')
  {
    hide InvBut, ClientKeys, CreditKeys;
    assert u.nodes == s.nodes[n := u.nodes[n]];
    KeepsKeysChain(s.nodes[n], t.nodes[n], u.nodes[n]);
    hide KeepsKeys;
  }

  lemma KeepsKeysChain(q: Replica, r: Replica, r': Replica)
    requires KeepsKeys(q, r) && KeepsKeys(r, r')
    ensures KeepsKeys(q, r')
  {
  }

  function KeyIf(yes: bool, key: IdemKey): set<IdemKey> {
    if yes then {key} else {}
  }

  lemma KeysWith(minted: set<Event>, e: Event)
    ensures ClientKeys(minted + {e}) == ClientKeys(minted) + KeyIf(IsClientNonce(e.nonce), e.Idem())
    ensures CreditKeys(minted + {e}) == CreditKeys(minted) + KeyIf(IsCreditNonce(e.nonce), e.Idem())
  {
  }

  lemma MintEffect(s: System, n: string, e: Event, pending: set<Event>)
    requires InvBut(s, n, pending) && MayMint(s, n, e)
    requires forall x :: x in pending ==> e.Idem() == VoidKey(x)
    ensures Effect(s, WithMint(s, n, e), n, KeyIf(IsClientNonce(e.nonce), e.Idem()), KeyIf(IsCreditNonce(e.nonce), e.Idem()))
  {
    hide InvBut, MayMint;
    MayMintAt(s, n, e);
    MintKeepsInv(s, n, e, pending, {});
    KeysWith(s.minted, e);
    assert forall x :: x in [e] <==> x == e;
  }

  lemma MayMintAt(s: System, n: string, e: Event)
    requires MayMint(s, n, e)
    ensures n in s.nodes
  {
  }

  // ---- Local requests ----

  /** An event a node may mint next. */
  ghost predicate IsNext(s: System, n: string, e: Event) {
    && n in s.nodes && NewId(s, e.id)
    && e.origin == s.nodes[n].cfg.nodeId
    && (e.epoch, e.seqNo) == NextPair(s.nodes[n], e.bucket)
    && e.bucket !in s.nodes[n].deleted
  }

  /** Minting an event nobody watches and that moves no money. */
  lemma MintFree(s: System, n: string, e: Event)
    requires InvBut(s, n, {}) && IsNext(s, n, e)
    requires IsUncheckedNonce(e.nonce) && !IsCreditNonce(e.nonce) && e.amount == 0
    ensures Effect(s, WithMint(s, n, e), n, {}, {})
  {
    DerivedNonceClasses("");
    MintEffect(s, n, e, {});
  }

  /** Minting a transfer's credit, unless this node stewards that very credit. */
  lemma MintCredit(s: System, n: string, e: Event)
    requires InvBut(s, n, {}) && IsNext(s, n, e)
    requires IsCreditNonce(e.nonce) && !(e.Idem() in s.stewards && s.stewards[e.Idem()] == n)
    ensures Effect(s, WithMint(s, n, e), n, {}, {e.Idem()})
  {
    DerivedNonceClasses("");
    MintEffect(s, n, e, {});
  }

  /** Minting the first event of a client's key. */
  lemma MintPrimary(s: System, n: string, e: Event)
    requires InvBut(s, n, {}) && IsNext(s, n, e)
    requires IsClientNonce(e.nonce) && Matching(s.nodes[n].applied, e.Idem()) == {}
    ensures Effect(s, WithMint(s, n, e), n, {e.Idem()}, {})
  {
    MintEffect(s, n, e, {});
  }

  /** `s` is `s0` after node `n` already minted `before` in the same request. */
  ghost predicate Midway(s0: System, s: System, n: string, before: seq<Event>) {
    n in s.nodes && s == Record(s0, n, s.nodes[n], before)
  }

  lemma OneMore(before: seq<Event>, e: Event)
    ensures (set x | x in before + [e]) == (set x | x in before) + {e}
    ensures CreditsIn(before + [e]) == CreditsIn(before) + CreditsIn([e])
  {
  }

  lemma StewardsMore(stewards: map<IdemKey, string>, n: string, before: seq<Event>, e: Event)
    ensures Stewards(Stewards(stewards, n, before), n, [e]) == Stewards(stewards, n, before + [e])
  {
    OneMore(before, e);
    hide CreditsIn;
  }

  lemma MidwayMint(s0: System, s: System, n: string, before: seq<Event>, e: Event)
    requires Midway(s0, s, n, before)
    ensures Midway(s0, WithMint(s, n, e), n, before + [e])
  {
    hide CreditsIn, Minted;
    OneMore(before, e);
    StewardsMore(s0.stewards, n, before, e);
    hide Stewards;
    var s' := WithMint(s, n, e);
    assert s'.nodes == s0.nodes[n := s'.nodes[n]];
    assert s'.minted == s0.minted + (set x | x in before + [e]);
  }

  lemma StartMidway(s: System, n: string)
    requires n in s.nodes
    ensures Record(s, n, s.nodes[n], []) == s && Midway(s, s, n, [])
  {
  }

  lemma InvAt(s: System, n: string)
    requires Inv(s)
    ensures InvBut(s, n, {}) && HistoryMatches(s)
  {
  }

  /** What a request with a not yet cached key needs to know about the node. */
  ghost predicate Ready(s: System, n: string, input: Input, m: Mint) {
    && InvBut(s, n, {}) && n in s.nodes && NewIds(s, m)
    && IsClientNonce(input.nonce) && input.bucket !in s.nodes[n].deleted
    && Matching(s.nodes[n].applied, input.Idem()) == {}
  }

  /** The node does not steward the credit of this transfer. */
  predicate CreditFree(s: System, n: string, input: Input, to: string) {
    var key := CreditKey(input.Idem(), to);
    !(key in s.stewards && s.stewards[key] == n)
  }

  function CreditsOf(input: Input, to: Option<string>): set<IdemKey> {
    if to.Some? then {CreditKey(input.Idem(), to.value)} else {}
  }

  /** A request either fails without trace, or mints its primary event and,
      for a transfer, its credit. */
  ghost predicate Reaches(s: System, n: string, input: Input, outcome: (Replica, CreateResult), credits: set<IdemKey>) {
    && n in s.nodes
    && (outcome.1.Failed? ==> outcome.0 == s.nodes[n])
    && (outcome.1.Created? ==>
        Effect(s, Record(s, n, outcome.0, outcome.1.emitted), n, {input.Idem()}, credits))
  }

  lemma FailureReaches(s: System, n: string, input: Input, error: CreateError, credits: set<IdemKey>)
    requires n in s.nodes
    ensures Reaches(s, n, input, (s.nodes[n], Failed(error)), credits)
  {
  }

  /** From the charge on: the charge, then a transfer's credit. */
  lemma TransferEffect(s0: System, s: System, n: string, input: Input, before: seq<Event>, m: Mint)
    requires Midway(s0, s, n, before) && InvBut(s, n, {})
    requires NewId(s, m.second) && NewId(s, m.third) && m.second != m.third
    requires IsClientNonce(input.nonce) && input.bucket !in s.nodes[n].deleted
    requires Matching(s.nodes[n].applied, input.Idem()) == {}
    requires input.transferTo.Some? ==> CreditFree(s, n, input, input.transferTo.value)
    ensures var (r', result) := EmitTransfer(s.nodes[n], input, before, m);
      && result.Created?
      && Effect(s, Record(s0, n, r', result.emitted), n, {input.Idem()}, CreditsOf(input, input.transferTo))
  {
    hide InvBut, Matching, Effect, Record, Stewards;
    var charge := ChargeEvent(s.nodes[n], input, m.now, m.second);
    MintPrimary(s, n, charge);
    MidwayMint(s0, s, n, before, charge);
    var t := WithMint(s, n, charge);
    EffectInv(s, t, n, {input.Idem()}, {});
    if input.transferTo.Some? {
      var credit := CreditEvent(t.nodes[n], input, input.transferTo.value, m.now, m.third);
      DerivedNonceClasses(input.nonce);
      ChargeStewardsNothing(s, n, charge);
      MintCredit(t, n, credit);
      MidwayMint(s0, t, n, before + [charge], credit);
      assert before + [charge] + [credit] == before + [charge, credit];
      EffectChain(s, t, WithMint(t, n, credit), n, {input.Idem()}, {}, {}, {credit.Idem()});
      assert {input.Idem()} + {} == {input.Idem()};
      assert {} + {credit.Idem()} == CreditsOf(input, input.transferTo);
    }
  }

  lemma ChargeStewardsNothing(s: System, n: string, e: Event)
    requires !IsCreditNonce(e.nonce)
    ensures Stewards(s.stewards, n, [e]) == s.stewards
  {
  }

  lemma FreshMatching(s: System, n: string, e: Event, key: IdemKey)
    requires InvBut(s, n, {}) && IsNext(s, n, e) && e.Idem() != key
    ensures Matching(WithMint(s, n, e).nodes[n].applied, key) == Matching(s.nodes[n].applied, key)
  {
    MintedValid(s.nodes[n], e);
    MatchingWith(s.nodes[n].applied, e, key);
  }

  lemma HeldChargeEffect(s: System, n: string, input: Input, hold: nat, expires: nat, m: Mint)
    requires Ready(s, n, input, m)
    requires input.transferTo.Some? ==> CreditFree(s, n, input, input.transferTo.value)
    ensures n in s.nodes
    ensures var reservation := ReservationEvent(s.nodes[n], input, hold, expires, m.now, m.first);
      Reaches(s, n, input, EmitTransfer(Minted(s.nodes[n], reservation), input, [reservation], m),
              CreditsOf(input, input.transferTo))
  {
    hide InvBut, Matching, EmitTransfer, Effect, Record, Stewards;
    StartMidway(s, n);
    var reservation := ReservationEvent(s.nodes[n], input, hold, expires, m.now, m.first);
    DerivedNonceClasses(input.nonce);
    MintFree(s, n, reservation);
    MidwayMint(s, s, n, [], reservation);
    assert [] + [reservation] == [reservation];
    FreshMatching(s, n, reservation, input.Idem());
    ChargeStewardsNothing(s, n, reservation);
    var t := WithMint(s, n, reservation);
    EffectInv(s, t, n, {}, {});
    TransferEffect(s, t, n, input, [reservation], m);
    var outcome := EmitTransfer(t.nodes[n], input, [reservation], m);
    EffectChain(s, t, Record(s, n, outcome.0, outcome.1.emitted), n, {}, {}, {input.Idem()}, CreditsOf(input, input.transferTo));
    assert {} + {input.Idem()} == {input.Idem()};
    assert {} + CreditsOf(input, input.transferTo) == CreditsOf(input, input.transferTo);
  }

  lemma BareChargeEffect(s: System, n: string, input: Input, m: Mint)
    requires Ready(s, n, input, m)
    requires input.transferTo.Some? ==> CreditFree(s, n, input, input.transferTo.value)
    ensures n in s.nodes
    ensures Reaches(s, n, input, EmitTransfer(s.nodes[n], input, [], m), CreditsOf(input, input.transferTo))
  {
    hide InvBut, Matching, EmitTransfer;
    StartMidway(s, n);
    TransferEffect(s, s, n, input, [], m);
  }

  lemma ChargeEffect(s: System, n: string, input: Input, holdOverride: Option<(nat, nat)>, m: Mint)
    requires Ready(s, n, input, m) && !Overflows(input)
    requires input.transferTo.Some? ==> CreditFree(s, n, input, input.transferTo.value)
    ensures n in s.nodes
    ensures Reaches(s, n, input, EmitCharge(s.nodes[n], input, holdOverride, m), CreditsOf(input, input.transferTo))
  {
    hide InvBut, Reaches, ChargeHold, Available, Matching;
    var r := s.nodes[n];
    var (hold, expires) := ChargeHold(r, input, holdOverride, m.now);
    var outcome := EmitCharge(r, input, holdOverride, m);
    if outcome.1.Failed? {
      FailureReaches(s, n, input, outcome.1.error, CreditsOf(input, input.transferTo));
    } else if hold > 0 {
      HeldChargeEffect(s, n, input, hold, expires, m);
    } else {
      BareChargeEffect(s, n, input, m);
    }
  }

  /** Requests that mint their primary event alone. */
  lemma SingleEffect(s: System, n: string, input: Input, e: Event)
    requires InvBut(s, n, {}) && IsNext(s, n, e) && e.Idem() == input.Idem()
    requires IsClientNonce(e.nonce) && Matching(s.nodes[n].applied, e.Idem()) == {}
    ensures Reaches(s, n, input, (Minted(s.nodes[n], e), Created(e, [e])), {})
  {
    hide InvBut, Matching;
    StartMidway(s, n);
    MintPrimary(s, n, e);
    MidwayMint(s, s, n, [], e);
    assert [] + [e] == [e];
  }

  lemma ReserveEffect(s: System, n: string, input: Input, m: Mint)
    requires Ready(s, n, input, m) && input.amount == 0
    ensures n in s.nodes && Reaches(s, n, input, EmitReserve(s.nodes[n], input, m), {})
  {
    hide InvBut, Matching, Available, Reaches;
    var (r', result) := EmitReserve(s.nodes[n], input, m);
    if result.Created? {
      SingleEffect(s, n, input, result.primary);
    } else {
      FailureReaches(s, n, input, result.error, {});
    }
  }

  lemma ReleaseEffect(s: System, n: string, input: Input, id: string, m: Mint)
    requires Ready(s, n, input, m) && input.amount == 0
    ensures n in s.nodes && Reaches(s, n, input, EmitRelease(s.nodes[n], input, id, m), {})
  {
    hide InvBut, Matching, IsActive, Reaches;
    var (r', result) := EmitRelease(s.nodes[n], input, id, m);
    if result.Created? {
      SingleEffect(s, n, input, result.primary);
    } else {
      FailureReaches(s, n, input, result.error, {});
    }
  }

  lemma CapturedEffect(s: System, n: string, input: Input, charge: Event, id: string, m: Mint)
    requires Ready(s, n, input, m)
    requires charge == ChargeEvent(s.nodes[n], input.(transferTo := None), m.now, m.first)
    ensures var r1 := Minted(s.nodes[n], charge);
      var release := ReleaseEvent(r1, input, ReleaseNonce(input.nonce), None, id, m.now, m.second);
      Reaches(s, n, input, (Minted(r1, release), Created(charge, [charge, release])), {})
  {
    hide InvBut, Matching, Effect, Record, Stewards;
    StartMidway(s, n);
    MintPrimary(s, n, charge);
    MidwayMint(s, s, n, [], charge);
    assert [] + [charge] == [charge];
    var t := WithMint(s, n, charge);
    EffectInv(s, t, n, {input.Idem()}, {});
    var release := ReleaseEvent(t.nodes[n], input, ReleaseNonce(input.nonce), None, id, m.now, m.second);
    DerivedNonceClasses(input.nonce);
    MintFree(t, n, release);
    MidwayMint(s, t, n, [charge], release);
    assert [charge] + [release] == [charge, release];
    EffectChain(s, t, WithMint(t, n, release), n, {input.Idem()}, {}, {}, {});
    var none: set<IdemKey> := {};
    assert {input.Idem()} + none == {input.Idem()} && none + none == none;
  }

  lemma SettleEffect(s: System, n: string, input: Input, id: string, m: Mint)
    requires Ready(s, n, input, m)
    ensures n in s.nodes && Reaches(s, n, input, EmitSettle(s.nodes[n], input, id, m), {})
  {
    hide InvBut, Matching, IsActive, Reaches, Minted;
    var (r', result) := EmitSettle(s.nodes[n], input, id, m);
    if result.Created? {
      CapturedEffect(s, n, input, result.primary, id, m);
    } else {
      FailureReaches(s, n, input, result.error, {});
    }
  }

  lemma EmitEffect(s: System, n: string, input: Input, mode: Mode, m: Mint)
    requires Ready(s, n, input, m) && ModeOf(input, m.now) == Selected(mode)
    requires Intent(input).Some? ==> CreditFree(s, n, input, Intent(input).value) && !Overflows(input)
    ensures n in s.nodes
    ensures Reaches(s, n, input, EmitMode(s.nodes[n], input, mode, m), CreditsOf(input, Intent(input)))
  {
    hide InvBut, Reaches, EmitCharge, EmitReserve, EmitSettle, EmitRelease;
    match mode
    case Charge(h) => ChargeEffect(s, n, input, h, m);
    case Reserve => ReserveEffect(s, n, input, m);
    case Settle(id) => SettleEffect(s, n, input, id, m);
    case Release(id) => ReleaseEffect(s, n, input, id, m);
  }

  /** A retry is answered from the cache with a minted event of its very key. */
  lemma RetryIsGranted(s: System, n: string, key: IdemKey)
    requires Inv(s) && n in s.nodes && key in s.nodes[n].cache && IsClientNonce(key.nonce)
    ensures key in s.intents
  {
    var r := s.nodes[n];
    var known := r.cache[key];
    assert known in Matching(r.applied, key);
    var k :| k in r.applied && r.applied[k] == known;
    assert known in s.minted;
    assert known.Idem() in ClientKeys(s.minted);
  }

  /** A checked key absent from the cache has no applied event, so the
      database fallback finds none either. */
  lemma StoredOnlyIfApplied(r: Replica, key: IdemKey, extra: set<IdemKey>)
    requires Knows(r, {}, extra) && Watched(key, extra) && key !in r.cache
    ensures Matching(r.applied, key) == {} && Matching(r.stored, key) == {}
  {
  }

  /** A node that stewards this transfer's credit has the request in its cache. */
  lemma StewardWouldRetry(s: System, n: string, input: Input, to: string)
    requires HistoryMatches(s) && WellUsed(s, input) && Intent(input) == Some(to)
    requires n in s.nodes && input.bucket !in s.nodes[n].deleted && input.Idem() !in s.nodes[n].cache
    ensures CreditFree(s, n, input, to)
  {
  }

  /** The ways a request can end: refused or carried out, or answered as a retry. */
  lemma CreateOutcome(s: System, n: string, input: Input, m: Mint)
    requires Inv(s) && n in s.nodes && NewIds(s, m) && WellUsed(s, input)
    ensures var outcome := CreateLocal(s.nodes[n], input, m);
      || Reaches(s, n, input, outcome, CreditsOf(input, Intent(input)))
      || (outcome.0 == s.nodes[n] && outcome.1.Created? && outcome.1.emitted == [] && input.Idem() in s.intents)
  {
    hide InvBut, HistoryMatches, Reaches, EmitMode, Knows, Matching, CreditFree;
    var r := s.nodes[n];
    var mode := ModeOf(input, m.now);
    InvAt(s, n);
    NodeFacts(s, n, n, {});
    if (!input.allowReservedBucket && IsReservedBucketName(input.bucket)) || input.bucket in r.deleted || mode.Rejected? {
      FailureReaches(s, n, input, CreateLocal(r, input, m).1.error, CreditsOf(input, Intent(input)));
    } else if input.Idem() in r.cache {
      RetryIsGranted(s, n, input.Idem());
    } else {
      StoredOnlyIfApplied(r, input.Idem(), Stewarded(s.stewards, n));
      if Intent(input).Some? {
        StewardWouldRetry(s, n, input, Intent(input).value);
      }
      EmitEffect(s, n, input, mode.mode, m);
    }
  }

  // ---- The history of requests ----

  /** Steps that mint no client event and no credit leave the history as it is. */
  lemma QuietHistory(s: System, s': System, n: string)
    requires HistoryMatches(s) && Effect(s, s', n, {}, {})
    ensures HistoryMatches(s')
  {
    hide InvBut;
    forall c | c in s'.stewards
      ensures s'.stewards[c] in s'.nodes && Remembers(s'.nodes[s'.stewards[c]], s'.intents, c)
    {
      KeepsMemory(s, s', n, c);
    }
  }

  lemma KeepsMemory(s: System, s': System, n: string, c: IdemKey)
    requires StewardsRemember(s) && c in s.stewards
    requires n in s.nodes && n in s'.nodes && s'.nodes == s.nodes[n := s'.nodes[n]]
    requires KeepsKeys(s.nodes[n], s'.nodes[n])
    ensures s.stewards[c] in s'.nodes && Remembers(s'.nodes[s.stewards[c]], s.intents, c)
  {
  }

  function Granting(s: System, input: Input): map<IdemKey, Option<string>> {
    s.intents[input.Idem() := Intent(input)]
  }

  /** A request carried out enters the history with its credit. */
  lemma GrantHistory(s: System, s': System, n: string, input: Input)
    requires HistoryMatches(s) && WellUsed(s, input)
    requires Effect(s, s', n, {input.Idem()}, CreditsOf(input, Intent(input)))
    ensures HistoryMatches(s'.(intents := Granting(s, input)))
  {
    hide InvBut;
    var t := s'.(intents := Granting(s, input));
    PromisedWith(s, input);
    forall c | c in t.stewards
      ensures t.stewards[c] in t.nodes && Remembers(t.nodes[t.stewards[c]], t.intents, c)
    {
      if c in s.stewards {
        KeepsMemory(s, s', n, c);
        RememberMore(t.nodes[t.stewards[c]], s, input, c);
      } else {
        assert input.Idem() in t.intents && CreditKey(input.Idem(), Intent(input).value) == c;
        assert input.Idem() in t.nodes[n].cache;
      }
    }
  }

  lemma RememberMore(r: Replica, s: System, input: Input, c: IdemKey)
    requires WellUsed(s, input) && Remembers(r, s.intents, c)
    ensures Remembers(r, Granting(s, input), c)
  {
  }

  lemma PromisedWith(s: System, input: Input)
    requires WellUsed(s, input) && CreditsDistinct(s.intents)
    ensures PromisedCredits(Granting(s, input)) == PromisedCredits(s.intents) + CreditsOf(input, Intent(input))
    ensures CreditsDistinct(Granting(s, input))
  {
    var after := Granting(s, input);
    forall c | c in PromisedCredits(s.intents) + CreditsOf(input, Intent(input))
      ensures c in PromisedCredits(after)
    {
      if c in PromisedCredits(s.intents) {
        var k :| k in s.intents && s.intents[k].Some? && CreditKey(k, s.intents[k].value) == c;
        assert k in after && after[k] == s.intents[k];
      } else {
        assert input.Idem() in after;
      }
    }
  }

  lemma InvFrom(s: System, n: string)
    requires InvBut(s, n, {}) && HistoryMatches(s)
    ensures Inv(s)
  {
  }

  lemma IntentsAreHistory(s: System, n: string, intents: map<IdemKey, Option<string>>)
    requires InvBut(s, n, {})
    ensures InvBut(s.(intents := intents), n, {})
  {
  }

  lemma EffectInv(s: System, s': System, n: string, clients: set<IdemKey>, credits: set<IdemKey>)
    requires Effect(s, s', n, clients, credits)
    ensures InvBut(s', n, {})
  {
  }

  lemma GrantKeeps(s: System, n: string, input: Input, outcome: (Replica, CreateResult))
    requires Inv(s) && WellUsed(s, input) && n in s.nodes && outcome.1.Created?
    requires Reaches(s, n, input, outcome, CreditsOf(input, Intent(input)))
    ensures Inv(Record(s, n, outcome.0, outcome.1.emitted).(intents := Granting(s, input)))
  {
    InvAt(s, n);
    hide InvBut, HistoryMatches, Inv, Effect, WellUsed, Record;
    var s' := Record(s, n, outcome.0, outcome.1.emitted);
    GrantHistory(s, s', n, input);
    EffectInv(s, s', n, {input.Idem()}, CreditsOf(input, Intent(input)));
    IntentsAreHistory(s', n, Granting(s, input));
    InvFrom(s'.(intents := Granting(s, input)), n);
  }

  lemma CreateKeeps(s: System, n: string, input: Input, m: Mint)
    requires Inv(s) && Enabled(s, Create(n, input, m))
    ensures Inv(Next(s, Create(n, input, m)))
  {
    hide Inv, Reaches, CreateLocal, CreateDelete, Receive, Persist;
    var outcome := CreateLocal(s.nodes[n], input, m);
    CreateOutcome(s, n, input, m);
    StartMidway(s, n);
    if Reaches(s, n, input, outcome, CreditsOf(input, Intent(input))) {
      if outcome.1.Created? {
        GrantKeeps(s, n, input, outcome);
      } else {
        FailedKeeps(s, n, input, outcome, CreditsOf(input, Intent(input)));
      }
    } else {
      assert s.intents[input.Idem() := Intent(input)] == s.intents;
    }
  }

  lemma FailedKeeps(s: System, n: string, input: Input, outcome: (Replica, CreateResult), credits: set<IdemKey>)
    requires Reaches(s, n, input, outcome, credits) && outcome.1.Failed?
    ensures Record(s, n, outcome.0, []) == s
  {
  }

  // ---- Deliveries ----

  /** `r'` has everything `r` has, but for deleted buckets. */
  ghost predicate KeepsLog(r: Replica, r': Replica) {
    && r'.cfg == r.cfg && r.deleted <= r'.deleted
    && forall k :: k in r.applied ==> k.line.bucket in r'.deleted || (k in r'.applied && r'.applied[k] == r.applied[k])
  }

  lemma ReplaceHeld(nodes: map<string, Replica>, minted: set<Event>, n: string, r': Replica)
    requires HeldAtOrigin(nodes, minted) && n in nodes && KeepsLog(nodes[n], r')
    ensures HeldAtOrigin(nodes[n := r'], minted)
  {
    forall x | x in minted && x.origin == n && x.bucket !in r'.deleted
      ensures x.Key() in r'.applied && r'.applied[x.Key()] == x
    {
      assert x.Key() in nodes[n].applied;
    }
  }

  /** Replacing a node's replica by one that lost only deleted buckets and
      learned only minted events. */
  lemma ReplaceKeepsInv(s: System, n: string, r': Replica, pending: set<Event>)
    requires InvBut(s, n, {}) && n in s.nodes && KeepsLog(s.nodes[n], r') && AppliedMinted(r'.applied, s.minted)
    requires Knows(r', pending, Stewarded(s.stewards, n))
    ensures InvBut(s.(nodes := s.nodes[n := r']), n, pending)
  {
    ReplaceHeld(s.nodes, s.minted, n, r');
    hide Knows, UniqueMints, VoidsJustified, UncheckedAreFree, HeldAtOrigin, AppliedMinted, Stewarded;
  }

  /** The replica a delivery leaves keeps the node's log and has minted events only. */
  lemma DeliveredLog(r: Replica, q: Replica, e: Event, r': Replica, minted: set<Event>)
    requires AppliedMinted(r.applied, minted) && Forgets(r, q) && e in minted && e.Key() !in q.applied
    requires r'.applied == With(q.applied, e) && r'.cfg == q.cfg && r'.deleted == q.deleted
    ensures KeepsLog(r, r') && AppliedMinted(r'.applied, minted)
  {
  }

  /** A minted event a node does not hold yet fits into its log. */
  lemma MintedIsDeliverable(s: System, n: string, e: Event)
    requires InvBut(s, n, {}) && n in s.nodes && e in s.minted && Accepts(s.nodes[n], e)
    ensures Deliverable(s.nodes[n], e)
  {
  }

  /** After a delivery has pointed the cache at the winner, at most the loser awaits its void. */
  lemma PointedKnows(q: Replica, e: Event, r1: Replica, extra: set<IdemKey>)
    requires Knows(q, {}, extra) && Accepts(q, e) && Deliverable(q, e) && Valid(r1)
    requires r1.applied == With(q.applied, e)
    ensures e.Idem() !in q.cache && r1.cache == q.cache[e.Idem() := e] ==> Knows(r1, {}, extra)
    ensures e.Idem() in q.cache && r1.cache == q.cache[e.Idem() := IdempotencyWinner(q.cache[e.Idem()], e).0] ==>
      Knows(r1, {IdempotencyWinner(q.cache[e.Idem()], e).1}, extra)
    ensures e.Idem() in q.cache ==> q.cache[e.Idem()].id != e.id
  {
    hide Valid;
    ValidParts(q);
    if e.Idem() !in q.cache {
      InstallKnows(q.applied, q.cache, e, {}, {}, extra);
    } else {
      var (winner, loser) := IdempotencyWinner(q.cache[e.Idem()], e);
      assert q.cache[e.Idem()] in Matching(q.applied, e.Idem());
      ConflictLeast(q.applied, q.cache, e, extra);
      ConflictVoids(q.applied, q.cache, e, extra);
      MatchingWith(q.applied, e, e.Idem());
      SoundWith(q.applied, q.cache, e, winner);
      LeastWith(q.applied, q.cache, e, winner, extra);
    }
  }

  lemma ValidParts(r: Replica)
    requires Valid(r)
    ensures WellFormed(r.applied) && StoredAgrees(r.stored, r.applied)
  {
  }

  /** A loser whose void key is cached or stored is already voided. */
  lemma KnownVoidSuffices(r: Replica, loser: Event, extra: set<IdemKey>)
    requires Knows(r, {loser}, extra)
    requires VoidKey(loser) in r.cache || Matching(r.stored, VoidKey(loser)) != {}
    ensures Knows(r, {}, extra)
  {
  }

  /** Two minted events of one key, the first of which wins. */
  ghost predicate Duplicates(s: System, winner: Event, loser: Event) {
    winner in s.minted && loser in s.minted && winner.Idem() == loser.Idem() && Precedes(winner, loser)
  }

  lemma VoidMayMint(s: System, n: string, winner: Event, loser: Event, m: Mint)
    requires InvBut(s, n, {loser}) && n in s.nodes && NewIds(s, m) && Duplicates(s, winner, loser)
    requires loser.bucket !in s.nodes[n].deleted && VoidKey(loser) !in s.nodes[n].cache
    ensures MayMint(s, n, VoidEvent(s.nodes[n], winner, loser, m.now, m.first))
  {
    hide Valid, UniqueMints, HeldAtOrigin, VoidsJustified, UncheckedAreFree, CreditsStewarded, CacheSound,
         LosersVoided, Matching, Stewarded, IsVoidNonce, IsUncheckedNonce, IsCreditNonce;
    var r := s.nodes[n];
    var v := VoidEvent(r, winner, loser, m.now, m.first);
    DerivedNonceClasses(loser.id);
    JustifiedBy(s.minted, v, winner, loser);
    assert CacheLeast(r.applied, r.cache, Stewarded(s.stewards, n));
    assert v.Idem() == VoidKey(loser) && Watched(v.Idem(), Stewarded(s.stewards, n));
    assert Matching(r.applied, v.Idem()) == {};
    IdsAreNew(s, n, m.first);
  }

  lemma JustifiedBy(minted: set<Event>, v: Event, winner: Event, loser: Event)
    requires winner in minted && loser in minted && winner.Idem() == loser.Idem() && Precedes(winner, loser)
    requires v.Idem() == VoidKey(loser)
    ensures Justified(minted, v, loser)
  {
  }

  lemma IdsAreNew(s: System, n: string, id: string)
    requires n in s.nodes && AppliedMinted(s.nodes[n].applied, s.minted) && NewId(s, id)
    ensures IdFresh(s.nodes[n].applied, id)
  {
  }

  /** Minting the void, and the release of a hold, of the loser of a conflict. */
  lemma CorrectionsEffect(s: System, n: string, winner: Event, loser: Event, m: Mint)
    requires InvBut(s, n, {loser}) && n in s.nodes && NewIds(s, m) && Duplicates(s, winner, loser)
    requires loser.bucket !in s.nodes[n].deleted && VoidKey(loser) !in s.nodes[n].cache
    ensures var (r', corrections) := EmitCorrections(s.nodes[n], winner, loser, m);
      Effect(s, Record(s, n, r', corrections), n, {}, {})
  {
    hide InvBut, MayMint, Effect, Record, Stewards;
    var v := VoidEvent(s.nodes[n], winner, loser, m.now, m.first);
    VoidMayMint(s, n, winner, loser, m);
    DerivedNonceClasses(loser.id);
    MintEffect(s, n, v, {loser});
    StartMidway(s, n);
    MidwayMint(s, s, n, [], v);
    assert [] + [v] == [v];
    var t := WithMint(s, n, v);
    EffectInv(s, t, n, {}, {});
    if loser.HasHold() && ReleaseKey(loser) !in t.nodes[n].cache {
      var release := LoserReleaseEvent(t.nodes[n], winner, loser, m.now, m.second);
      MintFree(t, n, release);
      MidwayMint(s, t, n, [v], release);
      assert [v] + [release] == [v, release];
      EffectChain(s, t, WithMint(t, n, release), n, {}, {}, {}, {});
      var none: set<IdemKey> := {};
      assert none + none == none;
    }
  }

  /** The cache entry a delivery leaves. */
  function Pointed(r: Replica, e: Event): Replica {
    if e.Idem() !in r.cache || r.cache[e.Idem()].id == e.id then r.(cache := r.cache[e.Idem() := e])
    else r.(cache := r.cache[e.Idem() := IdempotencyWinner(r.cache[e.Idem()], e).0])
  }

  lemma PointedIsValid(a: Replica, e: Event)
    requires Valid(a)
    ensures Valid(Pointed(a, e))
  {
  }

  lemma RecordReplaced(s: System, n: string, r': Replica)
    ensures Record(s, n, r', []) == s.(nodes := s.nodes[n := r'])
  {
  }

  lemma RecordOver(s: System, n: string, r1: Replica, r': Replica, events: seq<Event>)
    ensures Record(s.(nodes := s.nodes[n := r1]), n, r', events) == Record(s, n, r', events)
  {
    assert s.nodes[n := r1][n := r'] == s.nodes[n := r'];
  }

  /** `q` is node `n` just before event `e` joins its log, `r1` just after the cache points at the winner. */
  ghost predicate Delivering(s: System, n: string, q: Replica, e: Event, r1: Replica) {
    && InvBut(s, n, {}) && n in s.nodes && Forgets(s.nodes[n], q) && e in s.minted
    && Knows(q, {}, Stewarded(s.stewards, n)) && Accepts(q, e) && Deliverable(q, e)
    && r1.applied == With(q.applied, e) && r1.cfg == q.cfg && r1.deleted == q.deleted
    && KeepsKeys(s.nodes[n], r1)
  }

  /** Replacing a replica mints nothing. */
  lemma ReplaceEffect(s: System, n: string, r': Replica)
    requires n in s.nodes && KeepsKeys(s.nodes[n], r') && InvBut(s.(nodes := s.nodes[n := r']), n, {})
    ensures Effect(s, s.(nodes := s.nodes[n := r']), n, {}, {})
  {
  }

  lemma DeliveringLog(s: System, n: string, q: Replica, e: Event, r1: Replica)
    requires Delivering(s, n, q, e, r1)
    ensures n in s.nodes && KeepsLog(s.nodes[n], r1) && AppliedMinted(r1.applied, s.minted)
  {
    NodeFacts(s, n, n, {});
    AcceptsNew(q, e);
    DeliveredLog(s.nodes[n], q, e, r1, s.minted);
    hide InvBut, Knows, Valid, KeepsLog, AppliedMinted;
  }

  lemma AcceptsNew(q: Replica, e: Event)
    requires Accepts(q, e)
    ensures e.Key() !in q.applied
  {
  }

  lemma QuietEffect(s: System, n: string, q: Replica, e: Event, r1: Replica)
    requires Delivering(s, n, q, e, r1) && Knows(r1, {}, Stewarded(s.stewards, n))
    ensures Effect(s, Record(s, n, r1, []), n, {}, {})
  {
    hide InvBut, Knows, Deliverable, Effect, Record, KeepsKeys;
    DeliveringLog(s, n, q, e, r1);
    ReplaceKeepsInv(s, n, r1, {});
    RecordReplaced(s, n, r1);
    ReplaceEffect(s, n, r1);
  }

  /** An effect on the replaced replica is one on the original. */
  lemma OverEffect(s: System, n: string, r1: Replica, s': System)
    requires n in s.nodes && KeepsKeys(s.nodes[n], r1)
    requires Effect(s.(nodes := s.nodes[n := r1]), s', n, {}, {})
    ensures Effect(s, s', n, {}, {})
  {
    hide InvBut;
    var t := s.(nodes := s.nodes[n := r1]);
    assert s'.nodes == s.nodes[n := s'.nodes[n]];
    forall k | k in s.nodes[n].cache
      ensures k in s'.nodes[n].cache || k.bucket in s'.nodes[n].deleted
    {
      assert k in t.nodes[n].cache || k.bucket in t.nodes[n].deleted;
    }
  }

  lemma CorrectedEffect(s: System, n: string, q: Replica, e: Event, r1: Replica, winner: Event, loser: Event, m: Mint)
    requires Delivering(s, n, q, e, r1) && Knows(r1, {loser}, Stewarded(s.stewards, n)) && NewIds(s, m)
    requires Duplicates(s, winner, loser) && winner.Idem() == e.Idem()
    requires VoidKey(loser) !in r1.cache
    ensures var (r', corrections) := EmitCorrections(r1, winner, loser, m);
      Effect(s, Record(s, n, r', corrections), n, {}, {})
  {
    hide InvBut, Knows, Deliverable, EmitCorrections, Effect, Record, KeepsKeys;
    DeliveringLog(s, n, q, e, r1);
    ReplaceKeepsInv(s, n, r1, {loser});
    var t := s.(nodes := s.nodes[n := r1]);
    CorrectionsEffect(t, n, winner, loser, m);
    var (r', corrections) := EmitCorrections(r1, winner, loser, m);
    RecordOver(s, n, r1, r', corrections);
    OverEffect(s, n, r1, Record(t, n, r', corrections));
  }

  /** Both sides of a conflict are minted events of one key. */
  lemma ConflictMinted(s: System, q: Replica, e: Event, extra: set<IdemKey>)
    requires Knows(q, {}, extra) && Accepts(q, e) && Deliverable(q, e) && e in s.minted
    requires AppliedMinted(q.applied, s.minted) && e.Idem() in q.cache
    ensures var (winner, loser) := IdempotencyWinner(q.cache[e.Idem()], e);
      Duplicates(s, winner, loser) && winner.Idem() == e.Idem()
  {
  }

  lemma ForgetsMinted(s: System, n: string, q: Replica)
    requires InvBut(s, n, {}) && n in s.nodes && Forgets(s.nodes[n], q)
    ensures AppliedMinted(q.applied, s.minted)
  {
  }

  lemma ResolveEffect(s: System, n: string, q: Replica, e: Event, m: Mint)
    requires Delivering(s, n, q, e, Pointed(q.(applied := With(q.applied, e)), e)) && NewIds(s, m)
    requires Valid(q.(applied := With(q.applied, e)))
    ensures var (r', corrections) := Resolve(q.(applied := With(q.applied, e)), e, m);
      Effect(s, Record(s, n, r', corrections), n, {}, {})
  {
    hide InvBut, Knows, Accepts, Deliverable, Effect, Record, EmitCorrections, KeepsKeys;
    var a := q.(applied := With(q.applied, e));
    var r1 := Pointed(a, e);
    PointedIsValid(a, e);
    PointedKnows(q, e, r1, Stewarded(s.stewards, n));
    if e.Idem() !in a.cache {
      QuietEffect(s, n, q, e, r1);
    } else {
      var (winner, loser) := IdempotencyWinner(a.cache[e.Idem()], e);
      if VoidKey(loser) in r1.cache || Matching(r1.stored, VoidKey(loser)) != {} {
        KnownVoidSuffices(r1, loser, Stewarded(s.stewards, n));
        QuietEffect(s, n, q, e, r1);
      } else {
        ForgetsMinted(s, n, q);
        ConflictMinted(s, q, e, Stewarded(s.stewards, n));
        CorrectedEffect(s, n, q, e, r1, winner, loser, m);
      }
    }
  }

  lemma PointedKeeps(r: Replica, q: Replica, e: Event)
    requires KeepsKeys(r, q)
    ensures KeepsKeys(r, Pointed(q.(applied := With(q.applied, e)), e))
  {
  }

  lemma ReceiveEffect(s: System, n: string, e: Event, m: Mint)
    requires InvBut(s, n, {}) && n in s.nodes && e in s.minted && Accepts(s.nodes[n], e) && NewIds(s, m)
    ensures var (r', corrections) := Receive(s.nodes[n], e, m);
      Effect(s, Record(s, n, r', corrections), n, {}, {})
  {
    hide InvBut, Accepts, Deliverable, Knows, Resolve, Effect, Record, KeepsKeys, Valid;
    MintedIsDeliverable(s, n, e);
    NodeFacts(s, n, n, {});
    var q := AdmitFrom(s.nodes[n], e, Stewarded(s.stewards, n));
    PointedKeeps(s.nodes[n], q, e);
    ResolveEffect(s, n, q, e, m);
  }

  lemma QuietKeeps(s: System, s': System, n: string)
    requires Inv(s) && Effect(s, s', n, {}, {})
    ensures Inv(s')
  {
    hide InvBut, HistoryMatches, Effect;
    InvAt(s, n);
    QuietHistory(s, s', n);
    EffectInv(s, s', n, {}, {});
    InvFrom(s', n);
  }

  lemma DeliverKeeps(s: System, n: string, e: Event, m: Mint)
    requires Inv(s) && Enabled(s, Deliver(n, e, m))
    ensures Inv(Next(s, Deliver(n, e, m)))
  {
    hide InvBut, HistoryMatches, Accepts, Resolve, Effect, CreateLocal, CreateDelete, Persist;
    InvAt(s, n);
    var (r', corrections) := Receive(s.nodes[n], e, m);
    if Accepts(s.nodes[n], e) {
      ReceiveEffect(s, n, e, m);
      QuietKeeps(s, Record(s, n, r', corrections), n);
    } else {
      StartMidway(s, n);
    }
  }

  // ---- Flushes and bucket deletes ----

  lemma SameLogKeeps(s: System, n: string, r': Replica)
    requires InvBut(s, n, {}) && n in s.nodes && Knows(r', {}, Stewarded(s.stewards, n))
    requires r'.applied == s.nodes[n].applied && r'.deleted == s.nodes[n].deleted && r'.cfg == s.nodes[n].cfg
    ensures InvBut(s.(nodes := s.nodes[n := r']), n, {})
  {
    hide Knows, HeldAtOrigin, InvBut;
    NodeFacts(s, n, n, {});
    ReplaceKeepsInv(s, n, r', {});
  }

  lemma PersistFields(r: Replica, keys: set<OriginKey>)
    ensures Persist(r, keys) == r.(stored := Persist(r, keys).stored) && KeepsKeys(r, Persist(r, keys))
  {
  }

  lemma FlushKeeps(s: System, n: string, keys: set<OriginKey>)
    requires Inv(s) && n in s.nodes
    ensures Inv(Next(s, Flush(n, keys)))
  {
    hide InvBut, HistoryMatches, Knows, Persist, Valid, Effect, CreateLocal, CreateDelete, Receive, KeepsKeys;
    InvAt(s, n);
    NodeFacts(s, n, n, {});
    var r' := Persist(s.nodes[n], keys);
    PersistKnows(s.nodes[n], keys, Stewarded(s.stewards, n));
    PersistFields(s.nodes[n], keys);
    SameLogKeeps(s, n, r');
    ReplaceEffect(s, n, r');
    RecordReplaced(s, n, r');
    QuietKeeps(s, s.(nodes := s.nodes[n := r']), n);
  }

  lemma AppendKnows(r: Replica, e: Event, extra: set<IdemKey>)
    requires Knows(r, {}, extra) && MintsNext(r, e) && !Watched(e.Idem(), extra)
    ensures Knows(Appended(r, e), {}, extra)
  {
    MintedValid(r, e);
    forall key
      ensures Matching(With(r.applied, e), key) == Matching(r.applied, key) + (if e.Idem() == key then {e} else {})
    {
      MatchingWith(r.applied, e, key);
    }
    VoidsWith(r.applied, e, {}, {}, extra);
  }

  /** Appending the meta event reaches the same state as minting it, but for
      the cache, which no unwatched event touches. */
  lemma AppendKeeps(s: System, n: string, e: Event)
    requires InvBut(s, n, {}) && MayMint(s, n, e) && IsUncheckedNonce(e.nonce) && !IsCreditNonce(e.nonce)
    ensures InvBut(WithMint(s, n, e).(nodes := s.nodes[n := Appended(s.nodes[n], e)]), n, {})
  {
    hide InvBut, Knows, Valid, MayMint, MintsNext;
    MayMintAt(s, n, e);
    NodeFacts(s, n, n, {});
    MintKeepsInv(s, n, e, {}, {});
    NotWatched(s, n, e);
    AppendKnows(s.nodes[n], e, Stewarded(s.stewards, n));
    ChargeStewardsNothing(s, n, e);
    var t := WithMint(s, n, e);
    SameLogKeeps(t, n, Appended(s.nodes[n], e));
    assert t.nodes[n := Appended(s.nodes[n], e)] == s.nodes[n := Appended(s.nodes[n], e)];
  }

  lemma NotWatched(s: System, n: string, e: Event)
    requires InvBut(s, n, {}) && MayMint(s, n, e) && IsUncheckedNonce(e.nonce) && !IsCreditNonce(e.nonce)
    ensures MintsNext(s.nodes[n], e) && !Watched(e.Idem(), Stewarded(s.stewards, n))
  {
  }

  /** A purge is a deletion of nothing but the bucket. */
  lemma PurgeForgets(r: Replica, bucket: string)
    requires WellFormed(r.applied)
    ensures Forgets(r, Purge(r, bucket)) && KeepsKeys(r, Purge(r, bucket))
  {
  }

  lemma ForgottenLog(r: Replica, q: Replica, minted: set<Event>)
    requires AppliedMinted(r.applied, minted) && Forgets(r, q)
    ensures KeepsLog(r, q) && AppliedMinted(q.applied, minted)
  {
  }

  lemma PurgeKeeps(s: System, n: string, bucket: string)
    requires InvBut(s, n, {}) && n in s.nodes && bucket != META_BUCKET
    ensures InvBut(s.(nodes := s.nodes[n := Purge(s.nodes[n], bucket)]), n, {})
    ensures KeepsKeys(s.nodes[n], Purge(s.nodes[n], bucket))
  {
    hide Knows, Purge, Forgets, InvBut, KeepsKeys, KeepsLog, AppliedMinted, Valid;
    NodeFacts(s, n, n, {});
    PurgeKnows(s.nodes[n], bucket, Stewarded(s.stewards, n));
    PurgeForgets(s.nodes[n], bucket);
    ForgottenLog(s.nodes[n], Purge(s.nodes[n], bucket), s.minted);
    ReplaceKeepsInv(s, n, Purge(s.nodes[n], bucket), {});
  }

  lemma MetaMayMint(s: System, n: string, q: Replica, bucket: string, reason: Option<string>, m: Mint)
    requires InvBut(s, n, {}) && n in s.nodes && NewIds(s, m) && s.nodes[n] == q
    ensures MayMint(s, n, DeleteEvent(q, bucket, reason, m))
  {
    DerivedNonceClasses(bucket);
  }

  /** Appending an event nobody watches has no effect on the history. */
  lemma AppendEffect(s: System, n: string, e: Event)
    requires InvBut(s, n, {}) && MayMint(s, n, e) && IsUncheckedNonce(e.nonce) && !IsCreditNonce(e.nonce)
    ensures n in s.nodes
    ensures Effect(s, Record(s, n, Appended(s.nodes[n], e), [e]), n, {}, {})
  {
    hide InvBut, MayMint, Stewards;
    MayMintAt(s, n, e);
    DerivedNonceClasses("");
    AppendKeeps(s, n, e);
    KeysWith(s.minted, e);
    ChargeStewardsNothing(s, n, e);
    assert (set x | x in [e]) == {e};
    assert Record(s, n, Appended(s.nodes[n], e), [e]) == WithMint(s, n, e).(nodes := s.nodes[n := Appended(s.nodes[n], e)]);
  }

  lemma DeletedEffect(s: System, n: string, bucket: string, reason: Option<string>, m: Mint)
    requires InvBut(s, n, {}) && n in s.nodes && NewIds(s, m)
    requires CreateDelete(s.nodes[n], bucket, reason, m).1.Created?
    ensures var (r', result) := CreateDelete(s.nodes[n], bucket, reason, m);
      Effect(s, Record(s, n, r', result.emitted), n, {}, {})
  {
    hide InvBut, MayMint, Effect, Record, CreateDelete, Purge, Appended, KeepsKeys;
    var q := Purge(s.nodes[n], bucket);
    var t := s.(nodes := s.nodes[n := q]);
    var e := DeleteEvent(q, bucket, reason, m);
    DeleteResult(s.nodes[n], bucket, reason, m);
    PurgeKeeps(s, n, bucket);
    MetaMayMint(t, n, q, bucket, reason, m);
    DerivedNonceClasses(bucket);
    AppendEffect(t, n, e);
    RecordOver(s, n, q, Appended(q, e), [e]);
    OverEffect(s, n, q, Record(t, n, Appended(q, e), [e]));
  }

  lemma DeleteKeeps(s: System, n: string, bucket: string, reason: Option<string>, m: Mint)
    requires Inv(s) && Enabled(s, Delete(n, bucket, reason, m))
    ensures Inv(Next(s, Delete(n, bucket, reason, m)))
  {
    hide InvBut, HistoryMatches, Effect, CreateLocal, Receive, Persist, Record;
    InvAt(s, n);
    StartMidway(s, n);
    var (r', result) := CreateDelete(s.nodes[n], bucket, reason, m);
    if result.Created? {
      DeletedEffect(s, n, bucket, reason, m);
      QuietKeeps(s, Record(s, n, r', result.emitted), n);
    }
  }

  // ---- Whole runs ----

  lemma StepKeepsInv(s: System, step: Step)
    requires Inv(s)
    ensures Inv(Next(s, step))
  {
    hide Inv;
    if Enabled(s, step) {
      match step
      case Create(n, input, m) => CreateKeeps(s, n, input, m);
      case Delete(n, bucket, reason, m) => DeleteKeeps(s, n, bucket, reason, m);
      case Deliver(n, e, m) => DeliverKeeps(s, n, e, m);
      case Flush(n, keys) => FlushKeeps(s, n, keys);
    }
  }

  lemma InitialInv(s: System)
    requires Initial(s)
    ensures Inv(s)
  {
  }

  lemma NextNodes(s: System, step: Step)
    ensures Next(s, step).nodes.Keys == s.nodes.Keys
  {
  }

  /** Every run of a fresh cluster, whatever its interleaving, keeps the invariant. */
  lemma {:induction false} RunsKeepInv(s: System, steps: seq<Step>)
    requires Initial(s)
    ensures Inv(Run(s, steps)) && Run(s, steps).nodes.Keys == s.nodes.Keys
    decreases |steps|
  {
    if steps == [] {
      InitialInv(s);
    } else {
      hide Inv, Initial, Next;
      RunsKeepInv(s, steps[..|steps| - 1]);
      StepKeepsInv(Run(s, steps[..|steps| - 1]), steps[|steps| - 1]);
      NextNodes(Run(s, steps[..|steps| - 1]), steps[|steps| - 1]);
    }
  }
}
