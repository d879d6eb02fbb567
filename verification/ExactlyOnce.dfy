/** Exactly-once charging. Once all nodes have applied the same events of a live
    bucket, the balance of an account counts each granted client request once,
    and each transfer to it once, however many duplicates, duplicate voids and
    voids of voids were minted on the way. */
module ExactlyOnce {
  import opened Types
  import opened Sums
  import opened Ledger
  import opened ReplicaModel
  import opened Tracking
  import opened Cluster

  ghost predicate Live(s: System, bucket: string) {
    forall n :: n in s.nodes ==> bucket !in s.nodes[n].deleted
  }

  /** All nodes have applied the same events of the bucket. */
  ghost predicate Converged(s: System, bucket: string) {
    forall n, m, k :: n in s.nodes && m in s.nodes && k in s.nodes[n].applied && k.line.bucket == bucket ==>
      k in s.nodes[m].applied
  }

  ghost function KeysOf(keys: set<IdemKey>, owner: BalanceKey): set<IdemKey> {
    set k | k in keys && k.bucket == owner.bucket && k.account == owner.account
  }

  /** The requests whose transfer credits the account. */
  ghost function TransfersTo(intents: map<IdemKey, Option<string>>, owner: BalanceKey): set<IdemKey> {
    set k | k in intents && intents[k] == Some(owner.account) && k.bucket == owner.bucket
  }

  function AbsAmount(k: IdemKey): int {
    Abs(k.amount)
  }

  /** Some applied event of the same key precedes `e`. */
  ghost predicate Beaten(log: Log, e: Event) {
    !IsLeast(Matching(log, e.Idem()), e)
  }

  /** What a converged node's log and the global history say about each other, for one account. */
  ghost predicate AccountComplete(log: Log, minted: set<Event>, owner: BalanceKey) {
    && WellFormed(log) && VoidsJustified(minted) && UncheckedAreFree(minted)
    && (forall x :: x in EventsOf(log, owner) && x.amount != 0 && Beaten(log, x) ==> IsVoided(log, x))
    && (forall x: Event :: x.Owner() == owner ==> (x in minted <==> x.Key() in log && log[x.Key()] == x))
  }

  // ---- A converged account is complete ----

  lemma NodeAt(s: System, n: string)
    requires Inv(s) && n in s.nodes
    ensures Knows(s.nodes[n], {}, Stewarded(s.stewards, n))
    ensures Valid(s.nodes[n]) && WellFormed(s.nodes[n].applied)
    ensures s.nodes[n].cfg.nodeId == n && AppliedMinted(s.nodes[n].applied, s.minted)
  {
  }

  lemma HistoryAt(s: System)
    requires Inv(s)
    ensures UniqueMints(s.minted) && HeldAtOrigin(s.nodes, s.minted) && VoidsJustified(s.minted)
    ensures UncheckedAreFree(s.minted) && CreditsStewarded(s) && HistoryMatches(s)
  {
  }

  /** One event of a converged bucket, at two nodes. */
  lemma SameEvent(s: System, n: string, m: string, x: Event)
    requires Inv(s) && Converged(s, x.bucket) && n in s.nodes && m in s.nodes
    requires x.Key() in s.nodes[n].applied && s.nodes[n].applied[x.Key()] == x
    ensures x.Key() in s.nodes[m].applied && s.nodes[m].applied[x.Key()] == x
  {
    NodeAt(s, n);
    NodeAt(s, m);
    HistoryAt(s);
    hide Inv, Knows, Valid;
    assert x.Key() in s.nodes[m].applied;
    assert s.nodes[m].applied[x.Key()] in s.minted && s.nodes[m].applied[x.Key()].Key() == x.Key();
  }

  lemma SameMatching(s: System, n: string, m: string, key: IdemKey)
    requires Inv(s) && Converged(s, key.bucket) && n in s.nodes && m in s.nodes
    ensures Matching(s.nodes[n].applied, key) == Matching(s.nodes[m].applied, key)
  {
    hide Inv, Converged;
    MatchingIncluded(s, n, m, key);
    MatchingIncluded(s, m, n, key);
  }

  lemma MatchingIncluded(s: System, n: string, m: string, key: IdemKey)
    requires Inv(s) && Converged(s, key.bucket) && n in s.nodes && m in s.nodes
    ensures Matching(s.nodes[n].applied, key) <= Matching(s.nodes[m].applied, key)
  {
  }

  /** A beaten event is voided at any node that watches its key. */
  lemma WatcherVoids(r: Replica, extra: set<IdemKey>, x: Event)
    requires Knows(r, {}, extra) && Watched(x.Idem(), extra)
    requires x in Matching(r.applied, x.Idem()) && Beaten(r.applied, x)
    ensures IsVoided(r.applied, x)
  {
  }

  /** A credit is watched by its steward, whose void every node of the converged bucket has. */
  lemma StewardVoids(s: System, n: string, m: string, x: Event)
    requires Inv(s) && Converged(s, x.bucket) && n in s.nodes && m in s.nodes
    requires x.Idem() in s.stewards && s.stewards[x.Idem()] == m
    requires x in Matching(s.nodes[n].applied, x.Idem()) && Beaten(s.nodes[n].applied, x)
    ensures IsVoided(s.nodes[n].applied, x)
  {
    hide Inv, Knows, Valid, Converged, Matching, IsLeast;
    NodeAt(s, m);
    SameMatching(s, n, m, x.Idem());
    SameMatching(s, n, m, VoidKey(x));
    assert Watched(x.Idem(), Stewarded(s.stewards, m));
    WatcherVoids(s.nodes[m], Stewarded(s.stewards, m), x);
  }

  lemma AppliedIsMatching(log: Log, owner: BalanceKey, minted: set<Event>, x: Event)
    requires AppliedMinted(log, minted) && x in EventsOf(log, owner)
    ensures x in minted && x in Matching(log, x.Idem()) && x.bucket == owner.bucket
  {
  }

  lemma UncheckedMoneyIsStewarded(s: System, x: Event)
    requires UncheckedAreFree(s.minted) && CreditsStewarded(s) && x in s.minted && x.amount != 0
    requires IsUncheckedNonce(x.nonce)
    ensures x.Idem() in s.stewards && s.stewards[x.Idem()] in s.nodes
  {
  }

  /** Client and void keys are watched everywhere, credits somewhere. */
  lemma BeatenIsVoided(s: System, owner: BalanceKey, n: string, x: Event)
    requires Inv(s) && Converged(s, owner.bucket) && n in s.nodes
    requires x in EventsOf(s.nodes[n].applied, owner) && x.amount != 0 && Beaten(s.nodes[n].applied, x)
    ensures IsVoided(s.nodes[n].applied, x)
  {
    hide Inv, Knows, Valid, Converged, HistoryMatches, HeldAtOrigin, UniqueMints, VoidsJustified, Matching, Beaten,
         EventsOf, Stewarded;
    hide UncheckedAreFree, CreditsStewarded, AppliedMinted;
    NodeAt(s, n);
    HistoryAt(s);
    AppliedIsMatching(s.nodes[n].applied, owner, s.minted, x);
    if IsUncheckedNonce(x.nonce) {
      UncheckedMoneyIsStewarded(s, x);
      StewardVoids(s, n, s.stewards[x.Idem()], x);
    } else {
      WatcherVoids(s.nodes[n], Stewarded(s.stewards, n), x);
    }
  }

  /** A converged node's log has the account's minted events and no others. */
  lemma ConvergedHolds(s: System, owner: BalanceKey, n: string, x: Event)
    requires Inv(s) && Live(s, owner.bucket) && Converged(s, owner.bucket) && n in s.nodes && x.Owner() == owner
    ensures x in s.minted <==> x.Key() in s.nodes[n].applied && s.nodes[n].applied[x.Key()] == x
  {
    NodeAt(s, n);
    HistoryAt(s);
    hide Inv, Knows, Valid, Converged, HistoryMatches, VoidsJustified, UncheckedAreFree, UniqueMints,
         CreditsStewarded, WellFormed;
    if x in s.minted {
      SameEvent(s, x.origin, n, x);
    }
  }

  lemma ConvergedIsComplete(s: System, owner: BalanceKey, n: string)
    requires Inv(s) && Live(s, owner.bucket) && Converged(s, owner.bucket)
    requires n in s.nodes
    ensures AccountComplete(s.nodes[n].applied, s.minted, owner)
  {
    NodeAt(s, n);
    HistoryAt(s);
    hide Inv, Knows, Valid, Live, Converged, HistoryMatches, VoidsJustified, UncheckedAreFree, Beaten, IsVoided,
         UniqueMints, HeldAtOrigin;
    hide CreditsStewarded, WellFormed, EventsOf, AppliedMinted;
    var log := s.nodes[n].applied;
    forall x | x in EventsOf(log, owner) && x.amount != 0 && Beaten(log, x)
      ensures IsVoided(log, x)
    {
      BeatenIsVoided(s, owner, n, x);
    }
    forall x: Event | x.Owner() == owner
      ensures x in s.minted <==> x.Key() in log && log[x.Key()] == x
    {
      ConvergedHolds(s, owner, n, x);
    }
  }

  // ---- The partition of an account's money ----

  /** Events that move money and lost to a duplicate. */
  ghost function Losers(log: Log, owner: BalanceKey): set<Event> {
    set x | x in EventsOf(log, owner) && x.amount != 0 && Beaten(log, x)
  }

  ghost function Winners(log: Log, owner: BalanceKey): set<Event> {
    set x | x in EventsOf(log, owner) && x.amount != 0 && !Beaten(log, x)
  }

  ghost function WinningVoids(log: Log, owner: BalanceKey): set<Event> {
    set x | x in Winners(log, owner) && IsVoidNonce(x.nonce)
  }

  ghost function WinningCredits(log: Log, owner: BalanceKey): set<Event> {
    set x | x in Winners(log, owner) && IsCreditNonce(x.nonce)
  }

  ghost function WinningRequests(log: Log, owner: BalanceKey): set<Event> {
    set x | x in Winners(log, owner) && IsClientNonce(x.nonce)
  }

  lemma WinnersSplit(log: Log, minted: set<Event>, owner: BalanceKey)
    requires AccountComplete(log, minted, owner)
    ensures WinningVoids(log, owner) !! WinningCredits(log, owner)
    ensures WinningVoids(log, owner) + WinningCredits(log, owner) !! WinningRequests(log, owner)
    ensures Winners(log, owner) == WinningVoids(log, owner) + WinningCredits(log, owner) + WinningRequests(log, owner)
  {
    hide Beaten, IsVoided;
    DerivedNonceClasses("");
    forall x | x in Winners(log, owner)
      ensures IsVoidNonce(x.nonce) || IsCreditNonce(x.nonce) || IsClientNonce(x.nonce)
    {
      assert x in minted;
    }
  }

  lemma BalanceSplits(log: Log, minted: set<Event>, owner: BalanceKey)
    requires AccountComplete(log, minted, owner)
    ensures Balance(log, owner) == SumOf(Losers(log, owner), AmountOf) + SumOf(WinningVoids(log, owner), AmountOf)
      + SumOf(WinningCredits(log, owner), AmountOf) + SumOf(WinningRequests(log, owner), AmountOf)
  {
    WinnersSplit(log, minted, owner);
    hide AccountComplete, WinningVoids, WinningCredits, WinningRequests, Beaten;
    var all := EventsOf(log, owner);
    var free := set x | x in all && x.amount == 0;
    var losers, winners := Losers(log, owner), Winners(log, owner);
    SumUnion(WinningVoids(log, owner), WinningCredits(log, owner), AmountOf);
    SumUnion(WinningVoids(log, owner) + WinningCredits(log, owner), WinningRequests(log, owner), AmountOf);
    SumUnion(losers, winners, AmountOf);
    SumUnion(free, losers + winners, AmountOf);
    SumZero(free, AmountOf);
    assert all == free + (losers + winners);
  }

  // ---- Losers and winning voids cancel ----

  /** The void that cancels a loser: the winner among all its voids. */
  ghost function VoidFor(log: Log, loser: Event): Event
    requires IsVoided(log, loser)
  {
    LeastOf(Matching(log, VoidKey(loser)))
  }

  lemma VoidForIsWinningVoid(log: Log, owner: BalanceKey, loser: Event)
    requires WellFormed(log) && loser in Losers(log, owner) && IsVoided(log, loser)
    ensures VoidFor(log, loser) in WinningVoids(log, owner)
    ensures VoidFor(log, loser).amount == -loser.amount
    ensures VoidFor(log, loser).nonce == VoidNonce(loser.id)
  {
  }

  /** Every winning void is the one that cancels some loser. */
  lemma WinningVoidHasLoser(log: Log, minted: set<Event>, owner: BalanceKey, v: Event) returns (loser: Event)
    requires AccountComplete(log, minted, owner) && v in WinningVoids(log, owner)
    ensures loser in Losers(log, owner) && IsVoided(log, loser) && VoidFor(log, loser) == v
  {
    assert v in minted;
    loser :| Justified(minted, v, loser);
    assert loser.Owner() == owner && loser.amount == -v.amount;
    var w :| w in minted && w.Idem() == loser.Idem() && Precedes(w, loser);
    assert w.Owner() == owner;
    assert loser in EventsOf(log, owner) && w in Matching(log, loser.Idem());
    PrecedesTotal(w, loser);
    assert Beaten(log, loser);
    assert v in Matching(log, VoidKey(loser));
    MatchingDistinct(log, VoidKey(loser));
    LeastUnique(Matching(log, VoidKey(loser)), v, VoidFor(log, loser));
  }

  ghost function Cancelling(log: Log, owner: BalanceKey): map<Event, Event>
    requires forall x :: x in Losers(log, owner) ==> IsVoided(log, x)
  {
    map x | x in Losers(log, owner) :: VoidFor(log, x)
  }

  /** The pairing is one to one. */
  lemma CancellingIsInjective(log: Log, owner: BalanceKey)
    requires WellFormed(log) && forall x :: x in Losers(log, owner) ==> IsVoided(log, x)
    ensures var m := Cancelling(log, owner);
      && (forall x :: x in m ==> m[x] in WinningVoids(log, owner) && m[x].amount == -x.amount)
      && (forall x, y :: x in m && y in m && m[x] == m[y] ==> x == y)
  {
    hide WinningVoids, VoidFor, IsVoided, Beaten;
    var m := Cancelling(log, owner);
    forall x | x in m
      ensures m[x] in WinningVoids(log, owner) && m[x].amount == -x.amount && m[x].nonce == VoidNonce(x.id)
    {
      VoidForIsWinningVoid(log, owner, x);
    }
    forall x, y | x in m && y in m && m[x] == m[y]
      ensures x == y
    {
      VoidNonceInjective(x.id, y.id);
      assert x.Key() in log && y.Key() in log;
    }
  }

  lemma CancellingIsOnto(log: Log, minted: set<Event>, owner: BalanceKey)
    requires AccountComplete(log, minted, owner) && forall x :: x in Losers(log, owner) ==> IsVoided(log, x)
    ensures forall v :: v in WinningVoids(log, owner) ==> v in Cancelling(log, owner).Values
  {
    hide WinningVoids, VoidFor, AccountComplete, IsVoided, Losers;
    var m := Cancelling(log, owner);
    forall v | v in WinningVoids(log, owner)
      ensures v in m.Values
    {
      var loser := WinningVoidHasLoser(log, minted, owner, v);
      assert m[loser] == v;
    }
  }

  lemma AllLosersVoided(log: Log, minted: set<Event>, owner: BalanceKey)
    requires AccountComplete(log, minted, owner)
    ensures WellFormed(log) && forall x :: x in Losers(log, owner) ==> IsVoided(log, x)
  {
  }

  lemma LosersCancel(log: Log, minted: set<Event>, owner: BalanceKey)
    requires AccountComplete(log, minted, owner)
    ensures SumOf(Losers(log, owner), AmountOf) + SumOf(WinningVoids(log, owner), AmountOf) == 0
  {
    hide WinningVoids, VoidFor, AccountComplete, IsVoided, Losers;
    AllLosersVoided(log, minted, owner);
    CancellingIsInjective(log, owner);
    CancellingIsOnto(log, minted, owner);
    var m := Cancelling(log, owner);
    assert m.Keys == Losers(log, owner);
    assert m.Values == WinningVoids(log, owner);
    SumAlong(m, AmountOf, AmountOf, -1);
  }

  // ---- The other winners are one per key ----

  ghost function MoneyKeys(keys: set<IdemKey>, owner: BalanceKey): set<IdemKey> {
    set k | k in KeysOf(keys, owner) && k.amount != 0
  }

  lemma MoneyKeysSuffice(keys: set<IdemKey>, owner: BalanceKey)
    ensures SumOf(KeysOf(keys, owner), KeyAmount) == SumOf(MoneyKeys(keys, owner), KeyAmount)
  {
    var free := KeysOf(keys, owner) - MoneyKeys(keys, owner);
    SumUnion(MoneyKeys(keys, owner), free, KeyAmount);
    SumZero(free, KeyAmount);
    assert MoneyKeys(keys, owner) + free == KeysOf(keys, owner);
  }

  /** The least event of a minted key of the account is one of its winners. */
  lemma LeastWins(log: Log, minted: set<Event>, owner: BalanceKey, e: Event)
    requires AccountComplete(log, minted, owner) && e in minted && e.Owner() == owner && e.amount != 0
    ensures Matching(log, e.Idem()) != {}
    ensures LeastOf(Matching(log, e.Idem())) in Winners(log, owner)
    ensures LeastOf(Matching(log, e.Idem())).Idem() == e.Idem()
  {
  }

  lemma WinnerIsLeast(log: Log, minted: set<Event>, owner: BalanceKey, x: Event)
    requires AccountComplete(log, minted, owner) && x in Winners(log, owner)
    ensures x in minted && Matching(log, x.Idem()) != {} && LeastOf(Matching(log, x.Idem())) == x
  {
    assert x in Matching(log, x.Idem());
    MatchingDistinct(log, x.Idem());
    LeastUnique(Matching(log, x.Idem()), x, LeastOf(Matching(log, x.Idem())));
  }

  /** The winners of any set of minted keys add up to the keys' amounts. */
  lemma WinnersCountOnce(log: Log, minted: set<Event>, owner: BalanceKey, keys: set<IdemKey>, wins: set<Event>)
    requires AccountComplete(log, minted, owner)
    requires forall k :: k in keys ==> exists e :: e in minted && e.Idem() == k
    requires forall x :: x in wins <==> x in Winners(log, owner) && x.Idem() in keys
    ensures SumOf(wins, AmountOf) == SumOf(KeysOf(keys, owner), KeyAmount)
  {
    hide AccountComplete, Matching, Beaten;
    var money := MoneyKeys(keys, owner);
    forall k | k in money
      ensures Matching(log, k) != {} && LeastOf(Matching(log, k)) in wins && LeastOf(Matching(log, k)).Idem() == k
    {
      var e :| e in minted && e.Idem() == k;
      LeastWins(log, minted, owner, e);
    }
    var m := map k | k in money :: LeastOf(Matching(log, k));
    forall x | x in wins
      ensures x in m.Values
    {
      WinnerIsLeast(log, minted, owner, x);
      assert x.Idem() in money && m[x.Idem()] == x;
    }
    assert m.Keys == money;
    assert m.Values == wins;
    SumAlong(m, KeyAmount, AmountOf, 1);
    MoneyKeysSuffice(keys, owner);
  }

  lemma ClientsAndCreditsCount(log: Log, minted: set<Event>, owner: BalanceKey)
    requires AccountComplete(log, minted, owner)
    ensures SumOf(WinningRequests(log, owner), AmountOf) == SumOf(KeysOf(ClientKeys(minted), owner), KeyAmount)
    ensures SumOf(WinningCredits(log, owner), AmountOf) == SumOf(KeysOf(CreditKeys(minted), owner), KeyAmount)
  {
    forall x | x in Winners(log, owner)
      ensures x in minted
    {
      WinnerIsLeast(log, minted, owner, x);
    }
    hide AccountComplete, Winners;
    WinnersCountOnce(log, minted, owner, ClientKeys(minted), WinningRequests(log, owner));
    WinnersCountOnce(log, minted, owner, CreditKeys(minted), WinningCredits(log, owner));
  }

  /** The account's credits are exactly the transfers promised to it. */
  lemma CreditsArePromised(intents: map<IdemKey, Option<string>>, owner: BalanceKey)
    requires CreditsDistinct(intents)
    ensures SumOf(KeysOf(PromisedCredits(intents), owner), KeyAmount) == SumOf(TransfersTo(intents, owner), AbsAmount)
  {
    var m := map k | k in TransfersTo(intents, owner) :: CreditKey(k, owner.account);
    forall c | c in KeysOf(PromisedCredits(intents), owner)
      ensures c in m.Values
    {
      var k :| k in intents && intents[k].Some? && CreditKey(k, intents[k].value) == c;
      assert k in m && m[k] == c;
    }
    forall k | k in m
      ensures m[k] in PromisedCredits(intents)
    {
      assert k in intents && intents[k].Some?;
    }
    assert m.Keys == TransfersTo(intents, owner);
    assert m.Values == KeysOf(PromisedCredits(intents), owner);
    SumAlong(m, AbsAmount, KeyAmount, 1);
  }

  // ---- The theorem ----

  /** What the clients were promised: their requests, each once, and the
      transfers to the account, each once. */
  ghost function PromisedBalance(intents: map<IdemKey, Option<string>>, owner: BalanceKey): int {
    SumOf(KeysOf(intents.Keys, owner), KeyAmount) + SumOf(TransfersTo(intents, owner), AbsAmount)
  }

  lemma HistoryKeys(s: System)
    requires Inv(s)
    ensures ClientKeys(s.minted) == s.intents.Keys && CreditKeys(s.minted) == PromisedCredits(s.intents)
    ensures CreditsDistinct(s.intents)
  {
  }

  /** For any state the invariant describes. */
  lemma BalanceIsPromised(s: System, owner: BalanceKey, n: string)
    requires Inv(s) && Live(s, owner.bucket) && Converged(s, owner.bucket)
    requires n in s.nodes
    ensures Balance(s.nodes[n].applied, owner) == PromisedBalance(s.intents, owner)
  {
    hide Inv, AccountComplete, Converged, Live, Losers, WinningVoids, WinningRequests, WinningCredits,
         PromisedCredits, CreditsDistinct;
    ConvergedIsComplete(s, owner, n);
    HistoryKeys(s);
    var log := s.nodes[n].applied;
    BalanceSplits(log, s.minted, owner);
    LosersCancel(log, s.minted, owner);
    ClientsAndCreditsCount(log, s.minted, owner);
    CreditsArePromised(s.intents, owner);
  }

  /** Exactly-once charging over every run of every cluster. */
  lemma ExactlyOnceCharging(start: System, steps: seq<Step>, owner: BalanceKey, n: string)
    requires Initial(start) && n in start.nodes
    requires Live(Run(start, steps), owner.bucket) && Converged(Run(start, steps), owner.bucket)
    ensures n in Run(start, steps).nodes
    ensures Balance(Run(start, steps).nodes[n].applied, owner) == PromisedBalance(Run(start, steps).intents, owner)
  {
    RunsKeepInv(start, steps);
    BalanceIsPromised(Run(start, steps), owner, n);
  }

  // ---- What every single step keeps ----

  /** In every reachable state, converged or not, a node's cache holds the
      winner of every client or void key it has events of, and every other
      event of the key is already voided there. */
  lemma CacheHoldsWinner(start: System, steps: seq<Step>, n: string, key: IdemKey)
    requires Initial(start) && n in start.nodes && !IsUncheckedNonce(key.nonce)
    ensures n in Run(start, steps).nodes
    ensures var r := Run(start, steps).nodes[n];
      Matching(r.applied, key) != {} ==>
        && key in r.cache && IsLeast(Matching(r.applied, key), r.cache[key])
        && forall x :: x in Matching(r.applied, key) && x != r.cache[key] ==> IsVoided(r.applied, x)
  {
    RunsKeepInv(start, steps);
    var s := Run(start, steps);
    NodeAt(s, n);
    var r := s.nodes[n];
    var extra := Stewarded(s.stewards, n);
    hide Inv, Valid, Run, IsVoided;
    if Matching(r.applied, key) != {} {
      assert Watched(key, extra) && key in r.cache && IsLeast(Matching(r.applied, key), r.cache[key]);
      forall x | x in Matching(r.applied, key) && x != r.cache[key]
        ensures IsVoided(r.applied, x)
      {
        OtherLoser(r.applied, r.cache[key], x, extra);
      }
    }
  }

  /** No void ever targets a key's winner: wherever and whenever it was minted,
      an event of the same key that precedes its target was minted before. */
  lemma VoidsNeverHitWinners(start: System, steps: seq<Step>, v: Event)
    requires Initial(start) && v in Run(start, steps).minted && IsVoidNonce(v.nonce)
    ensures exists target, w ::
      && target in Run(start, steps).minted && v.Idem() == VoidKey(target)
      && w in Run(start, steps).minted && w.Idem() == target.Idem() && Precedes(w, target)
  {
    RunsKeepInv(start, steps);
    var s := Run(start, steps);
    HistoryAt(s);
    hide Run, Inv;
    var target :| Justified(s.minted, v, target);
    var w :| w in s.minted && w.Idem() == target.Idem() && Precedes(w, target);
  }

  // ---- Why transfers must not share a credit key ----

  /** Requests of different accounts with one nonce are different requests, yet
      their transfers of one amount to one account have the same credit key. */
  lemma TransfersCanShareCreditKey(nonce: string, bucket: string, a: string, b: string, amount: int, to: string)
    requires a != b
    ensures var j, k := IdemKey(nonce, bucket, a, amount), IdemKey(nonce, bucket, b, amount);
      j != k && CreditKey(j, to) == CreditKey(k, to)
  {
  }

  /** A node that already holds one of two such credits voids one of them when
      the other arrives, so money of a granted transfer is lost. */
  lemma CollidingCreditIsVoided(r: Replica, credit: Event, m: Mint)
    requires Accepts(r, credit) && credit.kind == Standard
    requires credit.Idem() in r.cache && r.cache[credit.Idem()].Idem() == credit.Idem()
    requires r.cache[credit.Idem()].id != credit.id
    requires forall x :: x == credit || x == r.cache[credit.Idem()] ==>
      VoidKey(x) !in r.cache && VoidKey(x) != credit.Idem() && Matching(r.stored, VoidKey(x)) == {}
    ensures var corrections := Receive(r, credit, m).1;
      && corrections != [] && corrections[0].kind == Void
      && corrections[0].Owner() == credit.Owner() && corrections[0].amount == -credit.amount
  {
    hide Matching, Minted;
    var (winner, loser) := IdempotencyWinner(r.cache[credit.Idem()], credit);
    assert VoidKey(loser) !in r.cache[credit.Idem() := winner];
  }
}
