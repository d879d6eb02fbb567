/** What each incremental cache of a node must say about the applied log, and
    why adding one event, or dropping one bucket, keeps it that way. */
module Caches {
  import opened Types
  import opened Sums
  import opened Ledger

  // ---- Accounts ----

  datatype Reservation = Reservation(origin: string, amount: nat, expires: nat)

  /** `AccountState`: the running balance and holds of one account. */
  datatype AccountState = AccountState(
    balance: int,
    eventCount: nat,
    reservations: map<string, Reservation>,
    released: set<string>)
  {
    ghost function Reserved(): set<Hold> {
      set id | id in reservations :: AsHold(id, reservations[id])
    }

    /** The reservations that still reduce available balance. */
    ghost function Active(now: nat): set<Hold> {
      set h | h in Reserved() && h.expires > now && h.id !in released
    }

    function Tracked(e: Event): AccountState {
      if e.HasHold() then this.(reservations := reservations[e.id := Reservation(e.origin, e.holdAmount, e.holdExpires)])
      else this
    }

    function Released(e: Event): AccountState {
      if e.ReleasedHold().Some? then this.(released := released + {e.ReleasedHold().value}) else this
    }

    /** The account after one more event. */
    function Booked(e: Event): AccountState {
      this.(balance := WrapI64(balance + e.amount), eventCount := eventCount + 1).Tracked(e).Released(e)
    }

    /** Expired reservations go, and their release markers with them. */
    function Swept(now: nat): AccountState {
      var expired := set id | id in reservations && reservations[id].expires <= now;
      this.(reservations := reservations - expired, released := released - expired)
    }
  }

  const EMPTY_ACCOUNT := AccountState(0, 0, map[], {})

  function AsHold(id: string, r: Reservation): Hold {
    Hold(id, r.origin, r.amount, r.expires)
  }

  /** The deletes a node issued itself since it started: applied, but booked to no account. */
  ghost predicate Issued(log: Log, issued: set<Event>) {
    forall e :: e in issued ==> e.Key() in log && log[e.Key()] == e && e.MetaTargetBucket().Some?
  }

  /** The account agrees with the log; what it forgot of holds and releases
      concerns holds that expired before `clock`, and its count leaves out the
      deletes this node issued itself. */
  ghost predicate AccountOk(log: Log, owner: BalanceKey, a: AccountState, clock: nat, issued: set<Event>) {
    && a.balance == WrapI64(Balance(log, owner))
    && a.eventCount == |EventsOf(log, owner) - issued|
    && a.Reserved() <= HoldsOf(log, owner)
    && (forall h :: h in HoldsOf(log, owner) && h.expires > clock ==> h in a.Reserved())
    && a.released <= ReleasesOf(log, owner)
    && (forall id :: id in ReleasesOf(log, owner) && id !in a.released ==>
          exists h :: h in HoldsOf(log, owner) && h.id == id && h.expires <= clock)
  }

  function AccountAt(accounts: map<BalanceKey, AccountState>, owner: BalanceKey): AccountState {
    if owner in accounts then accounts[owner] else EMPTY_ACCOUNT
  }

  ghost predicate AccountsOk(log: Log, accounts: map<BalanceKey, AccountState>, clock: nat, issued: set<Event>) {
    Issued(log, issued) && forall owner :: AccountOk(log, owner, AccountAt(accounts, owner), clock, issued)
  }

  /** From the clock on, the account knows exactly the active holds of the log. */
  lemma ActiveAgrees(log: Log, owner: BalanceKey, a: AccountState, clock: nat, now: nat, issued: set<Event>)
    requires WellFormed(log) && AccountOk(log, owner, a, clock, issued) && clock <= now
    ensures a.Active(now) == ActiveHolds(log, owner, now)
  {
  }

  lemma BalanceSeen(log: Log, owner: BalanceKey, a: AccountState, clock: nat, issued: set<Event>)
    requires AccountOk(log, owner, a, clock, issued)
    ensures a.balance == WrapI64(Balance(log, owner))
  {
  }

  lemma ReservedBooked(a: AccountState, e: Event)
    requires e.id !in a.reservations
    ensures a.Booked(e).Reserved() == a.Reserved() + (if e.HasHold() then {HoldOf(e)} else {})
  {
    var b := a.Booked(e);
    if e.HasHold() {
      assert b.reservations == a.reservations[e.id := Reservation(e.origin, e.holdAmount, e.holdExpires)];
      assert AsHold(e.id, b.reservations[e.id]) == HoldOf(e);
      forall h | h in a.Reserved()
        ensures h in b.Reserved()
      {
        assert h.id in b.reservations && AsHold(h.id, b.reservations[h.id]) == h;
      }
      forall h | h in b.Reserved() && h.id != e.id
        ensures h in a.Reserved()
      {
        assert h.id in a.reservations && AsHold(h.id, a.reservations[h.id]) == h;
      }
    } else {
      assert b.reservations == a.reservations;
    }
  }

  lemma FreshReservation(log: Log, owner: BalanceKey, a: AccountState, e: Event)
    requires IdFresh(log, e.id) && a.Reserved() <= HoldsOf(log, owner)
    ensures e.id !in a.reservations
  {
    forall h | h in HoldsOf(log, owner)
      ensures h.id != e.id
    {
      var k :| k in log && log[k].Owner() == owner && log[k].HasHold() && HoldOf(log[k]) == h;
    }
    forall id | id in a.reservations
      ensures id != e.id
    {
      assert AsHold(id, a.reservations[id]) in a.Reserved();
    }
  }

  /** Releases the account dropped are those of expired holds. */
  lemma ReleasesBooked(log: Log, e: Event, a: AccountState, clock: nat, issued: set<Event>)
    requires WellFormed(log) && AccountOk(log, e.Owner(), a, clock, issued) && e.Key() !in log
    ensures a.Booked(e).released <= ReleasesOf(With(log, e), e.Owner())
    ensures forall id :: id in ReleasesOf(With(log, e), e.Owner()) && id !in a.Booked(e).released ==>
      exists h :: h in HoldsOf(With(log, e), e.Owner()) && h.id == id && h.expires <= clock
  {
    var owner, log' := e.Owner(), With(log, e);
    HoldsOfWith(log, e, owner);
    ReleasesOfWith(log, e, owner);
    hide HoldsOf, ReleasesOf, AccountState.Reserved;
    forall id | id in ReleasesOf(log', owner) && id !in a.Booked(e).released
      ensures exists h :: h in HoldsOf(log', owner) && h.id == id && h.expires <= clock
    {
      assert id in ReleasesOf(log, owner) && id !in a.released;
      var h :| h in HoldsOf(log, owner) && h.id == id && h.expires <= clock;
      assert h in HoldsOf(log', owner);
    }
  }

  lemma HoldsBooked(log: Log, e: Event, a: AccountState, clock: nat, issued: set<Event>)
    requires WellFormed(log) && AccountOk(log, e.Owner(), a, clock, issued) && e.Key() !in log && IdFresh(log, e.id)
    ensures a.Booked(e).Reserved() <= HoldsOf(With(log, e), e.Owner())
    ensures forall h :: h in HoldsOf(With(log, e), e.Owner()) && h.expires > clock ==> h in a.Booked(e).Reserved()
  {
    FreshReservation(log, e.Owner(), a, e);
    ReservedBooked(a, e);
    HoldsOfWith(log, e, e.Owner());
    hide HoldsOf, ReleasesOf, AccountState.Reserved, AccountState.Booked;
  }

  /** Booking an event keeps its account right. */
  lemma BookedOk(log: Log, e: Event, a: AccountState, clock: nat, issued: set<Event>)
    requires WellFormed(log) && AccountOk(log, e.Owner(), a, clock, issued) && e.Key() !in log && IdFresh(log, e.id)
    requires e !in issued
    ensures AccountOk(With(log, e), e.Owner(), a.Booked(e), clock, issued)
  {
    WrapSteps(Balance(log, e.Owner()), e.amount);
    hide Balance, EventsOf, HoldsOf, ReleasesOf, AccountState.Reserved, WrapI64;
    BalanceWith(log, e, e.Owner());
    EventsOfWith(log, e, e.Owner());
    assert EventsOf(With(log, e), e.Owner()) - issued == (EventsOf(log, e.Owner()) - issued) + {e};
    HoldsBooked(log, e, a, clock, issued);
    ReleasesBooked(log, e, a, clock, issued);
  }

  lemma OthersSame(log: Log, e: Event, owner: BalanceKey)
    requires WellFormed(log) && e.Key() !in log && e.Owner() != owner
    ensures Balance(With(log, e), owner) == Balance(log, owner) && EventsOf(With(log, e), owner) == EventsOf(log, owner)
    ensures HoldsOf(With(log, e), owner) == HoldsOf(log, owner)
    ensures ReleasesOf(With(log, e), owner) == ReleasesOf(log, owner)
    ensures e !in EventsOf(log, owner)
  {
    BalanceWith(log, e, owner);
    EventsOfWith(log, e, owner);
    HoldsOfWith(log, e, owner);
    ReleasesOfWith(log, e, owner);
    hide Balance, EventsOf, HoldsOf, ReleasesOf;
    var none: set<Event> := {};
    assert EventsOf(log, owner) + none == EventsOf(log, owner);
    var noHold: set<Hold> := {};
    assert HoldsOf(log, owner) + noHold == HoldsOf(log, owner);
    var noId: set<string> := {};
    assert ReleasesOf(log, owner) + noId == ReleasesOf(log, owner);
  }

  /** ... and every other account too. */
  lemma OthersOk(log: Log, e: Event, owner: BalanceKey, a: AccountState, clock: nat, issued: set<Event>)
    requires WellFormed(log) && AccountOk(log, owner, a, clock, issued) && e.Key() !in log && e.Owner() != owner
    ensures AccountOk(With(log, e), owner, a, clock, issued)
    ensures AccountOk(With(log, e), owner, a, clock, issued + {e})
  {
    OthersSame(log, e, owner);
    hide Balance, EventsOf, HoldsOf, ReleasesOf, With, AccountState.Reserved, WrapI64, WellFormed;
    assert EventsOf(log, owner) - (issued + {e}) == EventsOf(log, owner) - issued;
  }

  lemma AccountsBooked(log: Log, accounts: map<BalanceKey, AccountState>, e: Event, clock: nat, issued: set<Event>)
    requires WellFormed(log) && AccountsOk(log, accounts, clock, issued) && e.Key() !in log && IdFresh(log, e.id)
    ensures AccountsOk(With(log, e), accounts[e.Owner() := AccountAt(accounts, e.Owner()).Booked(e)], clock, issued)
  {
    var after := accounts[e.Owner() := AccountAt(accounts, e.Owner()).Booked(e)];
    forall owner
      ensures AccountOk(With(log, e), owner, AccountAt(after, owner), clock, issued)
    {
      assert AccountOk(log, owner, AccountAt(accounts, owner), clock, issued);
      hide AccountOk;
      if owner == e.Owner() {
        BookedOk(log, e, AccountAt(accounts, owner), clock, issued);
      } else {
        OthersOk(log, e, owner, AccountAt(accounts, owner), clock, issued);
      }
    }
  }

  lemma UnbookedOk(log: Log, a: AccountState, e: Event, clock: nat, issued: set<Event>)
    requires WellFormed(log) && AccountOk(log, e.Owner(), a, clock, issued) && e.Key() !in log
    requires e.amount == 0 && !e.HasHold() && e.ReleasedHold().None?
    ensures AccountOk(With(log, e), e.Owner(), a, clock, issued + {e})
  {
    var owner := e.Owner();
    hide Balance, EventsOf, HoldsOf, ReleasesOf, AccountState.Reserved;
    BalanceWith(log, e, owner);
    EventsOfWith(log, e, owner);
    assert EventsOf(With(log, e), owner) - (issued + {e}) == EventsOf(log, owner) - issued;
    HoldsOfWith(log, e, owner);
    ReleasesOfWith(log, e, owner);
    var noHold: set<Hold> := {};
    assert HoldsOf(log, owner) + noHold == HoldsOf(log, owner);
    var noId: set<string> := {};
    assert ReleasesOf(log, owner) + noId == ReleasesOf(log, owner);
  }

  /** An event without money, hold or release need not be booked, but for the count. */
  lemma AccountsUnbooked(log: Log, accounts: map<BalanceKey, AccountState>, e: Event, clock: nat, issued: set<Event>)
    requires WellFormed(log) && AccountsOk(log, accounts, clock, issued) && e.Key() !in log
    requires e.MetaTargetBucket().Some? && e.amount == 0
    ensures AccountsOk(With(log, e), accounts, clock, issued + {e})
  {
    forall owner
      ensures AccountOk(With(log, e), owner, AccountAt(accounts, owner), clock, issued + {e})
    {
      assert AccountOk(log, owner, AccountAt(accounts, owner), clock, issued);
      hide AccountOk;
      if owner == e.Owner() {
        UnbookedOk(log, AccountAt(accounts, owner), e, clock, issued);
      } else {
        OthersOk(log, e, owner, AccountAt(accounts, owner), clock, issued);
      }
    }
  }

  /** Sweeping forgets only what expired by now. */
  lemma SweptOk(log: Log, owner: BalanceKey, a: AccountState, clock: nat, now: nat, issued: set<Event>)
    requires WellFormed(log) && AccountOk(log, owner, a, clock, issued) && clock <= now
    ensures AccountOk(log, owner, a.Swept(now), now, issued)
  {
    var b := a.Swept(now);
    forall h | h in b.Reserved()
      ensures h in a.Reserved()
    {
      assert h.id in a.reservations && AsHold(h.id, a.reservations[h.id]) == h;
    }
    forall h | h in HoldsOf(log, owner) && h.expires > now
      ensures h in b.Reserved()
    {
      assert h in a.Reserved();
      assert h.id in b.reservations && AsHold(h.id, b.reservations[h.id]) == h;
    }
    forall id | id in ReleasesOf(log, owner) && id !in b.released
      ensures exists h :: h in HoldsOf(log, owner) && h.id == id && h.expires <= now
    {
      if id in a.released {
        assert AsHold(id, a.reservations[id]) in a.Reserved();
      } else {
        var h :| h in HoldsOf(log, owner) && h.id == id && h.expires <= clock;
      }
    }
  }

  function SweptAccounts(accounts: map<BalanceKey, AccountState>, busy: set<BalanceKey>, now: nat): map<BalanceKey,
                         AccountState> {
    map owner | owner in accounts :: if owner in busy then accounts[owner] else accounts[owner].Swept(now)
  }

  lemma LaterOk(log: Log, owner: BalanceKey, a: AccountState, clock: nat, now: nat, issued: set<Event>)
    requires AccountOk(log, owner, a, clock, issued) && clock <= now
    ensures AccountOk(log, owner, a, now, issued)
  {
  }

  lemma AccountsSwept(log: Log, accounts: map<BalanceKey, AccountState>, busy: set<BalanceKey>, clock: nat, now: nat,
                      issued: set<Event>)
    requires WellFormed(log) && AccountsOk(log, accounts, clock, issued) && clock <= now
    ensures AccountsOk(log, SweptAccounts(accounts, busy, now), now, issued)
  {
    forall owner
      ensures AccountOk(log, owner, AccountAt(SweptAccounts(accounts, busy, now), owner), now, issued)
    {
      assert AccountOk(log, owner, AccountAt(accounts, owner), clock, issued);
      hide AccountOk, AccountState.Swept;
      if owner in accounts && owner !in busy {
        SweptOk(log, owner, accounts[owner], clock, now, issued);
      } else {
        LaterOk(log, owner, AccountAt(accounts, owner), clock, now, issued);
      }
    }
  }

  /** An account counts every event of its log exactly when none of them is a
      delete this node issued; otherwise it is short by the number of those. */
  lemma CountExactIff(log: Log, owner: BalanceKey, a: AccountState, clock: nat, issued: set<Event>)
    requires AccountOk(log, owner, a, clock, issued)
    ensures a.eventCount == |EventsOf(log, owner)| - |EventsOf(log, owner) * issued|
    ensures a.eventCount == |EventsOf(log, owner)| <==> EventsOf(log, owner) !! issued
  {
    var all := EventsOf(log, owner);
    assert all == (all - issued) + (all * issued);
    assert all - issued !! all * issued;
    hide EventsOf;
    assert all * issued == {} <==> all !! issued;
  }

  /** After a delete, the node that issued it counts one event less than a node
      with the same log that received the meta event and issued none. */
  lemma IssuerCountsOneLess(log: Log, e: Event, issuer: AccountState, receiver: AccountState, clock: nat,
                            clock': nat, issued: set<Event>)
    requires WellFormed(log) && e.Key() !in log && IdFresh(log, e.id) && e.MetaTargetBucket().Some? && e.amount == 0
    requires AccountOk(log, e.Owner(), issuer, clock, issued) && EventsOf(log, e.Owner()) !! issued && e !in issued
    requires AccountOk(log, e.Owner(), receiver, clock', {})
    ensures AccountOk(With(log, e), e.Owner(), issuer, clock, issued + {e})
    ensures AccountOk(With(log, e), e.Owner(), receiver.Booked(e), clock', {})
    ensures issuer.eventCount == receiver.Booked(e).eventCount - 1 == |EventsOf(With(log, e), e.Owner())| - 1
  {
    var none: set<Event> := {};
    UnbookedOk(log, issuer, e, clock, issued);
    BookedOk(log, e, receiver, clock', none);
    EventsOfWith(log, e, e.Owner());
    hide AccountOk, EventsOf, With, WellFormed, IdFresh;
    CountExactIff(log, e.Owner(), issuer, clock, issued);
    CountExactIff(log, e.Owner(), receiver, clock', none);
  }

  function OwnersWithout<V>(m: map<BalanceKey, V>, bucket: string): map<BalanceKey, V> {
    map owner | owner in m && owner.bucket != bucket :: m[owner]
  }

  lemma EmptyAccountOk(owner: BalanceKey, log: Log, clock: nat, issued: set<Event>)
    requires EventsOf(log, owner) == {} && HoldsOf(log, owner) == {} && ReleasesOf(log, owner) == {}
    ensures AccountOk(log, owner, EMPTY_ACCOUNT, clock, issued)
  {
  }

  lemma AccountsDropped(log: Log, accounts: map<BalanceKey, AccountState>, bucket: string, clock: nat,
                        issued: set<Event>)
    requires WellFormed(log) && AccountsOk(log, accounts, clock, issued) && bucket != META_BUCKET
    ensures AccountsOk(DropBucket(log, bucket), OwnersWithout(accounts, bucket), clock, issued)
  {
    forall owner
      ensures AccountOk(DropBucket(log, bucket), owner, AccountAt(OwnersWithout(accounts, bucket), owner), clock, issued)
    {
      EventsOfDrop(log, bucket, owner);
      HoldsOfDrop(log, bucket, owner);
      assert AccountOk(log, owner, AccountAt(accounts, owner), clock, issued);
      hide EventsOf, HoldsOf, ReleasesOf;
      if owner.bucket == bucket {
        EmptyAccountOk(owner, DropBucket(log, bucket), clock, issued);
      }
    }
  }

  // ---- Heads and pending seqs ----

  function HeadAt(heads: map<EpochKey, nat>, line: EpochKey): nat {
    if line in heads then heads[line] else 0
  }

  function PendingAt(pending: map<EpochKey, set<nat>>, line: EpochKey): set<nat> {
    if line in pending then pending[line] else {}
  }

  /** The head ends the gapless run, and exactly the seqs beyond it are pending. */
  ghost predicate LineOk(seqs: set<nat>, head: nat, pending: set<nat>) {
    IsHead(seqs, head) && forall s :: s in pending <==> s in seqs && s > head
  }

  ghost predicate LinesOk(log: Log, heads: map<EpochKey, nat>, pending: map<EpochKey, set<nat>>) {
    forall line ::
      && LineOk(SeqsOf(log, line), HeadAt(heads, line), PendingAt(pending, line))
      && (line in heads <==> SeqsOf(log, line) != {})
  }

  /** `h` is where draining stops: everything up to it was pending, the next seq is not. */
  ghost predicate Drains(pending: set<nat>, from: nat, h: nat) {
    && from <= h && h + 1 !in pending
    && forall s :: from < s <= h ==> s in pending
  }

  lemma LineDrained(seqs: set<nat>, head: nat, pending: set<nat>, h: nat, left: set<nat>)
    requires LineOk(seqs, head, pending) && head + 1 !in seqs && Drains(pending, head + 1, h)
    requires forall s :: s in left <==> s in pending && !(head + 1 < s <= h)
    ensures LineOk(seqs + {head + 1}, h, left)
  {
  }

  lemma LinePends(seqs: set<nat>, head: nat, pending: set<nat>, s: nat)
    requires LineOk(seqs, head, pending) && s > head + 1
    ensures LineOk(seqs + {s}, head, pending + {s})
  {
  }

  // ---- Highest known seqs ----

  ghost predicate MaxOk(seqs: set<nat>, known: bool, max: nat) {
    if known then max in seqs && forall s :: s in seqs ==> s <= max else seqs == {}
  }

  function MaxAt(maxKnown: map<EpochKey, nat>, line: EpochKey): nat {
    if line in maxKnown then maxKnown[line] else 0
  }

  ghost predicate MaxKnownOk(log: Log, maxKnown: map<EpochKey, nat>) {
    forall line :: MaxOk(SeqsOf(log, line), line in maxKnown, MaxAt(maxKnown, line))
  }

  function MaxKnownWith(maxKnown: map<EpochKey, nat>, e: Event): map<EpochKey, nat> {
    if e.Line() in maxKnown && e.seqNo <= maxKnown[e.Line()] then maxKnown else maxKnown[e.Line() := e.seqNo]
  }

  lemma MaxKnownGrows(log: Log, maxKnown: map<EpochKey, nat>, e: Event)
    requires MaxKnownOk(log, maxKnown)
    ensures MaxKnownOk(With(log, e), MaxKnownWith(maxKnown, e))
  {
    forall line
      ensures MaxOk(SeqsOf(With(log, e), line), line in MaxKnownWith(maxKnown, e), MaxAt(MaxKnownWith(maxKnown, e), line))
    {
      SeqsOfWith(log, e, line);
      assert MaxOk(SeqsOf(log, line), line in maxKnown, MaxAt(maxKnown, line));
    }
  }

  // ---- Contributing lines of an account ----

  ghost function LinesOf(log: Log, owner: BalanceKey): set<EpochKey> {
    set k | k in log && log[k].Owner() == owner :: k.line
  }

  function OriginsAt(origins: map<BalanceKey, set<EpochKey>>, owner: BalanceKey): set<EpochKey> {
    if owner in origins then origins[owner] else {}
  }

  ghost predicate OriginsOk(log: Log, origins: map<BalanceKey, set<EpochKey>>) {
    forall owner :: OriginsAt(origins, owner) == LinesOf(log, owner)
  }

  lemma OriginsGrow(log: Log, origins: map<BalanceKey, set<EpochKey>>, e: Event)
    requires OriginsOk(log, origins) && e.Key() !in log
    ensures OriginsOk(With(log, e), origins[e.Owner() := OriginsAt(origins, e.Owner()) + {e.Line()}])
  {
    var log' := With(log, e);
    forall owner
      ensures LinesOf(log', owner) == LinesOf(log, owner) + (if owner == e.Owner() then {e.Line()} else {})
    {
      assert log'[e.Key()] == e;
      forall line | line in LinesOf(log, owner)
        ensures line in LinesOf(log', owner)
      {
        var k :| k in log && log[k].Owner() == owner && k.line == line;
        assert k in log' && log'[k] == log[k];
      }
    }
  }

  // ---- Rolling digests ----

  ghost predicate DigestOk(log: Log, line: EpochKey, head: nat, known: bool, digest: (nat, Digest)) {
    && Full(log, line, head)
    && (if known then digest == (head, DigestUpTo(log, line, head)) else head == 0)
  }

  function DigestAt(digests: map<EpochKey, (nat, Digest)>, line: EpochKey): (nat, Digest) {
    if line in digests then digests[line] else (0, Zeroed)
  }

  ghost predicate DigestsOk(log: Log, heads: map<EpochKey, nat>, digests: map<EpochKey, (nat, Digest)>) {
    forall line :: DigestOk(log, line, HeadAt(heads, line), line in digests, DigestAt(digests, line))
  }

  lemma DigestOkFrame(log: Log, log': Log, line: EpochKey, head: nat, known: bool, digest: (nat, Digest))
    requires DigestOk(log, line, head, known, digest)
    requires forall k :: k in log && k.line == line ==> k in log' && log'[k] == log[k]
    ensures DigestOk(log', line, head, known, digest)
  {
    DigestFrame(log, log', line, head);
  }

  // ---- The event buffer ----

  /** Buffered are exactly the applied events that are not yet known durable
      or still wait beyond their line's head. */
  ghost predicate BufferOk(log: Log, heads: map<EpochKey, nat>, unpersisted: map<OriginKey, nat>, buffer: Log) {
    && (forall k :: k in buffer <==> k in log && (k in unpersisted || k.seqNo > HeadAt(heads, k.line)))
    && (forall k :: k in buffer ==> buffer[k] == log[k])
    && (forall k :: k in unpersisted ==> k in log && unpersisted[k] == log[k].createdAt)
  }

  /** An applied event that is not stored is still queued for it. */
  ghost predicate Durable(log: Log, stored: Log, unpersisted: map<OriginKey, nat>) {
    forall k :: k in log ==> k in stored || k in unpersisted
  }

  lemma BufferGrows(log: Log, heads: map<EpochKey, nat>, unpersisted: map<OriginKey, nat>, buffer: Log, e: Event)
    requires BufferOk(log, heads, unpersisted, buffer) && e.Key() !in log
    ensures BufferOk(With(log, e), heads, unpersisted[e.Key() := e.createdAt], buffer[e.Key() := e])
  {
  }

  // ---- Tombstones ----

  /** Buckets some applied meta event deletes, the meta bucket aside. */
  ghost function Tombstones(log: Log): set<string> {
    set k | k in log && log[k].MetaTargetBucket().Some? && log[k].MetaTargetBucket().value != META_BUCKET
      :: log[k].MetaTargetBucket().value
  }

  lemma TombstonesWith(log: Log, e: Event)
    requires e.Key() !in log
    ensures Tombstones(With(log, e)) == Tombstones(log)
      + (if e.MetaTargetBucket().Some? && e.MetaTargetBucket().value != META_BUCKET then {e.MetaTargetBucket().value} else {})
  {
    var log' := With(log, e);
    assert log'[e.Key()] == e;
    forall b | b in Tombstones(log)
      ensures b in Tombstones(log')
    {
      var k :| k in log && log[k].MetaTargetBucket() == Some(b);
      assert k in log' && log'[k] == log[k];
    }
  }

  lemma TombstonesDrop(log: Log, bucket: string)
    requires WellFormed(log) && bucket != META_BUCKET
    ensures Tombstones(DropBucket(log, bucket)) == Tombstones(log)
  {
    var log' := DropBucket(log, bucket);
    forall b | b in Tombstones(log)
      ensures b in Tombstones(log')
    {
      var k :| k in log && log[k].MetaTargetBucket() == Some(b) && b != META_BUCKET;
      assert k in log' && log'[k] == log[k];
    }
  }

  // ---- The idempotency cache ----

  predicate Keyed(cache: map<IdemKey, Event>) {
    forall key :: key in cache ==> cache[key].Idem() == key
  }

  lemma KeyedWith(cache: map<IdemKey, Event>, e: Event)
    requires Keyed(cache)
    ensures Keyed(cache[e.Idem() := e])
  {
  }

  // ---- All line caches together ----

  /** Every cache beside accounts and idempotency agrees with the log. */
  ghost predicate CachesAgree(log: Log, heads: map<EpochKey, nat>, pending: map<EpochKey, set<nat>>,
                              maxKnown: map<EpochKey, nat>, origins: map<BalanceKey, set<EpochKey>>,
                              digests: map<EpochKey, (nat, Digest)>, unpersisted: map<OriginKey, nat>, buffer: Log) {
    && LinesOk(log, heads, pending) && MaxKnownOk(log, maxKnown) && OriginsOk(log, origins)
    && DigestsOk(log, heads, digests) && BufferOk(log, heads, unpersisted, buffer)
  }

  function LinesWithout<V>(m: map<EpochKey, V>, bucket: string): map<EpochKey, V> {
    map line | line in m && line.bucket != bucket :: m[line]
  }

  function KeysWithout<V>(m: map<OriginKey, V>, bucket: string): map<OriginKey, V> {
    map k | k in m && k.line.bucket != bucket :: m[k]
  }

  lemma LinesDropped(log: Log, heads: map<EpochKey, nat>, pending: map<EpochKey, set<nat>>, bucket: string)
    requires WellFormed(log) && LinesOk(log, heads, pending)
    ensures LinesOk(DropBucket(log, bucket), LinesWithout(heads, bucket), LinesWithout(pending, bucket))
  {
    forall line
      ensures LineOk(SeqsOf(DropBucket(log, bucket), line), HeadAt(LinesWithout(heads, bucket), line),
                     PendingAt(LinesWithout(pending, bucket), line))
      ensures line in LinesWithout(heads, bucket) <==> SeqsOf(DropBucket(log, bucket), line) != {}
    {
      SeqsOfDrop(log, bucket, line);
      assert LineOk(SeqsOf(log, line), HeadAt(heads, line), PendingAt(pending, line));
      assert line in heads <==> SeqsOf(log, line) != {};
    }
  }

  lemma MaxKnownDropped(log: Log, maxKnown: map<EpochKey, nat>, bucket: string)
    requires WellFormed(log) && MaxKnownOk(log, maxKnown)
    ensures MaxKnownOk(DropBucket(log, bucket), LinesWithout(maxKnown, bucket))
  {
    forall line
      ensures MaxOk(SeqsOf(DropBucket(log, bucket), line), line in LinesWithout(maxKnown, bucket),
                    MaxAt(LinesWithout(maxKnown, bucket), line))
    {
      SeqsOfDrop(log, bucket, line);
      assert MaxOk(SeqsOf(log, line), line in maxKnown, MaxAt(maxKnown, line));
    }
  }

  lemma OriginsDropped(log: Log, origins: map<BalanceKey, set<EpochKey>>, bucket: string)
    requires WellFormed(log) && OriginsOk(log, origins)
    ensures OriginsOk(DropBucket(log, bucket), OwnersWithout(origins, bucket))
  {
    var log' := DropBucket(log, bucket);
    forall owner
      ensures LinesOf(log', owner) == if owner.bucket == bucket then {} else LinesOf(log, owner)
    {
      if owner.bucket != bucket {
        forall line | line in LinesOf(log, owner)
          ensures line in LinesOf(log', owner)
        {
          var k :| k in log && log[k].Owner() == owner && k.line == line;
          assert k in log' && log'[k] == log[k];
        }
      }
    }
  }

  lemma DigestsDropped(log: Log, heads: map<EpochKey, nat>, digests: map<EpochKey, (nat, Digest)>, bucket: string)
    requires DigestsOk(log, heads, digests)
    ensures DigestsOk(DropBucket(log, bucket), LinesWithout(heads, bucket), LinesWithout(digests, bucket))
  {
    var log', heads', digests' := DropBucket(log, bucket), LinesWithout(heads, bucket), LinesWithout(digests, bucket);
    forall line
      ensures DigestOk(log', line, HeadAt(heads', line), line in digests', DigestAt(digests', line))
    {
      assert DigestOk(log, line, HeadAt(heads, line), line in digests, DigestAt(digests, line));
      if line.bucket != bucket {
        DigestOkFrame(log, log', line, HeadAt(heads, line), line in digests, DigestAt(digests, line));
      }
    }
  }

  lemma BufferDropped(log: Log, heads: map<EpochKey, nat>, unpersisted: map<OriginKey, nat>, buffer: Log,
                      bucket: string)
    requires BufferOk(log, heads, unpersisted, buffer)
    ensures BufferOk(DropBucket(log, bucket), LinesWithout(heads, bucket), KeysWithout(unpersisted, bucket), KeysWithout(buffer, bucket))
  {
  }

  /** A bucket delete leaves every cache agreeing with what is left of the log. */
  lemma CachesDropped(log: Log, heads: map<EpochKey, nat>, pending: map<EpochKey, set<nat>>,
                      maxKnown: map<EpochKey, nat>, origins: map<BalanceKey, set<EpochKey>>,
                      digests: map<EpochKey, (nat, Digest)>, unpersisted: map<OriginKey, nat>, buffer: Log, bucket: string)
    requires WellFormed(log) && CachesAgree(log, heads, pending, maxKnown, origins, digests, unpersisted, buffer)
    ensures CachesAgree(DropBucket(log, bucket), LinesWithout(heads, bucket), LinesWithout(pending, bucket),
                        LinesWithout(maxKnown, bucket), OwnersWithout(origins, bucket), LinesWithout(digests, bucket),
                        KeysWithout(unpersisted, bucket), KeysWithout(buffer, bucket))
  {
    hide LinesOk, MaxKnownOk, OriginsOk, DigestsOk, BufferOk;
    LinesDropped(log, heads, pending, bucket);
    MaxKnownDropped(log, maxKnown, bucket);
    OriginsDropped(log, origins, bucket);
    DigestsDropped(log, heads, digests, bucket);
    BufferDropped(log, heads, unpersisted, buffer, bucket);
  }

  // ---- Consequences for readers ----

  /** No line has a gap exactly when nothing is pending. */
  lemma NoGapMeansNothingPending(log: Log, heads: map<EpochKey, nat>, pending: map<EpochKey, set<nat>>,
                                 maxKnown: map<EpochKey, nat>)
    requires WellFormed(log) && LinesOk(log, heads, pending) && MaxKnownOk(log, maxKnown)
    ensures (forall line :: line in maxKnown ==> maxKnown[line] <= HeadAt(heads, line)) <==>
            (forall line :: PendingAt(pending, line) == {})
  {
  }
}
