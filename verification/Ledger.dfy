/** The applied log of one node and everything the node derives from it:
    balances, active holds, contiguous heads and rolling digests. Each is a
    function of the log alone, so it cannot depend on delivery order. */
module Ledger {
  import opened Sums
  import opened Texts
  import opened Types

  /** The events a node has applied, by origin key. */
  type Log = map<OriginKey, Event>

  ghost predicate WellFormed(log: Log) {
    && (forall k :: k in log ==> log[k].Key() == k && k.seqNo >= 1)
    && (forall j, k :: j in log && k in log && log[j].id == log[k].id ==> j == k)
  }

  ghost predicate IdFresh(log: Log, id: string) {
    forall k :: k in log ==> log[k].id != id
  }

  function With(log: Log, e: Event): Log {
    log[e.Key() := e]
  }

  /** What the bucket-delete cascade leaves. */
  function DropBucket(log: Log, bucket: string): Log {
    map k | k in log && k.line.bucket != bucket :: log[k]
  }

  ghost predicate LogGrows(log: Log, log': Log) {
    forall k :: k in log ==> k in log' && log'[k] == log[k]
  }

  lemma WithWellFormed(log: Log, e: Event)
    requires WellFormed(log) && e.Key() !in log && e.seqNo >= 1 && IdFresh(log, e.id)
    ensures WellFormed(With(log, e))
  {
  }

  // ---- Balances ----

  ghost function EventsOf(log: Log, owner: BalanceKey): set<Event> {
    set k | k in log && log[k].Owner() == owner :: log[k]
  }

  ghost function Balance(log: Log, owner: BalanceKey): int {
    SumOf(EventsOf(log, owner), AmountOf)
  }

  lemma EventsOfWith(log: Log, e: Event, owner: BalanceKey)
    requires WellFormed(log) && e.Key() !in log
    ensures EventsOf(With(log, e), owner) == EventsOf(log, owner) + (if e.Owner() == owner then {e} else {})
    ensures e !in EventsOf(log, owner)
  {
    var log' := With(log, e);
    forall x | x in EventsOf(log, owner) + (if e.Owner() == owner then {e} else {})
      ensures x in EventsOf(log', owner)
    {
      var k := x.Key();
      assert k in log' && log'[k] == x;
    }
  }

  lemma BalanceWith(log: Log, e: Event, owner: BalanceKey)
    requires WellFormed(log) && e.Key() !in log
    ensures Balance(With(log, e), owner) == Balance(log, owner) + (if e.Owner() == owner then e.amount else 0)
  {
    EventsOfWith(log, e, owner);
    if e.Owner() == owner {
      SumInsert(EventsOf(log, owner), AmountOf, e);
    } else {
      assert EventsOf(With(log, e), owner) == EventsOf(log, owner);
    }
  }

  lemma EventsOfDrop(log: Log, bucket: string, owner: BalanceKey)
    requires WellFormed(log)
    ensures EventsOf(DropBucket(log, bucket), owner) == if owner.bucket == bucket then {} else EventsOf(log, owner)
  {
    var log' := DropBucket(log, bucket);
    if owner.bucket != bucket {
      forall x | x in EventsOf(log, owner)
        ensures x in EventsOf(log', owner)
      {
        assert x.Key() in log' && log'[x.Key()] == x;
      }
    }
  }

  // ---- Holds ----

  datatype Hold = Hold(id: string, origin: string, amount: nat, expires: nat)

  function HoldOf(e: Event): Hold {
    Hold(e.id, e.origin, e.holdAmount, e.holdExpires)
  }

  function HoldAmount(h: Hold): int {
    h.amount
  }

  ghost function HoldsOf(log: Log, owner: BalanceKey): set<Hold> {
    set k | k in log && log[k].Owner() == owner && log[k].HasHold() :: HoldOf(log[k])
  }

  /** Hold ids some applied event releases. */
  ghost function ReleasesOf(log: Log, owner: BalanceKey): set<string> {
    set k | k in log && log[k].Owner() == owner && log[k].ReleasedHold().Some? :: log[k].ReleasedHold().value
  }

  /** The holds that reduce available balance at time `now`. */
  ghost function ActiveHolds(log: Log, owner: BalanceKey, now: nat): set<Hold> {
    set h | h in HoldsOf(log, owner) && h.expires > now && h.id !in ReleasesOf(log, owner)
  }

  ghost function HoldTotal(holds: set<Hold>): nat {
    SumNonNegative(holds, HoldAmount);
    SumOf(holds, HoldAmount)
  }

  ghost function HeldTotal(log: Log, owner: BalanceKey, now: nat): nat {
    HoldTotal(ActiveHolds(log, owner, now))
  }

  /** The available balance as the node computes it, in 64-bit words. */
  ghost function Available(log: Log, owner: BalanceKey, now: nat): int {
    WrapI64(Balance(log, owner) - HeldTotal(log, owner, now))
  }

  ghost function HoldsOfOrigin(holds: set<Hold>, origin: string, now: nat, minRemaining: nat): set<Hold> {
    set h | h in holds && h.origin == origin && h.expires - now >= minRemaining
  }

  lemma HoldsOfWith(log: Log, e: Event, owner: BalanceKey)
    requires WellFormed(log) && e.Key() !in log
    ensures HoldsOf(With(log, e), owner) ==
      HoldsOf(log, owner) + (if e.Owner() == owner && e.HasHold() then {HoldOf(e)} else {})
    ensures IdFresh(log, e.id) ==> HoldOf(e) !in HoldsOf(log, owner)
  {
    var log' := With(log, e);
    assert log'[e.Key()] == e;
    forall k | k in log
      ensures k in log' && log'[k] == log[k]
    {
    }
    var rhs := HoldsOf(log, owner) + (if e.Owner() == owner && e.HasHold() then {HoldOf(e)} else {});
    forall h | h in rhs
      ensures h in HoldsOf(log', owner)
    {
      if h in HoldsOf(log, owner) {
        var k :| k in log && log[k].Owner() == owner && log[k].HasHold() && HoldOf(log[k]) == h;
        assert k in log' && log'[k] == log[k];
      }
    }
  }

  lemma ReleasesOfWith(log: Log, e: Event, owner: BalanceKey)
    requires WellFormed(log) && e.Key() !in log
    ensures ReleasesOf(With(log, e), owner) ==
      ReleasesOf(log, owner) + (if e.Owner() == owner && e.ReleasedHold().Some? then {e.ReleasedHold().value} else {})
  {
    var log' := With(log, e);
    assert log'[e.Key()] == e;
    var rhs := ReleasesOf(log, owner) + (if e.Owner() == owner && e.ReleasedHold().Some? then {e.ReleasedHold().value} else {});
    forall id | id in rhs
      ensures id in ReleasesOf(log', owner)
    {
      if id in ReleasesOf(log, owner) {
        var k :| k in log && log[k].Owner() == owner && log[k].ReleasedHold().Some? && log[k].ReleasedHold().value == id;
        assert k in log' && log'[k] == log[k];
      }
    }
  }

  lemma HoldsOfDrop(log: Log, bucket: string, owner: BalanceKey)
    requires WellFormed(log)
    ensures HoldsOf(DropBucket(log, bucket), owner) == if owner.bucket == bucket then {} else HoldsOf(log, owner)
    ensures ReleasesOf(DropBucket(log, bucket), owner) == if owner.bucket == bucket then {} else ReleasesOf(log, owner)
  {
    var log' := DropBucket(log, bucket);
    if owner.bucket != bucket {
      forall h | h in HoldsOf(log, owner)
        ensures h in HoldsOf(log', owner)
      {
        var k :| k in log && log[k].Owner() == owner && log[k].HasHold() && HoldOf(log[k]) == h;
        assert k in log' && log'[k] == log[k];
      }
      forall id | id in ReleasesOf(log, owner)
        ensures id in ReleasesOf(log', owner)
      {
        var k :| k in log && log[k].Owner() == owner && log[k].ReleasedHold().Some? && log[k].ReleasedHold().value == id;
        assert k in log' && log'[k] == log[k];
      }
    }
  }

  // ---- Heads ----

  ghost function SeqsOf(log: Log, line: EpochKey): set<nat> {
    set k | k in log && k.line == line :: k.seqNo
  }

  /** `h` is the end of the gapless run 1..h. */
  ghost predicate IsHead(seqs: set<nat>, h: nat) {
    && (forall i :: 1 <= i <= h ==> i in seqs)
    && h + 1 !in seqs
  }

  lemma HeadUnique(seqs: set<nat>, g: nat, h: nat)
    requires IsHead(seqs, g) && IsHead(seqs, h)
    ensures g == h
  {
  }

  lemma {:induction false} HeadAbove(seqs: set<nat>, h: nat)
    requires forall i :: 1 <= i <= h ==> i in seqs
    ensures exists g :: IsHead(seqs, g)
    decreases |set x | x in seqs && x > h|
  {
    if h + 1 in seqs {
      var above := set x | x in seqs && x > h;
      assert (set x | x in seqs && x > h + 1) == above - {h + 1};
      HeadAbove(seqs, h + 1);
    } else {
      assert IsHead(seqs, h);
    }
  }

  ghost function HeadOf(log: Log, line: EpochKey): (h: nat)
    ensures IsHead(SeqsOf(log, line), h)
  {
    HeadAbove(SeqsOf(log, line), 0);
    var h :| IsHead(SeqsOf(log, line), h);
    h
  }

  lemma SeqsOfWith(log: Log, e: Event, line: EpochKey)
    ensures SeqsOf(With(log, e), line) == SeqsOf(log, line) + (if e.Line() == line then {e.seqNo} else {})
    ensures e.Key() !in log && e.Line() == line ==> e.seqNo !in SeqsOf(log, line)
  {
  }

  lemma SeqsOfDrop(log: Log, bucket: string, line: EpochKey)
    ensures SeqsOf(DropBucket(log, bucket), line) == if line.bucket == bucket then {} else SeqsOf(log, line)
  {
  }

  lemma InSeqsOf(log: Log, line: EpochKey, s: nat)
    ensures s in SeqsOf(log, line) <==> OriginKey(line, s) in log
  {
  }

  // ---- Rolling digests ----

  function TextOf(ref: Option<string>): string {
    if ref.Some? then ref.value else ""
  }

  /** `canonical`: the text an event is hashed as, its fields joined by colons
      (the note and the creation time are left out). */
  function CanonicalOf(e: Event): string {
    Field(e.origin, Field(Decimal(e.epoch), Field(Decimal(e.seqNo), Field(e.id, Field(KindName(e.kind),
      Field(e.bucket, Field(e.account, Field(Signed(e.amount), Field(TextOf(e.voidRef),
        Field(e.nonce, Field(Decimal(e.holdAmount), Decimal(e.holdExpires))))))))))))
  }

  /** A digest as the term that computes it: equal terms have equal hashes
      under any hash function. */
  datatype Digest = Zeroed | Chain(prev: Digest, item: string)

  ghost predicate Full(log: Log, line: EpochKey, n: nat) {
    forall i :: 1 <= i <= n ==> OriginKey(line, i) in log
  }

  /** The left fold of event hashes over seqs 1..n, none skipped. */
  ghost function DigestUpTo(log: Log, line: EpochKey, n: nat): Digest
    requires Full(log, line, n)
  {
    if n == 0 then Zeroed else Chain(DigestUpTo(log, line, n - 1), CanonicalOf(log[OriginKey(line, n)]))
  }

  lemma {:induction false} DigestFrame(log: Log, log': Log, line: EpochKey, n: nat)
    requires Full(log, line, n)
    requires forall i :: 1 <= i <= n ==> OriginKey(line, i) in log' && log'[OriginKey(line, i)] == log[OriginKey(line, i)]
    ensures Full(log', line, n) && DigestUpTo(log', line, n) == DigestUpTo(log, line, n)
  {
    if n > 0 {
      DigestFrame(log, log', line, n - 1);
    }
  }

  /** Equal digests mean equal canonical texts at every seq. */
  lemma {:induction false} DigestIsTexts(log: Log, log': Log, line: EpochKey, n: nat)
    requires Full(log, line, n) && Full(log', line, n)
    ensures DigestUpTo(log, line, n) == DigestUpTo(log', line, n) <==>
      forall i :: 1 <= i <= n ==> CanonicalOf(log[OriginKey(line, i)]) == CanonicalOf(log'[OriginKey(line, i)])
  {
    hide CanonicalOf;
    if n > 0 {
      DigestIsTexts(log, log', line, n - 1);
    }
  }
}
