/** Startup: every cache is rebuilt from what the storage queries return, and
    agrees with the stored log exactly as the incremental path does. */
module Rebuild {
  import opened Types
  import opened Sums
  import opened Ledger
  import opened ReplicaModel
  import opened Caches
  import Allocator

  const CACHE_WINDOW: nat := 10000

  // ---- What the startup queries promise ----

  /** `list` holds every event of the log once. */
  ghost predicate Lists(log: Log, list: seq<Event>) {
    && (forall i :: 0 <= i < |list| ==> list[i].Key() in log && log[list[i].Key()] == list[i])
    && (forall i, j :: 0 <= i < j < |list| ==> list[i].Key() != list[j].Key())
    && (forall k :: k in log ==> exists i :: 0 <= i < |list| && list[i].Key() == k)
  }

  ghost predicate SortedByTime(list: seq<Event>) {
    forall i, j :: 0 <= i < j < |list| ==> list[i].createdAt <= list[j].createdAt
  }

  ghost predicate SortedByLine(list: seq<Event>) {
    forall i, j :: 0 <= i < j < |list| && list[i].Line() == list[j].Line() ==> list[i].seqNo < list[j].seqNo
  }

  /** `aggregate_balances`, which answers only when every sum fits its 64-bit column. */
  ghost predicate Aggregates(log: Log, balances: map<BalanceKey, int>) {
    forall owner ::
      if owner in balances then balances[owner] == Balance(log, owner) && IsI64(balances[owner])
      else EventsOf(log, owner) == {}
  }

  predicate Ascending(seqs: seq<nat>) {
    forall i, j :: 0 <= i < j < |seqs| ==> seqs[i] < seqs[j]
  }

  /** `sequences_by_origin_epoch`. */
  ghost predicate ListsSeqs(log: Log, seqs: map<EpochKey, seq<nat>>) {
    && (forall line :: line in seqs ==> seqs[line] != [] && Ascending(seqs[line]))
    && (forall line, s :: s in SeqsOf(log, line) <==> line in seqs && s in seqs[line])
  }

  // ---- Heads ----

  function SetOf(seqs: seq<nat>): set<nat> {
    set s | s in seqs
  }

  /** `compute_contiguous_head`: the end of the gapless run that starts at 1. */
  method ComputeContiguousHead(seqs: seq<nat>) returns (head: nat)
    requires Ascending(seqs) && forall i :: 0 <= i < |seqs| ==> seqs[i] >= 1
    ensures IsHead(SetOf(seqs), head)
  {
    head := 0;
    for i := 0 to |seqs|
      invariant head == i && forall j :: 0 <= j < i ==> seqs[j] == j + 1
    {
      assert i > 0 ==> seqs[i - 1] < seqs[i];
      if seqs[i] == head + 1 {
        head := seqs[i];
      } else if seqs[i] > head + 1 {
        break;
      }
    }
    forall s | 1 <= s <= head
      ensures s in SetOf(seqs)
    {
      assert seqs[s - 1] == s;
    }
  }

  /** The three caches of one line, all present or all absent. */
  ghost predicate LineBuilt(seqs: set<nat>, known: bool, head: nat, pending: set<nat>, max: nat) {
    LineOk(seqs, head, pending) && MaxOk(seqs, known, max) && (known <==> seqs != {})
  }

  ghost predicate LinesBuilt(log: Log, left: set<EpochKey>, heads: map<EpochKey, nat>, pending: map<EpochKey, set<nat>>,
                             maxKnown: map<EpochKey, nat>) {
    && heads.Keys == maxKnown.Keys && pending.Keys <= heads.Keys && heads.Keys !! left
    && forall line :: line !in left ==>
         LineBuilt(SeqsOf(log, line), line in heads, HeadAt(heads, line), PendingAt(pending, line), MaxAt(maxKnown, line))
  }

  lemma LinesBuiltMore(log: Log, left: set<EpochKey>, heads: map<EpochKey, nat>, pending: map<EpochKey, set<nat>>,
                       maxKnown: map<EpochKey, nat>, line: EpochKey, head: nat, pending': map<EpochKey, set<nat>>, max: nat)
    requires LinesBuilt(log, left, heads, pending, maxKnown) && line in left
    requires LineBuilt(SeqsOf(log, line), true, head, PendingAt(pending', line), max)
    requires forall other :: other != line ==> (other in pending' <==> other in pending) && PendingAt(pending', other) == PendingAt(pending, other)
    ensures LinesBuilt(log, left - {line}, heads[line := head], pending', maxKnown[line := max])
  {
    hide SeqsOf, LineBuilt;
  }

  lemma LinesBuiltAll(log: Log, heads: map<EpochKey, nat>, pending: map<EpochKey, set<nat>>,
                      maxKnown: map<EpochKey, nat>)
    requires LinesBuilt(log, {}, heads, pending, maxKnown)
    ensures LinesOk(log, heads, pending) && MaxKnownOk(log, maxKnown)
  {
  }

  /** Heads, pending seqs and highest known seqs. */
  method RebuildLines(seqs: map<EpochKey, seq<nat>>, ghost log: Log)
    returns (heads: map<EpochKey, nat>, pending: map<EpochKey, set<nat>>, maxKnown: map<EpochKey, nat>)
    requires WellFormed(log) && ListsSeqs(log, seqs)
    ensures LinesOk(log, heads, pending) && MaxKnownOk(log, maxKnown)
  {
    hide SeqsOf, ListsSeqs, WellFormed, LinesBuilt, LineBuilt, IsHead, Ascending, SetOf, LinesOk, MaxKnownOk;
    heads, pending, maxKnown := map[], map[], map[];
    var left := seqs.Keys;
    NothingBuilt(log, seqs);
    while left != {}
      invariant left <= seqs.Keys && LinesBuilt(log, left, heads, pending, maxKnown)
      decreases |left|
    {
      var line :| line in left;
      SeqsAreListed(log, seqs, line);
      var listed := seqs[line];
      var head := ComputeContiguousHead(listed);
      var waiting := set s | s in listed && s > head;
      LineRebuilt(listed, head, waiting);
      ghost var before := pending;
      NoPending(log, left, heads, pending, maxKnown, line);
      if waiting != {} {
        pending := pending[line := waiting];
      }
      LinesBuiltMore(log, left, heads, before, maxKnown, line, head, pending, listed[|listed| - 1]);
      heads := heads[line := head];
      maxKnown := maxKnown[line := listed[|listed| - 1]];
      left := left - {line};
    }
    LinesBuiltAll(log, heads, pending, maxKnown);
  }

  lemma NothingBuilt(log: Log, seqs: map<EpochKey, seq<nat>>)
    requires ListsSeqs(log, seqs)
    ensures LinesBuilt(log, seqs.Keys, map[], map[], map[])
  {
  }

  lemma NoPending(log: Log, left: set<EpochKey>, heads: map<EpochKey, nat>, pending: map<EpochKey, set<nat>>,
                  maxKnown: map<EpochKey, nat>, line: EpochKey)
    requires LinesBuilt(log, left, heads, pending, maxKnown) && line in left
    ensures line !in pending
  {
  }

  lemma SeqsAreListed(log: Log, seqs: map<EpochKey, seq<nat>>, line: EpochKey)
    requires WellFormed(log) && ListsSeqs(log, seqs) && line in seqs
    ensures SeqsOf(log, line) == SetOf(seqs[line]) && SeqsOf(log, line) != {}
    ensures Ascending(seqs[line]) && seqs[line] != [] && forall i :: 0 <= i < |seqs[line]| ==> seqs[line][i] >= 1
  {
    forall i | 0 <= i < |seqs[line]|
      ensures seqs[line][i] >= 1
    {
      assert seqs[line][i] in SeqsOf(log, line);
      InSeqsOf(log, line, seqs[line][i]);
    }
    assert seqs[line][0] in SeqsOf(log, line);
  }

  lemma LineRebuilt(listed: seq<nat>, head: nat, pending: set<nat>)
    requires Ascending(listed) && listed != [] && IsHead(SetOf(listed), head)
    requires pending == set s | s in listed && s > head
    ensures LineBuilt(SetOf(listed), true, head, pending, listed[|listed| - 1])
  {
  }

  // ---- The part of the log already replayed ----

  function Replayed(list: seq<Event>): Log {
    if list == [] then map[] else With(Replayed(list[..|list| - 1]), list[|list| - 1])
  }

  lemma {:induction false} ReplayedKeys(log: Log, list: seq<Event>, n: nat)
    requires Lists(log, list) && n <= |list|
    ensures forall k :: k in Replayed(list[..n]) <==> exists i :: 0 <= i < n && list[i].Key() == k
    ensures forall k :: k in Replayed(list[..n]) ==> k in log && Replayed(list[..n])[k] == log[k]
  {
    if n > 0 {
      ReplayedKeys(log, list, n - 1);
      assert list[..n][..n - 1] == list[..n - 1];
      var before, after := Replayed(list[..n - 1]), Replayed(list[..n]);
      assert after == With(before, list[n - 1]);
      assert list[n - 1].Key() in log && log[list[n - 1].Key()] == list[n - 1];
      hide Replayed, Lists;
      forall k | k in after && k != list[n - 1].Key()
        ensures exists i :: 0 <= i < n && list[i].Key() == k
      {
        var i :| 0 <= i < n - 1 && list[i].Key() == k;
      }
    }
  }

  /** Replaying the whole listing gives the log back. */
  lemma ReplayedAll(log: Log, list: seq<Event>)
    requires Lists(log, list)
    ensures Replayed(list) == log
  {
    ReplayedKeys(log, list, |list|);
    assert list[..|list|] == list;
    hide Replayed;
    forall k | k in log
      ensures k in Replayed(list)
    {
      var i :| 0 <= i < |list| && list[i].Key() == k;
    }
    hide Lists;
    assert Replayed(list).Keys == log.Keys;
  }

  lemma ReplayStep(log: Log, list: seq<Event>, n: nat)
    requires WellFormed(log) && Lists(log, list) && n < |list|
    ensures Replayed(list[..n + 1]) == With(Replayed(list[..n]), list[n])
    ensures WellFormed(Replayed(list[..n])) && list[n].Key() !in Replayed(list[..n])
    ensures IdFresh(Replayed(list[..n]), list[n].id)
    ensures list[n].seqNo >= 1
  {
    ReplayedKeys(log, list, n);
    assert list[..n + 1][..n] == list[..n];
  }

  // ---- Accounts ----

  /** The account after replaying `done`: its balance came from the aggregate,
      holds already expired at startup are not tracked. */
  ghost predicate ReplayedAccount(log: Log, done: Log, owner: BalanceKey, a: AccountState, now: nat) {
    && a.balance == WrapI64(Balance(log, owner))
    && a.eventCount == |EventsOf(done, owner)|
    && a.Reserved() == (set h | h in HoldsOf(done, owner) && h.expires > now)
    && a.released == ReleasesOf(done, owner)
  }

  function ReplayEvent(a: AccountState, e: Event, now: nat): AccountState {
    var counted := a.(eventCount := a.eventCount + 1);
    (if e.HasHold() && e.holdExpires > now then counted.Tracked(e) else counted).Released(e)
  }

  lemma ReservedReplayed(a: AccountState, e: Event, now: nat)
    requires e.id !in a.reservations
    ensures ReplayEvent(a, e, now).Reserved() == a.Reserved() + (if e.HasHold() && e.holdExpires > now then {HoldOf(e)} else {})
  {
    var b := ReplayEvent(a, e, now);
    if e.HasHold() && e.holdExpires > now {
      ReservedBooked(a, e);
      assert b.reservations == a.Booked(e).reservations;
      assert b.Reserved() == a.Booked(e).Reserved();
    } else {
      assert b.reservations == a.reservations;
      assert b.Reserved() == a.Reserved();
    }
  }

  lemma AccountReplayed(log: Log, done: Log, e: Event, a: AccountState, now: nat)
    requires WellFormed(done) && e.Key() !in done && IdFresh(done, e.id)
    requires ReplayedAccount(log, done, e.Owner(), a, now)
    ensures ReplayedAccount(log, With(done, e), e.Owner(), ReplayEvent(a, e, now), now)
  {
    hide Balance, EventsOf, HoldsOf, ReleasesOf, AccountState.Reserved;
    var owner := e.Owner();
    EventsOfWith(done, e, owner);
    HoldsOfWith(done, e, owner);
    ReleasesOfWith(done, e, owner);
    FreshReservation(done, owner, a, e);
    ReservedReplayed(a, e, now);
  }

  lemma OtherReplayed(log: Log, done: Log, e: Event, owner: BalanceKey, a: AccountState, now: nat)
    requires WellFormed(done) && e.Key() !in done && owner != e.Owner()
    requires ReplayedAccount(log, done, owner, a, now)
    ensures ReplayedAccount(log, With(done, e), owner, a, now)
  {
    hide Balance, EventsOf, HoldsOf, ReleasesOf, AccountState.Reserved;
    EventsOfWith(done, e, owner);
    HoldsOfWith(done, e, owner);
    ReleasesOfWith(done, e, owner);
    var noEvent: set<Event> := {};
    assert EventsOf(done, owner) + noEvent == EventsOf(done, owner);
    var noHold: set<Hold> := {};
    assert HoldsOf(done, owner) + noHold == HoldsOf(done, owner);
    var noId: set<string> := {};
    assert ReleasesOf(done, owner) + noId == ReleasesOf(done, owner);
  }

  lemma ReplayedIsOk(log: Log, owner: BalanceKey, a: AccountState, now: nat)
    requires ReplayedAccount(log, log, owner, a, now)
    ensures AccountOk(log, owner, a, now, {})
  {
    var none: set<Event> := {};
    assert EventsOf(log, owner) - none == EventsOf(log, owner);
    hide EventsOf, Balance, HoldsOf, ReleasesOf;
  }

  lemma FreshAccount(log: Log, owner: BalanceKey, balance: int, now: nat)
    requires balance == Balance(log, owner) && IsI64(balance)
    ensures ReplayedAccount(log, map[], owner, AccountState(balance, 0, map[], {}), now)
  {
  }

  lemma EmptyBalance(log: Log, owner: BalanceKey)
    requires EventsOf(log, owner) == {}
    ensures Balance(log, owner) == 0
  {
  }

  lemma AggregatesStart(log: Log, balances: map<BalanceKey, int>, accounts: map<BalanceKey, AccountState>, now: nat)
    requires Aggregates(log, balances)
    requires accounts == map owner | owner in balances :: AccountState(balances[owner], 0, map[], {})
    ensures forall owner :: ReplayedAccount(log, map[], owner, AccountAt(accounts, owner), now)
  {
    forall owner
      ensures ReplayedAccount(log, map[], owner, AccountAt(accounts, owner), now)
    {
      if owner !in balances { EmptyBalance(log, owner); }
      FreshAccount(log, owner, AccountAt(accounts, owner).balance, now);
    }
  }

  lemma AllReplayed(log: Log, accounts: map<BalanceKey, AccountState>, now: nat)
    requires forall owner :: ReplayedAccount(log, log, owner, AccountAt(accounts, owner), now)
    ensures AccountsOk(log, accounts, now, {})
  {
    forall owner
      ensures AccountOk(log, owner, AccountAt(accounts, owner), now, {})
    {
      ReplayedIsOk(log, owner, AccountAt(accounts, owner), now);
    }
  }

  lemma NothingReplayed()
    ensures Replayed([]) == map[]
  {
  }

  lemma AccountUpdated(accounts: map<BalanceKey, AccountState>, owner: BalanceKey, a: AccountState)
    ensures forall other :: AccountAt(accounts[owner := a], other) == if other == owner then a else AccountAt(accounts, other)
  {
    forall other
      ensures AccountAt(accounts[owner := a], other) == if other == owner then a else AccountAt(accounts, other)
    {
    }
  }

  method RebuildAccounts(balances: map<BalanceKey, int>, events: seq<Event>, now: nat, ghost log: Log)
    returns (accounts: map<BalanceKey, AccountState>)
    requires WellFormed(log) && Aggregates(log, balances) && Lists(log, events)
    ensures AccountsOk(log, accounts, now, {})
  {
    hide *;
    accounts := map owner | owner in balances :: AccountState(balances[owner], 0, map[], {});
    AggregatesStart(log, balances, accounts, now);
    NothingReplayed();
    assert events[..0] == [];
    for i := 0 to |events|
      invariant forall owner :: ReplayedAccount(log, Replayed(events[..i]), owner, AccountAt(accounts, owner), now)
    {
      var e := events[i];
      ghost var before := accounts;
      ReplayStep(log, events, i);
      accounts := accounts[e.Owner() := ReplayEvent(AccountAt(accounts, e.Owner()), e, now)];
      AccountUpdated(before, e.Owner(), ReplayEvent(AccountAt(before, e.Owner()), e, now));
      forall owner
        ensures ReplayedAccount(log, Replayed(events[..i + 1]), owner, AccountAt(accounts, owner), now)
      {
        if owner == e.Owner() {
          AccountReplayed(log, Replayed(events[..i]), e, AccountAt(before, owner), now);
        } else {
          OtherReplayed(log, Replayed(events[..i]), e, owner, AccountAt(before, owner), now);
        }
      }
    }
    assert events[..|events|] == events;
    ReplayedAll(log, events);
    AllReplayed(log, accounts, now);
  }

  // ---- Origin lines ----

  /** `origin_account_epoch_mapping`, folded into the reverse index. */
  method RebuildOrigins(events: seq<Event>, ghost log: Log) returns (origins: map<BalanceKey, set<EpochKey>>)
    requires WellFormed(log) && Lists(log, events)
    ensures OriginsOk(log, origins)
  {
    origins := map[];
    assert events[..0] == [];
    assert OriginsOk(map[], origins);
    hide OriginsOk, Lists, WellFormed, With, IdFresh;
    for i := 0 to |events|
      invariant OriginsOk(Replayed(events[..i]), origins)
    {
      var e := events[i];
      ReplayStep(log, events, i);
      OriginsGrow(Replayed(events[..i]), origins, e);
      origins := origins[e.Owner() := OriginsAt(origins, e.Owner()) + {e.Line()}];
    }
    assert events[..|events|] == events;
    ReplayedAll(log, events);
  }

  // ---- Tombstones ----

  method RebuildTombstones(metaEvents: seq<Event>) returns (deleted: map<string, nat>)
    ensures deleted.Keys == TargetsListed(metaEvents)
  {
    deleted := map[];
    for i := 0 to |metaEvents|
      invariant deleted.Keys == set j | 0 <= j < i && metaEvents[j].MetaTargetBucket().Some? :: metaEvents[j].MetaTargetBucket().value
    {
      var target := metaEvents[i].MetaTargetBucket();
      if target.Some? {
        deleted := deleted[target.value := metaEvents[i].createdAt];
      }
    }
  }

  // ---- The idempotency cache ----

  /** From the newest event back, the first event seen of each key. */
  function NewestOf(events: seq<Event>, key: IdemKey): Option<Event> {
    if events == [] then None
    else if events[|events| - 1].Idem() == key then Some(events[|events| - 1])
    else NewestOf(events[..|events| - 1], key)
  }

  lemma {:induction false} NewestAfter(events: seq<Event>, e: Event, key: IdemKey)
    ensures NewestOf([e] + events, key) ==
      if NewestOf(events, key).Some? then NewestOf(events, key) else if e.Idem() == key then Some(e) else None
  {
    if events == [] {
      assert [e] + events == [e];
      assert [e][..0] == [];
    } else {
      assert ([e] + events)[..|events|] == [e] + events[..|events| - 1];
      NewestAfter(events[..|events| - 1], e, key);
    }
  }

  ghost predicate CachesNewest(cache: map<IdemKey, Event>, events: seq<Event>) {
    forall key :: NewestOf(events, key) == if key in cache then Some(cache[key]) else None
  }

  method RebuildCache(events: seq<Event>) returns (cache: map<IdemKey, Event>)
    ensures CachesNewest(cache, CacheWindow(events))
  {
    cache := map[];
    var n := if |events| <= CACHE_WINDOW then |events| else CACHE_WINDOW;
    assert events[|events|..] == [];
    for taken := 0 to n
      invariant CachesNewest(cache, events[|events| - taken..])
    {
      var e := events[|events| - taken - 1];
      ghost var seen := events[|events| - taken..];
      assert events[|events| - taken - 1..] == [e] + seen;
      forall key
        ensures NewestOf([e] + seen, key) ==
          if NewestOf(seen, key).Some? then NewestOf(seen, key) else if e.Idem() == key then Some(e) else None
      {
        NewestAfter(seen, e, key);
      }
      if e.Idem() !in cache {
        cache := cache[e.Idem() := e];
      }
    }
    assert events[0..] == events;
  }

  /** When the events arrive in creation order, a cached entry that is the
      newest of its key wins only over events created at the same moment. */
  lemma NewestSeldomWins(events: seq<Event>, i: nat, j: nat)
    requires SortedByTime(events) && i < j < |events|
    ensures Precedes(events[j], events[i]) <==> events[j].createdAt == events[i].createdAt && LexLess(events[j].id, events[i].id)
  {
  }

  lemma {:induction false} NewestIsLast(events: seq<Event>, key: IdemKey) returns (at: int)
    ensures -1 <= at < |events|
    ensures at == -1 ==> NewestOf(events, key) == None && forall i :: 0 <= i < |events| ==> events[i].Idem() != key
    ensures at >= 0 ==> NewestOf(events, key) == Some(events[at]) && events[at].Idem() == key
    ensures forall i :: at < i < |events| ==> events[i].Idem() != key
  {
    if events == [] {
      at := -1;
    } else if events[|events| - 1].Idem() == key {
      at := |events| - 1;
    } else {
      at := NewestIsLast(events[..|events| - 1], key);
    }
  }

  lemma ListedMatching(log: Log, list: seq<Event>, key: IdemKey)
    requires Lists(log, list)
    ensures forall x :: x in Matching(log, key) <==> x in list && x.Idem() == key
  {
  }

  ghost predicate LastOfKey(events: seq<Event>, at: int) {
    0 <= at < |events| && forall i :: at < i < |events| ==> events[i].Idem() != events[at].Idem()
  }

  /** What a restart caches of a key whose last listed event is at `at`. */
  lemma RestartCaches(events: seq<Event>, cache: map<IdemKey, Event>, at: int)
    requires CachesNewest(cache, CacheWindow(events)) && LastOfKey(events, at)
    ensures events[at].Idem() in cache <==> at + 10000 >= |events|
    ensures events[at].Idem() in cache ==> cache[events[at].Idem()] == events[at]
  {
    var key, window := events[at].Idem(), CacheWindow(events);
    var skipped := |events| - |window|;
    assert window == events[skipped..] && skipped == Max(|events| - CACHE_WINDOW, 0);
    assert NewestOf(window, key) == if key in cache then Some(cache[key]) else None;
    hide CachesNewest, CacheWindow, NewestOf;
    var last := NewestIsLast(window, key);
    if at >= skipped {
      assert window[at - skipped] == events[at];
    }
    if last >= 0 {
      assert window[last] == events[skipped + last];
    }
  }

  /** A restarted node keeps the winner of a key, whose last listed event is at
      `at`, exactly when that event lies in the window, every event of the key
      was created at the same moment, and the last one has the least id. */
  lemma RestartKeepsWinnerIff(log: Log, events: seq<Event>, cache: map<IdemKey, Event>, at: int)
    requires WellFormed(log) && Lists(log, events) && SortedByTime(events) && CachesNewest(cache, CacheWindow(events))
    requires LastOfKey(events, at)
    ensures var key := events[at].Idem();
      key in cache && IsLeast(Matching(log, key), cache[key]) <==>
        && at + 10000 >= |events|
        && forall i :: 0 <= i < at && events[i].Idem() == key ==>
             events[i].createdAt == events[at].createdAt && LexLess(events[at].id, events[i].id)
  {
    var key := events[at].Idem();
    RestartCaches(events, cache, at);
    ListedMatching(log, events, key);
    hide CachesNewest, CacheWindow, Matching, LexLess;
    forall i | 0 <= i < |events| && events[i].Idem() == key && i != at
      ensures i < at && events[i] in Matching(log, key) && events[i] != events[at]
      ensures Precedes(events[at], events[i]) <==>
        events[i].createdAt == events[at].createdAt && LexLess(events[at].id, events[i].id)
    {
      NewestSeldomWins(events, i, at);
    }
    if IsLeast(Matching(log, key), events[at]) {
      assert forall i :: 0 <= i < at && events[i].Idem() == key ==> events[i] in Matching(log, key);
    }
    forall x | x in Matching(log, key) && x != events[at]
      ensures exists i :: 0 <= i < at && events[i] == x && events[i].Idem() == key
    {
      var i :| 0 <= i < |events| && events[i] == x;
    }
  }

  /** For instance: of two events of a key, created at 1 and at 2, a restart
      caches the second, although the first is the winner. */
  lemma RestartCanCacheLoser(cache: map<IdemKey, Event>)
    requires var first := Event("a", "n", 1, 1, 1, Standard, "b", "acct", 5, None, "k", None, 0, 0, None);
      CachesNewest(cache, [first, first.(id := "b", seqNo := 2, createdAt := 2)])
    ensures var first := Event("a", "n", 1, 1, 1, Standard, "b", "acct", 5, None, "k", None, 0, 0, None);
      first.Idem() in cache && cache[first.Idem()] != first && Precedes(first, cache[first.Idem()])
  {
  }

  function CacheWindow(events: seq<Event>): seq<Event> {
    if |events| <= CACHE_WINDOW then events else events[|events| - CACHE_WINDOW..]
  }

  lemma NewestKeyed(cache: map<IdemKey, Event>, events: seq<Event>)
    requires CachesNewest(cache, events)
    ensures Keyed(cache)
  {
    forall key | key in cache
      ensures cache[key].Idem() == key
    {
      var at := NewestIsLast(events, key);
    }
  }

  // ---- The node after a restart ----

  /** Buckets some stored meta event names, the meta bucket itself included:
      what the replay at startup tombstones. */
  ghost function MetaTargets(log: Log): set<string> {
    set k | k in log && log[k].MetaTargetBucket().Some? :: log[k].MetaTargetBucket().value
  }

  ghost function TargetsListed(metaEvents: seq<Event>): set<string> {
    set i | 0 <= i < |metaEvents| && metaEvents[i].MetaTargetBucket().Some? :: metaEvents[i].MetaTargetBucket().value
  }

  /** No row of a bucket some stored meta event deletes; nothing deletes the meta log. */
  ghost predicate Restorable(log: Log) {
    && WellFormed(log)
    && (forall k :: k in log ==> k.line.bucket !in Tombstones(log))
    && (forall k :: k in log ==> log[k].MetaTargetBucket() != Some(META_BUCKET))
  }

  /** Own stored events belong to epochs the durable allocator rows know. */
  ghost predicate RowsCover(log: Log, rows: map<string, Allocator.Row>, node: string) {
    forall k :: k in log && k.line.origin == node ==>
      k.line.epoch <= if k.line.bucket in rows then rows[k.line.bucket].epoch else 0
  }

  /** `query_events_by_bucket` of the meta bucket. */
  ghost predicate MetaEventsOf(log: Log, metaEvents: seq<Event>) {
    && (forall i :: 0 <= i < |metaEvents| ==> metaEvents[i].Key() in log && log[metaEvents[i].Key()] == metaEvents[i])
    && (forall k :: k in log && k.line.bucket == META_BUCKET ==> log[k] in metaEvents)
  }

  ghost function Restarted(cfg: Config, stored: Log, rows: map<string, Allocator.Row>,
                           cache: map<IdemKey, Event>): Replica {
    Replica(cfg, stored, cache, MetaTargets(stored), stored, Allocator.AfterRestart(Allocator.AllocState(map[], rows)))
  }

  lemma NothingQueued(log: Log)
    ensures Durable(log, log, map[])
  {
  }

  lemma TombstonesRebuilt(log: Log, metaEvents: seq<Event>)
    requires WellFormed(log) && MetaEventsOf(log, metaEvents)
    ensures TargetsListed(metaEvents) == MetaTargets(log)
  {
    forall b | b in MetaTargets(log)
      ensures b in TargetsListed(metaEvents)
    {
      var k :| k in log && log[k].MetaTargetBucket() == Some(b);
      var i :| 0 <= i < |metaEvents| && metaEvents[i] == log[k];
    }
  }

  /** Some listing of the meta events among the given keys. */
  ghost function ListMeta(log: Log, keys: set<OriginKey>): (list: seq<Event>)
    requires keys <= log.Keys
  {
    if keys == {} then []
    else
      var k :| k in keys;
      (if k.line.bucket == META_BUCKET then [log[k]] else []) + ListMeta(log, keys - {k})
  }

  lemma {:induction false} MetaListed(log: Log, keys: set<OriginKey>)
    requires keys <= log.Keys
    ensures forall x :: x in ListMeta(log, keys) <==> exists k :: k in keys && k.line.bucket == META_BUCKET && log[k] == x
    decreases |keys|
  {
    if keys != {} {
      var k :| k in keys && ListMeta(log, keys)
        == (if k.line.bucket == META_BUCKET then [log[k]] else []) + ListMeta(log, keys - {k});
      MetaListed(log, keys - {k});
    }
  }

  lemma TargetsSplit(log: Log)
    ensures MetaTargets(log) - {META_BUCKET} == Tombstones(log)
    ensures META_BUCKET in MetaTargets(log) <==> exists k :: k in log && log[k].MetaTargetBucket() == Some(META_BUCKET)
  {
  }

  /** The replica a restart yields is valid, with the tombstones of the running
      path, exactly when the log is restorable. */
  lemma RestartedValidIff(cfg: Config, stored: Log, rows: map<string, Allocator.Row>, cache: map<IdemKey, Event>)
    requires WellFormed(stored) && RowsCover(stored, rows, cfg.nodeId)
    ensures Valid(Restarted(cfg, stored, rows, cache)) && MetaTargets(stored) == Tombstones(stored) <==> Restorable(stored)
  {
    TargetsSplit(stored);
  }

  /** The restarted node has the tombstones the running path would have, for
      any listing of the stored meta events, exactly when no stored meta event
      names the meta bucket itself: the replay lacks the exception that the
      running path makes. */
  lemma TombstonesSurviveIff(log: Log)
    requires WellFormed(log)
    ensures (forall metaEvents :: MetaEventsOf(log, metaEvents) ==> TargetsListed(metaEvents) == Tombstones(log)) <==>
      forall k :: k in log ==> log[k].MetaTargetBucket() != Some(META_BUCKET)
  {
    TargetsSplit(log);
    hide MetaTargets, Tombstones;
    var one := ListMeta(log, log.Keys);
    MetaListed(log, log.Keys);
    assert MetaEventsOf(log, one) by {
      forall i | 0 <= i < |one|
        ensures one[i].Key() in log && log[one[i].Key()] == one[i]
      {
        assert one[i] in one;
      }
    }
    forall metaEvents | MetaEventsOf(log, metaEvents)
      ensures TargetsListed(metaEvents) == MetaTargets(log)
    {
      TombstonesRebuilt(log, metaEvents);
    }
  }

  /** A restarted node refuses every event of the meta log, whatever it is,
      exactly when some stored meta event names the meta bucket. */
  lemma MetaLogClosesIff(cfg: Config, stored: Log, rows: map<string, Allocator.Row>, cache: map<IdemKey, Event>)
    requires WellFormed(stored)
    ensures (forall e: Event :: e.bucket == META_BUCKET ==> !Accepts(Restarted(cfg, stored, rows, cache), e)) <==>
      exists k :: k in stored && stored[k].MetaTargetBucket() == Some(META_BUCKET)
  {
    TargetsSplit(stored);
    var line := EpochKey(META_BUCKET, "n", 0);
    var e := Event("a", "n", 0, HeadOf(stored, line) + 1, 1, EventType.BucketDelete, META_BUCKET, "b", 0, None,
                   DeleteNonce("b"), None, 0, 0, None);
    assert e.Line() == line && e.Key() == OriginKey(line, e.seqNo);
    InSeqsOf(stored, line, e.seqNo);
  }

  /** A meta event that names the meta bucket. */
  function SelfDelete(): Event {
    Event("a", "n", 1, 1, 1, EventType.BucketDelete, META_BUCKET, META_BUCKET, 0, None, "k", None, 0, 0, None)
  }

  /** One such event is enough: the running node takes it like any other and
      still accepts meta events, but once it is stored and the node restarts,
      every delete from elsewhere is refused. */
  lemma RestartCanCloseMetaLog(r: Replica, m: Mint, later: Event)
    requires Valid(r) && r.stored == map[] && later.bucket == META_BUCKET && later.seqNo >= 1
    requires Accepts(r, SelfDelete()) && SelfDelete().Idem() !in r.cache
    requires later.Key() !in Receive(r, SelfDelete(), m).0.applied
    ensures var running := Persist(Receive(r, SelfDelete(), m).0, {SelfDelete().Key()});
      var restarted := Restarted(r.cfg, running.stored, running.alloc.rows, map[]);
      && running.stored == map[SelfDelete().Key() := SelfDelete()]
      && Accepts(running, later) && !Accepts(restarted, later)
  {
    var own := SelfDelete();
    assert own.MetaTargetBucket() == Some(META_BUCKET);
    var running := Persist(Receive(r, own, m).0, {own.Key()});
    assert running.stored == map[own.Key() := own];
    assert running.stored[own.Key()] == own;
  }

  /** A crash at any moment leaves the durable rows covering the stored events. */
  lemma RunningCovers(r: Replica)
    requires Valid(r)
    ensures RowsCover(r.stored, r.alloc.rows, r.cfg.nodeId)
  {
  }

  // ---- Digests and the buffer ----

  /** The digest of a line so far covers exactly the replayed seqs up to its head. */
  ghost predicate Folded(log: Log, done: Log, line: EpochKey, head: nat, known: bool, digest: (nat, Digest)) {
    && Full(log, line, head) && digest.0 <= head
    && digest.1 == DigestUpTo(log, line, digest.0)
    && (!known ==> digest.0 == 0)
    && forall s :: 1 <= s <= head ==> (OriginKey(line, s) in done <==> s <= digest.0)
  }

  ghost predicate AllFolded(log: Log, done: Log, heads: map<EpochKey, nat>, digests: map<EpochKey, (nat, Digest)>,
                            buffer: Log) {
    && (forall line :: Folded(log, done, line, HeadAt(heads, line), line in digests, DigestAt(digests, line)))
    && (forall k :: k in buffer <==> k in done && k.seqNo > HeadAt(heads, k.line))
    && (forall k :: k in buffer ==> k in log && buffer[k] == log[k])
  }

  /** The event before `list[i]` on its line was replayed already. */
  lemma BeforeWasReplayed(log: Log, list: seq<Event>, i: nat, before: OriginKey)
    requires Lists(log, list) && SortedByLine(list) && i < |list|
    requires before in log && before.line == list[i].Line() && before.seqNo < list[i].seqNo
    ensures before in Replayed(list[..i])
  {
    ReplayedKeys(log, list, i);
    hide Replayed;
    var j :| 0 <= j < |list| && list[j].Key() == before;
    assert list[j].Line() == list[i].Line() && list[j].seqNo < list[i].seqNo;
    assert j < i;
  }

  lemma NotYetReplayed(log: Log, list: seq<Event>, i: nat)
    requires Lists(log, list) && i < |list|
    ensures list[i].Key() !in Replayed(list[..i]) && list[i].Key() in log && log[list[i].Key()] == list[i]
  {
    ReplayedKeys(log, list, i);
    hide Replayed;
  }

  /** In seq order the next event at or below the head always extends the digest. */
  lemma NextInOrder(log: Log, list: seq<Event>, i: nat, head: nat, known: bool, digest: (nat, Digest))
    requires WellFormed(log) && Lists(log, list) && SortedByLine(list) && i < |list|
    requires Folded(log, Replayed(list[..i]), list[i].Line(), head, known, digest) && list[i].seqNo <= head
    ensures list[i].seqNo == digest.0 + 1
  {
    var e := list[i];
    NotYetReplayed(log, list, i);
    assert e.Key() == OriginKey(e.Line(), e.seqNo) && e.seqNo >= 1;
    hide Replayed, DigestUpTo, Lists, SortedByLine, WellFormed;
    if e.seqNo > 1 {
      var before := OriginKey(e.Line(), e.seqNo - 1);
      assert before in log;
      BeforeWasReplayed(log, list, i, before);
    }
  }

  lemma FoldedBuffers(log: Log, done: Log, heads: map<EpochKey, nat>, digests: map<EpochKey, (nat, Digest)>,
                      buffer: Log, e: Event)
    requires AllFolded(log, done, heads, digests, buffer) && e.seqNo > HeadAt(heads, e.Line())
    requires e.Key() in log && log[e.Key()] == e
    ensures AllFolded(log, With(done, e), heads, digests, buffer[e.Key() := e])
  {
  }

  lemma FoldedExtends(log: Log, done: Log, heads: map<EpochKey, nat>, digests: map<EpochKey, (nat, Digest)>,
                      buffer: Log, e: Event)
    requires AllFolded(log, done, heads, digests, buffer) && e.seqNo <= HeadAt(heads, e.Line())
    requires e.Key() in log && log[e.Key()] == e && e.seqNo == DigestAt(digests, e.Line()).0 + 1
    ensures AllFolded(log, With(done, e), heads,
                      digests[e.Line() := (e.seqNo, Chain(DigestAt(digests, e.Line()).1, CanonicalOf(e)))], buffer)
  {
    hide CanonicalOf;
    var digests' := digests[e.Line() := (e.seqNo, Chain(DigestAt(digests, e.Line()).1, CanonicalOf(e)))];
    forall line
      ensures Folded(log, With(done, e), line, HeadAt(heads, line), line in digests', DigestAt(digests', line))
    {
      assert Folded(log, done, line, HeadAt(heads, line), line in digests, DigestAt(digests, line));
    }
  }

  /** Digests of the contiguous part, buffer for what lies beyond. */
  method RebuildDigests(events: seq<Event>, heads: map<EpochKey, nat>, ghost pending: map<EpochKey, set<nat>>,
                        ghost log: Log)
    returns (digests: map<EpochKey, (nat, Digest)>, buffer: Log)
    requires WellFormed(log) && Lists(log, events) && SortedByLine(events) && LinesOk(log, heads, pending)
    ensures DigestsOk(log, heads, digests) && BufferOk(log, heads, map[], buffer)
  {
    hide LinesOk, Lists, SortedByLine, AllFolded, WellFormed, DigestsOk, BufferOk, With, IdFresh;
    digests, buffer := map[], map[];
    NothingFolded(log, heads, pending);
    assert events[..0] == [];
    for i := 0 to |events|
      invariant AllFolded(log, Replayed(events[..i]), heads, digests, buffer)
    {
      var e := events[i];
      ReplayStep(log, events, i);
      ListedIn(log, events, i);
      var head := HeadAt(heads, e.Line());
      if e.seqNo > head {
        FoldedBuffers(log, Replayed(events[..i]), heads, digests, buffer, e);
        buffer := buffer[e.Key() := e];
      } else {
        var (digestHead, current) := DigestAt(digests, e.Line());
        FoldedAt(log, Replayed(events[..i]), heads, digests, buffer, e.Line());
        NextInOrder(log, events, i, head, e.Line() in digests, DigestAt(digests, e.Line()));
        FoldedExtends(log, Replayed(events[..i]), heads, digests, buffer, e);
        if e.seqNo == digestHead + 1 {
          digests := digests[e.Line() := (e.seqNo, Chain(current, CanonicalOf(e)))];
        }
      }
    }
    assert events[..|events|] == events;
    ReplayedAll(log, events);
    AllFoldedIsOk(log, heads, digests, buffer);
  }

  lemma ListedIn(log: Log, list: seq<Event>, i: nat)
    requires Lists(log, list) && i < |list|
    ensures list[i].Key() in log && log[list[i].Key()] == list[i]
  {
  }

  lemma FoldedAt(log: Log, done: Log, heads: map<EpochKey, nat>, digests: map<EpochKey, (nat, Digest)>, buffer: Log,
                 line: EpochKey)
    requires AllFolded(log, done, heads, digests, buffer)
    ensures Folded(log, done, line, HeadAt(heads, line), line in digests, DigestAt(digests, line))
  {
  }

  lemma NothingFolded(log: Log, heads: map<EpochKey, nat>, pending: map<EpochKey, set<nat>>)
    requires LinesOk(log, heads, pending)
    ensures AllFolded(log, map[], heads, map[], map[])
  {
    forall line
      ensures Full(log, line, HeadAt(heads, line))
    {
      assert LineOk(SeqsOf(log, line), HeadAt(heads, line), PendingAt(pending, line));
      forall i | 1 <= i <= HeadAt(heads, line)
        ensures OriginKey(line, i) in log
      {
        InSeqsOf(log, line, i);
      }
    }
  }

  lemma AllFoldedIsOk(log: Log, heads: map<EpochKey, nat>, digests: map<EpochKey, (nat, Digest)>, buffer: Log)
    requires AllFolded(log, log, heads, digests, buffer)
    ensures DigestsOk(log, heads, digests) && BufferOk(log, heads, map[], buffer)
  {
    forall line
      ensures DigestOk(log, line, HeadAt(heads, line), line in digests, DigestAt(digests, line))
    {
      var head, digest := HeadAt(heads, line), DigestAt(digests, line);
      assert Folded(log, log, line, head, line in digests, digest);
      assert head >= 1 ==> OriginKey(line, head) in log;
    }
  }

  // ---- All together ----

  /** The results of the startup queries. */
  ghost predicate Snapshot(log: Log, balances: map<BalanceKey, int>, seqs: map<EpochKey, seq<nat>>,
                           byTime: seq<Event>, byLine: seq<Event>, metaEvents: seq<Event>) {
    && Aggregates(log, balances) && ListsSeqs(log, seqs)
    && Lists(log, byTime) && SortedByTime(byTime) && Lists(log, byLine) && SortedByLine(byLine)
    && MetaEventsOf(log, metaEvents)
  }

  datatype Rebuilt = Rebuilt(
    heads: map<EpochKey, nat>,
    pending: map<EpochKey, set<nat>>,
    maxKnown: map<EpochKey, nat>,
    origins: map<BalanceKey, set<EpochKey>>,
    digests: map<EpochKey, (nat, Digest)>,
    buffer: Log,
    accounts: map<BalanceKey, AccountState>,
    cache: map<IdemKey, Event>,
    deleted: map<string, nat>)

  method RebuildAll(balances: map<BalanceKey, int>, seqs: map<EpochKey, seq<nat>>, byTime: seq<Event>,
                    byLine: seq<Event>,
                    metaEvents: seq<Event>, now: nat, ghost log: Log) returns (found: Rebuilt)
    requires WellFormed(log) && Snapshot(log, balances, seqs, byTime, byLine, metaEvents)
    ensures CachesAgree(log, found.heads, found.pending, found.maxKnown, found.origins, found.digests, map[], found.buffer)
    ensures AccountsOk(log, found.accounts, now, {}) && found.deleted.Keys == MetaTargets(log)
    ensures CachesNewest(found.cache, CacheWindow(byTime)) && Keyed(found.cache)
  {
    hide Aggregates, ListsSeqs, Lists, SortedByTime, SortedByLine, WellFormed, MetaEventsOf, CachesNewest;
    hide LinesOk, MaxKnownOk, OriginsOk, DigestsOk, BufferOk, AccountsOk, MetaTargets, Keyed;
    var heads, pending, maxKnown := RebuildLines(seqs, log);
    var accounts := RebuildAccounts(balances, byTime, now, log);
    var origins := RebuildOrigins(byTime, log);
    var cache := RebuildCache(byTime);
    NewestKeyed(cache, CacheWindow(byTime));
    var digests, buffer := RebuildDigests(byLine, heads, pending, log);
    var deleted := RebuildTombstones(metaEvents);
    TombstonesRebuilt(log, metaEvents);
    found := Rebuilt(heads, pending, maxKnown, origins, digests, buffer, accounts, cache, deleted);
  }
}
