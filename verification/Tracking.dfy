/** What one replica's idempotency cache knows about its own log, and why every
    mint, delivery and deletion keeps it that way. */
module Tracking {
  import opened Types
  import opened Ledger
  import opened ReplicaModel
  import Allocator

  /** Keys a node watches: those whose cache entry is only ever installed after
      a conflict check, and further ones in `extra` it has installed first. */
  predicate Watched(key: IdemKey, extra: set<IdemKey>) {
    !IsUncheckedNonce(key.nonce) || key in extra
  }

  /** Every cache entry is an applied event of its key. */
  ghost predicate CacheSound(log: Log, cache: map<IdemKey, Event>) {
    forall key :: key in cache ==> cache[key] in Matching(log, key)
  }

  /** For a watched key with applied events, the cache holds the least of them. */
  ghost predicate CacheLeast(log: Log, cache: map<IdemKey, Event>, extra: set<IdemKey>) {
    forall key :: Watched(key, extra) && Matching(log, key) != {} ==>
      key in cache && IsLeast(Matching(log, key), cache[key])
  }

  ghost predicate IsVoided(log: Log, e: Event) {
    Matching(log, VoidKey(e)) != {}
  }

  /** `e` has a watched key and lost to an applied event of that key. */
  ghost predicate Lost(log: Log, e: Event, extra: set<IdemKey>) {
    Watched(e.Idem(), extra) && !IsLeast(Matching(log, e.Idem()), e)
  }

  /** Every applied duplicate that lost has an applied void, apart from `pending`. */
  ghost predicate LosersVoided(log: Log, pending: set<Event>, extra: set<IdemKey>) {
    forall k :: k in log && log[k] !in pending && Lost(log, log[k], extra) ==> IsVoided(log, log[k])
  }

  ghost predicate Knows(r: Replica, pending: set<Event>, extra: set<IdemKey>) {
    && Valid(r)
    && CacheSound(r.applied, r.cache)
    && CacheLeast(r.applied, r.cache, extra)
    && LosersVoided(r.applied, pending, extra)
  }

  lemma MatchingWith(log: Log, e: Event, key: IdemKey)
    requires e.Key() !in log
    ensures Matching(With(log, e), key) == Matching(log, key) + (if e.Idem() == key then {e} else {})
  {
    var log' := With(log, e);
    assert log'[e.Key()] == e;
    forall x | x in Matching(log, key)
      ensures x in Matching(log', key)
    {
      var k :| k in log && log[k] == x;
      assert k in log' && log'[k] == x;
    }
  }

  lemma MatchingDrop(log: Log, bucket: string, key: IdemKey)
    requires WellFormed(log)
    ensures Matching(DropBucket(log, bucket), key) == if key.bucket == bucket then {} else Matching(log, key)
  {
    var log' := DropBucket(log, bucket);
    if key.bucket != bucket {
      forall x | x in Matching(log, key)
        ensures x in Matching(log', key)
      {
        var k :| k in log && log[k] == x;
        assert log[k].Key() == k;
        assert k in log' && log'[k] == x;
      }
    }
  }

  // ---- Adding one event ----

  lemma SoundWith(log: Log, cache: map<IdemKey, Event>, e: Event, entry: Event)
    requires CacheSound(log, cache) && e.Key() !in log
    requires entry == e || entry in Matching(log, e.Idem())
    ensures CacheSound(With(log, e), cache[e.Idem() := entry])
  {
    forall key | key in cache[e.Idem() := entry]
      ensures cache[e.Idem() := entry][key] in Matching(With(log, e), key)
    {
      MatchingWith(log, e, key);
    }
  }

  lemma LeastWith(log: Log, cache: map<IdemKey, Event>, e: Event, entry: Event, extra: set<IdemKey>)
    requires CacheLeast(log, cache, extra) && e.Key() !in log
    requires Watched(e.Idem(), extra) ==> IsLeast(Matching(With(log, e), e.Idem()), entry)
    ensures CacheLeast(With(log, e), cache[e.Idem() := entry], extra)
  {
    forall key | Watched(key, extra) && Matching(With(log, e), key) != {}
      ensures key in cache[e.Idem() := entry] && IsLeast(Matching(With(log, e), key), cache[e.Idem() := entry][key])
    {
      MatchingWith(log, e, key);
    }
  }

  lemma LostWith(log: Log, e: Event, x: Event, extra: set<IdemKey>)
    requires e.Key() !in log && x.Idem() != e.Idem() && Lost(With(log, e), x, extra)
    ensures Lost(log, x, extra)
  {
    MatchingWith(log, e, x.Idem());
  }

  lemma VoidedWith(log: Log, e: Event, x: Event)
    requires e.Key() !in log
    ensures IsVoided(With(log, e), x) <==> IsVoided(log, x) || e.Idem() == VoidKey(x)
  {
    MatchingWith(log, e, VoidKey(x));
  }

  /** Voids survive, and only the added event's own key can gain a loser. */
  lemma VoidsWith(log: Log, e: Event, pending: set<Event>, pending': set<Event>, extra: set<IdemKey>)
    requires WellFormed(log) && LosersVoided(log, pending, extra) && e.Key() !in log
    requires forall x :: x in pending ==> x in pending' || e.Idem() == VoidKey(x)
    requires forall x :: x in Matching(With(log, e), e.Idem()) && x !in pending' && Lost(With(log, e), x, extra) ==> IsVoided(log, x)
    ensures LosersVoided(With(log, e), pending', extra)
  {
    var log' := With(log, e);
    forall k | k in log' && log'[k] !in pending' && Lost(log', log'[k], extra)
      ensures IsVoided(log', log'[k])
    {
      var x := log'[k];
      VoidedWith(log, e, x);
      if x.Idem() == e.Idem() {
        assert x in Matching(log', e.Idem());
      } else {
        LostWith(log, e, x, extra);
      }
    }
  }

  /** Adding the first event of a checked key, or any event of an unchecked
      one, while pointing the cache at it. */
  lemma InstallKnows(log: Log, cache: map<IdemKey, Event>, e: Event, pending: set<Event>, pending': set<Event>,
                     extra: set<IdemKey>)
    requires WellFormed(log) && CacheSound(log, cache) && CacheLeast(log, cache, extra)
    requires LosersVoided(log, pending, extra)
    requires e.Key() !in log
    requires Watched(e.Idem(), extra) ==> Matching(log, e.Idem()) == {}
    requires forall x :: x in pending ==> x in pending' || e.Idem() == VoidKey(x)
    ensures CacheSound(With(log, e), cache[e.Idem() := e])
    ensures CacheLeast(With(log, e), cache[e.Idem() := e], extra)
    ensures LosersVoided(With(log, e), pending', extra)
  {
    MatchingWith(log, e, e.Idem());
    SoundWith(log, cache, e, e);
    LeastWith(log, cache, e, e, extra);
    VoidsWith(log, e, pending, pending', extra);
  }

  lemma MintedKnows(r: Replica, e: Event, pending: set<Event>, pending': set<Event>, extra: set<IdemKey>)
    requires Knows(r, pending, extra) && MintsNext(r, e)
    requires Watched(e.Idem(), extra) ==> Matching(r.applied, e.Idem()) == {}
    requires forall x :: x in pending ==> x in pending' || e.Idem() == VoidKey(x)
    ensures Knows(Minted(r, e), pending', extra)
  {
    MintedValid(r, e);
    InstallKnows(r.applied, r.cache, e, pending, pending', extra);
  }

  // ---- Deletion and persistence ----

  lemma PurgeKnows(r: Replica, bucket: string, extra: set<IdemKey>)
    requires Knows(r, {}, extra) && bucket != META_BUCKET
    ensures Knows(Purge(r, bucket), {}, extra)
  {
    PurgeValid(r, bucket);
    var log', cache' := DropBucket(r.applied, bucket), CacheWithout(r.cache, bucket);
    forall key | key in cache'
      ensures cache'[key] in Matching(log', key)
    {
      MatchingDrop(r.applied, bucket, key);
    }
    forall key | Watched(key, extra) && Matching(log', key) != {}
      ensures key in cache' && IsLeast(Matching(log', key), cache'[key])
    {
      MatchingDrop(r.applied, bucket, key);
    }
    forall k | k in log' && Lost(log', log'[k], extra)
      ensures IsVoided(log', log'[k])
    {
      MatchingDrop(r.applied, bucket, log'[k].Idem());
      MatchingDrop(r.applied, bucket, VoidKey(log'[k]));
    }
  }

  lemma PersistKnows(r: Replica, keys: set<OriginKey>, extra: set<IdemKey>)
    requires Knows(r, {}, extra)
    ensures Knows(Persist(r, keys), {}, extra)
  {
  }

  // ---- Deliveries ----

  /** `q` is `r` without some deleted buckets. */
  ghost predicate Forgets(r: Replica, q: Replica) {
    && q.cfg == r.cfg && r.deleted <= q.deleted
    && (forall k :: k in q.applied ==> k in r.applied && q.applied[k] == r.applied[k])
    && (forall k :: k in r.applied && k !in q.applied ==> k.line.bucket in q.deleted)
  }

  /** The replica a delivery resolves from, as the log before it plus the event. */
  lemma AdmitFrom(r: Replica, e: Event, extra: set<IdemKey>) returns (q: Replica)
    requires Knows(r, {}, extra) && Accepts(r, e) && Deliverable(r, e)
    ensures Knows(q, {}, extra) && Accepts(q, e) && Deliverable(q, e)
    ensures Admit(r, e) == q.(applied := With(q.applied, e))
    ensures Valid(Admit(r, e))
    ensures Forgets(r, q)
    ensures e.MetaTargetBucket().None? ==> q == r
  {
    var target := e.MetaTargetBucket();
    if target.Some? && target.value != META_BUCKET {
      q := Purge(r, target.value);
      PurgeKnows(r, target.value, extra);
      assert NextPair(q, e.bucket) == NextPair(r, e.bucket);
    } else {
      q := r;
    }
    AddValid(q, e);
  }

  /** The cache entry a conflict leaves is the least event of the key. */
  lemma ConflictLeast(log: Log, cache: map<IdemKey, Event>, e: Event, extra: set<IdemKey>)
    requires CacheSound(log, cache) && CacheLeast(log, cache, extra)
    requires e.Key() !in log && IdFresh(log, e.id) && e.Idem() in cache
    ensures var (winner, loser) := IdempotencyWinner(cache[e.Idem()], e);
      && Precedes(winner, loser)
      && winner in Matching(With(log, e), e.Idem()) && loser in Matching(With(log, e), e.Idem())
      && (Watched(e.Idem(), extra) ==> IsLeast(Matching(With(log, e), e.Idem()), winner))
  {
    var known := cache[e.Idem()];
    var (winner, loser) := IdempotencyWinner(known, e);
    assert known in Matching(log, e.Idem());
    assert known.id != e.id;
    MatchingWith(log, e, e.Idem());
    if Watched(e.Idem(), extra) {
      forall x | x in Matching(With(log, e), e.Idem()) && x != winner
        ensures Precedes(winner, x)
      {
        if winner == e && x != known {
          PrecedesTransitive(e, known, x);
        }
      }
    }
  }

  /** Of the conflicting key, only the new loser may lack a void. */
  lemma ConflictVoids(log: Log, cache: map<IdemKey, Event>, e: Event, extra: set<IdemKey>)
    requires WellFormed(log) && CacheSound(log, cache) && CacheLeast(log, cache, extra) && LosersVoided(log, {}, extra)
    requires e.Key() !in log && IdFresh(log, e.id) && e.Idem() in cache
    ensures LosersVoided(With(log, e), {IdempotencyWinner(cache[e.Idem()], e).1}, extra)
  {
    var known := cache[e.Idem()];
    var (winner, loser) := IdempotencyWinner(known, e);
    var log' := With(log, e);
    ConflictLeast(log, cache, e, extra);
    MatchingWith(log, e, e.Idem());
    forall x | x in Matching(log', e.Idem()) && x != loser && Lost(log', x, extra)
      ensures IsVoided(log, x)
    {
      assert x != winner && x != e && x != known;
      assert x in Matching(log, e.Idem());
      OtherLoser(log, known, x, extra);
    }
    VoidsWith(log, e, {}, {loser}, extra);
  }

  lemma OtherLoser(log: Log, least: Event, x: Event, extra: set<IdemKey>)
    requires WellFormed(log) && LosersVoided(log, {}, extra)
    requires x in Matching(log, x.Idem()) && Watched(x.Idem(), extra) && IsLeast(Matching(log, x.Idem()), least)
    requires x != least
    ensures IsVoided(log, x)
  {
    if IsLeast(Matching(log, x.Idem()), x) {
      LeastUnique(Matching(log, x.Idem()), least, x);
    }
    assert Lost(log, x, extra);
  }
}
