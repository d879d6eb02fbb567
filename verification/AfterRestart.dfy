/** What a restarted node does with duplicates: the cache it rebuilt may hold a
    loser, and a duplicate that beats only the loser then goes unnoticed. */
module AfterRestart {
  import opened Types
  import opened Sums
  import opened Ledger
  import opened ReplicaModel
  import opened Emission
  import opened Caches
  import opened Tracking
  import opened Rebuild
  import Allocator

  ghost predicate IsBeaten(log: Log, e: Event) {
    exists x :: x in Matching(log, e.Idem()) && Precedes(x, e)
  }

  /** A newly delivered event of a key the cache knows. */
  ghost predicate Duplicates(r: Replica, e: Event, m: Mint) {
    && Valid(r) && Accepts(r, e) && Deliverable(r, e) && e.MetaTargetBucket().None?
    && e.Idem() in r.cache && r.cache[e.Idem()] in Matching(r.applied, e.Idem())
    && VoidKey(e) !in r.cache && VoidKey(e) != e.Idem() && Matching(r.stored, VoidKey(e)) == {}
    && Matching(r.applied, VoidKey(e)) == {}
    && IdFresh(r.applied, m.first) && m.first != e.id
  }

  /** Some correction voids the event. */
  predicate VoidedBy(corrections: seq<Event>, e: Event) {
    exists v :: v in corrections && v.Idem() == VoidKey(e)
  }

  lemma CachedDiffers(r: Replica, e: Event, m: Mint)
    requires Duplicates(r, e, m)
    ensures r.cache[e.Idem()].id != e.id && r.cache[e.Idem()].Idem() == e.Idem()
    ensures Precedes(e, r.cache[e.Idem()]) <==> !Precedes(r.cache[e.Idem()], e)
  {
    PrecedesTotal(e, r.cache[e.Idem()]);
  }

  /** The duplicate is voided exactly when the cached event precedes it. */
  lemma VoidedIff(r: Replica, e: Event, m: Mint)
    requires Duplicates(r, e, m)
    ensures VoidedBy(Receive(r, e, m).1, e) <==> Precedes(r.cache[e.Idem()], e)
  {
    CachedDiffers(r, e, m);
    var cached := r.cache[e.Idem()];
    var a := r.(applied := With(r.applied, e));
    assert Admit(r, e) == a;
    LexTotal(cached.id, e.id);
    hide Valid, Matching, LexLess, IdFresh, WellFormed, Admit, Accepts, Deliverable, Minted;
    var (winner, loser) := IdempotencyWinner(cached, e);
    var corrections := Receive(r, e, m).1;
    if Precedes(cached, e) {
      assert (winner, loser) == (cached, e);
      var r1 := a.(cache := a.cache[e.Idem() := winner]);
      var v := VoidEvent(r1, winner, loser, m.now, m.first);
      assert corrections[0] == v && v.Idem() == VoidKey(e);
    } else {
      assert (winner, loser) == (e, cached);
      NoOtherVoids(e, cached);
      forall v | v in corrections
        ensures v.Idem() == VoidKey(cached) || v.Idem() == ReleaseKey(cached)
      {
      }
    }
  }

  lemma NoOtherVoids(e: Event, cached: Event)
    requires e.id != cached.id
    ensures VoidKey(e) != VoidKey(cached) && VoidKey(e) != ReleaseKey(cached)
  {
    if VoidNonce(e.id) == VoidNonce(cached.id) {
      VoidNonceInjective(e.id, cached.id);
    }
    DerivedNonceClasses(e.id);
    DerivedNonceClasses(cached.id);
  }

  /** So a beaten duplicate survives exactly when it precedes the cached event. */
  lemma SurvivesIff(r: Replica, e: Event, m: Mint)
    requires Duplicates(r, e, m) && IsBeaten(r.applied, e)
    ensures !VoidedBy(Receive(r, e, m).1, e) <==> Precedes(e, r.cache[e.Idem()])
  {
    VoidedIff(r, e, m);
    CachedDiffers(r, e, m);
  }

  /** It cannot happen while the cache holds the winner, as in every run
      without restarts. */
  lemma WinnerCachedNoneSurvives(r: Replica, e: Event, m: Mint)
    requires Duplicates(r, e, m) && IsLeast(Matching(r.applied, e.Idem()), r.cache[e.Idem()])
    ensures IsBeaten(r.applied, e) ==> VoidedBy(Receive(r, e, m).1, e)
  {
    VoidedIff(r, e, m);
    CachedDiffers(r, e, m);
    hide Valid, Matching, Receive;
    var cached := r.cache[e.Idem()];
    if Precedes(e, cached) {
      forall x | x in Matching(r.applied, e.Idem())
        ensures !Precedes(x, e)
      {
        if Precedes(x, e) {
          PrecedesTransitive(x, e, cached);
          PrecedesTotal(x, cached);
        }
      }
    }
  }

  /** A node that caches the duplicate voids it when an earlier event of the key
      arrives. */
  lemma WinnerVoidsCached(r: Replica, e: Event, m: Mint)
    requires Accepts(r, e) && e.MetaTargetBucket().None? && e.Idem() in r.cache
    requires r.cache[e.Idem()].Idem() == e.Idem() && r.cache[e.Idem()].id != e.id && Precedes(e, r.cache[e.Idem()])
    requires VoidKey(r.cache[e.Idem()]) !in r.cache && VoidKey(r.cache[e.Idem()]) != e.Idem()
    requires Matching(r.stored, VoidKey(r.cache[e.Idem()])) == {}
    ensures VoidedBy(Receive(r, e, m).1, r.cache[e.Idem()])
  {
    var cached := r.cache[e.Idem()];
    LexTotal(cached.id, e.id);
    hide Matching, LexLess, Accepts, Minted;
    assert IdempotencyWinner(cached, e) == (e, cached);
    var r1 := r.(applied := With(r.applied, e), cache := r.cache[e.Idem() := e]);
    assert Receive(r, e, m).1[0] == VoidEvent(r1, e, cached, m.now, m.first);
  }

  /** A winner, a voided loser and its void in storage; a restart; then a third
      event of the key, created between the two. */
  ghost predicate Sandwich(w: Event, l: Event, v: Event, d: Event) {
    && w.Idem() == l.Idem() == d.Idem() && IsClientNonce(w.nonce) && v.Idem() == VoidKey(l)
    && w.createdAt < d.createdAt < l.createdAt <= v.createdAt
    && w.kind == l.kind == d.kind == Standard && w.holdAmount == l.holdAmount == d.holdAmount == 0 && v.kind == Void
    && w.seqNo >= 1 && l.seqNo >= 1 && v.seqNo >= 1 && d.seqNo >= 1
    && w.Key() != l.Key() && w.Key() != v.Key() && w.Key() != d.Key() && l.Key() != v.Key() && l.Key() != d.Key() && v.Key() != d.Key()
    && w.id != l.id && w.id != v.id && w.id != d.id && l.id != v.id && l.id != d.id && v.id != d.id
  }

  function Stored(w: Event, l: Event, v: Event): Log {
    With(With(With(map[], w), l), v)
  }

  /** The rebuilt cache has the loser, and the duplicate takes its place
      without any correction: at this node the account is charged for the
      winner and the duplicate both. */
  lemma DuplicateSurvivesRestart(cfg: Config, rows: map<string, Allocator.Row>, cache: map<IdemKey, Event>, w: Event,
                                 l: Event,
                                 v: Event, d: Event, m: Mint)
    requires Sandwich(w, l, v, d) && CachesNewest(cache, CacheWindow([w, l, v]))
    ensures SortedByTime([w, l, v]) && Lists(Stored(w, l, v), [w, l, v])
    ensures var r := Restarted(cfg, Stored(w, l, v), rows, cache);
      && Receive(r, d, m).1 == [] && Receive(r, d, m).0.applied == With(r.applied, d)
      && Balance(Receive(r, d, m).0.applied, w.Owner()) == w.amount + d.amount
  {
    var r := Restarted(cfg, Stored(w, l, v), rows, cache);
    SandwichCached(cache, w, l, v, d);
    SandwichLog(w, l, v, d);
    hide CachesNewest, CacheWindow, Lists;
    SandwichTaken(r, w, l, v, d, m);
    SandwichBooks(w, l, v, d);
  }

  lemma SandwichCached(cache: map<IdemKey, Event>, w: Event, l: Event, v: Event, d: Event)
    requires Sandwich(w, l, v, d) && CachesNewest(cache, CacheWindow([w, l, v]))
    ensures l.Idem() in cache && cache[l.Idem()] == l && v.Idem() in cache
  {
    var events := [w, l, v];
    DerivedNonceClasses(l.id);
    assert v.Idem() != l.Idem();
    assert events[1] == l && events[2] == v;
    hide CachesNewest, CacheWindow;
    assert LastOfKey(events, 1) && LastOfKey(events, 2);
    RestartCaches(events, cache, 1);
    RestartCaches(events, cache, 2);
  }

  lemma SandwichLog(w: Event, l: Event, v: Event, d: Event)
    requires Sandwich(w, l, v, d)
    ensures SortedByTime([w, l, v]) && Lists(Stored(w, l, v), [w, l, v])
    ensures d.Key() !in Stored(w, l, v) && MetaTargets(Stored(w, l, v)) == {}
  {
    assert w.MetaTargetBucket().None? && l.MetaTargetBucket().None? && v.MetaTargetBucket().None?;
    ThreeListed(w, l, v);
    assert forall k :: k in Stored(w, l, v) <==> k == w.Key() || k == l.Key() || k == v.Key();
    hide Event.Key, Lists;
  }

  lemma ThreeListed(w: Event, l: Event, v: Event)
    requires w.Key() != l.Key() && w.Key() != v.Key() && l.Key() != v.Key()
    ensures Lists(Stored(w, l, v), [w, l, v])
  {
    var list, log := [w, l, v], Stored(w, l, v);
    hide Event.Key;
    assert list[0] == w && list[1] == l && list[2] == v;
    forall k | k in log
      ensures exists i :: 0 <= i < |list| && list[i].Key() == k
    {
      if k == v.Key() { assert list[2].Key() == k; }
      else if k == l.Key() { assert list[1].Key() == k; }
      else { assert list[0].Key() == k; }
    }
  }

  lemma SandwichTaken(r: Replica, w: Event, l: Event, v: Event, d: Event, m: Mint)
    requires Sandwich(w, l, v, d) && r.deleted == {} && d.Key() !in r.applied
    requires l.Idem() in r.cache && r.cache[l.Idem()] == l && v.Idem() in r.cache
    ensures Receive(r, d, m).1 == [] && Receive(r, d, m).0.applied == With(r.applied, d)
  {
    assert IdempotencyWinner(l, d) == (d, l);
  }

  lemma SandwichBooks(w: Event, l: Event, v: Event, d: Event)
    requires Sandwich(w, l, v, d)
    ensures Balance(With(Stored(w, l, v), d), w.Owner()) == w.amount + d.amount
  {
    var owner := w.Owner();
    var log0: Log := map[];
    assert EventsOf(log0, owner) == {};
    hide EventsOf;
    WithWellFormed(log0, w);
    WithWellFormed(With(log0, w), l);
    WithWellFormed(With(With(log0, w), l), v);
    BalanceWith(log0, w, owner);
    BalanceWith(With(log0, w), l, owner);
    BalanceWith(With(With(log0, w), l), v, owner);
    BalanceWith(Stored(w, l, v), d, owner);
  }
}
