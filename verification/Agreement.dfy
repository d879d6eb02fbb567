/** Everything a node caches is determined by its applied log, and the log a
    node ends with by the set of deliveries: neither the order of arrival, nor
    a bucket delete's place in it, nor a restart can be told from the result. */
module Agreement {
  import opened Types
  import opened Sums
  import opened Ledger
  import opened ReplicaModel
  import opened Caches
  import opened Emission

  // ---- Caches are functions of the log ----

  lemma LineDetermined(seqs: set<nat>, head: nat, pending: set<nat>, head': nat, pending': set<nat>)
    requires LineOk(seqs, head, pending) && LineOk(seqs, head', pending')
    ensures head == head' && pending == pending'
  {
  }

  /** Two nodes, or one node and its restart, that hold the same log agree on
      heads, pending seqs, highest known seqs, contributing lines and digests. */
  lemma LineCachesDetermined(log: Log, line: EpochKey,
      heads: map<EpochKey, nat>, pending: map<EpochKey, set<nat>>, maxKnown: map<EpochKey, nat>, digests: map<EpochKey, (nat, Digest)>,
      heads': map<EpochKey, nat>, pending': map<EpochKey, set<nat>>, maxKnown': map<EpochKey, nat>, digests': map<EpochKey, (nat, Digest)>)
    requires LinesOk(log, heads, pending) && LinesOk(log, heads', pending')
    requires MaxKnownOk(log, maxKnown) && MaxKnownOk(log, maxKnown')
    requires DigestsOk(log, heads, digests) && DigestsOk(log, heads', digests')
    ensures (line in heads <==> line in heads') && HeadAt(heads, line) == HeadAt(heads', line)
    ensures PendingAt(pending, line) == PendingAt(pending', line)
    ensures (line in maxKnown <==> line in maxKnown') && MaxAt(maxKnown, line) == MaxAt(maxKnown', line)
    ensures HeadAt(heads, line) > 0 ==> line in digests && line in digests' && digests[line] == digests'[line]
  {
    assert LineOk(SeqsOf(log, line), HeadAt(heads, line), PendingAt(pending, line));
    assert LineOk(SeqsOf(log, line), HeadAt(heads', line), PendingAt(pending', line));
    LineDetermined(SeqsOf(log, line), HeadAt(heads, line), PendingAt(pending, line), HeadAt(heads', line), PendingAt(pending', line));
    assert line in heads <==> SeqsOf(log, line) != {};
    assert line in heads' <==> SeqsOf(log, line) != {};
    assert MaxOk(SeqsOf(log, line), line in maxKnown, MaxAt(maxKnown, line));
    assert MaxOk(SeqsOf(log, line), line in maxKnown', MaxAt(maxKnown', line));
    assert DigestOk(log, line, HeadAt(heads, line), line in digests, DigestAt(digests, line));
    assert DigestOk(log, line, HeadAt(heads', line), line in digests', DigestAt(digests', line));
  }

  /** ... on balances, and from the later of their sweeps on, on active holds
      and available balances. */
  lemma AccountsDetermined(log: Log, owner: BalanceKey, accounts: map<BalanceKey, AccountState>, clock: nat,
                           accounts': map<BalanceKey, AccountState>, clock': nat, now: nat,
                           issued: set<Event>, issued': set<Event>)
    requires WellFormed(log) && AccountsOk(log, accounts, clock, issued) && AccountsOk(log, accounts', clock', issued')
    requires clock <= now && clock' <= now
    ensures AccountAt(accounts, owner).balance == AccountAt(accounts', owner).balance
    ensures AccountAt(accounts, owner).Active(now) == AccountAt(accounts', owner).Active(now)
  {
  }

  /** The buffer forgets durable, folded events, so it is determined by the
      log together with the queue of events not yet stored. */
  lemma BufferDetermined(log: Log, heads: map<EpochKey, nat>, unpersisted: map<OriginKey, nat>, buffer: Log,
                         buffer': Log)
    requires BufferOk(log, heads, unpersisted, buffer) && BufferOk(log, heads, unpersisted, buffer')
    ensures buffer == buffer'
  {
  }

  /** A restart, or any replay, never applies a stored event twice. */
  lemma ReplayIsRejected(r: Replica, e: Event, m: Mint)
    requires Valid(r) && e.Key() in r.stored
    ensures !Accepts(r, e) && Receive(r, e, m) == (r, [])
  {
  }

  // ---- Delivery order ----

  /** Deliver a sequence of events, leaving corrections aside. */
  function AdmitAll(r: Replica, events: seq<Event>): Replica
    decreases |events|
  {
    if events == [] then r
    else
      var before := AdmitAll(r, events[..|events| - 1]);
      var e := events[|events| - 1];
      if Accepts(before, e) then Admit(before, e) else before
  }

  /** Buckets the delivered meta events delete. */
  ghost function TargetsIn(events: seq<Event>): set<string> {
    set i | 0 <= i < |events| && events[i].MetaTargetBucket().Some? && events[i].MetaTargetBucket().value != META_BUCKET
      :: events[i].MetaTargetBucket().value
  }

  /** One event per key, seqs positive: what honest nodes mint. */
  ghost predicate Consistent(r: Replica, events: seq<Event>) {
    && (forall i :: 0 <= i < |events| ==> events[i].seqNo >= 1)
    && (forall i, j :: 0 <= i < j < |events| && events[i].Key() == events[j].Key() ==> events[i] == events[j])
    && (forall i :: 0 <= i < |events| && events[i].Key() in r.applied ==> r.applied[events[i].Key()] == events[i])
  }

  ghost predicate Delivered(r: Replica, events: seq<Event>, k: OriginKey) {
    k in r.applied || exists i :: 0 <= i < |events| && events[i].Key() == k
  }

  /** What a node ends with: everything delivered, but for deleted buckets. */
  ghost predicate Outcome(r: Replica, events: seq<Event>, r': Replica) {
    && r'.deleted == r.deleted + TargetsIn(events)
    && (forall k :: k in r'.applied <==> Delivered(r, events, k) && k.line.bucket !in r'.deleted)
    && (forall k :: k in r'.applied && k in r.applied ==> r'.applied[k] == r.applied[k])
    && (forall i :: 0 <= i < |events| && events[i].Key() in r'.applied ==> r'.applied[events[i].Key()] == events[i])
  }

  ghost predicate Clean(r: Replica) {
    && META_BUCKET !in r.deleted && Tombstones(r.applied) <= r.deleted
    && forall k :: k in r.applied ==> k.line.bucket !in r.deleted && r.applied[k].Key() == k
  }

  lemma TargetsSnoc(events: seq<Event>, e: Event)
    ensures TargetsIn(events + [e]) == TargetsIn(events)
      + (if e.MetaTargetBucket().Some? && e.MetaTargetBucket().value != META_BUCKET then {e.MetaTargetBucket().value} else {})
  {
    var all := events + [e];
    assert all[|events|] == e;
    forall b | b in TargetsIn(events)
      ensures b in TargetsIn(all)
    {
      var i :| 0 <= i < |events| && events[i].MetaTargetBucket() == Some(b);
      assert all[i].MetaTargetBucket() == Some(b);
    }
    forall b | b in TargetsIn(all)
      ensures b in TargetsIn(events) || e.MetaTargetBucket() == Some(b)
    {
      var i :| 0 <= i < |all| && all[i].MetaTargetBucket() == Some(b);
      assert i < |events| ==> events[i].MetaTargetBucket() == Some(b);
    }
  }

  lemma DeliveredSnoc(r: Replica, events: seq<Event>, e: Event, k: OriginKey)
    ensures Delivered(r, events + [e], k) <==> Delivered(r, events, k) || e.Key() == k
  {
    var all := events + [e];
    assert all[|events|] == e;
    if Delivered(r, events, k) && k !in r.applied {
      var i :| 0 <= i < |events| && events[i].Key() == k;
      assert all[i].Key() == k;
    }
  }

  /** One more delivery, in any state. */
  lemma OutcomeStep(r: Replica, events: seq<Event>, e: Event, r1: Replica)
    requires Clean(r) && Consistent(r, events + [e]) && Outcome(r, events, r1)
    ensures Outcome(r, events + [e], if Accepts(r1, e) then Admit(r1, e) else r1)
  {
    hide Delivered, TargetsIn, Consistent, Clean, Admit, Accepts;
    StepDeleted(r, events, e, r1);
    StepValues(r, events, e, r1);
    var r2 := if Accepts(r1, e) then Admit(r1, e) else r1;
    forall k
      ensures k in r2.applied <==> Delivered(r, events + [e], k) && k.line.bucket !in r2.deleted
    {
      StepKeys(r, events, e, r1, k);
    }
  }

  lemma AdmittedKeys(r: Replica, e: Event, k: OriginKey)
    requires Accepts(r, e) && (k in r.applied ==> k.line.bucket !in r.deleted)
    ensures k in Admit(r, e).applied <==> (k in r.applied || k == e.Key()) && k.line.bucket !in Admit(r, e).deleted
    ensures r.deleted <= Admit(r, e).deleted
  {
  }

  lemma StepKeys(r: Replica, events: seq<Event>, e: Event, r1: Replica, k: OriginKey)
    requires Clean(r) && Consistent(r, events + [e]) && Outcome(r, events, r1)
    ensures var r2 := if Accepts(r1, e) then Admit(r1, e) else r1;
      k in r2.applied <==> Delivered(r, events + [e], k) && k.line.bucket !in r2.deleted
  {
    DeliveredSnoc(r, events, e, k);
    PositiveLast(r, events, e);
    assert k in r1.applied <==> Delivered(r, events, k) && k.line.bucket !in r1.deleted;
    if Accepts(r1, e) {
      AdmittedKeys(r1, e, k);
    }
    hide Delivered, TargetsIn, Consistent, Clean, Admit;
  }

  lemma PositiveLast(r: Replica, events: seq<Event>, e: Event)
    requires Consistent(r, events + [e])
    ensures e.seqNo >= 1
  {
    assert (events + [e])[|events|] == e;
  }

  lemma AdmittedValues(r: Replica, e: Event, k: OriginKey)
    requires Accepts(r, e) && k in Admit(r, e).applied
    ensures if k == e.Key() then Admit(r, e).applied[k] == e else k in r.applied && Admit(r, e).applied[k] == r.applied[k]
  {
  }

  lemma StepValues(r: Replica, events: seq<Event>, e: Event, r1: Replica)
    requires Consistent(r, events + [e]) && Outcome(r, events, r1)
    ensures var r2 := if Accepts(r1, e) then Admit(r1, e) else r1;
      && (forall k :: k in r2.applied && k in r.applied ==> r2.applied[k] == r.applied[k])
      && (forall i :: 0 <= i < |events + [e]| && (events + [e])[i].Key() in r2.applied ==>
            r2.applied[(events + [e])[i].Key()] == (events + [e])[i])
  {
    var all := events + [e];
    var r2 := if Accepts(r1, e) then Admit(r1, e) else r1;
    assert all[|events|] == e;
    assert forall i :: 0 <= i < |events| ==> all[i] == events[i];
    if Accepts(r1, e) {
      forall k | k in r2.applied
        ensures if k == e.Key() then r2.applied[k] == e else k in r1.applied && r2.applied[k] == r1.applied[k]
      {
        AdmittedValues(r1, e, k);
      }
    } else {
      Refused(r, events, e, r1);
    }
    hide Admit, Accepts, TargetsIn, Delivered;
  }

  /** A refused event whose key is in the log is the event the log has. */
  lemma Refused(r: Replica, events: seq<Event>, e: Event, r1: Replica)
    requires Consistent(r, events + [e]) && Outcome(r, events, r1)
    ensures e.Key() in r1.applied ==> r1.applied[e.Key()] == e
  {
    var all := events + [e];
    assert all[|events|] == e;
    if e.Key() in r1.applied && e.Key() !in r.applied {
      assert Delivered(r, events, e.Key());
      var i :| 0 <= i < |events| && events[i].Key() == e.Key();
      assert all[i] == events[i];
    }
  }

  /** A refused event is a duplicate or belongs to a deleted bucket; if it is
      itself a delete, its bucket was already deleted. */
  lemma StepDeleted(r: Replica, events: seq<Event>, e: Event, r1: Replica)
    requires Clean(r) && Consistent(r, events + [e]) && Outcome(r, events, r1)
    ensures (if Accepts(r1, e) then Admit(r1, e) else r1).deleted == r.deleted + TargetsIn(events + [e])
  {
    var all := events + [e];
    assert all[|events|] == e && e.seqNo >= 1;
    TargetsSnoc(events, e);
    var target := e.MetaTargetBucket();
    if !Accepts(r1, e) && target.Some? && target.value != META_BUCKET {
      assert e.Key() in r1.applied && Delivered(r, events, e.Key());
      if e.Key() in r.applied {
        assert r.applied[e.Key()] == e;
        assert target.value in Tombstones(r.applied);
      } else {
        var i :| 0 <= i < |events| && events[i].Key() == e.Key();
        assert all[i] == e;
        assert target.value in TargetsIn(events);
      }
    }
  }

  lemma ConsistentPrefix(r: Replica, events: seq<Event>)
    requires events != [] && Consistent(r, events)
    ensures Consistent(r, events[..|events| - 1])
  {
  }

  /** After any deliveries the log is what was delivered, less the deleted buckets. */
  lemma {:induction false} DeliveriesDecide(r: Replica, events: seq<Event>)
    requires Clean(r) && Consistent(r, events)
    ensures Outcome(r, events, AdmitAll(r, events))
    decreases |events|
  {
    if events == [] {
      assert TargetsIn(events) == {};
      assert r.deleted + TargetsIn(events) == r.deleted;
    } else {
      var before := events[..|events| - 1];
      ConsistentPrefix(r, events);
      DeliveriesDecide(r, before);
      assert before + [events[|events| - 1]] == events;
      OutcomeStep(r, before, events[|events| - 1], AdmitAll(r, before));
    }
  }

  /** Two nodes that start alike and get the same events, in any order and with
      any repetitions, end with the same log and the same tombstones; in
      particular a bucket delete wins wherever it arrives. */
  lemma DeliveryOrderIsIrrelevant(r: Replica, events: seq<Event>, events': seq<Event>)
    requires Clean(r) && Consistent(r, events) && Consistent(r, events')
    requires forall e: Event :: e in events <==> e in events'
    ensures AdmitAll(r, events).applied == AdmitAll(r, events').applied
    ensures AdmitAll(r, events).deleted == AdmitAll(r, events').deleted
  {
    hide AdmitAll, TargetsIn, Outcome, Consistent, Clean;
    var a, b := AdmitAll(r, events), AdmitAll(r, events');
    DeliveriesDecide(r, events);
    DeliveriesDecide(r, events');
    SameTargets(events, events');
    SameTargets(events', events);
    SameDeleted(r, events, events', a, b);
    LogIncluded(r, events, events', a, b);
    LogIncluded(r, events', events, b, a);
    assert a.applied.Keys == b.applied.Keys;
  }

  lemma LogIncluded(r: Replica, events: seq<Event>, events': seq<Event>, a: Replica, b: Replica)
    requires Outcome(r, events, a) && Outcome(r, events', b) && a.deleted == b.deleted
    requires forall e: Event :: e in events ==> e in events'
    ensures forall k :: k in a.applied ==> k in b.applied && a.applied[k] == b.applied[k]
  {
    forall k | k in a.applied
      ensures k in b.applied && a.applied[k] == b.applied[k]
    {
      SameOutcome(r, events, events', a, b, k);
    }
  }

  lemma SameDeleted(r: Replica, events: seq<Event>, events': seq<Event>, a: Replica, b: Replica)
    requires Outcome(r, events, a) && Outcome(r, events', b)
    requires TargetsIn(events) <= TargetsIn(events') && TargetsIn(events') <= TargetsIn(events)
    ensures a.deleted == b.deleted
  {
  }

  lemma SameOutcome(r: Replica, events: seq<Event>, events': seq<Event>, a: Replica, b: Replica, k: OriginKey)
    requires Outcome(r, events, a) && Outcome(r, events', b) && a.deleted == b.deleted
    requires forall e: Event :: e in events ==> e in events'
    ensures k in a.applied ==> k in b.applied && a.applied[k] == b.applied[k]
  {
    SameDelivered(r, events, events', k);
    hide Delivered, TargetsIn;
    assert k in a.applied <==> Delivered(r, events, k) && k.line.bucket !in a.deleted;
    assert k in b.applied <==> Delivered(r, events', k) && k.line.bucket !in b.deleted;
  }

  lemma SameTargets(events: seq<Event>, events': seq<Event>)
    requires forall e: Event :: e in events ==> e in events'
    ensures TargetsIn(events) <= TargetsIn(events')
  {
    forall b | b in TargetsIn(events)
      ensures b in TargetsIn(events')
    {
      var i :| 0 <= i < |events| && events[i].MetaTargetBucket() == Some(b) && b != META_BUCKET;
      assert events[i] in events';
      var j :| 0 <= j < |events'| && events'[j] == events[i];
      assert events'[j].MetaTargetBucket() == Some(b);
    }
  }

  lemma SameDelivered(r: Replica, events: seq<Event>, events': seq<Event>, k: OriginKey)
    requires forall e: Event :: e in events ==> e in events'
    ensures Delivered(r, events, k) ==> Delivered(r, events', k)
    ensures Delivered(r, events, k) && k !in r.applied ==>
      exists i, j :: 0 <= i < |events| && 0 <= j < |events'| && events[i].Key() == k && events'[j] == events[i]
  {
    if Delivered(r, events, k) && k !in r.applied {
      var i :| 0 <= i < |events| && events[i].Key() == k;
      assert events[i] in events';
      var j :| 0 <= j < |events'| && events'[j] == events[i];
      assert events'[j].Key() == k;
    }
  }
}
