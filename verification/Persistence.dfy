/** The three actors that move events to storage and the two that read them
    back: the batch writer, the orphan detector, the range server, the event
    listing and the acknowledgement handler. */
module Persistence {
  import opened Types
  import opened Ledger
  import opened ReplicaModel
  import opened Sorting
  import Allocator
  import NodeState
  import Rebuild
  import Storage

  function KeysOf(events: seq<Event>): seq<OriginKey> {
    seq(|events|, i requires 0 <= i < |events| => events[i].Key())
  }

  /** A batch of events that were applied once; their buckets may be deleted since. */
  ghost predicate AppliedOnce(r: Replica, batch: seq<Event>) {
    && (forall i :: 0 <= i < |batch| ==> batch[i].bucket in r.deleted || Holds(r, batch[i]))
    && (forall i :: 0 <= i < |batch| ==> IdFresh(r.applied, batch[i].id) || batch[i].Key() in r.applied)
    && (forall i, j :: 0 <= i < j < |batch| && batch[i].id == batch[j].id ==> batch[i] == batch[j])
  }

  ghost predicate AllLive(r: Replica, batch: seq<Event>) {
    forall i :: 0 <= i < |batch| ==> batch[i].bucket !in r.deleted
  }

  /** What a bulk insert with the given fate leaves in storage. */
  ghost function StoredBy(stored: Log, batch: seq<Event>, fate: Allocator.StorageFate): Log {
    if fate == Allocator.LostBefore then stored else Storage.KeptAll(stored, batch)
  }

  /** What it leaves queued: only a successful call is followed by the persisted callback. */
  ghost function QueuedAfter(queued: set<OriginKey>, batch: seq<Event>, fate: Allocator.StorageFate): set<OriginKey> {
    if fate == Allocator.Done then queued - Storage.KeySet(batch) else queued
  }

  /** A bulk insert with its fate. A valid state stays valid exactly when the
      call is lost or no event of the batch is of a bucket deleted since. */
  method StoreAndMark(state: NodeState.SharedState, batch: seq<Event>, fate: Allocator.StorageFate)
    requires state.storage.Valid()
    modifies state`unpersisted, state`eventBuffer, state.storage`events, state.storage`eventIds
    ensures state.storage.Valid() && state.View() == old(state.View()).(stored := state.storage.events)
    ensures state.storage.events == StoredBy(old(state.storage.events), batch, fate)
    ensures state.unpersisted.Keys == QueuedAfter(old(state.unpersisted.Keys), batch, fate)
    ensures old(state.Valid()) && Storage.BatchOf(state.applied, batch) ==> state.Valid() && (fate != Allocator.LostBefore ==>
      state.storage.events.Keys == old(state.storage.events.Keys) + Storage.KeySet(batch))
    ensures old(state.Valid()) && AppliedOnce(old(state.View()), batch) ==>
      (state.Valid() <==> (fate == Allocator.LostBefore || AllLive(old(state.View()), batch)))
  {
    hide NodeState.SharedState.Valid, AppliedOnce, AllLive, Storage.BatchOf, Storage.KeySet, Storage.KeptAll,
         StoredAgrees;
    if old(state.Valid()) && AppliedOnce(state.View(), batch) {
      LateBatch(state, batch);
    }
    if fate == Allocator.LostBefore { return; }
    state.StoreBatch(batch);
    StaleIsInvalid(state);
    if fate == Allocator.LostAfter { return; }
    var keys := KeysOf(batch);
    MarkableKeys(state, batch);
    state.MarkPersisted(keys);
    StaleIsInvalid(state);
  }

  /** Events of live buckets are still there; others make storage disagree. */
  lemma LateBatch(state: NodeState.SharedState, batch: seq<Event>)
    requires state.Valid() && AppliedOnce(state.View(), batch)
    ensures AllLive(state.View(), batch) ==> Storage.BatchOf(state.applied, batch)
    ensures !AllLive(state.View(), batch) ==> !StoredAgrees(Storage.KeptAll(state.storage.events, batch), state.applied)
  {
    state.AtRest();
    hide NodeState.SharedState.Valid, ReplicaModel.Valid;
    LateFlushIsCleanIff(state.View(), batch);
  }

  lemma StaleIsInvalid(state: NodeState.SharedState)
    ensures !StoredAgrees(state.storage.events, state.applied) ==> !state.Valid()
  {
  }

  lemma MarkableKeys(state: NodeState.SharedState, batch: seq<Event>)
    ensures Storage.KeySet(batch) <= state.storage.events.Keys ==>
      forall i :: 0 <= i < |KeysOf(batch)| ==> KeysOf(batch)[i] in state.storage.events
    ensures (set i | 0 <= i < |KeysOf(batch)| :: KeysOf(batch)[i]) == Storage.KeySet(batch)
  {
    forall i | 0 <= i < |KeysOf(batch)|
      ensures KeysOf(batch)[i] in Storage.KeySet(batch)
    {
      assert batch[i].Key() == KeysOf(batch)[i];
    }
    forall k | k in Storage.KeySet(batch)
      ensures k in set i | 0 <= i < |KeysOf(batch)| :: KeysOf(batch)[i]
    {
      var i :| 0 <= i < |batch| && batch[i].Key() == k;
      assert KeysOf(batch)[i] == k;
    }
  }

  /** `BatchWriter`: accumulate events from the channel, flush by size or time. */
  class BatchWriter {
    const state: NodeState.SharedState
    const flushSize: nat
    var buffer: seq<Event>

    constructor (state: NodeState.SharedState, flushSize: nat)
      ensures this.state == state && this.flushSize == flushSize && buffer == []
    {
      this.state := state;
      this.flushSize := flushSize;
      buffer := [];
    }

    /** `do_flush`: the buffer is taken first, so a failed batch is dropped
        here and left to the orphan detector. */
    method DoFlush(fate: Allocator.StorageFate)
      requires state.storage.Valid()
      modifies this`buffer, state`unpersisted, state`eventBuffer, state.storage`events, state.storage`eventIds
      ensures buffer == [] && state.storage.Valid()
      ensures state.View() == old(state.View()).(stored := state.storage.events)
      ensures state.storage.events == StoredBy(old(state.storage.events), old(buffer), fate)
      ensures state.unpersisted.Keys == QueuedAfter(old(state.unpersisted.Keys), old(buffer), fate)
      ensures fate == Allocator.Done ==> state.unpersisted.Keys == old(state.unpersisted.Keys) - Storage.KeySet(old(buffer))
      ensures fate != Allocator.Done ==> state.unpersisted.Keys == old(state.unpersisted.Keys)
      ensures fate == Allocator.LostBefore ==> state.storage.events == old(state.storage.events)
      ensures fate != Allocator.LostBefore ==> state.storage.events == Storage.KeptAll(old(state.storage.events), old(buffer))
      ensures old(state.Valid()) && Storage.BatchOf(state.applied, old(buffer)) ==> state.Valid() && (fate != Allocator.LostBefore ==>
        state.storage.events.Keys == old(state.storage.events.Keys) + Storage.KeySet(old(buffer)))
      ensures old(state.Valid()) && AppliedOnce(old(state.View()), old(buffer)) ==>
        (state.Valid() <==> (fate == Allocator.LostBefore || AllLive(old(state.View()), old(buffer))))
    {
      hide NodeState.SharedState.Valid, AppliedOnce, AllLive, Storage.BatchOf, Storage.KeySet, Storage.KeptAll;
      var events := buffer;
      buffer := [];
      StoreAndMark(state, events, fate);
    }

    /** One event received from the channel: it waits in the buffer, or fills
        it up, and then the whole buffer is flushed. */
    method Receive(fate: Allocator.StorageFate)
      requires state.storage.Valid() && state.batchTx != []
      modifies this`buffer, state`batchTx, state`unpersisted, state`eventBuffer, state.storage`events, state.storage`eventIds
      ensures state.storage.Valid() && state.View() == old(state.View()).(stored := state.storage.events)
      ensures state.batchTx == old(state.batchTx)[1..]
      ensures |old(buffer)| + 1 < flushSize ==>
        && buffer == old(buffer) + [old(state.batchTx)[0]] && (old(state.Valid()) ==> state.Valid())
        && state.unpersisted == old(state.unpersisted) && state.storage.events == old(state.storage.events)
      ensures |old(buffer)| + 1 >= flushSize ==>
        && buffer == []
        && state.storage.events == StoredBy(old(state.storage.events), old(buffer) + [old(state.batchTx)[0]], fate)
        && state.unpersisted.Keys == QueuedAfter(old(state.unpersisted.Keys), old(buffer) + [old(state.batchTx)[0]], fate)
        && (old(state.Valid()) && AppliedOnce(old(state.View()), old(buffer) + [old(state.batchTx)[0]]) ==>
              (state.Valid() <==>
                (fate == Allocator.LostBefore || AllLive(old(state.View()), old(buffer) + [old(state.batchTx)[0]]))))
    {
      hide NodeState.SharedState.Valid, AppliedOnce, AllLive, StoredBy, QueuedAfter, Storage.BatchOf, Storage.KeySet;
      var e := state.TakeQueued();
      buffer := buffer + [e];
      if |buffer| >= flushSize {
        DoFlush(fate);
      }
    }

    /** A tick of the flush timer. */
    method Tick(fate: Allocator.StorageFate)
      requires state.storage.Valid()
      modifies this`buffer, state`unpersisted, state`eventBuffer, state.storage`events, state.storage`eventIds
      ensures buffer == [] && state.storage.Valid()
      ensures state.View() == old(state.View()).(stored := state.storage.events)
      ensures state.storage.events == StoredBy(old(state.storage.events), old(buffer), fate)
      ensures state.unpersisted.Keys == QueuedAfter(old(state.unpersisted.Keys), old(buffer), fate)
      ensures old(state.Valid()) && AppliedOnce(old(state.View()), old(buffer)) ==>
        (state.Valid() <==> (fate == Allocator.LostBefore || AllLive(old(state.View()), old(buffer))))
    {
      if buffer != [] {
        hide NodeState.SharedState.Valid, AppliedOnce, AllLive, StoredBy, QueuedAfter, Storage.BatchOf, Storage.KeySet;
        DoFlush(fate);
      } else {
        assert Storage.KeySet(buffer) == {};
        assert AllLive(state.View(), buffer);
        hide NodeState.SharedState.Valid, AppliedOnce, AllLive;
      }
    }
  }

  /** One pass of `OrphanDetector::run`: whatever was queued long enough ago is
      stored again, so no lost batch stays lost. */
  method OrphanPass(state: NodeState.SharedState, now: nat, ageThreshold: nat, fate: Allocator.StorageFate)
    requires state.Valid()
    modifies state`unpersisted, state`eventBuffer, state.storage
    ensures state.Valid() && state.View() == old(state.View()).(stored := state.storage.events)
    ensures fate == Allocator.Done ==> forall k :: k in state.applied && state.applied[k].createdAt <= SaturatingSub(now, ageThreshold) ==>
      k in state.storage.events && k !in state.unpersisted
    ensures old(state.storage.events.Keys) <= state.storage.events.Keys
  {
    hide NodeState.SharedState.Valid, Storage.KeySet, Storage.BatchOf;
    KeySetEmpty();
    var cutoff := SaturatingSub(now, ageThreshold);
    var orphans := state.GetUnpersistedEvents(cutoff);
    QueueTimes(state);
    Readable(state);
    if orphans != [] {
      StoreAndMark(state, orphans, fate);
    }
    if fate == Allocator.Done {
      forall k | k in state.applied && state.applied[k].createdAt <= cutoff
        ensures k in state.storage.events && k !in state.unpersisted
      {
        assert k in old(state.unpersisted) ==> k in Storage.KeySet(orphans);
        assert k !in old(state.unpersisted) ==> k in old(state.storage.events);
      }
    }
  }

  lemma KeySetEmpty()
    ensures Storage.KeySet([]) == {}
  {
  }

  lemma QueueTimes(state: NodeState.SharedState)
    requires state.Valid()
    ensures forall k :: k in state.applied && k !in state.storage.events ==> k in state.unpersisted
    ensures forall k :: k in state.unpersisted ==> k in state.applied && state.unpersisted[k] == state.applied[k].createdAt
  {
  }

  // ---- Late flushes ----

  /** A batch of events that were applied once may meet buckets deleted since.
      Storage keeps agreeing with the log exactly when none of the batch's
      buckets is gone: a late flush writes dead rows back. */
  lemma LateFlushIsCleanIff(r: Replica, batch: seq<Event>)
    requires ReplicaModel.Valid(r) && AppliedOnce(r, batch)
    ensures StoredAgrees(Storage.KeptAll(r.stored, batch), r.applied) <==> AllLive(r, batch)
  {
    if forall i :: 0 <= i < |batch| ==> batch[i].bucket !in r.deleted {
      Storage.KeptAllIsPersist(r.stored, r.applied, batch);
    } else {
      var i :| 0 <= i < |batch| && batch[i].bucket in r.deleted;
      StoredIds(r, batch[i].id);
      DeadIsNotApplied(r, batch[i].Key());
      Storage.StaysStored(r.stored, batch, i);
    }
  }

  lemma StoredIds(r: Replica, id: string)
    requires ReplicaModel.Valid(r)
    ensures IdFresh(r.applied, id) ==> IdFresh(r.stored, id)
  {
  }

  lemma DeadIsNotApplied(r: Replica, k: OriginKey)
    requires ReplicaModel.Valid(r) && k.line.bucket in r.deleted
    ensures k !in r.applied
  {
  }

  // ---- Readers ----

  lemma Readable(state: NodeState.SharedState)
    requires state.Valid()
    ensures state.storage.Valid() && WellFormed(state.applied)
    ensures forall k :: k in state.applied <==> k in state.eventBuffer || k in state.storage.events
    ensures forall k :: k in state.eventBuffer ==> k in state.applied && state.eventBuffer[k] == state.applied[k]
    ensures forall k :: k in state.storage.events ==> k in state.applied && state.storage.events[k] == state.applied[k]
  {
  }

  ghost predicate HasSeq(events: seq<Event>, s: nat) {
    exists e :: e in events && e.seqNo == s
  }

  ghost predicate DistinctSeqs(events: seq<Event>) {
    forall i, j :: 0 <= i < j < |events| ==> events[i].seqNo != events[j].seqNo
  }

  /** Events of the log's range, with no seq twice. */
  ghost predicate PartOfRange(log: Log, line: EpochKey, from: nat, to: nat, events: seq<Event>) {
    && (forall e :: e in events ==> e.Line() == line && from <= e.seqNo <= to && e.Key() in log && log[e.Key()] == e)
    && DistinctSeqs(events)
  }

  /** The events of `more` whose seqs `events` lacks, behind it. */
  method MergeRange(events: seq<Event>, more: seq<Event>) returns (merged: seq<Event>)
    requires DistinctSeqs(events) && DistinctSeqs(more)
    ensures DistinctSeqs(merged)
    ensures forall e :: e in merged ==> e in events || e in more
    ensures forall e :: e in events || e in more ==> HasSeq(merged, e.seqNo)
  {
    var have := set i | 0 <= i < |events| :: events[i].seqNo;
    forall s | s in have
      ensures exists x :: x in events && x.seqNo == s
    {
      var i :| 0 <= i < |events| && events[i].seqNo == s;
      assert events[i] in events;
    }
    merged := events;
    for i := 0 to |more|
      invariant events <= merged && DistinctSeqs(merged)
      invariant forall e :: e in merged ==> e in events || e in more
      invariant forall j :: |events| <= j < |merged| ==> exists k :: 0 <= k < i && merged[j] == more[k]
      invariant forall k :: 0 <= k < i ==> more[k].seqNo in have || more[k] in merged
    {
      if more[i].seqNo !in have {
        forall j | 0 <= j < |merged|
          ensures merged[j].seqNo != more[i].seqNo
        {
          if j < |events| {
            assert merged[j] == events[j];
            assert events[j].seqNo in have;
          }
        }
        merged := merged + [more[i]];
      }
    }
    forall e | e in more
      ensures HasSeq(merged, e.seqNo)
    {
      var k :| 0 <= k < |more| && more[k] == e;
      if e.seqNo in have {
        var x :| x in events && x.seqNo == e.seqNo;
        assert x in merged;
      }
    }
    assert forall e :: e in events ==> e in merged;
  }

  lemma RangeParts(log: Log, full: Log, line: EpochKey, from: nat, to: nat, events: seq<Event>)
    requires Storage.IsRange(log, line, from, to, events)
    requires forall k :: k in log ==> k in full && log[k] == full[k]
    ensures PartOfRange(full, line, from, to, events)
    ensures forall s :: from <= s <= to && OriginKey(line, s) in log ==> HasSeq(events, s)
  {
  }

  /** A complete part of a range, sorted, is the range. */
  lemma SortedPartIsRange(log: Log, line: EpochKey, from: nat, to: nat, part: seq<Event>, events: seq<Event>)
    requires PartOfRange(log, line, from, to, part)
    requires forall s :: from <= s <= to && OriginKey(line, s) in log ==> HasSeq(part, s)
    requires DistinctSeqs(events) && forall x :: x in events <==> x in part
    requires forall i, j :: 0 <= i < j < |events| ==> events[i].seqNo <= events[j].seqNo
    ensures Storage.IsRange(log, line, from, to, events)
  {
  }

  /** As many events as seqs in the range leave none out. */
  lemma EnoughIsAll(events: seq<Event>, from: nat, to: nat)
    requires from <= to && DistinctSeqs(events) && forall e :: e in events ==> from <= e.seqNo <= to
    requires |events| >= to - from + 1
    ensures forall s :: from <= s <= to ==> HasSeq(events, s)
  {
    var seqs := set i | 0 <= i < |events| :: events[i].seqNo;
    DistinctCount(events, seqs);
    var all := SeqsFrom(from, to - from + 1);
    assert seqs <= all by {
      forall s | s in seqs
        ensures s in all
      {
        var i :| 0 <= i < |events| && events[i].seqNo == s;
        assert events[i] in events;
      }
    }
    SubsetOfSize(seqs, all);
    forall s | from <= s <= to
      ensures HasSeq(events, s)
    {
      assert s in all && s in seqs;
      var i :| 0 <= i < |events| && events[i].seqNo == s;
      assert events[i] in events;
    }
  }

  lemma {:induction false} DistinctCount(events: seq<Event>, seqs: set<nat>)
    requires DistinctSeqs(events) && seqs == set i | 0 <= i < |events| :: events[i].seqNo
    ensures |seqs| == |events|
    decreases |events|
  {
    if events != [] {
      var rest := events[..|events| - 1];
      var restSeqs := set i | 0 <= i < |rest| :: rest[i].seqNo;
      DistinctCount(rest, restSeqs);
      assert seqs == restSeqs + {events[|events| - 1].seqNo};
    }
  }

  function SeqsFrom(from: nat, count: nat): (seqs: set<nat>)
    ensures forall s :: s in seqs <==> from <= s < from + count
    ensures |seqs| == count
  {
    if count == 0 then {} else SeqsFrom(from, count - 1) + {from + count - 1}
  }

  lemma SubsetOfSize(a: set<nat>, b: set<nat>)
    requires a <= b && |a| >= |b|
    ensures a == b
  {
    assert b == a + (b - a);
    assert |b| == |a| + |b - a|;
  }

  /** The range server: buffered events first, storage for the rest. The size of
      a request for all 2^64 seqs wraps to zero, so storage is not asked then. */
  method ServeRange(state: NodeState.SharedState, line: EpochKey, from: nat, to: nat) returns (events: seq<Event>)
    requires state.Valid()
    ensures to - from + 1 < TWO64 ==> Storage.IsRange(state.applied, line, from, to, events)
    ensures to - from + 1 == TWO64 ==> Storage.IsRange(state.eventBuffer, line, from, to, events)
  {
    hide NodeState.SharedState.Valid, Storage.IsRange, PartOfRange, HasSeq, WellFormed, DistinctSeqs;
    Readable(state);
    events := state.GetEventsFromBuffer(line, from, to);
    RangeParts(state.eventBuffer, state.applied, line, from, to, events);
    PartsDistinct(state.applied, line, from, to, events);
    var expected := WrapU64(to - from + 1);
    NoSeqsInReverse(state.eventBuffer, line, from, to, events);
    ExpectedSize(from, to);
    if |events| < expected {
      var stored := state.storage.QueryEventsRange(line, from, to);
      RangeParts(state.storage.events, state.applied, line, from, to, stored);
      PartsDistinct(state.applied, line, from, to, stored);
      var merged := MergeRange(events, stored);
      MergedIsAll(state.applied, state.eventBuffer, state.storage.events, line, from, to, events, stored, merged);
      events := SortBySeq(merged, line);
      SortedPartIsRange(state.applied, line, from, to, merged, events);
    } else if from <= to && to - from + 1 < TWO64 {
      EnoughIsAll(events, from, to);
      BufferWasEnough(state.eventBuffer, state.applied, line, from, to, events);
    } else if from > to {
      NothingInReverse(state.applied, line, from, to);
    }
  }

  lemma ExpectedSize(from: nat, to: nat)
    ensures from <= to && to - from + 1 < TWO64 ==> WrapU64(to - from + 1) == to - from + 1
    ensures to - from + 1 == TWO64 ==> WrapU64(to - from + 1) == 0
  {
  }

  /** A reversed range is empty. */
  lemma NoSeqsInReverse(log: Log, line: EpochKey, from: nat, to: nat, events: seq<Event>)
    requires Storage.IsRange(log, line, from, to, events)
    ensures from > to ==> events == []
  {
    if events != [] {
      assert from <= events[0].seqNo <= to;
    }
  }

  lemma NothingInReverse(log: Log, line: EpochKey, from: nat, to: nat)
    requires from > to
    ensures Storage.IsRange(log, line, from, to, [])
  {
  }

  lemma PartsDistinct(log: Log, line: EpochKey, from: nat, to: nat, events: seq<Event>)
    requires PartOfRange(log, line, from, to, events)
    ensures DistinctSeqs(events) && forall e :: e in events ==> e.Line() == line && from <= e.seqNo <= to
  {
  }

  lemma MergedIsAll(log: Log, buffer: Log, stored: Log, line: EpochKey, from: nat, to: nat,
                    events: seq<Event>, more: seq<Event>, merged: seq<Event>)
    requires forall k :: k in log <==> k in buffer || k in stored
    requires PartOfRange(log, line, from, to, events) && PartOfRange(log, line, from, to, more)
    requires forall s :: from <= s <= to && OriginKey(line, s) in buffer ==> HasSeq(events, s)
    requires forall s :: from <= s <= to && OriginKey(line, s) in stored ==> HasSeq(more, s)
    requires DistinctSeqs(merged) && (forall e :: e in merged ==> e in events || e in more)
    requires forall e :: e in events || e in more ==> HasSeq(merged, e.seqNo)
    ensures PartOfRange(log, line, from, to, merged) && forall e :: e in merged ==> e.Line() == line
    ensures forall s :: from <= s <= to && OriginKey(line, s) in log ==> HasSeq(merged, s)
  {
  }

  lemma BufferWasEnough(buffer: Log, log: Log, line: EpochKey, from: nat, to: nat, events: seq<Event>)
    requires Storage.IsRange(buffer, line, from, to, events)
    requires forall k :: k in buffer ==> k in log && buffer[k] == log[k]
    requires forall s :: from <= s <= to ==> HasSeq(events, s)
    ensures Storage.IsRange(log, line, from, to, events)
  {
    forall s | from <= s <= to && OriginKey(line, s) in log
      ensures exists i :: 0 <= i < |events| && events[i].seqNo == s
    {
      assert HasSeq(events, s);
      var e :| e in events && e.seqNo == s;
      var i :| 0 <= i < |events| && events[i] == e;
    }
  }

  method SortBySeq(events: seq<Event>, ghost line: EpochKey) returns (r: seq<Event>)
    requires DistinctSeqs(events) && forall e :: e in events ==> e.Line() == line
    ensures DistinctSeqs(r) && (forall x :: x in r <==> x in events)
    ensures forall i, j :: 0 <= i < j < |r| ==> r[i].seqNo <= r[j].seqNo
  {
    var leq := (a: Event, b: Event) => a.seqNo <= b.seqNo;
    r := Sort(events, leq);
    forall i, j | 0 <= i < j < |r|
      ensures r[i].seqNo < r[j].seqNo
    {
      assert leq(r[i], r[j]);
      assert r[i] in events && r[j] in events;
    }
  }

  function AtOrBefore(a: Event, b: Event): bool {
    a.createdAt < b.createdAt || (a.createdAt == b.createdAt && (a.id == b.id || LexLess(a.id, b.id)))
  }

  lemma AtOrBeforeOrders()
    ensures TotalPreorder(AtOrBefore)
  {
    forall a, b
      ensures AtOrBefore(a, b) || AtOrBefore(b, a)
    {
      LexTotal(a.id, b.id);
    }
    forall a, b, c | AtOrBefore(a, b) && AtOrBefore(b, c)
      ensures AtOrBefore(a, c)
    {
      if a.createdAt == b.createdAt == c.createdAt && a.id != b.id && b.id != c.id {
        LexTransitive(a.id, b.id, c.id);
      }
    }
  }

  lemma ListsParts(log: Log, list: seq<Event>)
    requires Rebuild.Lists(log, list)
    ensures Storage.BatchOf(log, list) && OnePerKey(list) && Storage.KeySet(list) == log.Keys
  {
  }

  lemma ListsFrom(log: Log, part: seq<Event>, list: seq<Event>)
    requires Storage.BatchOf(log, part) && Storage.KeySet(part) == log.Keys
    requires OnePerKey(list) && forall x :: x in list <==> x in part
    ensures Rebuild.Lists(log, list)
  {
    forall i | 0 <= i < |list|
      ensures list[i].Key() in log && log[list[i].Key()] == list[i]
    {
      assert list[i] in part;
    }
    forall k | k in log
      ensures exists i :: 0 <= i < |list| && list[i].Key() == k
    {
      assert k in Storage.KeySet(part);
      var j :| 0 <= j < |part| && part[j].Key() == k;
      assert part[j] in list;
      var i :| 0 <= i < |list| && list[i] == part[j];
    }
  }

  lemma BatchMore(log: Log, other: Log, list: seq<Event>)
    requires Storage.BatchOf(log, list) && forall k :: k in log ==> k in other && log[k] == other[k]
    ensures Storage.BatchOf(other, list)
  {
  }

  lemma OneMoreKey(log: Log, list: seq<Event>, k: OriginKey)
    requires Storage.BatchOf(log, list) && OnePerKey(list) && k in log && log[k].Key() == k
    requires k !in Storage.KeySet(list)
    ensures Storage.BatchOf(log, list + [log[k]]) && OnePerKey(list + [log[k]])
    ensures Storage.KeySet(list + [log[k]]) == Storage.KeySet(list) + {k}
  {
    NodeState.CollectMore(list, log[k]);
  }

  /** Storage's listing, then whatever only the buffer has. */
  method AppendBuffered(stored: seq<Event>, buffer: Log, ghost log: Log) returns (all: seq<Event>)
    requires Storage.BatchOf(log, stored) && OnePerKey(stored)
    requires forall k :: k in buffer ==> k in log && buffer[k] == log[k] && log[k].Key() == k
    ensures Storage.BatchOf(log, all) && OnePerKey(all) && Storage.KeySet(all) == Storage.KeySet(stored) + buffer.Keys
  {
    hide Storage.BatchOf, Storage.KeySet, OnePerKey;
    var storedKeys := Storage.KeySet(stored);
    all := stored;
    var left := buffer.Keys;
    while left != {}
      invariant left <= buffer.Keys && Storage.BatchOf(log, all) && OnePerKey(all)
      invariant Storage.KeySet(all) == storedKeys + (buffer.Keys - left)
      decreases |left|
    {
      var k :| k in left;
      left := left - {k};
      if k !in storedKeys {
        OneMoreKey(log, all, k);
        all := all + [buffer[k]];
      }
    }
  }

  lemma OrderedByTime(log: Log, events: seq<Event>)
    requires WellFormed(log) && Rebuild.Lists(log, events) && Sorted(events, AtOrBefore)
    ensures forall i, j :: 0 <= i < j < |events| ==> Precedes(events[i], events[j])
  {
  }

  /** `events`: every applied event once, stored or not, by time and id. */
  method ListEvents(state: NodeState.SharedState, stored: seq<Event>) returns (events: seq<Event>)
    requires state.Valid() && Rebuild.Lists(state.storage.events, stored)
    ensures Rebuild.Lists(state.applied, events)
    ensures forall i, j :: 0 <= i < j < |events| ==> Precedes(events[i], events[j])
  {
    Readable(state);
    KeysAgree(state.applied);
    hide NodeState.SharedState.Valid, Rebuild.Lists, WellFormed, Storage.BatchOf, OnePerKey, Storage.KeySet, Sorted,
         TotalPreorder, AtOrBefore;
    ListsParts(state.storage.events, stored);
    BatchMore(state.storage.events, state.applied, stored);
    var all := AppendBuffered(stored, state.eventBuffer, state.applied);
    assert Storage.KeySet(all) == state.applied.Keys;
    AtOrBeforeOrders();
    events := Sort(all, AtOrBefore);
    ListsFrom(state.applied, all, events);
    OrderedByTime(state.applied, events);
  }

  lemma KeysAgree(log: Log)
    requires WellFormed(log)
    ensures forall k :: k in log ==> log[k].Key() == k
  {
  }

  /** The acknowledgement handler: apply the event, or say whether it was there. */
  method AnswerAck(state: NodeState.SharedState, e: Event, m: Mint) returns (inserted: bool)
    requires state.Valid()
    requires Accepts(state.View(), e) ==> Deliverable(state.View(), e) && MintFresh(Admit(state.View(), e), m)
    requires e.seqNo >= 1 && (e.Key() in state.applied ==> state.applied[e.Key()] == e)
    modifies state, state.allocators, state.storage
    ensures state.Valid() && state.View() == Receive(old(state.View()), e, m).0
    ensures inserted <==> Holds(state.View(), e)
    ensures !inserted <==> e.bucket in old(state.deletedBuckets)
  {
    hide NodeState.SharedState.Valid, Deliverable, MintFresh, Receive, Admit;
    ghost var v := state.View();
    inserted := state.InsertEvent(e, m);
    if !inserted {
      RefusedIsUnchanged(v, e, m);
      BufferedIsApplied(state, e);
      if e.Key() in state.applied {
        state.LiveBucket(e.Key());
      }
      inserted := state.EventIsPresent(e);
    }
  }

  lemma RefusedIsUnchanged(v: Replica, e: Event, m: Mint)
    requires !Accepts(v, e)
    ensures Receive(v, e, m).0 == v
  {
  }

  lemma BufferedIsApplied(state: NodeState.SharedState, e: Event)
    requires state.Valid()
    ensures e.Key() in state.eventBuffer ==> e.Key() in state.applied && state.applied[e.Key()] == state.eventBuffer[e.Key()]
  {
  }
}
