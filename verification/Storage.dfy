/** The storage backend: durable events with their id index, and one node's
    allocator rows. */
module Storage {
  import opened Types
  import opened Ledger
  import opened ReplicaModel
  import Allocator

  datatype InsertOutcome = Inserted | Duplicate | Conflict

  /** Where an event id is stored. */
  predicate Indexes(events: Log, ids: map<string, OriginKey>) {
    && (forall k :: k in events ==> events[k].id in ids && ids[events[k].id] == k)
    && (forall id :: id in ids ==> ids[id] in events && events[ids[id]].id == id)
  }

  function IdsWithout(ids: map<string, OriginKey>, bucket: string): map<string, OriginKey> {
    map id | id in ids && ids[id].line.bucket != bucket :: ids[id]
  }

  /** What inserting one event does to the durable log: an event whose key or
      whose id is taken changes nothing. */
  ghost function Kept(log: Log, e: Event): Log {
    if e.Key() in log || !IdFresh(log, e.id) then log else With(log, e)
  }

  ghost function KeptAll(log: Log, events: seq<Event>): Log
    decreases |events|
  {
    if events == [] then log else KeptAll(Kept(log, events[0]), events[1..])
  }

  lemma KeptAllSnoc(log: Log, events: seq<Event>, e: Event)
    ensures KeptAll(log, events + [e]) == Kept(KeptAll(log, events), e)
    decreases |events|
  {
    if events == [] {
      assert events + [e] == [e];
      assert [e][1..] == [];
    } else {
      KeptAllSnoc(Kept(log, events[0]), events[1..], e);
      assert (events + [e])[1..] == events[1..] + [e];
    }
  }

  /** Every event of the batch is the one the full log has under its key. */
  ghost predicate BatchOf(log: Log, events: seq<Event>) {
    forall i :: 0 <= i < |events| ==> events[i].Key() in log && log[events[i].Key()] == events[i]
  }

  function KeySet(events: seq<Event>): set<OriginKey> {
    set i | 0 <= i < |events| :: events[i].Key()
  }

  /** Inserting applied events, in any order and with repetitions, stores
      exactly them on top of what was stored. */
  lemma {:induction false} KeptAllIsPersist(stored: Log, log: Log, events: seq<Event>)
    requires WellFormed(log) && StoredAgrees(stored, log) && BatchOf(log, events)
    ensures StoredAgrees(KeptAll(stored, events), log)
    ensures KeptAll(stored, events).Keys == stored.Keys + KeySet(events)
    decreases |events|
  {
    if events == [] {
      assert KeySet(events) == {};
    } else {
      var e := events[0];
      KeptStep(stored, log, e);
      assert BatchOf(log, events[1..]);
      KeptAllIsPersist(Kept(stored, e), log, events[1..]);
      KeySetSplit(events);
    }
  }

  lemma KeySetSplit(events: seq<Event>)
    requires events != []
    ensures KeySet(events) == {events[0].Key()} + KeySet(events[1..])
  {
  }

  lemma KeptStep(stored: Log, log: Log, e: Event)
    requires WellFormed(log) && StoredAgrees(stored, log) && e.Key() in log && log[e.Key()] == e
    ensures StoredAgrees(Kept(stored, e), log) && Kept(stored, e).Keys == stored.Keys + {e.Key()}
  {
  }

  /** `found` lists the log's events of a seq range, in seq order, each once. */
  ghost predicate IsRange(log: Log, line: EpochKey, from: nat, to: int, found: seq<Event>) {
    && (forall i :: 0 <= i < |found| ==>
          found[i].Line() == line && from <= found[i].seqNo <= to && found[i].Key() in log && log[found[i].Key()] == found[i])
    && (forall i, j :: 0 <= i < j < |found| ==> found[i].seqNo < found[j].seqNo)
    && (forall s :: from <= s <= to && OriginKey(line, s) in log ==>
          exists i :: 0 <= i < |found| && found[i].seqNo == s)
  }

  /** Collect a seq range of a line from a map of events. */
  method ScanRange(log: Log, line: EpochKey, from: nat, to: nat) returns (found: seq<Event>)
    requires forall k :: k in log ==> log[k].Key() == k
    ensures IsRange(log, line, from, to, found)
  {
    found := [];
    if to < from { return; }
    for s := from to to + 1
      invariant IsRange(log, line, from, s - 1, found)
    {
      var key := OriginKey(line, s);
      var before := found;
      if key in log {
        assert log[key].Key() == key;
        found := found + [log[key]];
        assert found[|before|].seqNo == s;
      }
      forall x | from <= x <= s && OriginKey(line, x) in log
        ensures exists i :: 0 <= i < |found| && found[i].seqNo == x
      {
        if x < s {
          var i :| 0 <= i < |before| && before[i].seqNo == x;
          assert found[i].seqNo == x;
        }
      }
    }
  }

  lemma {:induction false} KeptAllGrows(log: Log, events: seq<Event>)
    ensures log.Keys <= KeptAll(log, events).Keys
    decreases |events|
  {
    if events != [] {
      KeptAllGrows(Kept(log, events[0]), events[1..]);
    }
  }

  /** An event whose id is its own ends up stored. */
  lemma {:induction false} StaysStored(log: Log, events: seq<Event>, i: nat)
    requires i < |events| && (IdFresh(log, events[i].id) || events[i].Key() in log)
    requires forall j, k :: 0 <= j < k < |events| && events[j].id == events[k].id ==> events[j] == events[k]
    ensures events[i].Key() in KeptAll(log, events)
    decreases |events|
  {
    var after := Kept(log, events[0]);
    if i == 0 {
      KeptAllGrows(after, events[1..]);
    } else {
      assert events[1..][i - 1] == events[i];
      assert events[0].id == events[i].id ==> events[0] == events[i];
      StaysStored(after, events[1..], i - 1);
    }
  }

  class Backend {
    var events: Log
    var eventIds: map<string, OriginKey>
    var rows: map<string, Allocator.Row>

    ghost predicate Valid()
      reads this
    {
      (forall k :: k in events ==> events[k].Key() == k) && Indexes(events, eventIds)
    }

    constructor ()
      ensures Valid() && events == map[] && rows == map[]
    {
      events, eventIds, rows := map[], map[], map[];
    }

    /** `insert_event`: first come, first kept. */
    method InsertEvent(e: Event) returns (outcome: InsertOutcome)
      requires Valid()
      modifies this`events, this`eventIds
      ensures Valid()
      ensures events == Kept(old(events), e)
      ensures events == if outcome.Inserted? then old(events)[e.Key() := e] else old(events)
      ensures outcome.Inserted? <==> e.Key() !in old(events) && IdFresh(old(events), e.id)
      ensures outcome.Duplicate? <==> e.Key() in old(events) && old(events)[e.Key()].id == e.id
    {
      var key := e.Key();
      assert forall k :: k in events && events[k].id == e.id ==> eventIds[e.id] == k;
      if e.id in eventIds && eventIds[e.id] != key {
        assert events[eventIds[e.id]].id == e.id;
        return Conflict;
      }
      if key in events {
        assert !IdFresh(events, events[key].id);
        return if events[key].id == e.id then Duplicate else Conflict;
      }
      events := events[key := e];
      eventIds := eventIds[e.id := key];
      return Inserted;
    }

    /** `insert_events_bulk`. */
    method InsertEventsBulk(batch: seq<Event>) returns (count: nat)
      requires Valid()
      modifies this`events, this`eventIds
      ensures Valid()
      ensures events == KeptAll(old(events), batch)
      ensures count == |events| - |old(events)|
    {
      count := 0;
      assert batch[..0] == [];
      for i := 0 to |batch|
        invariant Valid() && count == |events| - |old(events)|
        invariant events == KeptAll(old(events), batch[..i])
      {
        assert batch[..i + 1] == batch[..i] + [batch[i]];
        KeptAllSnoc(old(events), batch[..i], batch[i]);
        var outcome := InsertEvent(batch[i]);
        if outcome.Inserted? {
          count := count + 1;
        }
      }
      assert batch[..|batch|] == batch;
    }

    /** `query_events_range`: the stored events of one line in seq order. */
    method QueryEventsRange(line: EpochKey, from: nat, to: nat) returns (found: seq<Event>)
      requires Valid()
      ensures IsRange(events, line, from, to, found)
    {
      found := ScanRange(events, line, from, to);
    }

    /** `find_by_idempotency_key`. */
    method FindByIdempotencyKey(key: IdemKey) returns (found: set<Event>)
      ensures found == Matching(events, key)
    {
      found := set k | k in events && events[k].Idem() == key :: events[k];
    }

    /** `delete_bucket_cascade`: refuses the meta log. */
    method DeleteBucketCascade(bucket: string) returns (done: bool)
      requires Valid()
      modifies this
      ensures Valid()
      ensures done <==> bucket != META_BUCKET
      ensures events == if done then DropBucket(old(events), bucket) else old(events)
      ensures rows == if done then old(rows) - {bucket} else old(rows)
    {
      if bucket == META_BUCKET { return false; }
      eventIds := IdsWithout(eventIds, bucket);
      events := DropBucket(events, bucket);
      rows := rows - {bucket};
      return true;
    }

    /** `bump_bucket_epoch`: bump a flagged row, keep a clear one, create a missing one. */
    method BumpBucketEpoch(bucket: string) returns (epoch: nat)
      modifies this`rows
      ensures rows == old(rows)[bucket := Allocator.BumpedRow(old(rows), bucket)]
      ensures epoch == rows[bucket].epoch
      ensures rows[bucket] == (if bucket !in old(rows) then Allocator.Row(1, 1, false)
                               else if old(rows)[bucket].needsBump then Allocator.Row(old(rows)[bucket].epoch + 1, 1, false)
                               else old(rows)[bucket])
    {
      if bucket in rows {
        var row := rows[bucket];
        if row.needsBump {
          rows := rows[bucket := Allocator.Row(row.epoch + 1, 1, false)];
          return row.epoch + 1;
        }
        assert rows == rows[bucket := row];
        return row.epoch;
      }
      rows := rows[bucket := Allocator.Row(1, 1, false)];
      return 1;
    }

    /** `persist_bucket_next_seq`: never rewinds. */
    method PersistBucketNextSeq(bucket: string, nextSeq: nat)
      modifies this`rows
      ensures rows == Allocator.PersistedRows(old(rows), bucket, nextSeq)
      ensures rows.Keys == old(rows.Keys) && forall b :: b in rows ==>
        rows[b] == old(rows)[b].(nextSeq := if b == bucket && nextSeq > old(rows)[b].nextSeq then nextSeq else old(rows)[b].nextSeq)
    {
      if bucket in rows && nextSeq > rows[bucket].nextSeq {
        rows := rows[bucket := rows[bucket].(nextSeq := nextSeq)];
      }
    }

    /** `mark_bucket_allocators_pending`. */
    method MarkBucketAllocatorsPending()
      modifies this`rows
      ensures rows == Allocator.PendingRows(old(rows))
    {
      rows := map b | b in rows :: rows[b].(needsBump := true);
    }
  }
}
