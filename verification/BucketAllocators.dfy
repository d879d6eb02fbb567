/** The in-memory registry of per-bucket allocators over a storage backend. */
module BucketAllocators {
  import opened Types
  import opened Allocator
  import Storage

  class Registry {
    const storage: Storage.Backend
    var counters: map<string, Counter>

    ghost function State(): AllocState
      reads this, storage
    {
      AllocState(counters, storage.rows)
    }

    constructor (storage: Storage.Backend)
      ensures this.storage == storage && counters == map[]
    {
      this.storage := storage;
      counters := map[];
    }

    /** Startup: flag every row, then load them all. */
    method LoadFromStorage()
      requires counters == map[]
      modifies this, storage`rows
      ensures State() == AfterRestart(old(State()))
      ensures storage.rows.Keys == old(storage.rows.Keys) == counters.Keys && forall b :: b in counters ==>
        storage.rows[b] == old(storage.rows)[b].(needsBump := true)
        && counters[b] == Counter(storage.rows[b].epoch, storage.rows[b].nextSeq, true)
    {
      storage.MarkBucketAllocatorsPending();
      var rows := storage.rows;
      var pending := rows.Keys;
      while pending != {}
        invariant pending <= rows.Keys && storage.rows == rows
        invariant counters == map b | b in rows && b !in pending :: Counter(rows[b].epoch, rows[b].nextSeq, rows[b].needsBump)
        decreases |pending|
      {
        var b :| b in pending;
        counters := counters[b := Counter(rows[b].epoch, rows[b].nextSeq, rows[b].needsBump)];
        pending := pending - {b};
      }
    }

    /** `allocate`, with the fate of the storage call it may make. */
    method Allocate(bucket: string, fate: StorageFate) returns (r: Option<Pair>)
      requires Consistent(State())
      modifies this`counters, storage`rows
      ensures Consistent(State())
      ensures r.Some? ==> r.value == NextPair(old(State()), bucket) && State() == AfterAllocate(old(State()), bucket)
      ensures r.None? ==> fate != Done && State() == AfterFailedAllocate(old(State()), bucket, fate)
      ensures fate == Done ==> r.Some?
    {
      ghost var before := State();
      if bucket !in counters {
        if fate == LostBefore { return None; }
        var epoch := storage.BumpBucketEpoch(bucket);
        if fate == LostAfter { return None; }
        var row := storage.rows[bucket];
        counters := counters[bucket := Counter(epoch, row.nextSeq, row.needsBump)];
      }
      if counters[bucket].needsBump {
        if fate == LostBefore { return None; }
        var epoch := storage.BumpBucketEpoch(bucket);
        if fate == LostAfter { return None; }
        counters := counters[bucket := Counter(epoch, 1, false)];
      }
      var c := counters[bucket];
      counters := counters[bucket := c.(nextSeq := c.nextSeq + 1)];
      AllocateAdvances(before, bucket);
      assert State().counters == AfterAllocate(before, bucket).counters;
      return Some((c.epoch, c.nextSeq));
    }

    /** One bucket's share of `checkpoint_all`. */
    method Checkpoint(bucket: string)
      modifies storage`rows
      ensures State() == AfterCheckpoint(old(State()), bucket)
      ensures storage.rows.Keys == old(storage.rows.Keys) && forall b :: b in storage.rows ==>
        var (row, row') := (old(storage.rows)[b], storage.rows[b]);
        && row'.epoch == row.epoch && row'.needsBump == row.needsBump
        && row'.nextSeq == if b == bucket && b in counters && counters[b].nextSeq > row.nextSeq then counters[b].nextSeq else row.nextSeq
    {
      if bucket in counters {
        storage.PersistBucketNextSeq(bucket, counters[bucket].nextSeq);
      }
    }

    method Forget(bucket: string)
      modifies this`counters
      ensures counters == old(counters) - {bucket}
    {
      counters := counters - {bucket};
    }
  }
}
