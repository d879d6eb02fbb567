/** What requests, deletes and deliveries are turned away for: the names clients
    may not touch (the meta log, which is never deleted, and the billing
    buckets), deleted buckets, and requests granted before. */
module Reserved {
  import opened Cluster
  import opened Emission
  import opened Ledger
  import opened OwnLine
  import opened ReplicaModel
  import opened Types
  import Allocator

  // ---- One replica ----

  /** A delete of the meta log or of a billing bucket is refused, whatever the
      state, and leaves no trace; no other delete is refused for its name. */
  lemma DeleteGate(r: Replica, bucket: string, reason: Option<string>, m: Mint)
    ensures bucket == "__meta__" || "__billing__" <= bucket ==>
      CreateDelete(r, bucket, reason, m) == (r, Failed(BucketReserved(bucket)))
    ensures !(bucket == "__meta__" || "__billing__" <= bucket) ==>
      forall name :: CreateDelete(r, bucket, reason, m).1 != Failed(BucketReserved(name))
  {
    hide Purge, DeleteEvent;
  }

  /** A request into such a bucket without the opt-in is refused likewise; no
      other request is refused for its bucket's name. */
  lemma RequestGate(r: Replica, input: Input, m: Mint)
    ensures !input.allowReservedBucket && (input.bucket == "__meta__" || "__billing__" <= input.bucket) ==>
      CreateLocal(r, input, m) == (r, Failed(BucketReserved(input.bucket)))
    ensures input.allowReservedBucket || !(input.bucket == "__meta__" || "__billing__" <= input.bucket) ==>
      forall name :: CreateLocal(r, input, m).1 != Failed(BucketReserved(name))
  {
    hide EmitMode, Matching;
    var mode := ModeOf(input, m.now);
    if mode.Selected? {
      ModeEffect(r, input, mode.mode, m);
    }
  }

  /** What a request does past its gates: no refusal is about a name, no bucket
      is deleted, and no event says to delete one. */
  predicate Harmless(r: Replica, outcome: (Replica, CreateResult)) {
    && outcome.0.deleted == r.deleted
    && (outcome.1.Failed? ==> !outcome.1.error.BucketReserved?)
    && (outcome.1.Created? ==> forall e :: e in outcome.1.emitted ==> e.MetaTargetBucket().None?)
  }

  lemma HeldChargeEffect(r: Replica, input: Input, hold: nat, expires: nat, m: Mint)
    ensures Harmless(r, HeldCharge(r, input, hold, expires, m))
  {
    hide Allocator.AfterAllocate, Allocator.NextPair;
  }

  lemma ModeEffect(r: Replica, input: Input, mode: Mode, m: Mint)
    ensures Harmless(r, EmitMode(r, input, mode, m))
  {
    hide Available, IsActive, Balance, ChargeHold, HeldCharge, Allocator.AfterAllocate, Allocator.NextPair;
    match mode
    case Charge(holdOverride) =>
      var (hold, expires) := ChargeHold(r, input, holdOverride, m.now);
      HeldChargeEffect(r, input, hold, expires, m);
    case Reserve =>
    case Settle(id) =>
    case Release(id) =>
  }

  // ---- Deleted buckets, and retries ----

  /** Nothing enters a deleted bucket: requests and deletes are refused, and
      deliveries change nothing. */
  lemma TombstoneGate(r: Replica, bucket: string, input: Input, reason: Option<string>, e: Event, m: Mint)
    requires bucket in r.deleted && !(bucket == "__meta__" || "__billing__" <= bucket)
    ensures input.bucket == bucket ==> CreateLocal(r, input, m) == (r, Failed(BucketDeleted(bucket)))
    ensures CreateDelete(r, bucket, reason, m) == (r, Failed(BucketDeleted(bucket)))
    ensures e.bucket == bucket ==> Receive(r, e, m) == (r, [])
  {
    hide EmitMode, Matching, Resolve, Admit;
  }

  /** A delete leaves nothing of the bucket, neither in memory nor in storage,
      keeps everything else, and adds the meta event, which it does not cache. */
  lemma DeleteLeaves(r: Replica, bucket: string, reason: Option<string>, m: Mint)
    requires CreateDelete(r, bucket, reason, m).1.Created?
    ensures var (r', result) := CreateDelete(r, bucket, reason, m);
      && r'.deleted == r.deleted + {bucket} && r'.cfg == r.cfg
      && (forall k :: k in r'.applied <==> (k in r.applied && k.line.bucket != bucket) || k == result.primary.Key())
      && (forall k :: k in r'.applied ==> r'.applied[k] == if k == result.primary.Key() then result.primary else r.applied[k])
      && (forall k :: k in r'.stored <==> k in r.stored && k.line.bucket != bucket)
      && (forall k :: k in r'.stored ==> r'.stored[k] == r.stored[k])
      && (forall k :: k in r'.cache <==> k in r.cache && k.bucket != bucket)
      && (forall k :: k in r'.cache ==> r'.cache[k] == r.cache[k])
      && bucket !in r'.alloc.counters && bucket !in r'.alloc.rows
      && (forall b :: b != bucket && b != "__meta__" ==>
            Allocator.NextPair(r'.alloc, b) == Allocator.NextPair(r.alloc, b))
  {
  }

  /** A retry is answered with the event already granted: the cached one, or
      else the least stored one, which is cached then; nothing is minted. */
  lemma RetryIsAnswered(r: Replica, input: Input, m: Mint)
    requires Valid(r) && ModeOf(input, m.now).Selected? && input.bucket !in r.deleted
    requires input.allowReservedBucket || !(input.bucket == "__meta__" || "__billing__" <= input.bucket)
    ensures input.Idem() in r.cache ==> CreateLocal(r, input, m) == (r, Created(r.cache[input.Idem()], []))
    ensures input.Idem() !in r.cache && Matching(r.stored, input.Idem()) != {} ==>
      var (r', result) := CreateLocal(r, input, m);
      && result.Created? && result.emitted == [] && IsLeast(Matching(r.stored, input.Idem()), result.primary)
      && r' == r.(cache := r.cache[input.Idem() := result.primary])
  {
    StoredDistinct(r, input.Idem());
    hide EmitMode, Matching, Valid, IsLeast, DistinctIds;
  }

  lemma StoredDistinct(r: Replica, key: IdemKey)
    requires Valid(r)
    ensures DistinctIds(Matching(r.stored, key))
  {
  }

  // ---- Every run ----

  /** No node has deleted such a bucket, and no event says to. */
  ghost predicate Untouched(s: System) {
    && (forall n, b :: n in s.nodes && b in s.nodes[n].deleted ==> !(b == "__meta__" || "__billing__" <= b))
    && (forall e :: e in s.minted && e.MetaTargetBucket().Some? ==>
          !(e.MetaTargetBucket().value == "__meta__" || "__billing__" <= e.MetaTargetBucket().value))
  }

  /** Only a delete mints an event that deletes a bucket. */
  lemma RequestDeletesNothing(r: Replica, input: Input, m: Mint)
    ensures CreateLocal(r, input, m).0.deleted == r.deleted
    ensures var result := CreateLocal(r, input, m).1;
      result.Created? ==> forall e :: e in result.emitted ==> e.MetaTargetBucket().None?
  {
    hide EmitMode, Matching;
    var mode := ModeOf(input, m.now);
    if mode.Selected? {
      ModeEffect(r, input, mode.mode, m);
    }
  }

  lemma DeliveryDeletes(r: Replica, e: Event, m: Mint)
    ensures Receive(r, e, m).0.deleted <= r.deleted + (if e.MetaTargetBucket().Some? then {e.MetaTargetBucket().value} else {})
    ensures forall c :: c in Receive(r, e, m).1 ==> c.MetaTargetBucket().None?
  {
    hide Matching;
  }

  lemma DeleteEffect(r: Replica, bucket: string, reason: Option<string>, m: Mint)
    ensures var (r', result) := CreateDelete(r, bucket, reason, m);
      if result.Created? then
        && r'.deleted == r.deleted + {bucket} && result.emitted == [result.primary]
        && result.primary.MetaTargetBucket() == Some(bucket) && !(bucket == "__meta__" || "__billing__" <= bucket)
      else r' == r
  {
    DeleteGate(r, bucket, reason, m);
  }

  lemma StepUntouched(s: System, step: Step)
    requires Untouched(s)
    ensures Untouched(Next(s, step))
  {
    hide CreateLocal, CreateDelete, Receive, Persist, Stewards, CreditsApart, NewIds, Faithful;
    if Enabled(s, step) {
      match step
      case Create(n, input, m) => RequestDeletesNothing(s.nodes[n], input, m);
      case Delete(n, bucket, reason, m) => DeleteEffect(s.nodes[n], bucket, reason, m);
      case Deliver(n, e, m) => DeliveryDeletes(s.nodes[n], e, m);
      case Flush(n, keys) => PersistFields(s.nodes[n], keys);
    }
  }

  lemma {:induction false} RunsUntouched(start: System, steps: seq<Step>)
    requires Initial(start)
    ensures Untouched(Run(start, steps))
    decreases |steps|
  {
    if steps != [] {
      hide Untouched, Next;
      RunsUntouched(start, steps[..|steps| - 1]);
      StepUntouched(Run(start, steps[..|steps| - 1]), steps[|steps| - 1]);
    } else {
      hide Next;
    }
  }

  /** In no run does any node delete the meta log or a billing bucket, so the
      node that minted an event there holds it ever after. */
  lemma ReservedStays(start: System, steps: seq<Step>, n: string, bucket: string, e: Event)
    requires Initial(start) && n in Run(start, steps).nodes && (bucket == "__meta__" || "__billing__" <= bucket)
    ensures bucket !in Run(start, steps).nodes[n].deleted
    ensures e in Run(start, steps).minted && e.bucket == bucket ==>
      e.origin in Run(start, steps).nodes && Holds(Run(start, steps).nodes[e.origin], e)
  {
    RunsUntouched(start, steps);
    RunsKeepInv(start, steps);
    InvAt(Run(start, steps), n);
    hide Run, Inv;
  }
}
