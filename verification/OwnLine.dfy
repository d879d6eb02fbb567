/** Every node's own seq lines are gapless in every reachable state: requests
    and corrections record exactly the seqs they allocate. */
module OwnLine {
  import opened Types
  import opened Ledger
  import opened ReplicaModel
  import opened Emission
  import opened Tracking
  import opened Cluster
  import Allocator

  /** Of a live bucket, the node holds exactly the own events below its next pair. */
  ghost predicate Gapless(r: Replica) {
    forall k: OriginKey :: k.line.origin == r.cfg.nodeId && k.line.bucket !in r.deleted ==>
      (k in r.applied <==> k.line.epoch == NextPair(r, k.line.bucket).0 && 1 <= k.seqNo < NextPair(r, k.line.bucket).1)
  }

  lemma MintedGapless(r: Replica, e: Event)
    requires Valid(r) && Gapless(r) && MintsNext(r, e)
    ensures Gapless(Minted(r, e))
  {
    MintedValid(r, e);
    var r' := Minted(r, e);
    hide Valid, Allocator.NextPair, Allocator.AfterAllocate;
    forall k: OriginKey | k.line.origin == r'.cfg.nodeId && k.line.bucket !in r'.deleted
      ensures k in r'.applied <==> k.line.epoch == NextPair(r', k.line.bucket).0 && 1 <= k.seqNo < NextPair(r', k.line.bucket).1
    {
      assert k in r'.applied <==> k in r.applied || k == e.Key();
      assert k.line.bucket == e.bucket && k.line.epoch == e.epoch && k.seqNo == e.seqNo ==> k == e.Key();
    }
  }

  lemma {:induction false} MintAllGapless(r: Replica, events: seq<Event>)
    requires Valid(r) && Gapless(r) && AllNext(r, events)
    ensures Gapless(MintAll(r, events))
    decreases |events|
  {
    if events != [] {
      hide Valid, Gapless, MintsNext;
      MintedGapless(r, events[0]);
      MintedFresh(r, events[0]);
      MintAllGapless(Minted(r, events[0]), events[1..]);
    }
  }

  lemma CacheGapless(r: Replica, cache: map<IdemKey, Event>)
    requires Gapless(r)
    ensures Gapless(r.(cache := cache))
  {
  }

  lemma RequestGapless(r: Replica, input: Input, m: Mint)
    requires Valid(r) && MintFresh(r, m) && Gapless(r) && CreateLocal(r, input, m).1 != LATE_REFUSAL
    ensures Gapless(CreateLocal(r, input, m).0)
  {
    hide Valid, Gapless, MintFresh, EmitMode, Matching, EmitsNext;
    var mode := ModeOf(input, m.now);
    if Matching(r.stored, input.Idem()) != {} {
      CacheGapless(r, r.cache[input.Idem() := LeastOf(Matching(r.stored, input.Idem()))]);
    }
    if mode.Selected? && input.bucket !in r.deleted && EmitMode(r, input, mode.mode, m).1 != LATE_REFUSAL {
      EmitModeEmits(r, input, mode.mode, m);
      EmittedGapless(r, EmitMode(r, input, mode.mode, m));
    }
  }

  /** A transfer that does not overflow is not refused late, nor is any other request. */
  lemma NeverLate(r: Replica, input: Input, m: Mint)
    requires Intent(input).Some? ==> !Overflows(input)
    ensures CreateLocal(r, input, m).1 != LATE_REFUSAL
  {
    ModeNeverLate(input, m.now);
    ChargeIntent(input, m.now);
    hide ModeOf, Matching, Minted, ChargeHold, Available, IsActive, DebitBooked;
  }

  lemma ChargeIntent(input: Input, now: nat)
    ensures ModeOf(input, now).Selected? && ModeOf(input, now).mode.Charge? ==> Intent(input) == input.transferTo
  {
  }

  lemma EmittedGapless(r: Replica, outcome: (Replica, CreateResult))
    requires Valid(r) && Gapless(r) && EmitsNext(r, outcome) && outcome.1 != LATE_REFUSAL
    ensures Gapless(outcome.0)
  {
    hide Valid, Gapless;
    if outcome.1.Created? {
      MintAllGapless(r, outcome.1.emitted);
    }
  }

  lemma PurgedGapless(r: Replica, bucket: string)
    requires Gapless(r)
    ensures Gapless(Purge(r, bucket))
  {
  }

  lemma DeleteGapless(r: Replica, bucket: string, reason: Option<string>, m: Mint)
    requires Valid(r) && IdFresh(r.applied, m.first) && Gapless(r)
    ensures Gapless(CreateDelete(r, bucket, reason, m).0)
  {
    if CreateDelete(r, bucket, reason, m).1.Created? {
      CreateDeleteValid(r, bucket, reason, m);
      PurgedGapless(r, bucket);
      hide Gapless, CreateDelete, Purge;
      var q := Purge(r, bucket);
      var e := DeleteEvent(q, bucket, reason, m);
      MintedGapless(q, e);
      CacheGapless(Minted(q, e), q.cache);
    }
  }

  lemma AdmittedGapless(r: Replica, e: Event)
    requires Gapless(r) && e.origin != r.cfg.nodeId
    ensures Gapless(Admit(r, e))
  {
  }

  lemma CorrectionsGapless(r: Replica, winner: Event, loser: Event, m: Mint)
    requires Valid(r) && Gapless(r) && loser.bucket !in r.deleted
    requires IdFresh(r.applied, m.first) && IdFresh(r.applied, m.second) && m.first != m.second
    ensures Gapless(EmitCorrections(r, winner, loser, m).0)
  {
    hide Gapless, Valid;
    var v := VoidEvent(r, winner, loser, m.now, m.first);
    MintedGapless(r, v);
    MintedFresh(r, v);
    NextAfter(r, v, v.(id := m.second));
    if loser.HasHold() && ReleaseKey(loser) !in Minted(r, v).cache {
      MintedGapless(Minted(r, v), LoserReleaseEvent(Minted(r, v), winner, loser, m.now, m.second));
    }
  }

  lemma ResolvedGapless(r: Replica, e: Event, m: Mint)
    requires Valid(r) && Gapless(r) && e.bucket !in r.deleted
    requires e.Idem() in r.cache ==> r.cache[e.Idem()].Idem() == e.Idem()
    requires IdFresh(r.applied, m.first) && IdFresh(r.applied, m.second) && m.first != m.second
    ensures Gapless(Resolve(r, e, m).0)
  {
    hide Gapless, Valid, Matching, EmitCorrections;
    CacheGapless(r, r.cache[e.Idem() := e]);
    if e.Idem() in r.cache && r.cache[e.Idem()].id != e.id {
      var (winner, loser) := IdempotencyWinner(r.cache[e.Idem()], e);
      CacheGapless(r, r.cache[e.Idem() := winner]);
      CacheFree(r, r.cache[e.Idem() := winner]);
      CorrectionsGapless(r.(cache := r.cache[e.Idem() := winner]), winner, loser, m);
    }
  }

  lemma ReceivedGapless(r: Replica, e: Event, m: Mint, extra: set<IdemKey>)
    requires Knows(r, {}, extra) && Gapless(r) && e.origin != r.cfg.nodeId
    requires Accepts(r, e) ==> Deliverable(r, e) && MintFresh(r, m) && m.first != e.id && m.second != e.id
    ensures Gapless(Receive(r, e, m).0)
  {
    if Accepts(r, e) {
      AdmittedGapless(r, e);
      AdmitValid(r, e);
      CachedKeys(r, extra);
      AdmittedParts(r, e, m);
      hide Gapless, Valid, Knows, Admit, Accepts, Deliverable, IdFresh, Resolve;
      ResolvedGapless(Admit(r, e), e, m);
    }
  }

  lemma CachedKeys(r: Replica, extra: set<IdemKey>)
    requires Knows(r, {}, extra)
    ensures forall key :: key in r.cache ==> r.cache[key].Idem() == key
  {
  }

  lemma AdmittedParts(r: Replica, e: Event, m: Mint)
    requires Accepts(r, e) && MintFresh(r, m) && m.first != e.id && m.second != e.id
    requires forall key :: key in r.cache ==> r.cache[key].Idem() == key
    ensures e.bucket !in Admit(r, e).deleted
    ensures e.Idem() in Admit(r, e).cache ==> Admit(r, e).cache[e.Idem()].Idem() == e.Idem()
    ensures IdFresh(Admit(r, e).applied, m.first) && IdFresh(Admit(r, e).applied, m.second)
  {
  }

  lemma PersistGapless(r: Replica, keys: set<OriginKey>)
    requires Gapless(r)
    ensures Gapless(Persist(r, keys))
  {
  }

  // ---- Over all runs ----

  ghost predicate AllGapless(s: System) {
    forall n :: n in s.nodes ==> Gapless(s.nodes[n])
  }

  /** A node accepts no event of its own: it already has it. */
  lemma OwnEventsAreHeld(s: System, n: string, e: Event)
    requires Inv(s) && n in s.nodes && e in s.minted && Accepts(s.nodes[n], e)
    ensures e.origin != n && Deliverable(s.nodes[n], e) && s.nodes[n].cfg.nodeId == n
    ensures Knows(s.nodes[n], {}, Stewarded(s.stewards, n))
  {
    InvAt(s, n);
    NodeFacts(s, n, n, {});
    hide Knows, Valid;
    MintedIsDeliverable(s, n, e);
    assert HeldAtOrigin(s.nodes, s.minted);
  }

  lemma NodeMints(s: System, n: string, m: Mint)
    requires Inv(s) && n in s.nodes && NewIds(s, m)
    ensures Valid(s.nodes[n]) && MintFresh(s.nodes[n], m)
  {
  }

  /** What a step makes of its node. */
  ghost function NodeAfter(r: Replica, step: Step): Replica {
    match step
    case Create(_, input, m) => CreateLocal(r, input, m).0
    case Delete(_, bucket, reason, m) => CreateDelete(r, bucket, reason, m).0
    case Deliver(_, e, m) => Receive(r, e, m).0
    case Flush(_, keys) => Persist(r, keys)
  }

  lemma NextReplaces(s: System, step: Step)
    requires Enabled(s, step)
    ensures step.node in s.nodes
    ensures Next(s, step).nodes == s.nodes[step.node := NodeAfter(s.nodes[step.node], step)]
  {
    hide CreateLocal, CreateDelete, Receive, Persist, Stewards, WellUsed, NewIds;
  }

  lemma StepGapless(s: System, step: Step)
    requires Inv(s) && AllGapless(s)
    ensures AllGapless(Next(s, step))
  {
    hide Inv, Gapless, Receive, CreateLocal, CreateDelete, Persist, Knows, Valid, Next, WellUsed, NewIds;
    if Enabled(s, step) {
      NextReplaces(s, step);
      var n := step.node;
      assert Gapless(s.nodes[n]);
      match step
      case Create(_, input, m) =>
        NodeMints(s, n, m);
        NeverLate(s.nodes[n], input, m);
        RequestGapless(s.nodes[n], input, m);
      case Delete(_, bucket, reason, m) =>
        NodeMints(s, n, m);
        DeleteGapless(s.nodes[n], bucket, reason, m);
      case Deliver(_, e, m) =>
        DeliveredGapless(s, n, e, m);
      case Flush(_, keys) =>
        PersistGapless(s.nodes[n], keys);
    } else {
      NextIdle(s, step);
    }
  }

  lemma NextIdle(s: System, step: Step)
    requires !Enabled(s, step)
    ensures Next(s, step) == s
  {
  }

  lemma DeliveredGapless(s: System, n: string, e: Event, m: Mint)
    requires Inv(s) && Enabled(s, Deliver(n, e, m)) && Gapless(s.nodes[n])
    ensures Gapless(Receive(s.nodes[n], e, m).0)
  {
    hide Inv, Gapless, Knows, Valid, Accepts, Deliverable, Resolve;
    if Accepts(s.nodes[n], e) {
      OwnEventsAreHeld(s, n, e);
      NodeMints(s, n, m);
      ReceivedGapless(s.nodes[n], e, m, Stewarded(s.stewards, n));
    }
  }

  lemma StartGapless(s: System)
    requires Initial(s)
    ensures AllGapless(s)
  {
  }

  lemma {:induction false} RunsGapless(s: System, steps: seq<Step>)
    requires Initial(s)
    ensures AllGapless(Run(s, steps))
    decreases |steps|
  {
    if steps == [] {
      StartGapless(s);
    } else {
      hide Inv, Initial, Next, AllGapless;
      RunsKeepInv(s, steps[..|steps| - 1]);
      RunsGapless(s, steps[..|steps| - 1]);
      StepGapless(Run(s, steps[..|steps| - 1]), steps[|steps| - 1]);
    }
  }

  /** In every reachable state the head of a node's own line is one below the
      seq it hands out next, and nothing of that line is pending. */
  lemma OwnHeadIsNextMinusOne(start: System, steps: seq<Step>, n: string, bucket: string)
    requires Initial(start) && n in start.nodes
    requires n in Run(start, steps).nodes && bucket !in Run(start, steps).nodes[n].deleted
    ensures var r := Run(start, steps).nodes[n];
      var line := EpochKey(bucket, n, NextPair(r, bucket).0);
      && NextPair(r, bucket).1 >= 1
      && HeadOf(r.applied, line) == NextPair(r, bucket).1 - 1
      && forall s :: s in SeqsOf(r.applied, line) ==> s <= HeadOf(r.applied, line)
  {
    var t := Run(start, steps);
    RunsKeepInv(start, steps);
    RunsGapless(start, steps);
    InvAt(t, n);
    NodeFacts(t, n, n, {});
    var r := t.nodes[n];
    var line := EpochKey(bucket, n, NextPair(r, bucket).0);
    NextIsPositive(r, bucket);
    hide Inv, InvBut, HistoryMatches, Knows, Valid, Run, Allocator.NextPair, HeadOf;
    assert Gapless(r);
    forall s: nat
      ensures s in SeqsOf(r.applied, line) <==> 1 <= s < NextPair(r, bucket).1
    {
      InSeqsOf(r.applied, line, s);
    }
    HeadUnique(SeqsOf(r.applied, line), HeadOf(r.applied, line), NextPair(r, bucket).1 - 1);
  }

  lemma NextIsPositive(r: Replica, bucket: string)
    requires Valid(r)
    ensures NextPair(r, bucket).1 >= 1
  {
  }
}
