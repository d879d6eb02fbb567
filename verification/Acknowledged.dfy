/** What a create response may claim about its peers, over whole runs: one
    node's acknowledgement loop beside a cluster that does anything it can, with
    every answer computed by the asked peer from its own state. */
module Acknowledged {
  import opened Types
  import opened Ledger
  import opened ReplicaModel
  import opened Emission
  import opened Tracking
  import opened Cluster
  import opened OwnLine
  import opened Quorum

  /** What a group asks its peers, and what one of its requests carries. */
  datatype Question = Question(event: Event, minAcks: nat)
  datatype Sent = Sent(peer: string, event: Event)

  /** The cluster; the loop of the node `home`; what each of its groups asks;
      every request ever sent; and the answers computed so far. */
  datatype World = World(
    system: System,
    home: string,
    acks: Acks,
    asked: map<nat, Question>,
    sent: map<nat, Sent>,
    answers: map<nat, bool>)

  datatype Action =
    | Evolve(step: Step)
    | Ask(event: Event, minAcks: nat, deadline: nat, peers: seq<string>)
    | Handle(request: nat, mint: Mint)
    | Response(request: nat)
    | Failure(request: nat)
    | Expire(group: nat, now: nat)

  function SentBy(first: nat, peers: seq<string>, e: Event): map<nat, Sent> {
    map r | r in Numbers(first, |peers|) :: Sent(peers[r - first], e)
  }

  ghost predicate Possible(w: World, action: Action) {
    match action
    case Evolve(step) => true
    case Ask(e, _, _, peers) =>
      && e in w.system.minted && e.seqNo >= 1 && peers != [] && Distinct(peers)
      && forall p :: p in peers ==> p in w.system.nodes && p != w.home
    case Handle(r, m) =>
      r in w.sent && r !in w.answers && Enabled(w.system, Deliver(w.sent[r].peer, w.sent[r].event, m))
    case Response(r) => r in w.answers
    case Failure(_) => true
    case Expire(g, now) => g in Expired(w.acks.groups, now)
  }

  /** A peer handles a request by receiving the event like any other delivery,
      and answers whether it holds the event then. */
  ghost function Act(w: World, action: Action): World {
    if !Possible(w, action) then w else
      match action
      case Evolve(step) => w.(system := Next(w.system, step))
      case Ask(e, minAcks, deadline, peers) =>
        w.(acks := AfterAsk(w.acks, minAcks, deadline, peers),
           asked := w.asked[w.acks.nextGroup := Question(e, minAcks)],
           sent := w.sent + SentBy(w.acks.nextRequest, peers, e))
      case Handle(r, m) =>
        var (p, e) := (w.sent[r].peer, w.sent[r].event);
        w.(system := Next(w.system, Deliver(p, e, m)),
           answers := w.answers[r := Holds(Receive(w.system.nodes[p], e, m).0, e)])
      case Response(r) => w.(acks := AfterResponse(w.acks, r, w.answers[r]))
      case Failure(r) => w.(acks := AfterFailure(w.acks, r))
      case Expire(g, _) => w.(acks := Settled(w.acks, g))
  }

  ghost function RunAll(w: World, actions: seq<Action>): World
    decreases |actions|
  {
    if actions == [] then w else Act(RunAll(w, actions[..|actions| - 1]), actions[|actions| - 1])
  }

  // ---- Logs lose nothing but deleted buckets ----

  /** The event is there, or the whole bucket is gone. */
  predicate HeldOrDropped(r: Replica, e: Event) {
    e.bucket in r.deleted || Holds(r, e)
  }

  lemma KeepsHeld(r: Replica, r': Replica, e: Event)
    requires KeepsLog(r, r') && HeldOrDropped(r, e)
    ensures HeldOrDropped(r', e)
  {
    assert e.Key().line.bucket == e.bucket;
  }

  lemma KeepsTwice(r: Replica, r': Replica, r'': Replica)
    requires KeepsLog(r, r') && KeepsLog(r', r'')
    ensures KeepsLog(r, r'')
  {
  }

  lemma {:induction false} WithAllKeeps(log: Log, events: seq<Event>)
    requires Recordable(log, events)
    ensures LogGrows(log, WithAll(log, events))
    decreases |events|
  {
    if events != [] {
      var e, rest := events[0], events[1..];
      var log' := With(log, e);
      assert forall k :: k in log' ==> k == e.Key() || k in log;
      forall i | 0 <= i < |rest|
        ensures rest[i].Key() !in log' && rest[i].seqNo >= 1 && IdFresh(log', rest[i].id)
      {
        assert rest[i] == events[i + 1];
      }
      forall i, j | 0 <= i < j < |rest|
        ensures rest[i].Key() != rest[j].Key() && rest[i].id != rest[j].id
      {
        assert rest[i] == events[i + 1] && rest[j] == events[j + 1];
      }
      WithAllKeeps(log', rest);
      hide IdFresh, Recordable;
    }
  }

  lemma RequestKeepsLog(r: Replica, input: Input, m: Mint)
    requires Valid(r) && MintFresh(r, m)
    ensures KeepsLog(r, CreateLocal(r, input, m).0)
  {
    CreateLocalValid(r, input, m);
    hide CreateLocal, Valid, MintFresh, Recordable, WithAll;
    var result := CreateLocal(r, input, m).1;
    if result.Created? {
      WithAllKeeps(r.applied, result.emitted);
    }
  }

  lemma MintKeepsLog(r: Replica, e: Event)
    requires Valid(r) && MintsNext(r, e)
    ensures KeepsLog(r, Minted(r, e))
  {
    MintedValid(r, e);
  }

  lemma PurgeKeepsLog(r: Replica, bucket: string)
    ensures KeepsLog(r, Purge(r, bucket))
  {
  }

  lemma DeleteKeepsLog(r: Replica, bucket: string, reason: Option<string>, m: Mint)
    requires Valid(r) && IdFresh(r.applied, m.first)
    ensures KeepsLog(r, CreateDelete(r, bucket, reason, m).0)
  {
    if CreateDelete(r, bucket, reason, m).1.Created? {
      CreateDeleteValid(r, bucket, reason, m);
      PurgeKeepsLog(r, bucket);
      hide Purge, CreateDelete, Valid, DeleteEvent;
    }
  }

  lemma CorrectionsKeepLog(r: Replica, winner: Event, loser: Event, m: Mint)
    requires Valid(r) && loser.bucket !in r.deleted
    requires IdFresh(r.applied, m.first) && IdFresh(r.applied, m.second) && m.first != m.second
    ensures KeepsLog(r, EmitCorrections(r, winner, loser, m).0)
  {
    hide Valid;
    var v := VoidEvent(r, winner, loser, m.now, m.first);
    MintKeepsLog(r, v);
    MintedFresh(r, v);
    NextAfter(r, v, v.(id := m.second));
    var release := LoserReleaseEvent(Minted(r, v), winner, loser, m.now, m.second);
    if loser.HasHold() && ReleaseKey(loser) !in Minted(r, v).cache {
      MintKeepsLog(Minted(r, v), release);
      KeepsTwice(r, Minted(r, v), Minted(Minted(r, v), release));
    }
  }

  lemma ResolveKeepsLog(r: Replica, e: Event, m: Mint)
    requires Valid(r) && e.bucket !in r.deleted
    requires e.Idem() in r.cache ==> r.cache[e.Idem()].Idem() == e.Idem()
    requires IdFresh(r.applied, m.first) && IdFresh(r.applied, m.second) && m.first != m.second
    ensures KeepsLog(r, Resolve(r, e, m).0)
  {
    hide Valid, Matching, EmitCorrections;
    if e.Idem() in r.cache && r.cache[e.Idem()].id != e.id {
      var (winner, loser) := IdempotencyWinner(r.cache[e.Idem()], e);
      CacheFree(r, r.cache[e.Idem() := winner]);
      CorrectionsKeepLog(r.(cache := r.cache[e.Idem() := winner]), winner, loser, m);
    }
  }

  lemma AdmitKeepsLog(r: Replica, e: Event)
    requires Valid(r) && Accepts(r, e)
    ensures KeepsLog(r, Admit(r, e)) && Holds(Admit(r, e), e)
  {
  }

  /** A received event leaves the log whole, and is in it if it was accepted. */
  lemma ReceiveKeepsLog(r: Replica, e: Event, m: Mint)
    requires Valid(r) && forall key :: key in r.cache ==> r.cache[key].Idem() == key
    requires Accepts(r, e) ==> Deliverable(r, e) && MintFresh(r, m) && m.first != e.id && m.second != e.id
    ensures KeepsLog(r, Receive(r, e, m).0)
    ensures Accepts(r, e) ==> HeldOrDropped(Receive(r, e, m).0, e)
  {
    if Accepts(r, e) {
      AdmitKeepsLog(r, e);
      AdmitValid(r, e);
      AdmittedParts(r, e, m);
      hide Valid, Admit, Accepts, Deliverable, IdFresh, Resolve, Holds;
      ResolveKeepsLog(Admit(r, e), e, m);
      KeepsTwice(r, Admit(r, e), Resolve(Admit(r, e), e, m).0);
      KeepsHeld(Admit(r, e), Resolve(Admit(r, e), e, m).0, e);
    }
  }

  lemma PersistKeepsLog(r: Replica, keys: set<OriginKey>)
    ensures KeepsLog(r, Persist(r, keys))
  {
  }

  /** Every step of a reachable cluster leaves every log whole but for deleted buckets. */
  lemma StepKeepsLogs(s: System, step: Step)
    requires Inv(s)
    ensures Inv(Next(s, step)) && s.minted <= Next(s, step).minted
    ensures forall n :: n in s.nodes <==> n in Next(s, step).nodes
    ensures forall n :: n in s.nodes ==> KeepsLog(s.nodes[n], Next(s, step).nodes[n])
  {
    hide Inv, KeepsLog, Receive, CreateLocal, CreateDelete, Persist, Knows, Valid, Next, WellUsed, NewIds;
    StepKeepsInv(s, step);
    NextNodes(s, step);
    NextMints(s, step);
    if Enabled(s, step) {
      NextReplaces(s, step);
      var n := step.node;
      StepKeepsLog(s, step);
      forall other | other in s.nodes
        ensures KeepsLog(s.nodes[other], Next(s, step).nodes[other])
      {
        if other != n { SameLog(s.nodes[other]); }
      }
    } else {
      NextIdle(s, step);
      forall n | n in s.nodes
        ensures KeepsLog(s.nodes[n], s.nodes[n])
      {
        SameLog(s.nodes[n]);
      }
    }
  }

  lemma SameLog(r: Replica)
    ensures KeepsLog(r, r)
  {
  }

  lemma NextMints(s: System, step: Step)
    ensures s.minted <= Next(s, step).minted
  {
    hide CreateLocal, CreateDelete, Receive, Persist, Stewards, Enabled;
  }

  lemma StepKeepsLog(s: System, step: Step)
    requires Inv(s) && Enabled(s, step)
    ensures KeepsLog(s.nodes[step.node], NodeAfter(s.nodes[step.node], step))
  {
    hide Inv, KeepsLog, Receive, CreateLocal, CreateDelete, Persist, Knows, Valid, WellUsed, NewIds;
    var n := step.node;
    match step
    case Create(_, input, m) =>
      NodeMints(s, n, m);
      RequestKeepsLog(s.nodes[n], input, m);
    case Delete(_, bucket, reason, m) =>
      NodeMints(s, n, m);
      DeleteKeepsLog(s.nodes[n], bucket, reason, m);
    case Deliver(_, e, m) =>
      DeliveryKeepsLog(s, n, e, m);
    case Flush(_, keys) =>
      PersistKeepsLog(s.nodes[n], keys);
  }

  lemma DeliveryKeepsLog(s: System, n: string, e: Event, m: Mint)
    requires Inv(s) && Enabled(s, Deliver(n, e, m))
    ensures KeepsLog(s.nodes[n], Receive(s.nodes[n], e, m).0)
  {
    hide Inv, KeepsLog, Knows, Valid, Accepts, Deliverable, Resolve, Receive;
    NodeMints(s, n, m);
    NodeCacheKeyed(s, n);
    if Accepts(s.nodes[n], e) {
      OwnEventsAreHeld(s, n, e);
    }
    ReceiveKeepsLog(s.nodes[n], e, m);
  }

  lemma NodeCacheKeyed(s: System, n: string)
    requires Inv(s) && n in s.nodes
    ensures forall key :: key in s.nodes[n].cache ==> s.nodes[n].cache[key].Idem() == key
  {
    InvAt(s, n);
    NodeFacts(s, n, n, {});
    CachedKeys(s.nodes[n], Stewarded(s.stewards, n));
  }

  // ---- The invariant of the loop beside its cluster ----

  /** The peer is another node, which holds the event or has deleted its bucket. */
  predicate PeerHolds(w: World, p: string, e: Event) {
    p in w.system.nodes && p != w.home && HeldOrDropped(w.system.nodes[p], e)
  }

  ghost predicate GroupHeld(w: World, g: nat) {
    g in w.asked && g in w.acks.acked && forall p :: p in w.acks.acked[g] ==> PeerHolds(w, p, w.asked[g].event)
  }

  /** Whoever a group counts holds the event, or has deleted its bucket since. */
  ghost predicate CountedHold(w: World) {
    forall g :: g in w.acks.acked ==> GroupHeld(w, g)
  }

  ghost predicate AnswersTrue(w: World) {
    forall r :: r in w.answers && w.answers[r] ==>
      r in w.sent && PeerHolds(w, w.sent[r].peer, w.sent[r].event)
  }

  /** An open request carries its group's event. */
  ghost predicate Carries(w: World, r: nat) {
    && r in w.sent && r in w.acks.peerOf && w.acks.peerOf[r] == w.sent[r].peer
    && r in w.acks.requests && w.acks.requests[r] in w.asked && w.asked[w.acks.requests[r]].event == w.sent[r].event
  }

  /** A request went to another node of the cluster, about a minted event. */
  ghost predicate WellSent(w: World, r: nat) {
    && r in w.sent && r < w.acks.nextRequest && w.sent[r].peer in w.system.nodes && w.sent[r].peer != w.home
    && w.sent[r].event in w.system.minted && w.sent[r].event.seqNo >= 1
  }

  ghost predicate SentOk(w: World) {
    && (forall r :: r in w.sent ==> WellSent(w, r))
    && (forall r :: r in w.acks.requests ==> Carries(w, r))
  }

  /** Groups and replies are about what was asked. */
  ghost predicate AskedOk(w: World) {
    && w.asked.Keys == w.acks.targets.Keys
    && (forall g :: g in w.acks.groups ==> g in w.asked && w.acks.groups[g].minAcks == w.asked[g].minAcks)
    && (forall i :: 0 <= i < |w.acks.replies| ==>
          w.acks.replies[i].group in w.asked && w.acks.replies[i].info.requested == w.asked[w.acks.replies[i].group].minAcks)
  }

  ghost predicate WorldOk(w: World) {
    Inv(w.system) && Ok(w.acks) && CountedHold(w) && AnswersTrue(w) && SentOk(w) && AskedOk(w)
  }

  lemma AnswersFrame(w: World, w': World)
    requires AnswersTrue(w) && w'.answers == w.answers && w'.home == w.home
    requires forall r :: r in w.sent ==> r in w'.sent && w'.sent[r] == w.sent[r]
    requires forall n :: n in w.system.nodes ==> n in w'.system.nodes && KeepsLog(w.system.nodes[n], w'.system.nodes[n])
    ensures AnswersTrue(w')
  {
    hide KeepsLog;
    forall r | r in w'.answers && w'.answers[r]
      ensures r in w'.sent && PeerHolds(w', w'.sent[r].peer, w'.sent[r].event)
    {
      KeepsHeld(w.system.nodes[w.sent[r].peer], w'.system.nodes[w.sent[r].peer], w.sent[r].event);
    }
  }

  lemma CountedFrame(w: World, w': World)
    requires CountedHold(w) && w'.home == w.home
    requires forall g :: g in w.asked && g in w.acks.acked ==> g in w'.asked && w'.asked[g] == w.asked[g]
    requires w'.acks.acked == w.acks.acked
    requires forall n :: n in w.system.nodes ==> n in w'.system.nodes && KeepsLog(w.system.nodes[n], w'.system.nodes[n])
    ensures CountedHold(w')
  {
    hide KeepsLog;
    forall g | g in w'.acks.acked
      ensures GroupHeld(w', g)
    {
      assert GroupHeld(w, g);
      forall p | p in w'.acks.acked[g]
        ensures PeerHolds(w', p, w'.asked[g].event)
      {
        assert PeerHolds(w, p, w.asked[g].event);
        KeepsHeld(w.system.nodes[p], w'.system.nodes[p], w.asked[g].event);
      }
    }
  }

  lemma SameLogs(s: System)
    ensures forall n :: n in s.nodes ==> KeepsLog(s.nodes[n], s.nodes[n])
  {
  }

  /** The cluster moves on: what was held stays held or goes with its bucket. */
  lemma EvolvedOk(w: World, step: Step)
    requires WorldOk(w)
    ensures WorldOk(w.(system := Next(w.system, step)))
  {
    hide Inv, Ok, Next, KeepsLog;
    StepKeepsLogs(w.system, step);
    var w' := w.(system := Next(w.system, step));
    CountedFrame(w, w');
    AnswersFrame(w, w');
    hide CountedHold, AnswersTrue;
  }

  lemma HandledOk(w: World, r: nat, m: Mint)
    requires WorldOk(w) && Possible(w, Handle(r, m))
    ensures WorldOk(Act(w, Handle(r, m)))
  {
    hide Inv, Ok, Next, Enabled, Receive, CountedHold, SentOk, AskedOk;
    var (p, e) := (w.sent[r].peer, w.sent[r].event);
    EvolvedOk(w, Deliver(p, e, m));
    SentElsewhere(w, r);
    DeliverReceives(w.system, p, e, m);
    var moved := w.(system := Next(w.system, Deliver(p, e, m)));
    var w' := Act(w, Handle(r, m));
    assert w' == moved.(answers := w'.answers);
    AnswersFree(moved, w'.answers);
    OneMoreAnswer(moved, r, w'.answers[r]);
  }

  lemma SentElsewhere(w: World, r: nat)
    requires SentOk(w) && r in w.sent
    ensures w.sent[r].peer != w.home
  {
    assert WellSent(w, r);
  }

  lemma OneMoreAnswer(w: World, r: nat, answer: bool)
    requires AnswersTrue(w) && r in w.sent && (answer ==> PeerHolds(w, w.sent[r].peer, w.sent[r].event))
    ensures AnswersTrue(w.(answers := w.answers[r := answer]))
  {
  }

  lemma AnswersFree(w: World, answers: map<nat, bool>)
    requires CountedHold(w)
    ensures CountedHold(w.(answers := answers))
    ensures SentOk(w) ==> SentOk(w.(answers := answers))
    ensures AskedOk(w) ==> AskedOk(w.(answers := answers))
  {
    SameLogs(w.system);
    hide KeepsLog;
    CountedFrame(w, w.(answers := answers));
  }

  lemma DeliverReceives(s: System, n: string, e: Event, m: Mint)
    requires Enabled(s, Deliver(n, e, m))
    ensures n in s.nodes && n in Next(s, Deliver(n, e, m)).nodes
    ensures Next(s, Deliver(n, e, m)).nodes[n] == Receive(s.nodes[n], e, m).0
  {
    hide Receive, Stewards, NewIds;
  }

  lemma AskedWorldOk(w: World, e: Event, minAcks: nat, deadline: nat, peers: seq<string>)
    requires WorldOk(w) && Possible(w, Ask(e, minAcks, deadline, peers))
    ensures WorldOk(Act(w, Ask(e, minAcks, deadline, peers)))
  {
    hide Inv, Ok, HeldOrDropped, AfterAsk, SentBy, CountedHold, SentOk, AskedOk, AnswersTrue;
    AskKeeps(w.acks, minAcks, deadline, peers);
    OkNumbers(w.acks);
    AskedSentOk(w, e, minAcks, deadline, peers);
    AskedQuestionsOk(w, e, minAcks, deadline, peers);
    AskedAnswersTrue(w, e, minAcks, deadline, peers);
  }

  lemma SentOnes(w: World, e: Event, peers: seq<string>)
    requires SentOk(w)
    ensures var sent := w.sent + SentBy(w.acks.nextRequest, peers, e);
      && (forall r :: r in w.sent ==> r in sent && sent[r] == w.sent[r] && r !in Numbers(w.acks.nextRequest, |peers|))
      && (forall r :: r in Numbers(w.acks.nextRequest, |peers|) ==> r in sent && sent[r] == Sent(peers[r - w.acks.nextRequest], e))
      && (forall r :: r in sent ==> r in w.sent || r in Numbers(w.acks.nextRequest, |peers|))
  {
    hide *;
    SentBelow(w);
    SentByIs(w.acks.nextRequest, peers, e);
    Merged(w.sent, SentBy(w.acks.nextRequest, peers, e));
  }

  lemma SentBelow(w: World)
    requires SentOk(w)
    ensures forall r :: r in w.sent ==> r < w.acks.nextRequest
  {
    assert forall r :: r in w.sent ==> WellSent(w, r);
  }

  lemma Merged(a: map<nat, Sent>, b: map<nat, Sent>)
    requires forall r :: r in a ==> r !in b
    ensures forall r :: r in a ==> r in a + b && (a + b)[r] == a[r]
    ensures forall r :: r in b ==> r in a + b && (a + b)[r] == b[r]
    ensures forall r :: r in a + b ==> r in a || r in b
  {
  }

  lemma SentByIs(first: nat, peers: seq<string>, e: Event)
    ensures forall r :: r in SentBy(first, peers, e) <==> r in Numbers(first, |peers|)
    ensures forall r :: r in SentBy(first, peers, e) ==> SentBy(first, peers, e)[r] == Sent(peers[r - first], e)
  {
    hide Numbers;
  }

  lemma AskedSentOk(w: World, e: Event, minAcks: nat, deadline: nat, peers: seq<string>)
    requires SentOk(w) && AskedOk(w) && Possible(w, Ask(e, minAcks, deadline, peers))
    requires Numbered(w.acks) && forall g :: g in w.acks.targets ==> g != w.acks.nextGroup
    ensures SentOk(Act(w, Ask(e, minAcks, deadline, peers)))
  {
    hide *;
    var w' := Act(w, Ask(e, minAcks, deadline, peers));
    AskedTablesAre(w, e, minAcks, deadline, peers);
    SentOnes(w, e, peers);
    forall r | r in w'.sent
      ensures WellSent(w', r)
    {
      if r in Numbers(w.acks.nextRequest, |peers|) {
        JustSent(w, e, minAcks, deadline, peers, r);
      } else {
        OldOne(w, w', r);
      }
    }
    AskedRequests(w.acks, minAcks, deadline, peers);
    forall r | r in w'.acks.requests
      ensures Carries(w', r)
    {
      if r in Numbers(w.acks.nextRequest, |peers|) {
        JustSent(w, e, minAcks, deadline, peers, r);
      } else {
        PeersAfterAsk(w.acks, minAcks, deadline, peers);
        StillCarries(w, w', r);
      }
    }
    SentTogether(w');
  }

  lemma JustSent(w: World, e: Event, minAcks: nat, deadline: nat, peers: seq<string>, r: nat)
    requires SentOk(w) && Possible(w, Ask(e, minAcks, deadline, peers)) && r in Numbers(w.acks.nextRequest, |peers|)
    ensures WellSent(Act(w, Ask(e, minAcks, deadline, peers)), r)
    ensures Carries(Act(w, Ask(e, minAcks, deadline, peers)), r)
  {
    hide *;
    AskedTablesAre(w, e, minAcks, deadline, peers);
    SentOnes(w, e, peers);
    AskedRequests(w.acks, minAcks, deadline, peers);
    PeersAfterAsk(w.acks, minAcks, deadline, peers);
    NewOne(Act(w, Ask(e, minAcks, deadline, peers)), e, w.acks.nextGroup, r, peers[r - w.acks.nextRequest]);
  }

  /** A request just sent. */
  lemma NewOne(w: World, e: Event, g: nat, r: nat, p: string)
    requires r in w.sent && w.sent[r] == Sent(p, e) && r in w.acks.peerOf && w.acks.peerOf[r] == p
    requires r in w.acks.requests && w.acks.requests[r] == g && g in w.asked && w.asked[g].event == e
    requires p in w.system.nodes && p != w.home && e in w.system.minted && e.seqNo >= 1 && r < w.acks.nextRequest
    ensures WellSent(w, r) && Carries(w, r)
  {
  }

  /** A request sent before. */
  lemma OldOne(w: World, w': World, r: nat)
    requires SentOk(w) && r in w.sent && r in w'.sent && w'.sent[r] == w.sent[r]
    requires w'.system == w.system && w'.home == w.home && w'.acks.nextRequest >= w.acks.nextRequest
    ensures WellSent(w', r)
  {
    assert WellSent(w, r);
  }

  /** An old request is about its old group. */
  lemma StillCarries(w: World, w': World, r: nat)
    requires SentOk(w) && AskedOk(w) && Numbered(w.acks) && r in w.acks.requests && w.acks.nextGroup !in w.acks.targets
    requires r in w'.acks.requests && w'.acks.requests[r] == w.acks.requests[r]
    requires r in w.sent ==> r in w'.sent && w'.sent[r] == w.sent[r]
    requires r in w.acks.peerOf && r < w.acks.nextRequest ==> r in w'.acks.peerOf && w'.acks.peerOf[r] == w.acks.peerOf[r]
    requires forall g :: g in w.asked && g != w.acks.nextGroup ==> g in w'.asked && w'.asked[g] == w.asked[g]
    ensures Carries(w', r)
  {
    assert Carries(w, r) && WellSent(w, r) && w.acks.requests[r] in w.acks.targets;
    hide SentOk, AskedOk, Numbered;
  }

  lemma SentTogether(w: World)
    requires forall r :: r in w.sent ==> WellSent(w, r)
    requires forall r :: r in w.acks.requests ==> Carries(w, r)
    ensures SentOk(w)
  {
  }

  lemma AskedTablesAre(w: World, e: Event, minAcks: nat, deadline: nat, peers: seq<string>)
    requires Possible(w, Ask(e, minAcks, deadline, peers))
    ensures var w' := Act(w, Ask(e, minAcks, deadline, peers));
      && w'.acks == AfterAsk(w.acks, minAcks, deadline, peers)
      && w'.sent == w.sent + SentBy(w.acks.nextRequest, peers, e)
      && w'.asked == w.asked[w.acks.nextGroup := Question(e, minAcks)]
      && w'.system == w.system && w'.home == w.home && w'.acks.nextRequest == w.acks.nextRequest + |peers|
    ensures e in w.system.minted && e.seqNo >= 1
    ensures forall i :: 0 <= i < |peers| ==> peers[i] in w.system.nodes && peers[i] != w.home
  {
    assert forall i :: 0 <= i < |peers| ==> peers[i] in peers;
  }

  lemma AskedQuestionsOk(w: World, e: Event, minAcks: nat, deadline: nat, peers: seq<string>)
    requires AskedOk(w) && CountedHold(w) && Possible(w, Ask(e, minAcks, deadline, peers))
    requires Numbered(w.acks) && forall g :: g in w.acks.targets ==> g != w.acks.nextGroup
    requires forall i :: 0 <= i < |w.acks.replies| ==> w.acks.replies[i].group in w.acks.targets
    ensures AskedOk(Act(w, Ask(e, minAcks, deadline, peers)))
    ensures CountedHold(Act(w, Ask(e, minAcks, deadline, peers)))
  {
    hide Tagged, Assigned, SentBy, KeepsLog;
    var w' := Act(w, Ask(e, minAcks, deadline, peers));
    SameLogs(w.system);
    OldCounted(w, w', w.acks.nextGroup);
  }

  /** Only a group that has no acknowledgements yet changes its question. */
  lemma OldCounted(w: World, w': World, g: nat)
    requires CountedHold(w) && w'.home == w.home && w'.system == w.system
    requires w'.acks.acked == w.acks.acked[g := {}] && g in w'.asked
    requires forall h :: h in w.asked && h != g ==> h in w'.asked && w'.asked[h] == w.asked[h]
    ensures CountedHold(w')
  {
    hide HeldOrDropped;
    forall h | h in w'.acks.acked
      ensures GroupHeld(w', h)
    {
      if h != g {
        assert GroupHeld(w, h);
        assert forall p :: p in w.acks.acked[h] ==> PeerHolds(w, p, w.asked[h].event);
      }
    }
  }

  lemma AskedAnswersTrue(w: World, e: Event, minAcks: nat, deadline: nat, peers: seq<string>)
    requires AnswersTrue(w) && SentOk(w)
    ensures AnswersTrue(Act(w, Ask(e, minAcks, deadline, peers)))
  {
    SentOnes(w, e, peers);
    hide AfterAsk, SentBy, KeepsLog;
    SameLogs(w.system);
    AnswersFrame(w, Act(w, Ask(e, minAcks, deadline, peers)));
  }

  lemma OkNumbers(a: Acks)
    requires Ok(a)
    ensures Numbered(a) && forall g :: g in a.targets ==> g != a.nextGroup
    ensures forall r :: r in a.requests ==> r < a.nextRequest && a.requests[r] in a.targets
    ensures forall i :: 0 <= i < |a.replies| ==> a.replies[i].group in a.targets
  {
  }

  lemma AskedRequests(a: Acks, minAcks: nat, deadline: nat, peers: seq<string>)
    ensures var b := AfterAsk(a, minAcks, deadline, peers);
      && (forall r :: r in b.requests <==> r in a.requests || r in Numbers(a.nextRequest, |peers|))
      && (forall r :: r in Numbers(a.nextRequest, |peers|) ==> b.requests[r] == a.nextGroup)
      && (forall r :: r in a.requests && r !in Numbers(a.nextRequest, |peers|) ==> b.requests[r] == a.requests[r])
  {
    hide Assigned, Numbers;
  }

  /** Taking an answer off the books, true or not counted, keeps the loop honest. */
  lemma CountedOk(w: World, r: nat, inserted: bool)
    requires WorldOk(w) && r in w.acks.requests && w.acks.requests[r] in w.acks.groups
    requires inserted ==> r in w.answers && w.answers[r]
    ensures WorldOk(w.(acks := Counted(w.acks, r, inserted)))
  {
    hide Inv, Ok;
    CountedKeeps(w.acks, r, inserted);
    OkNumbers(w.acks);
    hide Numbered;
    var w' := w.(acks := Counted(w.acks, r, inserted));
    assert SentOk(w');
    assert AskedOk(w');
    SameLogs(w.system);
    AnswersFrame(w, w');
    CountedMore(w, w', r, inserted);
    hide CountedHold, AnswersTrue;
  }

  lemma CountedMore(w: World, w': World, r: nat, inserted: bool)
    requires CountedHold(w) && AnswersTrue(w) && SentOk(w)
    requires r in w.acks.requests && w.acks.requests[r] in w.acks.groups && (inserted ==> r in w.answers && w.answers[r])
    requires w' == w.(acks := Counted(w.acks, r, inserted))
    ensures CountedHold(w')
  {
    var g := w.acks.requests[r];
    hide HeldOrDropped;
    forall h | h in w'.acks.acked
      ensures GroupHeld(w', h)
    {
      assert GroupHeld(w, h);
      forall p | p in w'.acks.acked[h]
        ensures PeerHolds(w', p, w'.asked[h].event)
      {
        if p in w.acks.acked[h] {
          assert PeerHolds(w, p, w.asked[h].event);
        } else {
          assert h == g && inserted && p == w.acks.peerOf[r];
        }
      }
    }
  }

  lemma SettledOk(w: World, g: nat)
    requires WorldOk(w) && g in w.acks.groups
    ensures WorldOk(w.(acks := Settled(w.acks, g)))
  {
    hide Inv, Ok;
    SettledKeeps(w.acks, g);
    var w' := w.(acks := Settled(w.acks, g));
    SameLogs(w.system);
    AnswersFrame(w, w');
    CountedFrame(w, w');
    hide CountedHold, AnswersTrue;
    forall i | 0 <= i < |w'.acks.replies|
      ensures w'.acks.replies[i].group in w.asked
      ensures w'.acks.replies[i].info.requested == w.asked[w'.acks.replies[i].group].minAcks
    {
      if i < |w.acks.replies| {
        assert w'.acks.replies[i] == w.acks.replies[i];
      }
    }
  }

  lemma ForgottenOk(w: World, r: nat)
    requires WorldOk(w) && r in w.acks.requests && w.acks.requests[r] !in w.acks.groups
    ensures WorldOk(w.(acks := w.acks.(requests := w.acks.requests - {r})))
  {
    hide Inv, Ok;
    LateKeeps(w.acks, r);
    var w' := w.(acks := w.acks.(requests := w.acks.requests - {r}));
    SameLogs(w.system);
    AnswersFrame(w, w');
    CountedFrame(w, w');
    hide CountedHold, AnswersTrue;
    assert SentOk(w') && AskedOk(w');
  }

  lemma RespondedOk(w: World, r: nat, inserted: bool)
    requires WorldOk(w) && (inserted ==> r in w.answers && w.answers[r])
    ensures WorldOk(w.(acks := AfterResponse(w.acks, r, inserted)))
    ensures WorldOk(w.(acks := AfterFailure(w.acks, r)))
  {
    hide WorldOk, Settled;
    if r in w.acks.requests {
      var g := w.acks.requests[r];
      if g in w.acks.groups {
        CountedOk(w, r, inserted);
        CountedOk(w, r, false);
        SettledIfOk(w.(acks := Counted(w.acks, r, inserted)), g);
        SettledIfOk(w.(acks := Counted(w.acks, r, false)), g);
      } else {
        ForgottenOk(w, r);
      }
    }
  }

  lemma SettledIfOk(w: World, g: nat)
    requires WorldOk(w)
    ensures g in w.acks.groups ==> WorldOk(w.(acks := Settled(w.acks, g)))
  {
    hide WorldOk;
    if g in w.acks.groups {
      SettledOk(w, g);
    }
  }

  lemma ActKeeps(w: World, action: Action)
    requires WorldOk(w)
    ensures WorldOk(Act(w, action)) && Act(w, action).home == w.home
  {
    hide WorldOk, Next, AfterAsk, AfterResponse, AfterFailure, Settled, Enabled, Receive;
    if Possible(w, action) {
      match action
      case Evolve(step) => EvolvedOk(w, step);
      case Ask(e, minAcks, deadline, peers) => AskedWorldOk(w, e, minAcks, deadline, peers);
      case Handle(r, m) => HandledOk(w, r, m);
      case Response(r) => RespondedOk(w, r, w.answers[r]);
      case Failure(r) => RespondedOk(w, r, false);
      case Expire(g, _) => SettledOk(w, g);
    }
  }

  /** A fresh cluster, and a loop that has asked nothing. */
  ghost predicate Started(w: World) {
    Initial(w.system) && w.acks == NO_ACKS && w.asked == map[] && w.sent == map[] && w.answers == map[]
  }

  lemma {:induction false} RunsKeepWorld(w: World, actions: seq<Action>)
    requires Started(w)
    ensures WorldOk(RunAll(w, actions)) && RunAll(w, actions).home == w.home
    decreases |actions|
  {
    if actions == [] {
      hide Inv;
      InitialInv(w.system);
    } else {
      hide WorldOk, Started, Act;
      RunsKeepWorld(w, actions[..|actions| - 1]);
      ActKeeps(RunAll(w, actions[..|actions| - 1]), actions[|actions| - 1]);
    }
  }

  // ---- Replies come at once ----

  lemma ActPrompt(w: World, action: Action)
    requires WorldOk(w) && Prompt(w.acks)
    ensures Prompt(Act(w, action).acks)
  {
    hide Inv, Prompt, Next, AfterAsk, AfterResponse, AfterFailure, Settled, Enabled, Receive, CountedHold, AnswersTrue,
         SentOk, AskedOk;
    OkNumbers(w.acks);
    hide Ok;
    if Possible(w, action) {
      match action
      case Evolve(step) =>
      case Ask(e, minAcks, deadline, peers) => AskPrompt(w.acks, minAcks, deadline, peers);
      case Handle(r, m) =>
      case Response(r) => ResponsePrompt(w.acks, r, w.answers[r]);
      case Failure(r) => ResponsePrompt(w.acks, r, false);
      case Expire(g, now) =>
        PromptElsewhere(w.acks, g);
        SettledPrompt(w.acks, g);
    }
  }

  lemma PromptElsewhere(a: Acks, g: nat)
    requires Prompt(a)
    ensures forall h :: h in a.targets && h != g ==> PromptAt(a, h)
  {
  }

  lemma {:induction false} RunsPrompt(w: World, actions: seq<Action>)
    requires Started(w)
    ensures Prompt(RunAll(w, actions).acks)
    decreases |actions|
  {
    if actions != [] {
      hide WorldOk, Started, Act, Prompt;
      RunsKeepWorld(w, actions[..|actions| - 1]);
      RunsPrompt(w, actions[..|actions| - 1]);
      ActPrompt(RunAll(w, actions[..|actions| - 1]), actions[|actions| - 1]);
    }
  }

  /** In every run: a group that was asked and has no reply has fewer
      acknowledging peers than it wants (or none yet), and a request of it is
      still open. So once every request of a group was answered or has failed,
      the group has its reply. */
  lemma UnansweredStillWaits(start: World, actions: seq<Action>, g: nat)
    requires Started(start) && g in RunAll(start, actions).asked
    ensures var w := RunAll(start, actions);
      && g in w.acks.acked
      && ((forall i :: 0 <= i < |w.acks.replies| ==> w.acks.replies[i].group != g) ==>
            && (|w.acks.acked[g]| < w.asked[g].minAcks || w.acks.acked[g] == {})
            && exists r :: r in w.acks.requests && w.acks.requests[r] == g)
  {
    hide *;
    RunsKeepWorld(start, actions);
    RunsPrompt(start, actions);
    GroupStillWaits(RunAll(start, actions), g);
  }

  lemma GroupStillWaits(w: World, g: nat)
    requires WorldOk(w) && Prompt(w.acks) && g in w.asked
    ensures g in w.acks.acked
    ensures (forall i :: 0 <= i < |w.acks.replies| ==> w.acks.replies[i].group != g) ==>
      && (|w.acks.acked[g]| < w.asked[g].minAcks || w.acks.acked[g] == {})
      && exists r :: r in w.acks.requests && w.acks.requests[r] == g
  {
    hide Inv, CountedHold, AnswersTrue, SentOk;
    assert PromptAt(w.acks, g);
    if g in w.acks.groups {
      assert PendingOk(w.acks, g);
      var open := Open(w.acks, g);
      assert |open| > 0;
      var r :| r in open;
      assert r in w.acks.requests && w.acks.requests[r] == g;
    }
  }

  /** In every run: the acknowledgement that completes a group's quorum brings
      its reply in the same step, without a timeout, whoever else is still to
      answer. An answer that does not complete it brings one only if it is the
      last, and then the reply says timeout. */
  lemma QuorumRepliesAtOnce(start: World, actions: seq<Action>, r: nat)
    requires Started(start) && Possible(RunAll(start, actions), Response(r))
    requires r in RunAll(start, actions).acks.requests
    requires RunAll(start, actions).acks.requests[r] in RunAll(start, actions).acks.groups
    ensures var w := RunAll(start, actions);
      var g := w.acks.requests[r];
      var after := RunAll(start, actions + [Response(r)]).acks;
      && g in w.asked && g in w.acks.acked
      && var received := |w.acks.acked[g]| + (if w.answers[r] then 1 else 0);
         var last := forall q :: q in w.acks.requests && w.acks.requests[q] == g ==> q == r;
         if received >= w.asked[g].minAcks || last
         then after.replies == w.acks.replies + [Reply(g, AckInfo(received, w.asked[g].minAcks, received < w.asked[g].minAcks))]
         else after.replies == w.acks.replies && g in after.groups
  {
    hide *;
    RunsKeepWorld(start, actions);
    OneMoreAction(start, actions, Response(r));
    var w := RunAll(start, actions);
    GroupAsked(w, w.acks.requests[r]);
    RespondedIs(w, r);
    RespondedReplies(w.acks, r, w.answers[r]);
  }

  lemma OneMoreAction(start: World, actions: seq<Action>, action: Action)
    ensures RunAll(start, actions + [action]) == Act(RunAll(start, actions), action)
  {
    assert (actions + [action])[..|actions + [action]| - 1] == actions;
    hide Act;
  }

  lemma GroupAsked(w: World, g: nat)
    requires WorldOk(w) && g in w.acks.groups
    ensures Ok(w.acks) && g in w.asked && w.acks.groups[g].minAcks == w.asked[g].minAcks
  {
    hide Inv, CountedHold, AnswersTrue, SentOk, Ok;
  }

  lemma RespondedReplies(a: Acks, r: nat, answer: bool)
    requires Ok(a) && r in a.requests && a.requests[r] in a.groups
    ensures var g := a.requests[r];
      && g in a.acked
      && var received := |a.acked[g]| + (if answer then 1 else 0);
         var last := forall q :: q in a.requests && a.requests[q] == g ==> q == r;
         var (minAcks, after) := (a.groups[g].minAcks, AfterResponse(a, r, answer));
         if received >= minAcks || last
         then after.replies == a.replies + [Reply(g, AckInfo(received, minAcks, received < minAcks))]
         else after.replies == a.replies && g in after.groups
  {
    var g := a.requests[r];
    ResponseIs(a, r, answer);
    assert PendingOk(a, g);
    OnlyOpen(a, r);
    hide Ok, AfterResponse, Open;
  }

  lemma RespondedIs(w: World, r: nat)
    requires Possible(w, Response(r))
    ensures r in w.answers && Act(w, Response(r)).acks == AfterResponse(w.acks, r, w.answers[r])
  {
    hide AfterResponse;
  }

  lemma OnlyOpen(a: Acks, r: nat)
    requires r in a.requests
    ensures |Open(a, a.requests[r])| == 1 <==> forall q :: q in a.requests && a.requests[q] == a.requests[r] ==> q == r
  {
    var open := Open(a, a.requests[r]);
    assert r in open;
    assert forall q :: q in a.requests && a.requests[q] == a.requests[r] <==> q in open;
    var others := open - {r};
    forall q | q in open
      ensures q == r || q in others
    {
    }
    forall q | q in others
      ensures q in open && q != r
    {
    }
    if others != {} {
      var q :| q in others;
    }
    assert |others| == |open| - 1;
  }

  // ---- What a client may conclude ----

  /** The peers of a group that hold its event now, or have deleted its bucket. */
  ghost function Holders(w: World, g: nat): set<string>
    requires g in w.acks.targets && g in w.asked
  {
    set p | p in w.acks.targets[g] && PeerHolds(w, p, w.asked[g].event)
  }

  lemma SubsetSize(a: set<string>, b: set<string>)
    requires a <= b
    ensures |a| <= |b|
  {
    assert b == a + (b - a);
  }

  /** In every run: whatever the loop answered without a timeout, at least as
      many distinct other peers as were wanted hold the event, then and ever
      after, unless they delete its bucket; and no group is answered twice. */
  lemma RepliesMeanQuorum(start: World, actions: seq<Action>, i: nat)
    requires Started(start) && i < |RunAll(start, actions).acks.replies|
    ensures var w := RunAll(start, actions);
      var reply := w.acks.replies[i];
      && reply.group in w.asked && reply.group in w.acks.targets
      && reply.info.requested == w.asked[reply.group].minAcks
      && reply.group in w.acks.acked && w.acks.acked[reply.group] <= Holders(w, reply.group)
      && (reply.info.timeout <==> |w.acks.acked[reply.group]| < reply.info.requested)
      && (!reply.info.timeout ==> |Holders(w, reply.group)| >= reply.info.requested)
      && (forall j :: 0 <= j < |w.acks.replies| && j != i ==> w.acks.replies[j].group != reply.group)
  {
    hide *;
    RunsKeepWorld(start, actions);
    ReplyHeld(RunAll(start, actions), i);
  }

  lemma ReplyHeld(w: World, i: nat)
    requires WorldOk(w) && i < |w.acks.replies|
    ensures var reply := w.acks.replies[i];
      && reply.group in w.asked && reply.group in w.acks.targets
      && reply.info.requested == w.asked[reply.group].minAcks
      && reply.group in w.acks.acked && w.acks.acked[reply.group] <= Holders(w, reply.group)
      && (reply.info.timeout <==> |w.acks.acked[reply.group]| < reply.info.requested)
      && (!reply.info.timeout ==> |Holders(w, reply.group)| >= reply.info.requested)
      && (forall j :: 0 <= j < |w.acks.replies| && j != i ==> w.acks.replies[j].group != reply.group)
  {
    hide Inv, Ok, SentOk, AnswersTrue, CountedHold, Holders;
    ReplyCounts(w.acks, i);
    var g := w.acks.replies[i].group;
    CountedAreHolders(w, g);
    SubsetSize(w.acks.acked[g], Holders(w, g));
  }

  lemma CountedAreHolders(w: World, g: nat)
    requires CountedHold(w) && g in w.acks.acked && g in w.acks.targets && g in w.asked
    requires w.acks.acked[g] <= w.acks.targets[g]
    ensures w.acks.acked[g] <= Holders(w, g)
  {
    assert GroupHeld(w, g);
  }

  lemma ReplyCounts(a: Acks, i: nat)
    requires Ok(a) && i < |a.replies|
    ensures var g := a.replies[i].group;
      && g in a.acked && g in a.targets && a.acked[g] <= a.targets[g]
      && (!a.replies[i].info.timeout <==> |a.acked[g]| >= a.replies[i].info.requested)
      && (forall j :: 0 <= j < |a.replies| && j != i ==> a.replies[j].group != g)
  {
  }

  /** `AckInfo::fire_and_forget`, the answer when no acknowledgement is wanted. */
  const FIRE_AND_FORGET := AckInfo(0, 0, false)

  /** The create response, whose acknowledgement part is aggregated over all
      emitted events: without a timeout, each of them is held by at least the
      requested number of distinct other peers. Each event's part is a reply to
      the group that asked about it, or the immediate timeout of a node that
      has no peers; a request that wants no acknowledgement asks nobody. */
  lemma ResponseMeansQuorum(start: World, actions: seq<Action>, emitted: seq<Event>, groups: seq<nat>,
                            parts: seq<AckInfo>, minAcks: nat)
    requires Started(start) && |groups| == |parts| == |emitted|
    requires forall k :: 0 <= k < |parts| ==>
      || (minAcks == 0 && parts[k] == FIRE_AND_FORGET)
      || parts[k] == AckInfo(0, minAcks, true)
      || (Reply(groups[k], parts[k]) in RunAll(start, actions).acks.replies
          && groups[k] in RunAll(start, actions).asked
          && RunAll(start, actions).asked[groups[k]] == Question(emitted[k], minAcks))
    requires !exists k :: 0 <= k < |parts| && parts[k].timeout
    ensures var w := RunAll(start, actions);
      forall k :: 0 <= k < |emitted| && !(minAcks == 0 && parts[k] == FIRE_AND_FORGET) ==>
        && groups[k] in w.asked && groups[k] in w.acks.targets && w.asked[groups[k]].event == emitted[k]
        && |Holders(w, groups[k])| >= minAcks
  {
    var w := RunAll(start, actions);
    forall k | 0 <= k < |emitted| && !(minAcks == 0 && parts[k] == FIRE_AND_FORGET)
      ensures groups[k] in w.asked && groups[k] in w.acks.targets && w.asked[groups[k]].event == emitted[k]
      ensures |Holders(w, groups[k])| >= minAcks
    {
      assert Reply(groups[k], parts[k]) in w.acks.replies;
      var i :| 0 <= i < |w.acks.replies| && w.acks.replies[i] == Reply(groups[k], parts[k]);
      hide RunAll, Started, Holders;
      RepliesMeanQuorum(start, actions, i);
    }
  }

  /** The handler's preconditions are met whenever a peer of a run handles a request. */
  lemma HandlerFits(start: World, actions: seq<Action>, r: nat, m: Mint)
    requires Started(start) && Possible(RunAll(start, actions), Handle(r, m))
    ensures var w := RunAll(start, actions);
      var (v, e) := (w.system.nodes[w.sent[r].peer], w.sent[r].event);
      && e.seqNo >= 1 && (e.Key() in v.applied ==> v.applied[e.Key()] == e)
      && (Accepts(v, e) ==> Deliverable(v, e) && MintFresh(Admit(v, e), m))
  {
    var w := RunAll(start, actions);
    RunsKeepWorld(start, actions);
    var (p, e) := (w.sent[r].peer, w.sent[r].event);
    hide RunAll, Ok, CountedHold, AnswersTrue, AskedOk;
    InvAt(w.system, p);
    NodeFacts(w.system, p, p, {});
    OneEventPerKey(w.system, p, e);
    if Accepts(w.system.nodes[p], e) {
      MintedIsDeliverable(w.system, p, e);
      NodeMints(w.system, p, m);
      AdmitFresh(w.system.nodes[p], e, m);
    }
  }

  lemma AdmitFresh(r: Replica, e: Event, m: Mint)
    requires Accepts(r, e) && MintFresh(r, m) && m.first != e.id && m.second != e.id && m.third != e.id
    ensures MintFresh(Admit(r, e), m)
  {
  }

  lemma OneEventPerKey(s: System, n: string, e: Event)
    requires InvBut(s, n, {}) && n in s.nodes && e in s.minted
    ensures e.Key() in s.nodes[n].applied ==> s.nodes[n].applied[e.Key()] == e
  {
    NodeFacts(s, n, n, {});
    assert UniqueMints(s.minted);
    KeyIsOwn(s.nodes[n], e.Key());
    hide Knows, Valid;
  }

  lemma KeyIsOwn(r: Replica, k: OriginKey)
    requires Valid(r)
    ensures k in r.applied ==> r.applied[k].Key() == k
  {
  }
}
