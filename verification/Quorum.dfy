/** Quorum acknowledgements: the swarm loop's pending groups, and what a create
    response may claim about its peers. */
module Quorum {
  import opened Types

  datatype AckInfo = AckInfo(received: nat, requested: nat, timeout: bool)

  datatype PendingAck = PendingAck(minAcks: nat, received: nat, outstanding: nat, deadline: nat)

  datatype Reply = Reply(group: nat, info: AckInfo)

  /** The loop's tables, and three records of the past: which peer each request
      went to, which peers each group asked, and which of them said, while the
      group was pending, that they hold the event. */
  datatype Acks = Acks(
    nextGroup: nat,
    nextRequest: nat,
    groups: map<nat, PendingAck>,
    requests: map<nat, nat>,
    replies: seq<Reply>,
    peerOf: map<nat, string>,
    targets: map<nat, set<string>>,
    acked: map<nat, set<string>>)

  const NO_ACKS := Acks(0, 0, map[], map[], [], map[], map[], map[])

  function Answer(p: PendingAck): AckInfo {
    AckInfo(p.received, p.minAcks, p.received < p.minAcks)
  }

  // ---- What each loop event does ----

  /** `count` numbers from `first` on. */
  function Numbers(first: nat, count: nat): (ids: set<nat>)
    ensures forall r :: r in ids <==> first <= r < first + count
    ensures |ids| == count
  {
    if count == 0 then {} else Numbers(first, count - 1) + {first + count - 1}
  }

  function Tagged(first: nat, count: nat, g: nat): map<nat, nat> {
    map r | r in Numbers(first, count) :: g
  }

  function Assigned(first: nat, peers: seq<string>): map<nat, string> {
    map r | r in Numbers(first, |peers|) :: peers[r - first]
  }

  /** `RequestAcks` with at least one connected peer. */
  function AfterAsk(a: Acks, minAcks: nat, deadline: nat, peers: seq<string>): Acks {
    var g, first := a.nextGroup, a.nextRequest;
    Acks(g + 1, first + |peers|,
         a.groups[g := PendingAck(minAcks, 0, |peers|, deadline)],
         a.requests + Tagged(first, |peers|, g),
         a.replies,
         a.peerOf + Assigned(first, peers),
         a.targets[g := set i | 0 <= i < |peers| :: peers[i]],
         a.acked[g := {}])
  }

  function Settled(a: Acks, g: nat): Acks
    requires g in a.groups
  {
    a.(groups := a.groups - {g}, replies := a.replies + [Reply(g, Answer(a.groups[g]))])
  }

  function Counted(a: Acks, r: nat, inserted: bool): Acks
    requires r in a.requests && a.requests[r] in a.groups
  {
    var g := a.requests[r];
    var p := a.groups[g];
    var left := if p.outstanding > 0 then p.outstanding - 1 else 0;
    a.(requests := a.requests - {r},
       groups := a.groups[g := PendingAck(p.minAcks, p.received + (if inserted then 1 else 0), left, p.deadline)],
       acked := if inserted && g in a.acked && r in a.peerOf then a.acked[g := a.acked[g] + {a.peerOf[r]}] else a.acked)
  }

  /** A peer's response: late ones, for groups already answered, count for nothing. */
  function AfterResponse(a: Acks, r: nat, inserted: bool): Acks {
    if r !in a.requests then a
    else if a.requests[r] !in a.groups then a.(requests := a.requests - {r})
    else
      var g := a.requests[r];
      var counted := Counted(a, r, inserted);
      if counted.groups[g].received >= counted.groups[g].minAcks || counted.groups[g].outstanding == 0
      then Settled(counted, g) else counted
  }

  /** A request that failed. */
  function AfterFailure(a: Acks, r: nat): Acks {
    if r !in a.requests then a
    else if a.requests[r] !in a.groups then a.(requests := a.requests - {r})
    else
      var g := a.requests[r];
      var counted := Counted(a, r, false);
      if counted.groups[g].outstanding == 0 then Settled(counted, g) else counted
  }

  /** Groups whose deadline has passed. */
  function Expired(groups: map<nat, PendingAck>, now: nat): set<nat> {
    set g | g in groups && groups[g].deadline <= now
  }

  // ---- What holds between loop events ----

  ghost function Open(a: Acks, g: nat): set<nat> {
    set r | r in a.requests && a.requests[r] == g
  }

  /** One group, pending or answered. */
  ghost predicate GroupOk(a: Acks, g: nat) {
    && g in a.targets && g in a.acked && a.acked[g] <= a.targets[g]
    && (forall r :: r in Open(a, g) ==> r in a.peerOf && a.peerOf[r] in a.targets[g])
  }

  /** A pending group counts its distinct acknowledging peers and its open requests. */
  ghost predicate PendingOk(a: Acks, g: nat) {
    && g in a.groups && g in a.acked && g in a.targets
    && a.groups[g].received == |a.acked[g]|
    && a.groups[g].outstanding == |Open(a, g)|
    && a.groups[g].received + a.groups[g].outstanding <= |a.targets[g]|
    && (forall r :: r in Open(a, g) ==> r in a.peerOf && a.peerOf[r] !in a.acked[g])
    && (forall q, r :: q in Open(a, g) && r in Open(a, g) && a.peerOf[q] == a.peerOf[r] ==> q == r)
  }

  /** A reply says how many distinct peers acknowledged, and no group replies twice. */
  ghost predicate RepliesOk(a: Acks) {
    && (forall i :: 0 <= i < |a.replies| ==>
          && a.replies[i].group in a.acked && a.replies[i].group !in a.groups
          && a.replies[i].info.received == |a.acked[a.replies[i].group]|
          && a.replies[i].info.timeout == (a.replies[i].info.received < a.replies[i].info.requested))
    && (forall i, j :: 0 <= i < j < |a.replies| ==> a.replies[i].group != a.replies[j].group)
  }

  ghost predicate Numbered(a: Acks) {
    && a.targets.Keys == a.acked.Keys && a.groups.Keys <= a.targets.Keys
    && (forall g :: g in a.targets ==> g < a.nextGroup)
    && (forall r :: r in a.requests ==> r < a.nextRequest && a.requests[r] in a.targets)
  }

  ghost predicate Ok(a: Acks) {
    && Numbered(a) && RepliesOk(a)
    && (forall g :: g in a.targets ==> GroupOk(a, g))
    && (forall g :: g in a.groups ==> PendingOk(a, g))
  }

  // ---- Settling ----

  lemma SettledKeeps(a: Acks, g: nat)
    requires Ok(a) && g in a.groups
    ensures Ok(Settled(a, g))
  {
    var b := Settled(a, g);
    assert PendingOk(a, g);
    forall h
      ensures Open(b, h) == Open(a, h)
    {
    }
    forall h | h in b.targets
      ensures GroupOk(b, h)
    {
      assert GroupOk(a, h);
    }
    forall h | h in b.groups
      ensures PendingOk(b, h)
    {
      assert PendingOk(a, h);
    }
    hide Open, GroupOk, PendingOk;
  }

  // ---- Counting one answer ----

  lemma OpenLess(a: Acks, r: nat, inserted: bool, h: nat)
    requires r in a.requests && a.requests[r] in a.groups
    ensures Open(Counted(a, r, inserted), h) == Open(a, h) - {r}
    ensures r in Open(a, h) <==> h == a.requests[r]
  {
  }

  lemma CountedGroup(a: Acks, r: nat, inserted: bool)
    requires Ok(a) && r in a.requests && a.requests[r] in a.groups
    ensures PendingOk(Counted(a, r, inserted), a.requests[r]) && GroupOk(Counted(a, r, inserted), a.requests[r])
  {
    var g := a.requests[r];
    var b := Counted(a, r, inserted);
    OpenLess(a, r, inserted, g);
    assert PendingOk(a, g) && GroupOk(a, g);
    hide Numbered, RepliesOk;
    var open := Open(a, g);
    hide Open;
    assert r in open && |open - {r}| == |open| - 1;
    if inserted {
      assert a.peerOf[r] !in a.acked[g];
      assert |a.acked[g] + {a.peerOf[r]}| == |a.acked[g]| + 1;
    }
  }

  lemma CountedOther(a: Acks, r: nat, inserted: bool, h: nat)
    requires Ok(a) && r in a.requests && a.requests[r] in a.groups && h != a.requests[r]
    ensures h in a.targets ==> GroupOk(Counted(a, r, inserted), h)
    ensures h in a.groups ==> PendingOk(Counted(a, r, inserted), h)
  {
    OpenLess(a, r, inserted, h);
    assert h in a.targets ==> GroupOk(a, h);
    assert h in a.groups ==> PendingOk(a, h);
    hide Open, Ok, Numbered, RepliesOk;
    var b := Counted(a, r, inserted);
    assert Open(b, h) == Open(a, h) - {r} && r !in Open(a, h);
    assert Open(b, h) == Open(a, h);
    assert b.targets == a.targets && b.peerOf == a.peerOf;
    assert h in a.acked <==> h in b.acked;
    assert h in a.acked ==> b.acked[h] == a.acked[h];
    assert h in a.groups <==> h in b.groups;
    assert h in a.groups ==> b.groups[h] == a.groups[h];
    hide Counted;
  }

  lemma CountedKeeps(a: Acks, r: nat, inserted: bool)
    requires Ok(a) && r in a.requests && a.requests[r] in a.groups
    ensures Ok(Counted(a, r, inserted))
  {
    hide GroupOk, PendingOk, Open;
    var b := Counted(a, r, inserted);
    forall h | h in b.targets
      ensures GroupOk(b, h)
    {
      if h == a.requests[r] { CountedGroup(a, r, inserted); } else { CountedOther(a, r, inserted, h); }
    }
    forall h | h in b.groups
      ensures PendingOk(b, h)
    {
      if h == a.requests[r] { CountedGroup(a, r, inserted); } else { CountedOther(a, r, inserted, h); }
    }
  }

  /** Forgetting a late request changes nothing that matters. */
  lemma LateKeeps(a: Acks, r: nat)
    requires Ok(a) && r in a.requests && a.requests[r] !in a.groups
    ensures Ok(a.(requests := a.requests - {r}))
  {
    var b := a.(requests := a.requests - {r});
    forall h
      ensures Open(b, h) <= Open(a, h) && (h in a.groups ==> Open(b, h) == Open(a, h))
    {
    }
    forall h | h in b.targets
      ensures GroupOk(b, h)
    {
      assert GroupOk(a, h);
    }
    forall h | h in b.groups
      ensures PendingOk(b, h)
    {
      assert PendingOk(a, h);
    }
    hide Open, GroupOk, PendingOk;
  }

  lemma ResponseKeeps(a: Acks, r: nat, inserted: bool)
    requires Ok(a)
    ensures Ok(AfterResponse(a, r, inserted)) && Ok(AfterFailure(a, r))
  {
    hide Ok;
    if r in a.requests {
      if a.requests[r] in a.groups {
        CountedKeeps(a, r, inserted);
        CountedKeeps(a, r, false);
        SettleIf(Counted(a, r, inserted), a.requests[r]);
        SettleIf(Counted(a, r, false), a.requests[r]);
      } else {
        LateKeeps(a, r);
      }
    }
  }

  lemma SettleIf(a: Acks, g: nat)
    requires Ok(a)
    ensures g in a.groups ==> Ok(Settled(a, g))
  {
    hide Ok;
    if g in a.groups {
      SettledKeeps(a, g);
    }
  }

  // ---- Answering at once ----

  ghost predicate Replied(a: Acks, g: nat) {
    exists i :: 0 <= i < |a.replies| && a.replies[i].group == g
  }

  /** A group is pending only while it lacks acknowledgements and a request is
      still open; otherwise it was answered. (A group that wants none waits for
      the first.) */
  ghost predicate PromptAt(a: Acks, g: nat) {
    if g in a.groups
    then a.groups[g].outstanding > 0 && (a.groups[g].received < a.groups[g].minAcks || a.groups[g].received == 0)
    else Replied(a, g)
  }

  ghost predicate Prompt(a: Acks) {
    forall g :: g in a.targets ==> PromptAt(a, g)
  }

  lemma RepliedMore(a: Acks, b: Acks, g: nat)
    requires Replied(a, g) && a.replies <= b.replies
    ensures Replied(b, g)
  {
    var i :| 0 <= i < |a.replies| && a.replies[i].group == g;
    assert b.replies[i] == a.replies[i];
  }

  lemma PromptFrame(a: Acks, b: Acks, g: nat)
    requires PromptAt(a, g) && a.replies <= b.replies
    requires (g in a.groups <==> g in b.groups) && (g in a.groups ==> b.groups[g] == a.groups[g])
    ensures PromptAt(b, g)
  {
    if g !in a.groups { RepliedMore(a, b, g); }
  }

  lemma SettledReplies(a: Acks, g: nat)
    requires g in a.groups
    ensures Replied(Settled(a, g), g) && a.replies <= Settled(a, g).replies
  {
    assert Settled(a, g).replies[|a.replies|].group == g;
  }

  lemma SettledPrompt(a: Acks, g: nat)
    requires g in a.groups && forall h :: h in a.targets && h != g ==> PromptAt(a, h)
    ensures Prompt(Settled(a, g))
  {
    SettledReplies(a, g);
    forall h | h in a.targets
      ensures PromptAt(Settled(a, g), h)
    {
      if h != g { PromptFrame(a, Settled(a, g), h); }
    }
  }

  lemma CountedPrompt(a: Acks, r: nat, inserted: bool)
    requires Prompt(a) && r in a.requests && a.requests[r] in a.groups
    ensures forall h :: h in a.targets && h != a.requests[r] ==> PromptAt(Counted(a, r, inserted), h)
  {
    forall h | h in a.targets && h != a.requests[r]
      ensures PromptAt(Counted(a, r, inserted), h)
    {
      PromptFrame(a, Counted(a, r, inserted), h);
    }
  }

  lemma ResponsePrompt(a: Acks, r: nat, inserted: bool)
    requires Prompt(a) && a.groups.Keys <= a.targets.Keys
    ensures Prompt(AfterResponse(a, r, inserted)) && Prompt(AfterFailure(a, r))
  {
    if r in a.requests && a.requests[r] in a.groups {
      var g := a.requests[r];
      assert PromptAt(a, g);
      CountedPrompt(a, r, inserted);
      CountedPrompt(a, r, false);
      SettledPrompt(Counted(a, r, inserted), g);
      SettledPrompt(Counted(a, r, false), g);
      hide PromptAt;
      assert PromptAt(AfterResponse(a, r, inserted), g) by { StillWaits(a, r, inserted); }
      assert PromptAt(AfterFailure(a, r), g) by { StillWaits(a, r, inserted); }
    } else {
      forall h | h in a.targets
        ensures PromptAt(AfterResponse(a, r, inserted), h) && PromptAt(AfterFailure(a, r), h)
      {
        PromptFrame(a, AfterResponse(a, r, inserted), h);
        PromptFrame(a, AfterFailure(a, r), h);
      }
    }
  }

  lemma StillWaits(a: Acks, r: nat, inserted: bool)
    requires r in a.requests && a.requests[r] in a.groups && PromptAt(a, a.requests[r])
    ensures PromptAt(AfterResponse(a, r, inserted), a.requests[r]) && PromptAt(AfterFailure(a, r), a.requests[r])
  {
    var g := a.requests[r];
    SettledReplies(Counted(a, r, inserted), g);
    SettledReplies(Counted(a, r, false), g);
  }

  lemma AskPrompt(a: Acks, minAcks: nat, deadline: nat, peers: seq<string>)
    requires Prompt(a) && a.nextGroup !in a.targets && peers != []
    ensures Prompt(AfterAsk(a, minAcks, deadline, peers))
  {
    hide Tagged, Assigned;
    forall h | h in AfterAsk(a, minAcks, deadline, peers).targets
      ensures PromptAt(AfterAsk(a, minAcks, deadline, peers), h)
    {
      if h != a.nextGroup { PromptFrame(a, AfterAsk(a, minAcks, deadline, peers), h); }
    }
  }

  /** A pending group that gets an answer has that request open. */
  lemma OpenCounts(a: Acks, r: nat)
    requires Ok(a) && r in a.requests && a.requests[r] in a.groups
    ensures a.groups[a.requests[r]].outstanding > 0
  {
    assert PendingOk(a, a.requests[r]) && r in Open(a, a.requests[r]);
  }

  /** A response, told by the tables alone. */
  lemma ResponseIs(a: Acks, r: nat, inserted: bool)
    requires Ok(a)
    ensures var b := AfterResponse(a, r, inserted);
      && b.requests == a.requests - {r}
      && (r !in a.requests || a.requests[r] !in a.groups ==> b.groups == a.groups && b.replies == a.replies)
      && (r in a.requests && a.requests[r] in a.groups ==>
            var g := a.requests[r];
            var p := a.groups[g];
            var received, left := p.received + (if inserted then 1 else 0), p.outstanding - 1;
            if received >= p.minAcks || left == 0 then
              && b.groups == a.groups - {g}
              && b.replies == a.replies + [Reply(g, AckInfo(received, p.minAcks, received < p.minAcks))]
            else
              left > 0 && b.groups == a.groups[g := PendingAck(p.minAcks, received, left, p.deadline)] && b.replies == a.replies)
  {
    if r in a.requests && a.requests[r] in a.groups {
      OpenCounts(a, r);
      assert a.groups[a.requests[r] := Counted(a, r, inserted).groups[a.requests[r]]] - {a.requests[r]} == a.groups - {a.requests[r]};
    }
    hide Ok;
  }

  lemma FailureIs(a: Acks, r: nat)
    requires Ok(a)
    ensures var b := AfterFailure(a, r);
      && b.requests == a.requests - {r}
      && (r !in a.requests || a.requests[r] !in a.groups ==> b.groups == a.groups && b.replies == a.replies)
      && (r in a.requests && a.requests[r] in a.groups ==>
            var g := a.requests[r];
            var p := a.groups[g];
            if p.outstanding == 1 then
              && b.groups == a.groups - {g}
              && b.replies == a.replies + [Reply(g, AckInfo(p.received, p.minAcks, p.received < p.minAcks))]
            else
              p.outstanding > 1 && b.groups == a.groups[g := p.(outstanding := p.outstanding - 1)] && b.replies == a.replies)
  {
    if r in a.requests && a.requests[r] in a.groups {
      OpenCounts(a, r);
      assert a.groups[a.requests[r] := Counted(a, r, false).groups[a.requests[r]]] - {a.requests[r]} == a.groups - {a.requests[r]};
    }
    hide Ok;
  }

  // ---- Asking ----

  predicate Distinct(peers: seq<string>) {
    forall i, j :: 0 <= i < j < |peers| ==> peers[i] != peers[j]
  }

  lemma {:induction false} DistinctCount(peers: seq<string>)
    requires Distinct(peers)
    ensures |set i | 0 <= i < |peers| :: peers[i]| == |peers|
    decreases |peers|
  {
    if peers != [] {
      var rest := peers[..|peers| - 1];
      DistinctCount(rest);
      assert (set i | 0 <= i < |peers| :: peers[i]) == (set i | 0 <= i < |rest| :: rest[i]) + {peers[|peers| - 1]};
    }
  }

  lemma OpenAfterAsk(a: Acks, minAcks: nat, deadline: nat, peers: seq<string>, h: nat)
    requires Numbered(a) && h <= a.nextGroup
    ensures Open(AfterAsk(a, minAcks, deadline, peers), h) ==
      if h == a.nextGroup then Numbers(a.nextRequest, |peers|) else Open(a, h)
    ensures Open(a, a.nextGroup) == {}
  {
    hide Assigned, Numbers, Tagged;
    assert AfterAsk(a, minAcks, deadline, peers).requests == a.requests + Tagged(a.nextRequest, |peers|, a.nextGroup);
    hide AfterAsk;
    forall r
      ensures r in Open(AfterAsk(a, minAcks, deadline, peers), h) <==>
        if h == a.nextGroup then r in Numbers(a.nextRequest, |peers|) else r in Open(a, h)
      ensures r !in Open(a, a.nextGroup)
    {
      TaggedAt(a.requests, a.nextRequest, |peers|, a.nextGroup, r);
    }
  }

  lemma TaggedAt(base: map<nat, nat>, first: nat, count: nat, g: nat, r: nat)
    ensures r in base + Tagged(first, count, g) <==> r in base || r in Numbers(first, count)
    ensures r in Numbers(first, count) ==> r >= first && (base + Tagged(first, count, g))[r] == g
    ensures r in base && r !in Numbers(first, count) ==> (base + Tagged(first, count, g))[r] == base[r]
  {
  }

  lemma AssignedAt(base: map<nat, string>, first: nat, peers: seq<string>, r: nat)
    ensures r < first && r in base ==> r in base + Assigned(first, peers) && (base + Assigned(first, peers))[r] == base[r]
    ensures r in Numbers(first, |peers|) ==>
      r in base + Assigned(first, peers) && (base + Assigned(first, peers))[r] == peers[r - first]
  {
  }

  lemma PeersAfterAsk(a: Acks, minAcks: nat, deadline: nat, peers: seq<string>)
    ensures var b := AfterAsk(a, minAcks, deadline, peers);
      && (forall r :: r in a.peerOf && r < a.nextRequest ==> r in b.peerOf && b.peerOf[r] == a.peerOf[r])
      && (forall r :: r in Numbers(a.nextRequest, |peers|) ==> r in b.peerOf && b.peerOf[r] == peers[r - a.nextRequest])
  {
    hide Tagged, Assigned;
    var b := AfterAsk(a, minAcks, deadline, peers);
    forall r | r in a.peerOf && r < a.nextRequest
      ensures r in b.peerOf && b.peerOf[r] == a.peerOf[r]
    {
      AssignedAt(a.peerOf, a.nextRequest, peers, r);
    }
    forall r | r in Numbers(a.nextRequest, |peers|)
      ensures r in b.peerOf && b.peerOf[r] == peers[r - a.nextRequest]
    {
      AssignedAt(a.peerOf, a.nextRequest, peers, r);
    }
  }

  lemma AskedGroup(a: Acks, minAcks: nat, deadline: nat, peers: seq<string>)
    requires Ok(a) && Distinct(peers)
    ensures GroupOk(AfterAsk(a, minAcks, deadline, peers), a.nextGroup)
    ensures PendingOk(AfterAsk(a, minAcks, deadline, peers), a.nextGroup)
  {
    hide RepliesOk, Open, Tagged, Assigned, GroupOk, PendingOk, Numbers;
    DistinctCount(peers);
    assert Numbered(a);
    OpenAfterAsk(a, minAcks, deadline, peers, a.nextGroup);
    PeersAfterAsk(a, minAcks, deadline, peers);
    var b := AfterAsk(a, minAcks, deadline, peers);
    NewGroup(b, a.nextGroup, a.nextRequest, PendingAck(minAcks, 0, |peers|, deadline), peers);
  }

  lemma NewGroup(b: Acks, g: nat, first: nat, p: PendingAck, peers: seq<string>)
    requires g in b.groups && b.groups[g] == p && p.received == 0 && p.outstanding == |peers|
    requires g in b.acked && b.acked[g] == {} && g in b.targets && b.targets[g] == set i | 0 <= i < |peers| :: peers[i]
    requires Open(b, g) == Numbers(first, |peers|) && Distinct(peers) && |b.targets[g]| == |peers|
    requires forall r :: r in Numbers(first, |peers|) ==> r in b.peerOf && b.peerOf[r] == peers[r - first]
    ensures GroupOk(b, g) && PendingOk(b, g)
  {
  }

  lemma AskedOther(a: Acks, minAcks: nat, deadline: nat, peers: seq<string>, h: nat)
    requires Ok(a) && h in a.targets
    ensures GroupOk(AfterAsk(a, minAcks, deadline, peers), h)
    ensures h in a.groups ==> PendingOk(AfterAsk(a, minAcks, deadline, peers), h)
  {
    OpenIsOld(a, h);
    assert GroupOk(a, h);
    assert h in a.groups ==> PendingOk(a, h);
    OpenAfterAsk(a, minAcks, deadline, peers, h);
    PeersAfterAsk(a, minAcks, deadline, peers);
    hide Ok, Numbered, RepliesOk, Open, Tagged, Assigned, Numbers;
  }

  lemma OpenIsOld(a: Acks, h: nat)
    requires Ok(a) && h in a.targets
    ensures Numbered(a) && h < a.nextGroup && forall r :: r in Open(a, h) ==> r < a.nextRequest
  {
  }

  lemma GroupsHaveTargets(a: Acks)
    requires Numbered(a)
    ensures forall h :: h in a.groups ==> h in a.targets
  {
  }

  lemma AskedTables(a: Acks, minAcks: nat, deadline: nat, peers: seq<string>)
    requires Numbered(a) && RepliesOk(a)
    ensures Numbered(AfterAsk(a, minAcks, deadline, peers)) && RepliesOk(AfterAsk(a, minAcks, deadline, peers))
  {
  }

  lemma AskKeeps(a: Acks, minAcks: nat, deadline: nat, peers: seq<string>)
    requires Ok(a) && Distinct(peers)
    ensures Ok(AfterAsk(a, minAcks, deadline, peers))
  {
    hide GroupOk, PendingOk, Open, Numbered, RepliesOk, Tagged, Assigned, Numbers;
    AskedTables(a, minAcks, deadline, peers);
    AskedGroup(a, minAcks, deadline, peers);
    var b := AfterAsk(a, minAcks, deadline, peers);
    GroupsHaveTargets(a);
    forall h | h in b.targets
      ensures GroupOk(b, h) && (h in b.groups ==> PendingOk(b, h))
    {
      if h != a.nextGroup {
        AskedOther(a, minAcks, deadline, peers, h);
      }
    }
    GroupsHaveTargets(b);
  }

  // ---- The loop ----

  class AckGroups {
    var nextGroup: nat
    var nextRequest: nat
    var groups: map<nat, PendingAck>
    var requests: map<nat, nat>
    var replies: seq<Reply>
    ghost var peerOf: map<nat, string>
    ghost var targets: map<nat, set<string>>
    ghost var acked: map<nat, set<string>>

    ghost function Value(): Acks
      reads this
    {
      Acks(nextGroup, nextRequest, groups, requests, replies, peerOf, targets, acked)
    }

    ghost predicate Valid()
      reads this
    {
      Ok(Value())
    }

    constructor ()
      ensures Valid() && Value() == NO_ACKS
    {
      nextGroup, nextRequest, groups, requests, replies := 0, 0, map[], map[], [];
      peerOf, targets, acked := map[], map[], map[];
    }

    /** `RequestAcks`: one request to every connected peer; without peers the
        answer is immediate. */
    method RequestAcks(minAcks: nat, deadline: nat, peers: seq<string>) returns (immediate: Option<AckInfo>)
      requires Valid() && Distinct(peers)
      modifies this
      ensures Valid()
      ensures peers == [] ==> immediate == Some(AckInfo(0, minAcks, true)) && Value() == old(Value())
      ensures peers != [] ==> immediate.None? && Value() == AfterAsk(old(Value()), minAcks, deadline, peers)
      ensures peers != [] ==> groups == old(groups)[old(nextGroup) := PendingAck(minAcks, 0, |peers|, deadline)]
    {
      hide Ok, Tagged, Assigned, Numbers;
      if peers == [] {
        return Some(AckInfo(0, minAcks, true));
      }
      AskKeeps(Value(), minAcks, deadline, peers);
      ghost var before := Value();
      var group := nextGroup;
      nextGroup := nextGroup + 1;
      groups := groups[group := PendingAck(minAcks, 0, |peers|, deadline)];
      targets := targets[group := set i | 0 <= i < |peers| :: peers[i]];
      acked := acked[group := {}];
      SendAll(group, peers);
      assert Value() == AfterAsk(before, minAcks, deadline, peers);
      return None;
    }

    /** One request per peer, each with a number of its own. */
    method SendAll(group: nat, peers: seq<string>)
      modifies this`requests, this`nextRequest, this`peerOf
      ensures nextRequest == old(nextRequest) + |peers|
      ensures requests == old(requests) + Tagged(old(nextRequest), |peers|, group)
      ensures peerOf == old(peerOf) + Assigned(old(nextRequest), peers)
    {
      hide Tagged, Assigned, Numbers;
      ghost var first := nextRequest;
      NoRequestYet(first, group, peers);
      for i := 0 to |peers|
        invariant nextRequest == first + i
        invariant requests == old(requests) + Tagged(first, i, group)
        invariant peerOf == old(peerOf) + Assigned(first, peers[..i])
      {
        OneMoreRequest(first, i, group, peers);
        requests := requests[nextRequest := group];
        peerOf := peerOf[nextRequest := peers[i]];
        nextRequest := nextRequest + 1;
      }
      assert peers[..|peers|] == peers;
    }

    static lemma NoRequestYet(first: nat, g: nat, peers: seq<string>)
      ensures Tagged(first, 0, g) == map[] && Assigned(first, peers[..0]) == map[]
    {
    }

    static lemma OneMoreRequest(first: nat, i: nat, g: nat, peers: seq<string>)
      requires i < |peers|
      ensures Tagged(first, i + 1, g) == Tagged(first, i, g)[first + i := g]
      ensures Assigned(first, peers[..i + 1]) == Assigned(first, peers[..i])[first + i := peers[i]]
    {
    }

    method Settle(g: nat)
      requires g in groups
      modifies this`groups, this`replies
      ensures Value() == Settled(old(Value()), g)
    {
      replies := replies + [Reply(g, Answer(groups[g]))];
      groups := groups - {g};
    }

    /** Take one answer off the books. */
    method Count(r: nat, inserted: bool)
      requires r in requests && requests[r] in groups
      modifies this`requests, this`groups, this`acked
      ensures Value() == Counted(old(Value()), r, inserted)
    {
      var g := requests[r];
      var p := groups[g];
      requests := requests - {r};
      var received := p.received;
      if inserted {
        received := received + 1;
        acked := if g in acked && r in peerOf then acked[g := acked[g] + {peerOf[r]}] else acked;
      }
      var outstanding := if p.outstanding > 0 then p.outstanding - 1 else 0;
      groups := groups[g := PendingAck(p.minAcks, received, outstanding, p.deadline)];
    }

    /** A response. The one that completes the quorum, and the last one to come,
        answer their group at once; any other leaves it waiting for at least one
        more acknowledgement with at least one request open. */
    method OnResponse(r: nat, inserted: bool)
      requires Valid()
      modifies this
      ensures Valid() && Value() == AfterResponse(old(Value()), r, inserted)
      ensures requests == old(requests) - {r}
      ensures r !in old(requests) || old(requests)[r] !in old(groups) ==> groups == old(groups) && replies == old(replies)
      ensures r in old(requests) && old(requests)[r] in old(groups) ==>
        var g := old(requests)[r];
        var p := old(groups)[g];
        var received, left := p.received + (if inserted then 1 else 0), p.outstanding - 1;
        if received >= p.minAcks || left == 0 then
          && groups == old(groups) - {g}
          && replies == old(replies) + [Reply(g, AckInfo(received, p.minAcks, received < p.minAcks))]
        else
          left > 0 && groups == old(groups)[g := PendingAck(p.minAcks, received, left, p.deadline)] && replies == old(replies)
    {
      hide Ok, Settled, Counted;
      ResponseIs(Value(), r, inserted);
      ResponseKeeps(Value(), r, inserted);
      if r in requests {
        var g := requests[r];
        if g in groups {
          CountedHas(Value(), r, inserted);
          Count(r, inserted);
          if groups[g].received >= groups[g].minAcks || groups[g].outstanding == 0 {
            Settle(g);
          }
        } else {
          requests := requests - {r};
        }
      }
    }

    /** A failed request. Only the last one answers its group. */
    method OnFailure(r: nat)
      requires Valid()
      modifies this
      ensures Valid() && Value() == AfterFailure(old(Value()), r)
      ensures requests == old(requests) - {r}
      ensures r !in old(requests) || old(requests)[r] !in old(groups) ==> groups == old(groups) && replies == old(replies)
      ensures r in old(requests) && old(requests)[r] in old(groups) ==>
        var g := old(requests)[r];
        var p := old(groups)[g];
        if p.outstanding == 1 then
          && groups == old(groups) - {g}
          && replies == old(replies) + [Reply(g, AckInfo(p.received, p.minAcks, p.received < p.minAcks))]
        else
          p.outstanding > 1 && groups == old(groups)[g := p.(outstanding := p.outstanding - 1)] && replies == old(replies)
    {
      hide Ok, Settled, Counted;
      FailureIs(Value(), r);
      ResponseKeeps(Value(), r, false);
      if r in requests {
        var g := requests[r];
        if g in groups {
          CountedHas(Value(), r, false);
          Count(r, false);
          if groups[g].outstanding == 0 {
            Settle(g);
          }
        } else {
          requests := requests - {r};
        }
      }
    }

    static lemma CountedHas(a: Acks, r: nat, inserted: bool)
      requires r in a.requests && a.requests[r] in a.groups
      ensures a.requests[r] in Counted(a, r, inserted).groups
    {
    }

    /** The timeout sweep answers every group whose deadline has passed, and no other. */
    method Sweep(now: nat)
      requires Valid()
      modifies this`groups, this`replies
      ensures Valid()
      ensures forall g :: g in groups <==> g in old(groups) && old(groups)[g].deadline > now
      ensures forall g :: g in groups ==> groups[g] == old(groups)[g]
      ensures |replies| >= |old(replies)| && replies[..|old(replies)|] == old(replies)
      ensures forall g :: g in old(groups) && old(groups)[g].deadline <= now ==>
        var p := old(groups)[g];
        Reply(g, AckInfo(p.received, p.minAcks, p.received < p.minAcks)) in replies
    {
      hide Ok;
      var expired := Expired(groups, now);
      var left := expired;
      while left != {}
        invariant Valid() && left <= expired && expired <= old(groups.Keys)
        invariant groups == old(groups) - (expired - left)
        invariant |replies| >= |old(replies)| && replies[..|old(replies)|] == old(replies)
        invariant forall g :: g in expired - left ==> Reply(g, Answer(old(groups)[g])) in replies
        decreases |left|
      {
        var g :| g in left;
        left := left - {g};
        SettledKeeps(Value(), g);
        Settle(g);
      }
    }
  }

  // ---- The create response ----

  /** The acknowledgement part of a create response, over all emitted events. */
  method AggregateAcks(acks: seq<AckInfo>) returns (info: AckInfo)
    ensures info.timeout <==> exists i :: 0 <= i < |acks| && acks[i].timeout
    ensures forall i :: 0 <= i < |acks| ==> info.received <= acks[i].received && acks[i].requested <= info.requested
    ensures acks != [] ==> (exists i :: 0 <= i < |acks| && acks[i].received == info.received)
    ensures acks != [] ==> (exists i :: 0 <= i < |acks| && acks[i].requested == info.requested)
    ensures acks == [] ==> info == AckInfo(0, 0, false)
  {
    if acks == [] {
      return AckInfo(0, 0, false);
    }
    var received, requested, timeout := acks[0].received, acks[0].requested, acks[0].timeout;
    for i := 1 to |acks|
      invariant timeout <==> exists j :: 0 <= j < i && acks[j].timeout
      invariant forall j :: 0 <= j < i ==> received <= acks[j].received && acks[j].requested <= requested
      invariant exists j :: 0 <= j < i && acks[j].received == received
      invariant exists j :: 0 <= j < i && acks[j].requested == requested
    {
      received := if acks[i].received < received then acks[i].received else received;
      requested := if acks[i].requested > requested then acks[i].requested else requested;
      timeout := timeout || acks[i].timeout;
    }
    info := AckInfo(received, requested, timeout);
  }
}
