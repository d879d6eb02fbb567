/** Anti-entropy: one heads-and-range exchange with a peer, and how many of them
    close a gap. */
module CatchUp {
  import opened Types
  import opened Ledger
  import opened ReplicaModel
  import opened Caches
  import NodeState
  import Persistence
  import Storage

  const WINDOW: nat := 5000

  /** `insert_events_batch`, corrections included. */
  ghost function ReceiveAll(r: Replica, events: seq<Event>, mints: seq<Mint>): Replica
    requires |events| == |mints|
    decreases |events|
  {
    if events == [] then r else ReceiveAll(Receive(r, events[0], mints[0]).0, events[1..], mints[1..])
  }

  /** How many of the events are new when their turn comes. */
  ghost function AcceptedCount(r: Replica, events: seq<Event>, mints: seq<Mint>): (count: nat)
    requires |events| == |mints|
    ensures count <= |events|
    decreases |events|
  {
    if events == [] then 0
    else (if Accepts(r, events[0]) then 1 else 0) + AcceptedCount(Receive(r, events[0], mints[0]).0, events[1..], mints[1..])
  }

  /** Each event fits when its turn comes. */
  ghost predicate BatchFits(r: Replica, events: seq<Event>, mints: seq<Mint>)
    requires |events| == |mints|
    decreases |events|
  {
    events == []
    || ((Accepts(r, events[0]) ==> Deliverable(r, events[0]) && MintFresh(Admit(r, events[0]), mints[0]))
        && BatchFits(Receive(r, events[0], mints[0]).0, events[1..], mints[1..]))
  }

  /** The line is live and loses nothing. */
  ghost predicate LineKept(r: Replica, r': Replica, line: EpochKey) {
    && line.bucket !in r'.deleted
    && forall k :: k in r.applied && k.line == line ==> k in r'.applied
  }

  lemma ResolveKeepsLine(r: Replica, e: Event, m: Mint, line: EpochKey)
    requires line.bucket !in r.deleted
    ensures LineKept(r, Resolve(r, e, m).0, line)
  {
  }

  /** Receiving an event of a live line keeps the line and leaves it holding the event's seq. */
  lemma ReceiveKeepsLine(r: Replica, e: Event, m: Mint, line: EpochKey)
    requires line.bucket !in r.deleted && e.Line() == line && e.seqNo >= 1
    ensures LineKept(r, Receive(r, e, m).0, line) && e.Key() in Receive(r, e, m).0.applied
  {
    if Accepts(r, e) {
      var a := Admit(r, e);
      AdmitKeepsLine(r, e, line);
      ResolveKeepsLine(a, e, m, line);
      hide Resolve, Admit;
      assert e.Key() in a.applied;
    }
  }

  lemma AdmitKeepsLine(r: Replica, e: Event, line: EpochKey)
    requires line.bucket !in r.deleted && e.Line() == line
    ensures LineKept(r, Admit(r, e), line) && e.Key() in Admit(r, e).applied
  {
  }

  lemma {:induction false} BatchKeepsLine(r: Replica, events: seq<Event>, mints: seq<Mint>, line: EpochKey)
    requires |events| == |mints| && line.bucket !in r.deleted
    requires forall i :: 0 <= i < |events| ==> events[i].Line() == line && events[i].seqNo >= 1
    ensures LineKept(r, ReceiveAll(r, events, mints), line)
    ensures forall i :: 0 <= i < |events| ==> events[i].Key() in ReceiveAll(r, events, mints).applied
    decreases |events|
  {
    if events != [] {
      hide Receive;
      ReceiveKeepsLine(r, events[0], mints[0], line);
      var r1 := Receive(r, events[0], mints[0]).0;
      BatchKeepsLine(r1, events[1..], mints[1..], line);
      forall i | 0 <= i < |events|
        ensures events[i].Key() in ReceiveAll(r, events, mints).applied
      {
        assert i > 0 ==> events[i] == events[1..][i - 1];
      }
    }
  }

  /** A head is at least `h` as soon as 1..h are all there. */
  lemma HeadAtLeast(log: Log, line: EpochKey, h: nat)
    requires forall s :: 1 <= s <= h ==> s in SeqsOf(log, line)
    ensures HeadOf(log, line) >= h
  {
  }

  /** The last seq of the range one exchange asks for. */
  function LastAsked(mine: nat, theirs: nat): nat {
    Min(mine + WINDOW, theirs)
  }

  /** What the peer answers to the request this node would send. */
  ghost predicate IsResponse(r: Replica, peer: Log, line: EpochKey, events: seq<Event>) {
    Storage.IsRange(peer, line, HeadOf(r.applied, line) + 1, LastAsked(HeadOf(r.applied, line), HeadOf(peer, line)), events)
  }

  /** One exchange brings the head to the end of the window or to the peer's
      head, however many later seqs were already held out of order. */
  lemma ExchangeClosesWindow(r: Replica, peer: Log, line: EpochKey, events: seq<Event>, mints: seq<Mint>)
    requires |events| == |mints| && line.bucket !in r.deleted
    requires HeadOf(peer, line) > HeadOf(r.applied, line) && IsResponse(r, peer, line, events)
    ensures HeadOf(ReceiveAll(r, events, mints).applied, line) >= Min(HeadOf(r.applied, line) + 5000, HeadOf(peer, line))
    ensures line.bucket !in ReceiveAll(r, events, mints).deleted
  {
    var mine, theirs := HeadOf(r.applied, line), HeadOf(peer, line);
    var to := LastAsked(mine, theirs);
    BatchKeepsLine(r, events, mints, line);
    var r' := ReceiveAll(r, events, mints);
    hide ReceiveAll, HeadOf;
    forall s | 1 <= s <= to
      ensures s in SeqsOf(r'.applied, line)
    {
      InSeqsOf(r'.applied, line, s);
      if s <= mine {
        InSeqsOf(r.applied, line, s);
      } else {
        InSeqsOf(peer, line, s);
        var i :| 0 <= i < |events| && events[i].seqNo == s;
        assert events[i].Key() == OriginKey(line, s);
      }
    }
    HeadAtLeast(r'.applied, line, to);
  }

  // ---- Many exchanges ----

  /** One turn of the catch-up loop for a line: a peer's answer, or none. */
  datatype Round = Lost | Answered(peer: Log, events: seq<Event>, mints: seq<Mint>)

  /** How a round, and whatever else the node does before the next one, takes
      it from `r` to `r'`, when answering peers have reached `target`. */
  ghost predicate Follows(r: Replica, round: Round, r': Replica, line: EpochKey, target: nat) {
    match round
    case Lost => LineKept(r, r', line)
    case Answered(peer, events, mints) =>
      && HeadOf(peer, line) >= target
      && if HeadOf(peer, line) <= HeadOf(r.applied, line) then LineKept(r, r', line)
         else |events| == |mints| && IsResponse(r, peer, line, events) && LineKept(ReceiveAll(r, events, mints), r', line)
  }

  ghost predicate CatchUpRun(rs: seq<Replica>, rounds: seq<Round>, line: EpochKey, target: nat) {
    && |rs| == |rounds| + 1 && line.bucket !in rs[0].deleted
    && forall i :: 0 <= i < |rounds| ==> Follows(rs[i], rounds[i], rs[i + 1], line, target)
  }

  function AnswerCount(rounds: seq<Round>): nat {
    if rounds == [] then 0
    else AnswerCount(rounds[..|rounds| - 1]) + (if rounds[|rounds| - 1].Answered? then 1 else 0)
  }

  lemma HeadKept(r: Replica, r': Replica, line: EpochKey)
    requires LineKept(r, r', line)
    ensures HeadOf(r'.applied, line) >= HeadOf(r.applied, line) && line.bucket !in r'.deleted
  {
    var h := HeadOf(r.applied, line);
    hide HeadOf;
    forall s | 1 <= s <= h
      ensures s in SeqsOf(r'.applied, line)
    {
      InSeqsOf(r.applied, line, s);
      InSeqsOf(r'.applied, line, s);
    }
    HeadAtLeast(r'.applied, line, h);
  }

  lemma RoundRaises(r: Replica, round: Round, r': Replica, line: EpochKey, target: nat)
    requires Follows(r, round, r', line, target) && line.bucket !in r.deleted
    ensures line.bucket !in r'.deleted && HeadOf(r'.applied, line) >= HeadOf(r.applied, line)
    ensures round.Answered? ==> HeadOf(r'.applied, line) >= Min(HeadOf(r.applied, line) + 5000, target)
  {
    hide HeadOf, ReceiveAll, LineKept, IsResponse;
    if round.Answered? && HeadOf(round.peer, line) > HeadOf(r.applied, line) {
      ExchangeClosesWindow(r, round.peer, line, round.events, round.mints);
      HeadKept(ReceiveAll(r, round.events, round.mints), r', line);
    } else {
      HeadKept(r, r', line);
    }
  }

  lemma {:induction false} HeadAfter(rs: seq<Replica>, rounds: seq<Round>, line: EpochKey, target: nat)
    requires CatchUpRun(rs, rounds, line, target)
    ensures line.bucket !in rs[|rounds|].deleted
    ensures HeadOf(rs[|rounds|].applied, line) >= Min(HeadOf(rs[0].applied, line) + 5000 * AnswerCount(rounds), target)
    decreases |rounds|
  {
    if rounds != [] {
      var n := |rounds| - 1;
      assert CatchUpRun(rs[..n + 1], rounds[..n], line, target) by {
        assert forall i :: 0 <= i < n ==> Follows(rs[i], rounds[i], rs[i + 1], line, target);
      }
      HeadAfter(rs[..n + 1], rounds[..n], line, target);
      assert Follows(rs[n], rounds[n], rs[n + 1], line, target);
      hide HeadOf, Follows, CatchUpRun;
      RoundRaises(rs[n], rounds[n], rs[n + 1], line, target);
    }
  }

  /** However many answers are lost and whatever else the node applies in
      between, a line's gap to a head that every answering peer has reached is
      closed after as many answers as it has windows, rounded up. */
  lemma ExchangesCloseGap(rs: seq<Replica>, rounds: seq<Round>, line: EpochKey, target: nat)
    requires CatchUpRun(rs, rounds, line, target)
    requires AnswerCount(rounds) >= (SaturatingSub(target, HeadOf(rs[0].applied, line)) + 4999) / 5000
    ensures HeadOf(rs[|rounds|].applied, line) >= target
  {
    HeadAfter(rs, rounds, line, target);
    hide HeadOf, CatchUpRun, AnswerCount;
  }

  // ---- The exchange itself ----

  /** `insert_events_batch`. */
  method InsertEventsBatch(state: NodeState.SharedState, events: seq<Event>, mints: seq<Mint>) returns (count: nat)
    requires state.Valid() && |events| == |mints| && BatchFits(state.View(), events, mints)
    modifies state, state.allocators, state.storage
    ensures state.Valid() && state.View() == ReceiveAll(old(state.View()), events, mints)
    ensures count == AcceptedCount(old(state.View()), events, mints)
  {
    hide NodeState.SharedState.Valid, Receive, Accepts, Deliverable, Admit;
    count := 0;
    for i := 0 to |events|
      invariant state.Valid() && BatchFits(state.View(), events[i..], mints[i..])
      invariant count + AcceptedCount(state.View(), events[i..], mints[i..]) == AcceptedCount(old(state.View()), events, mints)
      invariant ReceiveAll(state.View(), events[i..], mints[i..]) == ReceiveAll(old(state.View()), events, mints)
    {
      assert events[i..][1..] == events[i + 1..] && mints[i..][1..] == mints[i + 1..];
      var inserted := state.InsertEvent(events[i], mints[i]);
      if inserted {
        count := count + 1;
      }
    }
    assert events[|events|..] == [] && mints[|events|..] == [];
  }

  lemma HeadMatches(state: NodeState.SharedState, line: EpochKey)
    requires state.Valid()
    ensures HeadAt(state.heads, line) == HeadOf(state.applied, line)
    ensures state.View().applied == state.applied && state.View().deleted == state.deletedBuckets.Keys
  {
  }

  /** The events of the answer fit one after the other. */
  ghost predicate ResponseFits(r: Replica, peer: Log, line: EpochKey, mints: seq<Mint>) {
    forall events :: IsResponse(r, peer, line, events) && |events| <= |mints| ==>
      BatchFits(r, events, mints[..|events|])
  }

  /** One line of the catch-up loop against one peer. The ids and clock readings
      for corrections come with the call, as many as the window has events. */
  method Exchange(mine: NodeState.SharedState, peer: NodeState.SharedState, line: EpochKey, mints: seq<Mint>)
    requires mine.Valid() && peer.Valid() && line.bucket !in mine.deletedBuckets && |mints| == 5000
    requires ResponseFits(mine.View(), peer.applied, line, mints)
    modifies mine, mine.allocators, mine.storage
    ensures mine.Valid()
    ensures HeadAt(mine.heads, line) >= Min(HeadAt(old(mine.heads), line) + 5000, HeadAt(old(peer.heads), line))
    ensures line.bucket !in mine.deletedBuckets
  {
    hide NodeState.SharedState.Valid, ReceiveAll, HeadOf;
    HeadMatches(mine, line);
    HeadMatches(peer, line);
    var peerHead := HeadAt(peer.heads, line);
    var myHead := HeadAt(mine.heads, line);
    if peerHead <= myHead {
      return;
    }
    var from := myHead + 1;
    var to := Min(myHead + WINDOW, peerHead);
    var events := Persistence.ServeRange(peer, line, from, to);
    RangeFits(peer.applied, line, from, to, events);
    assert IsResponse(mine.View(), peer.applied, line, events);
    ExchangeClosesWindow(mine.View(), peer.applied, line, events, mints[..|events|]);
    var count := InsertEventsBatch(mine, events, mints[..|events|]);
    HeadMatches(mine, line);
  }

  lemma RangeFits(log: Log, line: EpochKey, from: nat, to: nat, events: seq<Event>)
    requires Storage.IsRange(log, line, from, to, events) && from <= to < from + WINDOW
    ensures |events| <= WINDOW
  {
    if events != [] {
      SeqsSpread(log, line, from, to, events, |events| - 1);
    }
  }

  lemma {:induction false} SeqsSpread(log: Log, line: EpochKey, from: nat, to: nat, events: seq<Event>, i: nat)
    requires Storage.IsRange(log, line, from, to, events) && i < |events|
    ensures events[i].seqNo >= from + i
  {
    if i > 0 {
      SeqsSpread(log, line, from, to, events, i - 1);
    }
  }
}
