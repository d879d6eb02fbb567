/** The buffer hand-off of one seq line, map operation by map operation:
    inserters that advance the head under the line's lock, against any number of
    persistence callbacks that take no lock at all. */
module HandOff {
  import opened Types

  /** Where the holder of the head lock is. */
  datatype Advancer =
    | Idle
    | Draining(from: nat, head: nat)
    | Folding(from: nat, head: nat, next: nat, digest: seq<nat>)
    | Publishing(from: nat, head: nat)
    | Pruning(head: nat, next: nat, queued: Option<bool>)

  /** Where a persistence callback is with one key. */
  datatype Marker =
    | Unqueued(seqNo: nat)
    | SawHead(seqNo: nat, head: nat)
    | Decided(seqNo: nat, remove: bool)

  /** `digest` lists the seqs folded so far; `claimed` are the seqs that ever
      entered the buffer, `queued` those that were also put in the queue of
      events not yet stored, `waiting` those whose inserter awaits the lock. */
  datatype State = State(
    buffer: set<nat>,
    unpersisted: set<nat>,
    head: nat,
    pending: set<nat>,
    digest: seq<nat>,
    claimed: set<nat>,
    queued: set<nat>,
    waiting: set<nat>,
    advancer: Advancer,
    markers: map<nat, Marker>)

  datatype Step =
    | Claim(seqNo: nat)
    | Enqueue(seqNo: nat)
    | Lock(seqNo: nat)
    | Advance
    | MarkStart(callback: nat, seqNo: nat)
    | MarkStep(callback: nat)

  /** The lock holder's next map operation. */
  function AfterAdvance(s: State): State {
    match s.advancer
    case Idle => s
    case Draining(from, head) =>
      if head + 1 in s.pending
      then s.(pending := s.pending - {head + 1}, advancer := Draining(from, head + 1))
      else s.(advancer := Folding(from, head, from + 1, s.digest))
    case Folding(from, head, next, digest) =>
      if next <= head
      then s.(advancer := Folding(from, head, next + 1, if next in s.buffer then digest + [next] else digest))
      else s.(digest := digest, advancer := Publishing(from, head))
    case Publishing(from, head) =>
      s.(head := head, advancer := Pruning(head, from + 1, None))
    case Pruning(head, next, None) =>
      if next <= head then s.(advancer := Pruning(head, next, Some(next in s.unpersisted))) else s.(advancer := Idle)
    case Pruning(head, next, Some(queued)) =>
      s.(buffer := if queued then s.buffer else s.buffer - {next}, advancer := Pruning(head, next + 1, None))
  }

  /** A callback's next map operation. */
  function AfterMark(s: State, t: nat): State
    requires t in s.markers
  {
    match s.markers[t]
    case Unqueued(n) => s.(markers := s.markers[t := SawHead(n, s.head)])
    case SawHead(n, head) => s.(markers := s.markers[t := Decided(n, n <= head && n !in s.pending)])
    case Decided(n, remove) => s.(buffer := if remove then s.buffer - {n} else s.buffer, markers := s.markers - {t})
  }

  predicate Enabled(s: State, step: Step) {
    match step
    case Claim(n) => n >= 1 && n !in s.claimed
    case Enqueue(n) => n in s.claimed && n !in s.queued
    case Lock(n) => n in s.waiting && s.advancer.Idle?
    case Advance => true
    case MarkStart(t, n) => t !in s.markers && n in s.queued
    case MarkStep(t) => t in s.markers
  }

  function Next(s: State, step: Step): State {
    if !Enabled(s, step) then s else
      match step
      case Claim(n) => s.(buffer := s.buffer + {n}, claimed := s.claimed + {n})
      case Enqueue(n) => s.(unpersisted := s.unpersisted + {n}, queued := s.queued + {n}, waiting := s.waiting + {n})
      case Lock(n) =>
        var s' := s.(waiting := s.waiting - {n});
        if n == s.head + 1 then s'.(advancer := Draining(s.head, n))
        else if n > s.head + 1 then s'.(pending := s.pending + {n})
        else s'
      case Advance => AfterAdvance(s)
      case MarkStart(t, n) => s.(unpersisted := s.unpersisted - {n}, markers := s.markers[t := Unqueued(n)])
      case MarkStep(t) => AfterMark(s, t)
  }

  function Run(s: State, steps: seq<Step>): State
    decreases |steps|
  {
    if steps == [] then s else Next(Run(s, steps[..|steps| - 1]), steps[|steps| - 1])
  }

  const START := State({}, {}, 0, {}, [], {}, {}, {}, Idle, map[])

  // ---- The invariant ----

  /** 1, 2, ..., n. */
  function UpTo(n: nat): seq<nat> {
    seq(n, i => i + 1)
  }

  /** How far the lock holder has drained. */
  function Reach(s: State): nat {
    match s.advancer
    case Idle => s.head
    case Draining(_, head) => head
    case Folding(_, head, _, _) => head
    case Publishing(_, head) => head
    case Pruning(head, _, _) => head
  }

  /** The digest is the fold of 1..n for the right n at every stage. */
  predicate DigestExact(s: State) {
    match s.advancer
    case Idle => s.digest == UpTo(s.head)
    case Draining(from, head) => from == s.head < head && s.digest == UpTo(from)
    case Folding(from, head, next, digest) =>
      from == s.head < next <= head + 1 && from < head && s.digest == UpTo(from) && digest == UpTo(next - 1)
    case Publishing(from, head) => from == s.head < head && s.digest == UpTo(head)
    case Pruning(head, next, queued) =>
      head == s.head && 1 <= next <= head + 1 && (queued.Some? ==> next <= head) && s.digest == UpTo(head)
  }

  predicate Accounted(s: State) {
    && (forall n :: n in s.claimed ==> n >= 1)
    && s.queued <= s.claimed && s.waiting <= s.queued && s.unpersisted <= s.queued && s.pending <= s.queued
    && s.waiting !! s.pending
    && (forall n :: n in s.pending ==> n > Reach(s))
    && (forall n :: n in s.waiting ==> n > Reach(s))
    && (forall n :: n in s.queued && n > Reach(s) ==> n in s.waiting || n in s.pending)
    && (forall n :: 1 <= n <= Reach(s) ==> n in s.queued)
    && (s.advancer.Idle? || s.advancer.Pruning? || s.advancer.Folding? || s.advancer.Publishing? ==> Reach(s) + 1 !in s.pending)
    && (forall t :: t in s.markers ==> s.markers[t].seqNo in s.queued)
  }

  /** Whatever is still waiting for storage or for the head is in the buffer. */
  predicate Kept(s: State) {
    && (forall n :: n in s.claimed && (n !in s.queued || n in s.unpersisted || n > s.head) ==> n in s.buffer)
    && s.buffer <= s.claimed
  }

  /** This callback will still remove `n`. */
  predicate Removes(m: Marker, n: nat) {
    m.seqNo == n && match m
      case Unqueued(_) => true
      case SawHead(_, head) => head >= n
      case Decided(_, remove) => remove
  }

  /** Some callback will. */
  predicate MarkerWill(s: State, n: nat) {
    exists t :: t in s.markers && Removes(s.markers[t], n)
  }

  /** The lock holder will still prune `n`. */
  predicate PrunerWill(s: State, n: nat) {
    s.advancer.Pruning? && (n > s.advancer.next || (n == s.advancer.next && s.advancer.queued != Some(true)))
  }

  /** A stored event at or below the head leaves the buffer, or someone is about to see to it. */
  predicate Leaving(s: State) {
    forall n :: n in s.buffer && n in s.queued && n !in s.unpersisted && n <= s.head ==> MarkerWill(s, n) || PrunerWill(s, n)
  }

  /** A callback that decided to remove did so for a folded, stored event; a
      pruner that saw an event unqueued finds it still unqueued. */
  predicate DecisionsSound(s: State) {
    && (forall t :: t in s.markers && s.markers[t].SawHead? ==> s.markers[t].head <= s.head)
    && (forall t :: t in s.markers && s.markers[t].Decided? && s.markers[t].remove ==> s.markers[t].seqNo <= s.head)
    && (forall t :: t in s.markers ==> s.markers[t].seqNo !in s.unpersisted)
    && (s.advancer.Pruning? && s.advancer.queued == Some(false) ==> s.advancer.next !in s.unpersisted && s.advancer.next <= s.head)
  }

  predicate Inv(s: State) {
    DigestExact(s) && Accounted(s) && Kept(s) && Leaving(s) && DecisionsSound(s)
  }

  lemma UpToNext(n: nat)
    ensures UpTo(n) + [n + 1] == UpTo(n + 1)
  {
  }

  lemma ClaimKeeps(s: State, n: nat)
    requires Inv(s)
    ensures Inv(Next(s, Claim(n)))
  {
    hide UpTo, MarkerWill, PrunerWill;
    forall x: nat | MarkerWill(s, x) || PrunerWill(s, x)
      ensures MarkerWill(Next(s, Claim(n)), x) || PrunerWill(Next(s, Claim(n)), x)
    {
      SameWill(s, Next(s, Claim(n)), x);
    }
  }

  lemma EnqueueKeeps(s: State, n: nat)
    requires Inv(s)
    ensures Inv(Next(s, Enqueue(n)))
  {
    hide UpTo, MarkerWill, PrunerWill;
    forall x: nat | MarkerWill(s, x) || PrunerWill(s, x)
      ensures MarkerWill(Next(s, Enqueue(n)), x) || PrunerWill(Next(s, Enqueue(n)), x)
    {
      SameWill(s, Next(s, Enqueue(n)), x);
    }
  }

  lemma SameWill(s: State, s': State, x: nat)
    requires s'.markers == s.markers && s'.advancer == s.advancer
    ensures MarkerWill(s', x) <==> MarkerWill(s, x)
    ensures PrunerWill(s', x) <==> PrunerWill(s, x)
  {
  }

  lemma LockKeeps(s: State, n: nat)
    requires Inv(s)
    ensures Inv(Next(s, Lock(n)))
  {
    var s' := Next(s, Lock(n));
    forall x: nat | MarkerWill(s, x)
      ensures MarkerWill(s', x)
    {
      var t :| t in s.markers && Removes(s.markers[t], x);
      assert t in s'.markers && s'.markers[t] == s.markers[t];
    }
  }

  // ---- The lock holder ----

  lemma DrainKeeps(s: State)
    requires Inv(s) && s.advancer.Draining?
    ensures Inv(AfterAdvance(s))
  {
    hide UpTo, MarkerWill;
    forall x: nat | MarkerWill(s, x)
      ensures MarkerWill(AfterAdvance(s), x)
    {
      SameMarker(s, AfterAdvance(s), x);
    }
  }

  lemma SameMarker(s: State, s': State, x: nat)
    requires s'.markers == s.markers
    ensures MarkerWill(s', x) <==> MarkerWill(s, x)
  {
  }

  /** Everything the digest passes over is still buffered: nothing is skipped. */
  lemma FoldKeeps(s: State)
    requires Inv(s) && s.advancer.Folding?
    ensures Inv(AfterAdvance(s))
  {
    hide UpTo, MarkerWill;
    var next := s.advancer.next;
    UpToNext(next - 1);
    if next <= s.advancer.head {
      assert next in s.queued && next in s.buffer;
    }
    forall x: nat | MarkerWill(s, x)
      ensures MarkerWill(AfterAdvance(s), x)
    {
      SameMarker(s, AfterAdvance(s), x);
    }
  }

  lemma PublishKeeps(s: State)
    requires Inv(s) && s.advancer.Publishing?
    ensures Inv(AfterAdvance(s))
  {
    hide UpTo, MarkerWill;
    forall x: nat | MarkerWill(s, x)
      ensures MarkerWill(AfterAdvance(s), x)
    {
      SameMarker(s, AfterAdvance(s), x);
    }
  }

  lemma PruneKeeps(s: State)
    requires Inv(s) && s.advancer.Pruning?
    ensures Inv(AfterAdvance(s))
  {
    hide UpTo, MarkerWill;
    forall x: nat | MarkerWill(s, x)
      ensures MarkerWill(AfterAdvance(s), x)
    {
      SameMarker(s, AfterAdvance(s), x);
    }
  }

  lemma AdvanceKeeps(s: State)
    requires Inv(s)
    ensures Inv(AfterAdvance(s))
  {
    hide Inv;
    match s.advancer
    case Idle =>
    case Draining(_, _) => DrainKeeps(s);
    case Folding(_, _, _, _) => FoldKeeps(s);
    case Publishing(_, _) => PublishKeeps(s);
    case Pruning(_, _, _) => PruneKeeps(s);
  }

  // ---- The callbacks ----

  lemma OtherMarker(s: State, s': State, t: nat, x: nat)
    requires MarkerWill(s, x) && t in s.markers && s.markers[t].seqNo != x
    requires forall u :: u in s.markers && u != t ==> u in s'.markers && s'.markers[u] == s.markers[u]
    ensures MarkerWill(s', x)
  {
  }

  lemma MarkStartKeeps(s: State, t: nat, n: nat)
    requires Inv(s) && Enabled(s, MarkStart(t, n))
    ensures Inv(Next(s, MarkStart(t, n)))
  {
    hide UpTo;
    var s' := Next(s, MarkStart(t, n));
    assert s'.markers[t] == Unqueued(n);
    forall x: nat | MarkerWill(s, x)
      ensures MarkerWill(s', x)
    {
      var u :| u in s.markers && Removes(s.markers[u], x);
      assert u in s'.markers && s'.markers[u] == s.markers[u];
    }
    assert MarkerWill(s', n);
  }

  /** Reading the head: a callback that sees it too low leaves the event to the
      lock holder, which publishes the head before it prunes. */
  lemma SawHeadKeeps(s: State, t: nat)
    requires Inv(s) && t in s.markers && s.markers[t].Unqueued?
    ensures Inv(AfterMark(s, t))
  {
    hide UpTo;
    var s', n := AfterMark(s, t), s.markers[t].seqNo;
    assert s'.markers[t] == SawHead(n, s.head);
    forall x: nat | MarkerWill(s, x) && x <= s.head
      ensures MarkerWill(s', x)
    {
      if x != n {
        OtherMarker(s, s', t, x);
      }
    }
  }

  lemma DecideKeeps(s: State, t: nat)
    requires Inv(s) && t in s.markers && s.markers[t].SawHead?
    ensures Inv(AfterMark(s, t))
  {
    hide UpTo;
    var s', n := AfterMark(s, t), s.markers[t].seqNo;
    var seen := s.markers[t].head;
    assert s'.markers[t] == Decided(n, n <= seen && n !in s.pending);
    assert n <= seen ==> n !in s.pending;
    forall x: nat | MarkerWill(s, x)
      ensures MarkerWill(s', x)
    {
      if x != n {
        OtherMarker(s, s', t, x);
      } else {
        var u :| u in s.markers && Removes(s.markers[u], x);
        assert u != t ==> u in s'.markers && s'.markers[u] == s.markers[u];
        assert u in s'.markers;
      }
    }
  }

  lemma RemoveKeeps(s: State, t: nat)
    requires Inv(s) && t in s.markers && s.markers[t].Decided?
    ensures Inv(AfterMark(s, t))
  {
    hide UpTo;
    var s', n := AfterMark(s, t), s.markers[t].seqNo;
    forall x: nat | MarkerWill(s, x) && x in s'.buffer
      ensures MarkerWill(s', x)
    {
      if x != n {
        OtherMarker(s, s', t, x);
      } else {
        var u :| u in s.markers && Removes(s.markers[u], x);
        assert u != t && u in s'.markers && s'.markers[u] == s.markers[u];
      }
    }
  }

  // ---- Every interleaving ----

  lemma StepKeeps(s: State, step: Step)
    requires Inv(s)
    ensures Inv(Next(s, step))
  {
    hide Inv;
    if Enabled(s, step) {
      match step
      case Claim(n) => ClaimKeeps(s, n);
      case Enqueue(n) => EnqueueKeeps(s, n);
      case Lock(n) => LockKeeps(s, n);
      case Advance => AdvanceKeeps(s);
      case MarkStart(t, n) => MarkStartKeeps(s, t, n);
      case MarkStep(t) =>
        match s.markers[t]
        case Unqueued(_) => SawHeadKeeps(s, t);
        case SawHead(_, _) => DecideKeeps(s, t);
        case Decided(_, _) => RemoveKeeps(s, t);
    }
  }

  lemma {:induction false} RunsKeep(steps: seq<Step>)
    ensures Inv(Run(START, steps))
    decreases |steps|
  {
    if steps == [] {
      assert UpTo(0) == [];
    } else {
      hide Inv;
      RunsKeep(steps[..|steps| - 1]);
      StepKeeps(Run(START, steps[..|steps| - 1]), steps[|steps| - 1]);
    }
  }

  /** In every interleaving the published digest folds 1, 2, 3, ... with none
      skipped and at least up to the head, and an event that left the buffer is
      stored-marked and folded. */
  lemma NothingDroppedUnfolded(steps: seq<Step>, n: nat)
    ensures var s := Run(START, steps);
      && s.digest == UpTo(|s.digest|) && s.head <= |s.digest|
      && (n in s.claimed && n !in s.buffer ==> n in s.digest && n !in s.unpersisted)
  {
    RunsKeep(steps);
    var s := Run(START, steps);
    hide Run;
    if n in s.claimed && n !in s.buffer {
      assert s.digest[n - 1] == n;
    }
  }

  /** Whoever finishes last, once everyone has finished, an event is buffered
      exactly while it is queued for storage or beyond the head. */
  lemma BufferExactAtRest(steps: seq<Step>, n: nat)
    requires var s := Run(START, steps); s.advancer.Idle? && s.markers == map[]
    ensures var s := Run(START, steps);
      n in s.queued ==> (n in s.buffer <==> n in s.unpersisted || n > s.head)
  {
    RunsKeep(steps);
    var s := Run(START, steps);
    hide Run;
    assert !MarkerWill(s, n) && !PrunerWill(s, n);
  }
}
