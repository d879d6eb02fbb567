/** Any number of writers allocating from one bucket that a restart left
    flagged: the double-checked bump, one atomic operation at a time. */
module AllocatorRace {
  import opened Types
  import opened Allocator

  /** Where a writer is inside `allocate`. */
  datatype Writer =
    | Entering
    | AwaitingLock
    | Rechecking
    | Bumping
    | StoringEpoch(epoch: nat)
    | StoringSeq
    | ClearingFlag
    | Unlocking
    | ReadingEpoch
    | TakingSeq(epoch: nat)

  datatype State = State(
    row: Row,
    epoch: nat,
    nextSeq: nat,
    needsBump: bool,
    lock: Option<nat>,
    writers: map<nat, Writer>,
    handed: seq<Pair>,
    bumps: nat)

  datatype Step =
    | Enter(writer: nat)
    | Move(writer: nat, fate: StorageFate)

  function At(s: State, w: nat, pc: Writer): State {
    s.(writers := s.writers[w := pc])
  }

  /** A writer's next atomic operation. A failed bump returns an error to its
      caller, with or without its effect; the lock is then released. */
  function Moved(s: State, w: nat, fate: StorageFate): State
    requires w in s.writers
  {
    match s.writers[w]
    case Entering => At(s, w, if s.needsBump then AwaitingLock else ReadingEpoch)
    case AwaitingLock => if s.lock.None? then At(s.(lock := Some(w)), w, Rechecking) else s
    case Rechecking => At(s, w, if s.needsBump then Bumping else Unlocking)
    case Bumping =>
      var bumped := if s.row.needsBump then Row(s.row.epoch + 1, 1, false) else s.row;
      var durable := if fate == LostBefore then s else s.(row := bumped, bumps := s.bumps + (if s.row.needsBump then 1 else 0));
      if fate == Done then At(durable, w, StoringEpoch(bumped.epoch))
      else durable.(lock := None, writers := s.writers - {w})
    case StoringEpoch(epoch) => At(s.(epoch := epoch), w, StoringSeq)
    case StoringSeq => At(s.(nextSeq := 1), w, ClearingFlag)
    case ClearingFlag => At(s.(needsBump := false), w, Unlocking)
    case Unlocking => At(s.(lock := None), w, ReadingEpoch)
    case ReadingEpoch => At(s, w, TakingSeq(s.epoch))
    case TakingSeq(epoch) =>
      s.(nextSeq := s.nextSeq + 1, handed := s.handed + [(epoch, s.nextSeq)], writers := s.writers - {w})
  }

  function Next(s: State, step: Step): State {
    match step
    case Enter(w) => if w in s.writers then s else At(s, w, Entering)
    case Move(w, fate) => if w in s.writers then Moved(s, w, fate) else s
  }

  function Run(s: State, steps: seq<Step>): State
    decreases |steps|
  {
    if steps == [] then s else Next(Run(s, steps[..|steps| - 1]), steps[|steps| - 1])
  }

  /** The registered allocator right after a restart. */
  function Restarted(epoch: nat, nextSeq: nat): State {
    State(Row(epoch, nextSeq, true), epoch, nextSeq, true, None, map[], [], 0)
  }

  predicate HoldsLock(pc: Writer) {
    pc.Rechecking? || pc.Bumping? || pc.StoringEpoch? || pc.StoringSeq? || pc.ClearingFlag? || pc.Unlocking?
  }

  /** What a writer's position says, after a restart at epoch `base`. */
  predicate WriterOk(s: State, base: nat, pc: Writer) {
    match pc
    case Bumping => s.needsBump
    case StoringEpoch(e) => s.needsBump && s.bumps == 1 && e == base + 1
    case StoringSeq => s.needsBump && s.bumps == 1 && s.epoch == base + 1
    case ClearingFlag => s.needsBump && s.bumps == 1 && s.epoch == base + 1 && s.nextSeq == 1
    case Unlocking => !s.needsBump
    case ReadingEpoch => !s.needsBump
    case TakingSeq(e) => !s.needsBump && e == base + 1
    case _ => true
  }

  ghost predicate Inv(s: State, base: nat) {
    && s.bumps == (if s.row.needsBump then 0 else 1) && s.row.epoch == base + s.bumps
    && (s.needsBump ==> s.handed == [])
    && (!s.needsBump ==> s.bumps == 1 && s.epoch == base + 1 && s.nextSeq == |s.handed| + 1)
    && (forall i :: 0 <= i < |s.handed| ==> s.handed[i] == (base + 1, i + 1))
    && (forall w :: w in s.writers ==> WriterOk(s, base, s.writers[w]))
    && (forall w :: w in s.writers && HoldsLock(s.writers[w]) ==> s.lock == Some(w))
  }

  lemma StepKeeps(s: State, step: Step, base: nat)
    requires Inv(s, base)
    ensures Inv(Next(s, step), base)
  {
    if step.Move? && step.writer in s.writers {
      MoveKeeps(s, step.writer, step.fate, base);
    }
  }

  lemma MoveKeeps(s: State, w: nat, fate: StorageFate, base: nat)
    requires Inv(s, base) && w in s.writers
    ensures Inv(Moved(s, w, fate), base)
  {
    var s' := Moved(s, w, fate);
    assert WriterOk(s, base, s.writers[w]);
    forall v | v in s'.writers && v != w
      ensures WriterOk(s', base, s'.writers[v]) && (HoldsLock(s'.writers[v]) ==> s'.lock == Some(v))
    {
      assert v in s.writers && s'.writers[v] == s.writers[v];
      assert WriterOk(s, base, s.writers[v]);
      assert HoldsLock(s.writers[v]) ==> s.lock == Some(v);
    }
  }

  lemma {:induction false} RunsKeep(epoch: nat, nextSeq: nat, steps: seq<Step>)
    ensures Inv(Run(Restarted(epoch, nextSeq), steps), epoch)
    decreases |steps|
  {
    if steps != [] {
      hide Inv, Next;
      RunsKeep(epoch, nextSeq, steps[..|steps| - 1]);
      StepKeeps(Run(Restarted(epoch, nextSeq), steps[..|steps| - 1]), steps[|steps| - 1], epoch);
    }
  }

  /** However the writers interleave and whichever bumps fail, at most one bump
      becomes durable, exactly one once anything is handed out, and the pairs
      handed out are the seqs 1, 2, 3, ... of that one new epoch. */
  lemma OneBumpDistinctSeqs(epoch: nat, nextSeq: nat, steps: seq<Step>)
    ensures var s := Run(Restarted(epoch, nextSeq), steps);
      && s.bumps <= 1 && s.row.epoch == epoch + s.bumps
      && (s.handed != [] ==> s.bumps == 1)
      && (forall i :: 0 <= i < |s.handed| ==> s.handed[i] == (epoch + 1, i + 1))
  {
    RunsKeep(epoch, nextSeq, steps);
    hide Run;
  }

  // ---- The arm for a bucket seen for the first time ----

  /** A writer that found no allocator, or one that holds an allocator object. */
  datatype Opener = Missed | Holding(counter: nat)

  datatype Opening = Opening(
    registered: Option<nat>,
    counters: map<nat, nat>,
    openers: map<nat, Opener>,
    handed: seq<Pair>)

  datatype OpenStep = Lookup(writer: nat) | Open(writer: nat) | Take(writer: nat)

  /** This arm is outside the bump lock: whoever missed builds an allocator
      object of its own from the one durable row (epoch 1, next seq 1) and
      registers it over whatever is there. */
  function Opened(s: Opening, step: OpenStep): Opening {
    match step
    case Lookup(w) =>
      if w in s.openers then s
      else s.(openers := s.openers[w := if s.registered.Some? then Holding(s.registered.value) else Missed])
    case Open(w) =>
      if w in s.openers && s.openers[w].Missed?
      then Opening(Some(w), s.counters[w := 1], s.openers[w := Holding(w)], s.handed)
      else s
    case Take(w) =>
      if w in s.openers && s.openers[w].Holding? && s.openers[w].counter in s.counters
      then var c := s.openers[w].counter;
        Opening(s.registered, s.counters[c := s.counters[c] + 1], s.openers - {w}, s.handed + [(1, s.counters[c])])
      else s
  }

  function OpenRun(s: Opening, steps: seq<OpenStep>): Opening
    decreases |steps|
  {
    if steps == [] then s else Opened(OpenRun(s, steps[..|steps| - 1]), steps[|steps| - 1])
  }

  const UNSEEN := Opening(None, map[], map[], [])

  /** No other writer is between a miss and its registration when a writer looks the bucket up. */
  predicate Alone(s: Opening, step: OpenStep) {
    step.Lookup? && step.writer !in s.openers ==> forall v :: v in s.openers ==> !s.openers[v].Missed?
  }

  predicate Orderly(s: Opening, steps: seq<OpenStep>)
    decreases |steps|
  {
    steps == [] || (Orderly(s, steps[..|steps| - 1]) && Alone(OpenRun(s, steps[..|steps| - 1]), steps[|steps| - 1]))
  }

  predicate OneCounter(s: Opening) {
    && (forall i :: 0 <= i < |s.handed| ==> s.handed[i] == (1, i + 1))
    && (s.registered.None? ==> s.handed == [] && s.counters == map[])
    && (s.registered.Some? ==>
          s.registered.value in s.counters && s.counters[s.registered.value] == |s.handed| + 1
          && forall v :: v in s.openers ==> s.openers[v] == Holding(s.registered.value))
    && (forall v, w :: v in s.openers && w in s.openers && s.openers[v].Missed? && s.openers[w].Missed? ==> v == w)
    && (s.registered.None? ==> forall v :: v in s.openers ==> s.openers[v].Missed?)
  }

  /** When misses do not overlap, the first-bucket arm hands out 1, 2, 3, ... too. */
  lemma {:induction false} SeparateMissesAreSafe(steps: seq<OpenStep>)
    requires Orderly(UNSEEN, steps)
    ensures OneCounter(OpenRun(UNSEEN, steps))
    decreases |steps|
  {
    if steps != [] {
      SeparateMissesAreSafe(steps[..|steps| - 1]);
      OpenStepKeeps(OpenRun(UNSEEN, steps[..|steps| - 1]), steps[|steps| - 1]);
    }
  }

  lemma OpenStepKeeps(s: Opening, step: OpenStep)
    requires OneCounter(s) && Alone(s, step)
    ensures OneCounter(Opened(s, step))
  {
  }

  // ---- Overlapping misses always repeat a pair ----

  /** How often the first pair was handed out. */
  function Firsts(handed: seq<Pair>): nat {
    if handed == [] then 0 else Firsts(handed[..|handed| - 1]) + (if handed[|handed| - 1] == (1, 1) then 1 else 0)
  }

  /** The allocator objects that gave out at least one pair. */
  function Used(counters: map<nat, nat>): set<nat> {
    set c | c in counters && counters[c] >= 2
  }

  /** Every used allocator object gave out the first pair once. */
  ghost predicate Accounted(s: Opening) {
    && Firsts(s.handed) == |Used(s.counters)|
    && (s.registered.None? ==> s.counters == map[])
    && (forall c :: c in s.counters ==> s.counters[c] >= 1)
    && (forall w :: w in s.openers && s.openers[w].Missed? ==> w !in s.counters)
  }

  lemma OpenStepAccounted(s: Opening, step: OpenStep)
    requires Accounted(s)
    ensures Accounted(Opened(s, step))
  {
    var s' := Opened(s, step);
    if s'.handed != s.handed {
      var c := s.openers[step.writer].counter;
      assert s'.handed[..|s'.handed| - 1] == s.handed;
      assert Used(s'.counters) == Used(s.counters) + {c};
      assert c in Used(s.counters) ==> Used(s'.counters) == Used(s.counters);
    } else {
      assert Used(s'.counters) == Used(s.counters);
    }
  }

  /** A writer that missed has yet to use the allocator object it builds, or the object was used. */
  predicate MissedOnce(s: Opening, w: nat) {
    || (w in s.openers && s.openers[w].Missed?)
    || (w in s.counters && w in s.openers && s.openers[w] == Holding(w))
    || (w in s.counters && s.counters[w] >= 2)
  }

  lemma OpenStepMissed(s: Opening, step: OpenStep, w: nat)
    requires Accounted(s) && MissedOnce(s, w)
    ensures MissedOnce(Opened(s, step), w)
  {
  }

  lemma {:induction false} RunAccounted(steps: seq<OpenStep>)
    ensures Accounted(OpenRun(UNSEEN, steps))
    decreases |steps|
  {
    if steps == [] {
      assert Used(map[]) == {};
    } else {
      hide Accounted, Opened;
      RunAccounted(steps[..|steps| - 1]);
      OpenStepAccounted(OpenRun(UNSEEN, steps[..|steps| - 1]), steps[|steps| - 1]);
    }
  }

  lemma {:induction false} RunMissed(steps: seq<OpenStep>, n: nat, w: nat)
    requires n <= |steps| && MissedOnce(OpenRun(UNSEEN, steps[..n]), w)
    ensures MissedOnce(OpenRun(UNSEEN, steps), w)
    decreases |steps|
  {
    if n == |steps| {
      assert steps[..n] == steps;
    } else {
      var before := steps[..|steps| - 1];
      assert before[..n] == steps[..n];
      hide Accounted, Opened, MissedOnce;
      RunMissed(before, n, w);
      RunAccounted(before);
      OpenStepMissed(OpenRun(UNSEEN, before), steps[|steps| - 1], w);
    }
  }

  ghost predicate Distinct(handed: seq<Pair>) {
    forall i, j :: 0 <= i < j < |handed| ==> handed[i] != handed[j]
  }

  lemma {:induction false} FirstsAtMostOne(handed: seq<Pair>)
    requires Distinct(handed)
    ensures Firsts(handed) <= 1
    ensures Firsts(handed) == 1 ==> (1, 1) in handed
    decreases |handed|
  {
    if handed != [] {
      FirstsAtMostOne(handed[..|handed| - 1]);
    }
  }

  /** Whatever happens next: once two writers have missed at the same time and
      all writers are done, some pair was handed out twice. */
  lemma OverlappingMissesRepeat(steps: seq<OpenStep>, n: nat, a: nat, b: nat)
    requires n <= |steps| && a != b && OpenRun(UNSEEN, steps).openers == map[]
    requires var s := OpenRun(UNSEEN, steps[..n]);
      a in s.openers && b in s.openers && s.openers[a].Missed? && s.openers[b].Missed?
    ensures !Distinct(OpenRun(UNSEEN, steps).handed)
  {
    var t := OpenRun(UNSEEN, steps);
    RunMissed(steps, n, a);
    RunMissed(steps, n, b);
    RunAccounted(steps);
    hide OpenRun;
    assert {a, b} <= Used(t.counters);
    assert Used(t.counters) == {a, b} + (Used(t.counters) - {a, b});
    if Distinct(t.handed) {
      FirstsAtMostOne(t.handed);
    }
  }

  /** A run that is not orderly has two writers that missed at the same time. */
  lemma {:induction false} SomeOverlap(steps: seq<OpenStep>) returns (n: nat, a: nat, b: nat)
    requires !Orderly(UNSEEN, steps)
    ensures n <= |steps| && a != b
    ensures var s := OpenRun(UNSEEN, steps[..n]);
      a in s.openers && b in s.openers && s.openers[a].Missed? && s.openers[b].Missed?
    decreases |steps|
  {
    var before := steps[..|steps| - 1];
    if Orderly(UNSEEN, before) {
      SeparateMissesAreSafe(before);
      var s := OpenRun(UNSEEN, before);
      b :| b in s.openers && s.openers[b].Missed?;
      n, a := |steps|, steps[|steps| - 1].writer;
      assert steps[..n] == steps;
    } else {
      n, a, b := SomeOverlap(before);
      assert before[..n] == steps[..n];
    }
  }

  /** In every completed run the pairs handed out are distinct exactly when no
      writer looked the bucket up while another was between its miss and its
      registration. */
  lemma DistinctIffOrderly(steps: seq<OpenStep>)
    requires OpenRun(UNSEEN, steps).openers == map[]
    ensures Distinct(OpenRun(UNSEEN, steps).handed) <==> Orderly(UNSEEN, steps)
  {
    if Orderly(UNSEEN, steps) {
      SeparateMissesAreSafe(steps);
    } else {
      var n, a, b := SomeOverlap(steps);
      OverlappingMissesRepeat(steps, n, a, b);
    }
  }

  /** For instance, two writers that missed and then finish one after the other
      are both handed the first pair. */
  lemma MissesInTurnRepeat(s: Opening, a: nat, b: nat)
    requires a != b && a in s.openers && b in s.openers && s.openers[a].Missed? && s.openers[b].Missed?
    ensures var t := Opened(Opened(Opened(Opened(s, Open(a)), Take(a)), Open(b)), Take(b));
      t.handed == s.handed + [(1, 1), (1, 1)]
  {
  }
}
