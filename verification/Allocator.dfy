/** Per-bucket seq/epoch allocation for one node: the in-memory counters, the
    durable rows behind them, and what every run of allocations, checkpoints,
    failures and restarts hands out. */
module Allocator {
  import opened Types

  /** A durable allocator row. */
  datatype Row = Row(epoch: nat, nextSeq: nat, needsBump: bool)

  /** An in-memory counter. */
  datatype Counter = Counter(epoch: nat, nextSeq: nat, needsBump: bool)

  datatype AllocState = AllocState(counters: map<string, Counter>, rows: map<string, Row>)

  /** How a storage call may go: the effect may be durable although the caller saw an error. */
  datatype StorageFate = Done | LostBefore | LostAfter

  type Pair = (nat, nat)

  predicate PairLess(a: Pair, b: Pair) {
    a.0 < b.0 || (a.0 == b.0 && a.1 < b.1)
  }

  // ---- Storage operations on one node's rows ----

  /** Bump a row whose flag is set, leave a row whose flag is clear, create a missing one. */
  function BumpedRow(rows: map<string, Row>, bucket: string): Row {
    if bucket in rows then
      if rows[bucket].needsBump then Row(rows[bucket].epoch + 1, 1, false) else rows[bucket]
    else Row(1, 1, false)
  }

  function PersistedRows(rows: map<string, Row>, bucket: string, nextSeq: nat): map<string, Row> {
    if bucket in rows && nextSeq > rows[bucket].nextSeq
    then rows[bucket := rows[bucket].(nextSeq := nextSeq)]
    else rows
  }

  function PendingRows(rows: map<string, Row>): map<string, Row> {
    map b | b in rows :: rows[b].(needsBump := true)
  }

  // ---- The allocator's operations ----

  /** The pair the next successful allocation hands out. */
  function NextPair(a: AllocState, bucket: string): Pair {
    if bucket in a.counters && !a.counters[bucket].needsBump then
      (a.counters[bucket].epoch, a.counters[bucket].nextSeq)
    else if bucket in a.counters then
      (BumpedRow(a.rows, bucket).epoch, 1)
    else
      (BumpedRow(a.rows, bucket).epoch, BumpedRow(a.rows, bucket).nextSeq)
  }

  /** The state after an allocation that reaches the end. */
  function AfterAllocate(a: AllocState, bucket: string): AllocState {
    var p := NextPair(a, bucket);
    var rows := if bucket in a.counters && !a.counters[bucket].needsBump then a.rows
                else a.rows[bucket := BumpedRow(a.rows, bucket)];
    AllocState(a.counters[bucket := Counter(p.0, p.1 + 1, false)], rows)
  }

  /** An allocation whose storage call fails hands out nothing; the bump may
      have become durable nevertheless. */
  function AfterFailedAllocate(a: AllocState, bucket: string, fate: StorageFate): AllocState {
    if fate == LostAfter && !(bucket in a.counters && !a.counters[bucket].needsBump)
    then a.(rows := a.rows[bucket := BumpedRow(a.rows, bucket)])
    else a
  }

  function AfterCheckpoint(a: AllocState, bucket: string): AllocState {
    if bucket in a.counters
    then a.(rows := PersistedRows(a.rows, bucket, a.counters[bucket].nextSeq))
    else a
  }

  /** Crash, then `load_from_storage`: all counters are lost, every row is
      flagged and loaded. */
  function AfterRestart(a: AllocState): AllocState {
    var rows := PendingRows(a.rows);
    AllocState(map b | b in rows :: Counter(rows[b].epoch, rows[b].nextSeq, rows[b].needsBump), rows)
  }

  /** The bucket-delete cascade. */
  function AfterForget(a: AllocState, bucket: string): AllocState {
    AllocState(a.counters - {bucket}, a.rows - {bucket})
  }

  /** What holds between operations of one node, once startup loads succeed. */
  predicate Consistent(a: AllocState) {
    && (forall b :: b in a.counters ==> b in a.rows)
    && (forall b :: b in a.counters && !a.counters[b].needsBump ==>
          a.counters[b].epoch == a.rows[b].epoch && !a.rows[b].needsBump && a.counters[b].nextSeq >= 1)
    && (forall b :: b in a.rows && b !in a.counters ==> a.rows[b] == Row(1, 1, false))
  }

  /** A bucket whose allocator has no durable row yet starts at (1, 1). */
  lemma FirstPair(bucket: string)
    ensures NextPair(AllocState(map[], map[]), bucket) == (1, 1)
  {
  }

  /** An allocation moves its own bucket one seq on and no other bucket. */
  lemma AllocateAdvances(a: AllocState, bucket: string)
    requires Consistent(a)
    ensures var a' := AfterAllocate(a, bucket);
      && Consistent(a')
      && NextPair(a', bucket) == (NextPair(a, bucket).0, NextPair(a, bucket).1 + 1)
      && forall b :: b != bucket ==> NextPair(a', b) == NextPair(a, b)
  {
  }

  // ---- Runs ----

  datatype Op =
    | Allocate(bucket: string)
    | FailAllocate(bucket: string, fate: StorageFate)
    | Checkpoint(bucket: string)
    | Restart

  function Apply(a: AllocState, op: Op): AllocState {
    match op
    case Allocate(b) => AfterAllocate(a, b)
    case FailAllocate(b, fate) => AfterFailedAllocate(a, b, fate)
    case Checkpoint(b) => AfterCheckpoint(a, b)
    case Restart => AfterRestart(a)
  }

  /** The pairs a run hands out for one bucket, in order. */
  function HandedOut(a: AllocState, ops: seq<Op>, bucket: string): seq<Pair>
    decreases ops
  {
    if ops == [] then []
    else if ops[0] == Allocate(bucket) then [NextPair(a, bucket)] + HandedOut(Apply(a, ops[0]), ops[1..], bucket)
    else HandedOut(Apply(a, ops[0]), ops[1..], bucket)
  }

  /** Either the next seq of the same epoch, or the first seq of a later epoch. */
  predicate Follows(p: Pair, q: Pair) {
    q == (p.0, p.1 + 1) || (p.0 < q.0 && q.1 == 1)
  }

  predicate KeepsOrSkips(p: Pair, q: Pair) {
    q == p || (p.0 < q.0 && q.1 == 1)
  }

  /** No operation but an allocation of the bucket itself moves what it will be
      handed next, except to the first seq of a later epoch. */
  lemma OtherOpsKeepOrSkip(a: AllocState, op: Op, bucket: string)
    requires Consistent(a) && op != Allocate(bucket)
    ensures Consistent(Apply(a, op))
    ensures KeepsOrSkips(NextPair(a, bucket), NextPair(Apply(a, op), bucket))
  {
    match op
    case Allocate(b) => AllocateAdvances(a, b);
    case FailAllocate(b, fate) =>
    case Checkpoint(b) =>
    case Restart =>
  }

  lemma {:induction false} HandedOutFollows(a: AllocState, ops: seq<Op>, bucket: string)
    requires Consistent(a)
    ensures var out := HandedOut(a, ops, bucket);
      && (|out| > 0 ==> KeepsOrSkips(NextPair(a, bucket), out[0]))
      && forall i :: 0 < i < |out| ==> Follows(out[i - 1], out[i])
    decreases ops
  {
    if ops != [] {
      if ops[0] == Allocate(bucket) {
        AllocateAdvances(a, bucket);
        HandedOutFollows(Apply(a, ops[0]), ops[1..], bucket);
        var rest := HandedOut(Apply(a, ops[0]), ops[1..], bucket);
        assert HandedOut(a, ops, bucket) == [NextPair(a, bucket)] + rest;
      } else {
        OtherOpsKeepOrSkip(a, ops[0], bucket);
        HandedOutFollows(Apply(a, ops[0]), ops[1..], bucket);
      }
    }
  }

  lemma {:induction false} FollowsIsIncreasing(out: seq<Pair>, i: nat, j: nat)
    requires i < j < |out|
    requires forall k :: 0 < k < |out| ==> Follows(out[k - 1], out[k])
    ensures PairLess(out[i], out[j])
    decreases j
  {
    assert Follows(out[j - 1], out[j]);
    if i < j - 1 {
      FollowsIsIncreasing(out, i, j - 1);
    }
  }

  /** Below any handed-out seq, the whole prefix of its epoch was handed out too. */
  lemma {:induction false} PrefixHandedOut(out: seq<Pair>, j: nat, s: nat)
    requires j < |out| && 1 <= s <= out[j].1
    requires out[0].1 == 1
    requires forall k :: 0 < k < |out| ==> Follows(out[k - 1], out[k])
    ensures exists i :: 0 <= i <= j && out[i] == (out[j].0, s)
  {
    if s == out[j].1 {
      assert out[j] == (out[j].0, s);
    } else {
      assert j > 0 && Follows(out[j - 1], out[j]);
      PrefixHandedOut(out, j - 1, s);
    }
  }

  /** Over any run from a fresh disk, of allocations, ambiguous storage
      failures, checkpoints and restarts, the pairs handed out for a bucket
      strictly increase and each epoch's seqs are exactly 1, 2, 3, ... */
  lemma AllocationsNeverRepeatNorSkip(ops: seq<Op>, bucket: string)
    ensures var out := HandedOut(AllocState(map[], map[]), ops, bucket);
      && (forall i, j :: 0 <= i < j < |out| ==> PairLess(out[i], out[j]))
      && (forall j, s :: 0 <= j < |out| && 1 <= s <= out[j].1 ==>
            exists i :: 0 <= i <= j && out[i] == (out[j].0, s))
      && (forall j :: 0 <= j < |out| ==> out[j].1 >= 1)
  {
    var a := AllocState(map[], map[]);
    var out := HandedOut(a, ops, bucket);
    HandedOutFollows(a, ops, bucket);
    FirstPair(bucket);
    forall i, j | 0 <= i < j < |out|
      ensures PairLess(out[i], out[j])
    {
      FollowsIsIncreasing(out, i, j);
    }
    forall j, s | 0 <= j < |out| && 1 <= s <= out[j].1
      ensures exists i :: 0 <= i <= j && out[i] == (out[j].0, s)
    {
      PrefixHandedOut(out, j, s);
    }
    forall j | 0 <= j < |out|
      ensures out[j].1 >= 1
    {
      SeqsArePositive(out, j);
    }
  }

  lemma {:induction false} SeqsArePositive(out: seq<Pair>, j: nat)
    requires j < |out| && out[0].1 == 1
    requires forall k :: 0 < k < |out| ==> Follows(out[k - 1], out[k])
    ensures out[j].1 >= 1
  {
    if j > 0 {
      assert Follows(out[j - 1], out[j]);
      SeqsArePositive(out, j - 1);
    }
  }
}
