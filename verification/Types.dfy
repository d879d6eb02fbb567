/** The ledger's domain types: events, the keys they are indexed by, and the
    deterministic order that decides which of two duplicate events wins. */
module Types {

  datatype Option<+T> = None | Some(value: T)

  datatype EventType = Standard | ReservationCreate | Void | HoldRelease | BucketDelete

  /** `Display` of an event type. */
  function KindName(kind: EventType): string {
    match kind
    case Standard => "standard"
    case ReservationCreate => "reservation_create"
    case Void => "void"
    case HoldRelease => "hold_release"
    case BucketDelete => "bucket_delete"
  }

  /** Granularity of heads, pending seqs and rolling digests. */
  datatype EpochKey = EpochKey(bucket: string, origin: string, epoch: nat)

  /** The globally unique dedup key of an event. */
  datatype OriginKey = OriginKey(line: EpochKey, seqNo: nat)

  datatype BalanceKey = BalanceKey(bucket: string, account: string)

  datatype IdemKey = IdemKey(nonce: string, bucket: string, account: string, amount: int)

  const META_BUCKET := "__meta__"
  const BILLING_BUCKET_PREFIX := "__billing__"
  const I64_MAX: int := 0x7fff_ffff_ffff_ffff
  const U64_MAX: int := 0xffff_ffff_ffff_ffff

  predicate IsReservedBucketName(name: string) {
    name == META_BUCKET || BILLING_BUCKET_PREFIX <= name
  }

  const TWO63: int := 0x8000_0000_0000_0000
  const TWO64: int := 0x1_0000_0000_0000_0000

  /** The values of a signed 64-bit word. */
  predicate IsI64(x: int) { -TWO63 <= x < TWO63 }

  /** Signed 64-bit arithmetic as a release build does it: the word congruent
      to the exact result. Also the `as i64` cast. */
  function WrapI64(x: int): int {
    (x + TWO63) % TWO64 - TWO63
  }

  function WrapU64(x: int): nat {
    x % TWO64
  }

  lemma WrapExact(x: int)
    ensures IsI64(WrapI64(x))
    ensures WrapI64(x) == x <==> IsI64(x)
  {
  }

  lemma ModShift(a: int, q: int)
    ensures (a - q * TWO64) % TWO64 == a % TWO64
  {
    var d, d' := a / TWO64, (a - q * TWO64) / TWO64;
    assert a == d * TWO64 + a % TWO64;
    assert a - q * TWO64 == d' * TWO64 + (a - q * TWO64) % TWO64;
  }

  /** Wrapping after each step or once at the end gives the same word. */
  lemma WrapSteps(x: int, y: int)
    ensures WrapI64(WrapI64(x) + y) == WrapI64(x + y)
    ensures WrapI64(WrapI64(x) - y) == WrapI64(x - y)
    ensures WrapI64(x - WrapI64(y)) == WrapI64(x - y)
    ensures WrapI64(WrapU64(x)) == WrapI64(x) && WrapU64(WrapU64(x) + y) == WrapU64(x + y)
  {
    var q, p, u := (x + TWO63) / TWO64, (y + TWO63) / TWO64, x / TWO64;
    assert WrapI64(x) == x - q * TWO64 && WrapI64(y) == y - p * TWO64 && WrapU64(x) == x - u * TWO64;
    ModShift(x + y + TWO63, q);
    ModShift(x - y + TWO63, q);
    ModShift(x - y + TWO63, 0 - p);
    ModShift(x + TWO63, u);
    ModShift(x + y, u);
  }

  /** Half the range away from a word is another word. */
  lemma HalfRangeOff(x: int)
    ensures WrapI64(x - TWO63) != WrapI64(x)
  {
    var q, p := (x + TWO63) / TWO64, x / TWO64;
    assert WrapI64(x) == x - q * TWO64 && WrapI64(x - TWO63) == x - TWO63 - p * TWO64;
  }

  datatype Event = Event(
    id: string,
    origin: string,
    epoch: nat,
    seqNo: nat,
    createdAt: nat,
    kind: EventType,
    bucket: string,
    account: string,
    amount: int,
    note: Option<string>,
    nonce: string,
    voidRef: Option<string>,
    holdAmount: nat,
    holdExpires: nat,
    transferTo: Option<string>)
  {
    /** The (bucket, origin, epoch) seq line the event belongs to. */
    function Line(): EpochKey {
      EpochKey(bucket, origin, epoch)
    }

    function Key(): OriginKey {
      OriginKey(Line(), seqNo)
    }

    function Owner(): BalanceKey {
      BalanceKey(bucket, account)
    }

    function Idem(): IdemKey {
      IdemKey(nonce, bucket, account, amount)
    }

    /** Whether this event contributes a reservation. */
    predicate HasHold() {
      match kind
      case ReservationCreate => holdAmount > 0 && holdExpires > 0
      case Standard => amount < 0 && holdAmount > 0 && holdExpires > 0
      case _ => false
    }

    /** The bucket a `BucketDelete` meta event deletes; None for any other shape. */
    function MetaTargetBucket(): Option<string> {
      if kind == BucketDelete && bucket == META_BUCKET then Some(account) else None
    }

    /** Whether this event releases a hold, and which one. */
    function ReleasedHold(): Option<string> {
      if kind == HoldRelease then voidRef else None
    }
  }

  function AmountOf(e: Event): int {
    e.amount
  }

  function KeyAmount(k: IdemKey): int {
    k.amount
  }

  // ---- Nonces derived from other identifiers ----

  function VoidNonce(id: string): string { "void:" + id }
  function ReleaseNonce(id: string): string { "release:" + id }
  function ReserveNonce(nonce: string): string { "reserve:" + nonce }
  function CreditNonce(nonce: string): string { "credit:" + nonce }
  function DeleteNonce(bucket: string): string { "delete:" + bucket }

  predicate IsVoidNonce(s: string) { "void:" <= s }
  predicate IsCreditNonce(s: string) { "credit:" <= s }

  /** Nonces whose cache entries the node installs without a conflict check. */
  predicate IsUncheckedNonce(s: string) {
    "release:" <= s || "reserve:" <= s || "credit:" <= s || "delete:" <= s
  }

  /** A nonce a client may choose: none of the node's own prefixes. */
  predicate IsClientNonce(s: string) {
    !IsVoidNonce(s) && !IsUncheckedNonce(s)
  }

  lemma VoidNonceInjective(x: string, y: string)
    requires VoidNonce(x) == VoidNonce(y)
    ensures x == y
  {
    assert VoidNonce(x)[5..] == x;
    assert VoidNonce(y)[5..] == y;
  }

  /** The derived nonces fall in the classes their prefixes say, and nowhere else. */
  lemma DerivedNonceClasses(x: string)
    ensures IsVoidNonce(VoidNonce(x)) && !IsUncheckedNonce(VoidNonce(x))
    ensures IsUncheckedNonce(ReleaseNonce(x)) && IsUncheckedNonce(ReserveNonce(x))
    ensures IsUncheckedNonce(CreditNonce(x)) && IsUncheckedNonce(DeleteNonce(x))
    ensures IsCreditNonce(CreditNonce(x)) && !IsCreditNonce(ReleaseNonce(x))
    ensures !IsCreditNonce(ReserveNonce(x)) && !IsCreditNonce(DeleteNonce(x)) && !IsCreditNonce(VoidNonce(x))
    ensures forall s :: IsVoidNonce(s) ==> !IsUncheckedNonce(s) && !IsCreditNonce(s)
  {
    assert VoidNonce(x)[0] == 'v';
    assert ReleaseNonce(x)[0] == 'r' && ReserveNonce(x)[0] == 'r' && DeleteNonce(x)[0] == 'd';
    forall s | IsVoidNonce(s)
      ensures !IsUncheckedNonce(s) && !IsCreditNonce(s)
    {
      assert s[0] == 'v';
    }
  }

  // ---- The winner order ----

  /** Byte-wise string order. */
  predicate LexLess(a: string, b: string) {
    if |b| == 0 then false
    else if |a| == 0 then true
    else a[0] < b[0] || (a[0] == b[0] && LexLess(a[1..], b[1..]))
  }

  lemma {:induction false} LexTotal(a: string, b: string)
    ensures a == b || LexLess(a, b) || LexLess(b, a)
    ensures !(LexLess(a, b) && LexLess(b, a))
    ensures a == b ==> !LexLess(a, b)
  {
    if |a| > 0 && |b| > 0 {
      LexTotal(a[1..], b[1..]);
      assert a[0] == b[0] && a[1..] == b[1..] ==> a == b by {
        assert a == [a[0]] + a[1..] && b == [b[0]] + b[1..];
      }
    }
  }

  lemma {:induction false} LexTransitive(a: string, b: string, c: string)
    requires LexLess(a, b) && LexLess(b, c)
    ensures LexLess(a, c)
  {
    if |a| > 0 && a[0] == b[0] == c[0] {
      LexTransitive(a[1..], b[1..], c[1..]);
    }
  }

  /** At `i` the strings part, and `a` ends there or has the smaller character. */
  predicate SmallerAt(a: string, b: string, i: nat) {
    i <= |a| && i < |b| && a[..i] == b[..i] && (i == |a| || a[i] < b[i])
  }

  /** The order by the first differing character, a proper prefix being smaller. */
  lemma {:induction false} LexLessIff(a: string, b: string)
    ensures LexLess(a, b) <==> exists i :: SmallerAt(a, b, i)
  {
    assert forall i: nat :: i > 0 && SmallerAt(a, b, i) ==> a[0] == a[..i][0] == b[..i][0] == b[0];
    if |b| == 0 {
    } else if |a| == 0 {
      assert SmallerAt(a, b, 0);
    } else if a[0] != b[0] {
      assert a[0] < b[0] ==> SmallerAt(a, b, 0);
    } else {
      LexLessIff(a[1..], b[1..]);
      forall i: nat | SmallerAt(a[1..], b[1..], i)
        ensures SmallerAt(a, b, i + 1)
      {
        assert a[..i + 1] == [a[0]] + a[1..][..i] && b[..i + 1] == [b[0]] + b[1..][..i];
      }
      forall i: nat | SmallerAt(a, b, i)
        ensures i > 0 && SmallerAt(a[1..], b[1..], i - 1)
      {
        assert a[1..][..i - 1] == a[..i][1..] && b[1..][..i - 1] == b[..i][1..];
      }
    }
  }

  /** Lower creation time first, then lower event id. */
  predicate Precedes(a: Event, b: Event) {
    a.createdAt < b.createdAt || (a.createdAt == b.createdAt && LexLess(a.id, b.id))
  }

  lemma PrecedesTotal(a: Event, b: Event)
    ensures a.id == b.id || Precedes(a, b) || Precedes(b, a)
    ensures !(Precedes(a, b) && Precedes(b, a))
  {
    LexTotal(a.id, b.id);
  }

  lemma PrecedesTransitive(a: Event, b: Event, c: Event)
    requires Precedes(a, b) && Precedes(b, c)
    ensures Precedes(a, c)
  {
    if a.createdAt == b.createdAt == c.createdAt {
      LexTransitive(a.id, b.id, c.id);
    }
  }

  /** (winner, loser) of two events with the same idempotency key: the winner
      is the one that precedes, whatever the argument order. */
  function IdempotencyWinner(a: Event, b: Event): (r: (Event, Event))
    ensures r == (a, b) || r == (b, a)
    ensures a.id != b.id ==> Precedes(r.0, r.1)
  {
    LexTotal(a.id, b.id);
    if a.createdAt < b.createdAt then (a, b)
    else if b.createdAt < a.createdAt then (b, a)
    else if LexLess(a.id, b.id) then (a, b)
    else (b, a)
  }

  /** The winner was created earlier or, at equal times, has the smaller id:
      the ids' first differing character decides, and a prefix is smaller. */
  lemma WinnerIsEarlierOrSmaller(a: Event, b: Event)
    requires a.id != b.id
    ensures var (winner, loser) := IdempotencyWinner(a, b);
      && {winner, loser} == {a, b}
      && (winner.createdAt < loser.createdAt
          || (winner.createdAt == loser.createdAt && exists i :: SmallerAt(winner.id, loser.id, i)))
  {
    var (winner, loser) := IdempotencyWinner(a, b);
    LexLessIff(winner.id, loser.id);
  }

  lemma IdempotencyWinnerCommutes(a: Event, b: Event)
    requires a.id != b.id
    ensures IdempotencyWinner(a, b) == IdempotencyWinner(b, a)
  {
    PrecedesTotal(a, b);
  }
}
