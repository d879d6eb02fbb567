/** What equal rolling digests say about two logs. The text an event is hashed
    as joins its fields with colons and does not escape them, so it tells two
    events of a line apart except on a certain pair of accounts. */
module Divergence {
  import opened Ledger
  import opened Texts
  import opened Types

  /** As nodes mint events: ids, and so the ids events refer to, are not empty
      and hold no colon; amounts are signed words. Buckets, accounts, origins
      and nonces are arbitrary. */
  predicate Tidy(e: Event) {
    && ':' !in e.id
    && (e.voidRef.Some? ==> e.voidRef.value != "" && ':' !in e.voidRef.value)
    && IsI64(e.amount)
  }

  /** The longer name goes on after the shorter one with a colon and a number,
      and ends there or has another colon. */
  ghost predicate Continues(shorter: string, longer: string) {
    exists k :: IsI64(k) && shorter + ":" + Signed(k) + ":" <= longer + ":"
  }

  ghost predicate Confusable(a: string, b: string) {
    Continues(a, b) || Continues(b, a)
  }

  // ---- Reading the text from both ends ----

  /** The text from the account on. */
  function Ending(account: string, amount: int, ref: string, nonce: string, hold: nat, expires: nat): string {
    Field(account, Field(Signed(amount), Field(ref, Field(nonce, Field(Decimal(hold), Decimal(expires))))))
  }

  lemma KindNamesDiffer(a: EventType, b: EventType)
    ensures KindName(a) == KindName(b) <==> a == b
    ensures ':' !in KindName(a)
  {
    assert |KindName(Standard)| == 8 && |KindName(ReservationCreate)| == 18 && |KindName(EventType.Void)| == 4;
    assert |KindName(HoldRelease)| == 12 && |KindName(BucketDelete)| == 13;
  }

  function EndingOf(e: Event): string {
    Ending(e.account, e.amount, TextOf(e.voidRef), e.nonce, e.holdAmount, e.holdExpires)
  }

  /** Up to the account, two events at one place of a line are told apart. */
  lemma BeginningsAgree(x: Event, y: Event)
    requires x.Key() == y.Key() && ':' !in x.id && ':' !in y.id
    ensures CanonicalOf(x) == CanonicalOf(y) <==> x.id == y.id && x.kind == y.kind && EndingOf(x) == EndingOf(y)
  {
    KindNamesDiffer(x.kind, y.kind);
    KindNamesDiffer(y.kind, x.kind);
    hide Decimal, Signed, KindName, Ending, Field;
    var a, b := Field(x.bucket, EndingOf(x)), Field(y.bucket, EndingOf(y));
    var c, d := Field(KindName(x.kind), a), Field(KindName(y.kind), b);
    CanonicalParts(x);
    CanonicalParts(y);
    FieldCancels(x.origin, Field(Decimal(x.epoch), Field(Decimal(x.seqNo), Field(x.id, c))),
                 Field(Decimal(x.epoch), Field(Decimal(x.seqNo), Field(y.id, d))));
    FieldCancels(Decimal(x.epoch), Field(Decimal(x.seqNo), Field(x.id, c)), Field(Decimal(x.seqNo), Field(y.id, d)));
    FieldCancels(Decimal(x.seqNo), Field(x.id, c), Field(y.id, d));
    FieldParts(x.id, c, y.id, d);
    FieldParts(KindName(x.kind), a, KindName(y.kind), b);
    FieldCancels(x.bucket, EndingOf(x), EndingOf(y));
  }

  lemma CanonicalParts(e: Event)
    ensures CanonicalOf(e) == Field(e.origin, Field(Decimal(e.epoch), Field(Decimal(e.seqNo), Field(e.id,
      Field(KindName(e.kind), Field(e.bucket, EndingOf(e)))))))
  {
    hide Decimal, Signed, KindName, Field;
  }

  /** Of one account, the rest is told apart too: the nonce is read from the right. */
  lemma EndingsAgree(account: string, m: int, n: int, r: string, s: string, p: string, q: string,
                     g: nat, h: nat, w: nat, x: nat)
    requires ':' !in r && ':' !in s
    ensures Ending(account, m, r, p, g, w) == Ending(account, n, s, q, h, x) <==>
      m == n && r == s && p == q && g == h && w == x
  {
    SignedInjective(m, n);
    SignedInjective(n, m);
    var a, b := Field(p, Field(Decimal(g), Decimal(w))), Field(q, Field(Decimal(h), Decimal(x)));
    FieldCancels(account, Field(Signed(m), Field(r, a)), Field(Signed(n), Field(s, b)));
    FieldParts(Signed(m), Field(r, a), Signed(n), Field(s, b));
    FieldParts(r, a, s, b);
    HoldsAgree(p, q, g, h, w, x);
    hide Decimal, Signed, Field;
  }

  lemma HoldsAgree(p: string, q: string, g: nat, h: nat, w: nat, x: nat)
    ensures Field(p, Field(Decimal(g), Decimal(w))) == Field(q, Field(Decimal(h), Decimal(x)))
      <==> p == q && g == h && w == x
  {
    NoColon(g);
    NoColon(h);
    NoColon(w);
    NoColon(x);
    DecimalInjective(g, h);
    DecimalInjective(w, x);
    hide Decimal;
    LastTwo(p, Decimal(g), Decimal(w), q, Decimal(h), Decimal(x));
  }

  lemma LastTwo(p: string, a: string, b: string, q: string, c: string, d: string)
    requires ':' !in a && ':' !in b && ':' !in c && ':' !in d
    ensures Field(p, Field(a, b)) == Field(q, Field(c, d)) <==> p == q && a == c && b == d
  {
    FieldNests(p, a, b);
    FieldNests(q, c, d);
    LastParts(Field(p, a), b, Field(q, c), d);
    LastParts(p, a, q, c);
    hide Field;
  }

  lemma FieldNests(p: string, a: string, b: string)
    ensures Field(p, Field(a, b)) == Field(Field(p, a), b)
  {
  }

  lemma NoColon(n: nat)
    ensures ':' !in Decimal(n)
  {
    DecimalParses(n);
  }

  /** Texts that part their accounts differently show a number after the shorter one. */
  lemma PartsDiffer(a: string, k: int, s: string, b: string, t: string)
    requires Field(a, Field(Signed(k), s)) == Field(b, t) && |a| < |b|
    ensures a + ":" + Signed(k) + ":" <= b + ":"
  {
    SignedInjective(k, k);
    var number := Signed(k);
    hide Signed;
    var whole := Field(b, t);
    var short, long := a + ":" + number + ":", b + ":";
    assert whole[..|short|] == short && whole[..|long|] == long;
    assert whole[|b|] == ':';
    assert forall i :: |a| < i < |short| - 1 ==> whole[i] == number[i - |a| - 1] && whole[i] != ':';
    assert short == long[..|short|];
  }

  lemma AccountsAgree(x: Event, y: Event)
    requires EndingOf(x) == EndingOf(y) && IsI64(x.amount) && IsI64(y.amount)
    ensures x.account == y.account || Confusable(x.account, y.account)
  {
    hide Signed, Decimal;
    var s := Field(TextOf(x.voidRef), Field(x.nonce, Field(Decimal(x.holdAmount), Decimal(x.holdExpires))));
    var t := Field(TextOf(y.voidRef), Field(y.nonce, Field(Decimal(y.holdAmount), Decimal(y.holdExpires))));
    hide TextOf;
    if |x.account| < |y.account| {
      PartsDiffer(x.account, x.amount, s, y.account, Field(Signed(y.amount), t));
    } else if |y.account| < |x.account| {
      PartsDiffer(y.account, y.amount, t, x.account, Field(Signed(x.amount), s));
    } else {
      assert EndingOf(x)[..|x.account|] == x.account && EndingOf(y)[..|y.account|] == y.account;
    }
  }

  /** All twelve hashed fields are equal. The origin, epoch, seq and bucket are
      those of the place in the line. */
  lemma TextsAgree(x: Event, y: Event)
    requires x.Key() == y.Key() && Tidy(x) && Tidy(y) && !Confusable(x.account, y.account)
    ensures CanonicalOf(x) == CanonicalOf(y) <==>
      && x.origin == y.origin && x.epoch == y.epoch && x.seqNo == y.seqNo && x.id == y.id
      && x.kind == y.kind && x.bucket == y.bucket && x.account == y.account && x.amount == y.amount
      && x.voidRef == y.voidRef && x.nonce == y.nonce
      && x.holdAmount == y.holdAmount && x.holdExpires == y.holdExpires
  {
    BeginningsAgree(x, y);
    hide CanonicalOf, Ending, Confusable;
    EndingsAgree(x.account, x.amount, y.amount, TextOf(x.voidRef), TextOf(y.voidRef), x.nonce, y.nonce,
                 x.holdAmount, y.holdAmount, x.holdExpires, y.holdExpires);
    if EndingOf(x) == EndingOf(y) {
      AccountsAgree(x, y);
    }
  }

  // ---- Equal digests ----

  /** Two logs have equal digests up to `n` exactly when they agree there event
      by event in all twelve hashed fields, if no two accounts that differ at
      one place are confusable. */
  lemma DigestDetectsDivergence(log: Log, log': Log, line: EpochKey, n: nat)
    requires WellFormed(log) && WellFormed(log') && Full(log, line, n) && Full(log', line, n)
    requires forall i :: 1 <= i <= n ==> Tidy(log[OriginKey(line, i)]) && Tidy(log'[OriginKey(line, i)])
    requires forall i :: 1 <= i <= n ==> !Confusable(log[OriginKey(line, i)].account, log'[OriginKey(line, i)].account)
    ensures DigestUpTo(log, line, n) == DigestUpTo(log', line, n) <==>
      forall i :: 1 <= i <= n ==>
        var x, y := log[OriginKey(line, i)], log'[OriginKey(line, i)];
        && x.origin == y.origin && x.epoch == y.epoch && x.seqNo == y.seqNo && x.id == y.id
        && x.kind == y.kind && x.bucket == y.bucket && x.account == y.account && x.amount == y.amount
        && x.voidRef == y.voidRef && x.nonce == y.nonce
        && x.holdAmount == y.holdAmount && x.holdExpires == y.holdExpires
  {
    DigestIsTexts(log, log', line, n);
    hide CanonicalOf, Confusable, Tidy, DigestUpTo;
    forall i | 1 <= i <= n
      ensures var x, y := log[OriginKey(line, i)], log'[OriginKey(line, i)];
        CanonicalOf(x) == CanonicalOf(y) <==>
          && x.origin == y.origin && x.epoch == y.epoch && x.seqNo == y.seqNo && x.id == y.id
          && x.kind == y.kind && x.bucket == y.bucket && x.account == y.account && x.amount == y.amount
          && x.voidRef == y.voidRef && x.nonce == y.nonce
          && x.holdAmount == y.holdAmount && x.holdExpires == y.holdExpires
    {
      TextsAgree(log[OriginKey(line, i)], log'[OriginKey(line, i)]);
    }
  }

  // ---- The accounts it cannot tell apart ----

  /** Two tidy events at one place of a line, on these accounts, with one text. */
  ghost predicate Confused(key: OriginKey, x: Event, a: string, y: Event, b: string) {
    x.Key() == y.Key() == key && Tidy(x) && Tidy(y) && x.account == a && y.account == b && CanonicalOf(x) == CanonicalOf(y)
  }

  /** At every place of every line, two different accounts can be mistaken for
      one another exactly when they are confusable. */
  lemma ConfusedIff(key: OriginKey, a: string, b: string)
    requires a != b
    ensures (exists x, y :: Confused(key, x, a, y, b)) <==> Confusable(a, b)
  {
    hide CanonicalOf, Tidy;
    if Continues(a, b) {
      var (x, y) := Mistaken(key, a, b);
      assert Confused(key, x, a, y, b);
    }
    if Continues(b, a) {
      var (y, x) := Mistaken(key, b, a);
      assert Confused(key, x, a, y, b);
    }
    forall x, y | Confused(key, x, a, y, b)
      ensures Confusable(a, b)
    {
      TextsDiffer(x, y);
    }
  }

  lemma TextsDiffer(x: Event, y: Event)
    requires x.Key() == y.Key() && Tidy(x) && Tidy(y) && x.account != y.account && CanonicalOf(x) == CanonicalOf(y)
    ensures Confusable(x.account, y.account)
  {
    hide Confusable, CanonicalOf;
    if !Confusable(x.account, y.account) {
      TextsAgree(x, y);
    }
  }

  function Plain(key: OriginKey, account: string, amount: int, ref: Option<string>, nonce: string): Event {
    Event("", key.line.origin, key.line.epoch, key.seqNo, 0, Standard, key.line.bucket, account, amount, None, nonce, ref,
          0, 0, None)
  }

  /** A zero charge to the longer account, and the charge to the shorter one it
      looks like: the amount is the number, and the rest of the name goes into
      the reference and the nonce. */
  ghost function Mistaken(key: OriginKey, a: string, b: string): (r: (Event, Event))
    requires Continues(a, b)
    ensures Confused(key, r.0, a, r.1, b)
  {
    var k :| IsI64(k) && a + ":" + Signed(k) + ":" <= b + ":";
    var rest := (b + ":")[|a + ":" + Signed(k) + ":"|..] + "0::n";
    FirstField(rest);
    var (ref, nonce) := SplitFirst(rest, ':').value;
    var x := Plain(key, a, k, if ref == "" then None else Some(ref), nonce);
    var y := Plain(key, b, 0, None, "n");
    MistakenTexts(key, x, y, k, rest, ref);
    (x, y)
  }

  lemma MistakenTexts(key: OriginKey, x: Event, y: Event, k: int, rest: string, ref: string)
    requires IsI64(k) && x.account + ":" + Signed(k) + ":" <= y.account + ":" && ':' !in ref
    requires rest == (y.account + ":")[|x.account + ":" + Signed(k) + ":"|..] + "0::n"
    requires rest == Field(ref, x.nonce)
    requires x == Plain(key, x.account, k, if ref == "" then None else Some(ref), x.nonce)
    requires y == Plain(key, y.account, 0, None, "n")
    ensures CanonicalOf(x) == CanonicalOf(y) && Tidy(x) && Tidy(y) && x.Key() == y.Key() == key
  {
    hide CanonicalOf, Confusable;
    BeginningsAgree(x, y);
    assert Signed(0) == "0";
    hide Signed, Decimal, Field;
    MistakenEnding(x.account, Signed(k), y.account, rest, ref, x.nonce, Field(Decimal(0), Decimal(0)));
  }

  lemma MistakenEnding(a: string, number: string, b: string, rest: string, ref: string, nonce: string, holds: string)
    requires a + ":" + number + ":" <= b + ":" && rest == (b + ":")[|a + ":" + number + ":"|..] + "0::n"
    requires rest == Field(ref, nonce)
    ensures Field(a, Field(number, Field(ref, Field(nonce, holds)))) == Field(b, Field("0", Field("", Field("n", holds))))
  {
    var w := (b + ":")[|a + ":" + number + ":"|..];
    assert b + ":" == a + ":" + number + ":" + w;
    FieldNests(ref, nonce, holds);
    assert Field(a, Field(number, Field(rest, holds))) == (a + ":" + number + ":" + w) + "0::n" + ":" + holds;
    assert Field("0", Field("", Field("n", holds))) == "0::n" + ":" + holds;
    assert Field(b, "0::n" + ":" + holds) == (b + ":") + "0::n" + ":" + holds;
  }

  /** So diverging logs with such accounts can have one digest. */
  lemma HiddenDivergence(key: OriginKey, a: string, b: string)
    requires a != b && Confusable(a, b) && key.seqNo == 1
    ensures exists x, y ::
      var log: Log, log': Log := map[key := x], map[key := y];
      && x.account == a && y.account == b && WellFormed(log) && WellFormed(log')
      && Full(log, key.line, 1) && Full(log', key.line, 1)
      && DigestUpTo(log, key.line, 1) == DigestUpTo(log', key.line, 1)
  {
    ConfusedIff(key, a, b);
    hide CanonicalOf, Tidy, Confusable, DigestUpTo, WellFormed, Full;
    var x, y :| Confused(key, x, a, y, b);
    OneEventLogs(key, x, y);
  }

  lemma OneEventLogs(key: OriginKey, x: Event, y: Event)
    requires x.Key() == y.Key() == key && key.seqNo == 1 && CanonicalOf(x) == CanonicalOf(y)
    ensures var log: Log, log': Log := map[key := x], map[key := y];
      && WellFormed(log) && WellFormed(log') && Full(log, key.line, 1) && Full(log', key.line, 1)
      && DigestUpTo(log, key.line, 1) == DigestUpTo(log', key.line, 1)
  {
    hide CanonicalOf, DigestUpTo;
    var log: Log, log': Log := map[key := x], map[key := y];
    assert Full(log, key.line, 1) && Full(log', key.line, 1);
    DigestIsTexts(log, log', key.line, 1);
  }

  /** Names without a colon are never confusable. */
  lemma PlainNamesApart(a: string, b: string)
    requires ':' !in a && ':' !in b
    ensures !Confusable(a, b)
  {
    if Continues(a, b) { GoesOnWithColon(a, b); }
    if Continues(b, a) { GoesOnWithColon(b, a); }
  }

  lemma GoesOnWithColon(shorter: string, longer: string)
    requires Continues(shorter, longer)
    ensures ':' in longer
  {
    var k :| IsI64(k) && shorter + ":" + Signed(k) + ":" <= longer + ":";
    DecimalParses(Magnitude(k));
    assert (longer + ":")[|shorter|] == ':' && longer[|shorter|] == ':';
  }

  /** For instance: a charge of 5 to `alice`, and a zero charge to `alice:5`. */
  lemma AliceIsConfusable()
    ensures Confusable("alice", "alice:5")
  {
    assert Signed(5) == "5";
    assert "alice" + ":" + Signed(5) + ":" <= "alice:5" + ":";
  }
}
