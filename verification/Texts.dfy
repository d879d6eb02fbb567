/** Numbers as text, and texts split and joined at a separator. */
module Texts {
  import opened Types

  const U32_MAX: nat := 0xffff_ffff

  // ---- Decimal numbers ----

  predicate IsDigit(c: char) { '0' <= c <= '9' }

  function Decimal(n: nat): string {
    if n < 10 then [('0' as int + n) as char] else Decimal(n / 10) + [('0' as int + n % 10) as char]
  }

  function DigitsValue(s: string): Option<nat> {
    if s == [] then Some(0)
    else if !IsDigit(s[|s| - 1]) then None
    else match DigitsValue(s[..|s| - 1])
      case None => None
      case Some(v) => Some(v * 10 + (s[|s| - 1] as int - '0' as int))
  }

  /** `parse::<u32>`: digits, perhaps after a plus sign, within range. */
  function ParseU32(s: string): Option<nat> {
    var digits := if s != [] && s[0] == '+' then s[1..] else s;
    if digits == [] then None
    else match DigitsValue(digits)
      case None => None
      case Some(v) => if v <= U32_MAX then Some(v) else None
  }

  lemma {:induction false} DecimalParses(n: nat)
    ensures DigitsValue(Decimal(n)) == Some(n) && Decimal(n) != []
    ensures forall i :: 0 <= i < |Decimal(n)| ==> IsDigit(Decimal(n)[i])
  {
    if n < 10 {
      assert Decimal(n)[..0] == [];
    } else {
      DecimalParses(n / 10);
      assert Decimal(n)[..|Decimal(n)| - 1] == Decimal(n / 10);
    }
  }

  // ---- Splitting ----

  /** `split_once`: at the first occurrence. */
  function SplitFirst(s: string, c: char): Option<(string, string)> {
    if s == [] then None
    else if s[0] == c then Some(([], s[1..]))
    else match SplitFirst(s[1..], c)
      case None => None
      case Some((l, r)) => Some(([s[0]] + l, r))
  }

  /** `rsplit_once`: at the last occurrence. */
  function SplitLast(s: string, c: char): Option<(string, string)> {
    if s == [] then None
    else if s[|s| - 1] == c then Some((s[..|s| - 1], []))
    else match SplitLast(s[..|s| - 1], c)
      case None => None
      case Some((l, r)) => Some((l, r + [s[|s| - 1]]))
  }

  lemma {:induction false} SplitFirstAt(l: string, c: char, r: string)
    requires c !in l
    ensures SplitFirst(l + [c] + r, c) == Some((l, r))
  {
    var s := l + [c] + r;
    if l == [] {
      assert s[1..] == r;
    } else {
      assert s[1..] == l[1..] + [c] + r;
      SplitFirstAt(l[1..], c, r);
      assert [l[0]] + l[1..] == l;
    }
  }

  lemma {:induction false} SplitFirstIsFree(s: string, c: char)
    ensures SplitFirst(s, c).Some? ==> c !in SplitFirst(s, c).value.0
  {
    if s != [] && s[0] != c {
      SplitFirstIsFree(s[1..], c);
    }
  }

  lemma {:induction false} SplitLastAt(l: string, c: char, r: string)
    requires c !in r
    ensures SplitLast(l + [c] + r, c) == Some((l, r))
  {
    var s := l + [c] + r;
    if r == [] {
      assert s[..|s| - 1] == l;
    } else {
      assert s[..|s| - 1] == l + [c] + r[..|r| - 1];
      SplitLastAt(l, c, r[..|r| - 1]);
      assert r[..|r| - 1] + [r[|r| - 1]] == r;
    }
  }

  lemma DecimalInjective(m: nat, n: nat)
    ensures Decimal(m) == Decimal(n) <==> m == n
  {
    DecimalParses(m);
    DecimalParses(n);
  }

  /** A signed number as text. */
  function Signed(k: int): string {
    if k < 0 then ['-'] + Decimal(-k) else Decimal(k)
  }

  lemma SignedInjective(j: int, k: int)
    ensures Signed(j) == Signed(k) <==> j == k
    ensures ':' !in Signed(k)
  {
    DecimalParses(Magnitude(j));
    DecimalParses(Magnitude(k));
    assert Decimal(Magnitude(j))[0] != '-' && Decimal(Magnitude(k))[0] != '-';
    assert j < 0 ==> Signed(j)[1..] == Decimal(Magnitude(j));
    assert k < 0 ==> Signed(k)[1..] == Decimal(Magnitude(k));
    DecimalInjective(Magnitude(j), Magnitude(k));
  }

  function Magnitude(k: int): nat {
    if k < 0 then -k else k
  }

  // ---- Joining with colons ----

  function Field(s: string, rest: string): string {
    s + [':'] + rest
  }

  lemma FieldCancels(s: string, x: string, y: string)
    ensures Field(s, x) == Field(s, y) <==> x == y
  {
    assert Field(s, x)[|s| + 1..] == x && Field(s, y)[|s| + 1..] == y;
  }

  /** Fields without a colon can be told apart from what follows. */
  lemma FieldParts(s: string, x: string, t: string, y: string)
    requires ':' !in s && ':' !in t
    ensures Field(s, x) == Field(t, y) <==> s == t && x == y
  {
    SplitFirstAt(s, ':', x);
    SplitFirstAt(t, ':', y);
  }

  /** ... and last fields from what precedes. */
  lemma LastParts(x: string, s: string, y: string, t: string)
    requires ':' !in s && ':' !in t
    ensures Field(x, s) == Field(y, t) <==> x == y && s == t
  {
    SplitLastAt(x, ':', s);
    SplitLastAt(y, ':', t);
  }

  /** Any text with a colon is a first field and a rest. */
  lemma {:induction false} FirstField(s: string)
    requires ':' in s
    ensures SplitFirst(s, ':').Some?
    ensures var (l, r) := SplitFirst(s, ':').value; ':' !in l && s == Field(l, r)
  {
    if s[0] != ':' {
      FirstField(s[1..]);
    }
  }
}
