/** Sums over finite sets, independent of the order of summation. */
module Sums {

  ghost function SumOf<T(!new)>(s: set<T>, f: T -> int): int {
    if s == {} then 0 else
      var x :| x in s;
      f(x) + SumOf(s - {x}, f)
  }

  lemma {:induction false} SumRemove<T(!new)>(s: set<T>, f: T -> int, x: T)
    requires x in s
    ensures SumOf(s, f) == f(x) + SumOf(s - {x}, f)
    decreases |s|
  {
    var y :| y in s && SumOf(s, f) == f(y) + SumOf(s - {y}, f);
    if y != x {
      SumRemove(s - {y}, f, x);
      SumRemove(s - {x}, f, y);
      assert s - {y} - {x} == s - {x} - {y};
    }
  }

  lemma SumInsert<T(!new)>(s: set<T>, f: T -> int, x: T)
    requires x !in s
    ensures SumOf(s + {x}, f) == SumOf(s, f) + f(x)
  {
    SumRemove(s + {x}, f, x);
    assert s + {x} - {x} == s;
  }

  lemma {:induction false} SumUnion<T(!new)>(s: set<T>, t: set<T>, f: T -> int)
    requires s !! t
    ensures SumOf(s + t, f) == SumOf(s, f) + SumOf(t, f)
    decreases |t|
  {
    if t == {} {
      assert s + t == s;
    } else {
      var x :| x in t;
      SumRemove(t, f, x);
      SumRemove(s + t, f, x);
      assert s + t - {x} == s + (t - {x});
      SumUnion(s, t - {x}, f);
    }
  }

  lemma {:induction false} SumZero<T(!new)>(s: set<T>, f: T -> int)
    requires forall x :: x in s ==> f(x) == 0
    ensures SumOf(s, f) == 0
    decreases |s|
  {
    if s != {} {
      var x :| x in s;
      SumRemove(s, f, x);
      SumZero(s - {x}, f);
    }
  }

  lemma {:induction false} SumNonNegative<T(!new)>(s: set<T>, f: T -> int)
    requires forall x :: x in s ==> f(x) >= 0
    ensures SumOf(s, f) >= 0
    decreases |s|
  {
    if s != {} {
      var x :| x in s;
      SumRemove(s, f, x);
      SumNonNegative(s - {x}, f);
    }
  }

  lemma SumSubset<T(!new)>(s: set<T>, t: set<T>, f: T -> int)
    requires s <= t
    requires forall x :: x in t ==> f(x) >= 0
    ensures SumOf(s, f) <= SumOf(t, f)
  {
    SumUnion(s, t - s, f);
    assert s + (t - s) == t;
    SumNonNegative(t - s, f);
  }

  /** Summing along an injective map whose values carry `c` times the weight of
      their keys: `c == 1` transports a sum, `c == -1` cancels it. */
  lemma {:induction false} SumAlong<T(!new), U(!new)>(m: map<T, U>, f: T -> int, g: U -> int, c: int)
    requires c == 1 || c == -1
    requires forall x :: x in m ==> g(m[x]) == c * f(x)
    requires forall x, y :: x in m && y in m && m[x] == m[y] ==> x == y
    ensures SumOf(m.Values, g) == c * SumOf(m.Keys, f)
    decreases |m|
  {
    if m.Keys == {} {
      assert m.Values == {};
    } else {
      var x :| x in m.Keys;
      var rest := m - {x};
      assert rest.Keys == m.Keys - {x};
      forall v | v in m.Values - {m[x]}
        ensures v in rest.Values
      {
        var y :| y in m && m[y] == v;
        assert rest[y] == v;
      }
      assert rest.Values == m.Values - {m[x]};
      assert m[x] in m.Values;
      SumAlong(rest, f, g, c);
      SumRemove(m.Keys, f, x);
      SumRemove(m.Values, g, m[x]);
    }
  }
}
