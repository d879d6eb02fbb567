/** The event listing's filter: the numbered WHERE clause and its bind list,
    against the predicate the in-memory backend evaluates. */
module Filter {
  import opened Types

  datatype EventsFilter = EventsFilter(
    bucket: Option<string>,
    bucketPrefix: Option<string>,
    account: Option<string>,
    origin: Option<string>,
    eventType: Option<string>,
    since: Option<nat>,
    until: Option<nat>,
    search: Option<string>)

  datatype Value = Text(text: string) | Number(number: int)

  /** One conjunct of the WHERE clause; placeholders are numbered from 1. */
  datatype Conjunct =
    | BucketIs(placeholder: nat)
    | BucketStartsWith(placeholder: nat)
    | AccountIs(placeholder: nat)
    | OriginIs(placeholder: nat)
    | TypeIs(placeholder: nat)
    | CreatedFrom(placeholder: nat)
    | CreatedUntil(placeholder: nat)
    | NoteOrIdLike(placeholder: nat)

  // ---- Text matching ----

  function Lower(c: char): char {
    if 'A' <= c <= 'Z' then (c as int + 32) as char else c
  }

  function LowerAll(s: string): string {
    seq(|s|, i requires 0 <= i < |s| => Lower(s[i]))
  }

  predicate HasPrefix(s: string, p: string) {
    |p| <= |s| && s[..|p|] == p
  }

  /** `contains`. */
  predicate Contains(s: string, needle: string) {
    HasPrefix(s, needle) || (s != [] && Contains(s[1..], needle))
  }

  /** SQL `LIKE` on already folded text: `%` matches any run, `_` any one
      character, a backslash takes the next character literally. */
  predicate Like(pattern: string, s: string)
    decreases |pattern|, |s|
  {
    if pattern == [] then s == []
    else if pattern[0] == '%' then Like(pattern[1..], s) || (s != [] && Like(pattern, s[1..]))
    else if pattern[0] == '_' then s != [] && Like(pattern[1..], s[1..])
    else if pattern[0] == '\\' then |pattern| >= 2 && s != [] && s[0] == pattern[1] && Like(pattern[2..], s[1..])
    else s != [] && s[0] == pattern[0] && Like(pattern[1..], s[1..])
  }

  predicate IsPlain(needle: string) {
    '%' !in needle && '_' !in needle && '\\' !in needle
  }

  lemma {:induction false} LikeAnything(s: string)
    ensures Like("%", s)
  {
    assert "%"[1..] == [];
    if s != [] {
      LikeAnything(s[1..]);
    }
  }

  lemma PrefixFirst(s: string, p: string)
    requires p != []
    ensures HasPrefix(s, p) ==> s != [] && s[0] == p[0]
  {
  }

  /** A plain pattern in front of a wildcard is a prefix test. */
  lemma {:induction false} LikePrefix(needle: string, s: string)
    requires IsPlain(needle)
    ensures Like(needle + "%", s) <==> HasPrefix(s, needle)
    decreases |needle|
  {
    var pattern := needle + "%";
    if needle == [] {
      assert pattern == "%";
      LikeAnything(s);
    } else {
      assert pattern[0] == needle[0] && pattern[1..] == needle[1..] + "%";
      if s != [] && s[0] == needle[0] {
        LikePrefix(needle[1..], s[1..]);
        assert HasPrefix(s, needle) <==> HasPrefix(s[1..], needle[1..]) by {
          assert needle == [needle[0]] + needle[1..];
          assert |needle| <= |s| ==> s[..|needle|] == [s[0]] + s[1..][..|needle| - 1];
        }
      } else {
        PrefixFirst(s, needle);
      }
    }
  }

  /** Between two wildcards it is a substring test. */
  lemma {:induction false} LikeContains(needle: string, s: string)
    requires IsPlain(needle)
    ensures Like("%" + needle + "%", s) <==> Contains(s, needle)
    decreases |s|
  {
    var pattern := "%" + needle + "%";
    assert pattern[0] == '%' && pattern[1..] == needle + "%";
    LikePrefix(needle, s);
    if s != [] {
      LikeContains(needle, s[1..]);
    }
  }

  lemma LowerAllParts(a: string, b: string)
    ensures LowerAll(a + b) == LowerAll(a) + LowerAll(b)
  {
  }

  lemma LowerPlain(s: string)
    requires IsPlain(s)
    ensures IsPlain(LowerAll(s))
  {
  }

  /** `ILIKE`, on text whose case folding is ASCII. */
  predicate ILike(pattern: string, s: string) {
    Like(LowerAll(pattern), LowerAll(s))
  }

  lemma SearchAgrees(search: string, s: string)
    requires IsPlain(search)
    ensures ILike("%" + search + "%", s) <==> Contains(LowerAll(s), LowerAll(search))
  {
    LowerAllParts("%" + search, "%");
    LowerAllParts("%", search);
    assert LowerAll("%") == "%";
    LowerPlain(search);
    LikeContains(LowerAll(search), LowerAll(s));
  }

  // ---- Searches that are not substring tests ----

  /** A text that the pattern between two wildcards matches: runs dropped, any
      character filled in, escapes resolved. A last backslash escapes the
      closing wildcard. */
  function Witness(q: string): (w: string)
    ensures |w| <= |q|
  {
    if q == [] then []
    else if q[0] == '%' then Witness(q[1..])
    else if q[0] == '_' then "x" + Witness(q[1..])
    else if q[0] != '\\' then [q[0]] + Witness(q[1..])
    else if |q| == 1 then "%"
    else [q[1]] + Witness(q[2..])
  }

  lemma {:induction false} WitnessMatches(q: string)
    ensures Like(q + "%", Witness(q))
    decreases |q|
  {
    var pattern, w := q + "%", Witness(q);
    if q == [] {
      assert pattern == "%";
      LikeAnything(w);
    } else if q[0] == '\\' {
      if |q| == 1 {
        assert pattern[2..] == [] && w[1..] == [];
      } else {
        assert pattern[1] == q[1] && pattern[2..] == q[2..] + "%" && w[1..] == Witness(q[2..]);
        WitnessMatches(q[2..]);
      }
    } else {
      assert pattern[0] == q[0] && pattern[1..] == q[1..] + "%";
      WitnessMatches(q[1..]);
      assert q[0] != '%' ==> w[1..] == Witness(q[1..]);
    }
  }

  /** The witness is shorter than the search or differs from it, unless the search is plain. */
  lemma {:induction false} WitnessDiffers(q: string)
    ensures Witness(q) == q ==> IsPlain(q)
    decreases |q|
  {
    if q != [] && Witness(q) == q {
      assert Witness(q)[0] == q[0];
      if q[0] != '%' && q[0] != '_' && q[0] != '\\' {
        assert Witness(q)[1..] == Witness(q[1..]);
        WitnessDiffers(q[1..]);
        assert q == [q[0]] + q[1..];
      }
    }
  }

  lemma {:induction false} ContainsIsLonger(s: string, needle: string)
    requires Contains(s, needle)
    ensures |needle| <= |s| && (|needle| == |s| ==> needle == s)
    decreases |s|
  {
    if !HasPrefix(s, needle) {
      ContainsIsLonger(s[1..], needle);
    }
  }

  lemma {:induction false} WitnessIsLow(q: string)
    requires forall i :: 0 <= i < |q| ==> Lower(q[i]) == q[i]
    ensures forall i :: 0 <= i < |Witness(q)| ==> Lower(Witness(q)[i]) == Witness(q)[i]
    decreases |q|
  {
    if q != [] {
      WitnessIsLow(q[1..]);
      if |q| >= 2 {
        WitnessIsLow(q[2..]);
      }
    }
  }

  lemma LowTwice(s: string)
    ensures forall i :: 0 <= i < |LowerAll(s)| ==> Lower(LowerAll(s)[i]) == LowerAll(s)[i]
    ensures (forall i :: 0 <= i < |s| ==> Lower(s[i]) == s[i]) ==> LowerAll(s) == s
    ensures IsPlain(LowerAll(s)) ==> IsPlain(s)
  {
    forall c | c in s
      ensures Lower(c) in LowerAll(s)
    {
      var i :| 0 <= i < |s| && s[i] == c;
      assert LowerAll(s)[i] == Lower(c);
    }
  }

  /** A search that is not plain finds a text that does not contain it. */
  lemma WitnessIsFound(search: string)
    requires !IsPlain(search)
    ensures var w := Witness(LowerAll(search));
      ILike("%" + search + "%", w) && !Contains(LowerAll(w), LowerAll(search))
  {
    var q := LowerAll(search);
    var w := Witness(q);
    LowTwice(search);
    WitnessIsLow(q);
    LowTwice(w);
    hide LowerAll, Lower;
    WitnessMatches(q);
    WitnessDiffers(q);
    FoldedPattern(search);
    assert ("%" + q + "%")[0] == '%' && ("%" + q + "%")[1..] == q + "%";
    if Contains(w, q) {
      ContainsIsLonger(w, q);
    }
  }

  lemma FoldedPattern(search: string)
    ensures LowerAll("%" + search + "%") == "%" + LowerAll(search) + "%"
  {
    LowerAllParts("%" + search, "%");
    LowerAllParts("%", search);
    assert LowerAll("%") == "%";
  }

  /** The database's search is the substring test, on every text, exactly when
      the search holds no metacharacter. */
  lemma SearchAgreesIff(search: string)
    ensures (forall s :: ILike("%" + search + "%", s) <==> Contains(LowerAll(s), LowerAll(search))) <==> IsPlain(search)
  {
    if IsPlain(search) {
      forall s
        ensures ILike("%" + search + "%", s) <==> Contains(LowerAll(s), LowerAll(search))
      {
        SearchAgrees(search, s);
      }
    } else {
      WitnessIsFound(search);
    }
  }

  /** For instance, a search for a percent sign finds everything in the
      database, and in memory only texts that hold one. */
  lemma PercentFindsEverything(s: string)
    ensures ILike("%" + "%" + "%", s)
    ensures Contains(LowerAll(s), LowerAll("%")) ==> '%' in LowerAll(s)
  {
    var p := LowerAll("%" + "%" + "%");
    assert p == "%%%" && p[1..] == "%%" && p[1..][1..] == "%";
    LikeAnything(LowerAll(s));
    assert LowerAll("%") == "%";
    if Contains(LowerAll(s), "%") {
      ContainsFirst(LowerAll(s), "%");
    }
  }

  lemma {:induction false} ContainsFirst(s: string, needle: string)
    requires needle != [] && Contains(s, needle)
    ensures needle[0] in s
    decreases |s|
  {
    if !HasPrefix(s, needle) {
      ContainsFirst(s[1..], needle);
    }
  }

  // ---- The two evaluations ----

  /** The in-memory backend's predicate. */
  predicate Selects(f: EventsFilter, e: Event) {
    && (f.bucket.Some? ==> e.bucket == f.bucket.value)
    && (f.bucketPrefix.Some? ==> HasPrefix(e.bucket, f.bucketPrefix.value))
    && (f.account.Some? ==> e.account == f.account.value)
    && (f.origin.Some? ==> e.origin == f.origin.value)
    && (f.eventType.Some? ==> KindName(e.kind) == f.eventType.value)
    && (f.since.Some? ==> e.createdAt >= f.since.value)
    && (f.until.Some? ==> e.createdAt <= f.until.value)
    && (f.search.Some? ==>
          || (e.note.Some? && Contains(LowerAll(e.note.value), LowerAll(f.search.value)))
          || Contains(LowerAll(e.id), LowerAll(f.search.value)))
  }

  // ---- What a search means ----

  /** The same text but for the case of ASCII letters. */
  predicate SameLetters(a: string, b: string) {
    |a| == |b| && forall i :: 0 <= i < |a| ==>
      || a[i] == b[i]
      || ('A' <= a[i] <= 'Z' && b[i] as int == a[i] as int + 32)
      || ('A' <= b[i] <= 'Z' && a[i] as int == b[i] as int + 32)
  }

  lemma FoldsAlikeIff(a: string, b: string)
    ensures LowerAll(a) == LowerAll(b) <==> SameLetters(a, b)
  {
    if LowerAll(a) == LowerAll(b) {
      assert |a| == |LowerAll(a)| == |LowerAll(b)| == |b|;
      forall i | 0 <= i < |a|
        ensures Lower(a[i]) == Lower(b[i])
      {
        assert LowerAll(a)[i] == LowerAll(b)[i];
      }
    }
  }

  predicate OccursAt(s: string, needle: string, i: nat) {
    i + |needle| <= |s| && SameLetters(s[i..i + |needle|], needle)
  }

  /** Some part of the text is the needle, but for case. */
  ghost predicate Mentions(s: string, needle: string) {
    exists i :: OccursAt(s, needle, i)
  }

  lemma {:induction false} ContainsIff(s: string, needle: string)
    ensures Contains(LowerAll(s), LowerAll(needle)) <==> Mentions(s, needle)
    decreases |s|
  {
    var low := LowerAll(s);
    assert |needle| <= |s| ==> low[..|needle|] == LowerAll(s[..|needle|]);
    if |needle| <= |s| {
      FoldsAlikeIff(s[..|needle|], needle);
      assert s[0..0 + |needle|] == s[..|needle|];
    }
    assert HasPrefix(low, LowerAll(needle)) <==> OccursAt(s, needle, 0);
    if s != [] {
      ContainsIff(s[1..], needle);
      assert low[1..] == LowerAll(s[1..]);
      forall i: nat | i + 1 + |needle| <= |s|
        ensures OccursAt(s, needle, i + 1) <==> OccursAt(s[1..], needle, i)
      {
        assert s[i + 1..i + 1 + |needle|] == s[1..][i..i + |needle|];
      }
      assert forall i: nat :: OccursAt(s[1..], needle, i) ==> OccursAt(s, needle, i + 1);
      assert forall i: nat :: OccursAt(s, needle, i) && i > 0 ==> OccursAt(s[1..], needle, i - 1);
    } else {
      assert forall i: nat :: OccursAt(s, needle, i) ==> i == 0;
    }
  }

  lemma SelectsIff(f: EventsFilter, e: Event)
    ensures Selects(f, e) <==>
      && (f.bucket.None? || f.bucket.value == e.bucket) && (f.account.None? || f.account.value == e.account)
      && (f.origin.None? || f.origin.value == e.origin)
      && (f.bucketPrefix.None? || f.bucketPrefix.value <= e.bucket)
      && (f.eventType.None? || f.eventType.value == KindName(e.kind))
      && (f.since.None? || f.since.value <= e.createdAt) && (f.until.None? || e.createdAt <= f.until.value)
      && (f.search.None? || Mentions(e.id, f.search.value) || (e.note.Some? && Mentions(e.note.value, f.search.value)))
  {
    if f.bucketPrefix.Some? {
      assert HasPrefix(e.bucket, f.bucketPrefix.value) <==> f.bucketPrefix.value <= e.bucket;
    }
    if f.search.Some? {
      ContainsIff(e.id, f.search.value);
      if e.note.Some? { ContainsIff(e.note.value, f.search.value); }
    }
    hide Contains, LowerAll, Mentions, HasPrefix, KindName;
  }

  function Bound(binds: seq<Value>, placeholder: nat): Option<Value> {
    if 1 <= placeholder <= |binds| then Some(binds[placeholder - 1]) else None
  }

  /** What the database makes of one conjunct: a null note matches nothing, and
      times are compared as the signed words they are stored and bound as. */
  predicate Holds(c: Conjunct, binds: seq<Value>, e: Event) {
    var bound := Bound(binds, c.placeholder);
    && bound.Some?
    && match c
       case BucketIs(_) => bound.value == Text(e.bucket)
       case BucketStartsWith(_) => bound.value.Text? && HasPrefix(e.bucket, bound.value.text)
       case AccountIs(_) => bound.value == Text(e.account)
       case OriginIs(_) => bound.value == Text(e.origin)
       case TypeIs(_) => bound.value == Text(KindName(e.kind))
       case CreatedFrom(_) => bound.value.Number? && WrapI64(e.createdAt) >= bound.value.number
       case CreatedUntil(_) => bound.value.Number? && WrapI64(e.createdAt) <= bound.value.number
       case NoteOrIdLike(_) =>
         bound.value.Text? && ((e.note.Some? && ILike(bound.value.text, e.note.value)) || ILike(bound.value.text, e.id))
  }

  predicate Matches(where: seq<Conjunct>, binds: seq<Value>, e: Event) {
    forall i :: 0 <= i < |where| ==> Holds(where[i], binds, e)
  }

  // ---- The clause and its binds, one optional test at a time ----

  const TESTS: nat := 8

  predicate Present(f: EventsFilter, test: nat) {
    match test
    case 0 => f.bucket.Some?
    case 1 => f.bucketPrefix.Some?
    case 2 => f.account.Some?
    case 3 => f.origin.Some?
    case 4 => f.eventType.Some?
    case 5 => f.since.Some?
    case 6 => f.until.Some?
    case 7 => f.search.Some?
    case _ => false
  }

  function ConjunctFor(test: nat, placeholder: nat): Conjunct {
    match test
    case 0 => BucketIs(placeholder)
    case 1 => BucketStartsWith(placeholder)
    case 2 => AccountIs(placeholder)
    case 3 => OriginIs(placeholder)
    case 4 => TypeIs(placeholder)
    case 5 => CreatedFrom(placeholder)
    case 6 => CreatedUntil(placeholder)
    case _ => NoteOrIdLike(placeholder)
  }

  function ValueFor(f: EventsFilter, test: nat): Value
    requires Present(f, test)
  {
    match test
    case 0 => Text(f.bucket.value)
    case 1 => Text(f.bucketPrefix.value)
    case 2 => Text(f.account.value)
    case 3 => Text(f.origin.value)
    case 4 => Text(f.eventType.value)
    case 5 => Number(WrapI64(f.since.value))
    case 6 => Number(WrapI64(f.until.value))
    case _ => Text("%" + f.search.value + "%")
  }

  function Clause(f: EventsFilter, tests: nat): seq<Conjunct> {
    if tests == 0 then []
    else if Present(f, tests - 1) then Clause(f, tests - 1) + [ConjunctFor(tests - 1, |Clause(f, tests - 1)| + 1)]
    else Clause(f, tests - 1)
  }

  function Binds(f: EventsFilter, tests: nat): seq<Value> {
    if tests == 0 then []
    else if Present(f, tests - 1) then Binds(f, tests - 1) + [ValueFor(f, tests - 1)]
    else Binds(f, tests - 1)
  }

  /** One optional conjunct, numbered next. */
  method Push(f: EventsFilter, test: nat, where: seq<Conjunct>, idx: nat, present: bool, c: Conjunct)
    returns (where': seq<Conjunct>, idx': nat)
    requires where == Clause(f, test) && idx == |where| && present == Present(f, test)
    requires c == ConjunctFor(test, idx + 1)
    ensures where' == Clause(f, test + 1) && idx' == |where'|
  {
    where', idx' := where, idx;
    if present {
      idx' := idx + 1;
      where' := where + [c];
    }
  }

  /** The clause text's conjuncts, with a running placeholder number. */
  method CompileWhere(f: EventsFilter) returns (where: seq<Conjunct>, idx: nat)
    ensures where == Clause(f, TESTS) && idx == |where|
  {
    where, idx := [], 0;
    assert where == Clause(f, 0);
    hide Clause;
    where, idx := Push(f, 0, where, idx, f.bucket.Some?, BucketIs(idx + 1));
    where, idx := Push(f, 1, where, idx, f.bucketPrefix.Some?, BucketStartsWith(idx + 1));
    where, idx := Push(f, 2, where, idx, f.account.Some?, AccountIs(idx + 1));
    where, idx := Push(f, 3, where, idx, f.origin.Some?, OriginIs(idx + 1));
    where, idx := Push(f, 4, where, idx, f.eventType.Some?, TypeIs(idx + 1));
    where, idx := Push(f, 5, where, idx, f.since.Some?, CreatedFrom(idx + 1));
    where, idx := Push(f, 6, where, idx, f.until.Some?, CreatedUntil(idx + 1));
    where, idx := Push(f, 7, where, idx, f.search.Some?, NoteOrIdLike(idx + 1));
  }

  /** The bind list, built by a chain of tests of its own; the page query adds
      limit and offset behind it. */
  method CompileBinds(f: EventsFilter) returns (binds: seq<Value>)
    ensures binds == Binds(f, TESTS)
  {
    binds := [];
    if f.bucket.Some? { binds := binds + [Text(f.bucket.value)]; }
    assert binds == Binds(f, 1);
    if f.bucketPrefix.Some? { binds := binds + [Text(f.bucketPrefix.value)]; }
    assert binds == Binds(f, 2);
    if f.account.Some? { binds := binds + [Text(f.account.value)]; }
    assert binds == Binds(f, 3);
    if f.origin.Some? { binds := binds + [Text(f.origin.value)]; }
    assert binds == Binds(f, 4);
    if f.eventType.Some? { binds := binds + [Text(f.eventType.value)]; }
    assert binds == Binds(f, 5);
    if f.since.Some? { binds := binds + [Number(WrapI64(f.since.value))]; }
    assert binds == Binds(f, 6);
    if f.until.Some? { binds := binds + [Number(WrapI64(f.until.value))]; }
    assert binds == Binds(f, 7);
    if f.search.Some? { binds := binds + [Text("%" + f.search.value + "%")]; }
  }

  /** One test of the in-memory predicate. */
  predicate Passes(f: EventsFilter, test: nat, e: Event)
    requires Present(f, test)
  {
    match test
    case 0 => e.bucket == f.bucket.value
    case 1 => HasPrefix(e.bucket, f.bucketPrefix.value)
    case 2 => e.account == f.account.value
    case 3 => e.origin == f.origin.value
    case 4 => KindName(e.kind) == f.eventType.value
    case 5 => e.createdAt >= f.since.value
    case 6 => e.createdAt <= f.until.value
    case _ =>
      || (e.note.Some? && Contains(LowerAll(e.note.value), LowerAll(f.search.value)))
      || Contains(LowerAll(e.id), LowerAll(f.search.value))
  }

  /** One test as the database evaluates it: times and the search differ. */
  predicate PassesSql(f: EventsFilter, test: nat, e: Event)
    requires Present(f, test)
  {
    if test == 5 then WrapI64(e.createdAt) >= WrapI64(f.since.value)
    else if test == 6 then WrapI64(e.createdAt) <= WrapI64(f.until.value)
    else if test == 7 then
      || (e.note.Some? && ILike("%" + f.search.value + "%", e.note.value))
      || ILike("%" + f.search.value + "%", e.id)
    else Passes(f, test, e)
  }

  lemma ConjunctHolds(f: EventsFilter, test: nat, placeholder: nat, binds: seq<Value>, e: Event)
    requires Present(f, test) && Bound(binds, placeholder) == Some(ValueFor(f, test))
    ensures Holds(ConjunctFor(test, placeholder), binds, e) <==> PassesSql(f, test, e)
  {
    hide ILike, Contains, LowerAll;
  }

  lemma {:induction false} SameLength(f: EventsFilter, tests: nat)
    ensures |Clause(f, tests)| == |Binds(f, tests)|
  {
    if tests > 0 {
      SameLength(f, tests - 1);
    }
  }

  /** Each placeholder meets its own value, whatever subset of tests is present
      and whatever is bound behind them. */
  lemma {:induction false} ClauseMatches(f: EventsFilter, tests: nat, rest: seq<Value>, e: Event)
    ensures Matches(Clause(f, tests), Binds(f, tests) + rest, e) <==>
      forall test :: 0 <= test < tests && Present(f, test) ==> PassesSql(f, test, e)
  {
    if tests > 0 {
      var where, binds := Clause(f, tests - 1), Binds(f, tests - 1);
      SameLength(f, tests - 1);
      if Present(f, tests - 1) {
        var value := ValueFor(f, tests - 1);
        ClauseMatches(f, tests - 1, [value] + rest, e);
        assert Binds(f, tests) + rest == binds + ([value] + rest);
        assert Bound(binds + ([value] + rest), |where| + 1) == Some(value);
        ConjunctHolds(f, tests - 1, |where| + 1, Binds(f, tests) + rest, e);
        MatchesMore(where, ConjunctFor(tests - 1, |where| + 1), Binds(f, tests) + rest, e);
      } else {
        ClauseMatches(f, tests - 1, rest, e);
      }
    }
  }

  lemma MatchesMore(where: seq<Conjunct>, c: Conjunct, binds: seq<Value>, e: Event)
    ensures Matches(where + [c], binds, e) <==> Matches(where, binds, e) && Holds(c, binds, e)
  {
    var all := where + [c];
    assert all[|where|] == c;
    assert forall i :: 0 <= i < |where| ==> all[i] == where[i];
  }

  lemma SelectsIsAllTests(f: EventsFilter, e: Event)
    ensures Selects(f, e) <==> forall test :: 0 <= test < TESTS && Present(f, test) ==> Passes(f, test, e)
  {
    if forall test :: 0 <= test < TESTS && Present(f, test) ==> Passes(f, test, e) {
      assert forall test :: test in [0, 1, 2, 3, 4, 5, 6, 7] && Present(f, test) ==> Passes(f, test, e);
      assert Present(f, 0) ==> Passes(f, 0, e);
      assert Present(f, 1) ==> Passes(f, 1, e);
      assert Present(f, 2) ==> Passes(f, 2, e);
      assert Present(f, 3) ==> Passes(f, 3, e);
      assert Present(f, 4) ==> Passes(f, 4, e);
      assert Present(f, 5) ==> Passes(f, 5, e);
      assert Present(f, 6) ==> Passes(f, 6, e);
      assert Present(f, 7) ==> Passes(f, 7, e);
    }
  }

  /** A time bound beyond the signed range, which the binding turns negative. */
  predicate SinceWraps(f: EventsFilter) {
    f.since.Some? && f.since.value > I64_MAX
  }

  predicate UntilWraps(f: EventsFilter) {
    f.until.Some? && f.until.value > I64_MAX
  }

  predicate PlainSearch(f: EventsFilter) {
    f.search.Some? ==> IsPlain(f.search.value)
  }

  /** Time bounds are 64-bit words. */
  predicate BoundsFit(f: EventsFilter) {
    (f.since.Some? ==> f.since.value <= U64_MAX) && (f.until.Some? ==> f.until.value <= U64_MAX)
  }

  /** How the two evaluations of a time bound differ: one that wraps is passed
      by every event as a lower bound, and by none as an upper one. */
  lemma TimeTests(f: EventsFilter, e: Event)
    requires BoundsFit(f) && e.createdAt <= I64_MAX
    ensures f.since.Some? ==>
      if SinceWraps(f) then PassesSql(f, 5, e) && !Passes(f, 5, e) else PassesSql(f, 5, e) <==> Passes(f, 5, e)
    ensures f.until.Some? ==>
      if UntilWraps(f) then !PassesSql(f, 6, e) && Passes(f, 6, e) else PassesSql(f, 6, e) <==> Passes(f, 6, e)
  {
    WrapExact(e.createdAt);
    if f.since.Some? {
      WrapTop(f.since.value);
    }
    if f.until.Some? {
      WrapTop(f.until.value);
    }
    hide WrapI64;
  }

  lemma WrapTop(x: nat)
    requires x <= U64_MAX
    ensures WrapI64(x) == if x <= I64_MAX then x else x - TWO64
  {
  }

  lemma SqlTests(f: EventsFilter, e: Event)
    requires PlainSearch(f) && !SinceWraps(f) && !UntilWraps(f) && e.createdAt <= I64_MAX
    ensures forall test :: 0 <= test < TESTS && Present(f, test) ==> (PassesSql(f, test, e) <==> Passes(f, test, e))
  {
    TimeTests(f, e);
    if f.search.Some? {
      SearchAgrees(f.search.value, e.id);
      if e.note.Some? {
        SearchAgrees(f.search.value, e.note.value);
      }
    }
    hide ILike, Contains, LowerAll, WrapI64;
  }

  /** For every filter without LIKE metacharacters in its search and with time
      bounds in the signed range, the compiled clause selects exactly the events
      that pass each test the filter makes, in the count query and, with limit
      and offset bound behind, in the page query, whose own placeholders are the
      next two numbers. The in-memory predicate selects the same events. */
  lemma FilterCompiles(f: EventsFilter, e: Event, limit: nat, offset: nat)
    requires PlainSearch(f) && !SinceWraps(f) && !UntilWraps(f) && e.createdAt <= I64_MAX
    ensures Matches(Clause(f, TESTS), Binds(f, TESTS), e) <==> Selects(f, e)
    ensures Selects(f, e) <==>
      && (f.bucket.None? || f.bucket.value == e.bucket) && (f.account.None? || f.account.value == e.account)
      && (f.origin.None? || f.origin.value == e.origin)
      && (f.bucketPrefix.None? || f.bucketPrefix.value <= e.bucket)
      && (f.eventType.None? || f.eventType.value == KindName(e.kind))
      && (f.since.None? || f.since.value <= e.createdAt) && (f.until.None? || e.createdAt <= f.until.value)
      && (f.search.None? || Mentions(e.id, f.search.value) || (e.note.Some? && Mentions(e.note.value, f.search.value)))
    ensures var page := Binds(f, TESTS) + [Number(limit), Number(offset)];
      && (Matches(Clause(f, TESTS), page, e) <==> Selects(f, e))
      && Bound(page, |Clause(f, TESTS)| + 1) == Some(Number(limit))
      && Bound(page, |Clause(f, TESTS)| + 2) == Some(Number(offset))
  {
    SelectsIff(f, e);
    ClauseMatches(f, TESTS, [], e);
    ClauseMatches(f, TESTS, [Number(limit), Number(offset)], e);
    assert Binds(f, TESTS) + [] == Binds(f, TESTS);
    SqlTests(f, e);
    SelectsIsAllTests(f, e);
    SameLength(f, TESTS);
    hide Matches, Clause, Binds, Selects, Passes, PassesSql;
  }

  // ---- Exactly which filters compile faithfully ----

  function KindNamed(name: string): EventType {
    if name == "reservation_create" then ReservationCreate
    else if name == "void" then Void
    else if name == "hold_release" then HoldRelease
    else if name == "bucket_delete" then EventType.BucketDelete
    else Standard
  }

  /** The tests of bucket and type do not exclude every event. */
  predicate NamesSatisfiable(f: EventsFilter) {
    && (f.bucket.Some? && f.bucketPrefix.Some? ==> HasPrefix(f.bucket.value, f.bucketPrefix.value))
    && (f.eventType.Some? ==> KindName(KindNamed(f.eventType.value)) == f.eventType.value)
  }

  /** Neither do the time bounds. */
  predicate TimesSatisfiable(f: EventsFilter) {
    f.since.Some? && f.until.Some? ==> f.since.value <= f.until.value
  }

  /** An event with the given id and creation time that passes the tests of names. */
  function Example(f: EventsFilter, id: string, createdAt: nat): Event {
    var bucket := if f.bucket.Some? then f.bucket.value else if f.bucketPrefix.Some? then f.bucketPrefix.value else "b";
    Event(id, if f.origin.Some? then f.origin.value else "n", 1, 1, createdAt,
          if f.eventType.Some? then KindNamed(f.eventType.value) else Standard,
          bucket, if f.account.Some? then f.account.value else "a", 0, None, "k", None, 0, 0, None)
  }

  lemma ExamplePasses(f: EventsFilter, id: string, createdAt: nat)
    requires NamesSatisfiable(f)
    ensures forall test :: 0 <= test < 5 && Present(f, test) ==> Passes(f, test, Example(f, id, createdAt))
    ensures forall test :: 0 <= test < 5 && Present(f, test) ==> PassesSql(f, test, Example(f, id, createdAt))
  {
  }

  /** Only the known names are names of event types. */
  lemma NoOtherNames(kind: EventType)
    ensures KindNamed(KindName(kind)) == kind
  {
  }

  /** The clause as a conjunction of tests. */
  lemma MatchesIsAllTests(f: EventsFilter, e: Event)
    ensures Matches(Clause(f, TESTS), Binds(f, TESTS), e) <==>
      forall test :: 0 <= test < TESTS && Present(f, test) ==> PassesSql(f, test, e)
  {
    ClauseMatches(f, TESTS, [], e);
    assert Binds(f, TESTS) + [] == Binds(f, TESTS);
  }

  /** A test that fails on both sides excludes the event on both sides. */
  lemma NeitherSelects(f: EventsFilter, e: Event, test: nat, testSql: nat)
    requires test < TESTS && Present(f, test) && !Passes(f, test, e)
    requires testSql < TESTS && Present(f, testSql) && !PassesSql(f, testSql, e)
    ensures !Matches(Clause(f, TESTS), Binds(f, TESTS), e) && !Selects(f, e)
  {
    MatchesIsAllTests(f, e);
    SelectsIsAllTests(f, e);
    hide Matches, Clause, Binds, Selects, Passes, PassesSql;
  }

  lemma NamesExclude(f: EventsFilter, e: Event)
    requires !NamesSatisfiable(f)
    ensures !Matches(Clause(f, TESTS), Binds(f, TESTS), e) && !Selects(f, e)
  {
    NoOtherNames(e.kind);
    var test := if !(f.bucket.Some? && f.bucketPrefix.Some? && !HasPrefix(f.bucket.value, f.bucketPrefix.value)) then 4
                else if Passes(f, 0, e) then 1 else 0;
    hide Matches, Clause, Binds, Selects;
    NeitherSelects(f, e, test, test);
  }

  /** Both select nothing if the time bounds exclude each other, or both wrap. */
  lemma TimesExclude(f: EventsFilter, e: Event)
    requires BoundsFit(f) && e.createdAt <= I64_MAX
    requires (SinceWraps(f) && UntilWraps(f)) || (!SinceWraps(f) && !UntilWraps(f) && !TimesSatisfiable(f))
    ensures !Matches(Clause(f, TESTS), Binds(f, TESTS), e) && !Selects(f, e)
  {
    TimeTests(f, e);
    hide Matches, Clause, Binds, Selects, PassesSql;
    if SinceWraps(f) {
      NeitherSelects(f, e, 5, 6);
    } else if Passes(f, 5, e) {
      NeitherSelects(f, e, 6, 6);
    } else {
      NeitherSelects(f, e, 5, 5);
    }
  }

  /** When the two evaluations agree on every stored event. */
  predicate CompilesFaithfully(f: EventsFilter) {
    || !NamesSatisfiable(f)
    || (SinceWraps(f) && UntilWraps(f))
    || (!SinceWraps(f) && !UntilWraps(f) && (PlainSearch(f) || !TimesSatisfiable(f)))
  }

  /** The database and the in-memory predicate select the same events, created
      at any time of the signed range, exactly when no time bound wraps and the
      search is plain or absent, or when tests that exclude each other make
      both select nothing: names, time bounds, or two time bounds that wrap. */
  lemma FilterExactIff(f: EventsFilter)
    requires BoundsFit(f)
    ensures
      (forall e: Event :: e.createdAt <= I64_MAX ==> (Matches(Clause(f, TESTS), Binds(f, TESTS), e) <==> Selects(f, e)))
      <==> CompilesFaithfully(f)
  {
    hide Matches, Clause, Binds, Selects, NamesSatisfiable, IsPlain, SinceWraps, UntilWraps, TimesSatisfiable,
         PlainSearch;
    if CompilesFaithfully(f) {
      forall e: Event | e.createdAt <= I64_MAX
        ensures Matches(Clause(f, TESTS), Binds(f, TESTS), e) <==> Selects(f, e)
      {
        if !NamesSatisfiable(f) {
          NamesExclude(f, e);
        } else if PlainSearch(f) && !SinceWraps(f) && !UntilWraps(f) {
          FilterCompiles(f, e, 0, 0);
        } else {
          TimesExclude(f, e);
        }
      }
    } else if SinceWraps(f) {
      SinceSeparates(f);
    } else if UntilWraps(f) {
      UntilSeparates(f);
    } else {
      SearchSeparates(f);
    }
  }

  /** Something always matches a search in the database. */
  lemma SearchIsMatched(search: string)
    ensures ILike("%" + search + "%", Witness(LowerAll(search)))
  {
    var q := LowerAll(search);
    var w := Witness(q);
    LowTwice(search);
    WitnessIsLow(q);
    LowTwice(w);
    hide LowerAll, Lower;
    WitnessMatches(q);
    FoldedPattern(search);
    assert ("%" + q + "%")[0] == '%' && ("%" + q + "%")[1..] == q + "%";
  }

  lemma ContainsItself(s: string)
    ensures Contains(s, s)
  {
    assert s[..|s|] == s;
  }

  /** A lower bound beyond the range: the database lets everything through,
      in memory nothing passes. */
  lemma SinceSeparates(f: EventsFilter)
    requires BoundsFit(f) && NamesSatisfiable(f) && SinceWraps(f) && !UntilWraps(f)
    ensures exists e: Event :: e.createdAt <= I64_MAX && Matches(Clause(f, TESTS), Binds(f, TESTS), e) && !Selects(f, e)
  {
    var id := if f.search.Some? then Witness(LowerAll(f.search.value)) else "a";
    var e := Example(f, id, 0);
    ExamplePasses(f, id, 0);
    TimeTests(f, e);
    if f.search.Some? {
      SearchIsMatched(f.search.value);
    }
    MatchesIsAllTests(f, e);
    SelectsIsAllTests(f, e);
    hide Matches, Clause, Binds, Selects, ILike, Contains, LowerAll, Witness, NamesSatisfiable, WrapI64;
    assert !Passes(f, 5, e);
    assert Matches(Clause(f, TESTS), Binds(f, TESTS), e);
  }

  /** An upper bound beyond the range: the database finds nothing, in memory
      the bound is always met. */
  lemma UntilSeparates(f: EventsFilter)
    requires BoundsFit(f) && NamesSatisfiable(f) && !SinceWraps(f) && UntilWraps(f)
    ensures exists e: Event :: e.createdAt <= I64_MAX && !Matches(Clause(f, TESTS), Binds(f, TESTS), e) && Selects(f, e)
  {
    var id := if f.search.Some? then f.search.value else "a";
    var createdAt := if f.since.Some? then f.since.value else 0;
    var e := Example(f, id, createdAt);
    ExamplePasses(f, id, createdAt);
    TimeTests(f, e);
    ContainsItself(LowerAll(id));
    MatchesIsAllTests(f, e);
    SelectsIsAllTests(f, e);
    hide Matches, Clause, Binds, Selects, ILike, Contains, LowerAll, NamesSatisfiable, WrapI64;
    assert !PassesSql(f, 6, e);
    assert Selects(f, e);
  }

  /** An event whose id is the witness of the search is found in the database only. */
  lemma SearchSeparates(f: EventsFilter)
    requires BoundsFit(f) && NamesSatisfiable(f) && TimesSatisfiable(f) && !SinceWraps(f) && !UntilWraps(f) && !PlainSearch(f)
    ensures exists e: Event :: e.createdAt <= I64_MAX && Matches(Clause(f, TESTS), Binds(f, TESTS), e) && !Selects(f, e)
  {
    var w := Witness(LowerAll(f.search.value));
    var createdAt := if f.since.Some? then f.since.value else 0;
    var e := Example(f, w, createdAt);
    ExamplePasses(f, w, createdAt);
    TimeTests(f, e);
    WitnessIsFound(f.search.value);
    MatchesIsAllTests(f, e);
    SelectsIsAllTests(f, e);
    hide Matches, Clause, Binds, Selects, ILike, Contains, LowerAll, Witness, NamesSatisfiable, WrapI64;
    assert e.note == None && !Passes(f, 7, e);
    assert Matches(Clause(f, TESTS), Binds(f, TESTS), e);
  }

  /** For instance, a lower bound of 2^63 alone: every stored event matches in
      the database and none is selected in memory. */
  lemma SinceBeyondRange(e: Event)
    requires e.createdAt <= I64_MAX
    ensures var f := EventsFilter(None, None, None, None, None, Some(TWO63), None, None);
      Matches(Clause(f, TESTS), Binds(f, TESTS), e) && !Selects(f, e)
  {
    var f := EventsFilter(None, None, None, None, None, Some(TWO63), None, None);
    TimeTests(f, e);
    MatchesIsAllTests(f, e);
    hide Matches, Clause, Binds, WrapI64;
  }

  /** A filter by type knows five names; any other selects nothing. */
  lemma TypeFilterIff(name: string, e: Event)
    ensures Selects(EventsFilter(None, None, None, None, Some(name), None, None, None), e) <==>
      || (name == "standard" && e.kind == Standard)
      || (name == "reservation_create" && e.kind == ReservationCreate)
      || (name == "void" && e.kind == EventType.Void)
      || (name == "hold_release" && e.kind == HoldRelease)
      || (name == "bucket_delete" && e.kind == EventType.BucketDelete)
  {
    assert |"standard"| == 8 && |"reservation_create"| == 18 && |"void"| == 4 && |"hold_release"| == 12 && |"bucket_delete"| == 13;
  }
}
