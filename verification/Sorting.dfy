/** Sorting of event lists by a total preorder. */
module Sorting {
  import opened Types

  ghost predicate TotalPreorder(leq: (Event, Event) -> bool) {
    && (forall a, b :: leq(a, b) || leq(b, a))
    && (forall a, b, c :: leq(a, b) && leq(b, c) ==> leq(a, c))
  }

  ghost predicate Sorted(events: seq<Event>, leq: (Event, Event) -> bool) {
    forall i, j :: 0 <= i < j < |events| ==> leq(events[i], events[j])
  }

  /** No two positions hold events of one key. */
  ghost predicate OnePerKey(events: seq<Event>) {
    forall i, j :: 0 <= i < j < |events| ==> events[i].Key() != events[j].Key()
  }

  /** `r` is `sorted` with `e` put in at one place. */
  predicate InsertedAt(sorted: seq<Event>, at: nat, e: Event, r: seq<Event>) {
    && at <= |sorted| && |r| == |sorted| + 1 && r[at] == e
    && (forall i :: 0 <= i < at ==> r[i] == sorted[i])
    && (forall i :: at < i < |r| ==> r[i] == sorted[i - 1])
  }

  lemma InsertedSorted(sorted: seq<Event>, at: nat, e: Event, r: seq<Event>, leq: (Event, Event) -> bool)
    requires Sorted(sorted, leq) && InsertedAt(sorted, at, e, r)
    requires forall i :: 0 <= i < at ==> leq(sorted[i], e)
    requires forall i :: at <= i < |sorted| ==> leq(e, sorted[i])
    ensures Sorted(r, leq)
  {
  }

  lemma InsertedMembers(sorted: seq<Event>, at: nat, e: Event, r: seq<Event>)
    requires InsertedAt(sorted, at, e, r)
    ensures forall x :: x in r <==> x in sorted || x == e
  {
    assert r == sorted[..at] + [e] + sorted[at..];
    assert sorted == sorted[..at] + sorted[at..];
  }

  lemma InsertedOnePerKey(sorted: seq<Event>, at: nat, e: Event, r: seq<Event>)
    requires OnePerKey(sorted) && InsertedAt(sorted, at, e, r)
    requires forall i :: 0 <= i < |sorted| ==> sorted[i].Key() != e.Key()
    ensures OnePerKey(r)
  {
  }

  lemma AllBelow(sorted: seq<Event>, at: nat, e: Event, leq: (Event, Event) -> bool)
    requires TotalPreorder(leq) && Sorted(sorted, leq) && at <= |sorted| && (at > 0 ==> leq(sorted[at - 1], e))
    ensures forall i :: 0 <= i < at ==> leq(sorted[i], e)
  {
    forall i | 0 <= i < at
      ensures leq(sorted[i], e)
    {
      assert i < at - 1 ==> leq(sorted[i], sorted[at - 1]);
    }
  }

  method Insert(sorted: seq<Event>, e: Event, leq: (Event, Event) -> bool) returns (r: seq<Event>)
    requires TotalPreorder(leq) && Sorted(sorted, leq)
    requires OnePerKey(sorted) && forall x :: x in sorted ==> x.Key() != e.Key()
    ensures Sorted(r, leq) && OnePerKey(r) && forall x :: x in r <==> x in sorted || x == e
  {
    hide Sorted, OnePerKey;
    var at := |sorted|;
    while at > 0 && !leq(sorted[at - 1], e)
      invariant 0 <= at <= |sorted|
      invariant forall i :: at <= i < |sorted| ==> leq(e, sorted[i])
    {
      at := at - 1;
    }
    AllBelow(sorted, at, e, leq);
    r := sorted[..at] + [e] + sorted[at..];
    InsertedSorted(sorted, at, e, r, leq);
    InsertedMembers(sorted, at, e, r);
    InsertedOnePerKey(sorted, at, e, r);
  }

  method Sort(events: seq<Event>, leq: (Event, Event) -> bool) returns (r: seq<Event>)
    requires TotalPreorder(leq) && OnePerKey(events)
    ensures Sorted(r, leq) && OnePerKey(r) && forall x :: x in r <==> x in events
  {
    hide Sorted, TotalPreorder;
    r := [];
    SortedEmpty(leq);
    for i := 0 to |events|
      invariant Sorted(r, leq) && OnePerKey(r) && forall x :: x in r <==> x in events[..i]
    {
      assert events[..i + 1] == events[..i] + [events[i]];
      r := Insert(r, events[i], leq);
    }
    assert events[..|events|] == events;
  }

  lemma SortedEmpty(leq: (Event, Event) -> bool)
    ensures Sorted([], leq)
  {
  }
}
