/** Sorting by a total order, and the fact that makes sorted buckets canonical. */
module Sorting {
  ghost predicate TotalOrder<T(!new)>(le: (T, T) -> bool) {
    && (forall a, b :: le(a, b) || le(b, a))
    && (forall a, b :: le(a, b) && le(b, a) ==> a == b)
    && (forall a, b, c :: le(a, b) && le(b, c) ==> le(a, c))
  }

  predicate Sorted<T>(s: seq<T>, le: (T, T) -> bool) {
    forall i, j :: 0 <= i < j < |s| ==> le(s[i], s[j])
  }

  function Place<T>(x: T, s: seq<T>, le: (T, T) -> bool): (r: seq<T>)
    ensures multiset(r) == multiset{x} + multiset(s)
  {
    if s == [] then [x]
    else if le(x, s[0]) then [x] + s
    else
      assert s == [s[0]] + s[1..];
      [s[0]] + Place(x, s[1..], le)
  }

  /** The permutation of `s` in ascending order. */
  function Sort<T>(s: seq<T>, le: (T, T) -> bool): (r: seq<T>)
    ensures multiset(r) == multiset(s)
  {
    if s == [] then []
    else
      assert s == [s[0]] + s[1..];
      Place(s[0], Sort(s[1..], le), le)
  }

  lemma PlaceElements<T>(x: T, s: seq<T>, le: (T, T) -> bool, y: T)
    requires y in Place(x, s, le)
    ensures y == x || y in s
  {
    assert y in multiset(Place(x, s, le));
  }

  lemma {:induction false} PlaceSorted<T(!new)>(x: T, s: seq<T>, le: (T, T) -> bool)
    requires TotalOrder(le) && Sorted(s, le)
    ensures Sorted(Place(x, s, le), le)
  {
    if s != [] && !le(x, s[0]) {
      PlaceSorted(x, s[1..], le);
      var tail := Place(x, s[1..], le);
      forall y | y in tail ensures le(s[0], y) { PlaceElements(x, s[1..], le, y); }
    }
  }

  lemma {:induction false} SortSorted<T(!new)>(s: seq<T>, le: (T, T) -> bool)
    requires TotalOrder(le)
    ensures Sorted(Sort(s, le), le)
  {
    if s != [] {
      SortSorted(s[1..], le);
      PlaceSorted(s[0], Sort(s[1..], le), le);
    }
  }

  /** A sorted sequence starts with its least element. */
  lemma HeadLeast<T(!new)>(s: seq<T>, le: (T, T) -> bool, x: T)
    requires TotalOrder(le) && Sorted(s, le) && x in s
    ensures le(s[0], x)
  {
    var i :| 0 <= i < |s| && s[i] == x;
    assert le(s[0], s[0]);
  }

  lemma TailMultiset<T>(s: seq<T>)
    requires s != []
    ensures multiset(s) == multiset{s[0]} + multiset(s[1..])
  {
    assert s == [s[0]] + s[1..];
  }

  lemma Cancel<T>(x: multiset<T>, y: multiset<T>, z: multiset<T>)
    requires x + y == x + z
    ensures y == z
  {
    assert y == (x + y) - x && z == (x + z) - x;
  }

  /** Equal heads leave tails with the same elements. */
  lemma SameTails<T>(a: seq<T>, b: seq<T>)
    requires multiset(a) == multiset(b) && a != [] && b != [] && a[0] == b[0]
    ensures multiset(a[1..]) == multiset(b[1..])
  {
    TailMultiset(a);
    TailMultiset(b);
    Cancel(multiset{a[0]}, multiset(a[1..]), multiset(b[1..]));
  }

  lemma SameLength<T>(a: seq<T>, b: seq<T>)
    requires multiset(a) == multiset(b)
    ensures |a| == |b|
  {
    assert |a| == |multiset(a)| == |multiset(b)| == |b|;
  }

  lemma Rejoined<T>(a: seq<T>, b: seq<T>)
    requires a != [] && b != [] && a[0] == b[0] && a[1..] == b[1..]
    ensures a == b
  {
    assert a == [a[0]] + a[1..] && b == [b[0]] + b[1..];
  }

  lemma SameHead<T(!new)>(a: seq<T>, b: seq<T>, le: (T, T) -> bool)
    requires TotalOrder(le) && Sorted(a, le) && Sorted(b, le) && multiset(a) == multiset(b) && a != [] && b != []
    ensures a[0] == b[0]
  {
    hide TotalOrder, Sorted;
    assert a[0] in multiset(a) && b[0] in multiset(b);
    assert a[0] in b && b[0] in a;
    HeadLeast(a, le, b[0]);
    HeadLeast(b, le, a[0]);
    Antisymmetric(le, a[0], b[0]);
  }

  lemma Antisymmetric<T(!new)>(le: (T, T) -> bool, x: T, y: T)
    requires TotalOrder(le) && le(x, y) && le(y, x)
    ensures x == y
  {
  }

  lemma TailSorted<T>(s: seq<T>, le: (T, T) -> bool)
    requires Sorted(s, le) && s != []
    ensures Sorted(s[1..], le)
  {
  }

  /** Two sorted sequences with the same elements are the same sequence. */
  lemma {:induction false} SortedUnique<T(!new)>(a: seq<T>, b: seq<T>, le: (T, T) -> bool)
    requires TotalOrder(le) && Sorted(a, le) && Sorted(b, le) && multiset(a) == multiset(b)
    ensures a == b
  {
    hide TotalOrder, Sorted;
    SameLength(a, b);
    if a != [] {
      SameHead(a, b, le);
      SameTails(a, b);
      TailSorted(a, le);
      TailSorted(b, le);
      SortedUnique(a[1..], b[1..], le);
      Rejoined(a, b);
    }
  }
}
