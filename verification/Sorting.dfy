/** Sorting by a comparison function, and when the sorted order is unique. */
module Sorting {

  /** A strict weak order: what a comparison function must be for sorting to make sense. */
  ghost predicate WeakOrder<T(!new)>(less: (T, T) -> bool) {
    && (forall a, b :: less(a, b) ==> !less(b, a))
    && (forall a, b, c :: !less(a, b) && !less(b, c) ==> !less(a, c))
  }

  ghost predicate Sorted<T>(s: seq<T>, less: (T, T) -> bool) {
    forall i, j :: 0 <= i < j < |s| ==> !less(s[j], s[i])
  }

  lemma InsertSorted<T(!new)>(s: seq<T>, k: nat, x: T, less: (T, T) -> bool)
    requires WeakOrder(less) && Sorted(s, less) && k <= |s|
    requires forall j :: k <= j < |s| ==> less(x, s[j])
    requires k > 0 ==> !less(x, s[k - 1])
    ensures Sorted(s[..k] + [x] + s[k..], less)
  {
    forall i | 0 <= i < k
      ensures !less(x, s[i])
    {
      if i < k - 1 {
        assert !less(s[k - 1], s[i]);
      }
    }
  }

  // ─── Stability ───

  predicate Tied<T>(x: T, y: T, less: (T, T) -> bool) {
    !less(x, y) && !less(y, x)
  }

  /** The elements that tie with z, in their order. */
  function Ties<T>(s: seq<T>, z: T, less: (T, T) -> bool): seq<T> {
    if s == [] then []
    else Ties(s[..|s| - 1], z, less) + (if Tied(s[|s| - 1], z, less) then [s[|s| - 1]] else [])
  }

  /** Elements that tie stand in `s` in the order they have in `xs`. */
  ghost predicate Stable<T(!new)>(xs: seq<T>, s: seq<T>, less: (T, T) -> bool) {
    forall z :: Ties(s, z, less) == Ties(xs, z, less)
  }

  lemma {:induction false} TiesConcat<T>(a: seq<T>, b: seq<T>, z: T, less: (T, T) -> bool)
    ensures Ties(a + b, z, less) == Ties(a, z, less) + Ties(b, z, less)
  {
    if b == [] {
      assert a + b == a;
    } else {
      TiesConcat(a, b[..|b| - 1], z, less);
      assert (a + b)[..|a + b| - 1] == a + b[..|b| - 1];
    }
  }

  lemma {:induction false} NoTies<T>(s: seq<T>, z: T, less: (T, T) -> bool)
    requires forall j :: 0 <= j < |s| ==> !Tied(s[j], z, less)
    ensures Ties(s, z, less) == []
  {
    if s != [] {
      NoTies(s[..|s| - 1], z, less);
    }
  }

  lemma TiesInserted<T>(a: seq<T>, b: seq<T>, x: T, z: T, less: (T, T) -> bool)
    requires Tied(x, z, less) ==> Ties(b, z, less) == []
    ensures Ties(a + [x] + b, z, less) == Ties(a + b + [x], z, less)
  {
    TiesConcat(a + [x], b, z, less);
    TiesConcat(a, [x], z, less);
    TiesConcat(a, b, z, less);
    TiesConcat(a + b, [x], z, less);
  }

  /** Inserting x before elements it is less than keeps every tie in the order of arrival. */
  lemma InsertStable<T(!new)>(a: seq<T>, b: seq<T>, x: T, z: T, less: (T, T) -> bool)
    requires WeakOrder(less) && forall j :: 0 <= j < |b| ==> less(x, b[j])
    ensures Ties(a + [x] + b, z, less) == Ties(a + b + [x], z, less)
  {
    if Tied(x, z, less) {
      forall j | 0 <= j < |b|
        ensures !Tied(b[j], z, less)
      {
      }
      NoTies(b, z, less);
    }
    TiesInserted(a, b, x, z, less);
  }

  lemma InsertMultiset<T>(s: seq<T>, k: nat, x: T)
    requires k <= |s|
    ensures multiset(s[..k] + [x] + s[k..]) == multiset(s) + multiset{x}
  {
    assert s == s[..k] + s[k..];
  }

  lemma InsertKeeps<T(!new)>(xs: seq<T>, s: seq<T>, k: nat, x: T, less: (T, T) -> bool)
    requires WeakOrder(less) && k <= |s| && forall j :: k <= j < |s| ==> less(x, s[j])
    requires multiset(s) == multiset(xs) && Stable(xs, s, less)
    ensures multiset(s[..k] + [x] + s[k..]) == multiset(xs + [x])
    ensures Stable(xs + [x], s[..k] + [x] + s[k..], less)
  {
    InsertMultiset(s, k, x);
    assert s == s[..k] + s[k..];
    forall z
      ensures Ties(s[..k] + [x] + s[k..], z, less) == Ties(xs + [x], z, less)
    {
      InsertStable(s[..k], s[k..], x, z, less);
      TiesConcat(s, [x], z, less);
      TiesConcat(xs, [x], z, less);
    }
  }

  lemma NextPrefix<T>(xs: seq<T>, i: nat)
    requires i < |xs|
    ensures xs[..i + 1] == xs[..i] + [xs[i]]
  {
  }

  /** Where x belongs: behind every element it is not less than. */
  method Place<T(!new)>(s: seq<T>, x: T, less: (T, T) -> bool) returns (k: nat)
    ensures k <= |s| && (k > 0 ==> !less(x, s[k - 1]))
    ensures forall j :: k <= j < |s| ==> less(x, s[j])
  {
    k := |s|;
    while k > 0 && less(x, s[k - 1])
      invariant k <= |s|
      invariant forall j :: k <= j < |s| ==> less(x, s[j])
    {
      k := k - 1;
    }
  }

  /** Stable insertion sort. */
  method Sort<T(!new)>(xs: seq<T>, less: (T, T) -> bool) returns (s: seq<T>)
    requires WeakOrder(less)
    ensures multiset(s) == multiset(xs) && Sorted(s, less) && Stable(xs, s, less)
  {
    s := [];
    for i := 0 to |xs|
      invariant multiset(s) == multiset(xs[..i]) && Sorted(s, less) && Stable(xs[..i], s, less)
    {
      var k := Place(s, xs[i], less);
      InsertSorted(s, k, xs[i], less);
      InsertKeeps(xs[..i], s, k, xs[i], less);
      NextPrefix(xs, i);
      s := s[..k] + [xs[i]] + s[k..];
    }
    assert xs[..|xs|] == xs;
  }

  /** The first element of a sorted sequence is the least one, where the order tells members apart. */
  lemma SameHead<T(!new)>(a: seq<T>, b: seq<T>, less: (T, T) -> bool)
    requires Sorted(a, less) && Sorted(b, less) && multiset(a) == multiset(b) && a != [] && b != []
    requires forall x, y :: x in a && y in a && x != y ==> less(x, y) || less(y, x)
    ensures a[0] == b[0]
  {
    assert a[0] in multiset(b) && b[0] in multiset(a);
    var i :| 0 <= i < |b| && b[i] == a[0];
    var j :| 0 <= j < |a| && a[j] == b[0];
    assert i > 0 ==> !less(b[i], b[0]);
    assert j > 0 ==> !less(a[j], a[0]);
  }

  /** If the order tells any two different members apart, there is only one way to sort them. */
  lemma {:induction false} SortedIsUnique<T(!new)>(a: seq<T>, b: seq<T>, less: (T, T) -> bool)
    requires Sorted(a, less) && Sorted(b, less) && multiset(a) == multiset(b)
    requires forall x, y :: x in a && y in a && x != y ==> less(x, y) || less(y, x)
    ensures a == b
    decreases |a|
  {
    assert |a| == |multiset(a)| == |multiset(b)| == |b|;
    if a != [] {
      SameHead(a, b, less);
      assert a == [a[0]] + a[1..] && b == [b[0]] + b[1..];
      assert multiset(a[1..]) == multiset(a) - multiset{a[0]};
      assert multiset(b[1..]) == multiset(b) - multiset{b[0]};
      assert Sorted(a[1..], less) && Sorted(b[1..], less);
      SortedIsUnique(a[1..], b[1..], less);
    }
  }
}
