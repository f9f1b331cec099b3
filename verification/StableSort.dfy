/** The library sorts the sources rely on, as one function: stable, by a lexicographic key. */
module StableSort {

  predicate KeyLeq(a: (int, int), b: (int, int)) {
    a.0 < b.0 || (a.0 == b.0 && a.1 <= b.1)
  }

  function Insert<T>(x: T, sorted: seq<T>, key: T -> (int, int)): seq<T> {
    if sorted == [] || KeyLeq(key(x), key(sorted[0])) then [x] + sorted
    else [sorted[0]] + Insert(x, sorted[1..], key)
  }

  function Sort<T>(xs: seq<T>, key: T -> (int, int)): seq<T> {
    if xs == [] then [] else Insert(xs[0], Sort(xs[1..], key), key)
  }

  ghost predicate Sorted<T>(xs: seq<T>, key: T -> (int, int)) {
    forall i, j | 0 <= i < j < |xs| :: KeyLeq(key(xs[i]), key(xs[j]))
  }

  lemma {:induction false} InsertMembers<T>(x: T, sorted: seq<T>, key: T -> (int, int))
    ensures multiset(Insert(x, sorted, key)) == multiset(sorted) + multiset{x}
  {
    if sorted != [] && !KeyLeq(key(x), key(sorted[0])) {
      InsertMembers(x, sorted[1..], key);
      assert sorted == [sorted[0]] + sorted[1..];
    }
  }

  lemma {:induction false} InsertSorted<T>(x: T, sorted: seq<T>, key: T -> (int, int))
    requires Sorted(sorted, key)
    ensures Sorted(Insert(x, sorted, key), key)
  {
    if sorted != [] && !KeyLeq(key(x), key(sorted[0])) {
      var rest := Insert(x, sorted[1..], key);
      InsertSorted(x, sorted[1..], key);
      InsertMembers(x, sorted[1..], key);
      forall y <- rest ensures KeyLeq(key(sorted[0]), key(y)) {
        assert y in multiset(sorted[1..]) + multiset{x};
        assert y in sorted[1..] || y == x;
      }
    }
  }

  lemma {:induction false} SortSorts<T>(xs: seq<T>, key: T -> (int, int))
    ensures Sorted(Sort(xs, key), key) && multiset(Sort(xs, key)) == multiset(xs)
  {
    if xs != [] {
      SortSorts(xs[1..], key);
      InsertSorted(xs[0], Sort(xs[1..], key), key);
      InsertMembers(xs[0], Sort(xs[1..], key), key);
      assert xs == [xs[0]] + xs[1..];
    }
  }

  lemma {:induction false} SortMembers<T>(xs: seq<T>, key: T -> (int, int))
    ensures |Sort(xs, key)| == |xs|
    ensures forall x :: x in Sort(xs, key) <==> x in xs
  {
    SortSorts(xs, key);
    assert |multiset(xs)| == |xs| && |multiset(Sort(xs, key))| == |Sort(xs, key)|;
    forall x ensures x in Sort(xs, key) <==> x in xs {
      assert x in Sort(xs, key) <==> x in multiset(Sort(xs, key));
      assert x in xs <==> x in multiset(xs);
    }
  }

  /** The elements with a given key, in order. */
  function WithKey<T>(xs: seq<T>, key: T -> (int, int), k: (int, int)): seq<T> {
    if xs == [] then [] else (if key(xs[0]) == k then [xs[0]] else []) + WithKey(xs[1..], key, k)
  }

  lemma {:induction false} InsertStable<T>(x: T, sorted: seq<T>, key: T -> (int, int), k: (int, int))
    requires Sorted(sorted, key)
    ensures WithKey(Insert(x, sorted, key), key, k) == (if key(x) == k then [x] else []) + WithKey(sorted, key, k)
  {
    if sorted == [] || KeyLeq(key(x), key(sorted[0])) {
      assert ([x] + sorted)[1..] == sorted;
    } else {
      InsertStable(x, sorted[1..], key, k);
      assert ([sorted[0]] + Insert(x, sorted[1..], key))[1..] == Insert(x, sorted[1..], key);
    }
  }

  /** Elements with equal keys keep their input order. */
  lemma {:induction false} SortStable<T>(xs: seq<T>, key: T -> (int, int), k: (int, int))
    ensures WithKey(Sort(xs, key), key, k) == WithKey(xs, key, k)
  {
    if xs != [] {
      SortStable(xs[1..], key, k);
      SortSorts(xs[1..], key);
      InsertStable(xs[0], Sort(xs[1..], key), key, k);
    }
  }

  lemma {:induction false} NoneWithKey<T>(xs: seq<T>, key: T -> (int, int), k: (int, int))
    requires forall x <- xs :: key(x) != k
    ensures WithKey(xs, key, k) == []
  {
    if xs != [] { NoneWithKey(xs[1..], key, k); }
  }

  lemma {:induction false} SomeWithKey<T>(xs: seq<T>, key: T -> (int, int), x: T)
    requires x in xs
    ensures WithKey(xs, key, key(x)) != []
  {
    if xs[0] != x { SomeWithKey(xs[1..], key, x); }
  }

  lemma {:induction false} FirstOfSorted<T>(a: seq<T>, b: seq<T>, key: T -> (int, int))
    requires Sorted(a, key) && a != [] && b != []
    requires forall k :: WithKey(a, key, k) == WithKey(b, key, k)
    ensures KeyLeq(key(a[0]), key(b[0]))
  {
    SomeWithKey(b, key, b[0]);
    assert WithKey(a, key, key(b[0])) == WithKey(b, key, key(b[0]));
    if !KeyLeq(key(a[0]), key(b[0])) {
      NoneWithKey(a, key, key(b[0]));
    }
  }

  /** A sorted list that keeps the order of equal keys is determined. */
  lemma {:induction false} StableUnique<T>(a: seq<T>, b: seq<T>, key: T -> (int, int))
    requires Sorted(a, key) && Sorted(b, key)
    requires forall k :: WithKey(a, key, k) == WithKey(b, key, k)
    ensures a == b
  {
    if a != [] { SomeWithKey(a, key, a[0]); assert WithKey(b, key, key(a[0])) != []; }
    if b != [] { SomeWithKey(b, key, b[0]); assert WithKey(a, key, key(b[0])) != []; }
    if a != [] && b != [] {
      FirstOfSorted(a, b, key);
      FirstOfSorted(b, a, key);
      var k0 := key(a[0]);
      assert WithKey(a, key, k0) == WithKey(b, key, k0);
      assert WithKey(a, key, k0)[0] == a[0] && WithKey(b, key, k0)[0] == b[0];
      forall k ensures WithKey(a[1..], key, k) == WithKey(b[1..], key, k) {
        assert WithKey(a, key, k) == WithKey(b, key, k);
        assert WithKey(a, key, k)[(if key(a[0]) == k then 1 else 0)..] == WithKey(a[1..], key, k);
        assert WithKey(b, key, k)[(if key(b[0]) == k then 1 else 0)..] == WithKey(b[1..], key, k);
      }
      StableUnique(a[1..], b[1..], key);
      assert a == [a[0]] + a[1..] && b == [b[0]] + b[1..];
    }
  }
}
