// Stable sorting by an integer pair key, and its interplay with filtering.
module StableSort {
  import opened Filters

  type Key = (int, int)

  predicate AtMost(a: Key, b: Key) {
    a.0 < b.0 || (a.0 == b.0 && a.1 <= b.1)
  }

  // Puts x after every element whose key is at most x's.
  function Place<T>(s: seq<T>, x: T, key: T -> Key): seq<T> {
    if s == [] || AtMost(key(s[|s| - 1]), key(x)) then s + [x]
    else Place(s[..|s| - 1], x, key) + [s[|s| - 1]]
  }

  // sorted(s, key = key): equal keys keep their order.
  function Sort<T>(s: seq<T>, key: T -> Key): seq<T> {
    if s == [] then [] else Place(Sort(s[..|s| - 1], key), s[|s| - 1], key)
  }

  ghost predicate Ordered<T>(s: seq<T>, key: T -> Key) {
    forall i, j :: 0 <= i < j < |s| ==> AtMost(key(s[i]), key(s[j]))
  }

  ghost predicate Bounded<T>(s: seq<T>, b: Key, key: T -> Key) {
    forall i :: 0 <= i < |s| ==> AtMost(key(s[i]), b)
  }

  lemma {:induction false} PlaceOrdered<T>(s: seq<T>, x: T, key: T -> Key)
    requires Ordered(s, key)
    ensures Ordered(Place(s, x, key), key)
    ensures forall b :: AtMost(key(x), b) && Bounded(s, b, key) ==> Bounded(Place(s, x, key), b, key)
  {
    if s != [] && !AtMost(key(s[|s| - 1]), key(x)) {
      var n := |s| - 1;
      PlaceOrdered(s[..n], x, key);
      assert Bounded(s[..n], key(s[n]), key);
    }
  }

  lemma {:induction false} PlaceMembers<T>(s: seq<T>, x: T, key: T -> Key)
    ensures multiset(Place(s, x, key)) == multiset(s) + multiset{x}
    ensures |Place(s, x, key)| == |s| + 1
  {
    if s != [] && !AtMost(key(s[|s| - 1]), key(x)) {
      var n := |s| - 1;
      PlaceMembers(s[..n], x, key);
      assert s == s[..n] + [s[n]];
    }
  }

  lemma {:induction false} SortOrdered<T>(s: seq<T>, key: T -> Key)
    ensures Ordered(Sort(s, key), key)
    ensures multiset(Sort(s, key)) == multiset(s)
    ensures |Sort(s, key)| == |s|
  {
    if s != [] {
      var n := |s| - 1;
      SortOrdered(s[..n], key);
      PlaceOrdered(Sort(s[..n], key), s[n], key);
      PlaceMembers(Sort(s[..n], key), s[n], key);
      assert s == s[..n] + [s[n]];
    }
  }

  lemma {:induction false} FilterBounded<T>(s: seq<T>, p: T -> bool, b: Key, key: T -> Key)
    requires Bounded(s, b, key)
    ensures Bounded(Filter(s, p), b, key)
  {
    if s != [] { FilterBounded(s[..|s| - 1], p, b, key); }
  }

  lemma {:induction false} FilterOrdered<T>(s: seq<T>, p: T -> bool, key: T -> Key)
    requires Ordered(s, key)
    ensures Ordered(Filter(s, p), key)
  {
    if s != [] {
      var n := |s| - 1;
      FilterOrdered(s[..n], p, key);
      assert Bounded(s[..n], key(s[n]), key);
      FilterBounded(s[..n], p, key(s[n]), key);
    }
  }

  lemma {:induction false} FilterPlace<T>(s: seq<T>, x: T, p: T -> bool, key: T -> Key)
    requires Ordered(s, key)
    ensures Filter(Place(s, x, key), p) == if p(x) then Place(Filter(s, p), x, key) else Filter(s, p)
  {
    if s == [] || AtMost(key(s[|s| - 1]), key(x)) {
      assert (s + [x])[..|s|] == s;
      if s != [] {
        assert Bounded(s, key(x), key);
        FilterBounded(s, p, key(x), key);
      }
    } else {
      var n := |s| - 1;
      FilterPlace(s[..n], x, p, key);
      var placed := Place(s[..n], x, key);
      assert (placed + [s[n]])[..|placed|] == placed;
      var kept := Filter(s[..n], p);
      if p(s[n]) {
        assert (kept + [s[n]])[..|kept|] == kept;
      }
    }
  }

  // Filtering commutes with stable sorting.
  lemma {:induction false} FilterSort<T>(s: seq<T>, p: T -> bool, key: T -> Key)
    ensures Filter(Sort(s, key), p) == Sort(Filter(s, p), key)
  {
    if s != [] {
      var n := |s| - 1;
      FilterSort(s[..n], p, key);
      SortOrdered(s[..n], key);
      FilterPlace(Sort(s[..n], key), s[n], p, key);
      var kept := Filter(s[..n], p);
      assert (kept + [s[n]])[..|kept|] == kept;
    }
  }
}
