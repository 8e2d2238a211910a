// Finite sums: the total of a map's values, and the running sum of a sequence.
// Dictionaries of weights are maps keyed by symbol; only the order and equality
// of symbols matter, so a symbol is its rank in string order.
module Totals {
  import opened Wrappers

  function Abs(x: real): real {
    if x < 0.0 then -x else x
  }

  function Min(x: real, y: real): real {
    if x <= y then x else y
  }

  function Max(x: real, y: real): real {
    if x >= y then x else y
  }

  lemma Inhabited(s: set<int>)
    ensures s != {} ==> exists x :: x in s
  {
    if forall x :: x !in s {
      assert s == {};
    }
  }

  predicate NoneAbove(s: set<int>, x: int) {
    forall y :: y in s ==> y <= x
  }

  predicate NoneBelow(s: set<int>, x: int) {
    forall y :: y in s ==> x <= y
  }

  lemma {:induction false} GreatestExists(s: set<int>)
    requires s != {}
    ensures exists x :: x in s && NoneAbove(s, x)
    decreases |s|
  {
    Inhabited(s);
    var z :| z in s;
    var rest := s - {z};
    assert forall y :: y in s <==> y == z || y in rest;
    if rest == {} {
      assert NoneAbove(s, z);
    } else {
      GreatestExists(rest);
      var x :| x in rest && NoneAbove(rest, x);
      assert NoneAbove(s, if x <= z then z else x);
    }
  }

  // The first row of a descending order.
  function Greatest(s: set<int>): (r: Option<int>)
    ensures r.None? <==> s == {}
    ensures r.Some? ==> r.value in s && forall y :: y in s ==> y <= r.value
  {
    if s == {} then None
    else
      GreatestExists(s);
      var x :| x in s && NoneAbove(s, x);
      Some(x)
  }

  lemma {:induction false} LeastExists(s: set<int>)
    requires s != {}
    ensures exists x :: x in s && NoneBelow(s, x)
    decreases |s|
  {
    Inhabited(s);
    var z :| z in s;
    var rest := s - {z};
    assert forall y :: y in s <==> y == z || y in rest;
    if rest == {} {
      assert NoneBelow(s, z);
    } else {
      LeastExists(rest);
      var x :| x in rest && NoneBelow(rest, x);
      assert NoneBelow(s, if z <= x then z else x);
    }
  }

  function Least(s: set<int>): (x: int)
    requires s != {}
    ensures x in s && forall y :: y in s ==> x <= y
  {
    LeastExists(s);
    var x :| x in s && NoneBelow(s, x);
    x
  }

  lemma Prepended(x: int, rest: seq<int>)
    requires Increasing(rest) && forall y :: y in rest ==> x < y
    ensures Increasing([x] + rest)
    ensures forall y :: y in [x] + rest <==> y == x || y in rest
  {
    assert forall j :: 0 <= j < |rest| ==> rest[j] in rest;
  }

  // The elements of a set in increasing order: Python's sorted(set).
  function Sorted(s: set<int>): (r: seq<int>)
    ensures forall x :: x in r <==> x in s
    ensures Increasing(r)
    ensures |r| == |s|
    decreases |s|
  {
    if s == {} then []
    else
      hide Least;
      var x := Least(s);
      var rest := Sorted(s - {x});
      Prepended(x, rest);
      [x] + rest
  }

  ghost predicate Increasing(r: seq<int>) {
    forall i, j :: 0 <= i < j < |r| ==> r[i] < r[j]
  }

  ghost predicate Distinct(r: seq<int>) {
    forall i, j :: 0 <= i < j < |r| ==> r[i] != r[j]
  }

  function Members(r: seq<int>): set<int> {
    set x | x in r
  }

  ghost predicate SameMembers(r: seq<int>, q: seq<int>) {
    forall x :: x in r <==> x in q
  }

  lemma {:induction false} DistinctCount(r: seq<int>)
    requires Distinct(r)
    ensures |set s | s in r| == |r|
  {
    if r != [] {
      var n := |r| - 1;
      DistinctCount(r[..n]);
      assert (set s | s in r) == (set s | s in r[..n]) + {r[n]};
    }
  }

  lemma DistinctSlice(r: seq<int>, lo: nat, hi: nat)
    requires Distinct(r) && lo <= hi <= |r|
    ensures Distinct(r[lo..hi])
  {
  }

  // The indices of a sequence of length n.
  ghost function Indices(n: nat): (s: set<int>)
    ensures |s| == n
    ensures forall i :: i in s <==> 0 <= i < n
  {
    if n == 0 then {} else Indices(n - 1) + {n - 1}
  }

  lemma HeadLeast(r: seq<int>, x: int)
    requires Increasing(r) && x in r
    ensures r[0] <= x
    ensures x in r[1..] <==> x != r[0]
  {
  }

  // An increasing sequence is determined by its members.
  lemma TailMembers(r: seq<int>)
    requires Increasing(r) && r != []
    ensures forall x :: x in r[1..] <==> x in r && x != r[0]
  {
    assert r == [r[0]] + r[1..];
  }

  lemma {:induction false} SortedUnique(r: seq<int>, q: seq<int>)
    requires Increasing(r) && Increasing(q) && SameMembers(r, q)
    ensures r == q
  {
    if r != [] { assert r[0] in r && r[0] in q; }
    if q != [] { assert q[0] in q && q[0] in r; }
    if r != [] {
      HeadLeast(r, q[0]);
      HeadLeast(q, r[0]);
      TailMembers(r);
      TailMembers(q);
      SortedUnique(r[1..], q[1..]);
      assert r == [r[0]] + r[1..] && q == [q[0]] + q[1..];
    }
  }

  // The sum of a map's values.
  function Total(m: map<int, real>): (t: real)
    decreases |m.Keys|
  {
    if m.Keys == {} then 0.0
    else
      var k := Least(m.Keys);
      var rest := m - {k};
      assert rest.Keys == m.Keys - {k};
      m[k] + Total(rest)
  }

  lemma {:induction false} TotalRemove(m: map<int, real>, k: int)
    requires k in m
    ensures Total(m) == m[k] + Total(m - {k})
    decreases |m.Keys|
  {
    var l := Least(m.Keys);
    if k != l {
      var rest := m - {l};
      assert rest.Keys == m.Keys - {l};
      TotalRemove(rest, k);
      var dropped := m - {k};
      assert dropped.Keys == m.Keys - {k};
      assert l in dropped.Keys;
      assert Least(dropped.Keys) == l;
      assert rest - {k} == dropped - {l};
    }
  }

  lemma {:induction false} TotalInsert(m: map<int, real>, k: int, v: real)
    requires k !in m
    ensures Total(m[k := v]) == v + Total(m)
  {
    var n := m[k := v];
    TotalRemove(n, k);
    assert n - {k} == m;
  }

  predicate Combines(x: real, y: real, z: real, p: real, q: real) {
    x == p * y + q * z
  }

  lemma LinearStep(x: real, y: real, z: real, s: real, t: real, u: real, p: real, q: real)
    requires Combines(x, y, z, p, q) && Combines(s, t, u, p, q)
    ensures Combines(x + s, y + t, z + u, p, q)
  {
  }

  // A termwise linear combination of maps over the same keys sums linearly.
  lemma {:induction false} TotalLinear(m: map<int, real>, a: map<int, real>, b: map<int, real>, p: real, q: real)
    requires m.Keys == a.Keys == b.Keys
    requires forall k :: k in m ==> Combines(m[k], a[k], b[k], p, q)
    ensures Combines(Total(m), Total(a), Total(b), p, q)
    decreases |m.Keys|
  {
    if m.Keys != {} {
      hide Least;
      hide Combines;
      var k := Least(m.Keys);
      var m', a', b' := m - {k}, a - {k}, b - {k};
      assert m'.Keys == m.Keys - {k} && a'.Keys == m'.Keys && b'.Keys == m'.Keys;
      TotalLinear(m', a', b', p, q);
      LinearStep(m[k], a[k], b[k], Total(m'), Total(a'), Total(b'), p, q);
    }
  }

  lemma {:induction false} TotalMonotone(m: map<int, real>, n: map<int, real>)
    requires m.Keys == n.Keys
    requires forall k :: k in m ==> m[k] <= n[k]
    ensures Total(m) <= Total(n)
    decreases |m.Keys|
  {
    if m.Keys != {} {
      var k := Least(m.Keys);
      var m', n' := m - {k}, n - {k};
      assert m'.Keys == m.Keys - {k} && n'.Keys == m'.Keys;
      TotalMonotone(m', n');
    }
  }

  lemma {:induction false} TotalNonNegative(m: map<int, real>)
    requires forall k :: k in m ==> m[k] >= 0.0
    ensures Total(m) >= 0.0
    ensures forall k :: k in m ==> m[k] <= Total(m)
    decreases |m.Keys|
  {
    if m.Keys != {} {
      forall k | k in m
        ensures 0.0 <= m[k] <= Total(m)
      {
        TotalRemove(m, k);
        var rest := m - {k};
        assert rest.Keys == m.Keys - {k};
        TotalNonNegative(rest);
      }
      var l := Least(m.Keys);
      assert 0.0 <= m[l] <= Total(m);
    }
  }

  lemma {:induction false} TotalPositive(m: map<int, real>, k: int)
    requires k in m && m[k] > 0.0
    requires forall j :: j in m ==> m[j] >= 0.0
    ensures Total(m) > 0.0
  {
    TotalNonNegative(m);
  }

  // Keys whose value is zero can be added or dropped freely.
  lemma {:induction false} TotalPadded(m: map<int, real>, n: map<int, real>)
    requires m.Keys <= n.Keys
    requires forall k :: k in m ==> n[k] == m[k]
    requires forall k :: k in n && k !in m ==> n[k] == 0.0
    ensures Total(n) == Total(m)
    decreases |n.Keys|
  {
    if n.Keys == {} {
      assert m.Keys == {};
    } else {
      var k := Least(n.Keys);
      var n' := n - {k};
      assert n'.Keys == n.Keys - {k};
      if k in m {
        var m' := m - {k};
        assert m'.Keys == m.Keys - {k};
        TotalPadded(m', n');
        TotalRemove(m, k);
      } else {
        TotalPadded(m, n');
      }
    }
  }

  // A sub-map of a non-negative map has a total no larger.
  lemma {:induction false} TotalSubmap(m: map<int, real>, n: map<int, real>)
    requires m.Keys <= n.Keys
    requires forall k :: k in m ==> n[k] == m[k]
    requires forall k :: k in n ==> n[k] >= 0.0
    ensures Total(m) <= Total(n)
  {
    var padded := map k | k in n :: if k in m then m[k] else 0.0;
    TotalPadded(m, padded);
    TotalMonotone(padded, n);
  }

  function Repeated(n: nat, v: real): real {
    n as real * v
  }

  lemma RepeatedStep(n: nat, v: real)
    ensures Repeated(n + 1, v) == v + Repeated(n, v)
  {
  }

  lemma {:induction false} TotalUniform(m: map<int, real>, v: real)
    requires forall k :: k in m ==> m[k] == v
    ensures Total(m) == Repeated(|m.Keys|, v)
    decreases |m.Keys|
  {
    if m.Keys != {} {
      hide Least;
      hide Repeated;
      hide Total;
      var k := Least(m.Keys);
      var rest := m - {k};
      assert rest.Keys == m.Keys - {k};
      TotalRemove(m, k);
      TotalUniform(rest, v);
      RepeatedStep(|rest.Keys|, v);
    }
  }

  // The sum of a sequence.
  function Sum(s: seq<real>): real {
    if s == [] then 0.0 else Sum(s[..|s| - 1]) + s[|s| - 1]
  }

  lemma SumAppend(s: seq<real>, x: real)
    ensures Sum(s + [x]) == Sum(s) + x
  {
  }

  lemma {:induction false} SumNonNegative(s: seq<real>)
    requires forall i :: 0 <= i < |s| ==> s[i] >= 0.0
    ensures Sum(s) >= 0.0
  {
    if s != [] { SumNonNegative(s[..|s| - 1]); }
  }

  lemma {:induction false} SumUniform(s: seq<real>, v: real)
    requires forall i :: 0 <= i < |s| ==> s[i] == v
    ensures Sum(s) == Repeated(|s|, v)
  {
    if s != [] {
      hide Repeated;
      SumUniform(s[..|s| - 1], v);
      RepeatedStep(|s| - 1, v);
    }
  }

  // Product of the growth factors 1 + r.
  function Growth(path: seq<real>): real {
    if path == [] then 1.0 else Growth(path[..|path| - 1]) * (1.0 + path[|path| - 1])
  }
}
