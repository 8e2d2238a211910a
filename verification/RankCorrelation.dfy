// Average ranks and the correlation of ranks.
module RankCorrelation {
  import opened Arithmetic
  import opened Wrappers
  import opened Totals
  import opened Statistics

  // ---- ranks ----

  function Below(values: seq<real>, v: real): set<int> {
    set i | 0 <= i < |values| && values[i] < v
  }

  function Tied(values: seq<real>, v: real): set<int> {
    set i | 0 <= i < |values| && values[i] == v
  }

  // One-based, tied values sharing the mean of the places they occupy.
  function Rank(values: seq<real>, v: real): real {
    |Below(values, v)| as real + (|Tied(values, v)| as real + 1.0) / 2.0
  }

  function Ranks(values: seq<real>): seq<real> {
    seq(|values|, i requires 0 <= i < |values| => Rank(values, values[i]))
  }

  // Any order that sorting the indices by value could produce.
  ghost predicate SortsByValue(order: seq<int>, values: seq<real>) {
    && |order| == |values|
    && Distinct(order)
    && (forall k :: 0 <= k < |order| ==> 0 <= order[k] < |values|)
    && (forall j, k :: 0 <= j < k < |order| ==> values[order[j]] <= values[order[k]])
  }

  ghost predicate IsBlock(order: seq<int>, values: seq<real>, cursor: nat, end: nat)
    requires SortsByValue(order, values)
  {
    && cursor < end <= |order|
    && (forall k :: cursor <= k < end ==> values[order[k]] == values[order[cursor]])
    && (cursor == 0 || values[order[cursor - 1]] < values[order[cursor]])
    && (end == |order| || values[order[cursor]] < values[order[end]])
  }

  lemma OrderCoversAll(order: seq<int>, n: nat)
    requires |order| == n && Distinct(order) && forall k :: 0 <= k < n ==> 0 <= order[k] < n
    ensures forall i :: 0 <= i < n ==> i in order
  {
    DistinctCount(order);
    forall k | k in Members(order)
      ensures k in Indices(n)
    {
      var j :| 0 <= j < n && order[j] == k;
    }
    SubsetEqual(Members(order), Indices(n));
    forall i | 0 <= i < n
      ensures i in order
    {
      assert i in Indices(n);
      assert i in Members(order);
    }
  }

  lemma SubsetEqual(a: set<int>, b: set<int>)
    requires a <= b && |a| == |b|
    ensures a == b
  {
    assert b == a + (b - a);
    assert |b| == |a| + |b - a|;
  }

  // Before a block lie exactly the smaller values, inside it exactly the ties.
  lemma BlockCounts(order: seq<int>, values: seq<real>, cursor: nat, end: nat)
    requires SortsByValue(order, values) && IsBlock(order, values, cursor, end)
    ensures Rank(values, values[order[cursor]]) == (cursor + 1 + end) as real / 2.0
  {
    var v := values[order[cursor]];
    OrderCoversAll(order, |values|);
    DistinctSlice(order, 0, cursor);
    assert order[0..cursor] == order[..cursor];
    DistinctSlice(order, cursor, end);
    DistinctCount(order[..cursor]);
    DistinctCount(order[cursor..end]);
    forall i | 0 <= i < |values|
      ensures i in order[..cursor] <==> values[i] < v
      ensures i in order[cursor..end] <==> values[i] == v
    {
      assert i in order;
      var k :| 0 <= k < |order| && order[k] == i;
      hide SortsByValue;
      hide IsBlock;
      Located(order, values, cursor, end, k);
    }
    assert Members(order[..cursor]) == Below(values, v);
    assert Members(order[cursor..end]) == Tied(values, v);
  }

  lemma Located(order: seq<int>, values: seq<real>, cursor: nat, end: nat, k: nat)
    requires SortsByValue(order, values) && IsBlock(order, values, cursor, end) && k < |order|
    ensures order[k] in order[..cursor] <==> values[order[k]] < values[order[cursor]]
    ensures order[k] in order[cursor..end] <==> values[order[k]] == values[order[cursor]]
  {
  }

  // The engine's loop over blocks of equal values; the result does not depend on
  // the order the sort gave to ties.
  method AssignRanks(values: seq<real>, order: seq<int>) returns (ranks: array<real>)
    requires SortsByValue(order, values)
    ensures ranks[..] == Ranks(values)
  {
    ranks := new real[|values|](_ => 0.0);
    var cursor := 0;
    while cursor < |order|
      invariant cursor <= |order|
      invariant 0 < cursor < |order| ==> values[order[cursor - 1]] < values[order[cursor]]
      invariant forall k :: 0 <= k < cursor ==> ranks[order[k]] == Rank(values, values[order[k]])
    {
      var end := cursor + 1;
      while end < |order| && values[order[end]] == values[order[cursor]]
        invariant cursor < end <= |order|
        invariant forall k :: cursor <= k < end ==> values[order[k]] == values[order[cursor]]
      {
        end := end + 1;
      }
      BlockCounts(order, values, cursor, end);
      var rank := (cursor + 1 + end) as real / 2.0;
      for k := cursor to end
        invariant forall j :: 0 <= j < k ==> ranks[order[j]] == Rank(values, values[order[j]])
      {
        ranks[order[k]] := rank;
      }
      cursor := end;
    }
    OrderCoversAll(order, |values|);
    forall i | 0 <= i < |values|
      ensures ranks[i] == Rank(values, values[i])
    {
      assert i in order;
      var k :| 0 <= k < |order| && order[k] == i;
    }
  }

  // ---- the sum of the ranks ----

  // How much of a place a value x takes below a value v.
  function Place(x: real, v: real): real {
    if x < v then 1.0 else if x == v then 0.5 else 0.0
  }

  function Places(values: seq<real>, v: real): seq<real> {
    seq(|values|, j requires 0 <= j < |values| => Place(values[j], v))
  }

  lemma {:induction false} RankIsPlaces(values: seq<real>, v: real)
    ensures Rank(values, v) == 0.5 + Sum(Places(values, v))
  {
    if values == [] {
      assert Below(values, v) == {} && Tied(values, v) == {};
    } else {
      var n := |values| - 1;
      RankIsPlaces(values[..n], v);
      assert Places(values, v)[..n] == Places(values[..n], v);
      if values[n] < v {
        assert Below(values, v) == Below(values[..n], v) + {n} && Tied(values, v) == Tied(values[..n], v);
      } else if values[n] == v {
        assert Below(values, v) == Below(values[..n], v) && Tied(values, v) == Tied(values[..n], v) + {n};
      } else {
        assert Below(values, v) == Below(values[..n], v) && Tied(values, v) == Tied(values[..n], v);
      }
    }
  }

  // Appending x moves every earlier rank up by the place x takes below it.
  lemma RankAppend(values: seq<real>, x: real, v: real)
    ensures Rank(values + [x], v) == Rank(values, v) + Place(x, v)
  {
    RankIsPlaces(values, v);
    RankIsPlaces(values + [x], v);
    assert Places(values + [x], v) == Places(values, v) + [Place(x, v)];
    SumAppend(Places(values, v), Place(x, v));
  }

  // The places x takes below the values and the values take below x add up to one each.
  lemma {:induction false} PlacesPair(values: seq<real>, x: real, raised: seq<real>, ranks: seq<real>)
    requires |values| == |raised| == |ranks|
    requires forall i :: 0 <= i < |values| ==> raised[i] == ranks[i] + Place(x, values[i])
    ensures Sum(raised) + Sum(Places(values, x)) == Sum(ranks) + |values| as real
  {
    if values != [] {
      var n := |values| - 1;
      PlacesPair(values[..n], x, raised[..n], ranks[..n]);
      assert Places(values, x)[..n] == Places(values[..n], x);
    }
  }

  function Triangular(n: nat): real {
    (n * (n + 1)) as real / 2.0
  }

  lemma {:induction false} RanksSum(values: seq<real>)
    ensures Sum(Ranks(values)) == Triangular(|values|)
  {
    if values != [] {
      hide Triangular;
      var n := |values| - 1;
      var before, x := values[..n], values[n];
      RanksSum(before);
      assert values == before + [x];
      var raised := Ranks(values)[..n];
      forall i | 0 <= i < n
        ensures raised[i] == Ranks(before)[i] + Place(x, before[i])
      {
        RankAppend(before, x, before[i]);
      }
      PlacesPair(before, x, raised, Ranks(before));
      RankAppend(before, x, x);
      RankIsPlaces(before, x);
      Triangle(n);
    }
  }

  lemma Triangle(n: nat)
    ensures Triangular(n + 1) == Triangular(n) + (n + 1) as real
  {
  }

  // ---- monotone transforms ----

  ghost predicate SameOrder(a: seq<real>, b: seq<real>) {
    |a| == |b| && forall i, j :: 0 <= i < |a| && 0 <= j < |a| ==> (a[i] < a[j] <==> b[i] < b[j])
  }

  lemma RanksDependOnOrder(a: seq<real>, b: seq<real>)
    requires SameOrder(a, b)
    ensures Ranks(a) == Ranks(b)
  {
    forall i | 0 <= i < |a|
      ensures Ranks(a)[i] == Ranks(b)[i]
    {
      assert Below(a, a[i]) == Below(b, b[i]);
      assert Tied(a, a[i]) == Tied(b, b[i]);
    }
  }

  function Transformed(f: real -> real, values: seq<real>): seq<real> {
    seq(|values|, i requires 0 <= i < |values| => f(values[i]))
  }

  ghost predicate StrictlyIncreasing(f: real -> real) {
    forall x, y :: x < y ==> f(x) < f(y)
  }

  // ---- correlation ----

  datatype CorrelationFailure = TooFewPairs

  ghost predicate IsSquareRoot(root: real -> real) {
    forall x :: x >= 0.0 ==> root(x) >= 0.0 && Times(root(x), root(x)) == x
  }

  function Pearson(left: seq<real>, right: seq<real>, root: real -> real): Result<real, CorrelationFailure> {
    if |left| < 2 || |left| != |right| then Err(TooFewPairs)
    else
      var x, y := Centered(left), Centered(right);
      var denominator := root(Times(Dot(x, x), Dot(y, y)));
      Ok(if denominator != 0.0 then Dot(x, y) / denominator else 0.0)
  }

  lemma QuotientInUnit(p: real, d: real)
    requires d > 0.0 && Times(p, p) <= Times(d, d)
    ensures -1.0 <= p / d <= 1.0
  {
    var q := p / d;
    assert q * d == p;
    if q > 1.0 {
      Exceeds(p, d);
    } else if q < -1.0 {
      Exceeds(-p, d);
    }
  }

  lemma Exceeds(p: real, d: real)
    requires d > 0.0
    ensures p > d ==> Times(p, p) > Times(d, d)
  {
  }

  // A correlation lies between -1 and 1, by Cauchy-Schwarz.
  lemma PearsonBounded(left: seq<real>, right: seq<real>, root: real -> real)
    requires IsSquareRoot(root) && |left| == |right| >= 2
    ensures Pearson(left, right, root).Ok? && -1.0 <= Pearson(left, right, root).value <= 1.0
  {
    hide Dot;
    hide Centered;
    hide Times;
    var x, y := Centered(left), Centered(right);
    CauchySchwarz(x, y);
    DotNonNegative(x);
    DotNonNegative(y);
    NonNegativeTimes(Dot(x, x), Dot(y, y));
    var d := root(Times(Dot(x, x), Dot(y, y)));
    if d != 0.0 { QuotientInUnit(Dot(x, y), d); }
  }

  lemma NonNegativeTimes(x: real, y: real)
    requires x >= 0.0 && y >= 0.0
    ensures Times(x, y) >= 0.0
  {
  }

  function RankPearson(left: seq<real>, right: seq<real>, root: real -> real): Result<real, CorrelationFailure> {
    Pearson(Ranks(left), Ranks(right), root)
  }

  // Any strictly increasing transform of the scores leaves the rank correlation
  // unchanged.
  lemma RankCorrelationInvariant(f: real -> real, scores: seq<real>, forward: seq<real>, root: real -> real)
    requires StrictlyIncreasing(f)
    ensures RankPearson(Transformed(f, scores), forward, root) == RankPearson(scores, forward, root)
  {
    assert SameOrder(Transformed(f, scores), scores) by {
      forall i, j | 0 <= i < |scores| && 0 <= j < |scores|
        ensures f(scores[i]) < f(scores[j]) <==> scores[i] < scores[j]
      {
      }
    }
    RanksDependOnOrder(Transformed(f, scores), scores);
  }
}
