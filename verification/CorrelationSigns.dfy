// Which way a correlation points: what scaling does to it, and where it reaches its
// bounds. Ranks that agree correlate by one, reversed ranks by minus one.
module CorrelationSigns {
  import opened Arithmetic
  import opened Wrappers
  import opened Totals
  import opened Statistics
  import opened RankCorrelation

  // ---- roots ----

  lemma SameRoot(a: real, b: real)
    requires a >= 0.0 && b >= 0.0 && Times(a, a) == Times(b, b)
    ensures a == b
  {
    if a > b { Larger(a, b); } else if b > a { Larger(b, a); }
  }

  lemma Larger(a: real, b: real)
    requires a > b >= 0.0
    ensures Times(a, a) > Times(b, b)
  {
    assert Times(a, a) - Times(b, b) == (a - b) * (a + b);
    PositiveTimes(a - b, a + b);
  }

  lemma RootOf(root: real -> real, a: real)
    requires IsSquareRoot(root) && a >= 0.0
    ensures root(Times(a, a)) == a
  {
    Square(a);
    SameRoot(root(Times(a, a)), a);
  }

  // ---- scaling ----

  // The values times a factor, plus a constant.
  function Scaled(p: real, q: real, x: seq<real>): seq<real> {
    seq(|x|, i requires 0 <= i < |x| => Times(p, x[i]) + q)
  }

  function Constant(q: real, n: nat): seq<real> {
    seq(n, i => q)
  }

  lemma CenteredConstant(q: real, n: nat)
    requires n > 0
    ensures forall i :: 0 <= i < n ==> Centered(Constant(q, n))[i] == 0.0
  {
    SumUniform(Constant(q, n), q);
    MeanOfConstant(n, q);
    assert Mean(Constant(q, n)) == q;
  }

  lemma MeanOfConstant(n: nat, q: real)
    requires n > 0
    ensures Repeated(n, q) / n as real == q
  {
  }

  // Scaling scales products with the centred values, and the constant drops out.
  lemma ScaledDots(left: seq<real>, right: seq<real>, p: real, q: real)
    requires |left| == |right| > 0
    ensures var x, y, z := Centered(left), Centered(right), Centered(Scaled(p, q, right));
            && Dot(x, z) == p * Dot(x, y)
            && Dot(z, z) == p * (p * Dot(y, y))
  {
    hide Times;
    hide Dot;
    var n := |right|;
    var x, y, o := Centered(left), Centered(right), Centered(Constant(q, n));
    assert Scaled(p, q, right) == Blend(p, right, Constant(q, n));
    CenteredBlend(p, right, Constant(q, n));
    CenteredConstant(q, n);
    hide Centered;
    var z := Blend(p, y, o);
    DotBlend(x, p, y, o);
    DotZero(x, o);
    DotBlend(z, p, y, o);
    DotZero(z, o);
    DotSymmetric(z, y);
    DotBlend(y, p, y, o);
    DotZero(y, o);
  }

  lemma SignedRoot(xx: real, yy: real, zz: real, p: real, root: real -> real)
    requires IsSquareRoot(root) && xx >= 0.0 && yy >= 0.0 && p != 0.0 && zz == p * (p * yy)
    ensures root(Times(xx, zz)) == Times(Abs(p), root(Times(xx, yy)))
  {
    NonNegativeTimes(xx, yy);
    var r := root(Times(xx, yy));
    assert r >= 0.0 && Times(r, r) == Times(xx, yy);
    Rearranged(xx, yy, p, r);
    NonNegativeTimes(Abs(p), r);
    RootOf(root, Times(Abs(p), r));
  }

  lemma Rearranged(xx: real, yy: real, p: real, r: real)
    requires Times(r, r) == Times(xx, yy)
    ensures Times(xx, p * (p * yy)) == Times(Times(Abs(p), r), Times(Abs(p), r))
  {
    assert Abs(p) * Abs(p) == p * p;
    calc {
      Times(xx, p * (p * yy));
      (p * p) * (xx * yy);
      (Abs(p) * Abs(p)) * (r * r);
      Times(Times(Abs(p), r), Times(Abs(p), r));
    }
  }

  lemma ScaledQuotient(p: real, xy: real, xz: real, d: real, e: real)
    requires p != 0.0 && d != 0.0 && xz == p * xy && e == Times(Abs(p), d)
    ensures e != 0.0
    ensures xz / e == if p > 0.0 then xy / d else -(xy / d)
  {
    var a := Abs(p);
    NonZero(a, d);
    var q := xy / d;
    assert xy == q * d;
    if p > 0.0 {
      assert xz == q * e;
    } else {
      assert xz == -q * e;
    }
  }

  lemma NonZero(a: real, d: real)
    requires a > 0.0 && d != 0.0
    ensures Times(a, d) != 0.0
  {
  }

  // A correlation does not see shifts and positive factors; a negative factor turns it
  // round.
  lemma CorrelationOfScaled(left: seq<real>, right: seq<real>, p: real, q: real, root: real -> real)
    requires IsSquareRoot(root) && |left| == |right| >= 2 && p != 0.0
    ensures Pearson(left, right, root).Ok?
    ensures var r := Pearson(left, right, root).value;
            Pearson(left, Scaled(p, q, right), root) == Ok(if p > 0.0 then r else -r)
  {
    var x, y, z := Centered(left), Centered(right), Centered(Scaled(p, q, right));
    ScaledDots(left, right, p, q);
    DotNonNegative(x);
    DotNonNegative(y);
    hide Dot;
    hide Centered;
    hide Times;
    hide Abs;
    var xx, xy, yy := Dot(x, x), Dot(x, y), Dot(y, y);
    SignedRoot(xx, yy, Dot(z, z), p, root);
    var d := root(Times(xx, yy));
    if d != 0.0 {
      ScaledQuotient(p, xy, Dot(x, z), d, root(Times(xx, Dot(z, z))));
    } else {
      TimesZero(Abs(p));
    }
  }

  lemma TimesZero(a: real)
    ensures Times(a, 0.0) == 0.0
  {
  }

  // Values that are not all the same correlate with themselves by exactly one.
  lemma CorrelationWithItself(x: seq<real>, root: real -> real, i: nat, j: nat)
    requires IsSquareRoot(root) && i < |x| && j < |x| && x[i] != x[j]
    ensures |x| >= 2 && Pearson(x, x, root) == Ok(1.0)
  {
    var c := Centered(x);
    assert c[i] != c[j];
    DotNonNegative(c);
    if Dot(c, c) == 0.0 { ZeroLength(c); }
    hide Dot;
    hide Centered;
    hide Times;
    RootOf(root, Dot(c, c));
    WholeQuotient(Dot(c, c));
  }

  lemma WholeQuotient(d: real)
    requires d != 0.0
    ensures d / d == 1.0
  {
  }

  // ---- ranks ----

  ghost predicate Reversed(a: seq<real>, b: seq<real>) {
    |a| == |b| && forall i, j :: 0 <= i < |a| && 0 <= j < |a| ==> (a[i] < a[j] <==> b[j] < b[i])
  }

  lemma SplitByValue(values: seq<real>, v: real)
    ensures var above := set i | 0 <= i < |values| && v < values[i];
            |Below(values, v)| + |Tied(values, v)| + |above| == |values|
  {
    var above := set i | 0 <= i < |values| && v < values[i];
    var below, tied := Below(values, v), Tied(values, v);
    assert Indices(|values|) == below + tied + above;
    assert below !! tied && (below + tied) !! above;
  }

  // Reversing the order turns place k into place n + 1 - k.
  lemma ReversedRank(a: seq<real>, b: seq<real>, i: nat)
    requires Reversed(a, b) && i < |a|
    ensures Rank(b, b[i]) == (|a| + 1) as real - Rank(a, a[i])
  {
    SplitByValue(a, a[i]);
    var above := set k | 0 <= k < |a| && a[i] < a[k];
    assert Below(b, b[i]) == above;
    assert Tied(b, b[i]) == Tied(a, a[i]);
  }

  lemma TiedRanks(values: seq<real>, i: nat, j: nat)
    requires i < |values| && j < |values| && values[i] < values[j]
    ensures Ranks(values)[i] < Ranks(values)[j]
  {
    var u, v := values[i], values[j];
    assert Below(values, u) + Tied(values, u) <= Below(values, v);
    assert Below(values, u) !! Tied(values, u);
    FewerMembers(Below(values, u) + Tied(values, u), Below(values, v));
    assert i in Tied(values, u) && j in Tied(values, v);
    assert |Tied(values, u)| >= 1 && |Tied(values, v)| >= 1;
  }

  lemma FewerMembers(few: set<int>, many: set<int>)
    requires few <= many
    ensures |few| <= |many|
  {
    assert many == few + (many - few);
  }

  // Scores that rank the outcomes as they fall correlate with them by exactly one, and
  // scores that rank them backwards by exactly minus one, unless all are tied.
  lemma AgreementIsOne(a: seq<real>, b: seq<real>, root: real -> real, i: nat, j: nat)
    requires IsSquareRoot(root) && i < |a| && j < |a| && a[i] < a[j]
    ensures SameOrder(a, b) ==> RankPearson(a, b, root) == Ok(1.0)
    ensures Reversed(a, b) ==> RankPearson(a, b, root) == Ok(-1.0)
  {
    hide Pearson;
    TiedRanks(a, i, j);
    CorrelationWithItself(Ranks(a), root, i, j);
    if SameOrder(a, b) { RanksDependOnOrder(a, b); }
    if Reversed(a, b) {
      var n := (|a| + 1) as real;
      forall k | 0 <= k < |a|
        ensures Ranks(b)[k] == Times(-1.0, Ranks(a)[k]) + n
      {
        ReversedRank(a, b, k);
      }
      assert Ranks(b) == Scaled(-1.0, n, Ranks(a));
      CorrelationOfScaled(Ranks(a), Ranks(a), -1.0, n, root);
    }
  }
}
