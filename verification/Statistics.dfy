// Means and sample covariance over the reals, with the two facts the engine's
// statistics rest on: covariance is bilinear, and Cauchy-Schwarz.
module Statistics {
  import opened Arithmetic
  import opened Totals

  function Mean(x: seq<real>): real
    requires x != []
  {
    Sum(x) / |x| as real
  }

  function Centered(x: seq<real>): (c: seq<real>)
    requires x != []
    ensures |c| == |x|
  {
    seq(|x|, i requires 0 <= i < |x| => x[i] - Mean(x))
  }

  function Products(x: seq<real>, y: seq<real>): seq<real>
    requires |x| == |y|
  {
    seq(|x|, i requires 0 <= i < |x| => Times(x[i], y[i]))
  }

  function Dot(x: seq<real>, y: seq<real>): real
    requires |x| == |y|
  {
    Sum(Products(x, y))
  }

  // Sample covariance.
  function Covariance(x: seq<real>, y: seq<real>): real
    requires |x| == |y| >= 2
  {
    Dot(Centered(x), Centered(y)) / (|x| - 1) as real
  }

  // a * x + y, termwise.
  ghost function Blend(a: real, x: seq<real>, y: seq<real>): seq<real>
    requires |x| == |y|
  {
    seq(|x|, i requires 0 <= i < |x| => Times(a, x[i]) + y[i])
  }

  lemma BlendSum(a: real, x: seq<real>, y: seq<real>)
    requires |x| == |y|
    ensures Sum(Blend(a, x, y)) == a * Sum(x) + Sum(y)
  {
    SumBlended(Blend(a, x, y), x, y, a);
  }

  lemma {:induction false} SumBlended(s: seq<real>, x: seq<real>, y: seq<real>, a: real)
    requires |s| == |x| == |y|
    requires forall i :: 0 <= i < |s| ==> s[i] == Times(a, x[i]) + y[i]
    ensures Sum(s) == a * Sum(x) + Sum(y)
  {
    if s != [] {
      var n := |s| - 1;
      SumBlended(s[..n], x[..n], y[..n], a);
      Distribute(a, Sum(x[..n]), x[n]);
    }
  }

  lemma Distribute(a: real, s: real, x: real)
    ensures a * (s + x) == a * s + Times(a, x)
  {
  }

  lemma CenteredBlend(a: real, x: seq<real>, y: seq<real>)
    requires |x| == |y| > 0
    ensures Centered(Blend(a, x, y)) == Blend(a, Centered(x), Centered(y))
  {
    hide Times;
    hide Sum;
    BlendSum(a, x, y);
    MeanBlend(a, Sum(x), Sum(y), |x| as real);
    assert Mean(Blend(a, x, y)) == Times(a, Mean(x)) + Mean(y);
    var left, right := Centered(Blend(a, x, y)), Blend(a, Centered(x), Centered(y));
    forall i | 0 <= i < |x|
      ensures left[i] == right[i]
    {
      ShiftBlend(a, x[i], y[i], Mean(x), Mean(y));
    }
    assert left == right;
  }

  lemma MeanBlend(a: real, s: real, t: real, n: real)
    requires n > 0.0
    ensures (a * s + t) / n == Times(a, s / n) + t / n
  {
  }

  lemma ShiftBlend(a: real, x: real, y: real, mx: real, my: real)
    ensures Times(a, x) + y - (Times(a, mx) + my) == Times(a, x - mx) + (y - my)
  {
  }

  lemma TimesBlend(c: real, a: real, x: real, y: real)
    ensures Times(c, Times(a, x) + y) == Times(a, Times(c, x)) + Times(c, y)
  {
  }

  lemma DotBlend(c: seq<real>, a: real, x: seq<real>, y: seq<real>)
    requires |c| == |x| == |y|
    ensures Dot(c, Blend(a, x, y)) == a * Dot(c, x) + Dot(c, y)
  {
    hide Times;
    hide Sum;
    var s := Products(c, Blend(a, x, y));
    forall i | 0 <= i < |s|
      ensures s[i] == Times(a, Products(c, x)[i]) + Products(c, y)[i]
    {
      TimesBlend(c[i], a, x[i], y[i]);
    }
    SumBlended(s, Products(c, x), Products(c, y), a);
  }

  lemma DotSymmetric(x: seq<real>, y: seq<real>)
    requires |x| == |y|
    ensures Dot(x, y) == Dot(y, x)
  {
    assert forall i :: 0 <= i < |x| ==> Times(x[i], y[i]) == Times(y[i], x[i]);
    assert Products(x, y) == Products(y, x);
  }

  lemma CovarianceSymmetric(x: seq<real>, y: seq<real>)
    requires |x| == |y| >= 2
    ensures Covariance(x, y) == Covariance(y, x)
  {
    DotSymmetric(Centered(x), Centered(y));
  }

  lemma CovarianceBlend(c: seq<real>, a: real, x: seq<real>, y: seq<real>)
    requires |c| == |x| == |y| >= 2
    ensures Covariance(c, Blend(a, x, y)) == Times(a, Covariance(c, x)) + Covariance(c, y)
  {
    hide Dot;
    hide Centered;
    hide Times;
    CenteredBlend(a, x, y);
    DotBlend(Centered(c), a, Centered(x), Centered(y));
    var n, cx, cy := (|c| - 1) as real, Dot(Centered(c), Centered(x)), Dot(Centered(c), Centered(y));
    assert Dot(Centered(c), Centered(Blend(a, x, y))) == a * cx + cy;
    MeanBlend(a, cx, cy, n);
    assert Covariance(c, Blend(a, x, y)) == (a * cx + cy) / n;
  }

  lemma Square(x: real)
    ensures Times(x, x) >= 0.0
  {
  }

  lemma DotNonNegative(x: seq<real>)
    ensures Dot(x, x) >= 0.0
  {
    forall i | 0 <= i < |x|
      ensures Products(x, x)[i] >= 0.0
    {
      Square(x[i]);
    }
    SumNonNegative(Products(x, x));
  }

  lemma {:induction false} DotZero(x: seq<real>, y: seq<real>)
    requires |x| == |y|
    requires forall i :: 0 <= i < |y| ==> y[i] == 0.0
    ensures Dot(x, y) == 0.0
  {
    assert forall i :: 0 <= i < |x| ==> Times(x[i], y[i]) == 0.0;
    SumUniform(Products(x, y), 0.0);
  }

  // (x . y)^2 <= (x . x)(y . y)
  lemma CauchySchwarz(x: seq<real>, y: seq<real>)
    requires |x| == |y|
    ensures Times(Dot(x, y), Dot(x, y)) <= Times(Dot(x, x), Dot(y, y))
  {
    hide Products;
    hide Sum;
    hide Dot;
    hide Times;
    var xx, xy, yy := Dot(x, x), Dot(x, y), Dot(y, y);
    DotNonNegative(x);
    DotNonNegative(y);
    if yy == 0.0 {
      Orthogonal(x, y);
      ZeroTimes(xy, xx, yy);
    } else {
      // the residual of x after projecting on y has a non-negative square
      var r := Blend(-xy / yy, y, x);
      DotNonNegative(r);
      DotBlend(r, -xy / yy, y, x);
      DotSymmetric(r, y);
      DotSymmetric(r, x);
      DotBlend(y, -xy / yy, y, x);
      DotBlend(x, -xy / yy, y, x);
      DotSymmetric(x, y);
      Projection(xx, xy, yy, Dot(r, r), Dot(y, r), Dot(x, r));
    }
  }

  lemma ZeroTimes(xy: real, xx: real, yy: real)
    requires xy == 0.0 && yy == 0.0
    ensures Times(xy, xy) <= Times(xx, yy)
  {
  }

  lemma Projection(xx: real, xy: real, yy: real, rr: real, yr: real, xr: real)
    requires yy > 0.0 && rr >= 0.0
    requires rr == (-xy / yy) * yr + xr
    requires yr == (-xy / yy) * yy + xy
    requires xr == (-xy / yy) * xy + xx
    ensures Times(xy, xy) <= Times(xx, yy)
  {
  }

  lemma ZeroLength(y: seq<real>)
    requires Dot(y, y) == 0.0
    ensures forall i :: 0 <= i < |y| ==> y[i] == 0.0
  {
    forall i | 0 <= i < |y|
      ensures y[i] == 0.0
    {
      forall k | 0 <= k < |y|
        ensures Products(y, y)[k] >= 0.0
      {
        Square(y[k]);
      }
      TermAtMostSum(Products(y, y), i);
      SquarePositive(y[i]);
    }
  }

  // A vector of zero length is orthogonal to everything.
  lemma {:induction false} Orthogonal(x: seq<real>, y: seq<real>)
    requires |x| == |y| && Dot(y, y) == 0.0
    ensures Dot(x, y) == 0.0
  {
    ZeroLength(y);
    DotZero(x, y);
  }

  lemma PositiveTimes(u: real, w: real)
    requires u > 0.0 && w > 0.0
    ensures Times(u, w) > 0.0
  {
  }

  lemma SquarePositive(v: real)
    ensures v != 0.0 ==> Times(v, v) > 0.0
  {
    assert Times(v, v) == Times(-v, -v);
    hide Times;
    if v > 0.0 {
      PositiveTimes(v, v);
    } else if v < 0.0 {
      PositiveTimes(-v, -v);
    }
  }

  lemma {:induction false} TermAtMostSum(s: seq<real>, i: nat)
    requires i < |s| && forall k :: 0 <= k < |s| ==> s[k] >= 0.0
    ensures s[i] <= Sum(s)
  {
    var n := |s| - 1;
    SumNonNegative(s[..n]);
    if i < n { TermAtMostSum(s[..n], i); }
  }
}
