// Each holding's share of portfolio variance. The shares are an Euler
// decomposition: the variance the engine computes from the covariance matrix is
// the sample variance of the weighted return series, and the shares sum to one.
module RiskContribution {
  import opened Arithmetic
  import opened Wrappers
  import opened Totals
  import opened Statistics
  import opened Market

  datatype RiskFailure = NoHoldings

  // Closes of one symbol by date; a later row replaces an earlier one.
  function Prices(rows: seq<Row>, symbol: int): map<int, Price> {
    if rows == [] then map[]
    else
      var before := Prices(rows[..|rows| - 1], symbol);
      var row := rows[|rows| - 1];
      if row.symbol == symbol then before[row.date := row.close] else before
  }

  function Change(before: Price, after: Price): real {
    after / before - 1.0
  }

  // The return of every date but the first, over the date before it.
  function ReturnMap(prices: map<int, Price>, dates: seq<int>): map<int, real>
    requires forall i :: 0 <= i < |dates| ==> dates[i] in prices
  {
    if |dates| < 2 then map[]
    else
      var n := |dates| - 1;
      ReturnMap(prices, dates[..n])[dates[n] := Change(prices[dates[n - 1]], prices[dates[n]])]
  }

  function Returns(rows: seq<Row>, symbol: int): map<int, real> {
    var prices := Prices(rows, symbol);
    var dates := Sorted(prices.Keys);
    assert forall i :: 0 <= i < |dates| ==> dates[i] in dates;
    ReturnMap(prices, dates)
  }

  // Dates on which every holding has a return.
  function CommonDates(rows: seq<Row>, weights: Weights): set<int>
    requires weights.Keys != {}
  {
    set d | d in Returns(rows, Least(weights.Keys)) && forall s :: s in weights ==> d in Returns(rows, s)
  }

  ghost predicate Covers(rows: seq<Row>, weights: Weights, days: seq<int>) {
    forall i, s :: 0 <= i < |days| && s in weights ==> days[i] in Returns(rows, s)
  }

  lemma CommonCovered(rows: seq<Row>, weights: Weights, days: seq<int>)
    requires weights.Keys != {} && forall d :: d in days ==> d in CommonDates(rows, weights)
    ensures Covers(rows, weights, days)
  {
    hide Returns;
    forall i, s | 0 <= i < |days| && s in weights
      ensures days[i] in Returns(rows, s)
    {
      var d := days[i];
      assert d in days;
    }
  }

  function Days(rows: seq<Row>, weights: Weights): (days: seq<int>)
    requires weights.Keys != {}
    ensures Covers(rows, weights, days)
  {
    var days := Sorted(CommonDates(rows, weights));
    CommonCovered(rows, weights, days);
    days
  }

  type Series = map<int, seq<real>>

  function SeriesOn(rows: seq<Row>, weights: Weights, days: seq<int>): Series
    requires Covers(rows, weights, days)
  {
    map s | s in weights :: seq(|days|, i requires 0 <= i < |days| => Returns(rows, s)[days[i]])
  }

  ghost predicate Aligned(series: Series, weights: Weights, n: nat) {
    weights.Keys <= series.Keys && forall s :: s in weights ==> |series[s]| == n
  }

  function Marginal(series: Series, weights: Weights, n: nat, left: int): real
    requires Aligned(series, weights, n) && n >= 2 && left in series && |series[left]| == n
  {
    Total(map right | right in weights :: Times(weights[right], Covariance(series[left], series[right])))
  }

  function Variance(series: Series, weights: Weights, n: nat): real
    requires Aligned(series, weights, n) && n >= 2
  {
    Total(map s | s in weights :: Times(weights[s], Marginal(series, weights, n, s)))
  }

  function Shares(series: Series, weights: Weights, n: nat): Weights
    requires Aligned(series, weights, n) && n >= 2
  {
    var variance := Variance(series, weights, n);
    if variance <= 0.0 then map s | s in weights :: 0.0
    else map s | s in weights :: Times(weights[s], Marginal(series, weights, n, s)) / variance
  }

  // Intersecting the date sets of no holdings at all is an error in the engine.
  function Contribution(rows: seq<Row>, weights: Weights): Result<Weights, RiskFailure> {
    if weights.Keys == {} then Err(NoHoldings)
    else
      var days := Days(rows, weights);
      if |days| < 2 then Ok(map s | s in weights :: 0.0)
      else Ok(Shares(SeriesOn(rows, weights, days), weights, |days|))
  }

  // ---- the weighted return series ----

  // Day by day, the weighted sum of the holdings' returns.
  ghost function Weighted(series: Series, weights: Weights, n: nat): (p: seq<real>)
    requires Aligned(series, weights, n)
    ensures |p| == n
    decreases |weights.Keys|
  {
    if weights.Keys == {} then seq(n, i => 0.0)
    else
      var k := Least(weights.Keys);
      var rest := weights - {k};
      assert rest.Keys == weights.Keys - {k};
      Blend(weights[k], series[k], Weighted(series, rest, n))
  }

  ghost function Day(series: Series, weights: Weights, n: nat, i: nat): Weights
    requires Aligned(series, weights, n) && i < n
  {
    map s | s in weights :: Times(weights[s], series[s][i])
  }

  lemma {:induction false} WeightedDay(series: Series, weights: Weights, n: nat, i: nat)
    requires Aligned(series, weights, n) && i < n
    ensures Weighted(series, weights, n)[i] == Total(Day(series, weights, n, i))
    decreases |weights.Keys|
  {
    hide Times;
    var day := Day(series, weights, n, i);
    assert day.Keys == weights.Keys;
    if weights.Keys != {} {
      var k := Least(weights.Keys);
      var rest := weights - {k};
      assert rest.Keys == weights.Keys - {k};
      WeightedDay(series, rest, n, i);
      assert day - {k} == Day(series, rest, n, i);
    }
  }

  ghost function CovarianceRow(series: Series, weights: Weights, n: nat, c: seq<real>): Weights
    requires Aligned(series, weights, n) && n >= 2 && |c| == n
  {
    map s | s in weights :: Times(weights[s], Covariance(c, series[s]))
  }

  // Covariance with the weighted series is the weighted sum of covariances.
  lemma {:induction false} CovarianceOfWeighted(series: Series, weights: Weights, n: nat, c: seq<real>)
    requires Aligned(series, weights, n) && n >= 2 && |c| == n
    ensures Covariance(c, Weighted(series, weights, n)) == Total(CovarianceRow(series, weights, n, c))
    decreases |weights.Keys|
  {
    hide Times;
    hide Covariance;
    var r := CovarianceRow(series, weights, n, c);
    assert r.Keys == weights.Keys;
    if weights.Keys == {} {
      FlatCovariance(c, Weighted(series, weights, n));
    } else {
      var k := Least(weights.Keys);
      var rest := weights - {k};
      assert rest.Keys == weights.Keys - {k};
      CovarianceOfWeighted(series, rest, n, c);
      CovarianceBlend(c, weights[k], series[k], Weighted(series, rest, n));
      assert r - {k} == CovarianceRow(series, rest, n, c);
    }
  }

  lemma FlatCovariance(c: seq<real>, y: seq<real>)
    requires |c| == |y| >= 2
    requires forall i :: 0 <= i < |y| ==> y[i] == 0.0
    ensures Covariance(c, y) == 0.0
  {
    SumUniform(y, 0.0);
    assert Sum(y) == 0.0 && Mean(y) == 0.0;
    DotZero(Centered(c), Centered(y));
  }

  lemma MarginalIsCovariance(series: Series, weights: Weights, n: nat, left: int)
    requires Aligned(series, weights, n) && n >= 2 && left in weights
    ensures Marginal(series, weights, n, left) == Covariance(Weighted(series, weights, n), series[left])
  {
    hide Times;
    hide Covariance;
    hide Weighted;
    hide Total;
    CovarianceOfWeighted(series, weights, n, series[left]);
    assert CovarianceRow(series, weights, n, series[left]) ==
           map right | right in weights :: Times(weights[right], Covariance(series[left], series[right]));
    CovarianceSymmetric(series[left], Weighted(series, weights, n));
  }

  // The matrix form of the variance is the sample variance of the weighted series.
  lemma VarianceIsSampleVariance(series: Series, weights: Weights, n: nat)
    requires Aligned(series, weights, n) && n >= 2
    ensures var p := Weighted(series, weights, n); Variance(series, weights, n) == Covariance(p, p)
    ensures Variance(series, weights, n) >= 0.0
  {
    hide Times;
    hide Covariance;
    hide Marginal;
    hide Weighted;
    hide Total;
    var p := Weighted(series, weights, n);
    CovarianceOfWeighted(series, weights, n, p);
    forall s | s in weights
      ensures Marginal(series, weights, n, s) == Covariance(p, series[s])
    {
      MarginalIsCovariance(series, weights, n, s);
    }
    assert CovarianceRow(series, weights, n, p) ==
           map s | s in weights :: Times(weights[s], Marginal(series, weights, n, s));
    SampleVarianceNonNegative(p);
  }

  lemma SampleVarianceNonNegative(p: seq<real>)
    requires |p| >= 2
    ensures Covariance(p, p) >= 0.0
  {
    DotNonNegative(Centered(p));
  }

  lemma Part(x: real, variance: real)
    requires variance > 0.0
    ensures Combines(x / variance, x, x, 1.0 / variance, 0.0)
  {
  }

  lemma PartTimes(x: real, variance: real)
    requires variance > 0.0
    ensures Times(x / variance, variance) == x
  {
  }

  lemma WholePart(t: real, variance: real)
    requires variance > 0.0 && Combines(t, variance, variance, 1.0 / variance, 0.0)
    ensures t == 1.0
  {
  }

  lemma SharesAreEuler(series: Series, weights: Weights, n: nat)
    requires Aligned(series, weights, n) && n >= 2
    ensures Shares(series, weights, n).Keys == weights.Keys
    ensures Variance(series, weights, n) > 0.0 ==> Total(Shares(series, weights, n)) == 1.0
    ensures Variance(series, weights, n) == 0.0 ==> forall s :: s in weights ==> Shares(series, weights, n)[s] == 0.0
    ensures Variance(series, weights, n) > 0.0 ==>
              forall s :: s in weights ==>
                Times(Shares(series, weights, n)[s], Variance(series, weights, n)) ==
                Times(weights[s], Marginal(series, weights, n, s))
  {
    hide Times;
    hide Marginal;
    hide Total;
    hide Combines;
    var variance := Variance(series, weights, n);
    if variance > 0.0 {
      var parts: Weights := map s | s in weights :: Times(weights[s], Marginal(series, weights, n, s));
      var shares := Shares(series, weights, n);
      forall s | s in shares
        ensures Combines(shares[s], parts[s], parts[s], 1.0 / variance, 0.0)
      {
        Part(parts[s], variance);
      }
      forall s | s in weights
        ensures Times(shares[s], variance) == parts[s]
      {
        PartTimes(parts[s], variance);
      }
      TotalLinear(shares, parts, parts, 1.0 / variance, 0.0);
      WholePart(Total(shares), variance);
    }
  }

  lemma SeriesAligned(rows: seq<Row>, weights: Weights, days: seq<int>)
    requires Covers(rows, weights, days)
    ensures Aligned(SeriesOn(rows, weights, days), weights, |days|)
  {
  }

  // For any rows and any holdings: when the weighted return series varies, a contribution
  // is the holding's weight times its covariance with that series, over the variance of
  // the series, and the contributions sum to one; otherwise they are all zero.
  lemma ContributionsAreEuler(rows: seq<Row>, weights: Weights)
    requires weights.Keys != {}
    ensures var days := Days(rows, weights);
            && Contribution(rows, weights).Ok?
            && Contribution(rows, weights).value.Keys == weights.Keys
            && Aligned(SeriesOn(rows, weights, days), weights, |days|)
            && (if |days| < 2 then forall s :: s in weights ==> Contribution(rows, weights).value[s] == 0.0
                else
                  var series := SeriesOn(rows, weights, days);
                  var p := Weighted(series, weights, |days|);
                  && Covariance(p, p) >= 0.0
                  && (Covariance(p, p) > 0.0 ==> Total(Contribution(rows, weights).value) == 1.0)
                  && (Covariance(p, p) > 0.0 ==>
                        forall s :: s in weights ==>
                          Times(Contribution(rows, weights).value[s], Covariance(p, p)) ==
                          Times(weights[s], Covariance(p, series[s])))
                  && (Covariance(p, p) == 0.0 ==>
                        forall s :: s in weights ==> Contribution(rows, weights).value[s] == 0.0))
  {
    hide Days;
    hide Covers;
    hide SeriesOn;
    hide Shares;
    hide Covariance;
    hide Weighted;
    hide Total;
    hide Variance;
    var days := Days(rows, weights);
    SeriesAligned(rows, weights, days);
    if |days| >= 2 {
      var series := SeriesOn(rows, weights, days);
      VarianceIsSampleVariance(series, weights, |days|);
      SharesAreEuler(series, weights, |days|);
      forall s | s in weights
        ensures Marginal(series, weights, |days|, s) == Covariance(Weighted(series, weights, |days|), series[s])
      {
        MarginalIsCovariance(series, weights, |days|, s);
      }
    }
  }

  // ---- returns ----

  ghost predicate Shows(row: Row, symbol: int, date: int) {
    row.symbol == symbol && row.date == date
  }

  // The price of a date is the close of the symbol's last row of that date.
  lemma {:induction false} PricesExactly(rows: seq<Row>, symbol: int, date: int)
    ensures if forall i :: 0 <= i < |rows| ==> !Shows(rows[i], symbol, date) then date !in Prices(rows, symbol)
            else exists i :: 0 <= i < |rows| && LastPrice(rows, symbol, date, i)
  {
    if rows != [] {
      var n := |rows| - 1;
      PricesExactly(rows[..n], symbol, date);
      if Shows(rows[n], symbol, date) {
        assert LastPrice(rows, symbol, date, n);
      } else if i :| 0 <= i < n && LastPrice(rows[..n], symbol, date, i) {
        assert LastPrice(rows, symbol, date, i);
      }
    }
  }

  ghost predicate LastPrice(rows: seq<Row>, symbol: int, date: int, i: nat)
    requires i < |rows|
  {
    && Shows(rows[i], symbol, date) && (forall j :: i < j < |rows| ==> !Shows(rows[j], symbol, date))
    && date in Prices(rows, symbol) && Prices(rows, symbol)[date] == rows[i].close
  }

  ghost predicate Grows(prices: map<int, Price>, changes: map<int, real>, from: int, to: int) {
    from in prices && to in prices && to in changes && prices[to] == (1.0 + changes[to]) * prices[from]
  }

  // Every date of a symbol but its first has a return, which grows the price of the date
  // before it into its own.
  lemma ReturnsExactly(rows: seq<Row>, symbol: int)
    ensures var prices := Prices(rows, symbol);
            var dates := Sorted(prices.Keys);
            && (forall d :: d in Returns(rows, symbol) <==> exists k :: 0 < k < |dates| && dates[k] == d)
            && (forall k :: 0 < k < |dates| ==> Grows(prices, Returns(rows, symbol), dates[k - 1], dates[k]))
  {
    hide Prices;
    hide ReturnMap;
    hide Grows;
    var prices := Prices(rows, symbol);
    var dates := Sorted(prices.Keys);
    assert forall i :: 0 <= i < |dates| ==> dates[i] in dates;
    hide Sorted;
    ReturnMapExactly(prices, dates);
  }

  lemma {:induction false} ReturnMapExactly(prices: map<int, Price>, dates: seq<int>)
    requires Increasing(dates) && forall i :: 0 <= i < |dates| ==> dates[i] in prices
    ensures forall d :: d in ReturnMap(prices, dates) <==> exists k :: 0 < k < |dates| && dates[k] == d
    ensures forall k :: 0 < k < |dates| ==> Grows(prices, ReturnMap(prices, dates), dates[k - 1], dates[k])
  {
    hide Change;
    if |dates| >= 2 {
      var n := |dates| - 1;
      var before, after := ReturnMap(prices, dates[..n]), ReturnMap(prices, dates);
      ReturnMapExactly(prices, dates[..n]);
      ChangeGrows(prices[dates[n - 1]], prices[dates[n]]);
      assert after == before[dates[n] := Change(prices[dates[n - 1]], prices[dates[n]])];
      hide ReturnMap;
      forall k | 0 < k < |dates|
        ensures Grows(prices, after, dates[k - 1], dates[k])
      {
        if k < n { assert Grows(prices, before, dates[..n][k - 1], dates[..n][k]); }
      }
      forall d
        ensures d in after <==> exists k :: 0 < k < |dates| && dates[k] == d
      {
        if d in before {
          var k :| 0 < k < n && dates[..n][k] == d;
          assert dates[k] == d;
        }
        if k :| 0 < k < |dates| && dates[k] == d {
          if k < n { assert dates[..n][k] == d; }
        }
      }
    }
  }

  lemma ChangeGrows(before: Price, after: Price)
    ensures after == (1.0 + Change(before, after)) * before
  {
    assert after / before * before == after;
  }
}
