// Two simulations that differ only in their cost model. Everything but the net
// returns is identical, no net return improves when costs rise, and the
// compounded return does not improve either as long as no period loses more
// than the whole portfolio.
module CostSensitivity {
  import opened Wrappers
  import opened Totals
  import opened Market
  import opened Portfolio
  import PortfolioSimplex

  // Each net return is the gross return less the cost of that period's turnover.
  ghost predicate Charged(ledger: Ledger, costs: Costs) {
    && |ledger.net| == |ledger.gross| == |ledger.turnovers| == |ledger.benchmark|
    && (forall k :: 0 <= k < |ledger.net| ==>
          ledger.net[k] == NetReturn(ledger.gross[k], ledger.turnovers[k], Rate(costs)))
    && (forall k :: 0 <= k < |ledger.turnovers| ==> ledger.turnovers[k] >= 0.0)
  }

  // The parts of a ledger that costs do not enter.
  ghost predicate SameTrading(a: Ledger, b: Ledger) {
    && a.benchmark == b.benchmark && a.turnovers == b.turnovers && a.gross == b.gross && a.trades == b.trades
    && a.weights == b.weights && a.final == b.final && a.history == b.history
  }

  ghost predicate SameOutcome(a: Result<Ledger, Failure>, b: Result<Ledger, Failure>) {
    match (a, b)
    case (Ok(x), Ok(y)) => SameTrading(x, y)
    case (Err(x), Err(y)) => x == y
    case _ => false
  }

  lemma SettleTwice(su: Setup, p: Costs, q: Costs, i: nat, a: Ledger, b: Ledger, history: History, target: Weights)
    requires ValidSetup(su) && i + 1 < |su.dates|
    requires Tradable(target, SessionAt(su.book, su.dates[i + 1]))
    requires SameTrading(a, b) && Charged(a, p)
    ensures SameOutcome(Settle(su, p, i, a, history, target), Settle(su, q, i, b, history, target))
    ensures Settle(su, p, i, a, history, target).Ok? ==> Charged(Settle(su, p, i, a, history, target).value, p)
  {
    hide Turnover;
    hide Gross;
    hide Drifted;
    hide BenchmarkLevel;
    hide NetReturn;
    hide Trades;
    hide AssetReturns;
    hide Rate;
    hide ValidSetup;
    hide SessionAt;
    PortfolioSimplex.TurnoverBounds(target, a.weights);
  }

  lemma StepTwice(su: Setup, p: Costs, q: Costs, i: nat, a: Ledger, b: Ledger)
    requires ValidSetup(su) && i + 1 < |su.dates|
    requires SameTrading(a, b) && Charged(a, p)
    ensures SameOutcome(Step(su, p, i, a), Step(su, q, i, b))
    ensures Step(su, p, i, a).Ok? ==> Charged(Step(su, p, i, a).value, p)
  {
    hide Ranking;
    hide Target;
    hide Settle;
    hide NetReturn;
    hide Rate;
    var history := Observe(a.history, SessionAt(su.book, su.dates[i]));
    if Ranking(su, i) != [] && Target(su, i, a.weights, history).Ok? {
      TargetTradable(su, i, a.weights, history);
      SettleTwice(su, p, q, i, a, b, history, Target(su, i, a.weights, history).value);
    }
  }

  lemma {:induction false} RunTwice(su: Setup, p: Costs, q: Costs, n: nat)
    requires ValidSetup(su) && (n == 0 || n < |su.dates|)
    ensures SameOutcome(Run(su, p, n), Run(su, q, n))
    ensures Run(su, p, n).Ok? ==> Charged(Run(su, p, n).value, p)
  {
    hide Step;
    hide NetReturn;
    hide Rate;
    if n > 0 {
      RunTwice(su, p, q, n - 1);
      if Run(su, p, n - 1).Ok? {
        StepTwice(su, p, q, n - 1, Run(su, p, n - 1).value, Run(su, q, n - 1).value);
      }
    }
  }

  lemma SimulateTwice(rows: seq<Row>, count: nat, p: Costs, q: Costs, strategy: Strategy, library: Library)
    ensures SameOutcome(Simulate(rows, count, p, strategy, library), Simulate(rows, count, q, strategy, library))
    ensures Simulate(rows, count, p, strategy, library).Ok? ==>
              Charged(Simulate(rows, count, p, strategy, library).value, p)
  {
    hide Run;
    hide NetReturn;
    hide Rate;
    hide BookOf;
    hide Dates;
    if count > 0 {
      BookOfValid(rows);
      var su := SetupOf(rows, count, strategy, library);
      RunTwice(su, p, q, Periods(su));
      RunTwice(su, q, p, Periods(su));
    }
  }

  // ---- compounding ----

  ghost predicate Solvent(path: seq<real>) {
    forall k :: 0 <= k < |path| ==> 1.0 + path[k] >= 0.0
  }

  ghost predicate Dominated(low: seq<real>, high: seq<real>) {
    |low| == |high| && forall k :: 0 <= k < |low| ==> low[k] <= high[k]
  }

  // In each period the two factors together are not negative: what the dearer one loses
  // beyond everything, the cheaper one still has.
  ghost predicate Balanced(low: seq<real>, high: seq<real>) {
    |low| == |high| && forall k :: 0 <= k < |low| ==> 1.0 + low[k] + (1.0 + high[k]) >= 0.0
  }

  lemma SolventIsBalanced(low: seq<real>, high: seq<real>)
    requires Dominated(low, high) && Solvent(low)
    ensures Balanced(low, high)
  {
  }

  predicate Within(a: real, bound: real) {
    -bound <= a <= bound
  }

  lemma ProductWithin(a: real, x: real, b: real, y: real)
    requires Within(a, x) && Within(b, y)
    ensures Within(a * b, x * y)
  {
    NonNegativeProduct(x - a, y + b);
    NonNegativeProduct(x + a, y - b);
    NonNegativeProduct(x - a, y - b);
    NonNegativeProduct(x + a, y + b);
  }

  lemma NonNegativeProduct(x: real, y: real)
    requires x >= 0.0 && y >= 0.0
    ensures x * y >= 0.0
  {
  }

  lemma {:induction false} GrowthWithin(low: seq<real>, high: seq<real>)
    requires Dominated(low, high) && Balanced(low, high)
    ensures Within(Growth(low), Growth(high))
  {
    if low != [] {
      var n := |low| - 1;
      GrowthWithin(low[..n], high[..n]);
      ProductWithin(Growth(low[..n]), Growth(high[..n]), 1.0 + low[n], 1.0 + high[n]);
    }
  }

  lemma NetReturnFalls(gross: real, turnover: real, cheap: real, dear: real)
    requires turnover >= 0.0 && cheap <= dear
    ensures NetReturn(gross, turnover, dear) <= NetReturn(gross, turnover, cheap)
  {
  }

  // Higher costs leave the trading unchanged and never raise a period's return; they
  // never raise the total return while the two paths are balanced.
  lemma HigherCostsNeverHelp(rows: seq<Row>, count: nat, cheap: Costs, dear: Costs, strategy: Strategy,
                             library: Library)
    requires Rate(cheap) <= Rate(dear)
    ensures var low := Simulate(rows, count, dear, strategy, library);
            var high := Simulate(rows, count, cheap, strategy, library);
            && SameOutcome(low, high)
            && (low.Ok? ==>
                  && Dominated(low.value.net, high.value.net)
                  && (Balanced(low.value.net, high.value.net) ==> Growth(low.value.net) <= Growth(high.value.net)))
  {
    hide Simulate;
    hide NetReturn;
    hide Rate;
    var low := Simulate(rows, count, dear, strategy, library);
    var high := Simulate(rows, count, cheap, strategy, library);
    SimulateTwice(rows, count, dear, cheap, strategy, library);
    SimulateTwice(rows, count, cheap, dear, strategy, library);
    if low.Ok? {
      forall k | 0 <= k < |low.value.net|
        ensures low.value.net[k] <= high.value.net[k]
      {
        NetReturnFalls(low.value.gross[k], low.value.turnovers[k], Rate(cheap), Rate(dear));
      }
      if Balanced(low.value.net, high.value.net) {
        GrowthWithin(low.value.net, high.value.net);
      }
    }
  }

  // ---- conservation ----

  function Commission(turnovers: seq<real>, costs: Costs): real {
    Sum(turnovers) * costs.commissionBps / 10000.0
  }

  function Slippage(turnovers: seq<real>, costs: Costs): real {
    Sum(turnovers) * costs.slippageBps / 10000.0
  }

  lemma {:induction false} ChargedSum(net: seq<real>, gross: seq<real>, turnovers: seq<real>, rate: real)
    requires |net| == |gross| == |turnovers|
    requires forall k :: 0 <= k < |net| ==> net[k] == NetReturn(gross[k], turnovers[k], rate)
    ensures Sum(gross) - Sum(net) == Sum(turnovers) * rate
  {
    if net != [] {
      var n := |net| - 1;
      ChargedSum(net[..n], gross[..n], turnovers[..n], rate);
    }
  }

  // What the portfolio loses between gross and net is what is reported as
  // commission and slippage.
  lemma CostsAreConserved(rows: seq<Row>, count: nat, costs: Costs, strategy: Strategy, library: Library)
    ensures Simulate(rows, count, costs, strategy, library).Ok? ==>
              var ledger := Simulate(rows, count, costs, strategy, library).value;
              Sum(ledger.gross) - Sum(ledger.net) ==
                Commission(ledger.turnovers, costs) + Slippage(ledger.turnovers, costs)
  {
    hide Simulate;
    hide NetReturn;
    hide Rate;
    SimulateTwice(rows, count, costs, costs, strategy, library);
    if Simulate(rows, count, costs, strategy, library).Ok? {
      var ledger := Simulate(rows, count, costs, strategy, library).value;
      ChargedSum(ledger.net, ledger.gross, ledger.turnovers, Rate(costs));
      SplitRate(Sum(ledger.turnovers), costs);
    }
  }

  lemma SplitRate(total: real, costs: Costs)
    ensures total * Rate(costs) == total * costs.commissionBps / 10000.0 + total * costs.slippageBps / 10000.0
  {
  }
}
