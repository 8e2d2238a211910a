// How the figures of a simulation report hang together.
module Reports {
  import opened Wrappers
  import opened Totals
  import opened Market
  import opened Portfolio
  import opened PortfolioSimplex
  import opened Simulator
  import CostSensitivity
  import Drawdown
  import RiskContribution

  ghost predicate Reconciles(m: Metrics, l: Ledger, costs: Costs) {
    && m.path == l.net && m.observations == |m.path| > 0
    && m.commission + m.slippage == Sum(l.gross) - Sum(m.path)
    && m.commission * costs.slippageBps == m.slippage * costs.commissionBps
    && 1.0 + m.totalReturn == Growth(m.path)
    && 1.0 + m.benchmarkTotalReturn == Growth(l.benchmark)
    && m.maximumDrawdown <= 0.0
    && (m.totalReturn >= -1.0 ==> m.maximumDrawdown <= m.totalReturn)
    && m.turnover >= 0.0
  }

  // Every unit of capital is either exposed or cash, and no session turns over more than
  // all of it.
  ghost predicate Unlevered(m: Metrics) {
    0.0 <= m.exposure <= 1.0 && m.cashWeight == 1.0 - m.exposure && m.turnover <= m.observations as real
  }

  // The costs of a report are what the gross returns lost, split by the two rates; its
  // total return is the compounded path, which no drawdown falls short of; and a long-only
  // strategy is unlevered.
  lemma ReportReconciles(rows: seq<Row>, count: nat, costs: Costs, strategy: Strategy, library: Library)
    requires Measures(Simulate(rows, count, costs, strategy, library), rows, costs).Ok?
    ensures Simulate(rows, count, costs, strategy, library).Ok?
    ensures var m := Measures(Simulate(rows, count, costs, strategy, library), rows, costs).value.metrics;
            && Reconciles(m, Simulate(rows, count, costs, strategy, library).value, costs)
            && (LongOnly(strategy) ==> Unlevered(m))
  {
    CostSensitivity.CostsAreConserved(rows, count, costs, strategy, library);
    CostSensitivity.SimulateTwice(rows, count, costs, costs, strategy, library);
    if LongOnly(strategy) { SimulationOnSimplex(rows, count, costs, strategy, library); }
    TradesOnce(rows, count, costs, strategy, library);
    hide Simulate;
    hide RiskContribution.Contribution;
    hide LongOnly;
    hide Reconciles;
    hide Unlevered;
    hide OnSimplex;
    hide Measured;
    var ledger := Simulate(rows, count, costs, strategy, library).value;
    LedgerReconciles(ledger, costs);
    if LongOnly(strategy) { LedgerUnlevered(ledger, costs); }
  }

  lemma TradesOnce(rows: seq<Row>, count: nat, costs: Costs, strategy: Strategy, library: Library)
    ensures Simulate(rows, count, costs, strategy, library).Ok? ==>
              Simulate(rows, count, costs, strategy, library).value.net != []
  {
    hide Run;
  }

  lemma LedgerReconciles(l: Ledger, costs: Costs)
    requires l.net != [] && CostSensitivity.Charged(l, costs)
    requires Sum(l.gross) - Sum(l.net) ==
             CostSensitivity.Commission(l.turnovers, costs) + CostSensitivity.Slippage(l.turnovers, costs)
    ensures Reconciles(Measured(l, costs), l, costs)
  {
    SumNonNegative(l.turnovers);
    SameRatio(Sum(l.turnovers), costs);
    DrawdownShort(l.net);
    hide Sum;
    hide Growth;
    hide NetReturn;
    hide Total;
    hide Drawdown.Worst;
  }

  lemma LedgerUnlevered(l: Ledger, costs: Costs)
    requires OnSimplex(l) && |l.turnovers| == |l.net|
    ensures Unlevered(Measured(l, costs))
  {
    hide Total;
    LongExposure(l.final);
    TotalNonNegative(l.final);
    SumAtMost(l.turnovers);
  }

  lemma SameRatio(total: real, costs: Costs)
    ensures total * costs.commissionBps / 10000.0 * costs.slippageBps ==
            total * costs.slippageBps / 10000.0 * costs.commissionBps
  {
  }

  lemma LongExposure(w: Weights)
    requires NonNegative(w)
    ensures Exposure(w) == Total(w)
  {
    hide Total;
    var sizes: Weights := map s | s in w :: Abs(w[s]);
    assert sizes.Keys == w.Keys;
    TotalPadded(w, sizes);
  }

  lemma {:induction false} SumAtMost(s: seq<real>)
    requires forall i :: 0 <= i < |s| ==> s[i] <= 1.0
    ensures Sum(s) <= |s| as real
  {
    if s != [] { SumAtMost(s[..|s| - 1]); }
  }

  lemma DrawdownShort(path: seq<real>)
    ensures Drawdown.Worst(path) <= 0.0
    ensures Growth(path) >= 0.0 ==> Drawdown.Worst(path) <= Growth(path) - 1.0
  {
    if path != [] {
      Drawdown.PeakAtLeastOne(path);
      if Growth(path) >= 0.0 { Divided(Growth(path), Drawdown.Peak(path)); }
    }
  }

  lemma Divided(x: real, y: real)
    requires x >= 0.0 && y >= 1.0
    ensures x / y <= x
  {
    var q := x / y;
    assert q * y == x;
    CostSensitivity.NonNegativeProduct(q, y - 1.0);
    assert q * y == q + q * (y - 1.0);
  }
}
