// The engine's own validation checks, applied to what the simulation produces.
module ValidationChecks {
  import opened Wrappers
  import opened Totals
  import opened Market
  import opened Portfolio
  import opened Simulator
  import CostSensitivity
  import Drawdown

  // "numerical_robustness"; over the reals every return is finite.
  predicate NumericalRobustness(m: Metrics) {
    && m.observations >= 2
    && -1.0 <= m.maximumDrawdown <= 0.0
    && m.turnover >= 0.0 && m.commission >= 0.0 && m.slippage >= 0.0
  }

  // "cost_sensitivity", comparing a simulation with its stressed repetition.
  predicate CostInsensitive(m: Metrics, stressed: Metrics) {
    stressed.totalReturn <= m.totalReturn + FLOOR
  }

  function Doubled(costs: Costs): Costs {
    Costs(costs.commissionBps * 2.0, costs.slippageBps * 2.0)
  }

  ghost predicate NonNegativeCosts(costs: Costs) {
    costs.commissionBps >= 0.0 && costs.slippageBps >= 0.0
  }

  ghost predicate NeverInDebt(path: seq<real>) {
    forall k :: 0 <= k <= |path| ==> Drawdown.Wealth(path, k) >= 0.0
  }

  lemma QuotientSign(wealth: real, peak: real)
    requires peak >= 1.0
    ensures Drawdown.Decline(wealth, peak) >= -1.0 <==> wealth >= 0.0
  {
  }

  lemma Scaled(q: real, peak: real)
    requires peak >= 1.0 && q >= 0.0
    ensures q * peak >= q
  {
  }

  lemma {:induction false} DrawdownAboveRuin(path: seq<real>)
    ensures Drawdown.Worst(path) <= 0.0
    ensures Drawdown.Worst(path) >= -1.0 <==> NeverInDebt(path)
  {
    if path != [] {
      var n := |path| - 1;
      DrawdownAboveRuin(path[..n]);
      Drawdown.PeakAtLeastOne(path);
      QuotientSign(Growth(path), Drawdown.Peak(path));
      assert path[..n + 1] == path;
      assert forall k :: 0 <= k <= n ==> path[..n][..k] == path[..k];
      assert NeverInDebt(path) <==> NeverInDebt(path[..n]) && Growth(path) >= 0.0 by {
        forall k | 0 <= k <= n
          ensures Drawdown.Wealth(path[..n], k) == Drawdown.Wealth(path, k)
        {
        }
        assert Drawdown.Wealth(path, n + 1) == Growth(path);
      }
    }
  }

  // The numerical check passes exactly when there are two periods and the
  // compounded wealth never falls below zero.
  lemma NumericalCheckIsSolvency(rows: seq<Row>, count: nat, costs: Costs, strategy: Strategy, library: Library)
    requires NonNegativeCosts(costs)
    ensures Simulate(rows, count, costs, strategy, library).Ok? ==>
              var ledger := Simulate(rows, count, costs, strategy, library).value;
              NumericalRobustness(Measured(ledger, costs)) <==> |ledger.net| >= 2 && NeverInDebt(ledger.net)
  {
    hide Simulate;
    hide Rate;
    hide NetReturn;
    CostSensitivity.SimulateTwice(rows, count, costs, costs, strategy, library);
    if Simulate(rows, count, costs, strategy, library).Ok? {
      var ledger := Simulate(rows, count, costs, strategy, library).value;
      DrawdownAboveRuin(ledger.net);
      SumNonNegative(ledger.turnovers);
      ChargeNonNegative(Sum(ledger.turnovers), costs.commissionBps);
      ChargeNonNegative(Sum(ledger.turnovers), costs.slippageBps);
    }
  }

  lemma ChargeNonNegative(total: real, bps: real)
    requires total >= 0.0 && bps >= 0.0
    ensures total * bps / 10000.0 >= 0.0
  {
  }

  // The cost check passes whenever the two paths are balanced, and so whenever no stressed
  // period loses more than everything.
  lemma CostCheckHolds(rows: seq<Row>, count: nat, costs: Costs, strategy: Strategy, library: Library)
    requires NonNegativeCosts(costs)
    ensures var base := Simulate(rows, count, costs, strategy, library);
            var stressed := Simulate(rows, count, Doubled(costs), strategy, library);
            && (base.Ok? <==> stressed.Ok?)
            && (base.Ok? && (CostSensitivity.Balanced(stressed.value.net, base.value.net) ||
                             CostSensitivity.Solvent(stressed.value.net)) ==>
                  CostInsensitive(Measured(base.value, costs), Measured(stressed.value, Doubled(costs))))
  {
    hide Simulate;
    CostSensitivity.HigherCostsNeverHelp(rows, count, costs, Doubled(costs), strategy, library);
    var base := Simulate(rows, count, costs, strategy, library);
    var stressed := Simulate(rows, count, Doubled(costs), strategy, library);
    if base.Ok? && CostSensitivity.Solvent(stressed.value.net) {
      CostSensitivity.SolventIsBalanced(stressed.value.net, base.value.net);
    }
  }
}
