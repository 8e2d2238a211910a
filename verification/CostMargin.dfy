// Prices on which the cost check cannot fail: a long-only portfolio whose every price
// relative covers the stressed cost rate never loses more than everything.
module CostMargin {
  import opened Wrappers
  import opened Totals
  import opened Market
  import opened Portfolio
  import opened PortfolioSimplex
  import opened Simulator
  import opened ValidationChecks
  import CostSensitivity

  // From each session to the next, every symbol that trades in both keeps at least the
  // given part of its price, dividends and splits included.
  ghost predicate RelativesCover(su: Setup, rate: real) {
    forall i, s :: 0 <= i < Periods(su) && TradesTwice(su, i, s) ==> Relative(su, i, s) >= rate
  }

  predicate TradesTwice(su: Setup, i: nat, s: int)
    requires i + 1 < |su.dates|
  {
    s in SessionAt(su.book, su.dates[i]) && s in SessionAt(su.book, su.dates[i + 1])
  }

  function Relative(su: Setup, i: nat, s: int): real
    requires i + 1 < |su.dates| && TradesTwice(su, i, s)
  {
    Kept(SessionAt(su.book, su.dates[i])[s], SessionAt(su.book, su.dates[i + 1])[s])
  }

  function Kept(now: Row, next: Row): real {
    (next.close * next.splitFactor + next.dividend) / now.close
  }

  // ---- one session ----

  lemma Slack(weight: real, kept: real, rate: real)
    requires weight >= 0.0 && kept >= rate
    ensures weight * kept >= rate * weight
  {
    var slack := kept - rate;
    assert weight * slack >= 0.0;
    assert weight * kept == weight * rate + weight * slack;
  }

  lemma GrownAtLeast(weight: real, asset: real, rate: real)
    requires weight >= 0.0 && 1.0 + asset >= rate
    ensures Grown(weight, asset) >= Earned(rate, weight)
  {
    Slack(weight, 1.0 + asset, rate);
  }

  lemma ScaledPart(rate: real, weight: real)
    ensures Combines(Earned(rate, weight), weight, weight, rate, 0.0)
  {
  }

  lemma WholeScaled(t: real, total: real, rate: real)
    requires Combines(t, total, total, rate, 0.0)
    ensures t == Earned(rate, total)
  {
  }

  lemma CashCovers(total: real, worth: real, rate: real)
    requires total <= 1.0 && 0.0 <= rate <= 1.0 && worth >= Earned(rate, total)
    ensures 1.0 - total + worth >= rate
  {
    assert (1.0 - total) * (1.0 - rate) >= 0.0;
  }

  // A simplex allocation keeps at least the part that its worst holding keeps.
  lemma GrowthAtLeast(target: Weights, asset: Weights, rate: real)
    requires target.Keys == asset.Keys && Simplex(target) && 0.0 <= rate <= 1.0
    requires forall s :: s in asset ==> 1.0 + asset[s] >= rate
    ensures 1.0 + Gross(target, asset) >= rate
  {
    hide Total;
    hide Grown;
    hide Earned;
    hide Combines;
    var worth := Worth(target, asset);
    var kept: Weights := map s | s in target :: Earned(rate, target[s]);
    forall s | s in kept
      ensures kept[s] <= worth[s] && Combines(kept[s], target[s], target[s], rate, 0.0)
    {
      GrownAtLeast(target[s], asset[s], rate);
      ScaledPart(rate, target[s]);
    }
    TotalMonotone(kept, worth);
    TotalLinear(kept, target, target, rate, 0.0);
    WholeScaled(Total(kept), Total(target), rate);
    WorthTotal(target, asset);
    CashCovers(Total(target), Total(worth), rate);
  }

  lemma KeptIsReturn(now: Row, next: Row)
    ensures Kept(now, next) == 1.0 + AssetReturn(now, next)
  {
  }

  // Every period keeps at least the given part before costs, and turns over at most all.
  ghost predicate Covered(ledger: Ledger, floor: real) {
    && (forall k :: 0 <= k < |ledger.gross| ==> 1.0 + ledger.gross[k] >= floor)
    && (forall k :: 0 <= k < |ledger.turnovers| ==> 0.0 <= ledger.turnovers[k] <= 1.0)
  }

  lemma SettleCovered(su: Setup, costs: Costs, i: nat, ledger: Ledger, history: History, target: Weights, floor: real)
    requires ValidSetup(su) && i + 1 < |su.dates|
    requires Tradable(target, SessionAt(su.book, su.dates[i + 1]))
    requires Simplex(ledger.weights) && Simplex(target) && Covered(ledger, floor)
    requires 0.0 <= floor <= 1.0 && RelativesCover(su, floor)
    requires Settle(su, costs, i, ledger, history, target).Ok?
    ensures Covered(Settle(su, costs, i, ledger, history, target).value, floor)
  {
    hide Total;
    hide Turnover;
    hide Gross;
    hide Drifted;
    hide BenchmarkLevel;
    hide Trades;
    hide NetReturn;
    hide Rate;
    var today, next := SessionAt(su.book, su.dates[i]), SessionAt(su.book, su.dates[i + 1]);
    var asset := AssetReturns(target, today, next);
    forall s | s in asset
      ensures 1.0 + asset[s] >= floor
    {
      assert TradesTwice(su, i, s);
      KeptIsReturn(today[s], next[s]);
      assert Relative(su, i, s) == Kept(today[s], next[s]);
      assert asset[s] == AssetReturn(today[s], next[s]);
    }
    hide AssetReturns;
    GrowthAtLeast(target, asset, floor);
    TurnoverBounds(target, ledger.weights);
  }

  // ---- the run ----

  lemma {:induction false} RunCovered(su: Setup, costs: Costs, n: nat, floor: real)
    requires ValidSetup(su) && (n == 0 || n < |su.dates|) && LongOnly(su.strategy)
    requires 0.0 <= floor <= 1.0 && RelativesCover(su, floor)
    ensures Run(su, costs, n).Ok? ==> Covered(Run(su, costs, n).value, floor)
  {
    hide Settle;
    hide Target;
    hide Ranking;
    hide Observe;
    hide RelativesCover;
    hide LongOnly;
    hide Simplex;
    hide Covered;
    if n == 0 {
      NothingCovered(floor);
    } else if Run(su, costs, n - 1).Ok? {
      var i, ledger := n - 1, Run(su, costs, n - 1).value;
      RunCovered(su, costs, i, floor);
      RunOnSimplex(su, costs, i);
      var history := Observe(ledger.history, SessionAt(su.book, su.dates[i]));
      if Ranking(su, i) == [] {
        StillCovered(ledger, history, floor);
      } else if Target(su, i, ledger.weights, history).Ok? {
        TargetSimplex(su, i, ledger.weights, history);
        TargetTradable(su, i, ledger.weights, history);
        var target := Target(su, i, ledger.weights, history).value;
        if Settle(su, costs, i, ledger, history, target).Ok? {
          SettleCovered(su, costs, i, ledger, history, target, floor);
        }
      }
    }
  }

  lemma NothingCovered(floor: real)
    ensures Covered(OPENING, floor)
  {
  }

  lemma StillCovered(ledger: Ledger, history: History, floor: real)
    requires Covered(ledger, floor)
    ensures Covered(ledger.(history := history), floor)
  {
  }

  // ---- the check ----

  lemma FactorsBalance(gross: real, turnover: real, rate: real)
    requires rate >= 0.0 && 1.0 + gross >= 1.5 * rate && 0.0 <= turnover <= 1.0
    ensures 1.0 + NetReturn(gross, turnover, 2.0 * rate) + (1.0 + NetReturn(gross, turnover, rate)) >= 0.0
  {
    CostSensitivity.NonNegativeProduct(rate, 1.0 - turnover);
  }

  lemma FactorSolvent(gross: real, turnover: real, rate: real)
    requires rate >= 0.0 && 1.0 + gross >= rate && 0.0 <= turnover <= 1.0
    ensures 1.0 + NetReturn(gross, turnover, rate) >= 0.0
  {
    CostSensitivity.NonNegativeProduct(rate, 1.0 - turnover);
  }

  lemma DoubledRate(costs: Costs)
    ensures Rate(Doubled(costs)) == 2.0 * Rate(costs)
  {
  }

  lemma SimulationCovered(rows: seq<Row>, count: nat, costs: Costs, strategy: Strategy, library: Library, floor: real)
    requires LongOnly(strategy) && 0.0 <= floor <= 1.0
    requires RelativesCover(SetupOf(rows, count, strategy, library), floor)
    ensures Simulate(rows, count, costs, strategy, library).Ok? ==>
              Covered(Simulate(rows, count, costs, strategy, library).value, floor)
  {
    hide Run;
    hide Dates;
    hide BookOf;
    hide RelativesCover;
    hide Covered;
    if count > 0 {
      BookOfValid(rows);
      var su := SetupOf(rows, count, strategy, library);
      RunCovered(su, costs, Periods(su), floor);
    }
  }

  // The cost check passes for every long-only strategy whose price relatives all cover one
  // and a half times the cost rate, which can be read off the rows beforehand.
  lemma CostCheckHoldsOnPrices(rows: seq<Row>, count: nat, costs: Costs, strategy: Strategy, library: Library,
                               floor: real)
    requires NonNegativeCosts(costs) && LongOnly(strategy)
    requires 1.5 * Rate(costs) <= floor <= 1.0
    requires RelativesCover(SetupOf(rows, count, strategy, library), floor)
    ensures var base := Simulate(rows, count, costs, strategy, library);
            var stressed := Simulate(rows, count, Doubled(costs), strategy, library);
            && (base.Ok? <==> stressed.Ok?)
            && (base.Ok? ==>
                  CostInsensitive(Measured(base.value, costs), Measured(stressed.value, Doubled(costs))))
  {
    hide Simulate;
    hide RelativesCover;
    hide CostInsensitive;
    hide NetReturn;
    assert Rate(costs) >= 0.0;
    DoubledRate(costs);
    hide Rate;
    var base := Simulate(rows, count, costs, strategy, library);
    var stressed := Simulate(rows, count, Doubled(costs), strategy, library);
    CostCheckHolds(rows, count, costs, strategy, library);
    CostSensitivity.SimulateTwice(rows, count, costs, Doubled(costs), strategy, library);
    CostSensitivity.SimulateTwice(rows, count, Doubled(costs), costs, strategy, library);
    SimulationCovered(rows, count, costs, strategy, library, floor);
    if base.Ok? {
      var b, s := base.value, stressed.value;
      forall k | 0 <= k < |s.net|
        ensures 1.0 + s.net[k] + (1.0 + b.net[k]) >= 0.0
      {
        FactorsBalance(b.gross[k], b.turnovers[k], Rate(costs));
      }
      assert CostSensitivity.Balanced(s.net, b.net);
    }
  }

  // When they cover a cost rate itself, no period under it loses more than everything.
  lemma SolventOnPrices(rows: seq<Row>, count: nat, costs: Costs, strategy: Strategy, library: Library)
    requires NonNegativeCosts(costs) && LongOnly(strategy) && Rate(costs) <= 1.0
    requires RelativesCover(SetupOf(rows, count, strategy, library), Rate(costs))
    ensures Simulate(rows, count, costs, strategy, library).Ok? ==>
              CostSensitivity.Solvent(Simulate(rows, count, costs, strategy, library).value.net)
  {
    hide Simulate;
    hide RelativesCover;
    hide NetReturn;
    assert Rate(costs) >= 0.0;
    hide Rate;
    SimulationCovered(rows, count, costs, strategy, library, Rate(costs));
    CostSensitivity.SimulateTwice(rows, count, costs, costs, strategy, library);
    if Simulate(rows, count, costs, strategy, library).Ok? {
      var b := Simulate(rows, count, costs, strategy, library).value;
      forall k | 0 <= k < |b.net|
        ensures 1.0 + b.net[k] >= 0.0
      {
        FactorSolvent(b.gross[k], b.turnovers[k], Rate(costs));
      }
    }
  }
}
