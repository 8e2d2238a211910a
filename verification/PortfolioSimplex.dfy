// A long-only portfolio with leverage limit at most one stays on the simplex:
// weights and cash are non-negative and sum to one after every target and every
// drift, over the whole simulation.
module PortfolioSimplex {
  import opened Wrappers
  import opened Totals
  import opened Market
  import opened Portfolio

  ghost predicate NonNegative(w: Weights) {
    forall s :: s in w ==> w[s] >= 0.0
  }

  // Cash is by definition what the weights leave of one.
  ghost predicate Simplex(w: Weights) {
    NonNegative(w) && Cash(w) >= 0.0
  }

  ghost predicate LongOnly(strategy: Strategy) {
    ValidStrategy(strategy) && !strategy.longShort && strategy.leverageLimit <= 1.0
  }

  // ---- targets ----

  lemma RawNonNegative(su: Setup, today: Session, selected: seq<int>, history: History)
    requires RawWeights(su, today, selected, history).Ok?
    ensures NonNegative(RawWeights(su, today, selected, history).value)
  {
  }

  lemma ShareBounds(limit: real, value: real, total: real)
    requires limit > 0.0 && value >= 0.0 && total > 0.0
    ensures 0.0 <= Share(limit, value, total)
    ensures Combines(Share(limit, value, total), value, value, limit / total, 0.0)
  {
  }

  lemma SharesTotal(shares: Weights, raw: Weights, limit: real)
    requires limit > 0.0 && NonNegative(raw) && Total(raw) > 0.0
    requires shares == map s | s in raw :: Share(limit, raw[s], Total(raw))
    ensures Total(shares) == limit
    ensures NonNegative(shares)
  {
    hide Combines;
    hide Share;
    hide Total;
    forall s | s in raw
      ensures shares[s] >= 0.0 && Combines(shares[s], raw[s], raw[s], limit / Total(raw), 0.0)
    {
      ShareBounds(limit, raw[s], Total(raw));
    }
    TotalLinear(shares, raw, raw, limit / Total(raw), 0.0);
    WholeShare(Total(shares), Total(raw), limit);
  }

  lemma WholeShare(t: real, total: real, limit: real)
    requires total > 0.0 && Combines(t, total, total, limit / total, 0.0)
    ensures t == limit
  {
  }

  // Proportional shares of the leverage limit add up to it; capping only lowers them.
  lemma CappedBounds(strategy: Strategy, raw: Weights)
    requires ValidStrategy(strategy) && NonNegative(raw) && Total(raw) != 0.0
    ensures NonNegative(Capped(strategy, raw))
    ensures Total(Capped(strategy, raw)) <= strategy.leverageLimit
    ensures forall s :: s in Capped(strategy, raw) ==> Capped(strategy, raw)[s] <= strategy.positionLimit
  {
    hide Share;
    hide Total;
    TotalNonNegative(raw);
    var shares: Weights := map s | s in raw :: Share(strategy.leverageLimit, raw[s], Total(raw));
    SharesTotal(shares, raw, strategy.leverageLimit);
    TotalMonotone(Capped(strategy, raw), shares);
  }

  lemma TargetSimplex(su: Setup, i: nat, weights: Weights, history: History)
    requires i + 1 < |su.dates| && Ranking(su, i) != [] && su.count > 0
    requires LongOnly(su.strategy) && Simplex(weights)
    requires Target(su, i, weights, history).Ok?
    ensures Simplex(Target(su, i, weights, history).value)
  {
    var due := RebalanceDue(su, i);
    if !due.value && weights != map[] {
      TotalSubmap(Held(weights, SessionAt(su.book, su.dates[i + 1])), weights);
    } else {
      var today := SessionAt(su.book, su.dates[i]);
      var selected := First(Ranking(su, i), su.count);
      RawNonNegative(su, today, selected, history);
      CappedBounds(su.strategy, RawWeights(su, today, selected, history).value);
    }
  }

  // ---- growth and drift ----

  lemma AssetReturnAboveRuin(now: Row, next: Row)
    ensures AssetReturn(now, next) > -1.0
  {
  }

  function Grown(weight: real, asset: real): real {
    weight * (1.0 + asset)
  }

  // What each position is worth after the session.
  ghost function Worth(target: Weights, asset: Weights): Weights
    requires target.Keys == asset.Keys
  {
    map s | s in target :: Grown(target[s], asset[s])
  }

  lemma Product(x: real, y: real)
    requires x >= 0.0 && y > 0.0
    ensures x * y >= 0.0
    ensures x > 0.0 ==> x * y > 0.0
  {
  }

  lemma GrownParts(weight: real, asset: real)
    ensures Combines(Grown(weight, asset), weight, Earned(weight, asset), 1.0, 1.0)
    ensures weight >= 0.0 && asset > -1.0 ==> Grown(weight, asset) >= 0.0
    ensures weight > 0.0 && asset > -1.0 ==> Grown(weight, asset) > 0.0
  {
    if weight >= 0.0 && asset > -1.0 {
      Product(weight, 1.0 + asset);
    }
  }

  lemma WorthTotal(target: Weights, asset: Weights)
    requires target.Keys == asset.Keys
    ensures Total(Worth(target, asset)) == Total(target) + Gross(target, asset)
  {
    hide Total;
    hide Earned;
    hide Grown;
    var earned: Weights := map s | s in target :: Earned(target[s], asset[s]);
    var worth := Worth(target, asset);
    forall s | s in worth
      ensures Combines(worth[s], target[s], earned[s], 1.0, 1.0)
    {
      GrownParts(target[s], asset[s]);
    }
    TotalLinear(worth, target, earned, 1.0, 1.0);
  }

  lemma {:induction false} SomePositive(w: Weights) returns (s: int)
    requires NonNegative(w) && Total(w) > 0.0
    ensures s in w && w[s] > 0.0
  {
    if forall s :: s in w ==> w[s] == 0.0 {
      TotalUniform(w, 0.0);
    }
    s :| s in w && w[s] != 0.0;
  }

  lemma GrowthPositive(target: Weights, asset: Weights)
    requires target.Keys == asset.Keys && Simplex(target)
    requires forall s :: s in asset ==> asset[s] > -1.0
    ensures NonNegative(Worth(target, asset))
    ensures 1.0 + Gross(target, asset) > 0.0
  {
    hide Total;
    hide Grown;
    var worth := Worth(target, asset);
    WorthTotal(target, asset);
    forall s | s in worth
      ensures worth[s] >= 0.0
    {
      GrownParts(target[s], asset[s]);
    }
    TotalNonNegative(worth);
    if Cash(target) == 0.0 {
      var s := SomePositive(target);
      GrownParts(target[s], asset[s]);
      TotalPositive(worth, s);
    }
  }

  lemma DriftShare(weight: real, asset: real, growth: real)
    requires growth > 0.0
    ensures Combines(Drift(weight, asset, growth), Grown(weight, asset), 0.0, 1.0 / growth, 0.0)
    ensures Grown(weight, asset) >= 0.0 ==> Drift(weight, asset, growth) >= 0.0
  {
  }

  lemma DriftedTotal(target: Weights, asset: Weights)
    requires target.Keys == asset.Keys && 1.0 + Gross(target, asset) > 0.0
    requires NonNegative(Worth(target, asset))
    ensures NonNegative(Drifted(target, asset))
    ensures Total(Drifted(target, asset)) * (1.0 + Gross(target, asset)) == Total(Worth(target, asset))
  {
    hide Total;
    hide Grown;
    hide Drift;
    hide Combines;
    var growth := 1.0 + Gross(target, asset);
    var worth, drifted := Worth(target, asset), Drifted(target, asset);
    var zero: Weights := map s | s in worth :: 0.0;
    forall s | s in worth
      ensures Combines(drifted[s], worth[s], zero[s], 1.0 / growth, 0.0) && drifted[s] >= 0.0
    {
      DriftShare(target[s], asset[s], growth);
    }
    TotalLinear(drifted, worth, zero, 1.0 / growth, 0.0);
    Unscale(Total(drifted), Total(worth), Total(zero), growth);
  }

  lemma Unscale(t: real, worth: real, zero: real, growth: real)
    requires growth > 0.0 && Combines(t, worth, zero, 1.0 / growth, 0.0)
    ensures t * growth == worth
  {
  }

  // Every position drifts to its share of the grown portfolio, and so does cash.
  lemma DriftSimplex(target: Weights, asset: Weights)
    requires target.Keys == asset.Keys && Simplex(target)
    requires forall s :: s in asset ==> asset[s] > -1.0
    ensures 1.0 + Gross(target, asset) > 0.0
    ensures Simplex(Drifted(target, asset))
    ensures Cash(Drifted(target, asset)) == Cash(target) / (1.0 + Gross(target, asset))
  {
    hide Total;
    GrowthPositive(target, asset);
    DriftedTotal(target, asset);
    WorthTotal(target, asset);
    CashShare(Total(Drifted(target, asset)), 1.0 + Gross(target, asset), Cash(target));
  }

  lemma ZeroFactor(x: real, y: real)
    requires y > 0.0 && x * y == 0.0
    ensures x == 0.0
  {
  }

  lemma CashShare(t: real, growth: real, cash: real)
    requires growth > 0.0 && t * growth == growth - cash && cash >= 0.0
    ensures 1.0 - t == cash / growth >= 0.0
  {
    var q := cash / growth;
    assert q * growth == cash;
    ZeroFactor(1.0 - t - q, growth);
  }

  // ---- turnover ----

  ghost function Bought(target: Weights, weights: Weights): Weights {
    map s | s in weights.Keys + target.Keys :: Max(0.0, Weight(target, s) - Weight(weights, s))
  }

  // Turnover is the total-variation distance between the two allocations, cash
  // included: the fraction of the portfolio that is bought.
  lemma TurnoverIsBought(target: Weights, weights: Weights)
    ensures Turnover(target, weights) ==
              Total(Bought(target, weights)) + Max(0.0, Cash(target) - Cash(weights))
  {
    hide Total;
    var after: Weights := map s | s in weights.Keys + target.Keys :: Weight(target, s);
    var before: Weights := map s | s in weights.Keys + target.Keys :: Weight(weights, s);
    TotalPadded(target, after);
    TotalPadded(weights, before);
    ChangeTotal(after, before);
    MovesAreBought(target, weights, Change(after, before));
  }

  lemma MovesAreBought(target: Weights, weights: Weights, change: Weights)
    requires change.Keys == weights.Keys + target.Keys
    requires forall s :: s in change ==> change[s] == Weight(target, s) - Weight(weights, s)
    ensures Total(Moves(target, weights)) == 2.0 * Total(Bought(target, weights)) - Total(change)
  {
    hide Total;
    hide Combines;
    hide Abs;
    hide Max;
    hide Weight;
    var moves, bought := Moves(target, weights), Bought(target, weights);
    forall s | s in moves
      ensures Combines(moves[s], bought[s], change[s], 2.0, -1.0)
    {
      MoveParts(Weight(target, s), Weight(weights, s));
    }
    MovesTotal(moves, bought, change);
  }

  lemma MoveParts(x: real, y: real)
    ensures Combines(x - y, x, y, 1.0, -1.0)
    ensures Combines(Abs(x - y), Max(0.0, x - y), x - y, 2.0, -1.0)
  {
  }

  ghost function Change(after: Weights, before: Weights): Weights
    requires after.Keys == before.Keys
  {
    map s | s in after :: after[s] - before[s]
  }

  lemma ChangeTotal(after: Weights, before: Weights)
    requires after.Keys == before.Keys
    ensures Total(Change(after, before)) == Total(after) - Total(before)
  {
    hide Total;
    hide Combines;
    var change := Change(after, before);
    forall s | s in change
      ensures Combines(change[s], after[s], before[s], 1.0, -1.0)
    {
      MoveParts(after[s], before[s]);
    }
    TotalLinear(change, after, before, 1.0, -1.0);
    Eliminate(Total(change), Total(after), Total(before));
  }

  lemma MovesTotal(moves: Weights, bought: Weights, change: Weights)
    requires moves.Keys == bought.Keys == change.Keys
    requires forall s :: s in moves ==> Combines(moves[s], bought[s], change[s], 2.0, -1.0)
    ensures Total(moves) == 2.0 * Total(bought) - Total(change)
  {
  }

  lemma Eliminate(c: real, x: real, y: real)
    requires Combines(c, x, y, 1.0, -1.0)
    ensures c == x - y
  {
  }

  lemma TurnoverBounds(target: Weights, weights: Weights)
    ensures Turnover(target, weights) >= 0.0
    ensures Simplex(target) && Simplex(weights) ==> Turnover(target, weights) <= 1.0
  {
    hide Total;
    TotalNonNegative(Moves(target, weights));
    if Simplex(target) && Simplex(weights) {
      TurnoverIsBought(target, weights);
      var after: Weights := map s | s in weights.Keys + target.Keys :: Weight(target, s);
      TotalPadded(target, after);
      TotalMonotone(Bought(target, weights), after);
    }
  }

  // ---- the whole loop ----

  ghost predicate OnSimplex(ledger: Ledger) {
    && Simplex(ledger.weights)
    && Simplex(ledger.final)
    && (forall k :: 0 <= k < |ledger.gross| ==> ledger.gross[k] > -1.0)
    && (forall k :: 0 <= k < |ledger.turnovers| ==> 0.0 <= ledger.turnovers[k] <= 1.0)
  }

  lemma SettleSimplex(su: Setup, costs: Costs, i: nat, ledger: Ledger, history: History, target: Weights)
    requires ValidSetup(su) && i + 1 < |su.dates|
    requires Tradable(target, SessionAt(su.book, su.dates[i + 1]))
    requires OnSimplex(ledger) && Simplex(target)
    ensures Settle(su, costs, i, ledger, history, target) != Err(DivisionByZero)
    ensures Settle(su, costs, i, ledger, history, target).Ok? ==>
              var after := Settle(su, costs, i, ledger, history, target).value;
              OnSimplex(after) && after.final == target &&
              |after.gross| > 0 && Cash(after.weights) == Cash(target) / (1.0 + after.gross[|after.gross| - 1])
  {
    hide Total;
    hide Turnover;
    hide BenchmarkLevel;
    hide AssetReturn;
    hide Drifted;
    hide Gross;
    hide NetReturn;
    hide Rate;
    hide Trades;
    hide ValidSetup;
    var today, next := SessionAt(su.book, su.dates[i]), SessionAt(su.book, su.dates[i + 1]);
    TurnoverBounds(target, ledger.weights);
    if forall s :: s in target ==> s in today {
      var asset := AssetReturns(target, today, next);
      forall s | s in asset
        ensures asset[s] > -1.0
      {
        AssetReturnAboveRuin(today[s], next[s]);
      }
      DriftSimplex(target, asset);
      NoPositions();
      assert target == map[] ==> asset == map[];
    }
  }

  lemma NoPositions()
    ensures Total(map[]) == 0.0
    ensures Gross(map[], map[]) == 0.0
  {
  }

  lemma StepOnSimplex(su: Setup, costs: Costs, i: nat, ledger: Ledger)
    requires ValidSetup(su) && i + 1 < |su.dates|
    requires LongOnly(su.strategy) && OnSimplex(ledger)
    ensures Step(su, costs, i, ledger).Ok? ==> OnSimplex(Step(su, costs, i, ledger).value)
  {
    hide Ranking;
    hide Target;
    hide Settle;
    hide Total;
    var history := Observe(ledger.history, SessionAt(su.book, su.dates[i]));
    if Ranking(su, i) != [] && Target(su, i, ledger.weights, history).Ok? {
      TargetSimplex(su, i, ledger.weights, history);
      TargetTradable(su, i, ledger.weights, history);
      SettleSimplex(su, costs, i, ledger, history, Target(su, i, ledger.weights, history).value);
    }
  }

  lemma {:induction false} RunOnSimplex(su: Setup, costs: Costs, n: nat)
    requires ValidSetup(su) && (n == 0 || n < |su.dates|)
    requires LongOnly(su.strategy)
    ensures Run(su, costs, n).Ok? ==> OnSimplex(Run(su, costs, n).value)
  {
    hide Step;
    if n == 0 {
      hide ValidSetup;
      hide ValidStrategy;
      NoPositions();
    } else {
      hide ValidSetup;
      hide LongOnly;
      hide OnSimplex;
      RunOnSimplex(su, costs, n - 1);
      if Run(su, costs, n - 1).Ok? {
        StepOnSimplex(su, costs, n - 1, Run(su, costs, n - 1).value);
      }
    }
  }

  lemma SimulationOnSimplex(rows: seq<Row>, count: nat, costs: Costs, strategy: Strategy, library: Library)
    requires LongOnly(strategy)
    ensures Simulate(rows, count, costs, strategy, library).Ok? ==>
              OnSimplex(Simulate(rows, count, costs, strategy, library).value)
  {
    if count > 0 {
      BookOfValid(rows);
      var su := SetupOf(rows, count, strategy, library);
      RunOnSimplex(su, costs, Periods(su));
    }
  }

  // ---- leverage, for every strategy ----

  ghost function Even(keys: set<int>, members: set<int>, share: real): Weights {
    map s | s in keys :: if s in members then share else 0.0
  }

  lemma EvenTotal(keys: set<int>, members: set<int>, share: real)
    requires members <= keys
    ensures Total(Even(keys, members, share)) == |members| as real * share
  {
    hide Total;
    var inner: Weights := map s | s in members :: share;
    assert inner.Keys == members;
    TotalUniform(inner, share);
    TotalPadded(inner, Even(keys, members, share));
  }

  lemma HalfShareBounds(strategy: Strategy, count: nat)
    requires ValidStrategy(strategy) && count > 0
    ensures 0.0 < HalfShare(strategy, count) <= strategy.positionLimit
    ensures count as real * HalfShare(strategy, count) <= strategy.leverageLimit / 2.0
  {
  }

  lemma LongShortExposure(strategy: Strategy, selected: seq<int>, shorted: seq<int>)
    requires ValidStrategy(strategy) && selected != [] && shorted != []
    requires Distinct(selected)
    requires Distinct(shorted)
    ensures Exposure(LongShort(strategy, selected, shorted)) <= strategy.leverageLimit
    ensures forall s :: s in LongShort(strategy, selected, shorted) ==>
              Abs(LongShort(strategy, selected, shorted)[s]) <= strategy.positionLimit
  {
    hide Total;
    hide HalfShare;
    hide Exposure;
    hide Distinct;
    hide Abs;
    var w := LongShort(strategy, selected, shorted);
    var longs := set s | s in selected;
    var shorts := set s | s in shorted;
    HalfShareBounds(strategy, |selected|);
    HalfShareBounds(strategy, |shorted|);
    DistinctCount(selected);
    DistinctCount(shorted);
    LongShortValues(strategy, selected, shorted);
    assert w.Keys == longs + shorts;
    TwoSides(w, longs, shorts, HalfShare(strategy, |selected|), HalfShare(strategy, |shorted|),
      strategy.leverageLimit / 2.0);
  }

  lemma LongShortValues(strategy: Strategy, selected: seq<int>, shorted: seq<int>)
    requires ValidStrategy(strategy) && selected != [] && shorted != []
    ensures forall s :: s in LongShort(strategy, selected, shorted) <==> s in selected || s in shorted
    ensures forall s :: s in LongShort(strategy, selected, shorted) ==>
              Abs(LongShort(strategy, selected, shorted)[s]) ==
                if s in selected then HalfShare(strategy, |selected|) else HalfShare(strategy, |shorted|)
  {
  }

  lemma TwoSides(w: Weights, longs: set<int>, shorts: set<int>, long: real, short: real, half: real)
    requires w.Keys == longs + shorts && long > 0.0 && short > 0.0
    requires |longs| as real * long <= half && |shorts| as real * short <= half
    requires forall s :: s in w ==> Abs(w[s]) == if s in longs then long else short
    ensures Exposure(w) <= half + half
  {
    hide Total;
    hide Abs;
    hide Combines;
    var a, b := Even(w.Keys, longs, long), Even(w.Keys, shorts, short);
    EvenTotal(w.Keys, longs, long);
    EvenTotal(w.Keys, shorts, short);
    var both: Weights := map s | s in w :: a[s] + b[s];
    forall s | s in w
      ensures Combines(both[s], a[s], b[s], 1.0, 1.0)
    {
      Adds(a[s], b[s]);
    }
    TotalLinear(both, a, b, 1.0, 1.0);
    AddsBack(Total(both), Total(a), Total(b));
    TotalMonotone(map s | s in w :: Abs(w[s]), both);
  }

  lemma Adds(x: real, y: real)
    ensures Combines(x + y, x, y, 1.0, 1.0)
  {
  }

  lemma AddsBack(t: real, x: real, y: real)
    requires Combines(t, x, y, 1.0, 1.0)
    ensures t == x + y
  {
  }

  lemma ExposureOfNonNegative(w: Weights)
    requires NonNegative(w)
    ensures Exposure(w) == Total(w)
  {
    forall s | s in w
      ensures Abs(w[s]) == w[s]
    {
    }
    assert (map s | s in w :: Abs(w[s])) == w;
  }

  // Whatever the strategy, a freshly rebalanced portfolio is within its leverage limit.
  lemma RebalancedWithinLeverage(su: Setup, i: nat, history: History)
    requires i + 1 < |su.dates| && Ranking(su, i) != [] && su.count > 0
    requires ValidStrategy(su.strategy) && Rebalanced(su, i, history).Ok?
    ensures Exposure(Rebalanced(su, i, history).value) <= su.strategy.leverageLimit
    ensures forall s :: s in Rebalanced(su, i, history).value ==>
              Abs(Rebalanced(su, i, history).value[s]) <= su.strategy.positionLimit
  {
    hide Total;
    hide HalfShare;
    hide Share;
    var today := SessionAt(su.book, su.dates[i]);
    var selected := First(Ranking(su, i), su.count);
    if su.strategy.longShort {
      LongShortExposure(su.strategy, selected, Last(Ranking(su, i), su.count));
    } else {
      var raw := RawWeights(su, today, selected, history).value;
      RawNonNegative(su, today, selected, history);
      hide RawWeights;
      hide Ranking;
      CappedBounds(su.strategy, raw);
      ExposureOfNonNegative(Capped(su.strategy, raw));
    }
  }
}
