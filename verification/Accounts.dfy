// What the returns of a session mean in money: one unit of capital, invested in
// shares at today's closes and counted again at the next session's.
module Accounts {
  import opened Wrappers
  import opened Totals
  import opened Market
  import opened Portfolio
  import opened SelectionLaws

  // ---- capital ----

  // How many shares a weight buys.
  function Bought(weight: real, now: Row): real {
    weight / now.close
  }

  // What a share is worth a session later, with what it split into and what it paid.
  function Payout(next: Row): real {
    next.close * next.splitFactor + next.dividend
  }

  function Proceeds(weight: real, now: Row, next: Row): real {
    Bought(weight, now) * Payout(next)
  }

  // Cash and every position, counted in money at the next session.
  function Capital(target: Weights, today: Session, next: Session): real
    requires forall s :: s in target ==> s in today && s in next
  {
    Cash(target) + Total(map s | s in target :: Proceeds(target[s], today[s], next[s]))
  }

  lemma Regrouped(shares: real, close: real, relative: real)
    ensures shares * (relative * close) == (shares * close) * relative
  {
  }

  lemma ProceedsGrow(weight: real, now: Row, next: Row)
    ensures Proceeds(weight, now, next) == weight * (1.0 + AssetReturn(now, next))
    ensures Combines(Proceeds(weight, now, next), weight, Earned(weight, AssetReturn(now, next)), 1.0, 1.0)
  {
    var relative := Payout(next) / now.close;
    assert relative * now.close == Payout(next);
    assert Bought(weight, now) * now.close == weight;
    Regrouped(Bought(weight, now), now.close, relative);
  }

  lemma CapitalGrows(target: Weights, today: Session, next: Session)
    requires forall s :: s in target ==> s in today && s in next
    ensures AssetReturns(target, today, next).Keys == target.Keys
    ensures Capital(target, today, next) == 1.0 + Gross(target, AssetReturns(target, today, next))
  {
    var asset := AssetReturns(target, today, next);
    assert asset.Keys == target.Keys;
    hide Total;
    hide Earned;
    hide Proceeds;
    hide Combines;
    hide AssetReturn;
    var earned: Weights := map s | s in target :: Earned(target[s], asset[s]);
    var proceeds: Weights := map s | s in target :: Proceeds(target[s], today[s], next[s]);
    forall s | s in proceeds
      ensures Combines(proceeds[s], target[s], earned[s], 1.0, 1.0)
    {
      ProceedsGrow(target[s], today[s], next[s]);
    }
    TotalLinear(proceeds, target, earned, 1.0, 1.0);
    Summed(Total(proceeds), Total(target), Total(earned));
  }

  lemma Summed(t: real, x: real, y: real)
    requires Combines(t, x, y, 1.0, 1.0)
    ensures t == x + y
  {
  }

  // ---- a session in money ----

  // The gross return of a session is what the capital gained, its net return what is
  // left after both cost rates are charged on the turnover, and each weight carried
  // into the next session is the position's part of the capital it ended with.
  ghost predicate InMoney(before: Ledger, after: Ledger, costs: Costs, today: Session, next: Session) {
    && (forall s :: s in after.final ==> s in today && s in next)
    && |after.gross| == |before.gross| + 1 && |after.net| == |before.net| + 1
    && |after.turnovers| == |before.turnovers| + 1
    && var capital := Capital(after.final, today, next);
       var gross, turnover := after.gross[|before.gross|], after.turnovers[|before.turnovers|];
       && gross == capital - 1.0
       && after.net[|before.net|] ==
            gross - turnover * (costs.commissionBps / 10000.0 + costs.slippageBps / 10000.0)
       && after.weights.Keys == after.final.Keys
       && (forall s :: s in after.final ==>
             capital != 0.0 && after.weights[s] == Proceeds(after.final[s], today[s], next[s]) / capital)
  }

  lemma SessionInMoney(su: Setup, costs: Costs, i: nat, ledger: Ledger)
    requires ValidSetup(su) && i + 1 < |su.dates| && Ranking(su, i) != []
    requires Step(su, costs, i, ledger).Ok?
    ensures InMoney(ledger, Step(su, costs, i, ledger).value, costs,
                    SessionAt(su.book, su.dates[i]), SessionAt(su.book, su.dates[i + 1]))
  {
    assert su.count > 0;
    hide Ranking;
    hide Target;
    hide Settle;
    hide ValidSetup;
    hide InMoney;
    hide SessionAt;
    hide Observe;
    var history := Observe(ledger.history, SessionAt(su.book, su.dates[i]));
    TargetTradable(su, i, ledger.weights, history);
    SettledInMoney(su, costs, i, ledger, history, Target(su, i, ledger.weights, history).value);
  }

  lemma SettledInMoney(su: Setup, costs: Costs, i: nat, ledger: Ledger, history: History, target: Weights)
    requires ValidSetup(su) && i + 1 < |su.dates|
    requires Tradable(target, SessionAt(su.book, su.dates[i + 1]))
    requires Settle(su, costs, i, ledger, history, target).Ok?
    ensures InMoney(ledger, Settle(su, costs, i, ledger, history, target).value, costs,
                    SessionAt(su.book, su.dates[i]), SessionAt(su.book, su.dates[i + 1]))
  {
    hide ValidSetup;
    hide BenchmarkLevel;
    hide Turnover;
    hide Trades;
    hide Total;
    hide Capital;
    hide Proceeds;
    hide Gross;
    hide NetReturn;
    hide Rate;
    hide SessionAt;
    hide AssetReturn;
    hide Drift;
    var after := Settle(su, costs, i, ledger, history, target).value;
    var today, next := SessionAt(su.book, su.dates[i]), SessionAt(su.book, su.dates[i + 1]);
    CapitalGrows(target, today, next);
    var asset := AssetReturns(target, today, next);
    NetOf(Gross(target, asset), Turnover(target, ledger.weights), costs);
    forall s | s in target
      ensures 1.0 + Gross(target, asset) != 0.0
      ensures Drift(target[s], asset[s], 1.0 + Gross(target, asset)) ==
              Proceeds(target[s], today[s], next[s]) / (1.0 + Gross(target, asset))
    {
      DriftOf(target[s], today[s], next[s], 1.0 + Gross(target, asset));
    }
  }

  lemma NetOf(gross: real, turnover: real, costs: Costs)
    ensures NetReturn(gross, turnover, Rate(costs)) ==
            gross - turnover * (costs.commissionBps / 10000.0 + costs.slippageBps / 10000.0)
  {
    assert Rate(costs) == costs.commissionBps / 10000.0 + costs.slippageBps / 10000.0;
  }

  lemma DriftOf(weight: real, now: Row, next: Row, growth: real)
    requires growth != 0.0
    ensures Drift(weight, AssetReturn(now, next), growth) == Proceeds(weight, now, next) / growth
  {
    ProceedsGrow(weight, now, next);
    hide Proceeds;
    hide AssetReturn;
  }

  // ---- trades ----

  // What an allocation holds of a symbol, nothing where it does not name it.
  function Position(weights: Weights, s: int): real {
    if s in weights then weights[s] else 0.0
  }

  // The symbols of which one allocation holds more than another.
  function MoreIn(a: Weights, b: Weights): set<int> {
    set s | s in a.Keys + b.Keys && Position(a, s) > Position(b, s)
  }

  // Trades are the positions bought and the positions sold.
  lemma TradesCounted(target: Weights, weights: Weights)
    ensures Trades(target, weights) == |MoreIn(target, weights)| + |MoreIn(weights, target)|
  {
    var bought, sold := MoreIn(target, weights), MoreIn(weights, target);
    var moved := set s | s in weights.Keys + target.Keys && Weight(target, s) != Weight(weights, s);
    assert forall s :: Position(target, s) == Weight(target, s) && Position(weights, s) == Weight(weights, s);
    hide Position;
    hide Weight;
    forall s
      ensures s in moved <==> s in bought || s in sold
      ensures !(s in bought && s in sold)
    {
    }
    assert bought !! sold;
    assert moved == bought + sold;
  }

  // ---- histories ----

  // The closes a symbol has shown before session n.
  function Shown(su: Setup, s: int, n: nat): seq<Price>
    requires n <= |su.dates|
  {
    if n == 0 then []
    else
      var session := SessionAt(su.book, su.dates[n - 1]);
      Shown(su, s, n - 1) + (if s in session then [session[s].close] else [])
  }

  // A run remembers every close of every symbol, whether or not the session traded.
  lemma {:induction false} RemembersCloses(su: Setup, costs: Costs, n: nat, s: int)
    requires ValidSetup(su) && (n == 0 || n < |su.dates|) && Run(su, costs, n).Ok?
    ensures HistoryOf(Run(su, costs, n).value.history, s) == Shown(su, s, n)
  {
    hide Step;
    hide ValidSetup;
    hide Observe;
    hide SessionAt;
    if n > 0 {
      RemembersCloses(su, costs, n - 1, s);
      var before := Run(su, costs, n - 1).value;
      StepRemembers(su, costs, n - 1, before);
      ObservedClose(before.history, SessionAt(su.book, su.dates[n - 1]), s);
    }
  }

  lemma ObservedClose(history: History, today: Session, s: int)
    ensures HistoryOf(Observe(history, today), s) ==
            HistoryOf(history, s) + (if s in today then [today[s].close] else [])
  {
  }

  lemma StepRemembers(su: Setup, costs: Costs, i: nat, ledger: Ledger)
    requires ValidSetup(su) && i + 1 < |su.dates| && Step(su, costs, i, ledger).Ok?
    ensures Step(su, costs, i, ledger).value.history == Observe(ledger.history, SessionAt(su.book, su.dates[i]))
  {
    assert su.count > 0;
    hide Ranking;
    hide Target;
    hide Observe;
    hide ValidSetup;
    hide Settle;
    hide SessionAt;
    var history := Observe(ledger.history, SessionAt(su.book, su.dates[i]));
    if Ranking(su, i) != [] {
      TargetTradable(su, i, ledger.weights, history);
      SettledHistory(su, costs, i, ledger, history, Target(su, i, ledger.weights, history).value);
    }
  }

  lemma SettledHistory(su: Setup, costs: Costs, i: nat, ledger: Ledger, history: History, target: Weights)
    requires ValidSetup(su) && i + 1 < |su.dates|
    requires Tradable(target, SessionAt(su.book, su.dates[i + 1]))
    requires Settle(su, costs, i, ledger, history, target).Ok?
    ensures Settle(su, costs, i, ledger, history, target).value.history == history
  {
    hide ValidSetup;
    hide Drifted;
    hide Gross;
    hide Turnover;
    hide Trades;
    hide BenchmarkLevel;
    hide AssetReturns;
    hide NetReturn;
    hide SessionAt;
  }

  // Each change turns one close into the next.
  lemma ChangesExactly(closes: seq<Price>, p: nat)
    requires p + 1 < |closes|
    ensures |Changes(closes)| == |closes| - 1
    ensures (1.0 + Changes(closes)[p]) * closes[p] == closes[p + 1]
  {
    assert closes[p + 1] / closes[p] * closes[p] == closes[p + 1];
  }

  // ---- volatility weighting ----

  // The sample deviation of the changes, one where there are fewer than two, and
  // never less than the floor.
  function Risk(library: Library, closes: seq<Price>): real {
    if |closes| <= 2 then 1.0 else Max(library.deviation(Changes(closes)), 0.000000000001)
  }

  lemma RiskOf(library: Library, closes: seq<Price>)
    ensures Risk(library, closes) == Max(Volatility(library, closes), FLOOR) > 0.0
  {
  }

  lemma ShareInverse(limit: real, risk: real, total: real)
    requires risk > 0.0 && total != 0.0
    ensures Share(limit, 1.0 / risk, total) * risk == limit / total
  {
    var q := Share(limit, 1.0 / risk, total);
    assert q * total == limit * (1.0 / risk);
    assert (1.0 / risk) * risk == 1.0;
    Regrouped(limit, risk, 1.0 / risk);
    Regrouped(q, risk, total);
    assert (q * risk) * total == limit;
  }

  lemma SmallerOf(limit: real, share: real)
    ensures Min(limit, share) < limit ==> Min(limit, share) == share
  {
  }

  lemma RiskShare(strategy: Strategy, library: Library, selected: seq<int>, history: History, x: int)
    requires x in selected
    requires Total(map s | s in selected :: 1.0 / Max(Volatility(library, HistoryOf(history, s)), FLOOR)) != 0.0
    ensures var raw: Weights := map s | s in selected ::
              1.0 / Max(Volatility(library, HistoryOf(history, s)), FLOOR);
            Capped(strategy, raw)[x] < strategy.positionLimit ==>
              Capped(strategy, raw)[x] * Risk(library, HistoryOf(history, x)) == strategy.leverageLimit / Total(raw)
  {
    RiskOf(library, HistoryOf(history, x));
    hide Total;
    hide Share;
    hide Volatility;
    hide Risk;
    hide Capped;
    hide HistoryOf;
    var raw: Weights := map s | s in selected :: 1.0 / Max(Volatility(library, HistoryOf(history, s)), FLOOR);
    CappedShares(strategy, raw);
    SmallerOf(strategy.positionLimit, Share(strategy.leverageLimit, raw[x], Total(raw)));
    hide Min;
    ShareInverse(strategy.leverageLimit, Risk(library, HistoryOf(history, x)), Total(raw));
  }

  // Volatility weighting gives every holding below the position limit the same
  // product of weight and risk.
  lemma EqualRisk(su: Setup, i: nat, weights: Weights, history: History, x: int, y: int)
    requires i + 1 < |su.dates| && Ranking(su, i) != [] && su.count > 0 && Calendar(su)
    requires Buys(su, i, weights) && !su.strategy.longShort && su.strategy.weighting == VolatilityWeighted
    requires Target(su, i, weights, history).Ok?
    requires x in Target(su, i, weights, history).value && y in Target(su, i, weights, history).value
    ensures var t := Target(su, i, weights, history).value;
            t[x] < su.strategy.positionLimit && t[y] < su.strategy.positionLimit ==>
              t[x] * Risk(su.library, HistoryOf(history, x)) == t[y] * Risk(su.library, HistoryOf(history, y))
  {
    hide Ranking;
    hide Target;
    hide Rebalanced;
    hide First;
    hide Total;
    hide Share;
    hide Volatility;
    hide Risk;
    hide Calendar;
    hide Buys;
    hide SessionAt;
    hide Max;
    BuyingTarget(su, i, weights, history);
    CappedTarget(su, i, history);
    var selected := First(Ranking(su, i), su.count);
    var raw := RawWeights(su, SessionAt(su.book, su.dates[i]), selected, history).value;
    assert x in raw && y in raw;
    hide Capped;
    RiskShare(su.strategy, su.library, selected, history, x);
    RiskShare(su.strategy, su.library, selected, history, y);
  }

  // ---- the benchmark ----

  // The closes differ from the level by amounts that cancel out.
  lemma LevelIsMean(session: Session)
    requires session.Keys != {}
    ensures Total(map s | s in session :: session[s].benchmarkClose - BenchmarkLevel(session)) == 0.0
  {
    hide Total;
    hide Combines;
    var level := BenchmarkLevel(session);
    var closes: Weights := map s | s in session :: session[s].benchmarkClose;
    var levels: Weights := map s | s in session :: level;
    var apart: Weights := map s | s in session :: session[s].benchmarkClose - level;
    assert closes.Keys == session.Keys && levels.Keys == session.Keys && apart.Keys == session.Keys;
    forall s | s in apart
      ensures Combines(apart[s], closes[s], levels[s], 1.0, -1.0)
    {
      Apart(closes[s], level);
    }
    TotalLinear(apart, closes, levels, 1.0, -1.0);
    TotalUniform(levels, level);
    MeanTimes(Total(closes), |session.Keys|);
    ApartTotal(Total(apart), Total(closes), Total(levels));
  }

  lemma Apart(x: real, y: real)
    ensures Combines(x - y, x, y, 1.0, -1.0)
  {
  }

  lemma ApartTotal(t: real, x: real, y: real)
    requires Combines(t, x, y, 1.0, -1.0)
    ensures t == x - y
  {
  }

  lemma MeanTimes(total: real, n: nat)
    requires n > 0
    ensures Repeated(n, total / n as real) == total
  {
  }

  ghost predicate AllTrade(su: Setup, n: nat)
    requires n == 0 || n < |su.dates|
  {
    forall i :: 0 <= i < n ==> Ranking(su, i) != []
  }

  // Where every session trades, the benchmark's compounded return is the last level
  // over the first: the levels between cancel.
  lemma {:induction false} BenchmarkTelescopes(su: Setup, costs: Costs, n: nat)
    requires ValidSetup(su) && (n == 0 || n < |su.dates|) && |su.dates| > 0
    requires AllTrade(su, n) && Run(su, costs, n).Ok?
    ensures SessionAt(su.book, su.dates[0]).Keys != {} && SessionAt(su.book, su.dates[n]).Keys != {}
    ensures Growth(Run(su, costs, n).value.benchmark) * BenchmarkLevel(SessionAt(su.book, su.dates[0])) ==
            BenchmarkLevel(SessionAt(su.book, su.dates[n]))
  {
    hide Ranking;
    hide Step;
    hide BenchmarkLevel;
    hide SessionAt;
    hide Growth;
    GrowthEmpty();
    ValidSessionAt(su, 0);
    ValidSessionAt(su, n);
    hide ValidSetup;
    if n > 0 {
      BenchmarkTelescopes(su, costs, n - 1);
      var before := Run(su, costs, n - 1).value;
      StepLevels(su, costs, n - 1, before);
      var low, high := BenchmarkLevel(SessionAt(su.book, su.dates[n - 1])),
                       BenchmarkLevel(SessionAt(su.book, su.dates[n]));
      BenchmarkLevelPositive(SessionAt(su.book, su.dates[n - 1]));
      GrowthAppend(before.benchmark, high / low - 1.0);
      Telescope(Growth(before.benchmark), BenchmarkLevel(SessionAt(su.book, su.dates[0])), low, high);
    }
  }

  lemma GrowthEmpty()
    ensures Growth([]) == 1.0
  {
  }

  lemma GrowthAppend(path: seq<real>, r: real)
    ensures Growth(path + [r]) == Growth(path) * (1.0 + r)
  {
  }

  lemma Telescope(growth: real, first: real, low: real, high: real)
    requires low > 0.0 && growth * first == low
    ensures growth * (1.0 + (high / low - 1.0)) * first == high
  {
    var q := high / low;
    assert q * low == high;
    Regrouped(growth, first, q);
    assert growth * q * first == (growth * first) * q;
  }

  lemma StepLevels(su: Setup, costs: Costs, i: nat, ledger: Ledger)
    requires ValidSetup(su) && i + 1 < |su.dates| && Ranking(su, i) != [] && Step(su, costs, i, ledger).Ok?
    ensures var today, next := SessionAt(su.book, su.dates[i]), SessionAt(su.book, su.dates[i + 1]);
            && today.Keys != {} && next.Keys != {} && BenchmarkLevel(today) > 0.0
            && Step(su, costs, i, ledger).value.benchmark ==
                 ledger.benchmark + [BenchmarkLevel(next) / BenchmarkLevel(today) - 1.0]
  {
    hide Ranking;
    hide Target;
    hide Observe;
    hide Drifted;
    hide Gross;
    hide Turnover;
    hide Trades;
    hide BenchmarkLevel;
    hide AssetReturns;
    hide NetReturn;
    ValidSessionAt(su, i);
    ValidSessionAt(su, i + 1);
    BenchmarkLevelPositive(SessionAt(su.book, su.dates[i]));
    hide ValidSetup;
    hide SessionAt;
    var history := Observe(ledger.history, SessionAt(su.book, su.dates[i]));
    TargetTradable(su, i, ledger.weights, history);
  }
}
