// When the simulation fails, exactly, and when it cannot: the score total, a missing
// row, a wiped-out portfolio, and final weights that are empty.
module SimulationFailures {
  import opened Wrappers
  import opened Totals
  import opened Market
  import opened Portfolio
  import opened PortfolioSimplex
  import opened Simulator
  import RiskContribution

  // ---- one session ----

  function Selected(su: Setup, i: nat): seq<int>
    requires i + 1 < |su.dates|
  {
    First(Ranking(su, i), su.count)
  }

  // No selected symbol has a score.
  predicate AllScoresZero(su: Setup, i: nat)
    requires i + 1 < |su.dates|
  {
    var today := SessionAt(su.book, su.dates[i]);
    forall s :: s in Selected(su, i) && s in today ==> Score(su.strategy, today[s]) == 0.0
  }

  lemma PositiveTotal(raw: Weights)
    requires raw.Keys != {} && forall s :: s in raw ==> raw[s] >= 0.0
    ensures Total(raw) == 0.0 <==> forall s :: s in raw ==> raw[s] == 0.0
  {
    hide Total;
    if forall s :: s in raw ==> raw[s] == 0.0 {
      TotalUniform(raw, 0.0);
    } else {
      var s :| s in raw && raw[s] != 0.0;
      TotalPositive(raw, s);
    }
  }

  lemma Inverse(v: real)
    ensures 1.0 / Max(v, FLOOR) > 0.0
  {
  }

  lemma RawPositive(su: Setup, today: Session, selected: seq<int>, history: History)
    requires selected != [] && forall s :: s in selected ==> s in today
    requires RawWeights(su, today, selected, history).Ok?
    ensures var raw := RawWeights(su, today, selected, history).value;
            && raw.Keys == Members(selected) != {}
            && (forall s :: s in raw ==> raw[s] >= 0.0)
            && (Total(raw) == 0.0 <==>
                  su.strategy.weighting == ScoreWeighted &&
                  forall s :: s in selected ==> Score(su.strategy, today[s]) == 0.0)
  {
    hide Total;
    hide Volatility;
    hide Score;
    var raw := RawWeights(su, today, selected, history).value;
    assert selected[0] in selected;
    forall s | s in selected
      ensures s in raw && raw[s] >= 0.0
      ensures raw[s] == 0.0 <==> su.strategy.weighting == ScoreWeighted && Score(su.strategy, today[s]) == 0.0
    {
      Inverse(Volatility(su.library, HistoryOf(history, s)));
    }
    assert raw.Keys == Members(selected);
    assert selected[0] in raw && forall s :: s in raw <==> s in selected;
    PositiveTotal(raw);
    if su.strategy.weighting == ScoreWeighted {
      assert (forall s :: s in raw ==> raw[s] == 0.0) <==>
             forall s :: s in selected ==> Score(su.strategy, today[s]) == 0.0;
    } else {
      TotalPositive(raw, selected[0]);
    }
  }

  // A rebalancing fails exactly when the weighting is not supported, or is by score and
  // every selected score is zero.
  lemma RebalanceFailsExactly(su: Setup, i: nat, history: History)
    requires i + 1 < |su.dates| && Ranking(su, i) != [] && su.count > 0
    ensures Rebalanced(su, i, history) == Err(UnsupportedWeighting) <==> su.strategy.weighting == OtherWeighting
    ensures Rebalanced(su, i, history) == Err(DivisionByZero) <==>
            su.strategy.weighting == ScoreWeighted && AllScoresZero(su, i)
    ensures Rebalanced(su, i, history).Ok? <==>
            su.strategy.weighting != OtherWeighting && !(su.strategy.weighting == ScoreWeighted && AllScoresZero(su, i))
    ensures Rebalanced(su, i, history).Ok? ==> Rebalanced(su, i, history).value.Keys != {}
  {
    hide Total;
    hide Capped;
    hide HalfShare;
    var today := SessionAt(su.book, su.dates[i]);
    RankingMembers(su, i);
    var selected := Selected(su, i);
    var raw := RawWeights(su, today, selected, history);
    if raw.Ok? {
      RawPositive(su, today, selected, history);
      assert selected[0] in selected;
      if Rebalanced(su, i, history).Ok? { RebalancedHolds(su, i, history, selected[0]); }
    }
  }

  lemma RebalancedHolds(su: Setup, i: nat, history: History, s: int)
    requires i + 1 < |su.dates| && Ranking(su, i) != [] && su.count > 0
    requires Rebalanced(su, i, history).Ok? && s in Selected(su, i)
    ensures s in Rebalanced(su, i, history).value
  {
    hide Total;
    hide Share;
    hide HalfShare;
    hide Ranking;
    RankingMembers(su, i);
  }

  // Whether session i rebalances, given the weights it starts from.
  function Rebalances(su: Setup, i: nat, weights: Weights): bool
    requires i < |su.dates|
  {
    RebalanceDue(su, i) == Ok(true) || (RebalanceDue(su, i).Ok? && weights == map[])
  }

  lemma TargetFailsExactly(su: Setup, i: nat, weights: Weights, history: History)
    requires i + 1 < |su.dates| && Ranking(su, i) != [] && su.count > 0
    ensures var r := Target(su, i, weights, history);
            && (r == Err(UnsupportedFrequency) <==> RebalanceDue(su, i).Err?)
            && (r == Err(UnsupportedWeighting) <==>
                   Rebalances(su, i, weights) && su.strategy.weighting == OtherWeighting)
            && (r == Err(DivisionByZero) <==>
                  Rebalances(su, i, weights) && su.strategy.weighting == ScoreWeighted && AllScoresZero(su, i))
            && (r.Err? ==> r.error in {UnsupportedFrequency, UnsupportedWeighting, DivisionByZero})
            && (r.Ok? && !Rebalances(su, i, weights) ==> r.value == Held(weights, SessionAt(su.book, su.dates[i + 1])))
            && (r.Ok? && Rebalances(su, i, weights) ==> r == Rebalanced(su, i, history))
  {
    hide AllScoresZero;
    hide Rebalanced;
    hide Ranking;
    hide RebalanceDue;
    hide Held;
    DueErrors(su, i);
    RebalanceFailsExactly(su, i, history);
    RebalancedErrors(su, i, history);
  }

  lemma DueErrors(su: Setup, i: nat)
    requires i < |su.dates|
    ensures RebalanceDue(su, i).Err? <==> i > 0 && su.strategy.frequency == OtherFrequency
    ensures RebalanceDue(su, i).Err? ==> RebalanceDue(su, i).error == UnsupportedFrequency
  {
  }

  lemma RebalancedErrors(su: Setup, i: nat, history: History)
    requires i + 1 < |su.dates| && Ranking(su, i) != [] && su.count > 0
    ensures Rebalanced(su, i, history).Err? ==>
              Rebalanced(su, i, history).error in {UnsupportedWeighting, DivisionByZero}
  {
    hide Total;
    hide Ranking;
  }

  lemma SettleFailsExactly(su: Setup, costs: Costs, i: nat, ledger: Ledger, history: History, target: Weights)
    requires ValidSetup(su) && i + 1 < |su.dates|
    requires Tradable(target, SessionAt(su.book, su.dates[i + 1]))
    ensures var today, next := SessionAt(su.book, su.dates[i]), SessionAt(su.book, su.dates[i + 1]);
            var r := Settle(su, costs, i, ledger, history, target);
            && (r == Err(MissingRow) <==> exists s :: s in target && s !in today)
            && (r == Err(DivisionByZero) <==> Wiped(target, today, next))
            && (r.Err? ==> r.error in {MissingRow, DivisionByZero})
            && (r.Ok? ==> r.value.weights.Keys == target.Keys && r.value.final == target &&
                          |r.value.net| == |ledger.net| + 1)
  {
    hide Total;
    hide Turnover;
    hide Gross;
    hide BenchmarkLevel;
    hide Trades;
    hide NetReturn;
    hide Rate;
    hide ValidSetup;
    hide AssetReturn;
    hide Drift;
  }

  // The target trades today and tomorrow, and loses exactly everything.
  ghost predicate Wiped(target: Weights, today: Session, next: Session) {
    && target != map[]
    && (forall s :: s in target ==> s in today && s in next)
    && AssetReturns(target, today, next).Keys == target.Keys
    && 1.0 + Gross(target, AssetReturns(target, today, next)) == 0.0
  }

  ghost predicate WipedOut(su: Setup, i: nat, ledger: Ledger)
    requires i + 1 < |su.dates| && Ranking(su, i) != [] && su.count > 0
  {
    var today, next := SessionAt(su.book, su.dates[i]), SessionAt(su.book, su.dates[i + 1]);
    var target := Target(su, i, ledger.weights, Observe(ledger.history, today));
    target.Ok? && Wiped(target.value, today, next)
  }

  // Every way a session can fail, and no other: the calendar is not supported, the
  // rebalancing fails, a held symbol trades tomorrow but not today, or the portfolio is
  // wiped out to exactly nothing.
  lemma StepFailsExactly(su: Setup, costs: Costs, i: nat, ledger: Ledger)
    requires ValidSetup(su) && i + 1 < |su.dates| && Ranking(su, i) != []
    ensures var today, next := SessionAt(su.book, su.dates[i]), SessionAt(su.book, su.dates[i + 1]);
            var r := Step(su, costs, i, ledger);
            && (r == Err(UnsupportedFrequency) <==> RebalanceDue(su, i).Err?)
            && (r == Err(UnsupportedWeighting) <==>
                  Rebalances(su, i, ledger.weights) && su.strategy.weighting == OtherWeighting)
            && (r == Err(MissingRow) <==>
                  RebalanceDue(su, i).Ok? && !Rebalances(su, i, ledger.weights) &&
                  exists s :: s in ledger.weights && s in next && s !in today)
            && (r == Err(DivisionByZero) <==>
                  || (Rebalances(su, i, ledger.weights) && su.strategy.weighting == ScoreWeighted &&
                       AllScoresZero(su, i))
                  || WipedOut(su, i, ledger))
            && (r.Err? ==> r.error in {UnsupportedFrequency, UnsupportedWeighting, MissingRow, DivisionByZero})
  {
    hide AllScoresZero;
    hide Wiped;
    hide Settle;
    hide Target;
    hide Observe;
    hide RebalanceDue;
    var today, next := SessionAt(su.book, su.dates[i]), SessionAt(su.book, su.dates[i + 1]);
    var history := Observe(ledger.history, today);
    TargetFailsExactly(su, i, ledger.weights, history);
    RankingMembers(su, i);
    var target := Target(su, i, ledger.weights, history);
    if target.Ok? {
      TargetTradable(su, i, ledger.weights, history);
      SettleFailsExactly(su, costs, i, ledger, history, target.value);
      if Rebalances(su, i, ledger.weights) { RebalancedMembers(su, i, history); }
    }
    hide Rebalanced;
    hide Ranking;
  }

  lemma HeldIsEmpty(weights: Weights, next: Session)
    ensures Held(weights, next) == map[] <==> forall s :: s in weights ==> s !in next
  {
    var held := Held(weights, next);
    assert forall s :: s in held <==> s in weights && s in next;
    if forall s :: s in weights ==> s !in next {
      assert held == map[];
    }
  }

  // A session that trades leaves no weights exactly when it holds and nothing held
  // trades tomorrow.
  lemma StepEmptiesExactly(su: Setup, costs: Costs, i: nat, ledger: Ledger)
    requires ValidSetup(su) && i + 1 < |su.dates| && Ranking(su, i) != []
    requires Step(su, costs, i, ledger).Ok?
    ensures var after, next := Step(su, costs, i, ledger).value, SessionAt(su.book, su.dates[i + 1]);
            && after.weights.Keys == after.final.Keys
            && Tradable(after.weights, next)
            && |after.net| == |ledger.net| + 1
            && (after.final == map[] <==>
                  !Rebalances(su, i, ledger.weights) && forall s :: s in ledger.weights ==> s !in next)
  {
    hide Settle;
    hide Target;
    hide Observe;
    hide Dates;
    hide RebalanceDue;
    hide AllScoresZero;
    hide Wiped;
    var next := SessionAt(su.book, su.dates[i + 1]);
    var history := Observe(ledger.history, SessionAt(su.book, su.dates[i]));
    TargetFailsExactly(su, i, ledger.weights, history);
    TargetTradable(su, i, ledger.weights, history);
    var target := Target(su, i, ledger.weights, history).value;
    SettleFailsExactly(su, costs, i, ledger, history, target);
    RebalanceFailsExactly(su, i, history);
    hide Rebalanced;
    hide Ranking;
    if !Rebalances(su, i, ledger.weights) {
      HeldIsEmpty(ledger.weights, next);
    }
  }

  // ---- runs ----

  lemma SkippedStep(su: Setup, costs: Costs, i: nat, ledger: Ledger)
    requires ValidSetup(su) && i + 1 < |su.dates|
    requires Ranking(su, i) == []
    ensures Step(su, costs, i, ledger).Ok?
    ensures var after := Step(su, costs, i, ledger).value;
            after.net == ledger.net && after.final == ledger.final && after.weights == ledger.weights
  {
    hide Ranking;
    hide Observe;
  }

  lemma NotWipedOut(su: Setup, i: nat, ledger: Ledger)
    requires ValidSetup(su) && i + 1 < |su.dates| && Ranking(su, i) != []
    requires LongOnly(su.strategy) && Simplex(ledger.weights)
    ensures !WipedOut(su, i, ledger)
  {
    hide Target;
    hide Ranking;
    hide Observe;
    hide Gross;
    hide Total;
    hide AssetReturn;
    var today, next := SessionAt(su.book, su.dates[i]), SessionAt(su.book, su.dates[i + 1]);
    var history := Observe(ledger.history, today);
    var target := Target(su, i, ledger.weights, history);
    if target.Ok? {
      TargetSimplex(su, i, ledger.weights, history);
      if forall s :: s in target.value ==> s in today && s in next {
        var asset := AssetReturns(target.value, today, next);
        forall s | s in asset
          ensures asset[s] > -1.0
        {
          AssetReturnAboveRuin(today[s], next[s]);
        }
        GrowthPositive(target.value, asset);
      }
    }
  }

  // ---- final weights ----

  lemma {:induction false} RunErrors(su: Setup, costs: Costs, n: nat)
    requires ValidSetup(su) && (n == 0 || n < |su.dates|)
    ensures Run(su, costs, n) != Err(NoHoldings)
  {
    hide Step;
    hide Ranking;
    hide AllScoresZero;
    hide WipedOut;
    if n > 0 {
      RunErrors(su, costs, n - 1);
      if Run(su, costs, n - 1).Ok? {
        var ledger := Run(su, costs, n - 1).value;
        if Ranking(su, n - 1) == [] {
          SkippedStep(su, costs, n - 1, ledger);
        } else {
          StepFailsExactly(su, costs, n - 1, ledger);
        }
      }
    }
  }

  lemma SimulateErrors(rows: seq<Row>, count: nat, costs: Costs, strategy: Strategy, library: Library)
    ensures Simulate(rows, count, costs, strategy, library) != Err(NoHoldings)
  {
    hide Run;
    hide Dates;
    hide BookOf;
    if count > 0 {
      BookOfValid(rows);
      var su := SetupOf(rows, count, strategy, library);
      RunErrors(su, costs, Periods(su));
    }
  }

  lemma ContributionFailsExactly(rows: seq<Row>, weights: Weights)
    ensures RiskContribution.Contribution(rows, weights).Err? <==> weights == map[]
  {
    hide RiskContribution.Days;
    hide RiskContribution.Shares;
    hide RiskContribution.SeriesOn;
    assert weights == map[] <==> weights.Keys == {};
  }

  // The metrics of a simulation that succeeds fail exactly when its final weights are
  // empty.
  lemma MetricsFailExactly(rows: seq<Row>, count: nat, costs: Costs, strategy: Strategy, library: Library)
    ensures var r := Simulate(rows, count, costs, strategy, library);
            && (Measures(r, rows, costs) == Err(NoHoldings) <==> r.Ok? && r.value.final == map[])
            && (Measures(r, rows, costs).Ok? <==> r.Ok? && r.value.final != map[])
  {
    hide Simulate;
    hide Measured;
    hide RiskContribution.Contribution;
    SimulateErrors(rows, count, costs, strategy, library);
    var r := Simulate(rows, count, costs, strategy, library);
    if r.Ok? { ContributionFailsExactly(rows, r.value.final); }
  }
}
