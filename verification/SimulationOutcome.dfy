// What becomes of a whole simulation, told from its rows, calendar and ranking alone:
// which symbols are held when, and which session, if any, makes it fail.
module SimulationOutcome {
  import opened Wrappers
  import opened Totals
  import opened Market
  import opened Portfolio
  import opened PortfolioSimplex
  import opened Simulator
  import opened SimulationFailures

  // ---- holdings ----

  // The symbols held before session n. A session without candidates keeps them, one that
  // holds keeps those that trade next, and one that rebalances takes its selection, with
  // the other end of the ranking for a long-short strategy.
  function Holdings(su: Setup, n: nat): set<int>
    requires n == 0 || n < |su.dates|
  {
    if n == 0 then {}
    else
      var i, held := n - 1, Holdings(su, n - 1);
      if Ranking(su, i) == [] then held
      else if RebalanceDue(su, i) == Ok(false) && held != {} then Trading(held, SessionAt(su.book, su.dates[n]))
      else Bought(su, i)
  }

  function Trading(held: set<int>, session: Session): set<int> {
    set s | s in held && s in session
  }

  function Bought(su: Setup, i: nat): set<int>
    requires i + 1 < |su.dates|
  {
    Members(Selected(su, i)) + if su.strategy.longShort then Members(Last(Ranking(su, i), su.count)) else {}
  }

  // Why session i fails, if it does.
  function SessionFailure(su: Setup, i: nat): Option<Failure>
    requires i + 1 < |su.dates|
  {
    var held, next := Holdings(su, i), SessionAt(su.book, su.dates[i + 1]);
    if Ranking(su, i) == [] then None
    else if RebalanceDue(su, i).Err? then Some(UnsupportedFrequency)
    else if RebalanceDue(su, i) == Ok(false) && held != {} then
      if Trading(held, next) <= SessionAt(su.book, su.dates[i]).Keys then None else Some(MissingRow)
    else if su.strategy.weighting == OtherWeighting then Some(UnsupportedWeighting)
    else if su.strategy.weighting == ScoreWeighted && AllScoresZero(su, i) then Some(DivisionByZero)
    else None
  }

  // The first of n sessions that fails decides.
  function FirstFailure(su: Setup, n: nat): Option<Failure>
    requires n == 0 || n < |su.dates|
  {
    if n == 0 then None
    else
      match FirstFailure(su, n - 1)
      case Some(e) => Some(e)
      case None => SessionFailure(su, n - 1)
  }

  predicate SomeTraded(su: Setup, n: nat)
    requires n == 0 || n < |su.dates|
  {
    exists i :: 0 <= i < n && Ranking(su, i) != []
  }

  // ---- one session ----

  lemma RebalancedKeys(su: Setup, i: nat, history: History)
    requires i + 1 < |su.dates| && Ranking(su, i) != [] && su.count > 0
    requires Rebalanced(su, i, history).Ok?
    ensures Rebalanced(su, i, history).value.Keys == Bought(su, i)
  {
    hide Total;
    hide Share;
    hide HalfShare;
    RankingMembers(su, i);
    var selected, shorted := Selected(su, i), Last(Ranking(su, i), su.count);
    RawPositive(su, SessionAt(su.book, su.dates[i]), selected, history);
    hide RawWeights;
    hide Ranking;
    if su.strategy.longShort {
      assert LongShort(su.strategy, selected, shorted).Keys == Members(selected) + Members(shorted);
    }
  }

  lemma BoughtRanked(su: Setup, i: nat)
    requires i + 1 < |su.dates|
    ensures Bought(su, i) <= Members(Ranking(su, i))
  {
    hide Ranking;
    var ranking := Ranking(su, i);
    assert forall s :: s in Selected(su, i) ==> s in ranking;
    assert forall s :: s in Last(ranking, su.count) ==> s in ranking;
  }

  ghost predicate Holds(su: Setup, n: nat, ledger: Ledger)
    requires n == 0 || n < |su.dates|
  {
    && ledger.weights.Keys == ledger.final.Keys == Holdings(su, n)
    && (ledger.net == [] <==> !SomeTraded(su, n))
  }

  lemma HeldKeys(weights: Weights, next: Session)
    ensures Held(weights, next).Keys == Trading(weights.Keys, next)
  {
  }

  lemma TargetAnswers(su: Setup, i: nat, weights: Weights, history: History)
    requires i + 1 < |su.dates| && Ranking(su, i) != [] && su.count > 0
    requires weights.Keys == Holdings(su, i)
    ensures Target(su, i, weights, history).Ok? ==>
              Target(su, i, weights, history).value.Keys == Holdings(su, i + 1)
  {
    hide Target;
    hide Bought;
    hide AllScoresZero;
    hide Rebalanced;
    hide RebalanceDue;
    TargetFailsExactly(su, i, weights, history);
    HeldKeys(weights, SessionAt(su.book, su.dates[i + 1]));
    hide Ranking;
    if Rebalanced(su, i, history).Ok? { RebalancedKeys(su, i, history); }
    hide Held;
    hide Trading;
    assert weights == map[] <==> weights.Keys == {};
    assert RebalanceDue(su, i).Ok? ==>
           (Rebalances(su, i, weights) <==> RebalanceDue(su, i).value || weights == map[]);
  }

  // A session answers as predicted, unless the portfolio is wiped out.
  lemma StepAnswers(su: Setup, costs: Costs, i: nat, ledger: Ledger)
    requires ValidSetup(su) && i + 1 < |su.dates| && Holds(su, i, ledger)
    ensures SessionFailure(su, i).Some? ==> Step(su, costs, i, ledger) == Err(SessionFailure(su, i).value)
    ensures SessionFailure(su, i).None? ==>
              Step(su, costs, i, ledger).Ok? || (Ranking(su, i) != [] && WipedOut(su, i, ledger))
    ensures Step(su, costs, i, ledger).Ok? ==> Holds(su, i + 1, Step(su, costs, i, ledger).value)
  {
    hide Step;
    hide Ranking;
    hide WipedOut;
    hide Holds;
    hide ValidSetup;
    if Ranking(su, i) == [] {
      StepSkips(su, costs, i, ledger);
    } else {
      hide SessionFailure;
      FailureAnswers(su, costs, i, ledger);
      if Step(su, costs, i, ledger).Ok? { StepHolds(su, costs, i, ledger); }
    }
  }

  lemma StepSkips(su: Setup, costs: Costs, i: nat, ledger: Ledger)
    requires ValidSetup(su) && i + 1 < |su.dates| && Holds(su, i, ledger) && Ranking(su, i) == []
    ensures SessionFailure(su, i).None? && Step(su, costs, i, ledger).Ok?
    ensures Holds(su, i + 1, Step(su, costs, i, ledger).value)
  {
    hide Step;
    hide Ranking;
    hide ValidSetup;
    SkippedStep(su, costs, i, ledger);
    assert SomeTraded(su, i + 1) <==> SomeTraded(su, i);
  }

  lemma FailureAnswers(su: Setup, costs: Costs, i: nat, ledger: Ledger)
    requires ValidSetup(su) && i + 1 < |su.dates| && Holds(su, i, ledger) && Ranking(su, i) != []
    ensures SessionFailure(su, i).Some? ==> Step(su, costs, i, ledger) == Err(SessionFailure(su, i).value)
    ensures SessionFailure(su, i).None? ==> Step(su, costs, i, ledger).Ok? || WipedOut(su, i, ledger)
  {
    hide Step;
    hide Ranking;
    hide Dates;
    hide AllScoresZero;
    hide WipedOut;
    hide RebalanceDue;
    hide Holdings;
    DueErrors(su, i);
    StepFailsExactly(su, costs, i, ledger);
    assert ledger.weights == map[] <==> ledger.weights.Keys == {};
    TradingCovered(ledger.weights, SessionAt(su.book, su.dates[i]), SessionAt(su.book, su.dates[i + 1]));
    hide Trading;
    var r := Step(su, costs, i, ledger);
    assert RebalanceDue(su, i) == Ok(false) && ledger.weights.Keys != {} ==>
           (SessionFailure(su, i) == Some(MissingRow) <==> r == Err(MissingRow));
    assert RebalanceDue(su, i).Ok? ==>
           (Rebalances(su, i, ledger.weights) <==> RebalanceDue(su, i).value || ledger.weights == map[]);
  }

  lemma TradingCovered(weights: Weights, today: Session, next: Session)
    ensures Trading(weights.Keys, next) <= today.Keys <==> !exists s :: s in weights && s in next && s !in today
  {
    if exists s :: s in weights && s in next && s !in today {
      var s :| s in weights && s in next && s !in today;
      assert s in Trading(weights.Keys, next);
    }
    if !(Trading(weights.Keys, next) <= today.Keys) {
      var s :| s in Trading(weights.Keys, next) && s !in today.Keys;
      assert s in weights;
    }
  }

  lemma StepHolds(su: Setup, costs: Costs, i: nat, ledger: Ledger)
    requires ValidSetup(su) && i + 1 < |su.dates| && Holds(su, i, ledger)
    requires Ranking(su, i) != [] && Step(su, costs, i, ledger).Ok?
    ensures Holds(su, i + 1, Step(su, costs, i, ledger).value)
  {
    hide Settle;
    hide Target;
    hide Observe;
    hide Dates;
    hide Holdings;
    hide Wiped;
    var history := Observe(ledger.history, SessionAt(su.book, su.dates[i]));
    TargetTradable(su, i, ledger.weights, history);
    var target := Target(su, i, ledger.weights, history).value;
    TargetAnswers(su, i, ledger.weights, history);
    SettleFailsExactly(su, costs, i, ledger, history, target);
    hide Ranking;
  }

  // ---- the run ----

  // Whatever the strategy, a run that gets through holds what is predicted.
  lemma {:induction false} RunHolds(su: Setup, costs: Costs, n: nat)
    requires ValidSetup(su) && (n == 0 || n < |su.dates|)
    ensures Run(su, costs, n).Ok? ==> Holds(su, n, Run(su, costs, n).value) && FirstFailure(su, n).None?
  {
    hide Step;
    hide Ranking;
    hide SessionFailure;
    hide Dates;
    hide WipedOut;
    if n > 0 && Run(su, costs, n - 1).Ok? {
      hide Holds;
      RunHolds(su, costs, n - 1);
      StepAnswers(su, costs, n - 1, Run(su, costs, n - 1).value);
    }
  }

  // A long-only run fails exactly as its first failing session does, and otherwise gets
  // through.
  lemma {:induction false} RunAnswers(su: Setup, costs: Costs, n: nat)
    requires ValidSetup(su) && (n == 0 || n < |su.dates|) && LongOnly(su.strategy)
    ensures match FirstFailure(su, n)
            case Some(e) => Run(su, costs, n) == Err(e)
            case None => Run(su, costs, n).Ok?
  {
    hide Step;
    hide Ranking;
    hide SessionFailure;
    hide Dates;
    hide WipedOut;
    hide Holds;
    hide LongOnly;
    hide Simplex;
    if n > 0 {
      RunAnswers(su, costs, n - 1);
      if Run(su, costs, n - 1).Ok? {
        var ledger := Run(su, costs, n - 1).value;
        RunHolds(su, costs, n - 1);
        RunOnSimplex(su, costs, n - 1);
        StepAnswers(su, costs, n - 1, ledger);
        if Ranking(su, n - 1) != [] { NotWipedOut(su, n - 1, ledger); }
      }
    }
  }

  // A run of any strategy that fails does so at a session that fails as predicted, or that
  // should have worked and wiped the portfolio out.
  lemma {:induction false} FailsSomewhere(su: Setup, costs: Costs, n: nat) returns (i: nat)
    requires ValidSetup(su) && (n == 0 || n < |su.dates|) && Run(su, costs, n).Err?
    ensures i < n && Run(su, costs, i).Ok? && Run(su, costs, i + 1) == Run(su, costs, n)
    ensures FirstFailure(su, i).None?
    ensures SessionFailure(su, i) == Some(Run(su, costs, n).error) ||
            (SessionFailure(su, i).None? && Run(su, costs, n) == Err(DivisionByZero) &&
             Ranking(su, i) != [] && WipedOut(su, i, Run(su, costs, i).value))
  {
    hide Step;
    hide Ranking;
    hide SessionFailure;
    hide Dates;
    hide WipedOut;
    hide Holds;
    if Run(su, costs, n - 1).Err? {
      i := FailsSomewhere(su, costs, n - 1);
    } else {
      i := n - 1;
      RunHolds(su, costs, i);
      var ledger := Run(su, costs, i).value;
      StepAnswers(su, costs, i, ledger);
      if Ranking(su, i) != [] { WipedOutFails(su, costs, i, ledger); }
    }
  }

  lemma WipedOutFails(su: Setup, costs: Costs, i: nat, ledger: Ledger)
    requires ValidSetup(su) && i + 1 < |su.dates| && Ranking(su, i) != []
    ensures WipedOut(su, i, ledger) ==> Step(su, costs, i, ledger) == Err(DivisionByZero)
  {
    hide Step;
    hide Ranking;
    hide Dates;
    hide AllScoresZero;
    hide WipedOut;
    StepFailsExactly(su, costs, i, ledger);
  }

  lemma {:induction false} FirstFailureExactly(su: Setup, n: nat)
    requires n == 0 || n < |su.dates|
    ensures FirstFailure(su, n).None? <==> forall i :: 0 <= i < n ==> SessionFailure(su, i).None?
  {
    hide SessionFailure;
    if n > 0 { FirstFailureExactly(su, n - 1); }
  }

  // ---- the simulation ----

  // The answer of a long-only simulation, read off its inputs: the failure of the first
  // failing session, too few sessions when none has candidates, and otherwise a result
  // that ends with the predicted holdings.
  lemma SimulationAnswersExactly(rows: seq<Row>, count: nat, costs: Costs, strategy: Strategy, library: Library)
    requires LongOnly(strategy) && count > 0
    ensures var su := SetupOf(rows, count, strategy, library);
            var r := Simulate(rows, count, costs, strategy, library);
            && (r.Ok? <==>
                  && (forall i :: 0 <= i < Periods(su) ==> SessionFailure(su, i).None?)
                  && SomeTraded(su, Periods(su)))
            && (r.Err? ==> r == Err(match FirstFailure(su, Periods(su)) case Some(e) => e case None => TooFewSessions))
            && (r.Ok? ==> r.value.final.Keys == Holdings(su, Periods(su)))
  {
    hide Run;
    hide Dates;
    hide BookOf;
    hide SessionFailure;
    hide SomeTraded;
    hide Holdings;
    BookOfValid(rows);
    var su := SetupOf(rows, count, strategy, library);
    RunAnswers(su, costs, Periods(su));
    RunHolds(su, costs, Periods(su));
    FirstFailureExactly(su, Periods(su));
  }

  // Its metrics are computed exactly when, besides, something is held at the end.
  lemma MetricsAnswerExactly(rows: seq<Row>, count: nat, costs: Costs, strategy: Strategy, library: Library)
    requires LongOnly(strategy) && count > 0
    ensures var su := SetupOf(rows, count, strategy, library);
            var r := Measures(Simulate(rows, count, costs, strategy, library), rows, costs);
            var works := SomeTraded(su, Periods(su)) &&
                         forall i :: 0 <= i < Periods(su) ==> SessionFailure(su, i).None?;
            && (r.Ok? <==> works && Holdings(su, Periods(su)) != {})
            && (r == Err(NoHoldings) <==> works && Holdings(su, Periods(su)) == {})
  {
    hide Simulate;
    hide Measures;
    hide SessionFailure;
    hide SomeTraded;
    hide Holdings;
    hide Dates;
    hide BookOf;
    SimulationAnswersExactly(rows, count, costs, strategy, library);
    MetricsFailExactly(rows, count, costs, strategy, library);
    var r := Simulate(rows, count, costs, strategy, library);
    assert r.Ok? ==> (r.value.final == map[] <==> r.value.final.Keys == {});
  }

  // ---- consequences ----

  // After a session with candidates everything held trades.
  lemma HoldingsTrade(su: Setup, i: nat)
    requires 0 < i < |su.dates| && Ranking(su, i - 1) != []
    ensures Holdings(su, i) <= SessionAt(su.book, su.dates[i]).Keys
  {
    RankingMembers(su, i - 1);
    BoughtRanked(su, i - 1);
    hide Ranking;
    hide RebalanceDue;
    hide Bought;
  }

  // So a held symbol is missing only in a session that follows one without candidates.
  lemma MissingRowFollowsSkip(su: Setup, i: nat)
    requires i + 1 < |su.dates| && SessionFailure(su, i) == Some(MissingRow)
    ensures i > 0 && Ranking(su, i - 1) == []
  {
    hide Ranking;
    hide RebalanceDue;
    hide AllScoresZero;
    if i > 0 && Ranking(su, i - 1) != [] { HoldingsTrade(su, i); }
  }

  // Rebalancing daily, something is held once some session has had candidates.
  lemma {:induction false} DailyHolds(su: Setup, n: nat)
    requires (n == 0 || n < |su.dates|) && su.count > 0 && su.strategy.frequency == Daily && SomeTraded(su, n)
    ensures Holdings(su, n) != {}
  {
    hide Ranking;
    if Ranking(su, n - 1) == [] {
      var i :| 0 <= i < n && Ranking(su, i) != [];
      assert SomeTraded(su, n - 1);
      DailyHolds(su, n - 1);
    } else {
      assert Selected(su, n - 1)[0] in Bought(su, n - 1);
    }
  }
}
