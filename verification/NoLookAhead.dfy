// Point-in-time behaviour of the simulation: what it has recorded by a date is
// decided by the rows up to that date alone.
module NoLookAhead {
  import opened Wrappers
  import opened Totals
  import opened Market
  import opened Portfolio

  // One setup sees only the first sessions of another.
  ghost predicate Sees(cut: Setup, full: Setup) {
    && ValidSetup(cut) && ValidSetup(full)
    && cut.count == full.count && cut.strategy == full.strategy && cut.library == full.library
    && cut.dates <= full.dates
    && forall i :: 0 <= i < |cut.dates| ==> SessionAt(cut.book, cut.dates[i]) == SessionAt(full.book, full.dates[i])
  }

  lemma SameRanking(cut: Setup, full: Setup, i: nat)
    requires Sees(cut, full) && i + 1 < |cut.dates|
    ensures Ranking(cut, i) == Ranking(full, i)
  {
  }

  lemma SameRebalanced(cut: Setup, full: Setup, i: nat, history: History)
    requires Sees(cut, full) && i + 1 < |cut.dates| && Ranking(cut, i) == Ranking(full, i) != []
    ensures Rebalanced(cut, i, history) == Rebalanced(full, i, history)
  {
    hide Ranking;
    hide RawWeights;
    hide Total;
    hide First;
    hide Last;
    hide Capped;
    hide LongShort;
    hide ValidSetup;
    SameRaw(cut, full, SessionAt(cut.book, cut.dates[i]), First(Ranking(cut, i), cut.count), history);
  }

  lemma SameTarget(cut: Setup, full: Setup, i: nat, weights: Weights, history: History)
    requires Sees(cut, full) && i + 1 < |cut.dates| && Ranking(cut, i) == Ranking(full, i) != []
    ensures Target(cut, i, weights, history) == Target(full, i, weights, history)
  {
    hide Ranking;
    hide Rebalanced;
    hide Held;
    hide ValidSetup;
    SameRebalanced(cut, full, i, history);
    assert RebalanceDue(cut, i) == RebalanceDue(full, i);
  }

  lemma SameRaw(cut: Setup, full: Setup, today: Session, selected: seq<int>, history: History)
    requires cut.strategy == full.strategy && cut.library == full.library
    ensures RawWeights(cut, today, selected, history) == RawWeights(full, today, selected, history)
  {
  }

  lemma SameSettlement(cut: Setup, full: Setup, costs: Costs, i: nat, ledger: Ledger, history: History, target: Weights)
    requires Sees(cut, full) && i + 1 < |cut.dates|
    requires Tradable(target, SessionAt(cut.book, cut.dates[i + 1]))
    ensures Settle(cut, costs, i, ledger, history, target) == Settle(full, costs, i, ledger, history, target)
  {
    hide Turnover;
    hide Gross;
    hide Drifted;
    hide BenchmarkLevel;
    hide Rate;
    hide AssetReturns;
    hide Trades;
    hide Dates;
    ValidSessionAt(cut, i);
    ValidSessionAt(full, i);
  }

  lemma SameStep(cut: Setup, full: Setup, costs: Costs, i: nat, ledger: Ledger)
    requires Sees(cut, full) && i + 1 < |cut.dates|
    ensures Step(cut, costs, i, ledger) == Step(full, costs, i, ledger)
  {
    hide Ranking;
    hide Target;
    hide Settle;
    hide Observe;
    var history := Observe(ledger.history, SessionAt(cut.book, cut.dates[i]));
    SameRanking(cut, full, i);
    if Ranking(cut, i) != [] {
      SameTarget(cut, full, i, ledger.weights, history);
      if Target(cut, i, ledger.weights, history).Ok? {
        TargetTradable(cut, i, ledger.weights, history);
        SameSettlement(cut, full, costs, i, ledger, history, Target(cut, i, ledger.weights, history).value);
      }
    }
  }

  lemma {:induction false} SameRun(cut: Setup, full: Setup, costs: Costs, n: nat)
    requires Sees(cut, full) && (n == 0 || n < |cut.dates|)
    ensures Run(cut, costs, n) == Run(full, costs, n)
  {
    hide Step;
    hide Dates;
    if n > 0 {
      SameRun(cut, full, costs, n - 1);
      if Run(cut, costs, n - 1).Ok? {
        SameStep(cut, full, costs, n - 1, Run(cut, costs, n - 1).value);
      }
    }
  }

  ghost predicate Extends(early: Ledger, late: Ledger) {
    && early.net <= late.net
    && early.benchmark <= late.benchmark
    && early.turnovers <= late.turnovers
    && early.gross <= late.gross
    && early.trades <= late.trades
  }

  lemma StepExtends(su: Setup, costs: Costs, i: nat, ledger: Ledger)
    requires ValidSetup(su) && i + 1 < |su.dates|
    ensures Step(su, costs, i, ledger).Ok? ==> Extends(ledger, Step(su, costs, i, ledger).value)
  {
    hide Ranking;
    hide Target;
    hide Observe;
    hide Turnover;
    hide Gross;
    hide Drifted;
    hide BenchmarkLevel;
    hide Rate;
    hide AssetReturn;
    hide Trades;
  }

  lemma {:induction false} RunExtends(su: Setup, costs: Costs, n: nat, m: nat)
    requires ValidSetup(su) && n <= m && (m == 0 || m < |su.dates|)
    requires Run(su, costs, m).Ok?
    ensures Run(su, costs, n).Ok? && Extends(Run(su, costs, n).value, Run(su, costs, m).value)
    decreases m
  {
    hide Step;
    if n < m {
      RunExtends(su, costs, n, m - 1);
      StepExtends(su, costs, m - 1, Run(su, costs, m - 1).value);
    }
  }

  lemma CutSees(rows: seq<Row>, cutoff: int, count: nat, strategy: Strategy, library: Library)
    requires count > 0
    ensures Sees(SetupOf(UpTo(rows, cutoff), count, strategy, library), SetupOf(rows, count, strategy, library))
  {
    hide Dates;
    hide BookOf;
    hide UpTo;
    var early := UpTo(rows, cutoff);
    BookOfValid(rows);
    BookOfValid(early);
    DatesUpTo(rows, cutoff);
    SessionsUpTo(rows, cutoff);
  }

  lemma SessionsUpTo(rows: seq<Row>, cutoff: int)
    ensures var dates := Dates(BookOf(UpTo(rows, cutoff)));
            forall i :: 0 <= i < |dates| ==>
              SessionAt(BookOf(UpTo(rows, cutoff)), dates[i]) == SessionAt(BookOf(rows), dates[i])
  {
    hide BookOf;
    hide UpTo;
    BookUpTo(rows, cutoff);
    var dates := Dates(BookOf(UpTo(rows, cutoff)));
    assert forall i :: 0 <= i < |dates| ==> dates[i] in dates;
  }

  // Simulating the rows up to a date is running the full data over the sessions
  // up to that date; whatever the full simulation goes on to do, its returns,
  // benchmarks and turnovers begin with exactly those of the truncated one.
  lemma SimulationHasNoLookAhead(rows: seq<Row>, cutoff: int, count: nat, costs: Costs, strategy: Strategy,
                                 library: Library)
    requires count > 0 && ValidStrategy(strategy)
    ensures var full := SetupOf(rows, count, strategy, library);
            var known := Periods(SetupOf(UpTo(rows, cutoff), count, strategy, library));
            && ValidSetup(full) && (known == 0 || known < |full.dates|)
            && Simulate(UpTo(rows, cutoff), count, costs, strategy, library) ==
                 (match Run(full, costs, known)
                  case Err(e) => Err(e)
                  case Ok(ledger) => if ledger.net == [] then Err(TooFewSessions) else Ok(ledger))
    ensures Simulate(rows, count, costs, strategy, library).Ok? ==>
              match Simulate(UpTo(rows, cutoff), count, costs, strategy, library)
              case Ok(early) => Extends(early, Simulate(rows, count, costs, strategy, library).value)
              case Err(e) => e == TooFewSessions
  {
    hide Run;
    var cut, full := SetupOf(UpTo(rows, cutoff), count, strategy, library), SetupOf(rows, count, strategy, library);
    CutSees(rows, cutoff, count, strategy, library);
    SameRun(cut, full, costs, Periods(cut));
    if Run(full, costs, Periods(full)).Ok? {
      RunExtends(full, costs, Periods(cut), Periods(full));
    }
  }
}
