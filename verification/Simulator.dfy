// The engine's portfolio loop and metrics, proved to compute the specification.
module Simulator {
  import opened Wrappers
  import opened Totals
  import opened Market
  import opened Portfolio
  import CostSensitivity
  import Drawdown
  import RiskContribution

  datatype Simulation = Simulation(
    net: seq<real>,
    benchmark: seq<real>,
    turnovers: seq<real>,
    trades: nat,
    final: Weights
  )

  ghost function Reported(r: Result<Ledger, Failure>): Result<Simulation, Failure> {
    match r
    case Err(e) => Err(e)
    case Ok(l) => Ok(Simulation(l.net, l.benchmark, l.turnovers, l.trades, l.final))
  }

  // Appends today's close to the history of every symbol trading today.
  method RecordCloses(history: History, today: Session) returns (after: History)
    ensures after == Observe(history, today)
  {
    hide Observe;
    after := history;
    var left := today.Keys;
    NothingSeen(history, today);
    while left != {}
      invariant left <= today.Keys
      invariant after == Seen(history, today, left)
      decreases |left|
    {
      var s := Least(left);
      OneMoreSeen(history, today, left, s);
      after := after[s := HistoryOf(after, s) + [today[s].close]];
      left := left - {s};
    }
    EverythingSeen(history, today);
  }

  // The histories once the symbols no longer left to visit have their close.
  ghost function Seen(history: History, today: Session, left: set<int>): History {
    map s | s in history.Keys + (today.Keys - left) ::
      HistoryOf(history, s) + (if s in today && s !in left then [today[s].close] else [])
  }

  lemma NothingSeen(history: History, today: Session)
    ensures Seen(history, today, today.Keys) == history
  {
    forall s | s in history
      ensures HistoryOf(history, s) + [] == history[s]
    {
    }
  }

  lemma EverythingSeen(history: History, today: Session)
    ensures Seen(history, today, {}) == Observe(history, today)
  {
  }

  lemma OneMoreSeen(history: History, today: Session, left: set<int>, s: int)
    requires s in left && left <= today.Keys
    ensures Seen(history, today, left - {s}) ==
            Seen(history, today, left)[s := HistoryOf(Seen(history, today, left), s) + [today[s].close]]
  {
    var before, after := Seen(history, today, left), Seen(history, today, left - {s});
    assert after.Keys == before.Keys + {s};
    assert HistoryOf(before, s) == HistoryOf(history, s);
    forall x | x in after && x != s
      ensures after[x] == before[x]
    {
    }
  }

  // Inverse volatility, with a floor, for every selected symbol.
  method InverseVolatility(su: Setup, selected: seq<int>, history: History) returns (raw: Weights)
    ensures raw == map s | s in selected :: 1.0 / Max(Volatility(su.library, HistoryOf(history, s)), FLOOR)
  {
    hide Volatility;
    raw := map[];
    for k := 0 to |selected|
      invariant raw == map s | s in selected[..k] :: 1.0 / Max(Volatility(su.library, HistoryOf(history, s)), FLOOR)
    {
      var s := selected[k];
      raw := raw[s := 1.0 / Max(Volatility(su.library, HistoryOf(history, s)), FLOOR)];
    }
    assert selected[..|selected|] == selected;
  }

  method ChooseTarget(su: Setup, i: nat, ranked: seq<int>, previous: Weights, history: History)
    returns (r: Result<Weights, Failure>)
    requires i + 1 < |su.dates| && su.count > 0
    requires ranked == Ranking(su, i) != []
    ensures r == Target(su, i, previous, history)
  {
    hide Ranking;
    hide Total;
    hide Volatility;
    var today, next := SessionAt(su.book, su.dates[i]), SessionAt(su.book, su.dates[i + 1]);
    var selected := First(ranked, su.count);
    var due := RebalanceDue(su, i);
    if due.Err? { return Err(due.error); }
    if !due.value && previous != map[] {
      return Ok(map s | s in previous && s in next :: previous[s]);
    }
    var raw: Weights;
    match su.strategy.weighting {
      case ScoreWeighted =>
        raw := map s | s in selected && s in today :: Abs(Score(su.strategy, today[s]));
      case VolatilityWeighted =>
        raw := InverseVolatility(su, selected, history);
      case EqualWeighted =>
        raw := map s | s in selected :: 1.0;
      case OtherWeighting =>
        return Err(UnsupportedWeighting);
    }
    var total := Total(raw);
    if total == 0.0 { return Err(DivisionByZero); }
    if su.strategy.longShort {
      return Ok(LongShort(su.strategy, selected, Last(ranked, su.count)));
    }
    return Ok(map s | s in raw :: Min(su.strategy.positionLimit, Share(su.strategy.leverageLimit, raw[s], total)));
  }

  method PortfolioReturns(rows: seq<Row>, count: nat, costs: Costs, strategy: Strategy, library: Library)
    returns (r: Result<Simulation, Failure>)
    ensures r == Reported(Simulate(rows, count, costs, strategy, library))
  {
    if count < 1 { return Err(BadSelectionCount); }
    var book: Book := map[];
    for k := 0 to |rows|
      invariant book == BookOf(rows[..k])
    {
      assert rows[..k + 1][..k] == rows[..k];
      book := AddRow(book, rows[k]);
    }
    assert rows[..|rows|] == rows;
    if !ValidStrategy(strategy) { return Err(BadConstraints); }
    BookOfValid(rows);
    r := Trade(Setup(book, Dates(book), count, strategy, library), costs);
    if r.Ok? && r.value.net == [] { r := Err(TooFewSessions); }
  }

  // The session loop.
  method Trade(su: Setup, costs: Costs) returns (r: Result<Simulation, Failure>)
    requires ValidSetup(su)
    ensures r == Reported(Run(su, costs, Periods(su)))
  {
    hide Ranking;
    hide Target;
    hide Turnover;
    hide Gross;
    hide Drifted;
    hide Trades;
    hide AssetReturns;
    hide BenchmarkLevel;
    hide Observe;
    hide Dates;
    hide NetReturn;
    var net, benchmark, turnovers := [], [], [];
    ghost var grosses: seq<real> := [];
    var trades: nat := 0;
    var previous: Weights, final: Weights := map[], map[];
    var history: History := map[];
    var i := 0;
    while i < Periods(su)
      invariant i <= Periods(su)
      invariant Run(su, costs, i) == Ok(Ledger(net, benchmark, turnovers, grosses, trades, previous, final, history))
    {
      var today, next := SessionAt(su.book, su.dates[i]), SessionAt(su.book, su.dates[i + 1]);
      ghost var ledger := Ledger(net, benchmark, turnovers, grosses, trades, previous, final, history);
      history := RecordCloses(history, today);
      var ranked := Ranking(su, i);
      i := i + 1;
      assert Run(su, costs, i) == Step(su, costs, i - 1, ledger);
      if ranked == [] { continue; }
      var choice := ChooseTarget(su, i - 1, ranked, previous, history);
      if choice.Err? {
        RunStaysFailed(su, costs, i, Periods(su));
        return Err(choice.error);
      }
      var target := choice.value;
      TargetTradable(su, i - 1, previous, history);
      ValidSessionAt(su, i - 1);
      ValidSessionAt(su, i);
      BenchmarkLevelPositive(today);
      if exists s :: s in target && s !in today {
        RunStaysFailed(su, costs, i, Periods(su));
        return Err(MissingRow);
      }
      var turnover := Turnover(target, previous);
      var asset := AssetReturns(target, today, next);
      assert asset.Keys == target.Keys by { AssetKeys(target, today, next); }
      var gross := Gross(target, asset);
      net := net + [NetReturn(gross, turnover, Rate(costs))];
      benchmark := benchmark + [BenchmarkLevel(next) / BenchmarkLevel(today) - 1.0];
      turnovers := turnovers + [turnover];
      grosses := grosses + [gross];
      trades := trades + Trades(target, previous);
      if target != map[] && 1.0 + gross == 0.0 {
        RunStaysFailed(su, costs, i, Periods(su));
        return Err(DivisionByZero);
      }
      previous := if target == map[] then map[] else Drifted(target, asset);
      final := target;
    }
    return Ok(Simulation(net, benchmark, turnovers, trades, final));
  }

  lemma AssetKeys(target: Weights, today: Session, next: Session)
    requires forall s :: s in target ==> s in today && s in next
    ensures AssetReturns(target, today, next).Keys == target.Keys
  {
  }

  lemma {:induction false} RunStaysFailed(su: Setup, costs: Costs, n: nat, m: nat)
    requires ValidSetup(su) && n <= m && (m == 0 || m < |su.dates|)
    requires Run(su, costs, n).Err?
    ensures Run(su, costs, m) == Run(su, costs, n)
    decreases m
  {
    hide Step;
    hide Dates;
    if n < m { RunStaysFailed(su, costs, n, m - 1); }
  }

  datatype Metrics = Metrics(
    observations: nat,
    totalReturn: real,
    benchmarkTotalReturn: real,
    maximumDrawdown: real,
    turnover: real,
    trades: nat,
    commission: real,
    slippage: real,
    exposure: real,
    cashWeight: real,
    final: Weights,
    path: seq<real>
  )

  ghost function Measured(l: Ledger, costs: Costs): Metrics {
    Metrics(|l.net|, Growth(l.net) - 1.0, Growth(l.benchmark) - 1.0, Drawdown.Worst(l.net), Sum(l.turnovers), l.trades,
            CostSensitivity.Commission(l.turnovers, costs), CostSensitivity.Slippage(l.turnovers, costs),
            Exposure(l.final), Cash(l.final), l.final, l.net)
  }

  datatype Report = Report(metrics: Metrics, riskContribution: Weights)

  // The risk contribution of empty final weights intersects no sets, which raises.
  ghost function Measures(r: Result<Ledger, Failure>, rows: seq<Row>, costs: Costs): Result<Report, Failure> {
    match r
    case Err(e) => Err(e)
    case Ok(l) =>
      match RiskContribution.Contribution(rows, l.final)
      case Err(_) => Err(NoHoldings)
      case Ok(shares) => Ok(Report(Measured(l, costs), shares))
  }

  method SimulationMetrics(rows: seq<Row>, count: nat, costs: Costs, strategy: Strategy, library: Library)
    returns (r: Result<Report, Failure>)
    ensures r == Measures(Simulate(rows, count, costs, strategy, library), rows, costs)
  {
    hide Simulate;
    hide RiskContribution.Contribution;
    var simulated := PortfolioReturns(rows, count, costs, strategy, library);
    ghost var whole := Simulate(rows, count, costs, strategy, library);
    if simulated.Err? { return Err(simulated.error); }
    var s := simulated.value;
    var wealth, drawdown := Drawdown.Compound(s.net);
    var benchmark := Growth(s.benchmark);
    var turnover := Sum(s.turnovers);
    var metrics := Metrics(
      |s.net|, wealth - 1.0, benchmark - 1.0, drawdown, turnover, s.trades,
      turnover * costs.commissionBps / 10000.0, turnover * costs.slippageBps / 10000.0,
      Exposure(s.final), 1.0 - Total(s.final), s.final, s.net);
    assert metrics == Measured(whole.value, costs);
    var shares := RiskContribution.Contribution(rows, s.final);
    if shares.Err? { return Err(NoHoldings); }
    return Ok(Report(metrics, shares.value));
  }
}
