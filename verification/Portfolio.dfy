// The portfolio simulation of the quant engine, one trading session at a time.
// This is the specification that the loop in Simulator.dfy is proved against.
module Portfolio {
  import opened Wrappers
  import opened Totals
  import opened Market

  datatype Weighting = EqualWeighted | ScoreWeighted | VolatilityWeighted | OtherWeighting

  datatype Frequency = Daily | Weekly | Monthly | Quarterly | OtherFrequency

  datatype Signal = Signal(weight: real, long: bool)

  // Absent fields of a strategy document hold the engine's defaults.
  datatype Strategy = Strategy(
    universe: set<int>,
    signals: seq<Signal>,
    weighting: Weighting,
    frequency: Frequency,
    longShort: bool,
    leverageLimit: real,
    positionLimit: real
  )

  datatype Costs = Costs(commissionBps: real, slippageBps: real)

  // Library calls the engine makes: calendar fields of a date and the sample
  // standard deviation of a list. Nothing is assumed of them.
  datatype Library = Library(
    isoWeek: int -> (int, int),
    year: int -> int,
    month: int -> int,
    deviation: seq<real> -> real
  )

  datatype Failure =
    | BadSelectionCount
    | BadConstraints
    | UnsupportedWeighting
    | UnsupportedFrequency
    | DivisionByZero
    | MissingRow
    | TooFewSessions
    | NoHoldings

  datatype Setup = Setup(book: Book, dates: seq<int>, count: nat, strategy: Strategy, library: Library)

  function Rate(costs: Costs): real {
    (costs.commissionBps + costs.slippageBps) / 10000.0
  }

  function NetReturn(gross: real, turnover: real, rate: real): real {
    gross - turnover * rate
  }

  function SignalScale(signals: seq<Signal>): real {
    if signals == [] then 0.0
    else
      var last := signals[|signals| - 1];
      SignalScale(signals[..|signals| - 1]) + (if last.long then last.weight else -last.weight)
  }

  function Score(strategy: Strategy, row: Row): real {
    match row.strategyScore
    case Some(value) => value
    case None => SignalScale(strategy.signals) * row.close
  }

  function Scores(strategy: Strategy, session: Session): map<int, real> {
    map s | s in session :: Score(strategy, session[s])
  }

  function RebalanceDue(su: Setup, i: nat): Result<bool, Failure>
    requires i < |su.dates|
  {
    if i == 0 || su.strategy.frequency == Daily then Ok(true)
    else
      var current, previous := su.dates[i], su.dates[i - 1];
      match su.strategy.frequency
      case Weekly => Ok(su.library.isoWeek(current) != su.library.isoWeek(previous))
      case Monthly => Ok((su.library.year(current), su.library.month(current)) !=
                         (su.library.year(previous), su.library.month(previous)))
      case Quarterly => Ok((su.library.year(current), (su.library.month(current) - 1) / 3) !=
                           (su.library.year(previous), (su.library.month(previous) - 1) / 3))
      case _ => Err(UnsupportedFrequency)
  }

  // ---- selection ----

  // Higher score first, ties by symbol.
  predicate Ahead(scores: map<int, real>, x: int, y: int)
    requires x in scores && y in scores
  {
    scores[x] > scores[y] || (scores[x] == scores[y] && x < y)
  }

  lemma {:induction false} BestExists(s: set<int>, scores: map<int, real>)
    requires s != {} && s <= scores.Keys
    ensures exists x :: x in s && forall y :: y in s && y != x ==> Ahead(scores, x, y)
    decreases |s|
  {
    Inhabited(s);
    var z :| z in s;
    var rest := s - {z};
    assert forall y :: y in s <==> y == z || y in rest;
    if rest == {} {
      assert z in s && forall y :: y in s && y != z ==> Ahead(scores, z, y);
    } else {
      BestExists(rest, scores);
      var x :| x in rest && forall y :: y in rest && y != x ==> Ahead(scores, x, y);
      var best := if Ahead(scores, z, x) then z else x;
      assert best in s && forall y :: y in s && y != best ==> Ahead(scores, best, y);
    }
  }

  function Best(s: set<int>, scores: map<int, real>): (x: int)
    requires s != {} && s <= scores.Keys
    ensures x in s && forall y :: y in s && y != x ==> Ahead(scores, x, y)
  {
    BestExists(s, scores);
    var x :| x in s && forall y :: y in s && y != x ==> Ahead(scores, x, y);
    x
  }

  // sorted(candidates, key = (-score, symbol))
  function Ranked(s: set<int>, scores: map<int, real>): (r: seq<int>)
    requires s <= scores.Keys
    ensures forall x :: x in r <==> x in s
    ensures |r| == |s|
    ensures Distinct(r)
    decreases |s|
  {
    if s == {} then []
    else
      var x := Best(s, scores);
      var rest := Ranked(s - {x}, scores);
      assert forall y :: y in s <==> y == x || y in rest;
      assert forall j :: 0 <= j < |rest| ==> rest[j] in rest;
      [x] + rest
  }

  function Candidates(strategy: Strategy, today: Session, next: Session): set<int> {
    set s | s in today && s in next && today[s].inUniverse && (strategy.universe == {} || s in strategy.universe)
  }

  function Ranking(su: Setup, i: nat): seq<int>
    requires i + 1 < |su.dates|
  {
    var today, next := SessionAt(su.book, su.dates[i]), SessionAt(su.book, su.dates[i + 1]);
    Ranked(Candidates(su.strategy, today, next), Scores(su.strategy, today))
  }

  function First(r: seq<int>, k: nat): seq<int> {
    r[..if k <= |r| then k else |r|]
  }

  function Last(r: seq<int>, k: nat): seq<int> {
    r[if k <= |r| then |r| - k else 0..]
  }

  // ---- weighting ----

  type History = map<int, seq<Price>>

  function HistoryOf(history: History, s: int): seq<Price> {
    if s in history then history[s] else []
  }

  function Observe(history: History, today: Session): History {
    map s | s in history.Keys + today.Keys ::
      HistoryOf(history, s) + (if s in today then [today[s].close] else [])
  }

  function Change(before: Price, after: Price): real {
    after / before - 1.0
  }

  function Changes(history: seq<Price>): seq<real> {
    seq(if history == [] then 0 else |history| - 1,
        p requires 0 <= p && p + 1 < |history| => Change(history[p], history[p + 1]))
  }

  function Volatility(library: Library, history: seq<Price>): real {
    var changes := Changes(history);
    if |changes| > 1 then library.deviation(changes) else 1.0
  }

  const FLOOR: real := 0.000000000001

  function RawWeights(su: Setup, today: Session, selected: seq<int>, history: History): Result<Weights, Failure> {
    match su.strategy.weighting
    case ScoreWeighted =>
      Ok(map s | s in selected && s in today :: Abs(Score(su.strategy, today[s])))
    case VolatilityWeighted =>
      Ok(map s | s in selected :: 1.0 / Max(Volatility(su.library, HistoryOf(history, s)), FLOOR))
    case EqualWeighted =>
      Ok(map s | s in selected :: 1.0)
    case OtherWeighting => Err(UnsupportedWeighting)
  }

  function Share(limit: real, value: real, total: real): real
    requires total != 0.0
  {
    limit * value / total
  }

  function Capped(strategy: Strategy, raw: Weights): Weights
    requires Total(raw) != 0.0
  {
    map s | s in raw :: Min(strategy.positionLimit, Share(strategy.leverageLimit, raw[s], Total(raw)))
  }

  // Half the leverage limit, split evenly.
  function HalfShare(strategy: Strategy, count: nat): real
    requires count > 0
  {
    Min(strategy.positionLimit, strategy.leverageLimit / 2.0 / count as real)
  }

  function LongShort(strategy: Strategy, selected: seq<int>, shorted: seq<int>): Weights
    requires selected != [] && shorted != []
  {
    map s | s in selected + shorted ::
      if s in selected then HalfShare(strategy, |selected|) else -HalfShare(strategy, |shorted|)
  }

  function Held(weights: Weights, next: Session): Weights {
    map s | s in weights && s in next :: weights[s]
  }

  function Rebalanced(su: Setup, i: nat, history: History): Result<Weights, Failure>
    requires i + 1 < |su.dates| && Ranking(su, i) != [] && su.count > 0
  {
    var today := SessionAt(su.book, su.dates[i]);
    var selected := First(Ranking(su, i), su.count);
    var raw := RawWeights(su, today, selected, history);
    match raw
    case Err(e) => Err(e)
    case Ok(raw) =>
      if Total(raw) == 0.0 then Err(DivisionByZero)
      else if su.strategy.longShort then Ok(LongShort(su.strategy, selected, Last(Ranking(su, i), su.count)))
      else Ok(Capped(su.strategy, raw))
  }

  function Target(su: Setup, i: nat, weights: Weights, history: History): Result<Weights, Failure>
    requires i + 1 < |su.dates| && Ranking(su, i) != [] && su.count > 0
  {
    match RebalanceDue(su, i)
    case Err(e) => Err(e)
    case Ok(due) =>
      if !due && weights != map[] then Ok(Held(weights, SessionAt(su.book, su.dates[i + 1])))
      else Rebalanced(su, i, history)
  }

  // ---- accounting ----

  function Weight(weights: Weights, s: int): real {
    if s in weights then weights[s] else 0.0
  }

  function Cash(weights: Weights): real {
    1.0 - Total(weights)
  }

  // Gross exposure: long and short weight alike.
  function Exposure(weights: Weights): real {
    Total(map s | s in weights :: Abs(weights[s]))
  }

  function Moves(target: Weights, weights: Weights): Weights {
    map s | s in weights.Keys + target.Keys :: Abs(Weight(target, s) - Weight(weights, s))
  }

  function Turnover(target: Weights, weights: Weights): real {
    0.5 * Total(Moves(target, weights)) + 0.5 * Abs(Cash(target) - Cash(weights))
  }

  function Trades(target: Weights, weights: Weights): nat {
    |set s | s in weights.Keys + target.Keys && Weight(target, s) != Weight(weights, s)|
  }

  function AssetReturn(now: Row, next: Row): real {
    (next.close * next.splitFactor + next.dividend) / now.close - 1.0
  }

  function AssetReturns(target: Weights, today: Session, next: Session): Weights
    requires forall s :: s in target ==> s in today && s in next
  {
    map s | s in target :: AssetReturn(today[s], next[s])
  }

  function Earned(weight: real, asset: real): real {
    weight * asset
  }

  function Gross(target: Weights, asset: Weights): real
    requires target.Keys == asset.Keys
  {
    Total(map s | s in target :: Earned(target[s], asset[s]))
  }

  function Drift(weight: real, asset: real, growth: real): real
    requires growth != 0.0
  {
    weight * (1.0 + asset) / growth
  }

  function Drifted(target: Weights, asset: Weights): Weights
    requires target.Keys == asset.Keys && 1.0 + Gross(target, asset) != 0.0
  {
    map s | s in target :: Drift(target[s], asset[s], 1.0 + Gross(target, asset))
  }

  function BenchmarkLevel(session: Session): real
    requires session.Keys != {}
  {
    Total(map s | s in session :: session[s].benchmarkClose) / |session.Keys| as real
  }

  lemma BenchmarkLevelPositive(session: Session)
    requires session.Keys != {}
    ensures BenchmarkLevel(session) > 0.0
  {
    var closes := map s | s in session :: session[s].benchmarkClose;
    assert closes.Keys == session.Keys;
    Inhabited(session.Keys);
    var s :| s in session.Keys;
    TotalPositive(closes, s);
  }

  // ---- one session, a run of sessions, the whole simulation ----

  datatype Ledger = Ledger(
    net: seq<real>,
    benchmark: seq<real>,
    turnovers: seq<real>,
    gross: seq<real>,
    trades: nat,
    weights: Weights,
    final: Weights,
    history: History
  )

  const OPENING := Ledger([], [], [], [], 0, map[], map[], map[])

  // Sessions are those of the book and hold validated rows.
  ghost predicate ValidSetup(su: Setup) {
    && su.count > 0
    && ValidBook(su.book)
    && su.dates == Dates(su.book)
  }

  ghost predicate Tradable(target: Weights, next: Session) {
    forall s :: s in target ==> s in next
  }

  lemma RankingMembers(su: Setup, i: nat)
    requires i + 1 < |su.dates|
    ensures forall s :: s in Ranking(su, i) ==>
              s in SessionAt(su.book, su.dates[i]) && s in SessionAt(su.book, su.dates[i + 1])
  {
  }

  lemma RebalancedMembers(su: Setup, i: nat, history: History)
    requires i + 1 < |su.dates| && Ranking(su, i) != [] && su.count > 0
    requires Rebalanced(su, i, history).Ok?
    ensures forall s :: s in Rebalanced(su, i, history).value ==> s in Ranking(su, i)
  {
  }

  lemma TargetTradable(su: Setup, i: nat, weights: Weights, history: History)
    requires i + 1 < |su.dates| && Ranking(su, i) != [] && su.count > 0
    requires Target(su, i, weights, history).Ok?
    ensures Tradable(Target(su, i, weights, history).value, SessionAt(su.book, su.dates[i + 1]))
  {
    RankingMembers(su, i);
    if Rebalanced(su, i, history).Ok? {
      RebalancedMembers(su, i, history);
    }
  }

  lemma ValidSessionAt(su: Setup, i: nat)
    requires ValidSetup(su) && i < |su.dates|
    ensures su.dates[i] in su.book
    ensures SessionAt(su.book, su.dates[i]).Keys != {}
  {
  }

  function Settle(su: Setup, costs: Costs, i: nat, ledger: Ledger, history: History,
                  target: Weights): Result<Ledger, Failure>
    requires ValidSetup(su) && i + 1 < |su.dates|
    requires Tradable(target, SessionAt(su.book, su.dates[i + 1]))
  {
    var today, next := SessionAt(su.book, su.dates[i]), SessionAt(su.book, su.dates[i + 1]);
    ValidSessionAt(su, i);
    ValidSessionAt(su, i + 1);
    BenchmarkLevelPositive(today);
    if exists s :: s in target && s !in today then Err(MissingRow)
    else
      var asset := AssetReturns(target, today, next);
      var gross := Gross(target, asset);
      var turnover := Turnover(target, ledger.weights);
      if target != map[] && 1.0 + gross == 0.0 then Err(DivisionByZero)
      else
        Ok(Ledger(
          ledger.net + [NetReturn(gross, turnover, Rate(costs))],
          ledger.benchmark + [BenchmarkLevel(next) / BenchmarkLevel(today) - 1.0],
          ledger.turnovers + [turnover],
          ledger.gross + [gross],
          ledger.trades + Trades(target, ledger.weights),
          if target == map[] then map[] else Drifted(target, asset),
          target,
          history))
  }

  function Step(su: Setup, costs: Costs, i: nat, ledger: Ledger): Result<Ledger, Failure>
    requires ValidSetup(su) && i + 1 < |su.dates|
  {
    var history := Observe(ledger.history, SessionAt(su.book, su.dates[i]));
    if Ranking(su, i) == [] then Ok(ledger.(history := history))
    else
      match Target(su, i, ledger.weights, history)
      case Err(e) => Err(e)
      case Ok(target) =>
        TargetTradable(su, i, ledger.weights, history);
        Settle(su, costs, i, ledger, history, target)
  }

  function Run(su: Setup, costs: Costs, n: nat): Result<Ledger, Failure>
    requires ValidSetup(su) && (n == 0 || n < |su.dates|)
  {
    if n == 0 then Ok(OPENING)
    else
      match Run(su, costs, n - 1)
      case Err(e) => Err(e)
      case Ok(ledger) => Step(su, costs, n - 1, ledger)
  }

  predicate ValidStrategy(strategy: Strategy) {
    && SignalScale(strategy.signals) != 0.0
    && strategy.leverageLimit > 0.0
    && 0.0 < strategy.positionLimit <= strategy.leverageLimit
  }

  function SetupOf(rows: seq<Row>, count: nat, strategy: Strategy, library: Library): Setup {
    Setup(BookOf(rows), Dates(BookOf(rows)), count, strategy, library)
  }

  function Periods(su: Setup): nat {
    if su.dates == [] then 0 else |su.dates| - 1
  }

  function Simulate(rows: seq<Row>, count: nat, costs: Costs, strategy: Strategy,
                    library: Library): Result<Ledger, Failure>
  {
    if count < 1 then Err(BadSelectionCount)
    else if !ValidStrategy(strategy) then Err(BadConstraints)
    else
      BookOfValid(rows);
      var su := SetupOf(rows, count, strategy, library);
      match Run(su, costs, Periods(su))
      case Err(e) => Err(e)
      case Ok(ledger) => if ledger.net == [] then Err(TooFewSessions) else Ok(ledger)
  }
}
