// A family of inputs on which doubling the costs looks better. Two symbols are bought one
// after the other with everything, each keeps only a part of its price, and then the second
// one grows. Both full switches cost more than they leave, so the two losing factors of the
// doubled rate multiply to more than those of the base rate.
module CostCounterexample {
  import opened Wrappers
  import opened Totals
  import opened Market
  import opened Portfolio
  import opened Simulator
  import opened ValidationChecks

  // A row at price one, which its split factor turns into a gain or a loss.
  function Paying(date: int, symbol: int, score: real, split: Price): Row {
    Row(date, symbol, 1.0, 1.0, split, 0.0, true, Some(score))
  }

  function Flat(date: int, symbol: int, score: real): Row {
    Paying(date, symbol, score, 1.0)
  }

  // Symbol 1 has the better score first, symbol 2 after that. The first keeps the given
  // part from day 0 to 1, the second from day 1 to 2, and then grows.
  function Tape(kept: Price, growth: Price): seq<Row> {
    [Flat(0, 1, 2.0), Flat(0, 2, 1.0),
     Paying(1, 1, 1.0, kept), Flat(1, 2, 2.0),
     Flat(2, 1, 1.0), Paying(2, 2, 2.0, kept),
     Flat(3, 1, 1.0), Paying(3, 2, 1.0, growth)]
  }

  const BEST_ONE := Strategy({}, [Signal(1.0, true)], EqualWeighted, Daily, false, 1.0, 1.0)

  // ---- its book ----

  function Day(rows: seq<Row>, d: nat): Session
    requires 2 * d + 1 < |rows|
  {
    map[1 := rows[2 * d], 2 := rows[2 * d + 1]]
  }

  predicate Paired(rows: seq<Row>) {
    |rows| == 8 && forall i :: 0 <= i < 8 ==> rows[i].date == i / 2 && rows[i].symbol == 1 + i % 2
  }

  lemma TapePaired(kept: Price, growth: Price)
    ensures Paired(Tape(kept, growth))
  {
  }

  lemma PairDay(rows: seq<Row>, d: nat)
    requires Paired(rows) && d < 4 && d !in BookOf(rows[..2 * d])
    ensures BookOf(rows[..2 * d + 2]) == BookOf(rows[..2 * d])[d := Day(rows, d)]
  {
    hide BookOf;
    BookStep(rows, 2 * d);
    BookStep(rows, 2 * d + 1);
  }

  lemma TapeBook(rows: seq<Row>)
    requires Paired(rows)
    ensures BookOf(rows) == map[0 := Day(rows, 0), 1 := Day(rows, 1), 2 := Day(rows, 2), 3 := Day(rows, 3)]
    ensures Dates(BookOf(rows)) == [0, 1, 2, 3]
  {
    NoRows(rows);
    hide BookOf;
    hide Day;
    hide Dates;
    assert rows[..8] == rows;
    PairDay(rows, 0);
    PairDay(rows, 1);
    PairDay(rows, 2);
    PairDay(rows, 3);
    OnDates(rows, [0, 1, 2, 3]);
  }

  lemma NoRows(rows: seq<Row>)
    ensures BookOf(rows[..0]) == map[]
  {
  }

  // ---- all in one symbol ----

  lemma BestOfTwo(strategy: Strategy, today: Session, next: Session, first: int, second: int)
    requires first != second && today.Keys == next.Keys == {first, second} && strategy.universe == {}
    requires today[first].inUniverse && today[second].inUniverse
    requires Score(strategy, today[first]) > Score(strategy, today[second])
    ensures Candidates(strategy, today, next) == {first, second}
    ensures var r := Ranked(Candidates(strategy, today, next), Scores(strategy, today)); |r| == 2 && r[0] == first
  {
  }

  lemma AllIn(s: int, x: real)
    ensures Total(map[s := x]) == x
    ensures Total(map[s := 1.0]) == 1.0
    ensures Capped(BEST_ONE, map[s := 1.0]) == map[s := 1.0]
  {
    TotalInsert(map[], s, x);
    TotalInsert(map[], s, 1.0);
  }

  // What buying a symbol with everything turns over.
  function Switched(weights: Weights, s: int): real {
    if weights == map[s := 1.0] then 0.0 else 1.0
  }

  ghost predicate AllOrNothing(weights: Weights, s: int, t: int) {
    weights == map[] || weights == map[s := 1.0] || weights == map[t := 1.0]
  }

  lemma FullSwitch(weights: Weights, s: int, t: int)
    requires s != t && AllOrNothing(weights, s, t)
    ensures Turnover(map[s := 1.0], weights) == Switched(weights, s)
  {
    var target: Weights := map[s := 1.0];
    AllIn(s, 1.0);
    AllIn(t, 1.0);
    AllIn(s, 0.0);
    if weights == map[] {
      assert Moves(target, weights) == map[s := 1.0];
    } else if weights == target {
      assert Moves(target, weights) == map[s := 0.0];
    } else {
      TotalInsert(map[t := 1.0], s, 1.0);
      assert Moves(target, weights) == map[t := 1.0][s := 1.0];
    }
  }

  lemma AllGrows(s: int, asset: real)
    requires 1.0 + asset > 0.0
    ensures Gross(map[s := 1.0], map[s := asset]) == asset
    ensures Drifted(map[s := 1.0], map[s := asset]) == map[s := 1.0]
  {
    var target: Weights, assets: Weights := map[s := 1.0], map[s := asset];
    AllIn(s, asset);
    assert (map k | k in target :: Earned(target[k], assets[k])) == map[s := asset];
    assert Drift(1.0, asset, 1.0 + asset) == 1.0;
  }

  lemma Settlement(su: Setup, costs: Costs, i: nat, ledger: Ledger, history: History, s: int, t: int, asset: real)
    requires ValidSetup(su) && i + 1 < |su.dates| && s != t && 1.0 + asset > 0.0
    requires AllOrNothing(ledger.weights, s, t)
    requires s in SessionAt(su.book, su.dates[i]) && s in SessionAt(su.book, su.dates[i + 1])
    requires AssetReturn(SessionAt(su.book, su.dates[i])[s], SessionAt(su.book, su.dates[i + 1])[s]) == asset
    ensures var after := Settle(su, costs, i, ledger, history, map[s := 1.0]);
            && after.Ok? && after.value.weights == map[s := 1.0]
            && after.value.net == ledger.net + [NetReturn(asset, Switched(ledger.weights, s), Rate(costs))]
  {
    hide BenchmarkLevel;
    hide AssetReturn;
    hide Turnover;
    hide Rate;
    hide Total;
    hide Gross;
    hide Drifted;
    hide NetReturn;
    hide Trades;
    hide SessionAt;
    hide Dates;
    hide Switched;
    hide AllOrNothing;
    var today, next := SessionAt(su.book, su.dates[i]), SessionAt(su.book, su.dates[i + 1]);
    var target: Weights := map[s := 1.0];
    FullSwitch(ledger.weights, s, t);
    AllGrows(s, asset);
    assert AssetReturns(target, today, next) == map[s := asset];
  }

  // The better of the two symbols is s, and it yields the given return.
  ghost predicate Prefers(today: Session, next: Session, s: int, t: int, asset: real) {
    && s != t && today.Keys == next.Keys == {s, t}
    && today[s].inUniverse && today[t].inUniverse
    && Score(BEST_ONE, today[s]) > Score(BEST_ONE, today[t])
    && AssetReturn(today[s], next[s]) == asset > -1.0
  }

  lemma PreferredTarget(su: Setup, i: nat, weights: Weights, history: History, s: int, t: int, asset: real)
    requires i + 1 < |su.dates| && su.count == 1 && su.strategy == BEST_ONE
    requires Prefers(SessionAt(su.book, su.dates[i]), SessionAt(su.book, su.dates[i + 1]), s, t, asset)
    ensures Ranking(su, i) != []
    ensures Target(su, i, weights, history) == Ok(map[s := 1.0])
  {
    hide Score;
    hide AssetReturn;
    hide Total;
    hide SessionAt;
    hide Capped;
    var today, next := SessionAt(su.book, su.dates[i]), SessionAt(su.book, su.dates[i + 1]);
    BestOfTwo(BEST_ONE, today, next, s, t);
    hide Ranked;
    hide Candidates;
    hide Scores;
    var selected := First(Ranking(su, i), 1);
    assert selected == [s];
    AllIn(s, 1.0);
    assert (map k | k in selected :: 1.0) == map[s := 1.0];
  }

  lemma PreferredStep(su: Setup, costs: Costs, i: nat, ledger: Ledger, s: int, t: int, asset: real)
    requires ValidSetup(su) && i + 1 < |su.dates| && su.count == 1 && su.strategy == BEST_ONE
    requires AllOrNothing(ledger.weights, s, t)
    requires Prefers(SessionAt(su.book, su.dates[i]), SessionAt(su.book, su.dates[i + 1]), s, t, asset)
    ensures var after := Step(su, costs, i, ledger);
            && after.Ok? && after.value.weights == map[s := 1.0]
            && after.value.net == ledger.net + [NetReturn(asset, Switched(ledger.weights, s), Rate(costs))]
  {
    hide Settle;
    hide Rate;
    hide Ranking;
    hide Target;
    hide Observe;
    hide Dates;
    hide NetReturn;
    hide Switched;
    hide AllOrNothing;
    var history := Observe(ledger.history, SessionAt(su.book, su.dates[i]));
    PreferredTarget(su, i, ledger.weights, history, s, t, asset);
    Settlement(su, costs, i, ledger, history, s, t, asset);
  }

  // ---- the three sessions ----

  lemma FlatReturn(now: Row, next: Row)
    requires now.close == next.close == next.splitFactor == 1.0 && next.dividend == 0.0
    ensures AssetReturn(now, next) == 0.0
  {
  }

  lemma FlatScore(row: Row, score: real)
    requires row.strategyScore == Some(score)
    ensures Score(BEST_ONE, row) == score
  {
  }

  lemma SplitReturn(now: Row, next: Row)
    requires now.close == next.close == 1.0 && next.dividend == 0.0
    ensures AssetReturn(now, next) == next.splitFactor - 1.0 > -1.0
  {
  }

  lemma SplitPrefers(today: Session, next: Session, s: int, t: int, high: real, low: real)
    requires s != t && high > low && today.Keys == next.Keys == {s, t}
    requires today[s].inUniverse && today[t].inUniverse
    requires today[s].strategyScore == Some(high) && today[t].strategyScore == Some(low)
    requires today[s].close == next[s].close == 1.0 && next[s].dividend == 0.0
    ensures Prefers(today, next, s, t, next[s].splitFactor - 1.0)
  {
    hide Score;
    hide AssetReturn;
    SplitReturn(today[s], next[s]);
    FlatScore(today[s], high);
    FlatScore(today[t], low);
  }

  lemma TapePrefers(rows: seq<Row>, kept: Price, growth: Price)
    requires rows == Tape(kept, growth)
    ensures Prefers(Day(rows, 0), Day(rows, 1), 1, 2, kept - 1.0)
    ensures Prefers(Day(rows, 1), Day(rows, 2), 2, 1, kept - 1.0)
    ensures Prefers(Day(rows, 2), Day(rows, 3), 2, 1, growth - 1.0)
  {
    hide Prefers;
    SplitPrefers(Day(rows, 0), Day(rows, 1), 1, 2, 2.0, 1.0);
    SplitPrefers(Day(rows, 1), Day(rows, 2), 2, 1, 2.0, 1.0);
    SplitPrefers(Day(rows, 2), Day(rows, 3), 2, 1, 2.0, 1.0);
  }

  // The returns under any rate.
  function TapeReturns(kept: real, growth: real, rate: real): seq<real> {
    [NetReturn(kept - 1.0, 1.0, rate), NetReturn(kept - 1.0, 1.0, rate), NetReturn(growth - 1.0, 0.0, rate)]
  }

  lemma TapeSteps(su: Setup, costs: Costs, a: real, b: real, c: real)
    requires ValidSetup(su) && su.dates == [0, 1, 2, 3] && su.count == 1 && su.strategy == BEST_ONE
    requires Prefers(SessionAt(su.book, 0), SessionAt(su.book, 1), 1, 2, a)
    requires Prefers(SessionAt(su.book, 1), SessionAt(su.book, 2), 2, 1, b)
    requires Prefers(SessionAt(su.book, 2), SessionAt(su.book, 3), 2, 1, c)
    ensures Run(su, costs, 3).Ok?
    ensures Run(su, costs, 3).value.net ==
            [NetReturn(a, 1.0, Rate(costs)), NetReturn(b, 1.0, Rate(costs)), NetReturn(c, 0.0, Rate(costs))]
  {
    hide Step;
    hide Rate;
    hide NetReturn;
    hide Prefers;
    hide SessionAt;
    hide ValidSetup;
    PreferredStep(su, costs, 0, OPENING, 1, 2, a);
    var one := Step(su, costs, 0, OPENING).value;
    PreferredStep(su, costs, 1, one, 2, 1, b);
    var two := Step(su, costs, 1, one).value;
    PreferredStep(su, costs, 2, two, 2, 1, c);
    Different(1, 2);
    assert Run(su, costs, 0) == Ok(OPENING);
    assert Run(su, costs, 1) == Ok(one);
    assert Run(su, costs, 2) == Ok(two);
  }

  lemma Different(s: int, t: int)
    requires s != t
    ensures Switched(map[s := 1.0], t) == 1.0 && Switched(map[], s) == 1.0
  {
    assert s in map[s := 1.0] && s !in map[t := 1.0];
    var none: Weights := map[];
    assert s in map[s := 1.0] && s !in none;
  }

  lemma TapeRun(kept: Price, growth: Price, costs: Costs, library: Library)
    ensures var r := Simulate(Tape(kept, growth), 1, costs, BEST_ONE, library);
            r.Ok? && r.value.net == TapeReturns(kept, growth, Rate(costs))
  {
    hide Run;
    hide Rate;
    hide NetReturn;
    hide BookOf;
    hide Dates;
    hide Prefers;
    var rows := Tape(kept, growth);
    TapePaired(kept, growth);
    TapeBook(rows);
    TapePrefers(rows, kept, growth);
    hide Tape;
    hide Day;
    BookOfValid(rows);
    var su := SetupOf(rows, 1, BEST_ONE, library);
    TapeSteps(su, costs, kept - 1.0, kept - 1.0, growth - 1.0);
    assert SignalScale(BEST_ONE.signals) == 1.0 by { assert SignalScale([]) == 0.0; }
  }

  lemma TapeGrowth(kept: real, growth: real, rate: real)
    ensures Growth(TapeReturns(kept, growth, rate)) == (kept - rate) * (kept - rate) * growth
  {
    var path := TapeReturns(kept, growth, rate);
    assert path[..2][..1] == path[..1] && path[..1][..0] == [];
    assert Growth(path[..1]) == kept - rate;
    assert Growth(path[..2]) == (kept - rate) * (kept - rate);
    assert path[..|path| - 1] == path[..2];
  }

  // A concrete one: nothing is kept by the base rate of one, and all is back by twice that.
  lemma DearerCanLookBetter(library: Library)
    ensures var costs := Costs(10000.0, 0.0);
            var base := Simulate(Tape(1.0, 1.0), 1, costs, BEST_ONE, library);
            var stressed := Simulate(Tape(1.0, 1.0), 1, Doubled(costs), BEST_ONE, library);
            && NonNegativeCosts(costs) && base.Ok? && stressed.Ok?
            && Measured(base.value, costs).totalReturn == -1.0
            && Measured(stressed.value, Doubled(costs)).totalReturn == 0.0
            && !CostInsensitive(Measured(base.value, costs), Measured(stressed.value, Doubled(costs)))
  {
    hide Simulate;
    hide Growth;
    hide Sum;
    hide Exposure;
    hide Total;
    hide Tape;
    hide TapeReturns;
    var costs := Costs(10000.0, 0.0);
    TapeRun(1.0, 1.0, costs, library);
    TapeRun(1.0, 1.0, Doubled(costs), library);
    assert Rate(costs) == 1.0 && Rate(Doubled(costs)) == 2.0;
    TapeGrowth(1.0, 1.0, 1.0);
    TapeGrowth(1.0, 1.0, 2.0);
  }
}
