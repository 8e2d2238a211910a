// One input for each way the simulation or its metrics can fail on valid data.
module FailingRuns {
  import opened Wrappers
  import opened Totals
  import opened Market
  import opened Portfolio
  import opened PortfolioSimplex
  import opened Simulator
  import opened SimulationFailures
  import opened SimulationOutcome
  import CostCounterexample

  const LONG := [Signal(1.0, true)]
  const BY_SCORE := Strategy({}, LONG, ScoreWeighted, Daily, false, 1.0, 1.0)
  const BOTH_SIDES := Strategy({}, LONG, EqualWeighted, Daily, true, 2.0, 1.0)
  const WEEKLY := Strategy({}, LONG, EqualWeighted, Weekly, false, 1.0, 1.0)

  // A row at price one.
  function Flat(date: int, symbol: int, score: real): Row {
    CostCounterexample.Flat(date, symbol, score)
  }

  lemma ScaleIsOne()
    ensures SignalScale(LONG) == 1.0
  {
    assert LONG[..0] == [];
  }

  lemma OneCandidate(su: Setup, i: nat, s: int)
    requires i + 1 < |su.dates|
    requires Candidates(su.strategy, SessionAt(su.book, su.dates[i]), SessionAt(su.book, su.dates[i + 1])) == {s}
    ensures Ranking(su, i) == [s]
  {
    hide Scores;
    assert |{s}| == 1;
  }

  lemma NoCandidate(su: Setup, i: nat)
    requires i + 1 < |su.dates|
    requires Candidates(su.strategy, SessionAt(su.book, su.dates[i]), SessionAt(su.book, su.dates[i + 1])) == {}
    ensures Ranking(su, i) == []
  {
  }

  // ---- books ----

  // A book of up to five rows, added one by one.
  lemma BookOfTwo(rows: seq<Row>)
    requires |rows| >= 2
    ensures BookOf(rows[..2]) == AddRow(AddRow(map[], rows[0]), rows[1])
  {
    assert rows[..0] == [];
    BookStep(rows, 0);
    BookStep(rows, 1);
  }

  lemma BookOfFour(rows: seq<Row>)
    requires |rows| >= 4
    ensures BookOf(rows[..4]) == AddRow(AddRow(AddRow(AddRow(map[], rows[0]), rows[1]), rows[2]), rows[3])
  {
    hide AddRow;
    BookOfTwo(rows);
    BookStep(rows, 2);
    BookStep(rows, 3);
  }

  // ---- every selected score is zero ----

  function Unscored(): seq<Row> {
    [Flat(0, 1, 0.0), Flat(1, 1, 0.0)]
  }

  lemma UnscoredBook()
    ensures BookOf(Unscored()) == map[0 := map[1 := Flat(0, 1, 0.0)], 1 := map[1 := Flat(1, 1, 0.0)]]
    ensures Dates(BookOf(Unscored())) == [0, 1]
  {
    var rows := Unscored();
    assert rows[..2] == rows;
    BookOfTwo(rows);
    OnDates(rows, [0, 1]);
  }

  lemma UnscoredFails(su: Setup, row: Row)
    requires |su.dates| == 2 && su.count == 1 && su.strategy == BY_SCORE && Ranking(su, 0) == [1]
    requires SessionAt(su.book, su.dates[0]) == map[1 := row] && row.strategyScore == Some(0.0)
    ensures FirstFailure(su, 1) == Some(DivisionByZero)
  {
    hide Ranking;
    assert AllScoresZero(su, 0);
    assert FirstFailure(su, 0) == None;
  }

  lemma ByScoreLongOnly()
    ensures LongOnly(BY_SCORE) && LongOnly(WEEKLY)
  {
    ScaleIsOne();
  }

  lemma ZeroScoresDivide(costs: Costs, library: Library)
    ensures Simulate(Unscored(), 1, costs, BY_SCORE, library) == Err(DivisionByZero)
  {
    hide BookOf;
    hide Dates;
    hide Ranking;
    var rows := Unscored();
    BookOfValid(rows);
    UnscoredBook();
    ByScoreLongOnly();
    hide LongOnly;
    var su := SetupOf(rows, 1, BY_SCORE, library);
    assert Candidates(su.strategy, su.book[0], su.book[1]) == {1};
    OneCandidate(su, 0, 1);
    UnscoredFails(su, rows[0]);
    SimulationAnswersExactly(rows, 1, costs, BY_SCORE, library);
    FirstFailureExactly(su, 1);
    hide Simulate;
    hide SessionFailure;
  }

  // ---- a long and a short side that lose exactly everything ----

  function Doubling(): seq<Row> {
    [Flat(0, 1, 2.0), Flat(0, 2, 1.0), Flat(1, 1, 1.0), Flat(1, 2, 1.0).(close := 2.0)]
  }

  lemma DoublingBook(rows: seq<Row>)
    requires |rows| == 4 && rows[0].date == rows[1].date == 0 && rows[2].date == rows[3].date == 1
    requires rows[0].symbol == rows[2].symbol == 1 && rows[1].symbol == rows[3].symbol == 2
    ensures BookOf(rows) == map[0 := map[1 := rows[0], 2 := rows[1]], 1 := map[1 := rows[2], 2 := rows[3]]]
    ensures Dates(BookOf(rows)) == [0, 1]
  {
    assert rows[..4] == rows;
    BookOfFour(rows);
    hide BookOf;
    OnDates(rows, [0, 1]);
  }

  lemma HedgeTarget(su: Setup, weights: Weights, history: History)
    requires |su.dates| == 2 && su.count == 1 && su.strategy == BOTH_SIDES
    requires |Ranking(su, 0)| == 2 && Ranking(su, 0)[0] == 1 && Ranking(su, 0)[1] == 2
    ensures Target(su, 0, weights, history) == Ok(map[1 := 1.0, 2 := -1.0])
  {
    var selected, shorted := First(Ranking(su, 0), 1), Last(Ranking(su, 0), 1);
    assert selected == [1] && shorted == [2];
    RebalanceFailsExactly(su, 0, history);
    hide Ranking;
    hide RawWeights;
    hide Total;
    assert LongShort(BOTH_SIDES, selected, shorted) == map[1 := 1.0, 2 := -1.0];
  }

  lemma HedgeLoses(asset: Weights)
    requires asset == map[1 := 0.0, 2 := 1.0]
    ensures Gross(map[1 := 1.0, 2 := -1.0], asset) == -1.0
  {
    var target: Weights := map[1 := 1.0, 2 := -1.0];
    var earned: Weights := map s | s in target :: Earned(target[s], asset[s]);
    assert earned == map[1 := 0.0][2 := -1.0];
    TotalInsert(map[1 := 0.0], 2, -1.0);
    TotalInsert(map[], 1, 0.0);
    assert map[][1 := 0.0] == map[1 := 0.0];
    assert Total(map[]) == 0.0;
  }

  lemma HedgeReturns(rows: seq<Row>)
    requires rows == Doubling()
    ensures AssetReturn(rows[0], rows[2]) == 0.0 && AssetReturn(rows[1], rows[3]) == 1.0
    ensures rows[0].inUniverse && rows[1].inUniverse
    ensures rows[0].strategyScore == Some(2.0) && rows[1].strategyScore == Some(1.0)
  {
    hide AssetReturn;
    CostCounterexample.FlatReturn(rows[0], rows[2]);
    DoubledReturn(rows[1], rows[3]);
  }

  lemma DoubledReturn(now: Row, next: Row)
    requires now.close == next.splitFactor == 1.0 && next.close == 2.0 && next.dividend == 0.0
    ensures AssetReturn(now, next) == 1.0
  {
  }

  lemma HedgeWipesOut(costs: Costs, library: Library)
    ensures Simulate(Doubling(), 1, costs, BOTH_SIDES, library) == Err(DivisionByZero)
  {
    hide Step;
    hide BookOf;
    hide Dates;
    hide AssetReturn;
    var rows := Doubling();
    BookOfValid(rows);
    DoublingBook(rows);
    HedgeReturns(rows);
    hide Doubling;
    ScaleIsOne();
    var su := SetupOf(rows, 1, BOTH_SIDES, library);
    HedgeStep(su, costs, su.book[0], su.book[1]);
    assert Run(su, costs, 0) == Ok(OPENING);
    assert Run(su, costs, 1) == Step(su, costs, 0, OPENING);
  }

  lemma HedgeStep(su: Setup, costs: Costs, today: Session, next: Session)
    requires ValidSetup(su) && su.count == 1 && su.strategy == BOTH_SIDES && |su.dates| == 2
    requires today == SessionAt(su.book, su.dates[0]) && next == SessionAt(su.book, su.dates[1])
    requires today.Keys == next.Keys == {1, 2} && today[1].inUniverse && today[2].inUniverse
    requires today[1].strategyScore == Some(2.0) && today[2].strategyScore == Some(1.0)
    requires AssetReturn(today[1], next[1]) == 0.0 && AssetReturn(today[2], next[2]) == 1.0
    ensures Step(su, costs, 0, OPENING) == Err(DivisionByZero)
  {
    hide Step;
    hide AssetReturn;
    hide Dates;
    hide Observe;
    hide Gross;
    HedgeRanking(su, today, next);
    hide Ranking;
    hide SessionAt;
    var history := Observe(OPENING.history, today);
    HedgeTarget(su, map[], history);
    hide Target;
    var target: Weights := map[1 := 1.0, 2 := -1.0];
    assert AssetReturns(target, today, next) == map[1 := 0.0, 2 := 1.0];
    HedgeLoses(AssetReturns(target, today, next));
    assert Wiped(target, today, next);
    assert WipedOut(su, 0, OPENING);
    StepFailsExactly(su, costs, 0, OPENING);
  }

  lemma HedgeRanking(su: Setup, today: Session, next: Session)
    requires |su.dates| == 2 && su.strategy == BOTH_SIDES
    requires today == SessionAt(su.book, su.dates[0]) && next == SessionAt(su.book, su.dates[1])
    requires today.Keys == next.Keys == {1, 2} && today[1].inUniverse && today[2].inUniverse
    requires today[1].strategyScore == Some(2.0) && today[2].strategyScore == Some(1.0)
    ensures |Ranking(su, 0)| == 2 && Ranking(su, 0)[0] == 1 && Ranking(su, 0)[1] == 2
  {
    CostCounterexample.BestOfTwo(BOTH_SIDES, today, next, 1, 2);
    var r := Ranking(su, 0);
    assert r[1] in r;
    assert r[1] in Candidates(BOTH_SIDES, today, next);
    assert r[1] != r[0];
  }

  // ---- a held symbol without a row, and one that stops trading ----

  // Symbol 1 is bought first; the second session has no candidates, the third only
  // symbol 2, and symbol 1 is back in the fourth.
  function Skipping(): seq<Row> {
    [Flat(0, 1, 1.0), Flat(1, 1, 1.0), Flat(2, 2, 1.0), Flat(3, 1, 1.0), Flat(3, 2, 1.0)]
  }

  // Symbol 1 is bought first and stops trading while symbol 2 can be bought.
  function Leaving(): seq<Row> {
    [Flat(0, 1, 1.0), Flat(1, 1, 1.0), Flat(1, 2, 1.0), Flat(2, 2, 1.0)]
  }

  lemma SkippingBook(rows: seq<Row>)
    requires |rows| == 5 && rows[0].symbol == rows[1].symbol == rows[3].symbol == 1 &&
             rows[2].symbol == rows[4].symbol == 2
    requires rows[0].date == 0 && rows[1].date == 1 && rows[2].date == 2 && rows[3].date == rows[4].date == 3
    ensures BookOf(rows) == map[0 := map[1 := rows[0]], 1 := map[1 := rows[1]], 2 := map[2 := rows[2]],
                                3 := map[1 := rows[3], 2 := rows[4]]]
    ensures Dates(BookOf(rows)) == [0, 1, 2, 3]
  {
    hide BookOf;
    hide AddRow;
    hide Dates;
    assert rows[..5] == rows;
    BookOfFour(rows);
    FourDays(rows);
    BookStep(rows, 4);
    var four := BookOf(rows[..4]);
    LastDay(four, rows);
    assert BookOf(rows) == AddRow(four, rows[4]);
    FourDates(rows);
  }

  lemma FourDates(rows: seq<Row>)
    requires BookOf(rows).Keys == Members([0, 1, 2, 3])
    ensures Dates(BookOf(rows)) == [0, 1, 2, 3]
  {
    hide BookOf;
    hide Dates;
    OnDates(rows, [0, 1, 2, 3]);
  }

  lemma FourDays(rows: seq<Row>)
    requires |rows| >= 4 && rows[0].symbol == rows[1].symbol == rows[3].symbol == 1 && rows[2].symbol == 2
    requires rows[0].date == 0 && rows[1].date == 1 && rows[2].date == 2 && rows[3].date == 3
    ensures AddRow(AddRow(AddRow(AddRow(map[], rows[0]), rows[1]), rows[2]), rows[3]) ==
            map[0 := map[1 := rows[0]], 1 := map[1 := rows[1]], 2 := map[2 := rows[2]], 3 := map[1 := rows[3]]]
  {
  }

  lemma LastDay(book: Book, rows: seq<Row>)
    requires |rows| == 5 && rows[4].date == 3 && rows[4].symbol == 2
    requires book == map[0 := map[1 := rows[0]], 1 := map[1 := rows[1]], 2 := map[2 := rows[2]], 3 := map[1 := rows[3]]]
    ensures AddRow(book, rows[4]) ==
            map[0 := map[1 := rows[0]], 1 := map[1 := rows[1]], 2 := map[2 := rows[2]],
              3 := map[1 := rows[3], 2 := rows[4]]]
    ensures AddRow(book, rows[4]).Keys == Members([0, 1, 2, 3])
  {
  }

  lemma LeavingBook(rows: seq<Row>)
    requires |rows| == 4 && rows[0].symbol == rows[1].symbol == 1 && rows[2].symbol == rows[3].symbol == 2
    requires rows[0].date == 0 && rows[1].date == rows[2].date == 1 && rows[3].date == 2
    ensures BookOf(rows) == map[0 := map[1 := rows[0]], 1 := map[1 := rows[1], 2 := rows[2]], 2 := map[2 := rows[3]]]
    ensures Dates(BookOf(rows)) == [0, 1, 2]
  {
    hide BookOf;
    hide AddRow;
    hide Dates;
    assert rows[..4] == rows;
    BookOfFour(rows);
    ThreeDays(rows);
    ThreeDates(rows);
  }

  lemma ThreeDays(rows: seq<Row>)
    requires |rows| == 4 && rows[0].symbol == rows[1].symbol == 1 && rows[2].symbol == rows[3].symbol == 2
    requires rows[0].date == 0 && rows[1].date == rows[2].date == 1 && rows[3].date == 2
    ensures var book := AddRow(AddRow(AddRow(AddRow(map[], rows[0]), rows[1]), rows[2]), rows[3]);
            && book == map[0 := map[1 := rows[0]], 1 := map[1 := rows[1], 2 := rows[2]], 2 := map[2 := rows[3]]]
            && book.Keys == Members([0, 1, 2])
  {
  }

  lemma ThreeDates(rows: seq<Row>)
    requires BookOf(rows).Keys == Members([0, 1, 2])
    ensures Dates(BookOf(rows)) == [0, 1, 2]
  {
    hide BookOf;
    hide Dates;
    OnDates(rows, [0, 1, 2]);
  }

  lemma SkippingRankings(su: Setup, rows: seq<Row>)
    requires rows == Skipping() && su.strategy == WEEKLY && su.dates == [0, 1, 2, 3]
    requires su.book == map[0 := map[1 := rows[0]], 1 := map[1 := rows[1]], 2 := map[2 := rows[2]],
                            3 := map[1 := rows[3], 2 := rows[4]]]
    ensures Ranking(su, 0) == [1] && Ranking(su, 1) == [] && Ranking(su, 2) == [2]
  {
    assert Candidates(WEEKLY, su.book[0], su.book[1]) == {1};
    assert Candidates(WEEKLY, su.book[1], su.book[2]) == {};
    assert Candidates(WEEKLY, su.book[2], su.book[3]) == {2};
    hide Candidates;
    OneCandidate(su, 0, 1);
    NoCandidate(su, 1);
    OneCandidate(su, 2, 2);
  }

  // A symbol that trades tomorrow but not today is held after a session without candidates.
  lemma HeldIsMissing(su: Setup)
    requires |su.dates| == 4 && su.count == 1 && su.strategy == WEEKLY
    requires RebalanceDue(su, 2) == Ok(false)
    requires Ranking(su, 0) == [1] && Ranking(su, 1) == [] && Ranking(su, 2) != []
    requires 1 !in SessionAt(su.book, su.dates[2]) && 1 in SessionAt(su.book, su.dates[3])
    ensures FirstFailure(su, 3) == Some(MissingRow)
  {
    hide Ranking;
    FirstBuys(su, 1);
    assert Holdings(su, 2) == Holdings(su, 1);
    assert SessionFailure(su, 1) == None;
    hide Holdings;
    hide RebalanceDue;
    assert 1 in Trading(Holdings(su, 2), SessionAt(su.book, su.dates[3]));
    assert SessionFailure(su, 2) == Some(MissingRow);
    hide SessionFailure;
    assert FirstFailure(su, 0) == None && FirstFailure(su, 1) == None && FirstFailure(su, 2) == None;
  }

  // The first session buys its one candidate.
  lemma FirstBuys(su: Setup, s: int)
    requires |su.dates| >= 2 && su.count == 1 && su.strategy == WEEKLY && Ranking(su, 0) == [s]
    ensures Holdings(su, 1) == {s} && SessionFailure(su, 0) == None
  {
    hide Ranking;
    assert Selected(su, 0) == [s];
    assert Holdings(su, 0) == {};
  }

  lemma HeldSymbolIsMissing(costs: Costs, library: Library)
    requires library.isoWeek(2) == library.isoWeek(1)
    ensures Simulate(Skipping(), 1, costs, WEEKLY, library) == Err(MissingRow)
  {
    hide BookOf;
    hide Dates;
    hide Ranking;
    var rows := Skipping();
    BookOfValid(rows);
    SkippingBook(rows);
    ByScoreLongOnly();
    hide LongOnly;
    var su := SetupOf(rows, 1, WEEKLY, library);
    SkippingRankings(su, rows);
    HeldIsMissing(su);
    SimulationAnswersExactly(rows, 1, costs, WEEKLY, library);
    FirstFailureExactly(su, 3);
    hide Simulate;
    hide SessionFailure;
    hide FirstFailure;
    hide Holdings;
  }

  lemma LeavingRankings(su: Setup, rows: seq<Row>)
    requires rows == Leaving() && su.strategy == WEEKLY && su.dates == [0, 1, 2]
    requires su.book == map[0 := map[1 := rows[0]], 1 := map[1 := rows[1], 2 := rows[2]], 2 := map[2 := rows[3]]]
    ensures Ranking(su, 0) == [1] && Ranking(su, 1) == [2]
  {
    assert Candidates(WEEKLY, su.book[0], su.book[1]) == {1};
    assert Candidates(WEEKLY, su.book[1], su.book[2]) == {2};
    hide Candidates;
    OneCandidate(su, 0, 1);
    OneCandidate(su, 1, 2);
  }

  // Nothing held trades tomorrow.
  lemma HeldIsGone(su: Setup)
    requires |su.dates| == 3 && su.count == 1 && su.strategy == WEEKLY
    requires RebalanceDue(su, 1) == Ok(false)
    requires Ranking(su, 0) == [1] && Ranking(su, 1) != []
    requires 1 !in SessionAt(su.book, su.dates[2])
    ensures Holdings(su, 2) == {} && SomeTraded(su, 2)
    ensures SessionFailure(su, 0) == None && SessionFailure(su, 1) == None
  {
    hide Ranking;
    FirstBuys(su, 1);
    assert Trading({1}, SessionAt(su.book, su.dates[2])) == {};
  }

  lemma NothingIsHeld(costs: Costs, library: Library)
    requires library.isoWeek(1) == library.isoWeek(0)
    ensures Simulate(Leaving(), 1, costs, WEEKLY, library).Ok?
    ensures Measures(Simulate(Leaving(), 1, costs, WEEKLY, library), Leaving(), costs) == Err(NoHoldings)
  {
    hide BookOf;
    hide Dates;
    hide Ranking;
    var rows := Leaving();
    BookOfValid(rows);
    LeavingBook(rows);
    ByScoreLongOnly();
    hide LongOnly;
    var su := SetupOf(rows, 1, WEEKLY, library);
    LeavingRankings(su, rows);
    HeldIsGone(su);
    SimulationAnswersExactly(rows, 1, costs, WEEKLY, library);
    MetricsAnswerExactly(rows, 1, costs, WEEKLY, library);
    hide Simulate;
    hide SessionFailure;
    hide Holdings;
    hide SomeTraded;
  }
}
