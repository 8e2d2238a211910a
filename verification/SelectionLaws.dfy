// Which rows a session buys, how much of each, and what becomes of the money, told
// from the closes, the signals and the calendar.
module SelectionLaws {
  import opened Wrappers
  import opened Totals
  import opened Market
  import opened Portfolio

  // ---- the lean of the signals ----

  // The weight of all signals of one direction.
  function Weighing(signals: seq<Signal>, long: bool): real {
    if signals == [] then 0.0
    else
      var last := signals[|signals| - 1];
      Weighing(signals[..|signals| - 1], long) + (if last.long == long then last.weight else 0.0)
  }

  // How far the long signals outweigh the short ones.
  function Lean(strategy: Strategy): real {
    Weighing(strategy.signals, true) - Weighing(strategy.signals, false)
  }

  lemma {:induction false} ScaleIsLean(signals: seq<Signal>)
    ensures SignalScale(signals) == Weighing(signals, true) - Weighing(signals, false)
  {
    if signals != [] { ScaleIsLean(signals[..|signals| - 1]); }
  }

  lemma ScoreOfClose(strategy: Strategy, row: Row)
    ensures row.strategyScore.None? ==> Score(strategy, row) == row.close * Lean(strategy)
    ensures row.strategyScore.Some? ==> Score(strategy, row) == row.strategyScore.value
  {
    ScaleIsLean(strategy.signals);
  }

  predicate Refusal(e: Failure) {
    e == BadSelectionCount || e == BadConstraints
  }

  lemma {:induction false} NoRunRefuses(su: Setup, costs: Costs, n: nat)
    requires ValidSetup(su) && (n == 0 || n < |su.dates|)
    ensures Run(su, costs, n).Err? ==> !Refusal(Run(su, costs, n).error)
  {
    hide Step;
    if n > 0 {
      NoRunRefuses(su, costs, n - 1);
      if Run(su, costs, n - 1).Ok? { NoStepRefuses(su, costs, n - 1, Run(su, costs, n - 1).value); }
    }
  }

  lemma NoStepRefuses(su: Setup, costs: Costs, i: nat, ledger: Ledger)
    requires ValidSetup(su) && i + 1 < |su.dates|
    ensures Step(su, costs, i, ledger).Err? ==> !Refusal(Step(su, costs, i, ledger).error)
  {
    assert su.count > 0;
    hide Ranking;
    hide Settle;
    hide ValidSetup;
    hide SessionAt;
    hide Target;
    hide Observe;
    var history := Observe(ledger.history, SessionAt(su.book, su.dates[i]));
    if Ranking(su, i) != [] {
      NoTargetRefuses(su, i, ledger.weights, history);
      if Target(su, i, ledger.weights, history).Ok? {
        TargetTradable(su, i, ledger.weights, history);
        NoSettlementRefuses(su, costs, i, ledger, history, Target(su, i, ledger.weights, history).value);
      }
    }
  }

  lemma NoTargetRefuses(su: Setup, i: nat, weights: Weights, history: History)
    requires i + 1 < |su.dates| && Ranking(su, i) != [] && su.count > 0
    ensures Target(su, i, weights, history).Err? ==> !Refusal(Target(su, i, weights, history).error)
  {
    hide Ranking;
    hide SessionAt;
    hide Total;
    hide Capped;
    hide LongShort;
    hide Volatility;
    hide Score;
    hide HistoryOf;
    hide Abs;
  }

  lemma NoSettlementRefuses(su: Setup, costs: Costs, i: nat, ledger: Ledger, history: History, target: Weights)
    requires ValidSetup(su) && i + 1 < |su.dates|
    requires Tradable(target, SessionAt(su.book, su.dates[i + 1]))
    ensures Settle(su, costs, i, ledger, history, target).Err? ==>
              !Refusal(Settle(su, costs, i, ledger, history, target).error)
  {
    hide ValidSetup;
    hide Drifted;
    hide Gross;
    hide Turnover;
    hide Trades;
    hide BenchmarkLevel;
    hide AssetReturns;
    hide NetReturn;
    hide SessionAt;
  }

  // A simulation is refused exactly for a count below one or, then, for a strategy whose
  // long and short signals weigh the same, that may take no leverage, or whose position
  // limit is not positive or exceeds the leverage limit; the rows do not matter.
  lemma RefusedExactly(rows: seq<Row>, count: nat, costs: Costs, strategy: Strategy, library: Library)
    ensures var r := Simulate(rows, count, costs, strategy, library);
            && (r == Err(BadSelectionCount) <==> count == 0)
            && (r == Err(BadConstraints) <==>
                  && count > 0
                  && (Weighing(strategy.signals, true) == Weighing(strategy.signals, false) ||
                      strategy.leverageLimit <= 0.0 || strategy.positionLimit <= 0.0 ||
                      strategy.positionLimit > strategy.leverageLimit))
  {
    hide Run;
    hide BookOf;
    hide Dates;
    hide SignalScale;
    hide Weighing;
    ScaleIsLean(strategy.signals);
    BookOfValid(rows);
    var su := SetupOf(rows, count, strategy, library);
    if count > 0 { NoRunRefuses(su, costs, Periods(su)); }
  }

  // ---- which symbols come first ----

  predicate Eligible(strategy: Strategy, today: Session, next: Session, s: int) {
    && s in today && s in next
    && today[s].inUniverse
    && (strategy.universe != {} ==> s in strategy.universe)
  }

  function Standing(strategy: Strategy, row: Row): real {
    match row.strategyScore
    case Some(value) => value
    case None => row.close * Lean(strategy)
  }

  // Without strategy scores the dearer symbol is preferred when the signals lean
  // long, and the cheaper one when they lean short; among equals the first symbol.
  predicate Preferred(strategy: Strategy, today: Session, x: int, y: int)
    requires x in today && y in today
  {
    if today[x].strategyScore.Some? || today[y].strategyScore.Some? then
      Standing(strategy, today[x]) > Standing(strategy, today[y]) ||
      (Standing(strategy, today[x]) == Standing(strategy, today[y]) && x < y)
    else if Lean(strategy) > 0.0 then
      today[x].close > today[y].close || (today[x].close == today[y].close && x < y)
    else if Lean(strategy) < 0.0 then
      today[x].close < today[y].close || (today[x].close == today[y].close && x < y)
    else x < y
  }

  lemma ScaledOrder(a: real, b: real, f: real)
    ensures f > 0.0 ==> (a * f > b * f <==> a > b) && (a * f == b * f <==> a == b)
    ensures f < 0.0 ==> (a * f > b * f <==> a < b) && (a * f == b * f <==> a == b)
  {
    if f > 0.0 {
      if a > b { ScaledUp(a, b, f); } else if a < b { ScaledUp(b, a, f); }
    } else if f < 0.0 {
      if a > b { ScaledUp(a, b, -f); } else if a < b { ScaledUp(b, a, -f); }
    }
  }

  lemma ScaledUp(a: real, b: real, f: real)
    requires a > b && f > 0.0
    ensures a * f > b * f
  {
    assert (a - b) * f > 0.0;
  }

  lemma AheadPrefers(strategy: Strategy, today: Session, x: int, y: int)
    requires x in today && y in today
    ensures Ahead(Scores(strategy, today), x, y) <==> Preferred(strategy, today, x, y)
  {
    ScoreOfClose(strategy, today[x]);
    ScoreOfClose(strategy, today[y]);
    var f := Lean(strategy);
    ScaledOrder(today[x].close, today[y].close, f);
    hide Lean;
    hide Score;
  }

  lemma {:induction false} RankedOrdered(s: set<int>, scores: map<int, real>)
    requires s <= scores.Keys
    ensures forall j, k :: 0 <= j < k < |Ranked(s, scores)| ==>
              Ahead(scores, Ranked(s, scores)[j], Ranked(s, scores)[k])
    decreases |s|
  {
    hide Ahead;
    if s != {} {
      var x := Best(s, scores);
      var r, rest := Ranked(s, scores), Ranked(s - {x}, scores);
      RankedOrdered(s - {x}, scores);
      forall j, k | 0 <= j < k < |r|
        ensures Ahead(scores, r[j], r[k])
      {
        assert r[k] == rest[k - 1] && rest[k - 1] in rest;
        if j > 0 { assert Ahead(scores, rest[j - 1], rest[k - 1]); }
      }
    }
  }

  lemma RankingEligible(su: Setup, i: nat)
    requires i + 1 < |su.dates|
    ensures var today, next := SessionAt(su.book, su.dates[i]), SessionAt(su.book, su.dates[i + 1]);
            && (forall s :: s in Ranking(su, i) <==> Eligible(su.strategy, today, next, s))
            && Distinct(Ranking(su, i))
            && (forall j, k :: 0 <= j < k < |Ranking(su, i)| ==>
                  Ranking(su, i)[j] in today && Ranking(su, i)[k] in today &&
                  Preferred(su.strategy, today, Ranking(su, i)[j], Ranking(su, i)[k]))
  {
    hide Preferred;
    hide Score;
    hide Ranked;
    var today, next := SessionAt(su.book, su.dates[i]), SessionAt(su.book, su.dates[i + 1]);
    var candidates, scores := Candidates(su.strategy, today, next), Scores(su.strategy, today);
    RankedOrdered(candidates, scores);
    var r := Ranking(su, i);
    forall j, k | 0 <= j < k < |r|
      ensures r[j] in today && r[k] in today && Preferred(su.strategy, today, r[j], r[k])
    {
      assert r[j] in r && r[k] in r;
      AheadPrefers(su.strategy, today, r[j], r[k]);
    }
  }

  // ---- when a session rebalances ----

  predicate SameQuarter(m: int, n: int) {
    || (m <= 3 && n <= 3)
    || (4 <= m <= 6 && 4 <= n <= 6)
    || (7 <= m <= 9 && 7 <= n <= 9)
    || (10 <= m && 10 <= n)
  }

  // The session is the first of its week, month or quarter.
  predicate OpensPeriod(su: Setup, i: nat)
    requires i < |su.dates|
  {
    if i == 0 || su.strategy.frequency == Daily then true
    else
      var l, d, e := su.library, su.dates[i], su.dates[i - 1];
      match su.strategy.frequency
      case Weekly => l.isoWeek(d) != l.isoWeek(e)
      case Monthly => l.year(d) != l.year(e) || l.month(d) != l.month(e)
      case Quarterly => l.year(d) != l.year(e) || !SameQuarter(l.month(d), l.month(e))
      case _ => false
  }

  // Months are numbered from one to twelve.
  ghost predicate Calendar(su: Setup) {
    forall j :: 0 <= j < |su.dates| ==> 1 <= su.library.month(su.dates[j]) <= 12
  }

  lemma DueExactly(su: Setup, i: nat)
    requires i < |su.dates| && Calendar(su)
    ensures RebalanceDue(su, i).Err? <==> su.strategy.frequency == OtherFrequency && i > 0
    ensures RebalanceDue(su, i).Ok? ==> (RebalanceDue(su, i).value <==> OpensPeriod(su, i))
  {
    if i > 0 {
      assert 1 <= su.library.month(su.dates[i]) <= 12;
      assert 1 <= su.library.month(su.dates[i - 1]) <= 12;
    }
  }

  // Within a week, month or quarter a portfolio is held: what still trades keeps its
  // weight, and nothing else is bought.
  lemma HeldWithinPeriod(su: Setup, i: nat, weights: Weights, history: History)
    requires i + 1 < |su.dates| && Ranking(su, i) != [] && su.count > 0 && Calendar(su)
    requires !OpensPeriod(su, i) && su.strategy.frequency != OtherFrequency && weights != map[]
    ensures var next := SessionAt(su.book, su.dates[i + 1]);
            Target(su, i, weights, history) == Ok(map s | s in weights && s in next :: weights[s])
  {
    hide Ranking;
    DueExactly(su, i);
  }

  // A held session in which everything trades on costs nothing and trades nothing.
  lemma HeldSessionIsFree(su: Setup, costs: Costs, i: nat, ledger: Ledger)
    requires ValidSetup(su) && i + 1 < |su.dates| && Ranking(su, i) != [] && Calendar(su)
    requires !OpensPeriod(su, i) && su.strategy.frequency != OtherFrequency && ledger.weights != map[]
    requires ledger.weights.Keys <= SessionAt(su.book, su.dates[i + 1]).Keys
    requires Step(su, costs, i, ledger).Ok?
    ensures var after := Step(su, costs, i, ledger).value;
            && after.final == ledger.weights && after.trades == ledger.trades
            && after.turnovers == ledger.turnovers + [0.0]
            && |after.net| == |ledger.net| + 1 && |after.gross| == |ledger.gross| + 1
            && after.net[|ledger.net|] == after.gross[|ledger.gross|]
  {
    assert su.count > 0;
    hide Ranking;
    hide ValidSetup;
    hide Settle;
    hide Calendar;
    hide OpensPeriod;
    hide Target;
    hide SessionAt;
    var history := Observe(ledger.history, SessionAt(su.book, su.dates[i]));
    hide Observe;
    HeldWithinPeriod(su, i, ledger.weights, history);
    AllKept(ledger.weights, SessionAt(su.book, su.dates[i + 1]));
    TargetTradable(su, i, ledger.weights, history);
    SettledHold(su, costs, i, ledger, history);
  }

  lemma AllKept(weights: Weights, next: Session)
    requires weights.Keys <= next.Keys
    ensures (map s | s in weights && s in next :: weights[s]) == weights
  {
  }

  lemma SettledHold(su: Setup, costs: Costs, i: nat, ledger: Ledger, history: History)
    requires ValidSetup(su) && i + 1 < |su.dates|
    requires Tradable(ledger.weights, SessionAt(su.book, su.dates[i + 1]))
    requires Settle(su, costs, i, ledger, history, ledger.weights).Ok?
    ensures var after := Settle(su, costs, i, ledger, history, ledger.weights).value;
            && after.final == ledger.weights && after.trades == ledger.trades
            && after.turnovers == ledger.turnovers + [0.0]
            && |after.net| == |ledger.net| + 1 && |after.gross| == |ledger.gross| + 1
            && after.net[|ledger.net|] == after.gross[|ledger.gross|]
  {
    hide ValidSetup;
    hide BenchmarkLevel;
    hide Gross;
    hide Drifted;
    hide AssetReturns;
    hide Turnover;
    hide Trades;
    hide Rate;
    NothingMoves(ledger.weights);
  }

  lemma NothingMoves(weights: Weights)
    ensures Turnover(weights, weights) == 0.0 && Trades(weights, weights) == 0
  {
    var moves := Moves(weights, weights);
    TotalUniform(moves, 0.0);
    assert (set s | s in weights.Keys + weights.Keys && Weight(weights, s) != Weight(weights, s)) == {};
  }

  // ---- what a rebalancing session buys ----

  // Nothing is held yet, or a new period begins.
  predicate Buys(su: Setup, i: nat, weights: Weights)
    requires i < |su.dates|
  {
    (i == 0 || su.strategy.frequency != OtherFrequency) && (weights == map[] || OpensPeriod(su, i))
  }

  lemma BuyingTarget(su: Setup, i: nat, weights: Weights, history: History)
    requires i + 1 < |su.dates| && Ranking(su, i) != [] && su.count > 0 && Calendar(su)
    requires Buys(su, i, weights)
    ensures Target(su, i, weights, history) == Rebalanced(su, i, history)
  {
    hide Ranking;
    hide Rebalanced;
    DueExactly(su, i);
  }

  // The bought symbols are eligible, as many as asked for or as there are, and each is
  // preferred to every eligible symbol that is not bought.
  ghost predicate BuysBest(su: Setup, i: nat, bought: set<int>)
    requires i + 1 < |su.dates|
  {
    var today, next := SessionAt(su.book, su.dates[i]), SessionAt(su.book, su.dates[i + 1]);
    && (forall x :: x in bought ==> Eligible(su.strategy, today, next, x))
    && (forall x, y :: x in bought && y !in bought && Eligible(su.strategy, today, next, y) ==>
          x in today && Preferred(su.strategy, today, x, y))
    && (|bought| == su.count ||
        (|bought| < su.count && forall y :: Eligible(su.strategy, today, next, y) ==> y in bought))
  }

  lemma FirstCount(r: seq<int>, count: nat)
    requires Distinct(r)
    ensures |Members(First(r, count))| == |First(r, count)| == if count <= |r| then count else |r|
    ensures forall x :: x in First(r, count) ==> x in r
    ensures |r| <= count ==> First(r, count) == r
  {
    var k := if count <= |r| then count else |r|;
    DistinctSlice(r, 0, k);
    DistinctCount(r[0..k]);
    assert r[0..k] == First(r, count);
  }

  // Whoever is in a prefix comes before whoever is not.
  lemma PrefixFirst(r: seq<int>, count: nat, x: int, y: int) returns (a: nat, b: nat)
    requires x in First(r, count) && y in r && y !in First(r, count)
    ensures a < b < |r| && r[a] == x && r[b] == y
  {
    var first := First(r, count);
    a :| 0 <= a < |first| && first[a] == x;
    forall e | 0 <= e < |first|
      ensures r[e] != y
    {
      assert first[e] == r[e];
    }
    b :| 0 <= b < |r| && r[b] == y;
  }

  lemma FirstBest(su: Setup, i: nat)
    requires i + 1 < |su.dates|
    ensures BuysBest(su, i, Members(First(Ranking(su, i), su.count)))
  {
    RankingEligible(su, i);
    hide Ranking;
    hide Preferred;
    var today, next := SessionAt(su.book, su.dates[i]), SessionAt(su.book, su.dates[i + 1]);
    var r := Ranking(su, i);
    FirstCount(r, su.count);
    hide Distinct;
    hide First;
    hide Eligible;
    var bought := Members(First(r, su.count));
    forall x, y | x in bought && y !in bought && Eligible(su.strategy, today, next, y)
      ensures x in today && Preferred(su.strategy, today, x, y)
    {
      var a, b := PrefixFirst(r, su.count, x, y);
    }
  }

  // A long-only session that buys holds exactly the best symbols.
  lemma LongOnlyBuysBest(su: Setup, i: nat, weights: Weights, history: History)
    requires i + 1 < |su.dates| && Ranking(su, i) != [] && su.count > 0 && Calendar(su)
    requires Buys(su, i, weights) && !su.strategy.longShort
    requires Target(su, i, weights, history).Ok?
    ensures BuysBest(su, i, Target(su, i, weights, history).value.Keys)
  {
    hide Ranking;
    hide BuysBest;
    hide Target;
    hide Rebalanced;
    hide RawWeights;
    hide First;
    hide Total;
    hide Capped;
    hide Calendar;
    hide Buys;
    hide SessionAt;
    BuyingTarget(su, i, weights, history);
    FirstBest(su, i);
    CappedTarget(su, i, history);
    var selected := First(Ranking(su, i), su.count);
    var raw := RawWeights(su, SessionAt(su.book, su.dates[i]), selected, history);
    RawKeys(su, SessionAt(su.book, su.dates[i]), selected, history);
    CappedShares(su.strategy, raw.value);
  }

  lemma RawKeys(su: Setup, today: Session, selected: seq<int>, history: History)
    requires RawWeights(su, today, selected, history).Ok? && forall s :: s in selected ==> s in today
    ensures RawWeights(su, today, selected, history).value.Keys == Members(selected)
  {
    hide Volatility;
    hide Score;
    hide Abs;
    forall s
      ensures s in RawWeights(su, today, selected, history).value <==> s in Members(selected)
    {
      assert s in selected ==> s in today;
    }
  }

  // ---- how much it buys ----

  // Equal weighting splits the leverage limit evenly and caps each part.
  lemma EqualParts(su: Setup, i: nat, weights: Weights, history: History)
    requires i + 1 < |su.dates| && Ranking(su, i) != [] && su.count > 0 && Calendar(su)
    requires Buys(su, i, weights) && !su.strategy.longShort && su.strategy.weighting == EqualWeighted
    requires Target(su, i, weights, history).Ok?
    ensures var t := Target(su, i, weights, history).value;
            && t.Keys != {}
            && forall s :: s in t ==>
                 t[s] == Min(su.strategy.positionLimit, su.strategy.leverageLimit / |t.Keys| as real)
  {
    hide Ranking;
    BuyingTarget(su, i, weights, history);
    hide Target;
    hide Total;
    var selected := First(Ranking(su, i), su.count);
    var raw := RawWeights(su, SessionAt(su.book, su.dates[i]), selected, history).value;
    assert selected[0] in raw;
    TotalUniform(raw, 1.0);
    var t := Rebalanced(su, i, history).value;
    assert t.Keys == raw.Keys;
  }

  lemma AbsScaled(close: real, f: real)
    requires close > 0.0
    ensures Abs(close * f) == Abs(f) * close
  {
  }

  lemma SharesAlike(limit: real, raw: real, total: real, close: real, closes: real, f: real)
    requires f > 0.0 && closes > 0.0 && Combines(raw, close, close, f, 0.0) && Combines(total, closes, closes, f, 0.0)
    ensures total != 0.0 && Share(limit, raw, total) == Share(limit, close, closes)
  {
    assert total == f * closes > 0.0;
    var q := Share(limit, close, closes);
    assert q * closes == limit * close;
    assert q * total == limit * raw;
  }

  // Raw weights that are the closes, scaled, give the shares of the closes.
  lemma ScaledShares(strategy: Strategy, raw: Weights, closes: Weights, f: real)
    requires f > 0.0 && raw.Keys == closes.Keys != {}
    requires forall s :: s in raw ==> closes[s] > 0.0 && Combines(raw[s], closes[s], closes[s], f, 0.0)
    ensures Total(raw) != 0.0 && Total(closes) > 0.0
    ensures Capped(strategy, raw) == Capped(strategy, closes)
  {
    hide Total;
    hide Combines;
    hide Share;
    Inhabited(closes.Keys);
    var k :| k in closes.Keys;
    TotalPositive(closes, k);
    TotalLinear(raw, closes, closes, f, 0.0);
    forall s | s in raw
      ensures Total(raw) != 0.0
      ensures Share(strategy.leverageLimit, raw[s], Total(raw)) ==
              Share(strategy.leverageLimit, closes[s], Total(closes))
    {
      SharesAlike(strategy.leverageLimit, raw[s], Total(raw), closes[s], Total(closes), f);
    }
    assert k in raw;
  }

  lemma CappedShares(strategy: Strategy, raw: Weights)
    requires Total(raw) != 0.0
    ensures Capped(strategy, raw).Keys == raw.Keys
    ensures forall s :: s in raw ==>
              Capped(strategy, raw)[s] ==
                Min(strategy.positionLimit, Share(strategy.leverageLimit, raw[s], Total(raw)))
  {
    hide Total;
  }

  function Priced(today: Session, symbols: set<int>): Weights {
    map s | s in symbols && s in today :: today[s].close
  }

  lemma RawByClose(su: Setup, today: Session, selected: seq<int>, history: History)
    requires su.strategy.weighting == ScoreWeighted && forall s :: s in selected ==> s in today
    requires forall s :: s in today ==> today[s].strategyScore.None?
    ensures RawWeights(su, today, selected, history).Ok?
    ensures var raw := RawWeights(su, today, selected, history).value;
            && raw.Keys == Priced(today, Members(selected)).Keys == Members(selected)
            && forall s :: s in raw ==>
                 Priced(today, Members(selected))[s] > 0.0 &&
                 Combines(raw[s], today[s].close, today[s].close, Abs(Lean(su.strategy)), 0.0)
  {
    hide Abs;
    hide Lean;
    hide Score;
    hide Combines;
    forall s | s in selected
      ensures Combines(Abs(Score(su.strategy, today[s])), today[s].close, today[s].close, Abs(Lean(su.strategy)), 0.0)
    {
      ScoreScaled(su.strategy, today[s]);
    }
    forall s
      ensures s in Priced(today, Members(selected)).Keys <==> s in Members(selected)
    {
      assert s in Members(selected) ==> s in today;
    }
  }

  lemma CappedTarget(su: Setup, i: nat, history: History)
    requires i + 1 < |su.dates| && Ranking(su, i) != [] && su.count > 0
    requires !su.strategy.longShort && Rebalanced(su, i, history).Ok?
    ensures var selected := First(Ranking(su, i), su.count);
            var raw := RawWeights(su, SessionAt(su.book, su.dates[i]), selected, history);
            && selected != [] && (forall s :: s in selected ==> s in SessionAt(su.book, su.dates[i]))
            && raw.Ok? && Total(raw.value) != 0.0 && Rebalanced(su, i, history).value == Capped(su.strategy, raw.value)
  {
    RankingMembers(su, i);
    hide Ranking;
    hide RawWeights;
    hide Total;
    hide Capped;
    forall s | s in First(Ranking(su, i), su.count)
      ensures s in SessionAt(su.book, su.dates[i])
    {
      assert s in Ranking(su, i);
    }
  }

  // Score weighting without strategy scores is weighting by close: however the signals
  // lean, they cancel out of the shares.
  lemma ScoreWeighsByClose(su: Setup, i: nat, weights: Weights, history: History)
    requires i + 1 < |su.dates| && Ranking(su, i) != [] && su.count > 0 && Calendar(su)
    requires Buys(su, i, weights) && !su.strategy.longShort && su.strategy.weighting == ScoreWeighted
    requires Target(su, i, weights, history).Ok? && Lean(su.strategy) != 0.0
    requires forall s :: s in SessionAt(su.book, su.dates[i]) ==>
               SessionAt(su.book, su.dates[i])[s].strategyScore.None?
    ensures var t := Target(su, i, weights, history).value;
            var closes := Priced(SessionAt(su.book, su.dates[i]), t.Keys);
            && t.Keys == closes.Keys && Total(closes) > 0.0
            && (forall s :: s in t ==>
                  t[s] == Min(su.strategy.positionLimit,
                              Share(su.strategy.leverageLimit, closes[s], Total(closes))))
  {
    hide Ranking;
    hide Target;
    hide Rebalanced;
    hide RawWeights;
    hide First;
    hide Total;
    hide Combines;
    hide Share;
    hide Abs;
    hide Lean;
    hide Calendar;
    hide Buys;
    hide SessionAt;
    hide Capped;
    BuyingTarget(su, i, weights, history);
    CappedTarget(su, i, history);
    var today := SessionAt(su.book, su.dates[i]);
    var selected := First(Ranking(su, i), su.count);
    var raw, closes := RawWeights(su, today, selected, history), Priced(today, Members(selected));
    RawByClose(su, today, selected, history);
    AbsPositive(Lean(su.strategy));
    assert selected[0] in Members(selected);
    ScaledShares(su.strategy, raw.value, closes, Abs(Lean(su.strategy)));
    CappedShares(su.strategy, closes);
  }

  lemma AbsPositive(f: real)
    requires f != 0.0
    ensures Abs(f) > 0.0
  {
  }

  lemma ScoreScaled(strategy: Strategy, row: Row)
    requires row.strategyScore.None?
    ensures Combines(Abs(Score(strategy, row)), row.close, row.close, Abs(Lean(strategy)), 0.0)
  {
    ScoreOfClose(strategy, row);
    hide Score;
    hide Lean;
    AbsScaled(row.close, Lean(strategy));
  }

  // ---- long and short ----

  function Longs(weights: Weights): set<int> {
    set s | s in weights && weights[s] > 0.0
  }

  function Shorts(weights: Weights): set<int> {
    set s | s in weights && weights[s] < 0.0
  }

  // The other end of the ranking, without what is bought.
  lemma LastOnly(r: seq<int>, count: nat, x: int, y: int) returns (a: nat, b: nat)
    requires Distinct(r) && count > 0 && x in r && (x in First(r, count) || x !in Last(r, count))
    requires y in Last(r, count) && y !in First(r, count)
    ensures a < b < |r| && r[a] == x && r[b] == y
  {
    var first, last := First(r, count), Last(r, count);
    var c :| 0 <= c < |last| && last[c] == y;
    b := |r| - |last| + c;
    assert r[b] == y;
    if x in first {
      a :| 0 <= a < |first| && first[a] == x;
      forall e | 0 <= e < |first|
        ensures r[e] != y
      {
        assert first[e] == r[e];
      }
    } else {
      forall e | |r| - |last| <= e < |r|
        ensures r[e] != x
      {
        assert last[e - (|r| - |last|)] == r[e];
      }
      a :| 0 <= a < |r| && r[a] == x;
    }
  }

  // The worst symbols are sold: as many as asked for or as there are, less those bought.
  ghost predicate SellsWorst(su: Setup, i: nat, bought: set<int>, sold: set<int>)
    requires i + 1 < |su.dates|
  {
    var today, next := SessionAt(su.book, su.dates[i]), SessionAt(su.book, su.dates[i + 1]);
    && (forall y :: y in sold ==> Eligible(su.strategy, today, next, y) && y !in bought)
    && (forall x, y :: Eligible(su.strategy, today, next, x) && x !in sold && y in sold ==>
          y in today && Preferred(su.strategy, today, x, y))
  }

  lemma LastWorst(su: Setup, i: nat)
    requires i + 1 < |su.dates| && su.count > 0
    ensures var bought := Members(First(Ranking(su, i), su.count));
            SellsWorst(su, i, bought, Members(Last(Ranking(su, i), su.count)) - bought)
  {
    RankingEligible(su, i);
    hide Ranking;
    hide Preferred;
    var today, next := SessionAt(su.book, su.dates[i]), SessionAt(su.book, su.dates[i + 1]);
    var r := Ranking(su, i);
    assert forall s :: s in Last(r, su.count) ==> s in r;
    hide Distinct;
    hide First;
    hide Last;
    hide Eligible;
    var bought := Members(First(r, su.count));
    var sold := Members(Last(r, su.count)) - bought;
    forall x, y | Eligible(su.strategy, today, next, x) && x !in sold && y in sold
      ensures y in today && Preferred(su.strategy, today, x, y)
    {
      var a, b := LastOnly(r, su.count, x, y);
    }
  }

  lemma LongShortParts(strategy: Strategy, longs: seq<int>, shorts: seq<int>)
    requires longs != [] && shorts != [] && ValidStrategy(strategy)
    ensures var t := LongShort(strategy, longs, shorts);
            && Longs(t) == Members(longs) && Shorts(t) == Members(shorts) - Members(longs)
            && t.Keys == Longs(t) + Shorts(t)
            && (forall s :: s in Longs(t) ==> t[s] == HalfShare(strategy, |longs|))
            && (forall s :: s in Shorts(t) ==> t[s] == -HalfShare(strategy, |shorts|))
  {
    HalfPositive(strategy, |longs|);
    HalfPositive(strategy, |shorts|);
    hide HalfShare;
    hide ValidStrategy;
  }

  lemma EndsTarget(su: Setup, i: nat, history: History)
    requires i + 1 < |su.dates| && Ranking(su, i) != [] && su.count > 0
    requires su.strategy.longShort && Rebalanced(su, i, history).Ok?
    ensures var longs, shorts := First(Ranking(su, i), su.count), Last(Ranking(su, i), su.count);
            && |longs| == |shorts| > 0
            && Rebalanced(su, i, history) == Ok(LongShort(su.strategy, longs, shorts))
  {
    hide Ranking;
    hide RawWeights;
    hide Total;
    hide LongShort;
  }

  lemma LongShortHalves(su: Setup, i: nat, weights: Weights, history: History)
    requires i + 1 < |su.dates| && Ranking(su, i) != [] && su.count > 0 && Calendar(su)
    requires Buys(su, i, weights) && su.strategy.longShort && ValidStrategy(su.strategy)
    requires Target(su, i, weights, history).Ok?
    ensures var t := Target(su, i, weights, history).value;
            && t.Keys == Longs(t) + Shorts(t)
            && BuysBest(su, i, Longs(t)) && SellsWorst(su, i, Longs(t), Shorts(t))
            && |Longs(t)| > 0
            && (forall s :: s in Longs(t) ==> t[s] == HalfShare(su.strategy, |Longs(t)|))
            && (forall s :: s in Shorts(t) ==> t[s] == -HalfShare(su.strategy, |Longs(t)|))
  {
    hide Ranking;
    hide Target;
    hide Rebalanced;
    hide First;
    hide Last;
    hide Preferred;
    hide BuysBest;
    hide SellsWorst;
    hide Eligible;
    hide HalfShare;
    hide LongShort;
    hide Distinct;
    hide Calendar;
    hide Buys;
    hide ValidStrategy;
    hide SessionAt;
    BuyingTarget(su, i, weights, history);
    RankingEligible(su, i);
    FirstBest(su, i);
    LastWorst(su, i);
    EndsTarget(su, i, history);
    var r := Ranking(su, i);
    LongShortParts(su.strategy, First(r, su.count), Last(r, su.count));
    FirstCount(r, su.count);
  }

  // A long-short session that buys is long the best symbols and short the worst. Half
  // the leverage limit is split over either end of the ranking, however many of the
  // symbols there are bought and not sold.
  lemma LongShortBuysEnds(su: Setup, i: nat, weights: Weights, history: History)
    requires i + 1 < |su.dates| && Ranking(su, i) != [] && su.count > 0 && Calendar(su)
    requires Buys(su, i, weights) && su.strategy.longShort && ValidStrategy(su.strategy)
    requires Target(su, i, weights, history).Ok?
    ensures var t := Target(su, i, weights, history).value;
            && t.Keys == Longs(t) + Shorts(t)
            && BuysBest(su, i, Longs(t)) && SellsWorst(su, i, Longs(t), Shorts(t))
            && |Longs(t)| > 0
            && var half := su.strategy.leverageLimit / 2.0 / |Longs(t)| as real;
               && (forall s :: s in Longs(t) ==> t[s] == Min(su.strategy.positionLimit, half))
               && (forall s :: s in Shorts(t) ==> t[s] == -Min(su.strategy.positionLimit, half))
  {
    hide Ranking;
    hide Target;
    hide Calendar;
    hide Buys;
    hide BuysBest;
    hide SellsWorst;
    hide Longs;
    hide Shorts;
    hide HalfShare;
    hide ValidStrategy;
    hide Min;
    LongShortHalves(su, i, weights, history);
    HalfIs(su.strategy, |Longs(Target(su, i, weights, history).value)|);
  }

  lemma HalfIs(strategy: Strategy, count: nat)
    requires count > 0
    ensures HalfShare(strategy, count) == Min(strategy.positionLimit, strategy.leverageLimit / 2.0 / count as real)
  {
  }

  lemma HalfPositive(strategy: Strategy, count: nat)
    requires count > 0 && ValidStrategy(strategy)
    ensures HalfShare(strategy, count) > 0.0
  {
    hide SignalScale;
  }
}
