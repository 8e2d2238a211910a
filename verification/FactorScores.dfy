// The factor formulas of the engine, and that a score never looks ahead.
module FactorScores {
  import opened Wrappers
  import opened Totals
  import opened Market
  import opened Filters
  import opened StableSort

  datatype Formula =
    | Close
    | Momentum(lookback: int)
    | MeanReversion(lookback: int)
    | Unsupported

  datatype FactorFailure = UnsupportedExpression | LookbackOutOfRange | InsufficientHistory

  datatype Scored = Scored(row: Row, score: real)

  function SymbolDate(row: Row): Key { (row.symbol, row.date) }

  function DateSymbol(scored: Scored): Key { (scored.row.date, scored.row.symbol) }

  function Symbols(rows: seq<Row>): set<int> {
    set row | row in rows :: row.symbol
  }

  function History(sorted: seq<Row>, symbol: int): seq<Row> {
    Filter(sorted, (row: Row) => row.symbol == symbol)
  }

  function Momentary(current: Row, prior: Row, reversed: bool): real {
    var change := current.close / prior.close - 1.0;
    if reversed then -change else change
  }

  // One score for every row with a row `lookback` places before it.
  function HistoryScores(history: seq<Row>, lookback: nat, reversed: bool): seq<Scored> {
    if |history| <= lookback then []
    else
      var n := |history| - 1;
      HistoryScores(history[..n], lookback, reversed) +
      [Scored(history[n], Momentary(history[n], history[n - lookback], reversed))]
  }

  function AllScores(sorted: seq<Row>, symbols: seq<int>, lookback: nat, reversed: bool): seq<Scored> {
    if symbols == [] then []
    else
      var n := |symbols| - 1;
      AllScores(sorted, symbols[..n], lookback, reversed) +
      HistoryScores(History(sorted, symbols[n]), lookback, reversed)
  }

  function LookbackScores(rows: seq<Row>, lookback: nat, reversed: bool): seq<Scored> {
    Sort(AllScores(Sort(rows, SymbolDate), Sorted(Symbols(rows)), lookback, reversed), DateSymbol)
  }

  function Factor(rows: seq<Row>, formula: Formula): Result<seq<Scored>, FactorFailure> {
    match formula
    case Close => Ok(seq(|rows|, i requires 0 <= i < |rows| => Scored(rows[i], rows[i].close)))
    case Unsupported => Err(UnsupportedExpression)
    case _ =>
      if !(1 <= formula.lookback <= 252) then Err(LookbackOutOfRange)
      else
        var scores := LookbackScores(rows, formula.lookback, formula.MeanReversion?);
        if scores == [] then Err(InsufficientHistory) else Ok(scores)
  }

  // ---- the engine's loops ----

  method CollectHistories(sorted: seq<Row>) returns (bySymbol: map<int, seq<Row>>)
    ensures bySymbol.Keys == Symbols(sorted)
    ensures forall s :: s in bySymbol ==> bySymbol[s] == History(sorted, s)
  {
    bySymbol := map[];
    for k := 0 to |sorted|
      invariant bySymbol.Keys == Symbols(sorted[..k])
      invariant forall s :: s in bySymbol ==> bySymbol[s] == History(sorted[..k], s)
    {
      var row := sorted[k];
      assert sorted[..k + 1][..k] == sorted[..k];
      assert Symbols(sorted[..k + 1]) == Symbols(sorted[..k]) + {row.symbol};
      if row.symbol !in bySymbol { NoHistory(sorted[..k], row.symbol); }
      bySymbol := bySymbol[row.symbol := (if row.symbol in bySymbol then bySymbol[row.symbol] else []) + [row]];
    }
    assert sorted[..|sorted|] == sorted;
  }

  lemma {:induction false} NoHistory(rows: seq<Row>, symbol: int)
    requires symbol !in Symbols(rows)
    ensures History(rows, symbol) == []
  {
    if rows != [] {
      assert rows[|rows| - 1].symbol in Symbols(rows);
      assert Symbols(rows[..|rows| - 1]) <= Symbols(rows);
      NoHistory(rows[..|rows| - 1], symbol);
    }
  }

  lemma SortedSymbols(rows: seq<Row>)
    ensures Symbols(Sort(rows, SymbolDate)) == Symbols(rows)
  {
    SortOrdered(rows, SymbolDate);
    SameRows(Sort(rows, SymbolDate), rows);
  }

  lemma SameRows(a: seq<Row>, b: seq<Row>)
    requires multiset(a) == multiset(b)
    ensures Symbols(a) == Symbols(b)
  {
    forall row
      ensures row in a <==> row in b
    {
      assert row in a <==> row in multiset(a);
      assert row in b <==> row in multiset(b);
    }
  }

  method AppendScores(before: seq<Scored>, history: seq<Row>, lookback: nat, reversed: bool)
    returns (calculated: seq<Scored>)
    ensures calculated == before + HistoryScores(history, lookback, reversed)
  {
    calculated := before;
    var index := lookback;
    while index < |history|
      invariant lookback <= index && (index <= |history| || index == lookback)
      invariant var seen := if index <= |history| then index else |history|;
                calculated == before + HistoryScores(history[..seen], lookback, reversed)
    {
      var current, prior := history[index], history[index - lookback];
      var score := current.close / prior.close - 1.0;
      if reversed { score := score * -1.0; }
      assert history[..index + 1][..index] == history[..index];
      calculated := calculated + [Scored(current, score)];
      index := index + 1;
    }
    assert history[..|history|] == history;
  }

  method CalculateAll(sorted: seq<Row>, lookback: nat, reversed: bool) returns (calculated: seq<Scored>)
    ensures calculated == AllScores(sorted, Sorted(Symbols(sorted)), lookback, reversed)
  {
    hide HistoryScores;
    hide Symbols;
    hide History;
    hide Sorted;
    var bySymbol := CollectHistories(sorted);
    var symbols := Sorted(bySymbol.Keys);
    calculated := [];
    for k := 0 to |symbols|
      invariant calculated == AllScores(sorted, symbols[..k], lookback, reversed)
    {
      assert symbols[k] in symbols;
      assert symbols[..k + 1][..k] == symbols[..k];
      calculated := AppendScores(calculated, bySymbol[symbols[k]], lookback, reversed);
    }
    assert symbols[..|symbols|] == symbols;
  }

  method ComputeFactorRows(rows: seq<Row>, formula: Formula) returns (r: Result<seq<Scored>, FactorFailure>)
    ensures r == Factor(rows, formula)
  {
    if formula.Close? {
      return Ok(seq(|rows|, i requires 0 <= i < |rows| => Scored(rows[i], rows[i].close)));
    }
    if formula.Unsupported? { return Err(UnsupportedExpression); }
    var lookback, reversed := formula.lookback, formula.MeanReversion?;
    if !(1 <= lookback <= 252) { return Err(LookbackOutOfRange); }
    var sorted := Sort(rows, SymbolDate);
    SortedSymbols(rows);
    var calculated := CalculateAll(sorted, lookback, reversed);
    if calculated == [] { return Err(InsufficientHistory); }
    SortOrdered(calculated, DateSymbol);
    return Ok(Sort(calculated, DateSymbol));
  }

  // ---- no look-ahead ----

  function Visible(cutoff: int): Row -> bool {
    (row: Row) => row.date <= cutoff
  }

  function VisibleScore(cutoff: int): Scored -> bool {
    (scored: Scored) => scored.row.date <= cutoff
  }

  lemma {:induction false} UpToIsFilter(rows: seq<Row>, cutoff: int)
    ensures UpTo(rows, cutoff) == Filter(rows, Visible(cutoff))
  {
    if rows != [] { UpToIsFilter(rows[..|rows| - 1], cutoff); }
  }

  lemma {:induction false} ScoresOfVisible(history: seq<Row>, cutoff: int, lookback: nat, reversed: bool)
    requires forall i :: 0 <= i < |history| ==> history[i].date <= cutoff
    ensures forall i :: 0 <= i < |HistoryScores(history, lookback, reversed)| ==>
              HistoryScores(history, lookback, reversed)[i].row.date <= cutoff
  {
    hide Momentary;
    if |history| > lookback { ScoresOfVisible(history[..|history| - 1], cutoff, lookback, reversed); }
  }

  // The visible part of a symbol's history is a prefix, so its scores are the
  // visible part of the scores.
  lemma {:induction false} PrefixScores(history: seq<Row>, cutoff: int, lookback: nat, reversed: bool)
    requires forall i, j :: 0 <= i < j < |history| ==> history[i].date <= history[j].date
    ensures Filter(HistoryScores(history, lookback, reversed), VisibleScore(cutoff)) ==
            HistoryScores(Filter(history, Visible(cutoff)), lookback, reversed)
  {
    hide Momentary;
    if history != [] {
      var n := |history| - 1;
      if history[n].date <= cutoff {
        FilterAll(history, Visible(cutoff));
        ScoresOfVisible(history, cutoff, lookback, reversed);
        FilterAll(HistoryScores(history, lookback, reversed), VisibleScore(cutoff));
      } else {
        PrefixScores(history[..n], cutoff, lookback, reversed);
        LastScore(history, lookback, reversed);
        if |history| > lookback {
          var last := Scored(history[n], Momentary(history[n], history[n - lookback], reversed));
          FilterConcat(HistoryScores(history[..n], lookback, reversed), [last], VisibleScore(cutoff));
          assert Filter([last], VisibleScore(cutoff)) == [] by { assert [last][..0] == []; }
        }
      }
    }
  }

  lemma LastScore(history: seq<Row>, lookback: nat, reversed: bool)
    requires history != []
    ensures var n := |history| - 1;
            HistoryScores(history, lookback, reversed) == HistoryScores(history[..n], lookback, reversed) +
              (if n < lookback then []
               else [Scored(history[n], Momentary(history[n], history[n - lookback], reversed))])
  {
  }

  lemma HistoryByDate(sorted: seq<Row>, symbol: int)
    requires Ordered(sorted, SymbolDate)
    ensures var history := History(sorted, symbol);
            forall i, j :: 0 <= i < j < |history| ==> history[i].date <= history[j].date
  {
    var p := (row: Row) => row.symbol == symbol;
    FilterOrdered(sorted, p, SymbolDate);
    FilterMembers(sorted, p);
    var history := History(sorted, symbol);
    forall i, j | 0 <= i < j < |history|
      ensures history[i].date <= history[j].date
    {
      assert AtMost(SymbolDate(history[i]), SymbolDate(history[j]));
    }
  }

  lemma {:induction false} AllScoresUpTo(sorted: seq<Row>, symbols: seq<int>, cutoff: int, lookback: nat,
                                         reversed: bool)
    requires Ordered(sorted, SymbolDate)
    ensures Filter(AllScores(sorted, symbols, lookback, reversed), VisibleScore(cutoff)) ==
            AllScores(Filter(sorted, Visible(cutoff)), symbols, lookback, reversed)
  {
    if symbols != [] {
      var n := |symbols| - 1;
      AllScoresUpTo(sorted, symbols[..n], cutoff, lookback, reversed);
      HistoryByDate(sorted, symbols[n]);
      PrefixScores(History(sorted, symbols[n]), cutoff, lookback, reversed);
      FilterTwice(sorted, (row: Row) => row.symbol == symbols[n], Visible(cutoff));
      FilterConcat(AllScores(sorted, symbols[..n], lookback, reversed),
                   HistoryScores(History(sorted, symbols[n]), lookback, reversed), VisibleScore(cutoff));
    }
  }

  // Symbols without rows contribute nothing.
  lemma {:induction false} IdleSymbols(sorted: seq<Row>, symbols: seq<int>, lookback: nat, reversed: bool)
    ensures AllScores(sorted, symbols, lookback, reversed) ==
            AllScores(sorted, Present(symbols, Symbols(sorted)), lookback, reversed)
  {
    if symbols != [] {
      var n := |symbols| - 1;
      IdleSymbols(sorted, symbols[..n], lookback, reversed);
      if symbols[n] in Symbols(sorted) {
        var present := Present(symbols[..n], Symbols(sorted));
        assert (present + [symbols[n]])[..|present|] == present;
      } else {
        NoHistory(sorted, symbols[n]);
      }
    }
  }

  ghost function Present(symbols: seq<int>, s: set<int>): seq<int> {
    if symbols == [] then []
    else
      var rest := Present(symbols[..|symbols| - 1], s);
      if symbols[|symbols| - 1] in s then rest + [symbols[|symbols| - 1]] else rest
  }

  lemma {:induction false} PresentIncreasing(symbols: seq<int>, s: set<int>)
    requires Increasing(symbols)
    ensures Increasing(Present(symbols, s))
    ensures forall x :: x in Present(symbols, s) <==> x in symbols && x in s
  {
    if symbols != [] {
      var n := |symbols| - 1;
      PresentIncreasing(symbols[..n], s);
      var rest := Present(symbols[..n], s);
      assert symbols == symbols[..n] + [symbols[n]];
      forall i | 0 <= i < |rest|
        ensures rest[i] < symbols[n]
      {
        assert rest[i] in rest;
      }
    }
  }

  lemma PresentSorted(few: set<int>, many: set<int>)
    requires few <= many
    ensures Present(Sorted(many), few) == Sorted(few)
  {
    PresentIncreasing(Sorted(many), few);
    SortedUnique(Present(Sorted(many), few), Sorted(few));
  }

  // Scores computed from the rows up to a date are the scores, up to that date,
  // computed from all the rows.
  lemma ScoresHaveNoLookAhead(rows: seq<Row>, cutoff: int, lookback: nat, reversed: bool)
    ensures LookbackScores(UpTo(rows, cutoff), lookback, reversed) ==
            Filter(LookbackScores(rows, lookback, reversed), VisibleScore(cutoff))
  {
    var early := UpTo(rows, cutoff);
    var sorted, cut := Sort(rows, SymbolDate), Sort(early, SymbolDate);
    var all := AllScores(sorted, Sorted(Symbols(rows)), lookback, reversed);
    UpToIsFilter(rows, cutoff);
    FilterSort(rows, Visible(cutoff), SymbolDate);
    SortOrdered(rows, SymbolDate);
    AllScoresUpTo(sorted, Sorted(Symbols(rows)), cutoff, lookback, reversed);
    IdleSymbols(cut, Sorted(Symbols(rows)), lookback, reversed);
    SortedSymbols(early);
    FewerSymbols(rows, cutoff);
    PresentSorted(Symbols(early), Symbols(rows));
    FilterSort(all, VisibleScore(cutoff), DateSymbol);
  }

  lemma FewerSymbols(rows: seq<Row>, cutoff: int)
    ensures Symbols(UpTo(rows, cutoff)) <= Symbols(rows)
  {
    UpToIsFilter(rows, cutoff);
    FilterMembers(rows, Visible(cutoff));
    var early := UpTo(rows, cutoff);
    forall row | row in early
      ensures row in rows
    {
      var i :| 0 <= i < |early| && early[i] == row;
    }
  }

  // The same for the computation as a whole: whatever formula succeeds on the
  // truncated rows gives the truncation of its result on all of them.
  lemma FactorHasNoLookAhead(rows: seq<Row>, cutoff: int, formula: Formula)
    ensures Factor(rows, formula).Ok? ==>
              var visible := Filter(Factor(rows, formula).value, VisibleScore(cutoff));
              Factor(UpTo(rows, cutoff), formula) ==
                if visible == [] && !formula.Close? then Err(InsufficientHistory) else Ok(visible)
  {
    if formula.Close? {
      CloseUpTo(rows, cutoff);
    } else if !formula.Unsupported? && 1 <= formula.lookback <= 252 {
      ScoresHaveNoLookAhead(rows, cutoff, formula.lookback, formula.MeanReversion?);
    }
  }

  lemma {:induction false} CloseUpTo(rows: seq<Row>, cutoff: int)
    ensures Factor(UpTo(rows, cutoff), Close).value == Filter(Factor(rows, Close).value, VisibleScore(cutoff))
  {
    if rows != [] {
      var n := |rows| - 1;
      CloseUpTo(rows[..n], cutoff);
      var scores := Factor(rows, Close).value;
      assert scores[..n] == Factor(rows[..n], Close).value;
    }
  }
}
