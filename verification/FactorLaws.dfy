// What a factor score says about a row, and which rows have one, told from the closes.
module FactorLaws {
  import opened Wrappers
  import opened Totals
  import opened Market
  import opened Filters
  import opened StableSort
  import opened FactorScores

  // A momentum score grows the earlier close into the later one; a mean-reversion
  // score is its opposite.
  predicate Explains(score: real, earlier: Price, later: Price, reversed: bool) {
    later == if reversed then (1.0 - score) * earlier else (1.0 + score) * earlier
  }

  lemma MomentaryExactly(current: Row, prior: Row, reversed: bool, score: real)
    ensures score == Momentary(current, prior, reversed) <==> Explains(score, prior.close, current.close, reversed)
  {
    var ratio := current.close / prior.close;
    assert ratio * prior.close == current.close;
    var factor := if reversed then 1.0 - score else 1.0 + score;
    if factor * prior.close == current.close {
      SameFactor(factor, ratio, prior.close);
    }
  }

  lemma SameFactor(a: real, b: real, x: real)
    requires x > 0.0 && a * x == b * x
    ensures a == b
  {
    assert (a - b) * x == 0.0;
  }

  // The score of place n of a history is explained by the row `lookback` places before.
  ghost predicate ScoredAt(history: seq<Row>, lookback: nat, reversed: bool, x: Scored, n: nat) {
    && lookback <= n < |history| && x.row == history[n]
    && Explains(x.score, history[n - lookback].close, history[n].close, reversed)
  }

  lemma {:induction false} HistoryScored(history: seq<Row>, lookback: nat, reversed: bool, x: Scored)
    ensures |HistoryScores(history, lookback, reversed)| ==
            if |history| <= lookback then 0 else |history| - lookback
    ensures x in HistoryScores(history, lookback, reversed) <==>
            exists n: nat :: ScoredAt(history, lookback, reversed, x, n)
  {
    hide Momentary;
    hide Explains;
    if |history| > lookback {
      var n := |history| - 1;
      HistoryScored(history[..n], lookback, reversed, x);
      MomentaryExactly(history[n], history[n - lookback], reversed, x.score);
      var rest := HistoryScores(history[..n], lookback, reversed);
      var last := Scored(history[n], Momentary(history[n], history[n - lookback], reversed));
      assert HistoryScores(history, lookback, reversed) == rest + [last];
      assert x in rest + [last] <==> x in rest || x == last;
      assert ScoredAt(history, lookback, reversed, x, n) <==> x == last;
      assert forall k: nat :: k < n ==>
        (ScoredAt(history, lookback, reversed, x, k) <==> ScoredAt(history[..n], lookback, reversed, x, k));
      assert forall k: nat :: ScoredAt(history, lookback, reversed, x, k) ==> k <= n;
      assert forall k: nat :: ScoredAt(history[..n], lookback, reversed, x, k) ==> k < n;
    }
  }

  lemma {:induction false} AllScored(sorted: seq<Row>, symbols: seq<int>, lookback: nat, reversed: bool, x: Scored)
    ensures x in AllScores(sorted, symbols, lookback, reversed) <==>
            exists i :: 0 <= i < |symbols| && x in HistoryScores(History(sorted, symbols[i]), lookback, reversed)
  {
    if symbols != [] {
      var n := |symbols| - 1;
      AllScored(sorted, symbols[..n], lookback, reversed, x);
      assert forall i :: 0 <= i < n ==> symbols[..n][i] == symbols[i];
      var rest, last := AllScores(sorted, symbols[..n], lookback, reversed),
                        HistoryScores(History(sorted, symbols[n]), lookback, reversed);
      assert x in rest + last <==> x in rest || x in last;
    }
  }

  // The rows of a symbol in date order, rows of the same date as they came.
  function Timeline(rows: seq<Row>, symbol: int): seq<Row> {
    Sort(Filter(rows, (row: Row) => row.symbol == symbol), SymbolDate)
  }

  lemma TimelineIsHistory(rows: seq<Row>, symbol: int)
    ensures History(Sort(rows, SymbolDate), symbol) == Timeline(rows, symbol)
  {
    FilterSort(rows, (row: Row) => row.symbol == symbol, SymbolDate);
  }

  lemma TimelineSymbol(rows: seq<Row>, symbol: int, n: nat)
    requires n < |Timeline(rows, symbol)|
    ensures Timeline(rows, symbol)[n].symbol == symbol && Timeline(rows, symbol)[n] in rows
  {
    var p := (row: Row) => row.symbol == symbol;
    var few := Filter(rows, p);
    SortOrdered(few, SymbolDate);
    FilterMembers(rows, p);
    var row := Timeline(rows, symbol)[n];
    assert row in multiset(Timeline(rows, symbol)) && row in multiset(few) && row in few;
    var i :| 0 <= i < |few| && few[i] == row;
  }

  lemma SortMembers<T>(s: seq<T>, key: T -> Key, x: T)
    ensures x in Sort(s, key) <==> x in s
  {
    SortOrdered(s, key);
    assert x in Sort(s, key) <==> x in multiset(Sort(s, key));
    assert x in s <==> x in multiset(s);
  }

  // Exactly the scores explained by a row and the one `lookback` rows before it in its
  // symbol's timeline are computed.
  lemma ScoresExactly(rows: seq<Row>, lookback: nat, reversed: bool, x: Scored)
    ensures x in LookbackScores(rows, lookback, reversed) <==>
            exists n: nat :: ScoredAt(Timeline(rows, x.row.symbol), lookback, reversed, x, n)
  {
    hide HistoryScores;
    hide Explains;
    hide Sort;
    hide Sorted;
    var sorted, symbols := Sort(rows, SymbolDate), Sorted(Symbols(rows));
    SortMembers(AllScores(sorted, symbols, lookback, reversed), DateSymbol, x);
    AllScored(sorted, symbols, lookback, reversed, x);
    hide AllScores;
    forall s
      ensures History(sorted, s) == Timeline(rows, s)
      ensures x in HistoryScores(Timeline(rows, s), lookback, reversed) <==>
              exists n: nat :: ScoredAt(Timeline(rows, s), lookback, reversed, x, n)
    {
      TimelineIsHistory(rows, s);
      HistoryScored(Timeline(rows, s), lookback, reversed, x);
    }
    forall s, n: nat | n < |Timeline(rows, s)|
      ensures Timeline(rows, s)[n].symbol == s && s in Symbols(rows)
    {
      TimelineSymbol(rows, s, n);
    }
    hide History;
    hide Timeline;
    if x in LookbackScores(rows, lookback, reversed) {
      var i :| 0 <= i < |symbols| && x in HistoryScores(History(sorted, symbols[i]), lookback, reversed);
      var n: nat :| ScoredAt(Timeline(rows, symbols[i]), lookback, reversed, x, n);
      assert x.row.symbol == symbols[i];
    }
    if exists n: nat :: ScoredAt(Timeline(rows, x.row.symbol), lookback, reversed, x, n) {
      var n: nat :| ScoredAt(Timeline(rows, x.row.symbol), lookback, reversed, x, n);
      assert x.row.symbol in symbols;
      var i :| 0 <= i < |symbols| && symbols[i] == x.row.symbol;
    }
  }

  // A look-back formula succeeds exactly when its look-back is in range and some symbol
  // has more rows than that; then it scores exactly the explained rows, ordered by date
  // and symbol. The close formula scores every row with its close, in the order given.
  lemma FactorExactly(rows: seq<Row>, formula: Formula)
    ensures formula.Unsupported? ==> Factor(rows, formula) == Err(UnsupportedExpression)
    ensures formula.Close? ==>
              && Factor(rows, formula).Ok? && |Factor(rows, formula).value| == |rows|
              && forall i :: 0 <= i < |rows| ==>
                   Factor(rows, formula).value[i].row == rows[i] &&
                   Factor(rows, formula).value[i].score == rows[i].close
    ensures (formula.Momentum? || formula.MeanReversion?) && !(0 < formula.lookback <= 252) ==>
              Factor(rows, formula) == Err(LookbackOutOfRange)
    ensures (formula.Momentum? || formula.MeanReversion?) && 0 < formula.lookback <= 252 ==>
              if exists s :: |Timeline(rows, s)| > formula.lookback then ScoresThem(rows, formula)
              else Factor(rows, formula) == Err(InsufficientHistory)
  {
    hide Timeline;
    hide LookbackScores;
    if (formula.Momentum? || formula.MeanReversion?) && 0 < formula.lookback <= 252 {
      var scores := LookbackScores(rows, formula.lookback, formula.MeanReversion?);
      NoScores(rows, formula.lookback, formula.MeanReversion?);
      forall x
        ensures x in scores <==> exists n: nat ::
                  ScoredAt(Timeline(rows, x.row.symbol), formula.lookback, formula.MeanReversion?, x, n)
      {
        ScoresExactly(rows, formula.lookback, formula.MeanReversion?, x);
      }
      ScoresOrdered(rows, formula.lookback, formula.MeanReversion?);
    }
  }

  ghost predicate ScoresThem(rows: seq<Row>, formula: Formula)
    requires (formula.Momentum? || formula.MeanReversion?) && formula.lookback > 0
  {
    && Factor(rows, formula).Ok?
    && var scores := Factor(rows, formula).value;
       && Ordered(scores, DateSymbol)
       && forall x :: x in scores <==>
            exists n: nat :: ScoredAt(Timeline(rows, x.row.symbol), formula.lookback, formula.MeanReversion?, x, n)
  }

  lemma ScoresOrdered(rows: seq<Row>, lookback: nat, reversed: bool)
    ensures Ordered(LookbackScores(rows, lookback, reversed), DateSymbol)
  {
    SortOrdered(AllScores(Sort(rows, SymbolDate), Sorted(Symbols(rows)), lookback, reversed), DateSymbol);
  }

  lemma NoScores(rows: seq<Row>, lookback: nat, reversed: bool)
    ensures LookbackScores(rows, lookback, reversed) == [] <==> forall s :: |Timeline(rows, s)| <= lookback
  {
    hide Explains;
    var scores := LookbackScores(rows, lookback, reversed);
    if scores != [] {
      var x := scores[0];
      assert x in scores;
      ScoresExactly(rows, lookback, reversed, x);
      var n: nat :| ScoredAt(Timeline(rows, x.row.symbol), lookback, reversed, x, n);
      assert |Timeline(rows, x.row.symbol)| > lookback;
    }
    if s :| |Timeline(rows, s)| > lookback {
      var row, prior := Timeline(rows, s)[lookback], Timeline(rows, s)[0];
      var x := Scored(row, Momentary(row, prior, reversed));
      TimelineSymbol(rows, s, lookback);
      MomentaryExactly(row, prior, reversed, x.score);
      assert ScoredAt(Timeline(rows, x.row.symbol), lookback, reversed, x, lookback);
      ScoresExactly(rows, lookback, reversed, x);
    }
  }
}
