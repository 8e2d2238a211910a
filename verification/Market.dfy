// Market rows and the by-date book that the quant engine builds from them.
module Market {
  import opened Wrappers
  import opened Totals

  type Price = r: real | r > 0.0 witness 1.0
  type Amount = r: real | r >= 0.0 witness 0.0

  // Dataset loading admits only positive prices and split factors and
  // non-negative dividends.
  datatype Row = Row(
    date: int,
    symbol: int,
    close: Price,
    benchmarkClose: Price,
    splitFactor: Price,
    dividend: Amount,
    inUniverse: bool,
    strategyScore: Option<real>
  )

  // A holding per symbol.
  type Weights = map<int, real>

  // The rows of one date, by symbol.
  type Session = map<int, Row>
  type Book = map<int, Session>

  function SessionAt(book: Book, date: int): Session {
    if date in book then book[date] else map[]
  }

  function AddRow(book: Book, row: Row): Book {
    book[row.date := SessionAt(book, row.date)[row.symbol := row]]
  }

  // A later row for the same date and symbol replaces an earlier one.
  function BookOf(rows: seq<Row>): Book {
    if rows == [] then map[] else AddRow(BookOf(rows[..|rows| - 1]), rows[|rows| - 1])
  }

  // Every session of a book trades at least one symbol.
  ghost predicate ValidBook(book: Book) {
    forall date :: date in book ==> book[date].Keys != {}
  }

  lemma {:induction false} BookOfValid(rows: seq<Row>)
    ensures ValidBook(BookOf(rows))
  {
    if rows != [] {
      var n := |rows| - 1;
      BookOfValid(rows[..n]);
      assert rows[n].symbol in SessionAt(BookOf(rows[..n]), rows[n].date)[rows[n].symbol := rows[n]].Keys;
    }
  }

  // The book holds, for each date and symbol with rows, the last of them, and nothing else.
  lemma {:induction false} BookExactly(rows: seq<Row>, date: int, symbol: int)
    ensures symbol in SessionAt(BookOf(rows), date) <==> exists i :: 0 <= i < |rows| && Falls(rows[i], date, symbol)
    ensures symbol in SessionAt(BookOf(rows), date) ==>
              exists i :: LastOf(rows, date, symbol, i) && SessionAt(BookOf(rows), date)[symbol] == rows[i]
  {
    if rows != [] {
      var n := |rows| - 1;
      BookExactly(rows[..n], date, symbol);
      if Falls(rows[n], date, symbol) {
        assert LastOf(rows, date, symbol, n);
      } else if symbol in SessionAt(BookOf(rows[..n]), date) {
        var i :| LastOf(rows[..n], date, symbol, i) && SessionAt(BookOf(rows[..n]), date)[symbol] == rows[..n][i];
        assert LastOf(rows, date, symbol, i) && Falls(rows[i], date, symbol);
      }
    }
  }

  predicate Falls(row: Row, date: int, symbol: int) {
    row.date == date && row.symbol == symbol
  }

  ghost predicate LastOf(rows: seq<Row>, date: int, symbol: int, i: int) {
    && 0 <= i < |rows| && Falls(rows[i], date, symbol)
    && forall j :: i < j < |rows| ==> !Falls(rows[j], date, symbol)
  }

  // The rows dated no later than a cut-off.
  function UpTo(rows: seq<Row>, cutoff: int): seq<Row> {
    if rows == [] then []
    else
      var rest := UpTo(rows[..|rows| - 1], cutoff);
      if rows[|rows| - 1].date <= cutoff then rest + [rows[|rows| - 1]] else rest
  }

  // One book is another without its sessions after the cut-off.
  ghost predicate Truncates(cut: Book, full: Book, cutoff: int) {
    && (forall d :: d in cut <==> d in full && d <= cutoff)
    && (forall d :: d in cut ==> d in full && cut[d] == full[d])
  }

  lemma AddEarly(cut: Book, full: Book, cutoff: int, row: Row)
    requires Truncates(cut, full, cutoff) && row.date <= cutoff
    ensures Truncates(AddRow(cut, row), AddRow(full, row), cutoff)
  {
  }

  lemma AddLate(cut: Book, full: Book, cutoff: int, row: Row)
    requires Truncates(cut, full, cutoff) && row.date > cutoff
    ensures Truncates(cut, AddRow(full, row), cutoff)
  {
  }

  // Dropping late rows removes the late sessions from the book and leaves every
  // other session exactly as it was.
  lemma {:induction false} BookUpTo(rows: seq<Row>, cutoff: int)
    ensures Truncates(BookOf(UpTo(rows, cutoff)), BookOf(rows), cutoff)
  {
    if rows != [] {
      var n := |rows| - 1;
      var cut, full := BookOf(UpTo(rows[..n], cutoff)), BookOf(rows[..n]);
      BookUpTo(rows[..n], cutoff);
      if rows[n].date <= cutoff {
        AddEarly(cut, full, cutoff, rows[n]);
        var rest := UpTo(rows[..n], cutoff);
        assert (rest + [rows[n]])[..|rest|] == rest;
      } else {
        AddLate(cut, full, cutoff, rows[n]);
      }
    }
  }

  // Sessions in date order.
  function Dates(book: Book): seq<int> {
    Sorted(book.Keys)
  }

  lemma {:induction false} DatesUpTo(rows: seq<Row>, cutoff: int)
    ensures var full, cut := Dates(BookOf(rows)), Dates(BookOf(UpTo(rows, cutoff)));
            |cut| == CountUpTo(full, cutoff) && cut == full[..|cut|]
  {
    hide Sorted;
    hide BookOf;
    hide UpTo;
    hide CountUpTo;
    var book, early := BookOf(rows), BookOf(UpTo(rows, cutoff));
    BookUpTo(rows, cutoff);
    PrefixMembers(Dates(book), Dates(early), cutoff);
    SortedUnique(Dates(book)[..CountUpTo(Dates(book), cutoff)], Dates(early));
  }

  lemma PrefixMembers(full: seq<int>, cut: seq<int>, cutoff: int)
    requires Increasing(full)
    requires forall x :: x in cut <==> x in full && x <= cutoff
    ensures SameMembers(full[..CountUpTo(full, cutoff)], cut)
  {
  }

  // How many entries of an increasing sequence are at most the cut-off.
  ghost function CountUpTo(dates: seq<int>, cutoff: int): (k: nat)
    requires Increasing(dates)
    ensures k <= |dates|
    ensures forall i :: 0 <= i < |dates| ==> (dates[i] <= cutoff <==> i < k)
  {
    if dates == [] then 0
    else
      var n := |dates| - 1;
      if dates[n] <= cutoff then |dates| else CountUpTo(dates[..n], cutoff)
  }

  // ---- books of given rows ----

  lemma OnDates(rows: seq<Row>, dates: seq<int>)
    requires Increasing(dates) && BookOf(rows).Keys == Members(dates)
    ensures Dates(BookOf(rows)) == dates
  {
    hide BookOf;
    SortedUnique(Dates(BookOf(rows)), dates);
  }

  lemma BookStep(rows: seq<Row>, n: nat)
    requires n < |rows|
    ensures BookOf(rows[..n + 1]) == AddRow(BookOf(rows[..n]), rows[n])
  {
    assert rows[..n + 1][..n] == rows[..n];
  }
}
