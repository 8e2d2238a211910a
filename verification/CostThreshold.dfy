// Exactly how much of their price symbols have to keep for the cost check never to fail.
module CostThreshold {
  import opened Wrappers
  import opened Totals
  import opened Market
  import opened Portfolio
  import opened PortfolioSimplex
  import opened Simulator
  import opened ValidationChecks
  import opened CostMargin
  import opened CostCounterexample
  import CostSensitivity

  // The check passes on this input, if it is a long-only run whose price relatives all
  // reach the floor.
  ghost predicate PassesOn(costs: Costs, floor: real, rows: seq<Row>, count: nat, strategy: Strategy,
                           library: Library) {
    var base := Simulate(rows, count, costs, strategy, library);
    var stressed := Simulate(rows, count, Doubled(costs), strategy, library);
    LongOnly(strategy) && RelativesCover(SetupOf(rows, count, strategy, library), floor) && base.Ok? && stressed.Ok? ==>
      CostInsensitive(Measured(base.value, costs), Measured(stressed.value, Doubled(costs)))
  }

  ghost predicate AlwaysPasses(costs: Costs, floor: real) {
    forall rows, count, strategy, library :: PassesOn(costs, floor, rows, count, strategy, library)
  }

  // ---- below the threshold ----

  // Growth that lifts the difference of the two products above any tolerance.
  lemma Lifted(kept: real, rate: real) returns (growth: real)
    requires rate > 0.0 && 0.0 < kept < 1.5 * rate
    ensures growth >= 1.0
    ensures (kept - 2.0 * rate) * (kept - 2.0 * rate) * growth >= (kept - rate) * (kept - rate) * growth + 1.0
  {
    var gap := rate * (3.0 * rate - 2.0 * kept);
    CostSensitivity.NonNegativeProduct(rate, 3.0 * rate - 2.0 * kept);
    growth := 1.0 + 1.0 / gap;
    assert gap * growth == gap + 1.0;
    assert (kept - 2.0 * rate) * (kept - 2.0 * rate) == (kept - rate) * (kept - rate) + gap;
    Distribute((kept - rate) * (kept - rate), gap, growth);
  }

  lemma Distribute(a: real, b: real, x: real)
    ensures (a + b) * x == a * x + b * x
  {
  }

  lemma TapeCovers(kept: Price, growth: Price, floor: real, library: Library)
    requires floor <= kept <= 1.0 <= growth
    ensures RelativesCover(SetupOf(Tape(kept, growth), 1, BEST_ONE, library), floor)
  {
    hide BookOf;
    hide Dates;
    hide Kept;
    var rows := Tape(kept, growth);
    TapePaired(kept, growth);
    TapeBook(rows);
    TapeSplits(kept, growth);
    hide Tape;
    var su := SetupOf(rows, 1, BEST_ONE, library);
    forall i, s | 0 <= i < Periods(su) && TradesTwice(su, i, s)
      ensures Relative(su, i, s) >= floor
    {
      BookDay(su, rows, i);
      BookDay(su, rows, i + 1);
      KeptSplit(Day(rows, i)[s], Day(rows, i + 1)[s]);
    }
  }

  lemma BookDay(su: Setup, rows: seq<Row>, i: nat)
    requires |rows| == 8 && i < 4 && su.dates == [0, 1, 2, 3]
    requires su.book == map[0 := Day(rows, 0), 1 := Day(rows, 1), 2 := Day(rows, 2), 3 := Day(rows, 3)]
    ensures SessionAt(su.book, su.dates[i]) == Day(rows, i)
  {
  }

  lemma KeptSplit(now: Row, next: Row)
    requires now.close == next.close == 1.0 && next.dividend == 0.0
    ensures Kept(now, next) == next.splitFactor
  {
  }

  lemma TapeSplits(kept: Price, growth: Price)
    ensures forall row :: row in Tape(kept, growth) ==>
              row.close == 1.0 && row.dividend == 0.0 && row.splitFactor in {1.0, kept, growth}
  {
  }

  lemma TapeFails(costs: Costs, kept: Price, library: Library) returns (growth: Price)
    requires NonNegativeCosts(costs) && kept <= 1.0 && kept < 1.5 * Rate(costs)
    ensures growth >= 1.0
    ensures var base := Simulate(Tape(kept, growth), 1, costs, BEST_ONE, library);
            var stressed := Simulate(Tape(kept, growth), 1, Doubled(costs), BEST_ONE, library);
            && base.Ok? && stressed.Ok?
            && !CostInsensitive(Measured(base.value, costs), Measured(stressed.value, Doubled(costs)))
  {
    hide Simulate;
    hide Growth;
    hide Sum;
    hide Exposure;
    hide Total;
    hide Tape;
    hide TapeReturns;
    DoubledRate(costs);
    hide Rate;
    growth := Lifted(kept, Rate(costs));
    TapeRun(kept, growth, costs, library);
    TapeRun(kept, growth, Doubled(costs), library);
    TapeGrowth(kept, growth, Rate(costs));
    TapeGrowth(kept, growth, 2.0 * Rate(costs));
  }

  lemma BelowThreshold(costs: Costs, floor: real)
    requires NonNegativeCosts(costs) && Rate(costs) > 0.0 && floor <= 1.0 && floor < 1.5 * Rate(costs)
    ensures !AlwaysPasses(costs, floor)
  {
    hide Simulate;
    hide CostInsensitive;
    hide RelativesCover;
    hide Rate;
    var library := Library(d => (0, 0), d => 0, d => 0, s => 0.0);
    var kept: Price := if floor > 0.0 then floor else Min(1.0, Rate(costs));
    var growth := TapeFails(costs, kept, library);
    TapeCovers(kept, growth, floor, library);
    BestOneLongOnly();
    assert !PassesOn(costs, floor, Tape(kept, growth), 1, BEST_ONE, library);
  }

  lemma BestOneLongOnly()
    ensures LongOnly(BEST_ONE)
  {
    assert SignalScale(BEST_ONE.signals) == 1.0 by { assert SignalScale([]) == 0.0; }
  }

  // ---- at and above it ----

  lemma FreeOfCosts(rows: seq<Row>, count: nat, costs: Costs, strategy: Strategy, library: Library)
    requires Rate(costs) == 0.0
    ensures var base := Simulate(rows, count, costs, strategy, library);
            var stressed := Simulate(rows, count, Doubled(costs), strategy, library);
            base.Ok? && stressed.Ok? ==>
              CostInsensitive(Measured(base.value, costs), Measured(stressed.value, Doubled(costs)))
  {
    hide Simulate;
    DoubledRate(costs);
    hide Rate;
    CostSensitivity.HigherCostsNeverHelp(rows, count, costs, Doubled(costs), strategy, library);
    CostSensitivity.HigherCostsNeverHelp(rows, count, Doubled(costs), costs, strategy, library);
    var base := Simulate(rows, count, costs, strategy, library);
    var stressed := Simulate(rows, count, Doubled(costs), strategy, library);
    if base.Ok? && stressed.Ok? {
      assert base.value.net == stressed.value.net;
    }
  }

  // The check passes on every long-only run whose price relatives all reach a floor of at
  // most one if and only if the floor is at least one and a half times the cost rate, or
  // nothing is charged at all.
  lemma ThresholdExactly(costs: Costs, floor: real)
    requires NonNegativeCosts(costs) && floor <= 1.0
    ensures AlwaysPasses(costs, floor) <==> Rate(costs) == 0.0 || floor >= 1.5 * Rate(costs)
  {
    hide Simulate;
    hide CostInsensitive;
    hide RelativesCover;
    assert Rate(costs) >= 0.0;
    hide Rate;
    if Rate(costs) == 0.0 || floor >= 1.5 * Rate(costs) {
      forall rows, count, strategy, library
        ensures PassesOn(costs, floor, rows, count, strategy, library)
      {
        if Rate(costs) == 0.0 {
          FreeOfCosts(rows, count, costs, strategy, library);
        } else if LongOnly(strategy) && RelativesCover(SetupOf(rows, count, strategy, library), floor) {
          CostCheckHoldsOnPrices(rows, count, costs, strategy, library, floor);
        }
      }
    } else {
      BelowThreshold(costs, floor);
    }
  }
}
