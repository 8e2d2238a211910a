// Compounding and drawdown in one pass over the returns, against the definition
// that looks at every pair of times.
module Drawdown {
  import opened Totals

  // Wealth after k periods, starting from one.
  function Wealth(path: seq<real>, k: nat): real
    requires k <= |path|
  {
    Growth(path[..k])
  }

  function Peak(path: seq<real>): real {
    if path == [] then 1.0 else Max(Peak(path[..|path| - 1]), Growth(path))
  }

  lemma {:induction false} PeakAtLeastOne(path: seq<real>)
    ensures Peak(path) >= 1.0
  {
    if path != [] { PeakAtLeastOne(path[..|path| - 1]); }
  }

  function Decline(now: real, before: real): real
    requires before != 0.0
  {
    now / before - 1.0
  }

  function Worst(path: seq<real>): real {
    PeakAtLeastOne(path);
    if path == [] then 0.0 else Min(Worst(path[..|path| - 1]), Decline(Growth(path), Peak(path)))
  }

  // The loop of the metrics computation.
  method Compound(path: seq<real>) returns (wealth: real, drawdown: real)
    ensures wealth == Growth(path)
    ensures drawdown == Worst(path)
  {
    wealth := 1.0;
    var peak := 1.0;
    drawdown := 0.0;
    for k := 0 to |path|
      invariant wealth == Growth(path[..k])
      invariant peak == Peak(path[..k]) >= 1.0
      invariant drawdown == Worst(path[..k])
    {
      assert path[..k + 1][..k] == path[..k];
      wealth := wealth * (1.0 + path[k]);
      peak := Max(peak, wealth);
      drawdown := Min(drawdown, wealth / peak - 1.0);
    }
    assert path[..|path|] == path;
  }

  ghost predicate AboveRuin(path: seq<real>) {
    forall k :: 0 <= k < |path| ==> path[k] > -1.0
  }

  lemma {:induction false} GrowthPositive(path: seq<real>)
    requires AboveRuin(path)
    ensures Growth(path) > 0.0
  {
    if path != [] {
      var n := |path| - 1;
      GrowthPositive(path[..n]);
      var w, f := Growth(path[..n]), 1.0 + path[n];
      assert w * f > 0.0;
    }
  }

  // The peak is the largest wealth so far, the start included.
  lemma {:induction false} PeakIsLargest(path: seq<real>) returns (at: nat)
    ensures at <= |path| && Peak(path) == Wealth(path, at)
    ensures forall k :: 0 <= k <= |path| ==> Wealth(path, k) <= Peak(path)
  {
    if path == [] {
      at := 0;
    } else {
      var n := |path| - 1;
      at := PeakIsLargest(path[..n]);
      forall k | 0 <= k <= |path|
        ensures Wealth(path, k) <= Peak(path)
      {
        if k <= n {
          assert path[..n][..k] == path[..k];
          assert Wealth(path[..n], k) <= Peak(path[..n]);
        } else {
          assert path[..k] == path;
        }
      }
      assert path[..n][..at] == path[..at];
      assert path[..n + 1] == path;
      if Peak(path) != Peak(path[..n]) { at := n + 1; }
    }
  }

  lemma DeclineOrder(now: real, low: real, high: real)
    requires now > 0.0 && 0.0 < low <= high
    ensures Decline(now, high) <= Decline(now, low)
    ensures Decline(now, high) > -1.0
  {
    Quotients(now, low, high);
  }

  lemma Quotients(now: real, low: real, high: real)
    requires now > 0.0 && 0.0 < low <= high
    ensures 0.0 < now / high <= now / low
  {
  }

  // The worst decline bounds every decline from an earlier time to a later one
  // and is attained, so it is the minimum over all pairs.
  lemma {:induction false} WorstIsLeastDecline(path: seq<real>) returns (from: nat, to: nat)
    requires AboveRuin(path)
    ensures from <= to <= |path| && Wealth(path, from) > 0.0
    ensures Worst(path) == Decline(Wealth(path, to), Wealth(path, from))
    ensures -1.0 < Worst(path) <= 0.0
  {
    if path == [] {
      from, to := 0, 0;
    } else {
      var n := |path| - 1;
      from, to := WorstIsLeastDecline(path[..n]);
      assert path[..n][..from] == path[..from] && path[..n][..to] == path[..to];
      GrowthPositive(path);
      PeakAtLeastOne(path);
      DeclineOrder(Growth(path), Peak(path), Peak(path));
      if Worst(path) != Worst(path[..n]) {
        var at := PeakIsLargest(path);
        assert path[..|path|] == path;
        from, to := at, |path|;
      }
    }
  }

  lemma {:induction false} WorstBoundsDeclines(path: seq<real>, from: nat, to: nat)
    requires AboveRuin(path) && from <= to <= |path|
    ensures Wealth(path, from) > 0.0
    ensures Worst(path) <= Decline(Wealth(path, to), Wealth(path, from))
  {
    GrowthPositive(path[..from]);
    if path != [] {
      var n := |path| - 1;
      if to <= n {
        WorstBoundsDeclines(path[..n], from, to);
        assert path[..n][..from] == path[..from] && path[..n][..to] == path[..to];
      } else {
        var at := PeakIsLargest(path);
        GrowthPositive(path);
        assert path[..to] == path;
        DeclineOrder(Growth(path), Wealth(path, from), Peak(path));
      }
    }
  }
}
