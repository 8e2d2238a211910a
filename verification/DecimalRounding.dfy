// Rounding to a fixed number of fraction digits, with a carry loop on characters.
module DecimalRounding {
  import opened Wrappers
  import opened Digits
  import opened DecimalParsing

  // An absent precision keeps the value; a precision that is no integer is refused.
  datatype Precision = Absent | Whole(places: int) | Fractional

  // ---- the carry loop ----

  function Successor(c: char): char
    requires '0' <= c < '9'
  {
    ((c as int) + 1) as char
  }

  // Adding one to a digit string; all nines grow by a digit.
  function Increment(s: string): (r: string)
    requires AllDigits(s)
    ensures AllDigits(r)
    ensures |r| == |s| || |r| == |s| + 1
  {
    if s == "" then "1"
    else
      var n := |s| - 1;
      if s[n] == '9' then Increment(s[..n]) + "0" else s[..n] + [Successor(s[n])]
  }

  lemma {:induction false} IncrementAddsOne(s: string)
    requires AllDigits(s)
    ensures Num(Increment(s)) == Num(s) + 1
  {
    if s == "" {
      assert "1"[..0] == "";
    } else {
      var n := |s| - 1;
      if s[n] == '9' {
        IncrementAddsOne(s[..n]);
        var r := Increment(s[..n]);
        assert (r + "0")[..|r|] == r;
      } else {
        var r := s[..n] + [Successor(s[n])];
        assert r[..n] == s[..n];
        assert DigitValue(r[n]) == DigitValue(s[n]) + 1;
      }
    }
  }

  lemma {:induction false} IncrementNines(s: string, k: nat)
    requires AllDigits(s) && k <= |s|
    requires forall i :: k <= i < |s| ==> s[i] == '9'
    ensures AllDigits(s[..k])
    ensures Increment(s) == Increment(s[..k]) + Zeros(|s| - k)
  {
    if k < |s| {
      var n := |s| - 1;
      IncrementNines(s[..n], k);
      assert s[..n][..k] == s[..k];
      assert Zeros(n - k) + "0" == Zeros(|s| - k);
    } else {
      assert s[..k] == s;
    }
  }

  // In place: trailing nines become zeros, the digit before them goes up, and a
  // leading one is added when there is none.
  method Carry(s: string) returns (r: string)
    requires AllDigits(s)
    ensures r == Increment(s)
  {
    var rounded := new char[|s|](i requires 0 <= i < |s| => s[i]);
    var cursor := |s| - 1;
    while cursor >= 0 && rounded[cursor] == '9'
      invariant -1 <= cursor < |s|
      invariant forall i :: 0 <= i <= cursor ==> rounded[i] == s[i]
      invariant forall i :: cursor < i < |s| ==> rounded[i] == '0' && s[i] == '9'
    {
      rounded[cursor] := '0';
      cursor := cursor - 1;
    }
    IncrementNines(s, cursor + 1);
    if cursor < 0 {
      assert rounded[..] == Zeros(|s|);
      r := "1" + rounded[..];
    } else {
      assert s[..cursor + 1][..cursor] == s[..cursor];
      rounded[cursor] := Successor(rounded[cursor]);
      assert rounded[..] == (s[..cursor] + [Successor(s[cursor])]) + Zeros(|s| - cursor - 1);
      r := rounded[..];
    }
  }

  // ---- rounding ----

  function Padded(s: string, n: nat): string {
    s + Zeros(if |s| <= n then n - |s| else 0)
  }

  function Rounded(p: Parts, places: nat): Parts
    requires AllDigits(p.integer) && AllDigits(p.fraction)
  {
    if |p.fraction| <= places then p.(fraction := Padded(p.fraction, places))
    else if p.fraction[places] < '5' then p.(fraction := p.fraction[..places])
    else
      JoinDigits(p.integer, p.fraction[..places]);
      var digits := Increment(p.integer + p.fraction[..places]);
      var split := |digits| - places;
      p.(integer := digits[..split], fraction := digits[split..])
  }

  lemma JoinDigits(a: string, b: string)
    requires AllDigits(a) && AllDigits(b)
    ensures AllDigits(a + b)
  {
  }

  function Adjusted(p: Parts, precision: Precision): Option<Parts>
    requires AllDigits(p.integer) && AllDigits(p.fraction)
  {
    match precision
    case Absent => Some(p)
    case Fractional => None
    case Whole(places) => if places < 0 || places > 18 then None else Some(Rounded(p, places))
  }

  method WithPrecision(p: Parts, precision: Precision) returns (r: Option<Parts>)
    requires AllDigits(p.integer) && AllDigits(p.fraction)
    ensures r == Adjusted(p, precision)
  {
    if precision.Absent? { return Some(p); }
    if precision.Fractional? || precision.places < 0 || precision.places > 18 { return None; }
    var places := precision.places;
    if |p.fraction| <= places { return Some(p.(fraction := Padded(p.fraction, places))); }
    var retained := p.fraction[..places];
    if p.fraction[places] < '5' { return Some(p.(fraction := retained)); }
    JoinDigits(p.integer, retained);
    var rounded := Carry(p.integer + retained);
    var split := |rounded| - places;
    var fraction := if places == 0 then "" else rounded[split..];
    assert fraction == rounded[split..];
    return Some(p.(integer := rounded[..split], fraction := fraction));
  }

  // The digits of integer and fraction as one number.
  ghost function Scaled(p: Parts): nat
    requires AllDigits(p.integer) && AllDigits(p.fraction)
  {
    JoinDigits(p.integer, p.fraction);
    Num(p.integer + p.fraction)
  }

  // The first dropped digit decides which side of one half the dropped part is on.
  lemma {:induction false} HalfByFirstDigit(s: string)
    requires AllDigits(s) && s != ""
    ensures s[0] >= '5' <==> 2 * Num(s) >= Pow10(|s|)
  {
    assert s == [s[0]] + s[1..];
    assert AllDigits([s[0]]) && AllDigits(s[1..]);
    NumConcat([s[0]], s[1..]);
    NumBound(s[1..]);
    assert [s[0]][..0] == "";
    assert Num([s[0]]) == DigitValue(s[0]);
    HalfArithmetic(DigitValue(s[0]), Num(s[1..]), Pow10(|s[1..]|));
  }

  lemma HalfArithmetic(d: nat, rest: nat, p: nat)
    requires d <= 9 && rest < p
    ensures d >= 5 <==> 2 * (d * p + rest) >= 10 * p
  {
  }

  // r is x / unit rounded to the nearest integer, a tie going away from zero.
  ghost predicate NearestTiesAway(r: nat, x: nat, unit: nat) {
    2 * r * unit <= 2 * x + unit < 2 * (r + 1) * unit
  }

  lemma TakeDrop(s: string, t: string, n: nat)
    requires AllDigits(s) && AllDigits(t) && n <= |t|
    ensures AllDigits(t[..n]) && AllDigits(t[n..]) && AllDigits(s + t[..n]) && AllDigits(s + t)
    ensures Num(s + t) == Num(s + t[..n]) * Pow10(|t| - n) + Num(t[n..])
  {
    assert s + t == (s + t[..n]) + t[n..];
    NumConcat(s + t[..n], t[n..]);
  }

  // Rounding yields exactly the requested fraction digits; it is exact when no
  // digit is dropped and otherwise the nearest value, ties away from zero.
  lemma RoundedCorrect(p: Parts, places: nat)
    requires ValidParts(p)
    ensures var r := Rounded(p, places);
            && ValidParts(r) && r.negative == p.negative && |r.fraction| == places
            && (if |p.fraction| <= places then Scaled(r) == Scaled(p) * Pow10(places - |p.fraction|)
                else NearestTiesAway(Scaled(r), Scaled(p), Pow10(|p.fraction| - places)))
  {
    hide Num;
    hide Pow10;
    hide Increment;
    JoinDigits(p.integer, p.fraction);
    var r := Rounded(p, places);
    if |p.fraction| <= places {
      var n := places - |p.fraction|;
      assert p.integer + (p.fraction + Zeros(n)) == (p.integer + p.fraction) + Zeros(n);
      NumPadded(p.integer + p.fraction, n);
    } else {
      var n := |p.fraction| - places;
      TakeDrop(p.integer, p.fraction, places);
      var kept := Num(p.integer + p.fraction[..places]);
      NumBound(p.fraction[places..]);
      HalfByFirstDigit(p.fraction[places..]);
      if p.fraction[places] < '5' {
        Nearest(kept, Num(p.fraction[places..]), Pow10(n), false);
      } else {
        var digits := Increment(p.integer + p.fraction[..places]);
        IncrementAddsOne(p.integer + p.fraction[..places]);
        var split := |digits| - places;
        assert digits[..split] + digits[split..] == digits;
        Nearest(kept, Num(p.fraction[places..]), Pow10(n), true);
      }
    }
  }

  lemma Nearest(kept: nat, dropped: nat, unit: nat, up: bool)
    requires dropped < unit && (up <==> 2 * dropped >= unit)
    ensures NearestTiesAway(if up then kept + 1 else kept, kept * unit + dropped, unit)
  {
  }

  // The error is at most half a unit, and exactly half only upwards.
  lemma NearestError(r: nat, x: nat, unit: nat)
    requires unit > 0 && NearestTiesAway(r, x, unit)
    ensures 0 - unit < 2 * (r * unit - x) <= unit
  {
  }
}
