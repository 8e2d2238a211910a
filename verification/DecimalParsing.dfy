// Parsing a canonical decimal, with its bounded exponent, into plain digits.
module DecimalParsing {
  import opened Arithmetic
  import opened Wrappers
  import opened Digits

  const MAX_DECIMAL_DIGITS := 10000

  datatype Parts = Parts(negative: bool, integer: string, fraction: string)

  // ---- the grammar ----

  datatype Exponent = Exponent(marker: char, text: string)

  datatype Match = Match(negative: bool, integer: string, fraction: Option<string>, exponent: Option<Exponent>)

  predicate SignedDigits(s: string) {
    s != "" && (if s[0] == '+' || s[0] == '-' then |s| > 1 && AllDigits(s[1..]) else AllDigits(s))
  }

  predicate WellFormed(m: Match) {
    && m.integer != "" && AllDigits(m.integer)
    && (m.fraction.Some? ==> m.fraction.value != "" && AllDigits(m.fraction.value))
    && (m.exponent.Some? ==> (m.exponent.value.marker == 'e' || m.exponent.value.marker == 'E') &&
                             SignedDigits(m.exponent.value.text))
  }

  // The text a match stands for.
  function Render(m: Match): string {
    (if m.negative then "-" else "") + m.integer +
    (if m.fraction.Some? then "." + m.fraction.value else "") +
    (if m.exponent.Some? then [m.exponent.value.marker] + m.exponent.value.text else "")
  }

  function DigitsEnd(s: string, i: nat): (end: nat)
    requires i <= |s|
    ensures i <= end <= |s|
    ensures AllDigits(s[i..end])
    ensures end < |s| ==> !Digit(s[end])
    decreases |s| - i
  {
    if i == |s| || !Digit(s[i]) then i
    else
      var end := DigitsEnd(s, i + 1);
      assert forall k :: 0 <= k < end - i ==> Digit(s[i..end][k]) by {
        assert forall k :: 1 <= k < end - i ==> s[i..end][k] == s[i + 1..end][k - 1];
      }
      end
  }

  // /^(-?)(\d+)(?:\.(\d+))?(?:[eE]([+-]?\d+))?$/
  function MatchDecimal(s: string): Option<Match> {
    var start := if s != "" && s[0] == '-' then 1 else 0;
    var mid := DigitsEnd(s, start);
    if mid == start then None
    else if mid < |s| && s[mid] == '.' then
      var end := DigitsEnd(s, mid + 1);
      if end == mid + 1 then None
      else MatchExponent(s, end, Match(start == 1, s[start..mid], Some(s[mid + 1..end]), None))
    else MatchExponent(s, mid, Match(start == 1, s[start..mid], None, None))
  }

  function MatchExponent(s: string, i: nat, m: Match): Option<Match>
    requires i <= |s|
  {
    if i == |s| then Some(m)
    else if (s[i] == 'e' || s[i] == 'E') && SignedDigits(s[i + 1..])
    then Some(m.(exponent := Some(Exponent(s[i], s[i + 1..]))))
    else None
  }

  lemma MatchSound(s: string)
    ensures MatchDecimal(s).Some? ==> WellFormed(MatchDecimal(s).value) && Render(MatchDecimal(s).value) == s
  {
    hide SignedDigits;
    hide DigitsEnd;
    hide AllDigits;
  }

  lemma DigitsEndExact(s: string, i: nat, end: nat)
    requires i <= end <= |s| && AllDigits(s[i..end]) && (end < |s| ==> !Digit(s[end]))
    ensures DigitsEnd(s, i) == end
    decreases |s| - i
  {
  }

  // What follows the digits of a match.
  ghost function Tail(m: Match): string {
    if m.exponent.Some? then [m.exponent.value.marker] + m.exponent.value.text else ""
  }

  lemma ExponentComplete(m: Match, s: string, i: nat)
    requires WellFormed(m) && i <= |s| && s[i..] == Tail(m)
    ensures MatchExponent(s, i, m.(exponent := None)) == Some(m)
    ensures i < |s| ==> !Digit(s[i]) && s[i] != '.'
  {
    hide SignedDigits;
    if m.exponent.Some? {
      assert s[i..][0] == s[i];
      assert s[i + 1..] == s[i..][1..] == m.exponent.value.text;
    }
  }

  lemma WholeComplete(m: Match, s: string, start: nat)
    requires WellFormed(m) && m.fraction.None?
    requires start == if m.negative then 1 else 0
    requires s == (if m.negative then "-" else "") + m.integer + Tail(m)
    ensures MatchDecimal(s) == Some(m)
  {
    hide SignedDigits;
    hide DigitsEnd;
    var mid := start + |m.integer|;
    assert s[start..mid] == m.integer;
    assert Digit(m.integer[0]) && s[start] == m.integer[0];
    assert s[mid..] == Tail(m);
    ExponentComplete(m, s, mid);
    DigitsEndExact(s, start, mid);
  }

  lemma FractionComplete(m: Match, s: string, start: nat)
    requires WellFormed(m) && m.fraction.Some?
    requires start == if m.negative then 1 else 0
    requires s == (if m.negative then "-" else "") + m.integer + ("." + m.fraction.value) + Tail(m)
    ensures MatchDecimal(s) == Some(m)
  {
    hide SignedDigits;
    hide DigitsEnd;
    hide MatchExponent;
    var mid := start + |m.integer|;
    var end := mid + 1 + |m.fraction.value|;
    assert s[start..mid] == m.integer;
    assert Digit(m.integer[0]) && s[start] == m.integer[0];
    assert s[mid] == '.';
    assert s[mid + 1..end] == m.fraction.value;
    assert s[end..] == Tail(m);
    ExponentComplete(m, s, end);
    DigitsEndExact(s, start, mid);
    DigitsEndExact(s, mid + 1, end);
  }

  lemma MatchComplete(m: Match)
    requires WellFormed(m)
    ensures MatchDecimal(Render(m)) == Some(m)
  {
    hide SignedDigits;
    hide MatchDecimal;
    var s, start := Render(m), if m.negative then 1 else 0;
    if m.fraction.Some? {
      FractionComplete(m, s, start);
    } else {
      assert s == (if m.negative then "-" else "") + m.integer + Tail(m);
      WholeComplete(m, s, start);
    }
  }

  // The match is exactly the well-formed reading of the text: it finds one when
  // there is one, and there is never a second.
  lemma MatchExactly(s: string, m: Match)
    ensures MatchDecimal(s) == Some(m) <==> WellFormed(m) && Render(m) == s
  {
    hide MatchDecimal;
    hide Render;
    hide WellFormed;
    MatchSound(s);
    if WellFormed(m) { MatchComplete(m); }
  }

  // ---- the exponent ----

  function Unsigned(text: string): string {
    if text != "" && (text[0] == '+' || text[0] == '-') then text[1..] else text
  }

  // The exponent's value, or nothing when it is out of bounds.
  function BoundedExponent(text: Option<string>): Option<int>
    requires text.Some? && text.value != "" ==> SignedDigits(text.value)
  {
    if text.None? || text.value == "" then Some(0)
    else
      var n: int := Num(Unsigned(text.value));
      if n > MAX_DECIMAL_DIGITS then None
      else Some(if text.value[0] == '-' then -n else n)
  }

  // Digit by digit, giving up as soon as the bound is passed.
  method ParseBoundedExponent(value: Option<string>) returns (r: Option<int>)
    requires value.Some? && value.value != "" ==> SignedDigits(value.value)
    ensures r == BoundedExponent(value)
  {
    if value.None? || value.value == "" { return Some(0); }
    var negative := value.value[0] == '-';
    var digits := Unsigned(value.value);
    var exponent: int := 0;
    for k := 0 to |digits|
      invariant exponent == Num(digits[..k]) <= MAX_DECIMAL_DIGITS
    {
      assert digits[..k + 1][..k] == digits[..k];
      exponent := exponent * 10 + DigitValue(digits[k]);
      if exponent > MAX_DECIMAL_DIGITS {
        NumGrows(digits, k + 1);
        return None;
      }
    }
    assert digits[..|digits|] == digits;
    return Some(if negative then -exponent else exponent);
  }

  // ---- positioning the decimal point ----

  // integer.replace(/^0+(?=\d)/, '')
  function StripZeros(s: string): (r: string)
    requires AllDigits(s)
    ensures AllDigits(r) && |r| <= |s|
    ensures s != "" ==> r != "" && (r[0] != '0' || |r| == 1)
  {
    if |s| > 1 && s[0] == '0' then
      assert forall i :: 0 <= i < |s[1..]| ==> s[1..][i] == s[i + 1];
      StripZeros(s[1..])
    else s
  }

  lemma {:induction false} StripKeepsValue(s: string, rest: string)
    requires AllDigits(s) && AllDigits(rest)
    ensures AllDigits(s + rest) && AllDigits(StripZeros(s) + rest)
    ensures Num(StripZeros(s) + rest) == Num(s + rest)
  {
    if |s| > 1 && s[0] == '0' {
      StripKeepsValue(s[1..], rest);
      assert s + rest == Zeros(1) + (s[1..] + rest);
      NumPadded(s[1..] + rest, 1);
    }
  }

  // The digits with the decimal point after position `index`, which may lie
  // outside them on either side.
  function Positioned(digits: string, index: int): (string, string) {
    if index <= 0 then ("0", Zeros(-index) + digits)
    else if index >= |digits| then (digits + Zeros(index - |digits|), "")
    else (digits[..index], digits[index..])
  }

  lemma PositionedDigits(digits: string, index: int)
    requires AllDigits(digits)
    ensures AllDigits(Positioned(digits, index).0) && AllDigits(Positioned(digits, index).1)
  {
  }

  function ParseCanonical(value: string): Option<Parts> {
    if |value| == 0 || |value| > MAX_DECIMAL_DIGITS then None
    else
      match MatchDecimal(value)
      case None => None
      case Some(m) =>
        MatchSound(value);
        match BoundedExponent(ExponentOf(m))
        case None => None
        case Some(exponent) => FromMatch(m, exponent)
  }

  function ExponentOf(m: Match): Option<string> {
    if m.exponent.Some? then Some(m.exponent.value.text) else None
  }

  function FractionOf(m: Match): string {
    if m.fraction.Some? then m.fraction.value else ""
  }

  function FromMatch(m: Match, exponent: int): Option<Parts>
    requires WellFormed(m)
  {
    var digits := m.integer + FractionOf(m);
    var index := |m.integer| + exponent;
    if (if index < 0 then -index else index) + |digits| > MAX_DECIMAL_DIGITS then None
    else
      PositionedDigits(digits, index);
      var (integer, fraction) := Positioned(digits, index);
      Some(Parts(m.negative, StripZeros(integer), fraction))
  }

  method ParseCanonicalDecimal(value: string) returns (r: Option<Parts>)
    ensures r == ParseCanonical(value)
  {
    hide FromMatch;
    hide Render;
    hide MatchDecimal;
    if |value| == 0 || |value| > MAX_DECIMAL_DIGITS { return None; }
    var m := MatchDecimal(value);
    if m.None? { return None; }
    MatchSound(value);
    var exponent := ParseBoundedExponent(ExponentOf(m.value));
    if exponent.None? { return None; }
    return FromMatch(m.value, exponent.value);
  }

  // ---- the value is preserved ----

  ghost predicate ValidParts(p: Parts) {
    p.integer != "" && AllDigits(p.integer) && AllDigits(p.fraction)
  }

  // The absolute value denoted by the parts.
  ghost function Magnitude(p: Parts): real
    requires ValidParts(p)
  {
    NumConcat(p.integer, p.fraction);
    Times(Num(p.integer + p.fraction) as real, Ten(-|p.fraction|))
  }

  lemma PositionedValue(digits: string, index: int)
    requires AllDigits(digits)
    ensures var (integer, fraction) := Positioned(digits, index);
            && AllDigits(integer) && AllDigits(fraction) && AllDigits(integer + fraction)
            && Times(Num(integer + fraction) as real, Ten(-|fraction|)) ==
                 Times(Num(digits) as real, Ten(index - |digits|))
  {
    hide Num;
    var (integer, fraction) := Positioned(digits, index);
    if index <= 0 {
      assert integer + fraction == Zeros(1 - index) + digits;
      NumPadded(digits, 1 - index);
    } else if index >= |digits| {
      var n := index - |digits|;
      assert integer + fraction == digits + Zeros(n);
      NumPadded(digits, n);
      TenIsPow(n);
      TenZero();
      hide Ten;
      hide Times;
      TimesNat(Num(digits), Pow10(n));
      TimesOne((Num(digits) * Pow10(n)) as real);
    } else {
      assert integer + fraction == digits;
    }
  }

  // Parsing keeps the exact value, coefficient times ten to the exponent, and
  // yields at most one digit more than the limit.
  lemma ParseKeepsValue(value: string)
    ensures ParseCanonical(value).Some? ==>
              var m := MatchDecimal(value).value;
              var p := ParseCanonical(value).value;
              && WellFormed(m) && Render(m) == value
              && BoundedExponent(ExponentOf(m)).Some?
              && ValidParts(p) && p.negative == m.negative
              && (p.integer[0] != '0' || |p.integer| == 1)
              && |p.integer| + |p.fraction| <= MAX_DECIMAL_DIGITS + 1
              && AllDigits(m.integer + FractionOf(m))
              && Magnitude(p) ==
                   Times(Num(m.integer + FractionOf(m)) as real,
                         Ten(BoundedExponent(ExponentOf(m)).value - |FractionOf(m)|))
  {
    hide MatchDecimal;
    hide Render;
    hide Ten;
    hide Times;
    hide Num;
    hide StripZeros;
    hide BoundedExponent;
    if ParseCanonical(value).Some? {
      MatchSound(value);
      var m := MatchDecimal(value).value;
      var digits := m.integer + FractionOf(m);
      var index := |m.integer| + BoundedExponent(ExponentOf(m)).value;
      PositionedValue(digits, index);
      var (integer, fraction) := Positioned(digits, index);
      StripKeepsValue(integer, fraction);
    }
  }
}
