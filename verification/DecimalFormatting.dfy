// Grouping the integer digits and assembling the text, and reading it back.
module DecimalFormatting {
  import opened Arithmetic
  import opened Wrappers
  import opened Digits
  import opened DecimalParsing
  import opened DecimalRounding

  // Separators and group sizes of a locale.
  datatype Syntax = Syntax(group: string, decimal: string, minus: string, primarySize: nat, secondarySize: nat)

  // ---- segments ----

  function Concat(segments: seq<string>): string {
    if segments == [] then "" else segments[0] + Concat(segments[1..])
  }

  function Join(segments: seq<string>, separator: string): string {
    if segments == [] then ""
    else if |segments| == 1 then segments[0]
    else segments[0] + separator + Join(segments[1..], separator)
  }

  // Segments of an integer before position `cursor`, the rightmost of size `size`.
  function SegmentsBefore(integer: string, cursor: nat, size: nat, secondary: nat): seq<string>
    requires cursor <= |integer| && size > 0 && secondary > 0
    decreases cursor
  {
    if cursor == 0 then []
    else
      var start := if cursor > size then cursor - size else 0;
      SegmentsBefore(integer, start, secondary, secondary) + [integer[start..cursor]]
  }

  lemma {:induction false} ConcatAppend(segments: seq<string>, last: string)
    ensures Concat(segments + [last]) == Concat(segments) + last
  {
    if segments == [] {
      assert segments + [last] == [last];
    } else {
      assert (segments + [last])[1..] == segments[1..] + [last];
      ConcatAppend(segments[1..], last);
    }
  }

  // The segments put together are the integer again; the last has the primary size,
  // every other but the first the secondary size, and the first is not empty.
  lemma {:induction false} SegmentsCorrect(integer: string, cursor: nat, size: nat, secondary: nat)
    requires cursor <= |integer| && size > 0 && secondary > 0
    ensures var segments := SegmentsBefore(integer, cursor, size, secondary);
            && Concat(segments) == integer[..cursor]
            && (cursor > 0 <==> segments != [])
            && (forall i :: 0 < i < |segments| - 1 ==> |segments[i]| == secondary)
            && (|segments| > 1 ==> |segments[|segments| - 1]| == size && 1 <= |segments[0]| <= secondary)
            && (|segments| == 1 ==> 1 <= |segments[0]| <= size)
  {
    if cursor > 0 {
      var start := if cursor > size then cursor - size else 0;
      SegmentsCorrect(integer, start, secondary, secondary);
      ConcatAppend(SegmentsBefore(integer, start, secondary, secondary), integer[start..cursor]);
      assert integer[..start] + integer[start..cursor] == integer[..cursor];
    }
  }

  function Grouped(integer: string, group: string, primary: nat, secondary: nat): string
    requires primary > 0 && |integer| > primary && group != "" ==> secondary > 0
  {
    if group == "" || primary == 0 || |integer| <= primary then integer
    else Join(SegmentsBefore(integer, |integer|, primary, secondary), group)
  }

  // The locale lookup never pairs a positive primary size with a secondary size of zero.
  method GroupInteger(integer: string, group: string, primary: nat, secondary: nat) returns (r: string)
    requires primary > 0 && |integer| > primary && group != "" ==> secondary > 0
    ensures r == Grouped(integer, group, primary, secondary)
  {
    if group == "" || primary == 0 || |integer| <= primary { return integer; }
    var segments: seq<string> := [];
    var cursor, size := |integer|, primary;
    while cursor > 0
      invariant 0 <= cursor <= |integer| && size > 0
      invariant SegmentsBefore(integer, cursor, size, secondary) + segments ==
                SegmentsBefore(integer, |integer|, primary, secondary)
      decreases cursor
    {
      var start := if cursor > size then cursor - size else 0;
      assert SegmentsBefore(integer, cursor, size, secondary) + segments ==
             SegmentsBefore(integer, start, secondary, secondary) + ([integer[start..cursor]] + segments);
      segments := [integer[start..cursor]] + segments;
      cursor := start;
      size := secondary;
    }
    assert [] + segments == segments;
    return Join(segments, group);
  }

  // ---- deleting everything that is not a digit ----

  function DigitsOf(s: string): (r: string)
    ensures AllDigits(r)
  {
    if s == "" then ""
    else
      var rest := DigitsOf(s[..|s| - 1]);
      if Digit(s[|s| - 1]) then rest + [s[|s| - 1]] else rest
  }

  predicate NoDigits(s: string) {
    forall i :: 0 <= i < |s| ==> !Digit(s[i])
  }

  lemma {:induction false} DigitsOfConcat(a: string, b: string)
    ensures DigitsOf(a + b) == DigitsOf(a) + DigitsOf(b)
  {
    if b == "" {
      assert a + b == a;
    } else {
      assert (a + b)[..|a + b| - 1] == a + b[..|b| - 1];
      DigitsOfConcat(a, b[..|b| - 1]);
    }
  }

  lemma {:induction false} DigitsOfDigits(s: string)
    requires AllDigits(s)
    ensures DigitsOf(s) == s
  {
    if s != "" { DigitsOfDigits(s[..|s| - 1]); }
  }

  lemma {:induction false} DigitsOfNone(s: string)
    requires NoDigits(s)
    ensures DigitsOf(s) == ""
  {
    if s != "" { DigitsOfNone(s[..|s| - 1]); }
  }

  lemma {:induction false} DigitsOfJoin(segments: seq<string>, separator: string)
    requires NoDigits(separator)
    ensures DigitsOf(Join(segments, separator)) == DigitsOf(Concat(segments))
  {
    hide DigitsOf;
    if segments != [] {
      DigitsOfNone(separator);
      DigitsOfConcat(segments[0], Concat(segments[1..]));
      if |segments| == 1 {
        assert segments[0] + Concat(segments[1..]) == segments[0];
      } else {
        DigitsOfJoin(segments[1..], separator);
        DigitsOfConcat(segments[0], separator);
        DigitsOfConcat(segments[0] + separator, Join(segments[1..], separator));
      }
    }
  }

  // Deleting the separators undoes the grouping.
  lemma GroupingUndone(integer: string, group: string, primary: nat, secondary: nat)
    requires primary > 0 && |integer| > primary && group != "" ==> secondary > 0
    requires AllDigits(integer) && NoDigits(group)
    ensures DigitsOf(Grouped(integer, group, primary, secondary)) == integer
  {
    DigitsOfDigits(integer);
    if group != "" && primary > 0 && |integer| > primary {
      SegmentsCorrect(integer, |integer|, primary, secondary);
      assert integer[..|integer|] == integer;
      DigitsOfJoin(SegmentsBefore(integer, |integer|, primary, secondary), group);
    }
  }

  // ---- the whole formatter ----

  ghost predicate ValidSyntax(syntax: Syntax) {
    && NoDigits(syntax.group) && NoDigits(syntax.decimal) && NoDigits(syntax.minus)
    && (syntax.primarySize > 0 ==> syntax.secondarySize > 0)
  }

  function Assembled(p: Parts, syntax: Syntax): string
    requires syntax.primarySize > 0 ==> syntax.secondarySize > 0
  {
    (if p.negative then syntax.minus else "") +
    Grouped(p.integer, syntax.group, syntax.primarySize, syntax.secondarySize) +
    (if p.fraction != "" then syntax.decimal + p.fraction else "")
  }

  method FormatCanonicalDecimal(value: string, syntax: Syntax, precision: Precision) returns (r: Option<string>)
    requires syntax.primarySize > 0 ==> syntax.secondarySize > 0
    ensures r == Formatted(value, syntax, precision)
  {
    hide ParseCanonical;
    hide Adjusted;
    hide Grouped;
    var parsed := ParseCanonicalDecimal(value);
    if parsed.None? { return None; }
    ParsedDigits(value);
    var adjusted := WithPrecision(parsed.value, precision);
    if adjusted.None? { return None; }
    var p := adjusted.value;
    var integer := GroupInteger(p.integer, syntax.group, syntax.primarySize, syntax.secondarySize);
    r := Some((if p.negative then syntax.minus else "") + integer +
              (if p.fraction != "" then syntax.decimal + p.fraction else ""));
  }

  lemma ParsedDigits(value: string)
    ensures ParseCanonical(value).Some? ==>
              AllDigits(ParseCanonical(value).value.integer) && AllDigits(ParseCanonical(value).value.fraction)
  {
    ParseKeepsValue(value);
  }

  function Formatted(value: string, syntax: Syntax, precision: Precision): Option<string>
    requires syntax.primarySize > 0 ==> syntax.secondarySize > 0
  {
    match ParseCanonical(value)
    case None => None
    case Some(parsed) =>
      ParsedDigits(value);
      match Adjusted(parsed, precision)
      case None => None
      case Some(p) => Some(Assembled(p, syntax))
  }

  lemma AssembledDigits(p: Parts, syntax: Syntax)
    requires ValidParts(p) && ValidSyntax(syntax)
    ensures DigitsOf(Assembled(p, syntax)) == p.integer + p.fraction
  {
    var sign := if p.negative then syntax.minus else "";
    var grouped := Grouped(p.integer, syntax.group, syntax.primarySize, syntax.secondarySize);
    var tail := if p.fraction != "" then syntax.decimal + p.fraction else "";
    DigitsOfNone(sign);
    GroupingUndone(p.integer, syntax.group, syntax.primarySize, syntax.secondarySize);
    TailDigits(p.fraction, syntax.decimal);
    hide Grouped;
    hide DigitsOf;
    hide AllDigits;
    hide NoDigits;
    DigitsOfConcat(sign, grouped);
    DigitsOfConcat(sign + grouped, tail);
    assert "" + p.integer == p.integer;
  }

  lemma TailDigits(fraction: string, decimal: string)
    requires AllDigits(fraction) && NoDigits(decimal)
    ensures DigitsOf(if fraction != "" then decimal + fraction else "") == fraction
  {
    DigitsOfNone(decimal);
    DigitsOfDigits(fraction);
    DigitsOfConcat(decimal, fraction);
  }

  // r is x rounded to the nearest integer, a tie going up.
  ghost predicate NearestReal(r: nat, x: real) {
    -0.5 < r as real - x <= 0.5
  }

  lemma NearestScaled(r: nat, n: nat, unit: nat, x: real)
    requires unit > 0 && NearestTiesAway(r, n, unit) && n as real == Times(x, unit as real)
    ensures NearestReal(r, x)
  {
    NearestError(r, n, unit);
    hide NearestTiesAway;
    TimesNat(r, unit);
    hide Times;
    var u := unit as real;
    assert -u < 2.0 * ((r * unit) as real - n as real) <= u;
    TimesDifference(r as real, x, u);
    ScaleDown(r as real - x, u);
  }

  lemma ScaleDown(e: real, u: real)
    requires u > 0.0 && -u < 2.0 * Times(e, u) <= u
    ensures -0.5 < e <= 0.5
  {
  }

  // The digits of the formatted text, with the point `places` from the right, are
  // the value rounded to that many places, a tie going away from zero.
  lemma FormattingRounds(value: string, syntax: Syntax, places: int)
    requires ValidSyntax(syntax) && 0 <= places <= 18 && ParseCanonical(value).Some?
    ensures Formatted(value, syntax, Whole(places)).Some?
    ensures ValidParts(ParseCanonical(value).value)
    ensures NearestReal(Num(DigitsOf(Formatted(value, syntax, Whole(places)).value)),
                        Times(Magnitude(ParseCanonical(value).value), Ten(places)))
  {
    ParseKeepsValue(value);
    hide ParseCanonical;
    hide Times;
    hide Ten;
    hide Pow10;
    hide NearestTiesAway;
    hide DigitsOf;
    hide AllDigits;
    var p := ParseCanonical(value).value;
    RoundedCorrect(p, places);
    AssembledDigits(Rounded(p, places), syntax);
    RoundedNearest(p, Rounded(p, places), places);
    hide Rounded;
    hide Assembled;
    hide Num;
    hide Magnitude;
    hide NearestReal;
  }

  lemma RoundedNearest(p: Parts, r: Parts, places: nat)
    requires ValidParts(p) && ValidParts(r)
    requires if |p.fraction| <= places then Scaled(r) == Scaled(p) * Pow10(places - |p.fraction|)
             else NearestTiesAway(Scaled(r), Scaled(p), Pow10(|p.fraction| - places))
    ensures NearestReal(Scaled(r), Times(Magnitude(p), Ten(places)))
  {
    hide Num;
    hide NearestTiesAway;
    hide Times;
    hide Ten;
    hide Pow10;
    if |p.fraction| <= places {
      ExactScale(Scaled(p), |p.fraction|, places);
    } else {
      InverseScale(Scaled(p), |p.fraction|, places);
      NearestScaled(Scaled(r), Scaled(p), Pow10(|p.fraction| - places), Times(Magnitude(p), Ten(places)));
    }
  }

  lemma ExactScale(n: nat, f: nat, places: nat)
    requires f <= places
    ensures (n * Pow10(places - f)) as real == Times(Times(n as real, Ten(0 - f)), Ten(places))
  {
    hide Ten;
    hide Times;
    hide Pow10;
    TenSum(0 - f, places);
    TenIsPow(places - f);
    TimesAssociates(n as real, Ten(0 - f), Ten(places));
    TimesNat(n, Pow10(places - f));
  }

  lemma InverseScale(n: nat, f: nat, places: nat)
    requires f > places
    ensures n as real == Times(Times(Times(n as real, Ten(0 - f)), Ten(places)), Pow10(f - places) as real)
  {
    TenZero();
    hide Ten;
    hide Times;
    hide Pow10;
    TenSum(0 - f, places);
    TenSum(places - f, f - places);
    TenIsPow(f - places);
    TimesAssociates(n as real, Ten(0 - f), Ten(places));
    TimesAssociates(n as real, Ten(places - f), Ten(f - places));
    TimesOne(n as real);
  }
}
