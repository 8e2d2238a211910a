// Reading a displayed number back: the sign, the groups and the decimal mark stand
// where they must, and the text means the rounded value.
module DecimalReading {
  import opened Arithmetic
  import opened Wrappers
  import opened Digits
  import opened DecimalParsing
  import opened DecimalRounding
  import opened DecimalFormatting

  // ---- a reader that knows the separators and nothing of how the text was made ----

  // Where the leading run of characters that are no digits ends.
  function Gap(s: string): (n: nat)
    ensures n <= |s|
    ensures forall i :: 0 <= i < n ==> !Digit(s[i])
    ensures n < |s| ==> Digit(s[n])
  {
    if s == "" || Digit(s[0]) then 0 else 1 + Gap(s[1..])
  }

  // The text without the runs between digits that are the group separator.
  function Ungrouped(s: string, group: string): string
    decreases |s|
  {
    if s == "" then ""
    else if Digit(s[0]) then [s[0]] + Ungrouped(s[1..], group)
    else (if s[..Gap(s)] == group then "" else s[..Gap(s)]) + Ungrouped(s[Gap(s)..], group)
  }

  function WithoutMinus(text: string, minus: string): string {
    if minus <= text then text[|minus|..] else text
  }

  // The number a displayed text shows.
  function ReadBack(text: string, syntax: Syntax): Parts {
    var plain := Ungrouped(WithoutMinus(text, syntax.minus), syntax.group);
    var at := DigitsEnd(plain, 0);
    Parts(syntax.minus <= text, plain[..at],
          if syntax.decimal <= plain[at..] then plain[at + |syntax.decimal|..] else "")
  }

  // The minus and the decimal mark are there and can be told from digits and groups.
  ghost predicate Readable(syntax: Syntax) {
    && ValidSyntax(syntax)
    && syntax.minus != "" && syntax.decimal != "" && syntax.decimal != syntax.group
  }

  // ---- reading digits and separators ----

  lemma GapIs(mark: string, rest: string)
    requires NoDigits(mark) && rest != "" && Digit(rest[0])
    ensures Gap(mark + rest) == |mark|
    decreases |mark|
  {
    var s := mark + rest;
    assert forall i :: 0 <= i < |mark| ==> s[i] == mark[i];
    assert s[|mark|] == rest[0];
  }

  lemma {:induction false} ReadDigits(a: string, rest: string, group: string)
    requires AllDigits(a)
    ensures Ungrouped(a + rest, group) == a + Ungrouped(rest, group)
  {
    if a == "" {
      assert a + rest == rest;
    } else {
      ReadDigits(a[1..], rest, group);
      assert (a + rest)[1..] == a[1..] + rest;
      assert a == [a[0]] + a[1..];
    }
  }

  lemma ReadMark(mark: string, rest: string, group: string)
    requires NoDigits(mark) && mark != "" && rest != "" && Digit(rest[0])
    ensures Ungrouped(mark + rest, group) == (if mark == group then "" else mark) + Ungrouped(rest, group)
  {
    GapIs(mark, rest);
    var s := mark + rest;
    assert s[0] == mark[0];
    assert s[..|mark|] == mark && s[|mark|..] == rest;
  }

  ghost predicate DigitSegments(segments: seq<string>) {
    forall i :: 0 <= i < |segments| ==> segments[i] != "" && AllDigits(segments[i])
  }

  lemma JoinStarts(segments: seq<string>, separator: string)
    requires DigitSegments(segments) && segments != []
    ensures Join(segments, separator) != "" && Digit(Join(segments, separator)[0])
  {
  }

  lemma {:induction false} ReadSegments(segments: seq<string>, group: string, tail: string)
    requires DigitSegments(segments) && NoDigits(group) && group != ""
    ensures Ungrouped(Join(segments, group) + tail, group) == Concat(segments) + Ungrouped(tail, group)
  {
    hide Ungrouped;
    if segments == [] {
      assert "" + tail == tail;
    } else if |segments| == 1 {
      ReadDigits(segments[0], tail, group);
      assert Concat(segments) == segments[0] + Concat([]);
      assert segments[0] + "" == segments[0];
    } else {
      ReadSegments(segments[1..], group, tail);
      JoinStarts(segments[1..], group);
      JoinStep(segments, group);
      hide Join;
      hide NoDigits;
      hide DigitSegments;
      ReadSegment(segments[0], group, Join(segments[1..], group) + tail);
      assert Join(segments, group) + tail == segments[0] + (group + (Join(segments[1..], group) + tail));
    }
  }

  lemma ReadSegment(segment: string, group: string, rest: string)
    requires AllDigits(segment) && NoDigits(group) && group != "" && rest != "" && Digit(rest[0])
    ensures Ungrouped(segment + (group + rest), group) == segment + Ungrouped(rest, group)
  {
    hide Ungrouped;
    ReadMark(group, rest, group);
    ReadDigits(segment, group + rest, group);
  }

  lemma JoinStep(segments: seq<string>, group: string)
    requires |segments| > 1
    ensures Join(segments, group) == segments[0] + group + Join(segments[1..], group)
  {
  }

  lemma {:induction false} SegmentsAreDigits(integer: string, cursor: nat, size: nat, secondary: nat)
    requires AllDigits(integer) && cursor <= |integer| && size > 0 && secondary > 0
    ensures DigitSegments(SegmentsBefore(integer, cursor, size, secondary))
  {
    if cursor > 0 {
      var start := if cursor > size then cursor - size else 0;
      SegmentsAreDigits(integer, start, secondary, secondary);
    }
  }

  lemma ReadGrouped(integer: string, syntax: Syntax, tail: string)
    requires AllDigits(integer) && ValidSyntax(syntax)
    ensures Ungrouped(Grouped(integer, syntax.group, syntax.primarySize, syntax.secondarySize) + tail, syntax.group) ==
            integer + Ungrouped(tail, syntax.group)
  {
    hide Ungrouped;
    var primary, secondary := syntax.primarySize, syntax.secondarySize;
    if syntax.group == "" || primary == 0 || |integer| <= primary {
      ReadDigits(integer, tail, syntax.group);
    } else {
      SegmentsAreDigits(integer, |integer|, primary, secondary);
      SegmentsCorrect(integer, |integer|, primary, secondary);
      assert integer[..|integer|] == integer;
      ReadSegments(SegmentsBefore(integer, |integer|, primary, secondary), syntax.group, tail);
    }
  }

  lemma GroupedStarts(integer: string, syntax: Syntax)
    requires AllDigits(integer) && integer != "" && ValidSyntax(syntax)
    ensures var g := Grouped(integer, syntax.group, syntax.primarySize, syntax.secondarySize);
            g != "" && Digit(g[0])
  {
    if syntax.group != "" && syntax.primarySize > 0 && |integer| > syntax.primarySize {
      SegmentsAreDigits(integer, |integer|, syntax.primarySize, syntax.secondarySize);
      JoinStarts(SegmentsBefore(integer, |integer|, syntax.primarySize, syntax.secondarySize), syntax.group);
    }
  }

  // ---- the displayed text ----

  lemma ReadTail(fraction: string, syntax: Syntax)
    requires AllDigits(fraction) && Readable(syntax)
    ensures var tail := if fraction != "" then syntax.decimal + fraction else "";
            Ungrouped(tail, syntax.group) == tail
  {
    if fraction != "" {
      ReadMark(syntax.decimal, fraction, syntax.group);
      ReadDigits(fraction, "", syntax.group);
      assert fraction + "" == fraction;
    }
  }

  lemma AssembledReadsBack(p: Parts, syntax: Syntax)
    requires ValidParts(p) && Readable(syntax)
    ensures var text := Assembled(p, syntax);
            && (syntax.minus <= text <==> p.negative)
            && Ungrouped(WithoutMinus(text, syntax.minus), syntax.group) ==
                 p.integer + (if p.fraction != "" then syntax.decimal + p.fraction else "")
  {
    hide Ungrouped;
    var grouped := Grouped(p.integer, syntax.group, syntax.primarySize, syntax.secondarySize);
    var tail := if p.fraction != "" then syntax.decimal + p.fraction else "";
    var text := Assembled(p, syntax);
    GroupedStarts(p.integer, syntax);
    ReadGrouped(p.integer, syntax, tail);
    ReadTail(p.fraction, syntax);
    hide Grouped;
    if p.negative {
      assert text == syntax.minus + (grouped + tail);
      assert text[|syntax.minus|..] == grouped + tail;
    } else {
      assert text == grouped + tail;
      assert text[0] == grouped[0] && !Digit(syntax.minus[0]);
    }
  }

  lemma PlainReadsBack(p: Parts, text: string, syntax: Syntax)
    requires ValidParts(p) && Readable(syntax)
    requires syntax.minus <= text <==> p.negative
    requires Ungrouped(WithoutMinus(text, syntax.minus), syntax.group) ==
             p.integer + (if p.fraction != "" then syntax.decimal + p.fraction else "")
    ensures ReadBack(text, syntax) == p
  {
    hide Ungrouped;
    hide WithoutMinus;
    var tail := if p.fraction != "" then syntax.decimal + p.fraction else "";
    var plain := p.integer + tail;
    assert tail != "" ==> plain[|p.integer|] == tail[0] == syntax.decimal[0];
    assert plain[0..|p.integer|] == p.integer;
    DigitsEndExact(plain, 0, |p.integer|);
    assert plain[|p.integer|..] == tail;
    if p.fraction != "" {
      assert plain[|p.integer| + |syntax.decimal|..] == p.fraction;
    }
  }

  lemma SignOf(value: string)
    requires ParseCanonical(value).Some?
    ensures value != ""
    ensures ParseCanonical(value).value.negative <==> value[0] == '-'
  {
    ParseKeepsValue(value);
    var m := MatchDecimal(value).value;
    assert Render(m) == value;
    if !m.negative {
      assert value[0] == m.integer[0];
    } else {
      assert value[0] == "-"[0];
    }
  }

  // The displayed text reads back as the parsed number, or as that number rounded. Its
  // minus is there exactly when the input has one, even where the digits round to zero.
  lemma DisplayReadsBack(value: string, syntax: Syntax, precision: Precision)
    requires Readable(syntax) && Formatted(value, syntax, precision).Some?
    ensures ParseCanonical(value).Some? && ValidParts(ParseCanonical(value).value) && value != ""
    ensures var text, parsed := Formatted(value, syntax, precision).value, ParseCanonical(value).value;
            var shown := ReadBack(text, syntax);
            && (syntax.minus <= text <==> value[0] == '-')
            && shown.negative == (value[0] == '-')
            && ValidParts(shown)
            && Ungrouped(WithoutMinus(text, syntax.minus), syntax.group) ==
                 shown.integer + (if shown.fraction != "" then syntax.decimal + shown.fraction else "")
            && (precision.Absent? ==> shown == parsed)
            && (precision.Whole? ==>
                  && 0 <= precision.places <= 18 && |shown.fraction| == precision.places
                  && NearestReal(Scaled(shown), Times(Magnitude(parsed), Ten(precision.places))))
  {
    ParseKeepsValue(value);
    SignOf(value);
    hide ParseCanonical;
    hide MatchDecimal;
    hide Render;
    hide Times;
    hide Ten;
    hide Num;
    hide Magnitude;
    hide NearestReal;
    hide ReadBack;
    hide Ungrouped;
    hide WithoutMinus;
    hide Scaled;
    hide Assembled;
    hide AllDigits;
    hide Readable;
    hide Adjusted;
    var p := ParseCanonical(value).value;
    AdjustedRounds(p, precision);
    var shown := Adjusted(p, precision).value;
    AssembledReadsBack(shown, syntax);
    PlainReadsBack(shown, Formatted(value, syntax, precision).value, syntax);
  }

  lemma AdjustedRounds(p: Parts, precision: Precision)
    requires ValidParts(p)
    ensures Adjusted(p, precision).Some? ==>
              var shown := Adjusted(p, precision).value;
              && ValidParts(shown) && shown.negative == p.negative
              && (precision.Absent? ==> shown == p)
              && (precision.Whole? ==>
                    && 0 <= precision.places <= 18 && |shown.fraction| == precision.places
                    && NearestReal(Scaled(shown), Times(Magnitude(p), Ten(precision.places))))
  {
    hide Rounded;
    hide Times;
    hide Ten;
    hide Pow10;
    hide Num;
    hide NearestTiesAway;
    hide Magnitude;
    hide NearestReal;
    hide Scaled;
    if precision.Whole? && 0 <= precision.places <= 18 {
      RoundedCorrect(p, precision.places);
      RoundedNearest(p, Rounded(p, precision.places), precision.places);
    }
  }

  // ---- which texts are shown ----

  // The exponent a reading carries, zero where it has none.
  function ExponentIn(m: Match): int
    requires WellFormed(m)
  {
    match m.exponent
    case None => 0
    case Some(e) =>
      if e.text[0] == '-' then -(Num(e.text[1..]) as int)
      else if e.text[0] == '+' then Num(e.text[1..])
      else Num(e.text)
  }

  function Distance(n: int): nat {
    if n < 0 then -n else n
  }

  // A reading stays within the limits: its text, its exponent, and how far the decimal
  // point ends up from its digits.
  predicate WithinLimits(m: Match)
    requires WellFormed(m)
  {
    && |Render(m)| <= 10000
    && Distance(ExponentIn(m)) <= 10000
    && Distance(|m.integer| + ExponentIn(m)) + |m.integer| + |FractionOf(m)| <= 10000
  }

  ghost predicate Reads(value: string, m: Match) {
    WellFormed(m) && Render(m) == value
  }

  lemma ExponentBounded(m: Match)
    requires WellFormed(m)
    ensures BoundedExponent(ExponentOf(m)) == if Distance(ExponentIn(m)) <= 10000 then Some(ExponentIn(m)) else None
  {
    hide Num;
    if m.exponent.Some? { MinusIsSign(m.exponent.value.text); }
  }

  lemma MinusIsSign(text: string)
    requires SignedDigits(text)
    ensures text[0] == '-' || text[0] == '+' ==> AllDigits(text[1..]) && Unsigned(text) == text[1..]
    ensures text[0] != '-' && text[0] != '+' ==> AllDigits(text) && Unsigned(text) == text
  {
  }

  lemma PlacedExactly(m: Match, exponent: int)
    requires WellFormed(m)
    ensures FromMatch(m, exponent).Some? <==>
            Distance(|m.integer| + exponent) + |m.integer| + |FractionOf(m)| <= 10000
  {
    hide Positioned;
    hide StripZeros;
  }

  lemma RenderedLonger(m: Match)
    requires WellFormed(m)
    ensures Render(m) != ""
  {
    assert |Render(m)| >= |m.integer| > 0;
  }

  lemma ReadingParses(value: string, m: Match)
    requires Reads(value, m)
    ensures MatchDecimal(value) == Some(m)
    ensures ParseCanonical(value).Some? <==> WithinLimits(m)
  {
    MatchExactly(value, m);
    RenderedLonger(m);
    ExponentBounded(m);
    PlacedExactly(m, ExponentIn(m));
    hide MatchDecimal;
    hide Render;
    hide WellFormed;
    hide FromMatch;
    hide BoundedExponent;
    hide ExponentIn;
  }

  // A text is shown exactly when it has a reading within the limits and the precision, if
  // any, is a whole number from 0 to 18.
  lemma ShownExactly(value: string, syntax: Syntax, precision: Precision)
    requires syntax.primarySize > 0 ==> syntax.secondarySize > 0
    ensures Formatted(value, syntax, precision).Some? <==>
              && (exists m :: Reads(value, m) && WithinLimits(m))
              && (precision.Absent? || (precision.Whole? && 0 <= precision.places <= 18))
  {
    hide Render;
    hide MatchDecimal;
    hide WellFormed;
    hide FromMatch;
    hide WithinLimits;
    hide BoundedExponent;
    hide Rounded;
    hide Assembled;
    var found := MatchDecimal(value);
    if found.Some? {
      MatchExactly(value, found.value);
      ReadingParses(value, found.value);
    }
    forall m | Reads(value, m)
      ensures ParseCanonical(value).Some? <==> WithinLimits(m)
    {
      ReadingParses(value, m);
    }
  }

  // ---- where the groups stand ----

  lemma {:induction false} SegmentsOfPrefix(integer: string, n: nat, cursor: nat, size: nat, secondary: nat)
    requires cursor <= n <= |integer| && size > 0 && secondary > 0
    ensures SegmentsBefore(integer[..n], cursor, size, secondary) == SegmentsBefore(integer, cursor, size, secondary)
    decreases cursor
  {
    if cursor > 0 {
      var start := if cursor > size then cursor - size else 0;
      SegmentsOfPrefix(integer, n, start, secondary, secondary);
      assert integer[..n][start..cursor] == integer[start..cursor];
    }
  }

  lemma {:induction false} JoinAppend(segments: seq<string>, last: string, separator: string)
    ensures Join(segments + [last], separator) ==
            if segments == [] then last else Join(segments, separator) + separator + last
  {
    if segments == [] {
      assert segments + [last] == [last];
    } else {
      assert (segments + [last])[1..] == segments[1..] + [last];
      JoinAppend(segments[1..], last, separator);
    }
  }

  // Grouping peels off the last digits, as many as the primary size, and groups what is
  // before them by the secondary size. An integer that is short enough stays whole, and
  // so does any where there is no separator or no group size.
  lemma GroupsPeel(integer: string, group: string, primary: nat, secondary: nat)
    requires primary > 0 && |integer| > primary && group != "" ==> secondary > 0
    ensures group == "" || primary == 0 || |integer| <= primary ==>
              Grouped(integer, group, primary, secondary) == integer
    ensures group != "" && 0 < primary < |integer| ==>
              var n := |integer| - primary;
              Grouped(integer, group, primary, secondary) ==
                Grouped(integer[..n], group, secondary, secondary) + group + integer[n..]
  {
    if group != "" && 0 < primary < |integer| {
      var n := |integer| - primary;
      var rest := SegmentsBefore(integer, n, secondary, secondary);
      assert integer[n..|integer|] == integer[n..];
      assert SegmentsBefore(integer, |integer|, primary, secondary) == rest + [integer[n..]];
      SegmentsCorrect(integer, n, secondary, secondary);
      JoinAppend(rest, integer[n..], group);
      SegmentsOfPrefix(integer, n, n, secondary, secondary);
      if n <= secondary { WholeSegment(integer[..n], secondary); }
      hide SegmentsBefore;
    }
  }

  lemma WholeSegment(integer: string, size: nat)
    requires 0 < |integer| <= size
    ensures SegmentsBefore(integer, |integer|, size, size) == [integer]
  {
    assert integer[0..|integer|] == integer;
  }
}
