// Reading a factor expression: parameters are substituted, then the text is matched
// against the allowed formulas.
module FactorExpressions {
  import opened Wrappers
  import opened Market
  import opened Digits
  import opened FactorScores

  // ---- substitution ----

  function Placeholder(key: string): string {
    "{" + key + "}"
  }

  // Every occurrence from left to right, none overlapping.
  function Replace(s: string, pattern: string, value: string): string
    requires pattern != ""
  {
    if |s| < |pattern| then s
    else if s[..|pattern|] == pattern then value + Replace(s[|pattern|..], pattern, value)
    else [s[0]] + Replace(s[1..], pattern, value)
  }

  datatype Parameter = Parameter(key: string, value: string)

  // One parameter after the other, in the order of the dictionary.
  function Resolved(expression: string, parameters: seq<Parameter>): string {
    if parameters == [] then expression
    else
      var n := |parameters| - 1;
      Replace(Resolved(expression, parameters[..n]), Placeholder(parameters[n].key), parameters[n].value)
  }

  predicate Braceless(s: string) {
    forall i :: 0 <= i < |s| ==> s[i] != '{'
  }

  lemma {:induction false} ReplaceAbsent(s: string, key: string, value: string)
    requires Braceless(s)
    ensures Replace(s, Placeholder(key), value) == s
  {
    if |s| >= |Placeholder(key)| {
      assert s[..|Placeholder(key)|][0] == s[0] != Placeholder(key)[0];
      ReplaceAbsent(s[1..], key, value);
    }
  }

  lemma {:induction false} ReplaceNext(before: string, key: string, rest: string, value: string)
    requires Braceless(before)
    ensures Replace(before + Placeholder(key) + rest, Placeholder(key), value) ==
            before + value + Replace(rest, Placeholder(key), value)
  {
    var pattern := Placeholder(key);
    var s := before + pattern + rest;
    if before == "" {
      assert s == pattern + rest;
      assert s[..|pattern|] == pattern && s[|pattern|..] == rest;
    } else {
      assert s[..|pattern|][0] == before[0] != pattern[0];
      assert s[1..] == before[1..] + pattern + rest;
      ReplaceNext(before[1..], key, rest, value);
      var tail := Replace(rest, pattern, value);
      assert [before[0]] + (before[1..] + value + tail) == before + value + tail;
    }
  }

  // A single placeholder is replaced where it stands.
  lemma ReplaceOne(before: string, key: string, after: string, value: string)
    requires Braceless(before) && Braceless(after)
    ensures Replace(before + Placeholder(key) + after, Placeholder(key), value) == before + value + after
  {
    ReplaceNext(before, key, after, value);
    ReplaceAbsent(after, key, value);
  }

  function Joined(pieces: seq<string>, between: string): string {
    if pieces == [] then ""
    else if |pieces| == 1 then pieces[0]
    else pieces[0] + between + Joined(pieces[1..], between)
  }

  // Every placeholder of a text is replaced where it stands, however many there are.
  lemma {:induction false} ReplaceEach(pieces: seq<string>, key: string, value: string)
    requires forall i :: 0 <= i < |pieces| ==> Braceless(pieces[i])
    ensures Replace(Joined(pieces, Placeholder(key)), Placeholder(key), value) == Joined(pieces, value)
  {
    if |pieces| == 1 {
      ReplaceAbsent(pieces[0], key, value);
    } else if |pieces| > 1 {
      ReplaceEach(pieces[1..], key, value);
      ReplaceNext(pieces[0], key, Joined(pieces[1..], Placeholder(key)), value);
    }
  }

  // ---- decimal numbers ----

  // The value of each decimal digit of Unicode, which both the pattern and the reading of
  // numbers go by.
  type Decimals = char -> Option<nat>

  ghost predicate KnowsAscii(decimals: Decimals) {
    forall c :: Digit(c) ==> decimals(c) == Some(DigitValue(c))
  }

  predicate Decimal(s: string, decimals: Decimals) {
    forall i :: 0 <= i < |s| ==> decimals(s[i]).Some?
  }

  function NumberOf(s: string, decimals: Decimals): nat
    requires Decimal(s, decimals)
  {
    if s == "" then 0 else 10 * NumberOf(s[..|s| - 1], decimals) + decimals(s[|s| - 1]).value
  }

  lemma {:induction false} AsciiNumber(s: string, decimals: Decimals)
    requires KnowsAscii(decimals) && AllDigits(s)
    ensures Decimal(s, decimals) && NumberOf(s, decimals) == Num(s)
  {
    if s != "" {
      assert Digit(s[|s| - 1]);
      AsciiNumber(s[..|s| - 1], decimals);
    }
  }

  // ---- the allowed formulas ----

  const MOMENTUM := "momentum_"
  const RETURN := "return_"
  const REVERSION := "mean_reversion_"

  predicate StartsWith(s: string, prefix: string) {
    |prefix| <= |s| && s[..|prefix|] == prefix
  }

  // The text is the prefix followed by at least one decimal digit and nothing else.
  predicate Spelled(s: string, prefix: string, decimals: Decimals) {
    StartsWith(s, prefix) && |s| > |prefix| && Decimal(s[|prefix|..], decimals)
  }

  function FormulaOf(s: string, decimals: Decimals): Formula {
    if s == "close" then Close
    else if Spelled(s, MOMENTUM, decimals) then Momentum(NumberOf(s[|MOMENTUM|..], decimals))
    else if Spelled(s, RETURN, decimals) then Momentum(NumberOf(s[|RETURN|..], decimals))
    else if Spelled(s, REVERSION, decimals) then MeanReversion(NumberOf(s[|REVERSION|..], decimals))
    else Unsupported
  }

  ghost predicate Spells(s: string, prefix: string, digits: string, lookback: int, decimals: Decimals) {
    s == prefix + digits && digits != "" && Decimal(digits, decimals) && lookback == NumberOf(digits, decimals)
  }

  lemma SpelledExactly(s: string, prefix: string, lookback: int, decimals: Decimals)
    ensures Spelled(s, prefix, decimals) && lookback == NumberOf(s[|prefix|..], decimals) <==>
            exists digits :: Spells(s, prefix, digits, lookback, decimals)
  {
    hide NumberOf;
    if Spelled(s, prefix, decimals) {
      assert s == prefix + s[|prefix|..];
      assert Spells(s, prefix, s[|prefix|..], NumberOf(s[|prefix|..], decimals), decimals);
    }
    forall digits | Spells(s, prefix, digits, lookback, decimals)
      ensures Spelled(s, prefix, decimals) && lookback == NumberOf(s[|prefix|..], decimals)
    {
      assert s[..|prefix|] == prefix && s[|prefix|..] == digits;
    }
  }

  lemma OnePrefix(s: string)
    ensures !(StartsWith(s, MOMENTUM) && StartsWith(s, REVERSION))
    ensures !(StartsWith(s, MOMENTUM) && StartsWith(s, RETURN))
    ensures !(StartsWith(s, RETURN) && StartsWith(s, REVERSION))
    ensures s == "close" ==> !StartsWith(s, MOMENTUM) && !StartsWith(s, RETURN) && !StartsWith(s, REVERSION)
  {
    assert StartsWith(s, MOMENTUM) ==> s[..|MOMENTUM|][1] == s[1] == 'o' && s[..|MOMENTUM|][0] == s[0] == 'm';
    assert StartsWith(s, REVERSION) ==> s[..|REVERSION|][1] == s[1] == 'e' && s[..|REVERSION|][0] == s[0] == 'm';
    assert StartsWith(s, RETURN) ==> s[..|RETURN|][0] == s[0] == 'r';
  }

  // The alternatives exclude each other: whichever way a text is spelled, that is its
  // formula, and a formula is spelled in no other way.
  lemma FormulaExactly(s: string, lookback: int, decimals: Decimals)
    ensures FormulaOf(s, decimals) == Close <==> s == "close"
    ensures FormulaOf(s, decimals) == Momentum(lookback) <==>
            exists digits ::
              Spells(s, MOMENTUM, digits, lookback, decimals) || Spells(s, RETURN, digits, lookback, decimals)
    ensures FormulaOf(s, decimals) == MeanReversion(lookback) <==>
            exists digits :: Spells(s, REVERSION, digits, lookback, decimals)
  {
    OnePrefix(s);
    SpelledExactly(s, MOMENTUM, lookback, decimals);
    SpelledExactly(s, RETURN, lookback, decimals);
    SpelledExactly(s, REVERSION, lookback, decimals);
    hide StartsWith;
    hide Spells;
    hide NumberOf;
  }

  // A template with one placeholder stands for the formula with the value's number.
  lemma TemplateFormula(prefix: string, key: string, digits: string, decimals: Decimals)
    requires prefix == MOMENTUM || prefix == RETURN || prefix == REVERSION
    requires digits != "" && AllDigits(digits) && KnowsAscii(decimals)
    ensures FormulaOf(Resolved(prefix + Placeholder(key), [Parameter(key, digits)]), decimals) ==
            if prefix == REVERSION then MeanReversion(Num(digits)) else Momentum(Num(digits))
  {
    assert Braceless(prefix);
    ReplaceOne(prefix, key, "", digits);
    assert prefix + Placeholder(key) + "" == prefix + Placeholder(key) && prefix + digits + "" == prefix + digits;
    assert [Parameter(key, digits)][..0] == [];
    var s := prefix + digits;
    assert Resolved(prefix + Placeholder(key), [Parameter(key, digits)]) == s;
    AsciiNumber(digits, decimals);
    assert Spells(s, prefix, digits, Num(digits), decimals);
    assert |REVERSION| != |MOMENTUM| && |REVERSION| != |RETURN|;
    FormulaExactly(s, Num(digits), decimals);
  }

  // ---- the whole computation ----

  method ComputeFactorExpression(rows: seq<Row>, expression: string, parameters: seq<Parameter>, decimals: Decimals)
    returns (r: Result<seq<Scored>, FactorFailure>)
    ensures r == Factor(rows, FormulaOf(Resolved(expression, parameters), decimals))
  {
    hide Replace;
    hide Factor;
    var resolved := expression;
    for k := 0 to |parameters|
      invariant resolved == Resolved(expression, parameters[..k])
    {
      assert parameters[..k + 1][..k] == parameters[..k];
      resolved := Replace(resolved, Placeholder(parameters[k].key), parameters[k].value);
    }
    assert parameters[..|parameters|] == parameters;
    r := ComputeFactorRows(rows, FormulaOf(resolved, decimals));
  }
}
