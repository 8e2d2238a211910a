// Decimal digit strings and the numbers they denote.
module Digits {
  import opened Arithmetic

  predicate Digit(c: char) {
    '0' <= c <= '9'
  }

  predicate AllDigits(s: string) {
    forall i :: 0 <= i < |s| ==> Digit(s[i])
  }

  function DigitValue(c: char): (n: nat)
    requires Digit(c)
    ensures n <= 9
  {
    (c - '0') as int
  }

  function Pow10(n: nat): (p: nat)
    ensures p >= 1
  {
    if n == 0 then 1 else 10 * Pow10(n - 1)
  }

  // The number a digit string denotes.
  function Num(s: string): nat
    requires AllDigits(s)
  {
    if s == "" then 0 else 10 * Num(s[..|s| - 1]) + DigitValue(s[|s| - 1])
  }

  function Zeros(n: nat): (s: string)
    ensures |s| == n && AllDigits(s)
  {
    seq(n, i => '0')
  }

  lemma {:induction false} PowSum(a: nat, b: nat)
    ensures Pow10(a + b) == Pow10(a) * Pow10(b)
  {
    if a > 0 { PowSum(a - 1, b); }
  }

  lemma {:induction false} NumConcat(a: string, b: string)
    requires AllDigits(a) && AllDigits(b)
    ensures AllDigits(a + b)
    ensures Num(a + b) == Num(a) * Pow10(|b|) + Num(b)
  {
    if b == "" {
      assert a + b == a;
    } else {
      var n := |b| - 1;
      assert (a + b)[..|a + b| - 1] == a + b[..n];
      NumConcat(a, b[..n]);
      Shift(Num(a), Pow10(n), Num(b[..n]));
    }
  }

  lemma Shift(x: nat, p: nat, y: nat)
    ensures 10 * (x * p + y) == x * (10 * p) + 10 * y
  {
  }

  lemma {:induction false} NumBound(s: string)
    requires AllDigits(s)
    ensures Num(s) < Pow10(|s|)
  {
    if s != "" { NumBound(s[..|s| - 1]); }
  }

  lemma {:induction false} NumZeros(n: nat)
    ensures Num(Zeros(n)) == 0
  {
    if n > 0 {
      assert Zeros(n)[..n - 1] == Zeros(n - 1);
      NumZeros(n - 1);
    }
  }

  lemma NumPadded(s: string, n: nat)
    requires AllDigits(s)
    ensures AllDigits(s + Zeros(n)) && Num(s + Zeros(n)) == Num(s) * Pow10(n)
    ensures AllDigits(Zeros(n) + s) && Num(Zeros(n) + s) == Num(s)
  {
    NumZeros(n);
    NumConcat(s, Zeros(n));
    NumConcat(Zeros(n), s);
  }

  lemma {:induction false} NumGrows(s: string, k: nat)
    requires AllDigits(s) && k <= |s|
    ensures Num(s[..k]) <= Num(s)
  {
    if k < |s| {
      NumGrows(s[..|s| - 1], k);
      assert s[..|s| - 1][..k] == s[..k];
    } else {
      assert s[..k] == s;
    }
  }

  // ---- powers of ten as scale factors ----

  lemma TimesAssociates(x: real, y: real, z: real)
    ensures Times(Times(x, y), z) == Times(x, Times(y, z))
  {
  }

  lemma TimesOne(x: real)
    ensures Times(x, 1.0) == x == Times(1.0, x)
  {
  }

  lemma TimesDifference(r: real, x: real, u: real)
    ensures Times(r - x, u) == Times(r, u) - Times(x, u)
  {
  }

  lemma TimesNat(x: nat, y: nat)
    ensures (x * y) as real == Times(x as real, y as real)
  {
  }

  // Ten to any integer power.
  ghost function Ten(k: int): real
    decreases if k >= 0 then k else -k
  {
    if k == 0 then 1.0 else if k > 0 then 10.0 * Ten(k - 1) else Ten(k + 1) / 10.0
  }

  lemma TenStep(k: int)
    ensures Ten(k + 1) == Times(10.0, Ten(k))
  {
  }

  lemma TenZero()
    ensures Ten(0) == 1.0
  {
  }

  lemma TenUp(a: int, b: int)
    requires Ten(a + b) == Times(Ten(a), Ten(b))
    ensures Ten(a + 1 + b) == Times(Ten(a + 1), Ten(b))
  {
  }

  lemma TenDown(a: int, b: int)
    requires Ten(a + 1 + b) == Times(Ten(a + 1), Ten(b))
    ensures Ten(a + b) == Times(Ten(a), Ten(b))
  {
    TenStep(a + b);
    TenStep(a);
    hide Ten;
    TimesAssociates(10.0, Ten(a), Ten(b));
  }

  // Proved outwards from a == 0.
  lemma {:induction false} TenSum(a: int, b: int)
    ensures Ten(a + b) == Times(Ten(a), Ten(b))
    decreases if a >= 0 then a else -a
  {
    TenZero();
    hide Ten;
    if a > 0 {
      TenSum(a - 1, b);
      TenUp(a - 1, b);
    } else if a < 0 {
      TenSum(a + 1, b);
      TenDown(a, b);
    }
  }

  lemma {:induction false} TenIsPow(n: nat)
    ensures Ten(n) == Pow10(n) as real
  {
    if n > 0 { TenIsPow(n - 1); }
  }
}
