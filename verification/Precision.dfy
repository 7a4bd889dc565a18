/**
 Rescaling of the pool formulas' inputs (x/clp/keeper/pureCalculation.go).
 */
module Precision {
  import opened FixedPoint

  const MAX_INT64: nat := 0x7fff_ffff_ffff_ffff

  /** Length of the decimal representation of `n`; "0" has length one. */
  function Digits(n: nat): (d: nat)
    ensures d >= 1
  {
    if n < 10 then 1 else 1 + Digits(n / 10)
  }

  lemma {:induction false} DigitsBracket(n: nat)
    requires n >= 1
    ensures Pow10(Digits(n) - 1) <= n < Pow10(Digits(n))
  {
    if n >= 10 {
      DigitsBracket(n / 10);
    }
  }

  lemma {:induction false} Pow10Mono(a: nat, b: nat)
    requires a <= b
    ensures Pow10(a) <= Pow10(b)
  {
    if a < b { Pow10Mono(a, b - 1); }
  }

  lemma {:induction false} Pow10Add(a: nat, b: nat)
    ensures Pow10(a + b) == Pow10(a) * Pow10(b)
  {
    if a > 0 {
      Pow10Add(a - 1, b);
      assert a + b - 1 == (a - 1) + b;
    }
  }

  // ---------- the scaling exponent ----------

  ghost predicate AllPositive(inputs: seq<nat>) {
    forall i :: 0 <= i < |inputs| ==> inputs[i] > 0
  }

  function MinDigits(inputs: seq<nat>): nat {
    if inputs == [] then MAX_INT64
    else
      var rest := MinDigits(inputs[..|inputs| - 1]);
      var d := Digits(inputs[|inputs| - 1]);
      if d < rest then d else rest
  }

  function MaxDigits(inputs: seq<nat>): nat {
    if inputs == [] then 1
    else
      var rest := MaxDigits(inputs[..|inputs| - 1]);
      var d := Digits(inputs[|inputs| - 1]);
      if d > rest then d else rest
  }

  /** Decimal exponent by which the inputs are scaled down. */
  function ScaleExponent(inputs: seq<nat>): nat {
    var lo, hi := MinDigits(inputs), MaxDigits(inputs);
    if lo <= 6 then 6
    else if hi >= 27 && hi - 27 < lo then
      if hi - 27 <= 6 then 6 else hi - 27
    else lo - 1
  }

  method ValidateZero(inputs: seq<nat>) returns (ok: bool)
    ensures ok <==> AllPositive(inputs)
  {
    for i := 0 to |inputs|
      invariant forall j :: 0 <= j < i ==> inputs[j] > 0
    {
      if inputs[i] == 0 { return false; }
    }
    return true;
  }

  method GetMinLen(inputs: seq<nat>) returns (m: nat)
    ensures m == ScaleExponent(inputs)
  {
    var minLen, maxInputLen := MAX_INT64, 1;
    for i := 0 to |inputs|
      invariant minLen == MinDigits(inputs[..i])
      invariant maxInputLen == MaxDigits(inputs[..i])
    {
      assert inputs[..i + 1][..i] == inputs[..i];
      var currentLen := Digits(inputs[i]);
      if currentLen < minLen { minLen := currentLen; }
      if currentLen > maxInputLen { maxInputLen := currentLen; }
    }
    assert inputs[..|inputs|] == inputs;
    if minLen <= 6 { return 6; }
    if maxInputLen >= 27 {
      var lenDiff := maxInputLen - 27;
      if lenDiff < minLen {
        if lenDiff <= 6 { return 6; }
        return lenDiff;
      }
    }
    return minLen - 1;
  }

  lemma {:induction false} MinDigitsIsLower(inputs: seq<nat>, i: nat)
    requires i < |inputs|
    ensures MinDigits(inputs) <= Digits(inputs[i])
  {
    if i < |inputs| - 1 { MinDigitsIsLower(inputs[..|inputs| - 1], i); }
  }

  /** The exponent is 6, or it is larger and every input has at least that many digits after the first. */
  lemma ScaleExponentBounds(inputs: seq<nat>)
    requires inputs != []
    ensures ScaleExponent(inputs) >= 6
    ensures ScaleExponent(inputs) == 6 ||
            forall i :: 0 <= i < |inputs| ==> inputs[i] >= Pow10(ScaleExponent(inputs))
  {
    var m := ScaleExponent(inputs);
    if m > 6 {
      forall i | 0 <= i < |inputs| ensures inputs[i] >= Pow10(m) {
        MinDigitsIsLower(inputs, i);
        assert inputs[i] >= 10;
        DigitsBracket(inputs[i]);
        Pow10Mono(m, Digits(inputs[i]) - 1);
      }
    }
  }

  lemma {:induction false} DigitsAtMost(n: nat, e: nat)
    requires e >= 1
    ensures Digits(n) <= e <==> n < Pow10(e)
  {
    if n >= 1 {
      DigitsBracket(n);
      if Digits(n) <= e { Pow10Mono(Digits(n), e); } else { Pow10Mono(e, Digits(n) - 1); }
    }
  }

  lemma {:induction false} FewestDigits(inputs: seq<nat>) returns (i: nat)
    requires inputs != [] && forall j | 0 <= j < |inputs| :: Digits(inputs[j]) <= MAX_INT64
    ensures i < |inputs| && Digits(inputs[i]) == MinDigits(inputs)
    ensures forall j | 0 <= j < |inputs| :: Digits(inputs[i]) <= Digits(inputs[j])
  {
    i := |inputs| - 1;
    if |inputs| > 1 {
      var k := FewestDigits(inputs[..i]);
      if Digits(inputs[k]) <= Digits(inputs[i]) { i := k; }
      forall j | 0 <= j < |inputs| ensures Digits(inputs[i]) <= Digits(inputs[j]) {
        assert j < |inputs| - 1 ==> inputs[..|inputs| - 1][j] == inputs[j];
      }
    }
  }

  lemma {:induction false} MostDigits(inputs: seq<nat>) returns (i: nat)
    requires inputs != []
    ensures i < |inputs| && Digits(inputs[i]) == MaxDigits(inputs)
    ensures forall j | 0 <= j < |inputs| :: Digits(inputs[j]) <= Digits(inputs[i])
  {
    i := |inputs| - 1;
    if |inputs| > 1 {
      var k := MostDigits(inputs[..i]);
      if Digits(inputs[i]) <= Digits(inputs[k]) { i := k; }
      forall j | 0 <= j < |inputs| ensures Digits(inputs[j]) <= Digits(inputs[i]) {
        assert j < |inputs| - 1 ==> inputs[..|inputs| - 1][j] == inputs[j];
      }
    }
  }

  ghost predicate AllBelow(inputs: seq<nat>, e: nat) { forall j | 0 <= j < |inputs| :: inputs[j] < Pow10(e) }

  ghost predicate AllAtLeast(inputs: seq<nat>, e: nat) { forall j | 0 <= j < |inputs| :: inputs[j] >= Pow10(e) }

  /** One input is more than 10^26 times as large as a power of ten above another. */
  ghost predicate Wide(inputs: seq<nat>) {
    exists e: nat :: e > 0 && !AllAtLeast(inputs, e) && !AllBelow(inputs, e + 26)
  }

  /**
   The exponent in terms of the inputs: 6 if one of them is small; the order of the smallest if none reaches 10^26
   or they lie too far apart; else what brings the largest below 10^27, but no less than 6.
   */
  lemma ScaleExponentExactly(inputs: seq<nat>)
    requires inputs != [] && forall j | 0 <= j < |inputs| :: Digits(inputs[j]) <= MAX_INT64
    ensures var m := ScaleExponent(inputs);
            if !AllAtLeast(inputs, 6) then m == 6
            else if AllBelow(inputs, 26) || Wide(inputs) then AllAtLeast(inputs, m) && !AllAtLeast(inputs, m + 1)
            else if AllBelow(inputs, 33) then m == 6
            else AllBelow(inputs, m + 27) && !AllBelow(inputs, m + 26)
  {
    hide Pow10, MinDigits, MaxDigits, Digits, AllBelow, AllAtLeast;
    var lo, hi := MinDigits(inputs), MaxDigits(inputs);
    ByDigits(inputs, 6);
    ByDigits(inputs, 26);
    ByDigits(inputs, 33);
    forall e: nat | e > 0 ensures (AllBelow(inputs, e) <==> hi <= e) && (AllAtLeast(inputs, e) <==> lo > e) {
      ByDigits(inputs, e);
    }
    if hi - 27 >= lo { assert !AllAtLeast(inputs, lo) && !AllBelow(inputs, lo + 26); }
  }

  lemma ByDigits(inputs: seq<nat>, e: nat)
    requires inputs != [] && e > 0 && forall j | 0 <= j < |inputs| :: Digits(inputs[j]) <= MAX_INT64
    ensures AllBelow(inputs, e) <==> MaxDigits(inputs) <= e
    ensures AllAtLeast(inputs, e) <==> MinDigits(inputs) > e
    ensures MinDigits(inputs) >= 1
  {
    hide MinDigits, MaxDigits, Digits, Pow10;
    var lo := FewestDigits(inputs);
    var hi := MostDigits(inputs);
    forall j | 0 <= j < |inputs| { DigitsAtMost(inputs[j], e); }
  }

  // ---------- scaling down and up ----------

  function ReducePrecision(dec: Dec, po: nat): Dec { Quo(dec, Pow10(po) * ONE) }

  function IncreasePrecision(dec: Dec, po: nat): Dec { Mul(dec, Pow10(po) * ONE) }

  lemma IncreaseExact(dec: Dec, po: nat)
    ensures IncreasePrecision(dec, po) == dec * Pow10(po)
  {
    MulExact(dec, Pow10(po) * ONE, dec * Pow10(po));
  }

  /** Up to 18 places, an integer is scaled down without loss. */
  lemma ReduceExact(v: nat, m: nat)
    requires m <= 18
    ensures ReducePrecision(NewDec(v), m) == v * Pow10(18 - m)
    ensures Pow10(18 - m) * Pow10(m) == ONE
  {
    var h, p := Pow10(18 - m), Pow10(m);
    assert h * p == ONE by {
      Pow10Add(18 - m, m);
      Pow10Eighteen();
    }
    Regroup(v, h, p, ONE);
    QuoExact(NewDec(v), p * ONE, v * h);
  }

  lemma Regroup(v: int, h: int, p: int, c: int)
    ensures (v * h) * (p * c) == v * (h * p) * c
  {
  }

  lemma Pow10Eighteen()
    ensures Pow10(18) == ONE
  {
    assert Pow10(9) == 1_000_000_000;
    Pow10Add(9, 9);
  }

  /**
   Scaling down and up again is lossless up to 18 places.  Beyond that the result is a multiple of
   `step = 10^(m - 18)` and lies within half a step of the value; past 36 places the truncation
   inside `Quo` can add a further `step / 10^18` downwards.
   */
  lemma ReduceIncrease(v: nat, m: nat)
    ensures m <= 18 ==> IncreasePrecision(ReducePrecision(NewDec(v), m), m) == NewDec(v)
    ensures m > 18 ==>
              var d, step := ReducePrecision(NewDec(v), m), Pow10(m - 18);
              && IncreasePrecision(d, m) == NewDec(d * step)
              && 2 * (d * step - v) <= step
              && 2 * (v - d * step) <= step + (if m <= 36 then 0 else 2 * Pow10(m - 36))
  {
    var d := ReducePrecision(NewDec(v), m);
    IncreaseExact(d, m);
    if m <= 18 {
      ReduceExact(v, m);
      Regroup(v, Pow10(18 - m), Pow10(m), 1);
    } else {
      var step := Pow10(m - 18);
      Pow10Shift(m - 18);
      Regroup(d, step, ONE, 1);
      if m <= 36 {
        Pow10Add(36 - m, m - 18);
        Pow10Eighteen();
        CoarseExact(v, Pow10(36 - m), step);
        CoarseError(v, step, 0);
      } else {
        Pow10Shift(m - 36);
        CoarseTruncated(v, Pow10(m - 36));
        CoarseError(v, step, Pow10(m - 36));
      }
    }
  }

  lemma Pow10Shift(n: nat)
    ensures Pow10(n + 18) == Pow10(n) * ONE
  {
    Pow10Add(n, 18);
    Pow10Eighteen();
  }

  /** The 36-place quotient taken when an integer is scaled down by `step * 10^18`. */
  ghost function CoarseQuotient(v: nat, step: nat): nat
    requires step > 0
  {
    v * ONE * ONE * ONE / (step * ONE * ONE)
  }

  lemma CoarseExact(v: nat, h: nat, step: nat)
    requires step > 0 && h * step == ONE
    ensures CoarseQuotient(v, step) * step == v * ONE
  {
    Regroup(v, h, step, ONE * ONE);
    Regroup(v, h, step, 1);
    DivUnique(v * ONE * ONE * ONE, step * ONE * ONE, v * h);
  }

  lemma CoarseTruncated(v: nat, g: nat)
    requires g > 0
    ensures var t := CoarseQuotient(v, g * ONE);
            t * (g * ONE) <= v * ONE <= t * (g * ONE) + g * ONE
  {
    var t := CoarseQuotient(v, g * ONE);
    DivBounds(v * ONE * ONE * ONE, g * ONE * ONE * ONE);
    Regroup(t, g, ONE * ONE * ONE, 1);
    Regroup(t, g, ONE, 1);
  }

  lemma CoarseError(v: nat, step: nat, slack: nat)
    requires step > 0
    requires var t := CoarseQuotient(v, step); t * step <= v * ONE <= t * step + slack * ONE
    ensures var d := Quo(NewDec(v), step * ONE * ONE);
            2 * (d * step - v) <= step && 2 * (v - d * step) <= step + 2 * slack
  {
    ChopError(CoarseQuotient(v, step));
    ScaleError(Chop(CoarseQuotient(v, step)), CoarseQuotient(v, step), step, v, slack);
  }

  lemma DivUnique(n: nat, d: nat, q: nat)
    requires d > 0 && n == q * d
    ensures n / d == q
  {
    DivBounds(n, d);
    if n / d < q { MulLe(n / d + 1, q, d); }
    if q < n / d { MulLe(q + 1, n / d, d); }
  }

  lemma ScaleError(d: nat, t: nat, step: nat, v: nat, slack: nat)
    requires -ONE <= 2 * (d * ONE - t) <= ONE
    requires t * step <= v * ONE <= t * step + slack * ONE
    ensures 2 * (d * step - v) <= step
    ensures 2 * (v - d * step) <= step + 2 * slack
  {
    MulLe(2 * (d * ONE - t), ONE, step);
    MulLe(-ONE, 2 * (d * ONE - t), step);
  }
}
