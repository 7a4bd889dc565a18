/**
 Pool units minted for a deposit (CalculatePoolUnits in x/clp/keeper/calculations.go): how the
 new total and the minted units fit together, and how close the minted units are to the formula
 P (a R + A r) / (2 A R) * (1 - |R a - r A| / ((r + R) (a + A))).
 */
module PoolUnits {
  import opened FixedPoint
  import opened Precision
  import opened Curve
  import opened Swap

  datatype Outcome = Units(total: nat, minted: nat) | AmountTooLow | InsufficientFunds

  /** |R a - r A| / ((r + R) (a + A)), rounded. */
  function Slip(R: Dec, A: Dec, r: Dec, a: Dec): (slip: Dec)
    requires Mul(r + R, a + A) > 0
    ensures slip <= ONE
  {
    var Ra, rA, d := Mul(R, a), Mul(r, A), Mul(r + R, a + A);
    SlipAtMostOne(R, A, r, a);
    if Ra > rA then Quo(Ra - rA, d) else Quo(rA - Ra, d)
  }

  lemma SlipAtMostOne(R: Dec, A: Dec, r: Dec, a: Dec)
    requires Mul(r + R, a + A) > 0
    ensures var Ra, rA, d := Mul(R, a), Mul(r, A), Mul(r + R, a + A);
            && (Ra > rA ==> Quo(Ra - rA, d) <= ONE)
            && (Ra <= rA ==> Quo(rA - Ra, d) <= ONE)
  {
    hide Mul, Quo;
    var Ra, rA, d := Mul(R, a), Mul(r, A), Mul(r + R, a + A);
    MulMono(R, a, r + R, a + A);
    MulMono(r, A, r + R, a + A);
    if Ra > rA { QuoLe(Ra - rA, d, ONE); } else { QuoLe(rA - Ra, d, ONE); }
  }

  /** P (a R + A r) / (2 A R), rounded. */
  function Share(P: Dec, R: Dec, A: Dec, r: Dec, a: Dec): Dec
    requires Mul(Mul(2 * ONE, A), R) > 0
  {
    Quo(Mul(P, Mul(a, R) + Mul(A, r)), Mul(Mul(2 * ONE, A), R))
  }

  /** Units minted for a deposit, on values scaled down by 10^m. */
  function Stake(P: nat, R: nat, A: nat, r: nat, a: nat, m: nat): Dec
    requires Scales(m, R) && Scales(m, A)
  {
    DenominatorsPositive(R, A, r, a, m);
    var (P', R', A', r', a') := (Reduced(P, m), Reduced(R, m), Reduced(A, m), Reduced(r, m), Reduced(a, m));
    Mul(Share(P', R', A', r', a'), ONE - Slip(R', A', r', a'))
  }

  function ScaledNative(n: Normalization, v: nat): nat {
    if n.adjustExternal then v else v * RoundInt(n.factor)
  }

  function ScaledExternal(n: Normalization, v: nat): nat {
    if n.adjustExternal then v * RoundInt(n.factor) else v
  }

  function CalculatePoolUnits(P: nat, R0: nat, A0: nat, r0: nat, a0: nat, n: Normalization): Outcome
    requires n.Valid()
  {
    var R, A := ScaledNative(n, R0), ScaledExternal(n, A0);
    var r, a := ScaledNative(n, r0), ScaledExternal(n, a0);
    if r == 0 && a == 0 then AmountTooLow
    else
      var m := ScaleExponent([P, R, A, r, a]);
      if R + r == 0 then InsufficientFunds
      else if A + a == 0 then InsufficientFunds
      else if R == 0 || A == 0 then Units(r, r)
      else
        ExponentFits(P, R, A, r, a);
        var stake := Stake(P, R, A, r, a, m);
        Units(RoundInt(IncreasePrecision(Reduced(P, m) + stake, m)), RoundInt(IncreasePrecision(stake, m)))
  }

  /** The exponent chosen for a deposit into a pool that holds both assets. */
  function DepositExponent(P: nat, R0: nat, A0: nat, r0: nat, a0: nat, n: Normalization): nat {
    ScaleExponent([P, ScaledNative(n, R0), ScaledExternal(n, A0), ScaledNative(n, r0), ScaledExternal(n, a0)])
  }

  lemma ExponentFits(P: nat, R: nat, A: nat, r: nat, a: nat)
    requires R > 0 && A > 0
    ensures var m := ScaleExponent([P, R, A, r, a]);
            && Scales(m, R) && Scales(m, A)
            && (m > 6 ==> P >= Pow10(m) && r >= Pow10(m) && a >= Pow10(m))
  {
    var inputs := [P, R, A, r, a];
    hide ScaleExponent;
    ScaleExponentBounds(inputs);
    assert inputs[0] == P && inputs[1] == R && inputs[2] == A && inputs[3] == r && inputs[4] == a;
  }

  /** A scaled value that `Scales` admits is at least a unit of scale, and products of two stay positive. */
  lemma ProductPositive(v: nat, w: nat, m: nat, x: Dec, y: Dec)
    requires Scales(m, v) && Scales(m, w)
    requires x >= Reduced(v, m) && y >= Reduced(w, m)
    ensures Mul(x, y) > 0
  {
    hide Mul, Quo, Chop;
    if m == 6 {
      ReducedSix(v);
      ReducedSix(w);
      MulMono(TERA, TERA, x, y);
      MulTera(1, 1);
    } else {
      ReducedLarge(v, m);
      ReducedLarge(w, m);
      MulMono(ONE, ONE, x, y);
      MulExact(ONE, ONE, ONE);
    }
  }

  lemma DenominatorsPositive(R: nat, A: nat, r: nat, a: nat, m: nat)
    requires Scales(m, R) && Scales(m, A)
    ensures Mul(Reduced(r, m) + Reduced(R, m), Reduced(a, m) + Reduced(A, m)) > 0
    ensures Mul(2 * ONE, Reduced(A, m)) == 2 * Reduced(A, m)
    ensures Mul(Mul(2 * ONE, Reduced(A, m)), Reduced(R, m)) > 0
  {
    hide Mul, Quo, Chop, Reduced;
    ProductPositive(R, A, m, Reduced(r, m) + Reduced(R, m), Reduced(a, m) + Reduced(A, m));
    MulExact(2 * ONE, Reduced(A, m), 2 * Reduced(A, m));
    ProductPositive(A, R, m, 2 * Reduced(A, m), Reduced(R, m));
  }

  // ---------- the total and the minted units ----------

  /** How far the new total can be from the old total plus the minted units. */
  function DriftStep(m: nat): nat { if m <= 18 then 1 else Pow10(m - 18) }

  /**
   Into a pool that holds both assets, the total grows by the minted units up to one unit,
   or up to one step of the scale when the exponent exceeds 18.
   */
  lemma DepositDrift(P: nat, R: nat, A: nat, r: nat, a: nat, n: Normalization)
    requires n.Valid() && R > 0 && A > 0
    ensures var m, u := DepositExponent(P, R, A, r, a, n), CalculatePoolUnits(P, R, A, r, a, n);
            if r == 0 && a == 0 then u == AmountTooLow
            else u.Units? && -(DriftStep(m) as int) <= u.total - P - u.minted <= DriftStep(m)
  {
    hide Chop, Stake, ScaleExponent;
    FactorWhole(n);
    var nf := RoundInt(n.factor);
    forall v: nat ensures v > 0 <==> v * nf > 0 { if v > 0 { MulLe(1, nf, v); } }
    var m := DepositExponent(P, R, A, r, a, n);
    if r > 0 || a > 0 {
      ExponentFits(P, ScaledNative(n, R), ScaledExternal(n, A), ScaledNative(n, r), ScaledExternal(n, a));
      var stake := Stake(P, ScaledNative(n, R), ScaledExternal(n, A), ScaledNative(n, r), ScaledExternal(n, a), m);
      SplitDrift(P, m, stake);
    }
  }

  lemma SplitDrift(P: nat, m: nat, stake: Dec)
    ensures var total := RoundInt(IncreasePrecision(Reduced(P, m) + stake, m));
            var minted := RoundInt(IncreasePrecision(stake, m));
            -(DriftStep(m) as int) <= total - P - minted <= DriftStep(m)
  {
    hide Mul, Quo, Chop, Pow10;
    var d := Reduced(P, m);
    IncreaseExact(d + stake, m);
    IncreaseExact(stake, m);
    IncreaseExact(d, m);
    ReduceIncrease(P, m);
    assert (d + stake) * Pow10(m) == d * Pow10(m) + stake * Pow10(m);
    if m <= 18 {
      ChopShift(P, stake * Pow10(m));
    } else {
      var step := Pow10(m - 18);
      Pow10Shift(m - 18);
      assert stake * Pow10(m) == stake * step * ONE;
      ChopExact(d * step + stake * step);
      ChopExact(stake * step);
      if m > 36 { Pow10Mono(m - 36, m - 18); Pow10Shift(m - 36); }
    }
  }

  /** Adding a whole amount moves a rounding by that amount, except that a tie may go the other way. */
  lemma ChopShift(p: nat, z: nat)
    ensures -1 <= Chop(p * ONE + z) - p - Chop(z) <= 1
  {
  }
}
