/**
 Amounts paid out when liquidity is withdrawn (CalculateWithdrawal in
 x/clp/keeper/calculations.go): a chain of rounded quotients.
 */
module Withdrawal {
  import opened FixedPoint
  import opened RelativeError
  import opened Curve

  const MAX_BASIS: nat := 10000

  /** A division by zero on the way aborts the message. */
  datatype Payout = Payout(native: nat, external: nat, unitsLeft: nat, swapAmount: nat) | DivisionByZero

  /** `part` out of 10000, taken by dividing by the rounded inverse. */
  function Portion(v: Dec, part: nat): Dec
    requires 0 < part <= MAX_BASIS
  {
    InversePositive(part);
    Quo(v, Quo(NewDec(MAX_BASIS), NewDec(part)))
  }

  /** What `units` out of `poolUnits` are worth of `balance`. */
  function Worth(balance: nat, poolUnits: nat, units: Dec): Dec
    requires units > 0 && Quo(NewDec(poolUnits), units) > 0
  {
    Quo(NewDec(balance), Quo(NewDec(poolUnits), units))
  }

  predicate Divisible(poolUnits: nat, units: Dec) { units > 0 && Quo(NewDec(poolUnits), units) > 0 }

  /** The swap is from native to external for a positive asymmetry, and the other way for a negative one. */
  function CalculateWithdrawal(poolUnits: nat, native: nat, external: nat, lpUnits: nat, wBasis: nat, asymmetry: int): Payout
    requires 0 < wBasis <= MAX_BASIS
    requires -(MAX_BASIS as int) <= asymmetry <= MAX_BASIS
  {
    var claim := Portion(NewDec(lpUnits), wBasis);
    PortionAtMost(NewDec(lpUnits), wBasis);
    if !Divisible(poolUnits, claim) then DivisionByZero
    else
      var payExternal, payNative := Worth(external, poolUnits, claim), Worth(native, poolUnits, claim);
      if asymmetry == 0 then
        Payout(RoundInt(payNative), RoundInt(payExternal), RoundInt(NewDec(lpUnits) - claim), 0)
      else
        var swap := Portion(claim, if asymmetry > 0 then asymmetry else -asymmetry);
        if !Divisible(poolUnits, swap) then DivisionByZero
        else
          Payout(RoundInt(payNative), RoundInt(payExternal), RoundInt(NewDec(lpUnits) - claim),
                 RoundInt(Worth(if asymmetry > 0 then native else external, poolUnits, swap)))
  }

  lemma InversePositive(part: nat)
    requires 0 < part <= MAX_BASIS
    ensures Quo(NewDec(MAX_BASIS), NewDec(part)) >= ONE
  {
    hide Quo;
    QuoGe(NewDec(MAX_BASIS), NewDec(part), ONE);
  }

  lemma PortionAtMost(v: Dec, part: nat)
    requires 0 < part <= MAX_BASIS
    ensures Portion(v, part) <= v
    ensures part == MAX_BASIS ==> Portion(v, part) == v
    ensures v >= MAX_BASIS ==> Portion(v, part) >= 1
  {
    hide Quo;
    InversePositive(part);
    var d := Quo(NewDec(MAX_BASIS), NewDec(part));
    MulLe(ONE, d, v);
    QuoLe(v, d, v);
    if part == MAX_BASIS {
      QuoExact(NewDec(MAX_BASIS), NewDec(MAX_BASIS), ONE);
      QuoExact(v, ONE, v);
    }
    if v >= MAX_BASIS {
      QuoLe(NewDec(MAX_BASIS), NewDec(part), NewDec(MAX_BASIS));
      QuoGe(v, d, 1);
    }
  }

  /** Units that divide the pool's total at least once are worth at most the balance. */
  lemma WorthAtMost(balance: nat, poolUnits: nat, units: Dec)
    requires 0 < units && Quo(NewDec(poolUnits), units) >= ONE
    ensures Divisible(poolUnits, units)
    ensures RoundInt(Worth(balance, poolUnits, units)) <= balance
  {
    hide Quo, Chop;
    var q := Quo(NewDec(poolUnits), units);
    MulLe(ONE, q, NewDec(balance));
    QuoLe(NewDec(balance), q, NewDec(balance));
    ChopMono(Worth(balance, poolUnits, units), NewDec(balance));
    ChopExact(balance);
  }

  lemma WorthMono(balance: nat, poolUnits: nat, less: Dec, more: Dec)
    requires Divisible(poolUnits, less) && Divisible(poolUnits, more) && less <= more
    ensures RoundInt(Worth(balance, poolUnits, less)) <= RoundInt(Worth(balance, poolUnits, more))
  {
    hide Quo, Chop;
    QuoAnti(NewDec(poolUnits), less, more);
    QuoAnti(NewDec(balance), Quo(NewDec(poolUnits), more), Quo(NewDec(poolUnits), less));
    ChopMono(Worth(balance, poolUnits, less), Worth(balance, poolUnits, more));
  }

  /** Whatever the units, a computed payout leaves at most the provider's units and swaps at most its side. */
  lemma PayoutOrder(poolUnits: nat, native: nat, external: nat, lpUnits: nat, wBasis: nat, asymmetry: int)
    requires 0 < wBasis <= MAX_BASIS && -(MAX_BASIS as int) <= asymmetry <= MAX_BASIS
    ensures var p := CalculateWithdrawal(poolUnits, native, external, lpUnits, wBasis, asymmetry);
            p.Payout? ==>
              && lpUnits > 0
              && p.unitsLeft <= lpUnits && (wBasis == MAX_BASIS ==> p.unitsLeft == 0)
              && (asymmetry == 0 ==> p.swapAmount == 0)
              && (asymmetry > 0 ==> p.swapAmount <= p.native)
              && (asymmetry < 0 ==> p.swapAmount <= p.external)
  {
    hide Quo, Chop, Portion, Worth, Divisible;
    var claim := Portion(NewDec(lpUnits), wBasis);
    PortionAtMost(NewDec(lpUnits), wBasis);
    ChopMono(NewDec(lpUnits) - claim, NewDec(lpUnits));
    ChopExact(lpUnits);
    ChopExact(0);
    assert Divisible(poolUnits, claim) ==> claim > 0 by { DivisibleMeans(poolUnits, claim); }
    if asymmetry != 0 {
      var part := if asymmetry > 0 then asymmetry else -asymmetry;
      var swap := Portion(claim, part);
      PortionAtMost(claim, part);
      if Divisible(poolUnits, claim) && Divisible(poolUnits, swap) {
        WorthMono(if asymmetry > 0 then native else external, poolUnits, swap, claim);
      }
    }
  }

  lemma DivisibleMeans(poolUnits: nat, units: Dec)
    ensures Divisible(poolUnits, units) ==> units > 0
  {
  }

  /** The claimed units go into the pool's total at least once, as rounded. */
  predicate Fits(poolUnits: nat, lpUnits: nat, wBasis: nat)
    requires 0 < wBasis <= MAX_BASIS
  {
    var claim := Portion(NewDec(lpUnits), wBasis);
    claim > 0 && Quo(NewDec(poolUnits), claim) >= ONE
  }

  lemma UnitsFit(poolUnits: nat, lpUnits: nat, wBasis: nat)
    requires 0 < wBasis <= MAX_BASIS && 0 < lpUnits <= poolUnits
    ensures Fits(poolUnits, lpUnits, wBasis)
  {
    hide Quo, Portion;
    var claim := Portion(NewDec(lpUnits), wBasis);
    ClaimLarge(lpUnits, wBasis, claim);
    QuoGe(NewDec(poolUnits), claim, ONE);
  }

  /**
   A claim that fits is always paid, and never more than the balances; every claim of a provider
   whose units lie within the pool's total fits.
   */
  lemma NoOverWithdrawal(poolUnits: nat, native: nat, external: nat, lpUnits: nat, wBasis: nat, asymmetry: int)
    requires 0 < wBasis <= MAX_BASIS && -(MAX_BASIS as int) <= asymmetry <= MAX_BASIS
    ensures 0 < lpUnits <= poolUnits ==> Fits(poolUnits, lpUnits, wBasis)
    ensures Fits(poolUnits, lpUnits, wBasis) ==>
              var p := CalculateWithdrawal(poolUnits, native, external, lpUnits, wBasis, asymmetry);
              && p.Payout?
              && p.native <= native && p.external <= external
              && p.unitsLeft <= lpUnits && (wBasis == MAX_BASIS ==> p.unitsLeft == 0)
              && p.swapAmount <= (if asymmetry > 0 then p.native else if asymmetry < 0 then p.external else 0)
  {
    hide Quo, Chop, Portion, Worth, Divisible;
    if 0 < lpUnits <= poolUnits { UnitsFit(poolUnits, lpUnits, wBasis); }
    if Fits(poolUnits, lpUnits, wBasis) {
      PayoutOrder(poolUnits, native, external, lpUnits, wBasis, asymmetry);
      var claim := Portion(NewDec(lpUnits), wBasis);
      PortionAtMost(NewDec(lpUnits), wBasis);
      ClaimLarge(lpUnits, wBasis, claim);
      WorthAtMost(native, poolUnits, claim);
      WorthAtMost(external, poolUnits, claim);
      if asymmetry != 0 {
        var part := if asymmetry > 0 then asymmetry else -asymmetry;
        PortionAtMost(claim, part);
        QuoAnti(NewDec(poolUnits), Portion(claim, part), claim);
        WorthAtMost(native, poolUnits, Portion(claim, part));
      }
    }
  }

  /** A claim fits exactly when it is paid within the balances whatever the balances and the asymmetry are. */
  lemma FitsExactly(poolUnits: nat, lpUnits: nat, wBasis: nat)
    requires 0 < wBasis <= MAX_BASIS
    ensures Fits(poolUnits, lpUnits, wBasis) <==>
              forall native: nat, external: nat, asymmetry: int | -(MAX_BASIS as int) <= asymmetry <= MAX_BASIS ::
                var p := CalculateWithdrawal(poolUnits, native, external, lpUnits, wBasis, asymmetry);
                p.Payout? && p.native <= native && p.external <= external
  {
    hide Quo, Chop, Portion, Worth, CalculateWithdrawal;
    if Fits(poolUnits, lpUnits, wBasis) {
      forall native: nat, external: nat, asymmetry: int | -(MAX_BASIS as int) <= asymmetry <= MAX_BASIS
        ensures var p := CalculateWithdrawal(poolUnits, native, external, lpUnits, wBasis, asymmetry);
                p.Payout? && p.native <= native && p.external <= external
      {
        NoOverWithdrawal(poolUnits, native, external, lpUnits, wBasis, asymmetry);
      }
    } else {
      Overpays(poolUnits, lpUnits, wBasis, 0);
    }
  }

  /** A claim that does not fit is not paid, or exceeds balances of 10^18, whatever the asymmetry. */
  lemma Overpays(poolUnits: nat, lpUnits: nat, wBasis: nat, asymmetry: int)
    requires 0 < wBasis <= MAX_BASIS && -(MAX_BASIS as int) <= asymmetry <= MAX_BASIS
    requires !Fits(poolUnits, lpUnits, wBasis)
    ensures var p := CalculateWithdrawal(poolUnits, ONE, ONE, lpUnits, wBasis, asymmetry);
            p.Payout? ==> p.native > ONE && p.external > ONE
  {
    hide Quo, Chop, Portion;
    var claim := Portion(NewDec(lpUnits), wBasis);
    if Divisible(poolUnits, claim) {
      var q := Quo(NewDec(poolUnits), claim);
      MulLe(q, ONE - 1, NewDec(ONE + 1));
      QuoGe(NewDec(ONE), q, NewDec(ONE + 1));
      ChopMono(NewDec(ONE + 1), Worth(ONE, poolUnits, claim));
      ChopExact(ONE + 1);
    }
  }

  lemma ClaimLarge(lpUnits: nat, wBasis: nat, claim: Dec)
    requires 0 < wBasis <= MAX_BASIS && lpUnits > 0 && claim == Portion(NewDec(lpUnits), wBasis)
    ensures MAX_BASIS <= claim <= NewDec(lpUnits)
  {
    hide Quo;
    PortionAtMost(NewDec(lpUnits), wBasis);
    InversePositive(wBasis);
    QuoLe(NewDec(MAX_BASIS), NewDec(wBasis), NewDec(MAX_BASIS));
    var d := Quo(NewDec(MAX_BASIS), NewDec(wBasis));
    MulLe(d, NewDec(MAX_BASIS), MAX_BASIS);
    QuoGe(NewDec(lpUnits), d, MAX_BASIS);
  }

  // ---------- accuracy ----------

  /** A rounded quotient of near decimals, as a relative error: `r` covers the rounding. */
  lemma QuoRelative(n: Dec, n0: real, j: real, d: Dec, d0: real, k: real, e0: real, r: real, z: real)
    requires d > 0 && Near(Val(n), n0, j) && Near(Val(d), d0, k) && e0 * d0 == n0
    requires 0.51 <= r * e0 && 0.0 <= r && z == j + k + 0.01 + r && z <= 100000000.0
    ensures Near(Val(Quo(n, d)), e0, z)
  {
    hide Quo;
    NearClose(Val(d), d0, k);
    DivDef(Val(n), Val(d));
    var q := Val(n) / Val(d);
    QuoError(n, d, q);
    NearDiv(Val(n), n0, j, Val(d), d0, k, q, e0);
    NearRound(q, Val(Quo(n, d)), e0, j + k + 0.01, 0.51, r);
  }

  lemma WholeNear(v: nat)
    requires v > 0
    ensures Near(Val(NewDec(v)), v as real, 0.0)
  {
    assert Val(NewDec(v)) == v as real;
  }

  lemma PortionNear(v: Dec, v0: real, j: real, part: nat, t0: real, r: real, z: real)
    requires 0 < part <= MAX_BASIS && Near(Val(v), v0, j) && t0 * 10000.0 == v0 * part as real
    requires 0.51 <= r * t0 && 0.0 <= r && z == j + 0.53 + r && z <= 100000000.0
    ensures Near(Val(Portion(v, part)), t0, z)
  {
    hide Quo, Near, Val;
    InversePositive(part);
    var d := Quo(NewDec(MAX_BASIS), NewDec(part));
    WholeNear(part);
    WholeNear(MAX_BASIS);
    var d0 := 10000.0 / part as real;
    InverseFacts(part as real, d0, t0, v0);
    QuoRelative(NewDec(MAX_BASIS), 10000.0, 0.0, NewDec(part), part as real, 0.0, d0, 0.51, 0.52);
    QuoRelative(v, v0, j, d, d0, 0.52, t0, r, z);
  }

  lemma InverseFacts(p: real, d0: real, t0: real, v0: real)
    requires 1.0 <= p <= 10000.0 && d0 == 10000.0 / p && t0 * 10000.0 == v0 * p
    ensures d0 * p == 10000.0 && d0 >= 1.0 && t0 * d0 == v0
  {
    Cancel(1.0, d0, p, p, 10000.0);
    var x := t0 * d0 - v0;
    assert x * p == t0 * (d0 * p) - v0 * p;
    assert x == 0.0;
  }

  /** Payout for near units, at most the pool's total: `w` is balance * units / total. */
  lemma WorthError(balance: nat, poolUnits: nat, units: Dec, c0: real, k: real, w: real)
    requires Divisible(poolUnits, units) && Near(Val(units), c0, k) && k <= 99999998.0
    requires c0 <= poolUnits as real && w * poolUnits as real == balance as real * c0
    ensures 0.0 <= w <= balance as real
    ensures Ulps(RoundInt(Worth(balance, poolUnits, units)) as real, w) <= 500000000000000001.0 + (k + 1.0) * w
  {
    hide Quo, Chop, Near, Val, Ulps;
    NearCap(Val(units), c0, k);
    var p, b := poolUnits as real, balance as real;
    var q0 := p / c0;
    WorthRange(p, b, c0, q0, w);
    var q := Quo(NewDec(poolUnits), units);
    WholeNear(poolUnits);
    QuoRelative(NewDec(poolUnits), p, 0.0, units, c0, k, q0, 0.51, k + 0.52);
    BalanceQuo(balance, b, q, q0, k + 0.52, w, (k + 1.0) * w);
    var d := Worth(balance, poolUnits, units);
    RoundIntError(d);
    Triangle(RoundInt(d) as real, Val(d), w);
  }

  lemma NearCap(v: real, e: real, k: real)
    requires Near(v, e, k)
    ensures 0.0 < e && 0.0 <= k
  {
  }

  lemma BalanceQuo(balance: nat, b: real, q: Dec, q0: real, k: real, w: real, kw: real)
    requires q > 0 && b == balance as real && Near(Val(q), q0, k) && k + 0.01 <= 100000000.0
    requires 0.0 <= w && w * q0 == b && kw == (k + 0.48) * w
    ensures Ulps(Val(Quo(NewDec(balance), q)), w) <= kw + 0.51
  {
    hide Quo;
    if balance > 0 {
      WholeNear(balance);
      QuoNear(NewDec(balance), b, 0.0, q, q0, k, w);
      Scale(k + 0.01, k + 0.48, w, (0.0 + k + 0.01) * w, kw);
    } else {
      NothingQuo(q, q0, w, kw, k);
    }
  }

  lemma NothingQuo(q: Dec, q0: real, w: real, kw: real, k: real)
    requires q > 0 && q0 > 0.0 && 0.0 <= w && w * q0 == 0.0 && kw == (k + 0.48) * w
    ensures Ulps(Val(Quo(NewDec(0), q)), w) <= kw + 0.51
  {
    hide Quo;
    QuoExact(0, q, 0);
    assert w == 0.0 by { Cancel(w, 0.0, q0, 0.0, 0.0); }
  }

  lemma WorthRange(p: real, b: real, c0: real, q0: real, w: real)
    requires 0.0 < c0 <= p && 0.0 <= b && q0 == p / c0 && w * p == b * c0
    ensures q0 * c0 == p && q0 >= 1.0 && w * q0 == b && 0.0 <= w <= b
  {
    Cancel(1.0, q0, c0, c0, p);
    var bc := b * c0;
    Scale(0.0, b, c0, 0.0, bc);
    Cancel(0.0, w, p, 0.0, bc);
    Scale(c0, p, b, bc, b * p);
    Cancel(w, b, p, bc, b * p);
    var x := w * q0 - b;
    assert x * c0 == w * (q0 * c0) - b * c0;
    assert x == 0.0;
  }

  /** The provider's claim, in units. */
  ghost function ExactClaim(lpUnits: real, part: nat): real { lpUnits * part as real / 10000.0 }

  ghost function ExactWorth(balance: nat, poolUnits: nat, units: real): real
    requires poolUnits > 0
  {
    balance as real * units / poolUnits as real
  }

  /** `paid` is the exact worth of `units` up to half a unit and `k` parts in 10^18. */
  ghost predicate PaidFor(paid: nat, balance: nat, poolUnits: nat, units: real, k: real)
    requires poolUnits > 0
  {
    var w := ExactWorth(balance, poolUnits, units);
    Ulps(paid as real, w) <= 500000000000000001.0 + k * w
  }

  /** Both payouts, the units left and the amount to swap follow the proportional formulas. */
  lemma WithdrawalAccuracy(poolUnits: nat, native: nat, external: nat, lpUnits: nat, wBasis: nat, asymmetry: int)
    requires 0 < wBasis <= MAX_BASIS && -(MAX_BASIS as int) <= asymmetry <= MAX_BASIS
    requires 0 < lpUnits <= poolUnits
    ensures var p := CalculateWithdrawal(poolUnits, native, external, lpUnits, wBasis, asymmetry);
            var c := ExactClaim(lpUnits as real, wBasis);
            && p.Payout?
            && PaidFor(p.native, native, poolUnits, c, 5102.0)
            && PaidFor(p.external, external, poolUnits, c, 5102.0)
            && Ulps(p.unitsLeft as real, lpUnits as real - c) <= 500000000000000000.0 + 5101.0 * c
            && (asymmetry > 0 ==> PaidFor(p.swapAmount, native, poolUnits, ExactClaim(c, asymmetry), 51005103.0))
            && (asymmetry < 0 ==> PaidFor(p.swapAmount, external, poolUnits, ExactClaim(c, -asymmetry), 51005103.0))
  {
    hide Quo, Chop, Portion, Worth, Divisible, PaidFor, Near, Ulps, Val;
    NoOverWithdrawal(poolUnits, native, external, lpUnits, wBasis, asymmetry);
    var claim, c := Portion(NewDec(lpUnits), wBasis), ExactClaim(lpUnits as real, wBasis);
    ClaimLarge(lpUnits, wBasis, claim);
    ClaimNear(lpUnits, wBasis, claim, c);
    ClaimPaid(native, poolUnits, claim, c, 5101.0);
    ClaimPaid(external, poolUnits, claim, c, 5101.0);
    LeftError(lpUnits, claim, c);
    if asymmetry != 0 {
      var part := if asymmetry > 0 then asymmetry else -asymmetry;
      var swap, d := Portion(claim, part), ExactClaim(c, part);
      PortionAtMost(claim, part);
      SwapNear(claim, c, part, d);
      ClaimPaid(if asymmetry > 0 then native else external, poolUnits, swap, d, 51005102.0);
    }
  }

  lemma ClaimNear(lpUnits: nat, part: nat, claim: Dec, c: real)
    requires 0 < part <= MAX_BASIS && lpUnits > 0
    requires claim == Portion(NewDec(lpUnits), part) && c == ExactClaim(lpUnits as real, part)
    ensures Near(Val(claim), c, 5101.0) && 0.0001 <= c <= lpUnits as real
  {
    hide Portion;
    WholeNear(lpUnits);
    var l, p := lpUnits as real, part as real;
    Scale(1.0, l, p, p, l * p);
    Scale(p, 10000.0, l, l * p, 10000.0 * l);
    PortionNear(NewDec(lpUnits), l, 0.0, part, c, 5100.47, 5101.0);
  }

  lemma SwapNear(claim: Dec, c: real, part: nat, d: real)
    requires 0 < part <= MAX_BASIS && d == ExactClaim(c, part)
    requires Near(Val(claim), c, 5101.0) && 0.0001 <= c
    ensures Near(Val(Portion(claim, part)), d, 51005102.0) && 0.0 < d <= c
  {
    hide Portion;
    var p := part as real;
    Scale(1.0, p, c, c, c * p);
    Scale(p, 10000.0, c, c * p, 10000.0 * c);
    PortionNear(claim, c, 5101.0, part, d, 51000000.47, 51005102.0);
  }

  lemma ClaimPaid(balance: nat, poolUnits: nat, units: Dec, c: real, k: real)
    requires 0 < units <= NewDec(poolUnits) && Near(Val(units), c, k) && k <= 99999998.0
    requires poolUnits > 0 && c <= poolUnits as real
    ensures Divisible(poolUnits, units)
    ensures PaidFor(RoundInt(Worth(balance, poolUnits, units)), balance, poolUnits, c, k + 1.0)
  {
    hide Quo, Chop, Near, Worth;
    QuoGe(NewDec(poolUnits), units, ONE);
    WorthAtMost(balance, poolUnits, units);
    var w := ExactWorth(balance, poolUnits, c);
    DivDef(balance as real * c, poolUnits as real);
    WorthError(balance, poolUnits, units, c, k, w);
  }

  lemma LeftError(lpUnits: nat, claim: Dec, c: real)
    requires claim <= NewDec(lpUnits) && Near(Val(claim), c, 5101.0)
    ensures Ulps(RoundInt(NewDec(lpUnits) - claim) as real, lpUnits as real - c) <= 500000000000000000.0 + 5101.0 * c
  {
    hide Chop;
    var d := NewDec(lpUnits) - claim;
    assert Val(d) == lpUnits as real - Val(claim);
    RoundIntError(d);
    Triangle(RoundInt(d) as real, Val(d), lpUnits as real - c);
  }
}
