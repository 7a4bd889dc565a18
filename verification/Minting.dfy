/**
 Accuracy of the units minted for a deposit.
 */
module Minting {
  import opened FixedPoint
  import opened Precision
  import opened RelativeError
  import opened Curve
  import opened Swap
  import opened PoolUnits

  /** P (a R + A r) / (2 A R): the depositor's average share of both sides. */
  ghost function ExactShare(P: nat, R: nat, A: nat, r: nat, a: nat): real
    requires R > 0 && A > 0
  {
    P as real * (a as real * R as real + A as real * r as real) / (2.0 * (A as real * R as real))
  }

  /** |R a - r A| / ((r + R) (a + A)): how lopsided the deposit is. */
  ghost function ExactSlip(R: nat, A: nat, r: nat, a: nat): real
    requires R > 0 && A > 0
  {
    Abs(R as real * a as real - r as real * A as real) / ((r + R) as real * (a + A) as real)
  }

  /** `u` is P (a R + A r) / (2 A R). */
  ghost predicate IsShare(u: real, P: real, R: real, A: real, r: real, a: real) {
    u * (2.0 * (A * R)) == P * (a * R + A * r)
  }

  /** `g` is |R a - r A| / ((r + R) (a + A)). */
  ghost predicate IsSlip(g: real, R: real, A: real, r: real, a: real) {
    g * ((r + R) * (a + A)) == Abs(R * a - r * A)
  }

  /** v s - u (1 - g) == (v - u) s + u (s - (1 - g)) */
  lemma StakeError(q: Dec, u: real, eq: real, slip: Dec, g: real, es: real, t: real, eu: real)
    requires slip <= ONE && 0.0 <= u
    requires Ulps(Val(q), u) <= eq && Ulps(Val(slip), g) <= es
    requires t == u * (1.0 - g) && eu == es * u
    ensures Ulps(Val(Mul(q, ONE - slip)), t) <= 0.5 + eq + eu
  {
    hide Mul;
    MulError(q, ONE - slip);
    assert Val(ONE - slip) == 1.0 - Val(slip);
    StakeSplit(Val(q), u, Val(ONE - slip), 1.0 - g, Val(q) * Val(ONE - slip), Val(Mul(q, ONE - slip)), t, eq, es, eu);
  }

  lemma StakeSplit(v: real, u: real, s: real, h: real, vs: real, z: real, t: real, eq: real, es: real, eu: real)
    requires 0.0 <= s <= 1.0 && 0.0 <= u && vs == v * s && t == u * h && eu == es * u
    requires Ulps(v, u) <= eq && Ulps(s, h) <= es && Ulps(z, vs) <= 0.5
    ensures Ulps(z, t) <= 0.5 + eq + eu
  {
    var p, q := Ulps(v, u) * s, Ulps(s, h) * u;
    MulSplit(v, u, s, h, vs, t, p, q);
    Scale(s, 1.0, Ulps(v, u), p, Ulps(v, u));
    Scale(Ulps(s, h), es, u, q, eu);
    Triangle(z, vs, t);
  }

  // ---------- exponent 6 ----------

  lemma SixShare(P: nat, R: nat, A: nat, r: nat, a: nat, u: real)
    requires R > 0 && A > 0
    requires IsShare(u, P as real, R as real, A as real, r as real, a as real)
    ensures Mul(Mul(2 * ONE, A * TERA), R * TERA) > 0
    ensures Ulps(Val(Share(P * TERA, R * TERA, A * TERA, r * TERA, a * TERA)), u / 1000000.0) <= 0.51
  {
    hide Mul, Quo;
    MulTera(a, R);
    MulTera(A, r);
    var t := a * R + A * r;
    MulExact(P * TERA, t * MEGA, P * t);
    MulExact(2 * ONE, A * TERA, 2 * A * TERA);
    MulTera(2 * A, R);
    var n, d := P * t, 2 * A * R * MEGA;
    MulLe(1, A, R);
    SixShareRatio(P, R, A, t, u, n, d);
    QuoError(n, d, u / 1000000.0);
  }

  lemma SixShareRatio(P: nat, R: nat, A: nat, t: nat, u: real, n: nat, d: nat)
    requires u * (2.0 * (A as real * R as real)) == P as real * t as real
    requires n == P * t && d == 2 * A * R * MEGA
    ensures u / 1000000.0 * Val(d) == Val(n)
  {
    assert d as real == 2.0 * (A as real * R as real) * 1000000.0;
    assert n as real == P as real * t as real;
  }

  lemma SixSlip(R: nat, A: nat, r: nat, a: nat, g: real)
    requires R > 0 && A > 0
    requires IsSlip(g, R as real, A as real, r as real, a as real)
    ensures Mul(r * TERA + R * TERA, a * TERA + A * TERA) > 0
    ensures Ulps(Val(Slip(R * TERA, A * TERA, r * TERA, a * TERA)), g) <= 0.51
    ensures R * a == r * A ==> Slip(R * TERA, A * TERA, r * TERA, a * TERA) == 0
  {
    hide Mul, Quo;
    MulTera(R, a);
    MulTera(r, A);
    MulTera(r + R, a + A);
    var d := (r + R) * (a + A) * MEGA;
    assert d > 0 by { MulLe(1, r + R, a + A); }
    var n := if R * a > r * A then R * a - r * A else r * A - R * a;
    assert Slip(R * TERA, A * TERA, r * TERA, a * TERA) == Quo(n * MEGA, d);
    SixSlipRatio(R, A, r, a, g, n, d);
    QuoError(n * MEGA, d, g);
    if n == 0 { QuoExact(0, d, 0); }
  }

  lemma SixSlipRatio(R: nat, A: nat, r: nat, a: nat, g: real, n: nat, d: nat)
    requires IsSlip(g, R as real, A as real, r as real, a as real)
    requires n == (if R * a > r * A then R * a - r * A else r * A - R * a) && d == (r + R) * (a + A) * MEGA
    ensures g * Val(d) == Val(n * MEGA)
  {
    var x, y := R * a, r * A;
    assert n as real == Abs(x as real - y as real);
    var e := (r + R) * (a + A);
    assert d as real == e as real * 1000000.0;
  }

  lemma SixStakeIs(P: nat, R: nat, A: nat, r: nat, a: nat)
    requires R > 0 && A > 0
    ensures Mul(r * TERA + R * TERA, a * TERA + A * TERA) > 0 && Mul(Mul(2 * ONE, A * TERA), R * TERA) > 0
    ensures Stake(P, R, A, r, a, 6) ==
            Mul(Share(P * TERA, R * TERA, A * TERA, r * TERA, a * TERA), ONE - Slip(R * TERA, A * TERA, r * TERA, a * TERA))
  {
    hide Mul, Quo, Chop, Share, Slip, Reduced;
    DenominatorsPositive(R, A, r, a, 6);
    ReducedSix(P);
    ReducedSix(R);
    ReducedSix(A);
    ReducedSix(r);
    ReducedSix(a);
  }

  /** At exponent 6 only the two quotients and the last product are rounded. */
  lemma SixStake(P: nat, R: nat, A: nat, r: nat, a: nat, u: real, g: real)
    requires R > 0 && A > 0 && 0.0 <= u
    requires IsShare(u, P as real, R as real, A as real, r as real, a as real)
    requires IsSlip(g, R as real, A as real, r as real, a as real)
    ensures Ulps(Val(IncreasePrecision(Stake(P, R, A, r, a, 6), 6)), u * (1.0 - g)) <= 1010000.0 + 0.51 * u
    ensures R * a == r * A ==> Ulps(Val(IncreasePrecision(Stake(P, R, A, r, a, 6), 6)), u) <= 510000.0
  {
    hide Mul, Quo, Chop, Share, Slip, Stake, Ulps, Val, IncreasePrecision, IsShare, IsSlip;
    SixStakeIs(P, R, A, r, a);
    SixShare(P, R, A, r, a, u);
    SixSlip(R, A, r, a, g);
    var q := Share(P * TERA, R * TERA, A * TERA, r * TERA, a * TERA);
    var slip := Slip(R * TERA, A * TERA, r * TERA, a * TERA);
    var v := u / 1000000.0;
    StakeError(q, v, 0.51, slip, g, 0.51, v * (1.0 - g), 0.51 * v);
    assert Pow10(6) == MEGA;
    assert v * (1.0 - g) * 1000000.0 == u * (1.0 - g);
    ScaleUp(Mul(q, ONE - slip), 6, v * (1.0 - g), u * (1.0 - g), 1000000.0, 1.01 + 0.51 * v);
    if R * a == r * A {
      MulExact(q, ONE, q);
      ScaleUp(q, 6, v, u, 1000000.0, 0.51);
    }
  }

  // ---------- larger exponents ----------

  /** A scaled input, at least one and rounded once. */
  ghost predicate Input(v: Dec, v0: real) { v0 >= 1.0 && Ulps(Val(v), v0) <= 0.51 }

  lemma InputNear(v: Dec, v0: real)
    requires Input(v, v0)
    ensures Near(Val(v), v0, 0.51)
  {
  }

  lemma InputProduct(v: Dec, v0: real, w: Dec, w0: real, p: real)
    requires Input(v, v0) && Input(w, w0) && p == v0 * w0
    ensures p >= v0 >= 1.0 && p >= w0 >= 1.0
    ensures Near(Val(Mul(v, w)), p, 1.53)
  {
    hide Mul;
    Scale(1.0, v0, w0, w0, p);
    Scale(1.0, w0, v0, v0, p);
    NearProduct(v, v0, 0.51, w, w0, 0.51, p, 0.5, 1.53);
  }

  lemma InputSum(v: Dec, v0: real, w: Dec, w0: real)
    requires Input(v, v0) && Input(w, w0)
    ensures v0 + w0 >= 2.0
    ensures Near(Val(v + w), v0 + w0, 0.51)
  {
    NearSum(Val(v), v0, Val(w), w0, 0.51);
  }

  lemma DecSum(v: Dec, e: real, w: Dec, f: real, k: real)
    requires Near(Val(v), e, k) && Near(Val(w), f, k)
    ensures Near(Val(v + w), e + f, k)
  {
    NearSum(Val(v), e, Val(w), f, k);
    assert Val(v + w) == Val(v) + Val(w);
  }

  lemma DoubleInput(v: Dec, v0: real)
    requires Input(v, v0)
    ensures Near(Val(2 * v), 2.0 * v0, 0.51)
  {
    hide Near, Val;
    InputNear(v, v0);
    DecSum(v, v0, v, v0, 0.51);
    assert 2 * v == v + v && 2.0 * v0 == v0 + v0;
  }

  lemma LargeShare(P: Dec, P0: real, R: Dec, R0: real, A: Dec, A0: real, r: Dec, r0: real, a: Dec, a0: real,
                   aR: real, Ar: real, n0: real, d0: real, u0: real)
    requires Input(P, P0) && Input(R, R0) && Input(A, A0) && Input(r, r0) && Input(a, a0)
    requires aR == a0 * R0 && Ar == A0 * r0 && n0 == P0 * (aR + Ar) && d0 == 2.0 * (A0 * R0) && u0 * d0 == n0
    requires Mul(2 * ONE, A) == 2 * A && Mul(2 * A, R) > 0
    ensures Ulps(Val(Share(P, R, A, r, a)), u0) <= 4.09 * u0 + 0.51
  {
    hide Mul, Quo, Near, Input, Val, Ulps;
    InputProduct(a, a0, R, R0, aR);
    InputProduct(A, A0, r, r0, Ar);
    var t := Mul(a, R) + Mul(A, r);
    DecSum(Mul(a, R), aR, Mul(A, r), Ar, 1.53);
    ShareNumerator(P, P0, t, aR + Ar, n0);
    ShareDenominator(A, A0, R, R0, d0);
    QuoNear(Mul(P, t), n0, 2.55, Mul(2 * A, R), d0, 1.53, u0);
  }

  lemma ShareNumerator(P: Dec, P0: real, t: Dec, t0: real, n0: real)
    requires Input(P, P0) && Near(Val(t), t0, 1.53) && t0 >= 1.0 && n0 == P0 * t0
    ensures Near(Val(Mul(P, t)), n0, 2.55)
  {
    hide Mul;
    Scale(1.0, P0, t0, t0, n0);
    NearProduct(P, P0, 0.51, t, t0, 1.53, n0, 0.5, 2.55);
  }

  lemma ShareDenominator(A: Dec, A0: real, R: Dec, R0: real, d0: real)
    requires Input(A, A0) && Input(R, R0) && d0 == 2.0 * (A0 * R0)
    ensures Near(Val(Mul(2 * A, R)), d0, 1.53)
  {
    hide Mul;
    DoubleInput(A, A0);
    Scale(2.0, 2.0 * A0, R0, 2.0 * R0, d0);
    NearProduct(2 * A, 2.0 * A0, 0.51, R, R0, 0.51, d0, 0.5, 1.53);
  }

  lemma LargeSlip(R: Dec, R0: real, A: Dec, A0: real, r: Dec, r0: real, a: Dec, a0: real,
                  Ra: real, rA: real, d0: real, g: real)
    requires Input(R, R0) && Input(A, A0) && Input(r, r0) && Input(a, a0)
    requires Ra == R0 * a0 && rA == r0 * A0 && d0 == (r0 + R0) * (a0 + A0) && g * d0 == Abs(Ra - rA)
    requires 0.0 <= g <= 1.0 && Ra + rA <= d0
    requires Mul(r + R, a + A) > 0
    ensures Ulps(Val(Slip(R, A, r, a)), g) <= 3.21
  {
    hide Mul, Quo, Near, Input, Val, Ulps, Abs;
    InputProduct(R, R0, a, a0, Ra);
    InputProduct(r, r0, A, A0, rA);
    SlipDenominator(r, r0, R, R0, a, a0, A, A0, d0);
    var x, y := Mul(R, a), Mul(r, A);
    var n := if x > y then x - y else y - x;
    SlipNumerator(x, Ra, y, rA, d0, n);
    SlipQuo(n, Abs(Ra - rA), Mul(r + R, a + A), d0, g);
  }

  lemma SlipDenominator(r: Dec, r0: real, R: Dec, R0: real, a: Dec, a0: real, A: Dec, A0: real, d0: real)
    requires Input(R, R0) && Input(A, A0) && Input(r, r0) && Input(a, a0)
    requires d0 == (r0 + R0) * (a0 + A0)
    ensures Near(Val(Mul(r + R, a + A)), d0, 1.16)
  {
    hide Mul, Near, Input, Val, Ulps;
    InputSum(r, r0, R, R0);
    InputSum(a, a0, A, A0);
    var s, t := r0 + R0, a0 + A0;
    Scale(2.0, s, t, 2.0 * t, d0);
    NearProduct(r + R, s, 0.51, a + A, t, 0.51, d0, 0.13, 1.16);
  }

  lemma SlipNumerator(x: Dec, x0: real, y: Dec, y0: real, d0: real, n: Dec)
    requires Near(Val(x), x0, 1.53) && Near(Val(y), y0, 1.53) && x0 + y0 <= d0
    requires n == if x > y then x - y else y - x
    ensures Ulps(Val(n), Abs(x0 - y0)) <= 1.53 * d0
  {
  }

  lemma SlipQuo(n: Dec, n0: real, d: Dec, d0: real, g: real)
    requires Ulps(Val(n), n0) <= 1.53 * d0 && Near(Val(d), d0, 1.16) && 0.0 <= g <= 1.0 && g * d0 == n0
    requires d > 0
    ensures Ulps(Val(Quo(n, d)), g) <= 3.21
  {
    hide Quo;
    NearClose(Val(d), d0, 1.16);
    DivDef(Val(n), Val(d));
    var q := Val(n) / Val(d);
    SlipQuotient(Val(n), n0, Val(d), d0, q, g);
    QuoError(n, d, q);
    Triangle(Val(Quo(n, d)), q, g);
  }

  lemma SlipQuotient(n: real, n0: real, d: real, d0: real, q: real, g: real)
    requires Ulps(n, n0) <= 1.53 * d0 && Near(d, d0, 1.16) && 0.0 <= g <= 1.0
    requires q * d == n && g * d0 == n0
    ensures Ulps(q, g) <= 2.7
  {
    NearClose(d, d0, 1.16);
    var p, r := Ulps(q, g) * d, Ulps(d, d0) * g;
    DivSplit(n, n0, d, d0, q, g, p, r);
    Scale(g, 1.0, Ulps(d, d0), r, Ulps(d, d0));
    Cancel(Ulps(q, g), 2.7, d, p, 2.7 * d);
  }

  lemma LargeStake(P: Dec, P0: real, R: Dec, R0: real, A: Dec, A0: real, r: Dec, r0: real, a: Dec, a0: real,
                   u0: real, g: real, t0: real)
    requires Input(P, P0) && Input(R, R0) && Input(A, A0) && Input(r, r0) && Input(a, a0)
    requires IsShare(u0, P0, R0, A0, r0, a0) && 0.0 <= u0
    requires IsSlip(g, R0, A0, r0, a0) && 0.0 <= g <= 1.0
    requires t0 == u0 * (1.0 - g)
    requires Mul(2 * ONE, A) == 2 * A && Mul(2 * A, R) > 0 && Mul(r + R, a + A) > 0
    ensures Ulps(Val(Mul(Share(P, R, A, r, a), ONE - Slip(R, A, r, a))), t0) <= 7.3 * u0 + 1.01
  {
    hide Mul, Quo, Near, Val, Ulps, Abs, Share, Slip;
    var aR, Ar := a0 * R0, A0 * r0;
    LargeShare(P, P0, R, R0, A, A0, r, r0, a, a0, aR, Ar, P0 * (aR + Ar), 2.0 * (A0 * R0), u0);
    var Ra, rA, d0 := R0 * a0, r0 * A0, (r0 + R0) * (a0 + A0);
    CrossTerms(R0, A0, r0, a0, Ra, rA, d0);
    LargeSlip(R, R0, A, A0, r, r0, a, a0, Ra, rA, d0, g);
    StakeError(Share(P, R, A, r, a), u0, 4.09 * u0 + 0.51, Slip(R, A, r, a), g, 3.21, t0, 3.21 * u0);
  }

  lemma CrossTerms(R: real, A: real, r: real, a: real, Ra: real, rA: real, d: real)
    requires R >= 0.0 && A >= 0.0 && r >= 0.0 && a >= 0.0
    requires Ra == R * a && rA == r * A && d == (r + R) * (a + A)
    ensures Ra + rA <= d
  {
    var ra, RA := r * a, R * A;
    Scale(0.0, r, a, 0.0, ra);
    Scale(0.0, R, A, 0.0, RA);
    assert d == ra + rA + Ra + RA;
  }

  lemma LargeMint(P: nat, R: nat, A: nat, r: nat, a: nat, m: nat, u: real, g: real, t: real)
    requires Scales(m, P) && Scales(m, R) && Scales(m, A) && Scales(m, r) && Scales(m, a) && m > 6
    requires IsShare(u, P as real, R as real, A as real, r as real, a as real)
    requires IsSlip(g, R as real, A as real, r as real, a as real)
    requires 0.0 <= u && 0.0 <= g <= 1.0 && t == u * (1.0 - g)
    ensures Ulps(Val(IncreasePrecision(Stake(P, R, A, r, a, m), m)), t) <= 7.3 * u + 1.01 * P as real
  {
    hide Mul, Quo, Chop, Share, Slip, Reduced, Ulps, Val, Abs, IsShare, IsSlip;
    DenominatorsPositive(R, A, r, a, m);
    var p := Pow10(m) as real;
    var q := Inverse(p);
    var P0 := LargeInput(P, m, q);
    var R0 := LargeInput(R, m, q);
    var A0 := LargeInput(A, m, q);
    var r0 := LargeInput(r, m, q);
    var a0 := LargeInput(a, m, q);
    LargeMintScaled(P as real, Reduced(P, m), P0, R as real, Reduced(R, m), R0, A as real, Reduced(A, m), A0,
                    r as real, Reduced(r, m), r0, a as real, Reduced(a, m), a0, m, p, q, u, g, t);
  }

  lemma LargeMintScaled(P: real, P': Dec, P0: real, R: real, R': Dec, R0: real, A: real, A': Dec, A0: real,
                        r: real, r': Dec, r0: real, a: real, a': Dec, a0: real,
                        m: nat, p: real, q: real, u: real, g: real, t: real)
    requires Input(P', P0) && Input(R', R0) && Input(A', A0) && Input(r', r0) && Input(a', a0)
    requires P0 == P * q && R0 == R * q && A0 == A * q && r0 == r * q && a0 == a * q
    requires p == Pow10(m) as real && q * p == 1.0 && p <= P
    requires IsShare(u, P, R, A, r, a) && IsSlip(g, R, A, r, a)
    requires 0.0 <= u && 0.0 <= g <= 1.0 && t == u * (1.0 - g)
    requires Mul(2 * ONE, A') == 2 * A' && Mul(2 * A', R') > 0 && Mul(r' + R', a' + A') > 0
    ensures Ulps(Val(IncreasePrecision(Mul(Share(P', R', A', r', a'), ONE - Slip(R', A', r', a')), m)), t)
            <= 7.3 * u + 1.01 * P
  {
    hide Mul, Quo, Chop, Share, Slip, Input, Ulps, Val, Abs, Pow10, IsShare, IsSlip;
    var u0 := u * q;
    RescaleShare(P, P0, R, R0, A, A0, r, r0, a, a0, u, u0, q);
    PositiveInverse(p, q, u, u0);
    RescaleSlip(R, R0, A, A0, r, r0, a, a0, g, q);
    var t0 := u0 * (1.0 - g);
    LargeStake(P', P0, R', R0, A', A0, r', r0, a', a0, u0, g, t0);
    assert t0 * p == t by { assert t0 * p == (u0 * p) * (1.0 - g); }
    ScaleUp(Mul(Share(P', R', A', r', a'), ONE - Slip(R', A', r', a')), m, t0, t, p, 7.3 * u0 + 1.01);
    assert (7.3 * u0 + 1.01) * p == 7.3 * (u0 * p) + 1.01 * p;
  }

  lemma PositiveInverse(p: real, q: real, u: real, u0: real)
    requires p > 0.0 && q * p == 1.0 && 0.0 <= u && u0 == u * q
    ensures 0.0 < q && 0.0 <= u0 && u0 * p == u
  {
    if q <= 0.0 { Scale(q, 0.0, p, 1.0, 0.0); }
    Scale(0.0, u, q, 0.0, u0);
    assert u0 * p == u * (q * p);
  }

  lemma RescaleShare(P: real, P0: real, R: real, R0: real, A: real, A0: real, r: real, r0: real, a: real, a0: real,
                     u: real, u0: real, q: real)
    requires IsShare(u, P, R, A, r, a)
    requires P0 == P * q && R0 == R * q && A0 == A * q && r0 == r * q && a0 == a * q && u0 == u * q
    ensures IsShare(u0, P0, R0, A0, r0, a0)
  {
    var t, t0, w := a * R + A * r, a0 * R0 + A0 * r0, 2.0 * (A * R);
    assert t0 == t * (q * q);
    assert 2.0 * (A0 * R0) == w * (q * q);
    calc {
      u0 * (2.0 * (A0 * R0));
      (u * q) * (w * (q * q));
      (u * w) * (q * q * q);
      (P * t) * (q * q * q);
      (P * q) * (t * (q * q));
      P0 * t0;
    }
  }

  lemma RescaleSlip(R: real, R0: real, A: real, A0: real, r: real, r0: real, a: real, a0: real, g: real, q: real)
    requires IsSlip(g, R, A, r, a) && q >= 0.0
    requires R0 == R * q && A0 == A * q && r0 == r * q && a0 == a * q
    ensures IsSlip(g, R0, A0, r0, a0)
  {
    SlipTimes(R, A, r, a, g, q, R0, A0, r0, a0, R * a - r * A, (r + R) * (a + A));
    SlipTimes(R0, A, r0, a, g, q, R0 * q, A0, r0 * q, a0, R0 * a - r0 * A, (r0 + R0) * (a + A));
  }

  // ---------- every deposit ----------

  lemma ExactShareDef(P: nat, R: nat, A: nat, r: nat, a: nat, u: real)
    requires R > 0 && A > 0 && u == ExactShare(P, R, A, r, a)
    ensures IsShare(u, P as real, R as real, A as real, r as real, a as real) && 0.0 <= u
  {
    var w, t := 2.0 * (A as real * R as real), a as real * R as real + A as real * r as real;
    var n := P as real * t;
    Scale(1.0, A as real, R as real, R as real, A as real * R as real);
    Scale(0.0, a as real, R as real, 0.0, a as real * R as real);
    Scale(0.0, A as real, r as real, 0.0, A as real * r as real);
    Scale(0.0, t, P as real, 0.0, n);
    DivDef(n, w);
    Cancel(0.0, u, w, 0.0, n);
  }

  lemma ExactSlipDef(R: nat, A: nat, r: nat, a: nat, g: real)
    requires R > 0 && A > 0 && g == ExactSlip(R, A, r, a)
    ensures IsSlip(g, R as real, A as real, r as real, a as real) && 0.0 <= g <= 1.0
  {
    var x, y, d := R as real * a as real, r as real * A as real, (r + R) as real * (a + A) as real;
    SlipRange(R as real, A as real, r as real, a as real, x, y, d, g);
  }

  lemma SlipRange(R: real, A: real, r: real, a: real, Ra: real, rA: real, d: real, g: real)
    requires R >= 1.0 && A >= 1.0 && r >= 0.0 && a >= 0.0
    requires Ra == R * a && rA == r * A && d == (r + R) * (a + A) && d != 0.0 && g == Abs(Ra - rA) / d
    ensures g * d == Abs(Ra - rA) && 0.0 <= g <= 1.0
  {
    var n := Abs(Ra - rA);
    CrossTerms(R, A, r, a, Ra, rA, d);
    Scale(0.0, R, a, 0.0, Ra);
    Scale(0.0, r, A, 0.0, rA);
    Scale(1.0, r + R, a + A, a + A, d);
    DivDef(n, d);
    Cancel(0.0, g, d, 0.0, n);
    Cancel(g, 1.0, d, n, d);
  }

  /** Share and slip do not change when both amounts of one asset are rescaled. */
  lemma RatioInvariant(P: real, R: real, A: real, r: real, a: real, u: real, g: real, k: real,
                       Rk: real, Ak: real, rk: real, ak: real)
    requires IsShare(u, P, R, A, r, a) && IsSlip(g, R, A, r, a) && k >= 0.0
    requires Rk == R * k && Ak == A * k && rk == r * k && ak == a * k
    ensures IsShare(u, P, Rk, A, rk, a) && IsSlip(g, Rk, A, rk, a)
    ensures IsShare(u, P, R, Ak, r, ak) && IsSlip(g, R, Ak, r, ak)
  {
    ShareTimes(P, R, A, r, a, u, k, Rk, Ak, rk, ak, a * R + A * r, 2.0 * (A * R));
    SlipTimes(R, A, r, a, g, k, Rk, Ak, rk, ak, R * a - r * A, (r + R) * (a + A));
  }

  lemma ShareTimes(P: real, R: real, A: real, r: real, a: real, u: real, k: real,
                   Rk: real, Ak: real, rk: real, ak: real, t: real, w: real)
    requires t == a * R + A * r && w == 2.0 * (A * R) && u * w == P * t
    requires Rk == R * k && Ak == A * k && rk == r * k && ak == a * k
    ensures IsShare(u, P, Rk, A, rk, a) && IsShare(u, P, R, Ak, r, ak)
  {
    assert u * (w * k) == P * (t * k);
    assert a * Rk + A * rk == t * k && ak * R + Ak * r == t * k;
    assert 2.0 * (A * Rk) == w * k && 2.0 * (Ak * R) == w * k;
  }

  lemma SlipTimes(R: real, A: real, r: real, a: real, g: real, k: real,
                  Rk: real, Ak: real, rk: real, ak: real, x: real, y: real)
    requires x == R * a - r * A && y == (r + R) * (a + A) && g * y == Abs(x) && k >= 0.0
    requires Rk == R * k && Ak == A * k && rk == r * k && ak == a * k
    ensures IsSlip(g, Rk, A, rk, a) && IsSlip(g, R, Ak, r, ak)
  {
    AbsMul(x, k);
    assert g * (y * k) == Abs(x * k) by { assert g * (y * k) == g * y * k; }
    CrossTimes(R, A, r, a, k, Rk, rk, x, y);
    CrossTimes(A, R, a, r, k, Ak, ak, -x, y);
    assert R * ak - r * Ak == x * k && (r + R) * (ak + Ak) == y * k;
  }

  lemma CrossTimes(R: real, A: real, r: real, a: real, k: real, Rk: real, rk: real, x: real, y: real)
    requires x == R * a - r * A && y == (r + R) * (a + A) && Rk == R * k && rk == r * k
    ensures Rk * a - rk * A == x * k && (rk + Rk) * (a + A) == y * k
  {
    assert rk + Rk == (r + R) * k;
  }

  /** The rounded slip of a deposit is the exact one within a few units of the last place. */
  lemma SlipAccuracy(R: nat, A: nat, r: nat, a: nat, m: nat)
    requires Scales(m, R) && Scales(m, A) && (m > 6 ==> r >= Pow10(m) && a >= Pow10(m))
    ensures Mul(Reduced(r, m) + Reduced(R, m), Reduced(a, m) + Reduced(A, m)) > 0
    ensures 0.0 <= ExactSlip(R, A, r, a) <= 1.0
    ensures Ulps(Val(Slip(Reduced(R, m), Reduced(A, m), Reduced(r, m), Reduced(a, m))), ExactSlip(R, A, r, a)) <= 3.21
  {
    hide Mul, Quo, Chop, Slip, Reduced, Ulps, Val, Abs, IsSlip, ExactSlip;
    var g := ExactSlip(R, A, r, a);
    ExactSlipDef(R, A, r, a, g);
    DenominatorsPositive(R, A, r, a, m);
    if m == 6 {
      ReducedSix(R);
      ReducedSix(A);
      ReducedSix(r);
      ReducedSix(a);
      SixSlip(R, A, r, a, g);
    } else {
      LargeSlipAccuracy(R, A, r, a, m, g);
    }
  }

  lemma LargeSlipAccuracy(R: nat, A: nat, r: nat, a: nat, m: nat, g: real)
    requires m > 6 && Scales(m, R) && Scales(m, A) && Scales(m, r) && Scales(m, a)
    requires IsSlip(g, R as real, A as real, r as real, a as real) && 0.0 <= g <= 1.0
    ensures Mul(Reduced(r, m) + Reduced(R, m), Reduced(a, m) + Reduced(A, m)) > 0
    ensures Ulps(Val(Slip(Reduced(R, m), Reduced(A, m), Reduced(r, m), Reduced(a, m))), g) <= 3.21
  {
    hide Mul, Quo, Chop, Slip, Reduced, Ulps, Val, Abs, IsSlip, Pow10;
    DenominatorsPositive(R, A, r, a, m);
    var p := Pow10(m) as real;
    var q := Inverse(p);
    var R0 := LargeInput(R, m, q);
    var A0 := LargeInput(A, m, q);
    var r0 := LargeInput(r, m, q);
    var a0 := LargeInput(a, m, q);
    PositiveInverse(p, q, 0.0, 0.0);
    RescaleSlip(R as real, R0, A as real, A0, r as real, r0, a as real, a0, g, q);
    SlipMeans(g, R0, A0, r0, a0);
    CrossTerms(R0, A0, r0, a0, R0 * a0, r0 * A0, (r0 + R0) * (a0 + A0));
    LargeSlip(Reduced(R, m), R0, Reduced(A, m), A0, Reduced(r, m), r0, Reduced(a, m), a0,
              R0 * a0, r0 * A0, (r0 + R0) * (a0 + A0), g);
  }

  lemma SlipMeans(g: real, R: real, A: real, r: real, a: real)
    requires IsSlip(g, R, A, r, a)
    ensures g * ((r + R) * (a + A)) == Abs(R * a - r * A)
  {
  }

  /** Bound on the distance of the minted units from the formula, in units of 10^-18. */
  ghost function MintTolerance(m: nat, P: nat, u: real): real {
    500000000002000000.0 + if m == 6 then u else 8.0 * u + 2.0 * P as real
  }

  /**
   The units minted for any deposit into a pool that holds both assets are the formula's value
   within half a unit, 2 * 10^-12 and a few parts in 10^18.
   */
  lemma MintAccuracy(P: nat, R: nat, A: nat, r: nat, a: nat, n: Normalization, u: real, g: real)
    requires n.Valid() && R > 0 && A > 0 && (r > 0 || a > 0)
    requires u == ExactShare(P, R, A, r, a) && g == ExactSlip(R, A, r, a)
    ensures 0.0 <= g <= 1.0
    ensures var out := CalculatePoolUnits(P, R, A, r, a, n);
            && out.Units?
            && Ulps(out.minted as real, u * (1.0 - g)) <= MintTolerance(DepositExponent(P, R, A, r, a, n), P, u)
  {
    hide Chop, Stake, ExactShare, ExactSlip, ScaleExponent, IsShare, IsSlip, Ulps, Val, Mul;
    var R', A', r', a', m := NormalizedDeposit(P, R, A, r, a, n, u, g);
    var t := u * (1.0 - g);
    StakeWithin(P, R', A', r', a', m, u, g, t);
    var z := IncreasePrecision(Stake(P, R', A', r', a', m), m);
    RoundIntError(z);
    Triangle(RoundInt(z) as real, Val(z), t);
  }

  lemma StakeWithin(P: nat, R: nat, A: nat, r: nat, a: nat, m: nat, u: real, g: real, t: real)
    requires Scales(m, R) && Scales(m, A) && (m > 6 ==> P >= Pow10(m) && r >= Pow10(m) && a >= Pow10(m))
    requires IsShare(u, P as real, R as real, A as real, r as real, a as real)
    requires IsSlip(g, R as real, A as real, r as real, a as real)
    requires 0.0 <= u && 0.0 <= g <= 1.0 && t == u * (1.0 - g)
    ensures Ulps(Val(IncreasePrecision(Stake(P, R, A, r, a, m), m)), t)
            <= 2000000.0 + if m == 6 then u else 8.0 * u + 2.0 * P as real
  {
    hide Chop, Stake, IsShare, IsSlip, Ulps, Val, Mul;
    if m == 6 {
      SixStake(P, R, A, r, a, u, g);
    } else {
      LargeMint(P, R, A, r, a, m, u, g, t);
    }
  }

  lemma NormalizedDeposit(P: nat, R: nat, A: nat, r: nat, a: nat, n: Normalization, u: real, g: real)
    returns (R': nat, A': nat, r': nat, a': nat, m: nat)
    requires n.Valid() && R > 0 && A > 0 && (r > 0 || a > 0)
    requires u == ExactShare(P, R, A, r, a) && g == ExactSlip(R, A, r, a)
    ensures R' == ScaledNative(n, R) > 0 && A' == ScaledExternal(n, A) > 0
    ensures r' == ScaledNative(n, r) && a' == ScaledExternal(n, a) && (r' > 0 || a' > 0)
    ensures r * A == R * a ==> R' * a' == r' * A'
    ensures m == DepositExponent(P, R, A, r, a, n)
    ensures Scales(m, R') && Scales(m, A') && (m > 6 ==> P >= Pow10(m) && r' >= Pow10(m) && a' >= Pow10(m))
    ensures IsShare(u, P as real, R' as real, A' as real, r' as real, a' as real) && 0.0 <= u
    ensures IsSlip(g, R' as real, A' as real, r' as real, a' as real) && 0.0 <= g <= 1.0
  {
    hide Chop, ExactShare, ExactSlip, IsShare, IsSlip, ScaleExponent, Mul, Quo, Pow10, DepositExponent, Scales;
    R', A', r', a', m := NormalizedAmounts(P, R, A, r, a, n);
    ExactShareDef(P, R, A, r, a, u);
    ExactSlipDef(R, A, r, a, g);
    WholeRatioInvariant(P, R, A, r, a, u, g, RoundInt(n.factor));
  }

  lemma WholeRatioInvariant(P: nat, R: nat, A: nat, r: nat, a: nat, u: real, g: real, k: nat)
    requires IsShare(u, P as real, R as real, A as real, r as real, a as real)
    requires IsSlip(g, R as real, A as real, r as real, a as real)
    ensures IsShare(u, P as real, (R * k) as real, A as real, (r * k) as real, a as real)
    ensures IsShare(u, P as real, R as real, (A * k) as real, r as real, (a * k) as real)
    ensures IsSlip(g, (R * k) as real, A as real, (r * k) as real, a as real)
    ensures IsSlip(g, R as real, (A * k) as real, r as real, (a * k) as real)
  {
    hide IsShare, IsSlip;
    RatioInvariant(P as real, R as real, A as real, r as real, a as real, u, g, k as real,
                   (R * k) as real, (A * k) as real, (r * k) as real, (a * k) as real);
  }

  lemma NormalizedAmounts(P: nat, R: nat, A: nat, r: nat, a: nat, n: Normalization)
    returns (R': nat, A': nat, r': nat, a': nat, m: nat)
    requires n.Valid() && R > 0 && A > 0 && (r > 0 || a > 0)
    ensures R' == ScaledNative(n, R) > 0 && A' == ScaledExternal(n, A) > 0
    ensures r' == ScaledNative(n, r) && a' == ScaledExternal(n, a) && (r' > 0 || a' > 0)
    ensures r * A == R * a ==> R' * a' == r' * A'
    ensures m == DepositExponent(P, R, A, r, a, n)
    ensures Scales(m, R') && Scales(m, A') && (m > 6 ==> P >= Pow10(m) && r' >= Pow10(m) && a' >= Pow10(m))
  {
    hide Chop, ScaleExponent;
    FactorWhole(n);
    var nf := RoundInt(n.factor);
    R', A', r', a' := ScaledNative(n, R), ScaledExternal(n, A), ScaledNative(n, r), ScaledExternal(n, a);
    MulLe(1, nf, R);
    MulLe(1, nf, A);
    MulLe(1, nf, r);
    MulLe(1, nf, a);
    m := DepositExponent(P, R, A, r, a, n);
    ExponentFits(P, R', A', r', a');
    CrossProducts(R, A, r, a, nf);
  }

  lemma CrossProducts(R: nat, A: nat, r: nat, a: nat, k: nat)
    ensures r * A == R * a ==> R * k * a == r * k * A && R * (a * k) == r * (A * k)
  {
    assert R * k * a == R * a * k && r * k * A == r * A * k;
  }

  /** At exponent 6 a proportional deposit mints the depositor's exact share within 1/2 + 10^-12. */
  lemma ProportionalMint(P: nat, R: nat, A: nat, r: nat, a: nat, n: Normalization)
    requires n.Valid() && R > 0 && A > 0 && a > 0 && r * A == R * a
    requires DepositExponent(P, R, A, r, a, n) == 6
    ensures var out := CalculatePoolUnits(P, R, A, r, a, n);
            out.Units? && Ulps(out.minted as real, P as real * a as real / A as real) <= 500000000001000000.0
  {
    hide Chop, Stake, ExactShare, ExactSlip, ScaleExponent, IsShare, IsSlip;
    var u, g := ExactShare(P, R, A, r, a), ExactSlip(R, A, r, a);
    var R', A', r', a', m := NormalizedDeposit(P, R, A, r, a, n, u, g);
    ProportionalShare(P, R, A, r, a, u);
    SixStake(P, R', A', r', a', u, g);
    var stake := Stake(P, R', A', r', a', 6);
    RoundIntError(IncreasePrecision(stake, 6));
    Triangle(RoundInt(IncreasePrecision(stake, 6)) as real, Val(IncreasePrecision(stake, 6)), u);
  }

  lemma ProportionalShare(P: nat, R: nat, A: nat, r: nat, a: nat, u: real)
    requires R > 0 && A > 0 && r * A == R * a && u == ExactShare(P, R, A, r, a)
    ensures u == P as real * a as real / A as real
  {
    hide ExactShare;
    ExactShareDef(P, R, A, r, a, u);
    var x, y, z := P as real, A as real, R as real;
    assert A as real * r as real == a as real * R as real by { assert (r * A) as real == (R * a) as real; }
    var d := u * y - x * a as real;
    assert d * z == 0.0;
    assert d == 0.0;
  }
}
