/**
 The rounded kernel shared by the swap output and the liquidity fee,
 a * b * y / (x + X)^2, and its distance from the exact rational value.
 */
module Curve {
  import opened FixedPoint
  import opened Precision
  import opened RelativeError

  function CurveRatio(a: Dec, b: Dec, y: Dec, s: Dec): Dec
    requires Mul(s, s) > 0
  {
    Quo(Mul(Mul(a, b), y), Mul(s, s))
  }

  /** a * b * y / s^2 */
  ghost function Exact(a: real, b: real, y: real, s: real): real
    requires s > 0.0
  {
    a * b * y / (s * s)
  }

  function Reduced(v: nat, m: nat): Dec { ReducePrecision(NewDec(v), m) }

  /** The kernel on whole amounts, scaled down by 10^m and up again; `s` is `v + w`. */
  function ScaledCurve(a: nat, b: nat, y: nat, v: nat, w: nat, m: nat): Dec
    requires Scales(m, v) && Scales(m, w)
  {
    var s := Reduced(v, m) + Reduced(w, m);
    assert Mul(s, s) > 0 by { SquarePositive(v, w, m); }
    IncreasePrecision(CurveRatio(Reduced(a, m), Reduced(b, m), Reduced(y, m), s), m)
  }

  /** `m` is a scaling exponent that `GetMinLen` can return for a list containing `v`. */
  predicate Scales(m: nat, v: nat) {
    v > 0 && m >= 6 && (m == 6 || v >= Pow10(m))
  }

  // ---------- exponent 6: every multiplication is exact ----------

  const MEGA: int := 1_000_000
  const TERA: int := 1_000_000_000_000

  lemma ReducedSix(v: nat)
    ensures Reduced(v, 6) == v * TERA
  {
    ReduceExact(v, 6);
    assert Pow10(12) == TERA by {
      assert Pow10(6) == MEGA;
      Pow10Add(6, 6);
    }
  }

  lemma MulTera(a: nat, b: nat)
    ensures Mul(a * TERA, b * TERA) == a * b * MEGA
  {
    MulExact(a * TERA, b * TERA, a * b * MEGA);
  }

  lemma MulMegaTera(a: nat, b: nat)
    ensures Mul(a * MEGA, b * TERA) == a * b
  {
    MulExact(a * MEGA, b * TERA, a * b);
  }

  // ---------- larger exponents: all values are at least one ----------

  lemma ReducedLarge(v: nat, m: nat)
    requires v >= Pow10(m)
    ensures Reduced(v, m) >= ONE
  {
    MulLe(Pow10(m), v, ONE * ONE);
    Regroup(ONE, Pow10(m), ONE, 1);
    QuoGe(NewDec(v), Pow10(m) * ONE, ONE);
  }

  lemma SquarePositive(v: nat, w: nat, m: nat)
    requires Scales(m, v) && Scales(m, w)
    ensures var s := Reduced(v, m) + Reduced(w, m); Mul(s, s) > 0
  {
    var s := Reduced(v, m) + Reduced(w, m);
    if m == 6 {
      ReducedSix(v);
      ReducedSix(w);
      MulMono(TERA, TERA, s, s);
      MulTera(1, 1);
    } else {
      ReducedLarge(v, m);
      ReducedLarge(w, m);
      MulMono(ONE, ONE, s, s);
      MulExact(ONE, ONE, ONE);
    }
  }

  /** `r` is 10^-m. */
  lemma ReducedError(v: nat, m: nat, r: real)
    requires r * Pow10(m) as real == 1.0
    ensures Ulps(Val(Reduced(v, m)), v as real * r) <= 0.51
  {
    assert v as real * r * Pow10(m) as real == v as real * (r * Pow10(m) as real);
    QuoError(NewDec(v), Pow10(m) * ONE, v as real * r);
  }

  /** A product rounded to half a unit, when the exact product is large enough. */
  lemma NearProduct(a: Dec, e: real, j: real, b: Dec, f: real, k: real, ef: real, r: real, z: real)
    requires Near(Val(a), e, j) && Near(Val(b), f, k)
    requires ef == e * f && 0.5 <= r * ef
    requires 0.0 <= r && z == j + k + 0.01 + r <= 100000000.0
    ensures Near(Val(Mul(a, b)), ef, z)
  {
    var p := Val(a) * Val(b);
    NearMul(Val(a), e, j, Val(b), f, k, p, ef);
    MulError(a, b);
    NearRound(p, Val(Mul(a, b)), ef, j + k + 0.01, 0.5, r);
  }

  /** Distance of the kernel from the exact value `e0` when every scaled value is at least one. */
  lemma CurveError(a: Dec, a0: real, b: Dec, b0: real, y: Dec, y0: real, s: Dec, s0: real,
                   p0: real, n0: real, d0: real, e0: real)
    requires a0 >= 1.0 && Ulps(Val(a), a0) <= 0.51
    requires b0 >= 1.0 && Ulps(Val(b), b0) <= 0.51
    requires y0 >= 1.0 && Ulps(Val(y), y0) <= 0.51
    requires s0 >= 2.0 && Ulps(Val(s), s0) <= 1.02
    requires p0 == a0 * b0 && n0 == p0 * y0 && d0 == s0 * s0 && e0 * d0 == n0
    requires Mul(s, s) > 0
    ensures Ulps(Val(CurveRatio(a, b, y, s)), e0) <= 3.72 * e0 + 0.51
  {
    hide Near, Ulps, Val, Mul, Quo;
    UnitNear(a, a0);
    UnitNear(b, b0);
    UnitNear(y, y0);
    SumNear(s, s0);
    Scale(1.0, a0, b0, b0, p0);
    NearProduct(a, a0, 0.51, b, b0, 0.51, p0, 0.5, 1.53);
    Scale(1.0, p0, y0, y0, n0);
    NearProduct(Mul(a, b), p0, 1.53, y, y0, 0.51, n0, 0.5, 2.55);
    Scale(2.0, s0, s0, 2.0 * s0, d0);
    NearProduct(s, s0, 0.51, s, s0, 0.51, d0, 0.13, 1.16);
    QuoNear(Mul(Mul(a, b), y), n0, 2.55, Mul(s, s), d0, 1.16, e0);
  }

  lemma UnitNear(v: Dec, v0: real)
    requires v0 >= 1.0 && Ulps(Val(v), v0) <= 0.51
    ensures Near(Val(v), v0, 0.51)
  {
  }

  lemma SumNear(v: Dec, v0: real)
    requires v0 >= 2.0 && Ulps(Val(v), v0) <= 1.02
    ensures Near(Val(v), v0, 0.51)
  {
  }

  lemma QuoNear(n: Dec, n0: real, j: real, d: Dec, d0: real, k: real, e0: real)
    requires d > 0 && Near(Val(n), n0, j) && Near(Val(d), d0, k) && j + k + 0.01 <= 100000000.0
    requires e0 * d0 == n0
    ensures Ulps(Val(Quo(n, d)), e0) <= (j + k + 0.01) * e0 + 0.51
  {
    hide Quo, Chop;
    NearClose(Val(d), d0, k);
    DivDef(Val(n), Val(d));
    var q := Val(n) / Val(d);
    QuoError(n, d, q);
    NearDiv(Val(n), n0, j, Val(d), d0, k, q, e0);
  }

  // ---------- back in whole amounts ----------

  lemma Rescale(a: real, a0: real, b: real, b0: real, y: real, y0: real, v: real, v0: real, w: real, w0: real,
                e: real, r: real, p: real) returns (e0: real, s0: real, p0: real, n0: real, d0: real)
    requires e * ((v + w) * (v + w)) == a * b * y && r * p == 1.0
    requires a0 == a * r && b0 == b * r && y0 == y * r && v0 == v * r && w0 == w * r
    ensures s0 == v0 + w0 && p0 == a0 * b0 && n0 == p0 * y0 && d0 == s0 * s0
    ensures e0 * d0 == n0 && e == e0 * p
  {
    e0 := e * r;
    assert e0 * p == e * (r * p);
    var s := v + w;
    s0, p0 := v0 + w0, a0 * b0;
    n0, d0 := p0 * y0, s0 * s0;
    assert s0 == s * r;
    calc {
      e0 * d0;
      (e * (s * s)) * (r * r * r);
      (a * b * y) * (r * r * r);
      n0;
    }
  }

  /**
   The kernel on whole amounts, scaled down by 10^m and up again, against the exact value `e`:
   one rounding at exponent 6, a relative error beyond it.
   */
  lemma ScaledCurveError(a: nat, b: nat, y: nat, v: nat, w: nat, m: nat, e: real)
    requires Scales(m, a) && Scales(m, b) && Scales(m, y) && Scales(m, v) && Scales(m, w)
    requires e * ((v + w) as real * (v + w) as real) == a as real * b as real * y as real
    ensures m == 6 ==> Ulps(Val(ScaledCurve(a, b, y, v, w, m)), e) <= 510000.0
    ensures m > 6 ==> Ulps(Val(ScaledCurve(a, b, y, v, w, m)), e) <= 3.72 * e + 0.51 * y as real
  {
    if m == 6 {
      CurveErrorSix(a, b, y, v, w, e);
    } else {
      CurveErrorLarge(a, b, y, v, w, m, e);
    }
  }

  lemma ScaleUp(q: Dec, m: nat, e0: real, e: real, p: real, bound: real)
    requires p == Pow10(m) as real && e == e0 * p && Ulps(Val(q), e0) <= bound
    ensures Ulps(Val(IncreasePrecision(q, m)), e) <= bound * p
  {
    hide Mul, Pow10;
    IncreaseExact(q, m);
    assert Val(q * Pow10(m)) == Val(q) * p;
    ScaleDistance(Val(q), e0, p, Val(q) * p, e, bound, bound * p);
  }

  lemma ScaleDistance(v: real, e0: real, p: real, vp: real, e: real, bound: real, bp: real)
    requires 0.0 <= p && vp == v * p && e == e0 * p && bp == bound * p && Ulps(v, e0) <= bound
    ensures Ulps(vp, e) <= bp
  {
    AbsMul(v - e0, p);
    assert vp - e == (v - e0) * p;
    Scale(Ulps(v, e0), bound, p, Ulps(vp, e), bp);
  }

  lemma CurveErrorSix(a: nat, b: nat, y: nat, v: nat, w: nat, e: real)
    requires Scales(6, a) && Scales(6, b) && Scales(6, y) && Scales(6, v) && Scales(6, w)
    requires e * ((v + w) as real * (v + w) as real) == a as real * b as real * y as real
    ensures Ulps(Val(ScaledCurve(a, b, y, v, w, 6)), e) <= 510000.0
  {
    var n, d := a * b * y, (v + w) * (v + w) * MEGA;
    assert e / 1000000.0 * Val(d) == Val(n) by { SixRatio(a, b, y, v + w, n, d, e); }
    SixKernel(a, b, y, v, w, n, d);
    SixError(n, d, e);
  }

  lemma SixError(n: Dec, d: Dec, e: real)
    requires d > 0 && e / 1000000.0 * Val(d) == Val(n)
    ensures Ulps(Val(IncreasePrecision(Quo(n, d), 6)), e) <= 510000.0
  {
    QuoError(n, d, e / 1000000.0);
    assert Pow10(6) == MEGA;
    ScaleUp(Quo(n, d), 6, e / 1000000.0, e, 1000000.0, 0.51);
  }

  lemma SixKernel(a: nat, b: nat, y: nat, v: nat, w: nat, n: nat, d: nat)
    requires v > 0 && w > 0 && n == a * b * y && d == (v + w) * (v + w) * MEGA
    ensures d > 0
    ensures ScaledCurve(a, b, y, v, w, 6) == IncreasePrecision(Quo(n, d), 6)
  {
    SquarePositive(v, w, 6);
    ReducedSix(a);
    ReducedSix(b);
    ReducedSix(y);
    ReducedSix(v);
    ReducedSix(w);
    MulTera(a, b);
    MulMegaTera(a * b, y);
    MulTera(v + w, v + w);
  }

  lemma SixRatio(a: nat, b: nat, y: nat, s: nat, n: nat, d: nat, e: real)
    requires s > 0 && n == a * b * y && d == s * s * MEGA
    requires e * (s as real * s as real) == a as real * b as real * y as real
    ensures e / 1000000.0 * Val(d) == Val(n)
  {
    assert n as real == a as real * b as real * y as real;
    assert d as real == (s as real * s as real) * 1000000.0;
  }

  lemma CurveErrorLarge(a: nat, b: nat, y: nat, v: nat, w: nat, m: nat, e: real)
    requires m > 6
    requires Scales(m, a) && Scales(m, b) && Scales(m, y) && Scales(m, v) && Scales(m, w)
    requires e * ((v + w) as real * (v + w) as real) == a as real * b as real * y as real
    ensures Ulps(Val(ScaledCurve(a, b, y, v, w, m)), e) <= 3.72 * e + 0.51 * y as real
  {
    hide Quo, Chop, Mul, Ulps, Val, Reduced, CurveRatio, IncreasePrecision;
    SquarePositive(v, w, m);
    var p := Pow10(m) as real;
    var r := Inverse(p);
    var a0 := LargeInput(a, m, r);
    var b0 := LargeInput(b, m, r);
    var y0 := LargeInput(y, m, r);
    var v0 := LargeInput(v, m, r);
    var w0 := LargeInput(w, m, r);
    LargeKernel(a as real, a0, Reduced(a, m), b as real, b0, Reduced(b, m), y as real, y0, Reduced(y, m),
                v as real, v0, Reduced(v, m), w as real, w0, Reduced(w, m), m, p, r, e);
  }

  lemma LargeKernel(a: real, a0: real, da: Dec, b: real, b0: real, db: Dec, y: real, y0: real, dy: Dec,
                    v: real, v0: real, dv: Dec, w: real, w0: real, dw: Dec, m: nat, p: real, r: real, e: real)
    requires p == Pow10(m) as real && r * p == 1.0 && p <= y
    requires a0 == a * r && a0 >= 1.0 && Ulps(Val(da), a0) <= 0.51
    requires b0 == b * r && b0 >= 1.0 && Ulps(Val(db), b0) <= 0.51
    requires y0 == y * r && y0 >= 1.0 && Ulps(Val(dy), y0) <= 0.51
    requires v0 == v * r && v0 >= 1.0 && Ulps(Val(dv), v0) <= 0.51
    requires w0 == w * r && w0 >= 1.0 && Ulps(Val(dw), w0) <= 0.51
    requires e * ((v + w) * (v + w)) == a * b * y
    requires Mul(dv + dw, dv + dw) > 0
    ensures Ulps(Val(IncreasePrecision(CurveRatio(da, db, dy, dv + dw), m)), e) <= 3.72 * e + 0.51 * y
  {
    var e0, s0, p0, n0, d0 := Rescale(a, a0, b, b0, y, y0, v, v0, w, w0, e, r, p);
    SumError(dv, v0, dw, w0);
    LargeCurve(da, a0, db, b0, dy, y0, dv + dw, s0, p0, n0, d0, m, p, e0, e, y);
  }

  lemma SumError(v: Dec, v0: real, w: Dec, w0: real)
    requires Ulps(Val(v), v0) <= 0.51 && Ulps(Val(w), w0) <= 0.51
    ensures Ulps(Val(v + w), v0 + w0) <= 1.02
  {
  }

  lemma Inverse(p: real) returns (r: real)
    requires p > 0.0
    ensures r * p == 1.0
  {
    r := 1.0 / p;
  }

  lemma LargeInput(v: nat, m: nat, r: real) returns (v0: real)
    requires v >= Pow10(m) && r * Pow10(m) as real == 1.0
    ensures v0 == v as real * r && v0 >= 1.0
    ensures Ulps(Val(Reduced(v, m)), v0) <= 0.51
  {
    v0 := v as real * r;
    ReducedError(v, m, r);
    AtLeastOne(v as real, Pow10(m) as real, r, v0);
  }

  lemma LargeCurve(a: Dec, a0: real, b: Dec, b0: real, y: Dec, y0: real, s: Dec, s0: real,
                   p0: real, n0: real, d0: real, m: nat, p: real, e0: real, e: real, whole: real)
    requires a0 >= 1.0 && Ulps(Val(a), a0) <= 0.51
    requires b0 >= 1.0 && Ulps(Val(b), b0) <= 0.51
    requires y0 >= 1.0 && Ulps(Val(y), y0) <= 0.51
    requires s0 >= 2.0 && Ulps(Val(s), s0) <= 1.02
    requires p0 == a0 * b0 && n0 == p0 * y0 && d0 == s0 * s0 && e0 * d0 == n0
    requires p == Pow10(m) as real && e == e0 * p && p <= whole
    requires Mul(s, s) > 0
    ensures Ulps(Val(IncreasePrecision(CurveRatio(a, b, y, s), m)), e) <= 3.72 * e + 0.51 * whole
  {
    CurveError(a, a0, b, b0, y, y0, s, s0, p0, n0, d0, e0);
    LargeScaleUp(CurveRatio(a, b, y, s), m, p, e0, e, whole);
  }

  lemma AtLeastOne(v: real, p: real, r: real, v0: real)
    requires v >= p > 0.0 && r * p == 1.0 && v0 == v * r
    ensures v0 >= 1.0
  {
    if r <= 0.0 { Scale(r, 0.0, p, 1.0, 0.0); }
    Scale(p, v, r, 1.0, v0);
  }

  lemma LargeScaleUp(q: Dec, m: nat, p: real, e0: real, e: real, whole: real)
    requires Ulps(Val(q), e0) <= 3.72 * e0 + 0.51
    requires p == Pow10(m) as real && e == e0 * p && p <= whole
    ensures Ulps(Val(IncreasePrecision(q, m)), e) <= 3.72 * e + 0.51 * whole
  {
    hide *;
    ScaleUp(q, m, e0, e, p, 3.72 * e0 + 0.51);
    Distribute(e0, p, e);
  }

  lemma Distribute(e0: real, p: real, e: real)
    requires e == e0 * p
    ensures (3.72 * e0 + 0.51) * p == 3.72 * e + 0.51 * p
  {
  }

  lemma ExactDef(a: real, b: real, y: real, s: real)
    requires s > 0.0
    ensures Exact(a, b, y, s) * (s * s) == a * b * y
  {
    SquareDiv(a * b * y, s);
  }

  lemma SquareDiv(n: real, s: real)
    requires s > 0.0
    ensures n / (s * s) * (s * s) == n
  {
  }
}
