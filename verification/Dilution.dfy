/**
 Whether a deposit dilutes the providers already there: native * external / units^2, the product of
 the two amounts that one unit stands for, before and after.
 */
module Dilution {
  import opened FixedPoint
  import opened Precision
  import opened RelativeError
  import opened Curve
  import opened Swap
  import opened PoolUnits
  import opened Minting

  /** The product per squared unit falls when the deposit (r, a) mints s units on top of P. */
  ghost predicate Dilutes(P: real, R: real, A: real, r: real, a: real, s: real) {
    (R + r) * (A + a) * (P * P) < R * A * ((P + s) * (P + s))
  }

  /** It rises. */
  ghost predicate Enriches(P: real, R: real, A: real, r: real, a: real, s: real) {
    (R + r) * (A + a) * (P * P) > R * A * ((P + s) * (P + s))
  }

  // ---------- the exact formula ----------

  /** `s` is the share less the slip. */
  ghost predicate IsMint(s: real, P: real, R: real, A: real, r: real, a: real, u: real, g: real) {
    IsShare(u, P, R, A, r, a) && IsSlip(g, R, A, r, a) && s == u * (1.0 - g)
  }

  /** The growth t of the units, from the growths x and y of the two balances. */
  lemma UnitGrowth(P: real, R: real, A: real, r: real, a: real, s: real, u: real, g: real, x: real, y: real)
    returns (t: real)
    requires P > 0.0 && R > 0.0 && A > 0.0 && x >= 1.0 && y >= 1.0
    requires R + r == x * R && A + a == y * A && IsMint(s, P, R, A, r, a, u, g)
    ensures P + s == P * t && t >= 1.0
    ensures 2.0 * (x * y) * (t - 1.0) == (x + y - 2.0) * (x * y - Abs(y - x))
  {
    ShareGrowth(P, R, A, r, a, u, x, y, A * R);
    SlipGrowth(R, A, r, a, g, x, y, A * R, x * y);
    t := 1.0 + (x + y - 2.0) / 2.0 * (1.0 - g);
    GrowthSum(P, s, u, g, x, y, x * y, Abs(y - x), t);
  }

  lemma ShareGrowth(P: real, R: real, A: real, r: real, a: real, u: real, x: real, y: real, AR: real)
    requires R > 0.0 && A > 0.0 && AR == A * R && r == (x - 1.0) * R && a == (y - 1.0) * A
    requires IsShare(u, P, R, A, r, a)
    ensures 2.0 * u == P * (x + y - 2.0)
  {
    Scale(0.0, A, R, 0.0, AR);
    if AR == 0.0 { Cancel(A, 0.0, R, AR, 0.0); }
    assert a * R + A * r == (x + y - 2.0) * AR;
    var d := 2.0 * u - P * (x + y - 2.0);
    assert d * AR == 0.0;
    assert d == 0.0;
  }

  lemma SlipGrowth(R: real, A: real, r: real, a: real, g: real, x: real, y: real, AR: real, xy: real)
    requires R > 0.0 && A > 0.0 && AR == A * R && xy == x * y && r == (x - 1.0) * R && a == (y - 1.0) * A
    requires IsSlip(g, R, A, r, a)
    ensures g * xy == Abs(y - x)
  {
    Scale(0.0, A, R, 0.0, AR);
    if AR == 0.0 { Cancel(A, 0.0, R, AR, 0.0); }
    assert (r + R) * (a + A) == xy * AR;
    assert R * a - r * A == (y - x) * AR;
    AbsMul(y - x, AR);
    var d := g * xy - Abs(y - x);
    assert d * AR == 0.0;
    assert d == 0.0;
  }

  lemma GrowthSum(P: real, s: real, u: real, g: real, x: real, y: real, xy: real, d: real, t: real)
    requires x >= 1.0 && y >= 1.0 && xy == x * y && d == Abs(y - x) && g * xy == d && 2.0 * u == P * (x + y - 2.0)
    requires s == u * (1.0 - g) && t == 1.0 + (x + y - 2.0) / 2.0 * (1.0 - g)
    ensures P + s == P * t && t >= 1.0 && 2.0 * xy * (t - 1.0) == (x + y - 2.0) * (xy - d)
  {
    var k := x + y - 2.0;
    assert 2.0 * s == P * k * (1.0 - g);
    assert 2.0 * (t - 1.0) == k * (1.0 - g);
    assert 2.0 * xy * (t - 1.0) == k * (xy - g * xy);
    // the slip is at most one, because |y - x| <= x y
    Scale(1.0, x, y, y, xy);
    Scale(1.0, y, x, x, xy);
    Cancel(g, 1.0, xy, d, xy);
    Scale(0.0, 1.0 - g, k, 0.0, k * (1.0 - g));
  }

  /** A deposit dilutes exactly when the units grow by more than the geometric mean of the balances' growths. */
  lemma DilutionByGrowth(P: real, R: real, A: real, r: real, a: real, s: real, x: real, y: real, t: real)
    requires P > 0.0 && R > 0.0 && A > 0.0 && R + r == x * R && A + a == y * A && P + s == P * t
    ensures Dilutes(P, R, A, r, a, s) <==> x * y < t * t
  {
    var c := (R * A) * (P * P);
    SquareProduct(R, A, P, c);
    assert (R + r) * (A + a) * (P * P) == (x * y) * c;
    assert R * A * ((P + s) * (P + s)) == (t * t) * c;
    if x * y < t * t {
      Scale(x * y, t * t, c, (x * y) * c, (t * t) * c);
      if (x * y) * c == (t * t) * c { Cancel(t * t, x * y, c, (t * t) * c, (x * y) * c); }
    } else {
      Scale(t * t, x * y, c, (t * t) * c, (x * y) * c);
    }
  }

  lemma SquareProduct(R: real, A: real, P: real, c: real)
    requires P > 0.0 && R > 0.0 && A > 0.0 && c == (R * A) * (P * P)
    ensures c > 0.0
  {
    Positive(R, A, R * A);
    Positive(P, P, P * P);
    Positive(R * A, P * P, c);
  }

  lemma Positive(a: real, b: real, ab: real)
    requires a > 0.0 && b > 0.0 && ab == a * b
    ensures ab > 0.0
  {
    Scale(0.0, a, b, 0.0, ab);
    if ab == 0.0 { Cancel(a, 0.0, b, ab, 0.0); }
  }

  /** 4 (x y)^3 and x y (x + y) - (x + y - 2) |y - x|, for the growths x and y of the two balances. */
  ghost function GrowthCube(x: real, y: real): real { 4.0 * (x * y * (x * y) * (x * y)) }

  ghost function GrowthGap(x: real, y: real): real { x * y * (x + y) - (x + y - 2.0) * Abs(y - x) }

  /**
   The exact condition on the growths of the two balances, for every deposit: it dilutes if and only if
   4 (x y)^3 < (x y (x + y) - (x + y - 2) |y - x|)^2.
   */
  lemma DilutesExactly(P: real, R: real, A: real, r: real, a: real, s: real, u: real, g: real, x: real, y: real)
    requires P > 0.0 && R > 0.0 && A > 0.0 && x >= 1.0 && y >= 1.0
    requires R + r == x * R && A + a == y * A && IsMint(s, P, R, A, r, a, u, g)
    ensures Dilutes(P, R, A, r, a, s) <==> GrowthCube(x, y) < GrowthGap(x, y) * GrowthGap(x, y)
  {
    hide Dilutes, IsMint, Abs, GrowthCube;
    var t := UnitGrowth(P, R, A, r, a, s, u, g, x, y);
    DilutionByGrowth(P, R, A, r, a, s, x, y, t);
    Positive(x, y, x * y);
    TwiceTheGrowth(x * y, x + y, Abs(y - x), t);
    ByGrowthSquared(x, y, x * y, t, GrowthGap(x, y));
  }

  lemma TwiceTheGrowth(z: real, sum: real, d: real, t: real)
    requires 2.0 * z * (t - 1.0) == (sum - 2.0) * (z - d)
    ensures z * sum - (sum - 2.0) * d == 2.0 * (z * t)
  {
  }

  lemma ByGrowthSquared(x: real, y: real, z: real, t: real, w: real)
    requires z == x * y && z > 0.0 && w == 2.0 * (z * t)
    ensures z < t * t <==> GrowthCube(x, y) < w * w
  {
    var zz, tt := z * z, t * t;
    Positive(z, z, zz);
    assert w * w == 4.0 * (tt * zz);
    assert GrowthCube(x, y) == 4.0 * (z * zz);
    CompareScaled(z, tt, zz, z * zz, tt * zz);
  }

  lemma CompareScaled(v: real, w: real, c: real, vc: real, wc: real)
    requires c > 0.0 && vc == v * c && wc == w * c
    ensures v < w <==> vc < wc
  {
    if v < w { Positive(w - v, c, (w - v) * c); }
    if v > w { Positive(v - w, c, (v - w) * c); }
  }

  function Distance(a: nat, b: nat): nat { if a > b then a - b else b - a }

  /** 4 R A (X Y)^3 and X Y (X A + Y R) - (X A + Y R - 2 R A) |Y R - X A|, for balances that go from R to X and A to Y. */
  function AmountCube(R: nat, A: nat, X: nat, Y: nat): nat { 4 * (R * A) * (X * Y * (X * Y) * (X * Y)) }

  function AmountGap(R: nat, A: nat, X: nat, Y: nat): int {
    X * Y * (X * A + Y * R) - (X * A + Y * R - 2 * (R * A)) * Distance(Y * R, X * A)
  }

  /** The units the formula mints, before any rounding. */
  ghost function ExactMint(P: nat, R: nat, A: nat, r: nat, a: nat): real
    requires R > 0 && A > 0
  {
    ExactShare(P, R, A, r, a) * (1.0 - ExactSlip(R, A, r, a))
  }

  /**
   The same on whole amounts, as a caller has them: with X = R + r and Y = A + a the exact formula dilutes if and
   only if 4 R A (X Y)^3 < (X Y (X A + Y R) - (X A + Y R - 2 R A) |Y R - X A|)^2.
   */
  lemma DilutesByAmounts(P: nat, R: nat, A: nat, r: nat, a: nat)
    requires P > 0 && R > 0 && A > 0
    ensures Dilutes(P as real, R as real, A as real, r as real, a as real, ExactMint(P, R, A, r, a)) <==>
              AmountCube(R, A, R + r, A + a) < AmountGap(R, A, R + r, A + a) * AmountGap(R, A, R + r, A + a)
  {
    hide Dilutes, ExactShare, ExactSlip, IsShare, IsSlip, Abs, GrowthCube, GrowthGap, AmountCube, AmountGap;
    ExactShareDef(P, R, A, r, a, ExactShare(P, R, A, r, a));
    ExactSlipDef(R, A, r, a, ExactSlip(R, A, r, a));
    var x := Grown(R as real, r as real);
    var y := Grown(A as real, a as real);
    DilutesExactly(P as real, R as real, A as real, r as real, a as real, ExactMint(P, R, A, r, a),
                   ExactShare(P, R, A, r, a), ExactSlip(R, A, r, a), x, y);
    AmountsForm(R, A, R + r, A + a, x, y);
  }

  lemma AmountsForm(R: nat, A: nat, X: nat, Y: nat, x: real, y: real)
    requires R > 0 && A > 0 && X as real == x * R as real && Y as real == y * A as real
    ensures GrowthCube(x, y) < GrowthGap(x, y) * GrowthGap(x, y) <==>
              AmountCube(R, A, X, Y) < AmountGap(R, A, X, Y) * AmountGap(R, A, X, Y)
  {
    hide GrowthCube, GrowthGap, AmountCube, AmountGap;
    var k := R as real * A as real;
    Positive(R as real, A as real, k);
    GapScales(R, A, X, Y, x, y, k);
    CubeScales(R, A, X, Y, x, y, k, k * k);
    SquareScales(GrowthCube(x, y), GrowthGap(x, y), k * k, AmountCube(R, A, X, Y), AmountGap(R, A, X, Y));
  }

  lemma SquareScales(cube: real, gap: real, kk: real, Cube: int, Gap: int)
    requires kk > 0.0 && Cube as real == cube * (kk * kk) && Gap as real == gap * kk
    ensures cube < gap * gap <==> Cube < Gap * Gap
  {
    Positive(kk, kk, kk * kk);
    assert (Gap * Gap) as real == gap * gap * (kk * kk);
    CompareScaled(cube, gap * gap, kk * kk, cube * (kk * kk), gap * gap * (kk * kk));
  }

  lemma GapScales(R: nat, A: nat, X: nat, Y: nat, x: real, y: real, k: real)
    requires k == R as real * A as real && X as real == x * R as real && Y as real == y * A as real && k > 0.0
    ensures k * k > 0.0 && AmountGap(R, A, X, Y) as real == GrowthGap(x, y) * (k * k)
  {
    hide Abs, Distance;
    Positive(k, k, k * k);
    AmountParts(R, A, X, Y, x, y, k);
    WholeW(R * A, X * Y, X * A + Y * R, Distance(Y * R, X * A), x * y, x + y, Abs(y - x),
           AmountGap(R, A, X, Y), GrowthGap(x, y));
  }

  lemma CubeScales(R: nat, A: nat, X: nat, Y: nat, x: real, y: real, k: real, kk: real)
    requires k == R as real * A as real && X as real == x * R as real && Y as real == y * A as real && k > 0.0 && kk == k * k
    ensures AmountCube(R, A, X, Y) as real == GrowthCube(x, y) * (kk * kk)
  {
    hide Distance, Abs;
    AmountParts(R, A, X, Y, x, y, k);
    CubeOf(R * A, X * Y, x * y, k, kk);
  }

  lemma CubeOf(c: nat, XY: nat, z: real, k: real, kk: real)
    requires c as real == k && XY as real == z * k && kk == k * k
    ensures (4 * c * (XY * XY * XY)) as real == 4.0 * (z * z * z) * (kk * kk)
  {
    var Z := XY as real;
    assert (XY * XY * XY) as real == Z * Z * Z;
    assert Z * Z * Z == z * z * z * (kk * k);
  }

  lemma WholeW(c: nat, XY: nat, S: nat, D: nat, z: real, sum: real, d: real, W: int, w: real)
    requires XY as real == z * c as real && S as real == sum * c as real && D as real == d * c as real
    requires W == XY * S - (S - 2 * c) * D && w == z * sum - (sum - 2.0) * d
    ensures W as real == w * (c as real * c as real)
  {
    PartProducts(XY as real, S as real, D as real, c as real, z, sum, d);
    assert (XY * S) as real == XY as real * S as real;
    assert ((S - 2 * c) * D) as real == (S as real - 2.0 * c as real) * D as real;
  }

  lemma AmountParts(R: nat, A: nat, X: nat, Y: nat, x: real, y: real, k: real)
    requires k == R as real * A as real && X as real == x * R as real && Y as real == y * A as real && k > 0.0
    ensures (X * Y) as real == x * y * k && (X * A + Y * R) as real == (x + y) * k
    ensures Distance(Y * R, X * A) as real == Abs(y - x) * k
  {
    assert (Y * R) as real == y * k && (X * A) as real == x * k;
    AbsMul(y - x, k);
    assert (y - x) * k == (Y * R) as real - (X * A) as real;
  }

  lemma PartProducts(XY: real, S: real, D: real, k: real, z: real, sum: real, d: real)
    requires XY == z * k && S == sum * k && D == d * k
    ensures XY * S - (S - 2.0 * k) * D == (z * sum - (sum - 2.0) * d) * (k * k)
  {
    assert XY * S == z * sum * (k * k);
    assert (S - 2.0 * k) * D == (sum - 2.0) * d * (k * k);
  }

  // ---------- special deposits ----------

  /** A deposit of one asset alone never dilutes. */
  lemma OneAssetNeverDilutes(P: real, R: real, A: real, r: real, a: real, s: real, u: real, g: real)
    requires P > 0.0 && R > 0.0 && A > 0.0 && r >= 0.0 && a >= 0.0 && (r == 0.0 || a == 0.0)
    requires IsMint(s, P, R, A, r, a, u, g)
    ensures !Dilutes(P, R, A, r, a, s)
  {
    hide Dilutes, IsMint, Abs;
    var x := Grown(R, r);
    var y := Grown(A, a);
    var t := UnitGrowth(P, R, A, r, a, s, u, g, x, y);
    DilutionByGrowth(P, R, A, r, a, s, x, y, t);
    OneSided(x, y, x * y, t);
  }

  lemma Grown(R: real, r: real) returns (x: real)
    requires R > 0.0 && r >= 0.0
    ensures R + r == x * R && x >= 1.0 && (r == 0.0 ==> x == 1.0)
  {
    x := (R + r) / R;
    DivDef(R + r, R);
    Cancel(1.0, x, R, R, R + r);
    if r == 0.0 { Cancel(x, 1.0, R, R, R); }
  }

  /** 4 z^3 - (3 z - 1)^2 == (z - 1)^2 (4 z - 1) for the growth z of the one balance. */
  lemma OneSided(x: real, y: real, z: real, t: real)
    requires x >= 1.0 && y >= 1.0 && z == x * y && (x == 1.0 || y == 1.0)
    requires 2.0 * z * (t - 1.0) == (x + y - 2.0) * (z - Abs(y - x))
    ensures z >= t * t
  {
    assert 2.0 * z * (t - 1.0) == z - 1.0;
    var zt := z * t;
    assert 2.0 * zt == 3.0 * z - 1.0;
    var zz, f := z * z, (z - 1.0) * (z - 1.0);
    Scale(0.0, 4.0 * z - 1.0, f, 0.0, (4.0 * z - 1.0) * f);
    assert 4.0 * (zt * zt) == (3.0 * z - 1.0) * (3.0 * z - 1.0);
    assert 4.0 * (z * zz) - 4.0 * (zt * zt) == (4.0 * z - 1.0) * f;
    Positive(z, z, zz);
    assert zt * zt == t * t * zz;
    Cancel(t * t, z, zz, t * t * zz, z * zz);
  }

  /**
   A native deposit equal to the pool's, with an external one at least as large in proportion,
   dilutes if and only if the external deposit exceeds seventeen times the pool's.
   */
  lemma EqualNativeDilutesIff(P: real, R: real, A: real, a: real, s: real, u: real, g: real)
    requires P > 0.0 && R > 0.0 && A > 0.0 && a >= A && IsMint(s, P, R, A, R, a, u, g)
    ensures Dilutes(P, R, A, R, a, s) <==> a > 17.0 * A
  {
    hide Dilutes, IsMint, Abs;
    var y := Grown(A, a);
    Cancel(2.0, y, A, 2.0 * A, A + a);
    var t := UnitGrowth(P, R, A, R, a, s, u, g, 2.0, y);
    DilutionByGrowth(P, R, A, R, a, s, 2.0, y, t);
    DoubledNative(2.0, y, t);
    Threshold(A, a, y);
  }

  lemma Threshold(A: real, a: real, y: real)
    requires A > 0.0 && A + a == y * A
    ensures a > 17.0 * A <==> y > 18.0
  {
    if y > 18.0 {
      Positive(y - 18.0, A, (y - 18.0) * A);
    } else {
      Scale(y, 18.0, A, y * A, 18.0 * A);
    }
  }

  /** t == (y + 6) / 4, and (y + 6)^2 - 32 y == (y - 2) (y - 18). */
  lemma DoubledNative(x: real, y: real, t: real)
    requires x == 2.0 && y >= 2.0 && 2.0 * (x * y) * (t - 1.0) == (x + y - 2.0) * (x * y - Abs(y - x))
    ensures 4.0 * t == y + 6.0
    ensures 2.0 * y < t * t <==> y > 18.0
  {
    var v := 4.0 * t - y - 6.0;
    assert v * y == 0.0;
    Cancel(v, 0.0, y, 0.0, 0.0);
    Cancel(0.0, v, y, 0.0, 0.0);
    var d := (y - 2.0) * (y - 18.0);
    assert 16.0 * (t * t) == 32.0 * y + d;
    if y > 18.0 {
      Positive(y - 2.0, y - 18.0, d);
    } else {
      Scale(y - 18.0, 0.0, y - 2.0, d, 0.0);
    }
  }

  // ---------- the rounded units ----------

  /** How far rounding can move the new total, in units of 10^-18: one and a half units, and a few parts in 10^18. */
  ghost function Slack(P: real, u: real): real { 1500000000002000000.0 + 3.0 * P + 8.0 * u }

  /** Rounding moves the new total by at most the slack. */
  lemma TotalAccuracy(P: nat, R: nat, A: nat, r: nat, a: nat, n: Normalization)
    requires n.Valid() && R > 0 && A > 0 && (r > 0 || a > 0)
    ensures var out := CalculatePoolUnits(P, R, A, r, a, n);
            && out.Units?
            && Ulps(out.total as real, P as real + ExactMint(P, R, A, r, a)) <= Slack(P as real, ExactShare(P, R, A, r, a))
  {
    hide Chop, ExactShare, ExactSlip, ExactMint, CalculatePoolUnits, DepositExponent, Ulps;
    var u, g := ExactShare(P, R, A, r, a), ExactSlip(R, A, r, a);
    ExactShareDef(P, R, A, r, a, u);
    MintAccuracy(P, R, A, r, a, n, u, g);
    MintIs(P, R, A, r, a, u, g);
    DepositDrift(P, R, A, r, a, n);
    var m, out := DepositExponent(P, R, A, r, a, n), CalculatePoolUnits(P, R, A, r, a, n);
    StepWithin(P, R, A, r, a, n, m);
    SumWithin(out.total as real, out.minted as real, P as real, ExactMint(P, R, A, r, a), DriftStep(m) as real,
              MintTolerance(m, P, u));
  }

  lemma MintIs(P: nat, R: nat, A: nat, r: nat, a: nat, u: real, g: real)
    requires R > 0 && A > 0 && u == ExactShare(P, R, A, r, a) && g == ExactSlip(R, A, r, a)
    ensures u * (1.0 - g) == ExactMint(P, R, A, r, a)
  {
    hide ExactShare, ExactSlip;
  }

  lemma SumWithin(total: real, minted: real, P: real, s: real, step: real, tolerance: real)
    requires -step <= total - P - minted <= step && Ulps(minted, s) <= tolerance
    ensures Ulps(total, P + s) <= tolerance + step * 1000000000000000000.0
  {
  }

  lemma StepWithin(P: nat, R: nat, A: nat, r: nat, a: nat, n: Normalization, m: nat)
    requires n.Valid() && R > 0 && A > 0 && m == DepositExponent(P, R, A, r, a, n)
    ensures DriftStep(m) * ONE <= P || DriftStep(m) == 1
  {
    hide ScaleExponent, Chop;
    FactorWhole(n);
    var nf := RoundInt(n.factor);
    MulLe(1, nf, R);
    MulLe(1, nf, A);
    ExponentFits(P, ScaledNative(n, R), ScaledExternal(n, A), ScaledNative(n, r), ScaledExternal(n, a));
    if m > 18 {
      Pow10Add(18, m - 18);
      Pow10Eighteen();
    }
  }

  /** The product per squared unit falls, or rises, with the units the code computes. */
  predicate RoundedDilutes(P: nat, R: nat, A: nat, r: nat, a: nat, n: Normalization)
    requires n.Valid()
  {
    var out := CalculatePoolUnits(P, R, A, r, a, n);
    out.Units? && (R + r) * (A + a) * (P * P) < R * A * (out.total * out.total)
  }

  predicate RoundedEnriches(P: nat, R: nat, A: nat, r: nat, a: nat, n: Normalization)
    requires n.Valid()
  {
    var out := CalculatePoolUnits(P, R, A, r, a, n);
    out.Units? && (R + r) * (A + a) * (P * P) > R * A * (out.total * out.total)
  }

  /**
   For every deposit into every pool: if the exact formula would dilute even with the slack fewer units, the
   rounded units dilute; if it would enrich even with the slack more, they enrich.
   */
  lemma RoundedDilution(P: nat, R: nat, A: nat, r: nat, a: nat, n: Normalization)
    requires n.Valid() && P > 0 && R > 0 && A > 0 && (r > 0 || a > 0)
    ensures var s, e := ExactMint(P, R, A, r, a), Slack(P as real, ExactShare(P, R, A, r, a)) / 1000000000000000000.0;
            && (P as real + s > e && Dilutes(P as real, R as real, A as real, r as real, a as real, s - e) ==>
                  RoundedDilutes(P, R, A, r, a, n))
            && (Enriches(P as real, R as real, A as real, r as real, a as real, s + e) ==>
                  RoundedEnriches(P, R, A, r, a, n))
  {
    hide Chop, ExactShare, ExactMint, CalculatePoolUnits, Ulps, Slack, Dilutes, Enriches;
    var u := ExactShare(P, R, A, r, a);
    TotalAccuracy(P, R, A, r, a, n);
    var s, e := ExactMint(P, R, A, r, a), Slack(P as real, u) / 1000000000000000000.0;
    var total := CalculatePoolUnits(P, R, A, r, a, n).total;
    TotalBetween(total as real, P as real + s, e, Slack(P as real, u));
    FromTotal(P, R, A, r, a, s, e, total);
  }

  lemma FromTotal(P: nat, R: nat, A: nat, r: nat, a: nat, s: real, e: real, T: nat)
    requires P > 0 && R > 0 && A > 0 && P as real + s - e <= T as real <= P as real + s + e
    ensures P as real + s > e && Dilutes(P as real, R as real, A as real, r as real, a as real, s - e) ==>
              (R + r) * (A + a) * (P * P) < R * A * (T * T)
    ensures Enriches(P as real, R as real, A as real, r as real, a as real, s + e) ==>
              (R + r) * (A + a) * (P * P) > R * A * (T * T)
  {
    hide Dilutes, Enriches;
    WholeDilution(P, R, A, r, a, T);
    if P as real + s > e { SquareMono(P as real + (s - e), T as real); }
    SquareMono(T as real, P as real + (s + e));
    DilutesOnTotal(P as real, R as real, A as real, r as real, a as real, s - e, s + e, T as real,
                   (R as real + r as real) * (A as real + a as real) * (P as real * P as real),
                   R as real * A as real * (T as real * T as real));
  }

  lemma TotalBetween(total: real, exact: real, e: real, slack: real)
    requires Ulps(total, exact) <= slack && e == slack / 1000000000000000000.0
    ensures exact - e <= total <= exact + e
  {
  }

  /** The integer comparison is the real one. */
  lemma WholeDilution(P: nat, R: nat, A: nat, r: nat, a: nat, T: nat)
    ensures ((R + r) * (A + a) * (P * P)) as real ==
            (R as real + r as real) * (A as real + a as real) * (P as real * P as real)
    ensures (R * A * (T * T)) as real == R as real * A as real * (T as real * T as real)
  {
  }

  lemma DilutesOnTotal(P: real, R: real, A: real, r: real, a: real, low: real, high: real, T: real, left: real, right: real)
    requires R > 0.0 && A > 0.0
    requires P + low > 0.0 ==> (P + low) * (P + low) <= T * T
    requires T * T <= (P + high) * (P + high)
    requires left == (R + r) * (A + a) * (P * P) && right == R * A * (T * T)
    ensures P + low > 0.0 && Dilutes(P, R, A, r, a, low) ==> left < right
    ensures Enriches(P, R, A, r, a, high) ==> left > right
  {
    var c, l, h, tt := R * A, (P + low) * (P + low), (P + high) * (P + high), T * T;
    Positive(R, A, c);
    if P + low > 0.0 { Scale(l, tt, c, l * c, tt * c); }
    Scale(tt, h, c, tt * c, h * c);
  }

  /** A deposit of one asset dilutes by rounding alone: with the slack fewer units it would not. */
  lemma OneAssetWithinSlack(P: nat, R: nat, A: nat, r: nat, a: nat, n: Normalization)
    requires n.Valid() && P > 0 && R > 0 && A > 0 && (r > 0 || a > 0) && (r == 0 || a == 0)
    ensures var out := CalculatePoolUnits(P, R, A, r, a, n);
            var e := Slack(P as real, ExactShare(P, R, A, r, a)) / 1000000000000000000.0;
            && out.Units?
            && (out.total as real >= e ==>
                  !Dilutes(P as real, R as real, A as real, r as real, a as real, out.total as real - e - P as real))
  {
    hide Chop, ExactShare, ExactSlip, ExactMint, CalculatePoolUnits, Ulps, Slack, Dilutes, IsShare, IsSlip, Abs;
    var u, g, s := ExactShare(P, R, A, r, a), ExactSlip(R, A, r, a), ExactMint(P, R, A, r, a);
    TotalAccuracy(P, R, A, r, a, n);
    ExactShareDef(P, R, A, r, a, u);
    ExactSlipDef(R, A, r, a, g);
    MintIs(P, R, A, r, a, u, g);
    OneAssetNeverDilutes(P as real, R as real, A as real, r as real, a as real, s, u, g);
    var total, e := CalculatePoolUnits(P, R, A, r, a, n).total as real, Slack(P as real, u) / 1000000000000000000.0;
    TotalBetween(total, P as real + s, e, Slack(P as real, u));
    if total >= e { MoreDilutes(P as real, R as real, A as real, r as real, a as real, total - e - P as real, s); }
  }

  lemma MoreDilutes(P: real, R: real, A: real, r: real, a: real, low: real, high: real)
    requires R > 0.0 && A > 0.0 && 0.0 <= P + low <= P + high
    ensures Dilutes(P, R, A, r, a, low) ==> Dilutes(P, R, A, r, a, high)
  {
    var c, l, h := R * A, (P + low) * (P + low), (P + high) * (P + high);
    Positive(R, A, c);
    SquareMono(P + low, P + high);
    Scale(l, h, c, l * c, h * c);
  }

  /** Beyond the threshold the total grows too much, and below it not enough, whatever the rounding does. */
  lemma DoubledTotal(P: real, T: real, y: real, t: real)
    requires P >= 1.0 && T >= 0.0 && y >= 2.0 && 4.0 * t == y + 6.0
    requires Ulps(T, P * t) <= 6.0 * P + 4.0 * (P * y)
    ensures y >= 18.000001 ==> 2.0 * y * (P * P) < T * T
    ensures 2.000001 <= y <= 17.999999 ==> 2.0 * y * (P * P) > T * T
  {
    var k := T / P;
    DivDef(T, P);
    Cancel(0.0, k, P, 0.0, T);
    RatioWithin(P, T, y, t, k);
    if y >= 18.000001 {
      Above(y, k);
      Positive(k * k - 2.0 * y, P * P, (k * k - 2.0 * y) * (P * P));
    } else if 2.000001 <= y <= 17.999999 {
      Under(y, k);
      Positive(2.0 * y - k * k, P * P, (2.0 * y - k * k) * (P * P));
    }
    assert T * T == k * k * (P * P);
  }

  lemma RatioWithin(P: real, T: real, y: real, t: real, k: real)
    requires P >= 1.0 && y >= 2.0 && 4.0 * t == y + 6.0 && T == k * P && Ulps(T, P * t) <= 6.0 * P + 4.0 * (P * y)
    ensures -0.0000000001 * (y + 6.0) <= k * 4.0 - (y + 6.0) <= 0.0000000001 * (y + 6.0)
  {
    var e, d := 6.0 + 4.0 * y, Ulps(k, t);
    UlpsScale(k, t, P, T, P * t);
    Cancel(d, e, P, d * P, e * P);
  }

  lemma UlpsScale(k: real, t: real, P: real, kP: real, tP: real)
    requires P >= 0.0 && kP == k * P && tP == t * P
    ensures Ulps(kP, tP) == Ulps(k, t) * P
  {
    AbsMul(k - t, P);
    assert kP - tP == (k - t) * P;
  }

  lemma SquareMono(a: real, b: real)
    requires 0.0 <= a <= b
    ensures a * a <= b * b
  {
    Scale(a, b, a, a * a, b * a);
    Scale(a, b, b, a * b, b * b);
  }

  lemma Above(y: real, k: real)
    requires y >= 18.000001 && k * 4.0 >= (y + 6.0) * 0.9999999999
    ensures 2.0 * y < k * k
  {
    var z, d := y + 6.0, (y - 2.0) * (y - 18.0);
    SquareMono(z * 0.9999999999, k * 4.0);
    assert z * z == 32.0 * y + d;
    assert (z * 0.9999999999) * (z * 0.9999999999) == z * z * (0.9999999999 * 0.9999999999);
    Scale(16.0, y - 2.0, y - 18.0, 16.0 * (y - 18.0), d);
  }

  lemma Under(y: real, k: real)
    requires 2.000001 <= y <= 17.999999 && 0.0 <= k && k * 4.0 <= (y + 6.0) * 1.0000000001
    ensures 2.0 * y > k * k
  {
    var z, b, c := y + 6.0, y - 2.0, 18.0 - y;
    var bc := b * c;
    SquareMono(k * 4.0, z * 1.0000000001);
    assert z * z == 32.0 * y - bc;
    assert (z * 1.0000000001) * (z * 1.0000000001) == z * z * (1.0000000001 * 1.0000000001);
    Scale(0.0, b - 0.000001, c - 0.000001, 0.0, (b - 0.000001) * (c - 0.000001));
    assert (b - 0.000001) * (c - 0.000001) == bc - 0.000001 * (b + c) + 0.000000000001;
  }

  /**
   With the rounded units too, up to one part in a million around the thresholds: into a pool with at
   least 10^18 units, a native deposit equal to the pool's dilutes when the external one is more than
   seventeen times the pool's, and enriches when it is more than once and less than seventeen times.
   */
  lemma RoundedSeventeen(P: nat, R: nat, A: nat, a: nat, n: Normalization)
    requires n.Valid() && P > 0 && R > 0 && A > 0 && a >= A
    ensures P >= ONE && 1_000_000 * a >= 17_000_001 * A ==> RoundedDilutes(P, R, A, R, a, n)
    ensures P >= ONE && 1_000_001 * A <= 1_000_000 * a <= 16_999_999 * A ==> RoundedEnriches(P, R, A, R, a, n)
  {
    hide Chop, ExactShare, ExactSlip, ExactMint, CalculatePoolUnits, Ulps, Abs, IsShare, IsSlip;
    if P >= ONE {
      var u := ExactShare(P, R, A, R, a);
      TotalAccuracy(P, R, A, R, a, n);
      var out := CalculatePoolUnits(P, R, A, R, a, n);
      var y, t := DoubledExact(P, R, A, a, u, ExactSlip(R, A, R, a));
      DoubledTotal(P as real, out.total as real, y, t);
      WholeProducts(P, R, A, a, out.total, y);
    }
  }

  /** The exact share and total of such a deposit. */
  lemma DoubledExact(P: nat, R: nat, A: nat, a: nat, u: real, g: real) returns (y: real, t: real)
    requires P > 0 && R > 0 && A > 0 && a >= A && u == ExactShare(P, R, A, R, a) && g == ExactSlip(R, A, R, a)
    ensures (A + a) as real == y * A as real && y >= 2.0 && 4.0 * t == y + 6.0
    ensures P as real + ExactMint(P, R, A, R, a) == P as real * t && 2.0 * u == P as real * y
  {
    hide ExactShare, ExactSlip, ExactMint, Abs, IsShare, IsSlip;
    MintIs(P, R, A, R, a, u, g);
    ExactShareDef(P, R, A, R, a, u);
    ExactSlipDef(R, A, R, a, g);
    y := Grown(A as real, a as real);
    Cancel(2.0, y, A as real, 2.0 * A as real, (A + a) as real);
    t := UnitGrowth(P as real, R as real, A as real, R as real, a as real, u * (1.0 - g), u, g, 2.0, y);
    DoubledNative(2.0, y, t);
    ShareGrowth(P as real, R as real, A as real, R as real, a as real, u, 2.0, y, A as real * R as real);
  }

  lemma WholeProducts(P: nat, R: nat, A: nat, a: nat, T: nat, y: real)
    requires R > 0 && A > 0 && (A + a) as real == y * A as real
    ensures 1_000_000 * a >= 17_000_001 * A ==> y >= 18.000001
    ensures 1_000_001 * A <= 1_000_000 * a <= 16_999_999 * A ==> 2.000001 <= y <= 17.999999
    ensures 2.0 * y * (P as real * P as real) < T as real * T as real ==> (R + R) * (A + a) * (P * P) < R * A * (T * T)
    ensures 2.0 * y * (P as real * P as real) > T as real * T as real ==> (R + R) * (A + a) * (P * P) > R * A * (T * T)
  {
    var b := A as real;
    Growths(A, a, y);
    var v, w := 2.0 * y * (P as real * P as real), T as real * T as real;
    WholeSides(P, R, A, a, T, y, v, w, R as real * b);
    CompareScaled(w, v, R as real * b, (R * A * (T * T)) as real, ((R + R) * (A + a) * (P * P)) as real);
    CompareScaled(v, w, R as real * b, ((R + R) * (A + a) * (P * P)) as real, (R * A * (T * T)) as real);
  }

  lemma Growths(A: nat, a: nat, y: real)
    requires A > 0 && (A + a) as real == y * A as real
    ensures 1_000_000 * a >= 17_000_001 * A ==> y >= 18.000001
    ensures 1_000_001 * A <= 1_000_000 * a <= 16_999_999 * A ==> 2.000001 <= y <= 17.999999
  {
    var b := A as real;
    if 1_000_000 * a >= 17_000_001 * A { Cancel(18.000001, y, b, 18.000001 * b, y * b); }
    if 1_000_001 * A <= 1_000_000 * a <= 16_999_999 * A {
      Cancel(2.000001, y, b, 2.000001 * b, y * b);
      Cancel(y, 17.999999, b, y * b, 17.999999 * b);
    }
  }

  lemma WholeSides(P: nat, R: nat, A: nat, a: nat, T: nat, y: real, v: real, w: real, c: real)
    requires R > 0 && A > 0 && (A + a) as real == y * A as real && c == R as real * A as real
    requires v == 2.0 * y * (P as real * P as real) && w == T as real * T as real
    ensures c > 0.0 && ((R + R) * (A + a) * (P * P)) as real == v * c && (R * A * (T * T)) as real == w * c
  {
    Positive(R as real, A as real, c);
  }

  // ---------- exactly when the rounded units dilute ----------

  /** The largest k with c k^2 <= v. */
  function Root(c: nat, v: nat, bound: nat): (k: nat)
    requires c > 0 && v < c * ((bound + 1) * (bound + 1))
    ensures c * (k * k) <= v < c * ((k + 1) * (k + 1))
  {
    if c * (bound * bound) <= v then bound else Root(c, v, bound - 1)
  }

  /** The largest total that does not dilute. */
  function SafeTotal(P: nat, R: nat, A: nat, r: nat, a: nat): nat
    requires R > 0 && A > 0
  {
    var v := (R + r) * (A + a) * (P * P);
    BoundSuffices(R * A, R, A, v);
    Root(R * A, v, v)
  }

  lemma BoundSuffices(c: nat, R: nat, A: nat, v: nat)
    requires R > 0 && A > 0 && c == R * A
    ensures c > 0 && v < c * ((v + 1) * (v + 1))
  {
    MulLe(1, R, A);
    MulLe(1, c, (v + 1) * (v + 1));
  }

  lemma SafeTotalExactly(P: nat, R: nat, A: nat, r: nat, a: nat, T: nat)
    requires R > 0 && A > 0
    ensures (R + r) * (A + a) * (P * P) < R * A * (T * T) <==> T > SafeTotal(P, R, A, r, a)
  {
    var c, v, k := R * A, (R + r) * (A + a) * (P * P), SafeTotal(P, R, A, r, a);
    BoundSuffices(c, R, A, v);
    if T > k {
      NatSquares(k + 1, T);
      MulLe((k + 1) * (k + 1), T * T, c);
    } else {
      NatSquares(T, k);
      MulLe(T * T, k * k, c);
    }
  }

  lemma NatSquares(a: nat, b: nat)
    requires a <= b
    ensures a * a <= b * b
  {
    MulLe(a, b, a);
    MulLe(a, b, b);
  }

  /** The least doubly-scaled value that rounds to t or more: a half of an even number goes down. */
  function RoundsTo(t: nat): nat {
    if t == 0 then 0 else (t - 1) * ONE + HALF_UNIT + t % 2
  }

  lemma RoundsToExactly(t: nat, z: nat)
    ensures Chop(z) >= t <==> z >= RoundsTo(t)
  {
  }

  function CeilDiv(v: nat, d: nat): nat
    requires d > 0
  {
    (v + d - 1) / d
  }

  lemma CeilDivExactly(v: nat, d: nat, q: nat)
    requires d > 0
    ensures q * d >= v <==> q >= CeilDiv(v, d)
  {
    var c := CeilDiv(v, d);
    DivBounds(v + d - 1, d);
    if q >= c { MulLe(c, q, d); } else { MulLe(q, c - 1, d); }
  }

  /** The least stake, scaled down by 10^m, with which the total passes the largest safe one. */
  function LeastDiluting(safe: nat, P: nat, m: nat): Dec {
    var q := CeilDiv(RoundsTo(safe + 1), Pow10(m));
    if q <= Reduced(P, m) then 0 else q - Reduced(P, m)
  }

  /**
   For every deposit into every pool, the units the code computes dilute if and only if the rounded share less
   the rounded slip reaches the value that rounds to the least diluting stake.
   */
  lemma RoundedDilutesExactly(P: nat, R: nat, A: nat, r: nat, a: nat, n: Normalization)
    requires n.Valid() && R > 0 && A > 0 && (r > 0 || a > 0)
    ensures var m := DepositExponent(P, R, A, r, a, n);
            var (R', A') := (Reduced(ScaledNative(n, R), m), Reduced(ScaledExternal(n, A), m));
            var (r', a') := (Reduced(ScaledNative(n, r), m), Reduced(ScaledExternal(n, a), m));
            && Mul(Mul(2 * ONE, A'), R') > 0 && Mul(r' + R', a' + A') > 0
            && (RoundedDilutes(P, R, A, r, a, n) <==>
                Share(Reduced(P, m), R', A', r', a') * (ONE - Slip(R', A', r', a')) >=
                RoundsTo(LeastDiluting(SafeTotal(P, R, A, r, a), P, m)))
  {
    hide Chop, Mul, Quo, Share, Slip, ScaleExponent, Reduced, SafeTotal, LeastDiluting, RoundsTo, IncreasePrecision, Pow10;
    FactorWhole(n);
    var nf := RoundInt(n.factor);
    forall v: nat ensures v > 0 <==> v * nf > 0 { if v > 0 { MulLe(1, nf, v); } }
    var m := DepositExponent(P, R, A, r, a, n);
    var (Rn, An, rn, an) := (ScaledNative(n, R), ScaledExternal(n, A), ScaledNative(n, r), ScaledExternal(n, a));
    ExponentFits(P, Rn, An, rn, an);
    DenominatorsPositive(Rn, An, rn, an, m);
    var stake := Stake(P, Rn, An, rn, an, m);
    var out := CalculatePoolUnits(P, R, A, r, a, n);
    SafeTotalExactly(P, R, A, r, a, out.total);
    TotalPasses(SafeTotal(P, R, A, r, a), P, m, stake);
    var (R', A', r', a') := (Reduced(Rn, m), Reduced(An, m), Reduced(rn, m), Reduced(an, m));
    assert stake == Mul(Share(Reduced(P, m), R', A', r', a'), ONE - Slip(R', A', r', a'));
    MulReaches(Share(Reduced(P, m), R', A', r', a'), ONE - Slip(R', A', r', a'),
               LeastDiluting(SafeTotal(P, R, A, r, a), P, m));
  }

  lemma MulReaches(x: Dec, y: Dec, t: Dec)
    ensures Mul(x, y) >= t <==> x * y >= RoundsTo(t)
  {
    hide Chop, RoundsTo;
    RoundsToExactly(t, x * y);
  }

  lemma TotalPasses(safe: nat, P: nat, m: nat, stake: Dec)
    ensures RoundInt(IncreasePrecision(Reduced(P, m) + stake, m)) > safe <==> stake >= LeastDiluting(safe, P, m)
  {
    hide Chop, Mul, Quo, Reduced, Pow10, RoundsTo, CeilDiv, IncreasePrecision;
    var d := Reduced(P, m) + stake;
    IncreaseExact(d, m);
    RoundsToExactly(safe + 1, d * Pow10(m));
    CeilDivExactly(RoundsTo(safe + 1), Pow10(m), d);
  }
}
