/**
 Swap output and liquidity fee (x/clp/keeper/calculations.go) and how far they are from the
 exact curve, for every pair of balances, amount, direction and number of token decimals.
 */
module Swap {
  import opened FixedPoint
  import opened Precision
  import opened RelativeError
  import opened Curve

  /** The factor is a power of ten, as a decimal; it brings a token to 18 decimals. */
  datatype Normalization = Normalization(factor: Dec, adjustExternal: bool) {
    predicate Valid() { factor >= ONE && factor % ONE == 0 }
  }

  function GetNormalizationFactor(decimals: int): (n: Normalization)
    ensures n.Valid()
  {
    if decimals == 18 then Normalization(NewDec(1), false)
    else if decimals < 18 then Normalization(NewDec(Pow10(18 - decimals)), true)
    else Normalization(NewDec(Pow10(decimals - 18)), false)
  }

  /** The factor aligns amounts of a token of so many decimals with 18: it divides or multiplies one into the other. */
  lemma FactorAligns(decimals: int)
    ensures var n := GetNormalizationFactor(decimals);
            && (n.adjustExternal <==> decimals < 18)
            && (0 <= decimals < 18 ==> n.factor * Pow10(decimals) == NewDec(Pow10(18)))
            && (decimals >= 18 ==> n.factor * Pow10(18) == NewDec(Pow10(decimals)))
            && (decimals < 0 ==> n.factor == NewDec(Pow10(18) * Pow10(-decimals)))
  {
    if 0 <= decimals < 18 {
      Pow10Add(18 - decimals, decimals);
      Product(Pow10(18 - decimals), Pow10(decimals), Pow10(18));
    } else if decimals >= 18 {
      Pow10Add(decimals - 18, 18);
      Product(Pow10(decimals - 18), Pow10(18), Pow10(decimals));
    } else {
      Pow10Add(18, -decimals);
    }
  }

  lemma Product(a: nat, b: nat, c: nat)
    requires a * b == c
    ensures NewDec(a) * b == NewDec(c)
  {
  }

  /** The balance sent into, the amount sent and the balance paid from, brought to one scale. */
  function Normalized(toRowan: bool, n: Normalization, X: nat, x: nat, Y: nat): (nat, nat, nat) {
    var nf := RoundInt(n.factor);
    if n.adjustExternal == toRowan then (X * nf, x * nf, Y) else (X, x, Y * nf)
  }

  /** Common tail of the fee and the swap: the kernel over x * x or x * X, rounded to an amount. */
  function CurveAmount(fee: bool, toRowan: bool, n: Normalization, X: nat, x: nat, Y: nat): nat
    requires n.Valid() && X > 0 && x > 0 && Y > 0
  {
    NormalizedPositive(toRowan, n, X, x, Y);
    var (X', x', Y') := Normalized(toRowan, n, X, x, Y);
    var m := ScaleExponent([X', x', Y']);
    ExponentScales(X', x', Y');
    var y := ScaledCurve(x', if fee then x' else X', Y', x', X', m);
    RoundInt(if toRowan then y else Quo(y, n.factor))
  }

  function CalcLiquidityFee(toRowan: bool, n: Normalization, X: nat, x: nat, Y: nat): nat
    requires n.Valid()
  {
    if X == 0 && x == 0 then 0
    else if X == 0 || x == 0 || Y == 0 then 0
    else CurveAmount(true, toRowan, n, X, x, Y)
  }

  function CalcSwapResult(toRowan: bool, n: Normalization, X: nat, x: nat, Y: nat): nat
    requires n.Valid()
  {
    if X == 0 || x == 0 || Y == 0 then 0
    else CurveAmount(false, toRowan, n, X, x, Y)
  }

  lemma FactorWhole(n: Normalization)
    requires n.Valid()
    ensures RoundInt(n.factor) >= 1 && n.factor == NewDec(RoundInt(n.factor))
  {
    ChopExact(n.factor / ONE);
  }

  lemma NormalizedPositive(toRowan: bool, n: Normalization, X: nat, x: nat, Y: nat)
    requires n.Valid() && X > 0 && x > 0 && Y > 0
    ensures var (X', x', Y') := Normalized(toRowan, n, X, x, Y); X' > 0 && x' > 0 && Y' > 0
  {
    hide Chop;
    FactorWhole(n);
    var nf := RoundInt(n.factor);
    MulLe(1, nf, X);
    MulLe(1, nf, x);
    MulLe(1, nf, Y);
  }

  lemma ExponentScales(X: nat, x: nat, Y: nat)
    requires X > 0 && x > 0 && Y > 0
    ensures var m := ScaleExponent([X, x, Y]); Scales(m, X) && Scales(m, x) && Scales(m, Y)
  {
    var inputs := [X, x, Y];
    hide ScaleExponent;
    ScaleExponentBounds(inputs);
    assert inputs[0] == X && inputs[1] == x && inputs[2] == Y;
  }

  // ---------- accuracy ----------

  /** x * X * Y / (x + X)^2, and x^2 * Y / (x + X)^2 for the fee. */
  ghost function ExactAmount(fee: bool, X: nat, x: nat, Y: nat): real
    requires x > 0
  {
    Exact(x as real, if fee then x as real else X as real, Y as real, (x + X) as real)
  }

  /**
   What the returned amount is a multiple of.  With more than 18 decimals the scaling applied
   to the inputs is not the one undone on the output.
   */
  ghost function OutScale(toRowan: bool, n: Normalization): real
    requires n.Valid()
  {
    FactorWhole(n);
    var k := RoundInt(n.factor) as real;
    if n.adjustExternal then 1.0 else if toRowan then k else 1.0 / k
  }

  /**
   Half a unit, 10^-12, and beyond exponent 6 a few parts in 10^18 of the balance paid from;
   counted in units of 10^-18.
   */
  ghost function Tolerance(fee: bool, toRowan: bool, n: Normalization, X: nat, x: nat, Y: nat): real
    requires n.Valid()
  {
    var (X', x', Y') := Normalized(toRowan, n, X, x, Y);
    500000000001000000.0 +
    if ScaleExponent([X', x', Y']) == 6 then 0.0
    else (if fee then 5.0 else 2.0) * (OutScale(toRowan, n) * Y as real)
  }

  /** Every returned amount is within the tolerance of the exact curve, up to `OutScale`. */
  lemma Accuracy(fee: bool, toRowan: bool, n: Normalization, X: nat, x: nat, Y: nat)
    requires n.Valid() && X > 0 && x > 0 && Y > 0
    ensures Ulps(CurveAmount(fee, toRowan, n, X, x, Y) as real, OutScale(toRowan, n) * ExactAmount(fee, X, x, Y))
            <= Tolerance(fee, toRowan, n, X, x, Y)
  {
    hide OutScale, ExactAmount, CurveAmount, ScaleExponent, Normalized;
    var t, w := AmountError(fee, toRowan, n, X, x, Y, ExactAmount(fee, X, x, Y), OutScale(toRowan, n));
  }

  /** `amount` is what the exact curve gives for x into X against Y; nothing if one of the three is zero. */
  ghost predicate OnCurve(fee: bool, toRowan: bool, n: Normalization, X: nat, x: nat, Y: nat, amount: nat)
    requires n.Valid()
  {
    if X > 0 && x > 0 && Y > 0
    then Ulps(amount as real, OutScale(toRowan, n) * ExactAmount(fee, X, x, Y)) <= Tolerance(fee, toRowan, n, X, x, Y)
    else amount == 0
  }

  /** Both amounts, for any inputs. */
  lemma AmountsOnCurve(toRowan: bool, n: Normalization, X: nat, x: nat, Y: nat)
    requires n.Valid()
    ensures OnCurve(false, toRowan, n, X, x, Y, CalcSwapResult(toRowan, n, X, x, Y))
    ensures OnCurve(true, toRowan, n, X, x, Y, CalcLiquidityFee(toRowan, n, X, x, Y))
  {
    hide OnCurve, CurveAmount;
    if X > 0 && x > 0 && Y > 0 {
      CurveAmountOn(false, toRowan, n, X, x, Y);
      CurveAmountOn(true, toRowan, n, X, x, Y);
    } else {
      NothingOn(toRowan, n, X, x, Y);
    }
  }

  lemma CurveAmountOn(fee: bool, toRowan: bool, n: Normalization, X: nat, x: nat, Y: nat)
    requires n.Valid() && X > 0 && x > 0 && Y > 0
    ensures OnCurve(fee, toRowan, n, X, x, Y, CurveAmount(fee, toRowan, n, X, x, Y))
  {
    hide OutScale, ExactAmount, CurveAmount, ScaleExponent, Normalized;
    var t, w := AmountError(fee, toRowan, n, X, x, Y, ExactAmount(fee, X, x, Y), OutScale(toRowan, n));
  }

  lemma NothingOn(toRowan: bool, n: Normalization, X: nat, x: nat, Y: nat)
    requires n.Valid() && (X == 0 || x == 0 || Y == 0)
    ensures OnCurve(false, toRowan, n, X, x, Y, 0) && OnCurve(true, toRowan, n, X, x, Y, 0)
  {
  }

  lemma AmountError(fee: bool, toRowan: bool, n: Normalization, X: nat, x: nat, Y: nat, e: real, scale: real)
    returns (t: real, w: real)
    requires n.Valid() && X > 0 && x > 0 && Y > 0
    requires e == ExactAmount(fee, X, x, Y) && scale == OutScale(toRowan, n)
    ensures t == scale * e && w == scale * Y as real
    ensures var (X', x', Y') := Normalized(toRowan, n, X, x, Y);
            Ulps(CurveAmount(fee, toRowan, n, X, x, Y) as real, t)
            <= 500000000001000000.0 + if ScaleExponent([X', x', Y']) == 6 then 0.0
                                      else (if fee then 5.0 else 2.0) * w
  {
    hide Chop, Quo, Mul, ScaleExponent, OutScale, ExactAmount, CurveAmount, Normalized;
    FactorWhole(n);
    var nf := RoundInt(n.factor);
    var six, y, e', w', bound := KernelError(fee, toRowan, n, nf, X, x, Y, e);
    OutScaleDef(toRowan, n, nf as real);
    ExactBound(fee, X, x, Y, e);
    t, w := FinishWithin(y, toRowan, n.adjustExternal, nf, fee, six, e, e', Y as real, w', scale, bound);
  }

  lemma FinishWithin(y: Dec, toRowan: bool, adjust: bool, nf: nat, fee: bool, six: bool, e: real, e': real,
                     Y: real, w': real, scale: real, bound: real) returns (t: real, w: real)
    requires nf > 0 && 0.0 <= e <= Y && (!fee ==> 4.0 * e <= Y)
    requires e' == if adjust == toRowan then e else e * nf as real
    requires w' == if adjust == toRowan then Y else Y * nf as real
    requires scale == if adjust then 1.0 else if toRowan then nf as real else 1.0 / nf as real
    requires bound == if six then 510000.0 else 3.72 * e' + 0.51 * w'
    requires Ulps(Val(y), e') <= bound
    ensures t == scale * e && w == scale * Y
    ensures var z := RoundInt(if toRowan then y else Quo(y, NewDec(nf)));
            Ulps(z as real, t) <= 500000000001000000.0 + if six then 0.0 else (if fee then 5.0 else 2.0) * w
  {
    hide Chop, Quo;
    var r;
    r, t, w := Unscale(toRowan, adjust, nf as real, e, e', Y, w', scale);
    FinishError(y, toRowan, nf, r, e', t, bound, bound * r);
    ToleranceBound(six, fee, scale, e, Y, t, w, r, e', w', bound, bound * r);
  }

  /** The amount before the final division and rounding, against the exact one on normalized inputs. */
  lemma KernelError(fee: bool, toRowan: bool, n: Normalization, nf: nat, X: nat, x: nat, Y: nat, e: real)
    returns (six: bool, y: Dec, e': real, w': real, bound: real)
    requires n.Valid() && X > 0 && x > 0 && Y > 0
    requires nf == RoundInt(n.factor) > 0 && n.factor == NewDec(nf)
    requires e == ExactAmount(fee, X, x, Y)
    ensures CurveAmount(fee, toRowan, n, X, x, Y) == RoundInt(if toRowan then y else Quo(y, NewDec(nf)))
    ensures e' == if n.adjustExternal == toRowan then e else e * nf as real
    ensures w' == if n.adjustExternal == toRowan then Y as real else Y as real * nf as real
    ensures var (X', x', Y') := Normalized(toRowan, n, X, x, Y); six <==> ScaleExponent([X', x', Y']) == 6
    ensures bound == if six then 510000.0 else 3.72 * e' + 0.51 * w'
    ensures Ulps(Val(y), e') <= bound
  {
    hide Chop, Quo, Mul, ScaleExponent, ScaledCurve, ExactAmount;
    NormalizedPositive(toRowan, n, X, x, Y);
    var (X', x', Y') := Normalized(toRowan, n, X, x, Y);
    var m := ScaleExponent([X', x', Y']);
    ExponentScales(X', x', Y');
    e', w' := NormalizedExact(fee, X, x, Y, nf, n.adjustExternal == toRowan, e);
    y := ScaledCurve(x', if fee then x' else X', Y', x', X', m);
    ScaledCurveError(x', if fee then x' else X', Y', x', X', m, e');
    six := m == 6;
    bound := if six then 510000.0 else 3.72 * e' + 0.51 * w';
  }

  lemma OutScaleDef(toRowan: bool, n: Normalization, k: real)
    requires n.Valid() && k == RoundInt(n.factor) as real && k > 0.0
    ensures OutScale(toRowan, n) == if n.adjustExternal then 1.0 else if toRowan then k else 1.0 / k
  {
  }

  /** The factor undone on the output, applied to the exact amount and to the balance paid from. */
  lemma Unscale(toRowan: bool, adjust: bool, k: real, e: real, e': real, y: real, w': real, scale: real)
    returns (r: real, t: real, w: real)
    requires k >= 1.0
    requires e' == if adjust == toRowan then e else e * k
    requires w' == if adjust == toRowan then y else y * k
    requires scale == if adjust then 1.0 else if toRowan then k else 1.0 / k
    ensures 0.0 < r <= 1.0 && if toRowan then r == 1.0 else r * k == 1.0
    ensures t == e' * r && t == scale * e
    ensures w == w' * r && w == scale * y
    ensures scale > 0.0
  {
    if toRowan {
      r, t, w := 1.0, e', w';
    } else {
      r := Inverse(k);
      if r <= 0.0 { Scale(r, 0.0, k, 1.0, 0.0); }
      Scale(1.0, k, r, r, 1.0);
      t, w := e' * r, w' * r;
      assert e * k * r == e * (r * k);
      assert y * k * r == y * (r * k);
    }
  }

  lemma ExactBound(fee: bool, X: nat, x: nat, Y: nat, e: real)
    requires x > 0 && e == ExactAmount(fee, X, x, Y)
    ensures 0.0 <= e <= Y as real
    ensures !fee ==> 4.0 * e <= Y as real
  {
    hide Exact;
    var a, b, y, s := x as real, (if fee then x else X) as real, Y as real, (x + X) as real;
    ExactDef(a, b, y, s);
    CurveBound(a, b, s, y, e, a * b, s * s, a * b * y, fee);
  }

  lemma CurveBound(a: real, b: real, s: real, y: real, e: real, ab: real, ss: real, n: real, fee: bool)
    requires 0.0 < a <= s && 0.0 <= b <= s && 0.0 <= y && (fee || s == a + b)
    requires ab == a * b && ss == s * s && n == ab * y && e * ss == n
    ensures 0.0 <= e <= y && (!fee ==> 4.0 * e <= y)
  {
    Scale(0.0, a, b, 0.0, ab);
    Scale(a, s, b, ab, s * b);
    Scale(b, s, s, s * b, ss);
    if ss <= 0.0 { Scale(a, s, s, a * s, ss); Scale(a, s, a, a * a, a * s); }
    Scale(0.0, ab, y, 0.0, n);
    Scale(ab, ss, y, n, ss * y);
    Cancel(e, y, ss, n, ss * y);
    Cancel(0.0, e, ss, 0.0, n);
    if !fee {
      assert 4.0 * ab <= ss by { assert ss - 4.0 * ab == (a - b) * (a - b); }
      Scale(4.0 * ab, ss, y, 4.0 * n, ss * y);
      Cancel(4.0 * e, y, ss, 4.0 * n, ss * y);
    }
  }

  lemma ToleranceBound(six: bool, fee: bool, scale: real, e: real, y: real, t: real, w: real, r: real, e': real,
                       w': real, bound: real, br: real)
    requires 0.0 < r <= 1.0 && 0.0 < scale && br == bound * r && t == e' * r
    requires t == scale * e && w == w' * r && w == scale * y
    requires 0.0 <= e <= y && (!fee ==> 4.0 * e <= y)
    requires bound == if six then 510000.0 else 3.72 * e' + 0.51 * w'
    ensures six ==> br + 0.51 <= 1000000.0
    ensures !six ==> br + 0.51 <= 1000000.0 + (if fee then 5.0 else 2.0) * w
  {
    if six {
      Scale(r, 1.0, 510000.0, 510000.0 * r, 510000.0);
    } else {
      Scale(e, y, scale, t, w);
      Scale(0.0, y, scale, 0.0, w);
      if !fee { Scale(4.0 * e, y, scale, 4.0 * t, w); }
      assert br == 3.72 * (e' * r) + 0.51 * (w' * r);
    }
  }

  /** The exact amount and the balance paid from, on normalized inputs. */
  lemma NormalizedExact(fee: bool, X: nat, x: nat, Y: nat, nf: nat, inputs: bool, e: real)
    returns (e': real, w': real)
    requires X > 0 && x > 0 && Y > 0 && nf > 0 && e == ExactAmount(fee, X, x, Y)
    ensures var (X', x', Y') := if inputs then (X * nf, x * nf, Y) else (X, x, Y * nf);
            && w' == Y' as real
            && e' * ((x' + X') as real * (x' + X') as real)
               == x' as real * (if fee then x' else X') as real * Y' as real
    ensures e' == if inputs then e else e * nf as real
    ensures w' == if inputs then Y as real else Y as real * nf as real
  {
    hide Exact;
    var k := nf as real;
    var a, b, y, s := x as real, (if fee then x else X) as real, Y as real, (x + X) as real;
    ExactDef(a, b, y, s);
    if inputs {
      e', w' := e, y;
      ScaleInputs(a, b, y, s, e, k);
    } else {
      e', w' := e * k, y * k;
      ScaleOutput(a, b, y, s, e, k);
    }
  }

  lemma ScaleInputs(a: real, b: real, y: real, s: real, e: real, k: real)
    requires e * (s * s) == a * b * y
    ensures e * ((s * k) * (s * k)) == (a * k) * (b * k) * y
  {
    assert e * ((s * k) * (s * k)) == e * (s * s) * (k * k);
    assert (a * k) * (b * k) * y == (a * b * y) * (k * k);
  }

  lemma ScaleOutput(a: real, b: real, y: real, s: real, e: real, k: real)
    requires e * (s * s) == a * b * y
    ensures (e * k) * (s * s) == a * b * (y * k)
  {
    assert (e * k) * (s * s) == e * (s * s) * k;
  }

  /** The final division, if any, and the rounding to an amount. */
  lemma FinishError(y: Dec, toRowan: bool, nf: nat, r: real, e': real, e: real, bound: real, br: real)
    requires br == bound * r && nf > 0 && Ulps(Val(y), e') <= bound
    requires if toRowan then r == 1.0 else r * nf as real == 1.0
    requires e == e' * r
    ensures var z := RoundInt(if toRowan then y else Quo(y, NewDec(nf)));
            Ulps(z as real, e) <= 500000000000000000.0 + br + 0.51
  {
    hide Chop, Quo;
    if toRowan {
      RoundIntError(y);
      Triangle(RoundInt(y) as real, Val(y), e);
    } else {
      var q := Val(y) * r;
      DivideBack(Val(y), nf as real, r, q);
      var d := Quo(y, NewDec(nf));
      QuoError(y, NewDec(nf), q);
      RoundIntError(d);
      Triangle(Val(d), q, e);
      Triangle(RoundInt(d) as real, Val(d), e);
      ScaleDistance(Val(y), e', r, q, e, bound, br);
    }
  }

  lemma DivideBack(v: real, k: real, r: real, q: real)
    requires k > 0.0 && r * k == 1.0 && q == v * r
    ensures 0.0 <= r && q * k == v
  {
    assert q * k == v * (r * k);
    if r < 0.0 { Scale(r, 0.0, k, 1.0, 0.0); }
  }

  // ---------- consequences ----------

  /** The output of the fee-free constant-product curve. */
  ghost function ConstantProduct(X: nat, x: nat, Y: nat): real
    requires x > 0
  {
    x as real * Y as real / (x + X) as real
  }

  /** The exact fee and the exact output share out the constant-product output. */
  lemma ExactSplit(X: nat, x: nat, Y: nat, e: real, f: real, c: real)
    requires x > 0
    requires e == ExactAmount(false, X, x, Y) && f == ExactAmount(true, X, x, Y) && c == ConstantProduct(X, x, Y)
    ensures e + f == c && c * (x + X) as real == x as real * Y as real
  {
    hide Exact;
    var a, b, y, s := x as real, X as real, Y as real, (x + X) as real;
    ExactDef(a, b, y, s);
    ExactDef(a, a, y, s);
    DivDef(a * y, s);
    SplitSum(a, b, y, s, e, f, c, s * s);
  }

  lemma SplitSum(a: real, b: real, y: real, s: real, e: real, f: real, c: real, ss: real)
    requires s > 0.0 && s == a + b && ss == s * s
    requires e * ss == a * b * y && f * ss == a * a * y && c * s == a * y
    ensures e + f == c
  {
    assert (e + f) * ss == (a * y) * s;
    assert c * ss == (c * s) * s;
    var d := e + f - c;
    var ds := d * s;
    assert ds * s == 0.0;
    assert ds == 0.0;
  }

  /** The computed fee and output together give the constant-product output back, within both tolerances. */
  lemma FeeDecomposition(toRowan: bool, n: Normalization, X: nat, x: nat, Y: nat)
    requires n.Valid() && X > 0 && x > 0 && Y > 0
    ensures Ulps((CalcLiquidityFee(toRowan, n, X, x, Y) + CalcSwapResult(toRowan, n, X, x, Y)) as real,
                 OutScale(toRowan, n) * ConstantProduct(X, x, Y))
            <= Tolerance(true, toRowan, n, X, x, Y) + Tolerance(false, toRowan, n, X, x, Y)
  {
    hide CurveAmount, OutScale, ExactAmount, ConstantProduct, Tolerance;
    Accuracy(true, toRowan, n, X, x, Y);
    Accuracy(false, toRowan, n, X, x, Y);
    var e, f, c := ExactAmount(false, X, x, Y), ExactAmount(true, X, x, Y), ConstantProduct(X, x, Y);
    ExactSplit(X, x, Y, e, f, c);
    var k := OutScale(toRowan, n);
    assert k * c == k * f + k * e;
  }

  /** With at most 18 decimals nothing is left of the scaling. */
  lemma NoScale(toRowan: bool, decimals: int)
    requires decimals <= 18
    ensures OutScale(toRowan, GetNormalizationFactor(decimals)) == 1.0
  {
    FactorWhole(GetNormalizationFactor(decimals));
    if decimals == 18 { ChopExact(1); }
  }

  /** A crude form of the tolerance, without the exponent. */
  lemma ToleranceCap(toRowan: bool, n: Normalization, X: nat, x: nat, Y: nat)
    requires n.Valid() && OutScale(toRowan, n) == 1.0
    ensures Tolerance(false, toRowan, n, X, x, Y) <= 500000000001000000.0 + 2.0 * Y as real
  {
    hide OutScale, ScaleExponent, Normalized;
  }

  /** With at most 18 decimals a swap never pays out the whole balance. */
  lemma NeverEmpties(toRowan: bool, decimals: int, X: nat, x: nat, Y: nat)
    requires decimals <= 18 && Y > 0
    ensures CalcSwapResult(toRowan, GetNormalizationFactor(decimals), X, x, Y) < Y
  {
    if X > 0 && x > 0 {
      hide CurveAmount, OutScale, ExactAmount, Tolerance, GetNormalizationFactor;
      var n := GetNormalizationFactor(decimals);
      Accuracy(false, toRowan, n, X, x, Y);
      NoScale(toRowan, decimals);
      ToleranceCap(toRowan, n, X, x, Y);
      ExactBound(false, X, x, Y, ExactAmount(false, X, x, Y));
    }
  }

  /**
   The product of the balances after a swap: it can fall only by rounding, and not at all
   once the exact fee covers the tolerance.  Both sides are scaled by 10^18.
   */
  lemma ProductKept(toRowan: bool, decimals: int, X: nat, x: nat, Y: nat)
    requires decimals <= 18 && X > 0 && x > 0 && Y > 0
    ensures var n := GetNormalizationFactor(decimals);
            var y := CalcSwapResult(toRowan, n, X, x, Y);
            var tolerance := Tolerance(false, toRowan, n, X, x, Y);
            && ((X + x) * (Y - y) - X * Y) as real * 1000000000000000000.0 >= -((X + x) as real * tolerance)
            && (ExactAmount(true, X, x, Y) * 1000000000000000000.0 >= tolerance ==> (X + x) * (Y - y) >= X * Y)
  {
    hide CurveAmount, OutScale, ExactAmount, ConstantProduct, Tolerance, GetNormalizationFactor;
    var n := GetNormalizationFactor(decimals);
    var y := CalcSwapResult(toRowan, n, X, x, Y);
    Accuracy(false, toRowan, n, X, x, Y);
    NoScale(toRowan, decimals);
    var e, f, c := ExactAmount(false, X, x, Y), ExactAmount(true, X, x, Y), ConstantProduct(X, x, Y);
    ExactSplit(X, x, Y, e, f, c);
    ExactBound(true, X, x, Y, f);
    var tolerance := Tolerance(false, toRowan, n, X, x, Y);
    ProductStep(X as real, x as real, Y as real, y as real, c, f, tolerance, (X + x) as real);
    assert ((X + x) * (Y - y) - X * Y) as real == (X + x) as real * (Y - y) as real - X as real * Y as real;
  }

  lemma ProductStep(X: real, x: real, Y: real, y: real, c: real, f: real, tolerance: real, s: real)
    requires s == X + x && 0.0 < s && 0.0 <= f
    requires c * s == x * Y
    requires (y - (c - f)) * 1000000000000000000.0 <= tolerance
    ensures (s * (Y - y) - X * Y) * 1000000000000000000.0 >= -(s * tolerance)
    ensures f * 1000000000000000000.0 >= tolerance ==> s * (Y - y) >= X * Y
  {
    var d := c - y;
    assert s * (Y - y) - X * Y == s * d;
    var sd, sf, st := s * d, s * f, s * tolerance;
    Scale(f * 1000000000000000000.0 - tolerance, d * 1000000000000000000.0, s,
          sf * 1000000000000000000.0 - st, sd * 1000000000000000000.0);
    Scale(0.0, f, s, 0.0, sf);
    if f * 1000000000000000000.0 >= tolerance {
      Scale(tolerance, f * 1000000000000000000.0, s, st, sf * 1000000000000000000.0);
    }
  }

  // ---------- when a swap yields nothing ----------

  const HALF_UNIT: int := 500_000_000_000_000_000

  lemma ChopAtMost(t: nat, c: nat)
    ensures Chop(t) <= c <==> t < c * ONE + HALF_UNIT + (if c % 2 == 0 then 1 else 0)
  {
  }

  lemma DivAtMost(x: nat, b: nat, k: nat)
    requires b > 0
    ensures x / b < k <==> x < k * b
  {
    DivBounds(x, b);
    if x / b < k { MulLe(x / b + 1, k, b); } else { MulLe(k, x / b, b); }
  }

  lemma QuoAtMost(a: Dec, b: Dec, c: Dec)
    requires b > 0
    ensures Quo(a, b) <= c <==> a * ONE * ONE < (c * ONE + HALF_UNIT + (if c % 2 == 0 then 1 else 0)) * b
  {
    ChopAtMost(a * ONE * ONE / b, c);
    DivAtMost(a * ONE * ONE, b, c * ONE + HALF_UNIT + (if c % 2 == 0 then 1 else 0));
  }

  /** The largest rounded kernel that is paid out as nothing, for the scale p. */
  function NothingUpTo(toRowan: bool, nf: nat, p: nat): nat
    requires nf > 0 && p > 0
  {
    if toRowan then HALF_UNIT / p else ((HALF_UNIT * ONE + HALF_UNIT + 1) * nf - 1) / (p * ONE)
  }

  lemma NothingPaid(toRowan: bool, nf: nat, p: nat, q: Dec)
    requires nf > 0 && p > 0
    ensures RoundInt(if toRowan then q * p else Quo(q * p, NewDec(nf))) == 0 <==> q <= NothingUpTo(toRowan, nf, p)
  {
    hide Quo, Chop;
    if toRowan {
      ChopAtMost(q * p, 0);
      DivAtMost(HALF_UNIT, p, q);
    } else {
      var d, k := Quo(q * p, NewDec(nf)), HALF_UNIT * ONE + HALF_UNIT + 1;
      ChopAtMost(d, 0);
      QuoAtMost(q * p, NewDec(nf), HALF_UNIT);
      ScaleLimit(q * p, nf, k);
      DivAtMost(k * nf - 1, p * ONE, q);
      assert q * (p * ONE) == q * p * ONE;
    }
  }

  lemma ScaleLimit(qp: nat, nf: nat, k: nat)
    requires nf > 0 && k > 0
    ensures qp * ONE * ONE < k * (nf * ONE) <==> qp * ONE <= k * nf - 1
    ensures k * nf >= 1
  {
    var kn := k * nf;
    assert k * (nf * ONE) == kn * ONE;
    MulLe(1, k, nf);
  }

  /**
   The amounts, brought to one scale and scaled down, are so lopsided that the swap is paid out as
   nothing: the kernel's numerator against its denominator, multiplied out.
   */
  predicate YieldsNothing(toRowan: bool, n: Normalization, X: nat, x: nat, Y: nat)
    requires n.Valid()
  {
    FactorWhole(n);
    var (X', x', Y') := Normalized(toRowan, n, X, x, Y);
    var m := ScaleExponent([X', x', Y']);
    var c, s := NothingUpTo(toRowan, RoundInt(n.factor), Pow10(m)), Reduced(x', m) + Reduced(X', m);
    Mul(Mul(Reduced(x', m), Reduced(X', m)), Reduced(Y', m)) * ONE * ONE <
    (c * ONE + HALF_UNIT + (if c % 2 == 0 then 1 else 0)) * Mul(s, s)
  }

  /** For any decimals, a swap yields nothing if and only if the amounts say so. */
  lemma YieldExactly(toRowan: bool, n: Normalization, X: nat, x: nat, Y: nat)
    requires n.Valid() && X > 0 && x > 0 && Y > 0
    ensures CalcSwapResult(toRowan, n, X, x, Y) == 0 <==> YieldsNothing(toRowan, n, X, x, Y)
  {
    hide Quo, Chop, Mul, Reduced, ScaleExponent, NothingUpTo, Pow10;
    FactorWhole(n);
    NormalizedPositive(toRowan, n, X, x, Y);
    var (X', x', Y') := Normalized(toRowan, n, X, x, Y);
    var m := ScaleExponent([X', x', Y']);
    ExponentScales(X', x', Y');
    SquarePositive(x', X', m);
    var s := Reduced(x', m) + Reduced(X', m);
    var num, d := Mul(Mul(Reduced(x', m), Reduced(X', m)), Reduced(Y', m)), Mul(s, s);
    var q, nf := Quo(num, d), RoundInt(n.factor);
    IncreaseExact(q, m);
    NothingPaid(toRowan, nf, Pow10(m), q);
    QuoAtMost(num, d, NothingUpTo(toRowan, nf, Pow10(m)));
  }

  /** At exponent 6 the condition is one on whole numbers: x X Y against (x + X)^2, times constants. */
  lemma SixYieldsNothing(toRowan: bool, n: Normalization, X: nat, x: nat, Y: nat)
    requires n.Valid()
    requires var (X', x', Y') := Normalized(toRowan, n, X, x, Y); ScaleExponent([X', x', Y']) == 6
    ensures RoundInt(n.factor) > 0
    ensures var (X', x', Y') := Normalized(toRowan, n, X, x, Y);
            var c := NothingUpTo(toRowan, RoundInt(n.factor), MEGA);
            YieldsNothing(toRowan, n, X, x, Y) <==>
              x' * X' * Y' * ONE * ONE <
              (c * ONE + HALF_UNIT + (if c % 2 == 0 then 1 else 0)) * ((x' + X') * (x' + X') * MEGA)
  {
    hide Quo, Chop, Mul, Reduced, ScaleExponent, NothingUpTo;
    FactorWhole(n);
    var (X', x', Y') := Normalized(toRowan, n, X, x, Y);
    assert Pow10(6) == MEGA;
    ReducedSix(x');
    ReducedSix(X');
    ReducedSix(Y');
    MulTera(x', X');
    MulMegaTera(x' * X', Y');
    MulTera(x' + X', x' + X');
  }

  /** With at most 18 decimals the exact value decides as well, outside the tolerance around 1/2. */
  lemma YieldDecided(toRowan: bool, decimals: int, X: nat, x: nat, Y: nat)
    requires decimals <= 18 && X > 0 && x > 0 && Y > 0
    ensures var n := GetNormalizationFactor(decimals);
            var exact := ExactAmount(false, X, x, Y) * 1000000000000000000.0;
            var tolerance := Tolerance(false, toRowan, n, X, x, Y);
            && (CalcSwapResult(toRowan, n, X, x, Y) == 0 <==> YieldsNothing(toRowan, n, X, x, Y))
            && (exact > tolerance ==> !YieldsNothing(toRowan, n, X, x, Y))
            && (exact + tolerance < 1000000000000000000.0 ==> YieldsNothing(toRowan, n, X, x, Y))
  {
    hide CurveAmount, OutScale, ExactAmount, Tolerance, GetNormalizationFactor, YieldsNothing;
    YieldExactly(toRowan, GetNormalizationFactor(decimals), X, x, Y);
    Accuracy(false, toRowan, GetNormalizationFactor(decimals), X, x, Y);
    NoScale(toRowan, decimals);
  }

  /** The swap output follows the curve for every balance, amount and direction. */
  ghost predicate FollowsCurve(decimals: int) {
    forall toRowan, X: nat, x: nat, Y: nat | X > 0 && x > 0 && Y > 0 ::
      Ulps(CalcSwapResult(toRowan, GetNormalizationFactor(decimals), X, x, Y) as real, ExactAmount(false, X, x, Y))
      <= 500000000001000000.0 + 2.0 * Y as real
  }

  /**
   Beyond 18 decimals the output towards the native token is too large by the unmatched factor:
   sending as much as the pool holds asks for more than the pool's other side.
   */
  lemma OverpaysBeyond18(decimals: int, X: nat, Y: nat)
    requires decimals > 18 && X > 0 && Y > 0
    ensures CalcSwapResult(true, GetNormalizationFactor(decimals), X, X, Y) >= Y
    ensures CalcSwapResult(true, GetNormalizationFactor(decimals), X, X, Y) as real
            - ExactAmount(false, X, X, Y) >= 1.7 * Y as real
  {
    hide CurveAmount, ExactAmount, ScaleExponent, Normalized;
    var n := GetNormalizationFactor(decimals);
    FactorWhole(n);
    ChopExact(Pow10(decimals - 18));
    var k, e := OutScale(true, n), ExactAmount(false, X, X, Y);
    assert k >= 10.0;
    HalfSwap(X, Y, e);
    var t, w := AmountError(false, true, n, X, X, Y, e, k);
    Scale(10.0, k, e, 10.0 * e, t);
    Overpay(CurveAmount(false, true, n, X, X, Y) as real, e, Y as real, t, w);
  }

  lemma Overpay(z: real, e: real, y: real, ke: real, ky: real)
    requires 4.0 * e == y && y >= 1.0 && ky == 4.0 * ke && ke >= 10.0 * e
    requires Ulps(z, ke) <= 500000000001000000.0 + 2.0 * ky
    ensures z >= y && z - e >= 1.7 * y
  {
  }

  lemma HalfSwap(X: nat, Y: nat, e: real)
    requires X > 0 && e == ExactAmount(false, X, X, Y)
    ensures 4.0 * e == Y as real
  {
    hide Exact;
    var a, y := X as real, Y as real;
    ExactDef(a, a, y, 2.0 * a);
    assert (4.0 * e - y) * (a * a) == 0.0;
  }

  /** Exactly the tokens of at most 18 decimals are swapped along the curve. */
  lemma FollowsCurveIff(decimals: int)
    ensures FollowsCurve(decimals) <==> decimals <= 18
  {
    hide CurveAmount, OutScale, ExactAmount, Tolerance, GetNormalizationFactor;
    if decimals <= 18 {
      var n := GetNormalizationFactor(decimals);
      forall toRowan, X: nat, x: nat, Y: nat | X > 0 && x > 0 && Y > 0
        ensures Ulps(CalcSwapResult(toRowan, n, X, x, Y) as real, ExactAmount(false, X, x, Y))
                <= 500000000001000000.0 + 2.0 * Y as real
      {
        Accuracy(false, toRowan, n, X, x, Y);
        NoScale(toRowan, decimals);
        ToleranceCap(toRowan, n, X, x, Y);
      }
    } else {
      OverpaysBeyond18(decimals, 1, 1);
      assert Ulps(CalcSwapResult(true, GetNormalizationFactor(decimals), 1, 1, 1) as real, ExactAmount(false, 1, 1, 1))
          > 500000000001000000.0 + 2.0 * 1 as real;
    }
  }
}
