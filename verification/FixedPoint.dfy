/**
 The decimal arithmetic of the chain: `sdk.Dec` restricted to the non-negative values
 that the liquidity-pool formulas use.  A decimal is its raw integer, scaled by 10^18.
 */
module FixedPoint {

  type Dec = nat

  const ONE: int := 1_000_000_000_000_000_000

  /** 10^n */
  function Pow10(n: nat): (p: nat)
    ensures p >= 1
  {
    if n == 0 then 1 else 10 * Pow10(n - 1)
  }

  /** Drops the 18 decimals of a doubly-scaled product: nearest integer, ties to even. */
  function Chop(n: nat): nat
  {
    var q := n / 1_000_000_000_000_000_000;
    var rem := n % 1_000_000_000_000_000_000;
    if 2 * rem < ONE then q
    else if 2 * rem > ONE then q + 1
    else if q % 2 == 0 then q else q + 1
  }

  function NewDec(n: nat): Dec { n * ONE }

  function RoundInt(a: Dec): nat { Chop(a) }

  function Mul(a: Dec, b: Dec): Dec { Chop(a * b) }

  /** Truncates to 36 decimals first, then rounds to 18: two roundings. */
  function Quo(a: Dec, b: Dec): Dec
    requires b > 0
  {
    Chop(a * ONE * ONE / b)
  }

  // ---------- order ----------

  lemma ChopError(n: nat)
    ensures -ONE <= 2 * (Chop(n) * ONE - n) <= ONE
  {
  }

  lemma ChopMono(n: nat, m: nat)
    requires n <= m
    ensures Chop(n) <= Chop(m)
  {
  }

  lemma ChopExact(k: nat)
    ensures Chop(k * ONE) == k
  {
  }

  lemma DivBounds(n: nat, d: nat)
    requires d > 0
    ensures n / d * d <= n < n / d * d + d
  {
  }

  lemma MulLe(a: int, b: int, c: int)
    requires a <= b && 0 <= c
    ensures a * c <= b * c
  {
  }

  lemma CancelLe(a: int, b: int, c: int)
    requires a * c <= b * c && 0 < c
    ensures a <= b
  {
  }

  lemma DivAnti(n: nat, d: nat, d': nat)
    requires 0 < d <= d'
    ensures n / d' <= n / d
  {
    DivBounds(n, d);
    DivBounds(n, d');
    MulLe(d, d', n / d');
    if n / d' > n / d { MulLe(n / d + 1, n / d', d); }
  }

  lemma MulMono(a: Dec, b: Dec, a': Dec, b': Dec)
    requires a <= a' && b <= b'
    ensures Mul(a, b) <= Mul(a', b')
  {
    MulLe(a, a', b);
    MulLe(b, b', a');
    ChopMono(a * b, a' * b');
  }

  lemma QuoAnti(a: Dec, b: Dec, b': Dec)
    requires 0 < b <= b'
    ensures Quo(a, b') <= Quo(a, b)
  {
    DivAnti(a * ONE * ONE, b, b');
    ChopMono(a * ONE * ONE / b', a * ONE * ONE / b);
  }

  /** The rounded quotient never crosses a representable bound on the exact one. */
  lemma QuoLe(a: Dec, b: Dec, c: Dec)
    requires b > 0 && a * ONE <= c * b
    ensures Quo(a, b) <= c
  {
    var t := a * ONE * ONE / b;
    DivBounds(a * ONE * ONE, b);
    assert t * b <= (c * ONE) * b;
    CancelLe(t, c * ONE, b);
    ChopMono(t, c * ONE);
    ChopExact(c);
  }

  lemma QuoGe(a: Dec, b: Dec, c: Dec)
    requires b > 0 && c * b <= a * ONE
    ensures c <= Quo(a, b)
  {
    var t := a * ONE * ONE / b;
    DivBounds(a * ONE * ONE, b);
    assert (c * ONE) * b < (t + 1) * b;
    if t + 1 <= c * ONE { MulLe(t + 1, c * ONE, b); }
    ChopMono(c * ONE, t);
    ChopExact(c);
  }

  lemma QuoExact(a: Dec, b: Dec, c: Dec)
    requires b > 0 && a * ONE == c * b
    ensures Quo(a, b) == c
  {
    QuoLe(a, b, c);
    QuoGe(a, b, c);
  }

  lemma MulExact(a: Dec, b: Dec, c: Dec)
    requires a * b == c * ONE
    ensures Mul(a, b) == c
  {
    ChopExact(c);
  }

  // ---------- rounding error ----------

  /** The number a decimal stands for. */
  ghost function Val(a: int): real { a as real / 1000000000000000000.0 }

  ghost function Abs(x: real): real { if x < 0.0 then -x else x }

  /** The distance of two numbers, counted in units of the last decimal place. */
  ghost function Ulps(x: real, y: real): real { Abs(x - y) * 1000000000000000000.0 }

  lemma MulError(a: Dec, b: Dec)
    ensures Ulps(Val(Mul(a, b)), Val(a) * Val(b)) <= 0.5
  {
    ChopError(a * b);
  }

  lemma RoundIntError(a: Dec)
    ensures Ulps(RoundInt(a) as real, Val(a)) <= 500000000000000000.0
  {
    ChopError(a);
  }

  lemma Triangle(a: real, b: real, c: real)
    ensures Ulps(a, c) <= Ulps(a, b) + Ulps(b, c)
  {
  }

  lemma QuoBounds(a: Dec, b: Dec)
    requires b > 0
    ensures 2 * (Quo(a, b) * b) <= 2 * a * ONE + b
    ensures 2 * (Quo(a, b) * b) * ONE >= 2 * a * ONE * ONE - 2 * b - ONE * b
  {
    var t := a * ONE * ONE / b;
    DivBounds(a * ONE * ONE, b);
    ChopError(t);
    RoundedProduct(Quo(a, b), t, b);
  }

  lemma RoundedProduct(r: int, t: int, b: int)
    requires b > 0 && -ONE <= 2 * (r * ONE - t) <= ONE
    ensures -ONE * b <= 2 * (r * b) * ONE - 2 * (t * b) <= ONE * b
  {
    var u := r * ONE - t;
    assert u * b == (r * b) * ONE - t * b;
    MulLe(2 * u, ONE, b);
    MulLe(-ONE, 2 * u, b);
  }

  /** The exact quotient is passed as `q`. */
  lemma QuoError(a: Dec, b: Dec, q: real)
    requires b > 0 && q * Val(b) == Val(a)
    ensures Ulps(Val(Quo(a, b)), q) <= 0.51
  {
    QuoRealBounds(a, b);
    QuotientError(Quo(a, b) as real, a as real, b as real, q);
  }

  lemma QuoRealBounds(a: Dec, b: Dec)
    requires b > 0
    ensures var r, x, y := Quo(a, b) as real, a as real, b as real;
            && 2.0 * r * y <= 2.0 * x * 1000000000000000000.0 + y
            && 2.0 * r * y * 1000000000000000000.0 >=
               2.0 * x * 1000000000000000000.0 * 1000000000000000000.0 - 2.0 * y - 1000000000000000000.0 * y
  {
    QuoBounds(a, b);
  }

  lemma QuotientError(r: real, x: real, y: real, q: real)
    requires y > 0.0 && x == q * y
    requires 2.0 * r * y <= 2.0 * x * 1000000000000000000.0 + y
    requires 2.0 * r * y * 1000000000000000000.0 >=
             2.0 * x * 1000000000000000000.0 * 1000000000000000000.0 - 2.0 * y - 1000000000000000000.0 * y
    ensures Abs(r - q * 1000000000000000000.0) <= 0.51
  {
    var d := r - q * 1000000000000000000.0;
    assert d * y == r * y - x * 1000000000000000000.0;
    assert d <= 0.5;
    assert -0.51 <= d;
  }
}
