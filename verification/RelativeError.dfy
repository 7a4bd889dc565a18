/**
 A small algebra of relative errors for chains of rounded multiplications and divisions.
 Errors are counted in units of 10^-18.  Products are passed to the lemmas by name, so that
 each proof step is linear in the names.
 */
module RelativeError {
  import opened FixedPoint

  /** `v` is `e` up to a relative error of `k` units; at most 10^-10 in all. */
  ghost predicate Near(v: real, e: real, k: real) {
    && e > 0.0
    && 0.0 <= k <= 100000000.0
    && Ulps(v, e) <= k * e
  }

  lemma Scale(a: real, b: real, c: real, ac: real, bc: real)
    requires a <= b && 0.0 <= c && ac == a * c && bc == b * c
    ensures ac <= bc
  {
  }

  lemma Cancel(a: real, b: real, c: real, ac: real, bc: real)
    requires ac <= bc && 0.0 < c && ac == a * c && bc == b * c
    ensures a <= b
  {
  }

  lemma AbsMul(a: real, b: real)
    ensures Abs(a * b) == Abs(a) * Abs(b)
  {
  }

  lemma NearClose(v: real, e: real, k: real)
    requires Near(v, e, k)
    ensures 0.0 < v
    ensures -e <= 10000000000.0 * (v - e) <= e
  {
    Scale(k, 100000000.0, e, k * e, 100000000.0 * e);
  }

  // ---------- products:  v w - e f == (v - e) w + e (w - f) ----------

  lemma NearMul(v: real, e: real, j: real, w: real, f: real, k: real, vw: real, ef: real)
    requires Near(v, e, j) && Near(w, f, k)
    requires vw == v * w && ef == e * f
    requires j + k + 0.01 <= 100000000.0
    ensures Near(vw, ef, j + k + 0.01)
  {
    NearClose(w, f, k);
    MulSplit(v, e, w, f, vw, ef, Ulps(v, e) * w, Ulps(w, f) * e);
    MulBound(e, j, Ulps(v, e), w, f, k, Ulps(w, f), ef, Ulps(v, e) * w, Ulps(w, f) * e);
    Scale(0.0, e, f, 0.0, ef);
    if ef == 0.0 { Cancel(e, 0.0, f, ef, 0.0); }
  }

  lemma MulSplit(v: real, e: real, w: real, f: real, vw: real, ef: real, p: real, q: real)
    requires 0.0 <= w && 0.0 <= e && vw == v * w && ef == e * f
    requires p == Ulps(v, e) * w && q == Ulps(w, f) * e
    ensures Ulps(vw, ef) <= p + q
  {
    AbsMul(v - e, w);
    AbsMul(w - f, e);
    assert vw - ef == (v - e) * w + (w - f) * e;
  }

  lemma MulBound(e: real, j: real, dv: real, w: real, f: real, k: real, dw: real, ef: real, p: real, q: real)
    requires 0.0 < e && 0.0 < f && 0.0 <= j <= 100000000.0 && 0.0 <= k <= 100000000.0
    requires 0.0 <= w && 10000000000.0 * (w - f) <= f
    requires dv <= j * e && dw <= k * f
    requires ef == e * f && p == dv * w && q == dw * e
    ensures 0.0 <= ef && p + q <= (j + k + 0.01) * ef
  {
    Scale(0.0, e, f, 0.0, ef);
    Scale(dw, k * f, e, q, k * ef);
    var we := w * e;
    Scale(dv, j * e, w, p, j * we);
    Scale(10000000000.0 * (w - f), f, e, 10000000000.0 * (we - ef), ef);
    Slack(we, ef, j, j * we, j * ef);
    assert (j + k + 0.01) * ef == j * ef + k * ef + 0.01 * ef;
  }

  lemma Slack(x: real, g: real, j: real, jx: real, jg: real)
    requires 0.0 <= g && 10000000000.0 * (x - g) <= g && 0.0 <= j <= 100000000.0
    requires jx == j * x && jg == j * g
    ensures jx <= jg + 0.01 * g
  {
    var h := x - g;
    var jh := j * h;
    assert jx == jg + jh;
    Scale(10000000000.0 * h, g, j, 10000000000.0 * jh, jg);
    Scale(j, 100000000.0, g, jg, 100000000.0 * g);
  }

  // ---------- quotients q w == v, g f == e:  (q - g) w == (v - e) + g (f - w) ----------

  lemma NearDiv(v: real, e: real, j: real, w: real, f: real, k: real, q: real, g: real)
    requires Near(v, e, j) && Near(w, f, k)
    requires q * w == v && g * f == e
    requires j + k + 0.01 <= 100000000.0
    ensures Near(q, g, j + k + 0.01)
  {
    NearClose(w, f, k);
    if g <= 0.0 { Scale(g, 0.0, f, e, 0.0); }
    DivSplit(v, e, w, f, q, g, Ulps(q, g) * w, Ulps(w, f) * g);
    DivBound(Ulps(q, g), Ulps(v, e), j, Ulps(w, f), k, w, f, g, e, Ulps(q, g) * w, Ulps(w, f) * g);
  }

  lemma DivSplit(v: real, e: real, w: real, f: real, q: real, g: real, p: real, r: real)
    requires 0.0 < w && 0.0 <= g && q * w == v && g * f == e
    requires p == Ulps(q, g) * w && r == Ulps(w, f) * g
    ensures p <= Ulps(v, e) + r
  {
    AbsMul(q - g, w);
    AbsMul(f - w, g);
    assert (q - g) * w == (v - e) + (f - w) * g;
  }

  lemma DivBound(dq: real, dv: real, j: real, dw: real, k: real, w: real, f: real, g: real, e: real, p: real, r: real)
    requires 0.0 < f && 0.0 < g && 0.0 < w && 0.0 <= j && 0.0 <= k && j + k + 0.01 <= 100000000.0
    requires e == g * f && dv <= j * e && dw <= k * f
    requires 10000000000.0 * (f - w) <= f
    requires p == dq * w && r == dw * g && p <= dv + r
    ensures dq <= (j + k + 0.01) * g
  {
    Scale(dw, k * f, g, r, k * e);
    var n := j + k + 0.01;
    var gw := g * w;
    Scale(10000000000.0 * (f - w), f, g, 10000000000.0 * (e - gw), e);
    // (j + k) e <= n gw, because e <= gw + e / 10^10
    assert (j + k) * e == j * e + k * e;
    Shrink(j + k, e, gw, (j + k) * e, n * gw);
    Cancel(dq, n * g, w, p, n * gw);
  }

  lemma Shrink(m: real, e: real, x: real, me: real, nx: real)
    requires 0.0 <= m && m + 0.01 <= 100000000.0 && 0.0 <= e && 10000000000.0 * (e - x) <= e
    requires me == m * e && nx == (m + 0.01) * x
    ensures me <= nx
  {
    var h, n := e - x, m + 0.01;
    var nh, ne := n * h, n * e;
    assert nx == ne - nh;
    assert ne == me + 0.01 * e;
    Scale(10000000000.0 * h, e, n, 10000000000.0 * nh, ne);
    Scale(n, 100000000.0, e, ne, 100000000.0 * e);
  }

  lemma NearSum(v: real, e: real, w: real, f: real, k: real)
    requires Near(v, e, k) && Near(w, f, k)
    ensures Near(v + w, e + f, k)
  {
    assert k * (e + f) == k * e + k * f;
  }

  lemma DivDef(v: real, w: real)
    requires w != 0.0
    ensures v / w * w == v
  {
  }

  /** An absolute error that is small against `e` is a relative error. */
  lemma NearRound(v: real, w: real, e: real, j: real, err: real, k: real)
    requires Near(v, e, j)
    requires Ulps(w, v) <= err <= k * e
    requires 0.0 <= k && j + k <= 100000000.0
    ensures Near(w, e, j + k)
  {
    assert (j + k) * e == j * e + k * e;
  }
}
