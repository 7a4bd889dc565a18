/**
 One swap against one pool (SwapOne in x/clp/keeper/calculations.go).
 */
module Pools {
  import opened Swap

  type Symbol = string

  /** The settlement asset; every pool pairs it with one external asset. */
  const NATIVE: Symbol := "aku"

  datatype Pool = Pool(native: nat, external: nat, units: nat) {
    predicate Positive() { native > 0 && external > 0 }
  }

  datatype SwapOutcome =
    | Swapped(result: nat, fee: nat, priceImpact: nat, pool: Pool)
    | NotEnoughAssetTokens

  function CalcPriceImpact(X: nat, x: nat): nat {
    if x == 0 then 0 else x / (x + X)
  }

  /** The inputs are chosen by the received asset, the update by the sent one. */
  function SwapOne(from: Symbol, sent: nat, to: Symbol, pool: Pool, n: Normalization): SwapOutcome
    requires n.Valid()
  {
    var toRowan := to == NATIVE;
    var (X, Y) := if toRowan then (pool.external, pool.native) else (pool.native, pool.external);
    var fee := CalcLiquidityFee(toRowan, n, X, sent, Y);
    var result := CalcSwapResult(toRowan, n, X, sent, Y);
    if result >= Y then NotEnoughAssetTokens
    else if from == NATIVE then
      Swapped(result, fee, CalcPriceImpact(X, sent), pool.(native := X + sent, external := Y - result))
    else
      Swapped(result, fee, CalcPriceImpact(X, sent), pool.(external := X + sent, native := Y - result))
  }

  /**
   A swap pays and charges what the curve says, from both sides, into and out of the balances that its
   direction names; it is refused only if the balance to pay from is no more than the curve's amount.
   */
  lemma SwapOneAccuracy(from: Symbol, sent: nat, to: Symbol, pool: Pool, n: Normalization)
    requires n.Valid()
    ensures var s, toRowan := SwapOne(from, sent, to, pool, n), to == NATIVE;
            var X, Y := if toRowan then pool.external else pool.native, if toRowan then pool.native else pool.external;
            && (s.Swapped? ==>
                  && OnCurve(false, toRowan, n, X, sent, Y, s.result) && s.result < Y
                  && OnCurve(true, toRowan, n, X, sent, Y, s.fee)
                  && s.priceImpact == (if X == 0 && sent > 0 then 1 else 0))
            && (s.NotEnoughAssetTokens? ==> exists y: nat :: y >= Y && OnCurve(false, toRowan, n, X, sent, Y, y))
  {
    hide CalcSwapResult, CalcLiquidityFee, OnCurve;
    var toRowan := to == NATIVE;
    var X, Y := if toRowan then pool.external else pool.native, if toRowan then pool.native else pool.external;
    AmountsOnCurve(toRowan, n, X, sent, Y);
  }

  /**
   Between the native and an external asset: what is sent is added on one side, what is paid is
   taken from the other, and both sides stay positive if they were (or if something is sent).
   */
  lemma SwapOneConserves(from: Symbol, sent: nat, to: Symbol, pool: Pool, n: Normalization)
    requires n.Valid() && (from == NATIVE) != (to == NATIVE)
    ensures var s := SwapOne(from, sent, to, pool, n);
            s.Swapped? ==>
              && s.pool.units == pool.units
              && (if to == NATIVE
                  then s.pool.external == pool.external + sent && s.pool.native + s.result == pool.native && s.pool.native > 0
                  else s.pool.native == pool.native + sent && s.pool.external + s.result == pool.external && s.pool.external > 0)
              && (pool.Positive() ==> s.pool.Positive())
              && (sent == 0 ==> s.result == 0 && s.pool == pool)
  {
    hide CurveAmount;
  }

  /** With at most 18 decimals the shortage branch is dead for a pool that holds the received asset. */
  lemma SwapOneAlwaysPays(from: Symbol, sent: nat, to: Symbol, pool: Pool, decimals: int)
    requires decimals <= 18
    requires if to == NATIVE then pool.native > 0 else pool.external > 0
    ensures SwapOne(from, sent, to, pool, GetNormalizationFactor(decimals)).Swapped?
  {
    hide CalcSwapResult, CalcLiquidityFee, GetNormalizationFactor;
    var toRowan := to == NATIVE;
    NeverEmpties(toRowan, decimals, if toRowan then pool.external else pool.native, sent,
                 if toRowan then pool.native else pool.external);
  }

  /** The product of the two balances falls at most by the rounding tolerance, and never when the fee covers it. */
  lemma SwapOneProduct(from: Symbol, sent: nat, to: Symbol, pool: Pool, decimals: int)
    requires decimals <= 18 && sent > 0 && pool.Positive() && (from == NATIVE) != (to == NATIVE)
    ensures var n := GetNormalizationFactor(decimals);
            var s, toRowan := SwapOne(from, sent, to, pool, n), to == NATIVE;
            var (X, Y) := if toRowan then (pool.external, pool.native) else (pool.native, pool.external);
            var tolerance := Tolerance(false, toRowan, n, X, sent, Y);
            && s.Swapped?
            && (s.pool.native * s.pool.external - pool.native * pool.external) as real * 1000000000000000000.0
               >= -((X + sent) as real * tolerance)
            && (ExactAmount(true, X, sent, Y) * 1000000000000000000.0 >= tolerance ==>
                  s.pool.native * s.pool.external >= pool.native * pool.external)
  {
    hide CalcSwapResult, CalcLiquidityFee, GetNormalizationFactor, Tolerance, ExactAmount;
    var toRowan := to == NATIVE;
    var (X, Y) := if toRowan then (pool.external, pool.native) else (pool.native, pool.external);
    NeverEmpties(toRowan, decimals, X, sent, Y);
    ProductKept(toRowan, decimals, X, sent, Y);
  }
}
