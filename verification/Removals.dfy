/**
 When a withdrawal goes through, in terms of the ledger and the payout alone, and whom it pays what.
 */
module Removals {
  import opened FixedPoint
  import opened Swap
  import opened Withdrawal
  import opened Pools
  import opened Ledger
  import opened Refunds
  import opened Invariants
  import opened Swaps

  /** The payout on units within the pool's total; it always exists. */
  function Owed(pool: Pool, units: nat, wBasis: nat, asymmetry: int): (pay: Payout)
    requires 0 < wBasis <= MAX_BASIS && -(MAX_BASIS as int) <= asymmetry <= MAX_BASIS
    requires 0 < units <= pool.units
    ensures pay.Payout? && pay.native <= pool.native && pay.external <= pool.external && pay.unitsLeft <= units
  {
    NoOverWithdrawal(pool.units, pool.native, pool.external, units, wBasis, asymmetry);
    CalculateWithdrawal(pool.units, pool.native, pool.external, units, wBasis, asymmetry)
  }

  /** The swap of an asymmetric withdrawal, against what the payout leaves in the pool. */
  function SwapOf(pool: Pool, s: Symbol, pay: Payout, asymmetry: int, n: Normalization): SwapOutcome
    requires pay.Payout? && pay.native <= pool.native && pay.external <= pool.external && n.Valid()
  {
    var rest := Pool(pool.native - pay.native, pool.external - pay.external, pool.units);
    if asymmetry > 0 then SwapOne(NATIVE, pay.swapAmount, s, rest, n) else SwapOne(s, pay.swapAmount, NATIVE, rest, n)
  }

  /** The coins of a withdrawal after its swap: native, then external. */
  function CoinsOf(pool: Pool, s: Symbol, pay: Payout, asymmetry: int, n: Normalization): (int, int)
    requires pay.Payout? && pay.native <= pool.native && pay.external <= pool.external && n.Valid()
  {
    if asymmetry == 0 then (pay.native, pay.external)
    else
      match SwapOf(pool, s, pay, asymmetry, n)
      case NotEnoughAssetTokens => (0, 0)
      case Swapped(result, _, _, _) =>
        if result == 0 then (pay.native, pay.external)
        else if asymmetry > 0 then (pay.native - pay.swapAmount, pay.external + result)
        else (pay.native + result, pay.external - pay.swapAmount)
  }

  /**
   The token may be traded, the pool and the record exist, the units lie within the pool's total, the
   payout leaves something of both assets, the swap can be made, and the module has the coins.
   */
  predicate CanRemove(st: State, env: Env, m: Msg)
    requires m.RemoveLiquidity? && m.Valid()
  {
    && m.symbol in env.registry && env.registry[m.symbol].clp
    && m.symbol in st.pools && (m.symbol, m.signer) in st.providers
    && var pool, units := st.pools[m.symbol], st.providers[(m.symbol, m.signer)];
       && 0 < units <= pool.units
       && var pay, n := Owed(pool, units, m.wBasis, m.asymmetry), GetNormalizationFactor(env.registry[m.symbol].decimals);
          && pay.native < pool.native && pay.external < pool.external
          && (m.asymmetry != 0 ==> SwapOf(pool, m.symbol, pay, m.asymmetry, n).Swapped?)
          && var (native, external) := CoinsOf(pool, m.symbol, pay, m.asymmetry, n);
             native <= Balance(st.bank, MODULE, NATIVE) && external <= Balance(st.bank, MODULE, m.symbol)
  }

  /** The unit count does not matter to a swap. */
  lemma UnitsIrrelevant(from: Symbol, sent: nat, to: Symbol, pool: Pool, units: nat, n: Normalization)
    requires n.Valid()
    ensures var p, q := SwapOne(from, sent, to, pool, n), SwapOne(from, sent, to, pool.(units := units), n);
            && (p.Swapped? <==> q.Swapped?)
            && (p.Swapped? ==> p.result == q.result && q.pool == p.pool.(units := units))
  {
    hide CalcSwapResult, CalcLiquidityFee;
  }

  /** After a payout that leaves something of both assets, the rebalancing fails only for want of a swap. */
  lemma RebalanceExactly(pool: Pool, units: nat, wBasis: nat, asymmetry: int, s: Symbol, n: Normalization)
    requires 0 < wBasis <= MAX_BASIS && -(MAX_BASIS as int) <= asymmetry <= MAX_BASIS
    requires 0 < units <= pool.units && s != NATIVE && n.Valid()
    ensures var pay := Owed(pool, units, wBasis, asymmetry);
            pay.native < pool.native && pay.external < pool.external ==>
              var rest := TakeOut(pool, units, pay);
              && rest.Ok?
              && var r := Rebalance(rest.value, s, pay, asymmetry, n);
                 && (r.Ok? <==> asymmetry != 0 ==> SwapOf(pool, s, pay, asymmetry, n).Swapped?)
                 && (r.Ok? ==>
                       && (r.value.native as int, r.value.external as int) == CoinsOf(pool, s, pay, asymmetry, n)
                       && r.value.native < pool.native && r.value.external < pool.external)
  {
    hide SwapOne, CalculateWithdrawal;
    var pay := Owed(pool, units, wBasis, asymmetry);
    PayoutOrder(pool.units, pool.native, pool.external, units, wBasis, asymmetry);
    var rest := Pool(pool.native - pay.native, pool.external - pay.external, pool.units);
    var left := pool.units - units + pay.unitsLeft;
    UnitsIrrelevant(NATIVE, pay.swapAmount, s, rest, left, n);
    UnitsIrrelevant(s, pay.swapAmount, NATIVE, rest, left, n);
    SwapOneConserves(NATIVE, pay.swapAmount, s, rest, n);
    SwapOneConserves(s, pay.swapAmount, NATIVE, rest, n);
  }

  /** A withdrawal, symmetric or not, goes through if and only if it can. */
  lemma RemovalExactly(st: State, env: Env, m: Msg)
    requires m.RemoveLiquidity? && m.Valid() && NATIVE !in st.pools
    ensures RemoveLiquidityStep(st, env, m).Ok? <==> CanRemove(st, env, m)
  {
    hide CalculateWithdrawal, SwapOf, CoinsOf, Rebalance, SendBoth, Balance, GetNormalizationFactor;
    if m.symbol in env.registry && m.symbol in st.pools && (m.symbol, m.signer) in st.providers {
      var pool, units := st.pools[m.symbol], st.providers[(m.symbol, m.signer)];
      var n := GetNormalizationFactor(env.registry[m.symbol].decimals);
      PayoutOrder(pool.units, pool.native, pool.external, units, m.wBasis, m.asymmetry);
      if 0 < units <= pool.units {
        var pay := Owed(pool, units, m.wBasis, m.asymmetry);
        RebalanceExactly(pool, units, m.wBasis, m.asymmetry, m.symbol, n);
        if m.asymmetry == 0 { PlainRebalance(pool, units, pay, m.symbol, n); }
        var (native, external) := CoinsOf(pool, m.symbol, pay, m.asymmetry, n);
        if native >= 0 && external >= 0 { SendBothMoves(st.bank, MODULE, m.signer, m.symbol, external, native); }
      }
    }
  }

  lemma PlainRebalance(pool: Pool, units: nat, pay: Payout, s: Symbol, n: Normalization)
    requires pay.Payout? && n.Valid() && TakeOut(pool, units, pay).Ok?
    ensures Rebalance(TakeOut(pool, units, pay).value, s, pay, 0, n) ==
            Ok(Rebalanced(TakeOut(pool, units, pay).value, pay.native, pay.external))
  {
  }

  /** With at most 18 decimals the swap can always be made. */
  lemma SwapAlwaysMade(pool: Pool, s: Symbol, pay: Payout, asymmetry: int, decimals: int)
    requires pay.Payout? && pay.native < pool.native && pay.external < pool.external && decimals <= 18 && s != NATIVE
    ensures SwapOf(pool, s, pay, asymmetry, GetNormalizationFactor(decimals)).Swapped?
  {
    hide SwapOne;
    var rest := Pool(pool.native - pay.native, pool.external - pay.external, pool.units);
    if asymmetry > 0 {
      SwapOneAlwaysPays(NATIVE, pay.swapAmount, s, rest, decimals);
    } else {
      SwapOneAlwaysPays(s, pay.swapAmount, NATIVE, rest, decimals);
    }
  }

  // ---------- what a withdrawal does ----------

  /** Both payouts, the units left and the amount to swap are the proportional ones. */
  ghost predicate Proportional(pay: Payout, pool: Pool, units: nat, wBasis: nat, asymmetry: int)
    requires pay.Payout? && pool.units > 0 && -(MAX_BASIS as int) <= asymmetry <= MAX_BASIS
  {
    var c := ExactClaim(units as real, wBasis);
    && PaidFor(pay.native, pool.native, pool.units, c, 5102.0)
    && PaidFor(pay.external, pool.external, pool.units, c, 5102.0)
    && pay.unitsLeft <= units && Ulps(pay.unitsLeft as real, units as real - c) <= 500000000000000000.0 + 5101.0 * c
    && (asymmetry > 0 ==> PaidFor(pay.swapAmount, pool.native, pool.units, ExactClaim(c, asymmetry), 51005103.0))
    && (asymmetry < 0 ==> PaidFor(pay.swapAmount, pool.external, pool.units, ExactClaim(c, -asymmetry), 51005103.0))
  }

  /**
   The signer receives the proportional payout, part of it exchanged against what is left in the pool for
   what the curve gives, if it gives anything; its record keeps the units left; nobody else but the module is touched.
   */
  ghost predicate RemovedTo(st: State, env: Env, m: Msg, after: State, pay: Payout, result: nat)
    requires m.RemoveLiquidity? && m.Valid() && CanRemove(st, env, m)
  {
    var key, pool, n := (m.symbol, m.signer), st.pools[m.symbol], FactorOf(env, m.symbol);
    var units := st.providers[key];
    && pay.Payout? && Proportional(pay, pool, units, m.wBasis, m.asymmetry)
    && pay.native < pool.native && pay.external < pool.external && m.symbol in after.pools
    && var rest := Pool(pool.native - pay.native, pool.external - pay.external, pool.units - units + pay.unitsLeft);
       var given := if result == 0 then 0 else pay.swapAmount;
       && (m.asymmetry == 0 ==> result == 0 && after.pools[m.symbol] == rest)
       && (m.asymmetry > 0 ==> Leg(false, n, rest, pay.swapAmount, result, after.pools[m.symbol]))
       && (m.asymmetry < 0 ==> Leg(true, n, rest, pay.swapAmount, result, after.pools[m.symbol]))
       && after.pools == st.pools[m.symbol := after.pools[m.symbol]]
       && after.providers == (if pay.unitsLeft == 0 then st.providers - {key} else st.providers[key := pay.unitsLeft])
       && PaidOut(st.bank, after.bank, m.signer, m.symbol,
                  pay.external + (if m.asymmetry > 0 then result else -given),
                  pay.native + (if m.asymmetry > 0 then -given else result))
  }

  /** Both coins leave the module for the signer, and no other account changes. */
  ghost predicate PaidOut(before: Bank, after: Bank, signer: Address, s: Symbol, external: int, native: int) {
    && Balance(after, signer, s) == Balance(before, signer, s) + external
    && Balance(after, signer, NATIVE) == Balance(before, signer, NATIVE) + native
    && Balance(after, MODULE, s) == Balance(before, MODULE, s) - external
    && Balance(after, MODULE, NATIVE) == Balance(before, MODULE, NATIVE) - native
    && forall a, d | (a != signer && a != MODULE) || (d != s && d != NATIVE) :: Balance(after, a, d) == Balance(before, a, d)
  }

  /** The rebalancing as a leg against the pool that the payout left. */
  lemma RebalanceLeg(rest: Pool, s: Symbol, pay: Payout, asymmetry: int, n: Normalization) returns (result: nat)
    requires s != NATIVE && pay.Payout? && n.Valid() && Rebalance(rest, s, pay, asymmetry, n).Ok?
    ensures var out, given := Rebalance(rest, s, pay, asymmetry, n).value, if result == 0 then 0 else pay.swapAmount;
            && (asymmetry == 0 ==> result == 0 && out.pool == rest)
            && (asymmetry > 0 ==> Leg(false, n, rest, pay.swapAmount, result, out.pool))
            && (asymmetry < 0 ==> Leg(true, n, rest, pay.swapAmount, result, out.pool))
            && out.external == pay.external + (if asymmetry > 0 then result else -given)
            && out.native == pay.native + (if asymmetry > 0 then -given else result)
  {
    hide SwapOne, Leg;
    result := 0;
    if asymmetry > 0 {
      LegMade(false, s, pay.swapAmount, rest, n);
      result := SwapOne(NATIVE, pay.swapAmount, s, rest, n).result;
    } else if asymmetry < 0 {
      LegMade(true, s, pay.swapAmount, rest, n);
      result := SwapOne(s, pay.swapAmount, NATIVE, rest, n).result;
    }
  }

  /** Every withdrawal that goes through pays the signer, and nobody else, the proportional coins. */
  lemma RemovalPays(st: State, env: Env, m: Msg) returns (pay: Payout, result: nat)
    requires m.RemoveLiquidity? && m.Valid() && Inv(st) && RemoveLiquidityStep(st, env, m).Ok?
    ensures CanRemove(st, env, m) && RemovedTo(st, env, m, RemoveLiquidityStep(st, env, m).value, pay, result)
  {
    RemovalExactly(st, env, m);
    pay, result := RemovalParts(st, env, m);
  }

  lemma RemovalParts(st: State, env: Env, m: Msg) returns (pay: Payout, result: nat)
    requires m.RemoveLiquidity? && m.Valid() && Inv(st) && RemoveLiquidityStep(st, env, m).Ok? && CanRemove(st, env, m)
    ensures RemovedTo(st, env, m, RemoveLiquidityStep(st, env, m).value, pay, result)
  {
    hide RemoveLiquidityStep, RemovalOf, Rebalance, PaidFor, ExactClaim, Ulps, SendBoth, Balance, Leg, ProvidersOf,
         CalculateWithdrawal, SwapOf, CoinsOf;
    RemovalEffect(st, env, m);
    RemovalAccuracy(st, env, m);
    RemovalSource(st, env, m);
    var x := RemovalOf(st, env, m);
    pay := x.pay;
    result := RebalanceLeg(x.rest, m.symbol, x.pay, m.asymmetry, x.n);
    SendBothMoves(st.bank, MODULE, m.signer, m.symbol, x.out.external, x.out.native);
  }

  lemma RemovalSource(st: State, env: Env, m: Msg)
    requires m.RemoveLiquidity? && m.Valid() && NATIVE !in st.pools
    requires RemoveLiquidityStep(st, env, m).Ok? && CanRemove(st, env, m)
    ensures var x := RemovalOf(st, env, m);
            && x.n == FactorOf(env, m.symbol) && x.lpUnits == st.providers[(m.symbol, m.signer)] && x.pay.Payout?
            && x.pay.unitsLeft <= x.lpUnits && x.pay.native < x.pool.native && x.pay.external < x.pool.external
  {
    hide CalculateWithdrawal, SwapOf, CoinsOf, GetNormalizationFactor, Rebalance, SendBoth, Balance;
  }
}
