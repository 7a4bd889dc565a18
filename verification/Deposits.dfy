/**
 When a pool can be created or added to, and what such a message then does to pools, records and accounts.
 */
module Deposits {
  import opened FixedPoint
  import opened Swap
  import opened PoolUnits
  import opened Minting
  import opened Dilution
  import opened Pools
  import opened Ledger
  import opened Refunds

  /** Both coins leave the signer for the module, and no other account changes. */
  ghost predicate PaidIn(before: Bank, after: Bank, signer: Address, s: Symbol, external: nat, native: nat) {
    && Balance(after, signer, s) == Balance(before, signer, s) - external
    && Balance(after, signer, NATIVE) == Balance(before, signer, NATIVE) - native
    && Balance(after, MODULE, s) == Balance(before, MODULE, s) + external
    && Balance(after, MODULE, NATIVE) == Balance(before, MODULE, NATIVE) + native
    && forall a, d | (a != signer && a != MODULE) || (d != s && d != NATIVE) :: Balance(after, a, d) == Balance(before, a, d)
  }

  // ---------- creating a pool ----------

  /** At least 10^18 native coins, a token that may be traded, no such pool yet, and both coins in hand. */
  predicate CanCreate(st: State, env: Env, m: Msg)
    requires m.CreatePool?
  {
    && m.native >= 1_000_000_000_000_000_000
    && m.symbol in env.registry && env.registry[m.symbol].clp
    && m.symbol !in st.pools
    && m.external <= Balance(st.bank, m.signer, m.symbol) && m.native <= Balance(st.bank, m.signer, NATIVE)
  }

  /** The units of a new pool: its native coins, times the power of ten by which the decimals exceed 18. */
  function FirstUnits(native: nat, decimals: int): nat {
    native * if decimals > 18 then Pow10(decimals - 18) else 1
  }

  ghost predicate CreatedTo(st: State, env: Env, m: Msg, after: State)
    requires m.CreatePool? && m.symbol in env.registry
  {
    var units := FirstUnits(m.native, env.registry[m.symbol].decimals);
    && after.pools == st.pools[m.symbol := Pool(m.native, m.external, units)]
    && after.providers == st.providers[(m.symbol, m.signer) := units]
    && PaidIn(st.bank, after.bank, m.signer, m.symbol, m.external, m.native)
  }

  lemma FirstUnitsComputed(native: nat, external: nat, decimals: int)
    requires native > 0 && external > 0
    ensures var units := FirstUnits(native, decimals);
            CalculatePoolUnits(0, 0, 0, native, external, GetNormalizationFactor(decimals)) == Units(units, units)
  {
    hide Chop, Stake, Pow10;
    var n := GetNormalizationFactor(decimals);
    ChopExact(if decimals < 18 then Pow10(18 - decimals) else if decimals > 18 then Pow10(decimals - 18) else 1);
    MulLe(1, RoundInt(n.factor), native);
    MulLe(1, RoundInt(n.factor), external);
  }

  /** A pool is created if and only if it can be; its units are the native coins up to 18 decimals. */
  lemma CreateExactly(st: State, env: Env, m: Msg)
    requires m.CreatePool? && m.Valid()
    ensures var r := CreatePoolStep(st, env, m);
            && (r.Ok? <==> CanCreate(st, env, m))
            && (r == Err(TotalAmountTooLow) <==> m.native < 1_000_000_000_000_000_000)
            && (r.Ok? ==> m.symbol in env.registry && CreatedTo(st, env, m, r.value))
  {
    hide SendBoth, Balance, CalculatePoolUnits, GetNormalizationFactor, FirstUnits;
    SendBothMoves(st.bank, m.signer, MODULE, m.symbol, m.external, m.native);
    SendBothError(st.bank, m.signer, MODULE, m.symbol, m.external, m.native);
    if m.symbol in env.registry { FirstUnitsComputed(m.native, m.external, env.registry[m.symbol].decimals); }
  }

  lemma SendBothError(bank: Bank, from: Address, to: Address, s: Symbol, external: nat, native: nat)
    ensures var r := SendBoth(bank, from, to, s, external, native); r.Err? ==> r == Err(BalanceNotAvailable)
  {
  }

  // ---------- adding to a pool ----------

  /** A token that may be traded, a pool that then holds both assets, and both coins in hand. */
  predicate CanAdd(st: State, env: Env, m: Msg)
    requires m.AddLiquidity?
  {
    && m.symbol in env.registry && env.registry[m.symbol].clp
    && m.symbol in st.pools
    && st.pools[m.symbol].native + m.native > 0 && st.pools[m.symbol].external + m.external > 0
    && m.external <= Balance(st.bank, m.signer, m.symbol) && m.native <= Balance(st.bank, m.signer, NATIVE)
  }

  /**
   Units minted on top of P and a new total that follow the exact formula; into a pool that lacks one of
   the assets, the total starts again from the native deposit.
   */
  ghost predicate MintedFor(pool: Pool, native: nat, external: nat, n: Normalization, minted: nat, total: nat)
    requires n.Valid()
  {
    var (P, R, A) := (pool.units, pool.native, pool.external);
    if pool.Positive() then
      var s, u := ExactMint(P, R, A, native, external), ExactShare(P, R, A, native, external);
      && Ulps(minted as real, s) <= MintTolerance(DepositExponent(P, R, A, native, external, n), P, u)
      && Ulps(total as real, P as real + s) <= Slack(P as real, u)
    else minted == total == if n.adjustExternal then native else native * RoundInt(n.factor)
  }

  lemma MintComputed(pool: Pool, native: nat, external: nat, n: Normalization)
    requires n.Valid() && (native > 0 || external > 0)
    ensures var out := CalculatePoolUnits(pool.units, pool.native, pool.external, native, external, n);
            && (out.Units? <==> pool.native + native > 0 && pool.external + external > 0)
            && (out.Units? ==> MintedFor(pool, native, external, n, out.minted, out.total))
  {
    hide Chop, Stake, ExactMint, ExactShare, ExactSlip, Ulps, MintTolerance, Slack, DepositExponent, CalculatePoolUnits;
    var (P, R, A) := (pool.units, pool.native, pool.external);
    if pool.Positive() {
      var u, g := ExactShare(P, R, A, native, external), ExactSlip(R, A, native, external);
      MintAccuracy(P, R, A, native, external, n, u, g);
      MintIs(P, R, A, native, external, u, g);
      TotalAccuracy(P, R, A, native, external, n);
    } else {
      LopsidedMint(pool, native, external, n);
    }
  }

  lemma LopsidedMint(pool: Pool, native: nat, external: nat, n: Normalization)
    requires n.Valid() && (native > 0 || external > 0) && !pool.Positive()
    ensures var out := CalculatePoolUnits(pool.units, pool.native, pool.external, native, external, n);
            var units := if n.adjustExternal then native else native * RoundInt(n.factor);
            if pool.native + native > 0 && pool.external + external > 0 then out == Units(units, units) else !out.Units?
  {
    hide Chop, Stake;
    FactorWhole(n);
    var nf := RoundInt(n.factor);
    forall v: nat ensures v > 0 <==> v * nf > 0 { if v > 0 { MulLe(1, nf, v); } }
  }

  /** The record of the signer and the total grow by the formula's units, for old and new providers. */
  ghost predicate AddedTo(st: State, env: Env, m: Msg, after: State)
    requires m.AddLiquidity? && m.symbol in env.registry && m.symbol in st.pools
  {
    var key, pool := (m.symbol, m.signer), st.pools[m.symbol];
    var had := if key in st.providers then st.providers[key] else 0;
    && m.symbol in after.pools && key in after.providers && after.providers[key] >= had
    && var minted, total := after.providers[key] - had, after.pools[m.symbol].units;
       && MintedFor(pool, m.native, m.external, GetNormalizationFactor(env.registry[m.symbol].decimals), minted, total)
       && after.pools == st.pools[m.symbol := Pool(pool.native + m.native, pool.external + m.external, total)]
       && after.providers == st.providers[key := had + minted]
       && PaidIn(st.bank, after.bank, m.signer, m.symbol, m.external, m.native)
  }

  /** Liquidity is added if and only if it can be, and the signer is credited with the formula's units. */
  lemma AddExactly(st: State, env: Env, m: Msg)
    requires m.AddLiquidity? && m.Valid()
    ensures var r := AddLiquidityStep(st, env, m);
            && (r.Ok? <==> CanAdd(st, env, m))
            && (r.Ok? ==> m.symbol in env.registry && m.symbol in st.pools && AddedTo(st, env, m, r.value))
  {
    hide SendBoth, Balance, CalculatePoolUnits, GetNormalizationFactor, MintedFor;
    SendBothMoves(st.bank, m.signer, MODULE, m.symbol, m.external, m.native);
    if m.symbol in env.registry && m.symbol in st.pools {
      MintComputed(st.pools[m.symbol], m.native, m.external, GetNormalizationFactor(env.registry[m.symbol].decimals));
    }
  }
}
