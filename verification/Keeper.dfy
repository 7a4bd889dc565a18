/**
 The message handlers as they run: a keeper whose store and bank are updated in place, with
 early returns, and a delivery that discards the writes of a failed message.  Each handler is
 proved to compute the ledger transition of the same name.
 */
module Keeper {
  import opened Swap
  import opened PoolUnits
  import opened Withdrawal
  import opened Pools
  import opened Ledger
  import opened Invariants

  /** How a handler ends. */
  datatype Status = Done | Failed(error: Error)

  class ClpKeeper {
    var pools: map<Symbol, Pool>
    var providers: ProviderStore
    var bank: Bank

    constructor (st: State)
      ensures View() == st
    {
      pools, providers, bank := st.pools, st.providers, st.bank;
    }

    function View(): State
      reads this
    {
      State(pools, providers, bank)
    }

    /** The handler did what the transition says; after an error the store may be half written. */
    ghost predicate Follows(r: Result<State>, status: Status)
      reads this
    {
      match r
      case Ok(st) => status == Done && View() == st
      case Err(e) => status == Failed(e)
    }

    /** SendCoins: either the whole amount moves or nothing does. */
    method SendCoins(from: Address, to: Address, s: Symbol, amount: nat) returns (ok: bool)
      modifies this`bank
      ensures Send(old(bank), from, to, s, amount) == if ok then Ok(bank) else Err(BalanceNotAvailable)
      ensures !ok ==> bank == old(bank)
    {
      if Balance(bank, from, s) < amount { return false; }
      bank := bank[(from, s) := Balance(bank, from, s) - amount];
      bank := bank[(to, s) := Balance(bank, to, s) + amount];
      return true;
    }

    method SendCoinPair(from: Address, to: Address, s: Symbol, external: nat, native: nat) returns (ok: bool)
      modifies this`bank
      ensures SendBoth(old(bank), from, to, s, external, native) == if ok then Ok(bank) else Err(BalanceNotAvailable)
      ensures !ok ==> bank == old(bank)
    {
      var before := bank;
      ok := SendCoins(from, to, s, external);
      if !ok { return; }
      ok := SendCoins(from, to, NATIVE, native);
      if !ok { bank := before; }
    }

    method CreatePoolHandler(env: Env, m: Msg) returns (status: Status)
      requires m.CreatePool? && m.Valid()
      modifies this
      ensures Follows(CreatePoolStep(old(View()), env, m), status)
    {
      hide SendBoth, GetNormalizationFactor, CalculatePoolUnits;
      if m.native < POOL_THRESHOLD { return Failed(TotalAmountTooLow); }
      var n := Permitted(env, m.symbol);
      if n.Err? { return Failed(n.error); }
      if m.symbol in pools { return Failed(UnableToCreatePool); }
      var units := CalculatePoolUnits(0, 0, 0, m.native, m.external, n.value);
      if !units.Units? { return Failed(UnitsNotComputed); }
      var paid := SendCoinPair(m.signer, MODULE, m.symbol, m.external, m.native);
      if !paid { return Failed(BalanceNotAvailable); }
      pools := pools[m.symbol := Pool(m.native, m.external, units.total)];
      providers := providers[(m.symbol, m.signer) := units.minted];
      return Done;
    }

    method AddLiquidityHandler(env: Env, m: Msg) returns (status: Status)
      requires m.AddLiquidity? && m.Valid()
      modifies this
      ensures Follows(AddLiquidityStep(old(View()), env, m), status)
    {
      hide SendBoth, GetNormalizationFactor, CalculatePoolUnits;
      var n := Permitted(env, m.symbol);
      if n.Err? { return Failed(n.error); }
      if m.symbol !in pools { return Failed(PoolDoesNotExist); }
      var pool := pools[m.symbol];
      var units := CalculatePoolUnits(pool.units, pool.native, pool.external, m.native, m.external, n.value);
      if !units.Units? { return Failed(UnitsNotComputed); }
      var paid := SendCoinPair(m.signer, MODULE, m.symbol, m.external, m.native);
      if !paid { return Failed(BalanceNotAvailable); }
      pool := Pool(pool.native + m.native, pool.external + m.external, units.total);
      // a new provider is stored with the minted units first, and then has nothing to add
      var key, minted := (m.symbol, m.signer), units.minted;
      if key !in providers {
        providers := providers[key := minted];
        minted := 0;
      }
      pools := pools[m.symbol := pool];
      providers := providers[key := providers[key] + minted];
      return Done;
    }

    method RemoveLiquidityHandler(env: Env, m: Msg) returns (status: Status)
      requires m.RemoveLiquidity? && m.Valid()
      modifies this
      ensures Follows(RemoveLiquidityStep(old(View()), env, m), status)
    {
      hide SwapOne, CalculateWithdrawal, SendBoth, GetNormalizationFactor;
      var permitted := Permitted(env, m.symbol);
      if permitted.Err? { return Failed(permitted.error); }
      var n := permitted.value;
      if m.symbol !in pools { return Failed(PoolDoesNotExist); }
      var pool, key := pools[m.symbol], (m.symbol, m.signer);
      if key !in providers { return Failed(LiquidityProviderDoesNotExist); }
      var lpUnits := providers[key];
      var originalExternal, originalNative := pool.external, pool.native;
      var pay := CalculateWithdrawal(pool.units, pool.native, pool.external, lpUnits, m.wBasis, m.asymmetry);
      if pay.DivisionByZero? { return Failed(Panic); }
      var externalCoin, nativeCoin := pay.external, pay.native;
      if pool.units < lpUnits || pool.native < pay.native || pool.external < pay.external { return Failed(Panic); }
      pool := Pool(pool.native - pay.native, pool.external - pay.external, pool.units - lpUnits + pay.unitsLeft);
      if m.asymmetry != 0 && (pool.external == 0 || pool.native == 0) { return Failed(PoolTooShallow); }
      if m.asymmetry > 0 {
        var swap := SwapOne(NATIVE, pay.swapAmount, m.symbol, pool, n);
        if swap.NotEnoughAssetTokens? { return Failed(UnableToSwap); }
        if swap.result != 0 {
          externalCoin := externalCoin + swap.result;
          if nativeCoin < pay.swapAmount { return Failed(Panic); }
          nativeCoin := nativeCoin - pay.swapAmount;
        }
        pool := swap.pool;
      }
      if m.asymmetry < 0 {
        var swap := SwapOne(m.symbol, pay.swapAmount, NATIVE, pool, n);
        if swap.NotEnoughAssetTokens? { return Failed(UnableToSwap); }
        if swap.result != 0 {
          nativeCoin := nativeCoin + swap.result;
          if externalCoin < pay.swapAmount { return Failed(Panic); }
          externalCoin := externalCoin - pay.swapAmount;
        }
        pool := swap.pool;
      }
      if externalCoin >= originalExternal || nativeCoin >= originalNative { return Failed(PoolTooShallow); }
      pools := pools[m.symbol := pool];
      var paid := SendCoinPair(MODULE, m.signer, m.symbol, externalCoin, nativeCoin);
      if !paid { return Failed(NotEnoughLiquidity); }
      if pay.unitsLeft == 0 {
        providers := providers - {key};
      } else {
        providers := providers[key := pay.unitsLeft];
      }
      return Done;
    }

    method SwapHandler(env: Env, m: Msg) returns (status: Status)
      requires m.SwapAssets? && m.Valid()
      modifies this
      ensures Follows(SwapStep(old(View()), env, m), status)
    {
      hide SwapOne, Send, GetNormalizationFactor;
      if m.sent !in env.registry || m.received !in env.registry { return Failed(TokenNotSupported); }
      if !env.registry[m.sent].clp || !env.registry[m.received].clp { return Failed(PermissionDenied); }
      if m.sent != NATIVE && m.sent !in pools { return Failed(PoolDoesNotExist); }
      var paid := SendCoins(m.signer, MODULE, m.sent, m.amount);
      if !paid { return Failed(BalanceNotAvailable); }
      var from, amount := m.sent, m.amount;
      if m.sent != NATIVE && m.received != NATIVE {
        var leg := SwapOne(m.sent, m.amount, NATIVE, pools[m.sent], GetNormalizationFactor(env.registry[m.sent].decimals));
        if leg.NotEnoughAssetTokens? { return Failed(UnableToSwap); }
        pools := pools[m.sent := leg.pool];
        from, amount := NATIVE, leg.result;
      }
      var key := if m.received == NATIVE then m.sent else m.received;
      if key !in pools { return Failed(PoolDoesNotExist); }
      var swap := SwapOne(from, amount, m.received, pools[key], GetNormalizationFactor(env.registry[key].decimals));
      if swap.NotEnoughAssetTokens? { return Failed(UnableToSwap); }
      if swap.result < m.minReceiving { return Failed(ReceivedAmountBelowExpected); }
      pools := pools[key := swap.pool];
      paid := SendCoins(MODULE, m.signer, m.received, swap.result);
      if !paid { return Failed(BalanceNotAvailable); }
      return Done;
    }

    method DecommissionHandler(env: Env, m: Msg) returns (status: Status)
      requires m.DecommissionPool? && m.Valid()
      modifies this
      ensures Follows(DecommissionStep(old(View()), env, m), status)
    {
      if m.symbol !in pools { return Failed(PoolDoesNotExist); }
      hide RefundAll, ProvidersOf;
      var pool, s := pools[m.symbol], m.symbol;
      if m.signer !in env.admins { return Failed(NotPermitted); }
      if pool.native >= POOL_THRESHOLD { return Failed(BalanceTooHigh); }
      var error := RefundProviders(pool, s, env.listing);
      if error.Failed? { return error; }
      pools := pools - {s};
      return Done;
    }

    /** Refunds the listed providers one by one, against running balances, and deletes their records. */
    method RefundProviders(pool: Pool, s: Symbol, listing: seq<Address>) returns (status: Status)
      modifies this`providers, this`bank
      ensures var r := RefundAll(StartRefund(old(View()), s, pool), pool, s, listing);
              && (r.Ok? ==> status == Done && bank == r.value.bank
                            && providers == old(providers) - (set a | a in listing :: (s, a)))
              && (r.Err? ==> status == Failed(r.error))
    {
      hide RefundOf, SendBoth, ProvidersOf, RefundAll;
      ghost var start := StartRefund(View(), s, pool);
      var left := ProvidersOf(View(), s);
      var units: nat, native: nat, external: nat := pool.units, pool.native, pool.external;
      RefundNone(start, pool, s);
      for i := 0 to |listing|
        invariant providers == old(providers) - (set a | a in listing[..i] :: (s, a))
        invariant RefundAll(start, pool, s, listing[..i]) == Ok(Refunding(units, native, external, bank, left))
      {
        var a := listing[i];
        RefundUnroll(start, pool, s, listing, i);
        if a !in left { return Failed(Panic); }
        var pay := RefundOf(pool, left[a]);
        if pay.DivisionByZero? || units < left[a] || native < pay.native || external < pay.external { return Failed(Panic); }
        units, native, external := units - left[a], native - pay.native, external - pay.external;
        var paid := SendCoinPair(MODULE, a, s, pay.external, pay.native);
        if !paid { return Failed(BalanceNotAvailable); }
        providers := providers - {(s, a)};
        left := left - {a};
        assert listing[..i + 1] == listing[..i] + [a];
        assert (set b | b in listing[..i + 1] :: (s, b)) == (set b | b in listing[..i] :: (s, b)) + {(s, a)};
      }
      assert listing[..|listing|] == listing;
      return Done;
    }

    /**
     Runs a message's handler on the store, and restores the store if it fails.  Either way pools stay
     positive and the module's cover changes exactly as the message allows.
     */
    method DeliverMessage(env: Env, m: Msg) returns (status: Status)
      requires m.Valid()
      modifies this
      ensures View() == Deliver(old(View()), env, m)
      ensures status == Done <==> Step(old(View()), env, m).Ok?
      ensures Inv(old(View())) && ListingOk(old(View()), env, m) ==>
                && Inv(View())
                && forall d :: Surplus(View(), d) ==
                               Surplus(old(View()), d) + if status == Done then SurplusChange(old(View()), env, m, d) else 0
    {
      hide Inv, Surplus, SurplusChange, CreatePoolStep, AddLiquidityStep, RemoveLiquidityStep, SwapStep, DecommissionStep;
      var committed := View();
      match m {
        case CreatePool(_, _, _, _) => status := CreatePoolHandler(env, m);
        case AddLiquidity(_, _, _, _) => status := AddLiquidityHandler(env, m);
        case RemoveLiquidity(_, _, _, _) => status := RemoveLiquidityHandler(env, m);
        case SwapAssets(_, _, _, _, _) => status := SwapHandler(env, m);
        case DecommissionPool(_, _) => status := DecommissionHandler(env, m);
      }
      if env.aborts { status := Failed(Panic); }
      if status.Failed? {
        pools, providers, bank := committed.pools, committed.providers, committed.bank;
      } else if Inv(committed) && ListingOk(committed, env, m) {
        StepKeeps(committed, env, m);
      }
    }
  }

  lemma RefundNone(r: Refunding, pool: Pool, s: Symbol)
    ensures RefundAll(r, pool, s, []) == Ok(r)
  {
  }

  /** The first failure of the refund loop decides; otherwise one more provider is refunded. */
  lemma {:induction false} RefundUnroll(r: Refunding, pool: Pool, s: Symbol, order: seq<Address>, i: nat)
    requires i < |order| && RefundAll(r, pool, s, order[..i]).Ok?
    ensures RefundAll(r, pool, s, order[..i + 1]) == RefundOne(RefundAll(r, pool, s, order[..i]).value, pool, s, order[i])
    ensures RefundAll(r, pool, s, order[..i + 1]).Err? ==>
              RefundAll(r, pool, s, order) == RefundAll(r, pool, s, order[..i + 1])
    decreases |order|
  {
    hide RefundOne;
    var rest := order[..|order| - 1];
    assert order[..i + 1][..i] == order[..i];
    if i == |order| - 1 {
      assert order[..i + 1] == order;
    } else {
      assert rest[..i] == order[..i] && rest[..i + 1] == order[..i + 1];
      RefundUnroll(r, pool, s, rest, i);
    }
  }
}
