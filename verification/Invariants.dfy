/**
 What every message keeps: pool positivity, the relation of recorded balances to the module's
 coins, and the relation of a pool's units to its providers' units.
 */
module Invariants {
  import opened FixedPoint
  import opened Sums
  import opened Swap
  import opened PoolUnits
  import opened Withdrawal
  import opened Pools
  import opened Ledger
  import opened Refunds
  import opened Decommission

  /** Every pool holds both assets, and provider records belong to pools and never to the module. */
  ghost predicate Inv(st: State) {
    && NATIVE !in st.pools
    && (forall s | s in st.pools :: st.pools[s].Positive())
    && (forall s, a | a in ProvidersOf(st, s) :: s in st.pools && a != MODULE)
  }

  /** The provider listing is complete (an assumption on the paginated store query). */
  ghost predicate ListingOk(st: State, env: Env, m: Msg) {
    m.DecommissionPool? ==> Lists(env.listing, ProvidersOf(st, m.symbol))
  }

  // ---------- recorded balances against coins ----------

  ghost function NativeBalances(pools: map<Symbol, Pool>): map<Symbol, int> {
    map s | s in pools :: pools[s].native
  }

  /** What the pools claim of an asset. */
  ghost function Recorded(st: State, d: Symbol): int {
    if d == NATIVE then Sum(NativeBalances(st.pools))
    else if d in st.pools then st.pools[d].external else 0
  }

  /** Coins of the module beyond what the pools claim. */
  ghost function Surplus(st: State, d: Symbol): int {
    Balance(st.bank, MODULE, d) - Recorded(st, d)
  }

  lemma RecordedUpdate(st: State, s: Symbol, pool: Pool, d: Symbol, after: State)
    requires s != NATIVE && after.pools == st.pools[s := pool]
    ensures var was := if s in st.pools then st.pools[s] else Pool(0, 0, 0);
            Recorded(after, d) == Recorded(st, d) +
              (if d == NATIVE then pool.native - was.native else if d == s then pool.external - was.external else 0)
  {
    SumUpdate(NativeBalances(st.pools), s, pool.native);
    assert NativeBalances(after.pools) == NativeBalances(st.pools)[s := pool.native];
  }

  lemma RecordedRemove(st: State, s: Symbol, d: Symbol, after: State)
    requires s != NATIVE && s in st.pools && after.pools == st.pools - {s}
    ensures Recorded(after, d) == Recorded(st, d) -
              (if d == NATIVE then st.pools[s].native else if d == s then st.pools[s].external else 0)
  {
    SumRemove(NativeBalances(st.pools), s);
    assert NativeBalances(after.pools) == NativeBalances(st.pools) - {s};
  }

  // ---------- rebalancing an asymmetric withdrawal ----------

  /** The amount taken into the pool's books but still paid out: a swap that yields nothing. */
  ghost function Unbacked(rest: Pool, s: Symbol, pay: Payout, asymmetry: int, n: Normalization): nat
    requires pay.Payout? && n.Valid()
  {
    var swap := if asymmetry > 0 then SwapOne(NATIVE, pay.swapAmount, s, rest, n)
                else SwapOne(s, pay.swapAmount, NATIVE, rest, n);
    if asymmetry != 0 && swap.Swapped? && swap.result == 0 then pay.swapAmount else 0
  }

  lemma RebalanceConserves(rest: Pool, s: Symbol, pay: Payout, asymmetry: int, n: Normalization)
    requires s != NATIVE && pay.Payout? && n.Valid()
    ensures var r, lost := Rebalance(rest, s, pay, asymmetry, n), Unbacked(rest, s, pay, asymmetry, n);
            r.Ok? ==>
              && r.value.pool.units == rest.units
              && r.value.pool.native + r.value.native == rest.native + pay.native + (if asymmetry > 0 then lost else 0)
              && r.value.pool.external + r.value.external == rest.external + pay.external + (if asymmetry < 0 then lost else 0)
              && (asymmetry == 0 ==> r.value.pool == rest)
              && (rest.Positive() ==> r.value.pool.Positive())
  {
    hide SwapOne;
    SwapOneConserves(NATIVE, pay.swapAmount, s, rest, n);
    SwapOneConserves(s, pay.swapAmount, NATIVE, rest, n);
  }

  /** What a successful withdrawal went through. */
  datatype Removal = Removal(n: Normalization, pool: Pool, lpUnits: nat, pay: Payout, rest: Pool, out: Rebalanced)

  ghost function RemovalOf(st: State, env: Env, m: Msg): Removal
    requires m.RemoveLiquidity? && m.Valid() && RemoveLiquidityStep(st, env, m).Ok?
  {
    var n, pool, lpUnits := Permitted(env, m.symbol).value, st.pools[m.symbol], st.providers[(m.symbol, m.signer)];
    var pay := CalculateWithdrawal(pool.units, pool.native, pool.external, lpUnits, m.wBasis, m.asymmetry);
    var rest := TakeOut(pool, lpUnits, pay).value;
    Removal(n, pool, lpUnits, pay, rest, Rebalance(rest, m.symbol, pay, m.asymmetry, n).value)
  }

  lemma RemovalEffect(st: State, env: Env, m: Msg)
    requires m.RemoveLiquidity? && m.Valid() && RemoveLiquidityStep(st, env, m).Ok? && Inv(st)
    ensures var x := RemovalOf(st, env, m);
            var after := RemoveLiquidityStep(st, env, m).value;
            && m.symbol in st.pools && m.symbol != NATIVE && m.signer in ProvidersOf(st, m.symbol)
            && x.pool == st.pools[m.symbol] && x.lpUnits == ProvidersOf(st, m.symbol)[m.signer]
            && x.n.Valid() && x.pay.Payout?
            && x.rest == Pool(x.pool.native - x.pay.native, x.pool.external - x.pay.external,
                              x.pool.units - x.lpUnits + x.pay.unitsLeft)
            && after.pools == st.pools[m.symbol := x.out.pool]
            && after.providers == (if x.pay.unitsLeft == 0 then st.providers - {(m.symbol, m.signer)}
                                   else st.providers[(m.symbol, m.signer) := x.pay.unitsLeft])
            && SendBoth(st.bank, MODULE, m.signer, m.symbol, x.out.external, x.out.native) == Ok(after.bank)
            && Rebalance(x.rest, m.symbol, x.pay, m.asymmetry, x.n) == Ok(x.out)
            && (m.asymmetry != 0 ==> x.rest.Positive())
            && x.out.external < x.pool.external && x.out.native < x.pool.native
  {
    hide CalculateWithdrawal, SwapOne, SendBoth, GetNormalizationFactor, ProvidersOf;
    ProvidersAt(st, m.symbol);
  }

  /**
   A withdrawal that goes through was claimed on units within the pool's total, so both payouts, the
   units left and the amount to swap are the proportional ones, within the balances.
   */
  lemma RemovalAccuracy(st: State, env: Env, m: Msg)
    requires m.RemoveLiquidity? && m.Valid() && RemoveLiquidityStep(st, env, m).Ok?
    ensures var x := RemovalOf(st, env, m);
            && x.pay.Payout? && 0 < x.lpUnits <= x.pool.units
            && x.pay.native <= x.pool.native && x.pay.external <= x.pool.external
            && var c := ExactClaim(x.lpUnits as real, m.wBasis);
               && PaidFor(x.pay.native, x.pool.native, x.pool.units, c, 5102.0)
               && PaidFor(x.pay.external, x.pool.external, x.pool.units, c, 5102.0)
               && Ulps(x.pay.unitsLeft as real, x.lpUnits as real - c) <= 500000000000000000.0 + 5101.0 * c
               && (m.asymmetry > 0 ==>
                     PaidFor(x.pay.swapAmount, x.pool.native, x.pool.units, ExactClaim(c, m.asymmetry), 51005103.0))
               && (m.asymmetry < 0 ==>
                     PaidFor(x.pay.swapAmount, x.pool.external, x.pool.units, ExactClaim(c, -m.asymmetry), 51005103.0))
  {
    hide CalculateWithdrawal, SendBoth, GetNormalizationFactor, PaidFor, ExactClaim, Rebalance, Ulps;
    var x := RemovalOf(st, env, m);
    PayoutOrder(x.pool.units, x.pool.native, x.pool.external, x.lpUnits, m.wBasis, m.asymmetry);
    WithdrawalAccuracy(x.pool.units, x.pool.native, x.pool.external, x.lpUnits, m.wBasis, m.asymmetry);
  }

  // ---------- units ----------

  /** Pool units minus the units of the pool's providers. */
  ghost function Drift(st: State, s: Symbol): int
    requires s in st.pools
  {
    st.pools[s].units - Sum(UnitsOf(ProvidersOf(st, s)))
  }

  /** A pool whose records hold more units than it has cannot be decommissioned. */
  lemma NegativeDriftBlocks(st: State, env: Env, m: Msg)
    requires m.DecommissionPool? && m.Valid() && Inv(st) && ListingOk(st, env, m)
    requires m.symbol in st.pools && Drift(st, m.symbol) < 0
    ensures DecommissionStep(st, env, m).Err?
  {
    hide DecommissionStep, ProvidersOf;
    RecordsBlock(st, env, m);
  }

  lemma ProvidersAt(st: State, s: Symbol)
    ensures forall a :: a in ProvidersOf(st, s) <==> (s, a) in st.providers
    ensures forall a | a in ProvidersOf(st, s) :: ProvidersOf(st, s)[a] == st.providers[(s, a)]
  {
    assert forall a | (s, a) in st.providers :: (s, a).0 == s && (s, a).1 == a;
  }

  /** Writing or deleting one record changes that provider of that asset only. */
  lemma RecordView(st: State, s: Symbol, a: Address, units: nat, after: State, t: Symbol)
    requires after.providers == st.providers[(s, a) := units] || after.providers == st.providers - {(s, a)}
    ensures t != s ==> ProvidersOf(after, t) == ProvidersOf(st, t)
    ensures after.providers == st.providers[(s, a) := units] ==> ProvidersOf(after, s) == ProvidersOf(st, s)[a := units]
    ensures after.providers == st.providers - {(s, a)} ==> ProvidersOf(after, s) == ProvidersOf(st, s) - {a}
  {
    hide ProvidersOf;
    ProvidersAt(st, s);
    ProvidersAt(after, s);
    ProvidersAt(st, t);
    ProvidersAt(after, t);
  }

  lemma SetProviderUnits(st: State, s: Symbol, a: Address, units: nat, after: State)
    requires after.providers == st.providers[(s, a) := units]
    ensures var lps := ProvidersOf(st, s);
            Sum(UnitsOf(ProvidersOf(after, s))) == Sum(UnitsOf(lps)) - (if a in lps then lps[a] else 0) + units
    ensures forall t | t != s :: ProvidersOf(after, t) == ProvidersOf(st, t)
    ensures ProvidersOf(after, s) == ProvidersOf(st, s)[a := units]
  {
    hide ProvidersOf;
    var lps := ProvidersOf(st, s);
    forall t { RecordView(st, s, a, units, after, t); }
    SumUpdate(UnitsOf(lps), a, units);
    assert UnitsOf(lps[a := units]) == UnitsOf(lps)[a := units as int];
  }

  lemma DropProviderUnits(st: State, s: Symbol, a: Address, after: State)
    requires after.providers == st.providers - {(s, a)} && a in ProvidersOf(st, s)
    ensures Sum(UnitsOf(ProvidersOf(after, s))) == Sum(UnitsOf(ProvidersOf(st, s))) - ProvidersOf(st, s)[a]
    ensures forall t | t != s :: ProvidersOf(after, t) == ProvidersOf(st, t)
    ensures ProvidersOf(after, s) == ProvidersOf(st, s) - {a}
  {
    hide ProvidersOf;
    var lps := ProvidersOf(st, s);
    forall t { RecordView(st, s, a, 0, after, t); }
    SumRemove(UnitsOf(lps), a);
    assert UnitsOf(lps - {a}) == UnitsOf(lps) - {a};
  }

  // ---------- one message ----------

  /** How far a message may move a pool's units from its providers' units. */
  ghost function DriftAllowance(st: State, env: Env, m: Msg, s: Symbol): nat {
    if m.AddLiquidity? && m.symbol == s && s in st.pools && s in env.registry then
      var pool := st.pools[s];
      DriftStep(DepositExponent(pool.units, pool.native, pool.external, m.native, m.external,
                                GetNormalizationFactor(env.registry[s].decimals)))
    else 0
  }

  /** A withdrawal's swap that yields nothing leaves its amount unbacked, in the asset that was to be swapped. */
  ghost function RemovalChange(x: Removal, s: Symbol, asymmetry: int, d: Symbol): int
    requires x.pay.Payout? && x.n.Valid()
  {
    if (asymmetry > 0 && d == NATIVE) || (asymmetry < 0 && d == s)
    then -(Unbacked(x.rest, s, x.pay, asymmetry, x.n) as int) else 0
  }

  /** What a decommissioned pool recorded beyond its refunds stays with the module. */
  ghost function LeftOver(st: State, s: Symbol, d: Symbol): int
    requires s in st.pools
  {
    var pool, lps := st.pools[s], ProvidersOf(st, s);
    if d == NATIVE then pool.native - TotalNative(pool, lps)
    else if d == s then pool.external - TotalExternal(pool, lps) else 0
  }

  /** The exact change of the surplus of an asset by a successful message. */
  ghost function SurplusChange(st: State, env: Env, m: Msg, d: Symbol): int
    requires m.Valid()
  {
    if m.RemoveLiquidity? && RemoveLiquidityStep(st, env, m).Ok? then
      var x := RemovalOf(st, env, m);
      if x.pay.Payout? && x.n.Valid() then RemovalChange(x, m.symbol, m.asymmetry, d) else 0
    else if m.DecommissionPool? && m.symbol in st.pools then LeftOver(st, m.symbol, d)
    else 0
  }

  /** Invariant, surplus and drift across one successful message. */
  ghost predicate Kept(st: State, env: Env, m: Msg, after: State)
    requires m.Valid() && Step(st, env, m).Ok?
  {
    && Inv(after)
    && (forall d :: Surplus(after, d) == Surplus(st, d) + SurplusChange(st, env, m, d))
    && (forall s | s in after.pools ::
          if s in st.pools
          then -(DriftAllowance(st, env, m, s) as int) <= Drift(after, s) - Drift(st, s) <= DriftAllowance(st, env, m, s)
          else Drift(after, s) == 0)
  }

  lemma CreateKeeps(st: State, env: Env, m: Msg)
    requires m.CreatePool? && m.Valid() && Inv(st) && Step(st, env, m).Ok?
    ensures Kept(st, env, m, Step(st, env, m).value)
  {
    hide Balance, SendBoth, GetNormalizationFactor, Chop, Stake, Sum, ProvidersOf;
    var after := Step(st, env, m).value;
    var pool := after.pools[m.symbol];
    SendBothMoves(st.bank, m.signer, MODULE, m.symbol, m.external, m.native);
    forall d ensures Surplus(after, d) == Surplus(st, d) { RecordedUpdate(st, m.symbol, pool, d, after); }
    SetProviderUnits(st, m.symbol, m.signer, pool.units, after);
    assert ProvidersOf(st, m.symbol) == map[];
    assert UnitsOf(map[]) == map[] && Sum<Address>(map[]) == 0 by { EmptySum(); }
  }

  lemma EmptySum()
    ensures Sum<Address>(map[]) == 0
  {
  }

  lemma AddKeeps(st: State, env: Env, m: Msg)
    requires m.AddLiquidity? && m.Valid() && Inv(st) && Step(st, env, m).Ok?
    ensures Kept(st, env, m, Step(st, env, m).value)
  {
    hide Balance, SendBoth, GetNormalizationFactor, CalculatePoolUnits, DepositExponent, DriftStep, Sum, ProvidersOf;
    ProvidersAt(st, m.symbol);
    var after := Step(st, env, m).value;
    var was, pool := st.pools[m.symbol], after.pools[m.symbol];
    SendBothMoves(st.bank, m.signer, MODULE, m.symbol, m.external, m.native);
    forall d ensures Surplus(after, d) == Surplus(st, d) { RecordedUpdate(st, m.symbol, pool, d, after); }
    SetProviderUnits(st, m.symbol, m.signer, after.providers[(m.symbol, m.signer)], after);
    DepositDrift(was.units, was.native, was.external, m.native, m.external,
                 GetNormalizationFactor(env.registry[m.symbol].decimals));
  }

  lemma RemoveKeeps(st: State, env: Env, m: Msg)
    requires m.RemoveLiquidity? && m.Valid() && Inv(st) && Step(st, env, m).Ok?
    ensures Kept(st, env, m, Step(st, env, m).value)
  {
    hide Balance, SendBoth, GetNormalizationFactor, Sum, RemoveLiquidityStep, RemovalOf, Rebalance, Unbacked, Recorded,
         ProvidersOf;
    var after, x := RemoveLiquidityStep(st, env, m).value, RemovalOf(st, env, m);
    RemovalEffect(st, env, m);
    RebalanceConserves(x.rest, m.symbol, x.pay, m.asymmetry, x.n);
    SendBothMoves(st.bank, MODULE, m.signer, m.symbol, x.out.external, x.out.native);
    forall d ensures Surplus(after, d) == Surplus(st, d) + SurplusChange(st, env, m, d) {
      RecordedUpdate(st, m.symbol, x.out.pool, d, after);
    }
    if x.pay.unitsLeft == 0 {
      DropProviderUnits(st, m.symbol, m.signer, after);
    } else {
      SetProviderUnits(st, m.symbol, m.signer, x.pay.unitsLeft, after);
    }
  }

  lemma DecommissionKeeps(st: State, env: Env, m: Msg)
    requires m.DecommissionPool? && m.Valid() && Inv(st) && ListingOk(st, env, m) && Step(st, env, m).Ok?
    ensures Kept(st, env, m, Step(st, env, m).value)
  {
    hide Balance, Sum, DecommissionStep, RefundOf, Recorded, CanRefund, TotalNative, TotalExternal, ProvidersOf;
    DecommissionNeedsPool(st, env, m);
    DecommissionExactly(st, env, m);
    var after := DecommissionStep(st, env, m).value;
    forall t ensures ProvidersOf(after, t) == if t == m.symbol then map[] else ProvidersOf(st, t) {
      ProvidersAt(st, t);
      ProvidersAt(after, t);
    }
    forall d ensures Surplus(after, d) == Surplus(st, d) + SurplusChange(st, env, m, d) {
      RecordedRemove(st, m.symbol, d, after);
    }
  }

  lemma DecommissionNeedsPool(st: State, env: Env, m: Msg)
    requires m.DecommissionPool? && m.Valid() && DecommissionStep(st, env, m).Ok?
    ensures m.symbol in st.pools
  {
  }

  /** Pools change in their balances only, and keep both assets. */
  ghost predicate OnlyBalances(st: State, after: State) {
    && after.providers == st.providers
    && after.pools.Keys == st.pools.Keys
    && (forall s | s in after.pools :: after.pools[s].units == st.pools[s].units && after.pools[s].Positive())
  }

  lemma OneLegSwap(st: State, env: Env, m: Msg, after: State)
    requires m.SwapAssets? && m.Valid() && Inv(st) && SwapStep(st, env, m) == Ok(after)
    requires m.sent == NATIVE || m.received == NATIVE
    ensures OnlyBalances(st, after) && forall d :: Surplus(after, d) == Surplus(st, d)
  {
    hide Balance, Send, GetNormalizationFactor, SwapOne, Sum, Recorded;
    var n := Permitted(env, if m.received == NATIVE then m.sent else m.received).value;
    var key := if m.received == NATIVE then m.sent else m.received;
    SendMoves(st.bank, m.signer, MODULE, m.sent, m.amount);
    var bank := Send(st.bank, m.signer, MODULE, m.sent, m.amount).value;
    var pool := st.pools[key];
    SwapOneConserves(m.sent, m.amount, m.received, pool, n);
    var out := SwapOne(m.sent, m.amount, m.received, pool, n);
    SendMoves(bank, MODULE, m.signer, m.received, out.result);
    forall d ensures Surplus(after, d) == Surplus(st, d) {
      RecordedUpdate(st, key, out.pool, d, after);
    }
  }

  lemma TwoLegSwap(st: State, env: Env, m: Msg, after: State)
    requires m.SwapAssets? && m.Valid() && Inv(st) && SwapStep(st, env, m) == Ok(after)
    requires m.sent != NATIVE && m.received != NATIVE
    ensures OnlyBalances(st, after) && forall d :: Surplus(after, d) == Surplus(st, d)
  {
    hide Balance, Send, GetNormalizationFactor, SwapOne, Sum, Recorded;
    var ns, nr := Permitted(env, m.sent).value, Permitted(env, m.received).value;
    SendMoves(st.bank, m.signer, MODULE, m.sent, m.amount);
    var bank := Send(st.bank, m.signer, MODULE, m.sent, m.amount).value;
    var first := st.pools[m.sent];
    SwapOneConserves(m.sent, m.amount, NATIVE, first, ns);
    var leg := SwapOne(m.sent, m.amount, NATIVE, first, ns);
    var mid := st.(pools := st.pools[m.sent := leg.pool]);
    var second := mid.pools[m.received];
    SwapOneConserves(NATIVE, leg.result, m.received, second, nr);
    var out := SwapOne(NATIVE, leg.result, m.received, second, nr);
    SendMoves(bank, MODULE, m.signer, m.received, out.result);
    forall d ensures Surplus(after, d) == Surplus(st, d) {
      RecordedUpdate(st, m.sent, leg.pool, d, mid);
      RecordedUpdate(mid, m.received, out.pool, d, after);
    }
  }

  lemma SwapKeeps(st: State, env: Env, m: Msg)
    requires m.SwapAssets? && m.Valid() && Inv(st) && Step(st, env, m).Ok?
    ensures Kept(st, env, m, Step(st, env, m).value)
  {
    hide SwapStep, Sum, Surplus;
    var after := Step(st, env, m).value;
    if m.sent != NATIVE && m.received != NATIVE {
      TwoLegSwap(st, env, m, after);
    } else {
      OneLegSwap(st, env, m, after);
    }
    assert forall s :: ProvidersOf(after, s) == ProvidersOf(st, s);
  }

  /** Every successful message keeps the invariant, moves surplus by the stated change and drift within its allowance. */
  lemma StepKeeps(st: State, env: Env, m: Msg)
    requires m.Valid() && Inv(st) && ListingOk(st, env, m) && Step(st, env, m).Ok?
    ensures Kept(st, env, m, Step(st, env, m).value)
  {
    hide Kept, Step;
    match m
    case CreatePool(_, _, _, _) => CreateKeeps(st, env, m);
    case AddLiquidity(_, _, _, _) => AddKeeps(st, env, m);
    case RemoveLiquidity(_, _, _, _) => RemoveKeeps(st, env, m);
    case SwapAssets(_, _, _, _, _) => SwapKeeps(st, env, m);
    case DecommissionPool(_, _) => DecommissionKeeps(st, env, m);
  }
}
