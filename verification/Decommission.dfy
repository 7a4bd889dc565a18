/**
 Decommissioning a pool, described without reference to the order of the refunds.
 */
module Decommission {
  import opened Sums
  import opened Pools
  import opened Withdrawal
  import opened Ledger
  import opened Refunds

  ghost function TotalNative(pool: Pool, lps: Providers): int { Sum(NativeRefunds(pool, lps)) }
  ghost function TotalExternal(pool: Pool, lps: Providers): int { Sum(ExternalRefunds(pool, lps)) }

  /** Every record has units, and the totals fit the pool and the module's coins. */
  ghost predicate CanRefund(st: State, s: Symbol, pool: Pool) {
    var lps := ProvidersOf(st, s);
    && (forall a | a in lps :: lps[a] > 0)
    && Sum(UnitsOf(lps)) <= pool.units
    && TotalNative(pool, lps) <= pool.native
    && TotalExternal(pool, lps) <= pool.external
    && TotalNative(pool, lps) <= Balance(st.bank, MODULE, NATIVE)
    && TotalExternal(pool, lps) <= Balance(st.bank, MODULE, s)
  }

  ghost predicate CanDecommission(st: State, env: Env, m: Msg)
    requires m.DecommissionPool?
  {
    && m.symbol in st.pools
    && m.signer in env.admins
    && st.pools[m.symbol].native < POOL_THRESHOLD
    && CanRefund(st, m.symbol, st.pools[m.symbol])
  }

  /** The pool and its providers are gone, nothing else in the store changed, and everyone has its refund. */
  ghost predicate DecommissionedTo(st: State, s: Symbol, pool: Pool, after: State) {
    var lps := ProvidersOf(st, s);
    && after.pools == st.pools - {s}
    && after.providers == st.providers - (set a | a in lps :: (s, a))
    && Balance(after.bank, MODULE, s) == Balance(st.bank, MODULE, s) - TotalExternal(pool, lps)
    && Balance(after.bank, MODULE, NATIVE) == Balance(st.bank, MODULE, NATIVE) - TotalNative(pool, lps)
    && forall a, d :: a != MODULE || (d != s && d != NATIVE) ==>
         Balance(after.bank, a, d) == Balance(st.bank, a, d) +
           (if a !in lps then 0
            else if d == s then ExternalRefunds(pool, lps)[a]
            else if d == NATIVE then NativeRefunds(pool, lps)[a] else 0)
  }

  lemma DecommissionExactly(st: State, env: Env, m: Msg)
    requires m.DecommissionPool? && m.Valid() && m.symbol != NATIVE
    requires MODULE !in ProvidersOf(st, m.symbol) && Lists(env.listing, ProvidersOf(st, m.symbol))
    ensures var r := DecommissionStep(st, env, m);
            && (r.Ok? <==> CanDecommission(st, env, m))
            && (r.Ok? ==> DecommissionedTo(st, m.symbol, st.pools[m.symbol], r.value))
  {
    hide RefundOf, Balance, RefundAll, CanRefund, Affordable, Refunded, DecommissionedTo, StartRefund;
    if m.symbol in st.pools {
      var pool, lps, order := st.pools[m.symbol], ProvidersOf(st, m.symbol), env.listing;
      RefundLoop(st, pool, m.symbol, lps, order);
      AffordableAnyOrder(st, m.symbol, pool, lps, order);
      var r := RefundAll(StartRefund(st, m.symbol, pool), pool, m.symbol, order);
      if r.Ok? { RefundedAnyOrder(st, m.symbol, pool, lps, order, r.value); }
    }
  }

  lemma AffordableAnyOrder(st: State, s: Symbol, pool: Pool, lps: Providers, order: seq<Address>)
    requires lps == ProvidersOf(st, s) && Lists(order, lps)
    ensures Affordable(st.bank, pool, s, lps, order) <==> CanRefund(st, s, pool)
  {
    hide RefundOf, Balance, NativeRefunds, ExternalRefunds, UnitsOf, Sum, SumListed;
    RefundKeys(pool, lps);
    ListedIsSum(order, UnitsOf(lps));
    ListedIsSum(order, NativeRefunds(pool, lps));
    ListedIsSum(order, ExternalRefunds(pool, lps));
    if Sum(UnitsOf(lps)) <= pool.units { RefundsExist(pool, lps); }
  }

  /** When the records' units fit the pool, a refund exists exactly for a record with units. */
  lemma RefundsExist(pool: Pool, lps: Providers)
    requires Sum(UnitsOf(lps)) <= pool.units
    ensures forall a | a in lps :: RefundOf(pool, lps[a]).Payout? <==> lps[a] > 0
  {
    hide CalculateWithdrawal, Sum;
    forall a | a in lps ensures RefundOf(pool, lps[a]).Payout? <==> lps[a] > 0 {
      SumRemove(UnitsOf(lps), a);
      SumNonNegative(UnitsOf(lps) - {a});
      PayoutOrder(pool.units, pool.native, pool.external, lps[a], MAX_BASIS, 0);
      if lps[a] > 0 { NoOverWithdrawal(pool.units, pool.native, pool.external, lps[a], MAX_BASIS, 0); }
    }
  }

  lemma RefundedAnyOrder(st: State, s: Symbol, pool: Pool, lps: Providers, order: seq<Address>, r: Refunding)
    requires lps == ProvidersOf(st, s) && Lists(order, lps) && Refunded(r, st.bank, pool, s, lps, order)
    ensures DecommissionedTo(st, s, pool, State(st.pools - {s}, st.providers - (set a | a in order :: (s, a)), r.bank))
  {
    hide RefundOf, Balance, ProvidersOf, NativeRefunds, ExternalRefunds, UnitsOf, Sum;
    RefundKeys(pool, lps);
    ListedIsSum(order, NativeRefunds(pool, lps));
    ListedIsSum(order, ExternalRefunds(pool, lps));
    assert (set a | a in order :: (s, a)) == (set a | a in lps :: (s, a));
  }

  /** What each provider of a decommissioned pool receives is its proportional part of both balances. */
  lemma RefundAccuracy(st: State, env: Env, m: Msg, a: Address)
    requires m.DecommissionPool? && m.Valid() && m.symbol != NATIVE
    requires MODULE !in ProvidersOf(st, m.symbol) && Lists(env.listing, ProvidersOf(st, m.symbol))
    requires DecommissionStep(st, env, m).Ok? && a in ProvidersOf(st, m.symbol)
    ensures m.symbol in st.pools
    ensures var pool, units, after := st.pools[m.symbol], ProvidersOf(st, m.symbol)[a], DecommissionStep(st, env, m).value;
            var native := Balance(after.bank, a, NATIVE) - Balance(st.bank, a, NATIVE);
            var external := Balance(after.bank, a, m.symbol) - Balance(st.bank, a, m.symbol);
            && 0 < units <= pool.units && 0 <= native <= pool.native && 0 <= external <= pool.external
            && PaidFor(native, pool.native, pool.units, units as real, 5102.0)
            && PaidFor(external, pool.external, pool.units, units as real, 5102.0)
  {
    hide RefundOf, Balance, DecommissionStep, Sum, ProvidersOf, PaidFor;
    DecommissionExactly(st, env, m);
    var pool, lps := st.pools[m.symbol], ProvidersOf(st, m.symbol);
    UnitsWithin(pool, lps, a);
    OneRefund(pool, lps[a]);
  }

  lemma UnitsWithin(pool: Pool, lps: Providers, a: Address)
    requires Sum(UnitsOf(lps)) <= pool.units && a in lps
    ensures lps[a] <= pool.units
  {
    hide Sum;
    SumRemove(UnitsOf(lps), a);
    SumNonNegative(UnitsOf(lps) - {a});
  }

  lemma OneRefund(pool: Pool, units: nat)
    requires 0 < units <= pool.units
    ensures var p := RefundOf(pool, units);
            && p.Payout? && p.native <= pool.native && p.external <= pool.external
            && PaidFor(p.native, pool.native, pool.units, units as real, 5102.0)
            && PaidFor(p.external, pool.external, pool.units, units as real, 5102.0)
  {
    hide CalculateWithdrawal, PaidFor;
    NoOverWithdrawal(pool.units, pool.native, pool.external, units, MAX_BASIS, 0);
    WithdrawalAccuracy(pool.units, pool.native, pool.external, units, MAX_BASIS, 0);
    assert ExactClaim(units as real, MAX_BASIS) == units as real;
  }

  /** Success, the resulting store and every balance are the same for any two listings of the providers. */
  lemma OrderIrrelevant(st: State, env: Env, other: seq<Address>, m: Msg)
    requires m.DecommissionPool? && m.Valid() && m.symbol != NATIVE
    requires MODULE !in ProvidersOf(st, m.symbol)
    requires Lists(env.listing, ProvidersOf(st, m.symbol)) && Lists(other, ProvidersOf(st, m.symbol))
    ensures var r, r' := DecommissionStep(st, env, m), DecommissionStep(st, env.(listing := other), m);
            && (r.Ok? <==> r'.Ok?)
            && (r.Ok? ==>
                  && r.value.pools == r'.value.pools
                  && r.value.providers == r'.value.providers
                  && forall a, d :: Balance(r.value.bank, a, d) == Balance(r'.value.bank, a, d))
  {
    hide RefundOf, Balance, DecommissionStep, CanRefund;
    DecommissionExactly(st, env, m);
    DecommissionExactly(st, env.(listing := other), m);
  }

  /** A record without units, or more units on record than in the pool, makes decommissioning fail. */
  lemma RecordsBlock(st: State, env: Env, m: Msg)
    requires m.DecommissionPool? && m.Valid() && m.symbol != NATIVE
    requires MODULE !in ProvidersOf(st, m.symbol) && Lists(env.listing, ProvidersOf(st, m.symbol))
    ensures (exists a :: a in ProvidersOf(st, m.symbol) && ProvidersOf(st, m.symbol)[a] == 0) ==> DecommissionStep(st, env, m).Err?
    ensures m.symbol in st.pools && Sum(UnitsOf(ProvidersOf(st, m.symbol))) > st.pools[m.symbol].units ==>
              DecommissionStep(st, env, m).Err?
  {
    hide DecommissionStep, Balance, ProvidersOf;
    DecommissionExactly(st, env, m);
  }

  /** Refunds never exceed the recorded balances. */
  lemma RefundsWithinPool(st: State, env: Env, m: Msg)
    requires m.DecommissionPool? && m.Valid() && m.symbol != NATIVE
    requires MODULE !in ProvidersOf(st, m.symbol) && Lists(env.listing, ProvidersOf(st, m.symbol))
    requires DecommissionStep(st, env, m).Ok?
    ensures var pool, lps := st.pools[m.symbol], ProvidersOf(st, m.symbol);
            && 0 <= TotalNative(pool, lps) <= pool.native
            && 0 <= TotalExternal(pool, lps) <= pool.external
  {
    hide RefundOf, Balance, DecommissionStep;
    DecommissionExactly(st, env, m);
    SumNonNegative(NativeRefunds(st.pools[m.symbol], ProvidersOf(st, m.symbol)));
    SumNonNegative(ExternalRefunds(st.pools[m.symbol], ProvidersOf(st, m.symbol)));
  }
}
