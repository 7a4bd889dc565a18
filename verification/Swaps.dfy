/**
 When a swap message goes through, and what it then does to pools and accounts.
 */
module Swaps {
  import opened Swap
  import opened Pools
  import opened Ledger
  import opened Refunds

  predicate Tradable(env: Env, s: Symbol) { s in env.registry && env.registry[s].clp }

  function FactorOf(env: Env, s: Symbol): (n: Normalization)
    requires s in env.registry
    ensures n.Valid()
  {
    GetNormalizationFactor(env.registry[s].decimals)
  }

  /** What one leg pays, from the pool's external asset into the native one or the other way; -1 if it cannot be made. */
  function LegPays(toNative: bool, s: Symbol, sent: nat, pool: Pool, n: Normalization): int
    requires n.Valid()
  {
    match if toNative then SwapOne(s, sent, NATIVE, pool, n) else SwapOne(NATIVE, sent, s, pool, n)
    case Swapped(result, _, _, _) => result
    case NotEnoughAssetTokens => -1
  }

  /** A leg that takes in `sent` and pays `got`, as the curve says, turns one pool into the other. */
  ghost predicate Leg(toNative: bool, n: Normalization, pool: Pool, sent: nat, got: nat, after: Pool)
    requires n.Valid()
  {
    if toNative then
      && got < pool.native && OnCurve(false, true, n, pool.external, sent, pool.native, got)
      && after == Pool(pool.native - got, pool.external + sent, pool.units)
    else
      && got < pool.external && OnCurve(false, false, n, pool.native, sent, pool.external, got)
      && after == Pool(pool.native + sent, pool.external - got, pool.units)
  }

  lemma LegMade(toNative: bool, s: Symbol, sent: nat, pool: Pool, n: Normalization)
    requires n.Valid() && s != NATIVE
    ensures var o := if toNative then SwapOne(s, sent, NATIVE, pool, n) else SwapOne(NATIVE, sent, s, pool, n);
            o.Swapped? ==> LegPays(toNative, s, sent, pool, n) == o.result && Leg(toNative, n, pool, sent, o.result, o.pool)
  {
    hide SwapOne, OnCurve;
    if toNative {
      SwapOneAccuracy(s, sent, NATIVE, pool, n);
      SwapOneConserves(s, sent, NATIVE, pool, n);
    } else {
      SwapOneAccuracy(NATIVE, sent, s, pool, n);
      SwapOneConserves(NATIVE, sent, s, pool, n);
    }
  }

  /** Both tokens may be traded, their pools exist, and the signer has the amount. */
  predicate CanStart(st: State, env: Env, m: Msg)
    requires m.SwapAssets?
  {
    && Tradable(env, m.sent) && Tradable(env, m.received)
    && (m.sent != NATIVE ==> m.sent in st.pools) && (m.received != NATIVE ==> m.received in st.pools)
    && m.amount <= Balance(st.bank, m.signer, m.sent)
  }

  /** What the swap pays: through one pool, or through the native asset; -1 if a leg cannot be made. */
  function Pays(st: State, env: Env, m: Msg): int
    requires m.SwapAssets? && m.Valid() && CanStart(st, env, m)
  {
    if m.sent == NATIVE then LegPays(false, m.received, m.amount, st.pools[m.received], FactorOf(env, m.received))
    else
      var first := LegPays(true, m.sent, m.amount, st.pools[m.sent], FactorOf(env, m.sent));
      if m.received == NATIVE || first < 0 then first
      else LegPays(false, m.received, first, st.pools[m.received], FactorOf(env, m.received))
  }

  /** Every leg can be made, the minimum is reached, and the module has the coins. */
  predicate CanSwap(st: State, env: Env, m: Msg)
    requires m.SwapAssets? && m.Valid()
  {
    CanStart(st, env, m) && m.minReceiving <= Pays(st, env, m) <= Balance(st.bank, MODULE, m.received)
  }

  /** The legs of the swap, in the pools before and after, for an amount received. */
  ghost predicate Legs(st: State, env: Env, m: Msg, got: nat, after: State)
    requires m.SwapAssets? && m.Valid() && CanStart(st, env, m) && after.pools.Keys == st.pools.Keys
  {
    if m.sent == NATIVE then
      Leg(false, FactorOf(env, m.received), st.pools[m.received], m.amount, got, after.pools[m.received])
    else if m.received == NATIVE then
      Leg(true, FactorOf(env, m.sent), st.pools[m.sent], m.amount, got, after.pools[m.sent])
    else
      exists mid: nat ::
        && Leg(true, FactorOf(env, m.sent), st.pools[m.sent], m.amount, mid, after.pools[m.sent])
        && Leg(false, FactorOf(env, m.received), st.pools[m.received], mid, got, after.pools[m.received])
  }

  /**
   The signer gives the amount for at least the minimum, leg by leg on the curve; nobody else but the module
   is touched.
   */
  ghost predicate SwappedTo(st: State, env: Env, m: Msg, after: State)
    requires m.SwapAssets? && m.Valid() && CanStart(st, env, m)
  {
    var got := Balance(after.bank, m.signer, m.received) - Balance(st.bank, m.signer, m.received);
    && after.providers == st.providers && after.pools.Keys == st.pools.Keys
    && (forall s | s in st.pools && s != m.sent && s != m.received :: after.pools[s] == st.pools[s])
    && got >= m.minReceiving && Legs(st, env, m, got, after)
    && Balance(after.bank, m.signer, m.sent) == Balance(st.bank, m.signer, m.sent) - m.amount
    && Balance(after.bank, MODULE, m.sent) == Balance(st.bank, MODULE, m.sent) + m.amount
    && Balance(after.bank, MODULE, m.received) == Balance(st.bank, MODULE, m.received) - got
    && (forall a, d | (a != m.signer && a != MODULE) || (d != m.sent && d != m.received) ::
          Balance(after.bank, a, d) == Balance(st.bank, a, d))
  }

  /** The coins of a swap go from the signer to the module, and the proceeds back. */
  lemma CoinsSwapped(bank: Bank, m: Msg, out: nat)
    requires m.SwapAssets? && m.Valid() && m.amount <= Balance(bank, m.signer, m.sent)
    ensures var paid := Send(bank, m.signer, MODULE, m.sent, m.amount);
            && paid.Ok?
            && var r := Send(paid.value, MODULE, m.signer, m.received, out);
               && (r.Ok? <==> out <= Balance(bank, MODULE, m.received))
               && (r.Ok? ==>
                     && Balance(r.value, m.signer, m.sent) == Balance(bank, m.signer, m.sent) - m.amount
                     && Balance(r.value, MODULE, m.sent) == Balance(bank, MODULE, m.sent) + m.amount
                     && Balance(r.value, m.signer, m.received) == Balance(bank, m.signer, m.received) + out
                     && Balance(r.value, MODULE, m.received) == Balance(bank, MODULE, m.received) - out
                     && forall a, d | (a != m.signer && a != MODULE) || (d != m.sent && d != m.received) ::
                          Balance(r.value, a, d) == Balance(bank, a, d))
  {
    hide Send, Balance;
    SendMoves(bank, m.signer, MODULE, m.sent, m.amount);
    SendMoves(Send(bank, m.signer, MODULE, m.sent, m.amount).value, MODULE, m.signer, m.received, out);
  }

  lemma SendError(bank: Bank, from: Address, to: Address, s: Symbol, amount: nat)
    ensures var r := Send(bank, from, to, s, amount); r.Err? ==> r == Err(BalanceNotAvailable)
  {
  }

  lemma OneLegExactly(st: State, env: Env, m: Msg)
    requires m.SwapAssets? && m.Valid() && CanStart(st, env, m) && (m.sent == NATIVE || m.received == NATIVE)
    ensures SwapOutcomeIs(st, env, m)
  {
    hide Send, Balance, SwapOne, Leg, GetNormalizationFactor;
    SendMoves(st.bank, m.signer, MODULE, m.sent, m.amount);
    var toNative, s := m.received == NATIVE, if m.received == NATIVE then m.sent else m.received;
    LegMade(toNative, s, m.amount, st.pools[s], FactorOf(env, s));
    var out := Pays(st, env, m);
    if out >= 0 {
      CoinsSwapped(st.bank, m, out);
      SendError(Send(st.bank, m.signer, MODULE, m.sent, m.amount).value, MODULE, m.signer, m.received, out);
    }
  }

  /** Success, the minimum's error and the effect, for a swap that can start. */
  ghost predicate SwapOutcomeIs(st: State, env: Env, m: Msg)
    requires m.SwapAssets? && m.Valid() && CanStart(st, env, m)
  {
    var r, out := SwapStep(st, env, m), Pays(st, env, m);
    && (r.Ok? <==> m.minReceiving <= out <= Balance(st.bank, MODULE, m.received))
    && (r == Err(ReceivedAmountBelowExpected) <==> 0 <= out < m.minReceiving)
    && (r.Ok? ==> SwappedTo(st, env, m, r.value))
  }

  lemma TwoLegsExactly(st: State, env: Env, m: Msg)
    requires m.SwapAssets? && m.Valid() && CanStart(st, env, m) && m.sent != NATIVE && m.received != NATIVE
    ensures SwapOutcomeIs(st, env, m)
  {
    hide Send, Balance, SwapOne, Leg, GetNormalizationFactor;
    SendMoves(st.bank, m.signer, MODULE, m.sent, m.amount);
    LegMade(true, m.sent, m.amount, st.pools[m.sent], FactorOf(env, m.sent));
    var mid := LegPays(true, m.sent, m.amount, st.pools[m.sent], FactorOf(env, m.sent));
    if mid >= 0 {
      LegMade(false, m.received, mid, st.pools[m.received], FactorOf(env, m.received));
      var out := Pays(st, env, m);
      if out >= 0 {
        CoinsSwapped(st.bank, m, out);
        SendError(Send(st.bank, m.signer, MODULE, m.sent, m.amount).value, MODULE, m.signer, m.received, out);
        var r := SwapStep(st, env, m);
        if r.Ok? {
          assert Leg(true, FactorOf(env, m.sent), st.pools[m.sent], m.amount, mid, r.value.pools[m.sent]);
          assert Leg(false, FactorOf(env, m.received), st.pools[m.received], mid, out, r.value.pools[m.received]);
          assert Legs(st, env, m, out, r.value);
        }
      }
    }
  }

  /** A swap goes through if and only if it can; then it pays what the curve says, leg by leg. */
  lemma SwapExactly(st: State, env: Env, m: Msg)
    requires m.SwapAssets? && m.Valid()
    ensures var r := SwapStep(st, env, m);
            && (r.Ok? <==> CanSwap(st, env, m))
            && (r == Err(ReceivedAmountBelowExpected) <==>
                CanStart(st, env, m) && 0 <= Pays(st, env, m) < m.minReceiving)
            && (r.Ok? ==> CanStart(st, env, m) && SwappedTo(st, env, m, r.value))
  {
    hide Send, Balance, SwapOne, SwappedTo, Pays, GetNormalizationFactor;
    if CanStart(st, env, m) {
      if m.sent != NATIVE && m.received != NATIVE { TwoLegsExactly(st, env, m); } else { OneLegExactly(st, env, m); }
    } else {
      SendMoves(st.bank, m.signer, MODULE, m.sent, m.amount);
      SendError(st.bank, m.signer, MODULE, m.sent, m.amount);
    }
  }
}
