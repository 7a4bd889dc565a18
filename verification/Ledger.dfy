/**
 The liquidity-pool ledger as a state machine: pools, liquidity-provider records and bank
 balances, and the five messages that change them (x/clp/keeper/msg_server.go and executors.go).
 Each message is a function to the next ledger or an error; an error rolls the message back.
 */
module Ledger {
  import opened Swap
  import opened PoolUnits
  import opened Withdrawal
  import opened Pools

  type Address = string

  /** The account that holds the coins of all pools. */
  const MODULE: Address := "clp"

  const POOL_THRESHOLD: nat := 1_000_000_000_000_000_000

  datatype Error =
    | TokenNotSupported | PermissionDenied | PoolDoesNotExist | LiquidityProviderDoesNotExist
    | UnableToCreatePool | TotalAmountTooLow | UnitsNotComputed | BalanceNotAvailable
    | UnableToSwap | PoolTooShallow | ReceivedAmountBelowExpected | NotEnoughLiquidity
    | BalanceTooHigh | NotPermitted | Panic

  datatype Result<+T> = Ok(value: T) | Err(error: Error) {
    predicate IsFailure() { Err? }
    function PropagateFailure<U>(): Result<U> requires Err? { Err(error) }
    function Extract(): T requires Ok? { value }
  }

  // ---------- state ----------

  type Bank = map<(Address, Symbol), nat>
  type Providers = map<Address, nat>

  type ProviderStore = map<(Symbol, Address), nat>

  /** Provider records are keyed by asset and address. */
  datatype State = State(pools: map<Symbol, Pool>, providers: ProviderStore, bank: Bank)

  function Balance(bank: Bank, a: Address, s: Symbol): nat {
    if (a, s) in bank then bank[(a, s)] else 0
  }

  /** The units of the providers of one asset. */
  function ProvidersOf(st: State, s: Symbol): Providers {
    map a | a in (set k | k in st.providers && k.0 == s :: k.1) :: st.providers[(s, a)]
  }

  function Send(bank: Bank, from: Address, to: Address, s: Symbol, amount: nat): Result<Bank> {
    if Balance(bank, from, s) < amount then Err(BalanceNotAvailable)
    else
      var b := bank[(from, s) := Balance(bank, from, s) - amount];
      Ok(b[(to, s) := Balance(b, to, s) + amount])
  }

  /** An external and a native coin in one transfer. */
  function SendBoth(bank: Bank, from: Address, to: Address, s: Symbol, external: nat, native: nat): Result<Bank> {
    var b :- Send(bank, from, to, s, external);
    Send(b, from, to, NATIVE, native)
  }

  // ---------- messages ----------

  datatype Msg =
    | CreatePool(signer: Address, symbol: Symbol, native: nat, external: nat)
    | AddLiquidity(signer: Address, symbol: Symbol, native: nat, external: nat)
    | RemoveLiquidity(signer: Address, symbol: Symbol, wBasis: nat, asymmetry: int)
    | SwapAssets(signer: Address, sent: Symbol, received: Symbol, amount: nat, minReceiving: nat)
    | DecommissionPool(signer: Address, symbol: Symbol)
  {
    /** What ValidateBasic admits; the module account signs nothing. */
    predicate Valid() {
      && signer != "" && signer != MODULE
      && match this
         case CreatePool(_, s, native, external) => s != NATIVE && native > 0 && external > 0
         case AddLiquidity(_, s, native, external) => s != NATIVE && (native > 0 || external > 0)
         case RemoveLiquidity(_, _, w, asymmetry) =>
           0 < w <= MAX_BASIS && -(MAX_BASIS as int) <= asymmetry <= MAX_BASIS
         case SwapAssets(_, sent, received, amount, _) => sent != received && amount > 0
         case DecommissionPool(_, _) => true
    }
  }

  /** A token-registry entry. */
  datatype Entry = Entry(decimals: int, clp: bool)

  /**
   What a message finds around it: the token registry, the addresses allowed to decommission,
   the order in which provider records are listed, and whether something outside the handlers
   (a 256-bit overflow, lack of gas, a recipient the bank refuses) aborts the message.
   */
  datatype Env = Env(registry: map<Symbol, Entry>, admins: set<Address>, listing: seq<Address>, aborts: bool)

  function Registered(env: Env, s: Symbol): Result<Entry> {
    if s in env.registry then Ok(env.registry[s]) else Err(TokenNotSupported)
  }

  function Permitted(env: Env, s: Symbol): Result<Normalization> {
    var entry :- Registered(env, s);
    if entry.clp then Ok(GetNormalizationFactor(entry.decimals)) else Err(PermissionDenied)
  }

  function GetPool(st: State, s: Symbol): Result<Pool> {
    if s in st.pools then Ok(st.pools[s]) else Err(PoolDoesNotExist)
  }

  function CreatePoolStep(st: State, env: Env, m: Msg): Result<State>
    requires m.CreatePool? && m.Valid()
  {
    if m.native < POOL_THRESHOLD then Err(TotalAmountTooLow)
    else
      var n :- Permitted(env, m.symbol);
      if m.symbol in st.pools then Err(UnableToCreatePool)
      else
        match CalculatePoolUnits(0, 0, 0, m.native, m.external, n)
        case Units(total, minted) =>
          var bank :- SendBoth(st.bank, m.signer, MODULE, m.symbol, m.external, m.native);
          Ok(State(st.pools[m.symbol := Pool(m.native, m.external, total)],
                   st.providers[(m.symbol, m.signer) := minted], bank))
        case _ => Err(UnitsNotComputed)
  }

  function AddLiquidityStep(st: State, env: Env, m: Msg): Result<State>
    requires m.AddLiquidity? && m.Valid()
  {
    var n :- Permitted(env, m.symbol);
    var pool :- GetPool(st, m.symbol);
    match CalculatePoolUnits(pool.units, pool.native, pool.external, m.native, m.external, n)
    case Units(total, minted) =>
      var bank :- SendBoth(st.bank, m.signer, MODULE, m.symbol, m.external, m.native);
      var key := (m.symbol, m.signer);
      var units := if key in st.providers then st.providers[key] + minted else minted;
      Ok(State(st.pools[m.symbol := Pool(pool.native + m.native, pool.external + m.external, total)],
               st.providers[key := units], bank))
    case _ => Err(UnitsNotComputed)
  }

  /** The pool and the two coins to pay after an asymmetric withdrawal has been rebalanced. */
  datatype Rebalanced = Rebalanced(pool: Pool, native: nat, external: nat)

  /**
   Swaps part of the withdrawn coins.  The coins are adjusted only when the swap yields
   something, but the swapped pool is always taken over.
   */
  function Rebalance(pool: Pool, s: Symbol, pay: Payout, asymmetry: int, n: Normalization): Result<Rebalanced>
    requires pay.Payout? && n.Valid()
  {
    if asymmetry == 0 then Ok(Rebalanced(pool, pay.native, pay.external))
    else if asymmetry > 0 then
      match SwapOne(NATIVE, pay.swapAmount, s, pool, n)
      case NotEnoughAssetTokens => Err(UnableToSwap)
      case Swapped(result, _, _, swapped) =>
        if result == 0 then Ok(Rebalanced(swapped, pay.native, pay.external))
        else if pay.native < pay.swapAmount then Err(Panic)
        else Ok(Rebalanced(swapped, pay.native - pay.swapAmount, pay.external + result))
    else
      match SwapOne(s, pay.swapAmount, NATIVE, pool, n)
      case NotEnoughAssetTokens => Err(UnableToSwap)
      case Swapped(result, _, _, swapped) =>
        if result == 0 then Ok(Rebalanced(swapped, pay.native, pay.external))
        else if pay.external < pay.swapAmount then Err(Panic)
        else Ok(Rebalanced(swapped, pay.native + result, pay.external - pay.swapAmount))
  }

  /** The pool with a withdrawal taken out; an underflow aborts. */
  function TakeOut(pool: Pool, lpUnits: nat, pay: Payout): Result<Pool>
    requires pay.Payout?
  {
    if pool.units < lpUnits || pool.native < pay.native || pool.external < pay.external then Err(Panic)
    else Ok(Pool(pool.native - pay.native, pool.external - pay.external, pool.units - lpUnits + pay.unitsLeft))
  }

  function RemoveLiquidityStep(st: State, env: Env, m: Msg): Result<State>
    requires m.RemoveLiquidity? && m.Valid()
  {
    var n :- Permitted(env, m.symbol);
    var pool :- GetPool(st, m.symbol);
    var key := (m.symbol, m.signer);
    if key !in st.providers then Err(LiquidityProviderDoesNotExist)
    else
      var lpUnits := st.providers[key];
      var pay := CalculateWithdrawal(pool.units, pool.native, pool.external, lpUnits, m.wBasis, m.asymmetry);
      if pay.DivisionByZero? then Err(Panic)
      else
        var rest :- TakeOut(pool, lpUnits, pay);
        if m.asymmetry != 0 && (rest.external == 0 || rest.native == 0) then Err(PoolTooShallow)
        else
          var r :- Rebalance(rest, m.symbol, pay, m.asymmetry, n);
          if r.external >= pool.external || r.native >= pool.native then Err(PoolTooShallow)
          else
            var bank := SendBoth(st.bank, MODULE, m.signer, m.symbol, r.external, r.native);
            if bank.Err? then Err(NotEnoughLiquidity)
            else
              Ok(State(st.pools[m.symbol := r.pool],
                       if pay.unitsLeft == 0 then st.providers - {key} else st.providers[key := pay.unitsLeft],
                       bank.value))
  }

  /** The first leg of a swap between two external assets: into the native asset. */
  function FirstLeg(st: State, m: Msg, n: Normalization): Result<(map<Symbol, Pool>, nat)>
    requires m.SwapAssets? && n.Valid()
  {
    var pool :- GetPool(st, m.sent);
    match SwapOne(m.sent, m.amount, NATIVE, pool, n)
    case NotEnoughAssetTokens => Err(UnableToSwap)
    case Swapped(result, _, _, swapped) => Ok((st.pools[m.sent := swapped], result))
  }

  function SwapStep(st: State, env: Env, m: Msg): Result<State>
    requires m.SwapAssets? && m.Valid()
  {
    var sEntry :- Registered(env, m.sent);
    var rEntry :- Registered(env, m.received);
    var ns :- Permitted(env, m.sent);
    var nr :- Permitted(env, m.received);
    if m.sent != NATIVE && m.sent !in st.pools then Err(PoolDoesNotExist)
    else
      var bank :- Send(st.bank, m.signer, MODULE, m.sent, m.amount);
      var twoLegs := m.sent != NATIVE && m.received != NATIVE;
      var (pools, amount) :- if twoLegs then FirstLeg(st, m, ns) else Ok((st.pools, m.amount));
      var from := if twoLegs then NATIVE else m.sent;
      var key := if m.received == NATIVE then m.sent else m.received;
      if key !in pools then Err(PoolDoesNotExist)
      else
        match SwapOne(from, amount, m.received, pools[key], if m.received == NATIVE then ns else nr)
        case NotEnoughAssetTokens => Err(UnableToSwap)
        case Swapped(result, _, _, swapped) =>
          if result < m.minReceiving then Err(ReceivedAmountBelowExpected)
          else
            var bank' :- Send(bank, MODULE, m.signer, m.received, result);
            Ok(State(pools[key := swapped], st.providers, bank'))
  }

  // ---------- decommissioning ----------

  /** A provider's refund: everything its units are worth in the pool as it was found. */
  function RefundOf(pool: Pool, lpUnits: nat): Payout {
    CalculateWithdrawal(pool.units, pool.native, pool.external, lpUnits, MAX_BASIS, 0)
  }

  /** Running totals of the refund loop: what is left of the pool, and the state so far. */
  datatype Refunding = Refunding(units: nat, native: nat, external: nat, bank: Bank, left: Providers)

  function RefundOne(r: Refunding, pool: Pool, s: Symbol, a: Address): Result<Refunding> {
    if a !in r.left then Err(Panic)
    else
      var pay := RefundOf(pool, r.left[a]);
      if pay.DivisionByZero? || r.units < r.left[a] || r.native < pay.native || r.external < pay.external then Err(Panic)
      else
        var bank :- SendBoth(r.bank, MODULE, a, s, pay.external, pay.native);
        Ok(Refunding(r.units - r.left[a], r.native - pay.native, r.external - pay.external, bank, r.left - {a}))
  }

  function RefundAll(r: Refunding, pool: Pool, s: Symbol, order: seq<Address>): Result<Refunding> {
    if order == [] then Ok(r)
    else
      var r' :- RefundAll(r, pool, s, order[..|order| - 1]);
      RefundOne(r', pool, s, order[|order| - 1])
  }

  function StartRefund(st: State, s: Symbol, pool: Pool): Refunding {
    Refunding(pool.units, pool.native, pool.external, st.bank, ProvidersOf(st, s))
  }

  function DecommissionStep(st: State, env: Env, m: Msg): Result<State>
    requires m.DecommissionPool? && m.Valid()
  {
    var pool :- GetPool(st, m.symbol);
    if m.signer !in env.admins then Err(NotPermitted)
    else if pool.native >= POOL_THRESHOLD then Err(BalanceTooHigh)
    else
      var r :- RefundAll(StartRefund(st, m.symbol, pool), pool, m.symbol, env.listing);
      Ok(State(st.pools - {m.symbol}, st.providers - (set a | a in env.listing :: (m.symbol, a)), r.bank))
  }

  // ---------- delivery ----------

  function Step(st: State, env: Env, m: Msg): Result<State>
    requires m.Valid()
  {
    if env.aborts then Err(Panic)
    else match m
      case CreatePool(_, _, _, _) => CreatePoolStep(st, env, m)
      case AddLiquidity(_, _, _, _) => AddLiquidityStep(st, env, m)
      case RemoveLiquidity(_, _, _, _) => RemoveLiquidityStep(st, env, m)
      case SwapAssets(_, _, _, _, _) => SwapStep(st, env, m)
      case DecommissionPool(_, _) => DecommissionStep(st, env, m)
  }

  /** A failing message leaves the ledger as it was. */
  function Deliver(st: State, env: Env, m: Msg): State
    requires m.Valid()
  {
    var r := Step(st, env, m);
    if r.Ok? then r.value else st
  }
}
