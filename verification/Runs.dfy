/**
 Whole runs of the ledger, from a chain without pools.
 */
module Runs {
  import opened Sums
  import opened Swap
  import opened Withdrawal
  import opened Pools
  import opened Ledger
  import opened Decommission
  import opened Invariants

  /** A message, or bank activity elsewhere on the chain. */
  datatype Event = Message(env: Env, m: Msg) | Elsewhere(bank: Bank)

  /** A message that fails its basic validation never reaches its handler. */
  function Apply(st: State, e: Event): State {
    match e
    case Message(env, m) => if m.Valid() then Deliver(st, env, m) else st
    case Elsewhere(bank) => st.(bank := bank)
  }

  /** Messages are well formed; only the module's own handlers spend the module's coins. */
  ghost predicate Admissible(st: State, e: Event) {
    match e
    case Message(env, m) => m.Valid() ==> ListingOk(st, env, m)
    case Elsewhere(bank) => forall d :: Balance(bank, MODULE, d) >= Balance(st.bank, MODULE, d)
  }

  function Final(st: State, events: seq<Event>): State {
    if events == [] then st
    else Apply(Final(st, events[..|events| - 1]), events[|events| - 1])
  }

  ghost predicate ValidRun(st: State, events: seq<Event>) {
    events == [] ||
    (ValidRun(st, events[..|events| - 1]) && Admissible(Final(st, events[..|events| - 1]), events[|events| - 1]))
  }

  ghost predicate NoPools(st: State) {
    st.pools == map[] && forall s :: ProvidersOf(st, s) == map[]
  }

  // ---------- what one event does ----------

  ghost function EventChange(st: State, e: Event, d: Symbol): int {
    match e
    case Message(env, m) => if m.Valid() && Step(st, env, m).Ok? then SurplusChange(st, env, m, d) else 0
    case Elsewhere(bank) => Balance(bank, MODULE, d) - Balance(st.bank, MODULE, d)
  }

  ghost function EventAllowance(st: State, e: Event, s: Symbol): nat {
    if e.Message? then DriftAllowance(st, e.env, e.m, s) else 0
  }

  /** Sum of the surplus changes of a run. */
  ghost function TotalChange(st: State, events: seq<Event>, d: Symbol): int {
    if events == [] then 0
    else
      var rest := events[..|events| - 1];
      TotalChange(st, rest, d) + EventChange(Final(st, rest), events[|events| - 1], d)
  }

  /** Sum of the drift allowances of the deposits since the pool was created. */
  ghost function DriftBudget(st: State, events: seq<Event>, s: Symbol): nat {
    if events == [] then 0
    else
      var rest := events[..|events| - 1];
      if s !in Final(st, rest).pools then 0
      else DriftBudget(st, rest, s) + EventAllowance(Final(st, rest), events[|events| - 1], s)
  }

  ghost predicate DriftWithin(st: State, s: Symbol, budget: nat) {
    s in st.pools ==> -(budget as int) <= Drift(st, s) <= budget
  }

  lemma EventKeeps(st: State, e: Event)
    requires Inv(st) && Admissible(st, e)
    ensures var after := Apply(st, e);
            && Inv(after)
            && (forall d :: Surplus(after, d) == Surplus(st, d) + EventChange(st, e, d))
            && (forall s, b: nat | DriftWithin(st, s, b) ::
                  DriftWithin(after, s, if s in st.pools then b + EventAllowance(st, e, s) else 0))
  {
    hide Sum, Balance, SurplusChange, DriftAllowance, Recorded, Step;
    match e
    case Message(env, m) =>
      if m.Valid() && Step(st, env, m).Ok? { StepKeeps(st, env, m); }
    case Elsewhere(bank) =>
      var after := st.(bank := bank);
      assert forall s :: ProvidersOf(after, s) == ProvidersOf(st, s);
      assert forall d :: Recorded(after, d) == Recorded(st, d) by { forall d { SameRecorded(st, after, d); } }
  }

  lemma SameRecorded(st: State, after: State, d: Symbol)
    requires st.pools == after.pools
    ensures Recorded(st, d) == Recorded(after, d)
  {
  }

  /**
   In every reachable state: pools hold both assets, the module's coins are the recorded
   balances plus the changes of the run, and each pool's units are its providers' units up to
   the allowances of the deposits made.
   */
  lemma {:induction false} RunKeeps(st: State, events: seq<Event>)
    requires NoPools(st) && ValidRun(st, events)
    ensures var last := Final(st, events);
            && Inv(last)
            && (forall d :: Surplus(last, d) == Balance(st.bank, MODULE, d) + TotalChange(st, events, d))
            && (forall s :: DriftWithin(last, s, DriftBudget(st, events, s)))
    decreases |events|
  {
    if events == [] {
      assert NativeBalances(st.pools) == map[];
    } else {
      hide Sum, Balance, Inv, Surplus, DriftWithin, EventChange, EventAllowance, Apply, Admissible;
      var rest, e := events[..|events| - 1], events[|events| - 1];
      RunKeeps(st, rest);
      var mid, last := Final(st, rest), Final(st, events);
      EventKeeps(mid, e);
      forall s ensures DriftWithin(last, s, DriftBudget(st, events, s)) {
        assert DriftWithin(mid, s, DriftBudget(st, rest, s));
      }
    }
  }

  // ---------- solvency ----------

  /** The module holds what the pools claim, in every asset. */
  ghost predicate Solvent(st: State) { forall d :: Balance(st.bank, MODULE, d) >= Recorded(st, d) }

  /** An event other than an asymmetric withdrawal whose swap takes something and yields nothing. */
  ghost predicate Backed(st: State, e: Event) {
    e.Message? && e.m.Valid() && e.m.RemoveLiquidity? && Step(st, e.env, e.m).Ok? ==>
      var x := RemovalOf(st, e.env, e.m);
      x.pay.Payout? && x.n.Valid() ==> Unbacked(x.rest, e.m.symbol, x.pay, e.m.asymmetry, x.n) == 0
  }

  ghost predicate BackedRun(st: State, events: seq<Event>) {
    events == [] ||
    (BackedRun(st, events[..|events| - 1]) && Backed(Final(st, events[..|events| - 1]), events[|events| - 1]))
  }

  /**
   The amounts decide, for any decimals: an asymmetric withdrawal is backed if and only if it swaps
   nothing or its swap, if it can be made, yields something.
   */
  lemma BackedByAmounts(st: State, e: Event)
    requires Inv(st) && e.Message? && e.m.Valid() && e.m.RemoveLiquidity? && e.m.asymmetry != 0
    requires Step(st, e.env, e.m).Ok?
    ensures
      var x := RemovalOf(st, e.env, e.m);
      var toRowan := e.m.asymmetry < 0;
      var (X, Y) := if toRowan then (x.rest.external, x.rest.native) else (x.rest.native, x.rest.external);
      && x.pay.Payout? && x.n.Valid()
      && (Backed(st, e) <==> x.pay.swapAmount == 0 || !YieldsNothing(toRowan, x.n, X, x.pay.swapAmount, Y))
  {
    hide YieldsNothing, CalcSwapResult, CalcLiquidityFee, CalculateWithdrawal, GetNormalizationFactor, TakeOut, SendBoth,
         ProvidersOf;
    RemovalEffect(st, e.env, e.m);
    var x := RemovalOf(st, e.env, e.m);
    var toRowan := e.m.asymmetry < 0;
    var (X, Y) := if toRowan then (x.rest.external, x.rest.native) else (x.rest.native, x.rest.external);
    if x.pay.swapAmount > 0 { YieldExactly(toRowan, x.n, X, x.pay.swapAmount, Y); }
  }

  lemma BackedNeverLoses(st: State, e: Event, d: Symbol)
    requires Inv(st) && Admissible(st, e) && Backed(st, e)
    ensures EventChange(st, e, d) >= 0
  {
    hide Sum, Balance, RemovalOf, Unbacked, Recorded, RemoveLiquidityStep, CreatePoolStep, AddLiquidityStep,
         SwapStep, DecommissionStep, TotalNative, TotalExternal;
    if e.Message? && e.m.Valid() && Step(st, e.env, e.m).Ok? && e.m.DecommissionPool? {
      DecommissionNeedsPool(st, e.env, e.m);
      RefundsWithinPool(st, e.env, e.m);
    }
  }

  lemma UnbackedChange(st: State, e: Event)
    requires Inv(st) && Admissible(st, e) && !Backed(st, e)
    ensures
      var x := RemovalOf(st, e.env, e.m);
      EventChange(st, e, if e.m.asymmetry > 0 then NATIVE else e.m.symbol) == -(x.pay.swapAmount as int) < 0
  {
    hide Sum, Balance, RemovalOf, Recorded, RemoveLiquidityStep, SwapOne;
  }

  /**
   An unbacked withdrawal: the module's coins of the asset to be swapped fall short of the recorded
   balances by the whole swap amount more than before.
   */
  lemma UnbackedLoses(st: State, e: Event)
    requires Inv(st) && Admissible(st, e) && !Backed(st, e)
    ensures
      var x := RemovalOf(st, e.env, e.m);
      var d := if e.m.asymmetry > 0 then NATIVE else e.m.symbol;
      && Surplus(Apply(st, e), d) == Surplus(st, d) - x.pay.swapAmount
      && x.pay.swapAmount > 0
  {
    hide Surplus, EventChange, Apply, Inv, RemovalOf;
    EventKeeps(st, e);
    UnbackedChange(st, e);
  }

  /** An event lowers the module's cover of some asset exactly when it is an unbacked withdrawal. */
  lemma LosesExactly(st: State, e: Event)
    requires Inv(st) && Admissible(st, e)
    ensures Backed(st, e) <==> forall d :: Surplus(Apply(st, e), d) >= Surplus(st, d)
  {
    hide Surplus, EventChange, Apply, Inv, RemovalOf, Unbacked;
    EventKeeps(st, e);
    if Backed(st, e) {
      forall d ensures EventChange(st, e, d) >= 0 { BackedNeverLoses(st, e, d); }
    } else {
      UnbackedLoses(st, e);
      var d := if e.m.asymmetry > 0 then NATIVE else e.m.symbol;
      assert Surplus(Apply(st, e), d) < Surplus(st, d);
    }
  }

  lemma {:induction false} BackedRunGains(st: State, events: seq<Event>, d: Symbol)
    requires NoPools(st) && ValidRun(st, events) && BackedRun(st, events)
    ensures TotalChange(st, events, d) >= 0
    decreases |events|
  {
    hide EventChange, Backed, Admissible, Inv;
    if events != [] {
      var rest := events[..|events| - 1];
      RunKeeps(st, rest);
      BackedRunGains(st, rest, d);
      BackedNeverLoses(Final(st, rest), events[|events| - 1], d);
    }
  }

  /** A run is solvent exactly when its changes are covered. */
  lemma CoveredIsSolvent(st: State, events: seq<Event>)
    requires NoPools(st) && ValidRun(st, events)
    ensures Solvent(Final(st, events)) <==>
              forall d :: Balance(st.bank, MODULE, d) + TotalChange(st, events, d) >= 0
  {
    hide Balance, Recorded, TotalChange, ValidRun, Inv, Final;
    RunKeeps(st, events);
    var last := Final(st, events);
    forall d
      ensures Balance(last.bank, MODULE, d) >= Recorded(last, d) <==>
              Balance(st.bank, MODULE, d) + TotalChange(st, events, d) >= 0
    {
      assert Surplus(last, d) == Balance(st.bank, MODULE, d) + TotalChange(st, events, d);
    }
  }

  /** A run without an unbacked withdrawal ends solvent. */
  lemma RunSolvent(st: State, events: seq<Event>)
    requires NoPools(st) && ValidRun(st, events)
    ensures BackedRun(st, events) ==> Solvent(Final(st, events))
  {
    hide Balance, TotalChange, ValidRun, BackedRun, Final, Solvent;
    if BackedRun(st, events) {
      CoveredIsSolvent(st, events);
      forall d ensures TotalChange(st, events, d) >= 0 { BackedRunGains(st, events, d); }
    }
  }

  /** An event does not lower the module's cover of any asset. */
  ghost predicate Covers(before: State, after: State) { forall d :: Surplus(before, d) <= Surplus(after, d) }

  ghost predicate CoveredAt(st: State, events: seq<Event>, i: nat)
    requires i < |events|
  {
    Covers(Final(st, events[..i]), Final(st, events[..i + 1]))
  }

  /** The cover of every asset never falls along a run exactly when the run has no unbacked withdrawal. */
  lemma {:induction false} CoverNeverFalls(st: State, events: seq<Event>)
    requires NoPools(st) && ValidRun(st, events)
    ensures BackedRun(st, events) <==> forall i | 0 <= i < |events| :: CoveredAt(st, events, i)
    decreases |events|
  {
    hide Covers, Backed, Apply, Admissible, Inv, Final, NoPools;
    if events != [] {
      var rest, e := events[..|events| - 1], events[|events| - 1];
      CoverNeverFalls(st, rest);
      LastCovers(st, events);
      assert events[..|events|] == events;
      forall i | 0 <= i < |rest| ensures CoveredAt(st, rest, i) == CoveredAt(st, events, i) {
        assert rest[..i] == events[..i] && rest[..i + 1] == events[..i + 1];
      }
      assert CoveredAt(st, events, |rest|) <==> Backed(Final(st, rest), e);
      if BackedRun(st, events) {
        forall i | 0 <= i < |events| ensures CoveredAt(st, events, i) {
          if i < |rest| { assert CoveredAt(st, rest, i); }
        }
      }
    }
  }

  lemma LastCovers(st: State, events: seq<Event>)
    requires NoPools(st) && ValidRun(st, events) && events != []
    ensures
      var rest := events[..|events| - 1];
      Covers(Final(st, rest), Final(st, events)) <==> Backed(Final(st, rest), events[|events| - 1])
  {
    hide Surplus, Backed, Apply, Admissible, Inv, NoPools;
    var rest := events[..|events| - 1];
    RunKeeps(st, rest);
    LosesExactly(Final(st, rest), events[|events| - 1]);
  }
}
