/**
 A run that leaves the module short: the pool's creator withdraws half of a pool with two
 external units, all of it to be paid in the external asset.  The swap yields nothing, the
 native coins are paid all the same, and the pool books them as if they had stayed.
 */
module Insolvency {
  import opened FixedPoint
  import opened Sums
  import opened Swap
  import opened Withdrawal
  import opened Pools
  import opened Ledger
  import opened Invariants
  import opened Runs
  import opened Scenario

  lemma HalfPortion(v: nat)
    ensures Portion(NewDec(2 * v), 5000) == NewDec(v)
  {
    hide Quo;
    QuoExact(NewDec(MAX_BASIS), NewDec(5000), NewDec(2));
    QuoExact(NewDec(2 * v), NewDec(2), NewDec(v));
  }

  lemma HalfWorth(v: nat, k: nat)
    requires k > 0
    ensures Divisible(2 * k, NewDec(k)) && RoundInt(Worth(2 * v, 2 * k, NewDec(k))) == v
  {
    hide Quo, Chop;
    QuoExact(NewDec(2 * k), NewDec(k), NewDec(2));
    QuoExact(NewDec(2 * v), NewDec(2), NewDec(v));
    ChopExact(v);
  }

  /** Half of everything, the native half marked for swapping. */
  lemma HalfPayout(j: nat, k: nat)
    requires k > 0
    ensures CalculateWithdrawal(2 * k, 2 * j, 2, 2 * k, 5000, 10000) == Payout(j, 1, k, j)
  {
    hide Quo, Chop, Portion, Worth, Divisible;
    HalfPortion(k);
    PortionAtMost(NewDec(k), MAX_BASIS);
    HalfWorth(j, k);
    HalfWorth(1, k);
    assert NewDec(2 * k) - NewDec(k) == NewDec(k);
    ChopExact(k);
  }

  ghost const REMOVE: Msg := RemoveLiquidity(ALICE, ETH, 5000, 10000)

  lemma RemovalRuns(j: nat)
    requires j > 0
    ensures var r := Step(Created(2 * j, 2, 0, 0), REGISTRY, REMOVE);
            && r.Ok?
            && r.value.pools == map[ETH := Pool(2 * j, 1, j)] && r.value.providers == map[(ETH, ALICE) := j]
            && Balance(r.value.bank, MODULE, NATIVE) == j && Balance(r.value.bank, MODULE, ETH) == 1
  {
    hide CalculateWithdrawal, SwapOne;
    HalfPayout(j, j);
    var n := GetNormalizationFactor(18);
    SwapOneAlwaysPays(NATIVE, j, ETH, Pool(j, 1, j), 18);
    SwapOneConserves(NATIVE, j, ETH, Pool(j, 1, j), n);
    assert SwapOne(NATIVE, j, ETH, Pool(j, 1, j), n).pool == Pool(2 * j, 1, j);
  }

  /** The creation of a pool and an asymmetric withdrawal of half of it. */
  ghost function Shortening(j: nat): seq<Event> {
    [Message(REGISTRY, CreatePool(ALICE, ETH, 2 * j, 2)), Message(REGISTRY, REMOVE)]
  }

  lemma ShorteningRun(j: nat)
    requires 2 * j >= POOL_THRESHOLD
    ensures NoPools(Start(2 * j, 2, 0, 0)) && ValidRun(Start(2 * j, 2, 0, 0), Shortening(j))
    ensures var last := Final(Start(2 * j, 2, 0, 0), Shortening(j));
            && last.pools == map[ETH := Pool(2 * j, 1, j)] && last.providers == map[(ETH, ALICE) := j]
            && Balance(last.bank, MODULE, NATIVE) == j && Balance(last.bank, MODULE, ETH) == 1
  {
    hide Step;
    var start, events := Start(2 * j, 2, 0, 0), Shortening(j);
    assert events[..1] == [events[0]] && [events[0]][..0] == [];
    assert ValidRun(start, []) && ValidRun(start, [events[0]]);
    CreationRuns(2 * j, 2, 0, 0);
    assert Final(start, [events[0]]) == Created(2 * j, 2, 0, 0);
    RemovalRuns(j);
  }

  /** Two admissible messages from a chain without pools leave the module short by half the pool. */
  lemma InsolventRun(j: nat)
    requires 2 * j >= POOL_THRESHOLD
    ensures var start, events := Start(2 * j, 2, 0, 0), Shortening(j);
            && NoPools(start) && ValidRun(start, events)
            && Surplus(Final(start, events), NATIVE) == -(j as int)
            && !Solvent(Final(start, events))
  {
    hide Sum, Final, ValidRun, NoPools;
    ShorteningRun(j);
    var last := Final(Start(2 * j, 2, 0, 0), Shortening(j));
    assert NativeBalances(last.pools) == map[ETH := 2 * j];
    SinglePool(ETH, 2 * j);
  }

  lemma SinglePool(s: Symbol, v: int)
    ensures Sum(map[s := v]) == v
  {
    var e: map<Symbol, int> := map[];
    SumUpdate(e, s, v);
    assert e[s := v] == map[s := v];
  }
}
