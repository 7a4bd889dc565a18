/**
 Runs after which a pool below the threshold cannot be decommissioned: a deposit too small for any
 unit, a deposit whose units round up while the total rounds down, refunds that round up together, and
 coins that an earlier withdrawal paid out unbacked; a run after which a provider cannot withdraw; and one whose
 deposit of a single asset dilutes the creator.
 */
module Blocked {
  import opened FixedPoint
  import opened Precision
  import opened RelativeError
  import opened Curve
  import opened Swap
  import opened PoolUnits
  import opened Minting
  import opened Withdrawal
  import opened Sums
  import opened Pools
  import opened Ledger
  import opened Refunds
  import opened Decommission
  import opened Invariants
  import opened Runs
  import opened Scenario
  import Dilution
  import Insolvency

  // ---------- a small deposit of the native asset alone ----------

  lemma OneSidedExponent(N: nat, E: nat, r: nat)
    ensures ScaleExponent([N, N, E, r, 0]) == 6
  {
    var inputs := [N, N, E, r, 0];
    assert inputs[4] == 0;
    MinDigitsIsLower(inputs, 4);
  }

  /** The share is half the deposit, exactly; the slip is a few units of the last place. */
  lemma OneSidedParts(N: nat, E: nat, r: nat)
    requires N >= ONE && E > 0 && 0 < r <= 3
    ensures Mul(r * TERA + N * TERA, 0 * TERA + E * TERA) > 0 && Mul(Mul(2 * ONE, E * TERA), N * TERA) > 0
    ensures Share(N * TERA, N * TERA, E * TERA, r * TERA, 0 * TERA) == r * 500_000_000_000
    ensures Slip(N * TERA, E * TERA, r * TERA, 0 * TERA) <= r
  {
    hide Mul, Quo, Share, Slip;
    var u, g := r as real / 2.0, r as real / (r + N) as real;
    OneSidedRatios(N as real, E as real, r as real, u, g);
    SixShare(N, N, E, r, 0, u);
    SixSlip(N, E, r, 0, g);
    WholeUlps(Share(N * TERA, N * TERA, E * TERA, r * TERA, 0 * TERA), u / 1000000.0, r * 500_000_000_000);
    SlipSmall(Slip(N * TERA, E * TERA, r * TERA, 0 * TERA), g, r);
  }

  lemma OneSidedRatios(N: real, E: real, r: real, u: real, g: real)
    requires N >= 1000000000000000000.0 && E > 0.0 && r > 0.0 && u == r / 2.0 && g == r / (r + N)
    ensures IsShare(u, N, N, E, r, 0.0) && IsSlip(g, N, E, r, 0.0)
    ensures g * 1000000000000000000.0 <= r
  {
    DivDef(r, r + N);
    assert 0.0 * N + E * r == E * r && r * E >= 0.0;
    assert u * (2.0 * (E * N)) == N * (E * r);
    assert g * ((r + N) * (0.0 + E)) == (g * (r + N)) * E;
    assert Abs(N * 0.0 - r * E) == r * E;
    Cancel(0.0, g, r + N, 0.0, r);
    Scale(1000000000000000000.0, r + N, g, 1000000000000000000.0 * g, r);
  }

  /** A decimal within one unit of the last place of another is that decimal. */
  lemma WholeUlps(q: Dec, v: real, k: nat)
    requires Ulps(Val(q), v) <= 0.51 && v * 1000000000000000000.0 == k as real
    ensures q == k
  {
  }

  lemma SlipSmall(q: Dec, g: real, r: nat)
    requires Ulps(Val(q), g) <= 0.51 && g * 1000000000000000000.0 <= r as real
    ensures q <= r
  {
  }

  lemma ChopBelow(q: nat, d: nat)
    requires 2 * d < ONE && q > 0
    ensures Chop(q * ONE - d) == q
  {
  }

  /** Into a pool with as many units as native coins, r native coins alone mint r/2 units, rounded half-even. */
  lemma OneSidedMint(N: nat, E: nat, r: nat)
    requires N >= ONE && E > 0 && 0 < r <= 3
    ensures CalculatePoolUnits(N, N, E, r, 0, GetNormalizationFactor(18)) == Units(Chop(N * ONE + r * HALF_UNIT), Chop(r * HALF_UNIT))
  {
    hide Chop, Mul, Quo, Share, Slip, Stake, ScaleExponent, Reduced, IncreasePrecision;
    ChopExact(1);
    OneSidedExponent(N, E, r);
    OneSidedParts(N, E, r);
    OneSidedStake(N, E, r);
    ReducedSix(N);
    assert Pow10(6) == MEGA;
    IncreaseExact(r * 500_000_000_000, 6);
    IncreaseExact(N * TERA + r * 500_000_000_000, 6);
  }

  lemma OneSidedStake(N: nat, E: nat, r: nat)
    requires N >= ONE && E > 0 && 0 < r <= 3
    ensures Stake(N, N, E, r, 0, 6) == r * 500_000_000_000
  {
    hide Chop, Quo, Share, Slip, Stake;
    OneSidedParts(N, E, r);
    SixStakeIs(N, N, E, r, 0);
    var q, slip := r * 500_000_000_000, Slip(N * TERA, E * TERA, r * TERA, 0 * TERA);
    assert q * (ONE - slip) == q * ONE - q * slip;
    MulLe(slip, 3, q);
    ChopBelow(q, q * slip);
  }

  // ---------- the messages ----------

  ghost function Joined(N: nat, E: nat, r: nat, e: nat, total: nat, minted: nat): State {
    State(map[ETH := Pool(N + r, E + e, total)], map[(ETH, ALICE) := N, (ETH, BOB) := minted],
          map[(ALICE, NATIVE) := 0, (ALICE, ETH) := 0, (BOB, NATIVE) := 0, (BOB, ETH) := 0,
              (MODULE, NATIVE) := N + r, (MODULE, ETH) := E + e])
  }

  lemma JoiningRuns(N: nat, E: nat, r: nat, e: nat, total: nat, minted: nat)
    requires r > 0 || e > 0
    requires CalculatePoolUnits(N, N, E, r, e, GetNormalizationFactor(18)) == Units(total, minted)
    ensures Step(Created(N, E, r, e), REGISTRY, AddLiquidity(BOB, ETH, r, e)) == Ok(Joined(N, E, r, e, total, minted))
  {
    hide CalculatePoolUnits, GetNormalizationFactor, SendBoth;
    JoiningPays(N, E, r, e, total, minted);
    var after := Step(Created(N, E, r, e), REGISTRY, AddLiquidity(BOB, ETH, r, e));
    assert after.value.pools == Joined(N, E, r, e, total, minted).pools;
    assert after.value.providers == Joined(N, E, r, e, total, minted).providers;
  }

  lemma JoiningPays(N: nat, E: nat, r: nat, e: nat, total: nat, minted: nat)
    ensures SendBoth(Created(N, E, r, e).bank, BOB, MODULE, ETH, e, r) == Ok(Joined(N, E, r, e, total, minted).bank)
  {
    var paid := SendBoth(Created(N, E, r, e).bank, BOB, MODULE, ETH, e, r);
    assert paid.value == Joined(N, E, r, e, total, minted).bank;
  }

  /** Two messages: the pool is created, and somebody joins it. */
  ghost function Joining(N: nat, E: nat, r: nat, e: nat): seq<Event> {
    [Message(REGISTRY, CreatePool(ALICE, ETH, N, E)), Message(REGISTRY, AddLiquidity(BOB, ETH, r, e))]
  }

  lemma JoiningRun(N: nat, E: nat, r: nat, e: nat, total: nat, minted: nat)
    requires N >= POOL_THRESHOLD && E > 0 && (r > 0 || e > 0)
    requires CalculatePoolUnits(N, N, E, r, e, GetNormalizationFactor(18)) == Units(total, minted)
    ensures NoPools(Start(N, E, r, e)) && ValidRun(Start(N, E, r, e), Joining(N, E, r, e))
    ensures Final(Start(N, E, r, e), Joining(N, E, r, e)) == Joined(N, E, r, e, total, minted)
  {
    hide Step;
    var start, events := Start(N, E, r, e), Joining(N, E, r, e);
    assert events[..1] == [events[0]] && [events[0]][..0] == [];
    assert ValidRun(start, []) && ValidRun(start, [events[0]]);
    CreationRuns(N, E, r, e);
    JoiningRuns(N, E, r, e, total, minted);
  }

  lemma JoinedProviders(N: nat, E: nat, r: nat, e: nat, total: nat, minted: nat)
    ensures var st := Joined(N, E, r, e, total, minted);
            && Inv(st) == (N + r > 0 && E + e > 0)
            && ProvidersOf(st, ETH) == map[ALICE := N, BOB := minted]
            && Drift(st, ETH) == total - N - minted
  {
    var st := Joined(N, E, r, e, total, minted);
    var lps: Providers := map[ALICE := N, BOB := minted];
    ProvidersAt(st, ETH);
    assert ProvidersOf(st, ETH) == lps;
    forall s | s != ETH ensures ProvidersOf(st, s) == map[] { ProvidersAt(st, s); }
    TwoUnits(lps, N, minted);
  }

  lemma TwoUnits(lps: Providers, n: nat, m: nat)
    requires lps == map[ALICE := n, BOB := m]
    ensures Sum(UnitsOf(lps)) == n + m
  {
    var none: map<Address, int> := map[];
    SumUpdate(none, ALICE, n);
    SumUpdate(none[ALICE := n], BOB, m);
    assert UnitsOf(lps) == none[ALICE := n as int][BOB := m as int];
  }

  // ---------- the creator withdraws half ----------

  lemma HalfBounds(N: real, B: real, total: real, w: real, paid: real, slack: real)
    requires 1000000000000000000.0 <= N <= 1900000000000000000.0 && N <= total <= N + 2.0 && 0.0 <= B
    requires w * total == B * (N * 5000.0 / 10000.0) && slack == 500000000000000001.0 + 5102.0 * w
    requires -slack <= (paid - w) * 1000000000000000000.0 <= slack
    ensures paid < B / 2.0 + 0.51 + B / 1000000000000.0
    ensures paid > B / 2.0 - 0.51 - B / 1000000000000.0
  {
    // w lies between (B / 2) (1 - 2 / N) and B / 2
    var h := B / 2.0;
    assert w * total == h * N;
    var ht := h * total;
    Scale(N, total, h, h * N, ht);
    Cancel(w, h, total, w * total, ht);
    Scale(total, N + 2.0, h, ht, h * (N + 2.0));
    Cancel(0.0, w, total, 0.0, h * N);
    var d := h - w;
    assert d * total <= 2.0 * h;
    Scale(1000000000000000000.0, total, d, 1000000000000000000.0 * d, d * total);
  }

  /** After a withdrawal of half the creator's units the pool is below the threshold and keeps both records. */
  lemma HalfRemoval(N: nat, E: nat, r: nat, total: nat, minted: nat)
    requires POOL_THRESHOLD <= N <= 1_900_000_000_000_000_000 && E >= 2 && r <= 3 && N <= total <= N + 2
    ensures var st, m := Joined(N, E, r, 0, total, minted), RemoveLiquidity(ALICE, ETH, 5000, 0);
            var after := Step(st, REGISTRY, m);
            && after.Ok? && ETH in after.value.pools && after.value.pools[ETH].native < POOL_THRESHOLD
            && exists left: nat :: left > 0 && ProvidersOf(after.value, ETH) == map[ALICE := left, BOB := minted]
  {
    hide CalculateWithdrawal, ProvidersOf, Step;
    var st, m := Joined(N, E, r, 0, total, minted), RemoveLiquidity(ALICE, ETH, 5000, 0);
    var pay := CalculateWithdrawal(total, N + r, E, N, 5000, 0);
    HalfPaid(N, E, r, total);
    JoinedBank(N, E, r, 0, total, minted);
    WithdrawalRuns(st, ALICE, 5000, Pool(N + r, E, total), N, pay);
    var after := Step(st, REGISTRY, m).value;
    JoinedProviders(N, E, r, 0, total, minted);
    RecordView(st, ETH, ALICE, pay.unitsLeft, after, ETH);
    assert ProvidersOf(after, ETH) == map[ALICE := pay.unitsLeft, BOB := minted];
  }

  /** A symmetric withdrawal that takes less than either balance, and no more than the coins there are, goes through. */
  lemma WithdrawalRuns(st: State, a: Address, w: nat, pool: Pool, units: nat, pay: Payout)
    requires a != "" && a != MODULE && 0 < w <= MAX_BASIS && ETH in st.pools && st.pools[ETH] == pool
    requires (ETH, a) in st.providers && st.providers[(ETH, a)] == units <= pool.units
    requires pay == CalculateWithdrawal(pool.units, pool.native, pool.external, units, w, 0)
    requires pay.Payout? && pay.native < pool.native && pay.external < pool.external && pay.unitsLeft <= units
    requires pay.native <= Balance(st.bank, MODULE, NATIVE) && pay.external <= Balance(st.bank, MODULE, ETH)
    ensures var after := Step(st, REGISTRY, RemoveLiquidity(a, ETH, w, 0));
            && after.Ok?
            && after.value.pools == st.pools[ETH := Pool(pool.native - pay.native, pool.external - pay.external,
                                                         pool.units - units + pay.unitsLeft)]
            && after.value.providers == (if pay.unitsLeft == 0 then st.providers - {(ETH, a)}
                                         else st.providers[(ETH, a) := pay.unitsLeft])
            && Balance(after.value.bank, MODULE, NATIVE) == Balance(st.bank, MODULE, NATIVE) - pay.native
            && Balance(after.value.bank, MODULE, ETH) == Balance(st.bank, MODULE, ETH) - pay.external
  {
    hide CalculateWithdrawal, SendBoth, Balance, Rebalance;
    SendBothMoves(st.bank, MODULE, a, ETH, pay.external, pay.native);
    assert TakeOut(pool, units, pay).Ok?;
    var rest := TakeOut(pool, units, pay).value;
    NoRebalance(rest, pay, GetNormalizationFactor(18));
  }

  lemma NoRebalance(pool: Pool, pay: Payout, n: Normalization)
    requires pay.Payout? && n.Valid()
    ensures Rebalance(pool, ETH, pay, 0, n) == Ok(Rebalanced(pool, pay.native, pay.external))
  {
  }

  lemma JoinedBank(N: nat, E: nat, r: nat, e: nat, total: nat, minted: nat)
    ensures var bank := Joined(N, E, r, e, total, minted).bank;
            Balance(bank, MODULE, NATIVE) == N + r && Balance(bank, MODULE, ETH) == E + e
  {
  }

  lemma HalfPaid(N: nat, E: nat, r: nat, total: nat)
    requires POOL_THRESHOLD <= N <= 1_900_000_000_000_000_000 && E >= 2 && r <= 3 && N <= total <= N + 2
    ensures var pay := CalculateWithdrawal(total, N + r, E, N, 5000, 0);
            && pay.Payout? && pay.native < N + r && N + r - pay.native < POOL_THRESHOLD
            && pay.external < E && 0 < pay.unitsLeft <= N
  {
    hide CalculateWithdrawal, PaidFor;
    WithdrawalAccuracy(total, N + r, E, N, 5000, 0);
    NoOverWithdrawal(total, N + r, E, N, 5000, 0);
    var pay, c := CalculateWithdrawal(total, N + r, E, N, 5000, 0), ExactClaim(N as real, 5000);
    HalfOf(pay.native, N + r, total, N, c);
    HalfOf(pay.external, E, total, N, c);
  }

  lemma HalfOf(paid: nat, B: nat, total: nat, N: nat, c: real)
    requires POOL_THRESHOLD <= N <= 1_900_000_000_000_000_000 && N <= total <= N + 2
    requires c == ExactClaim(N as real, 5000) && PaidFor(paid, B, total, c, 5102.0)
    ensures var b := B as real;
            b / 2.0 - 0.51 - b / 1000000000000.0 < paid as real < b / 2.0 + 0.51 + b / 1000000000000.0
  {
    var w := ExactWorth(B, total, c);
    DivDef(B as real * c, total as real);
    HalfBounds(N as real, B as real, total as real, w, paid as real, 500000000000000001.0 + 5102.0 * w);
  }

  // ---------- blocked pools ----------

  lemma HalfChops(N: nat)
    ensures Chop(1 * HALF_UNIT) == 0 && Chop(3 * HALF_UNIT) == 2
    ensures N <= Chop(N * ONE + 1 * HALF_UNIT) <= N + 1
    ensures Chop(N * ONE + 3 * HALF_UNIT) == if N % 2 == 1 then N + 1 else N + 2
  {
  }

  /** The pool is created, somebody joins with a few native coins, and the creator withdraws half. */
  ghost function SmallDeposit(N: nat, E: nat, r: nat): seq<Event> {
    Joining(N, E, r, 0) + [Message(REGISTRY, RemoveLiquidity(ALICE, ETH, 5000, 0))]
  }

  lemma SmallDepositRun(N: nat, E: nat, r: nat, total: nat, minted: nat)
    requires POOL_THRESHOLD <= N <= 1_900_000_000_000_000_000 && E >= 2 && 0 < r <= 3 && N <= total <= N + 2
    requires total == Chop(N * ONE + r * HALF_UNIT) && minted == Chop(r * HALF_UNIT)
    ensures NoPools(Start(N, E, r, 0)) && ValidRun(Start(N, E, r, 0), SmallDeposit(N, E, r))
    ensures var last := Final(Start(N, E, r, 0), SmallDeposit(N, E, r));
            && Inv(last) && ETH in last.pools && last.pools[ETH].native < POOL_THRESHOLD
            && Drift(last, ETH) == total - N - minted
            && exists left: nat :: left > 0 && ProvidersOf(last, ETH) == map[ALICE := left, BOB := minted]
  {
    hide Chop, Step, Inv, Drift, NoPools, ValidRun, Final, CalculatePoolUnits, Start, Joining;
    OneSidedMint(N, E, r);
    JoiningRun(N, E, r, 0, total, minted);
    JoinedProviders(N, E, r, 0, total, minted);
    var m := RemoveLiquidity(ALICE, ETH, 5000, 0);
    HalfRemoval(N, E, r, total, minted);
    var mid := Joined(N, E, r, 0, total, minted);
    StepKeeps(mid, REGISTRY, m);
    var after := Step(mid, REGISTRY, m).value;
    assert ETH in mid.pools && ETH in after.pools && DriftAllowance(mid, REGISTRY, m, ETH) == 0;
    assert Drift(after, ETH) == Drift(mid, ETH);
    RunMore(Start(N, E, r, 0), Joining(N, E, r, 0), Message(REGISTRY, m));
  }

  /**
   A newcomer whose single native coin is worth half a unit gets a record without units, and no
   admin can decommission the pool, whatever the order of the refunds.
   */
  lemma EmptyRecordRun(N: nat, E: nat, env: Env, m: Msg)
    requires POOL_THRESHOLD <= N <= 1_900_000_000_000_000_000 && E >= 2
    requires m.DecommissionPool? && m.Valid() && m.symbol == ETH
    requires env.listing == [ALICE, BOB] || env.listing == [BOB, ALICE]
    ensures var start, events := Start(N, E, 1, 0), SmallDeposit(N, E, 1);
            && NoPools(start) && ValidRun(start, events)
            && var last := Final(start, events);
               && ETH in last.pools && last.pools[ETH].native < POOL_THRESHOLD
               && Lists(env.listing, ProvidersOf(last, ETH))
               && BOB in ProvidersOf(last, ETH) && ProvidersOf(last, ETH)[BOB] == 0
               && DecommissionStep(last, env, m).Err?
  {
    hide Chop, Inv, ValidRun, Final, DecommissionStep, ProvidersOf, SmallDeposit, Start, NoPools;
    HalfChops(N);
    SmallDepositRun(N, E, 1, Chop(N * ONE + 1 * HALF_UNIT), 0);
    var last := Final(Start(N, E, 1, 0), SmallDeposit(N, E, 1));
    assert MODULE !in ProvidersOf(last, ETH) && Lists(env.listing, ProvidersOf(last, ETH));
    RecordsBlock(last, env, m);
  }

  /**
   A newcomer whose three native coins are worth one and a half units gets two of them while an odd
   total grows by one: the records then hold one unit more than the pool, and no admin can
   decommission it although every record has units.
   */
  lemma NegativeDriftRun(N: nat, E: nat, env: Env, m: Msg)
    requires POOL_THRESHOLD <= N <= 1_900_000_000_000_000_000 && N % 2 == 1 && E >= 2
    requires m.DecommissionPool? && m.Valid() && m.symbol == ETH
    requires env.listing == [ALICE, BOB] || env.listing == [BOB, ALICE]
    ensures var start, events := Start(N, E, 3, 0), SmallDeposit(N, E, 3);
            && NoPools(start) && ValidRun(start, events)
            && var last := Final(start, events);
               && ETH in last.pools && last.pools[ETH].native < POOL_THRESHOLD && Drift(last, ETH) == -1
               && Lists(env.listing, ProvidersOf(last, ETH))
               && (forall a | a in ProvidersOf(last, ETH) :: ProvidersOf(last, ETH)[a] > 0)
               && DecommissionStep(last, env, m).Err?
  {
    hide Chop, Inv, ValidRun, Final, DecommissionStep, ProvidersOf, SmallDeposit, Start, NoPools;
    HalfChops(N);
    SmallDepositRun(N, E, 3, N + 1, 2);
    var last := Final(Start(N, E, 3, 0), SmallDeposit(N, E, 3));
    assert Lists(env.listing, ProvidersOf(last, ETH));
    NegativeDriftBlocks(last, env, m);
  }

  /**
   The same three coins into an even total are worth two units to it as well: a deposit of one asset
   that dilutes the creator, which the unrounded formula rules out.
   */
  lemma OneAssetDilutesRun(N: nat, E: nat)
    requires N >= POOL_THRESHOLD && N % 2 == 0 && E > 0
    ensures Dilution.RoundedDilutes(N, N, E, 3, 0, GetNormalizationFactor(18))
    ensures var start, events := Start(N, E, 3, 0), Joining(N, E, 3, 0);
            && NoPools(start) && ValidRun(start, events)
            && var last := Final(start, events);
               && last.pools == map[ETH := Pool(N + 3, E, N + 2)]
               && ProvidersOf(last, ETH) == map[ALICE := N, BOB := 2]
               && (N + 3) * E * (N * N) < N * E * ((N + 2) * (N + 2))
  {
    hide Chop, Step, NoPools, ValidRun, Final, CalculatePoolUnits, Start, Joining, ProvidersOf, GetNormalizationFactor;
    ChopExact(1);
    HalfChops(N);
    OneSidedMint(N, E, 3);
    JoiningRun(N, E, 3, 0, N + 2, 2);
    JoinedProviders(N, E, 3, 0, N + 2, 2);
    ThreeForFour(N, E);
  }

  /** (N + 3) N^2 < N (N + 2)^2, because N^2 + 4 N is positive. */
  lemma ThreeForFour(N: nat, E: nat)
    requires N > 0 && E > 0
    ensures (N + 3) * E * (N * N) < N * E * ((N + 2) * (N + 2))
  {
    var d := (N * N + 4 * N) * E;
    MulLe(1, E, N * N + 4 * N);
    assert N * E * ((N + 2) * (N + 2)) == (N + 3) * E * (N * N) + d;
  }

  // ---------- refunds that round up ----------

  /** A deposit equal to the whole pool doubles its units. */
  lemma EqualJoin(N: nat)
    requires N > 0
    ensures CalculatePoolUnits(N, N, 3, N, 3, GetNormalizationFactor(18)) == Units(2 * N, N)
  {
    hide Chop, Mul, Quo, Share, Slip, Stake, ScaleExponent, Reduced, IncreasePrecision;
    ChopExact(1);
    var inputs := [N, N, 3, N, 3];
    MinDigitsIsLower(inputs, 4);
    assert ScaleExponent(inputs) == 6 by { SmallExponent(inputs); }
    EqualStake(N);
    ReducedSix(N);
    assert Pow10(6) == MEGA;
    IncreaseExact(N * TERA, 6);
    IncreaseExact(N * TERA + N * TERA, 6);
    ChopExact(N);
    ChopExact(2 * N);
  }

  lemma SmallExponent(inputs: seq<nat>)
    requires inputs != [] && MinDigits(inputs) <= 6
    ensures ScaleExponent(inputs) == 6
  {
  }

  lemma EqualStake(N: nat)
    requires N > 0
    ensures Stake(N, N, 3, N, 3, 6) == N * TERA
  {
    hide Mul, Quo, Share, Slip, Stake, Ulps, Val, IsShare, IsSlip;
    SixStakeIs(N, N, 3, N, 3);
    EqualRatios(N as real);
    SixShare(N, N, 3, N, 3, N as real);
    WholeUlps(Share(N * TERA, N * TERA, 3 * TERA, N * TERA, 3 * TERA), N as real / 1000000.0, N * TERA);
    SixSlip(N, 3, N, 3, 0.0);
    MulExact(N * TERA, ONE, N * TERA);
  }

  lemma EqualRatios(n: real)
    ensures IsShare(n, n, n, 3.0, n, 3.0) && IsSlip(0.0, n, 3.0, n, 3.0)
  {
    assert 3.0 * n + 3.0 * n == 2.0 * (3.0 * n);
  }

  /** The units left depend on the provider's units alone. */
  lemma LeftAlike(P: nat, B: nat, C: nat, P': nat, B': nat, C': nat, units: nat, w: nat)
    requires 0 < w <= MAX_BASIS
    ensures var p, q := CalculateWithdrawal(P, B, C, units, w, 0), CalculateWithdrawal(P', B', C', units, w, 0);
            p.Payout? && q.Payout? ==> p.unitsLeft == q.unitsLeft
  {
    hide Portion, Worth, Divisible, Chop;
  }

  lemma FirstWithdrawal(N: nat)
    requires POOL_THRESHOLD <= N <= 1_000_100_000_000_000_000
    ensures var p := CalculateWithdrawal(2 * N, 2 * N, 6, N, 5001, 0);
            var c := N as real * 0.5001;
            && p.Payout? && p.external == 2 && p.native < 2 * N && p.unitsLeft <= N
            && c - 2560.0 < p.native as real < c + 2560.0
            && N as real - c - 2560.0 < p.unitsLeft as real < N as real - c + 2560.0
  {
    hide CalculateWithdrawal, PaidFor;
    WithdrawalAccuracy(2 * N, 2 * N, 6, N, 5001, 0);
    NoOverWithdrawal(2 * N, 2 * N, 6, N, 5001, 0);
    var p, c := CalculateWithdrawal(2 * N, 2 * N, 6, N, 5001, 0), ExactClaim(N as real, 5001);
    assert c == N as real * 0.5001;
    WorthBounds(p.native, 2 * N, 2 * N, c, c);
    WorthBounds(p.external, 6, 2 * N, c, 1.5003);
    assert 1.0 < p.external as real < 2.1;
  }

  lemma WorthBounds(paid: nat, B: nat, T: nat, c: real, w: real)
    requires T > 0 && PaidFor(paid, B, T, c, 5102.0) && w * T as real == B as real * c
    ensures -0.5001 - 5102.0 * w / 1000000000000000000.0 < paid as real - w < 0.5001 + 5102.0 * w / 1000000000000000000.0
  {
    var v := ExactWorth(B, T, c);
    DivDef(B as real * c, T as real);
    assert (v - w) * T as real == 0.0;
    assert v == w;
  }

  lemma SecondWorth(N: real, c: real, B: real, T: real) returns (w: real, v: real)
    requires 1000000000000000000.0 <= N <= 1000100000000000000.0 && c == N * 0.5001
    requires 2.0 * N - c - 2560.0 < B < 2.0 * N - c + 2560.0 && 2.0 * N - c - 2560.0 < T < 2.0 * N - c + 2560.0
    ensures w * T == B * c && c - 5120.0 < w < c + 5120.0
    ensures v * T == 4.0 * c && 1.33 < v < 1.34
  {
    w, v := B * c / T, 4.0 * c / T;
    DivDef(B * c, T);
    DivDef(4.0 * c, T);
    var d := w - c;
    assert d * T == c * (B - T);
    Scale(B - T, 5120.0, c, c * (B - T), 5120.0 * c);
    Scale(-5120.0, B - T, c, -5120.0 * c, c * (B - T));
    Below(d, 5120.0, c, T);
    Below(-d, 5120.0, c, T);
    Cancel(v, 1.3399, T, v * T, 1.3399 * T);
    Cancel(1.3301, v, T, 1.3301 * T, v * T);
  }

  lemma Below(d: real, k: real, c: real, T: real)
    requires 0.0 < c < T && 0.0 < k && d * T <= k * c
    ensures d < k
  {
    Scale(c, T, k, k * c, k * T);
    if d >= k {
      Scale(k, d, T, k * T, d * T);
      Cancel(T, c, k, k * T, k * c);
    }
  }

  lemma SecondWithdrawal(N: nat, native: nat, units: nat)
    requires POOL_THRESHOLD <= N <= 1_000_100_000_000_000_000
    requires var c := N as real * 0.5001;
             && 2.0 * N as real - c - 2560.0 < native as real < 2.0 * N as real - c + 2560.0
             && 2.0 * N as real - c - 2560.0 < units as real < 2.0 * N as real - c + 2560.0
    ensures var p := CalculateWithdrawal(units, native, 4, N, 5001, 0);
            && p.Payout? && p.external == 1 && p.native < native && p.unitsLeft <= N
            && native - p.native < POOL_THRESHOLD
  {
    hide CalculateWithdrawal, PaidFor, Ulps;
    WithdrawalAccuracy(units, native, 4, N, 5001, 0);
    NoOverWithdrawal(units, native, 4, N, 5001, 0);
    var p, c := CalculateWithdrawal(units, native, 4, N, 5001, 0), ExactClaim(N as real, 5001);
    assert c == N as real * 0.5001;
    SecondPaid(N, native, units, c, p.native, p.external);
  }

  lemma SecondPaid(N: nat, native: nat, units: nat, c: real, paid: nat, other: nat)
    requires POOL_THRESHOLD <= N <= 1_000_100_000_000_000_000 && c == N as real * 0.5001
    requires 2.0 * N as real - c - 2560.0 < native as real < 2.0 * N as real - c + 2560.0
    requires 2.0 * N as real - c - 2560.0 < units as real < 2.0 * N as real - c + 2560.0
    requires PaidFor(paid, native, units, c, 5102.0) && PaidFor(other, 4, units, c, 5102.0)
    ensures paid < native && native - paid < POOL_THRESHOLD && other == 1
  {
    hide PaidFor;
    var w, v := SecondWorth(N as real, c, native as real, units as real);
    WorthBounds(paid, native, units, c, w);
    WorthBounds(other, 4, units, c, v);
    SecondBounds(N as real, c, native as real, paid as real, w);
    OneCoin(other, v);
  }

  lemma OneCoin(paid: nat, v: real)
    requires 1.33 < v < 1.34
    requires -0.5001 - 5102.0 * v / 1000000000000000000.0 < paid as real - v < 0.5001 + 5102.0 * v / 1000000000000000000.0
    ensures paid == 1
  {
    assert 0.8 < paid as real < 1.9;
  }

  lemma SecondBounds(N: real, c: real, native: real, paid: real, w: real)
    requires 1000000000000000000.0 <= N <= 1000100000000000000.0 && c == N * 0.5001
    requires 2.0 * N - c - 2560.0 < native < 2.0 * N - c + 2560.0 && c - 5120.0 < w < c + 5120.0
    requires -0.5001 - 5102.0 * w / 1000000000000000000.0 < paid - w < 0.5001 + 5102.0 * w / 1000000000000000000.0
    ensures paid < native && native - paid < 1000000000000000000.0
  {
  }

  lemma RoundedRefund(native: nat, k: nat)
    requires k > 0
    ensures var p := RefundOf(Pool(native, 3, 2 * k), k); p.Payout? && p.external == 2
  {
    hide Quo, Chop, Portion, Worth, Divisible;
    NoOverWithdrawal(2 * k, native, 3, k, MAX_BASIS, 0);
    PortionAtMost(NewDec(k), MAX_BASIS);
    HalfOfThree(k);
  }

  lemma HalfOfThree(k: nat)
    requires k > 0
    ensures Divisible(2 * k, NewDec(k)) && RoundInt(Worth(3, 2 * k, NewDec(k))) == 2
  {
    hide Quo;
    QuoExact(NewDec(2 * k), NewDec(k), NewDec(2));
    QuoExact(NewDec(3), NewDec(2), 3 * HALF_UNIT);
  }

  /** Two equal providers, who both withdraw just over half. */
  ghost function EqualProviders(N: nat): seq<Event> {
    Joining(N, 3, N, 3) + [Message(REGISTRY, RemoveLiquidity(ALICE, ETH, 5001, 0))]
                        + [Message(REGISTRY, RemoveLiquidity(BOB, ETH, 5001, 0))]
  }

  /** Where the first withdrawal leaves the pool, its records and the module's coins. */
  ghost predicate AfterFirst(N: nat, p: Payout, st: State) {
    && p.Payout? && p.native < 2 * N && p.unitsLeft <= N
    && st.pools == map[ETH := Pool(2 * N - p.native, 4, N + p.unitsLeft)]
    && st.providers == map[(ETH, ALICE) := p.unitsLeft, (ETH, BOB) := N]
    && Balance(st.bank, MODULE, NATIVE) == 2 * N - p.native && Balance(st.bank, MODULE, ETH) == 4
  }

  lemma EqualFirst(N: nat, p: Payout)
    requires POOL_THRESHOLD <= N <= 1_000_100_000_000_000_000 && p == CalculateWithdrawal(2 * N, 2 * N, 6, N, 5001, 0)
    ensures var start := Start(N, 3, N, 3);
            var events := Joining(N, 3, N, 3) + [Message(REGISTRY, RemoveLiquidity(ALICE, ETH, 5001, 0))];
            NoPools(start) && ValidRun(start, events) && AfterFirst(N, p, Final(start, events))
  {
    hide Chop, Step, NoPools, ValidRun, Final, CalculatePoolUnits, CalculateWithdrawal, Start, Joining, Balance;
    EqualJoin(N);
    JoiningRun(N, 3, N, 3, 2 * N, N);
    JoinedBank(N, 3, N, 3, 2 * N, N);
    FirstWithdrawal(N);
    WithdrawalRuns(Joined(N, 3, N, 3, 2 * N, N), ALICE, 5001, Pool(2 * N, 6, 2 * N), N, p);
    RunMore(Start(N, 3, N, 3), Joining(N, 3, N, 3), Message(REGISTRY, RemoveLiquidity(ALICE, ETH, 5001, 0)));
  }

  lemma EqualProvidersRun(N: nat) returns (native: nat, k: nat)
    requires POOL_THRESHOLD <= N <= 1_000_100_000_000_000_000
    ensures NoPools(Start(N, 3, N, 3)) && ValidRun(Start(N, 3, N, 3), EqualProviders(N))
    ensures var last := Final(Start(N, 3, N, 3), EqualProviders(N));
            && ETH in last.pools && last.pools[ETH] == Pool(native, 3, 2 * k) && native < POOL_THRESHOLD && k > 0
            && ProvidersOf(last, ETH) == map[ALICE := k, BOB := k]
  {
    hide Chop, Step, NoPools, ValidRun, Final, CalculateWithdrawal, Start, Joining, ProvidersOf, Balance;
    var p := CalculateWithdrawal(2 * N, 2 * N, 6, N, 5001, 0);
    EqualFirst(N, p);
    FirstWithdrawal(N);
    var events := Joining(N, 3, N, 3) + [Message(REGISTRY, RemoveLiquidity(ALICE, ETH, 5001, 0))];
    var st := Final(Start(N, 3, N, 3), events);
    k := p.unitsLeft;
    var q := CalculateWithdrawal(N + k, 2 * N - p.native, 4, N, 5001, 0);
    SecondWithdrawal(N, 2 * N - p.native, N + k);
    LeftAlike(2 * N, 2 * N, 6, N + k, 2 * N - p.native, 4, N, 5001);
    WithdrawalRuns(st, BOB, 5001, Pool(2 * N - p.native, 4, N + k), N, q);
    RunMore(Start(N, 3, N, 3), events, Message(REGISTRY, RemoveLiquidity(BOB, ETH, 5001, 0)));
    native := 2 * N - p.native - q.native;
    TwoRecords(Final(Start(N, 3, N, 3), EqualProviders(N)), k);
  }

  lemma TwoRecords(st: State, k: nat)
    requires st.providers == map[(ETH, ALICE) := k, (ETH, BOB) := k]
    ensures ProvidersOf(st, ETH) == map[ALICE := k, BOB := k]
  {
    hide ProvidersOf;
    ProvidersAt(st, ETH);
  }

  /**
   Two providers with equal units in a pool with three external coins are each owed one and a half,
   rounded to two: the refunds exceed the balance, and no admin can decommission the pool although
   every record has units and the units add up.
   */
  lemma RoundedRefundsRun(N: nat, env: Env, m: Msg)
    requires POOL_THRESHOLD <= N <= 1_000_100_000_000_000_000
    requires m.DecommissionPool? && m.Valid() && m.symbol == ETH
    requires env.listing == [ALICE, BOB] || env.listing == [BOB, ALICE]
    ensures var start, events := Start(N, 3, N, 3), EqualProviders(N);
            && NoPools(start) && ValidRun(start, events)
            && var last := Final(start, events);
               && ETH in last.pools && last.pools[ETH].native < POOL_THRESHOLD && Drift(last, ETH) == 0
               && Lists(env.listing, ProvidersOf(last, ETH))
               && (forall a | a in ProvidersOf(last, ETH) :: ProvidersOf(last, ETH)[a] > 0)
               && DecommissionStep(last, env, m).Err?
  {
    hide Chop, ValidRun, Final, DecommissionStep, ProvidersOf, EqualProviders, Start, NoPools, RefundOf, Balance;
    var native, k := EqualProvidersRun(N);
    var last := Final(Start(N, 3, N, 3), EqualProviders(N));
    var pool, lps := Pool(native, 3, 2 * k), ProvidersOf(last, ETH);
    assert MODULE !in lps && Lists(env.listing, lps);
    TwoUnits(lps, k, k);
    RoundedRefund(native, k);
    TwoRefunds(pool, lps, k);
    DecommissionExactly(last, env, m);
  }

  lemma TwoRefunds(pool: Pool, lps: Providers, k: nat)
    requires lps == map[ALICE := k, BOB := k] && RefundOf(pool, k).Payout? && RefundOf(pool, k).external == 2
    ensures TotalExternal(pool, lps) == 4
  {
    hide RefundOf;
    var none: map<Address, int> := map[];
    SumUpdate(none, ALICE, 2);
    SumUpdate(none[ALICE := 2], BOB, 2);
    assert ExternalRefunds(pool, lps) == none[ALICE := 2][BOB := 2];
  }

  // ---------- a provider with more units than the pool ----------

  lemma FullRatio(N: nat)
    requires ONE <= N <= 1_900_000_000_000_000_000
    ensures Quo(NewDec(N + 1), NewDec(N)) == ONE + 1
  {
    hide Quo;
    var e := 1.0 / N as real;
    DivDef(1.0, N as real);
    Cancel(0.0, e, N as real, 0.0, 1.0);
    Scale(1000000000000000000.0, N as real, e, 1000000000000000000.0 * e, 1.0);
    Scale(N as real, 1900000000000000000.0, e, 1.0, 1900000000000000000.0 * e);
    QuoError(NewDec(N + 1), NewDec(N), 1.0 + e);
    NearestUnit(Quo(NewDec(N + 1), NewDec(N)), e);
  }

  lemma NearestUnit(q: Dec, e: real)
    requires Ulps(Val(q), 1.0 + e) <= 0.51 && 1.0 <= 1900000000000000000.0 * e && 1000000000000000000.0 * e <= 1.0
    ensures q == ONE + 1
  {
  }

  /** Everything but a little of a balance between 10^18 and 1.9 * 10^18. */
  lemma AlmostAll(N: nat, B: nat)
    requires ONE <= N <= 1_900_000_000_000_000_000 && N <= B <= N + 3
    ensures Divisible(N + 1, NewDec(N))
    ensures 1 <= B - RoundInt(Worth(B, N + 1, NewDec(N))) <= 2
  {
    hide Quo, Chop;
    FullRatio(N);
    var w := B as real / Val(ONE + 1);
    DivDef(B as real, Val(ONE + 1));
    QuoError(NewDec(B), ONE + 1, w);
    var q := Quo(NewDec(B), ONE + 1);
    RoundIntError(q);
    Triangle(RoundInt(q) as real, Val(q), w);
    AlmostBounds(B as real, w, RoundInt(q) as real);
    assert 0.4 < B as real - RoundInt(q) as real < 2.5;
  }

  lemma AlmostBounds(B: real, w: real, paid: real)
    requires 1000000000000000000.0 <= B <= 1900000000000000003.0
    requires w * (1000000000000000001.0 / 1000000000000000000.0) == B && Ulps(paid, w) <= 500000000000000001.0
    ensures 0.4 < B - paid < 2.5
  {
  }

  /** The pool is created, somebody joins with three native coins, and the creator withdraws everything. */
  ghost function Abandoning(N: nat): seq<Event> {
    Joining(N, N, 3, 0) + [Message(REGISTRY, RemoveLiquidity(ALICE, ETH, MAX_BASIS, 0))]
  }

  lemma AbandoningPays(N: nat)
    requires POOL_THRESHOLD <= N <= 1_900_000_000_000_000_000
    ensures var pay := CalculateWithdrawal(N + 1, N + 3, N, N, MAX_BASIS, 0);
            && pay.Payout? && pay.unitsLeft == 0
            && 1 <= N + 3 - pay.native <= 2 && 1 <= N - pay.external <= 2
  {
    hide Quo, Chop, Portion, Worth, Divisible;
    NoOverWithdrawal(N + 1, N + 3, N, N, MAX_BASIS, 0);
    PortionAtMost(NewDec(N), MAX_BASIS);
    AlmostAll(N, N + 3);
    AlmostAll(N, N);
  }

  /** A claim of two units on a pool of one is computed as twice the balances. */
  lemma TwiceTheBalances(native: nat, external: nat)
    ensures !Fits(1, 2, MAX_BASIS)
    ensures CalculateWithdrawal(1, native, external, 2, MAX_BASIS, 0) == Payout(2 * native, 2 * external, 0, 0)
  {
    hide Quo, Chop, Portion;
    PortionAtMost(NewDec(2), MAX_BASIS);
    QuoExact(NewDec(1), NewDec(2), HALF_UNIT);
    QuoExact(NewDec(native), HALF_UNIT, NewDec(2 * native));
    QuoExact(NewDec(external), HALF_UNIT, NewDec(2 * external));
    ChopExact(2 * native);
    ChopExact(2 * external);
    ChopExact(0);
  }

  /**
   The creator leaves a pool of negative drift: one unit stays in it while the other provider has
   two on record.  Its full claim is computed as twice both balances, and no withdrawal of its own
   ever goes through, whatever part of it and whichever asset it asks for.
   */
  lemma OverWithdrawalRun(N: nat, env: Env, m: Msg)
    requires POOL_THRESHOLD <= N <= 1_900_000_000_000_000_000 && N % 2 == 1
    requires m.RemoveLiquidity? && m.Valid() && m.signer == BOB && m.symbol == ETH
    ensures var start, events := Start(N, N, 3, 0), Abandoning(N);
            && NoPools(start) && ValidRun(start, events)
            && var last := Final(start, events);
               && ETH in last.pools && last.pools[ETH].Positive() && last.pools[ETH].units == 1
               && ProvidersOf(last, ETH) == map[BOB := 2]
               && var pool := last.pools[ETH];
                  && CalculateWithdrawal(pool.units, pool.native, pool.external, 2, MAX_BASIS, 0) ==
                     Payout(2 * pool.native, 2 * pool.external, 0, 0)
                  && RemoveLiquidityStep(last, env, m).Err?
  {
    hide Chop, NoPools, ValidRun, Final, CalculateWithdrawal, Start, Abandoning, ProvidersOf, RemoveLiquidityStep;
    var native, external := AbandoningRun(N);
    var last := Final(Start(N, N, 3, 0), Abandoning(N));
    OneRecord(last, 2);
    TwiceTheBalances(native, external);
    StrandedProvider(last, env, m, 2);
  }

  lemma AbandoningRun(N: nat) returns (native: nat, external: nat)
    requires POOL_THRESHOLD <= N <= 1_900_000_000_000_000_000 && N % 2 == 1
    ensures NoPools(Start(N, N, 3, 0)) && ValidRun(Start(N, N, 3, 0), Abandoning(N)) && native > 0 && external > 0
    ensures var last := Final(Start(N, N, 3, 0), Abandoning(N));
            last.pools == map[ETH := Pool(native, external, 1)] && last.providers == map[(ETH, BOB) := 2]
  {
    hide Chop, Step, NoPools, ValidRun, Final, CalculatePoolUnits, CalculateWithdrawal, Start, Joining, Balance;
    HalfChops(N);
    OneSidedMint(N, N, 3);
    JoiningRun(N, N, 3, 0, N + 1, 2);
    JoinedBank(N, N, 3, 0, N + 1, 2);
    AbandoningPays(N);
    var pay, leave := CalculateWithdrawal(N + 1, N + 3, N, N, MAX_BASIS, 0), RemoveLiquidity(ALICE, ETH, MAX_BASIS, 0);
    WithdrawalRuns(Joined(N, N, 3, 0, N + 1, 2), ALICE, MAX_BASIS, Pool(N + 3, N, N + 1), N, pay);
    RunMore(Start(N, N, 3, 0), Joining(N, N, 3, 0), Message(REGISTRY, leave));
    native, external := N + 3 - pay.native, N - pay.external;
  }

  lemma OneRecord(st: State, k: nat)
    requires st.providers == map[(ETH, BOB) := k]
    ensures ProvidersOf(st, ETH) == map[BOB := k]
  {
    hide ProvidersOf;
    ProvidersAt(st, ETH);
  }

  /** A provider with more units than its pool cannot withdraw. */
  lemma StrandedProvider(st: State, env: Env, m: Msg, units: nat)
    requires m.RemoveLiquidity? && m.Valid() && m.symbol in st.pools && (m.symbol, m.signer) in st.providers
    requires st.providers[(m.symbol, m.signer)] == units > st.pools[m.symbol].units
    ensures RemoveLiquidityStep(st, env, m).Err?
  {
    hide CalculateWithdrawal, Rebalance, SendBoth;
  }

  // ---------- coins that are not there ----------

  /** Half of j units in a pool (2 j, 1, j) is worth j native coins and no external one. */
  lemma HalfOfShort(j: nat)
    requires j > 0
    ensures CalculateWithdrawal(j, 2 * j, 1, j, 5000, 0) == Payout(j, 0, Chop(j * HALF_UNIT), 0)
  {
    hide Quo, Chop;
    QuoExact(NewDec(MAX_BASIS), NewDec(5000), NewDec(2));
    QuoExact(NewDec(j), NewDec(2), j * HALF_UNIT);
    QuoExact(NewDec(j), j * HALF_UNIT, NewDec(2));
    QuoExact(NewDec(2 * j), NewDec(2), NewDec(j));
    QuoExact(NewDec(1), NewDec(2), HALF_UNIT);
    ChopExact(j);
    assert Chop(HALF_UNIT) == 0 by { HalfChops(0); }
    assert NewDec(j) - j * HALF_UNIT == j * HALF_UNIT;
  }

  lemma HalfLeft(j: nat)
    requires j >= 2
    ensures 0 < Chop(j * HALF_UNIT) <= j
  {
    ChopMono(2 * HALF_UNIT, j * HALF_UNIT);
    ChopMono(j * HALF_UNIT, j * ONE);
    ChopExact(1);
    ChopExact(j);
  }

  /** The only provider is owed the whole pool. */
  lemma WholeRefund(native: nat, external: nat, k: nat)
    requires k > 0
    ensures RefundOf(Pool(native, external, k), k) == Payout(native, external, 0, 0)
  {
    hide Quo, Chop, Portion;
    PortionAtMost(NewDec(k), MAX_BASIS);
    QuoExact(NewDec(k), NewDec(k), ONE);
    QuoExact(NewDec(native), ONE, NewDec(native));
    QuoExact(NewDec(external), ONE, NewDec(external));
    ChopExact(native);
    ChopExact(external);
    ChopExact(0);
  }

  lemma OnlyRefund(pool: Pool, lps: Providers, k: nat)
    requires lps == map[ALICE := k] && RefundOf(pool, k) == Payout(pool.native, pool.external, 0, 0)
    ensures TotalNative(pool, lps) == pool.native && TotalExternal(pool, lps) == pool.external && Sum(UnitsOf(lps)) == k
  {
    hide RefundOf;
    var none: map<Address, int> := map[];
    SumUpdate(none, ALICE, pool.native);
    SumUpdate(none, ALICE, pool.external);
    SumUpdate(none, ALICE, k);
    assert NativeRefunds(pool, lps) == none[ALICE := pool.native];
    assert ExternalRefunds(pool, lps) == none[ALICE := pool.external];
    assert UnitsOf(lps) == none[ALICE := k];
  }

  /** The run that leaves the module short, and a symmetric withdrawal of half of what remains. */
  ghost function Emptying(j: nat): seq<Event> {
    Insolvency.Shortening(j) + [Message(REGISTRY, RemoveLiquidity(ALICE, ETH, 5000, 0))]
  }

  /**
   After an unbacked withdrawal the module has no native coin left for a pool that records some: the
   record has units, the units add up and the refunds are the recorded balances, and still no admin can
   decommission the pool.
   */
  lemma MissingCoinsRun(j: nat, env: Env, m: Msg)
    requires 2 * j >= POOL_THRESHOLD && j < POOL_THRESHOLD && env.listing == [ALICE]
    requires m.DecommissionPool? && m.Valid() && m.symbol == ETH
    ensures var start, events := Start(2 * j, 2, 0, 0), Emptying(j);
            && NoPools(start) && ValidRun(start, events)
            && var last := Final(start, events);
               && ETH in last.pools && last.pools[ETH].native == j && Balance(last.bank, MODULE, NATIVE) == 0
               && Lists(env.listing, ProvidersOf(last, ETH)) && Drift(last, ETH) == 0
               && (forall a | a in ProvidersOf(last, ETH) :: ProvidersOf(last, ETH)[a] > 0)
               && TotalNative(last.pools[ETH], ProvidersOf(last, ETH)) == last.pools[ETH].native
               && TotalExternal(last.pools[ETH], ProvidersOf(last, ETH)) == last.pools[ETH].external
               && DecommissionStep(last, env, m).Err?
  {
    hide Chop, Step, NoPools, ValidRun, Final, CalculateWithdrawal, Start, ProvidersOf, Balance, RefundOf, DecommissionStep,
         TotalNative, TotalExternal, Sum;
    var start, k, leave := Start(2 * j, 2, 0, 0), Chop(j * HALF_UNIT), RemoveLiquidity(ALICE, ETH, 5000, 0);
    Insolvency.ShorteningRun(j);
    HalfOfShort(j);
    HalfLeft(j);
    var mid := Final(start, Insolvency.Shortening(j));
    WithdrawalRuns(mid, ALICE, 5000, Pool(2 * j, 1, j), j, Payout(j, 0, k, 0));
    RunMore(start, Insolvency.Shortening(j), Message(REGISTRY, leave));
    var last := Final(start, Emptying(j));
    ProvidersAt(last, ETH);
    var lps: Providers := map[ALICE := k];
    assert ProvidersOf(last, ETH) == lps && last.pools[ETH] == Pool(j, 1, k);
    WholeRefund(j, 1, k);
    OnlyRefund(Pool(j, 1, k), lps, k);
    DecommissionExactly(last, env, m);
  }
}
