# A verified model of akhiranode

This project models four parts of the akhiranode chain and its relayer, and proves what they keep:

- the liquidity pools (`x/clp/keeper`): the rounded arithmetic of swaps, deposits and withdrawals, and the
  ledger of pools, provider records and coins that the five messages change;
- the dispensation escrow (`x/dispensation/keeper`): funds collected, split into pending records, merged,
  paid out in batches, marked failed or taken back;
- the wire codec of the small CLP messages (`x/clp/types`): varints, size computation, back-to-front
  writing, decoding and the skipping of unknown fields;
- the block cursors of the two relayer loops (`cmd/ebrelayer/relayer`), over fetch errors, crashes and restarts.

`dafny verify dfyconfig.toml` checks everything.

## Layout

| files | content |
|---|---|
| `FixedPoint`, `Precision`, `RelativeError` | decimals, their rounding, scaling exponents, an algebra of relative errors |
| `Curve`, `Swap`, `PoolUnits`, `Minting`, `Withdrawal`, `Pools` | the pool formulas against exact rational values |
| `Dilution` | whether a deposit dilutes the providers already there |
| `Sums`, `Ledger`, `Refunds` | the ledger as a state machine, bank transfers and the refund loop |
| `Deposits`, `Swaps`, `Removals`, `Decommission` | for each of the five messages: exactly when it goes through, and what it then does to pools, records and accounts |
| `Invariants`, `Runs` | what every message keeps, and whole runs |
| `Scenario`, `Insolvency`, `Blocked` | concrete families of runs: one breaks solvency, four block a decommissioning, one leaves a provider unable to withdraw, one dilutes with a single asset |
| `Keeper` | the message handlers on mutable state, proved to follow the ledger |
| `Dispensation`, `Escrow`, `EscrowRuns`, `DispensationKeeper` | the escrow, its books, whole runs, and the keeper on mutable state |
| `Distributions` | one distribution from its creation to its last payment |
| `Varint`, `Wire`, `Codec`, `Messages` | the encoding, the skipper, message values, and message objects with buffers |
| `Logs`, `CosmosRelayer`, `EthereumRelayer` | logs ordered by a rule, and the two cursors |

Errors are measured in `Ulps`: units of 10^-18. `500000000001000000.0` therefore reads 1/2 + 10^-12.

## What turned out false, and when it holds

- A swap follows the constant-product curve exactly when the external token has at most 18 decimals
  (`Swap.FollowsCurveIff`). Above 18 the scaling of the inputs is not the one undone on the output, so the
  output is off by the factor `OutScale`; `Swap.OverpaysBeyond18` gives the failing inputs for every such
  number of decimals, and `Swap.Accuracy` bounds the error around the scaled value for all decimals.
- The module account does not always hold what the pools record. An asymmetric withdrawal whose swap takes
  something and yields nothing pays the coins out and books them as kept (`x/clp/keeper/msg_server.go:292-306`
  and `314-328`). `Runs.LosesExactly` shows on the ledger that an event lowers the module's cover of some asset
  if and only if it is such a withdrawal, `Runs.UnbackedLoses` that the loss is the whole swap amount, and
  `Runs.CoverNeverFalls` the same for runs. `Runs.BackedByAmounts` decides it from the amounts before the call, by
  an inequality between the scaled amounts (`Swap.YieldExactly`), in which the kernel's quotient and the last division
  are multiplied out while the scaling and the products keep their rounding; at exponent 6 it is one on whole numbers
  (`Swap.SixYieldsNothing`), and for tokens of at most 18 decimals the exact value of the swap decides outside a
  tolerance around 1/2 (`Swap.YieldDecided`). `Insolvency.InsolventRun` is a family of two-message runs that end short.
- A pool below the threshold cannot always be decommissioned. `Decommission.DecommissionExactly` gives the exact
  condition: every record has units, the units add up to at most the pool's, and the rounded refunds
  fit the balances and the module's coins. Runs from a chain without pools show four ways it fails: a deposit
  of one native coin stores a record without units (`Blocked.EmptyRecordRun`); a deposit of three mints two units
  while the total grows by one (`Blocked.NegativeDriftRun`); two equal providers of three external coins are owed
  two each (`Blocked.RoundedRefundsRun`, the external balance; no run is given for the native one); and after an
  unbacked withdrawal the module lacks the native coins although everything else adds up
  (`Blocked.MissingCoinsRun`; no run is given for the external coins).
- A computed payout can exceed the balances, and a provider can be unable to withdraw at all. After
  `Blocked.OverWithdrawalRun` a pool holds one unit while a provider has two on record: its full claim is computed
  as twice both balances, and every withdrawal it asks for fails. `Withdrawal.FitsExactly` gives the exact condition
  on the payout, `Removals.RemovalExactly` the exact condition for a withdrawal to go through.
- A deposit can dilute the providers already there: native * external / units^2 can fall.
  `Dilution.RoundedDilutesExactly` gives the exact condition for the units the code computes, for every deposit: the
  rounded share less slip against the least value that takes the total past the largest safe one.
  `Dilution.DilutesExactly` gives it for the unrounded formula, in the growths of the two balances, and
  `Dilution.DilutesByAmounts` in whole amounts. The two conditions agree but for a slack of about one and a half units
  and a few parts in 10^18 (`Dilution.RoundedDilution`).
- A deposit of one asset never dilutes in the unrounded formula (`Dilution.OneAssetNeverDilutes`), but rounding breaks
  this: three native coins into a pool with an even total mint two units for one and a half
  (`Blocked.OneAssetDilutesRun`, a run of two messages). It never fails by more than the slack
  (`Dilution.OneAssetWithinSlack`).
- A deposit that doubles the native side, with at least as much in proportion on the other, dilutes in the unrounded
  formula if and only if the external deposit exceeds seventeen times the pool's (`Dilution.EqualNativeDilutesIff`);
  into a pool of at least 10^18 units the rounded units follow within one part in a million of the threshold
  (`Dilution.RoundedSeventeen`).
- The price impact of a swap is a quotient of whole numbers, so it is zero for every pool that holds the asset sent
  (`Pools.SwapOneAccuracy`).
- A batch makes progress exactly when one of its at most ten records can leave the pending store
  (`EscrowRuns.ProgressExactly`). In the program one always can: messages whose addresses do not parse are turned
  away before their handler, so every pending record parses (`EscrowRuns.RunProper`) and repeated runs work a
  distribution off (`EscrowRuns.Drains`), and pay it (`Distributions.EveryDistributionDelivers`).
- Before its first save neither relayer has a place to return to: a crash skips blocks for good
  (`CosmosRelayer.UnsavedPlaceIsLost`, `EthereumRelayer.UnsavedPlaceIsLost`). No run skips a block if and only if the
  relayer starts with a cursor (`CosmosRelayer.NothingSkippedIff`, `EthereumRelayer.NothingSkippedIff`); from the first
  save on there is no gap in any case (`CosmosRelayer.NoGap`, `EthereumRelayer.EveryBlockCovered`).

## Where code and comments disagree

The model follows the code.

- `cmd/ebrelayer/relayer/ethereum.go:180` speaks of the ending block minus one; the cursor is set to the ending
  block itself (line 183).
- `x/dispensation/keeper/executors.go:32-33` speaks of every block; the batch runs on a message.
- `x/dispensation/keeper/executors.go:13` calls a record unique per recipient and drop name; the key also holds
  the distribution type, and a merged record takes over the runner of the later message.
- The Protocol Buffers encoding, "Message Structure", wants a group's end tag to carry the field number of its start
  tag; the skipper does not compare them, so neither does `Wire.WellFormed`.

## Assumptions

- `sdk.Dec` is a raw integer scaled by 10^18; `Mul` rounds half-even, `Quo` truncates at 36 places and then
  rounds half-even to 18, `RoundInt` is half-even. The formulas only meet non-negative values.
- An error or a panic rolls a message back. A 256-bit overflow, lack of gas or a refused recipient of the CLP
  module is an arbitrary abort of the message (`Ledger.Env.aborts`).
- The paginated listing of an asset's providers returns each of them once, in any order.
- Store keys are injective in the fields they are built from; bank transfers are atomic and fail only for lack
  of funds or, for dispensation payments, because the bank refuses the recipient. `Coins` have no repeated
  denomination, and the module accounts sign no messages and are spent by nobody else.
- Which addresses parse, which recipients the bank refuses and which records validate are arbitrary functions
  of each message's environment (`Dispensation.Env`), so the skipping and the claw-back paths are reachable in
  the model; `EscrowRuns.NeverPanics` and `EscrowRuns.RunProper` then show that the program's own validation and
  a fixed parser never take them.
- Strings are byte sequences. Setting bits above those already read is adding; the model states the 64-bit
  wrap-around of the tenth varint byte, of lengths and of indices, and the 32-bit truncation of field numbers.
  Buffers are shorter than 2^63 bytes.
- A relayer database that was written can be read again, and gives back the number written.

## Model

| member | source | states |
|---|---|---|
| `Precision.ValidateZero` | x/clp/keeper/pureCalculation.go:9-16 | the loop answers whether every input is positive |
| `Precision.GetMinLen` | x/clp/keeper/pureCalculation.go:28-53 | the loop computes the scaling exponent from the smallest and largest digit counts |
| `Precision.ScaleExponentBounds` | x/clp/keeper/pureCalculation.go:28-53 | the exponent is at least 6, and is 6 or every input is at least 10^m |
| `Precision.ScaleExponentExactly` | x/clp/keeper/pureCalculation.go:28-53 | the exponent is 6 if an input is below 10^6; the order of the smallest if none reaches 10^26 or they lie too far apart; else what brings the largest below 10^27, but no less than 6 |
| `Precision.ReduceIncrease` | x/clp/keeper/pureCalculation.go:18-26 | scaling down and up is lossless up to 18 places, and within half a step of 10^(m-18) beyond |
| `Swap.FactorAligns` | x/clp/keeper/keeper.go:73-88 | the external side is adjusted exactly below 18 decimals, and the factor turns 10^decimals into 10^18, or 10^18 into 10^decimals |
| `Curve.ScaledCurveError` | x/clp/keeper/calculations.go:280-288 | the rounded kernel on scaled values is within one rounding of the exact value at exponent 6, and within a small relative error beyond |
| `Swap.Accuracy` | x/clp/keeper/calculations.go:215-294 | swap output and fee differ from the exact rational amount by at most 1/2 + 10^-12 plus 2Y (5Y for the fee) in 10^18, the last term only beyond exponent 6; both directions, all normalizations |
| `Swap.FeeDecomposition` | x/clp/keeper/calculations.go:215-294 | fee plus output is the constant-product output x*Y/(x+X) within the two tolerances |
| `Swap.NeverEmpties` | x/clp/keeper/calculations.go:258-294 | with at most 18 decimals the output is always below the balance it is paid from |
| `Swap.ProductKept` | x/clp/keeper/calculations.go:258-294 | the product of the balances falls at most by (X+x) times the tolerance, and not at all once the exact fee covers the tolerance |
| `Swap.OverpaysBeyond18` | x/clp/keeper/calculations.go:270-291 | with more than 18 decimals sending as much as the pool holds asks for at least the whole other side |
| `Swap.FollowsCurveIff` | x/clp/keeper/calculations.go:258-294 | the output follows the curve for all inputs if and only if decimals are at most 18 |
| `Swap.YieldExactly` | x/clp/keeper/calculations.go:258-294 | for any decimals a swap yields nothing if and only if an inequality between the scaled amounts holds, the kernel's quotient and the last division multiplied out |
| `Swap.SixYieldsNothing` | x/clp/keeper/calculations.go:258-294 | at exponent 6 that inequality is one between whole numbers: x*X*Y against (x+X)^2, times constants |
| `Swap.YieldDecided` | x/clp/keeper/calculations.go:258-294 | with at most 18 decimals the inequality fails when the exact value is above 1/2 plus the tolerance, and holds when it is below 1/2 less the tolerance |
| `Minting.SlipAccuracy` | x/clp/keeper/calculations.go:197-204 | at any exponent a deposit can be scaled by, the rounded slip is the exact one, which lies between 0 and 1, within 3.21 units of 10^-18 |
| `PoolUnits.DepositDrift` | x/clp/keeper/calculations.go:141-213 | into a pool holding both assets, the new total differs from old total plus minted units by at most max(1, 10^(m-18)); a deposit of nothing is refused |
| `Minting.MintAccuracy` | x/clp/keeper/calculations.go:167-212 | minted units are P*(r/R+a/A)/2 times one minus the exact slip, within 1/2 + 2*10^-12 and a few parts in 10^18 |
| `Minting.ProportionalMint` | x/clp/keeper/calculations.go:191-212 | at exponent 6 a proportional deposit mints P*a/A within 1/2 + 10^-12 |
| `Dilution.RoundedDilutesExactly` | x/clp/keeper/calculations.go:167-212 | for every deposit and all decimals, the units the code computes lower native*external/units^2 if and only if the rounded share times one minus the rounded slip reaches the value that rounds to the least diluting stake |
| `Dilution.SafeTotalExactly` | x/clp/keeper/calculations.go:167-212 | a new total lowers native*external/units^2 if and only if it exceeds the largest k with R*A*k^2 <= (R+r)*(A+a)*P^2 |
| `Dilution.DilutesExactly` | x/clp/keeper/calculations.go:196-207 | for every deposit, the unrounded mint formula lowers it if and only if 4(xy)^3 < (xy(x+y) - (x+y-2)abs(y-x))^2, x and y the growths of the balances |
| `Dilution.DilutesByAmounts` | x/clp/keeper/calculations.go:196-207 | the same condition on whole amounts: 4RA(XY)^3 < (XY(XA+YR) - (XA+YR-2RA)abs(YR-XA))^2 for balances that go from R to X and from A to Y |
| `Dilution.OneAssetNeverDilutes` | x/clp/keeper/calculations.go:196-207 | in the unrounded formula a deposit of one asset alone never dilutes; rounding breaks this |
| `Dilution.OneAssetWithinSlack` | x/clp/keeper/calculations.go:167-212 | with rounding a deposit of one asset would not dilute if it gave the slack fewer units |
| `Blocked.OneAssetDilutesRun` | x/clp/keeper/calculations.go:167-212 | from a chain without pools, creating a pool of an even number N >= 10^18 of native coins and joining with three dilutes: the pool ends with N+2 units |
| `Dilution.EqualNativeDilutesIff` | x/clp/keeper/calculations.go:196-207 | in the unrounded formula a native deposit equal to the pool's, with at least as much in proportion on the external side, dilutes if and only if the external deposit exceeds seventeen times the pool's |
| `Dilution.TotalAccuracy` | x/clp/keeper/calculations.go:167-212 | for every deposit the new total is the exact one within the slack: 1.5 + 2*10^-12 units, 3 parts of the old total and 8 of the share in 10^18 |
| `Dilution.RoundedDilution` | x/clp/keeper/calculations.go:167-212 | for every deposit, all decimals and any total: if the unrounded formula dilutes with the slack fewer units the rounded units dilute, and if it enriches with the slack more they enrich |
| `Dilution.RoundedSeventeen` | x/clp/keeper/calculations.go:167-212 | when the native deposit equals the pool's, the rounded units dilute above and enrich below the factor seventeen, within one part in a million, once the pool has 10^18 units |
| `Withdrawal.PayoutOrder` | x/clp/keeper/calculations.go:75-123 | for any unit counts: units left at most the provider's, zero at 10000 points, swap amount at most its side |
| `Withdrawal.NoOverWithdrawal` | x/clp/keeper/calculations.go:75-123 | a claim that goes into the pool's total at least once is always paid and never beyond either balance; every claim on units within the total does |
| `Withdrawal.FitsExactly` | x/clp/keeper/calculations.go:75-123 | that condition holds if and only if the claim is paid within the balances whatever the balances and the asymmetry are |
| `Invariants.RemovalAccuracy` | x/clp/keeper/msg_server.go:242-285 | every withdrawal that goes through was claimed on units within the total; both payouts, the units left and the swap amount follow the exact proportional formulas within half a unit and a stated relative error |
| `Removals.RemovalExactly` | x/clp/keeper/msg_server.go:242-348 | a withdrawal, symmetric or not, goes through if and only if the token may be traded, pool and record exist, 0 < units <= pool units, the payout leaves something of both assets, the swap can be made and the module has the coins |
| `Removals.RebalanceExactly` | x/clp/keeper/msg_server.go:287-331 | after such a payout the rebalancing fails only for want of a swap, and its coins stay below the balances |
| `Removals.SwapAlwaysMade` | x/clp/keeper/msg_server.go:287-331 | with at most 18 decimals the swap can always be made |
| `Removals.RemovalPays` | x/clp/keeper/msg_server.go:242-348 | a withdrawal that goes through pays the signer the proportional coins, part of them exchanged on the curve, keeps the proportional units on record, and changes no other record and no account but signer and module |
| `Pools.SwapOneConserves` | x/clp/keeper/calculations.go:15-59 | a swap adds what is sent on one side, takes what is paid from the other, keeps the units and the positivity of both sides |
| `Pools.SwapOneAccuracy` | x/clp/keeper/calculations.go:15-59 | result and fee of a swap are within the tolerances of the exact curve, on the balances its direction names and for all decimals; it is refused only if an amount on the curve is at least the balance; the price impact is zero unless the side sent into is empty |
| `Pools.SwapOneAlwaysPays` | x/clp/keeper/calculations.go:25-31 | with at most 18 decimals the not-enough-tokens branch is unreachable for a pool holding the received asset |
| `Pools.SwapOneProduct` | x/clp/keeper/calculations.go:15-41 | the pool's product falls at most by the rounding tolerance, and never when the fee covers it |
| `Swaps.SwapExactly` | x/clp/keeper/msg_server.go:103-240 | a swap goes through if and only if both tokens may be traded, the pools exist, the signer has the amount, every leg can be made, the minimum is reached and the module has the coins; the minimum error is exact; on success the signer pays the amount and receives what the curve gives, leg by leg, and only it and the module change |
| `Deposits.CreateExactly` | x/clp/keeper/msg_server.go:350-404 | a pool is created if and only if at least 10^18 native coins are given, the token may be traded, there is no such pool and the signer has both coins; pool, record, units and balances after it |
| `Deposits.AddExactly` | x/clp/keeper/executors.go:59-123 | liquidity is added if and only if the token may be traded, the pool exists and then holds both assets and the signer has both coins; the signer's record, old or new, and the total grow by the formula's units within the bounds, and only signer and module change |
| `Refunds.RefundLoop` | x/clp/keeper/msg_server.go:55-87 | the refund loop succeeds exactly when every refund exists and the running sums fit, and then everyone listed has its refund |
| `Decommission.DecommissionExactly` | x/clp/keeper/msg_server.go:29-101 | decommissioning succeeds if and only if the order-free condition holds; the pool and its records are gone, the rest of the store unchanged, every balance changed by exactly its refund |
| `Decommission.RefundAccuracy` | x/clp/keeper/msg_server.go:55-87 | every provider of a decommissioned pool receives its proportional part of both balances within half a coin and 5102 parts in 10^18 |
| `Decommission.OrderIrrelevant` | x/clp/keeper/msg_server.go:55-87 | success, store and all balances are the same for any two listings of the providers |
| `Decommission.RefundsWithinPool` | x/clp/keeper/msg_server.go:55-87 | total refunds per asset are at most the recorded balances |
| `Decommission.RecordsBlock` | x/clp/keeper/msg_server.go:60-78 | a record without units, or more units on record than in the pool, makes decommissioning fail |
| `Invariants.NegativeDriftBlocks` | x/clp/keeper/msg_server.go:62-64 | negative drift makes decommissioning fail |
| `Blocked.OneSidedMint` | x/clp/keeper/calculations.go:167-212 | into a fresh pool one to three native coins alone mint half as many units, and the total grows by half of them, each rounded half-even on its own |
| `Blocked.EmptyRecordRun` | x/clp/keeper/msg_server.go:406-451 | for every pool size in a range: create, deposit one coin, withdraw half leaves a pool below the threshold that no admin can decommission, for a record without units |
| `Blocked.NegativeDriftRun` | x/clp/keeper/msg_server.go:406-451 | the same with three coins and an odd total: drift is -1, every record has units, decommissioning fails |
| `Blocked.RoundedRefundsRun` | x/clp/keeper/msg_server.go:55-87 | a four-message run with zero drift and units on every record after which the rounded refunds exceed the balance and decommissioning fails |
| `Blocked.MissingCoinsRun` | x/clp/keeper/msg_server.go:55-87 | a three-message run with zero drift and refunds equal to the recorded balances after which the module lacks the native coins and decommissioning fails |
| `Blocked.OverWithdrawalRun` | x/clp/keeper/msg_server.go:242-285 | for every odd pool size in a range a three-message run leaves one unit in the pool and two on a record, whose full claim is computed as twice both balances and for which every withdrawal fails |
| `Blocked.StrandedProvider` | x/clp/keeper/msg_server.go:271-280 | in any state a provider with more units than its pool cannot withdraw |
| `Invariants.RebalanceConserves` | x/clp/keeper/msg_server.go:287-331 | pool plus coins to pay are conserved by the rebalancing swap, except for a swap amount that yields nothing, which is counted twice |
| `Invariants.CreateKeeps` | x/clp/keeper/msg_server.go:350-404 | creating keeps positivity, surplus unchanged, drift zero |
| `Invariants.AddKeeps` | x/clp/keeper/msg_server.go:406-451 | adding keeps positivity and surplus and moves the drift by at most max(1, 10^(m-18)) |
| `Invariants.RemoveKeeps` | x/clp/keeper/msg_server.go:242-348 | removing keeps positivity and drift and changes the surplus by minus the unbacked swap amount exactly |
| `Invariants.SwapKeeps` | x/clp/keeper/msg_server.go:103-240 | one-leg and two-leg swaps keep positivity, surplus and drift |
| `Invariants.DecommissionKeeps` | x/clp/keeper/msg_server.go:29-101 | decommissioning keeps everything and adds what the pool recorded beyond its refunds to the surplus |
| `Invariants.StepKeeps` | x/clp/keeper/msg_server.go:29-451 | any successful message keeps pool positivity and ownership of records, with the exact surplus change and the drift bound |
| `Runs.RunKeeps` | x/clp/keeper/msg_server.go:29-451 | over every run from a chain without pools: pools hold both assets, surplus equals the initial balance plus the exact changes, drift stays within the sum of the deposit allowances |
| `Runs.RunSolvent` | x/clp/keeper/msg_server.go:278-331 | a run without an unbacked withdrawal ends with the module holding all recorded balances |
| `Runs.LosesExactly` | x/clp/keeper/msg_server.go:278-331 | the module's coins less the recorded balances never fall in any asset across an event if and only if it is not an asymmetric withdrawal whose swap takes something and yields nothing |
| `Runs.UnbackedLoses` | x/clp/keeper/msg_server.go:292-328 | such a withdrawal lowers the coins less the recorded balance of the asset to be swapped by exactly the swap amount |
| `Runs.CoverNeverFalls` | x/clp/keeper/msg_server.go:278-331 | along a whole run the cover of every asset never falls if and only if no withdrawal goes unbacked |
| `Runs.BackedByAmounts` | x/clp/keeper/msg_server.go:287-331 | for any decimals an asymmetric withdrawal is backed if and only if it swaps nothing or the inequality on the scaled amounts fails |
| `Insolvency.InsolventRun` | x/clp/keeper/msg_server.go:292-306 | for every pool size a two-message run leaves the module short of the native asset by half the pool |
| `Keeper.ClpKeeper.CreatePoolHandler` | x/clp/keeper/msg_server.go:350-404 | the handler on mutable state computes the ledger's create transition, with the same error |
| `Keeper.ClpKeeper.AddLiquidityHandler` | x/clp/keeper/msg_server.go:406-451 | the handler computes the ledger's add transition, with the same error |
| `Keeper.ClpKeeper.RemoveLiquidityHandler` | x/clp/keeper/msg_server.go:242-348 | the handler computes the ledger's remove transition, with the same error |
| `Keeper.ClpKeeper.SwapHandler` | x/clp/keeper/msg_server.go:103-240 | the handler computes the ledger's swap transition, with the same error |
| `Keeper.ClpKeeper.DecommissionHandler` | x/clp/keeper/msg_server.go:29-101 | the handler computes the ledger's decommission transition, with the same error |
| `Keeper.ClpKeeper.RefundProviders` | x/clp/keeper/msg_server.go:55-87 | the loop with running balances computes the fold of the refunds and deletes exactly the listed records |
| `Keeper.ClpKeeper.DeliverMessage` | x/clp/keeper/msg_server.go:29-451 | a delivered message makes its transition or leaves the whole state as it was; pool positivity is kept and every asset's surplus changes by exactly the stated amount |
| `Dispensation.AddCoins` | x/dispensation/types/records.go:39-42 | merging adds the amounts of every denomination |
| `Dispensation.MoveBalances` | x/dispensation/keeper/executors.go:76-86 | a transfer changes exactly the two balances, by the coins sent |
| `Escrow.DropsAdd` | x/dispensation/keeper/executors.go:14-30 | merged or not, every output adds exactly its coins to its recipient's pending record and to the debt |
| `Escrow.TotalOutputIsVolume` | x/dispensation/utils/parser.go:56-65 | the collected total is the coin-wise sum of what is written to the journal |
| `Escrow.CreateKeeps` | x/dispensation/keeper/msg_server.go:27-63 | creating keeps records filed under their keys and the escrow funded; journal, records and bank agree |
| `Escrow.FateDecides` | x/dispensation/keeper/executors.go:34-71 | from a funded state a record is skipped, settled, refused or reclaimed as the environment alone decides, with the stated files, claims and journal entry; the only panic left is a refused record that cannot be marked failed |
| `Escrow.PaymentMoves` | x/dispensation/keeper/executors.go:43-65 | whichever fate, every balance changes by exactly the journal entry; the claw-back restores all balances |
| `Escrow.DistributeKeeps` | x/dispensation/keeper/executors.go:34-71 | one payment keeps the books balanced and the escrow funded |
| `Escrow.BatchKeeps` | x/dispensation/keeper/executors.go:34-73 | a batch panics exactly on such a record; otherwise it removes exactly the records that leave and its journal accounts for records and bank |
| `Escrow.NeverShort` | x/dispensation/keeper/executors.go:36-52 | at every point inside a batch the account covers all pending records, and the next payment fails if and only if the bank refuses its recipient |
| `EscrowRuns.EventKeeps` | x/dispensation/keeper/msg_server.go:27-120 | every event keeps the books sound and balanced, and the bank moves as the journal says |
| `EscrowRuns.RunKeeps` | x/dispensation/keeper/msg_server.go:27-120 | over every run the escrow stays funded and the journal balances every record |
| `EscrowRuns.EveryCoinAccounted` | x/dispensation/keeper/executors.go:14-73 | from an empty escrow, for every (name, recipient, type) and denomination: escrowed = pending + paid + stranded, through merges and claw-backs |
| `EscrowRuns.NeverPanics` | x/dispensation/keeper/executors.go:44-65 | with the program's own validation no reachable run of a distribution panics or claws back |
| `EscrowRuns.ProgressExactly` | x/dispensation/keeper/distributionRecords.go:179-209 | the batch has min(10, waiting) records, the waiting count falls by exactly those that can leave, and falls at all if and only if one can |
| `EscrowRuns.BatchFirst` | x/dispensation/keeper/distributionRecords.go:179-209 | the batch is the first ten records in store order that are pending under the name, runner and type, or all of them |
| `EscrowRuns.CooperativeRun` | x/dispensation/keeper/executors.go:34-73 | when waiting records parse and validate, a run succeeds and settles min(10, waiting) of them |
| `EscrowRuns.RunProper` | x/dispensation/types/msgs.go:28-59 | over every run with one parser, every pending record has a recipient and a runner that parse, a valid type and a name |
| `EscrowRuns.Drains` | x/dispensation/keeper/msg_server.go:92-120 | after any run from an empty escrow, t runs of a distribution in a row leave max(0, n - 10t) of its n waiting records, with no condition on the states between |
| `Distributions.NameTells` | x/dispensation/keeper/msg_server.go:31 | two distributions share a name only if height and distributor agree |
| `Distributions.CreationWrites` | x/dispensation/keeper/executors.go:14-30 | every recipient has a pending record of this height that the message's runner can settle, with exactly its coins added; all other records are unchanged, the distributor pays the total and the distribution is registered |
| `Distributions.CreationExactly` | x/dispensation/keeper/msg_server.go:27-54 | an admitted creation is accepted if and only if name, type and runner are new, the distributor has the total, and every output has a recipient and coins of its own or of a record it is merged into |
| `Distributions.CreatedOnce` | x/dispensation/keeper/executors.go:90-101 | whatever happens after a creation, no second one of the same name, type and runner succeeds |
| `Distributions.RunSettles` | x/dispensation/keeper/executors.go:34-73 | in a reachable state a run settles ten waiting records, or all if fewer: filed as completed or failed, paid as the journal says; nothing else is touched |
| `Distributions.Delivers` | x/dispensation/keeper/msg_server.go:27-120 | a creation under a name with nothing pending, followed by a tenth as many runs by its runner as it has outputs, pays every recipient the bank does not refuse exactly its coins; the distributor has paid the total, and no account but the escrow changes otherwise |
| `Distributions.RunNames` | x/dispensation/keeper/executors.go:14-30 | over every run from an empty escrow, every pending record was named by a creation of the run |
| `Distributions.EveryDistributionDelivers` | x/dispensation/keeper/msg_server.go:27-120 | the same after any run from an empty escrow in which the distributor created nothing at that height |
| `DispensationKeeper.GetLimitedRecordsForRunner` | x/dispensation/keeper/distributionRecords.go:179-209 | the loop returns exactly the first ten matching pending records in store order |
| `DispensationKeeper.ComputeTotalOutput` | x/dispensation/utils/parser.go:56-65 | the loop computes the coin-wise total, or an error for no outputs |
| `DispensationKeeper.Keeper.ChangeRecordStatus` | x/dispensation/keeper/distributionRecords.go:288-303 | set, then delete from pending: the new stores and the error, also for a record that was not pending |
| `DispensationKeeper.Keeper.DistributeDrop` | x/dispensation/keeper/executors.go:37-70 | one loop body computes the payment transition and journal; false exactly on a panic |
| `DispensationKeeper.Keeper.PayBatch` | x/dispensation/keeper/executors.go:36-71 | the loop computes the fold of the payments; false exactly on a panic |
| `DispensationKeeper.Keeper.DistributeDrops` | x/dispensation/keeper/executors.go:34-73 | selection and payment together compute the run transition |
| `DispensationKeeper.Keeper.WriteDrops` | x/dispensation/keeper/executors.go:14-30 | the loop computes the merged pending store, or fails on the first record that does not validate |
| `DispensationKeeper.Keeper.CreateDistributionHandler` | x/dispensation/keeper/msg_server.go:27-63 | register, collect, write: the create transition and its error cases |
| `DispensationKeeper.Keeper.Create` | x/dispensation/keeper/msg_server.go:27-63 | the transition, or everything as it was |
| `DispensationKeeper.Keeper.Run` | x/dispensation/keeper/msg_server.go:92-120 | the transition, or everything as it was |
| `Varint.SovExact` | x/clp/types/types.pb.go:647-649 | the computed size is the length of the encoding for every value |
| `Varint.EncodeVarint` | x/clp/types/types.pb.go:549-559 | writes exactly the varint so that it ends at the given offset, and nothing else in the buffer |
| `Varint.UvarintExactly` | x/clp/types/types.pb.go:659-672 | reading succeeds if and only if a complete varint stands at the index, overflows if and only if ten bytes continue, and ends unexpectedly if and only if fewer are left and all continue |
| `Varint.ReadVarint` | x/clp/types/types.pb.go:659-672 | the shift loop computes that reading on every input: ten continued bytes overflow, a cut varint is an unexpected end |
| `Varint.VarintRoundTrip` | x/clp/types/types.pb.go:549-559 | every 64-bit value written anywhere is read back |
| `Wire.Skip` | x/clp/types/types.pb.go:1307-1384 | the skip loop computes its specification on every input, in bounds and terminating |
| `Wire.SkipExactly` | x/clp/types/types.pb.go:1307-1384 | a prefix is skipped if and only if it is one field of the wire grammar, nested groups included, where a group's end tag may carry any field number |
| `Wire.SkipOver` | x/clp/types/types.pb.go:1307-1384 | a well-formed field inside any nesting is passed over as a whole |
| `Wire.GroupTail` | x/clp/types/types.pb.go:1364-1381 | inside a group the loop consumes whole fields and then the group's end tag |
| `Codec.SizeExact` | x/clp/types/types.pb.go:560-571 | the computed size is the number of bytes written, for all three messages |
| `Codec.DecodeExactly` | x/clp/types/types.pb.go:1075-1156 | decoding succeeds if and only if the bytes are a concatenation of fitting fields, and yields what those fields mean, unknown ones ignored |
| `Codec.ResidueMeans` | x/clp/types/types.pb.go:653-734 | a failed decoding leaves what the fields before the failing one mean, and of that one only the bits of an integer read so far |
| `Codec.RoundTrip` | x/clp/types/types.pb.go:483-498 | every message is restored from its encoding, whose length is the computed size |
| `Messages.Asset.ComputeSize` | x/clp/types/types.pb.go:560-571 | the size method returns the exact encoded length |
| `Messages.Asset.MarshalToSizedBuffer` | x/clp/types/types.pb.go:336-349 | fills the end of the buffer with the encoding and leaves the rest |
| `Messages.Asset.Marshal` | x/clp/types/types.pb.go:321-329 | a fresh buffer holds exactly the encoding |
| `Messages.Asset.Unmarshal` | x/clp/types/types.pb.go:653-734 | on every input the loop returns the decoding's success or error and leaves the object exactly as decoding leaves it, also after an error |
| `Messages.WhiteList.ComputeSize` | x/clp/types/types.pb.go:611-624 | the loop returns the exact encoded length |
| `Messages.WhiteList.MarshalToSizedBuffer` | x/clp/types/types.pb.go:483-498 | the loop from the last element back fills the end of the buffer with the encoding and leaves the rest |
| `Messages.WhiteList.Marshal` | x/clp/types/types.pb.go:468-476 | a fresh buffer holds exactly the encoding |
| `Messages.WhiteList.Unmarshal` | x/clp/types/types.pb.go:1075-1156 | on every input the loop returns the decoding's success or error and leaves the object exactly as decoding leaves it, also after an error |
| `Messages.Params.ComputeSize` | x/clp/types/params.pb.go:133-143 | the size method returns the exact encoded length |
| `Messages.Params.MarshalToSizedBuffer` | x/clp/types/params.pb.go:109-120 | fills the end of the buffer with the encoding and leaves the rest |
| `Messages.Params.Marshal` | x/clp/types/params.pb.go:94-102 | a fresh buffer holds exactly the encoding |
| `Messages.Params.ReadThreshold` | x/clp/types/params.pb.go:184-198 | the field is cleared and filled in place: the value read, or after an error the bits that came in |
| `Messages.Params.Unmarshal` | x/clp/types/params.pb.go:151-219 | on every input the loop returns the decoding's success or error and leaves the object exactly as decoding leaves it, also after an error |
| `CosmosRelayer.RunOrderly` | cmd/ebrelayer/relayer/cosmos.go:115-194 | over every run: after a save only the next height is handled, handling is followed by its save or a crash, the database holds the last save |
| `CosmosRelayer.NoGap` | cmd/ebrelayer/relayer/cosmos.go:139-194 | every height after the initial cursor, or from the first one saved, up to the saved cursor was handled |
| `CosmosRelayer.RepeatsOnlyInProgress` | cmd/ebrelayer/relayer/cosmos.go:149-194 | once a cursor is saved heights never go back, and one comes again only because the process died on it |
| `CosmosRelayer.CatchesUp` | cmd/ebrelayer/relayer/cosmos.go:139-194 | a process that survives a new block has saved its height; without a cursor the block is only remembered |
| `CosmosRelayer.UnsavedPlaceIsLost` | cmd/ebrelayer/relayer/cosmos.go:115-194 | without a cursor a crash before the first save leaves a gap below the cursor saved later, for all first and later heights |
| `CosmosRelayer.NothingSkippedIff` | cmd/ebrelayer/relayer/cosmos.go:115-194 | no run skips a height between the initial cursor, or the first height announced, and the saved cursor if and only if there is an initial cursor |
| `CosmosRelayer.CosmosSub.Start` | cmd/ebrelayer/relayer/cosmos.go:115-123 | a start loads the saved height |
| `CosmosRelayer.CosmosSub.OnNewBlock` | cmd/ebrelayer/relayer/cosmos.go:137-194 | the inner loop with retries computes the transition and its log |
| `EthereumRelayer.RunOrderly` | cmd/ebrelayer/relayer/ethereum.go:143-244 | over every run: every query starts at the cursor once there is one, and is followed by the save of its end plus one or a crash |
| `EthereumRelayer.EveryBlockCovered` | cmd/ebrelayer/relayer/ethereum.go:182-243 | every block from where coverage began up to the saved cursor was in a successful query |
| `EthereumRelayer.UnsavedPlaceIsLost` | cmd/ebrelayer/relayer/ethereum.go:143-243 | without a cursor a crash before the first save leaves every block between the first and the later range unqueried below the cursor saved later |
| `EthereumRelayer.NothingSkippedIff` | cmd/ebrelayer/relayer/ethereum.go:143-243 | no run skips a block between the initial cursor, or the first head less fifty, and the saved cursor if and only if there is an initial cursor |
| `EthereumRelayer.SurvivorSkipsNothing` | cmd/ebrelayer/relayer/ethereum.go:165-243 | without a cursor failed queries lose nothing as long as the process survives, unless the first range ends at block zero |
| `EthereumRelayer.StaysBehind` | cmd/ebrelayer/relayer/ethereum.go:170-195 | no query reaches beyond the highest head minus fifty |
| `EthereumRelayer.CrashRepeatsRange` | cmd/ebrelayer/relayer/ethereum.go:190-243 | a crash before the save leaves the cursor, so the next query starts at the same block |
| `EthereumRelayer.RangesTile` | cmd/ebrelayer/relayer/ethereum.go:165-243 | with rising heads and no crash the successful queries cut the blocks between the cursors into adjacent disjoint non-empty ranges |
| `EthereumRelayer.EthereumSub.Start` | cmd/ebrelayer/relayer/ethereum.go:143-152 | a start loads the saved cursor into a fresh object |
| `EthereumRelayer.EthereumSub.OnNewHead` | cmd/ebrelayer/relayer/ethereum.go:165-243 | with the head's number changed in place and perhaps shared with the cursor, the body still computes the transition on values |

## Left out

- Internals of the Cosmos SDK, the bank, the stores and pagination: unseen libraries, taken as the assumptions above.
- Codec of pools, provider records, transaction and query messages: their number codecs live in unseen libraries, the rest repeats the modelled pattern.
- Emitted events, which alone carry the fee and the price impact of a swap.
- Address whitelist, fee decorator, parameters and queries: each would only add an easy member.
- User claims: only their deletion on payment is modelled; claims otherwise come and go freely.
- ValidateBasic of token symbols (length and character set): the model only uses that a symbol is not the native one.
- Ethbridge, oracle, token registry and transfer middleware: only the registry's decimals and permission are used, as data.
- Relayer networking, signing, event parsing and retries of failed claims: only the cursors are modelled; a query counts as covering its range even if handling an event in it fails.
- Dilution.DilutesExactly: states the unrounded formula; `Dilution.RoundedDilutesExactly` states the code's units.
- Dilution.DilutesByAmounts: states the unrounded formula; `Dilution.RoundedDilution` carries it to the code's units up to the slack.
- Dilution.OneAssetNeverDilutes: states the unrounded formula; it is false of the code's units (`Blocked.OneAssetDilutesRun`), for which `Dilution.OneAssetWithinSlack` holds.
- Dilution.EqualNativeDilutesIff: states the unrounded formula; `Dilution.RoundedSeventeen` carries it to the code's units.
- Dilution.RoundedSeventeen: leaves out pools of fewer than 10^18 units, where rounding moves the threshold by more than one part in a million, and one part in a million around it; `Dilution.RoundedDilutesExactly` decides those.
