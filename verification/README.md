# Cerdic matcher: verified position accounting

A Dafny model of the perpetual-futures matcher that keeps traders' positions in an enclave: how every
fill is folded into a position, how the write-through position cache and its locks keep concurrent folds
and liquidations in order, how sealed positions travel to the chain and back, how realized PnL is queued
for custody, and the exact transformers around them (depth grouping, chunked bodies, signing strings,
nonces, the mockup's flood fill). Nothing here is executed; `dafny verify dfyconfig.toml` checks the
whole project.

## How it is organised

| File | What it models |
|---|---|
| `Primitives`, `Arithmetic` | machine types; Rust's division toward zero and the rounding facts used below |
| `PositionFolding` | one fill: the program's add / close / flip branches as a class, proved equal to "close the opposing part, then open the rest" |
| `CashLedger`, `ZeroSum`, `MarketFlow` | what whole runs conserve: for one position, for all traders over runs of orders, and for any interleaving of single folds with liquidations and evictions |
| `FillSplitting`, `SweepSlicing` | slicing one quantity into matches: for a position held in memory, and on the program's own path through cache and chain |
| `CollateralGate`, `MarketScale` | the pre-trade reserve against what a sweep really locks; tick units to dollars |
| `PositionCaching`, `ChainAgreement` | cache-first reads, sweeps, and agreement of cache and chain over runs with settlements in flight |
| `Liquidation` | partial-close-first sizing and what it restores |
| `LockProtocol` | interleaved folds and liquidations: serialisability, no deadlock, termination |
| `MatcherState` | the shared state as a class; every operation proved against the functions above |
| `Submissions` | what an order submits to the chain: maker by maker, and for its taker |
| `RealizedPnl`, `PnlFlow` | the realized-PnL queue, and what runs of orders and drains put into it and take out |
| `LocalPositions` | the browser's own fold |
| `Thresholds` | take-profit and stop-loss parameters: nothing the program does ever sets one |
| `DepthGrouping`, `ChunkedBody`, `SigningStrings`, `Nonces`, `FloodFill` | the exact transformers |

Conventions. A specification function says what an operation computes on values; where the program
updates state in place there is a class or a looping method proved equal to that function; the lemmas
then reason about the function. Integers are unbounded except where a width matters: ticks, quantities,
leverages and nonces are `u64`, and the dollar conversion models the saturation of `i128`. A fill has a
positive quantity, as every fill of the book has (crates/cerdic-tee-matcher/src/book.rs:841-909). A
(portfolio, market) key is a natural number whose order is the order in which the program sorts markets.

## What the proofs found

- Realized PnL is not exactly the cash of the trades: an add rounds its average entry down. One fill is exact if and
  only if it does not add or the new size divides the total cost (`SpotDriftIsExactIff`); `RoundingIsReal` shows one
  add creating a whole unit at any price, exactly the bound of `CashIsConserved`.
- A fill that lands exactly flat evicts its key, and the next fill on it opens from the chain at the order's leverage.
  Most surprises come from there. While the old position is unsettled it is picked up again:
  `SweepKeepsSizeIff` gives the exact condition for one sweep, `ReopenBeforeSettlementIsWrong` the error over two,
  and `OpenInterestBalancesIff` what it does to the market: open interest is off by exactly what cache misses found
  on the chain, and `RealizedSumsToImported` says the same of realized PnL.
- Slicing a fill is harmless on that path if and only if no slicing can land flat early, or what a fill after that
  meets is of no size and its leverage asks the single fill's margin or one unit less (`SlicingIsHarmlessIff`).
  Take-profit and stop-loss thresholds are never set by the program, so on every run from a state without any, slices
  end without any as the single fill does (`NoThresholdEver`). For parameters another writer sealed,
  `SlicingKeepsStopsCleared` says exactly when slicing still takes them down.
- The pre-trade gate prices the opening part at the order's own tick and leverage, by a position it reads without a
  lock. `ReserveCoversIff` gives the exact worst case of what an order locks: the opening part at the position's
  leverage or, if the order can land flat first, at whatever is reopened then. `GateAcceptsIff` shows for any order,
  and whatever happened to the position in between, when the gate is safe and when it is exact; `StaleSizeIsUnsafe`,
  `ReservesThatDoNotCover` and `FlatReopensAtTheOrdersLeverage` give orders that lock more than was asked.
- A lost settlement is not simply missing: each settlement overwrites the whole position, so the next confirmed one
  brings the lost fills onto the chain, but not their collateral (`LossAheadIsCarried`). That also follows a
  transaction that reverts at inclusion: `broadcast` awaits the receipt without looking at its status
  (crates/cerdic-tee-matcher/src/settle.rs:730-733), so the cache is kept and the gap between cached and chain
  collateral moves by the reverted delta (`RevertIsCarried`, `GapIsConstant`). `CacheAndChainAgree` states what holds
  through all of this: the size of a drained chain is that of the fills not lost plus those carried along, its
  collateral that of exactly the settlements not lost. The comment on `invalidate_position` promises a correct
  fallback read; the code gives one only when nothing else is in flight (`StaleReadIff`).
- A partial liquidation is off by up to one unit per leg beyond the first (`LiquidationRestoresHealth`,
  `TwoLegsCanStayShort`). A single leg closed without a loss always ends healthy exactly when it has at most one unit
  or at least ten (`SingleLegHealsIff`).
- The comment above `apply_fill` speaks of a proportional `freed` share; the code releases no margin on a close, only
  realized PnL moves collateral, and the model follows the code.
- The saturating product of the margin conversion is meant to make an overflowing order look unaffordable; the model
  follows the code, which divides the saturated product by the price scale (`MarginToUsdExactIff`).
- `decode_chunked` does not look at the two bytes after a chunk's data; `AcceptedIffFramed` describes exactly
  which bodies it accepts and `DecodedIff` which it refuses, and how.

## Model

| member | source | states |
|---|---|---|
| PositionFolding.PositionFold.ApplyFill | crates/cerdic-tee-matcher/src/api.rs:3413-3472 | the add, close and flip branches leave the position and return the two deltas of closing the opposing part first and opening the rest |
| PositionFolding.PositionFold.FromExisting | crates/cerdic-tee-matcher/src/api.rs:3363-3384 | an existing position is taken over whole, its own leverage included; none starts flat at the default leverage |
| PositionFolding.BlendPrice | crates/cerdic-tee-matcher/src/api.rs:3425-3427 | the floored average entry lies between the two prices (so the cast to 64 bits is exact) and leaves a remainder below the new size |
| PositionFolding.BlendFunding | crates/cerdic-tee-matcher/src/api.rs:3428-3430 | the funding average, truncated toward zero, is off by less than the new size in total, and constant when both stamps agree |
| PositionFolding.BlendFundingTowardZero | crates/cerdic-tee-matcher/src/api.rs:3428-3430 | times the new size it lies between zero and the exact total, whichever sign the total has: rounded toward zero on both sides |
| PositionFolding.MarginIsNotionalOverLeverage | crates/cerdic-tee-matcher/src/api.rs:3103-3106 | at a leverage clamped to 1..50 the margin never exceeds the notional over it, falls short only by the rate's rounding and one unit, and is exactly that rounded down where the leverage divides 10,000 |
| PositionFolding.MakersLockATwentieth | crates/cerdic-tee-matcher/src/api.rs:3527-3548 | a maker's fresh position locks a twentieth of its notional |
| PositionFolding.EntryBetweenOpeningPrices | crates/cerdic-tee-matcher/src/api.rs:3413-3472 | after any run of fills the entry price lies between two prices at which the current side was opened since it was last flat or flipped |
| PositionFolding.RunSize | crates/cerdic-tee-matcher/src/api.rs:3419-3464 | the signed size after any run is the start plus the signed sum of its fills |
| CashLedger.StepDrift | crates/cerdic-tee-matcher/src/api.rs:3310-3330 | closes and flips conserve realized PnL minus book value plus cash exactly; an add drifts by at most its new size minus one, for spot in the position's own direction |
| CashLedger.FundingDriftIsTowardZero | crates/cerdic-tee-matcher/src/api.rs:3428-3430 | the funding drift of an add, seen from the position's side, has the sign of the total and stays below the new size; it vanishes if and only if the new size divides the total |
| CashLedger.CashIsConserved | crates/cerdic-tee-matcher/src/api.rs:3413-3472 | over any run from any position, realized PnL minus change in book value equals the net cash of the fills within the adds' accumulated rounding, for spot and funding separately |
| CashLedger.MarkToMarket | crates/cerdic-tee-matcher/src/api.rs:3310-3330 | from flat, realized plus unrealized PnL at any mark equals cash PnL at that mark within the same bound |
| CashLedger.FlatToFlat | crates/cerdic-tee-matcher/src/api.rs:3413-3472 | a run from flat to flat realizes its net cash within the adds' rounding |
| CashLedger.SpotDriftIsExactIff | crates/cerdic-tee-matcher/src/api.rs:3425-3427 | one fill conserves cash exactly if and only if it does not add, or the new size divides the total cost |
| CashLedger.RoundingIsReal | crates/cerdic-tee-matcher/src/api.rs:3425-3427 | at any price, two buys one tick apart and one sale realize one unit more than their cash: the bound is attained |
| MarketFlow.AnyInterleavingBalances | crates/cerdic-tee-matcher/src/api.rs:1585-1663 | however the maker and taker folds of concurrent orders interleave with each other, with liquidated legs and with evictions, once both legs of every match are folded: total size has moved by exactly what was read in from the chain less what was forgotten and liquidated, and realized PnL less book value by the same flows within twice the adds' rounding |
| MarketFlow.OpenInterestIsFlow | crates/cerdic-tee-matcher/src/api.rs:2788-2889 | from an empty matcher, open interest is the size read in net of what was forgotten, less the size liquidated |
| ZeroSum.MarketBalances | crates/cerdic-tee-matcher/src/api.rs:1585-1663 | over any run of whole orders through the fill loop, whatever the chain holds meanwhile: realized PnL less open book value plus book value read in from the chain moves by at most twice the adds' rounding, and total size by exactly the size read in |
| ZeroSum.RealizedSumsToImported | crates/cerdic-tee-matcher/src/api.rs:1585-1663 | from an empty cache to all keys flat, all realized PnL is minus the book value cache misses read in, within twice the sum over all adds of new size minus one |
| ZeroSum.RealizedSumsToZero | crates/cerdic-tee-matcher/src/api.rs:1585-1663 | so when no miss finds a live chain position, it sums to zero within that bound, backstop included |
| ZeroSum.OpenInterestBalancesIff | crates/cerdic-tee-matcher/src/api.rs:3536-3548 | after every run longs and shorts are equal if and only if the sizes read in from the chain add up to nothing |
| ZeroSum.OpenInterestBalances | crates/cerdic-tee-matcher/src/api.rs:3536-3548 | when no miss finds a live chain position, longs and shorts are equal after every run |
| ZeroSum.StaleReadUnbalances | crates/cerdic-tee-matcher/src/api.rs:1212-1213 | that hypothesis is needed: an order that closes its cached position flat and trades on while the chain still holds the old one unbalances open interest by exactly the old size |
| SweepSlicing.SlicingIsHarmlessIff | crates/cerdic-tee-matcher/src/api.rs:1187-1230 | loading, folding and writing back every slice, with any fees: same size, same realized PnL, entry and margin never above and at most k-1 below the single fill for every slicing, if and only if no slicing can land flat early or what is reopened then has no size and a leverage that asks the same margin or one unit less |
| SweepSlicing.SweepIsRun | crates/cerdic-tee-matcher/src/api.rs:1187-1230 | a sweep without an early flat leaves cache, delta and realized part of the same fills folded into one position in memory, fees apart |
| Thresholds.NoThresholdEver | crates/cerdic-tee-matcher/src/api.rs:1187-1230 | on every run that starts without take-profit or stop-loss parameters none is ever cached, submitted or settled |
| Thresholds.SweepStaysClean | crates/cerdic-tee-matcher/src/api.rs:1205-1227 | no sweep brings one in, however its quantity is sliced |
| Thresholds.MatchesStayClean | crates/cerdic-tee-matcher/src/api.rs:1585-1663 | no order's fills bring one in, for the taker or any maker |
| Thresholds.LiquidationStaysClean | crates/cerdic-tee-matcher/src/api.rs:2856-2889 | nor does a liquidation, in the cache or in what it seals |
| SweepSlicing.SlicingKeepsStopsCleared | crates/cerdic-tee-matcher/src/api.rs:1211-1227 | for any chain contents: slices through zero clear the old take-profit and stop-loss like the single fill, however they are cut, if and only if the chain holds none for the key or its position opposes the fill and divides what opens |
| FillSplitting.MarginSplits | crates/cerdic-tee-matcher/src/api.rs:3103-3106 | the margins of two parts lose at most one unit against the margin of the whole |
| CollateralGate.LockedIsBounded | crates/cerdic-tee-matcher/src/api.rs:1187-1230 | margin locked by any sweep of an order's fills, up to its quantity and at most at a cap price, is at most the worst case over what the position and the chain hold, and without an early flat at most the opening part at the position's leverage |
| CollateralGate.ReserveCoversIff | crates/cerdic-tee-matcher/src/api.rs:1187-1230 | a reserve covers every way an order can fill if and only if it covers that worst case: the opening part at the cap and the position's leverage or, where the order can land flat first, against what is reopened |
| CollateralGate.BuyAtItsTickIsCovered | crates/cerdic-tee-matcher/src/api.rs:3214-3245 | a buy at or below its tick with the position's leverage locks at most the margin the gate asks, if no leg before the last lands flat or nothing is on the chain; with nothing to open it locks nothing, whatever the leverage and the chain |
| CollateralGate.ReservesThatDoNotCover | crates/cerdic-tee-matcher/src/api.rs:3244-3245 | a sell above its tick, an add onto a position of lower leverage, and a flat-first sell meeting an unsettled chain position lock more than the gate asks |
| CollateralGate.FlatReopensAtTheOrdersLeverage | crates/cerdic-tee-matcher/src/api.rs:1205-1213 | a sell through a long of higher leverage can lock more than the position's leverage asks, because it reopens at its own |
| CollateralGate.AcceptedOrderStaysCovered | crates/cerdic-tee-matcher/src/api.rs:3188-3263 | where what the order may need on the position it meets stays within what is asked by the position seen, an accepted order's deposit covers everything locked before and by it, or it locks nothing |
| CollateralGate.GateAcceptsIff | crates/cerdic-tee-matcher/src/api.rs:3214-3260 | for any order, leverage, cap and chain, and any change of the position between the gate's read and the fills: accepting is safe for every deposit if and only if what the order may need is at most what the gate asks, and the gate exact if and only if the two are equal, saturation included |
| CollateralGate.UndisturbedGateIsSafeIff | crates/cerdic-tee-matcher/src/api.rs:3214-3260 | when the fills meet the size the gate saw, short of saturation, safe if and only if the worst case stays within the margin asked for |
| CollateralGate.StaleSizeIsUnsafe | crates/cerdic-tee-matcher/src/api.rs:3229-3242 | an order that only closes the position seen passes on no deposit, and is safe if and only if it can lock nothing on the position it meets |
| CollateralGate.CloseIsNeverRefused | crates/cerdic-tee-matcher/src/api.rs:3223-3242 | an order with nothing to open on the position seen passes whatever is deposited, and with nothing to open on the one it meets locks nothing |
| CollateralGate.EveryHoldingCounts | crates/cerdic-tee-matcher/src/api.rs:3205-3214 | short of saturation, more collateral in any one holding, of any market, raises the deposit an opening order needs by exactly its dollars |
| CollateralGate.FirstOrderNeedsItsMargin | crates/cerdic-tee-matcher/src/api.rs:3244-3260 | with no positive collateral anywhere an opening order passes if and only if the deposit covers its own margin's dollars |
| CollateralGate.RefusalNamesTheLeastDeposit | crates/cerdic-tee-matcher/src/api.rs:3255-3260 | a refusal names the deposit there is and the least one that would have been accepted |
| CollateralGate.SizeSeen | crates/cerdic-tee-matcher/src/api.rs:3216-3217 | the size seen is that of the first holding in the order's market, zero where there is none |
| CollateralGate.GateFailsOpen | crates/cerdic-tee-matcher/src/api.rs:3197-3199 | unconfigured or with the deposit out of reach it lets every order through |
| MarketScale.MarginToUsdExactIff | crates/cerdic-tee-matcher/src/api.rs:3124-3129 | margin in dollars is the exact product, both price scales dividing 10^18, if and only if the scaled amount fits 128 bits |
| MarketScale.RealizedDeltaToUsdExactIff | crates/cerdic-tee-matcher/src/api.rs:3143-3149 | the dollar value of a realized delta is exact if and only if the scaled delta fits 128 bits |
| MarketScale.TicksAgree | app/src/lib/priceScale.ts:22-30 | the server's price scale is ten to the decimals of the browser's own table, five for its four currency pairs and two otherwise |
| MarketScale.DollarMovesPayDollars | crates/cerdic-tee-matcher/src/api.rs:3132-3149 | closing q units after the real price moved by d dollars realizes exactly q times d dollars |
| MarketScale.RealizedDeltaSaturates | crates/cerdic-tee-matcher/src/api.rs:3143-3149 | beyond 128 bits a realized delta converts to the largest amount of its sign over the scale |
| MarketScale.MarginSaturates | crates/cerdic-tee-matcher/src/api.rs:3124-3129 | beyond 128 bits a margin converts to the largest amount over the scale |
| PositionCaching.SealRoundTrip | crates/cerdic-tee-matcher/src/api.rs:2498-2534 | sealing a position and reading it back from the chain gives it back, with the chain's own collateral |
| PositionCaching.SweepTelescopes | crates/cerdic-tee-matcher/src/api.rs:1187-1230 | a sweep with no early flat leaves the cache as if folded in memory, and its deltas telescope to final minus starting collateral |
| PositionCaching.SweepSize | crates/cerdic-tee-matcher/src/api.rs:2483-2496 | the size a sweep leaves is start plus fills plus the chain's size once per early flat |
| PositionCaching.SweepKeepsSizeIff | crates/cerdic-tee-matcher/src/api.rs:1211-1213 | a sweep ends with the size of its fills if and only if no proper prefix lands flat or the chain holds no position |
| PositionCaching.SweepFrame | crates/cerdic-tee-matcher/src/api.rs:1197-1228 | a sweep changes no other key of the cache |
| ChainAgreement.RunAgrees | crates/cerdic-tee-matcher/src/api.rs:1713-1798 | trades, in-order confirmations, failed broadcasts, reverted transactions and lost receipts keep cache, settlement queue and chain in agreement on every key, provided a miss occurs only with nothing in flight and no sweep lands flat early |
| ChainAgreement.CacheAndChainAgree | crates/cerdic-tee-matcher/src/api.rs:1700-1806 | from boot through all of these: a cached position is what was last submitted, its size that of the fills not lost plus the lost ones carried along or still in flight; a drained chain has the size of the fills not lost plus those carried along and the collateral of exactly the settlements not lost; with exact conditions for plain agreement |
| ChainAgreement.LosingTheLastIsHarmless | crates/cerdic-tee-matcher/src/api.rs:1787-1798 | nothing is ever carried along if every lost settlement has none queued behind it and every reverted one is of a key no longer cached |
| ChainAgreement.LossAheadIsCarried | packages/contracts/src/clearing/SettlementEngine.sol:407-417 | losing the first of two settlements and confirming the second leaves the lost fills on the chain, with the second delta alone |
| ChainAgreement.RevertIsCarried | crates/cerdic-tee-matcher/src/settle.rs:705-733 | a reverted settlement changes neither cache nor chain, and the next confirmed one brings its fills along without its delta |
| ChainAgreement.GapIsConstant | packages/contracts/src/clearing/SettlementEngine.sol:407-417 | over an episode, cached collateral minus chain collateral minus deltas in flight moves by exactly the reverted deltas, and is constant without reverts |
| ChainAgreement.OpeningGap | crates/cerdic-tee-matcher/src/api.rs:2512-2534 | that constant is zero when the episode starts from a live chain position, minus the leftover collateral when it starts from an empty one |
| ChainAgreement.DrainedChainRereads | crates/cerdic-tee-matcher/src/api.rs:2483-2534 | with nothing in flight and the last submission not reverted, re-reading the chain gives the cached position, collateral shifted by that gap |
| ChainAgreement.StaleReadIff | crates/cerdic-tee-matcher/src/api.rs:2492-2494 | a sweep that misses the cache with settlements in flight ends with the right size if and only if the fills in flight add up to nothing |
| ChainAgreement.ReopenBeforeSettlementIsWrong | crates/cerdic-tee-matcher/src/api.rs:1212-1213 | closing a position flat and reopening before the close settles ends wrong by exactly the chain's size and what was still lost |
| Liquidation.ScaleCancels | crates/cerdic-tee-matcher/src/api.rs:2615-2637 | scaling sizes by 10^18 for the risk formula yields the plain requirement exactly |
| Liquidation.LiveMarksAreUsed | crates/cerdic-tee-matcher/src/api.rs:2788-2855 | for a key in the oracle's snapshots the requirement is three percent of size times its price there, and a leg realizes the signed closed size times the moves of price and funding there since entry; the entry stamps stand in for a missing one |
| Liquidation.SingleBreachIff | crates/cerdic-tee-matcher/src/api.rs:2615-2637 | a single position is breached if and only if three percent of its marked notional exceed its positive collateral |
| Liquidation.PortfolioAddsUp | crates/cerdic-tee-matcher/src/api.rs:2615-2637 | requirement and collateral of a portfolio are the sums over its positions, losses in one never offsetting another |
| Liquidation.CloseSizeIs | crates/cerdic-tee-matcher/src/api.rs:2824-2826 | the fraction of a leg rounded down, or all of it when that is nothing or the fraction is whole |
| Liquidation.MinimumBpsIsLeast | crates/cerdic-tee-matcher/src/api.rs:2776-2786 | the computed fraction is the least whole number of basis points with requirement times the remaining fraction within the collateral |
| Liquidation.LiquidationRestoresHealth | crates/cerdic-tee-matcher/src/api.rs:2767-2892 | whatever the marks, a partial liquidation of legs of at most one or at least ten units leaves a requirement of at most remaining collateral plus the losses realized plus n-1 for n legs |
| Liquidation.SingleLegHealsIff | crates/cerdic-tee-matcher/src/api.rs:2824-2855 | every partial, loss-free liquidation of a single leg of n units ends healthy if and only if n is at most one or at least ten |
| Liquidation.TwoLegsCanStayShort | crates/cerdic-tee-matcher/src/api.rs:2824-2855 | two legs closed without loss that end one unit short: the allowance per extra leg is needed |
| Liquidation.FullCloseOwesNothing | crates/cerdic-tee-matcher/src/api.rs:2805-2822 | a full close leaves no requirement |
| Liquidation.LegIsReducingFill | crates/cerdic-tee-matcher/src/api.rs:2788-2889 | sizing a leg leaves cache, delta and sealed parameters exactly as folding an opposite fill of the closed size without a fee |
| LockProtocol.LiveInterleavingsAreSerial | crates/cerdic-tee-matcher/src/api.rs:1199-1228 | for any interleaving of folds and liquidations, lock by lock and read by read, while the chain moves under them: the final cache and every task's writes, deltas and realized parts are those of one-at-a-time runs in the order of their last acquisition, each task exactly once, every chain read answered as at its moment |
| LockProtocol.InterleavingsAreSerial | crates/cerdic-tee-matcher/src/api.rs:1199-1228 | the same for chain answers fixed in advance per task and key |
| LockProtocol.StepInv | crates/cerdic-tee-matcher/src/api.rs:1240-1251 | every single step keeps locks, log and data in agreement with the serial run |
| LockProtocol.LiveNoDeadlock | crates/cerdic-tee-matcher/src/api.rs:2921-2926 | in every reachable state with an unfinished task some task can step, however the chain moves |
| LockProtocol.LiveScheduleEnds | crates/cerdic-tee-matcher/src/api.rs:2915-2932 | no schedule exceeds four steps per key, and one that long has finished every task, however the chain moves |
| LockProtocol.UnsortedLocksDeadlock | crates/cerdic-tee-matcher/src/api.rs:2920-2922 | two liquidations taking two locks in opposite orders can block each other: the sort is needed |
| LockProtocol.FoldJobIsLoadAndFold | crates/cerdic-tee-matcher/src/api.rs:1187-1230 | a fold task run alone is the program's read, fold and write |
| LockProtocol.LiquidateJobIsSizing | crates/cerdic-tee-matcher/src/api.rs:2927-2996 | a liquidation task run alone does nothing to a healthy portfolio and otherwise caches and returns the sizing of every leg it read, or forgets all its keys when a broadcast fails |
| LockProtocol.HeldIsWhatWasRead | crates/cerdic-tee-matcher/src/api.rs:2927-2932 | what is sized is exactly the positions found under the locks, key by key |
| MatcherState.AppState.LoadSingleMarketStateCached | crates/cerdic-tee-matcher/src/api.rs:2483-2534 | reads the cache first, then the chain, where empty parameters, a failed read and a failed unsealing all mean no position |
| MatcherState.AppState.LoadAndFoldFill | crates/cerdic-tee-matcher/src/api.rs:1187-1230 | new cache, delta and realized part are those of the specified fold with the fee added to delta and collateral but not to the realized part |
| MatcherState.AppState.SettleMatches | crates/cerdic-tee-matcher/src/api.rs:1585-1663 | the fill loop: maker then taker per fill, unknown makers skipped, one leg per maker fill, one summed taker delta, both realized parts queued in dollars |
| MatcherState.EachKeyIsSweptAlone | crates/cerdic-tee-matcher/src/api.rs:1612-1660 | however makers and taker interleave, each key ends as if its own legs were swept alone and the settlement adds exactly that sweep's delta to it |
| Submissions.MakerLegSealsItsMaker | crates/cerdic-tee-matcher/src/api.rs:3536-3557 | read back from the chain a maker leg is its maker's own position: size before plus its signed fill, leverage kept, entry kept or the fill's tick where it opens afresh, and none if and only if that size is zero |
| Submissions.MakerIsSealedLast | crates/cerdic-tee-matcher/src/api.rs:1612-1660 | the last leg an order submits for a maker seals what sweeping that maker's own legs alone leaves |
| Submissions.MakerLegIsOneTrade | crates/cerdic-tee-matcher/src/api.rs:3549-3557 | each maker leg is the settlement a trade of that one fill puts in flight |
| Submissions.TakerIsOneTrade | crates/cerdic-tee-matcher/src/api.rs:1713-1726 | against other makers, the taker's delta and parameters are the settlement a trade of all its fills puts in flight |
| Submissions.SidesOfMatch | crates/cerdic-tee-matcher/src/api.rs:3514-3548 | the maker trades against the order without a fee, the taker with it and pays the fee |
| Submissions.FirstMatch | crates/cerdic-tee-matcher/src/api.rs:1612-1660 | two traders nobody has seen end with opposite positions at the fill's tick and funding, the maker's at leverage 20 with its margin, the taker's at the order's leverage with margin and fee |
| MatcherState.AppState.SizeLiquidationLegs | crates/cerdic-tee-matcher/src/api.rs:2767-2892 | fraction, legs and cache of the specified sizing, through all three branches |
| MatcherState.AppState.Liquidate | crates/cerdic-tee-matcher/src/api.rs:2927-3009 | sizes exactly when the requirement exceeds the collateral, forgets every key when a broadcast failed, reports execution when one landed, with the cache effect the lock protocol assumes |
| MatcherState.AppState.QueueRealizedPnl | crates/cerdic-tee-matcher/src/api.rs:898-907 | nets a non-zero delta of a real trader into its entry when settlement is configured, nothing otherwise |
| MatcherState.AppState.DrainRealizedPnl | crates/cerdic-tee-matcher/src/api.rs:914-917 | empties the queue into a batch that holds each pending trader once with its netted delta |
| MatcherState.AppState.CheckNonce | crates/cerdic-tee-matcher/src/api.rs:1388-1396 | accepts exactly a nonce above the signer's last one and records it only then |
| RealizedPnl.NothingIsLost | crates/cerdic-tee-matcher/src/api.rs:898-917 | over any interleaving of realized fills and drains, drained plus pending equals each real trader's realized PnL in exact dollars |
| PnlFlow.EveryFoldIsPaid | crates/cerdic-tee-matcher/src/api.rs:1585-1663 | over any run of orders and drains, what a real trader was paid and is still owed grows by exactly what its own folds realized as taker and maker, in dollars, barring saturation |
| PnlFlow.MatchesQueue | crates/cerdic-tee-matcher/src/api.rs:1656-1660 | the queue after an order is what its folds' realizations build up one by one |
| RealizedPnl.DrainPaysPending | crates/cerdic-tee-matcher/src/api.rs:914-917 | a batch pays every trader exactly what was pending |
| RealizedPnl.BackstopIsNeverPaid | crates/cerdic-tee-matcher/src/api.rs:899-904 | the zero address is never queued or paid, and without configuration nothing is queued |
| RealizedPnl.ConversionIsAdditive | crates/cerdic-tee-matcher/src/api.rs:3143-3149 | netting before or after conversion gives the same dollars, barring saturation |
| LocalPositions.Store.RecordFill | app/src/hooks/useLocalPositions.ts:94-130 | the five branches leave the specified list and mark the realized profit of a close as pending |
| LocalPositions.StoreNetsEachMarket | app/src/hooks/useLocalPositions.ts:94-130 | after any fills in any markets there is at most one entry per market, of positive size, holding that market's exact netting |
| LocalPositions.RecordedIsNetted | app/src/hooks/useLocalPositions.ts:102-130 | the list's branches are the signed, exact-average fold of one fill |
| LocalPositions.ClosesIffOpposed | app/src/hooks/useLocalPositions.ts:102-130 | a fill realizes only when the market is held on the other side |
| LocalPositions.RecordedStamps | app/src/hooks/useLocalPositions.ts:102-130 | opening and flipping stamp leverage and time, an add the leverage alone, a partial close neither |
| LocalPositions.OtherMarketsUntouched | app/src/hooks/useLocalPositions.ts:102-130 | a fill changes no other market's holding |
| LocalPositions.ClientIsExact | app/src/hooks/useLocalPositions.ts:88-130 | the browser's profit minus change in cost equals the spot cash of the fills exactly |
| LocalPositions.BrowserAgreesWithMatcher | app/src/hooks/useLocalPositions.ts:88-130 | after the same fills browser and matcher hold the same signed size, and at flat with constant funding their realized PnL differs by at most the adds' rounding |
| LocalPositions.PreviewAccumulates | app/src/hooks/useLocalPositions.ts:179-214 | closes without a gap of a window between them add up in the preview |
| LocalPositions.PreviewWindow | app/src/hooks/useLocalPositions.ts:179-214 | a preview younger than 45 seconds is added to, an older one dropped, and the window starts again |
| DepthGrouping.GroupLevels | crates/cerdic-tee-matcher/src/api.rs:411-430 | the merging loop computes the specified buckets with running cumulatives |
| DepthGrouping.BucketsRepresentLevels | crates/cerdic-tee-matcher/src/api.rs:411-430 | on either sorted side: bucket ticks strictly monotone, each bucket exactly the quantity of its range, no bucket empty and no level missing, cumulatives the running totals |
| DepthGrouping.GroupedRepresentsLevels | crates/cerdic-tee-matcher/src/api.rs:411-430 | a depth request gets its levels unchanged for widths up to one and such buckets from two on |
| DepthGrouping.GroupedTwice | crates/cerdic-tee-matcher/src/api.rs:411-430 | grouping by g and then by k times g is grouping by k times g, cumulatives included |
| DepthGrouping.GroupRawLevels | app/src/lib/priceScale.ts:78-94 | the browser's mirror yields the server's ticks and quantities |
| ChunkedBody.DecodeChunked | crates/cerdic-tee-matcher/src/attestation.rs:148-171 | the loop terminates and returns the data or the error of the recursive decoder |
| ChunkedBody.FindCrlf | crates/cerdic-tee-matcher/src/attestation.rs:174-176 | the first line break, or proof that there is none |
| ChunkedBody.AcceptedIffFramed | crates/cerdic-tee-matcher/src/attestation.rs:148-171 | a body decodes to some data if and only if it is framed chunks carrying that data, a zero line and anything after it |
| ChunkedBody.DecodedIff | crates/cerdic-tee-matcher/src/attestation.rs:148-171 | every answer, each error kind included, is given exactly for framed chunks up to the point that ends decoding: a zero line, no line break, bytes that are no text, a bad size, one whose sum with two does not fit, or too little data |
| ChunkedBody.SizeTextReads | crates/cerdic-tee-matcher/src/attestation.rs:156-160 | a size is read from digits in either case with any leading zeros, a plus sign, surrounding white space and an extension, and refused beyond a machine word |
| ChunkedBody.HexDigitIff | crates/cerdic-tee-matcher/src/attestation.rs:158 | the sixteen digits in order in either case and nothing else |
| ChunkedBody.ReadIffEncoded | crates/cerdic-tee-matcher/src/attestation.rs:153-154 | a line is text exactly when its bytes are the UTF-8 form of scalar values (section 3 of RFC 3629) |
| ChunkedBody.DecodeUndoesEncode | crates/cerdic-tee-matcher/src/attestation.rs:145-171 | decoding an encoding (section 7.1 of RFC 9112) with any extensions and trailer returns the concatenated chunks, line breaks in the data included |
| SigningStrings.SigningStringIsInjective | crates/cerdic-tee-matcher/src/api.rs:117-254 | a signed string determines its payload, kind included, even when the market name contains bars |
| SigningStrings.ClientStringIsServerString | app/src/hooks/useSubmitOrder.ts:73-83 | the nine parts the browser joins, with its own tags, are the string the server rebuilds from the order it receives |
| SigningStrings.ClientStringIsInjective | app/src/hooks/useSubmitOrder.ts:46-83 | two orders the browser signs alike are the same order with the same nonce |
| SigningStrings.TifTagInjective | app/src/hooks/useSubmitOrder.ts:46-49 | the time-in-force tag determines the time in force |
| SigningStrings.SigningStringIs | crates/cerdic-tee-matcher/src/api.rs:117-254 | each kind's string written out part by part in its order |
| SigningStrings.NoLeadingZero | crates/cerdic-tee-matcher/src/api.rs:126-137 | numbers carry no leading zero |
| Nonces.AcceptedNoncesIncrease | crates/cerdic-tee-matcher/src/api.rs:1388-1396 | over any run across all endpoints, one signer's accepted nonces strictly increase |
| Nonces.NonceSource.Next | app/src/hooks/useSubmitOrder.ts:58-63 | the clock, or one above the last nonce when the clock has not passed it |
| Nonces.NextNonceReachesClock | app/src/hooks/useSubmitOrder.ts:58-63 | the clock itself once it has passed the last nonce, one above that nonce until then |
| Nonces.HandedIncrease | app/src/hooks/useSubmitOrder.ts:58-63 | handed-out nonces strictly increase under any clock |
| Nonces.BrowserIsNeverRejected | crates/cerdic-tee-matcher/src/api.rs:1946-1954 | nonces delivered in order to a server that saw smaller ones are all accepted, whatever other signers send in between |
| Nonces.MatchPreimageIsInjective | crates/cerdic-tee-matcher/src/api.rs:3480-3496 | the hashed bytes determine all six components although the market name has no fixed width |
| Nonces.BigEndianIsBigEndian | crates/cerdic-tee-matcher/src/api.rs:3480-3496 | numbers are hashed most significant byte first, without loss |
| Nonces.MatchIdsNeverRepeat | crates/cerdic-tee-matcher/src/api.rs:3480-3496 | over any run two fills of accepted orders share a preimage only if they are the same fill |
| FloodFill.FloodFillFromCenter | app/scripts/build-landing-mockup.py:100-134 | terminates, and the mask is exactly the pixels a walk of 4-neighbour steps through matching pixels reaches from the centre, for any image and rule |
| FloodFill.EmptyQueueIsComponent | app/scripts/build-landing-mockup.py:113-134 | a consistent state with an empty queue has the component as its mask |
| FloodFill.MatchesIff | app/scripts/build-landing-mockup.py:121-130 | with a tolerance a pixel matches by an alpha above 200 and no colour further than it from the centre's, without one by an alpha below the bound |

## Left out

- Overflow of `i128`, `u128` and `I256` sums, and positions of 2^64 units or more (where a size is cut to 64 bits): integers are unbounded there; the saturating dollar conversions are modelled.
- Order book matching, backstop quoting, fees, trader volume, oracle, trade tape, proofs and attestations: a sweep is an arbitrary list of fills and the fee an arbitrary natural number per fill.
- Sells and backstop fills are not bounded by the order's tick; the gate theorems therefore take the cap as a parameter.
- GateAcceptsIff: the deposit and the other markets' locked collateral are as the gate read them; withdrawals and other orders in between are not modelled.
- The funding index is an arbitrary integer per fill; its computation is floating point.
- Encryption, sealing and signature recovery are the identity, and match identifiers are compared by what is hashed.
- RunAgrees: the settlements of one sweep are confirmed or lost per key, confirmations in order; a revert found by gas estimation is a failed broadcast, one at inclusion a revert. A liquidated leg is a trade without a fee there, by LegIsReducingFill.
- LiveInterleavingsAreSerial: eviction after a failed taker sweep takes no lock and is not a task, and the unlocked discovery that picks a liquidation's markets happens before the run; a liquidation whose broadcast fails writes and forgets under its locks in one step per key; locks of a task are released one by one.
- Rejections after the nonce was recorded, such as an insane tick, are not modelled; the nonce stays used there as well.
- LocalPositions: prices and profits are real numbers and sizes whole units, where the browser has floating point; storage failures and malformed stored values are not modelled.
- LiquidationRestoresHealth: legs of two to nine units are excluded, since the statement is false for each of those sizes.
- DecodedIff: where adding two to a chunk size does not fit a machine word the program stops one way or another; the model answers `Overflows`.
- FloodFillFromCenter: an image without pixels, for which the script raises an error, and a call with neither tolerance nor alpha bound are excluded by the types.
- EveryFoldIsPaid: liquidations queue nothing, in the program as in the model; their deltas move sealed collateral only.
- The liquidator's reward, the margin error paths and the grouping of results by contract.
- HTTP and WebSocket handlers, persistence, user interface, the contracts other than the leg's update, and the simulations.
