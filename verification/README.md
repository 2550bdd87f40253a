# rome-dex: proved properties

A Dafny model of the arithmetic and of the on-chain state machines of rome-dex, with proofs of
what its design relies on.

- **Concentrated-liquidity pool.** Tick prices (`TickMath`) and how closely they follow sqrt(1.0001)
  from tick to tick (`TickLaw`), token amounts and the swap step
  (`SwapMath`), ticks, positions and windows of tick arrays (`Ticks`), the multi-tick swap as a
  function on values (`SwapWalk`), liquidity changes (`Liquidity`), and the imperative engine over
  buffers and records that is proved against both (`Engine`). `Book` is the program as a state
  machine over pool, ticks, positions and vaults; `Market` is its imperative form, handlers and
  account copies included, proved to do exactly what `Book` says.
- **Properties of the pool.** Sums over positions (`Ledger`), one loop iteration (`Coherence`),
  wrapped fee growth (`FeeGrowth`), exact principal (`Principal`), fee and principal accounts
  (`Solvency`), whole swaps (`Runs`), liquidity changes (`Changes`), instructions (`Invariant`),
  when they succeed and what they leave (`Accounts`, `Deciding`),
  runs from pool creation (`Reachable`), the stalled step (`Stall`, `Fragile`, `Shortfall`), the
  worth of liquidity (`Density`) and that everyone can leave (`Leaving`), undoing an increase (`Undo`) and selling
  back (`SwapBack`).
- **Clients.** The off-chain quote walk and its agreement with the engine (`Quote`), what it
  decides about a swap instruction (`Forecast`), token budgets (`Budget`), constant-product quotes (`ConstantProduct`).
- **Farm.** The floored reward accumulator (`Farm`), what it pays each staker (`FairShare`) and its
  handlers (`FarmProgram`).
- **Orders.** Limit and DCA orders over an escrow (`Orders`) and their handlers (`OrderProgram`).

`dafny verify dfyconfig.toml` checks everything. The amounts of a range are compared with exact
real values; fixed-width integers are subset types of `int` with every checked operation and every
wrap-around written out. A few definitions with heavy bodies (`PriceAt`, `Step`, `Modify`, `Times`)
stand behind a guard so that their bodies enter only the proofs that name them; a lemma named after
each gives the equality with its body.

## Conventions

A position is an account slot: a closed account stays in the sequence with `open` false, and an
address that is opened again gets a new slot. Accounting that the program does not store - fees ever
charged and paid, growth earned since a checkpoint as an unbounded number, rewards emitted,
executions of an order - is kept in values beside the state (`Purse`, `Tally`, `History`), never in
it, and lemmas say what it records.

## The stalled step

The guard at clmm/src/engine.rs:198 compares the price with the opening price of the whole swap, not
with the price at the start of the iteration. A falling swap that has crossed an initialized tick
below its opening price, with too little input left to move the price again, reaches the next line
with the price exactly on that tick and records the tick although its net is already applied. The
pool then reports too little liquidity in range, and fee growth is attributed to the wrong side.

`Fragile.CoherenceCanFail` is a run of seven instructions from pool creation, the last a swap of 3
units, that does it. In that pool the two owners cannot both take their liquidity out, one after the
other (`Shortfall.LockedOut`), and after one more swap a vault holds less than the principal it owes
(`Shortfall.VaultFallsShort`).

`Coherence.StallIsRaise` gives the guard of the failing branch on the state before the iteration,
both ways: the price stands on the price of the tick above the recorded one, that is not the opening
price, liquidity is in range, and the offer less its fee does not pay for the next lower price.
`Coherence.IterateLiquidity`, `Runs.RunLiquidity` and `Invariant.SwapLiquidityOk` say what it
decides, both ways: in-range liquidity survives if and only if the guard holds before no iteration on
a tick with a nonzero net. Results about fees and vaults assume `Calm`: the guard holds before no
iteration on a tick in use. `Stall.CalmShows` reads that off the pool after the swap as well: a
falling swap was calm if and only if it did not leave the price resting on the tick it records while
that tick is in use. Rising swaps are always calm. Gross, net, price and tick stay coherent without
any hypothesis (`Reachable.ReachableIsSane`).

## Where code and documentation differ

- orders/README.md:12-16 describes a gross-up of the swap minimum; the code takes the keeper fee out
  of the input (orders/src/state.rs:229-241), and the model follows the code.
- farm/src/state.rs:12-16 describes the cap on the reward rate as keeping `unstake` and `claim` from
  being refused for ever. The cap keeps the accumulator within 128 bits for 10^17 seconds
  (`Farm.CapPreventsOverflow`), but both instructions also multiply it by the stake
  (farm/src/state.rs:186-205), and that product can overflow within two years of a capped farm
  (`Farm.CapIsNotEnough`). `Farm.CappedLeaving` is the exact condition.
- The budget conversion (app/lib/clmm-quote.ts:335-338) is described as the largest liquidity a
  budget supports; `Budget.BudgetIsMaximal` gives the exact exception at a price standing on a bound.
- An exact-out quote fed into exact-in can buy less than was asked when a fee is lifted to one unit;
  `ConstantProduct.ExactOutThenIn` is the exact condition.

## Model

| member | source | states |
|---|---|---|
| `TickMath.PositiveStep` | clmm/src/curve/tick_math.rs:25-68 | neighbouring prices on the positive side differ by at least one part in 2^16: adding one to the tick clears a run of table bits and sets the next, and no such carry inverts the order, flooring included |
| `TickMath.InverseDecreases` | clmm/src/curve/tick_math.rs:69-73 | a gap of one part in 2^16 survives the flooring inversion below tick zero |
| `TickMath.PriceMono` | clmm/src/curve/tick_math.rs:56-75 | the tick price is strictly increasing over the whole band |
| `TickMath.BandEnds` | clmm/src/curve/tick_math.rs:16-23 | the prices at the two ends of the band are the published minimum and maximum, at tick zero 2^64 |
| `TickLaw.RatioBase` | clmm/src/curve/tick_math.rs:25-35 | the first entry of the table is sqrt(1.0001) in Q64.64, rounded down |
| `TickLaw.RatioSquares` | clmm/src/curve/tick_math.rs:25-35 | every other entry is the square of the one before it, rounded down |
| `TickLaw.PriceRatio` | clmm/src/curve/tick_math.rs:56-75 | from every tick to the next the computed price is multiplied by that first entry, within 43 parts in 2^64, and below zero also within the floors of the inversion |
| `TickLaw.OneTickIsOneBasisPoint` | clmm/src/curve/tick_math.rs:56-75 | 10000 times the square of the next tick's price is 10001 times the square of this one's, to one part in 2^57 and, below zero, one unit of price |
| `TickMath.GetSqrtPriceAtTick` | clmm/src/curve/tick_math.rs:56-75 | the loop over the table bits computes the price of every tick of the band, never overflows, and refuses every other tick |
| `TickMath.GetTickAtSqrtPrice` | clmm/src/curve/tick_math.rs:82-97 | the binary search finds the floor tick and refuses exactly the prices outside the band |
| `TickMath.TickAtIsFloorInverse` | clmm/src/curve/tick_math.rs:77-97 | a tick is at most the floor tick of a price exactly when its price is at most that price |
| `TickMath.TickRoundTrip` | app/lib/clmm-quote.ts:25-46 | tick to price to tick is the identity over the band |
| `SwapMath.Amount0Rounds` | clmm/src/curve/liquidity_math.rs:15-38 | the token 0 delta lies within one unit of the exact real value of the move, above it when rounding up and below it when rounding down |
| `SwapMath.Amount1Rounds` | clmm/src/curve/liquidity_math.rs:40-60 | the same for token 1 |
| `SwapMath.RoundingGap` | clmm/src/curve/liquidity_math.rs:15-60 | rounding up costs at most one unit more than rounding down, for any bounds in any order |
| `SwapMath.FallStays` | clmm/src/curve/swap_math.rs:16-34 | short of the target, token 0 in leaves the price above the target and the rounded-up charge for the move within the amount |
| `SwapMath.RiseStays` | clmm/src/curve/swap_math.rs:36-50 | short of the target, token 1 in leaves the price below the target and the charge within the amount |
| `SwapMath.ChargeFits` | clmm/src/curve/swap_math.rs:119-126 | a reached target's input plus its rounded-up pro-rata fee fits the amount offered |
| `SwapMath.RawStepFacts` | clmm/src/curve/swap_math.rs:67-129 | a step takes at most what was offered and all of it when the target is not reached, stops between price and target, charges the exact input rounded up and pays the exact output rounded down, each less than one unit off |
| `SwapMath.StepGoesFurthest` | clmm/src/curve/swap_math.rs:83-98 | a step goes as far as the offer less its fee pays for: at every price strictly further toward the target, offer * (10^6 - fee rate) is less than 10^6 times what the move costs |
| `SwapMath.FallStalls` | clmm/src/curve/swap_math.rs:83-98 | a falling step leaves the price where it is if and only if the offer less its fee does not pay for the next lower price |
| `SwapMath.FeeAtRate` | clmm/src/curve/swap_math.rs:119-126 | the fee is at least the pool's rate of everything the trader pays; in a step that reaches its target it is the rate on top of the input, less than one unit more; and the input leaves room for the rate of the whole offer |
| `SwapMath.StepIsFair` | app/lib/clmm-quote.ts:83-106 | every step that passes the 128-bit checks has those properties |
| `SwapMath.StepRoundTrip` | app/lib/clmm-quote.ts:69-106 | paying a step's output back in the other direction never takes the price past its start and never returns more than was paid, for all liquidity, prices, amounts and pairs of fee rates |
| `Ticks.TickSlot` | clmm/src/state.rs:428-439 | a slot is found exactly for the aligned ticks of the array's span, and it is that tick's slot |
| `Ticks.OwnSlot` | clmm/src/state.rs:413-439 | every aligned tick, negative ones included, has a slot in the array at its own start index |
| `Ticks.InSpan` | clmm/src/state.rs:413-424 | an aligned array holds a tick exactly when the tick's start index is the array's |
| `Ticks.ChainAligned` | clmm/src/engine.rs:90-108 | a validated window is aligned and holds the current tick |
| `Ticks.IndexInWindow` | clmm/src/engine.rs:217-226 | inside a validated window the array index is in range and names the array that holds the tick |
| `SwapWalk.TargetDown` | clmm/src/engine.rs:260-279 | walking left, everything between the target and the tick is read and empty, and the target is in the window |
| `SwapWalk.TargetUp` | clmm/src/engine.rs:280-306 | walking right likewise; an uninitialized target is the window ceiling, flagged exactly when it lies inside the tick band |
| `SwapWalk.IterateAdvances` | clmm/src/engine.rs:124-202 | the loop's measure, window ticks left, falls with every iteration that does not end the loop, for every input |
| `Engine.ReadInWindow` | clmm/src/engine.rs:264-272 | inside a validated window every tick lookup of the walk succeeds |
| `Engine.FindDown` | clmm/src/engine.rs:260-279 | the leftward scan finds the specified target; its final branch cannot be reached |
| `Engine.FindUp` | clmm/src/engine.rs:280-306 | the rightward scan finds the specified target |
| `Engine.FindTarget` | clmm/src/engine.rs:229-306 | both scans together are the specification's next target, errors included |
| `Engine.TickRecord.Update` | clmm/src/state.rs:292-330 | a bound's update in place: gross, net, seeding at first initialization, the flip, and every overflow |
| `Engine.TickRecord.Clear` | clmm/src/state.rs:332-338 | clearing zeroes the outside growth and nothing else |
| `Engine.TickRecord.Cross` | clmm/src/state.rs:340-347 | crossing flips both outside counters, returns net and changes nothing else |
| `Engine.Position.UpdateFees` | clmm/src/state.rs:252-273 | crediting in place: both tokens, the new checkpoint, and every overflow |
| `Engine.SetTick` | clmm/src/state.rs:447-458 | exactly one slot of the buffer changes, or none on an error |
| `Engine.WriteTick` | clmm/src/state.rs:447-458 | over several buffers, exactly one tick of the store changes |
| `Engine.Charge` | clmm/src/engine.rs:135-156 | the charging part of an iteration: totals, remaining input, wrapped growth, price |
| `Engine.CrossInPlace` | clmm/src/engine.rs:168-187 | the crossing part: the flipped tick in its buffer and the liquidity after its net |
| `Engine.LandInPlace` | clmm/src/engine.rs:158-201 | where an iteration comes to rest: refusal at an unread ceiling, crossing, or the recomputed tick |
| `Engine.IterateInPlace` | clmm/src/engine.rs:124-202 | one loop body over locals and buffers is one specified iteration |
| `Engine.WalkTicks` | clmm/src/engine.rs:110-214 | the loop ends where the specified run ends, with the buffers holding its ticks, including the stop at 16 crossings |
| `Engine.Swap` | clmm/src/engine.rs:69-215 | the whole swap: each rejection, and otherwise result and buffers of the specified swap |
| `Engine.FindArray` | clmm/src/engine.rs:362-369 | the first supplied array with the wanted start, or the error when there is none |
| `Engine.UpdateBoundInPlace` | clmm/src/engine.rs:362-381 | one bound read, updated and written back in its own array |
| `Engine.ClearInPlace` | clmm/src/engine.rs:406-419 | a bound that died on this call is zeroed, any other is left |
| `Engine.AmountsForLiquidity` | clmm/src/engine.rs:308-341 | the amounts of a range at the pool's price, errors included |
| `Engine.SettleInPlace` | clmm/src/engine.rs:383-404 | fee snapshot and delta on the position and, in range, on the pool |
| `Engine.ModifyPosition` | clmm/src/engine.rs:343-431 | the whole change, in the order of `modify_position`, leaves pool, position and buffers as specified |
| `Ledger.ActiveStep` | clmm/src/state.rs:278-281 | going up through a tick changes the liquidity in range by exactly the tick's net |
| `Ledger.ActiveIsNets` | clmm/src/engine.rs:188-188 | the liquidity of the positions in range at a tick is the sum of the nets of all ticks up to it |
| `Coherence.FillFacts` | clmm/src/engine.rs:135-156 | the charging part loses nothing, stays on course, rounds for the pool both ways, and adds growth that promises at most the fee |
| `Coherence.FillFee` | clmm/src/engine.rs:135-156 | the charging part of an iteration moves the totals by a fee of that size, and stops short of its aim only where the offer less its fee pays for nothing further |
| `Coherence.GrowthIsWholeFee` | clmm/src/curve/fee_math.rs:13-20 | the growth added is the fee per unit of liquidity, less than one unit of growth short |
| `Coherence.IterateOnCourse` | clmm/src/engine.rs:124-202 | every iteration keeps input, fees and remainder in sum, moves the price only toward the limit and keeps it in its tick's interval |
| `Coherence.CrossKeeps` | clmm/src/engine.rs:168-187 | a crossing keeps every gross and net and moves the liquidity to the other side of the tick |
| `Coherence.StallIsRaise` | clmm/src/engine.rs:198-201 | the exact guard of the stalled step on the state before the iteration: a falling iteration moves the tick up if and only if the price stands on the tick above, away from the opening price, with liquidity in range and too little input to pay for one unit of price |
| `Coherence.IterateLiquidity` | clmm/src/engine.rs:158-201 | one iteration keeps in-range liquidity equal to the positions' if and only if it does not stall, in the sense of that guard, on a tick with a nonzero net; gross and net agree always |
| `Coherence.IterateAdvance` | clmm/src/engine.rs:124-202 | a stall-free iteration crosses or leaves every live bound consistently and divides no live range |
| `FeeGrowth.InsideIsDifference` | clmm/src/curve/fee_math.rs:22-44 | the wrapped inside growth is, modulo 2^128, the difference of the growth below the two bounds |
| `FeeGrowth.InsideMoves` | clmm/src/engine.rs:150-187 | an iteration moves a live range's inside growth by its increment if the tick is inside the range, and by nothing otherwise |
| `Principal.TotalMoves` | clmm/src/engine.rs:135-156 | a price move that divides no live range changes the positions' exact principal by in-range liquidity times the move, in both tokens |
| `Principal.SwapMovesTotals` | clmm/src/engine.rs:124-202 | a stall-free iteration moves the exact principal by exactly its step's real-valued amounts |
| `Liquidity.AmountsAreRounded` | clmm/src/engine.rs:308-341 | the amounts of a range are its exact principal at the price, rounded up for pay-in and down for pay-out, in all three range cases |
| `Liquidity.ModifyTicks` | clmm/src/engine.rs:349-419 | a change moves gross of both bounds, net with opposite signs, position and active pool liquidity by the delta, keeps the outside growth of bounds that stay in use, and touches no other tick |
| `Liquidity.BoundsSeededAndCleared` | clmm/src/state.rs:292-338 | a bound first used starts with the growth so far if it lies at or below the current tick; a bound no longer used ends clean |
| `Liquidity.ModifyKeepsTicks` | clmm/src/engine.rs:349-404 | after a change every tick's gross and net, and the pool's liquidity, again agree with the positions |
| `Runs.RunConserves` | clmm/src/engine.rs:110-214 | over any whole swap: money adds up, the price ends between start and limit inside its tick's interval, at most 16 ticks are crossed |
| `Runs.RunKeepsTicks` | clmm/src/engine.rs:168-187 | every tick keeps its gross and net through any swap |
| `Runs.RunStaysInWindow` | clmm/src/engine.rs:168-187 | a swap writes only ticks of its window |
| `Runs.StallEndsRun` | clmm/src/engine.rs:198-201 | a stalled iteration has used up the input and is the last |
| `Runs.RunCrosses` | clmm/src/engine.rs:168-204 | every crossing a run counts is that of a different initialized tick on the way between its two prices |
| `Runs.RunLiquidity` | clmm/src/engine.rs:124-202 | a whole swap keeps in-range liquidity coherent if and only if the guard holds before none of its iterations, on a tick with a nonzero net |
| `Runs.RisingIsStallFree` | clmm/src/engine.rs:188-201 | rising swaps never stall |
| `Runs.RunToken` | clmm/src/engine.rs:110-214 | a stall-free run keeps fee account and principal cover of both tokens |
| `Runs.RunInside` | clmm/src/engine.rs:150-187 | over a whole swap the inside growth of a live range changes, modulo 2^128, by exactly the increments added while the tick was inside |
| `Runs.PurseRecords` | clmm/src/engine.rs:150-154 | the accounting kept beside a swap records the fees it charged and each range's increments, and nothing else |
| `Changes.ModifyCheckpoint` | clmm/src/engine.rs:383-399 | the checkpoint taken is the inside growth the position sees before and after the change, and the credit is the floored wrapped difference |
| `Changes.ModifyCredit` | clmm/src/state.rs:252-273 | a credit never exceeds what the position's liquidity earned, wrap-around or not |
| `Changes.CreditIsExact` | clmm/src/curve/fee_math.rs:46-55 | a credit is exactly liquidity times the growth earned since the checkpoint, modulo 2^128, rounded down to whole units |
| `Changes.ModifyEarns` | clmm/src/engine.rs:349-419 | a change moves nobody else's inside growth, whether a bound flips, is seeded or is cleared |
| `Changes.ModifyToken` | clmm/src/engine.rs:343-431 | a change keeps one token's fee account and principal cover |
| `Changes.RemovalIsCovered` | clmm/src/processor.rs:388-444 | the vault holds what a removal pays out |
| `Stall.StallShows` | clmm/src/engine.rs:198-201 | a falling run stalled exactly when it ends with the price resting on the tick it records, that tick being in use |
| `Stall.CalmShows` | clmm/src/processor.rs:472-571 | the hypothesis of the fee and solvency results can be read off the pool after the swap |
| `Fragile.StallBreaksLiquidity` | clmm/src/engine.rs:198-201 | a coherent pool and a swap of 3 units that succeeds and leaves half of the liquidity in range |
| `Fragile.CoherenceCanFail` | clmm/src/engine.rs:198-201 | seven instructions from pool creation lead to a pool whose liquidity is half of what is in range: coherence without the hypothesis is false of the program |
| `Shortfall.LockedOut` | clmm/src/engine.rs:383-404 | in that pool the two owners' liquidity cannot both be taken out, in either order, whatever arrays and floors they pass |
| `Shortfall.VaultFallsShort` | clmm/src/engine.rs:124-202 | one rising swap later a vault holds less than the exact principal of the positions: solvency without the hypothesis is false of the program |
| `Invariant.InitTickArrayIsSane` | clmm/src/processor.rs:178-230 | creating an array keeps the books, old ticks and new ones |
| `Invariant.OpenPositionIsSane` | clmm/src/processor.rs:232-299 | opening a position keeps the books |
| `Invariant.ModifyIsSane` | clmm/src/processor.rs:303-406 | increase and decrease keep the books |
| `Invariant.SwapIsSane` | clmm/src/processor.rs:472-571 | any successful swap keeps gross, net, price and tick coherent, clamping at the band edges included |
| `Invariant.SwapLiquidityOk` | clmm/src/processor.rs:472-571 | a successful swap leaves the pool's liquidity coherent if and only if its run is clean |
| `Invariant.SwapBacked` | clmm/src/processor.rs:472-571 | a calm swap keeps liquidity coherent and both tokens' accounts |
| `Invariant.CollectBacked` | clmm/src/processor.rs:410-447 | collecting pays out of the fee account and leaves principal and growth alone |
| `Invariant.ModifyBacked` | clmm/src/processor.rs:303-406 | increase and decrease keep both tokens' accounts through the vault transfers |
| `Accounts.PoolAsAsked` | clmm/src/processor.rs:102-176 | a pool is created exactly for the three pairs of fee and spacing and a price of the band, with what was asked for, the floor tick of its price and nothing else |
| `Accounts.ArrayAsAsked` | clmm/src/processor.rs:178-230 | an array is created exactly when its start is a multiple of 88 spacings, its span meets the band and it is new; its ticks are empty and no other tick changes |
| `Accounts.PositionAsAsked` | clmm/src/processor.rs:232-299 | a position is opened exactly for two ordered, aligned ticks of the band, with those bounds and nothing in it |
| `Accounts.CollectsAndCloses` | clmm/src/processor.rs:410-470 | an open position can always be collected, all of what is owed; it is closed exactly when nothing is left in it and nothing is owed |
| `Accounts.WindowAsAsked` | clmm/src/engine.rs:90-108 | the windows a swap accepts are exactly one to three created arrays, the first one the current tick's and each next one a span further in the direction of the swap |
| `Reachable.StepIsSane` | clmm/src/processor.rs:60-100 | every instruction, failed ones included, keeps gross, net, price and tick coherent, with no hypothesis |
| `Reachable.ReachableIsSane` | clmm/src/processor.rs:60-100 | so does every run |
| `Reachable.StepKeepsInv` | clmm/src/processor.rs:60-100 | every calm instruction keeps liquidity, fees and solvency |
| `Reachable.ReachableInv` | clmm/src/processor.rs:60-100 | so does every calm run |
| `Reachable.FromInitPool` | clmm/src/processor.rs:102-176 | a fresh pool satisfies all of it, so every run from pool creation does |
| `Reachable.CallerIsProtected` | clmm/src/processor.rs:303-571 | an increase takes at most its caps, a decrease pays at least its floors, a collection exactly what was owed; a swap takes at most its input, pays at least its floor, and never takes the price past the limit its caller passed, nor past the end of the band |
| `Reachable.LimitIsChecked` | clmm/src/processor.rs:751-759 | a nonzero limit that is not strictly on the swap's side of the price and inside the band makes the swap fail; zero stands for the end of the band |
| `Reachable.SwapStops` | clmm/src/engine.rs:110-204 | a swap leaves input unspent only at the limit its caller passed, at the end of the band when there is none, or after sixteen initialized ticks on its way |
| `Reachable.SwapPassesFew` | clmm/src/engine.rs:188-197 | a swap passes at most sixteen initialized ticks |
| `Reachable.IncreaseCharges` | clmm/src/processor.rs:371-392 | what an increase moves into the vaults is the exact principal of the liquidity added, rounded up |
| `Reachable.DecreasePays` | clmm/src/processor.rs:371-404 | what a decrease moves out of the vaults is the exact principal of the liquidity removed, rounded down |
| `Reachable.Solvent` | clmm/src/processor.rs:303-571 | each vault holds the exact principal of all positions at the current price plus every fee credited plus every fee earned and not yet credited |
| `Reachable.FeesConserved` | clmm/src/state.rs:252-273 | fees paid out plus fees credited never exceed the fees swaps were charged, per token |
| `Reachable.LiquidityIsCoherent` | clmm/src/engine.rs:349-404 | pool liquidity is the liquidity of the positions in range and the sum of the nets up to the current tick |
| `Reachable.GrowthSinceCheckpoint` | clmm/src/state.rs:375-402 | between checkpoints of a live position the wrapped inside growth changes by exactly the increments added while in range, modulo 2^128, whatever lies between |
| `Reachable.NeverShort` | clmm/src/processor.rs:388-571 | no instruction of a calm run takes more out of a vault than it holds |
| `Reachable.SolventFromInitPool` | clmm/src/processor.rs:102-571 | over every calm run from pool creation: solvency, fee conservation, coherent liquidity, and no calm instruction that finds a vault short |
| `Density.UnitIsDense` | clmm/src/curve/tick_math.rs:16-75 | a unit of liquidity in any permitted range is worth at least 2^-62 of a token, at every price |
| `Leaving.LiquidityBounded` | clmm/src/curve/liquidity_math.rs:62-71 | 64-bit vaults keep the liquidity of all positions together below 2^127, so no liquidity sum is near its limit |
| `Leaving.EmptyingSucceeds` | clmm/src/engine.rs:349-431 | removing all of a position's liquidity passes every check of the engine |
| `Leaving.OneLeaves` | clmm/src/processor.rs:303-470 | decrease, collect and close succeed for any position, pay its owner in both tokens the rounded-down principal plus what was owed plus all fees earned since the checkpoint, and change nobody else's position or earnings |
| `Leaving.EveryoneLeaves` | clmm/src/processor.rs:303-470 | from every state of a calm run all owners can empty, collect and close, in any order; every instruction succeeds and together they receive the sum of what each of them is due, in both tokens |
| `Deciding.IncreaseDecides` | clmm/src/processor.rs:303-406 | in every coherent state, as long as the vaults hold 64-bit amounts, adding liquidity succeeds if and only if the position is open, the arrays of both bounds are supplied and the exact principal added is within the caps: no other check can fail |
| `Deciding.DecreaseDecides` | clmm/src/processor.rs:303-406 | removing liquidity succeeds if and only if the position is open and holds it, the arrays are supplied and the exact principal removed reaches the floors |
| `Undo.IncreaseThenDecrease` | clmm/src/engine.rs:349-431 | increasing by any delta and decreasing by it always succeeds, restores pool and both bounds, credits nothing whatever the global growth, and returns per token what was taken or one unit less |
| `SwapBack.RunMovesTotals` | clmm/src/engine.rs:124-202 | a calm run takes in at least, and pays out at most, the exact change of principal |
| `SwapBack.ThereAndBackAgain` | clmm/src/processor.rs:472-571 | selling at most a calm swap's output straight back, across any ticks, returns at most its input net of fee, and the price passes its start only where no position is in range |
| `Market.Market.InitPool` | clmm/src/processor.rs:102-176 | pool creation with its parameter checks |
| `Market.Market.InitTickArray` | clmm/src/processor.rs:178-230 | array creation: the start must be aligned, overlap the band and be new; all its slots are empty |
| `Market.Market.OpenPosition` | clmm/src/processor.rs:232-299 | opening with its bound checks |
| `Market.Market.ModifyLiquidity` | clmm/src/processor.rs:303-406 | the shared handler: engine on copies, slippage bounds, packing, both transfers |
| `Market.Market.Collect` | clmm/src/processor.rs:410-447 | the handler zeroes what is owed and pays it |
| `Market.Market.ClosePosition` | clmm/src/processor.rs:449-470 | only an emptied and collected position closes |
| `Market.Market.Swap` | clmm/src/processor.rs:472-571 | the handler: window checks, engine on copies, slippage floor, packing, both transfers |
| `Market.Market.Process` | clmm/src/processor.rs:60-100 | one instruction does exactly what the state machine says, and a failed one changes nothing |
| `Market.SwapMovesInWindow` | clmm/src/processor.rs:651-667 | only accounts of the supplied window change |
| `Quote.IterateAgrees` | app/lib/clmm-quote.ts:257-283 | one accepted engine iteration is one quote iteration on the shared part of the state |
| `Quote.QuoteAgrees` | app/lib/clmm-quote.ts:236-288 | whenever the engine accepts a swap the quote returns the same input, fee, output and price, and the same tick after clamping |
| `Quote.PartingOfWays` | app/lib/clmm-quote.ts:209-217 | an iteration the quote performs is refused by the engine exactly when the input to the target, a running total or the growth outgrows 128 bits, when the after-fee input reaches a ceiling that cannot be read past, or when the net of the crossed tick does not fit |
| `Forecast.NeverTooFar` | clmm/src/curve/swap_math.rs:77-83 | in a coherent pool with 64-bit vaults the input that would cross the current range fits 128 bits, in both directions and over the whole price band |
| `Forecast.IterateParts` | clmm/src/engine.rs:158-169 | there none of the 128-bit checks can fail, so the engine refuses an iteration of the quote if and only if it arrives at a ceiling that cannot be read past |
| `Forecast.RunParts` | clmm/src/engine.rs:124-202 | over a whole walk likewise, stalling or not, and what the walk pays out is held by the vault |
| `Forecast.QuoteDecides` | clmm/src/processor.rs:472-571 | in every coherent state with 64-bit vaults a swap instruction succeeds if and only if its arguments pass the checks made before the walk and the client's quote goes through, stays below the ceiling and pays the floor; and then both vaults, price, tick and liquidity are the quoted ones |
| `Quote.QuoteConserves` | app/lib/clmm-quote.ts:284-287 | input used, fee and reported remainder of a quote add up to the input |
| `Quote.QuoteReports` | app/lib/clmm-quote.ts:284-287 | what the client is told - input used, fee and input left - adds up to its offer, and a partial fill is reported exactly when something is left, which is at the limit or after sixteen crossings |
| `Quote.LookupView` | app/lib/clmm-quote.ts:190-195 | the array lookup reads the tick's gross and net, or fails when its array was not supplied |
| `Quote.QuoteTarget` | app/lib/clmm-quote.ts:197-218 | the client's scan finds the same target and does not tell whether it could be read |
| `Quote.SameWindow` | app/lib/clmm-quote.ts:200-211 | on a chained window the client's bounds are the engine's |
| `Quote.QuoteExactIn` | app/lib/clmm-quote.ts:236-288 | the client's loop: each rejection, and otherwise the outcome of the specified run |
| `Budget.GetLiquidityForAmounts` | app/lib/clmm-quote.ts:340-354 | errors of the tick conversion, and otherwise the budget formula at the two bound prices |
| `Budget.BudgetSuffices` | app/lib/clmm-quote.ts:320-354 | the liquidity asked for never needs more than the budget when converted back rounding up, in all three range cases, on any input |
| `Budget.AffordsExactly` | app/lib/clmm-quote.ts:320-354 | off the edge, the budget affords exactly the liquidities up to the one asked for |
| `Budget.BudgetIsMaximal` | app/lib/clmm-quote.ts:335-354 | it is the largest the budget affords if and only if the price does not stand exactly on a bound with the tick inside and money left for the other token |
| `Farm.AccrueShares` | farm/src/state.rs:120-141 | the accumulator's step, paid on all stakes, is rate times elapsed time up to less than one unit of the accumulator per staked token, and time moves to the later of the two |
| `Farm.RestakeKeeps` | farm/src/state.rs:184-205 | settling and re-basing the debt at a new amount moves a stake's exact claim by less than one unit either way |
| `Farm.StepKeeps` | farm/src/processor.rs:28-42 | every instruction keeps stake total, vault cover, debt bound and reward bound |
| `Farm.RunKeeps` | farm/src/processor.rs:28-42 | so does every run from the farm's creation, for any rates, times and stakers; the farm's rate and last update are those of the clock kept beside it |
| `Farm.RewardsBounded` | farm/src/state.rs:120-205 | rewards minted plus claimable never exceed rate times elapsed time while tokens were staked, on a clock and a rate kept apart from the farm's own, plus one unit per change of a stake |
| `FairShare.StepMoves` | farm/src/processor.rs:177-437 | staking takes exactly the tokens named, unstaking returns exactly them, claiming mints exactly the whole units of the claim and leaves the fraction, a rate change by the owner sets the rate and the time, and nothing else moves |
| `FairShare.EveryoneIsPaid` | farm/src/state.rs:120-205 | over any run from creation, what a staker was paid and can still claim is its exact pro-rata share of the emission, within a unit per change of its stake and 10^-12 of its stake per emission |
| `FairShare.PaidInFull` | farm/src/processor.rs:292-344 | so is what it was paid once it has claimed, less a fraction of one unit |
| `Farm.NeverSaturates` | farm/src/state.rs:186-196 | the saturating subtraction never saturates: gross is at least the debt in every reachable state |
| `Farm.EmergencyAlwaysWorks` | farm/src/processor.rs:370-437 | the emergency exit always succeeds, returns exactly the principal and touches nobody else |
| `Farm.OnlyWayOut` | farm/src/processor.rs:370-437 | also when the accumulator overflows and unstake and claim are refused |
| `Farm.UnstakeWorks` | farm/src/processor.rs:232-290 | any part of a stake, and no more than it, can be taken out, and its reward claimed, exactly when neither the accumulator nor the claim overflows |
| `Farm.CapPreventsOverflow` | farm/src/state.rs:12-16 | with the rate capped the accumulator overflows in no run within the farm's first 10^17 seconds; whether a stake can leave is the next row |
| `Farm.CappedLeaving` | farm/src/state.rs:12-16 | in such a run taking a whole stake out, or claiming, succeeds if and only if amount times accumulator stays below 2^128 and the pending reward fits 64 bits: the cap does not keep either from being refused |
| `Farm.LockedForGood` | farm/src/state.rs:186-196 | once that product has overflowed both are refused at every later time, whatever else happens |
| `Farm.CapIsNotEnough` | farm/src/processor.rs:232-344 | four instructions from the farm's creation, at the capped rate and within two years, after which accruing succeeds and a staker's unstake and claim are both refused; the emergency exit works |
| `FarmProgram.FarmRecord.Accrue` | farm/src/state.rs:120-141 | accruing in place, idempotent at or before the last update |
| `FarmProgram.UserStake.SetDebt` | farm/src/state.rs:198-205 | the debt snapshot in place |
| `FarmProgram.FarmProgram.Init` | farm/src/processor.rs:44-122 | farm creation, with the cap on the rate |
| `FarmProgram.FarmProgram.Stake` | farm/src/processor.rs:177-230 | the handler: accrue, settle, pull tokens, new amounts, new debt |
| `FarmProgram.FarmProgram.Unstake` | farm/src/processor.rs:232-290 | the handler and its refusals |
| `FarmProgram.FarmProgram.Claim` | farm/src/processor.rs:292-344 | the handler mints the pending reward and resets it |
| `FarmProgram.FarmProgram.SetRewardPerSecond` | farm/src/processor.rs:346-369 | owner only, capped, and accrued at the old rate first: the state machine's step, which FairShare.StepMoves and Farm.StepKeeps pin to the clock |
| `FarmProgram.FarmProgram.EmergencyUnstake` | farm/src/processor.rs:380-437 | the handler, free of reward arithmetic |
| `FarmProgram.FarmProgram.Process` | farm/src/processor.rs:28-42 | one instruction does exactly what the state machine says, and a failed one changes nothing |
| `Orders.ScheduleAdvances` | orders/src/state.rs:190-227 | one more tranche: whole ones accumulate, the last completes count and floors exactly |
| `Orders.FeeFits` | orders/src/state.rs:229-241 | fee and swapped remainder make the tranche, the fee rounded down |
| `Orders.PlacesAsAsked` | orders/src/processor.rs:71-211 | an order is placed exactly when its parameters are in range, with the terms asked for, everything still to do and the whole input in escrow |
| `Orders.StepKeeps` | orders/src/processor.rs:36-68 | every instruction keeps schedule, payments, spacing and the escrow's account |
| `Orders.RunKeeps` | orders/src/processor.rs:71-211 | so does every run from placement, whatever the exchange does within its contract |
| `Orders.EscrowCovers` | orders/src/processor.rs:275-297 | the escrow of a live order covers what remains |
| `Orders.ExecutesExactly` | orders/src/processor.rs:230-343 | an execution succeeds exactly when the order is open, unexpired and due and the exchange takes at most its input and delivers the floor |
| `Orders.FilledOrder` | orders/src/state.rs:190-241 | a filled order took exactly ceil(total/tranche) executions, its floors sum to exactly ceil(min_out*total/tranche) and were delivered, keeper fees are at most floor(total*bps/10000) |
| `Orders.IntervalsAddUp` | orders/src/state.rs:184-188 | executions are at least an interval apart, saturation included |
| `Orders.NothingStranded` | orders/src/processor.rs:505-538 | a closed order has returned everything not spent on fills |
| `Orders.AlwaysCloses` | orders/src/processor.rs:345-538 | an order with something left is cancelled by its owner and nobody else, and cranked by anyone from its expiry on and not before; one with nothing left is closed by anyone; each empties the escrow to the owner, and a closed order has no way out |
| `Orders.FromPlacement` | orders/src/processor.rs:71-591 | over any run from placement, with the terms as placed: the escrow of a live order covers what remains; every execution takes at most a tranche, pays the floored fee, delivers its share of the floor, comes before the expiry and an interval after the one before; a filled order has the count, floors and fees above; a closed one has returned everything not spent |
| `OrderProgram.Order.Debit` | orders/src/state.rs:213-227 | the debit in place, filled exactly at zero |
| `OrderProgram.OrderProgram.PlaceOrder` | orders/src/processor.rs:71-211 | placement with every parameter check |
| `OrderProgram.OrderProgram.Execute` | orders/src/processor.rs:213-343 | the handler debits before any token moves, pays the fee, swaps the rest |
| `OrderProgram.OrderProgram.SwapThrough` | orders/src/processor.rs:299-341 | the exchange takes input and delivers at least the floor, or the instruction fails |
| `OrderProgram.OrderProgram.RefundAndClose` | orders/src/processor.rs:505-591 | the whole escrow goes back and both accounts close |
| `OrderProgram.OrderProgram.Process` | orders/src/processor.rs:36-68 | one instruction does exactly what the state machine says, and a failed one changes nothing |
| `ConstantProduct.ExactInKeepsProduct` | app/lib/quote.ts:58-78 | with a positive new source reserve an output keeps the product from shrinking exactly when it is at most the quoted one |
| `ConstantProduct.PoolInIsLeast` | app/lib/quote.ts:91-95 | an input pays for the output exactly when it is at least the pool-side input of the quote |
| `ConstantProduct.ExactInIsBest` | app/lib/quote.ts:58-78 | both fees of an exact-in quote are their own rates rounded down, at least one unit, and its output is the largest that keeps the product with what is left of the input |
| `ConstantProduct.GrossUpIsLeast` | app/lib/quote.ts:20-46 | grossing up yields the least amount that leaves the wanted one after both rates |
| `ConstantProduct.ExactOutIsLeast` | app/lib/quote.ts:80-101 | the input of an exact-out quote is the least gross-up of the least input that pays for the output; there is none exactly when the pool does not hold more than the output |
| `ConstantProduct.GrossUpCovers` | app/lib/quote.ts:20-38 | grossing up leaves room for both floored fees |
| `ConstantProduct.ExactOutThenIn` | app/lib/quote.ts:58-101 | feeding the exact-out input into exact-in yields at least the output if and only if the fees lifted to one unit fit in the rounding room |
| `ConstantProduct.NoBumpRoundTrip` | app/lib/quote.ts:58-101 | so it does whenever no fee is lifted |
| `ConstantProduct.BumpBreaksRoundTrip` | app/lib/quote.ts:14-18 | one unit out of a pool of 1000 and 1000 is quoted an input that buys nothing |
| `ConstantProduct.BestTier` | app/lib/quote.ts:142-171 | the first tier with the greatest output or the least input, none only when no tier quotes |

## Left out

- StartIndex: does not model the clamp of clmm/src/state.rs:420-424 to 32 bits, which only ticks far outside the band reach; such a start fails validation either way.
- Reachable.ReachableInv: stated for calm runs, because the stalled step above makes in-range liquidity wrong without that; what follows from it (Reachable.Solvent, Reachable.FeesConserved, Leaving.EveryoneLeaves) inherits the hypothesis.
- Engine.Swap: says nothing about the buffers after an error, because the caller discards them; `Market.Market.Process` says that a failed instruction changes nothing.
- Engine.ModifyPosition: likewise for records and buffers.
- Quote.QuoteAgrees: one direction only, on all inputs; the other direction is `Forecast.QuoteDecides`, for coherent pools with 64-bit vaults, and `Quote.PartingOfWays` elsewhere.
- Byte packing, instruction decoding and account headers: ticks are records in an array of 88 slots, and an account is the record it decodes to.
- Addresses, signers and owners: program-derived addresses, token-program and ownership checks are preconditions of a step or a flag of it (`byOwner`), and mints, rent and bump seeds do not appear.
- The user's side of transfers: a user account that cannot pay makes the instruction fail as a whole, which leaves the state unchanged, so only vaults, escrow and minted rewards are tracked.
- Caps on token supply: a vault is an unbounded natural number; the result that everyone can leave assumes 64-bit balances.
- Timestamps before 1970: times are non-negative 63-bit numbers.
- Orders written by earlier versions of the program with a stored cancelled or expired status: the present handlers close such accounts instead of storing the status.
- The DEX that `orders` calls: its processor is not part of this model; a swap takes at most what it is offered and delivers at least its floor, or fails.
- Floating-point helpers (spot prices, price impact, price to tick and back for display) and the `price` fields of quotes.
- User interface, wallets, RPC, gas, indexer and oracle code.
- The on-chain constant-product curve and its constraints (program/src), which the modelled quotes mirror.
