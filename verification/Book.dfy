/** The program as a state machine: every instruction as a checked step over the pool, its
    tick arrays, the position accounts and the two vaults (clmm/src/processor.rs). A failed
    step changes nothing. `Market` is the imperative form. */
module Book {
  import opened Numbers
  import opened TickMath
  import opened Ticks
  import opened SwapWalk
  import opened Liquidity

  /** `ticks` holds every aligned tick of the created `arrays`; a position account keeps its
      index for ever, and a closed one is not `open`. */
  datatype Book = Book(pool: PoolData, ticks: map<int, Tick>, arrays: set<int>, positions: seq<PositionData>,
        vault0: nat, vault1: nat)

  datatype Op =
    | InitTickArray(start: int)
    | OpenPosition(lower: int, upper: int)
    | IncreaseLiquidity(i: nat, liquidity: u128, max0: u64, max1: u64, starts: seq<int>)
    | DecreaseLiquidity(i: nat, liquidity: u128, min0: u64, min1: u64, starts: seq<int>)
    | Collect(i: nat)
    | ClosePosition(i: nat)
    | Swap(down: bool, amountIn: u64, minOut: u64, limit: u128, starts: seq<int>)
    | Donate(zero: bool, amount: u64)

  function Vault(b: Book, zero: bool): nat {
    if zero then b.vault0 else b.vault1
  }

  // ---- creating accounts ----

  function CheckPoolParams(feePips: nat, spacing: nat, price: u128): Result<()> {
    if !IsTier(feePips, spacing) then Err(InvalidParams)
    else if !(MIN_SQRT_PRICE <= price <= MAX_SQRT_PRICE) then Err(SqrtPriceOutOfBounds)
    else Ok(())
  }

  ghost function ApplyInitPool(feePips: nat, spacing: nat, price: u128): Result<Book> {
    var _ :- CheckPoolParams(feePips, spacing, price);
    var tick :- TickAt(price);
    Ok(Book(PoolData(feePips, spacing, tick, price, 0, 0, 0), map[], {}, [], 0, 0))
  }

  function EmptyTicks(start: int, spacing: pos): map<int, Tick> {
    map t | start <= t < start + Span(spacing) && t % spacing == 0 :: EMPTY_TICK
  }

  function ApplyInitTickArray(b: Book, start: int): Result<Book> {
    var spacing := b.pool.spacing;
    if StartIndex(start, spacing) != start || start > MAX_TICK || start + Span(spacing) <= MIN_TICK then
      Err(InvalidParams)
    else if start in b.arrays then Err(AlreadyInitialized)
    else Ok(b.(arrays := b.arrays + {start}, ticks := b.ticks + EmptyTicks(start, spacing)))
  }

  function ApplyOpenPosition(b: Book, lower: int, upper: int): Result<Book> {
    var _ :- CheckTick(lower, b.pool.spacing);
    var _ :- CheckTick(upper, b.pool.spacing);
    if lower >= upper then Err(InvalidTickRange)
    else Ok(b.(positions := b.positions + [PositionData(true, lower, upper, 0, 0, 0, 0, 0)]))
  }

  function OpenAt(b: Book, i: nat): Result<PositionData>
    ensures OpenAt(b, i).Ok? ==> i < |b.positions| && OpenAt(b, i).value == b.positions[i] && b.positions[i].open
  {
    if i < |b.positions| && b.positions[i].open then Ok(b.positions[i]) else Err(Uninitialized)
  }

  predicate AllCreated(b: Book, starts: seq<int>) {
    forall s :: s in starts ==> s in b.arrays
  }

  // ---- liquidity ----

  function ToI128(x: nat): Result<i128> {
    if x < 0x8000_0000_0000_0000_0000_0000_0000_0000 then Ok(x) else Err(InvalidParams)
  }

  /** Pay-in is capped by the bounds, pay-out is floored by them. */
  predicate WithinBounds(delta: int, amount0: nat, amount1: nat, bound0: nat, bound1: nat) {
    if delta >= 0 then amount0 <= bound0 && amount1 <= bound1 else amount0 >= bound0 && amount1 >= bound1
  }

  /** A vault after a change: a pay-out it does not hold fails. */
  function Moved(vault: nat, amount: nat, delta: int): Result<nat> {
    if delta >= 0 then Ok(vault + amount)
    else if amount <= vault then Ok(vault - amount)
    else Err(InsufficientFunds)
  }

  /** The engine over one or two created arrays. */
  ghost function WindowModify(b: Book, p: PositionData, delta: i128, starts: seq<int>): Result<Modified> {
    if !(0 < |starts| <= 2) || !AllCreated(b, starts) then Err(Uninitialized)
    else Modify(b.pool, p, b.ticks, starts, delta)
  }

  /** The engine's result packed, then the two transfers. */
  function Exchanged(b: Book, i: nat, m: Modified, delta: i128, bound0: u64, bound1: u64): Result<Book>
    requires i < |b.positions|
  {
    var amount0 :- ToU64(m.amount0);
    var amount1 :- ToU64(m.amount1);
    if !WithinBounds(delta, amount0, amount1, bound0, bound1) then Err(SlippageExceeded)
    else
      var vault0 :- Moved(b.vault0, amount0, delta);
      var vault1 :- Moved(b.vault1, amount1, delta);
      Ok(b.(pool := m.pool, ticks := m.ticks, positions := b.positions[i := m.position], vault0 := vault0,
          vault1 := vault1))
  }

  ghost function ApplyModifyLiquidity(b: Book, i: nat, delta: i128, bound0: u64, bound1: u64,
        starts: seq<int>): Result<Book> {
    var p :- OpenAt(b, i);
    var m :- WindowModify(b, p, delta, starts);
    Exchanged(b, i, m, delta, bound0, bound1)
  }

  function ApplyCollect(b: Book, i: nat): Result<Book> {
    var p :- OpenAt(b, i);
    if p.owed0 > b.vault0 || p.owed1 > b.vault1 then Err(InsufficientFunds)
    else Ok(b.(positions := b.positions[i := p.(owed0 := 0, owed1 := 0)], vault0 := b.vault0 - p.owed0,
        vault1 := b.vault1 - p.owed1))
  }

  function ApplyClosePosition(b: Book, i: nat): Result<Book> {
    var p :- OpenAt(b, i);
    if p.liquidity != 0 || p.owed0 != 0 || p.owed1 != 0 then Err(InvalidParams)
    else Ok(b.(positions := b.positions[i := p.(open := false)]))
  }

  // ---- swap ----

  /** At most three arrays, no two neighbours the same, all created. */
  function CheckWindow(b: Book, starts: seq<int>): Result<()> {
    if starts == [] || |starts| > 3 then Err(InvalidTickArraySequence)
    else if exists k :: 0 <= k < |starts| - 1 && starts[k] == starts[k + 1] then Err(InvalidTickArraySequence)
    else if !AllCreated(b, starts) then Err(Uninitialized)
    else Ok(())
  }

  ghost function WindowSwap(b: Book, down: bool, amountIn: u64, limit: u128,
        starts: seq<int>): Result<(SwapOutcome, map<int, Tick>)> {
    if amountIn == 0 then Err(ZeroLiquidity)
    else if !LimitOk(b.pool, down, limit) then Err(SqrtPriceOutOfBounds)
    else if !Chained(starts, b.pool.spacing, b.pool.tick, down) then Err(InvalidTickArraySequence)
    else
      ChainAligned(starts, b.pool.spacing, b.pool.tick, down);
      SwapWalk.Swap(b.pool, b.ticks, LowEnd(starts, down), HighEnd(starts, b.pool.spacing, down), down, amountIn, limit)
  }

  function PoolAfter(pool: PoolData, down: bool, o: SwapOutcome): PoolData {
    var moved := pool.(price := o.price, tick := o.tick, liquidity := o.liquidity);
    if down then moved.(growth0 := o.growthIn) else moved.(growth1 := o.growthIn)
  }

  /** The pool repacked and the two transfers made. */
  function Settled(b: Book, down: bool, minOut: u64, o: SwapOutcome): Result<Book> {
    if o.amountOut < minOut then Err(SlippageExceeded)
    else
      var payIn :- ToU64(o.amountIn + o.fee);
      if o.amountOut > Vault(b, !down) then Err(InsufficientFunds)
      else
        Ok(b.(pool := PoolAfter(b.pool, down, o),
              vault0 := if down then b.vault0 + payIn else b.vault0 - o.amountOut,
              vault1 := if down then b.vault1 - o.amountOut else b.vault1 + payIn))
  }

  ghost function ApplySwap(b: Book, down: bool, amountIn: u64, minOut: u64, limit: u128,
        starts: seq<int>): Result<Book> {
    var _ :- CheckWindow(b, starts);
    var (o, ticks) :- WindowSwap(b, down, amountIn, DefaultLimit(down, limit), starts);
    var settled :- Settled(b, down, minOut, o);
    Ok(settled.(ticks := ticks))
  }

  // ---- any instruction, any run ----

  ghost function Apply(b: Book, op: Op): Result<Book> {
    match op
    case InitTickArray(start) => ApplyInitTickArray(b, start)
    case OpenPosition(lower, upper) => ApplyOpenPosition(b, lower, upper)
    case IncreaseLiquidity(i, liquidity, max0, max1, starts) =>
      var delta :- ToI128(liquidity);
      ApplyModifyLiquidity(b, i, delta, max0, max1, starts)
    case DecreaseLiquidity(i, liquidity, min0, min1, starts) =>
      var delta :- ToI128(liquidity);
      ApplyModifyLiquidity(b, i, -delta, min0, min1, starts)
    case Collect(i) => ApplyCollect(b, i)
    case ClosePosition(i) => ApplyClosePosition(b, i)
    case Swap(down, amountIn, minOut, limit, starts) => ApplySwap(b, down, amountIn, minOut, limit, starts)
    case Donate(zero, amount) =>
      Ok(if zero then b.(vault0 := b.vault0 + amount) else b.(vault1 := b.vault1 + amount))
  }

  /** A failed instruction reverts as a whole. */
  ghost function After(b: Book, op: Op): Book {
    match Apply(b, op)
    case Ok(next) => next
    case Err(_) => b
  }

  ghost function Play(b: Book, ops: seq<Op>): Book {
    if ops == [] then b else After(Play(b, ops[..|ops| - 1]), ops[|ops| - 1])
  }
}
