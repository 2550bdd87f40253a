/** The multi-tick exact-in swap as a function on values: one loop iteration, the run of
    the loop, and the whole swap (clmm/src/engine.rs). `Engine.Swap` is the imperative form. */
module SwapWalk {
  import opened Numbers
  import opened TickMath
  import opened Ticks
  import SwapMath

  const MAX_CROSSINGS: nat := 16

  datatype Target = Target(tick: int, initialized: bool, pastWindow: bool)

  /** What stays fixed during one swap; `[lo, hi)` is the supplied window of ticks. */
  datatype Walk = Walk(pool: PoolData, down: bool, limit: sqrtprice, lo: int, hi: int) {
    predicate Valid() {
      lo % pool.spacing == 0 && hi % pool.spacing == 0
    }
  }

  datatype WalkState = WalkState(
    price: sqrtprice,
    tick: int,
    liquidity: u128,
    growth: u128,
    remaining: u128,
    totalIn: u128,
    totalOut: u128,
    totalFee: u128,
    crossings: nat,
    ticks: map<int, Tick>)

  datatype SwapOutcome = SwapOutcome(
    amountIn: u64,
    fee: u64,
    amountOut: u64,
    price: sqrtprice,
    tick: int,
    liquidity: u128,
    growthIn: u128)

  // ---- the next tick to walk toward ----

  function Lookup(ticks: map<int, Tick>, tick: int): Result<Tick> {
    if tick in ticks then Ok(ticks[tick]) else Err(TickOutOfBounds)
  }

  /** Every aligned tick of `[lo, hi)` can be read. */
  ghost predicate Covers(ticks: map<int, Tick>, spacing: pos, lo: int, hi: int) {
    forall t :: lo <= t < hi && t % spacing == 0 ==> t in ticks
  }

  /** The aligned ticks of `(after, upTo]` are read and empty. */
  ghost predicate Quiet(ticks: map<int, Tick>, spacing: pos, after: int, upTo: int) {
    forall t :: after < t <= upTo && t % spacing == 0 ==> t in ticks && !ticks[t].Initialized()
  }

  /** Greatest initialized tick at or below `cand`, or the window floor. */
  function ScanDown(ticks: map<int, Tick>, spacing: pos, lo: int, cand: int): (r: Result<Target>)
    requires cand % spacing == 0 && lo % spacing == 0
    ensures r.Ok? ==>
      && lo <= r.value.tick <= cand && r.value.tick % spacing == 0 && !r.value.pastWindow
      && Quiet(ticks, spacing, r.value.tick, cand)
      && r.value.tick in ticks && r.value.initialized == ticks[r.value.tick].Initialized()
      && (r.value.initialized || r.value.tick == lo)
    ensures lo <= cand && Covers(ticks, spacing, lo, cand + 1) ==> r.Ok?
    decreases cand - lo
  {
    if cand < lo then Err(InvalidTickArraySequence)
    else
      var t :- Lookup(ticks, cand);
      if t.Initialized() then Ok(Target(cand, true, false))
      else if cand == lo then Ok(Target(lo, false, false))
      else
        AlignedStep(cand, spacing);
        AlignedApart(lo, cand, spacing);
        assert forall k :: cand - spacing < k < cand ==> k % spacing != 0 by {
          forall k | cand - spacing < k < cand ensures k % spacing != 0 {
            if k % spacing == 0 { AlignedApart(k, cand, spacing); }
          }
        }
        ScanDown(ticks, spacing, lo, cand - spacing)
  }

  /** Least initialized tick at or above `cand` inside the window, or the window ceiling. */
  function ScanUp(ticks: map<int, Tick>, spacing: pos, hi: int, cand: int): (r: Result<Target>)
    requires cand % spacing == 0 && hi % spacing == 0
    ensures r.Ok? && cand <= hi ==>
      && cand <= r.value.tick <= hi && r.value.tick % spacing == 0
      && Quiet(ticks, spacing, cand - 1, r.value.tick - 1)
      && (r.value.tick < hi ==>
            && r.value.initialized && !r.value.pastWindow
            && r.value.tick in ticks && ticks[r.value.tick].Initialized())
      && (r.value.tick == hi ==> !r.value.initialized && r.value.pastWindow == (hi <= MAX_TICK))
    ensures Covers(ticks, spacing, cand, hi) ==> r.Ok?
    decreases hi - cand
  {
    if cand >= hi then Ok(Target(hi, false, !(hi > MAX_TICK)))
    else
      var t :- Lookup(ticks, cand);
      if t.Initialized() then Ok(Target(cand, true, false))
      else
        AlignedStep(cand, spacing);
        AlignedApart(cand, hi, spacing);
        assert forall k :: cand < k < cand + spacing ==> k % spacing != 0 by {
          forall k | cand < k < cand + spacing ensures k % spacing != 0 {
            if k % spacing == 0 { AlignedApart(cand, k, spacing); }
          }
        }
        ScanUp(ticks, spacing, hi, cand + spacing)
  }

  /** Walking left includes `tick` itself, walking right excludes it. */
  function NextTarget(w: Walk, ticks: map<int, Tick>, tick: int): (r: Result<Target>)
    requires w.Valid()
  {
    var spacing := w.pool.spacing;
    var floor := tick / spacing * spacing;
    FloorAligned(tick, spacing);
    AlignedStep(floor, spacing);
    if w.down then
      if floor < w.lo then Err(InvalidTickArraySequence) else ScanDown(ticks, spacing, w.lo, floor)
    else
      if floor + spacing > w.hi then Err(InvalidTickArraySequence) else ScanUp(ticks, spacing, w.hi, floor + spacing)
  }

  lemma NothingBetween(floor: int, spacing: pos)
    requires floor % spacing == 0
    ensures forall k :: floor < k < floor + spacing ==> k % spacing != 0
  {
    forall k | floor < k < floor + spacing ensures k % spacing != 0 {
      if k % spacing == 0 {
        AlignedApart(floor, k, spacing);
      }
    }
  }

  /** Walking left: everything between the target and the tick is empty. */
  lemma TargetDown(w: Walk, ticks: map<int, Tick>, tick: int)
    requires w.Valid() && w.down && NextTarget(w, ticks, tick).Ok?
    ensures var t := NextTarget(w, ticks, tick).value;
      && w.lo <= t.tick <= tick && Quiet(ticks, w.pool.spacing, t.tick, tick) && !t.pastWindow
      && t.tick in ticks && t.initialized == ticks[t.tick].Initialized()
  {
    FloorAligned(tick, w.pool.spacing);
    NothingBetween(tick / w.pool.spacing * w.pool.spacing, w.pool.spacing);
  }

  /** Walking right: everything between the tick and the target is empty; an uninitialized
      target is the window ceiling. */
  lemma TargetUp(w: Walk, ticks: map<int, Tick>, tick: int)
    requires w.Valid() && !w.down && NextTarget(w, ticks, tick).Ok?
    ensures var t := NextTarget(w, ticks, tick).value;
      && tick < t.tick <= w.hi && Quiet(ticks, w.pool.spacing, tick, t.tick - 1)
      && (t.initialized ==> t.tick in ticks && ticks[t.tick].Initialized() && !t.pastWindow)
      && (!t.initialized ==> t.tick == w.hi && t.pastWindow == (w.hi <= MAX_TICK))
  {
    var spacing := w.pool.spacing;
    var floor := tick / spacing * spacing;
    FloorAligned(tick, spacing);
    AlignedStep(floor, spacing);
    NothingBetween(floor, spacing);
    var t := NextTarget(w, ticks, tick).value;
    assert Quiet(ticks, spacing, floor + spacing - 1, t.tick - 1);
  }

  // ---- one iteration ----

  function Clamp(tick: int): int {
    Min(Max(tick, MIN_TICK), MAX_TICK)
  }

  ghost function ClampedPrice(tick: int): (p: nat) {
    PriceAt(Clamp(tick))
  }

  predicate Done(w: Walk, s: WalkState) {
    s.remaining == 0 || s.price == w.limit || s.crossings >= MAX_CROSSINGS
  }

  ghost function TargetPrice(w: Walk, tick: int): sqrtprice {
    PriceInBand(Clamp(tick));
    ClampedPrice(tick)
  }

  ghost function Aim(w: Walk, targetPrice: sqrtprice): sqrtprice {
    if w.down then Max(targetPrice, w.limit) else Min(targetPrice, w.limit)
  }

  /** Charge and move the price toward `aim` within the current range. */
  ghost function Fill(w: Walk, s: WalkState, aim: sqrtprice): Result<WalkState> {
    if s.liquidity == 0 then Ok(s.(price := aim))
    else
      var step :- SwapMath.Step(s.price, aim, s.liquidity, s.remaining, w.pool.feePips);
      SwapMath.StepIsFair(s.price >= aim, s.price, aim, s.liquidity, s.remaining, w.pool.feePips);
      var totalIn :- ToU128(s.totalIn + step.amountIn);
      var totalOut :- ToU128(s.totalOut + step.amountOut);
      var totalFee :- ToU128(s.totalFee + step.fee);
      var delta :- if step.fee > 0 then FeeGrowthDelta(step.fee, s.liquidity) else Ok(0);
      Ok(s.(price := step.next,
            remaining := s.remaining - (step.amountIn + step.fee),
            totalIn := totalIn, totalOut := totalOut, totalFee := totalFee,
            growth := WrapAdd(s.growth, delta)))
  }

  /** Both global counters as they stand in the loop: only the input side has moved. */
  function Growth0(w: Walk, growth: u128): u128 {
    if w.down then growth else w.pool.growth0
  }

  function Growth1(w: Walk, growth: u128): u128 {
    if w.down then w.pool.growth1 else growth
  }

  /** In-range liquidity after crossing a tick in the walk direction. */
  function ApplyNet(down: bool, liquidity: u128, net: i128): Result<u128> {
    if down then
      if net == -0x8000_0000_0000_0000_0000_0000_0000_0000 then Err(MathOverflow)
      else SwapMath.AddDelta(liquidity, -net)
    else SwapMath.AddDelta(liquidity, net)
  }

  /** Cross an initialized tick: flip its outside growth, apply its net. */
  function CrossTick(w: Walk, s: WalkState, tick: int): Result<WalkState> {
    var t :- Lookup(s.ticks, tick);
    var crossed := t.Cross(Growth0(w, s.growth), Growth1(w, s.growth));
    var liquidity :- ApplyNet(w.down, s.liquidity, t.net);
    Ok(s.(liquidity := liquidity, crossings := s.crossings + 1, ticks := s.ticks[tick := crossed]))
  }

  /** Where the price came to rest decides the tick. */
  ghost function Land(w: Walk, s: WalkState, target: Target, targetPrice: nat): Result<WalkState> {
    if s.price == targetPrice then
      if target.pastWindow then Err(InvalidTickArraySequence)
      else
        var c :- if target.initialized then CrossTick(w, s, target.tick) else Ok(s);
        Ok(c.(tick := if w.down then target.tick - 1 else target.tick))
    else if s.price != w.pool.price then
      var t :- TickAt(s.price);
      Ok(s.(tick := t))
    else Ok(s)
  }

  ghost function Iterate(w: Walk, s: WalkState): Result<WalkState>
    requires w.Valid()
  {
    var target :- NextTarget(w, s.ticks, s.tick);
    var targetPrice := TargetPrice(w, target.tick);
    var f :- Fill(w, s, Aim(w, targetPrice));
    Land(w, f, target, targetPrice)
  }

  // ---- the run ----

  /** Window ticks left, then nothing: the loop's measure. */
  function Left(w: Walk, s: WalkState): nat {
    if Done(w, s) then 0
    else 1 + if w.down then Max(0, s.tick - w.lo + 1) else Max(0, w.hi - s.tick)
  }

  /** An iteration that does not end the loop has reached its target and moved the tick. */
  lemma IterateAdvances(w: Walk, s: WalkState)
    requires w.Valid() && !Done(w, s) && Iterate(w, s).Ok?
    ensures Left(w, Iterate(w, s).value) < Left(w, s)
    ensures var next := Iterate(w, s).value;
      !Done(w, next) ==> if w.down then next.tick < s.tick else s.tick < next.tick
  {
    var target := NextTarget(w, s.ticks, s.tick).value;
    FloorAligned(s.tick, w.pool.spacing);
    var targetPrice := TargetPrice(w, target.tick);
    var aim := Aim(w, targetPrice);
    var f := Fill(w, s, aim).value;
    if s.liquidity != 0 {
      SwapMath.StepIsFair(s.price >= aim, s.price, aim, s.liquidity, s.remaining, w.pool.feePips);
    }
    assert f.price != targetPrice ==> Done(w, f);
  }

  /** Run the loop to its end. */
  ghost function Run(w: Walk, s: WalkState): (r: Result<WalkState>)
    requires w.Valid()
    ensures r.Ok? ==> Done(w, r.value)
    decreases Left(w, s)
  {
    if Done(w, s) then Ok(s)
    else
      var next :- Iterate(w, s);
      IterateAdvances(w, s);
      Run(w, next)
  }

  predicate LimitOk(pool: PoolData, down: bool, limit: u128) {
    if down then MIN_SQRT_PRICE <= limit < pool.price else pool.price < limit <= MAX_SQRT_PRICE
  }

  /** A zero limit means no bound: the band's edge in the direction of the swap. */
  function DefaultLimit(down: bool, limit: u128): u128 {
    if limit != 0 then limit else if down then MIN_SQRT_PRICE else MAX_SQRT_PRICE
  }

  function Start(w: Walk, ticks: map<int, Tick>, amountIn: u64): WalkState {
    WalkState(w.pool.price, w.pool.tick, w.pool.liquidity, if w.down then w.pool.growth0 else w.pool.growth1,
              amountIn, 0, 0, 0, 0, ticks)
  }

  function Outcome(s: WalkState): Result<SwapOutcome> {
    var amountIn :- ToU64(s.totalIn);
    var fee :- ToU64(s.totalFee);
    var amountOut :- ToU64(s.totalOut);
    Ok(SwapOutcome(amountIn, fee, amountOut, s.price, Clamp(s.tick), s.liquidity, s.growth))
  }

  /** The whole swap over a validated window `[lo, hi)`: the outcome and the ticks after it. */
  ghost function Swap(pool: PoolData, ticks: map<int, Tick>, lo: int, hi: int, down: bool, amountIn: u64, limit: u128):
      Result<(SwapOutcome, map<int, Tick>)>
    requires lo % pool.spacing == 0 && hi % pool.spacing == 0
  {
    if amountIn == 0 then Err(ZeroLiquidity)
    else if !LimitOk(pool, down, limit) then Err(SqrtPriceOutOfBounds)
    else
      var w := Walk(pool, down, limit, lo, hi);
      var end :- Run(w, Start(w, ticks, amountIn));
      var o :- Outcome(end);
      Ok((o, end.ticks))
  }
}
