/** The engine as the program runs it: tick arrays are buffers written in place, the loops
    update locals (clmm/src/engine.rs, clmm/src/state.rs). Each method is proved against
    its counterpart on values in `SwapWalk` and `Liquidity`. */
module Engine {
  import opened Numbers
  import opened TickMath
  import opened Ticks
  import opened SwapWalk
  import opened Liquidity
  import SwapMath

  /** A mutable view over one tick-array account. */
  class TickArray {
    const start: int
    const slots: array<Tick>

    constructor (start: int, ticks: seq<Tick>)
      requires |ticks| == TICK_ARRAY_SIZE
      ensures this.start == start && fresh(slots) && slots[..] == ticks
    {
      this.start := start;
      slots := new Tick[TICK_ARRAY_SIZE](i requires 0 <= i < TICK_ARRAY_SIZE => ticks[i]);
    }
  }

  /** Full-size buffers, no two of them shared. */
  ghost predicate Buffers(arrays: seq<TickArray>) {
    && (forall i :: 0 <= i < |arrays| ==> arrays[i].slots.Length == TICK_ARRAY_SIZE)
    && (forall i, j :: 0 <= i < j < |arrays| ==> arrays[i].slots != arrays[j].slots)
  }

  ghost function Slots(arrays: seq<TickArray>): set<object> {
    set i | 0 <= i < |arrays| :: arrays[i].slots
  }

  /** The buffers hold exactly what `ticks` says at their ticks. */
  ghost predicate Shows(arrays: seq<TickArray>, spacing: pos, ticks: map<int, Tick>)
    requires Buffers(arrays)
    reads Slots(arrays)
  {
    forall i, t :: 0 <= i < |arrays| && TickSlot(arrays[i].start, spacing, t).Ok? ==>
      t in ticks && ticks[t] == arrays[i].slots[TickSlot(arrays[i].start, spacing, t).value]
  }

  // ---- the records the program works on in memory ----

  /** One tick, unpacked from its slot. */
  class TickRecord {
    var gross: u128
    var net: i128
    var outside0: u128
    var outside1: u128

    constructor (t: Tick)
      ensures Value() == t
    {
      gross, net, outside0, outside1 := t.gross, t.net, t.outside0, t.outside1;
    }

    function Value(): Tick
      reads this
    {
      Tick(gross, net, outside0, outside1)
    }

    method Update(delta: i128, isUpper: bool, index: int, current: int, growth0: u128, growth1: u128)
      returns (r: Result<bool>)
      modifies this
      ensures match old(Value()).Update(delta, isUpper, index, current, growth0, growth1)
        case Err(e) => r == Err(e)
        case Ok((t, flipped)) => r == Ok(flipped) && Value() == t
    {
      var before := gross;
      var after :- SwapMath.AddDelta(before, delta);
      if before == 0 && index <= current {
        outside0, outside1 := growth0, growth1;
      }
      gross := after;
      var netAfter := if isUpper then net - delta else net + delta;
      if !(-0x8000_0000_0000_0000_0000_0000_0000_0000 <= netAfter < 0x8000_0000_0000_0000_0000_0000_0000_0000) {
        return Err(MathOverflow);
      }
      net := netAfter;
      return Ok((after == 0) != (before == 0));
    }

    method Clear()
      modifies this
      ensures Value() == old(Value()).Clear()
    {
      outside0, outside1 := 0, 0;
    }

    method Cross(growth0: u128, growth1: u128) returns (n: i128)
      modifies this
      ensures Value() == old(Value()).Cross(growth0, growth1) && n == old(net)
    {
      outside0, outside1 := WrapSub(growth0, outside0), WrapSub(growth1, outside1);
      n := net;
    }
  }

  class Pool {
    const feePips: nat
    const spacing: pos
    var tick: int
    var price: sqrtprice
    var liquidity: u128
    var growth0: u128
    var growth1: u128

    constructor (p: PoolData)
      ensures Value() == p
    {
      feePips, spacing, tick, price := p.feePips, p.spacing, p.tick, p.price;
      liquidity, growth0, growth1 := p.liquidity, p.growth0, p.growth1;
    }

    function Value(): PoolData
      reads this
    {
      PoolData(feePips, spacing, tick, price, liquidity, growth0, growth1)
    }
  }

  class Position {
    const open: bool
    const lower: int
    const upper: int
    var liquidity: u128
    var inside0Last: u128
    var inside1Last: u128
    var owed0: u64
    var owed1: u64

    constructor (p: PositionData)
      ensures Value() == p
    {
      open, lower, upper, liquidity := p.open, p.lower, p.upper, p.liquidity;
      inside0Last, inside1Last, owed0, owed1 := p.inside0Last, p.inside1Last, p.owed0, p.owed1;
    }

    function Value(): PositionData
      reads this
    {
      PositionData(open, lower, upper, liquidity, inside0Last, inside1Last, owed0, owed1)
    }

    method UpdateFees(inside0: u128, inside1: u128) returns (r: Result<()>)
      modifies this
      ensures match old(Value()).UpdateFees(inside0, inside1)
        case Err(e) => r == Err(e)
        case Ok(p) => r == Ok(()) && Value() == p
    {
      var earned0 :- FeesOwed(liquidity, inside0, inside0Last);
      var earned1 :- FeesOwed(liquidity, inside1, inside1Last);
      var credit0 :- ToU64(earned0);
      var credit1 :- ToU64(earned1);
      owed0 :- ToU64(owed0 + credit0);
      owed1 :- ToU64(owed1 + credit1);
      inside0Last, inside1Last := inside0, inside1;
      return Ok(());
    }
  }

  function GetTick(a: TickArray, spacing: pos, tick: int): Result<Tick>
    requires a.slots.Length == TICK_ARRAY_SIZE
    reads a.slots
  {
    var slot :- TickSlot(a.start, spacing, tick);
    Ok(a.slots[slot])
  }

  method SetTick(a: TickArray, spacing: pos, tick: int, value: Tick) returns (r: Result<()>)
    requires a.slots.Length == TICK_ARRAY_SIZE
    modifies a.slots
    ensures r.Ok? <==> TickSlot(a.start, spacing, tick).Ok?
    ensures r.Ok? ==> a.slots[..] == old(a.slots[..])[TickSlot(a.start, spacing, tick).value := value]
    ensures r.Err? ==> a.slots[..] == old(a.slots[..])
  {
    var slot :- TickSlot(a.start, spacing, tick);
    a.slots[slot] := value;
    return Ok(());
  }

  // ---- the window ----

  function Starts(arrays: seq<TickArray>): (s: seq<int>)
    ensures |s| == |arrays| && forall i :: 0 <= i < |arrays| ==> s[i] == arrays[i].start
  {
    seq(|arrays|, i requires 0 <= i < |arrays| => arrays[i].start)
  }

  ghost predicate WindowShape(arrays: seq<TickArray>, spacing: pos, tick: int, down: bool) {
    Chained(Starts(arrays), spacing, tick, down)
  }

  ghost function WindowLo(arrays: seq<TickArray>, down: bool): int
    requires |arrays| > 0
  {
    LowEnd(Starts(arrays), down)
  }

  ghost function WindowHi(arrays: seq<TickArray>, spacing: pos, down: bool): int
    requires |arrays| > 0
  {
    HighEnd(Starts(arrays), spacing, down)
  }

  /** Reading an aligned tick of the window always succeeds and gives the stored tick. */
  lemma ReadInWindow(arrays: seq<TickArray>, spacing: pos, at: int, down: bool, ticks: map<int, Tick>, tick: int)
    requires Buffers(arrays) && WindowShape(arrays, spacing, at, down) && Shows(arrays, spacing, ticks)
    requires WindowLo(arrays, down) <= tick < WindowHi(arrays, spacing, down) && tick % spacing == 0
    ensures var idx := ArrayIndex(arrays[0].start, spacing, down, tick);
      && 0 <= idx < |arrays|
      && TickSlot(arrays[idx].start, spacing, tick).Ok?
      && tick in ticks && GetTick(arrays[idx], spacing, tick) == Ok(ticks[tick])
  {
    IndexInWindow(Starts(arrays), spacing, at, down, tick);
    ChainAligned(Starts(arrays), spacing, at, down);
    var idx := ArrayIndex(arrays[0].start, spacing, down, tick);
    FloorAligned(tick, Span(spacing));
    DifferenceAligned(tick, arrays[idx].start, spacing);
  }

  /** Arrays that start where arrays may start, no two at the same place. */
  ghost predicate Apart(arrays: seq<TickArray>, spacing: pos) {
    && (forall i :: 0 <= i < |arrays| ==> StartIndex(arrays[i].start, spacing) == arrays[i].start)
    && (forall i, j :: 0 <= i < j < |arrays| ==> arrays[i].start != arrays[j].start)
  }

  /** Writing one tick of one array writes that tick of the store and no other. */
  method WriteTick(arrays: seq<TickArray>, spacing: pos, idx: nat, tick: int, value: Tick, ghost ticks: map<int, Tick>)
    requires Buffers(arrays) && Apart(arrays, spacing) && Shows(arrays, spacing, ticks)
    requires idx < |arrays| && TickSlot(arrays[idx].start, spacing, tick).Ok?
    modifies Slots(arrays)
    ensures Shows(arrays, spacing, ticks[tick := value])
  {
    var r := SetTick(arrays[idx], spacing, tick, value);
    forall i, t | 0 <= i < |arrays| && TickSlot(arrays[i].start, spacing, t).Ok?
      ensures t in ticks[tick := value]
      ensures ticks[tick := value][t] == arrays[i].slots[TickSlot(arrays[i].start, spacing, t).value]
    {
      var k := TickSlot(arrays[i].start, spacing, t).value;
      assert ticks[t] == old(arrays[i].slots[k]);
      if t == tick {
        SlotInSpan(arrays[i].start, spacing, tick);
        SlotInSpan(arrays[idx].start, spacing, tick);
        InSpan(arrays[i].start, spacing, tick);
        InSpan(arrays[idx].start, spacing, tick);
      }
      assert arrays[i].slots[..][k] == arrays[i].slots[k];
      assert old(arrays[i].slots[..])[k] == old(arrays[i].slots[k]);
    }
  }

  /** A validated window never supplies the same array twice. */
  lemma WindowApart(arrays: seq<TickArray>, spacing: pos, at: int, down: bool)
    requires WindowShape(arrays, spacing, at, down)
    ensures Apart(arrays, spacing)
  {
    var span, f := Span(spacing), at / Span(spacing);
    forall i | 0 <= i < |arrays| ensures StartIndex(arrays[i].start, spacing) == arrays[i].start {
      ChainStarts(Starts(arrays), spacing, at, down, i);
      WholeSpans(f, if down then -i else i, span);
    }
    forall i, j | 0 <= i < j < |arrays| ensures arrays[i].start != arrays[j].start {
      ChainStarts(Starts(arrays), spacing, at, down, i);
      ChainStarts(Starts(arrays), spacing, at, down, j);
      MulStrictly(i, j, span);
    }
  }

  lemma WholeSpans(f: int, k: int, span: pos)
    ensures (f * span + k * span) / span * span == f * span + k * span
  {
    assert f * span + k * span == (f + k) * span;
    QuotientOfMultiple(f + k, span);
  }

  lemma MulStrictly(i: int, j: int, span: pos)
    requires i < j
    ensures i * span < j * span && -j * span < -i * span
  {
  }

  /** The walk that a validated window allows. */
  ghost predicate Fits(w: Walk, arrays: seq<TickArray>) {
    && WindowShape(arrays, w.pool.spacing, w.pool.tick, w.down)
    && w.lo == WindowLo(arrays, w.down)
    && w.hi == WindowHi(arrays, w.pool.spacing, w.down)
  }

  ghost predicate IsReadable(arrays: seq<TickArray>, spacing: pos, down: bool, at: int, lo: int, hi: int,
        ticks: map<int, Tick>)
    reads Slots(arrays)
  {
    && Buffers(arrays) && WindowShape(arrays, spacing, at, down) && Shows(arrays, spacing, ticks)
    && lo == WindowLo(arrays, down) && hi == WindowHi(arrays, spacing, down)
  }

  /** A validated window `[lo, hi)` whose buffers hold `ticks`, behind the guard. */
  ghost predicate Readable(arrays: seq<TickArray>, spacing: pos, down: bool, at: int, lo: int, hi: int,
        ticks: map<int, Tick>)
    reads Slots(arrays)
  {
    forall t :: Unfold(t) && t == spacing ==> IsReadable(arrays, spacing, down, at, lo, hi, ticks)
  }

  lemma ReadableIs(arrays: seq<TickArray>, spacing: pos, down: bool, at: int, lo: int, hi: int, ticks: map<int, Tick>)
    ensures Readable(arrays, spacing, down, at, lo, hi, ticks) <==> IsReadable(arrays, spacing, down, at, lo, hi, ticks)
  {
    assert Unfold(spacing);
  }

  /** Inside the window the index is in range and the lookup succeeds. */
  method ReadTick(arrays: seq<TickArray>, spacing: pos, down: bool, tick: int, ghost at: int, ghost lo: int,
        ghost hi: int, ghost ticks: map<int, Tick>)
    returns (t: Tick)
    requires Readable(arrays, spacing, down, at, lo, hi, ticks) && lo <= tick < hi && tick % spacing == 0
    ensures tick in ticks && t == ticks[tick]
  {
    ReadableIs(arrays, spacing, down, at, lo, hi, ticks);
    ReadInWindow(arrays, spacing, at, down, ticks, tick);
    var idx := ArrayIndex(arrays[0].start, spacing, down, tick);
    t := GetTick(arrays[idx], spacing, tick).value;
  }

  /** The scan for the next tick: every index is in range, every lookup succeeds and the
      scan never runs off the floor. */
  method FindTarget(arrays: seq<TickArray>, spacing: pos, tick: int, down: bool, ghost w: Walk,
        ghost ticks: map<int, Tick>)
    returns (r: Result<Target>)
    requires w.Valid() && w.pool.spacing == spacing && w.down == down && Fits(w, arrays)
    requires Buffers(arrays) && Shows(arrays, spacing, ticks)
    requires if down then tick < w.hi else w.lo <= tick
    ensures r == NextTarget(w, ticks, tick)
  {
    ReadableIs(arrays, spacing, down, w.pool.tick, w.lo, w.hi, ticks);
    var last := arrays[|arrays| - 1].start;
    var floor := tick / spacing * spacing;
    FloorAligned(tick, spacing);
    AlignedStep(floor, spacing);
    if down {
      r := FindDown(arrays, spacing, last, floor, w, ticks);
    } else {
      r := FindUp(arrays, spacing, last + Span(spacing), floor + spacing, w, ticks);
    }
  }

  method FindDown(arrays: seq<TickArray>, spacing: pos, windowLo: int, first: int, ghost w: Walk,
        ghost ticks: map<int, Tick>)
    returns (r: Result<Target>)
    requires w.Valid() && w.pool.spacing == spacing && w.lo == windowLo
    requires Readable(arrays, spacing, true, w.pool.tick, w.lo, w.hi, ticks)
    requires first < w.hi && first % spacing == 0
    ensures r == if first < w.lo then Err(InvalidTickArraySequence) else ScanDown(ticks, spacing, w.lo, first)
  {
    var cand := first;
    if cand < windowLo {
      return Err(InvalidTickArraySequence);
    }
    while cand >= windowLo
      invariant windowLo <= cand <= first && cand % spacing == 0
      invariant ScanDown(ticks, spacing, windowLo, cand) == ScanDown(ticks, spacing, windowLo, first)
      decreases cand - windowLo
    {
      var t := ReadTick(arrays, spacing, true, cand, w.pool.tick, w.lo, w.hi, ticks);
      if t.Initialized() {
        return Ok(Target(cand, true, false));
      }
      if cand == windowLo {
        return Ok(Target(cand, false, false));
      }
      AlignedStep(cand, spacing);
      AlignedApart(windowLo, cand, spacing);
      cand := cand - spacing;
    }
    assert false;
  }

  method FindUp(arrays: seq<TickArray>, spacing: pos, windowHi: int, first: int, ghost w: Walk,
        ghost ticks: map<int, Tick>)
    returns (r: Result<Target>)
    requires w.Valid() && w.pool.spacing == spacing && w.hi == windowHi
    requires Readable(arrays, spacing, false, w.pool.tick, w.lo, w.hi, ticks)
    requires w.lo < first && first % spacing == 0
    ensures r == if first > w.hi then Err(InvalidTickArraySequence) else ScanUp(ticks, spacing, w.hi, first)
  {
    var cand := first;
    if cand > windowHi {
      return Err(InvalidTickArraySequence);
    }
    while cand < windowHi
      invariant w.lo < cand <= windowHi && cand % spacing == 0
      invariant ScanUp(ticks, spacing, windowHi, cand) == ScanUp(ticks, spacing, windowHi, first)
      decreases windowHi - cand
    {
      var t := ReadTick(arrays, spacing, false, cand, w.pool.tick, w.lo, w.hi, ticks);
      if t.Initialized() {
        return Ok(Target(cand, true, false));
      }
      AlignedStep(cand, spacing);
      AlignedApart(cand, windowHi, spacing);
      cand := cand + spacing;
    }
    return Ok(Target(windowHi, false, !(windowHi > MAX_TICK)));
  }

  /** The loop's local variables; `At` adds the tick store they run over. */
  datatype Locals = Locals(
    price: sqrtprice,
    tick: int,
    liquidity: u128,
    growth: u128,
    remaining: u128,
    totalIn: u128,
    totalOut: u128,
    totalFee: u128,
    crossings: nat)
  {
    ghost function At(ticks: map<int, Tick>): WalkState {
      WalkState(price, tick, liquidity, growth, remaining, totalIn, totalOut, totalFee, crossings, ticks)
    }
  }

  /** The charging part of an iteration. */
  method Charge(pool: PoolData, clamped: sqrtprice, l: Locals, ghost w: Walk, ghost ticks: map<int, Tick>)
    returns (r: Result<Locals>)
    requires w.pool == pool
    ensures match Fill(w, l.At(ticks), clamped)
      case Err(e) => r == Err(e)
      case Ok(f) => r.Ok? && r.value.At(ticks) == f && r.value.tick == l.tick
  {
    if l.liquidity == 0 {
      return Ok(l.(price := clamped));
    }
    SwapMath.StepIsComputed(l.price, clamped, l.liquidity, l.remaining, pool.feePips);
    var step :- SwapMath.ComputeSwapStep(l.price, clamped, l.liquidity, l.remaining, pool.feePips);
    SwapMath.StepIsFair(l.price >= clamped, l.price, clamped, l.liquidity, l.remaining, pool.feePips);
    var totalIn :- ToU128(l.totalIn + step.amountIn);
    var totalOut :- ToU128(l.totalOut + step.amountOut);
    var totalFee :- ToU128(l.totalFee + step.fee);
    var growth := l.growth;
    if step.fee > 0 {
      var delta :- FeeGrowthDelta(step.fee, l.liquidity);
      growth := WrapAdd(growth, delta);
    }
    return Ok(l.(price := step.next, remaining := l.remaining - (step.amountIn + step.fee),
                 totalIn := totalIn, totalOut := totalOut, totalFee := totalFee, growth := growth));
  }

  /** The crossing part of an iteration: flip the tick in its buffer, apply its net. */
  method CrossInPlace(arrays: seq<TickArray>, pool: PoolData, down: bool, tick: int, liquidity: u128, growth: u128,
        ghost w: Walk, ghost s: WalkState)
    returns (r: Result<u128>)
    requires w.Valid() && w.pool == pool && w.down == down && Fits(w, arrays)
    requires Buffers(arrays) && Shows(arrays, pool.spacing, s.ticks)
    requires w.lo <= tick < w.hi && tick % pool.spacing == 0
    requires s.liquidity == liquidity && s.growth == growth
    modifies Slots(arrays)
    ensures match CrossTick(w, s, tick)
      case Err(e) => r == Err(e)
      case Ok(c) => r == Ok(c.liquidity) && Shows(arrays, pool.spacing, c.ticks)
  {
    ReadInWindow(arrays, pool.spacing, pool.tick, down, s.ticks, tick);
    var idx := ArrayIndex(arrays[0].start, pool.spacing, down, tick);
    var t := new TickRecord(GetTick(arrays[idx], pool.spacing, tick).value);
    var growth0, growth1 := if down then growth else pool.growth0, if down then pool.growth1 else growth;
    var net := t.Cross(growth0, growth1);
    WindowApart(arrays, pool.spacing, pool.tick, down);
    WriteTick(arrays, pool.spacing, idx, tick, t.Value(), s.ticks);
    r := ApplyNet(down, liquidity, net);
  }

  /** Where an iteration comes to rest: the tick, liquidity and crossings after it. */
  method LandInPlace(arrays: seq<TickArray>, pool: PoolData, down: bool, target: Target, targetSqrt: nat, l: Locals,
        ghost w: Walk, ghost ticks: map<int, Tick>)
    returns (r: Result<Locals>)
    requires w.Valid() && w.pool == pool && w.down == down && Fits(w, arrays)
    requires Buffers(arrays) && Shows(arrays, pool.spacing, ticks)
    requires NextTarget(w, ticks, l.tick) == Ok(target)
    requires if down then l.tick < w.hi else w.lo <= l.tick
    modifies Slots(arrays)
    ensures match Land(w, l.At(ticks), target, targetSqrt)
      case Err(e) => r == Err(e)
      case Ok(n) => r.Ok? && r.value.At(n.ticks) == n && Shows(arrays, pool.spacing, n.ticks)
  {
    if l.price == targetSqrt {
      if target.pastWindow {
        return Err(InvalidTickArraySequence);
      }
      var liquidity, crossings := l.liquidity, l.crossings;
      if target.initialized {
        FloorAligned(l.tick, pool.spacing);
        AlignedStep(l.tick / pool.spacing * pool.spacing, pool.spacing);
        liquidity :- CrossInPlace(arrays, pool, down, target.tick, liquidity, l.growth, w, l.At(ticks));
        crossings := crossings + 1;
      }
      return Ok(l.(tick := if down then target.tick - 1 else target.tick,
                   liquidity := liquidity, crossings := crossings));
    } else if l.price != pool.price {
      var t :- GetTickAtSqrtPrice(l.price);
      return Ok(l.(tick := t));
    }
    return Ok(l);
  }

  /** The body of the loop. */
  method IterateInPlace(arrays: seq<TickArray>, pool: PoolData, down: bool, limit: sqrtprice, l: Locals, ghost w: Walk,
        ghost ticks: map<int, Tick>)
    returns (r: Result<Locals>)
    requires w.Valid() && w.pool == pool && w.down == down && w.limit == limit && Fits(w, arrays)
    requires Buffers(arrays) && Shows(arrays, pool.spacing, ticks)
    requires if down then l.tick < w.hi else w.lo <= l.tick
    modifies Slots(arrays)
    ensures match Iterate(w, l.At(ticks))
      case Err(e) => r == Err(e)
      case Ok(n) => r.Ok? && r.value.At(n.ticks) == n && Shows(arrays, pool.spacing, n.ticks)
  {
    var target :- FindTarget(arrays, pool.spacing, l.tick, down, w, ticks);
    var priced := GetSqrtPriceAtTick(Clamp(target.tick));
    var targetSqrt := priced.value;
    assert targetSqrt == TargetPrice(w, target.tick);
    var clamped: sqrtprice := if down then Max(targetSqrt, limit) else Min(targetSqrt, limit);
    var charged :- Charge(pool, clamped, l, w, ticks);
    r := LandInPlace(arrays, pool, down, target, targetSqrt, charged, w, ticks);
  }

  /** The loop, over a validated window: it ends where `SwapWalk.Run` ends. */
  method WalkTicks(pool: PoolData, arrays: seq<TickArray>, down: bool, amountIn: u64, limit: sqrtprice, ghost w: Walk,
        ghost ticks: map<int, Tick>)
    returns (r: Result<SwapOutcome>)
    requires w.Valid() && w.pool == pool && w.down == down && w.limit == limit && Fits(w, arrays)
    requires w.lo <= pool.tick < w.hi
    requires Buffers(arrays) && Shows(arrays, pool.spacing, ticks)
    modifies Slots(arrays)
    ensures match Run(w, Start(w, ticks, amountIn))
      case Err(e) => r == Err(e)
      case Ok(end) => r == Outcome(end) && Shows(arrays, pool.spacing, end.ticks)
  {
    var l := Locals(pool.price, pool.tick, pool.liquidity, if down then pool.growth0 else pool.growth1,
        amountIn, 0, 0, 0, 0);
    ghost var s := Start(w, ticks, amountIn);
    ghost var first := s;

    while l.remaining > 0 && l.price != limit
      invariant s == l.At(s.ticks) && Shows(arrays, pool.spacing, s.ticks)
      invariant Run(w, s) == Run(w, first)
      invariant l.crossings < MAX_CROSSINGS
      invariant !Done(w, s) ==> if down then l.tick < w.hi else w.lo <= l.tick
      decreases Left(w, s)
    {
      ghost var before := s;
      l :- IterateInPlace(arrays, pool, down, limit, l, w, s.ticks);
      s := Iterate(w, before).value;
      IterateAdvances(w, before);
      if l.crossings >= MAX_CROSSINGS {
        break;
      }
    }
    var amount :- ToU64(l.totalIn);
    var fee :- ToU64(l.totalFee);
    var amountOut :- ToU64(l.totalOut);
    return Ok(SwapOutcome(amount, fee, amountOut, l.price, Clamp(l.tick), l.liquidity, l.growth));
  }

  /** Exact-in swap across ticks, crossing them in place. On success the result and the
      buffers are what `SwapWalk.Swap` says; on failure the caller discards everything. */
  method Swap(pool: PoolData, arrays: seq<TickArray>, down: bool, amountIn: u64, limit: u128,
        ghost ticks: map<int, Tick>)
    returns (r: Result<SwapOutcome>)
    requires Buffers(arrays) && Shows(arrays, pool.spacing, ticks)
    modifies Slots(arrays)
    ensures amountIn == 0 ==> r == Err(ZeroLiquidity)
    ensures amountIn != 0 && !LimitOk(pool, down, limit) ==> r == Err(SqrtPriceOutOfBounds)
    ensures amountIn != 0 && LimitOk(pool, down, limit) && !WindowShape(arrays, pool.spacing, pool.tick, down) ==>
      r == Err(InvalidTickArraySequence)
    ensures amountIn != 0 && LimitOk(pool, down, limit) && WindowShape(arrays, pool.spacing, pool.tick, down) ==>
      var lo, hi := WindowLo(arrays, down), WindowHi(arrays, pool.spacing, down);
      && lo % pool.spacing == 0 && hi % pool.spacing == 0
      && match SwapWalk.Swap(pool, ticks, lo, hi, down, amountIn, limit)
         case Err(e) => r == Err(e)
         case Ok((outcome, after)) => r == Ok(outcome) && Shows(arrays, pool.spacing, after)
  {
    if amountIn == 0 {
      return Err(ZeroLiquidity);
    }
    if !LimitOk(pool, down, limit) {
      return Err(SqrtPriceOutOfBounds);
    }
    var spacing := pool.spacing;
    if |arrays| == 0 || arrays[0].start != StartIndex(pool.tick, spacing) {
      return Err(InvalidTickArraySequence);
    }
    for i := 1 to |arrays|
      invariant forall j :: 1 <= j < i ==>
        arrays[j].start == (if down then arrays[j - 1].start - Span(spacing) else arrays[j - 1].start + Span(spacing))
    {
      var expected := if down then arrays[i - 1].start - Span(spacing) else arrays[i - 1].start + Span(spacing);
      if arrays[i].start != expected {
        return Err(InvalidTickArraySequence);
      }
    }
    ChainAligned(Starts(arrays), spacing, pool.tick, down);
    ghost var w := Walk(pool, down, limit, WindowLo(arrays, down), WindowHi(arrays, spacing, down));
    r := WalkTicks(pool, arrays, down, amountIn, limit, w, ticks);
  }

  // ---- adding and removing liquidity ----

  /** The first supplied array with the wanted start. */
  method FindArray(arrays: seq<TickArray>, want: int) returns (r: Result<nat>)
    ensures r.Ok? ==> r.value < |arrays| && arrays[r.value].start == want
    ensures r.Err? ==> r == Err(InvalidTickArraySequence) && want !in Starts(arrays)
  {
    for i := 0 to |arrays|
      invariant forall j :: 0 <= j < i ==> arrays[j].start != want
    {
      if arrays[i].start == want {
        return Ok(i);
      }
    }
    return Err(InvalidTickArraySequence);
  }

  /** Update one bound in its array. */
  method UpdateBoundInPlace(pool: Pool, arrays: seq<TickArray>, tick: int, isUpper: bool, delta: i128,
        ghost ticks: map<int, Tick>)
    returns (r: Result<(Tick, bool)>)
    requires Buffers(arrays) && Apart(arrays, pool.spacing) && Shows(arrays, pool.spacing, ticks)
    modifies Slots(arrays)
    ensures r == UpdateBound(pool.Value(), ticks, Starts(arrays), tick, isUpper, delta)
    ensures r.Ok? ==> Shows(arrays, pool.spacing, ticks[tick := r.value.0])
  {
    var idx :- FindArray(arrays, StartIndex(tick, pool.spacing));
    var found :- GetTick(arrays[idx], pool.spacing, tick);
    var t := new TickRecord(found);
    var flipped :- t.Update(delta, isUpper, tick, pool.tick, pool.growth0, pool.growth1);
    WriteTick(arrays, pool.spacing, idx, tick, t.Value(), ticks);
    return Ok((t.Value(), flipped));
  }

  /** A bound that just died is zeroed, after the fee snapshot. */
  method ClearInPlace(arrays: seq<TickArray>, spacing: pos, tick: int, value: Tick, flipped: bool,
        ghost ticks: map<int, Tick>)
    requires Buffers(arrays) && Apart(arrays, spacing) && Shows(arrays, spacing, ticks)
    requires StartIndex(tick, spacing) in Starts(arrays) && TickSlot(StartIndex(tick, spacing), spacing, tick).Ok?
    modifies Slots(arrays)
    ensures Shows(arrays, spacing, ClearDead(ticks, tick, value, flipped))
  {
    if flipped && !value.Initialized() {
      var t := new TickRecord(value);
      t.Clear();
      var found := FindArray(arrays, StartIndex(tick, spacing));
      WriteTick(arrays, spacing, found.value, tick, t.Value(), ticks);
    }
  }

  method AmountsForLiquidity(price: sqrtprice, tick: int, lower: int, upper: int, liquidity: u128, roundUp: bool)
    returns (r: Result<(u128, u128)>)
    ensures r == AmountsFor(price, tick, lower, upper, liquidity, roundUp)
  {
    AmountsForIs(price, tick, lower, upper, liquidity, roundUp);
    var sqrtLower :- GetSqrtPriceAtTick(lower);
    var sqrtUpper :- GetSqrtPriceAtTick(upper);
    PriceInBand(lower);
    PriceInBand(upper);
    r := Checked(Amounts(price, tick, lower, upper, sqrtLower, sqrtUpper, liquidity, roundUp));
  }

  /** The fee snapshot and the delta, on the two records. */
  method SettleInPlace(pool: Pool, position: Position, lower: Tick, upper: Tick, liquidity: u128, delta: i128)
    returns (r: Result<()>)
    modifies pool, position
    ensures match Settle(old(pool.Value()), old(position.Value()), lower, upper, liquidity, delta)
      case Err(e) => r == Err(e)
      case Ok((p, q)) => r == Ok(()) && pool.Value() == p && position.Value() == q
  {
    var inside0 := FeeGrowthInside(position.lower, position.upper, pool.tick, pool.growth0,
        lower.outside0, upper.outside0);
    var inside1 := FeeGrowthInside(position.lower, position.upper, pool.tick, pool.growth1,
        lower.outside1, upper.outside1);
    var _ :- position.UpdateFees(inside0, inside1);
    position.liquidity := liquidity;
    if position.lower <= pool.tick < position.upper {
      pool.liquidity :- SwapMath.AddDelta(pool.liquidity, delta);
    }
    return Ok(());
  }

  /** Bounds, fees, position, pool, clearing, amounts: in place, in this order. On success
      every record and buffer is what `Liquidity.Modify` says. */
  method ModifyPosition(pool: Pool, position: Position, arrays: seq<TickArray>, delta: i128,
        ghost ticks: map<int, Tick>)
    returns (r: Result<(u128, u128)>)
    requires Buffers(arrays) && Apart(arrays, pool.spacing) && Shows(arrays, pool.spacing, ticks)
    modifies pool, position, Slots(arrays)
    ensures match Modify(old(pool.Value()), old(position.Value()), ticks, Starts(arrays), delta)
      case Err(e) => r == Err(e)
      case Ok(m) =>
        && r == Ok((m.amount0, m.amount1))
        && pool.Value() == m.pool && position.Value() == m.position
        && Shows(arrays, pool.spacing, m.ticks)
  {
    ModifyIs(pool.Value(), position.Value(), ticks, Starts(arrays), delta);
    var spacing, lower, upper := pool.spacing, position.lower, position.upper;
    var liquidity :- SwapMath.AddDelta(position.liquidity, delta);
    var l :- UpdateBoundInPlace(pool, arrays, lower, false, delta, ticks);
    ghost var withLower := ticks[lower := l.0];
    var u :- UpdateBoundInPlace(pool, arrays, upper, true, delta, withLower);
    ghost var withBoth := withLower[upper := u.0];
    var _ :- SettleInPlace(pool, position, l.0, u.0, liquidity, delta);
    ClearInPlace(arrays, spacing, lower, l.0, l.1, withBoth);
    ClearInPlace(arrays, spacing, upper, u.0, u.1, ClearDead(withBoth, lower, l.0, l.1));
    r := AmountsForLiquidity(pool.price, pool.tick, lower, upper, Magnitude(delta), delta >= 0);
  }
}
