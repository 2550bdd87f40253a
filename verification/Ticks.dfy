/** Program state records and tick-level bookkeeping (clmm/src/state.rs,
    clmm/src/curve/fee_math.rs). */
module Ticks {
  import opened Numbers
  import opened TickMath
  import SwapMath

  const TICK_ARRAY_SIZE: int := 88

  // ---- fee growth ----

  /** Growth per unit of liquidity from a fee, rounded down. */
  function FeeGrowthDelta(fee: nat, liquidity: pos): Result<u128> {
    ToU128(DivFloor(fee * Q64, liquidity))
  }

  /** What a position earns from a wrapped difference of inside growth, rounded down. */
  function FeesOwed(liquidity: u128, insideNow: u128, insideLast: u128): Result<u128> {
    ToU128(DivFloor(liquidity * WrapSub(insideNow, insideLast), Q64))
  }

  /** Growth inside a range, as `global - below - above` with wrapping subtraction. */
  function FeeGrowthInside(lower: int, upper: int, current: int, growth: u128, outsideLower: u128,
        outsideUpper: u128): u128 {
    var below := if current >= lower then outsideLower else WrapSub(growth, outsideLower);
    var above := if current < upper then outsideUpper else WrapSub(growth, outsideUpper);
    WrapSub(WrapSub(growth, below), above)
  }

  // ---- ticks ----

  datatype Tick = Tick(gross: u128, net: i128, outside0: u128, outside1: u128) {
    predicate Initialized() {
      gross != 0
    }

    /** A position's delta at one of its bounds: the tick after it, and whether the tick
        flipped between empty and initialized. */
    function Update(delta: i128, isUpper: bool, index: int, current: int, growth0: u128,
          growth1: u128): Result<(Tick, bool)> {
      var grossAfter :- SwapMath.AddDelta(gross, delta);
      var seeded := if gross == 0 && index <= current then this.(outside0 := growth0, outside1 := growth1) else this;
      var netAfter := if isUpper then net - delta else net + delta;
      if -0x8000_0000_0000_0000_0000_0000_0000_0000 <= netAfter < 0x8000_0000_0000_0000_0000_0000_0000_0000 then
        Ok((seeded.(gross := grossAfter, net := netAfter), (grossAfter == 0) != (gross == 0)))
      else Err(MathOverflow)
    }

    function Clear(): Tick {
      this.(outside0 := 0, outside1 := 0)
    }

    /** Flip the outside growth to the other side; the caller applies `net`. */
    function Cross(growth0: u128, growth1: u128): Tick {
      this.(outside0 := WrapSub(growth0, outside0), outside1 := WrapSub(growth1, outside1))
    }
  }

  const EMPTY_TICK: Tick := Tick(0, 0, 0, 0)

  // ---- account records ----

  datatype PoolData = PoolData(
    feePips: nat,
    spacing: pos,
    tick: int,
    price: sqrtprice,
    liquidity: u128,
    growth0: u128,
    growth1: u128)

  datatype PositionData = PositionData(
    open: bool,
    lower: int,
    upper: int,
    liquidity: u128,
    inside0Last: u128,
    inside1Last: u128,
    owed0: u64,
    owed1: u64)
  {
    /** Credit the fees earned since the last checkpoint, then re-checkpoint. */
    function UpdateFees(inside0: u128, inside1: u128): Result<PositionData> {
      var earned0 :- FeesOwed(liquidity, inside0, inside0Last);
      var earned1 :- FeesOwed(liquidity, inside1, inside1Last);
      var credit0 :- ToU64(earned0);
      var credit1 :- ToU64(earned1);
      var total0 :- ToU64(owed0 + credit0);
      var total1 :- ToU64(owed1 + credit1);
      Ok(this.(owed0 := total0, owed1 := total1, inside0Last := inside0, inside1Last := inside1))
    }
  }

  /** The (fee, spacing) pairs a pool may be created with. */
  predicate IsTier(feePips: nat, spacing: nat) {
    (feePips == 500 && spacing == 8) || (feePips == 3000 && spacing == 64) || (feePips == 10000 && spacing == 128)
  }

  /** Is `tick` a usable bound? */
  function CheckTick(tick: int, spacing: pos): Result<()> {
    if !(MIN_TICK <= tick <= MAX_TICK) then Err(TickOutOfBounds)
    else if tick % spacing != 0 then Err(InvalidTickRange)
    else Ok(())
  }

  // ---- tick-array geometry ----

  function Span(spacing: pos): pos {
    TICK_ARRAY_SIZE * spacing
  }

  /** Start of the array holding `tick`; Dafny's `/` is `div_euclid`. */
  function StartIndex(tick: int, spacing: pos): int {
    tick / Span(spacing) * Span(spacing)
  }

  /** Slot of `tick` in the array that starts at `start`. */
  function TickSlot(start: int, spacing: pos, tick: int): (r: Result<nat>)
    ensures r.Ok? ==> r.value < TICK_ARRAY_SIZE && start + r.value * spacing == tick
    ensures (tick - start) % spacing == 0 && start <= tick < start + Span(spacing) ==> r.Ok?
  {
    var rel := tick - start;
    if rel % spacing != 0 then Err(InvalidTickRange)
    else
      assert rel == rel / spacing * spacing;
      var slot := rel / spacing;
      assert 0 <= rel < TICK_ARRAY_SIZE * spacing ==> 0 <= slot < TICK_ARRAY_SIZE by {
        assert slot < 0 ==> slot * spacing < 0;
        assert slot >= TICK_ARRAY_SIZE ==> slot * spacing >= TICK_ARRAY_SIZE * spacing;
      }
      if 0 <= slot < TICK_ARRAY_SIZE then Ok(slot) else Err(TickOutOfBounds)
  }

  // ---- windows of tick arrays, in walk order ----

  /** Arrays adjacent in the walk direction, the first one holding `tick`. */
  predicate Chained(starts: seq<int>, spacing: pos, tick: int, down: bool) {
    && starts != []
    && starts[0] == StartIndex(tick, spacing)
    && forall i :: 1 <= i < |starts| ==>
         starts[i] == (if down then starts[i - 1] - Span(spacing) else starts[i - 1] + Span(spacing))
  }

  function LowEnd(starts: seq<int>, down: bool): int
    requires starts != []
  {
    if down then starts[|starts| - 1] else starts[0]
  }

  function HighEnd(starts: seq<int>, spacing: pos, down: bool): int
    requires starts != []
  {
    (if down then starts[0] else starts[|starts| - 1]) + Span(spacing)
  }

  lemma {:induction false} ChainStarts(starts: seq<int>, spacing: pos, tick: int, down: bool, i: int)
    requires Chained(starts, spacing, tick, down) && 0 <= i < |starts|
    ensures starts[i] == starts[0] + (if down then -i else i) * Span(spacing)
  {
    if i > 0 {
      ChainStarts(starts, spacing, tick, down, i - 1);
      ScaleStep(i - 1, Span(spacing));
    }
  }

  lemma SameBlock(i: int, j: int, span: pos, x: int)
    requires i * span <= x < i * span + span && j * span <= x < j * span + span
    ensures i == j
  {
    assert (i + 1) * span == i * span + span && (j + 1) * span == j * span + span;
    Strict(i, j + 1, span);
    Strict(j, i + 1, span);
  }

  /** An aligned array holds a tick exactly when the tick's start index is its own. */
  lemma InSpan(start: int, spacing: pos, t: int)
    requires StartIndex(start, spacing) == start
    ensures start <= t < start + Span(spacing) <==> StartIndex(t, spacing) == start
  {
    var span := Span(spacing);
    FloorAligned(t, span);
    if start <= t < start + span {
      SameBlock(start / span, t / span, span, t);
    }
  }

  /** The window is aligned and holds the tick it was chosen for. */
  lemma ChainAligned(starts: seq<int>, spacing: pos, tick: int, down: bool)
    requires Chained(starts, spacing, tick, down)
    ensures LowEnd(starts, down) % spacing == 0 && HighEnd(starts, spacing, down) % spacing == 0
    ensures LowEnd(starts, down) <= tick < HighEnd(starts, spacing, down)
    ensures forall i :: 0 <= i < |starts| ==> starts[i] % spacing == 0
  {
    var n := |starts|;
    forall i | 0 <= i < n ensures starts[i] % spacing == 0 {
      ChainStarts(starts, spacing, tick, down, i);
      ArrayAligned(tick / Span(spacing), if down then -i else i, spacing);
    }
    SpanAligned(starts[0], spacing);
    SpanAligned(starts[n - 1], spacing);
    ChainStarts(starts, spacing, tick, down, n - 1);
    FloorAligned(tick, Span(spacing));
    ScaleSign(n - 1, Span(spacing));
  }

  lemma ScaleSign(i: int, span: pos)
    requires 0 <= i
    ensures i * span >= 0 && -i * span <= 0
  {
  }

  lemma ArrayAligned(f: int, k: int, spacing: pos)
    ensures (f * Span(spacing) + k * Span(spacing)) % spacing == 0
  {
    var m := (f + k) * TICK_ARRAY_SIZE;
    assert f * Span(spacing) + k * Span(spacing) == m * spacing;
    MultipleAligned(m, spacing);
  }

  lemma SpanAligned(a: int, spacing: pos)
    requires a % spacing == 0
    ensures (a + Span(spacing)) % spacing == 0
  {
    assert a == a / spacing * spacing;
    assert a + Span(spacing) == (a / spacing + TICK_ARRAY_SIZE) * spacing;
    MultipleAligned(a / spacing + TICK_ARRAY_SIZE, spacing);
  }

  lemma DifferenceAligned(a: int, b: int, spacing: pos)
    requires a % spacing == 0 && b % spacing == 0
    ensures (a - b) % spacing == 0
  {
    assert a - b == (a / spacing - b / spacing) * spacing;
    MultipleAligned(a / spacing - b / spacing, spacing);
  }

  /** Which array of the walk order holds `tick`. */
  function ArrayIndex(first: int, spacing: pos, down: bool, tick: int): int {
    var start := StartIndex(tick, spacing);
    (if down then first - start else start - first) / Span(spacing)
  }

  /** Inside a validated window the index is in range and names the array that holds the tick. */
  lemma IndexInWindow(starts: seq<int>, spacing: pos, at: int, down: bool, tick: int)
    requires Chained(starts, spacing, at, down)
    requires LowEnd(starts, down) <= tick < HighEnd(starts, spacing, down)
    ensures 0 <= ArrayIndex(starts[0], spacing, down, tick) < |starts|
    ensures starts[ArrayIndex(starts[0], spacing, down, tick)] == StartIndex(tick, spacing)
  {
    var span, n := Span(spacing), |starts|;
    var f, q := at / span, tick / span;
    FloorAligned(tick, span);
    FloorAligned(at, span);
    ChainStarts(starts, spacing, at, down, n - 1);
    IndexArithmetic(f, q, n, span, tick, down);
    ChainStarts(starts, spacing, at, down, if down then f - q else q - f);
  }

  lemma IndexArithmetic(f: int, q: int, n: pos, span: pos, tick: int, down: bool)
    requires q * span <= tick < q * span + span
    requires if down then f * span + -(n - 1) * span <= tick < f * span + span
             else f * span <= tick < f * span + (n - 1) * span + span
    ensures var idx := if down then f - q else q - f;
      0 <= idx < n && (if down then f * span - q * span else q * span - f * span) == idx * span
          && idx * span / span == idx
      && (if down then f * span + -idx * span else f * span + idx * span) == q * span
  {
    ScaleStep(q, span);
    ScaleStep(f, span);
    NegatedProduct(q, span);
    NegatedProduct(f, span);
    if down {
      SumOfMultiples(f, -(n - 1), span);
      Strict(f - (n - 1), q + 1, span);
      Strict(q, f + 1, span);
      SumOfMultiples(f, -q, span);
      SumOfMultiples(f, -(f - q), span);
      QuotientOfMultiple(f - q, span);
    } else {
      Strict(f, q + 1, span);
      SumOfMultiples(f, n - 1, span);
      ScaleStep(f + (n - 1), span);
      Strict(q, f + n, span);
      SumOfMultiples(q, -f, span);
      SumOfMultiples(f, q - f, span);
      QuotientOfMultiple(q - f, span);
    }
  }

  lemma QuotientOfMultiple(k: int, d: pos)
    ensures k * d / d == k
  {
    var x := k * d;
    RemainderOf(x, d);
    WholeRemainder(k, x / d, x % d, d);
  }

  lemma OwnSlot(tick: int, spacing: pos)
    requires tick % spacing == 0
    ensures TickSlot(StartIndex(tick, spacing), spacing, tick).Ok?
  {
    var start := StartIndex(tick, spacing);
    FloorAligned(tick, Span(spacing));
    ArrayAligned(tick / Span(spacing), 0, spacing);
    DifferenceAligned(tick, start, spacing);
  }

  lemma SlotInSpan(start: int, spacing: pos, tick: int)
    requires TickSlot(start, spacing, tick).Ok?
    ensures start <= tick < start + Span(spacing)
  {
    var k := TickSlot(start, spacing, tick).value;
    MulMono(0, k, spacing);
    MulMono(k + 1, TICK_ARRAY_SIZE, spacing);
    ScaleStep(k, spacing);
  }

  lemma FloorAligned(tick: int, spacing: pos)
    ensures var a := tick / spacing * spacing; a <= tick < a + spacing && a % spacing == 0
  {
    var q := tick / spacing;
    assert tick == q * spacing + tick % spacing;
    MultipleAligned(q, spacing);
  }

  lemma MultipleAligned(k: int, spacing: pos)
    ensures (k * spacing) % spacing == 0
  {
    var x := k * spacing;
    RemainderOf(x, spacing);
    WholeRemainder(k, x / spacing, x % spacing, spacing);
  }

  lemma RemainderOf(x: int, d: pos)
    ensures x == x / d * d + x % d && 0 <= x % d < d
  {
  }

  lemma WholeRemainder(k: int, q: int, m: int, d: pos)
    requires k * d == q * d + m && 0 <= m < d
    ensures m == 0 && k == q
  {
    if k < q {
      MulMono(k + 1, q, d);
      ScaleStep(k, d);
    } else if q < k {
      MulMono(q + 1, k, d);
      ScaleStep(q, d);
    }
  }

  lemma AlignedStep(a: int, spacing: pos)
    requires a % spacing == 0
    ensures (a + spacing) % spacing == 0 && (a - spacing) % spacing == 0
  {
    var i := a / spacing;
    assert a == i * spacing;
    MultipleAligned(i + 1, spacing);
    MultipleAligned(i - 1, spacing);
    assert (i + 1) * spacing == a + spacing && (i - 1) * spacing == a - spacing;
  }

  lemma AlignedIsMultiple(a: int, spacing: pos)
    requires a % spacing == 0
    ensures a == a / spacing * spacing
  {
  }

  /** Two different aligned ticks are at least one spacing apart. */
  lemma AlignedApart(a: int, b: int, spacing: pos)
    requires a % spacing == 0 && b % spacing == 0 && a < b
    ensures a + spacing <= b
  {
    AlignedIsMultiple(a, spacing);
    AlignedIsMultiple(b, spacing);
    MultiplesApart(a / spacing, b / spacing, spacing);
  }

  lemma MultiplesApart(i: int, j: int, k: pos)
    requires i * k < j * k
    ensures i * k + k <= j * k
  {
    Strict(i, j, k);
    MulMono(i + 1, j, k);
    ScaleStep(i, k);
  }

  lemma Strict(i: int, j: int, k: pos)
    requires i * k < j * k
    ensures i < j
  {
    if j <= i {
      MulMono(j, i, k);
    }
  }
}
