/** When a change of liquidity succeeds: exactly when its arguments make sense and the exact
    principal lies within the caller's bounds. No other check of the program can fail. */
module Deciding {
  import opened Numbers
  import opened Ticks
  import opened Ledger
  import opened FeeGrowth
  import opened Principal
  import opened Liquidity
  import opened Changes
  import opened Density
  import opened Book
  import opened Invariant
  import opened Reachable
  import opened Leaving
  import opened SwapMath

  const HALF: int := 0x8000_0000_0000_0000_0000_0000_0000_0000

  // ---- sums after the change ----

  lemma {:induction false} GrossWithin(ps: seq<PositionData>, t: int)
    requires forall i :: 0 <= i < |ps| && ps[i].liquidity > 0 ==> ps[i].lower < ps[i].upper
    ensures 0 <= Sum(ps, Gross(t)) <= Sum(ps, All)
  {
    if ps != [] {
      GrossWithin(ps[..|ps| - 1], t);
    }
  }

  lemma {:induction false} ActiveWithin(ps: seq<PositionData>, t: int)
    ensures 0 <= Sum(ps, Active(t)) <= Sum(ps, All)
  {
    if ps != [] {
      ActiveWithin(ps[..|ps| - 1], t);
    }
  }

  /** The amounts a change moves, exactly. */
  ghost function Exact(b: Book, i: nat, l: nat, zero: bool): real
    requires i < |b.positions|
  {
    Times(l, Unit(zero, b.positions[i], b.pool.price))
  }

  /** What is paid in bounds the liquidity added. */
  lemma StaysBounded(b: Book, a: Audit, i: nat, l: nat)
    requires Inv(b, a) && i < |b.positions| && b.positions[i].open
    requires b.vault0 as real + Exact(b, i, l, true) < Q64 as real
    requires b.vault1 as real + Exact(b, i, l, false) < Q64 as real
    ensures Sum(b.positions, All) + l < HALF
  {
    var s, price := Sum(b.positions, All), b.pool.price;
    assert Backed(b, a.purse0, true) && Backed(b, a.purse1, false);
    CoveredIsNonNegative(true, b.positions, price, b.vault0, a.purse0);
    CoveredIsNonNegative(false, b.positions, price, b.vault1, a.purse1);
    DenseTotal(b.positions, b.pool.feePips, b.pool.spacing, price);
    DenseChange(b, i, l);
    TimesAdd(s, l, LEAST);
    Below(s + l);
  }

  lemma DenseChange(b: Book, i: nat, l: nat)
    requires Sane(b) && i < |b.positions| && b.positions[i].open
    ensures Times(l, LEAST) <= Exact(b, i, l, true) + Exact(b, i, l, false)
  {
    var p, price := b.positions[i], b.pool.price;
    UnitIsDense(p, b.pool.feePips, b.pool.spacing, price);
    TimesMono(l, LEAST, Unit0(p, price) + Unit1(p, price));
    TimesSub(l, Unit0(p, price) + Unit1(p, price), Unit1(p, price));
  }

  lemma Below(l: int)
    requires Times(l, LEAST) < 2.0 * Q64 as real
    ensures l < HALF
  {
    TimesIs(l, LEAST);
  }

  // ---- the engine's checks ----

  function Changed(p: PositionData, delta: i128): PositionData
    requires 0 <= p.liquidity + delta < TWO_128
  {
    p.(liquidity := p.liquidity + delta)
  }

  /** A bound takes the delta; what is outside stays unless the bound is new. */
  lemma BoundTakes(pool: PoolData, ps: seq<PositionData>, i: nat, ticks: map<int, Tick>, starts: seq<int>, tick: int,
        isUpper: bool, delta: i128)
    requires TicksMatch(ticks, ps, pool.spacing) && i < |ps| && Sound(ps[i], pool.spacing) && tick in ticks
    requires 0 <= ps[i].liquidity + delta && Sum(ps, All) < HALF && Sum(ps, All) + delta < HALF
    requires tick == (if isUpper then ps[i].upper else ps[i].lower) && StartIndex(tick, pool.spacing) in starts
    ensures var r := UpdateBound(pool, ticks, starts, tick, isUpper, delta);
      && r.Ok?
      && (0 < ps[i].liquidity ==>
            r.value.0.outside0 == ticks[tick].outside0 && r.value.0.outside1 == ticks[tick].outside1)
  {
    SumBounds(ps, All, i);
    var after := ps[i := Changed(ps[i], delta)];
    OwnSlot(tick, pool.spacing);
    SumBounds(ps, Gross(tick), i);
    GrossWithin(ps, tick);
    SumUpdate(ps, i, after[i], Net(tick));
    SumUpdate(ps, i, after[i], All);
    NetWithin(after, tick);
    TickTakes(ticks[tick], ps[i].liquidity, delta, isUpper, tick, pool);
  }

  lemma TickTakes(t: Tick, liquidity: nat, delta: i128, isUpper: bool, index: int, pool: PoolData)
    requires liquidity <= t.gross <= HALF && 0 <= liquidity + delta
    requires -HALF <= (if isUpper then t.net - delta else t.net + delta) < HALF
    ensures var r := t.Update(delta, isUpper, index, pool.tick, pool.growth0, pool.growth1);
      r.Ok? && (0 < liquidity ==> r.value.0.outside0 == t.outside0 && r.value.0.outside1 == t.outside1)
  {
  }

  /** Crediting never overflows: an empty position earns nothing, a live one within the vault. */
  lemma CreditWorks(b: Book, a: Audit, i: nat, inside0: u128, inside1: u128)
    requires Inv(b, a) && b.vault0 < Q64 && b.vault1 < Q64 && i < |b.positions|
    requires 0 < b.positions[i].liquidity ==>
      && b.positions[i].lower in b.ticks && b.positions[i].upper in b.ticks
      && inside0 == Inside(b.ticks, b.positions[i], b.pool.tick, b.pool.growth0, true)
      && inside1 == Inside(b.ticks, b.positions[i], b.pool.tick, b.pool.growth1, false)
    ensures b.positions[i].UpdateFees(inside0, inside1).Ok?
  {
    var p := b.positions[i];
    if 0 < p.liquidity {
      CreditFits(b, a.purse0, true, i);
      CreditFits(b, a.purse1, false, i);
    } else {
      NoCredit(WrapSub(inside0, p.inside0Last));
      NoCredit(WrapSub(inside1, p.inside1Last));
    }
    FeesUpdate(p, inside0, inside1);
  }

  lemma NoCredit(growth: nat)
    ensures DivFloor(0 * growth, Q64) == 0
  {
  }

  /** The rounded amounts are within an integer exactly when the exact ones are. */
  lemma WithinInteger(a: int, exact: real, bound: int)
    ensures RoundedUp(a, exact) ==> (a <= bound <==> exact <= bound as real)
    ensures RoundedDown(a, exact) ==> (bound <= a <==> bound as real <= exact)
  {
  }

  /** Both bounds can be read from the supplied arrays, of which there are one or two. */
  predicate Supplied(b: Book, p: PositionData, starts: seq<int>) {
    && 1 <= |starts| <= 2 && (forall s :: s in starts ==> s in b.arrays)
    && p.lower / (88 * b.pool.spacing) * (88 * b.pool.spacing) in starts
    && p.upper / (88 * b.pool.spacing) * (88 * b.pool.spacing) in starts
  }

  /** The engine's part succeeds. */
  lemma ModifyWorks(b: Book, a: Audit, i: nat, delta: i128, starts: seq<int>)
    requires Inv(b, a) && b.vault0 < Q64 && b.vault1 < Q64 && i < |b.positions| && b.positions[i].open
    requires Supplied(b, b.positions[i], starts) && 0 <= b.positions[i].liquidity + delta
    requires Sum(b.positions, All) < HALF && Sum(b.positions, All) + delta < HALF
    requires Exact(b, i, Magnitude(delta), true) < Q64 as real && Exact(b, i, Magnitude(delta), false) < Q64 as real
    ensures WindowModify(b, b.positions[i], delta, starts).Ok?
    ensures var m := WindowModify(b, b.positions[i], delta, starts).value;
      && m.amount0 <= Q64 && m.amount1 <= Q64
      && RoundedTo(m.amount0, Exact(b, i, Magnitude(delta), true), delta >= 0)
      && RoundedTo(m.amount1, Exact(b, i, Magnitude(delta), false), delta >= 0)
  {
    var p := b.positions[i];
    var lower, upper := BoundsTake(b, i, delta, starts);
    SumBounds(b.positions, All, i);
    SettleWorks(b, a, i, lower, upper, delta);
    AmountsWork(b, i, Magnitude(delta), delta >= 0);
    ModifyIs(b.pool, p, b.ticks, starts, delta);
  }

  /** Both bounds, one after the other. */
  lemma BoundsTake(b: Book, i: nat, delta: i128, starts: seq<int>) returns (lower: Tick, upper: Tick)
    requires Sane(b) && i < |b.positions| && b.positions[i].open && Supplied(b, b.positions[i], starts)
    requires 0 <= b.positions[i].liquidity + delta
    requires Sum(b.positions, All) < HALF && Sum(b.positions, All) + delta < HALF
    ensures b.positions[i].lower in b.ticks && b.positions[i].upper in b.ticks
    ensures var p := b.positions[i];
      && UpdateBound(b.pool, b.ticks, starts, p.lower, false, delta).Ok?
      && UpdateBound(b.pool, b.ticks, starts, p.lower, false, delta).value.0 == lower
      && UpdateBound(b.pool, b.ticks[p.lower := lower], starts, p.upper, true, delta).Ok?
      && UpdateBound(b.pool, b.ticks[p.lower := lower], starts, p.upper, true, delta).value.0 == upper
    ensures 0 < b.positions[i].liquidity ==>
      var was, was' := b.ticks[b.positions[i].lower], b.ticks[b.positions[i].upper];
      && lower.outside0 == was.outside0 && lower.outside1 == was.outside1
      && upper.outside0 == was'.outside0 && upper.outside1 == was'.outside1
  {
    var p := b.positions[i];
    assert Stored(b, p.lower) && Stored(b, p.upper);
    BoundTakes(b.pool, b.positions, i, b.ticks, starts, p.lower, false, delta);
    BoundTakes(b.pool, b.positions, i, b.ticks, starts, p.upper, true, delta);
    lower := UpdateBound(b.pool, b.ticks, starts, p.lower, false, delta).value.0;
    upper := UpdateBound(b.pool, b.ticks, starts, p.upper, true, delta).value.0;
    assert UpdateBound(b.pool, b.ticks[p.lower := lower], starts, p.upper, true, delta)
        == UpdateBound(b.pool, b.ticks, starts, p.upper, true, delta);
  }

  lemma SettleWorks(b: Book, a: Audit, i: nat, lower: Tick, upper: Tick, delta: i128)
    requires Inv(b, a) && b.vault0 < Q64 && b.vault1 < Q64 && i < |b.positions| && b.positions[i].open
    requires 0 <= b.positions[i].liquidity + delta < TWO_128
    requires Sum(b.positions, All) < HALF && Sum(b.positions, All) + delta < HALF
    requires b.positions[i].lower in b.ticks && b.positions[i].upper in b.ticks
    requires 0 < b.positions[i].liquidity ==>
      var was, was' := b.ticks[b.positions[i].lower], b.ticks[b.positions[i].upper];
      && lower.outside0 == was.outside0 && lower.outside1 == was.outside1
      && upper.outside0 == was'.outside0 && upper.outside1 == was'.outside1
    ensures Settle(b.pool, b.positions[i], lower, upper, b.positions[i].liquidity + delta, delta).Ok?
  {
    var p := b.positions[i];
    CreditWorks(b, a, i,
      FeeGrowthInside(p.lower, p.upper, b.pool.tick, b.pool.growth0, lower.outside0, upper.outside0),
      FeeGrowthInside(p.lower, p.upper, b.pool.tick, b.pool.growth1, lower.outside1, upper.outside1));
    SumBounds(b.positions, Active(b.pool.tick), i);
    ActiveWithin(b.positions, b.pool.tick);
  }

  lemma AmountsWork(b: Book, i: nat, l: u128, up: bool)
    requires Sane(b) && i < |b.positions| && b.positions[i].open
    requires Exact(b, i, l, true) < Q64 as real && Exact(b, i, l, false) < Q64 as real
    ensures var p := b.positions[i];
      var r := AmountsFor(b.pool.price, b.pool.tick, p.lower, p.upper, l, up);
      && r.Ok? && r.value.0 <= Q64 && r.value.1 <= Q64
      && RoundedTo(r.value.0, Exact(b, i, l, true), up) && RoundedTo(r.value.1, Exact(b, i, l, false), up)
  {
    var p := b.positions[i];
    AmountsForIs(b.pool.price, b.pool.tick, p.lower, p.upper, l, up);
    AmountsAreRounded(p, b.pool.price, b.pool.tick, l, up);
    var amounts := Amounts(b.pool.price, b.pool.tick, p.lower, p.upper, BandPrice(p.lower), BandPrice(p.upper), l, up);
    WithinInteger(amounts.0, Exact(b, i, l, true), Q64);
    WithinInteger(amounts.1, Exact(b, i, l, false), Q64);
  }

  // ---- the two instructions ----

  /** A change that went through was supplied with its arrays. */
  lemma WasSupplied(b: Book, i: nat, delta: i128, bound0: u64, bound1: u64, starts: seq<int>)
    requires Sane(b) && ApplyModifyLiquidity(b, i, delta, bound0, bound1, starts).Ok?
    ensures i < |b.positions| && b.positions[i].open && Supplied(b, b.positions[i], starts)
    ensures 0 <= b.positions[i].liquidity + delta
  {
    ModifyLeaves(b, i, delta, bound0, bound1, starts);
    ModifyIs(b.pool, b.positions[i], b.ticks, starts, delta);
  }

  /** The bounds and the transfers, on amounts that pack. */
  lemma Exchanges(b: Book, i: nat, m: Modified, delta: i128, bound0: u64, bound1: u64)
    requires i < |b.positions| && (delta < 0 ==> m.amount0 <= b.vault0 < Q64 && m.amount1 <= b.vault1 < Q64)
    ensures Exchanged(b, i, m, delta, bound0, bound1).Ok? <==>
      if delta >= 0 then m.amount0 <= bound0 && m.amount1 <= bound1 else bound0 <= m.amount0 && bound1 <= m.amount1
  {
  }

  /** Adding liquidity succeeds if and only if the position is open, its arrays are supplied and
      the exact principal added is within the caps - in every coherent state in which the vaults
      go on holding 64-bit amounts. */
  lemma IncreaseDecides(b: Book, a: Audit, i: nat, l: u128, max0: u64, max1: u64, starts: seq<int>)
    requires Inv(b, a) && b.vault0 < Q64 && b.vault1 < Q64
    requires i < |b.positions| ==>
      && b.vault0 as real + Exact(b, i, l, true) < Q64 as real && b.vault1 as real + Exact(b, i, l, false) < Q64 as real
    ensures Apply(b, IncreaseLiquidity(i, l, max0, max1, starts)).Ok? <==>
      && i < |b.positions| && b.positions[i].open && Supplied(b, b.positions[i], starts)
      && Exact(b, i, l, true) <= max0 as real && Exact(b, i, l, false) <= max1 as real
  {
    if i < |b.positions| && b.positions[i].open {
      StaysBounded(b, a, i, l);
      SumBounds(b.positions, All, i);
      if Supplied(b, b.positions[i], starts) {
        IncreaseWithin(b, a, i, l, max0, max1, starts);
      }
    }
    if ToI128(l).Ok? && ApplyModifyLiquidity(b, i, l, max0, max1, starts).Ok? {
      WasSupplied(b, i, l, max0, max1, starts);
    }
  }

  lemma IncreaseWithin(b: Book, a: Audit, i: nat, l: u128, max0: u64, max1: u64, starts: seq<int>)
    requires Inv(b, a) && b.vault0 < Q64 && b.vault1 < Q64 && i < |b.positions| && b.positions[i].open
    requires Supplied(b, b.positions[i], starts) && l < HALF && Sum(b.positions, All) + l < HALF
    requires Exact(b, i, l, true) < Q64 as real && Exact(b, i, l, false) < Q64 as real
    ensures ApplyModifyLiquidity(b, i, l, max0, max1, starts).Ok? <==>
      Exact(b, i, l, true) <= max0 as real && Exact(b, i, l, false) <= max1 as real
  {
    ModifyWorks(b, a, i, l, starts);
    var m := WindowModify(b, b.positions[i], l, starts).value;
    Exchanges(b, i, m, l, max0, max1);
    WithinInteger(m.amount0, Exact(b, i, l, true), max0);
    WithinInteger(m.amount1, Exact(b, i, l, false), max1);
  }

  /** Removing liquidity succeeds if and only if the position is open and holds it, its arrays
      are supplied and the exact principal removed reaches the floors; removing nothing pays
      nothing and ignores them. */
  lemma DecreaseDecides(b: Book, a: Audit, i: nat, l: u128, min0: u64, min1: u64, starts: seq<int>)
    requires Inv(b, a) && b.vault0 < Q64 && b.vault1 < Q64
    ensures Apply(b, DecreaseLiquidity(i, l, min0, min1, starts)).Ok? <==>
      && i < |b.positions| && b.positions[i].open && l <= b.positions[i].liquidity
      && Supplied(b, b.positions[i], starts)
      && (l == 0 || (min0 as real <= Exact(b, i, l, true) && min1 as real <= Exact(b, i, l, false)))
  {
    LiquidityBounded(b, a);
    if i < |b.positions| && b.positions[i].open && l <= b.positions[i].liquidity {
      SumBounds(b.positions, All, i);
      PartIsHeld(b, a, i, l);
      if Supplied(b, b.positions[i], starts) {
        DecreaseWithin(b, a, i, l, min0, min1, starts);
      }
    }
    if ToI128(l).Ok? && ApplyModifyLiquidity(b, i, Minus(l), min0, min1, starts).Ok? {
      WasSupplied(b, i, Minus(l), min0, min1, starts);
    }
  }

  /** Part of a position's principal is at most all of it, which the vaults hold. */
  lemma PartIsHeld(b: Book, a: Audit, i: nat, l: nat)
    requires Inv(b, a) && i < |b.positions| && b.positions[i].open && l <= b.positions[i].liquidity
    ensures Exact(b, i, l, true) <= b.vault0 as real && Exact(b, i, l, false) <= b.vault1 as real
  {
    assert Backed(b, a.purse0, true) && Backed(b, a.purse1, false);
    CoveredIsNonNegative(true, b.positions, b.pool.price, b.vault0, a.purse0);
    CoveredIsNonNegative(false, b.positions, b.pool.price, b.vault1, a.purse1);
    TotalBounds(true, b.positions, b.pool.price);
    TotalBounds(false, b.positions, b.pool.price);
    PartBelow(b, i, l, true);
    PartBelow(b, i, l, false);
  }

  lemma PartBelow(b: Book, i: nat, l: nat, zero: bool)
    requires Sane(b) && i < |b.positions| && b.positions[i].open && l <= b.positions[i].liquidity
    ensures Exact(b, i, l, zero) <= Times(b.positions[i].liquidity, Unit(zero, b.positions[i], b.pool.price))
  {
    var p := b.positions[i];
    var u := Unit(zero, p, b.pool.price);
    UnitNonNegative(zero, p, b.pool.price);
    TimesAdd(l, p.liquidity - l, u);
    TimesMono(p.liquidity - l, 0.0, u);
    TimesSub(p.liquidity - l, u, 0.0);
  }

  lemma DecreaseWithin(b: Book, a: Audit, i: nat, l: u128, min0: u64, min1: u64, starts: seq<int>)
    requires Inv(b, a) && b.vault0 < Q64 && b.vault1 < Q64 && i < |b.positions| && b.positions[i].open
    requires Supplied(b, b.positions[i], starts) && l <= b.positions[i].liquidity && l < HALF
    requires Sum(b.positions, All) < HALF
    requires Exact(b, i, l, true) <= b.vault0 as real && Exact(b, i, l, false) <= b.vault1 as real
    ensures ApplyModifyLiquidity(b, i, Minus(l), min0, min1, starts).Ok? <==>
      l == 0 || (min0 as real <= Exact(b, i, l, true) && min1 as real <= Exact(b, i, l, false))
  {
    ModifyWorks(b, a, i, Minus(l), starts);
    var m := WindowModify(b, b.positions[i], Minus(l), starts).value;
    if l == 0 {
      TimesSub(0, Unit0(b.positions[i], b.pool.price), 0.0);
      TimesSub(0, Unit1(b.positions[i], b.pool.price), 0.0);
    }
    WithinInteger(m.amount0, Exact(b, i, l, true), min0);
    WithinInteger(m.amount1, Exact(b, i, l, false), min1);
    Exchanges(b, i, m, Minus(l), min0, min1);
  }
}
