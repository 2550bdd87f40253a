/** Adding liquidity and taking it out again. */
module Undo {
  import opened Numbers
  import opened Ticks
  import opened Liquidity
  import opened SwapMath

  /** A bound after the increase gives the same amount back. */
  lemma BoundUndone(t: Tick, u: Tick, flipped: bool, delta: i128, isUpper: bool, index: int, current: int, g0: u128,
        g1: u128)
    requires 0 < delta && t.Update(delta, isUpper, index, current, g0, g1) == Ok((u, flipped))
    ensures var r := u.Update(-delta, isUpper, index, current, g0, g1);
      && u.Initialized() && r.Ok?
      && r.value.0.gross == t.gross && r.value.0.net == t.net
      && r.value.0.outside0 == u.outside0 && r.value.0.outside1 == u.outside1
  {
  }

  /** The amounts given back: never more than was taken, at most one unit less. */
  lemma AmountsUndone(price: sqrtprice, tick: int, lower: int, upper: int, liquidity: nat)
    requires AmountsFor(price, tick, lower, upper, liquidity, true).Ok?
    ensures var up, down := AmountsFor(price, tick, lower, upper, liquidity, true),
        AmountsFor(price, tick, lower, upper, liquidity, false);
      && down.Ok?
      && 0 <= up.value.0 - down.value.0 <= 1
      && 0 <= up.value.1 - down.value.1 <= 1
  {
    AmountsForIs(price, tick, lower, upper, liquidity, true);
    AmountsForIs(price, tick, lower, upper, liquidity, false);
    var sl, su := Principal.BandPrice(lower), Principal.BandPrice(upper);
    RoundingGap(sl, su, liquidity);
    RoundingGap(price, su, liquidity);
    RoundingGap(sl, price, liquidity);
  }

  /** At an unchanged inside growth nothing is credited. */
  lemma NothingNew(p: PositionData)
    ensures p.UpdateFees(p.inside0Last, p.inside1Last) == Ok(p)
  {
  }

  /** The second change finds each bound as the first one left it. */
  lemma BoundGivesBack(pool: PoolData, after: PoolData, ticks: map<int, Tick>, left: map<int, Tick>, starts: seq<int>,
        t: int, isUpper: bool, delta: i128)
    requires 0 < delta && UpdateBound(pool, ticks, starts, t, isUpper, delta).Ok?
    requires after == pool.(liquidity := after.liquidity)
    requires t in left && left[t] == UpdateBound(pool, ticks, starts, t, isUpper, delta).value.0
    ensures t in ticks && left[t].Initialized()
    ensures var r := UpdateBound(after, left, starts, t, isUpper, -delta);
      && r.Ok?
      && r.value.0.gross == ticks[t].gross && r.value.0.net == ticks[t].net
      && r.value.0.outside0 == left[t].outside0 && r.value.0.outside1 == left[t].outside1
  {
    var (u, flipped) := UpdateBound(pool, ticks, starts, t, isUpper, delta).value;
    BoundUndone(ticks[t], u, flipped, delta, isUpper, t, pool.tick, pool.growth0, pool.growth1);
  }

  predicate SameOutside(t: Tick, u: Tick) {
    t.outside0 == u.outside0 && t.outside1 == u.outside1
  }

  /** The second settlement credits nothing and takes the liquidity back out. */
  lemma SettleGivesBack(pool: PoolData, p: PositionData, lower: Tick, upper: Tick, lower': Tick, upper': Tick,
        liquidity: u128, delta: i128)
    requires Settle(pool, p, lower, upper, liquidity, delta).Ok? && SameOutside(lower, lower')
        && SameOutside(upper, upper')
    ensures var (after, q) := Settle(pool, p, lower, upper, liquidity, delta).value;
      && after == pool.(liquidity := after.liquidity)
      && q.lower == p.lower && q.upper == p.upper && q.liquidity == liquidity
      && (delta > 0 ==>
            Settle(after, q, lower', upper', p.liquidity, -delta) == Ok((pool, q.(liquidity := p.liquidity))))
  {
    var (after, q) := Settle(pool, p, lower, upper, liquidity, delta).value;
    NothingNew(q);
  }

  /** The first change, taken apart: nothing dies when liquidity comes in. */
  lemma IncreaseParts(pool: PoolData, p: PositionData, ticks: map<int, Tick>, starts: seq<int>, delta: i128)
    requires 0 < delta && p.lower < p.upper && Modify(pool, p, ticks, starts, delta).Ok?
    ensures AddDelta(p.liquidity, delta).Ok? && UpdateBound(pool, ticks, starts, p.lower, false, delta).Ok?
    ensures UpdateBound(pool, ticks, starts, p.upper, true, delta).Ok?
    ensures var m := Modify(pool, p, ticks, starts, delta).value;
      var lower := UpdateBound(pool, ticks, starts, p.lower, false, delta).value.0;
      var upper := UpdateBound(pool, ticks, starts, p.upper, true, delta).value.0;
      && p.lower in ticks && p.upper in ticks && m.ticks == ticks[p.lower := lower][p.upper := upper]
      && Settle(pool, p, lower, upper, AddDelta(p.liquidity, delta).value, delta) == Ok((m.pool, m.position))
      && AmountsFor(pool.price, pool.tick, p.lower, p.upper, delta, true) == Ok((m.amount0, m.amount1))
  {
    ModifyIs(pool, p, ticks, starts, delta);
  }

  /** The second change, put together from what its parts give. */
  lemma DecreaseWhole(pool: PoolData, p: PositionData, ticks: map<int, Tick>, starts: seq<int>, delta: i128,
        liquidity: u128, lower: Tick, upper: Tick, poolAfter: PoolData, positionAfter: PositionData)
    requires 0 < delta && p.lower < p.upper && p.lower in ticks && p.upper in ticks
        && AddDelta(p.liquidity, -delta) == Ok(liquidity)
    requires UpdateBound(pool, ticks, starts, p.lower, false, -delta).Ok?
        && UpdateBound(pool, ticks, starts, p.upper, true, -delta).Ok?
    requires UpdateBound(pool, ticks, starts, p.lower, false, -delta).value.0 == lower
    requires UpdateBound(pool, ticks, starts, p.upper, true, -delta).value.0 == upper
    requires Settle(pool, p, lower, upper, liquidity, -delta) == Ok((poolAfter, positionAfter))
    requires AmountsFor(pool.price, pool.tick, p.lower, p.upper, delta, false).Ok?
    ensures var r := Modify(pool, p, ticks, starts, -delta);
      && r.Ok? && r.value.pool == poolAfter && r.value.position == positionAfter && r.value.ticks.Keys == ticks.Keys
      && AmountsFor(pool.price, pool.tick, p.lower, p.upper, delta, false) == Ok((r.value.amount0, r.value.amount1))
      && r.value.ticks[p.lower].gross == lower.gross && r.value.ticks[p.lower].net == lower.net
      && r.value.ticks[p.upper].gross == upper.gross && r.value.ticks[p.upper].net == upper.net
      && (forall t :: t in ticks && t != p.lower && t != p.upper ==> r.value.ticks[t] == ticks[t])
  {
    ModifyIs(pool, p, ticks, starts, -delta);
  }

  /** Increasing by any amount and then decreasing by the same one always succeeds, restores
      the pool and both bounds, credits nothing whatever the global growth, and returns per
      token what was taken or one unit less. */
  lemma IncreaseThenDecrease(pool: PoolData, p: PositionData, ticks: map<int, Tick>, starts: seq<int>, delta: i128)
    requires 0 < delta && p.lower < p.upper && Modify(pool, p, ticks, starts, delta).Ok?
    ensures var m := Modify(pool, p, ticks, starts, delta).value;
      var r := Modify(m.pool, m.position, m.ticks, starts, -delta);
      && r.Ok?
      && r.value.pool == pool
      && r.value.position == m.position.(liquidity := p.liquidity)
      && r.value.ticks.Keys == ticks.Keys && p.lower in ticks && p.upper in ticks
      && (forall t :: t in ticks ==> r.value.ticks[t].gross == ticks[t].gross && r.value.ticks[t].net == ticks[t].net)
      && (forall t :: t in ticks && t != p.lower && t != p.upper ==> r.value.ticks[t] == ticks[t])
      && 0 <= m.amount0 - r.value.amount0 <= 1
      && 0 <= m.amount1 - r.value.amount1 <= 1
  {
    IncreaseParts(pool, p, ticks, starts, delta);
    var m := Modify(pool, p, ticks, starts, delta).value;
    var lower, upper := m.ticks[p.lower], m.ticks[p.upper];
    var liquidity := AddDelta(p.liquidity, delta).value;
    SettleGivesBack(pool, p, lower, upper, lower, upper, liquidity, delta);
    BoundGivesBack(pool, m.pool, ticks, m.ticks, starts, p.lower, false, delta);
    BoundGivesBack(pool, m.pool, ticks, m.ticks, starts, p.upper, true, delta);
    var lower' := UpdateBound(m.pool, m.ticks, starts, p.lower, false, -delta).value.0;
    var upper' := UpdateBound(m.pool, m.ticks, starts, p.upper, true, -delta).value.0;
    SettleGivesBack(pool, p, lower, upper, lower', upper', liquidity, delta);
    AmountsUndone(pool.price, pool.tick, p.lower, p.upper, delta);
    DecreaseWhole(m.pool, m.position, m.ticks, starts, delta, p.liquidity, lower', upper', pool,
        m.position.(liquidity := p.liquidity));
  }
}
