/** Adding and removing liquidity, as a function on values (clmm/src/engine.rs:
    `amounts_for_liquidity`, `modify_position`). `Engine.ModifyPosition` is the imperative form. */
module Liquidity {
  import opened Numbers
  import opened TickMath
  import opened Ticks
  import opened SwapWalk
  import opened Ledger
  import opened Coherence
  import opened Principal
  import opened SwapMath

  // ---- token amounts of a range at the pool's price ----

  function Amounts(price: sqrtprice, tick: int, lower: int, upper: int, sqrtLower: pos, sqrtUpper: pos, liquidity: nat,
        roundUp: bool): (nat, nat) {
    if tick < lower then (Amount0(sqrtLower, sqrtUpper, liquidity, roundUp), 0)
    else if tick < upper then (Amount0(price, sqrtUpper, liquidity, roundUp),
        Amount1(sqrtLower, price, liquidity, roundUp))
    else (0, Amount1(sqrtLower, sqrtUpper, liquidity, roundUp))
  }

  function Checked(a: (nat, nat)): Result<(u128, u128)> {
    var a0 :- ToU128(a.0);
    var a1 :- ToU128(a.1);
    Ok((a0, a1))
  }

  ghost function RawAmountsFor(price: sqrtprice, tick: int, lower: int, upper: int, liquidity: nat,
        roundUp: bool): Result<(u128, u128)> {
    if !(MIN_TICK <= lower <= MAX_TICK) || !(MIN_TICK <= upper <= MAX_TICK) then Err(TickOutOfBounds)
    else Checked(Amounts(price, tick, lower, upper, BandPrice(lower), BandPrice(upper), liquidity, roundUp))
  }

  ghost predicate IsAmountsFor(price: sqrtprice, tick: int, lower: int, upper: int, liquidity: nat, roundUp: bool,
        r: Result<(u128, u128)>) {
    forall t :: Unfold(t) && t == price ==> r == RawAmountsFor(price, tick, lower, upper, liquidity, roundUp)
  }

  /** `amounts_for_liquidity`, behind the guard. */
  ghost function AmountsFor(price: sqrtprice, tick: int, lower: int, upper: int, liquidity: nat,
        roundUp: bool): (r: Result<(u128, u128)>) {
    assert IsAmountsFor(price, tick, lower, upper, liquidity, roundUp,
        RawAmountsFor(price, tick, lower, upper, liquidity, roundUp));
    var r :| IsAmountsFor(price, tick, lower, upper, liquidity, roundUp, r);
    r
  }

  lemma AmountsForIs(price: sqrtprice, tick: int, lower: int, upper: int, liquidity: nat, roundUp: bool)
    ensures AmountsFor(price, tick, lower, upper, liquidity, roundUp)
        == RawAmountsFor(price, tick, lower, upper, liquidity, roundUp)
  {
    assert Unfold(price);
    assert IsAmountsFor(price, tick, lower, upper, liquidity, roundUp,
        AmountsFor(price, tick, lower, upper, liquidity, roundUp));
  }

  /** The amounts are the exact principal of `liquidity` in the range, rounded for the pool. */
  lemma AmountsAreRounded(p: PositionData, price: sqrtprice, tick: int, liquidity: nat, roundUp: bool)
    requires MIN_TICK <= p.lower < p.upper <= MAX_TICK && PriceTick(price, tick)
    ensures var a := Amounts(price, tick, p.lower, p.upper, BandPrice(p.lower), BandPrice(p.upper), liquidity, roundUp);
      && RoundedTo(a.0, Times(liquidity, Unit0(p, price)), roundUp)
      && RoundedTo(a.1, Times(liquidity, Unit1(p, price)), roundUp)
  {
    PriceMono(p.lower, p.upper);
    var sl, su := BandPrice(p.lower), BandPrice(p.upper);
    TimesSub(liquidity, 0.0, 0.0);
    if tick < p.lower {
      ClampedMono(tick + 1, p.lower);
      Amount0Rounds(sl, su, liquidity);
    } else if tick < p.upper {
      ClampedMono(p.lower, tick);
      ClampedMono(tick + 1, p.upper);
      Amount0Rounds(price, su, liquidity);
      Amount1Rounds(sl, price, liquidity);
    } else {
      ClampedMono(p.upper, tick);
      Amount1Rounds(sl, su, liquidity);
    }
  }

  lemma AmountsRound(p: PositionData, price: sqrtprice, tick: int, liquidity: nat, roundUp: bool)
    requires MIN_TICK <= p.lower < p.upper <= MAX_TICK && PriceTick(price, tick)
    requires AmountsFor(price, tick, p.lower, p.upper, liquidity, roundUp).Ok?
    ensures var a := AmountsFor(price, tick, p.lower, p.upper, liquidity, roundUp).value;
      && RoundedTo(a.0, Times(liquidity, Unit0(p, price)), roundUp)
      && RoundedTo(a.1, Times(liquidity, Unit1(p, price)), roundUp)
  {
    AmountsForIs(price, tick, p.lower, p.upper, liquidity, roundUp);
    AmountsAreRounded(p, price, tick, liquidity, roundUp);
  }

  ghost predicate RoundedTo(a: nat, exact: real, up: bool) {
    if up then RoundedUp(a, exact) else RoundedDown(a, exact)
  }

  // ---- the transition ----

  datatype Modified = Modified(pool: PoolData, position: PositionData, ticks: map<int, Tick>, amount0: u128,
        amount1: u128)

  /** The bound's tick after the delta, read from whichever supplied array starts where the
      tick's own array does. */
  function UpdateBound(pool: PoolData, ticks: map<int, Tick>, starts: seq<int>, tick: int, isUpper: bool,
        delta: i128): Result<(Tick, bool)> {
    var start := StartIndex(tick, pool.spacing);
    if start !in starts then Err(InvalidTickArraySequence)
    else
      var _ :- TickSlot(start, pool.spacing, tick);
      var t :- Lookup(ticks, tick);
      t.Update(delta, isUpper, tick, pool.tick, pool.growth0, pool.growth1)
  }

  function ClearDead(ticks: map<int, Tick>, tick: int, t: Tick, flipped: bool): map<int, Tick> {
    if flipped && !t.Initialized() then ticks[tick := t.Clear()] else ticks
  }

  function Magnitude(delta: i128): u128 {
    var d: int := delta;
    if d < 0 then -d else d
  }

  /** Fee snapshot at the updated bounds, then the delta on the position and, if its range is
      active, on the pool. */
  function Settle(pool: PoolData, p: PositionData, lower: Tick, upper: Tick, liquidity: u128,
        delta: i128): Result<(PoolData, PositionData)> {
    var inside0 := FeeGrowthInside(p.lower, p.upper, pool.tick, pool.growth0, lower.outside0, upper.outside0);
    var inside1 := FeeGrowthInside(p.lower, p.upper, pool.tick, pool.growth1, lower.outside1, upper.outside1);
    var credited :- p.UpdateFees(inside0, inside1);
    var active :- if p.lower <= pool.tick < p.upper then AddDelta(pool.liquidity, delta) else Ok(pool.liquidity);
    Ok((pool.(liquidity := active), credited.(liquidity := liquidity)))
  }

  /** Bounds first, then the fee snapshot, then the delta, and only then the clearing of a
      bound that died. */
  ghost function RawModify(pool: PoolData, p: PositionData, ticks: map<int, Tick>, starts: seq<int>,
        delta: i128): Result<Modified> {
    var liquidity :- AddDelta(p.liquidity, delta);
    var (lower, lowerFlipped) :- UpdateBound(pool, ticks, starts, p.lower, false, delta);
    var withLower := ticks[p.lower := lower];
    var (upper, upperFlipped) :- UpdateBound(pool, withLower, starts, p.upper, true, delta);
    var withBoth := withLower[p.upper := upper];
    var (poolAfter, positionAfter) :- Settle(pool, p, lower, upper, liquidity, delta);
    var cleared := ClearDead(ClearDead(withBoth, p.lower, lower, lowerFlipped), p.upper, upper, upperFlipped);
    var amounts :- AmountsFor(pool.price, pool.tick, p.lower, p.upper, Magnitude(delta), delta >= 0);
    Ok(Modified(poolAfter, positionAfter, cleared, amounts.0, amounts.1))
  }

  ghost predicate IsModify(pool: PoolData, p: PositionData, ticks: map<int, Tick>, starts: seq<int>, delta: i128,
        r: Result<Modified>) {
    forall t :: Unfold(t) && t == delta ==> r == RawModify(pool, p, ticks, starts, delta)
  }

  /** `modify_position`, behind the guard. */
  ghost function Modify(pool: PoolData, p: PositionData, ticks: map<int, Tick>, starts: seq<int>,
        delta: i128): (r: Result<Modified>) {
    assert IsModify(pool, p, ticks, starts, delta, RawModify(pool, p, ticks, starts, delta));
    var r :| IsModify(pool, p, ticks, starts, delta, r);
    r
  }

  lemma ModifyIs(pool: PoolData, p: PositionData, ticks: map<int, Tick>, starts: seq<int>, delta: i128)
    ensures Modify(pool, p, ticks, starts, delta) == RawModify(pool, p, ticks, starts, delta)
  {
    assert Unfold(delta);
    assert IsModify(pool, p, ticks, starts, delta, Modify(pool, p, ticks, starts, delta));
  }

  /** What a successful change does to the tick store. */
  lemma ModifyTicks(pool: PoolData, p: PositionData, ticks: map<int, Tick>, starts: seq<int>, delta: i128)
    requires p.lower < p.upper && Modify(pool, p, ticks, starts, delta).Ok?
    ensures var m := Modify(pool, p, ticks, starts, delta).value;
      && p.lower in ticks && p.upper in ticks && m.ticks.Keys == ticks.Keys
      && (forall t :: t in ticks && t != p.lower && t != p.upper ==> m.ticks[t] == ticks[t])
      && m.ticks[p.lower].gross == ticks[p.lower].gross + delta && m.ticks[p.lower].net == ticks[p.lower].net + delta
      && m.ticks[p.upper].gross == ticks[p.upper].gross + delta && m.ticks[p.upper].net == ticks[p.upper].net - delta
      && (forall t :: t in {p.lower, p.upper} && ticks[t].Initialized() && m.ticks[t].Initialized() ==>
            m.ticks[t].outside0 == ticks[t].outside0 && m.ticks[t].outside1 == ticks[t].outside1)
      && m.position.liquidity == p.liquidity + delta
      && m.position.lower == p.lower && m.position.upper == p.upper && m.position.open == p.open
      && m.pool.liquidity == pool.liquidity + (if p.lower <= pool.tick < p.upper then delta else 0)
      && m.pool == pool.(liquidity := m.pool.liquidity)
  {
    ModifyIs(pool, p, ticks, starts, delta);
  }

  /** A bound first used by this change starts with the growth so far if it lies at or below the
      current tick; a bound no longer used afterwards starts clean. */
  lemma BoundsSeededAndCleared(pool: PoolData, p: PositionData, ticks: map<int, Tick>, starts: seq<int>, delta: i128,
        t: int)
    requires p.lower < p.upper && (t == p.lower || t == p.upper) && Modify(pool, p, ticks, starts, delta).Ok?
    ensures var m := Modify(pool, p, ticks, starts, delta).value;
      && t in ticks && t in m.ticks
      && (!ticks[t].Initialized() && m.ticks[t].Initialized() && t <= pool.tick ==>
            m.ticks[t].outside0 == pool.growth0 && m.ticks[t].outside1 == pool.growth1)
      && (!ticks[t].Initialized() && m.ticks[t].Initialized() && pool.tick < t ==>
            m.ticks[t].outside0 == ticks[t].outside0 && m.ticks[t].outside1 == ticks[t].outside1)
      && (ticks[t].Initialized() && !m.ticks[t].Initialized() ==> m.ticks[t].outside0 == 0 && m.ticks[t].outside1 == 0)
  {
    ModifyIs(pool, p, ticks, starts, delta);
  }

  /** The books agree with the positions after it. */
  lemma ModifyKeepsTicks(pool: PoolData, ps: seq<PositionData>, i: nat, ticks: map<int, Tick>, starts: seq<int>,
        delta: i128)
    requires i < |ps| && Sound(ps[i], pool.spacing) && TicksMatch(ticks, ps, pool.spacing)
    requires Modify(pool, ps[i], ticks, starts, delta).Ok?
    ensures var m := Modify(pool, ps[i], ticks, starts, delta).value;
      var after := ps[i := m.position];
      && TicksMatch(m.ticks, after, pool.spacing)
      && Sum(after, Active(pool.tick)) - Sum(ps, Active(pool.tick)) == m.pool.liquidity - pool.liquidity
  {
    var m := Modify(pool, ps[i], ticks, starts, delta).value;
    ModifyTicks(pool, ps[i], ticks, starts, delta);
    BoundsMove(ticks, m.ticks, ps, i, m.position, delta, pool.spacing);
    SumUpdate(ps, i, m.position, Active(pool.tick));
  }

  lemma BoundsMove(ticks: map<int, Tick>, after: map<int, Tick>, ps: seq<PositionData>, i: nat, p: PositionData,
        delta: int, spacing: pos)
    requires i < |ps| && Sound(ps[i], spacing) && TicksMatch(ticks, ps, spacing)
    requires p.lower == ps[i].lower && p.upper == ps[i].upper && p.liquidity == ps[i].liquidity + delta
    requires p.lower in ticks && p.upper in ticks && after.Keys == ticks.Keys
    requires forall t :: t in ticks && t != p.lower && t != p.upper ==> after[t] == ticks[t]
    requires after[p.lower].gross == ticks[p.lower].gross + delta && after[p.lower].net == ticks[p.lower].net + delta
    requires after[p.upper].gross == ticks[p.upper].gross + delta && after[p.upper].net == ticks[p.upper].net - delta
    ensures TicksMatch(after, ps[i := p], spacing)
  {
    forall t | t in after
      ensures after[t].gross == Sum(ps[i := p], Gross(t)) && after[t].net == Sum(ps[i := p], Net(t))
    {
      SumUpdate(ps, i, p, Gross(t));
      SumUpdate(ps, i, p, Net(t));
    }
  }
}
