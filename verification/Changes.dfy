/** Liquidity changes against the accounting of `Solvency`: fees are credited within what was
    earned, nobody else's growth moves, and the vaults keep covering the principal. */
module Changes {
  import opened Numbers
  import opened TickMath
  import opened Ticks
  import opened Ledger
  import opened Coherence
  import opened FeeGrowth
  import opened Principal
  import opened Solvency
  import opened Liquidity
  import opened SwapMath

  function PoolGrowth(pool: PoolData, zero: bool): u128 {
    if zero then pool.growth0 else pool.growth1
  }

  function OwedOf(p: PositionData, zero: bool): u64 {
    if zero then p.owed0 else p.owed1
  }

  function AmountOf(m: Modified, zero: bool): u128 {
    if zero then m.amount0 else m.amount1
  }

  lemma {:induction false} WeightedUpdate(ps: seq<PositionData>, earned: seq<nat>, i: nat, p: PositionData, e: nat)
    requires |earned| == |ps| && i < |ps|
    ensures Weighted(ps[i := p], earned[i := e]) == Weighted(ps, earned) - ps[i].liquidity * earned[i] + p.liquidity * e
  {
    var n := |ps| - 1;
    if i == n {
      assert ps[i := p][..n] == ps[..n] && earned[i := e][..n] == earned[..n];
    } else {
      assert ps[i := p][..n] == ps[..n][i := p] && earned[i := e][..n] == earned[..n][i := e];
      WeightedUpdate(ps[..n], earned[..n], i, p, e);
    }
  }

  lemma LiveIsInitialized(ticks: map<int, Tick>, ps: seq<PositionData>, spacing: pos, j: nat)
    requires TicksMatch(ticks, ps, spacing) && j < |ps| && ps[j].liquidity > 0
    ensures ps[j].lower in ticks && ps[j].upper in ticks
    ensures ticks[ps[j].lower].Initialized() && ticks[ps[j].upper].Initialized()
  {
    SumBounds(ps, Gross(ps[j].lower), j);
    SumBounds(ps, Gross(ps[j].upper), j);
  }

  /** The checkpoint taken is the inside growth the position sees, before and after. */
  lemma ModifyCheckpoint(pool: PoolData, p: PositionData, ticks: map<int, Tick>, starts: seq<int>, delta: i128,
        zero: bool)
    requires p.lower < p.upper && Modify(pool, p, ticks, starts, delta).Ok?
    ensures var m := Modify(pool, p, ticks, starts, delta).value;
      && p.lower in ticks && p.upper in ticks && p.lower in m.ticks && p.upper in m.ticks
      && m.position.lower == p.lower && m.position.upper == p.upper
      && (m.ticks[p.lower].Initialized() && m.ticks[p.upper].Initialized() ==>
            Last(m.position, zero) == Inside(m.ticks, m.position, pool.tick, PoolGrowth(pool, zero), zero))
      && (ticks[p.lower].Initialized() && ticks[p.upper].Initialized() ==>
            Last(m.position, zero) == Inside(ticks, p, pool.tick, PoolGrowth(pool, zero), zero))
      && OwedOf(m.position, zero) - OwedOf(p, zero)
           == DivFloor(p.liquidity * WrapSub(Last(m.position, zero), Last(p, zero)), Q64)
  {
    ModifyIs(pool, p, ticks, starts, delta);
  }

  /** Nobody else's inside growth moves, and the position starts a fresh checkpoint. */
  lemma ModifyEarns(pool: PoolData, ps: seq<PositionData>, i: nat, ticks: map<int, Tick>, starts: seq<int>, delta: i128,
        zero: bool, earned: seq<nat>)
    requires i < |ps| && Sound(ps[i], pool.spacing) && TicksMatch(ticks, ps, pool.spacing)
    requires Modify(pool, ps[i], ticks, starts, delta).Ok?
    requires Earns(zero, ps, ticks, pool.tick, PoolGrowth(pool, zero), earned)
    ensures var m := Modify(pool, ps[i], ticks, starts, delta).value;
      Earns(zero, ps[i := m.position], m.ticks, pool.tick, PoolGrowth(pool, zero), earned[i := 0])
  {
    var m := Modify(pool, ps[i], ticks, starts, delta).value;
    var after := ps[i := m.position];
    var g := PoolGrowth(pool, zero);
    ModifyTicks(pool, ps[i], ticks, starts, delta);
    ModifyKeepsTicks(pool, ps, i, ticks, starts, delta);
    ModifyCheckpoint(pool, ps[i], ticks, starts, delta, zero);
    forall j | 0 <= j < |after| && after[j].liquidity > 0
      ensures after[j].lower in m.ticks && after[j].upper in m.ticks
      ensures Same(Inside(m.ticks, after[j], pool.tick, g, zero), Last(after[j], zero) + earned[i := 0][j])
    {
      LiveIsInitialized(m.ticks, after, pool.spacing, j);
      if j == i {
        SameRefl(Last(m.position, zero));
      } else {
        LiveIsInitialized(ticks, ps, pool.spacing, j);
        InsideUntouched(ticks, m.ticks, ps[i], ps[j], pool.tick, g, zero);
      }
    }
  }

  lemma InsideUntouched(ticks: map<int, Tick>, after: map<int, Tick>, p: PositionData, q: PositionData, tick: int,
        g: u128, zero: bool)
    requires p.lower in ticks && p.upper in ticks && q.lower in ticks && q.upper in ticks && after.Keys == ticks.Keys
    requires forall t :: t in ticks && t != p.lower && t != p.upper ==> after[t] == ticks[t]
    requires forall t :: t in {p.lower, p.upper} && ticks[t].Initialized() && after[t].Initialized() ==>
      after[t].outside0 == ticks[t].outside0 && after[t].outside1 == ticks[t].outside1
    requires ticks[q.lower].Initialized() && ticks[q.upper].Initialized() && after[q.lower].Initialized() &&
        after[q.upper].Initialized()
    ensures Inside(after, q, tick, g, zero) == Inside(ticks, q, tick, g, zero)
  {
    assert Outside(after[q.lower], zero) == Outside(ticks[q.lower], zero);
    assert Outside(after[q.upper], zero) == Outside(ticks[q.upper], zero);
  }

  /** The credit never exceeds what the position's liquidity earned, wrap-around or not. */
  lemma ModifyCredit(pool: PoolData, ps: seq<PositionData>, i: nat, ticks: map<int, Tick>, starts: seq<int>,
        delta: i128, zero: bool, earned: seq<nat>)
    requires i < |ps| && Sound(ps[i], pool.spacing) && TicksMatch(ticks, ps, pool.spacing)
    requires Modify(pool, ps[i], ticks, starts, delta).Ok?
    requires Earns(zero, ps, ticks, pool.tick, PoolGrowth(pool, zero), earned)
    ensures var m := Modify(pool, ps[i], ticks, starts, delta).value;
      0 <= Q64 * (OwedOf(m.position, zero) - OwedOf(ps[i], zero)) <= ps[i].liquidity * earned[i]
  {
    var m := Modify(pool, ps[i], ticks, starts, delta).value;
    var p := ps[i];
    ModifyCheckpoint(pool, p, ticks, starts, delta, zero);
    var inside, last := Last(m.position, zero), Last(p, zero);
    if p.liquidity > 0 {
      LiveIsInitialized(ticks, ps, pool.spacing, i);
      WrappedDifference(inside, last, earned[i]);
      MulMonoLeft(p.liquidity, WrapSub(inside, last), earned[i]);
    }
  }

  /** What is credited is exactly what was earned since the checkpoint, as the wrapped counters
      count it, rounded down to whole units. */
  lemma CreditIsExact(pool: PoolData, ps: seq<PositionData>, i: nat, ticks: map<int, Tick>, starts: seq<int>,
        delta: i128, zero: bool, earned: seq<nat>)
    requires i < |ps| && Sound(ps[i], pool.spacing) && TicksMatch(ticks, ps, pool.spacing) && 0 < ps[i].liquidity
    requires Modify(pool, ps[i], ticks, starts, delta).Ok?
    requires Earns(zero, ps, ticks, pool.tick, PoolGrowth(pool, zero), earned)
    ensures var m := Modify(pool, ps[i], ticks, starts, delta).value;
      var credit := OwedOf(m.position, zero) - OwedOf(ps[i], zero);
      Q64 * credit <= ps[i].liquidity * (earned[i] % TWO_128) < Q64 * credit + Q64
  {
    var m := Modify(pool, ps[i], ticks, starts, delta).value;
    ModifyCheckpoint(pool, ps[i], ticks, starts, delta, zero);
    LiveIsInitialized(ticks, ps, pool.spacing, i);
    WrapsToRemainder(Last(m.position, zero), Last(ps[i], zero), earned[i]);
  }

  lemma WrapsToRemainder(now: u128, last: u128, earned: nat)
    requires Same(now, last + earned)
    ensures WrapSub(now, last) == earned % TWO_128
  {
    WrapSubIs(now, last);
    var k :| now - (last + earned) == Turns(k);
    var j :| WrapSub(now, last) - (now - last) == Turns(j);
    assert earned == -(k + j) * TWO_128 + WrapSub(now, last);
  }

  lemma WrappedDifference(now: u128, last: u128, earned: nat)
    requires Same(now, last + earned)
    ensures WrapSub(now, last) <= earned
  {
    WrapSubIs(now, last);
    var k :| now - (last + earned) == Turns(k);
    var j :| WrapSub(now, last) - (now - last) == Turns(j);
    assert WrapSub(now, last) - earned == (k + j) * TWO_128;
  }

  /** Vault movement of a change: paid in when adding, paid out when removing. */
  function VaultAfter(vault: int, amount: nat, delta: i128): int {
    if delta >= 0 then vault + amount else vault - amount
  }

  /** Credited fees leave the uncredited side: the fee account still balances. */
  lemma ModifyFees(pool: PoolData, ps: seq<PositionData>, i: nat, ticks: map<int, Tick>, starts: seq<int>, delta: i128,
        zero: bool, purse: Purse)
    requires i < |ps| && Sound(ps[i], pool.spacing) && TicksMatch(ticks, ps, pool.spacing)
    requires Modify(pool, ps[i], ticks, starts, delta).Ok?
    requires Earns(zero, ps, ticks, pool.tick, PoolGrowth(pool, zero), purse.earned) && FeesCovered(zero, ps, purse)
    ensures var m := Modify(pool, ps[i], ticks, starts, delta).value;
      FeesCovered(zero, ps[i := m.position], purse.(earned := purse.earned[i := 0]))
  {
    var p' := Modify(pool, ps[i], ticks, starts, delta).value.position;
    ModifyCredit(pool, ps, i, ticks, starts, delta, zero, purse.earned);
    WeightedUpdate(ps, purse.earned, i, p', 0);
    SumUpdate(ps, i, p', OwedWeight(zero));
  }

  /** The rounded amounts cover the exact change of principal. */
  lemma PrincipalChange(ps: seq<PositionData>, i: nat, p: PositionData, price: sqrtprice, tick: int, delta: i128,
        zero: bool, amounts: (u128, u128))
    requires i < |ps| && MIN_TICK <= p.lower < p.upper <= MAX_TICK && PriceTick(price, tick)
    requires p.lower == ps[i].lower && p.upper == ps[i].upper && p.liquidity == ps[i].liquidity + delta
    requires AmountsFor(price, tick, p.lower, p.upper, Magnitude(delta), delta >= 0) == Ok(amounts)
    ensures Total(zero, ps[i := p], price) - Total(zero, ps, price)
         <= VaultAfter(0, if zero then amounts.0 else amounts.1, delta) as real
  {
    TotalUpdate(zero, ps, i, p, price);
    AmountsRound(p, price, tick, Magnitude(delta), delta >= 0);
    var d: int, u := Magnitude(delta), Unit(zero, p, price);
    TimesAdd(d, -d, u);
    TimesSub(0, u, 0.0);
  }

  lemma ModifyAmounts(pool: PoolData, p: PositionData, ticks: map<int, Tick>, starts: seq<int>, delta: i128)
    requires Modify(pool, p, ticks, starts, delta).Ok?
    ensures var m := Modify(pool, p, ticks, starts, delta).value;
      AmountsFor(pool.price, pool.tick, p.lower, p.upper, Magnitude(delta), delta >= 0) == Ok((m.amount0, m.amount1))
  {
    ModifyIs(pool, p, ticks, starts, delta);
  }

  lemma ModifyCovered(pool: PoolData, ps: seq<PositionData>, i: nat, ticks: map<int, Tick>, starts: seq<int>,
        delta: i128, zero: bool, vault: int, purse: Purse)
    requires i < |ps| && Sound(ps[i], pool.spacing) && TicksMatch(ticks, ps, pool.spacing) &&
        PriceTick(pool.price, pool.tick)
    requires Modify(pool, ps[i], ticks, starts, delta).Ok?
    requires Earns(zero, ps, ticks, pool.tick, PoolGrowth(pool, zero), purse.earned) &&
        Covered(zero, ps, pool.price, vault, purse)
    ensures var m := Modify(pool, ps[i], ticks, starts, delta).value;
      Covered(zero, ps[i := m.position], pool.price, VaultAfter(vault, AmountOf(m, zero), delta),
          purse.(earned := purse.earned[i := 0]))
  {
    ModifyFees(pool, ps, i, ticks, starts, delta, zero, purse);
    var m := Modify(pool, ps[i], ticks, starts, delta).value;
    ModifyTicks(pool, ps[i], ticks, starts, delta);
    ModifyAmounts(pool, ps[i], ticks, starts, delta);
    PrincipalChange(ps, i, m.position, pool.price, pool.tick, delta, zero, (m.amount0, m.amount1));
  }

  /** A change keeps one token's accounting. */
  lemma ModifyToken(pool: PoolData, ps: seq<PositionData>, i: nat, ticks: map<int, Tick>, starts: seq<int>, delta: i128,
        zero: bool, vault: int, purse: Purse)
    requires i < |ps| && Sound(ps[i], pool.spacing) && TicksMatch(ticks, ps, pool.spacing) &&
        PriceTick(pool.price, pool.tick)
    requires Modify(pool, ps[i], ticks, starts, delta).Ok?
    requires TokenOk(zero, ps, ticks, pool.tick, pool.price, PoolGrowth(pool, zero), vault, purse)
    ensures var m := Modify(pool, ps[i], ticks, starts, delta).value;
      TokenOk(zero, ps[i := m.position], m.ticks, pool.tick, pool.price, PoolGrowth(pool, zero),
              VaultAfter(vault, AmountOf(m, zero), delta), purse.(earned := purse.earned[i := 0]))
  {
    ModifyEarns(pool, ps, i, ticks, starts, delta, zero, purse.earned);
    ModifyCovered(pool, ps, i, ticks, starts, delta, zero, vault, purse);
  }

  /** The pay-out of a removal is covered by the vault. */
  lemma RemovalIsCovered(pool: PoolData, ps: seq<PositionData>, i: nat, ticks: map<int, Tick>, starts: seq<int>,
        delta: i128, zero: bool, vault: int, purse: Purse)
    requires i < |ps| && Sound(ps[i], pool.spacing) && TicksMatch(ticks, ps, pool.spacing) &&
        PriceTick(pool.price, pool.tick)
    requires delta < 0 && Modify(pool, ps[i], ticks, starts, delta).Ok?
    requires TokenOk(zero, ps, ticks, pool.tick, pool.price, PoolGrowth(pool, zero), vault, purse)
    ensures AmountOf(Modify(pool, ps[i], ticks, starts, delta).value, zero) <= vault
  {
    var m := Modify(pool, ps[i], ticks, starts, delta).value;
    ModifyToken(pool, ps, i, ticks, starts, delta, zero, vault, purse);
    ModifyKeepsTicks(pool, ps, i, ticks, starts, delta);
    CoveredIsNonNegative(zero, ps[i := m.position], pool.price, vault - AmountOf(m, zero),
          purse.(earned := purse.earned[i := 0]));
  }

  /** Covered means: the vault still holds every credited fee, on top of the principal. */
  lemma CoveredIsNonNegative(zero: bool, ps: seq<PositionData>, price: pos, vault: int, purse: Purse)
    requires |purse.earned| == |ps| && Ordered(ps) && Covered(zero, ps, price, vault, purse)
    ensures Sum(ps, OwedWeight(zero)) <= purse.charged - purse.collected <= vault
    ensures 0 <= Sum(ps, OwedWeight(zero))
  {
    WeightedNonNegative(ps, purse.earned);
    SumNonNegative(ps, OwedWeight(zero));
    TotalBounds(zero, ps, price);
  }
}
