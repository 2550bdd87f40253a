/** What every iteration of the swap loop keeps: money adds up, the price stays with its
    tick, and the in-range liquidity is that of the positions - with the exact condition
    under which a falling walk breaks the last. */
module Coherence {
  import opened Numbers
  import opened TickMath
  import opened Ticks
  import opened SwapWalk
  import opened Ledger
  import SwapMath

  lemma ClampedMono(a: int, b: int)
    requires a <= b
    ensures MIN_SQRT_PRICE <= ClampedPrice(a) <= ClampedPrice(b) <= MAX_SQRT_PRICE
  {
    PriceMono(Clamp(a), Clamp(b));
    PriceInBand(Clamp(a));
    PriceInBand(Clamp(b));
  }

  /** The price lies in its tick's interval; the upper end is allowed, because crossing a
      tick downward leaves the price exactly on it. */
  ghost predicate PriceTick(price: nat, tick: int) {
    ClampedPrice(tick) <= price <= ClampedPrice(tick + 1)
  }

  /** Between the opening price and the limit, on the way there. */
  ghost predicate OnCourse(w: Walk, s: WalkState) {
    && MIN_SQRT_PRICE <= w.pool.price <= MAX_SQRT_PRICE && MIN_SQRT_PRICE <= w.limit <= MAX_SQRT_PRICE
    && SwapMath.Toward(w.down, w.pool.price, s.price, w.limit)
    && PriceTick(s.price, s.tick)
  }

  /** Growth added to the input-side counter by the charging part of an iteration. */
  ghost function GrowthAdded(w: Walk, s: WalkState, aim: sqrtprice): nat {
    if s.liquidity == 0 then 0
    else
      match SwapMath.Step(s.price, aim, s.liquidity, s.remaining, w.pool.feePips)
      case Err(_) => 0
      case Ok(step) => if step.fee > 0 then DivFloor(step.fee * Q64, s.liquidity) else 0
  }

  /** The charging part: nothing lost, nothing taken beyond the input, both roundings for
      the pool, and growth that never promises more than the fee. */
  lemma FillFacts(w: Walk, s: WalkState, aim: sqrtprice)
    requires if w.down then aim <= s.price else s.price <= aim
    requires Fill(w, s, aim).Ok?
    ensures var f := Fill(w, s, aim).value;
      && f.tick == s.tick && f.liquidity == s.liquidity && f.ticks == s.ticks && f.crossings == s.crossings
      && SwapMath.Toward(w.down, s.price, f.price, aim)
      && (f.price != aim ==> f.remaining == 0)
      && f.remaining + f.totalIn + f.totalFee == s.remaining + s.totalIn + s.totalFee
      && s.totalIn <= f.totalIn && s.totalOut <= f.totalOut && s.totalFee <= f.totalFee
      && SwapMath.RoundedUp(f.totalIn - s.totalIn, SwapMath.ExactIn(w.down, s.price, f.price, s.liquidity))
      && SwapMath.RoundedDown(f.totalOut - s.totalOut, SwapMath.ExactOut(w.down, s.price, f.price, s.liquidity))
      && GrowthAdded(w, s, aim) < TWO_128 && f.growth == WrapAdd(s.growth, GrowthAdded(w, s, aim))
      && GrowthAdded(w, s, aim) * s.liquidity <= (f.totalFee - s.totalFee) * Q64
  {
    if s.liquidity != 0 {
      SwapMath.StepIsFair(w.down, s.price, aim, s.liquidity, s.remaining, w.pool.feePips);
    } else {
      SwapMath.TimesSub(0, SwapMath.V0(s.price) - SwapMath.V0(aim), 0.0);
      SwapMath.TimesSub(0, SwapMath.V1(s.price) - SwapMath.V1(aim), 0.0);
      SwapMath.TimesSub(0, SwapMath.V0(aim) - SwapMath.V0(s.price), 0.0);
      SwapMath.TimesSub(0, SwapMath.V1(aim) - SwapMath.V1(s.price), 0.0);
    }
  }

  /** What the charging part takes as fee, and that it stops only when the offer less its fee
      pays for nothing further. */
  lemma FillFee(w: Walk, s: WalkState, aim: sqrtprice)
    requires Fill(w, s, aim).Ok? && s.liquidity > 0
    ensures w.pool.feePips < FEE_DENOM
    ensures var f := Fill(w, s, aim).value;
      && f.price > 0 && s.totalIn <= f.totalIn && s.totalOut <= f.totalOut && s.totalFee <= f.totalFee
      && SwapMath.FeeFacts(aim, s.remaining, w.pool.feePips,
           SwapMath.SwapStep(f.price, f.totalIn - s.totalIn, f.totalOut - s.totalOut, f.totalFee - s.totalFee))
      && forall n: pos :: (if aim <= s.price then aim <= n < f.price else f.price < n <= aim) ==>
           s.remaining * (FEE_DENOM - w.pool.feePips) < FEE_DENOM * SwapMath.ToTarget(s.price, n, s.liquidity)
  {
    SwapMath.StepFee(s.price, aim, s.liquidity, s.remaining, w.pool.feePips);
    SwapMath.StepIsComputed(s.price, aim, s.liquidity, s.remaining, w.pool.feePips);
    var f := Fill(w, s, aim).value;
    forall n: pos | if aim <= s.price then aim <= n < f.price else f.price < n <= aim
      ensures s.remaining * (FEE_DENOM - w.pool.feePips) < FEE_DENOM * SwapMath.ToTarget(s.price, n, s.liquidity)
    {
      SwapMath.StepGoesFurthest(s.price, aim, s.liquidity, s.remaining, w.pool.feePips, n);
    }
  }

  /** The growth added is the whole fee per unit of liquidity, less than one unit of growth short. */
  lemma GrowthIsWholeFee(w: Walk, s: WalkState, aim: sqrtprice)
    requires Fill(w, s, aim).Ok? && s.liquidity > 0
    ensures (Fill(w, s, aim).value.totalFee - s.totalFee) * Q64 < GrowthAdded(w, s, aim) * s.liquidity + s.liquidity
  {
  }

  ghost function TargetOf(w: Walk, s: WalkState): Target
    requires w.Valid() && NextTarget(w, s.ticks, s.tick).Ok?
  {
    NextTarget(w, s.ticks, s.tick).value
  }

  ghost function AimOf(w: Walk, s: WalkState): sqrtprice
    requires w.Valid() && NextTarget(w, s.ticks, s.tick).Ok?
  {
    Aim(w, TargetPrice(w, TargetOf(w, s).tick))
  }

  /** The target lies on the walk's side of the price, so the aim does too. */
  lemma AimAhead(w: Walk, s: WalkState)
    requires w.Valid() && OnCourse(w, s) && NextTarget(w, s.ticks, s.tick).Ok?
    ensures if w.down then AimOf(w, s) <= s.price else s.price <= AimOf(w, s)
    ensures if w.down then TargetOf(w, s).tick <= s.tick else s.tick < TargetOf(w, s).tick
  {
    if w.down {
      TargetDown(w, s.ticks, s.tick);
      ClampedMono(TargetOf(w, s).tick, s.tick);
    } else {
      TargetUp(w, s.ticks, s.tick);
      ClampedMono(s.tick + 1, TargetOf(w, s).tick);
    }
  }

  /** Every iteration: input in, fees and what remains add up to the same total, the price
      moves only toward the limit and never past it, and it keeps its tick. */
  lemma IterateOnCourse(w: Walk, s: WalkState)
    requires w.Valid() && OnCourse(w, s) && Iterate(w, s).Ok?
    ensures var n := Iterate(w, s).value;
      && OnCourse(w, n)
      && n.remaining + n.totalIn + n.totalFee == s.remaining + s.totalIn + s.totalFee
      && SwapMath.Toward(w.down, s.price, n.price, w.limit)
      && s.totalIn <= n.totalIn && s.totalOut <= n.totalOut && s.totalFee <= n.totalFee
  {
    var n := Iterate(w, s).value;
    var t := TargetOf(w, s).tick;
    AimAhead(w, s);
    FillFacts(w, s, AimOf(w, s));
    ClampedMono(t - 1, t);
    ClampedMono(t, t + 1);
    if n.price != ClampedPrice(t) && n.price != w.pool.price {
      LandsInBand(n.price);
    }
  }

  lemma LandsInBand(price: nat)
    requires MIN_SQRT_PRICE <= price <= MAX_SQRT_PRICE
    ensures TickAt(price).Ok? && PriceTick(price, TickAt(price).value)
  {
    BandEnds();
  }

  /** Where a price lies against a tick's price, its floor tick lies against the tick. */
  lemma FloorTickAgainst(price: nat, t: int)
    requires MIN_SQRT_PRICE <= price <= MAX_SQRT_PRICE
    ensures ClampedPrice(t) < price ==> t <= TickAt(price).value
    ensures t <= MAX_TICK && ClampedPrice(t) <= price ==> t <= TickAt(price).value
    ensures price < ClampedPrice(t) ==> TickAt(price).value < t
    ensures MIN_SQRT_PRICE < price <= ClampedPrice(t) ==> TickAt(price).value <= t
    ensures TickAt(price).value == t ==> ClampedPrice(t) <= price
  {
    var f := TickAt(price).value;
    BandEnds();
    if f < t && f < MAX_TICK {
      ClampedMono(f + 1, t);
    }
    if t < f {
      PriceMono(Clamp(t), f);
      ClampedMono(t, f);
    }
  }

  // ---- in-range liquidity ----

  /** The loop's liquidity is the sum of the positions whose range holds the loop's tick. */
  ghost predicate InRange(s: WalkState, ps: seq<PositionData>) {
    s.liquidity == Sum(ps, Active(s.tick))
  }

  /** A falling walk that has crossed a tick below its opening price and rests exactly on it,
      with too little input left to move the price again: the guard under which the tick is
      recomputed as the one already crossed. */
  ghost predicate Stalls(w: Walk, s: WalkState) {
    && w.down && s.price != w.pool.price && s.price == ClampedPrice(s.tick + 1)
    && 0 < s.liquidity && w.pool.feePips < FEE_DENOM
         && SwapMath.TooSmall(s.price, s.liquidity, s.remaining, w.pool.feePips)
  }

  /** What a stall does: a falling iteration raises the tick. */
  ghost predicate Raises(w: Walk, s: WalkState)
    requires w.Valid() && Iterate(w, s).Ok?
  {
    w.down && s.tick < Iterate(w, s).value.tick
  }

  predicate NetIsZero(ticks: map<int, Tick>, t: int) {
    t in ticks ==> ticks[t].net == 0
  }

  /** Crossing keeps every gross and net, and the tick's liquidity moves with it. */
  lemma CrossKeeps(w: Walk, f: WalkState, ps: seq<PositionData>, t: int)
    requires TicksMatch(f.ticks, ps, w.pool.spacing) && CrossTick(w, f, t).Ok?
    requires f.liquidity == Sum(ps, Active(if w.down then t else t - 1))
    ensures var c := CrossTick(w, f, t).value;
      && TicksMatch(c.ticks, ps, w.pool.spacing)
      && c.liquidity == Sum(ps, Active(if w.down then t - 1 else t))
  {
    ActiveStep(ps, t);
  }

  /** An iteration that ends on its target keeps liquidity coherent. */
  lemma LandOnTarget(w: Walk, s: WalkState, ps: seq<PositionData>)
    requires w.Valid() && OnCourse(w, s) && Iterate(w, s).Ok?
    requires TicksMatch(s.ticks, ps, w.pool.spacing) && InRange(s, ps)
    requires Iterate(w, s).value.price == ClampedPrice(TargetOf(w, s).tick)
    ensures TicksMatch(Iterate(w, s).value.ticks, ps, w.pool.spacing)
    ensures InRange(Iterate(w, s).value, ps) && !Raises(w, s)
  {
    var target := TargetOf(w, s);
    var t := target.tick;
    var f := Fill(w, s, AimOf(w, s)).value;
    AimAhead(w, s);
    FillFacts(w, s, AimOf(w, s));
    TargetSeparates(w, s.ticks, ps, s.tick);
    if w.down {
      ActiveAcross(ps, t, s.tick);
    } else {
      ActiveAcross(ps, s.tick, t - 1);
    }
    if target.initialized {
      CrossKeeps(w, f, ps, t);
    } else {
      ActiveAcross(ps, t - 1, t);
    }
  }

  /** Where an iteration that rests short of its target leaves the tick. */
  lemma RestsBetween(w: Walk, s: WalkState)
    requires w.Valid() && OnCourse(w, s) && Iterate(w, s).Ok?
    requires Iterate(w, s).value.price != ClampedPrice(TargetOf(w, s).tick)
    ensures var n := Iterate(w, s).value;
      && n.ticks == s.ticks && n.liquidity == s.liquidity
      && (if w.down then TargetOf(w, s).tick <= n.tick <= s.tick + 1 else s.tick <= n.tick < TargetOf(w, s).tick)
      && (Raises(w, s) ==> n.price == s.price == ClampedPrice(s.tick + 1))
  {
    var t := TargetOf(w, s).tick;
    var n := Iterate(w, s).value;
    AimAhead(w, s);
    FillFacts(w, s, AimOf(w, s));
    ClampedMono(t, t);
    if n.price != w.pool.price {
      FloorTickAgainst(n.price, t);
      FloorTickAgainst(n.price, s.tick);
      FloorTickAgainst(n.price, s.tick + 1);
    }
  }

  /** An iteration that rests short of its target keeps it exactly when it does not raise
      the tick onto one with a nonzero net. */
  lemma RestShort(w: Walk, s: WalkState, ps: seq<PositionData>)
    requires w.Valid() && OnCourse(w, s) && Iterate(w, s).Ok?
    requires TicksMatch(s.ticks, ps, w.pool.spacing) && InRange(s, ps)
    requires Iterate(w, s).value.price != ClampedPrice(TargetOf(w, s).tick)
    ensures var n := Iterate(w, s).value;
      && n.ticks == s.ticks && n.liquidity == s.liquidity
      && (if w.down then TargetOf(w, s).tick <= n.tick <= s.tick + 1 else s.tick <= n.tick < TargetOf(w, s).tick)
      && (Raises(w, s) ==> n.price == s.price == ClampedPrice(s.tick + 1))
      && (InRange(n, ps) <==> !(Raises(w, s) && !NetIsZero(s.ticks, s.tick + 1)))
  {
    RestsBetween(w, s);
    TargetSeparates(w, s.ticks, ps, s.tick);
    RestLiquidity(w, s.ticks, ps, s.tick, Iterate(w, s).value.tick, TargetOf(w, s).tick);
  }

  /** The liquidity in range at the new tick is that at the old one, unless the tick went up
      onto a crossed bound. */
  lemma RestLiquidity(w: Walk, ticks: map<int, Tick>, ps: seq<PositionData>, before: int, after: int, target: int)
    requires TicksMatch(ticks, ps, w.pool.spacing)
    requires if w.down then NoEnds(ps, target, before) && target <= after <= before + 1
             else NoEnds(ps, before, target - 1) && before <= after < target
    ensures Sum(ps, Active(after)) == Sum(ps, Active(before))
        <==> !(w.down && after == before + 1 && !NetIsZero(ticks, before + 1))
  {
    if after == before + 1 && w.down {
      ActiveStep(ps, before + 1);
      if before + 1 !in ticks {
        EmptyIsNoEnd(ticks, ps, w.pool.spacing, before + 1);
      }
    } else if w.down {
      ActiveAcross(ps, after, before);
    } else {
      ActiveAcross(ps, before, after);
    }
  }

  // ---- the guard of the failing branch, on the state before the iteration ----

  lemma FillOfFall(w: Walk, s: WalkState, aim: sqrtprice)
    requires w.down && aim < s.price && 0 < s.liquidity && Fill(w, s, aim).Ok?
    ensures w.pool.feePips < FEE_DENOM
    ensures Fill(w, s, aim).value.price == s.price
        <==> SwapMath.TooSmall(s.price, s.liquidity, s.remaining, w.pool.feePips)
  {
    SwapMath.StepIsComputed(s.price, aim, s.liquidity, s.remaining, w.pool.feePips);
    SwapMath.FallStalls(s.price, aim, s.liquidity, s.remaining, w.pool.feePips);
  }

  /** A raise is a stall. */
  lemma RaiseStalls(w: Walk, s: WalkState)
    requires w.Valid() && OnCourse(w, s) && Iterate(w, s).Ok? && !Done(w, s) && Raises(w, s)
    ensures Stalls(w, s)
  {
    var n, aim := Iterate(w, s).value, AimOf(w, s);
    AimAhead(w, s);
    FillFacts(w, s, aim);
    RestsBetween(w, s);
    if aim < s.price && 0 < s.liquidity {
      FillOfFall(w, s, aim);
    }
  }

  /** A stall lies strictly inside the band and strictly above its target. */
  lemma StallAboveAim(w: Walk, s: WalkState)
    requires w.Valid() && OnCourse(w, s) && NextTarget(w, s.ticks, s.tick).Ok? && !Done(w, s) && Stalls(w, s)
    ensures MIN_TICK < s.tick + 1 < MAX_TICK && TargetPrice(w, TargetOf(w, s).tick) < s.price && AimOf(w, s) < s.price
  {
    AimAhead(w, s);
    BandEnds();
    PriceMono(Clamp(s.tick), Clamp(s.tick + 1));
    ClampedMono(TargetOf(w, s).tick, s.tick);
  }

  /** A stall is a raise. */
  lemma StallRaises(w: Walk, s: WalkState)
    requires w.Valid() && OnCourse(w, s) && Iterate(w, s).Ok? && !Done(w, s) && Stalls(w, s)
    ensures Raises(w, s)
  {
    StallAboveAim(w, s);
    FillOfFall(w, s, AimOf(w, s));
    TickRoundTrip(s.tick + 1);
  }

  /** The tick goes up in a falling iteration if and only if the guard holds before it: the
      price rests on the tick above, away from the opening price, and the after-fee input
      cannot pay for one unit of price. */
  lemma StallIsRaise(w: Walk, s: WalkState)
    requires w.Valid() && OnCourse(w, s) && Iterate(w, s).Ok? && !Done(w, s)
    ensures Raises(w, s) <==> Stalls(w, s)
  {
    if Raises(w, s) {
      RaiseStalls(w, s);
    }
    if Stalls(w, s) {
      StallRaises(w, s);
    }
  }

  /** One iteration, exactly: gross and net always agree with the positions afterwards, and
      the in-range liquidity does so unless the iteration stalls on a tick with a nonzero net. */
  lemma IterateLiquidity(w: Walk, s: WalkState, ps: seq<PositionData>)
    requires w.Valid() && OnCourse(w, s) && Iterate(w, s).Ok? && !Done(w, s)
    requires TicksMatch(s.ticks, ps, w.pool.spacing) && InRange(s, ps)
    ensures TicksMatch(Iterate(w, s).value.ticks, ps, w.pool.spacing)
    ensures InRange(Iterate(w, s).value, ps) <==> !(Stalls(w, s) && !NetIsZero(s.ticks, s.tick + 1))
  {
    StallIsRaise(w, s);
    if Iterate(w, s).value.price == ClampedPrice(TargetOf(w, s).tick) {
      LandOnTarget(w, s, ps);
    } else {
      RestShort(w, s, ps);
    }
  }

  // ---- one stall-free iteration, as every later proof uses it ----

  /** A bound of some live position. */
  ghost predicate LiveEnd(ps: seq<PositionData>, e: int) {
    exists i :: 0 <= i < |ps| && ps[i].liquidity > 0 && (ps[i].lower == e || ps[i].upper == e)
  }

  lemma LiveEndIsInitialized(ticks: map<int, Tick>, ps: seq<PositionData>, spacing: pos, e: int)
    requires TicksMatch(ticks, ps, spacing) && LiveEnd(ps, e)
    ensures e in ticks && ticks[e].Initialized()
  {
    var i :| 0 <= i < |ps| && ps[i].liquidity > 0 && (ps[i].lower == e || ps[i].upper == e);
    SumBounds(ps, Gross(e), i);
  }

  /** A stall on a tick that some position uses: the tick is on the wrong side afterwards. */
  ghost predicate StallsOnTick(w: Walk, s: WalkState) {
    Stalls(w, s) && s.tick + 1 in s.ticks && s.ticks[s.tick + 1].Initialized()
  }

  /** A live bound is either left alone, with the tick on the same side, or crossed. */
  ghost predicate BoundKept(w: Walk, s: WalkState, n: WalkState, e: int)
    requires e in s.ticks && e in n.ticks
  {
    || (n.ticks[e] == s.ticks[e] && (e <= s.tick <==> e <= n.tick))
    || (n.ticks[e] == s.ticks[e].Cross(Growth0(w, n.growth), Growth1(w, n.growth)) && (e <= s.tick <==> n.tick < e))
  }

  /** A price move from `a` to `b` at `tick`: wholly inside the range or wholly outside it. */
  ghost predicate Undivided(p: PositionData, tick: int, a: nat, b: nat)
    requires MIN_TICK <= p.lower <= MAX_TICK && MIN_TICK <= p.upper <= MAX_TICK
  {
    if p.lower <= tick < p.upper then PriceAt(p.lower) <= Min(a, b) && Max(a, b) <= PriceAt(p.upper)
    else Max(a, b) <= PriceAt(p.lower) || PriceAt(p.upper) <= Min(a, b)
  }

  ghost predicate Advance(w: Walk, s: WalkState, n: WalkState, ps: seq<PositionData>, growth: nat) {
    && OnCourse(w, n) && TicksMatch(n.ticks, ps, w.pool.spacing) && InRange(n, ps)
    && n.ticks.Keys == s.ticks.Keys
    && growth < TWO_128 && n.growth == WrapAdd(s.growth, growth)
    && s.totalIn <= n.totalIn && s.totalOut <= n.totalOut && s.totalFee <= n.totalFee
    && growth * s.liquidity <= (n.totalFee - s.totalFee) * Q64
    && SwapMath.ExactIn(w.down, s.price, n.price, s.liquidity) <= (n.totalIn - s.totalIn) as real
    && (n.totalOut - s.totalOut) as real <= SwapMath.ExactOut(w.down, s.price, n.price, s.liquidity)
    && (forall e :: LiveEnd(ps, e) ==> e in s.ticks && e in n.ticks && BoundKept(w, s, n, e))
    && (forall i :: 0 <= i < |ps| && ps[i].liquidity > 0 ==>
         Sound(ps[i], w.pool.spacing) && Undivided(ps[i], s.tick, s.price, n.price))
  }

  lemma OutsideGap(ps: seq<PositionData>, a: int, b: int, e: int)
    requires NoEnds(ps, a, b) && LiveEnd(ps, e)
    ensures !(a < e <= b)
  {
  }

  /** Only a crossing changes which side of the loop's tick a live bound lies on. */
  lemma TargetKeepsBounds(w: Walk, s: WalkState, ps: seq<PositionData>, e: int)
    requires w.Valid() && OnCourse(w, s) && Iterate(w, s).Ok?
    requires Iterate(w, s).value.price == ClampedPrice(TargetOf(w, s).tick)
    requires TicksMatch(s.ticks, ps, w.pool.spacing) && LiveEnd(ps, e)
    ensures var n := Iterate(w, s).value;
      e in s.ticks && e in n.ticks && BoundKept(w, s, n, e)
  {
    var t := TargetOf(w, s);
    TargetSeparates(w, s.ticks, ps, s.tick);
    AimAhead(w, s);
    FillFacts(w, s, AimOf(w, s));
    LiveEndIsInitialized(s.ticks, ps, w.pool.spacing, e);
    if w.down {
      OutsideGap(ps, t.tick, s.tick, e);
    } else {
      OutsideGap(ps, s.tick, t.tick - 1, e);
    }
    if !t.initialized {
      OutsideGap(ps, t.tick - 1, t.tick, e);
    }
  }

  lemma ShortKeepsBounds(w: Walk, s: WalkState, ps: seq<PositionData>, e: int)
    requires w.Valid() && OnCourse(w, s) && Iterate(w, s).Ok? && !Done(w, s) && !StallsOnTick(w, s)
    requires Iterate(w, s).value.price != ClampedPrice(TargetOf(w, s).tick)
    requires TicksMatch(s.ticks, ps, w.pool.spacing) && InRange(s, ps) && LiveEnd(ps, e)
    ensures var n := Iterate(w, s).value;
      e in s.ticks && e in n.ticks && BoundKept(w, s, n, e)
  {
    TargetSeparates(w, s.ticks, ps, s.tick);
    LiveEndIsInitialized(s.ticks, ps, w.pool.spacing, e);
    StallIsRaise(w, s);
    RestShort(w, s, ps);
    if w.down {
      OutsideGap(ps, TargetOf(w, s).tick, s.tick, e);
    } else {
      OutsideGap(ps, s.tick, TargetOf(w, s).tick - 1, e);
    }
  }

  lemma IterateUndivided(w: Walk, s: WalkState, ps: seq<PositionData>, i: nat)
    requires w.Valid() && OnCourse(w, s) && Iterate(w, s).Ok?
    requires TicksMatch(s.ticks, ps, w.pool.spacing) && i < |ps| && ps[i].liquidity > 0
    ensures Undivided(ps[i], s.tick, s.price, Iterate(w, s).value.price)
  {
    var p, t := ps[i], TargetOf(w, s).tick;
    TargetSeparates(w, s.ticks, ps, s.tick);
    AimAhead(w, s);
    FillFacts(w, s, AimOf(w, s));
    MoveUndivided(p, s.tick, t, s.price, Iterate(w, s).value.price, w.down);
  }

  lemma MoveUndivided(p: PositionData, tick: int, t: int, price: nat, price': nat, down: bool)
    requires MIN_TICK <= p.lower < p.upper <= MAX_TICK
    requires if down then NoEnds([p], t, tick) && t <= tick else NoEnds([p], tick, t - 1) && tick < t
    requires p.liquidity > 0
    requires if down then ClampedPrice(t) <= price' <= price <= ClampedPrice(tick + 1)
             else ClampedPrice(tick) <= price <= price' <= ClampedPrice(t)
    ensures Undivided(p, tick, price, price')
  {
    assert [p][0] == p;
    var low, high := if down then t else tick, if down then tick + 1 else t;
    if p.lower <= low {
      ClampedMono(p.lower, low);
    } else {
      ClampedMono(high, p.lower);
    }
    if p.upper <= low {
      ClampedMono(p.upper, low);
    } else {
      ClampedMono(high, p.upper);
    }
  }

  lemma AllBoundsKept(w: Walk, s: WalkState, ps: seq<PositionData>)
    requires w.Valid() && OnCourse(w, s) && Iterate(w, s).Ok? && !Done(w, s) && !StallsOnTick(w, s)
    requires TicksMatch(s.ticks, ps, w.pool.spacing) && InRange(s, ps)
    ensures var n := Iterate(w, s).value;
      forall e :: LiveEnd(ps, e) ==> e in s.ticks && e in n.ticks && BoundKept(w, s, n, e)
  {
    var n := Iterate(w, s).value;
    forall e | LiveEnd(ps, e) ensures e in s.ticks && e in n.ticks && BoundKept(w, s, n, e) {
      if n.price == ClampedPrice(TargetOf(w, s).tick) {
        TargetKeepsBounds(w, s, ps, e);
      } else {
        ShortKeepsBounds(w, s, ps, e);
      }
    }
  }

  lemma AllUndivided(w: Walk, s: WalkState, ps: seq<PositionData>)
    requires w.Valid() && OnCourse(w, s) && Iterate(w, s).Ok? && TicksMatch(s.ticks, ps, w.pool.spacing)
    ensures forall i :: 0 <= i < |ps| && ps[i].liquidity > 0 ==>
      Sound(ps[i], w.pool.spacing) && Undivided(ps[i], s.tick, s.price, Iterate(w, s).value.price)
  {
    forall i | 0 <= i < |ps| && ps[i].liquidity > 0
      ensures Sound(ps[i], w.pool.spacing) && Undivided(ps[i], s.tick, s.price, Iterate(w, s).value.price)
    {
      IterateUndivided(w, s, ps, i);
    }
  }

  /** A stall on an empty tick does no harm. */
  lemma HarmlessStall(w: Walk, s: WalkState, ps: seq<PositionData>)
    requires w.Valid() && OnCourse(w, s) && Iterate(w, s).Ok? && !Done(w, s) && !StallsOnTick(w, s)
    requires TicksMatch(s.ticks, ps, w.pool.spacing) && InRange(s, ps)
    ensures TicksMatch(Iterate(w, s).value.ticks, ps, w.pool.spacing) && InRange(Iterate(w, s).value, ps)
  {
    IterateLiquidity(w, s, ps);
    if Stalls(w, s) {
      EmptyIsNoEnd(s.ticks, ps, w.pool.spacing, s.tick + 1);
    }
  }

  lemma IterateAdvance(w: Walk, s: WalkState, ps: seq<PositionData>)
    requires w.Valid() && OnCourse(w, s) && Iterate(w, s).Ok? && !Done(w, s) && !StallsOnTick(w, s)
    requires TicksMatch(s.ticks, ps, w.pool.spacing) && InRange(s, ps)
    ensures Advance(w, s, Iterate(w, s).value, ps, GrowthAdded(w, s, AimOf(w, s)))
  {
    AimAhead(w, s);
    FillFacts(w, s, AimOf(w, s));
    IterateOnCourse(w, s);
    HarmlessStall(w, s, ps);
    AllBoundsKept(w, s, ps);
    AllUndivided(w, s, ps);
  }
}
