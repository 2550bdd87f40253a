/** The quote decides the swap: in every coherent state, whether a swap instruction succeeds,
    and what it pays, can be read off the quote over the same data. */
module Forecast {
  import opened Numbers
  import opened TickMath
  import opened Ticks
  import opened SwapWalk
  import opened Ledger
  import opened Coherence
  import opened FeeGrowth
  import opened Principal
  import opened Solvency
  import opened Runs
  import opened Book
  import opened Invariant
  import opened Quote
  import opened Reachable
  import Changes
  import Leaving
  import SwapMath

  /** An iteration of the quote arrives at the window's ceiling, which cannot be read past. */
  ghost predicate AtCeiling(w: Walk, ticks: map<int, Tick>, q: QuoteState)
    requires w.Valid() && w.pool.feePips < FEE_DENOM && NextTarget(w, ticks, q.tick).Ok?
  {
    var target := NextTarget(w, ticks, q.tick).value;
    target.pastWindow && Reaches(w, q, TargetPrice(w, target.tick))
  }

  /** No iteration of the quote arrives at the ceiling. */
  ghost predicate BelowCeiling(w: Walk, ticks: map<int, Tick>, q: QuoteState)
    requires w.Valid() && w.pool.feePips < FEE_DENOM
    decreases QuoteLeft(w, q)
  {
    if QuoteDone(w, q) || QuoteIterate(w, ticks, q).Err? then true
    else
      QuoteAdvances(w, ticks, q);
      !AtCeiling(w, ticks, q) && BelowCeiling(w, ticks, QuoteIterate(w, ticks, q).value)
  }

  /** A walk through a coherent pool: liquidity is that of the positions, the vault that pays
      covers what it owes, and all sums are far from 128 bits. */
  ghost predicate Fits(w: Walk, s: WalkState, ps: seq<PositionData>, vault: nat, p: Purse) {
    && w.Valid() && w.pool.feePips < FEE_DENOM && OnCourse(w, s)
    && TicksMatch(s.ticks, ps, w.pool.spacing) && InRange(s, ps)
    && TokenOk(!w.down, ps, s.ticks, s.tick, s.price, GrowthOf(w, s, !w.down), LoopVault(w, s, !w.down, vault), p)
    && Sum(ps, All) < 0x8000_0000_0000_0000_0000_0000_0000_0000
    && s.remaining + s.totalIn + s.totalFee < Q64 && vault < Q64
  }

  // ---- what a coherent pool rules out ----

  lemma {:induction false} ActiveUnderAll(ps: seq<PositionData>, t: int)
    ensures 0 <= Sum(ps, Active(t)) <= Sum(ps, All)
  {
    if ps != [] {
      ActiveUnderAll(ps[..|ps| - 1], t);
    }
  }

  /** A crossing cannot overflow. */
  lemma NetAlwaysFits(w: Walk, s: WalkState, ps: seq<PositionData>)
    requires w.Valid() && OnCourse(w, s) && TicksMatch(s.ticks, ps, w.pool.spacing) && InRange(s, ps)
    requires Sum(ps, All) < 0x8000_0000_0000_0000_0000_0000_0000_0000
    requires NextTarget(w, s.ticks, s.tick).Ok? && TargetOf(w, s).initialized
    ensures TargetOf(w, s).tick in s.ticks && NetFits(w.down, s.liquidity, s.ticks[TargetOf(w, s).tick].net)
  {
    var t := TargetOf(w, s).tick;
    TargetSeparates(w, s.ticks, ps, s.tick);
    if w.down {
      ActiveAcross(ps, t, s.tick);
    } else {
      ActiveAcross(ps, s.tick, t - 1);
    }
    ActiveStep(ps, t);
    ActiveUnderAll(ps, t);
    ActiveUnderAll(ps, t - 1);
    Leaving.NetWithin(ps, t);
  }

  /** No live range divides the way from the price to anywhere short of the aim. */
  lemma WayUndivided(w: Walk, s: WalkState, ps: seq<PositionData>, next: pos)
    requires w.Valid() && OnCourse(w, s) && TicksMatch(s.ticks, ps, w.pool.spacing)
    requires NextTarget(w, s.ticks, s.tick).Ok? && SwapMath.Toward(w.down, s.price, next, AimOf(w, s))
    ensures forall i :: 0 <= i < |ps| && ps[i].liquidity > 0 ==>
      Sound(ps[i], w.pool.spacing) && Undivided(ps[i], s.tick, s.price, next)
  {
    TargetSeparates(w, s.ticks, ps, s.tick);
    forall i | 0 <= i < |ps| && ps[i].liquidity > 0
      ensures Sound(ps[i], w.pool.spacing) && Undivided(ps[i], s.tick, s.price, next)
    {
      MoveUndivided(ps[i], s.tick, TargetOf(w, s).tick, s.price, next, w.down);
    }
  }

  /** So the exact output of a move within the range is principal that the pool holds. */
  lemma OutputIsHeld(w: Walk, s: WalkState, ps: seq<PositionData>, next: pos)
    requires w.Valid() && OnCourse(w, s) && TicksMatch(s.ticks, ps, w.pool.spacing) && InRange(s, ps)
    requires NextTarget(w, s.ticks, s.tick).Ok? && SwapMath.Toward(w.down, s.price, next, AimOf(w, s))
    ensures SwapMath.ExactOut(w.down, s.price, next, s.liquidity) <= Total(!w.down, ps, s.price)
  {
    WayUndivided(w, s, ps, next);
    TotalMoves(ps, w.pool.spacing, s.tick, s.price, next);
    SwapMath.TimesSub(s.liquidity, SwapMath.V0(s.price), SwapMath.V0(next));
    SwapMath.TimesSub(s.liquidity, SwapMath.V0(next), SwapMath.V0(s.price));
    SwapMath.TimesSub(s.liquidity, SwapMath.V1(s.price), SwapMath.V1(next));
    SwapMath.TimesSub(s.liquidity, SwapMath.V1(next), SwapMath.V1(s.price));
    TotalBounds(!w.down, ps, next);
  }

  /** The growth of a fee of 64 bits fits. */
  lemma GrowthFits(fee: nat, liquidity: pos)
    requires fee < Q64
    ensures DivFloor(fee * Q64, liquidity) < TWO_128
  {
    var q := DivFloor(fee * Q64, liquidity);
    MulMonoLeft(q, 1, liquidity);
  }

  /** Falling: what the range would pay out bounds what it would take to cross it. */
  lemma NearBelow(price: pos, aim: pos, liquidity: pos)
    requires MIN_SQRT_PRICE <= aim < price && SwapMath.Amount1(aim, price, liquidity, false) < Q64
    ensures SwapMath.Amount0(aim, price, liquidity, true) < TWO_128
  {
    var held, den := liquidity * (price - aim), aim * price;
    assert held < Q64 * Q64;
    MulMono(MIN_SQRT_PRICE, aim, price);
    MulMonoLeft(TWO_128 - 1, Q64 + 1, den);
    Regroup(liquidity, price - aim);
    CeilIsSmallest(liquidity * Q64 * (price - aim), den, TWO_128 - 1);
  }

  lemma Regroup(a: int, b: int)
    ensures a * Q64 * b == a * b * Q64
  {
  }

  /** Rising, likewise. */
  lemma NearAbove(price: pos, aim: pos, liquidity: pos)
    requires price < aim <= MAX_SQRT_PRICE && SwapMath.Amount0(price, aim, liquidity, false) < Q64
    ensures SwapMath.Amount1(price, aim, liquidity, true) < TWO_128
  {
    var held, den := liquidity * (aim - price), price * aim;
    Regroup(liquidity, aim - price);
    assert held * Q64 < Q64 * den by {
      var q := SwapMath.Amount0(price, aim, liquidity, false);
      MulMono(q + 1, Q64, den);
      assert (q + 1) * den == q * den + den;
    }
    MulMono(price, MAX_SQRT_PRICE, aim);
    CeilIsSmallest(held, Q64, TWO_128 - 1);
  }

  /** So no range of a coherent pool is too far to cross. */
  lemma NeverTooFar(w: Walk, s: WalkState, ps: seq<PositionData>, vault: nat, p: Purse)
    requires Fits(w, s, ps, vault, p) && NextTarget(w, s.ticks, s.tick).Ok? && 0 < s.liquidity
    ensures SwapMath.ToTarget(s.price, AimOf(w, s), s.liquidity) < TWO_128
  {
    var aim, l := AimOf(w, s), s.liquidity;
    AimAhead(w, s);
    OutputIsHeld(w, s, ps, aim);
    Changes.CoveredIsNonNegative(!w.down, ps, s.price, LoopVault(w, s, !w.down, vault), p);
    if w.down {
      SwapMath.MoveOut(true, s.price, aim, l, SwapMath.Amount1(aim, s.price, l, false));
      if aim < s.price {
        NearBelow(s.price, aim, l);
      }
    } else {
      SwapMath.MoveOut(false, s.price, aim, l, SwapMath.Amount0(s.price, aim, l, false));
      if s.price < aim {
        NearAbove(s.price, aim, l);
      }
    }
  }

  /** None of the checks of the charging part can fail. */
  lemma FillAlwaysFits(w: Walk, s: WalkState, ps: seq<PositionData>, vault: nat, p: Purse)
    requires Fits(w, s, ps, vault, p) && NextTarget(w, s.ticks, s.tick).Ok?
    ensures FillFits(w, Seen(s), AimOf(w, s))
  {
    if s.liquidity > 0 {
      var aim := AimOf(w, s);
      AimAhead(w, s);
      NeverTooFar(w, s, ps, vault, p);
      SwapMath.RawStepFacts(w.down, s.price, aim, s.liquidity, s.remaining, w.pool.feePips);
      var step := SwapMath.RawStep(s.price, aim, s.liquidity, s.remaining, w.pool.feePips);
      OutputIsHeld(w, s, ps, step.next);
      Changes.CoveredIsNonNegative(!w.down, ps, s.price, LoopVault(w, s, !w.down, vault), p);
      GrowthFits(step.fee, s.liquidity);
    }
  }

  /** In a coherent pool the engine refuses an iteration of the quote exactly when it
      arrives at the ceiling. */
  lemma IterateParts(w: Walk, ticks: map<int, Tick>, s: WalkState, ps: seq<PositionData>, vault: nat, p: Purse)
    requires Fits(w, s, ps, vault, p) && SameBook(s.ticks, ticks) && QuoteIterate(w, ticks, Seen(s)).Ok?
    ensures Iterate(w, s).Ok? <==> !AtCeiling(w, ticks, Seen(s))
  {
    SameTarget(w, s.ticks, ticks, s.tick);
    PartingOfWays(w, ticks, s);
    FillAlwaysFits(w, s, ps, vault, p);
    if TargetOf(w, s).initialized {
      NetAlwaysFits(w, s, ps);
      TargetSeparates(w, s.ticks, ps, s.tick);
    }
  }

  lemma IterateFits(w: Walk, s: WalkState, ps: seq<PositionData>, vault: nat, p: Purse) returns (p': Purse)
    requires Fits(w, s, ps, vault, p) && Iterate(w, s).Ok? && !Done(w, s) && !StallsOnTick(w, s)
    ensures Fits(w, Iterate(w, s).value, ps, vault, p')
  {
    var n, growth := Iterate(w, s).value, GrowthAdded(w, s, AimOf(w, s));
    IterateOnCourse(w, s);
    IterateAdvance(w, s, ps);
    StepToken(w, s, n, ps, growth, !w.down, vault, p);
    p' := StepPurse(w, s, n, ps, growth, !w.down, p);
  }

  /** One iteration of both walks. */
  lemma StepParts(w: Walk, ticks: map<int, Tick>, s: WalkState, ps: seq<PositionData>, vault: nat, p: Purse)
    requires Fits(w, s, ps, vault, p) && SameBook(s.ticks, ticks)
    ensures Iterate(w, s).Ok? <==> QuoteIterate(w, ticks, Seen(s)).Ok? && !AtCeiling(w, ticks, Seen(s))
    ensures Iterate(w, s).Ok? ==>
      QuoteIterate(w, ticks, Seen(s)) == Ok(Seen(Iterate(w, s).value)) && SameBook(Iterate(w, s).value.ticks, ticks)
  {
    if QuoteIterate(w, ticks, Seen(s)).Ok? {
      IterateParts(w, ticks, s, ps, vault, p);
    }
    if Iterate(w, s).Ok? {
      IterateAgrees(w, ticks, s);
    }
  }

  /** Unfolding both runs once. */
  lemma RunUnfolds(w: Walk, ticks: map<int, Tick>, s: WalkState)
    requires w.Valid() && w.pool.feePips < FEE_DENOM && !Done(w, s)
    requires Iterate(w, s).Ok? <==> QuoteIterate(w, ticks, Seen(s)).Ok? && !AtCeiling(w, ticks, Seen(s))
    requires Iterate(w, s).Ok? ==> QuoteIterate(w, ticks, Seen(s)) == Ok(Seen(Iterate(w, s).value))
    ensures Run(w, s).Ok? ==> Iterate(w, s).Ok? && Run(w, s) == Run(w, Iterate(w, s).value)
    ensures QuoteRun(w, ticks, Seen(s)).Ok? && BelowCeiling(w, ticks, Seen(s)) ==> Iterate(w, s).Ok?
    ensures Iterate(w, s).Ok? ==>
      && var n := Iterate(w, s).value;
      && Run(w, s) == Run(w, n)
      && QuoteRun(w, ticks, Seen(s)) == QuoteRun(w, ticks, Seen(n))
      && (BelowCeiling(w, ticks, Seen(s)) <==> BelowCeiling(w, ticks, Seen(n)))
  {
    if Iterate(w, s).Ok? {
      IterateAdvances(w, s);
      QuoteAdvances(w, ticks, Seen(s));
    }
  }

  /** The engine's run goes through if and only if the quote's does and stays below the
      ceiling; what it pays out is held. A stall is no exception: it ends the run. */
  lemma {:induction false} RunParts(w: Walk, ticks: map<int, Tick>, s: WalkState, ps: seq<PositionData>, vault: nat,
        p: Purse)
    requires Fits(w, s, ps, vault, p) && SameBook(s.ticks, ticks)
    ensures Run(w, s).Ok? <==> QuoteRun(w, ticks, Seen(s)).Ok? && BelowCeiling(w, ticks, Seen(s))
    ensures Run(w, s).Ok? ==> Run(w, s).value.totalOut <= vault
    decreases Left(w, s)
  {
    if Done(w, s) {
      Changes.CoveredIsNonNegative(!w.down, ps, s.price, LoopVault(w, s, !w.down, vault), p);
    } else {
      StepParts(w, ticks, s, ps, vault, p);
      RunUnfolds(w, ticks, s);
      if Iterate(w, s).Ok? {
        IterateAdvances(w, s);
        if Stalls(w, s) {
          StallPaysNothing(w, s, ps, vault, p);
        } else {
          var p' := IterateFits(w, s, ps, vault, p);
          RunParts(w, ticks, Iterate(w, s).value, ps, vault, p');
        }
      }
    }
  }

  /** A stall charges the rest of the input as fee, moves nothing and ends the run. */
  lemma StallPaysNothing(w: Walk, s: WalkState, ps: seq<PositionData>, vault: nat, p: Purse)
    requires Fits(w, s, ps, vault, p) && Iterate(w, s).Ok? && !Done(w, s) && Stalls(w, s)
    ensures var n := Iterate(w, s).value;
      Done(w, n) && n.price == s.price && n.totalOut == s.totalOut <= vault
  {
    StallEndsRun(w, s, ps);
    StallIsRaise(w, s);
    AimAhead(w, s);
    FillFacts(w, s, AimOf(w, s));
    if Iterate(w, s).value.price == ClampedPrice(TargetOf(w, s).tick) {
      LandOnTarget(w, s, ps);
    } else {
      RestsBetween(w, s);
    }
    SwapMath.TimesSub(s.liquidity, SwapMath.V1(s.price) - SwapMath.V1(s.price), 0.0);
    Changes.CoveredIsNonNegative(!w.down, ps, s.price, LoopVault(w, s, !w.down, vault), p);
  }

  // ---- the swap instruction ----

  lemma SwapFits(b: Book, a: Audit, down: bool, amountIn: u64, limit: u128, starts: seq<int>)
    requires Inv(b, a) && b.vault0 < Q64 && b.vault1 < Q64
    requires LimitFits(b.pool.price, down, limit) && Chained(starts, b.pool.spacing, b.pool.tick, down)
    ensures var w := WalkOf(b, down, limit, starts);
      Fits(w, Start(w, b.ticks, amountIn), b.positions, Vault(b, !down), PurseOf(a, !down))
  {
    ChainAligned(starts, b.pool.spacing, b.pool.tick, down);
    Leaving.LiquidityBounded(b, a);
  }

  ghost function QuoteOf(b: Book, down: bool, amountIn: u64, limit: u128, starts: seq<int>): Result<QuoteState>
    requires Sane(b) && LimitFits(b.pool.price, down, limit) && Chained(starts, b.pool.spacing, b.pool.tick, down)
  {
    ChainAligned(starts, b.pool.spacing, b.pool.tick, down);
    QuoteRun(WalkOf(b, down, limit, starts), b.ticks, QuoteStart(b.pool, amountIn))
  }

  /** The client's forecast: its quote goes through, below the ceiling. */
  ghost predicate GoesThrough(b: Book, down: bool, amountIn: u64, limit: u128, starts: seq<int>)
    requires Sane(b) && LimitFits(b.pool.price, down, limit) && Chained(starts, b.pool.spacing, b.pool.tick, down)
  {
    ChainAligned(starts, b.pool.spacing, b.pool.tick, down);
    && QuoteOf(b, down, amountIn, limit, starts).Ok?
    && BelowCeiling(WalkOf(b, down, limit, starts), b.ticks, QuoteStart(b.pool, amountIn))
  }

  /** The totals of a run pack into 64 bits. */
  lemma RunPacks(w: Walk, s: WalkState, vault: nat)
    requires w.Valid() && OnCourse(w, s) && Run(w, s).Ok? && s.crossings <= MAX_CROSSINGS
    requires s.remaining + s.totalIn + s.totalFee < Q64 && Run(w, s).value.totalOut <= vault < Q64
    ensures Outcome(Run(w, s).value).Ok? && Run(w, s).value.totalIn + Run(w, s).value.totalFee < Q64
  {
    RunConserves(w, s);
  }

  lemma RunDecides(b: Book, a: Audit, down: bool, amountIn: u64, limit: u128, starts: seq<int>)
    requires Inv(b, a) && b.vault0 < Q64 && b.vault1 < Q64
    requires LimitFits(b.pool.price, down, limit) && Chained(starts, b.pool.spacing, b.pool.tick, down)
    ensures var w := WalkOf(b, down, limit, starts);
      var s := Start(w, b.ticks, amountIn);
      && w.Valid()
      && (Run(w, s).Ok? <==> GoesThrough(b, down, amountIn, limit, starts))
      && (Run(w, s).Ok? ==>
            var end := Run(w, s).value;
            && QuoteOf(b, down, amountIn, limit, starts) == Ok(Seen(end))
            && Outcome(end).Ok? && end.totalIn + end.totalFee < Q64 && end.totalOut <= Vault(b, !down))
  {
    var w := WalkOf(b, down, limit, starts);
    var s := Start(w, b.ticks, amountIn);
    ChainAligned(starts, b.pool.spacing, b.pool.tick, down);
    SwapFits(b, a, down, amountIn, limit, starts);
    RunParts(w, b.ticks, s, b.positions, Vault(b, !down), PurseOf(a, !down));
    if Run(w, s).Ok? {
      RunAgrees(w, b.ticks, s);
      RunPacks(w, s, Vault(b, !down));
    }
  }

  /** What the swap instruction makes of the end of its run. */
  lemma RunSettles(b: Book, w: Walk, s: WalkState, minOut: u64)
    requires s.totalIn + s.totalFee < Q64 && s.totalOut <= Vault(b, !w.down) && Outcome(s).Ok?
    ensures var r := Settled(b, w.down, minOut, Outcome(s).value);
      && (r.Ok? <==> minOut <= s.totalOut)
      && (r.Ok? ==>
            && Vault(r.value, w.down) == Vault(b, w.down) + s.totalIn + s.totalFee
            && Vault(r.value, !w.down) == Vault(b, !w.down) - s.totalOut
            && r.value.pool.price == s.price && r.value.pool.tick == Clamp(s.tick)
            && r.value.pool.liquidity == s.liquidity)
  {
  }

  /** The quote decides the swap. In every coherent state whose vaults hold 64-bit
      amounts, a swap instruction, stalling or not, succeeds if and only if its arguments pass the checks made
      before the walk and the client's quote over the same arrays goes through, does not
      arrive at the window's ceiling and pays at least the floor: no amount, total, growth,
      net or transfer can fail on its own. And it then does exactly what was quoted. */
  lemma QuoteDecides(b: Book, a: Audit, down: bool, amountIn: u64, minOut: u64, limit: u128, starts: seq<int>)
    requires Inv(b, a) && b.vault0 < Q64 && b.vault1 < Q64
    ensures var r := ApplySwap(b, down, amountIn, minOut, limit, starts);
      && (r.Ok? <==>
            && CheckWindow(b, starts).Ok? && 0 < amountIn && LimitFits(b.pool.price, down, limit)
            && Chained(starts, b.pool.spacing, b.pool.tick, down)
            && GoesThrough(b, down, amountIn, limit, starts)
            && minOut <= QuoteOf(b, down, amountIn, limit, starts).value.totalOut)
      && (r.Ok? ==>
            var n, q := r.value, QuoteOf(b, down, amountIn, limit, starts).value;
            && Vault(n, down) == Vault(b, down) + q.totalIn + q.totalFee
            && Vault(n, !down) == Vault(b, !down) - q.totalOut
            && n.pool.price == q.price && n.pool.tick == Clamp(q.tick) && n.pool.liquidity == q.liquidity)
  {
    LimitFitsIs(b.pool, down, limit);
    if LimitFits(b.pool.price, down, limit) && Chained(starts, b.pool.spacing, b.pool.tick, down) {
      var w := WalkOf(b, down, limit, starts);
      var s := Start(w, b.ticks, amountIn);
      RunDecides(b, a, down, amountIn, limit, starts);
      if Run(w, s).Ok? {
        RunSettles(b, w, Run(w, s).value, minOut);
      }
    }
  }
}
