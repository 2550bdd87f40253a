/** The stalled step of a falling swap: where its trace can be seen from outside, and a
    state in which it breaks the pool. */
module Stall {
  import opened Numbers
  import opened TickMath
  import opened Ticks
  import opened SwapWalk
  import opened Ledger
  import opened Coherence
  import opened Runs
  import opened Book
  import opened Invariant

  /** The price is exactly that of the recorded tick, and the tick is in use. */
  ghost predicate Rests(ticks: map<int, Tick>, price: nat, tick: int) {
    tick in ticks && ticks[tick].Initialized() && price == ClampedPrice(tick)
  }

  lemma InitializedIsLiveEnd(ticks: map<int, Tick>, ps: seq<PositionData>, spacing: pos, t: int)
    requires TicksMatch(ticks, ps, spacing) && t in ticks && ticks[t].Initialized()
    ensures LiveEnd(ps, t) && MIN_TICK <= t <= MAX_TICK && t % spacing == 0
  {
    if !LiveEnd(ps, t) {
      NobodyEndsAt(ps, t);
    }
  }

  lemma LandsBelow(w: Walk, s: WalkState)
    requires w.Valid() && w.down && Iterate(w, s).Ok? && Iterate(w, s).value.price == ClampedPrice(TargetOf(w, s).tick)
    ensures Iterate(w, s).value.tick == TargetOf(w, s).tick - 1
  {
  }

  lemma NotBelow(ticks: map<int, Tick>, ps: seq<PositionData>, feePips: nat, spacing: pos, t: int)
    requires TicksMatch(ticks, ps, spacing) && IsTier(feePips, spacing)
    ensures !Rests(ticks, ClampedPrice(t), t - 1)
  {
    if t - 1 in ticks && ticks[t - 1].Initialized() {
      InitializedIsLiveEnd(ticks, ps, spacing, t - 1);
      PriceMono(t - 1, t);
    }
  }

  lemma LandNeverRests(w: Walk, s: WalkState, ps: seq<PositionData>)
    requires w.Valid() && w.down && OnCourse(w, s) && Iterate(w, s).Ok? && !Done(w, s)
        && IsTier(w.pool.feePips, w.pool.spacing)
    requires TicksMatch(s.ticks, ps, w.pool.spacing) && InRange(s, ps)
    requires Iterate(w, s).value.price == ClampedPrice(TargetOf(w, s).tick)
    ensures var n := Iterate(w, s).value;
      !StallsOnTick(w, s) && !Rests(n.ticks, n.price, n.tick)
  {
    var n := Iterate(w, s).value;
    StallIsRaise(w, s);
    LandOnTarget(w, s, ps);
    LandsBelow(w, s);
    NotBelow(n.ticks, ps, w.pool.feePips, w.pool.spacing, TargetOf(w, s).tick);
  }

  lemma ShortRests(w: Walk, s: WalkState, ps: seq<PositionData>)
    requires w.Valid() && w.down && OnCourse(w, s) && Iterate(w, s).Ok? && !Done(w, s)
    requires TicksMatch(s.ticks, ps, w.pool.spacing) && InRange(s, ps)
    requires Iterate(w, s).value.price != ClampedPrice(TargetOf(w, s).tick)
    ensures var n := Iterate(w, s).value;
      StallsOnTick(w, s) <==> Rests(n.ticks, n.price, n.tick)
  {
    var n, t := Iterate(w, s).value, TargetOf(w, s).tick;
    StallIsRaise(w, s);
    RestShort(w, s, ps);
    TargetSeparates(w, s.ticks, ps, s.tick);
    if Rests(n.ticks, n.price, n.tick) && n.tick <= s.tick {
      InitializedIsLiveEnd(n.ticks, ps, w.pool.spacing, n.tick);
      OutsideGap(ps, t, s.tick, n.tick);
    }
  }

  /** The last iteration of a falling run stalls on a tick in use exactly when it leaves the
      price resting on the tick it records. */
  lemma LastIterationRests(w: Walk, s: WalkState, ps: seq<PositionData>)
    requires w.Valid() && w.down && OnCourse(w, s) && Iterate(w, s).Ok? && !Done(w, s)
        && IsTier(w.pool.feePips, w.pool.spacing)
    requires TicksMatch(s.ticks, ps, w.pool.spacing) && InRange(s, ps)
    ensures var n := Iterate(w, s).value;
      StallsOnTick(w, s) <==> Rests(n.ticks, n.price, n.tick)
  {
    if Iterate(w, s).value.price == ClampedPrice(TargetOf(w, s).tick) {
      LandNeverRests(w, s, ps);
    } else {
      ShortRests(w, s, ps);
    }
  }

  lemma {:induction false} StallShows(w: Walk, s: WalkState, ps: seq<PositionData>)
    requires w.Valid() && w.down && OnCourse(w, s) && Run(w, s).Ok? && !Done(w, s) &&
        IsTier(w.pool.feePips, w.pool.spacing)
    requires TicksMatch(s.ticks, ps, w.pool.spacing) && InRange(s, ps)
    ensures var end := Run(w, s).value;
      StallFree(w, s) <==> !Rests(end.ticks, end.price, end.tick)
    decreases Left(w, s)
  {
    var n := Iterate(w, s).value;
    IterateAdvances(w, s);
    IterateOnCourse(w, s);
    if Done(w, n) {
      LastIterationRests(w, s, ps);
    } else {
      if Stalls(w, s) {
        StallEndsRun(w, s, ps);
      }
      IterateLiquidity(w, s, ps);
      StallShows(w, n, ps);
    }
  }

  lemma ClampRests(ticks: map<int, Tick>, ps: seq<PositionData>, feePips: nat, spacing: pos, price: nat, tick: int)
    requires TicksMatch(ticks, ps, spacing) && IsTier(feePips, spacing)
    ensures Rests(ticks, price, Clamp(tick)) <==> Rests(ticks, price, tick)
  {
    forall t | t in ticks && ticks[t].Initialized() ensures MIN_TICK < t < MAX_TICK {
      InitializedIsLiveEnd(ticks, ps, spacing, t);
    }
  }

  /** The hypothesis of every fee and solvency result, read off the pool after the swap: a
      falling swap was calm exactly when it did not leave the price resting on the very tick
      it records, with that tick in use; a rising swap always is. */
  lemma CalmShows(b: Book, down: bool, amountIn: u64, minOut: u64, limit: u128, starts: seq<int>)
    requires Sane(b) && LiquidityOk(b) && ApplySwap(b, down, amountIn, minOut, limit, starts).Ok?
    ensures var n := ApplySwap(b, down, amountIn, minOut, limit, starts).value;
      Calm(b, Swap(down, amountIn, minOut, limit, starts)) <==> !(down && Rests(n.ticks, n.pool.price, n.pool.tick))
  {
    SwapRuns(b, down, amountIn, minOut, limit, starts);
    var w := WalkOf(b, down, limit, starts);
    var s := Start(w, b.ticks, amountIn);
    var end := Run(w, s).value;
    assert Calm(b, Swap(down, amountIn, minOut, limit, starts)) == StallFree(w, s);
    if down {
      StallShows(w, s, b.positions);
      RunKeepsTicks(w, s, b.positions);
      ClampRests(end.ticks, b.positions, b.pool.feePips, b.pool.spacing, end.price, end.tick);
    } else {
      RisingIsStallFree(w, s);
    }
  }
}
