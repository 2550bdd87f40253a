/** Selling a swap's whole output straight back, across any number of crossed ticks: the
    trader never gets back more than was paid. */
module SwapBack {
  import opened Numbers
  import opened Ticks
  import opened SwapWalk
  import opened Ledger
  import opened Coherence
  import opened Principal
  import opened Runs
  import opened Book
  import opened Invariant
  import opened SwapMath

  /** A calm run takes in at least, and pays out at most, the exact change of the positions'
      principal, and leaves the liquidity in range. */
  lemma {:induction false} RunMovesTotals(w: Walk, s: WalkState, ps: seq<PositionData>)
    requires w.Valid() && OnCourse(w, s) && Run(w, s).Ok? && StallFree(w, s)
    requires TicksMatch(s.ticks, ps, w.pool.spacing) && InRange(s, ps)
    ensures var end := Run(w, s).value;
      && InRange(end, ps)
      && Total(w.down, ps, end.price) - Total(w.down, ps, s.price) <= (end.totalIn - s.totalIn) as real
      && (end.totalOut - s.totalOut) as real <= Total(!w.down, ps, s.price) - Total(!w.down, ps, end.price)
    decreases Left(w, s)
  {
    if !Done(w, s) {
      var n := Iterate(w, s).value;
      IterateAdvances(w, s);
      IterateAdvance(w, s, ps);
      SwapMovesTotals(w, s, n, ps, GrowthAdded(w, s, AimOf(w, s)));
      RunMovesTotals(w, n, ps);
    }
  }

  /** A rising price empties a range of token 0 and fills it with token 1, or does neither. */
  lemma UnitCompares(p: PositionData, a: pos, b: pos)
    requires p.lower < p.upper && a <= b
    ensures Unit0(p, b) <= Unit0(p, a) && Unit1(p, a) <= Unit1(p, b)
    ensures Unit0(p, b) == Unit0(p, a) <==> Unit1(p, a) == Unit1(p, b)
  {
    ClampedMono(p.lower, p.upper);
    var x, y := Within(p, a), Within(p, b);
    V0Increases(x, y);
    V1Increases(x, y);
    V1Increases(y, x);
  }

  lemma ShareCompares(l: nat, a0: real, b0: real, a1: real, b1: real)
    requires b0 <= a0 && a1 <= b1 && (b0 == a0 <==> a1 == b1)
    ensures Times(l, b0) <= Times(l, a0) && Times(l, a1) <= Times(l, b1)
    ensures Times(l, b0) == Times(l, a0) <==> Times(l, a1) == Times(l, b1)
  {
    TimesMono(l, b0, a0);
    TimesMono(l, a1, b1);
    TimesIs(l, a0);
    TimesIs(l, b0);
    TimesIs(l, a1);
    TimesIs(l, b1);
    if l > 0 {
      if Times(l, b0) == Times(l, a0) {
        RealOrder(a0 * l as real, b0 * l as real, 1.0);
        RealOrder(a0, b0, l as real);
      }
      if Times(l, a1) == Times(l, b1) {
        RealOrder(b1, a1, l as real);
      }
    }
  }

  lemma {:induction false} TotalCompares(ps: seq<PositionData>, a: pos, b: pos)
    requires Ordered(ps) && a <= b
    ensures Total(true, ps, b) <= Total(true, ps, a) && Total(false, ps, a) <= Total(false, ps, b)
    ensures Total(true, ps, b) == Total(true, ps, a) <==> Total(false, ps, a) == Total(false, ps, b)
  {
    if ps != [] {
      var n := |ps| - 1;
      var p := ps[n];
      TotalCompares(ps[..n], a, b);
      if p.liquidity > 0 {
        UnitCompares(p, a, b);
        ShareCompares(p.liquidity, Unit0(p, a), Unit0(p, b), Unit1(p, a), Unit1(p, b));
      } else {
        TimesSub(0, Unit0(p, a), Unit0(p, b));
        TimesSub(0, Unit0(p, b), Unit0(p, a));
        TimesSub(0, Unit1(p, a), Unit1(p, b));
        TimesSub(0, Unit1(p, b), Unit1(p, a));
      }
    }
  }

  /** Two legs on the potentials: the first leaves at `turn`, the second ends at `end`. */
  lemma LegsCompare(ps: seq<PositionData>, down: bool, start: pos, turn: pos, end: pos, paid: int, got: int,
        paidBack: int, gotBack: int)
    requires Ordered(ps) && paidBack <= got
    requires Total(down, ps, turn) - Total(down, ps, start) <= paid as real
    requires got as real <= Total(!down, ps, start) - Total(!down, ps, turn)
    requires Total(!down, ps, end) - Total(!down, ps, turn) <= paidBack as real
    requires gotBack as real <= Total(down, ps, turn) - Total(down, ps, end)
    ensures gotBack <= paid
    ensures Toward(!down, end, end, start)
        || (Total(true, ps, end) == Total(true, ps, start) && Total(false, ps, end) == Total(false, ps, start))
  {
    if start <= end {
      TotalCompares(ps, start, end);
    } else {
      TotalCompares(ps, end, start);
    }
  }

  /** A calm swap in terms of the book: what it takes in and pays out against the principal. */
  lemma SwapMovesPrincipal(b: Book, down: bool, amountIn: u64, minOut: u64, limit: u128, starts: seq<int>)
    requires Sane(b) && LiquidityOk(b) && Calm(b, Swap(down, amountIn, minOut, limit, starts))
    requires WindowSwap(b, down, amountIn, DefaultLimit(down, limit), starts).Ok?
    ensures var o := WindowSwap(b, down, amountIn, DefaultLimit(down, limit), starts).value.0;
      && o.amountIn + o.fee <= amountIn
      && Total(down, b.positions, o.price) - Total(down, b.positions, b.pool.price) <= o.amountIn as real
      && o.amountOut as real <= Total(!down, b.positions, b.pool.price) - Total(!down, b.positions, o.price)
      && o.liquidity == Sum(b.positions, Active(o.tick))
  {
    WindowRuns(b, down, amountIn, limit, starts);
    var w := WalkOf(b, down, limit, starts);
    var s := Start(w, b.ticks, amountIn);
    RunMovesTotals(w, s, b.positions);
    RunConserves(w, s);
    ActiveClamped(b.positions, b.pool.feePips, b.pool.spacing, Run(w, s).value.tick);
  }

  lemma SwapLeaves(b: Book, down: bool, amountIn: u64, minOut: u64, limit: u128, starts: seq<int>)
    requires Sane(b) && LiquidityOk(b) && ApplySwap(b, down, amountIn, minOut, limit, starts).Ok?
    requires Calm(b, Swap(down, amountIn, minOut, limit, starts))
    ensures WindowSwap(b, down, amountIn, DefaultLimit(down, limit), starts).Ok?
    ensures var n := ApplySwap(b, down, amountIn, minOut, limit, starts).value;
      && Sane(n) && LiquidityOk(n) && n.positions == b.positions
      && n.pool.price == WindowSwap(b, down, amountIn, DefaultLimit(down, limit), starts).value.0.price
  {
    SwapIsSane(b, down, amountIn, minOut, limit, starts);
    SwapMovesPrincipal(b, down, amountIn, minOut, limit, starts);
  }

  /** There and back: whatever the pool, the amounts, the limits and the windows, selling at
      most the output of a calm swap straight back returns at most its input net of fee, and
      the price ends up past its start only across prices no position is in range at. */
  lemma ThereAndBackAgain(b: Book, down: bool, amountIn: u64, minOut: u64, limit: u128, starts: seq<int>, backIn: u64,
        backMin: u64, backLimit: u128, backStarts: seq<int>)
    requires Sane(b) && LiquidityOk(b) && ApplySwap(b, down, amountIn, minOut, limit, starts).Ok?
    requires Calm(b, Swap(down, amountIn, minOut, limit, starts))
    requires WindowSwap(b, down, amountIn, DefaultLimit(down, limit), starts).Ok?
    requires var n := ApplySwap(b, down, amountIn, minOut, limit, starts).value;
      && backIn <= WindowSwap(b, down, amountIn, DefaultLimit(down, limit), starts).value.0.amountOut
      && Calm(n, Swap(!down, backIn, backMin, backLimit, backStarts))
      && WindowSwap(n, !down, backIn, DefaultLimit(!down, backLimit), backStarts).Ok?
    ensures var n := ApplySwap(b, down, amountIn, minOut, limit, starts).value;
      var there := WindowSwap(b, down, amountIn, DefaultLimit(down, limit), starts).value.0;
      var back := WindowSwap(n, !down, backIn, DefaultLimit(!down, backLimit), backStarts).value.0;
      && back.amountOut <= there.amountIn
      && (|| Toward(!down, back.price, back.price, b.pool.price)
          || (forall zero :: Total(zero, b.positions, back.price) == Total(zero, b.positions, b.pool.price)))
  {
    var n := ApplySwap(b, down, amountIn, minOut, limit, starts).value;
    var there := WindowSwap(b, down, amountIn, DefaultLimit(down, limit), starts).value.0;
    var back := WindowSwap(n, !down, backIn, DefaultLimit(!down, backLimit), backStarts).value.0;
    SwapLeaves(b, down, amountIn, minOut, limit, starts);
    SwapMovesPrincipal(b, down, amountIn, minOut, limit, starts);
    SwapMovesPrincipal(n, !down, backIn, backMin, backLimit, backStarts);
    LegsCompare(b.positions, down, b.pool.price, there.price, back.price, there.amountIn, there.amountOut,
          back.amountIn, back.amountOut);
  }
}
