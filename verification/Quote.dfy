/** The off-chain quote walk (app/lib/clmm-quote.ts): unbounded integers, ticks read by
    looking their array up, no refusal at the window's ceiling and no clamp on the final
    tick - and the proof that it agrees with every swap the engine accepts. */
module Quote {
  import opened Numbers
  import opened TickMath
  import opened Ticks
  import opened SwapWalk
  import opened Coherence
  import opened SwapMath

  /** What the client decodes from a tick-array account. */
  datatype TickView = TickView(gross: nat, net: int)
  datatype ArrayView = ArrayView(start: int, ticks: seq<TickView>)

  datatype QuoteState = QuoteState(
    price: pos,
    tick: int,
    liquidity: nat,
    remaining: nat,
    totalIn: nat,
    totalOut: nat,
    totalFee: nat,
    crossings: nat)

  datatype ClmmQuote = ClmmQuote(
    amountIn: nat,
    fee: nat,
    amountOut: nat,
    priceAfter: pos,
    tickAfter: int,
    partialFill: bool,
    amountInRemaining: nat)

  // ---- the walk on values ----

  ghost function QuoteFill(w: Walk, q: QuoteState, aim: pos): QuoteState
    requires w.pool.feePips < FEE_DENOM
  {
    if q.liquidity == 0 then q.(price := aim)
    else
      var step := RawStep(q.price, aim, q.liquidity, q.remaining, w.pool.feePips);
      RawStepMoves(q.price >= aim, q.price, aim, q.liquidity, q.remaining, w.pool.feePips);
      RawStepCharges(q.price, aim, q.liquidity, q.remaining, w.pool.feePips);
      q.(price := step.next,
         remaining := q.remaining - (step.amountIn + step.fee),
         totalIn := q.totalIn + step.amountIn, totalOut := q.totalOut + step.amountOut,
         totalFee := q.totalFee + step.fee)
  }

  ghost function QuoteLand(w: Walk, ticks: map<int, Tick>, q: QuoteState, target: Target,
        targetPrice: nat): Result<QuoteState> {
    if q.price == targetPrice then
      var c :-
        if target.initialized then
          var t :- Lookup(ticks, target.tick);
          var net: int := t.net;
          var liquidity := q.liquidity + if w.down then -net else net;
          if liquidity < 0 then Err(MathOverflow) else Ok(q.(liquidity := liquidity, crossings := q.crossings + 1))
        else Ok(q);
      Ok(c.(tick := if w.down then target.tick - 1 else target.tick))
    else if q.price != w.pool.price then
      var t :- TickAt(q.price);
      Ok(q.(tick := t))
    else Ok(q)
  }

  ghost function QuoteIterate(w: Walk, ticks: map<int, Tick>, q: QuoteState): Result<QuoteState>
    requires w.Valid() && w.pool.feePips < FEE_DENOM
  {
    var target :- NextTarget(w, ticks, q.tick);
    var targetPrice := TargetPrice(w, target.tick);
    QuoteLand(w, ticks, QuoteFill(w, q, Aim(w, targetPrice)), target, targetPrice)
  }

  predicate QuoteDone(w: Walk, q: QuoteState) {
    q.remaining == 0 || q.price == w.limit || q.crossings >= MAX_CROSSINGS
  }

  function QuoteLeft(w: Walk, q: QuoteState): nat {
    if QuoteDone(w, q) then 0
    else 1 + if w.down then Max(0, q.tick - w.lo + 1) else Max(0, w.hi - q.tick)
  }

  lemma QuoteAdvances(w: Walk, ticks: map<int, Tick>, q: QuoteState)
    requires w.Valid() && w.pool.feePips < FEE_DENOM && !QuoteDone(w, q) && QuoteIterate(w, ticks, q).Ok?
    ensures QuoteLeft(w, QuoteIterate(w, ticks, q).value) < QuoteLeft(w, q)
  {
    var target := NextTarget(w, ticks, q.tick).value;
    FloorAligned(q.tick, w.pool.spacing);
    var aim := Aim(w, TargetPrice(w, target.tick));
    if q.liquidity != 0 {
      RawStepCharges(q.price, aim, q.liquidity, q.remaining, w.pool.feePips);
    }
    assert QuoteFill(w, q, aim).price != TargetPrice(w, target.tick) ==> QuoteDone(w, QuoteFill(w, q, aim));
  }

  ghost function QuoteRun(w: Walk, ticks: map<int, Tick>, q: QuoteState): (r: Result<QuoteState>)
    requires w.Valid() && w.pool.feePips < FEE_DENOM
    decreases QuoteLeft(w, q)
  {
    if QuoteDone(w, q) then Ok(q)
    else
      var next :- QuoteIterate(w, ticks, q);
      QuoteAdvances(w, ticks, q);
      QuoteRun(w, ticks, next)
  }

  function QuoteStart(pool: PoolData, amountIn: nat): QuoteState {
    QuoteState(pool.price, pool.tick, pool.liquidity, amountIn, 0, 0, 0, 0)
  }

  function QuoteOutcome(q: QuoteState): ClmmQuote {
    ClmmQuote(q.totalIn, q.totalFee, q.totalOut, q.price, q.tick, q.remaining > 0, q.remaining)
  }

  // ---- agreement with the engine ----

  /** The part of the engine's loop state the quote also keeps. */
  function Seen(s: WalkState): QuoteState {
    QuoteState(s.price, s.tick, s.liquidity, s.remaining, s.totalIn, s.totalOut, s.totalFee, s.crossings)
  }

  /** Crossings flip outside growth only: gross and net are those the quote started from. */
  ghost predicate SameBook(a: map<int, Tick>, b: map<int, Tick>) {
    a.Keys == b.Keys && forall t :: t in a ==> a[t].gross == b[t].gross && a[t].net == b[t].net
  }

  lemma {:induction false} SameScanDown(a: map<int, Tick>, b: map<int, Tick>, spacing: pos, lo: int, cand: int)
    requires cand % spacing == 0 && lo % spacing == 0 && SameBook(a, b)
    ensures ScanDown(a, spacing, lo, cand) == ScanDown(b, spacing, lo, cand)
    decreases cand - lo
  {
    if lo <= cand && cand in a && !a[cand].Initialized() && cand != lo {
      AlignedStep(cand, spacing);
      AlignedApart(lo, cand, spacing);
      SameScanDown(a, b, spacing, lo, cand - spacing);
    }
  }

  lemma {:induction false} SameScanUp(a: map<int, Tick>, b: map<int, Tick>, spacing: pos, hi: int, cand: int)
    requires cand % spacing == 0 && hi % spacing == 0 && SameBook(a, b)
    ensures ScanUp(a, spacing, hi, cand) == ScanUp(b, spacing, hi, cand)
    decreases hi - cand
  {
    if cand < hi && cand in a && !a[cand].Initialized() {
      AlignedStep(cand, spacing);
      AlignedApart(cand, hi, spacing);
      SameScanUp(a, b, spacing, hi, cand + spacing);
    }
  }

  lemma SameTarget(w: Walk, a: map<int, Tick>, b: map<int, Tick>, tick: int)
    requires w.Valid() && SameBook(a, b)
    ensures NextTarget(w, a, tick) == NextTarget(w, b, tick)
  {
    var floor := tick / w.pool.spacing * w.pool.spacing;
    FloorAligned(tick, w.pool.spacing);
    AlignedStep(floor, w.pool.spacing);
    if w.down {
      if w.lo <= floor {
        SameScanDown(a, b, w.pool.spacing, w.lo, floor);
      }
    } else {
      SameScanUp(a, b, w.pool.spacing, w.hi, floor + w.pool.spacing);
    }
  }

  lemma FillAgrees(w: Walk, s: WalkState, aim: sqrtprice)
    requires w.pool.feePips < FEE_DENOM && Fill(w, s, aim).Ok?
    ensures QuoteFill(w, Seen(s), aim) == Seen(Fill(w, s, aim).value)
    ensures Fill(w, s, aim).value.ticks == s.ticks
  {
    if s.liquidity != 0 {
      StepIsComputed(s.price, aim, s.liquidity, s.remaining, w.pool.feePips);
    }
  }

  lemma LandAgrees(w: Walk, ticks: map<int, Tick>, s: WalkState, target: Target, targetPrice: nat)
    requires SameBook(s.ticks, ticks) && Land(w, s, target, targetPrice).Ok?
    ensures var n := Land(w, s, target, targetPrice).value;
      QuoteLand(w, ticks, Seen(s), target, targetPrice) == Ok(Seen(n)) && SameBook(n.ticks, ticks)
  {
  }

  lemma IterateAgrees(w: Walk, ticks: map<int, Tick>, s: WalkState)
    requires w.Valid() && w.pool.feePips < FEE_DENOM && SameBook(s.ticks, ticks) && Iterate(w, s).Ok?
    ensures var n := Iterate(w, s).value;
      QuoteIterate(w, ticks, Seen(s)) == Ok(Seen(n)) && SameBook(n.ticks, ticks)
  {
    SameTarget(w, s.ticks, ticks, s.tick);
    var target := NextTarget(w, s.ticks, s.tick).value;
    var targetPrice := TargetPrice(w, target.tick);
    FillAgrees(w, s, Aim(w, targetPrice));
    LandAgrees(w, ticks, Fill(w, s, Aim(w, targetPrice)).value, target, targetPrice);
  }

  lemma {:induction false} RunAgrees(w: Walk, ticks: map<int, Tick>, s: WalkState)
    requires w.Valid() && w.pool.feePips < FEE_DENOM && SameBook(s.ticks, ticks) && Run(w, s).Ok?
    ensures QuoteRun(w, ticks, Seen(s)) == Ok(Seen(Run(w, s).value))
    decreases Left(w, s)
  {
    if !Done(w, s) {
      IterateAdvances(w, s);
      IterateAgrees(w, ticks, s);
      RunAgrees(w, ticks, Iterate(w, s).value);
    }
  }

  /** A swap that goes through, in terms of the end of its run. */
  lemma SwapIsRun(pool: PoolData, ticks: map<int, Tick>, lo: int, hi: int, down: bool, amountIn: u64, limit: u128)
    requires lo % pool.spacing == 0 && hi % pool.spacing == 0
    requires SwapWalk.Swap(pool, ticks, lo, hi, down, amountIn, limit).Ok?
    ensures LimitOk(pool, down, limit)
    ensures var w := Walk(pool, down, limit, lo, hi);
      var r := Run(w, Start(w, ticks, amountIn));
      r.Ok? && Outcome(r.value) == Ok(SwapWalk.Swap(pool, ticks, lo, hi, down, amountIn, limit).value.0)
  {
  }

  lemma OutcomeAgrees(s: WalkState)
    requires Outcome(s).Ok?
    ensures var q, o := QuoteOutcome(Seen(s)), Outcome(s).value;
      && q.amountIn == o.amountIn && q.fee == o.fee && q.amountOut == o.amountOut && q.priceAfter == o.price
      && Clamp(q.tickAfter) == o.tick
  {
  }

  /** Whenever the engine accepts a swap, the quote over the same data returns the same
      input, fee, output and price, and a tick that is the engine's after clamping. */
  lemma QuoteAgrees(pool: PoolData, ticks: map<int, Tick>, lo: int, hi: int, down: bool, amountIn: u64, limit: u128)
    requires lo % pool.spacing == 0 && hi % pool.spacing == 0 && pool.feePips < FEE_DENOM
    requires SwapWalk.Swap(pool, ticks, lo, hi, down, amountIn, limit).Ok?
    ensures LimitOk(pool, down, limit)
    ensures var o := SwapWalk.Swap(pool, ticks, lo, hi, down, amountIn, limit).value.0;
      var r := QuoteRun(Walk(pool, down, limit, lo, hi), ticks, QuoteStart(pool, amountIn));
      && r.Ok?
      && var q := QuoteOutcome(r.value);
      && q.amountIn == o.amountIn && q.fee == o.fee && q.amountOut == o.amountOut && q.priceAfter == o.price
      && Clamp(q.tickAfter) == o.tick
  {
    var w := Walk(pool, down, limit, lo, hi);
    SwapIsRun(pool, ticks, lo, hi, down, amountIn, limit);
    RunAgrees(w, ticks, Start(w, ticks, amountIn));
    OutcomeAgrees(Run(w, Start(w, ticks, amountIn)).value);
  }

  lemma FillConserves(w: Walk, q: QuoteState, aim: pos)
    requires w.pool.feePips < FEE_DENOM
    ensures var f := QuoteFill(w, q, aim);
      f.totalIn + f.totalFee + f.remaining == q.totalIn + q.totalFee + q.remaining
  {
    if q.liquidity != 0 {
      RawStepCharges(q.price, aim, q.liquidity, q.remaining, w.pool.feePips);
    }
  }

  lemma LandConserves(w: Walk, ticks: map<int, Tick>, q: QuoteState, target: Target, targetPrice: nat)
    requires QuoteLand(w, ticks, q, target, targetPrice).Ok?
    ensures var n := QuoteLand(w, ticks, q, target, targetPrice).value;
      n.totalIn == q.totalIn && n.totalFee == q.totalFee && n.remaining == q.remaining
  {
  }

  /** The quote accounts for all of the input: used, charged or reported as left over. */
  lemma {:induction false} QuoteConserves(w: Walk, ticks: map<int, Tick>, q: QuoteState)
    requires w.Valid() && w.pool.feePips < FEE_DENOM && QuoteRun(w, ticks, q).Ok?
    ensures var end := QuoteRun(w, ticks, q).value;
      end.totalIn + end.totalFee + end.remaining == q.totalIn + q.totalFee + q.remaining
    decreases QuoteLeft(w, q)
  {
    if !QuoteDone(w, q) {
      QuoteAdvances(w, ticks, q);
      var target := NextTarget(w, ticks, q.tick).value;
      var targetPrice := TargetPrice(w, target.tick);
      FillConserves(w, q, Aim(w, targetPrice));
      LandConserves(w, ticks, QuoteFill(w, q, Aim(w, targetPrice)), target, targetPrice);
      QuoteConserves(w, ticks, QuoteIterate(w, ticks, q).value);
    }
  }

  /** What the client is told adds up to its offer, and it is told of a partial fill exactly when
      something is left, which is at the limit or after sixteen crossings. */
  lemma QuoteReports(w: Walk, ticks: map<int, Tick>, amountIn: nat)
    requires w.Valid() && w.pool.feePips < FEE_DENOM && QuoteRun(w, ticks, QuoteStart(w.pool, amountIn)).Ok?
    ensures var end := QuoteRun(w, ticks, QuoteStart(w.pool, amountIn)).value;
      var r := QuoteOutcome(end);
      && r.amountIn + r.fee + r.amountInRemaining == amountIn
      && (r.partialFill <==> 0 < r.amountInRemaining)
      && (r.partialFill ==> r.priceAfter == w.limit || 16 <= end.crossings)
  {
    QuoteConserves(w, ticks, QuoteStart(w.pool, amountIn));
    QuoteEnds(w, ticks, QuoteStart(w.pool, amountIn));
  }

  lemma {:induction false} QuoteEnds(w: Walk, ticks: map<int, Tick>, q: QuoteState)
    requires w.Valid() && w.pool.feePips < FEE_DENOM && QuoteRun(w, ticks, q).Ok?
    ensures QuoteDone(w, QuoteRun(w, ticks, q).value)
    decreases QuoteLeft(w, q)
  {
    if !QuoteDone(w, q) {
      QuoteAdvances(w, ticks, q);
      QuoteEnds(w, ticks, QuoteIterate(w, ticks, q).value);
    }
  }

  // ---- where the two walks part ----

  /** The checks of the charging part that unbounded integers do not make: the input that
      would reach the aim, the three running totals and the growth each fit 128 bits. */
  ghost predicate FillFits(w: Walk, q: QuoteState, aim: pos)
    requires w.pool.feePips < FEE_DENOM
  {
    q.liquidity > 0 ==>
      var step := RawStep(q.price, aim, q.liquidity, q.remaining, w.pool.feePips);
      && ToTarget(q.price, aim, q.liquidity) < TWO_128
      && q.totalIn + step.amountIn < TWO_128 && q.totalOut + step.amountOut < TWO_128 && q.totalFee + step.fee < TWO_128
      && DivFloor(step.fee * Q64, q.liquidity) < TWO_128
  }

  /** The checks of a crossing that the quote does not make; both refuse a negative result. */
  predicate NetFits(down: bool, liquidity: nat, net: i128) {
    if down then -0x8000_0000_0000_0000_0000_0000_0000_0000 < net && liquidity - net < TWO_128
    else liquidity + net < TWO_128
  }

  /** The walk's limit is not nearer than the target, and the after-fee input pays for all of
      the way to it. */
  ghost predicate Reaches(w: Walk, q: QuoteState, targetPrice: sqrtprice)
    requires w.pool.feePips < FEE_DENOM
  {
    && Aim(w, targetPrice) == targetPrice
    && (q.liquidity == 0 ||
          FEE_DENOM * ToTarget(q.price, targetPrice, q.liquidity) <= q.remaining * (FEE_DENOM - w.pool.feePips))
  }

  lemma FillParts(w: Walk, s: WalkState, aim: sqrtprice)
    requires w.pool.feePips < FEE_DENOM
    ensures Fill(w, s, aim).Ok? <==> FillFits(w, Seen(s), aim)
  {
    if s.liquidity != 0 {
      StepIsComputed(s.price, aim, s.liquidity, s.remaining, w.pool.feePips);
    }
  }

  lemma ReachesIs(w: Walk, q: QuoteState, targetPrice: sqrtprice)
    requires w.pool.feePips < FEE_DENOM
    requires if w.down then Aim(w, targetPrice) <= q.price else q.price <= Aim(w, targetPrice)
    ensures QuoteFill(w, q, Aim(w, targetPrice)).price == targetPrice <==> Reaches(w, q, targetPrice)
  {
    if q.liquidity != 0 {
      RawStepMoves(w.down, q.price, Aim(w, targetPrice), q.liquidity, q.remaining, w.pool.feePips);
      ShortfallFits(q.price, Aim(w, targetPrice), q.liquidity, q.remaining, w.pool.feePips);
      AfterFee(q.remaining, w.pool.feePips, ToTarget(q.price, Aim(w, targetPrice), q.liquidity));
    }
  }

  lemma CrossParts(w: Walk, s: WalkState, tick: int)
    requires tick in s.ticks
    requires 0 <= (if w.down then s.liquidity - s.ticks[tick].net else s.liquidity + s.ticks[tick].net)
    ensures CrossTick(w, s, tick).Ok? <==> NetFits(w.down, s.liquidity, s.ticks[tick].net)
  {
  }

  /** Where the two walks part, for every state a swap can be in: an iteration of the quote
      that goes through is refused by the engine exactly when an amount, a total or the growth
      outgrows 128 bits, when the price reaches a ceiling that cannot be read past, or when the
      net of the crossed tick does not fit. */
  lemma PartingOfWays(w: Walk, ticks: map<int, Tick>, s: WalkState)
    requires w.Valid() && w.pool.feePips < FEE_DENOM && OnCourse(w, s) && SameBook(s.ticks, ticks)
    requires QuoteIterate(w, ticks, Seen(s)).Ok?
    ensures NextTarget(w, ticks, s.tick).Ok?
    ensures var target := NextTarget(w, ticks, s.tick).value;
      var targetPrice := TargetPrice(w, target.tick);
      && (target.initialized && Reaches(w, Seen(s), targetPrice) ==> target.tick in ticks)
      && (Iterate(w, s).Ok? <==>
            && FillFits(w, Seen(s), Aim(w, targetPrice))
            && (Reaches(w, Seen(s), targetPrice) ==>
                  !target.pastWindow && (target.initialized ==> NetFits(w.down, s.liquidity, ticks[target.tick].net))))
  {
    SameTarget(w, s.ticks, ticks, s.tick);
    AimAhead(w, s);
    var target := NextTarget(w, s.ticks, s.tick).value;
    var targetPrice := TargetPrice(w, target.tick);
    var aim := Aim(w, targetPrice);
    FillParts(w, s, aim);
    ReachesIs(w, Seen(s), targetPrice);
    if Fill(w, s, aim).Ok? {
      FillAgrees(w, s, aim);
      LandParts(w, ticks, Fill(w, s, aim).value, target, targetPrice);
    }
  }

  lemma LandParts(w: Walk, ticks: map<int, Tick>, f: WalkState, target: Target, targetPrice: nat)
    requires SameBook(f.ticks, ticks) && QuoteLand(w, ticks, Seen(f), target, targetPrice).Ok?
    ensures target.initialized && f.price == targetPrice ==> target.tick in ticks
    ensures Land(w, f, target, targetPrice).Ok? <==>
      (f.price == targetPrice ==>
         !target.pastWindow && (target.initialized ==> NetFits(w.down, f.liquidity, ticks[target.tick].net)))
  {
    if f.price == targetPrice && target.initialized {
      CrossParts(w, f, target.tick);
    }
  }

  // ---- the walk as the client runs it ----

  /** The views decode exactly the ticks of their arrays. */
  ghost predicate RawDecodes(views: seq<ArrayView>, spacing: pos, ticks: map<int, Tick>) {
    && (forall i :: 0 <= i < |views| ==>
         |views[i].ticks| == TICK_ARRAY_SIZE && StartIndex(views[i].start, spacing) == views[i].start)
    && (forall t :: t in ticks <==>
         t % spacing == 0 && exists i :: 0 <= i < |views| && views[i].start == StartIndex(t, spacing))
    && (forall i, t :: 0 <= i < |views| && TickSlot(views[i].start, spacing, t).Ok? && t in ticks ==>
          views[i].ticks[TickSlot(views[i].start, spacing, t).value] == TickView(ticks[t].gross, ticks[t].net))
  }

  ghost predicate Decodes(views: seq<ArrayView>, spacing: pos, ticks: map<int, Tick>) {
    forall t :: Unfold(t) && t == spacing ==> RawDecodes(views, spacing, ticks)
  }

  lemma DecodesIs(views: seq<ArrayView>, spacing: pos, ticks: map<int, Tick>)
    ensures Decodes(views, spacing, ticks) <==> RawDecodes(views, spacing, ticks)
  {
    assert Unfold(spacing);
  }

  method LookupView(views: seq<ArrayView>, spacing: pos, tick: int, ghost ticks: map<int, Tick>)
    returns (r: Result<TickView>)
    requires Decodes(views, spacing, ticks) && tick % spacing == 0
    ensures match Lookup(ticks, tick)
      case Err(e) => r == Err(e)
      case Ok(t) => r == Ok(TickView(t.gross, t.net))
  {
    DecodesIs(views, spacing, ticks);
    var want := StartIndex(tick, spacing);
    for i := 0 to |views|
      invariant forall j :: 0 <= j < i ==> views[j].start != want
    {
      if views[i].start == want {
        OwnSlot(tick, spacing);
        SlotIs(want, spacing, tick);
        return Ok(views[i].ticks[(tick - want) / spacing]);
      }
    }
    return Err(TickOutOfBounds);
  }

  lemma SlotIs(start: int, spacing: pos, tick: int)
    requires TickSlot(start, spacing, tick).Ok?
    ensures TickSlot(start, spacing, tick) == Ok((tick - start) / spacing)
  {
  }

  method QuoteDown(views: seq<ArrayView>, spacing: pos, windowLo: int, first: int, ghost ticks: map<int, Tick>)
    returns (r: Result<Target>)
    requires Decodes(views, spacing, ticks) && first % spacing == 0 && windowLo % spacing == 0
    ensures r == if first < windowLo then Err(InvalidTickArraySequence) else ScanDown(ticks, spacing, windowLo, first)
  {
    var cand := first;
    if cand < windowLo {
      return Err(InvalidTickArraySequence);
    }
    while cand >= windowLo
      invariant windowLo <= cand <= first && cand % spacing == 0
      invariant ScanDown(ticks, spacing, windowLo, cand) == ScanDown(ticks, spacing, windowLo, first)
      decreases cand - windowLo
    {
      var t :- LookupView(views, spacing, cand, ticks);
      if t.gross != 0 {
        return Ok(Target(cand, true, false));
      }
      if cand == windowLo {
        return Ok(Target(cand, false, false));
      }
      AlignedStep(cand, spacing);
      AlignedApart(windowLo, cand, spacing);
      cand := cand - spacing;
    }
    assert false;
  }

  /** Rising: the window's ceiling is a plain target here, readable or not. */
  method QuoteUp(views: seq<ArrayView>, spacing: pos, windowHi: int, first: int, ghost ticks: map<int, Tick>)
    returns (r: Result<(int, bool)>)
    requires Decodes(views, spacing, ticks) && first % spacing == 0 && windowHi % spacing == 0
    ensures match if first > windowHi then Err(InvalidTickArraySequence) else ScanUp(ticks, spacing, windowHi, first)
      case Err(e) => r == Err(e)
      case Ok(t) => r == Ok((t.tick, t.initialized))
  {
    var cand := first;
    if cand > windowHi {
      return Err(InvalidTickArraySequence);
    }
    while cand < windowHi
      invariant first <= cand <= windowHi && cand % spacing == 0
      invariant ScanUp(ticks, spacing, windowHi, cand) == ScanUp(ticks, spacing, windowHi, first)
      decreases windowHi - cand
    {
      var t :- LookupView(views, spacing, cand, ticks);
      if t.gross != 0 {
        return Ok((cand, true));
      }
      AlignedStep(cand, spacing);
      AlignedApart(cand, windowHi, spacing);
      cand := cand + spacing;
    }
    return Ok((windowHi, false));
  }

  method QuoteTarget(views: seq<ArrayView>, spacing: pos, bound: int, tick: int, down: bool, ghost w: Walk,
        ghost ticks: map<int, Tick>)
    returns (r: Result<(int, bool)>)
    requires Decodes(views, spacing, ticks) && w.Valid() && w.pool.spacing == spacing && w.down == down
    requires bound == if down then w.lo else w.hi
    ensures match NextTarget(w, ticks, tick)
      case Err(e) => r == Err(e)
      case Ok(t) => r == Ok((t.tick, t.initialized))
  {
    var floor := tick / spacing * spacing;
    FloorAligned(tick, spacing);
    AlignedStep(floor, spacing);
    if down {
      var t :- QuoteDown(views, spacing, bound, floor, ticks);
      return Ok((t.tick, t.initialized));
    }
    r := QuoteUp(views, spacing, bound, floor + spacing, ticks);
  }

  method QuoteCharge(pool: PoolData, q: QuoteState, clamped: pos, ghost w: Walk) returns (f: QuoteState)
    requires pool.feePips < FEE_DENOM && w.pool == pool
    ensures f == QuoteFill(w, q, clamped)
  {
    if q.liquidity == 0 {
      return q.(price := clamped);
    }
    var step := RawStep(q.price, clamped, q.liquidity, q.remaining, pool.feePips);
    RawStepMoves(q.price >= clamped, q.price, clamped, q.liquidity, q.remaining, pool.feePips);
    RawStepCharges(q.price, clamped, q.liquidity, q.remaining, pool.feePips);
    return q.(price := step.next, remaining := q.remaining - (step.amountIn + step.fee),
              totalIn := q.totalIn + step.amountIn, totalOut := q.totalOut + step.amountOut,
              totalFee := q.totalFee + step.fee);
  }

  method QuoteCross(pool: PoolData, views: seq<ArrayView>, down: bool, q: QuoteState, next: int, initialized: bool,
        targetSqrt: nat, ghost w: Walk, ghost ticks: map<int, Tick>, ghost target: Target)
    returns (r: Result<QuoteState>)
    requires Decodes(views, pool.spacing, ticks) && w.pool == pool && w.down == down
    requires target.tick == next && target.initialized == initialized && next % pool.spacing == 0
    ensures r == QuoteLand(w, ticks, q, target, targetSqrt)
  {
    if q.price == targetSqrt {
      var liquidity: int, crossings := q.liquidity, q.crossings;
      if initialized {
        var t :- LookupView(views, pool.spacing, next, ticks);
        liquidity := liquidity + if down then -t.net else t.net;
        if liquidity < 0 {
          return Err(MathOverflow);
        }
        crossings := crossings + 1;
      }
      return Ok(q.(liquidity := liquidity, crossings := crossings, tick := if down then next - 1 else next));
    } else if q.price != pool.price {
      if q.price >= TWO_128 {
        return Err(SqrtPriceOutOfBounds);
      }
      var t :- GetTickAtSqrtPrice(q.price);
      return Ok(q.(tick := t));
    }
    return Ok(q);
  }

  /** The window as the client computes it from the first and the last array. */
  function QuoteWalk(pool: PoolData, views: seq<ArrayView>, down: bool, limit: sqrtprice): Walk
    requires views != []
  {
    var first, last, span := views[0].start, views[|views| - 1].start, Span(pool.spacing);
    if down then Walk(pool, down, limit, first - (|views| - 1) * span, first + span)
    else Walk(pool, down, limit, first, last + span)
  }

  lemma QuoteWalkIsValid(pool: PoolData, views: seq<ArrayView>, down: bool, limit: sqrtprice, ticks: map<int, Tick>)
    requires views != [] && Decodes(views, pool.spacing, ticks)
    ensures QuoteWalk(pool, views, down, limit).Valid()
  {
    DecodesIs(views, pool.spacing, ticks);
    var first, last := views[0].start, views[|views| - 1].start;
    ArrayAligned(first / Span(pool.spacing), 0, pool.spacing);
    ArrayAligned(last / Span(pool.spacing), 0, pool.spacing);
    ArrayAligned(first / Span(pool.spacing), -(|views| - 1), pool.spacing);
    SpanAligned(first, pool.spacing);
    SpanAligned(last, pool.spacing);
    NegatedProduct(|views| - 1, Span(pool.spacing));
  }

  /** On a chained window it is the engine's window. */
  lemma SameWindow(pool: PoolData, views: seq<ArrayView>, starts: seq<int>, down: bool, limit: sqrtprice)
    requires |starts| == |views| && (forall i :: 0 <= i < |views| ==> starts[i] == views[i].start)
    requires Chained(starts, pool.spacing, pool.tick, down)
    ensures QuoteWalk(pool, views, down, limit)
        == Walk(pool, down, limit, LowEnd(starts, down), HighEnd(starts, pool.spacing, down))
  {
    ChainStarts(starts, pool.spacing, pool.tick, down, |starts| - 1);
    NegatedProduct(|views| - 1, Span(pool.spacing));
  }

  /** The quote: every rejection, and otherwise the outcome of `QuoteRun`. */
  method QuoteExactIn(pool: PoolData, views: seq<ArrayView>, down: bool, amountIn: int, priceLimit: u128,
        ghost ticks: map<int, Tick>)
    returns (r: Result<ClmmQuote>)
    requires Decodes(views, pool.spacing, ticks) && pool.feePips < FEE_DENOM
    ensures var limit := DefaultLimit(down, priceLimit);
      if amountIn <= 0 then r == Err(ZeroLiquidity)
      else if !LimitOk(pool, down, limit) then r == Err(SqrtPriceOutOfBounds)
      else if views == [] || views[0].start != StartIndex(pool.tick, pool.spacing) then
        r == Err(InvalidTickArraySequence)
      else
        var w := QuoteWalk(pool, views, down, limit);
        w.Valid() && match QuoteRun(w, ticks, QuoteStart(pool, amountIn))
          case Err(e) => r == Err(e)
          case Ok(end) => r == Ok(QuoteOutcome(end))
  {
    var limit := DefaultLimit(down, priceLimit);
    if amountIn <= 0 {
      return Err(ZeroLiquidity);
    }
    if !LimitOk(pool, down, limit) {
      return Err(SqrtPriceOutOfBounds);
    }
    if views == [] || views[0].start != StartIndex(pool.tick, pool.spacing) {
      return Err(InvalidTickArraySequence);
    }
    QuoteWalkIsValid(pool, views, down, limit, ticks);
    var window := QuoteWalk(pool, views, down, limit);
    var bound := if down then window.lo else window.hi;
    var q := QuoteStart(pool, amountIn);
    ghost var first := q;
    while q.remaining > 0 && q.price != limit
      invariant QuoteRun(window, ticks, q) == QuoteRun(window, ticks, first)
      invariant q.crossings < MAX_CROSSINGS
      decreases QuoteLeft(window, q)
    {
      ghost var before := q;
      q :- QuoteIterateViews(pool, views, down, limit, bound, q, window, ticks);
      QuoteAdvances(window, ticks, before);
      if q.crossings >= MAX_CROSSINGS {
        break;
      }
    }
    return Ok(QuoteOutcome(q));
  }

  /** The body of the loop. */
  method QuoteIterateViews(pool: PoolData, views: seq<ArrayView>, down: bool, limit: sqrtprice, bound: int,
        q: QuoteState, ghost w: Walk, ghost ticks: map<int, Tick>)
    returns (r: Result<QuoteState>)
    requires Decodes(views, pool.spacing, ticks) && pool.feePips < FEE_DENOM
    requires w.Valid() && w.pool == pool && w.down == down && w.limit == limit && bound == if down then w.lo else w.hi
    ensures r == QuoteIterate(w, ticks, q)
  {
    var target :- QuoteTarget(views, pool.spacing, bound, q.tick, down, w, ticks);
    ghost var t := NextTarget(w, ticks, q.tick).value;
    FloorAligned(q.tick, pool.spacing);
    AlignedStep(q.tick / pool.spacing * pool.spacing, pool.spacing);
    var priced := GetSqrtPriceAtTick(Clamp(target.0));
    var targetSqrt := priced.value;
    assert targetSqrt == TargetPrice(w, t.tick);
    var clamped: sqrtprice := if down then Max(targetSqrt, limit) else Min(targetSqrt, limit);
    var charged := QuoteCharge(pool, q, clamped, w);
    r := QuoteCross(pool, views, down, charged, target.0, target.1, targetSqrt, w, ticks, t);
  }
}
