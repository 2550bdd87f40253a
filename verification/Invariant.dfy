/** What holds in every reachable state of the program. `Sane` needs no hypothesis; `Inv`
    adds in-range liquidity, fees and solvency, and is kept by every step that does not stall. */
module Invariant {
  import opened Numbers
  import opened TickMath
  import opened Ticks
  import opened SwapWalk
  import opened Ledger
  import opened Coherence
  import opened FeeGrowth
  import opened Principal
  import opened Solvency
  import opened Runs
  import opened Liquidity
  import opened Changes
  import opened Book
  import SwapMath

  // ---- bookkeeping, price and tick ----

  predicate Stored(b: Book, t: int) {
    t % b.pool.spacing == 0 && StartIndex(t, b.pool.spacing) in b.arrays
  }

  predicate AccountOk(p: PositionData, spacing: pos) {
    if p.open then Sound(p, spacing) else p.liquidity == 0 && p.owed0 == 0 && p.owed1 == 0
  }

  /** Gross and net are those of the positions, the price lies in its tick's interval, the
      tick in its band, and exactly the ticks of created arrays exist. */
  ghost predicate Sane(b: Book) {
    && IsTier(b.pool.feePips, b.pool.spacing)
    && MIN_SQRT_PRICE <= b.pool.price <= MAX_SQRT_PRICE
    && MIN_TICK <= b.pool.tick <= MAX_TICK && PriceTick(b.pool.price, b.pool.tick)
    && TicksMatch(b.ticks, b.positions, b.pool.spacing)
    && (forall t :: t in b.ticks <==> Stored(b, t))
    && (forall i :: 0 <= i < |b.positions| ==> AccountOk(b.positions[i], b.pool.spacing))
  }

  lemma InitIsSane(feePips: nat, spacing: nat, price: u128)
    requires ApplyInitPool(feePips, spacing, price).Ok?
    ensures Sane(ApplyInitPool(feePips, spacing, price).value)
  {
    LandsInBand(price);
  }

  lemma InitTickArrayIsSane(b: Book, start: int)
    requires Sane(b) && ApplyInitTickArray(b, start).Ok?
    ensures Sane(ApplyInitTickArray(b, start).value)
  {
    var n := ApplyInitTickArray(b, start).value;
    forall t ensures t in n.ticks <==> Stored(n, t) {
      InSpan(start, b.pool.spacing, t);
    }
    forall t | t in n.ticks
      ensures n.ticks[t].gross == Sum(n.positions, Gross(t)) && n.ticks[t].net == Sum(n.positions, Net(t))
    {
      InSpan(start, b.pool.spacing, t);
      if StartIndex(t, b.pool.spacing) == start {
        assert t !in b.ticks;
        NobodyEndsAt(b.positions, t);
      }
    }
  }

  lemma OpenPositionIsSane(b: Book, lower: int, upper: int)
    requires Sane(b) && ApplyOpenPosition(b, lower, upper).Ok?
    ensures Sane(ApplyOpenPosition(b, lower, upper).value)
  {
    var n := ApplyOpenPosition(b, lower, upper).value;
    var p := n.positions[|b.positions|];
    forall t | t in n.ticks
      ensures n.ticks[t].gross == Sum(n.positions, Gross(t)) && n.ticks[t].net == Sum(n.positions, Net(t))
    {
      SumAppend(b.positions, p, Gross(t));
      SumAppend(b.positions, p, Net(t));
    }
  }

  /** Ticks do not depend on fees or on whether an account is still open. */
  lemma SameBounds(ticks: map<int, Tick>, ps: seq<PositionData>, spacing: pos, i: nat, p: PositionData)
    requires TicksMatch(ticks, ps, spacing) && i < |ps|
    requires p.lower == ps[i].lower && p.upper == ps[i].upper && p.liquidity == ps[i].liquidity
    ensures TicksMatch(ticks, ps[i := p], spacing)
    ensures forall t :: Sum(ps[i := p], Active(t)) == Sum(ps, Active(t))
  {
    forall t ensures Sum(ps[i := p], Gross(t)) == Sum(ps, Gross(t)) && Sum(ps[i := p], Net(t)) == Sum(ps, Net(t)) {
      SumUpdate(ps, i, p, Gross(t));
      SumUpdate(ps, i, p, Net(t));
    }
    forall t ensures Sum(ps[i := p], Active(t)) == Sum(ps, Active(t)) {
      SumUpdate(ps, i, p, Active(t));
    }
  }

  /** What a successful change leaves in the book, apart from the vaults. */
  lemma ModifyLeaves(b: Book, i: nat, delta: i128, bound0: u64, bound1: u64, starts: seq<int>)
    requires ApplyModifyLiquidity(b, i, delta, bound0, bound1, starts).Ok?
    ensures i < |b.positions| && b.positions[i].open && Modify(b.pool, b.positions[i], b.ticks, starts, delta).Ok?
    ensures var n := ApplyModifyLiquidity(b, i, delta, bound0, bound1, starts).value;
      var m := Modify(b.pool, b.positions[i], b.ticks, starts, delta).value;
      && n.pool == m.pool && n.ticks == m.ticks && n.arrays == b.arrays && n.positions == b.positions[i := m.position]
  {
  }

  lemma ModifyIsSane(b: Book, i: nat, delta: i128, bound0: u64, bound1: u64, starts: seq<int>)
    requires Sane(b) && ApplyModifyLiquidity(b, i, delta, bound0, bound1, starts).Ok?
    ensures Sane(ApplyModifyLiquidity(b, i, delta, bound0, bound1, starts).value)
  {
    ModifyLeaves(b, i, delta, bound0, bound1, starts);
    var m := Modify(b.pool, b.positions[i], b.ticks, starts, delta).value;
    ModifyTicks(b.pool, b.positions[i], b.ticks, starts, delta);
    ModifyKeepsTicks(b.pool, b.positions, i, b.ticks, starts, delta);
    ModifiedIsSane(b, i, m, ApplyModifyLiquidity(b, i, delta, bound0, bound1, starts).value);
  }

  lemma ModifiedIsSane(b: Book, i: nat, m: Modified, n: Book)
    requires Sane(b) && i < |b.positions| && b.positions[i].open
    requires n.pool == m.pool && n.ticks == m.ticks && n.arrays == b.arrays
        && n.positions == b.positions[i := m.position]
    requires m.pool == b.pool.(liquidity := m.pool.liquidity) && m.ticks.Keys == b.ticks.Keys
    requires m.position.open && m.position.lower == b.positions[i].lower && m.position.upper == b.positions[i].upper
    requires TicksMatch(m.ticks, n.positions, b.pool.spacing)
    ensures Sane(n)
  {
    forall t ensures t in n.ticks <==> Stored(n, t) {
      assert t in n.ticks <==> t in b.ticks;
      assert Stored(n, t) <==> Stored(b, t);
    }
  }

  // ---- a swap's walk, seen from the book ----

  ghost function WalkOf(b: Book, down: bool, limit: u128, starts: seq<int>): Walk
    requires starts != [] && DefaultLimit(down, limit) > 0
  {
    Walk(b.pool, down, DefaultLimit(down, limit), LowEnd(starts, down), HighEnd(starts, b.pool.spacing, down))
  }

  /** The walk a swap starts: its run, and the outcome in terms of the run's end. */
  lemma WindowRuns(b: Book, down: bool, amountIn: u64, limit: u128, starts: seq<int>)
    requires Sane(b) && WindowSwap(b, down, amountIn, DefaultLimit(down, limit), starts).Ok?
    ensures starts != []
    ensures var w := WalkOf(b, down, limit, starts);
      var s := Start(w, b.ticks, amountIn);
      && w.Valid() && OnCourse(w, s) && Run(w, s).Ok?
      && var end := Run(w, s).value;
      var (o, ticks) := WindowSwap(b, down, amountIn, DefaultLimit(down, limit), starts).value;
      Outcome(end) == Ok(o) && ticks == end.ticks
  {
    ChainAligned(starts, b.pool.spacing, b.pool.tick, down);
  }

  /** A swap that succeeds: the book after it in terms of the run's end. */
  lemma SwapRuns(b: Book, down: bool, amountIn: u64, minOut: u64, limit: u128, starts: seq<int>)
    requires Sane(b) && ApplySwap(b, down, amountIn, minOut, limit, starts).Ok?
    ensures starts != []
    ensures var w := WalkOf(b, down, limit, starts);
      var s := Start(w, b.ticks, amountIn);
      && w.Valid() && OnCourse(w, s) && Run(w, s).Ok?
      && var end := Run(w, s).value;
      var n := ApplySwap(b, down, amountIn, minOut, limit, starts).value;
      && n.arrays == b.arrays && n.positions == b.positions && n.ticks == end.ticks
      && n.pool.feePips == b.pool.feePips && n.pool.spacing == b.pool.spacing
      && n.pool.price == end.price && n.pool.tick == Clamp(end.tick) && n.pool.liquidity == end.liquidity
      && (forall zero :: PoolGrowth(n.pool, zero) == GrowthOf(w, end, zero))
      && (forall zero :: Vault(n, zero) == LoopVault(w, end, zero, Vault(b, zero)))
  {
    WindowRuns(b, down, amountIn, limit, starts);
  }

  /** Clamping the final tick changes nothing a sound position can see. */
  lemma ClampIsInvisible(p: PositionData, feePips: nat, spacing: pos, tick: int)
    requires Sound(p, spacing) && IsTier(feePips, spacing)
    ensures p.lower <= Clamp(tick) <==> p.lower <= tick
    ensures p.upper <= Clamp(tick) <==> p.upper <= tick
  {
  }

  lemma SwapIsSane(b: Book, down: bool, amountIn: u64, minOut: u64, limit: u128, starts: seq<int>)
    requires Sane(b) && ApplySwap(b, down, amountIn, minOut, limit, starts).Ok?
    ensures Sane(ApplySwap(b, down, amountIn, minOut, limit, starts).value)
  {
    SwapRuns(b, down, amountIn, minOut, limit, starts);
    var w := WalkOf(b, down, limit, starts);
    var s := Start(w, b.ticks, amountIn);
    RunKeepsTicks(w, s, b.positions);
    RunConserves(w, s);
    ClampedMono(Run(w, s).value.tick + 1, Max(Run(w, s).value.tick, MIN_TICK) + 1);
  }

  // ---- liquidity, fees and solvency ----

  /** The accounting of both tokens, kept beside the state. */
  datatype Audit = Audit(purse0: Purse, purse1: Purse)

  function PurseOf(a: Audit, zero: bool): Purse {
    if zero then a.purse0 else a.purse1
  }

  const NOTHING_YET: Audit := Audit(Purse([], 0, 0), Purse([], 0, 0))

  ghost predicate LiquidityOk(b: Book) {
    b.pool.liquidity == Sum(b.positions, Active(b.pool.tick))
  }

  ghost predicate Backed(b: Book, p: Purse, zero: bool) {
    TokenOk(zero, b.positions, b.ticks, b.pool.tick, b.pool.price, PoolGrowth(b.pool, zero), Vault(b, zero), p)
  }

  ghost predicate Inv(b: Book, a: Audit) {
    Sane(b) && LiquidityOk(b) && Backed(b, a.purse0, true) && Backed(b, a.purse1, false)
  }

  /** No iteration of the swap stalls on an initialized tick it has crossed; every other
      instruction is calm. */
  ghost predicate Calm(b: Book, op: Op) {
    match op
    case Swap(down, amountIn, _, limit, starts) =>
      Chained(starts, b.pool.spacing, b.pool.tick, down) && DefaultLimit(down, limit) > 0 ==>
        (ChainAligned(starts, b.pool.spacing, b.pool.tick, down);
         var w := WalkOf(b, down, limit, starts);
         StallFree(w, Start(w, b.ticks, amountIn)))
    case _ => true
  }

  /** Growth earned restarts at a checkpoint; a swap adds what it charges and shares it out;
      a collection is paid. */
  ghost function PurseAfter(b: Book, p: Purse, zero: bool, op: Op): (r: Purse)
    requires Sane(b) && |p.earned| == |b.positions|
    ensures |r.earned| == |After(b, op).positions|
  {
    if Apply(b, op).Err? then p
    else
      match op
      case OpenPosition(_, _) => p.(earned := p.earned + [0])
      case IncreaseLiquidity(i, _, _, _, _) => p.(earned := p.earned[i := 0])
      case DecreaseLiquidity(i, _, _, _, _) => p.(earned := p.earned[i := 0])
      case Collect(i) => p.(collected := p.collected + OwedOf(b.positions[i], zero))
      case Swap(down, amountIn, minOut, limit, starts) =>
        SwapRuns(b, down, amountIn, minOut, limit, starts);
        var w := WalkOf(b, down, limit, starts);
        RunPurse(w, Start(w, b.ticks, amountIn), b.positions, zero, p)
      case _ => p
  }

  ghost function AuditAfter(b: Book, a: Audit, op: Op): Audit
    requires Sane(b) && |a.purse0.earned| == |b.positions| && |a.purse1.earned| == |b.positions|
  {
    Audit(PurseAfter(b, a.purse0, true, op), PurseAfter(b, a.purse1, false, op))
  }

  // ---- one token through each instruction ----

  lemma InitTickArrayBacked(b: Book, p: Purse, zero: bool, start: int)
    requires Sane(b) && Backed(b, p, zero) && ApplyInitTickArray(b, start).Ok?
    ensures Backed(ApplyInitTickArray(b, start).value, p, zero)
  {
    var n := ApplyInitTickArray(b, start).value;
    forall t | t in b.ticks ensures t in n.ticks && n.ticks[t] == b.ticks[t] {
      InSpan(start, b.pool.spacing, t);
    }
  }

  lemma OpenPositionBacked(b: Book, p: Purse, zero: bool, lower: int, upper: int)
    requires Sane(b) && Backed(b, p, zero) && ApplyOpenPosition(b, lower, upper).Ok?
    ensures Backed(ApplyOpenPosition(b, lower, upper).value, p.(earned := p.earned + [0]), zero)
  {
    var q := PositionData(true, lower, upper, 0, 0, 0, 0, 0);
    IdleEarns(zero, b.positions, b.ticks, b.pool.tick, PoolGrowth(b.pool, zero), p.earned, q);
    IdleCovered(zero, b.positions, b.pool.price, Vault(b, zero), p, q);
  }

  lemma IdleEarns(zero: bool, ps: seq<PositionData>, ticks: map<int, Tick>, tick: int, growth: u128, earned: seq<nat>,
        q: PositionData)
    requires Earns(zero, ps, ticks, tick, growth, earned) && q.liquidity == 0
    ensures Earns(zero, ps + [q], ticks, tick, growth, earned + [0])
  {
  }

  lemma IdleCovered(zero: bool, ps: seq<PositionData>, price: pos, vault: int, p: Purse, q: PositionData)
    requires |p.earned| == |ps| && Covered(zero, ps, price, vault, p) && q.liquidity == 0 && q.owed0 == 0
        && q.owed1 == 0
    ensures Covered(zero, ps + [q], price, vault, p.(earned := p.earned + [0]))
  {
    SumAppend(ps, q, OwedWeight(zero));
    assert (ps + [q])[..|ps|] == ps && (p.earned + [0])[..|ps|] == p.earned;
    SwapMath.TimesSub(0, Unit(zero, q, price), 0.0);
  }

  predicate SameStake(o: PositionData, q: PositionData) {
    && q.lower == o.lower && q.upper == o.upper && q.liquidity == o.liquidity
    && q.inside0Last == o.inside0Last && q.inside1Last == o.inside1Last
  }

  /** Changing only what is owed, or closing: principal and growth stay. */
  lemma SamePrincipal(ps: seq<PositionData>, earned: seq<nat>, price: pos, zero: bool, i: nat, q: PositionData)
    requires i < |ps| && |earned| == |ps| && SameStake(ps[i], q)
    ensures var after := ps[i := q];
      && Total(zero, after, price) == Total(zero, ps, price)
      && Weighted(after, earned) == Weighted(ps, earned)
      && Sum(after, OwedWeight(zero)) == Sum(ps, OwedWeight(zero)) - OwedOf(ps[i], zero) + OwedOf(q, zero)
  {
    TotalUpdate(zero, ps, i, q, price);
    SwapMath.TimesSub(0, Unit(zero, q, price), 0.0);
    WeightedUpdate(ps, earned, i, q, earned[i]);
    assert earned[i := earned[i]] == earned;
    SumUpdate(ps, i, q, OwedWeight(zero));
  }

  lemma SameEarnings(zero: bool, ps: seq<PositionData>, ticks: map<int, Tick>, tick: int, growth: u128,
        earned: seq<nat>, i: nat, q: PositionData)
    requires Earns(zero, ps, ticks, tick, growth, earned) && i < |ps| && SameStake(ps[i], q)
    ensures Earns(zero, ps[i := q], ticks, tick, growth, earned)
  {
  }

  lemma OwedBacked(b: Book, p: Purse, zero: bool, i: nat, q: PositionData)
    requires i < |b.positions| && Backed(b, p, zero) && SameStake(b.positions[i], q)
    requires OwedOf(q, zero) <= OwedOf(b.positions[i], zero) <= Vault(b, zero)
    ensures var paid := OwedOf(b.positions[i], zero) - OwedOf(q, zero);
      TokenOk(zero, b.positions[i := q], b.ticks, b.pool.tick, b.pool.price, PoolGrowth(b.pool, zero),
              Vault(b, zero) - paid,
              p.(collected := p.collected + paid))
  {
    SamePrincipal(b.positions, p.earned, b.pool.price, zero, i, q);
    SameEarnings(zero, b.positions, b.ticks, b.pool.tick, PoolGrowth(b.pool, zero), p.earned, i, q);
  }

  lemma CollectBacked(b: Book, p: Purse, zero: bool, i: nat)
    requires Sane(b) && Backed(b, p, zero) && ApplyCollect(b, i).Ok?
    ensures Backed(ApplyCollect(b, i).value, p.(collected := p.collected + OwedOf(b.positions[i], zero)), zero)
  {
    OwedBacked(b, p, zero, i, ApplyCollect(b, i).value.positions[i]);
  }

  lemma CloseBacked(b: Book, p: Purse, zero: bool, i: nat)
    requires Sane(b) && Backed(b, p, zero) && ApplyClosePosition(b, i).Ok?
    ensures Backed(ApplyClosePosition(b, i).value, p, zero)
  {
    SamePrincipal(b.positions, p.earned, b.pool.price, zero, i, ApplyClosePosition(b, i).value.positions[i]);
    SameEarnings(zero, b.positions, b.ticks, b.pool.tick, PoolGrowth(b.pool, zero), p.earned, i,
          ApplyClosePosition(b, i).value.positions[i]);
  }

  lemma ModifyBacked(b: Book, p: Purse, zero: bool, i: nat, delta: i128, bound0: u64, bound1: u64, starts: seq<int>)
    requires Sane(b) && Backed(b, p, zero) && ApplyModifyLiquidity(b, i, delta, bound0, bound1, starts).Ok?
    ensures i < |b.positions|
    ensures Backed(ApplyModifyLiquidity(b, i, delta, bound0, bound1, starts).value,
                   p.(earned := p.earned[i := 0]), zero)
  {
    ModifyToken(b.pool, b.positions, i, b.ticks, starts, delta, zero, Vault(b, zero), p);
    ModifyTicks(b.pool, b.positions[i], b.ticks, starts, delta);
  }

  lemma EarnsClamped(b: Book, ticks: map<int, Tick>, tick: int, growth: u128, zero: bool, earned: seq<nat>)
    requires Sane(b) && Earns(zero, b.positions, ticks, tick, growth, earned)
    ensures Earns(zero, b.positions, ticks, Clamp(tick), growth, earned)
  {
    forall i | 0 <= i < |b.positions| && b.positions[i].liquidity > 0
      ensures b.positions[i].lower in ticks && b.positions[i].upper in ticks
      ensures Same(Inside(ticks, b.positions[i], Clamp(tick), growth, zero), Last(b.positions[i], zero) + earned[i])
    {
      ClampIsInvisible(b.positions[i], b.pool.feePips, b.pool.spacing, tick);
    }
  }

  lemma {:induction false} ActiveClamped(ps: seq<PositionData>, feePips: nat, spacing: pos, tick: int)
    requires IsTier(feePips, spacing)
    requires forall i :: 0 <= i < |ps| && ps[i].liquidity > 0 ==> Sound(ps[i], spacing)
    ensures Sum(ps, Active(Clamp(tick))) == Sum(ps, Active(tick))
  {
    if ps != [] {
      var n := |ps| - 1;
      ActiveClamped(ps[..n], feePips, spacing, tick);
      if ps[n].liquidity > 0 {
        ClampIsInvisible(ps[n], feePips, spacing, tick);
      }
    }
  }

  lemma SwapBacked(b: Book, p: Purse, zero: bool, down: bool, amountIn: u64, minOut: u64, limit: u128, starts: seq<int>)
    requires Sane(b) && LiquidityOk(b) && Backed(b, p, zero) && ApplySwap(b, down, amountIn, minOut, limit, starts).Ok?
    requires Calm(b, Swap(down, amountIn, minOut, limit, starts))
    ensures var n := ApplySwap(b, down, amountIn, minOut, limit, starts).value;
      Backed(n, PurseAfter(b, p, zero, Swap(down, amountIn, minOut, limit, starts)), zero) && LiquidityOk(n)
  {
    SwapRuns(b, down, amountIn, minOut, limit, starts);
    var w := WalkOf(b, down, limit, starts);
    var s := Start(w, b.ticks, amountIn);
    RunToken(w, s, b.positions, zero, Vault(b, zero), p);
    var end := Run(w, s).value;
    EarnsClamped(b, end.ticks, end.tick, GrowthOf(w, end, zero), zero, RunPurse(w, s, b.positions, zero, p).earned);
    ActiveClamped(b.positions, b.pool.feePips, b.pool.spacing, end.tick);
  }

  lemma SwapLiquidityOk(b: Book, down: bool, amountIn: u64, minOut: u64, limit: u128, starts: seq<int>)
    requires Sane(b) && LiquidityOk(b) && ApplySwap(b, down, amountIn, minOut, limit, starts).Ok?
    ensures starts != []
    ensures var w := WalkOf(b, down, limit, starts);
      && w.Valid()
      && (LiquidityOk(ApplySwap(b, down, amountIn, minOut, limit, starts).value) <==>
            CleanRun(w, Start(w, b.ticks, amountIn)))
  {
    SwapRuns(b, down, amountIn, minOut, limit, starts);
    var w := WalkOf(b, down, limit, starts);
    var s := Start(w, b.ticks, amountIn);
    RunLiquidity(w, s, b.positions);
    ActiveClamped(b.positions, b.pool.feePips, b.pool.spacing, Run(w, s).value.tick);
  }
}
