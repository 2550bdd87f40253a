/** Every run of the program from `InitPool`: any interleaving of instructions, failed ones
    included. */
module Reachable {
  import opened Numbers
  import opened Ticks
  import opened SwapWalk
  import opened Ledger
  import opened FeeGrowth
  import opened Principal
  import opened Solvency
  import opened Runs
  import opened Liquidity
  import opened Changes
  import opened Book
  import opened Invariant
  import SwapMath

  function Minus(l: nat): i128
    requires l < 0x8000_0000_0000_0000_0000_0000_0000_0000
  {
    var d: int := l;
    -d
  }

  lemma ModifyKeepsLiquidity(b: Book, i: nat, delta: i128, bound0: u64, bound1: u64, starts: seq<int>)
    requires Sane(b) && LiquidityOk(b) && ApplyModifyLiquidity(b, i, delta, bound0, bound1, starts).Ok?
    ensures LiquidityOk(ApplyModifyLiquidity(b, i, delta, bound0, bound1, starts).value)
  {
    ModifyKeepsTicks(b.pool, b.positions, i, b.ticks, starts, delta);
    ModifyTicks(b.pool, b.positions[i], b.ticks, starts, delta);
  }

  lemma CollectIsSane(b: Book, i: nat)
    requires Sane(b) && ApplyCollect(b, i).Ok?
    ensures Sane(ApplyCollect(b, i).value)
  {
    SameBounds(b.ticks, b.positions, b.pool.spacing, i, ApplyCollect(b, i).value.positions[i]);
  }

  lemma CloseIsSane(b: Book, i: nat)
    requires Sane(b) && ApplyClosePosition(b, i).Ok?
    ensures Sane(ApplyClosePosition(b, i).value)
  {
    SameBounds(b.ticks, b.positions, b.pool.spacing, i, ApplyClosePosition(b, i).value.positions[i]);
  }

  /** One instruction, with no hypothesis: the books match the positions and the price stays
      with its tick. */
  lemma StepIsSane(b: Book, op: Op)
    requires Sane(b)
    ensures Sane(After(b, op))
  {
    if Apply(b, op).Ok? {
      match op
      case InitTickArray(start) => InitTickArrayIsSane(b, start);
      case OpenPosition(lower, upper) => OpenPositionIsSane(b, lower, upper);
      case IncreaseLiquidity(i, l, x, y, starts) => ModifyIsSane(b, i, l, x, y, starts);
      case DecreaseLiquidity(i, l, x, y, starts) => ModifyIsSane(b, i, Minus(l), x, y, starts);
      case Collect(i) => CollectIsSane(b, i);
      case ClosePosition(i) => CloseIsSane(b, i);
      case Swap(down, x, y, limit, starts) => SwapIsSane(b, down, x, y, limit, starts);
      case Donate(_, _) =>
    }
  }

  /** In every reachable state, without any hypothesis: each tick's gross and net are those of
      the positions, the price lies between its tick's price and the next, inside the band. */
  lemma {:induction false} ReachableIsSane(b: Book, ops: seq<Op>)
    requires Sane(b)
    ensures Sane(Play(b, ops))
  {
    if ops != [] {
      ReachableIsSane(b, ops[..|ops| - 1]);
      StepIsSane(Play(b, ops[..|ops| - 1]), ops[|ops| - 1]);
    }
  }

  lemma OpenKeepsLiquidity(b: Book, lower: int, upper: int)
    requires LiquidityOk(b) && ApplyOpenPosition(b, lower, upper).Ok?
    ensures LiquidityOk(ApplyOpenPosition(b, lower, upper).value)
  {
    SumAppend(b.positions, PositionData(true, lower, upper, 0, 0, 0, 0, 0), Active(b.pool.tick));
  }

  lemma CollectKeepsLiquidity(b: Book, i: nat)
    requires LiquidityOk(b) && ApplyCollect(b, i).Ok?
    ensures LiquidityOk(ApplyCollect(b, i).value)
  {
    SumUpdate(b.positions, i, ApplyCollect(b, i).value.positions[i], Active(b.pool.tick));
  }

  lemma CloseKeepsLiquidity(b: Book, i: nat)
    requires LiquidityOk(b) && ApplyClosePosition(b, i).Ok?
    ensures LiquidityOk(ApplyClosePosition(b, i).value)
  {
    SumUpdate(b.positions, i, ApplyClosePosition(b, i).value.positions[i], Active(b.pool.tick));
  }

  lemma AccountsKeepLiquidity(b: Book, op: Op)
    requires LiquidityOk(b) && Apply(b, op).Ok?
    requires op.InitTickArray? || op.OpenPosition? || op.Collect? || op.ClosePosition? || op.Donate?
    ensures LiquidityOk(After(b, op))
  {
    match op
    case InitTickArray(_) =>
    case OpenPosition(lower, upper) => OpenKeepsLiquidity(b, lower, upper);
    case Collect(i) => CollectKeepsLiquidity(b, i);
    case ClosePosition(i) => CloseKeepsLiquidity(b, i);
    case Donate(_, _) =>
  }

  lemma ModifyOpKeepsLiquidity(b: Book, op: Op)
    requires Sane(b) && LiquidityOk(b) && Apply(b, op).Ok?
    requires op.IncreaseLiquidity? || op.DecreaseLiquidity?
    ensures LiquidityOk(After(b, op))
  {
    match op
    case IncreaseLiquidity(i, l, x, y, starts) => ModifyKeepsLiquidity(b, i, l, x, y, starts);
    case DecreaseLiquidity(i, l, x, y, starts) => ModifyKeepsLiquidity(b, i, Minus(l), x, y, starts);
  }

  lemma StepKeepsLiquidity(b: Book, p: Purse, op: Op)
    requires Sane(b) && LiquidityOk(b) && Backed(b, p, true) && Calm(b, op)
    ensures LiquidityOk(After(b, op))
  {
    if Apply(b, op).Ok? {
      if op.Swap? {
        SwapBacked(b, p, true, op.down, op.amountIn, op.minOut, op.limit, op.starts);
      } else if op.IncreaseLiquidity? || op.DecreaseLiquidity? {
        ModifyOpKeepsLiquidity(b, op);
      } else {
        AccountsKeepLiquidity(b, op);
      }
    }
  }

  /** What a calm instruction does to one token's accounting. */
  ghost predicate TokenKept(b: Book, p: Purse, zero: bool, op: Op)
    requires Sane(b) && |p.earned| == |b.positions|
  {
    Backed(After(b, op), PurseAfter(b, p, zero, op), zero)
  }

  lemma AccountsKeepToken(b: Book, p: Purse, zero: bool, op: Op)
    requires Sane(b) && Backed(b, p, zero) && Apply(b, op).Ok?
    requires op.InitTickArray? || op.OpenPosition? || op.Collect? || op.ClosePosition? || op.Donate?
    ensures TokenKept(b, p, zero, op)
  {
    match op
    case InitTickArray(start) => InitTickArrayBacked(b, p, zero, start);
    case OpenPosition(lower, upper) => OpenPositionBacked(b, p, zero, lower, upper);
    case Collect(i) => CollectBacked(b, p, zero, i);
    case ClosePosition(i) => CloseBacked(b, p, zero, i);
    case Donate(_, _) =>
  }

  lemma ModifyKeepsToken(b: Book, p: Purse, zero: bool, op: Op)
    requires Sane(b) && Backed(b, p, zero) && Apply(b, op).Ok?
    requires op.IncreaseLiquidity? || op.DecreaseLiquidity?
    ensures TokenKept(b, p, zero, op)
  {
    match op
    case IncreaseLiquidity(i, l, x, y, starts) => ModifyBacked(b, p, zero, i, l, x, y, starts);
    case DecreaseLiquidity(i, l, x, y, starts) => ModifyBacked(b, p, zero, i, Minus(l), x, y, starts);
  }

  lemma SwapKeepsToken(b: Book, p: Purse, zero: bool, op: Op)
    requires Sane(b) && LiquidityOk(b) && Backed(b, p, zero) && Calm(b, op) && Apply(b, op).Ok?
    requires op.Swap?
    ensures TokenKept(b, p, zero, op)
  {
    SwapBacked(b, p, zero, op.down, op.amountIn, op.minOut, op.limit, op.starts);
  }

  lemma StepKeepsToken(b: Book, p: Purse, zero: bool, op: Op)
    requires Sane(b) && LiquidityOk(b) && Backed(b, p, zero) && Calm(b, op)
    ensures TokenKept(b, p, zero, op)
  {
    if Apply(b, op).Ok? {
      if op.Swap? {
        SwapKeepsToken(b, p, zero, op);
      } else if op.IncreaseLiquidity? || op.DecreaseLiquidity? {
        ModifyKeepsToken(b, p, zero, op);
      } else {
        AccountsKeepToken(b, p, zero, op);
      }
    }
  }

  /** One calm instruction keeps everything: liquidity, fees and solvency. */
  lemma StepKeepsInv(b: Book, a: Audit, op: Op)
    requires Inv(b, a) && Calm(b, op)
    ensures Inv(After(b, op), AuditAfter(b, a, op))
  {
    StepIsSane(b, op);
    StepKeepsLiquidity(b, a.purse0, op);
    StepKeepsToken(b, a.purse0, true, op);
    StepKeepsToken(b, a.purse1, false, op);
  }

  ghost predicate AllCalm(b: Book, ops: seq<Op>) {
    ops == [] || (AllCalm(b, ops[..|ops| - 1]) && Calm(Play(b, ops[..|ops| - 1]), ops[|ops| - 1]))
  }

  ghost function PlayAudit(b: Book, a: Audit, ops: seq<Op>): (r: Audit)
    requires Sane(b) && |a.purse0.earned| == |b.positions| && |a.purse1.earned| == |b.positions|
    ensures |r.purse0.earned| == |Play(b, ops).positions| && |r.purse1.earned| == |Play(b, ops).positions|
  {
    if ops == [] then a
    else
      ReachableIsSane(b, ops[..|ops| - 1]);
      AuditAfter(Play(b, ops[..|ops| - 1]), PlayAudit(b, a, ops[..|ops| - 1]), ops[|ops| - 1])
  }

  /** Every calm run keeps in-range liquidity, fees and both vaults coherent. */
  lemma {:induction false} ReachableInv(b: Book, a: Audit, ops: seq<Op>)
    requires Inv(b, a) && AllCalm(b, ops)
    ensures Inv(Play(b, ops), PlayAudit(b, a, ops))
  {
    if ops != [] {
      ReachableInv(b, a, ops[..|ops| - 1]);
      StepKeepsInv(Play(b, ops[..|ops| - 1]), PlayAudit(b, a, ops[..|ops| - 1]), ops[|ops| - 1]);
    }
  }

  /** From a fresh pool, over any run. */
  lemma FromInitPool(feePips: nat, spacing: nat, price: u128, ops: seq<Op>)
    requires ApplyInitPool(feePips, spacing, price).Ok?
    ensures var b := ApplyInitPool(feePips, spacing, price).value;
      && Inv(b, NOTHING_YET)
      && Sane(Play(b, ops))
      && (AllCalm(b, ops) ==> Inv(Play(b, ops), PlayAudit(b, NOTHING_YET, ops)))
  {
    var b := ApplyInitPool(feePips, spacing, price).value;
    InitIsSane(feePips, spacing, price);
    ReachableIsSane(b, ops);
    if AllCalm(b, ops) {
      ReachableInv(b, NOTHING_YET, ops);
    }
  }

  // ---- what an instruction promises its caller ----

  /** The price limit as the caller passes it: zero for none, or strictly on the swap's side of
      the price and inside the band. */
  predicate LimitFits(price: nat, down: bool, limit: u128) {
    if down then (if limit == 0 then 4295048016 < price else 4295048016 <= limit < price)
    else if limit == 0 then price < 79226673515399013880257568879
    else price < limit <= 79226673515399013880257568879
  }

  /** On the way from `price` to the caller's limit, or to the end of the band if there is none. */
  predicate WithinLimit(down: bool, price: nat, next: nat, limit: u128) {
    && SwapMath.Toward(down, price, next, if down then 4295048016 else 79226673515399013880257568879)
    && (limit != 0 ==> SwapMath.Toward(down, price, next, limit))
  }

  lemma LimitFitsIs(pool: PoolData, down: bool, limit: u128)
    ensures LimitFits(pool.price, down, limit) <==> LimitOk(pool, down, DefaultLimit(down, limit))
  {
  }

  /** A limit that does not fit makes the swap fail, with that error once the window's accounts
      and the input have passed their checks. */
  lemma LimitIsChecked(b: Book, down: bool, amountIn: u64, minOut: u64, limit: u128, starts: seq<int>)
    requires !LimitFits(b.pool.price, down, limit)
    ensures ApplySwap(b, down, amountIn, minOut, limit, starts).Err?
    ensures CheckWindow(b, starts).Ok? && 0 < amountIn ==>
      ApplySwap(b, down, amountIn, minOut, limit, starts) == Err(SqrtPriceOutOfBounds)
  {
    LimitFitsIs(b.pool, down, limit);
  }

  /** Bounds hold: an increase takes at most its caps, a decrease pays at least its floors, a
      collection pays exactly what was owed, and a swap takes at most the offered input, pays
      at least its floor and respects its price limit. */
  lemma CallerIsProtected(b: Book, op: Op)
    requires Sane(b) && Apply(b, op).Ok?
    ensures var n := Apply(b, op).value;
      match op
      case IncreaseLiquidity(_, _, max0, max1, _) =>
        0 <= n.vault0 - b.vault0 <= max0 && 0 <= n.vault1 - b.vault1 <= max1
      case DecreaseLiquidity(_, l, min0, min1, _) =>
        0 < l ==> min0 <= b.vault0 - n.vault0 && min1 <= b.vault1 - n.vault1
      case Collect(i) =>
        && i < |b.positions| == |n.positions|
        && b.vault0 - n.vault0 == b.positions[i].owed0 && b.vault1 - n.vault1 == b.positions[i].owed1
        && n.positions[i].owed0 == 0 && n.positions[i].owed1 == 0
      case Swap(down, amountIn, minOut, limit, _) =>
        && 0 <= Vault(n, down) - Vault(b, down) <= amountIn
        && minOut <= Vault(b, !down) - Vault(n, !down)
        && WithinLimit(down, b.pool.price, n.pool.price, limit)
      case _ => n.vault0 >= b.vault0 && n.vault1 >= b.vault1
  {
    match op
    case Swap(down, amountIn, minOut, limit, starts) => SwapIsBounded(b, down, amountIn, minOut, limit, starts);
    case _ =>
  }

  lemma ModifyMoves(b: Book, i: nat, delta: i128, bound0: u64, bound1: u64, starts: seq<int>)
    requires Sane(b) && ApplyModifyLiquidity(b, i, delta, bound0, bound1, starts).Ok?
    ensures i < |b.positions|
    ensures var n, p := ApplyModifyLiquidity(b, i, delta, bound0, bound1, starts).value, b.positions[i];
      var d0, d1 := n.vault0 - b.vault0, n.vault1 - b.vault1;
      && |n.positions| == |b.positions| && n.positions[i].liquidity == p.liquidity + delta
      && (if delta >= 0 then
            && SwapMath.RoundedUp(d0, SwapMath.Times(delta, Unit0(p, b.pool.price)))
            && SwapMath.RoundedUp(d1, SwapMath.Times(delta, Unit1(p, b.pool.price)))
          else
            && SwapMath.RoundedDown(-d0, SwapMath.Times(-(delta as int), Unit0(p, b.pool.price)))
            && SwapMath.RoundedDown(-d1, SwapMath.Times(-(delta as int), Unit1(p, b.pool.price))))
  {
    ModifyLeaves(b, i, delta, bound0, bound1, starts);
    var p := b.positions[i];
    ModifyTicks(b.pool, p, b.ticks, starts, delta);
    ModifyIs(b.pool, p, b.ticks, starts, delta);
    AmountsRound(p, b.pool.price, b.pool.tick, Magnitude(delta), delta >= 0);
  }

  /** What enters the vaults in an increase is the exact principal of the liquidity added,
      rounded up. */
  lemma IncreaseCharges(b: Book, i: nat, l: u128, max0: u64, max1: u64, starts: seq<int>)
    requires Sane(b) && Apply(b, IncreaseLiquidity(i, l, max0, max1, starts)).Ok?
    ensures i < |b.positions|
    ensures var n, p := After(b, IncreaseLiquidity(i, l, max0, max1, starts)), b.positions[i];
      && |n.positions| == |b.positions| && n.positions[i].liquidity == p.liquidity + l
      && SwapMath.RoundedUp(n.vault0 - b.vault0, SwapMath.Times(l, Unit0(p, b.pool.price)))
      && SwapMath.RoundedUp(n.vault1 - b.vault1, SwapMath.Times(l, Unit1(p, b.pool.price)))
  {
    ModifyMoves(b, i, l, max0, max1, starts);
  }

  /** What leaves the vaults in a decrease is the exact principal of the liquidity removed,
      rounded down. */
  lemma DecreasePays(b: Book, i: nat, l: u128, min0: u64, min1: u64, starts: seq<int>)
    requires Sane(b) && Apply(b, DecreaseLiquidity(i, l, min0, min1, starts)).Ok?
    ensures i < |b.positions|
    ensures var n, p := After(b, DecreaseLiquidity(i, l, min0, min1, starts)), b.positions[i];
      && |n.positions| == |b.positions| && n.positions[i].liquidity == p.liquidity - l
      && SwapMath.RoundedDown(b.vault0 - n.vault0, SwapMath.Times(l, Unit0(p, b.pool.price)))
      && SwapMath.RoundedDown(b.vault1 - n.vault1, SwapMath.Times(l, Unit1(p, b.pool.price)))
  {
    ModifyMoves(b, i, Minus(l), min0, min1, starts);
    var p := b.positions[i];
    SwapMath.TimesSub(0, Unit0(p, b.pool.price), 0.0);
    SwapMath.TimesSub(0, Unit1(p, b.pool.price), 0.0);
  }

  lemma SwapIsBounded(b: Book, down: bool, amountIn: u64, minOut: u64, limit: u128, starts: seq<int>)
    requires Sane(b) && ApplySwap(b, down, amountIn, minOut, limit, starts).Ok?
    ensures var n := ApplySwap(b, down, amountIn, minOut, limit, starts).value;
      && 0 <= Vault(n, down) - Vault(b, down) <= amountIn
      && minOut <= Vault(b, !down) - Vault(n, !down)
      && WithinLimit(down, b.pool.price, n.pool.price, limit)
  {
    SwapRuns(b, down, amountIn, minOut, limit, starts);
    var w := WalkOf(b, down, limit, starts);
    RunConserves(w, Start(w, b.ticks, amountIn));
  }

  /** Initialized ticks whose prices a swap passes or reaches. */
  ghost function TicksOnWay(b: Book, n: Book): set<int> {
    set t | t in b.ticks && b.ticks[t].Initialized() && OnWay(b.pool.price, n.pool.price, t)
  }

  /** A swap leaves part of its input unspent only at the caller's limit, at the end of the band
      when there is no limit, or after sixteen initialized ticks. */
  lemma SwapStops(b: Book, down: bool, amountIn: u64, minOut: u64, limit: u128, starts: seq<int>)
    requires Sane(b) && ApplySwap(b, down, amountIn, minOut, limit, starts).Ok?
    ensures var n := ApplySwap(b, down, amountIn, minOut, limit, starts).value;
      || Vault(n, down) - Vault(b, down) == amountIn
      || n.pool.price == (if limit != 0 then limit else if down then 4295048016 else 79226673515399013880257568879)
      || 16 <= |TicksOnWay(b, n)|
  {
    SwapRuns(b, down, amountIn, minOut, limit, starts);
    var w := WalkOf(b, down, limit, starts);
    var n := ApplySwap(b, down, amountIn, minOut, limit, starts).value;
    var crossed := RunStops(w, Start(w, b.ticks, amountIn), b.positions);
    CountsCrossed(b, n, crossed);
  }

  lemma CountsCrossed(b: Book, n: Book, crossed: set<int>)
    requires Crossed(b.ticks, b.pool.price, n.pool.price, crossed)
    ensures |crossed| <= |TicksOnWay(b, n)|
  {
    forall t | t in crossed ensures t in TicksOnWay(b, n) {
      assert t in b.ticks && b.ticks[t].Initialized() && OnWay(b.pool.price, n.pool.price, t);
    }
    SubsetSize(crossed, TicksOnWay(b, n));
  }

  /** A swap passes at most sixteen initialized ticks. */
  lemma SwapPassesFew(b: Book, down: bool, amountIn: u64, minOut: u64, limit: u128, starts: seq<int>)
    requires Sane(b) && ApplySwap(b, down, amountIn, minOut, limit, starts).Ok?
    ensures |Passed(b.ticks, down, b.pool.tick,
        ApplySwap(b, down, amountIn, minOut, limit, starts).value.pool.tick)| <= 16
  {
    SwapRuns(b, down, amountIn, minOut, limit, starts);
    var w := WalkOf(b, down, limit, starts);
    var s := Start(w, b.ticks, amountIn);
    RunConserves(w, s);
    RunPasses(w, s, b.positions, b.ticks);
    ClampPasses(b, down, b.pool.tick, Run(w, s).value.tick);
  }

  lemma ClampPasses(b: Book, down: bool, from: int, to: int)
    requires Sane(b)
    ensures |Passed(b.ticks, down, from, Clamp(to))| <= |Passed(b.ticks, down, from, to)|
  {
    forall t | t in Passed(b.ticks, down, from, Clamp(to)) ensures t in Passed(b.ticks, down, from, to) {
      InitializedIsEnd(b.ticks, b.positions, b.pool.spacing, t);
    }
    SubsetSize(Passed(b.ticks, down, from, Clamp(to)), Passed(b.ticks, down, from, to));
  }

  // ---- what the invariant is worth ----

  /** Each vault holds the exact principal of all positions at the current price, plus every
      fee credited, plus every fee earned and not yet credited. */
  lemma Solvent(b: Book, a: Audit, zero: bool)
    requires Inv(b, a)
    ensures var p := PurseOf(a, zero);
      |p.earned| == |b.positions| &&
      Total(zero, b.positions, b.pool.price) + Sum(b.positions, OwedWeight(zero)) as real
        + Weighted(b.positions, p.earned) as real / Q64 as real <= Vault(b, zero) as real
  {
    var p := PurseOf(a, zero);
    assert Backed(b, p, zero);
    DividedBy(Sum(b.positions, OwedWeight(zero)), Weighted(b.positions, p.earned), p.charged - p.collected);
  }

  /** Pool liquidity is both the liquidity of the positions in range and the sum of the nets of
      all ticks up to the current one. */
  lemma LiquidityIsCoherent(b: Book, a: Audit)
    requires Inv(b, a)
    ensures b.pool.liquidity == Sum(b.positions, Active(b.pool.tick)) == NetsUpTo(b.ticks, b.pool.tick)
  {
    ActiveIsNets(b.ticks, b.positions, b.pool.spacing, b.pool.tick);
  }

  /** Between checkpoints, whatever was crossed, flipped or changed by others: the wrapped
      counters show exactly the increments added while the tick was in the position's range. */
  lemma GrowthSinceCheckpoint(b: Book, a: Audit, zero: bool, i: nat)
    requires Inv(b, a) && i < |b.positions| && b.positions[i].liquidity > 0
    ensures var p := b.positions[i];
      && p.lower in b.ticks && p.upper in b.ticks && i < |PurseOf(a, zero).earned|
      && WrapSub(Inside(b.ticks, p, b.pool.tick, PoolGrowth(b.pool, zero), zero), Last(p, zero))
           == PurseOf(a, zero).earned[i] % TWO_128
  {
    assert Backed(b, PurseOf(a, zero), zero);
    WrapsToRemainder(Inside(b.ticks, b.positions[i], b.pool.tick, PoolGrowth(b.pool, zero), zero),
        Last(b.positions[i], zero), PurseOf(a, zero).earned[i]);
  }

  lemma DividedBy(x: int, y: int, z: int)
    requires Q64 * x + y <= Q64 * z
    ensures x as real + y as real / Q64 as real <= z as real
  {
  }

  /** Fees are conserved: what was paid out and what is credited never exceed what swaps
      were charged, whatever was floored or wrapped on the way. */
  lemma FeesConserved(b: Book, a: Audit, zero: bool)
    requires Inv(b, a)
    ensures PurseOf(a, zero).collected + Sum(b.positions, OwedWeight(zero)) <= PurseOf(a, zero).charged
  {
    var p := PurseOf(a, zero);
    assert Backed(b, p, zero);
    WeightedNonNegative(b.positions, p.earned);
  }

  /** What an instruction takes out of the two vaults once its checks have passed. */
  ghost function PayOut(b: Book, op: Op): (nat, nat) {
    match op
    case DecreaseLiquidity(i, l, _, _, starts) => if ToI128(l).Ok? then RemovalPays(b, i, Minus(l), starts) else (0, 0)
    case Collect(i) => if OpenAt(b, i).Ok? then (b.positions[i].owed0, b.positions[i].owed1) else (0, 0)
    case Swap(down, amountIn, _, limit, starts) =>
      var pays := SwapPays(b, down, amountIn, limit, starts);
      if down then (0, pays) else (pays, 0)
    case _ => (0, 0)
  }

  ghost function RemovalPays(b: Book, i: nat, delta: i128, starts: seq<int>): (nat, nat) {
    if delta < 0 && OpenAt(b, i).Ok? && Modify(b.pool, b.positions[i], b.ticks, starts, delta).Ok? then
      var m := Modify(b.pool, b.positions[i], b.ticks, starts, delta).value;
      (m.amount0, m.amount1)
    else (0, 0)
  }

  ghost function SwapPays(b: Book, down: bool, amountIn: u64, limit: u128, starts: seq<int>): nat {
    match WindowSwap(b, down, amountIn, DefaultLimit(down, limit), starts)
    case Ok((o, _)) => o.amountOut
    case Err(_) => 0
  }

  /** No instruction of a calm run ever finds a vault short. */
  lemma NeverShort(b: Book, a: Audit, op: Op)
    requires Inv(b, a) && Calm(b, op)
    ensures PayOut(b, op).0 <= b.vault0 && PayOut(b, op).1 <= b.vault1
  {
    match op
    case DecreaseLiquidity(i, l, _, _, starts) =>
      if ToI128(l).Ok? {
        RemovalNeverShort(b, a, i, Minus(l), starts);
      }
    case Collect(i) =>
      if OpenAt(b, i).Ok? {
        OwedIsHeld(b, a, i);
      }
    case Swap(down, x, y, limit, starts) =>
      SwapNeverShort(b, PurseOf(a, !down), down, x, y, limit, starts);
    case _ =>
  }

  lemma OwedIsHeld(b: Book, a: Audit, i: nat)
    requires Inv(b, a) && i < |b.positions|
    ensures b.positions[i].owed0 <= b.vault0 && b.positions[i].owed1 <= b.vault1
  {
    assert Backed(b, a.purse0, true) && Backed(b, a.purse1, false);
    CoveredIsNonNegative(true, b.positions, b.pool.price, b.vault0, a.purse0);
    CoveredIsNonNegative(false, b.positions, b.pool.price, b.vault1, a.purse1);
    SumBounds(b.positions, Owed0, i);
    SumBounds(b.positions, Owed1, i);
  }

  lemma RemovalNeverShort(b: Book, a: Audit, i: nat, delta: i128, starts: seq<int>)
    requires Inv(b, a)
    ensures RemovalPays(b, i, delta, starts).0 <= b.vault0 && RemovalPays(b, i, delta, starts).1 <= b.vault1
  {
    if delta < 0 && OpenAt(b, i).Ok? && Modify(b.pool, b.positions[i], b.ticks, starts, delta).Ok? {
      RemovalIsCovered(b.pool, b.positions, i, b.ticks, starts, delta, true, b.vault0, a.purse0);
      RemovalIsCovered(b.pool, b.positions, i, b.ticks, starts, delta, false, b.vault1, a.purse1);
    }
  }

  lemma SwapNeverShort(b: Book, p: Purse, down: bool, amountIn: u64, minOut: u64, limit: u128, starts: seq<int>)
    requires Sane(b) && LiquidityOk(b) && Backed(b, p, !down) && Calm(b, Swap(down, amountIn, minOut, limit, starts))
    ensures SwapPays(b, down, amountIn, limit, starts) <= Vault(b, !down)
  {
    if WindowSwap(b, down, amountIn, DefaultLimit(down, limit), starts).Ok? {
      WindowRuns(b, down, amountIn, limit, starts);
      var w := WalkOf(b, down, limit, starts);
      var s := Start(w, b.ticks, amountIn);
      RunToken(w, s, b.positions, !down, Vault(b, !down), p);
      var end := Run(w, s).value;
      CoveredIsNonNegative(!down, b.positions, end.price, LoopVault(w, end, !down, Vault(b, !down)), RunPurse(w, s,
            b.positions, !down, p));
    }
  }

  /** From pool creation, over any calm run: each vault holds the principal, the credited and
      the uncredited fees; what was paid out and credited stays within what was charged; the
      pool's liquidity is what is in range; and the next calm instruction is never short. */
  lemma SolventFromInitPool(feePips: nat, spacing: nat, price: u128, ops: seq<Op>, zero: bool, next: Op)
    requires ApplyInitPool(feePips, spacing, price).Ok?
    requires AllCalm(ApplyInitPool(feePips, spacing, price).value, ops)
    ensures Sane(ApplyInitPool(feePips, spacing, price).value)
    ensures var b := Play(ApplyInitPool(feePips, spacing, price).value, ops);
      var p := PurseOf(PlayAudit(ApplyInitPool(feePips, spacing, price).value, NOTHING_YET, ops), zero);
      && |p.earned| == |b.positions|
      && Total(zero, b.positions, b.pool.price) + Sum(b.positions, OwedWeight(zero)) as real
           + Weighted(b.positions, p.earned) as real / Q64 as real <= Vault(b, zero) as real
      && p.collected + Sum(b.positions, OwedWeight(zero)) <= p.charged
      && b.pool.liquidity == Sum(b.positions, Active(b.pool.tick)) == NetsUpTo(b.ticks, b.pool.tick)
      && (Calm(b, next) ==> PayOut(b, next).0 <= b.vault0 && PayOut(b, next).1 <= b.vault1)
  {
    FromInitPool(feePips, spacing, price, ops);
    var b := Play(ApplyInitPool(feePips, spacing, price).value, ops);
    var a := PlayAudit(ApplyInitPool(feePips, spacing, price).value, NOTHING_YET, ops);
    Solvent(b, a, zero);
    FeesConserved(b, a, zero);
    LiquidityIsCoherent(b, a);
    if Calm(b, next) {
      NeverShort(b, a, next);
    }
  }
}
