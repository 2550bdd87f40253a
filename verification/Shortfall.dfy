/** What the broken pool of `Fragile` costs its liquidity providers: of two owners only one can
    take its liquidity out, and after one rising swap a vault holds less than the principal. */
module Shortfall {
  import opened Numbers
  import opened TickMath
  import opened Ticks
  import opened SwapWalk
  import opened Principal
  import opened Liquidity
  import opened Book
  import opened Leaving
  import opened Fragile
  import Density
  import Reachable
  import SwapMath

  // ---- one owner locks out the other ----

  /** A decrease in range takes its liquidity out of the pool's, which must hold it. */
  lemma TakesFromPool(b: Book, i: nat, l: u128, min0: u64, min1: u64, starts: seq<int>)
    requires i < |b.positions| && b.positions[i].lower <= b.pool.tick < b.positions[i].upper
    requires Apply(b, DecreaseLiquidity(i, l, min0, min1, starts)).Ok?
    ensures var n := After(b, DecreaseLiquidity(i, l, min0, min1, starts));
      && l <= b.pool.liquidity && n.pool.liquidity == b.pool.liquidity - l && n.pool.tick == b.pool.tick
      && |n.positions| == |b.positions|
      && (forall j :: 0 <= j < |b.positions| && j != i ==> n.positions[j] == b.positions[j])
  {
    ModifyTicks(b.pool, b.positions[i], b.ticks, starts, Reachable.Minus(l));
  }

  /** Whatever arrays and floors they pass: once one of the two owners has taken its liquidity
      out, the other cannot. */
  lemma OnlyOneLeaves(b: Book, i: nat, j: nat, min0: u64, min1: u64, starts: seq<int>, min0': u64, min1': u64,
        starts': seq<int>)
    requires b.pool.tick == 0 && b.pool.liquidity == SHARE && b.positions == FragileBook(0, 0).positions
    requires (i == 0 && j == 1) || (i == 1 && j == 0)
    requires Apply(b, DecreaseLiquidity(i, SHARE, min0, min1, starts)).Ok?
    ensures Apply(After(b, DecreaseLiquidity(i, SHARE, min0, min1, starts)),
        DecreaseLiquidity(j, SHARE, min0', min1', starts')).Err?
  {
    TakesFromPool(b, i, SHARE, min0, min1, starts);
    var n := After(b, DecreaseLiquidity(i, SHARE, min0, min1, starts));
    if Apply(n, DecreaseLiquidity(j, SHARE, min0', min1', starts')).Ok? {
      TakesFromPool(n, j, SHARE, min0', min1', starts');
    }
  }

  /** So it is in the pool reached from creation: never both. */
  lemma LockedOut(i: nat, j: nat, min0: u64, min1: u64, starts: seq<int>, min0': u64, min1': u64, starts': seq<int>)
    requires (i == 0 && j == 1) || (i == 1 && j == 0)
    ensures ApplyInitPool(3000, 64, Q64 + 1).Ok?
    ensures var ops := SetUpOps() + [IncreaseFirst(), IncreaseSecond()] + [FragileSwap()];
      var b := Play(ApplyInitPool(3000, 64, Q64 + 1).value, ops);
      var first, second := DecreaseLiquidity(i, SHARE, min0, min1, starts),
          DecreaseLiquidity(j, SHARE, min0', min1', starts');
      && |b.positions| == 2 && b.positions[i].liquidity == b.positions[j].liquidity == SHARE
      && !(Apply(b, first).Ok? && Apply(After(b, first), second).Ok?)
  {
    PoolIsFresh();
    var v0, v1 := Reached();
    Breaks(v0, v1);
    if Apply(BrokenBook(v0, v1), DecreaseLiquidity(i, SHARE, min0, min1, starts)).Ok? {
      OnlyOneLeaves(BrokenBook(v0, v1), i, j, min0, min1, starts, min0', min1', starts');
    }
  }

  // ---- the vault falls short ----

  /** Where a rising swap of 1000 units takes the broken pool's price. */
  const RISEN: int := Q64 + 997 * Q64 / SHARE

  lemma AboveZero()
    ensures PriceAt(0) == Q64 && RISEN < PriceAt(1) <= PriceAt(64) <= MAX_SQRT_PRICE
    ensures Q64 + Q64 / 0x10000 <= PriceAt(64)
  {
    NearZero();
    Density.StepAbove(0);
    PriceMono(1, 64);
    PriceInBand(64);
  }

  function RiseWalk(): Walk {
    Walk(BrokenBook(0, 0).pool, false, MAX_SQRT_PRICE, 0, 5632)
  }

  function Taken(): nat {
    SwapMath.Amount0(Q64, RISEN, SHARE, false)
  }

  function Risen(): WalkState {
    WalkState(RISEN, 0, SHARE, DivFloor(3 * Q64, SHARE), 0, 997, Taken(), 3, 0, AfterStall().ticks)
  }

  lemma TakenIsSmall()
    ensures Taken() <= 997
  {
    assert SHARE * Q64 * (RISEN - Q64) < 998 * (Q64 * RISEN);
  }

  lemma FarEnough(aim: pos)
    requires Q64 + Q64 / 0x10000 <= aim
    ensures 997 < SwapMath.ToTarget(Q64, aim, SHARE)
  {
  }

  lemma RiseStep(aim: pos)
    requires Q64 + Q64 / 0x10000 <= aim
    ensures SwapMath.RawStep(Q64, aim, SHARE, 1000, 3000) == SwapMath.SwapStep(RISEN, 997, Taken(), 3)
  {
    FarEnough(aim);
    assert SwapMath.LessFee(1000, 3000) == 997;
    assert SwapMath.NextFrom1In(Q64, SHARE, 997) == RISEN;
    assert SwapMath.Amount1(Q64, RISEN, SHARE, true) == 997;
  }

  lemma FitsStep(aim: sqrtprice)
    requires aim <= MAX_SQRT_PRICE
    ensures SwapMath.ToTarget(Q64, aim, SHARE) < TWO_128
  {
  }

  lemma RiseChecked(aim: sqrtprice)
    requires Q64 + Q64 / 0x10000 <= aim <= MAX_SQRT_PRICE
    ensures SwapMath.Step(Q64, aim, SHARE, 1000, 3000) == Ok(SwapMath.SwapStep(RISEN, 997, Taken(), 3))
  {
    SwapMath.StepIsComputed(Q64, aim, SHARE, 1000, 3000);
    TakenIsSmall();
    RiseStep(aim);
    FitsStep(aim);
  }

  lemma RiseFill(aim: sqrtprice)
    requires Q64 + Q64 / 0x10000 <= aim <= MAX_SQRT_PRICE
    ensures Fill(RiseWalk(), Start(RiseWalk(), AfterStall().ticks, 1000), aim) == Ok(Risen())
  {
    RiseChecked(aim);
    TakenIsSmall();
  }

  lemma RiseTarget()
    ensures NextTarget(RiseWalk(), AfterStall().ticks, 0) == Ok(Target(64, true, false))
  {
  }

  lemma RiseRun()
    ensures RiseWalk().Valid()
    ensures Run(RiseWalk(), Start(RiseWalk(), AfterStall().ticks, 1000)) == Ok(Risen())
  {
    var w := RiseWalk();
    var s := Start(w, AfterStall().ticks, 1000);
    AboveZero();
    BandEnds();
    RiseTarget();
    RiseFill(PriceAt(64));
    FloorTickUnique(RISEN, 0, TickAt(RISEN).value);
    IterateAdvances(w, s);
  }

  function RisingSwap(starts: seq<int>): Op {
    Swap(false, 1000, 0, 0, starts)
  }

  lemma RiseOutcome(v0: nat, v1: nat)
    ensures WindowSwap(BrokenBook(v0, v1), false, 1000, MAX_SQRT_PRICE, [0])
         == Ok((SwapOutcome(997, 3, Taken(), RISEN, 0, SHARE, Risen().growth), AfterStall().ticks))
  {
    RiseRun();
    TakenIsSmall();
    assert Chained([0], 64, 0, false) && LowEnd([0], false) == 0 && HighEnd([0], 64, false) == 5632;
  }

  /** A rising swap that leaves its ticks as they were. */
  lemma RiseSettles(b: Book, starts: seq<int>, o: SwapOutcome)
    requires CheckWindow(b, starts) == Ok(()) && o.amountIn + o.fee == 1000 && o.amountOut <= b.vault0
    requires WindowSwap(b, false, 1000, MAX_SQRT_PRICE, starts) == Ok((o, b.ticks))
    ensures Apply(b, RisingSwap(starts))
         == Ok(b.(pool := PoolAfter(b.pool, false, o), vault0 := b.vault0 - o.amountOut, vault1 := b.vault1 + 1000))
  {
  }

  lemma RiseWindow(v0: nat, v1: nat)
    ensures CheckWindow(BrokenBook(v0, v1), [0]) == Ok(())
  {
  }

  lemma Rises(v0: nat, v1: nat)
    requires Taken() <= v0
    ensures var b := After(BrokenBook(v0, v1), RisingSwap([0]));
      b.vault1 == v1 + 1000 && b.pool.price == RISEN && b.positions == FragileBook(0, 0).positions
    ensures Apply(BrokenBook(v0, v1), RisingSwap([0])).Ok?
  {
    RiseOutcome(v0, v1);
    RiseWindow(v0, v1);
    RiseSettles(BrokenBook(v0, v1), [0], WindowSwap(BrokenBook(v0, v1), false, 1000, MAX_SQRT_PRICE, [0]).value.0);
  }

  /** The vault of token 0 holds more than the swap takes. */
  lemma EnoughToTake(v0: nat, v1: nat)
    requires Funded(v0, v1)
    ensures Taken() <= v0
  {
    AboveZero();
    TakenIsSmall();
    HeldAbove(PriceAt(64));
  }

  lemma HeldAbove(upper: pos)
    requires Q64 + Q64 / 0x10000 <= upper
    ensures 997 <= SwapMath.Amount0(Q64 + 1, upper, SHARE, true)
  {
    var held := SwapMath.Amount0(Q64 + 1, upper, SHARE, true);
    if held < 997 {
      MulMono(held, 996, (Q64 + 1) * upper);
    }
  }

  lemma UnitsOf(price: pos)
    requires Q64 <= price <= BandPrice(64)
    ensures var ps := FragileBook(0, 0).positions;
      && Unit1(ps[0], price) == (price - Q64) as real / Q64 as real
      && Unit1(ps[1], price) == (price - BandPrice(-64)) as real / Q64 as real
  {
    NearZero();
    SwapMath.V1Is(price);
    SwapMath.V1Is(Q64);
    SwapMath.V1Is(BandPrice(64));
    SwapMath.V1Is(BandPrice(-64));
  }

  /** Token 1 owed to the two positions at a price. */
  lemma PrincipalOf(price: pos)
    requires Q64 <= price <= BandPrice(64)
    ensures Total(false, FragileBook(0, 0).positions, price)
         == SHARE as real * (2 * price - Q64 - BandPrice(-64)) as real / Q64 as real
  {
    var ps := FragileBook(0, 0).positions;
    assert ps[..1] == [ps[0]] && ps[..1][..0] == [];
    UnitsOf(price);
    SwapMath.TimesIs(SHARE, Unit1(ps[0], price));
    SwapMath.TimesIs(SHARE, Unit1(ps[1], price));
    assert Total(false, ps[..1], price) == SwapMath.Times(SHARE, Unit1(ps[0], price));
  }

  lemma Deficit(v1: nat, below: pos)
    requires below <= Q64 && v1 == 1 + SwapMath.Amount1(below, Q64 + 1, SHARE, true)
    ensures (v1 + 1000) * Q64 < SHARE * (2 * RISEN - Q64 - below)
  {
  }

  lemma AsReals(vault: nat, owed: nat)
    requires vault * Q64 < owed
    ensures vault as real < owed as real / Q64 as real
  {
  }

  /** From pool creation, eight instructions leave the vault of token 1 with less than the
      principal of the two positions. */
  lemma VaultFallsShort()
    ensures ApplyInitPool(3000, 64, Q64 + 1).Ok?
    ensures var ops := SetUpOps() + [IncreaseFirst(), IncreaseSecond()] + [FragileSwap()] + [RisingSwap([0])];
      var b := Play(ApplyInitPool(3000, 64, Q64 + 1).value, ops);
      Vault(b, false) as real < Total(false, b.positions, b.pool.price)
  {
    PoolIsFresh();
    AboveZero();
    var before := SetUpOps() + [IncreaseFirst(), IncreaseSecond()] + [FragileSwap()];
    var v0, v1 := Reached();
    Breaks(v0, v1);
    EnoughToTake(v0, v1);
    Rises(v0, v1);
    PlayConcat(FreshPool(), before, [RisingSwap([0])]);
    Single(BrokenBook(v0, v1), RisingSwap([0]));
    PrincipalOf(RISEN);
    NearZero();
    Deficit(v1, BandPrice(-64));
    AsReals(v1 + 1000, SHARE * (2 * RISEN - Q64 - BandPrice(-64)));
  }
}
