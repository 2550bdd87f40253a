/** A coherent pool, reached from its creation by six instructions, that one small falling
    swap breaks. */
module Fragile {
  import opened Numbers
  import opened TickMath
  import opened Ticks
  import opened SwapWalk
  import opened Ledger
  import opened Principal
  import opened Liquidity
  import opened Book
  import opened Invariant
  import opened Leaving
  import SwapMath

  /** Liquidity of each of the two positions. */
  const SHARE: int := 1_000_000_000

  /** Tick 0 is in use and the price stands one unit above it. */
  function FragileTicks(): map<int, Tick> {
    map t | -5632 <= t < 5632 && t % 64 == 0 ::
      if t == 0 then Tick(SHARE, SHARE, 0, 0)
      else if t == 64 then Tick(2 * SHARE, -2 * SHARE, 0, 0)
      else if t == -64 then Tick(SHARE, SHARE, 0, 0)
      else EMPTY_TICK
  }

  function FragileBook(v0: nat, v1: nat): Book {
    Book(PoolData(3000, 64, 0, Q64 + 1, 2 * SHARE, 0, 0), FragileTicks(), {0, -5632},
         [PositionData(true, 0, 64, SHARE, 0, 0, 0, 0), PositionData(true, -64, 64, SHARE, 0, 0, 0, 0)], v0, v1)
  }

  function FragileWalk(): Walk {
    Walk(FragileBook(0, 0).pool, true, MIN_SQRT_PRICE, -5632, 5632)
  }

  function AfterCross(): WalkState {
    var g := DivFloor(Q64, 2 * SHARE);
    WalkState(Q64, -1, SHARE, g, 1, 1, 0, 1, 1, FragileTicks()[0 := Tick(SHARE, SHARE, g, 0)])
  }

  lemma NearZero()
    ensures PriceAt(0) == Q64 && Q64 + 1 < PriceAt(1) && MIN_SQRT_PRICE <= PriceAt(-64) < Q64
  {
    BandEnds();
    PriceIsRaw(0);
    PriceIsRaw(1);
    PositiveStep(0);
    PriceMono(-64, 0);
    PriceInBand(-64);
  }

  lemma FragileSums(v0: nat, v1: nat, w: Weight)
    ensures var ps := FragileBook(v0, v1).positions; Sum(ps, w) == Share(w, ps[0]) + Share(w, ps[1])
  {
    var ps := FragileBook(v0, v1).positions;
    assert ps[..1] == [ps[0]] && ps[..1][..0] == [];
    assert Sum(ps[..1], w) == Sum(ps[..1][..0], w) + Share(w, ps[0]);
  }

  lemma FragileTicksMatch(v0: nat, v1: nat)
    ensures TicksMatch(FragileTicks(), FragileBook(v0, v1).positions, 64)
  {
    forall t | t in FragileTicks()
      ensures FragileTicks()[t].gross == Sum(FragileBook(v0, v1).positions, Gross(t)) &&
          FragileTicks()[t].net == Sum(FragileBook(v0, v1).positions, Net(t))
    {
      FragileSums(v0, v1, Gross(t));
      FragileSums(v0, v1, Net(t));
    }
  }

  lemma FragileIsStored(v0: nat, v1: nat, t: int)
    ensures t in FragileTicks() <==> Stored(FragileBook(v0, v1), t)
  {
    InSpan(0, 64, t);
    InSpan(-5632, 64, t);
  }

  lemma FragileIsSane(v0: nat, v1: nat)
    ensures Sane(FragileBook(v0, v1)) && LiquidityOk(FragileBook(v0, v1))
  {
    NearZero();
    BandEnds();
    PriceInBand(1);
    FragileTicksMatch(v0, v1);
    FragileSums(v0, v1, Active(0));
    forall t ensures t in FragileTicks() <==> Stored(FragileBook(v0, v1), t) {
      FragileIsStored(v0, v1, t);
    }
  }

  function BeforeCross(): WalkState {
    WalkState(Q64, 0, 2 * SHARE, DivFloor(Q64, 2 * SHARE), 1, 1, 0, 1, 0, FragileTicks())
  }

  lemma FirstTarget()
    ensures NextTarget(FragileWalk(), FragileTicks(), 0) == Ok(Target(0, true, false))
  {
  }

  lemma FirstFill()
    ensures Fill(FragileWalk(), Start(FragileWalk(), FragileTicks(), 3), Q64) == Ok(BeforeCross())
  {
    SwapMath.StepIsComputed(Q64 + 1, Q64, 2 * SHARE, 3, 3000);
    assert SwapMath.Step(Q64 + 1, Q64, 2 * SHARE, 3, 3000) == Ok(SwapMath.SwapStep(Q64, 1, 0, 1));
  }

  lemma FirstIteration()
    ensures FragileWalk().Valid()
    ensures var w := FragileWalk();
      var s := Start(w, FragileTicks(), 3);
      !Done(w, s) && Iterate(w, s) == Ok(AfterCross())
  {
    NearZero();
    FirstTarget();
    FirstFill();
  }

  lemma TooSmallToMove(q: pos)
    requires q < Q64
    ensures SwapMath.Step(Q64, q, SHARE, 1, 3000) == Ok(SwapMath.SwapStep(Q64, 0, 0, 1))
  {
    SwapMath.StepIsComputed(Q64, q, SHARE, 1, 3000);
    CeilIsSmallest(SHARE * Q64 * (Q64 - q), q * Q64, SHARE * Q64);
    assert SwapMath.ToTarget(Q64, q, SHARE) > 0;
  }

  lemma SecondTarget()
    ensures NextTarget(FragileWalk(), AfterCross().ticks, -1) == Ok(Target(-64, true, false))
  {
  }

  function AfterStall(): WalkState {
    AfterCross().(remaining := 0, totalFee := 2, growth := WrapAdd(AfterCross().growth, DivFloor(Q64, SHARE)))
  }

  lemma SecondFill(q: pos)
    requires q < Q64
    ensures Fill(FragileWalk(), AfterCross(), q) == Ok(AfterStall())
  {
    TooSmallToMove(q);
  }

  lemma SecondIteration()
    ensures FragileWalk().Valid()
    ensures var w := FragileWalk();
      !Done(w, AfterCross()) && Iterate(w, AfterCross()) == Ok(AfterStall().(tick := 0)) && Done(w, AfterStall())
  {
    NearZero();
    SecondTarget();
    SecondFill(PriceAt(-64));
    TickRoundTrip(0);
  }

  lemma FragileRun()
    ensures FragileWalk().Valid()
    ensures Run(FragileWalk(), Start(FragileWalk(), FragileTicks(), 3)) == Ok(AfterStall().(tick := 0))
  {
    var w := FragileWalk();
    var s := Start(w, FragileTicks(), 3);
    FirstIteration();
    SecondIteration();
    IterateAdvances(w, s);
    IterateAdvances(w, AfterCross());
    assert Run(w, AfterCross()) == Run(w, AfterStall().(tick := 0));
  }

  lemma FragileWindow()
    ensures var starts := [0, -5632];
      Chained(starts, 64, 0, true) && LowEnd(starts, true) == -5632 && HighEnd(starts, 64, true) == 5632
  {
  }

  lemma FragileOutcome(v0: nat, v1: nat)
    ensures var end := AfterStall();
      WindowSwap(FragileBook(v0, v1), true, 3, MIN_SQRT_PRICE, [0, -5632])
          == Ok((SwapOutcome(1, 2, 0, Q64, 0, SHARE, end.growth), end.ticks))
  {
    FragileRun();
    FragileWindow();
  }

  /** What the swap leaves: half the liquidity, with both positions still in range. */
  function BrokenBook(v0: nat, v1: nat): Book {
    Book(PoolData(3000, 64, 0, Q64, SHARE, AfterStall().growth, 0), AfterStall().ticks, {0, -5632},
         FragileBook(0, 0).positions, v0 + 3, v1)
  }

  lemma Breaks(v0: nat, v1: nat)
    ensures Apply(FragileBook(v0, v1), FragileSwap()) == Ok(BrokenBook(v0, v1))
  {
    FragileOutcome(v0, v1);
    assert CheckWindow(FragileBook(v0, v1), [0, -5632]) == Ok(());
  }

  /** Why the hypothesis is needed: this swap of 3 units succeeds on a coherent pool and
      leaves it with half the liquidity that is in range. */
  lemma StallBreaksLiquidity(v0: nat, v1: nat)
    ensures var b := FragileBook(v0, v1);
      && Sane(b) && LiquidityOk(b)
      && ApplySwap(b, true, 3, 0, 0, [0, -5632]).Ok?
      && var n := ApplySwap(b, true, 3, 0, 0, [0, -5632]).value;
      n.pool.tick == 0 && n.pool.liquidity == SHARE && Sum(n.positions, Active(0)) == 2 * SHARE
  {
    FragileIsSane(v0, v1);
    Breaks(v0, v1);
    FragileSums(v0, v1, Active(0));
  }

  // ---- the same pool, reached from its creation ----

  const NO_CAP: u64 := 0xffff_ffff_ffff_ffff

  function FreshPool(): Book {
    Book(PoolData(3000, 64, 0, Q64 + 1, 0, 0, 0), map[], {}, [], 0, 0)
  }

  function EmptyBook(): Book {
    Book(PoolData(3000, 64, 0, Q64 + 1, 0, 0, 0), EmptyTicks(0, 64) + EmptyTicks(-5632, 64), {0, -5632},
         [PositionData(true, 0, 64, 0, 0, 0, 0, 0), PositionData(true, -64, 64, 0, 0, 0, 0, 0)], 0, 0)
  }

  /** After the first of the two increases. */
  function HalfBook(v0: nat, v1: nat): Book {
    Book(PoolData(3000, 64, 0, Q64 + 1, SHARE, 0, 0),
         EmptyBook().ticks[0 := Tick(SHARE, SHARE, 0, 0)][64 := Tick(SHARE, -SHARE, 0, 0)], {0, -5632},
         [PositionData(true, 0, 64, SHARE, 0, 0, 0, 0), PositionData(true, -64, 64, 0, 0, 0, 0, 0)], v0, v1)
  }

  function SetUpOps(): seq<Op> {
    [InitTickArray(0), InitTickArray(-5632), OpenPosition(0, 64), OpenPosition(-64, 64)]
  }

  function IncreaseFirst(): Op {
    IncreaseLiquidity(0, SHARE, NO_CAP, NO_CAP, [0])
  }

  function IncreaseSecond(): Op {
    IncreaseLiquidity(1, SHARE, NO_CAP, NO_CAP, [-5632, 0])
  }

  lemma PoolIsFresh()
    ensures ApplyInitPool(3000, 64, Q64 + 1) == Ok(FreshPool())
  {
    NearZero();
    PriceInBand(1);
    BandEnds();
    FloorTickUnique(Q64 + 1, 0, TickAt(Q64 + 1).value);
  }

  lemma SetsUp()
    ensures Play(FreshPool(), SetUpOps()) == EmptyBook()
  {
    var ops := SetUpOps();
    assert ops[..3] == [ops[0], ops[1], ops[2]] && ops[..3][..2] == [ops[0], ops[1]] && ops[..3][..2][..1] == [ops[0]];
    Single(FreshPool(), ops[0]);
    var one := After(FreshPool(), ops[0]);
    assert one.ticks == EmptyTicks(0, 64);
    assert Play(FreshPool(), ops[..3][..2]) == After(one, ops[1]);
    assert After(one, ops[1]).ticks == EmptyTicks(0, 64) + EmptyTicks(-5632, 64);
    assert After(one, ops[1]).arrays == {0, -5632};
    assert After(After(After(one, ops[1]), ops[2]), ops[3]).positions == EmptyBook().positions;
  }

  /** The amounts of a small increase are small. */
  lemma SmallAmounts(lower: int, upper: int)
    requires MIN_TICK <= lower <= 0 < upper <= MAX_TICK
    ensures var r := AmountsFor(Q64 + 1, 0, lower, upper, SHARE, true);
      && r.Ok? && r.value.0 < Q64 && r.value.1 < Q64
      && r.value.0 == SwapMath.Amount0(Q64 + 1, BandPrice(upper), SHARE, true)
      && r.value.1 == SwapMath.Amount1(BandPrice(lower), Q64 + 1, SHARE, true)
  {
    AmountsForIs(Q64 + 1, 0, lower, upper, SHARE, true);
    NearZero();
    PriceMono(lower, 0);
    PriceMono(1, upper);
    PriceInBand(lower);
    var lo, hi := PriceAt(lower), PriceAt(upper);
    SmallAmount0(Q64 + 1, hi);
    CeilIsSmallest(SHARE * (Q64 + 1 - lo), Q64, 2 * SHARE);
  }

  lemma SmallAmount0(lo: pos, hi: pos)
    requires Q64 <= lo <= hi
    ensures SwapMath.Amount0(lo, hi, SHARE, true) <= SHARE
  {
    MulMono(Q64, lo, hi - lo);
    MulMono(hi - lo, hi, lo);
    CeilIsSmallest(SHARE * Q64 * (hi - lo), lo * hi, SHARE);
  }

  lemma OneUnit()
    ensures SwapMath.Amount1(BandPrice(0), Q64 + 1, SHARE, true) == 1
  {
    NearZero();
  }

  /** What the two increases have paid into the vaults, rounded up. */
  ghost predicate Funded(v0: nat, v1: nat) {
    && SwapMath.Amount0(Q64 + 1, BandPrice(64), SHARE, true) <= v0
    && v1 == 1 + SwapMath.Amount1(BandPrice(-64), Q64 + 1, SHARE, true)
  }

  lemma FirstIncrease() returns (v0: nat, v1: nat)
    ensures v0 == SwapMath.Amount0(Q64 + 1, BandPrice(64), SHARE, true) && v1 == 1
    ensures Apply(EmptyBook(), IncreaseFirst()) == Ok(HalfBook(v0, v1))
  {
    var b := EmptyBook();
    SmallAmounts(0, 64);
    OneUnit();
    ModifyIs(b.pool, b.positions[0], b.ticks, [0], SHARE);
    v0 := AmountsFor(Q64 + 1, 0, 0, 64, SHARE, true).value.0;
    v1 := AmountsFor(Q64 + 1, 0, 0, 64, SHARE, true).value.1;
    FirstModify();
    assert b.positions[0 := HalfBook(v0, v1).positions[0]] == HalfBook(v0, v1).positions;
    assert WindowModify(b, b.positions[0], SHARE, [0]).Ok?;
  }

  lemma FirstModify()
    ensures var b := EmptyBook();
      var a := AmountsFor(Q64 + 1, 0, 0, 64, SHARE, true);
      a.Ok? ==>
        RawModify(b.pool, b.positions[0], b.ticks, [0], SHARE)
        == Ok(Modified(HalfBook(0, 0).pool, HalfBook(0, 0).positions[0], HalfBook(0, 0).ticks, a.value.0, a.value.1))
  {
    var b := EmptyBook();
    assert UpdateBound(b.pool, b.ticks, [0], 0, false, SHARE) == Ok((Tick(SHARE, SHARE, 0, 0), true));
    assert UpdateBound(b.pool, b.ticks[0 := Tick(SHARE, SHARE, 0, 0)], [0], 64, true, SHARE)
        == Ok((Tick(SHARE, -SHARE, 0, 0), true));
  }

  lemma SecondModify(v0: nat, v1: nat)
    ensures var b := HalfBook(v0, v1);
      var a := AmountsFor(Q64 + 1, 0, -64, 64, SHARE, true);
      a.Ok? ==>
        RawModify(b.pool, b.positions[1], b.ticks, [-5632, 0], SHARE)
        == Ok(Modified(FragileBook(0, 0).pool, FragileBook(0, 0).positions[1], FragileTicks(), a.value.0, a.value.1))
  {
    var b := HalfBook(v0, v1);
    var lower, upper := Tick(SHARE, SHARE, 0, 0), Tick(2 * SHARE, -2 * SHARE, 0, 0);
    assert UpdateBound(b.pool, b.ticks, [-5632, 0], -64, false, SHARE) == Ok((lower, true));
    assert UpdateBound(b.pool, b.ticks[-64 := lower], [-5632, 0], 64, true, SHARE) == Ok((upper, false));
    assert b.ticks[-64 := lower][64 := upper] == FragileTicks();
  }

  lemma SecondIncrease(v0: nat, v1: nat) returns (w0: nat, w1: nat)
    ensures v0 <= w0 && w1 == v1 + SwapMath.Amount1(BandPrice(-64), Q64 + 1, SHARE, true)
    ensures Apply(HalfBook(v0, v1), IncreaseSecond()) == Ok(FragileBook(w0, w1))
  {
    var b := HalfBook(v0, v1);
    SmallAmounts(-64, 64);
    ModifyIs(b.pool, b.positions[1], b.ticks, [-5632, 0], SHARE);
    SecondModify(v0, v1);
    assert b.positions[1 := FragileBook(0, 0).positions[1]] == FragileBook(0, 0).positions;
    assert WindowModify(b, b.positions[1], SHARE, [-5632, 0]).Ok?;
    w0 := v0 + AmountsFor(Q64 + 1, 0, -64, 64, SHARE, true).value.0;
    w1 := v1 + AmountsFor(Q64 + 1, 0, -64, 64, SHARE, true).value.1;
  }

  /** Without the hypothesis coherence is false of the program: seven instructions lead from
      pool creation to a pool whose liquidity is half of what is in range. */
  lemma CoherenceCanFail()
    ensures ApplyInitPool(3000, 64, Q64 + 1).Ok?
    ensures var ops := SetUpOps() + [IncreaseFirst(), IncreaseSecond(), FragileSwap()];
      var b := Play(ApplyInitPool(3000, 64, Q64 + 1).value, ops);
      b.pool.tick == 0 && b.pool.liquidity == SHARE && Sum(b.positions, Active(0)) == 2 * SHARE
  {
    PoolIsFresh();
    var w0, w1 := Reached();
    StallBreaksLiquidity(w0, w1);
    assert SetUpOps() + [IncreaseFirst(), IncreaseSecond(), FragileSwap()]
        == SetUpOps() + [IncreaseFirst(), IncreaseSecond()] + [FragileSwap()];
  }

  function FragileSwap(): Op {
    Swap(true, 3, 0, 0, [0, -5632])
  }

  lemma Reached() returns (w0: nat, w1: nat)
    ensures Funded(w0, w1)
    ensures Play(FreshPool(), SetUpOps() + [IncreaseFirst(), IncreaseSecond()] + [FragileSwap()])
        == After(FragileBook(w0, w1), FragileSwap())
  {
    SetsUp();
    w0, w1 := Grows();
    ThreeParts(FreshPool(), SetUpOps(), [IncreaseFirst(), IncreaseSecond()], FragileSwap());
  }

  lemma ThreeParts(b: Book, x: seq<Op>, y: seq<Op>, op: Op)
    ensures Play(b, x + y + [op]) == After(Play(Play(b, x), y), op)
  {
    PlayConcat(b, x, y);
    PlayConcat(b, x + y, [op]);
    Single(Play(b, x + y), op);
  }

  lemma Grows() returns (w0: nat, w1: nat)
    ensures Funded(w0, w1)
    ensures Play(EmptyBook(), [IncreaseFirst(), IncreaseSecond()]) == FragileBook(w0, w1)
  {
    var v0, v1 := FirstIncrease();
    w0, w1 := SecondIncrease(v0, v1);
    Single(EmptyBook(), IncreaseFirst());
    Single(HalfBook(v0, v1), IncreaseSecond());
    PlayConcat(EmptyBook(), [IncreaseFirst()], [IncreaseSecond()]);
    assert [IncreaseFirst()] + [IncreaseSecond()] == [IncreaseFirst(), IncreaseSecond()];
  }
}
