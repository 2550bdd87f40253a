/** Nobody is ever locked in: in every calm state, each position can be emptied, collected
    and closed, in any order, and no arithmetic check stands in the way. */
module Leaving {
  import opened Numbers
  import opened Ticks
  import opened Ledger
  import opened FeeGrowth
  import opened Principal
  import opened Solvency
  import opened Liquidity
  import opened Changes
  import opened Density
  import opened Book
  import opened Invariant
  import opened Reachable
  import opened SwapMath

  // ---- liquidity is bounded by the vaults ----

  lemma {:induction false} DenseTotal(ps: seq<PositionData>, feePips: nat, spacing: pos, price: pos)
    requires IsTier(feePips, spacing)
    requires forall i :: 0 <= i < |ps| && ps[i].liquidity > 0 ==> Sound(ps[i], spacing)
    ensures Times(Sum(ps, All), LEAST) <= Total(true, ps, price) + Total(false, ps, price)
  {
    if ps == [] {
      TimesSub(0, LEAST, 0.0);
    } else {
      var n := |ps| - 1;
      var p, l := ps[n], ps[n].liquidity;
      DenseTotal(ps[..n], feePips, spacing, price);
      if l > 0 {
        UnitIsDense(p, feePips, spacing, price);
        TimesMono(l, LEAST, Unit0(p, price) + Unit1(p, price));
      }
      TimesSub(l, Unit0(p, price) + Unit1(p, price), Unit1(p, price));
      TimesSub(l, Unit0(p, price), 0.0);
      TimesSub(0, LEAST, 0.0);
      TimesSub(0, Unit0(p, price), Unit1(p, price));
      TimesSub(0, Unit1(p, price), Unit0(p, price));
      TimesAdd(Sum(ps[..n], All), l, LEAST);
    }
  }

  lemma {:induction false} NetWithin(ps: seq<PositionData>, t: int)
    requires forall i :: 0 <= i < |ps| && ps[i].liquidity > 0 ==> ps[i].lower < ps[i].upper
    ensures -Sum(ps, All) <= Sum(ps, Net(t)) <= Sum(ps, All)
  {
    if ps != [] {
      NetWithin(ps[..|ps| - 1], t);
    }
  }

  /** Vaults of 64 bits keep the liquidity of all positions together below 2^127, so no sum
      kept on a tick or in the pool is near its limit. */
  lemma LiquidityBounded(b: Book, a: Audit)
    requires Inv(b, a) && b.vault0 < Q64 && b.vault1 < Q64
    ensures Sum(b.positions, All) < 0x8000_0000_0000_0000_0000_0000_0000_0000
  {
    var s := Sum(b.positions, All);
    assert Backed(b, a.purse0, true) && Backed(b, a.purse1, false);
    CoveredIsNonNegative(true, b.positions, b.pool.price, b.vault0, a.purse0);
    CoveredIsNonNegative(false, b.positions, b.pool.price, b.vault1, a.purse1);
    DenseTotal(b.positions, b.pool.feePips, b.pool.spacing, b.pool.price);
    TimesIs(s, LEAST);
  }

  // ---- emptying a position ----

  /** A bound gives back all of one position's liquidity, and keeps its outside growth. */
  lemma BoundEmpties(pool: PoolData, ps: seq<PositionData>, i: nat, ticks: map<int, Tick>, starts: seq<int>, tick: int,
        isUpper: bool)
    requires TicksMatch(ticks, ps, pool.spacing) && i < |ps| && 0 < ps[i].liquidity
    requires Sum(ps, All) < 0x8000_0000_0000_0000_0000_0000_0000_0000
    requires ps[i].liquidity < 0x8000_0000_0000_0000_0000_0000_0000_0000
    requires tick == (if isUpper then ps[i].upper else ps[i].lower) && StartIndex(tick, pool.spacing) in starts
    ensures tick in ticks
    ensures var r := UpdateBound(pool, ticks, starts, tick, isUpper, Minus(ps[i].liquidity));
      r.Ok? && r.value.0.outside0 == ticks[tick].outside0 && r.value.0.outside1 == ticks[tick].outside1
  {
    var gone := ps[i].(liquidity := 0);
    OwnSlot(tick, pool.spacing);
    assert tick in ticks;
    SumBounds(ps, Gross(tick), i);
    SumUpdate(ps, i, gone, Net(tick));
    SumUpdate(ps, i, gone, All);
    NetWithin(ps[i := gone], tick);
    TickEmpties(ticks[tick], ps[i].liquidity, isUpper, tick, pool);
  }

  lemma TickEmpties(t: Tick, liquidity: pos, isUpper: bool, index: int, pool: PoolData)
    requires liquidity < 0x8000_0000_0000_0000_0000_0000_0000_0000 && liquidity <= t.gross
    requires var net := if isUpper then t.net + liquidity else t.net - liquidity;
      -0x8000_0000_0000_0000_0000_0000_0000_0000 <= net < 0x8000_0000_0000_0000_0000_0000_0000_0000
    ensures var r := t.Update(Minus(liquidity), isUpper, index, pool.tick, pool.growth0, pool.growth1);
      r.Ok? && r.value.0.outside0 == t.outside0 && r.value.0.outside1 == t.outside1
  {
  }

  /** The credit due fits, on top of what is already owed. */
  lemma CreditFits(b: Book, p: Purse, zero: bool, i: nat)
    requires Sane(b) && Backed(b, p, zero) && Vault(b, zero) < Q64 && i < |b.positions| && 0 < b.positions[i].liquidity
    ensures var q := b.positions[i];
      && q.lower in b.ticks && q.upper in b.ticks
      && var r := FeesOwed(q.liquidity, Inside(b.ticks, q, b.pool.tick, PoolGrowth(b.pool, zero), zero), Last(q, zero));
      r.Ok? && OwedOf(q, zero) + r.value < Q64
  {
    var q := b.positions[i];
    CreditFitsAt(b.positions, b.pool.price, Vault(b, zero), p, zero, i,
        Inside(b.ticks, q, b.pool.tick, PoolGrowth(b.pool, zero), zero));
  }

  lemma CreditFitsAt(ps: seq<PositionData>, price: pos, vault: nat, p: Purse, zero: bool, i: nat, inside: u128)
    requires |p.earned| == |ps| && Ordered(ps) && Covered(zero, ps, price, vault, p) && vault < Q64
    requires i < |ps| && Same(inside, Last(ps[i], zero) + p.earned[i])
    ensures var r := FeesOwed(ps[i].liquidity, inside, Last(ps[i], zero));
      r.Ok? && OwedOf(ps[i], zero) + r.value < Q64
  {
    var gained, l := WrapSub(inside, Last(ps[i], zero)), ps[i].liquidity;
    WrappedDifference(inside, Last(ps[i], zero), p.earned[i]);
    MulMonoLeft(l, gained, p.earned[i]);
    WeightedNonNegative(ps, p.earned);
    SumBounds(ps, OwedWeight(zero), i);
    CoveredIsNonNegative(zero, ps, price, vault, p);
    CreditUnder(l * gained, Weighted(ps, p.earned), OwedOf(ps[i], zero), Sum(ps, OwedWeight(zero)), p.collected,
        p.charged, vault);
  }

  lemma CreditUnder(product: nat, weighted: int, owed: nat, sum: int, collected: nat, charged: nat, vault: int)
    requires product <= weighted && owed <= sum && Q64 * (collected + sum) + weighted <= Q64 * charged
    requires charged - collected <= vault < Q64
    ensures DivFloor(product, Q64) + owed < Q64
  {
    FitsUnder(product, owed, vault);
  }

  lemma FitsUnder(product: nat, owed: nat, vault: nat)
    requires product + Q64 * owed <= Q64 * vault && vault < Q64
    ensures DivFloor(product, Q64) + owed < Q64
  {
  }

  /** The exact principal of one position lies in the vaults, so its rounded amounts fit. */
  lemma PrincipalFits(b: Book, a: Audit, i: nat)
    requires Inv(b, a) && b.vault0 < Q64 && b.vault1 < Q64 && i < |b.positions| && 0 < b.positions[i].liquidity
    ensures var q := b.positions[i];
      var r := AmountsFor(b.pool.price, b.pool.tick, q.lower, q.upper, q.liquidity, false);
      r.Ok? && r.value.0 <= b.vault0 && r.value.1 <= b.vault1
  {
    var q := b.positions[i];
    assert Backed(b, a.purse0, true) && Backed(b, a.purse1, false);
    CoveredIsNonNegative(true, b.positions, b.pool.price, b.vault0, a.purse0);
    CoveredIsNonNegative(false, b.positions, b.pool.price, b.vault1, a.purse1);
    AmountsForIs(b.pool.price, b.pool.tick, q.lower, q.upper, q.liquidity, false);
    AmountsAreRounded(q, b.pool.price, b.pool.tick, q.liquidity, false);
    TotalBounds(true, b.positions, b.pool.price);
    TotalBounds(false, b.positions, b.pool.price);
  }

  /** Both arrays of a live position exist. */
  function ArraysOf(p: PositionData, spacing: pos): seq<int> {
    [StartIndex(p.lower, spacing), StartIndex(p.upper, spacing)]
  }

  lemma FeesUpdate(p: PositionData, inside0: u128, inside1: u128)
    requires FeesOwed(p.liquidity, inside0, p.inside0Last).Ok? &&
        p.owed0 + FeesOwed(p.liquidity, inside0, p.inside0Last).value < Q64
    requires FeesOwed(p.liquidity, inside1, p.inside1Last).Ok? &&
        p.owed1 + FeesOwed(p.liquidity, inside1, p.inside1Last).value < Q64
    ensures p.UpdateFees(inside0, inside1).Ok?
  {
  }

  lemma EmptyingSucceeds(b: Book, a: Audit, i: nat)
    requires Inv(b, a) && b.vault0 < Q64 && b.vault1 < Q64 && i < |b.positions| && 0 < b.positions[i].liquidity
    requires b.positions[i].liquidity < 0x8000_0000_0000_0000_0000_0000_0000_0000
    ensures var p := b.positions[i];
      Modify(b.pool, p, b.ticks, ArraysOf(p, b.pool.spacing), Minus(p.liquidity)).Ok?
  {
    var p := b.positions[i];
    var starts, delta := ArraysOf(p, b.pool.spacing), Minus(p.liquidity);
    LiquidityBounded(b, a);
    BoundEmpties(b.pool, b.positions, i, b.ticks, starts, p.lower, false);
    BoundEmpties(b.pool, b.positions, i, b.ticks, starts, p.upper, true);
    var lower := UpdateBound(b.pool, b.ticks, starts, p.lower, false, delta).value.0;
    assert UpdateBound(b.pool, b.ticks[p.lower := lower], starts, p.upper, true, delta)
        == UpdateBound(b.pool, b.ticks, starts, p.upper, true, delta);
    CreditFits(b, a.purse0, true, i);
    CreditFits(b, a.purse1, false, i);
    FeesUpdate(p, Inside(b.ticks, p, b.pool.tick, b.pool.growth0, true), Inside(b.ticks, p, b.pool.tick,
          b.pool.growth1, false));
    PrincipalFits(b, a, i);
    SumBounds(b.positions, Active(b.pool.tick), i);
    ModifyIs(b.pool, p, b.ticks, starts, delta);
  }

  // ---- what is due ----

  /** What a position is due in one token: its exact principal rounded down, what it is already
      credited, and the fees it earned since its checkpoint, rounded down. */
  ghost function Dues(b: Book, a: Audit, i: nat, zero: bool): int
    requires i < |b.positions| == |PurseOf(a, zero).earned|
  {
    var p := b.positions[i];
    Times(p.liquidity, Unit(zero, p, b.pool.price)).Floor + OwedOf(p, zero)
      + DivFloor(p.liquidity * PurseOf(a, zero).earned[i], Q64)
  }

  lemma FloorOf(x: int, r: real)
    requires RoundedDown(x, r)
    ensures x == r.Floor
  {
  }

  /** Growth since the checkpoint has not wrapped, because the vault holds all of it. */
  lemma EarnedFits(b: Book, p: Purse, zero: bool, i: nat)
    requires Sane(b) && Backed(b, p, zero) && Vault(b, zero) < Q64 && i < |b.positions| && 0 < b.positions[i].liquidity
    ensures p.earned[i] < TWO_128
  {
    CoveredIsNonNegative(zero, b.positions, b.pool.price, Vault(b, zero), p);
    WeightedNonNegative(b.positions, p.earned);
    MulMono(1, b.positions[i].liquidity, p.earned[i]);
  }

  /** Emptying credits all that was earned. */
  lemma EmptyingCredits(b: Book, p: Purse, zero: bool, i: nat, starts: seq<int>, delta: i128)
    requires Sane(b) && Backed(b, p, zero) && Vault(b, zero) < Q64 && i < |b.positions| && 0 < b.positions[i].liquidity
    requires Modify(b.pool, b.positions[i], b.ticks, starts, delta).Ok?
    ensures var m := Modify(b.pool, b.positions[i], b.ticks, starts, delta).value;
      OwedOf(m.position, zero) == OwedOf(b.positions[i], zero) + DivFloor(b.positions[i].liquidity * p.earned[i], Q64)
  {
    EarnedFits(b, p, zero, i);
    CreditIsExact(b.pool, b.positions, i, b.ticks, starts, delta, zero, p.earned);
    var m := Modify(b.pool, b.positions[i], b.ticks, starts, delta).value;
    CreditIs(b.positions[i].liquidity, p.earned[i], OwedOf(m.position, zero) - OwedOf(b.positions[i], zero));
  }

  lemma CreditIs(l: nat, earned: nat, credit: int)
    requires earned < TWO_128 && Q64 * credit <= l * (earned % TWO_128) < Q64 * credit + Q64
    ensures credit == DivFloor(l * earned, Q64)
  {
    assert earned % TWO_128 == earned;
    QuotientIs(l * earned, Q64, credit);
  }

  // ---- leaving ----

  function EmptyOp(b: Book, i: nat): Op
    requires i < |b.positions|
  {
    DecreaseLiquidity(i, b.positions[i].liquidity, 0, 0, ArraysOf(b.positions[i], b.pool.spacing))
  }

  /** The instructions by which a position's owner leaves. */
  function LeaveOps(b: Book, i: nat): seq<Op>
    requires i < |b.positions|
  {
    var p := b.positions[i];
    (if p.liquidity == 0 then [] else [EmptyOp(b, i)]) + [Collect(i), ClosePosition(i)]
  }

  /** Every instruction of the list succeeds, each on the state the ones before it left. */
  ghost predicate Succeed(b: Book, ops: seq<Op>) {
    forall k :: 0 <= k < |ops| ==> Apply(Play(b, ops[..k]), ops[k]).Ok?
  }

  lemma {:induction false} PlayConcat(b: Book, x: seq<Op>, y: seq<Op>)
    ensures Play(b, x + y) == Play(Play(b, x), y)
  {
    if y == [] {
      assert x + y == x;
    } else {
      var n := |y| - 1;
      assert (x + y)[..|x| + n] == x + y[..n];
      PlayConcat(b, x, y[..n]);
    }
  }

  lemma SucceedAt(b: Book, x: seq<Op>, y: seq<Op>, k: nat)
    requires k < |x + y| && Succeed(b, x) && Succeed(Play(b, x), y)
    ensures Apply(Play(b, (x + y)[..k]), (x + y)[k]).Ok?
  {
    if k < |x| {
      assert (x + y)[..k] == x[..k];
    } else {
      assert (x + y)[..k] == x + y[..k - |x|];
      PlayConcat(b, x, y[..k - |x|]);
    }
  }

  lemma SucceedConcat(b: Book, x: seq<Op>, y: seq<Op>)
    requires Succeed(b, x) && Succeed(Play(b, x), y)
    ensures Succeed(b, x + y)
  {
    forall k | 0 <= k < |x + y| ensures Apply(Play(b, (x + y)[..k]), (x + y)[k]).Ok? {
      SucceedAt(b, x, y, k);
    }
  }

  /** What leaving does to everybody else: nothing. */
  ghost predicate Gone(b: Book, n: Book, i: nat) {
    && i < |b.positions| && |n.positions| == |b.positions|
    && n.pool.spacing == b.pool.spacing && n.pool.price == b.pool.price
    && n.vault0 <= b.vault0 && n.vault1 <= b.vault1
    && (forall j :: 0 <= j < |b.positions| && j != i ==> n.positions[j] == b.positions[j])
  }

  /** ... nor to what they have earned. */
  ghost predicate OthersEarned(a: Audit, a': Audit, i: nat) {
    forall zero :: var e, e' := PurseOf(a, zero).earned, PurseOf(a', zero).earned;
      |e'| == |e| && forall j :: 0 <= j < |e| && j != i ==> e'[j] == e[j]
  }

  /** What an owner has received when `n` is reached from `b`. */
  ghost predicate Received(b: Book, n: Book, dues0: int, dues1: int) {
    b.vault0 - n.vault0 == dues0 && b.vault1 - n.vault1 == dues1
  }

  lemma Single(b: Book, op: Op)
    ensures Play(b, [op]) == After(b, op)
    ensures Apply(b, op).Ok? ==> Succeed(b, [op])
  {
    assert [op][..0] == [] && [op][..|[op]| - 1] == [];
  }

  /** Emptying pays the principal and credits the rest of what is due. */
  lemma Empties(b: Book, a: Audit, i: nat)
    requires Inv(b, a) && b.vault0 < Q64 && b.vault1 < Q64 && OpenAt(b, i).Ok? && 0 < b.positions[i].liquidity
    ensures var r := Apply(b, EmptyOp(b, i));
      r.Ok? && Gone(b, r.value, i) && OpenAt(r.value, i).Ok? && r.value.positions[i].liquidity == 0
  {
    var p := b.positions[i];
    LiquidityBounded(b, a);
    SumBounds(b.positions, All, i);
    var starts, delta := ArraysOf(p, b.pool.spacing), Minus(p.liquidity);
    EmptyingSucceeds(b, a, i);
    RemovalNeverShort(b, a, i, delta, starts);
    ModifyTicks(b.pool, p, b.ticks, starts, delta);
    assert Stored(b, p.lower) && Stored(b, p.upper);
  }

  lemma EmptyingPays(b: Book, a: Audit, i: nat)
    requires Inv(b, a) && b.vault0 < Q64 && b.vault1 < Q64 && OpenAt(b, i).Ok? && 0 < b.positions[i].liquidity
    requires Apply(b, EmptyOp(b, i)).Ok? && OpenAt(After(b, EmptyOp(b, i)), i).Ok?
    ensures var n := After(b, EmptyOp(b, i));
      Received(b, n, Dues(b, a, i, true) - n.positions[i].owed0, Dues(b, a, i, false) - n.positions[i].owed1)
  {
    var p := b.positions[i];
    var starts, delta := ArraysOf(p, b.pool.spacing), Minus(p.liquidity);
    DecreasePays(b, i, p.liquidity, 0, 0, starts);
    var n := After(b, EmptyOp(b, i));
    FloorOf(b.vault0 - n.vault0, Times(p.liquidity, Unit0(p, b.pool.price)));
    FloorOf(b.vault1 - n.vault1, Times(p.liquidity, Unit1(p, b.pool.price)));
    ModifyLeaves(b, i, delta, 0, 0, starts);
    EmptyingCredits(b, a.purse0, true, i, starts, delta);
    EmptyingCredits(b, a.purse1, false, i, starts, delta);
  }

  lemma Collects(b: Book, a: Audit, i: nat)
    requires Inv(b, a) && OpenAt(b, i).Ok?
    ensures var r := Apply(b, Collect(i));
      && r.Ok? && Gone(b, r.value, i) && OpenAt(r.value, i).Ok?
      && r.value.positions[i].liquidity == b.positions[i].liquidity && r.value.positions[i].owed0 == 0 &&
          r.value.positions[i].owed1 == 0
      && Received(b, r.value, b.positions[i].owed0, b.positions[i].owed1)
  {
    OwedIsHeld(b, a, i);
  }

  lemma Closes(b: Book, i: nat)
    requires OpenAt(b, i).Ok? && b.positions[i].liquidity == 0 && b.positions[i].owed0 == 0 && b.positions[i].owed1 == 0
    ensures var r := Apply(b, ClosePosition(i));
      r.Ok? && Gone(b, r.value, i) && !r.value.positions[i].open && Received(b, r.value, 0, 0)
  {
  }

  /** Only the leaving position's checkpoint moves. */
  lemma LeavingKeepsEarned(b: Book, a: Audit, i: nat, op: Op)
    requires Inv(b, a) && i < |b.positions|
    requires (op.DecreaseLiquidity? && op.i == i) || (op.Collect? && op.i == i) || (op.ClosePosition? && op.i == i)
    ensures OthersEarned(a, AuditAfter(b, a, op), i)
  {
  }

  lemma CollectsAndCloses(b: Book, a: Audit, i: nat) returns (a': Audit)
    requires Inv(b, a) && OpenAt(b, i).Ok? && b.positions[i].liquidity == 0
    ensures Succeed(b, [Collect(i), ClosePosition(i)])
    ensures var n := Play(b, [Collect(i), ClosePosition(i)]);
      && Inv(n, a') && Gone(b, n, i) && !n.positions[i].open
      && Received(b, n, b.positions[i].owed0, b.positions[i].owed1) && OthersEarned(a, a', i)
  {
    var m := After(b, Collect(i));
    Collects(b, a, i);
    Closes(m, i);
    StepKeepsInv(b, a, Collect(i));
    LeavingKeepsEarned(b, a, i, Collect(i));
    var c := AuditAfter(b, a, Collect(i));
    StepKeepsInv(m, c, ClosePosition(i));
    LeavingKeepsEarned(m, c, i, ClosePosition(i));
    a' := AuditAfter(m, c, ClosePosition(i));
    Single(b, Collect(i));
    Single(m, ClosePosition(i));
    PlayConcat(b, [Collect(i)], [ClosePosition(i)]);
    SucceedConcat(b, [Collect(i)], [ClosePosition(i)]);
    assert [Collect(i)] + [ClosePosition(i)] == [Collect(i), ClosePosition(i)];
  }

  lemma IdleDues(b: Book, a: Audit, i: nat, zero: bool)
    requires i < |b.positions| == |PurseOf(a, zero).earned| && b.positions[i].liquidity == 0
    ensures Dues(b, a, i, zero) == OwedOf(b.positions[i], zero)
  {
    TimesSub(0, Unit(zero, b.positions[i], b.pool.price), 0.0);
  }

  /** One owner leaves: every instruction succeeds, the owner receives what is due in both
      tokens, and nobody else's position or earnings change. */
  lemma OneLeaves(b: Book, a: Audit, i: nat) returns (a': Audit)
    requires Inv(b, a) && b.vault0 < Q64 && b.vault1 < Q64 && OpenAt(b, i).Ok?
    ensures Succeed(b, LeaveOps(b, i))
    ensures var n := Play(b, LeaveOps(b, i));
      && Inv(n, a') && Gone(b, n, i) && !n.positions[i].open
      && Received(b, n, Dues(b, a, i, true), Dues(b, a, i, false)) && OthersEarned(a, a', i)
  {
    var p := b.positions[i];
    var last := [Collect(i), ClosePosition(i)];
    if p.liquidity == 0 {
      a' := CollectsAndCloses(b, a, i);
      assert LeaveOps(b, i) == last;
      IdleDues(b, a, i, true);
      IdleDues(b, a, i, false);
    } else {
      var op := EmptyOp(b, i);
      Empties(b, a, i);
      EmptyingPays(b, a, i);
      StepKeepsInv(b, a, op);
      LeavingKeepsEarned(b, a, i, op);
      a' := CollectsAndCloses(After(b, op), AuditAfter(b, a, op), i);
      Single(b, op);
      PlayConcat(b, [op], last);
      SucceedConcat(b, [op], last);
      assert LeaveOps(b, i) == [op] + last;
    }
  }

  function ExitOps(b: Book, order: seq<nat>): seq<Op>
    requires forall k :: 0 <= k < |order| ==> order[k] < |b.positions|
  {
    if order == [] then [] else LeaveOps(b, order[0]) + ExitOps(b, order[1..])
  }

  lemma {:induction false} SameExit(b: Book, n: Book, order: seq<nat>, i: nat)
    requires Gone(b, n, i) && forall k :: 0 <= k < |order| ==> order[k] < |b.positions| && order[k] != i
    ensures ExitOps(n, order) == ExitOps(b, order)
  {
    if order != [] {
      SameExit(b, n, order[1..], i);
    }
  }

  /** What several owners are due together. */
  ghost function DuesOf(b: Book, a: Audit, order: seq<nat>, zero: bool): int
    requires |b.positions| == |PurseOf(a, zero).earned|
    requires forall k :: 0 <= k < |order| ==> order[k] < |b.positions|
  {
    if order == [] then 0 else Dues(b, a, order[0], zero) + DuesOf(b, a, order[1..], zero)
  }

  /** What is due to the others does not change when one leaves. */
  lemma {:induction false} SameDues(b: Book, a: Audit, n: Book, a': Audit, order: seq<nat>, i: nat, zero: bool)
    requires |b.positions| == |PurseOf(a, zero).earned| && Gone(b, n, i) && OthersEarned(a, a', i)
    requires forall k :: 0 <= k < |order| ==> order[k] < |b.positions| && order[k] != i
    ensures |n.positions| == |PurseOf(a', zero).earned|
    ensures DuesOf(n, a', order, zero) == DuesOf(b, a, order, zero)
  {
    if order != [] {
      SameDues(b, a, n, a', order[1..], i, zero);
    }
  }

  /** Everyone can leave, in any order: from every state of a calm run, whatever the order,
      every instruction of every leaving owner succeeds, and together they receive what each of
      them is due, in both tokens. */
  lemma {:induction false} EveryoneLeaves(b: Book, a: Audit, order: seq<nat>)
    requires Inv(b, a) && b.vault0 < Q64 && b.vault1 < Q64
    requires forall k :: 0 <= k < |order| ==> order[k] < |b.positions| && b.positions[order[k]].open
    requires forall k, m :: 0 <= k < m < |order| ==> order[k] != order[m]
    ensures Succeed(b, ExitOps(b, order))
    ensures Received(b, Play(b, ExitOps(b, order)), DuesOf(b, a, order, true), DuesOf(b, a, order, false))
    decreases |order|
  {
    if order != [] {
      var i := order[0];
      var n := Play(b, LeaveOps(b, i));
      var a' := OneLeaves(b, a, i);
      SameExit(b, n, order[1..], i);
      SameDues(b, a, n, a', order[1..], i, true);
      SameDues(b, a, n, a', order[1..], i, false);
      EveryoneLeaves(n, a', order[1..]);
      SucceedConcat(b, LeaveOps(b, i), ExitOps(n, order[1..]));
      PlayConcat(b, LeaveOps(b, i), ExitOps(n, order[1..]));
    }
  }
}
