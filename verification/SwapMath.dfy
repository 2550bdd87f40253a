/** Token-amount deltas of a liquidity range and the single swap step within one
    range (clmm/src/curve/liquidity_math.rs, clmm/src/curve/swap_math.rs). */
module SwapMath {
  import opened Numbers

  // ---- amounts over a price range ----

  /** Token 0 between two prices: L * 2^64 * (hi - lo) / (lo * hi). */
  function Amount0(a: pos, b: pos, liquidity: nat, roundUp: bool): nat {
    var lo, hi := Min(a, b), Max(a, b);
    if liquidity == 0 || hi == lo then 0
    else if roundUp then DivCeil(liquidity * Q64 * (hi - lo), lo * hi)
    else DivFloor(liquidity * Q64 * (hi - lo), lo * hi)
  }

  /** Token 1 between two prices: L * (hi - lo) / 2^64. */
  function Amount1(a: nat, b: nat, liquidity: nat, roundUp: bool): nat {
    var lo, hi := Min(a, b), Max(a, b);
    if liquidity == 0 || hi == lo then 0
    else if roundUp then DivCeil(liquidity * (hi - lo), Q64)
    else DivFloor(liquidity * (hi - lo), Q64)
  }

  /** Rounding up costs at most one unit more than rounding down. */
  lemma RoundingGap(a: pos, b: pos, liquidity: nat)
    ensures 0 <= Amount0(a, b, liquidity, true) - Amount0(a, b, liquidity, false) <= 1
    ensures 0 <= Amount1(a, b, liquidity, true) - Amount1(a, b, liquidity, false) <= 1
  {
    var lo, hi := Min(a, b), Max(a, b);
    if liquidity > 0 && lo < hi {
      CeilAboveFloor(liquidity * Q64 * (hi - lo), lo * hi);
      CeilAboveFloor(liquidity * (hi - lo), Q64);
    }
  }

  lemma CeilAboveFloor(num: nat, den: pos)
    ensures DivFloor(num, den) <= DivCeil(num, den) <= DivFloor(num, den) + 1
  {
    var f, c := DivFloor(num, den), DivCeil(num, den);
    CeilIsSmallest(num, den, f + 1);
    FloorIsLargest(num, den, c - 1);
    assert f > c ==> f * den >= (c + 1) * den;
  }

  /** Signed liquidity applied to a total, checked. */
  function AddDelta(liquidity: u128, delta: i128): Result<u128> {
    if liquidity + delta < 0 then Err(MathOverflow) else ToU128(liquidity + delta)
  }

  // ---- next price ----

  /** Price after token 0 comes in, rounded up. */
  function NextFrom0In(price: pos, liquidity: pos, amount: nat): nat {
    if amount == 0 then price
    else DivCeil(liquidity * Q64 * price, liquidity * Q64 + amount * price)
  }

  /** Price after token 1 comes in, rounded down. */
  function NextFrom1In(price: pos, liquidity: pos, amount: nat): nat {
    if amount == 0 then price else price + DivFloor(amount * Q64, liquidity)
  }

  /** Token 0 in, short of the target: the price stays strictly above the target and the
      rounded-up charge for the move fits the amount. */
  lemma FallStays(price: pos, target: pos, liquidity: pos, amount: nat)
    requires target <= price && amount < Amount0(target, price, liquidity, true)
    ensures target < NextFrom0In(price, liquidity, amount) <= price
    ensures Amount0(NextFrom0In(price, liquidity, amount), price, liquidity, true) <= amount
  {
    var l := liquidity * Q64;
    BelowCeil(l * (price - target), target * price, amount);
    if amount > 0 {
      FallNext(price, target, l, amount, DivCeil(l * price, l + amount * price));
    }
  }

  lemma FallNext(price: pos, target: pos, l: pos, amount: pos, n: nat)
    requires target <= price && amount * (target * price) < l * (price - target)
    requires n == DivCeil(l * price, l + amount * price)
    ensures target < n <= price
    ensures n < price ==> DivCeil(l * (price - n), n * price) <= amount
  {
    var den := l + amount * price;
    TargetBelow(price, target, l, amount);
    PriceAbove(price, l, amount);
    CeilIsSmallest(l * price, den, price);
    MulStrict(target, n, den);
    ChargeBelow(price, l, amount, n);
  }

  lemma TargetBelow(price: pos, target: pos, l: pos, amount: pos)
    requires amount * (target * price) < l * (price - target)
    ensures target * (l + amount * price) < l * price
  {
    assert target * (l + amount * price) == target * l + amount * (target * price);
    assert l * (price - target) == l * price - target * l;
  }

  lemma PriceAbove(price: pos, l: pos, amount: pos)
    ensures l * price <= price * (l + amount * price)
  {
    assert price * (l + amount * price) == l * price + amount * (price * price);
  }

  lemma MulStrict(a: int, b: int, c: pos)
    requires a * c < b * c
    ensures a < b
  {
    if b <= a {
      MulMono(b, a, c);
    }
  }

  lemma ChargeBelow(price: pos, l: pos, amount: pos, n: pos)
    requires l * price <= n * (l + amount * price)
    ensures n < price ==> DivCeil(l * (price - n), n * price) <= amount
  {
    assert n * (l + amount * price) == n * l + amount * (n * price);
    assert l * (price - n) <= amount * (n * price);
    if n < price {
      CeilIsSmallest(l * (price - n), n * price, amount);
    }
  }

  /** Token 1 in, short of the target. */
  lemma RiseStays(price: pos, target: pos, liquidity: pos, amount: nat)
    requires price <= target && amount < Amount1(price, target, liquidity, true)
    ensures price <= NextFrom1In(price, liquidity, amount) < target
    ensures Amount1(price, NextFrom1In(price, liquidity, amount), liquidity, true) <= amount
  {
    BelowCeil(liquidity * (target - price), Q64, amount);
    if amount > 0 {
      RiseNext(target - price, liquidity, amount, DivFloor(amount * Q64, liquidity));
    }
  }

  lemma RiseNext(move: pos, liquidity: pos, amount: pos, d: nat)
    requires amount * Q64 < liquidity * move && d * liquidity <= amount * Q64
    ensures d < move && DivCeil(liquidity * d, Q64) <= amount
  {
    Commutes(liquidity, d);
    Commutes(liquidity, move);
    MulStrict(d, move, liquidity);
    CeilIsSmallest(liquidity * d, Q64, amount);
  }

  // ---- the step ----

  datatype SwapStep = SwapStep(next: nat, amountIn: nat, amountOut: nat, fee: nat)

  function LessFee(remaining: nat, feePips: nat): nat
    requires feePips < FEE_DENOM
  {
    DivFloor(remaining * (FEE_DENOM - feePips), FEE_DENOM)
  }

  /** Exact-in step from `price` toward `target`, as unbounded arithmetic; the direction
      is read off the two prices. */
  function RawStep(price: pos, target: pos, liquidity: pos, remaining: nat, feePips: nat): SwapStep
    requires feePips < FEE_DENOM
  {
    var down := price >= target;
    var available := LessFee(remaining, feePips);
    var toTarget := if down then Amount0(target, price, liquidity, true) else Amount1(price, target, liquidity, true);
    var reached := available >= toTarget;
    var next :=
      if reached then target
      else if down then NextFrom0In(price, liquidity, available)
      else NextFrom1In(price, liquidity, available);
    var amountIn :=
      if reached then toTarget
      else if down then (FallStays(price, target, liquidity, available); Amount0(next, price, liquidity, true))
      else Amount1(price, next, liquidity, true);
    var amountOut :=
      if down then Amount1(next, price, liquidity, false)
      else if reached then Amount0(price, next, liquidity, false)
      else (RiseStays(price, target, liquidity, available); Amount0(price, next, liquidity, false));
    var fee :=
      if reached then DivCeil(amountIn * feePips, FEE_DENOM - feePips)
      else (ShortfallFits(price, target, liquidity, remaining, feePips); remaining - amountIn);
    SwapStep(next, amountIn, amountOut, fee)
  }

  lemma ShortfallFits(price: pos, target: pos, liquidity: pos, remaining: nat, feePips: nat)
    requires feePips < FEE_DENOM
    ensures LessFee(remaining, feePips) <= remaining
    ensures price >= target && LessFee(remaining, feePips) < Amount0(target, price, liquidity, true) ==>
      var n := NextFrom0In(price, liquidity, LessFee(remaining, feePips));
      target < n <= price && Amount0(n, price, liquidity, true) <= LessFee(remaining, feePips)
    ensures price < target && LessFee(remaining, feePips) < Amount1(price, target, liquidity, true) ==>
      var n := NextFrom1In(price, liquidity, LessFee(remaining, feePips));
      price <= n < target && Amount1(price, n, liquidity, true) <= LessFee(remaining, feePips)
  {
    var a := LessFee(remaining, feePips);
    assert remaining * (FEE_DENOM - feePips) <= remaining * FEE_DENOM;
    if price >= target && a < Amount0(target, price, liquidity, true) {
      FallStays(price, target, liquidity, a);
    }
    if price < target && a < Amount1(price, target, liquidity, true) {
      RiseStays(price, target, liquidity, a);
    }
  }

  /** A fully charged step: the pro-rata fee on top of the input fits what was offered. */
  lemma ChargeFits(amountIn: nat, remaining: nat, feePips: nat)
    requires feePips < FEE_DENOM && amountIn <= LessFee(remaining, feePips)
    ensures amountIn + DivCeil(amountIn * feePips, FEE_DENOM - feePips) <= remaining
  {
    var k := FEE_DENOM - feePips;
    assert amountIn * FEE_DENOM <= remaining * k;
    assert amountIn * feePips == amountIn * FEE_DENOM - amountIn * k;
    CeilIsSmallest(amountIn * feePips, k, remaining - amountIn);
  }

  function ToTarget(price: pos, target: pos, liquidity: pos): nat {
    if price >= target then Amount0(target, price, liquidity, true) else Amount1(price, target, liquidity, true)
  }

  /** `compute_swap_step`: the unbounded step, with the places where `u128` can overflow. */
  function ComputeSwapStep(price: pos, target: pos, liquidity: pos, remaining: u128,
        feePips: nat): (r: Result<SwapStep>)
  {
    if feePips >= FEE_DENOM then Err(MathOverflow)
    else if ToTarget(price, target, liquidity) >= TWO_128 then Err(MathOverflow)
    else
      var s := RawStep(price, target, liquidity, remaining, feePips);
      if s.amountOut >= TWO_128 then Err(MathOverflow) else Ok(s)
  }

  // ---- exact values: what one unit of liquidity is worth at a price ----

  ghost predicate IsValue0(p: pos, v: real) {
    forall t :: Unfold(t) && t == p ==> v * p as real == -(Q64 as real)
  }

  /** Minus 2^64 / p: between two prices, liquidity L holds L * (V0(hi) - V0(lo)) of token 0. */
  ghost function V0(p: pos): (v: real) {
    var w := -(Q64 as real) / p as real;
    assert IsValue0(p, w);
    var v :| IsValue0(p, v);
    v
  }

  /** p / 2^64: between two prices, liquidity L holds L * (V1(hi) - V1(lo)) of token 1. */
  ghost function V1(p: pos): (v: real) {
    assert IsValue1(p, p as real / Q64 as real);
    var v :| IsValue1(p, v);
    v
  }

  ghost predicate IsValue1(p: pos, v: real) {
    forall t :: Unfold(t) && t == p ==> v == p as real / Q64 as real
  }

  lemma V1Is(p: pos)
    ensures V1(p) == p as real / Q64 as real
  {
    assert Unfold(p);
    assert IsValue1(p, V1(p));
  }

  lemma V1Increases(a: pos, b: pos)
    ensures a <= b <==> V1(a) <= V1(b)
  {
    V1Is(a);
    V1Is(b);
  }

  /** Rounding against an exact quotient. */
  lemma RoundsAround(num: nat, den: pos, x: real)
    requires x * den as real == num as real
    ensures x - 1.0 < DivFloor(num, den) as real <= x <= DivCeil(num, den) as real < x + 1.0
  {
    var f: int, c: int := DivFloor(num, den), DivCeil(num, den);
    ScaleStep(f, den);
    ScaleStep(c - 1, den);
    QuotientBetween(num, den, f, f + 1, x);
    QuotientBetween(num, den, c - 1, c, x);
  }

  lemma V0Times(p: pos)
    ensures V0(p) * p as real == -(Q64 as real)
  {
    assert Unfold(p);
    var v := V0(p);
    assert IsValue0(p, v);
  }

  lemma V0Increases(a: pos, b: pos)
    requires a <= b
    ensures V0(a) <= V0(b) && (a < b ==> V0(a) < V0(b))
  {
    V0Times(a);
    V0Times(b);
    var x, y, v, w := a as real, b as real, V0(a), V0(b);
    assert v < 0.0;
    assert v * y <= v * x == w * y;
    RealOrder(v, w, y);
    if a < b {
      assert v * y < v * x;
    }
  }

  lemma Amount0Rounds(lo: pos, hi: pos, liquidity: nat)
    requires lo <= hi
    ensures var x := Times(liquidity, V0(hi) - V0(lo));
      x - 1.0 < Amount0(lo, hi, liquidity, false) as real <= x <= Amount0(lo, hi, liquidity, true) as real < x + 1.0
  {
    TimesIs(liquidity, V0(hi) - V0(lo));
    if liquidity > 0 && lo < hi {
      V0Times(lo);
      V0Times(hi);
      Amount0Exact(lo as real, hi as real, V0(lo), V0(hi), liquidity as real);
      RoundsAround(liquidity * Q64 * (hi - lo), lo * hi, liquidity as real * (V0(hi) - V0(lo)));
    }
  }

  lemma Amount0Exact(a: real, b: real, va: real, vb: real, l: real)
    requires va * a == -(Q64 as real) && vb * b == -(Q64 as real)
    ensures (l * (vb - va)) * (a * b) == l * Q64 as real * (b - a)
  {
    calc {
      (l * (vb - va)) * (a * b);
      l * ((vb * b) * a - (va * a) * b);
      l * (-(Q64 as real) * a + Q64 as real * b);
      l * Q64 as real * (b - a);
    }
  }

  lemma Amount1Rounds(lo: pos, hi: pos, liquidity: nat)
    requires lo <= hi
    ensures var x := Times(liquidity, V1(hi) - V1(lo));
      x - 1.0 < Amount1(lo, hi, liquidity, false) as real <= x <= Amount1(lo, hi, liquidity, true) as real < x + 1.0
  {
    TimesIs(liquidity, V1(hi) - V1(lo));
    if liquidity > 0 && lo < hi {
      V1Is(lo);
      V1Is(hi);
      var x := liquidity as real * (V1(hi) - V1(lo));
      assert (liquidity * (hi - lo)) as real == liquidity as real * (hi - lo) as real;
      assert V1(hi) - V1(lo) == (hi - lo) as real / Q64 as real;
      RoundsAround(liquidity * (hi - lo), Q64, x);
    }
  }

  // ---- what every caller may rely on in a step ----

  ghost predicate IsStep(price: pos, target: pos, liquidity: pos, remaining: u128, feePips: nat, r: Result<SwapStep>) {
    forall t :: Unfold(t) && t == price ==> r == ComputeSwapStep(price, target, liquidity, remaining, feePips)
  }

  /** `ComputeSwapStep`, behind a guard: the walk over many ticks uses `StepFacts` only. */
  ghost function Step(price: pos, target: pos, liquidity: pos, remaining: u128, feePips: nat): (r: Result<SwapStep>) {
    assert IsStep(price, target, liquidity, remaining, feePips,
        ComputeSwapStep(price, target, liquidity, remaining, feePips));
    var r :| IsStep(price, target, liquidity, remaining, feePips, r);
    r
  }

  lemma StepIsComputed(price: pos, target: pos, liquidity: pos, remaining: u128, feePips: nat)
    ensures Step(price, target, liquidity, remaining, feePips)
        == ComputeSwapStep(price, target, liquidity, remaining, feePips)
  {
    assert Unfold(price);
    assert IsStep(price, target, liquidity, remaining, feePips, Step(price, target, liquidity, remaining, feePips));
  }

  ghost predicate IsProduct(l: int, u: real, r: real) {
    forall t :: Unfold(t) && t == l ==> r == l as real * u
  }

  /** Liquidity times a value per unit, behind the guard. */
  ghost function Times(l: int, u: real): (r: real) {
    assert IsProduct(l, u, l as real * u);
    var r :| IsProduct(l, u, r);
    r
  }

  lemma TimesIs(l: int, u: real)
    ensures Times(l, u) == l as real * u
  {
    assert Unfold(l);
    assert IsProduct(l, u, Times(l, u));
  }

  lemma TimesAdd(l: int, m: int, u: real)
    ensures Times(l + m, u) == Times(l, u) + Times(m, u)
  {
    TimesIs(l, u);
    TimesIs(m, u);
    TimesIs(l + m, u);
  }

  lemma TimesSub(l: int, u: real, v: real)
    ensures Times(l, u - v) == Times(l, u) - Times(l, v)
    ensures Times(l, 0.0) == 0.0 && Times(0, u) == 0.0
  {
    TimesIs(l, u);
    TimesIs(l, v);
    TimesIs(l, u - v);
    TimesIs(l, 0.0);
    TimesIs(0, u);
  }

  lemma TimesMono(l: nat, u: real, v: real)
    requires u <= v
    ensures Times(l, u) <= Times(l, v)
  {
    TimesIs(l, u);
    TimesIs(l, v);
    ScaleOrder(l, u, v);
  }

  lemma ScaleOrder(l: nat, u: real, v: real)
    requires u <= v
    ensures l as real * u <= l as real * v
  {
  }

  /** Token in of a move of `liquidity` from `price` to `next`, exactly. */
  ghost function ExactIn(down: bool, price: pos, next: pos, liquidity: nat): real {
    if down then Times(liquidity, V0(price) - V0(next)) else Times(liquidity, V1(next) - V1(price))
  }

  ghost function ExactOut(down: bool, price: pos, next: pos, liquidity: nat): real {
    if down then Times(liquidity, V1(price) - V1(next)) else Times(liquidity, V0(next) - V0(price))
  }

  /** The price rests between where it was and the target, on the way there. */
  predicate Toward(down: bool, price: nat, next: nat, target: nat) {
    if down then target <= next <= price else price <= next <= target
  }

  /** Never more than was offered, and all of it when the target is not reached; and both
      amounts are the exact ones rounded in the pool's favour, less than one unit away. */
  ghost predicate StepFacts(down: bool, price: pos, target: pos, liquidity: pos, remaining: nat, s: SwapStep) {
    && 0 < s.next
    && Toward(down, price, s.next, target)
    && s.amountIn + s.fee <= remaining
    && (s.next != target ==> s.amountIn + s.fee == remaining)
    && RoundedUp(s.amountIn, ExactIn(down, price, s.next, liquidity))
    && RoundedDown(s.amountOut, ExactOut(down, price, s.next, liquidity))
  }

  predicate RoundedUp(a: int, exact: real) {
    exact <= a as real < exact + 1.0
  }

  predicate RoundedDown(a: int, exact: real) {
    exact - 1.0 < a as real <= exact
  }

  /** The fee against the input: at least the pool's rate of everything the trader pays; for a
      step that reaches its target the rate on top of the input and less than one unit more;
      and the input leaves room for the rate of everything offered. */
  predicate FeeFacts(target: nat, remaining: nat, feePips: nat, s: SwapStep)
    requires feePips < FEE_DENOM
  {
    && feePips * (s.amountIn + s.fee) <= 1_000_000 * s.fee
    && (s.next == target ==>
          s.amountIn * feePips <= s.fee * (1_000_000 - feePips) < s.amountIn * feePips + (1_000_000 - feePips))
    && 1_000_000 * s.amountIn <= remaining * (1_000_000 - feePips)
  }

  /** What the step charges and pays are the roundings for the move it makes. */
  lemma RawStepMoves(down: bool, price: pos, target: pos, liquidity: pos, remaining: nat, feePips: nat)
    requires feePips < FEE_DENOM
    requires if down then target <= price else price <= target
    ensures var s := RawStep(price, target, liquidity, remaining, feePips);
      && 0 < s.next
      && Toward(down, price, s.next, target)
      && (if down
          then
            && s.amountIn == Amount0(s.next, price, liquidity, true)
            && s.amountOut == Amount1(s.next, price, liquidity, false)
          else
            && s.amountIn == Amount1(price, s.next, liquidity, true)
            && s.amountOut == Amount0(price, s.next, liquidity, false))
  {
    ShortfallFits(price, target, liquidity, remaining, feePips);
  }

  lemma RawStepCharges(price: pos, target: pos, liquidity: pos, remaining: nat, feePips: nat)
    requires feePips < FEE_DENOM
    ensures var s := RawStep(price, target, liquidity, remaining, feePips);
      && s.amountIn + s.fee <= remaining
      && (s.next != target ==> s.amountIn + s.fee == remaining)
  {
    var toTarget := ToTarget(price, target, liquidity);
    if toTarget <= LessFee(remaining, feePips) {
      ChargeFits(toTarget, remaining, feePips);
    } else {
      ShortfallFits(price, target, liquidity, remaining, feePips);
    }
  }

  /** Any price below the next one costs more token 0 than the amount. */
  lemma FallFurthest(price: pos, liquidity: pos, amount: nat, n: pos)
    requires n < NextFrom0In(price, liquidity, amount) && n < price
    ensures amount < Amount0(n, price, liquidity, true)
  {
    var l := liquidity * Q64;
    if amount == 0 {
      PositiveMove(l, price - n, n * price);
    } else {
      BelowCeil(l * price, l + amount * price, n);
      CostsMore(price, l, amount, n);
    }
  }

  lemma PositiveMove(l: pos, move: pos, den: pos)
    ensures 0 < DivCeil(l * move, den)
  {
    MulMono(1, l, move);
  }

  lemma CostsMore(price: pos, l: pos, amount: nat, n: pos)
    requires n < price && n * (l + amount * price) < l * price
    ensures amount < DivCeil(l * (price - n), n * price)
  {
    assert n * (l + amount * price) == l * n + amount * (n * price);
    assert l * (price - n) == l * price - l * n;
    MulStrict(amount, DivCeil(l * (price - n), n * price), n * price);
  }

  /** Any price above the next one costs more token 1 than the amount. */
  lemma RiseFurthest(price: pos, liquidity: pos, amount: nat, n: pos)
    requires NextFrom1In(price, liquidity, amount) < n && price < n
    ensures amount < Amount1(price, n, liquidity, true)
  {
    var move: pos := n - price;
    if amount == 0 {
      PositiveMove(liquidity, move, Q64);
    } else {
      if liquidity * move <= amount * Q64 {
        FloorIsLargest(amount * Q64, liquidity, move);
      }
      MulStrict(amount, DivCeil(liquidity * move, Q64), Q64);
    }
  }

  /** The after-fee amount covers a cost exactly when its rational value does. */
  lemma AfterFee(remaining: nat, feePips: nat, cost: nat)
    requires feePips < FEE_DENOM
    ensures cost <= LessFee(remaining, feePips) <==> FEE_DENOM * cost <= remaining * (FEE_DENOM - feePips)
  {
    if FEE_DENOM * cost <= remaining * (FEE_DENOM - feePips) {
      FloorIsLargest(remaining * (FEE_DENOM - feePips), FEE_DENOM, cost);
    }
  }

  /** A step goes as far as the offer less its fee pays for: every price strictly further
      toward the target costs more. */
  lemma StepGoesFurthest(price: pos, target: pos, liquidity: pos, remaining: nat, feePips: nat, n: pos)
    requires feePips < FEE_DENOM
    requires var next := RawStep(price, target, liquidity, remaining, feePips).next;
      if target <= price then target <= n < next else next < n <= target
    ensures remaining * (1_000_000 - feePips) < 1_000_000 * ToTarget(price, n, liquidity)
  {
    var available := LessFee(remaining, feePips);
    ShortfallFits(price, target, liquidity, remaining, feePips);
    if target <= price {
      RawStepMoves(true, price, target, liquidity, remaining, feePips);
      FallFurthest(price, liquidity, available, n);
    } else {
      RawStepMoves(false, price, target, liquidity, remaining, feePips);
      RiseFurthest(price, liquidity, available, n);
    }
    AfterFee(remaining, feePips, ToTarget(price, n, liquidity));
  }

  /** The offer less its fee pays for no move at all: not even for the next lower price. */
  predicate TooSmall(price: pos, liquidity: pos, remaining: nat, feePips: nat)
    requires feePips < FEE_DENOM
  {
    1 < price && remaining * (FEE_DENOM - feePips) < FEE_DENOM * DivCeil(liquidity * Q64, (price - 1) * price)
  }

  /** A falling step leaves the price where it is exactly when its amount is too small. */
  lemma FallStalls(price: pos, target: pos, liquidity: pos, remaining: nat, feePips: nat)
    requires feePips < FEE_DENOM && target < price
    ensures RawStep(price, target, liquidity, remaining, feePips).next == price
        <==> TooSmall(price, liquidity, remaining, feePips)
  {
    var available, below: pos := LessFee(remaining, feePips), price - 1;
    var cost := Amount0(below, price, liquidity, true);
    assert cost == DivCeil(liquidity * Q64, below * price);
    AfterFee(remaining, feePips, cost);
    if TooSmall(price, liquidity, remaining, feePips) {
      CostsTooMuch(price, target, liquidity, available);
      FallStays(price, below, liquidity, available);
    }
    if RawStep(price, target, liquidity, remaining, feePips).next == price {
      FallFurthest(price, liquidity, available, below);
    }
  }

  /** What does not pay for the next lower price does not pay for any lower one. */
  lemma CostsTooMuch(price: pos, target: pos, liquidity: pos, amount: nat)
    requires target < price && amount < Amount0(price - 1, price, liquidity, true)
    ensures amount < Amount0(target, price, liquidity, true)
  {
    var l, den, below := liquidity * Q64, target * price, price - 1;
    assert l * (price - below) == l;
    BelowCeil(l, below * price, amount);
    MulMono(target, below, price);
    MulMonoLeft(amount, den, below * price);
    MulMonoLeft(l, 1, price - target);
    MulStrict(amount, DivCeil(l * (price - target), den), den);
  }

  /** What every step charges as its fee. */
  lemma FeeAtRate(price: pos, target: pos, liquidity: pos, remaining: nat, feePips: nat)
    requires feePips < FEE_DENOM
    ensures FeeFacts(target, remaining, feePips, RawStep(price, target, liquidity, remaining, feePips))
  {
    var s := RawStep(price, target, liquidity, remaining, feePips);
    var available := LessFee(remaining, feePips);
    ShortfallFits(price, target, liquidity, remaining, feePips);
    if ToTarget(price, target, liquidity) <= available {
      FullChargeAtRate(s.amountIn, feePips);
    } else {
      RestAtRate(s.amountIn, remaining, feePips);
    }
    AfterFee(remaining, feePips, s.amountIn);
  }

  lemma FullChargeAtRate(amountIn: nat, feePips: nat)
    requires feePips < FEE_DENOM
    ensures var fee := DivCeil(amountIn * feePips, FEE_DENOM - feePips);
      feePips * (amountIn + fee) <= FEE_DENOM * fee
  {
    var fee := DivCeil(amountIn * feePips, FEE_DENOM - feePips);
    assert feePips * (amountIn + fee) == amountIn * feePips + feePips * fee;
    assert fee * (FEE_DENOM - feePips) == FEE_DENOM * fee - feePips * fee;
  }

  lemma RestAtRate(amountIn: nat, remaining: nat, feePips: nat)
    requires feePips < FEE_DENOM && amountIn <= LessFee(remaining, feePips) && amountIn <= remaining
    ensures feePips * remaining <= FEE_DENOM * (remaining - amountIn)
  {
    assert remaining * (FEE_DENOM - feePips) == FEE_DENOM * remaining - feePips * remaining;
  }

  lemma RawStepFacts(down: bool, price: pos, target: pos, liquidity: pos, remaining: nat, feePips: nat)
    requires feePips < FEE_DENOM
    requires if down then target <= price else price <= target
    ensures StepFacts(down, price, target, liquidity, remaining, RawStep(price, target, liquidity, remaining, feePips))
    ensures FeeFacts(target, remaining, feePips, RawStep(price, target, liquidity, remaining, feePips))
  {
    FeeAtRate(price, target, liquidity, remaining, feePips);
    RawStepMoves(down, price, target, liquidity, remaining, feePips);
    RawStepCharges(price, target, liquidity, remaining, feePips);
    var s := RawStep(price, target, liquidity, remaining, feePips);
    MoveIn(down, price, s.next, liquidity, s.amountIn);
    MoveOut(down, price, s.next, liquidity, s.amountOut);
  }

  /** The charge is the exact amount in rounded up, the payment the exact amount out rounded down. */
  lemma MoveIn(down: bool, price: pos, next: pos, liquidity: pos, amountIn: nat)
    requires if down then next <= price else price <= next
    requires amountIn == if down then Amount0(next, price, liquidity, true) else Amount1(price, next, liquidity, true)
    ensures RoundedUp(amountIn, ExactIn(down, price, next, liquidity))
  {
    if down {
      Amount0Rounds(next, price, liquidity);
    } else {
      Amount1Rounds(price, next, liquidity);
    }
  }

  lemma MoveOut(down: bool, price: pos, next: pos, liquidity: pos, amountOut: nat)
    requires if down then next <= price else price <= next
    requires amountOut
      == if down then Amount1(next, price, liquidity, false) else Amount0(price, next, liquidity, false)
    ensures RoundedDown(amountOut, ExactOut(down, price, next, liquidity))
  {
    if down {
      Amount1Rounds(next, price, liquidity);
    } else {
      Amount0Rounds(price, next, liquidity);
    }
  }

  lemma StepIsFair(down: bool, price: pos, target: pos, liquidity: pos, remaining: u128, feePips: nat)
    requires if down then target <= price else price <= target
    requires Step(price, target, liquidity, remaining, feePips).Ok?
    ensures StepFacts(down, price, target, liquidity, remaining,
        Step(price, target, liquidity, remaining, feePips).value)
  {
    StepIsComputed(price, target, liquidity, remaining, feePips);
    RawStepFacts(down, price, target, liquidity, remaining, feePips);
  }

  lemma StepFee(price: pos, target: pos, liquidity: pos, remaining: u128, feePips: nat)
    requires Step(price, target, liquidity, remaining, feePips).Ok?
    ensures feePips < FEE_DENOM
    ensures FeeFacts(target, remaining, feePips, Step(price, target, liquidity, remaining, feePips).value)
  {
    StepIsComputed(price, target, liquidity, remaining, feePips);
    FeeAtRate(price, target, liquidity, remaining, feePips);
  }

  /** Selling a step's output straight back never moves the price past its start and never
      returns more than was paid, for every liquidity, price, amount and pair of fee rates. */
  lemma StepRoundTrip(down: bool, price: pos, target: pos, back: pos, liquidity: pos, remaining: nat, s: SwapStep,
        b: SwapStep)
    requires StepFacts(down, price, target, liquidity, remaining, s)
    requires if down then s.next <= back else back <= s.next
    requires StepFacts(!down, s.next, back, liquidity, s.amountOut, b)
    ensures Toward(!down, s.next, b.next, price)
    ensures b.amountOut <= s.amountIn
  {
    if down {
      ThereAndBack(liquidity, V0(price), V0(s.next), V0(b.next), V1(price), V1(s.next), V1(b.next),
                   s.amountIn as real, s.amountOut as real, b.amountIn as real, b.amountOut as real);
      V1Increases(b.next, price);
      V0Increases(b.next, price);
    } else {
      ThereAndBack(liquidity, -V1(price), -V1(s.next), -V1(b.next), -V0(price), -V0(s.next), -V0(b.next),
                   s.amountIn as real, s.amountOut as real, b.amountIn as real, b.amountOut as real);
      V1Increases(price, b.next);
      if b.next < price {
        V0Increases(b.next, price);
      }
    }
  }

  /** The two legs on exact values: `x` is the token paid first, `y` the token paid back;
      subscripts name the start, the turning point and the end. */
  lemma ThereAndBack(l: pos, xStart: real, xTurn: real, xEnd: real, yStart: real, yTurn: real, yEnd: real, paid: real,
        got: real, paidBack: real, gotBack: real)
    requires Times(l, xStart - xTurn) <= paid && got <= Times(l, yStart - yTurn)
    requires Times(l, yEnd - yTurn) <= paidBack <= got && gotBack <= Times(l, xEnd - xTurn)
    ensures yEnd <= yStart
    ensures xEnd <= xStart ==> gotBack <= paid
  {
    TimesIs(l, yEnd - yTurn);
    TimesIs(l, yStart - yTurn);
    RealOrder(yEnd - yTurn, yStart - yTurn, l as real);
    if xEnd <= xStart {
      TimesMono(l, xEnd - xTurn, xStart - xTurn);
    }
  }
}
