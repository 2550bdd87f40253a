/** How much a unit of liquidity is worth at least: token amounts bound liquidity, so vaults
    of 64 bits keep every 128-bit liquidity sum far from its limits. */
module Density {
  import opened Numbers
  import opened TickMath
  import opened Ticks
  import opened Ledger
  import opened Principal
  import opened SwapMath

  /** What four ticks of range hold at least, per unit of liquidity. */
  const LEAST: real := 4.0 / (Q64 as real)

  lemma V1Gap(a: pos, b: pos)
    ensures V1(b) - V1(a) == (b - a) as real / Q64 as real
  {
    V1Is(a);
    V1Is(b);
  }

  /** At prices up to one, token 0 moves at least as fast as token 1. */
  lemma V0GapLow(a: pos, b: pos)
    requires a <= b <= Q64
    ensures (b - a) as real / Q64 as real <= V0(b) - V0(a)
  {
    V0Times(a);
    V0Times(b);
    GapTimes(a as real, b as real, V0(a), V0(b));
    LowRatio(a as real * b as real, V0(b) - V0(a), (b - a) as real, a as real, b as real);
  }

  lemma PositiveProduct(a: real, b: real)
    requires 0.0 < a && 0.0 < b
    ensures 0.0 < a * b
  {
  }

  lemma LowRatio(ab: real, d: real, move: real, a: real, b: real)
    requires 0.0 < a <= Q64 as real && 0.0 < b <= Q64 as real && ab == a * b && 0.0 <= move
    requires d * ab == Q64 as real * move
    ensures move / Q64 as real <= d
  {
    var q := Q64 as real;
    PositiveProduct(a, b);
    MulMonoReal(a, q, b);
    MulMonoReal(b, q, q);
    assert b * q == q * b;
    assert 0.0 < ab;
    assert ab <= q * b;
    assert q * b <= q * q;
    var x := move / q;
    assert x * q == move;
    MulMonoReal(ab, q * q, x);
    assert (q * q) * x == q * move;
    assert ab * x == x * ab;
    RealOrder(x, d, ab);
  }

  lemma GapTimes(a: real, b: real, va: real, vb: real)
    requires va * a == -(Q64 as real) && vb * b == -(Q64 as real)
    ensures (vb - va) * (a * b) == Q64 as real * (b - a)
  {
    calc {
      (vb - va) * (a * b);
      (vb * b) * a - (va * a) * b;
      -(Q64 as real) * a + Q64 as real * b;
      Q64 as real * (b - a);
    }
  }

  /** One tick above price one is worth far more than `LEAST` in token 0. */
  lemma V0GapHigh(a: pos, b: pos)
    requires Q64 <= a <= b <= MAX_SQRT_PRICE && a <= 0x10000 * (b - a)
    ensures LEAST <= V0(b) - V0(a)
  {
    V0Times(a);
    V0Times(b);
    GapTimes(a as real, b as real, V0(a), V0(b));
    var ab := a as real * b as real;
    assert 0.0 < ab;
    assert 4 * b * 0x10000 <= Q64 * Q64;
    HighProduct(a, b);
    assert LEAST * ab * Q64 as real == 4.0 * ab;
    assert (a * b) as real == ab;
    RealOrder(LEAST * ab, Q64 as real * (b - a) as real, Q64 as real);
    RealOrder(LEAST, V0(b) - V0(a), ab);
  }

  lemma HighProduct(a: pos, b: pos)
    requires a <= 0x10000 * (b - a) && 4 * b * 0x10000 <= Q64 * Q64
    ensures 4 * (a * b) <= Q64 * Q64 * (b - a)
  {
    assert a * (4 * b) <= 0x10000 * (b - a) * (4 * b) by {
      MulMono(a, 0x10000 * (b - a), 4 * b);
    }
    assert (4 * b * 0x10000) * (b - a) <= (Q64 * Q64) * (b - a) by {
      MulMono(4 * b * 0x10000, Q64 * Q64, b - a);
    }
  }

  lemma FourSteps(t: int)
    requires MIN_TICK <= t && t + 4 <= MAX_TICK
    ensures PriceAt(t) + 4 <= PriceAt(t + 4)
  {
    PriceStep(t);
    PriceStep(t + 1);
    PriceStep(t + 2);
    PriceStep(t + 3);
  }

  lemma StepAbove(t: int)
    requires 0 <= t < MAX_TICK
    ensures Q64 <= PriceAt(t) < PriceAt(t + 1) <= MAX_SQRT_PRICE &&
        PriceAt(t) <= 0x10000 * (PriceAt(t + 1) - PriceAt(t))
  {
    PriceIsRaw(t);
    PriceIsRaw(t + 1);
    PositiveAtLeastOne(t);
    PositiveStep(t);
    PriceStep(t);
    PriceInBand(t + 1);
  }

  /** Four ticks at or below zero. */
  lemma LowUnit(s: int, x: pos)
    requires MIN_TICK <= s && s + 4 <= 0 && PriceAt(s) <= x <= PriceAt(s + 4)
    ensures 0 < PriceAt(s) && LEAST <= (V0(PriceAt(s + 4)) - V0(x)) + (V1(x) - V1(PriceAt(s)))
  {
    PriceInBand(s);
    BandEnds();
    PriceMono(s + 4, 0);
    FourSteps(s);
    V0GapLow(x, PriceAt(s + 4));
    V1Gap(PriceAt(s), x);
  }

  /** Four ticks at or above zero. */
  lemma HighUnit(s: int, x: pos)
    requires 0 <= s && s + 4 <= MAX_TICK && PriceAt(s) <= x <= PriceAt(s + 4)
    ensures 0 < PriceAt(s) && LEAST <= (V0(PriceAt(s + 4)) - V0(x)) + (V1(x) - V1(PriceAt(s)))
  {
    StepAbove(s);
    StepAbove(s + 1);
    PriceMono(s + 2, s + 4);
    V0Increases(x, PriceAt(s + 4));
    V1Gap(PriceAt(s), x);
    if x <= PriceAt(s + 1) {
      V0GapHigh(PriceAt(s + 1), PriceAt(s + 2));
      V0Increases(x, PriceAt(s + 1));
      V0Increases(PriceAt(s + 2), PriceAt(s + 4));
    }
  }

  /** A wider range holds at least what a narrower one does. */
  lemma UnitAtLeast(p: PositionData, s: int, price: pos)
    requires MIN_TICK <= p.lower <= s && s + 4 <= p.upper <= MAX_TICK && (s + 4 <= 0 || 0 <= s)
    ensures LEAST <= Unit0(p, price) + Unit1(p, price)
  {
    PriceMono(p.lower, s);
    PriceMono(s, s + 4);
    PriceMono(s + 4, p.upper);
    PriceInBand(p.lower);
    var x := Within(p, price);
    var (lo, hi, a, b) := (PriceAt(p.lower), PriceAt(p.upper), PriceAt(s), PriceAt(s + 4));
    var y := if x < a then a else if b < x then b else x;
    if s + 4 <= 0 {
      LowUnit(s, y);
    } else {
      HighUnit(s, y);
    }
    V0Increases(b, hi);
    V1Increases(lo, a);
    if x <= y {
      V0Increases(x, y);
    } else {
      V1Increases(y, x);
    }
    V0Increases(x, hi);
    V1Increases(lo, x);
  }

  lemma UnitIsDense(p: PositionData, feePips: nat, spacing: pos, price: pos)
    requires Sound(p, spacing) && IsTier(feePips, spacing)
    ensures LEAST <= Unit0(p, price) + Unit1(p, price)
  {
    AlignedApart(p.lower, p.upper, spacing);
    UnitAtLeast(p,
          if p.lower >= 0 || p.upper <= 0 || p.lower + 4 <= 0 then p.lower else 0, price);
  }
}
