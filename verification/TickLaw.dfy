/** One tick is a factor of sqrt(1.0001): what the table of ratios is, and how closely the
    computed prices follow it from every tick to the next. */
module TickLaw {
  import opened Numbers
  import opened TickMath

  // ---- the table ----

  const BASE: nat := 18447666387855959850

  /** The first entry is sqrt(1.0001) in Q64.64, rounded down. */
  lemma RatioBase()
    ensures SqrtRatio(0) == BASE
    ensures BASE * BASE * 10000 <= 10001 * TWO_128 < (BASE + 1) * (BASE + 1) * 10000
  {
  }

  /** Every other entry is the square of the one before it, rounded down. */
  lemma RatioSquares(bit: nat)
    requires bit < 19
    ensures SqrtRatio(bit + 1) == SqrtRatio(bit) * SqrtRatio(bit) / Q64
  {
  }

  // ---- a carry multiplies by the first ratio ----

  /** `r'` is `r` times `base` in Q64.64, up to `slack` parts in 2^64. */
  predicate Near(base: nat, r: nat, r': nat, slack: nat) {
    r * (base - slack) <= r' * Q64 <= r * (base + slack)
  }

  /** A table in which every carry multiplies by `base`; `ones` is the witness. */
  ghost predicate Steady(ratios: seq<nat>, ones: seq<nat>, base: nat) {
    && |ratios| <= 20 && |ones| == |ratios| + 1 && ones[0] == Q64
    && forall bit :: 0 <= bit < |ratios| ==> SteadyAt(ratios, ones, base, bit)
  }

  ghost predicate SteadyAt(ratios: seq<nat>, ones: seq<nat>, base: nat, bit: nat)
    requires |ones| == |ratios| + 1 && bit < |ratios|
  {
    && Q64 <= ratios[bit] && Q64 <= ones[bit]
    && ones[bit + 1] == ones[bit] * ratios[bit] / Q64
    && Near(base, ones[bit], ratios[bit], 3)
  }

  /** Where the carry happens, the next ratio against all lower ones together. */
  lemma RatioIsSteady(bit: nat)
    requires bit < 20
    ensures Q64 <= SqrtRatio(bit) && Q64 <= OnesAt(bit)
    ensures OnesAt(bit + 1) == OnesAt(bit) * SqrtRatio(bit) / Q64
    ensures Near(BASE, OnesAt(bit), SqrtRatio(bit), 3)
  {
  }

  lemma RatiosAreSteady() returns (ones: seq<nat>)
    ensures Steady(SqrtRatios(), ones, BASE)
  {
    ones := seq(21, bit requires 0 <= bit < 21 => OnesAt(bit));
    forall bit: nat | bit < 20 ensures SteadyAt(SqrtRatios(), ones, BASE, bit) {
      RatioIsSteady(bit);
    }
  }

  /** One more shared factor costs two parts. */
  lemma NearStep(base: nat, r: nat, r': nat, ratio: nat, slack: nat)
    requires Q64 <= ratio && Q64 <= r && slack <= 1000 <= base <= 2 * Q64 - 2000 && Near(base, r, r', slack)
    ensures Q64 <= r * ratio / Q64 && Near(base, r * ratio / Q64, r' * ratio / Q64, slack + 2)
  {
    var low, high := base - slack, base + slack;
    var q, q' := DivFloor(r * ratio, Q64), DivFloor(r' * ratio, Q64);
    MulMono(Q64, r, ratio);
    FloorIsLargest(r * ratio, Q64, Q64);
    NearAbove(r, r', ratio, high, q, q');
    NearBelow(r, r', ratio, low, q, q');
    assert (q + 1) * high == q * high + high && q * (high + 2) == q * high + 2 * q;
    assert q * (low - 2) == q * low - 2 * q;
  }

  lemma NearAbove(r: nat, r': nat, ratio: nat, high: nat, q: nat, q': nat)
    requires r' * Q64 <= r * high && r * ratio < q * Q64 + Q64 && q' * Q64 <= r' * ratio
    ensures q' * Q64 <= (q + 1) * high
  {
    MulMono(r' * Q64, r * high, ratio);
    MulMono(r * ratio, (q + 1) * Q64, high);
    assert r * high * ratio == r * ratio * high;
    assert (q + 1) * Q64 * high == (q + 1) * high * Q64;
    assert r' * Q64 * ratio == r' * ratio * Q64;
  }

  lemma NearBelow(r: nat, r': nat, ratio: nat, low: nat, q: nat, q': nat)
    requires r * low <= r' * Q64 && q * Q64 <= r * ratio && r' * ratio < q' * Q64 + Q64
    ensures q * low <= (q' + 1) * Q64
  {
    MulMono(r * low, r' * Q64, ratio);
    MulMono(q * Q64, r * ratio, low);
    assert r * low * ratio == r * ratio * low;
    assert q * Q64 * low == q * low * Q64;
    assert r' * Q64 * ratio == r' * ratio * Q64;
  }

  /** The factors that both ticks share. */
  lemma {:induction false} NearFold(ratios: seq<nat>, base: nat, a: nat, bit: nat, r: nat, r': nat, slack: nat)
    requires bit <= |ratios| <= 20 && (forall k :: 0 <= k < |ratios| ==> Q64 <= ratios[k])
    requires Q64 <= r && 1000 <= base <= 2 * Q64 - 2000 && Near(base, r, r', slack)
    requires slack + 2 * (|ratios| - bit) <= 43
    ensures Near(base, Fold(ratios, a, bit, r), Fold(ratios, a, bit, r'), 43)
    decreases |ratios| - bit
  {
    if bit == |ratios| {
      NearMore(base, r, r', slack);
    } else if a % 2 == 1 {
      NearStep(base, r, r', ratios[bit], slack);
      NearFold(ratios, base, a / 2, bit + 1, r * ratios[bit] / Q64, r' * ratios[bit] / Q64, slack + 2);
    } else {
      NearFold(ratios, base, a / 2, bit + 1, r, r', slack);
    }
  }

  lemma NearMore(base: nat, r: nat, r': nat, slack: nat)
    requires Near(base, r, r', slack) && slack <= 43
    ensures Near(base, r, r', 43)
  {
    MulMonoLeft(r, base + slack, base + 43);
    MulMonoLeft(r, base - 43, base - slack);
  }

  /** Adding one clears a run of set bits and sets the next one. */
  lemma {:induction false} CarryNear(ratios: seq<nat>, ones: seq<nat>, base: nat, a: nat, bit: nat)
    requires Steady(ratios, ones, base) && 1000 <= base <= 2 * Q64 - 2000
    requires bit <= |ratios| && a + 1 < Pow2(|ratios| - bit)
    ensures Near(base, Fold(ratios, a, bit, ones[bit]), Fold(ratios, a + 1, bit, Q64), 43)
    decreases |ratios| - bit
  {
    assert bit < |ratios| ==> SteadyAt(ratios, ones, base, bit);
    if a % 2 == 0 {
      assert (a + 1) / 2 == a / 2;
      forall k | 0 <= k < |ratios| ensures Q64 <= ratios[k] {
        assert SteadyAt(ratios, ones, base, k);
      }
      NearFold(ratios, base, a / 2, bit + 1, ones[bit], ratios[bit], 3);
    } else {
      assert (a + 1) / 2 == a / 2 + 1;
      CarryNear(ratios, ones, base, a / 2, bit + 1);
    }
  }

  lemma FoldIsNear(a: nat)
    requires a < MAX_TICK
    ensures Near(BASE, Fold(SqrtRatios(), a, 0, Q64), Fold(SqrtRatios(), a + 1, 0, Q64), 43)
  {
    var ones := RatiosAreSteady();
    TwoToTwenty();
    CarryNear(SqrtRatios(), ones, BASE, a, 0);
  }

  lemma PositiveIsNear(a: nat)
    requires a < MAX_TICK
    ensures Near(BASE, Positive(a), Positive(a + 1), 43)
  {
    FoldIsNear(a);
    PositiveIsFold(a);
    PositiveIsFold(a + 1);
  }

  // ---- one tick of the price ----

  /** Inverting keeps the factor, up to the floors of the two inverses. */
  lemma InverseIsNear(p: pos, p': pos)
    requires Near(BASE, p, p', 43)
    ensures var n, n' := TWO_128 / p, TWO_128 / p';
      n' * (BASE - 43) - Q64 < n * Q64 < (n' + 1) * (BASE + 43)
  {
    var n, n' := DivFloor(TWO_128, p), DivFloor(TWO_128, p');
    InverseAbove(p, p', n, n');
    InverseBelow(p, p', n, n');
  }

  lemma InverseAbove(p: pos, p': pos, n: nat, n': nat)
    requires p' * Q64 <= p * (BASE + 43) && n * p <= TWO_128 < n' * p' + p'
    ensures n * Q64 < (n' + 1) * (BASE + 43)
  {
    var high := BASE + 43;
    MulMono(p' * Q64, p * high, n' + 1);
    assert n * Q64 * p == n * p * Q64;
    assert p' * Q64 * (n' + 1) == (n' * p' + p') * Q64;
    assert p * high * (n' + 1) == (n' + 1) * high * p;
    if n * Q64 >= (n' + 1) * high {
      MulMono((n' + 1) * high, n * Q64, p);
    }
  }

  lemma InverseBelow(p: pos, p': pos, n: nat, n': nat)
    requires p * (BASE - 43) <= p' * Q64 && n' * p' <= TWO_128 < n * p + p
    ensures n' * (BASE - 43) < (n + 1) * Q64
  {
    var low := BASE - 43;
    MulMono(p * low, p' * Q64, n');
    assert p * low * n' == n' * low * p;
    assert p' * Q64 * n' == n' * p' * Q64;
    assert (n * p + p) * Q64 == (n + 1) * Q64 * p;
    if n' * low >= (n + 1) * Q64 {
      MulMono((n + 1) * Q64, n' * low, p);
    }
  }

  /** From every tick to the next the price is multiplied by the first ratio: within 43 parts
      in 2^64 at and above zero, and below it also within the floors of the inversion. */
  lemma PriceRatio(t: int)
    requires MIN_TICK <= t < MAX_TICK
    ensures var x, y := PriceAt(t), PriceAt(t + 1);
      && (0 <= t ==> x * (BASE - 43) <= y * Q64 <= x * (BASE + 43))
      && (t < 0 ==> x * (BASE - 43) - Q64 < y * Q64 < (x + 1) * (BASE + 43))
  {
    PriceIsRaw(t);
    PriceIsRaw(t + 1);
    if 0 <= t {
      PositiveIsNear(t);
    } else {
      PositiveIsNear(-t - 1);
      PositiveAtLeastOne(-t - 1);
      PositiveAtLeastOne(-t);
      InverseIsNear(Positive(-t - 1), Positive(-t));
      if t == -1 {
        PositiveAtZero();
      }
    }
  }

  /** Squaring the two bounds leaves the square of the base, which is 1.0001. */
  lemma Squares(low: nat, y: nat, high: nat)
    requires low * (BASE - 43) <= y * Q64 <= high * (BASE + 43)
    ensures 10001 * (low * low) * 0x1ff_ffff_ffff_ffff <= 10000 * (y * y) * 0x200_0000_0000_0000
    ensures 10000 * (y * y) * 0x200_0000_0000_0000 <= 10001 * (high * high) * 0x200_0000_0000_0001
  {
    SquareMono(low, BASE - 43, y, Q64);
    SquareMono(y, Q64, high, BASE + 43);
    assert (BASE - 43) * (BASE - 43) * 10000 * 0x200_0000_0000_0000 >= 10001 * TWO_128 * 0x1ff_ffff_ffff_ffff;
    assert (BASE + 43) * (BASE + 43) * 10000 * 0x200_0000_0000_0000 <= 10001 * TWO_128 * 0x200_0000_0000_0001;
  }

  lemma SquareMono(a: nat, b: nat, c: nat, d: nat)
    requires a * b <= c * d
    ensures (a * a) * (b * b) <= (c * c) * (d * d)
  {
    MulMono(a * b, c * d, a * b);
    MulMonoLeft(c * d, a * b, c * d);
    assert (a * b) * (a * b) == (a * a) * (b * b);
    assert (c * d) * (c * d) == (c * c) * (d * d);
  }

  /** One tick is a factor of 1.0001 of the price, which is the square: 10000 * y^2 and
      10001 * x^2 agree to one part in 2^57, up to one unit of x below tick zero, where the
      inversion rounds. */
  lemma OneTickIsOneBasisPoint(t: int)
    requires MIN_TICK <= t < MAX_TICK
    ensures var x, y, d := PriceAt(t), PriceAt(t + 1), if t < 0 then 1 else 0;
      && 10001 * ((x - d) * (x - d)) * 0x1ff_ffff_ffff_ffff <= 10000 * (y * y) * 0x200_0000_0000_0000
      && 10000 * (y * y) * 0x200_0000_0000_0000 <= 10001 * ((x + d) * (x + d)) * 0x200_0000_0000_0001
  {
    var x, y, d := PriceAt(t), PriceAt(t + 1), if t < 0 then 1 else 0;
    PriceInBand(t);
    PriceRatio(t);
    Squares(x - d, y, x + d);
  }
}
