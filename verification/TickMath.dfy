/** Tick <-> sqrt-price conversion in Q64.64 (clmm/src/curve/tick_math.rs and its
    TypeScript mirror). */
module TickMath {
  import opened Numbers

  const MIN_TICK: int := -443636
  const MAX_TICK: int := 443636
  const MIN_SQRT_PRICE: int := 4295048016
  const MAX_SQRT_PRICE: int := 79226673515399013880257568879

  /** The table sqrt(1.0001)^(2^bit) in Q64.64, one entry per bit of |tick|. */
  function SqrtRatio(bit: nat): nat
    requires bit < 20
  {
    if bit == 0 then 18447666387855959850
    else if bit == 1 then 18448588748116922569
    else if bit == 2 then 18450433606991734259
    else if bit == 3 then 18454123878217468671
    else if bit == 4 then 18461506635090006683
    else if bit == 5 then 18476281010653910107
    else if bit == 6 then 18505865242158249966
    else if bit == 7 then 18565175891880433370
    else if bit == 8 then 18684368066214940275
    else if bit == 9 then 18925053041275764047
    else if bit == 10 then 19415764168677885645
    else if bit == 11 then 20435687552633174797
    else if bit == 12 then 22639080592224297029
    else if bit == 13 then 27784196929998385068
    else if bit == 14 then 41848122137994941923
    else if bit == 15 then 94936283578220170147
    else if bit == 16 then 488590176327620415397
    else if bit == 17 then 12941056668319120408908
    else if bit == 18 then 9078618265828695359366874
    else 4468068147272989105925714484762
  }

  function SqrtRatios(): (s: seq<nat>)
    ensures |s| == 20 && forall bit :: 0 <= bit < 20 ==> s[bit] == SqrtRatio(bit)
  {
    seq(20, bit requires 0 <= bit < 20 => SqrtRatio(bit))
  }

  /** What the accumulator holds after the `bit` lowest bits when all are set;
      `RatiosAreGapped` proves it and the gap each entry leaves below the next ratio. */
  function OnesAt(bit: nat): nat
    requires bit <= 20
  {
    if bit == 0 then 18446744073709551616
    else if bit == 1 then 18447666387855959850
    else if bit == 2 then 18449511154494745443
    else if bit == 3 then 18453201241220755932
    else if bit == 4 then 18460583628983133348
    else if bit == 5 then 18475357265883657868
    else if bit == 6 then 18504940018287354134
    else if bit == 7 then 18564247702699447832
    else if bit == 8 then 18683433917872171421
    else if bit == 9 then 18924106859586735601
    else if bit == 10 then 19414793453272500487
    else if bit == 11 then 20434665844882985866
    else if bit == 12 then 22637948723084163940
    else if bit == 13 then 27782807824333941833
    else if bit == 14 then 41846029888805423797
    else if bit == 15 then 94931537120022657559
    else if bit == 16 then 488565748650864524508
    else if bit == 17 then 12940409664010623232028
    else if bit == 18 then 9078164368957385600997730
    else if bit == 19 then 4467844760619484859378630831265
    else 1082176604289498513279657265596650037316032
  }

  /** Multiply the accumulator by the ratio of every set bit of `a`, from `bit` up. */
  function Fold(ratios: seq<nat>, a: nat, bit: nat, r: nat): (p: nat)
    requires bit <= |ratios|
    decreases |ratios| - bit
  {
    if bit == |ratios| then r
    else Fold(ratios, a / 2, bit + 1, if a % 2 == 1 then r * ratios[bit] / Q64 else r)
  }

  ghost predicate IsPositive(a: nat, p: nat) {
    forall t :: Unfold(t) && t == a ==> p == Fold(SqrtRatios(), a, 0, Q64)
  }

  /** Price of the positive side, `|tick| = a`: the fold over the bits of `a`. It stands
      behind a guard, because most proofs need the order of prices, not the table. */
  ghost function Positive(a: nat): (p: nat) {
    assert IsPositive(a, Fold(SqrtRatios(), a, 0, Q64));
    var p :| IsPositive(a, p);
    p
  }

  lemma PositiveIsFold(a: nat)
    ensures Positive(a) == Fold(SqrtRatios(), a, 0, Q64)
  {
    assert Unfold(a);
  }

  // ---- monotonicity of the positive side: carry induction over the ratios ----

  /** Relative gap carried by two accumulators with `left` bits still to come:
      at least one part in 2^16, plus slack for the remaining floors. */
  predicate Gap(r: int, r': int, left: nat) {
    0x10000 * (r' - r) >= r + left * 0x10000
  }

  /** A ratio table that a carry never inverts; `ones` is the witness. */
  ghost predicate Gapped(ratios: seq<nat>, ones: seq<nat>) {
    && |ones| == |ratios| + 1
    && ones[0] == Q64
    && forall bit :: 0 <= bit < |ratios| ==> GappedAt(ratios, ones, bit)
  }

  ghost predicate GappedAt(ratios: seq<nat>, ones: seq<nat>, bit: nat)
    requires |ones| == |ratios| + 1 && bit < |ratios|
  {
    && Q64 <= ratios[bit]
    && ones[bit + 1] == ones[bit] * ratios[bit] / Q64
    && Gap(ones[bit], ratios[bit], |ratios| - 1 - bit)
  }

  lemma RatioIsGapped(bit: nat)
    requires bit < 20
    ensures Q64 <= SqrtRatio(bit)
    ensures OnesAt(bit + 1) == OnesAt(bit) * SqrtRatio(bit) / Q64
    ensures Gap(OnesAt(bit), SqrtRatio(bit), 19 - bit)
  {
  }

  lemma RatiosAreGapped() returns (ones: seq<nat>)
    ensures Gapped(SqrtRatios(), ones)
  {
    ones := seq(21, bit requires 0 <= bit < 21 => OnesAt(bit));
    forall bit: nat | bit < 20 ensures GappedAt(SqrtRatios(), ones, bit) {
      RatioIsGapped(bit);
    }
  }

  /** One more shared factor keeps the gap, spending one unit of slack. */
  lemma GapStep(r: nat, r': nat, ratio: nat, left: pos)
    requires Q64 <= ratio && Gap(r, r', left)
    ensures Gap(r * ratio / Q64, r' * ratio / Q64, left - 1)
  {
    var q, q' := r * ratio / Q64, r' * ratio / Q64;
    assert q * Q64 <= r * ratio && r' * ratio < q' * Q64 + Q64;
    assert 0x10000 * (r' - r) * ratio >= (r + left * 0x10000) * ratio;
    assert left * 0x10000 * ratio >= left * 0x10000 * Q64;
  }

  /** Equal remaining bits keep the gap to the end. */
  lemma {:induction false} GapFold(ratios: seq<nat>, a: nat, bit: nat, r: nat, r': nat)
    requires bit <= |ratios| && Gap(r, r', |ratios| - bit)
    requires forall k :: 0 <= k < |ratios| ==> Q64 <= ratios[k]
    ensures Gap(Fold(ratios, a, bit, r), Fold(ratios, a, bit, r'), 0)
    decreases |ratios| - bit
  {
    if bit < |ratios| {
      if a % 2 == 1 {
        GapStep(r, r', ratios[bit], |ratios| - bit);
        GapFold(ratios, a / 2, bit + 1, r * ratios[bit] / Q64, r' * ratios[bit] / Q64);
      } else {
        GapFold(ratios, a / 2, bit + 1, r, r');
      }
    }
  }

  function Pow2(n: nat): (p: pos) {
    if n == 0 then 1 else 2 * Pow2(n - 1)
  }

  lemma TwoToTwenty()
    ensures Pow2(20) == 0x100000
  {
    assert Pow2(5) == 32;
    assert Pow2(10) == 32 * Pow2(5);
    assert Pow2(15) == 32 * Pow2(10);
    assert Pow2(20) == 32 * Pow2(15);
  }

  /** Adding one to `a` clears a run of set bits and sets the next one. */
  lemma {:induction false} Carry(ratios: seq<nat>, ones: seq<nat>, a: nat, bit: nat)
    requires Gapped(ratios, ones)
    requires bit <= |ratios| && a + 1 < Pow2(|ratios| - bit)
    ensures Gap(Fold(ratios, a, bit, ones[bit]), Fold(ratios, a + 1, bit, Q64), 0)
    decreases |ratios| - bit
  {
    assert bit < |ratios| ==> GappedAt(ratios, ones, bit);
    if a % 2 == 0 {
      assert (a + 1) / 2 == a / 2;
      forall k | 0 <= k < |ratios| ensures Q64 <= ratios[k] {
        assert GappedAt(ratios, ones, k);
      }
      GapFold(ratios, a / 2, bit + 1, ones[bit], ratios[bit]);
    } else {
      assert (a + 1) / 2 == a / 2 + 1;
      Carry(ratios, ones, a / 2, bit + 1);
    }
  }

  lemma {:induction false} FoldOfZero(ratios: seq<nat>, bit: nat, r: nat)
    requires bit <= |ratios|
    ensures Fold(ratios, 0, bit, r) == r
    decreases |ratios| - bit
  {
    if bit < |ratios| {
      FoldOfZero(ratios, bit + 1, r);
    }
  }

  lemma FoldStep(a: nat)
    requires a < MAX_TICK
    ensures Gap(Fold(SqrtRatios(), a, 0, Q64), Fold(SqrtRatios(), a + 1, 0, Q64), 0)
  {
    var ones := RatiosAreGapped();
    TwoToTwenty();
    Carry(SqrtRatios(), ones, a, 0);
  }

  lemma PositiveStep(a: nat)
    requires a < MAX_TICK
    ensures 0x10000 * (Positive(a + 1) - Positive(a)) >= Positive(a)
  {
    FoldStep(a);
    PositiveIsFold(a);
    PositiveIsFold(a + 1);
  }

  lemma PositiveAtZero()
    ensures Positive(0) == Q64
  {
    PositiveIsFold(0);
    FoldOfZero(SqrtRatios(), 0, Q64);
  }

  lemma {:induction false} PositiveAtLeastOne(a: nat)
    requires a <= MAX_TICK
    ensures Q64 <= Positive(a)
  {
    if a == 0 {
      PositiveAtZero();
    } else {
      PositiveAtLeastOne(a - 1);
      PositiveStep(a - 1);
    }
  }

  lemma {:induction false} PositiveMono(a: nat, b: nat)
    requires a <= b <= MAX_TICK
    ensures Q64 <= Positive(a) <= Positive(b)
    decreases b
  {
    PositiveAtLeastOne(a);
    if a < b {
      PositiveMono(a, b - 1);
      PositiveStep(b - 1);
    }
  }

  /** One bit of the loop, on known values. */
  lemma FoldBit(a: nat, bit: nat, r: nat, half: nat, next: nat)
    requires bit < 20 && half == a / 2
    requires next == if a % 2 == 1 then r * SqrtRatio(bit) / Q64 else r
    ensures Fold(SqrtRatios(), a, bit, r) == Fold(SqrtRatios(), half, bit + 1, next)
  {
  }

  lemma TopPriceBits0()
    ensures Fold(SqrtRatios(), 443636, 0, 18446744073709551616) == Fold(SqrtRatios(), 27727, 4, 18450433606991734259)
  {
    FoldBit(443636, 0, 18446744073709551616, 221818, 18446744073709551616);
    FoldBit(221818, 1, 18446744073709551616, 110909, 18446744073709551616);
    FoldBit(110909, 2, 18446744073709551616, 55454, 18450433606991734259);
    FoldBit(55454, 3, 18450433606991734259, 27727, 18450433606991734259);
  }

  lemma TopPriceBits4()
    ensures Fold(SqrtRatios(), 27727, 4, 18450433606991734259) == Fold(SqrtRatios(), 1732, 8, 18673161368046415994)
  {
    FoldBit(27727, 4, 18450433606991734259, 13863, 18465199121032091030);
    FoldBit(13863, 5, 18465199121032091030, 6931, 18494765608208560557);
    TopPriceBits6();
  }

  lemma TopPriceBits6()
    ensures Fold(SqrtRatios(), 6931, 6, 18494765608208560557) == Fold(SqrtRatios(), 1732, 8, 18673161368046415994)
  {
    FoldBit(6931, 6, 18494765608208560557, 3465, 18554040683992826443);
    FoldBit(3465, 7, 18554040683992826443, 1732, 18673161368046415994);
  }

  lemma TopPriceBits8()
    ensures Fold(SqrtRatios(), 1732, 8, 18673161368046415994) == Fold(SqrtRatios(), 108, 12, 19654075318493206860)
  {
    FoldBit(1732, 8, 18673161368046415994, 866, 18673161368046415994);
    FoldBit(866, 9, 18673161368046415994, 433, 18673161368046415994);
    FoldBit(433, 10, 18673161368046415994, 216, 19654075318493206860);
    FoldBit(216, 11, 19654075318493206860, 108, 19654075318493206860);
  }

  lemma TopPriceBits12()
    ensures Fold(SqrtRatios(), 108, 12, 19654075318493206860) == Fold(SqrtRatios(), 6, 16, 229467599376468082977)
  {
    FoldBit(108, 12, 19654075318493206860, 54, 19654075318493206860);
    FoldBit(54, 13, 19654075318493206860, 27, 19654075318493206860);
    FoldBit(27, 14, 19654075318493206860, 13, 44587063231926627283);
    FoldBit(13, 15, 44587063231926627283, 6, 229467599376468082977);
  }

  lemma TopPriceBits16()
    ensures Fold(SqrtRatios(), 6, 16, 229467599376468082977) == Fold(SqrtRatios(), 0, 20, 79226673515399013880257568879)
  {
    FoldBit(6, 16, 229467599376468082977, 3, 229467599376468082977);
    FoldBit(3, 17, 229467599376468082977, 1, 160979801921047622431900);
    FoldBit(1, 18, 160979801921047622431900, 0, 79226673515399013880257568879);
    FoldBit(0, 19, 79226673515399013880257568879, 0, 79226673515399013880257568879);
  }

  lemma TopPrice()
    ensures Positive(MAX_TICK) == MAX_SQRT_PRICE
  {
    PositiveIsFold(MAX_TICK);
    TopPriceBits0();
    TopPriceBits4();
    TopPriceBits8();
    TopPriceBits12();
    TopPriceBits16();
  }

  // ---- the whole band ----

  /** The sqrt-price of a tick: bit-decomposition for |tick|, inverted below zero. */
  ghost function RawPrice(tick: int): (p: nat)
    requires MIN_TICK <= tick <= MAX_TICK
  {
    if tick < 0 then
      PositiveAtLeastOne(-tick);
      TWO_128 / Positive(-tick)
    else Positive(tick)
  }

  ghost predicate IsPrice(tick: int, p: nat)
    requires MIN_TICK <= tick <= MAX_TICK
  {
    forall t :: Unfold(t) && t == tick ==> p == RawPrice(tick)
  }

  /** `RawPrice`, behind the same guard. */
  ghost function PriceAt(tick: int): (p: nat)
    requires MIN_TICK <= tick <= MAX_TICK
  {
    assert IsPrice(tick, RawPrice(tick));
    var p :| IsPrice(tick, p);
    p
  }

  lemma PriceIsRaw(tick: int)
    requires MIN_TICK <= tick <= MAX_TICK
    ensures PriceAt(tick) == RawPrice(tick)
  {
    assert Unfold(tick);
  }

  lemma BandEnds()
    ensures MIN_TICK == -443636 && MIN_SQRT_PRICE == 4295048016
    ensures MAX_TICK == 443636 && MAX_SQRT_PRICE == 79226673515399013880257568879
    ensures PriceAt(MIN_TICK) == MIN_SQRT_PRICE
    ensures PriceAt(0) == Q64
    ensures PriceAt(MAX_TICK) == MAX_SQRT_PRICE
  {
    PriceIsRaw(MIN_TICK);
    PriceIsRaw(0);
    PriceIsRaw(MAX_TICK);
    TopPrice();
    PositiveAtZero();
  }

  /** Inverting keeps a gap of one part in 2^16 strict while prices stay below 2^112. */
  lemma InverseDecreases(p: nat, p': nat)
    requires Q64 <= p && p' <= MAX_SQRT_PRICE && Gap(p, p', 0)
    ensures TWO_128 / p' < TWO_128 / p
  {
    var q' := TWO_128 / p';
    assert q' * p' <= TWO_128;
    FloorIsLargest(TWO_128, p', 0x10000);
    assert q' * (p' - p) >= 0x10000 * (p' - p);
    FloorIsLargest(TWO_128, p, q' + 1);
  }

  /** The tick price is strictly increasing over the whole band. */
  lemma {:induction false} PriceMono(s: int, t: int)
    requires MIN_TICK <= s <= t <= MAX_TICK
    ensures s < t ==> PriceAt(s) < PriceAt(t)
    ensures s == t ==> PriceAt(s) == PriceAt(t)
    decreases t - s
  {
    if s < t {
      PriceStep(t - 1);
      PriceMono(s, t - 1);
    }
  }

  lemma PriceStep(t: int)
    requires MIN_TICK <= t < MAX_TICK
    ensures PriceAt(t) < PriceAt(t + 1)
  {
    PriceIsRaw(t);
    PriceIsRaw(t + 1);
    if t >= 0 {
      PositiveAtLeastOne(t);
      PositiveStep(t);
    } else {
      NegativeStep(-t);
    }
  }

  lemma NegativeStep(a: int)
    requires 0 < a <= MAX_TICK
    ensures RawPrice(-a) < RawPrice(1 - a)
  {
    TopPrice();
    PositiveMono(0, a - 1);
    PositiveMono(a, MAX_TICK);
    PositiveStep(a - 1);
    InverseDecreases(Positive(a - 1), Positive(a));
    if a == 1 {
      PositiveAtZero();
    }
  }

  lemma PriceInBand(t: int)
    requires MIN_TICK <= t <= MAX_TICK
    ensures MIN_SQRT_PRICE <= PriceAt(t) <= MAX_SQRT_PRICE
  {
    BandEnds();
    PriceMono(MIN_TICK, t);
    PriceMono(t, MAX_TICK);
  }

  /** `get_sqrt_price_at_tick`: the loop over the bits, with its range error and no overflow. */
  method GetSqrtPriceAtTick(tick: int) returns (r: Result<u128>)
    ensures MIN_TICK <= tick <= MAX_TICK ==> r == Ok(PriceAt(tick))
    ensures !(MIN_TICK <= tick <= MAX_TICK) ==> r == Err(TickOutOfBounds)
  {
    if !(MIN_TICK <= tick <= MAX_TICK) {
      return Err(TickOutOfBounds);
    }
    var abs := if tick < 0 then -tick else tick;
    PositiveAtLeastOne(abs);
    PositiveIsFold(abs);
    var table := SqrtRatios();
    var acc: int := Q64;
    var bits, bit := abs, 0;
    while bit < 20
      invariant 0 <= bit <= 20 && 0 <= bits && Q64 <= acc
      invariant Fold(table, bits, bit, acc) == Positive(abs)
    {
      if bits % 2 == 1 {
        RatioIsGapped(bit);
        ShiftGrows(acc, table[bit]);
        acc := acc * table[bit] / Q64;
      }
      bits, bit := bits / 2, bit + 1;
    }
    if tick < 0 {
      acc := TWO_128 / acc;
    }
    PriceInBand(tick);
    PriceIsRaw(tick);
    return Ok(acc);
  }

  lemma ShiftGrows(r: nat, ratio: nat)
    requires Q64 <= ratio
    ensures r <= r * ratio / Q64
  {
    assert r * Q64 <= r * ratio;
  }

  ghost predicate IsFloorTick(price: nat, t: int) {
    && MIN_TICK <= t <= MAX_TICK
    && PriceAt(t) <= price
    && (t == MAX_TICK || price < PriceAt(t + 1))
  }

  lemma {:induction false} FloorTickExists(price: nat, hi: int)
    requires MIN_TICK <= hi <= MAX_TICK && PriceAt(MIN_TICK) <= price
    requires hi == MAX_TICK || price < PriceAt(hi + 1)
    ensures exists t :: IsFloorTick(price, t)
    decreases hi - MIN_TICK
  {
    if PriceAt(hi) <= price {
      assert IsFloorTick(price, hi);
    } else {
      FloorTickExists(price, hi - 1);
    }
  }

  lemma FloorTickUnique(price: nat, s: int, t: int)
    requires IsFloorTick(price, s) && IsFloorTick(price, t)
    ensures s == t
  {
    if s < t {
      PriceMono(s + 1, t);
    } else if t < s {
      PriceMono(t + 1, s);
    }
  }

  /** Largest tick whose price does not exceed `price`; out of the band is an error. */
  ghost function TickAt(price: nat): (r: Result<int>)
    ensures r.Ok? <==> MIN_SQRT_PRICE <= price <= MAX_SQRT_PRICE
    ensures r.Ok? ==> IsFloorTick(price, r.value)
  {
    if MIN_SQRT_PRICE <= price <= MAX_SQRT_PRICE then
      BandEnds();
      FloorTickExists(price, MAX_TICK);
      var t :| IsFloorTick(price, t);
      Ok(t)
    else Err(SqrtPriceOutOfBounds)
  }

  /** `get_tick_at_sqrt_price`: the binary search finds it. */
  method GetTickAtSqrtPrice(price: u128) returns (r: Result<int>)
    ensures r == TickAt(price)
  {
    if !(MIN_SQRT_PRICE <= price <= MAX_SQRT_PRICE) {
      return Err(SqrtPriceOutOfBounds);
    }
    BandEnds();
    var lo, hi := MIN_TICK, MAX_TICK;
    while lo < hi
      invariant MIN_TICK <= lo <= hi <= MAX_TICK
      invariant PriceAt(lo) <= price && (hi == MAX_TICK || price < PriceAt(hi + 1))
    {
      var mid := lo + (hi - lo + 1) / 2;
      var p := GetSqrtPriceAtTick(mid);
      if p.value <= price {
        lo := mid;
      } else {
        hi := mid - 1;
      }
    }
    FloorTickUnique(price, lo, TickAt(price).value);
    return Ok(lo);
  }

  /** `TickAt` is the exact floor inverse of `PriceAt`: a Galois connection, both ways. */
  lemma TickAtIsFloorInverse(price: nat, t: int)
    requires MIN_SQRT_PRICE <= price <= MAX_SQRT_PRICE && MIN_TICK <= t <= MAX_TICK
    ensures t <= TickAt(price).value <==> PriceAt(t) <= price
  {
    var f := TickAt(price).value;
    if t <= f {
      PriceMono(t, f);
    } else {
      PriceMono(f + 1, t);
    }
  }

  /** Tick to price to tick is the identity, over the whole band. */
  lemma TickRoundTrip(t: int)
    requires MIN_TICK <= t <= MAX_TICK
    ensures TickAt(PriceAt(t)) == Ok(t)
  {
    PriceInBand(t);
    TickAtIsFloorInverse(PriceAt(t), t);
    var f := TickAt(PriceAt(t)).value;
    TickAtIsFloorInverse(PriceAt(t), f);
    if t < f {
      PriceMono(t, f);
    }
  }
}
