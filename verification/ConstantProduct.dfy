/** The constant-product quotes with fees (app/lib/quote.ts), on unbounded integers whose
    division truncates toward zero. Division by zero is an error. */
module ConstantProduct {
  import opened Numbers

  datatype Fees = Fees(tradeNum: nat, tradeDen: nat, ownerNum: nat, ownerDen: nat)

  const POOL_FEES: Fees := Fees(25, 10_000, 5, 10_000)

  datatype Option<T> = None | Some(value: T)

  datatype ExactInQuote = ExactInQuote(amountOut: int, tradeFee: int, ownerFee: int)

  datatype ExactOutQuote = ExactOutQuote(amountIn: int, tradeFee: int, ownerFee: int)

  function TruncDiv(a: int, b: int): int
    requires b != 0
  {
    var q := Abs(a) / Abs(b);
    if (a < 0) == (b < 0) then q else -q
  }

  function Abs(x: int): nat {
    if x < 0 then -x else x
  }

  function CeilDiv(a: int, b: int): Result<int> {
    if b == 0 then Err(MathOverflow) else Ok(TruncDiv(a + b - 1, b))
  }

  /** A nonzero rate on a nonzero amount costs at least one unit. */
  function CalcFee(amount: int, num: nat, den: nat): Result<int> {
    if num == 0 || amount == 0 then Ok(0)
    else if den == 0 then Err(MathOverflow)
    else
      var fee := TruncDiv(amount * num, den);
      Ok(if fee == 0 then 1 else fee)
  }

  function PreFeeAmount(post: int, num: nat, den: nat): Result<int> {
    if num == 0 || den == 0 then Ok(post)
    else if num == den || post == 0 then Ok(0)
    else CeilDiv(post * den, den - num)
  }

  /** Both rates as one fraction. */
  function Combined(f: Fees): (nat, nat) {
    if f.tradeNum == 0 || f.tradeDen == 0 then (f.ownerNum, f.ownerDen)
    else if f.ownerNum == 0 || f.ownerDen == 0 then (f.tradeNum, f.tradeDen)
    else (f.tradeNum * f.ownerDen + f.ownerNum * f.tradeDen, f.tradeDen * f.ownerDen)
  }

  function PreTradingFeeAmount(post: int, f: Fees): Result<int> {
    PreFeeAmount(post, Combined(f).0, Combined(f).1)
  }

  function QuoteExactIn(amountIn: int, reserveIn: nat, reserveOut: nat, f: Fees): Result<ExactInQuote> {
    var tradeFee :- CalcFee(amountIn, f.tradeNum, f.tradeDen);
    var ownerFee :- CalcFee(amountIn, f.ownerNum, f.ownerDen);
    var newSrc := reserveIn + (amountIn - tradeFee - ownerFee);
    var newDst :- CeilDiv(reserveIn * reserveOut, newSrc);
    Ok(ExactInQuote(reserveOut - newDst, tradeFee, ownerFee))
  }

  /** `Ok(None)` when the pool does not hold the amount. */
  function QuoteExactOut(amountOut: nat, reserveIn: nat, reserveOut: nat, f: Fees): Result<Option<ExactOutQuote>> {
    if amountOut >= reserveOut then Ok(None)
    else
      var newSrc :- CeilDiv(reserveIn * reserveOut, reserveOut - amountOut);
      var amountIn :- PreTradingFeeAmount(newSrc - reserveIn, f);
      var tradeFee :- CalcFee(amountIn, f.tradeNum, f.tradeDen);
      var ownerFee :- CalcFee(amountIn, f.ownerNum, f.ownerDen);
      Ok(Some(ExactOutQuote(amountIn, tradeFee, ownerFee)))
  }

  // ---- the invariant ----

  lemma CeilDivIs(a: nat, b: pos)
    ensures CeilDiv(a, b) == Ok(DivCeil(a, b))
  {
  }

  /** What reaches the curve of an input, after both fees. */
  function InLessFees(amountIn: int, f: Fees): Result<int> {
    var tradeFee :- CalcFee(amountIn, f.tradeNum, f.tradeDen);
    var ownerFee :- CalcFee(amountIn, f.ownerNum, f.ownerDen);
    Ok(amountIn - tradeFee - ownerFee)
  }

  /** The product of the reserves does not shrink. */
  predicate Keeps(reserveIn: nat, reserveOut: nat, moreIn: int, lessOut: int) {
    reserveIn * reserveOut <= (reserveIn + moreIn) * (reserveOut - lessOut)
  }

  /** With a positive new source reserve, exact-in never shrinks the product, and its output
      is the largest that does not: an output fits exactly when it is at most the quote. */
  lemma ExactInKeepsProduct(amountIn: int, reserveIn: nat, reserveOut: nat, f: Fees, out: int)
    requires InLessFees(amountIn, f).Ok? && 0 < reserveIn + InLessFees(amountIn, f).value
    ensures QuoteExactIn(amountIn, reserveIn, reserveOut, f).Ok?
    ensures Keeps(reserveIn, reserveOut, InLessFees(amountIn, f).value, out)
       <==> out <= QuoteExactIn(amountIn, reserveIn, reserveOut, f).value.amountOut
  {
    var newSrc: pos := reserveIn + InLessFees(amountIn, f).value;
    var k := reserveIn * reserveOut;
    CeilDivIs(k, newSrc);
    var dst := reserveOut - out;
    if k <= newSrc * dst {
      Commutes(newSrc, dst);
      CeilIsSmallest(k, newSrc, dst);
    }
    if DivCeil(k, newSrc) <= dst {
      MulMono(DivCeil(k, newSrc), dst, newSrc);
      Commutes(newSrc, dst);
    }
  }

  /** The pool-side input of an exact-out quote. */
  function PoolIn(amountOut: nat, reserveIn: nat, reserveOut: nat): int
    requires amountOut < reserveOut
  {
    DivCeil(reserveIn * reserveOut, reserveOut - amountOut) - reserveIn
  }

  /** It is the least input that pays for the output: an input fits exactly when it is at
      least that much. */
  lemma PoolInIsLeast(amountOut: nat, reserveIn: nat, reserveOut: nat, moreIn: int)
    requires amountOut < reserveOut
    ensures Keeps(reserveIn, reserveOut, moreIn, amountOut) <==> PoolIn(amountOut, reserveIn, reserveOut) <= moreIn
    ensures 0 <= PoolIn(amountOut, reserveIn, reserveOut)
  {
    var k, dst: pos := reserveIn * reserveOut, reserveOut - amountOut;
    if k <= (reserveIn + moreIn) * dst {
      CeilIsSmallest(k, dst, reserveIn + moreIn);
    }
    if DivCeil(k, dst) <= reserveIn + moreIn {
      MulMono(DivCeil(k, dst), reserveIn + moreIn, dst);
    }
    if DivCeil(k, dst) < reserveIn {
      MulMono(DivCeil(k, dst) + 1, reserveIn, dst);
      ProductGrows(reserveIn, dst, reserveOut);
    }
  }

  lemma ProductGrows(a: nat, b: nat, c: nat)
    requires b <= c
    ensures a * b <= a * c
  {
  }

  // ---- fees ----

  predicate ValidFees(f: Fees) {
    && (f.tradeNum == 0 || 0 < f.tradeDen) && (f.ownerNum == 0 || 0 < f.ownerDen)
    && (Combined(f).0 == 0 || Combined(f).0 < Combined(f).1)
  }

  function FloorFee(amount: nat, num: nat, den: nat): nat {
    if num == 0 || den == 0 then 0 else DivFloor(amount * num, den)
  }

  /** How many of the two fees are lifted from zero to one. */
  function Bumps(amount: nat, f: Fees): nat {
    (if 0 < amount && 0 < f.tradeNum && FloorFee(amount, f.tradeNum, f.tradeDen) == 0 then 1 else 0)
    + (if 0 < amount && 0 < f.ownerNum && FloorFee(amount, f.ownerNum, f.ownerDen) == 0 then 1 else 0)
  }

  lemma FeesAre(amount: nat, f: Fees)
    requires ValidFees(f)
    ensures InLessFees(amount, f)
         == Ok(amount - FloorFee(amount, f.tradeNum, f.tradeDen)
             - FloorFee(amount, f.ownerNum, f.ownerDen) - Bumps(amount, f))
  {
    if amount == 0 {
      ZeroFee(f.tradeNum, f.tradeDen);
      ZeroFee(f.ownerNum, f.ownerDen);
    }
  }

  lemma ZeroFee(num: nat, den: nat)
    ensures FloorFee(0, num, den) == 0
  {
  }

  /** The two floored fees together are at most the combined rate. */
  lemma FeesWithinRate(amount: nat, f: Fees)
    requires ValidFees(f)
    ensures var (num, den) := Combined(f);
      (FloorFee(amount, f.tradeNum, f.tradeDen) + FloorFee(amount, f.ownerNum, f.ownerDen)) * den <= amount * num
  {
    if 0 < f.tradeNum && 0 < f.ownerNum {
      TwoRates(amount, f.tradeNum, f.tradeDen, f.ownerNum, f.ownerDen,
               FloorFee(amount, f.tradeNum, f.tradeDen), FloorFee(amount, f.ownerNum, f.ownerDen));
    }
  }

  lemma TwoRates(amount: nat, tn: nat, td: pos, on: nat, od: pos, t: nat, o: nat)
    requires t * td <= amount * tn && o * od <= amount * on
    ensures (t + o) * (td * od) <= amount * (tn * od + on * td)
  {
    MulMono(t * td, amount * tn, od);
    MulMono(o * od, amount * on, td);
    assert (t + o) * (td * od) == (t * td) * od + (o * od) * td;
    assert amount * (tn * od + on * td) == (amount * tn) * od + (amount * on) * td;
  }

  /** Grossing up leaves room for both floored fees. */
  lemma GrossUpCovers(post: nat, f: Fees)
    requires ValidFees(f) && PreTradingFeeAmount(post, f).Ok?
    ensures var amount := PreTradingFeeAmount(post, f).value;
      0 <= amount && post <= amount - FloorFee(amount, f.tradeNum, f.tradeDen)
          - FloorFee(amount, f.ownerNum, f.ownerDen)
  {
    var (num, den) := Combined(f);
    if num > 0 && post > 0 {
      CeilDivIs(post * den, den - num);
    }
    var amount := PreTradingFeeAmount(post, f).value;
    FeesWithinRate(amount, f);
    if num > 0 {
      RoomForFees(post, amount, num, den, FloorFee(amount, f.tradeNum, f.tradeDen) + FloorFee(amount, f.ownerNum,
            f.ownerDen));
    }
  }

  lemma RoomForFees(post: nat, amount: nat, num: pos, den: pos, fees: nat)
    requires num < den && fees * den <= amount * num && (post * den <= amount * (den - num))
    ensures post <= amount - fees
  {
    assert (post + fees) * den == post * den + fees * den;
    assert amount * (den - num) + amount * num == amount * den;
    if amount < post + fees {
      MulMono(amount + 1, post + fees, den);
    }
  }

  // ---- the quotes, on their own results ----

  /** A fee is its rate of the amount rounded down, but at least one unit of a nonzero amount;
      no rate is no fee. */
  predicate IsFee(fee: int, amount: nat, num: nat, den: nat) {
    if num == 0 || amount == 0 then fee == 0
    else 0 < den && 1 <= fee && amount * num < (fee + 1) * den && (fee * den <= amount * num || fee == 1)
  }

  lemma FeeIs(amount: nat, num: nat, den: nat)
    requires num == 0 || 0 < den
    ensures CalcFee(amount, num, den).Ok? && IsFee(CalcFee(amount, num, den).value, amount, num, den)
  {
    if num > 0 && amount > 0 {
      var q := DivFloor(amount * num, den);
      assert TruncDiv(amount * num, den) == q;
      assert (q + 1) * den == q * den + den;
    }
  }

  /** Both fees of an exact-in quote, each at its own rate, and an output that is the largest the
      product allows for what is left of the input. */
  lemma ExactInIsBest(amountIn: nat, reserveIn: pos, reserveOut: nat, f: Fees, out: int)
    requires ValidFees(f)
    requires var q := QuoteExactIn(amountIn, reserveIn, reserveOut, f);
      q.Ok? && 0 < reserveIn + amountIn - q.value.tradeFee - q.value.ownerFee
    ensures var q := QuoteExactIn(amountIn, reserveIn, reserveOut, f).value;
      && IsFee(q.tradeFee, amountIn, f.tradeNum, f.tradeDen) && IsFee(q.ownerFee, amountIn, f.ownerNum, f.ownerDen)
      && (Keeps(reserveIn, reserveOut, amountIn - q.tradeFee - q.ownerFee, out) <==> out <= q.amountOut)
  {
    FeeIs(amountIn, f.tradeNum, f.tradeDen);
    FeeIs(amountIn, f.ownerNum, f.ownerDen);
    ExactInKeepsProduct(amountIn, reserveIn, reserveOut, f, out);
  }

  /** The two rates over a common denominator, a missing one as zero. */
  function Whole(f: Fees): nat {
    (if f.tradeNum == 0 || f.tradeDen == 0 then 1 else f.tradeDen)
    * (if f.ownerNum == 0 || f.ownerDen == 0 then 1 else f.ownerDen)
  }

  function Cut(f: Fees): nat {
    (if f.tradeNum == 0 || f.tradeDen == 0 then 0
     else f.tradeNum * if f.ownerNum == 0 || f.ownerDen == 0 then 1 else f.ownerDen)
    + (if f.ownerNum == 0 || f.ownerDen == 0 then 0
       else f.ownerNum * if f.tradeNum == 0 || f.tradeDen == 0 then 1 else f.tradeDen)
  }

  /** The least amount that leaves `post` after both rates. */
  predicate IsGrossUp(post: nat, amount: int, f: Fees) {
    0 <= amount && post * Whole(f) <= amount * (Whole(f) - Cut(f)) < post * Whole(f) + (Whole(f) - Cut(f))
  }

  lemma GrossUpIsLeast(post: nat, f: Fees)
    requires ValidFees(f)
    ensures PreTradingFeeAmount(post, f).Ok? && Cut(f) < Whole(f)
    ensures IsGrossUp(post, PreTradingFeeAmount(post, f).value, f)
  {
    var (num, den) := Combined(f);
    CombinedIs(f);
    if num > 0 && post > 0 {
      CeilDivIs(post * den, den - num);
    }
  }

  lemma CombinedIs(f: Fees)
    requires ValidFees(f)
    ensures var (num, den) := Combined(f);
      if num == 0 || den == 0 then Whole(f) == 1 && Cut(f) == 0
      else Whole(f) == den && Cut(f) == num && num < den
  {
  }

  /** The input of an exact-out quote is the least gross-up of the least input that pays for the
      output, with both fees at their own rates; there is no quote exactly when the pool does
      not hold more than the output. */
  lemma ExactOutIsLeast(amountOut: nat, reserveIn: pos, reserveOut: nat, f: Fees, poolIn: nat)
    requires ValidFees(f)
    ensures var q := QuoteExactOut(amountOut, reserveIn, reserveOut, f);
      && q.Ok? && (q.value.None? <==> reserveOut <= amountOut)
      && (q.value.Some? && Keeps(reserveIn, reserveOut, poolIn, amountOut)
          && (0 < poolIn ==> !Keeps(reserveIn, reserveOut, poolIn - 1, amountOut)) ==>
            && IsGrossUp(poolIn, q.value.value.amountIn, f)
            && IsFee(q.value.value.tradeFee, q.value.value.amountIn, f.tradeNum, f.tradeDen)
            && IsFee(q.value.value.ownerFee, q.value.value.amountIn, f.ownerNum, f.ownerDen))
  {
    if amountOut < reserveOut {
      var pool := PoolIn(amountOut, reserveIn, reserveOut);
      CeilDivIs(reserveIn * reserveOut, reserveOut - amountOut);
      PoolInIsLeast(amountOut, reserveIn, reserveOut, poolIn);
      PoolInIsLeast(amountOut, reserveIn, reserveOut, poolIn - 1);
      GrossUpIsLeast(pool, f);
      var amount := PreTradingFeeAmount(pool, f).value;
      FeeIs(amount, f.tradeNum, f.tradeDen);
      FeeIs(amount, f.ownerNum, f.ownerDen);
    }
  }

  // ---- there and back ----

  /** Exact-out then exact-in, exactly: the input quoted for an output buys at least that
      output if and only if the fees lifted to one unit fit in the rounding room. */
  lemma ExactOutThenIn(amountOut: nat, reserveIn: pos, reserveOut: nat, f: Fees)
    requires amountOut < reserveOut && ValidFees(f)
    ensures var q := QuoteExactOut(amountOut, reserveIn, reserveOut, f);
      && q.Ok? && q.value.Some? && 0 <= q.value.value.amountIn
      && var amount := q.value.value.amountIn;
      var room := amount - FloorFee(amount, f.tradeNum, f.tradeDen)
          - FloorFee(amount, f.ownerNum, f.ownerDen) - PoolIn(amountOut, reserveIn, reserveOut);
      && 0 <= room
      && (0 < reserveIn + InLessFees(amount, f).value ==>
            && QuoteExactIn(amount, reserveIn, reserveOut, f).Ok?
            && (amountOut <= QuoteExactIn(amount, reserveIn, reserveOut, f).value.amountOut <==>
                  Bumps(amount, f) <= room))
  {
    var pool := PoolIn(amountOut, reserveIn, reserveOut);
    CeilDivIs(reserveIn * reserveOut, reserveOut - amountOut);
    PoolInIsLeast(amountOut, reserveIn, reserveOut, 0);
    GrossUpCovers(pool, f);
    var amount := PreTradingFeeAmount(pool, f).value;
    FeesAre(amount, f);
    if 0 < reserveIn + InLessFees(amount, f).value {
      ExactInKeepsProduct(amount, reserveIn, reserveOut, f, amountOut);
      PoolInIsLeast(amountOut, reserveIn, reserveOut, InLessFees(amount, f).value);
    }
  }

  /** In particular whenever no fee is lifted. */
  lemma NoBumpRoundTrip(amountOut: nat, reserveIn: pos, reserveOut: nat, f: Fees)
    requires amountOut < reserveOut && ValidFees(f)
    ensures var q := QuoteExactOut(amountOut, reserveIn, reserveOut, f);
      && q.Ok? && q.value.Some? && 0 <= q.value.value.amountIn
      && var amount := q.value.value.amountIn;
      Bumps(amount, f) == 0 ==>
        && QuoteExactIn(amount, reserveIn, reserveOut, f).Ok?
        && amountOut <= QuoteExactIn(amount, reserveIn, reserveOut, f).value.amountOut
  {
    ExactOutThenIn(amountOut, reserveIn, reserveOut, f);
    FeesAre(QuoteExactOut(amountOut, reserveIn, reserveOut, f).value.value.amountIn, f);
    PoolInIsLeast(amountOut, reserveIn, reserveOut, 0);
  }

  /** The lift can break it: one unit out of a small pool is quoted an input that buys nothing. */
  lemma BumpBreaksRoundTrip()
    ensures QuoteExactOut(1, 1000, 1000, POOL_FEES) == Ok(Some(ExactOutQuote(3, 1, 1)))
    ensures QuoteExactIn(3, 1000, 1000, POOL_FEES) == Ok(ExactInQuote(0, 1, 1))
  {
    CeilDivIs(1_000_000, 999);
    CeilDivIs(1_000_000, 1001);
    LiftedFees();
    GrossedUp();
  }

  lemma LiftedFees()
    ensures CalcFee(3, 25, 10_000) == Ok(1) && CalcFee(3, 5, 10_000) == Ok(1)
  {
  }

  lemma GrossedUp()
    ensures PreTradingFeeAmount(2, POOL_FEES) == Ok(3)
  {
    CeilDivIs(2 * 100_000_000, 100_000_000 - 300_000);
  }

  // ---- the best tier ----

  /** The first tier with the greatest output, or with the least input. */
  method BestTier(exactIn: bool, quotes: seq<Option<int>>) returns (best: Option<nat>)
    ensures best.None? <==> forall k :: 0 <= k < |quotes| ==> quotes[k].None?
    ensures best.Some? ==> best.value < |quotes| && quotes[best.value].Some?
    ensures best.Some? ==> forall k :: 0 <= k < |quotes| && quotes[k].Some? ==>
      if exactIn then
        quotes[k].value <= quotes[best.value].value && (k < best.value ==> quotes[k].value < quotes[best.value].value)
      else
        quotes[best.value].value <= quotes[k].value && (k < best.value ==> quotes[best.value].value < quotes[k].value)
  {
    best := None;
    for i := 0 to |quotes|
      invariant best.None? <==> forall k :: 0 <= k < i ==> quotes[k].None?
      invariant best.Some? ==> best.value < i && quotes[best.value].Some?
      invariant best.Some? ==> forall k :: 0 <= k < i && quotes[k].Some? ==>
        if exactIn then
          quotes[k].value <= quotes[best.value].value && (k < best.value ==> quotes[k].value < quotes[best.value].value)
        else
          quotes[best.value].value <= quotes[k].value && (k < best.value ==> quotes[best.value].value < quotes[k].value)
    {
      if quotes[i].Some? {
        if best.None? {
          best := Some(i);
        } else if exactIn && quotes[i].value > quotes[best.value].value {
          best := Some(i);
        } else if !exactIn && quotes[i].value < quotes[best.value].value {
          best := Some(i);
        }
      }
    }
  }
}
