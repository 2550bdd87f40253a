/** The client's conversion from a token budget to a liquidity request
    (app/lib/clmm-quote.ts, `getLiquidityForAmounts`). */
module Budget {
  import opened Numbers
  import opened TickMath
  import opened SwapMath
  import opened Liquidity
  import Principal

  function FromAmount0(a: pos, b: pos, amount: nat): nat {
    if a >= b then 0 else DivFloor(amount * a * b, (b - a) * Q64)
  }

  function FromAmount1(a: pos, b: pos, amount: nat): nat {
    if a >= b then 0 else DivFloor(amount * Q64, b - a)
  }

  function LiquidityFor(price: pos, tick: int, lower: int, upper: int, sqrtLower: pos, sqrtUpper: pos, amount0: nat,
        amount1: nat): nat {
    if tick < lower then FromAmount0(sqrtLower, sqrtUpper, amount0)
    else if tick >= upper then FromAmount1(sqrtLower, sqrtUpper, amount1)
    else Min(FromAmount0(price, sqrtUpper, amount0), FromAmount1(sqrtLower, price, amount1))
  }

  method GetLiquidityForAmounts(price: sqrtprice, tick: int, lower: int, upper: int, amount0: nat, amount1: nat)
    returns (r: Result<nat>)
    ensures MIN_TICK <= lower <= MAX_TICK && MIN_TICK <= upper <= MAX_TICK ==>
      r == Ok(LiquidityFor(price, tick, lower, upper, Principal.BandPrice(lower), Principal.BandPrice(upper), amount0,
          amount1))
    ensures !(MIN_TICK <= lower <= MAX_TICK && MIN_TICK <= upper <= MAX_TICK) ==> r == Err(TickOutOfBounds)
  {
    var sqrtLower :- GetSqrtPriceAtTick(lower);
    var sqrtUpper :- GetSqrtPriceAtTick(upper);
    PriceInBand(lower);
    PriceInBand(upper);
    return Ok(LiquidityFor(price, tick, lower, upper, sqrtLower, sqrtUpper, amount0, amount1));
  }

  /** Token 0 needed, rounded up, fits the amount exactly when the liquidity does. */
  lemma Fits0(a: pos, b: pos, liquidity: nat, amount: nat)
    requires a < b
    ensures Amount0(a, b, liquidity, true) <= amount <==> liquidity <= FromAmount0(a, b, amount)
  {
    var num, den := liquidity * Q64 * (b - a), a * b;
    var top, bottom := amount * a * b, (b - a) * Q64;
    assert num == liquidity * bottom && top == amount * den;
    Exchange(liquidity, bottom, amount, den);
  }

  lemma Fits1(a: pos, b: pos, liquidity: nat, amount: nat)
    requires a < b
    ensures Amount1(a, b, liquidity, true) <= amount <==> liquidity <= FromAmount1(a, b, amount)
  {
    Exchange(liquidity, b - a, amount, Q64);
  }

  /** Ceiling on one side, floor on the other: l * d <= a * e, read both ways. */
  lemma Exchange(l: nat, d: pos, a: nat, e: pos)
    ensures DivCeil(l * d, e) <= a <==> l <= DivFloor(a * e, d)
    ensures l == 0 ==> DivCeil(l * d, e) == 0
  {
    var c, f := DivCeil(l * d, e), DivFloor(a * e, d);
    if c <= a {
      MulMono(c, a, e);
      FloorIsLargest(a * e, d, l);
    }
    if l <= f {
      MulMono(l, f, d);
      CeilIsSmallest(l * d, e, a);
    }
    if l == 0 {
      CeilIsSmallest(0, e, 0);
    }
  }

  /** The request never needs more than the budget, in any of the three cases, on any input. */
  lemma BudgetSuffices(price: sqrtprice, tick: int, lower: int, upper: int, sqrtLower: pos, sqrtUpper: pos,
        amount0: nat, amount1: nat)
    ensures var l := LiquidityFor(price, tick, lower, upper, sqrtLower, sqrtUpper, amount0, amount1);
      var need := Amounts(price, tick, lower, upper, sqrtLower, sqrtUpper, l, true);
      need.0 <= amount0 && need.1 <= amount1
  {
    var l := LiquidityFor(price, tick, lower, upper, sqrtLower, sqrtUpper, amount0, amount1);
    if tick < lower {
      if sqrtLower < sqrtUpper {
        Fits0(sqrtLower, sqrtUpper, l, amount0);
      }
    } else if tick >= upper {
      if sqrtLower < sqrtUpper {
        Fits1(sqrtLower, sqrtUpper, l, amount1);
      }
    } else {
      if price < sqrtUpper {
        Fits0(price, sqrtUpper, l, amount0);
      }
      if sqrtLower < price {
        Fits1(sqrtLower, price, l, amount1);
      }
    }
  }

  predicate Affords(price: sqrtprice, tick: int, lower: int, upper: int, sqrtLower: pos, sqrtUpper: pos, amount0: nat,
        amount1: nat, l: nat) {
    var need := Amounts(price, tick, lower, upper, sqrtLower, sqrtUpper, l, true);
    need.0 <= amount0 && need.1 <= amount1
  }

  /** The price stands exactly on a bound while the tick counts as inside, and the token the
      range then consists of could pay for something. */
  predicate OnTheEdge(price: sqrtprice, tick: int, lower: int, upper: int, sqrtLower: pos, sqrtUpper: pos, amount0: nat,
        amount1: nat) {
    lower <= tick < upper &&
    ((price == sqrtLower && FromAmount0(price, sqrtUpper, amount0) > 0)
        || (price == sqrtUpper && FromAmount1(sqrtLower, price, amount1) > 0))
  }

  /** Off the edge, what the budget affords is exactly every liquidity up to the request. */
  lemma AffordsExactly(price: sqrtprice, tick: int, lower: int, upper: int, sqrtLower: pos, sqrtUpper: pos,
        amount0: nat, amount1: nat, l: nat)
    requires sqrtLower < sqrtUpper && (lower <= tick < upper ==> sqrtLower <= price <= sqrtUpper)
    requires !OnTheEdge(price, tick, lower, upper, sqrtLower, sqrtUpper, amount0, amount1)
    ensures Affords(price, tick, lower, upper, sqrtLower, sqrtUpper, amount0, amount1, l)
       <==> l <= LiquidityFor(price, tick, lower, upper, sqrtLower, sqrtUpper, amount0, amount1)
  {
    if tick < lower {
      Fits0(sqrtLower, sqrtUpper, l, amount0);
    } else if tick >= upper {
      Fits1(sqrtLower, sqrtUpper, l, amount1);
    } else {
      if price < sqrtUpper {
        Fits0(price, sqrtUpper, l, amount0);
      }
      if sqrtLower < price {
        Fits1(sqrtLower, price, l, amount1);
      }
    }
  }

  /** The request is the largest the budget affords, except exactly on the edge, where it is
      zero although the budget affords at least one unit. */
  lemma BudgetIsMaximal(price: sqrtprice, tick: int, lower: int, upper: int, sqrtLower: pos, sqrtUpper: pos,
        amount0: nat, amount1: nat)
    requires sqrtLower < sqrtUpper && (lower <= tick < upper ==> sqrtLower <= price <= sqrtUpper)
    ensures var best := LiquidityFor(price, tick, lower, upper, sqrtLower, sqrtUpper, amount0, amount1);
      (forall l: nat :: Affords(price, tick, lower, upper, sqrtLower, sqrtUpper, amount0, amount1, l) ==> l <= best)
      <==> !OnTheEdge(price, tick, lower, upper, sqrtLower, sqrtUpper, amount0, amount1)
  {
    var best := LiquidityFor(price, tick, lower, upper, sqrtLower, sqrtUpper, amount0, amount1);
    if OnTheEdge(price, tick, lower, upper, sqrtLower, sqrtUpper, amount0, amount1) {
      if price == sqrtLower {
        Fits0(price, sqrtUpper, 1, amount0);
      } else {
        Fits1(sqrtLower, price, 1, amount1);
      }
      assert Affords(price, tick, lower, upper, sqrtLower, sqrtUpper, amount0, amount1, 1);
    } else {
      forall l: nat | Affords(price, tick, lower, upper, sqrtLower, sqrtUpper, amount0, amount1, l) ensures l <= best {
        AffordsExactly(price, tick, lower, upper, sqrtLower, sqrtUpper, amount0, amount1, l);
      }
    }
  }
}
