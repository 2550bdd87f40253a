/** Fixed-width integers, fixed-point constants and the two rounding directions
    that every amount in the program is built from. */
module Numbers {

  const Q64: int := 0x1_0000_0000_0000_0000
  const TWO_128: int := 0x1_0000_0000_0000_0000_0000_0000_0000_0000
  const FEE_DENOM: int := 1_000_000

  type u64 = x: int | 0 <= x < 0x1_0000_0000_0000_0000
  type u128 = x: int | 0 <= x < 0x1_0000_0000_0000_0000_0000_0000_0000_0000
  type timestamp = x: int | 0 <= x < 0x8000_0000_0000_0000
  type i128 = x: int | -0x8000_0000_0000_0000_0000_0000_0000_0000 <= x < 0x8000_0000_0000_0000_0000_0000_0000_0000
  type pos = x: int | 0 < x witness 1
  type sqrtprice = x: int | 0 < x < 0x1_0000_0000_0000_0000_0000_0000_0000_0000 witness 1

  datatype Error =
    | TickOutOfBounds
    | SqrtPriceOutOfBounds
    | MathOverflow
    | ZeroLiquidity
    | InvalidTickRange
    | InvalidTickArraySequence
    | SlippageExceeded
    | InvalidParams
    | Uninitialized
    | AlreadyInitialized
    | InsufficientFunds
    | InsufficientStake
    | RewardRateTooHigh
    | Unauthorized
    | FeeTooHigh
    | NotOpen
    | NotExpired
    | IntervalNotElapsed

  datatype Result<+T> = Ok(value: T) | Err(error: Error) {
    predicate IsFailure() {
      Err?
    }

    function PropagateFailure<U>(): Result<U>
      requires Err?
    {
      Err(error)
    }

    function Extract(): T
      requires Ok?
    {
      value
    }
  }

  function Min(a: int, b: int): int {
    if a < b then a else b
  }

  function Max(a: int, b: int): int {
    if a < b then b else a
  }

  function DivFloor(num: nat, den: pos): (q: nat)
    ensures q * den <= num < q * den + den
  {
    assert num == (num / den) * den + num % den;
    num / den
  }

  function DivCeil(num: nat, den: pos): (q: nat)
    ensures num <= q * den < num + den
  {
    var n := num + den - 1;
    assert n == (n / den) * den + n % den;
    n / den
  }

  /** A checked narrowing to `u128`, as `u128::try_from` does it. */
  function ToU128(x: nat): Result<u128> {
    if x < TWO_128 then Ok(x) else Err(MathOverflow)
  }

  function ToU64(x: nat): Result<u64> {
    if x < Q64 then Ok(x) else Err(MathOverflow)
  }

  function WrapAdd(a: u128, b: u128): u128 {
    (a + b) % TWO_128
  }

  function WrapSub(a: u128, b: u128): u128 {
    (a - b) % TWO_128
  }

  /** The floor is the largest integer whose multiple fits. */
  lemma FloorIsLargest(num: nat, den: pos, k: int)
    requires k * den <= num
    ensures k <= DivFloor(num, den)
  {
    var q := DivFloor(num, den);
    assert k > q ==> k * den >= (q + 1) * den;
  }

  /** The floor is the only integer with its two bounds. */
  lemma QuotientIs(num: nat, den: pos, q: int)
    requires q * den <= num < q * den + den
    ensures DivFloor(num, den) == q
  {
    FloorIsLargest(num, den, q);
    var d := DivFloor(num, den);
    assert (q + 1) * den == q * den + den;
    if q < d {
      MulMono(q + 1, d, den);
    }
  }

  /** The ceiling is the smallest integer whose multiple covers. */
  lemma CeilIsSmallest(num: nat, den: pos, k: int)
    requires num <= k * den
    ensures DivCeil(num, den) <= k
  {
    var q := DivCeil(num, den);
    assert k < q ==> k * den <= (q - 1) * den;
  }

  /** Below the ceiling means strictly below the quotient. */
  lemma BelowCeil(num: nat, den: pos, k: int)
    requires k < DivCeil(num, den)
    ensures k * den < num
  {
    var q := DivCeil(num, den);
    assert k * den <= (q - 1) * den;
  }

  lemma MulMono(a: int, b: int, c: int)
    requires a <= b && 0 <= c
    ensures a * c <= b * c
  {
  }

  lemma Commutes(a: int, b: int)
    ensures a * b == b * a
  {
  }

  lemma MulMonoLeft(c: int, a: int, b: int)
    requires a <= b && 0 <= c
    ensures c * a <= c * b
  {
  }

  lemma RealOrder(a: real, b: real, d: real)
    requires 0.0 < d && a * d <= b * d
    ensures a <= b
  {
    assert b < a ==> b * d < a * d;
  }

  /** Integer bounds on a product carry over to the exact quotient. */
  lemma QuotientBetween(num: int, den: pos, lo: int, hi: int, x: real)
    requires x * den as real == num as real
    ensures lo * den <= num ==> lo as real <= x
    ensures lo * den < num ==> lo as real < x
    ensures num <= hi * den ==> x <= hi as real
    ensures num < hi * den ==> x < hi as real
  {
    var d := den as real;
    assert (lo * den) as real == lo as real * d && (hi * den) as real == hi as real * d;
    assert x < lo as real ==> x * d < lo as real * d;
    assert x > hi as real ==> x * d > hi as real * d;
  }

  lemma MulMonoReal(a: real, b: real, c: real)
    requires a <= b && 0.0 <= c
    ensures a * c <= b * c
  {
  }

  lemma ScaleStep(i: int, span: int)
    ensures i * span + span == (i + 1) * span
    ensures -i * span - span == -(i + 1) * span
  {
  }

  lemma SumOfMultiples(i: int, k: int, d: pos)
    ensures (i + k) * d == i * d + k * d
  {
  }

  lemma NegatedProduct(i: int, k: int)
    ensures -i * k == -(i * k)
  {
  }

  /** A guarded definition is stated under this token, so that its body enters only the
      proofs that name it; all others see the function by name alone. */
  ghost predicate Unfold(token: int) {
    true
  }
}
