/**
 The overflow-free basis-points fee and its relation to the plain floor formula.
 */
module Fee {
  import opened Types

  const BPS_SCALE: nat := 10_000

  function CheckedAdd(a: i128, b: i128): Option<i128> {
    if I128_MIN <= a + b <= I128_MAX then Some(a + b) else None
  }

  function CheckedMul(a: i128, b: i128): Option<i128> {
    if I128_MIN <= a * b <= I128_MAX then Some(a * b) else None
  }

  /** The fee as the contract computes it: quotient and remainder are charged
      separately, and every product and sum is checked. */
  function ComputeFee(amount: i128, bps: u32): Result<i128, ContractError> {
    if amount <= 0 then Ok(0)
    else
      match CheckedMul(amount / BPS_SCALE, bps)
      case None => Err(ArithmeticOverflow)
      case Some(whole) =>
        match CheckedMul(amount % BPS_SCALE, bps)
        case None => Err(ArithmeticOverflow)
        case Some(rest) =>
          match CheckedAdd(whole, rest / BPS_SCALE)
          case None => Err(ArithmeticOverflow)
          case Some(fee) => Ok(fee)
  }

  /** The reference formula, over unbounded integers. */
  function FloorFee(amount: nat, bps: nat): nat {
    amount * bps / BPS_SCALE
  }

  lemma MulMonotone(a: int, b: int, d: nat)
    requires a <= b
    ensures a * d <= b * d
  {
    assert (b - a) * d >= 0;
  }

  lemma QuotientAtLeast(n: int, d: nat, q: int)
    requires d > 0 && q * d <= n
    ensures q <= n / d
  {
    if q > n / d {
      MulMonotone(n / d + 1, q, d);
    }
  }

  lemma QuotientBelow(n: int, d: nat, q: int)
    requires d > 0 && n < q * d
    ensures n / d < q
  {
    if n / d >= q {
      MulMonotone(q, n / d, d);
    }
  }

  lemma SplitIsFloor(amount: nat, bps: nat)
    ensures (amount / BPS_SCALE) * bps + (amount % BPS_SCALE) * bps / BPS_SCALE == FloorFee(amount, bps)
  {
    var q, r := amount / BPS_SCALE, amount % BPS_SCALE;
    var part := r * bps / BPS_SCALE;
    assert amount == q * BPS_SCALE + r;
    assert amount * bps == (q * bps) * BPS_SCALE + r * bps by {
      assert (q * BPS_SCALE + r) * bps == (q * bps) * BPS_SCALE + r * bps;
    }
    QuotientAtLeast(amount * bps, BPS_SCALE, q * bps + part);
    QuotientBelow(amount * bps, BPS_SCALE, q * bps + part + 1);
  }

  /** For every positive amount and every `u32` rate the checked split formula
      gives exactly the floor, and reports an overflow exactly when the floor
      itself does not fit. */
  lemma ComputeFeeIsFloor(amount: i128, bps: u32)
    requires amount > 0
    ensures ComputeFee(amount, bps)
         == if FloorFee(amount, bps) <= I128_MAX then Ok(FloorFee(amount, bps)) else Err(ArithmeticOverflow)
  {
    SplitIsFloor(amount, bps);
    MulMonotone(amount % BPS_SCALE, BPS_SCALE, bps);
    MulMonotone(0, amount % BPS_SCALE, bps);
    MulMonotone(0, amount / BPS_SCALE, bps);
  }

  lemma FloorFeeAtMostAmount(amount: nat, bps: nat)
    requires bps <= BPS_SCALE
    ensures FloorFee(amount, bps) <= amount
  {
    MulMonotone(bps, BPS_SCALE, amount);
    QuotientBelow(amount * bps, BPS_SCALE, amount + 1);
  }

  /** Over the legal rates the fee never overflows and never exceeds the amount;
      non-positive amounts are free. */
  lemma LegalRateFee(amount: i128, bps: u32)
    requires bps <= BPS_SCALE
    ensures ComputeFee(amount, bps).Ok?
    ensures 0 <= ComputeFee(amount, bps).value
    ensures amount > 0 ==> ComputeFee(amount, bps).value == FloorFee(amount, bps) <= amount
    ensures amount <= 0 ==> ComputeFee(amount, bps).value == 0
  {
    if amount > 0 {
      ComputeFeeIsFloor(amount, bps);
      FloorFeeAtMostAmount(amount, bps);
    }
  }

  /** What the whole payment pays over its two parts: the carry of the two
      discarded remainders. */
  function Carry(a: nat, b: nat, bps: nat): nat {
    if a * bps % BPS_SCALE + b * bps % BPS_SCALE >= BPS_SCALE then 1 else 0
  }

  lemma FloorOfSum(x: nat, y: nat)
    ensures (x + y) / BPS_SCALE
         == x / BPS_SCALE + y / BPS_SCALE + (if x % BPS_SCALE + y % BPS_SCALE >= BPS_SCALE then 1 else 0)
  {
  }

  /** Splitting a payment in two never raises the total fee; it saves one unit
      exactly when the two remainders carry, and never more. */
  lemma SplittingAPayment(a: i128, b: i128, bps: u32)
    requires a > 0 && b > 0 && a + b <= I128_MAX && bps <= BPS_SCALE
    ensures ComputeFee(a, bps).Ok? && ComputeFee(b, bps).Ok? && ComputeFee(a + b, bps).Ok?
    ensures ComputeFee(a + b, bps).value
         == ComputeFee(a, bps).value + ComputeFee(b, bps).value + Carry(a, b, bps)
  {
    LegalRateFee(a, bps);
    LegalRateFee(b, bps);
    LegalRateFee(a + b, bps);
    assert (a + b) * bps == a * bps + b * bps;
    FloorOfSum(a * bps, b * bps);
  }

  /** The one-unit loss does happen: two payments of 5_000 at one basis point are
      free, one payment of 10_000 is not. */
  lemma SplittingCanSaveOne()
    ensures ComputeFee(5_000, 1).value + ComputeFee(5_000, 1).value == ComputeFee(10_000, 1).value - 1
  {
    SplittingAPayment(5_000, 5_000, 1);
  }
}
