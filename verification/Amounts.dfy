/** Bounded amounts: addition and subtraction that report overflow, and the bond. */
module Amounts {
  import opened Types

  const MAX_AMOUNT: Amount := 9_000_000_000_000_000

  const BOND_DIVISOR: nat := 1000

  /** Adds exactly when the sum is within the maximum; an oversized operand is reported as such. */
  function SafeAdd(a: Amount, b: Amount): (r: Result<Amount>)
    ensures r.Ok? <==> a + b <= 9_000_000_000_000_000
    ensures r.Ok? ==> r.value == a + b
    ensures r == Err(AmountExceedMax) <==> a > MAX_AMOUNT || b > MAX_AMOUNT
    ensures r == Err(AmountOverflow) <==> a <= MAX_AMOUNT && b <= MAX_AMOUNT && a + b > MAX_AMOUNT
  {
    if a > MAX_AMOUNT || b > MAX_AMOUNT then
      Err(AmountExceedMax)
    else if b > MAX_AMOUNT - a then
      Err(AmountOverflow)
    else
      Ok(a + b)
  }

  function SafeSub(a: Amount, b: Amount): (r: Result<Amount>)
    ensures r.Ok? <==> b <= a
    ensures r == Err(AmountUnderflow) <==> b > a
    ensures r.Ok? ==> r.value + b == a
  {
    if b > a then Err(AmountUnderflow) else Ok(a - b)
  }

  function ValidateAmount(a: Amount): (r: Option<Error>)
    ensures r == None <==> 0 < a <= 9_000_000_000_000_000
    ensures r == Some(AmountZero) <==> a == 0
  {
    if a == 0 then Some(AmountZero)
    else if a > MAX_AMOUNT then Some(AmountExceedMax)
    else None
  }

  /** The bond is a thousandth, rounded down. */
  function BondAmount(amount: Amount): (b: Amount)
    ensures 1000 * b <= amount < 1000 * (b + 1)
  {
    amount / BOND_DIVISOR
  }

  /** What the source computes where it drops the error of the addition: 0 on overflow. */
  function AddOrZero(a: Amount, b: Amount): Amount {
    match SafeAdd(a, b)
    case Ok(v) => v
    case Err(_) => 0
  }
}
