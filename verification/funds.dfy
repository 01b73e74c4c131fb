/** The bounded withdrawal rule of src/main.rs: a withdrawal from an unsigned
    64-bit balance is refused with "not enough funds" when the amount exceeds
    the balance, and otherwise yields the reduced balance. The rule is written
    twice, once on raw `u64` values and once on the `Balance` and `Amount`
    newtype wrappers. */
module Funds {

  /** Rust's `u64`. The range is part of the type, so every subtraction below
      carries the proof obligation that it does not leave the range. */
  newtype u64 = x: int | 0 <= x < 0x1_0000_0000_0000_0000

  /** Rust's `Result<T, String>`; the error is the message text. */
  datatype Result<T> = Ok(value: T) | Err(error: string)

  /** The only error message either withdrawal produces. */
  const NotEnoughFunds: string := "not enough funds"

  /** `pub struct Balance(u64)`, read through `Balance::get`. */
  datatype Balance = Balance(raw: u64) {
    function Get(): u64 {
      raw
    }
  }

  /** `pub struct Amount(u64)`, read through `Amount::get`. */
  datatype Amount = Amount(raw: u64) {
    function Get(): u64 {
      raw
    }
  }

  /** `withdraw_funds`: refuses when the amount exceeds the balance (the guard
      is strict, so the whole balance may be withdrawn); otherwise what is
      left and what was taken add up to the old balance. */
  function WithdrawFunds(balance: u64, amountToWithdraw: u64): (r: Result<u64>)
    ensures r.Err? <==> amountToWithdraw > balance
    ensures r.Err? ==> r.error == NotEnoughFunds
    ensures r.Ok? ==> r.value <= balance
    ensures r.Ok? ==> r.value as int + amountToWithdraw as int == balance as int
  {
    if amountToWithdraw > balance then
      Err(NotEnoughFunds)
    else
      Ok(balance - amountToWithdraw)
  }

  /** `withdraw_funds_even_better`: the same rule on the wrapper types, comparing
      and subtracting the wrapped values. */
  function WithdrawFundsEvenBetter(balance: Balance, amountToWithdraw: Amount): (r: Result<Balance>)
    ensures r.Err? <==> amountToWithdraw.Get() > balance.Get()
    ensures r.Err? ==> r.error == NotEnoughFunds
    ensures r.Ok? ==> r.value.Get() <= balance.Get()
    ensures r.Ok? ==> r.value.Get() as int + amountToWithdraw.Get() as int == balance.Get() as int
  {
    if amountToWithdraw.Get() > balance.Get() then
      Err(NotEnoughFunds)
    else
      Ok(Balance(balance.Get() - amountToWithdraw.Get()))
  }
}
