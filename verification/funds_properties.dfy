/** Properties of the withdrawal rule that relate several calls: the accessors
    of the wrappers, the edge cases of the guard, the agreement of the two
    versions, and what repeated withdrawals do to a balance. */
module FundsProperties {
  import opened Funds

  /** Strips the `Balance` wrapper from a successful result. */
  function Unwrap(r: Result<Balance>): Result<u64> {
    match r
    case Ok(b) => Ok(b.Get())
    case Err(e) => Err(e)
  }

  /** `Balance::get` and `Amount::get` give back exactly the wrapped value. */
  lemma GetReturnsWrapped(x: u64)
    ensures Balance(x).Get() == x
    ensures Amount(x).Get() == x
  {
  }

  /** The guard is strict: taking the whole balance succeeds and leaves zero. */
  lemma WithdrawWholeBalance(balance: u64)
    ensures WithdrawFunds(balance, balance) == Ok(0)
  {
  }

  /** Taking nothing always succeeds and leaves the balance as it was. */
  lemma WithdrawNothing(balance: u64)
    ensures WithdrawFunds(balance, 0) == Ok(balance)
  {
  }

  /** The wrapper version decides and computes exactly as the raw version:
      both fail together with the same message, or both succeed with the same
      value once the `Balance` is unwrapped. */
  lemma EvenBetterAgrees(balance: u64, amountToWithdraw: u64)
    ensures Unwrap(WithdrawFundsEvenBetter(Balance(balance), Amount(amountToWithdraw)))
         == WithdrawFunds(balance, amountToWithdraw)
  {
  }

  /** The total of a series of amounts, without a 64-bit bound. */
  function Sum(amounts: seq<u64>): nat {
    if amounts == [] then 0 else amounts[0] as nat + Sum(amounts[1..])
  }

  /** `withdraw_funds` applied to each amount in turn, starting from `balance`
      and stopping at the first refusal. */
  function WithdrawEach(balance: u64, amounts: seq<u64>): Result<u64>
    decreases |amounts|
  {
    if amounts == [] then
      Ok(balance)
    else
      match WithdrawFunds(balance, amounts[0])
      case Err(e) => Err(e)
      case Ok(rest) => WithdrawEach(rest, amounts[1..])
  }

  /** Conservation over any series of withdrawals: the series goes through
      exactly when its total fits in the balance, the balance left plus the
      total taken is the starting balance, and a refusal carries the one
      error message. */
  lemma {:induction false} WithdrawEachConserves(balance: u64, amounts: seq<u64>)
    ensures WithdrawEach(balance, amounts).Ok? <==> Sum(amounts) <= balance as int
    ensures WithdrawEach(balance, amounts).Ok? ==>
              WithdrawEach(balance, amounts).value as int + Sum(amounts) == balance as int
    ensures WithdrawEach(balance, amounts).Err? ==>
              WithdrawEach(balance, amounts).error == NotEnoughFunds
    decreases |amounts|
  {
    if amounts != [] {
      match WithdrawFunds(balance, amounts[0])
      case Err(_) =>
      case Ok(rest) => WithdrawEachConserves(rest, amounts[1..]);
    }
  }

  /** A series of withdrawals whose total is itself a `u64` ends exactly as a
      single withdrawal of that total. */
  lemma {:induction false} WithdrawEachMatchesTotal(balance: u64, amounts: seq<u64>)
    requires Sum(amounts) < 0x1_0000_0000_0000_0000
    ensures WithdrawEach(balance, amounts) == WithdrawFunds(balance, Sum(amounts) as u64)
  {
    WithdrawEachConserves(balance, amounts);
  }
}
