# Bounded withdrawal on 64-bit balances

The repository's only executable logic is a withdrawal rule on unsigned 64-bit
balances, written in `src/main.rs` in two versions: `withdraw_funds` on raw
`u64` values, and `withdraw_funds_even_better` on the newtype wrappers
`Balance` and `Amount`. A withdrawal larger than the balance is refused with
the message `"not enough funds"`; otherwise the result is the balance minus the
amount. The rest of the repository is prose about API design and has no
behaviour to model.

- `funds.dfy`, module `Funds`: the `u64` range as a newtype, `Result` with a
  string error, the `Balance` and `Amount` wrappers with their `Get`
  accessors, and both withdrawal functions. Because `u64` is a newtype,
  Dafny checks that the subtraction in each function stays in range; the
  guard in front of it is what discharges that check, so neither function can
  underflow.
- `funds_properties.dfy`, module `FundsProperties`: lemmas about the edge cases
  of the guard, the agreement of the two versions, and a series of
  withdrawals applied one after another.

## Model

| member | source | states |
|---|---|---|
| `Funds.WithdrawFunds` | src/main.rs:2-7 | refused exactly when the amount exceeds the balance, always with "not enough funds"; on success the result is at most the balance and result plus amount equals the balance (no underflow) |
| `Funds.WithdrawFundsEvenBetter` | src/main.rs:41-49 | the same rule on `Balance`/`Amount`: refused exactly when the wrapped amount exceeds the wrapped balance, with "not enough funds"; on success the new wrapped balance plus the amount equals the old balance |
| `FundsProperties.GetReturnsWrapped` | src/main.rs:29-39 | `Balance(x).Get()` and `Amount(x).Get()` both return `x` unchanged |
| `FundsProperties.WithdrawWholeBalance` | src/main.rs:3-6 | the guard is strict: withdrawing the entire balance succeeds and leaves 0 |
| `FundsProperties.WithdrawNothing` | src/main.rs:3-6 | withdrawing 0 succeeds and leaves the balance unchanged |
| `FundsProperties.EvenBetterAgrees` | src/main.rs:41-49 | for every balance and amount, the wrapper version and the raw version fail together with the same message or succeed with the same value once unwrapped |
| `FundsProperties.WithdrawEachConserves` | src/main.rs:2-7 | applying `withdraw_funds` to a series of amounts in turn succeeds exactly when their total fits in the balance; then what is left plus the total equals the starting balance, and a refusal carries "not enough funds" |
| `FundsProperties.WithdrawEachMatchesTotal` | src/main.rs:2-7 | when the total of a series is itself a `u64`, withdrawing the series one by one ends exactly as one withdrawal of the total |

## Left out

- `src/best.rs` (`withdraw_funds_best`): the file is never declared as a module in `src/main.rs`, so it is not compiled, and it applies `>` and `-` to `Balance`/`Amount` without the trait implementations that would allow it; its intended behaviour is that of `withdraw_funds_even_better`.
- The commented-out type-alias version `withdraw_funds_better` (src/main.rs:11-22): not live code, and with aliases it is the same function as `withdraw_funds`.
- `UpdateableConfigs` (src/main.rs:51-55): a struct with no operations whose field type is not defined in the repository.
- `main` (src/main.rs:57): empty.
- The error `String` is modelled as the fixed text `"not enough funds"`; its heap allocation by `to_string()` is not modelled.
- Rust's behaviour on an out-of-range subtraction (a panic in debug builds, wrap-around in release builds) is not modelled, because the guard makes it unreachable and the model proves that.
