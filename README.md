# A verified model of the AQUA/BLUB Soroban staking suite

This project models four Soroban smart contracts and their shared helper crate in Dafny:

- **staking**: users lock AQUA for a configured period and earn a yearly basis-point reward.
- **rewards**: an admin-funded reward pool, streamed through a global rate, with per-user earned/claimed ledgers.
- **liquidity**: two-token pools with LP supply, and time-locked LP staking.
- **governance**: proposals, weighted votes, a quorum/pass tally and execution.

Each contract is a transactional state machine over the host's key-value storage. A call:

1. reads the config and the ledger time;
2. checks its preconditions in a fixed order;
3. either returns a typed error or writes new records.

The model follows the same shape:

- Every contract is a `class`.
  - Its storage entries are fields: an `Option` config, `map`s for the persistent records, and integers for counters.
  - `now` (the ledger timestamp) is a parameter.
  - Every entry point is a `method` with `modifies this`.
  - Each method's `ensures` gives the error for each failed check in source order, and the complete new state on success. Where the chain is long, the `ensures` ties the result to a pure outcome function that holds it.
- A host trap on i128/u64 overflow or division by zero is the `Panic` arm of `Result`. The host rolls back a trapped call, so `Panic`, like every `Err`, leaves the state unchanged.
- Rust's truncating `/` is `RustDiv` (soroban.dfy). Every i128 operation the source performs is range-checked explicitly.
- Each class keeps a storage invariant as `Valid()`, and every method preserves it. The invariants are:
  - **staking**: `TotalStaked` is the sum of the stake amounts, and each stake carries the multiplier its lock period selects.
  - **rewards**: `distributed_rewards` is the sum of the users' claimed totals.
  - **liquidity**: `TotalLPStaked` is the sum of the LP stakes, and every stake belongs to an existing pool and carries its lock multiplier.
  - **governance**:
    - every proposal's tallies are the sums of the powers of the votes cast on it;
    - proposal ids run from 1 to `ProposalCount`;
    - `TotalVotingPower` is the sum of the voter powers;
    - the `Executed` status implies the executed flag, and the flag implies `Executed` or `Cancelled` (cancelling an executed proposal keeps its flag).
- Pure parts are functions with lemmas about them. These are the reward formulas, the tally, the deposit and withdrawal arithmetic, and the basis-point conversions.
- The integer square root is a `while` loop proved to return the floor square root.

Files, one Dafny module each:

- `soroban.dfy`: addresses, `Option`, `Result`, i128/u64 ranges, truncating division.
- `map_sum.dfy`: the sum of a map's values, used by every counter invariant.
- `shared.dfy`, `staking.dfy`, `rewards.dfy`, `liquidity.dfy`, `governance.dfy`: one per source crate.

## Model

| member | source | states |
|---|---|---|
| Shared.BasisPointsToPercentage | src/soroban-contracts/staking-contract/contracts/shared/src/lib.rs:36-38 | the whole percentage, truncated toward zero: the remainder `b - 100p` lies in [0,100) for non-negative and (-100,0] for negative input |
| Shared.PercentageToBasisPoints | src/soroban-contracts/staking-contract/contracts/shared/src/lib.rs:41-43 | `None` (the multiplication trap) exactly when `p * 100` leaves i128; otherwise an i128 value that `BasisPointsToPercentage` maps back to `p` |
| Shared.BasisPointsRoundDown | src/soroban-contracts/staking-contract/contracts/shared/src/lib.rs:36-43 | for `b >= 0`, basis points to percent and back never traps, is at most `b`, within 100 of it, and equals `b` exactly when `b % 100 == 0` |
| Shared.ValidatePositiveAmount | src/soroban-contracts/staking-contract/contracts/shared/src/lib.rs:31-33 | holds exactly for amounts of at least 1 |
| Shared.ValidatePercentage | src/soroban-contracts/staking-contract/contracts/shared/src/lib.rs:46-48 | holds exactly for values in [0, MAX_BASIS_POINTS], i.e. 0% to 100% |
| Shared.ValidPercentageBounds | src/soroban-contracts/staking-contract/contracts/shared/src/lib.rs:31-48 | a percentage in [0,100] converts without a trap; a converted value passes `validate_percentage` iff the percentage is in [0,100], and `validate_positive_amount` iff the percentage does |
| Shared.LockPeriodConstants | src/soroban-contracts/staking-contract/contracts/shared/src/lib.rs:58-67 | SECONDS_PER_YEAR = 31 536 000, MAX_LOCK_PERIOD = 157 680 000, MIN_LOCK_PERIOD = 86 400, and MIN < MAX |
| Staking.Position | src/soroban-contracts/staking-contract/contracts/staking/src/lib.rs:156-161 | `Some(i)` is the first index holding the lock period; `None` exactly when it is not in the table |
| Staking.PositionFrom | src/soroban-contracts/staking-contract/contracts/staking/src/lib.rs:156 | the search from index `i` finds the first occurrence at or after `i`, or none when absent |
| Staking.InvariantAfterWrite | src/soroban-contracts/staking-contract/contracts/staking/src/lib.rs:178-183 | writing a stake with its table multiplier keeps `TotalStaked` = sum of amounts when the total moves by the change in amount |
| Staking.InvariantAfterRemove | src/soroban-contracts/staking-contract/contracts/staking/src/lib.rs:223-228 | removing a stake and subtracting its amount keeps the invariant |
| Staking.SaturatingSub | src/soroban-contracts/staking-contract/contracts/staking/src/lib.rs:384 | the result is non-negative, `a - b` when `a >= b`, 0 otherwise |
| Staking.YearsStaked | src/soroban-contracts/staking-contract/contracts/staking/src/lib.rs:387 | the six-digit scaled quotient equals the number of whole 365-day years: `y*Y <= t < (y+1)*Y` |
| Staking.DivScaled | src/soroban-contracts/staking-contract/contracts/staking/src/lib.rs:387 | scaling numerator and divisor by 10^6 does not change the quotient |
| Staking.CalculateUserReward | src/soroban-contracts/staking-contract/contracts/staking/src/lib.rs:376-402 | never traps; fails, always with `InvalidConfiguration`, exactly when one of the three checked products for the whole years staked overflows; an `Ok` reward is never negative |
| Staking.RewardFormula | src/soroban-contracts/staking-contract/contracts/staking/src/lib.rs:392-401 | `Err(InvalidConfiguration)` exactly when `amount * rate`, its product with `years`, or the scaled quotient times the multiplier leaves i128, and `Ok` otherwise; the clamped result is non-negative |
| Staking.RewardBeforeOneYear | src/soroban-contracts/staking-contract/contracts/staking/src/lib.rs:384-387 | a stake younger than one year earns exactly 0 (unless `amount * rate` overflows) |
| Staking.RewardBelowExact | src/soroban-contracts/staking-contract/contracts/staking/src/lib.rs:387-399 | with non-negative inputs the reward times 10^14 is at most `amount * rate * years * multiplier` |
| Staking.FormulaBelowExact | src/soroban-contracts/staking-contract/contracts/staking/src/lib.rs:392-399 | the two truncating divisions only round down relative to the exact product |
| Staking.FormulaValue | src/soroban-contracts/staking-contract/contracts/staking/src/lib.rs:392-401 | for non-negative inputs the reward is the floor expression and the clamp is inactive |
| Staking.RewardMonotoneInTime | src/soroban-contracts/staking-contract/contracts/staking/src/lib.rs:384-401 | waiting longer never lowers the reward |
| Staking.FormulaMonotone | src/soroban-contracts/staking-contract/contracts/staking/src/lib.rs:392-401 | the formula is non-decreasing in the number of years |
| Staking.StakeCheck | src/soroban-contracts/staking-contract/contracts/staking/src/lib.rs:146-183 | `Ok` iff not paused, amount >= minimum, period listed, no stake yet and the total stays in i128; otherwise the first failing check's error in source order |
| Staking.UnstakeReturn | src/soroban-contracts/staking-contract/contracts/staking/src/lib.rs:210-227 | `LockPeriodNotExpired` while `now < timestamp + lock`, then `InvalidConfiguration` when the reward fails; `Ok` exactly when the u64 unlock time is in range and has passed, the reward is `Ok`, and `amount + reward` and `total - amount` stay in i128; the payout is `amount + reward >= amount` |
| Staking.RestakeReward | src/soroban-contracts/staking-contract/contracts/staking/src/lib.rs:265-291 | `InvalidLockPeriod` for an unlisted period, then `InvalidConfiguration` when the reward fails; `Ok` exactly when the period is listed, the reward is `Ok`, and both new stake and total stay in i128; the compounded reward is the non-negative pending reward |
| Staking.StakingContract.constructor | src/soroban-contracts/staking-contract/contracts/staking/src/lib.rs:324-326 | a freshly deployed contract: no config, no stakes, and total 0, the `unwrap_or(0)` default the cited getter reads from empty storage |
| Staking.StakingContract.Initialize | src/soroban-contracts/staking-contract/contracts/staking/src/lib.rs:91-132 | `AlreadyInitialized`, then `InvalidConfiguration` for unequal tables; on success the config is stored unpaused, the totals are 0 and the last update is `now` |
| Staking.StakingContract.Stake | src/soroban-contracts/staking-contract/contracts/staking/src/lib.rs:135-197 | errors as `StakeCheck`, state unchanged; on success the new stake has the first-match multiplier and `TotalStaked` grows by `amount`; the invariant is kept |
| Staking.StakingContract.Unstake | src/soroban-contracts/staking-contract/contracts/staking/src/lib.rs:200-242 | `StakeNotFound`, then as `UnstakeReturn`; on success the stake is removed and the total falls by its amount |
| Staking.StakingContract.Restake | src/soroban-contracts/staking-contract/contracts/staking/src/lib.rs:245-306 | no lock-expiry requirement; paused, `StakeNotFound`, then as `RestakeReward`; on success only this user's stake becomes `amount + reward` at `now` with the new period and multiplier, and the total grows by the reward |
| Staking.StakingContract.CalculateRewards | src/soroban-contracts/staking-contract/contracts/staking/src/lib.rs:314-321 | `StakeNotFound` first, then `NotInitialized`, else the reward formula's result, never negative |
| Staking.StakingContract.GetTotalStaked | src/soroban-contracts/staking-contract/contracts/staking/src/lib.rs:324-326 | equals the sum of all stored stake amounts |
| Staking.StakingContract.SetEmergencyPause | src/soroban-contracts/staking-contract/contracts/staking/src/lib.rs:336-351 | `NotInitialized`, `Unauthorized` for a non-admin, else only the pause flag changes |
| Staking.StakingContract.UpdateRewardRate | src/soroban-contracts/staking-contract/contracts/staking/src/lib.rs:354-373 | `NotInitialized`, `Unauthorized`, else only the base rate changes |
| Staking.UnstakeAfterLockScenario | src/soroban-contracts/staking-contract/contracts/staking/src/test.rs:209-251 | a one-day stake unstaked one second after its lock returns exactly the principal and leaves the total at 0 |
| Staking.RestakeScenario | src/soroban-contracts/staking-contract/contracts/staking/src/test.rs:254-292 | restaking after 12 hours onto one week keeps the amount and stores the 1.2x multiplier |
| Rewards.Claimable | src/soroban-contracts/staking-contract/contracts/rewards/src/lib.rs:246 | earned minus claimed, defined exactly when the subtraction stays in i128 |
| Rewards.DistributedNonNegative | src/soroban-contracts/staking-contract/contracts/rewards/src/lib.rs:267-273 | under the invariant, the distributed total is never negative |
| Rewards.InvariantAfterAccrual | src/soroban-contracts/staking-contract/contracts/rewards/src/lib.rs:221-227 | rewriting a record without changing its claimed total keeps `distributed = sum of claimed` |
| Rewards.InvariantAfterClaim | src/soroban-contracts/staking-contract/contracts/rewards/src/lib.rs:266-273 | adding the same amount to the user's claimed total and to `distributed_rewards` keeps the invariant |
| Rewards.FundedPool | src/soroban-contracts/staking-contract/contracts/rewards/src/lib.rs:164-170 | the total grows by `amount`; for a positive period the rate spreads the unclaimed balance over the period; traps exactly on i128 overflow |
| Rewards.DistributionRate | src/soroban-contracts/staking-contract/contracts/rewards/src/lib.rs:169 | the truncated per-second share: `rate * period` is within one period of the balance, on the zero side |
| Rewards.FundingKeepsSolvency | src/soroban-contracts/staking-contract/contracts/rewards/src/lib.rs:164-170 | funding with a non-negative amount keeps `distributed <= total` |
| Rewards.NegativeFundingBreaksSolvency | src/soroban-contracts/staking-contract/contracts/rewards/src/lib.rs:141-164 | the unchecked sign lets a negative amount leave `distributed > total` |
| Rewards.AdvanceGlobal | src/soroban-contracts/staking-contract/contracts/rewards/src/lib.rs:430-445 | a no-op unless time advanced; traps exactly when time advanced and `rate * elapsed` or the new counter leaves i128; otherwise the update time becomes `now` and, for a non-negative rate, the counter does not decrease |
| Rewards.AdvanceGlobalAdds | src/soroban-contracts/staking-contract/contracts/rewards/src/lib.rs:435-442 | the counter grows by exactly `rate * elapsed` |
| Rewards.AdvanceGlobalComposes | src/soroban-contracts/staking-contract/contracts/rewards/src/lib.rs:424-447 | advancing to `mid` then to `now` equals advancing to `now` at once |
| Rewards.Accrual | src/soroban-contracts/staking-contract/contracts/rewards/src/lib.rs:217-219 | an in-range interval reward, non-negative for non-negative inputs; `None` exactly when `staked * rate`, its product with the elapsed time, or the scaled quotient times the multiplier leaves i128 |
| Rewards.AccrualValue | src/soroban-contracts/staking-contract/contracts/rewards/src/lib.rs:217-219 | for non-negative inputs without overflow the reward is exactly `(staked * rate * elapsed / 10^6) * multiplier / 10^4` with floor divisions |
| Rewards.AccrualBelowExact | src/soroban-contracts/staking-contract/contracts/rewards/src/lib.rs:218-219 | the truncations only round down: reward times 10^10 is at most `staked * rate * dt * multiplier` |
| Rewards.AccruedRecord | src/soroban-contracts/staking-contract/contracts/rewards/src/lib.rs:206-225 | the claimed total is untouched, the clock becomes `now` and the multiplier is replaced; the interval is priced with the old multiplier and only when `last_claim < now` and stake > 0 |
| Rewards.AccrualNeverLowersEarned | src/soroban-contracts/staking-contract/contracts/rewards/src/lib.rs:216-222 | with a non-negative rate and multiplier an update never lowers the earned total |
| Rewards.ClaimCheck | src/soroban-contracts/staking-contract/contracts/rewards/src/lib.rs:242-264 | in source order: `NoRewardsToClaim` for no record, a trap when earned minus claimed overflows, `NoRewardsToClaim` for a claimable amount `<= 0`, `BelowMinimumClaim` below the minimum, a trap when the pool's balance overflows, `InsufficientRewards` above it; `Ok` exactly when every check passes, carrying the amount that completes earned |
| Rewards.DefaultUserRewardInfo | src/soroban-contracts/staking-contract/contracts/rewards/src/lib.rs:451-460 | a record with nothing claimable, nothing claimed, and a 1x (100%) multiplier |
| Rewards.DefaultRewardPool | src/soroban-contracts/staking-contract/contracts/rewards/src/lib.rs:462-471 | an empty pool: nothing available, nothing distributed, rate 0 |
| Rewards.RewardsContract.constructor | src/soroban-contracts/staking-contract/contracts/rewards/src/lib.rs:462-471 | a freshly deployed contract: no config, no records, and the `Default` pool the cited impl gives, which empty storage reads as |
| Rewards.RewardsContract.Initialize | src/soroban-contracts/staking-contract/contracts/rewards/src/lib.rs:93-135 | `AlreadyInitialized`; on success an empty pool with `last_distribution = now`, global rate 0, last update `now` |
| Rewards.RewardsContract.FundRewards | src/soroban-contracts/staking-contract/contracts/rewards/src/lib.rs:138-185 | `NotInitialized`, `Unauthorized`, `ContractPaused` in that order; on success the pool becomes `FundedPool` and nothing else changes |
| Rewards.RewardsContract.UpdateGlobalRewards | src/soroban-contracts/staking-contract/contracts/rewards/src/lib.rs:424-448 | the counter pair becomes `AdvanceGlobal` of the old pair; a trap changes nothing |
| Rewards.RewardsContract.UpdateUserReward | src/soroban-contracts/staking-contract/contracts/rewards/src/lib.rs:188-230 | `NotInitialized`, `StakingContractOnly` for a foreign host address; then the global catch-up and the user's record becomes `AccruedRecord` of the stored or default record |
| Rewards.RewardsContract.ClaimRewards | src/soroban-contracts/staking-contract/contracts/rewards/src/lib.rs:233-286 | paused, then as `ClaimCheck`, state unchanged on error; on success claimed and distributed grow by the amount, `distributed <= total`, and nothing remains claimable |
| Rewards.RewardsContract.GetClaimableRewards | src/soroban-contracts/staking-contract/contracts/rewards/src/lib.rs:289-295 | earned minus claimed, 0 for an unknown user |
| Rewards.RewardsContract.SetEmergencyPause | src/soroban-contracts/staking-contract/contracts/rewards/src/lib.rs:315-334 | `NotInitialized`, `Unauthorized`, else only the pause flag changes |
| Rewards.RewardsContract.UpdateMinClaimAmount | src/soroban-contracts/staking-contract/contracts/rewards/src/lib.rs:337-356 | `NotInitialized`, `Unauthorized`, else only the minimum changes |
| Rewards.RewardsContract.UpdateDistributionPeriod | src/soroban-contracts/staking-contract/contracts/rewards/src/lib.rs:359-389 | the period is always stored; the rate is recomputed (spreading the balance) only for a positive period, the pool is unchanged for period 0 |
| Rewards.RewardsContract.DistributeRewards | src/soroban-contracts/staking-contract/contracts/rewards/src/lib.rs:392-421 | `NotInitialized`, `Unauthorized`, `ContractPaused`; on success the global catch-up and `TotalStakers` is returned |
| Rewards.ClaimTwice | src/soroban-contracts/staking-contract/contracts/rewards/src/lib.rs:246-272 | after a successful claim an immediate second claim fails with `NoRewardsToClaim` |
| Liquidity.FloorSqrtUnique | src/soroban-contracts/staking-contract/contracts/liquidity/src/lib.rs:534-552 | a non-negative number has one floor square root |
| Liquidity.SqrtLoopStart | src/soroban-contracts/staking-contract/contracts/liquidity/src/lib.rs:543-544 | for `n >= 2` the first guess `n` and `(n+1)/2` satisfy the loop invariant |
| Liquidity.SqrtLoopStep | src/soroban-contracts/staking-contract/contracts/liquidity/src/lib.rs:546-549 | a Babylonian step that decreases keeps the invariant (the guess stays at least the floor root) and its sum stays in i128 |
| Liquidity.BabylonianStep | src/soroban-contracts/staking-contract/contracts/liquidity/src/lib.rs:548 | the next guess is never below the floor root |
| Liquidity.BabylonianExit | src/soroban-contracts/staking-contract/contracts/liquidity/src/lib.rs:546-551 | when the step no longer decreases, the guess is the floor root |
| Liquidity.IntegerSqrt | src/soroban-contracts/staking-contract/contracts/liquidity/src/lib.rs:534-552 | 0 for negative input, otherwise the floor square root; traps only for `i128::MAX` |
| Liquidity.FloorSqrt | src/soroban-contracts/staking-contract/contracts/liquidity/src/lib.rs:534-552 | a reference floor square root, by upward search, independent of the Babylonian loop |
| Liquidity.LpMultiplier | src/soroban-contracts/staking-contract/contracts/liquidity/src/lib.rs:517-526 | in [10000, 15000]; 10000 up to a day, 15000 above 90 days |
| Liquidity.LpMultiplierMonotone | src/soroban-contracts/staking-contract/contracts/liquidity/src/lib.rs:517-526 | non-decreasing in the lock period |
| Liquidity.OptimalDeposit | src/soroban-contracts/staking-contract/contracts/liquidity/src/lib.rs:243-251 | defined only for non-zero reserves; `None` exactly when a product or reserve leaves i128 or a division traps; one side of the deposit is the full offered amount |
| Liquidity.OptimalDepositAtPrice | src/soroban-contracts/staking-contract/contracts/liquidity/src/lib.rs:243-251 | with positive amounts and reserves the deposit never exceeds the offered pair, and the matched side is the floor of the other amount at the reserve ratio |
| Liquidity.ProportionalMint | src/soroban-contracts/staking-contract/contracts/liquidity/src/lib.rs:256-259 | `None` exactly when a product or reserve leaves i128 or a division traps; otherwise the minimum of the two truncated shares `final * total / reserve`, in range |
| Liquidity.ProportionalMintBelowShares | src/soroban-contracts/staking-contract/contracts/liquidity/src/lib.rs:256-259 | for non-negative inputs the minted amount is at most each side's proportional share and is the floor share of at least one side |
| Liquidity.LpMinted | src/soroban-contracts/staking-contract/contracts/liquidity/src/lib.rs:254-260 | the LP an empty pool mints is the floor root of the product (0 for a negative product), trapping exactly when the product leaves i128 or is `i128::MAX`; a pool with supply mints the proportional minimum |
| Liquidity.MintLp | src/soroban-contracts/staking-contract/contracts/liquidity/src/lib.rs:254-260 | running `integer_sqrt`'s loop gives exactly `LpMinted` |
| Liquidity.DepositPlan | src/soroban-contracts/staking-contract/contracts/liquidity/src/lib.rs:229-251 | `NotInitialized`, `ContractPaused`, `PoolNotFound`, `InsufficientLiquidity` for a non-positive amount, in order; a trap exactly when the optimal deposit traps; otherwise the optimal deposit |
| Liquidity.DepositOutcome | src/soroban-contracts/staking-contract/contracts/liquidity/src/lib.rs:229-271 | the errors of `DepositPlan`; on `Ok` at least `min_liquidity` minted, the mint equal to `LpMinted`, and the pool's reserves and supply grown by the deposit and the mint |
| Liquidity.DepositSlippage | src/soroban-contracts/staking-contract/contracts/liquidity/src/lib.rs:254-271 | `SlippageTooHigh` exactly when every earlier check passes and fewer than `min_liquidity` tokens would be minted; `Ok` exactly when every check passes and no step traps |
| Liquidity.WithdrawOutcome | src/soroban-contracts/staking-contract/contracts/liquidity/src/lib.rs:411-436 | `NotInitialized`, `ContractPaused`, `PoolNotFound`, `InsufficientLiquidity` unless `0 < lp <= supply`, in order; a trap exactly when a share's product leaves i128; `SlippageTooHigh` exactly when a share is below `min_a` or `min_b`; `Ok` otherwise, paying the floor shares, with supply non-negative and each reserve between 0 and its old value |
| Liquidity.Withdrawal | src/soroban-contracts/staking-contract/contracts/liquidity/src/lib.rs:426-427 | defined exactly when the product is in range |
| Liquidity.WithdrawalBounds | src/soroban-contracts/staking-contract/contracts/liquidity/src/lib.rs:426-427 | the floor relation `w * total <= lp * reserve < (w+1) * total`, and `0 <= w <= reserve` when `lp <= total` |
| Liquidity.WithdrawalWithinReserve | src/soroban-contracts/staking-contract/contracts/liquidity/src/lib.rs:421-436 | for `0 < lp <= total` the withdrawn amount lies between 0 and the reserve, on the reserve's side |
| Liquidity.LpReward | src/soroban-contracts/staking-contract/contracts/liquidity/src/lib.rs:373-375 | in range and non-negative for non-negative inputs; `None` exactly when `lp * time` or the scaled quotient times the multiplier leaves i128 |
| Liquidity.LpRewardValue | src/soroban-contracts/staking-contract/contracts/liquidity/src/lib.rs:373-375 | for non-negative inputs without overflow the reward is exactly `(lp * time / 10^6) * multiplier / 10^4` with floor divisions |
| Liquidity.LpRewardMonotoneInMultiplier | src/soroban-contracts/staking-contract/contracts/liquidity/src/lib.rs:373-375 | a larger multiplier never lowers the reward; a multiplier of at least 1x pays at least the base reward |
| Liquidity.UnstakeLpReturn | src/soroban-contracts/staking-contract/contracts/liquidity/src/lib.rs:364-397 | `LockPeriodNotExpired` while `now < timestamp + lock`; `Ok` exactly when the u64 unlock time is in range and has passed, the reward is defined, and `lp + reward` and `total - lp` stay in i128; the payout is `lp + reward`, at least `lp` for non-negative fields |
| Liquidity.InvariantAfterPoolWrite | src/soroban-contracts/staking-contract/contracts/liquidity/src/lib.rs:200-201 | writing a valid pool (and possibly the new count) keeps the invariant |
| Liquidity.InvariantAfterStakeWrite | src/soroban-contracts/staking-contract/contracts/liquidity/src/lib.rs:330-335 | a new stake with its multiplier, and the total grown by its amount, keep `TotalLPStaked` = sum |
| Liquidity.InvariantAfterStakeRemove | src/soroban-contracts/staking-contract/contracts/liquidity/src/lib.rs:378-383 | removing a stake and subtracting its amount keeps the invariant |
| Liquidity.LiquidityContract.constructor | src/soroban-contracts/staking-contract/contracts/liquidity/src/lib.rs:456-463 | a freshly deployed contract: no config, no pools, no stakes, and count and total 0, the `unwrap_or(0)` defaults the cited getters read from empty storage |
| Liquidity.LiquidityContract.Initialize | src/soroban-contracts/staking-contract/contracts/liquidity/src/lib.rs:117-152 | `AlreadyInitialized`, `InvalidFeeRate` above 1000 bp; on success an unpaused config and zero counters |
| Liquidity.LiquidityContract.CreatePool | src/soroban-contracts/staking-contract/contracts/liquidity/src/lib.rs:155-216 | the whole result chain: `NotInitialized`, `ContractPaused`, `InvalidTokens`, `InsufficientLiquidity`, the u64 trap on the id, `InvalidFeeRate` above 1000 bp, the square-root trap, else `Ok(count + 1)`; on success the pool holds the floor root of `a * b` as its supply |
| Liquidity.LiquidityContract.AddLiquidity | src/soroban-contracts/staking-contract/contracts/liquidity/src/lib.rs:219-287 | the result is `DepositOutcome` (its error, a trap, or the minted LP), the pool is written as it says, and everything else is unchanged |
| Liquidity.LiquidityContract.StakeLp | src/soroban-contracts/staking-contract/contracts/liquidity/src/lib.rs:290-350 | paused, `PoolNotFound`, non-positive amount, a second stake; on success the stake carries `calculate_lp_multiplier` and `TotalLPStaked` grows by the amount |
| Liquidity.LiquidityContract.UnstakeLp | src/soroban-contracts/staking-contract/contracts/liquidity/src/lib.rs:353-398 | `StakeNotFound`, then as `UnstakeLpReturn`; on success the stake is removed and the total falls by its amount |
| Liquidity.LiquidityContract.RemoveLiquidity | src/soroban-contracts/staking-contract/contracts/liquidity/src/lib.rs:401-443 | the result is `WithdrawOutcome` (its error, a trap, or the two amounts), the pool is written as it says, and everything else is unchanged |
| Liquidity.LiquidityContract.SetEmergencyPause | src/soroban-contracts/staking-contract/contracts/liquidity/src/lib.rs:473-492 | `NotInitialized`, `Unauthorized`, else only the pause flag changes |
| Liquidity.LiquidityContract.UpdateMinLiquidity | src/soroban-contracts/staking-contract/contracts/liquidity/src/lib.rs:495-514 | `NotInitialized`, `Unauthorized`, else only the minimum changes |
| Governance.TallyPasses | src/soroban-contracts/staking-contract/contracts/governance/src/lib.rs:335-356 | a pass needs positive total power and some votes; traps only on the i128 sum or products |
| Governance.TallyMeaning | src/soroban-contracts/staking-contract/contracts/governance/src/lib.rs:335-356 | for non-negative tallies: passes iff power > 0, turnout * 10000 >= quorum * power, turnout > 0 and for * 10000 >= pass * turnout |
| Governance.UnanimousTurnoutPasses | src/soroban-contracts/staking-contract/contracts/governance/src/lib.rs:339-350 | all power voting for passes under any thresholds up to 100% |
| Governance.NoVotesFails | src/soroban-contracts/staking-contract/contracts/governance/src/lib.rs:346-350 | a proposal without votes never passes |
| Governance.TalliesNonNegative | src/soroban-contracts/staking-contract/contracts/governance/src/lib.rs:275-296 | under the invariant every tally is non-negative, since only positive powers are counted |
| Governance.InvariantAfterCreate | src/soroban-contracts/staking-contract/contracts/governance/src/lib.rs:205-227 | a fresh Active proposal with id `count + 1` and zero tallies keeps the invariant |
| Governance.VoteMovesOneTally | src/soroban-contracts/staking-contract/contracts/governance/src/lib.rs:289-296 | a new vote moves the tally of its own proposal and side by its power and no other tally |
| Governance.InvariantAfterVote | src/soroban-contracts/staking-contract/contracts/governance/src/lib.rs:281-298 | storing a vote and moving its tally keeps tallies = sums of vote powers |
| Governance.InvariantAfterStatus | src/soroban-contracts/staking-contract/contracts/governance/src/lib.rs:352-358 | changing only status and executed flag, consistently, keeps the invariant |
| Governance.ProposalOutcome | src/soroban-contracts/staking-contract/contracts/governance/src/lib.rs:185-223 | `NotInitialized`, `ContractPaused`, `InsufficientVotingPower`, `ProposalCooldown` within a day of the last proposal; `Ok` exactly when every check passes and the cooldown, id and voting-end sums stay in u64, carrying an Active zero-vote proposal `count + 1` ending at `now + voting_period` |
| Governance.VoteOutcome | src/soroban-contracts/staking-contract/contracts/governance/src/lib.rs:252-296 | `NotInitialized`, paused, `ProposalNotFound`, `VotingPeriodEnded`, `AlreadyVoted`, `InsufficientVotingPower` in order; `Ok` exactly when every check passes and the chosen tally plus the power stays in i128, and then exactly that tally grows by the power |
| Governance.Finalization | src/soroban-contracts/staking-contract/contracts/governance/src/lib.rs:326-356 | `VotingPeriodActive` while voting is open; `Ok` exactly when voting has ended and the proposal is not Active or its tally does not trap; a no-op for a non-Active proposal, else Passed or Failed by the tally |
| Governance.FinalizationMeaning | src/soroban-contracts/staking-contract/contracts/governance/src/lib.rs:335-356 | an Active proposal ends Passed iff the cross-multiplied quorum and pass conditions hold, else Failed |
| Governance.Execution | src/soroban-contracts/staking-contract/contracts/governance/src/lib.rs:377-395 | `ProposalNotPassed` unless Passed, `AlreadyExecuted`, `ExecutionDelayNotMet` before `voting_end + delay`; `Ok` exactly when the proposal is Passed, unexecuted and past the in-range delay, and then Executed and flagged |
| Governance.UpdatedParams | src/soroban-contracts/staking-contract/contracts/governance/src/lib.rs:531-557 | rejected iff a supplied threshold exceeds 10000; otherwise each supplied field replaces the old one and the rest is kept |
| Governance.GovernanceContract.constructor | src/soroban-contracts/staking-contract/contracts/governance/src/lib.rs:205 | a freshly deployed contract: no config, no proposals, and count and total power 0, the `unwrap_or(0)` default the cited line reads from empty storage |
| Governance.GovernanceContract.Initialize | src/soroban-contracts/staking-contract/contracts/governance/src/lib.rs:127-171 | `AlreadyInitialized`, `InvalidParameters` for a threshold above 10000; on success an unpaused config, count 0 and total power 0 |
| Governance.GovernanceContract.CreateProposal | src/soroban-contracts/staking-contract/contracts/governance/src/lib.rs:174-241 | as `ProposalOutcome`; on success the id is `count + 1`, above every earlier id, stored as the count, and the proposer's time is recorded |
| Governance.GovernanceContract.CastVote | src/soroban-contracts/staking-contract/contracts/governance/src/lib.rs:244-313 | as `VoteOutcome`, state unchanged on error; on success the vote is stored with the voter's power and the proposal's tally moves |
| Governance.GovernanceContract.FinalizeProposal | src/soroban-contracts/staking-contract/contracts/governance/src/lib.rs:316-363 | `NotInitialized`, `ProposalNotFound`, then as `Finalization` against `TotalVotingPower` and the configured thresholds |
| Governance.GovernanceContract.ExecuteProposal | src/soroban-contracts/staking-contract/contracts/governance/src/lib.rs:366-408 | `ProposalNotFound`, then as `Execution`; the `AlreadyExecuted` error is unreachable |
| Governance.GovernanceContract.UpdateVotingPower | src/soroban-contracts/staking-contract/contracts/governance/src/lib.rs:411-433 | `NotInitialized`; on success the power is replaced and the total moves by `new - old`, keeping it the sum of all powers |
| Governance.GovernanceContract.SetEmergencyPause | src/soroban-contracts/staking-contract/contracts/governance/src/lib.rs:470-489 | `NotInitialized`, `Unauthorized`, else only the pause flag changes |
| Governance.GovernanceContract.CancelProposal | src/soroban-contracts/staking-contract/contracts/governance/src/lib.rs:492-515 | `NotInitialized`, `Unauthorized`, `ProposalNotFound`; on success the proposal is Cancelled, whatever its status |
| Governance.GovernanceContract.UpdateGovernanceParams | src/soroban-contracts/staking-contract/contracts/governance/src/lib.rs:518-562 | `NotInitialized`, `Unauthorized`, then as `UpdatedParams`: an invalid threshold leaves the config unchanged |
| Governance.ExecuteTwice | src/soroban-contracts/staking-contract/contracts/governance/src/lib.rs:377-395 | after a successful execution, executing again fails with `ProposalNotPassed` |
| Governance.VoteTwice | src/soroban-contracts/staking-contract/contracts/governance/src/lib.rs:270-272 | after a successful vote, voting again on the same proposal fails with `AlreadyVoted` |

## Left out

- Authentication: `require_auth()` is host signature checking, so callers are taken as authenticated. The `config.admin != admin` comparisons are modelled, and `create_pool`'s `creator` argument, used only for auth and the event, is dropped.
- Events and `log!` output: these are observability only.
- Token custody: no transfers happen in the source. Payouts are returned values, and `stake_lp` does not check that the user holds the LP tokens it records.
- Storage tiers and TTLs: instance and persistent storage become plain fields. Reads with `unwrap_or` defaults become explicit defaults, or constructor values for counters that `initialize` writes.
- The host identity check in `update_user_reward` (rewards/src/lib.rs:197): `current_contract_address()` becomes the `currentContract` parameter.
- Proposal payloads: `title`, `description`, `target_contract`, `function_name` and `parameters` are never interpreted, and `execute_proposal` makes no cross-contract call.
- The bookkeeping in `distribute_rewards`: only its guards, the global catch-up and the returned `TotalStakers` are modelled. The event's `total_amount` is a constant 0, and nothing writes `TotalStakers` after `initialize`.
- Getters that only read a record or the config (`get_config`, `get_pool`, `get_lp_stake`, `get_pool_count`, `get_total_lp_staked`, `get_user_reward_info`, `get_reward_pool`, `get_proposal`, `get_vote`, `get_total_voting_power`, `get_proposal_count`, `get_stake_balance`, `get_voting_power`): these are direct field reads of the classes. `GetStakeBalance` and `VotingPower` exist only to read a stored record (or 0 for a missing power), and other members use them.
- The staking test harness (`mock_all_auths`, ledger manipulation, client wrappers): only two of its tests are restated, as scenario methods.
- Argument types: where a Rust parameter is `i128` or `u64` and an i128/u64 operation would otherwise be unmodelled, the range is a `requires`. This applies to `PercentageToBasisPoints`, `CreatePool`, `AddLiquidity`, `StakeLp`, `UpdateVotingPower`, `Rewards.RewardsContract.Initialize` and `UpdateDistributionPeriod`.
- Governance.GovernanceContract.UpdateVotingPower: the source says only the staking contract should call it but checks no caller, and the model does not check one either.
- Liquidity.LiquidityContract.RemoveLiquidity: a reserve is proved to stay non-negative only if it was non-negative. A negative reserve is proved to stay between its old value and 0. `min_liquidity` is an unconstrained i128, so `create_pool` can store a negative reserve.
- Liquidity.IntegerSqrt: `(x + 1) / 2` overflows for `i128::MAX`. That input is modelled as a host trap (`None`, so `CreatePool` and `AddLiquidity` return `Panic`) and is not treated as a defect.
- Stake types and reward pool types (`StakeType`, `RewardPoolType`): they are declared as datatypes, but nothing in the core uses them.
