/**
 * The rewards contract: an admin-funded reward pool whose per-second
 * `distribution_rate` spreads the unclaimed balance over the distribution
 * period; a global counter advanced lazily by `rate * elapsed`; per-user
 * earned/claimed ledgers fed by the staking contract; and a guarded claim.
 */
module Rewards {
  import opened Soroban
  import opened MapSum
  import Shared

  datatype RewardPool = RewardPool(
    totalRewards: int,
    distributedRewards: int,
    lastDistribution: int,
    distributionRate: int     // rewards per second
  )

  datatype UserRewardInfo = UserRewardInfo(
    totalEarned: int,
    totalClaimed: int,
    lastClaim: int,
    multiplier: int           // basis points
  )

  datatype RewardConfig = RewardConfig(
    admin: Address,
    stakingContract: Address,
    rewardToken: Address,
    distributionPeriod: int,  // seconds
    minClaimAmount: int,
    emergencyPause: bool
  )

  datatype RewardError =
    | NotInitialized
    | AlreadyInitialized
    | Unauthorized
    | InsufficientRewards
    | NoRewardsToClaim
    | BelowMinimumClaim
    | ContractPaused
    | InvalidConfiguration
    | StakingContractOnly

  /**
   * `Default for UserRewardInfo`, the record of a user never rewarded:
   * nothing earned or claimed, so nothing claimable, and a 1x (100%)
   * multiplier.
   */
  function DefaultUserRewardInfo(): (u: UserRewardInfo)
    ensures Claimable(u) == Some(0) && TotalClaimed(u) == 0
    ensures u.multiplier == Shared.MAX_BASIS_POINTS
  {
    UserRewardInfo(0, 0, 0, 10000)
  }

  /** `Default for RewardPool`: an empty pool with nothing available and nothing distributed per second. */
  function DefaultRewardPool(): (p: RewardPool)
    ensures p.distributedRewards == 0 && p.totalRewards - p.distributedRewards == 0
    ensures p.distributionRate == 0
  {
    RewardPool(0, 0, 0, 0)
  }

  function TotalClaimed(u: UserRewardInfo): int { u.totalClaimed }

  /** What a user may still claim: earned minus claimed, `None` where the i128 subtraction traps. */
  function Claimable(u: UserRewardInfo): (c: Option<int>)
    ensures c.Some? <==> IsI128(u.totalEarned - u.totalClaimed)
    ensures c.Some? ==> u.totalClaimed + c.value == u.totalEarned
  {
    if IsI128(u.totalEarned - u.totalClaimed) then Some(u.totalEarned - u.totalClaimed) else None
  }

  /** The stored i128 fields of a record are in range and it never claimed a negative total. */
  predicate RecordValid(u: UserRewardInfo) {
    IsI128(u.totalEarned) && IsI128(u.totalClaimed) && u.totalClaimed >= 0
  }

  predicate PoolValid(p: RewardPool) {
    IsI128(p.totalRewards) && IsI128(p.distributedRewards) && IsI128(p.distributionRate)
  }

  /**
   * The rewards storage invariant: nothing is recorded before initialization;
   * all stored i128 values are in range; and the pool's `distributed_rewards`
   * is exactly the sum of what the users have claimed.
   */
  ghost predicate RewardsInvariant(config: Option<RewardConfig>, pool: RewardPool,
                                   users: map<Address, UserRewardInfo>, globalRate: int) {
    && (config.None? ==> users == map[] && pool == DefaultRewardPool())
    && (config.Some? ==> config.value.distributionPeriod >= 0)
    && PoolValid(pool) && IsI128(globalRate)
    && (forall u :: u in users ==> RecordValid(users[u]))
    && pool.distributedRewards == Sum(users, TotalClaimed)
  }

  /** Every claim is paid out of the pool, so the distributed total is never negative. */
  lemma DistributedNonNegative(config: Option<RewardConfig>, pool: RewardPool,
                               users: map<Address, UserRewardInfo>, globalRate: int)
    requires RewardsInvariant(config, pool, users, globalRate)
    ensures pool.distributedRewards >= 0
  {
    SumNonNegative(users, TotalClaimed);
  }

  /** Rewriting a record without touching its claimed total keeps the invariant. */
  lemma InvariantAfterAccrual(config: Option<RewardConfig>, pool: RewardPool, users: map<Address, UserRewardInfo>,
                              globalRate: int, newGlobalRate: int, user: Address, rec: UserRewardInfo)
    requires RewardsInvariant(config, pool, users, globalRate) && config.Some?
    requires RecordValid(rec) && IsI128(newGlobalRate)
    requires rec.totalClaimed == if user in users then users[user].totalClaimed else 0
    ensures RewardsInvariant(config, pool, users[user := rec], newGlobalRate)
  {
    SumUpdate(users, user, rec, TotalClaimed);
  }

  /** Paying `amount` to `user` moves both the user's claimed total and the pool's distributed total. */
  lemma InvariantAfterClaim(config: Option<RewardConfig>, pool: RewardPool, users: map<Address, UserRewardInfo>,
                            globalRate: int, user: Address, amount: int)
    requires RewardsInvariant(config, pool, users, globalRate) && config.Some?
    requires user in users && amount > 0
    requires IsI128(users[user].totalClaimed + amount) && IsI128(pool.distributedRewards + amount)
    ensures RewardsInvariant(config, pool.(distributedRewards := pool.distributedRewards + amount),
                             users[user := users[user].(totalClaimed := users[user].totalClaimed + amount)],
                             globalRate)
  {
    var rec := users[user].(totalClaimed := users[user].totalClaimed + amount);
    SumUpdate(users, user, rec, TotalClaimed);
  }

  /**
   * `fund_rewards` on the pool: adds `amount` to the total and, for a
   * positive period, spreads the unclaimed balance over it (truncating).
   * `None` where an i128 addition or subtraction traps.
   */
  function FundedPool(pool: RewardPool, amount: int, period: int): (r: Option<RewardPool>)
    requires period >= 0
    ensures r.Some? ==> r.value.totalRewards == pool.totalRewards + amount
    ensures r.Some? ==> r.value.distributedRewards == pool.distributedRewards
    ensures r.Some? ==> r.value.lastDistribution == pool.lastDistribution
    ensures r.Some? && period == 0 ==> r.value.distributionRate == pool.distributionRate
    ensures r.Some? && period > 0 ==> SpreadsOver(r.value.distributionRate, r.value.totalRewards - r.value.distributedRewards, period)
    ensures r.None? <==> !IsI128(pool.totalRewards + amount)
                         || (period > 0 && !IsI128(pool.totalRewards + amount - pool.distributedRewards))
  {
    var total := pool.totalRewards + amount;
    if !IsI128(total) then None
    else if period > 0 then
      var available := total - pool.distributedRewards;
      if !IsI128(available) then None
      else Some(pool.(totalRewards := total, distributionRate := DistributionRate(available, period)))
    else Some(pool.(totalRewards := total))
  }

  /**
   * `rate` is the per-second share of `available` over `period` seconds:
   * paying it for the whole period pays out the balance, less than one
   * period's worth of rounding (truncation is toward zero for a balance that
   * has gone negative).
   */
  predicate SpreadsOver(rate: int, available: int, period: int)
    requires period > 0
  {
    && (available >= 0 ==> 0 <= rate * period <= available < rate * period + period)
    && (available < 0 ==> rate * period - period < available <= rate * period <= 0)
  }

  /** `available / (period as i128)`, Rust's truncating division. */
  function DistributionRate(available: int, period: int): (rate: int)
    requires period > 0
    ensures SpreadsOver(rate, available, period)
    ensures IsI128(available) ==> IsI128(rate)
  {
    RustDivBounds(available, period);
    RustDivTruncates(available, period);
    RustDiv(available, period)
  }

  /**
   * Funding with a non-negative amount cannot make the pool owe more than it
   * holds; `fund_rewards` does not check the sign of `amount`.
   */
  lemma FundingKeepsSolvency(pool: RewardPool, amount: int, period: int)
    requires period >= 0 && amount >= 0
    requires pool.distributedRewards <= pool.totalRewards
    requires FundedPool(pool, amount, period).Some?
    ensures FundedPool(pool, amount, period).value.distributedRewards <= FundedPool(pool, amount, period).value.totalRewards
  {
    var p := FundedPool(pool, amount, period).value;
    assert p.totalRewards == pool.totalRewards + amount;
  }

  /** A negative funding amount can leave `distributed_rewards` above `total_rewards`. */
  lemma NegativeFundingBreaksSolvency()
    ensures var p := RewardPool(100, 100, 0, 0);
      && p.distributedRewards <= p.totalRewards
      && FundedPool(p, -1, 0).Some?
      && FundedPool(p, -1, 0).value.distributedRewards > FundedPool(p, -1, 0).value.totalRewards
  {
    var p := RewardPool(100, 100, 0, 0);
    assert FundedPool(p, -1, 0).value.totalRewards == 99;
  }

  /**
   * `update_global_rewards` on the pair (`GlobalRewardRate`, `LastGlobalUpdate`):
   * a no-op unless time has advanced, otherwise adds `rate * elapsed` and
   * moves the update time to `now`. `None` where an i128 operation traps.
   */
  function AdvanceGlobal(globalRate: int, lastUpdate: int, distributionRate: int, now: int): (r: Option<(int, int)>)
    ensures now <= lastUpdate ==> r == Some((globalRate, lastUpdate))
    ensures r.Some? && now > lastUpdate ==> r.value.1 == now
    ensures r.Some? ==> IsI128(globalRate) ==> IsI128(r.value.0)
    ensures r.Some? && distributionRate >= 0 ==> r.value.0 >= globalRate
    ensures r.None? <==>
      now > lastUpdate && (!IsI128(distributionRate * (now - lastUpdate))
                           || !IsI128(globalRate + distributionRate * (now - lastUpdate)))
  {
    if now > lastUpdate then
      var rewards := distributionRate * (now - lastUpdate);
      MulNonNegative(distributionRate, now - lastUpdate);
      if !IsI128(rewards) || !IsI128(globalRate + rewards) then None
      else Some((globalRate + rewards, now))
    else Some((globalRate, lastUpdate))
  }

  /**
   * What advancing adds: exactly `rate` for every second elapsed since the
   * last update.
   */
  lemma AdvanceGlobalAdds(globalRate: int, lastUpdate: int, distributionRate: int, now: int)
    requires AdvanceGlobal(globalRate, lastUpdate, distributionRate, now).Some?
    ensures AdvanceGlobal(globalRate, lastUpdate, distributionRate, now).value.0
            == globalRate + distributionRate * (Max(now, lastUpdate) - lastUpdate)
  {
    if now <= lastUpdate {
      assert Max(now, lastUpdate) - lastUpdate == 0;
    }
  }

  /**
   * Catching up in two steps accrues the same as catching up once: the
   * counter depends only on the elapsed time, not on how often it is advanced.
   */
  lemma AdvanceGlobalComposes(globalRate: int, lastUpdate: int, distributionRate: int, mid: int, now: int)
    requires lastUpdate <= mid <= now
    requires AdvanceGlobal(globalRate, lastUpdate, distributionRate, mid).Some?
    requires var s := AdvanceGlobal(globalRate, lastUpdate, distributionRate, mid).value;
      AdvanceGlobal(s.0, s.1, distributionRate, now).Some?
    requires AdvanceGlobal(globalRate, lastUpdate, distributionRate, now).Some?
    ensures var s := AdvanceGlobal(globalRate, lastUpdate, distributionRate, mid).value;
      AdvanceGlobal(s.0, s.1, distributionRate, now) == AdvanceGlobal(globalRate, lastUpdate, distributionRate, now)
  {
    var s := AdvanceGlobal(globalRate, lastUpdate, distributionRate, mid).value;
    AdvanceGlobalAdds(globalRate, lastUpdate, distributionRate, mid);
    AdvanceGlobalAdds(s.0, s.1, distributionRate, now);
    AdvanceGlobalAdds(globalRate, lastUpdate, distributionRate, now);
    if mid == lastUpdate {
      assert s == (globalRate, lastUpdate);
    } else {
      assert s.1 == mid;
      var d1, d2 := mid - lastUpdate, now - mid;
      assert distributionRate * d1 + distributionRate * d2 == distributionRate * (d1 + d2);
      if now == mid {
        assert AdvanceGlobal(s.0, s.1, distributionRate, now) == Some(s);
      }
    }
  }

  /**
   * The reward for one interval: `(staked * global_rate * elapsed) / 1_000_000`
   * priced at `multiplier` basis points, with truncating divisions; `None`
   * where a product or the addition traps.
   */
  function Accrual(staked: int, globalRate: int, elapsed: int, multiplier: int): (r: Option<int>)
    ensures r.Some? ==> IsI128(r.value)
    ensures r.Some? && staked >= 0 && globalRate >= 0 && elapsed >= 0 && multiplier >= 0 ==> r.value >= 0
    ensures r.None? <==> AccrualOverflows(staked, globalRate, elapsed, multiplier)
  {
    var product := staked * globalRate * elapsed;
    if !IsI128(staked * globalRate) || !IsI128(product) then None
    else
      var base := RustDiv(product, 1_000_000);
      var priced := base * multiplier;
      if !IsI128(priced) then None
      else
        RustDivTruncates(priced, 10000);
        Some(RustDiv(priced, 10000))
  }

  /**
   * Whether one of the products of the interval reward leaves i128:
   * `staked * global_rate`, then that times `elapsed`, then the scaled
   * quotient times `multiplier`.
   */
  predicate AccrualOverflows(staked: int, globalRate: int, elapsed: int, multiplier: int) {
    || !IsI128(staked * globalRate)
    || !IsI128(staked * globalRate * elapsed)
    || !IsI128(RustDiv(staked * globalRate * elapsed, 1_000_000) * multiplier)
  }

  /** For non-negative inputs that do not overflow, the interval reward is the floor expression `(s * g * t / 10^6) * m / 10^4`. */
  lemma AccrualValue(staked: int, globalRate: int, elapsed: int, multiplier: int)
    requires staked >= 0 && globalRate >= 0 && elapsed >= 0 && multiplier >= 0
    requires !AccrualOverflows(staked, globalRate, elapsed, multiplier)
    ensures staked * globalRate * elapsed >= 0
    ensures Accrual(staked, globalRate, elapsed, multiplier)
            == Some((staked * globalRate * elapsed) / 1_000_000 * multiplier / 10000)
  {
    var p1 := staked * globalRate;
    assert p1 >= 0;
    var product := p1 * elapsed;
    assert product >= 0;
    var base := Quot(product, 1_000_000);
    var priced := base * multiplier;
    assert priced >= 0;
  }

  /** With non-negative inputs the truncations only round down: at most the exact `product * multiplier / 10^10`. */
  lemma AccrualBelowExact(staked: int, globalRate: int, elapsed: int, multiplier: int)
    requires staked >= 0 && globalRate >= 0 && elapsed >= 0 && multiplier >= 0
    requires Accrual(staked, globalRate, elapsed, multiplier).Some?
    ensures Accrual(staked, globalRate, elapsed, multiplier).value * 10_000_000_000
            <= staked * globalRate * elapsed * multiplier
  {
    var p1 := staked * globalRate;
    assert p1 >= 0;
    var product := p1 * elapsed;
    assert product >= 0;
    var base := Quot(product, 1_000_000);
    MulMonotone(base * 1_000_000, product, multiplier);
    var priced := base * multiplier;
    assert priced >= 0;
    var r := Quot(priced, 10000);
    assert Accrual(staked, globalRate, elapsed, multiplier).value == r;
    MulMonotone(r * 10000, priced, 1_000_000);
  }

  /**
   * The record `update_user_reward` writes: the interval since `last_claim`
   * is priced with the multiplier stored so far, and only when the user has a
   * positive stake and time has advanced; then the clock and the multiplier
   * are replaced. The claimed total is left alone.
   */
  function AccruedRecord(rec: UserRewardInfo, staked: int, globalRate: int, now: int, multiplier: int)
    : (r: Option<UserRewardInfo>)
    ensures r.Some? ==> r.value.totalClaimed == rec.totalClaimed
    ensures r.Some? ==> r.value.lastClaim == now && r.value.multiplier == multiplier
    ensures !(rec.lastClaim < now && staked > 0) ==> r == Some(rec.(lastClaim := now, multiplier := multiplier))
    ensures rec.lastClaim < now && staked > 0 ==>
      match Accrual(staked, globalRate, now - rec.lastClaim, rec.multiplier) {
        case None => r.None?
        case Some(a) => r == (if IsI128(rec.totalEarned + a)
                              then Some(rec.(totalEarned := rec.totalEarned + a, lastClaim := now, multiplier := multiplier))
                              else None)
      }
  {
    if rec.lastClaim < now && staked > 0 then
      match Accrual(staked, globalRate, now - rec.lastClaim, rec.multiplier) {
        case None => None
        case Some(a) =>
          if IsI128(rec.totalEarned + a)
          then Some(rec.(totalEarned := rec.totalEarned + a, lastClaim := now, multiplier := multiplier))
          else None
      }
    else Some(rec.(lastClaim := now, multiplier := multiplier))
  }

  /** With non-negative inputs an update never lowers what the user has earned. */
  lemma AccrualNeverLowersEarned(rec: UserRewardInfo, staked: int, globalRate: int, now: int, multiplier: int)
    requires globalRate >= 0 && rec.multiplier >= 0
    requires AccruedRecord(rec, staked, globalRate, now, multiplier).Some?
    ensures AccruedRecord(rec, staked, globalRate, now, multiplier).value.totalEarned >= rec.totalEarned
  {
    if rec.lastClaim < now && staked > 0 {
      var a := Accrual(staked, globalRate, now - rec.lastClaim, rec.multiplier);
      assert a.Some? && a.value >= 0;
    }
  }

  /**
   * The checks of `claim_rewards` after the pause flag, in their order, and
   * the claimable amount they let through: positive, at least the minimum,
   * and covered by the pool's undistributed balance.
   */
  function ClaimCheck(minClaim: int, rec: Option<UserRewardInfo>, pool: RewardPool): (r: Result<int, RewardError>)
    ensures rec.None? ==> r == Err(NoRewardsToClaim)
    ensures rec.Some? && Claimable(rec.value).None? ==> r.Panic?
    ensures rec.Some? && Claimable(rec.value).Some? && Claimable(rec.value).value <= 0 ==> r == Err(NoRewardsToClaim)
    ensures rec.Some? && Claimable(rec.value).Some? && 0 < Claimable(rec.value).value < minClaim ==>
              r == Err(BelowMinimumClaim)
    ensures rec.Some? && Claimable(rec.value).Some? && 0 < Claimable(rec.value).value && minClaim <= Claimable(rec.value).value ==>
              (!IsI128(pool.totalRewards - pool.distributedRewards) ==> r.Panic?)
    ensures rec.Some? && Claimable(rec.value).Some? && 0 < Claimable(rec.value).value && minClaim <= Claimable(rec.value).value
            && IsI128(pool.totalRewards - pool.distributedRewards) ==>
              (Claimable(rec.value).value > pool.totalRewards - pool.distributedRewards ==> r == Err(InsufficientRewards))
    ensures r.Ok? <==>
      && rec.Some? && Claimable(rec.value).Some?
      && 0 < Claimable(rec.value).value && minClaim <= Claimable(rec.value).value
      && IsI128(pool.totalRewards - pool.distributedRewards)
      && Claimable(rec.value).value <= pool.totalRewards - pool.distributedRewards
    ensures r.Ok? ==> rec.Some? && rec.value.totalClaimed + r.value == rec.value.totalEarned
    ensures r.Ok? ==> 0 < r.value && minClaim <= r.value
    ensures r.Ok? ==> pool.distributedRewards + r.value <= pool.totalRewards
    ensures r.Err? ==> r.error in {NoRewardsToClaim, BelowMinimumClaim, InsufficientRewards}
  {
    if rec.None? then Err(NoRewardsToClaim)
    else match Claimable(rec.value) {
      case None => Panic
      case Some(claimable) =>
        if claimable <= 0 then Err(NoRewardsToClaim)
        else if claimable < minClaim then Err(BelowMinimumClaim)
        else
          var available := pool.totalRewards - pool.distributedRewards;
          if !IsI128(available) then Panic
          else if claimable > available then Err(InsufficientRewards)
          else Ok(claimable)
    }
  }

  class RewardsContract {
    var config: Option<RewardConfig>
    var pool: RewardPool                              // RewardPool
    var userRewards: map<Address, UserRewardInfo>    // UserReward(user)
    var globalRewardRate: int                         // GlobalRewardRate
    var lastGlobalUpdate: int                         // LastGlobalUpdate
    var totalStakers: int                             // TotalStakers (u32)

    ghost predicate Valid()
      reads this
    {
      RewardsInvariant(config, pool, userRewards, globalRewardRate)
    }

    /** A freshly deployed contract with empty storage. */
    constructor ()
      ensures Valid()
      ensures config.None? && pool == DefaultRewardPool() && userRewards == map[]
      ensures globalRewardRate == 0 && lastGlobalUpdate == 0 && totalStakers == 0
    {
      config := None;
      pool := DefaultRewardPool();
      userRewards := map[];
      globalRewardRate := 0;
      lastGlobalUpdate := 0;
      totalStakers := 0;
    }

    method Initialize(admin: Address, stakingContract: Address, rewardToken: Address,
                      distributionPeriod: int, minClaimAmount: int, now: int)
      returns (r: Result<(), RewardError>)
      requires Valid() && distributionPeriod >= 0
      modifies this
      ensures Valid()
      ensures r == if old(config).Some? then Err(AlreadyInitialized) else Ok(())
      ensures !r.Ok? ==> unchanged(this)
      ensures r.Ok? ==>
        && config == Some(RewardConfig(admin, stakingContract, rewardToken, distributionPeriod, minClaimAmount, false))
        && pool == RewardPool(0, 0, now, 0)
        && globalRewardRate == 0 && lastGlobalUpdate == now && totalStakers == 0
        && userRewards == old(userRewards)
    {
      if config.Some? {
        return Err(AlreadyInitialized);
      }
      config := Some(RewardConfig(admin, stakingContract, rewardToken, distributionPeriod, minClaimAmount, false));
      pool := RewardPool(0, 0, now, 0);
      globalRewardRate := 0;
      lastGlobalUpdate := now;
      totalStakers := 0;
      r := Ok(());
    }

    method FundRewards(admin: Address, amount: int) returns (r: Result<(), RewardError>)
      requires Valid()
      modifies this
      ensures Valid()
      ensures r == if old(config).None? then Err(NotInitialized)
                   else if old(config).value.admin != admin then Err(Unauthorized)
                   else if old(config).value.emergencyPause then Err(ContractPaused)
                   else if FundedPool(old(pool), amount, old(config).value.distributionPeriod).None? then Panic
                   else Ok(())
      ensures !r.Ok? ==> unchanged(this)
      ensures r.Ok? ==> pool == FundedPool(old(pool), amount, old(config).value.distributionPeriod).value
      ensures config == old(config) && userRewards == old(userRewards)
      ensures globalRewardRate == old(globalRewardRate) && lastGlobalUpdate == old(lastGlobalUpdate)
      ensures totalStakers == old(totalStakers)
    {
      if config.None? {
        return Err(NotInitialized);
      }
      var c := config.value;
      if c.admin != admin {
        return Err(Unauthorized);
      }
      if c.emergencyPause {
        return Err(ContractPaused);
      }
      var funded := FundedPool(pool, amount, c.distributionPeriod);
      if funded.None? {
        return Panic;
      }
      pool := funded.value;
      r := Ok(());
    }

    /** The internal `update_global_rewards`; `false` where it traps (the caller's call is then rolled back). */
    method UpdateGlobalRewards(now: int) returns (ok: bool)
      requires Valid() && config.Some?
      modifies this
      ensures Valid()
      ensures ok <==> AdvanceGlobal(old(globalRewardRate), old(lastGlobalUpdate), old(pool).distributionRate, now).Some?
      ensures ok ==> (globalRewardRate, lastGlobalUpdate)
                     == AdvanceGlobal(old(globalRewardRate), old(lastGlobalUpdate), old(pool).distributionRate, now).value
      ensures !ok ==> unchanged(this)
      ensures config == old(config) && pool == old(pool) && userRewards == old(userRewards)
      ensures totalStakers == old(totalStakers)
    {
      var advanced := AdvanceGlobal(globalRewardRate, lastGlobalUpdate, pool.distributionRate, now);
      if advanced.None? {
        return false;
      }
      globalRewardRate, lastGlobalUpdate := advanced.value.0, advanced.value.1;
      ok := true;
    }

    /**
     * `update_user_reward`, called by the staking contract. `currentContract`
     * is the host's `current_contract_address()`, which the source compares
     * with the configured staking contract.
     */
    method UpdateUserReward(currentContract: Address, user: Address, stakedAmount: int, multiplier: int, now: int)
      returns (r: Result<(), RewardError>)
      requires Valid()
      modifies this
      ensures Valid()
      ensures old(config).None? ==> r == Err(NotInitialized)
      ensures old(config).Some? && currentContract != old(config).value.stakingContract ==> r == Err(StakingContractOnly)
      ensures old(config).Some? && currentContract == old(config).value.stakingContract ==>
        var advanced := AdvanceGlobal(old(globalRewardRate), old(lastGlobalUpdate), old(pool).distributionRate, now);
        var rec := if user in old(userRewards) then old(userRewards)[user] else UserRewardInfo(0, 0, now, multiplier);
        && (advanced.None? ==> r == Panic)
        && (advanced.Some? ==>
              var updated := AccruedRecord(rec, stakedAmount, advanced.value.0, now, multiplier);
              && (updated.None? ==> r == Panic)
              && (updated.Some? ==>
                    && r == Ok(())
                    && userRewards == old(userRewards)[user := updated.value]
                    && (globalRewardRate, lastGlobalUpdate) == advanced.value))
      ensures !r.Ok? ==> unchanged(this)
      ensures config == old(config) && pool == old(pool) && totalStakers == old(totalStakers)
    {
      if config.None? {
        return Err(NotInitialized);
      }
      if currentContract != config.value.stakingContract {
        return Err(StakingContractOnly);
      }
      var advanced := AdvanceGlobal(globalRewardRate, lastGlobalUpdate, pool.distributionRate, now);
      if advanced.None? {
        return Panic;
      }
      var rec := if user in userRewards then userRewards[user] else UserRewardInfo(0, 0, now, multiplier);
      var updated := AccruedRecord(rec, stakedAmount, advanced.value.0, now, multiplier);
      if updated.None? {
        return Panic;
      }
      InvariantAfterAccrual(config, pool, userRewards, globalRewardRate, advanced.value.0, user, updated.value);
      userRewards := userRewards[user := updated.value];
      globalRewardRate, lastGlobalUpdate := advanced.value.0, advanced.value.1;
      r := Ok(());
    }

    method ClaimRewards(user: Address) returns (r: Result<int, RewardError>)
      requires Valid()
      modifies this
      ensures Valid()
      ensures old(config).None? ==> r == Err(NotInitialized)
      ensures old(config).Some? && old(config).value.emergencyPause ==> r == Err(ContractPaused)
      ensures old(config).Some? && !old(config).value.emergencyPause ==>
        r == ClaimCheck(old(config).value.minClaimAmount,
                        if user in old(userRewards) then Some(old(userRewards)[user]) else None, old(pool))
      ensures !r.Ok? ==> unchanged(this)
      ensures r.Ok? ==>
        && userRewards == old(userRewards)[user := old(userRewards)[user].(totalClaimed := old(userRewards)[user].totalEarned)]
        && pool == old(pool).(distributedRewards := old(pool).distributedRewards + r.value)
        && pool.distributedRewards <= pool.totalRewards
        && Claimable(userRewards[user]) == Some(0)
        && config == old(config) && globalRewardRate == old(globalRewardRate)
        && lastGlobalUpdate == old(lastGlobalUpdate) && totalStakers == old(totalStakers)
    {
      if config.None? {
        return Err(NotInitialized);
      }
      if config.value.emergencyPause {
        return Err(ContractPaused);
      }
      r := ClaimCheck(config.value.minClaimAmount, if user in userRewards then Some(userRewards[user]) else None, pool);
      if !r.Ok? {
        return;
      }
      var rec := userRewards[user];
      DistributedNonNegative(config, pool, userRewards, globalRewardRate);
      InvariantAfterClaim(config, pool, userRewards, globalRewardRate, user, r.value);
      userRewards := userRewards[user := rec.(totalClaimed := rec.totalClaimed + r.value)];
      pool := pool.(distributedRewards := pool.distributedRewards + r.value);
    }

    /** `get_claimable_rewards`: earned minus claimed, the default record's 0 for an unknown user. */
    function GetClaimableRewards(user: Address): (r: Result<int, RewardError>)
      reads this
      ensures user !in userRewards ==> r == Ok(0)
      ensures user in userRewards ==>
        match Claimable(userRewards[user]) {
          case Some(c) => r == Ok(c)
          case None => r == Panic
        }
    {
      var rec := if user in userRewards then userRewards[user] else DefaultUserRewardInfo();
      match Claimable(rec) {
        case Some(c) => Ok(c)
        case None => Panic
      }
    }

    method SetEmergencyPause(admin: Address, paused: bool) returns (r: Result<(), RewardError>)
      requires Valid()
      modifies this
      ensures Valid()
      ensures r == if old(config).None? then Err(NotInitialized)
                   else if old(config).value.admin != admin then Err(Unauthorized)
                   else Ok(())
      ensures !r.Ok? ==> unchanged(this)
      ensures r.Ok? ==> config == Some(old(config).value.(emergencyPause := paused))
      ensures pool == old(pool) && userRewards == old(userRewards) && globalRewardRate == old(globalRewardRate)
      ensures lastGlobalUpdate == old(lastGlobalUpdate) && totalStakers == old(totalStakers)
    {
      if config.None? {
        return Err(NotInitialized);
      }
      if config.value.admin != admin {
        return Err(Unauthorized);
      }
      config := Some(config.value.(emergencyPause := paused));
      r := Ok(());
    }

    method UpdateMinClaimAmount(admin: Address, newAmount: int) returns (r: Result<(), RewardError>)
      requires Valid()
      modifies this
      ensures Valid()
      ensures r == if old(config).None? then Err(NotInitialized)
                   else if old(config).value.admin != admin then Err(Unauthorized)
                   else Ok(())
      ensures !r.Ok? ==> unchanged(this)
      ensures r.Ok? ==> config == Some(old(config).value.(minClaimAmount := newAmount))
      ensures pool == old(pool) && userRewards == old(userRewards) && globalRewardRate == old(globalRewardRate)
      ensures lastGlobalUpdate == old(lastGlobalUpdate) && totalStakers == old(totalStakers)
    {
      if config.None? {
        return Err(NotInitialized);
      }
      if config.value.admin != admin {
        return Err(Unauthorized);
      }
      config := Some(config.value.(minClaimAmount := newAmount));
      r := Ok(());
    }

    /** Stores the new period; the distribution rate is recomputed only for a positive period. */
    method UpdateDistributionPeriod(admin: Address, newPeriod: int) returns (r: Result<(), RewardError>)
      requires Valid() && newPeriod >= 0
      modifies this
      ensures Valid()
      ensures old(config).None? ==> r == Err(NotInitialized)
      ensures old(config).Some? && old(config).value.admin != admin ==> r == Err(Unauthorized)
      ensures old(config).Some? && old(config).value.admin == admin ==>
        var available := old(pool).totalRewards - old(pool).distributedRewards;
        r == if newPeriod > 0 && !IsI128(available) then Panic else Ok(())
      ensures !r.Ok? ==> unchanged(this)
      ensures r.Ok? ==> config == Some(old(config).value.(distributionPeriod := newPeriod))
      ensures r.Ok? && newPeriod == 0 ==> pool == old(pool)
      ensures r.Ok? && newPeriod > 0 ==>
        && pool == old(pool).(distributionRate := pool.distributionRate)
        && SpreadsOver(pool.distributionRate, pool.totalRewards - pool.distributedRewards, newPeriod)
      ensures userRewards == old(userRewards) && globalRewardRate == old(globalRewardRate)
      ensures lastGlobalUpdate == old(lastGlobalUpdate) && totalStakers == old(totalStakers)
    {
      if config.None? {
        return Err(NotInitialized);
      }
      if config.value.admin != admin {
        return Err(Unauthorized);
      }
      if newPeriod > 0 {
        var available := pool.totalRewards - pool.distributedRewards;
        if !IsI128(available) {
          return Panic;
        }
        pool := pool.(distributionRate := DistributionRate(available, newPeriod));
      }
      config := Some(config.value.(distributionPeriod := newPeriod));
      r := Ok(());
    }

    /** `distribute_rewards`: the admin and pause guards and the global catch-up; returns `TotalStakers`. */
    method DistributeRewards(admin: Address, now: int) returns (r: Result<int, RewardError>)
      requires Valid()
      modifies this
      ensures Valid()
      ensures old(config).None? ==> r == Err(NotInitialized)
      ensures old(config).Some? ==>
        var c := old(config).value;
        var advanced := AdvanceGlobal(old(globalRewardRate), old(lastGlobalUpdate), old(pool).distributionRate, now);
        r == if c.admin != admin then Err(Unauthorized)
             else if c.emergencyPause then Err(ContractPaused)
             else if advanced.None? then Panic
             else Ok(old(totalStakers))
      ensures !r.Ok? ==> unchanged(this)
      ensures r.Ok? ==> (globalRewardRate, lastGlobalUpdate)
                        == AdvanceGlobal(old(globalRewardRate), old(lastGlobalUpdate), old(pool).distributionRate, now).value
      ensures config == old(config) && pool == old(pool) && userRewards == old(userRewards)
      ensures totalStakers == old(totalStakers)
    {
      if config.None? {
        return Err(NotInitialized);
      }
      if config.value.admin != admin {
        return Err(Unauthorized);
      }
      if config.value.emergencyPause {
        return Err(ContractPaused);
      }
      var ok := UpdateGlobalRewards(now);
      if !ok {
        return Panic;
      }
      r := Ok(totalStakers);
    }
  }

  /**
   * Claiming twice in a row: whatever the first claim returns, the second
   * one finds nothing left and fails with `NoRewardsToClaim`.
   */
  method ClaimTwice(contract: RewardsContract, user: Address) returns (first: Result<int, RewardError>, second: Result<int, RewardError>)
    requires contract.Valid()
    modifies contract
    ensures first.Ok? ==> second == Err(NoRewardsToClaim)
  {
    first := contract.ClaimRewards(user);
    second := contract.ClaimRewards(user);
  }
}
