/**
 * The staking contract: one stake per user, locked for a period taken from a
 * configured table that also gives the stake's reward multiplier; a running
 * `TotalStaked` counter; rewards computed from whole years staked with
 * checked i128 arithmetic; unstaking after the lock and compounding restakes.
 */
module Staking {
  import opened Soroban
  import opened MapSum
  import Shared

  datatype StakeInfo = StakeInfo(
    amount: int,
    timestamp: int,
    lockPeriod: int,
    rewardMultiplier: int   // basis points, 10000 = 1x
  )

  datatype StakingConfig = StakingConfig(
    admin: Address,
    aquaToken: Address,
    blubToken: Address,
    minStakeAmount: int,
    baseRewardRate: int,      // annual rate in basis points
    lockPeriods: seq<int>,    // seconds
    rewardMultipliers: seq<int>,
    emergencyPause: bool
  )

  datatype StakingError =
    | NotInitialized
    | AlreadyInitialized
    | Unauthorized
    | InsufficientAmount
    | InsufficientBalance
    | InvalidLockPeriod
    | StakeNotFound
    | LockPeriodNotExpired
    | ContractPaused
    | InvalidConfiguration

  function StakeAmount(s: StakeInfo): int { s.amount }

  /** The index of the first occurrence of `x` in `s`, like Rust's `Iterator::position`. */
  function Position(s: seq<int>, x: int): (r: Option<nat>)
    ensures r.Some? ==> r.value < |s| && s[r.value] == x && x !in s[..r.value]
    ensures r.None? <==> x !in s
  {
    PositionFrom(s, x, 0)
  }

  /** The search from index `i` on, knowing that `x` is not among the first `i` elements. */
  function PositionFrom(s: seq<int>, x: int, i: nat): (r: Option<nat>)
    requires i <= |s|
    requires x !in s[..i]
    ensures r.Some? ==> i <= r.value < |s| && s[r.value] == x && x !in s[..r.value]
    ensures r.None? <==> x !in s
    decreases |s| - i
  {
    if i == |s| then (assert s[..i] == s; None)
    else if s[i] == x then Some(i)
    else (assert s[..i + 1] == s[..i] + [s[i]]; PositionFrom(s, x, i + 1))
  }

  /** The table lengths agree, which `initialize` checks. */
  predicate ConfigValid(c: StakingConfig) {
    |c.lockPeriods| == |c.rewardMultipliers|
  }

  /** The stake's multiplier is the table entry of the first occurrence of its lock period. */
  predicate TableMultiplier(c: StakingConfig, s: StakeInfo) {
    match Position(c.lockPeriods, s.lockPeriod)
    case None => false
    case Some(i) => i < |c.rewardMultipliers| && s.rewardMultiplier == c.rewardMultipliers[i]
  }

  /**
   * The staking storage invariant: nothing is staked before initialization;
   * the multiplier tables have equal length; every stake carries the
   * multiplier its lock period selects; and `TotalStaked` is the sum of all
   * stake amounts.
   */
  ghost predicate StakingInvariant(config: Option<StakingConfig>, stakes: map<Address, StakeInfo>, totalStaked: int) {
    && (config.None? ==> stakes == map[] && totalStaked == 0)
    && (config.Some? ==> ConfigValid(config.value))
    && (config.Some? ==> forall u :: u in stakes ==> TableMultiplier(config.value, stakes[u]))
    && totalStaked == Sum(stakes, StakeAmount)
  }

  /** Writing a stake with its table multiplier moves the total by the change in amount. */
  lemma InvariantAfterWrite(c: StakingConfig, stakes: map<Address, StakeInfo>, total: int, user: Address, s: StakeInfo)
    requires StakingInvariant(Some(c), stakes, total) && TableMultiplier(c, s)
    ensures user in stakes ==>
      StakingInvariant(Some(c), stakes[user := s], total - stakes[user].amount + s.amount)
    ensures user !in stakes ==> StakingInvariant(Some(c), stakes[user := s], total + s.amount)
  {
    SumUpdate(stakes, user, s, StakeAmount);
  }

  /** Removing a stake subtracts its amount from the total. */
  lemma InvariantAfterRemove(c: StakingConfig, stakes: map<Address, StakeInfo>, total: int, user: Address)
    requires StakingInvariant(Some(c), stakes, total) && user in stakes
    ensures StakingInvariant(Some(c), stakes - {user}, total - stakes[user].amount)
  {
    SumDelete(stakes, user, StakeAmount);
  }

  /** `u64::saturating_sub`. */
  function SaturatingSub(a: int, b: int): (d: int)
    ensures d >= 0
    ensures a >= b ==> a == b + d
    ensures a < b ==> d == 0
  {
    if a >= b then a - b else 0
  }

  /**
   * `time_staked * 1_000_000 / (365 * 24 * 60 * 60 * 1_000_000)`: the number of
   * whole 365-day years in `timeStaked` (the six-digit scaling cancels).
   */
  function YearsStaked(timeStaked: int): (y: int)
    requires timeStaked >= 0
    ensures y == timeStaked / Shared.SECONDS_PER_YEAR
    ensures y * Shared.SECONDS_PER_YEAR <= timeStaked < (y + 1) * Shared.SECONDS_PER_YEAR
  {
    DivScaled(timeStaked);
    (timeStaked * 1_000_000) / (365 * 24 * 60 * 60 * 1_000_000)
  }

  lemma DivScaled(a: int)
    requires a >= 0
    ensures (a * 1_000_000) / (365 * 24 * 60 * 60 * 1_000_000) == a / Shared.SECONDS_PER_YEAR
  {
    var q, r := a / 31_536_000, a % 31_536_000;
    assert a * 1_000_000 == q * 31_536_000_000_000 + r * 1_000_000;
    DivUnique(a * 1_000_000, 31_536_000_000_000, q, r * 1_000_000);
  }

  lemma DivUnique(n: int, d: int, q: int, r: int)
    requires d > 0 && n == q * d + r && 0 <= r < d
    ensures n / d == q
  {
    var q' := n / d;
    var r' := n % d;
    assert n == q' * d + r';
    if q' < q {
      MulMonotone(q' + 1, q, d);
    } else if q' > q {
      MulMonotone(q + 1, q', d);
    }
  }

  /**
   * `calculate_user_reward`: `amount * rate * years / 10^10 * multiplier / 10^4`,
   * each product by `checked_mul` (overflow is `InvalidConfiguration`), each
   * quotient truncating, and the result clamped at zero.
   */
  function CalculateUserReward(config: StakingConfig, stake: StakeInfo, now: int): (r: Result<int, StakingError>)
    ensures !r.Panic?
    ensures r.Err? ==> r.error == InvalidConfiguration
    ensures var years := YearsStaked(SaturatingSub(now, stake.timestamp));
      r.Err? <==> ProductOverflows(stake.amount, config.baseRewardRate, years, stake.rewardMultiplier)
    ensures r.Ok? ==> r.value >= 0
  {
    var years := YearsStaked(SaturatingSub(now, stake.timestamp));
    RewardFormula(stake.amount, config.baseRewardRate, years, stake.rewardMultiplier)
  }

  /**
   * Whether one of the three checked products of `calculate_user_reward`
   * leaves i128: `amount * rate`, then that times `years`, then the scaled
   * quotient times `multiplier`.
   */
  predicate ProductOverflows(amount: int, rate: int, years: int, multiplier: int) {
    || !IsI128(amount * rate)
    || !IsI128(amount * rate * years)
    || !IsI128(RustDiv(amount * rate * years, 10_000_000_000) * multiplier)
  }

  /** The checked arithmetic of `calculate_user_reward` once the whole years are known. */
  function RewardFormula(amount: int, rate: int, years: int, multiplier: int): (r: Result<int, StakingError>)
    ensures !r.Panic?
    ensures r.Err? ==> r.error == InvalidConfiguration
    ensures r.Err? <==> ProductOverflows(amount, rate, years, multiplier)
    ensures r.Ok? ==> r.value >= 0
  {
    var p1 := amount * rate;
    if !IsI128(p1) then Err(InvalidConfiguration)
    else
      var p2 := p1 * years;
      if !IsI128(p2) then Err(InvalidConfiguration)
      else
        var base := RustDiv(p2, 10_000_000_000);
        var p3 := base * multiplier;
        if !IsI128(p3) then Err(InvalidConfiguration)
        else Ok(Max(RustDiv(p3, 10000), 0))
  }

  /**
   * Rewards accrue only per whole year: a stake younger than one year earns
   * nothing (the call fails only if `amount * rate` itself overflows).
   */
  lemma RewardBeforeOneYear(config: StakingConfig, stake: StakeInfo, now: int)
    requires now < stake.timestamp + Shared.SECONDS_PER_YEAR
    ensures CalculateUserReward(config, stake, now) ==
      if IsI128(stake.amount * config.baseRewardRate) then Ok(0) else Err(InvalidConfiguration)
  {
    var t := SaturatingSub(now, stake.timestamp);
    assert YearsStaked(t) == 0;
  }

  /**
   * With non-negative principal, rate and multiplier, the computed reward never
   * exceeds the exact value `amount * rate * years * multiplier / 10^14`.
   */
  lemma RewardBelowExact(config: StakingConfig, stake: StakeInfo, now: int)
    requires stake.amount >= 0 && config.baseRewardRate >= 0 && stake.rewardMultiplier >= 0
    requires CalculateUserReward(config, stake, now).Ok?
    ensures var years := YearsStaked(SaturatingSub(now, stake.timestamp));
      CalculateUserReward(config, stake, now).value * 100_000_000_000_000
        <= stake.amount * config.baseRewardRate * years * stake.rewardMultiplier
  {
    var years := YearsStaked(SaturatingSub(now, stake.timestamp));
    FormulaBelowExact(stake.amount, config.baseRewardRate, years, stake.rewardMultiplier);
  }

  lemma FormulaBelowExact(amount: int, rate: int, years: int, m: int)
    requires amount >= 0 && rate >= 0 && years >= 0 && m >= 0
    requires RewardFormula(amount, rate, years, m).Ok?
    ensures RewardFormula(amount, rate, years, m).value * 100_000_000_000_000 <= amount * rate * years * m
  {
    FormulaValue(amount, rate, years, m);
    var p2 := amount * rate * years;
    var base := Quot(p2, 10_000_000_000);
    MulMonotone(base * 10_000_000_000, p2, m);
    var p3 := base * m;
    var r := Quot(p3, 10000);
    MulMonotone(r * 10000, p3, 10_000_000_000);
  }

  /** For non-negative inputs both truncating divisions are floor divisions and the clamp does nothing. */
  lemma FormulaValue(amount: int, rate: int, years: int, m: int)
    requires amount >= 0 && rate >= 0 && years >= 0 && m >= 0
    requires RewardFormula(amount, rate, years, m).Ok?
    ensures amount * rate >= 0 && amount * rate * years >= 0
    ensures (amount * rate * years) / 10_000_000_000 * m >= 0
    ensures RewardFormula(amount, rate, years, m).value == (amount * rate * years) / 10_000_000_000 * m / 10000
  {
    var p1 := amount * rate;
    assert p1 >= 0;
    var p2 := p1 * years;
    assert p2 >= 0;
    var base := Quot(p2, 10_000_000_000);
    var p3 := base * m;
    assert p3 >= 0;
  }

  /**
   * With non-negative principal, rate and multiplier, waiting longer never
   * lowers the reward (as long as neither computation overflows).
   */
  lemma RewardMonotoneInTime(config: StakingConfig, stake: StakeInfo, now: int, later: int)
    requires stake.amount >= 0 && config.baseRewardRate >= 0 && stake.rewardMultiplier >= 0
    requires now <= later
    requires CalculateUserReward(config, stake, now).Ok? && CalculateUserReward(config, stake, later).Ok?
    ensures CalculateUserReward(config, stake, now).value <= CalculateUserReward(config, stake, later).value
  {
    var t, t' := SaturatingSub(now, stake.timestamp), SaturatingSub(later, stake.timestamp);
    DivMonotone(t, t', Shared.SECONDS_PER_YEAR);
    FormulaMonotone(stake.amount, config.baseRewardRate, YearsStaked(t), YearsStaked(t'), stake.rewardMultiplier);
  }

  lemma FormulaMonotone(amount: int, rate: int, y: int, y': int, m: int)
    requires amount >= 0 && rate >= 0 && 0 <= y <= y' && m >= 0
    requires RewardFormula(amount, rate, y, m).Ok? && RewardFormula(amount, rate, y', m).Ok?
    ensures RewardFormula(amount, rate, y, m).value <= RewardFormula(amount, rate, y', m).value
  {
    FormulaValue(amount, rate, y, m);
    FormulaValue(amount, rate, y', m);
    var p1 := amount * rate;
    MulMonotone(y, y', p1);
    var p2, p2' := p1 * y, p1 * y';
    DivMonotone(p2, p2', 10_000_000_000);
    var b, b' := Quot(p2, 10_000_000_000), Quot(p2', 10_000_000_000);
    MulMonotone(b, b', m);
    DivMonotone(b * m, b' * m, 10000);
  }

  /**
   * The checks `stake` makes after loading the configuration, in their order:
   * the pause flag, the minimum amount, a lock period from the table, one
   * stake per user, and the `TotalStaked` addition (which traps on overflow).
   */
  function StakeCheck(c: StakingConfig, stakes: map<Address, StakeInfo>, total: int, user: Address,
                      amount: int, lockPeriod: int): (r: Result<(), StakingError>)
    ensures r.Ok? <==> !c.emergencyPause && amount >= c.minStakeAmount && lockPeriod in c.lockPeriods
                       && user !in stakes && IsI128(total + amount)
    ensures c.emergencyPause ==> r == Err(ContractPaused)
    ensures !c.emergencyPause && amount < c.minStakeAmount ==> r == Err(InsufficientAmount)
    ensures !c.emergencyPause && amount >= c.minStakeAmount && lockPeriod !in c.lockPeriods ==> r == Err(InvalidLockPeriod)
    ensures !c.emergencyPause && amount >= c.minStakeAmount && lockPeriod in c.lockPeriods && user in stakes ==>
      r == Err(AlreadyInitialized)
  {
    if c.emergencyPause then Err(ContractPaused)
    else if amount < c.minStakeAmount then Err(InsufficientAmount)
    else if Position(c.lockPeriods, lockPeriod).None? then Err(InvalidLockPeriod)
    else if user in stakes then Err(AlreadyInitialized)
    else if !IsI128(total + amount) then Panic
    else Ok(())
  }

  /**
   * What `unstake` pays out for the stake `s` at time `now`: the principal
   * plus the pending reward, once the lock (`timestamp + lock_period`, a u64
   * sum) has expired.
   */
  function UnstakeReturn(c: StakingConfig, s: StakeInfo, total: int, now: int): (r: Result<int, StakingError>)
    ensures r.Ok? ==> s.timestamp + s.lockPeriod <= now
    ensures r.Ok? ==> r.value >= s.amount && IsI128(r.value) && IsI128(total - s.amount)
    ensures r.Ok? ==> CalculateUserReward(c, s, now).Ok? && r.value == s.amount + CalculateUserReward(c, s, now).value
    ensures IsU64(s.timestamp + s.lockPeriod) && now < s.timestamp + s.lockPeriod ==> r == Err(LockPeriodNotExpired)
    ensures r.Err? ==> r.error in {LockPeriodNotExpired, InvalidConfiguration}
    ensures IsU64(s.timestamp + s.lockPeriod) && now >= s.timestamp + s.lockPeriod && CalculateUserReward(c, s, now).Err? ==>
              r == Err(InvalidConfiguration)
    ensures r.Ok? <==>
      && IsU64(s.timestamp + s.lockPeriod) && now >= s.timestamp + s.lockPeriod
      && CalculateUserReward(c, s, now).Ok?
      && IsI128(s.amount + CalculateUserReward(c, s, now).value) && IsI128(total - s.amount)
  {
    var unlockTime := s.timestamp + s.lockPeriod;
    if !IsU64(unlockTime) then Panic
    else if now < unlockTime then Err(LockPeriodNotExpired)
    else match CalculateUserReward(c, s, now) {
      case Ok(reward) =>
        if !IsI128(s.amount + reward) || !IsI128(total - s.amount) then Panic
        else Ok(s.amount + reward)
      case Err(e) => Err(e)
      case Panic => Panic
    }
  }

  /**
   * The reward `restake` compounds into the stake `s`: the pending reward,
   * provided the new lock period is in the table and neither the stake nor
   * `TotalStaked` overflows when it is added.
   */
  function RestakeReward(c: StakingConfig, s: StakeInfo, total: int, newLockPeriod: int, now: int)
    : (r: Result<int, StakingError>)
    ensures newLockPeriod !in c.lockPeriods ==> r == Err(InvalidLockPeriod)
    ensures r.Ok? ==> newLockPeriod in c.lockPeriods
    ensures r.Ok? ==> r.value >= 0 && r == CalculateUserReward(c, s, now)
    ensures r.Ok? ==> IsI128(s.amount + r.value) && IsI128(total + r.value)
    ensures r.Err? ==> r.error in {InvalidLockPeriod, InvalidConfiguration}
    ensures newLockPeriod in c.lockPeriods && CalculateUserReward(c, s, now).Err? ==> r == Err(InvalidConfiguration)
    ensures r.Ok? <==>
      && newLockPeriod in c.lockPeriods
      && CalculateUserReward(c, s, now).Ok?
      && IsI128(s.amount + CalculateUserReward(c, s, now).value) && IsI128(total + CalculateUserReward(c, s, now).value)
  {
    if Position(c.lockPeriods, newLockPeriod).None? then Err(InvalidLockPeriod)
    else match CalculateUserReward(c, s, now) {
      case Ok(reward) =>
        if !IsI128(s.amount + reward) || !IsI128(total + reward) then Panic
        else Ok(reward)
      case Err(e) => Err(e)
      case Panic => Panic
    }
  }

  class StakingContract {
    var config: Option<StakingConfig>
    var stakes: map<Address, StakeInfo>       // UserStake(user)
    var totalStaked: int                        // TotalStaked
    var rewardPool: int                         // RewardPool
    var lastRewardUpdate: int                   // LastRewardUpdate

    ghost predicate Valid()
      reads this
    {
      StakingInvariant(config, stakes, totalStaked)
    }

    /** A freshly deployed contract with empty storage. */
    constructor ()
      ensures Valid()
      ensures config.None? && stakes == map[] && totalStaked == 0
      ensures rewardPool == 0 && lastRewardUpdate == 0
    {
      config := None;
      stakes := map[];
      totalStaked := 0;
      rewardPool := 0;
      lastRewardUpdate := 0;
    }

    method Initialize(admin: Address, aquaToken: Address, blubToken: Address, minStakeAmount: int,
                      baseRewardRate: int, lockPeriods: seq<int>, rewardMultipliers: seq<int>, now: int)
      returns (r: Result<(), StakingError>)
      requires Valid()
      modifies this
      ensures Valid()
      ensures r == if old(config).Some? then Err(AlreadyInitialized)
                   else if |lockPeriods| != |rewardMultipliers| then Err(InvalidConfiguration)
                   else Ok(())
      ensures !r.Ok? ==> unchanged(this)
      ensures r.Ok? ==>
        && config == Some(StakingConfig(admin, aquaToken, blubToken, minStakeAmount, baseRewardRate,
                                        lockPeriods, rewardMultipliers, false))
        && stakes == map[] && totalStaked == 0 && rewardPool == 0 && lastRewardUpdate == now
    {
      if config.Some? {
        return Err(AlreadyInitialized);
      }
      if |lockPeriods| != |rewardMultipliers| {
        return Err(InvalidConfiguration);
      }
      config := Some(StakingConfig(admin, aquaToken, blubToken, minStakeAmount, baseRewardRate,
                                   lockPeriods, rewardMultipliers, false));
      totalStaked := 0;
      rewardPool := 0;
      lastRewardUpdate := now;
      r := Ok(());
    }

    method Stake(user: Address, amount: int, lockPeriod: int, now: int) returns (r: Result<(), StakingError>)
      requires Valid()
      modifies this
      ensures Valid()
      ensures old(config).None? ==> r == Err(NotInitialized)
      ensures old(config).Some? ==> r == StakeCheck(old(config).value, old(stakes), old(totalStaked), user, amount, lockPeriod)
      ensures !r.Ok? ==> unchanged(this)
      ensures r.Ok? ==>
        var c := old(config).value;
        && stakes == old(stakes)[user := StakeInfo(amount, now, lockPeriod,
                                                   c.rewardMultipliers[Position(c.lockPeriods, lockPeriod).value])]
        && totalStaked == old(totalStaked) + amount
        && config == old(config) && rewardPool == old(rewardPool) && lastRewardUpdate == old(lastRewardUpdate)
    {
      if config.None? {
        return Err(NotInitialized);
      }
      var c := config.value;
      r := StakeCheck(c, stakes, totalStaked, user, amount, lockPeriod);
      if !r.Ok? {
        return;
      }
      var stake := StakeInfo(amount, now, lockPeriod, c.rewardMultipliers[Position(c.lockPeriods, lockPeriod).value]);
      InvariantAfterWrite(c, stakes, totalStaked, user, stake);
      stakes := stakes[user := stake];
      totalStaked := totalStaked + amount;
    }

    method Unstake(user: Address, now: int) returns (r: Result<int, StakingError>)
      requires Valid()
      modifies this
      ensures Valid()
      ensures old(config).None? ==> r == Err(NotInitialized)
      ensures old(config).Some? && user !in old(stakes) ==> r == Err(StakeNotFound)
      ensures old(config).Some? && user in old(stakes) ==>
        r == UnstakeReturn(old(config).value, old(stakes)[user], old(totalStaked), now)
      ensures !r.Ok? ==> unchanged(this)
      ensures r.Ok? ==>
        && stakes == old(stakes) - {user}
        && totalStaked == old(totalStaked) - old(stakes)[user].amount
        && config == old(config) && rewardPool == old(rewardPool) && lastRewardUpdate == old(lastRewardUpdate)
    {
      if config.None? {
        return Err(NotInitialized);
      }
      if user !in stakes {
        return Err(StakeNotFound);
      }
      var s := stakes[user];
      r := UnstakeReturn(config.value, s, totalStaked, now);
      if !r.Ok? {
        return;
      }
      InvariantAfterRemove(config.value, stakes, totalStaked, user);
      stakes := stakes - {user};
      totalStaked := totalStaked - s.amount;
    }

    method Restake(user: Address, newLockPeriod: int, now: int) returns (r: Result<(), StakingError>)
      requires Valid()
      modifies this
      ensures Valid()
      ensures old(config).None? ==> r == Err(NotInitialized)
      ensures old(config).Some? && old(config).value.emergencyPause ==> r == Err(ContractPaused)
      ensures old(config).Some? && !old(config).value.emergencyPause && user !in old(stakes) ==> r == Err(StakeNotFound)
      ensures old(config).Some? && !old(config).value.emergencyPause && user in old(stakes) ==>
        var reward := RestakeReward(old(config).value, old(stakes)[user], old(totalStaked), newLockPeriod, now);
        r == if reward.Ok? then Ok(()) else if reward.Err? then Err(reward.error) else Panic
      ensures !r.Ok? ==> unchanged(this)
      ensures r.Ok? ==>
        var c := old(config).value;
        var s := old(stakes)[user];
        var reward := RestakeReward(c, s, old(totalStaked), newLockPeriod, now).value;
        && stakes == old(stakes)[user := StakeInfo(s.amount + reward, now, newLockPeriod,
                                                   c.rewardMultipliers[Position(c.lockPeriods, newLockPeriod).value])]
        && totalStaked == old(totalStaked) + reward
        && config == old(config) && rewardPool == old(rewardPool) && lastRewardUpdate == old(lastRewardUpdate)
    {
      if config.None? {
        return Err(NotInitialized);
      }
      var c := config.value;
      if c.emergencyPause {
        return Err(ContractPaused);
      }
      if user !in stakes {
        return Err(StakeNotFound);
      }
      var s := stakes[user];
      var reward := RestakeReward(c, s, totalStaked, newLockPeriod, now);
      if reward.Err? {
        return Err(reward.error);
      }
      if reward.Panic? {
        return Panic;
      }
      var updated := StakeInfo(s.amount + reward.value, now, newLockPeriod,
                               c.rewardMultipliers[Position(c.lockPeriods, newLockPeriod).value]);
      InvariantAfterWrite(c, stakes, totalStaked, user, updated);
      stakes := stakes[user := updated];
      totalStaked := totalStaked + reward.value;
      r := Ok(());
    }

    /** `get_stake_balance`. */
    function GetStakeBalance(user: Address): (s: Option<StakeInfo>)
      reads this
      ensures s.Some? <==> user in stakes
      ensures s.Some? ==> s.value == stakes[user]
    {
      if user in stakes then Some(stakes[user]) else None
    }

    /** `calculate_rewards`: the pending reward of the caller's stake at time `now`. */
    function CalculateRewards(user: Address, now: int): (r: Result<int, StakingError>)
      reads this
      ensures user !in stakes ==> r == Err(StakeNotFound)
      ensures user in stakes && config.None? ==> r == Err(NotInitialized)
      ensures user in stakes && config.Some? ==> r == CalculateUserReward(config.value, stakes[user], now)
      ensures r.Ok? ==> r.value >= 0
    {
      if user !in stakes then Err(StakeNotFound)
      else if config.None? then Err(NotInitialized)
      else CalculateUserReward(config.value, stakes[user], now)
    }

    /** `get_total_staked`: the sum of every stored stake amount. */
    function GetTotalStaked(): (t: int)
      reads this
      requires Valid()
      ensures t == Sum(stakes, StakeAmount)
    {
      totalStaked
    }

    method SetEmergencyPause(admin: Address, paused: bool) returns (r: Result<(), StakingError>)
      requires Valid()
      modifies this
      ensures Valid()
      ensures r == if old(config).None? then Err(NotInitialized)
                   else if old(config).value.admin != admin then Err(Unauthorized)
                   else Ok(())
      ensures !r.Ok? ==> unchanged(this)
      ensures r.Ok? ==> config == Some(old(config).value.(emergencyPause := paused))
      ensures stakes == old(stakes) && totalStaked == old(totalStaked)
      ensures rewardPool == old(rewardPool) && lastRewardUpdate == old(lastRewardUpdate)
    {
      if config.None? {
        return Err(NotInitialized);
      }
      if config.value.admin != admin {
        return Err(Unauthorized);
      }
      config := Some(config.value.(emergencyPause := paused));
      r := Ok(());
    }

    method UpdateRewardRate(admin: Address, newRate: int) returns (r: Result<(), StakingError>)
      requires Valid()
      modifies this
      ensures Valid()
      ensures r == if old(config).None? then Err(NotInitialized)
                   else if old(config).value.admin != admin then Err(Unauthorized)
                   else Ok(())
      ensures !r.Ok? ==> unchanged(this)
      ensures r.Ok? ==> config == Some(old(config).value.(baseRewardRate := newRate))
      ensures stakes == old(stakes) && totalStaked == old(totalStaked)
      ensures rewardPool == old(rewardPool) && lastRewardUpdate == old(lastRewardUpdate)
    {
      if config.None? {
        return Err(NotInitialized);
      }
      if config.value.admin != admin {
        return Err(Unauthorized);
      }
      config := Some(config.value.(baseRewardRate := newRate));
      r := Ok(());
    }
  }

  /**
   * The unit test `test_unstake_after_lock_expires`: a one-day stake of
   * 10_000_000 at a 10% rate, unstaked one second after the lock ends, returns
   * exactly the principal (less than a year has passed) and empties the total.
   */
  method UnstakeAfterLockScenario(admin: Address, aquaToken: Address, blubToken: Address, user: Address)
    returns (total: Result<int, StakingError>, remaining: int)
    ensures total == Ok(10_000_000) && remaining == 0
  {
    var contract := new StakingContract();
    var init := contract.Initialize(admin, aquaToken, blubToken, 1_000_000, 1000, [86400], [10000], 0);
    var staked := contract.Stake(user, 10_000_000, 86400, 0);
    assert Position([86400], 86400) == Some(0);
    assert contract.stakes == map[user := StakeInfo(10_000_000, 0, 86400, 10000)];
    var early := contract.Unstake(user, 0);
    assert early == Err(LockPeriodNotExpired);
    RewardBeforeOneYear(contract.config.value, contract.stakes[user], 86401);
    total := contract.Unstake(user, 86401);
    remaining := contract.GetTotalStaked();
  }

  /**
   * The unit test `test_restake`: restaking after twelve hours onto the
   * one-week period keeps the amount and takes the 1.2x multiplier.
   */
  method RestakeScenario(admin: Address, aquaToken: Address, blubToken: Address, user: Address)
    returns (stake: Option<StakeInfo>)
    ensures stake == Some(StakeInfo(10_000_000, 43200, 604800, 12000))
  {
    var contract := new StakingContract();
    var init := contract.Initialize(admin, aquaToken, blubToken, 1_000_000, 1000,
                                    [86400, 604800], [10000, 12000], 0);
    var staked := contract.Stake(user, 10_000_000, 86400, 0);
    assert Position([86400, 604800], 86400) == Some(0);
    assert contract.stakes == map[user := StakeInfo(10_000_000, 0, 86400, 10000)];
    RewardBeforeOneYear(contract.config.value, contract.stakes[user], 43200);
    assert Position([86400, 604800], 604800) == Some(1);
    var restaked := contract.Restake(user, 604800, 43200);
    stake := contract.GetStakeBalance(user);
  }
}
