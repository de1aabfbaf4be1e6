/**
 * The liquidity contract: two-token pools with reserves and an LP supply,
 * proportional deposits and withdrawals with slippage limits, an integer
 * square root for the first mint, and LP staking with a lock-period
 * multiplier and a running `TotalLPStaked` counter.
 */
module Liquidity {
  import opened Soroban
  import opened MapSum

  datatype LiquidityPool = LiquidityPool(
    tokenA: Address,
    tokenB: Address,
    totalLiquidity: int,
    reserveA: int,
    reserveB: int,
    feeRate: int,          // basis points
    createdAt: int
  )

  datatype LPStakeInfo = LPStakeInfo(
    poolId: int,
    lpAmount: int,
    timestamp: int,
    lockPeriod: int,
    rewardMultiplier: int  // basis points
  )

  datatype LiquidityConfig = LiquidityConfig(
    admin: Address,
    stakingContract: Address,
    rewardsContract: Address,
    minLiquidity: int,
    defaultFeeRate: int,
    emergencyPause: bool
  )

  datatype LiquidityError =
    | NotInitialized
    | AlreadyInitialized
    | Unauthorized
    | PoolNotFound
    | InsufficientLiquidity
    | InvalidTokens
    | InsufficientReserves
    | SlippageTooHigh
    | ContractPaused
    | InvalidFeeRate
    | StakeNotFound
    | LockPeriodNotExpired

  /** The largest fee a pool may charge: 1000 bp, 10%. */
  const MAX_FEE_RATE: int := 1000

  function LpAmount(s: LPStakeInfo): int { s.lpAmount }

  // ---------------------------------------------------------------------
  // Integer square root

  /** `r` is the floor of the square root of `n`. */
  predicate IsFloorSqrt(r: int, n: int) {
    r >= 0 && r * r <= n < (r + 1) * (r + 1)
  }

  /** A non-negative number has only one floor square root. */
  lemma FloorSqrtUnique(r: int, s: int, n: int)
    requires IsFloorSqrt(r, n) && IsFloorSqrt(s, n)
    ensures r == s
  {
    if r < s {
      SquareMonotone(r + 1, s);
    } else if s < r {
      SquareMonotone(s + 1, r);
    }
  }

  lemma SquareMonotone(u: int, v: int)
    requires 0 <= u <= v
    ensures u * u <= v * v
  {
    MulMonotone(u, v, u);
    MulMonotone(u, v, v);
  }

  /**
   * One Babylonian step never undershoots: from any positive guess `x`,
   * `(x + n/x) / 2` is still at least the floor square root of `n`.
   */
  lemma BabylonianStep(n: int, x: int)
    requires n >= 0 && x >= 1
    ensures n < ((x + n / x) / 2 + 1) * ((x + n / x) / 2 + 1)
  {
    var q := Quot(n, x);
    var y := (x + q) / 2;
    StepBound(n, x, q, y);
  }

  /** The step bound without division: `q` is `n / x` and `y` is `(x + q) / 2`. */
  lemma StepBound(n: int, x: int, q: int, y: int)
    requires x >= 1 && q >= 0 && q * x <= n < (q + 1) * x && 2 * y <= x + q <= 2 * y + 1
    ensures n < (y + 1) * (y + 1)
  {
    var a, b := x, q + 1;
    AmGm(a, b);
    SquareMonotone(a + b, 2 * (y + 1));
    assert (2 * (y + 1)) * (2 * (y + 1)) == 4 * ((y + 1) * (y + 1));
    assert n < b * a;
  }

  lemma AmGm(a: int, b: int)
    ensures 4 * (a * b) <= (a + b) * (a + b)
  {
    assert (a + b) * (a + b) - 4 * (a * b) == (a - b) * (a - b);
  }

  /** When the estimate stops decreasing it is at most the square root. */
  lemma BabylonianExit(n: int, x: int)
    requires n >= 0 && x >= 1 && (x + n / x) / 2 >= x
    ensures x * x <= n
  {
    var q := Quot(n, x);
    assert q >= x;
    MulMonotone(x, q, x);
    assert q * x <= n;
  }

  /** The Babylonian sum stays within i128: `x + n/x <= n + 1` for `1 <= x <= n`. */
  lemma BabylonianSumBound(n: int, x: int)
    requires 1 <= x <= n
    ensures x + n / x <= n + 1
  {
    var q := Quot(n, x);
    QuotientAtLeastOne(n, x, q);
    SumAtMostProductPlusOne(x, q);
    assert x * q <= n;
  }

  lemma QuotientAtLeastOne(n: int, x: int, q: int)
    requires 1 <= x <= n && q == n / x
    ensures q >= 1 && x * q <= n
  {
    DivAtLeast(n, x, 1);
  }

  /** For positive `x` and `q`, `x + q <= x * q + 1`, since `(x - 1) * (q - 1) >= 0`. */
  lemma SumAtMostProductPlusOne(x: int, q: int)
    requires x >= 1 && q >= 1
    ensures x + q <= x * q + 1
  {
    MulNonNegative(x - 1, q - 1);
    assert (x - 1) * (q - 1) == x * q - x - q + 1;
  }

  /** The state of the Babylonian loop: `x` is a guess at or above the root and `y` the next guess. */
  predicate SqrtLoop(n: int, x: int, y: int) {
    1 <= x <= n && x >= 1 && y == (x + n / x) / 2 && n < (x + 1) * (x + 1)
  }

  /** One iteration keeps the loop state and, for i128 input, computes its sum without overflow. */
  lemma SqrtLoopStep(n: int, x: int, y: int)
    requires SqrtLoop(n, x, y) && y < x
    ensures IsI128(n + 1) ==> IsI128(y + n / y)
    ensures SqrtLoop(n, y, (y + n / y) / 2)
  {
    BabylonianStep(n, x);
    assert n < (y + 1) * (y + 1);
    QuotientAtLeastOne(n, x, n / x);
    BabylonianSumBound(n, y);
  }

  /**
   * `IntegerSqrt::integer_sqrt` on i128: 0 for negative input, `n` for 0 and
   * 1, and otherwise the Babylonian iteration from `x = n`. The first step
   * computes `n + 1`, which traps (`None`) for `n = i128::MAX`.
   */
  method IntegerSqrt(n: int) returns (r: Option<int>)
    requires IsI128(n)
    ensures r.None? <==> n == I128_MAX
    ensures r.Some? && n < 0 ==> r.value == 0
    ensures r.Some? && n >= 0 ==> IsFloorSqrt(r.value, n)
  {
    if n < 0 {
      return Some(0);
    }
    if n < 2 {
      return Some(n);
    }
    if !IsI128(n + 1) {
      return None;
    }
    var x := n;
    var y := (x + 1) / 2;
    SqrtLoopStart(n);
    while y < x
      invariant SqrtLoop(n, x, y)
      decreases x
    {
      SqrtLoopStep(n, x, y);
      x := y;
      y := (x + n / x) / 2;
    }
    BabylonianExit(n, x);
    r := Some(x);
  }

  lemma SqrtLoopStart(n: int)
    requires n >= 2
    ensures SqrtLoop(n, n, (n + 1) / 2)
  {
    assert n / n == 1;
    MulMonotone(1, n + 1, n + 1);
  }

  /** The floor square root of `n`, searched upward from `r`. */
  function FloorSqrtFrom(n: int, r: int): (s: int)
    requires 0 <= r && r * r <= n
    ensures IsFloorSqrt(s, n)
    decreases n - r
  {
    if n < (r + 1) * (r + 1) then r
    else
      MulMonotone(1, r + 1, r + 1);
      FloorSqrtFrom(n, r + 1)
  }

  /** A reference definition of the floor square root, independent of the Babylonian loop. */
  function FloorSqrt(n: int): (r: int)
    requires n >= 0
    ensures IsFloorSqrt(r, n)
    ensures r <= n
  {
    var r := FloorSqrtFrom(n, 0);
    if r >= 1 then MulMonotone(1, r, r); r else r
  }

  // ---------------------------------------------------------------------
  // Multiplier

  /** `calculate_lp_multiplier`: the basis-point multiplier for a lock period in seconds. */
  function LpMultiplier(lockPeriod: int): (m: int)
    requires lockPeriod >= 0
    ensures 10000 <= m <= 15000
    ensures lockPeriod <= 86400 ==> m == 10000
    ensures lockPeriod > 7776000 ==> m == 15000
  {
    if lockPeriod <= 86400 then 10000
    else if lockPeriod <= 604800 then 11000
    else if lockPeriod <= 2592000 then 12000
    else if lockPeriod <= 7776000 then 13000
    else 15000
  }

  /** Locking longer never lowers the multiplier. */
  lemma LpMultiplierMonotone(p: int, q: int)
    requires 0 <= p <= q
    ensures LpMultiplier(p) <= LpMultiplier(q)
  {
  }

  // ---------------------------------------------------------------------
  // Pool arithmetic

  /**
   * The pair `add_liquidity` deposits: all of `amountA` with the matching
   * `amountA * reserveB / reserveA` of B when that fits in `amountB`, else
   * all of `amountB` with the matching share of A. Both quotients are
   * computed; `None` where either product overflows or either division traps.
   */
  function OptimalDeposit(amountA: int, amountB: int, reserveA: int, reserveB: int): (r: Option<(int, int)>)
    ensures r.Some? ==> reserveA != 0 && reserveB != 0
    ensures r.Some? ==> r.value.0 == amountA || r.value.1 == amountB
    ensures r.Some? && IsI128(amountA) && IsI128(amountB) ==> IsI128(r.value.0) && IsI128(r.value.1)
    ensures r.None? <==>
      || !IsI128(amountA * reserveB) || !IsI128(amountB * reserveA) || !IsI128(reserveA) || !IsI128(reserveB)
      || DivTraps(amountA * reserveB, reserveA) || DivTraps(amountB * reserveA, reserveB)
  {
    var pb := amountA * reserveB;
    var pa := amountB * reserveA;
    if !IsI128(pb) || !IsI128(pa) || !IsI128(reserveA) || !IsI128(reserveB) then None
    else match (DivI128(pb, reserveA), DivI128(pa, reserveB)) {
      case (Some(optimalB), Some(optimalA)) =>
        if optimalB <= amountB then Some((amountA, optimalB)) else Some((optimalA, amountB))
      case _ => None
    }
  }

  /**
   * With positive reserves and amounts, the deposit never exceeds what was
   * offered on either side, and it is at the pool's price, rounded down on
   * the side that was matched: the matched amount is the floor of the other
   * amount times the reserve ratio.
   */
  lemma OptimalDepositAtPrice(amountA: int, amountB: int, reserveA: int, reserveB: int)
    requires reserveA > 0 && reserveB > 0 && amountA > 0 && amountB > 0
    requires OptimalDeposit(amountA, amountB, reserveA, reserveB).Some?
    ensures var (fa, fb) := OptimalDeposit(amountA, amountB, reserveA, reserveB).value;
      0 <= fa <= amountA && 0 <= fb <= amountB
    ensures var (fa, fb) := OptimalDeposit(amountA, amountB, reserveA, reserveB).value;
      fa == amountA ==> fb * reserveA <= amountA * reserveB < (fb + 1) * reserveA
    ensures var (fa, fb) := OptimalDeposit(amountA, amountB, reserveA, reserveB).value;
      fa != amountA ==> fb == amountB && fa * reserveB <= amountB * reserveA < (fa + 1) * reserveB
  {
    var pb := amountA * reserveB;
    var pa := amountB * reserveA;
    assert pb >= 0 && pa >= 0;
    var qb, qa := Quot(pb, reserveA), Quot(pa, reserveB);
    OptimalDepositIs(amountA, amountB, reserveA, reserveB, pb, pa, qb, qa);
    DepositPrice(amountA, amountB, reserveA, reserveB, pb, pa, qb, qa);
  }

  /** With positive reserves the deposit is built from the floor quotients of the two products. */
  lemma OptimalDepositIs(amountA: int, amountB: int, reserveA: int, reserveB: int, pb: int, pa: int, qb: int, qa: int)
    requires reserveA > 0 && reserveB > 0 && pb >= 0 && pa >= 0
    requires pb == amountA * reserveB && pa == amountB * reserveA
    requires qb == pb / reserveA && qa == pa / reserveB
    requires OptimalDeposit(amountA, amountB, reserveA, reserveB).Some?
    ensures OptimalDeposit(amountA, amountB, reserveA, reserveB).value
            == if qb <= amountB then (amountA, qb) else (qa, amountB)
  {
    assert DivI128(pb, reserveA) == Some(qb);
    assert DivI128(pa, reserveB) == Some(qa);
  }

  lemma DepositPrice(amountA: int, amountB: int, reserveA: int, reserveB: int, pb: int, pa: int, qb: int, qa: int)
    requires reserveA > 0 && reserveB > 0 && amountA > 0 && amountB > 0 && pb >= 0 && pa >= 0
    requires pb == amountA * reserveB && pa == amountB * reserveA
    requires qb == pb / reserveA && qa == pa / reserveB
    ensures 0 <= qb && 0 <= qa
    ensures qb * reserveA <= pb < (qb + 1) * reserveA
    ensures qa * reserveB <= pa < (qa + 1) * reserveB
    ensures qb > amountB ==> qa < amountA
  {
    assert qb * reserveA <= pb < (qb + 1) * reserveA;
    assert qa * reserveB <= pa < (qa + 1) * reserveB;
    if qb > amountB {
      MatchedSideShort(amountA, amountB, reserveA, reserveB, pb, pa, qb, qa);
    }
  }

  /** When the B side cannot be matched in full, the A side can: the matched A stays below the offer. */
  lemma MatchedSideShort(amountA: int, amountB: int, reserveA: int, reserveB: int, pb: int, pa: int, qb: int, qa: int)
    requires reserveA > 0 && reserveB > 0 && pb >= 0 && pa >= 0
    requires pb == amountA * reserveB && pa == amountB * reserveA
    requires qb == pb / reserveA && qa == pa / reserveB && qb > amountB
    ensures qa < amountA
  {
    DivAtLeast(pb, reserveA, amountB + 1);
    assert pa + reserveA == (amountB + 1) * reserveA;
    assert qa * reserveB <= pa < pb;
    MulCancel(qa, amountA, reserveB);
  }

  /**
   * The LP minted into a pool that already has supply: the smaller of the
   * two proportional shares, `final * total / reserve`. `None` where a
   * product overflows or a division traps.
   */
  function ProportionalMint(finalA: int, finalB: int, reserveA: int, reserveB: int, total: int): (r: Option<int>)
    ensures r.Some? ==> IsI128(r.value) && reserveA != 0 && reserveB != 0
    ensures r.None? <==>
      || !IsI128(finalA * total) || !IsI128(finalB * total) || !IsI128(reserveA) || !IsI128(reserveB)
      || DivTraps(finalA * total, reserveA) || DivTraps(finalB * total, reserveB)
    ensures r.Some? ==> r.value == Min(RustDiv(finalA * total, reserveA), RustDiv(finalB * total, reserveB))
  {
    var sa := finalA * total;
    var sb := finalB * total;
    if !IsI128(sa) || !IsI128(sb) || !IsI128(reserveA) || !IsI128(reserveB) then None
    else match (DivI128(sa, reserveA), DivI128(sb, reserveB)) {
      case (Some(shareA), Some(shareB)) => Some(Min(shareA, shareB))
      case _ => None
    }
  }

  /**
   * The minted LP is non-negative and is no more than either deposit's
   * proportional share of the supply, so depositing never dilutes the holders.
   */
  lemma ProportionalMintBelowShares(finalA: int, finalB: int, reserveA: int, reserveB: int, total: int)
    requires reserveA > 0 && reserveB > 0 && finalA >= 0 && finalB >= 0 && total >= 0
    requires ProportionalMint(finalA, finalB, reserveA, reserveB, total).Some?
    ensures var m := ProportionalMint(finalA, finalB, reserveA, reserveB, total).value;
      0 <= m && m * reserveA <= finalA * total && m * reserveB <= finalB * total
    ensures var m := ProportionalMint(finalA, finalB, reserveA, reserveB, total).value;
      finalA * total < (m + 1) * reserveA || finalB * total < (m + 1) * reserveB
  {
    var sa := finalA * total;
    var sb := finalB * total;
    assert sa >= 0 && sb >= 0;
    assert DivI128(sa, reserveA) == Some(Quot(sa, reserveA));
    assert DivI128(sb, reserveB) == Some(Quot(sb, reserveB));
    MinShareBounds(sa, sb, reserveA, reserveB);
  }

  /** The smaller of two floor quotients lies below both numerators and is the floor of one of them. */
  lemma MinShareBounds(sa: int, sb: int, reserveA: int, reserveB: int)
    requires sa >= 0 && sb >= 0 && reserveA > 0 && reserveB > 0
    ensures var m := Min(sa / reserveA, sb / reserveB);
      0 <= m && m * reserveA <= sa && m * reserveB <= sb
      && (sa < (m + 1) * reserveA || sb < (m + 1) * reserveB)
  {
    var qa, qb := Quot(sa, reserveA), Quot(sb, reserveB);
    var m := Min(qa, qb);
    assert qa * reserveA <= sa < (qa + 1) * reserveA;
    assert qb * reserveB <= sb < (qb + 1) * reserveB;
    MulMonotone(m, qa, reserveA);
    MulMonotone(m, qb, reserveB);
  }

  /**
   * One side of `remove_liquidity`: `lp * reserve / total`, `None` where the
   * product overflows.
   */
  function Withdrawal(lp: int, reserve: int, total: int): (r: Option<int>)
    requires total > 0
    ensures r.Some? <==> IsI128(lp * reserve) && IsI128(total)
    ensures r.Some? ==> IsI128(r.value)
  {
    var product := lp * reserve;
    if !IsI128(product) || !IsI128(total) then None
    else DivI128(product, total)
  }

  /**
   * A non-negative withdrawal is the floor of the LP's share of the reserve,
   * and burning at most the whole supply never takes more than the reserve.
   */
  lemma WithdrawalBounds(lp: int, reserve: int, total: int)
    requires lp >= 0 && reserve >= 0 && total > 0
    requires Withdrawal(lp, reserve, total).Some?
    ensures var w := Withdrawal(lp, reserve, total).value;
      w * total <= lp * reserve < (w + 1) * total
    ensures lp <= total ==> 0 <= Withdrawal(lp, reserve, total).value <= reserve
  {
    var p := lp * reserve;
    MulNonNegative(lp, reserve);
    var q := Quot(p, total);
    assert Withdrawal(lp, reserve, total).value == q;
    assert q * total <= p < q * total + total;
    if lp <= total {
      ShareAtMost(lp, reserve, total);
    }
  }

  /** A share `lp / total <= 1` of a non-negative amount, rounded down, is at most the amount. */
  lemma ShareAtMost(lp: int, m: int, total: int)
    requires 0 <= lp <= total && m >= 0 && total > 0
    ensures 0 <= (lp * m) / total <= m
  {
    var p := lp * m;
    MulNonNegative(lp, m);
    MulMonotone(lp, total, m);
    var q := Quot(p, total);
    assert q * total <= p <= m * total;
    MulCancel(q, m + 1, total);
  }

  /**
   * Burning at most the whole supply takes a withdrawal of the reserve's
   * sign and no larger than the reserve, whatever the reserve's sign, so the
   * reserve left behind stays between 0 and the old reserve.
   */
  lemma WithdrawalWithinReserve(lp: int, reserve: int, total: int)
    requires 0 < lp <= total
    requires Withdrawal(lp, reserve, total).Some?
    ensures var w := Withdrawal(lp, reserve, total).value;
      (reserve >= 0 ==> 0 <= w <= reserve) && (reserve < 0 ==> reserve <= w <= 0)
  {
    var p := lp * reserve;
    var w := Withdrawal(lp, reserve, total).value;
    assert w == RustDiv(p, total);
    if reserve >= 0 {
      MulNonNegative(lp, reserve);
      ShareAtMost(lp, reserve, total);
    } else {
      var m := -reserve;
      assert p == -(lp * m);
      MulMonotone(1, lp, m);
      assert w == -((lp * m) / total);
      ShareAtMost(lp, m, total);
    }
  }

  /**
   * The reward `unstake_lp` adds: `(lp * time_staked / 1_000_000) * multiplier / 10000`.
   * `None` where a product overflows.
   */
  function LpReward(lpAmount: int, timeStaked: int, multiplier: int): (r: Option<int>)
    ensures r.Some? ==> IsI128(r.value)
    ensures r.Some? && lpAmount >= 0 && timeStaked >= 0 && multiplier >= 0 ==> r.value >= 0
    ensures r.None? <==> !IsI128(lpAmount * timeStaked) || !IsI128(RustDiv(lpAmount * timeStaked, 1_000_000) * multiplier)
  {
    var product := lpAmount * timeStaked;
    if !IsI128(product) then None
    else
      var base := RustDiv(product, 1_000_000);
      var priced := base * multiplier;
      if !IsI128(priced) then None
      else
        RustDivTruncates(priced, 10000);
        Some(RustDiv(priced, 10000))
  }

  /** For non-negative inputs that do not overflow, the LP reward is the floor expression `(lp * t / 10^6) * m / 10^4`. */
  lemma LpRewardValue(lpAmount: int, timeStaked: int, multiplier: int)
    requires lpAmount >= 0 && timeStaked >= 0 && multiplier >= 0
    requires IsI128(lpAmount * timeStaked) && IsI128((lpAmount * timeStaked) / 1_000_000 * multiplier)
    ensures lpAmount * timeStaked >= 0
    ensures LpReward(lpAmount, timeStaked, multiplier) == Some((lpAmount * timeStaked) / 1_000_000 * multiplier / 10000)
  {
    var product := lpAmount * timeStaked;
    assert product >= 0;
    var base := Quot(product, 1_000_000);
    var priced := base * multiplier;
    assert priced >= 0;
  }

  /**
   * A multiplier of at least 1x never pays less than the unmultiplied base
   * reward, and a higher multiplier never pays less.
   */
  lemma LpRewardMonotoneInMultiplier(lpAmount: int, timeStaked: int, m: int, m': int)
    requires lpAmount >= 0 && timeStaked >= 0 && 0 <= m <= m'
    requires LpReward(lpAmount, timeStaked, m).Some? && LpReward(lpAmount, timeStaked, m').Some?
    ensures LpReward(lpAmount, timeStaked, m).value <= LpReward(lpAmount, timeStaked, m').value
    ensures m >= 10000 ==> LpReward(lpAmount, timeStaked, m).value >= (lpAmount * timeStaked) / 1_000_000
  {
    var product := lpAmount * timeStaked;
    assert product >= 0;
    var base := Quot(product, 1_000_000);
    MulMonotone(m, m', base);
    assert base * m <= base * m';
    DivMonotone(base * m, base * m', 10000);
    assert LpReward(lpAmount, timeStaked, m).value == (base * m) / 10000;
    assert LpReward(lpAmount, timeStaked, m').value == (base * m') / 10000;
    if m >= 10000 {
      MulMonotone(10000, m, base);
      DivMonotone(base * 10000, base * m, 10000);
    }
  }

  /**
   * What `unstake_lp` pays out for stake `s` at time `now`: the LP amount
   * plus its reward, once `timestamp + lock_period` (a u64 sum) has passed.
   */
  function UnstakeLpReturn(s: LPStakeInfo, total: int, now: int): (r: Result<int, LiquidityError>)
    ensures r.Ok? ==> s.timestamp + s.lockPeriod <= now
    ensures r.Ok? ==> IsI128(r.value) && IsI128(total - s.lpAmount)
    ensures r.Ok? ==> LpReward(s.lpAmount, now - s.timestamp, s.rewardMultiplier).Some?
                      && r.value == s.lpAmount + LpReward(s.lpAmount, now - s.timestamp, s.rewardMultiplier).value
    ensures r.Ok? && s.lpAmount >= 0 && s.lockPeriod >= 0 && s.rewardMultiplier >= 0 ==> r.value >= s.lpAmount
    ensures IsU64(s.timestamp + s.lockPeriod) && now < s.timestamp + s.lockPeriod ==> r == Err(LockPeriodNotExpired)
    ensures r.Err? ==> r.error == LockPeriodNotExpired
    ensures r.Ok? <==>
      && IsU64(s.timestamp + s.lockPeriod) && now >= s.timestamp + s.lockPeriod
      && LpReward(s.lpAmount, now - s.timestamp, s.rewardMultiplier).Some?
      && IsI128(s.lpAmount + LpReward(s.lpAmount, now - s.timestamp, s.rewardMultiplier).value)
      && IsI128(total - s.lpAmount)
  {
    var unlockTime := s.timestamp + s.lockPeriod;
    if !IsU64(unlockTime) then Panic
    else if now < unlockTime then Err(LockPeriodNotExpired)
    else match LpReward(s.lpAmount, now - s.timestamp, s.rewardMultiplier) {
      case None => Panic
      case Some(reward) =>
        if !IsI128(s.lpAmount + reward) || !IsI128(total - s.lpAmount) then Panic
        else Ok(s.lpAmount + reward)
    }
  }

  /**
   * The LP tokens `add_liquidity` mints for the deposit `(finalA, finalB)`, as
   * a value: the floor square root of `finalA * finalB` into an empty supply
   * (0 for a negative product), otherwise the smaller proportional share.
   * `None` where the host traps: the product leaves i128, or it is
   * `i128::MAX`, on which `integer_sqrt` overflows.
   */
  function LpMinted(finalA: int, finalB: int, reserveA: int, reserveB: int, total: int): (r: Option<int>)
    ensures r.Some? ==> IsI128(r.value)
    ensures total == 0 ==> (r.None? <==> !IsI128(finalA * finalB) || finalA * finalB == I128_MAX)
    ensures total == 0 && r.Some? && finalA * finalB >= 0 ==> IsFloorSqrt(r.value, finalA * finalB)
    ensures total == 0 && r.Some? && finalA * finalB < 0 ==> r.value == 0
    ensures total != 0 ==> r == ProportionalMint(finalA, finalB, reserveA, reserveB, total)
  {
    if total == 0 then
      var product := finalA * finalB;
      if !IsI128(product) || product == I128_MAX then None
      else if product < 0 then Some(0)
      else Some(FloorSqrt(product))
    else ProportionalMint(finalA, finalB, reserveA, reserveB, total)
  }

  /** The mint step of `add_liquidity`, running `integer_sqrt`'s loop for an empty pool. */
  method MintLp(finalA: int, finalB: int, reserveA: int, reserveB: int, total: int) returns (r: Option<int>)
    requires IsI128(finalA) && IsI128(finalB)
    ensures r == LpMinted(finalA, finalB, reserveA, reserveB, total)
  {
    if total == 0 {
      var product := finalA * finalB;
      if !IsI128(product) {
        return None;
      }
      r := IntegerSqrt(product);
      if r.Some? && product >= 0 {
        FloorSqrtUnique(r.value, FloorSqrt(product), product);
      }
    } else {
      r := ProportionalMint(finalA, finalB, reserveA, reserveB, total);
    }
  }

  /**
   * The checks of `add_liquidity` before the mint, in the source's order:
   * initialized, not paused, the pool exists, and both amounts positive.
   * `Ok` carries the optimal deposit, computed without a trap.
   */
  function DepositPlan(config: Option<LiquidityConfig>, pools: map<int, LiquidityPool>, poolId: int,
                       amountA: int, amountB: int): (r: Result<(int, int), LiquidityError>)
    requires IsI128(amountA) && IsI128(amountB)
    ensures config.None? ==> r == Err(NotInitialized)
    ensures config.Some? && config.value.emergencyPause ==> r == Err(ContractPaused)
    ensures config.Some? && !config.value.emergencyPause && poolId !in pools ==> r == Err(PoolNotFound)
    ensures config.Some? && !config.value.emergencyPause && poolId in pools && (amountA <= 0 || amountB <= 0) ==>
              r == Err(InsufficientLiquidity)
    ensures r.Panic? <==>
      && config.Some? && !config.value.emergencyPause && poolId in pools && amountA > 0 && amountB > 0
      && OptimalDeposit(amountA, amountB, pools[poolId].reserveA, pools[poolId].reserveB).None?
    ensures r.Ok? ==>
      && config.Some? && !config.value.emergencyPause && poolId in pools && amountA > 0 && amountB > 0
      && Some(r.value) == OptimalDeposit(amountA, amountB, pools[poolId].reserveA, pools[poolId].reserveB)
      && IsI128(r.value.0) && IsI128(r.value.1)
  {
    if config.None? then Err(NotInitialized)
    else if config.value.emergencyPause then Err(ContractPaused)
    else if poolId !in pools then Err(PoolNotFound)
    else if amountA <= 0 || amountB <= 0 then Err(InsufficientLiquidity)
    else
      var deposit := OptimalDeposit(amountA, amountB, pools[poolId].reserveA, pools[poolId].reserveB);
      if deposit.None? then Panic else Ok(deposit.value)
  }

  /**
   * What `add_liquidity` does to pool `poolId`: the checks of `DepositPlan`,
   * then the mint without a trap, at least `minLiquidity` minted (else
   * `SlippageTooHigh`), and the new reserves and supply within i128. `Ok`
   * carries the minted LP and the updated pool.
   */
  function DepositOutcome(config: Option<LiquidityConfig>, pools: map<int, LiquidityPool>, poolId: int,
                          amountA: int, amountB: int, minLiquidity: int): (r: Result<(int, LiquidityPool), LiquidityError>)
    requires IsI128(amountA) && IsI128(amountB)
    ensures DepositPlan(config, pools, poolId, amountA, amountB).Err? ==>
              r == Err(DepositPlan(config, pools, poolId, amountA, amountB).error)
    ensures r.Ok? ==>
      && config.Some? && !config.value.emergencyPause && poolId in pools && amountA > 0 && amountB > 0
      && OptimalDeposit(amountA, amountB, pools[poolId].reserveA, pools[poolId].reserveB).Some?
    ensures r.Ok? ==>
      var p := pools[poolId];
      var (fa, fb) := OptimalDeposit(amountA, amountB, p.reserveA, p.reserveB).value;
      && r.value.0 >= minLiquidity
      && Some(r.value.0) == LpMinted(fa, fb, p.reserveA, p.reserveB, p.totalLiquidity)
      && r.value.1 == p.(reserveA := p.reserveA + fa, reserveB := p.reserveB + fb,
                         totalLiquidity := p.totalLiquidity + r.value.0)
  {
    match DepositPlan(config, pools, poolId, amountA, amountB) {
      case Err(e) => Err(e)
      case Panic => Panic
      case Ok((fa, fb)) =>
        var p := pools[poolId];
        match LpMinted(fa, fb, p.reserveA, p.reserveB, p.totalLiquidity) {
          case None => Panic
          case Some(lp) =>
            if lp < minLiquidity then Err(SlippageTooHigh)
            else if !IsI128(p.reserveA + fa) || !IsI128(p.reserveB + fb) || !IsI128(p.totalLiquidity + lp) then Panic
            else Ok((lp, p.(reserveA := p.reserveA + fa, reserveB := p.reserveB + fb,
                            totalLiquidity := p.totalLiquidity + lp)))
        }
    }
  }

  /**
   * `add_liquidity` fails with `SlippageTooHigh` exactly when every earlier
   * check passes and fewer than `minLiquidity` tokens would be minted, and it
   * succeeds exactly when every check passes and nothing traps.
   */
  lemma DepositSlippage(config: Option<LiquidityConfig>, pools: map<int, LiquidityPool>, poolId: int,
                        amountA: int, amountB: int, minLiquidity: int)
    requires IsI128(amountA) && IsI128(amountB)
    ensures DepositOutcome(config, pools, poolId, amountA, amountB, minLiquidity) == Err(SlippageTooHigh) <==>
      && config.Some? && !config.value.emergencyPause && poolId in pools && amountA > 0 && amountB > 0
      && var p := pools[poolId];
         && OptimalDeposit(amountA, amountB, p.reserveA, p.reserveB).Some?
         && var (fa, fb) := OptimalDeposit(amountA, amountB, p.reserveA, p.reserveB).value;
            && LpMinted(fa, fb, p.reserveA, p.reserveB, p.totalLiquidity).Some?
            && LpMinted(fa, fb, p.reserveA, p.reserveB, p.totalLiquidity).value < minLiquidity
    ensures DepositOutcome(config, pools, poolId, amountA, amountB, minLiquidity).Ok? <==>
      && config.Some? && !config.value.emergencyPause && poolId in pools && amountA > 0 && amountB > 0
      && var p := pools[poolId];
         && OptimalDeposit(amountA, amountB, p.reserveA, p.reserveB).Some?
         && var (fa, fb) := OptimalDeposit(amountA, amountB, p.reserveA, p.reserveB).value;
            && LpMinted(fa, fb, p.reserveA, p.reserveB, p.totalLiquidity).Some?
            && var lp := LpMinted(fa, fb, p.reserveA, p.reserveB, p.totalLiquidity).value;
               && lp >= minLiquidity
               && IsI128(p.reserveA + fa) && IsI128(p.reserveB + fb) && IsI128(p.totalLiquidity + lp)
  {
  }

  /**
   * What `remove_liquidity` does to pool `poolId`, with every check in the
   * source's order: initialized, not paused, the pool exists,
   * `0 < lpAmount <= total_liquidity`, both shares without a trap, and both
   * shares at least `minA` and `minB` (else `SlippageTooHigh`). `Ok` carries
   * the two amounts paid out and the updated pool.
   */
  function WithdrawOutcome(config: Option<LiquidityConfig>, pools: map<int, LiquidityPool>, poolId: int,
                           lpAmount: int, minA: int, minB: int): (r: Result<((int, int), LiquidityPool), LiquidityError>)
    ensures config.None? ==> r == Err(NotInitialized)
    ensures config.Some? && config.value.emergencyPause ==> r == Err(ContractPaused)
    ensures config.Some? && !config.value.emergencyPause && poolId !in pools ==> r == Err(PoolNotFound)
    ensures config.Some? && !config.value.emergencyPause && poolId in pools ==>
              (lpAmount <= 0 || lpAmount > pools[poolId].totalLiquidity ==> r == Err(InsufficientLiquidity))
    ensures r.Panic? <==>
      && config.Some? && !config.value.emergencyPause && poolId in pools
      && 0 < lpAmount <= pools[poolId].totalLiquidity
      && (!IsI128(lpAmount * pools[poolId].reserveA) || !IsI128(lpAmount * pools[poolId].reserveB)
          || !IsI128(pools[poolId].totalLiquidity))
    ensures r == Err(SlippageTooHigh) <==>
      && config.Some? && !config.value.emergencyPause && poolId in pools
      && 0 < lpAmount <= pools[poolId].totalLiquidity
      && var p := pools[poolId];
         && Withdrawal(lpAmount, p.reserveA, p.totalLiquidity).Some?
         && Withdrawal(lpAmount, p.reserveB, p.totalLiquidity).Some?
         && (Withdrawal(lpAmount, p.reserveA, p.totalLiquidity).value < minA
             || Withdrawal(lpAmount, p.reserveB, p.totalLiquidity).value < minB)
    ensures r.Ok? <==>
      && config.Some? && !config.value.emergencyPause && poolId in pools
      && 0 < lpAmount <= pools[poolId].totalLiquidity
      && var p := pools[poolId];
         && Withdrawal(lpAmount, p.reserveA, p.totalLiquidity).Some?
         && Withdrawal(lpAmount, p.reserveB, p.totalLiquidity).Some?
         && Withdrawal(lpAmount, p.reserveA, p.totalLiquidity).value >= minA
         && Withdrawal(lpAmount, p.reserveB, p.totalLiquidity).value >= minB
    ensures r.Ok? ==>
      var p := pools[poolId];
      var ((a, b), p') := r.value;
      && Withdrawal(lpAmount, p.reserveA, p.totalLiquidity) == Some(a)
      && Withdrawal(lpAmount, p.reserveB, p.totalLiquidity) == Some(b)
      && a >= minA && b >= minB
      && p' == p.(reserveA := p.reserveA - a, reserveB := p.reserveB - b, totalLiquidity := p.totalLiquidity - lpAmount)
      && 0 <= p'.totalLiquidity
      && (p.reserveA >= 0 ==> 0 <= p'.reserveA <= p.reserveA)
      && (p.reserveB >= 0 ==> 0 <= p'.reserveB <= p.reserveB)
      && (p.reserveA < 0 ==> p.reserveA <= p'.reserveA <= 0)
      && (p.reserveB < 0 ==> p.reserveB <= p'.reserveB <= 0)
  {
    if config.None? then Err(NotInitialized)
    else if config.value.emergencyPause then Err(ContractPaused)
    else if poolId !in pools then Err(PoolNotFound)
    else
      var p := pools[poolId];
      if lpAmount <= 0 || lpAmount > p.totalLiquidity then Err(InsufficientLiquidity)
      else
        var wa := Withdrawal(lpAmount, p.reserveA, p.totalLiquidity);
        var wb := Withdrawal(lpAmount, p.reserveB, p.totalLiquidity);
        if wa.None? || wb.None? then Panic
        else if wa.value < minA || wb.value < minB then Err(SlippageTooHigh)
        else
          WithdrawalWithinReserve(lpAmount, p.reserveA, p.totalLiquidity);
          WithdrawalWithinReserve(lpAmount, p.reserveB, p.totalLiquidity);
          Ok(((wa.value, wb.value),
              p.(reserveA := p.reserveA - wa.value, reserveB := p.reserveB - wb.value,
                 totalLiquidity := p.totalLiquidity - lpAmount)))
  }

  // ---------------------------------------------------------------------
  // Storage invariant

  predicate PoolValid(p: LiquidityPool) {
    && p.tokenA != p.tokenB
    && p.feeRate <= MAX_FEE_RATE
    && IsI128(p.totalLiquidity) && IsI128(p.reserveA) && IsI128(p.reserveB)
  }

  /**
   * The liquidity storage invariant: nothing exists before initialization;
   * pool ids run from 1 to `PoolCount`; every pool has two distinct tokens and
   * an admissible fee; every LP stake names the pool it is keyed by, is
   * positive and carries the multiplier of its lock period; and
   * `TotalLPStaked` is the sum of the staked LP amounts.
   */
  ghost predicate LiquidityInvariant(config: Option<LiquidityConfig>, pools: map<int, LiquidityPool>, poolCount: int,
                                     lpStakes: map<(Address, int), LPStakeInfo>, totalLpStaked: int) {
    && (config.None? ==> pools == map[] && poolCount == 0 && lpStakes == map[] && totalLpStaked == 0)
    && (config.Some? ==> config.value.defaultFeeRate <= MAX_FEE_RATE)
    && IsU64(poolCount)
    && (forall id :: id in pools ==> 1 <= id <= poolCount && PoolValid(pools[id]))
    && (forall k :: k in lpStakes ==> StakeValid(k, lpStakes[k], pools))
    && IsI128(totalLpStaked)
    && totalLpStaked == Sum(lpStakes, LpAmount)
  }

  predicate StakeValid(k: (Address, int), s: LPStakeInfo, pools: map<int, LiquidityPool>) {
    && k.1 in pools && s.poolId == k.1
    && s.lpAmount > 0
    && s.lockPeriod >= 0
    && s.rewardMultiplier == LpMultiplier(s.lockPeriod)
  }

  lemma InvariantAfterPoolWrite(c: LiquidityConfig, pools: map<int, LiquidityPool>, poolCount: int,
                                lpStakes: map<(Address, int), LPStakeInfo>, total: int,
                                id: int, p: LiquidityPool, newCount: int)
    requires LiquidityInvariant(Some(c), pools, poolCount, lpStakes, total)
    requires 1 <= id <= newCount && poolCount <= newCount && IsU64(newCount) && PoolValid(p)
    ensures LiquidityInvariant(Some(c), pools[id := p], newCount, lpStakes, total)
  {
    forall k | k in lpStakes
      ensures StakeValid(k, lpStakes[k], pools[id := p])
    {
      assert StakeValid(k, lpStakes[k], pools);
    }
  }

  lemma InvariantAfterStakeWrite(c: LiquidityConfig, pools: map<int, LiquidityPool>, poolCount: int,
                                 lpStakes: map<(Address, int), LPStakeInfo>, total: int,
                                 k: (Address, int), s: LPStakeInfo)
    requires LiquidityInvariant(Some(c), pools, poolCount, lpStakes, total)
    requires k !in lpStakes && StakeValid(k, s, pools) && IsI128(total + s.lpAmount)
    ensures LiquidityInvariant(Some(c), pools, poolCount, lpStakes[k := s], total + s.lpAmount)
  {
    SumUpdate(lpStakes, k, s, LpAmount);
  }

  lemma InvariantAfterStakeRemove(config: Option<LiquidityConfig>, pools: map<int, LiquidityPool>, poolCount: int,
                                  lpStakes: map<(Address, int), LPStakeInfo>, total: int, k: (Address, int))
    requires LiquidityInvariant(config, pools, poolCount, lpStakes, total)
    requires k in lpStakes && IsI128(total - lpStakes[k].lpAmount)
    ensures LiquidityInvariant(config, pools, poolCount, lpStakes - {k}, total - lpStakes[k].lpAmount)
  {
    SumDelete(lpStakes, k, LpAmount);
  }

  // ---------------------------------------------------------------------
  // The contract

  class LiquidityContract {
    var config: Option<LiquidityConfig>
    var pools: map<int, LiquidityPool>                    // Pool(id)
    var poolCount: int                                    // PoolCount (u64)
    var lpStakes: map<(Address, int), LPStakeInfo>       // UserLPStake(user, pool_id)
    var totalLpStaked: int                                // TotalLPStaked

    ghost predicate Valid()
      reads this
    {
      LiquidityInvariant(config, pools, poolCount, lpStakes, totalLpStaked)
    }

    /** A freshly deployed contract with empty storage. */
    constructor ()
      ensures Valid()
      ensures config.None? && pools == map[] && poolCount == 0 && lpStakes == map[] && totalLpStaked == 0
    {
      config := None;
      pools := map[];
      poolCount := 0;
      lpStakes := map[];
      totalLpStaked := 0;
    }

    method Initialize(admin: Address, stakingContract: Address, rewardsContract: Address,
                      minLiquidity: int, defaultFeeRate: int)
      returns (r: Result<(), LiquidityError>)
      requires Valid()
      modifies this
      ensures Valid()
      ensures r == if old(config).Some? then Err(AlreadyInitialized)
                   else if defaultFeeRate > MAX_FEE_RATE then Err(InvalidFeeRate)
                   else Ok(())
      ensures !r.Ok? ==> unchanged(this)
      ensures r.Ok? ==>
        && config == Some(LiquidityConfig(admin, stakingContract, rewardsContract, minLiquidity, defaultFeeRate, false))
        && poolCount == 0 && totalLpStaked == 0 && pools == map[] && lpStakes == map[]
    {
      if config.Some? {
        return Err(AlreadyInitialized);
      }
      if defaultFeeRate > MAX_FEE_RATE {
        return Err(InvalidFeeRate);
      }
      config := Some(LiquidityConfig(admin, stakingContract, rewardsContract, minLiquidity, defaultFeeRate, false));
      poolCount := 0;
      totalLpStaked := 0;
      r := Ok(());
    }

    method CreatePool(tokenA: Address, tokenB: Address, initialA: int, initialB: int, feeRate: Option<int>, now: int)
      returns (r: Result<int, LiquidityError>)
      requires Valid()
      requires IsI128(initialA) && IsI128(initialB)
      modifies this
      ensures Valid()
      ensures r == if old(config).None? then Err(NotInitialized)
                   else if old(config).value.emergencyPause then Err(ContractPaused)
                   else if tokenA == tokenB then Err(InvalidTokens)
                   else if initialA < old(config).value.minLiquidity || initialB < old(config).value.minLiquidity then
                     Err(InsufficientLiquidity)
                   else if !IsU64(old(poolCount) + 1) then Panic
                   else if (if feeRate.Some? then feeRate.value else old(config).value.defaultFeeRate) > MAX_FEE_RATE then
                     Err(InvalidFeeRate)
                   else if !IsI128(initialA * initialB) || initialA * initialB == I128_MAX then Panic
                   else Ok(old(poolCount) + 1)
      ensures !r.Ok? ==> unchanged(this)
      ensures r.Ok? ==>
        var c := old(config).value;
        var fee := if feeRate.Some? then feeRate.value else c.defaultFeeRate;
        var id := old(poolCount) + 1;
        && r.value == id && id !in old(pools)
        && poolCount == id && id in pools
        && pools == old(pools)[id := LiquidityPool(tokenA, tokenB, pools[id].totalLiquidity, initialA, initialB, fee, now)]
        && (initialA * initialB >= 0 ==> IsFloorSqrt(pools[id].totalLiquidity, initialA * initialB))
        && (initialA * initialB < 0 ==> pools[id].totalLiquidity == 0)
        && config == old(config) && lpStakes == old(lpStakes) && totalLpStaked == old(totalLpStaked)
    {
      if config.None? {
        return Err(NotInitialized);
      }
      var c := config.value;
      if c.emergencyPause {
        return Err(ContractPaused);
      }
      if tokenA == tokenB {
        return Err(InvalidTokens);
      }
      if initialA < c.minLiquidity || initialB < c.minLiquidity {
        return Err(InsufficientLiquidity);
      }
      var id := poolCount + 1;
      if !IsU64(id) {
        return Panic;
      }
      var fee := if feeRate.Some? then feeRate.value else c.defaultFeeRate;
      if fee > MAX_FEE_RATE {
        return Err(InvalidFeeRate);
      }
      var product := initialA * initialB;
      if !IsI128(product) {
        return Panic;
      }
      var liquidity := IntegerSqrt(product);
      if liquidity.None? {
        return Panic;
      }
      if product >= 1 {
        MulMonotone(1, liquidity.value, liquidity.value);
      }
      var pool := LiquidityPool(tokenA, tokenB, liquidity.value, initialA, initialB, fee, now);
      InvariantAfterPoolWrite(c, pools, poolCount, lpStakes, totalLpStaked, id, pool, id);
      pools := pools[id := pool];
      poolCount := id;
      r := Ok(id);
    }

    /** `add_liquidity`: the result and the pool write are those of `DepositOutcome`. */
    method AddLiquidity(user: Address, poolId: int, amountA: int, amountB: int, minLiquidity: int)
      returns (r: Result<int, LiquidityError>)
      requires Valid()
      requires IsI128(amountA) && IsI128(amountB)
      modifies this
      ensures Valid()
      ensures var o := DepositOutcome(old(config), old(pools), poolId, amountA, amountB, minLiquidity);
        && (o.Err? ==> r == Err(o.error))
        && (o.Panic? ==> r.Panic?)
        && (o.Ok? ==> r == Ok(o.value.0) && pools == old(pools)[poolId := o.value.1])
      ensures !r.Ok? ==> unchanged(this)
      ensures r.Ok? ==> config == old(config) && poolCount == old(poolCount)
                        && lpStakes == old(lpStakes) && totalLpStaked == old(totalLpStaked)
    {
      var plan := DepositPlan(config, pools, poolId, amountA, amountB);
      if plan.Err? {
        return Err(plan.error);
      }
      if plan.Panic? {
        return Panic;
      }
      var c, p := config.value, pools[poolId];
      var (fa, fb) := plan.value;
      var minted := MintLp(fa, fb, p.reserveA, p.reserveB, p.totalLiquidity);
      if minted.None? {
        return Panic;
      }
      var lp := minted.value;
      if lp < minLiquidity {
        return Err(SlippageTooHigh);
      }
      var newA, newB, newTotal := p.reserveA + fa, p.reserveB + fb, p.totalLiquidity + lp;
      if !IsI128(newA) || !IsI128(newB) || !IsI128(newTotal) {
        return Panic;
      }
      var p' := p.(reserveA := newA, reserveB := newB, totalLiquidity := newTotal);
      InvariantAfterPoolWrite(c, pools, poolCount, lpStakes, totalLpStaked, poolId, p', poolCount);
      pools := pools[poolId := p'];
      r := Ok(lp);
    }

    method StakeLp(user: Address, poolId: int, lpAmount: int, lockPeriod: int, now: int)
      returns (r: Result<(), LiquidityError>)
      requires Valid()
      requires IsU64(lockPeriod) && IsI128(lpAmount)
      modifies this
      ensures Valid()
      ensures r == if old(config).None? then Err(NotInitialized)
                   else if old(config).value.emergencyPause then Err(ContractPaused)
                   else if poolId !in old(pools) then Err(PoolNotFound)
                   else if lpAmount <= 0 then Err(InsufficientLiquidity)
                   else if (user, poolId) in old(lpStakes) then Err(AlreadyInitialized)
                   else if !IsI128(old(totalLpStaked) + lpAmount) then Panic
                   else Ok(())
      ensures !r.Ok? ==> unchanged(this)
      ensures r.Ok? ==>
        && lpStakes == old(lpStakes)[(user, poolId) := LPStakeInfo(poolId, lpAmount, now, lockPeriod, LpMultiplier(lockPeriod))]
        && totalLpStaked == old(totalLpStaked) + lpAmount
        && config == old(config) && pools == old(pools) && poolCount == old(poolCount)
    {
      if config.None? {
        return Err(NotInitialized);
      }
      var c := config.value;
      if c.emergencyPause {
        return Err(ContractPaused);
      }
      if poolId !in pools {
        return Err(PoolNotFound);
      }
      if lpAmount <= 0 {
        return Err(InsufficientLiquidity);
      }
      if (user, poolId) in lpStakes {
        return Err(AlreadyInitialized);
      }
      var s := LPStakeInfo(poolId, lpAmount, now, lockPeriod, LpMultiplier(lockPeriod));
      if !IsI128(totalLpStaked + lpAmount) {
        return Panic;
      }
      InvariantAfterStakeWrite(c, pools, poolCount, lpStakes, totalLpStaked, (user, poolId), s);
      lpStakes := lpStakes[(user, poolId) := s];
      totalLpStaked := totalLpStaked + lpAmount;
      r := Ok(());
    }

    /** `unstake_lp`: checks no config and no pause, only the stake and its lock. */
    method UnstakeLp(user: Address, poolId: int, now: int) returns (r: Result<int, LiquidityError>)
      requires Valid()
      modifies this
      ensures Valid()
      ensures (user, poolId) !in old(lpStakes) ==> r == Err(StakeNotFound)
      ensures (user, poolId) in old(lpStakes) ==> r == UnstakeLpReturn(old(lpStakes)[(user, poolId)], old(totalLpStaked), now)
      ensures r.Ok? ==> r.value >= old(lpStakes)[(user, poolId)].lpAmount
      ensures !r.Ok? ==> unchanged(this)
      ensures r.Ok? ==>
        && lpStakes == old(lpStakes) - {(user, poolId)}
        && totalLpStaked == old(totalLpStaked) - old(lpStakes)[(user, poolId)].lpAmount
        && config == old(config) && pools == old(pools) && poolCount == old(poolCount)
    {
      if (user, poolId) !in lpStakes {
        return Err(StakeNotFound);
      }
      var s := lpStakes[(user, poolId)];
      assert StakeValid((user, poolId), s, pools);
      r := UnstakeLpReturn(s, totalLpStaked, now);
      if !r.Ok? {
        return r;
      }
      InvariantAfterStakeRemove(config, pools, poolCount, lpStakes, totalLpStaked, (user, poolId));
      lpStakes := lpStakes - {(user, poolId)};
      totalLpStaked := totalLpStaked - s.lpAmount;
    }

    /** `remove_liquidity`: the result and the pool write are those of `WithdrawOutcome`. */
    method RemoveLiquidity(user: Address, poolId: int, lpAmount: int, minA: int, minB: int)
      returns (r: Result<(int, int), LiquidityError>)
      requires Valid()
      modifies this
      ensures Valid()
      ensures var o := WithdrawOutcome(old(config), old(pools), poolId, lpAmount, minA, minB);
        && (o.Err? ==> r == Err(o.error))
        && (o.Panic? ==> r.Panic?)
        && (o.Ok? ==> r == Ok(o.value.0) && pools == old(pools)[poolId := o.value.1])
      ensures !r.Ok? ==> unchanged(this)
      ensures r.Ok? ==> config == old(config) && poolCount == old(poolCount)
                        && lpStakes == old(lpStakes) && totalLpStaked == old(totalLpStaked)
    {
      var o := WithdrawOutcome(config, pools, poolId, lpAmount, minA, minB);
      if o.Err? {
        return Err(o.error);
      }
      if o.Panic? {
        return Panic;
      }
      var (amounts, p') := o.value;
      InvariantAfterPoolWrite(config.value, pools, poolCount, lpStakes, totalLpStaked, poolId, p', poolCount);
      pools := pools[poolId := p'];
      r := Ok(amounts);
    }

    method SetEmergencyPause(admin: Address, paused: bool) returns (r: Result<(), LiquidityError>)
      requires Valid()
      modifies this
      ensures Valid()
      ensures r == if old(config).None? then Err(NotInitialized)
                   else if old(config).value.admin != admin then Err(Unauthorized)
                   else Ok(())
      ensures !r.Ok? ==> unchanged(this)
      ensures r.Ok? ==> config == Some(old(config).value.(emergencyPause := paused))
                        && pools == old(pools) && poolCount == old(poolCount)
                        && lpStakes == old(lpStakes) && totalLpStaked == old(totalLpStaked)
    {
      if config.None? {
        return Err(NotInitialized);
      }
      if config.value.admin != admin {
        return Err(Unauthorized);
      }
      config := Some(config.value.(emergencyPause := paused));
      r := Ok(());
    }

    method UpdateMinLiquidity(admin: Address, newMin: int) returns (r: Result<(), LiquidityError>)
      requires Valid()
      modifies this
      ensures Valid()
      ensures r == if old(config).None? then Err(NotInitialized)
                   else if old(config).value.admin != admin then Err(Unauthorized)
                   else Ok(())
      ensures !r.Ok? ==> unchanged(this)
      ensures r.Ok? ==> config == Some(old(config).value.(minLiquidity := newMin))
                        && pools == old(pools) && poolCount == old(poolCount)
                        && lpStakes == old(lpStakes) && totalLpStaked == old(totalLpStaked)
    {
      if config.None? {
        return Err(NotInitialized);
      }
      if config.value.admin != admin {
        return Err(Unauthorized);
      }
      config := Some(config.value.(minLiquidity := newMin));
      r := Ok(());
    }
  }
}
