/**
 * The helper crate shared by the four contracts: the business enumerations,
 * basis-point conversions, range validators, and time constants.
 * Basis points: 10000 bp = 100%.
 */
module Shared {
  import opened Soroban

  datatype StakeType = StandardStake | CompoundStake | GovernanceStake | LiquidityStake

  datatype RewardPoolType = StakingPool | LiquidityPool | GovernancePool | BonusPool

  /** 100% in basis points. */
  const MAX_BASIS_POINTS: int := 10000

  const SECONDS_PER_DAY: int := 86400

  /** A 365-day year. */
  const SECONDS_PER_YEAR: int := 365 * SECONDS_PER_DAY

  /** Five years. */
  const MAX_LOCK_PERIOD: int := 5 * SECONDS_PER_YEAR

  /** One day. */
  const MIN_LOCK_PERIOD: int := SECONDS_PER_DAY

  /** Whether an amount is strictly positive: the check shared by every deposit and stake. */
  predicate ValidatePositiveAmount(amount: int): (ok: bool)
    ensures ok <==> amount >= 1
  {
    amount > 0
  }

  /**
   * Basis points to whole percent, by Rust's truncating division; the
   * remainder below one percent is dropped toward zero.
   */
  function BasisPointsToPercentage(basisPoints: int): (p: int)
    requires IsI128(basisPoints)
    ensures IsI128(p)
    ensures basisPoints >= 0 ==> 0 <= basisPoints - p * 100 < 100
    ensures basisPoints < 0 ==> -100 < basisPoints - p * 100 <= 0
  {
    RustDivBounds(basisPoints, 100);
    RustDiv(basisPoints, 100)
  }

  /**
   * Whole percent to basis points; `None` where the Rust multiplication
   * `percentage * 100` leaves i128 and traps. Converting back gives the
   * percentage again.
   */
  function PercentageToBasisPoints(percentage: int): (r: Option<int>)
    requires IsI128(percentage)
    ensures r.None? <==> !IsI128(percentage * 100)
    ensures r.Some? ==> IsI128(r.value) && BasisPointsToPercentage(r.value) == percentage
  {
    if IsI128(percentage * 100) then
      var q := BasisPointsToPercentage(percentage * 100);
      assert -100 < (percentage - q) * 100 < 100;
      Some(percentage * 100)
    else None
  }

  /** Whether a basis-point value lies between 0% and 100%. */
  predicate ValidatePercentage(percentage: int): (ok: bool)
    ensures ok <==> 0 <= percentage <= MAX_BASIS_POINTS
  {
    percentage >= 0 && percentage <= 10000
  }

  /** The stated time constants and their order. */
  lemma LockPeriodConstants()
    ensures SECONDS_PER_YEAR == 31_536_000
    ensures MAX_LOCK_PERIOD == 157_680_000
    ensures MIN_LOCK_PERIOD == 86_400
    ensures MIN_LOCK_PERIOD < MAX_LOCK_PERIOD
  {
  }

  /**
   * Converting non-negative basis points to percent and back rounds down to a
   * whole percent: never above the input, less than one percent below it, and
   * exact precisely for multiples of 100.
   */
  lemma BasisPointsRoundDown(b: int)
    requires IsI128(b) && b >= 0
    ensures var r := PercentageToBasisPoints(BasisPointsToPercentage(b));
      && r.Some?
      && b - 100 < r.value <= b
      && (r.value == b <==> b % 100 == 0)
  {
    var p := BasisPointsToPercentage(b);
    assert p == b / 100;
    assert IsI128(p * 100);
  }

  /**
   * A percentage converts to a valid basis-point value exactly when it lies
   * between 0 and 100, and to a positive one exactly when it is positive.
   */
  lemma ValidPercentageBounds(p: int)
    requires IsI128(p)
    ensures 0 <= p <= 100 ==> PercentageToBasisPoints(p).Some?
    ensures PercentageToBasisPoints(p).Some? ==>
      && (ValidatePercentage(PercentageToBasisPoints(p).value) <==> 0 <= p <= 100)
      && (ValidatePositiveAmount(PercentageToBasisPoints(p).value) <==> ValidatePositiveAmount(p))
  {
  }
}
