/**
 * The parts of the Soroban host and of Rust that every contract relies on:
 * account addresses, optional storage entries, call results, the widths of
 * the integer types the contracts store (i128 and u64), and Rust's integer
 * division, which truncates toward zero.
 *
 * A call that traps (an overflowing `+`, `-` or `*`, a division by zero,
 * `i128::MIN / -1`) is aborted by the host and all of its storage writes are
 * discarded; the model returns `Panic` for it and leaves the state unchanged.
 */
module Soroban {

  /** An account or contract address; the contracts only compare addresses. */
  datatype Address = Address(key: string)

  datatype Option<T> = None | Some(value: T) {
    predicate IsFailure() { None? }

    function PropagateFailure<U>(): Option<U>
      requires None?
    {
      None
    }

    function Extract(): T
      requires Some?
    {
      value
    }
  }

  /** The outcome of a contract call: a value, a typed contract error, or a host trap. */
  datatype Result<T, E> = Ok(value: T) | Err(error: E) | Panic

  const I128_MIN: int := -0x8000_0000_0000_0000_0000_0000_0000_0000
  const I128_MAX: int := 0x7fff_ffff_ffff_ffff_ffff_ffff_ffff_ffff
  const U64_MAX: int := 0xffff_ffff_ffff_ffff

  predicate IsI128(x: int) { I128_MIN <= x <= I128_MAX }

  predicate IsU64(x: int) { 0 <= x <= U64_MAX }

  function Abs(x: int): nat { if x < 0 then -x else x }

  function Min(a: int, b: int): (m: int)
    ensures m <= a && m <= b && (m == a || m == b)
  {
    if a <= b then a else b
  }

  function Max(a: int, b: int): (m: int)
    ensures m >= a && m >= b && (m == a || m == b)
  {
    if a >= b then a else b
  }

  /**
   * Rust's `/` on signed integers, which truncates toward zero (Dafny's `/`
   * on `int` is Euclidean). RustDivTruncates states its meaning.
   */
  function RustDiv(a: int, b: int): (q: int)
    requires b != 0
    ensures a >= 0 && b > 0 ==> q == a / b
  {
    if a >= 0 && b > 0 then a / b
    else if a < 0 && b < 0 then (-a) / (-b)
    else if a >= 0 then -(a / (-b))
    else -((-a) / b)
  }

  /** Floor division of a non-negative value by a positive one, named so that proofs can refer to it. */
  function Quot(x: int, y: int): (q: int)
    requires x >= 0 && y > 0
    ensures q >= 0 && q == x / y
  {
    x / y
  }

  /**
   * Truncating division: the magnitude of the quotient is the floor of the
   * magnitudes, and a non-zero quotient is negative exactly when the operands'
   * signs differ.
   */
  lemma RustDivTruncates(a: int, b: int)
    requires b != 0
    ensures Abs(RustDiv(a, b)) == Abs(a) / Abs(b)
    ensures RustDiv(a, b) > 0 ==> (a < 0) == (b < 0)
    ensures RustDiv(a, b) < 0 ==> (a < 0) != (b < 0)
  {
    var m := Quot(Abs(a), Abs(b));
    if a >= 0 && b > 0 {
      assert RustDiv(a, b) == m;
    } else if a < 0 && b < 0 {
      assert RustDiv(a, b) == m;
    } else {
      assert RustDiv(a, b) == -m;
    }
  }

  /** Rust's checked `*` on i128: `None` where the product leaves the type. */
  function MulI128(a: int, b: int): (r: Option<int>)
    ensures r.Some? <==> IsI128(a * b)
    ensures r.Some? ==> r.value == a * b
  {
    if IsI128(a * b) then Some(a * b) else None
  }

  /** Whether Rust's i128 `a / b` traps: a zero divisor, or the one overflowing quotient `i128::MIN / -1`. */
  predicate DivTraps(a: int, b: int) {
    b == 0 || (a == I128_MIN && b == -1)
  }

  /**
   * Rust's `/` on i128 as a partial operation: `None` for a zero divisor and
   * for the one overflowing quotient, `i128::MIN / -1`.
   */
  function DivI128(a: int, b: int): (r: Option<int>)
    requires IsI128(a) && IsI128(b)
    ensures r.None? <==> DivTraps(a, b)
    ensures r.Some? ==> r.value == RustDiv(a, b) && IsI128(r.value)
  {
    if b == 0 then None
    else
      QuotientInRange(a, b);
      if IsI128(RustDiv(a, b)) then Some(RustDiv(a, b)) else None
  }

  /** The only i128 quotient that leaves i128 is `i128::MIN / -1`. */
  lemma QuotientInRange(a: int, b: int)
    requires IsI128(a) && IsI128(b) && b != 0
    ensures IsI128(RustDiv(a, b)) <==> !(a == I128_MIN && b == -1)
  {
    var q := RustDiv(a, b);
    RustDivTruncates(a, b);
    if Abs(b) == 1 {
      assert Abs(q) == Abs(a);
    } else {
      DivShrinks(Abs(a), Abs(b));
      assert Abs(q) < I128_MAX;
    }
  }

  lemma DivShrinks(a: nat, b: nat)
    requires b >= 2
    ensures a / b <= a / 2
  {
    var q := a / b;
    assert q * b <= a;
    assert q * 2 <= q * b;
  }

  /** Truncating division by a positive divisor, bounded by multiples of the divisor. */
  lemma RustDivBounds(a: int, b: int)
    requires b > 0
    ensures a >= 0 ==> RustDiv(a, b) * b <= a < RustDiv(a, b) * b + b
    ensures a < 0 ==> RustDiv(a, b) * b - b < a <= RustDiv(a, b) * b
  {
    var q := RustDiv(a, b);
    if a >= 0 {
      assert q == a / b;
    } else {
      var m := (-a) / b;
      assert q == -m;
      assert m * b <= -a < m * b + b;
      assert q * b == -(m * b);
    }
  }

  /** Floor division of non-negative values is monotone in the dividend. */
  lemma DivMonotone(a: int, a': int, b: int)
    requires 0 <= a <= a' && b > 0
    ensures a / b <= a' / b
  {
    var q, q' := a / b, a' / b;
    assert q * b <= a';
    assert a' < (q' + 1) * b;
    MulCancel(q, q' + 1, b);
  }

  lemma MulCancel(x: int, y: int, b: int)
    requires b > 0 && x * b < y * b
    ensures x < y
  {
    if x >= y {
      MulMonotone(y, x, b);
    }
  }

  /** A product of two non-negative factors is non-negative. */
  lemma MulNonNegative(a: int, b: int)
    ensures a >= 0 && b >= 0 ==> a * b >= 0
  {
    if a >= 0 && b >= 0 {
      MulMonotone(0, a, b);
    }
  }

  lemma MulMonotone(x: int, y: int, b: int)
    requires x <= y && b >= 0
    ensures x * b <= y * b
  {
    assert y * b - x * b == (y - x) * b;
  }

  /** `a / b >= k` exactly when `a >= k * b`: floor division loses nothing in a threshold test. */
  lemma DivAtLeast(a: int, b: int, k: int)
    requires a >= 0 && b > 0
    ensures a / b >= k <==> a >= k * b
  {
    var q := a / b;
    assert q * b <= a < q * b + b;
    if q >= k {
      assert q * b >= k * b;
    } else {
      assert q + 1 <= k;
      assert (q + 1) * b <= k * b;
    }
  }
}
