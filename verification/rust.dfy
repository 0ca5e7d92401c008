/** Rust's fixed-width integers and panics, as the level generator uses them.
    Integers in Dafny are unbounded, so every width, wrap-around, saturation and
    truncating division the Rust code relies on is written out here. */
module Rust {

  const INT32_MIN: int := -0x8000_0000
  const INT32_MAX: int := 0x7fff_ffff
  const UINT32_MAX: int := 0xffff_ffff

  /** Rust `i32`. */
  type int32 = x: int | INT32_MIN <= x <= INT32_MAX

  /** Rust `u32`. */
  type uint32 = x: int | 0 <= x <= UINT32_MAX

  /** A grid position `(i32, i32)`. */
  type Pos = (int32, int32)

  /** The outcome of a call that may panic (`todo!()`, `expect`). */
  datatype Result<T> = Ok(value: T) | Panic(message: string)

  /** `x as i32` for `x: u32`: the bit pattern is reinterpreted, so values at
      or above 2^31 become negative. */
  function WrapToInt32(x: uint32): (r: int32)
    ensures x <= INT32_MAX ==> r == x
    ensures x > INT32_MAX ==> r < 0 && r + 0x1_0000_0000 == x
  {
    if x <= INT32_MAX then x else x - 0x1_0000_0000
  }

  /** `f as i32` for an already floored float: Rust saturates at the bounds. */
  function SaturateToInt32(k: int): (r: int32)
    ensures INT32_MIN <= k <= INT32_MAX ==> r == k
    ensures k < INT32_MIN ==> r == INT32_MIN
    ensures k > INT32_MAX ==> r == INT32_MAX
  {
    if k < INT32_MIN then INT32_MIN else if k > INT32_MAX then INT32_MAX else k
  }

  /** Rust's integer `/` for a positive divisor: the quotient is truncated
      toward zero (Dafny's `/` is Euclidean, which floors for b > 0). */
  function TruncDiv(a: int, b: int): (q: int)
    requires b > 0
    ensures a >= 0 ==> 0 <= q * b <= a < (q + 1) * b
    ensures a < 0 ==> (q - 1) * b < a <= q * b <= 0
  {
    if a >= 0 then
      QuotientBounds(a, b);
      a / b
    else
      QuotientBounds(-a, b);
      -((-a) / b)
  }

  /** Floor division of a non-negative number, and its negation. */
  lemma QuotientBounds(n: int, b: int)
    requires 0 <= n && 0 < b
    ensures 0 <= (n / b) * b <= n < (n / b + 1) * b
    ensures (-(n / b)) * b == -((n / b) * b)
    ensures (-(n / b) - 1) * b == -((n / b + 1) * b)
  {
    var m, r := n / b, n % b;
    assert n == b * m + r && 0 <= r < b && 0 <= m;
    assert m * b == b * m && (m + 1) * b == b * m + b;
    assert 0 <= b * m by { NonNegativeProduct(b, m); }
  }

  lemma NonNegativeProduct(x: int, y: int)
    requires 0 <= x && 0 <= y
    ensures 0 <= x * y
  {
  }

  /** For the divisor 16 (a chunk's width in cells), truncation and floor
      division agree on non-negative numbers and on exact multiples; on a
      negative non-multiple truncation is one above the floor. */
  lemma TruncDivVersusFloor(a: int)
    ensures a >= 0 ==> TruncDiv(a, 16) == a / 16
    ensures a % 16 == 0 ==> TruncDiv(a, 16) == a / 16
    ensures a < 0 && a % 16 != 0 ==> TruncDiv(a, 16) == a / 16 + 1
  {
    if a < 0 {
      var q, r := (-a) / 16, (-a) % 16;
      assert -a == 16 * q + r;
      if r == 0 {
        assert a == 16 * (-q);
      } else {
        assert a == 16 * (-q - 1) + (16 - r);
      }
    }
  }
}
