/** Fixed-width integers of the original program, and the saturating operators
    its consensus arithmetic is written with. */
module Machine {
  const U32_MAX: int := 0xFFFF_FFFF
  const U64_MAX: int := 0xFFFF_FFFF_FFFF_FFFF
  const U128_MAX: int := 0xFFFF_FFFF_FFFF_FFFF_FFFF_FFFF_FFFF_FFFF
  const I128_MAX: int := 0x7FFF_FFFF_FFFF_FFFF_FFFF_FFFF_FFFF_FFFF
  const I128_MIN: int := -0x8000_0000_0000_0000_0000_0000_0000_0000

  type byte = x: int | 0 <= x < 256
  type u32 = x: int | 0 <= x <= U32_MAX
  type u64 = x: int | 0 <= x <= U64_MAX
  type u128 = x: int | 0 <= x <= U128_MAX
  type i128 = x: int | I128_MIN <= x <= I128_MAX

  datatype Option<+T> = None | Some(value: T)
  datatype Result<+T, +E> = Ok(value: T) | Err(error: E)

  function Min(a: int, b: int): int { if a <= b then a else b }

  function Max(a: int, b: int): int { if a >= b then a else b }

  function Abs(a: int): nat { if a >= 0 then a else -a }

  function SatAdd(a: u128, b: u128): u128 { if a + b <= U128_MAX then a + b else U128_MAX }

  function SatSub(a: u128, b: u128): u128 { if a >= b then a - b else 0 }

  function SatMul(a: nat, b: nat): u128 {
    MulNonNegative(a, b);
    if a * b <= U128_MAX then a * b else U128_MAX
  }

  function SatMulSigned(a: i128, b: i128): i128 {
    if a * b > I128_MAX then I128_MAX else if a * b < I128_MIN then I128_MIN else a * b
  }

  /** Rust's `/` on signed integers: the quotient is truncated toward zero. */
  function TruncDiv(a: int, b: int): int
    requires b > 0
  {
    if a >= 0 then a / b else -((-a) / b)
  }

  function Pow(b: nat, n: nat): (p: nat)
    ensures b > 0 ==> p > 0
  {
    if n == 0 then 1 else b * Pow(b, n - 1)
  }

  lemma MulNonNegative(a: int, b: int)
    requires 0 <= a && 0 <= b
    ensures 0 <= a * b
  {}

  lemma MulMonotone(a: int, b: int, c: int)
    requires a <= b && 0 <= c
    ensures a * c <= b * c
  {}

  lemma ProductMonotone(a: nat, b: nat, c: nat, d: nat)
    requires a <= b && c <= d
    ensures a * c <= b * d
    ensures a < b && 0 < c ==> a * c < b * d
  {
    MulMonotone(a, b, c);
    MulMonotone(c, d, b);
    if a < b { MulMonotone(a + 1, b, c); assert (a + 1) * c == a * c + c; }
  }

  lemma MulAssociative(a: int, b: int, c: int)
    ensures a * (b * c) == (a * b) * c == b * (a * c)
  {}

  /** Everything division is used for here: the quotient is the one integer
      that fits. */
  lemma DivUnique(a: int, b: int, q: int, r: int)
    requires b > 0 && a == q * b + r && 0 <= r < b
    ensures a / b == q && a % b == r
  {
    var d := a / b - q;
    assert d * b == r - a % b by { assert a == (a / b) * b + a % b; assert d * b == (a / b) * b - q * b; }
    if d >= 1 { MulMonotone(1, d, b); } else if d <= -1 { MulMonotone(d, -1, b); }
  }

  /** `q` is below the quotient exactly when `q` divisors fit. */
  lemma DivLower(q: int, a: int, d: int)
    requires d > 0
    ensures q <= a / d <==> q * d <= a
  {
    if q <= a / d { MulMonotone(q, a / d, d); }
    else { MulMonotone(a / d + 1, q, d); assert (a / d + 1) * d == (a / d) * d + d; }
  }

  lemma DivMonotone(a: int, b: int, d: int)
    requires a <= b && d > 0
    ensures a / d <= b / d
  {
    DivLower(a / d, a, d);
    DivLower(a / d, b, d);
  }
}
