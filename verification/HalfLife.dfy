/** Which half-life governs a block, and what one step does with it
    (crates/consensus/src/asert.rs), without the functions that compute it. */
module HalfLife {
  import opened Machine
  import opened Bytes
  import opened Compact
  import opened Asert

  // ---- Which half-life applies ----

  /** Below the bootstrap height a block's bits come from the bootstrap half-life,
      from that height on from the regular one. */
  lemma HalfLifeByHeight(bits: u32, parentHeight: u64, parentTs: u64, ts: u64, s: Schedule)
    requires parentHeight < U64_MAX
    ensures NextBits(bits, parentHeight, parentTs, ts, s)
            == EncodedStep(bits, ts - parentTs - s.blockMs,
                           if parentHeight + 1 < s.bootstrapHeight then s.bootstrapTau else s.tau)
  {
    var tau := if parentHeight + 1 < s.bootstrapHeight then s.bootstrapTau else s.tau;
    assert TauFor(s, parentHeight) == tau;
  }

  /** The encoded step, by the target it steps to. */
  lemma EncodedStepOf(bits: u32, lag: i128, tau: u64, t: Option<nat>)
    requires t == NextTarget(bits, lag, tau)
    ensures EncodedStep(bits, lag, tau) == if t.None? then None else Some(Encode(t.value))
  {}

  /** `b` moves the bits at least as far as `b'`, the way the lag points. */
  ghost predicate MovesFurther(bits: u32, lag: int, b: Option<u32>, b': Option<u32>) {
    && b.Some? && b'.Some?
    && (lag >= 0 ==> b.value >= b'.value && Decode(b.value) >= Decode(b'.value) >= Decode(bits))
    && (lag <= 0 ==> b.value <= b'.value && Decode(b.value) <= Decode(b'.value) <= Decode(bits))
  }

  lemma ShorterStepMovesFurther(bits: u32, lag: i128, tau: u64, tau': u64)
    requires InRange(bits) && 0 < tau <= tau'
    ensures MovesFurther(bits, lag, EncodedStep(bits, lag, tau), EncodedStep(bits, lag, tau'))
  {
    ShorterTauReactsMore(bits, lag, tau, tau');
    EncodedStepOf(bits, lag, tau, NextTarget(bits, lag, tau));
    EncodedStepOf(bits, lag, tau', NextTarget(bits, lag, tau'));
  }

  /** With the shorter half-life of the two below the bootstrap height, the same
      lag moves the bits at least as far at any height there as at any past it. */
  lemma BootstrapReactsMore(bits: u32, early: u64, late: u64, parentTs: u64, ts: u64, s: Schedule)
    requires InRange(bits) && 0 < s.bootstrapTau <= s.tau
    requires early + 1 < s.bootstrapHeight <= late + 1 <= U64_MAX
    ensures MovesFurther(bits, ts - parentTs - s.blockMs,
                         NextBits(bits, early, parentTs, ts, s), NextBits(bits, late, parentTs, ts, s))
  {
    HalfLifeByHeight(bits, early, parentTs, ts, s);
    HalfLifeByHeight(bits, late, parentTs, ts, s);
    ShorterStepMovesFurther(bits, ts - parentTs - s.blockMs, s.bootstrapTau, s.tau);
  }

  // ---- What the half-life does ----

  /** Without a half-life the target is passed through, and so it is where the
      parent's height is the largest and the new one wraps. */
  lemma NoHalfLife(bits: u32, lag: i128, parentTs: u64, ts: u64, s: Schedule)
    ensures NextTarget(bits, lag, 0) == Some(Decode(bits))
    ensures NextBits(bits, U64_MAX, parentTs, ts, s) == Some(Encode(Decode(bits)))
  {
    EncodedStepOf(bits, ts - parentTs - s.blockMs, 0, Some(Decode(bits)));
  }

  /** The factor: `x` is the lag in half-lives, in units of 2^-16 and truncated
      toward zero, and `m` is one plus `x` times ln 2, in the same units. Lags
      between 64-bit times are far from where the products saturate. */
  lemma FactorOf(lag: i128, tau: u64) returns (x: int, m: int)
    requires tau > 0 && -0x2_0000_0000_0000_0000 <= lag <= 0x2_0000_0000_0000_0000
    ensures lag >= 0 ==> x * tau <= 0x1_0000 * lag < (x + 1) * tau
    ensures lag <= 0 ==> (x - 1) * tau < 0x1_0000 * lag <= x * tau
    ensures 0x1_0000 * (m - 0x1_0000) <= 45426 * x < 0x1_0000 * (m - 0x1_0000 + 1)
    ensures m == Pow2Q16(lag, tau)
  {
    var a := 0x1_0000 * lag;
    x, m := TruncDiv(a, tau), Pow2Q16(lag, tau);
    TruncatedBetween(a, tau);
    TruncDivFits(a, tau);
    QuotientShrinks(Abs(a), tau);
    assert Abs(x) <= Abs(a);
  }

  lemma TruncatedBetween(a: int, d: int)
    requires d > 0
    ensures a >= 0 ==> TruncDiv(a, d) * d <= a < (TruncDiv(a, d) + 1) * d
    ensures a <= 0 ==> (TruncDiv(a, d) - 1) * d < a <= TruncDiv(a, d) * d
  {
    var b := Abs(a);
    DivLower(b / d, b, d);
    DivLower(b / d + 1, b, d);
    MulMonotone(b / d, b / d, d);
    assert (-(b / d)) * d == -(b / d * d) && (-(b / d) - 1) * d == -((b / d + 1) * d);
  }

  /** One step from a target with high half `hi`, by a factor `m`: the low half is
      carried over, and the high half becomes the greatest number that is at most
      the scaled one and 108/100 of `hi`, or at most 100/108 of it, or one. Every
      product saturates at 128 bits. */
  lemma StepScalesHighHalf(bits: u32, lag: i128, tau: u64, m: int, x: nat)
    requires tau > 0 && Decode(bits) / HALF >= 1 && m == Pow2Q16(lag, tau) && x >= 1
    ensures NextTarget(bits, lag, tau).Some?
    ensures var hi, h := Decode(bits) / HALF, NextTarget(bits, lag, tau).value / HALF;
            && NextTarget(bits, lag, tau).value % HALF == Decode(bits) % HALF
            && (x <= h <==>
                  || x == 1
                  || 108 * x <= Min(100 * hi, U128_MAX)
                  || (100 * x <= Min(108 * hi, U128_MAX) && 0x1_0000 * x <= Min(hi * m, U128_MAX)))
  {
    var hi, low := Decode(bits) / HALF, Decode(bits) % HALF;
    ScaledHighHalf(hi, m, x);
    var h := NextHi(hi, m).value;
    DivUnique(h * HALF + low, HALF, h, low);
  }

  lemma ScaledHighHalf(hi: nat, m: int, x: nat)
    requires hi >= 1 && x >= 1
    ensures NextHi(hi, m).Some?
    ensures x <= NextHi(hi, m).value <==>
            || x == 1
            || 108 * x <= Min(100 * hi, U128_MAX)
            || (100 * x <= Min(108 * hi, U128_MAX) && 0x1_0000 * x <= Min(hi * m, U128_MAX))
  {
    if m >= 0 { MulNonNegative(hi, m); } else { MulMonotone(1, hi, -m); }
  }

  // ---- The schedule of this chain ----

  /** A mantissa above `j` further bytes is what the encoding keeps. */
  lemma {:induction false} EncodeKeepsMantissa(mantissa: nat, j: nat, rest: nat)
    requires 0x8000 <= mantissa < MANTISSA && rest < Pow256(j)
    ensures Encode(mantissa * Pow256(j) + rest) == (3 + j) * EXPONENT + mantissa
  {
    if j > 0 {
      var p := Pow256(j - 1);
      var t := mantissa * Pow256(j) + rest;
      MulAssociative(mantissa, 256, p);
      DivUnique(t, 256, mantissa * p + rest / 256, rest % 256);
      MulMonotone(1, p, mantissa);
      EncodeUnfold(t);
      EncodeKeepsMantissa(mantissa, j - 1, rest / 256);
    }
  }

  const POW9: nat := 0x100_0000_0000_0000_0000  // 256^9

  lemma GenesisTarget(bits: u32)
    requires bits == 0x1E00_FFFF
    ensures Decode(bits) == 0xFFFF * POW9 * 0x1_0000 * HALF && POW9 * HALF == Pow256(25)
  {
    assert Pow256(5) == 0x100_0000_0000 && Pow256(4) == 0x1_0000_0000;
    PowAdd(5, 4);
    PowAdd(4, 4);
    PowAdd(8, 8);
    PowAdd(9, 16);
    PowAdd(25, 2);
  }

  /** The high half of a target with an empty low one. */
  lemma HighHalfOnly(bits: u32, lag: i128, tau: u64, m: int, hi: nat, h: nat)
    requires tau > 0 && Decode(bits) == hi * HALF && m == Pow2Q16(lag, tau) && NextHi(hi, m) == Some(h)
    ensures NextTarget(bits, lag, tau) == Some(h * HALF)
  {
    DivUnique(hi * HALF, HALF, hi, 0);
  }

  /** A step from the genesis target by a factor `m` within the clamp. */
  lemma StepFromGenesis(bits: u32, m: nat, lag: i128, tau: u64)
    requires bits == 0x1E00_FFFF && tau > 0 && m == Pow2Q16(lag, tau) && 0x1_0000 <= m <= 0x1_1000
    ensures NextTarget(bits, lag, tau) == Some(0xFFFF * m * Pow256(25))
  {
    GenesisTarget(bits);
    ScaledGenesis(m);
    HighHalfOnly(bits, lag, tau, m, 0xFFFF * POW9 * 0x1_0000, 0xFFFF * m * POW9);
  }

  lemma ScaledGenesis(m: nat)
    requires 0x1_0000 <= m <= 0x1_1000
    ensures NextHi(0xFFFF * POW9 * 0x1_0000, m) == Some(0xFFFF * m * POW9)
  {}

  lemma EncodedProduct(a: nat, mantissa: nat, rest: nat, j: nat)
    requires a == mantissa * 0x1_0000 + rest && rest < 0x1_0000 && 0x8000 <= mantissa < MANTISSA
    ensures Encode(a * Pow256(j)) == (5 + j) * EXPONENT + mantissa
  {
    PowAdd(2, j);
    assert Pow256(2) == 0x1_0000;
    Regroup(a, mantissa, rest, Pow256(j));
    EncodeKeepsMantissa(mantissa, 2 + j, rest * Pow256(j));
  }

  lemma Regroup(a: nat, mantissa: nat, rest: nat, p: nat)
    requires a == mantissa * 0x1_0000 + rest && rest < 0x1_0000 && p >= 1
    ensures a * p == mantissa * (0x1_0000 * p) + rest * p && 0 <= rest * p < 0x1_0000 * p
  {
    MulAssociative(mantissa, 0x1_0000, p);
    ProductMonotone(rest, 0x1_0000, p, p);
    MulNonNegative(rest, p);
  }

  lemma MinuteFactor(tau: u64)
    ensures tau == 3_600_000 ==> Pow2Q16(60_000, tau) == 66292
    ensures tau == 172_800_000 ==> Pow2Q16(60_000, tau) == 65551
  {
    var a := 60_000 * 0x1_0000;
    DivUnique(a, 3_600_000, 1092, a - 1092 * 3_600_000);
    DivUnique(a, 172_800_000, 22, a - 22 * 172_800_000);
  }

  lemma MinuteLateTarget(bits: u32, tau: u64, m: nat)
    requires bits == 0x1E00_FFFF && (tau == 3_600_000 || tau == 172_800_000)
    requires m == if tau == 3_600_000 then 66292 else 65551
    ensures NextTarget(bits, 60_000, tau) == Some(0xFFFF * m * Pow256(25))
  {
    MinuteFactor(tau);
    StepFromGenesis(bits, m, 60_000, tau);
  }

  lemma MinuteLateBits(m: nat)
    ensures m == 66292 ==> Encode(0xFFFF * m * Pow256(25)) == 0x1E01_02F2
    ensures m == 65551 ==> Encode(0xFFFF * m * Pow256(25)) == 0x1E01_000D
  {
    if m == 66292 { EncodedProduct(0xFFFF * m, 0x1_02F2, 0xFFFF * m - 0x1_02F2_0000, 25); }
    if m == 65551 { EncodedProduct(0xFFFF * m, 0x1_000D, 0xFFFF * m - 0x1_000D_0000, 25); }
  }

  lemma MinuteLateStep(bits: u32, tau: u64)
    requires bits == 0x1E00_FFFF && (tau == 3_600_000 || tau == 172_800_000)
    ensures EncodedStep(bits, 60_000, tau) == Some(if tau == 3_600_000 then 0x1E01_02F2 else 0x1E01_000D)
  {
    var m := if tau == 3_600_000 then 66292 else 65551;
    MinuteLateTarget(bits, tau, m);
    MinuteLateBits(m);
    EncodedStepOf(bits, 60_000, tau, Some(0xFFFF * m * Pow256(25)));
  }

  /** The genesis schedule, a block one minute late on a parent with the genesis
      bits: in the bootstrap phase its target rises by more than a percent, later
      by a quarter of a permille. */
  lemma OneMinuteLate(bits: u32, height: u64, parentTs: u64, s: Schedule)
    requires bits == 0x1E00_FFFF && height < U64_MAX && parentTs + 660_000 <= U64_MAX
    requires s.blockMs == 600_000 && s.bootstrapHeight == 2016
    requires s.bootstrapTau == 3_600_000 && s.tau == 172_800_000
    ensures NextBits(bits, height, parentTs, parentTs + 660_000, s)
            == Some(if height + 1 < 2016 then 0x1E01_02F2 else 0x1E01_000D)
  {
    HalfLifeByHeight(bits, height, parentTs, parentTs + 660_000, s);
    MinuteLateStep(bits, if height + 1 < 2016 then s.bootstrapTau else s.tau);
  }
}
