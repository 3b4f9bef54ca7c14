/** Per-block difficulty (crates/consensus/src/asert.rs), composed with the
    compact-bits codec it decodes from and encodes into. */
module Asert {
  import opened Machine
  import opened Bytes
  import opened Compact

  const HALF: int := 0x1_0000_0000_0000_0000_0000_0000_0000_0000  // 2^128
  const LN2_Q16: int := 45426
  const HI_LIMIT: int := HALF / 0x1_0000  // products of high halves below 2^112 do not saturate on schedule

  datatype Schedule = Schedule(blockMs: u64, bootstrapHeight: u64, bootstrapTau: u64, tau: u64)

  /** 2^(num/den) in Q16.16, by the linear approximation around 1. `>>` on a
      negative i128 rounds down, as `/` does here; `/` in the source truncates. */
  function Pow2Q16(num: i128, den: i128): int {
    var x := TruncDiv(SatMulSigned(num, 0x1_0000), Max(den, 1));
    TruncDivFits(SatMulSigned(num, 0x1_0000), Max(den, 1));
    0x1_0000 + SatMulSigned(x, LN2_Q16) / 0x1_0000
  }

  /** The high 128 bits after scaling, before the clamp. */
  function RawHi(hi: nat, mult: int): nat {
    if mult < 0 then 0 else Max(SatMul(hi, mult) / 0x1_0000, 1)
  }

  function MaxHi(hi: nat): nat { SatMul(hi, 108) / 100 }

  function MinHi(hi: nat): nat { SatMul(hi, 100) / 108 }

  /** The scaled and clamped high half; `None` where Rust's `clamp` panics
      because its bounds have crossed. */
  function NextHi(hi: nat, mult: int): Option<nat> {
    var low := Max(MinHi(hi), 1);
    if low > MaxHi(hi) then None else Some(Max(low, Min(RawHi(hi, mult), MaxHi(hi))))
  }

  /** Milliseconds by which a block lags its schedule. */
  function Lag(parentTs: u64, ts: u64, blockMs: u64): i128 { ts - parentTs - blockMs }

  /** `asert_target` one block after its anchor: the low half of the parent's
      target is carried over, the high half is scaled and clamped. */
  function NextTarget(bits: u32, lag: i128, tau: u64): Option<nat> {
    var target := Decode(bits);
    if tau == 0 then Some(target)
    else match NextHi(target / HALF, Pow2Q16(lag, tau))
      case None => None
      case Some(hi) => Some(hi * HALF + target % HALF)
  }

  function TauFor(s: Schedule, parentHeight: u64): u64 {
    if (parentHeight + 1) % (U64_MAX + 1) < s.bootstrapHeight then s.bootstrapTau else s.tau
  }

  /** The encoded step; `None` where it panics. */
  function EncodedStep(bits: u32, lag: i128, tau: u64): Option<u32> {
    match NextTarget(bits, lag, tau)
    case None => None
    case Some(target) =>
      NextTargetFits(bits, lag, tau);
      Some(Encode(target))
  }

  /** `next_bits_from_parent`. A parent at height 2^64-1 wraps to a new height
      below it, and its target is passed through. */
  function NextBits(bits: u32, parentHeight: u64, parentTs: u64, ts: u64, s: Schedule): Option<u32> {
    EncodedStep(bits, Lag(parentTs, ts, s.blockMs), if parentHeight == U64_MAX then 0 else TauFor(s, parentHeight))
  }

  /** The retarget as a rule of parent bits, height and time, and the new time. */
  function RetargetOf(s: Schedule): (u32, u64, u64, u64) -> Option<u32> {
    (bits: u32, parentHeight: u64, parentTs: u64, ts: u64) => NextBits(bits, parentHeight, parentTs, ts, s)
  }

  lemma TruncDivFits(a: i128, d: int)
    requires d >= 1
    ensures I128_MIN <= TruncDiv(a, d) <= I128_MAX
    ensures a >= 0 ==> TruncDiv(a, d) >= 0
    ensures a <= 0 ==> TruncDiv(a, d) <= 0
  {
    QuotientShrinks(Abs(a), d);
  }

  lemma QuotientShrinks(a: nat, d: int)
    requires d >= 1
    ensures 0 <= a / d <= a
  {
    DivLower(0, a, d);
    DivLower(a / d, a, d);
    MulMonotone(1, d, a / d);
  }

  lemma NextTargetFits(bits: u32, lag: i128, tau: u64)
    requires NextTarget(bits, lag, tau).Some?
    ensures NextTarget(bits, lag, tau).value < TARGETS
    ensures Encode(NextTarget(bits, lag, tau).value) <= U32_MAX
  {
    DecodeBounded(bits);
    EncodeFits(NextTarget(bits, lag, tau).value);
  }

  /** The clamp's bounds cross, and the node panics, exactly when the parent's
      target has an empty high half. */
  lemma ClampPanicsOnlyOnEmptyHighHalf(bits: u32, parentHeight: u64, parentTs: u64, ts: u64, s: Schedule)
    ensures NextBits(bits, parentHeight, parentTs, ts, s) == None <==>
            Decode(bits) < HALF && parentHeight != U64_MAX && TauFor(s, parentHeight) != 0
  {
    var tau := if parentHeight == U64_MAX then 0 else TauFor(s, parentHeight);
    NextHiPanicsIff(Decode(bits) / HALF, Pow2Q16(Lag(parentTs, ts, s.blockMs), tau));
    assert Decode(bits) / HALF == 0 <==> Decode(bits) < HALF;
  }

  lemma NextHiPanicsIff(hi: nat, mult: int)
    ensures NextHi(hi, mult) == None <==> hi == 0
  {}

  // ---- How the multiplier responds ----

  /** Later blocks get a larger multiplier; on schedule it is exactly one. */
  lemma MultiplierMonotone(lag: i128, lag': i128, tau: u64)
    requires lag <= lag'
    ensures Pow2Q16(lag, tau) <= Pow2Q16(lag', tau)
    ensures Pow2Q16(0, tau) == 0x1_0000
  {
    var d := Max(tau, 1);
    TruncDivMonotone(SatMulSigned(lag, 0x1_0000), SatMulSigned(lag', 0x1_0000), d);
    TruncDivMonotone(0, 0, d);
    TruncDivFits(0, d);
    TruncDivFits(SatMulSigned(lag, 0x1_0000), d);
    TruncDivFits(SatMulSigned(lag', 0x1_0000), d);
  }

  lemma TruncDivMonotone(a: int, b: int, d: int)
    requires a <= b && d >= 1
    ensures TruncDiv(a, d) <= TruncDiv(b, d)
  {
    if a >= 0 { DivMonotone(a, b, d); }
    else {
      DivLower(0, -a, d);
      if b < 0 { DivMonotone(-b, -a, d); } else { DivLower(0, b, d); }
    }
  }

  /** A shorter half-life moves the multiplier at least as far from one. */
  lemma ShorterTauMovesFurther(lag: i128, tau: u64, tau': u64)
    requires 0 < tau <= tau'
    ensures lag >= 0 ==> Pow2Q16(lag, tau) >= Pow2Q16(lag, tau')
    ensures lag <= 0 ==> Pow2Q16(lag, tau) <= Pow2Q16(lag, tau')
  {
    var a := SatMulSigned(lag, 0x1_0000);
    assert lag >= 0 ==> a >= 0;
    assert lag <= 0 ==> a <= 0;
    TruncDivFits(a, tau);
    TruncDivFits(a, tau');
    SmallerDivisor(Abs(a), tau, tau');
    assert a >= 0 ==> TruncDiv(a, tau) >= TruncDiv(a, tau');
    assert a <= 0 ==> TruncDiv(a, tau) <= TruncDiv(a, tau');
    LogScaleMonotone(TruncDiv(a, tau), TruncDiv(a, tau'));
    LogScaleMonotone(TruncDiv(a, tau'), TruncDiv(a, tau));
  }

  lemma LogScaleMonotone(x: i128, x': i128)
    ensures x <= x' ==> SatMulSigned(x, LN2_Q16) / 0x1_0000 <= SatMulSigned(x', LN2_Q16) / 0x1_0000
  {}

  lemma SmallerDivisor(a: nat, d: int, d': int)
    requires 0 < d <= d'
    ensures a / d' <= a / d
  {
    DivLower(0, a, d');
    DivLower(a / d', a, d');
    MulMonotone(d, d', a / d');
    DivLower(a / d', a, d);
  }

  // ---- How the high half responds ----

  lemma NextHiMonotone(hi: nat, m: int, m': int)
    requires m <= m'
    ensures NextHi(hi, m).Some? <==> NextHi(hi, m').Some?
    ensures NextHi(hi, m).Some? ==> NextHi(hi, m).value <= NextHi(hi, m').value
  {
    if 0 <= m { MulMonotone(m, m', hi); }
  }

  /** One step from a high half in range stays in range, within the ±8% clamp,
      and the unit multiplier leaves it alone. */
  lemma NextHiInRange(hi: nat, mult: int)
    requires 1 <= hi < HI_LIMIT
    ensures NextHi(hi, mult).Some?
    ensures var h := NextHi(hi, mult).value;
            1 <= h < HI_LIMIT && 100 * hi / 108 <= h && 100 * h <= 108 * hi
    ensures NextHi(hi, 0x1_0000) == Some(hi)
  {}

  // ---- Chains of blocks ----

  ghost predicate InRange(bits: u32) { 1 <= Decode(bits) / HALF < HI_LIMIT }

  lemma RoundKeepsHighHalf(target: nat)
    requires HALF <= target < TARGETS / 0x1_0000
    ensures Encode(target) <= U32_MAX && InRange(Encode(target))
    ensures Encode(target) / EXPONENT <= 32
    ensures Decode(Encode(target)) <= target
    ensures 0x8000 * (target - Decode(Encode(target))) < target
  {
    CompactIsBestLowerApproximation(target);
    HalfIsRepresentable();
    BestBelow(HALF_BITS, target);
    EncodeFits(target);
  }

  const HALF_BITS: u32 := 17 * EXPONENT + 0x1_0000

  lemma HalfIsRepresentable()
    ensures Decode(HALF_BITS) == HALF
  {
    assert Pow256(7) == 0x100_0000_0000_0000;
    PowAdd(7, 7);
    assert HALF_BITS / EXPONENT == 17 && HALF_BITS % MANTISSA == 0x1_0000;
  }

  /** One block: from a high half in [1, 2^112) the node does not panic, the
      exponent stays within 32, the high half stays in range and rises by at
      most 8%, and the decoded target loses at most 2^-15 below the clamp's floor. */
  lemma NextBitsInRange(bits: u32, parentHeight: u64, parentTs: u64, ts: u64, s: Schedule)
    requires InRange(bits)
    ensures NextBits(bits, parentHeight, parentTs, ts, s).Some?
    ensures var b := NextBits(bits, parentHeight, parentTs, ts, s).value;
            && InRange(b) && b / EXPONENT <= 32
            && 100 * (Decode(b) / HALF) <= 108 * (Decode(bits) / HALF)
            && 0x8000 * Decode(b) > 0x7FFF * (100 * (Decode(bits) / HALF) / 108 * HALF)
  {
    var lag := Lag(parentTs, ts, s.blockMs);
    var tau := if parentHeight == U64_MAX then 0 else TauFor(s, parentHeight);
    StepTarget(bits, lag, tau);
    RoundedStep(Decode(bits) / HALF, NextTarget(bits, lag, tau).value);
  }

  lemma RoundedStep(hi: nat, t: nat)
    requires HALF <= t < TARGETS / 0x1_0000
    requires 100 * (t / HALF) <= 108 * hi && 100 * hi / 108 * HALF <= t
    ensures Encode(t) <= U32_MAX && InRange(Encode(t)) && Encode(t) / EXPONENT <= 32
    ensures 100 * (Decode(Encode(t)) / HALF) <= 108 * hi
    ensures 0x8000 * Decode(Encode(t)) > 0x7FFF * (100 * hi / 108 * HALF)
  {
    RoundKeepsHighHalf(t);
    DivMonotone(Decode(Encode(t)), t, HALF);
  }

  lemma StepTarget(bits: u32, lag: i128, tau: u64)
    requires InRange(bits)
    ensures NextTarget(bits, lag, tau).Some?
    ensures var t := NextTarget(bits, lag, tau).value;
            && HALF <= t < TARGETS / 0x1_0000
            && 100 * (t / HALF) <= 108 * (Decode(bits) / HALF)
            && 100 * (Decode(bits) / HALF) / 108 * HALF <= t
  {
    var hi, low, mult := Decode(bits) / HALF, Decode(bits) % HALF, Pow2Q16(lag, tau);
    NextHiInRange(hi, mult);
    var h := if tau == 0 then hi else NextHi(hi, mult).value;
    assert NextTarget(bits, lag, tau) == Some(h * HALF + low);
    DivUnique(h * HALF + low, HALF, h, low);
    MulMonotone(100 * hi / 108, h, HALF);
  }

  datatype Head = Head(height: u64, timestamp: u64, bits: u32)

  /** Consecutive headers, each carrying the bits the validator demands. */
  ghost predicate Chain(heads: seq<Head>, s: Schedule) {
    forall i :: 0 < i < |heads| ==>
      NextBits(heads[i - 1].bits, heads[i - 1].height, heads[i - 1].timestamp, heads[i].timestamp, s)
        == Some(heads[i].bits)
  }

  /** Every chain that starts in range stays in range, and its high half grows
      by at most 8% per block compounded. */
  lemma {:induction false} ChainStaysInRange(heads: seq<Head>, s: Schedule)
    requires |heads| > 0 && Chain(heads, s) && InRange(heads[0].bits)
    ensures forall i :: 0 <= i < |heads| ==> InRange(heads[i].bits)
    ensures Pow(100, |heads| - 1) * (Decode(heads[|heads| - 1].bits) / HALF)
            <= Pow(108, |heads| - 1) * (Decode(heads[0].bits) / HALF)
  {
    var n := |heads| - 1;
    if n > 0 {
      var front, last := heads[..n], heads[n - 1];
      ChainStaysInRange(front, s);
      NextBitsInRange(last.bits, last.height, last.timestamp, heads[n].timestamp, s);
      assert forall i :: 0 <= i <= n ==> heads[i] == if i < n then front[i] else heads[n];
      Compound(Pow(100, n - 1), Pow(108, n - 1), Decode(heads[0].bits) / HALF, Decode(last.bits) / HALF,
        Decode(heads[n].bits) / HALF);
    }
  }

  lemma Compound(p: nat, q: nat, first: nat, h: nat, h': nat)
    requires p * h <= q * first && 100 * h' <= 108 * h
    ensures (100 * p) * h' <= (108 * q) * first
  {
    MulMonotone(100 * h', 108 * h, p);
    assert (100 * p) * h' == 100 * h' * p && 108 * h * p == 108 * (p * h) && (108 * q) * first == 108 * (q * first);
  }

  // ---- Shape of the response through the whole pipeline ----

  lemma CodecMonotone(t: nat, t': nat)
    requires t <= t' < ENCODABLE
    ensures Encode(t) <= Encode(t') <= U32_MAX && Decode(Encode(t)) <= Decode(Encode(t'))
  {
    EncodeMonotone(t, t');
    RoundMonotone(t, t');
    DecodeEncode(t);
    DecodeEncode(t');
  }

  /** A later timestamp never yields smaller bits or a smaller target. */
  lemma LaterNeverHarder(bits: u32, parentHeight: u64, parentTs: u64, ts: u64, ts': u64, s: Schedule)
    requires InRange(bits) && ts <= ts'
    ensures var b, b' := NextBits(bits, parentHeight, parentTs, ts, s), NextBits(bits, parentHeight, parentTs, ts', s);
            b.Some? && b'.Some? && b.value <= b'.value && Decode(b.value) <= Decode(b'.value)
  {
    var tau := if parentHeight == U64_MAX then 0 else TauFor(s, parentHeight);
    var lag, lag' := Lag(parentTs, ts, s.blockMs), Lag(parentTs, ts', s.blockMs);
    StepTarget(bits, lag, tau);
    StepTarget(bits, lag', tau);
    MultiplierMonotone(lag, lag', tau);
    NextHiMonotone(Decode(bits) / HALF, Pow2Q16(lag, tau), Pow2Q16(lag', tau));
    CodecMonotone(NextTarget(bits, lag, tau).value, NextTarget(bits, lag', tau).value);
  }

  /** On schedule the target is unchanged, and canonical bits are unchanged
      exactly; a late block never hardens them, an early one never eases them. */
  lemma ResponseFollowsSchedule(bits: u32, parentHeight: u64, parentTs: u64, ts: u64, s: Schedule)
    requires InRange(bits)
    ensures NextBits(bits, parentHeight, parentTs, ts, s).Some?
    ensures var b := NextBits(bits, parentHeight, parentTs, ts, s).value;
            && (ts == parentTs + s.blockMs ==> Decode(b) == Decode(bits) && (Canonical(bits) ==> b == bits))
            && (ts >= parentTs + s.blockMs ==> Decode(b) >= Decode(bits) && (Canonical(bits) ==> b >= bits))
            && (ts <= parentTs + s.blockMs ==> Decode(b) <= Decode(bits) && (Canonical(bits) ==> b <= bits))
  {
    var tau := if parentHeight == U64_MAX then 0 else TauFor(s, parentHeight);
    var lag := Lag(parentTs, ts, s.blockMs);
    TargetFollowsLag(bits, lag, tau);
    var target := NextTarget(bits, lag, tau).value;
    CanonicalBitsRoundTrip(bits);
    DecodedTargetsAreExact(bits);
    if lag >= 0 { CodecMonotone(Decode(bits), target); }
    if lag <= 0 { CodecMonotone(target, Decode(bits)); }
  }

  /** An on-schedule block keeps its target exactly when the high half is in
      range: an empty one panics, and from 2^112 up the saturating product shrinks it. */
  lemma OnScheduleKeepsTargetIff(bits: u32, tau: u64)
    requires tau > 0
    ensures NextTarget(bits, 0, tau) == Some(Decode(bits)) <==> InRange(bits)
  {
    var hi, low := Decode(bits) / HALF, Decode(bits) % HALF;
    MultiplierMonotone(0, 0, tau);
    DecodeBounded(bits);
    OnScheduleHi(hi);
    if NextTarget(bits, 0, tau).Some? {
      var h := NextHi(hi, 0x1_0000).value;
      DivUnique(h * HALF + low, HALF, h, low);
    }
  }

  lemma OnScheduleHi(hi: nat)
    requires hi < HALF
    ensures NextHi(hi, 0x1_0000) == Some(hi) <==> 1 <= hi < HI_LIMIT
  {}

  lemma TargetFollowsLag(bits: u32, lag: i128, tau: u64)
    requires InRange(bits)
    ensures NextTarget(bits, lag, tau).Some? && NextTarget(bits, lag, tau).value < ENCODABLE
    ensures lag >= 0 ==> NextTarget(bits, lag, tau).value >= Decode(bits)
    ensures lag <= 0 ==> NextTarget(bits, lag, tau).value <= Decode(bits)
  {
    var hi := Decode(bits) / HALF;
    StepTarget(bits, lag, tau);
    MultiplierMonotone(Min(lag, 0), Max(lag, 0), tau);
    NextHiInRange(hi, Pow2Q16(lag, tau));
    NextHiMonotone(hi, Pow2Q16(Min(lag, 0), tau), Pow2Q16(Max(lag, 0), tau));
  }

  /** A block early or late by a whole half-life or more moves the high half by
      exactly the 8% the clamp allows, short of leaving the range. */
  lemma HalfLifeHitsTheClamp(bits: u32, lag: i128, tau: u64)
    requires InRange(bits) && tau > 0
    ensures NextTarget(bits, lag, tau).Some?
    ensures lag >= tau ==>
            NextTarget(bits, lag, tau).value / HALF == Min(108 * (Decode(bits) / HALF) / 100, HI_LIMIT - 1)
    ensures lag + tau <= 0 ==> NextTarget(bits, lag, tau).value / HALF == Max(100 * (Decode(bits) / HALF) / 108, 1)
  {
    var hi := Decode(bits) / HALF;
    StepTarget(bits, lag, tau);
    NextHighHalf(bits, lag, tau);
    if lag >= tau { LateByHalfLife(hi, lag, tau); }
    if lag + tau <= 0 { EarlyByHalfLife(hi, lag, tau); }
  }

  lemma NextHighHalf(bits: u32, lag: i128, tau: u64)
    requires tau > 0 && NextTarget(bits, lag, tau).Some?
    ensures NextHi(Decode(bits) / HALF, Pow2Q16(lag, tau)) == Some(NextTarget(bits, lag, tau).value / HALF)
  {
    var h, low := NextHi(Decode(bits) / HALF, Pow2Q16(lag, tau)).value, Decode(bits) % HALF;
    DivUnique(h * HALF + low, HALF, h, low);
  }

  lemma LateByHalfLife(hi: nat, lag: i128, tau: u64)
    requires 1 <= hi < HI_LIMIT && 0 < tau <= lag
    ensures NextHi(hi, Pow2Q16(lag, tau)) == Some(Min(108 * hi / 100, HI_LIMIT - 1))
  {
    MultiplierAtHalfLife(tau, tau);
    MultiplierMonotone(tau, lag, tau);
    ClampedAbove(hi, Pow2Q16(lag, tau));
  }

  lemma EarlyByHalfLife(hi: nat, lag: i128, tau: u64)
    requires 1 <= hi < HI_LIMIT && 0 < tau && lag + tau <= 0
    ensures NextHi(hi, Pow2Q16(lag, tau)) == Some(Max(100 * hi / 108, 1))
  {
    var early: i128 := lag - (lag + tau);
    MultiplierAtHalfLife(early, tau);
    MultiplierMonotone(lag, early, tau);
    ClampedBelow(hi, Pow2Q16(lag, tau));
  }

  lemma MultiplierAtHalfLife(lag: i128, tau: u64)
    requires tau > 0
    ensures lag == tau ==> Pow2Q16(lag, tau) == 0x1_0000 + LN2_Q16
    ensures lag + tau == 0 ==> Pow2Q16(lag, tau) == 0x1_0000 - LN2_Q16
  {
    DivUnique(tau * 0x1_0000, tau, 0x1_0000, 0);
  }

  lemma ClampedAbove(hi: nat, mult: int)
    requires 1 <= hi < HI_LIMIT && mult >= 0x1_0000 + LN2_Q16
    ensures NextHi(hi, mult) == Some(Min(108 * hi / 100, HI_LIMIT - 1))
  {
    MulMonotone(0x1_0000 + LN2_Q16, mult, hi);
  }

  lemma ClampedBelow(hi: nat, mult: int)
    requires 1 <= hi < HI_LIMIT && mult <= 0x1_0000 - LN2_Q16
    ensures NextHi(hi, mult) == Some(Max(100 * hi / 108, 1))
  {
    if mult >= 0 { MulMonotone(mult, 0x1_0000 - LN2_Q16, hi); }
  }

  /** With a shorter half-life, the same lag moves the bits at least as far in
      the same direction. */
  lemma ShorterTauReactsMore(bits: u32, lag: i128, tau: u64, tau': u64)
    requires InRange(bits) && 0 < tau <= tau'
    ensures NextTarget(bits, lag, tau).Some? && NextTarget(bits, lag, tau').Some?
    ensures var b, b' := Encode(NextTarget(bits, lag, tau).value), Encode(NextTarget(bits, lag, tau').value);
            && b <= U32_MAX && b' <= U32_MAX
            && (lag >= 0 ==> b >= b' && Decode(b) >= Decode(b') >= Decode(bits))
            && (lag <= 0 ==> b <= b' && Decode(b) <= Decode(b') <= Decode(bits))
  {
    var hi := Decode(bits) / HALF;
    StepTarget(bits, lag, tau);
    StepTarget(bits, lag, tau');
    ShorterTauMovesFurther(lag, tau, tau');
    MultiplierMonotone(Min(lag, 0), Max(lag, 0), tau');
    NextHiInRange(hi, 0x1_0000);
    var t, t' := NextTarget(bits, lag, tau).value, NextTarget(bits, lag, tau').value;
    DecodedTargetsAreExact(bits);
    if lag >= 0 {
      NextHiMonotone(hi, Pow2Q16(lag, tau'), Pow2Q16(lag, tau));
      NextHiMonotone(hi, 0x1_0000, Pow2Q16(lag, tau'));
      CodecMonotone(t', t);
      CodecMonotone(Decode(bits), t');
    }
    if lag <= 0 {
      NextHiMonotone(hi, Pow2Q16(lag, tau), Pow2Q16(lag, tau'));
      NextHiMonotone(hi, Pow2Q16(lag, tau'), 0x1_0000);
      CodecMonotone(t, t');
      CodecMonotone(t', Decode(bits));
    }
  }
}
