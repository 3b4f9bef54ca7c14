/** Compact difficulty bits (crates/consensus/src/pow.rs).

    The two codecs work byte by byte on a 32-byte big-endian target.  They are
    proved against `Decode` and `Encode`, which speak only of numbers; the
    laws of the format are then laws of those two functions. */
module Compact {
  import opened Machine
  import opened Bytes

  const EXPONENT: int := 0x100_0000    // weight of the exponent byte
  const MANTISSA: int := 0x80_0000     // mantissas are below 2^23
  const ENCODABLE: int := TARGETS / 2  // targets below 2^255 survive the encoding

  /** The target that compact bits denote. */
  function Decode(bits: u32): nat {
    var e, m := bits / EXPONENT, bits % MANTISSA;
    if e == 0 || e > 32 then 0
    else if e == 1 then m / 0x1_0000
    else if e == 2 then m / 0x100
    else m * Pow256(e - 3)
  }

  /** Number of low bytes of `t` that do not fit in the mantissa. */
  function Shift(t: nat): nat { if t < MANTISSA then 0 else 1 + Shift(t / 256) }

  /** `t` with the bytes that do not fit in the mantissa cleared. */
  function Round(t: nat): nat { if t < MANTISSA then t else 256 * Round(t / 256) }

  /** The compact form of a target: each byte dropped costs one exponent step. */
  function Encode(t: nat): nat {
    if t == 0 then 0
    else if t < 0x80 then EXPONENT + t * 0x1_0000
    else if t < 0x8000 then 2 * EXPONENT + t * 0x100
    else if t < MANTISSA then 3 * EXPONENT + t
    else EXPONENT + Encode(t / 256)
  }

  /** Bits in canonical form: no sign bit, no exponent larger than needed, and
      no mantissa bytes that fall off the end of the target. */
  predicate Canonical(bits: u32) {
    var e, m := bits / EXPONENT, bits % EXPONENT;
    bits == 0 ||
    (1 <= e <= 32 && 0x8000 <= m < MANTISSA && (e == 1 ==> m % 0x1_0000 == 0) && (e == 2 ==> m % 0x100 == 0))
  }

  ghost predicate Representable(t: nat) { exists b: u32 :: Decode(b) == t }

  // ---- Encoding is a closest lower approximation ----

  lemma {:induction false} RoundSplits(t: nat)
    ensures Round(t) <= t < Round(t) + Pow256(Shift(t))
    ensures Shift(t) > 0 ==> 0x8000 * Pow256(Shift(t)) <= t
    ensures t >= MANTISSA ==> Round(t) >= MANTISSA
    ensures t >= 0x8000 ==> Round(t) >= 0x8000
  {
    if t < MANTISSA {
    } else {
      RoundSplits(t / 256);
    }
  }

  lemma {:induction false} RoundMonotone(s: nat, t: nat)
    requires s <= t
    ensures Round(s) <= Round(t)
    ensures Encode(s) <= Encode(t)
    ensures s > 0 ==> Encode(s) > 0
    decreases t
  {
    if t < MANTISSA {
    } else if s < MANTISSA {
      RoundSplits(t);
      EncodeHigh(t);
    } else {
      RoundMonotone(s / 256, t / 256);
    }
  }

  /** The mantissa `Encode` keeps. */
  function Mantissa(t: nat): nat { if t < MANTISSA then t else Mantissa(t / 256) }

  lemma {:induction false} EncodeHigh(t: nat)
    requires t >= 0x8000
    ensures Encode(t) == (3 + Shift(t)) * EXPONENT + Mantissa(t)
    ensures 0x8000 <= Mantissa(t) < MANTISSA
    ensures Mantissa(t) * Pow256(Shift(t)) == Round(t)
  {
    if t < MANTISSA {
    } else {
      EncodeHigh(t / 256);
      MulAssociative(Mantissa(t / 256), 256, Pow256(Shift(t / 256)));
    }
  }

  lemma Fields(e: nat, m: nat)
    requires m < MANTISSA
    ensures var b := e * EXPONENT + m; b / EXPONENT == e && b % EXPONENT == b % MANTISSA == m
  {}

  lemma {:induction false} ShiftBound(t: nat, k: nat)
    ensures t < MANTISSA * Pow256(k) <==> Shift(t) <= k
  {
    if t < MANTISSA {
      assert MANTISSA * Pow256(k) >= MANTISSA;
    } else if k == 0 {
    } else {
      ShiftBound(t / 256, k - 1);
    }
  }

  lemma LimitPowers()
    ensures MANTISSA * Pow256(29) == ENCODABLE && MANTISSA * Pow256(30) > TARGETS
    ensures Pow256(32) == TARGETS
  {
    assert Pow256(8) == 0x1_0000_0000_0000_0000;
    PowAdd(8, 8);
    PowAdd(16, 8);
    PowAdd(24, 5);
    PowAdd(29, 1);
    PowAdd(16, 16);
    assert Pow256(5) == 0x100_0000_0000;
  }

  /** Every target encodes into 32 bits, and the exponent is at most 32
      exactly for targets below 2^255. */
  lemma EncodeFits(t: nat)
    requires t < TARGETS
    ensures Encode(t) <= U32_MAX
    ensures Encode(t) / EXPONENT <= 32 <==> t < ENCODABLE
  {
    if t >= 0x8000 {
      LimitPowers();
      ShiftBound(t, 29);
      ShiftBound(t, 30);
      EncodeHigh(t);
      Fields(3 + Shift(t), Mantissa(t));
    }
  }

  /** Decoding an encoded target gives the target with its low bytes cleared,
      as long as the exponent is one the decoder accepts; above that, zero. */
  lemma DecodeEncode(t: nat)
    requires t < TARGETS
    ensures Encode(t) <= U32_MAX
    ensures Decode(Encode(t)) == if t < ENCODABLE then Round(t) else 0
  {
    EncodeFits(t);
    if t >= 0x8000 {
      EncodeHigh(t);
      Fields(3 + Shift(t), Mantissa(t));
    } else if t > 0 {
      Fields(if t < 0x80 then 1 else 2, if t < 0x80 then t * 0x1_0000 else t * 0x100);
    }
  }

  lemma {:induction false} RoundIsBest(m: nat, j: nat, t: nat)
    requires m < MANTISSA && m * Pow256(j) <= t
    ensures m * Pow256(j) <= Round(t)
    decreases t
  {
    if t < MANTISSA {
    } else if j == 0 {
      RoundSplits(t);
    } else {
      MulAssociative(m, 256, Pow256(j - 1));
      RoundIsBest(m, j - 1, t / 256);
    }
  }

  /** The round trip yields the greatest representable target not above `t`,
      with a relative error below 2^-15. */
  lemma CompactIsBestLowerApproximation(t: nat)
    requires 0 < t < ENCODABLE
    ensures Encode(t) <= U32_MAX
    ensures var d := Decode(Encode(t));
            && Representable(d) && 0 < d <= t && 0x8000 * (t - d) < t
            && forall b: u32 :: Decode(b) <= t ==> Decode(b) <= d
  {
    DecodeEncode(t);
    RoundSplits(t);
    if t >= MANTISSA { assert Shift(t) > 0; }
    forall b: u32 | Decode(b) <= t ensures Decode(b) <= Decode(Encode(t)) { BestBelow(b, t); }
  }

  lemma BestBelow(b: u32, t: nat)
    requires Decode(b) <= t < ENCODABLE
    ensures Encode(t) <= U32_MAX && Decode(b) <= Decode(Encode(t)) <= t
  {
    DecodeEncode(t);
    RoundSplits(t);
    var e, m := b / EXPONENT, b % MANTISSA;
    if 3 <= e <= 32 {
      RoundIsBest(m, e - 3, t);
    } else {
      assert Decode(b) < MANTISSA && Decode(b) * Pow256(0) == Decode(b);
      RoundIsBest(Decode(b), 0, t);
    }
  }

  /** A larger target never has smaller bits. */
  lemma EncodeMonotone(s: nat, t: nat)
    requires s <= t < TARGETS
    ensures Encode(s) <= Encode(t) <= U32_MAX
  {
    RoundMonotone(s, t);
    EncodeFits(t);
  }

  lemma {:induction false} EncodeRound(t: nat)
    ensures Encode(Round(t)) == Encode(t)
    ensures Round(Round(t)) == Round(t)
  {
    if t < MANTISSA {
    } else {
      EncodeRound(t / 256);
      RoundSplits(t);
      assert Round(t) / 256 == Round(t / 256);
    }
  }

  /** Encoding again after a round trip changes nothing, exactly for targets
      below 2^255: above, the exponent is 33 and the decoder answers zero. */
  lemma ReencodeIsIdentityBelowLimit(t: nat)
    requires t < TARGETS
    ensures Encode(t) <= U32_MAX
    ensures Encode(Decode(Encode(t))) == Encode(t) <==> t < ENCODABLE
  {
    DecodeEncode(t);
    EncodeRound(t);
    RoundMonotone(t, t);
  }

  /** Bits that survive decode-then-encode are exactly the canonical ones. */
  lemma CanonicalBitsRoundTrip(b: u32)
    ensures Decode(b) < ENCODABLE
    ensures Encode(Decode(b)) == b <==> Canonical(b)
  {
    DecodeBounded(b);
    var e, m := b / EXPONENT, b % MANTISSA;
    if e == 1 {
      SmallEncode(m / 0x1_0000);
    } else if e == 2 {
      SmallEncode(m / 0x100);
    } else if 3 <= e <= 32 {
      LongBitsRoundTrip(b, e, m);
    }
  }

  lemma LongBitsRoundTrip(b: u32, e: int, m: int)
    requires e == b / EXPONENT && m == b % MANTISSA && 3 <= e <= 32
    ensures Encode(Decode(b)) == b <==> 0x8000 <= b % EXPONENT < MANTISSA
  {
    EncodeScaled(m, e - 3);
    var encoded := Encode(m * Pow256(e - 3));
    assert encoded == Encode(Decode(b));
    SplitBits(b, e, m, encoded);
  }

  lemma SplitBits(b: u32, e: int, m: int, encoded: nat)
    requires e == b / EXPONENT && m == b % MANTISSA
    requires if m >= 0x8000 then encoded == e * EXPONENT + m else encoded < e * EXPONENT
    ensures encoded == b <==> 0x8000 <= b % EXPONENT < MANTISSA
  {
    assert b == e * EXPONENT + b % EXPONENT;
  }

  lemma SmallEncode(t: nat)
    ensures t == 0 ==> Encode(t) == 0
    ensures 0 < t < 0x80 ==> Encode(t) == EXPONENT + t * 0x1_0000
    ensures 0x80 <= t < 0x8000 ==> Encode(t) == 2 * EXPONENT + t * 0x100
  {}

  lemma DecodeBounded(b: u32)
    ensures Decode(b) < ENCODABLE
  {
    var e, m := b / EXPONENT, b % MANTISSA;
    if 3 <= e <= 32 {
      LimitPowers();
      PowMonotone(e - 3, 29);
      ProductMonotone(m, MANTISSA, Pow256(e - 3), Pow256(29));
    }
  }

  lemma EncodeUnfold(t: nat)
    ensures t < MANTISSA ==> Encode(t) < 3 * EXPONENT + MANTISSA
    ensures t >= MANTISSA ==> Encode(t) == EXPONENT + Encode(t / 256)
  {}

  /** What encoding does to a mantissa with `j` zero bytes behind it. */
  lemma {:induction false} EncodeScaled(m: nat, j: nat)
    requires m < MANTISSA
    ensures m >= 0x8000 ==> Encode(m * Pow256(j)) == (3 + j) * EXPONENT + m
    ensures m < 0x8000 ==> Encode(m * Pow256(j)) < (3 + j) * EXPONENT
  {
    if j == 0 {
    } else {
      EncodeScaled(m, j - 1);
      var p := Pow256(j - 1);
      var t := m * p;
      MulAssociative(m, 256, p);
      MulMonotone(1, p, m);
      assert m * Pow256(j) == 256 * t && t >= m && 256 * t / 256 == t;
      EncodeUnfold(256 * t);
    }
  }

  /** What a decoded target is, it stays: one round trip is the identity on
      everything the decoder can produce. */
  lemma DecodedTargetsAreExact(b: u32)
    ensures Decode(b) < ENCODABLE
    ensures Encode(Decode(b)) <= U32_MAX
    ensures Decode(Encode(Decode(b))) == Decode(b)
  {
    DecodeBounded(b);
    var t := Decode(b);
    DecodeEncode(t);
    if t > 0 { CompactIsBestLowerApproximation(t); }
  }

  // ---- The byte-level codecs ----

  method TargetFromBits(bits: u32) returns (target: seq<byte>)
    ensures |target| == 32 && Value(target) == Decode(bits)
  {
    var exponent := bits / EXPONENT;
    var mantissa := bits % MANTISSA;
    var out := new byte[32](_ => 0);
    if exponent == 0 || exponent > 32 {
      ValueZeros(out[..]);
      return out[..];
    }
    var bytes := BigEndian(mantissa, 3);
    var start := 32 - exponent;
    var i := 0;
    while i < 3
      invariant 0 <= i <= 3
      invariant forall k :: 0 <= k < 32 ==> out[k] == if start <= k < start + i then bytes[k - start] else 0
    {
      var idx := start + i;
      if idx < 32 { out[idx] := bytes[i]; }
      i := i + 1;
    }
    PlacedMantissa(out[..], start, bytes, mantissa);
    return out[..];
  }

  lemma PlacedMantissa(target: seq<byte>, start: nat, bytes: seq<byte>, m: nat)
    requires |target| == 32 && start < 32 && m < MANTISSA && bytes == BigEndian(m, 3)
    requires forall k :: 0 <= k < 32 ==> target[k] == if start <= k < start + 3 then bytes[k - start] else 0
    ensures Value(target) == if start == 31 then m / 0x1_0000 else if start == 30 then m / 0x100
            else m * Pow256(29 - start)
  {
    SkipLeadingZeros(target, start);
    MantissaBytes(m);
    if start <= 29 {
      var zeros := target[start + 3..];
      assert target[start..] == bytes + zeros;
      BigEndianRoundTrip(m, 3);
      ValueZeros(zeros);
      ValueConcat(bytes, zeros);
    } else if start == 30 {
      assert target[start..] == bytes[..2];
    } else {
      assert target[start..] == bytes[..1];
    }
  }

  lemma MantissaBytes(m: nat)
    requires m < MANTISSA
    ensures m < Pow256(3)
    ensures Value(BigEndian(m, 3)[..2]) == m / 0x100
    ensures Value(BigEndian(m, 3)[..1]) == m / 0x1_0000
  {
    assert Pow256(3) == EXPONENT && Pow256(2) == 0x1_0000 && Pow256(1) == 0x100;
    BigEndianRoundTrip(m / 0x100, 2);
    BigEndianRoundTrip(m / 0x100 / 0x100, 1);
    var two, one := BigEndian(m / 0x100, 2), BigEndian(m / 0x100 / 0x100, 1);
    assert BigEndian(m, 3)[..2] == two && two[..1] == one && BigEndian(m, 3)[..1] == one;
  }

  method BitsFromTarget(target: seq<byte>) returns (bits: u32)
    requires |target| == 32
    ensures bits == Encode(Value(target))
  {
    var leadingZeros := 0;
    while leadingZeros < 32 && target[leadingZeros] == 0
      invariant 0 <= leadingZeros <= 32
      invariant forall k :: 0 <= k < leadingZeros ==> target[k] == 0
    {
      leadingZeros := leadingZeros + 1;
    }
    if leadingZeros >= 32 {
      ValueZeros(target);
      return 0;
    }
    var exponent := 32 - leadingZeros;
    var mantissa := 0;
    ghost var top := target[leadingZeros..];
    ghost var tail := top + [0, 0];
    var i := 0;
    while i < 3
      invariant 0 <= i <= 3
      invariant mantissa == Value(tail[..i])
    {
      var idx := leadingZeros + i;
      var b: byte := if idx < 32 then target[idx] else 0;
      AppendByte(tail, i);
      mantissa := mantissa * 256 + b;
      i := i + 1;
    }
    assert Encode(Value(target)) == (if mantissa < MANTISSA then exponent * EXPONENT + mantissa
      else (exponent + 1) * EXPONENT + mantissa / 256)
        && mantissa < EXPONENT by {
      SkipLeadingZeros(target, leadingZeros);
      TopThreeBytes(top, mantissa);
    }
    if mantissa >= MANTISSA {
      mantissa := mantissa / 256;
      exponent := exponent + 1;
    }
    assert exponent <= 0xff;  // the source's guard against larger exponents never fires
    bits := exponent * EXPONENT + mantissa % MANTISSA;
  }

  lemma AppendByte(s: seq<byte>, i: nat)
    requires i < |s|
    ensures Value(s[..i + 1]) == 256 * Value(s[..i]) + s[i]
  {
    assert s[..i + 1][..i] == s[..i];
  }

  lemma SkipLeadingZeros(target: seq<byte>, z: nat)
    requires z <= |target| && forall k :: 0 <= k < z ==> target[k] == 0
    ensures Value(target) == Value(target[z..])
  {
    ValueZeros(target[..z]);
    ValueConcat(target[..z], target[z..]);
    assert target == target[..z] + target[z..];
  }

  /** The three leading bytes and the length determine the encoding. */
  lemma {:induction false} TopThreeBytes(s: seq<byte>, m: nat)
    requires |s| > 0 && s[0] != 0 && m == Value((s + [0, 0])[..3])
    ensures m < EXPONENT
    ensures Encode(Value(s)) == if m < MANTISSA then |s| * EXPONENT + m else (|s| + 1) * EXPONENT + m / 256
    ensures Value(s) >= 1 && (|s| >= 3 ==> Value(s) >= 0x1_0000) && m >= 0x1_0000
  {
    ThreeByteValue((s + [0, 0])[..3]);
    if |s| == 1 {
      assert s[..0] == [] && Value([]) == 0;
      assert m == 0x1_0000 * Value(s);
    } else if |s| == 2 {
      var one := s[..1];
      assert one[..0] == [] && Value([]) == 0 && Value(one) == s[0];
      assert m == 0x100 * Value(s);
    } else if |s| == 3 {
      assert (s + [0, 0])[..3] == s;
      assert m / 256 < MANTISSA;
    } else {
      var t := s[..|s| - 1];
      assert (s + [0, 0])[..3] == (t + [0, 0])[..3];
      TopThreeBytes(t, m);
      assert Value(s) / 256 == Value(t);
    }
  }

  lemma ThreeByteValue(s: seq<byte>)
    requires |s| == 3
    ensures Value(s) == 0x1_0000 * (s[0] as int) + 0x100 * (s[1] as int) + s[2]
  {
    var two, one := s[..2], s[..1];
    assert two[..1] == one && one[..0] == [] && Value([]) == 0;
    assert Value(one) == s[0] && Value(two) == 256 * Value(one) + s[1] && Value(s) == 256 * Value(two) + s[2];
  }

  /** A hash meets a target exactly when it is not above it as a number. */
  method MeetsTarget(hash: seq<byte>, target: seq<byte>) returns (r: bool)
    requires |hash| == |target| == 32
    ensures r <==> Value(hash) <= Value(target)
  {
    var i := 0;
    while i < 32
      invariant 0 <= i <= 32
      invariant hash[..i] == target[..i]
    {
      var h, t := hash[i], target[i];
      assert hash == hash[..i] + [h] + hash[i + 1..] && target == target[..i] + [t] + target[i + 1..];
      if h < t {
        FirstDifferenceDecides(hash[..i], h, hash[i + 1..], t, target[i + 1..]);
        return true;
      }
      if h > t {
        FirstDifferenceDecides(hash[..i], t, target[i + 1..], h, hash[i + 1..]);
        return false;
      }
      i := i + 1;
    }
    assert hash == hash[..32] && target == target[..32];
    return true;
  }
}
