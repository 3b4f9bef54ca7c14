/** Bitcoin-style retarget over multi-limb integers (crates/consensus/src/retarget.rs). */
module Retarget {
  import opened Machine
  import opened Bytes

  const LIMB: int := 0x1_0000_0000_0000_0000

  function ClampTimespan(actual: u64, expected: u64): u64 {
    Max(expected / 4, Min(actual, Min(expected * 4, U64_MAX)))
  }

  /** What the retarget is meant to compute on 256-bit numbers. */
  function NewTarget(target: nat, actual: u64, expected: u64): nat {
    if expected == 0 then target
    else
      MulNonNegative(target, ClampTimespan(actual, expected));
      DivLower(0, target * ClampTimespan(actual, expected), expected);
      Min(TARGETS - 1, target * ClampTimespan(actual, expected) / expected)
  }

  /** The number a big-endian string of 64-bit limbs spells. */
  function Limbs(s: seq<u64>): nat {
    if s == [] then 0 else LIMB * Limbs(s[..|s| - 1]) + s[|s| - 1]
  }

  function PowLimb(n: nat): (p: nat)
    ensures p >= 1
  {
    if n == 0 then 1 else LIMB * PowLimb(n - 1)
  }

  lemma {:induction false} LimbsHead(s: seq<u64>)
    requires |s| > 0
    ensures Limbs(s) == s[0] * PowLimb(|s| - 1) + Limbs(s[1..])
  {
    if |s| == 1 {
      assert s[..0] == [] && s[1..] == [];
    } else {
      var front := s[..|s| - 1];
      LimbsHead(front);
      assert s[1..][..|s| - 2] == front[1..] && s[1..][|s| - 2] == s[|s| - 1];
      MulAssociative(s[0], LIMB, PowLimb(|s| - 2));
    }
  }

  lemma {:induction false} LimbsBound(s: seq<u64>)
    ensures Limbs(s) < PowLimb(|s|)
  {
    if s == [] {
    } else {
      LimbsBound(s[..|s| - 1]);
    }
  }

  lemma LimbsAppend(s: seq<u64>, i: nat)
    requires i < |s|
    ensures Limbs(s[..i + 1]) == LIMB * Limbs(s[..i]) + s[i]
  {
    assert s[..i + 1][..i] == s[..i];
  }

  lemma LimbPowers()
    ensures Pow256(8) == LIMB && PowLimb(4) == TARGETS
  {
    assert PowLimb(4) == LIMB * (LIMB * (LIMB * (LIMB * PowLimb(0))));
  }

  lemma Swapped(v: nat, p: nat, q: nat)
    requires p == q
    ensures v * p == q * v
  {}

  lemma EightMoreBytes(s: seq<byte>, t: seq<byte>)
    requires |t| == 8
    ensures Value(t) < LIMB && Value(s + t) == LIMB * Value(s) + Value(t)
  {
    LimbPowers();
    ValueBound(t);
    ValueConcat(s, t);
    Swapped(Value(s), Pow256(|t|), LIMB);
  }

  lemma FourLimbs(w: u64, x: u64, y: u64, z: u64)
    ensures Limbs([w, x, y, z]) == LIMB * (LIMB * (LIMB * w + x) + y) + z
  {
    var l := [w, x, y, z];
    LimbsAppend(l, 0); LimbsAppend(l, 1); LimbsAppend(l, 2); LimbsAppend(l, 3);
    assert l[..4] == l && l[..0] == [];
  }

  /** Reading 32 bytes as four limbs does not change the number. */
  lemma BytesAsLimbs(a: seq<byte>)
    requires |a| == 32
    ensures Value(a[0..8]) < LIMB && Value(a[8..16]) < LIMB && Value(a[16..24]) < LIMB && Value(a[24..32]) < LIMB
    ensures Limbs([Value(a[0..8]), Value(a[8..16]), Value(a[16..24]), Value(a[24..32])]) == Value(a)
  {
    FourWords(a[0..8], a[8..16], a[16..24], a[24..32]);
    assert a[0..8] + a[8..16] + a[16..24] + a[24..32] == a;
  }

  lemma FourWords(p: seq<byte>, q: seq<byte>, r: seq<byte>, s: seq<byte>)
    requires |p| == |q| == |r| == |s| == 8
    ensures Value(p) < LIMB && Value(q) < LIMB && Value(r) < LIMB && Value(s) < LIMB
    ensures Limbs([Value(p), Value(q), Value(r), Value(s)]) == Value(p + q + r + s)
  {
    EightMoreBytes([], p);
    EightMoreBytes(p, q);
    EightMoreBytes(p + q, r);
    EightMoreBytes(p + q + r, s);
    FourLimbs(Value(p), Value(q), Value(r), Value(s));
    assert [] + p == p;
  }

  /** One limb product: it fits a u128 and its high half fits the next carry. */
  lemma LimbProduct(x: u64, b: u64, carry: u64)
    ensures 0 <= x * b + carry <= U128_MAX && (x * b + carry) / LIMB < LIMB
  {
    ProductMonotone(x, U64_MAX, b, U64_MAX);
    MulNonNegative(x, b);
  }

  /** One limb more, in plain numbers: `rest` was multiplied into `tail` and
      `carry`, `whole` puts limb `x` above it. */
  lemma MulStep(x: nat, b: nat, carry: nat, p: nat, low: nat, rest: nat, tail: nat, whole: nat, next: nat, high: nat,
                up: nat)
    requires rest * b == tail + carry * p
    requires low == (x * b + carry) % LIMB && high == (x * b + carry) / LIMB
    requires whole == x * p + rest && next == low * p + tail && up == LIMB * p
    ensures whole * b == next + high * up
  {
    var y := x * b + carry;
    assert y == LIMB * (y / LIMB) + low;
    assert (x * p + rest) * b == (x * b) * p + tail + carry * p == y * p + tail;
    assert y * p == (LIMB * (y / LIMB)) * p + low * p;
    MulAssociative(y / LIMB, LIMB, p);
  }

  lemma LimbsCons(low: u64, tail: seq<u64>)
    ensures Limbs([low] + tail) == low * PowLimb(|tail|) + Limbs(tail)
  {
    LimbsHead([low] + tail);
    assert ([low] + tail)[1..] == tail;
  }

  /** The low limbs of a product so far: `rest` times `b` is `tail`, with `carry`
      above it. */
  ghost predicate Multiplied(rest: seq<u64>, b: u64, tail: seq<u64>, carry: u64) {
    |rest| == |tail| && Limbs(rest) * b == Limbs(tail) + carry * PowLimb(|tail|)
  }

  lemma MulLimb(x: u64, rest: seq<u64>, b: u64, carry: u64, tail: seq<u64>, low: u64, high: u64)
    requires Multiplied(rest, b, tail, carry)
    requires low == (x * b + carry) % LIMB && high == (x * b + carry) / LIMB
    ensures Multiplied([x] + rest, b, [low] + tail, high)
  {
    LimbsCons(x, rest);
    LimbsCons(low, tail);
    MulStep(x, b, carry, PowLimb(|tail|), low, Limbs(rest), Limbs(tail), Limbs([x] + rest), Limbs([low] + tail), high,
      PowLimb(|rest| + 1));
  }

  lemma TopCarry(limbs: seq<u64>, b: u64, tail: seq<u64>, carry: u64)
    requires Multiplied(limbs, b, tail, carry)
    ensures Limbs([carry] + tail) == Limbs(limbs) * b
  {
    LimbsCons(carry, tail);
  }

  method MulU256U64(a: seq<byte>, b: u64) returns (r: seq<u64>)
    requires |a| == 32
    ensures |r| == 5 && Limbs(r) == Value(a) * b
  {
    BytesAsLimbs(a);
    r := MulLimbs([Value(a[0..8]), Value(a[8..16]), Value(a[16..24]), Value(a[24..32])], b);
  }

  method MulLimbs(limbs: seq<u64>, b: u64) returns (r: seq<u64>)
    requires |limbs| == 4
    ensures |r| == 5 && Limbs(r) == Limbs(limbs) * b
  {
    var out := new u64[5](_ => 0);
    var carry: u64 := 0;
    ghost var tail: seq<u64> := [];
    var i := 4;
    while i > 0
      invariant 0 <= i <= 4 && tail == out[i + 1..]
      invariant Multiplied(limbs[i..], b, tail, carry)
    {
      i := i - 1;
      LimbProduct(limbs[i], b, carry);
      var p: u128 := limbs[i] * b + carry;
      var low: u64, high: u64 := p % LIMB, p / LIMB;
      MulLimb(limbs[i], limbs[i + 1..], b, carry, tail, low, high);
      out[i + 1] := low;
      carry := high;
      assert out[i + 2..] == tail;
      tail := [low] + tail;
      assert limbs[i..] == [limbs[i]] + limbs[i + 1..];
    }
    out[0] := carry;
    r := out[..];
    TopCarry(limbs, b, tail, carry);
    assert r == [carry] + tail && limbs[0..] == limbs;
  }

  lemma DivStep(rem: nat, d: int, x: u64, n: nat, q: nat)
    requires 0 < d <= U64_MAX && rem < d && n == q * d + rem
    ensures 0 <= rem * LIMB + x <= U128_MAX && 0 <= (rem * LIMB + x) / d < LIMB
    ensures LIMB * n + x == (LIMB * q + (rem * LIMB + x) / d) * d + (rem * LIMB + x) % d
  {
    var acc := rem * LIMB + x;
    DivLower(0, acc, d);
    DivLower(LIMB, acc, d);
    MulAssociative(LIMB, q, d);
    assert (LIMB * q + acc / d) * d == LIMB * q * d + acc / d * d;
  }

  method DivU320U64(num: seq<u64>, d: u64) returns (q: seq<u64>, r: u64)
    requires |num| == 5 && d != 0
    ensures |q| == 5 && Limbs(num) == Limbs(q) * d + r && r < d
  {
    var out := new u64[5](_ => 0);
    var rem: u64 := 0;
    var i := 0;
    while i < 5
      invariant 0 <= i <= 5
      invariant rem < d && Limbs(num[..i]) == Limbs(out[..i]) * d + rem
    {
      DivStep(rem, d, num[i], Limbs(num[..i]), Limbs(out[..i]));
      var acc: u128 := rem * LIMB + num[i];
      ghost var done := out[..i];
      out[i] := acc / d;
      rem := acc % d;
      assert out[..i] == done;
      LimbsAppend(num, i);
      LimbsAppend(out[..], i);
      assert out[..i + 1] == out[..][..i + 1] && out[..][..i] == done;
      i := i + 1;
    }
    q, r := out[..], rem;
    assert num[..5] == num && out[..5] == q;
  }

  /** The retarget computes exactly the saturated quotient, for every 256-bit
      target and every pair of timespans. */
  method BitcoinRetarget(target: seq<byte>, actualMs: u64, expectedMs: u64) returns (r: seq<byte>)
    requires |target| == 32
    ensures |r| == 32 && Value(r) == NewTarget(Value(target), actualMs, expectedMs)
  {
    var actual := ClampTimespan(actualMs, expectedMs);
    if expectedMs == 0 { return target; }
    var product := MulU256U64(target, actual);
    var quot, rem := DivU320U64(product, expectedMs);
    DivUnique(Value(target) * actual, expectedMs, Limbs(quot), rem);
    LimbsHead(quot);
    LimbPowers();
    LimbsBound(quot[1..]);
    if quot[0] != 0 {
      MulMonotone(1, quot[0], TARGETS);
      r := seq(32, _ => 255);
      AllOnes(32);
      LimitValue();
    } else {
      r := BigEndian(quot[1], 8) + BigEndian(quot[2], 8) + BigEndian(quot[3], 8) + BigEndian(quot[4], 8);
      LimbsAsBytes(quot[1..], r);
    }
  }

  lemma LimbsAsBytes(q: seq<u64>, r: seq<byte>)
    requires |q| == 4 && r == BigEndian(q[0], 8) + BigEndian(q[1], 8) + BigEndian(q[2], 8) + BigEndian(q[3], 8)
    ensures Value(r) == Limbs(q)
  {
    LimbPowers();
    BigEndianRoundTrip(q[0], 8); BigEndianRoundTrip(q[1], 8); BigEndianRoundTrip(q[2], 8); BigEndianRoundTrip(q[3], 8);
    BytesAsLimbs(r);
    assert r[0..8] == BigEndian(q[0], 8) && r[8..16] == BigEndian(q[1], 8) && r[16..24] == BigEndian(q[2], 8)
      && r[24..32] == BigEndian(q[3], 8);
    assert q == [q[0], q[1], q[2], q[3]];
  }

  lemma {:induction false} AllOnes(n: nat)
    ensures Value(seq(n, _ => 255)) == Pow256(n) - 1
  {
    if n == 0 {
    } else {
      AllOnes(n - 1);
      assert seq(n, _ => 255)[..n - 1] == seq(n - 1, _ => 255);
    }
  }

  lemma LimitValue()
    ensures Pow256(32) == TARGETS
  {
    LimbPowers();
    PowAdd(8, 8);
    PowAdd(16, 8);
    PowAdd(24, 8);
  }

  // ---- What exactness buys ----

  /** A larger old target or a longer timespan never gives a smaller target. */
  lemma RetargetMonotone(target: nat, target': nat, actual: u64, actual': u64, expected: u64)
    requires target <= target' && actual <= actual'
    ensures NewTarget(target, actual, expected) <= NewTarget(target', actual', expected)
  {
    if expected != 0 {
      var c, c' := ClampTimespan(actual, expected), ClampTimespan(actual', expected);
      ProductMonotone(target, target', c, c');
      DivMonotone(target * c, target' * c', expected);
    }
  }

  /** At most four times easier, at least a quarter (of `expected` rounded
      down to a multiple of four), and unchanged on schedule. */
  lemma RetargetBounds(target: nat, actual: u64, expected: u64)
    requires target < TARGETS
    ensures NewTarget(target, actual, expected) <= 4 * target
    ensures expected != 0 ==>
            NewTarget(target, actual, expected) >= Min(TARGETS - 1, target * (expected / 4) / expected)
    ensures NewTarget(target, expected, expected) == target
  {
    if expected != 0 {
      var c := ClampTimespan(actual, expected);
      MulMonotone(c, 4 * expected, target);
      MulAssociative(4, target, expected);
      DivMonotone(target * c, 4 * target * expected, expected);
      DivUnique(4 * target * expected, expected, 4 * target, 0);
      MulMonotone(expected / 4, c, target);
      DivMonotone(target * (expected / 4), target * c, expected);
      DivUnique(target * expected, expected, target, 0);
    }
  }

  /** The retarget as a greatest solution: the new target is the largest 256-bit
      number that is to the old one at most as the actual timespan is to the expected
      one, where that lies between a quarter and four times the expected one, and
      otherwise as the bound is. */
  lemma RetargetIsProportional(target: nat, actual: u64, expected: u64, x: nat)
    requires expected > 0
    ensures var span := if actual < expected / 4 then expected / 4
                        else if actual > 4 * expected then 4 * expected else actual;
            x <= NewTarget(target, actual, expected) <==>
            x < 0x1_0000_0000_0000_0000_0000_0000_0000_0000_0000_0000_0000_0000_0000_0000_0000_0000
            && x * expected <= target * span
  {
    var span := ClampTimespan(actual, expected);
    MulNonNegative(target, span);
    DivLower(x, target * span, expected);
  }
}
