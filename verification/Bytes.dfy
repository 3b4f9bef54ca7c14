/** Big- and little-endian byte strings and the numbers they stand for. */
module Bytes {
  import opened Machine

  /** How many 32-byte targets there are. */
  const TARGETS: int := 0x1_0000_0000_0000_0000_0000_0000_0000_0000_0000_0000_0000_0000_0000_0000_0000_0000

  function Pow256(n: nat): (p: nat)
    ensures p >= 1
  {
    if n == 0 then 1 else 256 * Pow256(n - 1)
  }

  /** The number a big-endian byte string spells. */
  function Value(s: seq<byte>): nat {
    if s == [] then 0 else 256 * Value(s[..|s| - 1]) + s[|s| - 1]
  }

  /** `n` big-endian bytes of `v`, high bytes truncated as an integer cast would. */
  function BigEndian(v: nat, n: nat): (s: seq<byte>)
    ensures |s| == n
  {
    if n == 0 then [] else BigEndian(v / 256, n - 1) + [v % 256]
  }

  function LittleEndian(v: nat, n: nat): (s: seq<byte>)
    ensures |s| == n
  {
    if n == 0 then [] else [v % 256] + LittleEndian(v / 256, n - 1)
  }

  lemma {:induction false} PowAdd(a: nat, b: nat)
    ensures Pow256(a + b) == Pow256(a) * Pow256(b)
  {
    if a == 0 {
    } else {
      PowAdd(a - 1, b);
      assert Pow256(a + b) == 256 * (Pow256(a - 1) * Pow256(b)) == (256 * Pow256(a - 1)) * Pow256(b);
    }
  }

  lemma {:induction false} PowMonotone(a: nat, b: nat)
    requires a <= b
    ensures Pow256(a) <= Pow256(b)
    decreases b
  {
    if a == b {
    } else {
      PowMonotone(a, b - 1);
    }
  }

  lemma {:induction false} ValueBound(s: seq<byte>)
    ensures Value(s) < Pow256(|s|)
  {
    if s == [] {
    } else {
      ValueBound(s[..|s| - 1]);
    }
  }

  lemma {:induction false} ValueConcat(a: seq<byte>, b: seq<byte>)
    ensures Value(a + b) == Value(a) * Pow256(|b|) + Value(b)
  {
    if b == [] {
      assert a + b == a;
    } else {
      var b' := b[..|b| - 1];
      ValueConcat(a, b');
      assert (a + b)[..|a + b| - 1] == a + b';
      assert 256 * (Value(a) * Pow256(|b'|)) == Value(a) * (256 * Pow256(|b'|));
    }
  }

  lemma {:induction false} ValueZeros(s: seq<byte>)
    requires forall i :: 0 <= i < |s| ==> s[i] == 0
    ensures Value(s) == 0
  {
    if s == [] {
    } else {
      ValueZeros(s[..|s| - 1]);
    }
  }

  /** Serializing and reading back is the identity on numbers that fit. */
  lemma {:induction false} BigEndianRoundTrip(v: nat, n: nat)
    requires v < Pow256(n)
    ensures Value(BigEndian(v, n)) == v
  {
    if n == 0 {
    } else {
      BigEndianRoundTrip(v / 256, n - 1);
      var s := BigEndian(v, n);
      assert s[..n - 1] == BigEndian(v / 256, n - 1);
    }
  }

  lemma {:induction false} LittleEndianInjective(a: nat, b: nat, n: nat)
    requires a < Pow256(n) && b < Pow256(n)
    requires LittleEndian(a, n) == LittleEndian(b, n)
    ensures a == b
  {
    if n == 0 {
    } else {
      var x, y := LittleEndian(a, n), LittleEndian(b, n);
      assert x[0] == a % 256 && y[0] == b % 256;
      assert x[1..] == LittleEndian(a / 256, n - 1) && y[1..] == LittleEndian(b / 256, n - 1);
      LittleEndianInjective(a / 256, b / 256, n - 1);
    }
  }

  lemma HighDigitDecides(u: nat, v: nat, w: nat, x: nat, y: nat)
    requires u < v && x < w
    ensures u * w + x < v * w + y
  {
    MulMonotone(u + 1, v, w);
    assert (u + 1) * w == u * w + w;
  }

  /** The first differing byte decides the order of equally long strings. */
  lemma FirstDifferenceDecides(p: seq<byte>, a: byte, x: seq<byte>, b: byte, y: seq<byte>)
    requires a < b && |x| == |y|
    ensures Value(p + [a] + x) < Value(p + [b] + y)
  {
    ValueConcat(p + [a], x);
    ValueConcat(p + [b], y);
    ValueBound(x);
    assert (p + [a])[..|p|] == p && (p + [b])[..|p|] == p;
    HighDigitDecides(Value(p + [a]), Value(p + [b]), Pow256(|x|), Value(x), Value(y));
  }
}
