/** Bytes, fixed-width integers and the little-endian helpers of the wire formats. */
module Bytes {
  type byte = x: int | 0 <= x < 0x100
  type u16 = x: int | 0 <= x < 0x1_0000
  type u32 = x: int | 0 <= x < 0x1_0000_0000

  const U32: int := 0x1_0000_0000

  function Min(a: int, b: int): int {
    if a < b then a else b
  }

  /** The low byte is stored first. */
  function EncodeU16(v: u16): (s: seq<byte>)
    ensures |s| == 2
  {
    [v % 0x100, v / 0x100]
  }

  function DecodeU16(s: seq<byte>): (v: u16)
    requires |s| >= 2
  {
    var b0: int, b1: int := s[0], s[1];
    b0 + b1 * 0x100
  }

  function EncodeU32(v: u32): (s: seq<byte>)
    ensures |s| == 4
  {
    [v % 0x100, v / 0x100 % 0x100, v / 0x1_0000 % 0x100, v / 0x100_0000]
  }

  function DecodeU32(s: seq<byte>): (v: u32)
    requires |s| >= 4
  {
    var b0: int, b1: int, b2: int, b3: int := s[0], s[1], s[2], s[3];
    b0 + b1 * 0x100 + b2 * 0x1_0000 + b3 * 0x100_0000
  }

  /** Decoding looks only at its own field, whatever follows in the buffer. */
  lemma U16RoundTrip(v: u16, rest: seq<byte>)
    ensures DecodeU16(EncodeU16(v) + rest) == v
  {
    assert (EncodeU16(v) + rest)[..2] == EncodeU16(v);
  }

  lemma U32RoundTrip(v: u32, rest: seq<byte>)
    ensures DecodeU32(EncodeU32(v) + rest) == v
  {
    assert (EncodeU32(v) + rest)[..4] == EncodeU32(v);
    assert v == v % 0x100 + v / 0x100 * 0x100;
    assert v / 0x100 == v / 0x100 % 0x100 + v / 0x1_0000 * 0x100;
    assert v / 0x1_0000 == v / 0x1_0000 % 0x100 + v / 0x100_0000 * 0x100;
  }

  /** Four bytes are the encoding of the value they decode to. */
  lemma U32Inverse(s: seq<byte>)
    requires |s| >= 4
    ensures EncodeU32(DecodeU32(s)) == s[..4]
  {
    var b0: int, b1: int, b2: int, b3: int := s[0], s[1], s[2], s[3];
    var v := DecodeU32(s);
    assert v / 0x100 == b1 + b2 * 0x100 + b3 * 0x1_0000;
    assert v / 0x1_0000 == b2 + b3 * 0x100;
    assert v / 0x100_0000 == b3;
  }

  lemma MulMonotone(a: int, b: int, n: nat)
    requires a <= b
    ensures a * n <= b * n
  {
    assert (b - a) * n >= 0;
  }

  /** Two positions less than `n` apart never share a remainder. */
  lemma ResiduesDiffer(a: nat, b: nat, n: nat)
    requires a < b < a + n
    ensures a % n != b % n
  {
    var qa, qb := a / n, b / n;
    assert a == qa * n + a % n && b == qb * n + b % n;
    if qa < qb {
      MulMonotone(qa + 1, qb, n);
      assert (qa + 1) * n == qa * n + n;
    } else {
      MulMonotone(qb, qa, n);
    }
  }

  /** A whole divisor less in the numerator means a smaller quotient. */
  lemma DivDecreases(y: nat, x: nat, d: nat)
    requires d > 0 && y + d <= x
    ensures y / d < x / d
  {
    assert y == y / d * d + y % d && x == x / d * d + x % d;
    if y / d >= x / d {
      MulMonotone(x / d, y / d, d);
      assert false;
    }
  }

  lemma DivParts(a: nat, n: nat)
    requires n > 0
    ensures a / n * n <= a < a / n * n + n && a / n >= 0
  {
    assert a == a / n * n + a % n;
  }

  lemma ModAtMost(a: nat, n: nat)
    requires n > 0
    ensures a % n <= a && (a < n ==> a % n == a)
  {
    assert a == a / n * n + a % n;
    assert a / n * n >= 0;
  }

  lemma ModLapBefore(a: nat, n: nat)
    requires 0 < n <= a
    ensures (a - n) % n == a % n
  {
    var x, y := (a - n) / n, a / n;
    assert a - n == x * n + (a - n) % n && a == y * n + a % n;
    assert (x + 1) * n == x * n + n && (y + 1) * n == y * n + n && (x + 2) * n == x * n + 2 * n;
    if x + 1 < y {
      MulMonotone(x + 2, y, n);
    } else if y < x + 1 {
      MulMonotone(y + 1, x + 1, n);
    }
  }
}
