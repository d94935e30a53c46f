/**
 * Fixed-width integers of the C# runtime: bytes, 32-bit two's-complement
 * wrap-around (`unchecked` `int` arithmetic) and the little-endian readers
 * `BitConverter.ToInt32` / `BitConverter.ToUInt16` used by the framing loops,
 * with the matching writers.
 */
module Numerics {

  newtype byte = b: int | 0 <= b < 256

  const TWO_16: int := 0x1_0000
  const TWO_31: int := 0x8000_0000
  const TWO_32: int := 0x1_0000_0000

  predicate InInt32(x: int) { -TWO_31 <= x < TWO_31 }

  /** A C# `int`. */
  type int32 = x: int | -0x8000_0000 <= x < 0x8000_0000

  /** The value C# `unchecked` arithmetic stores for the mathematical result `x`. */
  function Wrap32(x: int): (r: int32)
    ensures (r - x) % TWO_32 == 0
    ensures InInt32(x) ==> r == x
  {
    (x + TWO_31) % TWO_32 - TWO_31
  }

  /** 256 to the power `k`: the number of distinct `k`-byte patterns. */
  function Pow256(k: nat): (p: nat)
    ensures p > 0
  {
    if k == 0 then 1 else 0x100 * Pow256(k - 1)
  }

  /** The unsigned little-endian value of the bytes `w`. */
  function UnsignedLE(w: seq<byte>): nat
  {
    if w == [] then 0 else w[0] as int + 0x100 * UnsignedLE(w[1..])
  }

  /** The `k` little-endian bytes of `u`, keeping only its low `8 * k` bits. */
  function UnsignedToLE(u: nat, k: nat): (b: seq<byte>)
    ensures |b| == k
  {
    if k == 0 then [] else [(u % 0x100) as byte] + UnsignedToLE(u / 0x100, k - 1)
  }

  lemma {:induction false} UnsignedLEBound(w: seq<byte>)
    ensures UnsignedLE(w) < Pow256(|w|)
  {
    if w != [] {
      UnsignedLEBound(w[1..]);
    }
  }

  /** Writing a value that fits in `k` bytes and reading it back gives the value. */
  lemma {:induction false} UnsignedRoundTrip(u: nat, k: nat)
    requires u < Pow256(k)
    ensures UnsignedLE(UnsignedToLE(u, k)) == u
  {
    if k > 0 {
      var q := u / 0x100;
      assert 0x100 * q <= u;
      UnsignedRoundTrip(q, k - 1);
      var b := UnsignedToLE(u, k);
      assert b[1..] == UnsignedToLE(q, k - 1);
    }
  }

  /** Reading bytes and writing the value back gives the same bytes. */
  lemma {:induction false} UnsignedBytes(w: seq<byte>)
    ensures UnsignedToLE(UnsignedLE(w), |w|) == w
  {
    if w != [] {
      UnsignedBytes(w[1..]);
      var rest := UnsignedLE(w[1..]);
      LowByte(w[0] as int, rest);
      assert UnsignedToLE(UnsignedLE(w), |w|) == [w[0]] + UnsignedToLE(rest, |w| - 1);
      assert w == [w[0]] + w[1..];
    }
  }

  /** The low byte and the remaining value of `a + 256 * x`, for a byte value `a`. */
  lemma LowByte(a: int, x: nat)
    requires 0 <= a < 0x100
    ensures (a + 0x100 * x) % 0x100 == a && (a + 0x100 * x) / 0x100 == x
  {
  }

  /** Two's-complement reading of an unsigned 32-bit value. */
  function Signed32(u: int): int
  {
    if u < TWO_31 then u else u - TWO_32
  }

  /** The unsigned 32-bit pattern of a C# `int`. */
  function Unsigned32(n: int32): (u: nat)
    ensures u < TWO_32 && Signed32(u) == n
  {
    if n < 0 then n + TWO_32 else n
  }

  /** `BitConverter.ToInt32(buf, at)` on a little-endian machine. */
  function Int32At(buf: seq<byte>, at: nat): int
    requires at + 4 <= |buf|
  {
    Signed32(UnsignedLE(buf[at..at + 4]))
  }

  /** `BitConverter.GetBytes(n)` for a C# `int` on a little-endian machine. */
  function Int32ToLE(n: int32): (b: seq<byte>)
    ensures |b| == 4
  {
    UnsignedToLE(Unsigned32(n), 4)
  }

  /** Encoding a 32-bit value and decoding it wherever it is placed gives it back. */
  lemma Int32RoundTrip(n: int32, pre: seq<byte>, post: seq<byte>)
    ensures Int32At(pre + Int32ToLE(n) + post, |pre|) == n
  {
    var b := Int32ToLE(n);
    assert (pre + b + post)[|pre|..|pre| + 4] == b;
    assert Pow256(4) == TWO_32;
    UnsignedRoundTrip(Unsigned32(n), 4);
  }

  /** Every 4-byte pattern decodes to a 32-bit value that encodes back to the same bytes. */
  lemma Int32Bytes(buf: seq<byte>, at: nat)
    requires at + 4 <= |buf|
    ensures InInt32(Int32At(buf, at))
    ensures Int32ToLE(Int32At(buf, at) as int32) == buf[at..at + 4]
  {
    var w := buf[at..at + 4];
    UnsignedLEBound(w);
    assert Pow256(4) == TWO_32;
    UnsignedBytes(w);
  }

  /** `BitConverter.ToUInt16(buf, at)` on a little-endian machine. */
  function UInt16At(buf: seq<byte>, at: nat): (n: nat)
    requires at + 2 <= |buf|
    ensures n < TWO_16
  {
    UnsignedLEBound(buf[at..at + 2]);
    UnsignedLE(buf[at..at + 2])
  }

  /** The two little-endian bytes of an unsigned 16-bit value. */
  function UInt16ToLE(n: nat): (b: seq<byte>)
    requires n < TWO_16
    ensures |b| == 2
  {
    UnsignedToLE(n, 2)
  }

  /** Encoding a 16-bit value and decoding it wherever it is placed gives it back. */
  lemma UInt16RoundTrip(n: nat, pre: seq<byte>, post: seq<byte>)
    requires n < TWO_16
    ensures UInt16At(pre + UInt16ToLE(n) + post, |pre|) == n
  {
    var b := UInt16ToLE(n);
    assert (pre + b + post)[|pre|..|pre| + 2] == b;
    assert Pow256(2) == TWO_16;
    UnsignedRoundTrip(n, 2);
  }
}
