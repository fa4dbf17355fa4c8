/** Bytes and the fixed-width integers the wire and database formats are built from. */
module Bytes {

  type Byte = b: int | 0 <= b < 256

  type U32 = x: int | 0 <= x < 0x1_0000_0000

  type U64 = x: int | 0 <= x < 0x1_0000_0000_0000_0000

  function ZeroBytes(n: nat): (bs: seq<Byte>)
    ensures |bs| == n
  {
    seq(n, _ => 0)
  }

  /** 256 to the power `width`: the number of values `width` bytes can hold. */
  function Pow256(width: nat): (p: nat)
    ensures p > 0
  {
    if width == 0 then 1 else 256 * Pow256(width - 1)
  }

  lemma Pow256Values()
    ensures Pow256(2) == 0x1_0000
    ensures Pow256(4) == 0x1_0000_0000
    ensures Pow256(8) == 0x1_0000_0000_0000_0000
  {
    assert Pow256(2) == 256 * Pow256(1);
    assert Pow256(4) == 256 * 256 * Pow256(2);
    assert Pow256(6) == 256 * 256 * Pow256(4);
    assert Pow256(8) == 256 * 256 * Pow256(6);
  }

  /** `n` as `width` bytes, least significant first; higher digits are cut off. */
  function LittleEndian(n: nat, width: nat): (bs: seq<Byte>)
    ensures |bs| == width
    decreases width
  {
    if width == 0 then [] else [n % 256] + LittleEndian(n / 256, width - 1)
  }

  function FromLittleEndian(bs: seq<Byte>): nat {
    if bs == [] then 0 else bs[0] + 256 * FromLittleEndian(bs[1..])
  }

  lemma {:induction false} LittleEndianRoundTrip(n: nat, width: nat)
    requires n < Pow256(width)
    ensures FromLittleEndian(LittleEndian(n, width)) == n
    decreases width
  {
    if width > 0 {
      LittleEndianRoundTrip(n / 256, width - 1);
      assert LittleEndian(n, width)[1..] == LittleEndian(n / 256, width - 1);
    }
  }

  /** Every byte string is the encoding of the number it decodes to. */
  lemma {:induction false} LittleEndianCanonical(bs: seq<Byte>)
    ensures FromLittleEndian(bs) < Pow256(|bs|)
    ensures LittleEndian(FromLittleEndian(bs), |bs|) == bs
  {
    if bs != [] {
      LittleEndianCanonical(bs[1..]);
      assert FromLittleEndian(bs) / 256 == FromLittleEndian(bs[1..]);
      assert bs == [bs[0]] + bs[1..];
    }
  }

  /** Decoding four, or eight, little-endian bytes, as a value of the width read. */
  function Uint32(bs: seq<Byte>): (x: U32)
    requires |bs| == 4
    ensures LittleEndian(x, 4) == bs
  {
    LittleEndianCanonical(bs);
    Pow256Values();
    FromLittleEndian(bs)
  }

  function Uint64(bs: seq<Byte>): (x: U64)
    requires |bs| == 8
    ensures LittleEndian(x, 8) == bs
  {
    LittleEndianCanonical(bs);
    Pow256Values();
    FromLittleEndian(bs)
  }

  lemma Uint32RoundTrip(x: U32)
    ensures Uint32(LittleEndian(x, 4)) == x
  {
    Pow256Values();
    LittleEndianRoundTrip(x, 4);
  }

  lemma Uint64RoundTrip(x: U64)
    ensures Uint64(LittleEndian(x, 8)) == x
  {
    Pow256Values();
    LittleEndianRoundTrip(x, 8);
  }

  /** Go's reinterpretation of an unsigned word as a two's-complement one, and back. */
  type I32 = x: int | -0x8000_0000 <= x < 0x8000_0000

  type I64 = x: int | -0x8000_0000_0000_0000 <= x < 0x8000_0000_0000_0000

  function ToUint32(x: I32): U32 {
    if x < 0 then x + 0x1_0000_0000 else x
  }

  function ToInt32(x: U32): (y: I32)
    ensures ToUint32(y) == x
  {
    if x >= 0x8000_0000 then x - 0x1_0000_0000 else x
  }

  function ToUint64(x: I64): U64 {
    if x < 0 then x + 0x1_0000_0000_0000_0000 else x
  }

  function ToInt64(x: U64): (y: I64)
    ensures ToUint64(y) == x
  {
    if x >= 0x8000_0000_0000_0000 then x - 0x1_0000_0000_0000_0000 else x
  }

  const WORD: int := 0x1_0000_0000_0000_0000
  const SIGN: int := 0x8000_0000_0000_0000

  /** A number as a two's-complement 64-bit word keeps it. */
  function W64(x: int): I64 {
    (x + SIGN) % WORD - SIGN
  }

  lemma W64Same(x: I64)
    ensures W64(x) == x
  {
  }
}
