/** Fixed-width integers and their little-endian byte layout. */
module Bytes {

  /** An unsigned char of the source. */
  type Byte = b: int | 0 <= b < 0x100

  /** A uint32_t of the source. */
  type U32 = x: int | 0 <= x < 0x1_0000_0000

  /** An int64_t of the source (timestamps). */
  type I64 = x: int | -0x8000_0000_0000_0000 <= x < 0x8000_0000_0000_0000

  /** 256 to the power n: the number of distinct values of n bytes. */
  function Pow256(n: nat): (r: nat)
    ensures r >= 1
  {
    if n == 0 then 1 else 0x100 * Pow256(n - 1)
  }

  lemma Pow256Four()
    ensures Pow256(4) == 0x1_0000_0000
  {
  }

  /** The unsigned value of a little-endian byte string: the first byte is the least significant. */
  function FromLE(b: seq<Byte>): (r: nat)
    ensures r < Pow256(|b|)
  {
    if b == [] then 0 else b[0] + 0x100 * FromLE(b[1..])
  }

  /** The n-byte little-endian layout of x. */
  function ToLE(x: nat, n: nat): (r: seq<Byte>)
    requires x < Pow256(n)
    ensures |r| == n
    ensures FromLE(r) == x
  {
    if n == 0 then []
    else
      var rest := ToLE(x / 0x100, n - 1);
      assert ([x % 0x100] + rest)[1..] == rest;
      [x % 0x100] + rest
  }

  /** Laying out the value of a byte string gives back that byte string. */
  lemma {:induction false} ToLEFromLE(b: seq<Byte>)
    ensures ToLE(FromLE(b), |b|) == b
  {
    if b != [] {
      ToLEFromLE(b[1..]);
      var x := FromLE(b);
      assert x % 0x100 == b[0] && x / 0x100 == FromLE(b[1..]);
      assert b == [b[0]] + b[1..];
    }
  }

  /** Reads a uint32_t stored little-endian in four bytes. */
  function DecodeU32(b: seq<Byte>): (r: U32)
    requires |b| == 4
  {
    Pow256Four();
    FromLE(b)
  }

  /** Writes a uint32_t as four little-endian bytes. */
  function EncodeU32(x: U32): (r: seq<Byte>)
    ensures |r| == 4
  {
    Pow256Four();
    ToLE(x, 4)
  }

  lemma U32RoundTrip(x: U32)
    ensures DecodeU32(EncodeU32(x)) == x
  {
  }

  lemma U32BytesRoundTrip(b: seq<Byte>)
    requires |b| == 4
    ensures EncodeU32(DecodeU32(b)) == b
  {
    ToLEFromLE(b);
  }
}
