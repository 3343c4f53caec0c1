/**
 * Fixed-width little-endian integers over byte sequences: the view of a byte
 * buffer that both the counter values region and the recording index file use.
 */
module Bytes {

  type byte = x: int | 0 <= x < 256

  /** Java's `int`. */
  type int32 = x: int | -0x8000_0000 <= x < 0x8000_0000

  /** Java's `long`. */
  type int64 = x: int | -0x8000_0000_0000_0000 <= x < 0x8000_0000_0000_0000

  const SIZE_OF_INT: nat := 4
  const SIZE_OF_LONG: nat := 8

  function Pow256(n: nat): (p: nat)
    ensures p > 0
  {
    if n == 0 then 1 else 256 * Pow256(n - 1)
  }

  lemma Pow256Widths()
    ensures Pow256(SIZE_OF_INT) == 0x1_0000_0000
    ensures Pow256(SIZE_OF_LONG) == 0x1_0000_0000_0000_0000
  {
  }

  /** The n-byte little-endian encoding of u, least significant byte first. */
  function EncodeLE(u: nat, n: nat): (bs: seq<byte>)
    ensures |bs| == n
  {
    if n == 0 then [] else [u % 256] + EncodeLE(u / 256, n - 1)
  }

  /** The unsigned value of a little-endian byte sequence. */
  function DecodeLE(bs: seq<byte>): (u: nat)
    ensures u < Pow256(|bs|)
  {
    if bs == [] then 0 else bs[0] + 256 * DecodeLE(bs[1..])
  }

  lemma {:induction false} DecodeEncodeLE(u: nat, n: nat)
    requires u < Pow256(n)
    ensures DecodeLE(EncodeLE(u, n)) == u
  {
    if n > 0 {
      var bs := EncodeLE(u, n);
      assert bs[1..] == EncodeLE(u / 256, n - 1);
      DecodeEncodeLE(u / 256, n - 1);
    }
  }

  /** Two's complement: the unsigned n-byte value that a signed value is stored as. */
  function ToUnsigned(v: int, modulus: nat): (u: nat)
    requires 0 <= v + modulus / 2 < modulus
  {
    if v < 0 then v + modulus else v
  }

  function ToSigned(u: nat, modulus: nat): (v: int)
  {
    if u >= modulus / 2 then u - modulus else u
  }

  function EncodeLong(v: int64): (bs: seq<byte>)
    ensures |bs| == SIZE_OF_LONG
  {
    Pow256Widths();
    EncodeLE(ToUnsigned(v, Pow256(SIZE_OF_LONG)), SIZE_OF_LONG)
  }

  function DecodeLong(bs: seq<byte>): (v: int64)
    requires |bs| == SIZE_OF_LONG
  {
    Pow256Widths();
    ToSigned(DecodeLE(bs), Pow256(SIZE_OF_LONG))
  }

  function EncodeInt(v: int32): (bs: seq<byte>)
    ensures |bs| == SIZE_OF_INT
  {
    Pow256Widths();
    EncodeLE(ToUnsigned(v, Pow256(SIZE_OF_INT)), SIZE_OF_INT)
  }

  function DecodeInt(bs: seq<byte>): (v: int32)
    requires |bs| == SIZE_OF_INT
  {
    Pow256Widths();
    ToSigned(DecodeLE(bs), Pow256(SIZE_OF_INT))
  }

  /** Every 64-bit value, negative ones and ones wider than 32 bits included, survives its 8 bytes. */
  lemma DecodeEncodeLong(v: int64)
    ensures DecodeLong(EncodeLong(v)) == v
  {
    Pow256Widths();
    DecodeEncodeLE(ToUnsigned(v, Pow256(SIZE_OF_LONG)), SIZE_OF_LONG);
  }

  lemma DecodeEncodeInt(v: int32)
    ensures DecodeInt(EncodeInt(v)) == v
  {
    Pow256Widths();
    DecodeEncodeLE(ToUnsigned(v, Pow256(SIZE_OF_INT)), SIZE_OF_INT);
  }

  /** The buffer after storing value in the 8 bytes at offset; every other byte is kept. */
  function PutLong(buffer: seq<byte>, offset: int, value: int64): (r: seq<byte>)
    requires 0 <= offset && offset + SIZE_OF_LONG <= |buffer|
    ensures |r| == |buffer|
    ensures r[offset..offset + SIZE_OF_LONG] == EncodeLong(value)
    ensures forall i :: 0 <= i < |buffer| && (i < offset || offset + SIZE_OF_LONG <= i) ==> r[i] == buffer[i]
  {
    buffer[..offset] + EncodeLong(value) + buffer[offset + SIZE_OF_LONG..]
  }

  /** The value stored in the 8 bytes at offset. */
  function GetLong(buffer: seq<byte>, offset: int): (v: int64)
    requires 0 <= offset && offset + SIZE_OF_LONG <= |buffer|
  {
    DecodeLong(buffer[offset..offset + SIZE_OF_LONG])
  }

  /** A stored value is read back unchanged from the same offset. */
  lemma GetPutLong(buffer: seq<byte>, offset: int, value: int64)
    requires 0 <= offset && offset + SIZE_OF_LONG <= |buffer|
    ensures GetLong(PutLong(buffer, offset, value), offset) == value
  {
    DecodeEncodeLong(value);
  }

  /** Storing at one offset leaves the value at any non-overlapping offset unchanged. */
  lemma GetPutLongElsewhere(buffer: seq<byte>, offset: int, other: int, value: int64)
    requires 0 <= offset && offset + SIZE_OF_LONG <= |buffer|
    requires 0 <= other && other + SIZE_OF_LONG <= |buffer|
    requires offset + SIZE_OF_LONG <= other || other + SIZE_OF_LONG <= offset
    ensures GetLong(PutLong(buffer, offset, value), other) == GetLong(buffer, other)
  {
    var after := PutLong(buffer, offset, value);
    assert after[other..other + SIZE_OF_LONG] == buffer[other..other + SIZE_OF_LONG];
  }
}
