/** Fixed-width integers of the C++ sources and their little-endian and
    two's-complement byte layouts. */
module Bytes {

  /** uint8_t */
  type byte = x: int | 0 <= x < 0x100
  /** uint16_t */
  type uint16 = x: int | 0 <= x < 0x1_0000
  /** uint32_t */
  type uint32 = x: int | 0 <= x < 0x1_0000_0000
  /** int8_t */
  type int8 = x: int | -0x80 <= x < 0x80
  /** int16_t */
  type int16 = x: int | -0x8000 <= x < 0x8000
  /** int32_t */
  type int32 = x: int | -0x8000_0000 <= x < 0x8000_0000

  /** A zero-filled byte sequence, as left by `uint8_t buf[n] = { 0 }`. */
  function Zeros(n: nat): (r: seq<byte>)
    ensures |r| == n
    ensures forall i :: 0 <= i < n ==> r[i] == 0
  {
    seq(n, _ => 0)
  }

  /** Little-endian layout of a uint16: low byte first. */
  function U16Le(x: uint16): (r: seq<byte>)
    ensures |r| == 2
    ensures r[0] as int + 0x100 * (r[1] as int) == x
  {
    [x % 0x100, x / 0x100]
  }

  /** Reads a uint16 stored low byte first; inverse of U16Le. */
  function U16FromLe(lo: byte, hi: byte): (x: uint16)
    ensures U16Le(x) == [lo, hi]
  {
    lo + 0x100 * hi
  }

  /** A uint16 below 256 is stored as itself and a zero high byte. */
  lemma U16LeSmall(x: uint16)
    requires x < 0x100
    ensures U16Le(x) == [x as byte, 0]
  {
  }

  /** The two bytes of a stored uint16 read back as that uint16. */
  lemma U16FromBytes(x: uint16, lo: byte, hi: byte)
    requires U16Le(x)[0] == lo && U16Le(x)[1] == hi
    ensures U16FromLe(lo, hi) == x
  {
  }

  /** Little-endian layout of a uint32: low 16-bit half first. */
  function U32Le(x: uint32): (r: seq<byte>)
    ensures |r| == 4
    ensures r[0] as int + 0x100 * (r[1] as int) + 0x1_0000 * (r[2] as int) + 0x100_0000 * (r[3] as int) == x
  {
    U16Le(x % 0x1_0000) + U16Le(x / 0x1_0000)
  }

  /** Reads a uint32 stored low byte first; inverse of U32Le. */
  function U32FromLe(b: seq<byte>): (x: uint32)
    requires |b| == 4
    ensures U32Le(x) == b
  {
    var lo := U16FromLe(b[0], b[1]);
    var hi := U16FromLe(b[2], b[3]);
    var x := lo + 0x1_0000 * hi;
    SplitWord(x, lo, hi);
    assert U16Le(lo) + U16Le(hi) == b;
    x
  }

  /** The byte that stores an int8_t (two's complement). */
  function FromInt8(x: int8): (r: byte)
    ensures r == x % 0x100
  {
    if x < 0 then x + 0x100 else x
  }

  /** Reinterprets a byte as int8_t; inverse of FromInt8. */
  function ToInt8(b: byte): (x: int8)
    ensures FromInt8(x) == b
  {
    if b < 0x80 then b else b - 0x100
  }

  /** Storing an int8_t and reading it back gives the same value. */
  lemma Int8RoundTrip(x: int8)
    ensures ToInt8(FromInt8(x)) == x
  {
  }

  /** Storing an int32_t and reading it back gives the same value. */
  lemma Int32RoundTrip(x: int32)
    ensures ToInt32(FromInt32(x)) == x
  {
  }

  /** The 32-bit pattern that stores an int32_t (two's complement). */
  function FromInt32(x: int32): (r: uint32)
    ensures r == x % 0x1_0000_0000
  {
    if x < 0 then x + 0x1_0000_0000 else x
  }

  /** Reinterprets a 32-bit pattern as int32_t; inverse of FromInt32. */
  function ToInt32(u: uint32): (x: int32)
    ensures FromInt32(x) == u
  {
    if u < 0x8000_0000 then u else u - 0x1_0000_0000
  }

  /** The 16-bit pattern that stores an int16_t (two's complement). */
  function FromInt16(x: int16): (r: uint16)
    ensures r == x % 0x1_0000
  {
    if x < 0 then x + 0x1_0000 else x
  }

  /** The conversion of an int holding 0..65535 to int16_t: the value is
      taken modulo 2^16 into the signed range. */
  function ToInt16(u: uint16): (x: int16)
    ensures FromInt16(x) == u
    ensures x == u || x == u - 0x1_0000
    ensures x < 0 <==> u >= 0x8000
  {
    if u < 0x8000 then u else u - 0x1_0000
  }

  /** The four bytes of a stored uint32 read back as that uint32. */
  lemma U32FromBytes(x: uint32, b: seq<byte>)
    requires |b| == 4
    requires U32Le(x)[0] == b[0] && U32Le(x)[1] == b[1] && U32Le(x)[2] == b[2] && U32Le(x)[3] == b[3]
    ensures U32FromLe(b) == x
  {
    assert U32Le(x) == b;
  }

  /** The unique split of lo + 2^16 * hi into quotient and remainder. */
  lemma SplitWord(x: int, lo: uint16, hi: uint16)
    requires x == lo + 0x1_0000 * hi
    ensures x % 0x1_0000 == lo && x / 0x1_0000 == hi
  {
  }
}
