/** Octets and the fixed-width unsigned reads a `DataView` performs over them.
    A read that would run past the end of the buffer (where `DataView` throws a
    `RangeError`) yields `None`. */
module Bytes {

  /** One octet of a `Uint8Array`. */
  type byte = b: int | 0 <= b < 0x100

  datatype Option<+T> = None | Some(value: T)

  const U16_LIMIT: nat := 0x1_0000
  const U32_LIMIT: nat := 0x1_0000_0000

  /** The value of two octets taken in the given byte order. */
  function Uint16(b0: byte, b1: byte, little: bool): (v: nat)
    ensures v < U16_LIMIT
  {
    if little then b1 * 0x100 + b0 else b0 * 0x100 + b1
  }

  /** The value of four octets taken in the given byte order. */
  function Uint32(b0: byte, b1: byte, b2: byte, b3: byte, little: bool): (v: nat)
    ensures v < U32_LIMIT
  {
    if little then ((b3 * 0x100 + b2) * 0x100 + b1) * 0x100 + b0
    else ((b0 * 0x100 + b1) * 0x100 + b2) * 0x100 + b3
  }

  /** `getUint16(pos, little)`. */
  function ReadU16(buf: seq<byte>, pos: nat, little: bool): (r: Option<nat>)
    ensures r.Some? <==> pos + 2 <= |buf|
    ensures r.Some? ==> r.value < U16_LIMIT
  {
    if pos + 2 <= |buf| then Some(Uint16(buf[pos], buf[pos + 1], little)) else None
  }

  /** `getUint32(pos, little)`. */
  function ReadU32(buf: seq<byte>, pos: nat, little: bool): (r: Option<nat>)
    ensures r.Some? <==> pos + 4 <= |buf|
    ensures r.Some? ==> r.value < U32_LIMIT
  {
    if pos + 4 <= |buf| then Some(Uint32(buf[pos], buf[pos + 1], buf[pos + 2], buf[pos + 3], little))
    else None
  }

  /** The two octets `setUint16(0, v, little)` would store; reading them back gives `v`. */
  function EncodeU16(v: nat, little: bool): (s: seq<byte>)
    requires v < U16_LIMIT
    ensures |s| == 2
    ensures ReadU16(s, 0, little) == Some(v)
  {
    if little then [v % 0x100, v / 0x100] else [v / 0x100, v % 0x100]
  }

  /** The four octets `setUint32(0, v, little)` would store; reading them back gives `v`. */
  function EncodeU32(v: nat, little: bool): (s: seq<byte>)
    requires v < U32_LIMIT
    ensures |s| == 4
    ensures ReadU32(s, 0, little) == Some(v)
  {
    var q1, b3 := v / 0x100, v % 0x100;
    var q2, b2 := q1 / 0x100, q1 % 0x100;
    var b0, b1 := q2 / 0x100, q2 % 0x100;
    assert q2 == b0 * 0x100 + b1 && q1 == q2 * 0x100 + b2 && v == q1 * 0x100 + b3;
    if little then [b3, b2, b1, b0] else [b0, b1, b2, b3]
  }

  /** A read from a concatenation sees the part it falls in: the front part
      for a read that fits in it, the back part for a read starting past it. */
  lemma ReadsOfAppend(a: seq<byte>, b: seq<byte>, k: nat, little: bool)
    ensures k + 2 <= |a| ==> ReadU16(a + b, k, little) == ReadU16(a, k, little)
    ensures k + 4 <= |a| ==> ReadU32(a + b, k, little) == ReadU32(a, k, little)
    ensures ReadU16(a + b, |a| + k, little) == ReadU16(b, k, little)
    ensures ReadU32(a + b, |a| + k, little) == ReadU32(b, k, little)
  {
  }
}
