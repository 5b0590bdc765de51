/**
  Why `Wire` may say in arithmetic what the code says in bit operations.
*/
module Bits {
  /** `v & 0x7f`, `v >> 7` and `uint8(v & 0x7f | 0x80)` in the encoder. */
  lemma GroupsOfSeven(v: bv64)
    ensures v & 0x7f == v % 128 && v >> 7 == v / 128
    ensures (v & 0x7f) | 0x80 == v % 128 + 128
  {
  }

  /** `acc |= uint64(b & 0x7F) << shift` in the decoder: the bits below `shift` are the groups read so
      far, so the `or` is an addition modulo 2^64.  What the tenth group has above bit 63 is lost. */
  lemma OrIsAddition(acc: bv64, b: bv64, shift: bv64)
    requires shift < 64 && acc < (1 << shift)
    ensures acc | ((b & 0x7f) << shift) == acc + ((b & 0x7f) << shift)
    ensures shift < 57 ==> acc | ((b & 0x7f) << shift) < (1 << (shift + 7))
  {
  }

  /** The same into a 32-bit variable, as in `m.Round |= int32(b&0x7F) << shift`: up to bit 31 the `or` is
      an addition modulo 2^32, ... */
  lemma OrIsAddition32(acc: bv32, b: bv32, shift: bv32)
    requires shift < 32 && acc < (1 << shift)
    ensures acc | ((b & 0x7f) << shift) == acc + ((b & 0x7f) << shift)
    ensures shift < 25 ==> acc | ((b & 0x7f) << shift) < (1 << (shift + 7))
  {
  }

  /** ... and a group that lies beyond bit 31 has no low bits, so it changes nothing. */
  lemma GroupsBeyond32(b: bv64, shift: bv64)
    requires 32 <= shift < 64
    ensures ((b & 0x7f) << shift) & 0xffff_ffff == 0 && ((b & 0x7f) << shift) % 0x1_0000_0000 == 0
  {
  }

  /** `int32(wire >> 3)` and `int(wire & 0x7)` in the decoder. */
  lemma TagParts(wire: bv64)
    ensures wire >> 3 == wire / 8 && wire & 0x7 == wire % 8
  {
  }
}
