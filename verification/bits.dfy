/** Fixed-width bit strings, the value-type counterpart of the bit container the
    DUKPT engine works on. Bit 0 is the most significant bit, so a sub-range
    `s[lo..hi]` is read left to right exactly as the key and KSN layouts are
    written in hexadecimal. Every operation returns a fresh value; nothing is
    updated in place, so no two registers can alias. */
module Bits {

  type Bits = seq<bool>

  /** A single-DES key or a DES block. */
  type Bits64 = s: Bits | |s| == 64 witness Zeros(64)

  /** A Key Serial Number: a 59-bit static prefix followed by a 21-bit counter. */
  type Bits80 = s: Bits | |s| == 80 witness Zeros(80)

  /** A double-length triple-DES key. */
  type Bits128 = s: Bits | |s| == 128 witness Zeros(128)

  function Zeros(n: nat): (r: Bits)
    ensures |r| == n
    ensures forall i :: 0 <= i < n ==> !r[i]
  {
    seq(n, _ => false)
  }

  /** Bitwise exclusive or of two strings of the same width. */
  function Xor(a: Bits, b: Bits): (r: Bits)
    requires |a| == |b|
    ensures |r| == |a|
    ensures forall i :: 0 <= i < |r| ==> r[i] == (a[i] != b[i])
  {
    seq(|a|, i requires 0 <= i < |a| => a[i] != b[i])
  }

  /** XOR with a fixed mask undoes itself: unmasking a masked key gives the key back. */
  lemma XorInvolution(a: Bits, m: Bits)
    requires |a| == |m|
    ensures Xor(Xor(a, m), m) == a
  {
  }

  /** `s` with every bit in [lo, hi) cleared and every other bit kept. */
  function ClearRange(s: Bits, lo: nat, hi: nat): (r: Bits)
    requires lo <= hi <= |s|
    ensures |r| == |s|
    ensures forall i :: 0 <= i < |s| ==> r[i] == (s[i] && !(lo <= i < hi))
  {
    s[..lo] + Zeros(hi - lo) + s[hi..]
  }

  /** Bit k (0 = most significant) of a byte. */
  function ByteBit(b: bv8, k: nat): bool
    requires k < 8
  {
    (b >> (7 - k) as bv8) & 1 == 1
  }

  /** Bytes unpacked most significant bit first, left to right. */
  function FromBytes(bytes: seq<bv8>): (r: Bits)
    ensures |r| == 8 * |bytes|
    ensures forall i :: 0 <= i < |r| ==> r[i] == ByteBit(bytes[i / 8], i % 8)
  {
    seq(8 * |bytes|, i requires 0 <= i < 8 * |bytes| => ByteBit(bytes[i / 8], i % 8))
  }
}
