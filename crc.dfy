/**
 * The frame check sequence of section 7.2.1.9: the ITU-T CRC-16 with the
 * reflected polynomial 0x8408, started from 0 and with no final inversion,
 * as the kernel's crc_ccitt(0, ...) computes it one byte at a time.
 */
module Crc {
  import opened Ieee802154

  const POLY: bv16 := 0x8408

  /**
   * One bit of the reflected shift register: shift right, and fold the
   * polynomial in when the bit shifted out was 1 (0 - (c & 1) is all ones
   * exactly then).
   */
  function Step(c: bv16): bv16 {
    (c >> 1) ^ ((0 - (c & 1)) & POLY)
  }

  function Step8(c: bv16): bv16 {
    Step(Step(Step(Step(Step(Step(Step(Step(c))))))))
  }

  /** crc_ccitt_byte: fold one byte into the register. */
  function CrcByte(crc: bv16, b: Byte): bv16 {
    Step8(crc ^ (b as bv16))
  }

  /** crc_ccitt(crc, data, len): the bytes are folded in from the first to the last. */
  function CrcCcitt(crc: bv16, data: seq<Byte>): bv16
    decreases |data|
  {
    if data == [] then crc else CrcCcitt(CrcByte(crc, data[0]), data[1..])
  }

  /** The two FCS bytes a transmitter appends: the CRC, low byte first. */
  function Fcs(m: seq<Byte>): (r: seq<Byte>)
    ensures |r| == 2
  {
    Le16(CrcCcitt(0, m))
  }

  lemma {:induction false} CrcConcat(crc: bv16, a: seq<Byte>, b: seq<Byte>)
    ensures CrcCcitt(crc, a + b) == CrcCcitt(CrcCcitt(crc, a), b)
    decreases |a|
  {
    if a == [] {
      assert a + b == b;
    } else {
      assert (a + b)[0] == a[0];
      assert (a + b)[1..] == a[1..] + b;
      CrcConcat(CrcByte(crc, a[0]), a[1..], b);
    }
  }

  /**
   * Folding two more bytes into a register brings it to zero exactly when
   * those bytes are the register's own low and high byte.
   */
  lemma TrailerZeroes(c: bv16, lo: Byte, hi: Byte)
    ensures CrcByte(CrcByte(c, lo), hi) == 0 <==> lo == Lo(c) && hi == Hi(c)
  {
    if CrcByte(CrcByte(c, lo), hi) == 0 {
      OnlyOwnTrailer(c, lo, hi);
    } else if lo == Lo(c) {
      OwnTrailerZeroes(c);
    }
  }

  /** The register's own two bytes bring it to zero. */
  lemma OwnTrailerZeroes(c: bv16)
    ensures CrcByte(CrcByte(c, Lo(c)), Hi(c)) == 0
  {
  }

  /** No other pair of bytes does. */
  lemma OnlyOwnTrailer(c: bv16, lo: Byte, hi: Byte)
    requires CrcByte(CrcByte(c, lo), hi) == 0
    ensures lo == Lo(c) && hi == Hi(c)
  {
  }

  /**
   * The receive-side check (CRC over the whole frame is zero) accepts a frame
   * exactly when its last two bytes are the FCS of the bytes before them.
   */
  lemma FcsCheckIff(m: seq<Byte>, lo: Byte, hi: Byte)
    ensures CrcCcitt(0, m + [lo, hi]) == 0 <==> [lo, hi] == Fcs(m)
  {
    var c := CrcCcitt(0, m);
    CrcConcat(0, m, [lo, hi]);
    assert [lo, hi][1..] == [hi] && [hi][1..] == [];
    assert CrcCcitt(c, [lo, hi]) == CrcCcitt(CrcByte(c, lo), [hi]);
    assert CrcCcitt(c, [lo, hi]) == CrcByte(CrcByte(c, lo), hi);
    TrailerZeroes(c, lo, hi);
  }
}
