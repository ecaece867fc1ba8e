/** The optional value that the decoders return. */
module Wrappers {
  datatype Option<T> = None | Some(value: T)
}

/**
 * Values shared by the whole MAC sublayer model: the byte-level types, the
 * constants of the general MAC frame format (section 7.2.1 of
 * IEEE 802.15.4-2006), the kernel's address record and the per-frame control
 * block that the receive path fills in.
 */
module Ieee802154 {

  type Byte = bv8
  type U16 = bv16

  /** An extended (64-bit) address, stored most significant byte first. */
  type HwAddr = s: seq<Byte> | |s| == 8 witness [0, 0, 0, 0, 0, 0, 0, 0]

  const ADDR_LEN: nat := 8

  /** The two-bit addressing-mode subfield; the value 1 is reserved. */
  type AddrMode = m: Byte | m < 4

  const ADDR_NONE: AddrMode := 0
  const ADDR_SHORT: AddrMode := 2
  const ADDR_LONG: AddrMode := 3

  const PANID_BROADCAST: U16 := 0xFFFF
  const ADDR_BROADCAST: U16 := 0xFFFF
  const ADDR_UNDEF: U16 := 0xFFFE

  /** Frame-control subfields (section 7.2.1.1). */
  const FC_TYPE_BEACON: Byte := 0
  const FC_TYPE_DATA: Byte := 1
  const FC_TYPE_ACK: Byte := 2
  const FC_TYPE_MAC_CMD: Byte := 3
  const FC_TYPE_MASK: U16 := 7
  const FC_SECEN: U16 := 0x0008
  const FC_ACK_REQ: U16 := 0x0020
  const FC_INTRA_PAN: U16 := 0x0040
  const FC_DAMODE_SHIFT: U16 := 10
  const FC_SAMODE_SHIFT: U16 := 14

  /** Flags of the per-frame control block. */
  const CB_TYPEMASK: Byte := 7
  const CB_ACKREQ: Byte := 0x08
  const CB_SECEN: Byte := 0x10
  const CB_INTRAPAN: Byte := 0x20

  /** Error numbers, returned negated as the kernel does. */
  const EINVAL: int := 22
  const ENOMEM: int := 12
  const EADDRNOTAVAIL: int := 99
  const ENOIOCTLCMD: int := 515

  /**
   * struct ieee802154_addr. The C structure keeps the short and the
   * extended address in a union; every reader selects the member by the
   * mode, so the model keeps them as two fields.
   */
  datatype Addr = Addr(mode: AddrMode, panId: U16, shortAddr: U16, hwAddr: HwAddr)

  /** An address record with every field zero, as a fresh zeroed structure holds it. */
  const NO_ADDR: Addr := Addr(ADDR_NONE, 0, 0, [0, 0, 0, 0, 0, 0, 0, 0])

  /** struct ieee802154_mac_cb: what decoding leaves beside the buffer. */
  datatype MacCb = MacCb(flags: Byte, seqNo: Byte, sa: Addr, da: Addr)

  function CbType(cb: MacCb): Byte { cb.flags & CB_TYPEMASK }
  predicate CbAckReq(cb: MacCb) { cb.flags & CB_ACKREQ != 0 }
  predicate CbSecEn(cb: MacCb) { cb.flags & CB_SECEN != 0 }
  predicate CbIntraPan(cb: MacCb) { cb.flags & CB_INTRAPAN != 0 }

  /** skb->pkt_type values that the receive path uses. */
  datatype PktType = PacketHost | PacketBroadcast | PacketMulticast | PacketOtherHost

  /** Little-endian halves of a 16-bit field. */
  function Lo(x: U16): Byte { (x & 0xFF) as Byte }
  function Hi(x: U16): Byte { (x >> 8) as Byte }
  function Le16(x: U16): seq<Byte> { [Lo(x), Hi(x)] }
  function U16Of(lo: Byte, hi: Byte): U16 { (lo as U16) | ((hi as U16) << 8) }

  lemma Le16RoundTrip(x: U16)
    ensures U16Of(Lo(x), Hi(x)) == x
  {
  }

  /** Byte order reversal of an extended address. */
  function Reverse(s: seq<Byte>): (r: seq<Byte>)
    ensures |r| == |s|
  {
    if s == [] then [] else Reverse(s[1..]) + [s[0]]
  }

  lemma {:induction false} ReverseAt(s: seq<Byte>, k: nat)
    requires k < |s|
    ensures Reverse(s)[k] == s[|s| - 1 - k]
  {
    if k < |s| - 1 {
      ReverseAt(s[1..], k);
    }
  }

  /** Reversing twice gives the address back: ieee802154_haddr_copy_swap is an involution. */
  lemma ReverseReverse(s: seq<Byte>)
    ensures Reverse(Reverse(s)) == s
  {
    var r := Reverse(s);
    forall k | 0 <= k < |s|
      ensures Reverse(r)[k] == s[k]
    {
      ReverseAt(r, k);
      ReverseAt(s, |s| - 1 - k);
    }
  }
}
