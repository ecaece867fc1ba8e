/**
 * The MAC header wire format (the general MAC frame format of section 7.2.1
 * of IEEE 802.15.4-2006) as the kernel writes and reads it: what
 * ieee802154_header_create emits and what parse_frame_start makes of a
 * received buffer, as functions on byte sequences, with the properties the
 * two promise about each other.
 */
module Codec {
  import opened Wrappers
  import opened Ieee802154

  /** Subfields of a frame-control word (section 7.2.1.1). */
  function FcType(fc: U16): Byte { (fc & FC_TYPE_MASK) as Byte }
  function FcDaMode(fc: U16): AddrMode { ((fc >> FC_DAMODE_SHIFT) & 3) as Byte }
  function FcSaMode(fc: U16): AddrMode { ((fc >> FC_SAMODE_SHIFT) & 3) as Byte }

  /**
   * The PAN-ID compression rule of the encoder: the source PAN is left out
   * when it equals the destination PAN and is not the broadcast PAN.
   */
  predicate PanIdCompressed(sa: Addr, da: Addr) {
    sa.panId == da.panId && sa.panId != PANID_BROADCAST
  }

  /** An address field: a short address little-endian, any other mode 8 bytes reversed. */
  function AddrBytes(a: Addr): (r: seq<Byte>)
    ensures |r| == if a.mode == ADDR_SHORT then 2 else 8
  {
    if a.mode == ADDR_SHORT then Le16(a.shortAddr) else Reverse(a.hwAddr)
  }

  /**
   * The frame-control word, assembled as header_create does it: frame type
   * from the control block, the acknowledgment request, the destination
   * mode when it is not NONE, then the source mode when it is not NONE
   * together with the intra-PAN bit when the source PAN is compressed.
   */
  function FrameControl(typ: Byte, ackReq: bool, da: Addr, sa: Addr): U16
    requires typ < 8
  {
    SrcFc(DestFc(BaseFc(typ, ackReq), da), sa, da)
  }

  function BaseFc(typ: Byte, ackReq: bool): U16 {
    (typ as U16) | (if ackReq then FC_ACK_REQ else 0)
  }

  function DestFc(fc: U16, da: Addr): U16 {
    if da.mode != ADDR_NONE then fc | ((da.mode as U16) << FC_DAMODE_SHIFT) else fc
  }

  function SrcFc(fc: U16, sa: Addr, da: Addr): U16 {
    if sa.mode == ADDR_NONE then fc
    else if PanIdCompressed(sa, da) then (fc | ((sa.mode as U16) << FC_SAMODE_SHIFT)) | FC_INTRA_PAN
    else fc | ((sa.mode as U16) << FC_SAMODE_SHIFT)
  }

  lemma FrameControlFields(typ: Byte, ackReq: bool, da: Addr, sa: Addr)
    requires typ < 8
    ensures var fc := FrameControl(typ, ackReq, da, sa);
      && FcType(fc) == typ
      && (fc & FC_SECEN == 0)
      && ((fc & FC_ACK_REQ != 0) <==> ackReq)
      && ((fc & FC_INTRA_PAN != 0) <==> sa.mode != ADDR_NONE && PanIdCompressed(sa, da))
      && FcDaMode(fc) == da.mode
      && FcSaMode(fc) == sa.mode
  {
  }

  function DestBytes(da: Addr): seq<Byte> {
    if da.mode == ADDR_NONE then [] else Le16(da.panId) + AddrBytes(da)
  }

  function SrcBytes(sa: Addr, da: Addr): seq<Byte> {
    if sa.mode == ADDR_NONE then []
    else if PanIdCompressed(sa, da) then AddrBytes(sa)
    else Le16(sa.panId) + AddrBytes(sa)
  }

  /**
   * The MHR that ieee802154_header_create pushes in front of the payload:
   * frame control low byte first, the sequence number, the destination PAN
   * and address, then the source PAN (unless compressed) and address.
   */
  function EncodeHeader(typ: Byte, ackReq: bool, seqNo: Byte, da: Addr, sa: Addr): (r: seq<Byte>)
    requires typ < 8
    ensures 3 <= |r| <= 23
    ensures r[..2] == Le16(FrameControl(typ, ackReq, da, sa)) && r[2] == seqNo
    ensures |r| == 3 + |DestBytes(da)| + |SrcBytes(sa, da)|
  {
    Le16(FrameControl(typ, ackReq, da, sa)) + [seqNo] + DestBytes(da) + SrcBytes(sa, da)
  }

  /**
   * The source address header_create uses when the caller gives none: the
   * interface's extended address when its short address is the broadcast or
   * the undefined one or its PAN is the broadcast PAN, its short address
   * otherwise; the PAN is the interface's in both cases. (The unused member
   * of the C union is left as the caller's.)
   */
  function DefaultSource(panId: U16, shortAddr: U16, devAddr: HwAddr, scratch: Addr): (r: Addr)
    ensures r.panId == panId
    ensures r.mode == ADDR_LONG <==>
      shortAddr == ADDR_BROADCAST || shortAddr == ADDR_UNDEF || panId == PANID_BROADCAST
    ensures r.mode == ADDR_LONG ==> r.hwAddr == devAddr
    ensures r.mode != ADDR_LONG ==> r.mode == ADDR_SHORT && r.shortAddr == shortAddr
  {
    if shortAddr == ADDR_BROADCAST || shortAddr == ADDR_UNDEF || panId == PANID_BROADCAST then
      scratch.(mode := ADDR_LONG, hwAddr := devAddr, panId := panId)
    else
      scratch.(mode := ADDR_SHORT, shortAddr := shortAddr, panId := panId)
  }

  /** Two addresses that put the same bytes on the air. */
  predicate SameOnWire(a: Addr, b: Addr) {
    && a.mode == b.mode
    && (a.mode != ADDR_NONE ==> a.panId == b.panId)
    && (a.mode == ADDR_SHORT ==> a.shortAddr == b.shortAddr)
    && (a.mode != ADDR_NONE && a.mode != ADDR_SHORT ==> a.hwAddr == b.hwAddr)
  }

  // ---------------------------------------------------------------------
  // Decoding, as parse_frame_start does it.
  // ---------------------------------------------------------------------

  /** The outcome of parse_frame_start: the control block and the bytes not pulled, or -EINVAL. */
  datatype Decoded = Decoded(cb: MacCb, rest: seq<Byte>) | Malformed

  /** The control-block flags derived from a frame-control word. */
  function CbFlags(fc: U16): Byte {
    FcType(fc)
    | (if fc & FC_ACK_REQ != 0 then CB_ACKREQ else 0)
    | (if fc & FC_SECEN != 0 then CB_SECEN else 0)
    | (if fc & FC_INTRA_PAN != 0 then CB_INTRAPAN else 0)
  }

  /** Bytes the address fields take, as the decoder reads them. */
  function DestLen(fc: U16): nat {
    if FcDaMode(fc) == ADDR_NONE then 0
    else if FcDaMode(fc) == ADDR_SHORT then 4
    else 10
  }

  function SrcLen(fc: U16): nat {
    if FcSaMode(fc) == ADDR_NONE then 0
    else (if fc & FC_INTRA_PAN != 0 then 0 else 2) + (if FcSaMode(fc) == ADDR_SHORT then 2 else 8)
  }

  /**
   * The destination fields: PAN, then a short or (any other mode) an
   * extended address; with intra-PAN set the PAN is also the source's.
   */
  function DecodeDest(d: seq<Byte>, cb: MacCb): Option<(MacCb, seq<Byte>)> {
    if cb.da.mode == ADDR_NONE then Some((cb, d))
    else if |d| < 2 then None
    else
      var pan := U16Of(d[0], d[1]);
      var cb1 := cb.(da := cb.da.(panId := pan));
      var cb2 := if CbIntraPan(cb1) then cb1.(sa := cb1.sa.(panId := pan)) else cb1;
      var d2 := d[2..];
      if cb.da.mode == ADDR_SHORT then
        if |d2| < 2 then None
        else Some((cb2.(da := cb2.da.(shortAddr := U16Of(d2[0], d2[1]))), d2[2..]))
      else
        if |d2| < 8 then None
        else Some((cb2.(da := cb2.da.(hwAddr := Reverse(d2[..8]))), d2[8..]))
  }

  /** The source fields: PAN unless intra-PAN is set, then the address. */
  function DecodeSrc(d: seq<Byte>, cb: MacCb): Option<(MacCb, seq<Byte>)> {
    if cb.sa.mode == ADDR_NONE then Some((cb, d))
    else
      var r :=
        if CbIntraPan(cb) then Some((cb, d))
        else if |d| < 2 then None
        else Some((cb.(sa := cb.sa.(panId := U16Of(d[0], d[1]))), d[2..]));
      if r.None? then None
      else
        var (cb1, d1) := r.value;
        if cb.sa.mode == ADDR_SHORT then
          if |d1| < 2 then None
          else Some((cb1.(sa := cb1.sa.(shortAddr := U16Of(d1[0], d1[1]))), d1[2..]))
        else
          if |d1| < 8 then None
          else Some((cb1.(sa := cb1.sa.(hwAddr := Reverse(d1[..8]))), d1[8..]))
  }

  /**
   * parse_frame_start on a buffer holding d, whose control block held cb0:
   * fewer than 3 bytes, the security bit, an ACK with an address, or a field
   * cut short make it fail; otherwise it fills the control block and pulls
   * the header. Fields it does not reach keep cb0's values.
   */
  function DecodeFrameStart(d: seq<Byte>, cb0: MacCb): Decoded {
    if |d| < 3 then Malformed
    else
      var fc := U16Of(d[0], d[1]);
      var cb1 := cb0.(flags := CbFlags(fc), seqNo := d[2]);
      if CbSecEn(cb1) then Malformed
      else
        var cb2 := cb1.(sa := cb1.sa.(mode := FcSaMode(fc)), da := cb1.da.(mode := FcDaMode(fc)));
        if FcType(fc) == FC_TYPE_ACK && (FcSaMode(fc) != ADDR_NONE || FcDaMode(fc) != ADDR_NONE) then Malformed
        else match DecodeDest(d[3..], cb2)
          case None => Malformed
          case Some((cb3, d3)) =>
            match DecodeSrc(d3, cb3)
            case None => Malformed
            case Some((cb4, d4)) => Decoded(cb4, d4)
  }

  // ---------------------------------------------------------------------
  // Properties of the decoder on its own.
  // ---------------------------------------------------------------------

  lemma DecodeDestLen(d: seq<Byte>, cb: MacCb, fc: U16)
    requires cb.da.mode == FcDaMode(fc)
    ensures DecodeDest(d, cb).Some? <==> |d| >= DestLen(fc)
    ensures DecodeDest(d, cb).Some? ==> DecodeDest(d, cb).value.1 == d[DestLen(fc)..]
    ensures DecodeDest(d, cb).Some? ==> DecodeDest(d, cb).value.0.flags == cb.flags
    ensures DecodeDest(d, cb).Some? ==> DecodeDest(d, cb).value.0.sa.mode == cb.sa.mode
  {
  }

  lemma DecodeSrcLen(d: seq<Byte>, cb: MacCb, fc: U16)
    requires cb.sa.mode == FcSaMode(fc)
    requires CbIntraPan(cb) <==> fc & FC_INTRA_PAN != 0
    ensures DecodeSrc(d, cb).Some? <==> |d| >= SrcLen(fc)
    ensures DecodeSrc(d, cb).Some? ==> DecodeSrc(d, cb).value.1 == d[SrcLen(fc)..]
  {
  }

  lemma CbFlagsBits(fc: U16)
    ensures CbFlags(fc) & CB_TYPEMASK == FcType(fc)
    ensures (CbFlags(fc) & CB_ACKREQ != 0) <==> (fc & FC_ACK_REQ != 0)
    ensures (CbFlags(fc) & CB_SECEN != 0) <==> (fc & FC_SECEN != 0)
    ensures (CbFlags(fc) & CB_INTRAPAN != 0) <==> (fc & FC_INTRA_PAN != 0)
  {
  }

  /**
   * Exactly when parse_frame_start fails, and how much it pulls when it
   * does not: the three checks on the first three bytes, then whether the
   * buffer holds every field the frame-control word announces.
   */
  lemma DecodeFrameStartIff(d: seq<Byte>, cb0: MacCb)
    ensures
      var fc := if |d| >= 2 then U16Of(d[0], d[1]) else 0;
      DecodeFrameStart(d, cb0).Malformed? <==>
        || |d| < 3
        || fc & FC_SECEN != 0
        || (FcType(fc) == FC_TYPE_ACK && (FcSaMode(fc) != ADDR_NONE || FcDaMode(fc) != ADDR_NONE))
        || |d| < 3 + DestLen(fc) + SrcLen(fc)
    ensures DecodeFrameStart(d, cb0).Decoded? ==>
      var fc := U16Of(d[0], d[1]);
      DecodeFrameStart(d, cb0).rest == d[3 + DestLen(fc) + SrcLen(fc)..]
  {
    if |d| >= 3 {
      var fc := U16Of(d[0], d[1]);
      var cb1 := cb0.(flags := CbFlags(fc), seqNo := d[2]);
      CbFlagsBits(fc);
      var cb2 := cb1.(sa := cb1.sa.(mode := FcSaMode(fc)), da := cb1.da.(mode := FcDaMode(fc)));
      DecodeDestLen(d[3..], cb2, fc);
      if DecodeDest(d[3..], cb2).Some? {
        var (cb3, d3) := DecodeDest(d[3..], cb2).value;
        DecodeSrcLen(d3, cb3, fc);
      }
    }
  }

  /** The ACK shape rule: an ACK frame that carries either address is refused. */
  lemma AckWithAddressRefused(d: seq<Byte>, cb0: MacCb)
    requires |d| >= 3
    requires FcType(U16Of(d[0], d[1])) == FC_TYPE_ACK
    requires FcSaMode(U16Of(d[0], d[1])) != ADDR_NONE || FcDaMode(U16Of(d[0], d[1])) != ADDR_NONE
    ensures DecodeFrameStart(d, cb0).Malformed?
  {
  }

  /**
   * Every strict prefix of what parse_frame_start consumes is refused: no
   * field is read from bytes that are not there.
   */
  lemma TruncatedRefused(d: seq<Byte>, cb0: MacCb, k: nat)
    requires DecodeFrameStart(d, cb0).Decoded?
    requires k < |d| - |DecodeFrameStart(d, cb0).rest|
    ensures DecodeFrameStart(d[..k], cb0).Malformed?
  {
    DecodeFrameStartIff(d, cb0);
    DecodeFrameStartIff(d[..k], cb0);
    if k >= 2 {
      assert d[..k][0] == d[0] && d[..k][1] == d[1];
    }
  }

  // ---------------------------------------------------------------------
  // The encoder and the decoder together.
  // ---------------------------------------------------------------------

  lemma DecodeDestOfEncoded(da: Addr, sa: Addr, cb: MacCb, p: seq<Byte>)
    requires cb.da.mode == da.mode
    ensures DecodeDest(DestBytes(da) + p, cb).Some?
    ensures var (cb1, r) := DecodeDest(DestBytes(da) + p, cb).value;
      && r == p
      && cb1.flags == cb.flags && cb1.seqNo == cb.seqNo
      && cb1.sa.mode == cb.sa.mode && cb1.sa.shortAddr == cb.sa.shortAddr && cb1.sa.hwAddr == cb.sa.hwAddr
      && SameOnWire(cb1.da, da)
      && (da.mode == ADDR_NONE ==> cb1 == cb)
      && (da.mode != ADDR_NONE && CbIntraPan(cb) ==> cb1.sa.panId == da.panId)
      && (!CbIntraPan(cb) ==> cb1.sa.panId == cb.sa.panId)
  {
    if da.mode != ADDR_NONE {
      var d := DestBytes(da) + p;
      Le16RoundTrip(da.panId);
      assert d[2..] == AddrBytes(da) + p;
      if da.mode == ADDR_SHORT {
        Le16RoundTrip(da.shortAddr);
        assert d[2..][2..] == p;
      } else {
        assert d[2..][..8] == Reverse(da.hwAddr);
        assert d[2..][8..] == p;
        ReverseReverse(da.hwAddr);
      }
    }
  }

  lemma DecodeSrcOfEncoded(sa: Addr, da: Addr, cb: MacCb, p: seq<Byte>)
    requires cb.sa.mode == sa.mode
    requires CbIntraPan(cb) <==> sa.mode != ADDR_NONE && PanIdCompressed(sa, da)
    ensures DecodeSrc(SrcBytes(sa, da) + p, cb).Some?
    ensures var (cb1, r) := DecodeSrc(SrcBytes(sa, da) + p, cb).value;
      && r == p
      && cb1.flags == cb.flags && cb1.seqNo == cb.seqNo && cb1.da == cb.da
      && cb1.sa.mode == sa.mode
      && (sa.mode == ADDR_SHORT ==> cb1.sa.shortAddr == sa.shortAddr)
      && (sa.mode != ADDR_NONE && sa.mode != ADDR_SHORT ==> cb1.sa.hwAddr == sa.hwAddr)
      && (sa.mode != ADDR_NONE && !CbIntraPan(cb) ==> cb1.sa.panId == sa.panId)
      && (sa.mode == ADDR_NONE || CbIntraPan(cb) ==> cb1.sa.panId == cb.sa.panId)
  {
    if sa.mode != ADDR_NONE {
      var d := SrcBytes(sa, da) + p;
      var d1 := if CbIntraPan(cb) then d else d[2..];
      if !CbIntraPan(cb) {
        Le16RoundTrip(sa.panId);
      }
      assert d1 == AddrBytes(sa) + p;
      if sa.mode == ADDR_SHORT {
        Le16RoundTrip(sa.shortAddr);
        assert d1[2..] == p;
      } else {
        assert d1[..8] == Reverse(sa.hwAddr);
        assert d1[8..] == p;
        ReverseReverse(sa.hwAddr);
      }
    }
  }

  lemma EncodedSplit(typ: Byte, ackReq: bool, seqNo: Byte, da: Addr, sa: Addr, payload: seq<Byte>)
    requires typ < 8
    ensures var d := EncodeHeader(typ, ackReq, seqNo, da, sa) + payload;
      && |d| >= 3
      && U16Of(d[0], d[1]) == FrameControl(typ, ackReq, da, sa)
      && d[2] == seqNo
      && d[3..] == DestBytes(da) + (SrcBytes(sa, da) + payload)
  {
    var fc := FrameControl(typ, ackReq, da, sa);
    var h := EncodeHeader(typ, ackReq, seqNo, da, sa);
    Le16RoundTrip(fc);
    assert h == Le16(fc) + [seqNo] + (DestBytes(da) + SrcBytes(sa, da));
    assert (h + payload)[3..] == DestBytes(da) + SrcBytes(sa, da) + payload;
  }

  lemma CbFlagsOfFrameControl(typ: Byte, ackReq: bool, da: Addr, sa: Addr)
    requires typ < 8
    ensures var f := CbFlags(FrameControl(typ, ackReq, da, sa));
      && f & CB_TYPEMASK == typ
      && (f & CB_ACKREQ != 0 <==> ackReq)
      && f & CB_SECEN == 0
      && (f & CB_INTRAPAN != 0 <==> sa.mode != ADDR_NONE && PanIdCompressed(sa, da))
  {
    FrameControlFields(typ, ackReq, da, sa);
    CbFlagsBits(FrameControl(typ, ackReq, da, sa));
  }

  /**
   * The control block parse_frame_start builds before it reads the address
   * fields of an encoded header, and the two field decoders succeeding on it.
   */
  lemma EncodedFrameStart(typ: Byte, ackReq: bool, seqNo: Byte, da: Addr, sa: Addr,
                          payload: seq<Byte>, cb0: MacCb) returns (cb2: MacCb, cb3: MacCb)
    requires typ < 8
    requires typ == FC_TYPE_ACK ==> da.mode == ADDR_NONE && sa.mode == ADDR_NONE
    ensures var fc := FrameControl(typ, ackReq, da, sa);
      cb2 == cb0.(flags := CbFlags(fc), seqNo := seqNo, sa := cb0.sa.(mode := sa.mode), da := cb0.da.(mode := da.mode))
    ensures DecodeDest(DestBytes(da) + (SrcBytes(sa, da) + payload), cb2) == Some((cb3, SrcBytes(sa, da) + payload))
    ensures DecodeSrc(SrcBytes(sa, da) + payload, cb3).Some?
    ensures DecodeFrameStart(EncodeHeader(typ, ackReq, seqNo, da, sa) + payload, cb0)
      == Decoded(DecodeSrc(SrcBytes(sa, da) + payload, cb3).value.0, payload)
  {
    var fc := FrameControl(typ, ackReq, da, sa);
    var d := EncodeHeader(typ, ackReq, seqNo, da, sa) + payload;
    EncodedSplit(typ, ackReq, seqNo, da, sa, payload);
    FrameControlFields(typ, ackReq, da, sa);
    CbFlagsOfFrameControl(typ, ackReq, da, sa);
    var cb1 := cb0.(flags := CbFlags(fc), seqNo := d[2]);
    cb2 := cb1.(sa := cb1.sa.(mode := FcSaMode(fc)), da := cb1.da.(mode := FcDaMode(fc)));
    DecodeDestOfEncoded(da, sa, cb2, SrcBytes(sa, da) + payload);
    var d3;
    cb3, d3 := DecodeDest(d[3..], cb2).value.0, DecodeDest(d[3..], cb2).value.1;
    DecodeSrcOfEncoded(sa, da, cb3, payload);
    var (cb4, d4) := DecodeSrc(d3, cb3).value;
    assert DecodeFrameStart(d, cb0) == Decoded(cb4, d4);
  }

  /**
   * Encode-then-decode: what header_create pushes in front of a payload,
   * parse_frame_start reads back. The frame type, acknowledgment request,
   * sequence number and destination come back, the intra-PAN flag says
   * whether the source PAN was compressed, and exactly the payload is left.
   */
  lemma EncodeDecode(typ: Byte, ackReq: bool, seqNo: Byte, da: Addr, sa: Addr,
                     payload: seq<Byte>, cb0: MacCb)
    requires typ < 8
    requires typ == FC_TYPE_ACK ==> da.mode == ADDR_NONE && sa.mode == ADDR_NONE
    ensures var r := DecodeFrameStart(EncodeHeader(typ, ackReq, seqNo, da, sa) + payload, cb0);
      && r.Decoded?
      && r.rest == payload
      && CbType(r.cb) == typ
      && (CbAckReq(r.cb) <==> ackReq)
      && !CbSecEn(r.cb)
      && (CbIntraPan(r.cb) <==> sa.mode != ADDR_NONE && PanIdCompressed(sa, da))
      && r.cb.seqNo == seqNo
      && SameOnWire(r.cb.da, da)
  {
    var cb2, cb3 := EncodedFrameStart(typ, ackReq, seqNo, da, sa, payload, cb0);
    CbFlagsOfFrameControl(typ, ackReq, da, sa);
    DecodeDestOfEncoded(da, sa, cb2, SrcBytes(sa, da) + payload);
    DecodeSrcOfEncoded(sa, da, cb3, payload);
  }

  /**
   * The source address comes back too. Its PAN comes back except when it
   * was compressed against a destination of mode NONE: then no PAN is on
   * the wire and the control block keeps the value it had.
   */
  lemma EncodeDecodeSource(typ: Byte, ackReq: bool, seqNo: Byte, da: Addr, sa: Addr,
                           payload: seq<Byte>, cb0: MacCb)
    requires typ < 8
    requires typ == FC_TYPE_ACK ==> da.mode == ADDR_NONE && sa.mode == ADDR_NONE
    ensures var r := DecodeFrameStart(EncodeHeader(typ, ackReq, seqNo, da, sa) + payload, cb0);
      && r.Decoded?
      && r.cb.sa.mode == sa.mode
      && (sa.mode == ADDR_SHORT ==> r.cb.sa.shortAddr == sa.shortAddr)
      && (sa.mode != ADDR_NONE && sa.mode != ADDR_SHORT ==> r.cb.sa.hwAddr == sa.hwAddr)
      && (sa.mode != ADDR_NONE && (da.mode != ADDR_NONE || !PanIdCompressed(sa, da)) ==>
            r.cb.sa.panId == sa.panId)
      && (sa.mode != ADDR_NONE && da.mode == ADDR_NONE && PanIdCompressed(sa, da) ==>
            r.cb.sa.panId == cb0.sa.panId)
  {
    var cb2, cb3 := EncodedFrameStart(typ, ackReq, seqNo, da, sa, payload, cb0);
    CbFlagsOfFrameControl(typ, ackReq, da, sa);
    DecodeDestOfEncoded(da, sa, cb2, SrcBytes(sa, da) + payload);
    DecodeSrcOfEncoded(sa, da, cb3, payload);
  }

  /** With every field known, decoding an encoded header gives the addresses back on the wire. */
  lemma EncodeDecodeAddresses(typ: Byte, ackReq: bool, seqNo: Byte, da: Addr, sa: Addr,
                              payload: seq<Byte>, cb0: MacCb)
    requires typ < 8
    requires typ == FC_TYPE_ACK ==> da.mode == ADDR_NONE && sa.mode == ADDR_NONE
    requires da.mode != ADDR_NONE
    ensures var r := DecodeFrameStart(EncodeHeader(typ, ackReq, seqNo, da, sa) + payload, cb0);
      r.Decoded? && r.rest == payload && SameOnWire(r.cb.da, da) && SameOnWire(r.cb.sa, sa)
  {
    EncodeDecode(typ, ackReq, seqNo, da, sa, payload, cb0);
    EncodeDecodeSource(typ, ackReq, seqNo, da, sa, payload, cb0);
  }
}
