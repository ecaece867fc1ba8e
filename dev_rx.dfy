/**
 * The receive path of the MAC sublayer: the FCS check and trim, the header
 * decoder that pulls the MHR off the buffer and fills the control block,
 * the per-interface classification and type dispatch, and the fan-out of a
 * frame over the interfaces bound to a device.
 */
module DevRx {
  import opened Wrappers
  import opened Ieee802154
  import opened Crc
  import opened Codec
  import opened Netdev
  import DevHeader

  // ---------------------------------------------------------------------
  // The FCS check of ieee802154_subif_rx.
  // ---------------------------------------------------------------------

  /**
   * The bytes left for the decoder: unchanged when the hardware checks the
   * FCS itself; otherwise nothing for a frame shorter than 2 bytes or whose
   * CRC over the whole frame is not zero, and the frame without its last two
   * bytes for one that passes.
   */
  function RxAccept(omitCksum: bool, d: seq<Byte>): Option<seq<Byte>> {
    if omitCksum then Some(d)
    else if |d| < 2 then None
    else if CrcCcitt(0, d) != 0 then None
    else Some(d[..|d| - 2])
  }

  /**
   * With the software check, a frame passes exactly when it is some m
   * followed by the FCS of m, and then m is what is left.
   */
  lemma RxAcceptIff(d: seq<Byte>, m: seq<Byte>)
    ensures RxAccept(false, d) == Some(m) <==> d == m + Fcs(m)
  {
    if |d| >= 2 {
      var n := |d| - 2;
      assert d == d[..n] + [d[n], d[n + 1]];
      FcsCheckIff(d[..n], d[n], d[n + 1]);
      if d == m + Fcs(m) {
        assert d[..n] == m;
      }
    } else {
      assert |m + Fcs(m)| >= 2;
    }
  }

  // ---------------------------------------------------------------------
  // fetch_skb_* and parse_frame_start.
  // ---------------------------------------------------------------------

  /** The buffer only ever loses bytes at its front: s is what is left of t. */
  predicate Pulled(s: seq<Byte>, t: seq<Byte>) {
    |s| <= |t| && s == t[|t| - |s|..]
  }

  lemma PulledTrans(s: seq<Byte>, t: seq<Byte>, u: seq<Byte>)
    requires Pulled(s, t) && Pulled(t, u)
    ensures Pulled(s, u)
  {
    assert u[|u| - |t|..][|t| - |s|..] == u[|u| - |s|..];
  }

  /** fetch_skb_u8: the first byte, pulled off the buffer. */
  method FetchU8(skb: SkBuff) returns (v: Byte)
    requires |skb.data| >= 1
    modifies skb`data
    ensures v == old(skb.data)[0] && skb.data == old(skb.data)[1..]
  {
    v := skb.data[0];
    skb.data := skb.data[1..];
  }

  /** fetch_skb_u16: a little-endian 16-bit field, pulled off the buffer. */
  method FetchU16(skb: SkBuff) returns (v: U16)
    requires |skb.data| >= 2
    modifies skb`data
    ensures v == U16Of(old(skb.data)[0], old(skb.data)[1]) && skb.data == old(skb.data)[2..]
  {
    v := (skb.data[0] as U16) + (skb.data[1] as U16) * 256;
    assert v == U16Of(skb.data[0], skb.data[1]);
    skb.data := skb.data[2..];
  }

  /** fetch_skb_u64: an extended address, byte-swapped into host order and pulled off the buffer. */
  method FetchU64(skb: SkBuff) returns (v: HwAddr)
    requires |skb.data| >= ADDR_LEN
    modifies skb`data
    ensures v == Reverse(old(skb.data)[..ADDR_LEN]) && skb.data == old(skb.data)[ADDR_LEN..]
  {
    var buf := new Byte[ADDR_LEN];
    DevHeader.CopySwap(buf, 0, skb.data[..ADDR_LEN]);
    assert buf[..] == Reverse(skb.data[..ADDR_LEN]);
    v := buf[..];
    skb.data := skb.data[ADDR_LEN..];
  }

  /** The destination fields of parse_frame_start, each fetch guarded by a length check. */
  method ParseDest(skb: SkBuff) returns (ok: bool)
    modifies skb`data, skb`cb
    ensures ok <==> DecodeDest(old(skb.data), old(skb.cb)).Some?
    ensures ok ==> (skb.cb, skb.data) == DecodeDest(old(skb.data), old(skb.cb)).value
    ensures Pulled(skb.data, old(skb.data))
  {
    if skb.cb.da.mode == ADDR_NONE {
      return true;
    }
    if |skb.data| < 2 {
      return false;
    }
    var pan := FetchU16(skb);
    skb.cb := skb.cb.(da := skb.cb.da.(panId := pan));
    if CbIntraPan(skb.cb) {
      skb.cb := skb.cb.(sa := skb.cb.sa.(panId := skb.cb.da.panId));
    }
    if skb.cb.da.mode == ADDR_SHORT {
      if |skb.data| < 2 {
        return false;
      }
      var short := FetchU16(skb);
      skb.cb := skb.cb.(da := skb.cb.da.(shortAddr := short));
    } else {
      if |skb.data| < ADDR_LEN {
        return false;
      }
      var hw := FetchU64(skb);
      skb.cb := skb.cb.(da := skb.cb.da.(hwAddr := hw));
    }
    ok := true;
  }

  /** The source fields of parse_frame_start: the PAN unless intra-PAN is set, then the address. */
  method ParseSrc(skb: SkBuff) returns (ok: bool)
    modifies skb`data, skb`cb
    ensures ok <==> DecodeSrc(old(skb.data), old(skb.cb)).Some?
    ensures ok ==> (skb.cb, skb.data) == DecodeSrc(old(skb.data), old(skb.cb)).value
    ensures Pulled(skb.data, old(skb.data))
  {
    if skb.cb.sa.mode == ADDR_NONE {
      return true;
    }
    if !CbIntraPan(skb.cb) {
      if |skb.data| < 2 {
        return false;
      }
      var pan := FetchU16(skb);
      skb.cb := skb.cb.(sa := skb.cb.sa.(panId := pan));
    }
    if skb.cb.sa.mode == ADDR_SHORT {
      if |skb.data| < 2 {
        return false;
      }
      var short := FetchU16(skb);
      skb.cb := skb.cb.(sa := skb.cb.sa.(shortAddr := short));
    } else {
      if |skb.data| < ADDR_LEN {
        return false;
      }
      var hw := FetchU64(skb);
      skb.cb := skb.cb.(sa := skb.cb.sa.(hwAddr := hw));
    }
    ok := true;
  }

  /**
   * parse_frame_start: 0 with the control block filled in and the header
   * pulled off exactly when DecodeFrameStart accepts the bytes, -EINVAL
   * otherwise. Either way the buffer is only ever pulled, never added to.
   */
  method ParseFrameStart(skb: SkBuff) returns (res: int)
    modifies skb`data, skb`cb
    ensures DecodeFrameStart(old(skb.data), old(skb.cb)).Decoded? ==>
      res == 0 && skb.cb == DecodeFrameStart(old(skb.data), old(skb.cb)).cb
      && skb.data == DecodeFrameStart(old(skb.data), old(skb.cb)).rest
    ensures DecodeFrameStart(old(skb.data), old(skb.cb)).Malformed? ==> res == -EINVAL
    ensures Pulled(skb.data, old(skb.data))
  {
    ghost var d, cb0 := skb.data, skb.cb;
    if |skb.data| < 3 {
      return -EINVAL;
    }
    var fc := FetchU16(skb);
    var seqNo := FetchU8(skb);
    assert skb.data == d[3..];
    skb.cb := skb.cb.(flags := CbFlags(fc), seqNo := seqNo);
    ghost var cb1 := skb.cb;
    if CbSecEn(skb.cb) {
      FrameStartSecured(d, cb0, fc, cb1);
      assert DecodeFrameStart(d, cb0).Malformed?;
      return -EINVAL;
    }
    skb.cb := skb.cb.(sa := skb.cb.sa.(mode := FcSaMode(fc)), da := skb.cb.da.(mode := FcDaMode(fc)));
    ghost var cb2 := skb.cb;
    FrameStartFields(d, cb0, fc, cb1, cb2);
    if FcType(fc) == FC_TYPE_ACK && (skb.cb.sa.mode != ADDR_NONE || skb.cb.da.mode != ADDR_NONE) {
      assert DecodeFrameStart(d, cb0).Malformed?;
      return -EINVAL;
    }
    ghost var d2 := skb.data;
    var ok := ParseDest(skb);
    if !ok {
      PulledTrans(skb.data, d2, d);
      assert DecodeFrameStart(d, cb0).Malformed?;
      return -EINVAL;
    }
    ghost var d3 := skb.data;
    ghost var cb3 := skb.cb;
    PulledTrans(d3, d2, d);
    ok := ParseSrc(skb);
    PulledTrans(skb.data, d3, d);
    if !ok {
      assert DecodeFrameStart(d, cb0).Malformed?;
      return -EINVAL;
    }
    assert DecodeFrameStart(d, cb0) == Decoded(skb.cb, skb.data);
    res := 0;
  }

  /** DecodeFrameStart taken apart at the points where parse_frame_start may return. */
  lemma FrameStartSecured(d: seq<Byte>, cb0: MacCb, fc: U16, cb1: MacCb)
    requires |d| >= 3 && fc == U16Of(d[0], d[1])
    requires cb1 == cb0.(flags := CbFlags(fc), seqNo := d[2])
    ensures CbSecEn(cb1) ==> DecodeFrameStart(d, cb0).Malformed?
  {
  }

  lemma FrameStartFields(d: seq<Byte>, cb0: MacCb, fc: U16, cb1: MacCb, cb2: MacCb)
    requires |d| >= 3 && fc == U16Of(d[0], d[1])
    requires cb1 == cb0.(flags := CbFlags(fc), seqNo := d[2]) && !CbSecEn(cb1)
    requires cb2 == cb1.(sa := cb1.sa.(mode := FcSaMode(fc)), da := cb1.da.(mode := FcDaMode(fc)))
    ensures
      var bad := FcType(fc) == FC_TYPE_ACK && (cb2.sa.mode != ADDR_NONE || cb2.da.mode != ADDR_NONE);
      && (bad ==> DecodeFrameStart(d, cb0).Malformed?)
      && (!bad && DecodeDest(d[3..], cb2).None? ==> DecodeFrameStart(d, cb0).Malformed?)
      && (!bad && DecodeDest(d[3..], cb2).Some? ==>
            var (cb3, d3) := DecodeDest(d[3..], cb2).value;
            && (DecodeSrc(d3, cb3).None? ==> DecodeFrameStart(d, cb0).Malformed?)
            && (DecodeSrc(d3, cb3).Some? ==> DecodeFrameStart(d, cb0) == Decoded(DecodeSrc(d3, cb3).value.0, DecodeSrc(d3, cb3).value.1)))
  {
  }

  // ---------------------------------------------------------------------
  // ieee802154_subif_frame.
  // ---------------------------------------------------------------------

  /**
   * The packet type an interface (PAN panId, short address shortAddr,
   * extended address devAddr) gives a decoded frame. With no destination
   * the frame is the host's only when it has no source either (an ACK).
   * A destination in a foreign PAN (neither the interface's nor the
   * broadcast PAN) is another host's. An extended destination is the
   * host's only when it is devAddr; there is no extended broadcast. A short
   * destination is the host's when it is shortAddr and a broadcast when it
   * is 0xFFFF. The reserved mode matches no case and leaves the tag as it was.
   */
  function Classify(cb: MacCb, panId: U16, shortAddr: U16, devAddr: HwAddr, prior: PktType): PktType {
    var da := cb.da;
    if da.mode == ADDR_NONE then
      (if cb.sa.mode != ADDR_NONE then PacketOtherHost else PacketHost)
    else if da.mode == ADDR_LONG then
      if da.panId != panId && da.panId != PANID_BROADCAST then PacketOtherHost
      else if da.hwAddr == devAddr then PacketHost
      else PacketOtherHost
    else if da.mode == ADDR_SHORT then
      if da.panId != panId && da.panId != PANID_BROADCAST then PacketOtherHost
      else if da.shortAddr == shortAddr then PacketHost
      else if da.shortAddr == ADDR_BROADCAST then PacketBroadcast
      else PacketOtherHost
    else prior
  }

  /** The destination PAN is one this interface listens on. */
  predicate PanAccepted(da: Addr, panId: U16) {
    da.panId == panId || da.panId == PANID_BROADCAST
  }

  /**
   * When a frame counts as the host's: no addresses at all, or a destination
   * in an accepted PAN that names the interface's own address of the same
   * kind.
   */
  predicate ForThisHost(cb: MacCb, panId: U16, shortAddr: U16, devAddr: HwAddr) {
    || (cb.da.mode == ADDR_NONE && cb.sa.mode == ADDR_NONE)
    || (cb.da.mode == ADDR_SHORT && PanAccepted(cb.da, panId) && cb.da.shortAddr == shortAddr)
    || (cb.da.mode == ADDR_LONG && PanAccepted(cb.da, panId) && cb.da.hwAddr == devAddr)
  }

  /**
   * The classifier's three outcomes, each by its own rule: HOST exactly for
   * frames for this host; BROADCAST exactly for a short broadcast in an
   * accepted PAN on an interface whose own short address is not the
   * broadcast one; MULTICAST never; and a defined mode never depends on the
   * previous tag.
   */
  lemma ClassifyIff(cb: MacCb, panId: U16, shortAddr: U16, devAddr: HwAddr, prior: PktType)
    requires cb.da.mode != 1
    ensures Classify(cb, panId, shortAddr, devAddr, prior) == PacketHost <==> ForThisHost(cb, panId, shortAddr, devAddr)
    ensures Classify(cb, panId, shortAddr, devAddr, prior) == PacketBroadcast <==>
      cb.da.mode == ADDR_SHORT && PanAccepted(cb.da, panId)
      && cb.da.shortAddr == ADDR_BROADCAST && shortAddr != ADDR_BROADCAST
    ensures Classify(cb, panId, shortAddr, devAddr, prior) != PacketMulticast
    ensures forall p :: Classify(cb, panId, shortAddr, devAddr, prior) == Classify(cb, panId, shortAddr, devAddr, p)
  {
  }

  /** A destination in a foreign PAN is never the host's, whatever its address. */
  lemma ForeignPanIsOtherHost(cb: MacCb, panId: U16, shortAddr: U16, devAddr: HwAddr, prior: PktType)
    requires cb.da.mode == ADDR_SHORT || cb.da.mode == ADDR_LONG
    requires !PanAccepted(cb.da, panId)
    ensures Classify(cb, panId, shortAddr, devAddr, prior) == PacketOtherHost
  {
  }

  /** The reserved destination mode leaves the tag the buffer already had. */
  lemma ReservedModeKeepsTag(cb: MacCb, panId: U16, shortAddr: U16, devAddr: HwAddr, prior: PktType)
    requires cb.da.mode == 1
    ensures Classify(cb, panId, shortAddr, devAddr, prior) == prior
  {
  }

  /**
   * End to end: a frame header_create addressed to an interface's own short
   * address in its PAN, once decoded, is tagged HOST by that interface; one
   * sent to the short broadcast address in that PAN is tagged BROADCAST by
   * any interface with a proper short address.
   */
  lemma EncodedForShortIsHost(typ: Byte, ackReq: bool, seqNo: Byte, sa: Addr, payload: seq<Byte>,
                              cb0: MacCb, panId: U16, shortAddr: U16, devAddr: HwAddr, prior: PktType, dest: U16)
    requires typ < 8 && typ != FC_TYPE_ACK
    requires dest == shortAddr || (dest == ADDR_BROADCAST && shortAddr != ADDR_BROADCAST)
    ensures
      var da := Addr(ADDR_SHORT, panId, dest, devAddr);
      var r := DecodeFrameStart(EncodeHeader(typ, ackReq, seqNo, da, sa) + payload, cb0);
      && r.Decoded?
      && Classify(r.cb, panId, shortAddr, devAddr, prior) == (if dest == shortAddr then PacketHost else PacketBroadcast)
  {
    var da := Addr(ADDR_SHORT, panId, dest, devAddr);
    EncodeDecode(typ, ackReq, seqNo, da, sa, payload, cb0);
  }

  /** The same for a frame addressed to an interface's extended address. */
  lemma EncodedForLongIsHost(typ: Byte, ackReq: bool, seqNo: Byte, sa: Addr, payload: seq<Byte>,
                             cb0: MacCb, panId: U16, shortAddr: U16, devAddr: HwAddr, prior: PktType)
    requires typ < 8 && typ != FC_TYPE_ACK
    ensures
      var da := Addr(ADDR_LONG, panId, 0, devAddr);
      var r := DecodeFrameStart(EncodeHeader(typ, ackReq, seqNo, da, sa) + payload, cb0);
      && r.Decoded?
      && Classify(r.cb, panId, shortAddr, devAddr, prior) == PacketHost
  {
    var da := Addr(ADDR_LONG, panId, 0, devAddr);
    EncodeDecode(typ, ackReq, seqNo, da, sa, payload, cb0);
  }

  /** The handler ieee802154_subif_frame passes a frame to, by frame type. */
  datatype Handler = BeaconHandler | DataHandler | AckHandler | CmdHandler | BadFrame

  function RouteOf(typ: Byte): Handler {
    if typ == FC_TYPE_BEACON then BeaconHandler
    else if typ == FC_TYPE_DATA then DataHandler
    else if typ == FC_TYPE_ACK then AckHandler
    else if typ == FC_TYPE_MAC_CMD then CmdHandler
    else BadFrame
  }

  /** Exactly the four defined frame types reach a handler; the rest are dropped. */
  lemma RouteDropsIff(typ: Byte)
    ensures RouteOf(typ) == BadFrame <==> typ >= 4
  {
  }

  /**
   * ieee802154_subif_frame: tags the buffer by Classify, binds it to the
   * interface, warns when an ACK is requested from a host frame on hardware
   * without automatic acknowledgment, and returns the handler the frame goes
   * to (NET_RX_DROP for a frame of an unknown type).
   */
  method SubifFrame(sdata: SubIf, skb: SkBuff) returns (route: Handler, ackWarning: bool)
    modifies skb`pktType, skb`dev
    ensures skb.pktType == Classify(skb.cb, sdata.panId, sdata.shortAddr, sdata.devAddr, old(skb.pktType))
    ensures skb.dev == sdata
    ensures ackWarning <==> skb.pktType == PacketHost && CbAckReq(skb.cb) && !sdata.hw.aack
    ensures route == RouteOf(CbType(skb.cb))
  {
    skb.pktType := Classify(skb.cb, sdata.panId, sdata.shortAddr, sdata.devAddr, skb.pktType);
    skb.dev := sdata;
    ackWarning := skb.pktType == PacketHost && CbAckReq(skb.cb) && !sdata.hw.aack;
    route := RouteOf(CbType(skb.cb));
  }

  // ---------------------------------------------------------------------
  // ieee802154_subif_rx: the fan-out.
  // ---------------------------------------------------------------------

  /**
   * The interfaces among the first n of slaves that get a clone: one clone
   * is attempted per interface, and ok(i) says whether the i-th succeeded.
   */
  function Cloned(slaves: seq<SubIf>, ok: nat -> bool, n: nat): seq<SubIf>
    requires n <= |slaves|
  {
    if n == 0 then [] else Cloned(slaves, ok, n - 1) + (if ok(n - 1) then [slaves[n - 1]] else [])
  }

  /**
   * The interfaces subif_frame is called for, in list order: every interface
   * but the last whose clone succeeded, then the last with the original.
   */
  function Recipients(slaves: seq<SubIf>, ok: nat -> bool): seq<SubIf> {
    if slaves == [] then [] else Cloned(slaves, ok, |slaves| - 1) + [slaves[|slaves| - 1]]
  }

  lemma {:induction false} ClonedAllOk(slaves: seq<SubIf>, ok: nat -> bool, n: nat)
    requires n <= |slaves|
    requires forall i :: 0 <= i < n ==> ok(i)
    ensures Cloned(slaves, ok, n) == slaves[..n]
  {
    if n > 0 {
      ClonedAllOk(slaves, ok, n - 1);
      assert slaves[..n] == slaves[..n - 1] + [slaves[n - 1]];
    }
  }

  lemma {:induction false} ClonedMember(slaves: seq<SubIf>, ok: nat -> bool, n: nat, i: nat)
    requires n <= |slaves| && i < |slaves|
    requires Distinct(slaves)
    ensures slaves[i] in Cloned(slaves, ok, n) <==> i < n && ok(i)
  {
    if n > 0 {
      ClonedMember(slaves, ok, n - 1, i);
    }
  }

  lemma {:induction false} ClonedLength(slaves: seq<SubIf>, ok: nat -> bool, n: nat)
    requires n <= |slaves|
    ensures |Cloned(slaves, ok, n)| <= n
  {
    if n > 0 {
      ClonedLength(slaves, ok, n - 1);
    }
  }

  /**
   * When every clone succeeds, each interface is handed the frame once, in
   * list order.
   */
  lemma AllClonesEveryone(slaves: seq<SubIf>, ok: nat -> bool)
    requires forall i :: 0 <= i < |slaves| ==> ok(i)
    ensures Recipients(slaves, ok) == slaves
  {
    if slaves != [] {
      ClonedAllOk(slaves, ok, |slaves| - 1);
      assert slaves == slaves[..|slaves| - 1] + [slaves[|slaves| - 1]];
    }
  }

  /**
   * With the interfaces listed once each: an interface is handed the frame
   * exactly when it is the last one or its clone succeeded, so a failed
   * clone skips only its own interface; nobody gets it twice.
   */
  lemma RecipientsIff(slaves: seq<SubIf>, ok: nat -> bool, i: nat)
    requires i < |slaves|
    requires Distinct(slaves)
    ensures slaves[i] in Recipients(slaves, ok) <==> i == |slaves| - 1 || ok(i)
    ensures |Recipients(slaves, ok)| <= |slaves|
    ensures Distinct(Recipients(slaves, ok))
  {
    var n := |slaves| - 1;
    ClonedMember(slaves, ok, n, i);
    ClonedLength(slaves, ok, n);
    ClonedDistinct(slaves, ok, n);
    ClonedMember(slaves, ok, n, n);
    DistinctAppend(Cloned(slaves, ok, n), slaves[n]);
  }

  lemma {:induction false} ClonedDistinct(slaves: seq<SubIf>, ok: nat -> bool, n: nat)
    requires n <= |slaves| && Distinct(slaves)
    ensures Distinct(Cloned(slaves, ok, n))
  {
    if n > 0 {
      ClonedDistinct(slaves, ok, n - 1);
      if ok(n - 1) {
        ClonedMember(slaves, ok, n - 1, n - 1);
        DistinctAppend(Cloned(slaves, ok, n - 1), slaves[n - 1]);
      }
    }
  }

  lemma DistinctAppend(c: seq<SubIf>, y: SubIf)
    requires Distinct(c) && y !in c
    ensures Distinct(c + [y])
  {
  }

  /** What subif_rx did with a frame. */
  datatype RxOutcome =
    | Dropped
    | Delivered(to: seq<SubIf>, bufs: seq<SkBuff>)

  /**
   * A buffer handed to subif_frame for interface sd: the decoded bytes and
   * control block, bound to sd and tagged as sd classifies the frame.
   */
  ghost predicate Received(b: SkBuff, sd: SubIf, cb: MacCb, rest: seq<Byte>, prior: PktType)
    reads b, sd
  {
    && b.data == rest && b.cb == cb && b.dev == sd
    && b.pktType == Classify(cb, sd.panId, sd.shortAddr, sd.devAddr, prior)
  }

  /**
   * The checks of ieee802154_subif_rx before the fan-out: the FCS check and
   * trim unless the hardware checks the FCS, then parse_frame_start. True
   * exactly when both pass, and then the buffer holds the decoded frame.
   */
  method RxPrepare(omitCksum: bool, skb: SkBuff) returns (accepted: bool)
    modifies skb`data, skb`cb
    ensures accepted <==>
      RxAccept(omitCksum, old(skb.data)).Some? && DecodeFrameStart(RxAccept(omitCksum, old(skb.data)).value, old(skb.cb)).Decoded?
    ensures accepted ==>
      var dec := DecodeFrameStart(RxAccept(omitCksum, old(skb.data)).value, old(skb.cb));
      skb.cb == dec.cb && skb.data == dec.rest
  {
    if !omitCksum {
      if |skb.data| < 2 {
        return false;
      }
      var crc := CrcCcitt(0, skb.data);
      if crc != 0 {
        return false;
      }
      skb.data := skb.data[..|skb.data| - 2];
    }
    var ret := ParseFrameStart(skb);
    accepted := ret == 0;
  }

  /**
   * The loop of ieee802154_subif_rx over slaves with its prev cursor: each
   * interface but the last gets a clone when ok says skb_clone succeeded,
   * the last gets skb itself; subif_frame is called for each, in order.
   */
  method FanOut(slaves: seq<SubIf>, skb: SkBuff, ok: nat -> bool) returns (to: seq<SubIf>, bufs: seq<SkBuff>)
    modifies skb`pktType, skb`dev
    ensures to == Recipients(slaves, ok) && |bufs| == |to|
    ensures forall i :: 0 <= i < |bufs| ==> Received(bufs[i], to[i], old(skb.cb), old(skb.data), old(skb.pktType))
    ensures slaves != [] ==> bufs[|bufs| - 1] == skb
    ensures forall i :: 0 <= i < |bufs| - 1 ==> fresh(bufs[i])
    ensures slaves == [] ==> skb.pktType == old(skb.pktType) && skb.dev == old(skb.dev)
  {
    ghost var cb, rest, prior := skb.cb, skb.data, skb.pktType;
    to, bufs := [], [];
    var prev: SubIf? := null;
    var i := 0;
    while i < |slaves|
      invariant 0 <= i <= |slaves|
      invariant prev == if i == 0 then null else slaves[i - 1]
      invariant to == Cloned(slaves, ok, if i == 0 then 0 else i - 1)
      invariant |bufs| == |to|
      invariant forall k :: 0 <= k < |bufs| ==> fresh(bufs[k]) && Received(bufs[k], to[k], cb, rest, prior)
      invariant skb.pktType == prior && skb.dev == old(skb.dev)
    {
      if prev != null {
        var skb2 := new SkBuff.Clone(skb);
        if ok(i - 1) {
          var _, _ := SubifFrame(prev, skb2);
          to, bufs := to + [prev], bufs + [skb2];
        }
      }
      prev := slaves[i];
      i := i + 1;
    }
    if prev != null {
      var _, _ := SubifFrame(prev, skb);
      to, bufs := to + [prev], bufs + [skb];
    }
  }

  /**
   * ieee802154_subif_rx on device hw. A frame the FCS check refuses or the
   * decoder rejects is dropped. Otherwise subif_frame is called once for
   * each of Recipients, in order: fresh clones for the interfaces before the
   * last, the original buffer for the last. With no interfaces the frame is
   * freed after decoding (delivered to nobody). ok(i) stands for skb_clone
   * succeeding for the i-th interface.
   */
  method SubifRx(hw: Device, skb: SkBuff, ok: nat -> bool) returns (out: RxOutcome)
    modifies skb
    ensures var acc := RxAccept(hw.omitCksum, old(skb.data));
      acc.None? || DecodeFrameStart(acc.value, old(skb.cb)).Malformed? ==> out == Dropped
    ensures var acc := RxAccept(hw.omitCksum, old(skb.data));
      acc.Some? && DecodeFrameStart(acc.value, old(skb.cb)).Decoded? ==>
        var dec := DecodeFrameStart(acc.value, old(skb.cb));
        && out.Delivered?
        && out.to == Recipients(hw.slaves, ok)
        && |out.bufs| == |out.to|
        && (forall i :: 0 <= i < |out.bufs| ==> Received(out.bufs[i], out.to[i], dec.cb, dec.rest, old(skb.pktType)))
        && (hw.slaves != [] ==> out.bufs[|out.bufs| - 1] == skb)
        && (forall i :: 0 <= i < |out.bufs| - 1 ==> fresh(out.bufs[i]))
  {
    var accepted := RxPrepare(hw.omitCksum, skb);
    if !accepted {
      return Dropped;
    }
    var to, bufs := FanOut(hw.slaves, skb, ok);
    out := Delivered(to, bufs);
  }
}
