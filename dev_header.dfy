/**
 * The header operations of a WPAN interface (net/mac802154/dev.c):
 * ieee802154_haddr_copy_swap, ieee802154_header_create writing into a local
 * 24-byte buffer through a cursor, and ieee802154_header_parse, the
 * source-address reader, as written and corrected.
 */
module DevHeader {
  import opened Wrappers
  import opened Ieee802154
  import opened Codec
  import opened Netdev

  /**
   * ieee802154_haddr_copy_swap: write the 8 bytes of src into dest at off in
   * reverse order; the rest of dest is untouched.
   */
  method CopySwap(dest: array<Byte>, off: nat, src: seq<Byte>)
    requires |src| == ADDR_LEN && off + ADDR_LEN <= dest.Length
    modifies dest
    ensures dest[..] == old(dest[..])[..off] + Reverse(src) + old(dest[..])[off + ADDR_LEN..]
  {
    var i := 0;
    while i < ADDR_LEN
      invariant 0 <= i <= ADDR_LEN
      invariant forall k :: 0 <= k < dest.Length && !(off + ADDR_LEN - i <= k < off + ADDR_LEN) ==>
        dest[k] == old(dest[k])
      invariant forall k :: 0 <= k < i ==> dest[off + ADDR_LEN - 1 - k] == src[k]
    {
      dest[off + ADDR_LEN - i - 1] := src[i];
      i := i + 1;
    }
    var r := Reverse(src);
    forall k | 0 <= k < ADDR_LEN
      ensures dest[off + k] == r[k]
    {
      ReverseAt(src, k);
    }
    assert dest[..] == old(dest[..])[..off] + r + old(dest[..])[off + ADDR_LEN..];
  }

  /** One address block of the header: the PAN when it is written, then the address. */
  function FieldBytes(a: Addr, withPan: bool): (r: seq<Byte>)
    ensures |r| == (if withPan then 2 else 0) + (if a.mode == ADDR_SHORT then 2 else ADDR_LEN)
  {
    (if withPan then Le16(a.panId) else []) + AddrBytes(a)
  }

  /**
   * An address block is either written at the cursor (and the cursor moves
   * past it) or left out (and nothing changes).
   */
  lemma BlockWritten(s0: seq<Byte>, s1: seq<Byte>, pos: nat, next: nat, written: bool, f: seq<Byte>, b: seq<Byte>)
    requires pos <= |s0|
    requires written ==> f == b && pos + |f| <= |s0| && next == pos + |f| && s1 == s0[..pos] + f + s0[next..]
    requires !written ==> b == [] && next == pos && s1 == s0
    ensures next == pos + |b| && s1 == s0[..pos] + b + s0[next..]
  {
    if !written {
      assert s0 == s0[..pos] + [] + s0[pos..];
    }
  }

  lemma DestBlock(da: Addr)
    ensures da.mode != ADDR_NONE ==> DestBytes(da) == FieldBytes(da, true)
    ensures da.mode == ADDR_NONE ==> DestBytes(da) == []
  {
  }

  lemma SrcBlock(sa: Addr, da: Addr)
    ensures sa.mode != ADDR_NONE ==> SrcBytes(sa, da) == FieldBytes(sa, !PanIdCompressed(sa, da))
    ensures sa.mode == ADDR_NONE ==> SrcBytes(sa, da) == []
  {
  }

  lemma EncodeHeaderIs(typ: Byte, ackReq: bool, seqNo: Byte, da: Addr, sa: Addr, fc: U16)
    requires typ < 8 && fc == FrameControl(typ, ackReq, da, sa)
    ensures EncodeHeader(typ, ackReq, seqNo, da, sa) == Le16(fc) + [seqNo] + (DestBytes(da) + SrcBytes(sa, da))
  {
  }

  /**
   * The header buffer at the end of header_create: the sequence number at
   * offset 2, the two address blocks after it, and the frame-control word
   * written over the first two bytes.
   */
  lemma Assemble(s0: seq<Byte>, s1: seq<Byte>, s2: seq<Byte>, s3: seq<Byte>, seqNo: Byte, fc: U16,
                 d: seq<Byte>, src: seq<Byte>, h: seq<Byte>)
    requires |s0| >= 3 + |d| + |src| && s0[2] == seqNo
    requires s1 == s0[..3] + d + s0[3 + |d|..]
    requires s2 == s1[..3 + |d|] + src + s1[3 + |d| + |src|..]
    requires s3 == s2[..0] + Le16(fc) + s2[2..]
    requires h == Le16(fc) + [seqNo] + (d + src)
    ensures s3[..|h|] == h
  {
    Splice(s0, s1, s2, 3, d, src);
    assert s2[2..3 + |d| + |src|] == [seqNo] + (d + src);
  }

  /** Writing x at the cursor, then y right after it, writes x + y there. */
  lemma Splice(s0: seq<Byte>, s1: seq<Byte>, s2: seq<Byte>, pos: nat, x: seq<Byte>, y: seq<Byte>)
    requires pos + |x| + |y| <= |s0|
    requires s1 == s0[..pos] + x + s0[pos + |x|..]
    requires s2 == s1[..pos + |x|] + y + s1[pos + |x| + |y|..]
    ensures s2 == s0[..pos] + (x + y) + s0[pos + |x| + |y|..]
  {
    assert s1[..pos + |x|] == s0[..pos] + x;
    assert s1[pos + |x| + |y|..] == s0[pos + |x| + |y|..];
  }

  /** Two bytes of a 16-bit field at the cursor, low byte first. */
  method PutLe16(head: array<Byte>, pos: nat, x: U16)
    requires pos + 2 <= head.Length
    modifies head
    ensures head[..] == old(head[..])[..pos] + Le16(x) + old(head[..])[pos + 2..]
  {
    head[pos] := Lo(x);
    head[pos + 1] := Hi(x);
    assert forall k :: 0 <= k < head.Length ==> head[k] == (old(head[..])[..pos] + Le16(x) + old(head[..])[pos + 2..])[k];
  }

  /**
   * The address block of ieee802154_header_create: the PAN (when withPan),
   * then a short address or an extended address through copy_swap, at the
   * cursor pos; returns the new cursor.
   */
  method PutAddr(head: array<Byte>, pos: nat, a: Addr, withPan: bool) returns (next: nat)
    requires pos + |FieldBytes(a, withPan)| <= head.Length
    modifies head
    ensures next == pos + |FieldBytes(a, withPan)|
    ensures head[..] == old(head[..])[..pos] + FieldBytes(a, withPan) + old(head[..])[next..]
  {
    ghost var s0 := head[..];
    var pan: seq<Byte> := [];
    next := pos;
    if withPan {
      PutLe16(head, next, a.panId);
      pan := Le16(a.panId);
      next := next + 2;
    }
    ghost var s1 := head[..];
    assert s1 == s0[..pos] + pan + s0[pos + |pan|..];
    if a.mode == ADDR_SHORT {
      PutLe16(head, next, a.shortAddr);
      next := next + 2;
    } else {
      CopySwap(head, next, a.hwAddr);
      next := next + ADDR_LEN;
    }
    Splice(s0, s1, head[..], pos, pan, AddrBytes(a));
  }

  /**
   * The destination block of header_create: when the destination mode is
   * not NONE, its mode goes into the frame-control word and its PAN and
   * address are written at the cursor.
   */
  method PutDestination(head: array<Byte>, pos: nat, fc: U16, da: Addr) returns (fc': U16, next: nat)
    requires pos + 10 <= head.Length
    modifies head
    ensures fc' == DestFc(fc, da)
    ensures next == pos + |DestBytes(da)|
    ensures head[..] == old(head[..])[..pos] + DestBytes(da) + old(head[..])[next..]
  {
    DestBlock(da);
    fc', next := fc, pos;
    ghost var s0 := head[..];
    if da.mode != ADDR_NONE {
      fc' := fc | ((da.mode as U16) << FC_DAMODE_SHIFT);
      next := PutAddr(head, pos, da, true);
    }
    BlockWritten(s0, head[..], pos, next, da.mode != ADDR_NONE, FieldBytes(da, true), DestBytes(da));
  }

  /**
   * The source block of header_create: when the source mode is not NONE,
   * its mode goes into the frame-control word, then either the intra-PAN
   * bit (source PAN equal to the destination's and not the broadcast PAN)
   * or the source PAN bytes, then the source address.
   */
  method PutSource(head: array<Byte>, pos: nat, fc: U16, sa: Addr, da: Addr) returns (fc': U16, next: nat)
    requires pos + 10 <= head.Length
    modifies head
    ensures fc' == SrcFc(fc, sa, da)
    ensures next == pos + |SrcBytes(sa, da)|
    ensures head[..] == old(head[..])[..pos] + SrcBytes(sa, da) + old(head[..])[next..]
  {
    SrcBlock(sa, da);
    fc', next := fc, pos;
    ghost var s0 := head[..];
    if sa.mode != ADDR_NONE {
      fc' := fc | ((sa.mode as U16) << FC_SAMODE_SHIFT);
      var compressed := sa.panId == da.panId && sa.panId != PANID_BROADCAST;
      if compressed {
        fc' := fc' | FC_INTRA_PAN;
      }
      next := PutAddr(head, pos, sa, !compressed);
    }
    BlockWritten(s0, head[..], pos, next, sa.mode != ADDR_NONE, FieldBytes(sa, !PanIdCompressed(sa, da)), SrcBytes(sa, da));
  }

  /**
   * The source address header_create synthesises, under the MIB lock, when
   * the caller gives none.
   */
  method InterfaceSource(sdata: SubIf) returns (sa: Addr)
    ensures sa == DefaultSource(sdata.panId, sdata.shortAddr, sdata.devAddr, NO_ADDR)
  {
    var devAddr := NO_ADDR;
    if sdata.shortAddr == ADDR_BROADCAST || sdata.shortAddr == ADDR_UNDEF || sdata.panId == PANID_BROADCAST {
      devAddr := devAddr.(mode := ADDR_LONG, hwAddr := sdata.devAddr);
    } else {
      devAddr := devAddr.(mode := ADDR_SHORT, shortAddr := sdata.shortAddr);
    }
    sa := devAddr.(panId := sdata.panId);
  }

  /**
   * The header that header_create pushes for the control block cb, the
   * interface's PAN, short and extended address, the destination da and the
   * caller's source (if any).
   */
  function CreatedHeader(cb: MacCb, panId: U16, shortAddr: U16, devAddr: HwAddr, da: Addr, saddr: Option<Addr>): seq<Byte> {
    var sa := if saddr.Some? then saddr.value else DefaultSource(panId, shortAddr, devAddr, NO_ADDR);
    EncodeHeader(CbType(cb), CbAckReq(cb), cb.seqNo, da, sa)
  }

  /**
   * ieee802154_header_create on the buffer skb for the interface sdata.
   * Without a destination it fails with -EINVAL and pushes nothing. Otherwise
   * it pushes the header EncodeHeader describes, built from the frame type,
   * acknowledgment request and sequence number in the control block, and
   * returns its length; with no source given, the interface's own address
   * (DefaultSource) is used.
   */
  method HeaderCreate(skb: SkBuff, sdata: SubIf, daddr: Option<Addr>, saddr: Option<Addr>) returns (r: int)
    modifies skb`data
    ensures daddr.None? ==> r == -EINVAL && skb.data == old(skb.data)
    ensures daddr.Some? ==>
      var h := CreatedHeader(skb.cb, sdata.panId, sdata.shortAddr, sdata.devAddr, daddr.value, saddr);
      && skb.data == h + old(skb.data)
      && r == |h|
      && 3 <= r <= 23
  {
    if daddr.None? {
      return -EINVAL;
    }
    var sa: Addr;
    if saddr.None? {
      sa := InterfaceSource(sdata);
    } else {
      sa := saddr.value;
    }
    var head := BuildHeader(skb.cb, daddr.value, sa);
    skb.data := head + skb.data;
    r := |head|;
  }

  /**
   * The header as header_create assembles it in its on-stack buffer: the
   * sequence number at offset 2, the destination block, the source block,
   * and the frame-control word built up along the way, written last.
   */
  method BuildHeader(cb: MacCb, da: Addr, sa: Addr) returns (hdr: seq<Byte>)
    ensures hdr == EncodeHeader(CbType(cb), CbAckReq(cb), cb.seqNo, da, sa)
    ensures 3 <= |hdr| <= 23
  {
    var head := new Byte[24];
    var fc: U16 := CbType(cb) as U16;
    if CbAckReq(cb) {
      fc := fc | FC_ACK_REQ;
    }
    var pos := 2;
    head[pos] := cb.seqNo;
    pos := pos + 1;
    ghost var s0 := head[..];
    ghost var fc0 := fc;
    fc, pos := PutDestination(head, pos, fc, da);
    ghost var mid := pos;
    ghost var s1 := head[..];
    ghost var fc1 := fc;
    fc, pos := PutSource(head, pos, fc, sa, da);
    ghost var s2 := head[..];
    PutLe16(head, 0, fc);
    HeaderBuilt(cb, da, sa, fc0, fc1, fc, s0, s1, s2, head[..], mid, pos);
    assert head[..pos] == head[..][..pos];
    hdr := head[..pos];
  }

  /**
   * What the cursor writes in header_create adds up to the header
   * EncodeHeader describes: sequence number at offset 2, the destination
   * block, the source block, and the frame-control word assembled in the
   * branches written over offsets 0 and 1.
   */
  lemma HeaderBuilt(cb: MacCb, da: Addr, sa: Addr, fc0: U16, fc1: U16, fc: U16,
                    s0: seq<Byte>, s1: seq<Byte>, s2: seq<Byte>, s3: seq<Byte>, mid: nat, pos: nat)
    requires |s0| == 24 && s0[2] == cb.seqNo
    requires fc0 == BaseFc(CbType(cb), CbAckReq(cb))
    requires fc1 == DestFc(fc0, da) && fc == SrcFc(fc1, sa, da)
    requires mid == 3 + |DestBytes(da)| && s1 == s0[..3] + DestBytes(da) + s0[mid..]
    requires pos == mid + |SrcBytes(sa, da)| && s2 == s1[..mid] + SrcBytes(sa, da) + s1[pos..]
    requires s3 == s2[..0] + Le16(fc) + s2[2..]
    ensures pos == |EncodeHeader(CbType(cb), CbAckReq(cb), cb.seqNo, da, sa)|
    ensures s3[..pos] == EncodeHeader(CbType(cb), CbAckReq(cb), cb.seqNo, da, sa)
  {
    var h := EncodeHeader(CbType(cb), CbAckReq(cb), cb.seqNo, da, sa);
    EncodeHeaderIs(CbType(cb), CbAckReq(cb), cb.seqNo, da, sa, fc);
    Assemble(s0, s1, s2, s3, cb.seqNo, fc, DestBytes(da), SrcBytes(sa, da), h);
  }

  // ---------------------------------------------------------------------
  // ieee802154_header_parse: only the source address is reported.
  // ---------------------------------------------------------------------

  /**
   * The destination fields as ieee802154_header_parse passes over them: a
   * destination of mode NONE with intra-PAN set, or a reserved mode, is
   * malformed; the destination PAN is read (into the reported PAN) only when
   * intra-PAN is set, and otherwise not skipped at all.
   */
  function SkipDestAsWritten(p: seq<Byte>, fc: U16, a: Addr): Option<(Addr, seq<Byte>)> {
    var intra := fc & FC_INTRA_PAN != 0;
    var mode := FcDaMode(fc);
    if mode == ADDR_NONE then (if intra then None else Some((a, p)))
    else if mode != ADDR_SHORT && mode != ADDR_LONG then None
    else if |p| < 2 then None
    else
      var a1 := if intra then a.(panId := U16Of(p[0], p[1])) else a;
      var p1 := if intra then p[2..] else p;
      var n := if mode == ADDR_LONG then ADDR_LEN else 2;
      if |p1| < n then None else Some((a1, p1[n..]))
  }

  /**
   * The corrected destination step: the destination PAN is always on the
   * wire when a destination is, so it is always passed over, and copied
   * into the reported PAN when intra-PAN says the source shares it.
   */
  function SkipDest(p: seq<Byte>, fc: U16, a: Addr): Option<(Addr, seq<Byte>)> {
    var intra := fc & FC_INTRA_PAN != 0;
    var mode := FcDaMode(fc);
    if mode == ADDR_NONE then (if intra then None else Some((a, p)))
    else if mode != ADDR_SHORT && mode != ADDR_LONG then None
    else if |p| < 2 then None
    else
      var a1 := if intra then a.(panId := U16Of(p[0], p[1])) else a;
      var p1 := p[2..];
      var n := if mode == ADDR_LONG then ADDR_LEN else 2;
      if |p1| < n then None else Some((a1, p1[n..]))
  }

  /**
   * The source fields: the PAN unless intra-PAN is set, then the short or
   * the extended address; a reserved mode is malformed.
   */
  function ReadSrc(q: seq<Byte>, fc: U16, a: Addr): Option<Addr>
    requires a.mode == FcSaMode(fc)
  {
    var intra := fc & FC_INTRA_PAN != 0;
    if a.mode == ADDR_NONE then Some(a)
    else if a.mode != ADDR_SHORT && a.mode != ADDR_LONG then None
    else if |q| < 2 then None
    else
      var a1 := if !intra then a.(panId := U16Of(q[0], q[1])) else a;
      var q1 := if !intra then q[2..] else q;
      if a.mode == ADDR_LONG then
        if |q1| < ADDR_LEN then None else Some(a1.(hwAddr := Reverse(q1[..ADDR_LEN])))
      else
        if |q1| < 2 then None else Some(a1.(shortAddr := U16Of(q1[0], q1[1])))
  }

  /**
   * ieee802154_header_parse as written: the source address of the MAC
   * header h, written over the caller's record addr0, or None (the C
   * function returns 0) when the header is malformed.
   */
  function HeaderParse(h: seq<Byte>, addr0: Addr): Option<Addr> {
    if |h| < 3 then None
    else
      var fc := U16Of(h[0], h[1]);
      var a := addr0.(mode := FcSaMode(fc));
      match SkipDestAsWritten(h[3..], fc, a)
      case None => None
      case Some((a1, q)) => ReadSrc(q, fc, a1)
  }

  /** ieee802154_header_parse with the destination PAN always passed over. */
  function HeaderParseFixed(h: seq<Byte>, addr0: Addr): Option<Addr> {
    if |h| < 3 then None
    else
      var fc := U16Of(h[0], h[1]);
      var a := addr0.(mode := FcSaMode(fc));
      match SkipDest(h[3..], fc, a)
      case None => None
      case Some((a1, q)) => ReadSrc(q, fc, a1)
  }

  /**
   * The as-written parser misreads an ordinary data frame between two
   * PANs: it takes the destination PAN bytes for the destination address,
   * the destination address for the source PAN and the source PAN for the
   * source address.
   */
  lemma HeaderParseMisreadsSource()
    ensures
      var zero: HwAddr := [0, 0, 0, 0, 0, 0, 0, 0];
      var da := Addr(ADDR_SHORT, 0x1234, 0x0001, zero);
      var sa := Addr(ADDR_SHORT, 0x5678, 0x0002, zero);
      var h := EncodeHeader(FC_TYPE_DATA, false, 7, da, sa);
      && h == [0x01, 0x88, 7, 0x34, 0x12, 0x01, 0x00, 0x78, 0x56, 0x02, 0x00]
      && HeaderParse(h, NO_ADDR) == Some(Addr(ADDR_SHORT, 0x0001, 0x5678, zero))
      && !SameOnWire(HeaderParse(h, NO_ADDR).value, sa)
      && HeaderParseFixed(h, NO_ADDR) == Some(sa)
  {
    var zero: HwAddr := [0, 0, 0, 0, 0, 0, 0, 0];
    var da := Addr(ADDR_SHORT, 0x1234, 0x0001, zero);
    var sa := Addr(ADDR_SHORT, 0x5678, 0x0002, zero);
    var h := EncodeHeader(FC_TYPE_DATA, false, 7, da, sa);
    assert FrameControl(FC_TYPE_DATA, false, da, sa) == 0x8801;
    assert h == [0x01, 0x88, 7, 0x34, 0x12, 0x01, 0x00, 0x78, 0x56, 0x02, 0x00];
    var fc := U16Of(h[0], h[1]);
    assert fc == 0x8801;
    assert FcDaMode(fc) == ADDR_SHORT && FcSaMode(fc) == ADDR_SHORT && fc & FC_INTRA_PAN == 0;
    assert h[3..][2..] == [0x01, 0x00, 0x78, 0x56, 0x02, 0x00];
    assert h[3..][2..][2..] == [0x78, 0x56, 0x02, 0x00];
  }

  /**
   * The misreading in general: for every header between short addresses on
   * two different PANs, whatever follows it, the as-written parser succeeds
   * but reports the destination short address as the source PAN and the
   * source PAN as the source short address.
   */
  lemma HeaderParseMisreadsShort(typ: Byte, ackReq: bool, seqNo: Byte, da: Addr, sa: Addr,
                                 payload: seq<Byte>, addr0: Addr)
    requires typ < 8
    requires da.mode == ADDR_SHORT && sa.mode == ADDR_SHORT && da.panId != sa.panId
    ensures
      var r := HeaderParse(EncodeHeader(typ, ackReq, seqNo, da, sa) + payload, addr0);
      && r.Some?
      && r.value.mode == ADDR_SHORT
      && r.value.panId == da.shortAddr
      && r.value.shortAddr == sa.panId
  {
    var fc := FrameControl(typ, ackReq, da, sa);
    EncodedSplit(typ, ackReq, seqNo, da, sa, payload);
    FrameControlFields(typ, ackReq, da, sa);
    var p := Le16(da.panId) + Le16(da.shortAddr) + Le16(sa.panId) + Le16(sa.shortAddr) + payload;
    assert DestBytes(da) + (SrcBytes(sa, da) + payload) == p;
    var q := p[2..];
    assert q[0] == Lo(da.shortAddr) && q[1] == Hi(da.shortAddr);
    assert q[2..][0] == Lo(sa.panId) && q[2..][1] == Hi(sa.panId);
    Le16RoundTrip(da.shortAddr);
    Le16RoundTrip(sa.panId);
  }

  lemma SkipDestOfEncoded(typ: Byte, ackReq: bool, da: Addr, sa: Addr, a: Addr, rest: seq<Byte>)
    requires typ < 8
    requires da.mode != 1
    requires !(da.mode == ADDR_NONE && sa.mode != ADDR_NONE && PanIdCompressed(sa, da))
    ensures
      var fc := FrameControl(typ, ackReq, da, sa);
      var intra := sa.mode != ADDR_NONE && PanIdCompressed(sa, da);
      SkipDest(DestBytes(da) + rest, fc, a) == Some((if intra then a.(panId := da.panId) else a, rest))
  {
    var fc := FrameControl(typ, ackReq, da, sa);
    FrameControlFields(typ, ackReq, da, sa);
    if da.mode != ADDR_NONE {
      var p := DestBytes(da) + rest;
      Le16RoundTrip(da.panId);
      assert p[0] == Lo(da.panId) && p[1] == Hi(da.panId);
      assert p[2..] == AddrBytes(da) + rest;
      var n := if da.mode == ADDR_LONG then ADDR_LEN else 2;
      assert |AddrBytes(da)| == n;
      assert p[2..][n..] == rest;
    } else {
      assert DestBytes(da) + rest == rest;
    }
  }

  lemma ReadSrcOfEncoded(typ: Byte, ackReq: bool, da: Addr, sa: Addr, a: Addr, rest: seq<Byte>)
    requires typ < 8
    requires sa.mode != 1
    requires a.mode == sa.mode
    requires sa.mode != ADDR_NONE && PanIdCompressed(sa, da) ==> a.panId == sa.panId
    ensures
      var fc := FrameControl(typ, ackReq, da, sa);
      ReadSrc(SrcBytes(sa, da) + rest, fc, a).Some? &&
      SameOnWire(ReadSrc(SrcBytes(sa, da) + rest, fc, a).value, sa)
  {
    var fc := FrameControl(typ, ackReq, da, sa);
    FrameControlFields(typ, ackReq, da, sa);
    if sa.mode != ADDR_NONE {
      var q := SrcBytes(sa, da) + rest;
      var intra := PanIdCompressed(sa, da);
      var q1 := if !intra then q[2..] else q;
      if !intra {
        Le16RoundTrip(sa.panId);
      }
      assert q1 == AddrBytes(sa) + rest;
      if sa.mode == ADDR_SHORT {
        Le16RoundTrip(sa.shortAddr);
      } else {
        assert q1[..ADDR_LEN] == Reverse(sa.hwAddr);
        ReverseReverse(sa.hwAddr);
      }
    }
  }

  /**
   * The corrected parser reads back the source address header_create wrote,
   * for every header whose modes are not the reserved one, except when a
   * compressed source stands without a destination (then the intra-PAN bit
   * is set with no PAN on the wire, and the header is refused).
   */
  lemma {:induction false} HeaderParseFixedRoundTrip(typ: Byte, ackReq: bool, seqNo: Byte, da: Addr, sa: Addr,
                                                     payload: seq<Byte>, addr0: Addr)
    requires typ < 8
    requires da.mode != 1 && sa.mode != 1
    requires !(da.mode == ADDR_NONE && sa.mode != ADDR_NONE && PanIdCompressed(sa, da))
    ensures
      var r := HeaderParseFixed(EncodeHeader(typ, ackReq, seqNo, da, sa) + payload, addr0);
      r.Some? && SameOnWire(r.value, sa)
  {
    var h := EncodeHeader(typ, ackReq, seqNo, da, sa) + payload;
    var fc := FrameControl(typ, ackReq, da, sa);
    EncodedSplit(typ, ackReq, seqNo, da, sa, payload);
    FrameControlFields(typ, ackReq, da, sa);
    var a := addr0.(mode := FcSaMode(fc));
    var intra := sa.mode != ADDR_NONE && PanIdCompressed(sa, da);
    var a1 := if intra then a.(panId := da.panId) else a;
    SkipDestOfEncoded(typ, ackReq, da, sa, a, SrcBytes(sa, da) + payload);
    ReadSrcOfEncoded(typ, ackReq, da, sa, a1, payload);
  }
}
