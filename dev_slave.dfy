/**
 * The transmit entry point of a WPAN interface and its address ioctls:
 * ieee802154_net_xmit (channel checks, FCS, statistics, hand-off to the
 * device's workqueue) and the SIOCGIFADDR / SIOCSIFADDR cases of
 * ieee802154_slave_ioctl.
 */
module DevSlave {
  import opened Wrappers
  import opened Ieee802154
  import opened Crc
  import opened Netdev
  import opened DevRx

  // ---------------------------------------------------------------------
  // ieee802154_net_xmit
  // ---------------------------------------------------------------------

  /** netdev_tx_t: the frame was taken, or the stack is to retry it later. */
  datatype TxResult = TxOk | TxBusy

  /** What goes on the air for a frame m: m and, unless the hardware adds it, its FCS. */
  function TxFrame(omitCksum: bool, m: seq<Byte>): seq<Byte> {
    if omitCksum then m else m + Fcs(m)
  }

  /** The receive check accepts exactly what transmit puts on the air, and gives m back. */
  lemma TxRxRoundTrip(omitCksum: bool, m: seq<Byte>)
    ensures RxAccept(omitCksum, TxFrame(omitCksum, m)) == Some(m)
  {
    if !omitCksum {
      RxAcceptIff(m + Fcs(m), m);
    }
  }

  /** Channel chan of page page is in the phy's supported-channel mask. */
  predicate ChannelSupported(masks: seq<bv32>, page: Byte, chan: Byte)
    requires |masks| == 32 && page < 32 && chan < 27
  {
    masks[page] & ((1 as bv32) << chan) != 0
  }

  /** How a call of net_xmit ends. */
  datatype XmitPath =
    | NotSent   // no channel set, or the channel is not supported: nothing happens
    | Freed     // the headroom could not be made writable: the frame is freed
    | Busy      // no work item could be allocated: TX_BUSY
    | Queued    // the frame is queued for the driver

  /** The path net_xmit takes, as written: the FCS and statistics come before both failures. */
  function XmitPathOf(sent: bool, cowOk: bool, allocOk: bool): XmitPath {
    if !sent then NotSent else if !cowOk then Freed else if !allocOk then Busy else Queued
  }

  /** The frame is handed to the device when its interface has a supported channel. */
  predicate Sendable(masks: seq<bv32>, page: Byte, chan: Byte)
    requires |masks| == 32 && (chan != CHAN_UNSET ==> page < 32 && chan < 27)
  {
    chan != CHAN_UNSET && ChannelSupported(masks, page, chan)
  }

  /** The FCS append (unless the hardware adds it) and the statistics of net_xmit. */
  method AppendFcsAndCount(sdata: SubIf, skb: SkBuff)
    modifies skb`data, sdata`txPackets, sdata`txBytes
    ensures skb.data == TxFrame(sdata.hw.omitCksum, old(skb.data))
    ensures sdata.txPackets == old(sdata.txPackets) + 1
    ensures sdata.txBytes == old(sdata.txBytes) + |skb.data|
  {
    if !sdata.hw.omitCksum {
      var crc := CrcCcitt(0, skb.data);
      skb.data := skb.data + [Lo(crc), Hi(crc)];
    }
    sdata.txPackets := sdata.txPackets + 1;
    sdata.txBytes := sdata.txBytes + |skb.data|;
  }

  /**
   * ieee802154_net_xmit for interface sdata, as written. An interface with
   * no channel set, or whose channel the phy does not support, takes the
   * frame and does nothing. Otherwise the FCS is appended (unless the
   * hardware adds it) and the statistics are counted, and then: when the
   * headroom cannot be made writable (cowOk false) the frame is freed;
   * when the work item cannot be allocated (allocOk false) TX_BUSY is
   * returned; else a work item carrying the frame, page and channel is
   * queued. The BUG_ONs are preconditions: page below 32, channel below 27.
   */
  method NetXmit(sdata: SubIf, skb: SkBuff, cowOk: bool, allocOk: bool) returns (r: TxResult)
    requires |sdata.hw.channelsSupported| == 32
    requires sdata.chan != CHAN_UNSET ==> sdata.page < 32 && sdata.chan < 27
    modifies skb`data, sdata`txPackets, sdata`txBytes, sdata.hw`work
    ensures var path := XmitPathOf(Sendable(sdata.hw.channelsSupported, sdata.page, sdata.chan), cowOk, allocOk);
      && r == (if path == Busy then TxBusy else TxOk)
      && skb.data == (if path == NotSent then old(skb.data) else TxFrame(sdata.hw.omitCksum, old(skb.data)))
      && sdata.txPackets == old(sdata.txPackets) + (if path == NotSent then 0 else 1)
      && sdata.txBytes == old(sdata.txBytes) + (if path == NotSent then 0 else |skb.data|)
      && sdata.hw.work == old(sdata.hw.work) + (if path == Queued then [XmitWork(skb, sdata.page, sdata.chan)] else [])
  {
    if sdata.chan == CHAN_UNSET {
      return TxOk;
    }
    if !ChannelSupported(sdata.hw.channelsSupported, sdata.page, sdata.chan) {
      return TxOk;
    }
    AppendFcsAndCount(sdata, skb);
    if !cowOk {
      return TxOk;
    }
    if !allocOk {
      return TxBusy;
    }
    sdata.hw.work := sdata.hw.work + [XmitWork(skb, sdata.page, sdata.chan)];
    r := TxOk;
  }

  /**
   * The FCS of a frame that already ends in its own FCS is zero: the CRC
   * register is back at 0 after it.
   */
  lemma FcsOfFramed(m: seq<Byte>)
    ensures Fcs(m + Fcs(m)) == [0, 0]
  {
    var f := Fcs(m);
    assert f == [f[0], f[1]];
    FcsCheckIff(m, f[0], f[1]);
  }

  /**
   * What the as-written order does to a frame the stack retries after
   * TX_BUSY: the retry appends a second FCS (two zero bytes, the CRC of a
   * frame that already ends in its FCS), the receiver's check still passes,
   * and the receiver is handed m with the first FCS as if it were payload.
   * The frame is also counted twice in the statistics.
   */
  lemma BusyRetryDoublesFcs(m: seq<Byte>)
    ensures TxFrame(false, TxFrame(false, m)) == m + Fcs(m) + [0, 0]
    ensures RxAccept(false, TxFrame(false, TxFrame(false, m))) == Some(m + Fcs(m))
    ensures RxAccept(false, TxFrame(false, TxFrame(false, m))) != Some(m)
  {
    FcsOfFramed(m);
    TxRxRoundTrip(false, m + Fcs(m));
    assert |m + Fcs(m)| != |m|;
  }

  /**
   * The stack's retry of a frame after TX_BUSY, on the as-written order:
   * the first attempt fails to allocate its work item, the second succeeds.
   * The queued frame carries two FCS fields and was counted twice.
   */
  method BusyThenRetry(sdata: SubIf, skb: SkBuff)
    requires |sdata.hw.channelsSupported| == 32 && !sdata.hw.omitCksum
    requires sdata.chan != CHAN_UNSET && sdata.page < 32 && sdata.chan < 27
    requires ChannelSupported(sdata.hw.channelsSupported, sdata.page, sdata.chan)
    modifies skb`data, sdata`txPackets, sdata`txBytes, sdata.hw`work
    ensures skb.data == old(skb.data) + Fcs(old(skb.data)) + [0, 0]
    ensures RxAccept(false, skb.data) == Some(old(skb.data) + Fcs(old(skb.data)))
    ensures sdata.txPackets == old(sdata.txPackets) + 2
    ensures sdata.hw.work == old(sdata.hw.work) + [XmitWork(skb, sdata.page, sdata.chan)]
  {
    var r1 := NetXmit(sdata, skb, true, false);
    var r2 := NetXmit(sdata, skb, true, true);
    BusyRetryDoublesFcs(old(skb.data));
  }

  /** The path of the corrected order: the allocation is tried before the frame is touched. */
  function XmitPathFixed(sent: bool, cowOk: bool, allocOk: bool): XmitPath {
    if !sent then NotSent else if !allocOk then Busy else if !cowOk then Freed else Queued
  }

  /**
   * ieee802154_net_xmit with the work item allocated before the frame is
   * touched: TX_BUSY leaves the frame, the statistics and the queue as they
   * were, so a retry is harmless.
   */
  method NetXmitFixed(sdata: SubIf, skb: SkBuff, cowOk: bool, allocOk: bool) returns (r: TxResult)
    requires |sdata.hw.channelsSupported| == 32
    requires sdata.chan != CHAN_UNSET ==> sdata.page < 32 && sdata.chan < 27
    modifies skb`data, sdata`txPackets, sdata`txBytes, sdata.hw`work
    ensures var path := XmitPathFixed(Sendable(sdata.hw.channelsSupported, sdata.page, sdata.chan), cowOk, allocOk);
      var touched := path == Freed || path == Queued;
      && r == (if path == Busy then TxBusy else TxOk)
      && skb.data == (if touched then TxFrame(sdata.hw.omitCksum, old(skb.data)) else old(skb.data))
      && sdata.txPackets == old(sdata.txPackets) + (if touched then 1 else 0)
      && sdata.txBytes == old(sdata.txBytes) + (if touched then |skb.data| else 0)
      && sdata.hw.work == old(sdata.hw.work) + (if path == Queued then [XmitWork(skb, sdata.page, sdata.chan)] else [])
  {
    if sdata.chan == CHAN_UNSET {
      return TxOk;
    }
    if !ChannelSupported(sdata.hw.channelsSupported, sdata.page, sdata.chan) {
      return TxOk;
    }
    if !allocOk {
      return TxBusy;
    }
    AppendFcsAndCount(sdata, skb);
    if !cowOk {
      return TxOk;
    }
    sdata.hw.work := sdata.hw.work + [XmitWork(skb, sdata.page, sdata.chan)];
    r := TxOk;
  }

  /** The same retry on the corrected order: one FCS, counted once, and the receiver gets m back. */
  method FixedBusyThenRetry(sdata: SubIf, skb: SkBuff)
    requires |sdata.hw.channelsSupported| == 32
    requires sdata.chan != CHAN_UNSET && sdata.page < 32 && sdata.chan < 27
    requires ChannelSupported(sdata.hw.channelsSupported, sdata.page, sdata.chan)
    modifies skb`data, sdata`txPackets, sdata`txBytes, sdata.hw`work
    ensures skb.data == TxFrame(sdata.hw.omitCksum, old(skb.data))
    ensures RxAccept(sdata.hw.omitCksum, skb.data) == Some(old(skb.data))
    ensures sdata.txPackets == old(sdata.txPackets) + 1
    ensures sdata.hw.work == old(sdata.hw.work) + [XmitWork(skb, sdata.page, sdata.chan)]
  {
    var r1 := NetXmitFixed(sdata, skb, true, false);
    var r2 := NetXmitFixed(sdata, skb, true, true);
    TxRxRoundTrip(sdata.hw.omitCksum, old(skb.data));
  }

  // ---------------------------------------------------------------------
  // ieee802154_slave_ioctl
  // ---------------------------------------------------------------------

  /** The address family of struct sockaddr_ieee802154 (AF_IEEE802154 in the Linux headers). */
  const AF_IEEE802154: int := 36

  /** struct sockaddr_ieee802154: a family and an address record. */
  datatype SockAddr = SockAddr(family: int, addr: Addr)

  /** The ioctl commands the handler knows; any other falls through. */
  datatype IoctlCmd = GetIfAddr | SetIfAddr | OtherIoctl(cmd: int)

  /**
   * SIOCGIFADDR on an interface with PAN panId and short address shortAddr:
   * -EADDRNOTAVAIL while either is the broadcast value; otherwise sa with
   * the family, the mode SHORT, the PAN and the short address filled in.
   */
  function GetIfAddrResult(panId: U16, shortAddr: U16, sa: SockAddr): (int, SockAddr) {
    if panId == PANID_BROADCAST || shortAddr == ADDR_BROADCAST then (-EADDRNOTAVAIL, sa)
    else (0, SockAddr(AF_IEEE802154, sa.addr.(mode := ADDR_SHORT, panId := panId, shortAddr := shortAddr)))
  }

  /**
   * SIOCSIFADDR accepts an IEEE 802.15.4 short address in a proper PAN, and
   * neither the broadcast nor the undefined short address.
   */
  predicate SetIfAddrValid(sa: SockAddr) {
    && sa.family == AF_IEEE802154
    && sa.addr.mode == ADDR_SHORT
    && sa.addr.panId != PANID_BROADCAST
    && sa.addr.shortAddr != ADDR_BROADCAST
    && sa.addr.shortAddr != ADDR_UNDEF
  }

  /**
   * ieee802154_slave_ioctl: reads or validates and stores the interface's
   * PAN and short address; any other command gives -ENOIOCTLCMD and
   * changes nothing.
   */
  method SlaveIoctl(sdata: SubIf, cmd: IoctlCmd, sa: SockAddr) returns (err: int, out: SockAddr)
    modifies sdata`panId, sdata`shortAddr
    ensures cmd.GetIfAddr? ==> (err, out) == GetIfAddrResult(old(sdata.panId), old(sdata.shortAddr), sa)
    ensures cmd.SetIfAddr? && SetIfAddrValid(sa) ==>
      err == 0 && sdata.panId == sa.addr.panId && sdata.shortAddr == sa.addr.shortAddr
    ensures cmd.SetIfAddr? && !SetIfAddrValid(sa) ==> err == -EINVAL
    ensures cmd.OtherIoctl? ==> err == -ENOIOCTLCMD
    ensures !(cmd.SetIfAddr? && SetIfAddrValid(sa)) ==>
      sdata.panId == old(sdata.panId) && sdata.shortAddr == old(sdata.shortAddr)
    ensures !cmd.GetIfAddr? ==> out == sa
  {
    out := sa;
    match cmd
    case GetIfAddr =>
      err, out := GetIfAddrResult(sdata.panId, sdata.shortAddr, sa).0, GetIfAddrResult(sdata.panId, sdata.shortAddr, sa).1;
    case SetIfAddr =>
      if sa.family != AF_IEEE802154 || sa.addr.mode != ADDR_SHORT || sa.addr.panId == PANID_BROADCAST
         || sa.addr.shortAddr == ADDR_BROADCAST || sa.addr.shortAddr == ADDR_UNDEF {
        err := -EINVAL;
      } else {
        sdata.panId := sa.addr.panId;
        sdata.shortAddr := sa.addr.shortAddr;
        err := 0;
      }
    case OtherIoctl(_) =>
      err := -ENOIOCTLCMD;
  }

  /** SIOCGIFADDR succeeds exactly when neither the PAN nor the short address is the broadcast value. */
  lemma GetIfAddrIff(panId: U16, shortAddr: U16, sa: SockAddr)
    ensures GetIfAddrResult(panId, shortAddr, sa).0 == 0 <==> panId != PANID_BROADCAST && shortAddr != ADDR_BROADCAST
    ensures GetIfAddrResult(panId, shortAddr, sa).0 != 0 ==> GetIfAddrResult(panId, shortAddr, sa).0 == -EADDRNOTAVAIL
  {
  }

  /** Set then get: an address SIOCSIFADDR accepts is what SIOCGIFADDR reports afterwards. */
  lemma SetThenGet(sa: SockAddr, buf: SockAddr)
    requires SetIfAddrValid(sa)
    ensures var (err, out) := GetIfAddrResult(sa.addr.panId, sa.addr.shortAddr, buf);
      err == 0 && out.family == sa.family && out.addr.mode == sa.addr.mode
      && out.addr.panId == sa.addr.panId && out.addr.shortAddr == sa.addr.shortAddr
  {
  }

  /**
   * Get then set: what SIOCGIFADDR reports can be stored back, except the
   * undefined short address 0xFFFE, which get reports and set refuses.
   */
  lemma GetThenSet(panId: U16, shortAddr: U16, buf: SockAddr)
    requires GetIfAddrResult(panId, shortAddr, buf).0 == 0
    ensures SetIfAddrValid(GetIfAddrResult(panId, shortAddr, buf).1) <==> shortAddr != ADDR_UNDEF
  {
  }

  /** The method and the two lemmas together: a valid set followed by a get reports the stored address. */
  method SetThenGetIoctl(sdata: SubIf, sa: SockAddr, buf: SockAddr) returns (out: SockAddr)
    requires SetIfAddrValid(sa)
    modifies sdata`panId, sdata`shortAddr
    ensures out.family == AF_IEEE802154 && out.addr.mode == ADDR_SHORT
    ensures out.addr.panId == sa.addr.panId && out.addr.shortAddr == sa.addr.shortAddr
  {
    var err1, _ := SlaveIoctl(sdata, SetIfAddr, sa);
    var err2;
    err2, out := SlaveIoctl(sdata, GetIfAddr, buf);
    SetThenGet(sa, buf);
  }
}
