/**
 * Monitor interfaces of net/mac802154/monitor.c: every received frame is
 * copied to each monitor bound to the device, and a monitor transmits raw
 * frames on whatever channel and page the phy is on.
 */
module Monitor {
  import opened Wrappers
  import opened Ieee802154
  import opened Netdev
  import opened DevSlave

  // ---------------------------------------------------------------------
  // Receive.
  // ---------------------------------------------------------------------

  /** The monitors among a device's interfaces, in list order. */
  function Monitors(slaves: seq<SubIf>): (r: seq<SubIf>)
    ensures |r| <= |slaves|
  {
    if slaves == [] then []
    else
      var last := slaves[|slaves| - 1];
      Monitors(slaves[..|slaves| - 1]) + (if last.ifType == DEV_MONITOR then [last] else [])
  }

  /** An interface is listed among the monitors exactly when it is a slave of type monitor. */
  lemma {:induction false} MonitorsIff(slaves: seq<SubIf>, s: SubIf)
    ensures s in Monitors(slaves) <==> s in slaves && s.ifType == DEV_MONITOR
  {
    if slaves != [] {
      var n := |slaves| - 1;
      MonitorsIff(slaves[..n], s);
      assert slaves == slaves[..n] + [slaves[n]];
    }
  }

  /** On a list without repeats, no monitor is listed twice. */
  lemma {:induction false} MonitorsDistinct(slaves: seq<SubIf>)
    requires Distinct(slaves)
    ensures Distinct(Monitors(slaves))
  {
    if slaves != [] {
      var n := |slaves| - 1;
      MonitorsDistinct(slaves[..n]);
      MonitorsIff(slaves[..n], slaves[n]);
    }
  }

  /** A buffer handed to a monitor: a copy of the frame, retagged for that monitor as PACKET_HOST. */
  ghost predicate CopyFor(c: SkBuff, skb: SkBuff, mon: SubIf)
    reads c, skb
  {
    c.data == skb.data && c.cb == skb.cb && c.dev == mon && c.pktType == PacketHost
  }

  /**
   * ieee802154_monitors_rx: one new clone per monitor, in list order, each
   * retagged for its monitor; the other interfaces get nothing and the
   * original buffer is left alone. Cloning is taken to succeed.
   */
  method MonitorsRx(hw: Device, skb: SkBuff) returns (copies: seq<SkBuff>)
    ensures |copies| == |Monitors(hw.slaves)|
    ensures forall i :: 0 <= i < |copies| ==> fresh(copies[i]) && CopyFor(copies[i], skb, Monitors(hw.slaves)[i])
  {
    copies := [];
    var i := 0;
    while i < |hw.slaves|
      invariant 0 <= i <= |hw.slaves|
      invariant |copies| == |Monitors(hw.slaves[..i])|
      invariant forall k :: 0 <= k < |copies| ==> fresh(copies[k]) && CopyFor(copies[k], skb, Monitors(hw.slaves[..i])[k])
    {
      var sdata := hw.slaves[i];
      assert hw.slaves[..i + 1][..i] == hw.slaves[..i];
      if sdata.ifType == DEV_MONITOR {
        var skb2 := new SkBuff.Clone(skb);
        skb2.dev := sdata;
        skb2.pktType := PacketHost;
        copies := copies + [skb2];
      }
      i := i + 1;
    }
    assert hw.slaves[..i] == hw.slaves;
  }

  /**
   * On a valid device each monitor gets exactly one copy: the copy at its
   * position in Monitors, and no other copy is addressed to it.
   */
  lemma OneCopyEach(hw: Device, skb: SkBuff, copies: seq<SkBuff>, mon: SubIf)
    requires hw.Valid()
    requires |copies| == |Monitors(hw.slaves)|
    requires forall i :: 0 <= i < |copies| ==> CopyFor(copies[i], skb, Monitors(hw.slaves)[i])
    requires mon in hw.slaves && mon.ifType == DEV_MONITOR
    ensures exists i :: 0 <= i < |copies| && copies[i].dev == mon
    ensures forall i, j :: 0 <= i < j < |copies| ==> copies[i].dev != copies[j].dev
  {
    MonitorsIff(hw.slaves, mon);
    MonitorsDistinct(hw.slaves);
    var i :| 0 <= i < |Monitors(hw.slaves)| && Monitors(hw.slaves)[i] == mon;
    assert copies[i].dev == mon;
  }

  // ---------------------------------------------------------------------
  // Transmit.
  // ---------------------------------------------------------------------

  /**
   * ieee802154_monitor_xmit: while the phy's channel is unset (0xFF) the
   * frame is accepted and dropped; otherwise the statistics count it and it
   * is handed to the transmit path on the phy's page and channel, whose
   * answer txRes is returned. The phy is on a page below 32 and a channel
   * below 27 whenever its channel is set.
   */
  method MonitorXmit(sdata: SubIf, skb: SkBuff, txRes: TxResult) returns (r: TxResult, sentOn: Option<(Byte, Byte)>)
    requires sdata.hw.currentChannel != CHAN_UNSET ==> sdata.hw.currentPage < 32 && sdata.hw.currentChannel < 27
    modifies sdata`txPackets, sdata`txBytes
    ensures sdata.hw.currentChannel == CHAN_UNSET ==>
      r == TxOk && sentOn == None && sdata.txPackets == old(sdata.txPackets) && sdata.txBytes == old(sdata.txBytes)
    ensures sdata.hw.currentChannel != CHAN_UNSET ==>
      && r == txRes && sentOn == Some((sdata.hw.currentPage, sdata.hw.currentChannel))
      && sdata.txPackets == old(sdata.txPackets) + 1
      && sdata.txBytes == old(sdata.txBytes) + |skb.data|
  {
    var chan := sdata.hw.currentChannel;
    var page := sdata.hw.currentPage;
    if chan == CHAN_UNSET {
      return TxOk, None;
    }
    sdata.txPackets := sdata.txPackets + 1;
    sdata.txBytes := sdata.txBytes + |skb.data|;
    r, sentOn := txRes, Some((page, chan));
  }
}
