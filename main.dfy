/**
 * The device and interface life cycle of net/mac802154/main.c: opening and
 * closing an interface (the open_count state machine that starts and stops
 * the radio), allocating and freeing the physical device, adding an
 * interface of either type to the device's list of slaves, deleting one,
 * and draining the list when the device is unregistered.
 *
 * Driver calls and allocations that may fail are parameters: startRes is
 * what the driver's start returns, allocOk whether an allocation succeeds,
 * registerRes what register_netdev returns.
 */
module MacMain {
  import opened Ieee802154
  import opened Netdev

  // ---------------------------------------------------------------------
  // Open and close.
  // ---------------------------------------------------------------------

  /**
   * ieee802154_slave_open: the first open starts the radio; if the driver's
   * start fails the count goes back and its error is returned. Every other
   * open only counts. A successful open starts the interface's queue.
   */
  method SlaveOpen(sdata: SubIf, startRes: int) returns (res: int)
    requires sdata.hw.Valid()
    modifies sdata.hw`openCount, sdata.hw`radio, sdata`queueRunning
    ensures sdata.hw.Valid()
    ensures res == (if old(sdata.hw.openCount) == 0 && startRes != 0 then startRes else 0)
    ensures sdata.hw.openCount == old(sdata.hw.openCount) + (if res == 0 then 1 else 0)
    ensures sdata.hw.radio == old(sdata.hw.radio) + (if old(sdata.hw.openCount) == 0 then [Start(startRes == 0)] else [])
    ensures sdata.queueRunning == (res == 0 || old(sdata.queueRunning))
  {
    var hw := sdata.hw;
    var prior := hw.openCount;
    hw.openCount := hw.openCount + 1;
    if prior == 0 {
      hw.radio := hw.radio + [Start(startRes == 0)];
      if startRes != 0 {
        hw.openCount := hw.openCount - 1;
        return startRes;
      }
    }
    sdata.queueRunning := true;
    res := 0;
  }

  /**
   * ieee802154_slave_close: clears the coordinator flag, stops the queue and
   * counts down; the last close stops the radio. The caller closes only an
   * open interface, so the count is positive.
   */
  method SlaveClose(sdata: SubIf) returns (res: int)
    requires sdata.hw.Valid() && sdata.hw.openCount > 0
    modifies sdata.hw`openCount, sdata.hw`radio, sdata`coord, sdata`queueRunning
    ensures sdata.hw.Valid()
    ensures res == 0 && !sdata.coord && !sdata.queueRunning
    ensures sdata.hw.openCount == old(sdata.hw.openCount) - 1
    ensures sdata.hw.radio == old(sdata.hw.radio) + (if sdata.hw.openCount == 0 then [Stop] else [])
  {
    sdata.coord := false;
    sdata.queueRunning := false;
    var hw := sdata.hw;
    hw.openCount := hw.openCount - 1;
    if hw.openCount == 0 {
      hw.radio := hw.radio + [Stop];
    }
    res := 0;
  }

  /**
   * An open that succeeds followed by a close leaves the count and whether
   * the radio runs as they were; the driver is called only when that
   * interface was the only one open.
   */
  method OpenThenClose(sdata: SubIf, startRes: int) returns (res: int)
    requires sdata.hw.Valid()
    modifies sdata.hw`openCount, sdata.hw`radio, sdata`coord, sdata`queueRunning
    ensures sdata.hw.Valid()
    ensures sdata.hw.openCount == old(sdata.hw.openCount)
    ensures RadioRunning(sdata.hw.radio) == RadioRunning(old(sdata.hw.radio))
    ensures old(sdata.hw.openCount) > 0 ==> sdata.hw.radio == old(sdata.hw.radio)
    ensures old(sdata.hw.openCount) == 0 ==>
      sdata.hw.radio == old(sdata.hw.radio) + (if startRes == 0 then [Start(true), Stop] else [Start(false)])
  {
    res := SlaveOpen(sdata, startRes);
    if res == 0 {
      var _ := SlaveClose(sdata);
    }
  }

  // ---------------------------------------------------------------------
  // The list of interfaces.
  // ---------------------------------------------------------------------

  /** The list with the interface x taken out, the others in their order. */
  function Without(s: seq<SubIf>, x: SubIf): (r: seq<SubIf>)
    ensures |r| <= |s|
  {
    if s == [] then [] else (if s[0] == x then [] else [s[0]]) + Without(s[1..], x)
  }

  /** An interface is left in the list exactly when it was there and is not the one removed. */
  lemma {:induction false} WithoutIff(s: seq<SubIf>, x: SubIf, y: SubIf)
    ensures y in Without(s, x) <==> y in s && y != x
  {
    if s != [] {
      WithoutIff(s[1..], x, y);
      assert s == [s[0]] + s[1..];
    }
  }

  /** In a list without repeats, removing x cuts exactly its one entry out. */
  lemma {:induction false} WithoutAt(s: seq<SubIf>, x: SubIf, i: nat)
    requires Distinct(s) && i < |s| && s[i] == x
    ensures Without(s, x) == s[..i] + s[i + 1..]
  {
    if i == 0 {
      WithoutAbsent(s[1..], x);
    } else {
      WithoutAt(s[1..], x, i - 1);
      assert s[1..][..i - 1] == s[1..i];
      assert s[1..][i..] == s[i + 1..];
      assert s[..i] == [s[0]] + s[1..i];
    }
  }

  /** Removing an interface that is not in the list changes nothing. */
  lemma {:induction false} WithoutAbsent(s: seq<SubIf>, x: SubIf)
    requires x !in s
    ensures Without(s, x) == s
  {
    if s != [] {
      WithoutAbsent(s[1..], x);
      assert s == [s[0]] + s[1..];
    }
  }

  /** Removing keeps a list free of repeats. */
  lemma {:induction false} WithoutDistinct(s: seq<SubIf>, x: SubIf)
    requires Distinct(s)
    ensures Distinct(Without(s, x))
  {
    if s != [] {
      WithoutDistinct(s[1..], x);
      WithoutIff(s[1..], x, s[0]);
    }
  }

  /** Removing the interface just appended gives the list back. */
  lemma {:induction false} AppendThenRemove(s: seq<SubIf>, x: SubIf)
    requires x !in s
    ensures Without(s + [x], x) == s
  {
    if s != [] {
      AppendThenRemove(s[1..], x);
      assert (s + [x])[1..] == s[1..] + [x];
      assert s == [s[0]] + s[1..];
    }
  }

  // ---------------------------------------------------------------------
  // The physical device.
  // ---------------------------------------------------------------------

  /**
   * ieee802154_alloc_device: the driver must supply xmit, ed, start and
   * stop; the new device has an empty list of interfaces and nothing
   * running. allocOk stands for wpan_phy_alloc succeeding.
   */
  method AllocDevice(ops: Ops, omitCksum: bool, aack: bool, channelsSupported: seq<bv32>,
                     currentChannel: Byte, currentPage: Byte, allocOk: bool) returns (hw: Device?)
    requires ops.xmit && ops.ed && ops.start && ops.stop
    requires |channelsSupported| == 32
    ensures !allocOk ==> hw == null
    ensures allocOk ==> hw != null && fresh(hw) && hw.Valid() && hw.ops == ops
    ensures allocOk ==> hw.slaves == [] && hw.openCount == 0 && hw.work == [] && !hw.freed
  {
    if !allocOk {
      return null;
    }
    hw := new Device(ops, omitCksum, aack, channelsSupported, currentChannel, currentPage);
  }

  /** ieee802154_free_device: only a device without interfaces may be freed. */
  method FreeDevice(hw: Device)
    requires hw.slaves == []
    modifies hw`freed
    ensures hw.freed
  {
    hw.freed := true;
  }

  /**
   * The drain loop of ieee802154_unregister_device (and of
   * ieee802154_drop_slaves): each interface is unlinked in list order until
   * the list is empty. removed is the sequence of interfaces unregistered.
   */
  method DropSlaves(hw: Device) returns (removed: seq<SubIf>)
    modifies hw`slaves
    ensures hw.slaves == [] && removed == old(hw.slaves)
  {
    removed := [];
    while hw.slaves != []
      invariant removed + hw.slaves == old(hw.slaves)
      decreases |hw.slaves|
    {
      var sdata := hw.slaves[0];
      hw.slaves := hw.slaves[1..];
      removed := removed + [sdata];
    }
  }

  /**
   * ieee802154_unregister_device: every queued work item runs to completion,
   * then every interface is unregistered, leaving a valid device with no
   * interfaces.
   */
  method UnregisterDevice(hw: Device) returns (removed: seq<SubIf>)
    requires hw.Valid()
    modifies hw`slaves, hw`work
    ensures hw.Valid()
    ensures hw.slaves == [] && hw.work == []
    ensures removed == old(hw.slaves)
  {
    hw.work := [];
    removed := DropSlaves(hw);
  }

  /** After unregistering, the device may be freed. */
  method UnregisterThenFree(hw: Device) returns (removed: seq<SubIf>)
    requires hw.Valid()
    modifies hw`slaves, hw`work, hw`freed
    ensures hw.freed && hw.slaves == [] && removed == old(hw.slaves)
  {
    removed := UnregisterDevice(hw);
    FreeDevice(hw);
  }

  // ---------------------------------------------------------------------
  // Adding and deleting interfaces.
  // ---------------------------------------------------------------------

  /**
   * ieee802154_netdev_register: when register_netdev succeeds the interface
   * is appended at the tail of the list; its error is returned otherwise.
   */
  method NetdevRegister(phy: Device, sdata: SubIf, registerRes: int) returns (err: int)
    requires phy.Valid() && sdata.hw == phy && sdata !in phy.slaves
    modifies phy`slaves
    ensures phy.Valid()
    ensures err == (if registerRes < 0 then registerRes else 0)
    ensures phy.slaves == old(phy.slaves) + (if err == 0 then [sdata] else [])
  {
    if registerRes < 0 {
      return registerRes;
    }
    phy.slaves := phy.slaves + [sdata];
    err := 0;
  }

  /**
   * ieee802154_add_iface: a WPAN or a monitor interface is allocated with
   * its own setup and registered; any other type is refused with -EINVAL
   * before anything is allocated, a failed allocation gives -ENOMEM and a
   * failed registration its own error. Exactly on success there is a new
   * interface, at the tail of the list.
   */
  method AddIface(phy: Device, typ: int, allocOk: bool, registerRes: int,
                  devAddr: HwAddr, dsn0: Byte, bsn0: Byte) returns (err: int, dev: SubIf?)
    requires phy.Valid()
    modifies phy`slaves
    ensures phy.Valid()
    ensures typ != DEV_WPAN && typ != DEV_MONITOR ==> err == -EINVAL
    ensures (typ == DEV_WPAN || typ == DEV_MONITOR) && !allocOk ==> err == -ENOMEM
    ensures (typ == DEV_WPAN || typ == DEV_MONITOR) && allocOk ==> err == (if registerRes < 0 then registerRes else 0)
    ensures dev == null <==> err != 0
    ensures dev == null ==> phy.slaves == old(phy.slaves)
    ensures dev != null ==> fresh(dev) && dev.hw == phy && dev.ifType == typ && phy.slaves == old(phy.slaves) + [dev]
    ensures dev != null ==> dev.arphrd == if typ == DEV_MONITOR then ARPHRD_IEEE802154_MONITOR else ARPHRD_IEEE802154
  {
    if typ != DEV_WPAN && typ != DEV_MONITOR {
      return -EINVAL, null;
    }
    if !allocOk {
      return -ENOMEM, null;
    }
    var sdata := new SubIf(phy, typ, devAddr, dsn0, bsn0);
    err := NetdevRegister(phy, sdata, registerRes);
    if err != 0 {
      return err, null;
    }
    dev := sdata;
  }

  /**
   * Unlinking an interface from its device's list: exactly that entry goes,
   * the others keep their order. The corrected ieee802154_del_iface, which
   * only checks that the interface belongs to the given phy.
   */
  method DelIfaceFixed(phy: Device, sdata: SubIf)
    requires phy.Valid() && sdata.hw == phy && sdata in phy.slaves
    modifies phy`slaves
    ensures phy.Valid()
    ensures phy.slaves == Without(old(phy.slaves), sdata)
    ensures sdata !in phy.slaves && |phy.slaves| == |old(phy.slaves)| - 1
    ensures exists i :: (0 <= i < |old(phy.slaves)| && old(phy.slaves)[i] == sdata
                         && phy.slaves == old(phy.slaves)[..i] + old(phy.slaves)[i + 1..])
  {
    var i :| 0 <= i < |phy.slaves| && phy.slaves[i] == sdata;
    WithoutAt(phy.slaves, sdata, i);
    WithoutDistinct(phy.slaves, sdata);
    WithoutIff(phy.slaves, sdata, sdata);
    phy.slaves := Without(phy.slaves, sdata);
    forall j | 0 <= j < |phy.slaves|
      ensures phy.slaves[j].hw == phy
    {
      WithoutIff(old(phy.slaves), sdata, phy.slaves[j]);
    }
  }

  /**
   * ieee802154_del_iface as written: besides the phy check it refuses any
   * interface whose type is not ARPHRD_IEEE802154, monitors included.
   */
  method DelIface(phy: Device, sdata: SubIf)
    requires phy.Valid() && sdata.hw == phy && sdata in phy.slaves
    requires sdata.arphrd == ARPHRD_IEEE802154
    modifies phy`slaves
    ensures phy.Valid()
    ensures phy.slaves == Without(old(phy.slaves), sdata)
    ensures sdata !in phy.slaves && |phy.slaves| == |old(phy.slaves)| - 1
  {
    DelIfaceFixed(phy, sdata);
  }

  /**
   * A monitor that ieee802154_add_iface registers sits in the list with a
   * type DelIface refuses: as written it can be removed only by
   * unregistering the whole device.
   */
  method MonitorOutsideDelIface(phy: Device, devAddr: HwAddr) returns (dev: SubIf)
    requires phy.Valid()
    modifies phy`slaves
    ensures dev in phy.slaves && dev.hw == phy
    ensures dev.arphrd != ARPHRD_IEEE802154
  {
    var err, d := AddIface(phy, DEV_MONITOR, true, 0, devAddr, 0, 0);
    dev := d;
  }

  /** With the corrected deletion, adding a monitor and deleting it gives the list back. */
  method AddThenDelMonitor(phy: Device, devAddr: HwAddr) returns (dev: SubIf)
    requires phy.Valid()
    modifies phy`slaves
    ensures phy.Valid()
    ensures phy.slaves == old(phy.slaves)
    ensures dev.ifType == DEV_MONITOR && dev !in phy.slaves
  {
    var err, d := AddIface(phy, DEV_MONITOR, true, 0, devAddr, 0, 0);
    dev := d;
    DelIfaceFixed(phy, dev);
    AppendThenRemove(old(phy.slaves), dev);
  }
}
