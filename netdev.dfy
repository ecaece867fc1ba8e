/**
 * The objects the MAC sublayer updates in place: a socket buffer, a logical
 * interface (struct ieee802154_sub_if_data together with its net_device)
 * and the physical device it is bound to (struct ieee802154_priv with its
 * wpan_phy). Work items and driver calls are recorded in logs instead of run.
 */
module Netdev {
  import opened Ieee802154

  /** Interface types of the netlink interface. */
  const DEV_WPAN: int := 0
  const DEV_MONITOR: int := 1

  /** net_device->type of the two kinds of interface. */
  const ARPHRD_IEEE802154: int := 804
  const ARPHRD_IEEE802154_MONITOR: int := 805

  const CHAN_UNSET: Byte := 0xFF

  /** The bit the address-filter work item reports as changed. */
  datatype FiltChange = SaddrChanged | IeeeAddrChanged | PanIdChanged | PancChanged

  /** hw->hw.hw_filt: the hardware address filter as last handed to the driver. */
  datatype HwFilt = HwFilt(panId: U16, shortAddr: U16, ieeeAddr: HwAddr, panCoord: bool)

  /** A work item queued on the device's workqueue. */
  datatype Work =
    | HwAddrFiltWork(dev: SubIf, changed: FiltChange)
    | ChanWork(dev: SubIf)
    | XmitWork(skb: SkBuff, page: Byte, chan: Byte)

  /** A call of the driver's start or stop operation; start may fail. */
  datatype RadioOp = Start(ok: bool) | Stop

  /** The radio is running when its last operation was a successful start. */
  predicate RadioRunning(log: seq<RadioOp>) {
    |log| > 0 && log[|log| - 1] == Start(true)
  }

  /** Which entries of struct ieee802154_ops a driver fills in. */
  datatype Ops = Ops(xmit: bool, ed: bool, start: bool, stop: bool, setChannel: bool, setHwAddrFilt: bool)

  /** struct sk_buff, reduced to what the MAC sublayer reads and writes. */
  class SkBuff {
    var data: seq<Byte>
    var cb: MacCb
    var pktType: PktType
    var dev: SubIf?

    constructor (data: seq<Byte>, cb: MacCb, pktType: PktType)
      ensures this.data == data && this.cb == cb && this.pktType == pktType && dev == null
    {
      this.data := data;
      this.cb := cb;
      this.pktType := pktType;
      this.dev := null;
    }

    /** skb_clone: a new buffer with the same bytes, control block, tag and device. */
    constructor Clone(from: SkBuff)
      ensures data == from.data && cb == from.cb && pktType == from.pktType && dev == from.dev
    {
      data := from.data;
      cb := from.cb;
      pktType := from.pktType;
      dev := from.dev;
    }
  }

  /** struct ieee802154_priv: the physical device and the interfaces bound to it. */
  class Device {
    var slaves: seq<SubIf>
    var openCount: int
    var radio: seq<RadioOp>
    var hwFilt: HwFilt
    var work: seq<Work>
    var currentChannel: Byte
    var currentPage: Byte
    var freed: bool
    const ops: Ops
    const omitCksum: bool
    const aack: bool
    const channelsSupported: seq<bv32>

    /**
     * Interfaces are bound to this device and listed once each; the open
     * count never goes negative and is positive exactly while the radio runs.
     */
    ghost predicate Valid()
      reads this
    {
      && |channelsSupported| == 32
      && openCount >= 0
      && (openCount > 0 <==> RadioRunning(radio))
      && (forall i :: 0 <= i < |slaves| ==> slaves[i].hw == this)
      && Distinct(slaves)
    }

    /** The state ieee802154_alloc_device leaves: the ops table, an empty list, nothing running. */
    constructor (ops: Ops, omitCksum: bool, aack: bool, channelsSupported: seq<bv32>,
                 currentChannel: Byte, currentPage: Byte)
      requires |channelsSupported| == 32
      ensures Valid()
      ensures this.ops == ops && this.omitCksum == omitCksum && this.aack == aack
      ensures this.channelsSupported == channelsSupported
      ensures this.currentChannel == currentChannel && this.currentPage == currentPage
      ensures slaves == [] && openCount == 0 && radio == [] && work == [] && !freed
      ensures hwFilt == HwFilt(0, 0, [0, 0, 0, 0, 0, 0, 0, 0], false)
    {
      this.ops := ops;
      this.omitCksum := omitCksum;
      this.aack := aack;
      this.channelsSupported := channelsSupported;
      this.currentChannel := currentChannel;
      this.currentPage := currentPage;
      slaves := [];
      openCount := 0;
      radio := [];
      work := [];
      freed := false;
      hwFilt := HwFilt(0, 0, [0, 0, 0, 0, 0, 0, 0, 0], false);
    }
  }

  /** No interface appears twice in a list of interfaces. */
  predicate Distinct(s: seq<SubIf>) {
    forall j, k :: 0 <= j < k < |s| ==> s[j] != s[k]
  }

  /** struct ieee802154_sub_if_data with the fields of its net_device the MAC reads. */
  class SubIf {
    const hw: Device
    const ifType: int
    const arphrd: int
    var devAddr: HwAddr
    var coord: bool
    var panId: U16
    var shortAddr: U16
    var chan: Byte
    var page: Byte
    var dsn: Byte
    var bsn: Byte
    var queueRunning: bool
    var txPackets: nat
    var txBytes: nat

    /**
     * A new interface as its setup leaves it. A WPAN interface gets the
     * values of ieee802154_netdev_register: channel unset, page 0, random
     * sequence numbers (given here), broadcast PAN and short address. A
     * monitor gets what ieee802154_monitor_setup sets (its type, channel
     * unset, page 0) on a zeroed private area.
     */
    constructor (hw: Device, ifType: int, devAddr: HwAddr, dsn0: Byte, bsn0: Byte)
      requires ifType == DEV_WPAN || ifType == DEV_MONITOR
      ensures this.hw == hw && this.ifType == ifType && this.devAddr == devAddr
      ensures arphrd == if ifType == DEV_MONITOR then ARPHRD_IEEE802154_MONITOR else ARPHRD_IEEE802154
      ensures chan == CHAN_UNSET && page == 0
      ensures ifType == DEV_WPAN ==>
        panId == PANID_BROADCAST && shortAddr == ADDR_BROADCAST && dsn == dsn0 && bsn == bsn0
      ensures ifType == DEV_MONITOR ==> panId == 0 && shortAddr == 0 && dsn == 0 && bsn == 0
      ensures !coord && !queueRunning && txPackets == 0 && txBytes == 0
    {
      this.hw := hw;
      this.ifType := ifType;
      this.devAddr := devAddr;
      coord := false;
      queueRunning := false;
      txPackets, txBytes := 0, 0;
      chan := CHAN_UNSET;
      page := 0;
      if ifType == DEV_WPAN {
        arphrd := ARPHRD_IEEE802154;
        panId := PANID_BROADCAST;
        shortAddr := ADDR_BROADCAST;
        dsn, bsn := dsn0, bsn0;
      } else {
        arphrd := ARPHRD_IEEE802154_MONITOR;
        panId, shortAddr := 0, 0;
        dsn, bsn := 0, 0;
      }
    }
  }
}
