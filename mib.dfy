/**
 * The interface MIB of net/mac802154/mib.c: the data and beacon sequence
 * number counters, and the setters of the PAN, short address, extended
 * address, coordinator flag, channel and page. The address setters keep a
 * cache of what the hardware address filter was last told (hw_filt) and
 * queue a notification work item only when the cached value changes.
 */
module Mib {
  import opened Ieee802154
  import opened Netdev

  // ---------------------------------------------------------------------
  // Sequence numbers.
  // ---------------------------------------------------------------------

  /** ieee802154_dev_get_dsn: the current data sequence number, then the counter moves on modulo 256. */
  method GetDsn(sdata: SubIf) returns (r: Byte)
    requires sdata.arphrd == ARPHRD_IEEE802154
    modifies sdata`dsn
    ensures r == old(sdata.dsn) && sdata.dsn == old(sdata.dsn) + 1
  {
    r := sdata.dsn;
    sdata.dsn := sdata.dsn + 1;
  }

  /** ieee802154_dev_get_bsn: the same for the beacon sequence number. */
  method GetBsn(sdata: SubIf) returns (r: Byte)
    requires sdata.arphrd == ARPHRD_IEEE802154
    modifies sdata`bsn
    ensures r == old(sdata.bsn) && sdata.bsn == old(sdata.bsn) + 1
  {
    r := sdata.bsn;
    sdata.bsn := sdata.bsn + 1;
  }

  /** The numbers k successive calls of GetDsn (or GetBsn) return, starting from a counter at start. */
  function Issued(start: Byte, k: nat): (r: seq<Byte>)
    ensures |r| == k
    decreases k
  {
    if k == 0 then [] else [start] + Issued(start + 1, k - 1)
  }

  /** i steps of the 8-bit counter from 0: i modulo 256, counted in the counter's own arithmetic. */
  function Steps(i: nat): Byte {
    if i == 0 then 0 else Steps(i - 1) + 1
  }

  /** The i-th number issued is the start advanced by i steps. */
  lemma {:induction false} IssuedAt(start: Byte, k: nat, i: nat)
    requires i < k
    ensures Issued(start, k)[i] == start + Steps(i)
    decreases k
  {
    if i > 0 {
      IssuedAt(start + 1, k - 1, i - 1);
    }
  }

  /** Below 256, i steps are the number i itself, so different step counts give different values. */
  lemma {:induction false} StepsBelowWrap(i: nat)
    requires i < 256
    ensures Steps(i) as int == i
  {
    if i > 0 {
      StepsBelowWrap(i - 1);
      NoWrap(Steps(i - 1));
    }
  }

  lemma NoWrap(x: Byte)
    requires x as int < 255
    ensures (x + 1) as int == x as int + 1
  {
    assert x != 255;
  }

  /** 256 steps bring the counter back to where it started. */
  lemma StepsWrap()
    ensures Steps(256) == 0
  {
    StepsBelowWrap(255);
    assert Steps(255) == 255;
  }

  /**
   * Successive calls hand out pairwise different numbers exactly as long as
   * there are at most 256 of them; the 257th repeats the first.
   */
  lemma IssuedDistinctIff(start: Byte, k: nat)
    ensures (forall i, j :: 0 <= i < j < k ==> Issued(start, k)[i] != Issued(start, k)[j]) <==> k <= 256
    ensures k > 256 ==> Issued(start, k)[256] == Issued(start, k)[0]
  {
    if k > 256 {
      IssuedAt(start, k, 0);
      IssuedAt(start, k, 256);
      StepsWrap();
    } else {
      forall i, j | 0 <= i < j < k
        ensures Issued(start, k)[i] != Issued(start, k)[j]
      {
        IssuedAt(start, k, i);
        IssuedAt(start, k, j);
        StepsBelowWrap(i);
        StepsBelowWrap(j);
      }
    }
  }

  /**
   * k successive calls of ieee802154_dev_get_dsn, as a caller issuing k
   * frames makes them: the numbers handed out are Issued from the old
   * counter, so by IssuedDistinctIff they differ pairwise exactly when
   * k <= 256, and the counter is left on the number the next call returns.
   */
  method DrawDsns(sdata: SubIf, k: nat) returns (issued: seq<Byte>)
    requires sdata.arphrd == ARPHRD_IEEE802154
    modifies sdata`dsn
    ensures issued == Issued(old(sdata.dsn), k)
    ensures issued + [sdata.dsn] == Issued(old(sdata.dsn), k + 1)
  {
    ghost var all := Issued(sdata.dsn, k + 1);
    IssuedAt(sdata.dsn, k + 1, 0);
    issued := [];
    var i := 0;
    while i < k
      invariant 0 <= i <= k
      invariant issued == all[..i] && sdata.dsn == all[i]
    {
      var d := GetDsn(sdata);
      IssuedSucc(old(sdata.dsn), k + 1, i);
      issued := issued + [d];
      i := i + 1;
    }
    IssuedPrefix(old(sdata.dsn), k);
  }

  /** The first k of k + 1 numbers issued are the k numbers issued. */
  lemma {:induction false} IssuedPrefix(start: Byte, k: nat)
    ensures Issued(start, k + 1)[..k] == Issued(start, k)
    decreases k
  {
    if k > 0 {
      IssuedPrefix(start + 1, k - 1);
      assert Issued(start, k + 1)[..k] == [start] + Issued(start + 1, k)[..k - 1];
    }
  }

  /** Each number issued is one more than the one before it. */
  lemma IssuedSucc(start: Byte, k: nat, i: nat)
    requires i + 1 < k
    ensures Issued(start, k)[i + 1] == Issued(start, k)[i] + 1
  {
    IssuedAt(start, k, i);
    IssuedAt(start, k, i + 1);
  }

  // ---------------------------------------------------------------------
  // The hardware address filter cache.
  // ---------------------------------------------------------------------

  /**
   * One step of the filter cache: with a driver that has set_hw_addr_filt
   * and a cached value different from the new one, the cache takes the new
   * value and a notification is due; otherwise nothing happens.
   */
  function CacheUpdate<T(==)>(hasOp: bool, cached: T, val: T): (T, bool) {
    if hasOp && cached != val then (val, true) else (cached, false)
  }

  /**
   * A notification is due exactly when the driver filters and the value
   * changes; afterwards a filtering driver's cache holds the new value, and
   * a second update with the same value is a no-op.
   */
  lemma CacheUpdateIff<T>(hasOp: bool, cached: T, val: T)
    ensures CacheUpdate(hasOp, cached, val).1 <==> hasOp && cached != val
    ensures hasOp ==> CacheUpdate(hasOp, cached, val).0 == val
    ensures !hasOp ==> CacheUpdate(hasOp, cached, val).0 == cached
    ensures var c := CacheUpdate(hasOp, cached, val).0; CacheUpdate(hasOp, c, val) == (c, false)
  {
  }

  /** set_hw_addr_filt: queue a notification, unless its allocation fails. */
  method QueueFiltWork(sdata: SubIf, changed: FiltChange, allocOk: bool)
    modifies sdata.hw`work
    ensures sdata.hw.work == old(sdata.hw.work) + (if allocOk then [HwAddrFiltWork(sdata, changed)] else [])
  {
    if allocOk {
      sdata.hw.work := sdata.hw.work + [HwAddrFiltWork(sdata, changed)];
    }
  }

  /**
   * ieee802154_dev_set_pan_id: the interface PAN is always stored; the
   * filter cache and the queue follow CacheUpdate. allocOk stands for the
   * work item's allocation succeeding.
   */
  method SetPanId(sdata: SubIf, val: U16, allocOk: bool)
    requires sdata.arphrd == ARPHRD_IEEE802154
    modifies sdata`panId, sdata.hw`hwFilt, sdata.hw`work
    ensures sdata.panId == val
    ensures var (c, notify) := CacheUpdate(sdata.hw.ops.setHwAddrFilt, old(sdata.hw.hwFilt.panId), val);
      && sdata.hw.hwFilt == old(sdata.hw.hwFilt).(panId := c)
      && sdata.hw.work == old(sdata.hw.work) + (if notify && allocOk then [HwAddrFiltWork(sdata, PanIdChanged)] else [])
  {
    sdata.panId := val;
    if sdata.hw.ops.setHwAddrFilt && sdata.hw.hwFilt.panId != sdata.panId {
      sdata.hw.hwFilt := sdata.hw.hwFilt.(panId := sdata.panId);
      QueueFiltWork(sdata, PanIdChanged, allocOk);
    }
  }

  /** ieee802154_dev_set_short_addr: the same for the short address. */
  method SetShortAddr(sdata: SubIf, val: U16, allocOk: bool)
    requires sdata.arphrd == ARPHRD_IEEE802154
    modifies sdata`shortAddr, sdata.hw`hwFilt, sdata.hw`work
    ensures sdata.shortAddr == val
    ensures var (c, notify) := CacheUpdate(sdata.hw.ops.setHwAddrFilt, old(sdata.hw.hwFilt.shortAddr), val);
      && sdata.hw.hwFilt == old(sdata.hw.hwFilt).(shortAddr := c)
      && sdata.hw.work == old(sdata.hw.work) + (if notify && allocOk then [HwAddrFiltWork(sdata, SaddrChanged)] else [])
  {
    sdata.shortAddr := val;
    if sdata.hw.ops.setHwAddrFilt && sdata.hw.hwFilt.shortAddr != sdata.shortAddr {
      sdata.hw.hwFilt := sdata.hw.hwFilt.(shortAddr := sdata.shortAddr);
      QueueFiltWork(sdata, SaddrChanged, allocOk);
    }
  }

  /** ieee802154_dev_set_ieee_addr: the interface's extended address into the filter cache. */
  method SetIeeeAddr(sdata: SubIf, allocOk: bool)
    modifies sdata.hw`hwFilt, sdata.hw`work
    ensures var (c, notify) := CacheUpdate(sdata.hw.ops.setHwAddrFilt, old(sdata.hw.hwFilt.ieeeAddr), sdata.devAddr);
      && sdata.hw.hwFilt == old(sdata.hw.hwFilt).(ieeeAddr := c)
      && sdata.hw.work == old(sdata.hw.work) + (if notify && allocOk then [HwAddrFiltWork(sdata, IeeeAddrChanged)] else [])
  {
    if sdata.hw.ops.setHwAddrFilt && sdata.hw.hwFilt.ieeeAddr != sdata.devAddr {
      sdata.hw.hwFilt := sdata.hw.hwFilt.(ieeeAddr := sdata.devAddr);
      QueueFiltWork(sdata, IeeeAddrChanged, allocOk);
    }
  }

  /** ieee802154_dev_set_pan_coord: the interface's coordinator flag, as 0 or 1, into the filter cache. */
  method SetPanCoord(sdata: SubIf, allocOk: bool)
    modifies sdata.hw`hwFilt, sdata.hw`work
    ensures var (c, notify) := CacheUpdate(sdata.hw.ops.setHwAddrFilt, old(sdata.hw.hwFilt.panCoord), sdata.coord);
      && sdata.hw.hwFilt == old(sdata.hw.hwFilt).(panCoord := c)
      && sdata.hw.work == old(sdata.hw.work) + (if notify && allocOk then [HwAddrFiltWork(sdata, PancChanged)] else [])
  {
    var panCoord := sdata.coord;
    if sdata.hw.ops.setHwAddrFilt && sdata.hw.hwFilt.panCoord != panCoord {
      sdata.hw.hwFilt := sdata.hw.hwFilt.(panCoord := panCoord);
      QueueFiltWork(sdata, PancChanged, allocOk);
    }
  }

  /**
   * ieee802154_dev_set_channel: the channel is always stored; a channel
   * work item is queued when the phy is on another channel, unless its
   * allocation fails, which is silently ignored.
   */
  method SetChannel(sdata: SubIf, val: Byte, allocOk: bool)
    requires sdata.arphrd == ARPHRD_IEEE802154
    modifies sdata`chan, sdata.hw`work
    ensures sdata.chan == val
    ensures sdata.hw.work == old(sdata.hw.work) +
      (if sdata.hw.currentChannel != val && allocOk then [ChanWork(sdata)] else [])
  {
    sdata.chan := val;
    if sdata.hw.currentChannel != sdata.chan {
      if !allocOk {
        return;
      }
      sdata.hw.work := sdata.hw.work + [ChanWork(sdata)];
    }
  }

  /** ieee802154_dev_set_page: stores the page and touches nothing else. */
  method SetPage(sdata: SubIf, page: Byte)
    requires sdata.arphrd == ARPHRD_IEEE802154
    modifies sdata`page
    ensures sdata.page == page
  {
    sdata.page := page;
  }

  /**
   * Setting the PAN twice to the same value: the second call queues
   * nothing, whatever its allocation does.
   */
  method SetPanIdTwice(sdata: SubIf, val: U16, allocOk1: bool, allocOk2: bool)
    requires sdata.arphrd == ARPHRD_IEEE802154
    modifies sdata`panId, sdata.hw`hwFilt, sdata.hw`work
    ensures sdata.panId == val
    ensures var (c, notify) := CacheUpdate(sdata.hw.ops.setHwAddrFilt, old(sdata.hw.hwFilt.panId), val);
      sdata.hw.work == old(sdata.hw.work) + (if notify && allocOk1 then [HwAddrFiltWork(sdata, PanIdChanged)] else [])
  {
    SetPanId(sdata, val, allocOk1);
    SetPanId(sdata, val, allocOk2);
    CacheUpdateIff(sdata.hw.ops.setHwAddrFilt, old(sdata.hw.hwFilt.panId), val);
  }

  /**
   * The same for the short address: a repeated value queues nothing more.
   */
  method SetShortAddrTwice(sdata: SubIf, val: U16, allocOk1: bool, allocOk2: bool)
    requires sdata.arphrd == ARPHRD_IEEE802154
    modifies sdata`shortAddr, sdata.hw`hwFilt, sdata.hw`work
    ensures sdata.shortAddr == val
    ensures var (c, notify) := CacheUpdate(sdata.hw.ops.setHwAddrFilt, old(sdata.hw.hwFilt.shortAddr), val);
      sdata.hw.work == old(sdata.hw.work) + (if notify && allocOk1 then [HwAddrFiltWork(sdata, SaddrChanged)] else [])
  {
    SetShortAddr(sdata, val, allocOk1);
    SetShortAddr(sdata, val, allocOk2);
    CacheUpdateIff(sdata.hw.ops.setHwAddrFilt, old(sdata.hw.hwFilt.shortAddr), val);
  }

  // ---------------------------------------------------------------------
  // A failed notification is not retried.
  // ---------------------------------------------------------------------

  /**
   * As written, set_pan_id updates the cache before the notification is
   * allocated. When that allocation fails and the caller sets the same PAN
   * again, the cache already holds it, so the driver is never told: the
   * filter cache claims a PAN the hardware filter does not have.
   */
  method PanIdLostNotification(sdata: SubIf, val: U16)
    requires sdata.arphrd == ARPHRD_IEEE802154
    requires sdata.hw.ops.setHwAddrFilt && sdata.hw.hwFilt.panId != val
    modifies sdata`panId, sdata.hw`hwFilt, sdata.hw`work
    ensures sdata.hw.hwFilt.panId == val
    ensures sdata.hw.work == old(sdata.hw.work)
  {
    SetPanId(sdata, val, false);
    SetPanId(sdata, val, true);
  }

  /**
   * set_pan_id with the cache updated only once the notification is queued:
   * the cache never runs ahead of what the driver has been told.
   */
  method SetPanIdFixed(sdata: SubIf, val: U16, allocOk: bool)
    requires sdata.arphrd == ARPHRD_IEEE802154
    modifies sdata`panId, sdata.hw`hwFilt, sdata.hw`work
    ensures sdata.panId == val
    ensures var (c, notify) := CacheUpdate(sdata.hw.ops.setHwAddrFilt, old(sdata.hw.hwFilt.panId), val);
      && sdata.hw.hwFilt == old(sdata.hw.hwFilt).(panId := if notify && allocOk then c else old(sdata.hw.hwFilt.panId))
      && sdata.hw.work == old(sdata.hw.work) + (if notify && allocOk then [HwAddrFiltWork(sdata, PanIdChanged)] else [])
  {
    sdata.panId := val;
    if sdata.hw.ops.setHwAddrFilt && sdata.hw.hwFilt.panId != sdata.panId {
      if allocOk {
        sdata.hw.hwFilt := sdata.hw.hwFilt.(panId := sdata.panId);
        QueueFiltWork(sdata, PanIdChanged, true);
      }
    }
  }

  /** On the corrected setter, setting the PAN again after a failed allocation reaches the driver. */
  method PanIdRetried(sdata: SubIf, val: U16)
    requires sdata.arphrd == ARPHRD_IEEE802154
    requires sdata.hw.ops.setHwAddrFilt && sdata.hw.hwFilt.panId != val
    modifies sdata`panId, sdata.hw`hwFilt, sdata.hw`work
    ensures sdata.hw.hwFilt.panId == val
    ensures sdata.hw.work == old(sdata.hw.work) + [HwAddrFiltWork(sdata, PanIdChanged)]
  {
    SetPanIdFixed(sdata, val, false);
    SetPanIdFixed(sdata, val, true);
  }
}
