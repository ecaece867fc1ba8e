# IEEE 802.15.4 MAC sublayer (Linux mac802154), modelled in Dafny

This project models the core of the early Linux IEEE 802.15.4 MAC sublayer
(`net/mac802154`) and proves properties of that model.

- **Codec.** The frame codec covers the MAC header that `header_create`
  writes into a 24-byte buffer, and its two readers:
  - `header_parse` extracts the source address;
  - `parse_frame_start` pulls the frame control, the sequence number and
    the addresses into the buffer's control block, one field at a time.
- **Checksum.** The CRC-16/CCITT frame check sequence is appended on
  transmit and verified on receive.
- **Receive path.**
  - `subif_rx` checks the FCS, parses the frame and fans it out to every
    interface. Each interface except the last gets a clone; the last gets
    the buffer itself.
  - `subif_frame` classifies each copy as for this host, broadcast or for
    another host, and picks the handler from the frame type.
- **Transmit path.** `net_xmit` checks the channel, appends the FCS,
  updates the statistics and queues a transmit work item.
- **Address ioctls.** `SIOCGIFADDR` and `SIOCSIFADDR` validate and read or
  write an interface's PAN and short address.
- **Interface MIB.** The MIB comprises:
  - the 8-bit data and beacon sequence counters;
  - the setters of the PAN, short address, extended address, coordinator
    flag, channel and page;
  - the cache of the hardware address filter. A change notification is
    queued only when the cached value changes.
- **Life cycle.**
  - Open and close keep the `open_count` state machine: the first open
    starts the radio and the last close stops it.
  - The device is allocated and freed.
  - Interfaces of either type are added to and deleted from the device's
    list of slaves.
  - Unregistering the device drains that list.
- **Monitors.**
  - Every monitor interface receives one copy of each frame.
  - A monitor transmits on the phy's current page and channel.

Mutable kernel objects become classes, defined in `netdev.dfy`:
- `SkBuff` is the socket buffer;
- `SubIf` is the interface, with its net_device fields;
- `Device` is the physical device with its list of slaves.

The operations that update them are methods with `modifies` clauses. The
header buffer and the byte-swapping copy work on an `array`. The codec
itself is specified by pure functions, which the imperative parsers and
builders are proved to implement:
- `EncodeHeader`, `DecodeDest`, `DecodeSrc` and `DecodeFrameStart`;
- `Classify`, `Recipients` and `Monitors`.

Bytes are `bv8` and 16-bit fields `bv16`, so the 8-bit sequence counters
wrap around as in C.

Some results are outside the model, so they are parameters:
- what a driver call returns (`startRes`);
- whether an allocation succeeds (`allocOk`, `cowOk`);
- what `register_netdev` returns (`registerRes`);
- whether a clone succeeds (`ok`);
- what the transmit path answers (`txRes`);
- the random initial sequence numbers.

Work items are recorded in the device's `work` log instead of being run.
Driver start and stop calls are recorded in its `radio` log.

**Frame-control layout.** The frame-control bit positions are the kernel's
constants. They are those of section 7.2.1.1 of IEEE 802.15.4-2006:
- the frame type at bits 0-2;
- SECEN at bit 3, ACK_REQ at bit 5 and INTRA_PAN at bit 6;
- the destination mode at bits 10-11 and the source mode at bits 14-15.

**Encoding without a destination.** `header_create` fails only when no
destination is given at all. A destination of mode None is encoded as an
empty field.

## Model

| member | source | states |
|---|---|---|
| Ieee802154.Le16RoundTrip | net/mac802154/dev.c:279-280 | Reading back the two little-endian bytes written for a 16-bit field gives the field. |
| Ieee802154.ReverseReverse | net/mac802154/dev.c:225-230 | Swapping an 8-byte address twice gives it back, so the swap on transmit and the swap on receive cancel. |
| Crc.CrcConcat | net/mac802154/dev.c:828 | The CRC of a concatenation continues from the CRC of the prefix. |
| Crc.FcsCheckIff | net/mac802154/dev.c:97-102 | Appending two bytes to a frame gives a CRC of zero exactly when they are the frame's own FCS, low byte first. |
| Crc.TrailerZeroes | net/mac802154/dev.c:828-832 | Two trailing bytes zero the running CRC exactly when they are its low and high byte. |
| Codec.FrameControlFields | net/mac802154/dev.c:246-297 | The frame control built for a header carries the frame type and the ack-request flag, never SECEN, and the two address modes. Intra-PAN is set exactly when a source is present and the PANs compress. |
| Codec.EncodeHeader | net/mac802154/dev.c:250-313 | The header is 3 to 23 bytes long: the frame control little-endian, the sequence number, then the destination and source fields. |
| Codec.DefaultSource | net/mac802154/dev.c:257-271 | Without a source address, the interface's long address is used exactly when its short address is broadcast or undefined or its PAN is broadcast. Otherwise its short address is used, and the PAN is the interface's in both cases. |
| Codec.DecodeDestLen | net/mac802154/dev.c:763-786 | Reading the destination succeeds exactly when enough bytes remain. It pulls exactly the destination's length and keeps the flags and the source mode. |
| Codec.DecodeSrcLen | net/mac802154/dev.c:788-804 | Reading the source succeeds exactly when enough bytes remain, and it pulls exactly the source's length. |
| Codec.CbFlagsBits | net/mac802154/dev.c:729-740 | The control-block flags carry the frame type, and ACKREQ, SECEN and INTRAPAN exactly when the frame control has the matching bit. |
| Codec.DecodeFrameStartIff | net/mac802154/dev.c:714-810 | A frame is malformed exactly when one of these holds: it is shorter than 3 bytes; it is secured; it is an ACK with an address; or it is shorter than its addressing fields. Otherwise the rest is what follows those fields. |
| Codec.AckWithAddressRefused | net/mac802154/dev.c:756-761 | An ACK frame with either address mode not None is malformed. |
| Codec.TruncatedRefused | net/mac802154/dev.c:700-712 | Every strict prefix of a frame's header is malformed. |
| Codec.DecodeDestOfEncoded | net/mac802154/dev.c:276-289 | Decoding the destination field the encoder wrote gives back the destination. With intra-PAN set, it copies the destination PAN into the source PAN. |
| Codec.DecodeSrcOfEncoded | net/mac802154/dev.c:291-310 | Decoding the source field the encoder wrote gives back the source mode and address. Its PAN is read from the wire exactly when it was not compressed. |
| Codec.EncodedFrameStart | net/mac802154/dev.c:714-810 | Decoding an encoded header plus a payload splits into the destination step and the source step, and the rest is exactly the payload. |
| Codec.EncodeDecode | net/mac802154/dev.c:232-318 | The decode of an encoded header succeeds, leaves exactly the payload, and gives back these fields: the type, ack request, no security, intra-PAN as compressed, the sequence number and the destination. |
| Codec.EncodeDecodeSource | net/mac802154/dev.c:788-804 | The decode of an encoded header gives back the source mode and address. It gives the source PAN whenever that was on the wire or was copied from a present destination. |
| Codec.EncodeDecodeAddresses | net/mac802154/dev.c:232-318 | With a destination, decode after encode gives back both addresses as they appear on the wire. |
| DevHeader.CopySwap | net/mac802154/dev.c:225-230 | The 8 bytes at the offset become the source reversed, and every other cell is unchanged. |
| DevHeader.PutDestination | net/mac802154/dev.c:276-289 | Writes exactly the destination field at the cursor, sets its mode in the frame control, and advances the cursor by its length. |
| DevHeader.PutSource | net/mac802154/dev.c:291-310 | Writes exactly the source field at the cursor, leaving the PAN out when compressed, and sets its mode and intra-PAN in the frame control. |
| DevHeader.InterfaceSource | net/mac802154/dev.c:257-274 | The source address built from the interface is DefaultSource of its PAN, short address and extended address. |
| DevHeader.BuildHeader | net/mac802154/dev.c:237-313 | The bytes the 24-byte buffer holds up to the cursor are exactly EncodeHeader of the control block's type, ack request, sequence number and the two addresses. |
| DevHeader.HeaderCreate | net/mac802154/dev.c:232-318 | Without a destination, it returns -EINVAL and pushes nothing. Otherwise it pushes the encoded header in front of the data and returns its length, which is between 3 and 23. |
| DevHeader.HeaderParseMisreadsSource | net/mac802154/dev.c:344-368 | As written, on the data frame from short 0x0002 on PAN 0x5678 to short 0x0001 on PAN 0x1234, header_parse reports PAN 0x0001 and short address 0x5678, while the corrected parser reports the source. |
| DevHeader.HeaderParseMisreadsShort | net/mac802154/dev.c:344-368 | As written, on every header between short addresses on two different PANs, whatever follows it, header_parse succeeds but reports the destination short address as the source PAN and the source PAN as the source short address. |
| DevHeader.HeaderParseFixedRoundTrip | net/mac802154/dev.c:320-417 | With the destination PAN always skipped, header_parse of an encoded header gives back the source address as it appears on the wire. |
| DevRx.RxAcceptIff | net/mac802154/dev.c:821-834 | With checksumming on, a received frame is accepted as a message exactly when it is that message followed by its own FCS. |
| DevRx.FetchU16 | net/mac802154/dev.c:674-683 | Returns the first two bytes as a little-endian value and pulls them. |
| DevRx.FetchU64 | net/mac802154/dev.c:685-691 | Returns the first 8 bytes reversed and pulls them. |
| DevRx.ParseDest | net/mac802154/dev.c:763-786 | Succeeds exactly when DecodeDest does, and then leaves its control block and rest. It only ever pulls bytes off the front. |
| DevRx.ParseSrc | net/mac802154/dev.c:788-804 | Succeeds exactly when DecodeSrc does, and then leaves its control block and rest. It only ever pulls bytes off the front. |
| DevRx.ParseFrameStart | net/mac802154/dev.c:714-810 | Returns 0 with the decoded control block and the remaining payload exactly when DecodeFrameStart decodes, and -EINVAL when the frame is malformed. |
| DevRx.ClassifyIff | net/mac802154/dev.c:601-634 | A frame is for this host exactly when one of these holds: it has no addresses at all; its PAN is accepted and its short destination is the interface's own; or its PAN is accepted and its long destination is the interface's address. It is broadcast exactly for an accepted PAN with the short broadcast address, when that is not the interface's own. It is never multicast, and the prior tag does not matter. |
| DevRx.ForeignPanIsOtherHost | net/mac802154/dev.c:612-633 | A destination on another PAN that is not broadcast marks the frame for another host. |
| DevRx.ReservedModeKeepsTag | net/mac802154/dev.c:603-634 | A reserved destination mode leaves the packet type as it was. |
| DevRx.EncodedForShortIsHost | net/mac802154/dev.c:622-633 | A header encoded to the interface's PAN and its short address, or to the broadcast address, decodes and is classified as host or broadcast. |
| DevRx.EncodedForLongIsHost | net/mac802154/dev.c:612-621 | A header encoded to the interface's PAN and its long address decodes and is classified as for this host. |
| DevRx.RouteDropsIff | net/mac802154/dev.c:645-659 | A frame goes to the bad-frame drop exactly when its type is not beacon, data, ACK or command. |
| DevRx.SubifFrame | net/mac802154/dev.c:595-660 | Tags the buffer with Classify's result and with this interface. It warns exactly for a host frame that asks for an ACK on hardware without AACK, and routes by frame type. |
| DevRx.RecipientsIff | net/mac802154/dev.c:844-859 | An interface receives the frame exactly when it is the last in the list or its clone succeeded. No interface receives it twice. |
| DevRx.AllClonesEveryone | net/mac802154/dev.c:844-859 | When every clone succeeds, every interface receives the frame, in list order. |
| DevRx.FanOut | net/mac802154/dev.c:844-859 | Delivers to exactly the recipients, with a parsed copy for each. The last interface gets the original buffer and the others fresh clones. |
| DevRx.RxPrepare | net/mac802154/dev.c:821-840 | Accepts exactly when the FCS check passes and the header decodes, and then leaves the decoded control block and payload. |
| DevRx.SubifRx | net/mac802154/dev.c:812-866 | A frame with a bad FCS, or one that does not parse, is dropped. Otherwise every recipient gets a parsed copy, and the last gets the original buffer. |
| DevSlave.TxRxRoundTrip | net/mac802154/dev.c:97-102 | A frame sent with its FCS is accepted by the receive check as the original message. |
| DevSlave.AppendFcsAndCount | net/mac802154/dev.c:97-106 | Appends the FCS unless the hardware computes it, counts one packet and adds the new length to the bytes. |
| DevSlave.NetXmit | net/mac802154/dev.c:80-131 | Uses the path the guards select: an unset or unsupported channel sends nothing; a failed headroom copy frees; a failed work allocation is BUSY; otherwise the frame is queued. Once past the channel checks, the data carries the FCS and the statistics count it. |
| DevSlave.BusyRetryDoublesFcs | net/mac802154/dev.c:97-116 | Re-sending a frame that came back BUSY appends a second FCS. The receiver then accepts the frame with the first FCS still attached, not the original message. |
| DevSlave.BusyThenRetry | net/mac802154/dev.c:97-116 | As written, BUSY followed by a retry leaves the data with two FCSs, counts the packet twice and queues one work item. |
| DevSlave.NetXmitFixed | net/mac802154/dev.c:80-131 | With the work allocated before the frame is touched, a BUSY answer leaves the data and the statistics unchanged. |
| DevSlave.FixedBusyThenRetry | net/mac802154/dev.c:97-116 | On the corrected transmit, BUSY followed by a retry sends the frame with one FCS, counted once. |
| DevSlave.SlaveIoctl | net/mac802154/dev.c:168-212 | SIOCGIFADDR fails with -EADDRNOTAVAIL on a broadcast PAN or short address, and otherwise returns both. SIOCSIFADDR stores them only for a valid short address, and otherwise returns -EINVAL. Any other command returns -ENOIOCTLCMD. |
| DevSlave.GetIfAddrIff | net/mac802154/dev.c:179-192 | Reading the address succeeds exactly when neither the PAN nor the short address is broadcast; otherwise the error is -EADDRNOTAVAIL. |
| DevSlave.SetThenGet | net/mac802154/dev.c:193-208 | An address SIOCSIFADDR accepts is read back unchanged by SIOCGIFADDR. |
| DevSlave.GetThenSet | net/mac802154/dev.c:179-203 | An address SIOCGIFADDR returns is accepted by SIOCSIFADDR exactly when its short address is not the undefined one. |
| DevSlave.SetThenGetIoctl | net/mac802154/dev.c:168-212 | Setting a valid address through the ioctl and reading it back gives that PAN and short address. |
| Mib.GetDsn | net/mac802154/mib.c:214-226 | Returns the current data sequence number and advances the counter by one, modulo 256. |
| Mib.GetBsn | net/mac802154/mib.c:228-240 | Returns the current beacon sequence number and advances the counter by one, modulo 256. |
| Mib.IssuedAt | net/mac802154/mib.c:214-226 | The i-th number issued by successive calls is the start advanced i steps. |
| Mib.IssuedDistinctIff | net/mac802154/mib.c:214-226 | Successive calls hand out pairwise different numbers exactly as long as there are at most 256 of them; the 257th repeats the first. |
| Mib.DrawDsns | net/mac802154/mib.c:214-226 | k successive calls of get_dsn return exactly Issued from the old counter, and leave the counter on the number the next call returns. |
| Mib.CacheUpdateIff | net/mac802154/mib.c:129-136 | A notification is due exactly when the driver filters addresses and the value changes. The cache then holds the new value, and a second update with the same value does nothing. |
| Mib.QueueFiltWork | net/mac802154/mib.c:60-75 | Queues one notification carrying the changed bit, or nothing when its allocation fails. |
| Mib.SetPanId | net/mac802154/mib.c:122-137 | Stores the PAN. The filter cache and the queue follow the change detection. |
| Mib.SetShortAddr | net/mac802154/mib.c:151-166 | Stores the short address. The filter cache and the queue follow the change detection. |
| Mib.SetIeeeAddr | net/mac802154/mib.c:168-179 | The filter cache takes the interface's extended address, and a notification is queued only when it changes. |
| Mib.SetPanCoord | net/mac802154/mib.c:139-149 | The filter cache takes the interface's coordinator flag, and a notification is queued only when it changes. |
| Mib.SetChannel | net/mac802154/mib.c:181-201 | Stores the channel. It queues a channel work item exactly when the phy is on another channel and the allocation succeeds. |
| Mib.SetPage | net/mac802154/mib.c:203-212 | Stores the page and changes nothing else. |
| Mib.SetPanIdTwice | net/mac802154/mib.c:122-137 | Setting the same PAN twice queues at most the first notification. |
| Mib.SetShortAddrTwice | net/mac802154/mib.c:151-166 | Setting the same short address twice queues at most the first notification. |
| Mib.PanIdLostNotification | net/mac802154/mib.c:60-75 | As written, a failed allocation followed by the same PAN again leaves the cache claiming the PAN while no notification was ever queued. |
| Mib.SetPanIdFixed | net/mac802154/mib.c:122-137 | With the cache updated only once the notification is queued, the cache changes only together with a queued notification. |
| Mib.PanIdRetried | net/mac802154/mib.c:122-137 | On the corrected setter, setting the PAN again after a failed allocation queues the notification. |
| MacMain.SlaveOpen | net/mac802154/main.c:31-49 | Starts the radio only on the first open. If that start fails, the count is restored and the error returned. The open count stays positive exactly while the radio runs. |
| MacMain.SlaveClose | net/mac802154/main.c:51-63 | Clears the coordinator flag, stops the queue and counts down. It stops the radio exactly when the count reaches zero. |
| MacMain.OpenThenClose | net/mac802154/main.c:31-63 | A successful open followed by a close restores the count and whether the radio runs. The driver is called only when no interface was open before. |
| MacMain.WithoutIff | net/mac802154/main.c:108-110 | After removing x, an interface is on the list exactly when it was there before and is not x. |
| MacMain.WithoutAt | net/mac802154/main.c:108-110 | On a list without repeats, removing x cuts out exactly its one entry. |
| MacMain.AppendThenRemove | net/mac802154/main.c:87-110 | Removing the interface just appended gives the list back. |
| MacMain.AllocDevice | net/mac802154/main.c:155-185 | Requires xmit, ed, start and stop. The new device is valid, has the given ops and an empty list, and nothing runs; a failed allocation gives none. |
| MacMain.FreeDevice | net/mac802154/main.c:188-195 | Only a device without interfaces may be freed. |
| MacMain.DropSlaves | net/mac802154/main.c:239-245 | The drain loop unlinks the interfaces in list order until the list is empty. |
| MacMain.UnregisterDevice | net/mac802154/main.c:228-251 | The work queue is flushed and every interface is removed, in list order, leaving a valid device with an empty list. |
| MacMain.UnregisterThenFree | net/mac802154/main.c:188-251 | After unregistering, the precondition of freeing holds. |
| MacMain.NetdevRegister | net/mac802154/main.c:66-94 | When register_netdev succeeds, the interface is appended at the tail. Otherwise its error is returned and the list is unchanged. |
| MacMain.AddIface | net/mac802154/main.c:116-152 | A WPAN or a monitor interface of that type is created and appended. Any other type gives -EINVAL before allocating, a failed allocation gives -ENOMEM, and a failed registration its error. There is a new interface exactly on success. |
| MacMain.DelIface | net/mac802154/main.c:96-114 | Requires a WPAN interface of this phy and removes exactly its entry. |
| MacMain.MonitorOutsideDelIface | net/mac802154/main.c:102 | As written, a monitor created by add_iface is in the list with a type that del_iface refuses. |
| MacMain.DelIfaceFixed | net/mac802154/main.c:96-114 | Removing an interface of this phy, of either type, cuts out exactly its entry and keeps the device valid. |
| MacMain.AddThenDelMonitor | net/mac802154/main.c:96-152 | On the corrected deletion, adding a monitor and deleting it gives the list back. |
| Monitor.MonitorsIff | net/mac802154/monitor.c:64-66 | An interface is listed among the monitors exactly when it is a slave of type monitor. |
| Monitor.MonitorsDistinct | net/mac802154/monitor.c:64-66 | On a list without repeats, no monitor is listed twice. |
| Monitor.MonitorsRx | net/mac802154/monitor.c:58-78 | Gives one fresh copy per monitor, in list order. Each copy holds the frame's bytes and control block, is addressed to its monitor and is tagged PACKET_HOST. The original buffer is not changed. |
| Monitor.OneCopyEach | net/mac802154/monitor.c:63-77 | Every monitor of a valid device gets a copy, and no two copies go to the same interface. |
| Monitor.MonitorXmit | net/mac802154/monitor.c:33-55 | With the phy's channel unset, it returns TX_OK and sends nothing. Otherwise it counts the packet and its bytes and sends on the phy's page and channel. Both must be in range. |

## Left out

- Locking, RCU, `synchronize_rcu` and the workqueues are left out. Each operation is one sequential step, and queued work is a log entry that never runs. This covers `xmit_worker`, `hw_addr_notify` and `phy_chan_notify`.
- The driver operations (`xmit`, `ed`, `start`, `stop`, `set_channel`, `set_hw_addr_filt`) are outside the code. They are parameters or log entries.
- `register_netdev`, `unregister_netdevice`, `alloc_netdev`, `dev_hold`, `free_netdev`, `netif_rx` and the `net_device_ops` tables are outside the code.
- The frame handlers are outside the code: `parse_beacon_frame`, the beacon processing, `ieee802154_process_cmd`, `process_ack` and `process_data`. The model only names the handler that gets the frame.
- Socket-buffer memory is left out: headroom, tailroom, `kfree_skb` and the `skb_iif` field.
- `ieee802154_slave_mac_addr` and the netdev setup functions are left out. They copy fields and set constants that the rest of the model does not read.
- `ieee802154_dev_get_pan_id`, `get_short_addr`, `slave_get_priv` and `get_phy` are left out. Each is a plain read of one field.
- `ieee802154_register_device` is left out. It creates the workqueue and registers the phy with code that is not part of this model.
- net/ieee80215 is not part of this model. Its ioctls are stubs, and its main.c is an older registration path.
- `ieee802154_xmit_worker` is not part of this model. The transmit path ends at the queued work item.
- `dev.c` carries its own copies of the following, whose logic matches main.c's: `slave_open`, `slave_close`, `netdev_register`, `del_iface` and `add_iface`. Each is modelled once.
- The initial values that dev.c's `netdev_register` gives an interface are stated by the `SubIf` constructor, along with those of `monitor_setup`. Constructors carry no row.
- The statistics are unbounded naturals, because `tx_packets` and `tx_bytes` are unsigned long and their wrap-around is not modelled.
- `Addr` is a record of mode, PAN, short address and extended address instead of the C union. A decoded address can therefore keep a stale field that the union would overlay; `SameOnWire` compares only the fields the mode uses.
- Monitor.MonitorsRx: takes every clone to succeed. The code does not check `skb_clone`, and a failed clone would be dereferenced.
- DevHeader.HeaderParseFixedRoundTrip excludes one case, and Codec.EncodeDecodeSource states it separately. In that case the destination mode is None, a source is present, and the source PAN equals the PAN field of the unused destination. `header_create` then sets INTRA_PAN without a destination (dev.c:294-297). `header_parse` rejects such a header (dev.c:340-341), and `parse_frame_start` keeps the old source PAN.
- DevRx.ClassifyIff: excludes the reserved destination mode 1, for which no case of the switch applies. ReservedModeKeepsTag states that case separately.
- Each `BUG_ON` of the code is a precondition on the caller, so a call that would crash the kernel is outside the model. This covers the page and channel bounds of NetXmit and MonitorXmit (dev.c:90-91, monitor.c:47-48), the interface type of GetDsn, GetBsn and the setters (mib.c), the interface type and phy of DelIface (main.c:102-106), the operations table of AllocDevice (main.c:173-177) and the empty slave list of FreeDevice (main.c:192). The 32-entry channel mask that NetXmit requires is the length of the C array, not a check.
- The numeric constants come from the Linux headers, which are not part of this model:
  - `AF_IEEE802154` is 36;
  - the errno values are EINVAL 22, ENOMEM 12, EADDRNOTAVAIL 99 and ENOIOCTLCMD 515;
  - ARPHRD_IEEE802154 is 804 and ARPHRD_IEEE802154_MONITOR is 805.

  The transmit result (`NETDEV_TX_OK` and `NETDEV_TX_BUSY`) and the ioctl command codes are datatypes.

## Findings

| source | as written | input that shows it | evidently intended | confidence | as-written member | corrected member |
|---|---|---|---|---|---|---|
| net/mac802154/dev.c:344-368 | `header_parse` skips the destination PAN only when INTRA_PAN is set. | A data frame from short 0x0002 on PAN 0x5678 to short 0x0001 on PAN 0x1234. `header_parse` reports PAN 0x0001 and short address 0x5678 instead of PAN 0x5678 and short address 0x0002. | The destination PAN is always present when the destination mode is not None, so it is always skipped. | not executed; high | DevHeader.HeaderParseMisreadsShort | DevHeader.HeaderParseFixedRoundTrip |
| net/mac802154/dev.c:97-116 | The FCS is appended and the statistics counted before the work allocation that can return NETDEV_TX_BUSY. | A frame whose first transmit hits the allocation failure and is then retried. | A BUSY answer leaves the frame and the statistics as they were, so the retry sends one FCS and counts once. | not executed; high | DevSlave.BusyThenRetry | DevSlave.FixedBusyThenRetry |
| net/mac802154/main.c:102 | `del_iface` BUG()s on any interface whose type is not ARPHRD_IEEE802154. | A monitor created by `add_iface` with type IEEE802154_DEV_MONITOR. | Any interface of the phy can be deleted, monitors included. | not executed; medium | MacMain.MonitorOutsideDelIface | MacMain.AddThenDelMonitor |
| net/mac802154/mib.c:129-136 | `set_pan_id` updates the filter cache before `set_hw_addr_filt` allocates the notification. | A PAN change whose work allocation fails, followed by the same PAN again. | The cache changes only with a queued notification, so the retry reaches the driver. | not executed; medium | Mib.PanIdLostNotification | Mib.PanIdRetried |
