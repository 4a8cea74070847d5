# Verified models of driver logic

These Dafny files model the parts of the drivers whose correctness rests on a
state machine or on arithmetic, and prove what those parts are for. Code that
updates objects in place is modelled by classes and loops (`H5Driver.H5`,
`BtusbReassembly.HciDev`, `BtusbQueue.RtkQueue`, `DmcGovernor.Devfreq`,
`HashPadding.HashCtx`, `BtSleep.Bluesleep`, `CmaRegions.GenerateMemMap`,
`BtusbFirmware.DownloadData`). Each method is proved equal to a step on values,
and the theorems about whole runs are proved about those steps.

**The three-wire UART link** (`drivers/bluetooth/hci_rtk_h5.c`, the protocol of
the Bluetooth Core Specification, Vol 4, Part D) is modelled at three levels.

- Bytes: `H5Crc` proves the nibble-table CRC equal to bit-by-bit division by
  x^16 + x^12 + x^5 + 1 and that it catches every error burst of at most 16 bits.
  `H5Frame` is the SLIP stuffing, the header and the encoder; `H5Receive` is the
  resumable parser as a left fold over bytes; `H5RoundTrip` proves that the parser
  reads back every stream the encoder writes.
- One endpoint: `H5Endpoint` holds the queues, counters and timer, with the
  conservation law every step keeps; `H5Channel` has it, and that of the unreliable
  queue, for every run on arbitrary bytes; `H5Driver` is the C structure with its
  functions.
- Two endpoints: `H5Channel` joins two endpoints by lines that may lose frames.
  In every run each side receives a prefix of what the other enqueued, in order,
  each packet once, and no packet is forgotten before it was accepted. `H5Bytes`
  carries this down to the bytes: two parsers on lines of bytes, fed in chunks of
  any size, with anything happening in between and frames lost whole or from any
  byte on, only ever do what a run of the frame-level system does (`H5Wire` has the
  single delivery). `H5Progress` says when one timeout and one loss-free exchange
  acknowledge packets, and that from every reachable state everything enqueued
  arrives, both ways, within a bounded number of rounds once losses stop.

**The other cores.** `CmaRegions`: the power-of-two memory map covers its range
exactly and with the fewest regions. `BtusbReassembly`: HCI frames come out the
same however the stream is cut. `BtusbQueue`: the packet ring read as one byte
stream. `BtusbFirmware`: the credit-driven firmware download. `DmcGovernor`: the
DRAM frequency governor, on the samples the driver takes (the total is the clock's
own count): it moves up exactly above the band and down exactly below it, and it is
stable exactly where the load is in the band. `BtSleep`: the UART sleep machine.
`HashPadding`: message padding as in FIPS 180-4 (sections 5.1.1 and 5.1.2) and
RFC 1321 (sections 3.1 and 3.2).

**Where the code falls short of the natural claim**, a lemma or method gives a
concrete case and another the exact condition, over all inputs.

- One timeout and one loss-free exchange need not acknowledge anything: a peer
  that lost its own first packet and has another one to send answers with an
  out-of-order frame, and `h5_recv` ignores the acknowledgement in it
  (`ProgressCanFail`). They acknowledge min(4, outstanding) packets if and only
  if `Answered` holds, a test on the queues and counters of the two ends before
  anything is sent (`ProgressExactly`); repeated exchanges always make progress
  (`AlwaysProgresses`) and empty both queues in the end (`EverythingArrives`).
- `generate_mem_map` maps one 32K region for a size of zero (`ZeroSizeMapsOne`);
  the map is exact if and only if start and size are multiples of 32K and the size
  is not zero (`TilesExactly`).
- `hci_recv_fragment` throws away the rest of a chunk after an oversized header
  (`OversizedLosesByte`), so how the stream is cut matters if and only if something
  follows such a header (`IndependentExactly`).
- `download_data` still returns the full length after a grant of zero commands,
  though the fragments after it are never sent (`ZeroGrantLosesImage`); the image
  is complete if and only if every event that ends a batch grants at least one
  command (`DownloadExactly`).
- The governor's requests, each taken as the rate set, need not settle under a
  constant load. Across the threshold that is 20 points lower on freq[0], 500 MHz
  and 647 MHz are asked for in turn for ever (`FlapsForever`); with a differential
  of 1 the rounding moves the second request (`SecondCallMoves`), as the frequency
  asked for can lie outside the band (`DropCanMissBand`). A request is repeated if
  and only if the load is in the band of the frequency asked for, under the
  threshold in force there (`Stable`), a range of kHz (`KeptRange`) that can be told
  from the first sample (`NextCallKeeps`). With a differential of at least 2, the
  same threshold and a load of at least 800 it always is, from a whole number of kHz
  (`SettlesAtOnce`).
- When the interrupt request of `bluesleep_start` fails, the mode still counts as
  enabled, and the machine can then sleep outside the protocol and stay asleep
  after the mode is turned off (`IrqFailureBreaks`). The failing step itself breaks
  no promise. From a good state it opens the way to a broken one if and only if a
  port is bound and the timer flag is clear (`LostExactly`); and over all runs, with
  any number of failed requests, the promises hold throughout if and only if the
  sleep work never stops the UART of a port whose protocol is not running
  (`RunBreaksExactly`).

## Model

| member | source | states |
|---|---|---|
| H5Crc.CrcMatchesExactly | drivers/bluetooth/hci_rtk_h5.c:294-299 | the receiver's comparison accepts the two bytes sent for a register, and no others, exactly when its own register is the same |
| H5Crc.CrcBytesReversed | drivers/bluetooth/hci_rtk_h5.c:294-299 | bit k of the number the two CRC bytes spell is bit 15 - k of the register |
| H5Crc.CheckValue | drivers/bluetooth/hci_rtk_h5.c:100-128 | the register after "123456789" from 0xffff is 0x6f91, the published check value of this CRC |
| H5Crc.CrcAllConcat | drivers/bluetooth/hci_rtk_h5.c:278-292 | summing header and then payload is summing them in one go |
| H5Crc.TableIsBitSerial | drivers/bluetooth/hci_rtk_h5.c:100-128 | from every register value and on every byte string, the nibble-table CRC equals the bit-serial reflected CCITT CRC |
| H5Crc.UpdateIsBijection | drivers/bluetooth/hci_rtk_h5.c:120-128 | for each data byte the update is a bijection on the register, with the inverse given |
| H5Crc.BurstDetectedBits | drivers/bluetooth/hci_rtk_h5.c:100-128 | bit strings that differ only inside a window of at most 16 bits leave different registers |
| H5Crc.BurstDetected | drivers/bluetooth/hci_rtk_h5.c:100-128 | byte strings of equal length hit by one burst of up to 16 bits always get different CRCs |
| H5Crc.TwoBytesDetected | drivers/bluetooth/hci_rtk_h5.c:120-128 | strings that differ only inside two consecutive bytes get different CRCs |
| H5Frame.Slip | drivers/bluetooth/hci_rtk_h5.c:139-162 | the stuffed form of a byte is one or two bytes, none of them the delimiter or a flow-control byte |
| H5Frame.SlipAllConcat | drivers/bluetooth/hci_rtk_h5.c:278-292 | stuffing header, payload and CRC one after the other is stuffing their concatenation |
| H5Frame.StuffingReadsBack | drivers/bluetooth/hci_rtk_h5.c:139-162 | reading db dc, db dd, db de and db df back as c0, db, 11 and 13 gives the bytes that were stuffed |
| H5Frame.HeaderRoundTrip | drivers/bluetooth/hci_rtk_h5.c:255-276 | every field of a header comes back through the receiver's masks and shifts, and the checksum matches |
| H5Frame.HeaderLayout | drivers/bluetooth/hci_rtk_h5.c:255-276 | the header fields stand at the bit positions of the standard and the four bytes add up to 0xff |
| H5Frame.HeaderByteDetected | drivers/bluetooth/hci_rtk_h5.c:622-632 | any change of a single header byte breaks the checksum |
| H5Frame.EncodeTransparent | drivers/bluetooth/hci_rtk_h5.c:242-302 | an encoded frame starts and ends with 0xc0, holds no 0xc0, 0x11 or 0x13 in between, and fits the (len + 6) * 2 + 2 bytes allocated |
| H5Frame.TrailerOnWire | drivers/bluetooth/hci_rtk_h5.c:278-299 | without the switch nothing follows the payload; with it two bytes follow that spell, bits reversed, the bit-serial remainder of header and payload from 0xffff |
| H5Endpoint.CullExact | drivers/bluetooth/hci_rtk_h5.c:385-410 | what is culled is the unique oldest prefix that the acknowledgement names, and nothing when it names none |
| H5Endpoint.PreparedFrame | drivers/bluetooth/hci_rtk_h5.c:207-272 | seven packet types are sent, each on the channel of its own number, commands, ACL data and events reliably with the next sequence number, all with the sender's CRC switch and acknowledgement |
| H5Endpoint.BareAcknowledgement | drivers/bluetooth/hci_rtk_h5.c:346-366 | with nothing else that may go, an owed acknowledgement goes out unreliably on channel 0 with no payload, and otherwise nothing |
| H5Endpoint.PassedUp | drivers/bluetooth/hci_rtk_h5.c:515-543 | SCO and vendor packets come up from their channels in any case, commands, ACL data and events only when sent reliably, with the channel number as type, and nothing else does |
| H5Endpoint.EnqueueConserves | drivers/bluetooth/hci_rtk_h5.c:164-196 | enqueueing keeps the law: acknowledged, unacknowledged and waiting packets together are those enqueued, in order |
| H5Endpoint.DequeueConserves | drivers/bluetooth/hci_rtk_h5.c:306-367 | sending keeps the law, with at most four unacknowledged, the next sequence number counting those sent and the timer running exactly while some are unacknowledged; the frame sent is well formed |
| H5Endpoint.ReceiveConserves | drivers/bluetooth/hci_rtk_h5.c:489-511 | receiving keeps it, and the acknowledged count grows by exactly the packets culled |
| H5Endpoint.TimedEventConserves | drivers/bluetooth/hci_rtk_h5.c:725-753 | the timeout keeps it: order and acknowledged count are unchanged |
| H5Receive.BufferBound | drivers/bluetooth/hci_rtk_h5.c:702-707 | skb length plus bytes still to come never exceeds the 0x1005 bytes allocated |
| H5Receive.SettleStepValid | drivers/bluetooth/hci_rtk_h5.c:621-674 | every loop round that consumes nothing keeps the receive state well formed and lowers a bounded rank |
| H5Receive.ConsumeValid | drivers/bluetooth/hci_rtk_h5.c:606-722 | every loop round that consumes a byte keeps the receive state well formed, the register being the CRC of the bytes so far |
| H5Receive.RecvConcat | drivers/bluetooth/hci_rtk_h5.c:596-722 | feeding a and then b is feeding a followed by b |
| H5Receive.SelfSynchronises | drivers/bluetooth/hci_rtk_h5.c:606-720 | from every well-formed receive state one 0xc0 ends in H5_W4_PKT_START with no live buffer |
| H5Receive.NoiseIgnored | drivers/bluetooth/hci_rtk_h5.c:677-688 | what arrives before the first 0xc0 of an opened link is ignored |
| H5Receive.EscapeEndsFrame | drivers/bluetooth/hci_rtk_h5.c:446-484 | after 0xdb a frame goes on with 0xdc to 0xdf only; any other byte ends it with no live buffer and no other effect |
| H5Receive.DamagedHeaderIsDropped | drivers/bluetooth/hci_rtk_h5.c:622-632 | a header with one byte changed is dropped with no other effect |
| H5Receive.BurstIsDropped | drivers/bluetooth/hci_rtk_h5.c:660-671 | a frame whose header and payload suffered one burst of up to 16 bits is dropped with no other effect |
| H5RoundTrip.FeedByte | drivers/bluetooth/hci_rtk_h5.c:421-487 | the parser unstuffs the stuffed form of any byte to that byte |
| H5RoundTrip.DeliverFrame | drivers/bluetooth/hci_rtk_h5.c:596-722 | one encoded frame, read by an idle parser, has exactly the effect and the output of the frame-level receive step |
| H5RoundTrip.PreparedComesUp | drivers/bluetooth/hci_rtk_h5.c:515-543 | a prepared packet in sequence comes up with its own type and payload, link-establishment and acknowledgement packets silently |
| H5RoundTrip.StreamRoundTrip | drivers/bluetooth/hci_rtk_h5.c:198-303 | the encodings of any list of packets, read by a receiver in sequence, come up as the same types and payloads in order, and the parser ends in H5_W4_PKT_START |
| H5Driver.H5.constructor | drivers/bluetooth/hci_rtk_h5.c:755-781 | the opened structure is the initial link state |
| H5Driver.H5.Enqueue | drivers/bluetooth/hci_rtk_h5.c:164-196 | the queues change as the value step says; too long or unknown packets are dropped |
| H5Driver.H5.PreparePkt | drivers/bluetooth/hci_rtk_h5.c:198-303 | counters move as the value step says and the skb holds the encoding of the prepared frame, or there is none for an unknown type |
| H5Driver.WriteBytes | drivers/bluetooth/hci_rtk_h5.c:278-292 | the byte loop appends the stuffed bytes and sums them exactly when the CRC is on |
| H5Driver.WriteFrame | drivers/bluetooth/hci_rtk_h5.c:274-302 | the buffer written is the encoding of the frame |
| H5Driver.H5.PktCull | drivers/bluetooth/hci_rtk_h5.c:376-419 | counting back and unlinking removes the prefix of the value step, and the timer stops when nothing is left |
| H5Driver.H5.Dequeue | drivers/bluetooth/hci_rtk_h5.c:306-327 | the next frame and the new state are those of the value step, unreliable packets first |
| H5Driver.H5.DequeueReliable | drivers/bluetooth/hci_rtk_h5.c:329-367 | then a reliable packet if the window has room, else an owed acknowledgement |
| H5Driver.H5.TimedEvent | drivers/bluetooth/hci_rtk_h5.c:725-753 | the loop puts everything unacknowledged back in front of the waiting packets and rolls the sequence number back by as many |
| H5Driver.H5.UnslipOneByte | drivers/bluetooth/hci_rtk_h5.c:421-487 | one byte into the skb as the value step says |
| H5Driver.H5.Acknowledge | drivers/bluetooth/hci_rtk_h5.c:494-511 | counters and queues after a completed frame |
| H5Driver.H5.CompleteRxPkt | drivers/bluetooth/hci_rtk_h5.c:489-588 | the whole link state after a completed frame, including what is handed up |
| H5Driver.H5.SettleOnce | drivers/bluetooth/hci_rtk_h5.c:621-674 | one round in a finished header, data or CRC state |
| H5Driver.H5.RecvRound | drivers/bluetooth/hci_rtk_h5.c:606-720 | a round either consumes the byte with the effect of the fold step, or consumes nothing, leaves the fold unchanged and lowers the count of rounds left |
| H5Driver.H5.Recv | drivers/bluetooth/hci_rtk_h5.c:596-722 | the loop terminates and its effect is the left fold over the bytes |
| H5Channel.RunConserves | drivers/bluetooth/hci_rtk_h5.c:164-753 | in every run of one endpoint, whatever bytes arrive, the receive state stays well formed and the conservation law holds of the commands and ACL data enqueued with at most 0xfff bytes |
| H5Channel.UnreliableConserved | drivers/bluetooth/hci_rtk_h5.c:164-327 | in every run of one endpoint the unreliable packets sent, followed by those waiting, are the packets enqueued of types 3, 0x0f, 0 and 0x0e with at most 0xfff bytes, in order |
| H5Channel.ReachableSelfSynchronises | drivers/bluetooth/hci_rtk_h5.c:606-720 | from every reachable state one 0xc0 reaches a clean frame start |
| H5Channel.AckExact | drivers/bluetooth/hci_rtk_h5.c:385-393 | an acknowledgement within the window culls exactly up to the unbounded count behind it, or nothing if that lies ahead of a rolled-back sender |
| H5Channel.SeqExact | drivers/bluetooth/hci_rtk_h5.c:633-647 | within the window, equal sequence numbers mod 8 mean equal indices |
| H5Channel.ReliableFrame | drivers/bluetooth/hci_rtk_h5.c:333-344 | a reliable frame sent carries the packet right after those outstanding |
| H5Channel.SenderTakes | drivers/bluetooth/hci_rtk_h5.c:376-419 | an arriving acknowledgement keeps the invariant of the direction |
| H5Channel.ReceiverTakes | drivers/bluetooth/hci_rtk_h5.c:633-651 | an arriving data frame keeps it, accepted or not |
| H5Channel.SenderTimesOut | drivers/bluetooth/hci_rtk_h5.c:725-753 | a timeout keeps it, whatever is still on the lines |
| H5Channel.ApplyKeepsInv | drivers/bluetooth/hci_rtk_h5.c:164-753 | every event at either side, losses included, keeps the invariant of both directions |
| H5Channel.RunMonotone | drivers/bluetooth/hci_rtk_h5.c:376-419 | in every run, at both sides, acknowledged packets never come back |
| H5Channel.RunDelivers | drivers/bluetooth/hci_rtk_h5.c:164-753 | in every run, both ways: what was accepted is a prefix of what was enqueued, what the sender has forgotten is a prefix of that, and the rest is still queued in order |
| H5Wire.RunKeepsLines | drivers/bluetooth/hci_rtk_h5.c:198-303 | in every run, every frame on a line can be encoded |
| H5Wire.RunAsOpened | drivers/bluetooth/hci_rtk_h5.c:198-272 | in every run every frame on a line carries a CRC exactly when its sender was opened with the switch, and is reliable exactly on channels 1, 2 and 4 |
| H5Wire.DeliveryIsRecv | drivers/bluetooth/hci_rtk_h5.c:596-722 | in every frame-level run, parsing the bytes of the oldest frame towards side A is the one delivery step there |
| H5Bytes.ChunkIsRecv | drivers/bluetooth/hci_rtk_h5.c:596-722 | taking n bytes off a line is one call of the receive loop on its next n bytes |
| H5Bytes.Silent | drivers/bluetooth/hci_rtk_h5.c:606-720 | a byte that leaves the parser inside a frame touches no queue or counter, and depends on none but the next expected number |
| H5Bytes.ReadingByte | drivers/bluetooth/hci_rtk_h5.c:606-720 | a byte of a frame either has no effect, or has the whole effect of the frame, the rest being skipped |
| H5Bytes.ReadingCutShort | drivers/bluetooth/hci_rtk_h5.c:606-720 | a frame whose rest is lost, wherever it is cut, has its whole effect or none by the delimiter of the next one, which is then read from its start |
| H5Bytes.RunSim | drivers/bluetooth/hci_rtk_h5.c:164-753 | every run of two byte parsers on byte lines, chunks cut anywhere and the rest of any frame lost, is matched by a run of the frame-level system |
| H5Bytes.BytesDeliver | drivers/bluetooth/hci_rtk_h5.c:164-753 | so in every such run, frames lost whole or cut short anywhere, what each side passes up reliably is a prefix of what the other enqueued, and nothing is forgotten before it was accepted |
| H5Progress.BurstShape | drivers/bluetooth/hci_rtk_h5.c:306-367 | sending until nothing is left sends the unreliable packets, then consecutive reliable ones up to the window, every frame carrying the current acknowledgement |
| H5Progress.SendsUpToFour | drivers/bluetooth/hci_rtk_h5.c:329-367 | sending until nothing is left fills the window of four, in order, and empties the unreliable queue |
| H5Progress.CatchesUp | drivers/bluetooth/hci_rtk_h5.c:633-651 | a receiver already ahead of a rolled-back sender still ends exactly past its burst |
| H5Progress.AnswerHeardExact | drivers/bluetooth/hci_rtk_h5.c:633-647 | when some frame of an answer is not refused as out of order, told from the counters before it is sent |
| H5Progress.ExchangeIsRun | drivers/bluetooth/hci_rtk_h5.c:306-367 | a loss-free exchange is a run of sends and deliveries |
| H5Progress.ProgressExactly | drivers/bluetooth/hci_rtk_h5.c:306-419 | from every reachable state with empty lines, one timeout and one exchange acknowledge min(4, outstanding) packets if the test on both ends' queues and counters holds beforehand, and none if not |
| H5Progress.AnsweredIsHeard | drivers/bluetooth/hci_rtk_h5.c:376-419 | that test, made before anything is sent, tells whether the answer the peer gives at the end is heard |
| H5Progress.TakeUnack | drivers/bluetooth/hci_rtk_h5.c:376-419 | frames that all carry one acknowledgement cull once, at the first of them that is in order |
| H5Progress.ProgressWhenPeerQuiet | drivers/bluetooth/hci_rtk_h5.c:306-419 | in particular always when the peer has nothing reliable waiting, or something unreliable |
| H5Progress.StuckIsReachable | drivers/bluetooth/hci_rtk_h5.c:306-367 | the state of the counterexample is reached by a run |
| H5Progress.ProgressCanFail | drivers/bluetooth/hci_rtk_h5.c:633-647 | a reachable state in which the timeout and exchange acknowledge nothing |
| H5Progress.ExchangeMonotone | drivers/bluetooth/hci_rtk_h5.c:376-419 | an exchange takes no acknowledgement back, at either side |
| H5Progress.SecondExchange | drivers/bluetooth/hci_rtk_h5.c:376-419 | after an unheard exchange a bare acknowledgement frees the peer's window and the next answer is heard |
| H5Progress.AlwaysProgresses | drivers/bluetooth/hci_rtk_h5.c:725-753 | from every reachable state with empty lines, timeouts at both sides, two exchanges, a timeout and one more exchange acknowledge at least min(4, outstanding) packets |
| H5Progress.EverythingArrives | drivers/bluetooth/hci_rtk_h5.c:164-753 | from every reachable state, once losses stop, everything enqueued is accepted in order, both ways, and both queues are empty after as many such recoveries as a quarter of the packets outstanding |
| H5Progress.DrainedIsRun | drivers/bluetooth/hci_rtk_h5.c:164-753 | those recoveries are a run of the system without losses and without anything enqueued |
| CmaRegions.ThisRegionSize | drivers/ansc_adaptor/cma_non_cacher.c:32-40 | the halving loop finds the greedy size |
| CmaRegions.GenerateMemMap | drivers/ansc_adaptor/cma_non_cacher.c:25-62 | the slots hold the first greedy regions, the others are untouched, and the reported rest is the size less what was mapped |
| CmaRegions.PickIsLargest | drivers/ansc_adaptor/cma_non_cacher.c:34-40 | the size chosen is the largest aligned one that fits |
| CmaRegions.TilesExactly | drivers/ansc_adaptor/cma_non_cacher.c:29-57 | the map tiles the range exactly with aligned power-of-two blocks from 32K to 4G if and only if start and size are multiples of 32K and the size is not zero |
| CmaRegions.ZeroSizeMapsOne | drivers/ansc_adaptor/cma_non_cacher.c:31-52 | a size of zero maps exactly one 32K region, which is not a tiling of nothing |
| CmaRegions.GreedyIsMinimal | drivers/ansc_adaptor/cma_non_cacher.c:33-40 | no cover of the range by such blocks, in any order and even overlapping, uses fewer |
| CmaRegions.TilingCovers | drivers/ansc_adaptor/cma_non_cacher.c:33-40 | every exact tiling is such a cover |
| CmaRegions.PrefixTiles | drivers/ansc_adaptor/cma_non_cacher.c:57-61 | when the slots run out, the mapped regions tile the beginning of the range exactly |
| BtusbReassembly.HciDev.constructor | drivers/bluetooth/rtk_btusb.c:682-683 | every slot starts empty |
| BtusbReassembly.HciDev.HciReassembly | drivers/bluetooth/rtk_btusb.c:871-990 | one call takes the bytes up to the end of one frame: the slot left, the frame handed on and the bytes left over are those of the byte-by-byte step, whatever tailroom (at least what was asked for) the skbs have; the other slots are untouched; something is always still expected and always fits |
| BtusbReassembly.HciDev.HciRecvFragment | drivers/bluetooth/rtk_btusb.c:992-1009 | one chunk leaves the slot, the frames and the result that taking it byte by byte does; an unknown type changes nothing |
| BtusbReassembly.TakeConcat | drivers/bluetooth/rtk_btusb.c:992-1009 | a chunk may be cut anywhere as long as its first part does not fail |
| BtusbReassembly.FragmentationIndependent | drivers/bluetooth/rtk_btusb.c:871-1009 | however a stream is cut, the same frames come out and the same partial frame is left, unless taking it whole throws bytes away |
| BtusbReassembly.CutMatters | drivers/bluetooth/rtk_btusb.c:947-951 | otherwise some cut leaves another partial frame |
| BtusbReassembly.IndependentExactly | drivers/bluetooth/rtk_btusb.c:871-1009 | for every tailroom the skbs may have, cutting never matters if and only if nothing follows a header that announces more than fits |
| BtusbReassembly.OversizedLosesByte | drivers/bluetooth/rtk_btusb.c:942-953 | an ACL header announcing 0xffff bytes with one byte behind it: taken at once the byte is lost, in a chunk of its own it is kept |
| BtusbReassembly.TakeIsParse | drivers/bluetooth/rtk_btusb.c:871-1009 | when every announced frame fits, the frames are those the headers cut the stream into and the rest stays in the slot; when one does not, the failure is reported |
| BtusbReassembly.WellFormedExactly | drivers/bluetooth/rtk_btusb.c:928-965 | what a whole frame is: the length stands in bytes 2 and 3 of ACL data, low byte first, in byte 2 of SCO data, in byte 1 of an event, and the frame fits its skb |
| BtusbReassembly.RefusedExactly | drivers/bluetooth/rtk_btusb.c:928-965 | a complete header is refused if and only if the frame it announces is longer than its skb |
| BtusbReassembly.AclDelivered | drivers/bluetooth/rtk_btusb.c:941-953 | every ACL payload that fits is delivered behind its header, the length low byte first |
| BtusbReassembly.ScoDelivered | drivers/bluetooth/rtk_btusb.c:955-967 | every SCO payload that fits is delivered behind its header |
| BtusbReassembly.EventDelivered | drivers/bluetooth/rtk_btusb.c:929-939 | every event is delivered |
| BtusbReassembly.FramesRoundTrip | drivers/bluetooth/rtk_btusb.c:871-1009 | the concatenation of whole frames comes out as those frames |
| BtusbReassembly.ChunkedRoundTrip | drivers/bluetooth/rtk_btusb.c:992-1009 | the same in whatever chunks they arrive |
| BtusbQueue.RtkQueue.constructor | drivers/bluetooth/rtk_btusb.c:499-501 | the ring starts empty |
| BtusbQueue.RtkQueue.Enqueue | drivers/bluetooth/rtk_btusb.c:503-521 | the packet is added behind, or dropped when 499 are held |
| BtusbQueue.RtkQueue.IsQueueEmpty | drivers/bluetooth/rtk_btusb.c:552-555 | the indices are equal exactly when nothing is held |
| BtusbQueue.RtkQueue.DequeueTry | drivers/bluetooth/rtk_btusb.c:523-550 | the front packet comes back whole and leaves the queue whole, or only the bytes asked for leave it |
| BtusbQueue.RtkQueue.Clear | drivers/bluetooth/rtk_btusb.c:557-572 | the ring is empty afterwards |
| BtusbQueue.RtkQueue.Read | drivers/bluetooth/rtk_btusb.c:1107-1148 | a read returns as much of the front packet as fits and leaves the rest in front |
| BtusbQueue.ReadConserves | drivers/bluetooth/rtk_btusb.c:523-550 | a read returns min(count, length of the front packet) bytes; they, followed by what stays, are what was queued; the packet leaves with its last byte and those behind it are untouched |
| BtusbQueue.StreamConserved | drivers/bluetooth/rtk_btusb.c:503-572 | for every interleaving, bytes read followed by bytes queued are the bytes of the packets accepted since the last clear, and at most 499 packets are held |
| BtusbQueue.FirstKept | drivers/bluetooth/rtk_btusb.c:503-521 | packets arriving while nothing is read: the first 499 are kept, in order |
| BtusbQueue.Drains | drivers/bluetooth/rtk_btusb.c:1119-1145 | reads of any size but zero return everything accepted, the queue running empty with exactly as many reads as its packets need, an empty packet needing one |
| BtusbFirmware.DownloadData | drivers/bluetooth/rtk_btusb.c:2499-2595 | whatever the sends and replies, fragments go out in increasing order, each at most once and never beyond the credit granted; nothing happens after a failed send, a failed receive, a status other than 0 or the last index, and the result is the error, -1 or the length accordingly; against a controller that echoes every index the exact list sent is given |
| BtusbFirmware.AwaitBatch | drivers/bluetooth/rtk_btusb.c:2544-2564 | the download goes on if and only if every event of the batch came, with status 0 and not the last index; otherwise the first that did not ends it, with its error or the length |
| BtusbFirmware.VerdictHolds | drivers/bluetooth/rtk_btusb.c:2533-2564 | what the result tells step by step, in the numbers of the protocol: status not 0 gives -1, index 0x80 or more or that of the last fragment the length, and in either case nothing follows |
| BtusbFirmware.DownloadExactly | drivers/bluetooth/rtk_btusb.c:2499-2595 | against such a controller the full length is returned in any case, and the whole image was sent if and only if every batch-ending event granted a command |
| BtusbFirmware.ZeroGrantLosesImage | drivers/bluetooth/rtk_btusb.c:2566-2594 | an image of 253 bytes and a first grant of zero: 252 bytes are sent and 253 returned |
| BtusbFirmware.ReachExactly | drivers/bluetooth/rtk_btusb.c:2566-2569 | the fragments sent reach the end if and only if credit keeps coming |
| BtusbFirmware.FragsCarryImage | drivers/bluetooth/rtk_btusb.c:2514-2527 | the data of all fragments concatenates to the image |
| BtusbFirmware.FragSizes | drivers/bluetooth/rtk_btusb.c:2514-2527 | there are len / 252 + 1 fragments, all of 252 bytes but the last, which has the remainder |
| BtusbFirmware.FragIndices | drivers/bluetooth/rtk_btusb.c:2518-2523 | the first index is 0, the others lie in 1 to 127, and only the last carries the end mark |
| DmcGovernor.NoOverflow | drivers/devfreq/sun55iw3-devfreq.c:669-685 | after the shift by 7 no product of the load comparison exceeds 32 bits, none of the scaling exceeds 64, and no divisor is zero |
| DmcGovernor.Devfreq.GetDevStatus | drivers/devfreq/sun55iw3-devfreq.c:442-493 | the sample taken: 64 or 32 counts for each word of traffic, the total eight a kHz of the clock rate itself, the busy time clamped to it |
| DmcGovernor.Devfreq.GetTarget | drivers/devfreq/sun55iw3-devfreq.c:627-715 | on the clock rate and traffic it receives: -EINVAL for unusable thresholds, the maximum with nothing to divide by, more exactly above the band, less exactly below it, in the driver's own units and thresholds; the sample is shifted in place exactly when the decision gets that far |
| DmcGovernor.Decided | drivers/devfreq/sun55iw3-devfreq.c:627-715 | the same of the decision function: thresholds 90 and 5 unless set and 20 lower on freq[0], the direction by 100 * busy against total * up, what is asked for instead the largest frequency carrying the demand at the middle of the band |
| DmcGovernor.Devfreq.ChooseTarget | drivers/devfreq/sun55iw3-devfreq.c:675-714 | on samples the driver takes, strictly more than the current frequency exactly above the band, strictly less exactly below it |
| DmcGovernor.Devfreq.ScaledFreq | drivers/devfreq/sun55iw3-devfreq.c:706-711 | the result is the largest frequency that the demand covers at the load aimed at |
| DmcGovernor.SampleIsClocked | drivers/devfreq/sun55iw3-devfreq.c:457-490 | every sample leaves the clock at least 125 cycles a second for each unit of a total divisible by eight, or 16000 after the overflow shift |
| DmcGovernor.RaisesAbove | drivers/devfreq/sun55iw3-devfreq.c:675-684 | a raise always asks for strictly more, for every pair of thresholds, shifted or not |
| DmcGovernor.DropsBelow | drivers/devfreq/sun55iw3-devfreq.c:705-711 | a drop always asks for strictly less |
| DmcGovernor.MovesTheRightWay | drivers/devfreq/sun55iw3-devfreq.c:627-715 | through the whole decision, for every rate of at least 1 kHz and every load: more exactly above the band, the same exactly in it, less exactly below it |
| DmcGovernor.MaximumExactly | drivers/devfreq/sun55iw3-devfreq.c:663-667 | the maximum is asked for if and only if the rate is below 1 kHz or there is no load |
| DmcGovernor.UnknownFrequency | drivers/devfreq/sun55iw3-devfreq.c:663-694 | an unknown frequency of zero asks for the maximum under every load, as the comment says |
| DmcGovernor.BandExactly | drivers/devfreq/sun55iw3-devfreq.c:675-711 | the frequency asked for puts the demand inside (up - diff, up] if and only if there is some and it covers the least frequency at which it is a load of at most up percent |
| DmcGovernor.BandWithoutSlack | drivers/devfreq/sun55iw3-devfreq.c:678-683 | with a differential of 1 that means that neither division leaves a remainder |
| DmcGovernor.DemandExact | drivers/devfreq/sun55iw3-devfreq.c:675-683 | at a whole number of kHz, nothing shifted, the first division leaves none: the demand is 125 times the busy count |
| DmcGovernor.BandOnSamples | drivers/devfreq/sun55iw3-devfreq.c:675-711 | there the frequency asked for is in the band if and only if a whole frequency carries the load between the middle of the band and its upper end |
| DmcGovernor.ScaledInBand | drivers/devfreq/sun55iw3-devfreq.c:675-711 | with a differential of at least 2 it always is, on every sample with two units of load left after the shift |
| DmcGovernor.DropCanMissBand | drivers/devfreq/sun55iw3-devfreq.c:675-711 | at thresholds 90 and 1, 1 MHz and a load of 4000, a drop to 555555 Hz lands outside the band |
| DmcGovernor.RepeatsExactly | drivers/devfreq/sun55iw3-devfreq.c:696-703 | a request repeats itself if and only if the load is in the band of the clock rate under the threshold in force there |
| DmcGovernor.Stable | drivers/devfreq/sun55iw3-devfreq.c:627-715 | two calls under one load, each with the threshold of its own rate: the second repeats the first if and only if the load is in the band of the frequency asked for |
| DmcGovernor.KeptRange | drivers/devfreq/sun55iw3-devfreq.c:696-703 | nothing shifted, the rates whose band holds a load are those between two given numbers of kHz |
| DmcGovernor.NextCallKeeps | drivers/devfreq/sun55iw3-devfreq.c:627-715 | whether the second call repeats the first, told from the first sample: exactly when its demand covers the lowest of those rates and not the one after the highest |
| DmcGovernor.SettlesAtOnce | drivers/devfreq/sun55iw3-devfreq.c:627-715 | from a whole number of kHz, with a load from 800 to the total, a differential of at least 2 and one threshold, the second call repeats the first |
| DmcGovernor.SecondCallMoves | drivers/devfreq/sun55iw3-devfreq.c:675-711 | at thresholds 90 and 1 and a load of 4000, the requests from 1 MHz are 555555, then 556111, then that again |
| DmcGovernor.FlapsForever | drivers/devfreq/sun55iw3-devfreq.c:637-651 | at thresholds 90 and 5, freq[0] 500 MHz and a load of 3520000, from 880 MHz on the requests alternate between 500 and 647 MHz for ever |
| BtSleep.Bluesleep.constructor | drivers/bluetooth/bcm_btlpm.c:187-195 | the globals before any event, a valid state |
| BtSleep.FallsAsleepExactly | drivers/bluetooth/bcm_btlpm.c:187-218 | of all events only the sleep work puts an awake machine to sleep, and exactly when the UART is drained and sleep is possible |
| BtSleep.Bluesleep.BluesleepSleepWork | drivers/bluetooth/bcm_btlpm.c:201-233 | keeps a valid state; with sleep possible and the UART drained it ends asleep with the UART off, with sleep impossible awake with it on and, if it was asleep, the timer running |
| BtSleep.Bluesleep.BluesleepOutgoingData | drivers/bluetooth/bcm_btlpm.c:257-276 | asserts the wake line, and from a valid state ends awake with the UART on; with the line already asserted nothing changes |
| BtSleep.Bluesleep.BluesleepTxAllowSleep | drivers/bluetooth/bcm_btlpm.c:449-457 | keeps a valid state, and with nothing else holding sleep back the next work puts the machine to sleep |
| BtSleep.Bluesleep.BluesleepRxTimerExpire | drivers/bluetooth/bcm_btlpm.c:464-469 | the same for the expiry of the timer |
| BtSleep.Bluesleep.BluesleepStart | drivers/bluetooth/bcm_btlpm.c:489-530 | the result is 0 exactly when the protocol runs afterwards; open count and protocol bit keep their balance on every path; a successful start of an awake machine gives a valid state, wake line asserted and timer running |
| BtSleep.Bluesleep.BluesleepStop | drivers/bluetooth/bcm_btlpm.c:535-562 | from a valid state the protocol is off, the machine awake with the UART on, and the count back at one; otherwise nothing changes when the protocol was off |
| BtSleep.Bluesleep.BluesleepWriteProcLpm | drivers/bluetooth/bcm_btlpm.c:304-334 | from a valid state: turned off, awake with the UART on and no port; turned on, the protocol runs, unless the request failed, which exposes the machine exactly for a bound port with the timer flag clear |
| BtSleep.StepKeepsInv | drivers/bluetooth/bcm_btlpm.c:187-562 | every step but an enabling one whose interrupt request fails keeps the invariant |
| BtSleep.RunKeepsInv | drivers/bluetooth/bcm_btlpm.c:187-562 | in every run where interrupt requests succeed: asleep only under the protocol, on a bound port, wake line released and UART off; off only when asleep; open count and protocol bit balance; timer flag only with the timer pending |
| BtSleep.IrqFailureBreaks | drivers/bluetooth/bcm_btlpm.c:322-330 | a run with a failed request that ends asleep outside the protocol, the UART off |
| BtSleep.StepBreaksExactly | drivers/bluetooth/bcm_btlpm.c:187-562 | also with failed requests, a step breaks the promises if and only if the sleep work stops the UART of a port whose protocol is not running |
| BtSleep.RunBreaksExactly | drivers/bluetooth/bcm_btlpm.c:187-562 | over all runs, with any number of failed requests, the promises hold throughout if and only if no step does that |
| BtSleep.SafeExactly | drivers/bluetooth/bcm_btlpm.c:187-562 | no further request failing, the promises hold for ever if and only if there is no bound port without protocol and with the timer flag clear |
| BtSleep.LostExactly | drivers/bluetooth/bcm_btlpm.c:322-330 | no step from a good state breaks the promises itself; they hold in every continuation without a further failed request if and only if the step is not a failed request for a bound port with the timer flag clear |
| BtSleep.PortlessFailureHarmless | drivers/bluetooth/bcm_btlpm.c:322-330 | a failed request without a port costs the bookkeeping, never the promises |
| BtSleep.AwakeUntilExpiry | drivers/bluetooth/bcm_btlpm.c:223-228 | once the timer flag is set, nothing but the expiry allows sleep |
| BtSleep.NoSleepAfterWake | drivers/bluetooth/bcm_btlpm.c:219-229 | after a wake through the sleep work there is no sleep before a timer expiry |
| BtSleep.DataFindsUartOn | drivers/bluetooth/bcm_btlpm.c:257-276 | outgoing data finds the UART running |
| BtSleep.CanAlwaysSleep | drivers/bluetooth/bcm_btlpm.c:201-218 | with the lines released and the timer expired, the sleep work stops the UART |
| BtSleep.HostWakes | drivers/bluetooth/bcm_btlpm.c:219-229 | the host-wake line wakes it again, with the timer running |
| HashPadding.HashCtx.SwPadding | drivers/ce/sunxi_ce_proc_comm.c:196-242 | the pad holds tail, 0x80, zeros and length, one or two blocks long and inside the buffer, the bytes behind untouched |
| HashPadding.HashCtx.StoreLength | drivers/ce/sunxi_ce_proc_comm.c:218-235 | the two stores put the 64-bit bit length in the byte order of the hash, nothing else changes |
| HashPadding.FewestZeros | drivers/ce/sunxi_ce_proc_comm.c:210-216 | the zeros of the standard are the fewest that end on a block boundary |
| HashPadding.LengthBytesStandard | drivers/ce/sunxi_ce_proc_comm.c:202-235 | the eight bytes written end the standard's length field, whose other bytes are zero |
| HashPadding.PadsAsStandard | drivers/ce/sunxi_ce_proc_comm.c:196-242 | the whole blocks of the message followed by the pad are the message padded as the standard says, for every hash whose block size is configured in |
| HashPadding.PaddedInjective | drivers/ce/sunxi_ce_proc_comm.c:196-242 | different messages stay different when padded |

## Left out

- Locks, reference counts and skb allocation failure: each locked section of the link is one atomic step. In `bcm_btlpm.c` every handler is one atomic step although `bluesleep_sleep_work` takes no lock and `bluesleep_outgoing_data` raises the UART after unlocking; interleavings inside handlers are not modelled.
- The dangling `rx_skb` pointer after `kfree_skb` is a state of its own (`Freed`); that it is never dereferenced follows from the typing of the model.
- H5 link establishment (its handler is commented out in `h5_complete_rx_pkt`), BTCOEX hooks and `h5_close`.
- Frame corruption on the two-endpoint lines, of frames or of bytes: a corrupted frame counts as lost there, an skb is lost whole or from some byte on, and detection is proved on the CRC and the header checksum. The header masks and shifts are written as divisions and remainders.
- `set_default_cma_non_cache`, which maps the regions; `generate_mem_map` alone is modelled. `start & (size - 1)` is written as a remainder, and a slot count of zero or less as an array of length zero.
- H5Progress.ProgressExactly: the lines must be empty beforehand, as frames still under way may be acknowledged or refused in any order.
- CmaRegions.TilesExactly: assumes start + size does not exceed 2^64; past that the C addresses wrap, and the method is still proved to follow them.
- BtusbReassembly.HciDev.HciReassembly: every skb of one packet type has the same tailroom, any number not below the size asked for. Four slots are modelled, as in kernels from 2.6.38 on. Allocation failure is left out, and frames are recorded instead of passed to the HCI core or the sound card.
- BtusbQueue.RtkQueue.Read: a reader that would sleep gets None, a failing copy to user space is left out, and so is a failing `pskb_copy`.
- BtusbFirmware.DownloadData: the results of `send_hci_cmd` and `rcv_hci_evt` are inputs; their retries, USB transfers and the choice and parsing of firmware files are not modelled.
- DmcGovernor.NextCallKeeps: a request is taken as the rate set, the two calls see the same load, and the two readings of the clock in one sample agree; the rounding to an operating point and the 1 MHz added to the request in `sunxi_dmc_target`, the counters and their interrupt are left out. Rates are 32-bit values, `pooling_ms` is 1, and on freq[0] a threshold below 20 wraps as in C. It and `KeptRange` are for rates whose total is below 2^24; `Stable` is for all.
- BtSleep.RunKeepsInv: wakeup sources, removal and suspend are left out; lines are asserted or not, whatever their polarity. BT_RXTIMER is bit 32 of the flags, which needs a 64-bit `unsigned long`.
- HashPadding.PadsAsStandard: byte counts below 2^32, so the upper 64 bits of the SHA-384 and SHA-512 length are the zeros already written; the CPU is little endian; `ss_hash_hw_padding`, the scatterlists and the hardware are left out.
- `drivers/dma/sunxi-ndma.c`, the NSI and NPD drivers, crypto registration, cpufreq tables and the other register plumbing: only easy properties.
