# Orazio: communication and control, verified in Dafny

A model of the software of the Orazio mobile robot: the serial protocol between the host and the
firmware, and the control loops that it drives. Run `dafny verify dfyconfig.toml`.

Code that changes things step by step is modelled by classes with the fields of the source and by methods
with its loops and branches. Each method is proved to make exactly one step, or run, of a machine on values;
the properties are proved about the machines, for all inputs, runs and interleavings. Automatic induction is off in
every lemma: each induction is spelled out.

## How it is organised

| file | what |
|---|---|
| `Words.dfy`, `Packets.dfy`, `Ring.dfy` | bytes with XOR, 16-bit words, the frame format, ring indices |
| `Receiver.dfy`, `Delivery.dfy` | the receiver as a machine; refinement of a batch parser, round trip, corruption, resynchronisation |
| `Transmit.dfy` | the transmit ring; conservation and the round trip through ring and receiver |
| `PacketHandler.dfy` | `packet_handler.c`: the object with receive variables and ring |
| `Deferred.dfy` | deferred dispatch as a machine; exactly once, order, when nothing is lost |
| `DeferredHandler.dfy` | `deferred_packet_handler.c`: packets received in place, and the pool invariant behind its two assertions |
| `Leaks.dfy`, `Refusal.dfy`, `Forgery.dfy` | what comes out of a refused frame, and exactly when nothing does; streams with refused frames; a run in which the firmware forges |
| `Messages.dfy`, `Layout.dfy`, `Firmware.dfy` | the packets, their packed structures, the communication cycle of the firmware |
| `Settings.dfy`, `Reports.dfy`, `Epochs.dfy` | what handling a packet sends and changes; what a cycle reports; epochs and capacity |
| `Protocol.dfy` | host and firmware joined by two byte channels |
| `Client.dfy`, `Comm.dfy` | `orazio_client.c` and `orazio_comm.c` as objects on those machines |
| `Snapshot.dfy` | sync and blocking sends in runs of host and firmware |
| `Queue.dfy`, `Logger.dfy` | `queue.h` and the three threads of `orazio_logger.c` |
| `Encoder.dfy`, `Joint.dfy`, `Drive.dfy` | quadrature decoding, the PID of a joint, the differential drive |
| `Watchdog.dfy`, `MainLoop.dfy`, `Sonar.dfy` | main loop, watchdog and drive arbitration; the sonar schedule |
| `Reception.dfy` | protocol and main loop joined |

## The main results

- Framing: `Receiver.ReceiverRefinesParser`, `Transmit.RingRoundTrip`, `Delivery.CorruptionDetected`,
  `Delivery.ResyncThenDeliver`.
- Deferred dispatch: `Deferred.ExactlyOnceInOrder`, `Deferred.LosslessIff`, and the methods `RxBase`,
  `RxByte` and `ProcessPendingPackets` of the object, in which both assertions of the source are proved.
- Refused frames: `Leaks.RefusedCleanIff`, `Refusal.NothingForged`.
- Protocol: `Snapshots.BlockingSend`, `Protocol.EchoOfCycle`, `Snapshots.SyncSnapshot`, `Epochs.DriveOnlyNeverRefuses`,
  `Settings.SetThenRequest`, `Reports.ReceivedIffDue`, `Protocol.QueuedLeaves`.
- Logger: `Logger.LoggerSafe`, `Logger.LostExactly`.
- Control: `Encoders.CounterIsDisplacement`, `Joints.RunIsIdeal`, `Joints.SpeedsConserve`, `Drives.RoundTripBound`,
  `Drives.LoopSettles`, `Watchdog.WatchdogTrips`, `Watchdog.Arbitration`, `Watchdog.OnMeansCommanded`, `Sonars.Fair`.

## Where the code does less than one expects

The model follows the code. Each of these is a lemma.

- A frame refused for lack of a buffer is not skipped: the receiver goes on scanning inside it and can deliver a
  packet nobody sent (`Forgery.FirmwareForges` is a run of the firmware). Which frames are harmless is decided
  exactly (`Leaks.RefusedCleanIff`). The protocol results hold for runs that are calm (`Protocol.Calm`): the frames
  that were actually refused are of that kind, and the host made fewer than 65536 sends.
- Seven types with two buffers each are more than the eight places of the pending list, so a checksum-valid packet
  can be dropped in silence (`Deferred.LosslessIff`).
- Installing a deferred type twice returns an error but has replaced its size and buffers
  (`DeferredHandlers.DeferredPacketHandler.InstallPacket`).
- The logger can end without writing records of its last round (`Logger.RecordsCanBeLost`; `Logger.LostExactly` says
  which and when).
- The ramp of a joint runs to the wrong side when desired minus measured speed leaves 16 bits (`Joints.RampBetweenIff`).
- The braking parameter, called an acceleration threshold in a comment of the code, is not multiplied by the time step
  as accelerations are (`Drives.BrakeStopsIff`).
- A watchdog of one cycle also stops a robot that is being talked to (`Watchdog.HeardTripsIff`); one of 32768 cycles or more
  never trips (`Watchdog.LargeNeverTrips`).
- Sync stops sending the drive command when the number of the host comes to 0, at every 65536th send, until the
  command is set again (`Clients.CommandAfterIs`).
- A reinitialisation of the drive forgets a drive command of the same cycle (`Watchdog.Arbitration`).
- With more than 256 communication cycles the drive computes with another period than the timer keeps (`Watchdog.PeriodIff`).

## Model

| member | source | states |
|---|---|---|
| `Packets.XorUpdate` | orazio_lib/src/common/packet_handler.c:128-143 | Replacing one byte of a byte string by a different one always changes its XOR checksum. |
| `Receiver.PayloadLength` | orazio_lib/src/common/packet_handler.c:107 | How many bytes are read as payload for a received size, with the wrap of the byte counter: size - 2 for every size of 3 or more, always between 1 and 256. |
| `Receiver.RunCandidate` | orazio_lib/src/common/packet_handler.c:74-143 | A frame of an installed type and size with a free buffer is accepted if and only if its checksum is the XOR from type through payload; otherwise the last byte returns ChecksumError; either way the receiver is idle again. |
| `Receiver.RunIsParse` | orazio_lib/src/common/packet_handler.c:50-143 | The byte-at-a-time receiver delivers what a recursive parser over the whole byte string finds, for every operation table. |
| `Receiver.ChunksAreOneRun` | orazio_lib/src/common/packet_handler.c:50-53 | However a stream is cut into chunks, feeding them one after the other is feeding the whole. |
| `Receiver.ReceiverRefinesParser` | orazio_lib/src/common/packet_handler.c:50-143 | For every byte sequence and every split into chunks the delivered packets are those of the parser. |
| `Receiver.SyncChecksumMarksParse` | orazio_lib/src/common/packet_handler.c:128-143 | SyncChecksum is returned on exactly the bytes that complete a packet for the parser; on_receive gets that packet, and no other byte brings one. |
| `Delivery.FrameDelivered` | orazio_lib/src/common/packet_handler.c:55-143 | The frame of an expected packet, met idle and with a buffer, is delivered byte for byte. |
| `Delivery.CorruptionDetected` | orazio_lib/src/common/packet_handler.c:116-143 | One sequence, payload or checksum byte replaced: nothing is delivered, the last byte returns ChecksumError, the receiver is idle. |
| `Delivery.RefusedQuiet` | orazio_lib/src/common/packet_handler.c:98-105 | A frame refused for lack of a buffer leaves no trace if no byte after its size is 0xAA. |
| `Delivery.RefusedFrameForges` | orazio_lib/src/common/packet_handler.c:98-105 | The receiver scans the body of a refused frame: a frame it finds there, and gets a buffer for, is delivered although nobody sent it, whatever the other buffer answers are. |
| `Delivery.CompleteIsExact` | orazio_lib/src/common/packet_handler.c:161-180 | The number of frames that lie wholly within a prefix of the stream is neither too large nor too small. |
| `Delivery.RoundTrip` | orazio_lib/src/common/packet_handler.c:161-180 | Sending then receiving: a stream of frames, cut anywhere, yields the packets whose frames are complete; the whole stream yields them all and leaves the receiver idle. |
| `Delivery.KeptIsDrawn` | orazio_lib/src/common/packet_handler.c:98-142 | What is delivered from a stream is contained, as a multiset, in what was sent. |
| `Delivery.StepSound` | orazio_lib/src/common/packet_handler.c:74-143 | Every byte keeps the invariant of the receive variables, and a delivered packet has an installed type and its size. |
| `Delivery.RankDrops` | orazio_lib/src/common/packet_handler.c:55-143 | A rank of the receive state strictly falls with every byte other than 0xAA, outside the idle state. |
| `Delivery.ResyncThenDeliver` | orazio_lib/src/common/packet_handler.c:55-143 | From every reachable state, 256 bytes without 0xAA bring the receiver to idle, and the next frame of an installed type with a buffer is delivered. |
| `Delivery.ResyncBoundIsTight` | orazio_lib/src/common/packet_handler.c:55-143 | The bound is real: 255 bytes without 0xAA can leave the receiver inside a frame. |
| `Leaks.CleanIff` | orazio_lib/src/common/packet_handler.c:55-143 | For bytes an idle receiver scans, over all answers to its requests for a buffer: it delivers nothing and does not end inside a frame, for all answers, if and only if the bytes pass a check (Leaky) that anyone can make on them. |
| `Leaks.RefusedCleanIff` | orazio_lib/src/common/packet_handler.c:98-105 | Exactly when a refused frame is harmless: for all answers nothing comes out of it and the receiver waits for the next frame, if and only if the bytes after its size are not leaky. |
| `Leaks.TracelessIff` | orazio_lib/src/common/packet_handler.c:64-72 | Unless the size is 0xAA the same condition covers a frame that the receiver enters awake, after a last byte 0xAA of the frame before. |
| `Leaks.NoPairIsClean` | orazio_lib/src/common/packet_handler.c:55-72 | Bytes without the pair AA 55 are never leaky. |
| `Forgery.FirmwareForges` | orazio_lib/src/common/packet_handler.c:98-105 | A run of the firmware that forges: three drive-parameter frames in one cycle, the third refused and spelling the frame of a drive command; that command, any one, waits to be handled though it was never sent. |
| `Ring.PutAppends` | orazio_lib/src/common/buffer_utils.h:2-6 | BUFFER_PUT after a write makes the value the youngest of the ring and keeps the others. |
| `Ring.GetRemoves` | orazio_lib/src/common/buffer_utils.h:8-12 | BUFFER_GET takes exactly the oldest value from the ring. |
| `Ring.EndIsFree` | orazio_lib/src/common/deferred_packet_handler.c:15-19 | The slot at the end of a ring that is not full is none of those in use. |
| `Transmit.PushAllIsFrames` | orazio_lib/src/common/packet_handler.c:161-180 | After some sends the ring holds what it held, then the whole frames of the accepted packets, and nothing of the refused ones. |
| `Transmit.AllAcceptedIffTheyFit` | orazio_lib/src/common/packet_handler.c:162-166 | No send of a series is refused if and only if all frames together fit the free room. |
| `Transmit.RunConserves` | orazio_lib/src/common/packet_handler.c:145-180 | For every interleaving of sends and drains, drained bytes then ring contents are the frames of the accepted packets. |
| `Transmit.RingRoundTrip` | orazio_lib/src/common/packet_handler.c:55-180 | Across the ring and the receiver: whatever the interleaving, the drained bytes deliver the accepted packets whose frames have left, all of them once the ring is empty. |
| `PacketHandlers.PacketHandler.constructor` | orazio_lib/src/common/packet_handler.c:13-28 | No operations, an idle receiver, an empty ring. |
| `PacketHandlers.PacketHandler.InstallPacket` | orazio_lib/src/common/packet_handler.c:30-38 | Type out of bounds, type already installed, or the operation is added; the receiver does not move. |
| `PacketHandlers.PacketHandler.UninstallPacket` | orazio_lib/src/common/packet_handler.c:40-48 | Type out of bounds, type not installed, or the operation is removed; a frame in flight stays in flight. |
| `PacketHandlers.PacketHandler.RxByte` | orazio_lib/src/common/packet_handler.c:50-143 | The object with its receive variables and the buffer written in place makes exactly the step of the receiver; on SyncChecksum the packet is in the buffer that was given. |
| `PacketHandlers.PacketHandler.RxAA` | orazio_lib/src/common/packet_handler.c:55-62 | Its step of the receiver. |
| `PacketHandlers.PacketHandler.Rx55` | orazio_lib/src/common/packet_handler.c:64-72 | Its step of the receiver; a second 0xAA goes back to idle. |
| `PacketHandlers.PacketHandler.RxType` | orazio_lib/src/common/packet_handler.c:74-87 | Its step of the receiver. |
| `PacketHandlers.PacketHandler.RxSize` | orazio_lib/src/common/packet_handler.c:89-114 | Its step of the receiver, with the header written into the given buffer. |
| `PacketHandlers.PacketHandler.RxPayload` | orazio_lib/src/common/packet_handler.c:116-126 | Its step of the receiver: one byte stored at the end. |
| `PacketHandlers.PacketHandler.RxSum` | orazio_lib/src/common/packet_handler.c:128-143 | Its step of the receiver. |
| `PacketHandlers.PacketHandler.PutTxByte` | orazio_lib/src/common/packet_handler.c:145-150 | A byte joins the ring, or is dropped when 254 are waiting. |
| `PacketHandlers.PacketHandler.TxByte` | orazio_lib/src/common/packet_handler.c:152-159 | The oldest byte leaves the ring; 0 when there is none. |
| `PacketHandlers.PacketHandler.SendPacket` | orazio_lib/src/common/packet_handler.c:161-180 | The whole frame with its checksum joins the ring and Success, or nothing and TxBufferFull. |
| `Deferred.ReceiverProjection` | orazio_lib/src/common/deferred_packet_handler.c:10-41 | The receiver inside the deferred handler is the plain receiver on the same bytes and buffer answers. |
| `Deferred.NothingLostTwice` | orazio_lib/src/common/deferred_packet_handler.c:16-40 | Actions run, packets waiting and packets dropped are together exactly the arrivals, as multisets. |
| `Deferred.ArrivalOrder` | orazio_lib/src/common/deferred_packet_handler.c:32-39 | Without drops, actions run followed by packets waiting are the arrivals in order, across all types. |
| `Deferred.NothingOvertakes` | orazio_lib/src/common/deferred_packet_handler.c:32-39 | Also with drops, actions run followed by packets waiting are a subsequence of the arrivals. |
| `Deferred.StepGood` | orazio_lib/src/common/deferred_packet_handler.c:10-41 | No byte and no processing overcommits the buffers: a frame in flight always has one. |
| `Deferred.ExactlyOnceInOrder` | orazio_lib/src/common/deferred_packet_handler.c:16-95 | With at most eight buffers in all: for every interleaving of bytes and processing, actions run followed by packets waiting are what the batch parser finds. |
| `Deferred.FillAndDrop` | orazio_lib/src/common/deferred_packet_handler.c:32-33 | With more than eight buffers in all, an idle handler can be sent frames that end in a dropped packet. |
| `Deferred.LosslessIff` | orazio_lib/src/common/deferred_packet_handler.c:32-33 | A checksum-valid frame is never dropped, in any run, if and only if the buffers of all types are at most eight. |
| `DeferredHandlers.PoolPut` | orazio_lib/src/common/deferred_packet_handler.c:32-39 | Per type, the packets waiting are the ring slots from start for size entries: kept when a packet joins. |
| `DeferredHandlers.PoolGet` | orazio_lib/src/common/deferred_packet_handler.c:82-93 | The same, kept when the oldest packet leaves. |
| `DeferredHandlers.FrontIsStart` | orazio_lib/src/common/deferred_packet_handler.c:83-87 | The oldest packet waiting is in the slot at the start of the ring of its type. |
| `DeferredHandlers.EndNotQueued` | orazio_lib/src/common/deferred_packet_handler.c:15-19 | The slot handed out for receiving is not among the packets waiting. |
| `DeferredHandlers.RingsAddUp` | orazio_lib/src/common/deferred_packet_handler.c:32-39 | The rings of all types together hold exactly the packets waiting, at most eight. |
| `DeferredHandlers.DeferredPacketHandler.RingSizes` | orazio_lib/src/common/deferred_packet_handler.c:32-39 | In every valid state the ring sizes of all types add up to pending_packets_size. |
| `DeferredHandlers.DeferredPacketHandler.constructor` | orazio_lib/src/common/deferred_packet_handler.c:97-101 | A fresh handler. |
| `DeferredHandlers.DeferredPacketHandler.InitializeBuffer` | orazio_lib/src/common/deferred_packet_handler.c:10-20 | The slot at the end of the ring of the type, or none when all are in use. |
| `DeferredHandlers.DeferredPacketHandler.OnReceive` | orazio_lib/src/common/deferred_packet_handler.c:32-41 | Given the packet in the slot at the end of its ring, it joins the list and the slot is taken, unless eight wait. |
| `DeferredHandlers.DeferredPacketHandler.RxByte` | orazio_lib/src/common/deferred_packet_handler.c:10-41 | With frames received in place beside packets that wait: the object makes exactly the byte step, no waiting packet changes. |
| `DeferredHandlers.DeferredPacketHandler.RxBase` | orazio_lib/src/common/deferred_packet_handler.c:24-30 | The first assertion of the source: a completed packet is in the slot at the end of the ring of its type. The base handler writes at most into the slot in flight. |
| `DeferredHandlers.DeferredPacketHandler.ProcessPendingPackets` | orazio_lib/src/common/deferred_packet_handler.c:81-95 | The second assertion holds for every packet; each action gets its packet as it was received, the oldest first, and all slots are free afterwards. |
| `DeferredHandlers.DeferredPacketHandler.ReleaseFirst` | orazio_lib/src/common/deferred_packet_handler.c:83-92 | The second assertion, and the release of the slot. |
| `DeferredHandlers.DeferredPacketHandler.InstallPacket` | orazio_lib/src/common/deferred_packet_handler.c:43-79 | What an installation does, including that a second one changes size and buffers of the type although it returns an error. |
| `DeferredHandlers.DeferredPacketHandler.InstallRing` | orazio_lib/src/common/deferred_packet_handler.c:53-77 | The ring of the type starts anew while the other types keep theirs. |
| `DeferredHandlers.DeferredPacketHandler.InstallOps` | orazio_lib/src/common/deferred_packet_handler.c:76-78 | The operation record of the type is the one just overwritten. |
| `Refusal.NothingForged` | orazio_lib/src/common/packet_handler.c:55-143 | From a stream of frames in which every refused frame is traceless, the receiver delivers a subsequence of what was framed - also when it enters a frame awake. |
| `Refusal.PairFreeIsTraceless` | orazio_lib/src/common/packet_handler.c:55-72 | A frame without the pair AA 55 after its first byte is traceless. |
| `Refusal.ExactDelivery` | orazio_lib/src/common/packet_handler.c:55-143 | Of a stream of frames, cut anywhere, with refusals, exactly the packets whose frames arrived whole and found a buffer come out, in order, and the receiver is idle at the end, when every refused frame is contained: its bytes after the size are not leaky and its last byte is not 0xAA. |
| `Refusal.QuietIsContained` | orazio_lib/src/common/packet_handler.c:55-62 | A frame that shows no 0xAA after its size is contained. |
| `Refusal.InputsHonest` | orazio_lib/src/common/deferred_packet_handler.c:10-20 | In the deferred handler a buffer is offered only when the receiver asks. |
| `Firmware.HandleOk` | orazio_lib/src/orazio_firmware/orazio_comm.c:115-200 | Handling keeps all parameters well formed, and sends back only existing ones. |
| `Firmware.HandleOneKeeps` | orazio_lib/src/orazio_firmware/orazio_comm.c:115-156 | Handling a packet with a new identity keeps: every response answers a handled packet; after the response to the last one no parameter is sent; a parameter whose last copy was not refused is the last one sent. |
| `Firmware.CycleKeeps` | orazio_lib/src/orazio_firmware/orazio_comm.c:302-328 | A whole communication cycle keeps that invariant. |
| `Firmware.CycleSends` | orazio_lib/src/orazio_firmware/orazio_comm.c:302-328 | A cycle started with an empty ring sends exactly what the ring takes of its attempts, ends with an empty ring, and numbers one higher. |
| `Firmware.SavedIsLoaded` | orazio_lib/src/orazio_firmware/orazio_comm.c:158-200 | Saving a parameter and loading it later, whatever was handled in between except another save of it, brings back what it was, but for the sequence number. |
| `Firmware.ResponseAnswersIff` | orazio_lib/src/orazio_firmware/orazio_comm.c:48-53 | A response answers exactly the packets with the type and number of the one it was made for, and its last byte is the result. |
| `Settings.ControlSends` | orazio_lib/src/orazio_firmware/orazio_comm.c:158-199 | For every state and every parameter control packet: codes 0, 1, 2 and 3 first send the packet of type 3, 6, 9 or 13, code 1 that of the joint asked for, with the body of the variable, or of its saved copy when loading; any other code sends the response alone. The response names the packet; its result is an error exactly for an unknown action, or an unknown code that is to be loaded or saved. |
| `Settings.ControlKeeps` | orazio_lib/src/orazio_firmware/orazio_comm.c:182-194 | Loading overwrites exactly that parameter by its saved copy, saving exactly the saved copy; requests and unknown codes or actions change nothing. |
| `Settings.SettingStores` | orazio_lib/src/orazio_firmware/orazio_comm.c:115-156 | Every other packet is stored as it came under its type and joint and nothing else changes; parameters, and only they, are sent back with the body received; a joint that does not exist changes nothing and is answered by an error. |
| `Settings.SetThenRequest` | orazio_lib/src/orazio_firmware/orazio_comm.c:115-200 | Round trip: a parameter is set, any packets are handled that neither set nor load it, then it is requested by its code: the body that was set comes back. |
| `Firmware.EchoAccepted` | orazio_lib/src/orazio_firmware/orazio_comm.c:150-153 | Handling a packet whose sends fit leaves its echo accepted: the target of a parameter control packet, or the parameter set. |
| `Firmware.CycleEchoes` | orazio_lib/src/orazio_firmware/orazio_comm.c:302-328 | A cycle that refuses nothing leaves every parameter it sends back among those whose latest copy was accepted; a cycle that handles nothing changes nothing about them. |
| `Layout.SizesAreSums` | orazio_lib/src/common/orazio_packets.h:40-226 | Every packet has the size of its packed structure, the sum of its fields, on both sides. |
| `Layout.MaskIsField` | orazio_lib/src/common/orazio_packets.h:135-145 | The byte read as periodic mask is the one after comm_cycles. |
| `Epochs.NothingRefusedIff` | orazio_lib/src/orazio_firmware/orazio_comm.c:302-328 | A cycle refuses nothing if and only if the frames of all it attempts fit 254 bytes. |
| `Epochs.PeriodicLength` | orazio_lib/src/orazio_firmware/orazio_comm.c:308-326 | Periodic packets, string message and end of epoch need at most 229 bytes, for every mask. |
| `Epochs.DriveOnlyFits` | orazio_lib/src/orazio_firmware/orazio_comm.c:277-328 | A cycle that handles at most two drive-control packets refuses nothing. |
| `Epochs.DriveOnlyNeverRefuses` | orazio_lib/src/common/deferred_packet_handler.c:16-19 | In any run of the deferred handler with only drive-control packets waiting there are at most two, so nothing is refused. |
| `Epochs.CycleIsEpoch` | orazio_lib/src/orazio_firmware/orazio_comm.c:302-328 | All packets of a cycle carry its sequence number, and EndEpoch is the last of them and the only one. |
| `Epochs.ApplyIsLast` | orazio_lib/src/orazio_host/orazio_client.c:84-93 | A variable of the host holds the last packet received for it. |
| `Epochs.SyncReadsToEnd` | orazio_lib/src/orazio_host/orazio_client.c:309-325 | While an epoch with a new number is being read, its number appears exactly at its end. |
| `Epochs.EpochSnapshot` | orazio_lib/src/orazio_firmware/orazio_comm.c:302-328 | One cycle that refused nothing, applied to a host that holds the number before: the number changes with the last packet only, and every status variable enabled in the cycle then has the number of the EndEpoch packet, also across the 16-bit wrap. |
| `Reports.PeriodicOnce` | orazio_lib/src/orazio_firmware/orazio_comm.c:307-325 | For every mask and report: each status packet and the message occurs if and only if it is due, then once, and it is the one reported. |
| `Reports.SentIffDue` | orazio_lib/src/orazio_firmware/orazio_comm.c:302-326 | The same for all that a cycle attempts to send, whatever it handles first: a status or message occurs if and only if it is due under the mask the handled packets leave, then exactly once, as reported and with the number of the cycle. |
| `Reports.ReceivedIffDue` | orazio_lib/src/orazio_firmware/orazio_comm.c:302-326 | What the host holds after such an epoch: for what was due the report of this cycle, for anything else what it held before. |
| `Protocol.MakeKeeps` | orazio_lib/src/orazio_host/orazio_client.c:257-307 | Every send, flush, read and firmware cycle keeps the invariant of the two machines and the two channels, as long as the run is calm: fewer than 65536 sends, and every frame the firmware refused was traceless. |
| `Protocol.RunKeeps` | orazio_lib/src/orazio_host/orazio_client.c:257-307 | So does every calm run from a fresh system. |
| `Protocol.HandledWasSent` | orazio_lib/src/common/deferred_packet_handler.c:24-41 | In a calm run, what the firmware handled is a subsequence of what the host sent. |
| `Protocol.ListenSendable` | orazio_lib/src/orazio_firmware/orazio_comm.c:115-156 | In a calm run the firmware only ever handles packets that the host could send. |
| `Protocol.ReceivedIsPrefix` | orazio_lib/src/orazio_host/orazio_client.c:130-145 | The packets the host has received are the first ones the firmware sent. |
| `Protocol.ResponseMeansHandledOnce` | orazio_lib/src/orazio_host/orazio_client.c:285-301 | In a calm run, a response variable with type and number of a packet means that the firmware ran its handler on that very packet, exactly once. |
| `Protocol.Agreement` | orazio_lib/src/orazio_firmware/orazio_comm.c:150-153 | When the last copy of a parameter was not refused and none is on its way, host and firmware hold the same parameter. |
| `Protocol.EchoBeforeResponse` | orazio_lib/src/orazio_firmware/orazio_comm.c:115-156 | In a calm run, a host that holds the response to its last packet, of any type, agrees with the firmware on every parameter whose latest copy was not refused - also those it asked for, loaded or saved; and one that the packet set is what the host wrote. |
| `Protocol.EchoOfCycle` | orazio_lib/src/orazio_firmware/orazio_comm.c:115-200 | In a calm run, a host that holds the response to its last packet agrees with the firmware on the parameter that packet sets, requests, loads or saves, if the one cycle that handled it fits 254 bytes; what other cycles refuse does not matter. |
| `Protocol.QueuedLeaves` | orazio_lib/src/orazio_host/orazio_client.c:122-128 | In every run from a fresh system, calm or not: once the host has flushed, what the robot has heard and what is on the line are the frames of all packets the ring ever accepted, in order; so a queued packet leaves with the next flush, whatever happens in between. |
| `Clients.ReadAllIs` | orazio_lib/src/orazio_host/orazio_client.c:130-145 | Reading bytes one by one is running the receiver on all of them and copying what it delivers, in order. |
| `Clients.ReadsAreMoves` | orazio_lib/src/orazio_host/orazio_client.c:130-145 | What the client reads is a run of read moves of the two-machine system. |
| `Clients.SyncReadsOneEpoch` | orazio_lib/src/orazio_host/orazio_client.c:309-325 | A sync that starts between frames at the beginning of an epoch with a new number, and returns, has read the frames of that epoch and no byte more. |
| `Clients.OrazioClient.constructor` | orazio_lib/src/orazio_host/orazio_client.c:148-239 | A fresh client with its eleven operations installed and a response variable that answers nothing. |
| `Clients.OrazioClient.ReadOne` | orazio_lib/src/orazio_host/orazio_client.c:84-93 | One byte: the read step of the host, with the completed packet copied into its variable. |
| `Clients.OrazioClient.ReadPacket` | orazio_lib/src/orazio_host/orazio_client.c:130-145 | Reads until the byte that completes exactly one packet. |
| `Clients.OrazioClient.FlushBuffer` | orazio_lib/src/orazio_host/orazio_client.c:122-128 | The ring goes to the line, in order. |
| `Clients.OrazioClient.SendOne` | orazio_lib/src/orazio_host/orazio_client.c:257-269 | The sequence number is used up whatever happens; the answer and the effect of every branch. |
| `Clients.OrazioClient.SendPacket` | orazio_lib/src/orazio_host/orazio_client.c:271-307 | Without a timeout the bare send; otherwise: Success exactly after the first packet that makes the response variable answer, Timeout after as many packets as allowed with none that does. |
| `Clients.OrazioClient.Await` | orazio_lib/src/orazio_host/orazio_client.c:290-301 | The loop of the blocking send. |
| `Clients.OrazioClient.Sync` | orazio_lib/src/orazio_host/orazio_client.c:309-325 | All rounds: the first flush writes what waited, every further one exactly the drive command that the round before has queued, the last command is left in the ring; each round ends with the packet that changes the number of the epoch. |
| `Clients.OrazioClient.SyncOnce` | orazio_lib/src/orazio_host/orazio_client.c:310-322 | What was in the ring is written. If the number of the drive command is not 0, the command with the next number of the host is accepted, is the content of the ring, and is what the variable holds; if it is 0, nothing is sent and the ring is empty. Then reads exactly to the first packet that changes the number of the epoch. |
| `Clients.CommandAfterIs` | orazio_lib/src/orazio_host/orazio_client.c:313-314 | After any number of rounds: sync still sends the drive command, with its body unchanged and the next number, if and only if the command was set and no round got the number 0 modulo 2^16; from then on it sends none. |
| `Clients.SendStatusMeans` | orazio_lib/src/orazio_host/orazio_client.c:257-269 | Success exactly when the numbered packet was accepted, anything else leaves ring and history alone; unknown is every type but the seven outbound ones; a full ring is one without room for payload and frame bytes; every call uses up a number. |
| `Clients.OrazioClient.ReadEpoch` | orazio_lib/src/orazio_host/orazio_client.c:316-321 | The inner loop of sync. |
| `Snapshots.RunSendsEpochs` | orazio_lib/src/orazio_firmware/orazio_comm.c:302-328 | In every run from any state in which no cycle refuses a send, all that the firmware sends is its cycles one after the other, each an epoch, numbered upwards modulo 2^16. |
| `Snapshots.EpochEndShows` | orazio_lib/src/orazio_host/orazio_client.c:316-321 | In every such run from a fresh system, whenever the last packet the host received is an EndEpoch packet, its variables are the snapshot of one cycle: every status variable enabled in it has the number of end_epoch. |
| `Snapshots.SyncShowsCycle` | orazio_lib/src/orazio_host/orazio_client.c:309-325 | For one cycle: a sync that starts where its bytes begin and returns has read exactly them, and every enabled status variable has its number. |
| `Snapshots.SyncSnapshot` | orazio_lib/src/orazio_host/orazio_client.c:309-325 | For every run in which no cycle refuses a send: a sync that starts in any state, also inside an epoch, reads on between firmware cycles and returns, leaves the snapshot of one cycle of the run. |
| `Snapshots.DriveOnlyRun` | orazio_lib/src/orazio_firmware/orazio_comm.c:277-328 | In every calm run of a host that sends nothing but drive commands, no cycle refuses a send. |
| `Snapshots.DriveOnlySnapshot` | orazio_lib/src/orazio_host/orazio_client.c:309-325 | So for such a host every sync that returns leaves the snapshot of one cycle, with nothing assumed about refusals. |
| `Snapshots.BlockingSend` | orazio_lib/src/orazio_host/orazio_client.c:271-307 | For every calm run: when a blocking send, whose reads go on between firmware cycles, ends with Success, the handler ran on that very packet exactly once, and host and firmware agree on every parameter whose latest echo was not refused. |
| `Comms.Comm.constructor` | orazio_lib/src/orazio_firmware/orazio_comm.c:294-299 | A fresh firmware with seven types and two buffers each. |
| `Comms.Comm.Queue` | orazio_lib/src/common/packet_handler.c:161-180 | A send does not touch what is received or waits in the deferred handler. |
| `Comms.Comm.SendPacket` | orazio_lib/src/orazio_firmware/orazio_comm.c:284-292 | The number of the cycle, the send, and one of the two counters. |
| `Comms.Comm.SendParam` | orazio_lib/src/orazio_firmware/orazio_comm.c:284-286 | A parameter variable keeps the number it was sent with. |
| `Comms.Comm.HandlePacket` | orazio_lib/src/orazio_firmware/orazio_comm.c:115-156 | All branches together have the effect of the specified handling, with the echo before the response. |
| `Comms.Comm.Select` | orazio_lib/src/orazio_firmware/orazio_comm.c:163-181 | The variable that a type code stands for. |
| `Comms.Comm.HandleParamCtl` | orazio_lib/src/orazio_firmware/orazio_comm.c:158-200 | The same for parameter control; Settings.ControlSends and Settings.ControlKeeps say what that sends and changes for every code and action. |
| `Comms.Comm.ReadByte` | orazio_lib/src/orazio_firmware/orazio_comm.c:266-274 | One byte with the counts, modulo 2^16, of packets and of bytes answered by an error. |
| `Comms.Comm.FlushInput` | orazio_lib/src/orazio_firmware/orazio_comm.c:264-275 | Every byte that has arrived is fed to the deferred handler; rx_packets grows by the arrivals, rx_packet_errors by the bytes answered with a status below zero, noise while idle included. |
| `Comms.Comm.FlushOutput` | orazio_lib/src/orazio_firmware/orazio_comm.c:277-282 | The ring goes to the line, and is empty. |
| `Comms.Comm.HandlePending` | orazio_lib/src/common/deferred_packet_handler.c:82-90 | The actions of the pending packets in order. |
| `Comms.Comm.HandleAndReport` | orazio_lib/src/orazio_firmware/orazio_comm.c:306-326 | The report goes out under the mask that the handled packets leave. |
| `Comms.Comm.SendPeriodic` | orazio_lib/src/orazio_firmware/orazio_comm.c:307-326 | Every packet under its condition, in the order of the source; Reports.SentIffDue says which ones that are. |
| `Comms.Comm.CommHandle` | orazio_lib/src/orazio_firmware/orazio_comm.c:302-328 | The object with its deferred handler, ring and parameters performs exactly the specified cycle, and puts on the line what it sent. |
| `Queues.Queue.constructor` | queue.h:23-28 | An empty queue. |
| `Queues.Queue.Enqueue` | queue.h:31-39 | The value becomes the last of the contents; older nodes stay. |
| `Queues.Queue.Dequeue` | queue.h:42-52 | The first value leaves; nothing when empty. |
| `Queues.Queue.IsEmpty` | queue.h:54-57 | True exactly when there are no contents. |
| `Logger.SemaphoresKeep` | orazio_logger.c:104-107 | Every step keeps: one thread in the critical section, and queue length = value of empty + writer let in but not dequeued + producers enqueued but not posted. |
| `Logger.InOrderKeeps` | orazio_logger.c:213-217 | Every step keeps: the file, the record in hand and the queue are together the enqueue history. |
| `Logger.RecordedKeeps` | orazio_logger.c:405-428 | Every step keeps: the records of the main loop are rounds of SYSTEM, JOINT, SONAR, DRIVE with timestamps 0, 1, 2, ... |
| `Logger.LoggerSafe` | orazio_logger.c:211-238 | For every interleaving of the threads: the dequeue never yields NULL, the file is a prefix of the enqueue order and in rounds, and a frame comes after all rounds before its timestamp. |
| `Logger.RoundsSay` | orazio_logger.c:405-428 | In every run the records of the main loop are SYSTEM, JOINT, SONAR and DRIVE in this order, all four with the number of their round. |
| `Logger.FramesStamped` | orazio_logger.c:257-272 | In every run the frames in the log have, in order, the timestamps of the moments at which they were taken, however long they waited; none is missing but the one in hand. |
| `Logger.RecordsCanBeLost` | orazio_logger.c:211 | A schedule in which all threads end and the last four records are enqueued but never written. |
| `Logger.StopConserves` | orazio_logger.c:394-429 | Once the program is being stopped, records enqueued and records that the producers still will enqueue are together constant. |
| `Logger.LostExactly` | orazio_logger.c:211 | For every run in which all threads end: the file misses exactly the records the producers had still to enqueue when the writer left; it is complete if and only if at that moment the main loop was between rounds and the camera between frames. |
| `Encoders.Encoder.constructor` | orazio_lib/src/arch/atmega2560/encoder.c:17-24 | Zero counters, samples and status. |
| `Encoders.Encoder.Interrupt` | orazio_lib/src/arch/atmega2560/encoder.c:74-89 | The loop over the two encoders with its shifts adds to each counter the table entry of its own bits. |
| `Encoders.Encoder.Sample` | orazio_lib/src/arch/atmega2560/encoder.c:34-41 | The samples become the counters. |
| `Encoders.MaskedPins` | orazio_lib/src/arch/atmega2560/encoder.c:76-85 | The four low pins are those of the two encoders, two each, in ascending order; the others are ignored. |
| `Encoders.CounterIsTravel` | orazio_lib/src/arch/atmega2560/encoder.c:74-89 | A counter is the sum of the table entries of its encoder, modulo 2^16. |
| `Encoders.TravelIsDisplacement` | orazio_lib/src/arch/atmega2560/encoder.c:53-71 | For a shaft that moves by at most one step between interrupts the table counts its steps exactly. |
| `Encoders.CounterIsDisplacement` | orazio_lib/src/arch/atmega2560/encoder.c:53-89 | From the zeroed status a counter is the displacement modulo 2^16, and modulo 4 the phase of the bits in the order 00, 01, 11, 10. |
| `Encoders.PhaseIffEvenJumps` | orazio_lib/src/arch/atmega2560/encoder.c:53-89 | For every interrupt sequence whatever: the counter shows the phase if and only if the number of missed steps is even. |
| `Encoders.ReplayRestores` | orazio_lib/src/arch/atmega2560/encoder.c:53-89 | Any path and then the same path backwards restores both counters. |
| `Encoders.Independent` | orazio_lib/src/arch/atmega2560/encoder.c:81-86 | The bits of the other encoder have no influence. |
| `Joints.JointController.constructor` | orazio_lib/src/orazio_firmware/orazio_joints_internal.c:13-20 | A zeroed controller on its parameters and command. |
| `Joints.JointController.Reset` | orazio_lib/src/orazio_firmware/orazio_joints.c:19 | The variables of the controller are zeroed, the status stays. |
| `Joints.JointController.Handle` | orazio_lib/src/orazio_firmware/orazio_joints_internal.c:22-66 | The fields after a tick, in each mode: disabled gives output and integral 0, PWM the commanded value, an unknown mode leaves the output, PID remembers its error. |
| `Joints.ModesAct` | orazio_lib/src/orazio_firmware/orazio_joints_internal.c:22-66 | For every state: disabled gives output and integral 0, PWM the commanded value as it is, an unknown mode keeps the output; in all three error, previous error and ramp stay; the speed is the encoder difference modulo 2^16. |
| `Joints.CorrectionCutsOff` | orazio_lib/src/orazio_firmware/orazio_joints_internal.c:53-55 | The correction is the weighted sum of the three terms over 32, cut off towards zero, with its sign. |
| `Joints.RunBounded` | orazio_lib/src/orazio_firmware/orazio_joints_internal.c:22-66 | Over every run with any modes: errors stay within the slope and the integral within its limit. |
| `Joints.OutputInRange` | orazio_lib/src/orazio_firmware/orazio_joints_internal.c:43-61 | After a PID tick the output is 0 or its magnitude is between the limits; the desired speed is within its limit. |
| `Joints.RampBetweenIff` | orazio_lib/src/orazio_firmware/orazio_joints_internal.c:43-47 | The ramp lies between measured and desired speed if and only if their difference fits 16 bits, or the slope is 0 or larger than what the wrapped difference leaves. |
| `Joints.CorrectionFits` | orazio_lib/src/orazio_firmware/orazio_joints_internal.c:53-55 | Under the inequality on gains, slope and integral limit the products and sums of the correction do not overflow. |
| `Joints.NoOverflow` | orazio_lib/src/orazio_firmware/orazio_joints_internal.c:43-63 | Under it, a PID tick of the 16-bit controller is that of the controller over the integers, and its ramp lies between the speeds. |
| `Joints.TickIsIdeal` | orazio_lib/src/orazio_firmware/orazio_joints_internal.c:22-66 | In every mode, with safe parameters, a tick is that of the controller over the integers. |
| `Joints.RunIsIdeal` | orazio_lib/src/orazio_firmware/orazio_joints_internal.c:22-66 | Over every run, with any modes in any order: integral, remembered error and output are those of an integer controller that carries its own integral and its own previous error and sees only the measured speeds. |
| `Joints.DefaultsAreSafe` | orazio_lib/src/orazio_firmware/orazio_globals.c:99-107 | The default gains and limits satisfy it for speeds up to 31000 ticks. |
| `Joints.SpeedsConserve` | orazio_lib/src/orazio_firmware/orazio_joints_internal.c:27-29 | The speeds of a run add up to the true displacement although the position wraps at 2^16. |
| `Joints.OdometryAgreesIff` | orazio_lib/src/orazio_firmware/orazio_drive_internal.c:76-81 | The difference of two odometry samples is the sum of the joint speeds between them if and only if that sum fits 16 bits. |
| `Drives.DifferentialDriveController.constructor` | orazio_lib/src/orazio_firmware/orazio_drive_internal.c:40-67 | The cached reciprocals and limits belong to the parameters; velocities zero, encoders as they stand. |
| `Drives.DifferentialDriveController.Reset` | orazio_lib/src/orazio_firmware/orazio_drive_internal.c:156-169 | Velocities zero, encoders as they stand. |
| `Drives.DifferentialDriveController.Velocity` | orazio_lib/src/orazio_firmware/orazio_drive_internal.c:84-120 | Computed with the cached reciprocals, the measured velocities are the specified quotients, also for a robot that stands still. |
| `Drives.DifferentialDriveController.Smooth` | orazio_lib/src/orazio_firmware/orazio_drive_internal.c:127-150 | The velocities to command: one step towards the desired, then the limit. |
| `Drives.DifferentialDriveController.Update` | orazio_lib/src/orazio_firmware/orazio_drive_internal.c:73-154 | Encoders, measured, desired and commanded velocities after an update. |
| `Drives.DifferentialDriveController.Control` | orazio_lib/src/orazio_firmware/orazio_drive_internal.c:175-191 | The joint commands: truncated speeds in PID mode; nothing else of the joints changes. |
| `Drives.ApproachIsNearest` | orazio_lib/src/orazio_firmware/orazio_drive_internal.c:135-147 | The commanded velocity is, of all within one step of the measured and within the limit, the nearest to the desired; when there is none, the limit on the side of the motion. |
| `Drives.AdjustIsNearest` | orazio_lib/src/orazio_firmware/orazio_drive_internal.c:129-153 | For both velocities, with the steps named: the brake, unscaled, when the desired tv is 0, otherwise the acceleration over one cycle; for rv always the acceleration. |
| `Drives.UpdateMeans` | orazio_lib/src/orazio_firmware/orazio_drive_internal.c:73-128 | What an update publishes, multiplied out: over one cycle the measured velocities make half the sum of the ways of the wheels, and on the baseline the right way less the left; the ways are the wrapped encoder differences over the ticks per metre. |
| `Drives.TruncBound` | orazio_lib/src/orazio_firmware/orazio_drive_internal.c:187-188 | The conversion of a speed to an integer takes away less than a tick and goes towards zero. |
| `Drives.BrakeStopsIff` | orazio_lib/src/orazio_firmware/orazio_drive_internal.c:129-144 | A desired zero is reached in one cycle if and only if the braking parameter, which the code does not multiply by the time step, is at least the measured velocity, or the velocity limit is 0. |
| `Drives.RoundTripExact` | orazio_lib/src/orazio_firmware/orazio_drive_internal.c:112-113 | Joints that turn their truncated commands for n cycles are measured at the commanded velocities less what the two lost fractions make. |
| `Drives.RoundTripBound` | orazio_lib/src/orazio_firmware/orazio_drive_internal.c:175-191 | The measured tv is within (abs(kl)+abs(kr))/(2 joints_dt) and rv within (abs(kl)+abs(kr))/(abs(baseline) joints_dt) of the commanded, and both are met if and only if neither command lost a fraction. |
| `Drives.WheelFits` | orazio_lib/src/orazio_firmware/orazio_drive_internal.c:184-187 | Under one inequality on the parameters no commanded speed and no sum of ticks leaves 16 bits, for every velocity within the limits. |
| `Drives.NextMeasures` | orazio_lib/src/orazio_firmware/orazio_drive_internal.c:73-120 | Through encoders that wrap, the next update measures the commanded velocities within the bounds. |
| `Drives.RoundsApproach` | orazio_lib/src/orazio_firmware/orazio_drive_internal.c:73-154 | In closed loop the distance to the desired velocities falls with every round by a step, up to the measurement error. |
| `Drives.LoopSettles` | orazio_lib/src/orazio_firmware/orazio_drive_internal.c:73-191 | Once the steps of k rounds cover the distance, the measured velocities are within the measurement error of the desired ones. |
| `Drives.DefaultsSettle` | orazio_lib/src/orazio_firmware/orazio_globals.c:10-41 | With the default parameters, 20 cycles after a command within the limits a robot that stood still is measured within 1 cm/s and 0.05 rad/s of it. |
| `Watchdog.HeardTripsIff` | orazio_lib/src/orazio_firmware/orazio_watchdog.c:4-24 | At the end of a cycle with a packet the watchdog trips if and only if it is set to one cycle. |
| `Watchdog.SilentCount` | orazio_lib/src/orazio_firmware/orazio_watchdog.c:8-24 | At the end of a silent cycle the count falls by one down to 0, a negative one stays, a watchdog that is off shows 0; it trips exactly when it is on and the count was 0 or 1. |
| `Watchdog.HeardSeen` | orazio_lib/src/orazio_firmware/orazio.c:68-76 | The comparison of rx_packets notices the packets of a cycle if and only if their number is no multiple of 65536. |
| `Watchdog.InvisibleBefore` | orazio_lib/src/orazio_firmware/orazio_watchdog.c:8-24 | Until it trips, every run is the run of a robot without a watchdog. |
| `Watchdog.LargeNeverTrips` | orazio_lib/src/orazio_firmware/orazio_watchdog.c:16-20 | A watchdog of 32768 cycles or more becomes a negative count and never trips. |
| `Watchdog.HaltedStays` | orazio_lib/src/orazio_firmware/orazio_joints.c:35-56 | Nothing in silence moves a halted robot: no timer tick at any moment, no drive step. |
| `Watchdog.SilenceHalts` | orazio_lib/src/orazio_firmware/orazio_watchdog.c:8-24 | In silence the count falls with every cycle, and the robot is halted when it is used up. |
| `Watchdog.WatchdogTrips` | orazio_lib/src/orazio_firmware/orazio.c:65-81 | For 2 to 32767 cycles: after a cycle with a packet, fewer than watchdog_cycles - 1 silent cycles leave the robot as without a watchdog; from the (watchdog_cycles - 1)-th on the drive is disabled, both joints are disabled and output 0, with timer ticks anywhere. |
| `Watchdog.Arbitration` | orazio_lib/src/orazio_firmware/orazio_drive.c:29-37 | For every watchdog setting: when a cycle starts the drive is on if and only if the last drive command has a new number that no later reinitialisation forgot, or it was on, no joint was commanded directly, and the watchdog did not trip. |
| `Watchdog.StartCommands` | orazio_lib/src/orazio_firmware/orazio_drive.c:29-37 | Every run that ends with the start of a cycle: a drive that is on has given both joints their PID speeds, in this cycle, the right one last, and touched nothing else; one that is off has touched no joint. |
| `Watchdog.OnMeansCommanded` | orazio_lib/src/orazio_firmware/orazio_drive.c:29-37 | At every moment between two starts, whatever is received or ticks: a drive that is on has its joints under the speeds that the last start commanded. |
| `Watchdog.StepUnits` | orazio_lib/src/orazio_firmware/orazio_joints.c:17-56 | What every event does to each joint: the timer ticks it under its own command, a joint command replaces that of one joint, joint parameters zero the controllers up to the first bad bridge, a trip disables it and zeroes its output; nothing else changes. |
| `Watchdog.StepEnabled` | orazio_lib/src/orazio_firmware/orazio_comm.c:138-139 | Between two starts only a joint command of an existing joint and a trip switch the drive off; nothing switches it on. |
| `Watchdog.PeriodIff` | orazio_lib/src/orazio_firmware/orazio.c:25-32 | The ticks between cycles, counted in a byte, are comm_cycles if and only if that is 1 to 256. |
| `MainLoop.Platform.constructor` | orazio_lib/src/orazio_firmware/orazio.c:56-59 | Reloaded counters, a disabled drive. |
| `MainLoop.Platform.JointsHandle` | orazio_lib/src/orazio_firmware/orazio_joints.c:35-49 | Every joint ticks on its own encoder. |
| `MainLoop.Platform.JointsDisable` | orazio_lib/src/orazio_firmware/orazio_joints.c:51-56 | Every joint is disabled with output 0. |
| `MainLoop.Platform.JointsInit` | orazio_lib/src/orazio_firmware/orazio_joints.c:17-33 | Controllers are cleared up to and including the first whose bridge refuses its pins; the answer is whether none does. |
| `MainLoop.Platform.OnTimerTick` | orazio_lib/src/orazio_firmware/orazio.c:25-32 | The timer step, the reload of the counter, and the request of a cycle. |
| `MainLoop.Platform.WatchdogReset` | orazio_lib/src/orazio_firmware/orazio_watchdog.c:4-6 | The count becomes the parameter, as an int16. |
| `MainLoop.Platform.HandleWatchdog` | orazio_lib/src/orazio_firmware/orazio_watchdog.c:8-24 | The specified watchdog step on the objects. |
| `MainLoop.Platform.ControlDrive` | orazio_lib/src/orazio_firmware/orazio_drive.c:29-37 | On exactly when it was on or the number is new; a drive that is on commands both joints in this cycle, the right one last; one that is off leaves all joints alone. |
| `MainLoop.Platform.Receive` | orazio_lib/src/orazio_firmware/orazio_comm.c:139-147 | What an effect of a packet does to drive and joints; a reinitialised drive is at rest with the encoders as they stand. |
| `MainLoop.Platform.StartCycle` | orazio_lib/src/orazio_firmware/orazio.c:68-70 | Update and control of the drive: the start step of the machine. |
| `MainLoop.Platform.FinishCycle` | orazio_lib/src/orazio_firmware/orazio.c:75-78 | The watchdog: the end step of the machine. |
| `MainLoop.Platform.Cycle` | orazio_lib/src/orazio_firmware/orazio.c:67-80 | A cycle on the objects is a run of the machine: start, one step per packet, end; and if the drive is on after it, both joints are under PID with the speeds of the velocities that the drive adjusted at its start, be the command new or old. |
| `MainLoop.Platform.CommandedFits` | orazio_lib/src/orazio_firmware/orazio_drive_internal.c:175-191 | Under one inequality on the parameters every speed the drive will command fits an int16. |
| `Reception.HandleCommands` | orazio_lib/src/orazio_firmware/orazio_drive.c:29-33 | Handling the packets of a cycle and applying their effects agree on the last drive command: the number the arbitration looks at is that of the stored packet. |
| `Reception.EffectIs` | orazio_lib/src/orazio_firmware/orazio_comm.c:66-112 | Which packets command or reinitialise drive and joints, by type, action and code; no others do. |
| `Reception.JointCommandArrives` | orazio_lib/src/orazio_firmware/orazio_comm.c:135-143 | Round trip: the speed and mode that the host packs into a joint control packet are the command of the joint. |
| `Reception.CycleHeardIff` | orazio_lib/src/orazio_firmware/orazio.c:68-76 | The count of packets grows by those that arrive with a valid checksum, handled or dropped; the watchdog hears the cycle if and only if they are no multiple of 65536. |
| `Sonars.Sonar.constructor` | orazio_lib/src/orazio_firmware/orazio_sonar.c:5-8 | The state after initialisation. |
| `Sonars.Sonar.Init` | orazio_lib/src/orazio_firmware/orazio_sonar.c:14-26 | The largest pattern of the eight, found by the loop; counters zero. |
| `Sonars.Sonar.Handle` | orazio_lib/src/orazio_firmware/orazio_sonar.c:28-58 | The counter advances, and exactly the sonars that are due are polled. |
| `Sonars.Sonar.Mask` | orazio_lib/src/orazio_firmware/orazio_sonar.c:40-47 | The loop collects exactly the sonars that are due. |
| `Sonars.Fair` | orazio_lib/src/orazio_firmware/orazio_sonar.c:28-58 | From every reachable state the next max + 1 calls poll every sonar with a pattern exactly once and none without, also at max = 255. |
| `Sonars.ShareIff` | orazio_lib/src/orazio_firmware/orazio_sonar.c:41-47 | Two sonars are polled by the same calls if and only if their patterns are equal. |

## Left out

- Callbacks: the answer of `initialize_buffer_fn` is an argument of the receiver (`Input.room`, `offered`), and what `on_receive_fn` and the deferred actions do is done by the method that calls the handler.
- PACKET_SIZE_ANY and sizes below 4: part of the receiver, of the parser it refines and of PacketHandler, but not of the deferred handler and of the round trip, because the receiver writes the size of the operation, not the received one, into the packet.
- PacketHandlers.PacketHandler.RxByte: a buffer that is given takes the packet announced; the source does not check that, and would write beyond a shorter one.
- PacketHandlers.PacketHandler.RxSize: the same.
- DeferredHandlers.DeferredPacketHandler.InstallPacket: requires that nothing of the type waits or is in flight; installing a type again in such a moment is not modelled.
- DeferredHandlers.DeferredPacketHandler.InstallRing: the same.
- DeferredHandlers.DeferredPacketHandler.InstallOps: the same, for a frame in flight.
- DeferredHandlers.DeferredPacketHandler.ProcessPendingPackets: returns the packets the actions are given instead of calling them in the loop; no action touches the handler's buffers. An action that is a null pointer is not modelled.
- Comms.Comm.CommHandle: takes the packets out of the handler before it increments the sequence number, which nothing observes in between; the result of Orazio_jointsInit and the contents of status packets are arguments.
- Firmware.HandleOk: packets with a negative joint index (a signed byte in the firmware), or a parameter control for a joint that does not exist, are outside the model, because the source then reads and writes beyond its arrays. EEPROM is a map from parameters to packets.
- Protocol.ResponseMeansHandledOnce: a success of the handler is not implied, because the client does not look at p_result. The channels lose and alter nothing.
- Clients.OrazioClient.SendPacket: where the source waits for the serial line, the bytes that arrive are an argument, and the result `blocked` tells that they were not enough. One thread; the locks, the early return in OrazioClient_get that keeps one, joint indices beyond the client's arrays, and a line that breaks are not modelled.
- Clients.OrazioClient.Sync: as SendPacket, the bytes that arrive are an argument; the drive command is not changed by other threads between the rounds.
- UART rings: the line is an unbounded FIFO channel. Their 8-bit sizes against 256 entries are not modelled.
- Status counters: rx_packets, tx_packets and the error counts are kept; buffer sizes, idle_cycles, rx_seq and rx_packet_queue are not.
- Logger: the text of the records (the buffers are reused stack arrays), liveness at shutdown, keyboard and joystick. The thread machine uses a sequence for the queue; `Queues.Queue` refines that sequence.
- Encoders.Encoder.Sample: interrupt masking is not modelled; sampling and the interrupt handler are atomic, as the masking makes them.
- Joints.JointController.Handle: a 16-bit int, as on the ATmega; the H-bridge and the PWM pins are left out.
- Drives.DifferentialDriveController.Update: reals instead of floats, without the integration of x, y and theta and its Taylor terms. ikr, ikl and baseline must not be 0.
- Drives.DifferentialDriveController.Control: requires that the joint speeds fit an int16, since converting others is undefined in C; `Drives.WheelFits` gives a condition on the parameters.
- Watchdog.WatchdogTrips: watchdog_cycles and joint parameters do not change during the run. The start of a cycle, each packet and the end of a cycle are atomic; timer ticks fall anywhere between them, not within.
- MainLoop.Platform.StartCycle: requires, when the drive is on, that the speeds it commands fit an int16, for the same reason.
- MainLoop.Platform.Cycle: the same.
- MainLoop.Platform.Receive: a reinitialisation of the drive keeps the parameters; the floats of a drive command are given as velocities, and whether a bridge accepts its pins is an argument (Reception.Outside).
- Sonars.Sonar.Handle: reading the ranges is left out; what is polled is kept in a variable.
- Registers, interrupt masks, H-bridges, PWM, EEPROM offsets, timers, serial ports, camera, web server, shell, packet printing.
