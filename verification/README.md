# Verification of the telemetry stack

This project models a small publish/subscribe telemetry stack for embedded boards and hosts, and proves what it keeps. Four
parts carry the weight: the reference-counted message bus, the framed serial codec with its two checksums, CAN
fragmentation and reassembly with the m3tel record file, and the small machines around them (blocking queue, shutdown,
file buffering, component states, wrapped clocks).

Run `dafny verify dfyconfig.toml` in this directory to check everything.

## How it is built

Each part has a module of definitions on values and, where the source changes state in place, a class or methods
with loops that are proved equal to those definitions. Results are then proved about the definitions, for all inputs and
all runs.

- `Telemetry`: bytes, little-endian fields, packets.
- `ShiftRegister`, `Crc32`, `Crc16`: both checksums as shift registers over an abstract word; linearity and "a step loses nothing" give burst
  detection for any register that obeys the laws. `Crc32` also proves that the generated table is eight steps of the register.
- `Crc16Values`, `Crc32Values`: the published check values, and what a message followed by its own checksum leaves in the register.
- `Framing`, `FramingTheorems`, `Resync`: the frame format and its decoder for any two checksums; `SerialErrors` puts in the two of the code, and `SerialValues` writes out one frame.
- `FileStreams`, `Serial`: the buffered streams and the serial interface as classes and methods, ending in `RecordAndReplay`.
- `Can`, `CanTheorems`, `CanLoss`, `CanFaults`, `CanInterface`, `M3File`, `M3Drivers`: reassembly for any well-formed table of mappings, what loss and single faults do to it, the interface
  object, and the record file.
- `Bus`: the bus as a machine over any number of threads with five orders of check, post and retain. `BusFilters`: what a filter selects, bit by bit. `BusSafety`, `BusSteps`, `BusRuns`: what every
  step keeps, and whole runs. `BusMoves`, `BusWindow`, `BusHistory`: mailboxes, and what becomes of every packet a consumer accepts. `BusThreads`,
  `BusRefusals`, `BusInOrder`: one thread against several. `Messaging`: an object whose calls, callbacks included, are runs of that machine in the code's order.
- `HostMessaging`: the host build's messaging system as an object over unbounded mailboxes.
- `AtomicCounter`, `BlockingQueue`, `Shutdown`, `ComponentState`, `Clock`: the smaller machines.

Machines are total: an event that cannot happen in a state changes nothing, so a theorem about all sequences of events is a theorem about
all runs. Proofs use `hide` to keep definitions out of the way; nothing is assumed.

Modelling choices. Byte values are 8-bit vectors; packet fields and CAN ids are numbers with the ranges of their C types, and the code's shifts and
masks by powers of two are written as `/` and `%`. Allocation is an oracle per call: whether the heap has room and, for the
serial decoder, what the returned memory held. Memory operations are sequentially consistent.

## What does not hold, and exactly when it does

- The bus posts to a mailbox before it retains (os/chibios/messaging.c:175-182). A consumer that runs in between frees the reference under
  the sender (`BusThreads.RaceFreesWhatTheSenderHolds`). The code's order is safe in every run if and only if at most one thread uses the bus
  (`BusThreads.CodeOrderIsSafeIffAlone`), and a step goes wrong if and only if it releases a reference whose count is one while a post of it is
  still to be retained (`BusSteps.StepKeeps`). With post and retain as one step, or with retaining moved before the post, every run is safe (`BusRuns.RunsAreSafe`).
- The on-board m3tel output asks for the CAN flag with a mask of 0 (os/chibios/impl/m3teloutput.c:77). A filter with a bit outside its mask takes nothing
  (`BusFilters.BitOutsideTheMask`), so that output never gets a packet (`BusFilters.M3OutputTakesNothing`).
- Between dropping the oldest entry and posting again (os/chibios/messaging.c:178-179) another thread can take the room. With room for one packet in every
  mailbox, no send in the code's order ever reports a full buffer if and only if at most one thread uses the bus (`BusRefusals.NeverFullIffAlone`).
- Between a check and its post another thread can post first (os/chibios/messaging.c:205-211). In the code's order every consumer's packets are queued in the order
  in which it accepted them, in every run, if and only if at most one thread uses the bus (`BusInOrder.InOrderIffAlone`); what each single thread sends
  keeps its order always (`BusInOrder.EachThreadPostsInOrder`).
- The host's receive looks and dequeues under two locks (os/std/messaging.cpp:174-179). A receive that is not to block never waits, in any run, if and only if at
  most one thread receives from the mailbox (`BlockingQueue.NeverWaitsIffOneReceiver`). With a second one, any state with a packet queued leads to one in which it
  waits (`BlockingQueue.SecondReceiverSpoilsTheLook`), and the flush of a paused consumer then hangs until somebody enqueues or closes
  (`BlockingQueue.StuckUntilPutOrClose`).
- The decoder ignores whether the payload and its CRC were read in full (src/serial_interface.c:96,99). A packet it accepts was received whole if and only
  if those reads succeeded (`FramingTheorems.WholeIffAllRead`); an empty packet is accepted if and only if those bytes of its CRC that did arrive are
  zero (`SerialErrors.EmptyPayloadAccepted`), so one with its CRC cut off passes (`SerialErrors.CutOffEmptyPacketIsAccepted`).
- A short CAN fragment is accepted (src/can_interface.c:141-148). The delivered payload is free of stale bytes if and only if all fragments are full
  (`CanTheorems.StaleBytesIffNotFull`).
- Loss can splice two messages (src/can_interface.c:126-148): of a message cut short and a next one that starts late a packet is delivered if and only if the cuts are
  at the same place (`CanLoss.LossSplices`), and it is neither of the two if and only if they differ on both sides of it (`CanLoss.SpliceIsNeither`). However
  fragments are lost, repeated or reordered, only messages that were sent are delivered if and only if no completed stretch of fragments mixes messages
  (`CanLoss.OnlySentMessagesIffUnmixed`).
- An m3tel file gives back exactly the representable packets if and only if no wrapped packet carries the CAN id of a mapping (`M3File.FileRoundTrip`).
  The replaying loop turns once more after the last record; if its struct still holds that record, the last packet comes back twice if and only if it was wrapped
  without such an id or its mapping has a single fragment (`M3File.LastRecordAgain`).
- The .tel driver's destructor lowers `is_running` before it closes the mailbox (os/std/impl/OutputFileDriver.cpp:70-72). What it loses is what is accepted after its reader has
  finished (`Shutdown.FlagFirstLosesTheLate`). From a state before the destructor starts it drains, however it goes on, if and only if no sender can be late: none may still start,
  and none is on its way to the mailbox, but for a single one for which the reader waits (`Shutdown.FlagFirstDrainsIffNobodyCanBeLate`). The m3tel driver closes first and
  always drains (`Shutdown.CloseFirstDrains`).
- `clocks_between` adds 2^32 - 1 on a wrap (src/time_utils.c:5-6), and the CSV driver takes a timestamp of 0 for "no packet yet". The accumulated time is the true time less one
  tick per wrap, less the gaps behind timestamps of 0 (`Clock.AccumulatesTrueTimeLessWraps`), so it is exact if and only if there are neither (`Clock.ExactIffNoWrap`).
- The comment at src/serial_interface.c:8 says that an escaped byte is preceded by 0x7E; the code writes 0x7D, and the model follows the code.

## Model

| member | source | states |
|---|---|---|
| Telemetry.HeaderRoundTrip | include/telemetry.h:14-18 | reading the header's eight bytes back gives the packet's id, payload length and timestamp |
| Telemetry.HeaderCanonical | include/telemetry.h:14-18 | only one byte string reads as a given header, so equal headers have equal bytes |
| Telemetry.HeaderLayout | include/telemetry.h:14-18 | each header field lies at its offset, low byte first |
| ShiftRegister.RunIsLoadAndStep | src/checksum.c:37-46 | feeding bits one at a time into a register equals loading them at once and stepping |
| ShiftRegister.RunOfDifference | src/checksum.c:33-48 | the register is linear: the difference of two runs is the run of the difference of the messages |
| ShiftRegister.FoldIsRun | src/checksum.c:25-28 | any byte loop whose body equals eight register steps computes the bit-serial register |
| ShiftRegister.DetectsBurst | src/checksum.c:33-48 | two different messages of one length that differ only inside a window as wide as the register leave it different |
| ShiftRegister.FirstByteOfWord | src/checksum.c:37-46 | the byte of a word nearest the loading end is its first eight bits, and the rest follows |
| Crc32.RegisterLaws | src/checksum.c:11-13 | the reflected CRC-32 step is linear and loses nothing |
| Crc32.EightSteps | src/checksum.c:27 | eight steps are a shift by one byte and one table entry |
| Crc32.ByteLoopIsRun | src/checksum.c:25-28 | the table-driven byte loop equals the bit-serial register for every buffer |
| Crc32.InnerTurn | src/checksum.c:12-13 | the masked shift of the table generator is one register step |
| Crc32.EightTurns | src/checksum.c:10-14 | the inner loop gives the register eight steps after the byte |
| Crc32.GenLookup | src/checksum.c:7-17 | fills all 256 entries of the table, each with the register eight steps after its index |
| Crc32.Compute | src/checksum.c:23-30 | the checksum over the table is the complemented bit-serial CRC-32 of the buffer |
| Crc32.ChecksumDetectsBurst | src/checksum.c:23-30 | every burst of at most 32 bits changes the CRC-32 |
| Crc32Values.CheckValue | src/checksum.c:23-30 | the checksum of "123456789" is 0xCBF43926, that of nothing is 0 |
| Crc32Values.Residue | src/checksum.c:23-30 | every message followed by its checksum, low byte first, leaves the register at 0xDEBB20E3 |
| Crc16.RegisterLaws | src/checksum.c:38-45 | the high-bit-first step with 0x1021 is linear and loses nothing |
| Crc16.InnerTurn | src/checksum.c:39-44 | the branch on the top bit is one register step |
| Crc16.UpdateByte | src/checksum.c:37-45 | the body of the byte loop is eight steps from the byte loaded at the top |
| Crc16.Compute | src/checksum.c:33-48 | the checksum is the complemented bit-serial register of the buffer |
| Crc16.ChecksumDetectsBurst | src/checksum.c:33-48 | every burst of at most 16 bits changes the CRC-16 |
| Crc16Values.CheckValue | src/checksum.c:33-48 | the checksum of "123456789" is 0xD64E, that of nothing is 0 |
| Crc16Values.Residue | src/checksum.c:33-48 | every message followed by its checksum, high byte first, leaves the register at 0x1D0F |
| Framing.StuffedHasNoDelimiter | src/serial_interface.c:15-34 | the delimiter never occurs inside a frame |
| Framing.ReadStuffed | src/serial_interface.c:61-77 | reading stuffed bytes gives them back and uses up exactly the stuffing |
| Framing.ReadIsCanonical | src/serial_interface.c:61-77 | whatever was read successfully lay in the stream as exactly its own stuffing |
| Framing.Skip | src/serial_interface.c:115 | finds the first delimiter at or after the position, and nothing before it |
| FramingTheorems.ReadContent | src/serial_interface.c:80-108 | an intact frame's content gives its packet if the heap has room and the payload is at most 4000 bytes, nothing otherwise, and is never read past |
| FramingTheorems.ReadIntactFrame | src/serial_interface.c:114-120 | an intact frame is decoded to its packet, and nothing after it is touched, if the heap has room and the payload is at most 4000 bytes; otherwise nothing is returned |
| FramingTheorems.RoundTrip | src/serial_interface.c:36-120 | decoding the frames of any packets, anywhere in a stream, returns them in order and ends right behind them |
| FramingTheorems.JudgeAccepts | src/serial_interface.c:83-107 | a packet that is returned passed both checks, and its header is the one that was read |
| FramingTheorems.OverlayIs | src/serial_interface.c:91-99 | a buffer that was read into holds the bytes read, then what it held, then zeros |
| FramingTheorems.WholeIffAllRead | src/serial_interface.c:91-107 | an accepted packet's bytes are its own encoding if and only if the ignored reads succeeded |
| Resync.DelimiterStops | src/serial_interface.c:61-77 | a read that starts before a delimiter stops at it at the latest, and then fails |
| Resync.StopsBeforeEnd | src/serial_interface.c:80-108 | no call from before an intact frame reads past the end of that frame, whatever it does |
| Resync.Resynchronises | src/serial_interface.c:114-120 | after any bytes and any allocator behaviour, some calls lead to the end of an intact frame |
| Resync.AtMostOneFrameIsLost | src/serial_interface.c:114-120 | for any garbage, one intact frame and further frames, the later packets are all returned and the stream ends: at most one is lost |
| SerialErrors.Word16Layout | src/serial_interface.c:43-44 | the CRC-16 is sent low byte first |
| SerialErrors.Word32Layout | src/serial_interface.c:51-52 | the CRC-32 is sent low byte first |
| SerialValues.PayloadResidue | src/serial_interface.c:50-52 | a payload and its CRC as sent leave the CRC register at 0xDEBB20E3 |
| SerialValues.HeaderResidue | src/serial_interface.c:42-44 | a header and its CRC, taken high byte first, leave the CRC register at 0x1D0F |
| SerialValues.ExampleFrame | src/serial_interface.c:15-59 | all bytes of one frame whose payload is the two bytes that are escaped |
| SerialErrors.HeaderBurstIsNoticed | src/serial_interface.c:83-89 | a burst of up to 16 bits in the header of an otherwise intact frame makes the call return nothing |
| SerialErrors.PayloadBurstIsNoticed | src/serial_interface.c:96-104 | a burst of up to 32 bits in the payload of an otherwise intact frame makes the call return nothing |
| SerialErrors.WrongHeader | src/serial_interface.c:83-89 | a header whose check does not match is rejected before anything else is read |
| SerialErrors.EmptyPayloadAccepted | src/serial_interface.c:96-107 | a frame announcing no payload is accepted if and only if the CRC bytes that arrived are all zero |
| SerialErrors.CutOffEmptyPacketIsAccepted | src/serial_interface.c:96-107 | a frame cut off before its CRC is accepted though it was not received whole |
| FileStreams.OutputStream.Put | os/std/impl/OutputFileDriver.cpp:17-24 | file and buffer together are all bytes put, in order; a refused byte changes nothing |
| FileStreams.OutputStream.Flush | os/std/impl/OutputFileDriver.cpp:26-30 | afterwards the file holds all bytes put |
| FileStreams.InputStream.Refill | os/std/impl/InputFileDriver.cpp:23-27 | refilling loses and repeats no byte of the file |
| FileStreams.InputStream.Get | os/std/impl/InputFileDriver.cpp:17-32 | returns the file's bytes one by one and 0x7E for ever after the last; ends |
| Serial.WriteBytesToBuffer | src/serial_interface.c:15-34 | the stuffing of the data goes out, or, if the stream times out, a prefix of it |
| Serial.SendPacket | src/serial_interface.c:36-59 | the frame of the packet goes out and is flushed, or, if the stream times out, a prefix of it |
| Serial.SendAll | os/std/impl/OutputFileDriver.cpp:35-47 | packets sent one after the other make the concatenation of their frames |
| Serial.ReadBytesToBuffer | src/serial_interface.c:61-77 | result, buffer and stream position are those of the reading function; the rest of the buffer keeps what it held |
| Serial.ReadPayload | src/serial_interface.c:91-107 | the payload and CRC reads are ignored, unread bytes are what the memory held, and the CRC is compared with zeros filled in |
| Serial.ReadFrame | src/serial_interface.c:80-108 | returns what the decoder on values returns, for what the allocator did |
| Serial.NextPacket | src/serial_interface.c:114-120 | skips to the next delimiter, decodes, and ends |
| Serial.NothingLeftForEver | os/std/impl/InputFileDriver.cpp:18-22 | at the end of the file every call returns nothing |
| Serial.RecordedIsReplayed | src/serial_interface.c:36-120 | reading the frames of packets from a file gives the packets, in order, and then nothing for ever |
| Serial.RecordAndReplay | os/std/impl/InputFileDriver.cpp:17-42 | packets sent through the write buffer and read through the read buffer come back in order, then nothing |
| Can.TableIsWellFormed | src/can_interface.c:26-32 | the table of the code has distinct ids and boards, sizes of 1 to 64 bytes and ids outside the wrapped range |
| Can.FieldsOfCanId | src/can_interface.c:85-97 | the id of a fragment is below 2^11, gives back its fields, and belongs to its own mapping only |
| Can.ExampleId | src/can_interface.c:85-97 | the third fragment of the table's first packet has id 0x745, which belongs to that mapping only |
| Can.FindCan | src/can_interface.c:85-93 | finds the mapping of an id, or none if none matches |
| Can.SlotStep | src/can_interface.c:117-153 | keeps the expected fragment number below the number of fragments and the buffer at 64 bytes, and delivers only whole messages of the mapping's id and size |
| Can.Run | src/can_interface.c:108-154 | after any frames at all, every slot expects a fragment that its mapping has and holds 64 bytes |
| CanTheorems.CompleteMessage | src/can_interface.c:117-153 | a complete message is delivered byte for byte if and only if the slot was idle, and leaves it idle |
| CanTheorems.Recovers | src/can_interface.c:117-153 | from any state, complete messages are all delivered but at most the first |
| CanLoss.LossSplices | src/can_interface.c:126-148 | of a message cut short and a next one that starts late a packet is delivered if and only if the cuts are at the same place, and then it is the two halves |
| CanLoss.SpliceIsNeither | src/can_interface.c:126-148 | such a packet is neither message if and only if the two differ on both sides of the cut |
| CanLoss.StretchesAreDelivered | src/can_interface.c:126-153 | whatever is lost, repeated or reordered, exactly the completed stretches of consecutively numbered fragments are delivered |
| CanLoss.OnlySentMessagesIffUnmixed | src/can_interface.c:126-153 | only messages that were sent are delivered if and only if no completed stretch mixes fragments of different messages |
| CanFaults.OversizedIsIgnored | src/can_interface.c:141-144 | after any frames, an expected fragment that is too long changes neither the interface nor what later frames deliver |
| CanFaults.FailedAllocationLosesItsPacket | src/can_interface.c:66-75 | a frame for whose packet the heap has no room loses that packet and nothing else |
| CanTheorems.StaleBytesIffNotFull | src/can_interface.c:141-151 | fragments in order deliver old buffer bytes if and only if some fragment is short |
| CanTheorems.NonInterference | src/can_interface.c:108-154 | each mapping ends in the state and delivers the packets that its own frames alone would give |
| CanTheorems.StraysPass | src/can_interface.c:99-106 | frames without a mapping are wrapped one by one, whatever else arrives |
| CanTheorems.ShuffledMessagesArrive | src/can_interface.c:108-154 | in any shuffle of several mappings' fragments and other frames, each mapping delivers its messages in its order |
| CanInterface.Interface.CheckMultipacketDefinitions | src/can_interface.c:34-43 | true if and only if no mapping needs more than eight fragments |
| CanInterface.Interface.Init | src/can_interface.c:53-64 | initialised afterwards if and only if all mappings are valid; then every mapping expects its first fragment |
| CanInterface.Interface.MappingForCanId | src/can_interface.c:85-93 | the loop finds the first mapping that matches, or none |
| CanInterface.Interface.MappingForTelemetryId | src/can_interface.c:77-83 | the loop finds the first mapping of the id, or none |
| CanInterface.Interface.Store | src/can_interface.c:133-146 | a fragment is copied inside its own mapping's 64 bytes and nothing else changes |
| CanInterface.Interface.ReceiveFragment | src/can_interface.c:123-153 | the buffers become those of the step on values; the check at line 136 never fires |
| CanInterface.Interface.Receive | src/can_interface.c:108-154 | buffers and delivered packets are those of the step on values; nothing happens before initialisation |
| CanInterface.Interface.SendFragments | src/can_interface.c:187-204 | the loop sends the fragments of the payload in order, one for each eight bytes begun, eight at most |
| CanInterface.Interface.Send | src/can_interface.c:156-205 | sends the frames a packet is split into, one wrapped frame, or nothing |
| M3File.RecordRoundTrip | os/std/impl/M3OutputFileDriver.cpp:18-33 | a record read back is the frame and timestamp that were written |
| M3File.RecordLayout | os/std/impl/M3OutputFileDriver.cpp:18-33 | each field of a record lies at its offset, low byte first, the data padded with zeros |
| M3File.MappedComesBack | src/can_interface.c:167-205 | a mapped packet sent to an idle interface is delivered as itself |
| M3File.WrappedComesBack | src/can_interface.c:156-165 | a wrapped packet of 1 to 8 bytes whose CAN id hits no mapping is delivered as itself |
| M3File.WithoutHitsAllComeBack | os/std/impl/M3InputFileDriver.cpp:19-25 | without hits, exactly the representable packets come back, in order |
| M3File.HitsAreMissing | src/can_interface.c:117-121 | the wrapped packets that come back are, in order, exactly those that hit no mapping |
| M3File.FileRoundTrip | os/std/impl/M3InputFileDriver.cpp:19-25 | replaying a file gives exactly the representable packets in order if and only if no wrapped packet hits a mapping |
| M3Drivers.RecordWriter.CanSend | os/std/impl/M3OutputFileDriver.cpp:18-33 | appends one 16-byte record, padded with zeros, with the last timestamp |
| M3Drivers.RecordWriter.ReceivePacket | os/std/impl/M3OutputFileDriver.cpp:38-41 | appends the records of the packet's frames, stamped with its own timestamp |
| M3Drivers.Replay | os/std/impl/M3InputFileDriver.cpp:19-25 | over any file, the full records give what their frames give, and one more turn handles the bytes of the read that fell short over what the struct held |
| M3File.LastRecordAgain | os/std/impl/M3InputFileDriver.cpp:19-25 | the last record, received again, gives the last packet a second time if and only if it was wrapped without a hit or has a single fragment |
| M3Drivers.RecordAndReplay | os/std/impl/M3InputFileDriver.cpp:19-25 | what the records of a written file give is the representable packets if and only if none hits a mapping; says when the extra turn gives a packet, and when that is the last one again |
| BusFilters.WantsIffBits | os/chibios/messaging.c:206-209 | a packet is wanted if and only if every masked bit of its id and flags is the one asked for and none is asked for outside the mask |
| BusFilters.FiltersInUse | os/chibios/can_telemetry.c:56 | the all-zero filter takes everything, (1, 1) exactly what has bit 0 set, (0, 2) exactly what has bit 1 clear |
| BusFilters.BitOutsideTheMask | os/chibios/impl/m3teloutput.c:77 | a filter that asks for a bit outside its mask takes nothing |
| BusFilters.M3OutputTakesNothing | os/chibios/impl/m3teloutput.c:77 | so the on-board m3tel output takes nothing |
| BusSafety.UseAfterFreeBreaks | os/chibios/messaging.c:102-111 | a retain or release goes wrong if and only if its reference was freed already, or is freed while it has an owner |
| BusSafety.FreesAreCounted | os/chibios/messaging.c:108 | every free of a packet is counted, and for that packet only |
| BusSafety.PushKeeps | os/chibios/messaging.c:188-221 | taking up a reference keeps counts, owners and what is still to be retained in balance |
| BusSafety.ReleaseKeeps | os/chibios/messaging.c:106-111 | a release frees exactly at the last count, and wrongly exactly when a post is still to be retained |
| BusSteps.StepKeeps | os/chibios/messaging.c:174-286 | every step of every thread keeps the invariant or, only in the code's order and under the stated condition, breaks the run |
| BusRuns.RunsAreSafe | os/chibios/messaging.c:92-278 | with retaining no later than the post, in every run counts equal owners, slots are conserved and every packet is freed once or held |
| BusRuns.CodeOrderBalances | os/chibios/messaging.c:174-186 | in the code's order count plus posts not yet retained equal owners in every state of an unbroken run |
| BusRuns.FreedWhenUnheld | os/chibios/messaging.c:106-111 | a step that frees a packet leaves nobody holding its reference |
| BusThreads.RaceBreaksOnlyTheCodeOrder | os/chibios/messaging.c:174-186 | with two threads or more, six events break the run in the code's order and in no other |
| BusThreads.RaceFreesWhatTheSenderHolds | os/chibios/messaging.c:174-186 | at the end of that run the packet is freed while the sender still holds its reference |
| BusThreads.CodeOrderIsSafeIffAlone | os/chibios/messaging.c:174-186 | the code's order is safe in every run if and only if at most one thread uses the bus |
| BusThreads.UninterruptedPostIsOneStep | os/chibios/messaging.c:175-183 | post and retain, uninterrupted, come to the one step of the safe order |
| BusThreads.FusedRunIsCodeRun | os/chibios/messaging.c:174-221 | every run with post and retain as one step is, with all its events, a run of the code's own order |
| BusMoves.OfferMoves | os/chibios/messaging.c:174-213 | what each step of a sender does: where it goes on, and which consumer is offered the packet |
| BusWindow.MailboxesAreWindows | os/chibios/messaging.c:174-278 | what was offered to a consumer is what was taken out, oldest first, then what is queued, within capacity and filter |
| BusWindow.NoSendFindsTheBufferFull | os/chibios/messaging.c:205-220 | where the enqueue is one step and every mailbox has room for one packet, no send reports a full buffer |
| BusRefusals.AloneIsNeverRefused | os/chibios/messaging.c:174-220 | in any order of steps, one thread never finds a buffer full |
| BusRefusals.SecondThreadTakesTheRoom | os/chibios/messaging.c:174-220 | in the code's order a second thread can take the room a sender made: the send reports a full buffer and its packet is not queued |
| BusRefusals.NeverFullIffAlone | os/chibios/messaging.c:174-220 | in the code's order no send ever reports a full buffer if and only if at most one thread uses the bus |
| BusHistory.AcceptedPacketsAreAccountedFor | os/chibios/messaging.c:205-213 | in every run and order, what a consumer accepted while unpaused and matching is what was taken, is queued, stands between check and post, or was refused |
| BusHistory.EveryAcceptedPacketIsQueuedOnce | os/chibios/messaging.c:205-213 | where check and enqueue are one step, the matching-while-unpaused history is in order what was taken followed by what is queued |
| BusInOrder.EachThreadPostsInOrder | os/chibios/messaging.c:174-213 | in every run and order, what a thread puts into a mailbox or is refused is in order what its checks accepted, then the packet it stands with |
| BusInOrder.AloneQueuesInOrder | os/chibios/messaging.c:174-213 | with one thread, in the code's order too, the matching-while-unpaused history is in order what was taken, is queued, and the packet the thread stands with |
| BusInOrder.SecondThreadOvertakes | os/chibios/messaging.c:205-211 | a run of the code's order in which a packet accepted later is queued first |
| BusInOrder.InOrderIffAlone | os/chibios/messaging.c:174-213 | in the code's order packets are queued in the order of acceptance in every run if and only if at most one thread uses the bus |
| BusHistory.FinishedSendsCheckedEveryConsumer | os/chibios/messaging.c:200-213 | a send checks every consumer registered when it began, in order, each once |
| Messaging.System.Retain | os/chibios/messaging.c:102-104 | adds one to the count |
| Messaging.System.Release | os/chibios/messaging.c:106-111 | takes one off the count, and frees packet and slot with the last one |
| Messaging.System.RegisterConsumer | os/chibios/messaging.c:146-171 | registers a consumer with an empty mailbox unless twenty are registered |
| Messaging.System.Receive | os/chibios/messaging.c:256-278 | takes the oldest packet, hands it to the callback unless silent, and releases it when the callback, which may call the bus again, returns |
| Messaging.System.Perform | os/chibios/messaging.c:188-286 | any calls, nested in callbacks to any depth, are a run of the machine in the code's own order and keep the invariant |
| Messaging.System.EnqueuePacket | os/chibios/messaging.c:174-186 | the packet is queued, in place of the oldest if there is no room; fails only without any capacity |
| Messaging.System.Send | os/chibios/messaging.c:188-221 | every unpaused consumer whose filter bits the packet has then holds the newest entries with the packet last, others are untouched; a run of the machine in the code's own order |
| Messaging.System.PauseConsumer | os/chibios/messaging.c:280-286 | pauses, and a flush drops everything queued, in order, and ends |
| Messaging.System.ResumeConsumer | os/chibios/messaging.c:288-290 | resumes, and changes nothing else |
| Messaging.EnqueueSlidesTheWindow | os/chibios/messaging.c:174-186 | after an enqueue the mailbox holds the newest entries it has room for |
| HostMessaging.System.Send | os/std/messaging.cpp:113-133 | every unpaused, open consumer whose filter bits the packet has takes it, others are untouched, and no mailbox loses or reorders anything |
| HostMessaging.System.SendAll | os/std/messaging.cpp:113-133 | of packets sent one after the other an unpaused open consumer takes, in order, exactly those its filter selects, a paused or closed one none |
| HostMessaging.System.Receive | os/std/messaging.cpp:168-187 | takes the oldest packet; on an empty mailbox it reports that when not blocking, the end when closed, and otherwise waits |
| HostMessaging.System.Drain | os/std/impl/OutputFileDriver.cpp:46 | the second loop of the reader hands what is queued to the callback in order, up to the first packet on which it fails |
| HostMessaging.System.PauseConsumer | os/std/messaging.cpp:189-193 | pauses; while no other thread receives from the mailbox, a flush drops everything queued and ends |
| HostMessaging.System.ResumeConsumer | os/std/messaging.cpp:195-197 | resumes, and changes nothing else |
| HostMessaging.System.PauseAndResume | os/std/messaging.cpp:189-197 | while paused nothing sent gets into the mailbox; once resumed what the filter selects does, in order |
| HostMessaging.System.TerminateConsumer | os/std/messaging.cpp:199-202 | pauses and closes; what is queued stays |
| HostMessaging.System.TerminateAndDrain | os/std/messaging.cpp:199-202 | after termination no send changes the mailbox, draining takes everything it ever accepted, and a blocking receive does not wait |
| HostMessaging.System.ReopenConsumer | os/std/messaging.cpp:85-92 | a second initialisation opens the mailbox and resumes the consumer |
| HostMessaging.System.Restart | os/std/messaging.cpp:85-133 | after that the consumer takes what it wants again |
| AtomicCounter.LoopsAreAtomicAdds | os/chibios/messaging.c:76-90 | in every interleaving the counter is its first value plus what completed calls added, mod 2^32, and each returned the value after its own |
| AtomicCounter.EveryCallAddsOnce | os/chibios/messaging.c:76-90 | in every interleaving each call that began has added its amount exactly once or is still in its loop, and nothing else was added |
| AtomicCounter.NoAdditionIsLost | os/chibios/messaging.c:76-90 | when all calls have returned, the counter is its first value plus the amounts of all calls begun, mod 2^32 |
| AtomicCounter.UninterruptedTurnCompletes | os/chibios/messaging.c:78-80 | a load and a store that nothing interrupts complete the call |
| AtomicCounter.LostReservationRetries | os/chibios/messaging.c:78-80 | a store without its reservation changes nothing and goes back to the load |
| AtomicCounter.OneReleaserSeesZero | os/chibios/messaging.c:102-111 | exactly one call, a release, sees zero if the count gets there, otherwise none |
| BlockingQueue.Look | os/std/impl/TQueue.h:21-31 | closed exactly when empty and not running; otherwise waits exactly when empty |
| BlockingQueue.TQueue.EnqueueLocked | os/std/impl/TQueue.h:13-19 | appends and notifies if and only if running |
| BlockingQueue.TQueue.DequeueLocked | os/std/impl/TQueue.h:21-31 | takes the oldest value, gives up, or waits |
| BlockingQueue.NoLostWakeUp | os/std/impl/TQueue.h:13-47 | while a thread waits, as many are awake as values queued; none waits when closed; values come out once and in order |
| BlockingQueue.PutReachesAWaiter | os/std/impl/TQueue.h:13-19 | an enqueue on an open queue goes in, and a thread that waits gets to take the oldest value |
| BlockingQueue.SpuriousWakeLooksAgain | os/std/impl/TQueue.h:23-27 | a thread that wakes for no reason looks again |
| BlockingQueue.CloseReleasesEverybody | os/std/impl/TQueue.h:38-42 | after a close nobody waits, and whoever waited takes a value or gives up |
| BlockingQueue.ClosedTakesNothing | os/std/impl/TQueue.h:15-16 | from a close on, until the queue is opened, nothing is accepted and nobody starts to wait |
| BlockingQueue.OpenTakesAgain | os/std/impl/TQueue.h:44-47 | once opened, the queue takes what is enqueued |
| BlockingQueue.TQueue.CloseLocked | os/std/impl/TQueue.h:38-42 | nothing is enqueued any more, what is queued stays |
| BlockingQueue.TQueue.OpenLocked | os/std/impl/TQueue.h:44-47 | enqueues are taken again |
| BlockingQueue.TQueue.DequeueNow | os/std/messaging.cpp:174-179 | if no other thread takes a value between its look and its dequeue, a receive that looks first takes the oldest value there is and does not wait |
| BlockingQueue.NeverWaitsIffOneReceiver | os/std/messaging.cpp:174-179 | in every run no receive that looks first waits, if and only if at most one thread receives from the queue |
| BlockingQueue.SecondReceiverSpoilsTheLook | os/std/messaging.cpp:174-179 | from any state with a value in an open queue, a second receiver can make such a receive wait |
| BlockingQueue.StuckUntilPutOrClose | os/std/impl/TQueue.h:21-31 | a dequeue that waits on an open queue stays there until somebody enqueues or closes, so a flush hangs |
| BlockingQueue.FlushOfOneReceiverEnds | os/std/messaging.cpp:189-193 | the only receiver's flush takes everything queued, in order, and ends when it finds the queue empty |
| BlockingQueue.TQueue.CloseAndDrain | os/std/impl/TQueue.h:13-42 | after a close enqueues are dropped, and dequeues never wait and give everything queued, in order |
| BlockingQueue.GivesUpOnlyWhenClosed | os/std/impl/TQueue.h:21-31 | in every run dequeue returns false if and only if the queue is closed and everything accepted was taken |
| Shutdown.CloseFirstDrains | os/std/impl/M3OutputFileDriver.cpp:46-81 | in every interleaving, when the reader is finished everything accepted was handled once, in order |
| Shutdown.JoinReturns | os/std/impl/M3OutputFileDriver.cpp:70-81 | in both drivers, once the destructor has taken its steps, a bounded number of reader steps finishes the reader, whatever the others do |
| Shutdown.PausedTakesOnlyWhatWasOnItsWay | os/std/messaging.cpp:199-202 | once the consumer is paused, the mailbox takes only packets that had passed the check by then, each once |
| Shutdown.FlagFirstLosesTheLate | os/std/impl/OutputFileDriver.cpp:42-77 | everything accepted was handled if and only if nothing was accepted after the reader finished |
| Shutdown.FlagFirstCanLose | os/std/impl/OutputFileDriver.cpp:66-77 | a run in which an accepted packet is never handled |
| Shutdown.FlagFirstDrainsIffNobodyCanBeLate | os/std/impl/OutputFileDriver.cpp:42-77 | from any state before the destructor starts, every continuation drains if and only if no sender can be late |
| Shutdown.FlagFirstDrainsQuietly | os/std/impl/OutputFileDriver.cpp:66-77 | with the senders stopped before the destructor starts, everything accepted is handled |
| ComponentState.Components.GetOverallState | src/component_state.c:64-76 | the loop with its break finds the worst state: an error if there is one, else initializing if there is one, else ok |
| ComponentState.Components.Update | src/component_state.c:40-62 | the component holds the new state whatever happens; the messaging and allocator components become errors exactly when a report failed in their way, no other changes; at most one report goes out, carrying the worst state after the write |
| ComponentState.Components.ProducerSend | os/chibios/messaging.c:233-252 | failing reports mark the components at fault and send nothing further |
| ComponentState.WorstIsUnique | src/component_state.c:64-76 | the overall state is determined by the components' states |
| ComponentState.UpdatedIs | src/component_state.c:40-57 | what an update leaves in every component, reporting or not, for every way a report can end |
| ComponentState.Components.SendOverall | src/component_state.c:111-116 | at most one report for each component that reports; if all get through, in order and with no state changed |
| ComponentState.FailureShows | src/component_state.c:64-76 | after a failed report the overall state is an error until the messaging component is updated, whatever else is reported |
| Clock.OneGap | src/time_utils.c:3-9 | the difference is the true gap, less one tick if the counter wrapped in it |
| Clock.Timer.Receive | os/std/impl/CSVOutputFileDriver.cpp:40-46 | accumulates in place, starting at the first non-zero timestamp |
| Clock.AccumulatesTrueTimeLessWraps | os/std/impl/CSVOutputFileDriver.cpp:40-46 | in every run the accumulated time is, mod 2^64, the true time less the number of wraps, less the gaps behind timestamps of 0 |
| Clock.WithoutZerosOnlyWrapsAreLost | os/std/impl/CSVOutputFileDriver.cpp:40-46 | without timestamps of 0 it is the true time less exactly the number of wraps |
| Clock.ExactIffNoWrap | os/std/impl/CSVOutputFileDriver.cpp:64-69 | in runs shorter than 2^64 ticks it is exact if and only if the counter did not wrap and no gap was lost |

## Left out

- Crc32.Compute: does not model the case in which the table was not generated first; `checksum_init` is a precondition.
- Serial.ReadFrame: does not model how the heap chooses and frees blocks; room and old contents are given per call.
- M3Drivers.Replay: does not model a heap that fills up during the replay; reassembly with a full heap is in `Can`.
- BusWindow.NoSendFindsTheBufferFull: does not cover the code's own steps, in which a second thread can take the room; `BusRefusals.NeverFullIffAlone` says exactly when a send finds none.
- BusHistory.EveryAcceptedPacketIsQueuedOnce: does not cover the code's own steps, in which a second thread can overtake; `BusInOrder` and `BusHistory.AcceptedPacketsAreAccountedFor` do.
- HostMessaging.System.PauseConsumer: does not model a second receiver of the same mailbox, with which a flush can hang; `BlockingQueue` does.
- HostMessaging.System.Receive: does not model the waiting itself, which is in `BlockingQueue`, nor the reference counts, which `std::shared_ptr` keeps.
- CanInterface.Interface.Receive: does not model the error reports to the component state; they do not change the interface.
- ComponentState.Components.Update: does not model other threads writing the same component between the write and the guard, nor the update handler; the `!=` in the guard is then always false.
- BlockingQueue.NoLostWakeUp: does not model fairness of the scheduler or of the mutex.
- AtomicCounter.LoopsAreAtomicAdds: does not model barriers or weak memory; accesses are sequentially consistent.
- The time between a count reaching zero and the slot being returned to the pool: it is one step, since nobody holds the reference any more.
- Registration of producers, allocator pools, the start flags and `can_interface_can_send`.
- The loop of the .tel input driver around end of file, and reopening a reader: the stream is modelled, not that loop.
- USB, CAN and SD hardware, serial ports, thread creation, CSV text, file names and the extractor's arguments.
