# A file transfer over a lossy link, verified

This project models a selective-repeat file transfer over UDP and the link simulator it is exercised with,
and proves what they guarantee. Four components are modelled, each in the form the C code has: globals,
linked lists, arrays and structures are classes whose methods are proved against specification functions,
and the properties are lemmas about those functions.

* **The sliding-window protocol** (`src/sender.c`, `src/receiver.c`, `src/nyancat.c`). `Sender`, `Receiver` and
  `PacketList` are the programs; `SenderSpec`, `ReceiverSpec`, `ListSpec` say what each of their functions
  computes, branch by branch; `SeqNumbers` holds the tests on 8-bit numbers exactly as they are written.
  `Protocol` joins the two loops and a link that works on bytes into one state machine. Every chunk of the
  input has an unbounded number that the programs never see, and the invariant says what their 8-bit tests
  decide in terms of it. `Safety`, `Fifo`, `Runs`, `Turns`, `Progress` and `Completion` draw the conclusions, for
  every run; `Staleness`, `OneByOne` and `Sharpness` show where the link's bound is needed. `SenderExact`,
  `SenderRuns` and `ReceiverExact` say in numbers what the programs send, and when.
* **The packet codec** (`src/packet_implement.c`). `Crc32` is the reflected CRC of section 8 of RFC 1952, bit
  by bit, so that what it detects is a theorem. `Codec` is the wire format, `PacketStruct` the structure with its
  setters and buffer routines, `Faults` what damage the decoder notices, `Packets` and `Transport` the packets
  the two programs exchange through it. `Crc32Check` and `WireFormat` fix the
  checksum and the layout against known values.
* **The priority queue** (`min_queue.c`). `HeapSpec` on sequences, `MinQueue` on the array. Slots count from 0,
  but the children of slot x are 2x and 2x + 1, so that slot 0 has slot 1 as its only child.
* **Delayed delivery in the link simulator** (`link_sim.c`). `LinkSpec` for the arithmetic on times that are not
  normalised, `LinkSim` for the object, `LinkRates` for what the options mean, `LinkRuns` and `LinkOrder` for
  whole runs.

## What is proved

1. *Safety.* In every run over a link that loses, repeats, reorders, cuts and damages packets, the receiver's
   file is a prefix of the input made of whole chunks. It is the whole input when the receiver has reported
   the end of the transfer, and when the sender has stopped. (When the receiver stops on its 20-second
   timeout, which is an event of the model, the file is only a prefix.) The one assumption is that what the
   link delivers intact is numbered at most 223 behind what its addressee expects. Over first-in-first-out
   channels that lose and damage packets the assumption always holds, so nothing is assumed there. The bound
   is exact, for data and for acknowledgements: with 224 there are runs from the start, for inputs of 256, or
   226, pieces, that end with a wrong file, because numbers wrap past the tests written with 255 for 256.
2. *Progress.* In every run, each time the oldest unacknowledged chunk and the last answer to it get through,
   whatever else happens, the window moves; as many such rounds as there are packets in the list acknowledge
   all of them.
3. *The end of the transfer.* The sender sends the final packet once and exits, so a transfer need not end
   well: over lossy channels the final packet can still be written if and only if it was written, or the
   receiver has not given up and the sender still runs or the final packet is on its way. Then a continuation
   exists in which the clock never moves back and the input is read whenever there is room. The end is never reported early. It is not reported at all when
   the final packet is numbered 255, because `waited_seqnum-1` is not taken modulo 256: reported if and only
   if the number is not 255, and every input of 255 pieces modulo 256 has a run in which it happens.
4. *The codec* round trips in both directions, and rejects every inverted byte and every change confined to
   four consecutive payload bytes, for every length.
5. *The queue* keeps heap order and the multiset for every strict weak order, refines a multiset with
   extraction of a minimum, sorts when drained, and moves at most logarithmically many elements.
6. *Delayed delivery* is in order, loses and duplicates nothing even when writes must be retried, and is
   early by at most 998999 microseconds, never for a due time with less than a second of microseconds. With
   a constant delay the simulator is a first-in-first-out channel.

## Where the code departs from its documentation

* `src/packet_implement.h:54-55` says that the length is checked against the number of bytes received; the code
  does not use that number, and neither does the model.
* A packet that the link has cut is answered by a NACK only if its CRC2 check passes on bytes left over in the
  receive buffer; otherwise it is dropped like a damaged one: `Faults.TruncationExactly`.
* The window tests wrap with 255 where the numbers wrap at 256. They accept one number more than the
  window when the numbers wrap; `SeqNumbers.*Exactly` and `SenderSpec.FittingExactly` say exactly which.
* A jitter of more than the delay and one wraps the unsigned subtraction, and the delay applied can be any up to
  ten seconds; `LinkSpec.DelayExactly` says for which options the delay is the one asked for.
* `get_queue_timeout` promises the time left. It gives one millisecond instead when less than a second is
  left across a second boundary, since the borrow is not added back, and when the due second has passed but
  not the excess microseconds: `LinkSpec.TimeoutExact`.

## Model

| member | source | states |
|---|---|---|
| Safety.OutputIsPrefix | src/receiver.c:131-289 | in every run the file is a prefix of the input and consists of the first chunks the sender read, although the programs compare only 8-bit numbers |
| Safety.EndIsSound | src/receiver.c:238-268 | whenever the receiver has reported the end of the transfer, the file is the whole input |
| Safety.SenderStopIsSound | src/sender.c:317-330 | whenever the sender has stopped, the file already is the whole input |
| Safety.EndSeenUnless255 | src/receiver.c:151-155 | once the final packet was written, the receiver has reported the end if and only if that packet is not numbered 255 |
| Safety.SenderListAlways | src/sender.c:248-308 | in every run the sender's list is the unacknowledged chunks in order, at most 31 even after the window shrank, each with 1 to 512 bytes |
| Safety.WindowAlways | src/receiver.c:103-116 | in every run base <= expected <= next new <= base + 31 while the sender runs, and what the receiver holds is at offsets 1 to 30 |
| Protocol.StepKeepsInv | src/sender.c:348-391 | every turn of either program, on anything the link can do to a packet, keeps the invariant that ties the 8-bit numbers to the unbounded ones |
| Protocol.ReachableInv | src/sender.c:338-395 | the invariant holds in every state that a run can reach, and the input is always what was read followed by the rest |
| Protocol.AckMovesBase | src/sender.c:69-102 | an ack numbered a moves the base to a, or leaves it when a is up to 223 behind |
| Protocol.FinalReceived | src/receiver.c:146-155 | the final packet, when expected, is written as an empty payload and ends the transfer unless it is numbered 255 |
| Protocol.FinalSent | src/sender.c:374-381 | the final packet goes out, numbered after the last chunk, only when every chunk is acknowledged and the input is read |
| Protocol.ChunkKeepsInv | src/receiver.c:231-282 | whatever chunk arrives, up to 223 behind or any distance ahead, the receiver neither writes a wrong chunk nor reports the end |
| Fifo.FifoIsFresh | src/receiver.c:103-116 | on a first-in-first-out channel every packet delivered is at most 223 behind |
| Fifo.SenderBase | src/sender.c:113-173 | a turn of the sender moves the base exactly as far as the ack it hears covers, and not otherwise |
| Fifo.FifoRefines | src/receiver.c:182-289 | every run over lossy first-in-first-out channels is a run of the general machine with the same program states |
| Fifo.FifoSafety | src/receiver.c:131-289 | over these channels, with nothing assumed, the file is a prefix of the input, also after the receiver's timeout, and is all of it once the end was reported or the sender has stopped |
| Fifo.InFlightRanges | src/sender.c:82-84 | data in flight is numbered from 31 behind to 30 ahead of the expected number, acks from the base to 31 ahead of it |
| Runs.RunIsLater | src/receiver.c:131-170 | over every run no acknowledgement, byte written, chunk read or packet sent is taken back |
| Progress.RoundProgresses | src/sender.c:69-102 | whenever the receiver hears the packet that was the oldest unacknowledged one, and later the sender hears the last packet the receiver had sent by then, the base has grown, whatever happens before and in between, and whether or not the packet was new to the receiver |
| Progress.RoundCanHappen | src/sender.c:206-233 | such a round is possible in every state of the invariant once the head has timed out, unless the receiver has given up |
| Progress.RoundsEmptyList | src/sender.c:206-233 | every run that contains as many such rounds as the list has packets, with anything between and after them, acknowledges every chunk that was in the list |
| Completion.CompletionExactly | src/sender.c:371-381 | after every run over lossy first-in-first-out channels, and at any time of the clock, some continuation writes the final packet if and only if it was written already, or the receiver has not given up and the sender still runs or the final packet is in the channel; in the continuation the clock never moves back, and the sender reads its input whenever the window has room, as from a regular file |
| Completion.Complete | src/sender.c:338-395 | the continuation that does it reads the rest of the input in pieces of 512 bytes, idles only when the window is full or the input at its end, and from one turn of the sender to the next its clock stays or moves by one or two seconds |
| Completion.EmptyList | src/sender.c:206-233 | from every reachable state with both programs at work over lossy channels, such a continuation acknowledges everything in the list |
| Completion.FinishSending | src/sender.c:338-395 | and brings the sender to its end, with the rest of the input read in pieces of 512 bytes and acknowledged |
| Completion.NeverCompletes | src/sender.c:317-330 | once the final packet cannot be written any more, no continuation writes it: the sender sends it once |
| Completion.FinalCanBeLost | src/sender.c:317-330 | a concrete run, an empty input and the loss of one packet, after which it cannot |
| Completion.WrittenMeans | src/receiver.c:353-399 | once the final packet was written the whole input is in the file, the sender has stopped, and the receiver has reported the end unless the number of chunks is 255 modulo 256 |
| Completion.EndCanBeMissed | src/receiver.c:151-155 | for every input of 255 pieces modulo 256 there is a run over lossy channels at whose end everything was written, the final packet included, and the receiver has not noticed |
| Completion.InputOf255Pieces | src/sender.c:257-258 | inputs of more than 254 times 512 bytes, and at most 255 times, are read in 255 pieces |
| Turns.StopSendsFinal | src/sender.c:374-381 | the turn in which the sender stops sends the final packet last |
| Staleness.StaleAckRemoves | src/sender.c:82-84 | for every ack behind the base, exactly how many unacknowledged packets packet_checked removes: none up to 223 behind, and the number for each distance from 224 on |
| Staleness.ChunkTooOldIsTaken | src/receiver.c:110-115 | a chunk 224 behind, across the wrap, is held by a receiver with the full window as a chunk not read yet |
| Sharpness.AckBoundIsSharp | src/sender.c:82-84 | for every input of 226 pieces there is a run, in which acknowledgements may be 224 behind and data packets not at all, at whose end the sender has stopped and the file is not the input |
| Sharpness.DataBoundIsSharp | src/receiver.c:110-115 | for every input of 256 pieces there is a run, in which data packets may be 224 behind and acknowledgements not at all, at whose end more is written than the input |
| Sharpness.BoundIsExact | src/receiver.c:103-116 | all runs over a link with given bounds on staleness are safe, for every input, if and only if both bounds are at most 223 |
| SeqNumbers.AckCoversExactly | src/sender.c:82-84 | the ack test accepts distances 1 to 31, and 32 when the numbers wrap, and no other |
| SeqNumbers.InReceiverWindowExactly | src/receiver.c:103-116 | the receiver accepts offsets 0 to window, and window + 1 when the numbers wrap, and no other |
| SeqNumbers.InSenderWindowExactly | src/sender.c:180-193 | the sender's test accepts offsets below window, and window when the numbers wrap, and no other |
| SeqNumbers.StaleDataExactly | src/receiver.c:103-116 | a data number up to 255 behind is taken for a new one exactly at distances from 256 - window, or 255 - window across the wrap |
| SeqNumbers.StaleAckExactly | src/sender.c:82-84 | an ack behind the base is taken for a new one exactly from 225 behind, or at 224 across the wrap |
| SeqNumbers.PrecedesIsOffsetOrder | src/nyancat.c:133-157 | on all offsets the receiver can hold or accept, 32 included, the three-branch comparison is the order of offsets and equality is equality of offsets |
| SenderSpec.PacketCheckedExact | src/sender.c:69-102 | an ack numbered a, at most 31 ahead, removes exactly the packets before a, across the wrap; up to 223 behind it removes none; the end-of-file branch is not taken |
| SenderSpec.TimeoutsKeep | src/sender.c:206-233 | check_timeout changes nothing but timestamps, sends only packets of the list, and does not report the end of the file while every packet has a payload |
| SenderSpec.HeadResent | src/sender.c:212-231 | the head, once timed out, is the first packet sent again |
| SenderSpec.ResentExactly | src/sender.c:212-231 | the packets sent again are exactly the timed-out ones among those that fit the window, each once, with the new timestamp, in the order of their unbounded numbers |
| SenderSpec.FittingExactly | src/sender.c:214-217 | check_timeout looks at exactly as many packets as the window allows, and at one more when the numbers wrap just there |
| SenderExact.ReadRespectsWindow | src/sender.c:253-305 | read_to_list reads nothing into a full window; otherwise it adds at most one packet to it, with the next number, the current time and what was read, or remembers the end of the input |
| SenderExact.TurnRespectsWindow | src/sender.c:348-391 | a turn on a ready input with a full window changes no number and no payload and sends only packets that were in the list; with room the list grows to at most the window |
| SenderExact.HeardExactly | src/sender.c:130-170 | the window of everything readable is taken over, from a NACK too; what cannot be read or is marked truncated changes nothing; only an acknowledgement shortens the list; the return values |
| SenderExact.CheckedReturns | src/sender.c:69-102 | packet_checked on any list at all: what it removes, and when it returns 1 |
| SenderExact.SentAfterTwoSeconds | src/sender.c:206-233 | check_timeout sends a packet of the fitting prefix again, and renews its time, if and only if the clock shows neither the second in which it was last sent nor the next one |
| SenderExact.TimeoutReturns | src/sender.c:219-224 | exactly when check_timeout reports the end; it then sends and changes nothing |
| SenderExact.SentNow | src/sender.c:32-40 | whatever a turn sends carries the time of that turn |
| SenderRuns.NotAgainForTwoSeconds | src/sender.c:206-233 | over every run, a chunk sent at time t is not sent again while the clock shows t or t + 1, whatever happens meanwhile |
| SenderRuns.StartsWithOne | src/sender.c:20-21 | in every run the sender reads at most one chunk before it hears from the receiver |
| SenderRuns.WindowHeard | src/sender.c:142-143 | the sender works with the window of the last packet it could read |
| SenderRuns.DataOnTheWire | src/sender.c:263-304 | every data packet of every run has window 0, no TR, the low eight bits of its number and the chunk of that number, or is the empty one after the last chunk |
| ReceiverSpec.RunIsMaximal | src/receiver.c:138-168 | the run of consecutive numbers from waited_seqnum is maximal |
| ReceiverSpec.WriteRunExact | src/receiver.c:131-170 | write_in_sequence pops exactly the maximal run, appends its payloads in order, advances waited_seqnum by its length modulo 256, and reports the end exactly when the whole list went and its last packet is empty and not numbered 255 |
| ReceiverSpec.WriteRunAcks | src/receiver.c:156-162 | each packet written is acknowledged with the number that follows it, except the one that ends the transfer |
| ReceiverSpec.WriteRunWindows | src/receiver.c:156-161 | the window opens by one with each packet acknowledged, up to 31, and each ack advertises the window of that moment |
| ReceiverInvariant.InsertSorted | src/nyancat.c:110-177 | insertion keeps the order of offsets, drops nothing held, adds nothing but the new packet, and its number is held afterwards |
| ReceiverInvariant.TurnKeeps | src/receiver.c:182-289 | whatever arrives, the buffer stays sorted without waited_seqnum and the window stays in 1 to 31 |
| ReceiverInvariant.BufferAlwaysSorted | src/receiver.c:353-399 | over every run on any input: at most 32 packets, strictly sorted at offsets 1 to 32, window in 1 to 31 |
| ReceiverInvariant.RepliesExact | src/receiver.c:216-231 | replies repeat the timestamp received; exactly the truncated packets are answered by a NACK, which changes nothing but the halved window; the last reply advertises the window left; other packets than data are ignored |
| ReceiverInvariant.UnansweredExactly | src/receiver.c:231-255 | exactly which intact data packets get no answer: those in the window that, with all that is held, lie past the wrap, and the end of the transfer |
| ReceiverExact.NackHalves | src/receiver.c:217-230 | a truncated data packet halves the window, down to 1, and is answered by a NACK with its number, its timestamp and the halved window |
| ReceiverExact.NacksHalve | src/receiver.c:37-41 | k truncated packets in a row divide the window by the k-th power of 2, or leave 1, and change neither the file nor what is held |
| ReceiverExact.FiveNacksClose | src/receiver.c:37-41 | five of them bring any window to 1 |
| ReceiverExact.FirstAck | src/receiver.c:21-22 | the first packet written is acknowledged with number 1 and window 2 |
| ReceiverExact.OutsideWindow | src/receiver.c:256-282 | what is sent for an intact data packet outside the window, and that nothing is written |
| ReceiverExact.LastAckExactly | src/receiver.c:231-255 | after an intact data packet that does not end the transfer the last packet sent, if any, acknowledges everything written, with the window as it is then |
| ReceiverExact.ReceiveReturns | src/receiver.c:199-214 | exactly when -1 is returned; nothing is changed then |
| ReceiverExact.EndExactly | src/receiver.c:238-268 | exactly when -2 is returned for an intact data packet |
| ListSpec.InsertAtPlace | src/nyancat.c:143-175 | the recursive insertion is the loop's: the packet goes where the loop stops unless its number is there |
| PacketList.List.constructor | src/nyancat.c:52-59 | the new list is valid and empty |
| PacketList.List.AddElement | src/nyancat.c:61-85 | appends; size is the length of the chain and tail its last node |
| PacketList.List.Pop | src/nyancat.c:87-108 | removes and returns the head, or returns nothing and changes nothing on an empty list |
| PacketList.List.AddSpecific | src/nyancat.c:110-177 | the contents become the sorted insertion; the chain, its tail and its size stay consistent |
| Sender.Sender.SendPacket | src/sender.c:32-61 | the packet leaves with the current time as timestamp |
| Sender.Sender.PacketChecked | src/sender.c:69-102 | the list and return value are those of the specification, which SenderSpec.PacketCheckedExact and Staleness.StaleAckRemoves characterise |
| Sender.Sender.CheckAck | src/sender.c:113-173 | on a receive buffer: rejected packets and TR change nothing, the window is taken over before the type is looked at, only an ack empties the list |
| Sender.Sender.CheckTimeout | src/sender.c:206-233 | the timestamps renewed in place, the packets sent and the return value are those of the specification; the nodes stay |
| Sender.Sender.ReadToList | src/sender.c:248-308 | a chunk is sent, appended and numbered when the window has room; an empty read only prepares the final packet |
| Sender.Sender.FinalSend | src/sender.c:317-330 | the final packet is sent exactly when the list is empty |
| Sender.Sender.Turn | src/sender.c:348-391 | one turn of the loop takes the object where the sender's step of the state machine goes, with the same packets sent |
| Receiver.Receiver.WindowAdd | src/receiver.c:28-32 | the window grows by one up to 31 |
| Receiver.Receiver.WindowDivide | src/receiver.c:37-41 | the window is halved down to 1 |
| Receiver.Receiver.SendAck | src/receiver.c:49-96 | the reply carries the number, the type, the current window and the last timestamp |
| Receiver.Receiver.WriteInSequence | src/receiver.c:131-170 | file, list, waited_seqnum, window, replies and return value are those of the specification, which ReceiverSpec.WriteRunExact characterises |
| Receiver.Receiver.ReadToList | src/receiver.c:182-289 | on a receive buffer, every branch: state, replies and return value are those of the receiver's step of the state machine |
| Receiver.Receiver.Turn | src/receiver.c:389-395 | one turn of the loop takes the object where the receiver's step of the state machine goes, and ends it exactly on the return value -2 |
| Receiver.Receiver.FreeTimeout | src/receiver.c:295-301 | what is held is discarded and nothing else changes |
| Crc32.BurstDetected | src/packet_implement.c:119-128 | every change confined to four consecutive bytes changes the checksum, at any length |
| Crc32.FourStepsAreOneWord | src/packet_implement.c:196-204 | four byte steps are 32 shifts of the state xored with the four bytes as one word |
| Crc32.StepStateInjective | src/packet_implement.c:119-128 | different states stay different through equal bytes |
| Crc32.UpdateInjectiveInFour | src/packet_implement.c:119-128 | from one state, different four-byte words lead to different states |
| Crc32Check.Residue | src/packet_implement.c:98 | every message followed by its own checksum, least significant byte first, has the checksum 0x2144DF1C |
| Crc32Check.ChecksumOfZero | src/packet_implement.c:200 | one zero byte has the checksum 0xD202EF8D |
| Crc32Check.ChecksumOfDigits | src/packet_implement.c:123 | the ASCII digits 1 to 9 have the checksum 0xCBF43926, the check value of this CRC |
| Codec.DecodeAfterEncode | src/packet_implement.c:47-209 | decoding an encoding, whatever follows it in the buffer, succeeds and returns every field and payload byte |
| Codec.EncodeAfterDecode | src/packet_implement.c:47-209 | encoding what an accepted buffer was decoded to gives back its first 12, or 16 + length, bytes |
| Codec.Accepted | src/packet_implement.c:58-104 | acceptance means a known type, TR on data only, a length within bounds and a matching CRC1 |
| Codec.AcceptedChecksums | src/packet_implement.c:98-128 | acceptance means that both stored checksums match the bytes of the buffer, CRC1 with the TR bit cleared |
| WireFormat.HeaderLayout | src/packet_implement.c:13-23 | where window, TR, type, number, length and timestamp are in an encoding, as numbers, with their byte orders |
| WireFormat.HeaderChecksumLayout | src/packet_implement.c:176-194 | the four bytes after the first eight are CRC1 of those eight with TR cleared, most significant first |
| WireFormat.PayloadLayout | src/packet_implement.c:196-204 | the payload follows, then its CRC2, most significant byte first |
| WireFormat.PacketHeader | src/packet_implement.c:162-171 | on the wire data is type 1, an acknowledgement type 2, a NACK type 3, each above the TR bit and the five bits of the window |
| WireFormat.PacketChecksum | src/packet_implement.c:188-194 | every packet sent carries the CRC-32 of its header with TR cleared |
| WireFormat.PacketPayload | src/packet_implement.c:196-204 | every packet sent with a payload carries it and its CRC-32 |
| WireFormat.StatusExactly | src/packet_implement.c:58-128 | the status of every buffer, as a function of its bytes alone |
| WireFormat.RefusedExactly | src/packet_implement.c:93-127 | what a buffer refused for a checksum leaves in the structure |
| PacketStruct.Pkt.constructor | src/packet_implement.c:28-35 | every field is cleared |
| PacketStruct.Pkt.SetWindow | src/packet_implement.c:275-281 | a window above 31 is refused and changes nothing |
| PacketStruct.Pkt.SetPayload | src/packet_implement.c:315-344 | a length above 512 is refused and changes nothing; a null payload clears; otherwise the first bytes are taken |
| PacketStruct.Pkt.Encode | src/packet_implement.c:137-209 | the buffer starts with the encoding and is otherwise unchanged; when there is no room nothing is written |
| PacketStruct.Pkt.Decode | src/packet_implement.c:47-135 | status and fields afterwards, on every path, errors included, are those of the decoding function |
| Transport.EncodePacket | src/sender.c:42-55 | the bytes handed to the socket are the packet's encoding |
| Transport.ReadPacket | src/packet_implement.c:47-135 | a receive buffer is read as the packet it encodes, or refused |
| Packets.IntactOutcome | src/packet_implement.c:47-209 | a packet that arrives unharmed is read back exactly |
| Packets.ArrivalOutcome | LINGI1341-linksim-master/link_sim.c:181-192 | what can be read of a packet after anything the simulator does to it: itself, itself with TR set and an arbitrary payload, or an error |
| Faults.DamageRejected | src/packet_implement.c:97-128 | a change within four consecutive header bytes, within four consecutive payload bytes, or to one stored CRC is rejected |
| Faults.InversionRejected | LINGI1341-linksim-master/link_sim.c:188-191 | whichever byte of an encoded packet is inverted, the packet is rejected |
| Faults.TruncationOutcome | LINGI1341-linksim-master/link_sim.c:182-186 | a packet cut after the header is rejected, or read with TR set and the original header |
| Faults.TruncationExactly | src/receiver.c:217-230 | a cut packet is accepted, and gets its NACK, if and only if what the receive buffer held after the header is a payload of the announced length with its CRC2 |
| HeapSpec.PushHeap | LINGI1341-linksim-master/min_queue.c:98-113 | a push keeps heap order and adds the value to the multiset, for every strict weak order |
| HeapSpec.PopHeap | LINGI1341-linksim-master/min_queue.c:132-153 | a pop keeps heap order and removes the root, which no element is smaller than |
| HeapSpec.RootIsLeast | LINGI1341-linksim-master/min_queue.c:155-160 | no element is smaller than the one at the root |
| HeapSpec.QueueRefinesMultiset | LINGI1341-linksim-master/min_queue.c:82-160 | any interleaving of pushes and pops is a run of a multiset with extraction of a least element |
| HeapSpec.DrainSorts | LINGI1341-linksim-master/min_queue.c:132-153 | draining gives the contents in nondecreasing order |
| HeapSpec.PushMoves | LINGI1341-linksim-master/min_queue.h:30-37 | a push at slot i moves at most as many elements as i has binary digits |
| HeapSpec.PopMoves | LINGI1341-linksim-master/min_queue.h:30-37 | a pop that leaves n elements swaps at most as often as n - 1 has binary digits |
| HeapSpec.BitLengthIsLog | LINGI1341-linksim-master/min_queue.h:30-37 | the bound on the moves is the logarithm: n has k binary digits exactly between powers of 2 |
| MinQueue.MinQueue.constructor | LINGI1341-linksim-master/min_queue.c:59-73 | the new queue is empty, with 20 slots |
| MinQueue.MinQueue.Grow | LINGI1341-linksim-master/min_queue.c:86-97 | growth by 20 slots keeps every element |
| MinQueue.MinQueue.Push | LINGI1341-linksim-master/min_queue.c:82-114 | the contents are those of the specified push, the array grows exactly when full, and at most bitlength(size) elements move |
| MinQueue.MinQueue.SmallestChild | LINGI1341-linksim-master/min_queue.c:117-130 | the smaller child, or 0 when there is none |
| MinQueue.MinQueue.Pop | LINGI1341-linksim-master/min_queue.c:132-153 | the contents are those of the specified pop, with at most bitlength(size - 1) swaps for the size left |
| MinQueue.MinQueue.Peek | LINGI1341-linksim-master/min_queue.c:155-160 | the root, or nothing on an empty queue |
| LinkSpec.SlotAfterIsOrder | LINGI1341-linksim-master/link_sim.c:428-434 | comparing due times is a strict weak order, also on times that are not normalised |
| LinkSpec.FateIsPossible | LINGI1341-linksim-master/link_sim.c:174-192 | whatever the simulator does to a packet is one of the effects the protocol is proved against |
| LinkRates.DropRate | LINGI1341-linksim-master/link_sim.c:177-180 | of the hundred random numbers, as many drop a packet as the loss rate says |
| LinkRates.CutRate | LINGI1341-linksim-master/link_sim.c:182-186 | of those for a packet that is not dropped, as many cut it as the cut rate says, and none if it is only a header |
| LinkRates.DamageRate | LINGI1341-linksim-master/link_sim.c:188-192 | of those for a packet neither dropped nor cut, as many damage the byte drawn as the error rate says; otherwise it is left alone |
| LinkRates.AnyByte | LINGI1341-linksim-master/link_sim.c:189-191 | every byte of a packet can be the damaged one |
| LinkRates.HalfLonger | LINGI1341-linksim-master/link_sim.c:196-200 | the jitter lengthens the delay for half of the hundred random numbers, from 50 on, and shortens it for the others |
| LinkSpec.DueTimeExact | LINGI1341-linksim-master/link_sim.c:214-217 | a packet is due exactly its delay after the clock, with at most 1998999 microseconds in the second field |
| LinkSpec.DelayExactly | LINGI1341-linksim-master/link_sim.c:194-201 | for a delay other than zero, the delay applied is the one asked for with the jitter drawn, for all random numbers, if and only if the delay is below ten seconds and the jitter, if any, is at most one more than the delay and keeps their sum within ten seconds |
| LinkSpec.DelayWithinJitter | LINGI1341-linksim-master/link_sim.c:194-201 | under that condition the delay applied differs from the one asked for by less than the jitter |
| LinkSpec.DelayWraps | LINGI1341-linksim-master/link_sim.c:194-201 | a concrete jitter above the delay that turns 1 ms into more than 7 seconds |
| LinkSpec.DeliverExact | LINGI1341-linksim-master/link_sim.c:143-163 | packets leave in nondecreasing order, only expired ones, none lost or duplicated even when a write fails |
| LinkSpec.DeliverOutcome | LINGI1341-linksim-master/link_sim.c:147-162 | every write before the last attempted succeeds, an expired packet stays only if the last one does not, and the simulator goes on unless that failure is fatal |
| LinkSpec.AllWritesSucceed | LINGI1341-linksim-master/link_sim.c:143-163 | if as many writes succeed as there are packets, only unexpired ones stay |
| LinkSpec.LeavesExactly | LINGI1341-linksim-master/link_sim.c:98-104 | when a due time counts as passed, exactly, for times with and without excess microseconds |
| LinkSpec.EarlyAtMost | LINGI1341-linksim-master/link_sim.c:143-163 | a packet leaves at most 998999 microseconds early, and never early when its microseconds are below a second |
| LinkSpec.EarlyBoundIsMet | LINGI1341-linksim-master/link_sim.c:214-217 | a concrete packet that leaves 998999 microseconds early |
| LinkSpec.TimeoutExact | LINGI1341-linksim-master/link_sim.c:107-118 | the wait is positive, at most the larger of one millisecond and the time left, and equals the time left except in the cases stated; neither field is negative, and it is normalised whenever the due time is |
| LinkSim.LinkSim.DeliverDelayed | LINGI1341-linksim-master/link_sim.c:143-163 | queue, packets written and result are those of the delivery function, which LinkSpec.DeliverExact characterises |
| LinkSim.LinkSim.Simulate | LINGI1341-linksim-master/link_sim.c:174-231 | a packet is dropped, or changed as decided and then written at once or queued at its due time; nothing else changes |
| LinkSim.LinkSim.GetQueueTimeout | LINGI1341-linksim-master/link_sim.c:315-334 | no limit on an empty queue, else the wait for the earliest packet, which LinkSpec.TimeoutExact characterises |
| LinkSim.LinkSim.Turn | LINGI1341-linksim-master/link_sim.c:342-361 | one turn of the loop: the queue goes where the run of its events goes, of which LinkRuns.NothingLostOrEarly speaks; what is written, and whether the loop goes on |
| LinkRuns.NothingLostOrEarly | LINGI1341-linksim-master/link_sim.c:337-364 | over every run, whatever writes fail: each packet queued was sent once or is still queued, and none left earlier than the bound |
| LinkOrder.ConstantDelayIsFifo | LINGI1341-linksim-master/link_sim.c:215-219 | with a constant delay and packets that arrive at different times, what was sent is at every moment the packets that arrived first, in the order of arrival, and what is queued is the others |
| LinkOrder.DeliversFirst | LINGI1341-linksim-master/link_sim.c:143-163 | a delivery from slots due in this order sends the first of them, in order, and leaves the others |

## Left out

- Sockets, select, recv, file opening, getopt, main, name resolution and logging: which of them reports what is
  a step of the state machine or a parameter. In `Sender` and `Receiver` the socket is a list of packets sent;
  `Transport.EncodePacket` gives the bytes of each.
- Failures of malloc, and free: allocation succeeds and nothing is reclaimed.
- Null lists and queues as arguments.
- PacketStruct.Pkt.Encode: does not cover a buffer without room for the payload and CRC2, because the check in
  the code counts CRC2 only when the stored field is nonzero; both callers provide 16 + length bytes.
- PacketStruct.Pkt.Decode: covers a buffer of 528 bytes, as both callers pass, of which any part may be left
  over from before; the number of bytes received is not used by the code.
- Receiver.Receiver.WriteInSequence: does not cover a failing or partial write to the file, so the return
  value -1 does not occur.
- Sender.Sender.ReadToList: does not cover a read that fails.
- Sender.Sender.Turn: reads the clock once for all that a turn sends; the loop reads it at each packet. A chunk
  whose send fails is a loss on the link.
- Sender.Sender.FinalSend: does not cover a send that fails, where the source returns -1 and the loop goes on;
  in the state machine that is a turn in which nothing happens.
- LinkSim.LinkSim.Turn: does not cover packets of the direction that the simulator relays unchanged.
- PacketList.List.AddSpecific: nodes hold packets as values; the sharing of a packet structure between the list
  and its user, and its release, are not modelled.
- How long the receiver's 20 seconds are: the model lets it give up at any moment. The wait for the first
  client.
- Sender.Sender.SendPacket: records the packet, not the bytes handed to the socket; those are the result of
  Transport.EncodePacket.
- Receiver.Receiver.SendAck: records the reply in the same way.
- Byte order and bit-field layout other than little-endian gcc: the first byte is window, TR, type from the
  low bits up, and the timestamp is in native order.
- The wall clock and rand: arbitrary values.
- Addresses and directions in the link simulator, beyond carrying the direction along; malformed datagrams
  below 12 bytes, which it drops.
- LinkRuns.NothingLostOrEarly: also covers runs that go on after a fatal write error, where the simulator exits.
- zlib: the checksum is defined bit by bit, not by tables.
- The drafts under `src/inginious`.
