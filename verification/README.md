# sikradio: receiver, sender and protocol, modelled in Dafny

sikradio is an internet radio. A sender cuts its input into packets, multicasts them and answers requests for
retransmission from a cache; a receiver keeps a jitter buffer, asks for what it misses, and plays the rest in
order. This project models that in Dafny and proves what the code keeps: over every run of the buffer, under
every interleaving of the receiver's threads, and end to end over a network that loses, duplicates and reorders.

## Layout

- `Types`, `Progressions`: messages, bytes, arithmetic progressions of ids.
- `BufferWindow` says what each buffer operation means on values; `Buffer` is the class that updates its deques in
  place, proved against it; `Contents`, `BufferRuns`, `BufferTheorems`, `BufferBounds`, `BufferMemory`, `Readiness`,
  `PlaybackOrder` hold what follows for single operations and for all runs, `BufferWitnesses` the runs where a
  promise fails.
- `RexmitManager`, `RexmitRuns`: the timed schedule, as a map and as the ordered set scanned in place.
- `StateManager`, `Station`, `StationSet`, `StationReplies`: session and dirty flag; expiry and selection of stations.
- `Receiver` is the step machine of the threads; `ReceiverThreads` has the same steps as methods over the
  component objects, each proved equal to its step; `SessionPurity`, `ReceiverBuffer`, `ReceiverRequests`,
  `ReceiverRecovery`, `Coverage`, `CoverageResets`, `CoverageLost` hold the theorems over all interleavings.
- `InputPackets`, `Cache`, `Transmitter`, `CacheRange`: reading, caching and resending; `EndToEnd` composes any
  number of senders, the network and the receiver; `Delivery` and `DeliveryWitness` say what is sent, and
  `StreamIntegrity` joins integrity and order.
- `Search`, `Decimals`, `RexmitText`, `ReplyText`, `CtrlMsg`, `Requests`, `DataMsg`, `ByteOrder`: the two codecs.

Methods that change state are proved against functions on values, and the lemmas are about those functions.

## Modelling decisions

- Message and session ids are `nat`: no 64-bit wrap. The codecs are stated for numbers below 2^64.
- A call of a component is one atomic step, as its mutex intends; a loop body of a thread is not. The
  temporaries `std::scoped_lock{mut};` are destroyed at the end of their own line, so the comment that the
  resetter stops the data receiver (src/receiver/receiver.hpp:53) is not relied on.
- Clocks are parameters. Only the theorems on request spacing need them not to go back.
- src/receiver/buffer.hpp:111 subscripts a deque with a byte id. The position of line 61 is modelled;
  `BufferWindows.SubscriptIsPosition` says exactly when the two agree.
- src/receiver/buffer.hpp:127 reads the ends of a deque that may be empty: an empty deque has no space.
- A first packet without data makes src/receiver/buffer.hpp:90 divide by zero: such a write is not enabled in
  runs and is a precondition of the method. A first packet larger than the buffer gives capacity 0, which never
  equals a length, so nothing is ever evicted; this is modelled.
- src/sender/lockable_cache.hpp:20 and :30 take ids for packet numbers, while src/sender/transmitter.hpp:52
  counts bytes. `Caches.Slotting` has both readings: as written, and slotted by packet number. The promise of
  README.md:7, retransmission of recent messages, is proved for the second, and for the first exactly when it holds.
- src/sender/transmitter.hpp:46-50 reads into one buffer that is not cleared, and goes on until a read meets the end:
  the last packet is always filled up with old bytes. `InputPackets.StreamIsInputThenStale` says with which.
- Whether src/common/data_msg.hpp:18 and :30 take the swap branch is a parameter, as is the byte order of the
  host. README.md:46-47 promises big-endian numbers; as written that holds only on big-endian hosts
  (`ByteOrders.AsWrittenIff`, `ByteOrders.SmallNumbersGoWrong`).
- src/receiver/station_set.hpp leaves its iterator on an erased node at line 76, when the selected station is
  refreshed, and at lines 40-47, when the last station expires. The selection is modelled as an optional name,
  with the outcome meant: the refreshed station stays selected, and an empty set has no selection.
- README.md:7 says that the sender starts broadcasting only once its queue is full enough; the code sends at once, and
  so does the model.
- In `EndToEnd` each sender has a session id of its own. src/sender/transmitter.hpp:132 takes the time in whole
  seconds, so two senders started in the same second would share one; that is not modelled.
- `std::set` is a sequence in ascending order, `std::deque`, `std::queue` and `std::vector` are sequences.

Properties that turned out to hold only under a condition have that condition as an equivalence, and an input or
a run where they fail:

- order of playback: `OrderIsFirstReadsAdvance`; `DrainLosesOrder`;
- playback without gaps: `NothingSkippedIff`; `EvictionSkips`;
- eviction of the first packet: `FirstPlayedIsFirstPacket`; `FirstPacketLost`;
- memory: `SlotsFitIffPacketDoes` for slots, `AlwaysFitsIff` for bytes; `BufferOverfull`, `LongerPacketOverfills`;
- coverage: `CoveredExactlyIfClean`, and how long it is lost `UncoveredUntilReported`; `ResetUncoversHole`,
  `StaleIdUncoversHole`, and `LateCopyRecoversHole`;
- the cache as written: what it retrieves `ByteIdsKeepPromiseIff`; `DefaultsRetrieveNothing`; whether it stays in
  its vector `PushesInRangeIff`, `InputInRangeIff`; `SecondPacketOutOfRange`;
- byte order: `AsWrittenIff`, `HostsAgreeIff`; `OneArrivesWrong`;
- unchanged names: `NormalisedIffSingleSpaced`.

## Model

| member | source | states |
|---|---|---|
| Buffers.Buffer.constructor | src/receiver/buffer.hpp:80 | a new buffer has its size, no session and no slots |
| Buffers.Buffer.StartSession | src/receiver/buffer.hpp:86-95 | session parameters and state after a packet, of which WaitsExactlyBelowThreeQuarters says what they are over every run |
| Readiness.WaitsExactlyBelowThreeQuarters | src/receiver/buffer.hpp:86-95 | in every run there is a session exactly if a packet with data was written since the last reset; the buffer waits exactly as long as every packet written since the session opened, on the grid or not, is below the first id plus maxSize / length * length * 3 / 4 for the length of the first packet |
| Readiness.NothingPlayedBelow | src/receiver/buffer.hpp:65-95 | as long as that is so, nothing has been played since the last reset |
| Readiness.WriteThrowsIff | src/receiver/buffer.hpp:97-98 | in every run a write throws exactly if its id is no multiple of the length of the packet that opened the session |
| Buffers.Buffer.PopAndPush | src/receiver/buffer.hpp:43-48 | the front goes if the deques are full, and a slot comes at the back |
| Buffers.Buffer.SaveNewMessage | src/receiver/buffer.hpp:33-57 | the loop of pops and pushes ends, and its window is the one Store describes, of which StoreClosedForm says what it is |
| BufferWindows.StoreClosedForm | src/receiver/buffer.hpp:33-57 | a packet past the back leaves exactly the newest slots that fit of: old window, one hole per skipped multiple, the packet; for any gap, also one longer than the window |
| Progressions.KeepIsSuffix | src/receiver/buffer.hpp:43-54 | keeping what fits is taking the longest suffix no longer than the capacity; capacity 0 keeps all |
| Buffers.Buffer.SaveMissedMessage | src/receiver/buffer.hpp:59-63 | the slot at (id - front) / package_size is the one that bears the id; it gets the packet and no other slot changes |
| Buffers.StaleIsIgnored | src/receiver/buffer.hpp:99-105 | a packet before the front changes nothing |
| Buffers.Buffer.ScanMissed | src/receiver/buffer.hpp:106-114 | the stepwise scan returns exactly the ids of empty slots strictly between the last packet and this one |
| Buffers.Buffer.WriteGetMissed | src/receiver/buffer.hpp:82-117 | new window, returned ids and the exception for an id off the grid, in every state; the representation survives, also when it throws |
| Buffers.Buffer.TryRead | src/receiver/buffer.hpp:65-74 | result and window after a read, of which ReadOutcome says what they are over every run |
| Readiness.ReadOutcome | src/receiver/buffer.hpp:65-74 | in every run, a read of a waiting buffer returns nothing; of a readable one it is an error exactly if the window is empty or its first id is a hole, and otherwise returns the payload last written in this session under the first id, which leaves the window; nothing else changes |
| Buffers.Buffer.HasSpace | src/receiver/buffer.hpp:124-129 | true exactly in a session, for an id between front and back |
| Buffers.Buffer.Clear | src/receiver/buffer.hpp:131-136 | no session, no slots, parameters kept |
| BufferWindows.StoreValid | src/receiver/buffer.hpp:96-105 | saving keeps the representation: equal lengths, at most the capacity, consecutive multiples of the packet size, last slot filled, last id not past the back |
| BufferWindows.WriteValid | src/receiver/buffer.hpp:82-117 | every write keeps the representation, one that throws too |
| BufferWindows.ReadValid | src/receiver/buffer.hpp:65-74 | every read keeps the representation |
| BufferWindows.SpaceIsMembership | src/receiver/buffer.hpp:124-129 | for an id on the grid, having space is being the id of a slot |
| BufferWindows.SubscriptIsPosition | src/receiver/buffer.hpp:111 | the byte id used as a subscript at this line is the position of the id exactly with one-byte packets in a window from 0 |
| BufferWitnesses.SubscriptPastEnd | src/receiver/buffer.hpp:106-114 | in a run, packets 4 and 8 of two bytes leave id 6 to be reported, and subscript 6 is past the end of the three slots |
| BufferBounds.MissedIsExact | src/receiver/buffer.hpp:96-116 | an id is reported exactly if its slot is empty after the write and it lies between the last packet and this one; reported ids are on the grid, inside the window, before the back; none for an empty window or a packet not newer than the last |
| BufferMemory.SlotsFitIffPacketDoes | src/receiver/buffer.hpp:86-92 | in every run the slots of a nonempty window, times the first packet's size, are within the buffer size exactly if one packet of that size is; otherwise the capacity is 0 |
| BufferMemory.HeldBytesFit | src/receiver/buffer.hpp:33-92 | in every run, over any number of sessions, in which no packet is longer than the one that opened its session, and that one fits, the bytes held are within the buffer size |
| BufferMemory.AlwaysFitsIff | src/receiver/buffer.hpp:33-92 | with sessions opened by packets of p bytes and no packet above a limit, the bytes held are within the size in all runs exactly if p is, and so is the limit times the capacity |
| BufferMemory.LongerPacketOverfills | src/receiver/buffer.hpp:86-98 | a run where the first packet has one byte, the second eight, and a buffer of four holds nine bytes |
| BufferWitnesses.BufferOverfull | src/receiver/buffer.hpp:86-92 | a run that holds four bytes in a buffer of one |
| Contents.WriteContents | src/receiver/buffer.hpp:82-117 | a write brings in no packet but its own, and every hole it leaves was there before or is reported |
| BufferRuns.RunKeeps | src/receiver/buffer.hpp:33-136 | the invariant of all runs of writes, reads and resets: representation, conservation, contents, no silent gap |
| BufferTheorems.ConservationAndOrder | src/receiver/buffer.hpp:33-74 | since the window was last empty, ids read, ids evicted and ids in the window make up one arithmetic progression, each once, in that order; slots and reads hold what was last stored under their id |
| BufferTheorems.NoGapIsSilent | src/receiver/buffer.hpp:82-117 | in every run every hole in the window was reported by some write since the last reset |
| PlaybackOrder.OrderIsFirstReadsAdvance | src/receiver/buffer.hpp:65-105 | in every run, with resets and drained windows, the ids read are strictly increasing exactly if each successful read that is the first since a packet entered an empty window is above the last id read before |
| PlaybackOrder.PlayedInOrder | src/receiver/buffer.hpp:65-105 | in every run, with resets and drained windows, in which each packet that enters an empty window is above all ids read before, the ids read are strictly increasing |
| PlaybackOrder.NotRefilledInOrder | src/receiver/buffer.hpp:65-105 | so it is in runs in which no packet enters an empty window once something was read, whatever resets come before |
| PlaybackOrder.NothingSkippedIff | src/receiver/buffer.hpp:33-74 | in every run, with resets and drained windows, the last ids read are those the window gave since it was last entered, and they are exactly one packet size apart if and only if no eviction came between two of these reads |
| BufferWitnesses.EvictionSkips | src/receiver/buffer.hpp:43-48 | a run of four packets in order, none lost, that reads id 0, evicts id 1 and reads id 2 |
| PlaybackOrder.ReopenedOrder | src/receiver/buffer.hpp:99-100 | a packet that enters a drained window and is read next keeps the order of what is read exactly if it is newer than all that was read |
| PlaybackOrder.DrainLosesOrder | src/receiver/buffer.hpp:99-100 | a run that reads id 5 and then id 3 |
| BufferTheorems.WaitingEvictsNothing | src/receiver/buffer.hpp:86-95 | while the buffer waits after an aligned first packet nothing is evicted and the front is that packet, for every order of arrival |
| BufferTheorems.RoomAt | src/receiver/buffer.hpp:93 | at the threshold there is room for one more slot exactly if (4 - capacity) * packet size < 4 |
| BufferTheorems.FirstPlayedIsFirstPacket | src/receiver/buffer.hpp:86-95 | the in-order packet that makes the buffer readable evicts nothing exactly under that condition; then the first read is byte zero, otherwise byte zero is evicted |
| BufferTheorems.FirstPlayedInRuns | src/receiver/buffer.hpp:86-95 | the same for every run whose buffer waits after an aligned first packet |
| BufferWitnesses.FirstPacketLost | src/receiver/buffer.hpp:86-95 | a run of three packets in order, none lost, in which the first is evicted unread |
| BufferTheorems.ReadableLasts | src/receiver/buffer.hpp:65-68 | reads change nothing before the buffer is readable; readable it stays until a reset |
| Rexmit.RexmitManager.constructor | src/receiver/rexmit_manager.hpp:43-44 | an empty schedule |
| Rexmit.RexmitManager.AppendIds | src/receiver/rexmit_manager.hpp:46-53 | new ids are due after rtime, ids already scheduled keep their time |
| Rexmit.RexmitManager.ForgetIds | src/receiver/rexmit_manager.hpp:58-61 | exactly the ids to forget leave the schedule |
| Rexmit.RexmitManager.Reschedule | src/receiver/rexmit_manager.hpp:73-75 | erasing an entry and emplacing it at the hint overwrites it in place |
| Rexmit.RexmitManager.ScanDue | src/receiver/rexmit_manager.hpp:62-77 | the in-place loop ends, returns the ids due and moves those to now + rtime, leaving all others and the order |
| Rexmit.RexmitManager.FilterGetIds | src/receiver/rexmit_manager.hpp:55-78 | forgetting and then scanning is one map update; the ids returned are the unforgotten ids due by now |
| Rexmit.RexmitManager.Reset | src/receiver/rexmit_manager.hpp:80-84 | an empty schedule |
| Rexmit.ScanVisits | src/receiver/rexmit_manager.hpp:66-76 | the loop visits every entry once, also when rtime is 0 and the entry written is due again at once |
| Rexmit.ScanMeans | src/receiver/rexmit_manager.hpp:66-76 | the loop over the ordered set is the update of the map |
| Rexmit.EmplaceHint | src/receiver/rexmit_manager.hpp:73-75 | the entry goes back to the place it was taken from |
| RexmitRuns.RequestsAreSpaced | src/receiver/rexmit_manager.hpp:46-84 | two requests for an id are at least rtime apart in every run under a clock that does not go back, also across forgetting, appending again and reset |
| RexmitRuns.RequestFollowsAppend | src/receiver/rexmit_manager.hpp:46-84 | every request comes at least rtime after the append that put its id in the schedule, where it has been since |
| RexmitRuns.RequestedExactlyWhenDue | src/receiver/rexmit_manager.hpp:46-78 | a filter requests an id in the schedule exactly if it does not forget it and comes at least rtime after the event, append or request, that last gave the id its time |
| ReceiverRequests.ScheduleRunsItsEvents | src/receiver/receiver.hpp:47-143 | under every interleaving of the threads the schedule is that of a run of its own calls |
| ReceiverRequests.DueIdIsTaken | src/receiver/receiver.hpp:97-98 | under every interleaving, a scheduled id is taken up for a request exactly if it is not to be forgotten and rtime has passed since it was appended or last taken up |
| ReceiverRequests.TakesAreSpaced | src/receiver/receiver.hpp:97-98 | under every interleaving with a clock that does not go back, an id is taken up again no sooner than rtime later |
| ReceiverRequests.TakenHoleIsSent | src/receiver/receiver.hpp:99-106 | an id taken up is put among those to send, whatever the other threads do before its turn, if it is a hole then; what is forgotten is no slot of the window |
| ReceiverRequests.RequestIsExact | src/receiver/receiver.hpp:97-109 | at every interleaving, until ids are taken again: the ids still to check, to ask for and to forget are disjoint and together the ids taken; an id is to be asked for exactly if at its turn it was between the ends of the window, to be forgotten exactly if it was not; so the request is for all of the former |
| StateManagers.StateManager.constructor | src/receiver/state_manager.hpp:19-21 | no station, not dirty, session 0 |
| StateManagers.StateManager.CheckState | src/receiver/state_manager.hpp:28-34 | returns the flag and clears it |
| StateManagers.StateManager.RegisterAddressCheckChange | src/receiver/state_manager.hpp:36-44 | a station that differs in more than its last reply becomes active and sets the flag |
| StateManagers.StateManager.RegisterSessionCheckIgnore | src/receiver/state_manager.hpp:46-54 | the session becomes the larger one; a packet is kept exactly if its session was the current one |
| StateManagers.StateManager.MarkDirty | src/receiver/state_manager.hpp:56-60 | no station, and the flag set |
| ReceiverThreads.Receiver.constructor | src/receiver/receiver.hpp:192-207 | the components make up the initial state of the step machine |
| ReceiverThreads.RunReceiver | src/receiver/receiver.hpp:47-157 | a receiver object driven through any interleaving is in the state of that run; its buffer is of the current session when no reset is due, and its holes have been reported |
| ReceiverThreads.Receiver.Perform | src/receiver/receiver.hpp:47-157 | any thread taking its next step is that step |
| ReceiverThreads.Receiver.ReceiveDatagram | src/receiver/receiver.hpp:126-127 | the method over the components is the step Receive |
| ReceiverThreads.Receiver.RegisterSession | src/receiver/receiver.hpp:129-131 | the call of the state manager, and what the thread does next, is the step Register |
| ReceiverThreads.Receiver.Write | src/receiver/receiver.hpp:133-141 | the call of the buffer, and what the thread does next on success and on the exception, is the step WriteBuffer |
| ReceiverThreads.Receiver.FailedWrite | src/receiver/receiver.hpp:135-137 | the handler is the step MarkWriteFailed, and leaves no active station |
| ReceiverThreads.Receiver.ReportMissed | src/receiver/receiver.hpp:139-141 | the append is the step Report |
| ReceiverThreads.Receiver.Stream | src/receiver/receiver.hpp:147-155 | a read of the streamer is the step Play; what is played is the front packet |
| ReceiverThreads.Receiver.FailedRead | src/receiver/receiver.hpp:150-153 | the handler is the step MarkReadFailed, and leaves no active station |
| ReceiverThreads.Receiver.FilterIds | src/receiver/receiver.hpp:97-98 | the call of the schedule is the step FilterSchedule |
| ReceiverThreads.Receiver.CheckId | src/receiver/receiver.hpp:99-106 | one turn of the loop over the ids is the step Check, of which RequestIsExact says what it comes to |
| ReceiverThreads.Receiver.CheckState | src/receiver/receiver.hpp:51-52 | taking and clearing the flag is the step CheckDirty |
| ReceiverThreads.Receiver.ClearBuffer | src/receiver/receiver.hpp:52-54 | the first half of the reset is the step ResetBuffer |
| ReceiverThreads.Receiver.ClearSchedule | src/receiver/receiver.hpp:55 | the second half of the reset is the step ResetSchedule |
| ReceiverThreads.Receiver.RegisterStation | src/receiver/receiver.hpp:73-77 | registering another station makes it the active one and is the step ChangeStation; registering the same one is no step |
| ReceiverThreads.Receiver.NoStation | src/receiver/receiver.hpp:177-178 | losing the selection is the step ChangeStation, and leaves no active station |
| ReceiverRecovery.TakenIffCurrent | src/receiver/state_manager.hpp:46-54 | under every interleaving a datagram is taken exactly if its session is the largest registered before; otherwise it is dropped, and a larger session makes the state dirty |
| ReceiverRecovery.PlayOutcome | src/receiver/receiver.hpp:145-157 | under every interleaving the streamer fails exactly at an empty readable buffer or a hole at its front; otherwise, of a readable buffer, it plays the first id with the payload last written under it |
| ReceiverRecovery.HoleLeadsToReset | src/receiver/receiver.hpp:47-157 | under every interleaving, after such a failure nothing is played until it is handled; that makes the state dirty, and from then on a reset is due until the buffer is cleared, which the next steps of the resetter do |
| ReceiverRecovery.WriteFailsIff | src/receiver/receiver.hpp:133-137 | under every interleaving a write fails exactly if its id is no multiple of the length of the packet that opened the session |
| ReceiverRecovery.FailedWriteLeadsToReset | src/receiver/receiver.hpp:47-142 | the failure is held until it is handled; then a reset is due until the buffer is cleared |
| ReceiverRecovery.DirtyStep | src/receiver/state_manager.hpp:28-60 | the state becomes dirty by exactly these steps: a failure handled, a change of station, a larger session; it stays so until the resetter looks |
| ReceiverRecovery.ResetHasCause | src/receiver/receiver.hpp:47-61 | in every run a reset that is due has been so ever since a step of that kind |
| SessionPurity.BufferIsPure | src/receiver/receiver.hpp:47-61 | under every interleaving: with the flag clear and no buffer reset pending, every packet in the buffer is of the current session; the sessions written never decrease; the current session is the largest registered |
| SessionPurity.WrittenUnderMaximum | src/receiver/receiver.hpp:129-134 | what is about to be written is of the largest session registered so far |
| Coverage.StepCovered | src/receiver/receiver.hpp:91-143 | from a state where every hole is scheduled or about to be, a step keeps that exactly if it does not forget a hole and does not reset the schedule under one |
| Coverage.CoveredExactlyIfClean | src/receiver/receiver.hpp:91-143 | over whole runs: every hole is always scheduled or about to be exactly if all steps are of that kind |
| Coverage.EveryHoleIsCovered | src/receiver/receiver.hpp:91-143 | in a stretch from fresh components, without reset and without the window moving back, every hole is scheduled or about to be under every interleaving, and ids to forget are behind the front |
| Coverage.ForgottenForGood | src/receiver/receiver.hpp:97-106 | an id to forget never becomes a slot again in such a stretch |
| CoverageResets.CoveredAcrossResets | src/receiver/receiver.hpp:47-143 | over whole runs with resets: every hole is scheduled or about to be under every interleaving, if each reset begins with no ids in the threads, neither writing nor taking ids comes between its halves, and the window never moves back |
| CoverageLost.ResetUncoversHole | src/receiver/receiver.hpp:52-55 | a run where the data receiver writes between the two halves of a reset, and at its end a hole is neither scheduled nor about to be |
| CoverageLost.StaleIdUncoversHole | src/receiver/receiver.hpp:91-106 | a run where an id being checked survives a reset, is forgotten, and takes a new hole of the same id out of the schedule, where at the end of the run it is neither scheduled nor about to be |
| CoverageLost.HoleIsReportedAgain | src/receiver/buffer.hpp:106-115 | a write reports a hole that was there before exactly if it still is one and lies between the last packet and this one |
| CoverageLost.UncoveredUntilReported | src/receiver/receiver.hpp:91-143 | under every interleaving, over any continuation in which it stays a hole, a hole neither scheduled nor about to be remains so exactly as long as no packet past it is written while the last one was before it |
| CoverageLost.LateCopyRecoversHole | src/receiver/buffer.hpp:106-115 | the run of ResetUncoversHole, continued by a late copy of packet 0 and by packet 3, reports the hole |
| ReceiverBuffer.BufferRunsItsOps | src/receiver/receiver.hpp:121-157 | under every interleaving of the threads, buffer and played ids are those of a run of buffer operations |
| ReceiverBuffer.GapsAndOrderUnderInterleaving | src/receiver/receiver.hpp:121-157 | under every interleaving, every hole in the buffer was reported since the last reset; what is played is strictly increasing exactly if every first read after an entry into an empty window advanced, and so if every such entry did |
| ReceiverBuffer.PlayedSinceIsLast | src/receiver/receiver.hpp:145-157 | under every interleaving, the packets read since the window was last entered, with their data, are the last ones played |
| Caches.LockableCache.constructor | src/sender/lockable_cache.hpp:24-27 | an empty cache of the given size |
| Caches.LockableCache.InternalId | src/sender/lockable_cache.hpp:19-21 | the slot is below the size, and is that of the chosen numbering |
| Caches.LockableCache.AtomicGet | src/sender/lockable_cache.hpp:29-34 | the content of the slot, if the guard passes and the slot is filled |
| Caches.LockableCache.AtomicPush | src/sender/lockable_cache.hpp:36-41 | the slot gets the packet, as a new last slot if it is the next; a slot further on is reported as out of range |
| Caches.SlotsHoldLatest | src/sender/lockable_cache.hpp:36-41 | slotted by packet number, every push is in range and each slot holds the latest packet of its residue |
| Caches.RetrievesExactlyRecent | src/sender/lockable_cache.hpp:19-41 | slotted by packet number, lookup and id check succeed exactly for the most recent packets, as many as there are slots, and return the packet pushed |
| Caches.LastBytesAreRetrievable | src/sender/transmitter.hpp:130 | with 1 + (FSIZE - 1) / PSIZE slots every packet with one of the last FSIZE bytes is retrievable |
| Caches.ByteIdsKeepPromiseIff | src/sender/lockable_cache.hpp:19-41 | slotted by byte id, as written, the cache does that exactly after at most one packet, or with one-byte packets no more than the slots |
| Caches.DefaultsRetrieveNothing | src/sender/lockable_cache.hpp:19-41 | as written and with the default sizes, from the second packet on nothing can be retrieved |
| CacheRange.PushesInRangeIff | src/sender/lockable_cache.hpp:36-41 | as written, no push of consecutive packets is past the end of the vector exactly if there is at most one packet, or PSIZE modulo the number of slots is 0 or 1 |
| CacheRange.InputInRangeIff | src/sender/transmitter.hpp:45-57 | reading a whole input stays in range exactly if it is shorter than one packet, or PSIZE and 1 + (FSIZE - 1) / PSIZE are so related |
| CacheRange.SecondPacketOutOfRange | src/sender/transmitter.hpp:130 | with PSIZE 512 and FSIZE 200000, 391 slots, every input of at least 512 bytes is out of range |
| InputPackets.ChunkCount | src/sender/transmitter.hpp:45-57 | one packet more than the input has whole ones, also for an input of whole packets only |
| InputPackets.WholeChunk | src/sender/transmitter.hpp:45-57 | every packet the input fills holds its own bytes of the input |
| InputPackets.ConcatIsInputThenStale | src/sender/transmitter.hpp:45-57 | the packets together are the input followed by what the last read left in the buffer |
| InputPackets.StreamIsInputThenStale | src/sender/transmitter.hpp:45-57 | which bytes those are: of the packet before, or zeros in the first |
| InputPackets.StreamIsLonger | src/sender/transmitter.hpp:49-50 | the stream sent is always longer than the input |
| InputPackets.PacketsMeanInput | src/sender/transmitter.hpp:45-57 | packet k is numbered k * PSIZE and holds the k-th piece |
| Transmitters.Transmitter.constructor | src/sender/transmitter.hpp:115-132 | empty queues and a cache of 1 + (FSIZE - 1) / PSIZE slots |
| Transmitters.Transmitter.Enqueue | src/sender/transmitter.hpp:54-55 | a packet goes to the queue and to the cache |
| Transmitters.Transmitter.ReadInput | src/sender/transmitter.hpp:45-57 | the loop ends; queue and cache get exactly the packets of the input, in order, unless a push is out of range, which it reports |
| Transmitters.ReadAllIsPackets | src/sender/transmitter.hpp:45-57 | the loop over one reused buffer is the numbered packets of the input |
| Transmitters.Transmitter.RetransmitIds | src/sender/transmitter.hpp:35-43 | the resend queue gets what Found describes, of which FoundMeans says what it is |
| Transmitters.FoundMeans | src/sender/transmitter.hpp:35-43 | a message is put on the resend queue exactly if its id was asked for and it is what the cache has under that id |
| Transmitters.RequestIsAnswered | src/sender/transmitter.hpp:35-43 | slotted by packet number, a packet is resent exactly if it was asked for and is among the most recent |
| Transmitters.ReadPacketsAreCached | src/sender/transmitter.hpp:45-57 | after a whole input is read, the last FSIZE bytes sent are retrievable |
| Transmitters.Transmitter.SendOne | src/sender/transmitter.hpp:97-112 | the head of the queue leaves it under the session of the sender |
| Transmitters.Transmitter.Retransmit | src/sender/transmitter.hpp:78-95 | the resend queue is emptied into one batch, of which DrainIsUnique says what it is |
| Transmitters.DrainIsUnique | src/sender/lockable_queue.hpp:32-41 | the batch has each queued id once, ascending, with the message queued first under it |
| EndToEnd.StepsUseTheCache | src/sender/transmitter.hpp:35-57 | with either slotting, the lookup and store steps of the sender machine, in the slot of the cache, are its lookup with id check and its push |
| EndToEnd.ResentWasAsked | src/sender/transmitter.hpp:35-43 | in every run, whichever slots the caches use, a sender resends only packets that were asked for |
| EndToEnd.RunKeeps | src/sender/transmitter.hpp:35-112 | in every run of several senders, a network that loses, duplicates and reorders, and a receiver, everything in queues, caches, on the wire and in the receiver is a packet of its session; what must be there is said by WireIsExact |
| Delivery.WireIsExact | src/sender/transmitter.hpp:45-112 | in every run, packet k of those read is on the wire under its session, or still at its place in the queue; every packet resent is on the wire; and nothing else of that session is |
| Delivery.FoundIsResent | src/sender/transmitter.hpp:35-95 | in every run, a packet that a lookup found is at every later time with the listener, on the resend queue, in the batch, or has been sent since and is on the wire |
| Delivery.CanFinish | src/sender/transmitter.hpp:35-112 | from every state of every run a sender can go on by itself until all its packets are on the wire and all that it found for requests is sent |
| Delivery.RunCaches | src/sender/transmitter.hpp:45-57 | in every run the cache is that of the transmitter after as many pushes as packets were read; the last may still be on its way |
| Delivery.LookupFinds | src/sender/transmitter.hpp:35-43 | slotted by packet number, in every run, a lookup for one of the packets cached last, as many as there are slots, can be made and finds it |
| Delivery.SendPacketIsSendOne | src/sender/transmitter.hpp:97-112 | the step SendPacket puts on the wire what SendOne returns, and leaves its queue |
| Delivery.DrainAndResendIsRetransmit | src/sender/transmitter.hpp:78-95 | the step DrainResends and then Resend for each packet of the batch put on the wire, in order, what Retransmit returns |
| DeliveryWitness.AudioArrives | src/receiver/receiver.hpp:47-157 | a run of sender, network and receiver in which a byte of the input is played |
| EndToEnd.PlayedIsSent | src/receiver/receiver.hpp:121-157 | everything played or buffered is the k-th piece of some input under id k * PSIZE, whichever slots the caches use |
| EndToEnd.BufferIsOneStream | src/receiver/receiver.hpp:47-61 | with no reset due, everything buffered is of the input of the current session |
| StreamIntegrity.PlayedIsOnePiece | src/receiver/receiver.hpp:121-157 | for one sender, with any resets and drained windows: if no eviction came between two reads since the window was last entered, the audio played since is one contiguous piece of the stream sent |
| Requests.RequestReachesTheCache | src/sender/transmitter.hpp:66-75 | from the set of missed ids, through its text, to the resend queue: exactly the packets asked for and still cached |
| Decimals.ValueOfPrint | src/common/ctrl_msg.hpp:116 | a printed number reads back as itself |
| Decimals.PrintIsDecimal | src/common/ctrl_msg.hpp:116 | each digit printed is that of the number in base ten, highest first, without leading zeros |
| Decimals.StoulReads | src/common/ctrl_msg.hpp:77 | a printed number, with or without a sign and whatever follows, is read by stoul as itself or wrapped around for a minus sign; beyond 64 bits it is refused |
| Decimals.StoulOfPrint | src/common/ctrl_msg.hpp:77 | a printed 64-bit number is read by stoul as itself |
| Search.SearchIsLeftmostLongest | src/common/ctrl_msg.hpp:50-85 | for either regular expression, the search finds the leftmost match, the longest there, and none only if there is none |
| RexmitText.ListIsRead | src/common/ctrl_msg.hpp:46-63 | every list of 64-bit ids, in any order and with repetitions, is read back from its text |
| RexmitText.ListIsReadIff | src/common/ctrl_msg.hpp:46-63 | a list with a number beyond 64 bits, wherever it is, is refused, and no other |
| RexmitText.WrongKindIff | src/common/ctrl_msg.hpp:46-48 | a text is refused as of the wrong kind exactly if it does not begin with LOUDER_PLEASE and a space |
| RexmitText.SetIsRead | src/common/ctrl_msg.hpp:112-119 | every set of 64-bit ids, the empty one too, is read back as its strictly ascending sequence |
| CtrlMsgs.CtrlMsg.GetRexmitIds | src/common/ctrl_msg.hpp:46-63 | the loop over matches returns the ids, or the exception for a wrong message or a number beyond 64 bits |
| CtrlMsgs.MakeRexmit | src/common/ctrl_msg.hpp:112-119 | the loop writes the ids ascending with commas between them |
| CtrlMsgs.KindsAreDisjoint | src/common/ctrl_msg.hpp:34-44 | no text is of two kinds |
| CtrlMsgs.MakeLookup | src/common/ctrl_msg.hpp:93-95 | the text of a lookup, which is recognised as one |
| CtrlMsgs.MakeReply | src/common/ctrl_msg.hpp:97-110 | the text of a reply |
| CtrlMsgs.CtrlMsg.GetReplyData | src/common/ctrl_msg.hpp:65-86 | address, port and name, or what is missing |
| ReplyText.ReplyIsRead | src/common/ctrl_msg.hpp:65-86 | a reply with a whitespace-free address is read back with the address, the port cut to 16 bits and the name normalised; a name without a word and a port beyond 64 bits are refused |
| ReplyText.NoReplyIff | src/common/ctrl_msg.hpp:65-67 | a text is refused as of the wrong kind exactly if it does not begin with BOREWICZ_HERE and a space |
| CtrlMsgs.ReplyExample | src/common/ctrl_msg.hpp:97-110 | a reply, character by character |
| CtrlMsgs.RexmitExample | src/common/ctrl_msg.hpp:112-119 | a request for two ids, character by character |
| ReplyText.NoWords | src/common/ctrl_msg.hpp:79 | a name has no word exactly if it is all white space |
| ReplyText.NormalisedIsIdempotent | src/common/ctrl_msg.hpp:79-84 | normalising a name keeps its words, and normalising again changes nothing |
| ReplyText.NormalisedIffSingleSpaced | src/common/ctrl_msg.hpp:79-84 | a name of allowed characters comes back unchanged exactly if it has no space at its ends and never two together |
| DataMsgs.HtonllTwice | src/common/data_msg.hpp:17-39 | either branch on either host undoes itself for every 64-bit number |
| DataMsgs.SwapReverses | src/common/data_msg.hpp:19-22 | on a little-endian host the swap branch reverses all eight bytes |
| DataMsgs.SwapWhereNeeded | src/common/data_msg.hpp:17-27 | swapping exactly on little-endian hosts puts network order on the wire |
| ByteOrders.WireAt | src/common/data_msg.hpp:17-27 | every byte on the wire, for every number, host and branch: highest first, lowest first, or the halves exchanged |
| ByteOrders.DatagramAt | src/common/data_msg.hpp:107-123 | every byte of a datagram: eight of the session, eight of the id, in the order of host and branch, then the audio |
| ByteOrders.NetworkOrderIff | src/common/data_msg.hpp:17-27 | a number goes out as the protocol promises exactly if the order of the host is highest first, or its bytes read the same both ways (lowest first), or its halves are equal (halves exchanged) |
| ByteOrders.AsWrittenIff | src/common/data_msg.hpp:15-39 | as written no host swaps: a number is sent as promised exactly by a big-endian host or if its bytes read the same both ways, and arrives as sent exactly between hosts of one kind or under that condition |
| ByteOrders.SmallNumbersGoWrong | src/common/data_msg.hpp:15-39 | from a little-endian host every session and packet id between 0 and 2^32 goes out wrong, and no big-endian host reads it right |
| ByteOrders.OneArrivesWrong | src/common/data_msg.hpp:15-39 | the number 1 from a little-endian host arrives at a big-endian one as 2^56 |
| DataMsgs.BranchIsNeverTaken | src/common/data_msg.hpp:15-18 | as written the test compares 89 or 0 with 2137, and is false on both kinds of host |
| DataMsgs.ReceivedIsSent | src/common/data_msg.hpp:73-76 | any eight bytes are what is sent for the number they are read as |
| DataMsgs.DatagramIsReceived | src/common/data_msg.hpp:68-123 | every datagram is read back from its bytes: session, id and payload of any length, either branch, either host |
| ByteOrders.HostsAgreeIff | src/common/data_msg.hpp:17-39 | across any two hosts and branches a number arrives as sent exactly if their orders agree or treat it alike, said by its bytes or halves |
| DataMsgs.DataMsg.WithId | src/common/data_msg.hpp:53-56 | id only |
| DataMsgs.DataMsg.WithData | src/common/data_msg.hpp:58-61 | id and data, no session |
| DataMsgs.DataMsg.Full | src/common/data_msg.hpp:63-66 | id, session and data |
| DataMsgs.DataMsg.FromRaw | src/common/data_msg.hpp:68-85 | the datagram parsed from the bytes; none from fewer than 16 |
| DataMsgs.DataMsg.SetData | src/common/data_msg.hpp:87-89 | the data, and nothing else |
| DataMsgs.DataMsg.SetSessionId | src/common/data_msg.hpp:91-93 | the session, and nothing else |
| DataMsgs.DataMsg.Sendable | src/common/data_msg.hpp:107-123 | the bytes of the datagram, or the exception for a missing session or missing data |
| Stations.LessIsTotal | src/receiver/structures.hpp:23-26 | any two different names are ordered |
| Stations.LessIsTransitive | src/receiver/structures.hpp:23-26 | the order of names is transitive |
| Stations.LessIsLexicographic | src/receiver/structures.hpp:23-26 | a name is before another exactly if it is a proper prefix of it or has the smaller character where they first differ |
| Stations.SameButForReply | src/receiver/structures.hpp:27-34 | two stations are equal exactly if they differ in nothing but the time of the last reply |
| StationSets.StationSet.constructor | src/receiver/station_set.hpp:63-68 | an empty set, nothing selected |
| StationSets.StationSet.RemoveOldStations | src/receiver/station_set.hpp:31-49 | the erasing loop ends, with the stations and selection that Prune describes, of which PruneKeepsActive says what they are |
| StationSets.PruneMeans | src/receiver/station_set.hpp:31-49 | the loop leaves the active stations and moves an expired selection to the first active station on in the cycle |
| StationSets.PruneKeepsActive | src/receiver/station_set.hpp:31-49 | exactly the stations heard from in the last 20 seconds stay; the selection moves only if it expired, to the next active name in cyclic order, to none exactly if all expired |
| StationSets.StationSet.GetSelectedStation | src/receiver/station_set.hpp:51-56 | the selected station, none exactly for an empty set |
| StationSets.StationSet.UpdateGetSelected | src/receiver/station_set.hpp:70-87 | set and selection after a reply, of which ReplySelects says what they are; the selected station is returned |
| StationReplies.ReplySelects | src/receiver/station_set.hpp:70-87 | the station that replies is in the set; it is selected if it is the preferred one and none of its name was heard of in the last 20 seconds, or if no station was; otherwise the selection stays where the removal of old stations leaves it |
| StationReplies.PreferredFromItsFirstReply | src/receiver/station_set.hpp:70-87 | over any run of replies in which none expires, the selection is the preferred name from its first reply on, and before that the name that replied first |
| StationSets.PutMeans | src/receiver/station_set.hpp:75-77 | after adding or refreshing, that name finds the new station, every other name what it found before, and the order holds |
| StationSets.UpdateKeepsValid | src/receiver/station_set.hpp:79-84 | the selection is one of the stations |
| StationSets.StationSet.SelectGetSelected | src/receiver/station_set.hpp:89-103 | the neighbour of the selection up or down, round the ends; none exactly for an empty set |
| StationSets.UpAndDownAreInverse | src/receiver/station_set.hpp:95-101 | up and down undo each other |
| StationSets.UpsAreSteps | src/receiver/station_set.hpp:95-97 | a number of ups is that many steps |
| StationSets.UpIsNext | src/receiver/station_set.hpp:95-97 | up leads to the next name in order, and from the last to the first |
| StationSets.UpsVisitEachOnce | src/receiver/station_set.hpp:95-97 | as many ups as stations lead back to the start, through each station exactly once |
| StationSets.StationSet.GetSelected | src/receiver/station_set.hpp:105-109 | prunes, then the selected station |
| StationSets.StationSet.GetStationNames | src/receiver/station_set.hpp:111-121 | prunes, then the names in order |

## Left out

- Sockets, retries and address conversion (src/common/ctrl_socket.hpp, src/common/address_helpers.hpp and the two data_socket.hpp): sending and receiving are steps that may happen at any time, or never.
- The Telnet menu (src/receiver/ui_manager.hpp) and option parsing (src/receiver.cpp, src/sender.cpp): no property that spans operations.
- Mutexes and the memory model: component calls are atomic. In particular a read of the cache's size outside its lock (src/sender/lockable_cache.hpp:30) is part of the atomic lookup.
- Liveness: src/sender/transmitter.hpp:100-111 may end with packets still queued, and the network may lose everything, so nothing is claimed to arrive; Delivery.CanFinish says what a sender can still do at any time.
- 64-bit wrap-around of ids and of id + package_size: 2^64 bytes are not sent.
- Regular expressions in general: only the searches for `,[0-9]+` and `(?: )(\S+)` are modelled, each proved leftmost and longest.
- The resolution of clocks: times are integers, seconds in StationSet and of any unit elsewhere.
- The sending of the request itself (src/receiver/receiver.hpp:107-117): which ids are left to send is modelled, the station they go to is not.
- src/receiver/structures.hpp:39-58 (as_station): its parsing is ReplyData, the rest copies fields.
- DataMsgs.DataMsg.FromRaw: for fewer than 16 bytes it returns none, where the source reads past the end of them.
- CtrlMsgs.CtrlMsg.GetReplyData: a missing word is an error here; the source dereferences the end iterator.
- ReplyText.ReplyIsRead: names are of the characters 32 to 127 that README.md:30 allows; tabs and line ends inside a name are not covered.
- Transmitters.Transmitter.ReadInput: states the outcome when no other thread takes from the queue meanwhile; EndToEnd has the interleaved steps.
- Transmitters.Transmitter.Retransmit: the batch is returned in order of ids; sleeping between batches is not modelled.
- Coverage.EveryHoleIsCovered: is about stretches without reset; CoverageResets.CoveredAcrossResets has careful resets, CoverageLost the runs where careless ones leave a hole uncovered, and until when; CoveredExactlyIfClean is the exact condition.
