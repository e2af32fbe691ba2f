# embeddedRTPS: a verified model of the reliable protocol

embeddedRTPS implements the reliable part of OMG DDSI-RTPS 2.2 for small devices. This project
models its stateful writer and reader, the containers they are built on, the thread pool's work
queues, the multicast planner and the wire format, and proves what they promise together.

The code that works in place is modelled in place: each class here has the fields of its C++
counterpart, and each method is proved to do to its state exactly what a function on values says
(`ensures State() == ...`). The theorems about runs, networks and bytes are then proved about those
functions.

| module | what it is about |
|---|---|
| `RtpsTypes`, `SequenceNumbers`, `Bits`, `Sequences`, `Counting`, `Rings`, `Endpoints`, `Messages` | values, the pair of words behind a sequence number, bit sets, ring arithmetic |
| `History`, `HistoryCacheWithDeletion`, `SimpleHistoryCache` | a history as an ascending list of changes, and the two ring buffers that hold one |
| `CircularBuffer`, `MemoryPool` | the bounded queue and the bitmap slot allocator |
| `WriterSpec`, `NackService`, `StatefulWriter` | the writer's state, its invariants, its answers to AckNacks, its class |
| `SentPackets`, `Retention` | each packet the writer sends, said of the packet and the reader it is for; how long a change is kept |
| `ReaderSpec`, `StatefulReader`, `Requests` | the reader; each AckNack it sends |
| `Protocol` | one writer, one reader and a network that loses, repeats and reorders |
| `Repair`, `Recovery`, `Suppression` | heartbeat, request and answers as one round; runs in which everything arrives; when heartbeats are withheld |
| `Stalling` | a writer whose unsent change was removed |
| `ThreadPool`, `WorkConservation` | the work queues, and many writers running side by side with the pool's threads |
| `SendOptions` | unicast or multicast, per matched reader |
| `Wire`, `PBufWrapper`, `MessageFactory`, `MessageReceiver`, `Layout`, `RoundTrip` | bytes |

## Main results

- **Safety of every run** (`Protocol.EndToEndSafety`, `LiveMeansDelivered`, `DeliveredInOrder`,
  `SkippedStaysDead`). Whatever the network does and whatever AckNacks ask for, each number the
  reader has passed was delivered, or had left the writer's history when the Gap or Heartbeat that
  passed over it was sent. What the writer still has was delivered. Nothing is delivered twice or
  out of order, and the reader never gets ahead of the writer.
- **Repair** (`Repair.RoundRepairs`, `OneRoundRepairs`, `RoundsRepair`). A round starts from a heartbeat
  that the writer really sends and answers the AckNack that the reader really sends in return. It brings
  the reader up to date, or at least 32 numbers further; as many rounds as that takes repair any loss, and
  the callbacks see exactly the live changes, in ascending order.
- **Recovery** (`Recovery.EverythingCanArrive`, `ReaderCatchesUp`, `FirstPacketDelivers`). From every safe
  state with a sound cursor, whatever was lost, the writer's own steps, its packets and the reader's own
  requests lead to a state in which the reader has passed every number that was written, and everything the
  writer still has was delivered. Without a loss, the first packet is enough.
- **What is sent** (`SentPackets.DataGoesOut`, `NothingElseGoesOut`, `BeatsGoOut`, `AnsweredWithOneGap`,
  `Requests.EarlyGapAsks`, `HeartbeatAsks`). Every Data, Heartbeat, Gap and AckNack is described by its
  address, ids, numbers, count and flag, and no other packet is sent.
- **No early disposal** (`Retention.KeptAtFirst`, `StaysWhileYoung`, `SweepIsExact`). A change that was sent
  stays until more than the retention time has passed since its own progress call, unless it is evicted
  or removed; and a sweep drops exactly the changes that are due.
- **Cursor, disposals and work** (`WorkConservation.EveryReachableStateIsGood`, `DrainedMeansDone`,
  `CanStrandIff`, `WriterSpec.SweepsDisposeOfAll`). In every reachable state nothing from the cursor
  on is missing from the history, every sent change that is to be disposed of is queued for that, and
  what is still to be sent is exactly accounted for. A writer can be left behind with drained queues
  if and only if it shares its queue or its history is longer than the queue. As many sweeps as
  numbers wait dispose of everything that is due.
- **Withheld heartbeats** (`Suppression.SuppressionIsSafe`). A writer that withholds heartbeats from a
  reader, going by AckNacks that may be old or repeated, is right: the reader has everything.
- **Answers to AckNacks** (`NackService.NackServedOnce`, `ResponsesAreTruthful`).
- **Containers** refine lists: a bounded ordered map with deletion from the middle, a positional
  lookup, a bounded queue, a lowest-slot allocator with removal during iteration.
- **Multicast coverage** (`SendOptions.EveryReaderIsCovered`, `ExactlyOneSender`, `AllReachedIff`).
- **Wire format** (`Layout.PacketPrinted`, `Layout.MessageHanded`, `RoundTrip.MessageRoundTrip`, `RequestRoundTrip`, `CountSurvivesIff`,
  `AnsweredAsAsked`).

## Where the code does less than it seems to promise

Each of these is proved with an input that shows it and the exact condition under which the promise
holds.

- A payload of more than 32767 bytes is stored as an empty one, because
  `PBufWrapper::reserve` narrows the size to 16 signed bits (`Protocol.PayloadSurvivesIff`,
  `PBufWrapper.LongPayloadIsLost`).
- Removing a change that was not sent yet takes the cursor invariant away, and nothing from that
  change on is sent until the history has come to hold only newer changes and is overwritten
  (`WriterSpec.RemovalKeepsCursorIff`, `Stalling.RemovalOfUnsentStalls`, `Stalling.StuckUntil`).
- `newChange` ignores the result of `addWorkload`. A refused request leaves a change unsent in some
  run if and only if the writer shares its queue with another one, as user writers do, or its history
  is longer than the queue; with histories of 10 and queues of 60 (include/rtps/config.h:53,
  include/rtps/config.h:80-81) a writer that is alone in its queue is never left behind
  (`WorkConservation.CanStrandIff`, `SafeMeansDone`, `SharedQueueStrands`, `ShortQueueStrands`).
- The multicast planner compares addresses and not ports. After a reset, with distinct unicast
  addresses, a reader is reached if and only if it shares its multicast address with none, or listens
  on the port of the first reader that has it; all are reached if and only if those that share an
  address agree on its port (`SendOptions.ReachedIff`, `AllReachedIff`, `NotReachedOnAnotherPort`).
  For plans that grew by single additions, the condition is stated on the plan (`ReachedNowIff`).
- An AckNack declares 32 bytes of bitmap and writes fewer, or more, so that its count does not arrive
  unless it asks for nothing or for 224 to 255 numbers (`RoundTrip.CountSurvivesIff`).
- The positional lookup overflows its 16-bit index in rings of 32769 to 65534 changes, and then
  returns another change (`SimpleHistoryCache.Cache.GetChangeBySN`,
  `SimpleHistoryCache.MisleadingRing`). An empty ring answers the number -2^32 with a stale slot.
- A message whose lengths make the 16-bit position wrap can keep the receiver's loop going forever;
  the loop ends if and only if it ends within as many rounds as the message has bytes
  (`MessageReceiver.LoopsForever`, `MessageReceiver.EndsIff`).
- An AckNack of which 16 bytes are left is handed on, and a Gap of which 20 are, although they take 28 and 32
  bytes (`MessageReceiver.HandedIff`).
- A request never marks more than its first 32 numbers, although its length counts up to 256
  (`StatefulReader.GetMissing`). That is why `Repair.RoundRepairs` speaks of 32 numbers a round.

## Model

| member | source | states |
|---|---|---|
| `SequenceNumbers.OrderAgrees` | include/rtps/common/types.h:134-152 | the operators on (high, low) order and identify pairs exactly as their 64-bit values do |
| `SequenceNumbers.Counter.Increment` | include/rtps/common/types.h:154-160 | adds one to the 64-bit value, across the wrap of the low word |
| `SequenceNumbers.Counter.Decrement` | include/rtps/common/types.h:162-171 | subtracts one, across the wrap |
| `Messages.FirstBitsSet` | include/rtps/common/types.h:197-204 | in a bitmap whose first n bits were filled into word 0, isSet holds for exactly the first min(n, 32) bits, and for all from 256 on |
| `Messages.WordOfOnes` | include/rtps/entities/WriterProxy.h:43-47 | 32 filled bits make the word 0xFFFFFFFF, and or-ing another bit into that changes nothing |
| `Messages.IsSetMeans` | include/rtps/common/types.h:197-204 | bit i of a set is the binary digit 31 - i % 32 of word i / 32: the first bit of a word is its most significant one |
| `HistoryCacheWithDeletion.Cache.IsFull` | include/rtps/storages/HistoryCacheWithDeletion.h:29-33 | true exactly when SIZE changes are held |
| `HistoryCacheWithDeletion.Cache.GetChangeBySN` | include/rtps/storages/HistoryCacheWithDeletion.h:200-230 | the scan with range test and early exit finds a change if and only if the number is live, and returns its slot |
| `HistoryCacheWithDeletion.Cache.Find` | include/rtps/storages/HistoryCacheWithDeletion.h:117-125 | the lookup of the ordered map |
| `HistoryCacheWithDeletion.Cache.Stamp` | include/rtps/entities/StatefulWriter.tpp:178-178 | writing the tick through the returned pointer changes that change's tick and nothing else |
| `HistoryCacheWithDeletion.Cache.AddChange` | include/rtps/storages/HistoryCacheWithDeletion.h:35-54 | appends number lastUsed + 1; a full ring loses exactly its oldest change |
| `HistoryCacheWithDeletion.Cache.ShiftUp` | include/rtps/storages/HistoryCacheWithDeletion.h:90-100 | the shifting loop, also across the end of the array, leaves all entries but one in order behind the tail |
| `HistoryCacheWithDeletion.Cache.DropChange` | include/rtps/storages/HistoryCacheWithDeletion.h:77-105 | removes exactly the one change, if it is live, and says whether it was |
| `History.WithoutKeepsOrder` | include/rtps/storages/HistoryCacheWithDeletion.h:77-105 | after a removal the history is ascending and holds what it held but for the one number |
| `History.WithoutRemovesOne` | include/rtps/storages/HistoryCacheWithDeletion.h:77-105 | after a removal every other number is looked up as before |
| `History.NewestKeepsOrder` | include/rtps/storages/HistoryCacheWithDeletion.h:35-54 | appending keeps the order and the bound, and evicts only the minimum, only when full |
| `History.AppendEvictsOldest` | include/rtps/storages/HistoryCacheWithDeletion.h:35-54 | the lookup after an append, for every number |
| `SimpleHistoryCache.PositionIsSlot` | include/rtps/storages/SimpleHistoryCache.h:90-97 | the 16-bit index is the slot of the number asked for if and only if the sum does not overflow, or overflows at the size of the ring; otherwise it is the slot of an older entry, and which one |
| `SimpleHistoryCache.Cache.GetChangeBySN` | include/rtps/storages/SimpleHistoryCache.h:82-99 | for every ring: None for numbers that are not live; for live ones the change at the computed index, which is what a linear search returns if and only if the index does not overflow; on an empty ring the unknown number is answered with a stale slot |
| `SimpleHistoryCache.MisleadingRing` | include/rtps/storages/SimpleHistoryCache.h:90-98 | a ring of 32769 that, after 65538 changes, answers its newest number with another change |
| `SimpleHistoryCache.Cache.AddChange` | include/rtps/storages/SimpleHistoryCache.h:34-49 | numbers stay consecutive up to the last one used; a full ring loses its oldest change |
| `SimpleHistoryCache.Cache.RemoveUntilIncl` | include/rtps/storages/SimpleHistoryCache.h:55-68 | terminates and leaves exactly the changes above the number |
| `SimpleHistoryCache.AboveIsEnd` | include/rtps/storages/SimpleHistoryCache.h:55-68 | what lies above a number in a ring is the end of it, with exactly the changes whose numbers are greater |
| `CircularBuffer.Fifo.Insert` | include/rtps/storages/ThreadSafeCircularBuffer.tpp:46-70 | appends, or counts a failure and changes nothing when SIZE elements are queued |
| `CircularBuffer.Fifo.MoveFirstInto` | include/rtps/storages/ThreadSafeCircularBuffer.tpp:72-82 | takes the oldest element, or leaves queue and hull alone when empty |
| `CircularBuffer.Fifo.PeakFirst` | include/rtps/storages/ThreadSafeCircularBuffer.tpp:84-93 | copies the oldest element and keeps it |
| `CircularBuffer.Fifo.Clear` | include/rtps/storages/ThreadSafeCircularBuffer.tpp:100-105 | empties the queue |
| `MemoryPool.Pool.Add` | include/rtps/storages/MemoryPool.h:86-106 | fails exactly when SIZE slots are in use; otherwise takes the lowest free slot, which is within bounds, and puts the element there in iteration order |
| `MemoryPool.Pool.Remove` | include/rtps/storages/MemoryPool.h:119-135 | deletes exactly the matching elements while iterating a snapshot of the bitmap being cleared, and says whether there was one |
| `MemoryPool.Pool.Find` | include/rtps/storages/MemoryPool.h:144-152 | the first match in iteration order, or none if there is none |
| `MemoryPool.Iterator.Advance` | include/rtps/storages/MemoryPool.h:45-57 | moves to the next slot that was in use when the iterator was made, or to the end |
| `StatefulWriter.Writer.NewChange` | include/rtps/entities/StatefulWriter.tpp:111-145 | irrelevant kinds are refused; otherwise the change is appended, the cursor leaves an evicted number, and work is requested |
| `StatefulWriter.Writer.Progress` | include/rtps/entities/StatefulWriter.tpp:147-195 | the change at the cursor goes out as the Data of `SentPackets.DataGoesOut`, and is stamped with the tick and scheduled for disposal if marked (`Retention.ProgressSchedules`); the cursor moves on and a heartbeat round follows; without such a change nothing happens |
| `StatefulWriter.Writer.SendHeartBeat` | include/rtps/entities/StatefulWriter.tpp:483-543 | one heartbeat, as `SentPackets.BeatsGoOut` describes it, for each proxy that has not confirmed everything, all with one count, which is then used up |
| `StatefulWriter.Writer.Announce` | include/rtps/entities/StatefulWriter.tpp:504-528 | the announced range in the non-empty, emptied and never-used cases |
| `StatefulWriter.Writer.OnNewAckNack` | include/rtps/entities/StatefulWriter.tpp:210-313 | unknown readers are ignored; otherwise the proxy holds the base, the count and the final flag of the request and is otherwise unchanged, and exactly the answers of `SentPackets.AnsweredWithBeats`, `AnsweredWithOneGap` and `NackService` are sent, on an unchanged history |
| `StatefulWriter.Writer.ServeRequest` | include/rtps/entities/StatefulWriter.tpp:271-312 | the nested loops keep nextSN = base + i, terminate, and send exactly the replies of the specification |
| `StatefulWriter.Writer.RemoveFromHistory` | include/rtps/entities/StatefulWriter.tpp:315-320 | removes the change, if it is live |
| `StatefulWriter.Writer.DropDisposeAfterWriteChanges` | include/rtps/entities/StatefulWriter.tpp:455-480 | the sweep terminates, with the length of the queue as its measure, and computes the specified state |
| `NackService.NackServedOnce` | include/rtps/entities/StatefulWriter.tpp:271-312 | each requested number up to the last one used is covered by exactly one reply: Data with its payload if it is live, a Gap if it is dead |
| `NackService.ServeInOrder` | include/rtps/entities/StatefulWriter.tpp:271-312 | the replies are disjoint and ascending |
| `NackService.ServeTruthful` | include/rtps/entities/StatefulWriter.tpp:271-312 | Data repeats a live change, and no Gap contains a live number |
| `NackService.ServeAsked` | include/rtps/entities/StatefulWriter.tpp:271-312 | each reply starts at a number that was requested |
| `NackService.ServeComplete` | include/rtps/entities/StatefulWriter.tpp:271-312 | every requested number up to the last one used is answered |
| `NackService.ResponsesAreTruthful` | include/rtps/entities/StatefulWriter.tpp:242-312 | for any AckNack, in every branch, the answers are true of the history |
| `SentPackets.DataGoesOut` | include/rtps/entities/StatefulWriter.tpp:152-160 | each proxy that is sent to gets one packet, at its place in the order: with unicast enforced or not suppressed, to its own address with its id; as a multicast sender, to its multicast address with no id; always with the writer id, number and payload of the change |
| `SentPackets.NothingElseGoesOut` | include/rtps/entities/StatefulWriter.tpp:323-348 | every packet of a round is one of these |
| `SentPackets.GetsIffReached` | include/rtps/entities/StatefulWriter.tpp:378-414 | a packet for a reader, addressed to it or to its multicast address and port, is sent if and only if the send options reach it |
| `SentPackets.SentIff` | include/rtps/entities/StatefulWriter.tpp:378-414 | after a reset with distinct unicast addresses, a round contains a packet for a reader if and only if it shares its multicast address with none or has the port of the first reader of its group |
| `SentPackets.EveryReaderIsServed` | include/rtps/entities/StatefulWriter.tpp:378-414 | after any history of matching and removing, a round contains for each reader a packet to its own address with its id or to its multicast address with no id |
| `SentPackets.BeatsGoOut` | include/rtps/entities/StatefulWriter.tpp:483-543 | each proxy that is not to be left alone gets one heartbeat to its own address, with the count, the number before the cursor as last one, and as first one the least live number, below which everything is dead |
| `SentPackets.NoOtherBeats` | include/rtps/entities/StatefulWriter.tpp:504-537 | a round contains no other packet |
| `SentPackets.RepliesGoOut` | include/rtps/entities/StatefulWriter.tpp:323-375 | the packets for the replies go to the reader that asked, with its id, in order; a Gap carries an empty list |
| `SentPackets.AnsweredWithBeats` | include/rtps/entities/StatefulWriter.tpp:240-258 | a request with base 0, or to a writer that never had a change, is answered with a heartbeat to each proxy that is not to be left alone, and with nothing else |
| `SentPackets.AnsweredWithOneGap` | include/rtps/entities/StatefulWriter.tpp:248-266 | a request that starts below the history is answered with exactly one Gap up to the least live number; one to an emptied history with one Gap up to the next number |
| `Repair.RequestBelowHistory` | include/rtps/entities/StatefulWriter.tpp:263-266 | a reader that sends such a request is brought exactly to the least live number, and sees nothing |
| `WriterSpec.NewChangeSound` | include/rtps/entities/StatefulWriter.tpp:124-140 | newChange keeps the cursor and disposal invariants, also when it evicts |
| `WriterSpec.SkipsOnlyTheEvicted` | include/rtps/entities/StatefulWriter.tpp:124-134 | the cursor moves over at most one number, and only over the minimum that is evicted from a full history |
| `WriterSpec.ProgressSound` | include/rtps/entities/StatefulWriter.tpp:150-189 | progress keeps the invariants |
| `WriterSpec.ProgressKeepsCursor` | include/rtps/entities/StatefulWriter.tpp:150-189 | progress sends exactly when something is left to send, and then moves the cursor by one: it never stalls on a hole |
| `WriterSpec.RemovalKeepsCursorIff` | include/rtps/entities/StatefulWriter.tpp:315-320 | a removal keeps the cursor invariant if and only if the change has been sent or was never written |
| `Stalling.RemovalOfUnsentStalls` | include/rtps/entities/StatefulWriter.tpp:315-320 | after the removal of any change that was not sent, through any operations, nothing from that number on is sent until a full history of newer changes is overwritten |
| `Stalling.StuckUntil` | include/rtps/entities/StatefulWriter.tpp:124-134 | an operation ends the stall if and only if it is a newChange that overwrites a full history all newer than the hole |
| `WriterSpec.SweepSound` | include/rtps/entities/StatefulWriter.tpp:455-480 | the sweep keeps the invariants: no disposal is forgotten |
| `WriterSpec.SweepDropsOnlyExpired` | include/rtps/entities/StatefulWriter.tpp:455-480 | whatever the sweep drops was queued, marked, and by the 32-bit difference of ticks older than the retention time |
| `WriterSpec.AgeIsElapsed` | include/rtps/entities/StatefulWriter.tpp:466-467 | the difference of two wrapping tick counts is the time that has passed, up to whole turns of the counter: nothing is dropped early |
| `WriterSpec.SweepOnlyDrops` | include/rtps/entities/StatefulWriter.tpp:455-480 | the sweep takes a prefix off the queue, drops changes, and touches nothing else |
| `WriterSpec.SweepsDisposeOfAll` | include/rtps/entities/StatefulWriter.tpp:455-480 | as many sweeps as numbers wait, at ticks at which all are old, leave no sent change that is marked for disposal |
| `Retention.ProgressSchedules` | include/rtps/entities/StatefulWriter.tpp:176-187 | a marked change that is sent is stamped with the tick of the call and queued last, or dropped if and only if the queue is full; all others stay as they are |
| `Retention.KeptAtFirst` | include/rtps/entities/StatefulWriter.tpp:466-467 | a change that is sent at a tick survives every sweep up to the retention time after that, also if the tick counter turns over in between |
| `Retention.StaysWhileYoung` | include/rtps/entities/StatefulWriter.tpp:455-480 | in every run, a change that was sent stays, with its payload and stamp, until it is evicted or removed or a sweep comes more than the retention time after its own progress call |
| `Retention.StaysUnlessTaken` | include/rtps/entities/StatefulWriter.tpp:111-195 | no operation but the eviction of the least number, a removal, a full disposal queue and a sweep takes a change out of the history |
| `Retention.SweepIsExact` | include/rtps/entities/StatefulWriter.tpp:455-480 | a sweep handles a prefix of the queue: each number in it had nothing to dispose of or was old enough, and the number after it was neither; exactly the old ones are dropped |
| `WriterSpec.HeartbeatTellsTheTruth` | include/rtps/entities/StatefulWriter.tpp:504-528 | the range ends just before the cursor, contains every live change that was sent, and everything below it is dead |
| `StatefulReader.GetMissing` | include/rtps/entities/WriterProxy.h:33-51 | asks from the expected number on, for at most 256, marking at most 32 |
| `StatefulReader.Reader.NewChange` | include/rtps/entities/StatefulReader.tpp:53-86 | the change is handed on, and the expected number moves, only for a proxy that expects this number |
| `StatefulReader.Reader.OnNewGapMessage` | include/rtps/entities/StatefulReader.tpp:100-194 | the three cases, for arbitrary bitmaps: before the gap, everything up to it is asked for (`Requests.EarlyGapAsks`); otherwise the reader moves to the least number outside it, and asks for that one if the list begins at or below the expected number (`Requests.LateGapAsks`) |
| `StatefulReader.Reader.OnNewHeartbeat` | include/rtps/entities/StatefulReader.tpp:197-241 | the expected number moves up to the announced first one, and a request for the rest is sent |
| `Requests.EarlyGapAsks` | include/rtps/entities/StatefulReader.tpp:123-139 | a Gap beyond the expected number makes the reader send exactly one AckNack to the writer's address, with the ids, the expected number as base, all numbers up to the gap but at most 256, of which the first 32 are marked, the stored count, which goes up by one, and no final flag; nothing else changes |
| `Requests.GapMovesOn` | include/rtps/entities/StatefulReader.tpp:143-157 | a Gap whose base lies above the expected number moves the reader to the least number outside it, and nothing is sent |
| `Requests.LateGapAsks` | include/rtps/entities/StatefulReader.tpp:159-193 | otherwise the reader moves likewise and asks for exactly that one number, unless the list covers all its 256 numbers |
| `Requests.GapIsUnhandledIff` | include/rtps/entities/StatefulReader.tpp:159-193 | the result is false if and only if the list begins at or below the expected number and covers everything from there to its end |
| `Requests.HeartbeatAsks` | include/rtps/entities/StatefulReader.tpp:197-241 | the reader moves up to the first number announced, stores the count, and sends exactly one AckNack for all it misses, with the final flag if and only if that is nothing |
| `Requests.DataIsHandedOn` | include/rtps/entities/StatefulReader.tpp:53-86 | a change is handed on, and the next one expected, if and only if it is the one expected of its writer and there is a callback; nothing is sent |
| `Requests.OthersAreIgnored` | include/rtps/entities/StatefulReader.tpp:100-122 | messages of unknown writers, and all before initialization, change nothing |
| `Requests.CountsRise` | include/rtps/entities/WriterProxy.h:53-57 | whatever arrives, each AckNack to a writer carries a count one higher than the one before |
| `ReaderSpec.LeastOutside` | include/rtps/entities/StatefulReader.tpp:141-193 | the least number at or above n that is neither before the base of the list nor a set bit of it |
| `ReaderSpec.DeliveryInOrderAtMostOnce` | include/rtps/entities/StatefulReader.tpp:53-241 | for any sequence of messages, expected numbers never decrease and the callbacks see each writer's numbers strictly ascending, given one proxy per writer |
| `Protocol.EndToEndSafety` | include/rtps/entities/StatefulReader.tpp:53-241 | in every run, each number below the expected one was delivered as given or was dead when the message that skipped it was sent; expected never decreases and is at most lastUsed + 1 |
| `Protocol.InitiallySafe` | include/rtps/entities/StatefulWriter.tpp:46-103 | the invariants hold of a new writer and a reader newly matched with it |
| `Protocol.SkippedStaysDead` | include/rtps/entities/StatefulWriter.tpp:240-312 | a number that was skipped never returns to the history |
| `Protocol.LiveMeansDelivered` | include/rtps/entities/StatefulReader.tpp:53-241 | whatever the reader has passed and the writer still has was delivered |
| `Protocol.DeliveredInOrder` | include/rtps/entities/StatefulReader.tpp:53-86 | in every run the callbacks see strictly ascending numbers |
| `Protocol.PayloadSurvivesIff` | src/storages/PBufWrapper.cpp:116-123 | a delivered payload is the one newChange was called with if and only if that has at most 32767 bytes |
| `Protocol.BeatCountsRise` | include/rtps/entities/StatefulWriter.tpp:483-543 | in every run each round of heartbeats has a higher count than all rounds before it |
| `Repair.RoundRepairs` | include/rtps/entities/StatefulReader.tpp:221-239 | any heartbeat of a round that the writer sends, the AckNack the reader sends in return, and the answers to it, on an unchanged history, bring the reader to lastSN + 1 or at least 32 further, and the callbacks see exactly the live changes passed, ascending |
| `Repair.OneRoundRepairs` | include/rtps/entities/StatefulReader.tpp:221-239 | if at most 32 numbers are missing before the cursor, one such round is enough |
| `Repair.RoundsRepair` | include/rtps/entities/StatefulWriter.tpp:240-312 | any number of missing changes is repaired, up to the cursor, by as many rounds as that takes at 32 each |
| `Recovery.EverythingCanArrive` | include/rtps/entities/StatefulWriter.tpp:147-313 | from every safe state with a sound cursor and a reader that is not to be left alone, steps of the writer's own, deliveries of sent packets and of requests that the reader sent lead to a state in which the reader expects the number after the last one written, and all that is still in the history was delivered |
| `Recovery.ReaderCatchesUp` | include/rtps/entities/StatefulReader.tpp:197-241 | heartbeats, deliveries and the reader's own requests alone bring it up to the cursor, and the callbacks see exactly the live changes on the way |
| `Recovery.FirstPacketDelivers` | include/rtps/entities/StatefulWriter.tpp:147-195 | a reader that is up to date, and is sent to, has the next change delivered by the first packet for it, and sends nothing in return |
| `Recovery.ProgressAnnounces` | include/rtps/entities/StatefulWriter.tpp:189-195 | the same call of progress also puts a heartbeat on the network that announces the change |
| `Suppression.SuppressionIsSafe` | include/rtps/entities/StatefulWriter.tpp:516-520 | in every run in which the AckNacks in a reader's name are its own, however old, repeated or reordered: a proxy for which the heartbeat is withheld is of a reader that has passed every number the heartbeat would announce |
| `ThreadPool.ThreadPool.AddWorkload` | src/ThreadPool.cpp:139-158 | the request goes to the end of the queue of its kind, or is counted as dropped when that is full |
| `ThreadPool.ThreadPool.DoWriterWork` | src/ThreadPool.cpp:214-240 | the loop terminates when undisturbed, with both queues empty, and serves in alternation |
| `ThreadPool.AlternatingServesAll` | src/ThreadPool.cpp:214-240 | every request is served exactly as often as it was made |
| `ThreadPool.AlternatingTakesTurns` | src/ThreadPool.cpp:214-240 | while both queues have requests, they take turns, a user request first, each queue from its front |
| `ThreadPool.AlternatingRestOfMeta` | src/ThreadPool.cpp:214-240 | what the builtin queue has more follows in its order |
| `ThreadPool.AlternatingRestOfUser` | src/ThreadPool.cpp:214-240 | what the user queue has more follows in its order |
| `WorkConservation.EveryReachableStateIsGood` | include/rtps/entities/StatefulWriter.tpp:124-189 | over all runs of many writers, two bounded queues and any number of threads: the cursor and disposal invariants hold, what was sent ascends, what was passed over is gone, and changes to send plus changes passed over equal requests queued, taken, refused and spent in vain |
| `WorkConservation.DrainedMeansDone` | src/ThreadPool.cpp:139-158 | with queues and threads idle, exactly how many changes are unsent; as long as none was evicted unsent, some are if and only if a request was refused; if none are, every change was sent or evicted before its turn |
| `WorkConservation.CanStrandIff` | include/rtps/entities/StatefulWriter.tpp:136-140 | some run leaves a writer with drained queues and an unsent change if and only if it shares its queue or its history is longer than the queue |
| `WorkConservation.SafeMeansDone` | src/ThreadPool.cpp:139-158 | a writer alone in a queue at least as long as its history has nothing left whenever the queues are drained, refusals or not |
| `WorkConservation.SharedQueueStrands` | src/ThreadPool.cpp:139-158 | for any size of the queue, a run in which another writer fills it and this one's change is never sent |
| `WorkConservation.ShortQueueStrands` | src/ThreadPool.cpp:139-158 | a run in which a writer with the longer history fills its own queue, and a change is never sent |
| `SendOptions.Writer.ManageSendOptions` | src/entities/Writer.cpp:71-107 | the nested loops, writing to both loop variables, compute the specified plan |
| `SendOptions.Writer.ResetSendOptions` | src/entities/Writer.cpp:55-63 | all options are cleared before planning |
| `SendOptions.Writer.AddNewMatchedReader` | src/entities/Writer.cpp:20-33 | the proxy is stored if there is room, and the plan is made unless unicast is enforced |
| `SendOptions.Writer.RemoveProxy` | src/entities/Writer.cpp:35-48 | all proxies of the reader leave, the result says whether there was one, and the plan is made anew |
| `SendOptions.Writer.RemoveAllProxiesOfParticipant` | src/entities/Writer.cpp:109-122 | all proxies of the participant leave, and the plan is made anew |
| `SendOptions.EveryReaderIsCovered` | src/entities/Writer.cpp:20-107 | after any history of matching and removing, every reader is sent unicast or shares its multicast address with a proxy that sends multicast without an entity id that would exclude it; ids are given up only in groups that have more than one |
| `SendOptions.WhoIsMatched` | src/entities/Writer.cpp:20-122 | after a change, a proxy with given GUID, locators and confirmations is there if and only if it was there and its GUID, or prefix, is not the one removed, or it is the newly matched one and there was room |
| `SendOptions.OneSenderForEachGroup` | src/entities/Writer.cpp:55-107 | after a reset with distinct unicast addresses, exactly the members of groups of two or more are suppressed, and exactly the first of each sends |
| `SendOptions.ExactlyOneSender` | src/entities/Writer.cpp:55-107 | each such group has one and only one multicast sender |
| `SendOptions.ReachedIff` | include/rtps/entities/StatefulWriter.tpp:378-414 | after a reset with distinct unicast addresses, a packet reaches a reader on its own port if and only if it shares its multicast address with none or listens on the port of the first reader that has it |
| `SendOptions.AllReachedIff` | include/rtps/entities/StatefulWriter.tpp:378-414 | after such a reset all readers are reached if and only if those that share a multicast address agree on its port |
| `SendOptions.ReachedNowIff` | include/rtps/entities/StatefulWriter.tpp:378-414 | in every state that matching and removing can lead to, a reader is reached if and only if it is sent unicast or a sender of its group uses its port |
| `SendOptions.NotReachedOnAnotherPort` | src/entities/Writer.cpp:82-87 | two readers of one multicast address and two ports, of which the second gets nothing |
| `PBufWrapper.Buffer.Reserve` | src/storages/PBufWrapper.cpp:116-123 | allocates what the narrowed difference says and keeps what was written; if memory is refused, reports it and changes nothing |
| `PBufWrapper.Buffer.Append` | src/storages/PBufWrapper.cpp:91-102 | writes behind what was written, if it fits; otherwise changes nothing |
| `PBufWrapper.Buffer.AppendChain` | src/storages/PBufWrapper.cpp:104-114 | the other chain follows the whole of this one; what was written there follows what was written here if nothing was left unwritten |
| `PBufWrapper.StorePayload` | include/rtps/storages/HistoryCacheWithDeletion.h:41-42 | what a change keeps of its data |
| `PBufWrapper.LongPayloadIsLost` | src/storages/PBufWrapper.cpp:91-123 | 32768 bytes for which reserve claims success without allocating, append fails, and nothing is kept |
| `MessageFactory.SerializeSubHeader` | include/rtps/messages/MessageTypes.h:246-258 | writes 4 bytes but reserves 20, so that up to 16 stay unwritten |
| `MessageFactory.AddSubMessageTimeStamp` | include/rtps/messages/MessageFactory.h:55-83 | 12 bytes, or 4 for an invalid time, and the unused space left |
| `MessageFactory.AddSubMessageData` | include/rtps/messages/MessageFactory.h:85-122 | the submessage, then whatever stays unwritten, then the payload; nothing stays unwritten if no more than 24 bytes were free before |
| `MessageFactory.AddHeartbeat` | include/rtps/messages/MessageFactory.h:124-146 | 32 bytes, and the unused space left |
| `MessageFactory.AddSubmessageGap` | include/rtps/messages/MessageFactory.h:176-196 | 36 bytes, and the unused space left |
| `MessageFactory.AddAckNack` | include/rtps/messages/MessageFactory.h:148-174 | the bytes that are known, for up to 256 bits; behind them bytes that were reserved and not written or, for 256 bits, the word from behind the bitmap and no count |
| `MessageFactory.DataPacket` | include/rtps/entities/StatefulWriter.tpp:323-348 | the whole packet, byte for byte |
| `MessageFactory.GapPacket` | include/rtps/entities/StatefulWriter.tpp:351-375 | the whole packet |
| `MessageFactory.HeartbeatPacket` | include/rtps/entities/StatefulWriter.tpp:489-537 | the whole packet |
| `MessageFactory.AckNackPacket` | include/rtps/entities/StatefulReader.tpp:226-239 | the whole packet, with bytes of unknown content at its end |
| `MessageReceiver.DeserializeData` | src/messages/MessageTypes.cpp:54-87 | fails if fewer bytes remain than the header declares; otherwise the fields and the payload at their positions |
| `MessageReceiver.DeserializeHeartbeat` | src/messages/MessageTypes.cpp:89-118 | fails if fewer than 32 bytes remain; otherwise the fields at their positions |
| `MessageReceiver.DeserializeSNS` | src/messages/MessageTypes.cpp:120-138 | at most 32 bytes of bitmap are copied, and the position moves by the declared length |
| `MessageReceiver.DeserializeAckNack` | src/messages/MessageTypes.cpp:140-168 | fails if fewer than 16 bytes remain; otherwise the fields, with the count read behind the declared bitmap |
| `MessageReceiver.DeserializeGap` | src/messages/MessageTypes.cpp:170-203 | fails if fewer than 20 bytes remain; otherwise the fields and the set at their positions |
| `MessageReceiver.ReadsOnlyWithin` | src/messages/MessageTypes.cpp:54-203 | how many bytes each deserializer reads; if these lie within the message, what lies behind it does not matter |
| `MessageReceiver.Receiver.ProcessHeader` | src/messages/MessageReceiver.cpp:62-84 | own, foreign and truncated messages are rejected, all others accepted |
| `MessageReceiver.Receiver.ProcessSubmessage` | src/messages/MessageReceiver.cpp:86-123 | each kind goes to its handler, and the 16-bit position moves on |
| `MessageReceiver.Receiver.ProcessMessage` | src/messages/MessageReceiver.cpp:44-60 | whenever the loop ends, also if the 16-bit position wraps on the way, it hands on exactly the submessages at the positions that the lengths lead to |
| `MessageReceiver.LoopsForever` | src/messages/MessageReceiver.cpp:120-122 | a submessage that declares 0xFFFC bytes leaves the position where it was, and the loop never ends |
| `MessageReceiver.EndsIff` | src/messages/MessageReceiver.cpp:49-54 | the loop over the submessages ends if and only if it ends within as many rounds as the message has bytes |
| `MessageReceiver.RefusedIff` | src/messages/MessageReceiver.cpp:62-84 | a message is refused if and only if it has fewer than 20 bytes, does not begin with RTPS, has another major version than 2, or carries the receiver's own prefix |
| `MessageReceiver.HandedIff` | src/messages/MessageTypes.cpp:54-203 | how many bytes must be left for a submessage of each kind to be handed on |
| `Layout.PacketPrinted` | include/rtps/messages/MessageTypes.h:232-376 | every printed packet has, field by field, the little-endian layout of its kind: protocol, version, vendor, prefix, time stamp, kinds, flags, lengths, ids, numbers, bitmap and count at their offsets |
| `Layout.PartsHandedInOrder` | src/messages/MessageReceiver.cpp:49-59 | whoever made it: a message of any number of submessages, known and unknown, is taken apart into exactly these, and the known ones are handed on in order, field by field as they stand there; one to three bytes behind them count as malformed |
| `Layout.MessageHanded` | src/messages/MessageReceiver.cpp:44-60 | the same for a whole message with its header |
| `RoundTrip.MessageRoundTrip` | src/messages/MessageReceiver.cpp:44-60 | every printed Data, Gap and Heartbeat is accepted by any other participant, ends exactly at its end, and hands on one submessage with the same fields and payload |
| `RoundTrip.RequestRoundTrip` | src/messages/MessageTypes.cpp:140-168 | for up to 256 bits and any unknown bytes: ids, base, length, the final flag and every requested bit arrive |
| `RoundTrip.CountSurvivesIff` | include/rtps/messages/MessageTypes.h:326-352 | the count arrives for all unknown bytes if and only if there are no bits or 224 to 255 |
| `RoundTrip.AnsweredAsAsked` | include/rtps/entities/StatefulWriter.tpp:240-312 | the writer answers the request that arrives exactly as it would have answered the one that was made |
| `RoundTrip.SentDataArrives` | include/rtps/entities/StatefulWriter.tpp:323-348 | every Data of any state of the protocol model survives the wire with the payload it was given |

## Left out

- `StatefulWriter.Writer.NewChange` and all of `Protocol`: sequence numbers are unbounded integers there; the wrap of the signed high word, undefined in C++, is not modelled. `SequenceNumbers` justifies this for the 64-bit range.
- `StatefulWriter.Writer.ServeRequest`: the counters i and j are unbounded; the original's are 32 bits wide.
- `StatefulWriter.Writer.DropDisposeAfterWriteChanges`: one step here, while the original runs it without the writer's lock; the retention time is a parameter (4000 ms in the original).
- Packets are built with memory to spare: `MessageFactory` does not model a refused pbuf_alloc, of which the original's callers take no notice.
- `PBufWrapper.Buffer.Append`: pbuf_take_at is lwIP's and is taken to succeed exactly when the bytes fit.
- `MessageReceiver.Receiver.ProcessMessage`: required to end; `MessageReceiver.LoopsForever` shows that the original may not.
- `MessageReceiver.DeserializeAckNack`: bytes behind the end of the message read as zero; the original reads whatever lies there. `MessageReceiver.ReadsOnlyWithin` says when that does not matter.
- `MessageReceiver.DeserializeGap`: the same; 20 bytes are checked for and at least 32 are read.
- `MessageReceiver.DeserializeData`: the same, when the header declares fewer than 20 bytes.
- `MessageFactory.AddAckNack`: the ninth word that is copied for 256 bits is a parameter; C++ leaves the read behind the bitmap undefined.
- `ThreadPool.ThreadPool.DoWriterWork`: one thread up to its first wait, with nothing added meanwhile; `WorkConservation` interleaves threads and writers.
- `SendOptions.Writer.AddNewMatchedReader`: the place that a new proxy takes is a parameter; `MemoryPool.Pool.Add` shows which one it is.
- `SendOptions.EveryReaderIsCovered`: of the flag for unknown entity ids, only the plan is modelled; the stateless writer, which reads it, is not.
- `Recovery.EverythingCanArrive`: says that a run exists. That every fair run recovers is not stated.
- `StatefulReader.GetMissing`: from the 33rd missing number on the original shifts by a negative count, which C++ leaves undefined; here that sets nothing.
- `SequenceNumbers.Counter.Increment`: not past the largest value, where the original overflows a signed word.
- Locks and threads: each public method is one atomic step; only the threads that take and finish work are interleaved, in `WorkConservation`.
- `StatefulWriter.Writer` and `SendOptions.Writer` are one class hierarchy in the original; here each has the fields it needs.
- Pointers into the history: `Find` returns a copy, so that a pointer kept across a deletion is not modelled.
- `HistoryCacheWithDeletion::removeUntilIncl` and `dropOldest`: their loop has no test for emptiness, and nothing in the protocol calls them.
- `m_dispose_after_write_cnt`: never read, and not kept up by overflow.
- `setAllChangesToUnsent`: used only by the stateless SPDP writer; it does not keep the cursor invariant on a history with holes.
- `init`, `reset` and `clear`: one lifetime of each endpoint is modelled.
- Silence: the exchange of AckNacks and Gaps need not come to rest, and no such claim is made.
- Looking up endpoints of a participant, and the stateless endpoints.
- Parameter lists (`TopicData`), SPDP and SEDP, Domain and Participant: a separate codec of a few fields, and wiring.
- Inline QoS, INFO_DST, and big-endian hosts.
- The UDP driver, lwIP, FreeRTOS, sockets, clocks and diagnostics.
