# Verified models of EventStreamCore

EventStreamCore takes bytes from sockets, cuts them into frames, sends events through a lock-free
queue to one dispatcher, spreads them over three bounded queues, and has processors store them in
an append-only log. This project models the parts of that pipeline with the most state and proves
what they promise, for every input, every run and every interleaving.

`dafny verify dfyconfig.toml` checks all of it.

| files | what they model |
|---|---|
| `MpscSteps`, `MpscPromises`, `Mpsc` | the multi-producer queue, one atomic action at a time, with nodes that are freed and reused |
| `Ring`, `RingSteps`, `RingEviction` | the single-producer ring: whole calls in place, load by load, and with the dispatcher as a second popper |
| `DedupSteps`, `DedupTimes`, `DedupAnswers`, `DedupAlone`, `Dedup` | the duplicate table: concurrent inserts and readers with one cleaner, its times, what answers mean, calls left alone, and linked entries used by one thread |
| `Frames`, `Framing`, `FramingGuards` | frame bodies, the TCP and epoll framing loops, their guards in numbers |
| `DeadLetters`, `BusSteps`, `BusPromises`, `Buses` | dead letters, the event bus and the dispatcher |
| `TransactionSteps`, `Transactions` | the transactional processor over time |
| `BatchSteps`, `Batches` | the batch processor |
| `Bitwise`, `Digits`, `Crc32` | the checksum |
| `Histogram` | the latency histogram |
| `Pool`, `PoolLookup` | the event pool, and its events found by their address |
| `Pipeline`, `PipelineProgress` | connections, inbound queue, dispatcher and bus as one machine, and one frame on its way through |
| `RecordLog` | the record log |
| `Bytes`, `Events`, `Wrappers` | shared data |

A component the source updates in place appears twice: as functions on values, about which the
theorems are proved, and as a class whose methods are proved to do to its fields what those
functions do to values. Concurrent components are step machines: a thread has a program counter
and its locals, every atomic load, store or exchange is one step, and a schedule is any sequence
of steps of any threads. Fields named `history`, `log`, `ledger`, `removals`, `seen`, `submitted`,
`admitted` and `emitted` only record what happened.

## Where the code and its comments disagree

The models follow the code.

- `src/core/ingest/epoll.cpp:405-411` says a tripped guard makes the caller close the connection.
  It only clears the buffer and reading goes on, so the frames then depend on how the stream was
  cut (`Framing.EpollChunkingIff`, `Framing.EpollCutsDiffer`).
- `src/core/events/event_bus.cpp:40-48` computes the pressure only inside a realtime push. Once it
  is raised without CRITICAL traffic, no HIGH event is sent to the ring any more, so nothing ever
  computes it again, even when the ring is empty (`BusSteps.PressureLatches`).
- `src/core/events/event_bus.cpp:70-74` cannot be reached with whole calls as steps: the pop before
  it has made room.
- `src/core/events/event_bus.cpp:57` pops on the pushing thread, though the ring is written for a
  single consumer (`include/eventstream/core/queues/spsc.hpp:7-9`): one event can leave twice
  (`RingEviction.OneEventTwice`).
- `include/eventstream/core/queues/dedup.hpp:53` promises false for an id that already existed.
  `src/core/queues/dedup.cpp:49-56` answers false also after three lost exchanges, which happens for
  an id never seen (`DedupAnswers.GivesUpIff`, `DedupAnswers.GivesUpOnNewId`). The count of
  `cleanup_bucket_count` leaves out what its first phase removed (`Dedup.Deduplicator.CleanupBucket`).
- `src/core/processor/transactional.cpp:42-51` returns on a duplicate before it looks at the clock
  for a cleanup, so an expired id stays blocked while only known ids arrive
  (`TransactionSteps.DuplicatesKeepOut`, `TransactionSteps.ExpiredIdRefused`).
- `include/eventstream/core/memory/event_pool.hpp:193-206` leaves the addresses of the events it deletes
  in the lookup table, so a later heap object at such an address is taken for a pooled one
  (`PoolLookup.SharedIffMisled`, `PoolLookup.SlotSharedAfterReset`).
- `include/eventstream/core/queues/mpsc.hpp:33-34` promises false only at capacity; the counter can
  also wrap below zero (`MpscPromises.RejectedWhileEmpty`).

## Model

| member | source | states |
|---|---|---|
| `MpscSteps.RunKeepsInv` | include/eventstream/core/queues/mpsc.hpp:36-83 | In every interleaving of any number of producers and one consumer, at single atomic actions, every state satisfies the invariant: chain with owed links, private nodes apart, no leak, counter exact up to its lag |
| `MpscPromises.FirstInFirstOut` | include/eventstream/core/queues/mpsc.hpp:36-83 | No step of any run touches a freed node, frees one twice or takes an item twice; what was popped is a prefix of what was pushed, in the order of the exchanges on `tail_` |
| `MpscPromises.GapsAreOwedOnce` | include/eventstream/core/queues/mpsc.hpp:46-50 | From `head_` to `tail_` the nodes are the pushed, unpopped items in exchange order; each missing link is owed by exactly one in-flight producer, and every owed link starts at a live node not yet linked |
| `MpscPromises.NeverFarOverCapacity` | include/eventstream/core/queues/mpsc.hpp:37-40 | With P producers the queue never holds more than Capacity + P - 1 items, despite the check-then-act race on `size_` |
| `MpscPromises.SizeCountsLinked` | include/eventstream/core/queues/mpsc.hpp:50-52 | `size_` modulo 2^64 is linked items, less pushes linked but not yet counted, plus the pop not yet counted; exact when nobody is inside push or pop |
| `MpscPromises.PopEmptyIff` | include/eventstream/core/queues/mpsc.hpp:64-72 | pop answers nullopt exactly when nothing is queued or the oldest link is still owed |
| `MpscPromises.RejectedIff` | include/eventstream/core/queues/mpsc.hpp:38-40 | A push is turned away exactly when the counter is at capacity or has wrapped below zero |
| `MpscPromises.RejectedWhileEmpty` | include/eventstream/core/queues/mpsc.hpp:38-52 | A reachable run in which an idle producer is turned away from an empty queue, because a pop was counted before its push |
| `MpscPromises.PopFinishes` | include/eventstream/core/queues/mpsc.hpp:63-83 | With no push in flight the consumer's pop ends after its own steps and returns the oldest item not yet returned |
| `MpscPromises.DrainReturnsAll` | include/eventstream/core/queues/mpsc.hpp:18-23 | Once nobody pushes, as many pops as there are items return all of them in order and leave the dummy as the only live node: nothing lost, nothing leaked |
| `MpscPromises.PushFinishes` | include/eventstream/core/queues/mpsc.hpp:36-54 | Below capacity a push left alone ends after its own five steps: its item is the last of the queue, its node is linked, and the counter is one higher |
| `MpscPromises.HandsOver` | include/eventstream/core/queues/mpsc.hpp:36-83 | One push and one pop call on a quiet empty queue return that item and leave counter zero and the dummy alone on the heap |
| `MpscSteps.PushKeepsInv` | include/eventstream/core/queues/mpsc.hpp:36-54 | Each atomic action of a producer keeps the invariant, whatever the others are doing |
| `MpscSteps.PopKeepsInv` | include/eventstream/core/queues/mpsc.hpp:63-83 | Each atomic action of the consumer keeps the invariant |
| `MpscSteps.PopIsSafe` | include/eventstream/core/queues/mpsc.hpp:64-79 | Every node the consumer is about to read, write or delete is live, and an item it takes is still in its node |
| `Mpsc.MpscQueue.constructor` | include/eventstream/core/queues/mpsc.hpp:11-16 | One dummy node, both ends on it, counter zero: the machine's initial state |
| `Mpsc.MpscQueue.StepPush` | include/eventstream/core/queues/mpsc.hpp:36-54 | The fields updated in place by one action of push change as the machine's step says, and stay valid |
| `Mpsc.MpscQueue.StepPop` | include/eventstream/core/queues/mpsc.hpp:63-83 | The same for pop; an item is returned exactly by the action that ends a pop, and it is the one taken |
| `Mpsc.MpscQueue.Play` | include/eventstream/core/queues/mpsc.hpp:36-83 | Any schedule played on the mutable queue ends where the machine's run ends, so every theorem about runs holds of it |
| `Ring.MaskIsMod` | include/eventstream/core/queues/spsc.hpp:16-17 | Under the static_assert on the capacity, masking with capacity - 1 is reduction modulo capacity |
| `Ring.NextIsMasked` | include/eventstream/core/queues/spsc.hpp:25 | The masked successor of an index is the next slot going round |
| `Ring.AdvanceHead` | include/eventstream/core/queues/spsc.hpp:30-31 | Writing the free slot and moving head appends exactly that item to the contents |
| `Ring.AdvanceTail` | include/eventstream/core/queues/spsc.hpp:41-43 | The slot at tail holds the oldest item, and moving tail removes exactly it |
| `Ring.RingBuffer.constructor` | include/eventstream/core/queues/spsc.hpp:20 | An empty ring |
| `Ring.RingBuffer.Push` | include/eventstream/core/queues/spsc.hpp:23-33 | Accepts exactly when fewer than capacity - 1 items are held, and then appends; otherwise changes nothing |
| `Ring.RingBuffer.Pop` | include/eventstream/core/queues/spsc.hpp:35-45 | Returns and removes the oldest item, or nothing exactly when empty |
| `Ring.RingBuffer.Size` | include/eventstream/core/queues/spsc.hpp:47-51 | The number of items held, wrapped around or not |
| `RingSteps.PushRefines` | include/eventstream/core/queues/spsc.hpp:23-33 | Stepped load by load with a stale tail, each pusher step is silent or one append to a bounded queue of capacity - 1; a push is refused exactly when the queue is full at its load of `tail_` |
| `RingSteps.PopRefines` | include/eventstream/core/queues/spsc.hpp:35-45 | Likewise with a stale head, each popper step is silent or removes the oldest item; nullopt exactly when the queue is empty at its load of `head_` |
| `RingSteps.RunKeepsInv` | include/eventstream/core/queues/spsc.hpp:23-45 | Both hold in every state of every interleaving of one pusher and one popper |
| `RingSteps.RingIsBoundedFifo` | include/eventstream/core/queues/spsc.hpp:23-45 | In every interleaving the items popped followed by those queued are the items pushed, in order, and never more than capacity - 1 are queued |
| `RingSteps.NoSharedSlot` | include/eventstream/core/queues/spsc.hpp:30-41 | The slot being written is never the one being read nor any other slot in use |
| `RingSteps.PushEnds` | include/eventstream/core/queues/spsc.hpp:23-33 | A push left alone on a ring below capacity - 1 has appended its item after four steps; on a full ring it is refused after two and changes nothing |
| `RingSteps.PopEnds` | include/eventstream/core/queues/spsc.hpp:35-45 | A pop left alone has taken the oldest item after four steps; on an empty ring it ends after two and changes nothing |
| `RingEviction.StoreExactIff` | include/eventstream/core/queues/spsc.hpp:41-43 | With a second thread popping, a store of `tail_` keeps "what left, then what is queued, is what was pushed" if and only if the item read is still the oldest |
| `RingEviction.ExactIffFresh` | src/core/events/event_bus.cpp:55-68 | The dispatch thread evicts while the consumer pops: every event leaves at most once, in order and none lost, throughout a run if and only if every store of `tail_` takes what is then the oldest item |
| `RingEviction.NoOverlapIsExact` | src/core/events/event_bus.cpp:57 | It is enough that the two threads are never inside pop at once |
| `RingEviction.OneEventTwice` | src/core/events/event_bus.cpp:57-65 | A reachable run, for every capacity above one: the oldest event, pushed once, is dead-lettered by the dispatch thread and handed to the consumer too |
| `RingEviction.OldestLeavesTwice` | src/core/events/event_bus.cpp:57-65 | The same from any full ring at rest |
| `RingEviction.EvictingPushEnds` | src/core/events/event_bus.cpp:53-69 | A push to a full ring left alone: nine steps later the oldest event, and no other, has left, and the new one is the newest |
| `DedupSteps.RunKeepsInv` | src/core/queues/dedup.cpp:6-155 | Under any interleaving of inserters and one cleaner, at single loads, stores and exchanges, every state satisfies the invariant on chains, scans, and the log of changes |
| `DedupSteps.ChainsStayExact` | src/core/queues/dedup.cpp:16-155 | In every run every bucket's chain ends, holds exactly the live nodes that hash to the bucket, newest first, and no id twice |
| `DedupSteps.ChainExact` | src/core/queues/dedup.cpp:20-29 | A walk along next pointers from a live node meets exactly the live nodes of its bucket at and below it, even past nodes unlinked meanwhile |
| `DedupSteps.TrueIsLogged` | src/core/queues/dedup.cpp:38-46 | insert returns true exactly when its exchange succeeded, at which moment the id, absent until then, enters the table; no other step of it changes the table |
| `DedupTimes.OneTrueInsertPerWindow` | src/core/queues/dedup.cpp:6-57 | Between two inserts of an id that returned true the cleaner removed it, at a time more than 3600000 ms after the time the first of them was called with |
| `DedupTimes.CallKeepsTime` | src/core/queues/dedup.cpp:6-10 | Id and time of a call stay with it from its first step to its return: they are those the log names |
| `DedupTimes.RemovalsAreDue` | src/core/queues/dedup.cpp:88-150 | Every removal in every run is of an id in the table, names the time its insert was called with, and comes more than 3600000 ms after it |
| `DedupAlone.InsertAlone` | src/core/queues/dedup.cpp:6-57 | From any state the others can be stopped in, insert left alone ends: true exactly when the id was not in the table, which then has it with the time of the call; nothing else changes |
| `DedupAlone.ReaderAlone` | include/eventstream/core/queues/dedup.hpp:39-50 | is_duplicate left alone ends and answers whether the id is in the table |
| `DedupAlone.CleanerAlone` | src/core/queues/dedup.cpp:80-155 | The cleanup of a bucket left alone ends and takes from the table exactly the entries of that bucket more than 3600000 ms old |
| `DedupAlone.HeadIsTriedTenTimes` | src/core/queues/dedup.cpp:88-117 | Phase 1 goes for the head exactly while it is more than 3600000 ms old and fewer than ten exchanges in a row were lost; a lost one changes nothing in the table, a won one removes the head and starts the count again |
| `DedupAnswers.FalseIsHonest` | src/core/queues/dedup.cpp:16-56 | A false answer means "duplicate", and then the id was in the table at the load of the bucket head, or that the call gave up, and then at least 3 changes were made to the id's own bucket between its start and its last exchange |
| `DedupAnswers.GivesUpIff` | src/core/queues/dedup.cpp:38-50 | An exchange fails exactly when the head is not the one loaded, which takes a change of that bucket since the load; the call gives up exactly at its third failure, and it enters nothing |
| `DedupAnswers.GivesUpOnNewId` | src/core/queues/dedup.cpp:49-56 | A reachable run, of two inserts and one removal by others, in which an insert gives up on an id that was never in the table |
| `DedupAnswers.LossesStay` | src/core/queues/dedup.cpp:16-50 | What a thread has lost to changes of its bucket stays so whatever others do |
| `DedupAnswers.ReaderIsHonest` | include/eventstream/core/queues/dedup.hpp:39-50 | is_duplicate while others insert and clean up: true means the id was in the table when the head was loaded, false that it was out of the table at some moment of the call |
| `DedupAnswers.RunKeepsAnswers` | src/core/queues/dedup.cpp:6-155 | Every step of every thread keeps the invariant together with what inserters have lost and what readers have still ahead |
| `DedupSteps.CleanKeepsInv` | src/core/queues/dedup.cpp:80-155 | Each step of the two-phase cleaner keeps the invariant while inserts go on |
| `DedupSteps.InsertKeepsInv` | src/core/queues/dedup.cpp:6-57 | Each step of an insert keeps the invariant while the cleaner and other inserts go on |
| `Dedup.Deduplicator.constructor` | include/eventstream/core/queues/dedup.hpp:28-33 | Empty buckets, empty table |
| `Dedup.Deduplicator.IsDuplicate` | include/eventstream/core/queues/dedup.hpp:39-50 | The walk over linked entries answers true exactly when the id is in the table |
| `Dedup.Deduplicator.Insert` | src/core/queues/dedup.cpp:6-57 | Alone: true exactly when the id was not in the table, which then maps it to the given time; the new entry heads its bucket and nothing else moves |
| `Dedup.Deduplicator.CleanupBucket` | src/core/queues/dedup.cpp:80-155 | Alone: the bucket keeps exactly its entries of clamped age at most the window, in order, for any timestamps; the count returned leaves out those phase 1 took from the front |
| `Dedup.Deduplicator.CleanupHead` | src/core/queues/dedup.cpp:88-117 | Phase 1 takes exactly the leading expired entries |
| `Dedup.Deduplicator.CleanupTail` | src/core/queues/dedup.cpp:119-154 | Phase 2, from a head that stays, takes exactly the other expired entries and counts them |
| `Dedup.Deduplicator.Cleanup` | src/core/queues/dedup.cpp:61-76 | Over all buckets: the table keeps exactly the ids whose time has not expired |
| `Dedup.WhatIsUnexpired` | src/core/queues/dedup.cpp:61-76 | What a cleanup over all buckets leaves of the table: exactly the ids whose time is at most 3600000 ms ago, with their times |
| `Dedup.KeepMembers` | src/core/queues/dedup.cpp:93-136 | What expiry keeps of a chain is exactly its entries at most 3600000 ms old |
| `Dedup.ExpiryMatches` | src/core/queues/dedup.cpp:80-155 | Filtering one chain by age is filtering the table by age on the ids of that bucket |
| `Frames.ParseEncode` | src/core/ingest/frame_parser.cpp:33-73 | Parsing the bytes the repository's client builds for a frame gives back that frame |
| `Frames.EncodeParse` | src/core/ingest/frame_parser.cpp:33-73 | Whatever byte string the parser accepts is the encoding of the frame it returns: no two forms of one frame |
| `Frames.ParsesIff` | src/core/ingest/frame_parser.cpp:33-73 | The parser returns a frame exactly for the bytes that lay it out: four bytes of length of the rest, the priority byte 0 to 4, two bytes of topic length above zero, topic, payload |
| `Frames.RefusedBecause` | src/core/ingest/frame_parser.cpp:33-73 | Which of the six errors a refused message gets, in terms of its bytes: the first check that it fails |
| `Framing.ScanSplit` | src/core/ingest/tcp.cpp:191-262 | Scanning a, then its leftover followed by b, is scanning a + b: same frames, leftover, empty-frame count and tripped guard |
| `Framing.ChunkingIsInvisible` | src/core/ingest/tcp.cpp:180-270 | However a stream is cut, frames, leftover, counter and the closed flag are those of one delivery, guards included |
| `Framing.SameBytesSameFrames` | src/core/ingest/tcp.cpp:180-270 | Two ways of cutting the same stream end in the same state |
| `Framing.ScanEncoded` | src/core/ingest/tcp.cpp:191-231 | Encodings back to back are scanned into exactly those encodings with nothing left |
| `Framing.AcceptedEncoded` | src/core/ingest/frame_parser.cpp:62-73 | The parser accepts each of them and returns the frames |
| `Framing.WireRoundTrip` | tests/send_tcp_event.py:39-49 | Any list of valid frames of at most 10 MB, sent back to back and cut anywhere, arrives as exactly that list with an empty leftover |
| `Framing.EpollAgreesUntilTripped` | src/core/ingest/epoll.cpp:386-475 | On a stream that trips no guard of the TCP server the epoll server cuts the same frames |
| `Framing.EpollChunkingIff` | src/core/ingest/epoll.cpp:405-426 | A cut after `a` changes no frame the epoll server cuts, and none it delivers, for whatever follows, if and only if no guard trips inside `a`: it clears the buffer and goes on, where the comment promises a close |
| `Framing.EpollCutsDiffer` | src/core/ingest/epoll.cpp:421-426 | From the start of a connection, a length above 10 MB and a valid frame behind it deliver nothing in one chunk and the frame in two |
| `FramingGuards.EmptyFramesClose` | src/core/ingest/tcp.cpp:200-215 | A TCP connection outlives ten empty frames and not an eleventh, however they are cut |
| `FramingGuards.FrameResetsCount` | src/core/ingest/tcp.cpp:216 | A frame between them starts the count again: up to ten empty frames before it and up to ten behind it |
| `FramingGuards.LongFramesClose` | src/core/ingest/tcp.cpp:218-222 | A length field closes the connection exactly when its four bytes, the highest first, say more than 10485760 |
| `FramingGuards.MalformedAreDropped` | src/core/ingest/tcp.cpp:228-261 | Whole messages cut anywhere are all cut out as they were sent; one the parser refuses is left out of what is delivered, and only that one |
| `FramingGuards.CountOutlivesTrip` | src/core/ingest/epoll.cpp:403-412 | After eleven empty frames in one chunk an empty frame with a valid one behind it delivers nothing, since the count is kept; the valid frame alone is delivered |
| `FramingGuards.LongTripResetsCount` | src/core/ingest/epoll.cpp:418-426 | A length over the limit trips too, but leaves the count at zero |
| `Framing.Round` | src/core/ingest/tcp.cpp:191-262 | One turn of the framing loop: stops, trips or advances exactly as the scan of the whole buffer demands |
| `Framing.CutFrames` | src/core/ingest/tcp.cpp:190-262 | The offset loop finds exactly the frames of the scan, hands over those the parser accepts, and leaves the scan's rest and counter |
| `Framing.TcpConnection.Receive` | src/core/ingest/tcp.cpp:180-270 | One recv on the mutable connection: frames appended, consumed bytes erased, connection closed, as the stream semantics says |
| `Framing.EpollConnection.Receive` | src/core/ingest/epoll.cpp:386-475 | The same for the epoll connection, where a tripped guard empties the buffer |
| `DeadLetters.LastAppend` | src/core/events/dead_letter_queue.cpp:15-19 | Dropping the oldest when full before appending keeps exactly the last 1000 |
| `DeadLetters.DeadLetterQueue.constructor` | src/core/events/dead_letter_queue.cpp:5-7 | Nothing stored, nothing counted |
| `DeadLetters.DeadLetterQueue.Push` | src/core/events/dead_letter_queue.cpp:9-25 | The history grows by the event; the store stays its last 1000 since the last clear and the total its length |
| `DeadLetters.DeadLetterQueue.PushBatch` | src/core/events/dead_letter_queue.cpp:27-48 | The same for a whole batch, in order, counted once each |
| `DeadLetters.DeadLetterQueue.GetRecentEvents` | src/core/events/dead_letter_queue.cpp:50-64 | The newest first: as many as asked, stored or dropped since the last clear, whichever is least |
| `DeadLetters.DeadLetterQueue.Clear` | src/core/events/dead_letter_queue.cpp:66-71 | Forgets the stored events but not their number |
| `BusSteps.RouteMeaning` | src/core/events/dispatcher.cpp:41-82 | Where an event goes in terms of what client and topic table asked for: REALTIME iff either asks CRITICAL, or HIGH under normal pressure; BATCH iff both ask BATCH (an unlisted topic asks MEDIUM); nothing but the priority changes, it falls only from HIGH to MEDIUM, and is the client's, the table's, or MEDIUM for a HIGH |
| `BusSteps.RunKeepsInv` | src/core/events/dispatcher.cpp:84-127 | Dispatcher, consumers and batch drops interleaved at whole bus calls: every state satisfies conservation, order, fates and the pressure bound |
| `BusSteps.ConservationAndOrder` | src/core/events/event_bus.cpp:33-221 | Every event taken is settled or in hand; each settled one is in exactly one queue, popped once or dead-lettered once; what left each queue followed by what it holds is what it admitted, in order, within its capacity |
| `BusSteps.RealtimeNeverRefused` | src/core/events/event_bus.cpp:38-69 | No event bound for the ring is ever refused, and any other is given up after exactly three failures |
| `BusSteps.FailureMeansFull` | src/core/events/dispatcher.cpp:107-126 | A failed try is counted, or an event given up, only at a moment when its queue is full, and then it is the dead letters' newest |
| `BusSteps.EvictionsAreForCritical` | src/core/events/event_bus.cpp:53-69 | With the dispatcher as only realtime producer, a push that evicts an old event is always that of a CRITICAL one |
| `BusSteps.CalmRingStaysLow` | src/core/events/dispatcher.cpp:132-149 | Without CRITICAL events the ring never holds more than 12001 |
| `BusSteps.PressureLatches` | src/core/events/event_bus.cpp:40-48 | Pressure once raised stays as it is through any run without CRITICAL events, however far the ring is drained, and no event enters the ring meanwhile |
| `BusSteps.EmptyRingCanBeLatched` | src/core/events/event_bus.cpp:40-48 | That is reachable: 12001 HIGH events and as many pops leave an empty ring which no later HIGH event enters |
| `BusSteps.CriticalUnlatches` | src/core/events/event_bus.cpp:40-48 | The next CRITICAL event makes the pressure that of the ring its push found |
| `BusSteps.AloneOutcome` | src/core/events/dispatcher.cpp:102-126 | With no other thread moving, an event is given up exactly when its queue is full and is not the ring; on a full ring the oldest is dead-lettered in its place |
| `BusSteps.DrainEmpties` | src/core/events/event_bus.cpp:119-148 | As many pops as a queue holds events, from any of the three queues, hand the consumers exactly those events in order, leave it empty and touch nothing else |
| `BusPromises.RealtimePush` | src/core/events/event_bus.cpp:38-69 | A push to the ring sets the pressure from the number of events it found (14000, 12000) and appends; at 16383 events the oldest first goes to the dead letters |
| `BusPromises.TransactionalPush` | src/core/events/event_bus.cpp:77-86 | Appended below 131072 events; at that number the timed wait begins and nothing has changed |
| `BusPromises.WaitEnds` | src/core/events/event_bus.cpp:86-105 | At the end of the wait: appended if there is room by then, else one more failed try, and the third gives the event to the dead letters |
| `BusPromises.BatchPush` | src/core/events/event_bus.cpp:106-111 | Appended below 32768 events, else a failed try, and the third gives the event to the dead letters |
| `BusPromises.DispatchPlaces` | src/core/events/dispatcher.cpp:41-126 | A dispatched event goes, changed in priority at most, to the end of the one queue that client, topic table and pressure name |
| `BusPromises.DropTakesSixtyFour` | src/core/events/event_bus.cpp:159-221 | A batch drop moves the 64 oldest events of its queue, or all of fewer, to the dead letters in order, and changes nothing else |
| `Buses.EventBus.constructor` | src/core/events/event_bus.cpp:8-13 | Empty queues of the configured capacities, normal pressure |
| `Buses.EventBus.PushRealtime` | src/core/events/event_bus.cpp:38-76 | Pressure from the size before, push, and on a full ring the oldest to the dead letters: never refused, state as the machine says |
| `Buses.EventBus.Push` | src/core/events/event_bus.cpp:33-111 | All three overflow policies as the machine has them; a full transactional queue begins the timed wait |
| `Buses.EventBus.EndWait` | src/core/events/event_bus.cpp:86-105 | The end of the wait: accepted exactly if there is room now |
| `Buses.EventBus.Pop` | src/core/events/event_bus.cpp:119-148 | The first look: the oldest event, which leaves its queue, or none exactly when the queue is empty; the other queues stay; an empty deque begins the timed wait, an empty ring does not |
| `Buses.EventBus.EndPop` | src/core/events/event_bus.cpp:147-156 | The end of that wait: the oldest event, which leaves its queue, if there is one now, none exactly when it is still empty |
| `Buses.EventBus.DropBatchFromQueue` | src/core/events/event_bus.cpp:159-221 | Up to 64 of the oldest events go to the dead letters, in order, from ring or deque; returns how many |
| `Buses.EventBus.Size` | src/core/events/event_bus.cpp:15-31 | Asked for the ring it answers for the transactional queue |
| `Buses.Dispatcher.Route` | src/core/events/dispatcher.cpp:41-82 | Priority raised from the table, lowered under pressure, and the queue chosen, as the routing functions say |
| `Buses.Dispatcher.Dispatch` | src/core/events/dispatcher.cpp:100-126 | The retry loop ends in the bus state the machine reaches when the dispatcher moves alone |
| `TransactionSteps.StoresAreApart` | src/core/processor/transactional.cpp:39-92 | Between two stores of one id some call strictly between swept the table at a time more than the window after the first store, whatever the clock does |
| `TransactionSteps.StoredIff` | src/core/processor/transactional.cpp:32-105 | A call stores its event exactly when the processor is not paused, no earlier store of the id is still in force, both checks pass and one of the allowed attempts succeeds |
| `TransactionSteps.OutcomeDecides` | src/core/processor/transactional.cpp:32-105 | A call of a running processor with an id not in force and both checks passed is stored if and only if one of the allowed attempts answers SUCCESS or ALERT, and dead-lettered if and only if all of them answer FAIL or DROP |
| `TransactionSteps.OthersAreNotStored` | src/core/processor/transactional.cpp:32-72 | Any other call stores nothing and is dead-lettered unless it is a duplicate |
| `TransactionSteps.SweptIff` | src/core/processor/transactional.cpp:46-51 | A call past the duplicate check cleans up exactly when none was made before or the time since, modulo 2^64, is over 10000 |
| `TransactionSteps.PauseAndResume` | src/core/processor/transactional.cpp:32-40 | A paused processor dead-letters what it is given and enters nothing; resumed it is as before |
| `TransactionSteps.ThreeAttempts` | include/eventstream/core/processor/processor.hpp:73-85 | A new processor makes three attempts: a success at the fourth is too late, an alert at the third is not |
| `TransactionSteps.RunKeepsInv` | src/core/processor/transactional.cpp:23-107 | In every run the table holds exactly the stores no cleanup has ended, each with its time |
| `TransactionSteps.EveryCallSorted` | src/core/processor/transactional.cpp:32-106 | Storage and dead letters hold exactly the events of the calls with the fates that go there, in order |
| `TransactionSteps.DuplicatesKeepOut` | src/core/processor/transactional.cpp:42-51 | Duplicates never trigger a cleanup: while only known ids arrive all are turned away, however far past the window the clock is |
| `TransactionSteps.TableStaysYoung` | src/core/processor/transactional.cpp:46-51 | Whatever the clock did before, a call that gets past the duplicate check leaves no id older than the window and one cleanup interval, because the unsigned difference of a clock that stepped back is huge |
| `TransactionSteps.ExpiredIdRefused` | src/core/processor/transactional.cpp:42-51 | From the start: an event is stored at any time, and the next one with its id is refused at any later time, the window long past |
| `Transactions.TransactionalProcessor.constructor` | src/core/processor/transactional.cpp:5-7 | The initial state, over a fresh duplicate table |
| `Transactions.TransactionalProcessor.SetPaused` | include/eventstream/core/processor/processor.hpp:71-72 | Only the pause flag changes |
| `Transactions.TransactionalProcessor.SetMaxRetries` | include/eventstream/core/processor/processor.hpp:73 | Only the retry limit changes |
| `Transactions.TransactionalProcessor.Process` | src/core/processor/transactional.cpp:23-107 | One call on the mutable processor, its linked duplicate table included, does what the value semantics says |
| `Transactions.TransactionalProcessor.SweepWhenDue` | src/core/processor/transactional.cpp:46-51 | Cleans up exactly when no cleanup was ever made or the unsigned time since is over 10 s |
| `Transactions.TransactionalProcessor.HandleWithRetry` | src/core/processor/transactional.cpp:74-87 | True exactly when one of the first max_retries attempts answers SUCCESS or ALERT |
| `BatchSteps.BatchConservation` | src/core/processor/batch.cpp:41-127 | After any run each topic's events were delivered or are still held, in the order admitted, none lost or repeated; storage has exactly what the handler passed and the dead letters all else that left |
| `BatchSteps.AnswersDecide` | src/core/processor/batch.cpp:112-123 | Of the events delivered, storage holds in order those the handler answered with SUCCESS or ALERT, and the dead letters those it answered with FAIL or DROP beside the events dropped or refused at the door |
| `BatchSteps.StopDeliversAll` | src/core/processor/batch.cpp:23-31 | After stop, in whatever order it meets the buckets, every topic's deliveries are all it admitted, in order |
| `BatchSteps.StopTwice` | src/core/processor/batch.cpp:23-31 | A second stop, in any order, changes and emits nothing |
| `BatchSteps.StopEmpties` | src/core/processor/batch.cpp:23-28 | stop empties exactly the buckets it meets and keeps the invariant |
| `BatchSteps.FlushIff` | src/core/processor/batch.cpp:79-100 | An admitted event empties its bucket exactly when a window was open (a flush time of zero counts as none) and is over, and the next window then opens; other topics are untouched |
| `BatchSteps.EmitAllDelivers` | src/core/processor/batch.cpp:112-123 | A flush delivers exactly the bucket's events, in order, and touches nothing else |
| `BatchSteps.EverySubmissionAccounted` | src/core/processor/batch.cpp:41-127 | Each event submitted went one way, in order: into its bucket exactly when it passed both checks while nothing was being dropped, else out for that reason; and after every call storage has been flushed behind the last event it was handed |
| `BatchSteps.DropAndResume` | src/core/processor/batch.cpp:50-59 | Told to drop, the processor sends the next event to the dead letters whatever its checks say and touches nothing else; told to stop it admits the next valid one |
| `BatchSteps.StartsAdmitting` | src/core/processor/batch.cpp:8-12 | A new processor is not dropping: it admits its first valid event |
| `BatchSteps.RunKeepsInv` | src/core/processor/batch.cpp:23-127 | Every step keeps topics apart, order, and the sorting of emissions |
| `Batches.BatchProcessor.constructor` | src/core/processor/batch.cpp:8-12 | No buckets |
| `Batches.BatchProcessor.SetDropping` | include/eventstream/core/processor/processor.hpp:102-103 | Only the drop flag changes |
| `Batches.BatchProcessor.Process` | src/core/processor/batch.cpp:41-102 | One call on the mutable buckets does what the value semantics says, and asks the bus to drop a batch exactly while dropping |
| `Batches.BatchProcessor.Flush` | src/core/processor/batch.cpp:33-39 | Flushes the bucket of that topic, if there is one |
| `Batches.BatchProcessor.FlushBucketLocked` | src/core/processor/batch.cpp:104-127 | The loop over the bucket emits each event once, then storage is flushed and the bucket cleared |
| `Batches.BatchProcessor.StopAll` | src/core/processor/batch.cpp:23-31 | Meets every bucket, in some order, flushes each, and then flushes storage |
| `Crc32.BuildEntry` | src/core/events/event_factory.cpp:13-20 | The inner loop makes eight division steps of its argument |
| `Crc32.BuildTable` | src/core/events/event_factory.cpp:12-21 | Entry i is eight division steps of i, for all 256 |
| `Crc32.CalculateCRC32` | src/core/events/event_factory.cpp:24-28 | The table-driven loop gives, for every byte string, the bit-at-a-time reflected CRC of section 8 of RFC 1952, a 32-bit number |
| `Crc32.KnownValues` | src/core/events/event_factory.cpp:8-28 | The checksum of nothing is 0 and that of one zero byte 0xD202EF8D |
| `Crc32.Residue` | src/core/events/event_factory.cpp:24-28 | The checksum of any byte string with its own checksum behind it, lowest byte first, is 0x2144DF1C |
| `Crc32.TableByteIsSerial` | src/core/events/event_factory.cpp:24-28 | One table step is the eight message bits entered one by one |
| `Crc32.TableStep` | src/core/events/event_factory.cpp:26 | k steps of a register are its high part xored with k steps of its low k bits: why a table works |
| `Crc32.BitsLinear` | src/core/events/event_factory.cpp:14-19 | Division steps are linear in the register |
| `Crc32.SerialBits` | src/core/events/event_factory.cpp:26 | Entering k bits one by one is k steps of the register with all of them xored in |
| `Crc32.SameBitsKeepApart` | src/core/events/event_factory.cpp:25-27 | For any polynomial of degree w a step is a bijection: registers are equal after the same bits exactly when they were before |
| `Crc32.LateBitsCancel` | src/core/events/event_factory.cpp:25-27 | Fewer than w bits can only bring two registers together that differed in as many low bits |
| `Crc32.BurstsDiffer` | src/core/events/event_factory.cpp:25-27 | Two different runs of at most w bits never leave the same register |
| `Crc32.BitBurstDetected` | src/core/events/event_factory.cpp:24-28 | Messages that differ only within 32 consecutive bits leave different registers |
| `Crc32.ByteBurstDetected` | src/core/events/event_factory.cpp:24-28 | Two byte strings equal but for four consecutive bytes have the same checksum exactly when those bytes agree too |
| `Crc32.ReferenceIsWord` | src/core/events/event_factory.cpp:28 | The checksum fits 32 bits |
| `Histogram.BucketHolds` | include/eventstream/core/metrics/histogram.hpp:170-197 | The bucket of a latency is exactly the one whose bounds contain it |
| `Histogram.MiddleIsClose` | include/eventstream/core/metrics/histogram.hpp:76-81 | A bucket's answer lies in the bucket, fits 64 bits, and is within -25% and +50% of every latency of two or more in it |
| `Histogram.AscendingNth` | include/eventstream/core/metrics/histogram.hpp:86-91 | In an ascending sequence the value at a place is the order statistic of that place |
| `Histogram.SamplesAreRounded` | include/eventstream/core/metrics/histogram.hpp:71-82 | The samples rebuilt from the counters are, but for order, the recorded latencies each taken for its bucket's middle |
| `Histogram.NthOfSamples` | include/eventstream/core/metrics/histogram.hpp:71-91 | Sorted, the samples have at each place the middle of the bucket of the latency at that place |
| `Histogram.PercentileIsClose` | include/eventstream/core/metrics/histogram.hpp:67-92 | A percentile lies in the power-of-two bucket of the latency truly at its place, hence between three quarters and three halves of it |
| `Histogram.PlaceIs` | include/eventstream/core/metrics/histogram.hpp:86-91 | The place from the percentile alone: the product with the count rounded down below 100, the last from 100 on, the first below 0 |
| `Histogram.PercentileIsShare` | include/eventstream/core/metrics/histogram.hpp:67-92 | The answer shares the bucket of a latency v such that at most p percent of the latencies are below v and more than p percent are at or below it |
| `Histogram.PercentileRises` | include/eventstream/core/metrics/histogram.hpp:67-92 | A higher percentile is never smaller |
| `Histogram.NthExists` | include/eventstream/core/metrics/histogram.hpp:86-91 | Every place has its order statistic |
| `Histogram.LatencyHistogram.constructor` | include/eventstream/core/metrics/histogram.hpp:35-37 | Empty counters |
| `Histogram.LatencyHistogram.Record` | include/eventstream/core/metrics/histogram.hpp:42-46 | The counters stay those of the latencies recorded, whatever their order |
| `Histogram.LatencyHistogram.CalculatePercentile` | include/eventstream/core/metrics/histogram.hpp:67-92 | The order statistic of the samples at the percentile's place, zero if nothing was recorded, for every percentile whose product the language can convert; it shares the bucket of a recorded latency with at most the percentile's share of the others below it and more than that at or below it |
| `Histogram.LatencyHistogram.CollectSamples` | include/eventstream/core/metrics/histogram.hpp:71-82 | The two loops rebuild the samples in ascending order |
| `Histogram.LatencyHistogram.Reset` | include/eventstream/core/metrics/histogram.hpp:146-151 | As if nothing had been recorded |
| `Pool.SlotsAreNeverShared` | include/eventstream/core/memory/event_pool.hpp:69-163 | Whatever disciplined clients ask for and in what order: free slots and slots handed out partition the pool, the next slot handed out is held by nobody, releasing a held slot never deletes it |
| `Pool.PutKeepsIff` | include/eventstream/core/memory/event_pool.hpp:123-163 | Giving an index back keeps the partition exactly when that slot was handed out |
| `Pool.HeldMeansRoom` | include/eventstream/core/memory/event_pool.hpp:128-132 | While a slot is handed out the pool is not full: the delete branch only ever sees a heap fallback |
| `Pool.Counted` | include/eventstream/core/memory/event_pool.hpp:165-171 | Free slots and slots handed out always number the capacity |
| `Pool.DoubleRelease` | include/eventstream/core/memory/event_pool.hpp:123-163 | A free slot given back is handed out twice by the acquires that follow, or, in a full pool, deleted under the pool |
| `Pool.HandedIs` | include/eventstream/core/memory/event_pool.hpp:100-111 | Acquires in a row hand out the free list from its end, then heap fallbacks |
| `Pool.ReleasedComesNext` | include/eventstream/core/memory/event_pool.hpp:100-163 | A held slot that is released is the next one handed out, which restores everything; a null release does nothing |
| `Pool.FallbacksAreDeleted` | include/eventstream/core/memory/event_pool.hpp:102-140 | With no slot free an acquire makes a fallback, and its release deletes it and leaves the pool alone, whatever the pool holds by then |
| `PoolLookup.StaleAddressMisleads` | include/eventstream/core/memory/event_pool.hpp:144-162 | For events looked up by address: releasing a heap fallback leaves every slot free once or handed out once if and only if the table, which reset never empties, does not have its address or the pool is full; the holder of the slot found keeps it all the same |
| `PoolLookup.SharedIffMisled` | include/eventstream/core/memory/event_pool.hpp:69-206 | Through any run of disciplined clients, resets and reused addresses included, no slot is shared or deleted if and only if no fallback at an address of an earlier event is released to a pool with room |
| `PoolLookup.NoResetNoSharing` | include/eventstream/core/memory/event_pool.hpp:69-163 | Without reset it cannot happen, whatever addresses the allocator picks |
| `PoolLookup.SlotSharedAfterReset` | include/eventstream/core/memory/event_pool.hpp:193-206 | A reachable run, for every capacity above zero: after reset and exhaustion a fallback at the former address of slot 0 is released, slot 0 is free and handed out, and the next acquire hands it out again |
| `PoolLookup.StepKeeps` | include/eventstream/core/memory/event_pool.hpp:69-206 | Every other operation keeps the partition and a table that finds the event of each slot |
| `Pool.EventPool.FillSlots` | include/eventstream/core/memory/event_pool.hpp:73-84 | The loop of constructor and reset: a new event per slot, found under its index, and all free |
| `Pool.EventPool.constructor` | include/eventstream/core/memory/event_pool.hpp:69-85 | Every slot filled with an event that knows its index, all free |
| `Pool.EventPool.Acquire` | include/eventstream/core/memory/event_pool.hpp:100-111 | The event of the last free slot, or a new one outside the pool exactly when none is free |
| `Pool.EventPool.Release` | include/eventstream/core/memory/event_pool.hpp:123-163 | All branches, for events that carry their index and for those looked up: null, pool full, heap fallback, index out of bounds, slot freed; says whether the object was deleted |
| `Pool.EventPool.Reset` | include/eventstream/core/memory/event_pool.hpp:193-206 | New events in every slot, all free |
| `RecordLog.DecodeEncode` | src/core/storage/storage.cpp:54-85 | A record is read back, whatever follows it |
| `RecordLog.EncodeLayout` | src/core/storage/storage.cpp:54-85 | Where each byte of a record lies and what it says: time at 0, source at 8, id at 9, topic length modulo 2^32 at 13, topic at 17 unless that is zero, then body length and body; numbers lowest byte first |
| `RecordLog.DecodeEncodeIff` | src/core/storage/storage.cpp:73-79 | A record alone is read back exactly when its topic is shorter than 2^32, where the length field is cut |
| `RecordLog.DecodeCut` | src/core/storage/storage.cpp:54-88 | A record cut short anywhere is not read at all |
| `RecordLog.RecoverCut` | src/core/storage/storage.cpp:54-88 | From a log cut anywhere a decoder gets exactly the records that lie whole before the cut |
| `RecordLog.LogRoundTrip` | src/core/storage/storage.cpp:50-101 | The decoder gets back exactly the (timestamp, source, id, topic, body) sequence stored |
| `RecordLog.LogInjective` | src/core/storage/storage.cpp:50-101 | Two sequences of events with the same log have the same records |
| `RecordLog.SurvivorsDecode` | src/core/storage/storage.cpp:54-100 | From any prefix of the file that holds all that was flushed, a record torn by a failed write included, the decoder gets a prefix of the records, short of none that was flushed |
| `RecordLog.RecoverMore` | src/core/storage/storage.cpp:88 | Appending to a file leaves its whole records as they were; only what is torn at its end joins what is appended |
| `RecordLog.AppendIff` | src/core/storage/storage.cpp:22 | A file is opened for append without a look at it: the next record can always be read back if and only if the file does not end inside a record |
| `RecordLog.StorageEngine.CrashLosesLittle` | src/core/storage/storage.cpp:95-100 | Whatever survives of the file of an engine in any valid state, the decoder gets all the file had to give when it was opened; if that file did not end inside a record, it then gets a prefix of the engine's records and misses at most the last 99, or 100 once the stream has failed |
| `RecordLog.StorageEngine.constructor` | src/core/storage/storage.cpp:22 | Appends behind whatever the file held; nothing stored yet |
| `RecordLog.StorageEngine.Open` | src/core/storage/storage.cpp:22-26 | No engine exactly when the file cannot be opened |
| `RecordLog.StorageEngine.StoreEvent` | src/core/storage/storage.cpp:50-101 | The record is appended exactly when the stream is good and takes all of it; the hundredth since the counter was last reset is flushed; after a failure nothing is stored any more |
| `RecordLog.StorageEngine.Serialize` | src/core/storage/storage.cpp:54-85 | The buffer built field by field is the encoding |
| `RecordLog.StorageEngine.Flush` | src/core/storage/storage.cpp:43-48 | All records stored so far are flushed, unless the stream has failed or fails now; the counter is not reset |
| `Pipeline.BusKeepsWireOrder` | src/core/ingest/tcp.cpp:180-262 | From the bytes of any number of connections, however cut, through the inbound queue and the dispatcher, all threads interleaved: what left each bus queue followed by what it holds are events of frames of those bytes, those of one connection in the order of its frames, no frame twice |
| `Pipeline.EveryFrameAccounted` | src/core/ingest/tcp.cpp:249-257 | Of each connection the frames offered are those pushed, those refused and the one on its way, no frame two of these; the dispatcher has seen a prefix of what was pushed, and every event it saw is settled or in hand |
| `PipelineProgress.FrameReachesDispatcher` | src/core/ingest/tcp.cpp:234-249 | While the others rest, five steps of a connection's thread and six of the dispatcher bring its next frame to the dispatcher as an event with the next id cut to 32 bits, source TCP, the time of its push and the frame's own priority, topic and payload |
| `PipelineProgress.FrameIsPlaced` | src/core/events/dispatcher.cpp:84-127 | One more step of the dispatcher and the bus, if it has room, is as after taking and placing exactly that event |
| `PipelineProgress.FirstFrameArrives` | src/core/ingest/tcp.cpp:180-262 | From the start: the bytes of any sendable frame received by any connection of a new server end as one event placed on the bus |
| `Pipeline.RunKeepsInv` | src/core/events/dispatcher.cpp:84-127 | Every step of every thread keeps the invariants of queue and bus and the tags of all items |

## Left out

- Weak memory: all atomics are sequentially consistent here.
- Reclamation of duplicate-table entries while readers walk: entries are never reused in
  `DedupSteps`, since the source itself calls its reclamation not fully safe there.
- Two poppers inside the bus: `RingEviction` steps them load by load on the ring alone, and
  `RingSteps` has one popper. In the bus as a whole, whole calls are the steps.
- Sockets, worker threads, epoll registration and connection maps; one connection's bytes are a
  sequence of chunks. The TCP loop's empty-frame counter is thread-local in the source and belongs
  to the connection here: each connection has a thread of its own.
- UDP ingest: one datagram is one frame, so there is nothing to reassemble.
- Clocks, sleeps, the timed wait and the allocator: times and fresh addresses are inputs, and a wait
  ends when the schedule says so.
- Topic table loading, handlers, alerts, metrics, logging, NUMA binding and event metadata: the
  table is any map, and a handler any function of the event, or of call and attempt where it is
  retried.
- Null event pointers in the dispatcher, and processors without storage or dead letters.
- Failing storage inside the processors: `storeEvent` does not throw there, only in `RecordLog`. In the
  source a throw inside a batch flush leaves the bucket uncleared.
- `Batches.BatchProcessor.Process`: tells that the bus is asked to drop a batch, and leaves the drop
  itself to the Drop step of `BusSteps`.
- `Transactions.TransactionalProcessor.Process`: one thread calls it, as the process manager arranges, so
  the exchange on the last cleanup time always succeeds.
- `Histogram.LatencyHistogram.CalculatePercentile`: the percentile is a real number whose product with the count the
  language can convert to size_t, the library's nth_element is the value at that place of an ascending
  vector, and counters do not wrap at 2^64.
- `getMinValue` and `getMaxValue` of the histogram: easy beside the percentile.
- `Pool.EventPool.Release`: addresses of deleted events are not reused in the class itself; they are in
  `PoolLookup`.
- Epoll connections in `Pipeline`, whose connections are those of the TCP server; and the fetch of an
  event's id, which there is one step with the first of its push.
- `Pool.EventPool.Reset`: disciplined clients reset only while they hold no pooled event, as the source asks.
- `RecordLog.StorageEngine.StoreEvent`: the file is the sequence of bytes the stream took; how many of
  them the system still had in its own buffers is left to the crash lemmas, and the dead-letter text
  file is not modelled.
- `DeadLetters.DeadLetterQueue.Push`: the total does not wrap at 2^64.
- C bridge, Go and Python clients, adapters, `IngestEventPool`, `ProcessedEventStream`, `ThreadPool`,
  and the control plane: thin wrappers or easy members.
