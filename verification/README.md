# Verified model of the server library's data structures and protocols

The library is a Windows server framework. This project models the parts of it
that are data structures and small protocols, and proves what they promise:

- **RawMemory, MemoryPool**: byte-addressed memory with little-endian pointers,
  and the block pool whose free list runs through the free blocks' own bytes.
- **CircularLinkedList, FutureSweep, ThreadPool**: the sentinel-based ring with
  its backwards-stepping `erase`, the erase-while-iterating sweep, and the
  interleavings of job submission, workers and future processing.
- **TimingWheel**: the seven-slot wheel against a plain list of deadlines.
- **PacketHeader, Datagram, ReliableProtocol, ReliableSender**: header bits,
  datagram bytes, the stop-and-wait protocol over an unreliable network, and the
  sender's retry loop.
- **CircularQueue**: the bounded ring as a bounded first-in first-out list.
- **ConnectionPool**: the MSSQL and MySQL connection pools.
- **SqlQuery**: the query text builder and what a text determines.
- **WatchDog, DumpTransmit**: the parallel process lists and the dump chunker.
- **Sequences, Buffers**: shared facts and the memory routines.

Most components come in two layers. Specification functions follow the code step
by step on plain values, and lemmas about all inputs or all runs are proved of
them. Classes with the source's own fields and loops are proved to take exactly
those steps.

## How the outside world appears

- `new uint8_t[]` answers a region that was not in use, with arbitrary bytes in
  it; it never fails. Pointer width is a parameter of at least one byte, and a
  block is at least one pointer wide.
- The clock is a sequence of ticks; a tick and an `AddNewTimer` are each atomic.
- Whether a future is ready is an arbitrary answer that may change from one
  question to the next; each future and its job carry the number of the call
  that made them.
- The network is the set of all messages ever sent; a message may be delivered
  never, once or often, in any order. The timed waits of the sender end as an
  arbitrary sequence of timeouts and notifications says.
- Opening a connection, selecting a schema, starting a process and waiting for
  one end as parameters say. A new connection object differs from the existing
  ones.
- A critical section is one step. Stopping a pool or a thread only cuts a run
  short, so runs are not given a stop step; the classes have the flag.

## Results that differ from what one might expect

- `pop_front` on a one-element list leaves the tail on the deleted node: the list
  stays well formed if and only if it does not have exactly one element
  (`PopFront`). The next push works if and only if its `new` hands the deleted node
  back; with any other node the list answers that it is empty (`PushAfterStalePop`).
  The node pool hands out the block returned last (`ReturnedBlockComesBack`), so the
  push works when no other call to the same pool comes in between.
- A sweep whose first element is ready stops right after it. One sweep handles
  everything ready if and only if the first element is unready or the only ready
  one (`OneSweepIsCompleteIff`). With steady answers the ready futures are all handled
  from exactly as many rounds on as there are ready ones at the front, plus one if
  another is ready (`ReadyAreHandledIff`).
- A timer's delay is exact if and only if index plus delay is below 14 slots; a
  longer one fires early (`DelayIsExactIff`). If the `size_t` sum wraps, the timer
  never fires (`DeadlineIsPastIff`, `OverdueNeverFires`); no other timer is affected
  (`PendingStaysInWindow`, `PastDeadlinesHaveFired`).
- A sender accepts the acknowledgement of its own packet if and only if the number
  is below 32768 (`OwnAckAcceptedIff`).
- A packet number survives packing if and only if the tag is not negative or the number
  is 65535 (`UnpackPack`); the tags in use are 0, 1 and 9999.
- Because the notification precedes the store of the completed number, a packet
  numbered zero can be confirmed without having been received
  (`ZeroCanBeConfirmedUnreceived`); every other number cannot
  (`ConfirmedAfterReceipt`), and none can when both are one step
  (`AtomicConfirmedAfterReceipt`).
- In every run from a MySQL constructor all leases stand at their list positions if
  and only if the driver refused none of the constructor's connects
  (`LeasesStayFiledIff`). With connects missing, one connection can get into two hands
  if and only if more connections can be opened on demand than are missing
  (`TwoHandsIff`). Every failed schema selection loses a slot for good
  (`LostForGood`, `ExhaustedByFailures`), and a pool answers null whatever the driver
  says if and only if the list is at its maximum and each slot is leased or lost
  (`MysqlNullMeansAllOutOrLost`).
- A condition's operator is printed without a space in front of the next column, so a
  text tells the operator and the column only joined. Over a set of identifier labels,
  SELECT and DELETE texts determine their inputs (the last operator excepted, which is
  never printed) if and only if no label reads as an operator followed by a label of
  the set (`SelectIsDecodableIff`, `DeleteIsDecodableIff`), as "b" and "ANDb" do
  (`UppercaseLabelsCollide`).
- The programs that the watchdog monitors stay the same over a run if and only if every
  exited program had its restart flag set and its process started
  (`RestartsPreservePrograms`).
- Nothing gets stuck: every future can still be handled (`EveryFutureCanBeHandled`), and
  the next datum can still be confirmed if and only if its number is below 32768
  (`HeadCanBeConfirmedIff`).
- The dump sender never sends the status Start, and a file whose length is a
  multiple of 1024 ends in an all-zero packet (`OnlyLastIsEnd`, `ChunkCount`).

## Model

| member | source | states |
|---|---|---|
| `RawMemory.ReadOwnWrite` | Functions/MemoryPool/MemoryPool.h:25-33 | a pointer stored through `uint8_t**` reads back from its bytes |
| `RawMemory.ReadUnchanged` | Functions/MemoryPool/MemoryPool.h:52 | a pointer read depends only on its own bytes |
| `RawMemory.DecodeEncode` | Functions/MemoryPool/MemoryPool.h:30 | the byte form of an address that fits is exact |
| `RawMemory.EncodeIsLittleEndian` | Functions/MemoryPool/MemoryPool.h:30 | byte i of a stored pointer is its i-th byte from the low end |
| `MemoryPools.SlabBlocksAt` | Functions/MemoryPool/MemoryPool.h:24-31 | block i of a slab starts at base + i * block size and ends inside the slab |
| `MemoryPools.SlabBlocksApart` | Functions/MemoryPool/MemoryPool.h:24-31 | the blocks of a slab do not overlap |
| `MemoryPools.LinkFrame` | Functions/MemoryPool/MemoryPool.h:28-33 | the linking loop writes only inside the slab |
| `MemoryPools.LinkChains` | Functions/MemoryPool/MemoryPool.h:28-33 | after the loop the embedded links visit every block in address order and end in null |
| `MemoryPools.AllocateBlockAddsSlab` | Functions/MemoryPool/MemoryPool.h:22-38 | a new slab is chained, overlaps no older block and leaves all used bytes alone |
| `MemoryPools.AllocateKeepsInv` | Functions/MemoryPool/MemoryPool.h:47-55 | Allocate hands out a non-null block nobody holds and keeps chain, partition and slab count |
| `MemoryPools.DelocateKeepsInv` | Functions/MemoryPool/MemoryPool.h:57-60 | returning a held block keeps chain, partition and slab count |
| `MemoryPools.ReturnedBlockComesBack` | Functions/MemoryPool/MemoryPool.h:47-60 | Allocate right after Delocate hands the same block out and restores head and bookkeeping |
| `MemoryPools.PokeKeepsInv` | Functions/MemoryPool/MemoryPool.h:57-60 | a client's write into a block it holds damages no link |
| `MemoryPools.PartitionMeans` | Functions/MemoryPool/MemoryPool.h:22-60 | free and live blocks are disjoint, cover all blocks, do not overlap and are counted |
| `MemoryPools.BlocksStand` | Functions/MemoryPool/MemoryPool.h:22-38 | the blocks of all slabs are exactly the addresses a whole number of blocks, fewer than count, from a slab base |
| `MemoryPools.EveryRunIsSound` | Functions/MemoryPool/MemoryPool.h:22-60 | in every run: finite duplicate-free chain to null, partition, blocks exactly at base + i * size of the slabs and never overlapping, free + live = slabs * count, slabs = peak demand / count rounded up |
| `MemoryPools.PeakIsGreatestDemand` | Functions/MemoryPool/MemoryPool.h:47-60 | the peak in the slab count is the most blocks out at any moment of the run |
| `MemoryPools.HeldBlockSurvives` | Functions/MemoryPool/MemoryPool.h:47-60 | one step changes a held block only by a write into that block |
| `MemoryPools.HeldBlockIsPrivate` | Functions/MemoryPool/MemoryPool.h:47-60 | over any run, each byte of a held block is the last one its holder wrote |
| `MemoryPools.CMemoryPool.AllocateBlock` | Functions/MemoryPool/MemoryPool.h:22-38 | the pointer loop performs the linking of the specification |
| `MemoryPools.CMemoryPool.Allocate` | Functions/MemoryPool/MemoryPool.h:47-55 | keeps the invariant, hands out a block not live before, changes no used byte |
| `MemoryPools.CMemoryPool.Delocate` | Functions/MemoryPool/MemoryPool.h:57-60 | keeps the invariant, puts the block at the head, changes only its link bytes |
| `MemoryPools.CMemoryPool.Poke` | Functions/MemoryPool/MemoryPool.h:47-60 | a client's write keeps the pool valid and changes that byte alone |
| `MemoryPools.CMemoryManager.New` | Functions/MemoryPool/MemoryPool.h:73-90 | creates the pool on first use and hands out a block nobody holds |
| `MemoryPools.CMemoryManager.Delete` | Functions/MemoryPool/MemoryPool.h:92-99 | null is ignored, any other held block is returned and only its link bytes change |
| `CircularLinkedLists.CircularLinkedList.constructor` | Functions/CircularLinkedList/CircularLinkedList.hpp:48 | a fresh list: sentinel unlinked, no elements |
| `CircularLinkedLists.CircularLinkedList.PushBack` | Functions/CircularLinkedList/CircularLinkedList.hpp:54-70 | appends, from fresh, drained and populated lists, and leaves every link right |
| `CircularLinkedLists.CircularLinkedList.PushBackAt` | Functions/CircularLinkedList/CircularLinkedList.hpp:54-70 | for whatever node `new` answers: appends to any well-formed list, and behind a stale tail exactly when it is the node that the tail names |
| `CircularLinkedLists.CircularLinkedList.LinkBehindTail` | Functions/CircularLinkedList/CircularLinkedList.hpp:55-69 | both branches put the node between the tail, or the sentinel, and the sentinel |
| `CircularLinkedLists.CircularLinkedList.PopFront` | Functions/CircularLinkedList/CircularLinkedList.hpp:72-82 | drops the first element; well formed afterwards exactly when the length was not one |
| `CircularLinkedLists.PushAfterStalePop` | Functions/CircularLinkedList/CircularLinkedList.hpp:54-82 | push after such a pop: a well-formed list of the one element exactly when `new` hands the popped node back, otherwise a list that answers empty |
| `CircularLinkedLists.CircularLinkedList.PopBack` | Functions/CircularLinkedList/CircularLinkedList.hpp:84-95 | drops the last element and moves the tail back, to the sentinel when drained |
| `CircularLinkedLists.CircularLinkedList.Unlink` | Functions/CircularLinkedList/CircularLinkedList.hpp:101-108 | the rewiring: neighbours bypass the node, the node points backwards, nothing else changes |
| `CircularLinkedLists.CircularLinkedList.Erase` | Functions/CircularLinkedList/CircularLinkedList.hpp:97-114 | removes the node at position i; its next link is then the predecessor, its prev link the successor; null is refused |
| `CircularLinkedLists.CircularLinkedList.IsEmpty` | Functions/CircularLinkedList/CircularLinkedList.hpp:116-118 | true exactly for a list without elements: fresh, drained or stale |
| `CircularLinkedLists.CircularLinkedList.Begin` | Functions/CircularLinkedList/CircularLinkedList.hpp:120-122 | first node, sentinel when drained, null when fresh |
| `CircularLinkedLists.CircularLinkedList.End` | Functions/CircularLinkedList/CircularLinkedList.hpp:124-126 | the sentinel, null when fresh |
| `CircularLinkedLists.CircularLinkedList.TraversalsMirror` | Functions/CircularLinkedList/CircularLinkedList.hpp:54-114 | forward and backward walks visit the elements in opposite orders and close after one round |
| `FutureSweeps.SweepConserves` | Functions/ThreadPool/ThreadPool.hpp:92-98 | under any changing answers each element is kept or handled, as often as listed |
| `FutureSweeps.SweepKeepsOrder` | Functions/ThreadPool/ThreadPool.hpp:92-98 | under any answers the kept elements stay in order |
| `FutureSweeps.SweepHandlesReady` | Functions/ThreadPool/ThreadPool.hpp:92-98 | under any answers only elements that answered ready are handled |
| `FutureSweeps.SteadySweep` | Functions/ThreadPool/ThreadPool.hpp:92-98 | with steady answers: only the first element if it is ready, otherwise exactly all ready ones, in order |
| `FutureSweeps.OneSweepIsCompleteIff` | Functions/ThreadPool/ThreadPool.hpp:92-98 | exact condition for one sweep to handle everything ready |
| `FutureSweeps.RoundsAreCompleteIff` | Functions/ThreadPool/ThreadPool.hpp:83-98 | with steady answers, n sweeps handle everything ready exactly from the ready prefix (plus one) on |
| `FutureSweeps.EachRoundTakesOne` | Functions/ThreadPool/ThreadPool.hpp:92-98 | while the front is ready, each sweep handles just one element |
| `FutureSweeps.OneMoreRoundTakesAll` | Functions/ThreadPool/ThreadPool.hpp:92-98 | the sweep after those handles all others that are ready, and later ones nothing |
| `FutureSweeps.Visit` | Functions/CircularLinkedList/CircularLinkedList.hpp:37-38 | one loop round: after an erase the iterator's step leads to the predecessor |
| `FutureSweeps.SweepFutures` | Functions/ThreadPool/ThreadPool.hpp:92-98 | the iterator loop on the linked list terminates and computes the sweep |
| `ThreadPools.StepKeepsInv` | Functions/ThreadPool/ThreadPool.hpp:42-104 | every atomic step keeps the placement of futures, the job order and the handled record |
| `ThreadPools.EveryRunIsOrderly` | Functions/ThreadPool/ThreadPool.hpp:42-104 | over every interleaving: each future in exactly one place, handled at most once, after its job started or was dropped; started jobs a duplicate-free prefix of the accepted ones |
| `ThreadPools.MayAnswerReadyIff` | Functions/ThreadPool/ThreadPool.hpp:42-77 | in every run the future under the cursor may answer ready exactly when its job finished among the steps or its offer met a queue of 399 |
| `ThreadPools.EveryFutureCanBeHandled` | Functions/ThreadPool/ThreadPool.hpp:42-104 | from every reachable pool some continuation handles every future issued so far |
| `ThreadPools.VisitsMakeASweep` | Functions/ThreadPool/ThreadPool.hpp:92-98 | in any legal run the visits complete the sweep by the answers they follow, whatever steps of other threads stand in between |
| `ThreadPools.RoundIsOneSweep` | Functions/ThreadPool/ThreadPool.hpp:82-104 | over any interleaving from the wake-up back to idle: conditional swap, one sweep, and the stock list grows by the stockings of the run |
| `ThreadPools.ReadyAreHandledIff` | Functions/ThreadPool/ThreadPool.hpp:82-104 | over any interleaved rounds with steady answers, the exact number of rounds from which on all ready futures are handled |
| `ThreadPools.RoundExists` | Functions/ThreadPool/ThreadPool.hpp:86-98 | for any answers that futures can give there is a round with these answers |
| `ThreadPools.ThreadPool.constructor` | Functions/ThreadPool/ThreadPool.hpp:19-28 | empty queue and lists that share no node, not stopped; shows the initial pool of the step relation |
| `ThreadPools.ThreadPool.Stop` | Functions/ThreadPool/ThreadPool.hpp:30-31 | sets the stop flag and nothing else |
| `ThreadPools.ThreadPool.EnqueueJob` | Functions/ThreadPool/ThreadPool.hpp:42-62 | a stopped pool answers false and changes nothing; otherwise the future is stocked and the answer is true even when the full queue drops the job; the two steps of the step relation |
| `ThreadPools.ThreadPool.TakeJob` | Functions/ThreadPool/ThreadPool.hpp:65-80 | a worker takes the oldest job, none after the stop; the start step |
| `ThreadPools.ThreadPool.ProcessFutures` | Functions/ThreadPool/ThreadPool.hpp:82-104 | swaps when the processing list is used up, then sweeps it; the job queue is untouched; a round of the step relation with the same answers |
| `TimingWheels.DeadlineIsSlotAndRotation` | Functions/TimingWheel/TimingWheel.hpp:101-106 | slot and rotation tag encode the deadline, including the wrap of the sum |
| `TimingWheels.AddRefines` | Functions/TimingWheel/TimingWheel.hpp:101-108 | adding appends to the plain list |
| `TimingWheels.TickRefines` | Functions/TimingWheel/TimingWheel.hpp:69-88 | a tick fires exactly the entries due now, in insertion order, and drops them |
| `TimingWheels.WheelRefinesPlan` | Functions/TimingWheel/TimingWheel.hpp:69-108 | over any adds and ticks the wheel's firings are the plain list's |
| `TimingWheels.FiringsAreConserved` | Functions/TimingWheel/TimingWheel.hpp:69-108 | firings and pending timers are together exactly what the adds asked for |
| `TimingWheels.FiresInAddOrder` | Functions/TimingWheel/TimingWheel.hpp:69-108 | in every run the timers fired at one tick fire in the order of their adds |
| `TimingWheels.PendingInAddOrder` | Functions/TimingWheel/TimingWheel.hpp:101-108 | in every run the pending timers stand in the order of their adds |
| `TimingWheels.PendingStaysInWindow` | Functions/TimingWheel/TimingWheel.hpp:69-108 | in every run each pending timer is less than 14 ticks ahead, and not behind unless its own sum wrapped when it was added |
| `TimingWheels.PastDeadlinesHaveFired` | Functions/TimingWheel/TimingWheel.hpp:69-108 | in every run each past deadline has fired at its tick once per add, less the adds whose own sum wrapped |
| `TimingWheels.LateIsPending` | Functions/TimingWheel/TimingWheel.hpp:69-108 | the timers pending behind the current tick are exactly those whose sum wrapped, as often as they were added |
| `TimingWheels.DelayIsExactIff` | Functions/TimingWheel/TimingWheel.hpp:101-106 | the delay is kept exactly when index + d < 14; otherwise it is shorter but congruent mod 7 |
| `TimingWheels.DeadlineIsPastIff` | Functions/TimingWheel/TimingWheel.hpp:102 | the deadline is already past exactly when the size_t sum wraps |
| `TimingWheels.OverdueNeverFires` | Functions/TimingWheel/TimingWheel.hpp:69-79 | a timer behind the current tick stays pending for ever |
| `TimingWheels.TimerClass.constructor` | Functions/TimingWheel/TimingWheel.hpp:61 | an empty wheel at tick zero |
| `TimingWheels.TimerClass.AddNewTimer` | Functions/TimingWheel/TimingWheel.hpp:101-108 | performs the add step |
| `TimingWheels.TimerClass.Tick` | Functions/TimingWheel/TimingWheel.hpp:69-88 | the erase-while-iterating walk performs the tick step |
| `PacketHeaders.UnpackPack` | Network/NetworkProtocol/UDPSocket.cpp:121 | the sign-extended tag always comes back from the packed header, the number exactly when the tag is not negative or the number is 65535 |
| `PacketHeaders.AckReturnsNumber` | Network/NetworkProtocol/UDPSocket.cpp:203-221 | number, plus one, minus one through all wrap-arounds is the number |
| `PacketHeaders.AcceptsIsPromotedEquality` | Network/NetworkProtocol/UDPSocket.cpp:47 | the test compares the unsigned number with the signed store |
| `PacketHeaders.OwnAckAcceptedIff` | Network/NetworkProtocol/UDPSocket.cpp:47 | the own acknowledgement is accepted exactly below 32768 |
| `Datagrams.DatagramMeans` | Network/NetworkProtocol/UDPSocket.cpp:118-126 | the bytes spell header, packet information and payload |
| `Datagrams.BytesStand` | Network/NetworkProtocol/UDPSocket.cpp:118-126 | every byte of a datagram, low bytes first |
| `Datagrams.SpellingIsUnique` | Network/NetworkProtocol/UDPSocket.cpp:118-126 | different packets have different bytes |
| `Datagrams.SetAckNumberToBuffer` | Network/NetworkProtocol/UDPSocket.cpp:118-126 | the send buffer starts with exactly the datagram |
| `Datagrams.Handle` | Network/NetworkProtocol/UDPSocket.cpp:207-227 | the branches on the tag: data loses its header in place, an acknowledgement only the count and it may raise the packet number, anything else nothing |
| `Buffers.MoveMemory` | Network/NetworkProtocol/UDPSocket.cpp:219 | the overlapping in-place move copies the source bytes as they were |
| `Datagrams.CheckAck` | Network/NetworkProtocol/UDPSocket.cpp:201-230 | action, new length, buffer and updated packet number for every tag |
| `Datagrams.NewestIsGreatest` | Network/NetworkProtocol/UDPSocket.cpp:207-209 | over any messages the caller's packet number is the greatest of its first value and the acknowledged numbers |
| `Datagrams.Transfer` | Network/NetworkProtocol/UDPSocket.cpp:91-126 | a sent packet arrives as its information bytes and payload, four bytes shorter |
| `Datagrams.Return` | Network/NetworkProtocol/UDPSocket.cpp:207-212 | a four-byte answer is acted on as its header says |
| `Datagrams.ReplyCompletes` | Network/NetworkProtocol/UDPSocket.cpp:207-227 | the reply to packet n completes n; an unreliable packet gets no reply |
| `Datagrams.TagsDecide` | Network/NetworkProtocol/UDPSocket.cpp:207-227 | what the tags 9999, 0 and 1 ask for, and that no other tag asks for anything |
| `ReliableProtocol.ConfirmedAfterReceipt` | Network/NetworkProtocol/UDPSocket.cpp:33-57 | in every run, stored numbers were received by the peer, and a confirmed number is zero or received, and below 32768 |
| `ReliableProtocol.AtomicConfirmedAfterReceipt` | Network/NetworkProtocol/UDPSocket.hpp:129-132 | with notification and store in one step, zero is no exception |
| `ReliableProtocol.ZeroCanBeConfirmedUnreceived` | Network/NetworkProtocol/UDPSocket.hpp:129-132 | a run in which zero is confirmed but was never received |
| `ReliableProtocol.DistinctNumbersConfirmTheDatum` | Network/NetworkProtocol/UDPSocket.cpp:46-48 | with distinct numbers the confirmed datum itself was received |
| `ReliableProtocol.CompletedIsLastStored` | Network/NetworkProtocol/UDPSocket.hpp:129-132 | after every run the completed number is that of the last store among its steps |
| `ReliableProtocol.NotifiedIsStoredOnce` | Network/NetworkProtocol/UDPSocket.hpp:129-132 | over every run each notified number is stored once or still to be stored |
| `ReliableProtocol.BlocksRecordTheRun` | Network/NetworkProtocol/UDPSocket.cpp:42-54 | the outcome and sends of every finished datum are what the steps alone spell: twelve timeouts, or the comparison of the packet number with the number read |
| `ReliableProtocol.AcceptedIsTaken` | Network/NetworkProtocol/UDPSocket.hpp:122-127 | in every run the accepted data are those whose add met a queue of fewer than 399 |
| `ReliableProtocol.NetworkIsExactly` | Network/NetworkProtocol/UDPSocket.cpp:201-230 | the network holds exactly one data packet per datum sent and the acknowledgement of each datum received |
| `ReliableProtocol.ReceivedIsDelivered` | Network/NetworkProtocol/UDPSocket.cpp:213-221 | the peer has received exactly the data that were delivered |
| `ReliableProtocol.AnythingSentCanBeStored` | Network/NetworkProtocol/UDPSocket.cpp:201-230 | from every reachable state, whatever was sent can still arrive, be acknowledged and be stored |
| `ReliableProtocol.HeadCanBeConfirmedIff` | Network/NetworkProtocol/UDPSocket.cpp:40-51 | from every reachable state between two data, the next datum can be confirmed exactly when its number is below 32768 |
| `ReliableProtocol.EveryDatumCanBeConfirmed` | Network/NetworkProtocol/UDPSocket.cpp:40-51 | for every datum numbered below 32768 some run that notifies and stores in separate steps confirms it after receipt |
| `ReliableProtocol.AllTimeOut` | Network/NetworkProtocol/UDPSocket.cpp:42-54 | every datum can be given up, after twelve sends |
| `ReliableProtocol.RunKeepsOrder` | Network/NetworkProtocol/UDPSocket.cpp:36-56 | in every run the trace is the accepted order, one contiguous block of 1 to 12 sends per datum |
| `ReliableSenders.AttemptMeans` | Network/NetworkProtocol/UDPSocket.cpp:42-54 | a block ends at the first notification or after 12 timeouts, with the outcome that says |
| `ReliableSenders.BlocksAreSound` | Network/NetworkProtocol/UDPSocket.cpp:36-56 | the blocks follow the queue order, each with 1 to 12 sends |
| `ReliableSenders.BlocksUseSuccessiveWaits` | Network/NetworkProtocol/UDPSocket.cpp:42-54 | each block starts with the wait after the last one of the blocks before |
| `ReliableSenders.ReliableUDP.constructor` | Network/NetworkProtocol/UDPSocket.cpp:14-18 | an empty queue of 400 slots and an empty trace |
| `ReliableSenders.ReliableUDP.AddReliableData` | Network/NetworkProtocol/UDPSocket.hpp:122-127 | appends and answers the pointer, or answers null when full |
| `ReliableSenders.ReliableUDP.SendUntilAnswered` | Network/NetworkProtocol/UDPSocket.cpp:42-54 | the retry loop sends exactly the repetitions of its block |
| `ReliableSenders.ReliableUDP.ProcessNext` | Network/NetworkProtocol/UDPSocket.cpp:40-55 | takes the oldest datum and appends its block to the trace |
| `ReliableSenders.ReliableUDP.ReliableProcessor` | Network/NetworkProtocol/UDPSocket.cpp:33-57 | works off the whole queue in order |
| `CircularQueues.PushAppends` | Functions/CircularQueue/CircularQueue.hpp:41-53 | append below L - 1 elements, refusal without change exactly at L - 1 |
| `CircularQueues.PopTakesOldest` | Functions/CircularQueue/CircularQueue.hpp:55-66 | the oldest element leaves; nothing happens exactly when empty |
| `CircularQueues.RunIsBoundedFifo` | Functions/CircularQueue/CircularQueue.hpp:41-73 | every run is a run of a list of capacity L - 1; accepted = popped followed by held |
| `CircularQueues.CircularQueue.constructor` | Functions/CircularQueue/CircularQueue.hpp:31 | an empty ring of the given length |
| `CircularQueues.CircularQueue.Push` | Functions/CircularQueue/CircularQueue.hpp:41-53 | the array version appends or refuses |
| `CircularQueues.CircularQueue.Pop` | Functions/CircularQueue/CircularQueue.hpp:55-66 | the array version takes the oldest element |
| `CircularQueues.CircularQueue.IsEmpty` | Functions/CircularQueue/CircularQueue.hpp:69-73 | true exactly when nothing is held |
| `ConnectionPools.StepKeepsInv` | Functions/SQL/MySQL/MySQL.hpp:99-130 | every lease, failed selection and return keeps the pool invariant |
| `ConnectionPools.EveryRunIsSafe` | Functions/SQL/MySQL/MySQL.hpp:52-130 | in every run: no double lease, leases at their index, list = counter <= maximum, unable = leased or lost, one lost slot per failed selection |
| `ConnectionPools.MysqlAnswers` | Functions/SQL/MySQL/MySQL.hpp:99-130 | the exact condition for null; otherwise the lowest able slot, or a new connection at the counter whatever the schema; nothing else changes |
| `ConnectionPools.MssqlAnswers` | Functions/SQL/MSSQL/MSSQL.hpp:202-222 | the exact conditions for null and for the exception; otherwise the lowest able slot or a new connection |
| `ConnectionPools.MssqlIsMysqlWithoutSchemas` | Functions/SQL/MSSQL/MSSQL.hpp:202-222 | the MSSQL step is the MySQL step without schema failures, except for the exception |
| `ConnectionPools.MssqlNullMeansAllOut` | Functions/SQL/MSSQL/MSSQL.hpp:213-221 | a null lease exactly when all maximum connections are out |
| `ConnectionPools.ListMatchesCounterIff` | Functions/SQL/MySQL/MySQL.hpp:82-87 | the constructor's list holds the connections up to the first refusal, and reaches its counter exactly when there is none |
| `ConnectionPools.LeasesStayFiledIff` | Functions/SQL/MySQL/MySQL.hpp:74-130 | in every run from the constructor all leases stand at their index exactly when none of its connects was refused |
| `ConnectionPools.ShortListMisfiles` | Functions/SQL/MySQL/MySQL.hpp:99-130 | wherever the list is shorter than a counter below the maximum, some run misfiles a lease |
| `ConnectionPools.TwoHandsIff` | Functions/SQL/MySQL/MySQL.hpp:52-130 | with g of the constructor's connects missing, some run leases one connection twice exactly when 1 <= g < maximum - maximum / 2 |
| `ConnectionPools.MysqlNullMeansAllOutOrLost` | Functions/SQL/MySQL/MySQL.hpp:99-130 | in every run, null whatever the driver says exactly when the list is at its maximum and each slot is leased or lost |
| `ConnectionPools.LostForGood` | Functions/SQL/MySQL/MySQL.hpp:104-111 | over any run no lost slot comes back |
| `ConnectionPools.ExhaustedByFailures` | Functions/SQL/MySQL/MySQL.hpp:104-111 | after as many failed selections as the maximum, the pool answers null for ever |
| `ConnectionPools.CMSSQLPool.constructor` | Functions/SQL/MSSQL/MSSQL.hpp:167-190 | half the maximum of able connections, counted |
| `ConnectionPools.CMSSQLPool.GetConnection` | Functions/SQL/MSSQL/MSSQL.hpp:202-222 | the search loop performs the MSSQL step |
| `ConnectionPools.CMSSQLPool.GiveBack` | Functions/SQL/MSSQL/MSSQL.hpp:141-146 | the deleter frees the slot at the lease's index |
| `ConnectionPools.CMySQLPool.constructor` | Functions/SQL/MySQL/MySQL.hpp:74-88 | the list holds the connections opened before the first refusal, the counter half the maximum |
| `ConnectionPools.CMySQLPool.GetConnection` | Functions/SQL/MySQL/MySQL.hpp:99-130 | the search loop performs the MySQL step with its failure paths |
| `ConnectionPools.CMySQLPool.GiveBack` | Functions/SQL/MySQL/MySQL.hpp:52-55 | the deleter frees the slot at the lease's index |
| `SqlQueries.MakeQueryForSelect` | Functions/SQL/SQL.hpp:64-88 | the loops build the SELECT text |
| `SqlQueries.MakeQueryForDelete` | Functions/SQL/SQL.hpp:90-105 | the loop builds the DELETE text |
| `SqlQueries.MakeQueryForInsert` | Functions/SQL/SQL.hpp:50-62 | the loop builds the INSERT text |
| `SqlQueries.OperatorStandsBetween` | Functions/SQL/SQL.hpp:21-34 | between the closing quote of a condition and the next column stands its operator's SQL word and nothing else |
| `SqlQueries.OneConditionReads` | Functions/SQL/SQL.hpp:83 | a condition reads column, equals sign between spaces, quoted data |
| `SqlQueries.CommaStandsBetween` | Functions/SQL/SQL.hpp:71-74 | between two fields stand a comma and a space |
| `SqlQueries.SelectReads` | Functions/SQL/SQL.hpp:68-85 | the words of a SELECT with and without fields and conditions |
| `SqlQueries.DeleteReads` | Functions/SQL/SQL.hpp:94-102 | the words of a DELETE with and without conditions |
| `SqlQueries.InsertReads` | Functions/SQL/SQL.hpp:52-60 | the words of an INSERT |
| `SqlQueries.MarksRead` | Functions/SQL/SQL.hpp:55-59 | n question marks with single commas between them |
| `SqlQueries.SelectDecodes` | Functions/SQL/SQL.hpp:64-88 | for identifiers of either case, equal SELECT texts exactly for equal fields, table, data and operator-column words |
| `SqlQueries.DeleteDecodes` | Functions/SQL/SQL.hpp:90-105 | the same for DELETE |
| `SqlQueries.InsertDecodes` | Functions/SQL/SQL.hpp:50-62 | equal INSERT texts exactly for equal table, column list and column count |
| `SqlQueries.WordsDecode` | Functions/SQL/SQL.hpp:79-87 | equal condition texts have equal data and, at every position, equal operator text joined with the next column |
| `SqlQueries.WordsTellOperators` | Functions/SQL/SQL.hpp:21-34 | over labels none of which reads as operator and label, the words tell all columns and operators |
| `SqlQueries.SelectIsDecodableIff` | Functions/SQL/SQL.hpp:64-88 | over a set of identifier labels SELECT texts determine their inputs exactly when no label reads as an operator and a label |
| `SqlQueries.DeleteIsDecodableIff` | Functions/SQL/SQL.hpp:90-105 | the same for DELETE |
| `SqlQueries.LowercaseIsEnough` | Functions/SQL/SQL.hpp:64-105 | labels without an uppercase first letter always decode |
| `SqlQueries.UppercaseLabelsCollide` | Functions/SQL/SQL.hpp:82-84 | the labels "b" and "ANDb" do not decode |
| `WatchDogs.ExitKeepsMatching` | WatchDogClient/WatchDogClient/WatchDogClient.cpp:127-150 | an exit keeps handles and clients in step and closes the removed handle |
| `WatchDogs.ExitLeaves` | WatchDogClient/WatchDogClient/WatchDogClient.cpp:139-150 | both lists after an exit, element by element, by the restart flag and the outcome of the start |
| `WatchDogs.ExitAndPrograms` | WatchDogClient/WatchDogClient/WatchDogClient.cpp:139-146 | an exit keeps the multiset of programs exactly when the restart flag is set and the process starts, and otherwise removes just that program |
| `WatchDogs.RunKeepsListsMatching` | WatchDogClient/WatchDogClient/WatchDogClient.cpp:117-157 | over any run: lists match, one close per exit, every monitored handle either monitored or closed once |
| `WatchDogs.ProgramsAreAccountedFor` | WatchDogClient/WatchDogClient/WatchDogClient.cpp:91-157 | over any run the programs monitored at the start are those monitored at the end and those of the exits without flag or start |
| `WatchDogs.RestartsPreservePrograms` | WatchDogClient/WatchDogClient/WatchDogClient.cpp:91-157 | over any run the monitored programs are preserved exactly when every exited program had the restart flag set and its process started |
| `WatchDogs.RestartsAbandonNothing` | WatchDogClient/WatchDogClient/WatchDogClient.cpp:139-146 | when every program restarts and every restart succeeds, none is abandoned |
| `WatchDogs.WithoutFlagNoNewHandle` | WatchDogClient/WatchDogClient/WatchDogClient.cpp:139-146 | over any run a client without the restart flag never comes back or gets another handle |
| `WatchDogs.ClosesWhatExited` | WatchDogClient/WatchDogClient/WatchDogClient.cpp:144 | the handles closed by a run are those of the exited clients, in exit order |
| `WatchDogs.RunEndsAtFailedWait` | WatchDogClient/WatchDogClient/WatchDogClient.cpp:152-155 | a failed wait ends the run |
| `WatchDogs.CWatchDogClient.CreateNewChildProcess` | WatchDogClient/WatchDogClient/WatchDogClient.cpp:91-115 | the restarted client is moved to the end, its old element keeps the new handle |
| `WatchDogs.CWatchDogClient.HandleExit` | WatchDogClient/WatchDogClient/WatchDogClient.cpp:128-150 | the loop body performs the exit step |
| `WatchDogs.CWatchDogClient.ChildProcessEventSelectWorkerThread` | WatchDogClient/WatchDogClient/WatchDogClient.cpp:117-157 | the loop performs the run up to the first failed wait |
| `DumpTransmits.ChunkCount` | WatchDogClient/DumpTransmit/DumpTransmit.cpp:70-81 | floor(n / 1024) + 1 packets |
| `DumpTransmits.OnlyLastIsEnd` | WatchDogClient/DumpTransmit/DumpTransmit.cpp:75-80 | only the last packet is End, all others Loop, all 1024 bytes long |
| `DumpTransmits.PayloadsAreFile` | WatchDogClient/DumpTransmit/DumpTransmit.cpp:73-80 | the payloads are the file followed only by zeros |
| `DumpTransmits.SamePacketsIff` | WatchDogClient/DumpTransmit/DumpTransmit.cpp:73-80 | two files give the same packets exactly when they agree after padding |
| `DumpTransmits.InputStream.Read` | WatchDogClient/DumpTransmit/DumpTransmit.cpp:74 | a read fills the front of the buffer and is short, setting end of file, only at the end |
| `DumpTransmits.TransmitFile` | WatchDogClient/DumpTransmit/DumpTransmit.cpp:67-81 | the read loop over one reused buffer produces these packets |

## Left out

- Sockets, completion ports, event selection, thread creation, clocks and drivers: only their answers appear, as parameters or steps.
- Packet reassembly and dispatch: the file that implements them is not part of this model, nor is the overlapped structure of the other `CheckAck` overload, whose header arithmetic is the same.
- `Datagrams.CheckAck`: does not model null arguments or messages shorter than the four header bytes, which the code does not check for.
- `Datagrams.SetAckNumberToBuffer`: zeroes the whole buffer, because the length constant that the code passes is not part of this model; the datagram bytes do not depend on it.
- `CircularQueues.CircularQueue.Push`: a refused push returns a default element by value, where the code returns a reference to a temporary; copying a queue is not modelled.
- `CircularLinkedLists.CircularLinkedList.PopFront`: the missing final return value is taken as true, as in `PopBack`; deleted nodes stay readable.
- `CircularLinkedLists.CircularLinkedList.Erase`: is not called on the sentinel, which the code does not test for; while an iterator stands on an erased node, no other thread is handed that node.
- `CircularLinkedLists.CircularLinkedList.PopBack`: is not called on a list with a stale tail, where the code would delete the tail's node again.
- The map of cached reliable data and its helper thread: the same pointer can be both released and still cached, so no ownership claim is made.
- `ClearAllFutureQueue`: by the sweep results it removes one node per non-empty list; it adds nothing to them.
- Job results and the promises of dropped jobs: only which futures and jobs exist and where they are.
- `TimingWheels.TimerClass.AddNewTimer`: `size_t` is 64 bits, rotation counters do not overflow, the slot interval is positive, and the rotation count written back into the caller's timer is not modelled.
- Out-of-memory paths, spurious wake-ups, and callbacks that add timers from inside a tick.
- `ReliableSenders.ReliableUDP.ReliableProcessor`: runs until the queue is empty instead of waiting for more data, and does not insert into the map of cached data.
- `WatchDogs.CWatchDogClient.HandleExit`: sending the dump and end packets and the shared-memory handle of a client are not modelled.
- `SqlQueries.SelectDecodes`: names are identifiers and data do not contain the closing quote, which the builder does not escape.
- TCP byte accounting, serialization, JSON, logging, minidumps and the code generators.
