# Verified model of a C++ coroutine server framework

This project models the data structures and the fiber runtime of a C++20 server
framework in Dafny and proves what they are for. Each module follows one part of the
framework.

**Bitmaps** (`Bits`, `BitmapCodec`, `BitmapLanes`, `Bitmap`, `BitmapScan`,
`BitmapIterators`). A bitmap keeps 14 payload bits in each 16-bit word; its compressed form
replaces runs of equal words by run words whose length is spread over several chunks. The
encoding is a recursive function with a decoder as its inverse; the loops that write,
decode, combine and enumerate words are methods on arrays, proved against those functions.
Machine words are natural numbers with recursive And, Or, Xor, shift and population count,
so shifts that lose bits are visible.

**Roaring containers** (`RunContainer`, `ArrayContainer`). Sorted runs and sorted arrays of
16-bit values, with the searches and in-place updates, against sets of numbers.

**The fiber runtime** (`DoIo`, `DoIoRuns`, `Scheduler`, `SchedulerRuns`, `SchedulerHistory`,
`Sleep`, `WorkerGroup`, and the objects `Timers`, `IoManager`, `Semaphore`). Concurrent parts
are a state and a step relation; one step is one block under a lock or one action between two
locks. Results speak about every state of every run, and tie each part of a state to the steps
that led to it. Objects whose methods lock are classes with an invariant that every method
keeps; `EventLedger` is the history that the event table is proved to agree with.

**Byte arrays** (`ByteTape`, `ByteArray`, `ByteCodec`, `ByteScript`, `ByteIo`). A linked list
of fixed-size chunks with a cursor refines a flat byte sequence. Varints and ZigZag follow
the sections "Base 128 Varints" and "Signed Integers" of the Protocol Buffers encoding guide.
`ByteIo.Replay` joins both: a whole script of typed values written to the chunked array and
read back.

**Caches and maps** (`LruSpec`, `TimedLruCache`, `HashMap`). The cache is proved against a
list in order of use, and that list against the history of operations; the hash table against
a map.

## What turned out not to hold

Each of these has the exact condition, or a concrete run beside the result that does hold.

- `rforeach` starts one bit too high when the size is not a multiple of 14
  (`BitmapScan.RforeachIsReverseIff`, failing in `RforeachStartsInPadding`). `getCount` counts
  padding and flag bits of whole blocks (`BitmapScan.GetCountIsExactIff`, failing in
  `GetCountCountsPadding`). Compression loses words whose flag bits are set
  (`BitmapCodec.RoundTrip`, failing in `FlagIsLost`).
- From 2^31 bits on both iterators find nothing (`BitmapIterators.WalkIsCompleteIff`, failing in
  `HugeBitmapLooksEmpty`).
- A run container answers for a range that starts beyond the 16-bit universe as if it did not
  (`RunContainers.RunContainer.ContainsRange`, failing in `FarRangeIsFound`).
- `delEvent` on a descriptor a fiber waits for strands the fiber
  (`DoIoRuns.WaitingIsRegisteredOrQueued`, a run in `DelEventStrands`).
- A timed wait can lose its timeout to a callback left over from the wait before it in the
  same call (`DoIoRuns.TimeoutAheadIff`, a run in `TimeoutIsLost`).
- The callback of a timed-out call can wake a fiber of another call
  (`DoIoRuns.StrangerIsWokenIff`, a run in `StrangerIsWoken`).
- A callback scheduled from outside after the last worker has left stays queued
  (`Scheduling.LastWorkerLeavesNothing`, a run in `SchedulingRuns.LateOutsiderStrands`).
- A callback pinned to a worker that has left keeps the scheduler from stopping
  (`Scheduling.DeadPinBlocksStop`, a run in `SchedulingRuns.RequeuedFiberBlocksStop`).
- Two workers can hold one fiber, because its state is written outside the lock
  (`SchedulingRuns.TwoWorkersIff`, runs in `EarlyResume`, `LateHolding` and `BothEnter`).
- A signal makes the event loop sleep the whole timeout again. It wakes by its deadline if and
  only if no time passed between the choice of the timeout and the last entry into the wait
  (`Sleeping.WakesInTimeIff`, a run in `InterruptOversleeps`).
- With a period of 2^31 ms the event loop can sleep for ever (`Sleeping.SleepsForeverIff`, a run
  in `LongTimerBlocks`).
- While the clock is below one hour any step back counts as a rollover
  (`Timers.TimerManager.DetectRollover`).
- A report that is delivered after one of its events was deleted fails an assertion
  (`IoManagers.IoManager.Deliver`, `IoManagers.StaleReportAborts`).
- A string longer than its length prefix can say is not read back, nor is one without a prefix
  that something follows (`ByteScripts.StringRoundTrip`, failing in `LongStringIsLost`).
- A second `waitAll` does not wait (`WorkerGroups.LateWaitAllIff`, a run for each batch size in
  `LateWaitAllReturnsEarly`).
- Reading at a position beyond the data of a byte array does not throw
  (`ByteArrays.ByteArray.ReadAt`).
- From 2^30 keys on a rehash no longer gives more buckets than keys
  (`HashMaps.BasketExceedsIff`).

## Model

| member | source | states |
|---|---|---|
| `BitmapCodec.MasksAreArithmetic` | include/datastruct/bitmap.h:146-152 | the flag, value and count masks of a 16-bit word pick exactly its top bit, its second bit and its low 14 bits |
| `BitmapCodec.ChunksDenote` | src/datastruct/bitmap.cpp:339-346 | the chunks written for a run of any length denote that length again, and nothing behind them is read into the run |
| `BitmapCodec.EncodeHead` | src/datastruct/bitmap.cpp:315-382 | adjacent run groups never share a value: the output after a pending run does not start with a run of the other value |
| `BitmapCodec.FlushForm` | src/datastruct/bitmap.cpp:315-382 | a pending run of one word is written as one literal, and any longer one as run words of its value whose payloads are the base-2^14 digits of its length in bits, the last not zero |
| `BitmapCodec.EncodeMerges` | src/datastruct/bitmap.cpp:315-382 | compressing merges: neighbours in the output that stand for one value are digits of one run |
| `BitmapCodec.ExpandEncode` | src/datastruct/bitmap.cpp:315-415 | decoding the encoder's output from any intermediate state gives the pending run followed by the remaining words |
| `BitmapCodec.RoundTrip` | src/datastruct/bitmap.cpp:315-415 | uncompressing a compressed bitmap gives back every word if and only if both flag bits of every word are clear |
| `BitmapCodec.FlagIsLost` | src/datastruct/bitmap.cpp:315-415 | a bitmap of one word that is only a flag does not come back |
| `BitmapCodec.EncodeShort` | src/datastruct/bitmap.cpp:315-382 | the compressed form never has more words than the bitmap, so the scratch buffer suffices |
| `BitmapCodec.ExpandFlip` | src/datastruct/bitmap.cpp:149-174 | complementing the compressed form and then decoding is complementing every payload bit, and the result is decodable again |
| `BitmapCodec.NegatedBits` | src/datastruct/bitmap.cpp:149-174 | that complement flips each of the 14 payload bits of each word |
| `BitmapLanes.LanesOfPack` | src/datastruct/bitmap.cpp:99-147 | the four 16-bit words of a 64-bit word are the ones it was put together from |
| `BitmapLanes.PackAnd` | src/datastruct/bitmap.cpp:99-147 | And on four packed words at once is And on each word |
| `BitmapLanes.PackOr` | src/datastruct/bitmap.cpp:176-224 | Or on four packed words at once is Or on each word |
| `BitmapLanes.PackPopcount` | src/datastruct/bitmap.cpp:847-869 | the bits set in a packed word are those of its four words together |
| `Bitmaps.JoinDigit` | src/datastruct/bitmap.cpp:392-403 | joining one more chunk with 32-bit shift and or is adding it at its place: nothing is lost and nothing overlaps |
| `Bitmaps.ReadRun` | src/datastruct/bitmap.cpp:392-403 | the chunk loop reads exactly one group of run words and computes the length the group denotes |
| `Bitmaps.SetRange` | src/datastruct/bitmap.cpp:792-807 | the aligned range set makes exactly the words of the range all ones or all zeros |
| `Bitmaps.GetRange` | src/datastruct/bitmap.cpp:809-833 | the aligned range get is true exactly when some word of the range has (or lacks) a set payload bit |
| `Bitmaps.DecodeInto` | src/datastruct/bitmap.cpp:384-415 | the loop of uncompress fills the whole buffer with the decoded words |
| `Bitmaps.AndRuns` | src/datastruct/bitmap.cpp:99-147 | and-ing with a compressed operand leaves a word as it is under a run of ones, clears it under a run of zeros and is And with each literal |
| `Bitmaps.OrRuns` | src/datastruct/bitmap.cpp:176-224 | or-ing with a compressed operand fills the payload of a word and clears its flags under a run of ones, leaves it under a run of zeros and is Or with each literal |
| `Bitmaps.AndedPayloads` | src/datastruct/bitmap.cpp:99-147 | so the payload bits are And with the decoded words whatever the flags do, and words without flags are exactly that |
| `Bitmaps.OredPayloads` | src/datastruct/bitmap.cpp:176-224 | the same for Or |
| `Bitmaps.CrossRuns` | src/datastruct/bitmap.cpp:643-676 | compressCross is true exactly when some word, with or without flag bits, meets the decoded word |
| `Bitmaps.AndAll` | src/datastruct/bitmap.cpp:99-147 | the four-words-at-a-time loop and its tail compute And word by word, also when the operands are the same buffer |
| `Bitmaps.OrAll` | src/datastruct/bitmap.cpp:176-224 | the same for Or |
| `Bitmaps.LaneMeets` | src/datastruct/bitmap.cpp:678-693 | the four-word test finds a common bit exactly when one of the four words has one |
| `Bitmaps.CrossAll` | src/datastruct/bitmap.cpp:678-693 | normalCross is true exactly when some word of the two has a common bit |
| `Bitmaps.Bitmap.constructor` | src/datastruct/bitmap.cpp:30-39 | a new bitmap has the words its size needs, each byte of them the default |
| `Bitmaps.Bitmap.EncodeInto` | src/datastruct/bitmap.cpp:315-382 | every write of the compress loop stays inside a buffer as long as the bitmap, and the result is the specified encoding |
| `Bitmaps.Bitmap.Compress` | src/datastruct/bitmap.cpp:315-382 | compress keeps size and decoded words of a well-formed or already compressed bitmap |
| `Bitmaps.Bitmap.Uncompress` | src/datastruct/bitmap.cpp:384-415 | uncompress gives an uncompressed bitmap with exactly the decoded words |
| `Bitmaps.Bitmap.AndAssign` | src/datastruct/bitmap.cpp:99-147 | the result is And with the decoded operand whatever its form, flags included but for a compressed operand, where they stay only under a run of ones; the two logic errors leave the bitmap as it was |
| `Bitmaps.Bitmap.OrAssign` | src/datastruct/bitmap.cpp:176-224 | the result is Or with the decoded operand whatever its form, flags included but for a compressed operand, where they go only under a run of ones; the two logic errors leave the bitmap as it was |
| `Bitmaps.Bitmap.Cross` | src/datastruct/bitmap.cpp:632-693 | cross of an uncompressed bitmap is true exactly when the decoded words meet, as far as both go, whatever the form of the operand |
| `Bitmaps.Bitmap.Complement` | src/datastruct/bitmap.cpp:149-174 | a compressed bitmap decodes to the complement afterwards and stays valid; an uncompressed one has all 16 bits of each word flipped |
| `BitmapScan.AscendingIsExact` | src/datastruct/bitmap.cpp:289-293 | the reference listing holds exactly the set positions of the range, strictly increasing |
| `BitmapScan.BitSetIs` | src/datastruct/bitmap.cpp:289-293 | a position is set if and only if its word, divided by two to its place in the word, is odd |
| `BitmapScan.DescendingIsReversed` | src/datastruct/bitmap.cpp:513-597 | the backward reference listing is the forward one reversed |
| `BitmapScan.ScanWord` | src/datastruct/bitmap.cpp:476-511 | the bit loop over one word visits its set positions in order and stops where the callback says so |
| `BitmapScan.Foreach` | src/datastruct/bitmap.cpp:476-511 | with four-word and single zero words skipped, the callback still sees the set positions in order, up to the first it refuses |
| `BitmapScan.ListPosAsc` | src/datastruct/bitmap.cpp:599-630 | exactly the set positions are appended, in order |
| `BitmapScan.Rforeach` | src/datastruct/bitmap.cpp:513-597 | the callback sees the set positions backwards from the end the source really starts at |
| `BitmapScan.RforeachIsReverseIff` | src/datastruct/bitmap.cpp:513-597 | rforeach is the reverse of foreach if and only if the size is a multiple of 14 or the first padding bit is clear |
| `BitmapScan.RforeachStartsInPadding` | src/datastruct/bitmap.cpp:513-597 | for 13 bits filled with the byte 0xFF rforeach is not the reverse of foreach |
| `BitmapScan.PopcountIsCount` | src/datastruct/bitmap.cpp:306-313 | the population count is the number of set bits |
| `BitmapScan.GetCount` | src/datastruct/bitmap.cpp:847-869 | getCount is the number of set positions below the end its blocks reach plus the flag bits set in whole blocks, in a 32-bit counter that may wrap around |
| `BitmapScan.GetCountIsExactIff` | src/datastruct/bitmap.cpp:847-869 | that is the number of set positions of the bitmap if and only if no counted padding bit and no flag bit of a whole block is set |
| `BitmapScan.GetCountCountsPadding` | src/datastruct/bitmap.cpp:847-869 | for 43 bits filled with the byte 0x3F getCount is too large |
| `BitmapScan.OperatorsOnPositions` | src/datastruct/bitmap.cpp:99-224 | on well-formed words the operators are intersection, union and complement of positions |
| `BitmapScan.MeetsIsCommonPosition` | src/datastruct/bitmap.cpp:632-693 | cross is true exactly when the two bitmaps share a position |
| `BitmapIterators.ForwardIterator.Next` | src/datastruct/bitmap.cpp:721-747 | with size and position as int32_t: next moves to the next set position, or out of the range of positions when there is none, also where its skip wraps around |
| `BitmapIterators.ReverseIterator.Next` | src/datastruct/bitmap.cpp:759-790 | with size and position as int32_t: next moves to the next lower set position, or before the beginning when there is none |
| `BitmapIterators.CollectForward` | src/datastruct/bitmap.cpp:711-747 | stepping the iterator to its end yields exactly the set positions, increasing, below 2^31 bits, and nothing from there on |
| `BitmapIterators.CollectReverse` | src/datastruct/bitmap.cpp:749-790 | stepping the reverse iterator to its end yields exactly the reverse of that |
| `BitmapIterators.WalkIsCompleteIff` | src/datastruct/bitmap.cpp:711-790 | both iterators find every set position if and only if there are fewer than 2^31 bits or none is set |
| `BitmapIterators.HugeBitmapLooksEmpty` | include/datastruct/bitmap.h:103-107 | a bitmap of 2^31 bits filled with the byte 1 has bits set, and neither iterator finds one |
| `RunContainers.InterleavedBinarySearch` | include/datastruct/roaring.h:2188-2206 | the run that starts at the key, or the place where it would be |
| `RunContainers.FindRun` | include/datastruct/roaring.h:2208-2229 | the run that holds the key, or the place between the runs around it |
| `RunContainers.CountLess` | include/datastruct/roaring.h:2231-2249 | the number of leading runs that end before the key and do not touch it |
| `RunContainers.CountGreater` | include/datastruct/roaring.h:2251-2269 | the number of trailing runs that start after the key and do not touch it |
| `RunContainers.AddedIsUnion` | include/datastruct/roaring.h:2699-2733 | merging every touched run into one interval is set union and keeps runs sorted, disjoint and non-adjacent |
| `RunContainers.RemovedIsDifference` | include/datastruct/roaring.h:2757-2798 | cutting the outer runs and dropping the inner ones is set difference and keeps canonical form |
| `RunContainers.RunContainer.Contains` | include/datastruct/roaring.h:2332-2348 | true exactly when the value is in one of the runs |
| `RunContainers.RunContainer.ContainsRange` | include/datastruct/roaring.h:2350-2372 | for a start in the 16-bit universe: true exactly when the range is not empty and every value of it is present, although each run is undercounted; for a greater start the answer depends on the runs from its low half on |
| `RunContainers.FarRangeIsFound` | include/datastruct/roaring.h:2350-2372 | a range of one value beyond the universe is found wherever a run starts at its low 16 bits |
| `RunContainers.RunContainer.AddRange` | include/datastruct/roaring.h:2729-2733 | the container holds the union afterwards, in canonical form |
| `RunContainers.RunContainer.CutEnds` | include/datastruct/roaring.h:2769-2798 | the in-place shifts and cuts give exactly the specified runs in every case of the two searches |
| `RunContainers.RunContainer.RemoveRange` | include/datastruct/roaring.h:2753-2798 | the container holds the difference afterwards, in canonical form |
| `RunContainers.RunContainer.Remove` | include/datastruct/roaring.h:2295-2330 | the container loses exactly that value, and the answer says whether it was there |
| `ArrayContainers.BinarySearch` | include/datastruct/roaring.h:322-344 | the index of the key, or the place where it would be |
| `ArrayContainers.AdvanceUntil` | include/datastruct/roaring.h:346-388 | galloping ends and returns the first index after the position whose value is at least the bound, or the length |
| `ArrayContainers.RangeFills` | include/datastruct/roaring.h:1548-1562 | in a strictly increasing array the ends of a range are as far apart as its values exactly when the whole range is there |
| `ArrayContainers.ArrayContainer.Contains` | include/datastruct/roaring.h:1517-1547 | true exactly when the value is present |
| `ArrayContainers.ArrayContainer.ContainsRange` | include/datastruct/roaring.h:1548-1562 | both ends are cut to 16 bits: true exactly when the cut range is in order and every value of it is present, so false on a range the cut leaves empty, and a range to 0 ends at the largest value |
| `ArrayContainers.ArrayContainer.TryAdd` | include/datastruct/roaring.h:1470-1498 | adds the value and keeps the order, or says that it was there or that there is no room, and then changes nothing |
| `ArrayContainers.ArrayContainer.Remove` | include/datastruct/roaring.h:1505-1515 | removes exactly that value, and the answer says whether it was there |
| `DoIo.WaitInvStep` | src/hook.cpp:106-151 | every step keeps each waiting fiber in exactly one of three places: its registration, the run queue, or deleted by delEvent |
| `DoIo.CallInvStep` | src/hook.cpp:85-154 | every step keeps timers and timeout marks with the call that made them |
| `DoIo.TimedStep` | src/hook.cpp:103-147 | every step keeps for each timed wait a timer of its own that is past its check only if the call is marked |
| `DoIo.RunInv` | src/hook.cpp:85-154 | both hold, with the timers of timed waits, in every state of every interleaving of readiness, expiry, cancel, delete, close and resumption |
| `DoIoRuns.WaitingIsRegisteredOrQueued` | src/iomanager.cpp:81-91 | in every interleaving a waiting fiber is never both registered and queued, and is neither if and only if an earlier delEvent hit its slot while that held this registration |
| `DoIoRuns.QueuedAtMostOnce` | src/iomanager.cpp:138-188 | in every interleaving each successful addEvent puts its fiber into the queue at most once |
| `DoIoRuns.TimeoutIsOwn` | src/hook.cpp:103-147 | a call ends with ETIMEDOUT only after the callback of a timer of that same call has taken effect |
| `DoIoRuns.NoTimerOutlivesItsWait` | src/timer.cpp:37-48 | a timer still in the timer set belongs to a fiber that is still in the wait it was set for |
| `DoIoRuns.TimeoutAheadIff` | src/hook.cpp:103-147 | in every interleaving a timed wait has a timeout ahead of it if and only if its call is not marked, or the callback that marked it has still to cancel this very slot |
| `DoIoRuns.TimeoutStaysLost` | src/hook.cpp:124-127 | a wait without a timeout ahead never gets one |
| `DoIoRuns.TimeoutIsLost` | src/hook.cpp:124-127 | a run in which the callback of the first wait marks the call after the wake-up test, and the second, timed wait is parked and registered with no timeout ahead |
| `DoIoRuns.StrangerIsWokenIff` | src/hook.cpp:119-129 | in every interleaving the callback of a timer wakes a fiber of another call if and only if cancelEvent goes through, the slot is taken and nobody of its own call is registered there; it never marks the other call |
| `DoIoRuns.WokenBySlot` | src/iomanager.cpp:81-91 | in every interleaving a fiber that waits registered on a slot is queued, by exactly its own registration, when the slot becomes ready and when any callback cancels it, whatever call the fiber is in; it is then no longer registered |
| `DoIoRuns.QueueMoves` | src/iomanager.cpp:81-91 | the queue gets the registration of a taken slot on readiness and on a cancel that goes through, and nothing at any other step; a worker takes one entry out and keeps the order of the others |
| `DoIoRuns.SlotMoves` | src/iomanager.cpp:138-222 | a slot is taken by the fiber that registers on it and emptied by readiness, a cancel that goes through and delEvent, and by nothing else |
| `DoIoRuns.FiberMoves` | src/hook.cpp:109-152 | in every interleaving a fiber moves along doIo by its own steps only: after a wake-up a marked call ends and an unmarked one tries again with the same key and timeout |
| `DoIoRuns.TimerMoves` | src/hook.cpp:119-147 | a timer leaves the set by expiring, or when the fiber that armed it wakes up or cannot register; its callback goes on to cancelEvent exactly when it finds its call going on and unmarked |
| `DoIoRuns.TimerBegins` | src/hook.cpp:119-131 | a timer begins exactly when a fiber whose call is timed is about to register, with that call and that slot |
| `DoIoRuns.EndedIff` | src/hook.cpp:110-152 | in every interleaving a call has ended in a way if and only if one of its steps ended it so: a system call that does not block, a failed registration, or a wake-up that finds the call marked |
| `DoIoRuns.MarkedIff` | src/hook.cpp:122-128 | in every interleaving a call is marked by a timer if and only if the callback of that timer made its check while the call went on and was unmarked |
| `DoIoRuns.NumbersMove` | src/iomanager.cpp:138-188 | calls, timers and registrations are numbered in the order in which they are made |
| `DoIoRuns.NextStepIsOpen` | src/hook.cpp:109-152 | in every state of every run each fiber has its next step open, a registering one unless the slot is taken and a parked one once it is queued; so has every timer that is not over |
| `DoIoRuns.StrangerIsWoken` | src/hook.cpp:119-129 | a run in which the callback of a call that has returned wakes another fiber, whose wait has no timeout |
| `DoIoRuns.DelEventStrands` | src/iomanager.cpp:190-222 | a run in which delEvent leaves a parked fiber neither registered nor queued |
| `Scheduling.TakeEntry` | src/scheduler.cpp:163-188 | the scan takes the first entry the thread may take, leaves the rest in order, and asks for a wake-up exactly when it left something for others |
| `Scheduling.ScheduleAll` | include/scheduler.h:67-77 | a batch is appended in order, and a wake-up is asked for exactly when the queue was empty and the batch is not |
| `Scheduling.InvStep` | src/scheduler.cpp:159-241 | every step keeps the active count, that a fiber in state Execute is run by some worker, that every ticket is queued or taken once and only by a worker that may take it, and that workers leave only when stopping |
| `Scheduling.CountIsExact` | src/scheduler.cpp:176-201 | in every run the active count is the number of workers between their increment and its decrement |
| `SchedulingRuns.TwoWorkersIff` | src/scheduler.cpp:176-201 | in every run two workers hold one fiber at some time if and only if one switched to it while the other held it and the test of swapIn let it through, because the other had written its state but not yet switched back, or ran the fiber with Holding written over its state by a third, or switched to it only after the test |
| `SchedulingRuns.SwapInFailsIff` | src/fiber.cpp:87-99 | in every run the assertion of swapIn fails if and only if the fiber is in state Execute, and then another worker runs it |
| `SchedulingRuns.EarlyResume` | src/fiber.cpp:128-140 | a run in which a fiber scheduled while it ran is taken between the write of its state and the switch back |
| `SchedulingRuns.LateHolding` | src/scheduler.cpp:195-201 | a run in which nobody is in that gap, and the Holding written after the switch back lets a second worker in |
| `SchedulingRuns.BothEnter` | src/fiber.cpp:87-99 | a run in which two workers take two entries of a fiber and both pass the test before either writes the state |
| `Scheduling.TakenOnceByItsThread` | src/scheduler.cpp:163-188 | in every run each entry is queued or taken, not both, and a pinned entry only by its thread |
| `Scheduling.TakenStays` | src/scheduler.cpp:163-188 | who took an entry never changes later |
| `SchedulingHistory.TicketsCount` | src/scheduler.cpp:263-273 | in every run the next ticket is the number of entries that schedule and the requeue of a ready fiber have made |
| `SchedulingHistory.EntryIsMade` | src/scheduler.cpp:195-198 | in every run the n-th of these makes the entry with ticket n, with what its step asked to be run and where, and for a fiber given up ready with that fiber and no thread; the entry stays queued or taken as it is |
| `SchedulingHistory.EntryWasMade` | src/scheduler.cpp:263-273 | every entry queued or taken was made by the step that its ticket counts |
| `SchedulingHistory.QueueInOrder` | src/scheduler.cpp:263-273 | in every run the queue is in the order in which its entries were made |
| `SchedulingHistory.TakenIff` | src/scheduler.cpp:163-188 | in every run a worker has taken an entry if and only if a take of that worker found it in the queue |
| `SchedulingHistory.TakesFirstFit` | src/scheduler.cpp:163-188 | in every run a worker takes the first entry that is not pinned to another thread and not a fiber in state Execute, and goes idle when there is none |
| `SchedulingHistory.StoppingIff` | src/scheduler.cpp:64-107 | the scheduler is stopping if and only if it was told to |
| `SchedulingHistory.IdleOverIff` | src/scheduler.cpp:263-273 | the idle fiber of a worker has ended if and only if it once found the queue empty and nobody active after the stop |
| `SchedulingHistory.WorkerMovesOn` | src/scheduler.cpp:159-241 | in every run a worker goes round the loop by its own steps only, and requeues, drops or holds its fiber by the state it finds |
| `SchedulingHistory.FiberMovesOn` | src/scheduler.cpp:190-201 | in every run the state of a fiber is written by the switch to it, by its own yield and by the late Holding only |
| `SchedulingHistory.FiberBegins` | src/scheduler.cpp:202-216 | a fiber begins, in state Execute, exactly when a worker runs a callback |
| `SchedulingHistory.FailedIff` | src/fiber.cpp:87-140 | in every run an assertion has failed if and only if the last step was a swapIn to a fiber in state Execute or a yield of one that was not |
| `SchedulingHistory.WorkerStepIsOpen` | src/scheduler.cpp:159-241 | in every state of a run that goes on each worker that has not left has a step open |
| `Scheduling.LastWorkerLeavesNothing` | src/scheduler.cpp:136-145 | once every worker has left run nothing is in hand and the count is zero, and an unpinned entry is queued if and only if someone scheduled one from outside after that |
| `Scheduling.StrandedStep` | src/scheduler.cpp:263-273 | such an entry stays queued for good |
| `SchedulingRuns.LateOutsiderStrands` | src/scheduler.cpp:64-107 | a run in which that happens |
| `Scheduling.DeadPinStep` | src/scheduler.cpp:163-188 | no step takes an entry pinned to a worker that has left, or ends an idle fiber while it is queued |
| `Scheduling.DeadPinBlocksStop` | src/scheduler.cpp:136-145 | in every run such an entry stays queued, the scheduler is never found stopping again, and no worker whose idle fiber had not ended by then ever leaves |
| `SchedulingRuns.RequeuedFiberBlocksStop` | src/scheduler.cpp:195-198 | a run in which that happens with nothing scheduled from outside after the stop: a requeued fiber pins a callback to a worker that has left |
| `Timers.LessIsOrder` | src/timer.cpp:7-24 | the comparator is a strict total order on timers and the null pointer, which comes first |
| `Timers.InsertKeeps` | src/timer.cpp:169-180 | insertion keeps the set in order, adds exactly the timer, and puts it first exactly when it is before all others |
| `Timers.UnarmedStaysSilent` | src/timer.cpp:37-48 | over any history of calls a timer without a callback is never handed out again |
| `Timers.OneShotOnce` | src/timer.cpp:131-167 | over any history of calls a one-shot timer is handed out at most once |
| `Timers.TimerManager.AddTimer` | src/timer.cpp:95-100 | a timer at any unused address is set and in the set, and the loop is notified exactly when the timer is before all others, by address on equal deadlines, and no notification is outstanding |
| `Timers.TimerManager.InsertTimer` | src/timer.cpp:169-180 | a timer is in the ordered set exactly when it has a callback, and the front is reported once |
| `Timers.TimerManager.Cancel` | src/timer.cpp:37-48 | the timer loses its callback and leaves the set; the answer says whether it had one |
| `Timers.TimerManager.Refresh` | src/timer.cpp:50-63 | an armed timer gets its new deadline while it is out of the set, and nothing else changes |
| `Timers.TimerManager.Reset` | src/timer.cpp:65-88 | an armed timer gets its new period and deadline from its old start or from now, except that an unchanged period is answered at once |
| `Timers.TimerManager.GetNextTimer` | src/timer.cpp:117-129 | zero when a timer is due, otherwise exactly the time to the earliest deadline, and the largest number when there is none |
| `Timers.TimerManager.DetectRollover` | src/timer.cpp:182-189 | a rollover is a step back of more than an hour; while the last time is below one hour the bound wraps around and every step back is one |
| `Timers.TimerManager.ExpiredPrefix` | src/timer.cpp:131-167 | the prefix cut off is exactly the timers whose deadline is not after now |
| `Timers.TimerManager.ListExpired` | src/timer.cpp:131-167 | hands out exactly the armed timers that are due (all of them after a rollover, which includes any step back below one hour) in deadline order; a recurring one stays armed with its period and the deadline now + period, any other keeps its deadline and period and loses its callback, and the rest are unchanged |
| `Sleeping.EpollTimeoutIsBounded` | src/iomanager.cpp:330-346 | below 2^31 ms the loop waits for the time asked for but at most three seconds; beyond, for the low 32 bits of it or three seconds, and for ever exactly when these are negative as a number |
| `Sleeping.GuardedStep` | src/iomanager.cpp:299-346 | every step keeps a sleeping loop either about to be woken or covered by its timeout |
| `Sleeping.TimerMoves` | src/timer.cpp:131-167 | in every run a timer that is not due survives the collection as it is, a due recurring one starts again from the time of the collection, and any other due one is gone; otherwise only add, cancel, refresh and reset change it |
| `Sleeping.TimerStays` | src/timer.cpp:131-167 | over every stretch of a run in which nobody touches a timer and no collection reaches its deadline it stays as it is |
| `Sleeping.WakeUpMoves` | src/timer.cpp:169-180 | a timer put in front asks for a wake-up unless one was asked for since the last choice of a timeout; the byte is written while the loop is idle and read on its way out |
| `Sleeping.LoopMoves` | src/iomanager.cpp:320-401 | the loop goes from choosing a timeout to sleeping, collecting and draining the pipe, by its own steps only |
| `Sleeping.ChoosesWait` | src/iomanager.cpp:330-346 | the timeout chosen is three seconds without timers, none when the earliest deadline has passed, and below 2^31 ms the time to it but at most three seconds |
| `Sleeping.WakesInTime` | src/iomanager.cpp:316-346 | in every interleaving a thread asleep in epoll_wait has a wake-up pending or about to be written, or has no limit, or wakes at once, or wakes by each deadline plus the time that passed between computing the timeout and (re)entering epoll_wait |
| `Sleeping.WakesInTimeIff` | src/iomanager.cpp:316-346 | in every interleaving it wakes by a deadline if and only if the time between the last choice of the timeout and the last entry into epoll_wait is within what the deadline leaves; for the timer the timeout was computed for, if and only if no time passed between the two |
| `Sleeping.SleepIsBounded` | src/iomanager.cpp:332-340 | in every run whose periods are below 2^31 ms it never sleeps without limit, nor longer than three seconds at a time |
| `Sleeping.SleepsForeverIff` | src/iomanager.cpp:330-340 | in every interleaving it sleeps without limit if and only if the wait at the last choice is negative as a 32-bit number |
| `Sleeping.LongTimerBlocks` | src/iomanager.cpp:330-346 | a run with one timer of 2^31 ms in which it sleeps without limit and no wake-up is pending |
| `Sleeping.InterruptOversleeps` | src/iomanager.cpp:340-346 | a run in which a signal restarts the whole timeout and the loop sleeps past a deadline with no wake-up pending |
| `EventLedger.OpenedBalanced` | src/iomanager.cpp:138-188 | a new registration leaves every earlier one where it was |
| `EventLedger.QueuedBalanced` | src/iomanager.cpp:81-91 | a trigger moves exactly one live registration to the end of what was scheduled |
| `EventLedger.DroppedBalanced` | src/iomanager.cpp:190-222 | a delete moves exactly one live registration to the dropped ones |
| `EventLedger.Conservation` | src/iomanager.cpp:138-295 | registrations made = still pending + scheduled + deleted |
| `IoManagers.MaskWatches` | src/iomanager.cpp:138-295 | changing one descriptor's kernel mask together with its slots keeps the kernel watching exactly the registered events |
| `IoManagers.IoManager.AddEvent` | src/iomanager.cpp:138-188 | registers a free slot if epoll_ctl agrees, changes nothing if it does not, and fails its assertion exactly on a slot in use |
| `IoManagers.IoManager.DelEvent` | src/iomanager.cpp:190-222 | ends a live registration without scheduling it if epoll_ctl agrees, and otherwise changes nothing |
| `IoManagers.IoManager.CancelEvent` | src/iomanager.cpp:224-255 | ends a live registration by scheduling it once if epoll_ctl agrees, and otherwise changes nothing |
| `IoManagers.IoManager.CancelAll` | src/iomanager.cpp:257-295 | schedules the read and then the write registration of the descriptor, and none is left |
| `IoManagers.IoManager.FireAll` | src/iomanager.cpp:393-400 | triggers every due event once; the assertion holds exactly when all of them are registered |
| `IoManagers.IoManager.Deliver` | src/iomanager.cpp:361-401 | the read registration of the descriptor is scheduled if and only if In, Err or Hup is reported, the write one if and only if Out, Err or Hup is, and every other slot stays; triggerEvent's assertion fails if and only if the report overlaps the registered events without being among them and epoll_ctl agrees |
| `IoManagers.IoManager.Accounted` | src/iomanager.cpp:81-91 | in every reachable state the pending counter, the jobs handed out and the deleted registrations add up to those made |
| `IoManagers.StaleReportAborts` | src/iomanager.cpp:361-401 | with both events registered, a report for both that is delivered after one was deleted fails the assertion |
| `ByteTapes.WrittenBytes` | src/datastruct/bytearray.cpp:128-161 | a write changes exactly the bytes under the cursor; every other byte stays |
| `ByteTapes.FlatOverwrite` | src/datastruct/bytearray.cpp:128-161 | writing inside one chunk is writing at its place in the flat sequence |
| `ByteTapes.FlatRead` | src/datastruct/bytearray.cpp:163-190 | reading inside one chunk is reading at its place in the flat sequence |
| `ByteTapes.Locate` | src/datastruct/bytearray.cpp:128-190 | the chunk of a position, and where a move inside the chunk or to its end leads |
| `ByteArrays.ByteArray.constructor` | src/datastruct/bytearray.cpp:34-41 | one chunk of zeros, cursor and size at zero, big endian |
| `ByteArrays.ByteArray.AddCapacity` | src/datastruct/bytearray.cpp:262-291 | appends just as many zero chunks as are missing, keeps the bytes, and sets the cursor node if there was none |
| `ByteArrays.ByteArray.Write` | src/datastruct/bytearray.cpp:128-161 | the chunked write refines the flat one: bytes, position, size, capacity and cursor node |
| `ByteArrays.ByteArray.Read` | src/datastruct/bytearray.cpp:163-190 | throws exactly when fewer bytes are left and then changes nothing; otherwise returns the next bytes and moves past them |
| `ByteArrays.ByteArray.ReadAt` | src/datastruct/bytearray.cpp:192-225 | the bytes at a position of the data, or an exception exactly when they run past its end; beyond the data what is left wraps around, and whatever the chunks hold is returned |
| `ByteArrays.ByteArray.SetPosition` | src/datastruct/bytearray.cpp:244-260 | throws exactly beyond the capacity; otherwise the cursor is there, on the right node, and the size is raised if need be |
| `ByteArrays.ByteArray.Clear` | src/datastruct/bytearray.cpp:231-242 | one chunk stays, with its bytes, and cursor and size are zero |
| `ByteArrays.ByteArray.GetReadBuffers` | src/datastruct/bytearray.cpp:373-402 | the pieces handed out lie inside their chunks and together are the next bytes, as many as asked for or all that are left |
| `ByteCodec.VarRoundTrip` | src/datastruct/bytearray.cpp:96-122 | reading a varint gives back any value below the word size and uses exactly its bytes, whatever follows |
| `ByteCodec.VarByte` | src/datastruct/bytearray.cpp:74-94 | byte i of a varint is the i-th group of seven bits, with the top bit set in all but the last, and the last group is not zero but for the number 0 |
| `ByteCodec.ReadVarStops` | src/datastruct/bytearray.cpp:96-122 | whatever bytes come in, reading stops behind the first byte without the top bit or when the word is full, and runs out exactly when the data ends before that |
| `ByteCodec.ReadVarValue` | src/datastruct/bytearray.cpp:96-122 | whatever bytes come in, the value read is what their groups of seven bits spell, modulo the word size |
| `ByteCodec.ReadVarFits` | src/datastruct/bytearray.cpp:96-122 | whatever bytes come in, the value read fits the word and no more bytes are used than there are |
| `ByteCodec.VarLength` | src/datastruct/bytearray.cpp:74-94 | the scratch buffers of 5 and 10 bytes are long enough |
| `ByteCodec.ZigzagValue` | src/datastruct/bytearray.cpp:58-64 | with wrapping arithmetic the code of v is 2v or -2v-1, the most negative number included |
| `ByteCodec.ZigzagRoundTrip` | src/datastruct/bytearray.cpp:58-68 | decoding the code gives the number back |
| `ByteCodec.ZigzagOnto` | src/datastruct/bytearray.cpp:58-68 | every word is the code of the number it decodes to |
| `ByteCodec.StoredIsPortable` | include/datastruct/bytearray.h:278-290 | the bytes of a fixed-width integer do not depend on the byte order of the machine |
| `ByteCodec.StoredByte` | include/datastruct/bytearray.h:278-290 | byte i of an n-byte integer v is v / 256^i % 256 in little endian and v / 256^(n-1-i) % 256 in big endian, on a machine of either order |
| `ByteCodec.FixedRoundTrip` | include/datastruct/bytearray.h:223-236 | a machine of either byte order reads back what a machine of either byte order wrote |
| `ByteScripts.NumberRoundTrip` | include/datastruct/bytearray.h:205-236 | an integer of any width, sign and encoding and the bits of a floating-point number are read back, whatever follows |
| `ByteScripts.IntegerBytes` | include/datastruct/bytearray.h:278-290 | an integer of n bytes takes n bytes, and byte i is the i-th digit in base 256 of its two's complement, from the low end in little endian and from the high end in big endian |
| `ByteScripts.FloatBytes` | include/datastruct/bytearray.h:291-296 | a floating-point number is written in the same way from its bits |
| `ByteScripts.VariableBytes` | include/datastruct/bytearray.h:261-277 | an integer of variable length is the varint of v, or of 2v or -2v-1 when signed |
| `ByteScripts.TextBytes` | include/datastruct/bytearray.h:246-260 | a string is its bytes behind its length in two, four or eight bytes, byte i of which is the digit in base 256 that the byte order asks for |
| `ByteScripts.VarTextBytes` | include/datastruct/bytearray.h:246-260 | with a varint prefix a string is the varint of its length and its bytes |
| `ByteScripts.BareTextBytes` | include/datastruct/bytearray.h:246-260 | without a prefix a string is its bytes alone |
| `ByteScripts.NumberRead` | include/datastruct/bytearray.h:205-236 | from any bytes, a fixed-width number is read exactly when there are enough, and a varint gives a number of its type that agrees with what was spelled modulo the range of the type |
| `ByteScripts.TextRead` | include/datastruct/bytearray.h:184-204 | from any length and bytes behind it, a string is read exactly when so many bytes follow, and otherwise only the prefix is used up |
| `ByteScripts.ShortTextRead` | include/datastruct/bytearray.h:184-204 | with fewer than two, four or eight bytes for the prefix nothing is used up |
| `ByteScripts.WholeTextRead` | include/datastruct/bytearray.h:184-204 | without a prefix a string is all that is left |
| `ByteScripts.VarTextRead` | include/datastruct/bytearray.h:184-204 | with a varint prefix a string is read exactly when the varint is whole and so many bytes follow |
| `ByteScripts.StringRoundTrip` | include/datastruct/bytearray.h:184-204 | a string is read back if and only if its length fits its prefix or, without a prefix, nothing follows it |
| `ByteScripts.LongStringIsLost` | include/datastruct/bytearray.h:247-259 | a string of 65536 bytes with a two-byte prefix is read back as the empty string |
| `ByteScripts.ScriptRoundTrip` | include/datastruct/bytearray.h:184-298 | reading a script of typed values back gives them if and only if every string length fits its prefix and nothing follows a string without one, and then uses exactly the bytes written |
| `ByteIo.FillVar` | src/datastruct/bytearray.cpp:74-83 | the loop fills the scratch buffer with the specified bytes and never past its end |
| `ByteIo.WriteVaruint` | src/datastruct/bytearray.cpp:74-94 | puts exactly the varint under the cursor |
| `ByteIo.ReadVaruint` | src/datastruct/bytearray.cpp:96-122 | reads what the specification reads, byte by byte, also when the data runs out |
| `ByteIo.WriteItem` | include/datastruct/bytearray.h:246-298 | each typed write puts exactly its encoding under the cursor, whose bytes `ByteScripts.IntegerBytes`, `FloatBytes`, `VariableBytes` and `TextBytes` give one by one |
| `ByteIo.ReadItem` | include/datastruct/bytearray.h:184-243 | each typed read returns the decoded value or throws, and leaves the cursor after what it consumed |
| `ByteIo.Replay` | include/datastruct/bytearray.h:184-298 | on the chunked array: write a script over the data at the cursor, seek back, read it; the values return if and only if every string length fits its prefix and nothing, old data included, follows a string without one, and then the cursor is where the writes left it |
| `LruSpec.RunOrder` | include/datastruct/timed_lru_cache.h:68-106 | over every run of operations the entries stand in the order of their last use, the latest first |
| `LruSpec.RunValues` | include/datastruct/timed_lru_cache.h:68-106 | over every run an entry holds the value and the deadline its key was last set to |
| `LruSpec.RunSize` | include/datastruct/timed_lru_cache.h:210-227 | over every run with a limit the size is at most the room the limit and its elasticity leave |
| `LruSpec.RoomIs` | include/datastruct/timed_lru_cache.h:159-159 | that room is maxSize + max(elasticity - 1, 0), or maxSize alone where the sum of the two wraps around at 64 bits |
| `LruSpec.RunPresence` | include/datastruct/timed_lru_cache.h:68-126 | over every run a key is present if and only if it was set, was not deleted or expired since, and no later insertion pruned it, which takes maxSize - 1 more recently used keys |
| `TimedLruCaches.CacheSize` | include/datastruct/timed_lru_cache.h:210-227 | the map has as many entries as the recency list |
| `TimedLruCaches.TimedLruCache.Set` | include/datastruct/timed_lru_cache.h:68-85 | the new order is the specified one; map, recency list and deadline set hold the same items; evictions come from the back |
| `TimedLruCaches.TimedLruCache.Rewrite` | include/datastruct/timed_lru_cache.h:72-79 | an item changes its deadline only while it is out of the deadline set, which stays sorted |
| `TimedLruCaches.TimedLruCache.Get` | include/datastruct/timed_lru_cache.h:87-113 | a hit returns the entry's value and brings it to the front; a miss changes nothing |
| `TimedLruCaches.TimedLruCache.Del` | include/datastruct/timed_lru_cache.h:115-126 | exactly that entry leaves all three, and the answer says whether it was there |
| `TimedLruCaches.TimedLruCache.Prune` | include/datastruct/timed_lru_cache.h:210-227 | below maxSize + elasticity, a 64-bit sum, nothing happens; otherwise the least recently used go, in that order, until maxSize are left |
| `TimedLruCaches.TimedLruCache.CheckTimeout` | include/datastruct/timed_lru_cache.h:190-207 | exactly the entries whose deadline is not after the time go, in deadline order, and are counted |
| `HashMaps.BinarySearch` | include/datastruct/util.h:208-218 | the index of the key, or the end exactly when it is absent |
| `HashMaps.SortLast` | include/datastruct/util.h:220-232 | bubbling the last element down leaves the prefix sorted, rearranged only, and the rest untouched |
| `HashMaps.SortBucket` | include/datastruct/hash_map.h:122-122 | sorting a bucket gives the same nodes in order |
| `HashMaps.BasketExceedsIff` | include/datastruct/util.h:201-206 | a rehash leaves more buckets than keys if and only if there are fewer than 2^30 keys |
| `HashMaps.BasketIs` | include/datastruct/util.h:201-206 | the basket size is the least power of two above a positive number of keys below 2^29, 2^30 from there on, and 1 otherwise |
| `HashMaps.RateIsExact` | include/datastruct/hash_map.h:285-287 | the rate as a float is above 16 exactly when there are more than 16 keys a bucket, up to 2^20 - 1 buckets, and not at 2^20 |
| `HashMaps.HashMap.constructor` | include/datastruct/hash_map.h:22-26 | an empty map |
| `HashMaps.HashMap.Get` | include/datastruct/hash_map.h:54-66 | the mapped value, or none exactly when the key is absent |
| `HashMaps.HashMap.Exists` | include/datastruct/hash_map.h:68-76 | true exactly when the key is in the map |
| `HashMaps.HashMap.Set` | include/datastruct/hash_map.h:78-103 | the map is updated at that key, through a rehash if one is due; the answer says whether the key is new |
| `HashMaps.HashMap.Del` | include/datastruct/hash_map.h:107-126 | the map loses exactly that key; the answer says whether it was there |
| `HashMaps.HashMap.Merge` | include/datastruct/hash_map.h:143-154 | the map becomes the union, the other table winning, also when both are the same table |
| `HashMaps.HashMap.Rehash` | include/datastruct/hash_map.h:156-161 | the map is unchanged; a table of fewer than 2^20 buckets gets the basket size of its keys if and only if it holds more than sixteen keys per bucket |
| `HashMaps.HashMap.RehashUnlock` | include/datastruct/hash_map.h:255-275 | the map is unchanged, every bucket is sorted again and each key is in its new bucket |
| `Semaphores.FiberSemaphore.TryWait` | src/mutex.cpp:31-41 | takes a permit exactly when there is one |
| `Semaphores.FiberSemaphore.Wait` | src/mutex.cpp:43-54 | takes a permit, or parks at the back exactly when there is none; permits are conserved |
| `Semaphores.FiberSemaphore.Notify` | src/mutex.cpp:56-65 | the permit goes to whoever parked first, or back; never are there permits and waiters at once |
| `WorkerGroups.InvStep` | src/worker.cpp:20-37 | every step keeps permits + callbacks on their way + callbacks in flight + permits held by waitAll equal to the batch size |
| `WorkerGroups.InFlightBound` | src/worker.cpp:20-28 | over every run at most a batch of callbacks is in flight |
| `WorkerGroups.NothingAfterWaitAll` | src/worker.cpp:30-37 | once waitAll has returned to its first caller nothing is in flight, then or later |
| `WorkerGroups.WaitersMeanFull` | src/mutex.cpp:43-65 | someone waits only while every permit is in use |
| `WorkerGroups.ServedInOrder` | src/mutex.cpp:43-65 | over every run those who have to wait are served in the order in which they came, and nobody else leaves or jumps in |
| `WorkerGroups.PermitMoves` | src/mutex.cpp:43-65 | over every run a callback that returns gives its permit to the first waiter, and back only when nobody waits |
| `WorkerGroups.CollectorMoves` | src/worker.cpp:30-37 | the caller of waitAll takes a permit if one is free, parks if none is, goes on when it is handed one, and returns once it has as many as the batch |
| `WorkerGroups.LateWaitAllReturnsEarly` | src/worker.cpp:30-37 | for every batch size above zero, a run in which a second waitAll returns at once with a callback in flight |
| `WorkerGroups.LateWaitAllIff` | src/worker.cpp:30-37 | over every run a later waitAll changes nothing, and finds nothing in flight if and only if the free permits and those the first caller holds are all of the batch |

## Left out

- `Bitmap::any`, `resize`, `operator==`, `toString`, and `getCount` of a compressed bitmap: their tail masks and unshifted chunk sums do not meet the set specification.
- Word widths other than the default 16 bits are not modelled.
- Bitmaps.Bitmap.Cross: operands whose words would be read past their end are excluded; the source does not reject them.
- BitmapScan.ListPosAsc: shares the walk of foreach instead of repeating its loops.
- BitmapIterators.ForwardIterator.Next: stated for uncompressed bitmaps; the iterators of a compressed one are not modelled.
- Roaring containers grow their buffers; the model keeps the runs and values in sequences and does not capture capacity. SIMD paths and operations that the header only declares are not part of this model.
- ArrayContainers.ArrayContainer.ContainsRange: what the truncation makes of ends beyond the universe is stated as it is, not as a range of such values.
- `connect_with_timeout`, the sleep hooks, `fcntl` and `ioctl`: thin wrappers around the same wait.
- The fiber switch itself (ucontext), thread-local current fibers and memory ordering. In `Scheduling` what a worker reads of the state after the switch back is one step, and so are the assertion and the write of a yield.
- DoIo.WaitInvStep: a fiber is resumed only once it has parked; a resume before that is what `SchedulingRuns.TwoWorkersIff` is about.
- A worker's callback fiber is reused by the source; `Scheduling` gives each callback a new fiber.
- Sleeping.WakesInTime: one idle thread, a clock that does not go back, and deadlines that do not wrap around at 64 bits.
- Timers.TimerManager.AddTimer: the weak-reference condition of `addConditionTimer` is part of `DoIo`, not of the timer set.
- IoManagers.IoManager.AddEvent: growing the descriptor table is one step, so the race between its two locks is not captured; descriptors are not negative, and closing a descriptor in the kernel is not modelled.
- IoManagers.IoManager.Deliver: says nothing about the state after a failed assertion, since the program ends there.
- ByteArrays.ByteArray.AddCapacity: the number of chunks is computed exactly; the source divides as double, which differs only beyond 2^53 bytes.
- ByteArrays.ByteArray.Read: reading zero bytes where the cursor node is null, and ByteArrays.ByteArray.ReadAt past the last chunk, follow a null pointer in the source and are excluded.
- ByteArrays.ByteArray.GetReadBuffers: the overload with a position, `getWriteBuffers`, files and hex printing are left out.
- ByteScripts.ScriptRoundTrip: a floating-point number stands for its bits; a length too large to allocate throws before the read does in the source, and both are the same exception here.
- TimedLruCaches.TimedLruCache.Set: keys are integers, the current time is a parameter, and statistics are left out; `LruCache`, `HashLruCache` and `HashTimedLruCache` would only add easier members.
- `TimedCache`, `HashMultimap` and `HashMap::clear` do not keep their own counts or indexes in step.
- HashMaps.HashMap.Set: keys are integers, calls do not overlap, there are fewer than 2^53 keys, and `std::sort` is an insertion sort.
- WorkerGroups.NothingAfterWaitAll: callbacks return normally.
- HTTP, WebSocket, Rock, ORM, database, socket, logging, configuration and daemon code is not part of this model.
