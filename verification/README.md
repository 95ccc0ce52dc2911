# A Dafny model of the LLFS core

LLFS is a storage library: a page cache shared by threads, an io_uring run loop, buffer pools and
zero-copy streams on top of it, a write-ahead log kept in a ring buffer and recovered from block images,
page jobs that commit reference-count changes in a pipeline, and a packer for records with variable-size
data. This project models the parts of it where correctness depends on an argument over whole runs, whole
data structures or exact arithmetic, and proves those arguments with the Dafny verifier.

`dafny verify dfyconfig.toml` checks all files together.

## How the source is modelled

- Lock-free and concurrent code (cache slot, bit set inserts, run loop, stream, commit pipeline) is a state
  machine. Every atomic read-modify-write, lock region, wait and notification is a step of its own, a
  thread's program counter says which comes next, and a run is any sequence of steps of any threads that is
  enabled. Theorems quantify over all runs. Memory is sequentially consistent.
- Objects that a mutex or a single owner protects (bit set, buffer pool, fragment, ring log, interval map,
  recovery, arena, packer, reader) are classes with the source's fields. Each method is proved against a
  value-level specification, and the properties are proved of that specification.
- Run-time checks of the source that would end the process are either proved (an `assert` in a method, a
  `panicked` flag that never gets set) or appear as an outcome whose exact condition is proved.
- The iteration order of hash maps and sets is left open: elements are taken in any order.
- System calls, clocks, and the choice of which waiter a notification wakes are inputs of the machines.

## Where a promise holds only under a condition

- `is_pinned` counts outstanding pins modulo 2^30. A carry bit is never lost, because each one left set means
  a thread that has yet to clear it, and there are fewer than 2^30 threads. A run of two threads reaches 2^30
  pins, and there an eviction goes through under all of them (`CacheSlotLimit.AtTheLimitPinsFail`).
- The run loop never sleeps on a ready handler if a transfer may take at least one event and `reset` is not
  called while a thread is leaving `run` with a handler in hand. Without either, runs in which a handler is
  stranded are given (`IoRingProgress.NoTransferLimitStrands`, `IoRingProgress.ResetStrands`): a thread that
  leaves with a handler puts it back without a notification, which its comment
  (src/llfs/ioring_impl.cpp:335) justifies by the loop not being runnable, and a `reset` in between makes it
  runnable. A `reset` at any other moment is safe, also with threads inside `run`. Under the same conditions one
  thread in the loop gets every ready handler done (`IoRingDrain.EveryReadyHandlerRuns`).
- `consume` gives exact ranges if consumers' ranges are disjoint and no empty range starts where one that is not
  empty does. Where that happens the consume position can move backwards (`StreamRuns.SharedStartRegresses`,
  `StreamRuns.EmptyRangeRegresses`).
- The check in `size` never fails while all consumers use `consume` in that way. `consume_some` may take bytes
  before their commit is counted; then the check does not fail if at some moment between its two loads no
  commit is under way, and right after a `consume_some` it fails exactly if one is
  (`StreamRuns.SizeIsSafeIfQuiet`, `StreamRuns.SizeAfterSwap`, `StreamRuns.SizeCheckCanFail`).
- `consume_some` returns something if nobody else consumed since it loaded the consume position; otherwise it may
  return nothing (`StreamResults.SwapReturnsRest`, `StreamResults.SwapCanBeEmpty`). A consumer that is turned away
  has missed nothing if nothing is pushed after `close` (`StreamResults.ClosedMeansDrained`,
  `StreamResults.LatePushIsMissed`).
- Jobs in the commit pipeline are held up only by a job that failed before setting the caller's slot
  (`CommitProgress.OnlyFailuresBlock`).
- `advance_flush_pos` clamps every delta but the least 64-bit integer (`SlotMath.ClampBySlotsExact`).
- Recovery's check on the first committed interval fails exactly when the trim position has no committed data
  but the window behind it has (`LogRecovery.GapAtTrim`).
- Recovery computes the size of a slot as a 64-bit word. Its scan ends behind the last whole slot if and only if
  no header behind whole slots claims 2^64 bytes or more in a way that wraps to a size that fits
  (`SlotScan.ScanIsExact`); ten bytes on which it ends inside a header are given (`SlotScan.FalseSlot`). It ends
  at all if and only if no header it meets claims a body of exactly 2^64 bytes less its own size
  (`SlotScan.EndsIff`, `SlotScan.EndlessScan`). On data that the slot writer wrote, cut off anywhere, neither
  happens (`SlotScan.TornLogIsScanned`).
- The check on deleted pages fails exactly when a new page refers to one, and the allocator's own checks fail
  exactly when a page of count one that is not deleted gains a reference. Jobs that do so are given, on a page
  that two ordinary jobs leave behind (`PageRefCounts.DeletedCheckCanFail`,
  `PageRefCounts.AllocatorCheckCanFail`).
- `pack_string` keeps 24 bits of offset and size. Its check on the offset fails exactly when the data lies 2^24
  bytes or more behind the record; the size is not checked, and a string of 2^24 bytes or more is accepted and
  not read back (`DataPacker.LongStringIsLost`).
- `read_string` fails its check on an empty string unless the unread data ends at its record, and on a string of
  2^24 bytes or more (`DataPacker.ReadsNext`).

## Model

| member | source | states |
|---|---|---|
| StateWord.AssembleDecode | src/llfs/cache.hpp:347-385 | the fields of the packed 64-bit word determine it |
| StateWord.DecodeAssemble | src/llfs/cache.hpp:347-385 | any field values in range can be packed and read back |
| StateWord.AcquireEffect | src/llfs/cache.hpp:473-480 | adding a pin changes the acquire count and its carry bit only, while the carry bit is free at a wrap |
| StateWord.ReleaseEffect | src/llfs/cache.hpp:537-550 | adding a release changes the release count and its carry bit only, under the same proviso |
| StateWord.AcquireKeepsReleasesIff | src/llfs/cache.hpp:347-385 | the proviso is exact: the release count is damaged if and only if the count wraps under a set carry bit |
| StateWord.ClearEffects | src/llfs/cache.hpp:473-480 | clearing a carry bit leaves every other field alone |
| StateWord.ValidEffects | src/llfs/cache.hpp:658-662 | setting and clearing the valid bit leave every other field alone |
| CacheSlotProof.CarryIsFree | src/llfs/cache.hpp:473-480 | a count never wraps under a carry bit that is still set, since each set bit has a thread about to clear it |
| CacheSlotProof.WordRefinesCounters | src/llfs/cache.hpp:471-560 | in every run of fewer than 2^30 threads the acquire and release fields are the total acquires and releases modulo 2^30, through all carries and late clears |
| CacheSlotProof.IsPinnedIsExact | src/llfs/cache.hpp:377-380 | in every run `is_pinned` holds exactly when the outstanding pins are not a multiple of 2^30, so exactly when there are any below that |
| CacheSlotProof.RunsAreSafe | src/llfs/cache.hpp:443-615 | every step of acquire, extend, release, evict, fill, clear, add_ref and remove_ref keeps the whole slot invariant, and no run-time check of the slot fails |
| CacheSlotProof.PinsProtectContent | src/llfs/cache.hpp:471-615 | as long as a handle lives the slot is valid, with the content the handle was created for, and its key is the one that was asked for |
| CacheSlotProof.AcquirersAreProtected | src/llfs/cache.hpp:471-510 | the same for an acquirer from the moment it has seen the valid bit, before it looks at the key |
| CacheSlotProof.HandlesWereAskedFor | src/llfs/cache.hpp:471-562 | in every run each handle is for a key that some acquire of that run asked for |
| CacheSlotProof.EvictionsAlternateWithFills | src/llfs/cache.hpp:567-615 | at most one eviction succeeds between two fills, and at most one thread may write the slot, none while it is valid |
| CacheSlotProof.CasKeepsSlot | src/llfs/cache.hpp:567-590 | a compare-exchange that succeeds evicts an unpinned slot even if the word changed and changed back since it was read |
| CacheSlotProof.RefCountNeverUnderflows | src/llfs/cache.hpp:443-462 | although the count moves in separate steps from the pin transitions, whoever removes a reference finds a positive count |
| CacheSlotProof.QuiescentRefCount | src/llfs/cache.hpp:471-560 | with no operation in flight the count is the weak references plus one if pinned |
| CacheSlotAlone.AcquireAlone | src/llfs/cache.hpp:471-510 | from every reachable state an acquire that runs undisturbed gives exactly one handle, for the key asked for, if the slot is valid and holds that key, and otherwise leaves handles, pins and references as they were |
| CacheSlotAlone.ExtendAlone | src/llfs/cache.hpp:516-530 | copying a handle adds one like it and one pin, through a wrap of the count too |
| CacheSlotAlone.ReleaseAlone | src/llfs/cache.hpp:535-562 | releasing takes away that handle, one pin, and with the last pin its reference |
| CacheSlotAlone.EvictAlone | src/llfs/cache.hpp:567-588 | an undisturbed evict succeeds exactly on a valid slot without pins, and else changes nothing |
| CacheSlotAlone.WriteAlone | src/llfs/cache.hpp:594-615 | fill and clear leave the slot valid with the new content or none |
| CacheSlotAlone.NoPinsAfterClear | src/llfs/cache.hpp:604-615 | after clear nobody gets a pin, in any run and for any key, until a fill |
| CacheSlotAlone.RefsAlone | src/llfs/cache.hpp:443-462 | a holder may add a reference, and whoever has one may remove it and finds a positive count |
| CacheSlotAlone.MoveAlone | src/llfs/cache.hpp:935-946 | a handle moved to another thread changes hands, and word, content, references and pins outstanding stay |
| CacheSlotAlone.TakeAlone | src/llfs/cache.hpp:171-178 | a slot that is free can be taken, and is then invalid and the taker's to write |
| CacheSlotLimit.PinsAreReached | src/llfs/cache.hpp:471-530 | for every number of pins below 2^30 there is a run of take, fill, acquire and extend that ends with that many outstanding and the slot valid |
| CacheSlotLimit.EvictsAtTheLimit | src/llfs/cache.hpp:567-590 | in any reachable valid state with 2^30 pins outstanding an eviction by any idle thread succeeds |
| CacheSlotLimit.AtTheLimitPinsFail | src/llfs/cache.hpp:567-590 | the limit on pins is sharp: a run from the start that reaches 2^30 pins and evicts the slot under them |
| LatchingBitSet.LayOut | src/llfs/latching_bit_set.cpp:16-40 | the levels of the tree lie one behind the other, each with a word per 64 bits of the one below, up to a single word, with the padding of each last word |
| LatchingBitSet.LatchingBitSet.constructor | src/llfs/latching_bit_set.cpp:16-54 | the new set is empty and the tree is sound for every size |
| LatchingBitSet.LatchingBitSet.IsFull | src/llfs/latching_bit_set.cpp:147-153 | the top word tells whether every integer below the bound is in the set |
| LatchingBitSet.LatchingBitSet.Contains | src/llfs/latching_bit_set.cpp:100-109 | the bottom bit tells membership |
| LatchingBitSet.LatchingBitSet.Insert | src/llfs/latching_bit_set.cpp:113-143 | the set gains exactly the integer, the result tells whether it was new, and all summaries stay exact |
| LatchingBitSet.LatchingBitSet.FirstMissing | src/llfs/latching_bit_set.cpp:65-96 | the walk ends at the least integer not in the set, or the bound, and meets neither padding nor a word of all ones |
| BitTree.SetBitKeepsTree | src/llfs/latching_bit_set.cpp:121-142 | setting a bit over a full word keeps every summary true, with exactly the word it completed now due above |
| BitTree.TopFullMeansAll | src/llfs/latching_bit_set.cpp:147-153 | a full top word means a full set, and conversely when no summary is due |
| BitTree.DescendOne | src/llfs/latching_bit_set.cpp:73-92 | the first zero of a summary leads to the first word below that is not full |
| BitSetRaces.SummariesNeverLie | src/llfs/latching_bit_set.cpp:113-143 | in every interleaving of inserts a set summary bit means its whole word below is ones |
| BitSetRaces.QuiescentSummaries | src/llfs/latching_bit_set.cpp:113-143 | with no insert in flight a summary bit is set exactly over full words, and is_full is exact |
| BitSetRaces.ExactlyOneWinner | src/llfs/latching_bit_set.cpp:113-143 | of racing inserts of one integer exactly one is told it was new |
| BitSetRaces.InsertAlone | src/llfs/latching_bit_set.cpp:113-143 | at any point of any run an undisturbed insert adds exactly its integer and is told whether it was new |
| IoRingFlow.RunsConserveHandlers | src/llfs/ioring_impl.cpp:155-255 | every step of every thread moves handlers without losing or copying one, and keeps the work count equal to explicit work plus unfinished handlers |
| IoRingFlow.HandlersAreConserved | src/llfs/ioring_impl.cpp:307-434 | in every run each submitted handler is in exactly one of kernel, ring, queue, a thread's hands or finished, is invoked at most once, and was invoked if it is finished |
| IoRingFlow.NoEarlyExit | src/llfs/ioring_impl.cpp:148-151 | the work count is zero only when no handler is pending anywhere, so run never exits for lack of work while one is |
| IoRingFlow.SubmitFlow | src/llfs/ioring_impl.hpp:303-339 | a submission creates one new handler and one unit of work |
| IoRingFlow.StashFlow | src/llfs/ioring_impl.cpp:323-337 | a thread that leaves with a handler puts it back at the front of the queue |
| IoRingFlow.TakeEventFlow | src/llfs/ioring_impl.cpp:379-434 | an event taken off the ring becomes the local handler, or waits beside it until that is pushed |
| IoRingWake.RunsKeepWake | src/llfs/ioring_impl.cpp:663-714 | every step keeps the assertions of all program points: mutual exclusion, one poller, and what each waiting thread relies on |
| IoRingWake.NoLostWakeup | src/llfs/ioring_impl.cpp:285-303 | in every run a thread asleep on the condition variable may run, or some wake_all has not yet notified |
| IoRingWake.NoLostEvent | src/llfs/ioring_impl.cpp:259-281 | a thread in eventfd_read may run, or the event fd is or will be readable: the write-back keeps the wake-up alive |
| IoRingWake.SleepersAreWatched | src/llfs/ioring_impl.cpp:196-214 | sleeping threads are never left without another thread awake in the loop or a notification to come |
| IoRingWake.StoppedMeansAwake | src/llfs/ioring_impl.cpp:136-144 | once stop or the last on_work_finished has returned and nothing resumed the loop, no thread sleeps and none is stuck in eventfd_read |
| IoRingWake.NotifyAllWake | src/llfs/ioring_impl.cpp:702-710 | taking and releasing the mutex before notify_all means that nobody who missed the change can go to sleep after it |
| IoRingProgress.OnlySleepsWhenIdle | src/llfs/ioring_impl.cpp:155-255 | if a thread is inside run and no thread can take a step, the loop is runnable, ring and queue are empty, and all work left is with the kernel or explicit, provided no reset met a thread leaving with a handler |
| IoRingProgress.ResetIdle | src/llfs/ioring_impl.cpp:323-337 | a reset while threads sleep or poll strands nothing: whoever could miss a handler has a notification to come or a readable event fd |
| IoRingProgress.IdleIsReachable | src/llfs/ioring_impl.cpp:259-281 | a run that ends with the only thread asleep and nothing left but an operation in the kernel |
| IoRingProgress.SecondThreadSleeps | src/llfs/ioring_impl.cpp:285-303 | with nothing to do and another thread polling, a thread goes to sleep on the condition variable |
| IoRingDrain.InvokesHandler | src/llfs/ioring_impl.cpp:171-180 | in a loop that may run, a thread with a handler in hand invokes that handler within its next three steps |
| IoRingDrain.FinishesHandler | src/llfs/ioring_impl.cpp:453-473 | when the handler returns it is finished and the work count is one less |
| IoRingDrain.EveryReadyHandlerRuns | src/llfs/ioring_impl.cpp:155-255 | from every state of every run in which one thread is inside a loop that may run, its own steps, and those of calls under way, get every handler that is ready invoked exactly once and finished |
| IoRingDrain.StoppedThreadsLeave | src/llfs/ioring_impl.cpp:171-255 | from every state of every run in which the loop is stopped or out of work, a thread inside run that nobody disturbs gets out by its own steps alone |
| IoRingDrain.NotifiesOne | src/llfs/ioring_impl.cpp:307-320 | a thread that queues a handler, or stops polling with none, wakes exactly one sleeper if there is any |
| IoRingStash.RingIsFifo | src/llfs/ioring_impl.cpp:379-434 | events are taken off the ring in the order they came |
| IoRingStash.StashGoesFirst | src/llfs/ioring_impl.cpp:323-337 | a handler put back goes before all others in the queue |
| IoRingStash.StashedIsNext | src/llfs/ioring_impl.cpp:323-377 | in every run on from there it is the next one taken off the queue, by whatever thread, unless another is put back |
| IoRingProgress.NoTransferLimitStrands | src/llfs/ioring_impl.cpp:381-393 | with a limit of zero events per transfer the loop sleeps on an event |
| IoRingProgress.ResetStrands | src/llfs/ioring_impl.cpp:323-337 | from any reachable state in which one thread leaves with a handler, alone, a reset lets the loop sleep on that handler |
| IoRingProgress.EarlyResetStrands | src/llfs/ioring_impl.cpp:323-337 | such a run from the start |
| BufferPool.BufferPool.constructor | src/llfs/ioring_buffer_pool.cpp:77-98 | all buffers start free |
| BufferPool.BufferPool.Deallocate | src/llfs/ioring_buffer_pool.cpp:168-210 | a returned buffer goes to the free list, or with the whole list to the front waiter, and the check that this is exactly its count never fails |
| BufferPool.BufferPool.AsyncAllocate | src/llfs/ioring_buffer_pool.cpp:226-246 | a request is served from the front of the free list with exactly its count, or queued when there is too little |
| BufferPool.BufferPool.TryAllocate | src/llfs/ioring_buffer_pool.cpp:268-286 | takes the front buffer or reports that there is none |
| BufferPool.RunsKeepPool | src/llfs/ioring_buffer_pool.cpp:168-286 | in every history the front waiter needs more than is free, and free and owned buffers partition the pool |
| BufferPool.BuffersAreConserved | src/llfs/ioring_buffer_pool.cpp:168-286 | free plus owned is constant, and no buffer is both or neither |
| BufferPool.WaitersServedInOrder | src/llfs/ioring_buffer_pool.cpp:168-210 | requests that wait are served in the order they came, each with exactly its count of distinct buffers |
| BufferPool.NoSecondOwner | src/llfs/ioring_buffer_pool.cpp:168-286 | a buffer changes hands only when its owner frees it |
| BufferPool.AllFreeMeansUnsatisfiable | src/llfs/ioring_buffer_pool.cpp:168-210 | with all buffers free a waiter at the front asks for more than the pool has |
| BufferPool.TryServedIff | src/llfs/ioring_buffer_pool.cpp:268-286 | in every history try_allocate gives a buffer nobody owns exactly if there is one |
| BufferPool.RequestServedIff | src/llfs/ioring_buffer_pool.cpp:226-246 | in every history a request is served at once exactly if as many buffers are not owned, with exactly that many, and else waits behind all others |
| BufferPool.LastFreedFirst | src/llfs/ioring_buffer_pool.cpp:174-181 | the buffer freed last, if nobody waited for it, is handed out next |
| BufferPool.RegisterUnits | src/llfs/ioring_buffer_pool.cpp:102-108 | as many memory units are registered as the buffers need, and no more |
| BufferPool.BuffersDoNotOverlap | src/llfs/ioring_buffer_pool.cpp:318-367 | different buffers share no byte and each lies inside its unit |
| StreamBuffer.SplitBytes | src/llfs/ioring_buffer_view.cpp:17-30 | splitting a view cuts its bytes at the offset or its end |
| StreamBuffer.MergeBytes | src/llfs/ioring_buffer_view.cpp:34-53 | merging neighbouring views concatenates their bytes |
| StreamBuffer.SplitThenMerge | src/llfs/ioring_buffer_view.cpp:17-53 | the two parts of a view merge back into it |
| StreamBuffer.Fragment.Push | src/llfs/ioring_stream_buffer.cpp:232-238 | pushing a view appends its bytes, and adds a view exactly if it is not the neighbour of the last one |
| StreamBuffer.Fragment.PushAll | src/llfs/ioring_stream_buffer.cpp:251-257 | pushing a fragment appends its bytes and empties it |
| StreamBuffer.PopViews | src/llfs/ioring_stream_buffer.cpp:261-288 | the loop of pop ends and splits the byte string at the count or its end |
| StreamBuffer.Fragment.Pop | src/llfs/ioring_stream_buffer.cpp:261-288 | pop returns the first bytes and keeps the rest, nothing lost or repeated |
| StreamBuffer.Fragment.ByteSize | src/llfs/ioring_stream_buffer.cpp:292-299 | the size is that of the byte string |
| StreamBuffer.Fragment.Gather | src/llfs/ioring_stream_buffer.cpp:303-316 | gathering copies as much of the byte string as fits to the front of the destination and leaves the rest of it alone |
| StreamRuns.NothingLost | src/llfs/ioring_stream_buffer.cpp:95-194 | with any mix of producers and consumers the bytes popped and the bytes queued are the bytes pushed, in order, each once |
| StreamResults.ResultsAreOutput | src/llfs/ioring_stream_buffer.cpp:114-194 | what consume and consume_some return, in the order of their pops, is exactly what was popped |
| StreamResults.ResultsAreTheStream | src/llfs/ioring_stream_buffer.cpp:95-194 | all results in that order, and then the queue, are the bytes pushed |
| StreamResults.SwapReturnsRest | src/llfs/ioring_stream_buffer.cpp:155-194 | consume_some returns the log from the consume position to the new one, or that the stream is closed exactly if that is nothing and it is; it is something if nobody consumed since it loaded the position |
| StreamResults.FinishedSwap | src/llfs/ioring_stream_buffer.cpp:179-193 | the result of every finished consume_some is the log between the positions before and after its swap |
| StreamResults.SwapCanBeEmpty | src/llfs/ioring_stream_buffer.cpp:155-194 | a run in which one of two calls gets nothing |
| StreamResults.SizeIsBetween | src/llfs/ioring_stream_buffer.cpp:43-57 | size returns what is committed at its second load less what was consumed at its first, up to the maximum, which is no less than the size at either load |
| StreamResults.ClosedMeansDrained | src/llfs/ioring_stream_buffer.cpp:61-68 | if nothing is pushed after close, the stream is closed exactly when close was called and everything is popped |
| StreamResults.TurnedAwayWhenClosed | src/llfs/ioring_stream_buffer.cpp:155-175 | a consumer is turned away only from a closed stream, and consume_some only if there is no more than it has seen consumed |
| StreamResults.LatePushIsMissed | src/llfs/ioring_stream_buffer.cpp:95-110 | a run in which bytes pushed after close are queued while their consumer is turned away |
| StreamRuns.ConsumeIsExact | src/llfs/ioring_stream_buffer.cpp:114-151 | with disjoint ranges, no empty one starting where another begins, consume returns exactly the committed bytes of its range, in every interleaving |
| StreamRuns.ConsumersSeeTheStream | src/llfs/ioring_stream_buffer.cpp:114-151 | what consecutive consumers return adds up to the beginning of the stream |
| StreamRuns.StepTiles | src/llfs/ioring_stream_buffer.cpp:95-151 | every step keeps the consumers' invariant, and the consume position never moves back |
| StreamRuns.SharedStartRegresses | src/llfs/ioring_stream_buffer.cpp:114-151 | from any state that lets an empty range and another with the same start begin, the consume position can end behind bytes already consumed |
| StreamRuns.EmptyRangeRegresses | src/llfs/ioring_stream_buffer.cpp:114-151 | such a run from the start |
| StreamRuns.SizeIsSafe | src/llfs/ioring_stream_buffer.cpp:43-57 | beside consumers that use consume so, the check in size never fails, whatever happens between its two loads |
| StreamRuns.SizeIsSafeIfQuiet | src/llfs/ioring_stream_buffer.cpp:43-57 | beside consume_some it does not fail if at some moment between the loads no commit is between its push and its fetch_add |
| StreamRuns.SizeAfterSwap | src/llfs/ioring_stream_buffer.cpp:43-57 | that is exact: with the queue just emptied, a size that loads both positions fails exactly if such a commit is under way |
| StreamRuns.SizeCheckCanFail | src/llfs/ioring_stream_buffer.cpp:155-194 | a run in which that check fails |
| LogBlocks.BlockRangeExact | src/llfs/log_block_calculator.hpp:171-179 | the slot range of a block is exactly the offsets whose block it is |
| LogBlocks.RequiredCount | src/llfs/log_block_calculator.hpp:36-43 | the computed disk size is a whole number of blocks, one more than the log fills |
| LogBlocks.DiskSizeOf1000 | src/llfs/log_block_calculator.hpp:36-43 | the sizes for three logs, with 64 bytes of header to a block |
| LogBlocks.BlocksInPlace | src/llfs/log_block_calculator.hpp:140-143 | the first blocks of the log are the blocks of the disk in order, and each time round again |
| LogBlocks.BlocksNeeded | src/llfs/log_block_calculator.hpp:126-157 | no unaligned window overwrites itself if and only if there are as many blocks as a window can touch |
| LogBlocks.LiveDataIsSafe | src/llfs/log_block_calculator.hpp:36-43 | with the computed size flushing live data never overwrites live data; one block fewer would do exactly for sizes one above a multiple of the block capacity |
| SlotMath.SlotLessIsLess | src/llfs/slot.hpp:36-40 | within 2^63 of each other offsets compare as integers, also after their 64-bit words wrapped |
| SlotMath.SlotLessExact | src/llfs/slot.hpp:36-40 | the comparison agrees with the integers exactly on that range |
| SlotMath.SlotLessAntisymmetric | src/llfs/slot.hpp:36-40 | two offsets are each less than the other exactly at distance 2^63 |
| SlotMath.SlotDistanceIsDistance | src/llfs/slot.hpp:113-119 | the distance is the difference in either order of the arguments |
| SlotMath.ClampBySlotsExact | src/llfs/memory_log_device.cpp:64-73 | clamping by slot comparisons is the clamp to the unflushed range for every delta but the least 64-bit integer |
| SlotMath.ClampBySlotsAtMinimum | src/llfs/memory_log_device.cpp:64-73 | for that delta everything is flushed, or the position moves by 2^63 |
| RingLog.RingLog.Space | src/llfs/basic_ring_buffer_log_device.hpp:212-221 | the space is what the capacity leaves beside the live window |
| RingLog.RingLog.Prepare | src/llfs/basic_ring_buffer_log_device.hpp:223-243 | a region is prepared at the commit position, or the log is closed, or must be trimmed first |
| RingLog.RingLog.Write | src/llfs/basic_ring_buffer_log_device.hpp:237-242 | writing in the prepared region touches no live byte |
| RingLog.RingLog.Commit | src/llfs/basic_ring_buffer_log_device.hpp:245-264 | the log grows by exactly the committed bytes of the region, positions stay ordered within the capacity, and flush does not move back |
| RingLog.RingLog.Trim | src/llfs/basic_ring_buffer_log_device.hpp:124-129 | trimming up to the flush position keeps the ring equal to the log on the live window |
| RingLog.RingLog.Read | src/llfs/ring_buffer.cpp:374-384 | reading any live range modulo the capacity gives the bytes of the log |
| RingLog.RingLog.SetAutoFlush | src/llfs/memory_log_device.cpp:29-43 | switching the mode flushes everything, never moves flush back, and switching to the same mode does nothing |
| RingLog.RingLog.SyncFlushPos | src/llfs/memory_log_device.cpp:47-50 | everything committed is flushed |
| RingLog.RingLog.UnflushedSize | src/llfs/memory_log_device.cpp:54-60 | the distance from flush to commit, in either mode |
| RingLog.RingLog.AdvanceFlushPos | src/llfs/memory_log_device.cpp:64-73 | flush advances by the delta clamped to what is unflushed; the least 64-bit delta flushes everything |
| RingLog.RingLog.FlushUpToOffset | src/llfs/memory_log_device.cpp:77-88 | flush moves up to the offset, taken as the integer nearest to commit, never back and never past commit |
| RingLog.AwaitedTrimGivesSpace | src/llfs/basic_ring_buffer_log_device.hpp:266-289 | the trim position the writer waits for is reached exactly when the bytes fit |
| RingLog.Append | src/llfs/basic_ring_buffer_log_device.hpp:223-264 | prepare, fill and commit append exactly the record, or change nothing for lack of space |
| SlotIntervalMap.SlotIntervalMap.Update | src/llfs/slot_interval_map.cpp:93-233 | every offset of the range gets the greater slot, every other keeps its own, and touching entries of equal slot are always combined |
| SlotIntervalMap.SlotIntervalMap.Query | src/llfs/slot_interval_map.cpp:75-89 | the entries returned are sorted, clipped to the range and show exactly its slots |
| SlotIntervalMap.WriteOver | src/llfs/slot_interval_map.cpp:150-232 | each overlapping entry absorbed, displaced or kept preserves the meaning of the update, and the check on slot order never fails |
| SlotIntervalMap.AbsorbMeaning | src/llfs/slot_interval_map.cpp:176-185 | joining an entry of equal slot to the range changes no offset's final slot |
| SlotIntervalMap.DisplaceMeaning | src/llfs/slot_interval_map.cpp:186-207 | keeping only the outer parts of a lower entry changes no offset's final slot |
| SlotIntervalMap.YieldMeaning | src/llfs/slot_interval_map.cpp:208-227 | writing before a higher entry and going on behind it changes no offset's final slot |
| SlotIntervalMap.BeginKeeps | src/llfs/slot_interval_map.cpp:105-148 | joining the touching neighbours of equal slot first makes the range safe to write without leaving entries to combine |
| Varint.PackedSizeExact | src/llfs/varint.hpp:27-30 | the packed size is the least number of seven-bit groups that holds the value |
| Varint.RoundTrip | src/llfs/varint.cpp:23-110 | what is packed reads back as the same value and consumes exactly its bytes, whatever follows |
| Varint.ParsePrefix | src/llfs/varint.cpp:91-110 | a read consumes at least one byte, fails exactly when no byte ends the value, and ignores what follows |
| Varint.PackedBytesOf300 | src/llfs/varint.cpp:23-87 | low groups come first: 300 is packed as 0xAC 0x02 |
| Varint.UnpackFrom | src/llfs/varint.cpp:91-110 | the accumulating loop on 64-bit words computes the value from its low groups up, modulo 2^64 |
| SlotScan.ScanIsExact | src/llfs/ioring_log_recovery.cpp:251-291 | the loop ends behind the last whole slot, measured without wrap-around, if and only if no header behind whole slots claims 2^64 bytes or more in a way that wraps to a size that fits |
| SlotScan.LastWholeIsLongest | src/llfs/ioring_log_recovery.cpp:251-291 | behind the last whole slot ends the longest run of whole slots |
| SlotScan.EndsIff | src/llfs/ioring_log_recovery.cpp:251-291 | the loop, turn by turn, ends if and only if no header it meets claims a body of 2^64 bytes less its own size |
| SlotScan.ZeroSize | src/llfs/ioring_log_recovery.cpp:273-274 | a slot has size zero exactly when its body size wraps with its header |
| SlotScan.Scan | src/llfs/ioring_log_recovery.cpp:251-291 | on all data, where the loop ends or that it never does, with both conditions |
| SlotScan.EndlessScan | src/llfs/ioring_log_recovery.cpp:251-291 | ten bytes on which the loop is at offset zero after any number of turns |
| SlotScan.FalseSlot | src/llfs/ioring_log_recovery.cpp:272-290 | ten bytes with no whole slot on which the loop ends at offset five |
| SlotScan.TornLogIsScanned | src/llfs/slot_writer.cpp:62-105 | of slots as the writer packs them, cut off at any byte, the loop ends behind the last that is whole |
| LogRecovery.SlicesCover | src/llfs/ring_buffer.cpp:408-421 | the slices before and after the wrap are exactly the ring positions of a block, in payload order, and disjoint |
| LogRecovery.WinnerIsGreatest | src/llfs/ioring_log_recovery.cpp:138-207 | no covering block has a greater slot offset than the one a position shows |
| LogRecovery.WinnerIgnoresOrder | src/llfs/ioring_log_recovery.cpp:138-207 | with distinct slot offsets the order of reading makes no difference |
| LogRecovery.Recovery.RecoverBlockData | src/llfs/ioring_log_recovery.cpp:138-207 | after any blocks in any order every ring position shows the covering block of greatest slot offset, and the committed map is the union of the blocks |
| LogRecovery.Recovery.RecoverSlice | src/llfs/ioring_log_recovery.cpp:180-203 | a slice copies its data exactly where its slot is now the greatest |
| LogRecovery.Recovery.ReadBlocks | src/llfs/ioring_log_recovery.cpp:33-105 | the loop ends and neither block-count check fails, on bad blocks either; every block taken has good magic and a commit size that fits; the block that stops it is unreadable, has bad magic or an oversized commit, each exactly when that is reported; it ends well exactly at the first block not to be read, which is behind one that is not full in a log that has not wrapped |
| LogRecovery.MaxTrimIsGreatest | src/llfs/ioring_log_recovery.cpp:78-86 | the trim position recovered is the greatest of the blocks read |
| LogRecovery.Recovery.CommittedRun | src/llfs/ioring_log_recovery.cpp:211-247 | the first interval is the maximal committed run at the trim position; the two checks fail exactly when stated |
| LogRecovery.RunEndUnique | src/llfs/ioring_log_recovery.cpp:211-247 | the end of the committed run is unique, so the flush position is determined |
| LogRecovery.IntervalsMerged | src/llfs/ioring_log_recovery.cpp:243-247 | the intervals of committed data are always separated by a gap |
| LogRecovery.Recovery.RecoverFlushPos | src/llfs/ioring_log_recovery.cpp:211-296 | for all recovered data: the check fails, the scan never ends, or the flush position is set, each exactly when stated; it is the end of the last whole slot of the run exactly if no header there wraps, or the trim position without data |
| LogRecovery.FlushPosOfWrittenLog | src/llfs/ioring_log_recovery.cpp:138-296 | if the blocks hold bytes of a log that the slot writer wrote, the flush position is the end of its last slot within the committed run |
| LogRecovery.GapAtTrim | src/llfs/ioring_log_recovery.cpp:241-241 | a disk of one good block on which the check on the first interval fails |
| LogRecovery.EarlyStopLosesNothing | src/llfs/ioring_log_recovery.cpp:33-105 | in a log that has not wrapped around the blocks not read cannot move the end of the committed run |
| LogRecovery.RecoveredIsLog | src/llfs/ioring_log_recovery.cpp:138-296 | if the blocks hold bytes of a log within the window, the ring shows that log on the committed run |
| PageTrace.TraceRefs | src/llfs/trace_refs_recursive.hpp:28-62 | the worklist ends, visits exactly the pages reachable from the roots, and reports each of their references once |
| PageTrace.Prune | src/llfs/page_cache_job.cpp:409-457 | exactly the unreachable new pages are dropped, and all that remain are reachable in what remains |
| PageTrace.VisitedIsReported | src/llfs/page_cache_job.cpp:415-450 | being a root or reported is the same as being visited |
| PageRefCounts.TraceAdded | src/llfs/committable_page_cache_job.cpp:485-509 | each page's delta so far is its root delta, one if new, and one per reference from a new page |
| PageRefCounts.NobodyRefersToDeleted | src/llfs/committable_page_cache_job.cpp:511-523 | nothing live refers to a page of count one, so deleted pages never refer to each other |
| PageRefCounts.CheckOnDeleted | src/llfs/committable_page_cache_job.cpp:514-523 | whatever deleted pages came before, the check fails exactly if a new page refers to this one |
| PageRefCounts.RefCountUpdates | src/llfs/committable_page_cache_job.cpp:485-553 | in any order of pages the deltas are computed, or the check fails exactly when a new page refers to a deleted one |
| PageRefCounts.CountsAreConserved | src/llfs/committable_page_cache_job.cpp:485-553 | applying the deltas makes every live page's count one plus its root and page references again |
| PageRefCounts.CountOneMeansGarbage | src/llfs/committable_page_cache_job.cpp:485-553 | after any sequence of jobs a live page has count one exactly when nothing refers to it |
| PageRefCounts.UpdatesAreSane | src/llfs/page_allocator_state.cpp:556-636 | the allocator's checks pass for new and deleted pages, and for others exactly if their count was not one |
| PageRefCounts.SanityChecks | src/llfs/page_allocator_state.cpp:556-636 | updates that each of the checks lets through and refuses |
| PageRefCounts.OthersUntouched | src/llfs/committable_page_cache_job.cpp:535-548 | no page that is neither live nor new is updated |
| PageRefCounts.OrphanIsReached | src/llfs/committable_page_cache_job.cpp:485-553 | adding a page and dropping its root reference leaves it with count one |
| PageRefCounts.DeletedCheckCanFail | src/llfs/committable_page_cache_job.cpp:514-523 | a job that deletes that page and refers to it, on which the check fails |
| PageRefCounts.AllocatorCheckCanFail | src/llfs/page_allocator_state.cpp:556-636 | a job that refers to that page and keeps it, on which the allocator's check fails |
| CommitPipeline.RunsKeepDurable | src/llfs/committable_page_cache_job.cpp:193-288 | every step of every job, with failures and cancellations anywhere, keeps what each stage relies on |
| CommitPipeline.DurableIsSafe | src/llfs/committable_page_cache_job.cpp:193-288 | a job becomes durable only with its whole base chain durable before, recycles only after that and drops only after recycling; that its pages are written and its counts synced is the program order of its own stages |
| CommitProgress.AllJobsCommit | src/llfs/committable_page_cache_job.cpp:193-288 | whatever jobs with chained slots, or none, have done so far without a failure, they can all end done and durable, with their pages recycled and dropped and the caller's slot at the last one |
| CommitProgress.CleanRunsHarmNobody | src/llfs/committable_page_cache_job.cpp:193-288 | in a run in which nothing fails, is cancelled or is destroyed, no job ends failed or cancelled |
| CommitProgress.OnlyFailuresBlock | src/llfs/committable_page_cache_job.cpp:226-240 | in every run, if some job is not over and none can move, a job has failed without setting the caller's slot |
| CommitProgress.NobodyWaitsForTheDead | src/llfs/committable_page_cache_job.cpp:199-210 | whoever waits for a base job that is done or has failed can move |
| CommitProgress.DurableStays | src/llfs/committable_page_cache_job.cpp:199-210 | a job that became durable stays so whatever fails after that, unless it is cancelled |
| CommitProgress.CancelFailsWaiters | src/llfs/committable_page_cache_job.cpp:226-234 | cancelling a job fails whoever waits for it |
| CommitPipeline.SlotsAdvanceInOrder | src/llfs/committable_page_cache_job.cpp:233-264 | with chained slots no check fails and the shared slot advances job by job |
| CommitPipeline.DurableInOrder | src/llfs/committable_page_cache_job.cpp:233-264 | of one caller's jobs a later one is durable only after every earlier one |
| CommitPipeline.OnlyNextPasses | src/llfs/slot.hpp:162-168 | waiting for the previous slot lets exactly the next job through |
| PackedBytes.U24RoundTrip | src/llfs/packed_bytes.hpp:30-46 | a 24-bit field reads back as what was written modulo 2^24 |
| PackedBytes.RecordReadsBack | src/llfs/packed_bytes.hpp:61-77 | a record made for a string, inline or not, reads as that string if and only if it is shorter than 2^24 |
| PackedBytes.RecordStays | src/llfs/packed_bytes.hpp:61-77 | a record depends on its eight bytes and its data only |
| PackedBytes.WriteInlineIs | src/llfs/data_packer.cpp:438-458 | up to four bytes are packed into the record itself |
| PackedBytes.WriteLargeIs | src/llfs/data_packer.cpp:462-484 | longer data is packed outside with its relative offset and size |
| PackedBytes.RecordBytes | src/llfs/packed_bytes.hpp:28-48 | the eight bytes of a record with data outside and of one with data inside, low byte first |
| DataPacker.RegionsDisjoint | src/llfs/data_packer.cpp:65-77 | records and data of all strings lie in bounds and never overlap |
| DataPacker.Arena.AllocateFront | src/llfs/data_packer_arena.cpp:131-139 | the front of the free range is handed out, or the arena is marked full |
| DataPacker.Arena.AllocateBack | src/llfs/data_packer_arena.cpp:143-151 | the back of the free range is handed out, or the arena is marked full |
| DataPacker.Arena.ReserveBack | src/llfs/data_packer_arena.cpp:120-127 | a reserved part is an arena of its own, disjoint from what is left |
| DataPacker.DataPacker.PackString | src/llfs/data_packer.cpp:275-283 | for every buffer a string is refused exactly if there is no room, fails the check exactly if its data lies 2^24 bytes or more behind its record, and else is in the buffer and leaves every earlier string as it was |
| DataPacker.AllReadBack | src/llfs/packed_bytes.hpp:74-77 | after all packs every record still reads as its string, if that is shorter than 2^24 |
| DataPacker.ReadsNext | src/llfs/data_reader.hpp:115-164 | the next string reads as packed; an empty one exactly if the unread data ends at its record, and one of 2^24 bytes or more not |
| DataPacker.EmptyStringFails | src/llfs/data_reader.hpp:143-145 | with room to spare the read of an empty string fails its check |
| DataPacker.ShortOffsetFails | src/llfs/data_reader.hpp:115-164 | a record with an offset below four fails its check |
| DataPacker.LongStringIsLost | src/llfs/data_packer.cpp:462-484 | every string of 2^24 bytes or more can be packed into a buffer and is not read back from it |
| DataPacker.DataReader.ReadString | src/llfs/data_reader.hpp:101-164 | a read moves the unread range by one record and its data, or fails a check, or reports the end |
| DataPacker.RoundTrip | src/llfs/data_reader.hpp:101-164 | any non-empty strings shorter than 2^24, packed until one does not fit, are read back in order from the same buffer of any size, unless a record is too far from its data |

## Left out

- FUSE layers, files, system calls and devices: foreign input and output with little logic of their own.
- Memory orders weaker than sequential consistency: every atomic access is a step of one global order.
- The ring mutex of the run loop: it is not modelled, so the model has more interleavings than the code.
- Errors of io_uring and eventfd calls other than an empty completion ring, and the limit on idle turns of the loop.
- `Cache::erase`, the order of the least-recently-used list, and lookups in the cache index.
- The flush operation of the log driver, its queue of flush blocks and the file offsets of blocks.
- Wrap-around of slot offsets past 2^64: positions are integers; comparisons are modelled on 64-bit words.
- Snapshots and truncation of the memory log device.
- Views without bytes in the queue of a stream: the queue is a byte string, so the check for the end of the stream does not see them.
- RingLog.RingLog.AdvanceFlushPos: excludes the least 64-bit delta with nothing to flush, for which `SlotMath.ClampBySlotsAtMinimum` says what happens.
- RingLog.RingLog.FlushUpToOffset: excludes the offset at distance 2^63 from a flush position that has reached commit, where `slot_distance` calls itself without end.
- LogRecovery.Recovery.ReadBlocks: for block images whose positions fit a signed 64-bit integer, which the code's checked casts demand, and good blocks with no more committed data than the ring holds.
- Varint.UnpackFrom: words are combined by addition, which `Varint.NoCarry` shows to be the same as or; a shift of 64 or more, which C++ leaves undefined, gives zero in the model.
- The propose and learn protocol of the page allocator, page generations, and the grouping of updates by device.
- Overflow of 32-bit reference counts.
- Loading errors while tracing pages, pages whose views are created on demand, and recycling of dead pages.
- External arenas and parallel copying in the packer.
- `packed_float.cpp`, `IoRingOpHandler::shift_buffer`, `DataReader::read_raw` and sparse files in `mem_inode.cpp`.
- Metrics, logging, checksums, configuration and the typed packing templates: they would only add easy members.
