# A verified model of the tinytcp core

This project models, in Dafny, the parts of the tinytcp protocol stack that carry its packets
and its concurrency, and proves what they keep over all inputs, all runs and all interleavings:

- **Packet buffers** (`PktBuf.dfy`, `Chain.dfy`, `PktWorld.dfy`). A packet is a chain of blocks,
  each with a window into its own payload, and a cursor runs across the chain. The classes
  `PktBlock`, `PktBuffer` and `PktManager` change payloads, windows, lists and the pool in place,
  as the source does. `Content()` is the flat byte sequence the chain stands for; every operation
  is proved against it, together with which blocks it takes from the pool and returns to it.
  `PktWorld` runs any script of operations over any number of buffers and keeps the partition of
  all blocks between the pool and the buffers.
- **The lock-free ring queue** (`RingMachine.dfy`, `RingWord.dfy`, `RingIndex.dfy`,
  `RingQueue.dfy`). `RingMachine` is a step machine: any number of threads inside `push` or `pop`,
  one atomic access per step, every interleaving, exchanges that may fail for no reason.
  `RingWord` carries its theorems to 32-bit counters that wrap; `RingIndex` is the rounding and
  masking by bit operations; `RingQueue` is the array-backed class as its owners see it, one call
  at a time.
- **The memory pool** (`MemBlock.dfy`, `RingPool.dfy`) on top of that queue, and the manager's
  start-up loop. `RingPool` is the pool shared by threads, on the step machine.
- **Timers** (`Timers.dfy`). An ordered set whose sort key is a field of its elements. The
  operations are defined on values, with theorems over every run; the classes `Timer` and
  `TimerManager`, which work in place, are proved equal to them.
- **Ethernet and ARP frames** (`Ether.dfy`, `Frames.dfy`, `Endian.dfy`). Frame building on packet
  buffers, byte for byte, on machines of either byte order, up to the receiver that takes the
  frame apart. The layouts are those of RFC 894, section "Frame Format", and RFC 826, section
  "Packet format".

`Basics.dfy` holds shared vocabulary. `Deviations.dfy` holds concrete runs for the points below.
`dafny verify dfyconfig.toml` checks everything.

## Where the code differs from its purpose

Operations take a parameter `Code`. With `Written` every branch is as the source has it; with
`Repaired` the points below are put right and nothing else is changed. The ring has one such
parameter for each of its two points. Contracts hold for both forms, and say exactly when the
written form does what is meant.

- **Ring, confirming a slot** (src/lock_free_ring_queue.h:90-93). A failed exchange overwrites the
  expected index, so a producer may next confirm another producer's slot, not yet written.
  Repaired: the producer keeps comparing with its own ticket.
- **Ring, test for full** (src/lock_free_ring_queue.h:77-81). The read index is loaded before the
  write index and may be out of date. Repaired: both are loaded at one instant. With one producer
  neither point matters; with more, repairing one of the two alone does not help, but for a ring
  of two cells, where the test is enough: `RingMachine.FifoExactlyWhen`. For the pool on the ring:
  `RingPool.PoolExactlyWhen`.
- **Growing a packet** (src/net/pktbuf.cc:248-255). The new size is compared with the tail room
  and added to the last block, where the growth is meant; and the rest, a difference of unsigned
  words, wraps when the tail room exceeds the growth. Right exactly when the tail room does not
  exceed the growth: `PktBuffer.Resize`.
- **Shrinking a packet** (src/net/pktbuf.cc:280-284). The block after the erased one is released,
  at the end of the list the end marker itself, which the model writes as the manager's `nowhere`.
  Right exactly when no block lies behind the cut.
- **A header block from an empty pool** (src/net/pktbuf.cc:183-188). The null block is put into the
  list before it is checked; the model again writes `nowhere`. Right exactly when the pool has a
  block, or none is needed. What this does to framing follows from the packet and the pool before
  the call (`Ether.FrameOf`); a request for an address then frees the buffer and puts the null
  block into the pool, in exactly one state of the pool: `Ether.Spoils`, `Ether.MakeArpRequest`.
- **Pool start-up** (src/net/pktbuf.cc:507-530). The loop runs as often as blocks were asked for,
  while the pool holds one less than the next power of two. All blocks are initialised exactly
  when the count or the count plus one is a power of two: `MemBlock.StartUp`.
- **Clock roll-over** (src/timer.cc:188-196). The subtraction of an hour wraps in the first hour of
  the clock, where any step back then counts as a roll-over: `Timers.RollOverExactly`.
- **`Timer::reset`** (src/timer.cc:66-69) with the same period and the same start reports success
  even for a timer that was cancelled. Its answer is whether the timer is armed exactly when the
  timer is, or the call asks for a change: `Timers.ResetAnswersExactly`.
- **Deadlines that move earlier unseen** (src/timer.cc:50-64, 164-173). Refresh and expiry ask for
  no wake-up. With a clock that went back a deadline may so come before the one the sleeper was
  told of, exactly when the new deadline is earlier: `Timers.RefreshWokenExactly`,
  `Timers.ExpireWokenExactly`.

## Assumptions

- Atomic accesses are sequentially consistent; the source asks for weaker orders.
- No thread sleeps through 2^32 queue operations between loading an index and comparing it
  (`RingWord.NeverStale`).
- Timer operations are atomic, as the manager's lock makes them; `reset` looks at its period just
  before it takes the lock, and `list_expired_cb` at the set, which the model does in one step.
- The clock is an input of every timer operation. Results that need a clock that does not go back
  or sums below 2^64 say so.
- A pool's bytes fit a signed 32-bit number (`PktManager.Configured`, `Pool.Create`), as the
  source's own `int` product requires. Given that, packet sizes and positions never reach 2^31 and
  are modelled as unbounded numbers; the one difference that wraps is modelled in `Grow`.
- The buffer pool of the packet manager is modelled by its first-in first-out specification, which
  `RingQueue` establishes; its `limit` is the number of blocks pooled at start-up.

## Model

| member | source | states |
|---|---|---|
| PktBuf.PktBuffer.Alloc | src/net/pktbuf.cc:82-145 | adds exactly n bytes at the chosen end for all four flag combinations, in blocks from the front of the pool, all but one of them full, with the headroom or tail room in that one where the flag wants it; succeeds exactly when the pool has the blocks, and otherwise leaves list, windows, capacity, cursor and the order of the pool as they were |
| PktBuf.PktBuffer.TakeBlocks | src/net/pktbuf.cc:89-115 | the allocation loop, and its undoing when the pool runs out half-way: the pool is then as before |
| PktBuf.PktBuffer.Free | src/net/pktbuf.cc:147-159 | the last reference returns every listed block, in order, as far as the pool has room, and the buffer itself, whatever the list holds; a sound packet is returned whole; an earlier reference changes nothing but the count |
| PktBuf.PktBuffer.AllocHeader | src/net/pktbuf.cc:161-207 | the result in every case; on success the old bytes are the suffix at offset n, trimming n bytes gives the old chain back, windows included, and the room left before the first block is all that its block has over; on an empty pool, validity is kept exactly in the repaired form |
| PktBuf.PktBuffer.AllocContHeader | src/net/pktbuf.cc:178-191 | a contiguous header comes from one new block, at its very end, so that the rest of the block is headroom; written and repaired outcome on an empty pool |
| PktBuf.PktBuffer.AllocSplitHeader | src/net/pktbuf.cc:193-203 | a split header takes all headroom and the blocks for the rest, all full but the first, which keeps its room before it; on failure the headroom is already part of the packet |
| PktBuf.PktBuffer.RemoveHeader | src/net/pktbuf.cc:209-231 | drops exactly the first n bytes, and returns exactly the blocks they emptied |
| PktBuf.PktBuffer.Resize | src/net/pktbuf.cc:233-293 | growing keeps the bytes as a prefix, and new blocks are full from their start, all but the last; its result, blocks and new capacity follow from sizes, room and pool, and it reaches the size exactly when the code is repaired or the tail room is at most the growth, and the pool has the blocks; shrinking keeps exactly the first bytes where they lie, and the pool is sound exactly when the code is repaired or no block is behind the cut; size zero gives up one reference |
| PktBuf.GrowsRight | src/net/pktbuf.cc:245-262 | when asking for a larger size comes to that size, as an arithmetic fact about sizes, room and pool |
| PktBuf.PktBuffer.Grow | src/net/pktbuf.cc:245-262 | every outcome of the growth branches, including the request that wraps and can never be met |
| PktBuf.PktBuffer.Shrink | src/net/pktbuf.cc:268-289 | the first n bytes remain, the blocks past the cut leave the list, and what is released for them |
| PktBuf.PktBuffer.EraseBehind | src/net/pktbuf.cc:279-285 | erasing the blocks behind a place: the list, the capacity, the pool, and when the pool stays sound |
| PktBuf.PktBuffer.MergeBuf | src/net/pktbuf.cc:295-301 | the contents and block lists are concatenated, the other buffer is empty and returned; when the cursor stays coherent |
| PktBuf.PktBuffer.SetContHeader | src/net/pktbuf.cc:303-340 | bytes and capacity unchanged, the first n bytes in the first block, exactly the emptied blocks returned to the pool, the rest trimmed; refused exactly when n exceeds the capacity or a block |
| PktBuf.PktBuffer.PullAll | src/net/pktbuf.cc:322-338 | the loop that pulls bytes from the following blocks into the first one, over any chain |
| PktBuf.PktBuffer.ShiftFirst | src/net/pktbuf.cc:319-320 | the overlapping move of the first window to the start of its payload keeps the packet |
| PktBuf.PktBuffer.ResetAccess | src/net/pktbuf.cc:64-72 | makes the cursor coherent, at position zero |
| PktBuf.PktBuffer.MoveForward | src/net/pktbuf.cc:423-438 | moving inside a block, or to the next one at its end, keeps the cursor the one its position determines |
| PktBuf.PktBuffer.Seek | src/net/pktbuf.cc:342-371 | reaches the cursor that the offset alone determines, the end included; refuses offsets beyond it and changes nothing then |
| PktBuf.PktBuffer.Write | src/net/pktbuf.cc:440-462 | a write is a splice of the flat packet at the position; every refusal, and nothing changed by it |
| PktBuf.PktBuffer.Fill | src/net/pktbuf.cc:393-414 | every byte of the range is the value, every other one as it was; every refusal |
| PktBuf.PktBuffer.Read | src/net/pktbuf.cc:464-486 | reads exactly the slice at the position into the front of the destination, and nothing else of it changes |
| PktBuf.PktBuffer.Copy | src/net/pktbuf.cc:373-391 | between buffers with block boundaries anywhere: a splice of a slice, both cursors advanced by n, the source unchanged; every refusal; terminates |
| PktBuf.PktBuffer.CursorInside | src/net/pktbuf.cc:416-438 | a coherent cursor is inside a block of the list exactly when its position is inside the packet, and what is left of that block is inside the packet too |
| PktBuf.PktManager.GetBlock | src/net/pktbuf.cc:532-539 | the first pooled block with an empty window, or null exactly when there is none |
| PktBuf.PktManager.ReleaseBlock | src/net/pktbuf.cc:541-544 | goes to the end of the pool if there is room; a block of the manager's own that is not pooled always has it |
| PktBuf.PktManager.GetBuffer | src/net/pktbuf.cc:546-553 | the first pooled buffer, reset |
| PktBuf.PktManager.RoomForOwn | src/net/pktbuf.cc:541-544 | an own block that is not in the pool is never refused |
| Chain.LocateExact | src/net/pktbuf.cc:342-371 | positions and cursors determine each other on every chain |
| Chain.LocateForward | src/net/pktbuf.cc:423-438 | how the located cursor changes when the position moves on |
| Chain.StoreIsSplice | src/net/pktbuf.cc:452-459 | storing into one block at a located position is a splice of the whole packet |
| Chain.ChunksSum | src/net/pktbuf.cc:101-114 | cutting a request into blocks loses and invents no byte and needs no more blocks than it must |
| Chain.TrimBytes | src/net/pktbuf.cc:213-228 | trimming a chain from the front is dropping bytes of the packet |
| PktWorld.WriteReadBack | src/net/pktbuf.cc:440-486 | what was written at a position is what is read after seeking back to it |
| PktWorld.HeaderRoundTrip | src/net/pktbuf.cc:161-231 | adding a header and removing it restores block list, windows, bytes, capacity and the set of pooled blocks, in all three branches |
| PktWorld.TwoHeaders | src/net/pktbuf.cc:178-191 | two contiguous headers that fit one block together take one block at most, and none exactly when the packet had room for both: the second goes into the room the first left |
| PktWorld.CallKept | src/net/pktbuf.cc:82-340 | an operation that moves blocks only between its buffer and the pool keeps the partition of all blocks |
| PktWorld.AddHeader | src/net/pktbuf.cc:161-207 | written or repaired, a header keeps the packet sound exactly when it does not ask an empty pool for a contiguous block; then no block is lost |
| PktWorld.ChangeSize | src/net/pktbuf.cc:233-293 | written or repaired, a new size keeps the packet and the pool sound exactly when it grows or cuts off no block; then no block is lost |
| PktWorld.Step | src/net/pktbuf.cc:82-414 | each single operation, written or repaired, on any of the live buffers, keeps the partition, and does to the flat packets what `Effect` says of it: which bytes are added, dropped, overwritten or moved, and that every other live packet is as it was; of the written ones, those that AddHeader and ChangeSize call harmless |
| PktWorld.Run | src/net/pktbuf.cc:82-414 | over any script of such operations on any number of buffers, the pool and the live buffers' lists are a partition of the initial blocks without duplicates, every listed block has a non-empty window inside its own payload, capacities are sums of windows, and pooled buffers are empty; and the packets go through the effects of the calls, one after the other, to what the buffers hold in the end |
| PktWorld.RunFromStart | src/net/pktbuf.cc:82-414 | the same from the start of a manager of any configuration |
| RingMachine.StepKeepsSafe | src/lock_free_ring_queue.h:71-126 | any atomic step, unless it starts a push beside another where pushes must not overlap, keeps what StepSafe states |
| RingMachine.StepSafe | src/lock_free_ring_queue.h:71-126 | every atomic step of any thread keeps indices in order and less than m apart, confirmed cells intact, tickets unique, and the popped values those of the first tickets |
| RingMachine.AlwaysSafe | src/lock_free_ring_queue.h:71-126 | the same over every schedule, in all the configurations that FifoExactlyWhen finds in order |
| RingMachine.FifoExactlyWhen | src/lock_free_ring_queue.h:71-126 | in every interleaving the values popped are a prefix of the values pushed, exactly when at most one thread pushes, or the test for full is repaired and with it the confirm loop, unless there are two cells |
| RingMachine.UnwrittenSlotPopped | src/lock_free_ring_queue.h:90-93 | the run, on any ring of three cells or more and with either test for full, in which two producers let a popper read a slot before it is written |
| RingMachine.FullQueueOverrun | src/lock_free_ring_queue.h:76-85 | the run, on any ring and with either confirm loop, in which a stale read index lets two producers overwrite an element not yet read |
| RingMachine.RunCounted | src/lock_free_ring_queue.h:84-97 | for any threads and schedule, as written: the write indices differ by the pushers between reserving and confirming, and the length lags by the operations not yet counted |
| RingMachine.QuietLength | src/lock_free_ring_queue.h:139-142 | with all threads idle the length is the number of elements |
| RingMachine.PushOutcome | src/lock_free_ring_queue.h:75-85 | over every schedule, with any threads and either code: a push keeps its value through any number of failed exchanges until a test that looks full gives it up or the value is pushed |
| RingMachine.PopOutcome | src/lock_free_ring_queue.h:108-125 | likewise a pop goes on until a test that looks empty gives it up or a value is popped |
| RingMachine.RefusedPushWasFull | src/lock_free_ring_queue.h:76-83 | with one producer, however often its exchanges failed before, a push is refused exactly when the ring was full at the instant it last loaded its read index; otherwise it goes on with its value or the value is in |
| RingMachine.RefusedPushIsFull | src/lock_free_ring_queue.h:76-83 | with the test repaired and any number of producers, a push is refused exactly when the ring is full at the test |
| RingMachine.RefusedPopWasEmpty | src/lock_free_ring_queue.h:109-116 | with one popper, however often its exchanges failed before, a pop is refused exactly when no confirmed element was left at its test; otherwise it goes on or takes the first element |
| RingWord.StepWord | src/lock_free_ring_queue.h:71-126 | the machine with 32-bit counters takes the same step as the unbounded one |
| RingWord.WordFifo | src/lock_free_ring_queue.h:56-126 | first-in first-out for the 32-bit counters and the rounded size, on runs of any length |
| RingWord.WordQuietLength | src/lock_free_ring_queue.h:139-142 | with all threads idle, size() is the difference of the 32-bit indices |
| RingIndex.PowerTest | src/lock_free_ring_queue.h:144-147 | the bit test holds exactly of the powers of two |
| RingIndex.SmearFills | src/lock_free_ring_queue.h:149-156 | five smearing steps set every bit below the top one |
| RingIndex.CeilIsTop | src/lock_free_ring_queue.h:149-157 | what is left of a word is its top bit |
| RingIndex.MaskIsMod | src/lock_free_ring_queue.h:164-167 | masking is taking the remainder |
| RingIndex.SizeRounded | src/lock_free_ring_queue.h:56-60 | for every size up to 2^31 the number of cells is the least power of two that is at least 2 and the size, divides 2^32, and masks as a remainder |
| RingIndex.SizeExactlyWhen | src/lock_free_ring_queue.h:159-162 | the rounding meets its purpose exactly for sizes up to 2^31 |
| RingQueue.Queue.Create | src/lock_free_ring_queue.h:56-69 | a size of zero is refused; up to 2^31 the result is an empty queue of the rounded size |
| RingQueue.Queue.Push | src/lock_free_ring_queue.h:71-98 | appends to the queue, refused exactly when it holds one element less than it has cells |
| RingQueue.Queue.Pop | src/lock_free_ring_queue.h:100-126 | takes the first element, refused exactly when there is none |
| RingQueue.Queue.Size | src/lock_free_ring_queue.h:139-142 | between calls the length is the number of elements |
| RingQueue.FullTest | src/lock_free_ring_queue.h:81-81 | the masked test for full on wrapping indices is the test on the element count |
| RingQueue.EmptyTest | src/lock_free_ring_queue.h:114-114 | likewise the test for empty |
| MemBlock.BlocksApart | src/net/memblock.cc:13-18 | the pool's blocks do not overlap and lie inside the allocation |
| MemBlock.Pool.Create | src/net/memblock.cc:7-19 | no pool for capacity zero; otherwise one block less than the rounded capacity, in address order |
| MemBlock.Pool.Fill | src/net/memblock.cc:16-18 | the filling loop, whose last push the queue refuses |
| MemBlock.Pool.Alloc | src/net/memblock.cc:25-31 | the first free block, never one that is handed out; none exactly when none is free |
| MemBlock.Pool.Release | src/net/memblock.cc:33-36 | a block given back by its owner is always accepted |
| MemBlock.Pool.Serve | src/net/memblock.cc:25-36 | over any history of taking and giving back, held and free blocks together are the pool, without duplicates, and both are what the requests come to one by one: the first free block is taken, one given back goes behind the free ones |
| RingPool.PoolExactlyWhen | src/net/memblock.cc:25-36 | with threads that take and free in every interleaving, no block is handed out while it is held and none given back is refused, exactly when one thread frees, or there is one block, or confirm loop and test for full are both repaired |
| RingPool.AlwaysApart | src/net/memblock.cc:25-36 | and then every block is at every moment in exactly one place, and none is lost: in the ring, with one thread, or being given back by one |
| RingPool.TurnKeeps | src/lock_free_ring_queue.h:71-126 | every atomic step of any thread, failed exchanges included, keeps the blocks apart, loses none, and keeps the ring safe |
| RingPool.NoBlockTaken | src/lock_free_ring_queue.h:90-93 | the run, for any number of blocks above one, in which a thread is handed what is no block |
| RingPool.FreeRefused | src/lock_free_ring_queue.h:76-83 | the run, for any number of blocks above one, in which a block is refused for which there is room |
| MemBlock.Pool.WarmUp | src/net/pktbuf.cc:512-520 | the start-up loop reaches exactly the first count blocks, and all of them exactly when count is at least their number; its assertions hold |
| MemBlock.WarmCounts | src/net/pktbuf.cc:511-512 | the counts for which the start-up loop runs often enough |
| MemBlock.StartUp | src/net/pktbuf.cc:507-530 | from the configured count: every pooled block is initialised exactly when the count or the count plus one is a power of two |
| Timers.InsertOrdered | src/timer.cc:176-178 | inserting keeps the set strictly ordered by deadline and address |
| Timers.PlaceFound | src/timer.cc:43-44 | a timer of the set is found at its own place, on the deadlines as they now are |
| Timers.AddSound | src/timer.cc:101-106 | a new timer keeps the order; the set holds just the timers with a callback exactly when the new one has one |
| Timers.MoveSound | src/timer.cc:56-62 | taking a timer out, changing its deadline and putting it back keeps the order |
| Timers.RunSound | src/timer.cc:39-186 | over every run the set stays strictly ordered although deadlines change, earlier ones first and lower addresses first among equal ones, every timer with a callback is in it, and exactly those if none is made without a callback |
| Timers.ResetAnswersExactly | src/timer.cc:66-90 | the answer of reset is whether the timer is armed, exactly when it is armed or the call asks for a change |
| Timers.ExpireExactly | src/timer.cc:137-174 | the timers that fire are the leading ones, exactly those due, or all on a roll-over; what becomes of every timer's fields and of the set |
| Timers.ExpireAt | src/timer.cc:137-174 | the same place by place in the set as it was, field by field |
| Timers.RearmSound | src/timer.cc:164-173 | the loop over the expired timers: recurring ones back in the set with a new deadline, the others disarmed |
| Timers.CutIs | src/timer.cc:157-160 | the cut by lower bound and skipping is the filter by deadline |
| Timers.NothingDueLeft | src/timer.cc:137-174 | nothing due is left behind, but for a period of zero |
| Timers.RollOverExactly | src/timer.cc:188-196 | the roll-over test is a step back of more than 3600000 milliseconds, exactly outside the first hour of the clock |
| Timers.SleepExactly | src/timer.cc:122-134 | what get_next_time answers is the time to the earliest deadline, the largest word for an empty set; and the wake-up flag is cleared in every case |
| Timers.RefreshWoken | src/timer.cc:50-64 | refresh asks for no wake-up and needs none |
| Timers.ExpireWoken | src/timer.cc:164-173 | nor does putting recurring timers back |
| Timers.RefreshWokenExactly | src/timer.cc:50-64 | with any clock, a refresh keeps the promise made to the sleeper exactly when the new deadline is not before it |
| Timers.ExpireWokenExactly | src/timer.cc:164-173 | likewise expiry, for the recurring timers it puts back |
| Timers.NoMissedWakeUp | src/timer.cc:50-186 | over every run with a clock that does not go back, a wake-up was made since get_next_time was last called, or no pending deadline is earlier than the one it told |
| Timers.RunTickled | src/timer.cc:122-186 | over every run the manager's flag is set exactly when a wake-up was made since get_next_time was last called |
| Timers.FiresAtMostOnce | src/timer.cc:137-174 | in any run a one-shot timer fires at most once, and not while it waits |
| Timers.NewTimerFires | src/timer.cc:26-32 | by what add_timer was asked for, whatever is called later: every callback handed out for the timer is the one given, a timer not asked to recur fires at most once, and one asked to stays in the set until it is cancelled |
| Timers.FiresExactlyOnce | src/timer.cc:101-174 | a one-shot timer left alone has fired exactly once as soon as the expired callbacks are listed at or after its deadline, whatever else was called and whatever the clock did |
| Timers.ListingRecorded | src/timer.cc:137-174 | which timers a listing fires, in which order, and with which callbacks |
| Timers.CancelSilences | src/timer.cc:39-48 | after a cancel that succeeded the timer never fires, whatever is called later |
| Timers.Timer.Cancel | src/timer.cc:39-48 | the method in place does what the operation on values does; its find succeeds; it answers whether there was a callback, which is gone afterwards, and just this timer leaves the set |
| Timers.Timer.Refresh | src/timer.cc:50-64 | likewise; the deadline becomes the time plus the period, modulo 2^64, exactly if there is a callback, and the set keeps its members |
| Timers.Timer.Reset | src/timer.cc:66-90 | likewise; the new period and deadline, from the time or from the old start, and the wake-up, made exactly if the timer comes to the front and none was pending |
| Timers.TimerManager.Find | src/timer.cc:43-43 | the set's search by the comparator finds a timer exactly when it is in the set |
| Timers.TimerManager.AddTimer | src/timer.cc:101-106 | likewise; the new timer has the period, callback and kind asked for and the time plus the period as its deadline, is in the set, and every other timer is as it was; the wake-up it makes |
| Timers.TimerManager.AddLocked | src/timer.cc:176-186 | inserts, and asks for a wake-up exactly when the timer came to the front and none was pending |
| Timers.TimerManager.GetNextTime | src/timer.cc:122-134 | likewise; the flag is clear afterwards, whatever the set |
| Timers.TimerManager.ExpiredEnd | src/timer.cc:157-160 | the end of the expired part, for whatever address the temporary timer has |
| Timers.TimerManager.ListExpiredCb | src/timer.cc:137-174 | likewise: the callbacks handed out are those of the leading timers, as many as are due; every field of every timer, the set and the remembered time afterwards |
| Endian.SwapExchanges | src/endiantool.h:30-32 | the masks and shifts exchange the two bytes |
| Endian.StoredInNetworkOrder | src/endiantool.h:57-81 | on either machine a converted word is stored high byte first |
| Endian.LoadedFromNetworkOrder | src/endiantool.h:57-81 | and read back as the word it was |
| Frames.FrameParses | src/net/netif.cc:272-282 | a built frame reads back as its parts and zeros up to 46 bytes of data, exactly when its data is at most 1500 bytes |
| Frames.FrameBytes | src/net/netif.cc:347-372 | where each byte of a built frame comes from, in figures |
| Frames.ParseFrames | src/net/link_layer.h:16-25 | and every legal frame is what its parts build |
| Frames.RequestParses | src/net/arp.h:15-27 | the request read field by field |
| Frames.RequestFrameParses | src/net/netif.cc:334-345 | the broadcast request read through both layers, padding included |
| Frames.RequestOnWire | src/net/netif.cc:334-372 | a frame is the broadcast request exactly when its 60 bytes are the ones written out in `OnWire`, for all addresses |
| Ether.EtherNet.LinkIn | src/net/netif.cc:272-319 | accepts exactly the frames that can be taken apart, those of 14 to 1514 bytes, and takes the protocol from a header in one block |
| Ether.EtherNet.Pad | src/net/netif.cc:348-361 | short data gets exactly the zeros it lacks, exactly when the tail room allows it as written; the result and the blocks taken follow from sizes, room and pool |
| Ether.EtherNet.RoomForHeader | src/net/netif.cc:363-367 | fourteen contiguous bytes before the packet, and no block lost; every refusal |
| Ether.EtherNet.PutHeader | src/net/netif.cc:363-372 | the fourteen bytes before the data; every refusal |
| Ether.FramesRight | src/net/netif.cc:347-367 | when framing succeeds and when its header finds no block, from sizes, room and pool before the call |
| Ether.EtherNet.EtherRawOut | src/net/netif.cc:347-396 | the result in every case, from what a caller can see before the call; what is queued is the frame, exactly when the padding comes out right; which queue; and no block lost, exactly unless the header found none |
| Ether.MakeRequest | src/net/arp.cc:29-57 | the 28 bytes of the request for all addresses, in one block; null exactly when there is no buffer or no block, and nothing lost then |
| Ether.FillRequest | src/net/arp.cc:44-54 | nine fields written in place give the request, on either machine |
| Ether.SendOrFree | src/net/netif.cc:340-344 | a packet is queued or freed, in whatever state framing left it; the manager stays in order exactly when the header did not need a block the padding had taken |
| Ether.MakeArpRequest | src/net/netif.cc:334-345 | the whole frame byte for byte, in figures, for all addresses; succeeds exactly when there are a buffer, the blocks and room in the queue; otherwise everything is given back and the manager stays in order, exactly when the request does not spoil the pool: as written, blocks below 42 bytes, two of them pooled, and a buffer |
| Ether.RequestKeepsWorld | src/net/netif.cc:334-345 | in any state a run of buffer operations leads to, a request keeps the partition of all blocks, exactly when it does not spoil the pool |
| Ether.RequestArrives | src/net/netif.cc:293-345 | from one machine to another of any byte order, a request that was sent is accepted and reads as asked |
| Deviations.GrowOvershoots | src/net/pktbuf.cc:248-251 | a run in which growing from 10 bytes to 20 succeeds with 30 |
| Deviations.ShrinkLosesBlock | src/net/pktbuf.cc:280-284 | a run in which shrinking spoils the pool |
| Deviations.HeaderWithoutBlock | src/net/pktbuf.cc:183-188 | a run in which a header leaves a block that is none in the list |
| Deviations.RequestSpoilsPool | src/net/netif.cc:334-345 | a run in which a request puts a block that is none into the pool |
| Deviations.CancelledResetSucceeds | src/timer.cc:66-69 | a run in which resetting a cancelled timer answers success |
| Deviations.RefreshPassesUnseen | src/timer.cc:50-64 | a run in which a refresh after the clock went back passes the sleeper by |
| Deviations.ColdBlocks | src/net/pktbuf.cc:511-520 | a start-up that leaves two of seven blocks uninitialised |
| Deviations.EarlyRollOver | src/timer.cc:188-196 | a step back of one millisecond taken for a roll-over |

## Left out

- Platform code, pcap loops, threads, mutexes, event descriptors and message queues: foreign calls.
- Logging, configuration, singletons, address printing and parsing, interface states: simple code
  that the packet and queue results do not depend on.
- `is_full` of the ring queue, which compares a masked with an unmasked index and has no caller.
- The timeout arguments of queue operations, which the code ignores.
- What the ring held at a refusal with several producers and the test as written, or with several
  poppers: there a refusal is tied to the indices loaded (`PushOutcome`, `PopOutcome`).
- Weak memory orders and threads that sleep through 2^32 operations: assumptions, see above.
- More than one owner of a buffer: allocation resets the reference count to one.
- `INetIF::netif_out`, `EtherNet::link_out` and the message blocks of the receive path; received
  packets are not consumed yet, so no conservation is claimed for them.
- `add_condition_timer`: it only wraps the callback.
- MemBlock.Pool.Create: no negative capacities, and no products of size and count beyond 31 bits.
- PktBuf.PktBuffer.Copy: not from a buffer into itself.
- PktBuf.PktBuffer.Write: the bytes written do not lie in the packet's own payloads.
- PktBuf.PktBuffer.Read: nor does the memory read into.
- Ether.EtherNet.LinkIn: asks for blocks of at least 14 bytes; with smaller ones the source reads
  the header past the end of a block.
- Ether.MakeRequest: asks for blocks of at least 28 bytes; with smaller ones the source writes the
  request past the end of a block.
- RingQueue.Queue.Push: one call at a time, so its two exchange loops run once; their retries are
  in RingMachine.
- RingQueue.Queue.Pop: likewise; the null destination, which throws, cannot be written in Dafny.
- PktBuf.PktBuffer.RemoveHeader: asks for a list with blocks and a size within the capacity; the
  source asserts the one and runs past the list without the other.
- PktBuf.PktBuffer.SetContHeader: leaves out size zero on an empty list, where the source reads the
  front of an empty list.
- Timers.NoMissedWakeUp: over runs with a clock that does not go back; for one that does, the
  condition is stated call by call, in RefreshWokenExactly and ExpireWokenExactly.
- PktWorld.Step: leaves out, of the code as written, the calls that are not harmless, which do not
  keep the partition.
- PktWorld.Run: likewise.
- PktWorld.RunFromStart: likewise.
- MemBlock.Pool.Serve: one call at a time; interleaved calls are the subject of RingPool.
