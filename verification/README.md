# LGX runtime: verified models of its allocators, codecs and frame bookkeeping

This project models the parts of the LGX runtime whose correctness rests on long-lived state
or on an encoder and a decoder agreeing with each other, and proves what those parts promise
over every input and every run:

- the **buddy allocator of the GPU pool** with its growing slot array, linked free lists,
  stack of dead slots and external handles;
- the **lock-free free list** (a Treiber stack) under arbitrary interleavings;
- the **asset compressor**, the **snapshot delta codec** and the **typed network stream**;
- the **triple-buffered frame arena** with chained growth and rotation;
- **allocation tracking with delayed reclamation**;
- the **profiler's zone stack and frame ring**.

`dafny verify dfyconfig.toml` checks the whole project.

## How the models are built

Code that updates records in place is a class whose methods follow the program step by step.
Each such class carries a ghost `model` (or `view`, `frame`, `log`), a plain value, and every
method is proved to change it exactly as a function on values says. The theorems over whole
runs are lemmas about those functions, with a run being any sequence of operations. Growing
lists are `seq` fields, fixed buffers are arrays, pointers into the slot array are slot
numbers with -1 for NULL. What the environment decides (whether memory is granted, which
address a mapping call returns, the clock, spurious compare-and-swap failures) is a parameter.
Sizes are unbounded integers; the 32-bit frame counters, the word-sized block counter and the
conversion of lengths to `int` wrap explicitly.

| modules | part of the program |
|---|---|
| `Basics`, `Bits`, `Bytes` | shared definitions: exclusive or, multiples, bytes |
| `BuddyLayout`, `BuddyModel`, `GpuPoolModel` | buddy pool on values: tiling, operations, runs of handles |
| `GrowthFailure` | what a failed growth of the slot array costs, and in which pools |
| `BuddyLinks`, `BuddyPool`, `GpuPool` | buddy pool as linked records updated in place |
| `TreiberStack` | lock-free free list as a step machine |
| `RleCodec`, `DeltaCodec`, `NetStream` | codecs and stream |
| `FrameArenaModel`, `FrameArena` | frame arena on values, and in place |
| `DelayedFree`, `MemorySafety` | delayed reclamation on values, and in place |
| `ProfileModel`, `Profile` | zones of a frame, and the profiler in place |

## Where the code falls short of its description

- **Pool sizes.** A pool smaller than the block it starts with (any size up to 64 MB that is
  not a block size, such as a budget cut to 80% of a small heap) hands out memory past its
  end, at the latest to its first full-size request (`GpuPoolModel.FirstGrantOutside`). Granted
  requests stay inside the pool over all runs exactly when the first block does
  (`GpuPoolModel.GrantsInsideIff`).
  A larger pool wastes what lies behind its first block: the 256 MB pool refuses a second
  request for 64 MB with 192 MB free (`GpuPoolModel.DeviceLocalPoolStops`). Over all runs
  requests are granted exactly when the pool has room for them if and only if the first block
  is the pool, up to a rest too short for a block (`GpuPoolModel.ExactInPoolIff`).
- **Failed growth.** When the slot array cannot grow in the middle of a chain of splits, free
  buddies are left apart; `BuddyModel.AllocCoalescedIff` gives the exact condition. Freeing
  every handle does not bring the whole block back then
  (`GrowthFailure.FreeingDoesNotRestore`), retrying the request with memory available does
  (`GrowthFailure.RetryHeals`, `GrowthFailure.RetryRestores`). Such runs exist exactly in pools
  larger than 1024 smallest blocks, 256 KB (`GrowthFailure.GrowthMattersIff`).
- **ABA.** The generation counter of the lock-free pool is not part of the compare-and-swap.
  Two pops in flight can hand out a block twice (`TreiberStack.AbaHandsOutTwice`). A run is
  safe exactly when no pop swaps in a stale successor (`TreiberStack.SafeIffNeverStale`), which
  holds with any number of pops as long as no push puts back a block that a pop still expects
  with another successor (`TreiberStack.NoReuseIsSafe`); as a bound on pops in flight, one is
  exactly what makes all runs safe (`TreiberStack.SafeIffOnePop`).
- **Frame counter wrap.** 2^32 is not a multiple of three, so when the frame counter wraps the
  arena of the current frame is reset at once; `FrameArenaModel.LifetimeIff` says exactly when
  a frame's memory survives two resets. Over all runs it does if and only if there are fewer
  than 2^32 - 1 resets (`FrameArenaModel.LifetimeOverRunsIff`).
- **Streams.** A string whose length fits but whose text does not leaves the length in the
  stream (`NetStream.Stream.WriteString`). That is the one failed write that does harm: the
  bytes are those of the values written exactly without it (`NetStream.Stream.BytesIffNotTorn`).

## Model

| member | source | states |
|---|---|---|
| Bits.XorFlipsBit | src/runtime/lgx_gpu_pool.c:154-157 | exclusive or of a multiple of 2^n with 2^n moves it by exactly 2^n, up or down |
| Bits.XorBits | src/net/lgx_net.c:445-445 | each binary digit of the exclusive or is one exactly where the digits differ |
| BuddyLayout.BuddyOfAligned | src/runtime/lgx_gpu_pool.c:154-157 | the XOR buddy of an aligned block is the neighbour that completes an aligned block of the next level, and the relation is symmetric |
| BuddyLayout.TilesNest | src/runtime/lgx_gpu_pool.c:147-157 | two aligned blocks are disjoint or one lies inside the other |
| BuddyLayout.SplitKeepsTiling | src/runtime/lgx_gpu_pool.c:264-299 | halving a free block keeps the live blocks an exact tiling of the pool |
| BuddyLayout.SplitKeepsCoalesced | src/runtime/lgx_gpu_pool.c:264-299 | halving a block creates no free buddy pair that does not involve it |
| BuddyLayout.MergeKeepsTiling | src/runtime/lgx_gpu_pool.c:401-412 | merging two halves keeps the exact tiling, and never passes the level of the whole pool |
| BuddyLayout.TileIsLarge | src/runtime/lgx_gpu_pool.c:345-433 | in a fully coalesced pool every block that meets an aligned range without live allocations is at least as large as that range |
| BuddyLayout.FreeTileIffRoom | src/runtime/lgx_gpu_pool.c:310-433 | a fully coalesced pool has a free block of at least a level if and only if some aligned range of that size holds no live allocation |
| BuddyLayout.EmptyPoolIsOneTile | src/runtime/lgx_gpu_pool.c:345-433 | a coalesced pool without live allocations is one free block of the whole size |
| BuddyModel.LevelFor | src/runtime/lgx_gpu_pool.c:129-142 | the level reaches the size unless it is the top one, and the level below does not |
| BuddyModel.LevelForIsLeast | src/runtime/lgx_gpu_pool.c:129-142 | up to 64 MB the level is the least one whose block size reaches the request, and a level suffices if and only if it is at least that |
| BuddyModel.InitInv | src/runtime/lgx_gpu_pool.c:162-188 | the initial pool meets the full invariant, for every pool size |
| BuddyModel.GrowKeepsInv | src/runtime/lgx_gpu_pool.c:197-222 | rebuilding the lists from the slots gives lists with exactly the free slots of each level |
| BuddyModel.SplitStep | src/runtime/lgx_gpu_pool.c:228-302 | a split keeps the invariant (tiling, sizes, lists, dead stack, byte counts, slot bound), touches no allocated slot, and keeps coalescing up to the split block |
| BuddyModel.SplitDownReaches | src/runtime/lgx_gpu_pool.c:328-333 | splitting down stops at exactly the wanted level at the same offset, and always gets there when the array can grow |
| BuddyModel.SplitDownNeedsSpare | src/runtime/lgx_gpu_pool.c:240-254 | without growth the chain of splits reaches its level if and only if enough spare slots exist, and changes nothing only when there are none |
| BuddyModel.MergeStep | src/runtime/lgx_gpu_pool.c:380-429 | a merge keeps the invariant, touches no allocated slot, and leaves the merged block as the only one that may have a free buddy |
| BuddyModel.CoalesceKeepsInv | src/runtime/lgx_gpu_pool.c:345-433 | coalescing ends, keeps the invariant and all allocated slots, and leaves no two free buddies |
| BuddyModel.AllocKeepsInv | src/runtime/lgx_gpu_pool.c:440-499 | a granted slot was not allocated, has exactly the level of the request and is the only changed allocation; a refused request changes none |
| BuddyModel.AllocSucceedsIffRoom | src/runtime/lgx_gpu_pool.c:440-499 | a request succeeds if and only if it is within the limits and an aligned range of its block size is free of allocations |
| BuddyModel.AllocCoalescedIff | src/runtime/lgx_gpu_pool.c:240-254 | an allocation leaves free buddies apart exactly when growth fails after some but not all of the splits it needs |
| BuddyModel.AllocWithoutGrowthIff | src/runtime/lgx_gpu_pool.c:240-254 | without growth a request is granted if and only if it is within the limits, a larger or equal block is listed, and the spare slots suffice for the splits from the smallest such level |
| BuddyModel.FreeKeepsInv | src/runtime/lgx_gpu_pool.c:504-532 | freeing keeps the invariant and every other allocation, gives back exactly the recorded size, and keeps the pool fully coalesced |
| GpuPoolModel.Exec | src/runtime/lgx_gpu_pool.c:907-1007 | after every run of allocations and frees, with any failures of the C library, pool and handles meet the invariant: handles and allocated slots correspond one to one, and allocated bytes, used budget and the sum of handle sizes agree |
| GpuPoolModel.StepKeepsInv | src/runtime/lgx_gpu_pool.c:907-1007 | every allocation, undone allocation and free keeps that invariant |
| GpuPoolModel.RunCoalesced | src/runtime/lgx_gpu_pool.c:345-532 | between operations of any run whose growths succeed no two free blocks are buddies |
| GpuPoolModel.AllocationIsExact | src/runtime/lgx_gpu_pool.c:310-499 | after every such run a request is granted if and only if it is within the limits and some naturally aligned range of its block size, in the block the pool starts with, meets no live handle |
| GpuPoolModel.ExactInPoolIff | src/runtime/lgx_gpu_pool.c:129-186 | over all such runs requests are granted exactly when the whole pool has such a range, if and only if the first block fits into the pool and leaves less than one smallest block |
| GpuPoolModel.GrantsInFirstBlock | src/runtime/lgx_gpu_pool.c:173-186 | over all runs no handle reaches past the first block |
| GpuPoolModel.BeyondFirstBlock | src/runtime/lgx_gpu_pool.c:129-186 | with the first block taken every further request is refused, though no handle lies behind that block |
| GpuPoolModel.DeviceLocalPoolStops | src/runtime/lgx_gpu_pool.c:31-31 | the 256 MB pool refuses its second request for 64 MB while an aligned 64 MB range in it meets no handle |
| GpuPoolModel.AllFreedRestores | src/runtime/lgx_gpu_pool.c:504-532 | once every handle has been freed one free block of the whole pool remains and every other slot is dead |
| GpuPoolModel.HandleStable | src/runtime/lgx_gpu_pool.c:895-967 | after every run a live handle still names an allocated slot with the handle's offset and size |
| GpuPoolModel.HandlesDisjoint | src/runtime/lgx_gpu_pool.c:907-972 | live handles never overlap |
| GpuPoolModel.HandleMeetsRequest | src/runtime/lgx_gpu_pool.c:450-464 | a handle's block is the least block size that reaches size and alignment, and its offset is a multiple of every power-of-two alignment asked for |
| GpuPoolModel.BytesConserved | src/runtime/lgx_gpu_pool.c:492-517 | for a pool of a block size, the sizes recorded along all free lists plus the allocated bytes are the pool, and every handle records its exact block size |
| GpuPoolModel.FreeListsSum | src/runtime/lgx_gpu_pool.c:545-554 | walking the free lists sums the recorded sizes of exactly the free slots |
| GpuPoolModel.SlotsConserved | src/runtime/lgx_gpu_pool.c:268-276 | slots are live slots plus dead slots, and never more than the pool has smallest blocks |
| GpuPoolModel.RunPeak | src/runtime/lgx_gpu_pool.c:492-496 | over every run the peak is the highest number of bytes ever allocated |
| GpuPoolModel.CapacityBound | src/runtime/lgx_gpu_pool.c:240-254 | over every run the slot array is its first size doubled some times, and at most twice the slots in use once it has grown |
| GpuPoolModel.GrantsInsideIff | src/runtime/lgx_gpu_pool.c:162-186 | over all runs granted requests lie inside the pool if and only if the initial block does |
| GpuPoolModel.FirstGrantOutside | src/runtime/lgx_gpu_pool.c:173-180 | otherwise the first request for that block gets more bytes than the pool has |
| GrowthFailure.SmallPoolHasSpare | src/runtime/lgx_gpu_pool.c:240-254 | in a pool of at most 1024 smallest blocks the slots in place suffice to split any free block all the way down |
| GrowthFailure.AllocCounts | src/runtime/lgx_gpu_pool.c:310-340 | a request at level k served from level l adds l - k slots, takes one block off list l and leaves one more on each list from k up to l |
| GrowthFailure.SmallestGrant | src/runtime/lgx_gpu_pool.c:310-340 | with list lengths that spell a number in binary, a request for 256 bytes counts it down by one |
| GrowthFailure.GrowthFailureSplits | src/runtime/lgx_gpu_pool.c:240-254 | in every pool of more than 1024 smallest blocks, 1014 granted requests and one whose growth fails leave free buddies apart |
| GrowthFailure.CoalesceKeepsPair | src/runtime/lgx_gpu_pool.c:345-433 | coalescing from another block never touches two free buddies |
| GrowthFailure.FreeingDoesNotRestore | src/runtime/lgx_gpu_pool.c:504-532 | in every such pool a run with one failed growth ends with every handle freed and two free buddies still apart |
| GrowthFailure.SplitDownKeepsHead | src/runtime/lgx_gpu_pool.c:310-333 | wherever a chain of splits without growth stops, the split block heads the first nonempty list from the wanted level up |
| GrowthFailure.RetryHeals | src/runtime/lgx_gpu_pool.c:310-340 | the same request again, with growth available, leaves no free buddies apart, whatever the failed one did |
| GrowthFailure.RetryRestores | src/runtime/lgx_gpu_pool.c:310-532 | after any run without failed growth, one failed request and its retry, freeing every handle brings the whole block back |
| GrowthFailure.GrowthMattersIff | src/runtime/lgx_gpu_pool.c:162-254 | over all runs, with any failed growths, free buddies are merged, the whole block comes back when all is freed, and requests are granted exactly when there is room: each of the three if and only if the pool has at most 1024 smallest blocks |
| BuddyLinks.UnlinkKeepsLinks | src/runtime/lgx_gpu_pool.c:256-265 | the pointer edits that unlink a block leave every free list a well-linked chain through exactly its other members |
| BuddyLinks.PushKeepsLinks | src/runtime/lgx_gpu_pool.c:519-525 | the pointer edits that push a block leave every free list a well-linked chain with the block in front |
| BuddyLinks.DeadPush | src/runtime/lgx_gpu_pool.c:415-419 | pushing a merged-away slot extends the dead stack |
| BuddyLinks.DeadPop | src/runtime/lgx_gpu_pool.c:270-272 | taking the top dead slot leaves the rest of the stack |
| BuddyPool.BuddyAllocator.constructor | src/runtime/lgx_gpu_pool.c:162-188 | builds the initial pool of the model |
| BuddyPool.SizeToLevel | src/runtime/lgx_gpu_pool.c:129-142 | the loop computes the level function |
| BuddyPool.FindNonemptySlot | src/runtime/lgx_simd_ops.c:62-118 | the scan, four at a time or one by one, returns the first entry that is not NULL, or -1 if and only if all are |
| BuddyPool.BuddyAllocator.Unlink | src/runtime/lgx_gpu_pool.c:256-265 | the block leaves its list; only links change, and none of a block that is not free |
| BuddyPool.BuddyAllocator.PushFront | src/runtime/lgx_gpu_pool.c:519-525 | the block enters the front of its list; only links change |
| BuddyPool.BuddyAllocator.RebuildFreeLists | src/runtime/lgx_gpu_pool.c:197-222 | with an empty dead stack, the scan relinks exactly the free blocks, highest slot first |
| BuddyPool.BuddyAllocator.MakeRoom | src/runtime/lgx_gpu_pool.c:240-254 | grows the slot array and rebuilds the lists exactly when no slot is left, or reports that it cannot and changes nothing |
| BuddyPool.BuddyAllocator.Split | src/runtime/lgx_gpu_pool.c:228-302 | the linked split does what the model's split does, or nothing at the lowest level or when growth fails |
| BuddyPool.BuddyAllocator.FindFreeBlock | src/runtime/lgx_gpu_pool.c:310-340 | takes the first nonempty list from the level up and splits its head down |
| BuddyPool.BuddyAllocator.MergePair | src/runtime/lgx_gpu_pool.c:380-427 | the linked merge does what the model's merge does |
| BuddyPool.BuddyAllocator.CoalesceFrom | src/runtime/lgx_gpu_pool.c:345-433 | the loop does what the model's coalescing does, and ends |
| BuddyPool.BuddyAllocator.FindBuddy | src/runtime/lgx_gpu_pool.c:359-374 | the scan over all slots finds the first free slot at the buddy's offset and level |
| BuddyPool.BuddyAllocator.BuddyAlloc | src/runtime/lgx_gpu_pool.c:440-499 | result and new state are those of the model's allocation |
| BuddyPool.BuddyAllocator.BuddyFree | src/runtime/lgx_gpu_pool.c:504-532 | new state is that of the model's free; NULL and free blocks are ignored |
| GpuPool.MemoryPool.GpuAlloc | src/runtime/lgx_gpu_pool.c:931-972 | a handle is returned exactly when the model grants one, with its slot number, offset and size; a failed handle record undoes the allocation |
| GpuPool.MemoryPool.GpuFree | src/runtime/lgx_gpu_pool.c:988-1003 | frees the block of a live handle and gives its size back to the budget |
| TreiberStack.PushStep | src/runtime/lgx_lockfree_pool.c:114-119 | a successful push swap puts its block on top of the abstract stack and keeps chain and ownership |
| TreiberStack.PopStep | src/runtime/lgx_lockfree_pool.c:141-155 | a successful pop swap whose successor is not stale takes exactly the top of the abstract stack |
| TreiberStack.StaleBreaks | src/runtime/lgx_lockfree_pool.c:139-146 | a swap with a stale successor breaks the chain at once |
| TreiberStack.CountStep | src/runtime/lgx_lockfree_pool.c:119-149 | the counter stays the stack length, less pushes and plus pops that have swapped but not yet counted, modulo the word |
| TreiberStack.PopGivesUpOnlyEmpty | src/runtime/lgx_lockfree_pool.c:138-159 | a pop ends empty-handed only when the stack is empty |
| TreiberStack.LookGivesUpIffEmpty | src/runtime/lgx_lockfree_pool.c:138-141 | a pop that starts to look gives up at once if and only if the stack is empty |
| TreiberStack.PopTakesOrGoesOn | src/runtime/lgx_lockfree_pool.c:138-159 | every step of a pop goes on, gives up on an empty stack, or takes the top |
| TreiberStack.PushEntersOrGoesOn | src/runtime/lgx_lockfree_pool.c:112-121 | every step of a push goes on with its block, or puts it on top of the stack |
| TreiberStack.SwapFailsOnlyIfChanged | src/runtime/lgx_lockfree_pool.c:114-146 | a swap that does not fail by chance succeeds if and only if the head is still the one seen |
| TreiberStack.TakenIsReturned | src/runtime/lgx_lockfree_pool.c:146-153 | the block that a pop has taken is the one its caller gets |
| TreiberStack.NextKeepsInv | src/runtime/lgx_lockfree_pool.c:102-160 | every step of every thread and of the callers but a stale swap keeps the chain acyclic and equal to the abstract stack, one place per block, and the counter |
| TreiberStack.NextKeepsPlaced | src/runtime/lgx_lockfree_pool.c:102-160 | no such step loses a block |
| TreiberStack.RunIsSafe | src/runtime/lgx_lockfree_pool.c:102-160 | all of this in every state of every interleaving of any number of threads without a stale swap |
| TreiberStack.SafeIffNeverStale | src/runtime/lgx_lockfree_pool.c:102-160 | over every run with any number of pops in flight, all states are safe if and only if no pop swaps in a stale successor |
| TreiberStack.NoReuseIsSafe | src/runtime/lgx_lockfree_pool.c:102-160 | all runs are safe in which no push puts back a block that a pop still expects with another successor |
| TreiberStack.OnePopIsSafe | src/runtime/lgx_lockfree_pool.c:102-160 | with at most one pop in flight no push does so |
| TreiberStack.PushAlone | src/runtime/lgx_lockfree_pool.c:102-122 | an undisturbed push pushes its block |
| TreiberStack.PopAlone | src/runtime/lgx_lockfree_pool.c:131-160 | an undisturbed pop returns the block at the head |
| TreiberStack.PushTriesAgain | src/runtime/lgx_lockfree_pool.c:112-121 | an undisturbed push pushes, however often its swap fails by chance |
| TreiberStack.PopTriesAgain | src/runtime/lgx_lockfree_pool.c:138-159 | an undisturbed pop takes the block at the head, however often its swap fails by chance |
| TreiberStack.AbaBreaks | src/runtime/lgx_lockfree_pool.c:139-146 | a run with two pops in flight ends with the head at a block that a caller holds |
| TreiberStack.AbaHandsOutTwice | src/runtime/lgx_lockfree_pool.c:131-160 | the next pop after that run takes and returns the block that the caller still holds |
| TreiberStack.SafeIffOnePop | src/runtime/lgx_lockfree_pool.c:102-160 | all runs with at most p pops in flight are safe if and only if p is at most one |
| RleCodec.QuadIsRun | src/asset/lgx_asset.c:357-382 | the two tests for a run (counting, four equal bytes) agree, so every record consumes input |
| RleCodec.RecordEnd | src/asset/lgx_asset.c:357-395 | each record consumes between 1 and 65535 bytes, so lengths fit 16 bits |
| RleCodec.RoundTrip | src/asset/lgx_asset.c:350-432 | decoding the encoding of any bytes into any buffer that holds them gives them back |
| RleCodec.EncodeInjective | src/asset/lgx_asset.c:350-396 | different inputs have different encodings |
| RleCodec.RecordLengths | src/asset/lgx_asset.c:366-392 | lengths and counts in the records are 16-bit words, lowest byte first |
| RleCodec.DecodeIff | src/asset/lgx_asset.c:404-431 | the decoder accepts exactly the sequences of whole records of the two kinds whose bytes fit into the buffer, and gives exactly those bytes |
| RleCodec.SizeBound | src/asset/lgx_asset.c:357-395 | five times the encoded length is at most eight times the input length plus twelve |
| RleCodec.WorstCaseIsExact | src/asset/lgx_asset.c:357-395 | for every length n, the longest encoding of n bytes has exactly 8 q + 4 + r bytes, where n - 1 is 5 q + r |
| RleCodec.SizeBoundIsTight | src/asset/lgx_asset.c:357-395 | at every length 5 m + 1 some input reaches the bound |
| RleCodec.Compress | src/asset/lgx_asset.c:350-396 | writes exactly the encoding, or returns -1 exactly when it does not fit or an argument is empty |
| RleCodec.Decompress | src/asset/lgx_asset.c:398-432 | writes exactly the decoded bytes, or returns -1 exactly when the data is malformed, too long for the buffer or empty |
| DeltaCodec.RoundTrip | src/net/lgx_net.c:433-496 | decoding against the same previous buffer writes exactly the first bytes of the current one, for every output size up to theirs |
| DeltaCodec.EncodeInjective | src/net/lgx_net.c:433-465 | for a fixed previous buffer different buffers have different deltas |
| DeltaCodec.Xor8Bits | src/net/lgx_net.c:445-461 | a written byte has a one in exactly the digits in which the buffers differ |
| DeltaCodec.DecodesChanges | src/net/lgx_net.c:473-495 | any sequence of whole items decodes to what it says, as far as the output reaches |
| DeltaCodec.RefusedIffEndsInside | src/net/lgx_net.c:473-495 | a delta is refused if and only if, with output still to fill, it ends after the zero byte of an item |
| DeltaCodec.SizeBound | src/net/lgx_net.c:444-464 | twice the encoded length is at most three times the buffer length plus one |
| DeltaCodec.SizeBoundIsTight | src/net/lgx_net.c:444-464 | at every length n some buffers have a delta of (3 n + 1) / 2 bytes, rounded down |
| DeltaCodec.DeltaEncode | src/net/lgx_net.c:433-465 | writes exactly the delta, or returns -1 exactly when it does not fit or an argument is empty |
| DeltaCodec.DeltaDecode | src/net/lgx_net.c:467-496 | writes exactly the decoded bytes, or returns -1 exactly when the delta ends inside an item or an argument is empty |
| NetStream.ReadBack | src/net/lgx_net.c:328-417 | wherever a value was written, reading its kind there shows it and ends right behind it; of a string, as much as the buffer holds beside the terminating zero |
| NetStream.StreamRoundTrip | src/net/lgx_net.c:328-417 | reading the same kinds from the bytes of any sequence of writes shows the same values and ends at the same position, for string buffers of any size above zero |
| NetStream.CutIsLongest | src/net/lgx_net.c:359-372 | what is sent of a text is its longest beginning without a zero byte that leaves room for one in the given length |
| NetStream.WholeTextSeen | src/net/lgx_net.c:359-417 | a text without zero bytes that is shorter than both lengths reads back whole |
| NetStream.LowestFirst | src/net/lgx_net.c:335-351 | numbers travel with their lowest byte first |
| NetStream.ReadAtEnd | src/net/lgx_net.c:375-417 | a read past the end shows zero or no text and does not move, except that the length of a cut-off string is consumed |
| NetStream.Stream.WrittenReadsBack | src/net/lgx_net.c:328-417 | over all writes, failed ones included, the values written before the first string that was cut off after its length read back; without such a string these are all values, and reading ends where writing did |
| NetStream.Stream.BytesIffNotTorn | src/net/lgx_net.c:359-372 | the bytes in the buffer are those of the values written if and only if no string was cut off after its length |
| NetStream.Stream.WriteU8 | src/net/lgx_net.c:328-333 | appends one byte, or marks overflow and writes nothing |
| NetStream.Stream.WriteU16 | src/net/lgx_net.c:335-341 | appends two bytes, low first, or marks overflow |
| NetStream.Stream.WriteU32 | src/net/lgx_net.c:343-351 | appends four bytes, low first, or marks overflow |
| NetStream.Stream.WriteF32 | src/net/lgx_net.c:353-357 | appends the bits of a float like a 32-bit number |
| NetStream.Stream.WriteString | src/net/lgx_net.c:359-372 | appends length and cut text, nothing, or only the length, with the exact condition of each |
| NetStream.Stream.ReadU8 | src/net/lgx_net.c:375-378 | reads one byte, or returns 0 without moving |
| NetStream.Stream.ReadU16 | src/net/lgx_net.c:380-385 | reads two bytes, or returns 0 without moving |
| NetStream.Stream.ReadU32 | src/net/lgx_net.c:387-395 | reads four bytes, or returns 0 without moving |
| NetStream.Stream.ReadF32 | src/net/lgx_net.c:397-402 | reads the bits of a float |
| NetStream.Stream.ReadString | src/net/lgx_net.c:404-417 | copies the text cut to the buffer with its terminating zero and passes over all of it |
| FrameArenaModel.ArenaSize | src/runtime/lgx_frame_arena.c:418-430 | the configured size is brought into 16 to 256 MB |
| FrameArenaModel.MaxSize | src/runtime/lgx_frame_arena.c:433-442 | the configured maximum lies between the arena size and 256 MB |
| FrameArenaModel.StartInv | src/runtime/lgx_frame_arena.c:450-502 | three separate chunks give a system that meets the invariant |
| FrameArenaModel.AllocKeepsInv | src/runtime/lgx_frame_arena.c:549-683 | allocation, with or without growth, keeps the invariant |
| FrameArenaModel.AllocReturns | src/runtime/lgx_frame_arena.c:575-683 | an allocation returns the start of a new range of the rounded size in the arena of the frame, if and only if the request fits the chunk or the one it grows to; the arena grows exactly when the chunk is too short and a larger one can be had |
| FrameArenaModel.ReturnedIsNew | src/runtime/lgx_frame_arena.c:656-683 | the returned range is aligned and meets none that is still handed out, in any arena |
| FrameArenaModel.CallersNeverShare | src/runtime/lgx_frame_arena.c:549-683 | over every run, the bytes behind all addresses returned and not yet reset never overlap, start aligned and are recognised by the pointer test |
| FrameArenaModel.ResetKeepsInv | src/runtime/lgx_frame_arena.c:746-844 | reset keeps the invariant |
| FrameArenaModel.AllocationsDisjoint | src/runtime/lgx_frame_arena.c:575-683 | ranges handed out and not yet reset never meet, within and across arenas |
| FrameArenaModel.LiveIsRecognised | src/runtime/lgx_frame_arena.c:911-939 | every byte of such a range is in mapped memory that the pointer test recognises, and the range is 16-byte aligned |
| FrameArenaModel.FrameSurvives | src/runtime/lgx_frame_arena.c:746-805 | memory of a frame survives every run with at most two further resets |
| FrameArenaModel.LifetimeIff | src/runtime/lgx_frame_arena.c:757-762 | it survives them all if and only if the 32-bit frame counter does not wrap at the next reset or nothing was allocated |
| FrameArenaModel.LifetimeOverRunsIff | src/runtime/lgx_frame_arena.c:746-805 | over all runs of the program with up to n resets, memory survives two further resets if and only if n is less than 2^32 - 1 |
| FrameArenaModel.WrapLosesMemory | src/runtime/lgx_frame_arena.c:757-762 | after 2^32 - 1 empty frames and one allocation of 16 bytes, it does not |
| FrameArenaModel.ThirdResetReclaims | src/runtime/lgx_frame_arena.c:757-809 | the third reset takes a frame's memory back, except for the last three frame numbers before the wrap, for which it leaves that arena as it is |
| FrameArenaModel.ThirdFrameIff | src/runtime/lgx_frame_arena.c:757-763 | the third next frame uses the same arena if and only if the frame number is not one of those three |
| FrameArenaModel.RunGrowthBound | src/runtime/lgx_frame_arena.c:321-365 | over every run an arena grows at most four times, stays within its maximum, and keeps less than three times its maximum mapped |
| FrameArenaModel.ProgramGrowthBound | src/runtime/lgx_frame_arena.c:418-442 | so it is for every run of the program from its configured start |
| FrameArenaModel.BumpKeepsBooks | src/runtime/lgx_frame_arena.c:657-665 | bytes in use are the sizes handed out since the last reset, and the peak is the highest such figure ever |
| FrameArenaModel.AverageIsExact | src/runtime/lgx_frame_arena.c:373-386 | the average kept by the running sum is that of the bytes in use at the last 60 resets of the arena, without underflow |
| FrameArena.ArenaRecord.GrowArena | src/runtime/lgx_frame_arena.c:343-362 | retires the full chunk and switches to the new one |
| FrameArena.ArenaRecord.BumpBy | src/runtime/lgx_frame_arena.c:656-683 | returns the next address and advances offset and peak |
| FrameArena.ArenaRecord.UpdateRollingAverage | src/runtime/lgx_frame_arena.c:373-386 | replaces one window entry and keeps the sum |
| FrameArena.ArenaRecord.ClearArena | src/runtime/lgx_frame_arena.c:299-309 | unmaps exactly the retired chunks and empties the arena |
| FrameArena.ArenaRecord.TakeBack | src/runtime/lgx_frame_arena.c:804-812 | averages, then clears the arena, and returns what was unmapped |
| FrameArena.ArenaSystem.constructor | src/runtime/lgx_frame_arena.c:413-505 | three empty arenas of the configured sizes |
| FrameArena.ArenaSystem.FrameAlloc | src/runtime/lgx_frame_arena.c:549-683 | result and new state are those of the model's allocation |
| FrameArena.ArenaSystem.FrameReset | src/runtime/lgx_frame_arena.c:746-844 | new state is that of the model's reset, with the 32-bit counter; returns what was unmapped |
| FrameArena.ArenaSystem.IsArenaPointer | src/runtime/lgx_frame_arena.c:911-939 | true if and only if the address lies in a current or retired chunk |
| DelayedFree.TrackKeepsInv | src/runtime/lgx_memory_safety.c:203-216 | tracking a new allocation keeps the invariant |
| DelayedFree.TrackAdds | src/runtime/lgx_memory_safety.c:203-216 | a new allocation is active under the next number |
| DelayedFree.FreeKeepsInv | src/runtime/lgx_memory_safety.c:301-355 | a free of any address, queued, given back at once or refused, keeps the invariant |
| DelayedFree.FreeOfActive | src/runtime/lgx_memory_safety.c:301-355 | a free of an active address queues its record with the number of the frame if and only if the queue has room and a node is granted; otherwise the record is given back at once |
| DelayedFree.FreeRefused | src/runtime/lgx_memory_safety.c:301-322 | a free of NULL or with bad canaries changes nothing, one of an address that is not active only counts an attempt |
| DelayedFree.AdvanceKeepsInv | src/runtime/lgx_memory_safety.c:360-384 | a frame advance keeps the invariant |
| DelayedFree.DueAtThird | src/runtime/lgx_memory_safety.c:372-373 | a queued record is due at exactly the third advance, also when the 32-bit counter wraps |
| DelayedFree.ExactlyOnePlace | src/runtime/lgx_memory_safety.c:203-384 | after every run each allocation ever made is exactly once active, queued or given back |
| DelayedFree.SecondFreeIsHarmless | src/runtime/lgx_memory_safety.c:221-248 | a second free of a queued address changes nothing but the count of attempts |
| DelayedFree.QueuedRunsOut | src/runtime/lgx_memory_safety.c:360-384 | over every run a queued record stays queued until the third following advance and is given back at exactly that one |
| DelayedFree.FreeWaitsThreeFrames | src/runtime/lgx_memory_safety.c:301-384 | from a free that could queue its record on, over every run, the record is not given back before the third following advance and is at exactly that one |
| MemorySafety.SafetyState.TrackAllocation | src/runtime/lgx_memory_safety.c:203-216 | puts the record at the front of the active list and counts it |
| MemorySafety.SafetyState.Untrack | src/runtime/lgx_memory_safety.c:221-248 | takes the first record of the address off the list, or counts a double free |
| MemorySafety.SafetyState.SafetyFree | src/runtime/lgx_memory_safety.c:301-355 | new state is that of the model's free; tells which record goes back at once |
| MemorySafety.SafetyState.AdvanceFrame | src/runtime/lgx_memory_safety.c:360-384 | new state is that of the model's advance; frees exactly the expired records in queue order |
| MemorySafety.SafetyState.Sweep | src/runtime/lgx_memory_safety.c:367-381 | the in-place walk keeps exactly the records that have not expired |
| ProfileModel.BeginKeepsInv | src/profile/lgx_profile.c:226-243 | beginning a zone keeps nesting, times, the stack of open zones and all depths |
| ProfileModel.EndKeepsInv | src/profile/lgx_profile.c:245-256 | ending the innermost zone keeps them |
| ProfileModel.AcceptsIffChanges | src/profile/lgx_profile.c:226-256 | a begin call opens a zone exactly when there is room for one and fewer than 64 are open, an end call closes the innermost exactly when one is open |
| ProfileModel.ZonesRecordCalls | src/profile/lgx_profile.c:226-256 | over every run there is one zone per accepted begin call, with its name and clock, and every closed zone ends at the clock of the accepted end call that closed it |
| ProfileModel.ZonesNest | src/profile/lgx_profile.c:226-256 | over every run any two closed zones are nested or ordered in time |
| ProfileModel.DepthIsOpenCount | src/profile/lgx_profile.c:226-256 | over every run the depth of every zone is the number of zones open when it began |
| Profile.RingPush | src/profile/lgx_profile.c:213-219 | storing a frame keeps the ring holding exactly the last frames of the log |
| Profile.RingReads | src/profile/lgx_profile.c:311-317 | read from the start position, the ring is exactly the last frames in order |
| Profile.Context.FrameBegin | src/profile/lgx_profile.c:186-195 | starts an empty frame, if enabled |
| Profile.Context.ZoneBegin | src/profile/lgx_profile.c:226-243 | opens a zone, or refuses exactly when the zone array or the stack is full |
| Profile.Context.ZoneEnd | src/profile/lgx_profile.c:245-256 | closes the innermost zone, or refuses exactly when none is open |
| Profile.Context.FrameEnd | src/profile/lgx_profile.c:197-220 | appends frame time and zones to the history |
| Profile.Context.HistoryTime | src/profile/lgx_profile.c:308-318 | sums the time of exactly the last frames the ring can hold |

## Left out

- GPU pool: the three memory types, which are independent instances; Vulkan calls, mapped pointers, chaos hooks, prefetching, the float fragmentation ratio and the plain counters of calls.
- GPU pool: allocation from a dead or foreign handle, which the caller must not free.
- BuddyPool.BuddyAllocator.BuddyAlloc: does not repeat the loop that raises the level for the alignment, because it never runs; the method proves that.
- BuddyPool.BuddyAllocator: the slot array is a sequence that grows at its end; the move of the array by realloc is not captured, only the relinking that follows it.
- Lock-free pool: the generation field, the batch and prewarm loops (sequences of pushes and pops), and memory orders weaker than the default.
- Codecs: null pointers; a length above INT_MAX is converted as a 32-bit int would be.
- NetStream: float conversion; only the bits of a float are carried.
- Frame arena: tags, histograms, statistics counters, logging, profiler hooks, the heap fallback behind a refused allocation, sizes so large that rounding to 16 wraps, and use by several threads at once.
- FrameArena.ArenaSystem.FrameAlloc: takes the address of a grown chunk as a parameter and requires it to be clear of mapped memory, which is what a mapping call guarantees.
- MemorySafety.SafetyState.Untrack: the active list is a sequence, so the unlinking through a pointer to the previous link is not captured, only which record leaves and the order of the others.
- MemorySafety.SafetyState.Sweep: the queue is a sequence, so the walk through a pointer to the previous link is not captured, only which records leave and in which order.
- Memory safety: guard pages, canary bytes, wiping patterns, switching the options during a run, and a second free after the record has been given back.
- Profiler: counters, the text dump, zone lookup by name, and the final division in the frames-per-second figure, which is floating point.
- The memory manager, intent allocator, graphics, audio, input, sockets, asset files, health and capability checks: I/O, foreign calls, table lookups or much simpler state.
