# nano-os, verified in Dafny

nano-os is a small RISC-V kernel written in Rust. This project models the parts of it whose
correctness is a matter of whole runs or of all inputs, and proves what they keep.

- **Kernel heap** (`BlockHeader`, `HeapSpec`, `HeapMemory`, `HeapCarve`, `HeapFrame`, `HeapRequest`,
  `HeapSteps`, `Allocator`, `HeapGrowth`, `HeapFailures`, `KernelHeap`). Block headers packed into 32-bit
  words, the address-ordered list of blocks, the doubly linked first-fit free list, splits in two and in three, coalescing and growth. `HeapSpec`
  says what each operation does to the sequence of blocks; `HeapMemory` and `HeapCarve` say when headers
  in memory represent such a sequence; `HeapFrame` says which bytes are written; `HeapRequest` decides
  from the state before a call what becomes of a request; `Allocator` is the code, with every pointer
  write, and `HeapSteps` connects its steps to the rest. `HeapGrowth` says how far the heap grows, and
  `HeapFailures` has heaps in which a request goes wrong. `KernelHeap` puts the heap on the page tables that
  back it: growth asks the page mapper for frames, and heap addresses are followed into physical memory.
- **Threads, messages and the disk dispatcher** (`Threads`, `ThreadLaws`, `Dispatcher`, `DiskProgress`,
  `DiskStatus`). The cooperative scheduler as a transition system and as the class that implements it, and
  on top of it the request, completion and response protocol of the block dispatcher with its readers, its
  device, and the console that its error messages go to. `ThreadLaws` says what each call does to the fields
  of the scheduler's state, `DiskStatus` what readers are told.
- **Page tables and user copies** (`PageTableEntry`, `PageTree`, `PageMapper`, `Uaccess`). Sv39 page tables
  (section 4.4 of the RISC-V Privileged Architecture, version 1.12) as a tree in frames of physical memory
  that acts as a flat map, and the page-by-page copies between kernel buffers and user memory.
- **Console output** (`SpscRing`, `UartWriter`, `ConsoleThreads`). The lock-free byte ring under every
  interleaving, the writer thread with its line-end conversion and its handshake with the transmit
  interrupt, and the two under the scheduler among all other threads.
- **ext2 and its caches** (`LruCache`, `BlockCache`, `Ext2Inode`, `Ext2File`, `Ext2Dir`, `Ext2Layout`). The
  cache with pinned entries, the block cache with its unlocked miss window, the pointer tree of an inode,
  file reads, directory iteration, and the bytes on disk that they read.
- **Physical memory** (`Memory`, `PageAllocator`). Usable RAM as an interval computation, and the free
  list that lives inside the free pages.

`Common`, `Arithmetic`, `Sequences` and `Utf8` hold what several of these need.

State that the source changes in place is a class here, with methods that change its fields; their
contracts tie the new state to a function of the old one, and the lemmas are about those functions.
Addresses and sizes are mathematical integers; where a width matters (the 32-bit header words, the
36-bit page number kept by a page table entry, the 32-bit byte count of the directory iterator) it is
written out. Arithmetic that overflows is taken to panic, as in the development profile.

## What the code does not do

Some properties one would expect are false of the code. The exact conditions are theorems:

- Carving an over-aligned block out of a free block leaves a heap only if the block is the last one and
  at least 16 bytes remain behind the carved part (`HeapCarve.CarveRepresentsIff`). For a request this is
  decided by the first fit, or the last block of the grown heap, and the least suitable address in it
  (`HeapRequest.ChosenDecides`, `KernelAllocator.LinkedListAllocator.Alloc`). It happens to a request of
  4016 bytes at alignment 64 in a fresh heap of 4096 bytes (`HeapFailures.FreshHeapSpoiled`), and to a disk
  block's buffer, 4096 bytes at alignment 4096, in a free block that is not the last
  (`HeapFailures.BlockBufferSpoils`).
- A request with alignment up to 8 panics exactly when growth finds no frames, or when the last block was
  in use and the new pages do not hold the request and two headers (`HeapRequest.SmallOutcome`), as they do
  not hold 4072 bytes (`HeapFailures.GrownHeapPanics`).
- A request with a larger alignment panics exactly when growth finds no frames, when the block it is
  placed in has no suitable address even after growing, or when the carved block with its minimum size
  does not fit behind the least suitable address (`KernelAllocator.LinkedListAllocator.Alloc`), as for 8
  bytes at alignment 64 in a heap of 88 bytes (`HeapFailures.SmallHeapPanics`).
- The dispatcher comes to a stall exactly when it has answered a completed read, with at least two reads
  pending, and `start_read` fails for the first (`Dispatcher.TurnStallsIff`, `Dispatcher.ResumeStallsIff`).
  A run from the start of the system gets there (`DiskProgress.StallHappens`), and only a new read ends it
  (`DiskProgress.StalledForGood`). Where every start succeeds all reads are answered
  (`DiskProgress.ReadsAreAnswered`).
- Mapping a page fails to give it its new entry if and only if a larger page covers it: the code follows the
  leaf as if it were a table, while translation stops there (`PageTree.TurnMapsIff`,
  `PageTree.LargerPageWins`).
- Giving pages back to the page allocator keeps its account only if there is at least one and all are
  handed out (`PageAllocator.PutBackIff`). A page given back twice is counted twice
  (`PageAllocator.DoubleFreeLosesCount`).
- A page table entry gives back the physical address it was set to only below 2^48
  (`PageTableEntry.AddrRoundTrip`), and translation through a 1 GiB leaf is linear only for the first 16 KiB
  (`PageMapper.TargetIsLinearIff`).
- Reading a string from user memory fails on valid UTF-8 when a character lies across a page boundary
  (`Uaccess.PhysicalMemory.CopyInStr`, `Uaccess.ValidTextRefused`).
- Bytes copied out to the user read back as written, whatever they are, only if no two of them share a
  physical address (`Uaccess.RoundTripIff`). Under a 1 GiB page bytes 16 KiB apart do
  (`Uaccess.BytesShare`).
- The block cache can hold two entries for one address (`BlockCache.DuplicateHappens`), after two misses
  before either block is stored (`BlockCache.DoubleMissHappens`).
- The kernel image and the device tree are both reserved only if the device tree itself lists at most
  fourteen reserved regions (`Memory.OwnRegionsReservedIff`).
- A cache of capacity zero holds one entry (`LruCache.HoldsMostRecent`).
- A superblock with no inodes per group, or with inodes larger than a block, makes the inode lookup divide
  by zero, and a table near the last block number makes it overflow, for exactly which numbers
  `Ext2Inode.InodeInTable` says (`Ext2Inode.InodeOverflows` has one).
- Listing a directory panics exactly if the lengths of the records met add up to 2^32 or more
  (`Ext2Dir.OverflowsIff`), as in a directory whose pointer blocks lead back to themselves
  (`Ext2Dir.CountOverflows`).

## Model

| member | source | states |
|---|---|---|
| `BlockHeader.FreePrevSetterCommutes` | src/kernel_allocator/block_header.rs:64-85 | setting the previous free block on the packed word reads back as the pointer set, with the used bit untouched, if and only if the pointer can be stored as an even offset |
| `BlockHeader.LinkSettersCommute` | src/kernel_allocator/block_header.rs:44-63 | the two other links read back as set if and only if the pointer is null or its offset from the heap start fits 32 bits and is not the null offset |
| `BlockHeader.SettersCommute` | src/kernel_allocator/block_header.rs:22-125 | on storable values every setter and the constructor of the packed header act as the plain record's |
| `HeapSpec.AllocKeepsWellFormed` | src/kernel_allocator/allocator.rs:187-211 | taking the front of a free block keeps the heap well formed: blocks tile it, no two free neighbours, the free list holds exactly the free blocks, one payload more is live |
| `HeapSpec.FreeKeepsWellFormed` | src/kernel_allocator/allocator.rs:240-263 | freeing and merging with free neighbours keeps the heap well formed, and exactly the freed payload is no longer live |
| `HeapSpec.GrowKeepsWellFormed` | src/kernel_allocator/allocator.rs:161-185 | growing the last free block or appending a new one keeps the heap well formed, and changes no live payload |
| `HeapSpec.CarveKeepsWellFormed` | src/kernel_allocator/allocator.rs:212-237 | carving three ways with at least 16 bytes left keeps the heap well formed |
| `HeapSpec.LivePayloadsDisjoint` | src/kernel_allocator/allocator.rs:17-31 | in a well-formed heap two live payloads never overlap |
| `HeapSpec.LivePayloadAvoidsHeaders` | src/kernel_allocator/allocator.rs:17-31 | no live payload meets any block's header |
| `HeapSpec.NothingLiveIsOneBlock` | src/kernel_allocator/allocator.rs:240-263 | a well-formed heap with nothing live is one free block that spans it |
| `HeapSpec.TilesUnique` | src/kernel_allocator/allocator.rs:69-77 | two tilings of the same range that agree on the size of any block they both have consist of the same blocks, so the headers in memory determine the blocks |
| `HeapMemory.PushedList` | src/kernel_allocator/allocator.rs:79-88 | the two or three writes that insert a block put it at the front of the free list that memory represents |
| `HeapMemory.UnlinkedList` | src/kernel_allocator/allocator.rs:90-103 | unlinking a block represents the free list without it, wherever it was |
| `HeapMemory.SplitDone` | src/kernel_allocator/allocator.rs:196-211 | the writes of a split represent the heap with the block cut in two |
| `HeapMemory.AbsorbedNext` | src/kernel_allocator/allocator.rs:244-251 | the writes that absorb the next free block represent the heap with the two joined |
| `HeapMemory.AbsorbedByPrev` | src/kernel_allocator/allocator.rs:253-260 | the writes that absorb a block into its free predecessor represent the heap with the two joined |
| `HeapMemory.ExtendedDone` | src/kernel_allocator/allocator.rs:161-172 | adding to the size of a free last block represents the grown heap |
| `HeapMemory.AppendedDone` | src/kernel_allocator/allocator.rs:173-185 | appending a new free block represents the grown heap |
| `HeapCarve.CheckAlignedFit` | src/kernel_allocator/allocator.rs:332-354 | terminates, and returns the header of the least suitable payload address (a multiple of the alignment, padding zero or room for a block, enough space), or nothing if there is none |
| `HeapCarve.CarveDone` | src/kernel_allocator/allocator.rs:212-237 | on the last block with 16 bytes left, the writes of the three-way split represent the carved heap |
| `HeapCarve.CarveBroken` | src/kernel_allocator/allocator.rs:212-237 | otherwise no sequence of blocks that keeps the other blocks is represented any more |
| `HeapCarve.CarveRepresentsIff` | src/kernel_allocator/allocator.rs:212-237 | memory still represents a heap after the three-way split if and only if the block was last and at least 16 bytes remain |
| `HeapCarve.PlacementIsRequest` | src/kernel_allocator/allocator.rs:212-220 | the excess of a carved block can be negative only for sizes up to 8 |
| `HeapCarve.UnderflowsAtLeast` | src/kernel_allocator/allocator.rs:212-220 | whether carving underflows is decided at the least suitable address |
| `HeapCarve.SmallAlignmentSuits` | src/kernel_allocator/allocator.rs:332-354 | for alignments up to 8 some address suits exactly when the rounded size and 16 bytes more fit |
| `HeapCarve.AlignedStaysInPage` | src/kernel_allocator/mod.rs:44-55 | a buffer aligned to the least power of two of its size, at most a page, does not cross a page boundary |
| `HeapCarve.NextPowerOfTwo` | src/kernel_allocator/mod.rs:47 | the least power of two not below the size |
| `HeapCarve.AlignUpIsLeast` | src/kernel_allocator/mod.rs:23-27 | align_up gives the least multiple not below its argument |
| `KernelAllocator.LinkedListAllocator.constructor` | src/kernel_allocator/allocator.rs:69-77 | the heap starts as one free block of the whole size |
| `KernelAllocator.LinkedListAllocator.InsertFreeBlock` | src/kernel_allocator/allocator.rs:79-88 | memory and list head become exactly those of a push |
| `KernelAllocator.LinkedListAllocator.RemoveFreeBlock` | src/kernel_allocator/allocator.rs:90-103 | memory and list head become exactly those of an unlink |
| `KernelAllocator.LinkedListAllocator.InsertAfter` | src/kernel_allocator/allocator.rs:112-122 | links a block behind another, with the successor recomputed from the sizes |
| `KernelAllocator.LinkedListAllocator.RemoveFromList` | src/kernel_allocator/allocator.rs:124-134 | links around a block, moving the tail if it was last |
| `KernelAllocator.LinkedListAllocator.CutFront` | src/kernel_allocator/allocator.rs:196-211 | the code refines cutting the block in two, and writes into no live payload |
| `KernelAllocator.LinkedListAllocator.SplitFront` | src/kernel_allocator/allocator.rs:187-211 | the code of the two-way split refines taking the front of the block, and writes into no live payload |
| `KernelAllocator.LinkedListAllocator.FreeAndAbsorb` | src/kernel_allocator/allocator.rs:240-251 | the first half of freeing: the block is marked free and joined with a free successor |
| `KernelAllocator.LinkedListAllocator.AbsorbOrInsert` | src/kernel_allocator/allocator.rs:253-262 | the second half: joined with a free predecessor, or inserted into the free list; both halves together are the freeing step |
| `KernelAllocator.LinkedListAllocator.DeallocAndCoalesce` | src/kernel_allocator/allocator.rs:240-263 | the code refines freeing and merging on the sequence of blocks, and writes to headers only |
| `KernelAllocator.LinkedListAllocator.FirstFit` | src/kernel_allocator/allocator.rs:136-147 | finds the first block of the free list that is large enough, or that there is none |
| `KernelAllocator.LinkedListAllocator.FirstAlignedFit` | src/kernel_allocator/allocator.rs:148-158 | finds the first block with a suitable address and the least such address in it, or that there is none |
| `KernelAllocator.LinkedListAllocator.SearchFree` | src/kernel_allocator/allocator.rs:136-158 | the first fit of the free list with the header to use in it, at any alignment |
| `KernelAllocator.LinkedListAllocator.TakeGrowth` | src/kernel_allocator/allocator.rs:161-185 | the code refines growth at the end, and writes into no live payload |
| `KernelAllocator.LinkedListAllocator.FindFit` | src/kernel_allocator/allocator.rs:136-185 | the first fit without changing anything if there is one; else the last block of the grown heap; nothing exactly if growth is refused, and the panics when frames run out or nothing suits after growing |
| `KernelAllocator.LinkedListAllocator.SplitThree` | src/kernel_allocator/allocator.rs:212-237 | panics exactly on a negative excess; keeps the heap exactly when the block is last and 16 bytes remain; else no heap is left; in any case no live payload is written to |
| `KernelAllocator.LinkedListAllocator.UseFit` | src/kernel_allocator/allocator.rs:187-237 | the block found with its header, split two or three ways: the new payload, large enough and apart from all live ones, or the panic, or no heap |
| `KernelAllocator.LinkedListAllocator.Alloc` | src/kernel_allocator/allocator.rs:17-24 | decided from the state before the call: null exactly if nothing fits and growth is refused, the exact panics, and exactly when an over-aligned carve leaves no heap; else an aligned payload at the first suitable place, large enough and less than a block larger than need be, disjoint from all live ones, which all stay; no byte of a live payload is written |
| `KernelAllocator.LinkedListAllocator.Dealloc` | src/kernel_allocator/allocator.rs:25-31 | exactly the freed payload is no longer live, the heap invariant holds, and no byte of a live payload is written |
| `KernelAllocator.LinkedListAllocator.FreeAll` | src/kernel_allocator/allocator.rs:240-263 | freeing all live payloads in any order leaves one free block of the whole heap |
| `KernelAllocator.LinkedListAllocator.AllocWithinPage` | src/kernel_allocator/mod.rs:44-55 | as `Alloc` at the least power of two of the size, at most a page; the buffer is not divided by a page boundary, and the heap can be left broken only for sizes above 8 |
| `HeapFailures.FreshHeapSpoiled` | src/kernel_allocator/allocator.rs:212-237 | in a heap just initialised an over-aligned request leaves no heap |
| `HeapFailures.BlockBufferSpoils` | src/kernel_allocator/allocator.rs:212-237 | so does a buffer of a page at a page boundary in a free block that is not the last |
| `HeapFailures.GrownHeapPanics` | src/kernel_allocator/allocator.rs:161-185 | a heap in use to the end, and a request the added page does not hold |
| `HeapFailures.SmallHeapPanics` | src/kernel_allocator/allocator.rs:212-220 | a heap in which an address suits but the least block does not fit there |
| `KernelHeap.GrownBacked` | src/kernel_memory_map.rs:429-462 | mapping fresh frames behind the heap extends what backs it: old addresses lead where they led, new ones into the frames added |
| `KernelHeap.PhysicallyApart` | src/kernel_memory_map.rs:429-462 | different heap addresses lead to different bytes, and none into a page table or a frame that may still be handed out |
| `KernelHeap.LiveApart` | src/kernel_allocator/allocator.rs:17-31 | no two bytes of live allocations share a physical address |
| `KernelHeap.PayloadInHeap` | src/kernel_allocator/allocator.rs:136-237 | a payload handed out lies inside the mapped heap, also where the carve leaves no heap |
| `KernelHeap.BufferIsContiguous` | src/kernel_allocator/mod.rs:28-36 | heap bytes of one page lie one behind the other in physical memory |
| `KernelHeap.MappedHeap.constructor` | src/kernel_memory_map.rs:140-143 | the allocator over the pages first mapped, with nothing live |
| `KernelHeap.StartHeap` | src/kernel_memory_map.rs:302-324 | backs the first four pages and starts the heap; twelve free frames are enough |
| `KernelHeap.MappedHeap.GrowKernelHeap` | src/kernel_memory_map.rs:429-462 | refused exactly if the new end is no address, a panic only for want of frames, and never with three frames for each page; else the heap is backed up to its new end, and nothing is written in the pages that backed it |
| `KernelHeap.MappedHeap.GrowIfNeeded` | src/kernel_allocator/allocator.rs:161-162 | the page tables grow exactly when no free block will do, to where the heap will end |
| `KernelHeap.MappedHeap.Alloc` | src/kernel_allocator/allocator.rs:17-24 | as `Alloc`, where growth has frames exactly if the page mapper found them; the heap stays backed by its pages, to which others are only added |
| `KernelHeap.MappedHeap.Dealloc` | src/kernel_allocator/allocator.rs:25-31 | exactly the freed payload goes, and the heap stays backed |
| `KernelHeap.MappedHeap.AllocWithinPage` | src/kernel_allocator/mod.rs:28-55 | what the function is for: the buffer is contiguous in physical memory, whatever the call does to the heap |
| `HeapFrame.HeadersSpare` | src/kernel_allocator/allocator.rs:79-134 | a change confined to block headers touches no live payload |
| `HeapFrame.SplitWrites` | src/kernel_allocator/allocator.rs:196-211 | the two-way split writes block headers and one header inside the free block |
| `HeapFrame.AbsorbNextWrites` | src/kernel_allocator/allocator.rs:244-251 | absorbing the next block writes block headers only |
| `HeapFrame.AppendWrites` | src/kernel_allocator/allocator.rs:173-185 | appending a block writes into the new pages and to one header, and into no live payload |
| `HeapFrame.CarveWrites` | src/kernel_allocator/allocator.rs:212-237 | the three-way split writes block headers and headers inside the free block |
| `HeapRequest.ChosenUnique` | src/kernel_allocator/allocator.rs:136-185 | at most one block is chosen for a request |
| `HeapRequest.ChosenDecides` | src/kernel_allocator/allocator.rs:136-237 | the chosen block decides whether the request panics and whether it leaves a heap |
| `HeapRequest.SmallOutcome` | src/kernel_allocator/allocator.rs:136-185 | for alignments up to 8 a request always leaves a heap, and panics exactly when frames run out, or the last block is in use and the new pages are too few |
| `HeapGrowth.GrowsByFewestPages` | src/kernel_allocator/allocator.rs:161-162 | where nothing fits, the heap ends the fewest whole pages further on that hold a header, the alignment and the request, at least one; growth is refused exactly if that is no address |
| `HeapGrowth.SmallPanicIff` | src/kernel_allocator/allocator.rs:161-185 | at alignments up to 8, where growth is granted: the panic exactly if nothing fits, the last block is in use, and some number of pages holds header, alignment and request but not two headers, the least payload and the request |
| `HeapRequest.FoundDecides` | src/kernel_allocator/allocator.rs:17-24 | what the search returned says what the whole call comes to |
| `HeapRequest.ServedByFit` | src/kernel_allocator/allocator.rs:17-24 | a fit and the split in it make up the whole of an allocation |
| `HeapRequest.SmallGrowPanics` | src/kernel_allocator/allocator.rs:161-185 | for alignments up to 8, growing still leaves no room exactly when the last block was used and the pages are too few |
| `HeapSteps.TakeIsDone` | src/kernel_allocator/allocator.rs:187-211 | cutting and then taking is the allocation step on the sequence of blocks |
| `HeapSteps.FreedDone` | src/kernel_allocator/allocator.rs:240-263 | marking, joining and inserting are the freeing step |
| `HeapSteps.PayloadWritesAreHarmless` | src/kernel_allocator/allocator.rs:17-31 | whatever is written inside a live payload, the heap is still represented |
| `Threads.NextInv` | src/thread.rs:268-554 | every step keeps: the ready queue holds exactly the Ready threads once each, at most the current thread is Running, a thread waiting for mail has none |
| `Threads.After` | src/thread.rs:268-554 | the invariant holds after every run |
| `Threads.DispatchFindsThread` | src/thread.rs:314-378 | the thread taken from the ready queue is always in the table, so the expect never fires |
| `Threads.DispatchDelay` | src/thread.rs:87-99 | a thread at place k of the ready queue is dispatched by exactly dispatch k + 1 + m, m being the threads queued in front meanwhile |
| `Threads.UrgentRunsNext` | src/thread.rs:496-541 | an urgent message to a blocked thread makes it run next |
| `ThreadLaws.YieldLaw` | src/thread.rs:268-310 | on the fields of the state: the front of the queue with the yielding thread at its back runs, the rest of it is the queue, the yielding thread is Ready, no inbox changes |
| `ThreadLaws.ExitLaw` | src/thread.rs:428-443 | the thread is gone with its inbox, the front of the queue runs, nothing else changes |
| `ThreadLaws.BlockLaw` | src/thread.rs:457-464 | the thread is Blocked and in no queue, the front of the queue runs or the idle thread |
| `ThreadLaws.ReceiveLaw` | src/thread.rs:545-554 | with mail, the oldest message is taken and nothing else happens |
| `ThreadLaws.UrgentLaw` | src/thread.rs:517-541 | to any target: the message is last in its inbox, a blocked target comes to the front of the queue, the sender goes to its back, and the front runs |
| `ThreadLaws.SendLaw` | src/thread.rs:468-490 | a send or a wake: a blocked target is Ready at the back of the queue, the message last in its inbox, and the running thread goes on |
| `ThreadLaws.SpawnLaw` | src/thread.rs:176-186 | a new number, Ready at the back of the queue, with an empty inbox |
| `ThreadLaws.IdleLaw` | src/thread.rs:418-425 | the idle thread gives way exactly if somebody is ready |
| `Threads.AsleepAfter` | src/thread.rs:268-554 | a thread is put to sleep by nobody but itself, in receive_message only over an empty inbox |
| `Threads.MailStep` | src/thread.rs:468-554 | one step appends what it sends to an inbox and removes what is received from its front |
| `Threads.MailIsFifo` | src/thread.rs:468-554 | over a whole run, old inbox and messages sent are messages received and new inbox, in order, for a thread that lives |
| `Threads.StaysGone` | src/thread.rs:428-443 | a thread that exited never comes back, and its number is not used again |
| `Threads.ThreadManager.constructor` | src/thread.rs:56-64 | starts with an empty table and an idle processor |
| `Threads.ThreadManager.Add` | src/thread.rs:65-76 | refines the spawn step |
| `Threads.ThreadManager.Schedule` | src/thread.rs:314-378 | refines the dispatch of the front of the queue, or of the idle thread |
| `Threads.ThreadManager.YieldNow` | src/thread.rs:268-312 | refines the yield step |
| `Threads.ThreadManager.ExitThread` | src/thread.rs:428-443 | refines the exit step |
| `Threads.ThreadManager.Block` | src/thread.rs:457-466 | refines the block step |
| `Threads.ThreadManager.SendMessage` | src/thread.rs:468-480 | refines the send step; a message to a thread that is gone is dropped |
| `Threads.ThreadManager.WakeThread` | src/thread.rs:482-494 | refines the wake step |
| `Threads.ThreadManager.SendMessageUrgent` | src/thread.rs:496-541 | refines the urgent send: the target, if blocked, runs next and the sender is queued |
| `Threads.ThreadManager.ReceiveTurn` | src/thread.rs:545-554 | refines one turn of receive: the first message, or blocking with an empty inbox |
| `Threads.ThreadManager.ScheduleIfReady` | src/thread.rs:418-426 | refines the idle loop's scheduling step |
| `Dispatcher.ActKeepsInv` | src/block/disk/dispatcher.rs:87-286 | every action of readers, device, dispatcher, console and other threads keeps the protocol's invariant; the dispatcher's turn is cut in two where it prints an error, since the print lets other threads run |
| `Dispatcher.Ran` | src/block/disk/dispatcher.rs:87-286 | the invariant holds after every run of the composed system |
| `Dispatcher.ReadIsInOnePlace` | src/block/disk/dispatcher.rs:177-286 | at every point of every run an outstanding read is in exactly one of five places: dispatcher inbox, pending queue, in flight, in the dispatcher's hand while it prints an error, answered in its reader's inbox; at most one is in flight |
| `Dispatcher.AnswersInArrivalOrder` | src/block/disk/dispatcher.rs:217-286 | while start_read succeeds, answers so far, the read in hand and the reads still waiting are all reads in order of arrival, and reads are pending only while one is in flight or its failure is being printed |
| `Dispatcher.CompletionInHand` | src/block/disk/dispatcher.rs:239-245 | a completion always finds a read in flight: the branch without one is unreachable |
| `Dispatcher.PrintKeepsInv` | src/kprint.rs:54-68 | a print, which hands the processor to the console's thread, moves no read |
| `Dispatcher.ResumeKeepsInv` | src/block/disk/dispatcher.rs:204-275 | after a print the error reply, and after a failed read the next one, keep the invariant |
| `Dispatcher.TurnStallsIff` | src/block/disk/dispatcher.rs:239-275 | a turn leaves reads pending with none in flight if and only if it handles a good completion, at least two reads are pending, and start_read fails |
| `Dispatcher.ResumeStallsIff` | src/block/disk/dispatcher.rs:255-275 | after a print likewise, if and only if the failure of a read was printed |
| `Dispatcher.StallPersists` | src/block/disk/dispatcher.rs:217-286 | once stalled, with no request on its way, nothing but a new read changes it: the pending reads stay unanswered |
| `Dispatcher.ReaderGetsResponse` | src/block/disk/mod.rs:42-56 | what a thread inside read_blocks takes from its inbox is the one response to its read |
| `DiskStatus.ActFits` | src/block/disk/dispatcher.rs:177-286 | every action keeps what a log of reads and device completions says about each request, completion, read in hand and response |
| `DiskStatus.ReadersAreToldTheTruth` | src/block/disk/dispatcher.rs:177-286 | in every run: the response that waits for a reader says ok if and only if the device was started on the very sector that the reader asked for and completed without an error |
| `DiskStatus.PrintYields` | src/block/disk/dispatcher.rs:203-258 | an error message goes to the console's thread, which runs next if it slept, and the dispatcher after all who are ready |
| `Dispatcher.StartedInv` | src/block/disk/dispatcher.rs:124-149 | the invariant holds when the dispatcher thread has been started |
| `Dispatcher.BlockDispatcher.constructor` | src/block/disk/dispatcher.rs:124-149 | the state of a dispatcher just started, in which the invariant holds |
| `Dispatcher.BlockDispatcher.IssueRead` | src/block/disk/dispatcher.rs:177-205 | the code refines issuing a read: one more in flight, or the print with the read in hand |
| `Dispatcher.BlockDispatcher.Complete` | src/block/disk/dispatcher.rs:239-275 | the code refines handling a completion, up to a print |
| `Dispatcher.BlockDispatcher.MainTurn` | src/block/disk/dispatcher.rs:217-286 | one round of the dispatcher's loop, up to a print, refines the dispatcher's action |
| `Dispatcher.BlockDispatcher.ResumeTurn` | src/block/disk/dispatcher.rs:204-275 | the rest of the round after a print refines the resuming action |
| `DiskProgress.ActAwake` | src/block/disk/dispatcher.rs:217-286 | the dispatcher and the readers sleep only in receive_message, the dispatcher never with a read in hand |
| `DiskProgress.MoveDrops` | src/block/disk/dispatcher.rs:177-286 | every completion and every turn over a message brings the outstanding reads nearer to their answers, and nothing but a new read sets them back |
| `DiskProgress.QuietMeansAnswered` | src/block/disk/dispatcher.rs:177-286 | if no completion is owed and the dispatcher has nothing to do, every waiting thread has its one response and is awake |
| `DiskProgress.DueCanMove` | src/block/disk/dispatcher.rs:217-286 | otherwise the device can complete, or the dispatcher runs or is queued to run |
| `DiskProgress.ReadsAreAnswered` | src/block/disk/dispatcher.rs:87-286 | while start_read succeeds, a run has at most a bounded number of such steps for the reads there are and five for each new one, and wherever it stands still every read is answered |
| `DiskProgress.AnsweredFromTheStart` | src/block/disk/dispatcher.rs:87-286 | from the start of the dispatcher on: at most five such steps for each read, and every read answered wherever the run stands still |
| `DiskProgress.StallHappens` | src/block/disk/dispatcher.rs:193-286 | a run from the start of the system in which the second of three reads fails to start and the third is left behind |
| `DiskProgress.StalledForGood` | src/block/disk/dispatcher.rs:217-286 | a stalled queue stays so for the rest of any run without a new read |
| `PageTableEntry.EntryFields` | src/page_mapper.rs:100-127 | the entry has exactly the flags given, with VALID, and the memory type given, of which a non-leaf keeps one bit; validity, leaf bits and page number read back as set |
| `PageTableEntry.AddrRoundTrip` | src/page_mapper.rs:100-130 | it gives back the address set if and only if that is page-aligned and below 2^48 |
| `PageTableEntry.VpnDigits` | src/page_mapper.rs:149-167 | the three indices are the base-512 digits of the page number modulo 2^27 |
| `PageTree.PhysicalParts` | src/page_mapper.rs:325-343 | whatever the entry holds, the page comes from it and the offset in the page from the address |
| `PageTree.WriteWellFormed` | src/page_mapper.rs:195-258 | any entry may be written, in a table or elsewhere, without hurting the tree, as long as it does not become a pointer to the wrong table |
| `PageTree.WriteMaps` | src/page_mapper.rs:213-257 | writing the entry that the pointers for an address lead to changes the translations of its page and no others |
| `PageTree.AddTableWellFormed` | src/page_mapper.rs:418-428 | linking a zeroed free frame from any word of memory keeps the tree well formed |
| `PageTree.AddTableKeepsWalks` | src/page_mapper.rs:418-428 | and under an invalid entry above the lowest level, or outside the tables, changes no translation |
| `PageTree.DescendKeeps` | src/page_mapper.rs:229-233 | going on to the next table, whatever the entry leads to, keeps the tree and the free frames, at the price of one frame |
| `PageTree.DescendInTree` | src/page_mapper.rs:229-233 | from an entry that is no leaf it leads to the table that belongs there, keeping every translation |
| `PageTree.TurnMaps` | src/page_mapper.rs:213-257 | with no larger page in the way, a turn of the loop changes exactly the translations of its page |
| `PageTree.TurnSpares` | src/page_mapper.rs:213-257 | with no larger page in the way, a turn writes to tables and free frames only |
| `PageTree.TurnNoneSmaller` | src/page_mapper.rs:213-257 | a turn never makes an address translate through a smaller page than before, whatever frames it takes for tables |
| `PageTree.TurnMapsIff` | src/page_mapper.rs:213-257 | a turn gives its page the new entry if and only if no larger page covers it, whatever lies in the frames that the leaf leads to |
| `PageTree.LargerPageWins` | src/page_mapper.rs:229-257 | a tree and an address where the code fails: under a 1 GiB page a 4 KiB page is mapped in vain |
| `PageTree.TurnLeavesAll` | src/page_mapper.rs:229-257 | where leaves and other memory name no table, a turn under a larger page changes no translation at all |
| `PageMapper.Mapper.NextTable` | src/page_mapper.rs:229-233 | the code refines going on to the next table, for every word of memory |
| `PageMapper.Mapper.constructor` | src/page_mapper.rs:180-189 | an empty tree: nothing translates |
| `PageMapper.Mapper.MapPage` | src/page_mapper.rs:213-257 | one turn of the loop: exactly the addresses of one page translate through the new entry, if no larger page covers it; all others as before; what the entry carries is `EntryFields` |
| `PageMapper.Mapper.MapRange` | src/page_mapper.rs:195-258 | a flat-map update: after it every address in the range that no larger page covers translates to its place in the physical range and every other address as before, for any mix of old and new tables; addresses under a larger page never get a smaller one, whatever that page leads to; with two free frames for each page it does not fail; where they change, the walk finds an entry with exactly the flags asked for, and elsewhere the entry it found before |
| `PageMapper.Mapper.AllocateAndMapPages` | src/page_mapper.rs:260-284 | every page of the range that no larger page covers is backed by a different frame that was free and holds no table, through an entry with exactly the flags asked for, all other addresses translate through the same entry as before; with no larger page in the range the new pages are all zero where that is asked for, and nothing is written outside tables and free frames; with three free frames for each page it does not fail |
| `PageMapper.RangeTranslates` | src/page_mapper.rs:312-345 | once the walks of a range are set, the translations are linear in the distance from its start |
| `PageMapper.RangeFlagged` | src/page_mapper.rs:195-258 | once the walks of a range are set, their entries carry the flags asked for |
| `PageMapper.TargetIsLinearIff` | src/page_mapper.rs:312-345 | translation is linear for 4 KiB and 2 MiB leaves always, for 1 GiB leaves exactly where the distance within the leaf is below 2^14 |
| `Utf8.ValidConcat` | src/syscall/uaccess.rs:69-98 | after valid UTF-8, a continuation makes valid UTF-8 if and only if it is valid by itself |
| `Utf8.ValidIff` | src/syscall/uaccess.rs:69-98 | text is accepted if and only if it is the encoding of a sequence of Unicode scalar values |
| `Uaccess.PageIsLinear` | src/page_mapper.rs:312-345 | inside a page, translation advances byte by byte |
| `Uaccess.ChunkContinues` | src/syscall/uaccess.rs:13-35 | storing a chunk at one translation is copying its bytes one by one through their own translations |
| `Uaccess.OthersUnchanged` | src/syscall/uaccess.rs:13-35 | a physical byte that no copied byte lies at keeps its value |
| `Uaccess.LastOneStays` | src/syscall/uaccess.rs:13-35 | a copied byte is at its translation unless a later one lies there too |
| `Uaccess.DistinctFramesApart` | src/syscall/uaccess.rs:13-63 | if the touched pages lie in different frames, no two bytes share an address |
| `Uaccess.RoundTripIff` | src/syscall/uaccess.rs:13-63 | for any n, everything of that length reads back as written if and only if no two of the bytes share an address |
| `Uaccess.BytesShare` | src/syscall/uaccess.rs:13-63 | a tree in which two mapped bytes share an address |
| `Uaccess.PhysicalMemory.CopyOut` | src/syscall/uaccess.rs:13-35 | succeeds exactly if every byte is mapped; memory is as after copying, byte by byte, the bytes before the first unmapped one |
| `Uaccess.PhysicalMemory.CopyIn` | src/syscall/uaccess.rs:39-63 | succeeds exactly if every byte is mapped; the buffer holds the bytes before the first unmapped one, and is unchanged behind them |
| `Uaccess.CutStep` | src/syscall/uaccess.rs:74-94 | checking each page's part by itself accepts exactly the valid texts in which no character crosses a page boundary |
| `Uaccess.AcrossBoundary` | src/syscall/uaccess.rs:74-94 | a two-byte character on a page boundary is valid text that is not accepted |
| `Uaccess.ValidTextRefused` | src/syscall/uaccess.rs:69-98 | a memory and a page table in which such text stands, and no string can be read |
| `Uaccess.PhysicalMemory.CopyInStr` | src/syscall/uaccess.rs:69-98 | returns the zero-terminated string at the address exactly if it ends within the limit on mapped pages, is valid UTF-8, and has no character across a page boundary |
| `SpscRing.AvailableIsFree` | src/collections/spsc_ring.rs:46-53 | the free space computed from two positions is the free space of the running counts |
| `SpscRing.ByteRing.constructor` | src/collections/spsc_ring.rs:25-31 | the ring starts empty |
| `SpscRing.ByteRing.IsEmpty` | src/collections/spsc_ring.rs:34-36 | true exactly for empty contents |
| `SpscRing.ByteRing.PushSlice` | src/collections/spsc_ring.rs:45-74 | appends as much of the slice as fits beside one empty place, across the end of the buffer, and says how much |
| `SpscRing.ByteRing.Pop` | src/collections/spsc_ring.rs:82-93 | takes the front byte, or finds the ring empty |
| `SpscRing.NextInv` | src/collections/spsc_ring.rs:45-93 | every single load, byte copy or store of producer or consumer keeps the ring's invariant, with stale positions |
| `SpscRing.PoppedIsPrefix` | src/collections/spsc_ring.rs:45-93 | in every interleaving the bytes taken out are a prefix of the bytes put in, at most one less than the buffer's size behind |
| `SpscRing.StepRefinesQueue` | src/collections/spsc_ring.rs:45-93 | every action is nothing, one enqueue within the bound, or one dequeue of the front byte |
| `SpscRing.PushTakes` | src/collections/spsc_ring.rs:46-59 | a push takes what was free when tail was loaded, and is refused exactly if nothing was |
| `SpscRing.PopFinds` | src/collections/spsc_ring.rs:83-88 | a pop finds nothing exactly if the queue is empty when head is loaded |
| `SpscRing.NoSharedPlace` | src/collections/spsc_ring.rs:60-70 | no byte is copied to the place the consumer is about to read |
| `UartWriter.LineSplits` | src/kthread/uart_writer.rs:117-134 | the conversion of line ends distributes over the pieces the loop cuts a message into |
| `UartWriter.CrLfMeans` | src/kthread/uart_writer.rs:113-134 | what is sent has a carriage return before every line feed, and without those it is the message |
| `UartWriter.NextInv` | src/kthread/uart_writer.rs:67-201 | every message, turn of the writer and transmit interrupt keeps the handshake and conserves the bytes |
| `UartWriter.After` | src/kthread/uart_writer.rs:67-201 | after every run: bytes given to the UART, ring, unpushed remainder and inbox are together all messages with each LF as CR LF |
| `UartWriter.WaitEnds` | src/kthread/uart_writer.rs:67-76 | while the writer waits, the interrupt is enabled; the next one makes it Ready, and its next turn pushes at least one byte |
| `UartWriter.PotentialDrops` | src/kthread/uart_writer.rs:67-201 | without new messages, whatever can happen lowers a potential |
| `UartWriter.QuietMeansSent` | src/kthread/uart_writer.rs:67-201 | if nothing can happen any more, every message has been sent in full |
| `UartWriter.EveryRunDelivers` | src/kthread/uart_writer.rs:67-201 | so every run without new messages is bounded and ends with all bytes sent: the handshake never stalls |
| `UartWriter.Writer.constructor` | src/kthread/uart_writer.rs:30-50 | an empty pipeline, in which the invariant holds |
| `UartWriter.Writer.FillFifo` | src/kthread/uart_writer.rs:185-194 | moves up to sixteen bytes from the ring to the UART, in order |
| `UartWriter.Writer.DrainRingToFifo` | src/kthread/uart_writer.rs:175-201 | refines the drain: interrupt off with fewer than sixteen bytes, on with more, unchanged with exactly sixteen |
| `UartWriter.Writer.NotifyTxReady` | src/kthread/uart_writer.rs:67-76 | refines the interrupt: drain, and wake the writer if it waits |
| `UartWriter.Writer.PushSliceBlocking` | src/kthread/uart_writer.rs:141-165 | repeated pushes amount to one push of what fits, and a wait with the flags set if something is left |
| `UartWriter.Writer.WriteData` | src/kthread/uart_writer.rs:114-138 | refines writing a message line by line, up to its end or a wait |
| `UartWriter.Writer.WriterTurn` | src/kthread/uart_writer.rs:100-165 | refines a turn of the writer thread and keeps the invariant |
| `UartWriter.Writer.SendWrite` | src/kthread/uart_writer.rs:88-97 | refines sending a message and keeps the invariant |
| `ConsoleThreads.InitInv` | src/kthread/uart_writer.rs:56-60 | the writer starts as a new thread with an empty inbox and an empty pipeline |
| `ConsoleThreads.TurnInv` | src/kthread/uart_writer.rs:100-165 | a turn of the writer, with its receive_message and block_now, leaves it blocked in the scheduler exactly when the pipeline waits |
| `ConsoleThreads.NextInv` | src/kthread/uart_writer.rs:67-201 | writes, turns, interrupts and every step of any other thread keep it so: the inbox and the readiness the pipeline goes by are the scheduler's |
| `ConsoleThreads.RunsThePipeline` | src/kthread/uart_writer.rs:67-201 | every run of all threads is a run of the pipeline |
| `ConsoleThreads.RunsTheScheduler` | src/thread.rs:268-554 | and a run of the scheduler, whose laws hold of the writer |
| `ConsoleThreads.EveryScheduleDelivers` | src/kthread/uart_writer.rs:67-201 | however the threads are scheduled: without new writes a bounded number of turns and interrupts, and until all bytes are sent an interrupt or a turn of the writer can happen, or the writer is queued to run |
| `ConsoleThreads.WriteRunsWriter` | src/kthread/uart_writer.rs:88-97 | a write to an idle writer makes it the next thread to run, with that message alone |
| `LruCache.EvictIsKeep` | src/collections/lru.rs:50-61 | the backward pass keeps exactly the pinned entries and those with enough unpinned ones behind them, in order |
| `LruCache.EvictCounts` | src/collections/lru.rs:50-61 | as many unpinned entries leave as are needed and there are; every pinned entry stays |
| `LruCache.InsertBound` | src/collections/lru.rs:50-61 | after an insert the cache is within capacity or every other entry is pinned |
| `LruCache.HoldsMostRecent` | src/collections/lru.rs:37-61 | with nothing pinned, the keys are the most recent distinct keys of the trace, most recent first, cut to the capacity |
| `LruCache.Cache.constructor` | src/collections/lru.rs:29-31 | an empty cache |
| `LruCache.Cache.Get` | src/collections/lru.rs:37-43 | returns the first entry with the key and moves it to the front, or changes nothing |
| `LruCache.Cache.InsertEntry` | src/collections/lru.rs:50-61 | the loop refines the backward pass, and the new entry is in front |
| `BlockCache.NextInv` | src/block/cache.rs:37-49 | every step of any thread keeps: entries and blocks in hand agree with the disk, and no Arc is in the cache twice |
| `BlockCache.GetBlockAgrees` | src/block/cache.rs:37-49 | in every interleaving, through the unlocked window, get_block returns what the disk holds at the address |
| `BlockCache.CallOutcome` | src/block/cache.rs:37-49 | a whole call of get_block among any steps of other threads: it fails exactly when its own disk read has come and the disk has no such block, and ends, at a hit or after its store, with what the disk holds |
| `BlockCache.HeldStays` | src/block/cache.rs:37-49 | an entry somebody holds is never evicted |
| `BlockCache.HoldsMove` | src/block/cache.rs:37-49 | a caller that keeps a block takes over the hold of its call, and each hold kept is given up by one release |
| `BlockCache.StoreBound` | src/block/cache.rs:46-48 | after a store at most 16 entries, or all others held |
| `BlockCache.DuplicateHappens` | src/block/cache.rs:43-48 | two threads that missed the same address leave two entries for it |
| `BlockCache.DoubleMissHappens` | src/block/cache.rs:37-48 | a run from the empty cache that leaves two threads with their own block for one address |
| `BlockCache.CachedVolume.constructor` | src/block/cache.rs:26-30 | an empty cache in front of the disk |
| `BlockCache.CachedVolume.GetBlock` | src/block/cache.rs:37-49 | without interference: the disk's block, now in front of the cache; an error, with the cache unchanged, exactly if the disk has none |
| `Ext2Inode.SectorIsExact` | src/fs/ext2/superblock.rs:122-132 | a block's sector times 512 is its byte address |
| `Ext2Inode.PathOfIndex` | src/fs/ext2/inode.rs:82-119 | every block index in reach has a path of its own through the pointer tree |
| `Ext2Inode.IndexOfPath` | src/fs/ext2/inode.rs:82-119 | every path belongs to some block index |
| `Ext2Inode.ResolveDescends` | src/fs/ext2/inode.rs:82-119 | the resolver follows the path of the index through the tables, a zero anywhere being a hole, and gives a hole beyond its reach |
| `Ext2Inode.InodeInTable` | src/fs/ext2/inode.rs:122-143 | for every superblock: exactly which inode numbers are located, which make the code divide by zero, and which overflow the 32-bit block number; a located one lies inside one block of its group's table |
| `Ext2Inode.InodeOverflows` | src/fs/ext2/inode.rs:137-138 | a table that ends with the last block number, and an inode behind it |
| `Ext2Inode.LocatedIsRead` | src/fs/ext2/inode.rs:31-61 | with inodes of at least 100 bytes, a located inode is read exactly if its block is there, and nothing beyond the buffer is looked at |
| `Ext2Inode.TableIsArray` | src/fs/ext2/inode.rs:122-143 | when inodes fill their blocks, the table is one array of inodes |
| `Ext2File.ReadMeans` | src/fs/ext2/ops.rs:37-78 | the bytes read are byte o of the block that the resolver gives for index k, for each offset k times the block size plus o; a short read stopped at the end of the file, at an index with no block, or with an error at a block the disk fails to give |
| `Ext2File.CellMeans` | src/fs/ext2/ops.rs:52-73 | the bytes of a file are those of its blocks, one after the other: data, hole or error for every index and every offset in the block |
| `Ext2File.TwoReadsAreOne` | src/fs/ext2/ops.rs:37-78 | a read and a further read from where it stopped give what one longer read gives |
| `Ext2File.NothingReadIff` | src/fs/ext2/ops.rs:42-58 | nothing is read, without error, exactly at the end of the file, at a hole, or into an empty buffer |
| `Ext2File.ReadInBlock` | src/fs/ext2/ops.rs:60-73 | copying part of a block is reading its bytes one at a time |
| `Ext2File.File.Read` | src/fs/ext2/ops.rs:37-78 | the block-by-block loop refines the byte-by-byte read: count or error, offset, and buffer with its untouched rest |
| `Ext2Dir.Record` | src/fs/ext2/dir.rs:96-145 | whatever a record holds, the cursor moves on in its block or to the next; it panics exactly if the 32-bit byte count overflows with the length met, which needs a directory of more than 2^32 - 2^16 bytes |
| `Ext2Dir.Next` | src/fs/ext2/dir.rs:76-147 | on every content of the disk the iteration comes lexicographically nearer its end in blocks and bytes left |
| `Ext2Dir.OverflowsIff` | src/fs/ext2/dir.rs:76-147 | the iteration panics if and only if the lengths of the records met add up to 2^32 or more |
| `Ext2Dir.CountOverflows` | src/fs/ext2/dir.rs:96-145 | a directory in which they do |
| `Ext2Dir.TiledBlock` | src/fs/ext2/dir.rs:96-145 | a block tiled by well-formed records contributes exactly its records in use |
| `Ext2Dir.ListsRecordsInUse` | src/fs/ext2/dir.rs:53-147 | a directory of such blocks lists exactly the records with an inode and a non-empty UTF-8 name, in order, once each, and ends without error |
| `Ext2Dir.DirEntryIter.constructor` | src/fs/ext2/dir.rs:57-70 | starts before the first block |
| `Ext2Dir.DirEntryIter.LoadBlock` | src/fs/ext2/dir.rs:79-94 | refines loading the next block when the current one is used up |
| `Ext2Dir.DirEntryIter.ReadRecord` | src/fs/ext2/dir.rs:96-145 | refines reading one record, with every index inside the block, or the panic of the byte count |
| `Ext2Dir.DirEntryIter.NextEntry` | src/fs/ext2/dir.rs:76-147 | the loop ends on every disk content and refines one call of the iterator |
| `Ext2Dir.Lookup` | src/fs/ext2/ops.rs:18-33 | not a directory, or the inode of the first listed entry with the name, or not found, also after a disk error; the panics exactly if the byte count overflows before the name, or reading the inode panics |
| `Ext2Dir.FindEntry` | src/fs/ext2/ops.rs:25-32 | the loop finds the inode number of the first listed entry with the name |
| `Ext2Layout.ReadsBytes4` | src/bytes.rs:12-20 | numbers written in little-endian order are read back |
| `Ext2Layout.BlockListed` | src/fs/ext2/dir.rs:96-145 | a block written record after record is tiled by them, and its records in use are those written with an inode and a name that is text |
| `Ext2Layout.ListsWhatWasWritten` | src/fs/ext2/dir.rs:53-147 | listing a directory gives back, in order, the records written into its blocks: inode number, name and type |
| `Ext2Layout.ListsAnything` | src/fs/ext2/dir.rs:76-147 | whatever the disk holds: block after block until the records met make up the directory or a block is missing, and in each block record after record until one starts too late, has no length or reaches the end; shown are those with an inode and a name, inside the block, that is text |
| `Ext2Layout.FirstNamedIs` | src/fs/ext2/ops.rs:25-32 | the search gives the number of an entry with the name, no earlier entry has it, and nothing exactly if none has |
| `Ext2Layout.LookupMeans` | src/fs/ext2/ops.rs:18-33 | not a directory exactly for inodes of another kind; else the inode of the first listed entry with the name; not found and the panics exactly for their reasons |
| `Ext2Layout.KindRead` | src/fs/ext2/inode.rs:43-49 | the kind of an inode by the type bits of its mode |
| `Ext2Layout.StoredIsRead` | src/fs/ext2/inode.rs:31-61 | an inode stored in its slot, field by field, is read back |
| `Memory.Clip` | src/memory.rs:32-40 | covers exactly the reserved addresses inside RAM, with non-empty regions |
| `Memory.SortByStart` | src/memory.rs:42-49 | sorted by start, and a permutation |
| `Memory.Merge` | src/memory.rs:51-64 | sorted, disjoint, non-empty, not touching, and covers the same addresses |
| `Memory.GapsCover` | src/memory.rs:66-76 | the gaps cover exactly what the merged regions do not |
| `Memory.Carve` | src/memory.rs:66-76 | the loop pushes the gaps in order |
| `Memory.PushedPrefix` | src/memory.rs:63-76 | a full vector drops regions from the end, and nothing else |
| `Memory.ComputeUsableRegions` | src/memory.rs:27-77 | for any reserved regions: sorted, disjoint, non-empty, not touching regions of exactly RAM minus the reserved addresses when the capacity is one more than the number reserved, and never a reserved address for any capacity |
| `Memory.SeparatedUnique` | src/memory.rs:19-26 | there is only one such list |
| `Memory.OwnRegionsReservedIff` | src/page_allocator.rs:23-43 | the kernel image and the device tree are both in the list if and only if the device tree left room for two |
| `PageAllocator.TotalIsCount` | src/page_allocator.rs:122-151 | the counts in the list add up to the number of free pages |
| `PageAllocator.WritesElsewhereHarmless` | src/page_allocator.rs:7-10 | list nodes lie in free pages only: whatever is written into bytes that meet no free page, the list stays as it is |
| `PageAllocator.OwnerWritesHarmless` | src/page_allocator.rs:122-151 | so the owner of a page handed out may write anything into it |
| `PageAllocator.ChainUnique` | src/page_allocator.rs:7-15 | memory and the head determine the list |
| `PageAllocator.TakeGood` | src/page_allocator.rs:122-138 | taking the last page of the first run keeps the allocator's invariant |
| `PageAllocator.PutBackGood` | src/page_allocator.rs:144-151 | pushing a run of pages that are handed out keeps it |
| `PageAllocator.PutBackIff` | src/page_allocator.rs:144-151 | pushing any run leaves some list that accounts for all pages if and only if the run has a page and all its pages are handed out; at the null pointer, if and only if nothing is pushed and nothing was free |
| `PageAllocator.DoubleFreeLosesCount` | src/page_allocator.rs:144-151 | an allocator with one page, given back twice |
| `PageAllocator.NeverReserved` | src/page_allocator.rs:92-120 | no byte of a page the allocator owns is outside RAM or reserved |
| `PageAllocator.Allocator.constructor` | src/page_allocator.rs:92-120 | all pages of the usable regions, and no others, are free and counted |
| `PageAllocator.Allocator.Alloc` | src/page_allocator.rs:122-138 | hands out a free page that is not handed out already, or none exactly when none is free |
| `PageAllocator.Allocator.Dealloc` | src/page_allocator.rs:144-151 | for any pointer, null too: the pages stay accounted for exactly when `PutBackIff` says so, and then exactly the pages given back are free again |

## Left out

- KernelAllocator.LinkedListAllocator.AllocWithinPage: that the buffer is zeroed is not modelled; the model's memory holds block headers only.
- PageMapper.Mapper.MapRange: which translations change when a leaf in the range leads into a page table is not stated beyond that none becomes smaller; flags that make no leaf are modelled only for 4 KiB pages with no larger page in the range.
- PageMapper.Mapper.MapPage: flags that make no leaf are modelled only for 4 KiB pages under no larger page; elsewhere such an entry names a frame as a table.
- Uaccess.PhysicalMemory.CopyOut: the bytes written lie in no page table, so the tables do not change during the copy; the user range does not reach the end of the address space.
- Uaccess.PhysicalMemory.CopyInStr: likewise for the end of the address space.
- SpscRing.NextInv: loads and stores take effect one at a time; that the acquire and release orderings make them appear so is not modelled.
- UartWriter.Writer.WriterTurn: a turn is one step because interrupts are taken only between turns of kernel threads; waiting for the UART to be ready is not modelled.
- Ext2Dir.Lookup: inodes are read from disk each time; the inode cache is not modelled.
- Ext2Inode.Resolve: block sizes above 4096, for which a block does not fit the buffer, and pointers through triple indirect blocks are outside the model.
- Wrap-around of the excess in the three-way split, and of the directory iterator's byte count, under a release profile.
- Page table dumps and the memory-map setup of the kernel.
- The contents of the buffers that disk reads fill, and messages of other kinds between threads.
- KernelHeap.StartHeap: that the kernel has mapped no 2 MiB or 1 GiB page into the last gigabyte, where the heap lies, is a condition.
- KernelHeap.MappedHeap.GrowKernelHeap: flushing the data cache and the translation cache is not modelled.
- Reading the superblock and the group descriptors from disk, which repeats the patterns modelled for blocks.
- Context switches, traps and assembly, device registers, the device tree, initramfs and ELF loading, partitions, the virtual file system, system calls other than the copies, demos and diagnostics.
