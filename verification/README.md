# Verified models of the teaching systems

The repository holds the labs of a small teaching kernel and, beside them, simulators and libraries that each
show one algorithm of an operating system. This project models the ones with an algorithm at their core, in
Dafny, and proves what they are for.

| module | what it models | main results |
|---|---|---|
| `Paging`, `Fifo`, `Clock`, `Recency` | page replacement over a trace | OPT is optimal among all schedules; LRU has the inclusion property; CLOCK's probes are bounded, and a page's hits are worth as many of them; for which numbers of frames FIFO has Belady's anomaly; which page each policy evicts |
| `Buddy`, `Words` | the buddy allocator in an array | the array is a function of the live blocks; allocation fails exactly if nothing fits |
| `SkewHeap` | the pointer-based skew heap | the in-place code refines the algorithm on values; logarithmic amortised cost |
| `KrMalloc` | the circular free list of Kernighan and Ritchie | units are conserved, free blocks never abut, both searches end; a freed block is reused next |
| `Afs` | callbacks of the Andrew file system | no assertion fires in any interleaving; exactly when an open is stale |
| `Mlfq`, `MlfqRules`, `MlfqTimes` | the multi-level feedback queue | every job is always in one place and none overruns a positive slice; the simulation ends with all work done, exactly if every run time is positive; how much a job can run before its priority falls; the times reported are those of the first and the last tick |
| `Mksfs`, `ImageTree`, `ImageLimits` | the builder of file system images | the closed image, read back, mirrors the host directory; which names it has; exactly when it can be built, and when its counts are right |
| `Vsfs` | a very simple file system | bitmaps, counts and names agree after any operations; each request is refused exactly when it must be, and otherwise carried out |
| `Raid` | RAID mappings and parity writes | bijective mappings; the parity of every write can be computed; when the cheaper mode is chosen |
| `PageTable` | two-level page tables in memory | memory represents one mapping per process |
| `FreeList` | a free-list allocator with policies | free and allocated blocks partition the heap; when allocation fails; the sorts are stable |
| `Sjf` | scheduling by run time | no order has smaller sums |
| `Wrappers` | an optional value | |
| `Numbers`, `Quotients` | printing, reading and dividing numbers | exactly when reading gives back what was printed |

Code that changes state is a class with the original's fields, and its methods are proved against functions or
relations on values; the theorems are about those. Where an original stops with an error, the method returns
a failure. `dafny verify dfyconfig.toml` checks everything.

Thirteen places where the code does not do what its text suggests, each with its exact condition:

- `append_block` of the image builder keeps index blocks under the wrong hash. `Mksfs.Fs.UpdateCache` says
  when a search would fail, and `Mksfs.Fs.AppendBlock` that there never is one.
- The image builder computes the number of blocks in 32 bits, so that an image of 16 TiB counts as an empty one.
  `ImageLimits.BlocksCapped` says when the number is right, and `ImageLimits.HugeImage` is an instance.
- It counts links in 16 bits. `ImageTree.CreateImage` says that the link count of a file is right if and only if
  the file has fewer than 65536 names, and `ImageLimits.ManyNamesFit` that so many fit an image.
- A client of the file system can read stale data from a copy it takes for valid. `Afs.CoherentNext` says
  which step can lead to that, `Afs.OpenIsFreshIff` which opens are stale, by the order of the calls alone, and
  `Afs.StaleRun` is a run with one.
- The choice between the two parity modes is right for chunks of one block. `Raid.ChoiceIsBest` says when it
  is not, and `Raid.ChoiceCanLose` is an instance.
- Width and padding can keep a printed number from being read back. `Numbers.ReadsBack` and
  `Numbers.ReadsBackUnsigned` say when, and `Numbers.WideReadsAsZero` is an instance.
- Reading a number with the prefix "0X" stops at the letter. `Numbers.HexPrefix` says so, and that "0x" is read.
- A job of run time 0, which the scheduler's random generator can produce, aborts the simulation.
  `Mlfq.Simulate` says that such a job, or one with a negative run time, is the only reason.
- A job with a negative start time, which the job list admits, keeps the simulation from finishing.
  `Mlfq.NegativeStart` says so, and `Mlfq.Simulate` that it ends without one.
- A slice of less than 1 never ends: `Mlfq.InSlice`, part of the invariant, says that a job has ticks left exactly
  if its slice is positive, and `MlfqRules.NeverLowered` that its priority does not fall otherwise.
- A request that comes to 0 units or fewer, header included, gets an address that stays on the free list.
  `FreeList.Malloc.Malloc` says that no other request does.
- The buddy allocator doubles its size in an int. `Buddy.Allocator.New` says from where on that overflows.
- The list allocator rounds a request up in 32 bits. `KrMalloc.UnitsHold` says when the units computed hold it.

## Model

| member | source | states |
|---|---|---|
| Paging.Simulate | related_info/ostep/ostep6-paging-policy.py:105-258 | The trace loop, for every policy: the resident lists form a run of the policy, hits and misses add up to the trace, the reference counts after each access and the pages probed in it follow from those before it, and CLOCK probes at most hits + 2 * misses pages. |
| Paging.Access | related_info/ostep/ostep6-paging-policy.py:133-251 | One access: one step of the policy; whatever the policy, a hit adds one to the count of its page, up to clockbits, and changes no other count. |
| Paging.Miss | related_info/ostep/ostep6-paging-policy.py:148-251 | A miss takes the page in; an eviction under CLOCK costs the pages their probes and the victim its count, and no other count changes. |
| Paging.Evict | related_info/ostep/ostep6-paging-policy.py:152-232 | The eviction branch picks an index the policy allows; under CLOCK each other page's count is down by its probes. |
| Paging.ClockVictim | related_info/ostep/ostep6-paging-policy.py:166-182 | Random probing ends for every choice of probes; the victim's count is spent, each page's count is down by its probes, and their number is exactly the credit used up, plus one. |
| Paging.WhenReferenced | related_info/ostep/ostep6-paging-policy.py:198-204 | The look into the future finds the next use of a page, or the length of the trace. |
| Paging.OptVictim | related_info/ostep/ostep6-paging-policy.py:189-212 | The page used latest, the last such one in the list. |
| Paging.UnoptVictim | related_info/ostep/ostep6-paging-policy.py:214-232 | The page used soonest, the first such one in the list. |
| Paging.Refer | related_info/ostep/ostep6-paging-policy.py:245-251 | A page's count goes up by one and saturates at clockbits. |
| Paging.RunServes | related_info/ostep/ostep6-paging-policy.py:133-239 | A run of any policy is a demand-paging schedule with as many faults as the run has misses. |
| Paging.AheadStep | related_info/ostep/ostep6-paging-policy.py:189-212 | One access keeps OPT ahead of any other schedule: for every time t it holds no fewer of the pages needed before t than the other schedule, up to the misses it has saved. |
| Paging.OptIsOptimal | related_info/ostep/ostep6-paging-policy.py:189-212 | Belady's theorem: OPT misses no more than any demand-paging schedule with at most as many frames, on every trace. |
| Paging.OptBeatsEveryPolicy | related_info/ostep/ostep6-paging-policy.py:152-232 | None of FIFO, LRU, MRU, RAND, CLOCK, UNOPT has fewer misses than OPT, on any trace and for any choices. |
| Paging.LruInclusion | related_info/ostep/ostep6-paging-policy.py:139-153 | After every prefix of every trace the LRU list of C frames is the end of that of more frames, and misses never grow with the number of frames. |
| Clock.CountIs | related_info/ostep/ostep6-paging-policy.py:152-251 | Under CLOCK every hit counts: a page hit h times since it was fetched, and not probed since, has 1 + h as its count, at most clockbits if h is positive. |
| Clock.EvictionProbes | related_info/ostep/ostep6-paging-policy.py:166-182 | An access that evicts a page probes it once more than its count says. |
| Clock.SecondChances | related_info/ostep/ostep6-paging-policy.py:152-251 | In every run under CLOCK a page hit h times since it was fetched, and not probed since, takes that many probes of its own before the one that evicts it. |
| Recency.LruVictim | related_info/ostep/ostep6-paging-policy.py:139-161 | In every run LRU evicts the page whose last access is longest ago. |
| Recency.MruVictim | related_info/ostep/ostep6-paging-policy.py:139-163 | In every run MRU evicts the page of the access just before. |
| Recency.FifoVictim | related_info/ostep/ostep6-paging-policy.py:152-153 | In every run FIFO evicts the page fetched longest ago. |
| Recency.OptChoice | related_info/ostep/ostep6-paging-policy.py:189-212 | In every run OPT evicts a page that is accessed again only after all other pages that were resident, or never; of pages never accessed again it takes the last in the list. |
| Recency.UnoptChoice | related_info/ostep/ostep6-paging-policy.py:214-232 | In every run UNOPT evicts the page that is accessed again before all others; of pages never accessed again the first in the list. |
| Fifo.NoAnomaly | related_info/ostep/ostep6-paging-policy.py:152-153 | With at least 2 * frames - 1 frames, or unlimited ones, FIFO misses no more than with frames of them, after every prefix of every trace. |
| Fifo.PaidNext | related_info/ostep/ostep6-paging-policy.py:139-153 | One access keeps the invariant behind this: the misses that the smaller cache is ahead cover the pages that the larger one may still lose before it. |
| Fifo.Anomaly | related_info/ostep/ostep6-paging-policy.py:152-153 | For all other numbers a < b of frames, one trace on which a frames miss 2b + 1 times and b frames 2b + 2 times. |
| Fifo.AnomalyIff | related_info/ostep/ostep6-paging-policy.py:152-153 | There is a trace on which FIFO misses more with more frames if and only if the larger number of frames is less than 2 * frames - 1. |
| Words.MacroCorrect | related_info/lab2/buddy_system.c:24 | The bit trick x & (x - 1) == 0 holds of the powers of two, for every positive number. |
| Words.Smear | related_info/lab2/buddy_system.c:31-35 | One shift-and-or step doubles the run of ones below the top bit. |
| Buddy.FixSize | related_info/lab2/buddy_system.c:30-37 | On 32-bit words the five steps give the least power of two that is not smaller. |
| Buddy.CeilIsLeast | related_info/lab2/buddy_system.c:30-37 | The rounded size is a power of two, not smaller than the request, and the least one. |
| Buddy.Round | related_info/lab2/buddy_system.c:71-74 | How a request is adjusted, whatever its sign. |
| Buddy.FillSizes | related_info/lab2/buddy_system.c:49-55 | The initialising loop gives every node its own size. |
| Buddy.Allocator.New | related_info/lab2/buddy_system.c:39-57 | Null exactly for sizes that are no positive power of two, or from 2^30 on, where twice the size overflows an int and the language leaves open what happens; otherwise nothing is allocated. |
| Buddy.OffsetFormula | related_info/lab2/buddy_system.c:87 | The offset computed from an index is where the node's block begins. |
| Buddy.UnitIn | related_info/lab2/buddy_system.c:104-111 | The nodes above a unit's leaf are the nodes whose blocks contain the unit. |
| Buddy.Canonical | related_info/lab2/buddy_system.c:63-127 | longest[] is a function of the set of live nodes: two arrays in order with the same live nodes are equal. |
| Buddy.LiveBlocksDisjoint | related_info/lab2/buddy_system.c:63-127 | Live blocks are pairwise disjoint, in range and aligned to their size, although a live block's descendants keep their old values. |
| Buddy.FullIsFree | related_info/lab2/buddy_system.c:76-84 | A node not below a live one that offers its full size is wholly free. |
| Buddy.FreeIsFull | related_info/lab2/buddy_system.c:115-126 | A wholly free node offers its full size: no coalescing is missed. |
| Buddy.FreeIsOffered | related_info/lab2/buddy_system.c:76-84 | Every node above a wholly free one offers at least its size. |
| Buddy.Allocator.Alloc | related_info/lab2/buddy_system.c:63-96 | -1 exactly if no aligned block of the rounded size is wholly free; otherwise the leftmost such block becomes live and nothing else changes. |
| Buddy.Allocator.Free | related_info/lab2/buddy_system.c:98-127 | The live block that contains the offset is freed; an offset in no live block changes nothing. |
| Buddy.Allocator.SizeOf | related_info/lab2/buddy_system.c:129-139 | The size of the live block that contains the offset; None, where the original walks past the root, exactly if there is none. |
| Buddy.AllocFreeRestores | related_info/lab2/buddy_system.c:63-127 | Freeing what has just been allocated restores the array exactly. |
| SkewHeap.Merge | labcodes/lab6/libs/skew_heap.h:29-59 | The in-place merge builds exactly the merged tree, with all links mutual, and makes as many recursive calls as the cost function says. |
| SkewHeap.MergeContents | labcodes/lab6/libs/skew_heap.h:29-59 | Merging unites the entries of two heaps; none is shared or lost. |
| SkewHeap.MergeOrdered | labcodes/lab6/libs/skew_heap.h:29-59 | Merging keeps heap order for every total preorder. |
| SkewHeap.RootIsLeast | labcodes/lab6/libs/skew_heap.h:29-59 | The root of an ordered heap is a least entry. |
| SkewHeap.InsertEntry | labcodes/lab6/libs/skew_heap.h:61-67 | Insertion builds the heap with one more entry; the new entry becomes the root unless the old root is less. |
| SkewHeap.InsertedRoot | labcodes/lab6/libs/skew_heap.h:29-67 | The new entry wins a tie: with nothing less than it in the heap, it becomes the root. |
| SkewHeap.Remove | labcodes/lab6/libs/skew_heap.h:69-85 | Removing any member through its parent pointer builds exactly the tree without it. |
| SkewHeap.RemoveIsGraft | labcodes/lab6/libs/skew_heap.h:77-84 | Replacing the child of the parent is the removal described on values. |
| SkewHeap.RemoveContents | labcodes/lab6/libs/skew_heap.h:69-85 | Removal takes out one entry and no other. |
| SkewHeap.RemoveOrdered | labcodes/lab6/libs/skew_heap.h:69-85 | Removal of any member keeps heap order. |
| SkewHeap.MergeAmortised | labcodes/lab6/libs/skew_heap.h:29-59 | Calls plus new potential are at most old potential plus twice the light nodes on the two right spines. |
| SkewHeap.MergeBound | labcodes/lab6/libs/skew_heap.h:29-59 | For every merge, calls + potential after <= potential before + 2 * (log2(size of a + 1) + log2(size of b + 1)). |
| SkewHeap.RunCost | labcodes/lab6/libs/skew_heap.h:29-67 | Any m insertions and removals of the root, starting from an empty heap, make at most m * (4 * log2(m+1) + 2) calls. |
| KrMalloc.SlotStops | related_info/lab2/kr_malloc_free.c:50-52 | The search condition of kr_free holds at the one place of the ring where the block belongs and nowhere else. |
| KrMalloc.Allocator.FindSlot | related_info/lab2/kr_malloc_free.c:50-52 | The search ends there, wherever it starts. |
| KrMalloc.FreeBlock | related_info/lab2/kr_malloc_free.c:53-63 | All four ways of joining keep the ring in address order, the arena tiled and no two free blocks abutting; one free block grows, up to where the block freed or the free block above it ended, and the others stay; where freep then points. |
| KrMalloc.Partition | related_info/lab2/kr_malloc_free.c:45-115 | Free and live blocks are disjoint, cover every unit obtained exactly once, and no two free blocks abut. |
| KrMalloc.UnitsHold | related_info/lab2/kr_malloc_free.c:90 | The units hold the bytes asked for if and only if rounding up does not leave the 32-bit word, and one unit fewer never does. |
| KrMalloc.Allocator.Free | related_info/lab2/kr_malloc_free.c:45-64 | Freeing removes one live block, loses no unit and changes no other live block; the units end up in one free block around them. freep points at the free block below the one freed, or the static header, and the units are in the block it points at or in the one behind; a block joined to nothing is the one behind. |
| KrMalloc.Allocator.FreeHeader | related_info/lab2/kr_malloc_free.c:45-64 | The same, from the block's header. |
| KrMalloc.Extend | related_info/lab2/kr_malloc_free.c:79-80 | A fresh region becomes one block of the arena. |
| KrMalloc.Allocator.Morecore | related_info/lab2/kr_malloc_free.c:68-83 | The arena grows by at least NALLOC units, all free, or nothing changes. |
| KrMalloc.TakeWhole | related_info/lab2/kr_malloc_free.c:98-99 | Unlinking a block that fits exactly. |
| KrMalloc.TakeTail | related_info/lab2/kr_malloc_free.c:101-103 | Splitting off the tail of a larger block. |
| KrMalloc.NoRoom | related_info/lab2/kr_malloc_free.c:96-110 | When the search is back where it started, no free block is large enough. |
| KrMalloc.Allocator.Look | related_info/lab2/kr_malloc_free.c:96-113 | The way around stops at the first block that is large enough, with at most one call of morecore, and only if none is. |
| KrMalloc.Allocator.Find | related_info/lab2/kr_malloc_free.c:96-113 | If the arena had to grow, the block found ends where the new region, or a free block right above it, ends. |
| KrMalloc.Allocator.Search | related_info/lab2/kr_malloc_free.c:96-114 | The search ends, also after the arena has grown and the new block was joined to the one freep points at; if a block fits, the next one on the way around from freep gives up its tail. |
| KrMalloc.Allocator.Malloc | related_info/lab2/kr_malloc_free.c:86-115 | Returns the last units of the next block behind freep that is large enough, or asks sbrk exactly if there is none and returns the last units of the free block that the new region becomes part of; fails exactly if sbrk does then. freep points at the last free block, or the static header, below what is returned, but for what is left of the block that was cut. |
| KrMalloc.NextIsBehind | related_info/lab2/kr_malloc_free.c:91-114 | A search for exactly the size of the free block behind freep returns that block. |
| KrMalloc.FreeThenMalloc | related_info/lab2/kr_malloc_free.c:45-115 | A freed block that was joined to nothing is what the next request for its size returns. |
| Afs.Server.Step | related_info/ostep/ostep14-afs.py:405-463 | One action of a client, on the objects, is one step of the system described on values. |
| Afs.Server.GetFile | related_info/ostep/ostep14-afs.py:387-395 | Opening, from the local copy or from the server. |
| Afs.Server.PutFile | related_info/ostep/ostep14-afs.py:397-400 | Closing a changed copy, with the callbacks it sets off. |
| Afs.Server.Put | related_info/ostep/ostep14-afs.py:110-123 | The server breaks every other client's callback for the file. |
| Afs.InvPasses | related_info/ostep/ostep14-afs.py:199-200 | In every state that satisfies the invariant no assertion fires, that of invalidate included. |
| Afs.InvNext | related_info/ostep/ostep14-afs.py:405-463 | Every action outside nested sessions keeps the invariant: a listed file is cached and valid, and equal to the server's unless changed. |
| Afs.ClosedCopy | related_info/ostep/ostep14-afs.py:206-216 | After a close the copy stays in the cache exactly if it was changed or not called back meanwhile, and is then clean and valid, with what the client has seen. |
| Afs.RunIsSafe | related_info/ostep/ostep14-afs.py:405-463 | So it is in every state of every interleaving, for any number of clients. |
| Afs.CoherentNext | related_info/ostep/ostep14-afs.py:397-400 | Being valid stays equivalent to being listed if and only if the step does not close a changed copy that had been invalidated. |
| Afs.DetachedNext | related_info/ostep/ostep14-afs.py:397-400 | A copy that is valid but no longer listed comes from such a close only, and stays so for ever: no later step of any client repairs it. |
| Afs.DistinctNext | related_info/ostep/ostep14-afs.py:405-463 | Every step keeps the written values apart, and a detached copy equal to the server's exactly while its client was the last to close the file changed. |
| Afs.TracksNext | related_info/ostep/ostep14-afs.py:405-463 | One action of any client keeps what is known of a copy in use: changed exactly if its client wrote it since it opened it, and invalid exactly if another one closed the file changed since, unless it is detached. |
| Afs.RunTracks | related_info/ostep/ostep14-afs.py:405-463 | So it is throughout every run. |
| Afs.ClosesTold | related_info/ostep/ostep14-afs.py:397-400 | Whether a close stores a changed copy can be told from the turns before it. |
| Afs.RunDetaches | related_info/ostep/ostep14-afs.py:405-463 | In every run, which copies are detached and which of them are out of date follows from the turns alone: from who opened, wrote and closed what, in which order. |
| Afs.OpenIsFreshIff | related_info/ostep/ostep14-afs.py:387-395 | In every run an open yields the server's contents if and only if there was no session in which the client wrote the file while another one closed it changed, or the client was itself the last to close the file changed. |
| Afs.OpenIsFresh | related_info/ostep/ostep14-afs.py:387-395 | In a coherent state it always does. |
| Afs.RunIsCoherent | related_info/ostep/ostep14-afs.py:405-463 | A state of a run is coherent if and only if no client has had such a session with any file. |
| Afs.ContentsAreLastClosed | related_info/ostep/ostep14-afs.py:110-113 | In every run the server holds the last closed write. |
| Afs.OpenSeesLastClosed | related_info/ostep/ostep14-afs.py:387-395 | Under the same condition, and no other, an open sees the last closed write. |
| Afs.StaleRun | related_info/ostep/ostep14-afs.py:397-400 | A run of ten actions after which a client opens a file from a valid but stale copy. |
| Mlfq.Scheduler.constructor | related_info/ostep/ostep9-mlfq.py:103-176 | All queues are empty and every job has its event and a full slice of the highest queue, whatever its times and the lengths of the slices; the invariant holds if no start time and no time of I/O is negative. |
| Mlfq.Scheduler.FindQueue | related_info/ostep/ostep9-mlfq.py:9-17 | The highest queue that is not empty, or -1. |
| Mlfq.Scheduler.LowerQueue | related_info/ostep/ostep9-mlfq.py:19-29 | The new priority, slice and queue of a job whose slice is used up. |
| Mlfq.BoostQueues | related_info/ostep/ostep9-mlfq.py:198-202 | The boost moves every queued job to the top queue, each once. |
| Mlfq.BoostJobs | related_info/ostep/ostep9-mlfq.py:208-213 | Every unfinished job gets the top priority and a fresh slice. |
| Mlfq.Scheduler.Boost | related_info/ostep/ostep9-mlfq.py:194-214 | The boost keeps the invariant and the work left; the test for jobs that do I/O never drops one. |
| Mlfq.DeliverOne | related_info/ostep/ostep9-mlfq.py:217-225 | One event moves its job to its queue and nowhere else. |
| Mlfq.Scheduler.Deliver | related_info/ostep/ostep9-mlfq.py:217-225 | All events that are due put their jobs on their queues, in order. |
| Mlfq.Scheduler.Execute | related_info/ostep/ostep9-mlfq.py:237-299 | A tick of a job: the check of its queue never fires, that of its time left exactly if none was left, and otherwise the job ends in the one place that its record decides. |
| Mlfq.Scheduler.Reschedule | related_info/ostep/ostep9-mlfq.py:272-299 | I/O, end of slice, both or neither. |
| Mlfq.TurnKeepsSpecs | related_info/ostep/ostep9-mlfq.py:187-299 | No turn changes a job's start time, run time or I/O frequency. |
| Mlfq.Scheduler.Turn | related_info/ostep/ostep9-mlfq.py:187-299 | One turn is exactly boost, events and a tick of the head of the highest queue, or an idle tick towards a later event; it keeps every job in exactly one place, with 1 <= ticksLeft <= slice of its queue for an unfinished job if that slice is positive, so that no job overruns its slice; and the work left falls by one or not at all. |
| Mlfq.SomePending | related_info/ostep/ostep9-mlfq.py:228-232 | If all queues are empty and jobs are left, some event lies ahead. |
| Mlfq.Scheduler.Run | related_info/ostep/ostep9-mlfq.py:187-299 | The loop always ends. It is aborted exactly if some run time is not positive. Otherwise it is a sequence of turns from the first state to the last, every state with each job in one place and within its slice; all jobs as specified at the start are finished, none responds before its start time or turns around in less than its run time, and the clock shows the total of the run times plus the number of turns that served no queue. |
| Mlfq.Simulate | related_info/ostep/ostep9-mlfq.py:103-299 | The whole simulation, from the specifications of the jobs: it ends, with success if and only if all run times are positive, whatever the slices. It is then a run of turns from the state that the specifications make to one with all jobs finished, every state in order, and the clock shows its length, which is the total of the run times plus the number of its idle turns; the jobs returned are those of the last state. |
| MlfqTimes.EndTimeIs | related_info/ostep/ostep9-mlfq.py:262-268 | In every run, once a job's last tick is done, the end time recorded for it is the clock at the end of the turn of that tick. |
| MlfqTimes.FirstRunIs | related_info/ostep/ostep9-mlfq.py:242-246 | In every run, once a job has had a tick, its time of first run is the clock at the beginning of the turn of its first tick. |
| MlfqTimes.Reported | related_info/ostep/ostep9-mlfq.py:302-320 | A job's first and last tick both occur in a complete run, and its two times are those of these ticks. |
| MlfqTimes.Report | related_info/ostep/ostep9-mlfq.py:302-320 | The final statistics: each job's response time is from its start to the turn of its first tick, its turnaround time to the end of the turn of its last one, and the sums are over all jobs. |
| MlfqTimes.SumJoin | related_info/ostep/ostep9-mlfq.py:304-313 | The sums of two lists of times add up to that of both. |
| MlfqTimes.OthersKeep | related_info/ostep/ostep9-mlfq.py:193-214 | A boost gives every unfinished job the highest priority and a full slice; without one, or if finished, the jobs that do not run keep theirs. |
| MlfqTimes.HighestServed | related_info/ostep/ostep9-mlfq.py:9-17 | A job runs only when all higher queues are empty. |
| MlfqTimes.TickPlaces | related_info/ostep/ostep9-mlfq.py:248-299 | Where a job is after its tick: in no queue if finished or waiting for I/O, with its event the last one due at that time; otherwise in the queue of its priority, in front, or at the end if its slice is used up. |
| MlfqTimes.ArrivalsOrder | related_info/ostep/ostep9-mlfq.py:217-225 | Jobs that arrive go behind those waiting in their queue, in order, or in front of them, the last to arrive first, if the option says so. |
| MlfqRules.UnfinishedInSlice | related_info/ostep/ostep9-mlfq.py:19-29 | Of an unfinished job in any state in order, the ticks left are at most the slice of its queue, and at least 1 if and only if that slice is. |
| MlfqRules.SpendNext | related_info/ostep/ostep9-mlfq.py:187-299 | In one turn without a boost no priority rises, and a job that keeps a priority above the lowest pays each of its ticks from its slice, also if it issues an I/O, unless slices are reset after I/Os. |
| MlfqRules.SliceBound | related_info/ostep/ostep9-mlfq.py:272-299 | In every run, between two boosts, an unfinished job that is still in a queue above the lowest has run there for less than the slice of that queue, however it splits its work by I/Os. |
| MlfqRules.NeverLowered | related_info/ostep/ostep9-mlfq.py:291-299 | In a queue whose slice is less than 1 a job keeps its priority until the next boost, since its ticks left are never exactly 0. |
| MlfqRules.StaysOnTop | related_info/ostep/ostep9-mlfq.py:281-283 | With slices reset after I/Os, a job that issues one every so many ticks, fewer than the highest slice, has the highest priority in every state of every run. |
| Mlfq.LostNext | related_info/ostep/ostep9-mlfq.py:187-299 | A job that has not run, is in no queue and in no event to come stays so in every turn, boost or not. |
| Mlfq.NegativeStart | related_info/ostep/ostep9-mlfq.py:187-188 | With a negative start time some job never runs, so that the loop is not at its end after any number of turns. |
| Mksfs.Fs.AllocIno | labcodes/lab8/tools/mksfs.c:192-199 | The next number, never used before; fails exactly if the disk is full; unused_blocks keeps counting what is left. |
| Mksfs.Fs.SearchCacheBlock | labcodes/lab8/tools/mksfs.c:211-218 | A cached block is found by its number exactly if the number hashes like 0. |
| Mksfs.Fs.UpdateCache | labcodes/lab8/tools/mksfs.c:401-414 | All branches: a new block for pointer 0, the block at hand if it matches, and otherwise a search that succeeds only for numbers that hash like 0. |
| Mksfs.AppendedDirect | labcodes/lab8/tools/mksfs.c:425-427 | Appending through a direct pointer keeps the block map. |
| Mksfs.AppendedSingle | labcodes/lab8/tools/mksfs.c:428-433 | Appending through the indirect block keeps the block map. |
| Mksfs.AppendedDouble | labcodes/lab8/tools/mksfs.c:434-441 | Appending through the doubly indirect block keeps the block map. |
| Mksfs.TipServes | labcodes/lab8/tools/mksfs.c:409-412 | The index block at hand is always the one the next block needs, so the search is not reached. |
| Mksfs.FileStays | labcodes/lab8/tools/mksfs.c:416-445 | Appending to one file leaves the block maps of the others. |
| Mksfs.Fs.AppendBlock | labcodes/lab8/tools/mksfs.c:416-445 | Fails exactly at 32768 blocks or if the index blocks do not fit; otherwise the block becomes the file's last one, every invariant is kept, and the cache was not searched. |
| Mksfs.NoSharing | labcodes/lab8/tools/mksfs.c:152-161 | No two inodes, pointers or index entries of any files name the same block. |
| Mksfs.Fs.AllocCacheInode | labcodes/lab8/tools/mksfs.c:220-231 | A new empty file under a fresh inode number. |
| Mksfs.Fs.SearchCacheInode | labcodes/lab8/tools/mksfs.c:233-240 | Finds a file by its host number exactly if there is one. |
| Mksfs.Fs.AddBlock | labcodes/lab8/tools/mksfs.c:541-543 | Handing out a number, writing the block and appending it, as open_file, open_link and add_entry do. |
| Mksfs.CreateSfs | labcodes/lab8/tools/mksfs.c:242-273 | Fails exactly if the image cannot hold more than its own free map; the number of blocks is computed in 32 bits and at most 524288. |
| Mksfs.First | labcodes/lab8/tools/mksfs.c:252-262 | The blocks reserved are the super block, the root inode and the fewest map blocks with a bit for every block. |
| Mksfs.Fs.FillMap | labcodes/lab8/tools/mksfs.c:337-351 | Bit b of the map block for blocks i and up is set exactly if next_ino <= i + b < ninos. |
| Mksfs.Fs.WriteMaps | labcodes/lab8/tools/mksfs.c:336-353 | The map fills exactly the blocks reserved for it. |
| Mksfs.FreeCountIs | labcodes/lab8/tools/mksfs.c:346-351 | The bits set in the first k map blocks count the free blocks they cover. |
| Mksfs.FileReads | labcodes/lab8/tools/mksfs.c:356-367 | Once index blocks and inodes are on the disk, block k of every file is found there. |
| Mksfs.Fs.CloseSfs | labcodes/lab8/tools/mksfs.c:331-368 | In the closed image every inode is as the builder has it, type and link count included; every file reads back as its content, in order and with the right size; and the super block counts exactly the bits set in the map. |
| Mksfs.ReadBack | labcodes/lab8/tools/mksfs.c:331-368 | Reading every inode and every block from the disk alone gives back the files and their contents. |
| ImageTree.AddEntry | labcodes/lab8/tools/mksfs.c:447-456 | One entry more, one link more for its target in 16 bits, and nothing else. |
| ImageTree.LinkedMore | labcodes/lab8/tools/mksfs.c:451-455 | With every entry made, each link count stays the number of entries, in all directories, that name the inode, modulo 65536. |
| ImageTree.NamesAreEntries | labcodes/lab8/tools/mksfs.c:468-476 | The entries that name a file's inode are as many as the names the file has in the tree. |
| ImageTree.OpenFile | labcodes/lab8/tools/mksfs.c:535-549 | It succeeds exactly if only the last read is short and the blocks for all reads are left; then the file holds what the reads return. |
| ImageTree.CopyLink | labcodes/lab8/tools/mksfs.c:551-561 | It succeeds exactly if the target is shorter than a block and two blocks are left; then the link holds its target. |
| ImageTree.AddFile | labcodes/lab8/tools/mksfs.c:468-476 | A file with several names gets one inode; it succeeds exactly if the blocks for the content, unless it is there already, and for the entry are left. |
| ImageTree.AddDir | labcodes/lab8/tools/mksfs.c:458-466 | A directory is copied and entered, exactly if the blocks for that are left; one seen before ends the program, which is why the walk ends. |
| ImageTree.AddItem | labcodes/lab8/tools/mksfs.c:495-530 | Which items are skipped, copied or end the program, and how many blocks each takes; items of another kind are skipped only if they can be opened. |
| ImageTree.OpenDir | labcodes/lab8/tools/mksfs.c:485-533 | It succeeds exactly if no item ends the program and the blocks for the whole subtree are left; the copy has "." and ".." first and then the items that are not skipped, in order. |
| ImageTree.MirrorsStays | labcodes/lab8/tools/mksfs.c:485-533 | What is copied stays a copy while other directories grow. |
| ImageTree.ImageIs | labcodes/lab8/tools/mksfs.c:331-368 | Inode types, contents and entries found on the disk alone mirror the host, and link counts count entries modulo 65536. |
| ImageTree.ListsSelected | labcodes/lab8/tools/mksfs.c:495-530 | The entries of a copied directory behind "." and ".." are, in order, one each for the items whose name does not begin with a dot and whose node is a file, a link or a directory; names of up to 252 characters are stored whole. |
| ImageTree.ImageListed | labcodes/lab8/tools/mksfs.c:485-533 | So it is in every directory of the image, and no name there begins with a dot. |
| ImageTree.ImageSized | labcodes/lab8/tools/mksfs.c:415-456 | The size on the disk is the bytes read of a file, the length of a link's target, and 256 bytes for each entry of a directory; the blocks of files and links are counted. |
| ImageTree.CountsAre | labcodes/lab8/tools/mksfs.c:447-456 | The link count of a file is the number of its names modulo 65536, and that number itself exactly if it is below 65536. |
| ImageTree.CreateImage | labcodes/lab8/tools/mksfs.c:563-578 | The program succeeds if and only if the host tree has no name, target, short read, repeated directory or failing call that ends it and the image has as many blocks as the tree needs. Then the image mirrors the host: types, sizes and contents, read back from the disk, are those of the host directory; behind "." and ".." each directory has one entry for each item that is a file, link or directory and whose name does not begin with a dot, in order, and no others; every link count is the number of names modulo 65536, exact if and only if there are fewer than 65536; and the cache was never searched by number. |
| ImageLimits.BlocksCapped | labcodes/lab8/tools/mksfs.c:244-250 | The number of blocks is that of the image, capped, if and only if the division fits 32 bits or what is left of it reaches the cap. |
| ImageLimits.NameLimit | labcodes/lab8/tools/mksfs.c:499-503 | An item ends the program by its name exactly if that has more than 255 characters and does not begin with a dot. |
| ImageLimits.LinkLimit | labcodes/lab8/tools/mksfs.c:470-483 | A link does so exactly if its target does not fit a block with its closing zero. |
| ImageLimits.ReadLimit | labcodes/lab8/tools/mksfs.c:535-548 | A file whose reads are not whole blocks, but for the last, ends the program. |
| ImageLimits.FileLimit | labcodes/lab8/tools/mksfs.c:418-424 | A file of whole blocks ends the program exactly if it has more than 32768 of them. |
| ImageLimits.OpenLimit | labcodes/lab8/tools/mksfs.c:506-529 | An item that cannot be opened ends the program; one that can be, but is no file, link or directory, does not. |
| ImageLimits.HugeImage | labcodes/lab8/tools/mksfs.c:244-255 | An image of 2^44 bytes counts as one of no blocks, and nothing can be built in it. |
| ImageLimits.ManyNamesFit | labcodes/lab8/tools/mksfs.c:156-156 | A tree with 65536 names for one file fits an image of 2 GB, and the count written for the file is 0. |
| Vsfs.FullParts | related_info/ostep/ostep13-vsfs.py:240-247 | Taking a full path apart gives back its directory and its last part. |
| Vsfs.GetParent | related_info/ostep/ostep13-vsfs.py:240-247 | The loop computes the parent by splitting and joining. |
| Vsfs.NewFileOk | related_info/ostep/ostep13-vsfs.py:226-227 | Taking a free inode for a file keeps the disk in order but for the entry that is still to come. |
| Vsfs.NewDirOk | related_info/ostep/ostep13-vsfs.py:333-343 | Taking a free inode and block for a directory keeps the disk in order. |
| Vsfs.EnterOk | related_info/ostep/ostep13-vsfs.py:350-354 | A new entry keeps bitmaps, owners and counts in order. |
| Vsfs.LeaveOk | related_info/ostep/ostep13-vsfs.py:265-274 | So does taking one out. |
| Vsfs.DropOk | related_info/ostep/ostep13-vsfs.py:255-263 | Giving up a reference frees inode and block exactly with the last one, and then no entry names the file. |
| Vsfs.WriteOk | related_info/ostep/ostep13-vsfs.py:364-371 | Giving an empty file a block keeps the disk in order. |
| Vsfs.ListedIsThere | related_info/ostep/ostep13-vsfs.py:380-438 | A path that is listed has its entry, so a new name is never already in the index. |
| Vsfs.NamesAdded | related_info/ostep/ostep13-vsfs.py:380-438 | A new name keeps the index: every listed path resolves through its parent, and every entry is listed. |
| Vsfs.NamesLeft | related_info/ostep/ostep13-vsfs.py:265-277 | So does removing one, although its entry in the index stays behind. |
| Vsfs.NamesDropped | related_info/ostep/ostep13-vsfs.py:255-263 | Freeing a file takes no name of another file with it. |
| Vsfs.CreatedContents | related_info/ostep/ostep13-vsfs.py:308-355 | Creating changes no file's content, and a new file is empty. |
| Vsfs.LinkedOk | related_info/ostep/ostep13-vsfs.py:280-306 | A link has its target's content, and its counts are right. |
| Vsfs.DeletedContents | related_info/ostep/ostep13-vsfs.py:249-278 | Deleting one name changes no other file, not even one linked to it. |
| Vsfs.CreatedServed | related_info/ostep/ostep13-vsfs.py:280-325 | What a creation does to the disk is what its outcome promises, with the contents of all files kept. |
| Vsfs.DeletedServed | related_info/ostep/ostep13-vsfs.py:249-278 | So it is for a deletion. |
| Vsfs.Fs.constructor | related_info/ostep/ostep13-vsfs.py:168-197 | The initial file system is in order. |
| Vsfs.Fs.NewNode | related_info/ostep/ostep13-vsfs.py:325-348 | The first free inode and block, or nothing changes: an inode taken in vain is given back. |
| Vsfs.Fs.MarkInode | related_info/ostep/ostep13-vsfs.py:34-36 | A bit is set only where it is clear, as the assertion demands. |
| Vsfs.Fs.MarkData | related_info/ostep/ostep13-vsfs.py:34-36 | The same for blocks. |
| Vsfs.Fs.FreeInode | related_info/ostep/ostep13-vsfs.py:229-231 | An inode is freed, its bit and its record, only if its bit is set. |
| Vsfs.Fs.FreeData | related_info/ostep/ostep13-vsfs.py:116-123 | A block is freed only if it is in use, a directory's only with no entries but its first two. |
| Vsfs.Fs.SetBlockType | related_info/ostep/ostep13-vsfs.py:71-73 | A block gets a type only if it is free. |
| Vsfs.Fs.AddData | related_info/ostep/ostep13-vsfs.py:75-77 | Only a file's block gets data. |
| Vsfs.Fs.AddDirEntry | related_info/ostep/ostep13-vsfs.py:92-96 | Only a directory gets an entry, and never more than 32. |
| Vsfs.BlocksInUse | related_info/ostep/ostep13-vsfs.py:249-278 | In a disk in order, what the assertions of deleting and writing demand of a file's inode and block is so. |
| Vsfs.Fs.CreateFile | related_info/ostep/ostep13-vsfs.py:308-355 | Fails exactly if the directory is full, has the name, or an inode or block is lacking, and then changes nothing. |
| Vsfs.Fs.CreateLink | related_info/ostep/ostep13-vsfs.py:280-306 | Fails exactly if the directory is full or has the name, and then changes nothing. |
| Vsfs.Fs.DeleteFile | related_info/ostep/ostep13-vsfs.py:249-278 | Everything stays in order, the name is gone from the list and its entry from its directory, the inode has one reference less, or is free with its block if that was the last, and the other files keep their contents. |
| Vsfs.Fs.Release | related_info/ostep/ostep13-vsfs.py:255-263 | The reference is given up, and with the last one the block and the inode. |
| Vsfs.Fs.DelDirEntry | related_info/ostep/ostep13-vsfs.py:98-107 | The first entry of that name is taken out; the assertion for a missing one never fires. |
| Vsfs.Fs.WriteFile | related_info/ostep/ostep13-vsfs.py:357-374 | Fails exactly if the file has its block or none is free; otherwise all names of the file and no others see the data, which is in the first free block. |
| Vsfs.Fs.DoCreate | related_info/ostep/ostep13-vsfs.py:410-438 | The whole creation is refused exactly if the directory is full or has the name, or an inode or a directory's block is lacking, and then changes nothing; otherwise the name is listed for the first free inode, a new empty file or a directory of two entries, and everything stays in order. |
| Vsfs.Fs.DoLink | related_info/ostep/ostep13-vsfs.py:384-408 | The whole link is refused exactly if the directory has 32 entries or already the name, and then changes nothing; otherwise the new path has the target's inode, which counts one reference more, and everything stays in order. |
| Vsfs.Serve | related_info/ostep/ostep13-vsfs.py:376-448 | One request, with the file or directory that it picks: what it answers and what it changes; without a file there is nothing to delete, link or write. |
| Vsfs.Run | related_info/ostep/ostep13-vsfs.py:450-460 | Any sequence of requests keeps the file system in order, and each one of them is answered and carried out as its outcome says, from the state that the ones before it left. |
| Raid.UnmapsBmap | related_info/ostep/ostep16-raid.py:180-264 | In every layout a block is found again at its place, so no two blocks share one. |
| Raid.ChunksInTurn | related_info/ostep/ostep16-raid.py:180-264 | The chunks of a row lie on one disk after the other, from the first disk on, or with rotated parity from the disk behind the row's parity disk on. |
| Raid.BmapsUnmap | related_info/ostep/ostep16-raid.py:180-264 | Every place that is not a copy or parity holds a block. |
| Raid.DataOrParity | related_info/ostep/ostep16-raid.py:234-269 | Every block of a RAID-4 or RAID-5 array is either data or its own stripe's parity, never both. |
| Raid.ParityApart | related_info/ostep/ostep16-raid.py:258 | A block's parity is on another disk. |
| Raid.PartialWrites | related_info/ostep/ostep16-raid.py:298-306 | What is written is the new blocks and the parity at each of their offsets. |
| Raid.ParityComputable | related_info/ostep/ostep16-raid.py:275-306 | For every parity block written, what is read and written suffices to compute it, either from its old value or from its whole row. |
| Raid.WriteComputable | related_info/ostep/ostep16-raid.py:309-340 | So it is for a whole write of any length: for every block written, its stripe's parity at its offset can be computed. |
| Raid.WritesAreAll | related_info/ostep/ostep16-raid.py:309-340 | A whole write changes the blocks asked for and the parity of each of them, and nothing else. |
| Raid.OffsCount | related_info/ostep/ostep16-raid.py:299-304 | The blocks from b to e of a stripe lie at min(e - b, chunk size) offsets. |
| Raid.ChoiceIsBest | related_info/ostep/ostep16-raid.py:272-296 | The mode chosen needs no more requests than the other, if and only if not w + 1 <= B - w < w + min(w, chunk size) for w blocks of a stripe of B. |
| Raid.ChoiceCanLose | related_info/ostep/ostep16-raid.py:275 | With chunks of four blocks on four disks, five blocks are written with nine reads where seven would do. |
| Raid.WritesWhatIsAsked | related_info/ostep/ostep16-raid.py:320-340 | A write touches exactly the data blocks asked for. |
| Raid.Array.DoPartialWrite | related_info/ostep/ostep16-raid.py:272-306 | The requests issued for part of a stripe. |
| Raid.Array.Enqueue45 | related_info/ostep/ostep16-raid.py:309-340 | The requests issued for a read or a write, cut at stripe boundaries; also for no blocks at all. |
| PageTable.Masks | related_info/ostep/ostep5-paging-multilevel-translate.py:60-71 | Masks and shifts of an address are quotients and remainders. |
| PageTable.EntryMasks | related_info/ostep/ostep5-paging-multilevel-translate.py:94-115 | So are those of an entry; setting the valid bit adds 128, and the masks take the entry apart again. |
| PageTable.AddressMasks | related_info/ostep/ostep5-paging-multilevel-translate.py:144-144 | Shifting a page number and or-ing an offset is 32 * page + offset. |
| PageTable.OS.constructor | related_info/ostep/ostep5-paging-multilevel-translate.py:29-50 | All of memory is 0 and no page is used; memory represents no process. |
| PageTable.MappedOk | related_info/ostep/ostep5-paging-multilevel-translate.py:117-134 | A new entry makes the table represent the mapping with one more page. |
| PageTable.ProcStays | related_info/ostep/ostep5-paging-multilevel-translate.py:151-153 | Writes outside a process's directory and tables leave its mapping. |
| PageTable.OS.FindFree | related_info/ostep/ostep5-paging-multilevel-translate.py:73-80 | Any free page; fails exactly if all are used. |
| PageTable.OS.Translate | related_info/ostep/ostep5-paging-multilevel-translate.py:137-149 | pp * 32 + offset exactly if the page is mapped, -1 exactly if no page of its group of 32 is, and -2 otherwise. |
| PageTable.TranslationSteps | related_info/ostep/ostep5-paging-multilevel-translate.py:137-149 | Addresses of one mapped page keep their distance. |
| PageTable.TranslationFaults | related_info/ostep/ostep5-paging-multilevel-translate.py:137-149 | The address is -1 exactly if no page of its group of 32 is mapped, -2 exactly if others of them are, and otherwise not negative. |
| PageTable.TranslationInPage | related_info/ostep/ostep5-paging-multilevel-translate.py:137-149 | A translated address is in the data page that the process has for the virtual page, at the same distance from its start. |
| PageTable.TranslationsApart | related_info/ostep/ostep5-paging-multilevel-translate.py:137-149 | No two mapped addresses of a process, or of two, have the same translation. |
| PageTable.OS.TableFor | related_info/ostep/ostep5-paging-multilevel-translate.py:120-129 | The table page of a group is found or allocated; what the directory said before is as the assertion demands. |
| PageTable.OS.AllocVirtualPage | related_info/ostep/ostep5-paging-multilevel-translate.py:117-134 | The mapping gains the page and no other mapping changes; both assertions hold. |
| PageTable.OS.FillPage | related_info/ostep/ostep5-paging-multilevel-translate.py:151-153 | Filling a data page with anything changes no translation of any process. |
| PageTable.OS.ProcAlloc | related_info/ostep/ostep5-paging-multilevel-translate.py:155-179 | A process gets as many distinct virtual pages as asked for, whatever the choices; other processes keep theirs. It fails only with all 128 pages in use, and never with more than two pages left for each page asked for. |
| FreeList.TakenPartition | related_info/ostep/ostep3-malloc.py:73-84 | Allocating from an entry, with or without a split, keeps free and allocated blocks a partition of the heap. |
| FreeList.FreedPartition | related_info/ostep/ostep3-malloc.py:89-124 | So does freeing, for every list order, with or without coalescing. |
| FreeList.PlacedWhere | related_info/ostep/ostep3-malloc.py:95-107 | A freed block goes behind all others, in front of them, or where addresses or sizes stay in order, as the list order says. |
| FreeList.SortIs | related_info/ostep/ostep3-malloc.py:99-107 | Each of the three sorts gives a permutation of the list that is in order, by address or by size, and keeps entries that compare as equal in the order they came in. |
| FreeList.MergedGaps | related_info/ostep/ostep3-malloc.py:110-121 | In address order one pass leaves no two blocks that touch. |
| FreeList.MergedApart | related_info/ostep/ostep3-malloc.py:110-121 | One pass over any list leaves no two neighbours in it that touch, end to start. |
| FreeList.FreedMerges | related_info/ostep/ostep3-malloc.py:89-124 | Freeing with coalescing leaves no such neighbours; without it the list has the old entries and the freed one, and no other. |
| FreeList.FitsIffRun | related_info/ostep/ostep3-malloc.py:61-87 | With the address order and coalescing, some entry is large enough exactly if there is a contiguous free run of that size. |
| FreeList.Malloc.Search | related_info/ostep/ostep3-malloc.py:53-71 | The first fit, a smallest fit or a largest fit, the first of equal ones, and how many entries were looked at. |
| FreeList.Malloc.Malloc | related_info/ostep/ostep3-malloc.py:41-87 | For any list: the entry that the policy chooses, of those that the search accepts, gives up its front, and the assertion on the addresses handed out fails exactly if that address is one of them. In a heap in order it never does, the request fails exactly if no entry is large enough, and the heap stays in order if and only if the request, rounded and with its header, is for at least one unit or nothing was found: any other request is met by an address that stays in the free list. |
| FreeList.Malloc.Take | related_info/ostep/ostep3-malloc.py:73-84 | The entry shrinks or leaves the list, and its address is noted unless it is handed out already. |
| FreeList.Malloc.Keeps | related_info/ostep/ostep3-malloc.py:41-87 | What a request of any size, also a negative one, makes of a heap in order. |
| FreeList.Malloc.Coalesce | related_info/ostep/ostep3-malloc.py:110-121 | The loop computes the merged list. |
| FreeList.Malloc.Free | related_info/ostep/ostep3-malloc.py:89-124 | For any list: an unknown address changes nothing; a known one goes back to the list, which is placed, sorted and merged as the settings say. A heap in order stays so. |
| Sjf.Statistics | related_info/ostep/ostep8-scheduler.py:69-86 | The loop computes the three sums for the order given. |
| Sjf.SortStable | related_info/ostep/ostep8-scheduler.py:57-59 | Jobs of the same run time keep their order. |
| Sjf.WaitsAtLeast | related_info/ostep/ostep8-scheduler.py:74-85 | Every pair of jobs makes one of them wait for the other, at best for the shorter one, and in ascending order always so. |
| Sjf.PairMinSame | related_info/ostep/ostep8-scheduler.py:57-59 | The sum over all pairs does not depend on the order. |
| Sjf.SortedIsBest | related_info/ostep/ostep8-scheduler.py:57-86 | Running the jobs by run time makes the sums of waiting, response and turnaround times as small as any order of them can. |
| Numbers.DoDiv | labcodes/lab8/libs/x86.h:6-19 | The two divide instructions give the quotient and remainder of a 64-bit number, and the second one never overflows. |
| Numbers.Divl | labcodes/lab8/libs/x86.h:14-15 | The divide instruction, with the condition under which it does not trap. |
| Numbers.PrintNum | labcodes/lab8/libs/printfmt.c:53-69 | The recursion prints the digits, padded to the width. |
| Numbers.DigitsPrinted | labcodes/lab8/libs/printfmt.c:53-69 | Only digits and, above base 10, small letters are printed, and no leading zero. |
| Numbers.DigitsRead | labcodes/lab8/libs/string.c:245-266 | Digits read back as what a 32-bit word holds of the number they were printed from, in every base from 2 to 16. |
| Numbers.StrtolAt | labcodes/lab8/libs/string.c:216-272 | The pointer loops compute the number at the start of a string, in a 32-bit long that wraps around, and where it ends, base 0 and prefixes included. |
| Numbers.FormRead | labcodes/lab8/libs/string.c:216-272 | Blanks and tabs, a sign, the prefix for the base and digits are read as the number that they spell, wrapped to 32 bits, and reading stops behind them. |
| Numbers.HexPrefix | labcodes/lab8/libs/string.c:204-236 | Of the two hexadecimal prefixes that the comment names the code reads the one with the small letter only; behind "0X" nothing is read. |
| Numbers.BarePrefix | labcodes/lab8/libs/string.c:233-236 | A prefix with no digits behind it is read, as 0. |
| Numbers.CapitalsRead | labcodes/lab8/libs/string.c:246-267 | Capital letters are read as small ones are, up to the same place. |
| Numbers.PaddedRead | labcodes/lab8/libs/printfmt.c:53-69 | What strtol makes of every padded number: the number modulo 2^32, unless it is padded with signs. |
| Numbers.ReadsBackUnsigned | labcodes/lab8/libs/printfmt.c:254-277 | strtol reads back what the unsigned conversions printed, if and only if the number fits a signed 32-bit word and is 0 or not padded with signs. |
| Numbers.ReadsBack | labcodes/lab8/libs/printfmt.c:245-252 | strtol reads back what the signed conversion printed, of any width, if and only if the number fits a signed 32-bit word and there is no padding, the number is 0, the padding is zeros, or it is blanks and the number is positive. |
| Numbers.WideReadsAsZero | labcodes/lab8/libs/string.c:265-266 | 2^32, printed without padding, reads as 0. |

## Left out

- Mksfs.Fs: an index block or a file in memory is identified by its number instead of a pointer; a block's hash chain is the list of numbers in it. Aliasing of cached blocks is not captured.
- Mksfs: the magic number and the name in the super block, and the words of an index block behind the last block of its file.
- Mksfs.Fs.AllocCacheBlock: has no number to ask for, since every caller of the original passes 0.
- Mksfs.Fs.FillMap: the bits of a map block are a list of truth values, not 32-bit words.
- ImageTree.AddEntry: a stored name is cut to 252 characters, since the original writes 256 bytes of a record that has four more; names that long are not read back whole.
- ImageTree: the host's files and directories are given by what the library calls return for them, refused if a call fails or never returns; memory and descriptors do not run out, writing the image does not fail, and the messages for the user are left out. Errors end the program in the original and are a false result here.
- KrMalloc: addresses count headers; requests to sbrk of 2^32 bytes or more do not wrap around; what sbrk returns is a parameter, a region above the static header that overlaps nothing obtained before.
- Buddy: sizes are unbounded, except in the rounding of requests, which is on 32-bit words, and where twice the size overflows.
- SkewHeap: entries carry an item instead of being embedded in one, and the comparison is a function of items that returns -1 for less.
- Afs: statistics, descriptors and the printed trace; an action names its file.
- Mlfq.Simulate: start times are not negative, since the original does not end otherwise, as `Mlfq.NegativeStart` proves, and times of I/O are not negative.
- Mlfq: the parsing of options, and the averages at the end, whose sums are in `MlfqTimes.Report`; its two sanity checks make the result false instead of ending the program.
- Paging: the number of resident pages kept in a counter is the length of the list; a cache of no pages at all, with which the original fails, is excluded; random choices are any choices.
- Paging.Evict: which page CLOCK and RAND evict is any that the probes allow.
- Vsfs: the generator's choices are parameters, and its names are any names without a slash; tables are lists of records.
- Raid: the LA layout, whose code reads an unbound name, and the timing of disks; enqueue0 and enqueue1 are left out, being loops over the mappings only.
- PageTable.OS.ProcAlloc: the contents of data pages are one list of values for all pages, since they are never looked at.
- FreeList: a heap in order has at least one unit and starts at an address that is not negative, since -1 is the answer for failure; of other heaps, as one is after a request that came to 0 units or fewer, it is said what each operation does to the list, and no more.
- Sjf: round robin; run times are real numbers.
- Numbers.StrtolAt: a number that leaves the 32-bit long wraps around in two's complement; the language leaves that overflow undefined.
- Numbers.PrintNum: bases are from 2 to 16; with base 1, which the original's comment allows, its recursion does not end for numbers above 0.
- Numbers: the prefix that the pointer conversion prints, the conversions of characters, strings and errors, and the output buffer.
- The kernel proper, boot code, user programs and the remaining library routines are not part of this model.
