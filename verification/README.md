# Vector SSD firmware: a verified model

The firmware of an SSD with an in-storage vector index, from the NVMe command down to the NAND queues, and the
admission policy that schedules searches around an index build. The model is in layers:

- **Lists** (`IndexLists`, `BlockingLinks`): doubly linked lists threaded through fixed tables.
- **Flash translation layer** (`Ftl`, `FtlInvariant`, `FtlRuns` as values; `DieTables`, `FtlTables` in place):
  logical-to-virtual and reverse maps, free blocks with one in reserve, garbage collection by exact stale counts.
- **Write-back buffer** (`Buffer` as values; `DataBuffer` in place; `Recency`): recency list, hash chains, allocation,
  and that over runs the list is ordered by last use.
- **Store** (`BlockStore`; `Device` in place; `Commands`): buffer and translation layer together behave as a plain
  block store, through slice requests, flushes, evictions and collections.
- **Request protocol** (`Requests` as values; `RequestQueues`, `RequestPool` in place): queues, per-buffer blocking
  chains and per-block page order, over every interleaving of submissions, completions and releases. Page order
  (`FlashDiscipline`), chains and counters (`Dependencies`) are right whatever is submitted, and every request is let
  go when it may (`Progress`); data are right (`RequestSafety`) exactly as long as submissions are fresh (`Freshness`,
  `StaleWrite`), and then no waiting lasts forever (`Liveness`).
- **Whole device** (`Submissions`, `EndToEnd`): the requests the store submits are what the protocol may be given,
  and every transfer to the host carries the last values written.
- **Ways, addresses, bad blocks** (`WayLists`, `Addressing`, `RowAddress`, `BadBlocks`).
- **Skip list** (`SkipList`): a finite map over a fixed node pool.
- **Admission** (`Scheduler`): the SLO-P loop of the benchmark.

Each operation has a specification on values; the modules in place keep the arrays, links, flags and counters of the
source and are proved against it. Dies, blocks, pages, ways, buffer entries and pool sizes are symbolic.

Where the code departs from what its comments or assertions suggest, the code is followed:

- Collecting a die whose fully invalid block is also its current block leaves that block current and on the free list
  (`garbage_collection.c:78`, `address_translation.c:815`). The exact condition is part of the statements, and
  `FtlRuns.RewritingBreaksTheInvariant` gives the run.
- The buffer's block count has one bit, so the first pass of the allocation never finds anything.
- The check of a write does not look for a waiting erase. Page order, chains and counters do not depend on it
  (`FlashDiscipline`, `Dependencies`); data do. `RequestSafety.SubmitIsExact` says which requests may be submitted,
  `StaleWrite` gives a run that goes wrong. Going wrong takes a block with all its pages waiting to be written while
  its erase waits (`Freshness`): a pool of at most pages + 1 slots rules it out. The configured pool is larger, 128
  slots per die for all dies together (`request_allocation.h:53`).
- The skip list's search reads a key through NIL; the exact condition under which it misses is in its contract.
- SLO-P ignores the inserts after the last admitted search; the exact condition under which the plan is late is
  `Scheduler.PlanMeetsDeadlineIff`. With nothing admitted the policy fails on an empty list.

## Model

| member | source | states |
|---|---|---|
| EndToEnd.RunsDeliver | vector1/cosmos_app/src/request_transform.c:257-318 | In every run whose store steps collect no fully invalid current block and whose submissions are fresh, whatever order requests complete and are released in, every transfer to the host carries, for each block of its read that was ever written, the value last written before the read was served |
| EndToEnd.FewSlotsDeliver | vector1/cosmos_app/src/request_transform.c:257-401 | The same with nothing asked of submissions, if the pool has at most one slot more than a block has pages |
| EndToEnd.CompletionDelivers | vector1/cosmos_app/src/request_transform.c:683-715 | In every state a run can reach, a transfer to the host that may complete finds in its buffer entry exactly what it owes the host |
| EndToEnd.StepKeeps | vector1/cosmos_app/src/request_transform.c:257-318 | An orderly step of the whole device keeps the combined invariant; a slice request that collects a fully invalid current block, or a stale submission, does not |
| EndToEnd.FewSlotsSubmitFresh | vector1/cosmos_app/src/request_transform.c:329-401 | With so few slots the store never wants a stale submission |
| EndToEnd.NextIsLawful | vector1/cosmos_app/src/request_transform.c:329-401 | The next request the store wants submitted always keeps to the flash discipline in submission order, so that only its freshness is left to ask for |
| EndToEnd.QuietFlashHolds | vector1/cosmos_app/src/data_buffer.c:208-243 | When nothing is outstanding, every slice that no dirty entry caches stands in the cells of the flash it is mapped to with the values last written |
| EndToEnd.InitIsOk | vector1/cosmos_app/src/address_translation.c:244-254 | If every die has two good blocks, initialisation leads to a state in order that stands for the empty block store and erases nothing |
| BlockStore.RunRefines | vector1/cosmos_app/src/request_transform.c:257-318 | Over every run of slice requests, flushes and pin changes that collect no fully invalid current block, cache and flash together behave as a plain block store: each read returns the values last written, whatever was evicted and collected in between |
| BlockStore.ServeSpec | vector1/cosmos_app/src/request_transform.c:257-318 | A slice request stops the device exactly if it misses and either every entry is pinned or the evicted slice's die has nothing to collect; otherwise it reads the last values, applies its write, and keeps the translation layer's invariant exactly if no fully invalid current block was collected |
| BlockStore.EvictSpec | vector1/cosmos_app/src/request_transform.c:166-197 | Writing out an entry loses nothing, cleans that entry only, and stops or breaks the invariant exactly in the stated cases |
| BlockStore.FlushSpec | vector1/cosmos_app/src/data_buffer.c:208-243 | A flush stops the device exactly if, when its turn comes, some entry's die has nothing to collect; otherwise every unpinned entry is clean, every pinned one untouched, and the store unchanged |
| BlockStore.FlushCalmIsNecessary | vector1/cosmos_app/src/data_buffer.c:208-243 | The condition under which a flush is looked at holds exactly if every state on the way keeps the translation layer's invariant |
| BlockStore.FlushIsDurable | vector1/cosmos_app/src/data_buffer.c:208-243 | After a flush, flash alone has the last values of every slice that no pinned entry caches |
| Submissions.StepSubmits | vector1/cosmos_app/src/request_transform.c:166-318 | The requests a step submits, run one after the other, are each lawful when their turn comes and bring buffer and flash to where the step says they are |
| Submissions.GcSubmits | vector1/cosmos_app/src/garbage_collection.c:71-131 | The reads and writes of a collection, pair by pair over the die's one temporary entry, and its erase are lawful and lead to the flash the collection promises |
| Submissions.StepTx | vector1/cosmos_app/src/request_transform.c:296-318 | The only transfer to the host a step submits is the last request of a read, from the entry that serves it |
| Submissions.StepErasesFull | vector1/cosmos_app/src/garbage_collection.c:71-131 | Whatever a step erases is a block with all its pages programmed |
| Submissions.ServeReads | vector1/cosmos_app/src/request_transform.c:199-242 | After a slice request the serving entry caches its slice; a page was read into it exactly if none cached it before, not all of it is overwritten, and it is the page the slice is then mapped to |
| Device.ServeSlice | vector1/cosmos_app/src/request_transform.c:257-318 | The in-place code on arrays and links does to maps, tables and buffer what the slice request does to the store, halts exactly where it halts, and hands out the same next die; it issues exactly the NAND requests of the step, in their order, and before the DMA a read of page v into the serving entry exactly if no entry had the slice, not all of it is overwritten, and the slice is then mapped to v |
| Device.FlushAllDataBuf | vector1/cosmos_app/src/data_buffer.c:208-243 | If no fully invalid current block is collected on the way, the in-place walk over the recency list does what the flush of the store does, and issues exactly its requests |
| Device.EvictDataBufEntry | vector1/cosmos_app/src/request_transform.c:166-197 | The in-place eviction does what the eviction of the store does and issues its requests: those of the allocation, and the write of the entry to the page it gave |
| FtlInvariant.AddrTransWriteSpec | vector1/cosmos_app/src/address_translation.c:651-669 | Writing a slice stops the device exactly if its die must collect and has no stale slice; the page it gets is on the die whose turn it is and was not programmed since its block's last erase, and the next die takes its turn; the slice reads back as written and every other as before; the invariant survives exactly if no fully invalid current block was collected |
| FtlInvariant.GarbageCollectionSpec | vector1/cosmos_app/src/garbage_collection.c:71-131 | Collecting stops exactly if no block has a stale slice; otherwise no slice's content changes, at most pages-1 pages move into one fresh block, the victim becomes the youngest free block, and the invariant survives exactly if the victim was not a fully invalid current block |
| FtlInvariant.VictimIsMaximal | vector1/cosmos_app/src/garbage_collection.c:152-181 | The victim has the largest number of stale slices among the blocks in use of its die and is at the head of the bucket of that number |
| FtlInvariant.OpenForWriteSpec | vector1/cosmos_app/src/address_translation.c:672-711 | The only reason an allocation can stop is a die without stale slices; the assertions about missing blocks and page management cannot fail |
| FtlInvariant.CopyLiveKeeps | vector1/cosmos_app/src/garbage_collection.c:78-128 | The copy loop always finds room, leaves no live page in the victim, and changes the content of no slice |
| FtlInvariant.InvalidateKeeps | vector1/cosmos_app/src/address_translation.c:767-789 | Invalidating a slice keeps maps, exact stale counts and buckets, unmaps that slice only and touches no content |
| FtlInvariant.InvalidateFrame | vector1/cosmos_app/src/address_translation.c:775-786 | Of a mapped slice, the count of its page's block goes up by one, the block joins the end of the bucket of its new count, and nothing else changes |
| FtlInvariant.LiveCount | vector1/cosmos_app/src/garbage_collection.c:78-94 | In a full block the live pages are exactly those its count does not call stale |
| FtlRuns.InitEstablishesInv | vector1/cosmos_app/src/address_translation.c:216-254 | The device starts exactly if every die has two good blocks, and then the invariant holds and every slice is unmapped |
| FtlRuns.RewritingBreaksTheInvariant | vector1/cosmos_app/src/garbage_collection.c:78-131 | Writing one slice twice on a device of two one-page blocks collects the fully invalid current block and leaves it current and on the free list |
| DieTables.DieTables.GetFromFbList | vector1/cosmos_app/src/address_translation.c:844-882 | Taking a free block respects the reserve and keeps links, flags and counter in agreement with the list |
| DieTables.DieTables.InitBlockMap | vector1/cosmos_app/src/address_translation.c:216-242 | Initialising a die puts its good blocks on the free list in ascending order |
| DieTables.DieTables.FindFreeVirtualSliceForGc | vector1/cosmos_app/src/address_translation.c:715-745 | In place, a page for a copy comes from a block other than the victim, or the same halt as the specification's |
| FtlTables.GarbageCollection | vector1/cosmos_app/src/garbage_collection.c:71-131 | The in-place collection leaves the tables standing for the state the specification promises, or halts where it does, and issues the reads and writes of the live pages and the erase |
| FtlTables.AddrTransWrite | vector1/cosmos_app/src/address_translation.c:651-669 | The in-place write leaves all tables and the logical map standing for the state the specification promises, moves the target to the next die, and issues what making room took |
| IndexLists.IndexLists.Unlink | vector1/cosmos_app/src/garbage_collection.c:184-212 | Removal anywhere in a list whose links are threaded through a table takes exactly that entry out and leaves every other list's links intact |
| IndexLists.IndexLists.PutTail | vector1/cosmos_app/src/garbage_collection.c:134-150 | Insertion appends exactly that entry to its list and leaves every other list's links intact |
| Addressing.PackUnpack | vector1/cosmos_app/src/address_translation.h:93-98 | Unpacking a packed slice address gives back die, block and page |
| Addressing.UnpackPack | vector1/cosmos_app/src/address_translation.h:93-98 | Packing an unpacked slice address gives back the address |
| Addressing.PackedInRange | vector1/cosmos_app/src/address_translation.h:93-98 | A block is on the device exactly if its packed addresses are below the device's number of slices |
| Addressing.ChannelWayRoundTrip | vector1/cosmos_app/src/address_translation.h:101-109 | A die number made of channel and way leads back to both |
| Addressing.DieCursor.FindDieForFreeSliceAllocation | vector1/cosmos_app/src/address_translation.c:748-765 | Successive slices go to the dies in turn |
| Buffer.ChainAgreesWithScan | vector1/cosmos_app/src/data_buffer.c:91-204 | Walking the chain of a slice's hash finds exactly the entry a scan of the whole buffer finds, or none exactly if there is none |
| Buffer.PickIsLeastRecent | vector1/cosmos_app/src/data_buffer.c:245-331 | The allocated entry is the least recently used unpinned clean one, or, only if there is none, the least recently used unpinned one |
| Buffer.AllocationFails | vector1/cosmos_app/src/data_buffer.c:245-331 | Allocation fails exactly if every entry is pinned (or dirty, when a clean one was asked for) |
| Buffer.FirstPassFindsNothing | vector1/cosmos_app/src/data_buffer.c:249-266 | The one-bit block count never lets the first pass find an entry |
| Buffer.HitKeeps | vector1/cosmos_app/src/data_buffer.c:91-145 | A lookup hits exactly if some entry caches the slice; the entry then moves to the front of the recency list, the others keep their order, and nothing else changes |
| Buffer.AllocationKeeps | vector1/cosmos_app/src/data_buffer.c:297-331 | The allocated entry moves to the front of the recency list, where the others keep their order, and leaves its hash chain; no other entry leaves one |
| DataBuffer.DataBuffer.Find | vector1/cosmos_app/src/data_buffer.c:91-145 | The walk over the linked chain returns the scan's answer and never takes 100000 steps |
| DataBuffer.DataBuffer.CheckDataBufHit | vector1/cosmos_app/src/data_buffer.c:91-145 | In place, a hit finds the entry that caches the slice and moves it to the front of the recency list, in which the others keep their order |
| DataBuffer.DataBuffer.AllocateDataBuf | vector1/cosmos_app/src/data_buffer.c:245-331 | The in-place allocation with its three passes does what the specification says to entries, recency list and chains; the allocated entry is the first of the list afterwards and the others keep their order |
| Recency.ListIsByLastUse | vector1/cosmos_app/src/data_buffer.c:91-331 | Over every run of slice requests, flushes and pin changes the recency list is in the order of the last uses of its entries |
| Recency.MissEvictsUnused | vector1/cosmos_app/src/data_buffer.c:245-331 | In every run a miss takes over the unpinned clean entry that has not been used for the longest time, and a dirty one only if no unpinned entry is clean |
| DataBuffer.InitDataBuf | vector1/cosmos_app/src/data_buffer.c:57-89 | The buffer starts clean and unpinned, with a full recency list and empty chains |
| FlashDiscipline.RunsKeepDiscipline | vector1/cosmos_app/src/request_transform.c:329-401 | In every run, whatever is submitted and whenever, each block is programmed at pages 0, 1, 2, ... from an erase on, reads hit programmed pages only, and an erase comes when exactly as many pages are programmed as it was told |
| FlashDiscipline.StepKeeps | vector1/cosmos_app/src/request_transform.c:449-616 | Every step, with no condition on submissions, keeps the page counter of the dependency table equal to the pages the block will have when its die's queue has run |
| FlashDiscipline.InitIsOk | vector1/cosmos_app/src/request_transform.c:65-82 | The protocol starts with counters that are right |
| FlashDiscipline.PassIsDisciplined | vector1/cosmos_app/src/request_transform.c:345-401 | The row-address check lets a request go exactly if it suits the permitted pages and, for an erase, no read of the block waits; the counter of permitted pages follows what goes, the read counter falls by one exactly if a released read goes and rises exactly if a selected read does not, an erase that goes takes the erase flag down and a selected one that does not puts it up |
| RequestSafety.RunsAreFaithful | vector1/cosmos_app/src/request_transform.c:449-616 | In every run of lawful and fresh submissions, whatever the order of completions and releases, every completing request keeps to the flash discipline and finds and leaves the data it was submitted for |
| Freshness.FewSlotsRunFaithfully | vector1/cosmos_app/src/request_transform.c:368-390 | The same with nothing asked of when a request is submitted, if the pool has at most one slot more than a block has pages and only full blocks are erased |
| RequestSafety.StepKeeps | vector1/cosmos_app/src/request_transform.c:449-616 | A step of the protocol, its submission lawful, keeps the invariant exactly if what it submits is fresh |
| RequestSafety.SubmitIsExact | vector1/cosmos_app/src/request_transform.c:368-390 | A lawful request can be submitted without breaking the invariant exactly if it is fresh: no second erase behind a waiting one, and no write the checks would let pass before it |
| Freshness.StaleNeedsWholeBlock | vector1/cosmos_app/src/request_transform.c:368-390 | On every size of pool: when a stale request is submitted, the erase of its block is waiting and every page of the block has a write that has not entered its NAND queue |
| Freshness.FewSlotsAreFresh | vector1/cosmos_app/src/request_transform.c:368-390 | With at most one slot more than a block has pages, and only full blocks erased, every lawful request is fresh |
| RequestSafety.QuietStateIsSubmitted | vector1/cosmos_app/src/request_schedule.c:130-137 | With nothing outstanding, buffer and flash are as if every request had acted when it was submitted, and the dependency table says so |
| Dependencies.OldestOnly | vector1/cosmos_app/src/request_transform.c:320-326 | In every run, of the requests on one buffer entry at most one is with the DMA engine, a NAND queue or a row-blocked queue: the first of the entry's chain |
| RequestSafety.EraseOvertakesNothing | vector1/cosmos_app/src/request_transform.c:377-401 | As long as submissions are lawful and fresh, an erase that may go finds every page submitted before it programmed and no earlier write or read of its block waiting |
| Dependencies.ReadersAreCounted | vector1/cosmos_app/src/request_transform.c:404-445 | In every run the read counter of a block is the number of its reads that wait in the buffer-blocked or row-blocked queue |
| Dependencies.RunsKeepDependencies | vector1/cosmos_app/src/request_transform.c:320-616 | In every run, whatever is submitted and whenever: each chain only grows at its end by submissions and shrinks at its front by completions, the counters are exact, and when an erase enters its NAND queue no read of its block is left waiting |
| Dependencies.StepKeeps | vector1/cosmos_app/src/request_transform.c:449-616 | Every step, with no condition on submissions, keeps chains and counters in order |
| Dependencies.InitIsOk | vector1/cosmos_app/src/request_transform.c:65-82 | The protocol starts with empty chains and counters at zero |
| Dependencies.FaithfulIsOk | vector1/cosmos_app/src/request_transform.c:320-445 | The states in which data are faithful are among those with chains and counters in order |
| Progress.DecidedGoes | vector1/cosmos_app/src/request_transform.c:449-519 | Whatever is submitted: a request that is decided on enters its queue at once exactly if no other precedes it in its chain and it suits the pages its block has once the NAND queue has run, with no read of the block waiting for an erase |
| Progress.CompletedReleases | vector1/cosmos_app/src/request_transform.c:522-582 | The completion of the first request of a chain sends the second, if it is for flash, to its NAND queue exactly if it may go by the same test, and otherwise to the row-blocked queue; a transfer goes to the DMA queue |
| Progress.MetGoes | vector1/cosmos_app/src/request_transform.c:585-616 | A row-blocked request that the release walk meets goes exactly if it may by that test in the state it is met in, and otherwise stays |
| Liveness.WaitingEnds | vector1/cosmos_app/src/request_schedule.c:130-155 | In every run from rest with fresh submissions, the loops that wait for the low-level requests end: of completions, and releases that let something go, there are at most twice as many as slots without a new submission, and as long as anything is outstanding another one is possible |
| Liveness.NeverStuck | vector1/cosmos_app/src/request_transform.c:320-616 | As long as anything is outstanding, a request can complete, or the release that the scheduler makes for a die whose NAND queue is empty lets one go: the oldest request is never blocked, so no requests wait for each other |
| Liveness.StepOrdered | vector1/cosmos_app/src/request_transform.c:320-616 | Every step with a fresh submission keeps the order behind it: whatever waits, for its chain, for a page or for an erase, was submitted after what it waits for |
| Liveness.FewSlotsWaitingEnds | vector1/cosmos_app/src/request_schedule.c:130-155 | The same with nothing asked of submissions but that erases are of full blocks, if the pool has at most one slot more than a block has pages |
| Liveness.DrainedErasesNothing | vector1/cosmos_app/src/request_schedule.c:148-155 | Once nothing is outstanding no erase flag is up, so that the wait of a read for a pending erase ends |
| RequestSafety.CompletionIsFaithful | vector1/cosmos_app/src/request_transform.c:522-582 | A completing request keeps to the flash discipline and finds and leaves the data it was submitted for |
| RequestSafety.InitEstablishesInv | vector1/cosmos_app/src/request_allocation.c:61-109 | The protocol starts in its invariant |
| StaleWrite.StaleWriteIsRead | vector1/cosmos_app/src/request_transform.c:368-375 | From a state in order there is a run in which a lawful write to a block with a waiting erase, let pass by the checks, makes a later read bring back the page from before the erase |
| RequestQueues.RequestQueues.PutTo | vector1/cosmos_app/src/request_allocation.c:112-399 | Putting a slot into a queue keeps links, queue type, per-queue counts and the two sums right |
| RequestQueues.RequestQueues.SelectiveGetFrom | vector1/cosmos_app/src/request_allocation.c:230-377 | Taking a slot out wherever it stands keeps them right |
| RequestQueues.RequestQueues.GetFromSliceReqQ | vector1/cosmos_app/src/request_allocation.c:183-207 | The oldest waiting slice request is handed out, or none exactly if none waits |
| RequestQueues.SlotsConserved | vector1/cosmos_app/src/request_allocation.c:112-426 | The lengths of all queues and the slots in somebody's hand add up to the pool |
| BlockingLinks.BlockingLinks.Pop | vector1/cosmos_app/src/request_transform.c:522-543 | The completing request leaves the front of its buffer entry's chain, its successor becomes the first, and the tail is right |
| RequestPool.RequestPool.UpdateBufEntryInfoBlockingReq | vector1/cosmos_app/src/data_buffer.c:365-393 | The request becomes the last of its buffer entry's chain |
| RequestPool.RequestPool.SelectLowLevelReqQ | vector1/cosmos_app/src/request_transform.c:449-519 | The in-place selection, for a read once no erase of its block waits, does to queues, chains and table what the specification does to the pool |
| RequestPool.RequestPool.ReleaseBlockedByBufDepReq | vector1/cosmos_app/src/request_transform.c:522-582 | The in-place release of a chain does what the specification does |
| RequestPool.RequestPool.ReleaseBlockedByRowAddrDepReq | vector1/cosmos_app/src/request_transform.c:585-616 | The in-place walk over a row-blocked queue releases exactly the slots the specification releases, although the queue changes under it |
| RequestPool.RequestPool.CheckDoneNvmeDmaReq | vector1/cosmos_app/src/request_transform.c:683-715 | The backward walk over the DMA queue completes exactly the slots the specification completes, although completions append to the queue: those whose transfer is done, and those before one of their direction that is |
| RequestPool.RequestPool.GetFromNandReqQ | vector1/cosmos_app/src/request_allocation.c:401-426 | Completing the first request of a die frees its slot and releases whom it blocked, as the specification says |
| RequestPool.RequestPool.CheckRowAddrDep | vector1/cosmos_app/src/request_transform.c:345-401 | The in-place check, after the wait that precedes it for a read, updates the dependency table entry and answers as the specification does |
| RequestPool.InitRequestPool | vector1/cosmos_app/src/request_allocation.c:61-109 | The pool starts as the specification's, all slots free in ascending order |
| RequestPool.InvariantSuffices | vector1/cosmos_app/src/request_transform.c:449-616 | What holds in every run, whatever is submitted, gives these methods what they require of their callers |
| WayLists.Channel.SchedulingNandReqPerCh | vector1/cosmos_app/src/request_schedule.c:165-342 | With the controller's answers as inputs: every idle way with a request leaves the idle list, every way of the report list goes where its answer sends it, and unless the round ends early the first ready way of the check list has its status asked for and goes to the report list, and the first ways of the trigger, erase, write and transfer lists have their requests started and go to the check list (transfers to the report list); ways stay idle or not from then on; the round ends early exactly if as many ways wait as there are, or the controller is busy when asked |
| WayLists.Channel.ExecuteNandReq | vector1/cosmos_app/src/request_schedule.c:912-1004 | An idle die starts its first request and says how it is to be checked; a busy one goes on, turns a finished read into its transfer, starts a failed read over while retries are left, or is done with its first request; other ways keep their state |
| WayLists.Channel.IdlePass | vector1/cosmos_app/src/request_schedule.c:170-194 | Each idle way whose queue is not empty moves to the list its first request calls for; the others stay idle and are counted |
| WayLists.Channel.ReportPass | vector1/cosmos_app/src/request_schedule.c:195-244 | Each way of the report list is judged by its own answer: not ready or still running it stays or goes to be checked again, otherwise its die is idle and the way is listed by what its queue begins with; the ways that stay or become idle are counted |
| WayLists.Channel.CheckPass | vector1/cosmos_app/src/request_schedule.c:249-269 | The first ready way of the check list has its status asked for and goes to the end of the report list, and no other way moves; with none ready nothing changes |
| WayLists.Channel.StartPass | vector1/cosmos_app/src/request_schedule.c:270-341 | The first way of the list, and no other, has its first request started and goes where its status is looked after; the controller is asked only if there was one |
| WayLists.InitReqScheduler | vector1/cosmos_app/src/request_schedule.c:69-113 | Every way starts in the idle list |
| RowAddress.RowAddressesAreInjective | vector1/cosmos_app/src/request_schedule.c:722-767 | After remapping, different pages of good virtual blocks of a die have different row addresses |
| RowAddress.PageOfRow | vector1/cosmos_app/src/request_schedule.c:733-766 | The page of a row address is the one asked for; a virtual page is on the least significant bits of its cells, from which it can be told |
| RowAddress.SameRowIff | vector1/cosmos_app/src/request_schedule.c:722-767 | Two addresses of one kind have the same row exactly if they name the same page of blocks that were led to one physical block |
| RowAddress.GrownBadIsTarget | vector1/cosmos_app/src/request_schedule.c:965-979 | The block computed from a failed request's row address is exactly the physical block the request went to |
| RowAddress.RemappedIsTable | vector1/cosmos_app/src/address_translation.c:100-202 | The table the remapping leaves for a die is the one the addressing results are about |
| RowAddress.TableStaysInUnit | vector1/cosmos_app/src/address_translation.c:100-202 | Remapping keeps every block in its logical unit |
| BadBlocks.RemapIsOptimal | vector1/cosmos_app/src/address_translation.c:100-202 | On the final table, the user blocks of a unit that lead to a bad block are as many as the good reserved blocks cannot cover, which is the number counted as failed; every good user block leads to itself |
| BadBlocks.RemapIsInjective | vector1/cosmos_app/src/address_translation.c:100-202 | User blocks that lead to good blocks lead to different ones inside the unit |
| BadBlocks.RemapBadBlock | vector1/cosmos_app/src/address_translation.c:100-202 | The in-place loops with their moving reserve pointers leave every die's table as specified; a die's count is the number of its user blocks that lead to a bad block, as few as the good reserved blocks allow, and the maximum is right |
| SkipList.SkipList.Insert | vector1/cosmos_app/src/gs/growingsegment.c:50-88 | For every number of levels the coin tosses give, a new key enters the map with a node that was unused, on exactly those levels, and an existing one is found and changes nothing; a new key needs a pool that is not full |
| SkipList.SkipList.Search | vector1/cosmos_app/src/gs/growingsegment.c:90-104 | The search returns the key's node with its data exactly if the key is in the map, except when the word read as the key of NIL equals it and no node of the top level is at or behind it |
| SkipList.SkipList.Remove | vector1/cosmos_app/src/gs/growingsegment.c:106-133 | Removal takes exactly the key out of the map and its node from every level that had it, leaves all other nodes, and gives the node back |
| SkipList.SkipList.Allocate | vector1/cosmos_app/src/gs/growingsegment.c:14-30 | The round search ends at a node not in use whenever the pool is not full |
| SkipList.SkipList.constructor | vector1/cosmos_app/src/gs/growingsegment.c:32-48 | The list starts as the empty map, with sorted, nested, empty levels |
| SkipList.SearchMisses | vector1/cosmos_app/src/gs/growingsegment.c:90-104 | A list with one key on level 0 whose search, with that key read through NIL, fails |
| Commands.ReqTransNvmeToSlice | vector1/cosmos_app/src/request_transform.c:84-164 | The slice requests cover the command's blocks once each and in order, each non-empty and inside one slice, with running start indices |
| Commands.WriteThenRead | vector1/cosmos_app/src/request_transform.c:84-318 | Reading back the blocks of a write command returns its data, whatever the requests of both commands evict and collect, if none collects a fully invalid current block |
| Commands.WriteCommand | vector1/cosmos_app/src/request_transform.c:84-164 | The slice requests of a write command together overwrite exactly the command's blocks with its data |
| Commands.ReadCommand | vector1/cosmos_app/src/request_transform.c:84-164 | The slice requests of a read command together return, for every block ever written, the last value, if none of its requests collects a fully invalid current block |
| Scheduler.AdmitLoop | benchmark/pyvectorssd/impl/scheduler.py:110-136 | Each insert is admitted; each search is admitted exactly if it meets its own deadline and the build, with everything admitted so far and this search, still meets its own; every admitted search, with its checkpoint and resumption, ends by its deadline |
| Scheduler.RejectedForCause | benchmark/pyvectorssd/impl/scheduler.py:123-136 | A search is turned away only if, with checkpoint and resumption, it could not end by its own deadline, costs nothing, or would make the build late |
| Scheduler.RoomIsBudget | benchmark/pyvectorssd/impl/scheduler.py:123-131 | The comparison with the truncated quotient says exactly that one more search keeps the build within its deadline |
| Scheduler.BudgetAtLastAdmission | benchmark/pyvectorssd/impl/scheduler.py:110-136 | At the last admission the build meets its deadline with all inserts before it and all admitted searches |
| Scheduler.NothingLost | benchmark/pyvectorssd/impl/scheduler.py:110-136 | Every insert and search is in exactly one of the two lists, as often as it was asked for |
| Scheduler.AdmittedFirst | benchmark/pyvectorssd/impl/scheduler.py:117-136 | The timely searches are admitted up to the first there is no room for, and none after it |
| Scheduler.PlanMeetsDeadlineIff | benchmark/pyvectorssd/impl/scheduler.py:110-144 | The whole plan meets the deadline exactly if every timely search that fits when it comes also fits with all the inserts of the list, which can be checked beforehand |
| Scheduler.InsertsFitTheSlackIff | benchmark/pyvectorssd/impl/scheduler.py:110-144 | With a search admitted, the whole plan meets the deadline exactly if the inserts after the last admitted one fit into the slack left there |
| Scheduler.NothingAdmittedIff | benchmark/pyvectorssd/impl/scheduler.py:110-144 | With no timely search, or searches that cost nothing, it meets the deadline exactly if the inserts alone do |
| Scheduler.LaterInsertsBreakTheBudget | benchmark/pyvectorssd/impl/scheduler.py:110-144 | One search that just fits and an insert after it: both are admitted and the plan misses the deadline |
| Scheduler.ScheduleSloP | benchmark/pyvectorssd/impl/scheduler.py:93-144 | The schedule is the operations before the build, the build, the admitted operations while it is paused, the rejected searches and the wait; with nothing admitted it fails |

## Left out

- Erase counts, transfer statistics and timers, and the printing of all of them.
- NAND and DMA hardware, ECC words and channel timing: their answers are nondeterministic inputs, in `WayLists` the
  answers of the way controller too.
- Reading, finding, saving and recovering the bad-block table: NAND plumbing; the bad flags are arbitrary.
- The block after a grown bad block is found: only the block it is charged to is computed.
- Requests that opt out of the row-address check (bad-block scan and erase of whole spaces at start-up).
- The completion path for marks of 0xFD and above in the loop over slice requests.
- `EvictDataBufEntryForMemoryCopy`, which nothing in the modelled files calls.
- Liveness.WaitingEnds: that the hardware does complete the requests it has, and that the loops keep asking, is assumed;
  so is that submissions are fresh, where `Liveness.FewSlotsWaitingEnds` does not apply. That a free slot becomes
  available is not stated: slots in the hands of the callers are not followed.
- Ftl.WithRoom: the source does not look at the page counter of a block just taken from the free list; in the states
  the invariant allows it is zero, and the model stops in the others.
- NAND requests that fail for good: they complete too (`request_schedule.c:944-986`), but where data or programmed
  pages are concerned every completed request acts in the model. Only `WayLists` has failing and retried requests;
  `Dependencies` and the modules in place do not depend on what a completed request did.
- RequestSafety.RunsAreFaithful: asks of submissions that they are lawful in submission order and fresh. Lawfulness is
  proved of everything the store submits (`EndToEnd.NextIsLawful`); freshness the firmware does not check, and
  `RequestSafety.StepKeeps` shows that nothing less will do.
- EndToEnd.RunsDeliver: asks for orderly steps, that is fresh submissions and `Calm` steps of the store; freshness is
  not needed where `EndToEnd.FewSlotsDeliver` applies.
- EndToEnd.StepKeeps: of a flush that collects a fully invalid current block it does not say that it ends out of order;
  `BlockStore.FlushCalmIsNecessary` says that some state on its way is.
- BlockStore.RunRefines: steps that collect a fully invalid current block are excluded by `Calm`, which a caller can
  evaluate beforehand; what such a step leaves is outside the invariant. The same goes for the three that follow.
- Device.FlushAllDataBuf: `FlushCalm`, likewise.
- Commands.ReadCommand: `Calm`, likewise.
- Commands.WriteThenRead: `Calm`, likewise.
- RequestPool.RequestPool.SelectLowLevelReqQ: the wait for a pending erase of a read's block comes before the call.
- RequestPool.RequestPool.CheckRowAddrDep: likewise; the wait is the first thing the source does here for a read.
- SkipList.SkipList.Insert: a new key needs a pool that is not full; the source's search for a node would not end.
- Virtual slice addresses are kept unpacked; `Addressing` proves that packing loses nothing.
- Wrap-around of 32-bit block addresses in cutting a command into slices.
- Temporary buffer entries are numbered behind the data entries; the source keeps them in a table of their own.
- The random level of a skip-list node is a parameter; `total_value_size`, which removal never decreases, is left out.
- The policies SP-NP and SP-P and the segment tracker: the search time is a parameter. Times are reals.
- The vector index itself (HNSW), the NVMe driver and the file-system interface, which are not part of this model.
