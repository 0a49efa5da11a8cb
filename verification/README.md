# High-bandwidth flash: a verified model

This project models the high-bandwidth-flash (HBF) device of the simulator and proves properties of it in Dafny 4.11.
One logical cube is an MSHR and write-buffer controller, a page-level flash translation layer (FTL), NAND sub-array state
machines with page registers, per-channel link credit and a logic-die LRU cache. Several cubes sit behind a stack router.
The stand-alone trace replayer, a second scheduler written in Python, is modelled and verified on its own.

The FTL, the controller, the page cache, the cube, the router and the replayer appear twice. A *specification* gives the
state as a value and each operation as a function on it. A *class* holds the same state in fields and updates them in place,
loop by loop; each of its methods is proved to compute the specification's transition. The controller class works on an FTL
object and a page-cache object, the cube on a controller object, the router on distinct cube objects. The theorems are about
runs of the specification, so they hold of these classes. Sub-arrays, channel credit and write coverage have classes of their
own, proved against the same functions; inside the controller class they are values.

`dafny verify dfyconfig.toml` checks everything.

## Layout

| file | content |
|---|---|
| `Basics`, `Geometry`, `Placement` | ordered iteration and sums; configuration, channel and sub-array placement, direct addresses; how pages are spread |
| `Ftl`, `FtlInvariant`, `FtlExact`, `FtlDanger`, `FtlCollect`, `FtlStore`, `FtlHazard`, `FtlDevice` | the FTL: transitions, what both media modes keep, exact bookkeeping in HBF mode, which writes erase live data, when collection runs and which writes it saves, refinement to a plain store, the SSD-mode counterexample, the class |
| `Nand`, `Devices` | sub-array state machine and page registers; classes for sub-array, channel and write coverage |
| `PageCache`, `Recency` | LRU list (module `Lru`): inclusion between sizes, the class with list and index; exactly which pages are kept |
| `Controller`, `ControllerTables`, `ControllerFtl`, `ControllerInvariant`, `ControllerDevice` | the controller: transitions, tables, its contract with the FTL, the invariant over runs, the class |
| `Media`, `MediaInvariant` | NAND discipline and freshness over runs |
| `Timing`, `Delivery`, `Aggregation`, `WriteBuffer` | how long operations take, what deliveries keep back, the read-aggregation window, when buffered writes leave |
| `History`, `Bytes`, `Progress`, `Capacity`, `Limits`, `WriteDrain` | conservation of requests and of bytes, bounded drain, with and without room for the buffered pages, link and occupancy bounds, scheduling order and the write-drain window |
| `Stacks`, `Routing`, `CubeOrder`, `RoutingDevices` | stack address mapping, cube and router, the order in which completions are handed out, the classes |
| `Replay`, `ReplayInvariant`, `ReplayService`, `ReplayLate`, `DeviceReplay` | the trace replayer: transitions, invariants, what is done for each request, a write turned away although complete, the class |

## Where the code differs from what is promised

* **SSD mode can lose acknowledged data.** Garbage collection takes a pool block for relocation without looking at its erase
  state (`hbf/hbf_ftl.cc:510-516`). If that block is dirty it now holds live pages, and the next host write into it is preceded
  by an ERASE. `FtlHazard.SsdLosesData`: on a device of two two-page blocks, write page 0 three times and page 1 once; every
  write is acknowledged and page 0 reads as never written. `FtlDanger.Endangered` says which writes do this, looking only at
  the state before the write. Let the page's sub-array be the one its placement prefers. The write is endangered if and only if
  either the sub-array has an open block, that block is not erased and another live page is in it; or the sub-array has neither
  an open nor a pooled block, collection is due, an idle block of the sub-array has no valid page (it will be pooled dirty), and
  the victim lies in the same sub-array, holds at least one live page but fewer than a block of them, and one of them is not the
  page written. `FtlDanger.EndangeredExactly` proves this exact; `FtlStore.WriteRefines` and `FtlStore.RunExactly` carry it to
  single writes and to runs. No write is ever endangered in HBF mode, without over-provisioning, or with one page per block
  (`FtlStore.HarmlessIsStore`).
* **The last pseudo block is unreadable.** Block number 2^31 - 1 becomes an all-ones block id, which `valid()` takes for "no
  address" (`hbf/hbf_ftl.cc:95-103`), so reading a never-written page there ends the process. `Geometry.PseudoAddressDefined`.
* **The two placement maps differ on one kind of device**: contiguous placement, several channels, fewer bytes than one page.
  `Geometry.MapsAgreeExactly`.
* **The contiguous stack map needs its start-up check**: without a page count divisible by the stacks it is injective only when
  there are fewer pages than stacks. `Stacks.InjectiveExactly`. In range mode an address below the base shares its identity
  with one above it. `Stacks.LogicalInjectiveExactly`.
* **Strict replay turns away a complete page.** The replayer's strict policy is meant for writes that miss bytes of their page
  (`util/hbf/device_replay.py:331-337`). A write whose timer fires while it misses bytes stays in error even if later writes
  complete its page before it can be issued. `ReplayLate.CompletePageRejected` is such a run. Exactly when a COMPLETED row is in
  error is in `ReplayService.Truthful`: under the strict policy, for a write that misses bytes when issued or did when its timer
  fired, and for nothing else.
* The page cache's interface speaks of physical pages; the controller passes logical pages (`hbf/hbf_controller.cc:697`, `hbf/hbf_controller.cc:904`,
  `hbf/hbf_controller.cc:947`). The model follows the code.

## Assumptions

* The MSHR table is enabled. Disabled, a read that forces a flush builds the key of the flushed write.
* The controller may be combined with the FTL off, in HBF mode or in SSD mode for the table, conservation and byte results;
  NAND discipline and freshness need the FTL in HBF mode, and the bounded drain needs it off or in HBF mode.
* Counters of 64 bits do not wrap. Widths that matter are written out: 32-bit block ids with the reserved high bit, the
  saturating drain deadline, the overflow test of the rewritten address.
* `fail_fast`, `exit` and failed assertions are terminal states. The theorems say which of them can be reached.
* Link credit, bandwidth and the wear cost are real numbers.

## Model

| member | source | states |
|---|---|---|
| Geometry.SlicesPartition | hbf/hbf_channel.h:51-54 | section 4.5 of the OCP HBF specification: every sub-array belongs to exactly one channel, remainders included |
| Geometry.MapsAgree | hbf/hbf_ftl.cc:25-84 | the FTL's own copy of the placement names the controller's channel and the controller's sub-array for every page, and that sub-array is owned by the channel |
| Geometry.MapsAgreeExactly | hbf/hbf_controller.cc:203-215 | the two copies agree on all pages if and only if the device is not a contiguous multi-channel one without a whole page |
| Geometry.HighBlockInjective | hbf/hbf_controller.h:53-64 | direct block numbers are distinct for distinct pages and disjoint from every id the FTL allocates |
| Geometry.PseudoAddressDefined | hbf/hbf_ftl.cc:89-104 | a never-written page has an address exactly when it is placed and its block number is below 2^31 - 1, the address lies in its own channel, and the page can be read back off it |
| Geometry.PseudoAddressInjective | hbf/hbf_ftl.cc:89-104 | no two never-written pages share an address: the page can be read back off it |
| Placement.ChannelsAreMost | hbf/hbf_controller.cc:46-55 | as many channels as asked for, but at least one, at most the sub-arrays, and at most 16 unless more are allowed |
| Placement.BlocksHoldCapacity | hbf/hbf_ftl.cc:150-153 | the block limit times the block size is the capacity, no page more or less |
| Placement.InterleavedSpread | hbf/hbf_controller.h:41-51 | interleaved: as many neighbouring pages as there are channels lie on different channels, and the round repeats |
| Placement.ContiguousRegions | hbf/hbf_controller.h:41-51 | contiguous: a page lies on channel c exactly if it is in the c-th of equal regions |
| Placement.ExplicitTable | hbf/hbf_controller.cc:203-211 | explicit: the table decides, and a page without a valid channel is refused |
| Placement.SubarraySpread | hbf/hbf_controller.cc:217-228 | neighbouring local pages of a channel lie on different sub-arrays, as many as the channel has |
| FtlInvariant.TranslateWriteWf | hbf/hbf_ftl.cc:159-225 | both modes: after any write the mapping is injective into the written part of blocks in use, each page in its preferred sub-array; no assertion trips; it fails exactly without a placement, or when the sub-array has no open and no pooled block and, after the collection that is due, still none in the pool while the block count or the block ids are used up |
| FtlInvariant.TranslateReadWf | hbf/hbf_ftl.cc:163-177 | a read keeps the tables and never allocates |
| FtlInvariant.TranslateReadInjective | hbf/hbf_ftl.cc:163-177 | in any well-formed state two different pages, written or not, never translate to the same physical page |
| FtlInvariant.InvalidateWf | hbf/hbf_ftl.cc:230-266 | removing a page keeps the tables, touches no cursor, and never pools a block with a page reserved in it |
| FtlInvariant.GcWf | hbf/hbf_ftl.cc:304-429 | garbage collection, finished or abandoned, keeps the tables, the set of mapped pages and every page's sub-array |
| FtlInvariant.AllocateBlockWf | hbf/hbf_ftl.cc:564-629 | an allocated block is outside the pool, has room and belongs to the sub-array asked for; it is refused exactly when collection leaves none in the pool and the block limit or the block ids are reached |
| FtlInvariant.MarkedWf | hbf/hbf_ftl.cc:643-663 | changing a block's erase state keeps every table |
| FtlExact.TranslateWriteExact | hbf/hbf_ftl.cc:196-224 | HBF mode: reverse index is the exact inverse, valid counts are live counts, every block is free and dirty, active with room or full with a live page; a write changes one mapping, to an unused page; a failed write changes nothing |
| FtlExact.HbfWriteFails | hbf/hbf_ftl.cc:564-612 | HBF mode, judged before the write: it fails exactly without a placement, or with no open block, none in the pool and the block limit or the block ids reached; it then changes nothing but the error flag |
| FtlExact.InvalidateExact | hbf/hbf_ftl.cc:246-263 | an invalidation leaves its block with a live page or retires it dirty, and the bookkeeping stays exact |
| FtlExact.TranslateWriteEffect | hbf/hbf_ftl.cc:186-204 | blocks in use keep their erase state and only advance; the reserved page lies at or beyond the old cursor, in a dirty block if recycled |
| FtlExact.MarkedExact | hbf/hbf_ftl.cc:652-663 | erase-state changes keep the exact bookkeeping |
| FtlExact.UsageIsMapping | hbf/hbf_ftl.cc:668-696 | the valid pages summed over the blocks are exactly the mapped logical pages |
| FtlDanger.RelocateInto | hbf/hbf_ftl.cc:375-401 | a victim that fits the open block moves into it whole, and the block stays open exactly if room is left |
| FtlDanger.GcOutcome | hbf/hbf_ftl.cc:304-429 | collection leaves the sub-array with an open block exactly if its victim came from there and left room; that block then holds what the victim held, and is dirty exactly if a dead block was there to take |
| FtlDanger.EndangeredExactly | hbf/hbf_ftl.cc:186-204 | a write ends in a dirty block with another live page if and only if it is endangered, a condition on the state before the write |
| FtlCollect.DueExactly | hbf/hbf_ftl.cc:284-295 | collection is due exactly in SSD mode when the pooled blocks are fewer than over-provisioning times the blocks |
| FtlCollect.AmplePool | hbf/hbf_ftl.cc:284-295 | when it is not, a write copies and erases nothing, leaves every other page where it is, and fails exactly for want of a block: none open or pooled in its sub-array and the block limit or block ids used up |
| FtlCollect.ScarcePool | hbf/hbf_ftl.cc:320-332 | when it is, a write into a sub-array with an idle block without valid pages goes through |
| FtlCollect.CollectPools | hbf/hbf_ftl.cc:304-429 | collection puts a block in the pool of a sub-array that has none exactly if it finds a dead one there, or its victim lies there and needs no block or may have one created |
| FtlCollect.SsdWriteFails | hbf/hbf_ftl.cc:564-612 | SSD mode: a write fails exactly if its sub-array has no open and no pooled block and either no collection is due and no block may be created, or collection is in vain |
| FtlCollect.VictimReclaimed | hbf/hbf_ftl.cc:403-429 | a victim that was emptied is back in the pool, erased, with all its pages free |
| FtlCollect.RelocationTakesLowest | hbf/hbf_ftl.cc:496-516 | relocation opens the pooled block with the lowest number, however worn |
| FtlCollect.WriteLands | hbf/hbf_ftl.cc:186-204 | without collection a write takes the next page of the open block, else the first page of the least worn pooled block, else of a new one |
| FtlCollect.GreedyVictim | hbf/hbf_ftl.cc:348-357 | without wear levelling the victim is an idle block with the fewest valid pages |
| FtlCollect.WearVictim | hbf/hbf_ftl.cc:334-347 | with it, of two blocks equally full the victim is not the more worn one, of two no more worn than the average not the fuller one |
| FtlCollect.AverageLiesBetween | hbf/hbf_ftl.cc:313-318 | the average lies between the least and the greatest erase count, and is positive once a block is worn |
| FtlCollect.WritesCountNoWear | hbf/hbf_ftl.cc:643-663 | host writes, collection included, and invalidations leave every erase count as it was |
| FtlStore.GcCarries | hbf/hbf_ftl.cc:361-413 | over physical contents, collection never changes what a logical page reads, even when abandoned half-way |
| FtlStore.TranslateWriteCarries | hbf/hbf_ftl.cc:159-225 | after translation every other page reads its data; if the write failed, so does its own page |
| FtlStore.EraseProgramStores | hbf/hbf_controller.cc:909-927 | erase-before-write keeps all data if and only if no other live page shares the block |
| FtlStore.WriteRefines | hbf/hbf_ftl.cc:213-224 | a failed write preserves every page; a completed one updates exactly its page and keeps the others, if and only if it was not endangered beforehand |
| FtlStore.RunRefines | hbf/hbf_ftl.cc:159-266 | both modes: if no write is endangered in the state it meets, all answers are a plain logical store's |
| FtlStore.RunExactly | hbf/hbf_ftl.cc:159-429 | both modes: throughout a run every page reads what was last acknowledged for it, if and only if no write of the run is endangered in the state it meets |
| FtlStore.HbfNeverEndangered | hbf/hbf_ftl.cc:242-254 | in HBF mode no write of any run is endangered |
| FtlStore.HbfDeviceIsStore | hbf/hbf_ftl.cc:159-266 | HBF mode: every run from empty is answered like a plain logical store whose writes may fail |
| FtlStore.HarmlessIsStore | hbf/hbf_ftl.cc:284-295 | in HBF mode, without over-provisioning, or with one page per block, every run from empty reads and answers like a plain logical store |
| FtlStore.HbfReachesExact | hbf/hbf_ftl.cc:284-295 | HBF mode: the exact bookkeeping holds after every run from empty |
| FtlStore.ReachableApart | hbf/hbf_ftl.cc:159-225 | both modes: in every state reached from empty, two different pages never translate to the same physical page |
| FtlHazard.LostPage | hbf/hbf_ftl.cc:496-538 | a concrete SSD-mode run of host requests: four acknowledged writes, after which page 0 reads as never written |
| FtlHazard.SsdLosesData | hbf/hbf_ftl.cc:510-516 | no logical store gives those answers |
| FtlDevice.Device.FindFree | hbf/hbf_ftl.cc:567-581 | the loop finds the preferred pool block: least worn under wear levelling, then lowest; none exactly when there is none |
| FtlDevice.Device.Average | hbf/hbf_ftl.cc:313-318 | the loop computes the mean erase count |
| FtlDevice.Device.ScanBlocks | hbf/hbf_ftl.cc:320-359 | one pass pools the dead blocks and finds a cheapest eligible victim, wear-aware or greedy |
| FtlDevice.Device.MovePages | hbf/hbf_ftl.cc:368-401 | relocation of the listed pages, stopping at the first failed allocation |
| FtlDevice.Device.AllocateForGc | hbf/hbf_ftl.cc:487-557 | relocation's own allocation path, without recursion |
| FtlDevice.Device.Collect | hbf/hbf_ftl.cc:304-429 | in-place garbage collection is the specified transition |
| FtlDevice.Device.Allocate | hbf/hbf_ftl.cc:564-629 | in-place block allocation, with the collection it may trigger |
| FtlDevice.Device.Translate | hbf/hbf_ftl.cc:159-225 | in-place translation returns and leaves exactly what the specification says |
| FtlDevice.Device.Invalidate | hbf/hbf_ftl.cc:230-266 | in-place invalidation, block retirement included |
| FtlDevice.Device.MarkBlockErasing | hbf/hbf_ftl.cc:643-650 | clears the erase state of a known block; an unknown one is an assertion failure |
| FtlDevice.Device.MarkBlockErased | hbf/hbf_ftl.cc:652-663 | sets it and counts the wear, leaving the cursor alone |
| FtlDevice.Device.ValidPages | hbf/hbf_ftl.cc:688-692 | the loop sums the valid pages of all blocks |
| Nand.ServedIsStored | hbf/hbf_subarray.cc:53-72 | with coherent registers a register hit serves what the cells hold |
| Nand.ReadCoherent | hbf/hbf_subarray.cc:70-82 | loading a register from the cells keeps them coherent |
| Nand.ProgramCoherent | hbf/hbf_subarray.cc:87-102 | programming keeps them coherent because the page was not programmed since the block's ERASE |
| Nand.EraseCoherent | hbf/hbf_subarray.cc:108-119 | erasing drops exactly the registers of the block |
| Devices.Subarray.StartRead | hbf/hbf_subarray.cc:48-85 | the register search and round-robin load on the array of registers |
| Devices.Subarray.StartProgram | hbf/hbf_subarray.cc:87-106 | in-place PROGRAM start |
| Devices.Subarray.StartErase | hbf/hbf_subarray.cc:108-123 | the loop that invalidates the block's registers |
| Devices.Subarray.Cycle | hbf/hbf_subarray.cc:125-135 | the timer and the return to idle |
| Timing.ReadTakes | hbf/hbf_subarray.cc:48-85 | after a read starts the sub-array is busy after n ticks exactly if n < max(T, 1), T being tBUFF if a valid register held the page and the registers are on, else tR |
| Timing.ProgramTakes | hbf/hbf_subarray.cc:87-106 | the same for PROGRAM and tPROG |
| Timing.EraseTakes | hbf/hbf_subarray.cc:108-123 | the same for ERASE and tBERS |
| Timing.Registers | hbf/hbf_subarray.cc:74-82 | the registers hold the most recent loads, as many as there are registers |
| Timing.EraseRegisters | hbf/hbf_subarray.cc:114-119 | an ERASE empties the registers of its block and no other |
| Timing.CycleIssues | hbf/hbf_controller.cc:883-978 | an entry issued by a cycle erases exactly if it is a write into a dirty block, stays off the media exactly if it is a read of a cached page, and is busy for the time of what it does |
| Timing.ServiceTime | hbf/hbf_controller.cc:641-682 | over any calls after its issue: delivery (after an ERASE, the re-queueing) begins in the cycle that follows by the time of the operation or of a cache hit, and never earlier |
| Devices.Channel.TryConsumeCredit | hbf/hbf_channel.h:66-70 | credit is consumed exactly when it covers the transfer and never becomes negative |
| Devices.Channel.ReplenishCredit | hbf/hbf_channel.h:71-74 | one tick of bandwidth, capped at one bucket |
| ControllerDevice.Device.Send | hbf/hbf_controller.cc:702-734 | the per-request delivery loop: leading requests leave in order, up to the limit or the first one the credit does not cover, and the bytes are counted |
| Devices.WriteCoverage.Add | hbf/hbf_controller.h:183-201 | accepted exactly when the range lies in the page; the covered set becomes the union and only new bytes are reported |
| Devices.WriteCoverage.AddMask | hbf/hbf_controller.h:206-225 | the same for a byte mask, refused as a whole before any byte is marked |
| Devices.WriteCoverage.Full | hbf/hbf_controller.h:229-231 | full exactly when every byte of a non-empty page is covered |
| Devices.MaskCoverage | hbf/hbf_controller.cc:263-269 | the masked bytes of the byte loop are the coverage the controller uses |
| Lru.ContentsBounded | hbf/hbf_page_cache.cc:12-64 | after any accesses the list is duplicate-free and within capacity |
| Lru.Inclusion | hbf/hbf_page_cache.cc:12-64 | the list of a k-entry cache is always a prefix of that of a (k+1)-entry cache |
| Lru.HitsMonotone | hbf/hbf_page_cache.cc:12-30 | a larger cache never hits less often on the same accesses |
| Lru.PageCache.Lookup | hbf/hbf_page_cache.cc:12-30 | a hit exactly for a listed page, which moves to the front; list and index stay in step |
| Lru.PageCache.Add | hbf/hbf_page_cache.cc:32-56 | insertion in front, evicting the last page exactly when a new page meets a full list |
| Lru.PageCache.Drop | hbf/hbf_page_cache.cc:58-64 | removal from list and index together |
| Recency.CachedExactly | hbf/hbf_page_cache.cc:12-64 | after any accesses a page is cached if and only if it was touched, not invalidated since, and fewer other pages than the capacity stand touched since |
| Recency.Keeps | hbf/hbf_page_cache.cc:45-55 | a page touched and not invalidated, with fewer than k distinct other pages touched since, is in the k-entry cache |
| Recency.Evicts | hbf/hbf_page_cache.cc:45-50 | with k or more of them, and none invalidated, it is not |
| ControllerFtl.FlushFtl | hbf/hbf_controller.cc:525-541 | the flush's translation lies in the page's channel, so the affinity and placement aborts behind it are unreachable; it fails only when no block can be had for the page, in HBF mode exactly when that holds before the call |
| ControllerFtl.PinsWrite | hbf/hbf_controller.cc:481-490 | because a page has one MSHR entry, a write moves no page another entry has pinned, and no block an entry waits for is lost |
| ControllerFtl.ReadAddress | hbf/hbf_controller.cc:424-435 | a read is translated into its own channel without changing the FTL, or lies beyond the last direct block |
| ControllerFtl.DirectInChannel | hbf/hbf_controller.cc:230-237 | without the FTL a page is addressed in its own channel, exactly if its direct block number is below 2^31 |
| ControllerFtl.EntriesApart | hbf/hbf_controller.cc:424-441 | two entries of different pages never hold the same physical page |
| ControllerInvariant.PushInv | hbf/hbf_controller.cc:301-444 | any push keeps the invariant |
| ControllerInvariant.CycleInv | hbf/hbf_controller.cc:571-819 | any cycle keeps the invariant |
| ControllerInvariant.ReachableInv | hbf/hbf_controller.cc:641-682 | over every run from start-up: each entry is in exactly one of queued, in flight, hit timing, delivering; the queue lists the queued entries once each; busy sub-arrays are the active set, one in-flight entry each, at most the active limit; outstanding writes per channel are its write entries; only the listed aborts are reachable, each with its cause, and none of the assertions or affinity checks |
| ControllerDevice.Device.constructor | hbf/hbf_controller.cc:23-169 | the device starts in the specified empty state |
| ControllerDevice.Device.FlushEntry | hbf/hbf_controller.cc:464-561 | in-place flush of one buffered page, with every deferral and abort |
| ControllerDevice.Device.FlushAll | hbf/hbf_controller.cc:447-457 | the loop over a snapshot of the buffered pages |
| ControllerDevice.Device.BufferWrite | hbf/hbf_controller.cc:317-357 | coalescing, complete pages leaving at once, overflow of the buffer |
| ControllerDevice.Device.AttachRead | hbf/hbf_controller.cc:361-443 | the forced flush, joining an entry, or a new entry |
| ControllerDevice.Device.Push | hbf/hbf_controller.cc:301-444 | in-place push is the specified transition |
| ControllerDevice.Device.ReleaseReads | hbf/hbf_controller.cc:598-616 | the loop releases exactly the reads whose threshold or window is met |
| ControllerDevice.Device.ReplenishAll | hbf/hbf_controller.cc:618-622 | every channel gains a tick of credit |
| ControllerDevice.Device.FindServed | hbf/hbf_controller.cc:646-649 | the search finds the first entry the sub-array serves, none exactly when there is none |
| ControllerDevice.Device.AdvanceActive | hbf/hbf_controller.cc:641-673 | the completion loop over the active sub-arrays |
| ControllerDevice.Device.MatureHits | hbf/hbf_controller.cc:675-682 | exactly the elapsed cache hits start delivery |
| ControllerDevice.Device.DeliverAll | hbf/hbf_controller.cc:687-754 | the loop over the entries: cache fill on the page-cache object, the delivery loop, freed write slots, erased entries |
| ControllerDevice.Device.FillCache | hbf/hbf_controller.cc:696-699 | a page read from the media is inserted into the page cache with its first delivery |
| ControllerDevice.Device.UpdateDrainFields | hbf/hbf_controller.h:140-166 | the write-drain update on its two fields |
| ControllerDevice.Device.UpdateWindow | hbf/hbf_controller.cc:768-785 | the loop that counts pending writes, then the update |
| ControllerDevice.Device.FlushLate | hbf/hbf_controller.cc:787-799 | the loop flushes the pages past their deadline |
| ControllerDevice.Device.PickCandidate | hbf/hbf_controller.h:94-110 | the two passes pick the first candidate of the preferred kind, else the first of any |
| ControllerDevice.Device.StartEntry | hbf/hbf_controller.cc:883-978 | issuing one entry: erase before write, program, cache hit or read |
| ControllerDevice.Device.ScheduleOperations | hbf/hbf_controller.cc:830-980 | the issue loop within the active limit |
| ControllerDevice.Device.DrainIdle | hbf/hbf_controller.cc:804-818 | the idle drain after 100 quiet ticks |
| ControllerDevice.Device.Cycle | hbf/hbf_controller.cc:571-819 | the whole clock tick, in the source's order |
| ControllerDevice.Device.PopReturn | hbf/hbf_controller.cc:985-991 | the oldest completion leaves the return queue |
| MediaInvariant.RunDisciplined | hbf/hbf_controller.cc:900-958 | over every run in HBF mode: no PROGRAM hits a page programmed since its block's ERASE, no ERASE destroys a page still stored there, and no cache hit, register hit or cell read serves anything but the page's last PROGRAM |
| MediaInvariant.StartsAlone | hbf/hbf_controller.cc:895-897 | an ERASE starts only where nothing is in flight, so no read of the block can be under way |
| History.ReachableHistory | hbf/hbf_controller.cc:301-444 | over every run from start-up, per page and kind, what was pushed is, in order, what was completed, then pending, then buffered |
| History.Conserved | hbf/hbf_controller.cc:687-754 | every request is as often popped, returned, pending or buffered as it was pushed |
| History.DrainedReturnsAll | hbf/hbf_controller.cc:998-1002 | an idle device has returned every request exactly once, per page and kind in arrival order |
| History.WorkExactly | hbf/hbf_controller.cc:998-1002 | after any run the device reports work exactly while some request has not been handed back |
| Bytes.ReachableBytes | hbf/hbf_controller.cc:251-279 | over every run from start-up: unique bytes are the covered bytes of programmed, queued and buffered pages, coverage is the union of the accepted ranges, and media bytes are covered bytes plus padding |
| Bytes.DrainedBytes | hbf/hbf_controller.cc:929-936 | after a drain, media bytes are unique bytes plus padding |
| Bytes.PlainCoverage | hbf/hbf_controller.cc:271-277 | without a mask a write is taken exactly if it ends inside its page, and covers exactly its own addresses |
| Bytes.MaskedCoverage | hbf/hbf_controller.cc:263-270 | a mask marks exactly its bytes of the 128-byte window around the address, and is refused exactly if one lies outside the page |
| Bytes.StrictProgramsWhole | hbf/hbf_controller.cc:517-523 | in strict mode, over any run, every PROGRAM writes a whole page and nothing is padded |
| Progress.CycleFalls | hbf/hbf_controller.cc:571-819 | each cycle of an unfinished device does work, or brings it closer, or ends with a buffered page that can get no block or has no direct address |
| Progress.CycleHalts | hbf/hbf_controller.cc:525-548 | while draining a cycle keeps running, or aborts with a page still buffered for which no block can be had, or whose direct block number is 2^31 or more |
| Progress.RunSettles | hbf/hbf_controller.cc:571-819 | from any point of any run with requests of at most 128 bytes, some number of ticks with the queue emptied leaves no work, or such an unplaceable page |
| Capacity.CycleRoom | hbf/hbf_controller.cc:464-561 | with a block left for every buffered page, a cycle keeps running and leaves a block for every page still buffered |
| Capacity.RunDrains | hbf/hbf_controller.cc:998-1002 | from any point of any run with requests of at most 128 bytes and a block left for every buffered page (a direct address, without the FTL), a finite number of ticks leaves no work |
| Delivery.DeliversAllItCan | hbf/hbf_controller.cc:702-734 | after the deliveries of a cycle, an entry still to deliver waits for room in the return queue, or its next request is a read larger than the credit left |
| Delivery.DeliveryFillsCache | hbf/hbf_controller.cc:696-699 | the first delivery of a media read puts its page in front of the cache |
| Delivery.CacheAccesses | hbf/hbf_controller.cc:900-948 | the cache sees a touch for a read of a cached page and for the first delivery of a media read, an invalidation for a write, and nothing else |
| Aggregation.ReachableWindows | hbf/hbf_controller.cc:598-616 | over every run each read entry is inside its window and below the threshold, or let go for a reason |
| Aggregation.IssuedForReason | hbf/hbf_controller.cc:598-616 | a read that can issue has asked for the threshold, waited the window or is not aggregated; one held back has done neither |
| WriteBuffer.FlushExactly | hbf/hbf_controller.cc:464-490 | a flush takes its page out of the buffer unless an entry of the page is in the device or, when not forced, its channel has all the outstanding writes it may have |
| WriteBuffer.LatePagesLeave | hbf/hbf_controller.cc:787-799 | when a cycle comes to issuing, pages past the aggregation timeout have left the buffer, apart from stuck ones, and no other page has |
| WriteBuffer.IdleDrainExactly | hbf/hbf_controller.cc:804-818 | the idle drain acts exactly when nothing is in flight and no page was touched for 100 ticks, and then sends every page on |
| WriteBuffer.PushWriteExactly | hbf/hbf_controller.cc:317-357 | a write that completes its page sends it on, one that brings a new page into a full buffer sends all on, any other only joins the buffer |
| WriteBuffer.WriteTimes | hbf/hbf_controller.cc:320-344 | a buffered page keeps the tick of its first write and has that of its latest; its requests and bytes are those written |
| WriteBuffer.ReadForcesFlush | hbf/hbf_controller.cc:361-384 | a read of a buffered page forces it out whatever the limit, unless an entry of the page is in the device, and follows those writes |
| WriteBuffer.OutstandingWrites | hbf/hbf_controller.cc:475-479 | over any run a channel has at most its limit of outstanding writes plus one for each read pushed |
| Limits.CycleLink | hbf/hbf_channel.h:66-74 | one cycle carries at most what the credit potential allows |
| Limits.CycleCredit | hbf/hbf_channel.h:66-74 | exactly: a tick of bandwidth flows into a bucket of one tick or 128 bytes, and bytes carried flow out |
| Limits.LinkFromStart | hbf/hbf_channel.h:60-74 | from the empty device a channel carries at most the bandwidth of the cycles so far |
| Limits.ActiveBound | hbf/hbf_controller.cc:831-850 | over any run no more sub-arrays are busy at once than the knob says |
| Limits.LinkBound | hbf/hbf_channel.h:60-74 | in any stretch with T cycles a channel carries at most one bucket and T - 1 ticks of bandwidth |
| Limits.OccupancyBound | hbf/hbf_controller.cc:284-291 | if callers respect `full`, page operations stay within the limit over the whole run |
| WriteDrain.CycleTurns | hbf/hbf_controller.cc:768-785 | each cycle moves the window as the update says for the writes it counts, and a read it issues pays what is owed |
| WriteDrain.WindowIsShort | hbf/hbf_controller.h:153-160 | in any run an open window lasts at most max(maxwait, 1) cycles |
| WriteDrain.NoReopening | hbf/hbf_controller.h:137-165 | in any run, between two openings some cycle issued a read or counted fewer writes than the high mark |
| WriteDrain.ReadsFirst | hbf/hbf_controller.cc:841-874 | outside windows no write is picked while a read can issue |
| WriteDrain.WritesFirst | hbf/hbf_controller.cc:841-874 | inside a window no read is picked while a write can issue |
| WriteDrain.PickIsFirst | hbf/hbf_controller.h:94-110 | nothing that could issue is passed over, except entries of the other kind for one of the preferred kind |
| WriteDrain.ScheduleExhausts | hbf/hbf_controller.cc:849-875 | issuing stops only at the active limit, at the budget of issues, or with nothing left that could issue |
| WriteDrain.WindowExactly | hbf/hbf_controller.h:140-166 | a window opens exactly when the mark is reached and no read is owed, closes exactly at its deadline or below the mark, and a read is owed exactly from a deadline until one issues or the mark is missed |
| WriteDrain.CountsQueuedWrites | hbf/hbf_controller.cc:768-785 | what is counted besides buffered pages are the write entries waiting to be issued |
| Stacks.PlaceInverse | hbf/hbf_system.h:85-98 | the stack map has an explicit inverse on all pages, beyond capacity too; in-range pages stay below the per-stack count |
| Stacks.InjectiveExactly | hbf/hbf_system.h:73-83 | it is injective if and only if interleaved, or the stacks divide the pages, or there are fewer pages than stacks |
| Stacks.MapInverse | hbf/hbf_system.h:85-102 | the whole address can be recovered and the local offset never exceeds it |
| Stacks.ControllerSeesLocalPage | hbf/hbf_controller.cc:196-201 | the controller recovers exactly the local page from the rewritten address |
| Stacks.LogicalInjectiveExactly | hbf/hbf_system.h:62-71 | logical identities are unique if and only if everything is routed or the base is zero |
| Routing.CollectOk | hbf/hbf_cube.cc:66-74 | collecting completions keeps the count equal to the queue lengths, within capacity, and loses nothing |
| Routing.CubePopOk | hbf/hbf_cube.cc:81-90 | a pop hands over one waiting completion of its source and leaves the others alone |
| Routing.PushOk | hbf/hbf_system.cc:70-90 | a push ends the process exactly if the rewritten address does not fit 64 bits; otherwise the request enters exactly the stack its address selects and is counted there |
| Routing.RangeFits | hbf/hbf_system.cc:82-85 | in range mode no 64-bit address at or above the base overflows |
| Routing.CycleOk | hbf/hbf_system.cc:92-94 | a tick of all stacks neither gains nor loses a request |
| Routing.PopOk | hbf/hbf_system.cc:105-119 | a completion handed out is the pushed request, address included; none is handed out only when none waits for the source |
| Routing.ReachableSystem | hbf/hbf_system.cc:70-119 | over every run of a new system each request inside is held exactly once, by its stack, and routed minus completed is their number, stack by stack |
| Routing.AddressRestored | hbf/hbf_system.cc:96-103 | in any run a returned request has the address it entered with, and the router's assertions cannot fail |
| Routing.FairService | hbf/hbf_system.cc:105-119 | a stack with a waiting completion is passed over by fewer pops for its source than there are stacks, whatever else happens |
| Routing.IdleSystemIsEmpty | hbf/hbf_system.cc:121-125 | when nothing is busy every routed request has completed |
| CubeOrder.HandedInOrder | hbf/hbf_cube.cc:66-90 | over any run a source is handed its completions in the order the controller finished them, none left out |
| CubeOrder.CollectsAllItCan | hbf/hbf_cube.cc:66-74 | collecting stops only with the return buffer full or nothing more to collect |
| CubeOrder.StackSeesLocalPage | hbf/hbf_system.cc:70-90 | for any number of stacks and both routing modes the controller takes a request for the local page its address is mapped to |
| CubeOrder.ClocksAgree | hbf/hbf_system.cc:92-94 | over any run that keeps going every stack has advanced as often as the system |
| RoutingDevices.CubeDevice.CollectReturns | hbf/hbf_cube.cc:66-74 | the collection loop over the controller object |
| RoutingDevices.CubeDevice.Cycle | hbf/hbf_cube.cc:76-79 | controller tick, then collection |
| RoutingDevices.CubeDevice.PopReturnFor | hbf/hbf_cube.cc:81-90 | the per-source queue loses its head, and vanishes when empty |
| RoutingDevices.Open | hbf/hbf_system.cc:11-51 | start-up refuses exactly unequal or unaligned capacities and placement tables with several stacks |
| RoutingDevices.SystemDevice.Push | hbf/hbf_system.cc:70-90 | in-place routing and rewriting over distinct cube objects |
| RoutingDevices.SystemDevice.Cycle | hbf/hbf_system.cc:92-94 | the loop advances every stack once |
| RoutingDevices.SystemDevice.RestoreAddress | hbf/hbf_system.cc:96-103 | the saved address is put back and forgotten; a missing one is an assertion failure |
| RoutingDevices.SystemDevice.PopReturnFor | hbf/hbf_system.cc:105-119 | the round-robin scan and the service of the stack found |
| RoutingDevices.SystemDevice.Busy | hbf/hbf_system.cc:121-125 | the loop decides whether any stack is busy or an address is still saved |
| ReplayInvariant.IngestOk | util/hbf/device_replay.py:259-280 | taking in a request keeps the queues, timers and accounts |
| ReplayInvariant.ReleaseDueOk | util/hbf/device_replay.py:282-295 | releasing due timers keeps them and uses up each due timer |
| ReplayInvariant.IssueReadyOk | util/hbf/device_replay.py:323-366 | issuing keeps them; states left with nothing in service have a timer pending |
| ReplayInvariant.CompleteDueOk | util/hbf/device_replay.py:368-404 | completing keeps them and uses up each due completion |
| ReplayInvariant.HeadCanIssue | util/hbf/device_replay.py:297-321 | with nothing in service and no timer, some page head can issue |
| ReplayInvariant.AllServed | util/hbf/device_replay.py:410-432 | with no state left every request has one INGRESS and one COMPLETED row, services never overlap on a channel or sub-array, and the active limit held |
| ReplayService.RowsTruthful | util/hbf/device_replay.py:323-404 | every COMPLETED row belongs to a page state that gathered its request; it is in error exactly if strict mode turned away a write that missed bytes when issued or when its timer fired, and then nothing was served; otherwise the one service of the state ends in the cycle of the row; a service lasts tRead plus the transfer of the bytes asked for by then, or tProg plus tErase exactly if the page was programmed before; the media rows are those of the services |
| ReplayService.IssueReadyTold | util/hbf/device_replay.py:323-366 | issuing serves only states with a reason to go: complete, timed out, waited for by a read, enough bytes, or no aggregation; and it stops only at the active limit or with nothing left to issue |
| ReplayService.OldestFirst | util/hbf/device_replay.py:297-321 | the state issued is the oldest of those that can be |
| ReplayService.IngestTails | util/hbf/device_replay.py:276-280 | only the last state of a page may be a write that is not ready: a read behind one lets it go |
| ReplayService.ReleaseDueAll | util/hbf/device_replay.py:282-284 | no due timer is left |
| ReplayService.TransferFits | util/hbf/device_replay.py:358-360 | a transfer takes the fewest whole ticks that carry its bytes |
| ReplayService.AcceptableExactly | util/hbf/device_replay.py:172-228 | taken in is exactly a request in the span, and a write with all its bytes on one page |
| ReplayService.SitesSpread | util/hbf/device_replay.py:172-182 | two pages share channel and sub-array only if they are a whole round apart |
| ReplayLate.CompletePageRejected | util/hbf/device_replay.py:331-343 | a concrete strict run in which a write is turned away with every byte of its page there |
| DeviceReplay.Device.EnqueueState | util/hbf/device_replay.py:230-257 | a new page state joins its queue, ready or with a timer |
| DeviceReplay.Device.TakeIn | util/hbf/device_replay.py:259-280 | in-place ingest; refused exactly for an unacceptable request |
| DeviceReplay.Device.ReleaseTimers | util/hbf/device_replay.py:282-295 | the timer loop |
| DeviceReplay.Device.ChooseState | util/hbf/device_replay.py:297-321 | the scan returns the first schedulable state and keeps the order of the others |
| DeviceReplay.Device.IssueAll | util/hbf/device_replay.py:323-366 | the issue loop |
| DeviceReplay.Device.CompleteAll | util/hbf/device_replay.py:368-404 | the completion loop |
| DeviceReplay.Device.Turn | util/hbf/device_replay.py:421-432 | one loop turn consumes an arrival, timer or completion, leaves nothing that could be issued below the active limit, and the no-progress error cannot be raised |
| DeviceReplay.Device.Run | util/hbf/device_replay.py:406-432 | the replay terminates; it refuses exactly the inputs with a request out of span or a write over a page end; otherwise every request has one INGRESS and one COMPLETED row, services never overlap, the active limit holds, every COMPLETED row is truthful, every service has its length, and the media rows are those of the services |

## Left out

- Statistics, trace files, latency averages and wear or zone-remap counters: output only.
- The collection latency counter (`hbf/hbf_ftl.cc:434-448`): it delays nothing in the source either.
- Reading the explicit placement file: the table is a given finite map.
- MSHR-disabled operation, and SSD-mode collection under in-flight controller entries (discipline, freshness and drain).
- Host read-after-write: a read may join an older read of its page while a newer write is still buffered.
- Simulator types (`mem_fetch`, `fifo_pipeline`, `memory_config`): a request with id, kind, address, size, mask and source; a bounded queue; a record of constants.
- Floating-point rounding in credit, over-provisioning and wear cost.
- Sub-arrays and channels as objects inside the controller: the controller class holds them as values, so aliasing between those small objects is not modelled; their own classes are Devices.Subarray and Devices.Channel.
- RoutingDevices.SystemDevice.PopReturnFor: a cube without a completion is skipped by looking at its queue instead of by an empty pop, which changes nothing.
- DeviceReplay.Device.Run: reading the CSV file and the summary statistics are not modelled; heaps are sets with a least element; request ids are distinct, as the reader enforces.
- Capacity.RunDrains: requests above 128 bytes, the strict write policy and a zero outstanding-write limit can block a drain for ever and are excluded; one free block per buffered page is enough room but not always needed, and what happens without it is Progress.RunSettles.
