# Diosix hypervisor: a verified model

Diosix is a small RISC-V hypervisor. This project models the portable part of it that owns memory
and processor time, and proves what that part is for: a heap whose blocks always tile its memory,
RAM that always has exactly one owner, virtual cores that are never lost or duplicated, and capsules
that can only reach their own RAM; where the code falls short of that, exactly when. `dafny verify dfyconfig.toml` checks everything.

## Layout

| file | contents |
|---|---|
| `Base.dfy` | results, options, error codes |
| `HeapSpec.dfy`, `HeapSharing.dfy`, `Heap.dfy` | the per-CPU heap: blocks as a value with atomic steps; an allocation interleaved with frees by other CPUs; the linked headers rewritten in place |
| `HeapSettled.dfy`, `HeapRoom.dfy`, `HeapReport.dfy` | which lists an allocation succeeds on; what failure means; what `consolidate` reports |
| `PhysMem.dfy`, `RegionStore.dfy` | regions and the sorted free list; the list searched and changed in place |
| `VirtMem.dfy` | mappings and address translation |
| `Queues.dfy` | the two-level wait queues, fairness, and the class that holds them |
| `Scheduling.dfy`, `CoreTurns.dfy` | cores, global queues and the two side tables; which of its virtual cores a core gets round to |
| `Capsules.dfy`, `CapsuleTable.dfy` | capsules, services, RAM ownership and teardown; the tables as the code keeps them |
| `Hypervisor.dfy`, `SchedulerRuns.dfy`, `Isolation.dfy` | everything as one state machine; scheduling order and isolation over its runs |
| `BootCapsule.dfy`, `Intrusions.dfy`, `ServiceRaces.dfy` | the steps of `create_boot_capsule`; runs from boot in which isolation fails, or a service or its capsule is lost |
| `Machine.dfy` | context switch, `run_next`, housekeeping and boot as they update shared state |
| `HardwareLock.dfy` | the hardware lock as a protocol of small steps |

Code that changes things in place is a class with loops; each method is proved equal to a function on
values, and the results below are proved about those functions over all their runs. Short-lived
values that the code copies (`Region`, `Mapping`) are datatypes. A lock held across a whole operation
makes that operation one step of `Hypervisor.Step`: `run_next` keeps the global queues locked from
its dequeue to the end of the context switch (`src/hypervisor/scheduler.rs:72-99`). `register` and
`create_and_add_vcore`, which take two locks one after the other, are two steps each, and a heap
allocation is one step per block it visits. `destroy` keeps the capsule table locked while it gives back regions and withdraws services
(`src/hypervisor/capsule.rs:243-249`, with the guard living to the end of the `if let`), but takes the other
locks once per region and service: each of those is a step, and whatever does not need the table, such as
an allocation, a service entry or a switch within a capsule, may come in between.

## What the code does that its comments do not say

- `insert` reports a collision only when the new base lies inside a free region. A region that starts
  below one and runs into it is accepted (`InsertAcceptsOverlap`); `InsertExact` says exactly when the
  list stays sound, and `ExclusiveOwnership` shows that allocation and deallocation stay on that side.
- `run_next` calls `context_switch` and never `run`, so the count that prevents starvation never
  moves. `BoundedWaiting` is the promise kept when `run` is used, and `UnchargedWaiting` says exactly what
  the code gives without it: turns must outnumber high priority arrivals. With nothing waiting globally
  and nothing on a core that it would be a panic to switch to, a normal virtual core waiting there can come to
  run if and only if at most one high priority one is there (`StarvedExactly`, `PanicBlocks`);
  with two, nothing ever leaves that core's normal queue, whatever happens elsewhere (`CrowdedCoreStarves`).
- The housekeeping comment says the global queues must be empty; the code asks for help only if they
  are not. The model follows the code.
- Nothing enforces isolation between switches. Every core's window is its capsule's own region throughout a
  run if and only if each enforcing switch is to a capsule with one region and no capsule is destroyed or
  given a region while a core runs it (`IsolationExactly`). The code allows all three to
  be broken:
  - `destroy` is documented as marking a capsule as dying, but frees its RAM at once. A core still running it
    is left with a window of free RAM (`DeadCapsuleReachesFreeRam`), and a virtual core of it still queued later
    runs in another capsule's RAM (`DeadCapsuleIntrudes`). `DestroyIsolatedExactly` has the exact conditions.
  - A capsule with no region runs in the window of whatever ran before it (`MemorylessCapsuleIntrudes`).
  - A second region makes the next switch to the capsule a panic (`SecondRegionPanics`).
- A virtual core is queued before its capsule is looked up and before it is recorded there, so it may run
  unrecorded, or for a capsule that does not exist (`UnknownCapsuleRuns`).
- Teardown withdraws every service the capsule was allowed, whoever registered it (`DestroySparesOthers`,
  `ServiceLost`).
- `register` checks and enters under two different locks. Services stay sound in a run if and only if each
  entry comes while its check would still pass, or before a teardown has withdrawn the service, or finds the
  service taken (`ServicesSoundExactly`, `OrphanedService`).
- Nothing stops a virtual core ID from being added twice, which makes PCORES ambiguous
  (`PcoresExactly`, `DuplicateIdsConfuse`).
- A core that acquires the hardware lock while it already holds it can end up sharing it
  (`ReentryBreaksExclusion`). The lock is broken open if and only if some core gets as far as deciding on an
  acquisition while an outer one of its own holds (`ForcedExactly`); without that there is mutual exclusion.
- A core interrupted while it holds the OWNER lock that acquires again waits for itself: from then on no
  acquisition on any core moves, and nothing else brings that about (`DeadlockExactly`, `ReentryDeadlocks`).
- An allocation can give up although a block that fits has been freed behind its search
  (`FreedBehindIsMissed`); the blocks it misses are exactly the large enough ones freed during its last round
  (`SharedFailureExactly`).
- It can also give up with enough free memory in one piece, because only neighbours in the list are merged
  (`RoomIsMissed`). It succeeds if and only if some free blocks that follow each other in the list and in memory
  span the request, or the first blocks of the list pile up to it, each next block on top of the pile or each
  next run of blocks just under it (`FoundExactly`); so it fails although there is room exactly when free blocks
  adjacent in memory add up to the request but no such run or pile does (`FailureMissesExactly`).
- `consolidate` is said to report the largest block seen; it reports the largest block it has made
  (`ReportIsLargestMerged`, `ReportMissesWholeHeap`). That is the largest free one if and only if a pair of list
  neighbours or the corner case makes a block and no free block outside the pairs is larger
  (`ReportAsDocumentedExactly`).

## Model

| member | source | states |
|---|---|---|
| HeapSpec.EveryRunTiles | src/hypervisor/heap.rs:107-295 | After every interleaving of allocation steps, consolidation steps and frees by any CPU from `init`, the blocks cover every heap address exactly once, each holds its header, and each ends a multiple of 64 bytes below the heap's end. |
| HeapSpec.StepKeepsInv | src/hypervisor/heap.rs:134-291 | Each atomic change of the list (free, whole-block take, carve, list merge, head merge) keeps tiling, sizes and alignment. |
| HeapSpec.LiveBlocksPersist | src/hypervisor/heap.rs:125-295 | Along every run in which it is not freed, a block in use keeps its address and size, and its payload meets no other block, hence no other header or payload. |
| HeapSpec.StepKeepsLive | src/hypervisor/heap.rs:175-291 | No step but its own free changes a block in use. |
| HeapSpec.ForeignFreeCommutes | src/hypervisor/heap.rs:3-11 | A free by another CPU never disables a step the owner has decided on, and the two commute. |
| HeapSpec.AllocSound | src/hypervisor/heap.rs:155-231 | A successful allocation returns a block whose payload is at least the bytes asked for with less than 128 wasted, apart from everything in use before, all of which is unchanged. |
| HeapSpec.SearchIsRun | src/hypervisor/heap.rs:169-230 | An allocation, with its restarts and consolidations, is a run of the atomic steps and frees nothing. |
| HeapSpec.MergesBounded | src/hypervisor/heap.rs:187-291 | In every run, with frees by other CPUs anywhere in it, every merge takes one block from the list and every carve adds one, so merges are fewer than the blocks there were plus those carved. |
| HeapSharing.RestartsBounded | src/hypervisor/heap.rs:213-226 | Whatever other CPUs free between any two visits of the owner, a search starts over fewer times than the list was long. |
| HeapSharing.SearchEnds | src/hypervisor/heap.rs:169-230 | However frees fall between them, an allocation from a list of n blocks ends within 2n(n+1) visits of its owner. |
| HeapSharing.AloneIsSearch | src/hypervisor/heap.rs:169-295 | Undisturbed, the visits end with exactly the block and the list of the search that the in-place code computes. |
| HeapSharing.EventIsStep | src/hypervisor/heap.rs:169-291 | Every visit and every free is at most one of the atomic steps. |
| HeapSharing.SharedAllocSound | src/hypervisor/heap.rs:3-11 | Under any interleaving with frees the heap stays tiled, a block given has the right size, and every block in use that nobody frees meanwhile is untouched and apart from it. |
| HeapSharing.SharedFailureExactly | src/hypervisor/heap.rs:209-230 | When an interleaved allocation gives up, a listed block fits if and only if it is large enough and another CPU freed it during the last round; one of any mergeable neighbours was freed then too, and the head pair cannot be merged. |
| HeapSharing.FreedBehindIsMissed | src/hypervisor/heap.rs:209-217 | A block large enough that is freed behind the search does not keep it from giving up. |
| HeapSpec.FailureIsHonest | src/hypervisor/heap.rs:209-230 | When allocation gives up, no free block is large enough and no list neighbours, nor the head pair, can still be merged. |
| HeapSettled.FoundExactly | src/hypervisor/heap.rs:169-295 | On any tiled list an allocation succeeds if and only if free list neighbours that follow each other in memory span the request, or the first blocks of the list pile up to it, each next block on top or each next run of neighbours just below. |
| HeapSettled.SearchSettles | src/hypervisor/heap.rs:209-295 | The list given determines, without searching, a settled list: an allocation succeeds if and only if a block of it fits, and one that fails leaves exactly it. |
| HeapRoom.FailureMissesExactly | src/hypervisor/heap.rs:209-295 | An allocation fails although that many bytes in a row are free if and only if, in the list given, free blocks adjacent in memory add up to the request but no run of list neighbours and no pile at the front does. One that succeeds had the room. |
| HeapRoom.RoomIsMissed | src/hypervisor/heap.rs:245-291 | A three-step run from `init` leaves 896 free bytes in a row and an allocation of 896 bytes fails. |
| HeapRoom.SearchAndRoom | src/hypervisor/heap.rs:169-295 | A failed search leaves exactly the same bytes free, and a successful one took bytes that were free. |
| HeapSpec.ConsolidateOutcome | src/hypervisor/heap.rs:215-266 | A consolidation reports 64 bytes or more exactly when it merged something and so shortened the list; otherwise nothing was mergeable. |
| HeapReport.ReportIsReal | src/hypervisor/heap.rs:233-295 | For any list, the size consolidation reports, if not zero, is that of a free block now in the list. |
| HeapReport.ReportIsLargestMerged | src/hypervisor/heap.rs:233-295 | In a tiled heap every block not there before is free and no larger than the report, and if anything is reported one of them has exactly that size. |
| HeapReport.ReportIsLargestMade | src/hypervisor/heap.rs:235-295 | The report is the largest size made from the list given, by the pairs of neighbours a single pass merges or by the corner case on what the pass leaves in front. |
| HeapReport.ReportAsDocumentedExactly | src/hypervisor/heap.rs:233-295 | The report is the size of the largest free block if and only if, in the list given, a pair that the pass merges or the corner case makes a block and no free block outside the pairs is larger than it. |
| HeapReport.ReportMissesWholeHeap | src/hypervisor/heap.rs:233-237 | A heap that is one free block is reported as zero. |
| HeapSpec.BlocksAligned | src/hypervisor/heap.rs:164-205 | Every block except the one at the heap's base starts at the residue of the heap's end modulo 64 and is a multiple of 64 bytes long. |
| HeapSpec.Required | src/hypervisor/heap.rs:164-167 | The block size asked for is the least multiple of 64 above header plus payload. |
| HeapSpec.FirstFit | src/hypervisor/heap.rs:169-175 | The block chosen is the first free one in list order that is large enough. |
| HeapImpl.Heap.Init | src/hypervisor/heap.rs:107-120 | The heap starts as one free block over its whole area. |
| HeapImpl.Heap.Free | src/hypervisor/heap.rs:125-147 | Freeing succeeds exactly for a block in use and changes only that block's state. |
| HeapImpl.Heap.Consolidate | src/hypervisor/heap.rs:235-295 | The in-place pass over linked headers computes the consolidation of the block sequence, leaves a finite acyclic chain, and ends. |
| HeapImpl.Heap.MergeNext | src/hypervisor/heap.rs:245-260 | Unlinking a successor merges exactly one adjacent free pair. |
| HeapImpl.Heap.MergeCorner | src/hypervisor/heap.rs:268-291 | The head is absorbed by the block after it exactly when both are free and the head lies just above. |
| HeapImpl.Heap.TakeWhole | src/hypervisor/heap.rs:177-184 | Taking a whole block changes only its state. |
| HeapImpl.Heap.CarveTop | src/hypervisor/heap.rs:187-205 | Carving shortens the block and links the new block in front of the list, with the heap still valid. |
| HeapImpl.Heap.Serve | src/hypervisor/heap.rs:175-206 | The first fit is taken whole if less than 64 bytes would be left, otherwise its top is carved, as the search on the block sequence says. |
| HeapImpl.Heap.GiveUp | src/hypervisor/heap.rs:213-226 | At the end of the list the search is over exactly when consolidating gained less than 64 bytes; otherwise the list is shorter and the search goes on from it with the same answer. |
| HeapImpl.Heap.AllocBlock | src/hypervisor/heap.rs:169-230 | The search over linked headers ends and gives the first fit after as many consolidations as gain something. |
| HeapImpl.Heap.Alloc | src/hypervisor/heap.rs:155-231 | Zero objects are refused; otherwise the result points just past the header of the block found, or is HeapNoFreeMem. |
| PhysMem.Region.Split | src/hypervisor/physmem.rs:64-75 | The first part has the size asked for, lies wholly below the second, and together they are the region; a cut beyond the end is refused. |
| PhysMem.FirstFit | src/hypervisor/physmem.rs:113-125 | The first region at least as large as required is chosen. |
| PhysMem.InsertExact | src/hypervisor/physmem.rs:128-154 | Insertion is accepted and leaves a sound free list exactly when the region is clear of every free region; it is refused exactly when its base lies in free memory. |
| PhysMem.InsertClear | src/hypervisor/physmem.rs:128-154 | A region clear of the free list is accepted, the list stays sorted and disjoint, and exactly that memory becomes free. |
| PhysMem.InsertAdds | src/hypervisor/physmem.rs:128-154 | An accepted region becomes one more entry unless it is empty, and every other entry stays as it is; a refusal is PhysRegionCollision. |
| PhysMem.InsertAcceptsOverlap | src/hypervisor/physmem.rs:138-148 | A concrete overlapping region that is accepted and corrupts the list. |
| PhysMem.MergeOutcome | src/hypervisor/physmem.rs:157-179 | Merging keeps the same memory free and leaves a strict gap between neighbours. |
| PhysMem.MergeCanonical | src/hypervisor/physmem.rs:157-179 | Two free lists merge to the identical list if and only if they cover the same memory. |
| PhysMem.RoundUp | src/hypervisor/physmem.rs:230-235 | Sizes are rounded up to the next multiple of 64 MB. |
| PhysMem.AllocExactly | src/hypervisor/physmem.rs:228-256 | From any free list, coalesced or not, allocation succeeds if and only if some entry is as large as the rounded size; it takes the bottom of the lowest such entry, leaves what lies above it in its place, and changes no other entry. |
| PhysMem.AllocOutcome | src/hypervisor/physmem.rs:228-256 | Allocation moves exactly the rounded size from free memory to the caller and leaves a sound free list. |
| PhysMem.AllocComplete | src/hypervisor/physmem.rs:228-256 | After coalescing, allocation succeeds exactly when free RAM holds a contiguous run of the rounded size, and returns it at the lowest base of any region large enough. |
| PhysMem.AllocDeallocMerge | src/hypervisor/physmem.rs:228-264 | Allocating, giving back and coalescing equals coalescing alone. |
| PhysMem.RegisterOutcome | src/hypervisor/physmem.rs:196-209 | Registering disjoint sections at boot frees exactly their memory and every insert is accepted. |
| PhysMem.RegisterAdds | src/hypervisor/physmem.rs:199-209 | Each section accepted that is not empty becomes an entry of its own. |
| PhysMem.UpperPartAccepted | src/hypervisor/physmem.rs:240-251 | The part of a free region left over by an allocation is always accepted back into the free list. |
| RegionStore.SortedRegions.constructor | src/hypervisor/physmem.rs:102-108 | The free list starts empty. |
| RegionStore.SortedRegions.Find | src/hypervisor/physmem.rs:113-125 | The first region large enough is removed and returned, or nothing changes. |
| RegionStore.SortedRegions.Insert | src/hypervisor/physmem.rs:128-154 | The scan inserts in base order or reports a collision and changes nothing. |
| RegionStore.SortedRegions.Merge | src/hypervisor/physmem.rs:157-179 | The cursor loop computes the merged list. |
| RegionStore.SortedRegions.Init | src/hypervisor/physmem.rs:183-212 | Every section of every chunk is registered, unless the core count or the RAM is unknown. |
| RegionStore.SortedRegions.AllocRegion | src/hypervisor/physmem.rs:228-256 | The lower part of the first fit is returned and the upper part put back. |
| RegionStore.SortedRegions.DeallocRegion | src/hypervisor/physmem.rs:261-264 | The region is inserted into the free list. |
| Queues.BoundedWaiting | src/hypervisor/scheduler.rs:184-229 | When each dequeued virtual core is passed to `run`, the normal one at position p is handed over within 12(p+1) turns whatever high priority ones arrive. |
| Queues.ChargedFlood | src/hypervisor/scheduler.rs:184-229 | When a high priority virtual core arrives before every turn and turns are charged, exactly every twelfth turn goes to a normal one. |
| Queues.BoundIsTight | src/hypervisor/scheduler.rs:184-229 | For every position p, 12(p+1)-1 turns can pass with only p normal virtual cores handed over. |
| Queues.ArrivalOrder | src/hypervisor/scheduler.rs:199-229 | Each priority class leaves in arrival order, nothing lost. |
| Queues.UnchargedWaiting | src/hypervisor/scheduler.rs:72-96 | As `run_next` uses the queues, the normal virtual core at position p is handed over if and only if at some point the turns taken exceed by p+1 the high priority virtual cores that waited or have arrived. |
| Queues.UnchargedStarvation | src/hypervisor/scheduler.rs:90-96 | As `run_next` uses the queues, a normal virtual core can be passed over any number of times. |
| Queues.ScheduleQueues.constructor | src/hypervisor/scheduler.rs:171-179 | Both queues start empty with no timeslices counted. |
| Queues.ScheduleQueues.Queue | src/hypervisor/scheduler.rs:199-206 | A virtual core joins the back of the queue of its class. |
| Queues.ScheduleQueues.Take | src/hypervisor/scheduler.rs:210-229 | Dequeue: normal first after more than ten high timeslices, otherwise high before normal. |
| Queues.ScheduleQueues.CountTimeslice | src/hypervisor/scheduler.rs:184-192 | The counter is reset by a normal virtual core and increased by a high priority one. |
| Queues.ScheduleQueues.Total | src/hypervisor/scheduler.rs:232-235 | The number of virtual cores waiting in both queues. |
| Scheduling.PassConsistent | src/hypervisor/scheduler.rs:59-118 | A pass of `run_next` on any core keeps every virtual core in as many places as before and keeps both side tables right. |
| Scheduling.AdoptBags | src/hypervisor/scheduler.rs:75-91 | Adopting moves one virtual core from the global queues to the core and loses nothing that was there. |
| Scheduling.ResumeBags | src/hypervisor/pcore.rs:181-234 | Switching to one of its own virtual cores changes what a core runs, not what is on it. |
| Scheduling.PcoresExactly | src/hypervisor/pcore.rs:45-53 | PCORES names the core of every virtual core that has run if and only if no canonical ID is on two cores. |
| Scheduling.UniqueIdsExact | src/hypervisor/pcore.rs:224-230 | With unique canonical IDs, PCORES is exact. |
| Scheduling.DuplicateIdsConfuse | src/hypervisor/capsule.rs:179-188 | The same ID added twice and run on two cores makes PCORES wrong for the first. |
| Scheduling.WhereItIs | src/hypervisor/pcore.rs:45-53 | With unique IDs, a created virtual core is in exactly one place: globally queued until PCORES names a core, and on that core from then on. |
| Scheduling.GlobalDrains | src/hypervisor/scheduler.rs:70-99 | As many passes as there are virtual cores in the global queues, on any guest-capable cores, empty them. |
| CoreTurns.OwnPassesOnly | src/hypervisor/scheduler.rs:93-98 | With nothing waiting globally, what a core runs and queues after any passes depends only on how many of them were its own. |
| CoreTurns.CrowdedOut | src/hypervisor/pcore.rs:206-207 | With two high priority virtual cores on it, a core runs nothing else in any number of its own passes. |
| CoreTurns.GetsItsTurn | src/hypervisor/scheduler.rs:210-229 | With at most one, the normal virtual core at position i is run within 2(i+1) passes. |
| CoreTurns.NormalRunsExactly | src/hypervisor/scheduler.rs:72-99 | Of the scheduler alone, without enforcement: with nothing waiting globally, a normal virtual core waiting on a core can come to run there if and only if at most one high priority one is on that core. |
| Scheduling.FindBusiest | src/hypervisor/scheduler.rs:132-141 | In whatever order the table is walked, the core found has the highest count. |
| Scheduling.BusiestIsBusiest | src/hypervisor/scheduler.rs:127-154 | The core with the highest count really holds the most virtual cores. |
| VirtMem.TranslationsInverse | src/hypervisor/virtmem.rs:41-85 | The two address translations are inverse, are defined on exactly the region, and are the identity for an identity mapping, which needs a region. |
| VirtMem.TranslationKeepsDistance | src/hypervisor/virtmem.rs:53-67 | Translation keeps distances and takes the base of the region to the virtual base. |
| Capsules.CreateOutcome | src/hypervisor/capsule.rs:195-235 | The ID given is the first unused one in cyclic order after the last, an empty capsule is added under it and nothing else changes; exhaustion is reported exactly when every ID is in use, and only resets the counter. |
| Capsules.ExhaustedExactly | src/hypervisor/capsule.rs:199-234 | The cyclic search fails exactly when every ID is in use, for any word size. |
| Capsules.DestroyExact | src/hypervisor/capsule.rs:243-254 | Destroying removes that capsule and the services it was allowed and leaves every other capsule and service as it was; an unknown ID is CapsuleBadID and changes nothing. |
| Capsules.DestroyConserves | src/hypervisor/capsule.rs:120-141 | Teardown returns exactly the capsule's RAM to the free list and no ignored result is an error. |
| Capsules.GiveBackConserves | src/hypervisor/capsule.rs:126-133 | Each single region a teardown gives back is accepted, and RAM is conserved at every point in between. |
| Capsules.FreePendingConserves | src/hypervisor/physmem.rs:261-264 | Giving back a region that was not mapped is accepted and conserves RAM. |
| Capsules.CoalesceConserves | src/hypervisor/physmem.rs:220-223 | Coalescing conserves RAM. |
| Capsules.ReleaseOutcome | src/hypervisor/capsule.rs:126-133 | Regions apart from each other and from the free list are all accepted back, and exactly their memory becomes free. |
| Capsules.AllocConserves | src/hypervisor/physmem.rs:228-256 | Allocation conserves RAM between the free list and its holders. |
| Capsules.MapMemoryExact | src/hypervisor/capsule.rs:294-305 | Exactly that mapping is added behind those the capsule has, and nothing else changes; an unknown ID is refused. |
| Capsules.AddVcoreExact | src/hypervisor/capsule.rs:182-187 | Exactly that virtual core ID is recorded in exactly that capsule; an unknown ID is refused. |
| Capsules.MapConserves | src/hypervisor/capsule.rs:294-305 | Mapping a region just allocated hands it to the capsule. |
| Capsules.AllowServiceExact | src/hypervisor/capsule.rs:261-287 | Allowing a service permits that service to that capsule and nothing else. |
| Capsules.RegisterRoundTrip | src/hypervisor/service.rs:50-89 | Registration succeeds exactly for an allowed and vacant service, fails with the cause of the first condition not met, and is undone by deregistration. |
| Capsules.DeregisterExact | src/hypervisor/service.rs:82-89 | Deregistration removes that service and no other, and is ServiceNotFound if there is none. |
| Capsules.EnterServiceExact | src/hypervisor/service.rs:50-77 | Entering a service after the check is sound exactly when the check would still pass or the service is taken. |
| Capsules.RegisterRace | src/hypervisor/service.rs:52-76 | A concrete state and a destroy between check and entry that leaves a service without a capsule. |
| ServiceRaces.OrphanedService | src/hypervisor/service.rs:52-76 | A run from boot, for any service, that ends with it registered to a capsule that no longer exists. |
| Capsules.DestroySparesOthers | src/hypervisor/capsule.rs:135-139 | Other capsules keep their services exactly when none that the dead capsule was allowed is registered to another. |
| Capsules.DestroyCanWithdrawOthers | src/hypervisor/capsule.rs:135-139 | A concrete case in which another capsule loses its service. |
| ServiceRaces.ServiceLost | src/hypervisor/capsule.rs:135-139 | A run from boot, for any service, in which a capsule registers it and loses it when another is destroyed. |
| CapsuleTables.CapsuleTable.constructor | src/hypervisor/capsule.rs:29-39 | No capsule, no service, and IDs counted from zero. |
| CapsuleTables.CapsuleTable.Create | src/hypervisor/capsule.rs:195-235 | The wrap-around loop ends and finds the first unused ID or reports exhaustion. |
| CapsuleTables.CapsuleTable.Destroy | src/hypervisor/capsule.rs:243-254 | A capsule is removed and torn down; an unknown ID is refused. |
| CapsuleTables.CapsuleTable.Drop | src/hypervisor/capsule.rs:120-141 | The two loops give back every region and withdraw every allowed service. |
| CapsuleTables.CapsuleTable.Enforce | src/hypervisor/capsule.rs:315-341 | The loop grants the capsule's one region, grants nothing if it has none, and panics at a second. |
| CapsuleTables.CapsuleTable.MapMemory | src/hypervisor/capsule.rs:294-305 | A mapping is appended to an existing capsule's memory. |
| CapsuleTables.CapsuleTable.AddVcore | src/hypervisor/capsule.rs:182-187 | A virtual core ID is recorded in an existing capsule. |
| CapsuleTables.CapsuleTable.AllowService | src/hypervisor/capsule.rs:261-272 | A service is added to an existing capsule's allowed set. |
| CapsuleTables.CapsuleTable.Register | src/hypervisor/service.rs:50-77 | Unknown capsules, services not allowed and services already taken are refused, in that order. |
| CapsuleTables.CapsuleTable.Deregister | src/hypervisor/service.rs:82-89 | A registered service is removed; an unknown one is refused. |
| Hypervisor.ExclusiveOwnership | src/hypervisor/physmem.rs:196-264 | For disjoint sections registered in any order, in every run from boot, with other steps between those of a teardown, the free list stays sorted and disjoint, each address of RAM is free or held in exactly one place, and no discarded insert result is an error. |
| Hypervisor.TeardownAlone | src/hypervisor/capsule.rs:120-141 | Undisturbed, the steps of a destroy end with the capsule, its RAM and its services removed as if at once. |
| Hypervisor.StepAccepts | src/hypervisor/capsule.rs:126-133 | While RAM is conserved, no insert done by an allocation, a deallocation or a step of a teardown is refused. |
| Hypervisor.AllocStepExactly | src/hypervisor/physmem.rs:228-256 | At any time an allocation succeeds if and only if one free entry is large enough, and takes the bottom of the lowest. |
| Hypervisor.CoalescedAllocExactly | src/hypervisor/physmem.rs:214-256 | In every run from boot, an allocation just after coalescing succeeds if and only if free RAM holds a contiguous run of the rounded size. |
| Hypervisor.UnknownCapsule | src/hypervisor/capsule.rs:179-305 | A step that names a capsule there is none of changes nothing. |
| Hypervisor.MappingTranslates | src/hypervisor/virtmem.rs:41-67 | A region mapped identically is translated to itself, and one not so mapped not at all. |
| Hypervisor.ServiceStepsExact | src/hypervisor/service.rs:50-89 | Allowing, checking, entering and deregistering a service each change that service, for that capsule, and nothing else. |
| Hypervisor.RegisterAlone | src/hypervisor/service.rs:50-77 | Undisturbed, the check and the entry amount to registering at once. |
| Hypervisor.StepServices | src/hypervisor/service.rs:50-89 | From sound services every step, those of a teardown included, keeps them sound, except exactly an entry whose check would no longer pass, for a service neither taken nor still to be withdrawn. |
| Hypervisor.ServicesSoundExactly | src/hypervisor/service.rs:52-76 | With check and entry as separate steps, every registered service names a capsule allowed to provide it that exists or has yet to withdraw it, throughout a run, if and only if each entry comes while its check would still pass, or before that withdrawal, or finds the service taken. |
| Hypervisor.ServicesNeverOrphaned | src/hypervisor/service.rs:50-77 | That holds in every run in which no capsule is destroyed between a check made for it and the entry. |
| Hypervisor.SchedulerConsistent | src/hypervisor/scheduler.rs:59-118 | In every run on any number of cores, the virtual cores queued or running, counted with their places, are exactly those added, WORKLOAD is exact and PCORES names a core holding the ID. |
| SchedulerRuns.GuestsOnlyWhereTheyCanRun | src/hypervisor/scheduler.rs:62-115 | In every run from boot, a core that cannot run guests never has a virtual core queued or running, is never counted in WORKLOAD or named by PCORES, and is never granted a window. |
| SchedulerRuns.AdoptedInOrder | src/hypervisor/scheduler.rs:40-91 | In every run from boot on any number of cores, for each class, the virtual cores adopted from the global queues, in order, followed by those waiting there, are those added, in order. |
| SchedulerRuns.ResumedInOrder | src/hypervisor/pcore.rs:206-207 | In every run from boot, for each core and class, what the core has taken back from its own queues, in order, followed by what waits there, is what its switches have pre-empted, in order. |
| SchedulerRuns.HighPriorityFirst | src/hypervisor/scheduler.rs:72-98 | In every run from boot, a pass takes a normal virtual core from the global queues only if no high priority one waits there, and from the core's own only if none waits there and nothing waits globally. |
| Hypervisor.EachInOnePlace | src/hypervisor/vcore.rs:31-33 | In every run with unique IDs, each virtual core added is in exactly one place, the one PCORES says. |
| Hypervisor.HousekeepingAsksTheBusiest | src/hypervisor/scheduler.rs:129-154 | In every run, the core housekeeping would ask truly has the most virtual cores, and more than one. |
| Hypervisor.StarvedExactly | src/hypervisor/scheduler.rs:59-99 | In every state reached from boot with nothing waiting globally and nothing on the core whose capsule has a second region, passes, with enforcement, can bring a normal virtual core waiting on a core to run there if and only if at most one high priority one is on that core. |
| Hypervisor.PanicBlocks | src/hypervisor/capsule.rs:324-336 | With nothing waiting globally, a core whose next switch panics stays as it is through any passes. |
| Hypervisor.CrowdedCoreStarves | src/hypervisor/scheduler.rs:59-99 | Once two high priority virtual cores are on a core, in every continuation whatever, arrivals and destroys included, nothing leaves its normal queue. |
| Isolation.IsolationExactly | src/hypervisor/pcore.rs:181-234 | In a run from boot every core running a virtual core has exactly its capsule's region as its window in every state if and only if each switch that enforces without panicking is to a capsule with one region and no capsule is destroyed or mapped into while a core runs it; then no window holds free RAM and windows of different capsules share no address. |
| Isolation.StepConfinedExactly | src/hypervisor/capsule.rs:243-341 | When all windows are exact, a step keeps them so if and only if it meets those conditions. |
| Isolation.PassConfinedExactly | src/hypervisor/pcore.rs:198-218 | A pass keeps all windows exact, even when it skips enforcement because the capsule stays the same, if and only if a switch that enforces is to a capsule with one region. |
| Isolation.IsolationTheorem | src/hypervisor/pcore.rs:181-234 | In every disciplined run no pass panics, each core running a virtual core has exactly its capsule's region as its window, no window holds free RAM, and windows of different capsules share no address. |
| Isolation.DisciplineSuffices | src/hypervisor/capsule.rs:144-170 | A disciplined run meets those conditions and leaves everything queued ready to run. |
| Isolation.StepKeepsIsolated | src/hypervisor/capsule.rs:243-305 | Every disciplined step keeps each core confined to its capsule's region. |
| Isolation.NoPanic | src/hypervisor/capsule.rs:324-336 | When everything that may run has one region, enforcement never panics. |
| Isolation.SwitchGrantsExactly | src/hypervisor/capsule.rs:315-341 | A switch to another capsule opens that capsule's own RAM exactly when it has one physical region; otherwise the old window stays. |
| Isolation.SecondRegionPanics | src/hypervisor/capsule.rs:324-336 | Mapping a second region into a capsule makes the window of every core running it inexact and every later enforcing switch to it a panic. |
| Intrusions.MemorylessCapsuleIntrudes | src/hypervisor/capsule.rs:315-341 | For any RAM with room for one allocation, a run from boot ends with a core running a capsule that has no memory in a window that is another capsule's region. |
| Intrusions.IntrusionIsReachable | src/hypervisor/physmem.rs:228-256 | One section of 64 MB has that room. |
| Isolation.DestroyIsolatedExactly | src/hypervisor/capsule.rs:243-254 | After a destroy every core still has exactly its capsule's region as its window if and only if no core was running the capsule, and everything queued or running may still be run if and only if none of it is the capsule's. |
| Isolation.DeadCapsuleRunsInAnothers | src/hypervisor/pcore.rs:198-218 | Once a capsule has been torn down, the next pass that chooses a virtual core of it finds no capsule, does not panic, and runs it in the window of the live one. |
| Intrusions.DeadCapsuleIntrudes | src/hypervisor/capsule.rs:243-254 | For any disjoint RAM with room for two boot capsules, a run from boot ends with a destroyed capsule running in another's region. |
| Isolation.DestroyLeavesOpenWindow | src/hypervisor/irq.rs:61-75 | After a teardown a core still running the capsule keeps a window that is now all free RAM. |
| Intrusions.DeadCapsuleReachesFreeRam | src/hypervisor/irq.rs:61-75 | A run from boot ends with a core running a destroyed capsule in a window that is all free RAM. |
| Intrusions.RoomExists | src/hypervisor/physmem.rs:228-256 | 256 MB is room for two boot capsules. |
| Intrusions.UnknownCapsuleRuns | src/hypervisor/capsule.rs:179-188 | A virtual core added for an ID that no capsule has is queued and run all the same. |
| BootCapsule.BootCapsuleDisciplined | src/hypervisor/capsule.rs:144-170 | Creating the boot capsule is a disciplined run that leaves it ready in 128 MB of its own. |
| Machines.Machine.constructor | src/hypervisor/pcore.rs:85-102 | Every core starts idle with empty queues and an empty mailbox. |
| Machines.Machine.ContextSwitch | src/hypervisor/pcore.rs:181-234 | The running virtual core is queued on its core, the next one runs, PCORES and the window follow, and it panics exactly when enforcement does. |
| Machines.Machine.EnforceOn | src/hypervisor/physmem.rs:51-55 | The core's window is replaced by the region granted, if any. |
| Machines.Machine.RunPass | src/hypervisor/scheduler.rs:66-99 | One pass is exactly the pass of the system model, with WORKLOAD counting adoptions. |
| Machines.Machine.ResumeOwn | src/hypervisor/scheduler.rs:93-98 | With nothing waiting globally, the core's own queues are used. |
| Machines.Machine.Housekeeping | src/hypervisor/scheduler.rs:121-155 | RAM is coalesced, and a core is asked to disown exactly when something waits globally and the largest count is above one; it is one with the largest count. |
| Machines.Machine.RunNext | src/hypervisor/scheduler.rs:59-118 | A core that cannot run guests only does housekeeping, with the whole schedule and all windows unchanged; otherwise one pass is taken, and one that must switch and finds nothing does housekeeping and is not finished. A request is posted only by housekeeping, to the right core. |
| Machines.Machine.CreateAndAddVcore | src/hypervisor/capsule.rs:179-188 | The virtual core is queued globally first and then recorded in its capsule, or reported as having none: exactly the two steps of the system, whose queueing order AdoptedInOrder states. |
| Machines.Machine.CreateBootCapsule | src/hypervisor/capsule.rs:144-170 | Boot succeeds exactly when an ID, RAM and the binary are available, and has then taken the disciplined steps. If it fails no virtual core has been created, the cause is that of the first of the three missing, and what is left is only the counter reset, a capsule without memory, or a capsule with its region mapped. |
| HardwareLock.ForcedExactly | src/hypervisor/hardware.rs:59-93 | In every run the forced release is reached if and only if some core decides on an acquisition while an outer one of its own holds. |
| HardwareLock.MutualExclusion | src/hypervisor/hardware.rs:59-93 | In every run in which no core decides on an acquisition while an outer one of its own holds, at most one core holds the hardware, which is then locked with that core recorded as owner, and nobody is at the forced release. |
| HardwareLock.NotReentrantNeverDecides | src/hypervisor/hardware.rs:21-24 | Runs in which no core starts an acquisition while it holds are among those. |
| HardwareLock.OnlyTheLastAcquirerForces | src/hypervisor/hardware.rs:64-75 | In all runs, a forced release is done only by the core that most recently acquired the lock. |
| HardwareLock.DeadlockExactly | src/hypervisor/hardware.rs:63-92 | In every run OWNER is locked with no acquisition able to move on any core if and only if some core holding OWNER has started another acquisition; then none ever moves again in any continuation. |
| HardwareLock.ReentryDeadlocks | src/hypervisor/hardware.rs:21-24 | A concrete run in which one core does that. |
| HardwareLock.OpenMeansFree | src/hypervisor/hardware.rs:63-64 | While OWNER is open, every acquisition on top that has not finished can move. |
| HardwareLock.AcquireAlone | src/hypervisor/hardware.rs:63-90 | With the lock open, a core that tries undisturbed, once or repeatedly, gets it and becomes the owner. |
| HardwareLock.ReacquireAlone | src/hypervisor/hardware.rs:64-75 | An owner that finds its own lock closed breaks it open and gets it, even when told to try only once. |
| HardwareLock.TryOnceFails | src/hypervisor/hardware.rs:81-88 | A single attempt on a lock another core owns gives up and changes nothing. |
| HardwareLock.NeverGivesUp | src/hypervisor/hardware.rs:59-93 | In all runs an acquisition with LockAttempts::Multiple never returns without the hardware: until it holds it, it is still there and has not failed. |
| HardwareLock.TryAgain | src/hypervisor/hardware.rs:79-90 | With another owner's lock closed, an undisturbed attempt of this kind comes back to its start with everything unchanged. |
| HardwareLock.GetsItInTheEnd | src/hypervisor/hardware.rs:63-90 | Once the holder drops its guard, it gets the lock and becomes the owner. |
| HardwareLock.StepKeepsGuard | src/hypervisor/hardware.rs:63-92 | The OWNER lock is held by one acquisition at a time and never leaked. |
| HardwareLock.ReentryBreaksExclusion | src/hypervisor/hardware.rs:21-24 | A concrete re-entrant run after which two cores hold the hardware. |

## Left out

- Word overflow of addresses, sizes and counters: they are unbounded naturals; wrap-around is modelled for capsule IDs only.
- HeapImpl.Heap.Free: covers pointers just past the header of a block in the list; what the code reads through any other pointer is undefined, and payload bytes and headers of merged blocks are not modelled.
- HVallocator, `dealloc` to another CPU's heap object and the printing of failures (`src/hypervisor/heap.rs:45-74`).
- Machines.Machine.RunNext: is one turn of the `must_switch` loop, which waits without bound for work; repeated turns are repeated steps of the system.
- `create` is one step, although it releases its locks between one attempt at an ID and the next; and a virtual core may be recorded in its capsule at any time, not only after it was queued.
- Hypervisor.RunOn: a panic leaves the model where it was; the half-finished switch is not described.
- The retry loop of `acquire_hardware_lock` is a protocol over steps and not a method, because waiting for another core has no bound; the devices behind the lock are not modelled, nor is the direct lock taken while parsing the device tree.
- Saving and loading of supervisor state, entry points, timers and the timeslice length.
- The platform: `protect` is taken to replace the one window of the calling core, and `validate_ram` to give disjoint sections.
- Message contents, broadcast, service mailboxes and their delivery; housekeeping's request is only put in a mailbox.
- Loading of supervisor binaries (`src/hypervisor/loader.rs`), which is an argument of `CreateBootCapsule`; interrupts, console output, abort handling and start-up code.
- Plain accessors, the auto-restart flag beyond being stored, and removal of virtual core IDs, which nothing calls.
