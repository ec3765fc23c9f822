# Memory accounting, verified

The repository is a set of small programs that allocate memory in every way an operating system
offers and print what the system's counters say about it. Most of it is output. Underneath is a
body of accounting: which process is charged for a page, what a private or a shared mapping means,
which figures are supposed to add up to which totals, and what each demo must give back. This
project models that accounting in Dafny and proves it. The operating system is always an explicit
environment model; nothing here is a claim about a real kernel.

`dafny verify dfyconfig.toml` checks the whole project.

## What is modelled

**The region walk** (`RegionWalk`). `print_memory_info` asks the kernel for one region after the
other, reclassifies copy-on-write regions with one reference as private, and divides the resident
bytes of shared regions by their reference count. The kernel is a fixed snapshot of non-empty
regions in ascending order, and `vm_region_64` answers with the first region ending above the
cursor. Cursor and accumulators are 64-bit words that may wrap. The loops visit every region once
and compute the two sums without wrapping; the second walk, resumed where the first stopped, is
handed nothing. The loop has one flaw, which is exactly characterised: it ends if and only if no
region ends at 2^64, and `EndlessExample` is a map that has one. The same walk appears in
macos/system/activity_monitor_demo.mm, lines 42-105.

**Proportional accounting across processes** (`ProportionalShare`, `PageShares`). The documentation
praises proportional shares because they add up across processes. `ProportionalShare` models
processes that map whole objects and proves that the walks of all processes together report every
resident mapped byte once, less one division remainder per object, in every reachable system. What
fork and attach do to the figures is proved too, and that a child's exit undoes its fork whatever
the rest of the system did in between. `PageShares` charges the pages of the copy-on-write machine
the way the walk does, which is proved by running the walk over each process's pages in address
order, and proves the same after any run that includes copy-on-write itself, and what a write does to
the writer's and the other sharers' charges. A file's page is charged from its mapping on, an anonymous
one from the first store into it, which `FrameHistory` traces over runs.

**Mappings** (`CopyOnWrite`, `MappingSteps`, `MappingEffects`, `FrameHistory`, `OneWayMappings`,
`SharedTouch`). The demos map files and
anonymous memory privately and shared, fork, and write. The lazy machine has frames with stored
reference counts and copies a private page when it is first written while others refer to it. The
eager machine says what that is supposed to mean: a private mapping owns a copy from the start. A run
looks eager after every one of its steps if and only if no step leaks: no write through a shared
mapping changes a frame that some private mapping has not copied yet. The `mmap()` description of
POSIX.1-2017 (System Interfaces) leaves open whether such a mapping sees the change, so the kernel is
a parameter. One that takes a snapshot first never leaks. Another never leaks in a run that maps each
file either privately or shared, as every demo does; `LeakExample` shows a run of five steps that
does both and leaks. A file that no step maps shared keeps its bytes from the moment it appears.
`SharedTouch` runs the demos in which parent and child write one shared mapping on this machine, from
the mmap on, with any other processes active in between: that the parent reads the child's bytes
follows from the mapping and the fork.

**Footprint** (`FootprintLedger`, `ProcessFootprint`). The README of the repository defines the footprint
by internal and compressed anonymous pages: anonymous memory counts once it is dirty, a private file
page once writing has copied it, a shared file page never. `FootprintLedger` has one process with
compression and two counters kept incrementally, and the loop that dirties a mapping.
`ProcessFootprint` has every process of the copy-on-write machine, with fork, copying and exit. In both
the counters are proved equal to a recount after every run. The message printed by
macos/process/file_mapping_dirty_demo.cpp, lines 53-55, says that dirty pages are counted as internal;
README.md lines 233-235 say that those of a shared file mapping are not. No code computes either; the
model follows the README, which is the definition the demo was written to illustrate. For the same
reason it departs from what macos/process/xnu_footprint_demo.cpp prints at line 582, that shared
memory counts as internal only in the first process that maps it: README.md line 231 counts anonymous
memory, private or shared, in the footprint, so `ProcessFootprint` charges every process that maps a
touched anonymous page, whoever mapped it first.

**System totals** (`SystemPages`). Counters kept incrementally over page transitions equal a recount, so
the view by queue and the view by backing agree in every reachable state. The figures are modelled
with their widths: counts are added in 32 bits, then multiplied in 64. Which figures agree then
depends on the overflows of the 32-bit sums alone, and each agreement is stated as a condition on
them, for every snapshot; below 2^32 pages in all there are none, and `PartsDifferExample` is a
snapshot that has one. `test.cc` prints two totals under one label, which differ by the speculative
pages; which of them is the machine's memory depends on whether the free count already contains those
pages. `TotalsDifferExample` is a machine of one page on which they differ.

**Supporting loops.** The stride-4096 toucher (`StrideLoop`, `PageTouch`), the chunked file writer
(`TempFile`), the working-set query and its buffer whose size is computed in 64 bits and stored in 32
(`WorkingSet`), and size formatting over exact rationals (`SizeFormat`). `size_t` loops that advance by
4096 end if and only if the size leaves room for one more stride. Sizes are rounded after their unit
is chosen, so "1024.00 KB" and "1024.00 MB" are printed, for exactly the sizes `Prints1024Iff` lists.

**Cleanup** (`Resources`, `MappingDemos`, `SysVSearch`, `DemoLogs`). A plan lists the calls a demo makes; a failure
schedule says which of them fail. From the two follows a log of what must be acquired and released.
For all plans and all schedules that log leaves nothing behind, releases each resource once, and,
newest first, is properly nested. Each demo's hand-written cleanup is proved to produce the log of
its plan, and so to leave live on return exactly what was live on entry, with one exception: the two
Windows file mapping demos leave their temp file behind if and only if it has been created and then
cannot be opened for filling. `DemoLogs` writes those logs out, event by event. The System V search is
proved to stop at the lexicographically first request the system accepts. The demo then prints the
segment's size in megabytes, which is 0 for every segment the search can find; the line that prints
kilobytes is right.

`Words`, `Sums` and `Division` hold the arithmetic the rest needs.

## Model

| member | source | states |
|---|---|---|
| RegionWalk.Account | macos/process/memory_info.cc:128-141 | a private region, or a copy-on-write one with one reference, adds its private bytes alone; a copy-on-write or shared region with several adds the shared bytes divided by the count, rounded down, alone, whatever private pages it has as well; any other adds nothing |
| RegionWalk.AccountRegions | macos/process/memory_info.cc:108-144 | the first walk is handed every region once, in address order, and both accumulators equal the sums over the region list, unwrapped |
| RegionWalk.ResumeWalk | macos/process/memory_info.cc:155-174 | resumed after k regions, the second walk is handed exactly the remaining ones |
| RegionWalk.PrintMemoryInfo | macos/process/memory_info.cc:111-174 | both walks together are handed each region once, so the second one none |
| RegionWalk.WalkBound | macos/process/memory_info.cc:133-143 | after any number of regions the two accumulators together are at most the cursor |
| RegionWalk.WalkEndsIff | macos/process/memory_info.cc:115-144 | with a 64-bit cursor the loop ends if and only if no region ends at 2^64 |
| RegionWalk.EndlessExample | macos/process/memory_info.cc:115-144 | a valid map of one page on which it never ends |
| RegionWalk.GetProcessSharedMemory | macos/process/memory_info.cc:34-87 | 0 without a task port, otherwise the sizes of all regions not reported private |
| RegionWalk.SharedIsCoverage | macos/process/memory_info.cc:49-81 | on every valid map that sum is the number of addresses that lie in some region not reported private |
| RegionWalk.SharedWithinVirtual | macos/process/memory_info.cc:49-81 | on one snapshot the proportional figure is at most the virtual one, which with the private regions makes the whole mapped size |
| ProportionalShare.WalkIsPerMapping | macos/process/memory_info.cc:107-144 | a process's two figures are one part for each of its mappings, wherever its address space lies |
| ProportionalShare.SharedAddsUp | macos/process/README.md:58-60 | summed over all processes, the shared figure is the resident bytes of every object with several mappers, each less its remainder |
| ProportionalShare.PrivateAddsUp | macos/process/memory_info.cc:129-134 | summed over all processes, the private figure is the resident bytes of the objects with one mapper |
| ProportionalShare.NothingCountedTwice | macos/process/README.md:60 | both sums and the lost remainders are all resident mapped bytes, and each remainder is below its object's reference count |
| ProportionalShare.StepKeepsCounts | README.md:50-54 | map, attach, touch, fork, unmap and exit keep every stored reference count equal to the number of mappings |
| ProportionalShare.RunKeepsCounts | README.md:50-54 | so do all runs from the empty system |
| ProportionalShare.TouchAddsPage | macos/process/xnu_footprint_demo.cpp:488-491 | touching a page of a mapped object that is not full adds exactly one page to what the walks of all processes report and lose to division, and changes nobody's mappings |
| ProportionalShare.MapAddsObject | macos/process/activity_monitor_demo.mm:437-498 | mapping n pages makes a new object of n pages, none resident, whose only mapping is at the end of that process's list |
| ProportionalShare.AttachAddsMapping | macos/process/xnu_footprint_demo.cpp:709-782 | attaching adds one mapping of that object to that process and to no other |
| ProportionalShare.UnmapTakesOut | macos/process/activity_monitor_demo.mm:586-597 | unmapping takes out the one mapping named, the others keep their order |
| ProportionalShare.ProcessesAfter | README.md:53 | a forked child maps what its parent maps, a process that has exited nothing, a new one nothing |
| ProportionalShare.AddressSpaceIsWalkable | macos/process/memory_info.cc:119-143 | the address spaces of these systems meet what the walk demands of the kernel |
| ProportionalShare.AddressSpaceIsContiguous | macos/process/memory_info.cc:119-143 | one region for each mapping, of its object's size, each starting where the one before it ends |
| ProportionalShare.NewMapperChargesNobodyMore | macos/process/README.md:60 | when a mapper is added, no process already there is charged more for what it mapped before |
| ProportionalShare.OnlyRemaindersMove | macos/process/memory_info.cc:135-141 | between systems that map the same objects the reported total changes by division remainders only |
| ProportionalShare.ForkMovesOnlyRemainders | macos/process/memory_info.cc:129-141 | fork is such a change |
| ProportionalShare.ExitUndoesFork | README.md:53 | whatever the rest of the system does between fork and the child's exit, the system ends as if the child had never mapped anything |
| ProportionalShare.ForkReclassifies | macos/process/memory_info.cc:129-141 | memory with one mapper is charged whole as private before fork and half to each side as shared after it |
| ProportionalShare.TouchedIsCharged | macos/process/activity_monitor_demo.mm:38-52 | from the empty system, a process that maps n pages and touches k of them is charged k pages, as private; getProcessSharedMemory says n pages if they were mapped copy-on-write, and 0 otherwise |
| ProportionalShare.ForkedIsShared | macos/process/memory_info.cc:129-141 | after it forks, each side is charged half of those k pages, as shared, and for each getProcessSharedMemory says all n |
| ProportionalShare.ChargedByMappers | macos/process/memory_info.cc:129-141 | in every reachable system an object with one mapper left is charged to it whole as private, and one with several to each in equal parts as shared |
| PageShares.SharesAddUp | macos/process/README.md:58-60 | page by page over the copy-on-write machine, private figures add up to the resident bytes of pages with one mapping and shared figures to those of the others less remainders |
| PageShares.EveryRunSharesAddUp | macos/process/README.md:58-60 | the same after every run of map, fork, write, unmap and exit |
| PageShares.WriteReclassifies | README.md:50-54 | the writer of a page n mappings share is charged a page of its own, the others the old page's resident bytes divided by n - 1, the last of them as private |
| PageShares.AccountProcess | macos/process/memory_info.cc:108-144 | the walk over a process's pages in address order returns its private and its shared figure, the ones SharesAddUp adds up over all processes |
| PageShares.CanBeListed | macos/process/memory_info.cc:111-126 | every process has such a list of its pages |
| PageShares.PagesAreWalkable | macos/process/memory_info.cc:119-143 | those pages meet what the walk demands of the kernel |
| PageShares.FilePageCharged | README.md:237-243 | in every reachable state a page of a file, written or not, is charged whole to its only mapping, as private, and otherwise in equal parts to all of them, as shared |
| PageShares.FirstMapperCharged | README.md:241-243 | so the first process to map a page of a file has it as private, even if it maps it shared |
| PageShares.AnonPageCharged | macos/process/activity_monitor_demo.mm:47-50 | over any run from its mapping on, an anonymous page is charged 0 until the first store into it by any process, and from then on whole to its only mapping or in equal parts |
| CopyOnWrite.StepKeepsInv | README.md:50-54 | every step keeps each frame's stored count equal to its references, leaves none dangling and frees what nobody refers to |
| CopyOnWrite.StepRefines | README.md:50-54 | a step of the copy-on-write machine means the same step under eager copying if and only if it does not store into a frame an uncopied private mapping reads |
| CopyOnWrite.RunRefines | macos/process/activity_monitor_demo.mm:553-584 | a run looks eager after every one of its steps if and only if none of them leaks, and then ends in the state eager copying ends in |
| CopyOnWrite.SnapshotNeverLeaks | macos/process/activity_monitor_demo.mm:653-694 | a kernel that copies private mappings before a shared write never takes such a step |
| CopyOnWrite.EveryRunLooksEager | macos/process/activity_monitor_demo.mm:553-584 | from boot, on every kernel, every mapping reads and every file holds the bytes eager copying gives after every step if and only if nothing leaks |
| CopyOnWrite.LeakIsSeen | macos/process/activity_monitor_demo.mm:653-694 | such a step makes some private mapping read a byte eager copying would not |
| OneWayMappings.OneWayRunLooksEager | macos/process/activity_monitor_demo.mm:553-732 | a run that maps each file one way never leaks, on any kernel, and looks eager after every step |
| MappingEffects.PrivateWriteStaysPrivate | macos/process/activity_monitor_demo.mm:580-584 | a write to a private mapping is seen through that mapping only, and no file changes |
| MappingEffects.SharedWriteReachesAll | macos/process/activity_monitor_demo.mm:682-722 | a write to a shared mapping is seen through every shared mapping of the page and in its file, through a private mapping only if it still reads that page and the kernel takes no snapshots, and in no other page |
| MappingEffects.FileAfterStep | README.md:54 | a step changes a file if and only if it stores through a shared mapping of it |
| MappingEffects.FileKeptByRun | README.md:54 | over any run without such a store the file keeps its bytes, whatever private mappings do |
| MappingEffects.PrivateFileKept | macos/process/activity_monitor_demo.mm:580-584 | on every kernel, a file that no step of a run maps shared keeps its bytes from wherever it appears in the run |
| MappingEffects.ChildReadsParent | README.md:53 | after fork the child maps what the parent maps and reads what the parent reads, page for page |
| MappingSteps.NewFileShows | macos/process/activity_monitor_demo.mm:501-552 | a new file holds its contents, and no mapping or other file changes |
| MappingSteps.SpawnShows | macos/process/activity_monitor_demo.mm:437-498 | a new process maps nothing, and nothing else changes |
| MappingSteps.MapFileShows | macos/process/activity_monitor_demo.mm:553-575 | a file mapped either way reads as the file does, and no other mapping and no file changes |
| MappingSteps.MapAnonShows | macos/process/xnu_footprint_demo.cpp:476-478 | a page mapped anonymously reads 0 in every byte, and no other mapping and no file changes |
| MappingSteps.ForkShows | README.md:53 | the child maps exactly the pages the parent maps, and no other mapping and no file changes |
| MappingSteps.UnmapShows | macos/process/activity_monitor_demo.mm:586-597 | the page unmapped is gone, and no other mapping and no file changes |
| MappingSteps.ExitShows | macos/process/xnu_footprint_demo.cpp:510-518 | all mappings of a process that exits are gone, and no other mapping and no file changes |
| MappingSteps.RefusedIsIgnored | macos/process/activity_monitor_demo.mm:501-575 | a step whose arguments name nothing, or something already there, changes nothing at all |
| FrameHistory.FrameAfterRun | README.md:50-54 | over any run, a frame still in use has been touched if and only if it was before or some step of the run stored into it, and belongs to the files it belonged to |
| FrameHistory.CopiedIffShared | README.md:50-54 | a private write copies the page, to a frame of its own, if and only if another mapping or a file refers to it; otherwise it writes in place |
| ProcessFootprint.PrivateWriteCost | README.md:231-235 | a private write charges its page to its process unless it is charged already, at the first write to anonymous memory and whenever a page is copied, and nothing to others |
| ProcessFootprint.SharedWriteCost | README.md:231-234 | a shared write charges every process its pages of the frame if it is anonymous, none if it is a file's, but for the private ones a snapshot kernel copies first |
| ProcessFootprint.DirtyLoopCost | macos/process/activity_monitor_demo.mm:582-584 | dirtying private mappings adds one page for each distinct page not charged before, repeats included, and nothing to others |
| ProcessFootprint.StepKeepsMeter | README.md:231-235 | every step, fork, copying and exit included, moves every process's footprint to the recount |
| ProcessFootprint.EveryRunIsMetered | README.md:204-206 | in every reachable state the footprint of every process, kept step by step, equals a recount |
| ProcessFootprint.FileNeverCharged | README.md:232-234 | in every reachable state a page of a file is in nobody's footprint, mapped either way |
| ProcessFootprint.AnonChargedIff | README.md:231 | over any run from its mapping on, an anonymous page, private or shared, is in the footprint of every process that maps it if and only if some step of the run stored into it |
| MappingEffects.LeakExample | macos/process/activity_monitor_demo.mm:653-694 | a concrete run that leaks without snapshots and does not with them |
| FootprintLedger.FootprintIsCharged | README.md:204-206 | internal and compressed together count each anonymous or privately copied page once |
| FootprintLedger.FootprintDelta | README.md:231-235 | the footprint grows by one page exactly at the first write to anonymous or private file memory and shrinks by one exactly when such a page is unmapped |
| FootprintLedger.CompressionMovesOnePage | README.md:205-206 | compressing moves one page from internal to compressed, keeps the sum, and the next access restores every page |
| FootprintLedger.SharedFileNeverCharged | README.md:234 | over every run a page of a shared file mapping is never charged |
| FootprintLedger.ChargedIffWritten | README.md:231-235 | over any run from its mapping on that does not unmap it, a page is charged if and only if it is not a shared file's and has been written |
| FootprintLedger.Ledger.Recharge | README.md:204-206 | replacing what is known of one page moves the counters so that they stay equal to the recount |
| FootprintLedger.Ledger.Perform | README.md:194-206 | one operation, counters kept equal to the recount |
| FootprintLedger.Ledger.PerformAll | README.md:204-206 | any run of operations ends with the footprint a recount gives |
| FootprintLedger.Ledger.DirtyMapping | macos/process/file_mapping_dirty_demo.cpp:144-147 | the stride-4096 loop dirties exactly the pages of the mapping, for every page size that is a multiple of 4096 |
| FootprintLedger.DirtyRangeCost | README.md:231-235 | that adds one page for each page first written, and a second pass changes nothing |
| FootprintLedger.DirtyMappingCost | macos/process/file_mapping_dirty_demo.cpp:144-158 | a fresh mapping of n pages costs n pages if private or anonymous and nothing if it is a shared file |
| FootprintLedger.MapAndDirtyCost | macos/process/file_mapping_dirty_demo.cpp:122-147 | mapping n pages costs nothing; writing them all then costs n pages if they are anonymous or of a private file mapping, and nothing if of a shared one |
| FootprintLedger.WritesDirtyRange | macos/process/file_mapping_dirty_demo.cpp:144-147 | writing the pages one after the other leaves what the loop leaves |
| FootprintLedger.PagesHoldSize | macos/process/file_mapping_dirty_demo.cpp:144-147 | the loop dirties just enough pages to hold the size |
| FootprintLedger.ResidentDelta | README.md:237-239 | real memory grows by one page at an access to a page not resident, file pages included, and shrinks by one exactly when one is compressed, dropped or unmapped |
| FootprintLedger.WrittenBackFirst | README.md:194-199 | a dirty page of a shared file is not dropped before it has been written back |
| SystemPages.StepKeepsInv | macos/system/test.cc:26-72 | every page transition keeps every counter equal to the recount |
| SystemPages.FreePageMoves | macos/system/test.cc:26-72 | which counters a fault, read-ahead, wiring and the growing compressor move, from a free page |
| SystemPages.PageablePageMoves | macos/system/test.cc:26-72 | which counters queueing, reclaiming, wiring and marking purgeable move, from a pageable page of any queue and backing |
| SystemPages.KernelPageMoves | macos/system/test.cc:26-72 | which counters unwiring and the shrinking compressor move |
| SystemPages.OtherwiseNothing | macos/system/test.cc:26-72 | a transition that a page in its state does not make changes nothing |
| SystemPages.EveryRunHasTwoViews | macos/system/test.cc:26-72 | in every reachable state active + inactive + speculative equals internal + external, purgeable is at most internal, and the states cover memory |
| SystemPages.GetSystemMemoryMetrics | macos/system/activity_monitor_demo.mm:155-189 | each figure is its sum of counters, in a 32-bit word, times the page size; the zeroed result of a failed query; and the five parts equal the total if and only if the overflows cancel |
| SystemPages.UsedAgreesIff | macos/system/test.cc:26-71 | for every snapshot, used computed from queues equals App + wired + compressed if and only if the gap between the two views is what the 32-bit overflows leave |
| SystemPages.FreePlusUsed | macos/system/test.cc:71-73 | for every snapshot, free plus used is the 32-bit sum of used and cached pages and the free pages |
| SystemPages.TotalsAgreeIff | macos/system/test.cc:118-126 | for every snapshot, exactly when free plus used equals the total by backing, and exactly when it exceeds the total by queue by the speculative pages |
| SystemPages.PressureIsPercent | macos/system/test.cc:75-128 | the returned figure is the whole part of pressure in a hundred of free plus used, exactly when it is at most 100, and that it is whenever the used and cached pages fit 32 bits |
| SystemPages.PressureInPages | macos/system/test.cc:75-128 | the returned figure is the whole part of wired and compressor pages in a hundred of active, inactive, speculative, wired and compressor pages and the free ones, both sums in 32 bits; the page size does not matter |
| SystemPages.FiguresInPages | macos/system/test.cc:26-126 | each printed figure is its sum of counters, in a 32-bit word, times the page size, and free is the cached figure and the free pages |
| SystemPages.NoPressureIff | macos/system/test.cc:73-128 | the percentage divides by zero for exactly the snapshots whose sum and free count are 0 |
| SystemPages.EveryRunAgreesIff | macos/system/test.cc:26-126 | in every reachable state whose counters are 32-bit words, which of the figures agree depends on the overflows alone |
| SystemPages.EveryRunAddsUp | macos/system/test.cc:26-126 | without overflow all of them agree, the five parts included, and of the two printed totals one, the other or both are the machine's memory according to the free count and the speculative pages |
| SystemPages.TotalsDifferExample | macos/system/test.cc:118-126 | on a machine whose only page has been read ahead the two printed totals differ, at every page size |
| SystemPages.PartsDifferExample | macos/system/activity_monitor_demo.mm:155-189 | a snapshot of 32-bit counters whose two views agree, and whose five parts do not make up the total |
| StrideLoop.CursorExact | macos/process/xnu_footprint_demo.cpp:489-491 | below the bound the cursor is the exact multiple of 4096 |
| StrideLoop.LoopEndsIff | macos/process/xnu_footprint_demo.cpp:489-491 | for every word size the loop ends if and only if the size is at most the word less 4096 |
| PageTouch.TouchPages | macos/process/xnu_footprint_demo.cpp:488-491 | writes the byte at every multiple of 4096 below the size, (size + 4095) / 4096 of them, in bounds, and leaves every other byte alone |
| PageTouch.EveryPageTouched | macos/process/xnu_footprint_demo.cpp:488-491 | every page is touched, for every page size that is a multiple of 4096 |
| SharedTouch.TouchIsRead | macos/process/xnu_footprint_demo.cpp:488-491 | a store by one process into an area is read by every process that maps the area shared |
| SharedTouch.BytesInPlace | macos/process/xnu_footprint_demo.cpp:488-491 | byte j of page v of the buffer is byte j of the v-th page mapped, for reads and for stores |
| SharedTouch.ForkSharesArea | macos/process/xnu_footprint_demo.cpp:499-507 | fork gives the child the parent's buffer |
| SharedTouch.ParentSeesChild | macos/process/xnu_footprint_demo.cpp:487-533 | on the copy-on-write machine, under every interleaving of parent, child and any other processes, past waitpid the parent reads the child's byte at every multiple of 4096 and the original elsewhere; if fork failed, its own |
| SharedTouch.NewAreaReadsZero | macos/process/xnu_footprint_demo.cpp:476-478 | mapping n anonymous shared pages where the process has none gives it an area with a new frame for each page, all zero |
| SharedTouch.DemoSeesChild | macos/process/xnu_footprint_demo.cpp:476-533 | the demo from its mmap on, over any machine: past waitpid the parent reads the child's byte at every multiple of 4096 and 0 elsewhere; if fork failed, its own |
| SharedTouch.ChildAdvances | macos/process/xnu_footprint_demo.cpp:510-518 | the child's position counts its turns, whatever anyone else does |
| SharedTouch.ParentWakes | macos/process/xnu_footprint_demo.cpp:519-523 | waitpid returns once the child has had a turn per page and one to exit |
| SharedTouch.ChildLeaves | macos/process/xnu_footprint_demo.cpp:510-518 | after its last store the child exits: it maps nothing any more and the parent's mappings read as they did |
| SharedTouch.OthersRun | macos/process/xnu_footprint_demo.cpp:499-523 | any step that ends or unmaps nothing of either side and stores through no shared mapping of the area takes its turn as it stands |
| Resources.NothingLeaks | macos/process/activity_monitor_demo.mm:501-598 | for every plan and every schedule of failures nothing is released that is not held, and what is live on return is what was live on entry |
| Resources.ReleasedExactlyOnce | macos/process/activity_monitor_demo.mm:601-732 | each resource is acquired at most once and released as often as acquired |
| Resources.ReleasesNest | windows/process/memory_allocation_demo.cpp:158-232 | newest first, releases come in reverse order of acquisition whatever fails |
| MappingDemos.DemoSharedMemory | macos/process/xnu_footprint_demo.cpp:539-627 | under every schedule of failures the POSIX shared memory demo leaves live what was live on entry, releases newest first, and logs what its plan calls for |
| MappingDemos.DemoFileMappedMemory | macos/process/xnu_footprint_demo.cpp:113-158 | the same of the file mapping demo |
| MappingDemos.DirtyFileDemo | macos/process/file_mapping_dirty_demo.cpp:92-170 | the same of the dirty page demo, which returns 0 if all its four calls succeed and 1 otherwise |
| MappingDemos.DemoFileMapping | macos/process/activity_monitor_demo.mm:501-732 | the same of the private and the shared file mapping demos, with the write buffer freed before the mapping is made |
| MappingDemos.DemoRealMemory | macos/process/activity_monitor_demo.mm:437-498 | the mixed memory demo leaves live what was live on entry, releasing oldest first |
| MappingDemos.DemoPageTable | macos/process/xnu_footprint_demo.cpp:251-290 | chunks are allocated up to the first failure and all of them freed, oldest first |
| MappingDemos.DemoMemoryPressure | macos/process/xnu_footprint_demo.cpp:191-248 | the same of the pressure buffers, with the memory to be squeezed freed last; activity_monitor_demo.mm, lines 129-270, has two more of these |
| MappingDemos.DemoAnonymousShared | windows/process/memory_allocation_demo.cpp:90-146 | view and mapping handle, in reverse order on every path, nothing left |
| MappingDemos.DemoFileMapped | windows/process/memory_allocation_demo.cpp:26-320 | the private and the shared demo leave live what was live on entry if and only if the temp file is not created or can be opened for filling; then view, mapping handle, file handle and temp file go in reverse order on every path, and otherwise exactly the temp file stays |
| MappingDemos.FileStaysExample | windows/process/memory_allocation_demo.cpp:32-38 | a schedule of failures under which the temp file stays |
| SysVSearch.RemoveStale | macos/process/xnu_footprint_demo.cpp:651-658 | a segment found before the search is removed |
| SysVSearch.TryFlags | macos/process/xnu_footprint_demo.cpp:681-693 | one size is tried with each set of flags until one is accepted |
| SysVSearch.Search | macos/process/xnu_footprint_demo.cpp:660-694 | makes the requests of the table in order, at most 20, stops at the first that works and reports its size |
| SysVSearch.FirstPairWorks | macos/process/xnu_footprint_demo.cpp:675-694 | whichever pairs of size and flags the system accepts, that is the lexicographically first of them |
| SysVSearch.NonePairWorks | macos/process/xnu_footprint_demo.cpp:697-707 | the search gives up if and only if the system accepts no pair |
| SysVSearch.LargestIsFound | macos/process/xnu_footprint_demo.cpp:673-694 | the segment found is the largest the system accepts with any of the flags |
| SysVSearch.TableIs | macos/process/xnu_footprint_demo.cpp:660-674 | the table: 64 KB down by halves to 4 KB, each with four sets of flags in a fixed order |
| SysVSearch.UseSegment | macos/process/xnu_footprint_demo.cpp:709-782 | the segment is removed after use and also when attaching fails |
| SysVSearch.DemoSysV | macos/process/xnu_footprint_demo.cpp:630-785 | the whole demo with its POSIX fallback leaves live what was live on entry and logs what its plans call for; it prints the size if and only if one of the 20 requests works and the segment can be attached, and the megabytes it prints are always 0 |
| SysVSearch.SysVLeavesNothing | macos/process/xnu_footprint_demo.cpp:696-785 | whatever fails, no segment, attachment, descriptor or name outlives the demo |
| SysVSearch.MegabytesAlwaysZero | macos/process/xnu_footprint_demo.cpp:722-732 | every size in the table divides to 0 MB, though none is empty, and is a whole number of KB |
| DemoLogs.SharedMemoryLog | macos/process/xnu_footprint_demo.cpp:539-627 | the POSIX demo's log, event by event, for each first failure and for none |
| DemoLogs.FileMappedLog | macos/process/xnu_footprint_demo.cpp:113-158 | the same of the file mapping demo |
| DemoLogs.DirtyFileLog | macos/process/file_mapping_dirty_demo.cpp:92-170 | the same of the dirty page demo |
| DemoLogs.FileMappingLog | macos/process/activity_monitor_demo.mm:501-732 | the same of the private and the shared file mapping demos |
| DemoLogs.RealMemoryLog | macos/process/activity_monitor_demo.mm:437-498 | the same of the mixed memory demo |
| DemoLogs.ChunksLog | macos/process/xnu_footprint_demo.cpp:251-290 | k chunks acquired and then released in the same order, where k is how many allocations succeed before the first failure |
| DemoLogs.PressureLog | macos/process/xnu_footprint_demo.cpp:191-248 | the same with the memory to be squeezed acquired first and released last |
| DemoLogs.AnonymousSharedLog | windows/process/memory_allocation_demo.cpp:90-146 | the log of the anonymous shared demo, event by event |
| DemoLogs.FileViewLog | windows/process/memory_allocation_demo.cpp:149-320 | the log of the file mapping demos, event by event, unless the temp file stays |
| DemoLogs.RefusedLog | macos/process/xnu_footprint_demo.cpp:697-707 | when all 20 requests are refused, the log is that of the POSIX demo alone |
| DemoLogs.FoundLog | macos/process/xnu_footprint_demo.cpp:709-782 | when a request works, the segment is attached, detached and removed; if attaching fails it is removed and the POSIX demo's log follows |
| DemoLogs.SysVWholeLog | macos/process/xnu_footprint_demo.cpp:630-785 | the whole System V demo's log, event by event, stale segment included |
| WorkingSet.EntriesThatFit | windows/process/process_memory_monitor.cpp:59-60 | how many entries the second buffer holds, for every working set size, overflow of the DWORD included |
| WorkingSet.RoomToGrowIff | windows/process/process_memory_monitor.cpp:57-60 | the working set may grow by any number of pages up to 101 between the queries if and only if its size is under 0x1FFFFF9A000, and never by 102 |
| WorkingSet.Classify | windows/process/process_memory_monitor.cpp:78-89 | shared and private pages partition the entries |
| WorkingSet.PrintProcessMemoryInfo | windows/process/process_memory_monitor.cpp:37-116 | when it fails, when it estimates, what it reports, the shareable figure being the total less the private one in 64 bits, and that shareable equals shared if and only if the counters and the entries are consistent |
| TempFile.CreateTempFile | windows/process/memory_allocation_demo.cpp:26-50 | exactly the requested number of bytes, each 'F', in (size + 4095) / 4096 chunks of 4096 bytes but for the last, which is not empty |
| SizeFormat.Scale | macos/process/memory_info.cc:18-26 | value times 1024^unit is the size, the value is below 1024 unless the unit is GB and at least 1 unless it is B |
| SizeFormat.ScaledUnique | macos/process/memory_info.cc:19-26 | no other value and unit are like that |
| SizeFormat.FormatMemorySize | windows/process/process_memory_monitor.cpp:21-34 | the text fits the 32-byte buffer for every 64-bit size |
| SizeFormat.TextMeans | macos/process/memory_info.cc:28-29 | the number printed is the value to within half a hundredth |
| SizeFormat.TextOfSize | macos/process/memory_info.cc:18-30 | the text is a whole number, a point, two digits and B, KB, MB or GB according to the number of bytes; below 1024 the number is the bytes and the digits are 00 |
| SizeFormat.TiesGoToEven | macos/process/memory_info.cc:28-29 | of two hundredths equally near the even one is printed |
| SizeFormat.Prints1024Iff | macos/process/memory_info.cc:23-29 | a size is printed as 1024.00 in a unit below GB if and only if it is 1048571 to 1048575 or 1073736582 to 1073741823 bytes |
| SizeFormat.Prints1024Example | macos/process/memory_info.cc:18-31 | 1048575 bytes are printed as 1024.00 KB |

## Left out

- Console output, prompts, sleeping, option parsing and menus.
- Real Mach, POSIX and Win32 calls: their answers are parameters, failure schedules or step systems.
- The snapshot a walk reads is fixed; regions changing between two calls of one walk are not modelled.
- Interleaving finer than one page write of a process, and weak memory ordering.
- SharedTouch.ParentSeesChild: other processes may do anything but store into the area, and neither side unmaps memory of its own meanwhile.
- SharedTouch.DemoSeesChild: the same, and mmap succeeds.
- PageShares.AccountProcess: for processes whose pages lie below the last page of the 64-bit address space, which WalkEndsIff shows the walk needs.
- The child process's own copies of descriptors and mappings after fork, which its exit closes.
- Release calls that fail: the demos ignore or only print such failures.
- createTempFile ignores a failure of GetTempFileNameA and goes on with an undefined name; the model takes that failure to end the demo.
- Demos that acquire one thing and release it at the end, such as demo_internal_memory: their cleanup has no failure path but the first call.
- getProcessSharedMemory calls mach_vm_region_recurse, which descends into submaps by an in and out depth; the model walks one flat list of regions instead.
- iokit, alternate accounting, purgeable and page table terms of the footprint, which no file here computes.
- ProcessFootprint.StepKeepsMeter: fork charges the child as its parent is charged, and compression is left to FootprintLedger.
- Purgeable memory, madvise and the moments at which a kernel compresses or reclaims: only the effect of compressing a page is modelled.
- AlloctePugealeMemory2 and the temp file IncreaseCachedFiles keeps on purpose.
- demo_iokit_mapping, shared_library_demo.cpp and mach_shared_memory_demo.cpp, whose outcome depends on foreign tools or undefined port inheritance.
- large_code_segment.cpp and data_segments_demo.cpp, which are about linker layout.
- IEEE doubles: sizes are formatted and percentages truncated over exact rationals.
- SystemPages.PressureIsPercent: says nothing of snapshots whose sum of pages is 0, where the source divides by zero; NoPressureIff says which those are.
- SystemPages.EveryRunAddsUp: for snapshots whose counters together stay below 2^32; EveryRunAgreesIff has the others.
- CopyOnWrite.StepRefines: pages are 16384 bytes, and a process's access rights to a mapping are not modelled.
- ProportionalShare.StepKeepsCounts: objects are mapped whole and writes do not copy; PageShares has copy-on-write, page by page.
- FootprintLedger.Ledger.DirtyMapping: a write to a page that is not mapped changes nothing instead of ending the process.
- MappingDemos.DemoFileMapping: the two demos differ in one mmap flag and a fork, and are one method with a parameter.
