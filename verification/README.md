# Verification of the xk kernel

A Dafny model of the parts of the xk teaching kernel and its user programs whose
correctness depends on long runs: the crash-safe log over the buffer cache, copy-on-write
memory with reference counts, the four-level page table, the blocking protocols, files,
the user-level allocator, the shell's parser and the regular-expression matcher.

`dafny verify dfyconfig.toml` checks everything.

How it is laid out, one module per file:

- **Log and cache.** `Blocks` and `CrashLog` say what block writes do to a disk and what
  is left of a transaction after any crash and any number of interrupted recoveries.
  `BufferCache` and `CacheProtocol` describe the cache as a value and as an interleaving
  of processes; `Bio` is the cache with its linked list; `QuietCache` says what one
  process meets when nobody else is using the cache; `FsLog` is the log itself, writing
  through `Bio`.
- **Memory.** `CowMemory` holds frames, counts and page entries as a value; `VmKernel` is
  the kernel's tables, changed in place, against a model in which fork copies every page.
  `PageTable`, `PageHoles` and `PageFree` describe the four-level tree, the order in which
  it is walked and the order in which it is freed; `X86Vm` changes it in place; `VSpace`
  rewrites it from the regions' page entries; `UserPages` shows that `VmKernel`'s map of
  entries is what that table says.
- **User allocator.** `FreeList` has the blocks as a value, `UMalloc` the headers in memory.
- **Protocols.** `SleepWakeup`, `SleepLock`, `Pipe`, `ProcWait` and `Ide` are state machines
  over any number of processes; their theorems hold in every reachable state. `SleepWakeup`
  shows that sleep and wakeup, taken apart into their steps on two locks, behave as if each
  were one step, which is how `Pipe` and `Ide` use them.
- **Files.** `FileData` places a file's bytes, `FileAlloc` gives out extents and `FileWalk`
  follows the kernel's walk over them; `FileStore` reads and writes through that walk.
  `FileLog` commits a write through `FsLog`. `FileCrash` says what a crash in the middle of
  a write leaves on the disk, and `FileRuns` has runs of writes, crashes and reboots.
- **User programs.** `ShellGrammar` says which token lists mean which command; `ShellSyntax`
  and `ShellLex` are the shell's parser and lexer on values, with a printer, and `Shell` is
  the parser as it runs on a line in memory. `Regex` is grep's matcher.
- `Prelude` has the few definitions that several modules share.

Functions and lemmas hold the specifications. Where the kernel updates something in place
there is a class or a method with loops, proved against them.

## What turned out not to hold as promised

In each case the code is modelled as it is, a lemma or contract shows it fail, and the exact
condition under which it holds is proved.

- The log region has room for 39 entries although the log cache has 40 slots
  (`CrashLog.FortyEntriesSpill`).
- Recovery reads a buffer after releasing it. It still holds the log block exactly when the
  next `bread` finds its block cached or another clean buffer to recycle
  (`QuietCache.ReleasedSurvives`).
- A transaction panics with "no buffers" exactly when it writes as many different blocks as
  there are buffers (`FsLog.Log.Transaction`).
- `deallocuvm` never ends when an odd slot of the page-directory-pointer table is present and
  the last entry of its page directory is not, because `PGADDR` ORs its fields
  (`PageHoles.StopsExactly`). The table of a process whose top stack page is present is not
  of that kind (`UserPages.RewriteTable`), so taking it apart ends (`UserPages.BuildAndFree`).
- `malloc` passes a 64-bit size to `sbrk`'s 32-bit argument. The books stay exact for
  requests up to 2^32 - 32 bytes and for no larger one that makes the heap grow
  (`UMalloc.AskedIsNeeded`, `UMalloc.Allocator.Malloc`); of the former, those over 2^31 - 32
  bytes are refused because the size comes out negative (`UMalloc.GrantsExactly`).
- Copy-on-write is not the same as copying at fork for a store to a page of the heap past
  the byte at which the heap ends: the page is there, but the fault handler finds no region
  for the address and kills the process. `VmKernel.Kernel.StoreBeyondBreak` is the run; a
  store to a page that is there is completed exactly when its entry is writable or its byte
  is not past the end of the heap (`VmKernel.Kernel.StoreByte`), and runs whose stores are
  not are those of eager copying (`VmKernel.Kernel.Run`).
- `sbrk` looks at the kernel's address but not at the stack. The regions keep apart exactly
  while the heap ends below the stack (`UserPages.ApartExactly`, `UserPages.SbrkReachesStack`).
- A reader or writer of a pipe that is killed after moving bytes returns without a wakeup.
  Nobody is left asleep for nothing exactly as long as that does not happen to a process
  whose other side sleeps (`Pipe.DieExactly`, `Pipe.KilledWriterStrandsReader`).
- The slot of a pipe end that was closed can be given to another file, and the other side then
  takes the end to be open. A process that has to wait for a closed end goes to sleep exactly
  when that has happened, and then for good (`Pipe.SleepsExactly`, `Pipe.ReaderStranded`,
  `Pipe.ReusedSlotStrandsReader`).
- `readi` and `writei` move correctly from the first extent to the second and from no other.
  A read returns the file's bytes exactly when its range is empty, lies in the first two
  extents, or lies in one later extent and does not start on its first byte; otherwise the
  extent pointer leaves the inode, or some byte is taken from another place of the file
  (`FileStore.Store.Readi`). A file of more than two extents can be written but not read
  through (`FileStore.Store.ReadAll`, `FileStore.Store.WrittenNotRead`).
- `write` takes any number of bytes, but a transaction needs a buffer for every block it
  writes and one more. A write of 30 blocks to a file with a long enough first extent panics
  with the kernel's 30 buffers (`FileStore.ThirtyBlocks`). A write is complete exactly when
  its range is walkable, the file can grow for what is past its capacity, and its blocks,
  counted from the offset and the length, are fewer than the buffers and at most 39
  (`FileStore.Store.Writei`, and through the cache and the log `FileLog.Writei`).
- `appendi` puts each block in an extent of its own. One block past the end is in place
  (`FileStore.TidyPlaced`), every further one is not (`FileStore.SecondBlockAstray`).
- `filewrite` always adds to the size, which is right exactly for a write at the end
  (`FileStore.Store.Filewrite`).
- The bitmap's blocks are taken to be 512 disk blocks apart although each stands for 4096.
  From free bitmap bytes the first extent that is given out twice is the one after 512
  (`FileStore.Store.GiveOut`).

One promise that looks doubtful holds. `wait` scans for children slot by slot, and the first
process can be handed orphans behind its scan; still it answers -1 only when there are none,
because parents are older than their children and so there are orphans only while the first
process has some other child (`ProcWait.WaitFails`).

## Model

| member | source | states |
|---|---|---|
| CrashLog.DecodeEncode | cse451-wi18-master/kernel/fs.c:515-538 | the commit block read back from its sector is the one that was written |
| CrashLog.CommittedNames | cse451-wi18-master/kernel/fs.c:520-538 | the commit block names the logged blocks in order, with the flag set |
| CrashLog.CommittedDisk | cse451-wi18-master/kernel/fs.c:520-543 | after the commit write, recovery's plan is exactly the logged writes, then the clear |
| CrashLog.SamePlan | cse451-wi18-master/kernel/fs.c:555-567 | any prefix of the installs leaves the log intact, so the next recovery has the same plan |
| CrashLog.RebootsKeepOutcome | cse451-wi18-master/kernel/fs.c:546-577 | any number of recoveries cut short, then one that completes, leave the same disk as one recovery |
| CrashLog.CrashAtomicity | cse451-wi18-master/kernel/fs.c:500-577 | for every transaction of at most 39 entries and every crash point, the disk off the log is the old one if the commit write had not happened and has all writes in order if it had, and the commit block is zero again |
| CrashLog.TxDone | cse451-wi18-master/kernel/fs.c:512-577 | a transaction that completes leaves its writes in place off the log, and a log in which the next one can start |
| CrashLog.RunIsDurable | cse451-wi18-master/kernel/fs.c:500-577 | over any run of transactions with crashes, the disk is the initial one with exactly the committed transactions applied in order |
| CrashLog.FortyEntriesSpill | cse451-wi18-master/kernel/fs.c:521-527 | a fortieth entry writes the block after the log region |
| BufferCache.MoveToFrontKeepsList | cse451-wi18-master/kernel/bio.c:131-138 | releasing a buffer keeps the list a permutation and puts that buffer first |
| BufferCache.SearchFinds | cse451-wi18-master/kernel/bio.c:69-77 | the scan finds the one buffer that holds a block |
| BufferCache.ValueCached | cse451-wi18-master/kernel/bio.c:97-106 | a reader of a cached block is given that buffer's data |
| BufferCache.ValueUncached | cse451-wi18-master/kernel/bio.c:97-106 | a reader of an uncached block is given the disk's data |
| CacheProtocol.StepKeepsInv | cse451-wi18-master/kernel/bio.c:64-142 | every step of every process keeps the list a permutation in recency order, one buffer per block, exact reference counts, and clean idle buffers equal to the disk |
| CacheProtocol.StepIsMapStep | cse451-wi18-master/kernel/bio.c:64-142 | every step does to the contents seen through the cache what a plain block map would do |
| CacheProtocol.RecycleLosesNothing | cse451-wi18-master/kernel/bio.c:82-92 | recycling a buffer changes no block's contents |
| CacheProtocol.VictimIsUnused | cse451-wi18-master/kernel/bio.c:82-92 | a buffer in use or dirty is never recycled |
| CacheProtocol.VictimIsLeastRecent | cse451-wi18-master/kernel/bio.c:82-92 | the recycled buffer was released longest ago among those that could be |
| CacheProtocol.HolderSees | cse451-wi18-master/kernel/bio.c:97-106 | what bread returned is the block's current contents as long as it is held |
| CacheProtocol.GetsOn | cse451-wi18-master/kernel/bio.c:60-131 | nobody is held up but by the holder of the buffer or by the panic, which comes exactly when the block is not cached and no buffer is unused and clean; bread ends with a valid buffer |
| CacheProtocol.CanLetGo | cse451-wi18-master/kernel/bio.c:109-120 | bwrite puts the buffer's data on the disk, a pin keeps the buffer from being recycled and the disk as it is, and after either the buffer can be let go |
| CacheProtocol.AtMostOneHolder | cse451-wi18-master/kernel/bio.c:64-94 | no two processes hold the same block |
| CacheProtocol.InitialInv | cse451-wi18-master/kernel/bio.c:44-59 | binit's state satisfies the invariant and shows the disk |
| CacheProtocol.RunIsBlockMap | cse451-wi18-master/kernel/bio.c:44-142 | in every interleaving the cache reads as the initial disk with all stores applied in order |
| Bio.Unlinked | cse451-wi18-master/kernel/bio.c:133-134 | the two pointer writes remove one node from the list and nothing else |
| Bio.LinkedFirst | cse451-wi18-master/kernel/bio.c:135-138 | the four pointer writes put a node first |
| Bio.Bcache.constructor | cse451-wi18-master/kernel/bio.c:44-59 | the links spell all buffers, last one first |
| Bio.Bcache.FindCached | cse451-wi18-master/kernel/bio.c:69-77 | the forward scan returns what the search function gives |
| Bio.Bcache.FindVictim | cse451-wi18-master/kernel/bio.c:79-92 | the backward scan returns the last recyclable buffer of the list |
| Bio.Bcache.Bget | cse451-wi18-master/kernel/bio.c:64-94 | hit, recycling or "no buffers", as the cache's Get function says |
| Bio.Bcache.Iderw | cse451-wi18-master/kernel/memide.c:35-55 | a dirty buffer goes to the disk, an invalid one comes from it, and either ends valid and clean |
| Bio.Bcache.BreadBlock | cse451-wi18-master/kernel/bio.c:97-106 | the new cache and buffer are those of Bread |
| Bio.Bcache.Bwrite | cse451-wi18-master/kernel/bio.c:109-119 | the crash counter decides between a reboot with the disk untouched and one block written |
| Bio.Bcache.BrelseBlock | cse451-wi18-master/kernel/bio.c:123-142 | the buffer is unlocked, one reference fewer, and first in the list when unused |
| QuietCache.PanicExactly | cse451-wi18-master/kernel/bio.c:64-94 | bget panics exactly when the block is not cached and every buffer is dirty |
| QuietCache.ReleasedSurvives | cse451-wi18-master/kernel/fs.c:559-564 | the released source buffer still holds the log block after the next bread if and only if that bread has another buffer to use |
| QuietCache.WriteCycle | cse451-wi18-master/kernel/fs.c:524-527 | bread, overwrite, bwrite and brelse change one block of the disk and unpin only it |
| QuietCache.PinCycle | cse451-wi18-master/kernel/fs.c:500-510 | a logged and released block is pinned, and the disk is unchanged |
| QuietCache.AllPinned | cse451-wi18-master/kernel/bio.c:79-92 | there is a spare buffer exactly when fewer blocks are pinned than there are buffers |
| FsLog.Log.LogWrite | cse451-wi18-master/kernel/fs.c:500-510 | one entry is added to the log cache and the buffer is marked dirty |
| FsLog.Log.CopyEntries | cse451-wi18-master/kernel/fs.c:520-528 | the log writes happen in order up to the crash point, and the commit block is filled in |
| FsLog.Log.LogCommitTx | cse451-wi18-master/kernel/fs.c:512-544 | the disk is the transaction's plan cut at the crash point; done exactly when the plan is complete |
| FsLog.Log.InstallEntry | cse451-wi18-master/kernel/fs.c:557-567 | one target block gets the log block's contents, never the panic |
| FsLog.Log.LogRecover | cse451-wi18-master/kernel/fs.c:546-577 | the disk is recovery's plan cut at the crash point |
| FsLog.Log.Transaction | cse451-wi18-master/kernel/fs.c:500-577 | a whole transaction through the cache follows the plan of the atomicity theorem, leaves nothing pinned, and panics exactly when it writes as many different blocks as there are buffers |
| FsLog.Session | cse451-wi18-master/kernel/fs.c:500-577 | any run of transactions on the running cache: wherever the machine reboots, recovery leaves exactly a prefix of them, those finished with or without the one under way, and an idle log |
| FsLog.SourceStays | cse451-wi18-master/kernel/fs.c:559-564 | with the target pinned or two clean buffers, the target's bread leaves the source's buffer alone |
| FsLog.Boot | cse451-wi18-master/kernel/fs.c:546-577 | recovery at boot, on a fresh cache, completes without a panic, leaves the recovered disk and nothing pinned |
| CowMemory.MappedFrame | cse451-wi18-master/kernel/kalloc.c:309-332 | a mapped frame is allocated, nobody's kernel page, and its count is the number of entries that map it |
| CowMemory.Shared | cse451-wi18-master/kernel/vspace.c:511-541 | a frame with two entries is read-only and marked cow in both |
| CowMemory.MapNewKeeps | cse451-wi18-master/kernel/vspace.c:86-97 | adding a blank page keeps counts and sharing right |
| CowMemory.MapNewViews | cse451-wi18-master/kernel/vspace.c:86-97 | adding a blank page is seen by its process alone, and no old data shows through |
| CowMemory.ShareKeeps | cse451-wi18-master/kernel/vspace.c:511-541 | sharing an entry with the child keeps counts and sharing right |
| CowMemory.ShareViews | cse451-wi18-master/kernel/vspace.c:511-541 | sharing shows the child the parent's page and changes nothing else |
| CowMemory.CopyFaultKeeps | cse451-wi18-master/kernel/trap.c:151-186 | the copying fault keeps counts and sharing right |
| CowMemory.CopyFaultViews | cse451-wi18-master/kernel/trap.c:151-186 | the copying fault changes nothing any process sees |
| CowMemory.ReclaimFaultKeeps | cse451-wi18-master/kernel/trap.c:188-203 | making the last reference writable keeps counts and sharing right |
| CowMemory.UnmapKeeps | cse451-wi18-master/kernel/kalloc.c:127-165 | freeing a mapped page keeps counts and sharing right |
| CowMemory.UnmapViews | cse451-wi18-master/kernel/kalloc.c:127-165 | freeing a page, junk fill included, takes it from one process and changes no other view |
| CowMemory.StoreViews | cse451-wi18-master/kernel/trap.c:147-205 | a store through a writable entry is seen through that entry and no other |
| VmKernel.Kernel.constructor | cse451-wi18-master/kernel/kalloc.c:86-121 | the free_pages that mem_init computes from addresses is the number of frames that freerange has freed, wherever the core map ends |
| VmKernel.Kernel.Kalloc | cse451-wi18-master/kernel/kalloc.c:309-332 | the first available frame is taken with count one, and the counters move by one |
| VmKernel.Kernel.Kfree | cse451-wi18-master/kernel/kalloc.c:127-165 | the last reference frees and scrubs the page, any other lowers the count; free plus used pages stays the same |
| VmKernel.Kernel.AddMap | cse451-wi18-master/kernel/vspace.c:73-100 | exactly the asked pages appear, all zero, and nothing else changes |
| VmKernel.Kernel.Invalidate | cse451-wi18-master/kernel/vspace.c:272-302 | the map of page-table entries becomes exactly the translation of the page entries; for the four-level table itself see `UserPages.RewriteTable` |
| VmKernel.Kernel.ShareAll | cse451-wi18-master/kernel/vspace.c:495-550 | the child sees all of the parent's memory, everyone else what they saw |
| VmKernel.Kernel.DoFork | cse451-wi18-master/kernel/proc.c:124-163 | fork is the eager model's fork, and leaves every page of the parent read-only |
| VmKernel.Kernel.Fault | cse451-wi18-master/kernel/trap.c:109-205 | of the faults on a mapped read-only entry exactly those are handled whose byte va2vregion finds in a region, which is every byte of a code or stack page and of the heap those before its end; the entry is then writable and no view has changed |
| VmKernel.CoversExactly | cse451-wi18-master/kernel/vspace.c:395-408 | va2vregion finds a region for every byte of every page that has an entry, but for those past the end of the heap |
| VmKernel.Kernel.StoreByte | cse451-wi18-master/kernel/trap.c:109-205 | a store to a page that is there is completed exactly when its entry is writable or its byte is not past the end of the heap; then it is the eager model's store, otherwise nothing changes |
| VmKernel.Kernel.StoreBeyondBreak | cse451-wi18-master/kernel/trap.c:109-113 | sbrk(1), fork, and a store to any other byte of the new page: refused, although the page is there |
| VmKernel.Kernel.DoSbrk | cse451-wi18-master/kernel/proc.c:356-374 | sbrk adds zero pages as the eager model does, returns the old bound, and refuses exactly what the code refuses |
| VmKernel.Kernel.DoGrowStack | cse451-wi18-master/kernel/trap.c:32-57 | the stack grows by one zero page unless it has ten |
| VmKernel.Kernel.DoSpawn | cse451-wi18-master/kernel/vspace.c:175-199 | the first process gets its program in whole pages and one zero stack page |
| VmKernel.Kernel.LoadProg | cse451-wi18-master/kernel/vspace.c:128-149 | the code pages hold the program's bytes and zeros after them, and nothing else changes |
| VmKernel.Kernel.FreeLeaves | cse451-wi18-master/kernel/x86_64vm.c:197-222 | every page of the process is given up and no other process sees a change |
| VmKernel.Kernel.DoReap | cse451-wi18-master/kernel/proc.c:198-224 | the process's pages all go back, as the eager model's exit |
| VmKernel.Kernel.Run | cse451-wi18-master/kernel/vspace.c:495-586 | every run of spawn, fork, store, sbrk, stack growth and exit shows each process what eager copying would, with counts and conservation kept, up to a lack of pages or a store that is refused; a store to a page that is there and not past the end of the heap never is |
| VmKernel.Kernel.AllReturned | cse451-wi18-master/kernel/kalloc.c:127-165 | when every process has gone every frame is as at boot |
| FreeList.GapUnique | cse451-wi18-master/user/umalloc.c:28-30 | a block belongs in exactly one gap of the list |
| FreeList.InsertSorted | cse451-wi18-master/user/umalloc.c:31-40 | inserting with both joins keeps the list in order with no two blocks touching |
| FreeList.InsertHas | cse451-wi18-master/user/umalloc.c:31-40 | the list then has the units it had and the block's, no others |
| FreeList.FreedKeeps | cse451-wi18-master/user/umalloc.c:24-42 | free keeps blocks disjoint and the books exactly as right as before |
| FreeList.MallocedKeeps | cse451-wi18-master/user/umalloc.c:69-78 | cutting a block keeps blocks disjoint and the books exactly as right as before |
| FreeList.TakenFromEnd | cse451-wi18-master/user/umalloc.c:69-77 | what is handed out is the end of the block, and no free block moves |
| FreeList.GrantedKeeps | cse451-wi18-master/user/umalloc.c:44-57 | new space is clear of every block, and the books balance exactly when sbrk gave what the header says |
| FreeList.UnitsPartition | cse451-wi18-master/user/umalloc.c:24-84 | every unit obtained is in exactly one free or live block, and blocks have no others |
| FreeList.RunKeeps | cse451-wi18-master/user/umalloc.c:24-84 | every sequence of free, malloc and morecore keeps the list in address order with no two blocks touching, all blocks disjoint and the books exact |
| UMalloc.RoomForBytes | cse451-wi18-master/user/umalloc.c:63 | a block of that many units has room for the bytes asked for, with less than one header to spare |
| UMalloc.GrantsExactly | cse451-wi18-master/user/umalloc.c:44-57 | a request that makes the heap grow is refused for its size exactly when it is over 2^31 - 32 bytes and up to 2^32 - 32, because sbrk then sees a negative size |
| UMalloc.AskedIsNeeded | cse451-wi18-master/user/umalloc.c:44-57 | a granted sbrk covers the block exactly for requests up to 2^32 - 32 bytes |
| UMalloc.FirstShortRequest | cse451-wi18-master/user/umalloc.c:44-57 | one byte more is granted no space at all |
| UMalloc.RelinkLinked | cse451-wi18-master/user/umalloc.c:31-40 | the pointer updates of free leave the headers linked as the list after insertion |
| UMalloc.UnlinkLinked | cse451-wi18-master/user/umalloc.c:69-77 | the pointer updates of malloc leave the headers linked as the list after the cut |
| UMalloc.StopsAtGap | cse451-wi18-master/user/umalloc.c:28-30 | the scan's tests succeed at the block's gap and nowhere else |
| UMalloc.Allocator.FindGap | cse451-wi18-master/user/umalloc.c:28-30 | the scan ends within a lap, at the gap |
| UMalloc.Allocator.Free | cse451-wi18-master/user/umalloc.c:24-42 | the list gains the block, the live blocks lose it, all else is kept, and the next search starts at the block below it |
| UMalloc.Allocator.Morecore | cse451-wi18-master/user/umalloc.c:44-57 | on success the list is the old one with the new space freed into it, and has a block that is large enough |
| UMalloc.Allocator.Malloc | cse451-wi18-master/user/umalloc.c:59-84 | fails exactly when nothing fits and sbrk refuses, else hands out the end of the first block that fits in a lap that starts after freep, of the old list or of the list with the new space; the next search starts before that block; ends within two laps; the books stay exact unless the request is over the limit and makes the heap grow |
| PageTable.UnderRoot | cse451-wi18-master/kernel/x86_64vm.c:58-100 | the indices of a walk are the digits of the page number |
| PageTable.AddedTranslates | cse451-wi18-master/kernel/x86_64vm.c:68-97 | a new table where there was none changes no translation |
| PageTable.AddedTree | cse451-wi18-master/kernel/x86_64vm.c:68-97 | adding a table keeps the tables a tree |
| PageTable.LeafedTranslates | cse451-wi18-master/kernel/x86_64vm.c:117-120 | writing one leaf changes that page's translation and no other |
| X86Vm.PageMap.Walk | cse451-wi18-master/kernel/x86_64vm.c:58-100 | finds the last-level table, or makes the missing ones, with all translations unchanged and no page directory made but the page's own |
| X86Vm.PageMap.Mappages | cse451-wi18-master/kernel/x86_64vm.c:106-129 | the range maps the frames and all other pages are unchanged; "remap" only if a page was mapped |
| PageHoles.PgaddrBits | cse451-wi18-master/inc/mmu.h:99-101 | on machine words, an index of 512 carries exactly when the next field is even |
| PageHoles.HoleIsEmpty | cse451-wi18-master/kernel/x86_64vm.c:162-191 | the jump never passes a page that has a table |
| PageHoles.Forward | cse451-wi18-master/kernel/x86_64vm.c:206-211 | the loop moves forward when no odd slot lacks its last table |
| PageHoles.StopsExactly | cse451-wi18-master/kernel/x86_64vm.c:197-222 | the loop over the user part ends if and only if every odd slot with a page directory has its last page table |
| PageHoles.StuckTree | cse451-wi18-master/kernel/x86_64vm.c:197-222 | a tree of tables on which it does not end |
| PageHoles.FramesAt | cse451-wi18-master/kernel/x86_64vm.c:205-220 | in the list of freed frames each mapped page's frame comes after those of the pages before it |
| PageHoles.FramesOf | cse451-wi18-master/kernel/x86_64vm.c:205-220 | and every frame in the list is a mapped page's |
| PageFree.EveryTableOnce | cse451-wi18-master/kernel/x86_64vm.c:224-266 | the order of freevm names every table of the tree exactly once |
| X86Vm.PageMap.FindNextPossiblePage | cse451-wi18-master/kernel/x86_64vm.c:162-191 | returns the page before the place the loop goes on from |
| X86Vm.PageMap.Deallocuvm | cse451-wi18-master/kernel/x86_64vm.c:197-222 | frees every mapped user frame once, in page order, unmaps exactly those, keeps all tables, and ends |
| X86Vm.PageMap.FreevmPgdir | cse451-wi18-master/kernel/x86_64vm.c:224-235 | frees the directory's tables, then itself, reading none after it was freed |
| X86Vm.PageMap.FreevmPdpt | cse451-wi18-master/kernel/x86_64vm.c:237-248 | frees everything below, then itself |
| X86Vm.PageMap.Freevm | cse451-wi18-master/kernel/x86_64vm.c:253-266 | every user frame once, then every table exactly once; no table is left |
| VSpace.IdxBijection | cse451-wi18-master/kernel/vspace.c:11-21 | different pages of a region have different entries, within the region's count |
| VSpace.IdxOnto | cse451-wi18-master/kernel/vspace.c:11-21 | every entry index of a region has its page |
| VSpace.Va2VpageInfo | cse451-wi18-master/kernel/vspace.c:413-440 | the linked list's place for an index, with blank pages linked in and no entry changed |
| VSpace.Va2Vregion | cse451-wi18-master/kernel/vspace.c:394-409 | a region that contains the address, or none does |
| VSpace.Rewrite | cse451-wi18-master/kernel/vspace.c:288-300 | one page translates to its entry or to nothing; mappages never finds it mapped |
| VSpace.Invalidate | cse451-wi18-master/kernel/vspace.c:272-302 | on disjoint regions every page translates to exactly its entry's frame and permission or to nothing, and pages outside are unchanged |
| UserPages.ApartExactly | cse451-wi18-master/kernel/proc.c:356-374 | the regions of a process keep apart if and only if its heap ends below its stack |
| UserPages.SbrkReachesStack | cse451-wi18-master/kernel/proc.c:356-374 | sbrk accepts a size with which they do not |
| UserPages.SlotsAndPages | cse451-wi18-master/kernel/vspace.c:11-21 | entries and pages of a process correspond one to one |
| UserPages.CoversAddress | cse451-wi18-master/kernel/vspace.c:395-408 | the kernel model's test of a byte of a page holds exactly if one of the process's regions has the byte's address |
| UserPages.RewriteTable | cse451-wi18-master/kernel/vspace.c:272-302 | after vspaceinvalidate the four-level table translates every page of a process to what the kernel's map says, and every other page as before; with the top stack page present and no directory for the fourth GiB, deallocuvm's walk over the table ends |
| UserPages.CanJump | cse451-wi18-master/kernel/x86_64vm.c:165-222 | a table that maps the last page of the second GiB and has no directory for the fourth is one that deallocuvm gets through |
| UserPages.BuildAndFree | cse451-wi18-master/kernel/x86_64vm.c:254-267 | a process's table, built from a blank root, translates its pages and no others, and freevm then frees every page of it and every table exactly once |
| SleepWakeup.StepRefines | cse451-wi18-master/kernel/proc.c:378-426 | every step of acquire, sleep, wakeup, kill and release is one action of the simple reading or invisible to it |
| SleepWakeup.RunRefines | cse451-wi18-master/kernel/proc.c:378-426 | every interleaving of those steps is a run in which sleep releases and sleeps at once and wakeup wakes at once, on the same shared data, and in which every process does what it calls, in that order and all of it but for a call it is still in |
| SleepWakeup.SimplyKept | cse451-wi18-master/kernel/proc.c:378-426 | in such a run one process at a time is inside the lock, and only those who wait sleep |
| SleepWakeup.WakesItsChannel | cse451-wi18-master/kernel/proc.c:410-426 | wakeup wakes those who sleep on its channel and nobody else |
| SleepWakeup.RunsOut | cse451-wi18-master/kernel/proc.c:378-426 | the calls under way take only a bounded number of steps, in any order |
| SleepWakeup.LeftAlone | cse451-wi18-master/kernel/proc.c:378-426 | when none can go on, each process is outside, inside or asleep, or wants the lock of one that is inside |
| SleepLock.StepKeepsInv | cse451-wi18-master/kernel/sleeplock.c:22-39 | every step of every process keeps lock ownership and the sleepers' promise |
| SleepLock.MutualExclusion | cse451-wi18-master/kernel/sleeplock.c:22-39 | in every interleaving at most one process holds the lock |
| SleepLock.CallsEnd | cse451-wi18-master/kernel/sleeplock.c:22-39 | in every run a process that is in no call has the lock, with its pid in it, exactly if its last call was acquiresleep, and has neither spinlock |
| SleepLock.FreeLockTaken | cse451-wi18-master/kernel/sleeplock.c:22-30 | a process that asks for a free lock gets it |
| SleepLock.NoLostWakeup | cse451-wi18-master/kernel/proc.c:378-426 | a sleeper means the lock is held or a releaser has still to wake it |
| SleepLock.NoDeadlock | cse451-wi18-master/kernel/proc.c:378-426 | when no call can take a step, the spinlocks are free and every process is out of its call or asleep, and asleep only while another holds the lock |
| SleepLock.RunsOut | cse451-wi18-master/kernel/sleeplock.c:22-39 | the calls under way take only a bounded number of steps, in any order |
| SleepLock.LeftAlone | cse451-wi18-master/kernel/sleeplock.c:22-39 | so in every run they come to a state in which no call can take a step |
| SleepLock.KilledWakes | cse451-wi18-master/kernel/proc.c:431-447 | kill takes a sleeper off the channel and changes nothing else |
| Pipe.PipeIsFifo | cse451-wi18-master/kernel/fs.c:332-361 | in every interleaving the bytes taken, then those in the ring, are the bytes put, and the ring never overfills |
| Pipe.CallsKeepTheirBytes | cse451-wi18-master/kernel/fs.c:332-361 | in every run each write has put a beginning of its bytes, in order, all of them if it returned their number and not all if it failed; each read returns the bytes it took, in order and no more than it asked for; a call has an answer exactly when its process is no longer in it |
| Pipe.ReturnsForAReason | cse451-wi18-master/kernel/fs.c:332-361 | a read is short only on an empty pipe and empty-handed only with the write end closed; a call fails only if its process was killed, or if it writes to a full pipe with the read end closed |
| Pipe.TellsTheOthers | cse451-wi18-master/kernel/fs.c:474-498 | whoever lets go of the pipe's lock without failing leaves nobody asleep on the other side |
| Pipe.NobodyStuck | cse451-wi18-master/kernel/fs.c:474-498 | with the lock free and no close under way, readers sleep only on an empty pipe and writers only on a full one, with the other end open or its slot reused, if no killed process lost a wakeup |
| Pipe.RunsOut | cse451-wi18-master/kernel/fs.c:332-361 | the calls under way take only a bounded number of steps, in any order |
| Pipe.LeftAlone | cse451-wi18-master/kernel/fs.c:474-498 | when none can go on each has returned or sleeps, readers on an empty pipe and writers on a full one, if no killed process lost a wakeup |
| Pipe.ClosedForGood | cse451-wi18-master/kernel/file.c:28-47 | in every run an end is open exactly if it has not been closed, and its slot valid exactly if it or the last file to get the slot is still open |
| Pipe.SleepsExactly | cse451-wi18-master/kernel/fs.c:335-343 | with the other end closed, a process that has to wait goes to sleep exactly when the closed end's slot belongs to another file |
| Pipe.ReaderStranded | cse451-wi18-master/kernel/fs.c:335-343 | a reader asleep with the write end closed sleeps on in every continuation in which it is not killed |
| Pipe.WriterStranded | cse451-wi18-master/kernel/fs.c:477-490 | and so does a writer with the read end closed |
| Pipe.ReusedSlotStrandsReader | cse451-wi18-master/kernel/file.c:128-140 | a run with no kill in which a reader is stranded by a reused slot |
| Pipe.DieExactly | cse451-wi18-master/kernel/fs.c:345-348 | a killed process's return leaves the sleepers right if and only if it had moved no bytes or nobody sleeps on the other side |
| Pipe.KilledWriterStrandsReader | cse451-wi18-master/kernel/fs.c:483-485 | a run that ends with the lock free, the pipe full and a reader asleep |
| ProcWait.FirstZombie | cse451-wi18-master/kernel/proc.c:198-204 | the zombie child in the lowest slot, or there is none |
| ProcWait.StepKeepsInv | cse451-wi18-master/kernel/proc.c:168-259 | fork, exit, wait and kill keep the table, the sleepers and the record of exits right |
| ProcWait.ReturnedOnce | cse451-wi18-master/kernel/proc.c:198-259 | every exited process is returned by wait at most once, and is a zombie until then |
| ProcWait.WaitFails | cse451-wi18-master/kernel/proc.c:229-246 | wait answers -1 exactly when its caller has no children, at the call and when it decides; otherwise it goes on to look for a zombie |
| ProcWait.WaitReturns | cse451-wi18-master/kernel/proc.c:198-259 | past that point the caller has a child; with a zombie child wait answers its pid and frees its slot, and without one it sleeps |
| ProcWait.FirstHasChild | cse451-wi18-master/kernel/proc.c:168-193 | while there is any other process the first one has a child |
| ProcWait.ParentsAlive | cse451-wi18-master/kernel/proc.c:168-193 | every process but the first has a live parent |
| ProcWait.OrphansGoToInit | cse451-wi18-master/kernel/proc.c:180-186 | when a process exits its children are the first process's |
| ProcWait.ExitWakes | cse451-wi18-master/kernel/proc.c:178-190 | exit wakes its parent, and the first process if it inherits children, and nobody else |
| ProcWait.NoZombieMissed | cse451-wi18-master/kernel/proc.c:250-259 | a process asleep in wait has no zombie child |
| ProcWait.SleeperHasChild | cse451-wi18-master/kernel/proc.c:250-259 | nobody sleeps in wait without a child |
| ProcWait.WaitGetsOn | cse451-wi18-master/kernel/proc.c:229-259 | each step of wait brings it nearer to its answer or its sleep, and no other process sets it back |
| ProcWait.CanGoOn | cse451-wi18-master/kernel/proc.c:168-259 | a process that is not asleep can always take the next step of its call |
| ProcWait.KilledWakes | cse451-wi18-master/kernel/proc.c:431-447 | kill wakes a process that sleeps and changes nothing else |
| ProcWait.RunIsFamily | cse451-wi18-master/kernel/proc.c:168-259 | every run of the table is a run of a family by pid: a child belongs to the process that forked it and to the first process once that has exited, and wait returns each exited child once, to its parent, and -1 only to a process without children |
| Ide.InterruptIsMem | cse451-wi18-master/kernel/ide.c:100-126 | the interrupt does to the head buffer and the disk what the in-memory driver does |
| Ide.StepKeepsInv | cse451-wi18-master/kernel/ide.c:71-159 | the queue is the unfinished requests in order, and its head alone is with the drive |
| Ide.DiskRefines | cse451-wi18-master/kernel/ide.c:71-159 | the disk is always what the in-memory disk is after the finished requests, which finish in the order they were made |
| Ide.ReturnRefines | cse451-wi18-master/kernel/memide.c:35-55 | iderw returns exactly when its own request is done, with the buffer the in-memory version gives |
| Ide.ReadsLastWrite | cse451-wi18-master/kernel/ide.c:71-159 | a read returns what the last write of its block before it wrote, a write leaves its data in the buffer, and the disk holds the last data written |
| Ide.NobodyMissed | cse451-wi18-master/kernel/ide.c:153-156 | a process asleep in iderw has its buffer in the queue and the drive is busy |
| Ide.RunsOut | cse451-wi18-master/kernel/ide.c:71-159 | the calls under way take only a bounded number of interrupts and tests, in any order |
| Ide.LeftAlone | cse451-wi18-master/kernel/ide.c:71-159 | and when there is neither left, every request is done and every caller has returned |
| Ide.KilledWakes | cse451-wi18-master/kernel/proc.c:431-447 | kill takes a caller off the channel and changes nothing else |
| Ide.RequestQueue.Append | cse451-wi18-master/kernel/ide.c:143-147 | the walk along qnext adds the buffer at the end |
| Ide.RequestQueue.Pop | cse451-wi18-master/kernel/ide.c:103-110 | the head is removed |
| FileData.StoredByte | cse451-wi18-master/kernel/fs.c:454-456 | copying into a block changes exactly those bytes of the disk |
| FileData.PatchView | cse451-wi18-master/kernel/fs.c:453-458 | a change within one block changes the file there and nowhere else |
| FileData.PatchOther | cse451-wi18-master/kernel/fs.c:453-458 | and changes no other file |
| FileData.BlockBytes | cse451-wi18-master/kernel/fs.c:454-456 | the bytes of a block made from 512 bytes are those bytes |
| FileData.SlotsDown | cse451-wi18-master/kernel/fs.c:61-63 | the extents of a bitmap block's bytes lie one below the other, the first ending where the data ends, and a bitmap block on they are 512 blocks lower |
| FileData.ClashesExactly | cse451-wi18-master/kernel/fs.c:48-61 | byte m of the bitmap stands for an extent an earlier byte stands for if and only if m is at least 512 and m modulo 512 is below 448 |
| FileWalk.Jumped | cse451-wi18-master/kernel/fs.c:322-326 | at the end of an extent the walk goes on where it should only from the first extent to the second; from any other it then stands beyond the byte that is next, or past the file's extents, and stays there, and the range is not walkable |
| FileWalk.Moved | cse451-wi18-master/kernel/fs.c:313-321 | a round within an extent moves bytes of the file, those asked for exactly as long as the walk is in place |
| FileWalk.Ended | cse451-wi18-master/kernel/fs.c:312-327 | a walk that gets to its end has moved the bytes asked for, in order, if and only if the range is walkable |
| FileWalk.EvenJumped | cse451-wi18-master/kernel/fs.c:322-326 | in a file of eight-block extents a walk that has left its place never stands inside an extent again, so it runs out of the inode |
| FileWalk.ScatterInOrder | cse451-wi18-master/kernel/fs.c:449-464 | bytes put at the places of a range in order replace that range and nothing else |
| FileWalk.CountsOn | cse451-wi18-master/kernel/fs.c:449-464 | each round of a walk in place is one block of the range more |
| FileWalk.RisingDistinct | cse451-wi18-master/kernel/fs.c:449-464 | and each is a different disk block |
| FileStore.Store.Getstartblkno | cse451-wi18-master/kernel/fs.c:44-70 | marks the first free byte, over all bitmap blocks from the last back, and returns its extent, or 0 when none is free |
| FileStore.Store.GiveOut | cse451-wi18-master/kernel/fs.c:44-70 | giving out extents from free bitmap bytes: which of them overlap an earlier one, exactly |
| FileAlloc.OneBitmapBlock | cse451-wi18-master/kernel/fs.c:44-70 | with one bitmap block a file can be given extents as long as it has fewer than seven and bytes are free, and they never clash |
| FileAlloc.NewExtent | cse451-wi18-master/kernel/fs.c:372-376 | a free bitmap byte whose extent is in no file gives an extent apart from all others, whether they came from the bitmap or from mkfs, and the file's bytes grow by what the disk holds there |
| FileAlloc.AllPatched | cse451-wi18-master/kernel/fs.c:453-458 | writing within one block of a file keeps all extents apart and shows in that file only |
| FileStore.Store.Readi | cse451-wi18-master/kernel/fs.c:285-330 | -1 exactly past the size or on overflow; otherwise the places of the file whose bytes it returns, which are those asked for, clipped to the size, if and only if the file has blocks for them and the range is walkable; in a file of eight-block extents it strays for every other range |
| FileStore.Store.Fileread | cse451-wi18-master/kernel/file.c:66-76 | the next bytes of the file under the same exact condition, and the offset moved past them |
| FileStore.Store.ReadAll | cse451-wi18-master/kernel/file.c:66-76 | reading in pieces of any size until nothing comes gives the whole file in order if and only if it lies in the first two extents; a longer file of eight-block extents takes the extent pointer out of the inode |
| FileStore.Store.WrittenNotRead | cse451-wi18-master/kernel/file.c:66-103 | a file written in chunks of up to a block, past two extents, holds them all, and reading it, in pieces of any size, takes the extent pointer out of the inode |
| FileStore.Store.Overwrite | cse451-wi18-master/kernel/fs.c:440-464 | where every byte is put; they are put in order if and only if the range is walkable, with one logged write for each of the range's blocks; no other file changes |
| FileStore.Store.Appendi | cse451-wi18-master/kernel/fs.c:363-397 | completes exactly when the file can be given one extent per block; where each block lands, that the rest of the first extent is as it was, and which bitmap bytes are then set |
| FileStore.Store.Fill | cse451-wi18-master/kernel/fs.c:420-466 | the log cache when the commit comes: as many writes as the range has blocks, all to different blocks |
| FileStore.Store.Writei | cse451-wi18-master/kernel/fs.c:420-472 | completes with every byte within the capacity in place if and only if that part is walkable, the file can grow for the rest, and the number of blocks is below the number of buffers and at most 39; where every byte lands; no other file changes; the panic leaves the disk as it was |
| FileStore.ThirtyBlocks | cse451-wi18-master/inc/param.h:15 | a write of 30 blocks into a first extent of at least 30 does not complete with 30 buffers and does with 31 |
| FileStore.TidyPlaced | cse451-wi18-master/kernel/fs.c:363-397 | with the bytes within the capacity in order and at most one block past it, the file has the bytes at the offset |
| FileStore.SecondBlockAstray | cse451-wi18-master/kernel/fs.c:363-397 | a second block is an extent too far on, and where it belongs are the bytes the disk had |
| FileStore.Store.Filewrite | cse451-wi18-master/kernel/file.c:89-103 | the write of writei, with the size grown by what was written; that size is right if and only if the write is at the end |
| FileStore.Store.WriteAll | cse451-wi18-master/kernel/file.c:89-103 | back-to-back writes, up to the first that does not append, leave the file holding them one after another and every other file as it was; writes of up to a block append until seven extents are full |
| FileLog.Writei | cse451-wi18-master/kernel/fs.c:420-577 | writei with its commit made by the log on the buffer cache: complete and in place if and only if the same arithmetic condition holds; the cache's panic leaves the disk as it was, a commit that ends leaves the store's disk off the log, and one cut short by a reboot leaves, once recovered, the old disk or the new one |
| FileCrash.InodeBack | cse451-wi18-master/kernel/fs.c:399-416 | the inode updatei writes is the one read back, and the others in the block are unchanged |
| FileCrash.EmptyStands | cse451-wi18-master/kernel/fs.c:107-146 | for every layout of log, bitmap, inodes and data a disk of zero blocks is a file system of empty files, so runs have somewhere to start |
| FileCrash.MkfsFormat | cse451-wi18-master/mkfs.c:104-112 | the layout mkfs makes, with any sizes of swap space and bitmap, is one in which log, bitmap, inodes and data keep apart |
| FileCrash.MapWritten | cse451-wi18-master/kernel/fs.c:44-70 | after any number of getstartblkno's bitmap writes, the bitmap on the disk has exactly so many more bytes set |
| FileCrash.StopsSomewhere | cse451-wi18-master/kernel/fs.c:500-577 | wherever a write is cut short, and after any number of interrupted recoveries, the disk off the log is that after some of the bitmap writes, all of them, the data too, or the inode too, and the log is idle |
| FileCrash.StateAfter | cse451-wi18-master/kernel/file.c:89-103 | the inodes and the bitmap read back from that disk are those of a file system in which no two files share a block and no extent of a file is unmarked |
| FileCrash.WriteSurvives | cse451-wi18-master/kernel/file.c:89-103 | a write at the end of a file, cut short anywhere, leaves such a file system; the file has all of the bytes added exactly if the inode's commit block was written and none if not, and every other file is as it was |
| FileRuns.Boot | cse451-wi18-master/kernel/fs.c:149-200 | the inodes and the bitmap read from a disk are the only ones that stand on it |
| FileRuns.Append | cse451-wi18-master/kernel/file.c:89-103 | filewrite at the end of a file makes exactly such a write, so it survives a crash anywhere among its disk writes |
| FileRuns.Session | cse451-wi18-master/kernel/file.c:89-103 | any run of writes at the ends of files, each cut short anywhere, each followed by interrupted recoveries and a reboot: every file holds what it held and, in order, exactly the writes whose inode was committed |
| ShellSyntax.ParsePrinted | cse451-wi18-master/user/sh.c:302-409 | parsing the printed tokens of a tree gives the tree |
| ShellGrammar.ParsesExactly | cse451-wi18-master/user/sh.c:302-409 | the parser makes a tree of a token list if and only if the grammar derives it: redirections anywhere among the arguments, the input form on descriptor 0 and both output forms on descriptor 1, at most nine arguments, blocks, pipes, lists and background jobs |
| ShellGrammar.PanicsExactly | cse451-wi18-master/user/sh.c:302-409 | it panics exactly on the lists that derive nothing, and no list derives two trees |
| ShellGrammar.TreesExactly | cse451-wi18-master/user/sh.c:302-409 | the trees that can be written are those with at most nine arguments to a command and the two kinds of redirection |
| ShellLex.LexRendered | cse451-wi18-master/user/sh.c:244-285 | the text of a token list reads as that list |
| ShellLex.LexesExactly | cse451-wi18-master/user/sh.c:240-285 | a line reads as a token list if and only if it is those tokens with white space around them, and some between two that would run together |
| Shell.Gettoken | cse451-wi18-master/user/sh.c:244-285 | the next token, its place and the tokens left |
| Shell.Peek | cse451-wi18-master/user/sh.c:287-295 | moves to the next token and tells whether it starts with one of the characters |
| Shell.ParseRedirections | cse451-wi18-master/user/sh.c:343-364 | agrees with the parser on tokens, which `ShellGrammar` pins, and every file is a whole word of the line |
| Shell.ParseLineAt | cse451-wi18-master/user/sh.c:317-330 | agrees with the parser on tokens on every input, and ends |
| Shell.ParsePipeAt | cse451-wi18-master/user/sh.c:332-341 | agrees with the parser on tokens on every input, and ends |
| Shell.ParseBlockAt | cse451-wi18-master/user/sh.c:366-378 | agrees with the parser on tokens on every input, and ends |
| Shell.ParseExecAt | cse451-wi18-master/user/sh.c:380-393 | agrees with the parser on tokens on every input, and ends |
| Shell.ParseArgsAt | cse451-wi18-master/user/sh.c:394-408 | agrees with the parser on tokens, panicking at the tenth argument |
| Shell.Nulterminate | cse451-wi18-master/user/sh.c:412-454 | every word ends in a NUL and no word of the line is damaged |
| Shell.WordsReadBack | cse451-wi18-master/user/sh.c:412-454 | the command read out of memory has exactly the words of the line |
| Shell.Parsecmd | cse451-wi18-master/user/sh.c:302-315 | the tree read back from memory is the one the line means by the lexical rules and the grammar; it panics exactly on lines that mean none |
| Shell.ParsePrint | cse451-wi18-master/user/sh.c:244-454 | for every tree with legal words, at most nine arguments and the parser's redirection modes, parsing its printed text gives the same tree |
| Regex.MatchHere | cse451-wi18-master/user/grep.c:79-89 | true exactly when the text begins with a match of the pattern's meaning |
| Regex.MatchStar | cse451-wi18-master/user/grep.c:92-98 | true exactly when some run of the character is followed by a match |
| Regex.Match | cse451-wi18-master/user/grep.c:68-76 | true exactly when some position, or only the first after a leading ^, begins a match |

## Left out

- Log transactions run one at a time; the log's lock is dropped between logging, commit and install, so concurrent transactions have no decided meaning.
- A block is its 128 words. `FileStore` treats a logged and committed block write as one step; `FileLog` and `FileCrash` take the steps apart.
- `CacheProtocol` takes waiting for a buffer's lock as one step; `SleepLock` has the lock's own steps. `Bio` and `FsLog` are one process at a time.
- VmKernel.Kernel.Run: stops before an operation that would leave fewer than ten free pages, because only kalloc's plain path is modelled, not eviction and swap.
- VmKernel.Kernel.DoReap: frees leaf pages before kernel pages; the order of kfree calls is not part of what it states. `X86Vm` has the order.
- Page-table and page-entry tables that an operation needs are counted as a number of kernel pages given with it; `X86Vm` and `VSpace` have the tables themselves.
- A store that is not completed kills the process, whose exit is an operation of its own; so is the stack growth that a fault near the stack may cause.
- `VmKernel` names pages by region and index; two regions that overlap would share addresses, which `UserPages` excludes exactly. `UserPages` takes the stack to be where exec puts it.
- VmKernel.Kernel.constructor: the kernel and the core map fit in memory.
- The accessed bit and the user bit of page-table entries, and the flag that marks a frame as user memory.
- X86Vm.PageMap.Deallocuvm: the range 0 to 4 GiB that freevm passes, and no frame is frame 0, which would be a panic.
- The kernel half that setupkvm maps.
- Addresses of the allocator are in header units, sbrk's answers are given, and sbrk gives space above everything it gave before.
- `spinlock.c`: spinlocks are taken as atomic acquire and release; interrupt nesting is not modelled.
- Sleep and wakeup are one step each in `Pipe`, `ProcWait` and `Ide`; `SleepWakeup` justifies this for the first and last, and wait's own lock is ptable.lock.
- Pipe counters do not overflow: fewer than 2^31 bytes pass. The pipe's page is not freed. A pipe end closes only when no call on it is under way. A slot is reused by a file that is not an end of the same pipe.
- ProcWait.StepKeepsInv: the first process does not exit, and open files, kernel stacks and memory of a process are not part of the table.
- Disk errors, spurious interrupts and the second disk's presence in `Ide`.
- FileStore.Store.Writei: once the extent pointer has left the inode, the bitmap is full, an extent is given out twice or the log is over, the model stops; what the code then does to the disk is not stated. The panic is reported at the commit, where the code meets it at the block that finds no buffer; when a write fails for two reasons only one is named. Device files are not modelled.
- FileRuns.Append: the log, the bitmap and the blocks with inodes lie below the data blocks that the bitmap gives out; the write is one that appends, with at most one block past the capacity.
- FileRuns.Session: a run stops before a write that does not append.
- Directories, names, the inode cache, making new inodes, exec and ELF loading, the console, system-call argument fetching, hardware and boot code, the small user programs.
- What the shell does with a command tree; only parsing is modelled.
- grep's buffering of lines; only the matcher is modelled.
