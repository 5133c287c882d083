# Pintos in Dafny

Models, in Dafny, of the parts of a Pintos kernel with demand paging and an indexed file system where the
reasoning is hard, and proofs of what those parts promise.

* **Files** (`FileLayout`, `FreeSectors`, `Inodes`, `FileShape`, `InodeCreate`, `GrowthCount`, `GrowthSteps`,
  `GrowthToll`, `InodeGrowth`, `InodeFree`, `FileData`, `FileLife`, `FileRuns`).  The multi-level inode index is a sequence of sectors in
  the order they were allocated; a file on disk is well formed if its index blocks file that sequence, record the right
  lengths, and the file reads zero past its end.  Creating, growing, reading, writing and freeing are methods over a
  mutable disk and free map.  Every failure says which sectors were not free, every success which were taken.
* **Buffer cache** (`BufferCache`, `DiskBytes`, `CachedFiles`).  The write-back cache refines an uncached disk, the index
  blocks of the file model are the bytes of `struct inode_disk` on it, and files are read and written within through it.
* **Paging** (`Bitmaps`, `SwapArea`, `PagingState`, `Paging`, `PagingRuns`).  Frame table, page tables, supplemental page table and swap
  area are one state with one invariant, under which eviction, loading and the clock are invisible to processes.  Memory
  without paging is the reference.
* **Threads** (`ThreadState`, `Threads`, `ThreadRuns`, `ThreadMachine`, `Conditions`, `ExitProtocol`).  Regions with interrupts off are the steps of a
  state machine, run in any order; `ThreadMachine` does the same steps on mutable lists.
* **Libraries** (`ListOrder`, `LinkedLists`, `ListSort`, `Arithmetic`, `HeapSort`, `Bits`, `HashTable`, `MallocLayout`,
  `MallocState`, `Malloc`, `Octal`, `Ustar`).  Pointer lists and their merge sort, 64-bit division from 32-bit
  instructions, heapsort, the chained hash table, the block allocator, and tar headers.

Input and output, time and randomness are parameters: the contents of the device at boot, the pages that the page
allocator hands out, whether a page-table page or memory for a resize is found, the order of events.  A failed kernel
assertion or panic is a result of the operation.

Nothing was executed; everything stated here is what the contracts state.

## Model

| member | source | states |
|---|---|---|
| `FileLayout.PathWithin` | pintos/src/filesys/inode.c:117-156 | within the sectors a file was given, the index leads byte_to_sector to the sector at the right place, through index blocks that are all the file's own |
| `FileLayout.PathBeyond` | pintos/src/filesys/inode.c:117-156 | past them, every path through the index leaves the file; so "the index covers n sectors" is decided by the number of sectors held |
| `FileLayout.DataPosInjective` | pintos/src/filesys/inode.c:117-156 | no two data sectors of a file share a place |
| `InodeCreate.ByteToSector` | pintos/src/filesys/inode.c:117-156 | -1 exactly for offsets at or past the length, else the end of the index path |
| `FreeSectors.FileSystem.Allocate` | pintos/src/filesys/free-map.c:30-45 | fails exactly when no sector is free; else takes the first free sector and changes no other bit |
| `FreeSectors.FileSystem.Release` | pintos/src/filesys/free-map.c:49-56 | frees a used sector; a free one trips the assertion and nothing changes |
| `FreeSectors.FreeCount` | pintos/src/filesys/free-map.c:30-45 | conservation: the sectors taken by any operation are exactly the ones by which the free count fell |
| `FreeSectors.ScarceAfter` | pintos/src/filesys/free-map.c:30-45 | running out after some sectors were taken means that the sum was not free at the start |
| `Inodes.CreateDirect` | pintos/src/filesys/inode.c:340-383 | a zeroed leaf of data sectors up to the length or the size limit; fails only if that many sectors are not free; overwrites nothing in use |
| `Inodes.CreateIndirect` | pintos/src/filesys/inode.c:289-337 | the same for an outer block and its leaves, with the exact number of sectors it wants |
| `Inodes.NewLeaf` | pintos/src/filesys/inode.c:477-492 | a leaf with its index block; on failure one sector is free again, the index block, or none if none was |
| `Inodes.NewOuter` | pintos/src/filesys/inode.c:206-245 | the outer block with its leaves; on failure the outer block and the index block of the leaf that failed are free again, and nothing else: the count is told from the count before |
| `InodeCreate.FillEntry` | pintos/src/filesys/inode.c:204-251 | one turn of the loop of inode_create: the next direct, single or double entry is filled and the sectors so far stay filed |
| `InodeCreate.Create` | pintos/src/filesys/inode.c:175-286 | every sector taken was free, nothing in use is overwritten, failure only if fewer sectors are free than the file wants, and then the number still free is told exactly from the number before; below the size limit the result is a well-formed file of zeros |
| `InodeCreate.CreatedFileIsWhole` | pintos/src/filesys/inode.c:175-286 | the index of a created file covers its length if and only if it and its index blocks stay within the 8 MB limit; its sectors are pairwise different |
| `GrowthCount.LengthToTotalSectors` | pintos/src/filesys/inode.c:44-94 | the loops compute a closed form of the length |
| `GrowthCount.CountIsRight` | pintos/src/filesys/inode.c:44-94 | that count is the true number of sectors if and only if the file has at most 744 data sectors or more than 15619; in between it is too small |
| `GrowthCount.CostBeatsCount` | pintos/src/filesys/inode.c:386-619 | growing never counts less than length_to_total_sectors would count afresh |
| `GrowthCount.SmallFilesReach` | pintos/src/filesys/inode.c:398-614 | up to 744 data sectors the size limit never stops a growth, and past the index it always does |
| `GrowthCount.EarlyStep` | pintos/src/filesys/inode.c:398-495 | a turn of the loop of inode_grow below the outer block leaves the foretold end as it was |
| `GrowthCount.EarlyCut` | pintos/src/filesys/inode.c:477-612 | a new leaf or outer block that the limit cannot fill means that the growth was foretold to be cut |
| `GrowthCount.LeafStep` | pintos/src/filesys/inode.c:517-561 | filling a leaf of the outer block leaves the foretold end as it was |
| `GrowthCount.StuckStep` | pintos/src/filesys/inode.c:517-561 | a growth that has to go past a full leaf the outer record points into was foretold to hang |
| `GrowthCount.LimitStep` | pintos/src/filesys/inode.c:563-590 | whole leaves that meet the limit exactly: foretold to stop short |
| `GrowthCount.InnerCut` | pintos/src/filesys/inode.c:563-590 | whole leaves that overshoot the limit: foretold to be cut |
| `GrowthSteps.LeafFilled` | pintos/src/filesys/inode.c:430-475 | appending data to the last leaf of a well-formed file keeps it well formed |
| `GrowthSteps.SingleAdded` | pintos/src/filesys/inode.c:477-495 | a new leaf in the inode keeps the file well formed and its bytes |
| `GrowthSteps.OuterAdded` | pintos/src/filesys/inode.c:593-613 | a new outer block does |
| `GrowthSteps.InnerAdded` | pintos/src/filesys/inode.c:563-590 | a new leaf under the outer block does |
| `GrowthSteps.OuterTells` | pintos/src/filesys/inode.c:515-526 | the outer block's recorded length may lag, but only within the leaf that holds the end of the file, which is the leaf inode_grow then looks at |
| `InodeGrowth.GrowDirect` | pintos/src/filesys/inode.c:401-424 | one turn on the direct sectors: more bytes, all zero, or out of space with fewer sectors free than needed |
| `InodeGrowth.GrowLeaf` | pintos/src/filesys/inode.c:430-475 | one turn that fills a leaf: the leaf records its bytes and the file stays well formed |
| `InodeGrowth.GrowSingle` | pintos/src/filesys/inode.c:477-495 | one turn that adds a leaf to the inode |
| `InodeGrowth.GrowOuter` | pintos/src/filesys/inode.c:593-613 | one turn that adds the outer block |
| `InodeGrowth.AddInnerLeaves` | pintos/src/filesys/inode.c:563-590 | the loop that adds leaves under the outer block, whose own record is written only afterwards |
| `InodeGrowth.GrowTurn` | pintos/src/filesys/inode.c:398-614 | one turn of the whole loop keeps: well-formed file, old bytes, foretold end, sectors needed |
| `InodeGrowth.Grow` | pintos/src/filesys/inode.c:386-619 | for every file, every growth and every free map: it runs out of space if and only if fewer sectors are free than `GrowthSteps.Toll` tells from the lengths before the call; else it takes just those and ends exactly as `GrowthSteps.Fate` tells (reaches the goal, stops short, is cut off, or never ends); old bytes are kept, new ones are zero, no other sector in use changes |
| `InodeGrowth.TollIsNeed` | pintos/src/filesys/inode.c:386-619 | a growth foretold to reach its goal takes just the sectors that the longer file needs |
| `GrowthToll.EarlyToll` | pintos/src/filesys/inode.c:398-495 | a turn below the outer block takes its part of the sectors foretold, and the rest is still to come |
| `GrowthToll.OuterToll` | pintos/src/filesys/inode.c:593-613 | what adding the outer block asks for is within what is foretold, and is all of it if the growth is cut there |
| `GrowthToll.LeafToll` | pintos/src/filesys/inode.c:517-561 | the same for filling a leaf of the outer block, up to its end or the size limit |
| `GrowthToll.WholeToll` | pintos/src/filesys/inode.c:563-590 | the same for a new leaf of the outer block that gets all its sectors |
| `GrowthToll.WholeLeast` | pintos/src/filesys/inode.c:563-590 | and for one that the size limit cuts off |
| `InodeGrowth.NoTrouble` | pintos/src/filesys/inode.c:386-619 | no growth within 744 sectors is foretold to fail |
| `InodeGrowth.HangExample` | pintos/src/filesys/inode.c:517-561 | from 380929 bytes to 444929, far below the limit, inode_grow never returns |
| `InodeGrowth.CutExample` | pintos/src/filesys/inode.c:398-619 | an empty file grown to the full index is cut: its length then counts sectors it does not have |
| `InodeGrowth.ShortExample` | pintos/src/filesys/inode.c:563-590 | 114 full leaves under the outer block meet the limit exactly: growth stops short and the file stays whole |
| `InodeFree.FreeEntries` | pintos/src/filesys/inode.c:638-644 | releases the entries the length counts, or trips the assertion of free_map_release on the first that is not in use |
| `InodeFree.FreeUnder` | pintos/src/filesys/inode.c:646-659 | releases the data under a leaf and the leaf |
| `InodeFree.FreeAll` | pintos/src/filesys/inode.c:622-687 | frees exactly the sectors of the file and the inode, each once, if and only if the file has at most 744 data sectors; for every size how it ends and, if it comes to its end, the exact set it frees; no sector but the file's own and sector 0 is ever freed |
| `InodeFree.SectorZeroIsFreed` | pintos/src/filesys/inode.c:646-659 | removing a file of 746 data sectors comes to its end and frees sector 0 |
| `InodeFree.DoubleDataSurvives` | pintos/src/filesys/inode.c:646-659 | for a larger file the loop takes the outer block for a leaf and leaves its data in use |
| `FileData.ReadAt` | pintos/src/filesys/inode.c:788-845 | returns the bytes of the file from the offset on, as many as asked for and present |
| `FileData.StoreChunk` | pintos/src/filesys/inode.c:894-923 | storing a chunk changes those bytes of the file, keeps it well formed and touches no index block |
| `FileData.WriteWithin` | pintos/src/filesys/inode.c:874-929 | the loop stores exactly the part that lies within the file |
| `FileData.WriteAt` | pintos/src/filesys/inode.c:853-935 | for every well-formed file, buffer and offset: a returning write has stored what lies within the file, all of it exactly if the growth was foretold to reach its goal, with zeros in a gap; it panics if and only if fewer sectors are free than the growth takes; files that deny writes do not change; nothing but the file's own sectors changes |
| `FileData.OtherFilesKept` | pintos/src/filesys/inode.c:853-935 | a write leaves every other well-formed file well formed and its bytes the same |
| `FileLife.NewFile` | pintos/src/filesys/filesys.c:50-85 | allocating the inode sector and creating the file: fails if and only if the sectors are not free; then the inode's sector, unless it is sector 0, and the index blocks are free again and nothing else, an exact count told from the free map before |
| `FileLife.FailureKeeps` | pintos/src/filesys/inode.c:204-286 | a failed creation leaves as many sectors free as before if and only if none was free, or only one and that not sector 0 |
| `FileLife.LastWriteShows` | pintos/src/filesys/inode.c:853-935 | after any run of writes a byte is what the last write to cover it put there |
| `FileLife.UnwrittenShows` | pintos/src/filesys/inode.c:853-935 | a byte no write covers is as it was, or zero in a gap |
| `FileLife.WriteAll` | pintos/src/filesys/inode.c:853-935 | any run of writes within 744 sectors: the file reads as the plain byte sequence they describe, or the device lacked the sectors for the whole run |
| `FileLife.Lifetime` | pintos/src/filesys/inode.c:175-935 | create, any run of writes, read back, remove: succeeds if and only if the sectors the content comes to need are free, reads as the writes describe, and leaves the free map as it was; if it could not even be created, the number still free is exact |
| `FileLife.RemovalRestores` | pintos/src/filesys/inode.c:622-687 | releasing what was taken, in whatever order, restores the free map |
| `FileRuns.WriteTo` | pintos/src/filesys/inode.c:853-935 | one write among several open files: it takes the sectors its file needs or those were not free; all other files read as before |
| `FileRuns.WriteFiles` | pintos/src/filesys/inode.c:853-935 | any interleaving of writes to any number of open files is finished if and only if the sectors that all of them come to need are free, takes just those, and leaves each file reading as its own writes describe |
| `DiskBytes.RoundTrip` | pintos/src/filesys/inode.c:25-33 | an index block written as the 512 bytes of struct inode_disk is read back as itself, each field from its own word, with its magic number |
| `DiskBytes.ToByteCounts` | pintos/src/filesys/inode.c:25-33 | the bytes of a word are numbered as the machine numbers them |
| `DiskBytes.ReadNode` | pintos/src/filesys/cache.c:53-56 | reading a sector through the cache and decoding gives the index block that the file model has there |
| `DiskBytes.WriteNode` | pintos/src/filesys/cache.c:92-95 | encoding and writing through the cache stores that index block and no other change |
| `DiskBytes.ReadData` | pintos/src/filesys/cache.c:59-89 | the same for reads of data sectors |
| `DiskBytes.WriteData` | pintos/src/filesys/cache.c:98-126 | the same for writes of data sectors |
| `CachedFiles.SectorOf` | pintos/src/filesys/inode.c:117-156 | byte_to_sector with its index blocks read through the cache ends at the sector of the file model |
| `CachedFiles.Read` | pintos/src/filesys/inode.c:788-845 | inode_read_at over the cache returns the bytes of the file and changes nothing of the disk as seen |
| `CachedFiles.Write` | pintos/src/filesys/inode.c:874-929 | the loop of inode_write_at over the cache stores what lies within the file, keeps it well formed, and touches no sector outside it |
| `CachedFiles.Restart` | pintos/src/filesys/cache.c:180-194 | what was written within a file and flushed is what a cache newly set up on the device reads |
| `BufferCache.CachedWrite` | pintos/src/filesys/cache.c:98-126 | a write to a cached sector changes that sector of the disk as callers see it and no other |
| `BufferCache.WriteBack` | pintos/src/filesys/cache.c:160-171 | writing an entry back changes nothing a caller sees |
| `BufferCache.Load` | pintos/src/filesys/cache.c:129-177 | replacing a clean or unused entry changes nothing a caller sees |
| `BufferCache.Cache.constructor` | pintos/src/filesys/cache.c:33-50 | an empty cache shows the device |
| `BufferCache.Cache.Choose` | pintos/src/filesys/cache.c:131-158 | the entry taken is the first unused one; if all are in use, a least accessed one, the first of these from the victim index on if there is one |
| `BufferCache.Cache.ReadAt` | pintos/src/filesys/cache.c:59-89 | returns the bytes of the disk as seen, changes nothing of it, and counts one access of that sector and no other |
| `BufferCache.Cache.WriteAt` | pintos/src/filesys/cache.c:98-126 | patches one sector of the disk as seen, and counts one access and one write of it |
| `BufferCache.Cache.Flush` | pintos/src/filesys/cache.c:180-194 | afterwards the device is the disk as seen; no entry is dirty, and the table is else as it was |
| `BufferCache.Run` | pintos/src/filesys/cache.c:59-194 | any run of reads, writes and flushes returns what an uncached disk returns: the write-back cache refines it |
| `Bitmaps.MarkBit` | pintos/src/lib/kernel/bitmap.c:157-166 | the or instruction sets one bit of a word and leaves the others |
| `Bitmaps.ResetBit` | pintos/src/lib/kernel/bitmap.c:170-179 | the and instruction clears one bit of a word and leaves the others |
| `Bitmaps.Bitmap.constructor` | pintos/src/lib/kernel/bitmap.c:79-94 | every bit is false, whatever the words held |
| `Bitmaps.Bitmap.Set` | pintos/src/lib/kernel/bitmap.c:145-153 | one bit of the sequence of bits changes |
| `Bitmaps.Bitmap.SetMultiple` | pintos/src/lib/kernel/bitmap.c:218-228 | exactly the bits of the range change |
| `Bitmaps.Bitmap.Contains` | pintos/src/lib/kernel/bitmap.c:251-263 | whether some bit of the range has the value |
| `Bitmaps.Bitmap.Scan` | pintos/src/lib/kernel/bitmap.c:296-310 | the first run of cnt equal bits at or after start, or an error if there is none |
| `Bitmaps.Bitmap.ScanAndFlip` | pintos/src/lib/kernel/bitmap.c:320-326 | finds that run and flips exactly it |
| `SwapArea.FirstFitIsAligned` | pintos/src/vm/swap.c:43-60 | first fit over single sectors always finds an aligned group of eight, and fails only when every group is in use: no fragmentation |
| `SwapArea.FillKeepsGroups` | pintos/src/vm/swap.c:25-60 | taking or freeing an aligned group keeps the area unfragmented |
| `SwapArea.Swap.SwapOut` | pintos/src/vm/swap.c:43-60 | stores the page under a slot not in use and keeps every other page; fails exactly when all slots are in use |
| `SwapArea.Swap.SwapIn` | pintos/src/vm/swap.c:25-40 | returns what was swapped out to the slot and frees it; a slot not in use trips the assertion |
| `PagingState.EvictionIsInvisible` | pintos/src/vm/frame.c:168-197 | saving and unmapping a page keeps the invariant and what every process sees |
| `PagingState.LoadIsInvisible` | pintos/src/userprog/exception.c:178-213 | bringing a page back in does |
| `PagingState.AccessedBitsAreInvisible` | pintos/src/vm/frame.c:137-160 | clearing accessed bits does |
| `PagingState.PinsAreInvisible` | pintos/src/vm/frame.c:84-105 | pinning does |
| `PagingState.TakeIsInvisible` | pintos/src/vm/frame.c:116-132 | taking a free frame does |
| `PagingState.FreeIsInvisible` | pintos/src/vm/frame.c:208-216 | freeing a frame does |
| `PagingState.StoreIsLocal` | pintos/src/userprog/exception.c:178-213 | a store changes one byte of one page of one process's view, so no two pages share a frame |
| `PagingState.NewEntry` | pintos/src/vm/page.c:41-57 | a new lazy entry shows its file page or zeros, and nothing else changes |
| `PagingState.GrowthShowsTheFrame` | pintos/src/userprog/exception.c:224-236 | a new stack page shows what its frame held; the invariant survives if and only if that is zero and no swap slot of the page is lost |
| `Paging.ClockStep` | pintos/src/vm/frame.c:137-160 | one turn of the clock keeps what is known of the frames passed |
| `Paging.ClockFound` | pintos/src/vm/frame.c:137-160 | the frame found is the second-chance victim of the accessed bits before the scan |
| `Paging.VictimIsUnique` | pintos/src/vm/frame.c:137-160 | there is only one such frame |
| `Paging.VirtualMemory.ClockScan` | pintos/src/vm/frame.c:137-160 | within two rounds it finds that victim, or every frame is pinned; it clears the accessed bits of exactly the frames it passed |
| `Paging.VirtualMemory.Evict` | pintos/src/vm/frame.c:168-197 | the panic on a full swap device comes exactly when the victim has to be saved and no slot is free; else nothing seen changes |
| `Paging.VirtualMemory.GetFrame` | pintos/src/vm/frame.c:108-205 | no frame exactly if none is free and all are pinned; the panic exactly if the unique victim cannot be saved; a free frame is cleared on request, a victim's is not |
| `Paging.VirtualMemory.FreeFrame` | pintos/src/vm/frame.c:208-216 | the frame goes back to the pool and nothing seen changes |
| `Paging.VirtualMemory.FaultIn` | pintos/src/userprog/exception.c:171-217 | a fault on an owned page resumes with the page mapped and the same memory, is killed or panics, each under its exact condition; it pins its own frame if and only if the kernel faulted, and changes no other pin |
| `Paging.VirtualMemory.GrowStack` | pintos/src/userprog/exception.c:219-239 | the new stack page is zero if and only if a frame was free or the victim's frame happened to be zero |
| `Paging.VirtualMemory.PageFault` | pintos/src/userprog/exception.c:169-242 | the whole handler, the page table of either attempt being there or not: each of its four ends under its exact condition; a page near the stack whose load failed for want of a page table is replaced by zeros if and only if the second attempt has one; pins as for `FaultIn`, and a page in a pinned frame stays in it |
| `Paging.VirtualMemory.Touch` | pintos/src/userprog/exception.c:169-242 | one access sees and changes what memory without paging would, or ends for the reason told from the state before |
| `Paging.VirtualMemory.Run` | pintos/src/vm/frame.c:108-216 | any run of accesses, mappings and pins by any processes sees what memory without paging shows; it stops only for a reason told by the state where it stops; with as many free frames as events it does not stop, and with as many free swap slots the swap device does not fill up; a page in a pinned frame stays there until the frame is unpinned; if only user code runs, the pins never change and it never stops for want of an unpinned frame that there was at the start |
| `Paging.EvictionHolds` | pintos/src/vm/frame.c:137-197 | evicting the page of an unpinned frame moves no page of a pinned one |
| `PagingRuns.LoadSees` | pintos/src/userprog/exception.c:192-208 | over any run, with any faults and evictions in it, a load returns the byte of the last store to that place that went through; else the byte of the file the page was mapped from, zero past its end, on zero pages and on new stack pages |
| `PagingRuns.FirstLoadSees` | pintos/src/userprog/exception.c:169-242 | the same for pages there from the start |
| `PagingRuns.StoreGoesThrough` | pintos/src/userprog/exception.c:169-242 | a store to a page goes through if and only if the page was mapped writable or is a stack page, however late it comes |
| `PagingRuns.AbsentShowsNothing` | pintos/src/userprog/exception.c:219-242 | an access to a page that no event has brought into being shows nothing |
| `Paging.EnoughFrames` | pintos/src/vm/frame.c:116-132 | fewer events than free frames at the start cannot run out of frames |
| `Paging.EnoughSwap` | pintos/src/vm/swap.c:43-60 | fewer events than free slots at the start cannot fill the swap device |
| `Paging.LostPageExample` | pintos/src/userprog/exception.c:172-239 | a file page that is not zero and a free frame, the state in which the page is lost |
| `Paging.StaleStackExample` | pintos/src/userprog/exception.c:224-236 | a state with one frame in which a new stack page shows a byte of another page |
| `Paging.StaleStackEnds` | pintos/src/userprog/exception.c:224-236 | so an access to it departs from memory without paging though swap space is left |
| `ListOrder.MergeIsSorted` | pintos/src/lib/kernel/list.c:380-399 | merging two sorted sequences gives a sorted one |
| `ListOrder.MergeIsStable` | pintos/src/lib/kernel/list.c:380-399 | elements that compare equal keep their order, the first run first |
| `ListOrder.StableIsPermutation` | pintos/src/lib/kernel/list.c:405-440 | a stable rearrangement loses and invents nothing |
| `LinkedLists.List.Splice` | pintos/src/lib/kernel/list.c:184-204 | relinking by pointers cuts the range out and joins it in before the element, and keeps both directions of links well formed |
| `LinkedLists.SplicedIsCut` | pintos/src/lib/kernel/list.c:184-204 | the redirected links, place by place, are that cut and join |
| `LinkedLists.List.Insert` | pintos/src/lib/kernel/list.c:169-178 | the element comes to lie just before the given one |
| `LinkedLists.List.FindEndOfRun` | pintos/src/lib/kernel/list.c:358-372 | the longest nondecreasing run from there |
| `LinkedLists.List.InplaceMerge` | pintos/src/lib/kernel/list.c:380-399 | the two runs are replaced, in place, by their stable merge and the rest of the list stays |
| `ListSort.Pass` | pintos/src/lib/kernel/list.c:420-435 | one pass at least halves the number of runs, rounded up, and is a stable rearrangement |
| `ListSort.Sort` | pintos/src/lib/kernel/list.c:405-440 | for every list and every strict weak order: a sorted, stable permutation; terminates |
| `ListSort.InsertOrdered` | pintos/src/lib/kernel/list.c:446-459 | the element goes before the first greater one |
| `ListSort.InsertionKeepsOrder` | pintos/src/lib/kernel/list.c:446-459 | a sorted list stays sorted and equal elements stay in order of arrival |
| `Arithmetic.Nlz` | pintos/src/lib/arithmetic.c:42-73 | shifting left by the result makes the highest bit set and loses nothing |
| `Arithmetic.Divl` | pintos/src/lib/arithmetic.c:26-37 | the divide error comes exactly when the divisor is zero or the quotient needs more than 32 bits |
| `Arithmetic.EstimateIsClose` | pintos/src/lib/arithmetic.c:121-124 | dividing by the high bits of the divisor is too large by at most one |
| `Arithmetic.Udiv64` | pintos/src/lib/arithmetic.c:78-127 | for all 64-bit operands the exact quotient; only a zero divisor traps |
| `Arithmetic.Umod64` | pintos/src/lib/arithmetic.c:132-135 | the low 32 bits of the remainder |
| `Arithmetic.Umod64IsExact` | pintos/src/lib/arithmetic.c:132-135 | that is the remainder for every dividend if and only if the divisor is at most 2^32 |
| `Arithmetic.Sdiv64` | pintos/src/lib/arithmetic.c:140-146 | the quotient toward zero, cut to 64 bits |
| `Arithmetic.Sdiv64IsExact` | pintos/src/lib/arithmetic.c:140-146 | that is the quotient toward zero if and only if it is not -2^63 divided by -1 |
| `Arithmetic.Smod64` | pintos/src/lib/arithmetic.c:151-154 | the low 32 bits of the remainder that takes the sign of the dividend |
| `Arithmetic.Smod64IsExact` | pintos/src/lib/arithmetic.c:151-154 | that is the remainder for every dividend if and only if the divisor is at most 2^31 in magnitude |
| `Threads.BootInv` | pintos/src/threads/thread.c:96-127 | the state after thread_start satisfies the invariant |
| `Threads.YieldKeepsInv` | pintos/src/threads/thread.c:359-372 | thread_yield keeps the invariant |
| `Threads.ExitKeepsInv` | pintos/src/threads/thread.c:333-354 | thread_exit keeps it |
| `Threads.SemaDownKeepsInv` | pintos/src/threads/synch.c:61-76 | one pass of sema_down keeps it: the thread blocks or takes the semaphore |
| `Threads.SemaUpKeepsInv` | pintos/src/threads/synch.c:109-121 | sema_up keeps it: a waiter is woken and the value goes up before it runs |
| `Threads.SetHolderKeepsInv` | pintos/src/threads/synch.c:193-201 | the end of lock_acquire keeps it |
| `Threads.ClearHolderKeepsInv` | pintos/src/threads/synch.c:229-236 | the first step of lock_release keeps it |
| `Threads.UnlockKeepsInv` | pintos/src/threads/synch.c:229-236 | the second step keeps it |
| `Threads.SleepKeepsInv` | pintos/src/threads/thread.c:242-255 | thread_sleep keeps it, the sleep list in order of alarm time |
| `Threads.TimerKeepsInv` | pintos/src/devices/timer.c:176-183 | a timer tick keeps it |
| `Threads.RunKeepsInv` | pintos/src/threads/thread.c:359-372 | so every reachable state satisfies it, whatever the interleaving |
| `Threads.MutualExclusion` | pintos/src/threads/synch.c:193-236 | in every reachable state at most one thread is between acquiring and releasing a lock, and the holder field names no other |
| `Threads.NoLostWakeup` | pintos/src/threads/synch.c:61-121 | in every reachable state a semaphore with waiters has no more value than there are woken threads on their way, and value plus downs equals initial value plus ups |
| `Threads.OnePlace` | pintos/src/threads/thread.c:573-648 | in every reachable state a thread is on the processor, on one list, or idle, as its status says |
| `Threads.TimerWakesTheDue` | pintos/src/devices/timer.c:176-183 | a tick moves exactly the sleepers whose time has come, in order, to the end of the ready list |
| `ThreadRuns.SleepsAsAsked` | pintos/src/devices/timer.c:89-102 | a thread that asks for some ticks and then goes to sleep is on the sleep list in every state of every run up to the first tick that is that many past its asking and past its going to sleep; exactly that tick puts it on the ready list |
| `ThreadRuns.TimerTicks` | pintos/src/devices/timer.c:176-183 | an interrupt that gets through is one tick |
| `ThreadRuns.FirstComeFirstServed` | pintos/src/threads/synch.c:61-122 | over any run the waiters of a semaphore are those that blocked, in that order, less the first ones, as many as were woken |
| `ThreadRuns.MakesWay` | pintos/src/threads/thread.c:333-375 | a thread that yields or exits makes way for the first of the ready list, where one that yields has gone to the end; the idle thread runs only if the list is empty |
| `ThreadRuns.CreateQueues` | pintos/src/threads/thread.c:175-223 | a new thread stands at the end of the ready list |
| `ThreadRuns.DownTakes` | pintos/src/threads/synch.c:61-78 | sema_down goes on with one less if and only if the value is positive, else the caller is the last waiter |
| `ThreadRuns.TryDownTakes` | pintos/src/threads/synch.c:84-101 | sema_try_down takes one if and only if the value is positive |
| `ThreadRuns.UpGives` | pintos/src/threads/synch.c:109-124 | sema_up always goes through: one more, and the first waiter is ready |
| `ThreadRuns.AcquireTakes` | pintos/src/threads/synch.c:193-201 | lock_acquire makes the caller holder in two steps if the lock is free, else its last waiter |
| `ThreadRuns.ReleaseGivesBack` | pintos/src/threads/synch.c:229-236 | the holder gives the lock back in two steps: nobody is inside, the semaphore is 1, and the first waiter is ready |
| `Threads.ReadyThreadRuns` | pintos/src/threads/thread.c:573-648 | the thread at place i of the ready list is on the processor by the (i+1)-th call of schedule: no starvation |
| `ThreadMachine.Machine.constructor` | pintos/src/threads/thread.c:96-127 | the machine starts in the boot state and is valid |
| `ThreadMachine.Machine.ThreadYield` | pintos/src/threads/thread.c:359-372 | valid again, in the state that the step machine says |
| `ThreadMachine.Machine.ThreadExit` | pintos/src/threads/thread.c:333-354 | the same for thread_exit |
| `ThreadMachine.Machine.DownTurn` | pintos/src/threads/synch.c:61-76 | the same for a pass of sema_down, with whether it got the semaphore |
| `ThreadMachine.Machine.TryDown` | pintos/src/threads/synch.c:84-102 | succeeds exactly if the value is positive, else nothing changes |
| `ThreadMachine.Machine.Raise` | pintos/src/threads/synch.c:109-121 | the same for sema_up |
| `ThreadMachine.Machine.Leave` | pintos/src/threads/synch.c:229-236 | the same for the end of lock_release |
| `ThreadMachine.Machine.ThreadSleep` | pintos/src/threads/thread.c:242-255 | the same for thread_sleep, by the insertion loop on the sleep list |
| `ThreadMachine.Machine.TimerInterrupt` | pintos/src/devices/timer.c:176-183 | wakes exactly the due sleepers, in order |
| `ThreadMachine.Machine.Perform` | pintos/src/threads/thread.c:573-648 | any one action, skipped if it cannot come next |
| `ThreadMachine.Machine.Run` | pintos/src/threads/synch.c:61-236 | the mutable machine refines the step machine over any run; no wakeup is lost, locks exclude, sleepers are in order |
| `Conditions.NextKeeps` | pintos/src/threads/synch.c:288-338 | every step of cond_wait, cond_signal and cond_broadcast, and of the lock around them, keeps the invariant |
| `Conditions.RunKeeps` | pintos/src/threads/synch.c:288-338 | so does every interleaving |
| `Conditions.BootInv` | pintos/src/threads/synch.c:260-265 | fresh condition variables satisfy it |
| `Conditions.OneInside` | pintos/src/threads/synch.c:288-338 | in every run one thread at a time is inside, also while it joins a list or broadcasts |
| `Conditions.InOrder` | pintos/src/threads/synch.c:288-322 | in every run the waits are signalled in the order in which they joined, each at most once |
| `Conditions.ListedIsWaiting` | pintos/src/threads/synch.c:288-302 | a semaphore on the list belongs to a thread still in cond_wait, so its stack frame is there |
| `Conditions.NoneWakesUnsignalled` | pintos/src/threads/synch.c:288-302 | no thread gets past its semaphore without having been signalled |
| `Conditions.SignalledCanGo` | pintos/src/threads/synch.c:288-322 | no signal is lost: a signalled thread that still sleeps can go on |
| `Conditions.SignalWakesOne` | pintos/src/threads/synch.c:312-322 | a signal takes the first wait off one list, raises its semaphore and no other |
| `Conditions.BroadcastWakesAll` | pintos/src/threads/synch.c:331-338 | after as many turns as there were waits, whatever other threads do meanwhile, all of them are signalled |
| `Conditions.GetsTheLock` | pintos/src/threads/synch.c:288-338 | a thread outside, or awake again, gets the lock in one step if and only if nobody has it |
| `Conditions.ReleaseLetsIn` | pintos/src/threads/synch.c:229-236 | the holder that leaves has let go of the lock |
| `Conditions.WaitLetsGo` | pintos/src/threads/synch.c:288-302 | cond_wait by the holder goes through: it is on the list and the lock is free |
| `Conditions.SignalledComesBack` | pintos/src/threads/synch.c:288-322 | a signalled thread comes back to hold the lock, the lock being free |
| `Conditions.BroadcastEnds` | pintos/src/threads/synch.c:331-338 | a broadcast left alone empties its list in one turn a wait, and is over |
| `ExitProtocol.BootInv` | pintos/src/threads/thread.c:96-127 | the initial thread alone satisfies the invariant |
| `ExitProtocol.NextKeeps` | pintos/src/userprog/process.c:166-188 | every step of process_wait, thread_exit and thread_schedule_tail keeps the invariant |
| `ExitProtocol.RunKeeps` | pintos/src/threads/thread.c:333-354 | so does every interleaving |
| `ExitProtocol.FreedOnce` | pintos/src/threads/thread.c:598-625 | in every run a thread structure is freed at most once, and only after its exit semaphore was raised exactly once |
| `ExitProtocol.NoUseAfterFree` | pintos/src/userprog/process.c:166-188 | whatever structure a parent still refers to exists and has not been let go |
| `ExitProtocol.WaitReturnsFinalStatus` | pintos/src/userprog/process.c:166-188 | over any run a successful wait returns the value of the child's own last setting of its status, -1 if there was none, and no child is returned twice |
| `ExitProtocol.RunHas` | pintos/src/threads/thread.c:533 | over any run the status of a living thread is what it last set, -1 at first |
| `ExitProtocol.UserGoesOn` | pintos/src/threads/thread.c:175-223 | a new thread is the last child of its creator, with status -1; a thread that exits is on its way |
| `ExitProtocol.WaitSucceeds` | pintos/src/userprog/process.c:166-188 | once the child has announced its end, the five moves of the wait go through and return its status |
| `ExitProtocol.ExitAnnounces` | pintos/src/threads/thread.c:333-343 | an exiting thread lets all its children go and announces itself in two moves a child and one |
| `ExitProtocol.AnnouncedIsFreed` | pintos/src/threads/thread.c:343-353 | an announced thread whose exit_sema is raised is freed |
| `ExitProtocol.SecondWaitFails` | pintos/src/userprog/process.c:166-188 | a second wait for a child fails at once, whoever calls |
| `HeapSort.Heapify` | pintos/src/lib/stdlib.c:96-123 | floating element i down makes a heap from i on, of the same elements |
| `HeapSort.TakeLargest` | pintos/src/lib/stdlib.c:147-151 | one more of the largest elements is in its final place and the rest is a heap |
| `HeapSort.Sort` | pintos/src/lib/stdlib.c:131-152 | for every array and total preorder: a sorted permutation |
| `HeapSort.BinarySearch` | pintos/src/lib/stdlib.c:184-207 | finds an element equal to the key exactly if a sorted array has one |
| `Bits.IsPower` | pintos/src/lib/kernel/hash.c:336-340 | the bit trick tells powers of two |
| `Bits.RoundDown` | pintos/src/lib/kernel/hash.c:368-372 | turning off low bits until one is left gives the largest power of two at most n |
| `Bits.MaskIsRemainder` | pintos/src/lib/kernel/hash.c:305-310 | masking with a power of two less one is the remainder |
| `HashTable.Table.Find` | pintos/src/lib/kernel/hash.c:131-135 | the element with that key, if and only if there is one |
| `HashTable.Table.Insert` | pintos/src/lib/kernel/hash.c:98-110 | adds the element unless its key is there, and returns the one that has it |
| `HashTable.Table.Replace` | pintos/src/lib/kernel/hash.c:114-127 | the element takes the place of the one with its key |
| `HashTable.Table.Delete` | pintos/src/lib/kernel/hash.c:144-154 | removes and returns the element with that key |
| `HashTable.Table.Rehash` | pintos/src/lib/kernel/hash.c:351-413 | keeps every element, whether or not memory is found; with memory fewer than four elements per bucket on average |
| `HashTable.Table.Next` | pintos/src/lib/kernel/hash.c:218-235 | steps through the elements not yet visited; null exactly at the end |
| `HashTable.Table.VisitAll` | pintos/src/lib/kernel/hash.c:199-235 | an iteration visits every element exactly once |
| `HashTable.Run` | pintos/src/lib/kernel/hash.c:98-154 | any run of calls returns what a finite map returns, whichever resizes find memory |
| `MallocLayout.BlockOfArena` | pintos/src/threads/malloc.c:267-294 | block_to_arena inverts arena_to_block |
| `MallocLayout.BlocksApart` | pintos/src/threads/malloc.c:285-294 | the blocks of an arena do not overlap |
| `MallocState.LiveApart` | pintos/src/threads/malloc.c:89-154 | in every valid heap no two blocks in use overlap |
| `MallocState.TakeKeeps` | pintos/src/threads/malloc.c:148-153 | handing out a block keeps the heap valid |
| `MallocState.GrowKeeps` | pintos/src/threads/malloc.c:125-146 | adding an arena does |
| `MallocState.PutKeeps` | pintos/src/threads/malloc.c:238-242 | putting a block back does |
| `MallocState.ReturnKeeps` | pintos/src/threads/malloc.c:241-253 | giving an empty arena back does: none of its blocks stays on a free list |
| `Malloc.InitDescs` | pintos/src/threads/malloc.c:72-85 | seven classes, 16 to 1024 bytes |
| `Malloc.LargeEnough` | pintos/src/threads/malloc.c:105-120 | a block for a request is large enough if and only if the request is below 2^32-11; from 2^32-4107 to there no page is asked for and malloc returns null |
| `Malloc.WrapExample` | pintos/src/threads/malloc.c:105-120 | a request of 0xFFFFFFF5 bytes is granted one page, 4084 bytes |
| `Malloc.ArenasAreInUse` | pintos/src/threads/malloc.c:241-253 | every page held has a block in use: pages go back with their last block |
| `Malloc.Allocator.Malloc` | pintos/src/threads/malloc.c:89-154 | a new block apart from all others, with the granted size; null exactly if the size is zero, the page count wraps to zero, or a page is needed and there is none |
| `Malloc.Allocator.Free` | pintos/src/threads/malloc.c:218-264 | exactly that block is no longer in use |
| `Octal.Print` | pintos/src/lib/stdio.c:469-547 | the digits, padded to the width |
| `Octal.ParseField` | pintos/src/lib/ustar.c:129-162 | the value of the leading digits ended by a space or null, or failure, overflow included |
| `Octal.FieldRoundTrip` | pintos/src/lib/ustar.c:129-162 | what was printed is read back |
| `Ustar.StripPrefixes` | pintos/src/lib/ustar.c:65-73 | the loop computes the stripped name, which `Ustar.StripIs` characterises |
| `Ustar.StripRemoves` | pintos/src/lib/ustar.c:65-73 | what is dropped is a row of slashes, "./" and "../" and nothing else; what remains starts with none of them |
| `Ustar.StripIs` | pintos/src/lib/ustar.c:65-73 | there is only one such way to cut a name |
| `Ustar.HarmlessStays` | pintos/src/lib/ustar.c:65-73 | a name that starts with none of them is kept whole |
| `Ustar.StripIsSafe` | pintos/src/lib/ustar.c:65-73 | a stripped name is not empty, not "..", and starts with no slash, "./" or "../" |
| `Ustar.StripIsSuffix` | pintos/src/lib/ustar.c:65-73 | it is a suffix of the name, or "." |
| `Ustar.SumIgnoresField` | pintos/src/lib/ustar.c:36-54 | the checksum does not depend on the checksum field |
| `Ustar.MakeHeader` | pintos/src/lib/ustar.c:82-118 | fails exactly for stripped names over 99 bytes and then leaves the buffer alone; else the whole header |
| `Ustar.FixedFields` | pintos/src/lib/ustar.c:98-113 | the bytes of mode, owner, time, magic, version and user names |
| `Ustar.ParseHeader` | pintos/src/lib/ustar.c:181-227 | the entry, or the first error in the order of the checks |
| `Ustar.AcceptedIsSafe` | pintos/src/lib/ustar.c:181-227 | for every header: an accepted entry has a stripped name that is not empty, not ".." and starts with no slash, "./" or "../", a size that is an int, and a matching checksum; a header made for it parses to the same entry |
| `Ustar.OneByteIsNoticed` | pintos/src/lib/ustar.c:36-54 | one wrong byte outside the checksum field turns an accepted header into a refused one |
| `Ustar.RoundTrip` | pintos/src/lib/ustar.c:82-227 | for every name without a null byte, type and int size: parsing a made header gives back name, type and size; a negative size comes back as too large |

## Findings

What the code does other than its documentation or its own other half expects.  Each has an input that shows it and the
exact condition under which the code does what is expected.

| what happens | source | shown by | exactly when the code is right |
|---|---|---|---|
| `length_to_total_sectors` allows 124 leaves where the inode has 5, and undercounts | pintos/src/filesys/inode.c:59-70 | `GrowthCount.CountIsRight` | at most 744 data sectors, or more than 15619 |
| `inode_free_all` runs past the five leaves into the outer block, which it frees as a leaf; data stays in use for ever, and at 746 data sectors sector 0 is freed | pintos/src/filesys/inode.c:646-659 | `InodeFree.DoubleDataSurvives`, `InodeFree.SectorZeroIsFreed`, `InodeFree.FreeAll` | at most 744 data sectors |
| a creation that fails gives back index blocks and the inode's sector, but no data sector; and not sector 0 | pintos/src/filesys/inode.c:204-286 | `FileLife.NewFile` | no sector was free, or one that is not sector 0: `FileLife.FailureKeeps` |
| `inode_grow` fills a leaf of the outer block without recording it there, comes back to the full leaf and never ends | pintos/src/filesys/inode.c:517-561 | `InodeGrowth.HangExample` | `GrowthCount.Foretell` is not `Hangs`: the record is a whole number of leaves or the goal lies within its leaf |
| `inode_grow` adds the whole length of a leaf that the size limit cut short | pintos/src/filesys/inode.c:477-612 | `InodeGrowth.CutExample` | `GrowthCount.Foretell` is not `Cut`: see `CutsFrom` |
| `inode_create` past the size limit records a length that the index does not cover | pintos/src/filesys/inode.c:204-251 | `InodeCreate.CreatedFileIsWhole` | the file and its index blocks fit in 16384 sectors |
| a new stack page is not cleared when its frame comes from an eviction | pintos/src/userprog/exception.c:224-236 | `Paging.StaleStackExample`, `Paging.StaleStackEnds` | a frame is free, or the victim's frame is zero: `Paging.VirtualMemory.GrowStack` |
| a page near the stack that is not loaded for want of a page table is taken for a new stack page, its bytes and swap slot lost, if the second attempt finds one | pintos/src/userprog/exception.c:172-239 | `Paging.LostPageExample` | the first page-table allocation succeeds, or the second fails too: `Paging.VirtualMemory.PageFault` |
| `umod64` and `smod64` return 32 bits of a 64-bit remainder | pintos/src/lib/arithmetic.c:131-154 | `Arithmetic.Umod64IsExact`, `Arithmetic.Smod64IsExact` | divisors up to 2^32, or 2^31 in magnitude |
| `sdiv64` of -2^63 by -1 wraps | pintos/src/lib/arithmetic.c:139-146 | `Arithmetic.Sdiv64IsExact` | all other operands |
| `malloc` adds the arena header in 32 bits: the 11 largest requests get 4084 bytes | pintos/src/threads/malloc.c:105-120 | `Malloc.WrapExample` | requests below 2^32-11: `Malloc.LargeEnough` |
| a negative size makes a header that is later refused as too large | pintos/src/lib/ustar.c:106 | `Ustar.RoundTrip` | sizes that are not negative |

## Left out

- FileData.WriteAt: after a growth that was cut, what the write then does through index entries that were never filled is not described; the result is `Overruns` and only the frame of the growth is stated.
- FileLife.Lifetime: files of at most 744 sectors, because freeing works for no others.
- FileLife.NewFile: the same bound, for `Lifetime`; `InodeCreate.Create` has none.
- FileLife.WriteAll: the same bound; `FileData.WriteAt` has none.
- FileRuns.WriteTo: files of at most 744 sectors, where no growth hangs or is cut.
- FileRuns.WriteFiles: the same bound.
- CachedFiles.Write: reading and writing within a file run over the cache; creating, growing and freeing run over typed blocks only.
- Conditions.NextKeeps: the lock is taken and given back in one step, as `Threads.MutualExclusion` allows; lists and semaphores are values.
- Inodes.CreateDirect: out of memory in `calloc` is not modelled.
- Paging.VirtualMemory.PageFault: a fault is one step; races between faults of several threads are not modelled.
- BufferCache.Run: each call is one step; the counters are unbounded, and read-ahead and the flush thread are left to the order of calls.
- Threads.NoLostWakeup: semaphore values are unbounded.
- HashTable.Run: a bucket is a sequence, not a linked list.
- HeapSort.Sort: elements are values, not byte ranges of a buffer.
- LinkedLists.List.Splice: within one list; moving between two lists is not modelled.
- Arithmetic.Sdiv64: negation is on integers, cut to 64 bits as the casts do.
- ExitProtocol.NextKeeps: thread structures and semaphores are values; running out of pages in thread_create is not modelled.
- The free map's own file, inode opening and closing counts, directories and path names.
- Offsets and sizes whose sum overflows a 32-bit off_t.
- The end of a process's pages (spt_free_process), writing back mapped files, partly filled pages of executables, and load_segment over pages already mapped.
- Interrupt queues, the time slice, priorities.
- realloc and calloc, hash_clear and hash_apply.
- Devices, system calls, the rest of printf, command lines and debugging aids.
