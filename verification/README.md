# blog_os: a verified model of the kernel's stateful cores

blog_os is a small x86_64 kernel in Rust. This project models, in Dafny 4.11, the parts of it that keep
state against a simple abstract object, and proves what they keep over every run:

- **Simple file system** (`src/fs`). `Words`, `Bytes`, `Bitmaps`, `FsLayout` are the on-disk formats;
  `FsDevice` is the block device, any access to which may fail and leave a block partly transferred;
  `FsPlans` says which accesses each operation makes; `SimpleFs` is the code, proved to follow the plans;
  `FsInvariant`, `FsRuns`, `FsStart`, `FsLimits`, `FsDirectory`, `FsTorn`, `FsAllocation` prove properties of
  whole runs.
- **Executor, keyboard stream, interrupt handler** (`src/task`). `KernelModel` is a transition system
  with one step per access to a shared object; `Tasks` is the code, proved to make only such steps.
- **Linked-list heap** (`src/allocator/linked_list.rs`). `Alignment`, `Regions`, `HeapModel`, and the code
  with its in-memory free list in `LinkedListHeap`.
- **Fixed-size block allocator** (`src/allocator/fixed_size_block.rs`). `BlockModel`, `FixedSizeBlocks`.
- **VGA writer** (`src/vga_buffer.rs`): `Vga`. **Boot frame allocator** (`src/memory.rs`): `Frames`.

`dafny verify dfyconfig.toml` checks the project.

## Main results

1. Crash consistency holds in every run of mounts and file creations, with any failures and power lost at
   any access, if and only if the device has at least 10240 blocks (`FsLimits.CrashConsistency`); on a
   device that never fails, if and only if it has at least 20 (`FsLimits.ReliableConsistency`). The bitmap
   always has 4096 bits; on smaller devices an inode number beyond the table overwrites the root directory.
2. On a device that does not fail `create_file` is an insertion into a finite map, on every good disk
   (`FsDirectory.CreateIsInsert`). Entries never change over runs, whatever fails
   (`FsDirectory.EntriesOverRuns`). Names stay distinct if and only if no failed write stops inside a name of
   the directory block, that is, after p bytes with 192 <= p < 512 and p % 64 >= 11; the first file's slot is
   exempt (`FsTorn.DistinctNamesIffHarmless`). The last two are for devices of 10240 blocks or more.
3. A mount finds the superblock of `format` after every run (`FsDirectory.MountRecovers`), although `mount`
   drops the read error: the magic number is the last field, so a partial transfer that brings it brings the rest.
4. No wake-up of the keyboard task is lost, scancodes arrive once and in order, and tasks are polled first
   in, first out, in every interleaving (`KernelModel.KernelSafety`). Without new input every run ends, and with everything delivered
   (`KernelModel.EveryRunDelivers`), unless it starts in a state where the task queue may overflow; which
   states these are is exact (`KernelModel.OverflowsIff`, and `KernelModel.PromptOverflowsIff` for one
   processor). Such states occur: one task and 101 well-timed key presses suffice
   (`KernelModel.OverflowHappens`).
5. Free, live and skipped regions of the linked-list heap tile it exactly, so bytes are conserved, regions
   never overlap, every live region meets its layout (`HeapModel.HeapSafety`), and list nodes are never
   written into live memory.
6. The block allocator never holds more blocks of a class than were live at once (`BlockModel.HighWaterMark`).
7. The screen is the last 25 rows of an unbounded log of wrapped lines (`Vga.ScreenShowsLog`); no frame is
   handed out twice (`Frames.FramesOnce`).
8. No inode number is handed out twice, whatever fails, if and only if the superblock names block 1 as the
   inode bitmap: `allocate_inode` reads block 1 but writes the block that the superblock names, and `mount`
   accepts any (`FsAllocation.InodesNeverTwice`, `FsAllocation.InodeBitmapMustBeOne`). Data blocks need no
   such condition as long as no inode call writes over their bitmap (`FsAllocation.DataBlocksNeverTwice`,
   `FsAllocation.InodeBitmapMustNotBeTwo`).

Where the code and its comments differ the code is followed. The comment of `init` asks for a single call,
but `init_heap` calls it once per page, 25 times. With the linked-list allocator in place, some list describes
the memory if and only if there was one call (`LinkedListHeap.LinkedIffOneInit`). After a second one the first
allocation leaves the memory it returns on the free list (`LinkedListHeap.SecondInitOverlaps`), or never
returns (`LinkedListHeap.SecondInitSearch`).
`find_free_dir_slot` counts a used entry of inode 0 as free: `FsDirectory.AddEntryKeeps` gives the exact
condition under which `add_root_dir_entry` keeps all entries, and `FsDirectory.AddEntryDestroysDot` shows that
on every good disk it does not. An existing name is reported as `Corrupt`, not as `FileExists`.

## Model

| member | source | states |
|---|---|---|
| Bitmaps.FirstClear | src/fs/layout.rs:270-287 | the bit-by-bit search returns the least clear bit, and nothing exactly when all are set |
| Bitmaps.IsSetIsBit | src/fs/layout.rs:225-237 | bit i is the bit of weight 2^(i mod 8) of byte i / 8 |
| Bitmaps.Bitmap.Set | src/fs/layout.rs:241-252 | sets a clear bit, reports a set one and then changes nothing |
| Bitmaps.Bitmap.Clear | src/fs/layout.rs:256-268 | clears a set bit, reports a clear one and then changes nothing |
| Bitmaps.Bitmap.FindAndSetFirstFree | src/fs/layout.rs:270-287 | the scan that skips full bytes agrees with the bit-by-bit search and sets exactly the bit it returns |
| Bitmaps.SetBitEffect | src/fs/layout.rs:248-251 | setting a bit through its mask changes that bit and no other |
| Bitmaps.ClearBitEffect | src/fs/layout.rs:264-267 | clearing a bit changes that bit and no other |
| Bitmaps.ClearUndoesSet | src/fs/layout.rs:241-268 | clearing a bit just set restores the bytes |
| Bitmaps.SetBitCount | src/fs/layout.rs:270-287 | an allocation raises the number of set bits by one |
| Bitmaps.AllocationsIncrease | src/fs/layout.rs:270-287 | successive searches of one map that is never cleared return ever larger indices |
| FsLayout.SuperRoundTrip | src/fs/layout.rs:59-90 | the 64-byte form of a superblock decodes to it |
| FsLayout.SuperBytes | src/fs/layout.rs:28-40 | which bytes hold which field of the superblock, in little-endian order |
| FsLayout.InodeRoundTrip | src/fs/layout.rs:107-159 | the 128-byte form of an inode decodes to it, file type included |
| FsLayout.InodeBytes | src/fs/layout.rs:107-125 | which bytes hold which field of an inode; file types are 0, 1 and 2 |
| FsLayout.InodeOrNot | src/fs/layout.rs:305-315 | 128 bytes are an inode exactly when their file type is one of the three |
| FsLayout.EntryRoundTrip | src/fs/simple_fs.rs:214-226 | the 64-byte form of a directory entry decodes to its inode, length, flag and padded name |
| FsLayout.EntryBytes | src/fs/layout.rs:164-171 | every byte of an entry: inode, length, flag, name and fill value |
| FsLayout.PutInodeSlots | src/fs/simple_fs.rs:184-188 | a written inode slot reads back and the other slots of the block are unchanged |
| FsLayout.PutEntrySlots | src/fs/simple_fs.rs:211-228 | a written entry slot reads back and the other slots of the block are unchanged |
| FsDevice.Device.ReadBlocks | src/fs/block_dev.rs:15-20 | contract: a read brings the block, or a prefix of it if it fails |
| FsDevice.Device.WriteBlocks | src/fs/block_dev.rs:21-26 | contract: a write replaces the block, or a prefix of it if it fails |
| SimpleFs.DirEntryBlock.Next | src/fs/layout.rs:188-199 | yields the eight entries of the block in order and then nothing |
| SimpleFs.SFS.Format | src/fs/simple_fs.rs:27-69 | writes superblock and two empty bitmaps in that order, whatever fails; panics under three blocks, where the subtraction underflows |
| SimpleFs.SFS.Mount | src/fs/simple_fs.rs:72-91 | decodes whatever the possibly failed read left in the buffer and checks the magic number only |
| SimpleFs.SFS.AllocateInode | src/fs/simple_fs.rs:93-116 | reads block 1, writes the superblock's bitmap block, returns the least free index or an error |
| SimpleFs.SFS.AllocateDataBlock | src/fs/simple_fs.rs:119-137 | the same for data blocks, offset by the start of the data area |
| SimpleFs.SFS.ReadInode | src/fs/simple_fs.rs:139-162 | reads the slot of the index, with the errors of the source |
| SimpleFs.SFS.WriteInode | src/fs/simple_fs.rs:164-195 | read-modify-write of one slot |
| SimpleFs.SFS.WriteDirentIntoBlock | src/fs/simple_fs.rs:200-230 | writes one used entry, or refuses a name over 52 bytes |
| SimpleFs.SFS.FindFreeDirSlot | src/fs/simple_fs.rs:233-251 | the first slot that is unused or names inode 0 |
| SimpleFs.SFS.InitRootDirectory | src/fs/simple_fs.rs:254-298 | its seven accesses, in order, with the contents they write; the root inode is pinned by FsStart.FreshRoot |
| SimpleFs.SFS.AddRootDirEntry | src/fs/simple_fs.rs:300-331 | its accesses, in order, with the contents they write |
| SimpleFs.SFS.FindSlot | src/fs/simple_fs.rs:357-370 | a collision or an out-of-range name first, otherwise the first unused slot |
| SimpleFs.SFS.CreateFileInRoot | src/fs/simple_fs.rs:333-397 | bitmap, then inode, then directory entry; every error path |
| SimpleFs.SFS.CreateFile | src/fs/simple_fs.rs:446-458 | on a good disk: the handle is the inode that the name is then bound to, and each error has its literal cause; otherwise the plan with the error mapping of the trait |
| SimpleFs.CreateFileMeans | src/fs/simple_fs.rs:446-458 | the same for every good disk and any failures: invalid length, failed access, listed name, no slot or inode, or one new binding to the handle |
| FsRuns.CreateOnAnchored | src/fs/simple_fs.rs:333-397 | what a creation does wherever superblock and root inode are in place |
| FsRuns.MountTorn | src/fs/simple_fs.rs:72-91 | a partial transfer of block 0 mounts as the whole block or not at all |
| FsRuns.CreateSafe | src/fs/simple_fs.rs:333-397 | every access of a creation, and every fault at it, leaves a good disk with all entries kept |
| FsRuns.StepSound | src/fs/simple_fs.rs:333-397 | a mount, a creation or a creation cut off keeps the disk good |
| FsRuns.TornNames | src/fs/simple_fs.rs:391-394 | a directory write keeps names distinct wherever it stops outside the names of slot 3 and later |
| FsRuns.RunSound | src/fs/simple_fs.rs:333-397 | on at least 10240 blocks every run keeps the disk good and all entries, and names distinct if failed writes stop at harmless places |
| FsInvariant.MarkKeepsGood | src/fs/simple_fs.rs:103-113 | the bitmap write keeps the disk good wherever it stops |
| FsInvariant.InodeWriteKeepsGood | src/fs/simple_fs.rs:164-195 | writing an inode that nothing names keeps the disk good wherever it stops |
| FsInvariant.TornEntry | src/fs/layout.rs:166-171 | a partly written entry is unused or names its inode, since the flags follow inode and length |
| FsInvariant.TornInName | src/fs/layout.rs:166-171 | from offset 11 on it is in use, and its name is a part of the new one over the old bytes |
| FsInvariant.LinkKeepsGood | src/fs/simple_fs.rs:388-394 | adding an entry for a prepared inode keeps the disk good and all entries |
| FsStart.FormatPartitions | src/fs/simple_fs.rs:30-47 | for every capacity of at least 10, each block lies in exactly one area of the superblock |
| FsStart.FormatResult | src/fs/simple_fs.rs:27-69 | without failures format panics under three blocks and succeeds otherwise |
| FsStart.SuperImageBytes | src/fs/simple_fs.rs:49-56 | the magic number and the zeros behind it in block 0 |
| FsStart.InitRefusals | src/fs/simple_fs.rs:271 | on any disk a full data bitmap is no space and an overflowing block number a panic |
| FsStart.StartDisk | src/fs/simple_fs.rs:254-298 | the disk left whenever format and init_root_directory succeed; both need at least 4 blocks |
| FsStart.FreshRoot | src/fs/simple_fs.rs:273-287 | every field of the root inode: a directory with two links whose first pointer is the directory block |
| FsStart.FreshGood | src/fs/simple_fs.rs:254-298 | on at least 10 blocks that disk is good and its names are distinct |
| FsLimits.DirectoryIsNoInode | src/fs/simple_fs.rs:217-222 | read as an inode, a directory block has an invalid file type |
| FsLimits.CreateReliable | src/fs/simple_fs.rs:333-397 | the disk and result of a creation that finds a slot and an inode |
| FsLimits.Overrun | src/fs/layout.rs:278-280 | allocating the first inode beyond the table breaks consistency |
| FsLimits.SmallDiskBreaks | src/fs/simple_fs.rs:333-397 | under 10240 blocks: failed creations that lose inodes, then one that breaks consistency |
| FsLimits.FourFilesBreak | src/fs/simple_fs.rs:333-397 | under 20 blocks four successful creations break consistency |
| FsLimits.CrashConsistency | src/fs/simple_fs.rs:333-397 | every run, failing or cut off anywhere, is consistent if and only if there are at least 10240 blocks |
| FsLimits.ReliableConsistency | src/fs/simple_fs.rs:333-397 | every run without failures is consistent if and only if there are at least 20 blocks |
| FsDirectory.InodeTable | src/fs/simple_fs.rs:139-195 | write then read returns the inode; other indices and other blocks are unchanged |
| FsDirectory.IndexOverflow | src/fs/simple_fs.rs:139-195 | an index whose block number overflows panics without an access |
| FsDirectory.MountRecovers | src/fs/simple_fs.rs:72-91 | after every run a mount finds the superblock of format or reports an error, on any device of 10 blocks or more |
| FsDirectory.EntriesOverRuns | src/fs/simple_fs.rs:357-394 | over every run with any failures inodes stay distinct, lengths in range, entries once written never change, and root inode and file inodes have every field as created; names stay distinct if failed writes stop at harmless places |
| FsDirectory.CreateNeverPanics | src/fs/simple_fs.rs:359-368 | on a good disk the name slice is never out of range |
| FsDirectory.ScanExact | src/fs/simple_fs.rs:357-370 | on any block: what stops the search, and which slot it finds |
| FsDirectory.RootRefusals | src/fs/simple_fs.rs:342-350 | on any disk: no readable root inode is a block error, no directory there is corruption |
| FsDirectory.DirectoryRefusals | src/fs/simple_fs.rs:351-371 | on any disk: the outcome of every search that finds no free slot |
| FsDirectory.CreateIsInsert | src/fs/simple_fs.rs:333-397 | on every good disk: succeeds exactly when the name is good and absent, a slot is free and the block of the next free inode is on the device; then adds one binding, to an empty file with every field given unless its slot is in the directory block; otherwise keeps the listing, with the error of the source |
| FsDirectory.ReliableHasRoom | src/fs/simple_fs.rs:333-397 | after every run without failures on at least 20 blocks the next inode is in the table and names are distinct |
| FsDirectory.CreateAfterReliable | src/fs/simple_fs.rs:333-397 | after such a run a creation succeeds exactly when the name is good and absent and a slot is free, adds one binding to an inode in place, and otherwise changes nothing |
| FsDirectory.FreeSlotExact | src/fs/simple_fs.rs:233-251 | the first entry that is unused or names inode 0 |
| FsDirectory.AddEntryKeeps | src/fs/simple_fs.rs:300-331 | keeps every entry if and only if the slot it picks is unused or already holds that entry; and its result |
| FsDirectory.AddEntryDestroysDot | src/fs/simple_fs.rs:233-251 | on every good disk it picks the slot of "." and destroys it |
| FsTorn.TornWriteDuplicatesName | src/fs/simple_fs.rs:391-394 | for every place inside a name in slot 3 or later, a run whose only failed write stops there duplicates a name |
| FsTorn.DistinctNamesIffHarmless | src/fs/simple_fs.rs:357-394 | for every set of places where failed writes may stop: names stay distinct in every run if and only if none of them lies inside a name in slot 3 or later |
| FsAllocation.InodesNeverTwice | src/fs/simple_fs.rs:93-116 | on a given disk, over all runs with any failures, inodes returned strictly increase if and only if the superblock names block 1 or no call can succeed |
| FsAllocation.CallExact | src/fs/simple_fs.rs:93-137 | without failures a call returns the first clear bit, no space, or panics on an overflowing block number |
| FsAllocation.InodeBitmapMustBeOne | src/fs/simple_fs.rs:93-116 | they do so on every disk if and only if the superblock names block 1; otherwise two calls return the same inode |
| FsAllocation.DataBlocksNeverTwice | src/fs/simple_fs.rs:119-137 | data blocks returned strictly increase over all runs of data calls, under any superblock and with any failures |
| FsAllocation.InodeBitmapMustNotBeTwo | src/fs/simple_fs.rs:93-137 | in runs that mix both calls they do so on every disk if and only if the inode bitmap is not block 2, or only one block number can be returned |
| Alignment.AlignUpIsLeast | src/allocator.rs:118-123 | the mask form is the least multiple not below the address, for every power of two |
| HeapModel.SizeAlignIsRequest | src/allocator/linked_list.rs:139-151 | the adjusted layout covers the request and can hold a node |
| HeapModel.SizeAlignExact | src/allocator/linked_list.rs:139-151 | the larger alignment, and the least multiple of it that covers the request but at least 16; a panic exactly when that is out of range |
| HeapModel.AllocFromRegionExact | src/allocator/linked_list.rs:111-133 | accepts a region exactly when the least aligned start leaves 0 or at least 16 bytes, and returns that start |
| HeapModel.FirstFit | src/allocator/linked_list.rs:82-106 | the first accepted region in list order |
| HeapModel.AllocKeepsOk | src/allocator/linked_list.rs:159-181 | an allocation keeps the tiling; the result is aligned; null exactly when no region fits |
| HeapModel.FreeKeepsOk | src/allocator/linked_list.rs:183-192 | a release keeps the tiling |
| HeapModel.AllocServes | src/allocator/linked_list.rs:139-181 | a successful allocation is aligned and large enough for the layout asked for |
| HeapModel.HeapSafety | src/allocator/linked_list.rs:50-192 | over every run regions are disjoint and inside the heap, free, live and skipped bytes add up to it, and every live region meets the layout it was allocated for |
| HeapModel.FreeAndLiveTile | src/allocator/linked_list.rs:50-192 | with alignments of at most 8 every heap address is in exactly one free or live region |
| LinkedListHeap.LinkedListAllocator.constructor | src/allocator/linked_list.rs:31-48 | one region covering the heap, written into the heap only |
| LinkedListHeap.LinkedListAllocator.InitHeap | src/allocator.rs:81-92 | one call of init per page: memory and head after n calls |
| LinkedListHeap.LinkedListAllocator.AddFreeRegion | src/allocator/linked_list.rs:50-72 | writes a node in front of whatever the head points to; the two assertions hold |
| LinkedListHeap.LinkedListAllocator.FindRegion | src/allocator/linked_list.rs:82-106 | wherever the search ends: unlinks exactly the first region that suits, or changes nothing |
| LinkedListHeap.LinkedListAllocator.Alloc | src/allocator/linked_list.rs:159-181 | refines the allocation step, returns a pointer aligned for the layout to a live region large enough for it, and writes into free regions only |
| LinkedListHeap.AllocRefines | src/allocator/linked_list.rs:159-181 | on a linked list the effect on memory leaves the list of the allocation step |
| LinkedListHeap.LinkedListAllocator.Dealloc | src/allocator/linked_list.rs:183-192 | refines the release step and writes into the released region only |
| LinkedListHeap.UnlinkRemoves | src/allocator/linked_list.rs:93-97 | relinking removes one node and keeps the order of the rest |
| LinkedListHeap.LiveUntouched | src/allocator/linked_list.rs:66-71 | what is written inside free regions leaves every live allocation alone |
| LinkedListHeap.ClientKeepsList | src/allocator/linked_list.rs:50-72 | what a client writes into its own live region leaves the list linked |
| LinkedListHeap.LinkedIffOneInit | src/allocator.rs:81-92 | after n calls of init some list describes the memory if and only if n is 1 |
| LinkedListHeap.SecondInitSearch | src/allocator.rs:81-92 | after more calls a search ends if and only if the whole heap suits the request |
| LinkedListHeap.SecondInitOverlaps | src/allocator.rs:81-92 | then the first allocation leaves the memory it returns on a well-formed free list |
| BlockModel.ListIndexServes | src/allocator/fixed_size_block.rs:65-68 | the smallest class that meets size and alignment; none only above 2048 bytes |
| BlockModel.BlockSizeDoubles | src/allocator/fixed_size_block.rs:17 | class c has blocks of 8 * 2^c bytes |
| BlockModel.ListIndexExact | src/allocator/fixed_size_block.rs:65-68 | the least class that reaches size and alignment, none exactly above 2048 |
| BlockModel.FallbackExact | src/allocator/fixed_size_block.rs:75-102 | the fallback is asked for one block aligned to its size, or for exactly a large layout |
| BlockModel.StepKeepsOk | src/allocator/fixed_size_block.rs:75-134 | listed plus live blocks are exactly what the fallback granted, after every step |
| BlockModel.BlockSafety | src/allocator/fixed_size_block.rs:75-134 | over every run blocks never overlap, listed blocks are aligned, live ones meet their layouts |
| BlockModel.LiveNotListed | src/allocator/fixed_size_block.rs:112-124 | a live block is on no list |
| BlockModel.HighWaterMark | src/allocator/fixed_size_block.rs:75-134 | blocks obtained equal listed plus live blocks and the largest number ever live at once |
| BlockModel.AlternatingNeedsOneBlock | tests/heap_allocation.rs:59-81 | allocating and freeing in turn needs one block, however long |
| BlockModel.FreeUndoesAlloc | src/allocator/fixed_size_block.rs:104-134 | a released block returns to the list or the heap it came from |
| FixedSizeBlocks.Fallback.AllocateFirstFit | src/allocator/fixed_size_block.rs:51-59 | contract: an aligned region apart from all others granted |
| FixedSizeBlocks.FixedSizeBlockAllocator.Alloc | src/allocator/fixed_size_block.rs:75-102 | refines the allocation step; writes only into the block it returns |
| FixedSizeBlocks.FixedSizeBlockAllocator.Dealloc | src/allocator/fixed_size_block.rs:104-134 | refines the release step; writes only into the released block |
| KernelModel.WakeupStep | src/task/keyboard.rs:73-100 | every step keeps the keyboard task armed or coming, and no wake-up is lost |
| KernelModel.DeliveryStep | src/task/keyboard.rs:18-31 | every step keeps delivered, in hand and queued scancodes equal to those accepted |
| KernelModel.ExecutorStep | src/task/executor.rs:46-68 | every step keeps due live tasks queued and cached wakers within the tasks |
| KernelModel.LogStep | src/task/executor.rs:50-66 | no task is polled after it completed, despite stale queue entries |
| KernelModel.PollsStep | src/task/executor.rs:50-66 | polls are the pops of live tasks in order |
| KernelModel.FifoStep | src/task/executor.rs:50 | ids come off the task queue in the order in which they went on it |
| KernelModel.CacheStep | src/task/executor.rs:55-64 | a waker is cached for exactly the live tasks that have been polled |
| KernelModel.EndOfPoll | src/task/executor.rs:59-66 | a poll that returns Ready removes the task and its waker, one that returns Pending keeps both |
| KernelModel.LeavesWhenReady | src/task/executor.rs:26-66 | over every run a task is there exactly from its spawn until a poll of it returns Ready |
| KernelModel.DueExact | src/task/executor.rs:99-101 | over every run a task is due from the step that queues it until its next poll begins |
| KernelModel.LiveStep | src/task/mod.rs:49-57 | a task is live from its spawn to its completion |
| KernelModel.KernelSafety | src/task/executor.rs:46-68 | all of these in every interleaving |
| KernelModel.DroppedOnlyWhenFull | src/task/keyboard.rs:18-31 | over every run all that the keyboard sends is delivered, in hand or waiting, in order, if and only if on each arrival the queue exists and has fewer than 100 |
| KernelModel.SleepLosesNothing | src/task/executor.rs:73-83 | where sleep_if_idle halts, everything accepted is delivered and no live task is due |
| KernelModel.NotStuck | src/task/executor.rs:46-68 | unless all is quiet some step without new input is possible that does not panic |
| KernelModel.InternalRunsEnd | src/task/executor.rs:46-68 | without new input every run is finite, with a bound on its length |
| KernelModel.Drains | src/task/keyboard.rs:73-100 | from every reachable state some run without new input delivers all accepted scancodes and does not panic |
| KernelModel.EveryRunDelivers | src/task/keyboard.rs:73-100 | every run without new input that goes on until no step is left delivers all accepted scancodes, or started where the queue may overflow |
| KernelModel.OverflowsIff | src/task/executor.rs:99-101 | some run without new input panics if and only if the queue is full and the handler is about to push or will find a waker |
| KernelModel.PromptOverflowsIff | src/task/executor.rs:99-101 | with handlers run to completion: if and only if the queue is full and the handler holds a waker or finds one registered |
| KernelModel.OverflowHappens | src/task/keyboard.rs:18-31 | a run with a single task whose queue overflows while it is being polled |
| Tasks.Machine.constructor | src/task/executor.rs:17-24 | the empty executor |
| Tasks.Machine.Spawn | src/task/executor.rs:26-35 | adds a fresh task and queues it; panics exactly when the queue is full |
| Tasks.Machine.WakeTask | src/task/executor.rs:99-101 | queues the id; panics exactly when the queue is full |
| Tasks.Machine.AddScancode | src/task/keyboard.rs:18-31 | queues the scancode if there is room, then takes and wakes the waker |
| Tasks.Machine.PollNext | src/task/keyboard.rs:73-100 | with interrupts anywhere between its accesses: delivers the next scancode, or suspends with its waker registered or its id queued |
| Tasks.Machine.PollKeyboard | src/task/keyboard.rs:107-124 | delivers what it receives, in order, until it suspends |
| Tasks.Machine.RunOne | src/task/executor.rs:50-66 | pops the first id and polls it if its task is live; task and waker are removed exactly if the poll is Ready |
| Tasks.Machine.RunReadyTasks | src/task/executor.rs:46-68 | makes only steps of the transition system, until the queue is empty |
| Vga.LinesExtend | src/vga_buffer.rs:85-108 | how the lines of a text change with one byte |
| Vga.ScreenShowsLog | src/vga_buffer.rs:85-136 | the screen is the last 25 rows of the log, the column the length of its last line |
| Vga.TextShown | src/vga_buffer.rs:143-161 | the screen of 25 rows of 80 shows the lines of the text, with a square for every byte that is not printable ASCII |
| Vga.PutAllAppend | src/vga_buffer.rs:143-161 | writing two texts in turn is writing their concatenation |
| Vga.Writer.ClearRow | src/vga_buffer.rs:126-136 | blanks one row and no other |
| Vga.Writer.NewLine | src/vga_buffer.rs:111-123 | scrolls the array in place by one row |
| Vga.Writer.WriteByte | src/vga_buffer.rs:85-108 | puts one byte, breaking a full line first; the column stays at most 80 |
| Vga.Writer.WriteString | src/vga_buffer.rs:143-161 | puts all bytes, unprintable ones as a square |
| Frames.UsableExact | src/memory.rs:143-159 | the listed frames are exactly the page-aligned frames inside usable regions |
| Frames.UsableDistinct | src/memory.rs:143-159 | no frame is listed twice |
| Frames.FramesInOrder | src/memory.rs:143-167 | for any memory map: page k of usable region i comes after the pages of all usable regions before it, and nothing after the last |
| Frames.FramesOnce | src/memory.rs:163-167 | calls never repeat a frame, all usable frames come before the first None, and None is permanent |
| Frames.BootInfoFrameAllocator.AllocateFrame | src/memory.rs:163-167 | the n-th call returns the n-th usable frame |
| Frames.BootInfoFrameAllocator.MapHeap | src/allocator.rs:81-92 | which call gives page i its frame; heap pages and the page tables drawn on the way get distinct frames |
| Frames.LaterFrameIsNew | src/virtio/mod.rs:29-42 | a frame drawn later, for a DMA buffer, is none of these |

## Left out

- `delete_file`, `open_file` and `list_file` are unimplemented in the source.
- GDT, interrupt tables, serial port, PCI, virtio and the test harness: hardware set-up without state to reason about.
- The bump allocator, the simple executor, scancode tables, key decoding and colour codes: only easy members.
- `linked_list_allocator::Heap`, `ArrayQueue`, `AtomicWaker` and the page mapper are external; they appear by contract only.
- `translate_addr` and `create_example_mapping`: a fixed walk over tables that an external mapper writes.
- Names are byte strings; that they are UTF-8 is not used.
- 64-bit overflow: sums and differences of block numbers panic as in a debug build; the counters of task ids, frames and scancodes are unbounded.
- FsTorn.DistinctNamesIffHarmless: stated for devices of at least 10240 blocks; on smaller ones inodes may be written over the directory itself, as FsLimits.CrashConsistency says.
- HeapModel.HeapSafety: assumes that init is called once and that the heap lies below 2^63, which rules out overflow in align_up.
- Tasks.Machine.RunReadyTasks: the source loops for as long as ids arrive; here a run is cut after a given number of polls.
- Tasks.Machine.PollKeyboard: likewise cut after a given number of scancodes.
- Frames.BootInfoFrameAllocator.MapHeap: how many page tables the external mapper needs is a parameter; the mapping itself is not modelled.
- Memory ordering: accesses to shared objects are atomic steps.
