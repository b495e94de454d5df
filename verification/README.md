# A verified model of the OS/161 kernel's hard parts

This project models the parts of an OS/161 kernel where a mistake is easiest to make and
hardest to see, and proves what they promise.

**SFS, the on-disk filesystem.** `Sfs.dfy` holds the operations of `fs/sfs/` over an array of
512-byte blocks: allocation, direct and indirect mapping, unaligned transfers, the slot-array
directory, link counts, the table of loaded vnodes, reclaiming, sync, unmount and mount.
`SfsLayout` is the on-disk format, `SfsVolume` says what a volume means (who owns each block,
what bytes a file holds), `SfsTable` ties the vnode table and the free map to it, `SfsDir` the
directory, and `SfsView` is the abstract filesystem: a map of names to files, the contents of
files, how many references each has, which of its blocks each has, and how many slots the
directory has. Every operation is specified by what it does to that view. `SfsFresh` shows that a
formatted volume of any size is a legal start, `SfsSpace` that the blocks in use are exactly those
the files account for, and `SfsRuns` that every sequence of operations, through any number of
mounts, is a run of the abstract filesystem. `SfsFull` says exactly when an operation in such a
run fails for want of space or size. `Bitmap` and `Uio` are the bitmap and the scatter/gather
transfer underneath.

**The kernel heap.** `KHeap` is the data structure of `vm/kmalloc.c` as values, with the effect
of each change; `KSpace` says when there is room, in terms of what has been given out; `Kmalloc`
is the code. `KmallocRuns` puts all callers together: kmalloc drops its lock before
`alloc_kpages` and takes it again after, kfree drops it before `free_kpages`, and anything may
happen in between.

**Threads.** `Threads` is a multi-CPU transition system for `thread/thread.c`: run queues, wait
channels, idling, migration, exit and reaping, with interrupts nested on top of any of them. A run
records what each CPU did, and `ThreadRuns` says what becomes of a thread over a whole run: where
each call leaves it, how long it stays there, and who takes it away and where to. `Migration` is
the load balancer as one uninterrupted piece of code. `Semaphore`, `SleepLock` and `CondVar` are
the protocols of `thread/synch.c` at the granularity of their spinlock operations; who is in which
call, and who is inside the lock, is read off the record of calls and returns and not kept in the
state. `Spl` is the interrupt-level accounting of any number of CPUs, and `LockOrder` the order in
which spinlocks are taken. `ThreadList` is the doubly linked list they all use.

**Two data layouts.** `Queue` is the growing ring buffer, and `UserStack` the layout of the
arguments on a new program's stack.

Where the code checks something at run time and panics, the model asserts it, and so shows
that it cannot happen in a state the invariant allows; or, where it can happen, the panic is an
outcome of its own with its exact condition.

Some things hold for most inputs but not for all. The model follows the code, gives an input
that fails and says exactly which do not:

- `uiomove` limits a chunk by the buffer and by the request but not by the residue, so a request
  beyond the residue can move too much or run out of buffers: `Uios.MovesExactly`,
  `Uios.OverrunExample`. For `uiomovezeros`, which moves 16 bytes at a time, the condition is
  another: `Uios.PiecesExactly`, `Uios.PiecesExample`.
- `cv_wait` releases the lock before it locks the channel. A wakeup that takes the channel in
  between misses the waiter, and only such a one does: `CondVar.BroadcastMisses`,
  `CondVar.SignalMisses`, `CondVar.SignalLost`.
- A semaphore's count is an int, and V panics when it is full: `Semaphore.PanicsExactly`.
- `runprogram` ignores the errors of copying: a program finds its arguments if and only if they
  fit on the stack (`UserStack.User.PushArgs`).
- `sfs_rename` asserts that it renames a file, but nothing stops a link to the root directory:
  it panics if and only if the old name is one (`Sfs.Sfs.Rename`, `SfsFull.RootRenamed`).
- `sfs_domount` only warns about a device that is too small; one that ends before its superblock
  or its free map makes the kernel panic (`Sfs.Sfs.Mount`).
- The size of a file has 32 bits and an offset 64: `SfsVolume.SizeExactly`,
  `SfsVolume.SizeExample`.
- The page count of a request to `kmalloc` is computed in 32 bits: `Kmalloc.EnoughPages`,
  `Kmalloc.OverflowExample`. So is the byte count of a growing queue: `Queues.GrowsExactly`,
  `Queues.NoBytesExample`, and the outcome `broken` of the operations that grow.

## Model

| member | source | states |
|---|---|---|
| Bitmaps.Bitmap.constructor | lib/bitmap.c:56-90 | a new bitmap marks no index and its padding bits are set |
| Bitmaps.Bitmap.Alloc | lib/bitmap.c:98-121 | the least clear index is taken and nothing else changes; it fails exactly when all indices are marked; both assertions of the code hold |
| Bitmaps.Bitmap.Mark | lib/bitmap.c:134-145 | the set of marked indices gains exactly this one, padding unaffected |
| Bitmaps.Bitmap.Unmark | lib/bitmap.c:147-158 | the set of marked indices loses exactly this one, padding unaffected |
| Bitmaps.Bitmap.Test | lib/bitmap.c:161-169 | the answer is membership in the set of marked indices |
| Uios.MovesExactly | lib/uio.c:41-120 | for any buffers and request, uiomove moves min(n, residue) bytes without panic or wrap-around if and only if the request is within the residue or the residue ends at a buffer's end |
| Uios.OverrunExample | lib/uio.c:41-120 | a residue of 10 in a buffer of 100: asking for 50 moves 50 and wraps the residue, asking for 200 panics |
| Uios.PiecesExactly | lib/uio.c:122-146 | for any buffers and request, uiomovezeros moves min(n, residue) zeros without panic or wrap-around if and only if the request is within the residue, or the residue ends at a buffer's end or is a multiple of 16 |
| Uios.PiecesExample | lib/uio.c:122-146 | with a residue of 16, a request for 50 bytes overruns it and uiomovezeros of 50 does not |
| Uios.Uio.constructor | lib/uio.c:152-165 | uio_kinit describes the whole buffer |
| Uios.Uio.Uiomove | lib/uio.c:41-120 | for every request and list of buffers, empty ones included: it panics exactly if the control flow that MovesExactly is about does, moves as many bytes as that says, in order, and leaves that residue |
| Uios.Uio.Uiomovezeros | lib/uio.c:122-146 | for every request and list of buffers: it panics exactly if the control flow that PiecesExactly is about does, and moves as many zeros as that says |
| SfsLayout.DecodeEncodeInode | include/kern/sfs.h:76-86 | an inode written to a block and read back is the same inode |
| SfsLayout.DecodeEncodeSlot | include/kern/sfs.h:88-94 | a directory entry written and read back has the same inode number and name |
| SfsVolume.OwnedExactly | fs/sfs/sfs_vnode.c:89-290 | under the kept invariant a block is referenced at most once, and is owned exactly when it is referenced |
| SfsVolume.WriteData | fs/sfs/sfs_vnode.c:306-441 | rewriting a data block changes that block of that file only |
| SfsVolume.LinkDirect | fs/sfs/sfs_vnode.c:144-290 | recording an unowned block in a direct slot keeps ownership exact |
| SfsVolume.LinkIndirect | fs/sfs/sfs_vnode.c:144-290 | recording an unowned cleared block as indirect block keeps ownership exact and maps nothing new |
| SfsVolume.LinkEntry | fs/sfs/sfs_vnode.c:144-290 | recording an unowned block in the indirect block keeps ownership exact |
| SfsVolume.UnlinkDirect | fs/sfs/sfs_vnode.c:1126-1225 | clearing a direct slot keeps ownership exact without its block, and only that part of that file reads as zeros |
| SfsVolume.UnlinkIndirect | fs/sfs/sfs_vnode.c:1126-1225 | dropping the indirect block keeps ownership exact without it and the blocks in it, and only that part of that file reads as zeros |
| SfsVolume.WroteFile | fs/sfs/sfs_vnode.c:446-542 | once the size covers the written bytes the contents are the old ones with the data in place, any gap zero, and bytes past the end zero |
| SfsVolume.SizeExactly | fs/sfs/sfs_vnode.c:530-535 | the stored size covers a write if and only if its end is below 2^32 |
| SfsVolume.SizeExample | fs/sfs/sfs_vnode.c:530-535 | a write at 2^32 + 5 leaves a file of 1000 bytes with 5 |
| SfsTable.StoredBlock | fs/sfs/sfs_vnode.c:306-441 | storing part of a mapped block is a write to the file at that offset and disturbs nothing else |
| SfsTable.LoadEntry | fs/sfs/sfs_vnode.c:1649-1757 | a vnode read from disk agrees with the volume and keeps at most one vnode per inode |
| SfsTable.SyncEntry | fs/sfs/sfs_vnode.c:66-80 | writing an inode back makes its block equal to it and leaves every file as it was |
| SfsDir.InsertName | fs/sfs/sfs_vnode.c:695-734 | filling a free slot is insertion into the map of names |
| SfsDir.DeleteName | fs/sfs/sfs_vnode.c:739-751 | clearing a slot is deletion from the map of names |
| SfsDir.LinksBound | fs/sfs/sfs_vnode.c:1324-1349 | a link count is at most the number of slots, so 16 bits are enough |
| SfsDir.AllUsed | fs/sfs/sfs_vnode.c:645-734 | a directory in which no free slot is found has as many names as slots |
| SfsDir.FullExactly | fs/sfs/sfs_vnode.c:645-734 | there are as many names as slots if and only if no slot is free |
| SfsView.ImageUnique | fs/sfs/sfs_fs.c:253-366 | a disk holds at most one filesystem |
| SfsView.ImageMountable | fs/sfs/sfs_fs.c:253-366 | a disk that holds a filesystem passes the checks of mount |
| Sfs.Sfs.Balloc | fs/sfs/sfs_vnode.c:56-107 | a cleared block nobody refers to; ENOSPC exactly when every block has an owner |
| Sfs.Sfs.Bused | fs/sfs/sfs_vnode.c:124-132 | the free map says whether a block has an owner |
| Sfs.Sfs.Bfree | fs/sfs/sfs_vnode.c:112-118 | exactly this block leaves the free map, which becomes dirty |
| Sfs.Sfs.Bmap | fs/sfs/sfs_vnode.c:144-290 | the block mapped for a file block, allocated on request; EFBIG exactly past block 142; ENOSPC only on a full disk with the block missing; the file gains that block and its indirect block if needed and no other; no file's bytes change; the "marked free" panic is unreachable |
| Sfs.Sfs.RwBlock | fs/sfs/sfs_io.c:47-87 | one sector is read or written at the uio's offset |
| Sfs.Sfs.PartialIo | fs/sfs/sfs_vnode.c:306-376 | part of a block goes between the uio and the file, or nothing does and the error says why |
| Sfs.Sfs.BlockIo | fs/sfs/sfs_vnode.c:381-441 | a whole block goes between the uio and the file, with the uio's offset and residue restored around the device |
| Sfs.Sfs.Transfer | fs/sfs/sfs_vnode.c:446-542 | leading part, whole blocks and trailing part together: all of the request, which is then within the largest file, or a prefix that ends at a block boundary |
| Sfs.Sfs.AdjustSize | fs/sfs/sfs_vnode.c:528-535 | the size becomes the larger of the old one and the offset, and no block moves |
| Sfs.Sfs.Write | fs/sfs/sfs_vnode.c:446-542 | the consumed bytes are in the file at the offset, the size covers them, gaps are zero, every other byte and file is unchanged, whatever the outcome; the file gains exactly the blocks the bytes are in; a write that starts past the largest file fails but still raises the size to its offset |
| Sfs.Sfs.Read | fs/sfs/sfs_vnode.c:446-542 | exactly the bytes from the offset to the end of the request or file, with the residue restored; EFBIG if and only if a part of those is past the largest file, after all the rest has been read; nothing changes |
| Sfs.Sfs.Truncate | fs/sfs/sfs_vnode.c:1126-1225 | to length 0: the file is empty, owns no block, and no other file changes |
| Sfs.Sfs.SyncInode | fs/sfs/sfs_vnode.c:66-80 | the vnode is clean and no file changes |
| Sfs.Sfs.FindVnode | fs/sfs/sfs_vnode.c:1649-1689 | the table entry of an inode, if there is one; the unallocated-block panic is unreachable |
| Sfs.Sfs.LoadVnode | fs/sfs/sfs_vnode.c:1649-1757 | one more reference if loaded, else a new entry with the inode on disk; the type and allocation panics are unreachable |
| Sfs.Sfs.MakeObj | fs/sfs/sfs_vnode.c:792-814 | a new empty object with one reference and no links, or ENOSPC and no change |
| Sfs.Sfs.Forget | fs/sfs/sfs_vnode.c:929-960 | the vnode leaves the table, and an erased file its block |
| Sfs.Sfs.Reclaim | fs/sfs/sfs_vnode.c:887-960 | EBUSY exactly if there are other references; else a file without links gives up everything and one with links is written back, its blocks untouched |
| Sfs.Sfs.ReadDir | fs/sfs/sfs_vnode.c:552-580 | the slot as the directory has it; the short-entry panic is unreachable |
| Sfs.Sfs.WriteDir | fs/sfs/sfs_vnode.c:586-615 | the slot is replaced, or the directory is as before; EFBIG exactly past 1144 slots, ENOSPC only if the block of the slot is missing on a full disk; a used slot can always be rewritten; the short-write panic is unreachable |
| Sfs.Sfs.FindName | fs/sfs/sfs_vnode.c:645-689 | finds a name if and only if the map has it, with its file, and the last free slot, or none if and only if there is none |
| Sfs.Sfs.DirLink | fs/sfs/sfs_vnode.c:695-734 | EEXIST exactly for a name in use, ENAMETOOLONG exactly for one that does not fit; otherwise the last free slot is chosen, or a new one only if none is free; success fills it; ENOSPC only if its block is missing on a full disk, EFBIG only past 1144 slots; failure changes nothing |
| Sfs.Sfs.DirUnlink | fs/sfs/sfs_vnode.c:739-751 | never fails on a used slot |
| Sfs.Sfs.LookOnce | fs/sfs/sfs_vnode.c:757-783 | the file of a name, held; the link-count panic is unreachable |
| Sfs.Sfs.Decref | vfs/vnode.c:98-121 | one reference fewer, and at the last the file disappears, blocks and all, if it has no name |
| Sfs.Sfs.Lookup | fs/sfs/sfs_vnode.c:1515-1540 | the file of a name gains a reference, or ENOENT |
| Sfs.Sfs.Creat | fs/sfs/sfs_vnode.c:1251-1317 | an existing file is held or refused, else the map gains the name of a new empty file, in a free slot if there is one; a failure gives the inode back and changes no name, file or reference |
| Sfs.Sfs.Link | fs/sfs/sfs_vnode.c:1324-1349 | the map gains the name, in a free slot if there is one, or only the error says why not |
| Sfs.Sfs.Remove | fs/sfs/sfs_vnode.c:1354-1386 | the map loses the name, and the file goes if nothing else keeps it; fails only for a missing name |
| Sfs.Sfs.MoveName | fs/sfs/sfs_vnode.c:1419-1473 | the map is re-keyed, the new name in a free slot if there is one, or no name changes; the undo path is unreachable |
| Sfs.Sfs.Rename | fs/sfs/sfs_vnode.c:1394-1473 | panics if and only if the old name leads to the root directory; otherwise the map is re-keyed, or no name changes and the error says why |
| Sfs.Sfs.WriteFile | fs/sfs/sfs_vnode.c:984-998 | the view's bytes of this file are overwritten at the offset, and the file gains exactly the blocks they are in, nothing else; it stops only at a missing block on a full disk or at the largest size |
| Sfs.Sfs.ReadFile | fs/sfs/sfs_vnode.c:965-979 | the view's bytes of this file are returned, nothing changes |
| Sfs.Sfs.TruncateFile | fs/sfs/sfs_vnode.c:1126-1225 | the file becomes empty and has no blocks in the view, nothing else changes |
| Sfs.Sfs.WriteMap | fs/sfs/sfs_fs.c:68-102 | the map blocks on disk hold the free map |
| Sfs.Sfs.ReadMap | fs/sfs/sfs_fs.c:68-102 | the free map holds what the map blocks hold |
| Sfs.Sfs.Sync | fs/sfs/sfs_fs.c:110-180 | nothing is dirty and the view is unchanged |
| Sfs.Sfs.Unmount | fs/sfs/sfs_fs.c:207-237 | refused exactly while a vnode is loaded; else the disk alone holds the filesystem |
| Sfs.Sfs.Mount | fs/sfs/sfs_fs.c:253-366 | ENXIO exactly for a wrong sector size, EINVAL only for a wrong magic number, a panic exactly for a device that ends before its superblock or free map; a disk that holds a filesystem comes up as that one |
| Sfs.Sfs.Remount | fs/sfs/sfs_fs.c:110-366 | sync, unmount and mount bring back the same names, contents, blocks and free map |
| SfsFresh.FreshImage | include/kern/sfs.h:39-94 | the formatted volume of any size from its own system blocks up to 2^23 blocks meets the whole invariant |
| SfsFresh.MountFresh | fs/sfs/sfs_fs.c:253-366 | mounting it gives a filesystem with no names and no files |
| SfsSpace.UsedExactly | fs/sfs/sfs_vnode.c:89-290 | as many blocks are in use as the system, the inodes, their indirect blocks and their blocks of data are together |
| SfsSpace.SpaceExactly | fs/sfs/sfs_vnode.c:89-132 | in every valid state the free blocks are exactly the rest: nothing leaks and nothing is counted twice |
| SfsSpace.FileTakes | fs/sfs/sfs_vnode.c:144-290 | of those a file takes one for its inode, one for an indirect block if it has one, and one for each block of data |
| SfsSpace.StopsExactly | fs/sfs/sfs_vnode.c:446-542 | a transfer fails for want of space if and only if it needs more new blocks than are free |
| SfsRuns.Do | fs/sfs/sfs_vnode.c:965-1780 | any one operation on any held vnode, the root directory included, does to the filesystem what it does to the map, the contents, the counts, the slots and the blocks; ENOTDIR exactly for a name operation on a file, EISDIR exactly for reading, writing or truncating the directory |
| SfsRuns.Run | fs/sfs/sfs_vnode.c:965-1780 | every sequence of operations, failures, loading and dropping the root directory and remounting included, is step by step a run of the abstract filesystem up to the first panic, and in every state of it the free blocks are exactly those nothing accounts for |
| SfsRuns.RunFresh | fs/sfs/sfs_vnode.c:965-1780 | the same from a freshly formatted volume of any size |
| SfsFull.WriteFailsExactly | fs/sfs/sfs_vnode.c:446-542 | in any run a write fails with ENOSPC if and only if it needs more new blocks than are free, and otherwise with EFBIG if and only if a part of it is past the largest file, after writing all the rest |
| SfsFull.NameFails | fs/sfs/sfs_vnode.c:586-734 | adding a name fails with ENOSPC if and only if its slot needs more new blocks than are free, with EFBIG if and only if all 1144 slots are taken |
| SfsFull.LinkFailsExactly | fs/sfs/sfs_vnode.c:1324-1349 | in any run, the exact condition of both for link: only a directory without a free slot needs a block |
| SfsFull.RenameFailsExactly | fs/sfs/sfs_vnode.c:1394-1473 | in any run, the same for rename |
| SfsFull.CreatFailsExactly | fs/sfs/sfs_vnode.c:1251-1317 | in any run, the exact condition of each error of creat with a new name, which takes a block for the inode first |
| SfsFull.StaysDense | fs/sfs/sfs_vnode.c:586-615 | no run from a fresh volume leaves a hole in the directory |
| SfsFull.RemoveThenLink | fs/sfs/sfs_vnode.c:695-751 | in any run a link right after a remove reuses the slot and succeeds, however full the disk |
| SfsFull.RootRenamed | fs/sfs/sfs_vnode.c:1415-1417 | on a fresh volume with any free block, linking the root directory succeeds and renaming that name panics |
| KHeap.LiveApart | vm/kmalloc.c:395-509 | no two live blocks overlap |
| KHeap.BigApart | vm/kmalloc.c:601-619 | no big allocation overlaps another or a live block |
| KHeap.LiveAligned | vm/kmalloc.c:395-509 | a live block is aligned to its size |
| KHeap.AllOrSome | vm/kmalloc.c:576-584 | a free list as long as the page has blocks contains them all, a shorter one does not |
| KHeap.EmptyPage | vm/kmalloc.c:576-584 | a page's free list is full exactly when no live block is on the page |
| KHeap.PopOk | vm/kmalloc.c:425-446 | taking the first free block keeps lists, tiling and owners |
| KHeap.PushOk | vm/kmalloc.c:566-574 | returning a block keeps lists, tiling and owners |
| KHeap.ScribbleOk | vm/kmalloc.c:41-50 | the holder of a block may write anything into it without harming the allocator |
| KHeap.BigScribbleOk | vm/kmalloc.c:601-619 | and so may the holder of a big allocation |
| KHeap.DropOk | vm/kmalloc.c:352-375 | giving a whole page back keeps the invariant of the others |
| KHeap.MadeOk | vm/kmalloc.c:480-505 | a freshly threaded page joins the invariant |
| KSpace.HoleExactly | vm/kmalloc.c:395-451 | some page of a size has a free block if and only if some page with live blocks of that size has a place without one |
| KSpace.PagesExactly | vm/kmalloc.c:144-167 | as many records are in use as pages have live blocks, so all are in use if and only if that many pages have |
| Kmalloc.Allocator.constructor | vm/kmalloc.c:144-182 | at boot nothing is allocated and the invariant holds |
| Kmalloc.Allocator.AllocPageref | vm/kmalloc.c:144-167 | the first record not in use becomes so, no other changes; fails exactly when all are in use |
| Kmalloc.Allocator.FreePageref | vm/kmalloc.c:169-182 | exactly this record is no longer in use |
| Kmalloc.Allocator.BlockType | vm/kmalloc.c:377-393 | the smallest block size that is enough |
| Kmalloc.Allocator.PopBlock | vm/kmalloc.c:425-449 | the block handed out was not live and the list assertions hold |
| Kmalloc.Allocator.TryAlloc | vm/kmalloc.c:395-451 | a new live block of the type without touching memory; fails if and only if every page with live blocks of that size is full of them |
| Kmalloc.Allocator.ThreadPage | vm/kmalloc.c:489-499 | only the page is written, and its blocks are chained |
| Kmalloc.Allocator.AllocFresh | vm/kmalloc.c:457-509 | given any valid state and a page in hand, the page becomes blocks and the first is handed out; it goes back if and only if live blocks are on as many pages as there are records |
| Kmalloc.Allocator.UnlinkSame | vm/kmalloc.c:352-375 | exactly this record leaves its size list, which is still a list, and the others are untouched |
| Kmalloc.Allocator.UnlinkAll | vm/kmalloc.c:352-375 | exactly this record leaves the list of all |
| Kmalloc.Allocator.DropPage | vm/kmalloc.c:577-584 | a page without live blocks leaves the allocator, lists and all |
| Kmalloc.Allocator.FindPage | vm/kmalloc.c:511-545 | finds the record of a pointer's page if and only if it is a page of blocks |
| Kmalloc.Allocator.SubpageKfree | vm/kmalloc.c:511-596 | recognises exactly its own blocks; the page goes back exactly with its last block; only the block's memory is written; the misplaced-pointer panic is unreachable |
| Kmalloc.Allocator.BigKmalloc | vm/kmalloc.c:601-619 | the pages become a big allocation of at least the size asked for; from 0xfffff001 bytes on there are none and nothing is allocated |
| Kmalloc.Allocator.Kmalloc | vm/kmalloc.c:601-619 | a new block of the smallest size that is enough, failing if and only if all pages of that size are full and there is no page or no record for one; or a big allocation that is enough wherever alloc_kpages gave pages; from 0xfffff001 bytes on nothing changes whatever is returned |
| Kmalloc.Allocator.Kfree | vm/kmalloc.c:621-633 | exactly this allocation goes, by the big path exactly if it is big |
| Kmalloc.EnoughPages | vm/kmalloc.c:606-609 | the page count covers the request if and only if it is at most 0xfffff000 bytes; above it is 0 |
| Kmalloc.OverflowExample | vm/kmalloc.c:606-609 | a request of 2^32 - 1 bytes asks for no page |
| KmallocRuns.SoundHeap | vm/kmalloc.c:395-633 | whenever the allocator's invariant holds, allocations are aligned and no two overlap |
| KmallocRuns.OwnedPages | vm/kmalloc.c:395-633 | the pages with an owner are exactly those of live blocks, of big allocations and of calls in the unlocked window |
| KmallocRuns.World.constructor | vm/kmalloc.c:144-182 | all pages are free and nothing is allocated |
| KmallocRuns.World.TryCall | vm/kmalloc.c:395-462 | the first locked stretch of kmalloc returns a new block of the smallest size that is enough; it leaves the caller wanting a page if and only if all pages of that size are full |
| KmallocRuns.World.TakeCall | vm/kmalloc.c:462-469 | outside the lock, the caller gets the page if it is still free, and the call fails if not |
| KmallocRuns.World.FinishCall | vm/kmalloc.c:469-509 | the second locked stretch returns a new block of that size on the page whatever happened since the first; it fails, and the page is on its way back, if and only if all records are in use |
| KmallocRuns.World.BigCall | vm/kmalloc.c:601-619 | a new big allocation of the pages alloc_kpages chose, if all of them are free, and otherwise nothing |
| KmallocRuns.World.FreeCall | vm/kmalloc.c:621-633 | exactly the freed allocation goes, and every page it gave up is on its way back |
| KmallocRuns.World.GiveBackCall | vm/kmalloc.c:576-584 | outside the lock, a page comes back |
| KmallocRuns.World.Run | vm/kmalloc.c:395-633 | any sequence of steps of any callers: every block returned is new, big enough and aligned, a call fails exactly as said above, no two allocations ever overlap, each step keeps what it does not free or write to, and in every state each page is free, on its way back, or with an allocation or a call, and in one of these only |
| KmallocRuns.TraceKeeps | vm/kmalloc.c:395-633 | over any run, what nobody frees or writes to stays allocated with the same size and contents |
| KmallocRuns.Window | vm/kmalloc.c:395-509 | a call of kmalloc in any run, with anything by other callers in its unlocked window before and after alloc_kpages: what it returns nobody has in the state it finds, whoever was given what meanwhile, and it is big enough, aligned and overlaps nothing |
| KmallocRuns.NoDoubleAllocation | vm/kmalloc.c:395-633 | no run returns the same address twice without a free in between |
| Threads.StepKeeps | thread/thread.c:439-961 | each of the steps of any CPU, in any order, keeps the placement invariant |
| Threads.RunInv | thread/thread.c:439-1130 | every state of every run meets it |
| Threads.Safety | thread/thread.c:439-1094 | no thread is current on two CPUs; every live thread is in exactly one place, except a CPU's own current thread on its way out; a queued thread belongs to that CPU |
| Threads.DestroySafe | thread/thread.c:241-285 | what exorcise destroys is a zombie and current nowhere |
| Threads.ZombieNeverWalks | thread/thread.c:549-722 | an exited thread is never switched to |
| Threads.NoEmptyRemoval | thread/thread.c:858-961 | migration never removes from an empty list, although other CPUs append meanwhile |
| Threads.MigrationSafe | thread/thread.c:858-961 | under all interleavings migration changes the CPU of no thread that is current anywhere, although one can be among its victims; a queue it adds to stays within the share |
| Threads.NoLostUnidle | thread/thread.c:439-468 | an idle CPU with a thread in its queue has an interrupt coming or is on its way out of idling |
| Threads.MakeRunnableKeeps | thread/thread.c:439-468 | moving a thread from the waker's hand to the queue of its own CPU keeps the placement invariant |
| Threads.ForkKeeps | thread/thread.c:477-538 | with a new thread in exactly one place the invariant still holds |
| Threads.PlaceKeeps | thread/thread.c:576-616 | the invariant allows, and survives, the current thread being put on a list while still current; which list is SwitchPlaces |
| Threads.PickKeeps | thread/thread.c:635-658 | the invariant survives switching to the next queued thread, possibly the same one |
| Threads.FinishKeeps | thread/thread.c:707-754 | the invariant survives the resumption of an old or a new thread, and no dying one is resumed |
| Threads.DestroyKeeps | thread/thread.c:241-285 | the invariant survives the reaping of a zombie |
| Threads.WakeOneKeeps | thread/thread.c:1037-1057 | the invariant survives the first sleeper moving to the waker's hand |
| Threads.WakeAllKeeps | thread/thread.c:1062-1094 | the invariant survives all sleepers moving to the waker's hand; that they do is WakeAllTakes |
| ThreadRuns.AlwaysInOrder | thread/thread.c:549-722 | in every state of every run the threads on a run queue, channel or zombie list are in the order in which they came |
| ThreadRuns.ChannelLocked | thread/thread.c:1008-1032 | a channel is locked exactly while one thread is on its way to its list, and no wakeup takes place meanwhile |
| ThreadRuns.SleepsUntilWoken | thread/thread.c:1025-1032 | a thread that calls wchan_sleep goes straight to the list of that channel and stays there until a wakeup on that channel takes it |
| ThreadRuns.ReturnsOnlyWoken | thread/thread.c:549-722 | wchan_sleep does not return unless a wakeup on its channel has taken the thread |
| ThreadRuns.WakeAllTakes | thread/thread.c:1062-1094 | the channel is empty and all who slept there are in the waker's hand, in order |
| ThreadRuns.WakeOneTakes | thread/thread.c:1037-1057 | exactly the one who has slept longest leaves the channel, for the waker's hand |
| ThreadRuns.ChannelLeaves | thread/thread.c:1037-1094 | a thread leaves a channel if and only if a wakeup there takes it |
| ThreadRuns.RunQueueLeaves | thread/thread.c:635-658 | a thread leaves a run queue if and only if its CPU resumes it, having waited longest, or makes it a victim of migration, having come last; and where it is then |
| ThreadRuns.ZombieLeaves | thread/thread.c:241-285 | a thread leaves the zombies if and only if exorcise destroys it, the oldest first |
| ThreadRuns.ExorcisesAll | thread/thread.c:275-285 | when exorcise returns its CPU has no zombies left |
| ThreadRuns.HandLeaves | thread/thread.c:436-468 | a thread leaves a waker's, parent's or migration's hand if and only if it is in front and the owner of the hand passes it on |
| ThreadRuns.HandGoesTo | thread/thread.c:436-468 | then it is last on the run queue of its own CPU; from a migration, of a CPU below its share, or of the sender |
| ThreadRuns.IpiIs | thread/thread.c:1120-1131 | an idle CPU's interrupt is pending if and only if a thread was put on its queue while it was idle and it has not acknowledged since |
| ThreadRuns.SwitchPlaces | thread/thread.c:549-616 | thread_switch comes back at once only from a yield, on an idle CPU or with nothing to run; otherwise the thread is last on the list that its reason says, with the state that it says |
| ThreadRuns.Resumes | thread/thread.c:635-754 | a CPU that picks a thread resumes that thread, in state RUN, where it called thread_switch or at its start, and gives up the run queue lock |
| ThreadRuns.CallsReturn | thread/thread.c:549-961 | whatever is called from a stack comes back to the same stack, through interrupts, switches and other CPUs |
| ThreadRuns.Forks | thread/thread.c:477-538 | the new thread is in the parent's hand, on the parent's CPU, about to start |
| ThreadRuns.StateIs | thread/thread.c:576-616 | in every state of every run a thread's state is RUN while it runs, SLEEP on a channel, ZOMBIE on a zombie list |
| ThreadRuns.WorkEnds | thread/thread.c:436-961 | each step of a handler, a wakeup, the reaping and a migration finishes the call or leaves it less to do |
| ThreadRuns.NeverStuck | thread/thread.c:549-961 | in every state of every run a CPU can go on, or idles until an interrupt, or the holder of a run queue lock can go on |
| ThreadRuns.Counting | thread/thread.c:867-878 | under any interleaving a migration has added up the lengths the queues had when it looked at them |
| ThreadRuns.Decides | thread/thread.c:879-884 | then it returns with less than its share, or will send what it had above it; the share is the least that is enough for all |
| ThreadRuns.Sending | thread/thread.c:885-961 | under any interleaving it takes and gives at most that many, one CPU after the other |
| Migration.RunQueues.Count | thread/thread.c:867-878 | the counts of the first loop |
| Migration.RunQueues.TakeVictims | thread/thread.c:885-892 | the tail of our queue, in order |
| Migration.RunQueues.GiveTo | thread/thread.c:894-944 | victims from the front, in order, passing over the current thread, until the queue has its share or none is left |
| Migration.RunQueues.Distribute | thread/thread.c:894-944 | with room enough all victims but the current thread go to the other CPUs, in order, none getting any before those before it have their share |
| Migration.RunQueues.Consider | thread/thread.c:858-961 | below its share nothing happens; otherwise the CPU keeps exactly its share from the front and the others get the rest in order, each up to the share before the next, but for the current thread, which comes back; every thread is kept exactly once |
| Migration.Enough | thread/thread.c:858-961 | the other queues have room for everything above our share |
| Semaphore.StepKeeps | thread/synch.c:92-146 | each step of P and V keeps locks, sleepers and hands consistent |
| Semaphore.StepNoLoss | thread/synch.c:92-146 | each step keeps the no-lost-wakeup property |
| Semaphore.NoLostWakeup | thread/synch.c:92-146 | in every run, while a thread sleeps the awake waiters plus unfinished Vs are at least the count |
| Semaphore.Conservation | thread/synch.c:92-146 | in every run, whenever the lock is free, the count is the initial one plus the Vs and minus the Ps that have come back: no P comes back without a unit |
| Semaphore.NetOfCall | thread/synch.c:92-146 | whatever others do meanwhile, a thread in P has changed nothing, and when it is back it has taken exactly one unit; V gives one |
| Semaphore.ZeroNeedsV | thread/synch.c:92-132 | a P that finds 0 does not come back before a V has counted |
| Semaphore.WakesLongest | thread/synch.c:134-146 | a V wakes exactly one sleeper, the one that has slept longest |
| Semaphore.NeverStuck | thread/synch.c:92-146 | a thread that is awake can go on, or the holder of the lock or the channel it needs can |
| Semaphore.BlockedMeansZero | thread/synch.c:92-132 | a thread going to sleep still sees 0 under the lock |
| Semaphore.PanicsExactly | thread/synch.c:134-146 | in any run a step panics if and only if it is the increment of V with the Vs that are back as far ahead of the Ps as an int can hold |
| SleepLock.StepKeeps | thread/synch.c:198-245 | each step of acquire and release keeps holder, held and the queue of sleepers consistent |
| SleepLock.StepNotStranded | thread/synch.c:198-239 | each step keeps waiters from being stranded |
| SleepLock.MutualExclusion | thread/synch.c:198-245 | in every run at most one thread is inside, that is, back from acquire and not back from release; outside of calls that is exactly the holder; held agrees whenever the spinlock is free |
| SleepLock.AcquireReturns | thread/synch.c:198-222 | whoever comes back from acquire was not inside, now is, alone, and is the holder |
| SleepLock.ReleaseReturns | thread/synch.c:224-239 | a release by the thread inside, once back, has given up the lock and looked for a sleeper |
| SleepLock.WakesLongest | thread/synch.c:224-239 | a release wakes exactly one sleeper, the one that has slept longest |
| SleepLock.NeverStuck | thread/synch.c:198-239 | a thread that is awake can go on, or the holder of the spinlock or the channel it needs can |
| SleepLock.NobodyStranded | thread/synch.c:198-239 | with no holder and a sleeper, some awake acquirer or unfinished releaser exists |
| SleepLock.ForeignRelease | thread/synch.c:224-239 | a release by a thread that is not inside does nothing, from call to return, whatever others do meanwhile |
| CondVar.StepKeeps | thread/synch.c:291-317 | each step of wait, signal and broadcast keeps the channel, its list and the waiters consistent |
| CondVar.NobodyHalfway | thread/synch.c:291-302 | whenever a waker takes the channel, every waiter is on the list or still between the lock and the channel |
| CondVar.MutexIs | thread/synch.c:291-302 | the lock is with exactly the thread that the calls and returns say |
| CondVar.WaitReturns | thread/synch.c:291-302 | in cv_wait a thread does not own the lock; back from it, it does, having slept and been taken off by a waker |
| CondVar.SignalsLongest | thread/synch.c:304-310 | a signal wakes the one that has slept longest |
| CondVar.NeverStuck | thread/synch.c:291-317 | a thread waits for nothing but a waker, the lock, or a channel whose holder can go on |
| CondVar.BroadcastMisses | thread/synch.c:291-317 | in any run a broadcast misses a waiter if and only if it takes the channel before that waiter does, and wakes all the others |
| CondVar.SignalMisses | thread/synch.c:291-310 | in any run a signal wakes the first on the list and disturbs no other waiter; it wakes nobody if and only if all waiters have yet to take the channel |
| CondVar.SleepsOn | thread/synch.c:291-302 | a sleeper sleeps until a waker takes the channel |
| CondVar.SignalLost | thread/synch.c:291-310 | a run in which a thread waits, another signals with the lock held, and the first goes to sleep with nobody left to wake it |
| Spl.Thread.constructor | thread/thread.c:119-158 | a new thread is at the raised level with the one count for it |
| Spl.NewThread | thread/thread.c:524-529 | a forked thread carries the two counts its start will drop |
| Spl.Cpu.Splraise | thread/spl.c:86-104 | interrupts are off after the first raise |
| Spl.Cpu.Spllower | thread/spl.c:106-124 | interrupts come back exactly at the last lower |
| Spl.Cpu.Splx | thread/spl.c:131-155 | count = spinlocks held + level raised is kept, and interrupts are on exactly at level none with no spinlock |
| Spl.Cpu.Acquire | thread/spinlock.c:72-111 | the same invariant with one more lock, which this CPU did not hold |
| Spl.Cpu.Release | thread/spinlock.c:116-127 | the same invariant with one lock fewer |
| Spl.Machine.constructor | thread/thread.c:168-231 | any number of CPUs, each with a thread of its own, and locks: the accounts are right at boot |
| Spl.Machine.HandOver | thread/thread.c:654-658 | the switch itself: both threads carry exactly two counts, so the accounts of the CPU are right before and after |
| Spl.Machine.SwitchOn | thread/thread.c:549-722 | thread_switch with any idling: every thread that runs nowhere carries exactly two counts, and no thread, switched out or in, changes the level it runs at |
| Spl.Machine.Fork | thread/thread.c:477-538 | the new thread carries two counts and will start with interrupts on |
| Spl.Machine.Run | thread/spl.c:86-155 | every sequence of splx, acquire, release, switch and fork on any CPUs: each is done if and only if it can be, which lock and thread say; interrupts are on exactly where the level is 0 and no spinlock is held, every thread that runs nowhere carries two counts, no thread is on two CPUs |
| Spl.LevelKept | thread/thread.c:549-754 | however often a thread is switched out and wherever it is resumed, its level is the one it had unless it called splx itself |
| LockOrder.EveryStretchOrdered | thread/thread.c:439-1130 | every path takes spinlocks in the order semaphore or lock, channel, run queue, IPI |
| LockOrder.BlockOrdered | thread/synch.c:92-132 | also going to sleep, where locks are not released in reverse order |
| LockOrder.SleepOnOrdered | thread/thread.c:1025-1032 | and going to sleep without an outer lock |
| LockOrder.StretchNeutral | thread/synch.c:92-239 | every other path ends with the locks it began with |
| LockOrder.StepKeeps | thread/synch.c:92-239 | each lock operation of any CPU keeps the order of what remains |
| LockOrder.RanksRise | thread/spinlock.c:72-111 | a CPU waited for waits, if at all, for a lock of higher rank |
| LockOrder.NoDeadlock | thread/spinlock.c:72-111 | no run reaches a circle of CPUs spinning on each other's locks |
| ThreadLists.ThreadList.constructor | thread/threadlist.c:60-72 | an empty list between its two bookends |
| ThreadLists.ThreadList.InsertAfterNode | thread/threadlist.c:105-120 | the chain gains the node at that place, links agree both ways, no other node changes |
| ThreadLists.ThreadList.InsertBeforeNode | thread/threadlist.c:125-140 | the same before a node |
| ThreadLists.ThreadList.RemoveNode | thread/threadlist.c:145-157 | the chain loses the node, which is fully unlinked |
| ThreadLists.ThreadList.AddHead | thread/threadlist.c:162-170 | prepends to the sequence |
| ThreadLists.ThreadList.AddTail | thread/threadlist.c:172-180 | appends to the sequence |
| ThreadLists.ThreadList.RemHead | thread/threadlist.c:182-198 | the first thread, detached, or null exactly if empty |
| ThreadLists.ThreadList.RemTail | thread/threadlist.c:200-216 | the last thread, detached, or null exactly if empty |
| ThreadLists.ThreadList.InsertAfter | thread/threadlist.c:218-224 | inserts after a thread in the sequence |
| ThreadLists.ThreadList.InsertBefore | thread/threadlist.c:226-232 | inserts before a thread in the sequence |
| ThreadLists.ThreadList.Remove | thread/threadlist.c:234-240 | deletes the thread from the sequence and detaches it |
| Queues.Doubled | lib/queue.c:18-51 | doubling in 32 bits reaches the size it should, and its assertion fails if and only if that size is 2^31 or more |
| Queues.GrowsExactly | lib/queue.c:30-40 | growing gets through with a buffer that holds the new size if and only if that size is below 2^30 |
| Queues.NoBytesExample | lib/queue.c:30-40 | one slot asked to grow to 2^30 gets a buffer of 0 bytes |
| Queues.Queue.FullLength | lib/queue.c:90-108 | the ring is full exactly at one less than its size |
| Queues.Queue.constructor | lib/queue.c:53-68 | an empty queue |
| Queues.Queue.Grow | lib/queue.c:18-51 | broken exactly if the assertion fails or the buffer is too short; otherwise the sequence survives, wrapped around or not; the inner additions never grow again |
| Queues.Queue.AddTail | lib/queue.c:90-108 | appends, growing when full; without memory nothing changes; broken exactly if growing is |
| Queues.Queue.RemHead | lib/queue.c:110-121 | removes the oldest |
| Queues.Queue.Peek | lib/queue.c:160-174 | the oldest, or the null pointer |
| Queues.Queue.Empty | lib/queue.c:84-88 | whether the sequence is empty |
| Queues.Queue.Len | lib/queue.c:176-186 | walking around the ring counts the sequence |
| Queues.Queue.Preallocate | lib/queue.c:70-81 | the size suffices and the sequence is unchanged; broken exactly if growing is |
| UserStack.User.CopyCheck | vm/copyinout.c:116-143 | exactly which user ranges pass and how much of them can be copied, wrap-around and length 0 included |
| UserStack.User.CopyStr | vm/copyinout.c:233-255 | the string with its NUL if it fits, else EFAULT at a fault or the end of user space and ENAMETOOLONG at the end of the range; nothing is written past any of them |
| UserStack.User.CopyOutStr | vm/copyinout.c:298-321 | exactly when it succeeds and with which error it fails, faults included; nothing outside the range or the stack is written |
| UserStack.User.CopyOutWord | vm/copyinout.c:188-215 | succeeds exactly if the word lies on the stack, and otherwise writes nothing |
| UserStack.User.CopyStrings | syscall/runprogram.c:113-134 | if they fit, each string is where its pointer says, one after the other up to the top; nothing outside the stack is written in any case |
| UserStack.User.CopyPointers | syscall/runprogram.c:136-144 | if it fits, the array of pointers, null-terminated, and the strings undisturbed; nothing outside the stack is written in any case |
| UserStack.ArgvIs | syscall/runprogram.c:104-144 | following such an array yields the strings in order |
| UserStack.User.PushArgs | syscall/runprogram.c:104-144 | from the final stack pointer, aligned, a program reads back exactly its arguments if and only if strings, padding and pointers fit on the stack; pointers and strings do not overlap |

## Left out

- Sfs.Sfs.Truncate: only to length 0, the only length the kernel passes; other lengths keep a block too many in the indirect part and do not clear the tail of the last block.
- Sfs.Sfs.TruncateFile: only to length 0, likewise.
- Sfs.Sfs.Write: offsets below 2^32, the ones whose size SizeExactly shows to be stored right; of any length.
- Sfs.Sfs.WriteFile: offsets below 2^32, likewise.
- Sfs.Sfs.PartialIo: not for a request for no byte at the start of a block, which sfs_io never makes.
- Sfs.Sfs.RwBlock: a device that does not fail, so no retries; a request past its end is only made by mount.
- Sfs.Sfs.Unmount: after a sync, which the caller in vfs does first and the code asserts.
- Kmalloc.Allocator.Kfree: pointers that are null or allocated; kfree does not detect others.
- Spl.Cpu.Acquire: from the moment the test-and-set finds the lock free; the spinning before it changes nothing.
- Spl.Machine.SwitchOn: one step as far as other CPUs are concerned; none of them touches what it touches.
- Queues.Queue.constructor: sizes from 1 to below 2^30; the code does not check.
- Uios.Uio.Uiomove: kernel-space buffers; user-space ones, which can fault, are not modelled.
- UserStack.User.PushArgs: only the stack is mapped, and the arguments take less than 2 GB, as kernel memory does; the program's own segments are not modelled.
- CondVar takes and releases the lock in one step, and a thread taken off the channel can go on at once: more interleavings, not fewer.
- Migration.RunQueues.Consider: as one piece of code with nothing else running; Threads has it interleaved with everything else.
- Volumes have fewer than 2^23 blocks, since a block's byte offset is a 32-bit product; memory for vnodes does not run out.
- Vnodes are entries of a table found by inode number, not pointers; open counts and the superblock's dirty flag, which nothing sets, are not modelled.
- alloc_kpages and free_kpages are a pool of pages: fresh ones, or failure.
- Memory in KHeap holds one value per address written; the overlap of words at neighbouring addresses is not modelled.
- In Threads a loop over threads under a run-queue lock is a sequence of steps, which allows more interleavings than the code; the context switch itself, cpu_idle and the hardware's interrupts are single steps.
- TLB shootdown and the offline interrupt, which takes a run-queue lock under the IPI lock.
- The exercises in synchprobs, fork, waitpid and process ids, the file table, bswap64, vfs_setbootfs.
- The ELF loader, the virtual memory system, device drivers, traps and assembler code.
