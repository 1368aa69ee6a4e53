# JOS in Dafny

A verified model of the hard parts of JOS, the MIT 6.828 operating system, and of the small
shell that comes with its homework: the file system, physical pages and page tables,
copy-on-write fork, two heap allocators, pipes, the multi-CPU scheduler with its kernel lock,
environment identifiers, and a recursive-descent parser.

`dafny verify dfyconfig.toml` checks everything.

## What is modelled

| file | what it holds |
|---|---|
| `FileSystem.dfy`, `Bitmap.dfy` | files on blocks: bitmap, direct and indirect slots, byte-range reads and writes, truncation |
| `FsFormat.dfy` | the program that builds the first disk image, and when the image is sound |
| `BlockCache.dfy` | the cache of disk blocks in the file server's address space |
| `PageTables.dfy` | page frames, reference counts, the free list, and page tables that live in frames themselves |
| `CopyOnWrite.dfy` | user-level fork as a step system over any number of environments, simulated by eager copying; the library calls as methods |
| `LwipHeap.dfy` | lwIP's first-fit heap with headers linked inside the heap array |
| `UserMalloc.dfy` | the user library's malloc and free, with a count in the last word of each page |
| `PipeRing.dfy` | the pipe's ring buffer, one reader and one writer interleaved at every memory access |
| `PipeRefs.dfy` | the reference-count protocol that decides whether the other end of a pipe is closed |
| `Scheduler.dfy` | scheduling, trap entry and exit and the kernel lock on any number of CPUs |
| `EnvIds.dfy` | how environment ids are made, and which ones envid2env accepts |
| `ShellParser.dfy` | tokens, grammar, printer and parser of the shell |

Code that updates state is written as classes whose methods keep the loops and branches of the
source.  What an object holds is kept in a few fields of value types, and each method is proved
against lemmas about those values.  Where the source relies on interleaving (fork, pipes, the
scheduler), a step system gives every system call, memory access or lock instruction its own
step, and the main theorems are about every run.

Some properties that the documentation or the design promises depend on a condition. The code is
modelled as it is; the condition is proved exact, and the failing case is shown:

* `file_block_walk` is documented to reject block numbers from NDIRECT + NINDIRECT on; the
  comparison in the code lets that one number through and returns the word after the table.
  `file_get_block` then returns the file's own block if and only if the number is in range
  (`FileSystem.Server.FileGetBlock`); otherwise it may overwrite another file and lose a block
  (`FileSystem.StrayFillBreaks`, `FileSystem.StrayHappens`).  Reading, writing and truncating keep
  their promises unless the range touches that block.
* `fsformat` makes an image if and only if everything fits, and the image is sound if and only if
  at least one file was given: for an empty directory, rounding a signed zero up gives the root
  directory a block that was never allocated (`FsFormat.Format`, `FsFormat.EmptyImage`).
* With two CPUs or more, a request to the kernel is harmless if and only if it does not set the
  status of an environment on another CPU, make one that waits for a message runnable, or destroy
  one that is already dying.  Harmless means that no run that goes on from it leads to an environment
  that is on two CPUs or is marked wrongly (`Scheduler.AllowedIsExact`).
* The user library's malloc keeps its heap in order if and only if it does not move on from the last
  page of the heap.  If it does, its scan goes round the 32-bit address space to page 0 or to a range
  that wraps around (`UserMalloc.Allocator.Malloc`, `UserMalloc.StrayStop`, `UserMalloc.GoesAstray`).
* Memory freed can be used again if and only if no other chunk ends in its last page and malloc has
  not lost a reference there, which it does with every new chunk of a multiple of the page size
  (`UserMalloc.Allocator.Free`, `UserMalloc.Allocator.Malloc`).
* `fork` is to give the child an exception stack; the code also copies the child's fresh page over
  the parent's (`CopyOnWrite.Library.Fork`).

## Model

| member | source | states |
|---|---|---|
| `Bitmap.MarkFrees` | lab/fs/fs.c:40-47 | setting a block's bit in the packed bitmap makes exactly that block free as well |
| `Bitmap.FlipTakes` | lab/fs/fs.c:67-71 | flipping the bit of a free block takes that block and no other |
| `Bitmap.ClearTakes` | lab/fs/fsformat.c:127-128 | clearing a bit with and-not takes that block and no other |
| `FileSystem.PutWordAt` | lab/fs/fs.c:166-167 | a block number stored in a table of little-endian words is read back, and no other word of the table changes |
| `FileSystem.FreeOrInOneSlot` | lab/fs/fs.c:57-76 | under the invariant every unreserved block is free in the bitmap if and only if no slot holds it, and at most one slot of one file does |
| `FileSystem.StrayFillBreaks` | lab/fs/fs.c:143-200 | if the word after a table is in a block of another file and is zero, asking for block NDIRECT + NINDIRECT changes bytes of that file, and a block is lost: the invariant fails whatever the owners |
| `FileSystem.StrayHappens` | lab/fs/fs.c:148 | a sound disk on which that happens |
| `FileSystem.Server.CheckBitmap` | lab/fs/fs.c:82-96 | passes exactly if no reserved block is free, and always on a sound disk |
| `FileSystem.AssignPtr` | lab/fs/fs.c:158-165 | giving a free block to an empty slot changes no other slot of any file, even when the slot is a word inside a block |
| `FileSystem.AssignKeeps` | lab/fs/fs.c:158-165 | it keeps each block free or in exactly one slot |
| `FileSystem.AssignBytes` | lab/fs/fs.c:189-196 | filling a hole with a zeroed block changes no byte of any file |
| `FileSystem.ReleaseKeeps` | lab/fs/fs.c:427-430 | freeing a slot's block keeps each block free or in exactly one slot; a table may go only when it holds no numbers |
| `FileSystem.ReleaseBytes` | lab/fs/fs.c:427-430 | it turns that block of the file into a hole and changes no other byte of any file |
| `FileSystem.StoreKeeps` | lab/fs/fs.c:409 | a store into a data block changes no slot, so no table is ever overwritten |
| `FileSystem.StoreBytes` | lab/fs/fs.c:408-409 | a store into a data block changes exactly the bytes of that range of that file |
| `FileSystem.Server.FreeBlock` | lab/fs/fs.c:40-47 | afterwards exactly that block is free as well |
| `FileSystem.Server.AllocBlock` | lab/fs/fs.c:57-76 | takes the lowest free block, and fails exactly when none is free |
| `FileSystem.Server.FileBlockWalk` | lab/fs/fs.c:143-170 | each error exactly in its case; otherwise the slot of the file block, which exists if and only if the number is not NDIRECT + NINDIRECT; allocating the table changes no byte of any file and no other slot |
| `FileSystem.Server.FileGetBlock` | lab/fs/fs.c:180-200 | for a number in range, the block in the slot, inside the disk, past the reserved blocks and not free, so the panics cannot happen; filling holes changes no byte of any file and ownership is kept; no space only on a full disk for a block that is not there. The block returned is the file's own if and only if the number is in range |
| `FileSystem.Server.FileRead` | lab/fs/fs.c:364-386 | unless the range touches block NDIRECT + NINDIRECT: exactly the stored bytes up to the count or the end of the file, or an error past the largest file, or where a block is missing and the disk is full; no byte and no size of any file changes even when holes are filled |
| `FileSystem.Server.FileWrite` | lab/fs/fs.c:393-415 | the size becomes the maximum in any case; unless the range touches block NDIRECT + NINDIRECT, exactly the bytes from offset to offset + count of the file change, or a prefix of them up to a block that is missing when the disk is full, or none past the largest file; every other byte of every file is kept |
| `FileSystem.Server.FileFreeBlock` | lab/fs/fs.c:419-432 | in range, the block becomes a hole and nothing else changes; errors exactly in their cases; at NDIRECT + NINDIRECT nothing changes if and only if the word after the table is zero or the access panics |
| `FileSystem.Server.FileTruncateBlocks` | lab/fs/fs.c:443-459 | unless it frees by the word after the table: exactly the blocks past the new end are gone, the table goes when the direct slots suffice, and nothing leaks |
| `FileSystem.Server.FileSetSize` | lab/fs/fs.c:462-470 | for every size, unless it truncates that way: sets the size, keeps all bytes of kept blocks and all other files, zeroes what lies past the last kept block, and leaves no block past the end |
| `FsFormat.RoundUps` | lab/fs/fsformat.c:34 | the rounding macro gives whole blocks on unsigned numbers, and one block for zero on signed ones |
| `FsFormat.LinkKeeps` | lab/fs/fsformat.c:140-146 | pointing an empty slot at an unused block keeps slots and owners in agreement |
| `FsFormat.Formatter.Alloc` | lab/fs/fsformat.c:81-89 | hands out consecutive blocks and fails when the position reaches the end of the disk |
| `FsFormat.Formatter.OpenDisk` | lab/fs/fsformat.c:91-120 | succeeds exactly if the boot block, the super block and the bitmap leave room; everything is then marked free |
| `FsFormat.Formatter.FinishFile` | lab/fs/fsformat.c:134-148 | the file consists of consecutive blocks, with a table exactly when the direct slots are full, and other files are untouched; fails exactly if the table does not fit |
| `FsFormat.Formatter.WriteFile` | lab/fs/fsformat.c:180-209 | succeeds exactly if the file is small enough and its blocks and table fit; the new file then holds exactly the bytes given, and the disk stays well linked |
| `FsFormat.Formatter.FinishDir` | lab/fs/fsformat.c:169-178 | succeeds exactly if the entries fit; the root directory gets its blocks, and one too many if it has no entries |
| `FsFormat.Formatter.FinishDisk` | lab/fs/fsformat.c:122-132 | exactly the blocks before the position are marked in use |
| `FsFormat.Format` | lab/fs/fsformat.c:218-243 | an image is made if and only if the arguments are in range and all blocks fit; every file can be read back from it; it satisfies the file system's invariant if and only if at least one file was given |
| `FsFormat.EmptyImage` | lab/fs/fsformat.c:169-178 | the smallest image without files is made, and no owners make it sound |
| `BlockCache.WriteBack` | lab/fs/bc.c:91-92 | writing the sectors of one block changes that block on disk and no other |
| `BlockCache.Remap` | lab/fs/bc.c:59-60 | mapping a page again with the permitted flags clears its dirty bit and keeps its data |
| `BlockCache.BitsAreDigits` | lab/fs/fs.c:34 | bit i of a word of the bitmap is binary digit i of the number stored for it |
| `BlockCache.FreeDigit` | lab/fs/fs.c:29-37 | a block is free exactly if its digit of the number in its bitmap block is 1 |
| `BlockCache.Cache.BcPgfault` | lab/fs/bc.c:29-67 | the block is mapped and clean, and the contents of no block change; panics exactly for a block that does not exist or that the bitmap, as stored in its own blocks, has as free |
| `BlockCache.Cache.FlushBlock` | lab/fs/bc.c:76-97 | the block on disk equals its contents, no contents change, and no other block on disk changes |
| `BlockCache.Cache.Store` | lab/fs/fs.c:409 | changes the contents of one block and marks it dirty; past the reserved blocks the bitmap is not affected |
| `BlockCache.Cache.Unmap` | lab/fs/bc.c:115-117 | unmapping a clean page changes no contents |
| `BlockCache.Cache.FsSync` | lab/fs/fs.c:495-501 | afterwards the disk equals the contents and nothing is dirty, for every block but block 0 |
| `PageTables.MoveExact` | lab/kern/pmap.c:512-531 | changing one entry moves exactly one reference from the old frame to the new one |
| `PageTables.StoreData` | lab/kern/pmap.c:924-936 | a store into a data frame changes no translation |
| `PageTables.StorePte` | lab/kern/pmap.c:512-531 | a store into a page table changes one entry of one address space |
| `PageTables.StorePde` | lab/kern/pmap.c:443-452 | installing an empty table changes one directory entry and no translation |
| `PageTables.PopListed` | lab/kern/pmap.c:365-380 | taking the head keeps the rest of the free list, without duplicates |
| `PageTables.PushListed` | lab/kern/pmap.c:386-397 | putting back a frame that is not on the list keeps it free of duplicates |
| `PageTables.DropRefKeeps` | lab/kern/pmap.c:403-408 | dropping a reference keeps every count equal to the number of references, and the frame joins the free list exactly with its last one |
| `PageTables.InsertPage` | lab/kern/pmap.c:512-531 | mapping a frame keeps all counts exact |
| `PageTables.RemovePage` | lab/kern/pmap.c:579-592 | unmapping a frame keeps all counts exact |
| `PageTables.Kernel.constructor` | lab/kern/pmap.c:303-351 | exactly the frames not in use at boot are free |
| `PageTables.Kernel.PageAlloc` | lab/kern/pmap.c:365-380 | takes the head of the free list, zeroed if asked, changes no translation, and fails exactly when the list is empty |
| `PageTables.Kernel.PageFree` | lab/kern/pmap.c:386-397 | a frame without references returns to the free list |
| `PageTables.Kernel.PageDecref` | lab/kern/pmap.c:403-408 | one reference less for this frame and none other; with the last one it becomes the head of the free list, which otherwise stays as it is |
| `PageTables.Kernel.PgdirWalk` | lab/kern/pmap.c:432-457 | finds the page table, creating it exactly when asked and possible; no translation changes |
| `PageTables.Kernel.NewTable` | lab/kern/pmap.c:440-452 | the new table is the head of the free list, and its directory entry is present, writable and open to the user; out of memory exactly when no frame is free |
| `PageTables.EntryDecides` | lab/kern/pmap.c:451 | as every directory entry is open, what a program may do with a page is what the entry of that page says |
| `PageTables.Kernel.PageLookup` | lab/kern/pmap.c:544-562 | returns the frame the address translates to, and changes nothing |
| `PageTables.Kernel.PageInsert` | lab/kern/pmap.c:512-531 | the entry of that page is the frame with exactly the given permissions and PTE_P, so a program reads or writes there if and only if they say so; only the translation of that page of that environment changes, also when the same frame is inserted again; out of memory exactly when a table is needed and none is free, and then nothing changes; counts stay exact |
| `PageTables.Kernel.PageRemove` | lab/kern/pmap.c:579-592 | that page no longer translates, nothing else changes, and its frame loses one reference |
| `PageTables.Kernel.EnvSetupVm` | lab/kern/env.c:165-207 | a new address space with nothing mapped below UTOP, the kernel's entries above and itself at UVPT, readable by the user and not writable; all other translations are kept |
| `PageTables.Kernel.EnvFree` | lab/kern/env.c:432-480 | exactly the references of other environments remain, every frame only this one referred to is free, and nobody else's translations change |
| `PageTables.Kernel.SysPageAlloc` | lab/kern/syscall.c:192-223 | succeeds exactly under its checks with enough free frames; maps one zeroed frame at one page, which the program can then read, and write if and only if it asked for PTE_W, and changes no other translation; on failure nothing changes |
| `PageTables.Kernel.SysPageMap` | lab/kern/syscall.c:241-271 | succeeds exactly under its checks; the target page is the source's frame with exactly the given permissions, readable, and writable if and only if they say so, and no other translation changes; on failure nothing changes |
| `PageTables.Kernel.SysPageUnmap` | lab/kern/syscall.c:280-296 | that page is unmapped and no other translation changes |
| `PageTables.Kernel.UserStore` | lab/kern/pmap.c:924-936 | a store by a user program through its own mapping changes one word of one frame and no translation of anybody |
| `CopyOnWrite.ChildPte` | lab/lib/fork.c:74-87 | the child's entry refers to the same frame and can be accessed if the parent's can; shared pages keep their permissions, writable and copy-on-write ones become copy-on-write, others stay read-only |
| `CopyOnWrite.WriteKeeps` | lab/lib/fork.c:53-59 | a store keeps the invariant over all mappings |
| `CopyOnWrite.FaultCopyKeeps` | lab/lib/fork.c:42-43 | copying into the temporary page keeps the invariant |
| `CopyOnWrite.FaultMapKeeps` | lab/lib/fork.c:44-49 | mapping the private copy keeps the invariant |
| `CopyOnWrite.MapChildKeeps` | lab/lib/fork.c:87-90 | mapping the page in the child keeps the invariant, although the parent can still write to it |
| `CopyOnWrite.MapSelfKeeps` | lab/lib/fork.c:91-96 | marking the parent's own page copy-on-write again keeps the invariant, also when the parent faulted on it in between |
| `CopyOnWrite.WriteSim` | lab/user/dumbfork.c:25-79 | a store has the effect it has when every environment owns a copy |
| `CopyOnWrite.FaultAllocSim` | lab/lib/fork.c:37-39 | allocating the temporary page changes nothing that anybody reads |
| `CopyOnWrite.FaultCopySim` | lab/lib/fork.c:42-43 | nor does copying into it |
| `CopyOnWrite.FaultUnmapSim` | lab/lib/fork.c:44-45 | nor does unmapping the old page, whose content is then in the temporary one |
| `CopyOnWrite.FaultMapSim` | lab/lib/fork.c:46-47 | nor does mapping the copy in its place |
| `CopyOnWrite.MapChildSim` | lab/lib/fork.c:87-90 | mapping the page in the child is an eager copy of it, unless the parent can still write to it |
| `CopyOnWrite.MapSelfSim` | lab/lib/fork.c:91-96 | giving up write access is an eager copy of a page that was writable, and otherwise changes nothing |
| `CopyOnWrite.StackKeeps` | lab/lib/fork.c:149-161 | setting up the exception stack keeps the invariant |
| `CopyOnWrite.StackSim` | lab/lib/fork.c:149-161 | it gives the child a zeroed page and clears that of the parent, and nobody else sees a difference |
| `CopyOnWrite.NextKeeps` | lab/lib/fork.c:14-99 | every step of every environment keeps the invariant |
| `CopyOnWrite.NextSim` | lab/lib/fork.c:14-99 | every step is matched by copying or storing under eager copying |
| `CopyOnWrite.PagesUsable` | lab/lib/fork.c:64-99 | in every state an environment can read every page it has, and write exactly those with PTE_W |
| `CopyOnWrite.CopyOnWriteIsEagerCopy` | lab/lib/fork.c:14-170 | from any related states, every read of every run returns what it returns under eager copying |
| `CopyOnWrite.ForkIsTransparent` | lab/lib/fork.c:117-170 | from any state with nothing in progress and no copy-on-write page so far, the values read along any run of forks, faults, reads and writes are those of eager copying |
| `CopyOnWrite.SharedMeansReadOnly` | lab/lib/fork.c:53-99 | after any run, two mappings of one frame are both marked shared or neither is writable, except for a page being duplicated to a child that has not started |
| `CopyOnWrite.StoreShowsWhereShared` | lab/lib/fork.c:76-83 | a store shows in the page stored to and in shared mappings of its frame, and nowhere else |
| `CopyOnWrite.Library.PgFault` | lab/lib/fork.c:14-51 | succeeds exactly for a write to a copy-on-write page with memory left; the page is then private and writable with the same content, and nobody sees a difference |
| `CopyOnWrite.Library.DupPage` | lab/lib/fork.c:64-99 | has the effect of copying the page to the child |
| `CopyOnWrite.Library.Fork` | lab/lib/fork.c:117-170 | the nested loops copy exactly the pages mapped from UTEXT up to the exception stack, contents and permissions; the child gets a zeroed exception stack, the parent's is cleared, and every other page of every environment is left alone |
| `LwipHeap.EveryByteInABlock` | lab/net/lwip/core/mem.c:259-286 | every byte of the heap is in exactly one block |
| `LwipHeap.LivePayloadsDisjoint` | lab/net/lwip/core/mem.c:479-605 | payloads of different allocations do not overlap and reach no header |
| `LwipHeap.StoreHeader` | lab/net/lwip/core/mem.c:409-454 | with headers stored as words of the heap itself, a header stored for a block of the new tiling leaves those of all blocks that stay intact, although it may cover what is left of one that goes |
| `LwipHeap.ReadBeforeMoving` | lab/net/lwip/core/mem.c:412-427 | a header moved down by one word overwrites the old link to the next block, so that must be read first |
| `LwipHeap.MergeKeepsSound` | lab/net/lwip/core/mem.c:221-254 | merging two free neighbours keeps the tiling, the links, the lowest free pointer and all allocations |
| `LwipHeap.SplitKeepsSound` | lab/net/lwip/core/mem.c:537-560 | splitting a block keeps the tiling and the links |
| `LwipHeap.ShiftKeepsSound` | lab/net/lwip/core/mem.c:409-433 | moving the header of the free block behind a shrinking one keeps the tiling and the links |
| `LwipHeap.Heap.constructor` | lab/net/lwip/core/mem.c:259-286 | one free block and a sentinel |
| `LwipHeap.Heap.PlugHoles` | lab/net/lwip/core/mem.c:221-254 | after merging with free neighbours no two free blocks are adjacent, and the freed range lies in one free block |
| `LwipHeap.Heap.MemFree` | lab/net/lwip/core/mem.c:294-340 | frees exactly that allocation, leaves every other one in place, and ignores null and foreign pointers |
| `LwipHeap.Heap.MemMalloc` | lab/net/lwip/core/mem.c:479-605 | null exactly for size zero or when no free block anywhere fits, and then nothing changes; otherwise the lowest fitting block, cut when the rest can stand alone; live allocations keep their place and size |
| `LwipHeap.Heap.MemRealloc` | lab/net/lwip/core/mem.c:354-468 | null exactly when the block is too small; otherwise it stays in place with at least the new size, and what is given back is free |
| `UserMalloc.RoundedCovers` | lab/lib/malloc.c:52 | rounding to words covers the request exactly for all but the last three 32-bit sizes, which wrap to zero |
| `UserMalloc.LiveChunks` | lab/lib/malloc.c:41-112 | every byte of a live chunk is in a mapped page, outside the page's count, and in no other live chunk |
| `UserMalloc.MappedPages` | lab/lib/malloc.c:41-139 | a page of the heap is mapped if and only if a live chunk is on it, malloc is filling it, or malloc lost its reference to it |
| `UserMalloc.FreeKeeps` | lab/lib/malloc.c:114-139 | freeing one chunk keeps every other live chunk mapped, every count equal to the number of chunks it stands for and references of malloc, and every continued page inside a live chunk |
| `UserMalloc.FitKeeps` | lab/lib/malloc.c:57-69 | adding a chunk to the page being filled keeps all of that |
| `UserMalloc.LeaveKeeps` | lab/lib/malloc.c:70-75 | so does leaving a page for the next one |
| `UserMalloc.NewKeeps` | lab/lib/malloc.c:95-111 | so does a chunk on new pages |
| `UserMalloc.StrayStop` | lab/lib/malloc.c:83-93 | from the end of the heap the scan stops at the lowest unmapped page, or, for more than a page, at the first range that wraps around the address space |
| `UserMalloc.LastPageHappens` | lab/lib/malloc.c:57-75 | an allocator in good order whose next request leaves the heap |
| `UserMalloc.GoesAstray` | lab/lib/malloc.c:41-112 | that request answers null and leaves the allocator in disorder |
| `UserMalloc.Allocator.IsFree` | lab/lib/malloc.c:29-39 | on 32-bit addresses: true exactly if all pages of the range are below the end of the heap and unmapped, or the range wraps around |
| `UserMalloc.Allocator.Release` | lab/lib/malloc.c:114-139 | unmaps the continued pages and drops one reference on the last |
| `UserMalloc.Allocator.Free` | lab/lib/malloc.c:114-139 | frees exactly that chunk: the pages before its last are unmapped, the count of the last drops by one or the page is unmapped with its last reference, and every other page stays; all its pages are unmapped if and only if no other chunk ends there and malloc holds no reference, and then the same request finds room there; null is ignored |
| `UserMalloc.LeavingKeepsRoom` | lab/lib/malloc.c:70-75 | room that was there is still there when malloc leaves the page it was filling |
| `UserMalloc.Allocator.Scan` | lab/lib/malloc.c:83-93 | from inside the heap it stays there and stops at a stretch that is free, or, after two wraps, only if there is none; from the end of the heap it stops at the first address, going round, that is accepted |
| `UserMalloc.Allocator.Populate` | lab/lib/malloc.c:98-105 | maps all pages of the chunk, or none |
| `UserMalloc.Allocator.Malloc` | lab/lib/malloc.c:41-112 | the heap stays in order if and only if the scan does not end up outside; if it does not, null exactly for too large a request, no address space or no memory, and otherwise a new chunk of the rounded size, apart from all live ones, which stay as they are; a reference is lost exactly with new pages for a multiple of the page size; what happens outside |
| `PipeRing.ReaderKeeps` | lab/lib/pipe.c:117-135 | each load and store of the reader keeps the buffer between the positions equal to what was sent |
| `PipeRing.WriterKeeps` | lab/lib/pipe.c:152-169 | each load and store of the writer keeps it too: it never overwrites a byte not yet taken |
| `PipeRing.RunKeeps` | lab/lib/pipe.c:104-172 | any interleaving keeps it |
| `PipeRing.DeliversInOrder` | lab/lib/pipe.c:104-172 | in every interleaving the bytes delivered are a prefix of the bytes written, and the positions are never more than the buffer size apart |
| `PipeRing.ReaderTurn` | lab/lib/pipe.c:117-135 | one turn of the reader alone takes exactly the next byte, or changes nothing if there is none |
| `PipeRing.WriterTurn` | lab/lib/pipe.c:152-169 | one turn of the writer alone puts exactly its byte in the pipe, or changes nothing if it is full |
| `PipeRing.Drains` | lab/lib/pipe.c:104-136 | from any state the reader alone delivers every byte sent |
| `PipeRing.DeliversAll` | lab/lib/pipe.c:104-172 | so in every run every byte sent can still be delivered |
| `PipeRefs.EndsWithinPipe` | lab/lib/pipe.c:44-49 | the references to both ends together are at most those to the data page |
| `PipeRefs.EqualCountsMeanClosed` | lab/lib/pipe.c:82 | if the counts agree, nobody holds the other end |
| `PipeRefs.EqualCountsIffClosed` | lab/lib/pipe.c:82 | while no descriptor is half open or half closed, the counts agree if and only if nobody holds the other end |
| `PipeRefs.NextPaired` | lab/lib/fd.c:190-200 | no system call of dup or close ever leaves a descriptor mapped without the data page |
| `PipeRefs.ClosedStays` | lab/lib/fd.c:174-202 | no step makes an end held again that nobody holds |
| `PipeRefs.NextKeeps` | lab/lib/pipe.c:185-190 | every step of dup, close, fork, exit and the closed test keeps the invariant |
| `PipeRefs.PipeIsClosed` | lab/lib/pipe.c:75-89 | if the test answers yes in any state of any run, nobody holds the other end then or ever after |
| `PipeRefs.AnswersExactly` | lab/lib/pipe.c:75-89 | in any state of any run with no descriptor half open or half closed, the test, uninterrupted, changes nothing and answers yes if and only if nobody holds the other end |
| `PipeRefs.CloseCloses` | lab/lib/pipe.c:185-190 | close, uninterrupted, unmaps the descriptor and its data page and nothing else |
| `PipeRefs.DupDups` | lab/lib/fd.c:174-202 | dup, uninterrupted, makes the new number a descriptor for the same end, whether it was open before or not, and changes nothing else |
| `PipeRefs.DupOntoItself` | lab/lib/fd.c:174-202 | dup of a descriptor onto itself only closes it |
| `PipeRefs.ForkShares` | lab/lib/fork.c:117-170 | the child has exactly the descriptors of its parent and nobody else's change |
| `PipeRefs.DestroyDrops` | lab/kern/env.c:432-480 | a destroyed environment has none left and nobody else's change |
| `Scheduler.ScanFinds` | lab/kern/sched.c:33-52 | the circular scan returns the first runnable slot, or none exactly if there is none |
| `Scheduler.PickCloser` | lab/kern/sched.c:33-52 | each choice is the waiting environment or circularly nearer to it |
| `Scheduler.ChosenInTime` | lab/kern/sched.c:33-52 | a waiting environment is chosen before its circular distance runs out |
| `Scheduler.WithoutCurrentLowestWins` | lab/kern/sched.c:33-52 | with no current environment, a slot is chosen exactly if no lower one is runnable |
| `Scheduler.CpuInKernel.EnvRun` | lab/kern/env.c:536-568 | the environment runs; the one that was running on this CPU, if another, is runnable, and no other slot of the table changes; running a runnable environment, or the current one, leaves exactly the environments on some CPU marked running or dying, whatever the other CPUs run |
| `Scheduler.CpuInKernel.SchedHalt` | lab/kern/sched.c:61-104 | halts with no current environment if any is alive, and enters the monitor otherwise |
| `Scheduler.CpuInKernel.SchedYield` | lab/kern/sched.c:11-57 | the first runnable slot from the current one on takes over, the current environment, if it was running, becomes runnable, and no other slot changes; with none, the current one goes on if it was running, and otherwise the CPU halts; nobody alive dies of it; the environments on some CPU are then exactly those marked so |
| `Scheduler.CpuInKernel.Resume` | lab/kern/trap.c:304-311 | an environment that is still running goes on with the table unchanged, and otherwise the CPU yields; whatever state it was left in, the environments on some CPU are then exactly those marked so |
| `Scheduler.CpuInKernel.EnvDestroy` | lab/kern/env.c:487-504 | unless it was dying already, no environment on another CPU is freed: the marks agree with the CPUs afterwards, whether it was the current one or not |
| `Scheduler.CpuInKernel.Trap` | lab/kern/trap.c:253-311 | each request does to the table what it is for: exofork takes a free slot that does not run yet, a message wakes its receiver, destroy frees its target or leaves it to the CPU it is on, a receiver waits and others run; a dying environment is collected; after any allowed request the environments on some CPU are exactly those marked so |
| `Scheduler.YieldYields` | lab/kern/sched.c:11-104 | who runs after a yield, what becomes of the table, and that everybody alive stays alive |
| `Scheduler.RequestsDone` | lab/kern/syscall.c:76-123 | what each request of a running environment does to the table |
| `Scheduler.YieldSettles` | lab/kern/sched.c:11-104 | after a yield the environments marked running or dying are exactly those current on some CPU |
| `Scheduler.HandleSettles` | lab/kern/syscall.c:76-123 | so are they after any allowed system call |
| `Scheduler.EnterSettles` | lab/kern/trap.c:253-311 | and after any trap |
| `Scheduler.AllowedIsExact` | lab/kern/syscall.c:104-123 | with two CPUs or more, a request is allowed if and only if no run that goes on from it with allowed requests, one instruction at a time, leads to an environment on two CPUs, a current environment not marked so, or a mark without a CPU |
| `Scheduler.BreaksAtOnce` | lab/kern/env.c:487-504 | changing the status of an environment on another CPU, or destroying a dying one, breaks that at once |
| `Scheduler.BreaksLater` | lab/kern/syscall.c:336-374 | making a waiting receiver runnable breaks it once another CPU has run the receiver and the message comes |
| `Scheduler.SettingABusyStatusRunsTwice` | lab/kern/syscall.c:104-123 | a status set on an environment that is on another CPU lets it run on two |
| `Scheduler.DestroyingTwiceFreesACurrentSlot` | lab/kern/env.c:487-504 | a second destroy frees a slot that is current on a CPU |
| `Scheduler.LockStepKeepsLock` | lab/kern/spinlock.c:38-116 | every instruction of acquiring and releasing the lock keeps its word and owner in agreement with the CPUs |
| `Scheduler.StepKeeps` | lab/kern/trap.c:253-311 | every guarded step of every CPU keeps the invariant |
| `Scheduler.KernelLockIsExclusive` | lab/kern/spinlock.c:38-116 | in every reachable state at most one CPU is in the kernel, a CPU holds the lock exactly then, and the lock's panics are unreachable |
| `Scheduler.EnvironmentsRunOnce` | lab/kern/sched.c:11-104 | in every reachable state no environment is current on two CPUs, no free slot is current, and those marked running or dying are those on a CPU |
| `EnvIds.IdIsClosed` | lab/kern/env.c:231-235 | the id after any number of allocations of a slot has a closed form, with the wrap past 2^31 |
| `EnvIds.IdNamesSlot` | lab/kern/env.c:231-235 | ids are positive 32-bit numbers whose low bits are the slot |
| `EnvIds.SlotsNeverCollide` | lab/kern/env.c:231-235 | ids of different slots never agree |
| `EnvIds.IdsRepeat` | lab/kern/env.c:231-235 | two allocations of a slot share an id if and only if they are a multiple of 2^19 - 1 apart |
| `EnvIds.EnvTable.constructor` | lab/kern/env.c:117-132 | the free list holds all slots in order |
| `EnvIds.EnvTable.EnvAlloc` | lab/kern/env.c:217-279 | takes the first free slot and gives it its next id |
| `EnvIds.EnvTable.EnvFree` | lab/kern/env.c:432-480 | the slot goes back to the head of the free list |
| `EnvIds.EnvTable.Envid2Env` | lab/kern/env.c:75-109 | accepts exactly the latest id of a slot in use, under the permission check, and zero for oneself |
| `EnvIds.EnvTable.RejectStale` | lab/kern/env.c:75-109 | every earlier id of a slot is rejected for the next 2^19 - 2 allocations |
| `ShellParser.NeverLeftovers` | HW/HW_shell/sh.c:285-376 | for every line the only errors are a missing file and too many arguments |
| `ShellParser.ParsesToCanonical` | HW/HW_shell/sh.c:301-376 | every command parsed nests pipes to the right, puts redirections around single commands, and has fewer than MAXARGS proper words |
| `ShellParser.PrintParse` | HW/HW_shell/sh.c:285-376 | printing a command and parsing the line gives the command back if and only if it has that form |
| `ShellParser.ReprintParses` | HW/HW_shell/sh.c:285-376 | a line that parses and the text printed for its command parse alike |
| `ShellParser.TextScans` | HW/HW_shell/sh.c:219-254 | printed tokens are scanned as the same tokens |
| `ShellParser.ScanIsLex` | HW/HW_shell/sh.c:219-254 | on every string, scanning ahead for tokens finds what reading the characters one at a time from the end finds |
| `ShellParser.SimpleMeans` | HW/HW_shell/sh.c:322-376 | up to the next bar: parses exactly if every `<` and `>` is followed by a word and there are fewer than MAXARGS others; those words, in order, are the arguments, and the words after `<` and `>`, in order, the redirections from the inside out |
| `ShellParser.PipelineMeans` | HW/HW_shell/sh.c:309-320 | a line parses exactly if each stretch between bars does, to those commands from left to right; otherwise the first that does not is to blame |
| `ShellParser.GetToken` | HW/HW_shell/sh.c:219-254 | returns the first token of what is left and moves past it |
| `ShellParser.Peek` | HW/HW_shell/sh.c:256-266 | says whether the next token is one of the given symbols and consumes none |
| `ShellParser.ParseRedirs` | HW/HW_shell/sh.c:322-344 | reads every redirection that comes next, in order, and stops before anything else; fails exactly at a symbol without a file |
| `ShellParser.ParseExec` | HW/HW_shell/sh.c:346-376 | the arguments are the words up to the next bar that do not follow `<` or `>`, the redirections those that do; the error says which is wrong, and what is left is from the bar on |
| `ShellParser.ParsePipe` | HW/HW_shell/sh.c:309-320 | agrees with the grammar on tokens, which `PipelineMeans` gives a meaning |
| `ShellParser.ParseCmd` | HW/HW_shell/sh.c:285-307 | for every line: one command for each stretch of tokens between bars, with its words as arguments and its redirections in order, or the error of the first stretch that has one; and terminates |

## Assumptions

* Input and output, clocks and memory exhaustion are parameters: what sys_page_alloc finds, how often
  it succeeds, whether an environment exists.
* Reference counts, pipe positions, file sizes and the counts of the user heap are unbounded.
* fsformat's array of directory entries starts out zeroed.
* Arguments that lwIP asserts on are the caller's obligation, and requested sizes do not wrap
  when they are aligned.
* Comments and code of sys_page_alloc disagree about errors; the code is followed.

## Left out

- Directories and path names of the file system: a File record inside a directory's data block aliases file contents; records are kept apart here.
- FileSystem.Server.FileGetBlock: at block NDIRECT + NINDIRECT, the word after the table is taken to be in the cache; if its block is free and not cached, the access panics instead.
- FileSystem.Server.FileRead: promises nothing but the shape of the disk once the range touches block NDIRECT + NINDIRECT.
- FileSystem.Server.FileWrite: likewise promises only the sizes then.
- UserMalloc: a count that overflows its word.
- UserMalloc.Allocator.Malloc: says nothing of calls after one that left the heap.
- CopyOnWrite.Library.Fork: interruption between the calls, which the step system covers; the system calls that set up the exception stack are one step there.
- CopyOnWrite: memory exhaustion during a fault, on which the library panics.
- PipeRefs: the inside of fork, which copies descriptor pages before data pages, is one step; more than one CPU.
- PipeRing: more than one reader or writer, and end of file with bytes still pending.
- Scheduler.AllowedIsExact: a single CPU, on which making a waiting receiver runnable does no harm.
- ShellParser.ParseExec: the argument array of a node is filled in after redirections point at the node; the tree is built when it is complete, so sharing of nodes is not captured.
- LwipHeap.Heap: the methods keep headers in an array of their own; `StoreHeader` relates each store to the words of the heap. Pools and the lock around the heap are not modelled.
- The TLB, kernel-part page tables made at boot (their frames count as reserved), and the translation of addresses above UTOP.
- The page-transfer half of IPC, trap frames and registers, devices, spawn and ELF loading.
- lwIP beyond its heap, the network server, and user programs other than dumbfork.
