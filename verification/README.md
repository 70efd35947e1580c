# Verified models of three systems components

This project models and proves three stateful C programs that share one repository: a user-level virtual memory (p3),
a user-level thread library with two schedulers (p2), and a block file system (p4). Each is modelled as it is written,
imperative where it is imperative, and its guarantees are proved for every input, every state and every run. All files
verify together: `dafny verify dfyconfig.toml`.

## The virtual memory

Pages are scattered over frames and threaded together by a link word in the first bytes of each frame. Page size, word
size, table widths and the address of the simulated memory are parameters of a `Scheme` (`VmScheme`), the capacity of
the cache is one of the memory; the scheme's flag `asWritten` selects what directory entries hold. As the program is
written, every entry holds the address of the directory itself (`p3/code/my_vm.c:56`), although a table frame was just
reserved; the evident intent is that frame. Both readings are verified. Under the first only pages behind the first
directory entry have cells of their own (`OwnCellIffUsable`). The cell of page 0 then is the first directory entry, so
that non-null addresses in page 0 pass for allocated ones: `CheckIsRight` says exactly when the check is wrong,
`StoreInDirectory` and `DirectoryCleared` what a put and a free there leave behind, and `VmClient` does both to a new
memory.

`VmState` defines the invariant: which page is on which frame, which pages form an allocation, and that tables, links,
bitmaps and the zeros in free frames agree with that. The content of an allocation is a flat sequence of bytes.
`VmSteps` proves that mapping, linking, storing and freeing one page keep the invariant and what they do to those
sequences; `Vm` is the program itself, a class over arrays with the translation cache of `Tlb` as a linked list;
`VmStream` and `VmAlloc` carry the recursion along a chain and the allocation loops. `VmTrace` says which pages each
call looks up. `Lru` is the theory of the cache as a function of the history of lookups. As written, a directory entry
is also the cell of a low page, and the first release of such a page clears it; the invariant keeps track of the pages
released. `VmTheorems` and `VmClient` have the main results: reading back what was put, freeing as the inverse of
allocating, down to every byte of memory exactly when the cells of the pages were null before, conservation of frames,
a transparent cache, and LRU inclusion; `VmTwins` carries the last to whole programs, run over caches of two
capacities.

## The thread library

`SchedState` is the library as a state machine: each library call, timer signal, termination and scheduler pass is a
step. `SchedLaws` says what each step leaves of the time, the waits and the queues of every thread. `SchedInv` has the
invariant and proves that every step keeps it: each thread in exactly one place, waits that name what can end them,
sorted usage, and bounded clocks. `SchedRuns` and `SchedTheorems` prove bounded waiting, boosting in time and freedom
from starvation over runs; `SchedMutex` proves mutual exclusion in every run, and that waiting is sound, seekers
finding a holder and holders being the threads inside, exactly in the runs whose removals find the mutex free;
`SchedSafety` proves that wakeups reach those that wait, progress unless threads wait in a circle, and that the
shortest job is dispatched. `Scheduler` is the program over mutable thread control blocks; each of its methods does to
the abstract state exactly what the step says. `SchedClient` carries out whole runs. `ThreadLists` has the circular
queue and the linked list, and `LinkedLoops` the scheduler loops over them.

Destroying a held mutex is two steps. The unlock inside it lifts the mask of the timer
(`p2/code/thread-worker.c:227`), so the caller can be interrupted before it takes the mutex off the list.
`SchedDestroy` has a run in which that breaks a critical section, and a discipline for programs under which it never
does.

A join is two steps as well. It looks for the ended thread with the timer masked and waits unmasked
(`p2/code/thread-worker.c:124-136`); `SchedJoin` proves that a joiner is stranded exactly if its target ends in
between, and has a run in which it does.

## The file system

The disk is an array of blocks. `FsTree` says what users see: a tree of directories, whose entries are an append-only
list of which the first with a name counts, and of files, each with an image of sixteen blocks, a size, and the set of
blocks that are there. `FsNames` and `FsContents` prove the namespace and content laws over runs. `FsLayout` has the
inode table, `FsInv` relates the disk to the tree and proves that each kind of disk update keeps that relation, and
`FileSystem` is the program: bitmap allocation, inode access, directory search and insertion, path walk, and the read
and write loops. While a write is under way the inode lives in memory only; the relation then holds of the disk as it
would be with that inode written. `FsTheorems` has block ownership, directories as finite maps, and whole runs on the
disk.

Departures from the evident intent are modelled as they are. The search for a duplicate name compares a block number
with VALID (`p4/code/rufs.c:227`) and never looks anywhere, so a second entry with the same name is added and stays
hidden. A write adds the bytes written to the size even when it overwrites (`p4/code/rufs.c:871`); `SizeExact` says
when the size is exact. A full directory still costs an inode number. `SameNameTwice` and `OverwritingGrows` show the
first two at concrete inputs.

`Bitmap` serves both the page allocator, whose bits are numbered from the most significant one, and the file system,
whose bits are numbered from the least significant one. `Words` has bytes and little-endian words; `Collections` has
facts about lists and maps that all three use.

## Model

| member | source | states |
|---|---|---|
| `VmScheme.InitPagingScheme` | p3/code/my_vm.c:656-678 | For sizes that are powers of two the computed widths form a usable scheme: page size and word size as given, a table fills exactly one page, and every address bit up to the smaller of the two memory sizes is used, unless the directory is as large as a table. |
| `VmScheme.NumBitsNeededToEncode` | p3/code/my_vm.c:650-654 | The position of the highest set bit: the result n has 2^n <= val < 2^(n+1); -1 for zero. |
| `Vm.SpareIffEnough` | p3/code/my_vm.c:60-63 | The number of spare frames that the start-up check asks for is positive, as that check asserts, exactly for tables of 32 entries or more, and for tables of 16 with two directory entries or more. |
| `VmScheme.ExtractReconvert` | p3/code/my_vm.c:240-256 | Splitting a valid address into directory, table and byte parts and putting them together gives the address back. |
| `VmScheme.ReconvertExtract` | p3/code/my_vm.c:240-256 | Putting parts in range together and splitting the address gives the parts back, and the address is valid. |
| `VmScheme.ValidIsBelow` | p3/code/my_vm.c:258-260 | An address is valid exactly if it lies below 2 to the number of address bits. |
| `VmScheme.CellsApart` | p3/code/my_vm.c:264-275 | Two different pages have cells in different frames or at non-overlapping offsets. |
| `VmScheme.SameFrameIndices` | p3/code/my_vm.c:240-256 | Pages whose cells lie in one table frame differ in the table index. |
| `Words.DecodeEncode` | p3/code/my_vm.c:436-436 | A word that fits its width survives being copied into memory and out again. |
| `Words.EncodeDecode` | p3/code/my_vm.c:391-391 | The bytes of a stored word are determined by its value. |
| `Bitmap.WithBit` | p4/code/rufs.h:66-72 | Setting or clearing one bit of a byte changes that bit and no other, in either bit order. |
| `Bitmap.MaskValues` | p3/code/my_vm.c:708-730 | Position 0 of a byte is the bit worth 128 in the page allocator and the bit worth 1 in the file system, and so on downwards and upwards. |
| `Bitmap.SetAt` | p3/code/my_vm.c:708-712 | Adds exactly the position to the set of marked positions. |
| `Bitmap.UnsetAt` | p3/code/my_vm.c:714-718 | Removes exactly the position from the set of marked positions. |
| `Bitmap.LowestUnsetBit` | p3/code/my_vm.c:721-730 | The lowest clear bit of a byte, -1 exactly when all are set. |
| `Bitmap.FirstAvailable` | p3/code/my_vm.c:733-742 | The lowest unmarked position of the whole bitmap, -1 exactly when there is none. |
| `Bitmap.NBitsAvailable` | p3/code/my_vm.c:745-759 | True exactly if at least n positions are unmarked. |
| `Bitmap.NumBitsSet` | p3/code/my_vm.c:761-770 | The number of marked positions. |
| `Bitmap.FirstFreeExists` | p3/code/my_vm.c:733-759 | A first unmarked position exists exactly if fewer positions are marked than there are: the count check and the search agree. |
| `VmState.WalkReachesCell` | p3/code/my_vm.c:264-275 | For every usable page the walk through the directory entry ends at the cell of that page. |
| `VmState.CellStored` | p3/code/my_vm.c:307-307 | Storing into the cell of one page changes the cell of no other page. |
| `VmState.CellNamesFrame` | p3/code/my_vm.c:441-454 | The cell of a mapped page holds the address of its frame. |
| `VmState.LinkStep` | p3/code/my_vm.c:402-439 | One step of the chain check: count pages are linked from a mapped page exactly if count - 1 are linked from the page its link word names. |
| `VmSteps.MapKeeps` | p3/code/my_vm.c:365-383 | Mapping a zeroed free frame to a free page keeps the invariant, adds one allocation with a page of zeros, and leaves the bytes of every other allocation alone. |
| `VmSteps.JoinKeeps` | p3/code/my_vm.c:390-392 | Writing a page address into the first word of the last frame of a chain joins two allocations: the bytes of the joined one are those of both in order, all others are unchanged, and no table changes. |
| `VmSteps.DropKeeps` | p3/code/my_vm.c:447-466 | Clearing the cell and the frame of the first page of an allocation leaves the invariant intact, the rest of the allocation with its remaining bytes, and every other allocation unchanged. |
| `VmSteps.WriteKeeps` | p3/code/my_vm.c:520-529 | Storing behind the link word of a frame overwrites exactly that stretch of the byte stream of the allocation and keeps tables, links and all other allocations. |
| `VmState.StreamConcat` | p3/code/my_vm.c:385-392 | The byte stream of two chains one after another is the concatenation of their streams. |
| `VmStream.PagesForIsCeiling` | p3/code/my_vm.c:348-348 | Quotient plus one for a remainder is the least number of pages whose payload holds the bytes, from any position. |
| `VmStream.LinkedIsRoom` | p3/code/my_vm.c:543-549 | The number of linked pages the check asks for is there exactly if the allocation has room for offset plus size bytes. |
| `VmStream.SkipPage` | p3/code/my_vm.c:515-518 | An offset beyond the payload continues on the next page at offset minus payload: the position in the stream is the same. |
| `VmStream.TakePage` | p3/code/my_vm.c:522-529 | After the payload of one page the rest continues at offset 0 of the next page, at the next stream position. |
| `VmStream.StreamSlice` | p3/code/my_vm.c:558-621 | The bytes of one frame behind its link word are a slice of the stream of its allocation. |
| `VmStream.FreedStep` | p3/code/my_vm.c:447-466 | Freeing the first page and then the rest is freeing all of them: pages, places and remaining bytes. |
| `VmAlloc.FirstFitUnique` | p3/code/my_vm.c:365-373 | Picking the lowest free position each time leaves no choice: two such sequences of one length from the same state are equal. |
| `VmAlloc.LinkedAll` | p3/code/my_vm.c:390-392 | When all links are written the mapped pages are one allocation, all of whose bytes are zero. |
| `Tlb.Cache.SearchAndRemove` | p3/code/my_vm.c:119-150 | Unlinks and returns the first entry of the page of the address, or returns null when there is none; the list and its length say what is left. |
| `Tlb.Cache.EvictLeastRecent` | p3/code/my_vm.c:152-175 | Removes exactly the last entry of the list; nothing from an empty list. |
| `Tlb.Cache.Add` | p3/code/my_vm.c:178-190 | Puts the translation in front, having evicted the last entry exactly when the cache was full. |
| `Tlb.Cache.Reinsert` | p3/code/my_vm.c:201-206 | Puts an entry found in front of the others. |
| `Lru.RunWellFormed` | p3/code/my_vm.c:119-218 | On every history the cache holds no page twice and never more than its capacity. |
| `Lru.Inclusion` | p3/code/my_vm.c:119-218 | On every history of lookups and removals the cache of a smaller capacity is a prefix of the cache of a larger one, and the larger one misses no more often. |
| `Lru.DropThenUse` | p3/code/my_vm.c:448-450 | Removing a translation and looking the page up again is, for the cache, one lookup. |
| `Lru.RunIsMostRecent` | p3/code/my_vm.c:119-218 | On every history the program produces the cache is exactly the most recent distinct pages looked up, in order of recency, as many as fit. |
| `Vm.EmptyLayoutInv` | p3/code/my_vm.c:45-67 | With directory and tables just initialised the invariant holds and nothing is allocated. |
| `Vm.VirtualMemory.constructor` | p3/code/my_vm.c:72-107 | A new virtual memory: empty cache, tables in place, nothing allocated, all invariants hold. |
| `Vm.VirtualMemory.InitPageTables` | p3/code/my_vm.c:45-67 | Reserves the directory frame and the table frames, fills the directory, marks page 0, and establishes all invariants. |
| `Vm.VirtualMemory.CheckCounts` | p3/code/my_vm.c:59-66 | The counts asserted at start-up hold: 1 + 2^page_dir marked frames, the remaining ones available, one marked page. |
| `Vm.VirtualMemory.FetchPte` | p3/code/my_vm.c:264-275 | Null for an address out of range or not in use, otherwise the address of the cell of its page. |
| `Vm.VirtualMemory.CheckTLB` | p3/code/my_vm.c:193-218 | Returns null or the cell of the page exactly as the page walk would, and records one lookup in the history; the cache, its counters and its order stay those of the history. |
| `VmClient.Compare` | p3/code/my_vm.c:193-218 | For every address the translation through the cache equals the page walk, in every state the program reaches, with whatever entries frees left behind; the memory stays in order. |
| `Vm.VirtualMemory.ValidPagesLinkedTogetherFrom` | p3/code/my_vm.c:402-439 | True exactly if that many pages are in use and linked from the start or, as written, the start is a non-null address in page 0 and all but the first are linked from the page of the directory's own address. Memory and allocations are unchanged; the pages looked up are recorded exactly. |
| `VmTrace.AcceptedIsRoom` | p3/code/my_vm.c:543-549 | For every address and size the check accepts exactly what lies within an allocation; as written also what lies within page 0, and what goes on from there in the page of the directory's own address. |
| `VmTheorems.CheckIsRight` | p3/code/my_vm.c:402-439 | The answer agrees with what is allocated exactly if no page is asked for, or the address is not a non-null one in page 0 as written, or more pages are asked for than are linked from the page of the directory's own address. |
| `VmTheorems.OnePageCheck` | p3/code/my_vm.c:402-439 | As written, the check for one page is right exactly for null and for addresses outside page 0. |
| `Vm.VirtualMemory.PageMap` | p3/code/my_vm.c:297-309 | Fails, changing nothing, exactly for an address out of range or in use; otherwise enters the frame into the cell of the page and marks the page. |
| `Vm.VirtualMemory.GetNextAvail` | p3/code/my_vm.c:313-320 | The address of the lowest unmarked page; when every page is marked, -1 shifted left by the offset in a machine word. |
| `Vm.VirtualMemory.MapPages` | p3/code/my_vm.c:365-383 | Maps pages and frames by first fit, each page an allocation of zeros of its own; every mapping succeeds. |
| `Vm.VirtualMemory.LinkPages` | p3/code/my_vm.c:390-392 | Links the mapped pages into one allocation. |
| `Vm.VirtualMemory.Malloc` | p3/code/my_vm.c:329-399 | Null exactly for zero bytes or when pages or frames are short, and then nothing changes; otherwise pages and frames by first fit become one allocation of zeros, the result is its address, and every other allocation keeps its bytes. |
| `Vm.VirtualMemory.PutAux` | p3/code/my_vm.c:491-531 | Stores the bytes at the stream position of the address, page after page; terminates by the pages left in the chain. |
| `Vm.VirtualMemory.PutValue` | p3/code/my_vm.c:537-556 | 0 exactly if the allocation reaches that far or, as written, the bytes lie within page 0; then exactly the bytes at the stream position of the address are replaced, and all other bytes and allocations keep; in page 0 bytes of the directory frame are replaced and nothing else. Otherwise -1 and memory is unchanged. The pages looked up are recorded exactly. |
| `Vm.VirtualMemory.GetAux` | p3/code/my_vm.c:558-621 | Returns the bytes at the stream position of the address, across pages and offsets beyond the payload. |
| `Vm.VirtualMemory.GetValue` | p3/code/my_vm.c:625-644 | Returns exactly the bytes at the stream position of the address, from page 0, as written, bytes of the directory; memory and allocations unchanged. |
| `Vm.VirtualMemory.FreePage` | p3/code/my_vm.c:447-464 | Frees the first page of an allocation: bitmaps, cell and frame cleared, the rest of the chain is an allocation with its remaining bytes. For page 0, as written, clears the directory, unmarks page 0 and frame 0, and finds a null link. |
| `Vm.VirtualMemory.FreeAux` | p3/code/my_vm.c:441-467 | Frees exactly the first pages of an allocation and keeps the bytes of what is left and of all others. From page 0, as written, frees the directory and stops there, however many pages are asked for. |
| `Vm.VirtualMemory.Free` | p3/code/my_vm.c:470-489 | Frees the pages that hold the size from the head of an allocation, if that many are linked; from a non-null address in page 0, as written, frees the directory if the check passes; otherwise nothing changes. The removals and lookups are recorded exactly. |
| `VmTheorems.PutThenGet` | p3/code/my_vm.c:491-621 | What was put is read back, and every stretch of bytes that does not overlap it, in this or another allocation, is read as before. |
| `VmClient.PutAndGet` | p3/code/my_vm.c:537-644 | Through the program: the put succeeds exactly if the allocation has room, and then the bytes are got back, at that address and at any other that stands for the same position. |
| `VmClient.NextPageSpot` | p3/code/my_vm.c:515-518 | An address behind the data of its page and one in the next page stand for the same position. |
| `VmTheorems.FreeThenGet` | p3/code/my_vm.c:441-489 | After some pages are freed from the head of an allocation, what lay behind them is read from the start of the next page on, what lay in them is gone, and other allocations are read as before. |
| `VmTheorems.Canonical` | p3/code/my_vm.c:329-489 | Two memories with the same pages on the same frames, the same allocations and the same bytes are equal exactly if the cells of the pages not in use are equal; as intended those are null, as written a cell below the number of directory entries may still hold the directory address or have been cleared. |
| `VmTheorems.FreeUndoesMalloc` | p3/code/my_vm.c:329-489 | Freeing all pages of an allocation restores mappings, allocations and bytes to what they were before it, whatever was stored; and the whole of physical memory, tables included, exactly if the cells of its pages were null before the allocation, as they always are in the intended program. |
| `VmTheorems.NullIsSame` | p3/code/my_vm.c:453-454 | Before an allocation, the cells of its pages are null exactly if freeing them leaves every cell of a page not in use as it was: always as intended, and as written for pages beyond the directory entries and for those freed before. |
| `VmTheorems.FreshCell` | p3/code/my_vm.c:53-57 | In a new memory, as written, the cell of each page below the number of directory entries holds the directory address, not null. |
| `VmClient.PutAll` | p3/code/my_vm.c:537-556 | Any sequence of puts at addresses in any page of one allocation, in the intended program and as written, changes the bytes of that allocation only. |
| `VmClient.AllocatePutFree` | p3/code/my_vm.c:329-489 | Allocate, put anything at any addresses of the allocation, free: both bitmaps are as before, in the intended program and as written; all of physical memory is, exactly if the cells of the pages allocated were null, and always in the intended program. |
| `VmClient.AllocateAgain` | p3/code/my_vm.c:329-489 | So the next allocation of that size returns the same address, in the intended program and as written. |
| `VmClient.FirstUseChangesMemory` | p3/code/my_vm.c:56-56 | As written, with two directory entries or more, the very first allocation of one byte and its release leave physical memory changed. |
| `VmTheorems.MarksExact` | p3/code/my_vm.c:297-309 | In every state the page bitmap marks exactly page 0 and the mapped pages, the frame bitmap exactly the reserved frames and those of mapped pages; mapped pages have different frames, none of them reserved. |
| `VmTheorems.Conservation` | p3/code/my_vm.c:45-67 | In every state the number of marked frames is 2^page_dir plus the number of marked pages. |
| `VmTheorems.FramesDecide` | p3/code/my_vm.c:350-354 | An allocation fits exactly if enough frames are left; pages are never the shortage. |
| `VmTheorems.CacheIsMostRecent` | p3/code/my_vm.c:119-218 | The entries of the cache are the most recently translated pages, latest first, as many as fit. |
| `VmTheorems.LargerCacheMissesNoMore` | p3/code/my_vm.c:119-218 | After one history a cache with more entries has missed no more often and holds all that a smaller one does. |
| `VmTwins.OutcomeUnique` | p3/code/my_vm.c:329-644 | Reply, allocations, memory and history after a call are determined by those before it, whatever the capacity of the cache. |
| `VmTwins.PerformBoth` | p3/code/my_vm.c:329-644 | Two memories in equal states with caches of different capacities: equal calls have equal replies and leave equal states. |
| `VmTwins.CompareCapacities` | p3/code/my_vm.c:193-218 | The same calls made on two new memories have the same replies and leave the same memory; the larger cache has missed no more often and holds all that the smaller one does. |
| `VmTrace.CheckLooksUp` | p3/code/my_vm.c:402-439 | The chain check looks up each page it comes to once, in order, until it has enough or the allocation ends. |
| `VmTrace.AccessLooksUp` | p3/code/my_vm.c:491-621 | A copy looks up once each page from the one it starts in to the one it ends in. |
| `VmTrace.EachDropMisses` | p3/code/my_vm.c:447-450 | Each page freed costs one lookup, and that one misses, since its translation was dropped before. |
| `VmTheorems.DirectoryIsTable` | p3/code/my_vm.c:53-57 | As written, entry d of the directory is also the cell of page d. |
| `VmTheorems.WalkBeyond` | p3/code/my_vm.c:53-57 | As written, the walk of a page behind the first table goes through the cell of a lower page: into the data of that page, nowhere, or to a cell of the first table. |
| `VmTheorems.OwnCellIffUsable` | p3/code/my_vm.c:53-57 | A page has a cell of its own in a table exactly if, as written, it is served by the first directory entry; as intended, always. |
| `VmTheorems.PageZeroCell` | p3/code/my_vm.c:53-65 | As written, the cell of page 0 holds the address of the directory; as intended it is null. |
| `VmTheorems.StoreInDirectory` | p3/code/my_vm.c:520-529 | As written, what a put into page 0 leaves is in order exactly if it changed nothing; cells outside the bytes put keep their words. |
| `VmTheorems.DirectoryCleared` | p3/code/my_vm.c:450-464 | As written, after a free of page 0 no bookkeeping describes the memory, and the walk of every page ends at an offset from null. |
| `VmTheorems.NeverGoesOn` | p3/code/my_vm.c:402-439 | If the memory lies above the simulated addresses, no copy from page 0 can go on beyond it. |
| `VmClient.PutInPageZero` | p3/code/my_vm.c:537-644 | As written, through the program: any bytes put at a non-null address in page 0 are accepted, replace bytes of the directory frame, and leave the memory in order exactly if they were there before. |
| `VmClient.FirstPutBreaks` | p3/code/my_vm.c:537-556 | As written, a single byte put into a new memory, where nothing is allocated, is accepted and leaves it out of order. |
| `VmClient.FreeOfPageZero` | p3/code/my_vm.c:470-489 | As written, a free of a non-null address in page 0 of a new memory clears the whole directory and unmarks page 0 and frame 0. |
| `VmTheorems.FreeFromTheMiddle` | p3/code/my_vm.c:441-467 | Freeing any number of pages from one that is not the first of its allocation leaves a link to a page not in use: no bookkeeping without those pages describes the memory. |
| `SchedInv.StartInv` | p2/code/thread-worker.c:477-551 | The invariant holds when the library starts. |
| `SchedInv.YieldKeeps` | p2/code/thread-worker.c:90-110 | A yield keeps the invariant. |
| `SchedInv.TimerKeeps` | p2/code/thread-worker.c:451-457 | A timer signal keeps the invariant. |
| `SchedInv.JoinKeeps` | p2/code/thread-worker.c:116-126 | The masked half of a join, which looks for an ended thread, keeps the invariant. |
| `SchedInv.WaitKeeps` | p2/code/thread-worker.c:135-138 | The unmasked half, which waits, keeps the invariant, whatever the other threads did in between. |
| `SchedInv.LockKeeps` | p2/code/thread-worker.c:167-212 | Each round of a lock call keeps the invariant: who seeks a mutex is in the lock call for it and waits for nothing else. |
| `SchedInv.UnlockKeeps` | p2/code/thread-worker.c:214-230 | An unlock keeps the invariant, and afterwards no thread seeks the mutex. |
| `SchedInv.DestroyKeeps` | p2/code/thread-worker.c:232-246 | The first half of a destroy keeps the invariant: a free mutex is taken off the list, a held one is released and the caller is then between release and removal, unmasked. |
| `SchedInv.RemoveKeeps` | p2/code/thread-worker.c:248-271 | The removal that follows the release, after whatever the other threads did in between, keeps the invariant. |
| `SchedInv.InitMutexKeeps` | p2/code/thread-worker.c:144-165 | A new mutex keeps the invariant. |
| `SchedInv.CreateKeeps` | p2/code/thread-worker.c:48-88 | A new thread keeps the invariant: it is in the arrival queue and nowhere else. |
| `SchedInv.ExitKeeps` | p2/code/thread-worker.c:614-631 | A termination keeps the invariant: the thread is among the ended ones only, and nobody waits for it any more. |
| `SchedInv.BoostKeeps` | p2/code/thread-worker.c:318-340 | After a boost the top level holds as many threads as the list of threads, as asserted, and the decay counter is below 64. |
| `SchedInv.ChooseFinds` | p2/code/thread-worker.c:372-388 | The scan over the levels finds a thread exactly if some live thread is not blocked. |
| `SchedInv.InsertKeepsSorted` | p2/code/thread-worker.c:803-841 | Inserting by usage keeps the list sorted, as asserted. |
| `SchedInv.InsertCount` | p2/code/thread-worker.c:803-841 | Inserting adds exactly one occurrence of the thread. |
| `SchedInv.FirstIsLeast` | p2/code/thread-worker.c:903-917 | In a sorted list the first thread that is not blocked has used no more than any other that is not blocked. |
| `SchedInv.MlfqPassKeeps` | p2/code/thread-worker.c:343-404 | A pass of the feedback scheduler keeps the invariant, dispatches, and changes nobody's waits. |
| `SchedInv.PsjfPassKeeps` | p2/code/thread-worker.c:284-315 | A pass of the shortest-job scheduler keeps the invariant, dispatches, and changes nobody's waits. |
| `SchedInv.StepKeeps` | p2/code/thread-worker.c:48-404 | Every call, signal, termination and pass keeps the invariant, under either policy. |
| `SchedRuns.RunKeeps` | p2/code/thread-worker.c:48-404 | So does every run. |
| `SchedRuns.OnlyRunnerBlocks` | p2/code/thread-worker.c:116-212 | Only by a call of its own does a thread become blocked. |
| `SchedRuns.ReadyAppends` | p2/code/thread-worker.c:343-369 | Before it chooses, a pass only appends to the levels; a boost brings every lower thread to the top level. |
| `SchedRuns.ChooseAdvances` | p2/code/thread-worker.c:372-386 | Choosing dispatches an unblocked thread of the top level or brings it nearer the front; nobody leaves a level otherwise. |
| `SchedTheorems.BoundedWaiting` | p2/code/thread-worker.c:343-404 | In every run an unblocked thread with k others before it at the top level gets the processor within k + 1 passes, whatever happens between them. |
| `SchedTheorems.StaysAtTop` | p2/code/thread-worker.c:318-404 | In every run a thread at the top level stays there until it is dispatched. |
| `SchedTheorems.BoostInTime` | p2/code/thread-worker.c:318-369 | In every run a queued thread is dispatched or boosted to the top by the first pass at which 64 quantums have elapsed since the last boost. |
| `SchedTheorems.StaysUnblocked` | p2/code/thread-worker.c:116-212 | In every run an unblocked thread stays so until it is dispatched. |
| `SchedTheorems.NoStarvation` | p2/code/thread-worker.c:318-404 | In every run an unblocked queued thread, however low its level, gets the processor once 64 quantums and then as many passes as there are listed threads have gone by. |
| `SchedSafety.OnePlace` | p2/code/thread-worker.c:343-386 | Every created thread is in exactly one place, counted over running, arrival, the four levels and ended, and no other id is anywhere. |
| `SchedSafety.QueuedAtItsLevel` | p2/code/thread-worker.c:351-362 | A queued thread is at the level it is marked with. |
| `SchedSafety.ListedOnce` | p2/code/thread-worker.c:343-350 | Once the scheduler has run, the list of threads has each live thread past its arrival exactly once. |
| `SchedMutex.Reachable` | p2/code/thread-worker.c:477-551 | The invariant holds in every state that a run from the start of the library reaches. |
| `SchedSafety.TimerArmed` | p2/code/thread-worker.c:397-401 | After each pass the timer is armed if and only if there is a listed thread, other than the dispatched one, that does not wait for a termination; and then for exactly the rest of the quantum, which is never zero. Under the feedback policy the decay counter is then below 64. |
| `SchedSafety.UsageOrder` | p2/code/thread-worker.c:782-786 | Comparing whole quantums first and the rest second orders threads by total time used. |
| `SchedLaws.YieldLaw` | p2/code/thread-worker.c:90-110 | A yield: the time of the runner grows by what it ran, or to the next whole quantum once that is reached; the quantum then, and only then, counts as used up, for the thread and overall. No other thread and no queue changes. |
| `SchedLaws.TimerLaw` | p2/code/thread-worker.c:451-457 | A timer signal: the time of the runner goes to the next whole quantum, of which nothing is used; the quantum counts as used up, for the thread and overall. Nothing else changes. |
| `SchedLaws.WaitLaw` | p2/code/thread-worker.c:135-138 | The wait of a join is charged like a yield and leaves the caller waiting for its target; nothing else changes. |
| `SchedLaws.LockLaw` | p2/code/thread-worker.c:201-207 | A lock call that finds the mutex held is charged like a yield and leaves the caller seeking the mutex; one that finds it free is charged nothing and makes the caller the holder. Nothing else changes. |
| `SchedLaws.CreateLaw` | p2/code/thread-worker.c:48-88 | A new thread has used nothing, waits for nothing and comes last among the arrivals; nothing else changes. |
| `SchedLaws.JoinLaw` | p2/code/thread-worker.c:116-126 | The test of a join records the target exactly if it has not ended, and changes nothing else. |
| `SchedLaws.InitMutexLaw` | p2/code/thread-worker.c:144-165 | A new mutex has a number never used before and no holder; nothing else changes. |
| `SchedLaws.UnlockLaw` | p2/code/thread-worker.c:214-230 | An unlock leaves the mutex free and its seekers seeking nothing; nothing else about any thread or queue changes. |
| `SchedLaws.DestroyLaw` | p2/code/thread-worker.c:232-246 | A destroy of a free mutex takes it off the list and changes nothing else; of a held one it is an unlock, with the removal noted. |
| `SchedLaws.RemoveLaw` | p2/code/thread-worker.c:248-271 | The removal takes the mutex off the list and changes nothing else. |
| `SchedLaws.ExitLaw` | p2/code/thread-worker.c:614-631 | A termination takes the thread off the list, whose order stays, puts it before the ended ones, and leaves its joiners waiting for nobody; nothing else about any thread changes. |
| `SchedLaws.ReadyLaw` | p2/code/thread-worker.c:343-369 | What a feedback pass chooses from: each level has its threads, then the arrivals at the top, then the thread that ran, one level lower with a whole quantum if it used its last up. At 64 quantums all levels are joined at the top in order, and whoever stood below has a whole quantum and no mark; who stood at the top keeps its own. |
| `SchedLaws.ChooseLaw` | p2/code/thread-worker.c:371-386 | The first unblocked thread of the highest level that has one is chosen, the blocked ones before it go behind, and no other level changes. |
| `SchedLaws.DispatchLaw` | p2/code/thread-worker.c:390-401 | The dispatched thread is marked as scheduled, and the timer armed for the rest of its quantum exactly if another listed thread may run; nothing else changes. |
| `SchedLaws.FeedbackPass` | p2/code/thread-worker.c:343-404 | A whole pass of the feedback scheduler is these three, from the state before it. |
| `SchedLaws.InsertLaw` | p2/code/thread-worker.c:803-841 | Whoever is inserted stands before all that have used at least as much and behind all that have used less; the others keep their order. |
| `SchedLaws.GatheredLaw` | p2/code/thread-worker.c:287-297 | The list that a shortest-job pass chooses from: the arrivals are inserted one after another, and then the thread that ran. |
| `SchedLaws.RunnerBeforeArrivals` | p2/code/thread-worker.c:287-297 | The thread that ran stands before every arrival that has not used less. |
| `SchedLaws.ShortestPass` | p2/code/thread-worker.c:284-315 | A whole pass of the shortest-job scheduler: from that list the first unblocked thread is taken off, the others keep their order, and it is dispatched. |
| `SchedSafety.RanStandsLast` | p2/code/thread-worker.c:353-363 | When the scheduler comes to choose, the thread that ran stands last at its level, or one level lower with a fresh quantum if it used its quantum up. |
| `SchedSafety.DispatchesLeast` | p2/code/thread-worker.c:284-301 | The shortest-job scheduler dispatches a live unblocked thread that has used the least time of all of them. |
| `SchedMutex.MutualExclusion` | p2/code/thread-worker.c:167-271 | In every run, whatever is destroyed and wherever the timer strikes, no two threads are inside the critical section of a mutex at once: between the return of the lock call and the unlock or destroy. |
| `SchedMutex.MutexesAfter` | p2/code/thread-worker.c:144-271 | Every event changes the list of mutexes as the calls say, and no other event changes it; a lock call returns exactly if the mutex was free. |
| `SchedMutex.SoundIffFreeRemovals` | p2/code/thread-worker.c:232-271 | From any sound state: at every point of a run seekers find their mutex initialised and held, and the threads inside are exactly the holders named, if and only if every mutex is free when a destroy call comes to take it off the list. |
| `SchedMutex.SoundFromStart` | p2/code/thread-worker.c:232-271 | The same for every run from the start of the library. |
| `SchedMutex.HolderIsInside` | p2/code/thread-worker.c:167-271 | In every run whose removals find the mutex free, a thread is inside a critical section exactly when the mutex names it as holder. |
| `SchedMutex.SeekersFindHolder` | p2/code/thread-worker.c:167-212 | In every run a thread that seeks a mutex is in the lock call for it, and every blocked thread is where unlock and termination look for it; in every run whose removals find the mutex free, the mutex sought is initialised and held. |
| `SchedMutex.HeldRemoval` | p2/code/thread-worker.c:248-266 | Taking a held mutex off the list leaves its holder inside and named no more. |
| `SchedDestroy.CareSuffices` | p2/code/thread-worker.c:232-271 | A program that destroys a mutex it holds only while no thread is in a lock call for it, and enters no such call before the removal, has only free removals: it is sound at every point of every run. |
| `SchedDestroy.CarefulStep` | p2/code/thread-worker.c:232-271 | Under that discipline every event keeps what is being destroyed free, with nobody in a lock call for it. |
| `SchedDestroy.BrokenSection` | p2/code/thread-worker.c:221-266 | A run of 23 events from the start, without that care: a destroy is interrupted after its release, and in the end one thread is inside the critical section of a mutex that is no more and cannot unlock it, and another seeks it. |
| `SchedDestroy.StrandedForever` | p2/code/thread-worker.c:167-271 | A thread that seeks a mutex taken off the list seeks it in every further run. |
| `SchedSafety.UnlockWakes` | p2/code/thread-worker.c:675-686 | An unlock leaves unblocked every thread that sought the mutex, and no other thread changes. |
| `SchedSafety.ExitWakes` | p2/code/thread-worker.c:689-706 | A termination leaves unblocked every thread that waited for it, and no other thread changes. |
| `SchedJoin.JoinsFromStart` | p2/code/thread-worker.c:116-142 | In every run: at every point everybody that a thread waits for has not ended, if and only if every wait finds its target not ended. |
| `SchedJoin.SoundIffTimely` | p2/code/thread-worker.c:116-142 | The same from any state in which nobody waits for an ended thread. |
| `SchedJoin.WaitStrands` | p2/code/thread-worker.c:124-136 | The wait of a join call leaves the caller waiting for an ended thread exactly if the target ended between the test and the wait. |
| `SchedJoin.AbandonedForever` | p2/code/thread-worker.c:689-706 | Who waits for an ended thread waits for it in every further run. |
| `SchedJoin.PromptSuffices` | p2/code/thread-worker.c:116-142 | In a run in which every wait follows its test at once, nobody is ever left waiting for an ended thread. |
| `SchedJoin.LateJoin` | p2/code/thread-worker.c:124-136 | A run of seven events from the start: a signal comes between the test and the wait, the target ends, and then the only live thread waits for ever and the scheduler finds nobody to dispatch. |
| `SchedSafety.ReleaseReachesWaiter` | p2/code/thread-worker.c:214-230 | Whoever waits for a mutex gets the processor after its release, once 64 quantums and then as many passes as there are listed threads have gone by. |
| `SchedSafety.EndReachesWaiter` | p2/code/thread-worker.c:614-631 | The same for whoever waits for a thread to end. |
| `SchedSafety.CivilKeeps` | p2/code/thread-worker.c:116-142 | If no thread joins an id never created or ends while holding a mutex, and every wait finds its target not ended, everybody waited for is alive. |
| `SchedSafety.AllBlockedDeadlock` | p2/code/thread-worker.c:656-658 | If every live thread is blocked, some threads wait for one another in a circle. |
| `SchedSafety.Progress` | p2/code/thread-worker.c:372-388 | In every run of such a program whose removals find the mutex free, and whose waits find their target not ended, the scheduler finds a thread at every pass, unless threads wait for one another in a circle; so the assertions on the chosen thread hold. |
| `ThreadLists.Queue.Enqueue` | p2/code/thread-worker.c:932-951 | The circular queue: the thread comes last, the order of the others is kept. |
| `ThreadLists.Queue.Dequeue` | p2/code/thread-worker.c:955-978 | The circular queue: takes the first thread, the order of the others is kept. |
| `ThreadLists.List.InsertAtFront` | p2/code/thread-worker.c:843-851 | The linked list: the thread comes first. |
| `ThreadLists.List.RemoveFrom` | p2/code/thread-worker.c:867-900 | The linked list: takes out the first thread with the id, wherever it is. |
| `ThreadLists.List.InsertByUsage` | p2/code/thread-worker.c:803-841 | The linked list: the thread goes before the first that has used at least as much, the order of the others is kept. |
| `LinkedLoops.AdmitArrivals` | p2/code/thread-worker.c:347-351 | The arrival loop of the feedback scheduler over the linked structures: arrivals go behind the top level in order and in front of the list of threads in reverse, as the pass step says. |
| `LinkedLoops.GatherArrivals` | p2/code/thread-worker.c:288-292 | The arrival loop of the shortest-job scheduler over the linked structures: each arrival is inserted by usage, as the pass step says. |
| `LinkedLoops.SearchLevel` | p2/code/thread-worker.c:373-385 | The search of one level over the circular queue: takes the first unblocked thread, those before it go behind; null and the level in its old order exactly if all are blocked. |
| `LinkedLoops.TakeShortest` | p2/code/thread-worker.c:299-300 | The shortest-job scheduler over the linked list: walks to the first unblocked thread and unlinks it, as the pass step says. |
| `Schedulers.Scheduler.constructor` | p2/code/thread-worker.c:477-551 | The library at its start. |
| `Schedulers.Scheduler.CreateWorker` | p2/code/thread-worker.c:48-88 | Adds a fresh thread at the end of the arrival queue, changes no other, and returns its id, the next in order: the step Create. |
| `Schedulers.Scheduler.WorkerYield` | p2/code/thread-worker.c:90-110 | Charges the time, counts a quantum used up, and hands over to the scheduler: the new state is the step Yield, on every list and every field of every thread. |
| `Schedulers.Scheduler.TimerSignal` | p2/code/thread-worker.c:451-457 | Charges a whole quantum to the running thread and hands over to the scheduler: the new state is the step Timer. |
| `Schedulers.Scheduler.WorkerJoin` | p2/code/thread-worker.c:116-134 | Tells whether the thread has ended, and changes nothing if so: the step Join, after which signals may come. |
| `Schedulers.Scheduler.WorkerWait` | p2/code/thread-worker.c:135-138 | The caller waits for the thread and gives up the processor, even if the thread has ended by now: the step Wait. |
| `Schedulers.Scheduler.MutexInit` | p2/code/thread-worker.c:144-165 | Adds a free mutex with a number never used before, which it returns, and leaves all others: the step InitMutex. |
| `Schedulers.Scheduler.MutexLockRound` | p2/code/thread-worker.c:201-207 | One round of the lock loop: takes the mutex and returns exactly if nobody holds it; otherwise the caller seeks it and gives up the processor: the step Lock. |
| `Schedulers.Scheduler.MutexUnlock` | p2/code/thread-worker.c:214-230 | Frees the mutex and wakes exactly those that seek it: the step Unlock; the assertion on the holder holds. |
| `Schedulers.Scheduler.MutexDestroy` | p2/code/thread-worker.c:232-246 | Takes a free mutex off the list; releases one that the caller holds, waking exactly its seekers, with the removal still to do: the step Destroy. |
| `Schedulers.Scheduler.MutexRemove` | p2/code/thread-worker.c:248-271 | Takes the mutex off the list, wherever it is, and leaves all others; nothing happens to the list if somebody else has taken it off: the step Remove. |
| `Schedulers.Scheduler.BroadcastRelease` | p2/code/thread-worker.c:675-686 | Wakes exactly the listed threads that seek the mutex, and tells whether there was one. |
| `Schedulers.Scheduler.AlertWaiting` | p2/code/thread-worker.c:689-706 | Wakes exactly the listed threads that wait for the thread to end. |
| `Schedulers.Scheduler.CleanExited` | p2/code/thread-worker.c:614-631 | Moves the running thread from the list of threads to the ended ones and wakes exactly those that wait for it: the step Exit. |
| `Schedulers.Scheduler.BoostAllQueues` | p2/code/thread-worker.c:318-340 | Moves all lower levels to the top in order and resets their threads. |
| `Schedulers.Scheduler.ChooseCandidate` | p2/code/thread-worker.c:372-386 | Takes the first unblocked thread of the highest level that has one; the blocked ones before it go behind, levels without one keep their order. |
| `Schedulers.Scheduler.DispatchRunning` | p2/code/thread-worker.c:390-401 | Marks the thread as scheduled and arms the timer. |
| `Schedulers.Scheduler.SchedMlfq` | p2/code/thread-worker.c:343-404 | One iteration, with all its loops, is the step Pass under the feedback policy; the assertion on the chosen thread holds. |
| `Schedulers.Scheduler.Schedule` | p2/code/thread-worker.c:274-281 | The first entry into the scheduler: the main thread enters the list, then a pass. |
| `Schedulers.Scheduler.InsertTcb` | p2/code/thread-worker.c:803-841 | Inserts at the place the usage order gives. |
| `Schedulers.Scheduler.SchedPsjf` | p2/code/thread-worker.c:284-315 | One iteration, with all its loops, is the step Pass under the shortest-job policy; a thread is always found. |
| `SchedClient.Perform` | p2/code/thread-worker.c:48-404 | Every event that can happen, carried out by the program, is the step of the state machine. |
| `SchedClient.Execute` | p2/code/thread-worker.c:48-404 | Any run, carried out by the program from any reachable state, leaves the state the run describes: all that is proved of runs holds of the program. |
| `FsLayout.Sizes` | p4/code/rufs.h:42-58 | From their fields an inode has 256 bytes and a directory entry 214: inodes fill blocks exactly, so the inode region has 64 blocks; 19 directory entries fit a block and 20 do not; each bitmap fits its block. |
| `FsLayout.Places` | p4/code/rufs.c:119-160 | Inode i is in block 3 + i / 16 at slot i % 16; so no two inodes share a place, and none lies outside the inode region. |
| `FsLayout.GetPut` | p4/code/rufs.c:119-160 | The inode table is an array: a written inode is read back, and no other inode changes. |
| `FsTree.StartOk` | p4/code/rufs.c:428-453 | The tree of a new file system is well-formed, the root its own parent. |
| `FsTree.StepOk` | p4/code/rufs.c:572-880 | Every operation keeps the tree well-formed: directories begin with themselves and their parent and name inodes in use only. |
| `FsTree.RunOk` | p4/code/rufs.c:572-880 | So does every run. |
| `FsNames.MadeResolves` | p4/code/rufs.c:572-726 | A new name resolves to the new inode exactly if it was absent; if not, the earlier entry goes on hiding it. |
| `FsNames.MakeLaw` | p4/code/rufs.c:572-726 | Making something under a path that leads nowhere changes nothing; in a full directory it costs the lowest free number only; else the directory gains the entry at its end, and a link for a directory, and the node of that number is empty but for the dots of a directory. No other node changes, and the status says which it was. |
| `FsNames.SameNameTwice` | p4/code/rufs.c:224-240 | Making the same file twice in a new file system: both are entered, the name leads to the first, and the second is hidden. |
| `FsNames.RunKeepsPaths` | p4/code/rufs.c:332-360 | In every run, what resolves goes on resolving to the same inode. |
| `FsNames.DotNames` | p4/code/rufs.c:630-632 | In every directory "." resolves to itself and ".." to its parent, whatever else was added. |
| `FsNames.RootIsItsParent` | p4/code/rufs.c:450-453 | The root is its own parent. |
| `FsNames.Namespace` | p4/code/rufs.c:572-726 | Make an absent name under a directory and go on with any run: the new path leads to the new inode for good, every earlier path leads where it did, and a new directory's "." and ".." lead to it and to the directory it was made in. |
| `FsNames.NothingElse` | p4/code/rufs.c:332-360 | A path that led nowhere before something was made and leads somewhere now passes through the new inode. |
| `FsNames.RunLinks` | p4/code/rufs.c:634-640 | In every run the link count of a directory is the number of directories made in it, plus two for the root. |
| `FsNames.StartLinks` | p4/code/rufs.c:428-453 | So it is at the start. |
| `FsContents.WriteReplaces` | p4/code/rufs.c:838-869 | A write replaces exactly the bytes it covers, up to sixteen blocks; missing blocks count as zeros. |
| `FsContents.WriteLaw` | p4/code/rufs.c:838-871 | A write makes the size grow by the bytes that fit in sixteen blocks, wherever it is, and the blocks it touches are there afterwards besides those that were. |
| `FsContents.ReadLaw` | p4/code/rufs.c:762-800 | A read returns the bytes of the image, from blocks that are there, until it has as many as asked for, or comes to the end of the file or to a block that is not there. |
| `FsContents.ReadBack` | p4/code/rufs.c:744-880 | A read of what was just written returns it, exactly if the write did not start beyond the end of the file. |
| `FsContents.SizeExact` | p4/code/rufs.c:871-871 | When something is written, at whatever offset, the size is the larger of the old size and the end of the write exactly if the write was at the end; a write of nothing changes nothing. |
| `FsContents.OverwritingGrows` | p4/code/rufs.c:871-871 | A byte written over another counts twice: the file then has size 2, and its second byte, never written, reads as zero. |
| `FsContents.HoldsReads` | p4/code/rufs.c:744-804 | A file that holds exactly some bytes returns any stretch of them. |
| `FsContents.RunAppends` | p4/code/rufs.c:806-880 | In any run that writes to a file only at its end, whatever else it makes and writes, the file holds what it held and then everything written to it, up to sixteen blocks, and its size is exact. |
| `FsInv.ReplaceKeeps` | p4/code/rufs.c:303-312 | Rewriting a block that an inode owns keeps the disk in order and every other directory and file as it was. |
| `FsInv.AttachKeeps` | p4/code/rufs.c:283-301 | Marking, writing and attaching an unowned block keeps every pointer distinct, the bitmap exact, and every other directory and file as it was. |
| `FsInv.InodeKeeps` | p4/code/rufs.c:635-640 | Rewriting an inode with the same pointers keeps the disk in order. |
| `FsInv.TakeKeeps` | p4/code/rufs.c:48-79 | Handing out an inode number keeps the disk in order. |
| `FsInv.GrowStored` | p4/code/rufs.c:303-312 | An entry in the first invalid slot of the last block is the next entry of the directory. |
| `FsInv.GrowNewStored` | p4/code/rufs.c:283-301 | An entry in a new block is the next entry of a directory whose blocks are full. |
| `FsInv.BlockStored` | p4/code/rufs.c:852-864 | Overwriting a stretch of one block, new or old, overwrites that stretch of the file image. |
| `FileSystems.FileSystem.constructor` | p4/code/rufs.c:365-456 | A new file system: the disk holds the tree with only the root directory, and one data block is in use. |
| `FileSystems.FileSystem.Readi` | p4/code/rufs.c:119-138 | Reads the inode from the table. |
| `FileSystems.FileSystem.Writei` | p4/code/rufs.c:140-160 | Writes the inode to the table and changes nothing else. |
| `FileSystems.FileSystem.FirstUnset` | p4/code/rufs.c:59-66 | The lowest clear bit of the bitmap, -1 exactly if there is none. |
| `FileSystems.FileSystem.GetAvailIno` | p4/code/rufs.c:48-79 | Hands out the lowest number never taken, -1 exactly if all are; no inode changes. |
| `FileSystems.FileSystem.GetAvailBlkno` | p4/code/rufs.c:84-114 | Marks and returns the lowest unmarked block, -1 exactly if there is none; nothing else changes. |
| `FileSystems.FileSystem.DirFind` | p4/code/rufs.c:166-206 | Finds exactly the first entry with the name; fails exactly if there is none or the inode is not in use. |
| `FileSystems.FileSystem.DuplicateScan` | p4/code/rufs.c:224-240 | Can find a name only if a direct pointer equals the constant VALID. |
| `FileSystems.FileSystem.FindSpot` | p4/code/rufs.c:242-278 | The first free slot: none exactly if all sixteen blocks are full, a new block exactly if all present ones are. |
| `FileSystems.FileSystem.DirAdd` | p4/code/rufs.c:210-316 | 0 exactly for an inode not in use, -1 exactly for a full directory of 304 entries, both changing nothing; otherwise 1, and the entry comes last, taking a new block exactly when the present ones are full. |
| `FileSystems.FileSystem.GetNodeByPath` | p4/code/rufs.c:332-360 | Fails exactly if the path resolves to nothing; otherwise returns the inode it resolves to. |
| `FileSystems.FileSystem.Mkdir` | p4/code/rufs.c:572-643 | Does to the tree what making a directory says, with the right status, and takes exactly the blocks needed. |
| `FileSystems.FileSystem.Create` | p4/code/rufs.c:668-726 | Does to the tree what making a file says, with the right status, and takes exactly the blocks needed. |
| `FileSystems.FileSystem.ReadFile` | p4/code/rufs.c:744-804 | Returns exactly the bytes of the image from the offset, up to the size, the count and the first missing block; changes nothing on the disk. |
| `FileSystems.FileSystem.WriteFile` | p4/code/rufs.c:806-880 | Does to the tree what a write says, returns the bytes written, and takes exactly the blocks touched and missing. |
| `FileSystems.FreshBlock` | p4/code/rufs.c:94-111 | With blocks left, the lowest unmarked block is a data block nobody owns and was never written. |
| `FsTheorems.AddIsUpdate` | p4/code/rufs.c:210-316 | Adding an entry to a directory adds its name to the finite map of names, exactly if the name was absent; every other lookup is unchanged. |
| `FsTheorems.AddKeepsUnique` | p4/code/rufs.c:224-240 | Names stay unique exactly if the new one was absent. |
| `FsTheorems.MeaningIsFind` | p4/code/rufs.c:166-206 | Lookup is application of that map. |
| `FsTheorems.BlockOwnership` | p4/code/rufs.c:84-114 | In every state the direct pointers in use are pairwise distinct, belong to valid inodes, lead to data blocks and are marked, and the bitmap marks exactly 67 blocks more than there are pointers. |
| `FsTheorems.InodesMarked` | p4/code/rufs.c:48-79 | Every valid inode is marked in the inode bitmap. |
| `FsTheorems.InodeShows` | p4/code/rufs.c:119-160 | In every state the inode on the disk is valid exactly if in use, and has the number, kind, and links or size that the tree says. |
| `FsTheorems.EntriesShow` | p4/code/rufs.c:242-312 | Entry n of a directory is in slot n % 19 of its block n / 19; the slots behind the last entry are invalid, and there is no block behind it. |
| `FsTheorems.BytesShow` | p4/code/rufs.c:838-869 | Byte n of a file is byte n % 4096 of its block n / 4096, exactly if that block is there. |
| `FsTheorems.Execute` | p4/code/rufs.c:572-880 | Any run, carried out on the disk with enough free blocks, leaves on the disk the tree the run describes. |
| `FsTheorems.CreateWriteRead` | p4/code/rufs.c:668-880 | A new file is written and read back through the disk: the data up to sixteen blocks. |
| `FsTheorems.AppendAndRead` | p4/code/rufs.c:744-880 | Carry out on the disk any run that writes to a file only at its end, then read the file: it has what it had and then everything the run wrote to it, in order, up to sixteen blocks. |

## Left out

Virtual memory:

- Every address computation is on unbounded numbers; shifts and masks are quotients and remainders by powers of two, and the or into the link address (`p3/code/my_vm.c:517`) is a sum, since the low bits of a link are zero. Sizes are natural numbers; the overflow of `int` sizes is not modelled.
- VmScheme.InitPagingScheme: sizes are given as powers of two, as the header defines them; both memories are large enough for one full table, since otherwise the number of directory bits is negative, and tables are large enough for the count asserted at start-up to be positive (`SpareIffEnough`).
- Vm.VirtualMemory.PageMap: as written, asks for a page behind the first directory entry; others have no cells of their own (`WalkBeyond`).
- Vm.VirtualMemory.Malloc: as written, asks that the allocation fit behind the first directory entry, for the same reason.
- Vm.VirtualMemory.PutValue: as written, leaves out a put that begins in page 0 and that the check lets go on in the page of the directory's own address: it may be overwriting the cells it goes through. `NeverGoesOn` says when there is none.
- Vm.VirtualMemory.GetValue: asks that the bytes lie within an allocation or, as written, within page 0; the program goes on after its own check has failed.
- Vm.VirtualMemory.Free: asks for the first page of an allocation when the address is one of an allocation; `FreeFromTheMiddle` shows what a later page would break, however many pages are freed.
- VmTwins.CompareCapacities: the calls are such as can be made one after another in order, so none puts into page 0 or frees it.
- VmClient.AllocatePutFree: the writes are to addresses of the allocation, whose pages first fit determines before the call.
- The library lock, the spin on the first invocation, lazy initialisation, matrix multiplication, printing, and the release of memory at exit.

Thread library:

- Contexts, stacks, signals and clocks: a step is chosen freely among the enabled ones, and the time a thread ran is an arbitrary number. A call that masks the timer is one step, up to where it lifts the mask.
- Schedulers.Scheduler.WorkerYield: is one step, although a call from outside a masked section runs unmasked (`p2/code/thread-worker.c:90-110`). A signal inside it charges the thread twice, once by the handler and once by the call; a signal after the clock is read, at line 92, lets the thread be dispatched again later than that reading, so that the elapsed time it then computes is negative.
- Schedulers.Scheduler.WorkerWait: is one step for the same reason; a signal between entering the target and yielding would only charge the thread once more.
- Schedulers.Scheduler.MutexRemove: removes the mutex that the call released, in one step, although the timer can strike inside it too. The program reads the caller's handle again (`p2/code/thread-worker.c:249`, `p2/code/thread-worker.c:259`), so if others have destroyed the mutex in between and initialised the same handle anew, it removes the new mutex.
- SchedDestroy.CareSuffices: goes one way; a program without that care is sound exactly in the runs whose removals happen to find the mutex free (`SoundFromStart`).
- Return values passed from a thread to those that join it, counters of context switches, benchmark times, and the release of the library at exit.
- The queues of the scheduler class are sequences of thread control blocks. The circular queue and the linked list prove the same operations on linked nodes, and `LinkedLoops` the arrival loops, the search of a level and the choice of the shortest job; the other loops are proved on the sequences only, and the scheduler class does not contain the linked structures. The list of mutexes is a sequence, empty at the start.
- Wrap-around of thread ids, mutex numbers and the 16-bit sizes of queues.
- The main thread does not end: its end ends the process.

File system:

- A block is what was last written to it, structure by structure; reading a block as another structure is not modelled, and it does not happen as long as path components are directories and reads and writes are of files, which the kernel checks. Paths are sequences of names, and names are taken to fit the bytes reserved for them.
- FileSystems.FileSystem.DirFind: asks for a directory or an unused inode; the program would read the blocks of a file as entries, and the kernel passes directories only.
- FileSystems.FileSystem.DirAdd: asks for a free block when it needs one; the program does not check whether it got one.
- FileSystems.FileSystem.GetNodeByPath: asks that a path go through directories, as the kernel checks component by component.
- FileSystems.FileSystem.Mkdir: asks for a free inode number and as many free blocks as it takes; the program goes on with number -1 when there are none.
- FileSystems.FileSystem.Create: asks for the same.
- FileSystems.FileSystem.ReadFile: asks that the path not lead to a directory, which the kernel checks.
- FileSystems.FileSystem.WriteFile: asks for as many free blocks as the write takes, and for a path to a file.
- Stat fields, times, the size of directories, indirect pointers, opening an existing disk, and the operations that do nothing (removal, truncation, release). Listing a directory and reporting attributes would only repeat the lookup.
- Offsets and sizes are natural numbers.
