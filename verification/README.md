# Verified models of the kernel exercises

Dafny models of the memory, scheduling and parsing code of the kernel exercises, with proofs
about every state, run or input. `dafny verify dfyconfig.toml` checks the whole project.

| files | models |
|---|---|
| `Bits`, `Bytes`, `Machine`, `Sequences`, `Wrappers` | powers of two, alignment, bitwise operations by recursion on digits; byte strings and C strings; integer widths and shared constants; ordered sequences; `Option` |
| `Tilings`, `PageLists`, `Reservation`, `ReservedLists`, `BuddyAllocator`, `BuddyTheorems`, `BuddyRuns` | the buddy allocator of `ex31` with `memory_reserve` of `ex32`; `main` and `mm_init` |
| `Sv39`, `PageMap`, `PageTree`, `BumpAllocator`, `UserPaging` | Sv39 translation (RISC-V Privileged Architecture v1.12, sections 4.3.2 and 4.4) and the page tables of `ex62` |
| `KernelBoot` | the higher-half boot tables of `ex61` |
| `RoundRobin`, `RunQueue` | the run queue and scheduler of `ex51` |
| `FdtFormat`, `FdtLookup`, `FdtScanner`, `FdtPaths`, `FdtSample` | devicetree lookup of `ex21` (Devicetree Specification v0.4, sections 5.4 and 5.5) |
| `CpioFormat`, `CpioWalk`, `CpioSample` | the archive walks of `ex22` and of `exec` in `ex62` (cpio(5), New ASCII Format) |

## How it is set up

**Buddy allocator.** `Allocator` is one class over symbolic MAX_ORDER and NUM_PAGES (a multiple of
2^MAX_ORDER; `SourceZone` shows that 10 and 0x280000 qualify). Pages are array indices, free lists
are sequences, `mem_map` and `free_area` are arrays that the methods update in place. `Valid()`
ties them to a *tiling*: a map from the first page of every block to its order and whether it is in
use. Interior pages do not occur in the tiling, so their stale `order` fields cannot matter. A
coalesced tiling is a function of its live blocks (`Canonical`), which is why the contracts of
`AllocPages` and `FreePages`, that only say how the live blocks change, fix the whole new state.
The order of the free lists, on which the next allocation depends, is stated for every operation,
list by list, and `BuddyRuns` follows it through calls in a row up to the whole `main` of `ex31`.

**Page tables.** `Sv39.Translate` is the hardware walk, written from the architecture manual over
frames of 512 entries. `AddressSpaces.Valid()` says that for every 64-bit address this walk agrees
with `AddressSpace(log, v)`: last-write-wins over the log of `map_pages` requests in the user half,
the linear map in the kernel half. It also says which tables exist (exactly those that the requests
need) and when the present branch of `pagewalk` was ever taken. The proof keeps a tree of tables in
which every table has exactly one owning entry.

**Devicetree.** `Flat` encodes a tree into the structure block byte by byte. The invariant of the
scanning loop says which part of the encoding is still to come and that descent in *that* part gives
the answer for the whole. `FdtSample` gives a blob byte by byte, which ties tokens, byte order and
header to their numbers; `CpioSample` does the same for an archive.

**Scheduler, archive.** `RunQueue` proves the pointer code against a sequence; fairness is then
proved on sequences. `Record`/`Archive` write archives and the walks are proved to invert them.

## What turned out not to hold, and exactly when it does

* `memory_reserve` narrows page numbers to 32 bits. The numbers are those of the first and last page meant
  exactly for ranges below 2^44 (`PageRange`); a page at 2^44 is taken for page 0 (`NarrowedToZero`).
* The narrowed page range is empty exactly in two cases, over all addresses and sizes (`EmptyRange`): size 0
  at a page boundary that is no multiple of 2^44, or a nonzero size that crosses a multiple of 2^44 and does
  not come back to its first page. Below 2^44 only size 0 at a page boundary other than 0 is left
  (`EmptyRangeBelow`). With an empty range a whole MAX_ORDER block is split and the call returns, so memory
  is no longer fully coalesced; `ReserveCoalesced` gives the exact condition. `memory_reserve(0x1000, 0)`
  does this (`ReserveNothing`), and so does `memory_reserve(0x1000, 0xffffffff001)`, which reserves none of
  its bytes (`NarrowedToNothing`). `memory_reserve(0, 0)` ends in "Not found" (`ReserveNothingAtZero`).
* With a nonempty narrowed range `memory_reserve` succeeds exactly if every MAX_ORDER block that this range
  touches is whole and free (contract of `MemoryReserve`); below 2^44 these are the blocks of the bytes
  asked for. On fresh memory that means exactly that the range ends inside memory (`FirstReservation`), and
  the call in `mm_init` succeeds (`MmInit`). A second reservation in a block ends in "Not found"
  (`ReserveTwiceFails`).
* `map_pages` maps every byte of a request exactly if the request has no more than 2^31 bytes (the counter
  is a 32-bit `int`) and ends within as many pages, from the one it starts in, as its size alone needs
  (`RequestComplete`). From a page boundary the size alone decides (`AlignedComplete`). `map_pages(0x800,
  0x1000, ..)` misses its second half (`UnalignedIncomplete`), a request of 2^31 + 1 bytes its last byte
  (`HugeIncomplete`).
* The present branch of `pagewalk` uses a table's physical address as a pointer, which is not mapped (see
  Assumptions). It is taken exactly if two requested pages lie in one GiB: `followed`, the number of times
  it was taken, is 0 exactly if `Apart(log)` (`Valid`, kept by `MapPages`). `exec` from a fresh address
  space never takes it (`MapProgram`); `map_pages(0, 0x2000, ..)` does (`TwoPagesFollow`).
* From a fresh address space `exec` keeps the program's pages apart from the page tables exactly if the
  program has at most one page: the frame behind its only allocated page becomes the first table
  (`MapProgram`).
* The higher-half map of `ex61` reaches the kernel exactly if it is loaded at or above 1 GiB (or in the
  UART's own 2 MiB): below, root slot 256 is overwritten for the UART (`KernelReachable`,
  `LowKernelUnreachable`).
* A full devicetree path leads back to its node exactly if no earlier sibling on the way has a name that
  is a prefix of the one looked for, or that name plus a unit address while the rest of the path has no
  `@` (`PathRoundTrip`, and `FullPathOffset` on the blob); with siblings `cpu` and `cpus`, `/cpus` leads to
  the first (`ShadowedSibling`). Prefix-free sibling names suffice (`PrefixFreeIsClear`).
* `fdt_getprop` stops at a NOP or child node: it finds the first property with a name exactly if one
  stands before those or none after (`LeadingComplete`, `NopHidesProp`); in nodes with their properties
  first and no NOP among them it always does (`PropsFirstComplete`), also behind `fdt_path_offset`
  (`PropOfPath`).
* `hextoi` computes in a 32-bit `int` and takes a lower-case digit for 32 more than it is. As an `int`
  (`ex62`) an eight-digit field is read right exactly if its first digit is below 8 and the other seven are
  no lower-case letters; as an `unsigned int` (`ex22`) exactly if the other seven are none (`FieldRight`).
  `7fffffff` reads as a negative number (`LowerCaseNegative`), while a lower-case first digit does no harm
  to the unsigned reading (`LowerCaseFirst`).
* The walks see the whole archive exactly if no member is taken for the trailer, by equality in `ex22` and
  by its first ten bytes in `exec` (`AllVisible`, `LookAlikes`).
* The walk of `exec` steps by a 32-bit `int`. It finds what the archive asks for exactly if each member on
  the way takes fewer than 2^31 bytes with header and padding, and the data start and size of the match
  are below 2^31 (`ExecWalkRight`); a member of 2^31 - 112 bytes sends the cursor backwards (`HugeMember`).
  The walks of `ex22` use unsigned fields and 64-bit addresses and have no such limit.

## Assumptions

* Page tables are addressed by physical frame. The present branch at `ex62/main.c:69` uses the table's
  physical address as a pointer without `phys_to_virt`; the model takes that pointer to reach the table,
  as it would under an identity map. In the address space that `ex62` itself builds that address
  translates as the requests say, so not at all unless one covers it (`TablePointer`), and on hardware the
  branch faults. The results about `map_pages` do not depend on this while `Apart(log)` holds.
* The bump allocator does not wrap past 2^64; the methods ask for room for the worst case. Physical
  addresses given to `map_pages` have at most 56 bits, and flags no more than the ten low bits of an entry.
* Signed 32-bit arithmetic wraps around.
* The kernel of `ex61` is loaded below 2^38: only there can Sv39 show an identity map of it.
* Devicetree blobs and archives are well formed (their bytes encode a tree, a member list with sizes below
  2^32), 4-aligned, and end at least three bytes below 2^64, where the rounding of an address does not wrap;
  blobs are smaller than 2^31 bytes, as offsets and lengths are `int`s. The path has 1 to 10 slashes, the
  size of the code's index array.
* The contract of `MemoryReserve` speaks of the narrowed page numbers and holds for all addresses and sizes;
  these numbers are those of the bytes asked for if the range ends at or below 2^44.
* Allocation orders fit an `int`. Page arguments of `free_pages` point into `mem_map` or are NULL.
* `switch_to` is `current := next`. Reading the `tp` register is reading `current`.

## Where the code and its documentation differ

The models follow the code. `ex61/README.md` asks for 4 GB of mapped memory: the code fills one GiB per
view. It also asks to clear the identity entries: the code clears the whole lower half of the root.
`ex32/README.md` describes a scan over all blocks of each order: the code follows the start page of
what is left to reserve. `ex21/README.md` and `ex22/README.md` ask to check the magic number: the code
does not read it.

## Model

| member | source | states |
|---|---|---|
| Bits.XorFlip | ex31/main.cpp:17-19 | `get_buddy`: for a block aligned to its order, flipping that bit of the index gives the other half of the enclosing block one order up |
| Bits.AlignedIsMod | ex32/main.cpp:43 | digit-wise alignment is divisibility by the power of two |
| Bits.AndNotMask | ex62/utils.c:4-16 | masking off the low bits rounds down to a multiple |
| Bits.OrLow | ex62/main.c:75-81 | or-ing flags into the low zero bits of an entry is addition |
| Tilings.Partition | ex31/main.cpp:17-78 | every page of the zone is free or live and none is both; no page outside is either |
| Tilings.FreeRunInOneBlock | ex31/main.cpp:25-53 | in a coalesced tiling every aligned, wholly free run lies inside a single free block of at least its order |
| Tilings.Canonical | ex31/main.cpp:55-78 | two coalesced tilings with the same live blocks are equal |
| Tilings.SplitTiles | ex31/main.cpp:31-43 | cutting a block into halves gives a tiling again |
| Tilings.MergeTiles | ex31/main.cpp:62-76 | joining a block with its equal-order upper buddy gives a tiling again |
| Tilings.BuddyIsHead | ex31/main.cpp:63-66 | the buddy of any block is the head of a block no larger than it, inside the zone, so the fields that `free_pages` tests are never stale |
| Tilings.SplitCoalesced | ex31/main.cpp:31-43 | splitting a held block and freeing one half creates no mergeable pair |
| Tilings.ReleaseCoalesced | ex31/main.cpp:62-77 | a block released when its buddy is missing, in use or of another order leaves no mergeable pair |
| PageLists.RepSplit | ex31/main.cpp:31-43 | the field and list updates of one split represent the split tiling |
| PageLists.RepMerge | ex31/main.cpp:62-76 | the field and list updates of one merge represent the merged tiling |
| BuddyAllocator.Allocator.constructor | ex31/main.cpp:86-92 | the initialisation loop yields a valid state with every aligned MAX_ORDER block free, in ascending order, and all other lists empty |
| BuddyAllocator.Allocator.SplitFront | ex31/main.cpp:31-43 | one splitting round: new fields of the upper half, new lists, nothing else |
| BuddyAllocator.Allocator.SplitDown | ex31/main.cpp:29-44 | the splitting loop keeps the tiling, changes no live block and leaves each intermediate upper half on its list |
| BuddyAllocator.Allocator.TakeFront | ex31/main.cpp:45-49 | the front block becomes live with its order finally set |
| BuddyAllocator.Allocator.AllocPages | ex31/main.cpp:25-53 | NULL exactly if no aligned run of the order is wholly free; otherwise the returned block was free and is the only new live block; it is the front of the first nonempty list (best fit), each list between keeps the upper half split off there, and all others are unchanged |
| BuddyAllocator.EmptyListsNoRun | ex31/main.cpp:28-29 | if all lists from an order up are empty there is no free run of that order |
| BuddyAllocator.FreeingTest | ex31/main.cpp:63-66 | the field test succeeds exactly if the buddy is on the free list of that order, which is exactly when the blocks can be merged |
| BuddyAllocator.FreeingRound | ex31/main.cpp:62-76 | one merging round keeps tiling, lists and coalescing and moves the live block to the joint block |
| BuddyAllocator.Allocator.MergeUp | ex31/main.cpp:61-76 | the merging loop stops with a block that has no mergeable buddy; the lists lost exactly the buddies around the freed page |
| BuddyAllocator.Allocator.Release | ex31/main.cpp:61-77 | the joint block is pushed to the front of its list, each list below lost exactly the buddy merged there, and all others are unchanged |
| BuddyAllocator.Allocator.FreePages | ex31/main.cpp:55-78 | freeing a live block's head removes exactly it from the live blocks, keeps full coalescing and changes the lists in that way; any other page, or NULL, changes nothing |
| BuddyAllocator.Allocator.Search | ex32/main.cpp:44-51 | the search loop finds a head exactly if it is listed |
| BuddyAllocator.Allocator.OrderAt | ex32/main.cpp:64-83 | the recomputed order is the largest to which the offset is aligned; "ERROR ORDER" is never reached |
| BuddyAllocator.Allocator.NextOrderAt | ex32/main.cpp:63-86 | MAX_ORDER at a MAX_ORDER boundary, else the largest order to which the page number is aligned |
| BuddyAllocator.Allocator.TakeWhole | ex32/main.cpp:53-56 | a fully overlapped block becomes live |
| BuddyAllocator.Allocator.TakeApart | ex32/main.cpp:90-98 | a partially overlapped block is replaced by its two free halves |
| BuddyAllocator.Allocator.MemoryReserve | ex32/main.cpp:33-117 | terminates; for a nonempty range of narrowed page numbers it succeeds exactly if all touched MAX_ORDER blocks are whole and free, and then exactly the pages of that range have left the free side, as the largest aligned blocks that fit, with full coalescing, and every free list is given with its order; for an empty range it splits at most one block |
| ReservedLists.SmallerIsLeft | ex32/main.cpp:90-98 | while a block around the start page is looked at, every free block of the next lower order in its MAX_ORDER block lies left of it |
| ReservedLists.CarryTake | ex32/main.cpp:53-56 | taking a block leaves the new blocks on each list below MAX_ORDER in front of the old ones, in descending order |
| ReservedLists.CarrySplit | ex32/main.cpp:90-98 | so does splitting one, but for the half that is looked at next |
| ReservedLists.ListsUnique | ex32/main.cpp:42-116 | with the tiling, the order stated for the lists after a reservation determines each list |
| Reservation.SearchAtTop | ex32/main.cpp:43-51 | at MAX_ORDER the search succeeds exactly if the block was free before the call |
| Reservation.CarveSplit | ex32/main.cpp:90-98 | splitting a partially overlapped block keeps the loop's invariant one order lower |
| Reservation.CarveTake | ex32/main.cpp:53-58 | taking a fully overlapped block leaves a coalesced tiling with exactly the pages so far reserved |
| Reservation.NextBlock | ex32/main.cpp:64-86 | after a full overlap the next free block starts at the new start page and has the recomputed order |
| Reservation.EmptyRangeSplits | ex32/main.cpp:90-106 | the split made for an empty range leaves a mergeable pair |
| BuddyTheorems.SourceZone | ex31/main.cpp:5-6 | the programs' constants satisfy the model's requirements |
| BuddyTheorems.AllocDisjoint | ex31/main.cpp:25-53 | an allocated block overlaps no block in use |
| BuddyTheorems.CanonicalLists | ex31/main.cpp:55-78 | states with the same live blocks have the same free lists up to order |
| BuddyTheorems.AllFreeIsInitial | ex31/main.cpp:86-92 | once all blocks are free, in any order, memory is in its initial all-MAX_ORDER state |
| BuddyTheorems.FreeUndoesAlloc | ex31/main.cpp:25-78 | allocating and freeing a block restores the tiling |
| BuddyTheorems.FreesCommute | ex31/main.cpp:55-78 | the order of two frees does not matter |
| BuddyTheorems.CarvedUnique | ex32/main.cpp:42-116 | the outcome of a reservation is determined by the state before and the page range |
| BuddyTheorems.ReserveElsewhere | ex32/main.cpp:33-117 | a reservation leaves MAX_ORDER blocks outside its range whole and free |
| BuddyTheorems.ReserveTwiceFails | ex32/main.cpp:107-115 | a later reservation that touches a MAX_ORDER block with a reserved page fails |
| BuddyTheorems.ReserveCoalesced | ex32/main.cpp:90-106 | a finished reservation keeps full coalescing exactly if its range is not empty or the block around its start was not free |
| BuddyTheorems.PageRange | ex32/main.cpp:37-40 | the narrowed page numbers are those of the first and last page meant exactly below 2^44 |
| BuddyTheorems.EmptyRange | ex32/main.cpp:37-40 | for every address and size, exactly when the narrowed page range is empty |
| BuddyTheorems.EmptyRangeBelow | ex32/main.cpp:37-40 | below 2^44: exactly for size 0 at a page boundary other than address 0 |
| BuddyTheorems.NarrowedToNothing | ex32/main.cpp:90-106 | reserving 0xffffffff001 bytes at 0x1000 in fresh memory makes no block live and leaves a mergeable pair |
| BuddyTheorems.NarrowedToZero | ex32/main.cpp:37-40 | one page at 2^44 is taken for page 0 |
| BuddyTheorems.FirstReservation | ex32/main.cpp:42-51 | on fresh memory all touched blocks are free exactly if the range ends inside memory |
| BuddyTheorems.MmInit | ex32/main.cpp:119-128 | `mm_init` succeeds: the pages up to 0x82a69 are in use and all others free, the MAX_ORDER list is ascending and all others are descending |
| BuddyRuns.FirstPage | ex31/main.cpp:86-96 | on fresh memory the first allocation of any order returns page 0 |
| BuddyRuns.FreeThenAlloc | ex31/main.cpp:25-78 | right after a free that merges nothing, an allocation of that order returns the freed block |
| BuddyRuns.AllocThree | ex31/main.cpp:95-103 | the three allocations of `main` return pages 0, 2 and 4, with the lists they leave |
| BuddyRuns.FreeFirst | ex31/main.cpp:106 | freeing page 0 puts it in front of page 6 |
| BuddyRuns.FreeSecond | ex31/main.cpp:107 | freeing page 2 merges it with page 0 and stops there |
| BuddyRuns.Ex31Main | ex31/main.cpp:86-112 | all of `main`: at the end memory and its lists are as at the start |
| BuddyTheorems.ReserveNothingAtZero | ex32/main.cpp:40 | at address 0 the last page of an empty range wraps, and no state has the blocks that `memory_reserve(0, 0)` asks for |
| BuddyTheorems.ReserveNothing | ex32/main.cpp:90-106 | reserving no bytes at 0x1000 in fresh memory is such a call |
| BuddyTheorems.StepKeeps | ex32/main.cpp:33-117 | every allocation, free and reservation keeps reserved pages in live blocks that no client holds |
| BuddyTheorems.StartKept | ex32/main.cpp:119-126 | freshly initialised memory is a state from which runs may start |
| BuddyTheorems.ReservedStays | ex32/main.cpp:53-58 | in every run a reserved page is never free again and no block handed out later contains it |
| Sv39.VpnsDeterminePage | ex62/main.c:62-66 | the three index fields determine the page of a user address |
| Sv39.RootHalves | ex62/main.c:51 | low canonical addresses use the lower half of the root, high ones the upper |
| Sv39.SlotsAreIndices | ex62/main.c:66 | user addresses use the same entry at a level exactly if they lie in the same GiB or 2 MiB |
| PageTree.LinkShape | ex62/main.c:72-77 | linking a fresh table keeps the table graph a tree |
| PageTree.LinkTranslate | ex62/main.c:72-77 | linking an empty table changes no translation |
| PageTree.PathUnique | ex62/main.c:64-78 | two walks that reach the same bottom table used the same entries |
| PageTree.StoreTranslate | ex62/main.c:79-81 | writing the bottom entry redirects exactly the page of the address |
| PageTree.LinkDepth | ex62/main.c:72-77 | linking a table puts it on the way of exactly the addresses that share its entry |
| BumpAllocator.Heap.constructor | ex62/utils.c:1-2 | the bump pointer starts at the end of the image |
| BumpAllocator.Heap.KMalloc | ex62/utils.c:4-9 | returns a 16-aligned fresh region above all earlier ones |
| BumpAllocator.Heap.AllocPage | ex62/utils.c:11-16 | returns a page-aligned fresh page above all earlier regions |
| UserPaging.AddressSpaces.constructor | ex62/main.c:47-56 | after `setup_vm` the translation is the linear map of 10 GiB at PAGE_OFFSET and nothing else |
| UserPaging.LinearTranslate | ex62/main.c:47-52 | a root with the ten 1 GiB leaves translates exactly as the linear map |
| UserPaging.AddressSpaces.NextTable | ex62/main.c:65-78 | one level of the walk moves to the next table; it takes the present branch exactly if that table exists, else adds the next free page as a table; no translation changes |
| UserPaging.AddressSpaces.PageWalk | ex62/main.c:58-82 | afterwards every address of the page translates to the frame of `pa` with the same offset and the given flags (or faults if the flags are no leaf), every other translation is unchanged, new tables are the next pages of the bump allocator and no other page is taken, and the present branch was taken once for every table of the address that existed |
| UserPaging.AddressSpaces.MapPages | ex62/main.c:84-90 | appends one request to the log that the whole translation obeys; the tables are exactly those that the log needs, and the present branch was never taken exactly if all pages of the log lie in different GiB |
| PageMap.KnownNext | ex62/main.c:64-78 | one more page makes known exactly the tables it shares with other addresses |
| PageMap.ApartNext | ex62/main.c:68-70 | one more page keeps all pages apart exactly if no earlier page lies in its GiB |
| PageMap.RequestComplete | ex62/main.c:88-89 | every byte of a request is mapped exactly if it has at most 2^31 bytes and does not reach one page further than its size needs |
| PageMap.AlignedComplete | ex62/main.c:88-89 | from a page boundary, exactly if it has at most 2^31 bytes |
| PageMap.UnalignedIncomplete | ex62/main.c:88-89 | a page of bytes from the middle of a page is mapped only in part |
| PageMap.HugeIncomplete | ex62/main.c:88 | the byte after the first 2^31 is not mapped |
| PageMap.LoopBounds | ex62/main.c:88 | the wrapping 32-bit counter is the offset of the next page while there is one, and ends the loop after that |
| PageMap.LastWriteWins | ex62/main.c:84-90 | the abstract map of a page is that of the last request that covers it |
| UserPaging.AddressSpaces.MapProgram | ex62/main.c:121-125 | the program's pages and the stack page are mapped on top of what was mapped before; user mode may read and execute but not write the program, read and write but not execute the stack, and not use the kernel half; their two frames are no page tables, but the frame behind a program of more than one page is; from a fresh address space the present branch is not taken for one page |
| UserPaging.AddressSpaces.KernelEnd | ex62/main.c:12-51 | in every state the linear map ends with the tenth GiB, and its pages allow all accesses to the kernel and none to user mode |
| UserPaging.AddressSpaces.TablePointer | ex62/main.c:68-70 | the physical address of a table, used as a pointer, translates as the requests say: not at all unless one covers it |
| UserPaging.AddressSpaces.TwoPagesFollow | ex62/main.c:68-70 | mapping two pages in one GiB takes the present branch |
| KernelBoot.BootTables.FillLinear | ex61/main.c:67-71 | the 512-step loop writes each slot of both tables once, with the address of its 2 MiB page |
| KernelBoot.BootTables.SetupVm | ex61/main.c:53-83 | for every load address below 2^38 the hardware translation afterwards is `BootMap`: identity and high-half linear maps of one GiB and the UART page |
| KernelBoot.BootTables.DropIdentityMap | ex61/main.c:85-96 | no low address translates any more and every high translation is unchanged |
| KernelBoot.BothViewsAgree | ex61/main.c:60-75 | from the load address to the end of its GiB the identity map is linear, and the high half agrees with it exactly above the first GiB or in the UART page |
| KernelBoot.KernelReachable | ex61/main.c:61-75 | the kernel's high address translates to its load address exactly if that is at or above 1 GiB or in the UART page |
| KernelBoot.LowKernelUnreachable | ex61/main.c:74 | a kernel at 32 MiB is unreachable at its high address |
| KernelBoot.UartMapped | ex61/main.c:73-75 | the UART page is mapped for every load address |
| KernelBoot.BootFlags | ex61/main.c:33 | every mapping is global and allows all accesses to the kernel and none to user mode |
| KernelBoot.RootFlags | ex61/main.c:34 | used root entries have no low bits but V and G |
| RoundRobin.MoveToBackKeeps | ex51/main.c:75-96 | moving a task to the back keeps every task exactly once |
| RoundRobin.Cycle | ex51/main.c:75-96 | from any state the selected tasks follow one fixed order, over and over |
| RoundRobin.Fair | ex51/main.c:75-96 | any n consecutive calls of `schedule` select each of the n tasks exactly once |
| RoundRobin.WaitStep | ex51/main.c:75-128 | a creation lengthens a task's wait by one call, a switch to another task shortens it by one |
| RoundRobin.SelectedInTime | ex51/main.c:75-128 | over runs with creations a task is selected within its initial wait plus one call per created thread |
| RunQueue.Scheduler.constructor | ex51/main.c:47-48 | the queue starts empty |
| RunQueue.Scheduler.Enqueue | ex51/main.c:50-66 | push-front on the ring, which stays a well-formed circular doubly linked list; only links are written |
| RunQueue.Scheduler.NewTask | ex51/main.c:121-125 | the new task has the next process ID and a fresh stack page, with the stack pointer at its end |
| RunQueue.Scheduler.KthreadCreate | ex51/main.c:120-128 | the new task is at the front with a stack page shared with no other, every created task is in the queue exactly once, and the other tasks keep their registers and stacks |
| RunQueue.Scheduler.StartKernel | ex51/main.c:130-136 | afterwards the idle task runs and stands last of four tasks, the newest first, each with its stack pointer at the end of a stack page of its own |
| RunQueue.Scheduler.Unlink | ex51/main.c:84-86 | the running task leaves the ring at its place |
| RunQueue.Scheduler.PushBack | ex51/main.c:87-91 | it becomes the last task of the ring |
| RunQueue.Scheduler.Requeue | ex51/main.c:80-92 | in both branches the running task is moved to the back |
| RunQueue.Scheduler.Schedule | ex51/main.c:75-96 | is the abstract `schedule`: running task to the back, head of the queue runs; no register or stack of a task is written |
| FdtFormat.TokenIs | ex21/main.c:25-27 | loading and byte-swapping reads back a big-endian field |
| FdtFormat.AlignUpIs | ex21/main.c:33-35 | `align_up` skips the padding |
| FdtLookup.Strncmp2 | ex21/main.c:37-64 | accepts exactly names that are a prefix of the rest of the path, or agree up to their own `@` at the end of a component when no `@` is left in the path |
| FdtLookup.ScanEnter | ex21/main.c:84-99 | entering a node that is not matched does not change what descent finds in the rest |
| FdtLookup.ScanMatch | ex21/main.c:88-94 | a match moves the search into the node, or is the answer |
| FdtLookup.ScanLeave | ex21/main.c:100-108 | the end of a node below the matched chain is passed over, the end of the matched chain means there is no answer |
| FdtLookup.FacingName | ex21/main.c:86 | behind FDT_BEGIN_NODE stands the node's name |
| FdtLookup.FacingProp | ex21/main.c:109-114 | behind FDT_PROP stand length, name offset and value |
| FdtScanner.PathIndex | ex21/main.c:69-77 | the index array holds where each component of the path starts |
| FdtScanner.FdtPathOffset | ex21/main.c:66-127 | on the encoding of any tree and any path of 1 to 10 components the result is that of recursive descent committing to the first accepted child, or -1 |
| Bytes.StrEq | ex21/main.c:147 | `strcmp` is equality of C strings |
| FdtScanner.FdtGetProp | ex21/main.c:129-157 | returns place and length of exactly the value of the first matching property before any NOP or child |
| FdtScanner.LeadingComplete | ex21/main.c:143 | that is the node's first property with the name exactly if one stands there or none stands later |
| FdtScanner.NopHidesProp | ex21/main.c:143 | a NOP in front hides a property |
| FdtScanner.PropsFirstComplete | ex21/main.c:143 | with the properties first and no NOP among them, every property is found |
| FdtPaths.ComponentsOfPath | ex21/main.c:72-77 | the components of a full path are the joined names from each level on |
| FdtPaths.AcceptsFullPath | ex21/main.c:37-64 | on full paths a sibling is accepted exactly if it shadows the name looked for |
| FdtPaths.DescendPath | ex21/main.c:82-124 | descent along a node's full path ends at that node exactly if no earlier sibling on the way shadows |
| FdtPaths.PathRoundTrip | ex21/main.c:66-127 | the same from the root of the block: the path resolves to the node's FDT_BEGIN_NODE offset exactly if the way is clear |
| FdtPaths.FullPathOffset | ex21/main.c:66-127 | the same on the blob: `fdt_path_offset` returns the node's offset exactly if the way is clear |
| FdtPaths.FacingRoute | ex21/main.c:84-99 | at the offset of any node of the tree stands its encoding |
| FdtPaths.PropOfPath | ex21/main.c:179-190 | `fdt_path_offset` and then `fdt_getprop` return place and length of exactly the value of the node's first property with the name, or NULL |
| FdtPaths.ShadowedSibling | ex21/main.c:88-94 | with siblings `cpu` and `cpus` the path `/cpus` leads to the first |
| FdtPaths.PrefixFreeIsClear | ex21/main.c:37-64 | with prefix-free sibling names every way is clear |
| FdtSample.FlatSample | ex21/main.c:6-10 | the encoding of a tree with a property, a NOP and a child, byte by byte |
| FdtSample.Sample | ex21/main.c:66-157 | on a blob given byte by byte, both calls return the right offsets |
| FdtSample.UnitAddress | ex21/main.c:37-64 | the unit address of `cpu@0` may be left out in a path but not changed |
| CpioFormat.HexToI | ex22/main.c:30-40 | computes the code's reading of a field, with 32-bit wrap-around in each step |
| CpioFormat.FieldRight | ex22/main.c:30-40 | that reading of eight digits is right as an `int` exactly if the first digit is below 8 and no other is lower-case, and as an `unsigned int` exactly if no other is lower-case |
| CpioFormat.LowerCaseNegative | ex22/main.c:34-37 | the field `7fffffff` reads as -1574821345 |
| CpioFormat.LowerCaseFirst | ex22/main.c:34-37 | the field `a0000000` reads right as an `unsigned int` and wrong as an `int` |
| CpioFormat.HexRoundTrip | ex22/main.c:30-40 | a written field is read back |
| CpioFormat.RecordFields | ex22/main.c:6-21 | a record shows its sizes, name and data at the header's offsets and is followed by the next one |
| CpioWalk.InitrdList | ex22/main.c:53-67 | lists exactly the members in order, up to the trailer, with name, size and data start |
| CpioWalk.InitrdCat | ex22/main.c:69-90 | finds the data of the first member with the name, or none |
| CpioWalk.MemEq | ex62/utils.c:34-43 | `memcmp` against a C string, for the two uses in `exec`; with a negative count it compares nothing |
| CpioWalk.SizesWrap | ex62/main.c:116-119 | the 32-bit sizes and their sum are the true ones, wrapped |
| CpioWalk.ExecOnce | ex62/main.c:114-135 | one round of the loop stops, matches or steps as `ExecRound` says, in 32-bit arithmetic |
| CpioWalk.ExecFind | ex62/main.c:112-136 | the loop ends as `ExecWalk` says while its cursor stands on headers |
| CpioWalk.ExecWalkRight | ex62/main.c:112-136 | that is the first member with the name before the trailer exactly if the sizes on the way are small enough |
| CpioWalk.HugeMember | ex62/main.c:135 | a member of 2^31 - 112 bytes sends the cursor 2^31 bytes back |
| CpioWalk.StepIs | ex22/main.c:65 | the step of `ex22` leads to the next header |
| CpioWalk.AllVisible | ex22/main.c:61 | a walk sees all members exactly if none is taken for the trailer |
| CpioWalk.LookAlikes | ex62/main.c:114 | a member `TRAILER!!!x` ends the walk of `exec` only |
| CpioWalk.FindIsFirst | ex22/main.c:80 | what is looked for is the first entry with the name |
| CpioWalk.EntriesAreMembers | ex22/main.c:53-67 | every entry has its member's name, size and data |
| CpioWalk.SameFirstMatch | ex62/main.c:114-135 | without members named like the trailer, the walk of `exec` finds the match of `ex22`, the first among all members, exactly if the sizes on the way are small enough |
| CpioSample.ArchiveSample | ex22/main.c:6-21 | the archive of one member and the trailer, field by field and byte by byte |
| CpioSample.Sample | ex22/main.c:53-90 | on these bytes all three walks see the member's name, size and data start |

## Left out

- BuddyAllocator.Allocator.MemoryReserve: asks for fewer than 2^32 pages, and says of the state in which the program exits with "Not found" only that it is a tiling.
- UserPaging.AddressSpaces.NextTable: takes the table pointer of the present branch to reach the table (see Assumptions).
- UserPaging.AddressSpaces.PageWalk: the same, and user-half addresses only; in the kernel half the entries are 1 GiB leaves.
- UserPaging.AddressSpaces.MapPages: the same; the assumption is not used while all pages lie in different GiB.
- UserPaging.AddressSpaces.MapProgram: copying the program and entering user mode are not modelled, nor negative file sizes, with which the copy and the mapping run past the user half.
- KernelBoot.BootTables.SetupVm: load addresses from 2^38 up, which an Sv39 identity map cannot show.
- CpioWalk.ExecFind: what the code reads once its cursor has left the headers of the archive.
- FdtScanner.FdtPathOffset: paths without a slash or with more than ten, which the index array of the code does not hold, and blobs that are not encodings of a tree.
- RunQueue.Scheduler.Schedule: `switch_to` is only the change of the running task; registers and stacks are not modelled.
- `satp`, fences, the TLB, privilege modes and permission checks; a translation carries the flag bits from which permissions are read.
- Printing, file reading, UART, SBI, PLIC, frame buffer and fw_cfg code, and all assembly.
- The file operations of ex71 and ex72, which are not implemented, the unused list helpers of ex51, and `test.c`.
