# The memory subsystem of the kernel, modelled and verified

This project models the memory subsystem of a small RISC-V kernel and proves what it keeps, step by
step and over whole runs. Four layers share one physical memory, and a spinlock guards the lowest:

* the **page pool** (`src/vm/palloc.rs`): a doubly linked list of free pages in address order, whose
  links live in the free pages themselves;
* the **sub-page allocator** `Kalloc` (`src/vm/vmalloc.rs`): pages ("zones") tiled by chunks with packed
  headers, first fit, split on allocation, lazy coalescing while scanning, forward coalescing on free,
  and a chain of zones that grows and shrinks;
* the **Sv39 page tables** (`src/vm/ptable.rs`): a three-level tree of pool pages, read by the
  translation of sections 4.3.2 and 4.4 of the RISC-V Privileged ISA;
* the **general allocator** `Galloc` (`src/vm/global.rs`), which routes a layout to the pool or to `Kalloc`;
* the **spinlock** (`src/lock/mutex.rs`), under any number of harts.

## How the model is built

`Memory` is one word-addressed memory: pages of 512 words. Addresses and words are natural numbers;
packed fields are taken apart by the source's own masks and shifts, defined bit by bit in `Bits` and
proved equal to `div` and `mod`. Objects that the source updates in place (`Pool`, `Kalloc`, `Galloc`)
are classes over this memory; their ghost fields say which pages are free, which chunks tile which zone
and which blocks are live. Subtractions that the development build checks, failed assertions and panics
are explicit outcomes. What the methods do to memory is stated as relations on values (`TakeStep`,
`GiveStep`, `ScanPost`, `Answered`, `Freed`, `MapEnd`, `HeapStep`), and the laws over runs are proved of those
relations.

| module | what it is about |
|---|---|
| `Bits`, `Memory` | masks and shifts; pages, words, loads and stores |
| `FreeList`, `PagePool`, `PoolLaws` | the free list as a value, the pool's code, its laws over runs |
| `Chunks`, `FirstFit`, `Headers`, `Zones` | tilings of a page, the first-fit specification, packed words, `scan` and `alloc_chunk` |
| `ZoneChain`, `ZoneRelease`, `SmallAlloc` | the chain of zones, freeing and releasing, `Kalloc` |
| `PageTable`, `PageWalk`, `Mapping`, `AddressSpace`, `KernelMap` | the hardware's walk, `walk`, `page_map`, what it means, `kpage_init` |
| `HeapView`, `ClientMemory`, `HeapRuns`, `GeneralAlloc` | live blocks, clients' bytes, whole-system runs, `Galloc` |
| `SharedPool`, `Overrun` | the page tables and `Galloc` on one pool; two requests that overrun a zone |
| `Spinlock`, `PoolCode` | harts around the lock, and the pool's critical sections access by access |

## Where the code departs from its evident intent

The model follows the code. Each departure is an exact outcome or an exact condition.

* `Pool::new` writes the head's next link before it knows whether there is a second page. The pool is
  well formed exactly from two pages on (`PagePool.Pool.constructor`).
* `alloc_pages` gives up on a run that ends with the last free page, and its gap branch moves the start
  of the region without moving `page`, so that the next loop test subtracts past zero, or measures from
  the null address and goes on from there or never comes back. `PagePool.OutcomeFor` says which of the five
  ends is reached, for every list.
* `scan` looks at the word behind the zone before it tests whether it is still inside. When no run fits,
  the last chunk is free and that word looks like a free header, the scan absorbs and zeroes it
  (`Zones.EndGuarded` is the condition). The page is then no zone any more, whatever its chunks are taken to
  be (`Zones.OverrunBreaks`), and a block that the scan goes on to grant reaches past the zone
  (`Zones.ScanOn`). Eight bytes followed by 4080 bytes on a fresh heap get there (`Overrun.OverrunReached`).
* `Kalloc::alloc` never moves its loop bound, so a second zone above the first is never scanned: a request
  that the first zone cannot serve fails once there are two zones (`SmallAlloc.Kalloc.Alloc`), and a second
  zone only ever holds the block it was made for (`HeapRuns.SecondZoneFree`).
* `free` writes the chunk's header after the zone's page may have gone back to the pool. Releasing itself
  is right (`ZoneRelease.ShrinkPool`). The late write leaves a free page that is not zero, and takes the
  place of its next link exactly when the chunk is the first of the zone
  (`ZoneRelease.LateWriteBreaks`); in every run it is, so giving back the block of a second zone always
  breaks the free list (`GeneralAlloc.Galloc.Dealloc`).
* `realloc` copies the old size even when it shrinks. The copy stays inside the new block for every content
  of memory if and only if the new block can hold the old size (`ClientMemory.CopyFitsIff`). Beyond, the
  zone is broken as soon as what arrives behind the new block is no header (`GeneralAlloc.ShrinkBreaks`).
* `walk` accepts addresses up to 2^39, but those from 2^38 on are not canonical and never translate, and
  the hardware rejects writable leaves that are not readable (`AddressSpace.RangeTranslates`).

## Model

| member | source | states |
|---|---|---|
| `Bits.LowBits` | src/vm/ptable.rs:39 | masking with 2^k - 1 is the remainder modulo 2^k, for every k |
| `Bits.HighBits` | src/vm/vmalloc.rs:213 | clearing the low k bits subtracts that remainder, and leaves a multiple of 2^k |
| `Bits.OrDisjoint` | src/vm/vmalloc.rs:227 | OR of a multiple of 2^k with a value below 2^k is their sum: packed fields do not disturb each other |
| `PagePool.Pool.constructor` | src/vm/palloc.rs:167-194 | the list is the pages from bottom to top, only they are written, and the pool is well formed if and only if there are at least two |
| `PagePool.Pool.LinkAll` | src/vm/palloc.rs:167-187 | every page ends up zeroed but for the links to its two neighbours, and no other page changes |
| `PagePool.RunIsLinked` | src/vm/palloc.rs:167-194 | two or more pages linked to each other are the canonical free list of their region |
| `PagePool.Pool.FindRegion` | src/vm/palloc.rs:198-229 | the search ends with a region, without a gap, at the null address, in an endless loop or in a trap under exact conditions on the list; it changes nothing |
| `PagePool.Pool.AllocPages` | src/vm/palloc.rs:198-261 | success exactly when one page is asked for or the list starts with n+1 consecutive pages; then the first n pages come back zeroed, the rest is the canonical list, and nothing outside the free pages changed; otherwise nothing changed |
| `PagePool.Pool.LinkRegion` | src/vm/palloc.rs:267-285 | the region is zeroed and linked within itself, and nothing else changes |
| `PagePool.Pool.FindBefore` | src/vm/palloc.rs:297-301 | the loop stops at the entry after which the region belongs |
| `PagePool.Pool.FreePages` | src/vm/palloc.rs:263-322 | the free set grows by exactly the region, the list is again sorted and canonically linked, and nothing but free pages is written |
| `PagePool.Pool.Palloc` | src/vm/palloc.rs:46-55 | fails exactly on an empty pool; otherwise returns the lowest free page, zeroed |
| `PagePool.Pool.PallocPlural` | src/vm/palloc.rs:69-80 | exact conditions of success, of `OutOfPages` and of the cases without a regular end; failures change nothing |
| `PagePool.Pool.PfreePlural` | src/vm/palloc.rs:82-91 | panics exactly on a misaligned page or a count of zero, and otherwise gives the region back |
| `PagePool.Pool.Pfree` | src/vm/palloc.rs:59-67 | the same for one page |
| `FreeList.SortedUnique` | src/vm/palloc.rs:16-21 | a set of pages has only one address-ordered list |
| `FreeList.FreeWords` | src/vm/palloc.rs:118-156 | word 0 of a free page is the address of the page before it, word 1 that of the page after it, and every other word is zero |
| `FreeList.CanonicalImage` | src/vm/palloc.rs:198-322 | memories with free lists over the same pages that agree elsewhere are equal: the free image is a function of the free set |
| `FreeList.SpliceLinked` | src/vm/palloc.rs:287-321 | linking a region in takes its own links and one link of each neighbour |
| `PoolLaws.RoundTrip` | src/vm/palloc.rs:198-322 | taking pages, writing anything into them and giving them back restores the list and every word of memory |
| `PoolLaws.GiveOrder` | src/vm/palloc.rs:263-322 | two regions given back in either order leave the same list and memory |
| `PoolLaws.StepAccounted` | src/vm/palloc.rs:46-91 | every step, in which requests are served and refused exactly as the list decides, keeps each page of the pool free or held, never both, and the free pages canonical |
| `PoolLaws.RunAccounted` | src/vm/palloc.rs:46-91 | so it is in every state of every run from a fresh pool |
| `PoolLaws.FreeSetDecidesImage` | src/vm/palloc.rs:167-322 | two runs, whatever their history, that end with the same pages held end with the same list and the same free pages word for word |
| `Headers.HdrFields` | src/vm/vmalloc.rs:138-157 | the header operations read and change exactly the size or the used bit of a chunk that fits a zone |
| `Headers.SizeSpills` | src/vm/vmalloc.rs:155-157 | every size from 4096 on turns a free header into a used one with what lies above 4096 as its size |
| `Headers.SizeSet` | src/vm/vmalloc.rs:155-157 | setting the size bits of any free header, reserved bits included, keeps it free below 4096 and makes it used from 4096 on |
| `Headers.ZoneWordRoundTrip` | src/vm/vmalloc.rs:208-237 | address and count survive packing into the zone word |
| `Zones.ZoneWord` | src/vm/vmalloc.rs:208-263 | in every zone the count is the number of chunks in use and at most 255, so the limit of 510 and the spill into the address are out of reach |
| `Chunks.UsedBound` | src/vm/vmalloc.rs:239-249 | twice the number of chunks in use is at most the words they span |
| `Chunks.BlocksDisjoint` | src/vm/vmalloc.rs:46-109 | live payloads of one zone never overlap |
| `Zones.CountUse` | src/vm/vmalloc.rs:239-249 | the increment adds one to the zone word, the limit being out of reach |
| `Zones.AllocChunk` | src/vm/vmalloc.rs:324-334 | the chunk is marked and split so that the zone is tiled again, with exactly one more live payload and all others untouched |
| `Zones.MergeHeaders` | src/vm/vmalloc.rs:180-190 | the merged header carries the sum of the sizes plus one header, and the absorbed header is zeroed |
| `Zones.MergeZone` | src/vm/vmalloc.rs:309-314 | merging two free neighbours keeps the tiling, the count and every live word |
| `Zones.PassChunk` | src/vm/vmalloc.rs:303-314 | a step over a used or short chunk keeps the cursor at the start of a maximal free run with no fit before it, ends the scan, or absorbs the word behind the zone and thereby breaks it |
| `Zones.Scan` | src/vm/vmalloc.rs:296-321 | found: the start of the first maximal free run whose coalesced size fits, carved there, with every run before it coalesced, no more of its own run joined than it takes and the rest as it was; not found exactly when no run fits and the end is guarded, with every run coalesced; overrun exactly when no run fits and it is not, and then the page is no zone any more, the word behind it is zero and every live payload of the zone is kept |
| `FirstFit.FirstFitUnique` | src/vm/vmalloc.rs:293-321 | the first fit is unique |
| `FirstFit.CoalescedApart` | src/vm/vmalloc.rs:309-314 | after coalescing, no two free chunks are neighbours |
| `Zones.OverrunBreaks` | src/vm/vmalloc.rs:306-313 | absorbing any free header from behind the zone leaves a page that is no zone with any chunks: the chunk reaches past the page, or its size has spilled into the used bit and the zone word does not count it |
| `Zones.ScanOn` | src/vm/vmalloc.rs:302-321 | after an overrun the scan comes to an end, and a block it grants always reaches past the end of the zone |
| `Overrun.LoneOverrun` | src/vm/vmalloc.rs:302-317 | a heap in order whose one block is the first word of the first zone, with the next page free, has no fit for 4080 bytes and no guarded end |
| `Overrun.OverrunReached` | src/vm/global.rs:54-76 | on every fresh heap with a page to spare, eight bytes are granted and 4080 bytes then overrun the zone |
| `ZoneRelease.PageBase` | src/vm/vmalloc.rs:447 | rounding a live pointer down to a page recovers its zone |
| `ZoneRelease.Unmark` | src/vm/vmalloc.rs:444-463 | the count falls by one without underflow, and nothing else changes |
| `ZoneRelease.MergeNext` | src/vm/vmalloc.rs:465-473 | merges exactly when there is a next chunk in the zone and it is free |
| `ZoneRelease.FreeInPlace` | src/vm/vmalloc.rs:465-475 | the zone loses exactly that live payload and stays tiled, every other payload untouched, with the chunks and words that the forward merge leaves |
| `ZoneChain.FreedNeighbour` | src/vm/vmalloc.rs:465-473 | a freed chunk has a free chunk behind it if and only if it was joined to one that had |
| `ZoneChain.FreeNeighbourRemains` | src/vm/vmalloc.rs:465-473 | three frees among four chunks reach that case |
| `ZoneRelease.FreeSelf` | src/vm/vmalloc.rs:275-291 | the predecessor skips the zone and the page goes to the pool |
| `ZoneRelease.ShrinkPool` | src/vm/vmalloc.rs:375-399 | on a chain of any length the walk ends at the zone, never at the panic; the first zone is never released |
| `ZoneRelease.ReleaseThreaded` | src/vm/vmalloc.rs:234-291 | a release removes exactly that zone, keeps order, next addresses and counts of all others, and the pool gains exactly that page |
| `ZoneRelease.ReleaseChain` | src/vm/vmalloc.rs:375-399 | the remaining zones keep their chunks |
| `ZoneRelease.LateWriteBreaks` | src/vm/vmalloc.rs:474 | a chunk header written into a free page breaks the free list; the links themselves stay intact if and only if it is not word 1 |
| `SmallAlloc.RoundUp` | src/vm/vmalloc.rs:412 | the result is a multiple of eight, not below the size and less than eight above it |
| `SmallAlloc.Kalloc.constructor` | src/vm/vmalloc.rs:347-360 | whatever the page held, it becomes a zone of one free chunk, and no other page changes |
| `SmallAlloc.Kalloc.GrowPool` | src/vm/vmalloc.rs:362-373 | fails exactly on an empty pool; otherwise the lowest free page becomes an empty zone behind the last one |
| `SmallAlloc.Kalloc.AllocInNewZone` | src/vm/vmalloc.rs:426-432 | the new zone serves the request from its first chunk |
| `SmallAlloc.Kalloc.NextOrGrow` | src/vm/vmalloc.rs:423-434 | out of memory exactly when there is a second zone or the pool is empty |
| `SmallAlloc.Kalloc.Alloc` | src/vm/vmalloc.rs:407-438 | the exact outcome of every request and the exact chunks after it; unless it overruns, zones and free pages together stay the same pages, there are never more than two zones, exactly one live payload is new, as long as the size asks and less than a word longer, and every other one keeps its words; the allocator is in order afterwards if and only if it has not overrun |
| `SmallAlloc.Kalloc.Free` | src/vm/vmalloc.rs:444-475 | unless it empties a zone other than the first, it removes exactly that payload: the chunk is joined to the next one when that is free and the zone keeps a chunk in use, stays alone otherwise, and the page changes in exactly those words; when it empties such a zone, the zone has been released correctly and the late write then breaks the pool |
| `ZoneChain.FreedLive` | src/vm/vmalloc.rs:444-475 | freeing in one zone changes no live payload of any zone |
| `PageTable.Vpn` | src/vm/ptable.rs:38-40 | the index of a level is the nine bits of the page number for it |
| `PageTable.Sv39Sizes` | src/vm/ptable.rs:9-14 | the bounds and flag bits are the powers of two that Sv39 has |
| `PageTable.WalkMeetsLeaf` | src/vm/ptable.rs:113-140 | on every tree of tables the hardware's three-level walk ends in the one leaf entry of the page |
| `PageWalk.AddMid` | src/vm/ptable.rs:119-127 | a zeroed page entered in the root keeps the tree and every leaf |
| `PageWalk.AddLow` | src/vm/ptable.rs:119-127 | the same for a level-1 table |
| `PageWalk.SetLeaf` | src/vm/ptable.rs:80-84 | writing a leaf entry changes that leaf, no other, and no table |
| `PageWalk.MakeTable` | src/vm/ptable.rs:122-129 | a missing table is the lowest free page; the tree stays unshared and no leaf changes |
| `PageWalk.Walk` | src/vm/ptable.rs:113-140 | aborts exactly from 2^39 on; finds the leaf slot exactly when the pool has a page for each missing table; tables stay a tree without sharing, no leaf changes, and tables and free pages together stay the same pages |
| `AddressSpace.LeafSlotUnique` | src/vm/ptable.rs:138-139 | two page numbers have the same leaf slot if and only if they are equal |
| `Mapping.EnterLeaf` | src/vm/ptable.rs:163-166 | a valid leaf is refused and kept; any other becomes the entry for the page, with the flags asked for and VALID |
| `Mapping.PageMap` | src/vm/ptable.rs:144-174 | on every result the new leaves are a prefix of the request and no other leaf changes; running out of pages, meeting a valid leaf and leaving the address range happen exactly where they must |
| `Mapping.NewRegionsCount` | src/vm/ptable.rs:113-174 | the pages taken are as many as the 1 GiB and 2 MiB regions reached that had no table |
| `Mapping.RegionsBetween` | src/vm/ptable.rs:152-168 | the regions reached are the consecutive ones between the first and the last page |
| `AddressSpace.RangeTranslates` | src/vm/ptable.rs:144-174 | the hardware translates every byte of the range to the byte at the same distance, exactly when it accepts the flags and the address is below 2^38, and each of the ten flag bits is set if and only if it was asked for or is VALID |
| `AddressSpace.WithValidBits` | src/vm/ptable.rs:166 | setting VALID leaves every other bit as it was asked for |
| `AddressSpace.OthersUnchanged` | src/vm/ptable.rs:144-174 | every address outside the range, in both halves, is translated as before |
| `KernelMap.MapStacks` | src/vm/ptable.rs:243-258 | two pages a hart are mapped above an unmapped one, for any number of harts |
| `KernelMap.MapIntStacks` | src/vm/ptable.rs:262-287 | the same for the interrupt stacks |
| `KernelMap.KpageInit` | src/vm/ptable.rs:183-308 | panics exactly without a root page, and succeeds exactly when there is a page for the root and for each table the layout needs; then every address below 2^38 has the permissions of its section, by the bits of the Privileged ISA, and the pool has paid exactly those pages; no page is lost on any result |
| `KernelMap.TallyRegions` | src/vm/ptable.rs:183-308 | the tables the layout needs are for exactly the 1 GiB and 2 MiB regions that a mapped page lies in |
| `KernelMap.TallyCost` | src/vm/ptable.rs:183-308 | and there is one for each of them |
| `KernelMap.KernelIdentity` | src/vm/ptable.rs:176-308 | the finished table maps every address of the layout to itself with its flags, and faults everywhere else below 2^38 |
| `KernelMap.KernelPermissions` | src/vm/ptable.rs:196-305 | UART, data, stacks, bss and heap are readable and writable and not executable, text is readable and executable and not writable, read-only data is readable only, all for the kernel only and from the first to the last address of each section; every other address faults |
| `KernelMap.WriteXorExecute` | src/vm/ptable.rs:196-305 | no page is writable and executable |
| `KernelMap.StacksGuarded` | src/asm/entry.s:24-42 | every byte of every stack the entry code points a hart at translates to itself, readable and writable, and every byte of the page below faults |
| `KernelMap.StacksApart` | src/asm/entry.s:24-42 | the stacks of two harts share no byte, nor do those of one hart, and hart 0 has the topmost |
| `HeapView.DecideInternalScheme` | src/vm/global.rs:33-51 | panics exactly on size zero; goes to the sub-page allocator exactly for sizes up to 4080 with alignments up to 8; otherwise the pages cover the size, and one page less would not |
| `HeapView.CapacityHolds` | src/vm/global.rs:33-51 | a block holds what its layout asks for and wastes less than a word, or less than a page |
| `HeapView.BlocksApart` | src/vm/global.rs:54-95 | two live blocks never overlap, to their full capacity |
| `HeapView.BlocksAligned` | src/vm/global.rs:33-51 | every live block has the alignment of its layout |
| `ClientMemory.WriteKeepsHeap` | src/vm/vmalloc.rs:46-109 | a client's write inside its block keeps every zone and every other block |
| `ClientMemory.ZeroBytes` | src/vm/global.rs:102 | exactly the bytes of the range become zero |
| `ClientMemory.CopyBytes` | src/vm/global.rs:113 | the destination gets the source's bytes, and no other byte changes |
| `ClientMemory.CopyFitsIff` | src/vm/global.rs:113 | copying the old size stays inside the new block for every content of memory if and only if the new block can hold it |
| `ClientMemory.CopyEscapes` | src/vm/global.rs:113 | a byte that arrives behind the new block, small or of whole pages, where another was, changes memory outside it |
| `GeneralAlloc.Galloc.constructor` | src/vm/global.rs:14-22 | the lowest page becomes the first zone, and the heap is in order with no live block |
| `GeneralAlloc.Galloc.AllocSmall` | src/vm/global.rs:61-67 | a step of the heap with the exact outcome of the sub-page allocator; the heap is in order afterwards if and only if it has not overrun |
| `GeneralAlloc.Galloc.AllocBig` | src/vm/global.rs:68-75 | a step of the heap, with zeroed pages, granted exactly when the pool serves the request |
| `GeneralAlloc.Galloc.Alloc` | src/vm/global.rs:54-76 | every request has its exact outcome; grants and refusals are steps of the heap, and the heap is in order afterwards if and only if the request has not overrun the first zone |
| `GeneralAlloc.Galloc.Dealloc` | src/vm/global.rs:78-95 | a step of the heap, unless the block is the last of a zone other than the first; then the zone has been released and the late write has replaced a link of the free list |
| `GeneralAlloc.Galloc.AllocZeroed` | src/vm/global.rs:97-108 | granted exactly when `alloc` is; every byte of the block is then zero on both routes, and every other block keeps its words |
| `GeneralAlloc.Galloc.Realloc` | src/vm/global.rs:110-116 | granted exactly when `alloc` is; then the heap is in order if and only if the old block was not the last of a second zone, and if it is, the old bytes are in the new block, the old block is gone and every other block keeps its words |
| `GeneralAlloc.Moved` | src/vm/global.rs:110-116 | a grant, a copy and a return together move the bytes of one block and keep all others |
| `GeneralAlloc.ShrinkBreaks` | src/vm/global.rs:113 | when a copy leaves a word behind the new block that is no header, no chunks tile its zone any more |
| `GeneralAlloc.ShrinkBreaksBytes` | src/vm/global.rs:110-116 | so it is for every old content with a non-zero byte where the third to eighth byte of that header is |
| `HeapRuns.StepOk` | src/vm/global.rs:54-95 | every step of the allocator, its clients, the page tables and the other users of the pool keeps the whole system in order, keeps the words of every block it is not about, and writes to no page of another user that it is not about |
| `HeapRuns.RunSafe` | src/vm/global.rs:54-95 | in every state of every run: live blocks apart, aligned, long enough, less than a word or a page too long, and in memory; free pages, zones, blocks and the pages of tables and other users partition the pool; at most two zones |
| `HeapRuns.RunKeepsBytes` | src/vm/vmalloc.rs:296-475 | over any stretch of a run in which a block is neither written nor returned, each of its bytes stays the same |
| `HeapRuns.SecondZoneFree` | src/vm/vmalloc.rs:414-437 | in every state of every run a block outside the first zone is the only one of the second and starts at its second word, so that giving it back always empties the zone and the late write always hits the next link |
| `HeapRuns.StepKeepsTable` | src/vm/ptable.rs:113-174 | a step that is not about a table's pages keeps the table, and every address is translated as before |
| `HeapRuns.RunKeepsTable` | src/vm/ptable.rs:113-174 | so it is over any stretch of a run without such a step |
| `SharedPool.MapShared` | src/vm/ptable.rs:144-174 | `page_map` on the pool of the general allocator is a step of the heap, on every result: the heap stays in order, and the tables are apart from free pages, zones and blocks |
| `SharedPool.InitShared` | src/vm/ptable.rs:183-308 | so is `kpage_init` |
| `Spinlock.StepExclusive` | src/lock/mutex.rs:31-35 | every swap, step and drop keeps at most one hart inside and the lock word 1 exactly when one is |
| `Spinlock.MutualExclusion` | src/lock/mutex.rs:60-66 | so it is in every state of every execution of any number of harts |
| `Spinlock.SectionFrame` | src/vm/palloc.rs:46-91 | a section neither notices nor undoes what other harts write to the pages they hold |
| `Spinlock.Linearise` | src/vm/palloc.rs:46-91 | every execution amounts to a sequential run of the completed requests in the order of acquisition, each served or refused as the sequential list decides, with the same memory and free list whenever the lock is free |
| `Spinlock.NoPageTwice` | src/vm/palloc.rs:46-91 | no page is ever held by two harts, or held and free |
| `Spinlock.Passes` | src/lock/mutex.rs:60-66 | a hart that spins on a free lock and is left alone gets it, goes through its section and drops it |
| `PoolCode.TakeEffect` | src/vm/palloc.rs:232-260 | the stores at the end of `alloc_pages`, word by word, take the region |
| `PoolCode.ChooseStep` | src/vm/palloc.rs:287-296 | without a free page, or before the first one, the stores in the order of the code are about to give the region back; otherwise the search starts |
| `PoolCode.SearchEnd` | src/vm/palloc.rs:303-313 | at the end of the list or between two entries, the stores in the order of the code are about to give the region back |
| `PoolCode.StepInv` | src/vm/palloc.rs:198-322 | after each single access the section is on its way to its effect |
| `PoolCode.CodeSound` | src/vm/palloc.rs:198-322 | the code of `alloc_pages` and `free_pages`, access by access and for any number of pages, keeps to the free pages and those given back, and where it ends it has granted, refused or given back exactly as promised |
| `PoolCode.StuckAtGap` | src/vm/palloc.rs:208-229 | a section gets stuck if and only if the list neither serves nor refuses the request |
| `PoolCode.SectionEnds` | src/vm/palloc.rs:198-322 | every section comes to an end: the pages, a refusal or no regular end, as the list decides; giving back always ends |
| `PoolCode.SameAsAllocPages` | src/vm/palloc.rs:198-261 | the code access by access ends as the outcome of `PagePool.Pool.AllocPages` on the same list says |
| `PoolCode.PoolLinearised` | src/lock/mutex.rs:60-66 | for the pool's own code: any interleaving of any number of harts is the sequential run in acquisition order, and no page is held by two harts |
| `PoolCode.Progress` | src/lock/mutex.rs:31-66 | from every reachable state with the lock free, a hart that spins on a request which is served, refused or gives back can go on alone until it is idle, with the lock free and exactly the pages the free list has for it |

## Left out

- SmallAlloc.Kalloc.Alloc: is stated for a first zone on the lowest page of the pool, as `Galloc::new` arranges it, and for sizes up to 4080, the largest that `Galloc` passes on; after an overrun it stops with the word behind the zone absorbed.
- SmallAlloc.Kalloc.Free: pointers that are not live are not modelled; the double-free assertion is out of reach for live ones.
- Zones.Scan: stops once the word behind the zone has been absorbed; what follows is `Zones.ScanOn`, which does not state what else it writes.
- GeneralAlloc.Galloc.Dealloc: is stated for live blocks with their own layout.
- GeneralAlloc.Galloc.Realloc: is stated while the new block can hold the old size, which is exactly when its copy stays inside the new block.
- PagePool.Pool.AllocPages: what follows the gap branch at the null address, which includes src/vm/palloc.rs:245-250, is not modelled; the outcome says that it is reached.
- Mapping.PageMap: is stated for flags within the ten flag bits of an entry.
- KernelMap.KpageInit: takes the number of harts as a parameter; the linker script reserves room for two.
- Spinlock.Linearise: swap and store are sequentially consistent; which of several spinning harts gets a free lock is left open, as in the source.
- Words are natural numbers: 64-bit wrap-around of addresses is not modelled, nor the wrapping arithmetic of release builds.
- Memory is taken to go on for at least one page behind the pool, since `scan` and `free` read the word behind a zone.
- UART, CLINT, logging, CSRs, boot and trap entry: device and hardware effects.
- TLB flushes, the satp write and the accessed and dirty bits: only the table lookup is modelled.
- Process and scheduling types, the global cells and the forwarding wrapper: no logic of their own.
