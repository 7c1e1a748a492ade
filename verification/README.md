# IOMMU page table and video-engine driver: a verified model

This project models two parts of an Allwinner board-support package and proves what they promise.

**The IOMMU** (`bsp/drivers/iommu`). A directory of 4096 words points to second-level tables of 256
words (V1: 32-bit addresses, 1 MiB per slot) or 1024 words (V2: 34-bit addresses, 4 MiB per slot).
The driver maps, unmaps, translates, clears and dumps this structure in place and invalidates two
hardware caches, a TLB and a walk cache of directory entries, in an order that depends on the
hardware version.

**The Cedar video engine** (`bsp/drivers/ve/cedar-ve`). A priority run list stepped by a timer, lock
flags per open file, a 16-slot load table with a frequency choice, and an intrusive circular list of
DMA buffers.

## How the files fit together

| file | content |
|---|---|
| `Bits.dfy`, `Layout.dfy` | C's bit operators on naturals; the two layouts; page and directory entries bit for bit, and their round trips |
| `Tables.dfy` | the two-level table as a value, the ownership invariant `Inv`, the plain page map `Abs`, and the three kinds of store |
| `Chunks.dfy`, `Prepare.dfy` | cutting a range at slot boundaries, filling, clearing; which slots the preparation loop visits |
| `PageTable.dfy`, `Dump.dfy` | the functions of `sunxi-iommu-pgtable.c` as methods on the directory array |
| `Coherence.dfy`, `Runs.dfy`, `CallRuns.dfy` | lock, table, TLB and walk cache as a state machine with device steps between any two driver stores; theorems over whole runs; whole driver calls as such runs |
| `Staleness.dfy` | when an access or a half-written link leaves a cache stale, exactly |
| `Refinement.dfy`, `Domain.dfy` | whole sequences of calls against a plain map; `sunxi_iommu_map`, `_unmap` and `_domain_free` |
| `Failures.dfy` | concrete tables and runs, from the empty table, at which the code does not do what one would expect |
| `BufferList.dfy` | the circular DMA-buffer list on the heap |
| `Scheduler.dfy`, `Signals.dfy`, `Engine.dfy` | the run list as a machine, its signal protocol, and the driver's functions |
| `Locks.dfy` | GET_LOCK, RELEASE_LOCK and close as a machine |
| `LoadTable.dfy`, `Frequency.dfy` | the load table as a bounded map; the frequency choice |

`Abs(l, t)` is the plain map from page number to frame and rights that a table stands for. Methods are
specified by functions on table values (`FillTable`, `UnmapTable`, `UnmapLoop`, `Inserted`, `Ticked`, ...)
and the properties are proved about those values.

## Where the code does not do what one would expect

Each has the exact condition under which the code is right and a concrete input at which it is not.

- **A fill can lose a carry.** The fill loop adds to a 32-bit word. On V2 a chunk that crosses a 4 GiB
  multiple keeps the old two high address bits, so its later entries name other frames
  (`FillDecodes`, `FillRefines`: correct if and only if no chunk crosses; `CarryIsLost`: two pages at
  0xFFFFF000). V1 is always correct. Blocks of the sizes in `pgsize_bitmap` never cross (`BlockNoCarry`).
- **Unmap stops at a slot that is not valid.** The error code is added to the address as if it were a
  size. Pages behind that slot stay mapped (`StopIsFirst`, `UnmapExact`; `UnmapIsLost`: [0, 512) with only page 256 mapped).
- **Preparation steps by whole slots from an unaligned start.** It misses the last slot, and no other, unless
  the offsets allow it (`CoverageExact`, `OnlyLastMissed`; `UncoveredRange`: 0x80000 to 0x101000); blocks from
  `pgsize_bitmap` are always covered (`BlockCovered`).
- **The TLB is invalidated before the table is cleared.** An access at any later point of the call leaves a stale
  TLB entry if and only if its page is mapped and among those still to be cleared, or the walk cache leads it to a
  table that has been freed (`AccessExact`; `AnyAccessExact` for every content of the walk cache). The first kind is
  `StaleAfterAccess` and, from the initial state, `StaleTlbRun`. The second kind needs no mapped page: on V12 and V13
  a slot is invalidated only after its table has been freed (`StaleInWindow`, `StaleAfterFree`; `FreedTableRun`). The
  later `sunxi_iommu_iotlb_sync` repairs, on V12 and V13, only entries at the two ends of the range (`SyncedAccessExact`).
- **From V14 on the walk cache is invalidated before the tables are freed**, and not again. An access at any later
  point leaves, when the lock is free, an entry for a freed table if and only if its slot is valid and among those
  whose tables are still to be freed (`WalkAccessExact`; `StaleWalk`, `StaleWalkRun`). Below V14 no such entry is left
  in the walk cache when the lock is free (`WalkExact`), although one exists for a moment before the invalidation.
- **On V2 a directory entry is written in two stores.** A walk between them caches another address if and only
  if the table lies where its address has high bits (`TornLinkExact`), and it can then fill the TLB for a page that is
  not mapped (`TornTlbExact`; `TornLinkRun` for every such table, for example one at 0x140000000).
  `sunxi_iommu_iotlb_sync_map`, which is not modelled, later drops the slots at the two ends of the mapped range.
- **On V1 a range that ends at the top of the address space writes 0 to the 32-bit end register**
  (`QuietUnmapExact`; `StaleAtTop`, and `StaleTopRun` from the initial state). V2 hardware takes a page number, which fits.
- **The dump merges pages.** A region that starts with a page without rights takes in following pages with
  any rights, and a region takes in pages whatever their frames are, although it prints one physical address. The printed
  lines describe every page if and only if there is no gap of either kind (`UniformExact`, `ShownExact`;
  `RightsAreLost`, `FramesAreLost`).
- **GET_LOCK and RELEASE_LOCK with a type that is not one of the five bits** take or release no mutex but
  change the flag bits (`GetLockExact`, `ReleaseExact`). Closing the file then unlocks mutexes of other files
  (`StealExact`, `StolenInRun`) or leaves a mutex held by a file that is no longer open (`LeakExact`, `LeakedInRun`).
- **Codec -1 is the loop's own marker** for "none seen yet", so with it the frequency can depend on slot
  order (`OrderExact`, `OrderMatters`).
- **More load can lower the frequency** when the user setting is below 350 MHz (`MoreLoadExact`, `LoweredLoad`).

Apart from these, `sunxi_alloc_iopte` computes rights flags and does not store them, so no directory entry has rights.

## Model

| member | source | states |
|---|---|---|
| `Layouts.MkPteValue` | bsp/drivers/iommu/sunxi-iommu-pgtable.c:143-157 | a page entry is its 32-bit page address, the two high address bits at bit 8 (V2), the rights bits and the valid bit, without overlap |
| `Layouts.DecodeMkPte` | bsp/drivers/iommu/sunxi-iommu-pgtable.c:63-71 | decoding an encoded aligned address gives it back modulo the address space, with its rights and the valid bit |
| `Layouts.PteRoundTrip` | bsp/drivers/iommu/sunxi-iommu-pgtable.c:143-157 | every aligned legal CPU physical address, also exactly 2^VA_BITS, survives relocation, packing and unpacking, and so do the rights |
| `Layouts.Relocated` | bsp/drivers/iommu/sunxi-iommu-pgtable.h:117-129 | the low word and the separately stored high bits of a relocated address lead back to the CPU address |
| `Layouts.RelocationExact` | bsp/drivers/iommu/sunxi-iommu-pgtable.h:117-129 | the CPU address of an IOMMU address is the one number congruent to it, modulo 2^32 (V1) or 2^34 (V2), in the window that starts at 1 GiB; back, the result lies above 0 and at most at the size of the address space |
| `Layouts.DentRoundTrip` | bsp/drivers/iommu/sunxi-iommu-pgtable.c:94-107 | a directory entry made for an aligned table address is valid and `iopte_offset` finds the same address |
| `Layouts.LowDentExact` | bsp/drivers/iommu/sunxi-iommu-pgtable.c:126-130 | after the first of the two stores of a V2 entry it is valid, and it names the table if and only if the address has no high bits |
| `Layouts.IndexValues` | bsp/drivers/iommu/sunxi-iommu-pgtable.c:58-59 | the shift-and-mask indices are the slot, modulo the directory size, and the index of the page |
| `Layouts.FillIsEncoding` | bsp/drivers/iommu/sunxi-iommu-pgtable.c:194-199 | adding i pages to one encoded word equals encoding page i if and only if the layout is V1 or no 4 GiB multiple is crossed |
| `Layouts.FillDecodes` | bsp/drivers/iommu/sunxi-iommu-pgtable.c:194-199 | the stored word is valid and names the intended frame with its rights if and only if no 4 GiB multiple is crossed (V2) |
| `Tables.InstallInv` | bsp/drivers/iommu/sunxi-iommu-pgtable.c:109-136 | linking a fresh table keeps valid slots and live tables in one-to-one correspondence and makes exactly that slot valid |
| `Tables.InstallEntry` | bsp/drivers/iommu/sunxi-iommu-pgtable.c:109-136 | linking a fresh zeroed table changes no translation |
| `Tables.DropInv` | bsp/drivers/iommu/sunxi-iommu-pgtable.c:233-239 | unlinking and freeing a slot's table keeps the correspondence and invalidates exactly that slot |
| `Tables.NoSlotsNoTables` | bsp/drivers/iommu/sunxi-iommu-pgtable.c:280-309 | with every slot zero no table can be live, because each live table has an owner |
| `Tables.LinksKeep` | bsp/drivers/iommu/sunxi-iommu-pgtable.c:164-169 | linking any number of fresh tables, one after another, keeps ownership and changes no translation |
| `Chunks.ChunkShape` | bsp/drivers/iommu/sunxi-iommu-pgtable.c:185-190 | a chunk is not empty, stays inside one slot and ends at the end of the range or at a slot boundary; a whole-slot chunk starts at index 0 |
| `Chunks.FillTableEntries` | bsp/drivers/iommu/sunxi-iommu-pgtable.c:184-207 | the chunks tile the range exactly: each page of it gets its chunk's word, no other entry changes, ownership is kept |
| `Chunks.FillRefines` | bsp/drivers/iommu/sunxi-iommu-pgtable.c:173-209 | the filled table's page map is the old one plus exactly `iova+k -> paddr+k`, if and only if no chunk loses a carry |
| `Chunks.DeleteChunkKeeps` | bsp/drivers/iommu/sunxi-iommu-pgtable.c:212-241 | deleting a chunk keeps ownership and the validity of every other slot |
| `Chunks.DeleteChunkEntry` | bsp/drivers/iommu/sunxi-iommu-pgtable.c:212-241 | deleting a chunk clears exactly its pages, whether or not the table is freed |
| `Chunks.StopIsFirst` | bsp/drivers/iommu/sunxi-iommu-v1.c:726-733 | the point where the unmap loop stops is the first page of the range whose slot is not valid, or the end of the range |
| `Chunks.UnmapClears` | bsp/drivers/iommu/sunxi-iommu-v1.c:726-733 | the unmap loop clears exactly the pages up to that point, whatever was mapped there, and keeps ownership |
| `Chunks.UnmapExact` | bsp/drivers/iommu/sunxi-iommu-v1.c:726-733 | unmap removes exactly its range if and only if nothing of it is mapped from that point on |
| `Prepare.VisitedSlots` | bsp/drivers/iommu/sunxi-iommu-pgtable.c:164-169 | the preparation loop visits an interval of slots, plus slot 0 when it wraps at the top of the address space |
| `Prepare.CoverageExact` | bsp/drivers/iommu/sunxi-iommu-pgtable.c:164-169 | every slot of [start, end) is visited if and only if `start mod SPD_SIZE` is at most the bytes used of the last slot |
| `Prepare.OnlyLastMissed` | bsp/drivers/iommu/sunxi-iommu-pgtable.c:164-169 | when that bound fails, the last slot of the range is missed and every other one is visited |
| `Prepare.UncoveredRange` | bsp/drivers/iommu/sunxi-iommu-pgtable.c:164-169 | such a range: from 0x80000 to 0x101000 slot 1 is needed and not visited |
| `Prepare.BlockSizes` | bsp/drivers/iommu/sunxi-iommu-v1.c:1568-1569 | the block sizes are 4 KiB times the powers of 4 up to 16 MiB |
| `Prepare.BlockCovered` | bsp/drivers/iommu/sunxi-iommu-v1.c:1568-1569 | every size-aligned block of a `pgsize_bitmap` size meets that bound |
| `Prepare.BlockNoCarry` | bsp/drivers/iommu/sunxi-iommu-v1.c:1568-1569 | no chunk of such a block, size-aligned in physical memory, crosses a 4 GiB multiple |
| `PageTables.PageTable.constructor` | bsp/drivers/iommu/sunxi-iommu-pgtable.c:312-323 | a new directory is all zero, owns no table and maps nothing |
| `PageTables.PageTable.AllocIopte` | bsp/drivers/iommu/sunxi-iommu-pgtable.c:109-136 | failure changes nothing; success links some unused aligned table, makes exactly this slot valid and changes no translation |
| `PageTables.PageTable.PrepareL1` | bsp/drivers/iommu/sunxi-iommu-pgtable.c:159-171 | fresh tables are linked one after another and no translation changes, also on -12 (-ENOMEM) and for the extra slot at the end; no slot is lost, only visited ones are added, on success all visited ones are valid, and it fails only when a visited slot has no table |
| `PageTables.PageTable.FillEntries` | bsp/drivers/iommu/sunxi-iommu-pgtable.c:195-199 | the inner loop stores exactly its run of words, and WARN_ON fires exactly when one of those entries was not zero |
| `PageTables.PageTable.FillRound` | bsp/drivers/iommu/sunxi-iommu-pgtable.c:184-207 | one round fills exactly one chunk and reports whether one of its pages was mapped |
| `PageTables.PageTable.PrepareL2` | bsp/drivers/iommu/sunxi-iommu-pgtable.c:173-209 | the table becomes the chunked fill of the range; WARN_ON fires exactly when some page of the range was mapped |
| `PageTables.PageTable.FreeIopte` | bsp/drivers/iommu/sunxi-iommu-pgtable.c:138-141 | only the base address of a live table with all entries zero is freed |
| `PageTables.PageTable.DeleteL2` | bsp/drivers/iommu/sunxi-iommu-pgtable.c:212-241 | a valid slot's chunk is cleared, its table freed when the chunk is the whole slot, and the size returned; otherwise -22 (-EINVAL) and no change |
| `PageTables.PageTable.IovaToPhys` | bsp/drivers/iommu/sunxi-iommu-pgtable.c:244-257 | the page's frame plus the offset, never 0, when the page is mapped, and 0 otherwise, for every address |
| `PageTables.PageTable.InvalidHelper` | bsp/drivers/iommu/sunxi-iommu-pgtable.c:260-277 | returns 0 exactly when the page is mapped, in agreement with `IovaToPhys` and `Dump` |
| `PageTables.PageTable.Clear` | bsp/drivers/iommu/sunxi-iommu-pgtable.c:280-309 | afterwards every slot is zero, no table is live and nothing is mapped |
| `Dumps.ScanStep` | bsp/drivers/iommu/sunxi-iommu-pgtable.c:428-475 | one round of the scan keeps the regions ordered, disjoint and exactly the mapped pages seen so far |
| `Dumps.DumpTable` | bsp/drivers/iommu/sunxi-iommu-pgtable.c:427-475 | scanning one second-level table carries the scan's invariant across its pages |
| `Dumps.Dump` | bsp/drivers/iommu/sunxi-iommu-pgtable.c:394-483 | the regions come in increasing order, are disjoint, cover exactly the mapped pages across slot boundaries, touching ones differ in rights, and they show rights and frame of every page if and only if the table has no gap of either kind |
| `Dumps.UniformExact` | bsp/drivers/iommu/sunxi-iommu-pgtable.c:429-447 | the shown rights are those of every page of each region if and only if no page without rights is followed by a mapped page that has some |
| `Dumps.ShownExact` | bsp/drivers/iommu/sunxi-iommu-pgtable.c:340-392 | the printed rights and physical address describe every page of each region if and only if there is no gap of rights and no two mapped neighbours with the same rights have frames that do not follow each other |
| `Coherence.MemoryExact` | bsp/drivers/iommu/sunxi-iommu-pgtable.c:126-130 | devices find the table in memory, except that between the two stores of a V2 link that one entry differs if and only if the address has high bits |
| `Coherence.OwnershipStep` | bsp/drivers/iommu/sunxi-iommu-pgtable.c:109-141 | every single store of map, unmap and clear keeps slots and live tables in one-to-one correspondence, with a link counted from its first store on |
| `Coherence.WalkStep` | bsp/drivers/iommu/sunxi-iommu-v1.c:726-733 | below V14, whatever devices do short of walking through a half-written link, at most the slot being unmapped is stale, and only between the free of its table and its invalidation |
| `Coherence.WalkStepRanged` | bsp/drivers/iommu/sunxi-iommu-v2.c:651-668 | from V14 on, with disciplined devices, no slot inside the range is cached while it is unmapped, although V2 hardware drops only the slots below the end slot |
| `Coherence.TlbStep` | bsp/drivers/iommu/sunxi-iommu-v1.c:719-734 | from V12 on, with disciplined devices (during an unmap they may access unmapped pages of slots that are not wholly in the range; only V1 ranges that end at the top are excluded), every step keeps each TLB entry equal to the current translation and the range being unmapped out of the TLB |
| `Coherence.DeviceReads` | bsp/drivers/iommu/sunxi-iommu-v1.c:719-734 | a disciplined device reads the page's current entry even through the walk cache and even during an unmap |
| `Runs.OwnershipInRuns` | bsp/drivers/iommu/sunxi-iommu-pgtable.c:109-141 | in every reachable state valid slots and live tables correspond one to one |
| `Runs.WalkCoherentInRuns` | bsp/drivers/iommu/sunxi-iommu-v1.c:726-733 | versions below 0x14 (V10 to V13), devices unrestricted except through half-written links: whenever the lock is free each walk-cache entry names the live table of its slot |
| `Runs.TlbCoherentInRuns` | bsp/drivers/iommu/sunxi-iommu-v1.c:700-737 | from version 0x12 (V12) on, disciplined devices: whenever the lock is free each TLB entry is the page map's translation, and the walk cache is coherent |
| `Runs.DeviceTranslates` | bsp/drivers/iommu/sunxi-iommu-v1.c:700-737 | a device that translates while the lock is free gets the page map's answer, mapped or not, from TLB, walk cache or table |
| `Runs.UnmapRun` | bsp/drivers/iommu/sunxi-iommu-v1.c:726-734 | the unmap loop, store by store, is a run of the machine that ends with the lock free in `UnmapLoop`'s state |
| `Runs.UnmapLoopTable` | bsp/drivers/iommu/sunxi-iommu-v1.c:726-734 | that state has the unmapped table and an untouched TLB |
| `Runs.LoopDropsSlots` | bsp/drivers/iommu/sunxi-iommu-v1.c:730-731 | below version 0x14 the loop drops from the walk cache the slot of every page that it clears and adds none |
| `Runs.LoopKeepsSlots` | bsp/drivers/iommu/sunxi-iommu-v1.c:730-731 | slots without a page of the range keep their walk-cache entry on every version |
| `Runs.OtherPagesKeep` | bsp/drivers/iommu/sunxi-iommu-v1.c:668-737 | at every moment of a map or unmap, in any interleaving, pages outside the range keep their entry; inside, map only fills empty entries and unmap only empties them |
| `Staleness.QuietUnmapExact` | bsp/drivers/iommu/sunxi-iommu-v1.c:719-734 | without device activity, unmap of any range keeps the TLB coherent if and only if the layout is V2, the range ends below the top, or no page that loses its entry is cached |
| `Staleness.AnyAccessExact` | bsp/drivers/iommu/sunxi-iommu-v1.c:719-734 | for one access at any point of any unmap and any content of the walk cache: the TLB is coherent at the end, whatever the hardware does, if and only if the word found is not valid or is the translation that the page has and keeps, and the base leads to a live table |
| `Staleness.AccessExact` | bsp/drivers/iommu/sunxi-iommu-v1.c:719-734 | with the walk cache as it is in runs, also between the free of a table and the invalidation of its slot: if and only if the page is not a mapped one still to be cleared and the walk cache does not lead to the freed table |
| `Staleness.LockedAccessExact` | bsp/drivers/iommu/sunxi-iommu-v1.c:719-734 | right after the lock, in terms of the state before the call: if and only if the page is not mapped or not before the first slot of the range that is not valid |
| `Staleness.SyncedAccessExact` | bsp/drivers/iommu/sunxi-iommu-v1.c:636-666 | after the invalidations of `sunxi_iommu_iotlb_sync` the TLB is coherent if and only if that condition holds or the page is one that these drop: from V14 on none; on V12 and V13 the first two and the last of the range, except on V1 where the end of such an invalidation wraps at the top of the address space |
| `Staleness.SyncedMeans` | bsp/drivers/iommu/sunxi-iommu-v1.c:648-657 | what the sync drops, in numbers: on versions 0x12 and 0x13 the first two pages of the range, its last one and the eight behind it, away from the top of the V1 address space |
| `Staleness.SyncIsStep` | bsp/drivers/iommu/sunxi-iommu-v1.c:754-769 | the sync is an `Evict` step of the machine |
| `Staleness.StaleAfterAccess` | bsp/drivers/iommu/sunxi-iommu-v1.c:719-734 | from every free state and for every unmap that clears a mapped page there is a run in which one access leaves a stale TLB entry, which stays after the sync unless the page is one that it drops |
| `Staleness.StaleInWindow` | bsp/drivers/iommu/sunxi-iommu-v1.c:727-731 | from every point between two rounds at which the walk cache holds a slot whose table is still to be freed there is a run in which an access to a page of it that is no longer mapped leaves a stale TLB entry |
| `Staleness.StaleAfterFree` | bsp/drivers/iommu/sunxi-iommu-v1.c:719-734 | below V14 the same from every free state with such a slot in the walk cache; the entry stays after the sync unless the page is one that it drops |
| `Staleness.StaleAtTop` | bsp/drivers/iommu/sunxi-iommu-v1.c:569-599 | on V1 an unmap of the last page leaves its TLB entry behind, with no device active, because the 32-bit end register is written with 0; the sync does not drop it either |
| `Staleness.UnmapSlots` | bsp/drivers/iommu/sunxi-iommu-v1.c:726-733 | after the unmap loop exactly the slots that lie wholly before its stopping point are zero |
| `Staleness.WalkAccessExact` | bsp/drivers/iommu/sunxi-iommu-v1.c:719-734 | for one access at any point of any unmap: the walk cache is coherent at the end if and only if the version is below V14, the TLB answers, or the slot is not valid or not among those whose tables are still to be freed |
| `Staleness.StaleWalk` | bsp/drivers/iommu/sunxi-iommu-v1.c:723-724 | from V14 on, from every free state and for every unmap that frees a table there is a run that ends with a walk-cache entry for it |
| `Staleness.TornLinkExact` | bsp/drivers/iommu/sunxi-iommu-pgtable.c:126-130 | after a walk through a slot between the two stores of its link the walk cache names the linked table, whatever the hardware does, if and only if the table's address has no high bits |
| `Staleness.TornTlbExact` | bsp/drivers/iommu/sunxi-iommu-pgtable.c:126-130 | and the TLB stays coherent if and only if the address has no high bits, or the half-written entry happens to name a live table without a valid entry at the page's index |
| `Staleness.ClearThenFree` | bsp/drivers/iommu/sunxi-iommu-pgtable.c:233-239 | a walk between the clear of a slot and the free of its table is a walk after both, so that one step for the two loses no behaviour |
| `CallRuns.FillRun` | bsp/drivers/iommu/sunxi-iommu-pgtable.c:184-207 | the fill of an empty range, store by store, is a run of the machine that ends in the filled table |
| `CallRuns.MapRun` | bsp/drivers/iommu/sunxi-iommu-v1.c:683-694 | a whole map call on an empty range, from lock over table linking and fill to unlock, is a run of the machine from free to free that ends in the filled table with both caches untouched |
| `CallRuns.FailedMapRun` | bsp/drivers/iommu/sunxi-iommu-v1.c:683-689 | a map call that runs out of memory is such a run and leaves the tables linked so far |
| `CallRuns.UnmapCallRun` | bsp/drivers/iommu/sunxi-iommu-v1.c:719-734 | a whole unmap call, from the lock and the ranged invalidations on, is such a run |
| `CallRuns.FreeRun` | bsp/drivers/iommu/sunxi-iommu-v1.c:856-859 | a whole domain_free, table by table, is such a run and ends in the machine's initial state |
| `Refinement.EffectRefines` | bsp/drivers/iommu/sunxi-iommu-v1.c:668-737 | one call keeps ownership and acts on the page map as the plain operation if and only if it loses no carry (map) or nothing is mapped behind the slot where it stops (unmap); a failed map call does nothing |
| `Refinement.RunRefines` | bsp/drivers/iommu/sunxi-iommu-v1.c:668-737 | in every run of map, unmap and clear calls, with any allocation failures: the table stands for the plain map after each call if and only if every call meets that condition |
| `Refinement.BlockRunRefines` | bsp/drivers/iommu/sunxi-iommu-v1.c:1568-1569 | runs of size-aligned `pgsize_bitmap` blocks that unmap only mapped pages, judged by the plain map alone, always do |
| `Refinement.MapUnmapRoundTrip` | bsp/drivers/iommu/sunxi-iommu-v1.c:668-737 | unmapping a range that was filled while empty restores the page map |
| `Failures.CarryIsLost` | bsp/drivers/iommu/sunxi-iommu-pgtable.c:194-199 | a map call of two pages at 0xFFFFF000 on V2 that succeeds and does not map the range to its frames |
| `Failures.UnmapIsLost` | bsp/drivers/iommu/sunxi-iommu-v1.c:726-733 | after a map of page 256 on V1 the unmap of [0, 512) changes nothing and page 256 stays mapped |
| `Failures.RightsAreLost` | bsp/drivers/iommu/sunxi-iommu-pgtable.c:429-447 | two map calls after which a page without rights precedes a readable one, so that the dump's rights are wrong by `UniformExact` |
| `Failures.FramesAreLost` | bsp/drivers/iommu/sunxi-iommu-pgtable.c:429-447 | two map calls after which two neighbours have one frame and no rights differ, so that the dump's physical address is wrong by `ShownExact` |
| `Failures.StaleTlbRun` | bsp/drivers/iommu/sunxi-iommu-v1.c:719-734 | on every layout, from V12 on, a run from the initial state that ends with a stale TLB entry, also after the sync |
| `Failures.StaleTopRun` | bsp/drivers/iommu/sunxi-iommu-v1.c:569-599 | on V1 such a run without any device active during the unmap |
| `Failures.FreedTableRun` | bsp/drivers/iommu/sunxi-iommu-v1.c:727-731 | on V12 and V13, on both layouts, a run from the initial state in which an access to a page that is no longer mapped leaves a stale TLB entry, also after the sync, while the walk cache ends coherent |
| `Failures.StaleWalkRun` | bsp/drivers/iommu/sunxi-iommu-v1.c:723-724 | from V14 on a run from the initial state that ends with a walk-cache entry for a freed table |
| `Failures.TornLinkRun` | bsp/drivers/iommu/sunxi-iommu-pgtable.c:126-130 | on V2, for every table whose address has high bits, a run from the initial state in which its half-written link leaves both caches stale |
| `Failures.WalkExact` | bsp/drivers/iommu/sunxi-iommu-v1.c:700-737 | with devices that do anything, the walk cache is coherent whenever the lock is free, in all runs, if and only if the version is below V14 and the layout is V1; with no walk through a half-written link, if and only if it is below V14 |
| `Domains.RoundedRange` | bsp/drivers/iommu/sunxi-iommu-v1.c:678-680 | start and end are the range rounded outwards to pages, and unchanged when aligned |
| `Domains.Domain.constructor` | bsp/drivers/iommu/sunxi-iommu-v1.c:788-837 | a new domain is in the machine's initial state and maps nothing |
| `Domains.SlotsPrepared` | bsp/drivers/iommu/sunxi-iommu-v1.c:683-694 | after a successful preparation all slots of the range are valid, as the fill needs, if and only if the last one is visited or was valid before |
| `Domains.Domain.Map` | bsp/drivers/iommu/sunxi-iommu-v1.c:668-698 | it fails, with -12 (-ENOMEM) and an unchanged page map, only when a slot that it visits had no table; success returns the size and adds exactly the range if and only if no chunk loses a carry; the effect is the one `RunRefines` is about, and on an empty range the call is a run of the machine |
| `Domains.SmallRangeLeaves` | bsp/drivers/iommu/sunxi-iommu-v1.c:726-733 | for ranges of at most 2^32 - 22 bytes the error code of a slot that is not valid always ends the loop |
| `Domains.UnmapCaches` | bsp/drivers/iommu/sunxi-iommu-v1.c:719-734 | what is left in the caches, by version number: from 0x12 on no page of the range is in the TLB, below it nothing is dropped; no slot wholly before the stopping point is in the walk cache; every other TLB entry and every slot without a page of the range stays (V1 ranges that end at the top aside) |
| `Domains.Domain.Unmap` | bsp/drivers/iommu/sunxi-iommu-v1.c:700-737 | table, TLB and walk cache end as the machine's unmap run leaves them; exactly the pages up to the first slot that is not valid are gone; from version 0x12 on the TLB loses exactly the range, and no freed slot stays in the walk cache |
| `Domains.Domain.DomainFree` | bsp/drivers/iommu/sunxi-iommu-v1.c:851-860 | afterwards no table is live, nothing is mapped and both caches are empty; the call is a run of the machine |
| `BufferLists.BufferList.constructor` | bsp/drivers/ve/cedar-ve/ve_mem_list.h:49-51 | an empty well-linked circle that holds no reference |
| `BufferLists.BufferList.AddTail` | bsp/drivers/ve/cedar-ve/ve_mem_list.h:59-95 | the circle with consistent links in both directions gains the entry at its end |
| `BufferLists.BufferList.Del` | bsp/drivers/ve/cedar-ve/ve_mem_list.h:97-109 | the circle loses exactly that entry, whose links are poisoned |
| `BufferLists.BufferList.MapDmaBuf` | bsp/drivers/ve/cedar-ve/cedar_ve.c:1253-1318 | success appends one entry; each of the four failures returns -1, leaves the list alone and gives back exactly the references taken |
| `BufferLists.BufferList.Visit` | bsp/drivers/ve/cedar-ve/cedar_ve.c:1346-1384 | one round leaves the visited part equal to its survivors and the rest untouched, or ends a single unmap with exactly the first match removed |
| `BufferLists.BufferList.UnmapDmaBuf` | bsp/drivers/ve/cedar-ve/cedar_ve.c:1320-1388 | for a whole file exactly its entries go in one visit each; otherwise exactly the first entry whose descriptor, process and file are the given ones goes, or none when there is none; one reference of each kind per remaining entry |
| `BufferLists.SurvivorsExact` | bsp/drivers/ve/cedar-ve/cedar_ve.c:1345-1385 | the survivors are exactly the entries whose process or file is another one, in the order they had |
| `BufferLists.UnchangedExact` | bsp/drivers/ve/cedar-ve/cedar_ve.c:1353-1384 | the single unmap leaves the list alone if and only if no entry has the descriptor, process and file |
| `BufferLists.MapUnmapRoundTrip` | bsp/drivers/ve/cedar-ve/cedar_ve.c:1353-1384 | unmapping a descriptor that was mapped once, just before, restores the list |
| `Scheduler.InsertKeepsOrder` | bsp/drivers/ve/cedar-ve/cedar_ve.c:953-983 | insertion keeps the head first or running and the waiting rest sorted by priority, then arrival; it never goes before the head |
| `Scheduler.InsertConserves` | bsp/drivers/ve/cedar-ve/cedar_ve.c:960-970 | insertion adds exactly one waiting task with the caller's parameters, marked first only in an empty list, and loses none |
| `Scheduler.TimeAfterMeans` | bsp/drivers/ve/cedar-ve/cedar_ve.c:1055-1056 | a timeout has passed if and only if it lies 1 to 2^63 ticks back on the 64-bit counter |
| `Scheduler.TimeAfterClock` | bsp/drivers/ve/cedar-ve/cedar_ve.c:1055-1056 | d ticks after the timeout it has passed, for d from 1 to 2^63, and d ticks before it, for d below 2^63, it has not, also across a wrap of the counter |
| `Scheduler.TickKeepsOrder` | bsp/drivers/ve/cedar-ve/cedar_ve.c:1045-1091 | the timer step restores that order whoever leaves |
| `Scheduler.HeadStays` | bsp/drivers/ve/cedar-ve/cedar_ve.c:1077-1085 | a head that does not leave stays the head and is running afterwards |
| `Scheduler.NextStarted` | bsp/drivers/ve/cedar-ve/cedar_ve.c:1077-1085 | when the head leaves, the task started next is the highest-priority, oldest waiter that stays |
| `Signals.TickKeeps` | bsp/drivers/ve/cedar-ve/cedar_ve.c:1045-1091 | the timer step keeps list, signals and pending timer consistent |
| `Signals.RunKeeps` | bsp/drivers/ve/cedar-ve/cedar_ve.c:953-1091 | after every run of insertions, deletions and timer steps: order holds, signals follow the protocol, list and log agree, and a nonempty list has a pending timer |
| `Signals.LeaverIsTold` | bsp/drivers/ve/cedar-ve/cedar_ve.c:1053-1072 | a task that leaves gets, in that step, a release signal if it had been released and a timeout signal otherwise |
| `Signals.StaysExact` | bsp/drivers/ve/cedar-ve/cedar_ve.c:1053-1061 | a listed task is still listed after a timer step if and only if it is neither released nor past its timeout |
| `Signals.DeletedLeaves` | bsp/drivers/ve/cedar-ve/cedar_ve.c:985-1072 | after any run, a deletion and a timer step at any time, the first unreleased task with the ID is no longer listed, and every other task is listed exactly when it would be without the deletion |
| `Signals.LaterToldFirst` | bsp/drivers/ve/cedar-ve/cedar_ve.c:1059-1075 | of two tasks that leave in one step the later one in the list is told first |
| `Signals.ArmedExact` | bsp/drivers/ve/cedar-ve/cedar_ve.c:979-1088 | a timer step leaves the timer pending exactly when tasks are left; an insertion, and a deletion exactly when it marks a task, starts it |
| `Signals.AtMostOneActive` | bsp/drivers/ve/cedar-ve/cedar_ve.c:1063-1085 | at no point of any run are two tasks started and not terminated |
| `Signals.LeftTasksSignalled` | bsp/drivers/ve/cedar-ve/cedar_ve.c:1063-1075 | a task that left got exactly one terminal signal, at most one start before it and nothing after it |
| `Signals.ListedTasksSignalled` | bsp/drivers/ve/cedar-ve/cedar_ve.c:1077-1085 | a listed task has no terminal signal, has its start signal exactly when running, and only the head is not waiting |
| `Signals.HeadUntilLeaves` | bsp/drivers/ve/cedar-ve/cedar_ve.c:953-1091 | the task at the head after some run is the head after every longer run in which it is still listed, whatever is inserted, deleted or timed in between |
| `Engines.Engine.InsertTask` | bsp/drivers/ve/cedar-ve/cedar_ve.c:953-983 | the scan and insertion are the machine's insertion step and keep its invariant |
| `Engines.Engine.DelTask` | bsp/drivers/ve/cedar-ve/cedar_ve.c:985-1004 | exactly the first unreleased task with the ID is marked, and 0 returned exactly when there is one |
| `Engines.Engine.Events` | bsp/drivers/ve/cedar-ve/cedar_ve.c:1045-1091 | collecting, signalling and starting are the machine's timer step and keep its invariant |
| `Engines.DelayIsAhead` | bsp/drivers/ve/cedar-ve/cedar_ve.c:1013-1016 | in every ordered list the counted tasks are exactly those that an insertion of that priority would leave ahead |
| `Engines.AsIntMeans` | bsp/drivers/ve/cedar-ve/cedar_ve.c:1006-1023 | an unsigned 32-bit sum stored in an int is the signed 32-bit number that differs from it by a multiple of 2^32, and the sum itself below 2^31 |
| `Engines.SumFramesAdds` | bsp/drivers/ve/cedar-ve/cedar_ve.c:1013-1016 | the frame times of a list add up |
| `Engines.Engine.CheckDelay` | bsp/drivers/ve/cedar-ve/cedar_ve.c:1006-1023 | the result is the signed 32-bit number that differs by a multiple of 2^32 from the sum of the frame times of exactly the tasks an insertion would leave ahead, and that sum itself below 2^31 |
| `Locks.StepKeeps` | bsp/drivers/ve/cedar-ve/cedar_ve.c:1827-1853 | every mutex or flag step with a single-bit type keeps: set bits own their mutex, and held mutexes belong to open files that know it |
| `Locks.TypesInOrder` | bsp/drivers/ve/cedar-ve/cedar_ve.h:91-95 | which bit stands for which of the five locks |
| `Locks.RunKeeps` | bsp/drivers/ve/cedar-ve/cedar_ve.c:1927-1959 | that holds in every reachable state |
| `Locks.MutualExclusion` | bsp/drivers/ve/cedar-ve/cedar_ve.c:1827-1853 | in every reachable state at most one open file has a lock bit, and it owns the mutex |
| `Locks.ClosedHoldsNothing` | bsp/drivers/ve/cedar-ve/cedar_ve.c:2178-2208 | no mutex is ever held by a file that is not open |
| `Locks.GetLockExact` | bsp/drivers/ve/cedar-ve/cedar_ve.c:1832-1850 | from every state of the invariant, GET_LOCK keeps it if and only if the type is one of the five bits or brings no lock bit the file does not have |
| `Locks.ReleaseExact` | bsp/drivers/ve/cedar-ve/cedar_ve.c:1934-1956 | RELEASE_LOCK keeps the invariant if and only if the type is one of the five bits or drops no lock bit of the file |
| `Locks.LeakExact` | bsp/drivers/ve/cedar-ve/cedar_ve.c:1934-1956 | after RELEASE_LOCK and close, a mutex is still held by the closed file if and only if the type is none of the five bits and covered that held bit |
| `Locks.LeakedInRun` | bsp/drivers/ve/cedar-ve/cedar_ve.c:1934-1956 | a run with type 3 in which that happens |
| `Locks.StealExact` | bsp/drivers/ve/cedar-ve/cedar_ve.c:2185-2206 | for every type: after GET_LOCK and close, a mutex of another file is unlocked if and only if the type is none of the five bits and has its bit, and the other file keeps its flags |
| `Locks.StolenInRun` | bsp/drivers/ve/cedar-ve/cedar_ve.c:2185-2206 | a run with type 3 in which that happens |
| `LoadTables.StoreIsUpdate` | bsp/drivers/ve/cedar-ve/cedar_ve.c:672-674 | storing in the key's slot, or in an unused one when it is absent, keeps keys unique and is a map update |
| `LoadTables.ClearIsRemove` | bsp/drivers/ve/cedar-ve/cedar_ve.c:669-670 | clearing that slot removes exactly the key |
| `LoadTables.LoadTable.FindKey` | bsp/drivers/ve/cedar-ve/cedar_ve.c:643-649 | finds the used slot with the key, or 16 when no slot has it |
| `LoadTables.LoadTable.FindEmpty` | bsp/drivers/ve/cedar-ve/cedar_ve.c:654-658 | finds an unused slot, or 16 when all are used |
| `LoadTables.LoadTable.Update` | bsp/drivers/ve/cedar-ve/cedar_ve.c:629-679 | a map update or removal; -1 exactly when the key is absent and all 16 slots are used, and then nothing changes |
| `Frequency.Adjust` | bsp/drivers/ve/cedar-ve/cedar_ve.c:681-768 | the request is the choice for the used loads in slot order; a frame rate that is not positive becomes 60 in a used slot, and nothing else changes |
| `Frequency.UsedLoadsExact` | bsp/drivers/ve/cedar-ve/cedar_ve.c:694-706 | the tallied loads are those of exactly the used slots, in slot order, with the frame rate when it is positive and 60 otherwise |
| `Frequency.TotalIsLoad` | bsp/drivers/ve/cedar-ve/cedar_ve.c:718 | the total is the sum of width times height times frame rate in unsigned 32-bit arithmetic |
| `Frequency.RequestExact` | bsp/drivers/ve/cedar-ve/cedar_ve.c:681-768 | for decoders with rows and encoders whose sum is at most the maximum: one or two decoders of one codec get the frequency of the table for that sum, in numbers, and all else the user setting |
| `Frequency.OneLoadRequest` | bsp/drivers/ve/cedar-ve/cedar_ve.c:681-768 | for one used slot, the request in terms of its fields |
| `Frequency.KeepExact` | bsp/drivers/ve/cedar-ve/cedar_ve.c:726-757 | nothing is requested if and only if no slot is used, or one or two decoders that the loop does not take for different codecs have a codec without rows or a total above the maximum |
| `Frequency.FindRow` | bsp/drivers/ve/cedar-ve/cedar_ve.c:726-764 | the early exits and the first matching row give the decision |
| `Frequency.OneRow` | bsp/drivers/ve/cedar-ve/cedar_ve.c:588-606 | for every codec with rows and every total up to the maximum exactly one row matches, and it decides |
| `Frequency.LevelOf` | bsp/drivers/ve/cedar-ve/cedar_ve.c:560-606 | the request of the matching row, in numbers, for every codec with rows and every total up to the maximum |
| `Frequency.MonotoneExact` | bsp/drivers/ve/cedar-ve/cedar_ve.c:588-606 | in the table of a profiled codec the request never falls with the total, for every pair of totals, if and only if the user setting is at least 350 |
| `Frequency.MoreLoadExact` | bsp/drivers/ve/cedar-ve/cedar_ve.c:681-768 | for every list of decoders with rows and encoders, one more such load in any slot never lowers the chosen frequency, up to the maximum total, if and only if the user setting is at least 350 |
| `Frequency.LoweredLoad` | bsp/drivers/ve/cedar-ve/cedar_ve.c:735-764 | below that, full HD at 60 frames is requested at 350 MHz and one more pixel per second at the user setting |
| `Frequency.NewLoadRises` | bsp/drivers/ve/cedar-ve/cedar_ve.c:672-674 | so when a load is stored in an unused slot of the load table the next request is not below the one before |
| `Frequency.CrowdUsesUser` | bsp/drivers/ve/cedar-ve/cedar_ve.c:729-733 | an encoder or more than two loads give the user setting |
| `Frequency.OrderExact` | bsp/drivers/ve/cedar-ve/cedar_ve.c:694-764 | the choice depends only on the multiset of loads if and only if they are not two decoders of which exactly one has codec -1 and no row that matches the other has the maximum frequency or that of the user setting |
| `Frequency.OrderMatters` | bsp/drivers/ve/cedar-ve/cedar_ve.c:694-764 | such a pair: 100 MHz in one order and 500 MHz in the other |

## Assumptions about what is outside the model

- The second-level allocator returns any unused block, aligned to the table size and at an address the
  hardware can name, or fails. Allocation failures and the outcomes of DMA-buffer calls are inputs.
- A ranged invalidation drops every cache entry from the start register up to the end register, which are
  32-bit addresses in `sunxi-iommu-v1.c` (V1) and page or slot numbers in `sunxi-iommu-v2.c` and
  `sunxi-iommu-v3.c` (V2); a flush empties both caches; the hardware caches only valid entries and may drop any
  entry at any time. A device access includes any prefetch it causes, and a walk, from reading the walk cache or
  the directory to filling the caches, is one step.
- Writes of 32-bit table words are atomic, and each is one step; the two stores of a V2 directory entry are two.
  (When a compiler joins the two, no link is ever half written.) The clear of a slot and the free of its table
  are one step, which loses nothing (`ClearThenFree`).
  `sunxi_pgtable_clear` zeroes a table in one step; no claim is made about the caches before its flush.
- Each function that runs under the device spinlock is one step. A GET_LOCK waits until its mutex is free,
  and a file is inside one call at a time.
- `time_after` works on a 64-bit counter. Signed products in the load total wrap.

## Left out

- Register access, timeouts, interrupt decoding, PMU counters, sysfs and debugfs text, cache maintenance (`dma_sync_*`).
- Domains.Domain.Unmap: does not track `gather->start` and `gather->end`, which only choose what `sunxi_zap_tlb` drops later; in the machine its drops are `Evict` steps, and `SyncedAccessExact` takes a gather of one call.
- Domains.Domain.Unmap: excludes calls in which 2^32 - 22 bytes or more of the range follow a slot that is not valid, because there the error code used as a step does not leave the loop and the address is no longer page-aligned; blocks have at most 16 MiB.
- Domains.Domain.Map: when the last slot is neither visited by the preparation nor valid before, the source writes through an unmapped table address; such calls are excluded by the exact condition of `SlotsPrepared`.
- PageTables.PageTable.constructor: the NULL return of `sunxi_pgtable_alloc` when no pages are free.
- Domains.Domain.constructor: the NULL returns of `sunxi_iommu_domain_alloc` for other domain types and failed allocations, and the reuse of an existing domain.
- Coherence.TlbStep: no claim for V10 and V11, where unmap issues no ranged TLB invalidation.
- Coherence.TlbStep: map is taken to store only into entries that were zero, which is what WARN_ON checks.
- BufferLists.BufferList.UnmapDmaBuf: the null checks before giving references back are always taken, because only fully mapped buffers are listed.
- Engines.Engine.Events: the clock-release timer and `cedar_engine_for_timer_rel` are not modelled; the latter takes a spinlock it already holds.
- Locks: the debug lock `VE_LOCK_PROC_INFO`, reference counts and power gating.
- `remove_case_load_param_by_process_id_sun55iw3`, which clears at most one slot.
- Frequency.Adjust: `setup_ve_freq` ignores requests outside 50 to 900 MHz; the model stops at the request.
- The other register formats of `sunxi-iommu-v2.c` and `sunxi-iommu-v3.c`; their map and unmap repeat the modelled ones over the V2 layout.
- The IOVA trace lists, the reserved-region dump, the fan control sketches and the test harness of the IOMMU driver.
