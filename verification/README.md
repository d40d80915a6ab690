# Memory, paging and scheduling of a small x86-64 kernel

This project models the layers of the kernel that hold its data structures
together and proves what they promise each other:

- `Bits`, `Blocks`, `Memory`, `Zones`: the buddy page allocator of `memory.c`.
  Free, outstanding and working blocks tile the released pages; the free blocks
  are always coalesced, which makes them a function of the free pages.
- `RbModel`, `RedBlackTree`: the intrusive red-black tree of `rbtree.c`, with
  nodes in a heap of records linked by left, right and parent pointers, against
  trees and one-hole contexts as values.
- `Ranges`, `Balloc`, `Boot`: the boot-time range allocator of `balloc.c` on top
  of that tree, and the boot memory map built with it.
- `Startup`: the setups one after the other, from the entries of the boot loader
  to zones whose pages are usable memory.
- `PageTable`, `Spans`, `Kmap`, `KernelMap`: the recursive page-table mapper of
  `paging.c`, the hardware walk over what it builds, and the kmap area, whose
  boundary tags and tables stay in step.
- `SlabLayout`, `Slab`, `SlabPages`: the slab allocator of `alloc.c`, by itself and
  on top of the zones.
- `Threads`, `Sync`, `Interleavings`, `Runs`, `Progress`, `Slices`,
  `Availability`: the scheduler of `threads.c`, the mutex of `mutex.c` and the
  condition variable of `condition.c`, first as methods on the processor's state,
  then as a state machine in which the timer may strike between any two sections.
- `Numbers`: the number printer and parser of `stdlib.c`.
- `Lists`, `Options`, `Addresses`, `Division`: sequences without repetition in
  place of intrusive lists, values that may be missing, the page size and the
  direct map, facts about quotients.

`dafny verify dfyconfig.toml` checks everything.

Functions that change state are methods of classes (`Zone`, `RbTree`,
`BootAllocator`, `AddressSpace`, `KmapArea`, `KernelMapper`, `MemCache`,
`Processor`) whose contracts tie the new state to a function or a predicate of
the old one; the theorems are lemmas about those.

## How the model reads the code

- memory.c:78 clears no byte, because both ends of the difference are the new
  zone's still unset end. The headers of a new zone are what the memory held. After
  the setup the zones are good exactly when no page that was not released has a
  marked header (`Zones.SetupIsReady`); the others are overwritten or never read.
- memory.c:237 tests a list before it tests the bound. The model swaps the tests.
- balloc.c:68-72 overwrites the end of the new range with the end of its
  successor and merges one successor only. The model keeps this. Adding is the
  union exactly under the condition of `Ranges.AddIsUnion`; every addition the
  allocator makes on its own meets it, additions of boot entries may not, and
  then addresses of the new range are lost (`Ranges.Lost`), stored ones never and
  foreign ones never gained (`Ranges.AddBounds`). Entries that do not overlap lose
  nothing (`Boot.KnownComplete`).
- alloc.c:77 rounds down, so that MIN_POOL_OBJS is not guaranteed. With `min`
  for the bytes of that many objects and their metadata, a pool holds them exactly
  when `min` is a whole number of pages or `min / PAGE_SIZE` is no power of two
  (`SlabLayout.MinObjsFit`); the bound that always holds is three
  (`SlabLayout.ThreeFit`), which objects of 1016 bytes reach
  (`SlabLayout.ThreeIsTight`).
- paging.c:108-134 would take a present large leaf for a table. The mapper
  requires that nothing in the range is mapped, which is exactly when the
  recursion meets no such leaf and no present entry of level 1
  (`PageTable.MeetsMapped`).
- memory.c:203-221 walks the trees node by node; the model lists the ranges first,
  which is the same because the setup changes neither tree that it walks.
- paging.c:308 refuses requests of 2^16 pages and more whatever is free; this
  is part of the contract of `Kmap.KmapArea.AllocRange`.
- threads.c:357-372 and threads.c:380 let a blocked thread run on when there is
  no idle thread and nothing is ready, or when preemption is off
  (`Threads.BlockedLeaves`, in both directions). The state machine begins with
  an idle thread, which takes no locks, and lets `mutex_lock` and
  `condition_wait` be called with preemption allowed only. `mutex_unlock` and
  `condition_wait` are called by the holder, `thread_activate` directly only for
  new threads.
- stdlib.c:31 closes a bracket too late, so that only a lower-case prefix is
  skipped; `Numbers.UpperCasePrefix` says when that makes no difference.
  stdlib.c:35 ends at the terminator only; `Numbers.Read` says what every text is
  read as, `Numbers.TrailingText` when a number is read in spite of what follows
  it. Characters are signed bytes. The negation of the most negative number in
  stdlib.c:88 is taken to wrap.
- The colour of a tree node is a field of its own, not the low bit of the
  parent pointer; the flag word of a page is a record of the FREE bit and the order;
  a 64-bit word of a slab's bitmap is the sequence of its bits.
- Lists are sequences, with the order in which the code adds and takes.
  `list_empty` on a node matters in the kmap area only, where it is a field.
- A page pool is a set of pages from which any one may come. Running out, which
  the code answers with a BUG, is a false result.
- Addresses do not wrap, but for the inclusive end of `pt_map_pages`.
- Code between `spin_lock_irqsave` and `spin_unlock_irqrestore` is one step.

## Model

| member | source | states |
|---|---|---|
| `Bits.XorPow2` | memory.c:253-253 | flipping bit k of an index aligned to 2^k moves it to the other half of its aligned 2^(k+1) block, in either direction |
| `Bits.AndPow2` | memory.c:169-169 | the test of bit k of an index aligned to 2^k says whether the index is aligned to 2^(k+1) |
| `Bits.AndHighMask` | balloc.c:128-129 | masking with the complement of 2^k - 1 in a 64-bit word clears exactly the low k bits |
| `Bits.AlignUpLeast` | balloc.c:128-129 | adding the mask and masking gives the least multiple of 2^k that is not below the address |
| `Blocks.BuddyFacts` | memory.c:325-339 | a block and its buddy are aligned, distinct, each other's buddy, and together exactly their parent block |
| `Blocks.RunInOneBlock` | memory.c:233-263 | when no two buddies are both free, every aligned run of free pages lies inside one free block |
| `Blocks.FreeBlocksAreMaximalRuns` | memory.c:325-348 | a block is free exactly when its pages are free and it is the largest legal aligned block around them |
| `Blocks.CanonicalForm` | memory.c:325-348 | two coalesced sets of disjoint aligned blocks over the same pages are the same set |
| `Blocks.LargestBlock` | defines.h:19-19 | the largest block is a gigabyte |
| `Memory.BuddyTest` | memory.c:325-334 | for a block being freed the tested page is the head of a current block or was never released, so its FREE bit and order match exactly when the buddy is on the list of that order, however stale the headers inside blocks are |
| `Memory.Zone.constructor` | memory.c:77-84 | an empty zone over page headers as the memory held them: no block free or outstanding, lists and blocks right; it is valid exactly when no header happens to have the FREE bit |
| `Memory.NeverReleased` | memory.c:77-78 | the buddy of a block being freed heads no block if it was never released, so that the header test is right there only because such a header is unmarked |
| `Memory.StaleExample` | memory.c:77-78 | page 2 being freed, page 3 never released but marked by chance with order 0: the header test passes for a page that is on no list |
| `Memory.Zone.ValidIf` | memory.c:77-78 | a zone carved from such memory is valid exactly when no page that was not released has a marked header |
| `Memory.LargestOrder` | memory.c:168-173 | the carving loop finds the largest order at which the page is aligned and the block still ends in the run |
| `Memory.NoBuddyYet` | memory.c:165-182 | no block carved greedily from a run has a buddy that is free already, so the carving itself leaves the free blocks coalesced |
| `Memory.Zone.Release` | memory.c:165-182 | releasing a run makes exactly its pages managed, leaves the headers of all pages not released as they were, and keeps a valid zone valid; its blocks go behind those on the lists, in ascending order |
| `Memory.Zone.FindOrder` | memory.c:237-243 | the search stops at the smallest order from the requested one up that has a free block, and past the last order exactly when none has; the lists before are empty |
| `Memory.Zone.Take` | memory.c:245-250 | the block at the head of a list is taken off it, unmarked, and its pages alone stop being free; the order of the others stays |
| `Memory.Zone.SplitDown` | memory.c:252-260 | splitting gives back everything but the lowest block of the requested order, each upper half at the head of the list of its order |
| `Memory.Zone.Alloc` | memory.c:233-263 | fails exactly when no aligned run of 2^order free pages exists; otherwise hands out an aligned block that begins the free block at the head of the first list, from the order up, that is not empty, disjoint from all outstanding ones, and removes exactly its pages from the free ones; of the lists between, each holds one half afterwards, all others are as before |
| `Memory.Zone.TestBuddy` | memory.c:333-334 | the header test answers whether the buddy is a free block of this order |
| `Memory.Zone.MergeOnce` | memory.c:336-342 | one merge replaces the block in hand and its free buddy by their parent, takes the buddy off its list and loses no page |
| `Memory.Zone.Free` | memory.c:318-349 | freeing an outstanding block keeps the zone valid (tiled, coalesced, lists and headers exact) and adds exactly its pages to the free ones; the merged block is at the head of its list, the buddies are off theirs, all other blocks keep their order |
| `Memory.FreePages` | memory.c:318-349 | a page is free exactly when it was released and no outstanding block holds it |
| `Memory.FreeBlocksDetermined` | memory.c:325-348 | the per-order free sets depend on the released pages and the outstanding blocks only, so freeing everything in any order brings back the sets of the setup |
| `Zones.ZoneOfRange` | memory.c:159-163 | every free range with a whole page lies in one known range, so the checks for its zone cannot fail |
| `Zones.RunsApart` | memory.c:148-154 | separated ranges leave a page between their whole pages, so released runs never touch |
| `Zones.PageInRange` | memory.c:58-63 | the rounded ends of the ranges enclose exactly the pages all of whose bytes are in the ranges |
| `Zones.SetupZone` | memory.c:77-84 | a zone with the whole pages of a known range and a header of its size is added behind the others, its page headers being what the memory held |
| `Zones.SetupZones` | memory.c:203-212 | zones in order, apart, one for every known range with a whole page and no other; their headers lie apart and are exactly what is missing from the free ranges; gives up only when a header fits nowhere |
| `Zones.SetupNext` | memory.c:58-84 | one turn: a header of the zone's size is taken from the free ranges, then the zone is set up in it |
| `Zones.OneHeaderMore` | memory.c:68-69 | a zone's block has room for its own fields and one header for each page |
| `Zones.HeaderHoldsAll` | memory.c:68-69 | the headers of a zone's pages lie one behind the other in its block, from behind the zone's own fields exactly to its end |
| `Zones.ZonesCoverKnown` | memory.c:203-212 | a page lies in a zone exactly when every byte of it lies in the known ranges |
| `Zones.AllocHeader` | memory.c:70-73 | the lowest place for the header is taken out of the free ranges, or none fits |
| `Zones.FindZone` | memory.c:87-101 | the zone that holds a page, and none exactly when no zone does |
| `Zones.FreeRange` | memory.c:148-183 | the whole pages of one free range, page 0 excepted, go to their zone and nothing else changes |
| `Zones.FreeIsManaged` | memory.c:148-183 | a page other than page 0 is managed exactly when every byte of it lies in the free ranges |
| `Zones.PageAllocSetup` | memory.c:201-231 | after setup a page lies in a zone exactly when all its bytes are known, and, but for page 0, is managed exactly when all its bytes are in what the zones' headers leave of the free ranges; every zone comes from a known range and has its header; the zones are ready exactly when no page that was left out got a marked header |
| `Zones.HeadersKept` | memory.c:70-71 | no page that the page allocator hands out ever holds a byte of a zone's header |
| `Zones.BootMapFits` | memory.c:201-221 | every free range of the boot map lies in known memory, as the release of the ranges asks for; the rest of what the setup asks for is `Startup.BootMapRoomy` and `Startup.SetupBoot` |
| `Zones.KnownShrinks` | memory.c:70-71 | taking the headers out of the free ranges leaves known memory only, which the release of the ranges asks for |
| `Zones.SetupIsReady` | memory.c:77-78 | after the setup the zones are valid, with page 0 in none of them, exactly when no page that was not released got a marked header from what the memory held |
| `Zones.FirstZone` | memory.c:274-292 | the first zone with a run serves the request, those before it having none; none exactly when no zone has an aligned run |
| `Zones.PageAlloc` | memory.c:294-316 | returns 0 exactly when the order is too large or no zone has an aligned run; otherwise the address of a block that the first zone with a run, and no other, has newly handed out; the pages that each zone manages stay the same |
| `Zones.PageFree` | memory.c:360-373 | an outstanding block goes back to the zone that handed it out, which the address finds; the other zones are untouched |
| `Startup.BootMapRoomy` | memory.c:203-221 | when everything reported ends far enough below 2^64 the searches for the zones' headers have the room they ask for |
| `Startup.FewEntriesForAll` | balloc.c:184-230 | three nodes for each entry, one more for each reserved one, one for each page of tables and ten suffice for the map, the tables and all the headers |
| `Startup.SetupBoot` | balloc.c:163-241 | from the entries to the boot map, with nodes enough for the tables and a header of every zone |
| `Startup.TakeTables` | paging.c:175-193 | the pages of the first tables are whole pages below BOOTSTRAP_MEM, apart, and exactly what is missing from the free ranges afterwards; gives up only when no page is free there |
| `Startup.SetupUsable` | memory.c:201-231 | after the setups every byte of every page that a zone manages lies in an available entry and in no reserved entry, nor in the kernel, the ramdisk or any block that was taken out before |
| `Startup.UsableManaged` | memory.c:201-231 | when the entries do not overlap and hold the kernel and the ramdisk, a page other than page 0 is managed exactly when every byte of it is such memory: no page is lost between the boot loader and the zones |
| `Startup.Start` | main.c:51-53 | from the entries alone: the boot map, the pages of the first tables, the zones and their headers; every byte of every page that a zone manages is such memory, outside the tables and headers; every page in the free ranges left, and when the entries do not overlap every page of such memory, is managed; gives up only when a page of tables or some zone's header fits nowhere |
| `Startup.OutstandingUsable` | memory.c:294-316 | so every byte of every page handed out then or later is such memory |
| `RbModel.HeightIsLogarithmic` | rbtree.c:128-178 | a red-black tree of n nodes has height at most 2 log2(n + 1) |
| `RbModel.FlipStep` | rbtree.c:138-145 | recolouring at a red uncle moves the red-red conflict up two levels and keeps order and black heights |
| `RbModel.InnerStep` | rbtree.c:147-150 | the first rotation turns the inner case into the outer one without touching order or black heights |
| `RbModel.OuterStep` | rbtree.c:151-154 | the second rotation and its recolouring end the conflict: the whole tree is red-black, with the same order |
| `RbModel.PaintedRoot` | rbtree.c:177-177 | blackening the root repairs a conflict that has reached it |
| `RbModel.RedSiblingLeft` | rbtree.c:221-226 | a red sibling is rotated away, keeping the one-black deficit and the order |
| `RbModel.BlackNephewsRight` | rbtree.c:194-197 | reddening the sibling moves the deficit one level up |
| `RbModel.InnerNephewRight` | rbtree.c:199-204 | a red inner nephew is made an outer one, keeping the deficit and the order |
| `RbModel.OuterNephewRight` | rbtree.c:205-211 | the last rotation pays the deficit: red-black again, same order |
| `RbModel.DeficitSettled` | rbtree.c:245-246 | blackening a red child, or reaching the root, pays the deficit |
| `RbModel.UnlinkOne` | rbtree.c:275-282 | unlinking a node with one child leaves a red-black tree or one with a deficit of one black at the child |
| `RbModel.UnlinkTwo` | rbtree.c:254-274 | so does putting the successor, in the node's colour, in place of a node with two children |
| `RbModel.OrderTwo` | rbtree.c:254-274 | the successor moved up leaves the in-order sequence without the node and otherwise as it was |
| `RedBlackTree.RbTree.RotateLeft` | rbtree.c:30-49 | the pointer surgery performs the left rotation of the abstract tree, parent links included |
| `RedBlackTree.RbTree.RotateRight` | rbtree.c:51-70 | the pointer surgery performs the right rotation of the abstract tree, parent links included |
| `RedBlackTree.RbTree.Link` | rbtree.h:19-25 | the new red leaf hangs at the place the caller found, which is all that may be wrong with the tree |
| `RedBlackTree.RbTree.Insert` | rbtree.c:128-178 | rebalancing ends with a valid red-black tree whose in-order sequence is the old one with the node at its place |
| `RedBlackTree.RbTree.EraseFix` | rbtree.c:180-247 | from any tree with a deficit of one black at child, a valid red-black tree with the same in-order sequence |
| `RedBlackTree.RbTree.Erase` | rbtree.c:249-294 | removes exactly that node from the in-order sequence, every other node keeping its identity, and leaves a valid red-black tree |
| `RedBlackTree.RbTree.Next` | rbtree.c:92-108 | the in-order successor, null at the end |
| `RedBlackTree.RbTree.Prev` | rbtree.c:110-126 | the in-order predecessor, null at the beginning, so that it undoes the step to the successor |
| `RedBlackTree.RbTree.Leftmost` | rbtree.h:33-34 | the first node in order, null when there is none |
| `RedBlackTree.RbTree.Rightmost` | rbtree.h:30-31 | the last node in order, null when there is none |
| `Ranges.AddSeparated` | balloc.c:32-73 | adding a range, as the code does it, leaves the ranges sorted and separated |
| `Ranges.AddIsUnion` | balloc.c:56-72 | the result covers the union exactly when no stored range that begins inside the new one ends before it |
| `Ranges.Lost` | balloc.c:68-72 | when that condition fails an address of the new range is lost |
| `Ranges.AddBounds` | balloc.c:56-72 | in every case what was stored stays, and nothing outside the new range is gained |
| `Ranges.AddReaches` | balloc.c:56-72 | exactly how much is added: up to the end of the first stored range that begins inside the new one, or all of it |
| `Ranges.TailLost` | balloc.c:68-72 | the concrete loss: {[10,20)} plus [5,30) gives {[5,20)} |
| `Ranges.RemoveIsDifference` | balloc.c:75-104 | removal is exact set difference |
| `Ranges.RemoveSeparated` | balloc.c:75-104 | removal keeps the ranges sorted and separated |
| `Ranges.RemoveLength` | balloc.c:75-104 | a removal leaves one range more at most |
| `Ranges.CutInSteps` | balloc.c:96-100 | taking a range out and adding its left and right rests back, in that order, is the cut: the lossy addition is exact here |
| `Ranges.FoundFit` | balloc.c:124-139 | the place found is the lowest aligned one whose whole block is free, and cutting its range removes exactly the block |
| `Ranges.NoneFits` | balloc.c:124-144 | when the search runs out no aligned block in the window is free |
| `Balloc.BootAllocator.constructor` | balloc.c:167-173 | all 128 nodes free, both trees empty; from then on no node is ever lost or in two places |
| `Balloc.BootAllocator.FindInsert` | balloc.c:35-46 | the descent ends at the place that keeps the ranges sorted by their beginning |
| `Balloc.BootAllocator.FindEnding` | balloc.c:78-90 | the descent ends at the first range that ends after the address, if any |
| `Balloc.BootAllocator.AddRange` | balloc.c:32-73 | the tree holds what the sequence of the ranges says addition gives; the other tree is untouched; one free node is all it needs, and none of the 128 nodes is lost |
| `Balloc.BootAllocator.CutNode` | balloc.c:96-101 | one range replaced by what a cut leaves of it, its node recycled only after the rests were added |
| `Balloc.BootAllocator.RemoveRange` | balloc.c:75-104 | the tree holds the set difference; the other tree is untouched; it needs just the free nodes that its cuts take, one after the other, and none is lost |
| `Balloc.BootAllocator.RoundUp` | balloc.c:128-129 | the 64-bit rounding is the least aligned address, as long as it does not wrap |
| `Balloc.BootAllocator.Alloc` | balloc.c:106-145 | returns the least aligned address of [from, to) whose whole block is free, or `to` exactly when there is none, and removes exactly that block, as long as the sums for ranges that begin before `to` stay in 64 bits; one node at most is used up |
| `Balloc.BootAllocator.AllocDefault` | balloc.c:147-159 | the same for the alignment that goes with the size |
| `Balloc.BootAllocator.List` | memory.c:203-221 | walking a tree from the leftmost node gives the stored ranges in order |
| `Boot.ParseMmap` | balloc.c:184-230 | builds both trees from any list of entries for which no step runs out of nodes; both stay sorted and separated; the free nodes left are those the two trees do not hold |
| `Boot.FewEntries` | balloc.c:184-230 | two nodes for each entry, one more for each reserved one and seven always suffice |
| `Boot.BootMapLength` | balloc.c:184-230 | how many ranges are known and free after booting at most |
| `Boot.ReservedRemoved` | balloc.c:216-226 | removing the reserved entries one by one removes exactly the addresses in some reserved entry |
| `Boot.FreeIsSafe` | balloc.c:175-230 | after booting an address is free exactly when it is known and in no reserved entry, nor in the kernel, nor in the initial ramdisk, overlapping entries or not |
| `Boot.FreeIsReported` | balloc.c:175-230 | every address that is free after booting lies in an entry of available memory and in no entry of another kind |
| `Boot.KnownComplete` | balloc.c:193-210 | entries that are not empty and do not overlap are added without loss, so that exactly the reported addresses are known |
| `Boot.BootComplete` | balloc.c:175-230 | then, with the kernel and the ramdisk inside entries, exactly the addresses of available entries outside both are free |
| `PageTable.Frame` | paging.c:87-138 | what touches none of the tables below a table changes no walk through it |
| `PageTable.PieceFacts` | paging.c:100-106 | the pieces of the range never cross an entry, follow each other without gaps and reach the last entry exactly at the end of the range |
| `PageTable.MeetsMapped` | paging.c:108-134 | the recursion over a range meets a present entry that is no table exactly when some address of the range is mapped, so a vacant range is what the mapper may be asked for |
| `PageTable.LeafPlaced` | paging.c:111-119 | a leaf for a whole aligned entry maps just that entry linearly |
| `PageTable.TableHung` | paging.c:122-128 | hanging a cleared table below an absent entry changes no walk |
| `PageTable.Descended` | paging.c:131-134 | what was mapped below one entry is mapped for the table of the entry, and nothing else |
| `PageTable.StillVacant` | paging.c:100-137 | the pieces done leave the rest of the range ready to be mapped |
| `PageTable.DoneInSteps` | paging.c:100-137 | mapping piece by piece maps the range |
| `PageTable.WalkRepeats` | paging.c:87-99 | the walk looks at 48 bits of the address |
| `PageTable.CanonicalMapped` | paging.c:140-150 | mapping a canonical range leaves every canonical address outside it where it was, in both halves of the address space |
| `PageTable.LastOfIs` | paging.c:146-149 | the last address of a range that ends at `end` is one below it in 64 bits |
| `PageTable.LeafForIs` | paging.c:108-119 | the level of the leaf of an address: the highest below the root at which its entry stands for part of the range only, is aligned on both sides and has no table in its place; level 1 always is |
| `PageTable.LeafThrifty` | paging.c:111-119 | a leaf is written at the highest such level and takes no page |
| `PageTable.OneLess` | paging.c:121-128 | a table hung where no leaf may be is the one that was missing above all others |
| `PageTable.TablesBelow` | paging.c:131-134 | below an entry the same leaves may be used and the same tables are missing |
| `PageTable.TablesSplit` | paging.c:100-137 | cut at an entry, the parts of a range need together as many tables as the range |
| `PageTable.WholeGigabytes` | paging.c:97-119 | whole gigabytes below an absent entry of the root take one table and gigabyte leaves, however many they are |
| `PageTable.AddressSpace.GetPage` | paging.c:175-193 | a page of the pool, cleared, or none when the pool is empty |
| `PageTable.AddressSpace.MapSlot` | paging.c:100-136 | one turn of the loop maps one piece, by a leaf where one may be, a new table or the table that is there; fails only with fewer pages than missing tables |
| `PageTable.AddressSpace.Map` | paging.c:87-138 | the walk of every address of the range ends at its image, every other walk is unchanged, leaves are aligned, lie in the range and are as large as they may be, no table is replaced; exactly one page of the pool is taken for each table that was missing above those leaves; fails only when the pool has fewer, and never where the tables are complete |
| `PageTable.AddressSpace.PtMapPages` | paging.c:140-150 | [begin, end) is mapped linearly, `end` 0 standing for the top of the address space, with leaves as large as may be and as many new tables as were missing, and the walk of every other canonical address is unchanged; succeeds exactly when the pool has that many pages |
| `PageTable.AddressSpace.PtPopulatePages` | paging.c:152-159 | tables down to level 1 for all of [begin, end), one page taken for each that was missing, with the walk of every canonical address unchanged; succeeds exactly when the pool has that many pages |
| `PageTable.PageCleared` | paging.c:376-381 | clearing a level-1 entry unmaps its page and nothing else, and keeps all tables |
| `PageTable.AddressSpace.ClearPage` | paging.c:368-381 | the walk of `kunmap` ends at the level-1 entry of the address |
| `Spans.ClassBounds` | paging.c:247-254 | list i holds spans of 2^i to 2^(i+1) - 1 slots, the last list all larger ones |
| `Spans.FreeSpansDetermined` | paging.c:271-294 | the set of free spans is a function of the free slots |
| `Spans.Before` | paging.c:273-276 | the last slot before a span leads to the head of the span before it, whose list node tells whether that one is free |
| `Spans.After` | paging.c:283-286 | so does the first slot behind a span for the span after it |
| `Spans.AllocThenFree` | paging.c:271-323 | freeing an allocation brings back the free spans of before it |
| `Spans.AllFree` | paging.c:420-437 | with nothing allocated the area is one free span |
| `Kmap.KmapOrder` | paging.c:247-254 | the least order with 2^order >= pages, at most 16 |
| `Kmap.ListOfSize` | paging.c:293-293 | the order of pages + 1, less one, is the list of the size |
| `Kmap.SearchedList` | paging.c:298-309 | every span large enough is on a list the search looks at |
| `Kmap.FoundChosen` | paging.c:298-309 | what a search finds on its list is the span that the request is for: the first of the lowest list all of whose spans are large enough, and only when there is none the first large enough one of the list below |
| `Kmap.KmapArea.constructor` | paging.c:429-436 | one free span from an array with arbitrary contents |
| `Kmap.KmapArea.JoinBefore` | paging.c:273-281 | a free span before the range is joined, and no free span ends there any more |
| `Kmap.KmapArea.JoinAfter` | paging.c:283-290 | a free span after the range is joined, and none begins there any more |
| `Kmap.KmapArea.FreeRange` | paging.c:271-294 | the area stays tiled, tagged, listed and free of touching free spans; exactly the slots of the range become free; the joined span comes to the front of its list, the spans joined leave theirs and every other list keeps its order |
| `Kmap.KmapArea.FindFree` | paging.c:256-269 | the first span of the list with enough slots, or none when all are too small |
| `Kmap.KmapArea.Search` | paging.c:298-312 | finds a span exactly when one is large enough and the request is below 2^16 slots: the one that `Kmap.FoundChosen` speaks of |
| `Kmap.KmapArea.AllocRange` | paging.c:296-323 | refused exactly when no free span is large enough or the request has 2^16 slots or more; otherwise takes exactly the slots of a new allocated span at the front of that span, and what is left of it is listed again |
| `KernelMap.KmapSetup` | paging.c:420-437 | tables for the whole area, nothing mapped, one free span; walks are unchanged; succeeds exactly when the pool has a page for each table that is missing |
| `KernelMap.PageShown` | paging.c:346-350 | mapping one slot adds exactly it to what the area shows and never takes a page from the pool |
| `KernelMap.PageHidden` | paging.c:367-383 | clearing one slot removes exactly it |
| `KernelMap.OutsideOfSlot` | paging.c:346-350 | mapping or clearing a slot changes no walk outside the kmap area, so neither the direct map nor the lower half |
| `KernelMap.KernelMapper.MapOne` | paging.c:347-348 | `pt_map_pages` with no pool succeeds on every slot that is not allocated |
| `KernelMap.KernelMapper.KmapMany` | paging.c:326-353 | two pages and more: refused exactly when no free span is large enough or the request has 2^16 slots or more; otherwise every address of the new span leads to its page; no walk outside the kmap area changes |
| `KernelMap.KernelMapper.Kmap` | paging.c:326-353 | no pages give null, one page its direct address; more are mapped one behind the other in a new span, refused exactly as the range allocator refuses; a level-1 entry is present exactly for allocated slots; no walk outside the kmap area changes |
| `KernelMap.KernelMapper.Kunmap` | paging.c:355-386 | the span is unmapped and free again, addresses outside the area are ignored, no walk outside the area changes |
| `KernelMap.KmapThenKunmap` | paging.c:326-386 | unmapping undoes mapping: free spans, allocated spans and the view are those of before |
| `KernelMap.AllAsBefore` | paging.c:326-386 | and when the view is that of before, so is the walk of every canonical address |
| `SlabLayout.AlignUpLeast` | alloc.c:49-55 | the least multiple of the alignment that is not below the size |
| `SlabLayout.AlignDownFinds` | alloc.c:57-60 | rounding any address inside an aligned block down to the block size gives the block |
| `SlabLayout.Ilog2` | alloc.c:27-37 | the least power with 2^power >= x |
| `SlabLayout.ThreeFit` | alloc.c:74-83 | three objects and their metadata fit in a pool of the order chosen, whatever the object size |
| `SlabLayout.ThreeIsTight` | alloc.c:74-83 | the layout of objects of 1016 bytes has order 0 and three objects |
| `SlabLayout.LayoutSetup` | alloc.c:71-90 | objects, then metadata, fill the pool without overlap; one object more would not fit; the pool has the least order that reaches the rounded-down size; it holds MIN_POOL_OBJS objects exactly when nothing was rounded off or the pages counted are no power of two |
| `SlabLayout.MinObjsHeld` | alloc.c:80-83 | a layout holds MIN_POOL_OBJS objects exactly when that many fit in its pool |
| `SlabLayout.RoomForMin` | alloc.c:76-78 | for the order the code takes they fit exactly when the pages counted are fewer than the pool's or the division has no remainder |
| `SlabLayout.MinObjsFit` | alloc.c:71-90 | so whether a pool holds MIN_POOL_OBJS objects can be told from the object size alone |
| `SlabLayout.LargestCount` | alloc.c:80-83 | no larger number of objects fits |
| `SlabLayout.LowestZero` | alloc.c:194-209 | the byte-wise and then bit-wise search finds the lowest zero bit |
| `SlabLayout.BitmapSetup` | alloc.c:92-106 | bits of existing objects are clear, the others of the last word set |
| `Slab.PoolFound` | alloc.c:301-305 | from the address of any object, rounding down and adding the metadata offset finds its own pool, and the division its own number |
| `Slab.LiveApart` | alloc.c:211-251 | objects in use overlap neither each other nor any pool's metadata |
| `Slab.ObjectAligned` | alloc.c:71-90 | objects have the alignment asked for, when it divides the pool size |
| `Slab.BlockAligned` | alloc.c:108-124 | blocks of the page allocator are aligned to the pool size, in the direct map, too |
| `Slab.LiveGrows` | alloc.c:211-232 | setting a bit adds one address to the live ones, which was not live |
| `Slab.FindZero` | alloc.c:219-231 | the lowest free object is found whenever one is free, so the BUG behind the loop is unreachable |
| `Slab.LowestOfEmpty` | alloc.c:211-232 | the lowest free object of an empty pool is its first |
| `Slab.MemCache.PoolAlloc` | alloc.c:211-232 | the lowest free object is marked and its address returned |
| `Slab.MemCache.PoolFree` | alloc.c:234-251 | for an object in use none of the three BUGs is reached and its bit alone is cleared |
| `Slab.MemCache.AllocPartial` | alloc.c:255-266 | the lowest free object of the first pool in use that has one; the pool moves to the front of the busy list when it became full, all others and the empty pools stay where they are |
| `Slab.MemCache.AllocFree` | alloc.c:268-279 | the first object of the first empty pool, which becomes the first pool in use |
| `Slab.MemCache.AllocNew` | alloc.c:281-289 | the first object of a new pool, which goes to the partial list, which is right because it has more than one object |
| `Slab.MemCache.Alloc` | alloc.c:253-290 | fails exactly when no pool has a free object and no page block is to be had; otherwise exactly one address becomes live: of a pool in use as long as one has room, then of an empty pool, then of a new one; the lists stay exact and change as little as that asks for |
| `Slab.MemCache.Free` | alloc.c:301-318 | exactly that address stops being live; the pool goes to the front of the list of its new kind, or all lists stay as they are |
| `SlabPages.BlockSuits` | alloc.c:108-119 | a block that a zone hands out is aligned for a pool, in the direct map, and no pool of the cache lies in it |
| `SlabPages.CacheAlloc` | alloc.c:253-290 | `__mem_cache_alloc` on the zones themselves: fails exactly when no pool has a free object and no zone a run of the pool order; one address becomes live, of a pool in use first, then of an empty one, and only then of a new one in a block of the first zone that has a run, the zones being untouched otherwise; every pool's block stays outstanding; exactly the new pool's block, which was not outstanding, becomes so |
| `SlabPages.LiveNotFree` | alloc.c:108-127 | no byte of an object in use lies on a page that any zone counts as free |
| `Slab.MemCache.TakeFree` | alloc.c:162-166 | the empty pools leave the cache, and no object in use with them |
| `SlabPages.PoolDestroy` | alloc.c:132-143 | a pool's block, which some zone has outstanding, goes back to it: exactly its pages become free, and exactly this block stops being outstanding |
| `SlabPages.CacheShrink` | alloc.c:157-177 | the empty pools, and no other, go back: exactly their pages become free, exactly their blocks stop being outstanding, the live objects are those of before |
| `SlabPages.OtherAfterAlloc` | alloc.c:108-130 | what one cache allocates leaves the pools of every other cache on the same zones in their blocks, and no two caches share a block |
| `SlabPages.OtherAfterShrink` | alloc.c:132-177 | and so does what one cache gives back |
| `Threads.PlacedOk` | threads.c:215-231 | the switch to a thread from the runqueue, or to the idle thread, keeps every thread in one place and finishes the one that exits |
| `Threads.RescheduledOk` | threads.c:353-376 | whoever runs, `__schedule` keeps every thread in one place; a blocked or exiting thread always loses the processor, to one that can run |
| `Threads.ActivatedOk` | threads.c:317-325 | a blocked thread is made ready once, others are left alone |
| `Threads.EndedOk` | threads.c:327-334 | a thread that ends is FINISHED, on no queue, and another one runs |
| `Threads.BlockedLeaves` | threads.c:357-386 | a blocked thread leaves the processor exactly when preemption is allowed and there is a ready or idle thread; otherwise `mutex_lock` would return without the mutex |
| `Slices.TickDecides` | threads.c:353-389 | a tick moves the clock by one; with preemption off, or an ACTIVE thread less than SLICE ticks after its time stamp, it does nothing else; otherwise the first ready thread takes over with a new time stamp and the running one, if ACTIVE, waits behind all others; the idle thread takes over only when nothing is ready |
| `Slices.ForceDecides` | threads.c:391-402 | `force_schedule` does the same whatever is left of the slice |
| `Slices.ClockStep` | time.c:45-51 | no other step moves the clock |
| `Slices.StepPasses` | threads.c:353-402 | the processor passes on only with preemption allowed, and from an ACTIVE thread only by its own `force_schedule` or SLICE ticks after its time stamp; the next thread is stamped with the time, which stays while it runs |
| `Slices.KeepsSlice` | threads.c:359-360 | over every run a thread that comes to run keeps the processor until SLICE ticks have passed, unless it blocks, ends or gives way itself |
| `Slices.Successor` | threads.c:362-375 | the thread that takes over is the first of the runqueue, or the idle thread when that is empty; one that could have gone on waits at its end |
| `Slices.IdleLast` | threads.c:372-375 | when the idle thread takes over no thread is ACTIVE |
| `Slices.IdleGivesWay` | threads.c:404-413 | when a thread is ready the idle thread gives way at the next tick that finds preemption allowed, and at its own next call |
| `Slices.NoSwitch` | threads.c:378-381 | over every run the running thread goes on while preemption is off |
| `Slices.PreemptBalance` | threads.c:149-157 | which is until every `disable_preempt` has met its `enable_preempt` |
| `Sync.Processor.PlaceThread` | threads.c:215-231 | does to the fields what the specified placement does to the state |
| `Sync.Processor.ThreadActivate` | threads.c:317-325 | does to the fields what the specified activation does |
| `Sync.Processor.Reschedule` | threads.c:353-376 | does to the fields what the specified scheduling decision does |
| `Sync.Processor.Tick` | time.c:45-51 | counts the tick, then schedules |
| `Sync.Processor.MutexLock` | mutex.c:18-36 | a free mutex is taken; otherwise the caller is queued, blocked and switched away |
| `Sync.Processor.MutexUnlock` | mutex.c:38-53 | the mutex passes to the first waiter, still locked, or becomes free |
| `Sync.Processor.ConditionWait` | condition.c:17-31 | queued on the condition before the mutex is released, in one section |
| `Sync.Processor.ConditionSignal` | condition.c:35-46 | the oldest waiter, if any, is activated |
| `Sync.WokenAllIs` | condition.c:57-65 | activating the threads of a wait queue one by one appends exactly them to the runqueue in their order, makes them ACTIVE with their times unchanged and changes no other thread, mutex or condition |
| `Sync.Processor.ConditionBroadcast` | condition.c:48-66 | the condition's queue becomes empty; when it holds blocked threads, each once, exactly these become ready, behind those that were, in their order |
| `Sync.Processor.ThreadCreate` | threads.c:243-248 | a new blocked thread beside those that are, on no queue, which keeps every thread in one place |
| `Sync.Processor.ThreadExit` | threads.c:327-334 | the caller, when it was running its own code, is FINISHED after the switch away, on no queue, and another thread runs |
| `Interleavings.StepKeeps` | mutex.c:18-53 | every step of every thread, and a tick between any two, keeps the invariant: one place for each thread, exact queues, no blocked thread lost, one owner at most |
| `Interleavings.TickKeeps` | threads.c:378-389 | a timer switch anywhere, also between enqueueing and `schedule`, keeps it |
| `Interleavings.LockKeeps` | mutex.c:18-36 | taking a free mutex and queueing at a locked one keep it |
| `Interleavings.UnlockKeeps` | mutex.c:38-53 | the hand-off keeps it: the waiter woken is off every queue and the only owner |
| `Interleavings.WaitKeeps` | condition.c:17-29 | so does waiting, which releases the mutex while queued on the condition |
| `Interleavings.SpliceKeeps` | condition.c:53-55 | so does moving the waiters to the broadcaster's own list |
| `Interleavings.WakeKeeps` | condition.c:57-65 | so does each turn of the loop that wakes them, with other threads running in between |
| `Interleavings.ReturnsAsOwner` | mutex.c:22-32 | a thread that runs on after waiting in `mutex_lock` is the owner and nobody holds the mutex |
| `Runs.MutualExclusion` | mutex.c:18-53 | over every run at most one thread is between `mutex_lock` and `mutex_unlock`; a free mutex has no holder and no waiters |
| `Runs.LockedAlone` | mutex.c:18-36 | whoever comes out of `mutex_lock`, at once or after waiting, finds no holder |
| `Runs.QueueMoves` | mutex.c:42-51 | a waiter moves up by one at each release and at nothing else; the first is made owner and ready |
| `Runs.HandedOver` | mutex.c:38-53 | over every run the waiter in place k owns the mutex and is ready by release k + 1 |
| `Runs.OwnerReturns` | mutex.c:22-32 | who was given the mutex keeps it until `mutex_lock` has returned, which takes two steps of its own at most |
| `Runs.WaiterOwns` | mutex.c:38-53 | over every run the waiter in place k has held the mutex or still owns it at any point after k + 1 releases |
| `Runs.WaitMoves` | condition.c:17-46 | a waiter on a condition keeps its place but for signals, which move it up or wake it, and broadcasts, which take it along |
| `Runs.SignalReaches` | condition.c:35-46 | over every run the waiter in place k is ready by signal k + 1: no wake-up is lost |
| `Runs.NoLostWakeup` | condition.c:17-46 | a caller of `condition_wait` is queued in the step that releases its mutex, so the signal for its place always reaches it |
| `Runs.BroadcastReaches` | condition.c:48-66 | over every run each thread taken by a broadcast is ready after as many turns of its loop as its place says |
| `Runs.BackWithMutex` | condition.c:31-32 | a thread in `condition_wait` comes back to its own code only as holder of the mutex it released |
| `Runs.NeverWithoutMutex` | condition.c:31-32 | over every run a thread in `condition_wait` is on its way back to the mutex until it has held it |
| `Runs.OnePlace` | threads.c:215-231 | a blocked thread is on exactly one queue, a thread in another state on none, an active one running or on the runqueue |
| `Runs.FinishedElsewhere` | threads.c:219-220 | a thread becomes FINISHED only in a step that leaves another one running |
| `Runs.FinishedIsGone` | threads.c:336-340 | from then on it never runs and is on no queue, list or lock, which is what `thread_join` waits for before the thread is destroyed |
| `Runs.JoinWaits` | threads.c:336-340 | over every run a thread that joins another one is in `thread_join` until that one is FINISHED |
| `Runs.JoinReturns` | threads.c:336-340 | the step that leaves `thread_join` finds the thread FINISHED, and from then on it never runs and is on no queue, list or lock |
| `Runs.JoinedIsGone` | threads.c:299-306 | so whoever has called `thread_join` and is back may destroy the thread, at any point after that |
| `Runs.FromTheStart` | mutex.c:18-53 | over every run from the start of the system: one holder at most of each mutex, every blocked thread on a queue, finished threads nowhere |
| `Availability.LockedInUse` | mutex.c:18-53 | over every run from the start a mutex is locked exactly when a thread holds it or is about to come out of `mutex_lock` with it: none stays locked with nobody to unlock it |
| `Availability.KernelCodeGoesOn` | mutex.c:22-32 | wherever the running thread is in these functions, its next section may run: `schedule` after queueing, the return from `mutex_lock`, the mutex again after a wait, the next wake-up, the return from `thread_join` once the thread has finished |
| `Availability.CallsGoOn` | mutex.c:18-53 | from its own code a thread may make every call that the rules allow |
| `Availability.ServicesGoOn` | threads.c:149-157 | and may set up objects, create and activate threads, and switch preemption off and on again |
| `Availability.NeverStuck` | mutex.c:18-53 | so at every point of every run from the start the running thread can go on |
| `Availability.StepDetermined` | mutex.c:18-53 | what a section does is settled by the state it begins in |
| `Progress.ReadyRuns` | threads.c:359-367 | over every run the thread in place k of the runqueue runs within (k + 1) * SLICE ticks that find preemption allowed, and within k + 1 switches |
| `Progress.WaiterComesOut` | mutex.c:18-53 | after k + 1 releases the waiter in place k runs within one slice for each ready thread, or as many switches, and comes out of `mutex_lock` as the holder with its second step at the latest |
| `Numbers.ValueOfDigits` | stdlib.c:63-68 | the digits of a number are worth the number |
| `Numbers.GuardExact` | stdlib.c:39-39 | the overflow guard fires exactly when the next value exceeds 64 bits, or when a character worth less than nothing does not take it below zero |
| `Numbers.StrToUl` | stdlib.c:5-55 | the result and the place where reading stops, for every text: blanks, sign and prefix are skipped, a sum of digits is clamped to 64 bits, other characters count as digits, too, and mostly overflow; negation is in 64 bits |
| `Numbers.WriteDigits` | stdlib.c:63-68 | the digits, lowest first |
| `Numbers.ReverseInPlace` | stdlib.c:72-77 | the cells in reverse order, the others untouched |
| `Numbers.UllToA` | stdlib.c:57-80 | the digits of the number and a terminator, nothing else written |
| `Numbers.LlToA` | stdlib.c:82-94 | the signed text of the number and a terminator, nothing else written |
| `Numbers.ParsedDigits` | stdlib.c:5-80 | parsing what was printed gives the number back, in every base from 2 to 36 |
| `Numbers.ParsedSigned` | stdlib.c:5-94 | and for signed numbers the number modulo 2^64 |
| `Numbers.BehindLead` | stdlib.c:11-18 | behind any blanks and sign the digits of a number are read as the number, negated in 64 bits behind a minus |
| `Numbers.AutoBase` | stdlib.c:20-28 | with base 0 plain digits are read as decimal, behind 0 as octal, behind 0x or 0X as hexadecimal |
| `Numbers.UpperCasePrefix` | stdlib.c:31-32 | in base 16, behind any blanks and sign and before any text, an upper-case and a lower-case prefix are read alike exactly when the text behind saturates by itself |
| `Numbers.UpperCaseDigits` | stdlib.c:31-32 | for digits behind the prefix: exactly when they reach the largest word |
| `Numbers.UpperCaseDigit` | stdlib.c:31-32 | otherwise the prefix is a digit worth 33: with one digit behind it the value is 33 * 16 more |
| `Numbers.TrailingText` | stdlib.c:35-47 | a number with a character behind it that is no digit of the base, and any text after that, is read as the number exactly when it saturates anyway |
| `Numbers.TrailingCharacter` | stdlib.c:35-47 | in particular with nothing after that character |

## Left out

- Hardware and assembly: serial line, interrupt controller, ports, bootstrap, entry and switch code, TSS and GDT packing, control registers and TLB flushes. A context switch is part of the scheduling step, a timer interrupt is the tick.
- `fork`, system calls and user mode: the child's frame has no entry function, so there is nothing sound to state.
- `ramfs.c`, `initramfs.c`, `print.c`, `ctype.c`, `string.c`, `backtrace.c`: formatting, files and simple loops.
- Directories `1` and `2`: earlier exercises.
- Raw Multiboot bytes: the boot map is a list of entries; how the entry sizes step through the buffer is not modelled.
- Zones.PageAllocSetup: asks for two free nodes more than there are known ranges, because running out of the 128 nodes is a BUG and taking out a header can use up one; fewer may do when headers fill whole ranges. It also asks for free ranges that end far enough below 2^64 for the sums of the search.
- Startup.Start: asks for the same, of the entries, and for a node for each page of tables.
- PageTable.AddressSpace.Map: asks for a range in which nothing is mapped; what the code makes of a present large leaf, which it follows as if it were a table, is not modelled.
- PageTable.AddressSpace.PtMapPages: asks for the same.
- PageTable.AddressSpace.PtPopulatePages: asks for the same.
- `balloc_free`: adds a range to the free ones, which is `Balloc.BootAllocator.AddRange`.
- `PAGE_CACHE_BIT` and the owner field of a page: `mem_alloc`, `mem_free` and `mem_realloc`, which choose a cache by them, are not modelled.
- `mem_cache_release`: `mem_cache_shrink` for a cache without objects in use. In `mem_cache_shrink` the loop over the spliced list is one step with the splice.
- `paging_setup`: two calls of the mapper with constants; its page pool is `PageTable.AddressSpace.GetPage` on any set of pages, and where the pages come from is `Startup.TakeTables`, with their number as an argument.
- `__pt_count_pages`: not called.
- Write, user and cache attributes of page-table entries.
- `thread_destroy` and the reuse of a thread's memory: `Runs.FinishedIsGone` says that no queue, list or lock refers to a finished thread. The task state segment, in which threads.c:222 leaves the end of the stack of the thread switched away from, so of a finished one until the next switch, is not part of the model.
- Overflow of the tick counter and of thread numbers.
