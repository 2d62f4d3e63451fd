# Verified models of QEMU's core state machines

A Dafny model of the parts of QEMU that keep the most state: the physical-memory dispatch of `exec.c`, the vCPU
exclusion protocol of `cpus-common.c`, the software TLB of `cputlb.c`, bottom halves and notification in `async.c` and
`aio-posix.c`, the block graph of `block.c`, guest memory dumps in `dump.c`, RAM block placement in `exec.c`, the
reverse-endian atomic helpers of `atomic_template.h`, instruction counting in `cpus.c` and the packet layer of
`gdbstub.c`.  `dafny verify dfyconfig.toml` checks all of it.

| files | what they model |
|---|---|
| `Words`, `Seals` | bytes, 2^32, 2^64 and powers of two; markers that keep large predicates out of proofs that do not open them |
| `Radix`, `PhysMap`, `PageMap` | the radix tree of the physical map: filling a page range, compaction, the walk |
| `Sections`, `DispatchInv`, `DispatchAdd`, `DispatchCount`, `Dispatch` | sections, sub-pages, mem_add, mem_commit, lookup and translation |
| `Exclusive` | start_exclusive, end_exclusive, cpu_exec_start and cpu_exec_end as a state machine of any number of threads |
| `Tlb`, `SoftMmu` | the TLB with its victim table, large pages, flushes, refills and dirty tracking |
| `EventLoop` | scheduling, polling, deleting and sweeping bottom halves against aio_notify, for any number of threads |
| `BlockState`, `BlockGraph`, `BlockGc` | reference counts, links, op blockers and backing-chain surgery |
| `GuestBlocks`, `Pieces`, `Writes`, `ElfCore` | the guest memory list, counting writes that may fail, ELF dumps |
| `PageWalk`, `FlatFile`, `DumpBitmap`, `DumpPages`, `Kdump` | kdump-compressed dumps |
| `RamList` | placement and lookup of RAM blocks |
| `ReverseAtomics`, `Icount`, `GdbPacket` | atomic helpers, the instruction counter, gdb packets |

Code that updates an object in place is a class (`PhysPageMap`, `AddressSpaceDispatch`, `CpuTlb`, `Graph`, `ElfDump`,
`DataCache`, `RamList`, `Timers`, `GdbState`); protocols between threads are state machines whose theorems range over
every state of every run.

## Model

| member | source | states |
|---|---|---|
| PageMap.PhysPageMap.Set | exec.c:282-290 | filling pages [index, index + nb) with a leaf changes the walk of exactly those pages, and the reserve of 3 nodes a level covers every node the recursion allocates |
| PageMap.PhysPageMap.SetLevel | exec.c:256-280 | one level of the recursion fills its part of the range, changes nothing outside its slot and stays within its share of the reserve |
| PageMap.PhysPageMap.NodeReserve | exec.c:225-234 | after the call n more nodes fit, and the storage never shrinks |
| PageMap.PhysPageMap.NodeAlloc | exec.c:236-254 | a fresh node whose entries are all unassigned leaves, or all empty pointers |
| PageMap.PhysPageMap.Compact | exec.c:295-343 | compaction below a slot keeps every section a walk through the slot reached and touches nothing else |
| PageMap.PhysPageMap.CompactAll | exec.c:345-350 | the same for the whole tree |
| PageMap.PhysPageMap.FindEntry | exec.c:363-383 | the loop that skips levels computes the recursive walk |
| PageMap.SlotFilled | exec.c:256-280 | filling what falls into one slot extends the filled range of the node without a gap or an overlap |
| Radix.AlignedIsMultiple | exec.c:256-280 | the bit test that decides between a leaf and a recursion is alignment to the span of the slot |
| Sections.CoversIsContains | exec.c:352-361 | the 64-bit cover test is containment for every section that ends inside the 64-bit space, except that an empty section at address 0 covers every address |
| DispatchInv.CompactKeepsFind | exec.c:295-383 | a compacted map, which no longer tests the index bits of skipped levels, finds the same section at every address, thanks to the final cover test |
| DispatchInv.CompactKeepsReady | exec.c:2394-2406 | so a committed dispatch still answers every lookup |
| Dispatch.AddressSpaceDispatch.constructor | exec.c:2364-2386 | four dummy sections, and every address is unassigned |
| Dispatch.AddressSpaceDispatch.SectionAdd | exec.c:1090-1107 | a new section gets the next number; fails exactly when the array has a page's worth of entries |
| Dispatch.AddressSpaceDispatch.RegisterMultipage | exec.c:1163-1173 | a run of whole pages answers its own addresses and no other lookup changes; takes one entry |
| Dispatch.AddressSpaceDispatch.EnsureContainer | exec.c:1132-1160 | the page gets a container exactly when it has none, and no lookup changes |
| Dispatch.AddressSpaceDispatch.RegisterSubpage | exec.c:1132-1160 | a piece of a page answers its own addresses and no other lookup changes; takes one entry, and one more for a new container |
| Dispatch.AddressSpaceDispatch.RegisterRange | exec.c:2289-2307 | exactly the table entries from start to end are set; a range past the page is refused |
| Dispatch.AddressSpaceDispatch.MemAdd | exec.c:1175-1206 | head piece, run of whole pages and tail piece together make lookups agree with the longer section list; fails exactly when the entries they take do not fit |
| Dispatch.AddressSpaceDispatch.Commit | exec.c:2394-2406 | compaction changes no lookup |
| Dispatch.BuildDispatch | exec.c:2364-2406 | a whole transaction: succeeds exactly when the list takes at most a page's worth of entries, for which five a section always suffice; then every 64-bit address resolves as a scan of the section list says |
| DispatchCount.NeedStep | exec.c:1132-1206 | each chunk adds its own entries and containers to the closed formula for its section |
| DispatchCount.EntriesBound | exec.c:1132-1206 | a list of n sections takes at most 4 + 5n entries |
| Dispatch.MruAnswers | exec.c:392-416 | a cached section that covers the address resolves as an uncached lookup does, and differs from the uncached find exactly when it is a piece of a page |
| Dispatch.AddressSpaceDispatch.LookupRegion | exec.c:392-416 | with sub-pages resolved the cache is invisible after any sequence of lookups; without, the answer differs from the uncached one exactly when the cached section is a covering piece |
| Dispatch.AddressSpaceDispatch.Translate | exec.c:420-452 | with sub-pages resolved, region and offset are those the section list gives for the address; without, the section is the uncached one exactly when the cache does not hold a covering piece; an access to RAM is clamped to addresses of the same section, any other keeps its length |
| Dispatch.CacheShows | exec.c:392-416 | a built dispatch in which a lookup that resolves sub-pages changes the answer of the next lookup that does not |
| Dispatch.PieceFree | exec.c:1132-1160 | the assertion in register_subpage holds: the page of a free piece is unassigned or has a container |
| Exclusive.StepKeepsInv | cpus-common.c:171-297 | every step of every thread keeps the protocol invariant |
| Exclusive.MutualExclusion | cpus-common.c:180-261 | in every run, while a thread is in an exclusive section no CPU is between cpu_exec_start and cpu_exec_end and no other thread is in an exclusive section |
| Exclusive.PendingCounts | cpus-common.c:180-297 | after the scan pending_cpus is 1 plus the CPUs with has_waiter set, and each of those still owes its decrement |
| Exclusive.WaiterWoken | cpus-common.c:180-297 | the waiter in start_exclusive never sleeps once no CPU is counted, unless the thread about to signal it holds the mutex |
| Exclusive.IdleWoken | cpus-common.c:171-220 | a thread sleeps in exclusive_idle only while somebody owns the exclusive section |
| Exclusive.NoDeadlock | cpus-common.c:171-297 | while some thread is not outside, some such thread can step without a spurious wake-up |
| Exclusive.EnabledSteps | cpus-common.c:171-297 | a thread that is awake and need not wait for the mutex has a step |
| SoftMmu.CpuTlb.Flush | cputlb.c:75-89 | nothing survives and no large page is remembered |
| SoftMmu.CpuTlb.FlushByMmuidx | cputlb.c:91-119 | both tables of the listed modes are emptied, the others untouched |
| SoftMmu.CpuTlb.FlushOnePage | cputlb.c:133-166 | afterwards no entry for the page is left, and an entry that went was for the page; a page inside any large page installed since the last full flush empties the TLB |
| SoftMmu.CpuTlb.FlushPageByMmuidx | cputlb.c:168-211 | the same for the listed modes; the other modes are untouched |
| SoftMmu.CpuTlb.AddLargePage | cputlb.c:311-330 | the remembered region becomes the smallest aligned power of two that contains the old one and the new page |
| SoftMmu.CpuTlb.SetPage | cputlb.c:339-418 | the new pair is in the slot of its page, the old pair moves to the victim table with its iotlb entry, and every other slot stays |
| SoftMmu.RefillReaches | cputlb.c:339-418 | a load, store or fetch that skips the I/O path reaches the byte it addresses, and only stores to writable memory not known clean skip it |
| SoftMmu.CpuTlb.VictimHit | cputlb.c:539-559 | hits exactly when a victim entry has the page with no flag set, and then both pairs change places and nothing else moves |
| SoftMmu.CpuTlb.NoStaleHit | cputlb.c:75-418 | after any sequence of operations, what an access hits in either table was installed for that page and mode after the last flush that covers it |
| SoftMmu.CpuTlb.Probe | cputlb.c:572-585 | main slot, then victim table: finds the page exactly when one of them has it, and what it finds is not stale |
| SoftMmu.CpuTlb.ResetDirty | cputlb.c:233-278 | an entry stores directly afterwards exactly when it did before and its host page lies outside the range |
| SoftMmu.CpuTlb.SetDirty | cputlb.c:280-307 | every RAM entry for the page stores directly, and nothing else changes |
| EventLoop.StepKeepsInv | async.c:47-210 | every step keeps the invariant of the bottom-half list, notify_me and the notifier |
| EventLoop.NoLostWakeup | async.c:149-352 | in every run, while a thread waits in poll and a bottom half that no idle schedule can have scheduled is scheduled, the notifier is set, a thread is on its way to set it, or another polling thread has yet to visit that bottom half |
| EventLoop.NoLostWakeupSingle | async.c:149-352 | with a single polling thread only the first two remain |
| EventLoop.FlightArrives | async.c:324-337 | while somebody waits, a thread on its way does set the notifier |
| EventLoop.NeverStuck | async.c:91-138 | whatever a thread does next is defined: as long as no callback polls again, no bottom half is used after it was freed |
| EventLoop.TwoPollersShare | aio-posix.c:403-483 | a run in which only the third alternative of NoLostWakeup holds |
| EventLoop.IdleIsNotWoken | async.c:140-147 | a run in which an idle-scheduled bottom half is seen to by nobody |
| BlockGraph.Graph.New | block.c:226-245 | a node with one reference, held by the caller |
| BlockGraph.Graph.AttachChild | block.c:1314-1341 | the link takes over a reference |
| BlockGraph.Graph.RootUnrefChild | block.c:1356-1363 | the link and every node only it kept alive go, nothing else |
| BlockGraph.Graph.Unref | block.c:3419-3428 | the count drops, and at zero the cascade of deletions keeps every count equal to links plus outside references |
| BlockGraph.Graph.Delete | block.c:2460-2475 | the assertions hold: the node has no reference and no op blocker left |
| BlockGraph.Graph.Close | block.c:2315-2372 | the links of the node are gone and their targets released |
| BlockGraph.Graph.SetBacking | block.c:1403-1456 | the backing link turns to the new node, the old one loses the reference and this node's blockers, the new one gains both |
| BlockGraph.Graph.ChangeParents | block.c:2389-2414 | every parent link of the old node but its own overlay's backing link moves to the new one |
| BlockGraph.Graph.Append | block.c:2432-2446 | the new node goes on top and takes over the parents; the only further change is the deletion of nodes nobody refers to |
| BlockGraph.Graph.ReplaceInBackingChain | block.c:2448-2458 | the same without the new backing link |
| BlockGraph.Graph.FindOverlay | block.c:2539-2547 | finds the layer of the chain whose backing node is the given one, or there is none |
| BlockGraph.Graph.ChainContains | block.c:2926-2933 | membership in the backing chain |
| BlockGraph.Graph.DropIntermediate | block.c:2584-2625 | succeeds exactly when the overlay exists and base is below top (and the header update works); then active stays and its chain is the old one with exactly the layers between overlay and base cut out; on failure nothing changes |
| BlockGraph.Graph.OpBlock | block.c:3451-3459 | adds one blocker and keeps the invariant |
| BlockGraph.Graph.OpUnblock | block.c:3461-3471 | removes that reason and nothing else |
| BlockGraph.Graph.OpIsBlocked | block.c:3435-3449 | blocked exactly when the node backs an overlay and the operation is not one of the four allowed ones, or a user blocks it |
| BlockGraph.OpBlockBacking | block.c:1403-1456 | block all, unblock four |
| BlockState.DyingUnblocked | block.c:2460-2475 | a node without references has no blockers |
| BlockGc.Collected | block.c:1293-1456 | after any of these operations exactly the nodes reachable from a reference outside the graph remain |
| BlockGc.RankAfter | block.c:1403-1456 | a new backing link keeps the graph free of cycles when the new node does not lead back |
| BlockGc.RankForReplace | block.c:2448-2458 | moving the parents keeps the graph free of cycles exactly when the new node leads to none of them |
| BlockGc.RankForAppend | block.c:2432-2446 | the same for bdrv_append, where moreover the old top must not lead to the new node |
| GuestBlocks.GuestPhysBlockList.Append | memory_mapping.c:264-272 | the list is sorted and maps exactly what the RAM sections map |
| GuestBlocks.GuestPhysBlockList.RegionAdd | memory_mapping.c:198-262 | a section that continues the last block in guest and host memory extends it; either way the list is the old one with exactly that change and maps the section's addresses besides the old ones |
| ElfCore.ElfDump.CalculateSize | dump.c:1463-1483 | the size of the filtered memory |
| ElfCore.ElfDump.GetOffsetRange | dump.c:367-426 | where the bytes of a guest address will stand in the file and how many follow, or none |
| ElfCore.ElfDump.WriteMemory | dump.c:341-364 | pages and rest together write exactly the given bytes; it succeeds exactly when one write a page and one for the rest are left |
| ElfCore.ElfDump.DumpIterate | dump.c:596-619 | the file receives all filtered memory in order, exactly when the writes last for all of it |
| ElfCore.ElfDump.DumpBegin | dump.c:466-566 | headers and notes take exactly the room in front of memory_offset; one write each |
| ElfCore.LoadFits | dump.c:161-205 | a program header names the true place exactly when offset and size fit its fields |
| ElfCore.ElfDump.CreateVmcore | dump.c:466-632 | finishes exactly when some block is in the filter and the writes last for headers, notes and every page; then the bytes of every mapping stand at a place that holds them, and its PT_LOAD names that place exactly when it fits the header, and progress ends at the total |
| ElfCore.NarrowMisreads | dump.c:184-205 | a finished 32-bit dump of a guest with a page past 4 GiB of memory, whose PT_LOAD selects other bytes |
| PageWalk.GetNextPage | dump.c:1009-1053 | steps from each guest page to the next one of the list |
| PageWalk.WalkVisits | dump.c:1009-1053 | the walk visits exactly the guest pages |
| PageWalk.PageMaps | dump.c:1009-1053 | the host memory of a visited page is the guest memory of its frame |
| FlatFile.FlattenRoundTrip | dump.c:634-693 | a reader of the flattened stream recovers the records |
| FlatFile.DataCache.Write | dump.c:1117-1147 | the bytes join the stretch of the cache, whose flushed part is in the file at its place; it takes a write exactly when the new bytes do not fit or a non-empty cache is flushed |
| DumpBitmap.SetDumpBitmap | dump.c:936-987 | both copies and the buffer hold the bitmap of the pages set so far |
| DumpBitmap.WriteDumpBitmap | dump.c:1055-1105 | both copies hold the bitmap of exactly the guest pages; finishes exactly when two writes a buffer are left |
| DumpBitmap.BitmapReads | dump.c:936-1105 | read back from either copy, bit p is set exactly when p is a guest page |
| DumpPages.DescRoundTrip | dump.c:1184-1351 | descriptors survive encoding in either byte order |
| DumpPages.CompressPage | dump.c:1184-1351 | compressed when that works and is smaller, else plain; either way the page is restored |
| DumpPages.WriteDumpPages | dump.c:1184-1351 | the descriptors and the data of all pages are in place, and nothing is written outside the page section; finishes exactly when the writes the two caches need are left |
| DumpPages.DescSelects | dump.c:1184-1351 | the descriptor of every page selects bytes behind all descriptors that restore the page |
| Kdump.LayoutExact | dump.c:712-910 | the 32-bit layout arithmetic is right exactly when the page section starts below 4 GiB |
| Kdump.LayoutWraps | dump.c:712-910 | a guest of 64 TiB for which the page section lands on the first bitmap |
| Kdump.BitmapLength | dump.c:1439-1445 | len_dump_bitmap is the length the bitmap writer uses |
| Kdump.CreateKdump | dump.c:1353-1409 | finishes exactly when as many writes are left as its parts need; then every guest page reads back through its descriptor; headers, notes and both bitmaps are in place when the layout does not wrap; the flattened stream parses back to the records; progress is the size of the memory |
| Kdump.KdumpBound | dump.c:1353-1409 | a dump takes at most two writes a bitmap buffer, two a guest page and six more |
| Kdump.DumpGuest | dump.c:1184-1409 | with the descriptors of the format, in either byte order, and zlib, lzo or snappy as a compressor with an inverse: a reader of the flattened stream decodes the k-th descriptor and recovers the k-th guest page |
| RamList.RamList.FindRamOffset | exec.c:1377-1411 | the smallest sufficient gap among those that start at a block end, or none |
| RamList.ChosenIsFree | exec.c:1377-1411 | a block put there overlaps no other |
| RamList.SearchExact | exec.c:1377-1411 | the search succeeds exactly when some free place of the size is not in front of every block |
| RamList.SearchMisses | exec.c:1377-1411 | so what it misses lies in front of every block, and with a block that starts below the size it misses nothing |
| RamList.FrontGapIsLost | exec.c:1377-1411 | a run (add 4 KiB, add 8 KiB, free the first) after which the next 4 KiB go to 12288, although 0 is free |
| RamList.RamList.Add | exec.c:1587-1681 | one block is inserted, the list stays disjoint and sorted by size, the cache is dropped; on failure nothing changes |
| RamList.RamList.Free | exec.c:1804-1818 | one block is removed and the cache is dropped |
| RamList.RamList.GetRamBlock | exec.c:929-965 | agrees with a scan of the list whatever the cache holds |
| ReverseAtomics.SwapWordOp | atomic_template.h:153-167 | bitwise operators commute with the byte swap |
| ReverseAtomics.AddDoesNotCommute | atomic_template.h:171-205 | addition does not |
| ReverseAtomics.RunRefines | atomic_template.h:122-205 | in every interleaving the completed helpers act as single atomic operations on the guest's word, in the order of completion, each with the right return value |
| ReverseAtomics.AddsConserved | atomic_template.h:171-205 | with additions only the word is the initial word plus all addends, modulo its size |
| Icount.RoundReaches | cpus.c:346-349 | the rounded budget reaches the deadline and overshoots by less than one instruction |
| Icount.Timers.Setup | cpus.c:1144-1184 | what is left of an earlier budget is given back; the count of instructions run is unchanged |
| Icount.Timers.HandleExpired | cpu-exec.c:552-610 | the decrementer is refilled from icount_extra, or the rest of it runs and the slice ends |
| Icount.Timers.Exec | cpus.c:1144-1184 | a slice counts exactly the instructions run, which are the smaller of the budget and the blocks up to an exit request, and a full slice takes the virtual clock to the deadline and past it by less than one instruction |
| Icount.Timers.Adjust | cpus.c:293-329 | a change of the shift keeps the clock seen outside a vCPU exactly when it is made outside one or with nothing pending |
| GdbPacket.HexRoundTrip | gdbstub.c:430-451 | hextomem undoes memtohex |
| GdbPacket.GdbState.PutPacketBinary | gdbstub.c:454-486 | frames the payload with its checksum, sends the frame and keeps it for retransmission |
| GdbPacket.GdbState.ReadByte | gdbstub.c:1392-1466 | one step of the packet reader: an unacknowledged packet is sent again on '-', done with on '+' and abandoned for a new one on '$'; otherwise the step of the line reader |
| GdbPacket.GdbState.Deliver | gdbstub.c:1392-1466 | the frame of a payload is acknowledged and hands on the payload exactly when it has no '#' and fits the line buffer |

## Findings

Properties the code does not have, each with the condition under which it does.

- Kdump layout: offsets are computed in 32 bits. `Kdump.LayoutExact` gives the exact condition and `Kdump.LayoutWraps`
  a guest that breaks it.
- 32-bit ELF dumps: offset and size of a PT_LOAD are truncated. `ElfCore.LoadFits` gives the exact condition for each
  header and `ElfCore.NarrowMisreads` a dump that misreads.
- Idle bottom halves: qemu_bh_schedule_idle does not notify, so they are outside the wake-up guarantee
  (`EventLoop.IdleIsNotWoken`).
- Two threads polling one context: the notifier may be consumed by one of them while the other sleeps on; the first one
  then still serves the bottom half (`EventLoop.TwoPollersShare`).
- find_ram_offset: room in front of every block is never used. `RamList.SearchExact` gives the exact condition and
  `RamList.FrontGapIsLost` a run that leaves such room.
- address_space_lookup_region: without resolving sub-pages the answer depends on the cache, in exactly the case
  `Dispatch.AddressSpaceDispatch.LookupRegion` states; `Dispatch.CacheShows` is such a case.

Notes on the source, none of them a failed property.  In phys_page_compact a node with one whole slot mapped and nothing
else has a leaf as its only child; the model keeps that branch.  In mem_add the branch that cuts a page-sized sub-page is
dead, because the head piece ends on a page boundary.  icount_adjust keeps the clock when it is called outside a vCPU, as
its two timer callbacks do (cpus.c:335, cpus.c:343); `Icount.Timers.Adjust` states both cases.

## Left out

- Memory dispatch: sections are non-empty, disjoint and inside the 64-bit space, as the flat view of the memory core
  hands them out; flat views, regions, RCU and the I/O callbacks of sub-pages are not modelled.
- Memory dispatch: node storage is a sequence with an allocation limit, so reallocation addresses are not modelled.
- Exclusive protocol: sequentially consistent memory, as the barriers of the source provide; the work queue, the CPU
  list itself and kicking a CPU are not modelled.
- Software TLB: page numbers stand for addresses; code generation, the fill from guest page tables and multi-CPU flush
  queues are not modelled.
- EventLoop.NeverStuck: a callback that calls aio_poll, and the walking_bh counter that guards the list against it
  (async.c:96-122), are not modelled; every walk holds the context lock.
- Event loop: callbacks of bottom halves are steps of other threads; file descriptors, timers and the GSource path are
  not modelled, and notify_me does not wrap around.
- Block graph: only backing, file and root links; parent lists are sets; inherits_from, quiescing, drivers, permissions
  and block jobs are not modelled.
- BlockGraph.Graph.DropIntermediate: the result of bdrv_change_backing_file is a parameter.
- BlockGraph.Graph.SetBacking: that no cycle arises is a requirement on the caller, as in the source; BlockGc says when
  it is met.
- ElfCore.ElfDump.CreateVmcore: the bytes of the ELF headers and of the section header are abstract, only their sizes
  and field values matter; file and memory sizes are below 2^63 and notes below 2^62.
- Dumps: write errors are a number of writes that succeed before the first that fails; memory_mapping_filter, page-table walks, the makedumpfile
  start header and detached dumping are not modelled.
- Kdump.CreateKdump: the compressor is any function with an inverse on what it returns; header contents are given bytes.
- RAM blocks: migration, resizing, dirty bitmaps and host allocation are not modelled beyond success or failure.
- ReverseAtomics.RunRefines: the host address lookup and 16-byte loads and stores are not modelled.
- Icount.Timers.Exec: translated code is a list of block lengths; clock warping and record/replay are not modelled.
- GdbPacket.GdbState.ReadByte: packet commands, breakpoints and signals are not modelled; what a packet does is outside.
- The rest of QEMU (devices, migration, QMP, TCG, block drivers) is not modelled.
