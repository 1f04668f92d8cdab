# A Dafny model of the Arm RME compliance suite's stateful cores

The suite is firmware: most of it is register plumbing, but a few parts keep real state and make
promises across calls. This project models those parts and proves what they promise.

| component | files | main results |
|---|---|---|
| PCIe bus enumeration on a machine whose routing is the thing being programmed | `Topology`, `BusEnumeration`, `RootPort` | `EnumerateHierarchy`, `WindowsNestOrSeparate`, `ProgrammedRoutes`, `EnumerateAndPopulate` |
| EL3 memory pool: first fit, split, coalesce | `BlockPool` (values), `PoolMemory` (headers in memory) | `PoolIsSafe`, `Heap.Malloc`, `FirstFitIsLowest`, `ReleaseComplete` |
| SMMUv3 command ring, stream table, master list, map and unmap, with the SMMU as a concurrent agent | `CommandRing`, `StreamTable`, `EntryMeaning` (bits of the entries), `SmmuDriver`, `TableLayout` | `Smmu.RlmMap`, `Smmu.Session`, `StreamTable.RunRefinesFlat`, `RunKeepsUnique`, `FlushSurvivesIffFourSlots` |
| Stage-1 table editor | `StageTables` (tables and walks), `StagePool` (pages it takes), `StageEditor` (the code, runs) | `RunRefinesFlat`, `RunIsMapUpdate`, `AllowedIff`, `PathIsPage` |
| Granule Protection Table editor | `GranuleTable` | `RunIsMap`, `AddIsMapUpdate`, `UnitIsRegion` |
| Multi-PE verdict protocol | `Verdict` | `Board.RunTest`, `UndeservedPass`, `LateReportRun` |
| IDE stream blocks | `IdeStreams` | `Function.EstablishStream`, `LayoutStable` |
| IORT ID mapping, two walkers | `IdMapping` | `WalkersAgree`, `DeviceIdsInjective` |
| BDF odometer and device table | `BdfTraversal` | `IteratedIsNth`, `StopsExactly`, `DeviceTable.Create` |
| 32-bit BAR cursor | `BarCursor` | `RangesDisjoint`, `RangesAligned` |

`Bits` and `Arithmetic` hold word, mask and remainder facts, `PciAddress` the packed device address, `Wrappers` optional
values.

How it is put together:

- Code that updates memory or registers is a class whose methods are proved against a pure function of the
  old state (`Insert`, `Added`, `Map`, `Take`, `Release`, ...). What the code promises is then proved of that
  function, and over whole runs of it.
- `PoolMemory.Heap` computes `BlockPool.Malloc` and `BlockPool.Free` on linked headers, so what the runs of `BlockPool`
  keep is kept by the heap, call by call.
- Specification functions are pinned down by results that do not use them: numbers, bit positions and fields of the
  request (`EntryMeaning`, the lemmas named `...InNumbers`, `MallocExact`, `AddWrites`, `DescriptorMaps`).
- Masks are bitwise: `And` in `Bits`, shown to be remainders for powers of two where the code relies on it.
- A concurrent agent (the SMMU, the other PEs) is a method `Interfere` that takes an arbitrary finite number of
  the agent's steps. It is called between any two accesses of the modelled code to shared state.
- Allocation outcomes, probe replies and requests are parameters. Addresses are unbounded integers; 32- and 64-bit
  wrap-around is written out where the code depends on it (`Wrap`, `Translate`, `Contains`).
- `ghost` parameters such as `here` or `visits` only name the object an access should reach; the methods compute
  without them.

Where the code and its intent part, the model follows the code:

- `smmu_queue_full` looks at a software copy of the indices that stays 0/0, so it never reports full
  (`SmmuDriver.Smmu.WriteCmd`). Not overwriting rests on small batches and drained polls; a ring of fewer than four
  slots loses the whole-configuration invalidation (`CommandRing.FlushSurvivesIffFourSlots`) and with EL2 support
  even looks drained at once (`SmallRingLooksDrained`).
- `smmu_tlbi_prefetch_cfg` issues a second CFGI_STE, not a prefetch (`SmmuDriver.EntryCommands`).
- `my_free` makes one merging pass that steps past a merged block, so three neighbouring free blocks become two
  (`BlockPool.CoalesceComplete`, `ReleaseComplete`).
- A request whose rounding wraps 64 bits is rounded to zero and granted as soon as a free block covers the padding
  (`BlockPool.RoundingIsHonest`, `WrappedIsGranted`).
- GPCCR.PGS is masked with 0b10, so the 64 KB encoding decodes as 4 KB (`GranuleTable.PgsDecodedIffNot64KB`).
- `val_pcie_increment_bdf` returns 0 both at the end and for segment 0, bus 0, so a loop over it is cut short exactly
  when a later region starts there (`BdfTraversal.StopsExactly`, `StopsHalfway`).
- `val_pcie_create_device_bdf_table` reports success whenever a table is allocated, also one that an earlier, failed call
  left behind (`BdfTraversal.DeviceTable.Create`, `CreateTwice`).
- The ID-mapping walkers let the last matching root-complex block win, not the first (`IdMapping.LastServing`). Their
  returned values disagree exactly when one of them hides the SMMU: stream ID 0xFFFFFFFF, or an SMMU at base 0 or
  0xFFFFFFFF (`IdMapping.WalkersAgree`, `BaseZeroIsAmbiguous`).
- `val_check_for_error` relies on the timeout mark staying in place; one PE reporting over it yields a PASS that not
  every PE earned (`Verdict.LateReportRun`, characterised by `UndeservedPass`).
- The stage-1 editor calls itself for a fresh page that is not mapped. An edit that replaces a block descriptor unmaps
  every page behind it, pool pages included; `StageEditor.AllowedIff` says exactly which edits avoid both, `SelfCallExample` gives a table on
  which they do not.
- A stage 1 map that fails for want of a context table has already published the new group and invalidates nothing
  (`StreamTable.LeavesGroupIff`, `SmmuDriver.StaleAfterFailedMap`).
- The stage-1 editor's second block-descriptor branch cannot be reached, because the first one already takes every
  block descriptor.

## Model

| member | source | states |
|---|---|---|
| Topology.NumberRange | platform/pal_baremetal/src/pal_pcie_enumeration.c:435-528 | the buses behind one position take numbers of one contiguous range, the parent's range contains it |
| Topology.NumberOnto | platform/pal_baremetal/src/pal_pcie_enumeration.c:435-528 | every number of the range is some bus's |
| Topology.NumberIsPreorder | platform/pal_baremetal/src/pal_pcie_enumeration.c:435-528 | numbers follow depth-first preorder: a bus before those below it, earlier positions before later ones |
| Topology.WindowsNestOrSeparate | platform/pal_baremetal/src/pal_pcie_enumeration.c:477-495 | distinct buses have distinct numbers, and a window contains another bus's number if and only if that bus lies below it: child windows nest, all others are disjoint |
| Topology.ProgrammedRoutes | platform/pal_baremetal/src/pal_pcie_enumeration.c:477-495 | with every window final, an access to a bus number reaches that bus and no other |
| Topology.UnassignedIsSilent | platform/pal_baremetal/src/pal_pcie_enumeration.c:477-495 | numbers outside the tree reach nobody |
| Topology.ProgrammedWindow | platform/pal_baremetal/src/pal_pcie_enumeration.c:477-495 | every bridge has sec = preorder number, sub = sec + number of bridges below it, and the number of the bus it sits on as primary |
| Topology.RoutingIgnoresPrimary | platform/pal_baremetal/src/pal_pcie_enumeration.c:538-570 | registers that differ only in primary numbers route alike, so clearing those is harmless |
| Topology.ProgrammedRoutesEverywhere | platform/pal_baremetal/src/pal_pcie_enumeration.c:538-570 | after the primary numbers are cleared every bus is still reached alone under its number, and no other number reaches anybody |
| BusEnumeration.PreorderVisitsOnce | platform/pal_baremetal/src/pal_pcie_enumeration.c:457-525 | the visit order contains every endpoint and bridge of the tree exactly once and nothing else |
| BusEnumeration.OnPathRoutes | platform/pal_baremetal/src/pal_pcie_enumeration.c:477-495 | during the run, with the windows above open to 0xFF and others half-programmed, an access to the bus being scanned reaches that bus only |
| BusEnumeration.Machine.Probe | platform/pal_baremetal/src/pal_pcie_enumeration.c:462-476 | the routed read reaches the bus being scanned and returns the function at that position |
| BusEnumeration.Machine.EnumerateDevice | platform/pal_baremetal/src/pal_pcie_enumeration.c:435-528 | scanning a bus programs every bridge at and below it with its final window, visits it in preorder, touches no register elsewhere, misroutes no access, and returns bus + bridges below |
| BusEnumeration.Machine.EnumerateBridge | platform/pal_baremetal/src/pal_pcie_enumeration.c:477-512 | the type 1 branch keeps the scan invariant and returns sec + bridges below |
| BusEnumeration.Machine.ClearPrimaryBus | platform/pal_baremetal/src/pal_pcie_enumeration.c:538-570 | every bridge loses its primary number, no window changes, and every access of the pass goes where its number says, or nowhere if no bus has it |
| BusEnumeration.Machine.EnumerateHierarchy | platform/pal_baremetal/src/pal_pcie_enumeration.c:572-607 | from reset, for every tree that fits: all windows final, every access during and after reached the intended bus, every device visited once |
| RootPort.ReadDevice | val/src/acs_pcie.c:1934-1992 | reading at a device's BDF reads that device |
| RootPort.BdfInNumbers | val/src/acs_pcie.c:535-540 | position k of a bus is device k / 8, function k % 8 |
| RootPort.UniqueRootPort | val/src/acs_pcie.c:1963-1985 | a table entry matches the lookup if and only if it is the root port whose subtree contains the function |
| RootPort.GetRootPort | val/src/acs_pcie.c:1934-1992 | for any function and any table: own BDF for a root port, 0xffffffff for RCiEP and RCEC, else the first matching entry, else 0 and failure |
| RootPort.AnswersByType | val/src/acs_pcie.c:1949-1992 | the answers in literals: own BDF, 0xffffffff, an entry of the same segment whose window holds the bus, or 0 when there is none |
| RootPort.AnswerIsRootPort | val/src/acs_pcie.c:1934-1992 | on an enumerated segment that answer is the root port above the function, if listed, whatever the order of the table |
| RootPort.PopulateRootPorts | val/src/acs_pcie.c:466-488 | every entry, of any segment, gets the answer of its lookup |
| RootPort.BuiltTable | val/src/acs_pcie.c:520-575 | the table built on an enumerated segment lists exactly its devices that pass the filters |
| RootPort.EnumerateAndPopulate | val/src/acs_pcie.c:490-589 | enumeration from reset, table routine, lookups: success if and only if no function of another segment lacks a mapping, and then every listed function below a root port gets that root port |
| BlockPool.TilesConserve | val_el3/smmuv3_realm.c:43-61 | sizes and headers of a chain add up to its extent |
| BlockPool.MaskIsRoundDown | val_el3/smmuv3_realm.c:64-67 | for powers of two the bitwise mask rounds down to a multiple |
| BlockPool.RoundingIsHonest | val_el3/smmuv3_realm.c:64-67 | the rounded size is at least the size asked for if and only if the sum does not wrap, and zero otherwise |
| BlockPool.WrappedIsGranted | val_el3/smmuv3_realm.c:70-96 | such a request exceeds the pool and is granted if and only if a free block covers the padding |
| BlockPool.FirstFitIsLowest | val_el3/smmuv3_realm.c:70-96 | NULL if and only if no free block can hold the padded request, otherwise the lowest-addressed one that can |
| BlockPool.MallocExact | val_el3/smmuv3_realm.c:70-96 | in numbers: NULL if and only if no free block has the rounded request between its aligned payload address and its end; else that address in the first one, split off just past the request when more than 24 bytes remain |
| BlockPool.FreshInNumbers | val_el3/smmuv3_realm.c:43-49 | one free block of 2 MB less a header |
| BlockPool.TakeTiles | val_el3/smmuv3_realm.c:52-61 | splitting keeps the chain a tiling of the pool, with 8-byte aligned headers |
| BlockPool.CoalesceTiles | val_el3/smmuv3_realm.c:106-114 | merging keeps the extent of the chain |
| BlockPool.CoalesceUsed | val_el3/smmuv3_realm.c:106-114 | merging leaves exactly the used blocks it found |
| BlockPool.CoalesceComplete | val_el3/smmuv3_realm.c:106-114 | two neighbouring free blocks are left if and only if there were three before |
| BlockPool.ReleaseComplete | val_el3/smmuv3_realm.c:99-115 | from a coalesced list, a free leaves neighbouring free blocks if and only if both neighbours were free |
| BlockPool.FreeFindsBlock | val_el3/smmuv3_realm.c:99-105 | for an 8-byte aligned allocation the header computed from the pointer is the allocated block's |
| BlockPool.MallocKeepsInv | val_el3/smmuv3_realm.c:70-96 | allocation keeps the pool invariant: tiling, aligned headers, one owner per used block |
| BlockPool.FreeKeepsInv | val_el3/smmuv3_realm.c:99-115 | freeing keeps it |
| BlockPool.PoolIsSafe | val_el3/smmuv3_realm.c:43-115 | at every point of every run: the chain tiles the 2 MB pool from its base, sizes are conserved, live payloads are aligned, pairwise disjoint and overlap no header |
| PoolMemory.Heap.SplitBlock | val_el3/smmuv3_realm.c:52-61 | the two headers written |
| PoolMemory.Heap.Malloc | val_el3/smmuv3_realm.c:70-96 | the walk over linked headers computes `BlockPool.Malloc`, keeps the pool invariant and never moves the head |
| PoolMemory.Heap.Free | val_el3/smmuv3_realm.c:99-115 | computes `BlockPool.Free`, keeps the pool invariant and never moves the head |
| PoolMemory.Heap.SafeMeans | val_el3/smmuv3_realm.c:43-115 | what the heap has handed out is aligned, disjoint and clear of headers, and sizes add up to the pool |
| PoolMemory.Heap.CoalesceAdjacent | val_el3/smmuv3_realm.c:106-114 | the in-place merging pass computes `Coalesce` |
| CommandRing.IndexFacts | val_el3/smmuv3_realm.c:207-228 | the masked increment, index bits and wrap bit are those of a counter modulo twice the ring |
| CommandRing.FullAndEmpty | val_el3/smmuv3_realm.c:212-228 | full if and only if occupancy is 2^n, empty if and only if it is 0 |
| CommandRing.ProduceMasked | val_el3/smmuv3_realm.c:258-291 | the write with the driver's masks is the write at the counter |
| CommandRing.ProduceAppends | val_el3/smmuv3_realm.c:258-291 | with room, a write appends to the pending commands and overwrites none |
| CommandRing.ConsumeTakesFirst | val_el3/smmuv3_realm.c:258-327 | consuming removes the oldest pending command |
| CommandRing.FlushSurvivesIffFourSlots | val_el3/smmuv3_realm.c:346-356 | a stalled consumer still finds the invalidation of everything if and only if the ring has at least four slots |
| CommandRing.SmallRingLooksDrained | val_el3/smmuv3_realm.c:346-356 | on a smaller ring the four-command batch looks consumed as soon as it is written |
| SmmuDriver.DeviceProgress | val_el3/smmuv3_realm.c:304-327 | every SMMU step (consume, fetch, cache) keeps table, slots and the issued sequence, never raises occupancy, and keeps caches settling |
| SmmuDriver.ExecuteSettles | val_el3/smmuv3_realm.c:346-356 | executing the oldest command keeps "coherent, or an invalidation of everything still pending" |
| SmmuDriver.Smmu.WriteCmd | val_el3/smmuv3_realm.c:258-291 | under interference and with room, exactly this command is added to the issued sequence |
| SmmuDriver.Smmu.Poll | val_el3/smmuv3_realm.c:304-327 | a poll that ends by its test leaves the ring drained, whatever the SMMU did meanwhile |
| SmmuDriver.Smmu.InvalidateEntry | val_el3/smmuv3_realm.c:329-344 | drained: exactly these commands were executed, in order |
| SmmuDriver.Smmu.InvalidateAll | val_el3/smmuv3_realm.c:346-356 | drained: exactly the batch was executed, in order, and no cached entry or descriptor differs from memory |
| SmmuDriver.Smmu.WriteEntry | val_el3/smmuv3_realm.c:358-429 | the stores, interleaved with SMMU fetches, build the entry for the stage and touch no other entry |
| SmmuDriver.StoresMakeEntry | val_el3/smmuv3_realm.c:358-429 | the three store orders all build the specified entry |
| SmmuDriver.Smmu.InitLevel2 | val_el3/smmuv3_realm.c:540-568 | a missing group is filled with bypass entries and published last; an existing one is left alone |
| SmmuDriver.Smmu.MasterNode | val_el3/smmuv3_realm.c:1038-1063 | the first node with the stream ID, or a zeroed node put in front |
| SmmuDriver.Smmu.RlmMap | val_el3/smmuv3_realm.c:1077-1193 | refines `Map`; on 0 with drained polls, no cached configuration for any stream ID differs from the tables and exactly the expected commands were executed; on failure no command was issued |
| EntryMeaning.MapSucceeds | val_el3/smmuv3_realm.c:1077-1193 | exactly which maps return 0 |
| EntryMeaning.BypassMap | val_el3/smmuv3_realm.c:369-377 | after a bypass map: words 9, 0x1000_0000_0000 and 0 |
| EntryMeaning.Stage2Map | val_el3/smmuv3_realm.c:396-409 | after a stage 2 map: configuration 6, the page table base below 2^48, every control field read back by shift and mask |
| EntryMeaning.Stage1Map | val_el3/smmuv3_realm.c:411-423 | after a stage 1 map: configuration 5, context pointer, size given by the request that bound the master, format 2 exactly when two-level and larger than 1024 |
| EntryMeaning.MapNode | val_el3/smmuv3_realm.c:1038-1109 | which node of the list the call used and what it holds |
| EntryMeaning.UnmapMeans | val_el3/smmuv3_realm.c:1201-1230 | when an unmap takes effect, the words it writes and the zeroed node |
| SmmuDriver.MapCommands | val_el3/smmuv3_realm.c:329-356 | all commands of a successful map, written out |
| SmmuDriver.MapIsSeen | val_el3/smmuv3_realm.c:540-568 | after a successful map a walk by the SMMU finds the new entry |
| SmmuDriver.Smmu.RlmUnmap | val_el3/smmuv3_realm.c:1201-1230 | refines `Unmap` on a linear table; drained polls leave no stale configuration; an early return changes nothing the SMMU sees |
| SmmuDriver.Smmu.Session | val_el3/smmuv3_realm.c:1077-1230 | over every sequence of such calls with drained polls: exactly the issued commands were executed, in order, and the caches stay coherent if every map that left a new group is followed by a call that succeeded |
| StreamTable.LeavesGroupIff | val_el3/smmuv3_realm.c:1131-1175 | a failed map changes the table if and only if it is a supported stage 1 request in range whose missing group got memory and whose context entry did not |
| SmmuDriver.StaleAfterFailedMap | val_el3/smmuv3_realm.c:1131-1175 | a run that ends with such a failure and a stale cached entry |
| StreamTable.Word0Decodes | val_el3/smmuv3_realm.c:358-429 | valid bit, stage, context table base, size and format read back from word 0 |
| StreamTable.SetEntryFrame | val_el3/smmuv3_realm.c:860-869 | the two-level split finds a distinct entry for each stream ID |
| StreamTable.PopulateFrame | val_el3/smmuv3_realm.c:540-568 | populating a group changes no entry that existed and makes the new ones bypass |
| StreamTable.MapRefinesFlat | val_el3/smmuv3_realm.c:1077-1193 | a map sets its own stream ID on success, may turn unpopulated ones into bypass, and changes no other entry |
| StreamTable.UnmapRefinesFlat | val_el3/smmuv3_realm.c:1201-1230 | an unmap that takes effect sets its stream ID to bypass and changes nothing else |
| StreamTable.MapKeepsUnique | val_el3/smmuv3_realm.c:1038-1109 | no nonzero stream ID is carried by two nodes after a map |
| StreamTable.UnmapKeepsUnique | val_el3/smmuv3_realm.c:1201-1230 | nor after an unmap, which zeroes its node in place |
| StreamTable.RunRefinesFlat | val_el3/smmuv3_realm.c:1077-1230 | over every run, word 0 found for a stream ID is what its last successful call wrote, else default bypass or unpopulated |
| StreamTable.RunKeepsUnique | val_el3/smmuv3_realm.c:1038-1230 | over every run, no nonzero stream ID has two masters |
| TableLayout.NextMultiple | val_el3/smmuv3_realm.c:202-205 | the result is the next multiple strictly above the pointer |
| TableLayout.EntriesInside | val_el3/smmuv3_realm.c:998-1036 | every entry, of any size, of the aligned table lies inside the 2 * size allocation, distinct entries apart |
| TableLayout.SplitIsOneToOne | val_el3/smmuv3_realm.c:860-869 | shift and mask split an ID into two in-bounds indices, one-to-one |
| TableLayout.TableSplits | val_el3/smmuv3_realm.c:914-935 | for the stream and context tables these are the group and entry of the model |
| StageTables.InsertKeepsTree | val_el3/pgt_common.c:307-357 | an edit keeps the tables a tree of distinct pages outside the unused pool |
| StageTables.InsertTranslates | val_el3/pgt_common.c:316-322 | the edited address then walks to exactly the new descriptor |
| StageTables.InsertKeepsOthers | val_el3/pgt_common.c:307-357 | addresses that do not share the first replaced descriptor translate as before |
| StageTables.InsertShadows | val_el3/pgt_common.c:327-344 | the others that shared it fault |
| StageTables.InsertIsMapUpdate | val_el3/pgt_common.c:275-362 | together: what every address translates to after one edit |
| StageTables.InsertKeepsMapped | val_el3/pgt_common.c:327-344 | an address mapped before keeps its translation under edits of any other page |
| StageEditor.PathIsPage | val_el3/pgt_common.c:295-308 | two addresses share their indices if and only if they lie in the same page |
| StageEditor.DescriptorIsPage | val_el3/pgt_common.c:316-322 | the descriptor written is a valid page descriptor whatever the attributes |
| StageEditor.DescriptorMaps | val_el3/pgt_common.c:316-322 | it holds the output page in bits [47:12], 3 or-ed with the attribute below and the attribute above |
| StageEditor.FourLevels | val_el3/pgt_common.c:295-308 | the four indices of a 48-bit address, in numbers |
| StageTables.ReplacedExactly | val_el3/pgt_common.c:327-351 | which descriptor an edit replaces, by its low bits |
| StageEditor.Editor.AddEntry | val_el3/pgt_common.c:275-362 | the loop computes `Insert` on memory and the free page cursor; the self-call of lines 337-338 is shown unreachable under the guard |
| StagePool.GuardedIff | val_el3/pgt_common.c:327-344 | the code calls itself for none of its fresh pages if and only if each page it takes was mapped before the edit and none lies behind the first descriptor it replaces |
| StagePool.PoolKept | val_el3/pgt_common.c:327-344 | the rest of the pool stays mapped if and only if no other pool page lies behind that descriptor |
| StageEditor.AllowedIff | val_el3/pgt_common.c:275-362 | both together on a mapped pool: the exact condition on an edit, checkable before it |
| StageEditor.AllowedRunIsRun | val_el3/pgt_common.c:275-362 | a run of such edits never meets the self-call and keeps the pool mapped |
| StageEditor.TakesSharedPage | val_el3/pgt_common.c:327-344 | when the next free page lies behind the replaced descriptor the code calls itself |
| StageEditor.SelfCallExample | val_el3/pgt_common.c:327-344 | a sound table with a mapped pool on which every edit of the first 2 MB does |
| StageEditor.RunIsMapUpdate | val_el3/pgt_common.c:275-362 | over every run of edits that avoid the self-call the tables stay a tree of distinct pages and each edit is a map update |
| StageEditor.RunRefinesFlat | val_el3/pgt_common.c:275-362 | over every run, each page ever edited translates to what its last edit wrote |
| StageEditor.RunMapsPages | val_el3/pgt_common.c:275-362 | over every run, a page ever edited walks to a leaf with the output page and attributes of its last edit |
| GranuleTable.RegisterDecodes | val_el3/pgt_common.c:35-58 | the granule, region and seven protected sizes the register decodes to, in bytes |
| GranuleTable.PgsDecodedIffNot64KB | val_el3/pgt_common.c:35-58 | against 4 KB, 64 KB and 16 KB, the masked field is right if and only if it does not ask for 64 KB |
| GranuleTable.CleanTableSame | val_el3/pgt_common.c:78-87 | clearing reserved bits keeps a table descriptor and its base |
| GranuleTable.ModifyGpiSets | val_el3/pgt_common.c:208-263 | clear-and-or replaces exactly one four-bit field |
| GranuleTable.Editor.AddGptEntry | val_el3/pgt_common.c:29-145 | the edit of memory as one function |
| GranuleTable.AddWrites | val_el3/pgt_common.c:29-263 | that function from the register and descriptor bits: which word changes, in which four bits, and nothing else |
| GranuleTable.AddAffects | val_el3/pgt_common.c:29-263 | the bytes whose protection changes: granule, 16 granules or region of the written address |
| GranuleTable.ValidGpis | val_el3/pgt_common.c:187-195 | the six valid encodings |
| GranuleTable.AddedCells | val_el3/pgt_common.c:29-145 | only the deciding descriptor changes, in one field, apart from reserved bits of its table descriptor |
| GranuleTable.AddedKeepsKinds | val_el3/pgt_common.c:29-263 | which descriptor decides an address, and its kind, never changes |
| GranuleTable.AddIsMapUpdate | val_el3/pgt_common.c:29-263 | lookup returns the new value exactly for the granule, the contiguous entry or the block of the written address, and the old value elsewhere |
| GranuleTable.UnitIsRegion | val_el3/pgt_common.c:158-178 | addresses share a unit if and only if they lie in the same aligned granule, 16-granule run or level 0 region |
| GranuleTable.RunIsMap | val_el3/pgt_common.c:29-263 | after any sequence of writes of valid values, every address reads what was last written to its unit |
| Verdict.ResultState | val/include/rme_acs_common.h:60-84 | the state packed into a status word is read back |
| Verdict.StatusWords | val/include/rme_acs_common.h:36-84 | the states as ranges of words |
| Verdict.Board.Initialize | val/src/acs_test_infra.c:249-284 | every slot is pending |
| Verdict.Board.Scan | val/src/acs_test_infra.c:409-416 | a pass that saw nothing pending means everybody has reported, although it is not atomic |
| Verdict.Board.WaitForCompletion | val/src/acs_test_infra.c:398-422 | afterwards everybody has reported or somebody is marked failed |
| Verdict.Board.CheckForError | val/src/acs_test_infra.c:466-513 | PASS if and only if every PE passed, on a settled board; on a board that stands still, SKIP or FAIL as the first failed or skipped slot says; under interference SKIP only if some slot skipped, FAIL if one failed and none skipped; exactly the matching counter moves, by one |
| Verdict.Board.RunTest | val/src/acs_test_infra.c:436-513 | the same for initialise, payload, wait and check together, under every interleaving, also when the payload leaves this PE pending |
| Verdict.UndeservedPass | val/src/acs_test_infra.c:490-512 | exactly which boards get a PASS not earned by all |
| Verdict.LateReportRun | val/src/acs_test_infra.c:398-513 | initialise, wait to the timeout mark, report over it, check: PASS with one PE still pending |
| IdeStreams.BlocksApart | val/src/acs_da.c:213-282 | variable-length stream blocks follow one another without overlap |
| IdeStreams.OffsetInNumbers | val/src/acs_da.c:240-275 | where the blocks lie, in bytes |
| IdeStreams.LayoutStable | val/src/acs_da.c:213-426 | writes inside one block move no block and change no count |
| IdeStreams.Function.GetNumSelStreams | val/src/acs_da.c:428-455 | the walkers accept k if and only if it lies between 1 and this number |
| IdeStreams.Function.SetSelStream | val/src/acs_da.c:213-282 | accepted if and only if the stream exists; changes that control register only |
| IdeStreams.Function.ProgramStreamId | val/src/acs_da.c:285-350 | the same, with the ID in the control register |
| IdeStreams.Function.ProgramRid | val/src/acs_da.c:352-426 | the same, for the two RID registers |
| IdeStreams.Function.GetStatus | val/src/acs_da.c:457-522 | the state field of the status register of that stream |
| IdeStreams.Function.EstablishStream | val/src/acs_da.c:524-565 | 0 only with the stream secure and control = ID and enable bit; no register of another stream changes |
| IdMapping.LastServingUnique | val/src/acs_iovirt.c:192-215 | the last serving block and its first matching map are unique |
| IdMapping.GetDeviceInfo | val/src/acs_iovirt.c:171-266 | the answer by its own indices: last serving block, first matching map, SMMU map; all failure cases included |
| IdMapping.SelectionInNumbers | val/src/acs_iovirt.c:192-215 | the selected block and map by ranges, the sum in 32 bits |
| IdMapping.DirectInNumbers | val/src/acs_iovirt.c:216-228 | the answer without an SMMU, and when there is none |
| IdMapping.ThroughInNumbers | val/src/acs_iovirt.c:229-265 | stream and device ID as the two shifted ranges, in 32 bits |
| IdMapping.GetRcSmmuBase | platform/pal_baremetal/src/pal_iovirt.c:31-98 | the answer of the second walker, by its own loops and indices |
| IdMapping.BaseInNumbers | platform/pal_baremetal/src/pal_iovirt.c:68-97 | 0xFFFFFFFF, the SMMU's base or 0, by ranges |
| IdMapping.AnswersThrough | platform/pal_baremetal/src/pal_iovirt.c:31-98 | through an SMMU both returned values are about that SMMU: its base, and the composition of the two maps |
| IdMapping.WalkersAgree | platform/pal_baremetal/src/pal_iovirt.c:31-98 | the two returned values agree on whether there is an SMMU if and only if the way is not ambiguous; neither invents one |
| IdMapping.BaseZeroIsAmbiguous | platform/pal_baremetal/src/pal_iovirt.c:78-97 | a table on which they disagree |
| IdMapping.DeviceIdsInjective | val/src/acs_iovirt.c:171-266 | with non-overlapping outputs, requesters behind one block and SMMU get distinct stream and device IDs |
| PciAddress.UnpackPack | val/src/acs_pcie.c:995-998 | packing and unpacking a BDF round-trips |
| PciAddress.PackedBytes | val/src/acs_pcie.c:995-998 | segment, bus, device and function from the top byte down |
| BdfTraversal.RankIsLex | val/src/acs_pcie.c:984-1036 | ranks order positions lexicographically and tell them apart |
| BdfTraversal.PositionsInNumbers | val/src/acs_pcie.c:526-535 | 32 devices of 8 functions on each bus of the region |
| BdfTraversal.SuccIsNextRank | val/src/acs_pcie.c:1013-1033 | one step moves to the next rank and stops only at the last |
| BdfTraversal.TraversalIsComplete | val/src/acs_pcie.c:984-1036 | iterating from the first position visits every position exactly once, in lexicographic order |
| BdfTraversal.IncrementBdf | val/src/acs_pcie.c:984-1036 | for any packed value, the step `NextPacked` |
| BdfTraversal.NextPackedIsSucc | val/src/acs_pcie.c:984-1036 | on the packed form of a position that step is the odometer's; 0 after the last |
| BdfTraversal.IteratedIsNth | val/src/acs_pcie.c:984-1036 | iterating the code's step from the first BDF gives the k-th position's BDF for every k, then 0 |
| BdfTraversal.StopsExactly | val/src/acs_pcie.c:1020-1035 | a 0 comes before the end if and only if a region other than the first starts at segment 0, bus 0 |
| BdfTraversal.Traverse | val/src/acs_pcie.c:984-1036 | the loop that stops at 0 visits all positions if and only if there is no such region |
| BdfTraversal.StopsHalfway | val/src/acs_pcie.c:1020-1035 | two regions on which half of the positions are missed |
| BdfTraversal.DeviceTable.Create | val/src/acs_pcie.c:490-589 | an allocated table is kept and reported as success; otherwise success if and only if there is memory, an ECAM and a mapping for every position, and then the table is exactly the traversal filtered by the probes |
| BdfTraversal.TableMembers | val/src/acs_pcie.c:520-575 | a complete table holds exactly the devices among the positions |
| BdfTraversal.TableOrder | val/src/acs_pcie.c:520-575 | and holds them in the order of the traversal |
| BdfTraversal.AllMappedIff | val/src/acs_pcie.c:540-575 | the scan is complete if and only if every position has a mapping: empty and rejected ones are skipped |
| BdfTraversal.CreateTwice | val/src/acs_pcie.c:506-530 | after a failed call the next one reports success on the incomplete table |
| BdfTraversal.CreateUnmapped | val/src/acs_pcie.c:506-550 | an input on which that happens |
| BarCursor.Programmer.ProgramFunction | platform/pal_baremetal/src/pal_pcie_enumeration.c:368-428 | each implemented BAR gets a range, in order, starting after its predecessor by the larger of the two sizes; the first one at the cursor on a new bus, past it on the same bus |
| BarCursor.RangesDisjoint | platform/pal_baremetal/src/pal_pcie_enumeration.c:395-412 | ranges on one bus are strictly increasing and pairwise disjoint |
| BarCursor.RangesAligned | platform/pal_baremetal/src/pal_pcie_enumeration.c:395-412 | power-of-two sizes that never grow, from an aligned first range, are all naturally aligned |
| BarCursor.AlignedNext | platform/pal_baremetal/src/pal_pcie_enumeration.c:395-412 | after a smaller range, aligned if and only if that one stood on a multiple of the new size |

## Left out

- MMIO, barriers, cache and TLB maintenance, the SMC conduit, printing, UEFI and ACPI discovery: hardware or foreign calls; registers are plain state here.
- BusEnumeration.Machine.EnumerateHierarchy: one host bridge and ECAM block; the loop over several repeats it. Bridge memory windows and root-port BARs are not part of this model. A tree with more buses than the range is excluded, since the code then numbers past the end.
- RootPort.EnumerateAndPopulate: one segment is enumerated; functions of other segments read and probe as they like.
- BarCursor.Programmer.ProgramFunction: one class of 32-bit BARs, no wrap past 4 GB; 64-bit BARs, whose sizes the code truncates, and ranges across buses are not covered.
- BlockPool.PoolIsSafe: alignments are powers of two of at least 8 and the rounding does not wrap, exactly the condition of `RoundingIsHonest` (see `WrappedIsGranted`; `val_memory_alloc` and `val_memory_calloc` take 32-bit sizes, so only a direct call of `my_malloc` can wrap); only 8-byte aligned pointers are freed, because `my_free` cannot find the header behind padding.
- SmmuDriver.Smmu.RlmMap: one SMMU, present and enabled; `drained` reports whether the polls ended by their test, which the code does not return. Context descriptor contents and the freeing of context tables are not modelled.
- SmmuDriver.Smmu.RlmUnmap: linear tables only; on a two-level table the code indexes the first level with the whole stream ID.
- StreamTable.Memory has no addresses: that tables, groups and context tables do not overlap is the allocator's result, that aligned tables fit is in `TableLayout`.
- StreamTable.RunRefinesFlat: a two-level table starts with no descriptor published, although `smmu_strtab_init_2level` allocates the first level without zeroing it; what stale memory there holds is not modelled.
- StageEditor.Editor.AddEntry: 4 KB granule with a page-aligned, zeroed pool, as the suite's EL3 documentation requires, and edits for which the self-call is not taken; what the code computes when it is taken is not modelled.
- GranuleTable.Editor.AddGptEntry: the base register's alignment arithmetic is not modelled, nor the contiguity size field, which only feeds log output.
- GranuleTable.RunIsMap: contiguous descriptors are taken one 16-granule entry at a time, as the editor writes them.
- Verdict.Board.RunTest: every started PE reports a final result at most once and none reports over a timeout mark (see `LateReportRun`); user overrides that skip a test come before it.
- IdeStreams.Function.ProgramRid: the RID base value, which the code overwrites with the valid bit.
- IdeStreams.Function.GetStatus: status registers change under the hardware's control, so the state is the one seen by this read.
- BdfTraversal.DeviceTable.Create: the table's fixed capacity and the enabling of memory access and bus mastering.
- IdMapping.GetDeviceInfo: the checks for a missing table or result pointer.
- fill_translation_table, val_pe_mmu_map_rmv, smmu_reset's return value, val_pcie_find_da_capability, val_get_free_pa, info-table getters, register-read switches, timer and GIC wrappers and TDISP message builders: easy members, constant data, or code without a clean law.
