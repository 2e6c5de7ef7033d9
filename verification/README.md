# unifat in Dafny

unifat is a FAT16/32 and exFAT driver. This project models its stateful core and proves what that
core promises, layer by layer; each layer is proved against an abstract version of the one below.
`dafny verify dfyconfig.toml` checks everything.

| layer | files |
|---|---|
| storage: an 8-slot write-back sector cache, and exFAT's `VolumeDirty` protocol over it | `SectorCache`, `VolumeDirty` |
| an open file over any lawful cluster map, as a growable byte sequence with a cursor | `ClusterMaps`, `FileSpec`, `StreamFile`, `StreamRuns` |
| the FAT allocator: cells in mirrored copies, the hint, chains and their owners | `FatCells`, `FatTables`, `FatVolume`, `FatRuns` |
| the exFAT allocator: bitmap, FAT, contiguous runs turned into chains | `Bitmaps`, `ExfatHeap`, `ExfatMap`, `ExfatExtents`, `ExfatRuns` |
| directories: what replacing blocks of slots does to any listing | `SlotBlocks`, `SlotPlaces` |
| FAT directories: long and short names, the slot reader, insert, remove, growth | `LfnParser`, `FatSlots`, `FatDirShape`, `FatDirectory`, `FatReader`, `ShortNames`, `FatRespell` |
| exFAT directories: entry sets, decoder, append, locate, unlink | `ExfatSets`, `ExfatDirShape`, `ExfatDirectory`, `ExfatRespell` |
| the path engine: a tree, the lock table, and every crash point of each operation | `Paths`, `Handles`, `Trees`, `Crash`, `Volume`, `PathEngine` |
| where the two meet: the engine's room is the room the directories have | `Rooms` |
| FAT geometry | `Geometry` |

Objects whose methods update fields are classes here; their methods are proved against
specification functions, and what the driver promises is proved about those. A file names the
source files it models in its first lines.

Where the code is weaker than its comments, the model follows the code, and the exact condition
is proved:

- A later successful `flush` leaves `VolumeDirty` raised when an earlier attempt to raise it had
  failed half-way (`ExfatVolume.Flush`).
- `allocate_clusters` restores the FAT on `StorageFull` only if it had nothing to link from, the
  link cell already ended a chain, or nothing was free: otherwise that cell becomes an end marker.
- Freeing a FAT chain also frees a bad or reserved cluster the chain leads to; exFAT leaves a bad
  one allocated.
- A failed exFAT growth keeps what it claimed unless the heap was full from the start, and
  linking from the old tail afterwards would cut the chain (`StaleTailOrphans`). Streams are
  therefore modelled over maps whose failed growth changes nothing; FAT's is proved to be one.
- `allocate_extent` on `StorageFull` leaves every clear cluster marked. So does a refused growth of an
  empty or a contiguous exFAT file, whose entry then does not say that it has them; a chained file
  keeps them. Over runs of create, resize and remove nothing else leaks
  (`ExfatRuns.Perform`).
- Storing a link that masks to 0 would leave the allocator's hint above a free cell; no caller does.
- A directory append on `StorageFull` leaves every clear cluster claimed and linked to the
  directory, its listing unchanged.
- Growing a directory over its FAT chain is not crash safe: the link and the allocation share one
  barrier. Create and rename are safe at every crash point exactly when no such growth is needed.
- Every finished operation is durable on both formats: FAT's `commit` is a barrier too
  (`src/fat/vfs.rs`, line 37), although the comment on the trait says that FAT defers.
- A case-only rename has a crash point at which no link to the file is on the device. It unlinks
  before it links, and when there is no room for the new spelling it links the spelling the caller
  used for the old name, not the stored one, and ignores how that ends. On FAT the entry survives
  exactly when one of the two spellings finds a run of slots that are free or its own, or enough free
  clusters: a bare `README.TXT` renamed from `readme.txt` to `Readme.txt` in a full directory that
  cannot grow is lost (`FatRespells.ReadmeLost`). On exFAT the two spellings have one length, and it
  is lost exactly when the respelling fails (`ExfatRespells.NoSecondChance`).
- A long name reads back exactly when no group of 13 units splits a surrogate pair; a name stored
  without long-name slots exactly when it does not end in a dot.
- `locate_entry_set_in` agrees with the listing where every `0x85` slot starts a valid set, and a
  family of directories where it does not is given (`NestedSetMislocated`).
- `fat_type` accepts one record whose highest cluster number saturates, and FAT32 records whose
  clusters reach the bad marker; both conditions are exact.

## Model

| member | source | states |
|---|---|---|
| `Storage.SectorCache.ReadAt` | src/store/cache.rs:130-145 | a successful cached read returns the flat array, whatever is cached, dirty or evicted on the way; the flat array never changes; it fails exactly when an access of the device failed or the range leaves the device |
| `Storage.SectorCache.WriteAt` | src/store/cache.rs:148-166 | the flat array changes at exactly the written bytes; a failure leaves a prefix applied (none within one sector); every moment on the way tracks the flat array; it fails exactly when an access of the device failed or the range leaves the device; what the device holds at each moment is among them |
| `Storage.SectorCache.ReadThrough` | src/store/cache.rs:197-205 | an uncached read returns the flat array too, dirty slots included; it fails exactly when an access of the device failed or the range leaves the device |
| `Storage.SectorCache.WriteThrough` | src/store/cache.rs:208-213 | an uncached write changes exactly its range of the flat array; no stale slot is left behind; it fails exactly when an access of the device failed or the range leaves the device |
| `Storage.SectorCache.SlotIndex` | src/store/cache.rs:99-127 | at most one slot holds a sector; a miss evicts the least recently used slot without changing the flat array, a failed write-back changes nothing |
| `Storage.SectorCache.WriteBack` | src/store/cache.rs:84-94 | writing a slot back leaves the flat array alone and cleans exactly that slot; a failure keeps it dirty |
| `Storage.SectorCache.WritebackOverlap` | src/store/cache.rs:173-194 | after success no overlapping slot is dirty, none is left at all when invalidating; the flat array is unchanged |
| `Storage.SectorCache.Flush` | src/store/cache.rs:216-227 | after a successful flush the device is the flat array |
| `VolumeDirty.ProtocolKept` | src/exfat/mod.rs:351-413 | any run of the cache that stays off the flag byte, or touches protocol bytes only while nothing is missing from the device, keeps: flag clear on the device means device equals flat array but for bytes 106, 107 and 112 |
| `VolumeDirty.Perform` | src/exfat/mod.rs:351-413 | over every run of reads, cached and uncached writes, syncs and flushes, failures and evictions included: at every moment a clear flag on the device means the device is the flat array but for bytes 106, 107 and 112; only the bytes written ever change; every call reads or changes exactly its bytes, the other bits of the flags word stay, and without a device failure none fails |
| `VolumeDirty.WindowOpens` | src/exfat/mod.rs:371-386 | once the raised flag is on the device the dirty window is open and the invariant holds in it |
| `VolumeDirty.OtherBitsKept` | src/exfat/mod.rs:371-398 | raising and lowering change bit 1 of the flags word and keep the other fifteen |
| `VolumeDirty.ExfatVolume.constructor` | src/exfat/mod.rs:282-293 | a volume remembers whether it was mounted dirty; the protocol holds from the start |
| `VolumeDirty.ExfatVolume.EnsureVolumeDirty` | src/exfat/mod.rs:371-386 | after success the word on the device is the mounted word with bit 1 set and no other bit changed, and `PercentInUse` is 0xFF, before anything else is written; failures keep the invariant |
| `VolumeDirty.ExfatVolume.ClearVolumeDirty` | src/exfat/mod.rs:391-398 | lowering needs device and flat array to agree; it puts the mounted word back, bit for bit, and is left out on a volume mounted dirty |
| `VolumeDirty.ExfatVolume.Sync` | src/exfat/mod.rs:402-405 | success makes device and flat array equal and flushes the device itself; every moment of it is safe |
| `VolumeDirty.ExfatVolume.Flush` | src/exfat/mod.rs:409-413 | after success nothing is missing from the device and its flags word is the mounted one again; the flag is up exactly when an earlier failed attempt to raise it left it in the cache |
| `VolumeDirty.ExfatVolume.WriteAt` | src/exfat/mod.rs:351-354 | metadata writes change exactly their bytes of the flat array inside an open dirty window, safe at every moment |
| `VolumeDirty.ExfatVolume.WriteThroughAt` | src/exfat/mod.rs:357-360 | the same for payload writes that bypass the cache |
| `StreamFiles.StreamFile.SeekToCluster` | src/vfs/stream.rs:133-157 | the walk hint ends on the true `nth` cluster of the chain, or is cleared past its end; hints stay true on failure |
| `StreamFiles.StreamFile.ContiguousSpan` | src/vfs/stream.rs:169-192 | the span reported is physically contiguous from the cursor on, as long as the row of adjacent clusters or until the bytes wanted are covered, and the hint is left on its last cluster |
| `StreamFiles.StreamFile.EnsureAllocation` | src/vfs/stream.rs:194-206 | on success the bytes asked for are backed by old clusters followed by formerly free ones, as few as it takes; `StorageFull` exactly when fewer clusters are free than are missing, and then the file is as it was |
| `StreamFiles.StreamFile.ZeroRange` | src/vfs/stream.rs:214-230 | exactly the stream bytes of the range become zero; a failure leaves a prefix zeroed |
| `StreamFiles.StreamFile.Read` | src/vfs/stream.rs:353-386 | yields the next bytes of the file (zeros past the valid length), as many as one device access reaches; 0 only at the end or for an empty buffer; `Io` exactly when an access failed |
| `StreamFiles.StreamFile.Write` | src/vfs/stream.rs:396-452 | a plain write of the bytes counted, as many as one device access reaches, the gap past the end zero-filled; it is refused exactly when the file is read-only, too large for FAT or 64 bits, or fewer clusters are free than are missing; no device byte outside the file's own clusters changes |
| `StreamFiles.StreamFile.SetLen` | src/vfs/stream.rs:270-306 | a plain resize: shrink-then-grow shows zeros; refused exactly when the file is read-only, the size is too large for FAT, or fewer clusters are free than are missing; failures leave the file as it was |
| `StreamFiles.StreamFile.Seek` | src/vfs/stream.rs:472-497 | cursor arithmetic with the exact refusal below 0 and saturation above |
| `StreamFiles.StreamFile.Flush` | src/vfs/stream.rs:249-264 | the entry on the device says exactly the stream's length, valid length, head and contiguity; the data is flushed before the entry is written and the entry before it succeeds |
| `StreamRuns.Step` | src/vfs/stream.rs:270-497 | each stream operation is explained by one step of the plain file |
| `StreamRuns.Perform` | src/vfs/stream.rs:133-497 | every run of reads, writes, seeks and resizes, short counts and failures included, is a run of a growable byte sequence with a cursor; `StorageFull` is answered only where fewer clusters are free than the operation misses, and `Io` exactly when an access failed |
| `StreamRuns.StockKept` | src/vfs/stream.rs:194-306 | no run loses or makes a cluster: those the file does not hold are free |
| `StreamRuns.WritesConcatenate` | src/vfs/stream.rs:396-452 | however the counts fall, a run of successful writes writes the pieces it took end to end |
| `FileSpec.WrittenReads` | src/vfs/stream.rs:396-452 | reading back what was written, nothing else disturbed, the gap zero |
| `FileSpec.WrittenSplit` | src/vfs/stream.rs:396-452 | two writes in a row are one write of both pieces |
| `FileSpec.ShrinkThenGrow` | src/vfs/stream.rs:270-306 | shrinking and growing again shows only zeros past the cut |
| `StreamFiles.ListMap.Extend` | src/vfs/cluster_map.rs:20-41 | what a stream relies on in a growing cluster map: old clusters in place, new ones formerly free, as few as cover the length; it fails exactly when fewer are free than that |
| `StreamFiles.ListMap.FreeTail` | src/vfs/cluster_map.rs:20-41 | what a stream relies on in truncation: a prefix that still covers the length stays, no longer than it takes (one cluster may stay for no bytes), and the rest becomes free |
| `ClusterMaps.AddrInjective` | src/fat/cluster_map.rs:171-178 | distinct stream bytes lie at distinct device addresses |
| `ClusterMaps.AddrExactly` | src/fat/cluster_map.rs:171-178 | byte `i` of a stream lies in cluster `i / size` of its list, cluster 2 at the start of the heap |
| `FatCells.CellRoundTrip` | src/codec/fat/fat_entry.rs:24-66 | what is stored in a cell decodes to what was meant, and FAT32's reserved nibble survives |
| `FatCells.StoredLinkExact` | src/codec/fat/fat_entry.rs:53-66 | a stored link reads back exactly when it names a data cluster of the volume |
| `FatCells.Fat16Cells` | src/codec/fat/fat_entry.rs:53-66 | what each 16-bit value says: 0, the bad marker, the eight end markers, links to data clusters, nothing else |
| `FatCells.Fat32Cells` | src/codec/fat/fat_entry.rs:53-66 | the same of 28 bits, whatever the top four are |
| `FatCells.LittleEndian` | src/fat/sector_io.rs:48-73 | cells are read lowest byte first |
| `FatCells.CellExactly` | src/fat/sector_io.rs:48-73 | where cell `c` of copy `k` lies, in bytes |
| `FatCells.CellsApart` | src/fat/sector_io.rs:48-73 | cells lie in the FAT region and do not overlap, within and across copies |
| `FatCells.MirrorsStayEqual` | src/fat/sector_io.rs:117-163 | copies that agreed still agree after a mirrored write |
| `FatVolumes.FatVolume.ReadFat` | src/fat/sector_io.rs:87-101 | reads the decoded cell of the active copy; out-of-range clusters are corruption |
| `FatVolumes.FatVolume.NextCluster` | src/fat/sector_io.rs:105-113 | a link leads on, every other cell ends the walk |
| `FatVolumes.FatVolume.WriteFat` | src/fat/sector_io.rs:117-163 | exactly one cell of the decoded table changes, in every copy or the active one, reserved bits kept, nothing outside the FAT region; a link is masked first, and to a data cluster it reads back as that link; no free cluster ends up below the hint, exactly unless a link that reads back as free is stored there; FSInfo gives up its free count, its hint never passes a freed cluster, and it will be written back |
| `FatVolumes.FatVolume.NextFreeCluster` | src/fat/sector_io.rs:166-196 | the lowest free cluster of the whole FAT whatever the FSInfo hint says; none exactly when the volume is full; FSInfo then points at it |
| `FatVolumes.FatVolume.AllocateClusters` | src/fat/entry_io.rs:23-60 | the `n` lowest free clusters chained in order after `link_from`; on `StorageFull` the table is restored exactly when there was no `link_from`, its cell already ended a chain, or nothing was free |
| `FatVolumes.FatVolume.FreeClusterChain` | src/fat/entry_io.rs:63-75 | ends on every FAT, cyclic ones included, freeing what the walk frees |
| `FatTables.FreeWalkReaches` | src/fat/entry_io.rs:63-75 | a chain free frees exactly the clusters its start reaches |
| `FatTables.FreeWalkChain` | src/fat/entry_io.rs:63-75 | on a live chain it frees that chain |
| `FatTables.ChainDistinct` | src/fat/cluster_map.rs:38-49 | chains are acyclic |
| `FatTables.OwnedExactly` | src/fat/entry_io.rs:23-75 | a cell is in use exactly when one live chain owns it |
| `FatTables.StepOwned` | src/fat/entry_io.rs:23-75 | allocating, growing, truncating and freeing each keep live chains disjoint and cells owned, and touch no unusable cell |
| `FatTables.RunOwned` | src/fat/entry_io.rs:23-75 | over every run of them: live chains acyclic and disjoint, owning exactly the cells in use, free plus owned clusters conserved |
| `FatRuns.Perform` | src/fat/entry_io.rs:23-75 | over every run of the allocator's own methods, allocating, growing, cutting and freeing any number of chains, a full volume refusing included: the live chains are acyclic and disjoint, own exactly the cells in use, and no cluster is lost or made; every call does to lengths, clusters held and clusters free what its arguments say, refused exactly for lack of free clusters, and FSInfo claims no free count the table has outgrown |
| `FatVolumes.FatClusterMap.Next` | src/fat/cluster_map.rs:58-60 | walks the chain in order |
| `FatVolumes.FatClusterMap.WalkToTail` | src/fat/cluster_map.rs:38-49 | finds the last cluster; the step bound is never hit on a chain |
| `FatVolumes.FatClusterMap.Extend` | src/fat/cluster_map.rs:62-124 | a lawful growth by formerly free clusters linked after the old tail, as few as cover the length; fails exactly when too few are free, and then nothing changes |
| `FatVolumes.FatClusterMap.FreeTail` | src/fat/cluster_map.rs:126-169 | keeps exactly the prefix of clusters that holds the length (at least one) and frees every later one |
| `Bitmaps.FindFreeCluster` | src/exfat/bitmap.rs:64-96 | the windowed scan finds the lowest clear bit of the heap, none only when all are set |
| `Bitmaps.FindFreeContiguousRun` | src/exfat/bitmap.rs:100-143 | the leftmost run of that many clear bits, across byte and window edges; none exactly when there is no such run |
| `Bitmaps.BitAtIs` | src/exfat/bitmap.rs:37-60 | bit `k` of a byte is worth 2 to the `k` |
| `ExfatHeaps.ExfatHeap.ReadFatEntry` | src/exfat/fat_io.rs:15-23 | the classified FAT word |
| `ExfatHeaps.ClassifiedAs` | src/exfat/fat_io.rs:15-23 | which words name data clusters, end a chain, are bad or free |
| `ExfatHeaps.ExfatHeap.MarkAllocated` | src/exfat/bitmap.rs:37-60 | sets the bit of that cluster and no other; a cluster the bitmap has no bit for is `Unsupported` and nothing changes; of the heap, exactly that cluster comes into use |
| `ExfatHeaps.ExfatHeap.MarkFree` | src/exfat/bitmap.rs:157-167 | the same for clearing it |
| `ExfatHeaps.ExfatHeap.FindFreeCluster` | src/exfat/bitmap.rs:64-96 | the lowest cluster not in use |
| `ExfatHeaps.ExfatHeap.FreeChain` | src/exfat/bitmap.rs:171-208 | ends on every FAT with its loop cap never reached; clears the cells and bits of what the start reaches |
| `ExfatHeaps.WalkedReaches` | src/exfat/bitmap.rs:171-208 | on any FAT the clusters freed are exactly those the start reaches, a bad one excepted |
| `ExfatHeaps.WalkedChain` | src/exfat/bitmap.rs:171-208 | on a live chain they are that chain |
| `ExfatMaps.ExfatClusterMap.Next` | src/exfat/cluster_map.rs:81-101 | computed on a contiguous run, read on a chain: the next cluster of the list either way |
| `ExfatMaps.ExfatClusterMap.WalkToTail` | src/exfat/cluster_map.rs:45-56 | finds the last cluster of a chain; its step bound is never hit |
| `ExfatMaps.ExfatClusterMap.MaterializeFatChain` | src/exfat/cluster_map.rs:58-72 | turning a `NoFatChain` run into a chain keeps the cluster list and touches no other cell |
| `ExfatMaps.ExfatClusterMap.Extend` | src/exfat/cluster_map.rs:103-179 | growth appends only clusters whose bit was clear, as few as cover the length; a call that asks for no more than there is changes nothing; it fails exactly when fewer are clear than that, and then the list is unchanged exactly when the heap was full from the start |
| `ExfatMaps.ExfatClusterMap.FreeTail` | src/exfat/cluster_map.rs:181-245 | leaves exactly the prefix that holds the length and clears exactly the dropped bits |
| `ExfatMaps.StaleTailOrphans` | src/exfat/cluster_map.rs:147-173 | linking from an old tail after a half-way growth cuts the chain and leaves its rest allocated outside it |
| `ExfatExtents.AllocateExtent` | src/exfat/create.rs:182-201 | a contiguous extent exactly when one exists (the leftmost), else a chain; fails exactly when fewer clusters are clear, and then all of them stay marked |
| `ExfatRuns.Perform` | src/exfat/cluster_map.rs:103-245 | over every run of the driver's own methods, creating, growing, cutting and removing any number of files, contiguous, chained and empty, a full volume refusing included: the files' cluster lists stay marked, disjoint, contiguous or chained as their entries say, the files and lengths there are follow the calls, and unless a refusal leaked, the bits set are those of the files and those that were nobody's from the start; each call is refused exactly for lack of clear clusters or as impossible, and comes to the lengths, the clusters held and the clusters clear that its arguments say |
| `ExfatRuns.PerformOne` | src/exfat/create.rs:156-201 | how one call ends, exactly by its arguments and the clusters clear; what it leaks: everything that was clear, exactly when it is a creation, or a growth of an empty or contiguous file, refused by a full volume |
| `ExfatRuns.LengthsAfter` | src/exfat/create.rs:156-201 | over a run the lengths are those the calls that were done asked for |
| `ExfatRuns.Open` | src/exfat/open.rs:37-55 | a file opened from its entry has its length in whole clusters allocated, over the same list |
| `ExfatExtents.FindRun` | src/exfat/bitmap.rs:100-143 | the leftmost free run in terms of clusters in use |
| `FatSlots.LfnCodec` | src/codec/fat/lfn.rs:34-57 | a long-name slot decodes to the parts it was made of |
| `FatSlots.VolumeIdBit` | src/fat/direntry/ser_de.rs:167-259 | the volume-label bit is bit 3 of the attributes |
| `FatSlots.FilledReads` | src/fat/direntry/ser_de.rs:53-75 | a NUL-terminated, 0xFFFF-padded piece reads back as the piece |
| `FatSlots.GroupsHold` | src/fat/direntry/ser_de.rs:36-46 | groups of 13 units hold the name and fit 20 slots |
| `FatSlots.ComposeEntry` | src/fat/direntry/ser_de.rs:26-48 | the slot run of an entry: groups highest order first, then the short-name slot |
| `FatSlots.SumStepRotates` | src/codec/fat/sfn_layout.rs:42-50 | one step of the short-name checksum rotates its eight bits right by one and adds the byte |
| `FatSlots.GenChecksum` | src/codec/fat/sfn_layout.rs:42-50 | the loop over the eleven bytes, done on bits, computes the checksum the set carries |
| `FatSlots.ForeignSetSeen` | src/fat/direntry/ser_de.rs:312-322 | a long-name set whose checksum is not that of the short name behind it is passed over: the short name is listed |
| `FatSlots.LongSeen` | src/fat/direntry/ser_de.rs:53-75 | a composed long-name slot is seen by the reader as that group of that set |
| `FatSlots.ItemSeen` | src/fat/direntry/ser_de.rs:26-75 | a composed entry, a deleted slot and a volume label are seen as such |
| `LfnParser.RowReads` | src/fat/direntry/ser_de.rs:167-322 | a whole set reads back as one entry with its extent, leaving nothing pending; skipped slots reset the set |
| `LfnParser.NameSurvives` | src/fat/direntry/ser_de.rs:299-301 | a long name survives exactly when every group of it is UTF-16 by itself |
| `LfnParser.WellFormedExactly` | src/fat/direntry/ser_de.rs:299-301 | units are UTF-16 exactly when every high surrogate has a low one behind it and every low one a high one in front |
| `FatSlots.LongNameRoundTrip` | src/fat/direntry/ser_de.rs:26-48 | a name stored in long-name slots reads back exactly when no group of 13 units splits a surrogate pair |
| `FatSlots.ShortNameRoundTrip` | src/fat/direntry/ser_de.rs:312-322 | a name stored as its own short name reads back exactly when it does not end in a dot |
| `FatDirShape.HoldsLists` | src/fat/direntry/ser_de.rs:143-259 | a directory of composed entries, deleted slots and labels up to an end tail lists exactly its entries, with names, short names and slot extents |
| `FatDirShape.TidyInsert` | src/fat/entry_io.rs:183-194 | an inserted entry is listed under the name it reads back with, at its slots; every other entry is as before; the end tail stays |
| `FatDirShape.TidyRemove` | src/fat/entry_io.rs:197-209 | removing deletes exactly that entry from the listing and keeps the shape |
| `FatDirShape.TidyGrow` | src/fat/entry_io.rs:78-85 | zeroed clusters at the end change nothing that is listed |
| `SlotBlocks.InsertHolds` | src/fat/entry_io.rs:96-194 | writing a block at the start of a maximal free run keeps any directory's shape and adds exactly its entry |
| `SlotBlocks.RemoveHolds` | src/fat/entry_io.rs:197-209 | striking out the slots of an entry keeps the shape and removes exactly that entry |
| `SlotBlocks.UpdateHolds` | src/exfat/dir_io.rs:221-238 | rewriting an entry in place by one of as many slots changes only that entry |
| `SlotBlocks.HoldsReads` | src/fat/direntry/ser_de.rs:143-259 | a reader that handles one block at a time lists exactly what the blocks list |
| `SlotPlaces.StepsThrough` | src/fat/dir_slots.rs:98-124 | each slot position leads to the next across sector and cluster borders, the last to none |
| `SlotPlaces.PlacesApart` | src/fat/dir_slots.rs:56-72 | distinct slots of a directory lie at distinct device offsets |
| `SlotPlaces.SlotExactly` | src/fat/dir_slots.rs:56-72 | where slot `j` of a cluster lies, in bytes |
| `SlotPlaces.WrittenAs` | src/fat/entry_io.rs:164-180 | writing a run of slots changes those slots and nothing else on the device |
| `FatDirectories.FatDirectory.NextSlot` | src/fat/dir_slots.rs:98-124 | the step between positions, reading the FAT at cluster ends |
| `FatDirectories.FatDirectory.NthSlot` | src/fat/dir_slots.rs:127-140 | the position `n` further, none past the end |
| `FatDirectories.ScanFinds` | src/fat/entry_io.rs:96-135 | the scan finds the leftmost run of free slots, starting as far left as it goes, or how the directory ends without one |
| `FatDirectories.FatDirectory.ScanForRoom` | src/fat/entry_io.rs:96-135 | the scan over the device is that scan, capped at 65535 slots |
| `FatDirectories.FatDirectory.Grow` | src/fat/entry_io.rs:137-158 | growing appends exactly the clusters needed, zeroed and chained in order; all or nothing |
| `FatDirectories.FatDirectory.ReserveSlots` | src/fat/entry_io.rs:96-160 | room for the slots in the old or the grown directory; the exact error when there is none, with nothing changed |
| `FatDirectories.FatDirectory.WriteSlotRun` | src/fat/entry_io.rs:164-180 | the slots land at consecutive positions across clusters; the chain never ends short |
| `FatDirectories.FatDirectory.InsertEntry` | src/fat/entry_io.rs:183-194 | the entry's slots are written into the room found; nothing else on the device changes but the clusters added |
| `FatDirectories.InsertedInto` | src/fat/entry_io.rs:183-194 | after an insert, growth included, the listing gains exactly that entry and the directory stays tidy |
| `FatDirectories.FatDirectory.RemoveEntrySet` | src/fat/entry_io.rs:197-209 | exactly the slots of the set are marked deleted |
| `FatDirectories.Removed` | src/fat/entry_io.rs:197-209 | after a removal the listing lacks exactly that entry |
| `FatReaders.FatSlotIter.ConsumeLfn` | src/fat/direntry/ser_de.rs:267-307 | folding a long-name slot into the pending set, orphaning a malformed one |
| `FatReaders.FatSlotIter.Step` | src/fat/direntry/ser_de.rs:167-259 | one slot: what it completes and what is still to come |
| `FatReaders.ReadView` | src/fat/direntry/ser_de.rs:167-259 | what each slot is, by its first byte and attributes: the end, deleted, a long-name slot, a label or an entry |
| `FatReaders.FatSlotIter.Next` | src/fat/direntry/ser_de.rs:143-155 | the iterator yields exactly what the directory lists, in order |
| `FatReaders.ListEntries` | src/fat/directory.rs:153-167 | all the directory lists but `.` and `..`, in order |
| `FatReaders.VisibleExactly` | src/fat/directory.rs:157-161 | exactly the entries named `.` and `..` are left out |
| `FatReaders.Lookup` | src/fat/directory.rs:104-116 | the first listed entry whose name matches, none exactly when none does |
| `FatRespells.RespellEntry` | src/vfs/engine.rs:269-286 | the branch over the FAT directory itself: the respelling succeeds exactly when there is room for the new spelling, the entry survives exactly when there is room for one of the two, where room is a run of slots free before the call or the entry's own, or enough free clusters; every other entry stays listed |
| `FatRespells.RoomExactly` | src/fat/entry_io.rs:96-160 | an insert after the deletion finds room exactly when there is, in terms of the slots before it, and adds exactly the clusters missing |
| `FatRespells.GrowthFits` | src/fat/entry_io.rs:137-158 | there is room exactly when the directory need not grow, or can grow by the clusters that are missing |
| `FatRespells.OwnSlotsSuffice` | src/vfs/engine.rs:269-286 | a spelling that needs no more slots than the entry has always finds room |
| `FatRespells.FullHasNoRoom` | src/vfs/engine.rs:269-286 | in a directory with no free slot that cannot grow, one that needs more finds none |
| `FatRespells.ReadmeLost` | src/vfs/engine.rs:269-286 | a losing input: `README.TXT` in one slot, both spellings in two |
| `FatRespells.ReadmeAlone` | src/fat/sfn.rs:58-90 | a root of one slot that lists exactly that entry |
| `ShortNames.ShortRoundTrip` | src/codec/fat/sfn_layout.rs:52-68 | a name that is its own short name shows as itself exactly when it does not end in a dot |
| `ShortNames.SfnCharExactly` | src/fat/sfn.rs:25-45 | the characters a short name may have |
| `ShortNames.AsSfnExactly` | src/fat/sfn.rs:48-90 | which names are valid short names as they are |
| `ShortNames.StemAndExt` | src/fat/sfn.rs:93-115 | the alias of a name, split at the last dot: upper-cased, with spaces, dots and all beyond ASCII dropped and `_` for what else is not allowed |
| `ShortNames.ComposeShortName` | src/fat/sfn.rs:119-127 | as much of the stem as leaves room for the tail, then the tail, padded with spaces |
| `ShortNames.ComposeInjective` | src/fat/sfn.rs:119-127 | the tail always survives: different tails of one length make different names |
| `ShortNames.HexTailInjective` | src/fat/sfn.rs:176-183 | the 65536 hexadecimal tails are pairwise distinct |
| `ShortNames.SomeHashedFree` | src/fat/sfn.rs:176-188 | fewer than 65536 taken names leave a tagged candidate free |
| `ShortNames.NameHash` | src/fat/sfn.rs:131-137 | FNV-1a folded to 16 bits, byte after byte with wrap-around |
| `ShortNames.IsTaken` | src/fat/sfn.rs:140-150 | whether the directory has that short name |
| `ShortNames.GenSfn` | src/fat/sfn.rs:158-188 | the first candidate not taken, in order: the name itself, `~1` to `~4`, every hexadecimal tail from its tag on; fails exactly when all of those are taken, and then at least 65536 names are |
| `ShortNames.InsertsKeepDistinct` | src/fat/sfn.rs:158-188 | inserts under generated names keep all short names of a directory distinct |
| `ExfatSets.EntrySetChecksum` | src/codec/exfat/entry_set.rs:14-33 | the specification's rotate-and-add over every byte but 2 and 3 computes the checksum sets are stored and accepted under |
| `ExfatSets.SumStepRotates` | src/codec/exfat/entry_set.rs:24-28 | one step of the checksum rotates its sixteen bits right by one and adds the byte |
| `ExfatSets.StreamRoundTrip` | src/codec/exfat/raw_entry.rs:21-62 | a stream extension decodes to the fields it was made of |
| `ExfatSets.NameRoundTrip` | src/codec/exfat/raw_entry.rs:78-98 | a name entry decodes to its 15 units |
| `ExfatSets.SetRoundTrip` | src/codec/exfat/entry_set.rs:41-67 | decoding an encoded set gives it back, whatever follows it |
| `ExfatSets.SetDecoded` | src/codec/exfat/entry_set.rs:41-67 | encoding a decoded set gives its bytes back: count and checksum are forced |
| `ExfatDirShape.NewSetName` | src/codec/exfat/entry_set.rs:73-99 | a new set carries the name it was made with, split over entries of 15 units |
| `ExfatDirShape.NameEntriesPadded` | src/codec/exfat/entry_set.rs:73-99 | the entries of a name have no flags set and nothing but zeros behind the name |
| `ExfatDirShape.HoldsLists` | src/exfat/direntry.rs:86-159 | a stream of valid sets, deleted and metadata entries up to an end tail lists exactly its sets |
| `ExfatDirShape.HiddenSet` | src/exfat/direntry.rs:86-159 | a run of slots that claims to be a set and is none, or has a name that is no UTF-16, lists nothing, and reading goes on behind it |
| `ExfatDirShape.ForeignSumHidden` | src/codec/exfat/entry_set.rs:41-67 | so does a set under a checksum that is not its own |
| `ExfatDirShape.LocateAgrees` | src/exfat/dir_io.rs:243-292 | where every `0x85` slot starts a valid set, locating a name finds the first set the listing yields under it |
| `ExfatDirShape.LocateIsFirst` | src/exfat/dir_io.rs:243-292 | it finds the first entry listed under a matching name, and nothing exactly when there is none |
| `ExfatDirShape.NestedSetMislocated` | src/exfat/dir_io.rs:266-285 | elsewhere it may not: a malformed `0x85` slot that claims the set after it makes that set be found one slot early |
| `ExfatDirShape.TidyAppend` | src/exfat/dir_io.rs:150-216 | a set written at the first end marker is listed in addition; all after it is still end markers |
| `ExfatDirShape.TidyUnlink` | src/exfat/dir_io.rs:314-327 | clearing the in-use bits of a set removes exactly that entry |
| `ExfatDirShape.KilledBit` | src/exfat/dir_io.rs:314-327 | unlinking clears bit 7 of the first byte of a slot and nothing else |
| `ExfatDirShape.TidyUpdate` | src/exfat/dir_io.rs:221-238 | rewriting a set in place changes exactly that entry |
| `ExfatDirectories.ExfatDirectory.CollectClusters` | src/exfat/dir_io.rs:35-58 | the directory's clusters, contiguous or chained; it ends on any FAT and refuses only a walk longer than the volume |
| `ExfatDirectories.ExfatDirectory.ReadStream` | src/exfat/dir_io.rs:63-76 | the clusters' slots concatenated in walk order |
| `ExfatDirectories.ExfatDirectory.LocateInStream` | src/exfat/dir_io.rs:81-96 | the device place of a slot of the stream and how many follow in its cluster; past the end is corruption |
| `ExfatDirectories.ExfatDirectory.WriteStreamAt` | src/exfat/dir_io.rs:100-114 | the slots land on the stream's positions, scattered across clusters |
| `ExfatDirectories.ExfatDirectory.ReadStreamAt` | src/exfat/dir_io.rs:117-132 | reads a stretch of the stream across clusters |
| `ExfatDirectories.ExfatDirectory.FindEnd` | src/exfat/dir_io.rs:161-170 | the first end marker, or the end of the stream |
| `ExfatDirectories.ExfatDirectory.GrowDirectory` | src/exfat/dir_io.rs:176-202 | makes a contiguous directory a chain and appends zeroed, formerly clear clusters; fails exactly when too few are clear |
| `ExfatDirectories.ExfatDirectory.AppendEntrySet` | src/exfat/dir_io.rs:150-216 | the set is written at the first end marker of the stream grown by exactly the clusters missing; otherwise the stream only gained zeroed clusters; no slot outside the directory changes |
| `ExfatDirectories.AppendListed` | src/exfat/dir_io.rs:150-216 | after an append, growth included, the listing gains exactly the new entry and everything after it is end markers |
| `ExfatDirectories.DirEntryDecoder.Next` | src/exfat/direntry.rs:86-110 | the decoder yields exactly what the buffer lists, in order |
| `ExfatDirectories.LocateInBuffer` | src/exfat/dir_io.rs:252-291 | the search loop is that search |
| `ExfatDirectories.ExfatDirectory.LocateEntrySet` | src/exfat/dir_io.rs:243-292 | the search over the directory on the device |
| `ExfatDirectories.ExfatDirectory.UnlinkEntrySet` | src/exfat/dir_io.rs:314-327 | the first set listed under the name, and only that, is gone; with none, `NotFound` and nothing changes |
| `ExfatDirectories.ExfatDirectory.PatchAfterGrowth` | src/exfat/dir_io.rs:221-238 | the parent lists the directory longer by what was added and no longer contiguous; no other entry changes |
| `ExfatDirectories.LengthenedExactly` | src/exfat/dir_io.rs:221-238 | the patch clears `NoFatChain` and no other flag, and both lengths become the allocated one |
| `ExfatRespells.RespellSet` | src/vfs/engine.rs:269-286 | the same branch over the exFAT directory: success exactly when the clear clusters suffice, survival exactly when there is room for the old spelling still; every other entry stays listed |
| `ExfatRespells.GrownAdds` | src/exfat/dir_io.rs:172-202 | what a failed append has put on the directory's chain is room for whatever it would have been enough for |
| `ExfatRespells.SameLength` | src/codec/exfat/entry_set.rs:73-99 | sets for names of one length have as many entries |
| `ExfatRespells.NoSecondChance` | src/vfs/engine.rs:269-286 | so where the new spelling found no room the old one finds none |
| `ExfatRespells.FullLoses` | src/vfs/engine.rs:269-286 | a losing input: no room behind the last set and no clear cluster |
| `Crash.CrashSafeExactly` | src/vfs/engine.rs:57-63 | whatever subset of the writes since the last barrier is on the device, no live entry refers to a free cluster: exactly when every cluster that may be referred to is firmly in use |
| `Crash.GrowthUnsafe` | src/fat/entry_io.rs:137-158 | claiming a cluster and linking it into a live chain with no barrier between can leave the chain leading into a free cluster |
| `Crash.HeldExactly` | src/vfs/engine.rs:239-307 | a link is on every disk a crash may leave exactly when it is durable and no pending write removes it |
| `Mounted.Volume.Grow` | src/fat/entry_io.rs:137-158 | directory growth, its barrier and unwinding: succeeds exactly when the directory may grow and that many clusters are free; every crash point safe or one that is not, exactly by whether a FAT chain is lengthened |
| `Mounted.Volume.Insert` | src/fat/directory.rs:240-299 | linking an entry succeeds exactly when there is room and adds exactly that link and the directory's new clusters; a failure changes no link and gives everything back on FAT, and keeps exactly the clusters that were free on exFAT; on exFAT a directory that grew is contiguous no more |
| `Mounted.Volume.RemoveEntry` | src/vfs/engine.rs:111-136 | unlink before free: the entry and exactly its clusters go |
| `PathEngine.OpenDir` | src/fat/directory.rs:63-96 | path resolution finds the directory exactly when every component leads on |
| `PathEngine.CreateEmptyFile` | src/vfs/engine.rs:70-88 | creates exactly one entry, durably, and succeeds exactly when the path is free in a directory with room; refusals change nothing; safe at every crash point exactly when the directory need not lengthen its FAT chain; the error is the one of the first check that fails |
| `PathEngine.CreateDir` | src/vfs/engine.rs:91-108 | the same for a directory, its cluster durable before its entry; the error is the one of the first check that fails |
| `PathEngine.CreateTwice` | src/exfat/dir_io.rs:172-234 | two creations that each lengthen one directory: the first is safe at every crash point exactly when the directory was contiguous, the second never is, since the first made it a FAT chain |
| `PathEngine.RemoveFile` | src/vfs/engine.rs:111-136 | succeeds exactly for an unlocked writable file; removes exactly it and its clusters, durably; safe at every crash point; a refusal has the error of the first check that fails |
| `PathEngine.RemoveDir` | src/vfs/engine.rs:139-165 | succeeds exactly for an unlocked empty directory other than the root; removes exactly it; crash safe; a refusal has the error of the first check that fails |
| `PathEngine.SubtreeHasReadOnly` | src/vfs/engine.rs:169-182 | whether any file below is read-only; ends on every tree |
| `PathEngine.RemoveTree` | src/vfs/engine.rs:210-234 | ends, removes exactly the subtree and leaks nothing |
| `PathEngine.RemoveDirAll` | src/vfs/engine.rs:187-206 | succeeds exactly when not the root, nothing at or below is open and no file below is read-only; then removes exactly the subtree, crash safe; refusals change nothing; a refusal has the error of the first check that fails |
| `PathEngine.Rename` | src/vfs/engine.rs:239-307 | succeeds exactly when allowed and there is room, durably; a move moves exactly the entry, a failed one changes no link, and at every crash point of either the object is linked under the old or the new name; a respelling changes exactly the spelling, and after a failed one the entry is there exactly when its old name as the caller spells it found room; refusals change nothing; safe at every crash point exactly when the directory need not lengthen its FAT chain; a refusal has the error of the first check that fails |
| `PathEngine.NoRoomLoses` | src/vfs/engine.rs:269-286 | a losing input: both spellings need the directory to grow and it cannot |
| `PathEngine.RespeltFinds` | src/vfs/engine.rs:269-286 | after a respelling every path leads where it did and the entry carries the spelling |
| `PathEngine.OutcomeFinds` | src/vfs/engine.rs:269-286 | the entry is still found exactly when one of the spellings had room |
| `PathEngine.RenameMovesSubtree` | src/vfs/engine.rs:239-307 | a rename moves exactly one subtree: every path below the new name leads where the old one did, none is left below the old, all others unchanged, still a tree |
| `PathEngine.Respell` | src/vfs/engine.rs:273-286 | the case-only branch, on either format: which spelling the entry ends up with, or that it is gone, exactly by the room there is for each; between unlink and relink no link is on the device |
| `Rooms.FatInserts` | src/fat/entry_io.rs:96-160 | the room the engine asks for before linking an entry is the room the FAT directory's insert finds, and the growth it is given is the number of clusters that insert adds |
| `Rooms.FatRoom` | src/vfs/engine.rs:269-286 | the same for both attempts of a respelling, over the slots the entry gives up |
| `Rooms.ExfatRespelt` | src/vfs/engine.rs:269-286 | for both spellings of a name the engine finds room exactly when its entry set does in the exFAT directory, at first and after a failed attempt; the old one never finds room where the new one does not |
| `Trees.MovedWalk` | src/vfs/engine.rs:239-307 | where each path leads after a move |
| `Trees.MovedTree` | src/vfs/engine.rs:239-307 | every directory is still reachable from the root |
| `Trees.MoveDetaches` | src/vfs/engine.rs:243-247 | why moving a directory under itself is refused: nothing would lead to it any more |
| `Trees.CutWalk` | src/vfs/engine.rs:210-234 | cutting a subtree leaves every other path as it was |
| `Trees.PathShort` | src/vfs/engine.rs:210-234 | no path is longer than the tree has entries: the recursion ends |
| `Handles.HandleTable.LockRo` | src/handles.rs:44-58 | shared opens are refused only while a writer holds the key |
| `Handles.HandleTable.LockRw` | src/handles.rs:61-69 | an exclusive open is refused while anyone holds the key |
| `Handles.HandleTable.AnyOpenUnder` | src/handles.rs:74-90 | the range scan that stops early finds every handle at or below the prefix |
| `Handles.HandleTable.ReleaseRo` | src/handles.rs:93-102 | the last reader frees the key |
| `Handles.HandleTable.ReleaseRw` | src/handles.rs:105-108 | the writer frees the key |
| `Handles.CoversExactly` | src/handles.rs:74-90 | on strings of normalized paths, at or below is component-wise prefix |
| `Handles.Perform` | src/handles.rs:44-108 | over every run of the table's own calls by clients that close only what they opened, the handles given out are those of one readers-writer lock a key, and the table says exactly who holds them |
| `Handles.RunTracks` | src/handles.rs:44-108 | over every run the table says exactly who is out and writers are exclusive |
| `Paths.StrictlyUnderExactly` | src/path.rs:26-31 | the string test is proper prefix, component by component |
| `Paths.RenderInjective` | src/path.rs:26-31 | different paths have different strings |
| `Paths.Normalize` | src/path.rs:186-216 | on every path, rooted or not, the push/pop loop resolves `.` and `..`, and the result is rendered with a leading separator exactly for a rooted or empty one |
| `Paths.SepExactly` | src/path.rs:33-35 | both slashes separate components, and nothing else |
| `Paths.NormalizeAgain` | src/path.rs:186-216 | the result has no dots and normalizing again changes nothing |
| `Paths.ComponentsOf` | src/path.rs:505-571 | the iterator yields the components in order, empty ones skipped |
| `Paths.NamesEqual` | src/name.rs:66-76 | names are equal exactly when they fold to the same name |
| `Paths.StrictAncestorExactly` | src/name.rs:124-147 | the folded-string ancestor test is proper prefix of folded components |
| `Geometry.NothingSaturates` | src/codec/fat/bpb.rs:36-122 | a record of a supported type saturates no region; the highest cluster number saturates exactly for the record with data sectors only |
| `Geometry.TypeExactly` | src/codec/fat/bpb.rs:128-137 | which records are FAT16 and which FAT32, by the sectors they declare: 4085 clusters behind everything else, or 65525 |
| `Geometry.DeclaredSectors` | src/codec/fat/bpb.rs:36-42 | a record has the sectors of the count it fills in, the 16-bit one if both |
| `Geometry.ClusterInVolume` | src/fat/fat_types.rs:48-53 | every valid cluster maps to a run of sectors inside the volume |
| `Geometry.ClustersApart` | src/fat/fat_types.rs:48-53 | distinct clusters map to disjoint sectors |
| `Geometry.ClustersCover` | src/fat/fat_types.rs:48-53 | every data sector that whole clusters cover belongs to one valid cluster |
| `Geometry.SectorAddressFits` | src/fat/fat_types.rs:38-40 | byte addresses fit 64 bits |
| `Geometry.Fat16BelowMarkers` | src/codec/fat/bpb.rs:128-137 | on FAT16 no valid cluster number reads as a marker |
| `Geometry.Fat32BelowMarkers` | src/codec/fat/bpb.rs:128-137 | on FAT32 that holds exactly when the record declares few enough sectors |
| `Geometry.Fat32MarkerReached` | src/codec/fat/bpb.rs:128-137 | a record that mounts although its clusters reach past the bad marker |

## Left out

- Storage.SectorCache.WriteAt: a failing device write is modelled as landing or not as a whole run of bytes up to a point; torn sectors are not modelled, and the device never shrinks or grows.
- StreamFiles.ListMap.FreeTail: device errors while a chain is cut are not modelled.
- StreamFiles.ListMap.Extend: may be called only to grow past what is allocated or on an empty stream, as the stream does; device errors while the FAT is extended are not modelled there.
- FatVolumes.FatVolume.AllocateClusters: no I/O error during the table walk; after one the source leaves a claimed cluster behind. The same holds for the other allocator and directory methods.
- FatTables.RunOwned: a refused call is no step of it; runs of the methods themselves, refusals included, are in `FatRuns.Perform`.
- ExfatRuns.Perform: each call opens the file anew from its entry and writes the entry back; a handle kept open past a refused growth keeps a stale tail, which is not in these runs (`ExfatMaps.StaleTailOrphans` shows what it does).
- FatVolumes.FatVolume.WriteFat: takes the FAT region to be large enough for the highest cluster and, on FAT32, that cluster to be below the bad marker, neither of which mounting checks.
- FatDirectories.FatDirectory.WriteSlotRun: the FAT region and the slots of directories are two states; that they lie apart on the device is the geometry's matter (`FatCells.CellsApart`, `Geometry.ClusterInVolume`).
- FatDirectories.FatDirectory.InsertEntry: works on directories whose chain is live; a cyclic chain, which the source stops at 65535 slots, has no listing to speak of.
- FatReaders.FatSlotIter.Next: timestamps, sizes and start clusters are carried as the bytes after the attributes; their decoding is not modelled.
- ExfatDirectories.ExfatDirectory.AppendEntrySet: the barrier between growth and the entry set is in the path engine's crash model, not here; a directory is addressed by slots of 32 bytes, the granularity of everything written to it.
- ExfatDirectories.ExfatDirectory.PatchAfterGrowth: the lengths are taken not to overflow 64 bits.
- Mounted.Volume.Insert: one entry set is one atomic write, and by how many clusters the directory must grow is a parameter, which `Rooms` ties to the directories; object numbers are abstract.
- PathEngine.Rename: the rewrite of a moved FAT directory's `..` entry is not modelled.
- PathEngine.CreateEmptyFile: three refusals of the source are not in the path engine's model, for new entries and for renames: 65536 short names taken (`ShortNames.GenSfn` has it), 65535 slots scanned without room (`FatDirectories.FatDirectory.ReserveSlots` has it), and a name of more than 255 units.
- PathEngine.CreateDir: the `.` and `..` entries of a new FAT directory are not modelled beyond its cluster.
- FatRespells.RespellEntry: the short names of both spellings are given; that generating one may fail is not in it.
- ShortNames.GenSfn: the name's characters and the bytes hashed are two parameters; how UTF-8 relates them is not modelled.
- Paths.NamesEqual: the fold is any character function; the up-case table is not loaded, and Unicode beyond UTF-16 code units is not modelled.
- Paths.ComponentsOf: yields plain components from the front; the root and dot kinds are told apart where paths are normalized, and iterating from the back is not modelled.
- Handles.HandleTable.AnyOpenUnder: the ordered map is a sorted sequence of keys beside a map.
- The device traits, `Partition`, `Volume`, `File` and `ReadDir` dispatch, options, logging and error conversion: thin wrappers.
- Mounting: boot and up-case checksums, FSInfo validation, and volume labels; a well-formed mounted volume is assumed.
- Clocks and timestamps, and dropping a stream without flushing it: no property here depends on them.
- FAT's `patch_sfn_record` and `EntryPatch` on either side: a same-size rewrite of one entry, which the general in-place theorem covers for exFAT sets.
- The `layline` codecs: records are little-endian field layouts with magic and checksum checks.
