# The FAT driver of hdfmonkey, verified

hdfmonkey carries FatFs R0.07e, a driver for FAT12, FAT16 and FAT32 volumes in which everything is indirect: the
allocation table is packed into sectors that pass through a one-sector write-back window and are mirrored, files are
linked chains of clusters under a private buffer, directories are tables of 32-byte entries in which long names take
several of them. This project models that driver in its shipped configuration (512-byte sectors, long names, one
buffer per file, no relative paths) and proves what each layer means to the layer above.

| layer | files | abstract meaning |
|---|---|---|
| sector window | Bytes, Geometry, Volume | a transparent cache of a disk whose FAT copies are equal |
| allocation table | FatTable, Volume | a sequence of numbers, one for each cluster |
| chains | Chains, ChainRuns, Volume | disjoint acyclic lists that are exactly what is in use |
| files | FileBytes, FileModel, FileObject, FileOpen, FileUnlink | a byte sequence with a cursor |
| names | Lfn, ShortName, NumName | segments, 8.3 forms and numbered names |
| directories | DirTable, DirDisk, DirFind, DirModel, DirObject, DirRead, DirRuns, DirMake | a dictionary from names to objects |
| tree | Tree, TreeDisk, TreeFiles, TreeContents, TreeUnlink, TreeOps, TreeFresh | a tree of objects, each with a chain of its own, no cluster in use besides, and what every file holds |
| format and mount | Format, Mkfs, Mount, FreshRoot | a layout that mount reads back and on which all invariants hold |
| formats | OnDisk, EntryFormat | what another reader finds, byte by byte |
| commands | Filling, FillSteps, CopyPlan, CopyTrace, Rebuild, HdfHeader | the unfragmented image; the geometry of an image header |

The mutable objects of the source are classes (`FatFs`, `Fil`, `Dir`), with the fields of FATFS, FIL and DIR; their
methods follow the C functions branch by branch. Long functions are split into one method for each of their parts.
Each method is tied to functions and predicates on values (the logical disk, the abstract table, the byte sequence,
the directory table), about which the lemmas are proved. A volume invariant (`Geometry.Ok`) states what mount does not
check: a cluster size that is a power of two, a root directory of whole sectors, FATs large enough.
`Mount.FreshVolume` proves that f_mkfs establishes it.

## What came out

- **FAT32 that mounts as FAT16.** f_mkfs picks the type from the partition size, mount from the clusters that are left
  (src/ff.c:2846-2852, 1562-1564), and the check between them is commented out (2883-2885).
  `Format.TypeAgreesOutsideBand` gives the exact band of partition lengths, `Format.BandExists` a disk in it. Such a
  volume has no root directory: its table is empty, and every dir_seek in it fails (`FreshRoot.BandHasNoRoot`).
- **The rebuild command can fragment.** Its help text promises an unfragmented image (src/hdfmonkey.c:947). It copies
  in the order of the source directory, and numbered short names are made anew. A source directory that lists "a b",
  "zzz" and "AB~1" breaks the promise on every disk that can be copied to, FAT32 included: in the copy "a b" is given
  the short name AB~1, so f_open finds it for the third file, frees its cluster and starts the search there
  (src/ff.c:1717-1727), and the new file falls into the hole and behind "zzz" (`Rebuild.AccidentFragments`).
  `Rebuild.RebuildExactly` says when the promise fails, from the names and the starting point alone: for some file
  lengths a file comes out in pieces exactly if a name finds a file that was copied before and is not the one copied
  last, or if mount left last_clust inside an empty FAT12 or FAT16 volume and a file is created before directories
  have filled the volume from there on. Mount sets last_clust only from an FSInfo sector, so on FAT12 and FAT16 it
  keeps whatever the object held (src/ff.c:1574-1587).
- **Long names at the limit.** create_name admits 255 characters. An object with a name of 254 or 255 characters is
  listed by its short name: ls prints a name as it was given exactly if it fits 8.3 or has at most 253 characters
  (`DirRead.ShownAsGiven`). One of 255 characters is registered, and never found by that name again
  (`DirTable.RegisterKeeps`, `Lfn.LongestIsNeverAccepted`).
- **A listing can stop early.** f_readdir reports the end of a directory by an empty short name, so the ls command
  stops at an object whose short name begins with a blank, if a table has one (`DirRead.ListDir`).
- **Orphaned long names.** An object found by its short name is removed without the entries of its long name
  (src/ff.c:879-880, 1071). `FileUnlink.Unlink` leaves whole objects exactly if the object has no long name or was
  looked for by it; `CopyPlan.AccidentalOrphan` is a table in which "AB~1" removes "a b".
- **The 4GB rule.** f_write refuses a write when size plus length reaches 4GB, also one that would not grow the file
  (src/ff.c:1889).
- **A buffer on a freed cluster.** f_truncate leaves a dirty private buffer in place, possibly on the sector of a
  cluster it has just freed. `Fil` allows for this: the buffer may lie in any cluster that is free or the file's own.

## How the model reads the code

- Masks, shifts and ors are written as division, remainder and sum; `x & ~(bcs - 1)` and `& (csize - 1)` as rounding
  and remainder, which they are for a cluster size that is a power of two. DWORD is 32 bits wide (src/integer.h), and
  wrap-around is written out where it can occur.
- Sector reads and writes inside the drive succeed. Branches that report a disk error, and ABORT branches that the
  invariants exclude (an entry 1, a chain that ends too early), are left out of the methods, the exclusion being part
  of the proof.
- The block size of the drive is 1 (src/diskio.c), which makes the alignment step of f_mkfs void. Time stamps, the
  volume serial number and the label are parameters.
- A file may use the clusters that are free or its own (`dom`). The frame of every file operation says that no sector
  and no table entry of any other cluster changes, so invariants of other files carry over.
  `FileModel.FileKeepsOwned`, `DirModel.TableKeepsOwned` and `DirMake.MkdirKeepsOwned` draw the conclusion: after
  every operation on a file or a directory the live chains are again acyclic, disjoint and exactly what is in use. An
  exact free count stays exact (`FatFs.Exact`).
- Every operation that takes clusters says which: the allocation table changes by a run of single growths at the end
  of its chain (`ChainRuns.GrownTo`), each of which is the step `Created` of create_chain. `ChainRuns.GrowthIsRun` and
  `FillSteps` turn that into the steps of `ChainRuns.RunKeeps` and the events of `Filling`; `DirRuns.RegisterIsRun`
  does the same for names.
- On top of this stands one invariant of the whole volume, `TreeDisk.Sound`: every directory's table is where its
  entry says and well formed; the first clusters of the live chains are the root directory's and those that the
  entries name, each named once; and every directory is one level below the one with its entry. An open file counts by
  the cluster in its file object until f_sync writes the entry. The dot entries of every directory name it and the
  directory that holds its entry. `TreeOps` calls the operations under this invariant and gets it back.
- With it goes what every file that is not open holds (`TreeContents.Known`): as many bytes of its chain as its entry
  says. Each operation in `TreeOps` says what becomes of all of them. f_close adds what the file object held, f_open
  for reading gives back exactly that, and nothing else changes the contents of a file but f_open and f_unlink of that
  file.
- `OnDisk` and `EntryFormat` say once more, without the functions of the driver, what is at which byte: partition
  table, boot sector, FSInfo, FAT entries, directory entries, long names and their checksum, and which characters are
  what. They are what a reader that knows only the format relies on.
- What a copy does is a list of events in order (`Filling.Event`): a new directory, a table stretched by a cluster, a
  new file, a file written again. `CopyPlan.CopyDir` computes it from the names; how long files are stays open. The
  plan chooses the short names that dir_register chooses and finds the objects that dir_find finds
  (`CopyPlan.FormsAgree`, `HitsAgree`). `CopyTrace.Copies` is a relation between a source tree and a list of events
  that says which events belong to which item; the plan meets it, and every list that does makes one directory for
  each folder and writes once for each file, if the copy does not end early.
- Names are ASCII. For the comparison of long names the case fold is any function that maps only 0 to 0.
- Search, registration and removal are proved on tables made of whole objects, as this code builds them
  (`DirTable.Laid`).
- After the last write of f_mkdir the window need not show its sector. The method that models this part loads the
  parent's first sector, the one dir_register asks for next, so that the usual window invariant holds again.

## Model

| member | source | states |
|---|---|---|
| Bytes.StLdWord | src/ff.h:589-591 | a 16-bit field reads back as stored, modulo 2^16, and no other byte changes |
| Bytes.StLdDword | src/ff.h:590-592 | the same for a 32-bit field |
| Bytes.HasWordLoads | src/ff.h:589 | bytes stored as a 16-bit field load as that value |
| Bytes.HasDwordLoads | src/ff.h:590 | bytes stored as a 32-bit field load as that value |
| Bytes.PutWord | src/ff.h:591 | ST_WORD in place |
| Bytes.PutDword | src/ff.h:592 | ST_DWORD in place |
| Geometry.ClustersApart | src/ff.c:537-545 | the sector ranges that clust2sect gives for two clusters lie in the data area, do not overlap, and end inside the drive |
| Geometry.StoreKeepsMirrors | src/ff.c:264-274 | writing a sector back with its mirrors keeps all FAT copies equal, sector for sector, for any number of copies |
| Geometry.StoreElsewhere | src/ff.c:264-274 | mirroring touches nothing outside the FAT area, and in the first copy only the sector itself |
| Geometry.FatAreaHolds | src/ff.c:1550-1570 | the first FAT copy lies inside the FAT area, that before the data area, that inside the drive |
| Geometry.ClusterInRange | src/ff.c:537-545 | the sectors of a cluster in range lie in the data area |
| Geometry.RoundDown | src/ff.c:2135-2137 | masking an offset with the cluster size gives the start of its cluster |
| FatTable.PutGetAt | src/ff.c:387-422 | for all three types an entry reads back as stored, cut to 12, 16 or 28 bits, and every other entry is unchanged, FAT12 neighbours that share a byte included |
| FatTable.PutBytewise | src/ff.c:393-405 | the two separate byte edits of a FAT12 entry are one edit of the table, whichever sectors the bytes are in |
| FatTable.PutUpdates | src/ff.c:387-422 | put_fat on the packed bytes is the update of one element of the abstract table of get_fat answers |
| FatTable.StoreFatSector | src/ff.c:261-275 | a FAT sector written back with its mirrors is one splice of the table bytes and leaves the rest of the disk alone |
| FatTable.MaskKeeps | src/ff.c:512-517 | the end mark 0x0FFFFFFF cut to the entry width is still an end value, and a cluster number survives the cut |
| FatTable.EntryFits | src/ff.c:346-361 | every byte that get_fat computes for a cluster below max_clust is inside one FAT copy |
| FatTable.Neighbours12 | src/ff.c:348-353 | two FAT12 entries share a byte only as an even one followed by its odd neighbour |
| Volume.FatFs.constructor | src/ff.c:1573-1590 | the state a mount leaves: nothing dirty, nothing cached, the logical disk is the disk |
| Volume.FatFs.WriteMirrors | src/ff.c:268-274 | the mirroring loop yields exactly the disk with the sector in every FAT copy |
| Volume.FatFs.MoveWindow | src/ff.c:253-285 | the window is a transparent cache: the logical disk never changes, a clean volume has equal FAT copies, and the window shows the sector asked for |
| Volume.FatFs.Sync | src/ff.c:295-322 | everything dirty is on the disk afterwards, and on FAT32 the FSInfo sector carries the current numbers when they had changed |
| Volume.FatFs.GetFat12 | src/ff.c:348-353 | a FAT12 entry whose bytes may be in two sectors, the window moving in between, is the entry of the table |
| Volume.FatFs.GetFat | src/ff.c:333-365 | 1 for a cluster out of range, else the entry of the abstract table; the logical disk is unchanged |
| Volume.FatFs.PutFat12 | src/ff.c:393-405 | the two byte edits through the window are one entry update of the table, in every copy |
| Volume.FatFs.PutFat | src/ff.c:375-429 | changes exactly one entry of the abstract table, cut to its width, and nothing outside the FAT area; rejects other clusters |
| Volume.FatFs.FindFree | src/ff.c:498-510 | the scan loop ends on every table and from every start point, with the first free cluster in cyclic order, 0, or 1 |
| Volume.FatFs.CreateChain | src/ff.c:478-526 | create_chain on the volume is the abstract allocation step: follow, reject, or mark and link one cluster and update the hints |
| Volume.FatFs.RemoveChain | src/ff.c:437-468 | remove_chain ends on every table, frees what the abstract cut frees, raises the free count by that number, and reports an entry 1 |
| Volume.FatFs.CountBySector | src/ff.c:2358-2378 | the raw scan from entry 0 over sectors counts the zero entries of the whole table |
| Volume.SameCount | src/ff.c:2350-2378 | with the two reserved entries in use the scan by entry and the raw scan count the same clusters |
| Volume.FatFs.GetFree | src/ff.c:2325-2383 | f_getfree: the remembered count if it can be one, else a scan; FR_INT_ERR exactly for a FAT12 scan that meets an entry 1; the number of free clusters, on all three types, if a remembered count is exact and the reserved entries are in use |
| Volume.FatFs.LoadSector | src/ff.c:277-281 | the read half of move_window |
| Volume.FatFs.WriteBack | src/ff.c:264-275 | the write-back half of move_window with its mirrors makes disk and logical disk equal |
| Volume.FatFs.GetFat16 | src/ff.c:355-357 | a FAT16 entry through the window, its offset computed from a cluster number cut to 16 bits |
| Volume.FatFs.GetFat32 | src/ff.c:359-361 | a FAT32 entry through the window, without its top four bits |
| Volume.FatFs.PutFat16 | src/ff.c:407-411 | the FAT16 store is one entry update |
| Volume.FatFs.PutFat32 | src/ff.c:413-417 | the FAT32 store is one entry update |
| Volume.FatFs.MarkAndLink | src/ff.c:512-517 | the new cluster ends its chain, and the old end links to it |
| Volume.FatFs.CountByEntry | src/ff.c:2350-2357 | the FAT12 scan counts the zero entries, or fails exactly if it meets an entry 1 |
| Volume.FatFs.ScanEntry | src/ff.c:2363-2376 | one pass of the raw scan looks at exactly the next entry |
| Volume.FatFs.Clust2Sect | src/ff.c:537-545 | the sector of a cluster in range, else 0, DWORD wrap-around included |
| Volume.FatFs.ClearCluster | src/ff.c:636-645 | all sectors of the cluster are cleared on the disk, and the window is on its first one |
| Volume.FatFs.InitCluster | src/ff.c:2524-2546 | the dot entries in the first sector of the cluster, zeros in the others |
| Volume.FatFs.ReadSectors | src/ff.c:1815 | a direct read delivers the logical sectors, though the window may be dirty |
| Volume.FatFs.WriteSectors | src/ff.c:1925 | a direct write changes those sectors of the logical disk and keeps the FAT copies equal |
| Chains.ScanFindsFree | src/ff.c:498-510 | without entries 1 the scan fails exactly when no cluster is free, and its outcome (first free cluster in cyclic order) is unique |
| Chains.CutFreesReachable | src/ff.c:446-464 | on every table, cyclic and cross-linked ones included, remove_chain zeroes exactly the clusters reachable from the start and nothing else |
| ChainRuns.EndedIsAcyclic | src/ff.c:446-464 | links that come to an end value never meet a cluster twice |
| ChainRuns.CutChain | src/ff.c:446-464 | on the head of a chain remove_chain frees its clusters and no other |
| ChainRuns.CreatedKeepsCount | src/ff.c:519-523 | a known free count stays exact over every allocation, from every start point |
| ChainRuns.CutRaisesCount | src/ff.c:457-461 | a removal raises the count of zero entries by exactly the clusters it frees, on every table |
| ChainRuns.OwnedHasNoOnes | src/ff.c:485-509 | while every used entry belongs to a live chain no entry is 1, so no internal error arises |
| ChainRuns.StepKeeps | src/ff.c:446-526 | one allocation, stretch, removal or truncation keeps the volume invariant |
| ChainRuns.RunKeeps | src/ff.c:446-526 | over every run of these steps the used entries are exactly the disjoint union of the live chains, each acyclic and ended, and the free count is exact if known |
| ChainRuns.TruncateLeavesPrefix | src/ff.c:2408-2424 | the table change that Fil.Truncate ensures leaves exactly a prefix of the chain, frees the rest and touches no other entry |
| ChainRuns.StretchKeeps | src/ff.c:514-517 | a stretch at the tail keeps chains acyclic, disjoint and exactly what is in use |
| ChainRuns.RemoveKeeps | src/ff.c:446-464 | a removal keeps them so |
| ChainRuns.TruncateKeeps | src/ff.c:2419-2422 | a cut behind a cluster keeps them so |
| ChainRuns.GrowthIsRun | src/ff.c:478-526 | a chain that grew cluster by cluster, as f_write, f_lseek and dir_next make it grow, is a run of stretches of that chain |
| ChainRuns.StartIsRun | src/ff.c:478-526 | and if it was empty, a run that begins with an allocation |
| FileBytes.BytesPut | src/ff.c:542-544 | overwriting one sector of one cluster of a chain overwrites that piece of the chain's bytes |
| FileBytes.BytesPutRun | src/ff.c:1921-1926 | a direct multi-sector write is one splice of the chain's bytes |
| FileModel.GrowChain | src/ff.c:478-526 | create_chain at the end of a file's chain takes a cluster that was free, appends it, and leaves all other chains alone; it fails only on a full volume |
| FileModel.RunRead | src/ff.c:1811-1825 | a direct multi-sector read with the dirty private buffer put in is that stretch of the file |
| FileModel.BufferEdited | src/ff.c:1948-1966 | a partial write into a buffer that was not filled at the growing edge is right up to the end of what was written |
| FileModel.UpdatedTwice | src/ff.c:1891-1968 | two passes of the write loop, one behind the other, are one write |
| FileModel.ReadTwice | src/ff.c:1797-1853 | two passes of the read loop are one read |
| FileModel.StretchOutcome | src/ff.c:1895-1901 | create_chain on any cluster of a file: the next one, or one new one at the end, by a single growth of the chain |
| FileModel.ClustersForPosition | src/ff.c:2408-2424 | the clusters up to a position are its ceiling in clusters |
| FileModel.TruncateOwns | src/ff.c:2419-2422 | the cut leaves a prefix of the chain, the rest free and other chains alone |
| FileModel.SameForFile | src/ff.c:1994-2014 | disks that agree on FAT and own sectors show the same file |
| FileModel.PartKeepsOwned | src/ff.c:437-526 | an operation within some of the live chains and the free clusters leaves the live chains acyclic, disjoint and exactly what is in use, the new chains in place of the old ones |
| FileModel.FileKeepsOwned | src/ff.c:437-526 | so does every operation on an open file: its invariant before and after and the frame it ensures are enough |
| FileObject.Fil.constructor | src/ff.c:1752-1761 | a freshly opened file satisfies the file invariant |
| FileObject.Fil.NextCluster | src/ff.c:1894-1906 | at a cluster boundary f_write goes on with the next cluster of the chain or takes exactly one new one, or the volume is full |
| FileObject.Fil.WriteDirect | src/ff.c:1921-1940 | a direct write replaces exactly those bytes, with the private buffer refreshed if it was among them |
| FileObject.Fil.WriteBuffered | src/ff.c:1957-1967 | a buffered write replaces exactly those bytes of the current sector |
| FileObject.Fil.WriteStep | src/ff.c:1893-1967 | one pass of the write loop |
| FileObject.Fil.Write | src/ff.c:1868-1974 | f_write replaces exactly the bytes from fptr on and keeps every other one; short only when no cluster is free, or nothing at all when size plus length reaches 4GB; nothing of other files changes; the chain grows at its end, one create_chain step for each cluster, to exactly the clusters that the new position needs, each of which was free |
| FileObject.Fil.ReadStep | src/ff.c:1799-1852 | one pass of the read loop |
| FileObject.Fil.Read | src/ff.c:1773-1855 | f_read delivers exactly the bytes from fptr on, as many as asked for or left, and changes no content |
| FileObject.Fil.SeekClusters | src/ff.c:2153-2168 | the cluster-following loop of f_lseek lands in the right cluster, stretching in write mode |
| FileObject.Fil.Lseek | src/ff.c:2112-2201 | f_lseek moves to the offset, clipped to the size in read mode; in write mode the file grows as far as clusters go and keeps what it held; the chain grows step by step to exactly the clusters that the position needs, each of which was free |
| FileObject.Fil.SyncFile | src/ff.c:1983-2020 | f_sync puts buffer, directory entry, window and FSInfo on the disk; a reader finds size, start cluster, time and archive bit in the entry of a written file, and every other byte of its sector as it was; no content and no other sector changes, those before the FATs included |
| FileObject.Fil.Truncate | src/ff.c:2393-2428 | f_truncate cuts the content at fptr, keeps exactly the first ceil(fptr / cluster size) clusters and frees the others; the table is cut behind the last one kept, and an exact free count stays exact |
| FileObject.Fil.Flush | src/ff.c:1832-1836 | writing the private buffer back changes no byte of the file |
| FileObject.Fil.NextForRead | src/ff.c:1800-1807 | at a cluster boundary f_read follows the chain |
| FileObject.Fil.NextForWrite | src/ff.c:1894-1910 | at a cluster boundary f_write follows or stretches the chain, or finds the volume full |
| FileObject.Fil.LoadForWrite | src/ff.c:1948-1955 | the buffer is filled unless the sector is past the end of the file |
| FileObject.Fil.WriteWhole | src/ff.c:1918-1940 | whole sectors within one cluster, replaced exactly |
| FileObject.Fil.WriteAll | src/ff.c:1891-1968 | the loop of f_write |
| FileObject.Fil.ReadRun | src/ff.c:1815-1825 | a direct read with the dirty sector among those read replaced |
| FileObject.Fil.ReadWhole | src/ff.c:1811-1828 | whole sectors within one cluster, delivered exactly |
| FileObject.Fil.LoadForRead | src/ff.c:1830-1843 | the buffer shows the current sector |
| FileObject.Fil.ReadPart | src/ff.c:1844-1852 | part of the current sector, delivered exactly |
| FileObject.Fil.SeekNext | src/ff.c:2153-2168 | one pass of the cluster following loop |
| FileObject.Fil.SeekStart | src/ff.c:2132-2151 | start from the current cluster or from the first one, created if there is none |
| FileObject.Fil.SeekTo | src/ff.c:2131-2178 | the position reached, and the sector it is within |
| FileObject.Fil.SeekOn | src/ff.c:2152-2177 | from the start of a cluster on: the position reached, and the chain stretched as far as that needs |
| FileObject.Fil.SeekWithin | src/ff.c:2131-2197 | f_lseek once the offset is clipped: size and the written flag as well |
| FileObject.Fil.SeekLoad | src/ff.c:2179-2192 | the sector of a position within it is brought into the buffer |
| FileObject.Fil.SyncEntry | src/ff.c:2004-2014 | the entry loads as size, start cluster and time, with the archive bit set; its name, its other attributes, its time of creation and all other entries of the sector stay |
| FileObject.Fil.EnteredIs | src/ff.c:2005-2012 | the stores of f_sync, taken together, are what a reader loads from the fields |
| FileObject.Fil.RemoveAll | src/ff.c:2411-2413 | truncation at the start frees the whole chain |
| FileObject.Fil.CutRest | src/ff.c:2414-2422 | truncation further on frees what is behind the current cluster |
| FileObject.Fil.Release | src/ff.c:2411-2423 | the chain half of f_truncate: which clusters go, and how the table is cut |
| FileObject.Fil.WriteOn | src/ff.c:1891-1974 | f_write once its checks are passed |
| FileObject.Fil.ReadDirect | src/ff.c:1811-1828 | whole sectors delivered and the position moved |
| FileObject.Fil.FillBuffer | src/ff.c:1838-1843 | the current sector brought into a clean buffer |
| FileOpen.Overwrite | src/ff.c:1717-1731 | f_open on a file to be overwritten: the entry loses cluster and size, its clusters and no others are freed, and the next search starts in front of the first of them |
| FileOpen.CutKeepsTable | src/ff.c:1725-1728 | removing the chain of a file leaves the directory's table as it is |
| FileOpen.ResetEntry | src/ff.c:1733-1738 | the last stores into the entry: attribute and creation time |
| FileOpen.Replace | src/ff.c:1711-1739 | f_open on an object that exists: refused for a directory or a read-only file, with nothing changed; else the table stays well formed with an entry that names no cluster |
| FileOpen.Create | src/ff.c:1704-1709 | f_open on a name that does not exist: an object of that name with an empty entry, or the table at most stretched |
| FileOpen.OpenEntry | src/ff.c:1697-1739 | the directory work of f_open in create-always mode: which of the two cases it is, exactly, and what changes on the disk and in the allocation table |
| FileOpen.EmptyFile | src/ff.c:1752-1763 | the file object on that entry: an empty file that may use the free clusters, to be synchronised |
| FileOpen.OpenFile | src/ff.c:1675-1763 | f_open in create-always mode as a whole: an empty file, or the reason why not and nothing lost |
| FileOpen.OpenExisting | src/ff.c:1742-1763 | f_open without a create mode: FR_NO_FILE for a directory, FR_DENIED for writing to a read-only file, else a file object with chain and size of the entry |
| FileUnlink.CheckEmpty | src/ff.c:2464-2473 | the test whether a subdirectory is empty: FR_NO_FILE exactly if no object stands behind its first two entries |
| FileUnlink.Discard | src/ff.c:2475-2480 | dir_remove, remove_chain and sync: the object is gone, its clusters and no others are free, nothing else has changed |
| FileUnlink.UnlinkFound | src/ff.c:2457-2482 | f_unlink of an object: refused exactly for read-only objects, directories in use and directories without a table |
| FileUnlink.Unlink | src/ff.c:2437-2483 | f_unlink: the answer for every object and for a name that finds none; unless it succeeds nothing changes; the table is whole afterwards if and only if the object has no long name or was looked for by it |
| Format.PickClusterSize | src/ff.c:2835-2839 | the table walk yields the cluster size of its row |
| Format.LayoutBounds | src/ff.c:2828-2882 | bounds on every layout that automatic parameters give, for every disk size |
| Format.ParseAgrees | src/ff.c:1544-1570 | mount re-derives FAT start, FAT size, cluster size, root size, data start and cluster count from the boot sector, for every accepted size |
| Format.TypeAgrees | src/ff.c:2881-2885 | mount re-derives the formatted type except where fewer than 0xFFF5 clusters are left of a FAT32 layout, which the disabled check would have rejected |
| Format.TypeAgreesOutsideBand | src/ff.c:1558-1564 | the same in terms of the partition length: the types agree exactly outside one band of sizes |
| Format.BandExists | src/ff.c:2882-2885 | a disk of 4193663 sectors is formatted as FAT32 with 65508 clusters and mounted as FAT16 |
| Format.LayoutIsSafe | src/ff.c:2855-2882 | for every disk f_mkfs accepts, in the band as well: each FAT copy has room for every entry below max_clust, and FATs, root directory and clusters follow one another inside the partition |
| Format.ManyClusters | src/ff.c:2828-2882 | every volume has more than a thousand clusters, and a static root directory 32 sectors |
| Format.BootSays | src/ff.c:2917-2967 | the boot sector carries the layout |
| Format.ClusterCount | src/ff.c:2846-2882 | how many clusters the FATs and directories leave of a partition |
| Format.FatHasRoom | src/ff.c:2856-2868 | the FAT size formulas leave room for every entry |
| Mkfs.Plan | src/ff.c:2828-2882 | the layout computation, step by step, gives the layout that mount is proved to read back |
| Mkfs.WriteFats | src/ff.c:2970-2988 | the FAT areas: head sector and zeros in each copy |
| Mkfs.FormatDisk | src/ff.c:2790-3009 | every sector of the disk after f_mkfs, serial number, label and type text included; `OnDisk.DiskReads` says what a reader finds there |
| Mkfs.WriteZeros | src/ff.c:2991-2995 | the cleared root directory |
| OnDisk.DiskReads | src/ff.c:2891-3006 | partition table, boot sector, FSInfo and FATs of a formatted disk agree: the partition starts at the hidden sectors and is as long as the total sector count, the copies equal the originals, the first FAT byte is the media byte |
| OnDisk.MbrReads | src/ff.c:2891-2916 | sector 0 describes one partition: start and length, type 0x0C exactly for FAT32 and else 0x04 or 0x06 by length, start and end in cylinders and heads, and no other |
| OnDisk.BootReads | src/ff.c:2919-2967 | the boot sector, field by field |
| OnDisk.FsInfoReads | src/ff.c:2998-3006 | the FSInfo sector: three signatures, free count and last cluster |
| OnDisk.FatHeadReads | src/ff.c:2970-2982 | the reserved entries of a fresh FAT |
| OnDisk.LayoutReads | src/ff.c:2828-2882 | where the areas lie, for every disk; the FATs are as short as they can be for the clusters they might have to hold |
| OnDisk.LoadsLittleEndian | src/ff.h:589-590 | the loads of the driver are little-endian |
| OnDisk.EntriesRead | src/ff.c:346-361 | FAT12 entries are packed two into three bytes, FAT16 and FAT32 entries are fields of 16 and 28 bits |
| OnDisk.EntriesWritten | src/ff.c:407-417 | what put_fat stores of a FAT16 or FAT32 entry, the top four bits included |
| OnDisk.CheckReads | src/ff.c:1453-1463 | check_fs accepts exactly a sector with the boot signature and "FAT" at one of two places |
| OnDisk.BootFoundReads | src/ff.c:1533-1545 | a mount finds the boot record in sector 0 or where the first partition begins, and nowhere else |
| OnDisk.GeometryReads | src/ff.c:1547-1579 | the areas of any volume whose boot sector leaves room for them: FATs behind the reserved sectors, the root directory behind these, and then as many clusters as fit |
| OnDisk.HintsRead | src/ff.c:1573-1587 | the hints of the FSInfo sector count exactly if its three signatures are there |
| Mount.MountDisk | src/ff.c:1533-1596 | chk_mounted finds the boot record, derives the geometry and takes the hints, or says why not |
| Mount.ReadBoot | src/ff.c:1533-1545 | on every drive: FR_DISK_ERR exactly if the partition table points beyond the drive, FR_NO_FILESYSTEM exactly if there is no boot record, else where it is |
| Mount.FreshTable | src/ff.c:2970-2988 | the table of a fresh volume: all clusters free but the FAT32 root, reserved entries in use |
| Mount.FreshMirrors | src/ff.c:2970-2988 | the FAT copies of a fresh volume are equal |
| Mount.FreshVolume | src/ff.c:2790-3009 | format then mount, for every disk outside the band: same layout and type, volume invariant, fresh table, allocation invariant with only the root directory in use |
| Mount.FormatAndMount | src/ff.c:2790-3009 | f_mkfs and a mount give a volume on which all operations of this model apply |
| Mount.BootFound | src/ff.c:1534-1546 | mount finds the boot sector where f_mkfs put it, through the partition table or not |
| Mount.FreshHints | src/ff.c:1574-1587 | on a fresh FAT32 volume the exact free count and no start point; else an unknown count and the old start point |
| Mount.FreshOwned | src/ff.c:2970-3006 | a fresh table meets the allocation invariant |
| FreshRoot.RootIsEmpty | src/ff.c:2990-2995 | after format and mount the root directory is where dir_seek looks for it, well formed, and holds no name |
| FreshRoot.BandHasNoRoot | src/ff.c:555-593 | a volume in the band has an empty root table |
| Rebuild.RebuildExactly | src/hdfmonkey.c:889-904 | for every disk outside the band and every source directory: some file lengths leave a file in pieces exactly if a name finds an earlier file other than the last one copied, or a stale last_clust lies inside an empty FAT12 or FAT16 volume and a file comes early enough; the events of the copy are those of the source tree, every level of it |
| Rebuild.CopyExactly | src/hdfmonkey.c:719-818 | the same for any fresh table and starting point |
| Rebuild.CopyIsFaithful | src/hdfmonkey.c:719-818 | a copy to a fresh volume that does not end early makes as many directories as the source tree has folders, and writes once for each of its files, over all levels |
| Rebuild.AccidentFragments | src/hdfmonkey.c:786 | on every disk outside the band, FAT32 included, copying "a b", "zzz", "AB~1" can leave a file in two pieces |
| CopyPlan.CopyIsPlanned | src/hdfmonkey.c:741-818 | the events of a copy name only directories and files that exist by then |
| CopyPlan.HitsAgree | src/ff.c:840-893 | the plan finds an object exactly where dir_find does, in a table that it mirrors |
| CopyPlan.FormsAgree | src/ff.c:975-985 | the plan gives the short name that dir_register gives, the least number that is free |
| CopyPlan.RegisterMirrors | src/ff.c:994-1048 | after a registration the plan mirrors the table again |
| CopyPlan.RegisterAgrees | src/ff.c:958-1050 | what dir_register ensures on success is what the plan does: same short name, same number of clusters, and a mirror again |
| CopyPlan.NoRoomAgrees | src/ff.c:994-1010 | where dir_register finds no room the plan has none, after the same stretch |
| CopyPlan.NumbersRunOut | src/ff.c:975-985 | where all 99 numbers are taken the plan gives no short name |
| CopyPlan.SetMirrors | src/ff.c:1733-1739 | setting the fields of an entry keeps the mirror |
| CopyPlan.RootMirrors | src/ff.c:2990-2995 | the plan starts with the fresh root directory |
| CopyPlan.NewDirMirrors | src/ff.c:2524-2546 | the plan's new directory is the table that f_mkdir writes |
| CopyPlan.StretchMirrors | src/ff.c:636-645 | a stretched table is still mirrored |
| CopyPlan.AccidentalOverwrite | src/hdfmonkey.c:786 | the copy of "a b", "zzz", "AB~1" creates two files and then overwrites the first |
| CopyPlan.AccidentalOrphan | src/ff.c:1070-1071 | a well-formed table in which "AB~1" finds "a b" by its short name only, so that its removal leaves no well-formed table |
| CopyTrace.PlanCopies | src/hdfmonkey.c:719-818 | the plan meets the relation between a source tree and its events: one event for a file, behind those that stretch the table; for a folder the new directory, the stretches, and then the contents of the folder as one stretch; where a name finds something or there is no room, the end |
| CopyTrace.CopyCounts | src/hdfmonkey.c:741-818 | every list of events in that relation that does not end early has one new directory for each folder and one file written for each file, over all levels |
| Filling.ScanYieldsNext | src/ff.c:486-510 | with one stretch of free clusters the scan yields its first one from exactly these start points |
| Filling.HappensKeeps | src/ff.c:478-526 | one event that overwrites no file but the last keeps the free clusters in one stretch and all files in one piece |
| Filling.RunIsUnfragmented | src/hdfmonkey.c:741-818 | over every copy that overwrites no file but the one written just before, whatever the file lengths and however tables stretch, no file is in pieces |
| Filling.OverwriteFragments | src/ff.c:1717-1727 | any other overwriting can leave the file in two pieces, whatever else is copied |
| Filling.UnfragmentedExactly | src/ff.c:486-526 | onto one stretch of free clusters, from a good starting point: some file lengths fragment if and only if an earlier file other than the last one is overwritten |
| Filling.EarlyFileFragments | src/ff.c:486-510 | from a starting point inside an empty volume an early file can run to the end of the volume and fall into its start |
| Filling.InsideStartExactly | src/ff.c:486-526 | from such a starting point: fragmented if and only if a file is created early enough or an earlier one is overwritten |
| Filling.WrittenAnew | src/ff.c:1717-1727 | overwriting a file by one of the same length gives it the same clusters again |
| FillSteps.GrowthIsEvents | src/ff.c:632-645 | the growth that Dir.Reserve ensures is that many events of a stretched table |
| FillSteps.MkdirIsEvents | src/ff.c:2492-2562 | the table change that Mkdir ensures is the event of a new directory, and the stretches of the parent |
| FillSteps.MkdirInRoot | src/ff.c:2492-2562 | the same in a static root directory |
| FillSteps.WriteIsEvent | src/ff.c:1891-1968 | the growth that Fil.Write ensures is what the event of a file does, on a full volume as well |
| FillSteps.NewFileIsEvent | src/hdfmonkey.c:786-811 | a file created and written is the event of a new file |
| FillSteps.AgainIsEvent | src/ff.c:1717-1731 | a file emptied by f_open and written again is the event of an overwriting |
| HdfHeader.FindDivisor | src/image_file.c:191-199 | the count-down loop finds the largest divisor |
| HdfHeader.DescribesExactly | src/image_file.c:185-207 | either 16383/16/63, or at most 16384 cylinders, 1-16 heads, 1-63 sectors whose product is exactly the sector count |
| HdfHeader.FactorsExact | src/image_file.c:191-200 | the factorisation is exact and unique |
| HdfHeader.WriteHeader | src/image_file.c:174-231 | a reader of the header finds that geometry, the low 32 bits of the count, the model number and the data offset, and zeros elsewhere |
| HdfHeader.GeometryWords | src/image_file.c:208-228 | the geometry is in words 1, 3 and 6 of the identity block |
| HdfHeader.SignatureSpells | src/image_file.c:166 | the signature "RS-IDE", the version and the offset of the data |
| HdfHeader.ModelSpells | src/image_file.c:170-172 | "Created by hdfmonkey", the characters of each pair swapped |
| HdfHeader.Factorise | src/image_file.c:185-207 | the factorisation or the large-disk values |
| HdfHeader.FieldBytes | src/image_file.c:180-228 | the header bytes, filled in place |
| Lfn.FitLfn | src/ff.c:738-763 | one segment of a name in an entry, with terminator, padding and last mark |
| Lfn.StoreName | src/ff.c:987-1022 | the entries of a whole name, ceil(L/13) of them, last first |
| Lfn.PickLfn | src/ff.c:705-733 | one segment picked up again, and exactly when the buffer bound rejects it |
| Lfn.CmpLfn | src/ff.c:674-699 | one segment is accepted exactly when its characters match, case folded, with the length check on the last one |
| Lfn.AllAccept | src/ff.c:674-699 | for stored names of up to 254 characters all entries are accepted exactly when the names are equal up to case, 13-character boundaries and stale buffer tails included |
| Lfn.LongestIsNeverAccepted | src/ff.c:690-693 | a stored name of 255 characters is never accepted |
| Lfn.SumSfn | src/ff.c:820-829 | the checksum loop |
| Lfn.AcceptedIsSame | src/ff.c:674-699 | names all of whose segments are accepted are equal up to case |
| Lfn.SameIsAccepted | src/ff.c:674-699 | equal names are accepted in every segment |
| ShortName.CreateName | src/ff.c:1107-1236 | rejects exactly the unacceptable segments, and else gives the stripped name, its directory form and the last flag |
| ShortName.FormIs | src/ff.c:1173-1222 | the short form of every name: first 8 kept characters before the last dot, first 3 behind it, blank padded |
| ShortName.LossExactly | src/ff.c:1173-1222 | the lossy flag is set exactly for the names that do not fit 8.3 |
| ShortName.FormFolds | src/ff.c:1173-1222 | names that differ only in case have the same short form and lose the same |
| ShortName.FormIsShort | src/ff.c:1173-1222 | a short form starts with neither a free mark nor a dot and holds only short-name characters |
| ShortName.PrintParsed | src/ff.c:1322-1356 | a name accepted without the long-name flag is printed back, character for character, from its short form and case flags |
| ShortName.PrintName | src/ff.c:1331-1350 | the printing loops |
| ShortName.CopySegment | src/ff.c:1123-1145 | the characters of a path segment, or its rejection |
| ShortName.StripName | src/ff.c:1157-1163 | trailing blanks and dots stripped |
| ShortName.MakeForm | src/ff.c:1167-1232 | the conversion loop and the flags |
| ShortName.StepFaithful | src/ff.c:1174-1220 | as long as nothing is lost the characters seen are in place and the case flags right |
| NumName.GenNumName | src/ff.c:774-809 | gen_numname, for every name: prefix of the source body, tilde, number, blanks, extension unchanged; the number is the sequence number up to 5, and from 6 on digits whose decimal value is the hash |
| NumName.SequenceNumber | src/ff.c:787-808 | the sequence numbers 1 to 5 give a tilde and exactly that digit |
| NumName.SequenceDistinct | src/ff.c:787-808 | and five different names |
| NumName.HashNumberGiven | src/ff.c:787-808 | from 6 on the digits have the hash as their decimal value, computed character by character from the sequence number |
| NumName.NumberGiven | src/ff.c:774-809 | both together, for every sequence number |
| NumName.DigitsValue | src/ff.c:791-796 | the digits of a number have it as their decimal value, high digit first |
| NumName.NumberedInjective | src/ff.c:785-808 | different numbers give different names, for every source name |
| NumName.HashNumber | src/ff.c:787-789 | the hash of the long name in WORD arithmetic |
| NumName.ToDigits | src/ff.c:791-796 | the itoa loop |
| NumName.Append | src/ff.c:806-808 | the number appended and the body padded |
| DirTable.AtMostOne | src/ff.c:840-893 | in a well-formed table a name matches at most one object, by long or short form |
| DirTable.RegisterLaid | src/ff.c:994-1048 | a first-fit registration keeps the table made of whole objects, with zeros behind the first zero entry |
| DirTable.RegisterKeeps | src/ff.c:958-1050 | the new name is found from then on, in every case, and every earlier name still is, at its old index |
| DirTable.StretchKeeps | src/ff.c:636-645 | stretching by zero entries keeps everything |
| DirTable.UpdateKeeps | src/ff.c:1733-1739 | setting attribute, time, cluster or size fields keeps everything |
| DirTable.RemoveKeeps | src/ff.c:1062-1082 | a removal from the first entry of the object on: the name is gone however it is looked for, all others stay found |
| DirTable.RemoveLeavesOrphans | src/ff.c:1070-1071 | a removal that starts at the short entry of an object with a long name leaves no well-formed table |
| EntryFormat.AttributesRead | src/ff.h:507-514 | which bit of the attribute byte makes an object read-only, a directory, a volume label or none that f_open may overwrite |
| EntryFormat.BlankReads | src/ff.c:1001-1006 | an entry is free if its first byte is 0 or 0xE5 |
| EntryFormat.FieldsRead | src/ff.h:558-567 | where name, start cluster and size are |
| EntryFormat.ShortEntryReads | src/ff.c:1039-1047 | the entry that dir_register writes: name, case flags and nothing else |
| EntryFormat.DirectoryEntryReads | src/ff.c:2553-2557 | what f_mkdir sets in it |
| EntryFormat.CreatedReads | src/ff.c:1733-1737 | what f_open sets in the entry of a file it creates |
| EntryFormat.EmptiedReads | src/ff.c:1718-1720 | and in that of a file it empties |
| EntryFormat.DotEntryReads | src/ff.c:2524-2541 | a dot entry |
| EntryFormat.TableSize | src/ff.c:603-658 | a table has at most 2 megabytes of entries |
| EntryFormat.DirectoryIsFile | src/ff.c:576-592 | the entries of a chained table are the bytes of its clusters, 32 at a time, as those of a file are |
| EntryFormat.LongEntryReads | src/ff.c:670 | the 13 offsets of the characters, the number, the mark of the last entry, the checksum and the padding |
| EntryFormat.ChecksumSteps | src/ff.c:820-829 | the checksum begins with 0 and is turned right by a bit before each byte is added, first byte first |
| EntryFormat.ChecksumDetects | src/ff.c:820-829 | short names that differ in one character have different checksums |
| EntryFormat.FoldReads | src/ff.c:674-699 | two ASCII characters compare equal exactly if they are the same or the two cases of one letter |
| EntryFormat.CharactersRead | src/ff.c:1122-1216 | the characters that names must not hold, that short names replace, and that end segments and names |
| EntryFormat.StrippedReads | src/ff.c:1158-1162 | trailing blanks and dots, and no others, are cut off a segment |
| EntryFormat.AcceptableReads | src/ff.c:1122-1163 | create_name accepts exactly the segments of at most 255 allowed characters that are not all blanks and dots |
| DirDisk.SectorAt | src/ff.c:576-586 | where the sectors of a chained table are |
| DirDisk.StoreEntry | src/ff.c:1039-1047 | a store into the sector of an entry changes that entry and no other |
| DirDisk.TableStretch | src/ff.c:636-645 | a cleared cluster at the end is a stretch by zero entries |
| DirFind.LongStepTracks | src/ff.c:869-876 | the order counts down as long as all segments so far were accepted |
| DirFind.LongMatch | src/ff.c:878 | at the short entry the order is 0 with the right checksum exactly when the long name matches |
| DirFind.Look | src/ff.c:861-888 | one entry in dir_find: found exactly if the object of this entry matches |
| DirFind.AnswerIsIt | src/ff.c:840-893 | a search for a name that matches an object gives that object |
| DirFind.RemoveDone | src/ff.c:1070-1082 | a removal keeps whole objects exactly when it started at the first entry of its object |
| DirFind.BlankStep | src/ff.c:864-865 | a deleted entry ends every sequence |
| DirFind.LookLong | src/ff.c:867-876 | an entry of a long name in dir_find |
| DirFind.RoomStep | src/ff.c:1000-1006 | the count of blank entries restarts at every used one |
| DirFind.RegisteredNow | src/ff.c:1012-1047 | the stored long name and the short entry behind it make one object |
| DirFind.EntryPrints | src/ff.c:1039-1047 | such a name is printed back from the short entry that dir_register stores for it |
| DirFind.RemoveStartsFirst | src/ff.c:879-880 | the removal starts at the first entry of its object if and only if the object has no long name or the name looked for is that one |
| DirFind.KthCollision | src/ff.c:975-985 | where objects have the forms with ~1 to ~(k - 1) and none that with ~k, dir_register gives ~k, for k up to 5 |
| DirModel.NextCluster | src/ff.c:624-650 | where the next cluster begins, and that the chain ends exactly where the table does |
| DirModel.PointsInChain | src/ff.c:576-586 | the position that following the chain leads to |
| DirModel.NextInCluster | src/ff.c:616-624 | the next sector within a cluster |
| DirModel.StretchedTable | src/ff.c:632-645 | allocation and clearing together stretch the table and change nothing else |
| DirModel.TableGrows | src/ff.c:632-634 | the table gains a cluster that was free, or no cluster is free |
| DirModel.TableKeepsOwned | src/ff.c:632-645 | after every operation on a directory table the live chains are acyclic, disjoint and exactly what is in use |
| DirObject.Dir.Seek | src/ff.c:555-593 | dir_seek succeeds exactly for the indices inside the table and points at that entry |
| DirObject.Dir.Next | src/ff.c:603-658 | dir_next points at the next entry, reports the end (also at index 65535), or stretches the table by exactly one cleared cluster, which create_chain took |
| DirObject.Dir.SeekByStepping | src/ff.c:603-658 | stepping from entry 0 succeeds for exactly the same indices as seeking, and comes to the same position |
| DirObject.Dir.Find | src/ff.c:840-893 | dir_find gives the first object that matches and the index of its long name, or that there is none |
| DirObject.Dir.PickNumber | src/ff.c:975-985 | the numbered name has the least number from 1 to 99 that gives a short name no object has, written as gen_numname writes it, or all 99 are taken |
| DirObject.Dir.Reserve | src/ff.c:994-1010 | the first run of blank entries of the length asked for; the table is stretched by exactly the clusters that its last entry needs; FR_NO_FILE only if a full table has no such run |
| DirObject.Dir.NextRoom | src/ff.c:1001-1007 | one pass of the loop that looks for room, with the stretch that it may need |
| DirObject.Dir.Register | src/ff.c:958-1050 | dir_register: the object is added in the first room there is, after exactly the stretch that this needs; well-formedness is kept, the name is found in every case if it has at most 254 characters, and all others as before; denied only if all numbers are taken or no cluster is free; nothing else on the disk changes |
| DirObject.Dir.Remove | src/ff.c:1062-1082 | dir_remove: the name is gone and all others are found as before exactly when the object was found by its long name or has none |
| DirObject.Dir.Examine | src/ff.c:860-890 | one pass of the loop of dir_find |
| DirObject.Dir.TryNumber | src/ff.c:977-981 | one pass of the numbering loop |
| DirObject.Dir.RegisterAs | src/ff.c:987-1050 | the same once the short name is chosen |
| DirObject.Dir.Follow | src/ff.c:576-584 | the chain-following loop of dir_seek |
| DirObject.Dir.Stretch | src/ff.c:632-645 | one create_chain step at the end of the chain and the cluster cleared, or a full volume |
| DirObject.Dir.NextLink | src/ff.c:625-650 | the step to the next cluster |
| DirObject.Dir.StoreLong | src/ff.c:1012-1022 | the entries of the long name are stored where the search found room |
| DirObject.Dir.WriteObject | src/ff.c:1012-1047 | long name and short entry in the reserved entries make one object |
| DirObject.Dir.ChooseForm | src/ff.c:970-985 | the form to register: the name's own, or numbered, and in no use |
| DirRead.LongReads | src/ff.c:923-930 | the state of dir_read at an entry of a long name: order, checksum, index and the part of the name in the buffer |
| DirRead.ReadLong | src/ff.c:923-930 | that step, order and checksum test around pick_lfn included |
| DirRead.ShortReads | src/ff.c:931-934 | at the short entry the order is 0 with the right checksum exactly if the object has a long name of at most 253 characters that was read from its start; the buffer holds it then |
| DirRead.ReadOne | src/ff.c:914-936 | one entry in dir_read: stops exactly at the objects other than dot entries |
| DirRead.Read | src/ff.c:901-948 | dir_read: the next object with its long name, on every table of whole objects and from every entry, or the end exactly if there is none |
| DirRead.FileInfo | src/ff.c:1321-1380 | get_fileinfo: the short name with its case flags, and the long name if it fits the caller's buffer |
| DirRead.ReadDir | src/ff.c:2252-2284 | f_readdir: the names of the next object, and the position behind it |
| DirRead.ListDir | src/hdfmonkey.c:485-506 | ls prints every object up to where it stops, once and in order |
| DirRead.ShownAsGiven | src/hdfmonkey.c:500-504 | the name that ls prints is the one the object was registered with if and only if that fits 8.3 or has at most 253 characters |
| DirRead.FileShown | src/ff.c:1704-1739 | ls prints the name of a file that f_open has just created as it was given, if and only if it fits 8.3 or has at most 253 characters |
| DirRead.DirectoryShown | src/ff.c:2492-2562 | the same of a directory that f_mkdir has just made |
| DirRuns.RunKeepsNames | src/ff.c:958-1082 | over every run of registrations, updates, removals and stretches the table stays well formed and every name not removed stays found at its index |
| DirRuns.ShortsDiffer | src/ff.c:975-985 | no two live short entries ever share their 11 bytes |
| DirRuns.ObjectsAreShorts | src/ff.c:865-880 | the objects of a well-formed table are exactly its live short entries |
| DirRuns.StepKeepsNames | src/ff.c:958-1082 | one directory operation keeps the table well formed and all other names found |
| DirRuns.RegisterIsRun | src/ff.c:958-1050 | the change that dir_register ensures is a run of at most a stretch and then one addition, so the run theorem applies to it |
| DirRuns.DotsAreGood | src/ff.c:2524-2533 | a table of dot entries and zeros is well formed |
| DirMake.MakeTable | src/ff.c:2514-2546 | the new table cluster: dot entries that lead to it and to the parent, and zeros, a chain of its own, in no sector of the parent; nothing else changes |
| DirMake.AllocateTable | src/ff.c:2514-2518 | the cluster for the new table by one create_chain step, or none free and nothing changed |
| DirMake.NewTableIsGood | src/ff.c:2524-2546 | the table of a new directory is well formed, and no name matches anything in it |
| DirMake.Mkdir | src/ff.c:2492-2562 | f_mkdir of a name that was not found: a table of its own and an entry in the parent that leads to it, or all names as they were and no cluster lost; the clusters it takes are one create_chain step for the new table and then exactly those that the parent's table needs; either way no sector and no table entry of any other file or directory changes |
| DirMake.InitMakesTable | src/ff.c:2524-2546 | the cluster as written is the table of a new directory |
| DirMake.NewTableStays | src/ff.c:2549-2561 | changes of the parent's table leave the new one alone |
| DirMake.GiveBack | src/ff.c:2550-2551 | the new cluster is freed again |
| DirMake.FillEntry | src/ff.c:2553-2557 | attribute, time and cluster of the new entry |
| DirMake.MkdirEntry | src/ff.c:2548-2556 | the registered entry, filled in, is a directory of that name and cluster in a well-formed table |
| DirMake.Undo | src/ff.c:2549-2550 | the failing half: the cluster is given back, and nothing but the parent's table has changed |
| DirMake.Complete | src/ff.c:2551-2559 | the succeeding half: the entry is filled in and everything is on the disk |
| DirMake.MkdirKeepsOwned | src/ff.c:2514-2562 | after f_mkdir the live chains are acyclic, disjoint and exactly what is in use, the new table among them |
| Tree.StepKeepsTree | src/ff.c:1675-2562 | one operation keeps the tree linked: every chain but the root's is named by exactly one object, every directory by one entry a level higher |
| Tree.RunKeepsTree | src/ff.c:1675-2562 | so does every run of operations, with files open in between |
| Tree.NothingLost | src/ff.c:437-526 | in a linked tree a cluster begins a live chain exactly if the root directory or exactly one object names it |
| Tree.ReachedFromRoot | src/ff.c:1417-1434 | every directory is reached from the root through the directories that hold its entries |
| Tree.StepOwners | src/ff.c:1675-2562 | no operation gives a directory another parent; a new one has the directory of its entry |
| TreeDisk.MkdirSound | src/ff.c:2492-2562 | the disk that Mkdir ensures is a sound volume again: tables, chains and tree agree, and the dot entries of the new directory name it and its parent |
| TreeDisk.MadeDirJoins | src/ff.c:2548-2556 | the parent's table has one directory entry more and is otherwise as it was |
| TreeDisk.HousedStays | src/ff.c:478-526 | a directory none of whose clusters an operation touched is where and what it was |
| TreeDisk.DotsAfter | src/ff.c:2524-2541 | over every operation the dot entries of all directories keep naming them and their parents |
| TreeDisk.DotsLead | src/ff.c:2524-2541 | on a sound volume "." of every subdirectory names it, and ".." the directory with the entry that names it, 0 exactly if that is the root |
| TreeFiles.SameHead | src/ff.c:446-464 | two chains with the same first cluster are the same |
| TreeFiles.NoLostCluster | src/ff.c:437-526 | on a sound volume without open files every cluster in use is in a chain that begins where the root directory does or where an entry says |
| TreeFiles.NoCrossLink | src/ff.c:437-526 | and no cluster is in the chains of two entries |
| TreeFiles.TableOpSound | src/ff.c:437-1082 | an operation on one directory that frees at most one chain keeps the volume sound |
| TreeFiles.NewFileSound | src/ff.c:1704-1739 | f_open that creates a file keeps a sound volume sound |
| TreeFiles.OverwriteSound | src/ff.c:1717-1739 | f_open that overwrites a file keeps a sound volume sound, with the clusters of the old content free |
| TreeFiles.LongerSound | src/ff.c:632-645 | an operation that fails and leaves a directory's table stretched keeps a sound volume sound |
| TreeFiles.FileOpSound | src/ff.c:1868-2428 | f_write, f_lseek and f_truncate keep a sound volume sound; in the tree at most a first cluster comes or goes |
| TreeFiles.RecordedEntry | src/ff.c:2005-2012 | what f_sync records in the sector is one entry changed: same name, same kind, same time of creation, and the cluster and the size of the file |
| TreeFiles.SyncSound | src/ff.c:1983-2020 | f_sync keeps a sound volume sound, and the entry names chain and size then |
| TreeContents.StoredStays | src/ff.c:437-526 | a file none of whose clusters an operation touched holds what it held |
| TreeContents.FilesStay | src/ff.c:437-526 | an operation on one directory or on the chain of one object leaves the contents of all other files as they are |
| TreeContents.TableOpFiles | src/ff.c:958-1082 | so does every operation on a directory that frees at most one chain |
| TreeContents.MkdirFiles | src/ff.c:2492-2562 | and f_mkdir |
| TreeContents.FileOpFiles | src/ff.c:1868-2428 | and f_write, f_lseek and f_truncate of another file |
| TreeContents.SyncFiles | src/ff.c:1983-2020 | and f_sync of another file |
| TreeContents.FiledAfter | src/ff.c:1675-2483 | what is known of the contents after one operation: a new or emptied file holds nothing, a closed one what its file object held, the others what they held |
| TreeContents.EntryHolds | src/ff.c:1757-1758 | the content that is known of a file is the first DIR_FileSize bytes of the chain that begins at DIR_FstClus of its entry on the disk |
| TreeUnlink.DropSound | src/ff.c:2457-2482 | f_unlink of a file keeps a sound volume sound |
| TreeUnlink.DropDirSound | src/ff.c:2464-2482 | f_unlink of an empty directory keeps a sound volume sound |
| TreeOps.MakeDirectory | src/ff.c:2492-2562 | f_mkdir on a sound volume leaves it sound, and the contents of all files as they were; the tree makes the step of a new directory, or none if it fails; the new one names itself and its parent, 0 exactly if that is the root, given by 0 or, on FAT32, by its cluster |
| TreeOps.OpenAlways | src/ff.c:1675-1763 | f_open in create-always mode leaves a sound volume sound; the tree makes the steps of a file created or emptied, and opened; the file is empty, and all others hold what they held |
| TreeOps.OpenToRead | src/ff.c:1742-1763 | f_open without a create mode: the answer for every name; the file object holds exactly what is known of the file, as f_close left it or as it was found |
| TreeOps.ParentIs | src/ff.c:2535-2539 | the cluster that f_mkdir stores into ".." is that of the directory, and 0 for the root directory, by whichever of its two numbers it is given |
| TreeOps.WriteFile | src/ff.c:1868-1974 | f_write leaves a sound volume sound and all other files as they were; the file object still stands for its object |
| TreeOps.SeekFile | src/ff.c:2112-2201 | f_lseek leaves a sound volume sound and all other files as they were; the file object still stands for its object |
| TreeOps.ReadFile | src/ff.c:1773-1855 | f_read leaves a sound volume sound and delivers the bytes of the content from fptr on |
| TreeOps.TruncateFile | src/ff.c:2393-2428 | f_truncate leaves a sound volume sound and all other files as they were; the chain is gone from the tree exactly if nothing of the file is left |
| TreeOps.SyncOpen | src/ff.c:1983-2020 | f_sync leaves a sound volume sound, with an entry that names the chain of the file and its size |
| TreeOps.CloseFile | src/ff.c:2031-2047 | f_close leaves a sound volume sound, the file open no more; what the file object held is what its entry and its chain hold from then on, and all other files hold what they held |
| TreeOps.UnlinkObject | src/ff.c:2437-2483 | f_unlink leaves a sound volume sound, without the object and with all other files as they were, unless that was found by its short name only and has a long one; where it fails nothing changes |
| TreeFresh.FormatSound | src/ff.c:2790-3009 | f_mkfs and a mount give a sound volume with an empty root directory and no files, for every disk outside the band |

## Left out

- Host files, drives and `src/diskio.c` beyond "sector n of a sequence"; command parsing and messages.
- Disk errors, write protection, and several handles open on one file. Files may be open side by side in the tree; a
  file object itself takes the free clusters as they were when it was opened (`dom`), so its own contracts are about
  one file in use at a time.
- Path following, f_opendir, f_stat, f_chmod and f_utime: they combine the modelled parts, or only set fields.
- f_rename, which hdfmonkey does not use.
- The modes FA_OPEN_ALWAYS and FA_CREATE_NEW of f_open, which hdfmonkey does not use.
- The fields of a listing other than names.
- Code pages and names outside ASCII.
- f_mkfs with a forced cluster size or type, for which agreement with mount is not promised.
- Disabled configurations: tiny buffer, double-byte characters, no long names, relative paths, string functions,
  reentrancy.
- Tables with entries this code does not write (orphaned long names, volume labels) in search, listing, registration
  and removal.
- TreeOps.UnlinkObject: promises no sound volume where a file with a long name is removed by its short name, because
  entries of the long name are left behind then (`DirTable.RemoveLeavesOrphans`).
- Mount.MountDisk: requires of a boot record that its geometry meets the volume invariant, which mount does not check;
  `Mount.ReadBoot` says what is found on every drive, and f_mkfs establishes the invariant.
- Rebuild.RebuildExactly: the direction from an overwritten file to a fragmented one asks for room for three clusters
  beside those of the directories. A file on a full volume gets no second piece, and with two clusters left it takes
  further overwritings in a certain order. The other direction needs no room.
- CopyPlan.CopyDir: when f_mkdir fails behind its allocation, the copy ends, and the plan does not say that the
  cluster is given back (`DirMake.Undo` does).
- DirObject.Dir.SeekByStepping: models the comparison of the two ways, which no function of the source makes.
- Mkfs.FormatDisk: the disk is a value that the method updates, and the window, which f_mkfs uses as scratch memory,
  is not modelled there.
