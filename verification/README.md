# Verified model of the disk-writing core

The imager writes operating system images to removable drives. This project models the code that touches the drive, in
the layers the program has, and proves what the layers promise each other.

* **FAT stack.** `BlockDevice` is the raw device, whose accesses may fail and whose failed writes may be torn.
  `DeviceWrapper` is the write-back cache of 4096-byte blocks in front of it; its abstract value is a flat view of bytes.
  `Partition` is a bounds-checked cursor over one window of that view; its abstract value is the byte sequence `image`.
  `FatPartition` is the FAT12/16/32 code on top; its abstract value is the volume `Abs(image)` (tables, root directory,
  clusters) with a layout (entries, chains), and `FileMap` reads that as a map from names to contents. Methods follow the
  source statement by statement and are proved against functions of the abstract values.
* **Formatting.** The geometry arithmetic, the bytes of every structure, and the proof that what the formatter writes
  mounts in the FAT code and is a well-formed volume there.
* **Writing an image.** A state machine of the extraction thread, at most one hash task, and asynchronous writes that
  land and complete in any order; whole runs of it; the configuration step and the withheld first chunk; the synchronous
  path that skips zero blocks, and verification.
* **Cache file.** A state machine of the download and the writer thread of `AsyncCacheWriter`.

`WellFormed(g, v, l)` is the invariant of a volume: all copies of the table agree; every live entry has a chain that is
duplicate-free, linked, ended by an end mark and as long as the size needs; no cluster is on two chains, the FAT32 root
directory included; no chain uses a free entry or leaves the partition; free entries can be allocated (their 32-bit byte
offset does not wrap); the directory lists the entries up to an end marker or the end of its space; short names are
unique. An exception of the source is an out-parameter `ok` that is false. What is not tied to `ok` holds also then, so
that `Valid()` in every contract below means that nothing outside the partition changed, errors included.
`Dependable()` says that the device does not fail; contracts that conclude `ok` from it say when the code succeeds.
Results about files need a well-formed volume. Isolation does not: `Clients.Drive` states it for any code that reaches a
partition through its cursor, and `EveConfigurators.Apply` for the configuration step on any partition content. That the
FAT code is such a client on volumes that are not well formed is a remark, from reading it, and not a proof.

## What the code does not keep

Where the natural statement is false of the code, the code is modelled as it is, and a lemma says exactly when it holds.

* Shortening a file on FAT12 to a non-zero length does not cut its chain: the end mark is written four bytes wide at
  another place (`ShrinkChain`, `WideMarkMisses`).
* A path does not write into its directory: the directory must exist, and then the file of that name in the root
  directory is written (`FatPartition.WriteFile`).
* Creating a file in a fixed root directory succeeds exactly when a short name is free and its fragments, its entry and an
  end marker fit; without room the start of cluster 2 is overwritten before it fails (`GetDirEntry`).
* The reserved bits of a FAT32 entry spread from one copy of the table to the next: a copy keeps its own exactly when they
  contain those of every copy before it (`ReservedIsKept`), and the copies agree afterwards exactly when none had a bit
  that neither the value nor the first copy has (`CopiesAgree`).
* A fixed root directory is placed by the 16-bit field for the size of a table alone: a FAT12 or FAT16 volume that uses the
  32-bit field has it on top of its tables (`FixedLayout`).
* The recorded free count stays right for as long as it is not zero: taking a cluster at zero turns it into the mark for
  an unknown count (`AllocationIsExact`, `CountRunsOut`). Giving clusters back keeps it unless the sum leaves its 32 bits
  (`CutIsExact`).
* A volume formatted with 66581 to 66599 sectors or at least 132106 is FAT32 to the FAT code, other sizes are not
  (`Fat32Sizes`); the table can be too small for the last clusters (`TableCanMissEntries`). Its last entries can be
  allocated without wrapping exactly below 8388634 sectors (`TailAddressable`).
* The partition table and the file system get different sector counts on most devices of two terabytes and more
  (`SectorCountsAgree`), and a partition of four gigabytes or more does not read back from the table (`MbrRoundTrip`).
* The ring counts free slots without knowing which they are. When a write is overtaken by later ones, its slot is handed
  out while the write still reads it: for every ring and every image in which the two chunks differ, a run without any
  failure ends with a wrong device and the right hash (`OutOfOrderCorrupts`). It is harmless only for equal bytes
  (`FillIsSafe`, `SlotsIntact`). The hash is right in every run (`HashInOrder`), so it never tells.
* A failure to queue a write gives its slot back twice (`ExtraReleases`), and synchronous writes after asynchronous ones
  continue at the place of the last synchronous one (`InPlaceIffOneMode`, `SwitchCorrupts`).
* The hash of a download that skipped zero blocks has not seen them, verification does (`SkippingIsSeen`).
* `AsyncCacheWriter::hash()` after `finish()` yields a hash also when the file was removed, which is the case exactly when
  a write was refused or not all of a chunk was taken (`FileIsGone`, `HashWithoutFile`).
* An entry with one of the attributes read-only, hidden, system or volume label counts as a long-name fragment, so that
  such a file is not found by its short name (`FoundByShortName`).
* A long name that fills its fragments and is stored without a terminator is not seen (`UnterminatedIsLost`), and one that
  is empty hides the short name (`EmptyNameIsShown`).
* A new name that starts with U+00E5 gets a short name that reads as a deleted entry, and is not found (`ShortIsDeleted`,
  `CreateFind`). Writing it then overwrites the first entry, fragments aside, that agrees in the ten bytes behind the
  first; only if there is none that is the new one (`HiddenUpdate`). So writing "åbc" removes a file "Abc", although
  it returns normally (`TwinIsVictim`).

## Model

| member | source | states |
|---|---|---|
| DeviceWrappers.DeviceWrapper.ReadIntoBlockCacheIfNeeded | src/devicewrapper.cpp:74-97 | Caching blocks changes nothing a reader can see, keeps every cached block, and succeeds on a reliable device exactly when every block up to the one holding `offset + size` exists. |
| DeviceWrappers.DeviceWrapper.Pread | src/devicewrapper.cpp:99-118 | The bytes read are those of the flat view, for any offset and size; neither view nor device changes. |
| DeviceWrappers.DeviceWrapper.Pwrite | src/devicewrapper.cpp:120-154 | The flat view changes to the data in the written range and nowhere else, so uninitialised parts of fresh blocks are never seen; on an error it does not change at all. |
| DeviceWrappers.CopyIntoBlock | src/devicewrapper.cpp:136-151 | A block that was not cached must be covered whole for its unwritten bytes not to be observable. |
| DeviceWrappers.DeviceWrapper.Sync | src/devicewrapper.cpp:31-72 | The view never changes; in every state of the device during the flush, cut short by an error or not, block 0 is untouched unless everything behind it is what a reader sees; on success nothing is dirty and every cached block is on the device. |
| Partitions.Partition.Read | src/devicewrapperpartition.cpp:20-29 | Reads the image at the cursor and moves it inside the window; otherwise an error, and the cursor stays. |
| Partitions.Partition.Seek | src/devicewrapperpartition.cpp:31-38 | Succeeds exactly for positions from 0 to the length, both included, and puts the cursor there. |
| Partitions.Partition.Write | src/devicewrapperpartition.cpp:45-54 | Replaces the bytes at the cursor in the image, nothing else, and no byte of the device view outside the window; a range that leaves the window is an error that changes nothing. |
| Clients.Drive | src/devicewrapperpartition.cpp:20-54 | Whatever a client of a partition seeks, reads, writes or puts back, and wherever it stops, the cursor stays inside the partition and no byte outside it changes, on every content. |
| Volumes.DataWritten | src/devicewrapperfatpartition.cpp:280-283 | Writing inside one cluster of the image changes that cluster of the volume and no table, no directory and no other cluster. |
| FatCodec.GetSet | src/devicewrapperfatpartition.cpp:87-120 | After an entry of a table is set it reads back masked to its width, and every other entry reads as before, for the packed 12-bit entries too. |
| FatCodec.Neighbour12 | src/devicewrapperfatpartition.cpp:101-120 | Writing a FAT12 entry leaves the neighbour that shares a byte with it. |
| FatCodec.ReservedKept | src/devicewrapperfatpartition.cpp:213-221 | Within one copy of the table, a FAT32 entry keeps its reserved top four bits when the value brings none of its own. |
| TableBits.GetIsBits | src/devicewrapperfatpartition.cpp:87-120 | A copy of the table, read as one little-endian number, holds entry `c` in its bits from `c` times the width of an entry on, for 12, 16 and 32 bits, of which the last uses 28. |
| Mirrors.CopiesMerged | src/devicewrapperfatpartition.cpp:207-223 | On every table, each copy gets the low 28 bits of the value, and above them the top bits of the value or-ed with the reserved bits of all copies up to and with this one. |
| Mirrors.ReservedIsKept | src/devicewrapperfatpartition.cpp:207-223 | A copy keeps its reserved bits if and only if they contain those the value brings and those of every copy before it. |
| Mirrors.AgreeingCopies | src/devicewrapperfatpartition.cpp:207-223 | Copies that hold the same reserved bits still do, and keep them when the value brings none or the same. |
| Mirrors.CopiesAgree | src/devicewrapperfatpartition.cpp:207-223 | Afterwards the copies agree on the entry if and only if none of them had a reserved bit that neither the value nor the first copy has. |
| FatTables.EntriesWritten | src/devicewrapperfatpartition.cpp:197-233 | Setting an entry in all copies of the table sets exactly that entry, to the same masked value in each, although the code ors the reserved bits of one copy into the next. |
| FatTables.LinkIsEntry | src/devicewrapperfatpartition.cpp:235-253 | The code's 32-bit computation of where an entry is yields the entry of the first copy. |
| FatTables.EntryPosIsExact | src/devicewrapperfatpartition.cpp:87-253 | On every geometry the offset of an entry is computed in 32 bits on FAT16 and FAT32, and is exact if and only if the entry starts below four gigabytes; on FAT12 it always is. |
| FatPartitions.FatPartition.SetFatAs | src/devicewrapperfatpartition.cpp:101-233 | The loop over the copies writes the entry into every copy and leaves the rest of the image. |
| FatPartitions.FatPartition.GetClusterChain | src/devicewrapperfatpartition.cpp:255-278 | Ends on every table content; returns the duplicate-free list of links up to an end mark, and fails exactly when there is none, because the links come back or leave the partition. |
| ChainWalks.CircularHasNoWalk | src/devicewrapperfatpartition.cpp:267-275 | Meeting a cluster again, or an entry outside the partition, means that no whole chain exists. |
| ChainWalks.WalkIsChain | src/devicewrapperfatpartition.cpp:255-278 | On sound tables the walk from the first cluster of a chain is that chain. |
| Layouts.SeekIsExact | src/devicewrapperfatpartition.cpp:280-283 | The 32-bit seek goes to the cluster exactly when the cluster starts below four gigabytes. |
| FatPartitions.FatPartition.UpdateFsInfo | src/devicewrapperfatpartition.cpp:1443-1475 | The recorded free count changes by the delta when it is known, the hint is set when not zero, nothing else changes; errors only for wrong signatures. |
| FatPartitions.FatPartition.AllocateCluster | src/devicewrapperfatpartition.cpp:122-178 | On every table: takes the first free entry the scan meets, marks it as an end in every copy and counts it on FAT32; succeeds exactly when there is one. Numbers beyond 16 bits are truncated by the FAT16 setter, and another entry is marked. |
| FatPartitions.FatPartition.AllocateClusterAfter | src/devicewrapperfatpartition.cpp:180-195 | The same, and the previous cluster links to the new one, as far as the entry can hold its number, unless there is no previous one; where all free entries can be allocated nothing is truncated. |
| FsInfos.AllocatedAfterCounted | src/devicewrapperfatpartition.cpp:163-195 | An allocation keeps the difference between the recorded count and the number of free entries, positive or negative, for as long as the count is known; it stays known when at least one cluster was recorded. |
| FsInfos.AllocationIsExact | src/devicewrapperfatpartition.cpp:1463-1466 | A known count stays known, and its difference the same, if and only if it was not zero. |
| FsInfos.CountRunsOut | src/devicewrapperfatpartition.cpp:1463-1466 | After a step that took so many clusters and gave none back, the count is known if and only if that many were recorded, and is then smaller by that number. |
| FsInfos.InfoLayout | src/devicewrapperfatpartition.cpp:1443-1475 | An update writes the four bytes of the count and the four of the hint and no other byte of the sector: an unknown count stays unknown, a known one changes by the delta, the hint changes when a new one is given. |
| FsInfos.SignedBy | src/devicewrapperfatpartition.cpp:1452-1460 | The sector is taken for one with a free count if and only if all three words that sign it are right. |
| Chains.FamilyGrow | src/devicewrapperfatpartition.cpp:180-195 | Linking a free cluster behind one chain leaves all chains sound and disjoint. |
| Chains.FamilyCut | src/devicewrapperfatpartition.cpp:1045-1066 | Cutting one chain and freeing its rest leaves all chains sound and disjoint. |
| Names.LongNameRoundTrip | src/devicewrapperfatpartition.cpp:1134-1260 | Whatever was gathered from orphan fragments before, reading the fragments written for a non-empty name without NUL and the short entry with the matching checksum gives exactly the name, multiples of 13 units included. |
| Names.FoundByShortName | src/devicewrapperfatpartition.cpp:1134-1176 | An entry matches its own short name, which `ShortNameShows` spells out, if and only if it is not deleted, has none of the four attribute bits and no long name in front of it that differs. |
| ShortNames.ShortNameShows | src/devicewrapperfatpartition.cpp:1111-1120 | An entry whose 8.3 name is a base and an extension, filled up with blanks, shows them in lower case with a dot between them, and without an extension the base alone. |
| ShortNames.EightThree | src/devicewrapperfatpartition.cpp:1111-1199 | Round trip of 8.3 names: an entry with the plain short name of `base.ext` shows that name in lower case, and is found under it when it is live and has no long name. |
| ShortNames.OneDotShort | src/devicewrapperfatpartition.cpp:1191-1195 | A name with one dot: what is in front of it and what is behind it, in upper case, cut off or filled up with blanks to 8 and 3 bytes. |
| ShortNames.OtherShort | src/devicewrapperfatpartition.cpp:1196-1199 | Any other name: its first eleven characters as they are. |
| ShortNames.NumberedReads | src/devicewrapperfatpartition.cpp:1204-1222 | The number is written over the end of the first eight bytes in decimal, and the rest stays. |
| ShortNames.PickIsLowest | src/devicewrapperfatpartition.cpp:1201-1222 | A new file gets its plain short name when it is free, else the one with the lowest number that is free; none if and only if all hundred and one are taken. |
| Encodings.ChecksumStep | src/devicewrapperfatpartition.cpp:10-21 | One more byte: the sum rotated right by one bit, plus the byte, in eight bits. |
| Encodings.FragmentLayout | src/devicewrapperfatpartition.cpp:1229-1262 | Every byte of a fragment: its number, bit 6 in the last one, the attribute, the checksum, and the 13 units of its part of the name, a terminator and 0xFFFF behind it. |
| Encodings.UnterminatedIsLost | src/devicewrapperfatpartition.cpp:1154-1172 | Fragments without a terminator do not name their entry, which shows its short name. |
| Encodings.EmptyNameIsShown | src/devicewrapperfatpartition.cpp:1156-1157 | Fragments that start with the terminator are shown as they are, and the short name is not looked at. |
| Encodings.NamesAreLocal | src/devicewrapperfatpartition.cpp:1134-1181 | What is in front of an entry that is no fragment has no part in any name behind it. |
| Directories.Pick | src/devicewrapperfatpartition.cpp:1184-1222 | The short name chosen for a new file is eleven bytes long and unused by any entry. |
| Directories.CreateFind | src/devicewrapperfatpartition.cpp:1122-1281 | After a file was created, every name that was found before finds its old entry, the names equal to the new one in any letter case find the new entry, and nothing else is found; the new one is not found exactly when its short name reads as deleted. |
| Encodings.NewEntryLayout | src/devicewrapperfatpartition.cpp:1264-1270 | Every byte of the entry of a new file: short name, archive attribute, time and date of creation, and zero elsewhere. |
| Directories.ShortIsDeleted | src/devicewrapperfatpartition.cpp:1191-1199 | A name that starts with U+00E5 gets such a short name. |
| Directories.UpdateFind | src/devicewrapperfatpartition.cpp:1300-1344 | Overwriting an entry with one of the same short name and attributes changes no lookup. |
| Directories.FindUpdateUnique | src/devicewrapperfatpartition.cpp:1309-1342 | With unique short names the entry that an update overwrites is the one that was looked up. |
| Directories.HiddenUpdate | src/devicewrapperfatpartition.cpp:1306-1330 | For a new entry that reads as deleted, the one overwritten is the new one if and only if no entry before it, fragments aside, agrees in bytes 1 to 10 of the name; otherwise it is the first such one. |
| Directories.HideFind | src/devicewrapperfatpartition.cpp:1154-1176 | An entry that reads as deleted in place of another one: no name finds that slot, and every name that found another one still does. |
| Directories.TwinShort | src/devicewrapperfatpartition.cpp:1184-1222 | Names that differ in their first unit only, which is no dot, get short names that differ in their first byte only. |
| HiddenSteps.TwinIsVictim | src/devicewrapperfatpartition.cpp:1306-1330 | When a new name starts with U+00E5 and a file whose name differs in the first unit only has its plain short name, that file's entry is overwritten, or an earlier one. |
| Directories.UniqueCreate | src/devicewrapperfatpartition.cpp:1184-1276 | Creating a file with a fresh short name keeps short names unique. |
| DirSteps.SlotWritten | src/devicewrapperfatpartition.cpp:1346-1380 | Writing one directory slot, in whichever cluster of the directory it is, changes that slot and no other. |
| DirSteps.RootGrowSound | src/devicewrapperfatpartition.cpp:1355-1375 | Adding a cleared cluster to the root directory keeps the volume sound. |
| FatPartitions.FatPartition.ReadDir | src/devicewrapperfatpartition.cpp:1400-1441 | Yields the entries one after the other across cluster boundaries and stops at the end marker; at the end of a full FAT32 directory it adds a cleared cluster, which changes no file. |
| FatPartitions.FatPartition.LookUp | src/devicewrapperfatpartition.cpp:1130-1176 | Finds the first live entry whose long name, or else the short name it shows, folds to the same string, and only then reports success. |
| FatPartitions.FatPartition.GetDirEntry | src/devicewrapperfatpartition.cpp:1122-1281 | Lookup as above; on request a missing file is appended under a fresh short name, the volume stays well formed and every other file as it was. In a fixed root directory this succeeds if and only if there is a free short name and room for the fragments, the entry and an end marker; with a name but without room, the first entry that does not fit becomes the start of cluster 2. |
| FatPartitions.FatPartition.WriteDirEntryAtCurrentPos | src/devicewrapperfatpartition.cpp:1346-1380 | The next slot holds the entry, the ones written before stay; on a reliable device it succeeds in every slot of a fixed root directory, the last one included, and in every slot of a FAT32 one but the last, behind which a cluster is added. In a full fixed root directory the 32 bytes behind it, the start of cluster 2, become the entry, and then it fails. |
| FatPartitions.FatPartition.UpdateDirEntry | src/devicewrapperfatpartition.cpp:1300-1344 | Overwrites exactly the first entry that compares equal, without the first byte when the new entry reads as deleted, also across cluster boundaries; with an end marker it succeeds if and only if there is one. A file whose entry is overwritten by one that reads as deleted is gone, and every other chain stays sound. |
| FatPartitions.FatPartition.ReadFile | src/devicewrapperfatpartition.cpp:554-594 | For a name without a slash: returns what the file map has under the name and changes no file. |
| WriteSteps.GrowSound | src/devicewrapperfatpartition.cpp:1024-1038 | Allocating one more cluster for a file keeps tables and chains sound. |
| FatPartitions.FatPartition.GrowChain | src/devicewrapperfatpartition.cpp:1024-1038 | The loop ends with a sound chain of the needed length that continues the old one, and succeeds when there are enough free clusters. |
| WriteSteps.CutSound | src/devicewrapperfatpartition.cpp:1039-1067 | Freeing the end of a chain and marking its new end keeps tables and chains sound. |
| WriteSteps.CutCount | src/devicewrapperfatpartition.cpp:1058 | Adding the number of removed clusters to the free count keeps its difference to the number of free entries. |
| WriteSteps.CutIsExact | src/devicewrapperfatpartition.cpp:1058 | The difference is kept if and only if the sum fits into 32 bits, and the count stays known if and only if the sum is not the mark for an unknown one. |
| FatPartitions.FatPartition.ShrinkChain | src/devicewrapperfatpartition.cpp:1039-1067 | The kept clusters are a whole chain afterwards if and only if the volume is not FAT12 or no cluster is kept. |
| WriteSteps.WideMarkMisses | src/devicewrapperfatpartition.cpp:1060-1066 | On FAT12 the 32-bit end mark leaves the link of the last kept cluster as it was. |
| WriteSteps.NotCut | src/devicewrapperfatpartition.cpp:1060-1066 | With that link unchanged the kept clusters are no chain. |
| FatPartitions.FatPartition.FillChain | src/devicewrapperfatpartition.cpp:1069-1092 | The clusters of the chain hold the contents in order, then zeroes; no other cluster, table or directory byte changes. |
| WriteSteps.RewrittenMap | src/devicewrapperfatpartition.cpp:1094-1108 | Writing the entry of a refilled file makes the file map the old one with the new contents under that name, in any letter case. |
| Encodings.WrittenEntryLayout | src/devicewrapperfatpartition.cpp:1094-1106 | The entry of a written file: first cluster, size, date of access, time and date of writing; the bytes in front of them stay. |
| Encodings.EmptyEntryLayout | src/devicewrapperfatpartition.cpp:1094-1106 | The entry of a file without clusters records the last number that fits into 16 bits on FAT16 and into 28 otherwise, which is an end mark in every type. |
| WriteSteps.CreatedMap | src/devicewrapperfatpartition.cpp:1224-1276 | Creating a file leaves the file map, where a missing file counts as empty, and the lengths of all chains. |
| WriteSteps.RewrittenWellFormed | src/devicewrapperfatpartition.cpp:1094-1108 | After the entry is written the volume is well formed again. |
| FatPartitions.FatPartition.WriteRootFile | src/devicewrapperfatpartition.cpp:1010-1109 | For new, growing, shrinking, same-size and empty files: the volume is well formed, the file map has the contents under the name and is otherwise the same, each chain has the length its size needs, the free count keeps its difference to the free entries unless it runs out, clusters of others are untouched; succeeds when the directory and the volume have room, and in a fixed directory only then. For a new name whose short name reads as deleted: every name reads as before but those that found the overwritten entry, which none finds any more, and the volume is well formed. |
| HiddenSteps.HiddenDone | src/devicewrapperfatpartition.cpp:1010-1109 | The whole write of such a name, from the volume before it to the one after the update: the clusters with the contents stay in use without a file, and no other cluster in use changes. |
| FatPartitions.FatPartition.WriteFile | src/devicewrapperfatpartition.cpp:869-1109 | For every name and path: the same for the last component of the path, which is written in the root directory; with room it succeeds if and only if the name is no path or its first component is an existing directory, and a path with less than two components fails. |
| Paths.PartsJoin | src/devicewrapperfatpartition.cpp:876-877 | The components of two paths joined by a slash are those of the first, then those of the second. |
| Paths.PathTarget | src/devicewrapperfatpartition.cpp:877-910 | `dir/name` has the components of `dir` and then `name`, which is the file that is looked for. |
| FatPartitions.FatPartition.PathDirectory | src/devicewrapperfatpartition.cpp:883-896 | The directory of `dir/name` is there if and only if the entry that is found under `dir` has the directory attribute. |
| FatPartitions.WriteBelow | src/devicewrapperfatpartition.cpp:869-1109 | Writing `dir/name`: the root file `name` holds the contents afterwards, and no other file changed; with room it succeeds if and only if `dir` is a directory of the root directory. |
| FatPartitions.WriteThenRead | src/devicewrapperfatpartition.cpp:554-1109 | After a write that returned normally, reading the name, or the last component of the path, in the root directory gives exactly the contents, and reading any other name gives what it gave before. A new name whose short name reads as deleted gives nothing, and any other name what it gave before, unless it found the overwritten entry. |
| EveConfigurators.WriteFiles | src/eveconfigurator.cpp:176-259 | After any run of writes, paths included, the volume is well formed, every name of the root directory reads back what was last written under it, or what it held before, and the free count keeps its difference unless more clusters were taken than recorded; a run of one file succeeds where a single write does. |
| PartitionTables.FindConfigPartition | src/eveconfigurator.cpp:20-63 | Finds the first GPT entry in use with the name of the configuration partition, with its place; reports none only if there is none; ends normally on a reliable device that has all of the table. |
| PartitionTables.FatPartitionPlace | src/devicewrapper.cpp:156-188 | The place of partition 1 to 4 by the GPT when there is one, else by the MBR, with the 32-bit products of the MBR branch; on a reliable device it fails exactly for a partition that is not there. |
| GptLayouts.HeaderReads | src/eveconfigurator.cpp:20-35 | A header laid out as the UEFI specification says is taken for one if and only if it is signed "EFI PART" and says that it is in sector 1; its entries are a multiple of their size behind the start of the array. |
| GptLayouts.EntryReads | src/eveconfigurator.cpp:36-58 | An entry laid out as it says is in use if and only if its type is not zero, has the name in front of the first terminator, and reaches from its first to its last sector, both included. |
| GptLayouts.ConfigReads | src/eveconfigurator.cpp:36-52 | The configuration partition is an entry in use that is called "CONFIG", and no other. |
| GptLayouts.MbrReads | src/devicewrapper.cpp:176-188 | Without a GPT, each of the four entries is used if and only if neither its first sector nor its number of sectors is zero, and its place is both times 512 in 32 bits. |
| EveConfigurators.Apply | src/eveconfigurator.cpp:176-259 | Whatever happens, errors midway included, and whatever the configuration partition holds, no byte of the device view outside it changes, and nothing at all without one; on success a well-formed partition holds the volume with the files written. On a reliable device that has all of the table the work is begun if and only if there is such a partition. |
| BootSectors.Probe | src/devicewrapperfatpartition.cpp:23-85 | Opening a partition as FAT reads its first 512 bytes, changes nothing a reader can see, and ends as they say; what they say is stated by the rows of `MountLayouts` below. |
| MountLayouts.MountsExactly | src/devicewrapperfatpartition.cpp:28-75 | A boot sector mounts if and only if it is signed, its sectors and clusters are not empty, and a sector is whole words. |
| MountLayouts.TypeByCount | src/devicewrapperfatpartition.cpp:34-65 | The count is the number of whole clusters behind reserved sectors, tables and root directory, and below 4085 the type is FAT12, from there below 65525 FAT16, else FAT32, and only then. |
| MountLayouts.NumbersFit | src/devicewrapperfatpartition.cpp:57-62 | In the type that a count gives, each cluster number is its own entry value and no end mark, if and only if there are fewer than 0xFFFFFF7 clusters. |
| MountLayouts.EndMarks | src/devicewrapperfatpartition.cpp:255-278 | The end marks are the last eight values an entry can hold, and the one that is written is the last. |
| MountLayouts.FixedLayout | src/devicewrapperfatpartition.cpp:34-83 | On the fields of the boot sector: the tables lie one behind the other behind the reserved sectors, the fixed root directory takes as few sectors as hold its entries, and cluster 2 follows; the root directory starts where the tables end if and only if the 16-bit table size is used or the tables are empty. |
| MountLayouts.ChainedLayout | src/devicewrapperfatpartition.cpp:72-83 | The same for FAT32: the clusters follow the tables, and the recorded root cluster and free-count sector are used. |
| Formatting.SizingBound | src/disk_formatter.cpp:428-465 | For every partition size that does not wrap, the second pass of the table size is at most the first, the clusters plus two exceed the entries by less than one sector, and nothing overflows 32 bits. |
| Formatting.TableCanMissEntries | src/disk_formatter.cpp:448-465 | 66599 sectors give 512 table sectors and 65543 clusters, so that the table misses the last entries. |
| Formatting.Fat32Sizes | src/disk_formatter.cpp:428-465 | Exactly the sizes from 66581 to 66599 and from 132106 sectors give enough clusters for FAT32. |
| Formatting.FormatThenParse | src/disk_formatter.cpp:261-337 | The boot sector parses, and as the FAT32 volume the formatter meant if and only if the size is one of those. |
| FormattedVolumes.FormattedWellFormed | src/disk_formatter.cpp:226-426 | For every such size, seen through any window of less than four gigabytes that holds what was written, the formatted partition is laid out right, and it is a well-formed FAT32 volume without files if and only if it has fewer than 8388634 sectors. |
| FormattedVolumes.FormattedEntries | src/disk_formatter.cpp:374-404 | Every entry of both tables, for every such size: the two reserved ones, the end mark of the root directory, and zero from there on. |
| FormattedVolumes.FormattedFreeCount | src/disk_formatter.cpp:339-372 | For every such size the free-cluster sector has valid signatures and a known count of all clusters but one, which is the number of free entries of the clusters when the table has an entry for each; it differs from the number of free entries of the table by its surplus entries. |
| FormattedVolumes.TailAddressable | src/disk_formatter.cpp:448-465 | The last table entry can be allocated without the 32-bit offset wrapping if and only if the partition has fewer than 8388634 sectors. |
| DiskFormatters.DiskFormatter.WriteMbr | src/disk_formatter.cpp:165-224 | Writes the table sector and nothing else. |
| DiskFormatters.SectorCountsAgree | src/disk_formatter.cpp:131-139 | Table and file system get the same sector count if and only if the device has fewer than 2^32 sectors or its truncated count is 2^32 - 1. |
| DiskFormatters.MbrRoundTrip | src/disk_formatter.cpp:185-213 | The table reads back with the right start, and with the length in 32 bits, which is the right one if and only if the partition is smaller than four gigabytes. |
| DiskLayouts.ChsRoundTrip | src/disk_formatter.cpp:190-213 | The packed cylinder, head and sector of every block that they can express stand for that block. |
| DiskLayouts.MbrLayout | src/disk_formatter.cpp:165-224 | The first entry is bootable, of the type for FAT32, and names the first and, as far as cylinders can be expressed, the last block of the partition; everything else in front of the signature is zero. |
| DiskLayouts.BootLayout | src/disk_formatter.cpp:261-337 | The fields of the boot sector that mounting does not look at, and that the rest is zero. |
| DiskLayouts.BackupIsNamed | src/disk_formatter.cpp:226-259 | The copy of the boot sector is in the sector that the boot sector names for it and differs in the number of that sector alone; between the structures and behind the root directory nothing changes. |
| DiskLayouts.HintIsFirstFree | src/disk_formatter.cpp:339-372 | The recorded hint is the first free entry of the formatted table. |
| DiskFormatters.DiskFormatter.WriteFatTables | src/disk_formatter.cpp:374-404 | The loop writes both copies of the table, and only them. |
| DiskFormatters.DiskFormatter.WriteFat32 | src/disk_formatter.cpp:226-259 | The partition becomes the formatted one, whatever it held; the rest of the device stays. |
| DiskFormatters.DiskFormatter.FormatDrive | src/disk_formatter.cpp:105-140 | Every device, of two terabytes and more too, whose count of sectors for the file system is such a size gets the table with its own count and the formatted partition from sector 8192 on; succeeds on a reliable device. |
| DiskFormatters.FormatThenMount | src/disk_formatter.cpp:105-140 | The formatted device is mounted by the FAT code at the same place with the geometry of the file system, whatever count the table lists, empty and with the right free count, through any window of less than four gigabytes, and well formed if and only if all its entries can be addressed; a GPT that was there before is still there. |
| ImageWrites.StepInv | src/downloadthread.cpp:980-1141 | Every step of any thread that fills a free slot only and sends a write where it belongs keeps the invariant: chunks in use are intact in their slots, the hash has consumed the chunks in stream order, every chunk is in flight, landed or released once, and the device holds exactly the landed ones. |
| ImageWrites.HoldsPut | src/downloadthread.cpp:1013-1069 | One more chunk lands on the device, whatever the order, beside the others. |
| ImageRuns.PaddedAtTheEnd | src/downloadextractthread.cpp:399-406 | When every read but the last is whole sectors, the chunks together are the image padded with zeroes at its end only. |
| ImageRuns.FinishedImage | src/downloadextractthread.cpp:399-406 | A drained run on what was read from an image: hash and device have the image, then fewer than 512 zeroes up to a whole sector, and the device has what was there before behind them. |
| ImageRuns.RunInv | src/downloadextractthread.cpp:336-443 | The invariant holds throughout every such run, whatever its interleaving. |
| ImageRuns.HashInOrder | src/downloadthread.cpp:980-1001 | In every run of a ring of two slots or more, also one that is overtaken, fails to queue or changes its mode, the hash consumes the chunks in stream order: the chunk being hashed and the one just filled are intact in their slots. |
| ImageRuns.HashIsOfImage | src/downloadthread.cpp:1551-1558 | Every drained run ends with the hash of the whole image. |
| ImageRuns.OrderedIsFree | src/ringbuffer.cpp:82-152 | The counting ring hands out a free slot when slots came back in stream order, each once. |
| ImageRuns.FillIsSafe | src/downloadextractthread.cpp:340-380 | Filling the next slot leaves all chunks in use intact if and only if the slot is free or its chunk starts with the same bytes. |
| ImageRuns.SlotsIntact | src/downloadextractthread.cpp:336-443 | In every run, whatever its interleaving, mode or failures, no chunk is overwritten while it is in use if and only if at every filling each chunk in use in that slot starts with the same bytes as the new one. |
| ImageRuns.InPlaceIffOneMode | src/linux/file_operations_linux.cpp:428-678 | A run sends every chunk to its place if and only if no synchronous write follows an asynchronous one and nothing is queued after a failure that had taken its place. |
| ImageRuns.SafeRun | src/downloadthread.cpp:980-1141 | Runs in one mode of writing whose slots come back in order keep the invariant to the end. |
| ImageRuns.SyncRun | src/downloadthread.cpp:1109-1141 | A run of synchronous writes only keeps the invariant to the end, whatever its interleaving. |
| ImageRuns.ExtraReleases | src/downloadthread.cpp:1035-1076 | A slot is given back a second time exactly as often as queueing fails. |
| ImageRuns.Finished | src/downloadthread.cpp:1551-1558 | After the drain the hash is that of the image in stream order, every slot was given back, and the device with the first chunk written equals the image over what was there before, whatever the order of completion. |
| ImageRuns.StartStays | src/downloadthread.cpp:953-962 | In every run, also one that goes wrong, the bytes of the withheld chunk stay as they were. |
| ImageRuns.BootBlockStaysZero | src/downloadthread.cpp:409-415 | With a first chunk of at least 4096 bytes the zeroed boot block stays zero. |
| ImageRaces.OutOfOrderCorrupts | src/ringbuffer.cpp:255-268 | For every ring of three slots or more and every image whose second chunk and the one that follows it in its slot differ, there is a run in one mode, without any failure, with completions handled only inside a later write call and in the final drain, that ends with the right hash and a wrong device. |
| ImageRaces.SwitchCorrupts | src/linux/file_operations_linux.cpp:428-454 | For every ring of two slots or more and every image whose second and third chunk differ, a run that goes from asynchronous to synchronous writes without any failure ends with the right hash and a wrong device. |
| ImageFinishes.ApplyEveConfig | src/downloadthread.cpp:2174-2200 | Whatever the configuration partition holds: up to the flush the device is untouched; in every state during a flush, the one after an error included, the first block is as before unless the rest is final; on success the device is the image with the withheld chunk, and the files in the configuration partition. |
| ImageFinishes.FlushSeen | src/devicewrapper.cpp:18-72 | A flush, the first or the one when the cache goes out of scope after an error, changes the first block only after the rest is final; after one that ended a further one does nothing. |
| ImageFinishes.WriteComplete | src/downloadthread.cpp:1733-1767 | With and without configuration: on success the device is the image over what was there before, with changes inside the configuration partition alone; the first block changed last, whatever that partition holds. |
| DownloadWriters.DownloadWriter.WriteFile | src/downloadthread.cpp:946-1141 | The synchronous path: the first buffer is withheld and made room for, every other one is hashed and written at the position of the device. |
| DownloadWriters.DownloadWriter.WriteFileZeroSkip | src/downloadthread.cpp:876-944 | Exactly the bytes outside whole zero blocks of the buffer are written and hashed, in order and at their places; the position moves over the whole buffer; nothing else changes. |
| DownloadWriters.SkippingIsPlain | src/downloadthread.cpp:866-875 | Skipping gives what a plain write gives if and only if the device held zeroes at the skipped places. |
| DownloadWriters.WriteDownload | src/downloadthread.cpp:770-784 | A whole download over a device that is zero where it skips leaves every buffer after the first at its place, and succeeds on a reliable device. |
| DownloadWriters.DownloadWriter.Verify | src/downloadthread.cpp:1808-1894 | The buffered reading loop compares the hash of the withheld chunk and the device up to the position with the hash of the written bytes. |
| DownloadWriters.ReadsBack | src/downloadthread.cpp:1832-1861 | What verification reads after such a download is the image. |
| DownloadWriters.DrainedReadsBack | src/downloadthread.cpp:1808-1894 | What it reads after a drained run of the ring is what was hashed. |
| DownloadWriters.SkippingIsSeen | src/downloadthread.cpp:866-944 | The written bytes are the image if and only if nothing was skipped; otherwise verification compares hashes of different bytes. |
| CacheWriters.InvStep | src/asynccachewriter.cpp:112-297 | Every step of either thread keeps the invariant of the session, with the clean-up in it: after an error, or a stop, the file is gone once the thread is done and `cancel` has returned, and after a stop nothing is queued. |
| CacheWriters.RoundEnds | src/asynccachewriter.cpp:112-168 | A look at the queue takes the chunk if and only if there is room, ends the write or leaves it waiting for one more round of at most ten, and a write that ends without room is refused. |
| CacheWriters.NothingAccepted | src/asynccachewriter.cpp:112-116 | After an error, a stop or the end of the session, in every run, no write is accepted any more and the queue does not grow. |
| CacheWriters.Conservation | src/asynccachewriter.cpp:112-168 | In every interleaving until a stop or an error, file, chunk in flight and queue together are the accepted bytes in order, the hash follows the same order, the queue has at most its limit of chunks, and all but its last chunk are below the limit on memory. |
| CacheWriters.Reports | src/asynccachewriter.cpp:170-199 | A hash is reported only when no write was refused, and is that of exactly the accepted bytes, which were all written to the file, and the file is still there; a finished session is reported if and only if nothing was refused and no write failed. |
| CacheWriters.FileIsGone | src/asynccachewriter.cpp:170-297 | When `finish` returns, the file is gone if and only if a write was refused or not all of a chunk was taken, and if and only if nothing is reported; `hash()` yields what was hashed in any case. |
| CacheWriters.MeasureStep | src/asynccachewriter.cpp:241-297 | While `finish` waits, every step of the thread brings its end nearer. |
| CacheWriters.FinishEnds | src/asynccachewriter.cpp:170-199 | `finish` returns: the thread is never stuck, and ends after at most a number of steps fixed at the call. |
| CacheWriters.StoppingStep | src/asynccachewriter.cpp:241-297 | After a stop every step of the thread brings its end nearer, whatever is queued, and no other step takes it back. |
| CacheWriters.CancelEnds | src/asynccachewriter.cpp:201-239 | A cancelled session ends: in every run after `cancel` the thread takes at most six steps and is never stuck before it is done; once it is done and `cancel` has returned, the file is gone, nothing is queued, and nothing was reported. |
| CacheWriters.HashWithoutFile | src/asynccachewriter.cpp:319-322 | For every chunk and every number of its bytes short of all that the file system takes: a session that was sound when `finish` was called ends with the hash of all accepted bytes although nothing was reported and the file is gone. |

## Left out

- FatPartitions.FatPartition.ReadFile: names with a slash, for which the code scans the clusters of a subdirectory itself; a file written under a path is not found there, but in the root directory.
- `deleteFile`, `fileExists` and the listing functions: near-copies of the directory scan.
- Failed operations: after an error in the middle of a FAT operation only isolation from the rest of the device is stated.
- FatPartitions.FatPartition.ReadDir: volumes that are not laid out as the FAT specification says (`Sane`), and corrupt ones; only isolation and the bounds of the cursor are stated for them (`Clients.Drive`).
- FatPartitions.FatPartition.LookUp: the same.
- FatPartitions.FatPartition.UpdateDirEntry: the same.
- FatPartitions.FatPartition.GetDirEntry: the same, and new names with a NUL or more than 256 fragments.
- FatPartitions.FatPartition.WriteFile: excludes FAT12 files that become shorter but not empty, where the code does not cut the chain, and new names with a NUL or more than 256 fragments.
- EveConfigurators.WriteFiles: when a run of several files succeeds; that is stated for each write (`WriteFile`).
- PartitionTables.FindConfigPartition: a name in the table that starts with a byte order mark, which the string library drops before the comparison.
- EveConfigurators.Apply: what the files of a volume that is not well formed are afterwards, and how the work ends when only isolation is asked for.
- FormattedVolumes.FormattedWellFormed: windows of four gigabytes and more, which the FAT code does not see (`MbrRoundTrip`).
- ImageRuns.SafeRun: completion in stream order is sufficient for a whole run; the exact condition is stated for each filling of a slot (`FillIsSafe`).
- CacheWriters.Reports: `open` sets the file to the expected size and nothing cuts it back, and `finish` ignores the result of its flush; the file here is the bytes that were written, so that a shorter download leaves a longer file than stated.
- Dates and times are parameters; case folding and the decoding of short names are parameters (`Charset`), of which nothing is assumed.
- The hash is the sequence of bytes it consumed, or an arbitrary function of it.
- Cancellation of a download, the stall timeouts and the recovery from them, periodic syncs, progress and timing.
- Failing writes to the device in the ring's state machine: a run that goes on is one whose writes succeed. Failures are covered where one thread writes.
- DownloadWriters.DownloadWriter.Verify: the source does not look at the result of the first seek and reads on from where the device stands, without an end once it stands behind the last byte; here a failed seek ends verification with an error.
- AsyncCacheWriter: one client thread; a chunk is shorter than two gigabytes; one session from `open` on.
- The generators of the configuration files, the JSON reader and the customisation of other systems: they compute texts.
- The choice of boot code, volume label and serial number: constants.
- `ImageWriter`, `CacheManager`, drive enumeration, network, archive and user interface: plumbing around this core.
