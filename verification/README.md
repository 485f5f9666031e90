# Strange-os kernel: a verified model

Strange-os is a small 32-bit kernel. This project models its stateful core in Dafny and proves what that core keeps, undoes and
leaves alone:

- **FAT32 volume** (`Bytes`, `FatDisk`, `Chains`, `FatFile`, `FileIo`). The disk is one byte array. The driver is a class with the
  one-sector FAT cache as it is in the source; files are cluster chains; a volume, as a value, is the FAT, the clusters and the chains
  by first cluster. Reading, writing, opening and closing are methods whose effect on that value is stated outright, up to the round
  trip "write in any pieces, read in any pieces".
- **Directories** (`FatDir`, `DirTheory`, `FatCreate`, `FatListing`, `FatSize`, `FatSession`, `FatRuns`). The decoder is a fold over
  slots, the encoder works in place on a cluster buffer; together they are proved inverse, also when a new directory cluster must be
  linked, and over every session of creations and writes all directories stay in order.
- **Format** (`FatFormat`). What is on disk, byte by byte as the FAT Specification has it, and that this is what the driver writes and
  reads: addresses, end marks over every session, listings read off the raw slots, and the two slots of a new entry.
- **Nodes and paths** (`Paths`, `Vfs`, `EndToEnd`, `Trees`). Nodes are made when a directory is first looked into; what a path finds is a
  function of the volume alone. A file found by its path, written, found again and read gives back what was written, after a new mount
  and in the same tree of nodes. Over every session the directories stay a tree and paths go on leading where they led.
- **Descriptors** (`Descriptors`, `Turns`, `Calls`). The 32-slot table, any interleaving of readers on it, and of readers with writers of
  other files, and whole calls: open as "r" or "w" says, read or write, close.
- **Heap** (`Heap`). First-fit blocks with headers inside the memory that is handed out, over every run of requests.
- **Processes** (`Paging`, `ProcessModel`, `Image`, `Kernel`). exec and exit as steps on a process stack, a trap frame and a page-mapped
  window with a translation cache and access rights; the record list, page tables and image loader as classes that refine those steps.
  After a successful exec the processor finds the program file's bytes where the child starts.
- **Console and numbers** (`Console`, `Stdio`). A scrolling 40 by 25 buffer against paper of unlimited length, the line editor, and the
  digit printers.

The cluster layout, end mark and slot layout follow the Microsoft FAT Specification (August 2005), sections 4, 6 and 7; address
translation follows the Intel SDM Volume 3A, sections 4.3 and 4.10.

## What the code does that it was not meant to do

The model keeps the code as it is. Where that defeats the intention, a lemma says exactly when:

- The free-cluster scan reloads the sector it has just counted (src/kernel/fs/fat.c:116-118), so from the second pass on it inspects
  entry p - 128 for position p. With q the least free cluster, it returns q if q is below 128 and q + 128 if not, so what it returns is
  unused and inside the volume if and only if q is below 128 and inside, or the entry at q + 128 is free and inside as well
  (`ScanReturns`). Linking what it returns keeps the volume's chains if and only if no chain held it (`ExtendKeepsChainedExactly`).
  Growth is proved wherever the scans that will be made return unused clusters; n of them do if and only if n is at most the number of
  free clusters in the first FAT sector, or one more when the first free entry behind that sector has a free one 128 further on
  (`CanGrowExactly`).
- The driver compares FAT entries whole, where the Specification has 28 bits of them count. What it takes for a chain is a chain of the
  Specification, and the other way round, if and only if the top bits of the entries that matter are clear (`SpecChainIsChain`); once all
  are clear they stay so over every session, and every chain ends in an end mark of the Specification (`SessionKeepsFormat`, `EndOnDisk`).
- A file of length 0 is listed with first cluster 0, and grub/system/etc/.inf is one of several such files on the boot disk. Opening one
  and reading it gives nothing (`Load`); writing one goes wrong, because the driver computes its address like any other
  (src/kernel/fs/fat.c:45-54, 489). A cluster write stays out of the FAT if and only if the number is 2 or more, given two copies, none
  shorter than a cluster (`MissesFatExactly`); writes to 0 and 1 go into the last copy (`LowClusterUpdate`). So a session through a node
  is what it should be if `2 <= n.inode`; below that, with no more bytes than a cluster holds, every chain and cluster stays as it was
  but for the length in the entry, and the FAT copies stay equal if and only if nothing was written or the buffer held what was there
  (`StoreUnplaced`). With more bytes the first flush also stores a cluster number over FAT entry 0 or 1, where an end mark was
  (src/kernel/fs/fat.c:453-457), and the rest goes to a new chain (`FlushUnplaced`).
- `fat_write` returns a counter it never sets (src/kernel/fs/fat.c:447-467). The model returns an arbitrary value in its place, and
  `StoreThenLoad` says for which returned values the file reads back whole, in terms of the volume before the call; counters that tell the
  truth are one such case.
- The loop in `fat_close` that should give clusters back leaves at once (src/kernel/fs/fat.c:494-502). A file that was written keeps
  clusters it does not need if and only if its chain was longer before than the bytes need (`SurplusStays`).
- Creating a file notes the place of the long slot (src/kernel/fs/fat.c:240-241) and decoding notes the short slot (lines 317-318). A size
  stored through a node from a listing arrives (`StoredLengthIsListed`), one stored through a node from a creation is lost, and goes over
  the last two characters of the name: exactly when the name survives is `NameSurvives` (`CreatedLengthIsLost`). Nothing in the repository
  calls `fs_create` (src/kernel/fs/fs.c:122-139), and it lets its node escape nowhere, so this arises only for a direct caller of the
  driver's create callback that goes on to write through the node it passed.
- `process_load` opens the program and never closes it (src/kernel/process.c:50): executing programs uses descriptors up
  (`ExecsSpendDescriptors`, `ExecsAreLimited`). An exec that fails after the new record was pushed leaves it there (src/kernel/process.c:57);
  after any run above that record its exit gives the caller stack and window back, and the frame if and only if an earlier saved one
  agrees with it (`HalfExecRestoresOldFrame`); any later exec from there gives frame and stack back, but the window goes to the memory of
  the record that was left (`LeftRecordTakesWindow`). The argument pointer that such an exec passes on is the one meant if and only if the
  process on top has the window (`ArgumentStays`); otherwise it is one window size too high (`ArgumentAfterHalf`).
- A heap block reused for a smaller request never regains its size (src/kernel/heap.c:43): over any run a block keeps its size if and only
  if every request it met asked for exactly that (`SizeKeptExactly`); `ReuseLosesRoom` is a run where that costs room.
- `kgets` counts characters past the end of its buffer (src/kernel/kprint.c:180-187): `EnterIsSafe` and `RubOut` say exactly when its later
  stores stay inside the buffer and on the screen.
- A path that ends in a slash looks for an entry with an empty name (src/kernel/fs/fs.c:195-210): `TrailingSlashFails`.
- A file shorter than a header is judged by whatever the header buffer held before (src/kernel/abin.c:16-25): `Image.Head`.
- The least int prints as a lone sign (src/stdlib/stdio.c:16-26): the last clause of `PrintInt`.

## Model

| member | source | states |
|---|---|---|
| FatDisk.CopyLayout | src/kernel/fs/fat.c:90 | FAT copies never overlap each other and all end before the first cluster |
| FatDisk.ClusterLayout | src/kernel/fs/fat.c:45-54 | clusters never overlap each other or a FAT copy, and lie inside the partition |
| FatDisk.LbaIs | src/kernel/fs/fat.c:45-54 | the address as computed in 32 bits is the cluster's from number 2 on, and falls short of the data area for 0 and 1 |
| FatDisk.MissesFatExactly | src/kernel/fs/fat.c:51-54 | a cluster write stays out of the FAT copies if and only if the number is 2 or more |
| FatDisk.LowClusterUpdate | src/kernel/fs/fat.c:51-54 | what a write to number 0 or 1 does: part of the last FAT copy changes, no cluster does, and the copies stay equal if and only if nothing changed |
| FatDisk.ClusterUpdate | src/kernel/fs/fat.c:51-54 | writing one cluster changes that cluster only and no byte of any FAT copy |
| FatDisk.WithSectorEffect | src/kernel/fs/fat.c:89-90 | the write-back loop replaces the sector in exactly the copies written so far and no cluster |
| FatDisk.EntryWritten | src/kernel/fs/fat.c:74-91 | writing a cached sector back keeps all FAT copies equal and changes exactly one entry |
| FatDisk.FatUpdate | src/kernel/fs/fat.c:86-87 | changing one word of one sector is changing one entry of the FAT |
| FatDisk.Fat.ReadCluster | src/kernel/fs/fat.c:45-48 | the buffer gets the cluster, or for 0 and 1 what lies in front of the data area; nothing else changes |
| FatDisk.Fat.WriteCluster | src/kernel/fs/fat.c:51-54 | from number 2 on one cluster changes and the driver stays as sound as it was; 0 and 1 change the last FAT copy, and exactly when that leaves the driver sound |
| FatDisk.Fat.ReadFatEnt | src/kernel/fs/fat.c:57-71 | a cached read gives the entry that is on disk, whatever sector was cached |
| FatDisk.Fat.WriteFatEnt | src/kernel/fs/fat.c:74-91 | one entry changes, no cluster does, the cache stays coherent and all copies equal |
| FatDisk.Fat.FindUnusedCluster | src/kernel/fs/fat.c:94-121 | the least position the scan as written stops at, or none; the cache stays coherent |
| FatDisk.LeastHitIs | src/kernel/fs/fat.c:105-113 | where the scan stops and which cluster is the least free one, in terms of the FAT's words |
| FatDisk.ScanIsLeastFree | src/kernel/fs/fat.c:94-121 | the scan returns the least free cluster of the whole FAT if and only if some free entry is in the first FAT sector |
| FatDisk.ScanReturns | src/kernel/fs/fat.c:94-121 | which cluster the scan returns, and that it is unused and inside the volume if and only if the least free entry is in the first sector or the one a sector further on is free too |
| FatDisk.ScanEmpty | src/kernel/fs/fat.c:105-120 | the scan finds nothing if and only if all free entries are in the last sector of a longer FAT |
| FatDisk.ScanReturnsUsedCluster | src/kernel/fs/fat.c:116-118 | that the bad case occurs: a FAT for which the scan returns a cluster in use |
| Chains.ChainIsAcyclic | src/kernel/fs/fat.c:425-431 | a chain that reaches an end mark visits no cluster twice |
| Chains.ChainIsUnique | src/kernel/fs/fat.c:425-431 | the first cluster determines the chain |
| Chains.FreeIsUnowned | src/kernel/fs/fat.c:112 | no chain holds a free cluster |
| Chains.SpecChainIsChain | src/kernel/fs/fat.c:424-426 | when what the driver takes for a chain is a chain of the FAT Specification, exactly |
| Chains.LinkedIsRelinked | src/kernel/fs/fat.c:455-457 | what the driver writes into the FAT are cluster numbers and end marks of the Specification |
| Chains.RelinkedKeepsFormat | src/kernel/fs/fat.c:454-458 | after that every chain of the volume is one of the Specification |
| Chains.ExtendKeepsChained | src/kernel/fs/fat.c:454-458 | linking a free cluster behind one chain keeps all chains end-marked, acyclic and disjoint |
| Chains.ExtendKeepsChainedExactly | src/kernel/fs/fat.c:454-458 | linking a cluster behind a chain keeps the volume's chains if and only if no chain held it |
| Chains.NewKeepsChained | src/kernel/fs/fat.c:210-211 | end-marking a free cluster starts a new chain disjoint from all others |
| Chains.FrameKeepsOthers | src/kernel/fs/fat.c:461 | if only one chain's clusters and one directory cluster changed, every other file's contents are what they were |
| FatFile.CursorInside | src/kernel/fs/fat.c:421-434 | the byte under a read cursor is the next byte of the chain, and a used-up last cluster is the end of it |
| FatFile.LowFreeCanGrow | src/kernel/fs/fat.c:105-113 | n free clusters in the first FAT sector make the next n scans succeed |
| FatFile.CanGrowExactly | src/kernel/fs/fat.c:94-121 | exactly how many scans in a row give out unused clusters, each being linked before the next |
| FatFile.GrowPick | src/kernel/fs/fat.c:455 | on a volume that can grow the scan finds an unused cluster inside it, and the volume can then grow once less |
| FatFile.GrownTrans | src/kernel/fs/fat.c:448-466 | growth composes: two writes in a row change no more than one chain |
| FatFile.WritingSparesReaders | src/kernel/fs/fat.c:448-466 | a write leaves every read cursor on another file, and that file's contents, as they were |
| FatFile.FatFs.NextByte | src/kernel/fs/fat.c:424-433 | gives the next byte of the chain, or says there is none exactly at its end |
| FatFile.FatFs.FatRead | src/kernel/fs/fat.c:412-436 | reads exactly the bytes from the index on, up to count, file length and chain end, and nothing of an empty file without a chain; nothing in other modes |
| FatFile.FatFs.Link | src/kernel/fs/fat.c:455-457 | an unused cluster is found, entered where asked and end-marked with 0x0ffffff8; nothing else changes |
| FatFile.FatFs.Extend | src/kernel/fs/fat.c:454-458 | the chain gains one free cluster, all others and every cluster's data stay |
| FatFile.FatFs.FlushTo | src/kernel/fs/fat.c:461-463 | one cluster of the chain gets the full buffer and the cursor is on the next, with no byte lost |
| FatFile.FatFs.FlushFull | src/kernel/fs/fat.c:451-464 | the full buffer goes to its cluster and the cursor moves on, losing no byte written so far |
| FatFile.FatFs.LinkUnplaced | src/kernel/fs/fat.c:453-458 | for a file numbered 0 or 1 a reserved FAT entry gets a cluster number, and a new chain begins there |
| FatFile.FatFs.FlushUnplaced | src/kernel/fs/fat.c:451-464 | the first flush of such a file: that link, and the full buffer over the last FAT copy |
| FatFile.FatFs.PutByte | src/kernel/fs/fat.c:448-466 | the bytes given to the cursor grow by one; only this chain changes, and no further than the byte needs; without a chain only the buffer does |
| FatFile.FatFs.FatWrite | src/kernel/fs/fat.c:439-468 | the bytes given to the cursor grow by the buffer; only this chain changes, never shrinks, and grows no further than needed; the result is the unset counter |
| FatFile.FatFs.FatOpen | src/kernel/fs/fat.c:471-479 | a reader starts at byte 0 with the first cluster loaded, a writer starts empty; files numbered 0 and 1 open as well |
| FatFile.FatFs.FlushLast | src/kernel/fs/fat.c:489 | after the last flush all bytes written are the start of the chain's contents; those of a file without a chain are in the last FAT copy |
| FatFile.FatFs.StoreLength | src/kernel/fs/fat.c:505-512 | four bytes of one directory slot change, no FAT copy does |
| FatFile.FatFs.FatClose | src/kernel/fs/fat.c:482-516 | flushes, stores the length at byte 28 of the remembered slot, changes nothing else and shortens no chain; without a chain, what happens to the FAT |
| FileIo.FsOpen | src/kernel/fs/fs.c:89-102 | a file gets a cursor, a node with an even mask gets none |
| FileIo.FsRead | src/kernel/fs/fs.c:65-74 | the index advances by what was read, and the cursor stays in step with it |
| FileIo.FsWrite | src/kernel/fs/fs.c:77-86 | the index advances by what the driver's counter claims, modulo 2^32; in other modes nothing happens |
| FileIo.FsClose | src/kernel/fs/fs.c:105-109 | the bytes given are stored, the slot has the length the index says, every other file is kept |
| FileIo.SurplusStays | src/kernel/fs/fat.c:494-502 | how long the chain is after a store, and that it has clusters the file does not need if and only if it had more before than the bytes need |
| FileIo.Store | src/kernel/fs/fat.c:439-516 | open, write in any pieces, close: the bytes are the start of the file, its slot has the claimed length, every other file is kept |
| FileIo.StoreUnplaced | src/kernel/fs/fat.c:439-516 | the session for a file numbered 0 or 1: where the bytes go, and when the FAT copies stay equal, exactly |
| FileIo.Load | src/kernel/fs/fat.c:412-436 | open, read in any pieces: the result is the contents up to what was asked for, the length and the chain end; empty for an empty file |
| FileIo.StoreThenLoad | src/kernel/fs/fat.c:412-516 | what is written in any pieces reads back in any pieces, if and only if the claimed length, cut at what is asked for and at the chain end known beforehand, is the number of bytes written |
| FileIo.ReadBack | src/kernel/fs/fat.c:421-422 | when a read of a file of a given length gives back exactly the bytes written |
| FileIo.HonestSum | src/kernel/fs/fs.c:82 | counters that tell the truth add up to the number of bytes written |
| FileIo.WrittenThenClosed | src/kernel/fs/fat.c:439-516 | a write and the closing behind it together store the bytes and the length and keep every other file |
| FatDir.ReadDir | src/kernel/fs/fat.c:250-329 | the listing is the slot-by-slot decoding of the whole chain |
| FatDir.CStringStops | src/kernel/fs/fat.c:288-290 | a name ends at its first zero |
| FatDir.CStringIs | src/kernel/fs/fat.c:288-290 | which bytes read as a given name, exactly |
| DirTheory.LongSlotReads | src/kernel/fs/fat.c:187-207 | decoding an encoded long slot gives the first twelve characters of the name |
| DirTheory.ShortSlotReads | src/kernel/fs/fat.c:213-224 | decoding an encoded short slot gives its type, first cluster and size 10, and it never looks unused |
| DirTheory.NewSlotsScan | src/kernel/fs/fat.c:274-324 | the two new slots, decoded after the old ones, add exactly one entry |
| DirTheory.QuietChain | src/kernel/fs/fat.c:150 | slots after the first unused pair add nothing to a listing |
| DirTheory.EntryAdded | src/kernel/fs/fat.c:165-233 | an entry put in the first unused pair of an orderly directory is listed last |
| DirTheory.EntryKeepsOrder | src/kernel/fs/fat.c:165-233 | the directory stays orderly: nothing follows its first unused pair |
| FatCreate.FindSlots | src/kernel/fs/fat.c:130-152 | the first unused pair of the chain, or the chain's last cluster when there is none |
| FatCreate.PutShortName | src/kernel/fs/fat.c:169-185 | eight characters and three of extension, byte for byte; without a dot the old extension bytes stay |
| FatCreate.WidenName | src/kernel/fs/fat.c:188-201 | the temporary buffer holds the characters, the end mark and the padding |
| FatCreate.PutLongName | src/kernel/fs/fat.c:188-207 | the wide name in its three fields, byte for byte |
| FatCreate.SlotsComplete | src/kernel/fs/fat.c:165-230 | the bytes stored piece by piece are the two slots as defined |
| FatCreate.PreparedOffers | src/kernel/fs/fat.c:155-162 | a freshly linked zeroed cluster offers its first pair |
| FatCreate.AddDirent | src/kernel/fs/fat.c:124-247 | the whole effect on the volume, and that the place noted in the node is the long slot's |
| FatFormat.EntryOnDisk | src/kernel/fs/fat.c:57-71 | the byte address of every FAT entry in every copy, and its byte order |
| FatFormat.ClusterOnDisk | src/kernel/fs/fat.c:45-54 | the byte address of every byte of every cluster |
| FatFormat.EndOnDisk | src/kernel/fs/fat.c:454-457 | the last entry of every chain is an end mark of the Specification in every FAT copy, byte by byte |
| FatFormat.WritingKeepsFormat | src/kernel/fs/fat.c:439-468 | a write leaves every chain one of the Specification |
| FatFormat.CreatingKeepsFormat | src/kernel/fs/fat.c:124-247 | a creation does so too |
| FatFormat.SessionKeepsFormat | src/kernel/fs/fat.c:124-516 | so does every session of creations and writes |
| FatFormat.ListsMore | src/kernel/fs/fat.c:274-324 | one more slot changes a listing that is read off raw slots as the driver's step does |
| FatFormat.ListingIsOnDisk | src/kernel/fs/fat.c:250-329 | the listing is the one read off the raw slots: an entry per long slot, its node what the very next slot says |
| FatFormat.ListedSays | src/kernel/fs/fat.c:308-320 | type, first cluster and length of every listed node, from the raw bytes at its place: directory if and only if bit 4 of byte 11 is set |
| FatFormat.EntryBytes | src/kernel/fs/fat.c:165-233 | the 64 bytes of a new entry, each |
| FatFormat.CreatedBytes | src/kernel/fs/fat.c:124-247 | what a creation leaves in those bytes and as the new file's FAT entry |
| FatListing.ZeroClusterKeepsOrder | src/kernel/fs/fat.c:155-162 | linking a zeroed cluster changes no listing and keeps the directory orderly |
| FatListing.CreatedIsListed | src/kernel/fs/fat.c:124-329 | a created file is listed last under its first twelve characters, its chain is new and zeroed, all other chains, listings and directories in order are kept |
| FatSize.SizeStored | src/kernel/fs/fat.c:507-511 | a length stored over a short slot changes exactly that entry's size; over a long slot it changes exactly that entry's name, and how |
| FatSize.ListedPlace | src/kernel/fs/fat.c:308-320 | every listed node is at a short slot of the directory's chain, says what that slot says, and shares its place with no other |
| FatSession.StoredLengthIsListed | src/kernel/fs/fat.c:316-318 | after storing through the node of entry k of a listing, entry k has the new length and every other entry is as before |
| FatSession.CreatedLengthIsLost | src/kernel/fs/fat.c:240-241 | after storing through a node from a creation, the directory still lists size 10, and the name if and only if it survives the two bytes that go over it |
| FatRuns.MarksKeepOrder | src/kernel/fs/fat.c:150 | the order of a directory depends on the first byte and the attribute of each slot alone |
| FatRuns.StoringKeepsOrder | src/kernel/fs/fat.c:505-511 | closing a written file leaves every directory in order, whichever slot its node remembers |
| FatRuns.ActKeeps | src/kernel/fs/fat.c:124-516 | a creation or a write keeps a directory in order and its old entries first, with their names, types and clusters |
| FatRuns.SessionKeepsDirectories | src/kernel/fs/fat.c:124-516 | the same over every session of creations and writes, with the new directories in order too |
| FatRuns.SessionKeepsFiles | src/kernel/fs/fat.c:124-516 | over every session a file that is not written keeps its contents |
| Paths.PartsAreComponents | src/kernel/fs/fs.c:195-210 | the components cut out are the pieces between slashes, with every empty piece but the last dropped |
| Paths.NamesJoined | src/kernel/fs/fs.c:199-201 | names joined by '/' are the components again |
| Paths.FirstNamedIs | src/kernel/fs/fs.c:170-178 | lookup gives the node of the first entry with the name |
| Paths.NamesLead | src/kernel/fs/fs.c:182-212 | what names joined by '/' lead to, name by name |
| Paths.PartsOfJoin | src/kernel/fs/fs.c:195-210 | the components of a/b are those of a and then those of b |
| Paths.JoinedPath | src/kernel/fs/fs.c:182-212 | resolving a/b is resolving b from the result of a, if a does not end in a slash and b is not empty |
| Paths.TrailingSlashFails | src/kernel/fs/fs.c:199-208 | a path that ends in a slash finds nothing, unless some entry has no name |
| Paths.JoinedPathExactly | src/kernel/fs/fs.c:182-212 | exactly when the two sides agree, for every a and b |
| Paths.CreatedIsFound | src/kernel/fs/fat.c:124-247 | after a creation the new name finds the new file unless an older entry has that name; every other lookup is unchanged |
| Vfs.Vfs.constructor | src/kernel/fs/fat.c:387-397 | after mounting, the root node leads to a node for the volume's root directory |
| Vfs.Vfs.ReadRoot | src/kernel/fs/fat.c:399-401 | the root directory's listing is what is on disk |
| Vfs.Vfs.Follow | src/kernel/fs/fs.c:165 | following mount pointers ends, at a node that stands for the same place |
| Vfs.MakeEntries | src/kernel/fs/fat.c:282-319 | one new, unfilled node for each entry that has one, with the entry's fields |
| Vfs.Vfs.FillDir | src/kernel/fs/fs.c:112-119 | a directory's listing becomes what is on disk; nothing on disk and no other listing changes |
| Vfs.Vfs.FindDir | src/kernel/fs/fs.c:163-179 | lookup finds the first entry of that name on disk, whether or not the directory was filled before; the node has the listed fields, its length included |
| Vfs.Vfs.Component | src/kernel/fs/fs.c:199-205 | the name buffer gets exactly the next component, and the rest is still to do |
| Vfs.Vfs.FindNext | src/kernel/fs/fs.c:195-210 | one turn of the loop takes one step of the fold |
| Vfs.Vfs.FindDirPath | src/kernel/fs/fs.c:182-212 | the answer is the fold of lookup over the components, a function of the disk alone, and the node found has the listed fields |
| Vfs.Vfs.FindRooted | src/kernel/fileio.c:66-73 | only paths that begin with a slash find anything, and they find what the rest resolves to from the root, with the listed fields |
| EndToEnd.FoldIsListed | src/kernel/fs/fs.c:182-212 | what a path leads to is an entry of some directory of the tree |
| EndToEnd.StoreThenResolve | src/kernel/fs/fat.c:505-511 | after a store through the node a path leads to, the path leads to the same node with the new length |
| EndToEnd.WriteThenRead | src/kernel/fs/fat.c:412-516 | find a path and, if its file has a first cluster, write in any pieces, close, mount afresh, find the path again and read in any pieces: what comes back is what was written |
| EndToEnd.Learn | src/kernel/fs/fat.c:505 | with the new length in one node, the whole tree of nodes is what the disk says again |
| EndToEnd.StoreInTree | src/kernel/fs/fat.c:482-516 | storing through a node of the tree keeps the tree true, with that place's length updated |
| EndToEnd.StoreAndFindAgain | src/kernel/fs/fs.c:163-212 | the same path in the same tree then leads to the same node, or to one just made, with the new length |
| EndToEnd.WriteThenReadInTree | src/kernel/fs/fat.c:412-516 | the round trip without a new mount |
| Trees.ZeroedRootIsTree | src/kernel/fs/fat.c:155-162 | a root directory of one zeroed cluster is a tree, with nothing listed |
| Trees.CreatingKeepsTree | src/kernel/fs/fat.c:124-247 | after a creation every listed node still is a directory of the tree exactly if it is marked as one, and has a chain or no cluster |
| Trees.WritingKeepsTree | src/kernel/fs/fat.c:439-516 | the same after a write |
| Trees.SessionKeepsTree | src/kernel/fs/fat.c:124-516 | over every session of creations and writes a tree stays a tree, new directories included |
| Trees.SessionKeepsPaths | src/kernel/fs/fs.c:182-212 | over every session a path that led somewhere leads to the same node but for its size, and a file nobody wrote has the same bytes under it |
| Descriptors.ParseMode | src/kernel/fileio.c:76-83 | the mode bits of the letters, or an error for any other character |
| Descriptors.ModeLetters | src/kernel/fileio.c:76-83 | what "r" and "w" ask for, and that any other letter is refused |
| Descriptors.TwosComplement | src/kernel/fileio.c:113-124 | counts and results cross between int and u32 modulo 2^32 |
| Descriptors.FdTable.KOpen | src/kernel/fileio.c:66-103 | the least free slot, or -1 exactly for no node, a bad mode or a full table |
| Descriptors.FdTable.KRead | src/kernel/fileio.c:113-117 | takes the next bytes of that descriptor and leaves what every other has pending alone |
| Descriptors.FdTable.KWrite | src/kernel/fileio.c:120-124 | writes through that descriptor, returns the unset counter, and leaves what every other has pending alone |
| Descriptors.FdTable.KClose | src/kernel/fileio.c:127-132 | frees the slot, slots 0 to 2 stay; a written file has its bytes and length stored, and every other descriptor has pending what it had |
| Descriptors.Serve | src/kernel/fileio.c:113-117 | for every interleaving of readers, each one's output is the start of what it had pending, as long as it asked for |
| Calls.ReadFile | src/kernel/fileio.c:66-132 | opened as "r" says and read, a file gives its bytes up to the size asked for, and the table is as before |
| Calls.WriteFile | src/kernel/fileio.c:66-132 | opened as "w" says, written and closed, a file begins with the bytes and its entry has the claimed length; every other file is kept |
| Turns.AnyLast | src/kernel/fs/fat.c:94-121 | how often the volume can still grow does not depend on which chain grows |
| Turns.BudgetStep | src/kernel/fs/fat.c:448-466 | a write of any of several writers leaves enough growth for what all of them have still to write |
| Turns.HasStays | src/kernel/fs/fat.c:448-466 | a write leaves every write cursor on another file where it was |
| Turns.TakeTurns | src/kernel/fileio.c:113-124 | for every interleaving of readers and writers of different files, each reader gets what it had pending, each cursor has been given what was written to it, and no other file changes |
| Heap.OrderedSpread | src/kernel/heap.c:47-54 | headers and payloads lie in strictly increasing order |
| Heap.PayloadsApart | src/kernel/heap.c:37-58 | no payload byte lies in another payload or in any header |
| Heap.StepKeeps | src/kernel/heap.c:37-67 | each request keeps the order, every address and, except for the last block, never enlarges a block |
| Heap.StepChanges | src/kernel/heap.c:37-67 | a request takes a block that nobody has, or gives one back, and changes no other |
| Heap.RunKeeps | src/kernel/heap.c:22-67 | over any run: order kept, no block moves, none but the last grows, and the last header's address accounts for all growth |
| Heap.RunIsSafe | src/kernel/heap.c:7-67 | from the initial heap, after any run, payloads are apart and the last header is at 0x100010 plus the growth |
| Heap.FirstFitIsLowest | src/kernel/heap.c:22-34 | the block chosen is the lowest that fits, and the heap grows if and only if no available block is large enough |
| Heap.SizeKeptExactly | src/kernel/heap.c:39-44 | over any run a block keeps its size if and only if every request it met asked for exactly that size |
| Heap.ReuseLosesRoom | src/kernel/heap.c:43 | a run in which a reused block costs the heap its room |
| Heap.KernelHeap.constructor | src/kernel/heap.c:7-19 | the two initial headers, linked |
| Heap.KernelHeap.HeaderWords | src/kernel/heap.c:39-54 | the four words in the sixteen bytes before every payload |
| Heap.KernelHeap.HeapFind | src/kernel/heap.c:22-34 | the walk ends, never at null, at the first block that fits |
| Heap.KernelHeap.KMalloc | src/kernel/heap.c:37-58 | the abstract allocation, with the list in memory linked again and every old payload byte kept |
| Heap.KernelHeap.KFree | src/kernel/heap.c:61-67 | the abstract release, with every payload byte kept |
| Heap.KernelHeap.ClientWrite | src/kernel/heap.c:57 | a write inside a live payload changes no header and no other payload |
| Paging.EntryFrame | src/kernel/page.c:35-38 | an entry's frame is the page it was made from, its flags the flags |
| Paging.WalkIsLookup | src/kernel/page.c:10-24 | the two-level walk, present bits and rights included, is one lookup in the consecutive tables; it never fails below 0xFFC00000, and user code may go from 8 MiB on only |
| Paging.Mmu.Enable | src/kernel/page.c:10-32 | every address below 0xFFC00000 translates to itself, writable, for user code from 8 MiB on and not below, and nothing is cached |
| Paging.Mmu.PagingMap | src/kernel/page.c:41-46 | exactly the n entries from the address on change, to consecutive frames |
| Paging.Mmu.MappingKeepsRights | src/kernel/page.c:35-46 | after any mapping every address below 0xFFC00000 translates, to the new frame or the old, for user code from 8 MiB on only |
| Paging.Mmu.StaleSeesOld | src/kernel/syscall.c:38-39 | without a flush a cached page goes on showing the process that had the window |
| Paging.Mmu.WindowRemapped | src/kernel/process.c:68-71 | remapping the window gives every page of the space its place for the new process |
| Paging.Mmu.FlushNeeded | src/kernel/syscall.c:38-39 | after a remap the cached translations are right if and only if no window page was among them |
| ProcessModel.ExecFrames | src/kernel/syscall.c:31-46 | every register of the trap frame after an exec: eip 0x800000, cs 8, ecx moved; or eax minus one and the rest unchanged |
| ProcessModel.DeepRunKeepsParents | src/kernel/process.c:13-39 | a run that stays above depth n leaves the n records below alone |
| ProcessModel.RunKeepsStacked | src/kernel/process.c:13-39 | in every run, failed execs included, ids count depth and memories lie end to end above the window |
| ProcessModel.RunKeepsPlaced | src/kernel/process.c:13-71 | in every run without half-failed execs the window is the top process's |
| ProcessModel.ExitRestoresParent | src/kernel/syscall.c:31-50 | after any well-nested run of a child, exit restores the parent's frame except eax and the stack, and gives the window to the parent's memory |
| ProcessModel.HalfExecRestoresOldFrame | src/kernel/process.c:54-57 | after a half-failed exec and any run above it, exit gives the caller stack and window, and the frame if and only if an earlier saved one agrees with it |
| ProcessModel.WindowAfterRun | src/kernel/process.c:84-98 | who has the window when a run is back at a level: the record there if anything exited to it, else whoever had it |
| ProcessModel.LeftRecordTakesWindow | src/kernel/process.c:54-57 | any exec after a half-failed one gives frame and stack back, but leaves the window on the left record's memory; that is where it was if and only if something had exited to that level |
| ProcessModel.ExecsSpendDescriptors | src/kernel/process.c:50 | free descriptors and those spent by execs, half-failed ones included, and opens balance over every run |
| ProcessModel.ExecsAreLimited | src/kernel/process.c:50 | without closing, fewer programs can be executed than descriptors were free |
| ProcessModel.PhysIs | src/kernel/process.c:68-71 | the window shows the process's memory byte for byte, the rest is itself |
| ProcessModel.MemoriesApart | src/kernel/process.c:22-32 | process memories overlap neither each other nor the window |
| ProcessModel.ArgumentStays | src/kernel/syscall.c:44-45 | the relocated argument pointer means the same physical byte to every later process, and the one the parent meant if and only if the parent, on top, has the window |
| ProcessModel.ArgumentAfterHalf | src/kernel/syscall.c:44-45 | behind a half-failed exec the pointer handed on is one window size too high, unless something has exited to that level |
| Image.SignedIs | src/kernel/abin.c:20 | which images load, by bytes 5 to 7 of the file |
| Image.ImageIsFile | src/kernel/abin.c:16-32 | a file of at least nine bytes is loaded byte k to offset k, whatever the stack held; a shorter one is filled up from the stack |
| Image.LoadParts | src/kernel/abin.c:16-36 | header and rest, read in two parts through one cursor, make up the image, if and only if the signature is right |
| Image.LoadRest | src/kernel/abin.c:27-32 | header buffer and rest of the file lie one behind the other in memory, also when the length less the header wraps around |
| Image.AbinLoad | src/kernel/abin.c:10-40 | success if and only if the file is there, a slot is free and, for a file of nine bytes or more, bytes 5 to 7 are 0x00, A, B; the table is as before, memory changes only on success |
| Kernel.Processes.ProcessAlloc | src/kernel/process.c:13-39 | pushes the record that the model's child is, and keeps the list doubly linked |
| Kernel.Processes.ProcessMap | src/kernel/process.c:68-71 | the window now shows the current process |
| Kernel.Processes.ProcessPop | src/kernel/process.c:84-98 | the parent is current again with its frame, the child's ebx as eax, and its window |
| Kernel.Processes.ProcessLoad | src/kernel/process.c:48-65 | the whole new state for each outcome, the half-failed one included |
| Kernel.Processes.SysExec | src/kernel/syscall.c:31-46 | refines the model's exec steps, with no stale translation left |
| Kernel.Processes.SysExit | src/kernel/syscall.c:47-50 | refines the model's exit step, with no stale translation left |
| Kernel.Processes.AccessIsPhys | src/kernel/page.c:49-52 | what the processor sees, cached or not, is the page walk and the window model, with the rights user code has |
| Kernel.Processes.ImageIsVisible | src/kernel/abin.c:28-32 | file byte k of a loaded image is read at virtual address 0x800000 + k |
| Kernel.SlotTaken | src/kernel/fileio.c:87-101 | taking a slot lowers the number of free slots by one |
| Kernel.OpenProgram | src/kernel/process.c:50-51 | opening the program fails exactly for no file or no slot, and costs one slot |
| Kernel.FetchProgram | src/kernel/process.c:48-57 | which outcome an exec has, exactly, and that every one past the first open costs a slot for good |
| Kernel.WillLoadIs | src/kernel/process.c:48-57 | when an exec succeeds, by the file's bytes 5 to 7 and the number of free descriptors |
| Kernel.Exec | src/kernel/syscall.c:31-46 | the exec call whole: stack, frame, window, free slots and memory for every outcome, which outcome it is by the file's bytes, and that the processor sees the file from the child's eip on |
| Console.ScreenIsLastRows | src/kernel/kprint.c:35-84 | from a cleared screen, the screen is the last 25 rows of the unbounded layout of what was printed |
| Console.PaperOnlyGrows | src/kernel/kprint.c:43-46 | printing more never rewrites a cell of the layout |
| Console.CursorMoves | src/kernel/kprint.c:43-53 | where the cursor is after any character, counted in cells of the 40 by 25 screen |
| Console.ScreenCell | src/kernel/kprint.c:72-84 | what each cell of the screen shows |
| Console.KeyIs | src/kernel/kprint.c:13 | every key of the keyboard's four rows gives the character printed on it, with and without shift |
| Console.TypedLine | src/kernel/kprint.c:153-185 | typing a text key by key makes it the line |
| Console.ShiftAndBackspace | src/kernel/kprint.c:163-174 | what shift and backspace do, by their scancodes |
| Console.TextIsRead | src/kernel/kprint.c:146-189 | after a text is typed and Enter pressed, the buffer holds the text and its end mark |
| Console.PressAgrees | src/kernel/kprint.c:153-185 | each key keeps buffer, screen and line in agreement |
| Console.EditorAgrees | src/kernel/kprint.c:146-189 | for every scancode sequence whose line fits, the buffer and the cells before the cursor are the line typed |
| Console.BufferIsOnScreen | src/kernel/kprint.c:167-184 | the characters read are the cells just before the cursor, across wraps and scrolls |
| Console.EnterIsSafe | src/kernel/kprint.c:180-187 | the terminator stays in the buffer whenever Enter comes if and only if the line was never longer than the buffer less one |
| Console.LastCellKept | src/kernel/kprint.c:180-183 | no character typed goes to the last cell of the buffer, however long the line |
| Console.RowsScrolled | src/kernel/kprint.c:76-82 | one row further down the paper, the screen is its old rows but the first, and a blank one |
| Console.RubOut | src/kernel/kprint.c:167-174 | n backspaces stay on the screen if and only if n cells of the line are still on it |
| Console.Console.KCls | src/kernel/kprint.c:26-32 | an empty page, drawn |
| Console.Console.KPrintC | src/kernel/kprint.c:43-53 | the buffer stays 25 rows of the paper with the character added, and a newline is drawn at once |
| Console.Console.ShiftRows | src/kernel/kprint.c:76-82 | the copy loop and the clearing leave exactly the rows but the first, and a blank one |
| Console.Console.KScroll | src/kernel/kprint.c:72-84 | moving the rows up is moving the first visible row down by one |
| Console.Console.KPrint | src/kernel/kprint.c:35-40 | prints exactly the characters before the first zero |
| Console.Console.KeyIn | src/kernel/kprint.c:155-184 | one key refines one step of the editor, out-of-bounds stops included |
| Console.Console.KGets | src/kernel/kprint.c:146-189 | refines the editor's step function, out-of-bounds stops included |
| Stdio.TextReadsBack | src/stdlib/stdio.c:23-26 | every number has a numeral without leading zero that reads back as it |
| Stdio.NumeralIsUnique | src/stdlib/stdio.c:23-26 | it is the only one |
| Stdio.TextWidth | src/stdlib/stdio.c:21-26 | a number below base^n has at most n digits |
| Stdio.CollectDecimal | src/stdlib/stdio.c:21-26 | the buffer holds the digits of a positive int backwards, in at most 10 cells, and nothing for any other |
| Stdio.PrintInt | src/stdlib/stdio.c:9-35 | what is printed reads back as the int in at most 10 digits; the least int prints as a lone sign |
| Stdio.PrintHex | src/stdlib/stdio.c:38-58 | what is printed reads back as the word in at most 8 digits |

## Left out

- FatFile.FatFs.FatWrite: growth is stated where the scans to come return unused clusters, exactly as often as CanGrowExactly says; elsewhere the cluster linked may be on a chain, and then ExtendKeepsChainedExactly says that no set of disjoint chains is left to state contents of.
- FatFile.FatFs.Extend: as FatWrite.
- FatFile.FatFs.Link: as FatWrite.
- FatFile.FatFs.LinkUnplaced: as FatWrite.
- FatFile.FatFs.FlushUnplaced: as FatWrite.
- FatFile.FatFs.FlushFull: as FatWrite.
- FatFile.FatFs.PutByte: as FatWrite.
- FileIo.FsWrite: as FatWrite.
- FileIo.StoreThenLoad: as FatWrite and Store.
- EndToEnd.WriteThenRead: as FatWrite; the directory tree must be well formed, no directory listed as a file, which SessionKeepsTree keeps; a file found without a first cluster is left alone, and StoreUnplaced says what writing it would do.
- EndToEnd.WriteThenReadInTree: as FatWrite, and the node must be the only one of the tree for its directory slot; where a directory is listed twice, the node under the other listing keeps the old length.
- EndToEnd.StoreInTree: as WriteThenReadInTree.
- EndToEnd.StoreAndFindAgain: as WriteThenReadInTree.
- FatDisk.Fat.ReadCluster: numbers of clusters that the volume does not have, and numbers 0 and 1 where the address wraps around, are excluded.
- FatDisk.Fat.WriteCluster: as ReadCluster; where two clusters are longer than a FAT copy, what numbers 0 and 1 overwrite is stated as bytes of the disk alone.
- FatDisk.ClusterUpdate: for clusters from 2 on; LowClusterUpdate says what the others do.
- FileIo.StoreUnplaced: of a file without a chain that is given more bytes than a cluster holds, only the first flush is stated, by FlushUnplaced; after it the FAT copies differ.
- FileIo.Load: a file without a chain is read only if its length is 0.
- FileIo.FsOpen: as Load.
- Descriptors.FdTable.KOpen: as Load.
- FatFile.FatFs.FatOpen: the cursor's buffer is sized by sectors per FAT, so the volume must have no more sectors per cluster than per FAT.
- FileIo.Store: as FatWrite; and the node's directory slot must lie in a chain other than the file's own, as on every well-formed volume.
- FatDisk.Fat.ReadFatEnt: entries are compared whole, as the driver does; SpecChainIsChain says what that means for top bits that are set.
- Paging.WalkIsLookup: entries of the last 4 MiB, whose table the source never fills, and the accessed and dirty bits, which the processor sets, are not modelled; a cached translation keeps its frame only, as no remap here changes a page's rights.
- FatDisk.Fat.constructor: one FAT32 partition with geometry already read; remounting with a filled cache and FAT12/16 are not modelled.
- FatCreate.AddDirent: like growth, stated where the scans to come return free clusters; names longer than twelve characters are cut, as in the code.
- Vfs.Vfs.FindDirPath: components of 128 characters or more overrun the source's name buffer and are excluded; the directory tree must be well formed.
- Vfs.Vfs.FindRooted: as FindDirPath.
- Vfs.Vfs.FindNext: as FindDirPath.
- Vfs.Vfs.Component: as FindDirPath.
- Descriptors.FdTable.KRead: console descriptors, whose callbacks are the console's, and directories, which get no cursor and whose bytes the driver would look for through a null one, are not readers of this table.
- Descriptors.Serve: as KRead.
- Descriptors.FdTable.KWrite: as FatWrite; nobody else has the file open, since a reader of a file being written sees its old buffer.
- Descriptors.FdTable.KClose: as KWrite, for a written file that has a chain and an entry in no open file's clusters.
- Turns.TakeTurns: as KWrite.
- Calls.WriteFile: as KWrite; the file has a chain, and its directory is not open as a file.
- Calls.ReadFile: as KRead.
- Heap.KernelHeap.KMalloc: the heap has no limit check; memory is taken to be large enough, and sizes are below 2^31.
- Heap.KernelHeap.KFree: the pointer is one the heap handed out.
- Image.AbinLoad: directories, as KRead; the entry field, which nothing reads; what an uninitialised header buffer holds is a parameter.
- Kernel.Processes.ProcessAlloc: with no current process the source writes through a null pointer before it sets the first one; that store is taken to do nothing.
- Kernel.Exec: the path is already resolved to a node, which FindRooted does and which then has the listed length, and the records' own heap blocks are not tied to the heap model.
- Console.EditorAgrees: lines longer than the buffer or than 960 characters are covered only by EnterIsSafe, RubOut and KGets itself.
- Console.EnterIsSafe: a line of more than 960 characters in a buffer of more than 961 cells can leave the screen before the buffer; what rubbing it out then does is RubOut.
- Console.Console.KFlush: drawing is copying cells; glyphs, pixels and the cursor bar are not modelled.
- Stdio.PrintInt: the write system call is taken to append its byte to the output.
- The in-memory listing after a file is created: the source links no directory entry for it; creation is stated on disk.
- fs_readdir and the readdir, driver and unknown system calls.
- Formatted printing, which only dispatches to the printers.
- The boot sequence, whose first mapping of the window is not followed by a flush.
- ATA, PIC, IDT, VGA, keyboard interrupt timing and inline assembly: hardware. Sectors are read and written as array copies and scancodes are an input sequence.
- The ext2 and ELF code, unistd.c and the old build script: not used by the kernel that is built.
