# A verified model of an ext2/3/4 formatter and checker

The repository makes, checks and repairs ext2, ext3 and ext4 filesystems. This
project models the algorithms its safety rests on and proves, for all inputs
and all runs, what they promise. `dafny verify dfyconfig.toml` checks it.

- **Journal replay** (`JournalFormat`, `JournalLog`, `JournalReplay`,
  `JournalDisk`, `JournalRecovery`, `JournalCrash`, `JournalWriting`,
  `JournalRoundTrip`, over `Bytes`). The circular
  log is unrolled into positions; a transaction is an index from which its
  32-bit number follows. `Recover` runs the scan, revoke and replay walks with
  wrapped block and transaction numbers and is proved to leave the specified
  device by the specified sequence of writes and flushes. What a log owes a
  block is stated over its committed copies and revocations in order, with no
  revoke table and no replay loop. Crashes keep any subset of the writes since
  the last flush. Writing is stated in numerals of its own, and recovering what
  was written gives every block the last data written for it and not revoked.
- **Write-back cache** (`CacheModel`, `Cache`). The class keeps entries with
  valid and dirty intervals; a ghost flat array is what it is meant to look
  like, and every operation is proved against that array.
- **Indirect maps** (`IndirectTree`, `IndirectInode`, `IndirectVisits`,
  `IndirectMap`, `IndirectBuild`, `IndirectFile`). Pointer blocks in a store are
  read as trees; truncating in place, walking with a stack, resolving by radix
  arithmetic and building are each proved against the tree.
- **Extent trees** (`ExtentTree`, `ExtentStore`, `ExtentVisits`, `ExtentMap`),
  in the same way. `BlockRefs` is what a walk of either kind of map visits.
- **Block sets, bitmaps and accounting** (`BlockRuns`, `Bitmaps`,
  `Accounting`). The checker's runs refine a set; the formatter's and the
  checker's group bitmaps and counts are the same bytes and numbers.
- **Placement, sizing and allocation** (`FirstFit`, `Layout`, `Fronts`,
  `Allocator`, `Geometry`, `Allocation`, `Planning`). `Fronts` says which blocks
  superblock copies and descriptors take, apart from the layout that computes it. Over any list of requests of all kinds
  no block is handed out twice; a filesystem placed and allocated so has no block
  with two owners when it is checked.
- **Hashed directories** (`HashIndex`), **mount protection** (`Mmp`), a timed
  state machine of any number of hosts on one block, and **freeing**
  (`AllocStats`, `Release`, `Orphans`), which ties truncation and walking to
  the bitmaps and counts, one inode at a time and along the whole chain, through
  extents and indirect blocks alike.

`Arith` holds what is needed of products and quotients, `BlockSets` of multisets
of blocks, and `Options` is the type of a value that may be absent.

## Where the code falls short of a promise

- A lookup of `.` or `..` through the hash index of a directory answers that
  the name does not exist, because the index never reaches the root block that
  lists them. The index answers whenever the blocks it points to are there
  (`HashIndex.LookupIndexed`), and its answer is right if and only if the root
  block does not list the name itself (`HashIndex.IndexAnswers`,
  `HashIndex.Lookup`). `HashIndex.DotIsMissed` looks `.` up in such a directory.
- A checker does not refresh its mark in the mount-protection block, so it can
  be overrun. Its mark keeps every other host out if and only if no other host
  had made up its mind to stamp the block when the mark was written
  (`Mmp.MarkHoldsIffNoneReady`, for any number of mounters and checkers);
  `Mmp.CheckerCanBeOverrun` is one whole run in which it does not. Hosts that all
  found the block clean need no such condition (`Mmp.RaceHasOneWinner`).
- A host that found the block clean waits the superblock's interval, however long
  an interval another host has promised to refresh within. A stamp keeps everyone
  else out if and only if the wait after it outlasts every holder's promise
  (`Mmp.StampHoldsIffOutlasts`); `Mmp.LongHolderCanBeOverrun` is a run in which a
  late stamp does not. While holders refresh in time and checkers mark alone, it is
  enough that every stamp lands within one wait of its host's last look
  (`Mmp.PromptExcludes`), or that the block never promised more than the
  superblock asks for (`Mmp.OneIntervalExcludes`): no two hosts then ever have the
  filesystem, although a refresh rewrites the same number and so overwrites a
  newcomer's stamp.
- The scan wraps once over a descriptor's data. One wrap is right if and only if
  no second turn was due (`JournalLog.WrapIsUnrolled`). Recovery reads outside the
  log, and stops there with nothing written, if and only if a descriptor it goes
  on from takes a second turn (`JournalRecovery.Journal.Recover` with
  `JournalLog.Stays`); `JournalLog.OneWrapFallsShort` is such a log. No log does
  so whose descriptors list no more tags than it has blocks
  (`JournalLog.ShortDescriptorsStay`), nor one at least as long as the tags that
  fit in a block (`JournalLog.LongLogStays`).
- A group may be given more blocks than a bitmap block has bits. The formatter
  then fails if and only if one of the blocks without a bit is in use or missing
  (`Accounting.BuildGroup`); a short group always fails (`Accounting.SmallGroupsFit`).

## Model

| member | source | states |
|---|---|---|
| `Bytes.WordRoundTrip` | src/journal.rs:179-188 | A big-endian word read back from where it was put is the word put, whatever surrounds it. |
| `Bytes.BigEndian` | src/journal.rs:183-186 | The most significant of a word's four bytes comes first. |
| `JournalFormat.TidOrder` | src/recovery.rs:240-247 | Comparing 32-bit transaction numbers by wrapped difference orders any two transactions of one log as their positions do, across the wrap at 2^32, for logs shorter than 2^31. |
| `JournalFormat.TidSuccessor` | src/recovery.rs:240-247 | The number after a transaction is that of the next position in the log, also at the wrap. |
| `JournalFormat.TagCountBound` | src/recovery.rs:461-486 | A descriptor block holds no more tags than fit between its header and its end. |
| `JournalFormat.TagsFit` | src/recovery.rs:461-486 | A block of a given size lists at most as many tags as fit after its header. |
| `JournalFormat.ReadTags` | src/recovery.rs:461-486 | The loop over a descriptor block yields its tags up to the last-tag flag or the checksum tail, UUIDs skipped; what a tag says is JournalWriting.DescriptorReads. |
| `JournalFormat.ReadRevokeRecords` | src/recovery.rs:489-507 | The loop over a revoke block yields the block numbers it lists, or finds its length longer than the block. |
| `JournalWriting.HeaderReads` | src/recovery.rs:523-530 | A header of magic, kind and transaction number reads as that kind, and as belonging to that transaction and no other. |
| `JournalWriting.DescriptorReads` | src/recovery.rs:461-486 | A descriptor block written from any list of blocks, each with its 32- or 64-bit home, its flags, whatever the checksums put in its tag and a UUID unless it shares the one before, reads back as that list, whether the last is flagged as the last or there is no room for another tag before the checksum tail. |
| `JournalWriting.RevokesRead` | src/recovery.rs:489-507 | A revoke block written from any list of 32- or 64-bit block numbers reads back as that list. |
| `JournalWriting.LongRevokesFail` | src/recovery.rs:489-507 | A revoke block is found too long if and only if it claims more bytes than it has before its checksum tail. |
| `JournalWriting.CommitReads` | src/recovery.rs:536-542 | A commit block reads as one, with the time written at byte 48. |
| `JournalWriting.LoggedComesBack` | src/recovery.rs:622-626 | A block logged with its first four bytes zeroed where they are the magic, and the tag flagged, goes home as it was. |
| `JournalLog.WrapStaysInLog` | src/recovery.rs:411-417 | One subtraction brings a block number into the log if and only if no second turn was due. |
| `JournalLog.WrapIsUnrolled` | src/recovery.rs:411-417 | One wrap of b + n is n single steps round the log if and only if it takes no second turn, which a step of up to the length of the log never does. |
| `JournalLog.OneWrapFallsShort` | src/recovery.rs:511-538 | In a log of two blocks that opens with a descriptor of zeros after its header, the scan's wraps lead outside the log. |
| `JournalLog.ShortDescriptorsStay` | src/recovery.rs:511-538 | Where no descriptor of the log lists more tags than it has blocks, the scan stays in the log; other blocks may hold anything. |
| `JournalLog.LongLogStays` | src/recovery.rs:511-538 | So it does in a log at least as long as the tags that fit in a block, whatever its blocks hold. |
| `JournalLog.ScanFindsLongest` | src/recovery.rs:511-574 | From any point of a scan, a number of transactions is complete and verified if and only if the scan counts at least that many. |
| `JournalLog.ScanIsLongest` | src/recovery.rs:511-574 | The end the scan reports is the longest run of complete, verified transactions, and is found within one turn of the log. |
| `JournalLog.PassesReachEnd` | src/recovery.rs:586-655 | After any scan, the revoke and the replay walk both reach the end it reported: the "ended at transaction X, expected Y" error and the replay's descriptor-checksum failure cannot happen. |
| `JournalLog.ScanEnds` | src/recovery.rs:511-574 | The scan ends at the first header that does not open the next step, or after as many headers as the log has blocks; it reports a corrupt commit or a bad checksum exactly where a commit no earlier than the one before is wrong, or follows a block with a wrong checksum since that one. |
| `JournalWriting.LogReads` | src/recovery.rs:511-657 | A log that holds descriptors, revoke blocks and commits one after another is scanned to its last commit, and what the later passes meet is every block and revoked number written, in order. |
| `JournalReplay.PassHeader` | src/recovery.rs:586-655 | Both later walks step over one header block to the same next block and the same next transaction as the scan did. |
| `JournalReplay.AllAhead` | src/recovery.rs:586-655 | What the later walks meet, from start to end, is exactly the events of the committed transactions in log order. |
| `JournalReplay.LastRevokeIsLatest` | src/recovery.rs:636-648 | The revoke table entry of a block is the latest transaction that revokes it, and there is none if and only if none does. |
| `JournalReplay.LastWriterIsLast` | src/recovery.rs:600-633 | The copy whose data a block ends up with is the last one, in log order, that is written at all. |
| `JournalReplay.ReplayLeaves` | src/recovery.rs:600-633 | A replay leaves in each block the unescaped data of its last written copy, and every other block unchanged. |
| `JournalReplay.ReplayForgets` | src/recovery.rs:600-633 | Blocks the replay writes do not depend on what they held before. |
| `JournalReplay.FaultlessReplayPays` | src/recovery.rs:578-657 | With no copy faulty, every block gets what the log owes it: the last logged copy of a transaction after the latest that revoked it, or its old contents when there is none. |
| `JournalReplay.OwedIsUnique` | src/recovery.rs:578-657 | A log owes a block one content. |
| `JournalReplay.CopiesAccountedFor` | src/recovery.rs:600-633 | Each logged copy is written, skipped as revoked or reported as a fault: the three counts add up. |
| `JournalReplay.TracksPast` | src/recovery.rs:636-648 | Events that revoke nothing leave the revoke table right. |
| `JournalReplay.WritesAreGood` | src/recovery.rs:600-633 | Whatever is written home is the unescaped data of a surviving copy which, with checksums on, passes the data checksum for its own transaction. |
| `JournalReplay.FaultsAreReported` | src/recovery.rs:600-633 | A surviving copy that fails its checksum is reported as a bad block, and one past the end of the filesystem as outside it. |
| `JournalDisk.StampKeeps` | src/recovery.rs:669-678 | Stamping the superblock checksum changes the checksum word alone. |
| `JournalDisk.StampVerifies` | src/recovery.rs:669-678 | A stamped superblock passes the checksum test it is opened with. |
| `JournalDisk.ResetReadsBack` | src/recovery.rs:680-690 | A reset superblock reads back as an empty log with the given next transaction. |
| `JournalDisk.SuperblockWords` | src/journal.rs:52-66 | The sequence, the start, the error and the checksum are the words at bytes 24, 28, 32 and 252. |
| `JournalDisk.RestartIsNew` | src/recovery.rs:748-751 | After a clean replay the number the log restarts at is that of none of its transactions, the uncommitted one after the last included; after any other it is the old one. |
| `JournalRoundTrip.OwedIsRestored` | src/recovery.rs:578-657 | What the log owes a block is the data of the last descriptor entry for it that no revoke of the same or a later transaction covers, or its old contents if there is none. |
| `JournalRoundTrip.RecoveryRestores` | src/recovery.rs:704-762 | So recovery of a log as it was written, with right checksums and homes on the device, is without fault and leaves exactly that in every block. |
| `JournalRoundTrip.ShortPiecesStay` | src/recovery.rs:511-538 | The scan stays in a log written with no more blocks to a descriptor than the log is long. |
| `JournalDisk.RecoveryPays` | src/recovery.rs:704-762 | After a recovery that reports no error, every block but the journal superblock holds what the log owes it, for any log, wrap-around of the log and of transaction numbers included. |
| `JournalDisk.RecoveryEmptiesJournal` | src/recovery.rs:680-762 | Recovery leaves an empty journal that opens again; recovering a second time changes no home block. |
| `JournalRecovery.Journal.Scan` | src/recovery.rs:511-574 | The scan loop, wrapped block numbers and 32-bit transaction numbers included, reads outside the log if and only if a descriptor on its way takes a second turn; otherwise it computes the specified scan and reports a bad checksum or a corrupt commit where it says. |
| `JournalRecovery.Journal.NoteRevokes` | src/recovery.rs:636-648 | A revoke block's records are entered so that each block keeps its latest revoking transaction. |
| `JournalRecovery.Journal.StepOver` | src/recovery.rs:604-609 | Stepping over a descriptor's data one wrapped block at a time is n steps in the unrolled log. |
| `JournalRecovery.Journal.ReplayTag` | src/recovery.rs:600-633 | One logged copy is verified, unescaped and written home, skipped as revoked, or reported; which, JournalReplay.WritesAreGood and FaultsAreReported say without naming the judgement. |
| `JournalRecovery.Journal.ReplayPass` | src/recovery.rs:578-657 | The replay walk makes of the device, its sequence of writes and the report what the log's events do, in order. |
| `JournalRecovery.Journal.RevokePass` | src/recovery.rs:578-657 | The revoke walk ends with the latest revoking transaction of every block, or fails if and only if a revoke block is malformed. |
| `JournalRecovery.Journal.Reset` | src/recovery.rs:680-690 | The in-memory superblock and the block on the device become the reset superblock. |
| `JournalRecovery.Journal.Recover` | src/recovery.rs:704-762 | Recovery stops with nothing written if and only if the scan reads outside the log; otherwise it leaves exactly the specified device, by exactly the specified writes and flushes in order, and reports no error if and only if the log is faultless. JournalRoundTrip.RecoverWritten states it from what was written. |
| `JournalRoundTrip.RecoverWritten` | src/recovery.rs:704-762 | Recovering a journal whose log was written from any list of transactions reports no error, empties the journal and leaves in every block the last live data written for it, or what it held before. |
| `JournalCrash.WrittenIsReplay` | src/recovery.rs:600-633 | The writes a replay asks for, applied in order, are the replay. |
| `JournalCrash.RecoveryIsCrashIdempotent` | src/recovery.rs:680-762 | Stop at any write or flush of a recovery, keep any subset of the writes not yet flushed, recover again: the scan stays in the log if it did the first time, and every home block is as if the first run had finished. |
| `JournalCrash.ResetImpliesReplayed` | src/recovery.rs:748-761 | If the reset reached the device in any crash, so did every replayed block. |
| `CacheModel.ChangeOneBlock` | src/cache.rs:68-80 | A change confined to one block cannot disturb what the cache shows of any other. |
| `CacheModel.FillShows` | src/cache.rs:216-226 | Filling an entry in from the device keeps the bytes shown, dirty ones in place. |
| `CacheModel.PutShows` | src/cache.rs:373-425 | A write taken into an entry is a write to the flat array, for any valid and dirty ranges it touches. |
| `CacheModel.WriteBackShows` | src/cache.rs:230-274 | Writing a block's dirty range back shows the same bytes, whether the block then stays clean or leaves. |
| `CacheModel.ZeroCachedShows` | src/cache.rs:444-478 | Zeroing part of a cached block, on the device and in the entry, zeroes exactly that in the flat array. |
| `CacheModel.ZeroBareShows` | src/cache.rs:444-478 | Zeroing a block with no entry, or dropping one zeroed whole, does the same. |
| `CacheModel.MissRunReads` | src/cache.rs:203-214 | A run of uncached blocks read in one go is the bytes shown there. |
| `CacheModel.CleanDeviceIsShown` | src/cache.rs:431-442 | With no dirty entry left the device is the flat array. |
| `Cache.GatherPatch` | src/cache.rs:230-274 | Adding a block's dirty bytes to the run being gathered has the effect of writing that block on its own after the run. |
| `Cache.Oldest` | src/cache.rs:277-295 | The entries chosen to leave are older than every one that stays. |
| `Cache.CachedDevice.constructor` | src/cache.rs:159-177 | The cache holds at least eight blocks and shows the device. |
| `Cache.CachedDevice.FillEntry` | src/cache.rs:216-226 | The entry becomes valid throughout without changing what is shown. |
| `Cache.CachedDevice.WriteBack` | src/cache.rs:230-274 | Coalesced write-back of any ascending list of blocks has the effect of writing each dirty range on its own. |
| `Cache.CachedDevice.MakeRoom` | src/cache.rs:277-295 | There is room for one more block afterwards, and what left was older than what stayed. |
| `Cache.CachedDevice.ReadAt` | src/cache.rs:308-371 | A read returns the bytes of the flat array, or is refused past its end; the array is unchanged. |
| `Cache.CachedDevice.WriteAt` | src/cache.rs:373-429 | A write changes the flat array in exactly its range, or is refused. |
| `Cache.CachedDevice.Flush` | src/cache.rs:431-442 | After a flush the device equals the flat array and no entry is dirty. |
| `Cache.CachedDevice.WriteZeroes` | src/cache.rs:444-478 | Zeroing zeroes the flat array in exactly its range, over dirty and clean entries alike. |
| `Cache.ServeAll` | src/cache.rs:299-478 | Any sequence of reads, writes, zeroings and flushes is answered as a flat byte array would answer it, at any capacity and with a short last block. |
| `IndirectTree.CutGet` | src/orphan.rs:596-645 | Cutting a tree of indirect blocks at any depth keeps the mapping below the cut and nothing from it on. |
| `IndirectTree.CutShape` | src/orphan.rs:596-645 | A cut tree is again a tree of the same depth. |
| `IndirectTree.CutBlocks` | src/orphan.rs:596-645 | A cut owns no block the tree did not. |
| `IndirectTree.LoadFrame` | src/orphan.rs:596-645 | A tree is read from its own blocks alone, so writing others cannot change it. |
| `IndirectInode.RootsFrame` | src/orphan.rs:562-591 | So is the map of a whole inode. |
| `IndirectTree.ProgressOn` | src/orphan.rs:605-636 | Truncating one pointer of an indirect block disturbs none of its others. |
| `IndirectTree.ProgressDone` | src/orphan.rs:637-645 | The block is empty if and only if nothing is left of the tree; otherwise, written back, it reads as the cut tree. |
| `IndirectInode.CutMapped` | src/orphan.rs:562-591 | Over the twelve direct pointers and three roots, the cut map is the old one below the cut and empty from it on. |
| `IndirectInode.AllTruncated` | src/orphan.rs:562-591 | Freed blocks and blocks still owned partition those owned before: none lost, none twice. |
| `IndirectInode.GetByDigit` | src/fs.rs:828-840 | Indexing by a digit of the logical number in base block-pointers goes down the same path as subtracting the spans before it. |
| `IndirectInode.DirectThenIndirect` | src/fs.rs:808-846 | Logical blocks below twelve are the direct pointers; the rest are what one, two and three levels of indirect blocks map, one after another. |
| `IndirectInode.Bases` | src/fs.rs:808-846 | The roots begin at 12, 12 + p and 12 + p + p^2, and the map ends at 12 + p + p^2 + p^3, for p pointers to a block. |
| `IndirectMap.BlockStore.CollectSubtree` | src/orphan.rs:649-672 | The stack walk frees every block under an indirect block, itself included, each as often as it occurs. |
| `IndirectMap.BlockStore.TruncateBlock` | src/orphan.rs:596-645 | Truncation in place leaves the cut tree in the store, touches only the tree's own blocks, and frees exactly what the cut no longer owns. |
| `IndirectMap.BlockStore.TruncateIndirect` | src/orphan.rs:562-591 | Truncating an unshared map: resolving is unchanged below the cut and unmapped from it on; freed and kept blocks partition those owned; no other block changes. |
| `IndirectMap.BlockStore.ResolveBlock` | src/fs.rs:808-846 | Resolving by radix arithmetic finds what the tree maps, in the direct range, each root's range and past the end. |
| `IndirectVisits.VisitsAreGraph` | src/fs.rs:765-806 | The data visits under a pointer are the graph of its mapping, each logical block once. |
| `IndirectVisits.VisitsAreBlocks` | src/fs.rs:765-806 | The blocks visited are the blocks owned, with multiplicity. |
| `IndirectVisits.MapIsWalked` | src/fs.rs:725-760 | A walk of all fifteen pointers visits the graph of the whole mapping and every block owned. |
| `IndirectMap.BlockStore.WalkLevel` | src/fs.rs:765-806 | The explicit-stack walk terminates on any contents, visits everything under the block once, and returns the logical block after the last it can map. |
| `IndirectMap.BlockStore.WalkIndirect` | src/fs.rs:725-760 | The set of (logical, physical) data blocks visited is exactly the graph of resolving, and the blocks visited are those owned. |
| `IndirectBuild.NodeCovers` | src/format.rs:360-438 | A block of pointers, each mapping its share of a list, maps the list. |
| `IndirectBuild.Built` | src/format.rs:392-430 | An indirect block written with its pointers, zeros after the last, maps the list to its end and nothing past it. |
| `IndirectBuild.Builder.Build` | src/format.rs:360-438 | The map built from any list of non-zero blocks resolves logical i to the i-th block for every i and to nothing past the end; it fails only when blocks run out or the list exceeds triple indirection. |
| `IndirectFile.FileAllocator.AllocTree` | src/format.rs:285-356 | Data and indirect blocks taken as they are first needed form a tree that maps the file so far, out of blocks never taken before, by this file or before it; what was handed out before is kept. |
| `IndirectFile.FileAllocator.AllocFile` | src/format.rs:285-356 | The allocated file maps logical i to its i-th data block; data and indirect blocks are all distinct, are exactly those owned, and none had been handed out before; it fails only when no block is free or the file exceeds double indirection. |
| `IndirectFile.FileLimit` | src/format.rs:285-356 | The pointers that allocation fills, up to the double indirect one, map 12 + p + p^2 blocks, for p pointers to a block. |
| `ExtentTree.LookupIsFind` | src/fs.rs:848-882 | Descending by the last index at or before a block finds what searching every extent of a well-formed tree would. |
| `ExtentTree.StoredFinds` | src/structs/extent.rs:126-137 | An extent stored for n written blocks (1 to 32768, length n) or n unwritten ones (1 to 32767, length 32768 + n) covers exactly n blocks, the i-th at its start plus i, marked written or not. |
| `ExtentTree.LookupStored` | src/fs.rs:848-882 | Looking any of them up in a well-formed tree finds it, at start plus i and marked as stored. |
| `ExtentTree.LookupOnlyStored` | src/fs.rs:848-882 | A block that is found is one of the n blocks of some extent, and of none longer than stored. |
| `ExtentTree.CutFlat` | src/orphan.rs:442-528 | The extents of a truncated tree are the tree's extents truncated one by one, although whole subtrees are dropped, kept or pruned. |
| `ExtentTree.CutFinds` | src/orphan.rs:465-480 | Truncated extents map the same blocks below the cut, uninitialised ones staying uninitialised, and nothing from it on. |
| `ExtentTree.CutWellFormed` | src/orphan.rs:442-528 | A truncated tree is well formed: same depth, entries in order, everything within its range. |
| `ExtentTree.CutLookup` | src/orphan.rs:442-528 | Looking up in the truncated tree is looking up in the old one below the cut and nothing from it on. |
| `ExtentStore.CutOwns` | src/orphan.rs:442-528 | A truncated tree owns no block it did not own. |
| `ExtentStore.ReadsFrame` | src/orphan.rs:484-517 | A tree is read from its own blocks alone. |
| `ExtentMap.TruncatingOn` | src/orphan.rs:484-517 | Truncating one child disturbs neither the entries kept before it nor those to come. |
| `ExtentMap.CutTruncates` | src/orphan.rs:203-214 | What is freed and what is kept partition the blocks owned before, so the number freed is the drop in blocks owned. |
| `ExtentMap.ExtentDevice.CollectSubtree` | src/orphan.rs:532-559 | Every node and data block under an index is freed once; it fails if and only if there are more than a million nodes. |
| `ExtentMap.ExtentDevice.TruncateLeaf` | src/orphan.rs:463-481 | The extents kept are the extents truncated, and the blocks past the cut are freed. |
| `ExtentMap.ExtentDevice.TruncateNode` | src/orphan.rs:442-528 | Truncation in place leaves the truncated tree in its blocks and touches no others; it fails if and only if a dropped subtree exceeds the guard. |
| `ExtentMap.ExtentDevice.Truncate` | src/orphan.rs:415-437 | Truncating a well-formed, unshared tree: well-formed result, mapping restricted below the cut, freed list without duplicates and exactly what is no longer owned. |
| `ExtentMap.ExtentDevice.ResolveExtent` | src/fs.rs:848-882 | The descending loops find what the specification of a lookup maps the block to; ExtentMap.StoredIsResolved says what that is of an extent as stored. |
| `BlockRuns.LengthIsSize` | src/fsck.rs:314-322 | The lengths of runs apart from one another add up to the number of blocks. |
| `BlockRuns.MergedHeld` | src/fsck.rs:333-369 | Replacing the swallowed runs by one merged run adds exactly the range inserted. |
| `BlockRuns.RunSet.Insert` | src/fsck.rs:333-369 | After an insert the runs are disjoint, non-touching, non-empty and hold the set plus the range; the count is its size; what is returned is exactly the part already held. |
| `BlockRuns.RunSet.Within` | src/fsck.rs:383-396 | The parts yielded are in order and are exactly what is held within the range. |
| `BlockRuns.ScanState.ClaimRange` | src/fsck.rs:887-892 | A claim adds its blocks, and to the duplicates exactly those someone already had. |
| `BlockRuns.ScanState.ClaimAll` | src/fsck.rs:882-892 | After any claims, the blocks held are those claimed and the duplicates exactly those claimed more than once. |
| `Bitmaps.SetBits` | src/fsck.rs:1539-1553 | Setting whole bytes where possible sets exactly the range, clipped to the bitmap. |
| `Bitmaps.BitIsDigit` | src/fsck.rs:1539-1553 | A byte's bits are numbered from the least significant: bit 0 is its value mod 2, bit k is bit k - 1 of its half. |
| `Bitmaps.SameBitmap` | src/fsck.rs:1583-1596 | Bitmaps with the same bits are the same bytes. |
| `Bitmaps.CountOnes` | src/format.rs:983-989 | Counting ones byte by byte counts the set bits. |
| `Bitmaps.SetTest` | src/fs.rs:1092-1105 | Setting a bit sets it and changes no other. |
| `Bitmaps.ClearTest` | src/fs.rs:1092-1105 | Clearing a bit clears it and changes no other. |
| `Accounting.OwnedIsMarked` | src/format.rs:958-975 | When flex groups keep to their own span, the blocks of a group that have an owner anywhere are those marked from its own flex group. |
| `Accounting.BuildGroup` | src/format.rs:928-995 | It fails if and only if a block that is owned or missing has no bit in the bitmap block; otherwise the formatter's bitmap has a bit for each owned block and each bit past the group's end, and its free count is the blocks left. |
| `Accounting.SmallGroupsFit` | src/format.rs:928-995 | Groups no larger than a bitmap block has bits are always built; a short group is built only then. |
| `Accounting.RebuildGroup` | src/fsck.rs:1567-1581 | The checker's rebuilt bitmap and count are the same, from runs of claimed blocks. |
| `Accounting.GroupStateIsUnique` | src/fsck.rs:1582-1596 | Bitmap and count made either way are the same bytes and the same number. |
| `Accounting.ClaimedIsOwned` | src/fsck.rs:964-1040 | What the checker claims for a planned filesystem is what the layout and the plan's runs own. |
| `Accounting.FreeAddsUp` | src/fsck.rs:1693-1713 | The groups' free counts add up to the free blocks of the filesystem. |
| `Accounting.FreeAndOwned` | src/fsck.rs:1693-1713 | Free and owned blocks of a range add up to its length. |
| `Accounting.RebuildAll` | src/fsck.rs:1556-1713 | Summed over groups, free plus used is the block count less the first data block. |
| `Accounting.CheckPlanned` | src/fsck.rs:896-1713 | Claiming a planned filesystem finds as duplicates exactly the blocks with two owners, and rebuilding gives every group the state its owned blocks demand, with their total. |
| `Accounting.BuildAll` | src/format.rs:1149-1170 | The formatter gives every group that same state, and adds the counts up to the free blocks of the filesystem; it fails if and only if a group does. |
| `Accounting.FormatThenCheck` | src/fsck.rs:1539-1713 | What the checker rebuilds of a filesystem just formatted is byte for byte the formatter's bitmaps, with its counts and its total. |
| `Planning.SoundPlans` | src/layout.rs:178-273 | Sizes out of the retries make a plan, where a superblock copy and the descriptors fit in a group; groups no larger than a bitmap block has bits can all be built. |
| `Planning.PlacesApart` | src/layout.rs:541-599 | The bitmaps and inode tables of any two groups, of one flex group or two, do not meet. |
| `Planning.NothingClaimedTwice` | src/fsck.rs:882-1040 | With metadata placed flex group by flex group and files allocated off it, no block is claimed twice. |
| `Planning.CheckFormatted` | src/fsck.rs:896-1713 | Checking such a filesystem reports no duplicate block. |
| `FirstFit.FirstIsUnique` | src/layout.rs:541-599 | A search has one first fit. |
| `Layout.PlaceFlex` | src/layout.rs:541-599 | Placement terminates; each bitmap and inode table is the first fit after the one before, and an error means the next one fits nowhere. Fronts.PackFlex states it from the groups' fronts. |
| `Layout.ChainIsUnique` | src/layout.rs:541-599 | There is one such placement. |
| `Layout.StuckMeansNone` | src/layout.rs:541-599 | When placement is stuck, no first-fit placement goes further. |
| `Layout.FlexPiecesApart` | src/layout.rs:541-599 | The pieces of a flex group are pairwise disjoint, avoid every superblock and descriptor region (Fronts.FrontsAreOverhead says which blocks those are), and lie between its first block and the end of the filesystem. |
| `Allocator.Allocator.Alloc` | src/format.rs:217-239 | An allocation is the first fit from the goal, failing that from the first data block, and fails only if no free run of that length exists; all blocks handed out stay in range, off metadata and disjoint. |
| `Allocator.Allocator.AllocRuns` | src/format.rs:166-215 | Exactly count blocks are handed out, disjoint from all others, if and only if that many are free. |
| `Allocator.FreeDrops` | src/format.rs:176-215 | Handing out a free run takes its length off the free blocks. |
| `Allocation.Serve` | src/format.rs:162-356 | A request for a run, for a number of blocks or for a mapped file is answered as each alone is, keeps everything handed out before, and what is handed out stays disjoint, in range and off the metadata. |
| `Allocation.GivenOnce` | src/format.rs:162-356 | Over any list of requests of the three kinds, a block given to one is given to no later one. |
| `Allocation.GivenIsGood` | src/format.rs:162-356 | Every block given is in range, off the metadata and was not handed out before the first request. |
| `Allocation.NeverTwice` | src/format.rs:162-356 | All blocks given over such a list are pairwise disjoint between requests. |
| `Allocation.ServeAll` | src/format.rs:162-356 | Served one after another, every request is answered rightly and no block is given out twice. |
| `Geometry.RoundedWithin` | src/layout.rs:205-216 | Filling a group out to whole table blocks does not pass a limit that is a multiple of a block's inodes. |
| `Geometry.FitInodes` | src/layout.rs:211-225 | The inner retry ends with the largest request whose filled-out total fits 32 bits, or fails if none does. |
| `Geometry.InodesFit` | src/layout.rs:192-216 | The filled-out count stays within the inode bitmap and the 16-bit limit. |
| `Geometry.Compute` | src/layout.rs:178-273 | The retries terminate, each following from what the one before came to, and the outcome is what the last yields: on success the rounded-up groups, the descriptor blocks that hold their descriptors and no more, inodes per group that are the request's share filled out, within both limits, the table that holds them, and a last group that is full or has its overhead plus 50 blocks; on failure exactly the reason stated for each. |
| `Geometry.YieldsOnce` | src/layout.rs:178-273 | A round has one outcome: it settles, drops the last group, shrinks the groups or fails, each exactly when its condition holds. |
| `Geometry.SettledIsSound` | src/layout.rs:178-273 | What a round settles on has (descBlocks - 1) * descPerBlock < groups <= descBlocks * descPerBlock, inodes per group a multiple of 8 within the bitmap, 16 bits and, over all groups, 32 bits, and a last group with room. |
| `Geometry.ServesRequest` | src/layout.rs:190-225 | Inodes per group fall short of the request's rounded-up share by seven at most, unless 16 bits or, over all groups, 32 bits do not count so many, and exceed it by less than a table block, or are eight. |
| `Geometry.RoomToGrow` | src/layout.rs:690-711 | With a resize inode and less reserved than an indirect block lists, descriptors and reserved descriptors serve 1024 times the blocks. |
| `Geometry.SoundLaysOut` | src/layout.rs:178-273 | Sizes that come out of the retries lay out: the groups cover the filesystem, none is empty and each has a table, where their number fits 32 bits. |
| `HashIndex.Find` | src/structs/htree.rs:418-432 | The entry found is the last whose hash is not past the one wanted. |
| `HashIndex.LeafInRun` | src/fs.rs:964-990 | A leaf with a name of that hash is the one found or follows it in an unbroken run of continuation marks. |
| `HashIndex.OneNode` | src/fs.rs:947-960 | Names of one hash are under one interior node. |
| `HashIndex.LookupIndexed` | src/fs.rs:932-991 | The index answers whenever the blocks it points to are there; a found name is in a leaf with that inode, and an absent one is in no leaf, names spilled into continuation leaves included. |
| `HashIndex.IndexAnswers` | src/fs.rs:932-991 | An answer from the index equals that of a linear search if and only if the root block does not itself list the name; it never does but for . and .. |
| `HashIndex.DotIsMissed` | src/fs.rs:909-925 | Looking . up in a well-formed indexed directory: the index is used and answers that the name does not exist, although the directory lists it. |
| `HashIndex.LinearSearch` | src/fs.rs:885-925 | Reading the directory answers with the entry of that name, or that there is none. |
| `HashIndex.AnswerIsUnique` | src/fs.rs:909-925 | With no name listed twice there is one right answer. |
| `HashIndex.Lookup` | src/fs.rs:909-925 | A lookup of any name answers rightly, and never with inode 0, unless it comes from an index whose root block lists the name; where the index can be followed it is right if and only if the root does not. |
| `HashIndex.AnswersAreLive` | src/fs.rs:907-990 | A right answer is the non-zero inode of some entry with the name, and is none exactly where every entry with the name has inode 0. |
| `Mmp.WaitOutlasts` | src/mmp.rs:437-444 | The protocol wait is longer than the interval a holder promises to refresh within. |
| `Mmp.WaitIs` | src/mmp.rs:437-444 | The wait is the smaller of twice the interval plus one and the interval plus sixty. |
| `Mmp.NewSeq` | src/mmp.rs:163-168 | A drawn sequence is none of the reserved values. |
| `Mmp.DrawsDiffer` | src/mmp.rs:163-168 | Two draws come out the same if and only if their 32 random bits are equal or 3796716878 apart. |
| `Mmp.ReservedNumbers` | src/mmp.rs:163-168 | The clean and checking marks are 0xFF4D4D50 and 0xE24D4D50, and every drawn number is below 0xE24D4D4F. |
| `Mmp.FencedOn` | src/mmp.rs:345-434 | Whatever the intervals, every step of every host, mounter or checker, keeps the fence while holders refresh in time, a checker marks only when no other host is about to stamp, and a stamp's wait outlasts every holder's promise. |
| `Mmp.LiveHolderExcludes` | src/mmp.rs:280-434 | In every interleaving of any number of mounting and checking hosts, from a block of any interval, no two ever have the filesystem as long as holders refresh within their interval, sequences are distinct, checkers mark alone and stamps are in time. |
| `Mmp.StaysFenced` | src/mmp.rs:280-434 | The same from any fenced state, at every point of the run. |
| `Mmp.MountersExclude` | src/mmp.rs:280-434 | Among mounters alone nothing is asked of marks. |
| `Mmp.StampHoldsIffOutlasts` | src/mmp.rs:361-434 | A stamp keeps everyone else out in every later run if and only if the wait after it outlasts what every holder has promised. |
| `Mmp.StampOverruns` | src/mmp.rs:361-434 | Whenever it does not, the stamper can go on to take the filesystem from under the holder, which refreshes in time. |
| `Mmp.OneIntervalExcludes` | src/mmp.rs:345-434 | From a block that promises no more than the superblock asks for, nothing is asked of stamps. |
| `Mmp.WatchedOn` | src/mmp.rs:345-434 | Every step keeps what watching the block tells a host of the others' intervals. |
| `Mmp.PromptExcludes` | src/mmp.rs:345-434 | From a block of any interval, it is enough that every stamp lands within one wait of its host's last look and draws no number being watched. |
| `Mmp.LongHolderCanBeOverrun` | src/mmp.rs:345-434 | A run of two mounters, on a block whose dead holder promised a hundred seconds, in which a late stamp at the superblock's five takes the filesystem from under a live holder. |
| `Mmp.Overruns` | src/mmp.rs:361-434 | Whenever a checker marks while another host is about to stamp, that host can go on to take the filesystem, by steps the protocol allows. |
| `Mmp.MarkHoldsIffNoneReady` | src/mmp.rs:361-434 | A checker's mark keeps everyone else out in every later run if and only if no other host was about to stamp when it was written. |
| `Mmp.RacingOn` | src/mmp.rs:345-434 | Every step keeps the race invariant. |
| `Mmp.RaceHasOneWinner` | src/mmp.rs:345-434 | Among hosts that all read the block clean before any stamped it, at most one, mounter or checker, is ever granted the filesystem, the winner's rewrite to the checker's mark and its release included. |
| `Mmp.CheckerCanBeOverrun` | src/mmp.rs:361-434 | One such run from the start: a mounter that watched a checker's stamp takes the filesystem while the checker has it. |
| `Mmp.LastToStampWins` | src/mmp.rs:396-413 | Whoever confirms its stamp in a race stamped no earlier than any other host still waiting. |
| `Layout.PowersAreFound` | src/layout.rs:681-688 | Dividing out a base recognises exactly its powers. |
| `Layout.SuperRegionIsFronts` | src/layout.rs:494-509 | Testing a block against its own group's front is testing it against every group's, and against the ends of the filesystem. |
| `Layout.FlexPlacementIsUnique` | src/layout.rs:541-599 | A flex group is placed in one way or, when placement is stuck, in none. |
| `Fronts.SuperIsKept` | src/layout.rs:663-679 | The groups with a superblock copy are, without sparse_super, all of them; with it 0, 1 and exactly the powers of 3, 5 and 7. |
| `Fronts.FrontsAreOverhead` | src/layout.rs:430-480 | A group's front is, outside meta_bg and exactly for the groups with a superblock copy, that copy and all descriptors and reserved descriptors; in a meta group, the copy where there is one and one descriptor block in the first, second and last group; every other group has no front. |
| `Fronts.PlacedIsPacked` | src/layout.rs:541-599 | A flex group's placement is first-fit placement if and only if block bitmaps, inode bitmaps and inode tables, in that order and one a group, each take the first run clear of all those fronts and of the ends of the filesystem after the one before. |
| `Fronts.PackFlex` | src/layout.rs:541-599 | So placing a flex group returns that packing, or none exists. |
| `Fronts.PackedKeepsClear` | src/layout.rs:541-599 | No bitmap or inode table is in any group's superblock copy, descriptors or reserved descriptors, nor outside the filesystem. |
| `ExtentVisits.TreeRefsGraph` | src/fs.rs:590-640 | The data visits of a walk of a well-formed extent tree are the graph of its mapping. |
| `ExtentVisits.TreeRefsBlocks` | src/fs.rs:590-640 | The blocks visited, nodes and data, are the blocks owned. |
| `ExtentMap.ExtentDevice.WalkExtents` | src/fs.rs:590-640 | The stack walk visits each mapped logical block once with the block it resolves to, and every block owned; it fails if and only if there are more than a million nodes. |
| `ExtentMap.StoredIsResolved` | src/fs.rs:590-640 | Each of the n blocks an extent was stored for resolves to start plus i, written or not, and a walk visits it there exactly once. |
| `Release.BlocksLeftIsRight` | src/orphan.rs:203-214 | An i_blocks count that was right for the blocks owned is right for those kept once the blocks freed are taken off. |
| `Release.TruncateExtents` | src/orphan.rs:188-249 | A linked orphan with extents: in the bitmaps exactly the blocks it no longer owns come free, its mapping below its size is unchanged, and its block count stays right. |
| `Release.ClearExtents` | src/orphan.rs:188-249 | An unlinked orphan with extents: everything it owned is free and nothing else, and so is the inode; a walk that fails frees nothing. |
| `Release.TruncateMap` | src/orphan.rs:188-249 | The same as for extents through an indirect map. |
| `Release.ClearMap` | src/orphan.rs:188-249 | The same as for extents through an indirect map. |
| `AllocStats.ClearKeeps` | src/orphan.rs:681-729 | Clearing a bit keeps each group's free count equal to its clear bits and the total to their sum, changes that bit alone, and does nothing the second time. |
| `AllocStats.AllocStats.FreeBlock` | src/orphan.rs:682-702 | Freeing a block clears its bit and counts it once; an out-of-range or already free block changes nothing. |
| `AllocStats.AllocStats.BlockNumber` | src/orphan.rs:682-702 | A block is its group times the blocks of a group, plus its bit, past the first data block. |
| `AllocStats.AllocStats.FreeInode` | src/orphan.rs:704-729 | The same for an inode; if it was a directory and in use, its group counts one directory less, never below zero. |
| `AllocStats.AllocStats.InodeNumber` | src/orphan.rs:704-729 | An inode's number is its group times the inodes of a group, plus its bit, counted from one. |
| `AllocStats.AllocStats.FreeBlocks` | src/orphan.rs:227-229 | Freeing a list leaves in use exactly the blocks that were and are not in it, however often each occurs, with every count right. |
| `AllocStats.AllocStats.Flush` | src/orphan.rs:731-761 | The gathered bitmaps are on disk and no count changes. |
| `Orphans.StandingOn` | src/orphan.rs:149-171 | Releasing one inode leaves the map of every other as it was, released or not. |
| `Orphans.OrphanList.ReleaseMap` | src/orphan.rs:188-249 | An inode with extents, with indirect blocks or with no block map: with a link left it keeps its mapping below its size, its block count goes down by exactly what it no longer owns, its deletion time is 0 and no inode bit changes; with none it keeps nothing, is dated now, and its inode bit and, for a directory, its group's count are cleared. What it no longer owns comes free; it fails if and only if its extent tree is too large to walk. |
| `Orphans.OrphanList.TruncateOne` | src/orphan.rs:188-214 | An orphan with a link: cut, counted and taken off the list, with no inode bit or directory count changed. |
| `Orphans.OrphanList.ClearOne` | src/orphan.rs:216-249 | An orphan with none: everything it owns and its inode come free, also where it has no block map, and it is dated now. |
| `Orphans.OrphanList.ReleaseOne` | src/orphan.rs:149-171 | One more inode of the chain released: blocks in use are what they were less what all released so far no longer own, inodes in use what they were less those released without a link, directory counts less the directories among those. |
| `Orphans.OrphanList.ReleaseChain` | src/orphan.rs:149-171 | Releasing a chain of inodes with any block maps terminates and visits each inode at most once, in chain order, up to its end, a loop, an illegal number or a failure, which it tells apart. Then block bits are exactly those before less what the released inodes no longer own, inode bits those before less the released inodes without a link, directory counts less by the directories in use among those; every released inode with a link has deletion time 0 and its block count less by what it lost, every other released one is dated now; every inode not released is as it was, but for the map of the one a failure stopped at. |
| `Orphans.CountsBlocks` | src/orphan.rs:203-214 | A released inode's block count that was right for what it owned is right for what it keeps. |

## Left out

- Device errors, asynchronous plumbing, file and ioctl access: every read and write succeeds; the cache's loss of `dirty` when an inner write fails is not modelled.
- Checksums and directory hashes: functions that are parameters of the model, the hash with an even result.
- Journal opening: the checks of `Journal::open` beyond what a walk needs are assumed of the configuration, as are home blocks apart from the journal's own, a fixed block map and a log shorter than 2^31 blocks. A read past the journal's block map, where the program stops, is the outcome `strayed`.
- Journal recovery statistics beyond those in the report, fast commits, and carrying `s_errno` into the filesystem.
- `JournalRecovery.Journal.ReplayPass` and `JournalRecovery.Journal.RevokePass` are the two runs of one source loop, written out separately.
- Indirect blocks that cannot be read: every pointer followed is taken to be in the store, so the error path of a walk over an out-of-range pointer is not modelled.
- Indirect and extent nodes are sequences of pointers and decoded entries rather than bytes; node checksums, and the byte-level codec of extent headers and entries, are not part of this model.
- Corrupt, cyclic or shared trees under truncation: a tree is taken to be unshared and, for extents, well formed with children one level below their parent.
- `bad_extent_checksums`: the same traversal as `walk_extents`, testing checksums.
- Truncation that fails half way: of what a failed `TruncateNode` has written it is only said that it is in the tree's own blocks.
- `IndirectFile.FileAllocator.AllocFile` takes block numbers below 2^32 and block 0 as metadata, as the formatter's callers do.
- `Accounting.BuildGroup` assumes that each flex group's metadata ends before the next flex group begins, which sizing checks for the last group alone, and that a superblock copy and its descriptors fit in a group, which it does not check either; `Planning.SoundPlans` derives the rest. The formatter's and checker's inode bitmaps and directory counts are left out, and so is the UNINIT flag after a repair.
- `Geometry.Compute` covers the retry loops; choosing defaults, switching to `meta_bg`, the journal size and reserved-block percentage are left out.
- `Fronts.PackFlex` and the statements about packing take every group's front to end within the group, which sizing does not check; the source tests a block against its own group's front only.
- What `JournalWriting` writes is the model's own statement of the log's format: the repository reads logs and never writes one.
- `Layout.PlaceFlex` runs the three placement loops as one over bitmaps and tables in order.
- Hashed directories with more than one interior level, or with a run of one hash crossing interior nodes: the index is taken not to have them. Building and repairing indexes is left out.
- Orphan files, extended-attribute blocks, inline data and quota messages when releasing orphans.
- `Orphans.OrphanList.ReleaseChain`: after a failure nothing is said of the map of the inode that failed; extent nodes and pointer blocks are kept in two stores of one device.
- The other passes of the checker, comparing filesystems, and the structure codecs.
