# A verified model of the LevelDB engine

This project models the storage engine under `cpp/leveldb` in Dafny and proves what it
promises: what a read returns after any run of writes, flushes and compactions, what an
iterator shows while writers go on, what survives a crash, and that the file formats are
read back as they were written. `dafny verify dfyconfig.toml` checks everything.

The parts, bottom up:

- **Keys and files.** `InternalKeys` (user key upwards, sequence number and type downwards),
  `Files` (searches in one level), `Selection` and `Picking` (which files a compaction takes),
  `Compacting` (the merge loop and its drop rules), `Versions` (the shape of the tree and
  `Version::Get`), `VersionBuilder` and `VersionSets` (version edits and their installation).
- **The tree as a state machine.** `VersionChanges` and `Lsm`: writes, memtable switches,
  flushes, moves, compactions with flushes in between; `SnapshotReads`: compactions under any
  snapshots. The invariant says that newer entries stand above older ones and that the levels
  below the first are disjoint; every run refines a plain map. `Database` is the class whose
  methods take these steps.
- **Iterators.** `Merger`, `DbIterator`, `TwoLevel`, `Reading`: cursors that change direction,
  over children into which a writer inserts.
- **Writers and crashes.** `GroupCommit` (the writers' queue), `Durable`, `CrashProtocol`,
  `CrashSafety` (logs, tables and manifest, cut into steps between which the process may die),
  `Recovery` (opening what a crash left), `SyncPromise` (what a synchronous write covers).
- **Formats.** `Coding`, `Varints`, `Crc32c`, `Log`, `Blocks`, `BlockIterators`,
  `BlockBuilders`, `TableFormat`, `ByteKeys`, `Bloom`, `FilterBlocks`, `Tables`,
  `TableBuilders`, `TableLookups`, `EditCoding`: writers, readers and searches over bytes.
- **In-memory structures.** `SkipLists`, `HandleTables`, `LruCaches`: linked nodes on the heap.

Code that changes objects in place is modelled by classes and methods with loops; ghost
fields hold the values the contracts speak of. A concurrent protocol is a set of atomic steps
between which anybody else may step.

## Model

| member | source | states |
|---|---|---|
| Lsm.StepKeepsInv | cpp/leveldb/db/db_impl.cc:544-575 | every step, among them the flush of these lines, keeps the invariant of the tree: levels below the first are sorted and share no user key, and of two entries for one user key the newer stands in the shallower level or the younger level-0 file |
| Lsm.InstallKeepsInv | cpp/leveldb/db/db_impl.cc:869-885 | installing a compaction's outputs keeps that invariant even if flushes were installed since the compaction began |
| Lsm.StepKeepsReads | cpp/leveldb/db/db_impl.cc:697-776 | no flush, move, compaction or switch changes any read at or after the smallest snapshot in use |
| Lsm.WriteKeepsOlderReads | cpp/leveldb/db/memtable.cc:76-99 | adding an entry changes no read at an older sequence number |
| Lsm.RunRefines | cpp/leveldb/db/db_impl.cc:1195-1268 | after any run the invariant holds, and the entries ever written read like a map to which every batch was applied at once |
| Lsm.RunReads | cpp/leveldb/include/leveldb/db.h:62-86 | after any run the entries still stored read, at LastSequence, exactly like that map; in which order they are looked at is `Database.DBImpl.Get` |
| Database.DBImpl.Get | cpp/leveldb/db/db_impl.cc:1110-1155 | memtable, then immutable memtable, then the version, stopping at the first hit: the answer is what the map holds at LastSequence |
| Database.DBImpl.Write | cpp/leveldb/db/db_impl.cc:1195-1268 | a batch takes consecutive sequence numbers and the map becomes the old one with the whole batch applied |
| Database.DBImpl.MakeRoom | cpp/leveldb/db/db_impl.cc:1320-1380 | one turn of the loop: it fits, or waits for the flush, or for level 0, or switches memtables, each exactly under its own condition; the map stays |
| Database.DBImpl.CompactMemTable | cpp/leveldb/db/db_impl.cc:500-575 | the immutable memtable becomes one table at the deepest admissible level, none if it was empty; the map stays |
| Database.DBImpl.BackgroundCompaction | cpp/leveldb/db/db_impl.cc:697-776 | flush first; else the inputs are those the rules pick for the level and file asked for and the compaction pointer, which alone moves to their end; a lone file with little below it is moved, and exactly then, else a compaction starts; the map stays |
| Database.DBImpl.FinishCompaction | cpp/leveldb/db/db_impl.cc:887-1048 | merge, drop, cut, number and install the outputs of a compaction, with flushes in between: exactly its inputs are replaced by exactly these outputs and the map stays |
| Database.DBImpl.AbandonCompaction | cpp/leveldb/db/db_impl.cc:778-793 | a compaction that is given up leaves version, memtables and map as they were |
| Database.DBImpl.NewIterator | cpp/leveldb/db/db_impl.cc:1157-1167 | a new iterator stands over all stored entries at LastSequence, also while a group is being inserted, and reads there what the map holds |
| SnapshotReads.SelectedPreservesReads | cpp/leveldb/db/db_impl.cc:910-1009 | for any snapshot: a compaction of selected inputs, with flushes between its start and its installation, changes no read at or after the snapshot, even where neighbours in the upper level share a user key; the files beside the lower inputs must share none with the inputs |
| SnapshotReads.BesideRunIsNewer | cpp/leveldb/db/version_set.cc:1303-1378 | what boundary files are for: a file beside neighbours that no boundary file continues is newer than they are wherever it shares a user key with them |
| SnapshotReads.SelectedDropsExactly | cpp/leveldb/db/db_impl.cc:944-975 | without a condition on the lower level: no read at or after the snapshot changes if and only if no tombstone of the input is the newest entry of its key there while the newest one outside the input is a value |
| SnapshotReads.LowerNeighbourComesBack | cpp/leveldb/db/version_set.cc:1380-1390 | selected inputs whose compaction brings a deleted value back, because its file stands beside the lower input that ends with the tombstone |
| VersionChanges.DropsExactly | cpp/leveldb/db/db_impl.cc:944-975 | the same exact condition for the drop rules on any set of entries |
| VersionChanges.DroppingPreservesReads | cpp/leveldb/db/db_impl.cc:944-975 | in particular that is so when whatever stays of a key without deeper files is newer than the input |
| VersionChanges.FlushKeepsJob | cpp/leveldb/db/db_impl.cc:917-928 | a flush installed in the middle of a compaction leaves all that the compaction relies on |
| VersionChanges.FlushFallsInNoGap | cpp/leveldb/db/version_set.cc:470-495 | a table flushed to the compaction's output level or deeper does not meet the range of the inputs |
| VersionChanges.SelectionStartsJob | cpp/leveldb/db/version_set.cc:1380-1439 | the inputs chosen leave out no file that must take part |
| VersionChanges.InstallWelcome | cpp/leveldb/db/db_impl.cc:820-885 | the outputs fit into their level: apart from its other files, newer than everything deeper, older than everything above |
| Files.FindFile | cpp/leveldb/db/version_set.cc:87-105 | binary search finds the first file whose largest key is not below the target, as a scan would |
| Files.SomeFileOverlapsRange | cpp/leveldb/db/version_set.cc:121-156 | scan and binary search both say whether some file meets the range, with open ends too |
| Selection.GetOverlappingInputs | cpp/leveldb/db/version_set.cc:498-538 | for a range with both ends, at level 0 the least set of files that contains those meeting the range and is closed under overlap; elsewhere exactly those meeting it; the result covers whatever it adds to the range |
| Selection.AddBoundaryInputs | cpp/leveldb/db/version_set.cc:1303-1378 | the chain of boundary files is added, each the one with the smallest key, until none is left; the loop ends |
| Picking.SetupOtherInputs | cpp/leveldb/db/version_set.cc:1380-1439 | the lower inputs are the files that meet the picked ones with their boundary files; the upper inputs grow to the files that meet all these, with their boundary files, if and only if those are more, meet as many lower files, and stay below 25 file sizes; no boundary file is left, no gap, and below level 0 the upper inputs are neighbours |
| Picking.PickCompaction | cpp/leveldb/db/version_set.cc:1247-1299 | the inputs are what these rules make of the file to seek, else of the first one that ends after the compaction pointer, else of the first one; they leave out nothing they need |
| Picking.TotalIsSum | cpp/leveldb/db/version_set.cc:59-65 | the total size is a sum over the files |
| Compacting.Compaction.IsBaseLevelForKey | cpp/leveldb/db/version_set.cc:1510-1529 | cursors that only move forward answer like a scan of all deeper files, for keys asked in non-decreasing order |
| Compacting.Compaction.ShouldDrop | cpp/leveldb/db/db_impl.cc:944-975 | the last sequence number seen for the key decides exactly whether the entry is hidden or a needless tombstone |
| Compacting.Compaction.ShouldStopBefore | cpp/leveldb/db/version_set.cc:1531-1553 | for keys in increasing order: stops exactly when the grandparents passed since the last stop, or since the first key, are more than ten file sizes |
| Compacting.Compaction.DoCompactionWork | cpp/leveldb/db/db_impl.cc:887-1048 | the outputs are sorted and hold exactly the entries that must survive; an output ends between two survivors if and only if it was full with the first, or the grandparents said to stop before the second or an entry between; the contents are right if and only if the smallest snapshot is below the largest sequence number or nothing must survive |
| Compacting.LimitShouldKeep | cpp/leveldb/db/db_impl.cc:910-975 | there a newest value must survive although the loop drops it |
| Versions.TableGet | cpp/leveldb/db/memtable.cc:101-135 | the first entry at or after the lookup key, if it has the user key, is the newest visible one |
| Versions.VersionGet | cpp/leveldb/db/version_set.cc:281-400 | level 0 by file number, then one file per level, stopping at the first hit: no other entry of the version is newer and visible |
| VersionBuilder.Builder.SaveTo | cpp/leveldb/db/version_set.cc:672-730 | each level, sorted, is the base without what was deleted plus what was added |
| VersionBuilder.ReplayAgreesExactly | cpp/leveldb/db/version_set.cc:862-987 | one builder fed the manifest agrees with one builder per edit, after every prefix, if and only if no edit adds the number of a file deleted so far, except with the very same file |
| VersionBuilder.OneMoreEdit | cpp/leveldb/db/version_set.cc:629-669 | the same for one more edit, whatever came before |
| VersionBuilder.ReplayIsStepwise | cpp/leveldb/db/version_set.cc:862-987 | in particular one builder saves what one builder per edit saves if no file number returns to a level it was in |
| VersionBuilder.ReturningNumberResurrects | cpp/leveldb/db/version_set.cc:629-669 | two edits after which the two differ: a deleted file comes back |
| VersionSets.PickLevelForMemTableOutput | cpp/leveldb/db/version_set.cc:470-495 | the level is admissible and the next one is not, or is too deep |
| VersionSets.InstallEdit | cpp/leveldb/db/version_set.cc:777-860 | applying an edit in memory replaces exactly the files it names; its record in the manifest is a step of `CrashSafety` |
| Merger.MergingIterator.Seek | cpp/leveldb/table/merger.cc:47-53 | lands on the first entry of the union at or after the target |
| Merger.MergingIterator.Next | cpp/leveldb/table/merger.cc:55-79 | moves to the next entry of the union, also after moving backwards, passing over at most entries inserted since |
| Merger.MergingIterator.Prev | cpp/leveldb/table/merger.cc:81-108 | the mirror image |
| DbIterator.DBIter.Next | cpp/leveldb/db/db_iter.cc:141-207 | moves to the next user key that is live at the iterator's sequence number, whatever the direction before |
| DbIterator.DBIter.Prev | cpp/leveldb/db/db_iter.cc:209-276 | moves to the live user key before, or becomes invalid when there is none |
| DbIterator.DBIter.Seek | cpp/leveldb/db/db_iter.cc:278-290 | lands on the first live user key at or after the target |
| DbIterator.DBIter.SeekToFirst | cpp/leveldb/db/db_iter.cc:292-301 | lands on the first live user key |
| DbIterator.DBIter.SeekToLast | cpp/leveldb/db/db_iter.cc:303-308 | lands on the last live user key |
| DbIterator.DBIter.Shows | cpp/leveldb/db/db_iter.cc:63-71 | key and value shown are those that a read at the iterator's sequence number gives |
| DbIterator.DBIter.InsertUnderneath | cpp/leveldb/issues/issue200_test.cc:32-47 | entries written later, at any moment between two calls, change neither position nor any read of the iterator |
| TwoLevel.TwoLevelIterator.Seek | cpp/leveldb/table/two_level_iterator.cc:82-87 | over blocks, empty ones included, lands on the first entry of their concatenation at or after the target |
| TwoLevel.TwoLevelIterator.Next | cpp/leveldb/table/two_level_iterator.cc:103-126 | the next entry of the concatenation; the loop over empty blocks ends |
| TwoLevel.TwoLevelIterator.Prev | cpp/leveldb/table/two_level_iterator.cc:109-139 | the entry before; the loop over empty blocks ends |
| Reading.AddIterators | cpp/leveldb/db/version_set.cc:229-252 | the lists under the internal iterator hold each entry of the version once, under different keys |
| Reading.MakeInputLists | cpp/leveldb/db/version_set.cc:1214-1245 | the lists under a compaction's input iterator hold exactly the entries of its inputs |
| Reading.Drain | cpp/leveldb/table/merger.cc:31-79 | iterating from first to last yields the sorted union |
| GroupCommit.BuildBatchGroup | cpp/leveldb/db/db_impl.cc:1270-1316 | the longest admissible run of waiting writers from the front, their batches in order: up to 128 KB more than a front of at most 128 KB, else up to 1 MB, no sync write behind another one; the next writer is sync or would pass that bound |
| GroupCommit.StepKeepsInv | cpp/leveldb/db/db_impl.cc:1195-1268 | every step of any writer keeps the invariant of the queue, whatever the interleaving |
| GroupCommit.CompletesInOrder | cpp/leveldb/db/db_impl.cc:1247-1260 | writers are completed in order of arrival, each once |
| GroupCommit.LosesNoSignal | cpp/leveldb/db/db_impl.cc:1203-1209 | the front of the queue is at work or signalled, and so is everybody completed by another |
| GroupCommit.TakesDisjointRanges | cpp/leveldb/db/db_impl.cc:1213-1219 | groups take consecutive, disjoint sequence ranges and hold their members' operations in order |
| GroupCommit.ShowsWholeBatches | cpp/leveldb/db/db_impl.cc:1218-1245 | a batch reported as written is visible as a whole at LastSequence |
| GroupCommit.ShowsNothingElse | cpp/leveldb/db/db_impl.cc:1218-1245 | whatever is visible belongs to a group all of whose members were told of success |
| GroupCommit.SyncsFirst | cpp/leveldb/db/db_impl.cc:1226-1236 | a sync write succeeds only after a sync that covers its record |
| CrashSafety.StepKeepsInv | cpp/leveldb/db/db_impl.cc:222-287 | every step, among them deleting what was listed as obsolete, keeps what recovery needs: logs, tables and manifest together hold all groups, and a group that asked for it is in a table or in the synced part of its log before it can be read |
| CrashSafety.RunKeepsInv | cpp/leveldb/db/db_impl.cc:181-213 | so does every run of a new database |
| CrashSafety.InstallKeepsInv | cpp/leveldb/db/version_set.cc:777-860 | so does installing a version whose record is synced |
| Recovery.CrashLeavesImage | cpp/leveldb/db/version_set.cc:777-860 | a crash at any step, with the last manifest record lost or not unless it was synced, leaves what describes a state with the same groups written and acknowledged |
| Recovery.ReplayManifest | cpp/leveldb/db/version_set.cc:862-987 | replaying the manifest gives back the levels and the numbers that occur last |
| Recovery.LogsToRecover | cpp/leveldb/db/db_impl.cc:326-362 | the logs not older than the manifest's log number, in order |
| Recovery.RecoverLogFile | cpp/leveldb/db/db_impl.cc:380-498 | every group of a log, given as a list of groups, gets into tables, newer than all before: one table for each memtable that is full after a record, and one for the rest; the largest sequence number is found exactly |
| Recovery.WriteSnapshot | cpp/leveldb/db/version_set.cc:1064-1092 | the snapshot record names exactly the files of the version |
| Recovery.Open | cpp/leveldb/db/db_impl.cc:1478-1519 | opening succeeds after a crash at any step at which both live logs may lose their unsynced ends; the database again satisfies its invariant and holds the groups in tables and what is left of the logs: every acknowledged group that asked for a sync; all of them if nothing was lost; what a prefix of the groups wrote if and only if the lost end of the older log or what is left of the newer one wrote nothing; its last sequence number is the larger of the manifest's and the last one read, and the new manifest says so |
| Recovery.InterruptedRecovery | cpp/leveldb/db/db_impl.cc:1486-1505 | a recovery that is interrupted leaves tables and a new log that change nothing for the next one: the same groups survive |
| Recovery.GroupsRead | cpp/leveldb/db/db_impl.cc:416-470 | reading the entries of a list of groups gives the map after applying their batches in order |
| Recovery.ReopenedReads | cpp/leveldb/db/db_impl.cc:1478-1519 | the reopened database answers every read like that map, and its last sequence number is not below any recovered one |
| Recovery.PrefixNeedsOldLog | cpp/leveldb/db/db_impl.cc:1346-1376 | that equivalence, for what survives in the image of any state |
| SyncPromise.SyncCoversEarlier | cpp/leveldb/doc/index.md:119-124 | after every crash all that was written up to an acknowledged synchronous write is there, if and only if this write is not in the newer of two logs or the older one has no entries behind its synced part |
| SyncPromise.SyncedWithoutEarlier | cpp/leveldb/db/db_impl.cc:1346-1376 | a run of two writes, the second one synchronous, both acknowledged, and a crash after which only the second one is there |
| Log.Writer.AddRecord | cpp/leveldb/db/log_writer.cc:34-108 | a record is cut into fragments behind the earlier ones, none across a block, with zeros where no header fits |
| Log.Reader.ReadPhysicalRecord | cpp/leveldb/db/log_reader.cc:189-271 | for any bytes: the fragment at the next place where one may begin, or the end, or a bad record, reported or not, exactly as its length, type and checksum say |
| Log.Reader.ReadRecord | cpp/leveldb/db/log_reader.cc:56-174 | of what a writer produced fragments are put together to the next record, or the end is reached, and nothing is dropped; of any bytes whatever no record is made up: its fragments stand one after the other in the file with the right types and checksums |
| Log.ReadLog | cpp/leveldb/db/log_reader.cc:56-271 | from any prefix of the bytes come exactly the records wholly contained in it, in order, and no corruption is reported |
| Crc32c.Extend | cpp/leveldb/util/crc32c.cc:276-377 | the sixteen-byte strided computation equals the bitwise one for every length and alignment |
| Crc32c.CrcAppend | cpp/leveldb/util/crc32c.h:14-20 | extending over two parts is extending over their concatenation |
| Crc32c.Residue | cpp/leveldb/util/crc32c.h:14-24 | a string followed by its own CRC has the same CRC whatever the string |
| Crc32c.UnmaskInvertsMask | cpp/leveldb/util/crc32c.h:29-38 | masking and unmasking undo one another |
| Crc32c.ByteTable | cpp/leveldb/util/crc32c.cc:20-64 | all 256 entries of the byte table from the eight literal ones at the powers of two |
| Varints.EncodeVarint32 | cpp/leveldb/util/coding.cc:21-47 | the unrolled cases write what seven bits at a time write |
| Varints.GetVarint32 | cpp/leveldb/util/coding.cc:86-102 | loop and one-byte fast path read what the definition of a varint gives, or fail |
| Varints.DecodeAt | cpp/leveldb/util/coding.cc:86-131 | an encoded number is read back, and nothing behind it is touched |
| Blocks.DecodeEntry | cpp/leveldb/table/block.cc:55-75 | three bytes read at once, or three varints, are the same header |
| Blocks.EntryDecodes | cpp/leveldb/table/block.cc:225-253 | a record written after a shared prefix is read back |
| BlockBuilders.BlockBuilder.Add | cpp/leveldb/table/block_builder.cc:71-105 | a record is appended after the longest prefix it shares with the last key, or whole at a restart point |
| BlockBuilders.BlockBuilder.Finish | cpp/leveldb/table/block_builder.cc:61-69 | the finished block holds the records added and a restart point every so many of them |
| BlockIterators.Iter.Seek | cpp/leveldb/table/block.cc:164-202 | lands on the first record not below the target |
| BlockIterators.Iter.Next | cpp/leveldb/table/block.cc:138-141 | the next record |
| BlockIterators.Iter.Prev | cpp/leveldb/table/block.cc:143-162 | the record before: undoes Next |
| BlockIterators.Iter.SeekToLast | cpp/leveldb/table/block.cc:209-214 | the last record |
| ByteKeys.FindShortestSeparator | cpp/leveldb/util/comparator.cc:31-52 | a string strictly between the two, one byte raised, exactly when there is room; else the first one |
| ByteKeys.FindShortestKey | cpp/leveldb/db/dbformat.cc:65-82 | the index key is at or behind the last key, before the next one, and no key between has the next one's user key; it is cut and raised exactly when there is room and this is shorter |
| ByteKeys.FindShortKey | cpp/leveldb/db/dbformat.cc:84-97 | the last index key is not before the last key, and is cut at the first byte that can be raised exactly when this is shorter |
| Bloom.CreateFilter | cpp/leveldb/util/bloom.cc:28-54 | appends the filter of the keys' hashes |
| Bloom.KeyMayMatch | cpp/leveldb/util/bloom.cc:56-80 | says whether all probes hit set bits |
| Bloom.FilterIsExact | cpp/leveldb/util/bloom.cc:28-54 | a bit of the filter is set if and only if some probe of some key looks at it; the size is that of the keys' bits, at least 64, in whole bytes |
| Bloom.NeverMisses | cpp/leveldb/util/bloom.cc:28-80 | no key that went into a filter is ruled out by it |
| FilterBlocks.FilterBlockBuilder.Finish | cpp/leveldb/table/filter_block.cc:21-76 | at every offset the filter of its 2 KB piece decides, of exactly the keys whose blocks were filed there; none of those is ruled out, and offsets behind the last filter match everything |
| FilterBlocks.KeyMayMatch | cpp/leveldb/table/filter_block.cc:78-104 | finds the bytes of the one filter for an offset; malformed contents count as a match |
| TableFormat.ReadBlock | cpp/leveldb/table/format.cc:64-141 | a stored block is read back; for any bytes it is read if and only if the file is long enough, the type says uncompressed and, when asked for, the checksum is right |
| TableFormat.FooterParses | cpp/leveldb/table/format.cc:31-62 | an encoded footer is read back |
| TableBuilders.TableBuilder.Add | cpp/leveldb/table/table_builder.cc:94-123 | one more record, with the index entry of the block before it written only now; a block ends with it only if that has reached the block size, and then it does |
| TableBuilders.TableBuilder.Flush | cpp/leveldb/table/table_builder.cc:125-194 | the records in the making become a block of the file; nothing added is lost |
| TableBuilders.TableBuilder.Finish | cpp/leveldb/table/table_builder.cc:198-253 | for every increasing list of keys the file is complete: data, filter, metaindex, index and footer describe exactly the records added |
| Tables.Open | cpp/leveldb/table/table.cc:38-132 | opening a complete file finds its index, and its filter exactly if the policy's name is the one written |
| Tables.InternalGet | cpp/leveldb/table/table.cc:214-242 | delivers the first record at or after k exactly when that has k's user key, and never another one of that user key, despite shortened index keys and the filter |
| Tables.Get | cpp/leveldb/db/table_cache.cc:100-112 | the same starting from the bytes of the file |
| TableLookups.DeliveredIsAnswer | cpp/leveldb/db/version_set.cc:260-274 | what the reader of a value takes from the delivered record is the newest entry of its user key visible at the snapshot among all entries of the table: what `Versions.TableGet` answers |
| TableLookups.FinishAndGet | cpp/leveldb/table/table_test.cc:211-240 | so it is for the bytes of any table that is built and opened again, filter or not |
| EditCoding.EditRoundTrip | cpp/leveldb/db/version_edit.cc:41-203 | an encoded edit is read back as itself, behind the compaction pointers the target still had |
| EditCoding.VersionEdit.EncodeTo | cpp/leveldb/db/version_edit.cc:41-84 | the fields in their order, deleted files sorted |
| EditCoding.VersionEdit.DecodeFrom | cpp/leveldb/db/version_edit.cc:105-203 | field after field to the end of the record, or a refusal |
| EditCoding.WriteAndRead | cpp/leveldb/db/version_edit_test.cc:11-20 | written out and read into a fresh edit, an edit says the same |
| SkipLists.SkipList.FindGreaterOrEqual | cpp/leveldb/db/skiplist.h:260-281 | the first node at or after the key, and on each level the last node before it |
| SkipLists.SkipList.FindLessThan | cpp/leveldb/db/skiplist.h:283-302 | the last node before the key |
| SkipLists.SkipList.FindLast | cpp/leveldb/db/skiplist.h:304-322 | the last node |
| SkipLists.SkipList.PublishLink | cpp/leveldb/db/skiplist.h:361-368 | each single store leaves all levels sorted and contained in those below |
| SkipLists.SkipList.Insert | cpp/leveldb/db/skiplist.h:336-368 | the list holds one key more, and nothing else changed |
| SkipLists.Search.Step | cpp/leveldb/db/skiplist.h:260-281 | one turn: to the very next node if that is before the key, else a level down, and at the bottom to the first node at or after the key; writers may store between turns, and no key that was there at the beginning is passed over |
| SkipLists.Search.WriterRaisesHeight | cpp/leveldb/db/skiplist.h:346-359 | raising the height disturbs no search in progress |
| SkipLists.Search.WriterPublishesLink | cpp/leveldb/db/skiplist.h:361-368 | nor does linking a new node |
| SkipLists.Iterator.Prev | cpp/leveldb/db/skiplist.h:212-221 | the largest node before the current one |
| HandleTables.SlotIsRemainder | cpp/leveldb/util/cache.cc:115-121 | the masked hash is its remainder by the number of buckets, so all buckets are used |
| HandleTables.HandleTable.Lookup | cpp/leveldb/util/cache.cc:75-77 | the entry with the key, or the certainty that there is none |
| HandleTables.HandleTable.Insert | cpp/leveldb/util/cache.cc:79-93 | the entry joins and displaces exactly the one with its key; the array grows exactly when there are more entries than places, to the next power of two |
| HandleTables.HandleTable.Remove | cpp/leveldb/util/cache.cc:95-104 | exactly the entry with the key leaves its chain |
| HandleTables.HandleTable.Resize | cpp/leveldb/util/cache.cc:123-147 | every entry is relinked into the chain of its hash in the new array |
| LruCaches.LRUCache.Insert | cpp/leveldb/util/cache.cc:266-304 | the entry joins, an equal key is displaced, and the entries unreferenced longest are evicted, no more than needed; in the end the usage fits or nothing can be evicted |
| LruCaches.LRUCache.Lookup | cpp/leveldb/util/cache.cc:253-260 | a cached entry gains a handle and leaves the list of candidates for eviction |
| LruCaches.LRUCache.Release | cpp/leveldb/util/cache.cc:262-264 | the last handle of an entry deletes it if it is no longer cached, else makes it the newest candidate |
| LruCaches.LRUCache.Unref | cpp/leveldb/util/cache.cc:226-238 | an entry is deleted exactly when its count reaches zero, and never twice |
| LruCaches.LRUCache.Erase | cpp/leveldb/util/cache.cc:308-322 | no cached entry has the key any more; the erased one lives on while held |
| LruCaches.LRUCache.Prune | cpp/leveldb/util/cache.cc:324-334 | all unreferenced entries go, oldest first |

## Findings

Five places where the code does not do what one might expect; each has a lemma with the exact
condition.

- **The limit of the sequence numbers.** `DoCompactionWork` starts each user key with the
  largest sequence number as the last one seen. With the smallest snapshot at that limit it
  drops everything. `Compacting.Compaction.DoCompactionWork` states when its outputs are right, in
  both directions, and `Compacting.LimitShouldKeep` names what is then lost. Writes in the model
  stay below the limit.
- **Boundary files at one level only.** `SetupOtherInputs` adds boundary files to the upper inputs
  but not to the lower ones. If two neighbours of the lower level share a user key, with a
  tombstone in the first and an older value in the second, a compaction may take the first one only,
  drop the tombstone, since only deeper levels are asked, and show the value again
  (`SnapshotReads.LowerNeighbourComesBack`). `SnapshotReads.SelectedDropsExactly` says for all inputs
  when reads stay as they were. Such neighbours come about only while a snapshot is held; the
  runs of `Lsm` hold none and never have them.
- **Synchronous writes and two logs.** Two logs may be live, and the older one is not synced before
  the newer one is written. If the machine fails, a synchronous write in the newer log survives
  without earlier ones in the older log, although the documentation has a bulk load restarted just
  after its last synchronous write. `SyncPromise.SyncCoversEarlier` says exactly when that is safe,
  `SyncPromise.SyncedWithoutEarlier` is a run in which it is not, and `Recovery.Open` says exactly when
  what was recovered is a prefix of what was written.
- **File numbers that return.** A builder fed several edits brings back a deleted file if its
  number is added to the same level again (`VersionBuilder.ReturningNumberResurrects`), and differs
  from one builder per edit exactly then (`VersionBuilder.ReplayAgreesExactly`). The invariant of the
  crash protocol shows that this never happens to a running database.
- **Clear keeps the compaction pointers.** Decoding into an edit that has been used appends to the
  pointers it had (`EditCoding.EditRoundTrip`); decoding into a fresh one is exact.

## Left out

- User keys in the tree are real numbers: any countable total order embeds into them, the bytewise order
  of strings by `TableLookups.Rank`. `ByteKeys`, `Tables` and the formats use byte strings in that order.
- Files in the tree carry their entries; that the bytes of a table answer lookups like its entries is
  `TableLookups.FinishAndGet`, and scans of a file are not joined in this way. Table
  sizes, and when a memtable or an output is full, are parameters.
- Which level to compact is a parameter (any level from 0 to 5) in place of scores in floating point; read
  sampling and seek counts only appear as an optional file to start from.
- Manual compaction with its open ranges, snapshots held by clients in whole runs (the theorem about a single
  compaction has any snapshot), properties, approximate sizes, repair and statistics.
- I/O errors, except that a compaction may be abandoned and a group of writers may fail; locks, environments,
  the reuse of logs, and reading a log from an offset in its middle.
- Corruption other than truncation: physical log records, stored blocks and footers are read exactly on any bytes;
  the iterator over a block and the lookup in a table are stated on well-formed files. How often the reader of whole
  log records reports corruption is stated for truncated logs only.
- Compression, the block cache between reader and file, and the sharding of the cache.
- The memtable in the tree is a sorted sequence; the skip list is a structure of its own. Encoded memtable
  entries, write batches as bytes and the arena are not modelled.
- The literal tables of the checksum: the model generates them from the polynomial. `Crc32c.ByteTable` derives
  the byte table from eight of its literal entries; that the four stride tables agree is an assumption.
- Hashing: the hash of a key is a parameter of the filters and of the cache, and the number of probes of a
  Bloom filter is any number up to 30 in place of a product in floating point.
- Weak memory ordering: the skip list's stores are atomic and seen in order.
- Recovery: the tables written from the logs join the tree one by one in the proof, though the code installs them with one edit at the end.
- Compacting.Compaction.DoCompactionWork: reads its input from a list; that the merging iterator yields that list is `Reading.Drain`.
- VersionBuilder.Builder.Apply: requires that no added file has both number and smallest key of another one in its level, where the set would drop it; `CrashSafety` shows that numbers never return in the edits written.
- BlockBuilders.BlockBuilder.Finish: requires that the block stays below four gigabytes, where the code would cut offsets to 32 bits.
- TableBuilders.TableBuilder.Finish: requires that index and filter stay below four gigabytes and the file below a quarter of the largest offset.
- TableBuilders.TableBuilder.Add: requires the same of one block and of the file so far.
- Database.DBImpl.MakeRoom: leaves out the delay of one millisecond near the limit of level 0 and the exit on a background error.
- Selection.GetOverlappingInputs: leaves out the open ends that only manual compaction passes.
- VersionSets.InstallEdit: leaves out the manifest, which the crash protocol has as steps of its own.
- Recovery.RecoverLogFile: takes a log as the list of its groups; reading records from its bytes is `Log.ReadLog`, and batches as bytes are not modelled.
- Recovery.Open: that a synced file is also listed in its directory after a crash is taken for granted.
- SnapshotReads.SelectedPreservesReads: has a condition on the lower level that the code does not ensure; the exact one is in `SnapshotReads.SelectedDropsExactly`.
