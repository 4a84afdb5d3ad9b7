# tombstash in Dafny

A model of the tombstash key-value store and proofs about it. tombstash is a
Log-Structured Merge tree: writes go to a write-ahead log and an in-memory table
(memtable); full memtables are sealed and flushed to immutable sorted files
(SSTables) in the background; compaction merges those files, under a size-tiered or a
leveled strategy; large values live in a value log and are reclaimed by copying the
survivors to a new generation; a manifest names the files that count.

The main results:

- **Refinement over whole runs.** `Store` is a state machine of the disk, the memory
  of the process and a plain map. Each critical section is a step, the slow work
  between critical sections is steps of its own, so everything interleaves, and a
  process may crash and reopen at any point. In every state of every run a read
  returns what the plain map holds, and the plain map changes only at puts, deletes
  and reopenings (`StoreRuns.RunRefinesPlainMap`). A read in progress keeps answering
  as the map stood at its snapshot, through any later flush, merge, collection or
  unlink (`StoreRuns.ReadersSeeTheirInstant`).
- **Crash safety per key.** Whatever a crash leaves of the logs, every key, deleted
  ones included, reads afterwards as the effect of some write no older than its last
  durable one (`StoreRuns.CrashRecoversEveryKey`). A write is durable once the log is
  synced, and once a synchronous flush (of `flush`, garbage collection or recovery) has
  completed. A write that a crash lost stays lost (`StoreCrash.ReopenedIsExact`).
- **Every record is genuine.** In every state of every run, crashed ones included, every
  record of a listed or live table, of a flush, merge or collection in flight and of a
  reader's tables reads, through its pointer if it is separated, as the effect of a write
  of the run to its key (`StoreValues.ListedValuesAreSafe`, `StoreValues.PointersAreSafe`).
- **No file is forgotten.** In every running state of every run the table files on disk are
  exactly those of the live tables, of the obsolete ones not yet unlinked and of the outputs
  already written, and likewise the value logs (`StoreFiles.FilesAreAccountedFor`). From every
  running state everything obsolete can be removed without changing anything else
  (`StoreFiles.ObsoleteFilesCanGo`).
- **The threshold decides.** Through every flush, merge, collection and crash, a value is in
  the value log exactly if it has at least the threshold's length
  (`StoreSizes.ThresholdDecides`).
- **How much a crash undoes.** `StoreWindows` says it for all keys together, for every
  disk and every state of a running process. Up to a synchronous flush's manifest commit
  it is a suffix of the writes. Between that commit and the log truncation it need not be:
  `StoreLosses.FlushMixesHistory` is a run whose crash recovers the map after no prefix of
  the writes, and `StoreWindows.FlushWindowPrefixExact` says exactly when such a crash does
  recover one.
- **One window where durable data is lost.** Recovery truncates `wal.log` before it
  removes `wal-flushing.log`. `StoreLosses.WindowLosesASyncedWrite` is a run in which a
  crash between the two brings back an overwritten value although the newer one was
  synced; `StoreWindows.RecoveryWindowExact` gives the exact condition under which a crash
  there is harmless. The state machine takes the two actions as one step.
- **Leveled compaction.** The inputs are not contiguous in the read order, flushes
  arrive between choosing and installing, and the whole list is re-sorted; still every
  visible record is kept, levels stay disjoint, and dropped tombstones bring nothing
  back (`LeveledCommit`).
- **A log reopened after a torn tail** keeps the tail, and the next record may be
  misread with it: all records appended then replay exactly when there was no torn tail
  (`WriteAheadLog.AppendAfterReopenExact`), a truncated log has one exactly when it was not
  cut between records (`WriteAheadLog.TornTailExact`), and a put torn after its first byte
  swallows a later delete (`WriteAheadLog.TornPutSwallowsADelete`).
- **Every byte string.** The log, record, block, index, filter, table and manifest parsers
  accept exactly the bytes that stand for something, and read them as that
  (`TableFormat.ParsesExactly`, `TableReads.OpensExactly`, `ManifestFile.ParsesExactly` and
  their companions); damaged files are refused, not read as something else.
- **Bytes.** SSTables, Bloom filters, manifests and logs are modelled byte by byte,
  with the loops that write and read them proved against simple list functions.
  `Directory` ties the bytes of a whole directory to the state machine's disk: reading a
  key from the bytes alone gives the recovered map's value (`Directory.ReadKey`), and a
  crash that cuts the log at any byte is a crash of the state machine
  (`Directory.ByteCrashIsRecordCrash`). Every state of every run within the formats' widths
  has such bytes (`Images.RunsHaveImages`).
- **The object.** `Database.Db` is the database with its fields and methods, each
  method proved against the state machine and the plain map.

`dafny verify dfyconfig.toml` checks the project.

## Layout

| files | subject |
|---|---|
| Keys, Records, Codec | byte-string order, records and their two readings, little-endian integers |
| Layers, Merge, Pick, Queries | what a list of tables answers; merging; the size-tiered choice; scans |
| Leveled, LeveledCommit, LeveledPick, LeveledSplit, Quiesce | the leveled strategy; when compaction comes to rest |
| Store, StoreInv, StoreFrames, StoreWrites, StoreFlush, StoreMerge, StoreGc, StoreCrash, StoreRuns, StoreValues, StoreSizes, StoreFiles, StoreWindows, StoreLosses, ReaderScans | the state machine, its invariant step by step, whole runs, what records hold and where, which files exist, what crashes undo, readers' scans |
| Memtable, ValueLog, WriteAheadLog, BloomFilter, TableFormat, SSTable, TableReads, TableScans, OpenTables, TableTrip, ManifestFile | the parts, with their bytes |
| Directory, Images | the bytes of a directory and the disk they stand for |
| DbLoops, Database | the loops of the database object and the object |

## Reading choices

- A table's contents are a map from keys to bodies, a body being an inline value, a
  pointer into the value log, or a tombstone. A table carries its level, which the
  source keeps in a side map. File names are represented by their sequence or
  generation number.
- Rename, unlink, truncation and file creation are atomic and durable. A crash loses a
  suffix of the unsynced records of `wal.log` and of the unsynced bytes of each value
  log. The byte-level losses of a log are treated in `WriteAheadLog`.
- The compaction strategy and the separation threshold are fixed for the life of a store. The size bucket, the level
  budget, file sizes and cached key ranges are parameters, arbitrary except where a
  clause says otherwise.
- Where a comment and the code disagree the code is followed: include/lsmkv/vlog.h:16
  says garbage collection is not implemented, src/db.cpp:970-1045 implements it; the
  hash of src/bloom_filter.cpp:15-22 has the shape of FNV-1a with another starting value,
  and the model has that value.
- The source's exceptions are `None` results.

## Model

| member | source | states |
|---|---|---|
| `StoreRuns.RunRefinesPlainMap` | src/db.cpp:800-859 | over every run with any interleaving and any crashes: a get in a running state returns the plain map's value, and the map changes only at a write or a reopening |
| `StoreRuns.ReadersSeeTheirInstant` | src/db.cpp:820-859 | a read in progress is the snapshot of memtables, tables, generation and map at some instant of the run, and answers every key as the map stood then, from files and a log generation that still exist and hold its pointers |
| `ReaderScans.ScanSnapshot` | src/db.cpp:861-921 | a scan over a reader's snapshot, merged at any later state of the run, returns exactly the pairs in range of the plain map at the snapshot's instant |
| `StoreRuns.CrashRecoversEveryKey` | src/db.cpp:250-314 | a crash at any point of any run, then a reopening: each key reads as the effect of a write no older than its last durable one |
| `StoreRuns.ManifestIsAlwaysSafe` | src/db.cpp:316-346 | in every state, each file the manifest names exists, names are distinct and below the next number, and every separated record lies in the durable part of the named generation |
| `StoreValues.ListedValuesAreSafe` | src/db.cpp:497-515 | in every state of every run, crashed ones included, every record of a table the manifest names reads as the effect of a write of the run to its key, and every pointer lies in the durable part of the named generation |
| `StoreValues.PointersAreSafe` | src/db.cpp:497-515 | in every running state the same of live tables, of a flush, a merge and a collection in flight (the last in the next generation) and of every reader's tables in the generation it holds |
| `StoreValues.SeparatedReadsBack` | src/vlog.cpp:75-107 | a separated record of a listed table names the current generation and reads back exactly a value put to its key |
| `StoreValues.StepKeepsValues` | src/db.cpp:408-1045 | each step keeps the logs, the listed tables and the readers' tables genuine |
| `StoreSizes.ThresholdDecides` | src/db.cpp:417-427 | in every state of every run a record of a listed table that is not a tombstone reads as a value put to its key, and is out of the table exactly if that value has at least the threshold's length |
| `StoreSizes.StepKeepsSizes` | src/db.cpp:408-1045 | each step keeps inline values below the threshold and separated ones at or above it, jobs in flight included |
| `StoreRuns.NewFilesNeverCollide` | src/db.cpp:408-412 | a file about to be written never has the number of a live table, a reader's table or an obsolete file not yet unlinked |
| `StoreFiles.FilesAreAccountedFor` | src/db.cpp:331-346 | in every running state of every run the table files are exactly those of the live tables, of the obsolete ones not yet unlinked and of the written outputs of the flush, merge and collection in flight; the value logs are the current one, the obsolete ones and the next while collecting |
| `StoreFiles.ObsoleteFilesCanGo` | src/sstable.cpp:252-255 | from every running state the readers may finish and all obsolete files be unlinked, leaving only listed and in-flight files and changing nothing else |
| `StoreFiles.StepKeepsFiles` | src/db.cpp:408-1045 | each step keeps the files accounted for |
| `StoreFiles.NumbersAreTakenInOrder` | src/db.cpp:411 | each file a step plans takes the next number, none is passed over, and a reopening starts from the last commit's next number |
| `StoreRuns.LeveledShape` | src/db.cpp:660-671 | in every leveled state: level 0 in strictly decreasing number order, deeper levels disjoint in key range, a sealed memtable's number above all of level 0 |
| `StoreRuns.StepKeepsInv` | src/db.cpp:408-1045 | each of the steps keeps the invariant |
| `StoreRuns.StepFollowsSpec` | src/db.cpp:408-1045 | how each step may move the plain map and the durable point: a sync and the end of a synchronous flush make everything durable, and a reopening only narrows what later crashes may leave |
| `StoreRuns.OpenAnswers` | src/db.cpp:286-308 | after reopening, a get returns the recovered map's value and that value is admissible |
| `StoreRuns.ReopeningReads` | src/db.cpp:286-303 | a process that reopens after a crash reads each key as the surviving records over the committed tables say |
| `StoreWindows.CrashRecoversPrefix` | src/db.cpp:298-303 | for any disk: what survives of wal.log is a prefix of the writes applied, for all keys at once, to what the tables and the sealed log hold |
| `StoreWindows.CrashLosesOnlyASuffix` | src/db.cpp:800-818 | in every running state except between a synchronous flush's commit and truncation, the newest map is the logged writes over what lies below, so losing a log suffix loses exactly a suffix of the writes |
| `StoreWindows.TruncatingStatesReplayOverNewest` | src/db.cpp:444-447 | between the commit and the truncation the surviving records are written over the newest map |
| `StoreWindows.TruncatingCrashExact` | src/db.cpp:444-447 | a crash there recovers the newest map if and only if the lost records gave no key of a surviving record a different final effect |
| `StoreWindows.FlushWindowPrefixExact` | src/db.cpp:444-447 | a crash there recovers the map after some prefix of the logged writes if and only if for some m the records up to the m-th change no key of the surviving ones and the rest changes no other key |
| `StoreWindows.RecoveryWindowExact` | src/db.cpp:304-307 | a crash between recovery's truncation and the removal of the sealed log recovers the right map if and only if wal.log gave no key of the sealed log a different final effect |
| `StoreWindows.RecoveryOutsideTheWindow` | src/db.cpp:304-307 | a crash just before the truncation that keeps the whole log, or just after the removal, recovers the right map |
| `StoreWindows.FlushReachesItsCommit` | src/db.cpp:408-445 | every synchronous flush reaches its commit with both logs as it found them |
| `StoreWindows.RecoveryAlwaysFlushes` | src/db.cpp:304-305 | a recovery that found a sealed log has something to flush |
| `StoreLosses.FlushMixesHistory` | src/db.cpp:444-447 | a run in which a crash between commit and truncation recovers an old value of one key beside a later value of another, the map after no prefix of the writes |
| `StoreLosses.WindowLosesASyncedWrite` | src/db.cpp:304-307 | a run in which a crash in the recovery window returns an overwritten value that is not admissible |
| `StoreWrites.WriteKeepsInv` | src/db.cpp:800-818 | log then memtable keeps every live and every crash reading right |
| `StoreWrites.SyncKeepsInv` | src/db.cpp:923-926 | after an fsync every surviving log prefix gives the newest map |
| `StoreWrites.SealKeepsInv` | src/db.cpp:452-474 | renaming the synced log, starting a new one and reserving a number keeps the invariant |
| `StoreFlush.SeparationKeepsReads` | src/db.cpp:415-427 | a flush moves exactly the values of at least the threshold and leaves every other record as it is; every record's reading is kept, each pointer inside the appended log and as long as its value |
| `StoreFlush.FlushAppendKeepsInv` | src/db.cpp:497-514 | appending the sealed memtable's values off-lock disturbs no reader and no crash reading |
| `StoreFlush.FlushSyncKeepsInv` | src/db.cpp:515 | the value log is durable before a pointer into it |
| `StoreFlush.FlushBuildKeepsInv` | src/db.cpp:517-525 | a new table file collides with nothing |
| `StoreFlush.FlushCommitKeepsInv` | src/db.cpp:527-535 | the new table takes the sealed memtable's place in every read, before and after a crash, whatever merge was picked meanwhile |
| `StoreFlush.DropKeepsInv` | src/db.cpp:536-540 | removing the sealed log after the commit loses nothing |
| `StoreFlush.LockedFlushKeepsInv` | src/db.cpp:408-427 | the synchronous flush of flush, gc and recovery up to its append |
| `StoreFlush.LockedCommitKeepsInv` | src/db.cpp:441-445 | its commit, with the log still there to be replayed over it |
| `StoreFlush.TruncateKeepsInv` | src/db.cpp:446-447 | dropping the log after the commit keeps the invariant with everything visible durable |
| `StoreFlush.TruncateCrash` | src/db.cpp:928-935 | after it whatever a crash leaves recovers exactly the newest map |
| `StoreFlush.PrependKeepsPlan` | src/db.cpp:529-530 | a flushed table arriving keeps a picked run consecutive and a leveled pick valid behind it |
| `StoreMerge.MergeRunKeepsInv` | src/db.cpp:601-611 | picking a consecutive run and reserving a number |
| `StoreMerge.MergeRunHolds` | src/db.cpp:601-629 | the output of a run holds each key's newest record, without its tombstones exactly when the run reaches the oldest table |
| `StoreMerge.MergeLevelKeepsInv` | src/db.cpp:678-734 | picking a leveled merge |
| `StoreMerge.ReserveKeepsInv` | src/db.cpp:754-759 | reserving one number per output while flushes go on |
| `StoreMerge.MergeBuildKeepsInv` | src/db.cpp:760-772 | writing an output file |
| `StoreMerge.InstallReplacesRun` | src/db.cpp:549-569 | installing the output puts it exactly in the run's place |
| `StoreMerge.CommitIsSound` | src/db.cpp:549-580 | under either strategy the commit keeps every visible record, the leveled order, and exactly the tables that were not inputs plus the outputs |
| `StoreMerge.MergeCommitKeepsInv` | src/db.cpp:774-797 | the commit keeps live, crash and reader views; inputs become obsolete only after the manifest |
| `StoreGc.RelocationKeepsReads` | src/db.cpp:984-1004 | the merged and relocated table answers every key as the old tables with the old logs did |
| `StoreGc.NextGenerationIsNew` | src/db.cpp:991-993 | the next generation's file does not exist before collection creates it |
| `StoreGc.GcRelocateKeepsInv` | src/db.cpp:991-1003 | copying survivors disturbs nothing |
| `StoreGc.GcSyncKeepsInv` | src/db.cpp:1004 | the new generation is durable before a table points into it |
| `StoreGc.GcBuildKeepsInv` | src/db.cpp:1006-1015 | the collected table's file collides with nothing |
| `StoreGc.GcCommitKeepsInv` | src/db.cpp:1017-1036 | swapping tables and generation in one manifest commit keeps live, crash and reader views |
| `StoreGc.GcLeavesOneCompactTable` | src/db.cpp:970-1045 | a pass changes nothing visible and leaves one tombstone-free table, all pointers in the new generation, whose log is exactly 8 + key + value bytes per surviving separated record, the entries the table points to |
| `StoreCrash.OpenReaderKeepsInv` | src/db.cpp:825-838 | a snapshot of memtables, tables and generation is consistent |
| `StoreCrash.UnlinkKeepsInv` | src/db.cpp:575-579 | unlinking an obsolete table no reader holds harms nothing |
| `StoreCrash.UnlinkLogKeepsInv` | src/db.cpp:1028-1036 | unlinking an old generation no reader holds harms nothing |
| `StoreCrash.CrashKeepsInv` | src/db.cpp:286-290 | losing unsynced suffixes of the logs leaves a recoverable disk |
| `StoreCrash.CleanFileKeepsInv` | src/db.cpp:331-342 | open-time cleanup removes exactly a table file the manifest does not name, and harms nothing |
| `StoreCrash.CleanLogKeepsInv` | src/db.cpp:342-344 | open-time cleanup removes exactly a generation the manifest does not name, and harms nothing |
| `StoreCrash.OpenKeepsDisk` | src/db.cpp:266-279 | after reopening the table files are exactly the named ones and the value log exactly the named generation, with the list's order, levels and contents restored |
| `StoreCrash.CleanupResumes` | src/db.cpp:331-346 | cleanup that a crash interrupts is finished by the next opening, to the same state |
| `StoreCrash.ReopeningRestoresTheList` | src/db.cpp:266-279 | after a crash at any point and a reopening, tables with order, levels and contents and the generation are those the process was running with |
| `StoreCrash.OpenKeepsInv` | src/db.cpp:286-303 | replaying the sealed log, then wal.log, re-establishes the invariant |
| `StoreCrash.ReopenedIsExact` | src/db.cpp:286-303 | what is admissible after a reopening is exactly what another crash of that disk may leave, so writes lost before stay lost |
| `Layers.MergeRunKeepsVisible` | src/compaction.cpp:41-47 | replacing a consecutive run by its merge in its slot changes no visible record; tombstones may go if the run reaches the oldest table |
| `Layers.DropIsSoundExactlyWhen` | src/compaction.cpp:19-31 | dropping a run's tombstones keeps every visible record if and only if no dropped key, unheld by newer tables, has a value in an older one |
| `Merge.MergeRecords` | src/compaction.cpp:67-111 | the output is the ascending listing of the newest-first overlay of the inputs, minus exactly the deleted keys when asked |
| `Merge.TakeSmallest` | src/compaction.cpp:76-104 | a round yields the least remaining key with its newest record and removes that key from every input |
| `Merge.SmallestHead` | src/compaction.cpp:77-88 | the least key under any cursor |
| `Merge.NewestAt` | src/compaction.cpp:90-99 | the first input holding it |
| `Merge.Advance` | src/compaction.cpp:101-104 | every cursor on it moves past it |
| `Merge.OverlayOfTables` | src/compaction.cpp:67-73 | overlaying record lists is overlaying the tables read first-match-wins |
| `Pick.ContiguousToOldest` | src/compaction.cpp:23-31 | true if and only if the indices are consecutive and end at the oldest |
| `Pick.PickCompaction` | src/compaction.cpp:35-65 | for any bucket function: a maximal same-bucket run of the least eligible bucket, the first such; none exactly when no run is long enough; tombstones may go exactly when it reaches the oldest table |
| `Leveled.ReorderPermutes` | src/db.cpp:660-671 | the re-sort is a permutation |
| `Leveled.SortsBeforeDecides` | src/db.cpp:663-670 | on tables of a well-ordered list the comparator agrees with the read order, so no two tables sharing a key swap |
| `Leveled.ReorderMakesChain` | src/db.cpp:660-671 | sorting pairwise comparable tables yields the read order |
| `LeveledCommit.UnchosenLiesClear` | src/db.cpp:716-727 | no unchosen destination table's range meets an output file's range |
| `LeveledCommit.CommitKeepsOrder` | src/db.cpp:774-788 | after filter, append and re-sort the list is well ordered: level 0 by age, deeper levels disjoint, whatever flushes arrived |
| `LeveledCommit.CommitKeepsVisible` | src/db.cpp:673-798 | every key's visible record is kept, tombstones dropped or not |
| `LeveledCommit.DroppedKeyIsGone` | src/db.cpp:731-732 | a key whose tombstone was dropped is in no table afterwards |
| `LeveledCommit.OutputsHold` | src/db.cpp:731-752 | the outputs hold each input key's newest record, without its tombstones exactly when no table lies below the destination level |
| `LeveledPick.ByLevel` | src/db.cpp:681-687 | groups the tables by level in order, with the deepest level |
| `LeveledPick.ChooseSource` | src/db.cpp:689-701 | level 0 when it has enough tables, else the shallowest level over budget; none exactly when none is due |
| `LeveledPick.LowestTable` | src/db.cpp:709-713 | a table with the least first key |
| `LeveledPick.CombinedRange` | src/db.cpp:716-722 | the exact key range of the source tables |
| `LeveledPick.OverlappingTables` | src/db.cpp:723-727 | exactly the destination tables meeting that range, in order |
| `LeveledPick.PickLevel` | src/db.cpp:678-734 | a pick exactly when some level is due, and then a valid one |
| `LeveledSplit.Split` | src/db.cpp:738-752 | consecutive non-empty groups making up the records, each closed by the record that takes its encoded size to the target, except that the last may fall short of it |
| `LeveledSplit.CostIsEncodedSize` | src/db.cpp:743-745 | the bytes counted for a record are its bytes in the file |
| `LeveledSplit.GroupsAreSplit` | src/db.cpp:754-771 | the files of the groups partition the merged records and lie in key order |
| `Quiesce.MergeRunShrinks` | src/db.cpp:549-569 | a size-tiered merge leaves strictly fewer tables |
| `Quiesce.LevelStepLowersWeight` | src/db.cpp:673-798 | a leveled step strictly lowers the measure (tables in level 0 plus record copies by remaining depth) and adds no copy |
| `Quiesce.SourceIsShallow` | src/db.cpp:634-658 | a level whose budget covers all records is never the source |
| `Quiesce.LeveledQuiesces` | src/db.cpp:582-594 | with no new writes no sequence of leveled steps is longer than the starting measure |
| `Quiesce.GrowingBudgetsSuffice` | src/db.cpp:634-639 | budgets that grow without bound reach the depth that needs |
| `Quiesce.LeveledCompactionStops` | src/db.cpp:582-658 | budgets that grow without bound and files of bounded size per record: from any well-ordered list some number of leveled steps is never exceeded |
| `Queries.Scan` | src/db.cpp:879-921 | strictly ascending, exactly the pairs in the half-open range that a get finds in the same state |
| `Queries.RangeIsHalfOpen` | src/db.cpp:861-921 | the start is in the range and the end is not, in the order of unsigned bytes |
| `Keys.LessAtFirstDifference` | src/memtable.cpp:66-78 | one key is below another exactly if at the first difference it ends or has the smaller unsigned byte |
| `Queries.SourcesOverlay` | src/db.cpp:864-877 | merging the clipped sources is clipping the overlay of all layers |
| `Queries.LayersAnswer` | src/db.cpp:820-859 | that overlay answers as the layer-by-layer lookup does |
| `Memtable.Table.Put` | src/memtable.cpp:12-22 | sets the entry; the byte count stays the sum over the entries and never underflows |
| `Memtable.Table.Del` | src/memtable.cpp:24-35 | leaves a tombstone; same accounting |
| `Memtable.Table.Get` | src/memtable.cpp:37-43 | a value exactly when the entry is a put |
| `Memtable.Table.IsTombstone` | src/memtable.cpp:45-48 | exactly when the entry is a delete |
| `Memtable.Table.TombstoneCount` | src/memtable.cpp:50-56 | the number of deleted keys |
| `Memtable.Table.Snapshot` | src/memtable.cpp:58-66 | the strictly ascending list of all entries, tombstones kept |
| `Memtable.Table.Range` | src/memtable.cpp:68-77 | that list filtered to start <= key < end |
| `Memtable.Apply` | src/db.cpp:291-303 | replayed records are applied oldest first, later ones winning |
| `ValueLog.Log.constructor` | src/vlog.cpp:50-68 | appends go after whatever is on disk |
| `ValueLog.Log.Append` | src/vlog.cpp:75-96 | one entry is appended, the pointer reads its value back, earlier pointers still read theirs; over-long fields fail and change nothing |
| `ValueLog.EntryFields` | src/vlog.cpp:75-96 | where an entry's key length, key, value length and value lie |
| `ValueLog.Log.Read` | src/vlog.cpp:105-107 | the bytes at the pointer; failure exactly when the value is not empty and reaches past the end |
| `ValueLog.MoveOutSpec` | src/db.cpp:415-427 | every moved record reads its value back, the others are untouched, the log grows by exactly the entries |
| `ValueLog.MoveValues` | src/db.cpp:415-427 | the loop computes that move: exactly the inline values of at least the threshold, or in a collection the readable separated ones, go to the log and read back there, the rest stay; it fails exactly when it meets a field of 4 GiB or more, what was in the log before kept |
| `ValueLog.MoveTablePointed` | src/db.cpp:995-1003 | relocated records point to every byte the relocation appended |
| `WriteAheadLog.Log.constructor` | src/wal.cpp:35-42 | an existing log is kept whole unless truncated |
| `WriteAheadLog.Log.Append` | src/wal.cpp:67-83 | one encoded record more, synced if asked; over-long fields fail and change nothing |
| `WriteAheadLog.EncodedForm` | src/wal.cpp:67-83 | a put is op 0, a delete op 1 with no value, each with 32-bit lengths before key and value |
| `WriteAheadLog.ParsesExactly` | src/wal.cpp:117-140 | a record is read exactly where its bytes stand, for every byte string |
| `WriteAheadLog.ReplayLog` | src/wal.cpp:117-139 | the loop computes the record-by-record parse |
| `WriteAheadLog.ReplayRoundTrip` | src/wal.cpp:67-139 | replaying an undamaged log returns its records |
| `WriteAheadLog.ReplayTruncated` | src/wal.cpp:117-139 | replaying any byte truncation returns a prefix of the records |
| `WriteAheadLog.WholeRecordsLongest` | src/wal.cpp:117-139 | that prefix is the longest wholly contained one |
| `WriteAheadLog.ReplayContinues` | src/wal.cpp:117-139 | what replay leaves unread is reread in front of whatever is appended |
| `WriteAheadLog.CutLogIsPrefix` | src/wal.cpp:117-139 | cutting any log at any byte leaves a prefix of its records, at least those wholly before an earlier cut |
| `WriteAheadLog.AppendAfterReopenExact` | src/wal.cpp:35-42 | every record appended after reopening replays if and only if there is no torn tail |
| `WriteAheadLog.TailOfTruncated` | src/wal.cpp:117-139 | what replay leaves of a truncated log is exactly the piece of a record at its end |
| `WriteAheadLog.TornTailExact` | src/wal.cpp:35-42 | a truncated log has a torn tail, and so some appended record is misread, if and only if the cut is not between records |
| `WriteAheadLog.TornPutSwallowsADelete` | src/wal.cpp:35-42 | a put torn after one byte and a delete logged after reopening: the delete is lost |
| `WriteAheadLog.ReplayIsLoggable` | src/wal.cpp:117-139 | whatever the bytes, replayed records have 32-bit lengths |
| `Codec.PutU64` | include/lsmkv/encoding.h:17-21 | the loop of shifts writes the little-endian bytes |
| `Codec.ReadU64` | include/lsmkv/encoding.h:30-36 | the loop of shifts reads them |
| `Codec.U32RoundTrip` | include/lsmkv/encoding.h:10-28 | every 32-bit value reads back |
| `Codec.LeDigits` | include/lsmkv/encoding.h:17-21 | byte i is the digit of weight 256^i, least significant first |
| `Codec.U32Bytes` | include/lsmkv/encoding.h:10-15 | the four bytes of a 32-bit value |
| `Codec.U64RoundTrip` | include/lsmkv/encoding.h:17-36 | every 64-bit value reads back |
| `Codec.ReadLeRoundTrip` | include/lsmkv/encoding.h:23-36 | every byte string is the encoding of the value it reads as |
| `BloomFilter.Fnv1a` | src/bloom_filter.cpp:15-22 | the loop computes the hash, in wrapping arithmetic |
| `BloomFilter.Bloom.constructor` | src/bloom_filter.cpp:50-53 | zero counts read as one; all bits clear; every bit has its byte exactly when the size computation does not wrap |
| `BloomFilter.Bloom.SetBit` | src/bloom_filter.cpp:55 | sets exactly one bit |
| `BloomFilter.Bloom.Add` | src/bloom_filter.cpp:61-67 | sets exactly the probed bits, so the key and all earlier keys are held |
| `BloomFilter.Bloom.Serialize` | src/bloom_filter.cpp:81-88 | the bytes of the filter held |
| `BloomFilter.KnownHashes` | src/bloom_filter.cpp:15-22 | the hashes of two short keys, as numbers |
| `BloomFilter.KnownProbes` | src/bloom_filter.cpp:61-67 | the first four probes of a key among 100 bits, as numbers, wrap-around included |
| `BloomFilter.BitWeights` | src/bloom_filter.cpp:55-59 | bit j of a byte is the one of weight 2^j |
| `BloomFilter.DeserializesExactly` | src/bloom_filter.cpp:90-103 | a filter is accepted exactly from its bytes, for every byte string, zero counts read as one |
| `BloomFilter.Bloom.MaybeContains` | src/bloom_filter.cpp:69-78 | false exactly when some probed bit is clear |
| `BloomFilter.BitsInBoundsExactly` | src/bloom_filter.cpp:50-59 | every bit index has a byte if and only if the size computation does not wrap |
| `BloomFilter.WrappedFilterIsAccepted` | src/bloom_filter.cpp:89-103 | twelve bytes naming 2^64 - 1 bits deserialize to a filter with an empty bit array |
| `BloomFilter.SerializeRoundTrip` | src/bloom_filter.cpp:80-103 | a filter survives its bytes |
| `BloomFilter.FilterOf` | src/bloom_filter.cpp:61-103 | no false negatives for any sequence of adds, also across the bytes, and no bit set that no key probes |
| `TableFormat.ParseEncoded` | src/sstable.cpp:72-122 | an encoded record, inline, separated or deleted, parses back whatever follows it |
| `TableFormat.EncodedForm` | src/sstable.cpp:72-93 | the bytes of each form: op 0 with the value, op 1 with none, op 0x80 with length, generation and offset |
| `TableFormat.ParsesExactly` | src/sstable.cpp:96-124 | a record is read exactly where the bytes of one stand, for every byte string |
| `TableFormat.BlockParsesExactly` | src/sstable.cpp:260-274 | a block is accepted exactly when it is records one after another with nothing left over |
| `TableFormat.IndexParsesExactly` | src/sstable.cpp:223-238 | an index is accepted exactly from the bytes of its entries, nothing left over |
| `TableFormat.EntryFields` | src/sstable.cpp:140-146 | where an index entry's key length, key, offset and length lie |
| `TableFormat.ParseAllEncoded` | src/sstable.cpp:260-274 | a block of them parses back |
| `TableFormat.ParseIndexEncoded` | src/sstable.cpp:223-238 | an index parses back |
| `SSTable.Build` | src/sstable.cpp:126-182 | the file of a blocking of the records, every block but the last just full, with a filter of the given size that holds every key and no other bit; over-long fields fail |
| `TableReads.ReadIndex` | src/sstable.cpp:223-238 | the loop computes the index parse, errors included |
| `TableReads.Open` | src/sstable.cpp:184-250 | opening computes the file parse, which `TableReads.OpensExactly` characterises on every file |
| `TableReads.OpensExactly` | src/sstable.cpp:184-250 | a file opens exactly when it has the footer with its eight letters and sizes that add up in 64 bits, and the index, filter and last block it names are in order; then to what they say |
| `TableReads.ReopenRestores` | src/sstable.cpp:184-250 | opening a built file restores index, key range, filter and count |
| `TableReads.BlockReadsBack` | src/sstable.cpp:260-274 | each block reads back its records |
| `TableReads.UpperBound` | src/sstable.cpp:280-296 | the first index entry beyond the key |
| `TableReads.GetNoBloom` | src/sstable.cpp:280-296 | index search and block scan agree with a linear lookup of the records built from |
| `TableReads.FilterChangesNothing` | src/sstable.cpp:298-301 | a key the filter rules out is not in the table |
| `TableScans.Range` | src/sstable.cpp:303-328 | agrees with filtering the records built from |
| `TableScans.Cursor.constructor` | src/sstable.cpp:330-354 | everything is still to be read |
| `TableScans.Cursor.Next` | src/sstable.cpp:330-354 | drops exactly the current record, across block boundaries |
| `TableScans.Enumerate` | src/sstable.cpp:330-354 | the cursor yields exactly the records built from |
| `OpenTables.WriteTable` | src/sstable.cpp:126-250 | a table built and opened again stands for its records, filter included |
| `OpenTables.FindIn` | src/sstable.cpp:280-301 | the record of a key in an open table, with the filter consulted or not |
| `OpenTables.GetFromTables` | src/db.cpp:839-858 | over open tables newest first: the newest record's answer, the same with the filters on or off |
| `OpenTables.TableRanges` | src/db.cpp:877 | each open table's records in range |
| `OpenTables.MergeTables` | src/compaction.cpp:67-111 | merging open tables through their cursors gives the listing of their overlay, without deleted keys on request |
| `TableTrip.BuildThenRead` | src/sstable.cpp:126-354 | built, reopened and read, with the filter or without, a table answers as its record list |
| `ManifestFile.Read` | src/db.cpp:186-246 | the loop computes the manifest parse: foreign, truncated or loaded |
| `ManifestFile.ReadsBackOrFails` | src/db.cpp:165-246 | a manifest reads back exactly, and every proper truncation of it is an error |
| `ManifestFile.ParsesExactly` | src/db.cpp:186-246 | for every byte string: a manifest is read exactly from its own bytes, whatever follows; there is none exactly when eight other bytes stand in front |
| `ManifestFile.HeaderFields` | src/db.cpp:165-175 | the eight letters, then next number, generation and table count |
| `ManifestFile.EntryFields` | src/db.cpp:171-175 | name length, name, and the level in two's complement |
| `Directory.ReadKey` | src/db.cpp:250-314 | from the bytes of a directory to the value of a key: the recovered map's value, and admissible |
| `Directory.OpenFiles` | src/db.cpp:266-276 | the named files are opened in the manifest's order and stand for its tables |
| `Directory.ByteCrashIsRecordCrash` | src/wal.cpp:117-139 | cutting wal.log at any byte after the synced ones, and the value logs, is a crash step at some record |
| `Directory.RepresentedFits` | src/sstable.cpp:94-122 | any disk that bytes stand for has 32-bit lengths throughout, which is what the opening database asks for |
| `Directory.AppendRepresents` | src/wal.cpp:67-83 | the bytes stand for the disk with any appended record added if and only if they had no torn tail |
| `Directory.FileRepresents` | src/db.cpp:432-437 | a table file under an unused name stands for the disk with that file |
| `Directory.ManifestRepresents` | src/db.cpp:165-184 | the manifest's bytes stand for the disk with that manifest |
| `Directory.WriteFile` | src/sstable.cpp:126-182 | the bytes of a built table hold its records |
| `Images.ImageRepresents` | src/db.cpp:165-184 | a disk whose records and manifest fit the formats is the disk some directory's bytes stand for, with no torn log |
| `Images.RunsHaveImages` | src/db.cpp:408-1045 | so is the disk of every state of every run whose writes have fields below 4 GiB, if its sizes fit the formats' widths |
| `DbLoops.DescribeTables` | src/db.cpp:316-329 | the manifest lists the tables in read order with their levels |
| `DbLoops.LoadTables` | src/db.cpp:266-276 | the manifest's tables are reopened in its order |
| `DbLoops.RemoveOrphans` | src/db.cpp:331-346 | exactly the files not kept go |
| `DbLoops.InstallMergeResult` | src/db.cpp:552-569 | the loop computes the list with the output in the newest input's slot |
| `DbLoops.RemoveInputs` | src/db.cpp:776-781 | the loop computes the list without the inputs |
| `DbLoops.SortTables` | src/db.cpp:660-671 | a stable sort by level, number or first key |
| `Database.Db.constructor` | src/db.cpp:250-314 | opening any directory a crash can leave: ready, every key reads admissibly, what later crashes may leave is narrowed to what survived, everything recovered is durable if a sealed log was found, and the files left are exactly those of the live tables and the current value log |
| `Database.Db.Load` | src/db.cpp:266-303 | tables, cleanup and both replays amount to the opening step |
| `Database.Db.ReplayLogs` | src/db.cpp:298-303 | the sealed log first, the active one on top |
| `Database.Db.WriteManifest` | src/db.cpp:316-329 | the manifest becomes that of the live tables, generation and next number |
| `Database.Db.Put` | src/db.cpp:800-808 | fails exactly on a field of 4 GiB or more, changing nothing; otherwise the plain map gains the pair, a synced put makes everything durable, another is recorded as pending, and the memtable is under its threshold or was just sealed |
| `Database.Db.Del` | src/db.cpp:810-818 | the plain map loses the key; otherwise as for a put |
| `Database.Db.Sync` | src/db.cpp:923-926 | everything accepted is durable |
| `Database.Db.MaybeSeal` | src/db.cpp:476-484 | a full memtable is sealed once the slot is free; any other is left alone, and all are when the store is stopping |
| `Database.Db.SealLocked` | src/db.cpp:452-474 | sync, rename, reserve and swap are the sync and seal steps |
| `Database.Db.FlushAppend` | src/db.cpp:495-514 | the separation loop is the append step, and exactly the values of at least the threshold left the records |
| `Database.Db.FlushCommit` | src/db.cpp:527-540 | list, manifest, then the log's removal |
| `Database.Db.FlushLocked` | src/db.cpp:408-450 | the memtable becomes one more table in front, with exactly the values of at least the threshold moved out; nothing visible changes, everything is durable; an empty memtable changes nothing |
| `Database.Db.Flush` | src/db.cpp:928-935 | unless the store is stopping, everything written so far is in tables and durable and nothing visible changes |
| `Database.Db.Get` | src/db.cpp:820-859 | the plain map's answer, through index, blocks and filters of the open tables, with the filters on or off |
| `Database.Db.Scan` | src/db.cpp:861-921 | strictly ascending, exactly the plain map's pairs in range, through the open tables' range reads |
| `Database.Db.StartMerge` | src/db.cpp:601-614 | nothing happens exactly when no run is long enough; otherwise pick, reserve and merge are the picking step for the best run |
| `Database.Db.BuildOutputs` | src/db.cpp:760-772 | every output file is written |
| `Database.Db.CommitMerge` | src/db.cpp:549-580 | install, manifest, then obsolete |
| `Database.Db.CompactSizeTiered` | src/db.cpp:596-632 | it acts exactly when some run is long enough; nothing visible changes and strictly fewer tables are left |
| `Database.Db.CompactAll` | src/db.cpp:937-968 | nothing visible changes and one table without tombstones is left |
| `Database.Db.StartLevel` | src/db.cpp:678-734 | a pick exactly when a level is due, from a due level |
| `Database.Db.ReserveOutputs` | src/db.cpp:736-759 | merge, split at the target size and numbering give a valid split |
| `Database.Db.CommitLevel` | src/db.cpp:774-797 | filter, append, re-sort, manifest, then obsolete |
| `Database.Db.CompactLeveled` | src/db.cpp:673-798 | it acts exactly when a level is due; nothing visible changes and the list moves by the merge of a due level, cut at the target size |
| `Database.Db.CompactTiersUntilDone` | src/db.cpp:582-594 | the size-tiered loop ends with nothing eligible and nothing visible changed |
| `Database.Db.CompactLevelsUntilDone` | src/db.cpp:582-594 | with growing budgets and files of bounded size per record the leveled loop ends with no level due and nothing visible changed |
| `Database.Db.CopySurvivors` | src/db.cpp:986-1003 | merge and relocation loop are the relocation step |
| `Database.Db.Relocate` | src/db.cpp:984-1036 | one tombstone-free table with exactly the surviving values in the new generation |
| `Database.Db.GcValueLog` | src/db.cpp:970-1045 | nothing visible changes and everything is durable; unless the store is empty the generation advances and one tombstone-free table is left whose pointers account for every byte of the new log |

## Left out

- dashboard/, cli/ and bench/: serving, printing and timing.
- System calls, short writes, retries and error codes; the errors that reach a caller as exceptions are `None` results.
- Thread primitives: locks, condition variables and wake-ups are represented by which steps are atomic; nothing is said about scheduling or shutdown.
- Floating-point sizing (filter bits and hash counts, size buckets, level budgets) and false-positive rates; any values of those parameters are covered.
- Opening a directory without a manifest (src/db.cpp:364-406), whose table order is best effort; runs start from a store whose first opening wrote one.
- Database.Db.CompactAll: asks for the size-tiered strategy and no other compaction in flight; the source neither waits for a running compaction nor orders its file number with a pending flush, and the invariant does not cover those overlaps.
- Changing the compaction strategy or the separation threshold of an existing store.
- Statistics, block-read counts and the table listing for the dashboard; file-name formatting and parsing; temporary files.
- Shared locking by readers: a read is its snapshot step and its answer; the unlink on the last release is a step of its own.
- Store.Truncate: takes recovery's log truncation and sealed-log removal as one step, because the gap between them is the window treated on its own in `StoreWindows`.
- WriteAheadLog.ReplayTruncated: treats one replay of a truncated log; in runs with several crashes the log loses whole records, because a torn tail that is appended to is misread (`WriteAheadLog.AppendAfterReopenExact`).
- Database.Db.MaybeSeal: the wait for the flushing slot is the flusher finishing its work in place; other writers running meanwhile are runs of `StoreRuns`.
- Database.Db.Get: takes the open tables as an argument that must stand for the listed tables, as does `Database.Db.Scan`; that a written and reopened file does is `OpenTables.WriteTable`.
- DbLoops.ReadTable: stands for a table's cursor in the object's compactions and collections; the same merge over open files is `OpenTables.MergeTables`.
- Directory.ReadKey: the names of table files are an arbitrary function of their numbers.
- Codec.ReadU64: shifts and ors of the source are additions and multiplications here.
- TableFormat.ParseEncoded: an op byte that no writer produces is an error here, while the source keeps it.
- DbLoops.SortTables: an insertion sort in place of the standard library's stable sort.
- Quiesce.LeveledCompactionStops: for a list with no flush arriving, and files of bounded size per record.
