# LevelDB and nanopb, in Dafny

This project models the two libraries vendored with the application that hold its data logic: the LevelDB
key-value store (`ValentinesDay/Pods/leveldb-library`) and the nanopb Protocol Buffers library
(`ValentinesDay/Pods/nanopb`). `dafny verify dfyconfig.toml` checks all of it.

What is proved, from the top down:

- **The store.** A store is memtables over a tree of seven levels of files, a file being a sorted
  sequence of versioned entries. Over every run of writes, memtable switches, flushes, trivial
  moves, compactions and snapshot changes, every live snapshot reads what the history of all
  writes says (`Stores`). The compaction theorem is exact: reads stay the same if and only if one
  check on one key, one file and one lookup finds nothing (`Install.CompactionReads`,
  `DropRules`). Runs whose outputs are never cut inside a user key need no check (`UncutRuns`).
- **Iterators.** Block, two-level, merging and database iterators are each an index into a plain
  sorted list, after any run of moves in any direction (`BlockReading`, `TableReading`, `Merging`,
  `DBIteration`).
- **Group commit.** All interleavings of the writer queue: one leader at a time, batches applied
  once and in order, visible whole or not at all (`GroupCommit`).
- **Files.** Log, write batch, table, filter and version-edit formats are read back as written,
  logs also after truncation at any byte, which gives crash recovery (`LogReading`, `Recovery`,
  `TableFiles`, `FilterBlocks`, `VersionEdits`, `Builders`). The edits that any run of the store
  logs give back its version, file by file (`Manifests.Recover`).
- **Memory.** Skip list with lock-free readers, memtable, hash table and LRU cache (`SkipLists`,
  `MemTables`, `HandleTables`, `LRUCaches`).
- **nanopb.** Encoding is exact about size and success, decoding restores every message a
  descriptor holds, and readers with an older descriptor still read what they know (`PbEncoding`,
  `PbStreams`, `PbRoundTrips`, `PbTransfers`).

## How the model relates to the code

- **User keys.** Where only the order of user keys matters they are reals. Byte strings ordered by
  memcmp embed into the reals order for order (`Comparators.RankIsOrder`), and the byte-level
  modules use that embedding or the byte order itself.
- **Resurrection.** `SetupOtherInputs` closes the inputs over boundary files at the level but not
  at level+1. The file of level+1 that continues the last user key of the level+1 inputs can stay
  behind with an older value while its deletion marker is dropped. `Install.UncoversValue` says
  when, in terms of one key, one file and one lookup before the compaction, and the store's
  `CanCompact` step asks that it does not happen. `Resurrection.DeletedKeyComesBack` is a tree where
  it does, and `ReachedSplits.RunBringsKeyBack` a run of the code that reaches it: a snapshot
  between two versions of a key, an output cut between them, the snapshot released, the deletion
  marker compacted. Two conditions make the check needless: compactions whose level+1 inputs are
  closed (`UncutRuns.CheckedRun`), and outputs never cut inside a user key (`UncutRuns.UncutRun`).
- **Smallest snapshot.** `DoCompactionWork` starts every user key with the largest sequence number
  as the last one seen, so the first entry of a key would be dropped if the smallest snapshot were
  that number. The contract asks for a smaller one.
- **DBIter.** The comment at `ValentinesDay/Pods/leveldb-library/db/db_iter.cc:44-45` says that in reverse the internal
  iterator stands just before all entries of the current key. The code may leave invisible entries
  in between, and the invariant allows them.
- **Choices made by size.** Output cuts, the grandparent test, the compaction trigger and the skip
  list's coin flips are arbitrary in the model, so the theorems hold for every choice.
- **Checksums and hashes** are arbitrary functions; the log's and the table's results hold for all.
- **Source widths.** 32- and 64-bit fields, wrap-around of counts and sequences in batches and
  recovery, and shifts in the varint decoders are written out. Lengths of whole files and of
  nanopb streams are unbounded.
- **Field widths of nanopb.** The pod is built with `PB_FIELD_32BIT`
  (`ValentinesDay/Pods/Target Support Files/nanopb/nanopb.release.xcconfig:2`), so `PB_SIZE_MAX` is
  2^32 - 1 and so are the bounds on byte and string fields.
- **Loops and state.** Code that updates objects is modelled by classes and methods proved against
  specification functions; the theorems are about those functions. Ghost fields such as a block
  builder's `pairs`, a table builder's blocks or a cache's `held` say what the concrete fields stand
  for.
- **Flush, pick, merge and install** are single steps of a store. The memtable flush that
  `DoCompactionWork` can do in the middle of a compaction is a step before or after it.

## Model

| member | source | states |
|---|---|---|
| InternalKeys.LessIsStrictTotalOrder | ValentinesDay/Pods/leveldb-library/db/dbformat.cc:51-67 | Internal keys are totally ordered: user key up, sequence and type down; no two distinct keys tie. |
| InternalKeys.SeekSkipsInvisible | ValentinesDay/Pods/leveldb-library/db/dbformat.cc:121-136 | Seeking to a lookup key passes over exactly the smaller user keys and the versions newer than the snapshot. |
| Versions.FindFile | ValentinesDay/Pods/leveldb-library/db/version_set.cc:88-106 | The binary search returns the first file whose largest key is at or after the target. |
| Versions.SeekFindsNewest | ValentinesDay/Pods/leveldb-library/db/version_set.cc:263-276 | In any sorted run the entry where the seek stops, if it has the key, is the newest one visible at the snapshot; otherwise none is visible. |
| Versions.SortNewestFirst | ValentinesDay/Pods/leveldb-library/db/version_set.cc:278-280 | Level-0 files come out in descending number, same files. |
| Versions.GetFromLevelZero | ValentinesDay/Pods/leveldb-library/db/version_set.cc:349-365 | Scanning the covering level-0 files newest first and stopping at the first hit finds the newest visible entry of the level. |
| Versions.GetFromSortedLevel | ValentinesDay/Pods/leveldb-library/db/version_set.cc:366-382 | Above level 0 the one file found by binary search decides the level. |
| Versions.TreeUnique | ValentinesDay/Pods/leveldb-library/db/version_set.cc:336-341 | In a well-formed tree a user key and a sequence number name one entry. |
| Versions.Get | ValentinesDay/Pods/leveldb-library/db/version_set.cc:326-421 | The first level that answers gives the newest visible entry of the whole tree: value, deleted or absent. |
| Stores.MemTableGet | ValentinesDay/Pods/leveldb-library/db/memtable.cc:100-134 | A memtable lookup returns the outcome of its newest visible entry. |
| Stores.Get | ValentinesDay/Pods/leveldb-library/db/db_impl.cc:1100-1145 | At every live snapshot, memtable, immutable memtable and tree in turn answer what the history of all writes says. |
| Selection.OverlapInLevel | ValentinesDay/Pods/leveldb-library/db/version_set.cc:122-155 | True exactly if some file of the level meets the user-key range, scanned at level 0 and binary searched above. |
| Selection.PickLevelForMemTableOutput | ValentinesDay/Pods/leveldb-library/db/version_set.cc:491-516 | A flush goes to level 2 at most, and to a level above 0 only if no file of that level or a shallower one overlaps it. |
| Selection.GetOverlappingLevelZero | ValentinesDay/Pods/leveldb-library/db/version_set.cc:519-559 | Despite restarts it terminates, with the smallest set of files closed under user-key overlap from the requested range. |
| Selection.GetOverlappingInputs | ValentinesDay/Pods/leveldb-library/db/version_set.cc:519-559 | Every file that meets the range is selected; the result is closed under overlap at level 0 and a slice of the level above it. |
| Selection.FindLargestKey | ValentinesDay/Pods/leveldb-library/db/version_set.cc:1326-1340 | The largest internal key of the files, none for no files. |
| Selection.FindSmallestBoundaryFile | ValentinesDay/Pods/leveldb-library/db/version_set.cc:1344-1363 | Of the files that continue the user key of a given largest key with older entries, the one that starts first. |
| Selection.AddBoundaryInputs | ValentinesDay/Pods/leveldb-library/db/version_set.cc:1378-1401 | Terminates because fewer files start above the largest key each time; what is added is the chain of boundary files, until none is left. |
| Selection.ChainIsNextRun | ValentinesDay/Pods/leveldb-library/db/version_set.cc:1365-1377 | In a sorted level the chain is the run of files right after the selected ones. |
| Selection.CloseOverBoundaries | ValentinesDay/Pods/leveldb-library/db/version_set.cc:1403-1410 | Closed level inputs leave no older entry of one of their user keys behind in the level. |
| Selection.GetRange | ValentinesDay/Pods/leveldb-library/db/version_set.cc:1205-1227 | Every user key of the files lies between those of the two keys returned, and the second is the largest key. |
| Selection.GrowInputs | ValentinesDay/Pods/leveldb-library/db/version_set.cc:1418-1450 | Growing the level inputs keeps them closed and never changes the next level's inputs. |
| Selection.SetupOtherInputs | ValentinesDay/Pods/leveldb-library/db/version_set.cc:1403-1462 | The inputs are closed at the level, the next level's inputs are exactly the files the closed level inputs overlap, and growing them changes neither fact. |
| Selection.PickCompaction | ValentinesDay/Pods/leveldb-library/db/version_set.cc:1270-1322 | Either trigger, size or seeks, starts from files that lead to valid inputs, and a seek-triggered file is among them. |
| Selection.CompactRange | ValentinesDay/Pods/leveldb-library/db/version_set.cc:1464-1495 | A manual compaction has inputs exactly if a file meets the range, and they are valid also when cut short by size. |
| DropRules.ReadChangesIffResurrects | ValentinesDay/Pods/leveldb-library/db/db_impl.cc:929-963 | At one key: the drop rules change a read at or above the smallest snapshot only if a dropped deletion marker had an older value outside the inputs, and then the read at the smallest snapshot does change. |
| DropRules.DropsInvisibleIff | ValentinesDay/Pods/leveldb-library/db/db_impl.cc:929-963 | The drop rules are invisible at every snapshot from the smallest on if and only if no key resurrects. |
| Compactions.Compaction.IsBaseLevelForKey | ValentinesDay/Pods/leveldb-library/db/version_set.cc:1533-1552 | For ascending keys the remembered level pointers answer as a search of all deeper levels would. |
| Compactions.ShouldDrop | ValentinesDay/Pods/leveldb-library/db/db_impl.cc:929-963 | An entry is dropped exactly if a newer one of its key is visible at every snapshot, or it is a deletion marker old enough with nothing below. |
| Compactions.DoCompactionWork | ValentinesDay/Pods/leveldb-library/db/db_impl.cc:878-1036 | The output files, however they are cut, hold exactly the kept entries of the merged input, in order and with ascending numbers. |
| Compactions.LoopKeeps | ValentinesDay/Pods/leveldb-library/db/db_impl.cc:907-963 | The loop with its current_user_key and last_sequence_for_key keeps exactly the set the drop rules keep. |
| Compactions.CutsGiveSortedLevel | ValentinesDay/Pods/leveldb-library/db/db_impl.cc:966-995 | Wherever outputs are cut, the files form a sorted, disjoint level. |
| Install.RemovesExactly | ValentinesDay/Pods/leveldb-library/db/version_set.cc:1525-1531 | Deleting the inputs by number removes those files and no others. |
| Install.CompactionKeepsTree | ValentinesDay/Pods/leveldb-library/db/db_impl.cc:860-876 | Installing a compaction keeps every level above 0 sorted and disjoint, level-0 numbers following age, and shallower levels newer. |
| Install.TreeAfterCompaction | ValentinesDay/Pods/leveldb-library/db/db_impl.cc:860-876 | Afterwards the tree holds what was not an input plus what was written. |
| Install.ResurrectionNeedsBoundary | ValentinesDay/Pods/leveldb-library/db/version_set.cc:1403-1422 | A resurrecting key is the last user key of the level+1 inputs, and its older value stands in the file of level+1 right after them, which continues that key and is left behind; closing those inputs too would exclude it. |
| Install.ResurrectionIsUncovering | ValentinesDay/Pods/leveldb-library/db/db_impl.cc:938-961 | Some key resurrects if and only if one check made before the compaction says so: the last user key of the level+1 inputs is on no deeper level, the file after them begins with a value of it, and a lookup at the smallest snapshot ends on a deletion marker in the inputs. |
| Install.CompactionReads | ValentinesDay/Pods/leveldb-library/db/db_impl.cc:878-1036 | For the whole store under newer memtables: reads at all live snapshots stay the same if and only if that check finds nothing; closed level+1 inputs suffice. |
| Install.MoveKeepsTree | ValentinesDay/Pods/leveldb-library/db/db_impl.cc:718-728 | A trivial move keeps the tree invariant and every entry. |
| Install.FlushKeepsTree | ValentinesDay/Pods/leveldb-library/db/db_impl.cc:491-533 | A flush to the level picked keeps the tree invariant and adds exactly the memtable's entries. |
| Resurrection.KeyTwoResurrects | ValentinesDay/Pods/leveldb-library/db/version_set.cc:1403-1422 | A concrete tree that meets the condition under which a compaction changes reads. |
| Resurrection.DeletedKeyComesBack | ValentinesDay/Pods/leveldb-library/db/version_set.cc:1403-1422 | On that tree everything the code checks holds, and a deleted key is readable after the compaction. |
| ReachedSplits.RunBringsKeyBack | ValentinesDay/Pods/leveldb-library/db/db_impl.cc:878-1036 | A run of the store, as the code makes it, reaches that tree from empty and ends in a live read of a value the history has deleted. |
| Stores.StepKeepsInv | ValentinesDay/Pods/leveldb-library/db/db_impl.cc:535-566 | Write, memtable switch, flush, trivial move, atomic compaction, snapshot taken or released: each keeps the tree invariant, memtables newer than the tree, and every live read equal to the history's. |
| Stores.RunKeepsInv | ValentinesDay/Pods/leveldb-library/db/db_impl.cc:688-767 | So does every run of the store, from empty. |
| Stores.SnapshotsAreStable | ValentinesDay/Pods/leveldb-library/db/db_impl.cc:1166-1175 | A snapshot that stays live reads the same at every later state of a run. |
| Stores.EveryRunServesReads | ValentinesDay/Pods/leveldb-library/db/db_impl.cc:1100-1145 | After any run, what is stored answers every live snapshot as the history does, for all keys. |
| UncutRuns.CheckedRun | ValentinesDay/Pods/leveldb-library/db/version_set.cc:1403-1422 | A run as the code makes it, in which no compaction leaves a file of level+1 that continues the last user key of its inputs, is one of the runs above, and every live read at every point of it is the history's. |
| UncutRuns.UncutRun | ValentinesDay/Pods/leveldb-library/db/db_impl.cc:982-990 | So is a run whose compaction outputs are never cut between two entries of one user key: every compaction of it is harmless and every live read is the history's, with nothing checked. |
| Merging.MergingIterator.SeekToFirst | ValentinesDay/Pods/leveldb-library/table/merger.cc:31-37 | Stands on the first entry of the union. |
| Merging.MergingIterator.SeekToLast | ValentinesDay/Pods/leveldb-library/table/merger.cc:39-45 | Stands on the last entry of the union. |
| Merging.MergingIterator.Seek | ValentinesDay/Pods/leveldb-library/table/merger.cc:47-53 | Stands on the lower bound of the target in the union. |
| Merging.MergingIterator.Next | ValentinesDay/Pods/leveldb-library/table/merger.cc:55-79 | One forward in the union, whichever way it moved before. |
| Merging.MergingIterator.Prev | ValentinesDay/Pods/leveldb-library/table/merger.cc:81-108 | One back in the union, whichever way it moved before. |
| Merging.MergingIterator.FindSmallest | ValentinesDay/Pods/leveldb-library/table/merger.cc:148-161 | Picks the child that stands on the next entry of the union, or none at the end. |
| Merging.MergingIterator.FindLargest | ValentinesDay/Pods/leveldb-library/table/merger.cc:163-176 | Picks the child that stands on the previous entry of the union, or none at the beginning. |
| Merging.MergingIterator.TurnForward | ValentinesDay/Pods/leveldb-library/table/merger.cc:63-72 | Switching to forward moves every other child past the current key and leaves the place alone. |
| Merging.MergingIterator.TurnReverse | ValentinesDay/Pods/leveldb-library/table/merger.cc:89-104 | Switching to reverse puts every other child before the current key and leaves the place alone. |
| Merging.MergingIterator.SmallestIsNext | ValentinesDay/Pods/leveldb-library/table/merger.cc:148-161 | While moving forward exactly one child stands on the next entry and the others stand beyond it. |
| Merging.MergingIterator.LargestIsPrevious | ValentinesDay/Pods/leveldb-library/table/merger.cc:163-176 | The mirror image while moving back. |
| DBIteration.ViewIsTheReads | ValentinesDay/Pods/leveldb-library/db/db_iter.cc:34-39 | The list iterated over is, in ascending user keys, exactly the keys whose read at the snapshot finds a value, with that value. |
| DBIteration.DBIter.Seek | ValentinesDay/Pods/leveldb-library/db/db_iter.cc:269-281 | Stands on the first live user key at or after the target. |
| DBIteration.DBIter.SeekToFirst | ValentinesDay/Pods/leveldb-library/db/db_iter.cc:283-292 | Stands on the first live user key. |
| DBIteration.DBIter.SeekToLast | ValentinesDay/Pods/leveldb-library/db/db_iter.cc:294-299 | Stands on the last live user key. |
| DBIteration.DBIter.Next | ValentinesDay/Pods/leveldb-library/db/db_iter.cc:141-166 | One forward in the list of live keys, also after moving back. |
| DBIteration.DBIter.Prev | ValentinesDay/Pods/leveldb-library/db/db_iter.cc:200-225 | One back in the list of live keys, also after moving forward. |
| DBIteration.DBIter.FindNextUserEntry | ValentinesDay/Pods/leveldb-library/db/db_iter.cc:168-198 | Stops at the first live entry past the key being skipped, having passed none. |
| DBIteration.DBIter.FindPrevUserEntry | ValentinesDay/Pods/leveldb-library/db/db_iter.cc:227-267 | Shows the last live key before the place it started from. |
| DBIteration.DBIter.ScanBack | ValentinesDay/Pods/leveldb-library/db/db_iter.cc:227-255 | Scanning back keeps the newest visible version met of a key and drops it if a newer deletion turns up. |
| DBIteration.DBIter.PerformAll | ValentinesDay/Pods/leveldb-library/db/db_iter.cc:141-299 | Any run of Seek, SeekToFirst, SeekToLast, Next and Prev ends where an index into the list of live keys ends. |
| DBIteration.DBIter.Key | ValentinesDay/Pods/leveldb-library/db/db_iter.cc:64-67 | In either direction the key shown is that of the current element of the list of live keys. |
| DBIteration.DBIter.CurrentValue | ValentinesDay/Pods/leveldb-library/db/db_iter.cc:68-71 | So is the value. |
| GroupCommit.BuildBatchGroup | ValentinesDay/Pods/leveldb-library/db/db_impl.cc:1260-1306 | The group is the run of queued batches in order; it stops only before a sync request its leader lacks or above the size limit, and uses the temporary batch exactly for two or more batches. |
| GroupCommit.StepKeepsInv | ValentinesDay/Pods/leveldb-library/db/db_impl.cc:1185-1256 | Every step of every thread keeps the protocol invariant. |
| GroupCommit.RunKeepsInv | ValentinesDay/Pods/leveldb-library/db/db_impl.cc:1185-1256 | Every interleaving keeps it. |
| GroupCommit.OneLeader | ValentinesDay/Pods/leveldb-library/db/db_impl.cc:1185-1229 | At any time at most one thread is past the queue, it is the oldest, and the temporary batch is empty when it forms its group. |
| GroupCommit.BatchSitsInGroup | ValentinesDay/Pods/leveldb-library/db/db_impl.cc:1260-1306 | A call's batch stands in its group's batch right after those queued before it. |
| GroupCommit.GroupIsPublishedWhole | ValentinesDay/Pods/leveldb-library/db/db_impl.cc:1200-1238 | LastSequence lies before all numbers of the running group and at or after all numbers of a finished one. |
| GroupCommit.VisibleIsWholeGroups | ValentinesDay/Pods/leveldb-library/db/db_impl.cc:1205-1238 | A reader at LastSequence sees exactly the entries of the groups that succeeded. |
| GroupCommit.ReadersSeeAllOrNone | ValentinesDay/Pods/leveldb-library/db/db_impl.cc:1205-1238 | Of each batch it sees all entries or none. |
| GroupCommit.SuccessMeansApplied | ValentinesDay/Pods/leveldb-library/db/db_impl.cc:1209-1253 | A call told ok had its batch logged and applied whole, in exactly one group, and synced if it asked for that. |
| GroupCommit.InsertionsAscend | ValentinesDay/Pods/leveldb-library/db/db_impl.cc:1202-1236 | The memtable is filled with strictly ascending sequence numbers, so nothing is applied twice. |
| GroupCommit.SnapshotsAreFixed | ValentinesDay/Pods/leveldb-library/db/db_impl.cc:1166-1175 | What is visible at a LastSequence of some moment never changes later in the run. |
| LogFormat.UnmaskMask | ValentinesDay/Pods/leveldb-library/util/crc32c.h:29-38 | Unmasking a masked checksum gives it back. |
| LogWriting.Writer.EmitPhysicalRecord | ValentinesDay/Pods/leveldb-library/db/log_writer.cc:82-108 | Appends checksum, length, type and payload, and advances the block offset by their size. |
| LogWriting.Writer.AddRecord | ValentinesDay/Pods/leveldb-library/db/log_writer.cc:34-80 | The file grows by exactly the fragments of the record, cut and padded at block ends, at least one even for an empty record. |
| LogWriting.WriteAll | ValentinesDay/Pods/leveldb-library/db/log_writer.cc:34-80 | Records written one after another give the layout of all of them. |
| LogReading.Reader.ReadPhysicalRecord | ValentinesDay/Pods/leveldb-library/db/log_reader.cc:189-271 | A fragment that stands whole at the position is returned with nothing reported; one the file ends inside gives end of file with nothing reported. |
| LogReading.Reader.ReadRecord | ValentinesDay/Pods/leveldb-library/db/log_reader.cc:56-174 | A record that stands whole is reassembled; one the file ends inside is end of log, not corruption. Progress is made on any file. |
| LogReading.NextRecordStands | ValentinesDay/Pods/leveldb-library/db/log_writer.cc:34-80 | In a byte prefix of a log, after the whole records comes the next one, whole or cut. |
| LogReading.ReadAll | ValentinesDay/Pods/leveldb-library/db/log_reader.cc:56-174 | On every byte prefix of a log the reader returns exactly the records that are whole in it and reports nothing. |
| LogReading.RoundTrip | ValentinesDay/Pods/leveldb-library/db/log_reader.cc:56-174 | Whatever was written is read back, all and in order. |
| WriteBatches.WriteBatch.Add | ValentinesDay/Pods/leveldb-library/db/write_batch.cc:98-109 | The batch now encodes one operation more, its header count included. |
| WriteBatches.WriteBatch.Append | ValentinesDay/Pods/leveldb-library/db/write_batch.cc:144-148 | Appending a batch is concatenating its operations. |
| WriteBatches.WriteBatch.SetSequence | ValentinesDay/Pods/leveldb-library/db/write_batch.cc:94-96 | Patching the sequence changes nothing else. |
| WriteBatches.WriteBatch.Clear | ValentinesDay/Pods/leveldb-library/db/write_batch.cc:35-38 | Back to the empty batch. |
| WriteBatches.EncodeOpsAppend | ValentinesDay/Pods/leveldb-library/db/write_batch.cc:144-148 | The encoding of a concatenation is the concatenation of the encodings. |
| WriteBatches.Iterate | ValentinesDay/Pods/leveldb-library/db/write_batch.cc:42-80 | On any bytes the loop hands out the operations before the first error, and reports that error. |
| WriteBatches.BatchRoundTrip | ValentinesDay/Pods/leveldb-library/db/write_batch.cc:42-80 | Iterating a batch that was built hands back its operations, without error. |
| Recovery.InsertInto | ValentinesDay/Pods/leveldb-library/db/write_batch.cc:116-137 | Entries are numbered from the batch's own sequence. |
| Recovery.ReplayRecord | ValentinesDay/Pods/leveldb-library/db/db_impl.cc:412-453 | A record that holds a batch inserts exactly its entries and raises max_sequence to its last number. |
| Recovery.RecoverLogFile | ValentinesDay/Pods/leveldb-library/db/db_impl.cc:371-489 | Replaying any byte prefix of a log of batches inserts exactly the entries of a prefix of the batches, none split, each with its own number. |
| Recovery.MaxLastCovers | ValentinesDay/Pods/leveldb-library/db/db_impl.cc:434-440 | max_sequence is at least every number replayed. |
| Recovery.DurableBatchSurvives | ValentinesDay/Pods/leveldb-library/db/db_impl.cc:412-453 | A batch whose record is whole in the file is replayed. |
| Blocks.BlockBuilder.Add | ValentinesDay/Pods/leveldb-library/table/block_builder.cc:72-106 | The block holds one pair more, sharing a prefix or opening a restart run; its size estimate grows by no more than the bytes added and 19. |
| Blocks.BlockBuilder.Finish | ValentinesDay/Pods/leveldb-library/table/block_builder.cc:62-70 | The entries, then the offset of every restart run and their number. |
| Blocks.BlockBuilder.Reset | ValentinesDay/Pods/leveldb-library/table/block_builder.cc:47-54 | The empty block again. |
| Blocks.BlockBuilder.EstimateIsSize | ValentinesDay/Pods/leveldb-library/table/block_builder.cc:56-60 | The estimate tells exactly whether the finished block's offsets fit 32 bits. |
| BlockReading.LengthsRoundTrip | ValentinesDay/Pods/leveldb-library/table/block.cc:54-78 | The fast path and the varint path of the entry header read the same three lengths. |
| BlockReading.DecodeEntryOfEntry | ValentinesDay/Pods/leveldb-library/table/block.cc:54-78 | Decoding an entry gives its shared length, rest of key and value, whatever follows. |
| BlockReading.EntryReads | ValentinesDay/Pods/leveldb-library/table/block_builder.cc:72-106 | At the offset of each entry of a built block stands that entry. |
| BlockReading.BuiltIsLaidOut | ValentinesDay/Pods/leveldb-library/table/block_builder.cc:62-106 | A built block has its entries, restart points and restart count where the reader looks for them. |
| BlockReading.Iter.ParseNextKey | ValentinesDay/Pods/leveldb-library/table/block.cc:224-251 | The next entry becomes current, or the iterator becomes invalid after the last. |
| BlockReading.Iter.SearchRestarts | ValentinesDay/Pods/leveldb-library/table/block.cc:164-187 | The binary search finds the last restart point before the target, or the first. |
| BlockReading.Iter.Seek | ValentinesDay/Pods/leveldb-library/table/block.cc:163-201 | Stands on the lower bound of the target. |
| BlockReading.Iter.Next | ValentinesDay/Pods/leveldb-library/table/block.cc:137-140 | One forward. |
| BlockReading.Iter.Prev | ValentinesDay/Pods/leveldb-library/table/block.cc:142-161 | One back, across restart points; invalid before the first. |
| BlockReading.Iter.SeekToFirst | ValentinesDay/Pods/leveldb-library/table/block.cc:203-206 | Stands on the first pair. |
| BlockReading.Iter.SeekToLast | ValentinesDay/Pods/leveldb-library/table/block.cc:208-213 | Stands on the last pair. |
| BlockReading.LowerBoundUnique | ValentinesDay/Pods/leveldb-library/table/block.cc:163-201 | The lower bound of a target in ascending pairs is one place. |
| BlockReading.BuildAndWalk | ValentinesDay/Pods/leveldb-library/table/block.cc:137-213 | For ascending keys, any restart interval and a block below 4 GiB: after any run of moves over the built block, the iterator shows the pair a plain index shows. |
| SkipLists.SkipList.FindGreaterOrEqual | ValentinesDay/Pods/leveldb-library/db/skiplist.h:260-282 | The lower bound of the key, and its predecessor on every level in use. |
| SkipLists.SkipList.FindLessThan | ValentinesDay/Pods/leveldb-library/db/skiplist.h:284-302 | The latest node before the key, or the head. |
| SkipLists.SkipList.FindLast | ValentinesDay/Pods/leveldb-library/db/skiplist.h:304-322 | The last node, or the head. |
| SkipLists.SkipList.Contains | ValentinesDay/Pods/leveldb-library/db/skiplist.h:370-378 | True exactly if the key is in the list. |
| SkipLists.SkipList.Link | ValentinesDay/Pods/leveldb-library/db/skiplist.h:361-366 | After each single link the whole structure is valid again, with the node on one level more. |
| SkipLists.SkipList.Insert | ValentinesDay/Pods/leveldb-library/db/skiplist.h:336-368 | For every height: the key goes in at its place, and nothing else changes. |
| SkipLists.ShapeAfterLink | ValentinesDay/Pods/leveldb-library/db/skiplist.h:336-368 | Linking bottom up keeps every level sorted and a sublist of the one below. |
| SkipLists.LinkIsALink | ValentinesDay/Pods/leveldb-library/db/skiplist.h:361-366 | Each turn of the linking loop is one writer step as readers see it. |
| SkipLists.NextPointerIsNext | ValentinesDay/Pods/leveldb-library/db/skiplist.h:153-170 | A next pointer names the key that follows on its level. |
| SkipLists.ReadersFindEarlierKeys | ValentinesDay/Pods/leveldb-library/db/skiplist.h:260-282 | A search interleaved with any links ends at or after its target, on a key of the list, and misses no key that was there when it began. |
| SkipLists.Iterator.Prev | ValentinesDay/Pods/leveldb-library/db/skiplist.h:212-221 | The predecessor found by searching from the head is the one before; invalid at the first. |
| SkipLists.Iterator.Seek | ValentinesDay/Pods/leveldb-library/db/skiplist.h:223-226 | Stands on the lower bound. |
| MemTables.ParseRoundTrip | ValentinesDay/Pods/leveldb-library/db/dbformat.h:165-175 | Parsing an internal key gives the sequence number, type and user key it was packed from. |
| MemTables.SeekDecides | ValentinesDay/Pods/leveldb-library/db/memtable.cc:100-134 | Where the seek to the lookup key stops decides a lookup: the newest visible entry of the user key or none. |
| MemTables.RankNames | ValentinesDay/Pods/leveldb-library/db/memtable.cc:28-34 | Entries that compare equal agree in user key, sequence number and type. |
| MemTables.MemTable.Add | ValentinesDay/Pods/leveldb-library/db/memtable.cc:75-98 | The table holds one entry more, in internal key order, encoded in a buffer of the computed length. |
| MemTables.MemTable.Get | ValentinesDay/Pods/leveldb-library/db/memtable.cc:100-134 | For every key and snapshot: the outcome of the newest visible entry added, or none. |
| Comparators.LexTrichotomy | ValentinesDay/Pods/leveldb-library/include/leveldb/slice.h:101-113 | Byte strings are totally ordered by memcmp and length. |
| Comparators.RankIsOrder | ValentinesDay/Pods/leveldb-library/util/comparator.cc:25-27 | Byte strings with a tie-breaking fraction embed into the reals, order for order, which is why user keys can be reals elsewhere. |
| Comparators.FindShortestSeparator | ValentinesDay/Pods/leveldb-library/util/comparator.cc:29-50 | At or after start, before limit when start is, never longer than start. |
| Comparators.FindShortSuccessor | ValentinesDay/Pods/leveldb-library/util/comparator.cc:52-64 | At or after the key and never longer. |
| Comparators.InternalSeparatorSeparates | ValentinesDay/Pods/leveldb-library/db/dbformat.cc:69-86 | The index key is at or after the block's last key and before the next one, and nothing between has the next key's user key. |
| Comparators.InternalSuccessorIsLater | ValentinesDay/Pods/leveldb-library/db/dbformat.cc:88-101 | The last index key is at or after the last key. |
| InternalTables.InternalComparatorShortens | ValentinesDay/Pods/leveldb-library/db/dbformat.cc:69-101 | The internal comparator meets everything the table code assumes of its comparator. |
| TableFormat.HandleRoundTrip | ValentinesDay/Pods/leveldb-library/table/format.cc:15-29 | A block handle decodes to itself, whatever follows. |
| TableFormat.FooterRoundTrip | ValentinesDay/Pods/leveldb-library/table/format.cc:31-62 | A footer decodes to itself. |
| TableFormat.ReadsBack | ValentinesDay/Pods/leveldb-library/table/format.cc:64-142 | A block in the file is read back with its checksum verified. |
| TableBuilding.TableBuilder.Add | ValentinesDay/Pods/leveldb-library/table/table_builder.cc:94-123 | One pair more; the pending index entry of the last block is written first, under a shortened key. |
| TableBuilding.TableBuilder.Flush | ValentinesDay/Pods/leveldb-library/table/table_builder.cc:125-139 | The data block goes to the file; no pair is lost. |
| TableBuilding.TableBuilder.WriteBlock | ValentinesDay/Pods/leveldb-library/table/table_builder.cc:141-196 | Contents, type and checksum go to the end of the file and the handle names them. |
| TableBuilding.FirstAddKeepsConsistent | ValentinesDay/Pods/leveldb-library/table/table_builder.cc:102-109 | The deferred index entry, keyed between a block and the next key, points at that block. |
| TableBuilding.FlushKeepsConsistent | ValentinesDay/Pods/leveldb-library/table/table_builder.cc:125-139 | Blocks, index and filter calls stay in step when a block is written. |
| TableBuilding.TableBuilder.Finish | ValentinesDay/Pods/leveldb-library/table/table_builder.cc:198-253 | The file is a table whose blocks hold, in order, exactly the pairs added; the filter was told of all of them; the metaindex block names the filter block, or nothing. |
| TableBuilding.TableBuilder.WriteMeta | ValentinesDay/Pods/leveldb-library/table/table_builder.cc:206-226 | The filter block goes into the file as it is, the metaindex block says under which name and where, and the data blocks are undisturbed. |
| TableReading.Open | ValentinesDay/Pods/leveldb-library/table/table.cc:38-82 | On a finished table the footer leads to its index block and its metaindex block; on other files Open fails or returns some block. |
| TableReading.ReadMeta | ValentinesDay/Pods/leveldb-library/table/table.cc:84-111 | The filter block read is the one written, if it was written under the name of the reader's policy, and none otherwise. |
| TableReading.ReadFilter | ValentinesDay/Pods/leveldb-library/table/table.cc:113-134 | The metaindex value leads to the bytes of the filter block. |
| TableReading.Table.BlockReader | ValentinesDay/Pods/leveldb-library/table/table.cc:188-198 | Without a block cache, an index value leads to an iterator over exactly its block. |
| TableReading.LandsRight | ValentinesDay/Pods/leveldb-library/table/table.cc:216-244 | Searching the index and then the block lands where searching all pairs would. |
| TableReading.PastBlockIsAnotherUser | ValentinesDay/Pods/leveldb-library/table/table.cc:216-244 | If the search runs off the block, the next pair belongs to another user key. |
| TableReading.Table.FilterLetsThrough | ValentinesDay/Pods/leveldb-library/table/table.cc:225-231 | The filter does not rule out a user key of the block. |
| TableReading.Table.InternalGet | ValentinesDay/Pods/leveldb-library/table/table.cc:216-244 | Reports the first pair at or after the key whenever it has the key's user key, and never any other pair. |
| TableReading.TwoLevelIterator.InitDataBlock | ValentinesDay/Pods/leveldb-library/table/two_level_iterator.cc:146-161 | Keeps the data iterator exactly when it is over the right block. |
| TableReading.TwoLevelIterator.SkipEmptyDataBlocksForward | ValentinesDay/Pods/leveldb-library/table/two_level_iterator.cc:115-126 | Ends on the first pair from here on, or invalid. |
| TableReading.TwoLevelIterator.SkipEmptyDataBlocksBackward | ValentinesDay/Pods/leveldb-library/table/two_level_iterator.cc:128-139 | Ends on the last pair up to here, or invalid. |
| TableReading.TwoLevelIterator.Seek | ValentinesDay/Pods/leveldb-library/table/two_level_iterator.cc:82-87 | Stands on the lower bound of the target in the whole row. |
| TableReading.TwoLevelIterator.SeekToFirst | ValentinesDay/Pods/leveldb-library/table/two_level_iterator.cc:89-94 | Stands on the first pair. |
| TableReading.TwoLevelIterator.SeekToLast | ValentinesDay/Pods/leveldb-library/table/two_level_iterator.cc:96-101 | Stands on the last pair. |
| TableReading.TwoLevelIterator.Next | ValentinesDay/Pods/leveldb-library/table/two_level_iterator.cc:103-107 | One forward, across blocks. |
| TableReading.TwoLevelIterator.Prev | ValentinesDay/Pods/leveldb-library/table/two_level_iterator.cc:109-113 | One back, across blocks. |
| TableReading.TwoLevelIterator.PerformAll | ValentinesDay/Pods/leveldb-library/table/two_level_iterator.cc:82-113 | Any run of moves shows the pairs a plain index into the row of all pairs shows. |
| TableReading.ScanAll | ValentinesDay/Pods/leveldb-library/table/table.cc:210-214 | Scanning a table hands back every pair of its blocks, in order. |
| TableFiles.BuildFilter | ValentinesDay/Pods/leveldb-library/table/filter_block.cc:21-49 | The filter block made of what a table builder said has no false negative. |
| TableFiles.OpenTable | ValentinesDay/Pods/leveldb-library/table/table.cc:38-134 | A finished table opens as a valid table, and with a filter exactly if one was written under the policy's name. |
| TableFiles.BuildAndRead | ValentinesDay/Pods/leveldb-library/table/table_builder.cc:94-253 | Pairs added, finished, opened again: a scan hands back every pair in order, and every lookup reports the first pair at or after its key whenever that has its user key, with or without a filter. |
| TableFiles.BuildAndReadInternal | ValentinesDay/Pods/leveldb-library/table/table.cc:216-244 | For internal keys and Bloom filters: every key that was added is found. |
| Bloom.WithBitSets | ValentinesDay/Pods/leveldb-library/util/bloom.cc:49-50 | Setting a bit sets that bit and no other. |
| Bloom.FilledExactly | ValentinesDay/Pods/leveldb-library/util/bloom.cc:40-53 | A bit is set exactly if some key put in probes it. |
| Bloom.CreateFilter | ValentinesDay/Pods/leveldb-library/util/bloom.cc:28-54 | The array the nested loops fill is the filter of the keys. |
| Bloom.MatchesIff | ValentinesDay/Pods/leveldb-library/util/bloom.cc:56-80 | A filter matches exactly the keys all of whose probes were probes of keys put in. |
| Bloom.NoFalseNegatives | ValentinesDay/Pods/leveldb-library/util/bloom.cc:56-80 | No key put in is ruled out, for every hash, bits per key and k from 1 to 30. |
| FilterBlocks.FilterBlockBuilder.StartBlock | ValentinesDay/Pods/leveldb-library/table/filter_block.cc:21-27 | For blocks in file order every key stays in the group of its block's offset. |
| FilterBlocks.FilterBlockBuilder.AddKey | ValentinesDay/Pods/leveldb-library/table/filter_block.cc:29-33 | The key joins the pending group. |
| FilterBlocks.FilterBlockBuilder.GenerateFilter | ValentinesDay/Pods/leveldb-library/table/filter_block.cc:51-75 | The keys cut back out of the flattened buffer become the next filter; a group without keys takes no bytes. |
| FilterBlocks.FilterBlockBuilder.Finish | ValentinesDay/Pods/leveldb-library/table/filter_block.cc:35-49 | Every key is in a finished group, and filters, offsets, their start and the base are written. |
| FilterBlocks.FilterLies | ValentinesDay/Pods/leveldb-library/table/filter_block.cc:90-104 | Each filter lies between its offset and the next. |
| FilterBlocks.NeverRulesOut | ValentinesDay/Pods/leveldb-library/table/filter_block.cc:90-104 | The reader never rules out a key under the offset of the block it was added for. |
| FilterBlocks.ServesTables | ValentinesDay/Pods/leveldb-library/table/filter_block.cc:21-104 | Any run of StartBlock and AddKey gives a filter as table lookups need it. |
| FilterBlocks.BloomPolicyIsSound | ValentinesDay/Pods/leveldb-library/db/dbformat.cc:105-119 | Bloom filters on user keys rule out no key whose user key went in. |
| InternalTables.BloomFiltersServeInternalTables | ValentinesDay/Pods/leveldb-library/db/dbformat.cc:105-119 | Such a filter block never hides an entry from a table lookup of its user key. |
| VersionEdits.BodyRoundTrip | ValentinesDay/Pods/leveldb-library/db/version_edit.cc:107-205 | Every kind of field decodes to itself, whatever follows. |
| VersionEdits.DecodeFields | ValentinesDay/Pods/leveldb-library/db/version_edit.cc:107-205 | Decoding a run of fields applies them one after another. |
| VersionEdits.DecodeFrom | ValentinesDay/Pods/leveldb-library/db/version_edit.cc:107-205 | The loop with its switch accepts and builds what the decoding function says, also on bad input. |
| VersionEdits.EditRoundTrip | ValentinesDay/Pods/leveldb-library/db/version_edit.cc:41-85 | Decoding an encoded edit restores it, in whatever order the set of deleted files was walked. |
| VersionEdits.EncodeTo | ValentinesDay/Pods/leveldb-library/db/version_edit.cc:41-85 | What is appended decodes into a fresh edit as the edit itself. |
| Builders.ListedOnce | ValentinesDay/Pods/leveldb-library/db/version_set.cc:589-604 | Only one sequence lists a set of files in smallest-key order. |
| Builders.Builder.Apply | ValentinesDay/Pods/leveldb-library/db/version_set.cc:650-692 | One edit turns the files of every level into those left after its deletions, plus its additions. |
| Builders.SaveLevel | ValentinesDay/Pods/leveldb-library/db/version_set.cc:695-739 | Merging base and added files gives the files of the level, each once, in order. |
| Builders.Builder.SaveTo | ValentinesDay/Pods/leveldb-library/db/version_set.cc:695-754 | Every level lists exactly the files the edits left. |
| Builders.SaveAll | ValentinesDay/Pods/leveldb-library/db/version_set.cc:886-1011 | Edits fed to one builder leave the files of applying them in turn. |
| Builders.SaveOneByOne | ValentinesDay/Pods/leveldb-library/db/version_set.cc:801-884 | So does one new version for every edit. |
| Builders.BothWays | ValentinesDay/Pods/leveldb-library/db/version_set.cc:650-754 | Both give the same version, level by level and file by file, if no level is given a number twice. |
| Builders.InstallIsSaved | ValentinesDay/Pods/leveldb-library/db/db_impl.cc:860-876 | The version of the compaction theorems is the one the builder saves for the compaction's edit. |
| Manifests.FlushIsSaved | ValentinesDay/Pods/leveldb-library/db/db_impl.cc:519-526 | So is the version of the flush theorems for the flush's edit. |
| Manifests.MoveIsSaved | ValentinesDay/Pods/leveldb-library/db/db_impl.cc:718-725 | So is that of a trivial move. |
| Manifests.StepIsSaved | ValentinesDay/Pods/leveldb-library/db/version_set.cc:801-865 | Every step of the store gives the version that the builder saves for the edit the step logs, level by level in key order; added files are new or come from the level above. |
| Manifests.RunIsReplayed | ValentinesDay/Pods/leveldb-library/db/version_set.cc:801-865 | After any number of steps, the version is what the edits logged so far make of the first one, and they give no level a number twice. |
| Manifests.RunIsLogged | ValentinesDay/Pods/leveldb-library/db/version_set.cc:801-865 | Every run of the store logs such edits. |
| Manifests.AfterSnapshot | ValentinesDay/Pods/leveldb-library/db/version_set.cc:1088-1115 | The edit a manifest begins with restores every file of the version, from nothing. |
| Manifests.Recover | ValentinesDay/Pods/leveldb-library/db/version_set.cc:886-1011 | Whenever its manifest was begun and whatever the store did since, the edits in it, fed to one builder, give back the store's version, file by file and in order. |
| HandleTables.HandleTable.FindPointer | ValentinesDay/Pods/leveldb-library/util/cache.cc:114-120 | The place of the entry in its chain, or the chain's end exactly if there is none. |
| HandleTables.HandleTable.Lookup | ValentinesDay/Pods/leveldb-library/util/cache.cc:74-76 | The entry with this key and hash, or null exactly if there is none. |
| HandleTables.HandleTable.Insert | ValentinesDay/Pods/leveldb-library/util/cache.cc:78-92 | The table holds the new entry in place of one with the same key and hash, which is returned. |
| HandleTables.HandleTable.Remove | ValentinesDay/Pods/leveldb-library/util/cache.cc:94-103 | That entry and no other leaves the table. |
| HandleTables.HandleTable.Resize | ValentinesDay/Pods/leveldb-library/util/cache.cc:122-146 | Rehashing loses, adds and duplicates nothing. |
| LRUCaches.LRUCache.Ref | ValentinesDay/Pods/leveldb-library/util/cache.cc:217-223 | A first client moves the entry off the LRU list. |
| LRUCaches.LRUCache.UnrefClient | ValentinesDay/Pods/leveldb-library/util/cache.cc:225-237 | The last reference runs the deleter, once; a cached entry without clients becomes the newest of the LRU list. |
| LRUCaches.LRUCache.Lookup | ValentinesDay/Pods/leveldb-library/util/cache.cc:252-259 | Hands out a reference to the entry, or null exactly if there is none. |
| LRUCaches.LRUCache.Release | ValentinesDay/Pods/leveldb-library/util/cache.cc:261-264 | Takes one reference back; cached entries stay cached. |
| LRUCaches.LRUCache.FinishErase | ValentinesDay/Pods/leveldb-library/util/cache.cc:307-316 | The entry leaves its list and the usage; its deleter runs now exactly if no client holds it. |
| LRUCaches.LRUCache.Erase | ValentinesDay/Pods/leveldb-library/util/cache.cc:318-321 | Exactly the entry under the key leaves the cache; clients keep it. |
| LRUCaches.LRUCache.Prune | ValentinesDay/Pods/leveldb-library/util/cache.cc:323-333 | Exactly the entries that clients hold stay. |
| LRUCaches.LRUCache.EvictOldest | ValentinesDay/Pods/leveldb-library/util/cache.cc:295-302 | The oldest entry no client holds leaves and is deleted. |
| LRUCaches.LRUCache.Insert | ValentinesDay/Pods/leveldb-library/util/cache.cc:266-305 | The new entry replaces one with its key; then the oldest unreferenced entries go, only while usage exceeds capacity; afterwards usage fits or no unreferenced entry is left. |
| Coding.FixedRoundTrip | ValentinesDay/Pods/leveldb-library/util/coding.cc:9-33 | Fixed-width integers decode to themselves, whatever follows. |
| Coding.EncodeVarint32IsVarint | ValentinesDay/Pods/leveldb-library/util/coding.cc:47-73 | The five branches write the general varint. |
| Coding.EncodeVarint64 | ValentinesDay/Pods/leveldb-library/util/coding.cc:81-90 | So does the loop. |
| Coding.Varint32RoundTrip | ValentinesDay/Pods/leveldb-library/util/coding.cc:112-140 | A 32-bit varint decodes to itself and its length, in at most five bytes. |
| Coding.Varint64RoundTrip | ValentinesDay/Pods/leveldb-library/util/coding.cc:142-169 | A 64-bit varint decodes to itself and its length. |
| Coding.VarintLength | ValentinesDay/Pods/leveldb-library/util/coding.cc:103-110 | The number of bytes the encoder writes. |
| Coding.GetVarint32Loop | ValentinesDay/Pods/leveldb-library/util/coding.cc:112-128 | The shifting loop reads, on any bytes, the first at most five digits, cut to 32 bits. |
| Coding.LengthPrefixedRoundTrip | ValentinesDay/Pods/leveldb-library/util/coding.cc:98-101 | A length-prefixed slice and what follows it are read back. |
| PbEncoding.OStream.Write | ValentinesDay/Pods/nanopb/pb_encode.c:103-128 | Adds the bytes, or on a counting stream their number, exactly if they fit. |
| PbEncoding.OStream.PutVarint | ValentinesDay/Pods/nanopb/pb_encode.c:608-628 | Writes the varint, through a buffer whose last top bit is cleared. |
| PbEncoding.OStream.PutSvarint | ValentinesDay/Pods/nanopb/pb_encode.c:630-639 | Writes the zigzag form. |
| PbEncoding.OStream.PutString | ValentinesDay/Pods/nanopb/pb_encode.c:709-715 | Writes length and bytes. |
| PbEncoding.OStream.PutValue | ValentinesDay/Pods/nanopb/pb_encode.c:769-912 | Each field encoder writes its wire form, and fails exactly on data out of bounds or a full stream. |
| PbEncoding.OStream.PutPacked | ValentinesDay/Pods/nanopb/pb_encode.c:159-204 | The size written before packed items is the number of bytes they take. |
| PbEncoding.OStream.PutUnpacked | ValentinesDay/Pods/nanopb/pb_encode.c:205-236 | Items each under the field's tag. |
| PbEncoding.OStream.PutField | ValentinesDay/Pods/nanopb/pb_encode.c:341-426 | A required, optional or repeated field writes its wire form; a missing optional and an empty array write nothing. |
| PbEncoding.OStream.PutSubmessage | ValentinesDay/Pods/nanopb/pb_encode.c:717-765 | The counting pass counts exactly the bytes the writing pass emits, at every depth, so the bounded substream neither overflows nor stays short. |
| PbEncoding.OStream.Encode | ValentinesDay/Pods/nanopb/pb_encode.c:528-550 | Succeeds exactly if the data is in bounds and the message fits or only sizes are counted, and then adds exactly the message's bytes, or their number. |
| PbEncoding.GetEncodedSize | ValentinesDay/Pods/nanopb/pb_encode.c:567-576 | The size reported is the length of the encoding. |
| PbMessages.ZigZagRoundTrip | ValentinesDay/Pods/nanopb/pb_encode.c:630-639 | The zigzag form determines the number. |
| PbStreams.FieldIter.Next | ValentinesDay/Pods/nanopb/pb_common.c:20-76 | Goes round the descriptor, with the count of required fields passed kept right. |
| PbStreams.FieldIter.Find | ValentinesDay/Pods/nanopb/pb_common.c:78-97 | Going round once from anywhere finds the field with the tag, or comes back exactly if there is none; a message type without fields answers to tag zero. |
| PbStreams.FieldIter.CountRequired | ValentinesDay/Pods/nanopb/pb_decode.c:1033-1052 | Walking to the end, with the last field put right, counts all required fields. |
| PbStreams.IStream.DecodeVarint32 | ValentinesDay/Pods/nanopb/pb_decode.c:187-252 | The loop reads what the function says, with its checks on bits that do not fit and its 8-bit bit position that wraps, on any bytes. |
| PbStreams.IStream.DecodeVarint | ValentinesDay/Pods/nanopb/pb_decode.c:255-275 | At most ten bytes, kept to 64 bits, on any bytes. |
| PbStreams.IStream.SkipField | ValentinesDay/Pods/nanopb/pb_decode.c:278-334 | Skips one value of the wire type, or fails. |
| PbStreams.IStream.MakeSubstream | ValentinesDay/Pods/nanopb/pb_decode.c:372-403 | A length within the parent bounds the substream; the parent goes on after it. |
| PbStreams.IStream.DecodeStaticField | ValentinesDay/Pods/nanopb/pb_decode.c:406-483 | Fills the slot of a required, optional or repeated field, packed or not, within the array size. |
| PbStreams.IStream.DecodeSubmessage | ValentinesDay/Pods/nanopb/pb_decode.c:1506-1528 | Merges a bounded substream into what the field holds. |
| PbStreams.IStream.DecodeMessage | ValentinesDay/Pods/nanopb/pb_decode.c:928-1076 | On any bytes the loop fills the message, skips unknown fields, stops at a zero tag, and fails if one of the first 64 required fields is missing. |
| PbStreams.PbDecode | ValentinesDay/Pods/nanopb/pb_decode.c:1078-1090 | Decodes over the descriptor's defaults. |
| PbRoundTrips.Read32RoundTrip | ValentinesDay/Pods/nanopb/pb_decode.c:187-252 | The 32-bit decoder reads back every 32-bit varint and leaves what follows. |
| PbRoundTrips.Read64RoundTrip | ValentinesDay/Pods/nanopb/pb_decode.c:255-275 | The 64-bit decoder likewise. |
| PbRoundTrips.SubstreamRoundTrip | ValentinesDay/Pods/nanopb/pb_decode.c:372-403 | A length-prefixed string becomes a substream of exactly its bytes. |
| PbRoundTrips.ScalarRoundTrip | ValentinesDay/Pods/nanopb/pb_decode.c:1321-1552 | Every value a scalar, string or bytes field can hold is decoded to itself, negative numbers, narrow widths and byte strings of any size the 32-bit field width allows included. |
| PbRoundTrips.PackedRoundTrip | ValentinesDay/Pods/nanopb/pb_decode.c:426-455 | A packed array is read back item by item until its substream is used up. |
| PbRoundTrips.UnpackedRoundTrip | ValentinesDay/Pods/nanopb/pb_decode.c:456-467 | An array under repeated tags is read back in order. |
| PbRoundTrips.SlotRoundTrip | ValentinesDay/Pods/nanopb/pb_decode.c:406-483 | Whatever a field encodes to turns its default into it, and sets its seen bit if required. |
| PbRoundTrips.MessageRoundTrip | ValentinesDay/Pods/nanopb/pb_decode.c:928-1076 | For distinct non-zero tags at every depth and every message the descriptor holds, decoding the encoding restores the message. |
| PbTransfers.HeldMessage | ValentinesDay/Pods/nanopb/pb_encode.c:528-550 | A message its descriptor holds is one the encoder accepts. |
| PbTransfers.Transfer | ValentinesDay/Pods/nanopb/pb_decode.c:1078-1090 | Encoding into a buffer and decoding from it restores the message if it fits, and fails otherwise. |
| PbTransfers.SkipsValue | ValentinesDay/Pods/nanopb/pb_decode.c:321-334 | Skipping by wire type passes over exactly one encoded value. |
| PbTransfers.UnknownSlot | ValentinesDay/Pods/nanopb/pb_decode.c:985-989 | An encoded field with an unknown tag leaves the message as it is. |
| PbTransfers.OlderReader | ValentinesDay/Pods/nanopb/pb_decode.c:928-1076 | A reader that knows only the first fields of the descriptor decodes those and skips the rest. |

## Left out

- Install.CompactionReads: pick, merge and install form one step, so a memtable flush between picking and installing is not interleaved with them.
- Compactions.DoCompactionWork: reads the merged entries from one sequence; the wiring of file iterators into it (MakeInputIterator, LevelFileNumIterator) is not part of this model, nor are corrupt keys and shutdown in mid-compaction.
- Selection.PickCompaction: which level is due (scores, seek sampling, compaction pointers kept between runs) is a parameter.
- Versions.Get: seek statistics and table read errors are not modelled; a table is its entries.
- Merging.MergingIterator.Next: children are cursors over entry sequences that share no entry and never fail; NewMergingIterator's special cases for zero and one child are not modelled.
- DBIteration.DBIter.Next: read sampling, shrinking of the saved-value buffer and unparsable keys are not modelled.
- GroupCommit.StepKeepsInv: MakeRoomForWrite only succeeds or fails; switching the memtable and the log file is left to the store model. Batches are lists of operations, so InsertInto cannot fail on a malformed one.
- SkipLists.ReadersFindEarlierKeys: each pointer store is one step; the memory order of relaxed stores is not modelled.
- LogReading.Reader.ReadRecord: initial_offset is zero, and reuse of a log with a cut tail is not modelled; file read errors are not modelled.
- BlockReading.Iter.Seek: the iterator is over a block that was built; on corrupt blocks only the checks of the entry header are modelled, without the 32-bit wrap of the sum of its two lengths.
- TableBuilding.TableBuilder.Finish: no compression; the filter block is handed in by the caller, made of what the builder has told the filter.
- TableReading.Open: table errors are None, without their messages; a bad metaindex or filter block, which the code passes over, is not modelled.
- TableFiles.BuildFilter: a filter block that would not fit its 32-bit offsets is left out, where the code would write wrong offsets.
- TableReading.Table.BlockReader: the block cache in front of the file is not modelled.
- LRUCaches.LRUCache.Insert: one shard; lists are sequences rather than linked pointers; the sharding by hash bits is not modelled.
- HandleTables.HandleTable.Resize: chains are sequences rather than linked pointers.
- HandleTables.HandleTable.FindPointer: a place in a chain is an index, where the code returns the address of the link to patch.
- MemTables.MemTable.Add: the arena is a map from keys to buffers; memory use and reference counts are not modelled.
- VersionEdits.DecodeFrom: error messages are not modelled, only success or failure.
- Builders.SaveAll: the check of compaction pointers and the seek allowance given to each file are not modelled.
- Manifests.Recover: the records are edits; their bytes (VersionEdits) and the log that carries them (LogReading) are proved apart, and log numbers, sequence numbers and the CURRENT file are not modelled.
- PbEncoding.OStream.Encode: callback, pointer, extension, oneof and fixed-count fields, and proto3 fields without a has-flag, are not modelled.
- PbEncoding.OStream.Write: a counting stream counts without bound, where the code wraps at the width of size_t; for a writing stream the bound on its size already covers the check for wrap-around.
- PbStreams.IStream.DecodeMessage: the same kinds of field; what the storage of an absent optional field holds, and what a failed decode leaves in the message, are not stated.
- Repair, dumping, the C interface, statistics, property queries, file naming and locking, environments and real files are not part of this model.
- CRC-32C itself (section 12.1 of RFC 3720) is an arbitrary function; only its masking is modelled.
- The application's Swift code and the SwiftMessages library are views and queues of presentation calls.
