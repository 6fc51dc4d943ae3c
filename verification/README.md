# A model of the LevelDB storage engine and of nanopb

The repository's application is a thin layer over vendored libraries.  This project models the two that hold
logic of their own: the LevelDB key-value store (`ios/Pods/leveldb-library`) and the nanopb protocol buffer
codec (`ios/Pods/nanopb`).  `dafny verify dfyconfig.toml` checks everything.

## What is modelled

**The database.**  A database is a memtable, perhaps an immutable memtable, seven levels of tables, a last
sequence number and the live snapshots.  A table is a sorted sequence of entries (user key, sequence number,
type, value).  The *view* of a set of entries at a snapshot is, for each user key, the value of its newest entry
up to the snapshot, or nothing if that is a deletion.

- `Keys`, `Files` (version_set.cc file searches), `Lsm` (the state and its invariant).
- `CompactionInputs`, `CompactionRules`, `CompactionDrops`, `Steps`, `DoCompaction`: how inputs are chosen, what the drop
  rules mean and that they drop all they can, and the compaction loop.  `Resurrection` is a run in which dropping is wrong.  `MidFlush`: a flush in the middle of a
  compaction, and `GapFlush`: a case in which that goes wrong.
- `Runs`: every serialised step, runs of steps, and the theorems that readers care about.
- `Lookup`, `DbImpl`, `VersionBuilder`: point lookups, the operations as methods of a class, version installs.
- `WriteQueue`, `GroupCommit`, `Recovery`: the write queue at the grain of one log append, one sync and one memtable
  insertion, with logs and manifest; and opening after a stop at any point.
- `Durability`: how much of each log has been synced, and what the reopened database reads after a stop that cuts the
  logs behind that; `LogBytes` lets the stop fall within the bytes of a record, and `Sessions` chains any number of
  runs and stops.  `NullBatch` and `Traces`: what becomes of a null batch, and runs that show what is not promised.
- `ObsoleteFiles`, `Collection`: version references, pending outputs and the removal of tables and logs; `Storage`: these and
  the write queue as one system with one counter of file numbers.

**The iterators.**  `Cursors` is a cursor over a sequence.  `DbIter`, `Merger`, `TwoLevel` and `Block.Iter` are classes
with the fields of the originals; every move is specified as the move of a cursor over the sequence, or the map,
that the iterator stands for, so runs of moves with direction switches compose.  `DbIterators` stacks them over the
memtables and tables of a database.  `SkipList` is a state machine of single loads and stores by one inserter and any
number of readers.

**The formats.**  `Coding`, `LogFormat`, `LogWriter`, `LogReader`, `LogRoundTrip`, `LogFragments` (any file), `WriteBatch`, `VersionEdit`,
`BlockBuilder`, `Block`, `Separators`, `Bloom`, `FilterBlock`, `Table` (index, filter and rows), `BlockRows` (rows as the
bytes of blocks), `TableFormat` (block trailers and footers), `TableFile` (reading a table from the bytes of its file) and
`TableBuilder` (writing them).  `WireFormats` spells single records out in bytes.

**Fast forms.**  `Crc32c` with its tables in `Crc32cTables` (the polynomial of section 12.1 of RFC 3720) and known answers
in `Crc32cAnswers`, `HandleTable`, `Cache`, and `CacheRuns` (what a cache holds and evicts over any run).

**nanopb.**  `Nanopb` (descriptors, messages and their bytes), `PbEncode` (the stream with its sizing pass), `PbIStream`
(the decoding stream), `PbDecode` (what bytes determine), `PbRoundTrip`, `PbRecords` and `PbRecordLaws` (records in any
order and number, unknown ones included), and `PbSafety` and `PbVarints` (any bytes).  The wire format is that of the "Base
128 Varints" and "Signed Integers" sections of the Protocol Buffers Encoding specification.

## Assumptions, stated as preconditions

- Internal keys are unique and parse; levels above 0 are sorted and disjoint by internal key.  A user key may
  straddle two adjacent files.
- Sequence numbers and file offsets do not run out of their words.
- The iterators' inputs have distinct keys; the two-level iterator's index is sound, which `Table` proves of tables.

## Where the code and its documentation disagree

- **Deleted keys can come back.**  The comment in `DoCompactionWork` says that data older than an obsolete deletion
  marker is either deeper, and then there is none, or among the inputs.  `SetupOtherInputs` runs the boundary search
  for `inputs_[0]` only (version_set.cc:1407, 1422), so level+1 may keep a file with an older entry of the last user
  key of `inputs_[1]`.  `DeletedKeyComesBack` is a run from an empty database in which dropping the marker makes the
  deleted value readable.  `CompactionPreservesReadsIff` gives the exact condition for one compaction, `RunIsFaithfulIff`
  for a run, and `EndsCleanIsSafe` a check that suffices.  Theorems about what runs read have the condition as a
  hypothesis, `Harmless`; those about the invariant, the logs and the queue do not.
- **A manual compaction can lose a flushed key.**  `DoCompactionWork` flushes the immutable memtable between two input
  entries (db_impl.cc:908-917), at a level picked on the version of that moment, which knows nothing of the output to come.
  The inputs of `CompactRange` may have a gap between them; a table flushed into it ends up inside the range of an output
  in the same level, against the assertion in `MaybeAddFile` (version_set.cc:746-750), which a release build does not make.
  `FlushedKeyIsLost` is such a case, `FlushIsSafeIff` the exact condition, and by `PickedInputsAreSolid` compactions that the
  engine picks itself never meet it.
- **`VersionEdit::Clear` keeps the compaction pointers**, so decoding into a used edit accumulates them;
  `EncodedEditDecodes` says exactly when the round trip is exact.
- **A string that fills its array without a terminator** is accepted by the nanopb encoder and rejected by the
  decoder; `MessageRoundTripsIff` says that this is the only way in which a message fails to come back.
- **A tag of 0 in a message without fields**: the field search finds the terminator of the descriptor (pb.h:397), and the
  decoder reads a bool where it would skip an unknown field: `ZeroTagWithoutFields`.
- **A null batch further back in the queue** is absorbed by a group and acknowledged without the memtable switch
  that a null batch at the front forces (db_impl.cc:1204, 1281-1303): `AbsorbedNullBatch` is such a run, and
  `NullBatchSwitchesIff` says which null batches get their switch.
- **A sync write does not make everything before it durable.**  `MakeRoomForWrite` closes the old log without a sync
  (db_impl.cc:1345-1366), so a stop can keep a synced batch of the new log and lose an unsynced one of the old log that was
  acknowledged before it: `LaterOutlivesEarlier` is such a run, `GapIff` the exact condition, and `AfterStop` says what
  is read then.
- **A 32-bit varint may carry more than sign bits above bit 32.**  The comment in `pb_decode_varint32_eof` allows trailing
  bytes of 0x80, or of 0xFF for a negative number (pb_decode.c:223); the check looks at each byte on its own, and not at
  bits 32 to 34 when more bytes follow, so numbers that are no extended 32-bit number are read as one.  `Varint32OfAny` is the
  exact condition.

## Model

| member | source | states |
|---|---|---|
| Keys.RankEmbedsOrder | ios/Pods/leveldb-library/util/comparator.cc:25-27 | user keys can be kept as numbers: the ranks of two byte strings compare exactly as the bytewise comparator compares the strings, and equal ranks mean equal strings |
| Keys.LowerBound | ios/Pods/leveldb-library/table/block.cc:163-201 | the position that every Seek stands for: all entries before it are before the target, and the entry there is not |
| Files.FindFile | ios/Pods/leveldb-library/db/version_set.cc:88-106 | the binary search over a sorted level returns the one index that separates the files ending before the key from those that do not |
| Files.SomeFileOverlapsRange | ios/Pods/leveldb-library/db/version_set.cc:122-160 | for both the linear and the binary-search form: true if and only if some file meets the user-key range, open ends included |
| Files.GetOverlappingInputs | ios/Pods/leveldb-library/db/version_set.cc:519-559 | above level 0 exactly the files that meet [begin, end]; at level 0 the least set closed under transitive user-key overlap; the restarts terminate |
| Files.WidenedRange | ios/Pods/leveldb-library/db/version_set.cc:535-556 | growing the range by a file that meets it brings in only files that every closed set already has |
| Files.OutsideShrinks | ios/Pods/leveldb-library/db/version_set.cc:545-555 | each restart uses up a file that stuck out of the range, which is why the restarts end |
| CompactionInputs.GetRange | ios/Pods/leveldb-library/db/version_set.cc:1205-1225 | the least and the greatest internal key of a list of files, and its user-key hull |
| CompactionInputs.FindSmallestBoundaryFile | ios/Pods/leveldb-library/db/version_set.cc:1344-1364 | of the files that start after a key with its user key, the one that starts first, or none if there is none |
| CompactionInputs.AddBoundaryInputs | ios/Pods/leveldb-library/db/version_set.cc:1378-1401 | appends the whole chain of boundary files and nothing else; the search ends because the largest key rises |
| CompactionInputs.BoundaryExtendsRun | ios/Pods/leveldb-library/db/version_set.cc:1378-1401 | on a sorted level the chain extends a contiguous run to the right, exactly as far as its last user key reaches |
| CompactionInputs.ClosedHasNoBoundary | ios/Pods/leveldb-library/db/version_set.cc:1378-1401 | on an overlap-closed part of level 0 the boundary search adds nothing |
| CompactionInputs.BoundaryInputsLeaveNoOlder | ios/Pods/leveldb-library/db/version_set.cc:1403-1425 | after the boundary search no file of the level outside inputs_[0] holds an older entry of a user key in inputs_[0] |
| CompactionInputs.RunLeavesNoOlder | ios/Pods/leveldb-library/db/version_set.cc:1366-1401 | why: a run that ends where the user key changes leaves only newer entries of its keys behind |
| CompactionInputs.Compaction.SetupOtherInputs | ios/Pods/leveldb-library/db/version_set.cc:1403-1462 | inputs_[0] leaves no older entry of its keys behind in its level; inputs_[1] is exactly the files of level+1 that meet the user-key hull of inputs_[0]; inputs_[0] is widened if and only if that adds files to it, none to inputs_[1], and stays below the limit; the grandparents are the files of level+2 that meet the hull of both; the compact pointer is the largest input key |
| CompactionInputs.Compaction.Widen | ios/Pods/leveldb-library/db/version_set.cc:1418-1445 | the widening step on its own, with the same if-and-only-if |
| CompactionInputs.DecidesToWiden | ios/Pods/leveldb-library/db/version_set.cc:1421-1444 | the three tests of the code decide the widening as stated, whichever files of level+1 the wider inputs meet |
| CompactionInputs.GrandparentsDecide | ios/Pods/leveldb-library/db/version_set.cc:1515-1523 | IsTrivialMove, which looks at the grandparents, holds exactly of a single input that meets no file of level+1 and whose range meets at most the given bytes of level+2 |
| CompactionInputs.TotalIsSum | ios/Pods/leveldb-library/db/version_set.cc:60-66 | TotalFileSize is the sum of the sizes: additive over lists, and the size of the file on a list of one |
| CompactionInputs.PickCompaction | ios/Pods/leveldb-library/db/version_set.cc:1270-1325 | starts from the first file that ends after the compact pointer, wrapping around, or from the file out of seeks; above level 0 from that file alone, at level 0 from the least overlap-closed set around it |
| CompactionInputs.CompactRange | ios/Pods/leveldb-library/db/version_set.cc:1464-1495 | above level 0 the files meeting the requested range, cut to the shortest prefix whose size reaches the limit; at level 0 the least overlap-closed set that holds them |
| CompactionInputs.LimitTotal | ios/Pods/leveldb-library/db/version_set.cc:1476-1487 | the cut: the prefix reaches the limit and no shorter one does, or it is everything |
| CompactionInputs.Compaction.IsBaseLevelForKey | ios/Pods/leveldb-library/db/version_set.cc:1533-1552 | called with ascending keys, the moving level_ptrs_ answer the stateless question whether any file of any deeper level covers the key |
| CompactionInputs.Compaction.ShouldStopBefore | ios/Pods/leveldb-library/db/version_set.cc:1554-1576 | passes exactly the grandparent files that end before the key, counts the bytes passed since the output began (none before the first key), and stops if and only if these exceed the limit, starting the count anew |
| CompactionRules.DropIsInvisibleIff | ios/Pods/leveldb-library/db/db_impl.cc:940-985 | for every input, level and snapshot floor: dropping entries is invisible to every read at every snapshot from the floor on if and only if no deletion marker is dropped over an older live value in the part of level+1 that is not an input |
| CompactionRules.ReadPreserved | ios/Pods/leveldb-library/db/db_impl.cc:940-985 | one read is unchanged when no marker is dropped over a live value |
| CompactionRules.ReadResurrected | ios/Pods/leveldb-library/db/db_impl.cc:963-977 | the other direction: a marker dropped over a live value makes a deleted key readable at the floor |
| Steps.CompactionPreservesReadsIff | ios/Pods/leveldb-library/db/db_impl.cc:860-1046 | over the whole database (memtables, all levels): the reads after a compaction agree with those before it, for all keys and all snapshots from the floor on, if and only if the drop was safe |
| Steps.EndsCleanIsSafe | ios/Pods/leveldb-library/db/version_set.cc:1403-1425 | a check before the compaction that suffices: no file of level+1 continues the last user key of inputs_[1] |
| Steps.OlderLeftIsBoundary | ios/Pods/leveldb-library/db/version_set.cc:1403-1425 | a file left behind in level+1 with an older entry of an input key is a boundary file of inputs_[1] |
| Steps.ReplacementKeepsInv | ios/Pods/leveldb-library/db/db_impl.cc:860-876 | replacing inputs by outputs keeps levels sorted and disjoint, numbers unique, and deeper versions older |
| Resurrection.DeletedKeyComesBack | ios/Pods/leveldb-library/db/version_set.cc:1403-1425 | for all values and all table sizes within the overlap limit: a run of thirteen steps from an empty database, with every flush at the level that is picked and every input as SetupOtherInputs chooses it, in whose last compaction a deleted key becomes readable again with its old value; that compaction is the only one of the run that is not harmless |
| Resurrection.CutIsMade | ios/Pods/leveldb-library/table/table_builder.cc:118-122 | the first compaction of that run can cut its output where it does: whatever the block size, if a file may be no larger than a block, there is a value of key 1 that leaves the block just short of its limit, so that the deletion marker of key 2 fills it, the block is written, the file has its size, and the output is cut behind the marker (db_impl.cc:989-990) |
| MidFlush.PickedInputsAreSolid | ios/Pods/leveldb-library/db/version_set.cc:1270-1325 | inputs that PickCompaction starts and SetupOtherInputs completes, widened or not, leave no gap: every user key of their hull lies within an input |
| MidFlush.CompactionSpans | ios/Pods/leveldb-library/db/db_impl.cc:908-917 | a compaction that runs over any number of writes, memtable switches, flushes and snapshots, none of them a flush into a gap of its inputs: what it chose and what it keeps is what it would choose and keep now |
| MidFlush.PickedCompactionSpans | ios/Pods/leveldb-library/db/db_impl.cc:908-917 | for inputs without gaps no flush is in the way, so a compaction that PickCompaction started always is up to date when it ends |
| MidFlush.InstallIsStep | ios/Pods/leveldb-library/db/db_impl.cc:860-876 | and installing a compaction that is up to date is one compaction step after all of them: a flush in its middle can be put before it |
| MidFlush.FlushIsSafeIff | ios/Pods/leveldb-library/db/db_impl.cc:908-917 | after a flush in the middle of a compaction the levels stay valid whatever the compaction makes of its inputs, if and only if the flush did not put its table into level+1 within the hull of inputs_[0] |
| GapFlush.FlushedKeyIsLost | ios/Pods/leveldb-library/db/version_set.cc:1464-1495 | the case that fails: CompactRange over two files with a gap between them, a flush that goes into the gap at the level that is picked, and the compaction installed around it; the flushed key is stored, and the search in level+1 settles on the wrong table and does not find it |
| DoCompaction.DoCompactionWork | ios/Pods/leveldb-library/db/db_impl.cc:878-1046 | the loop with its last-sequence bookkeeping writes exactly the surviving entries, in order, into tables that form a sorted disjoint level with consecutive numbers, and no table has more than the allowed bytes of grandparents end within its range |
| DoCompaction.StopBefore | ios/Pods/leveldb-library/db/db_impl.cc:920-926 | the output at hand is closed before an entry if the grandparents passed since it began are too large; nothing is lost, and the finished outputs stay within the bound |
| DoCompaction.ShouldDrop | ios/Pods/leveldb-library/db/db_impl.cc:940-985 | the bookkeeping of one entry drops it exactly when the drop rules, stated without it, do |
| DoCompaction.FinishOutput | ios/Pods/leveldb-library/db/db_impl.cc:811-858 | an output table holds exactly the entries built since the last one and carries their first and last key |
| DoCompaction.MergedInputIsSorted | ios/Pods/leveldb-library/db/version_set.cc:1237-1268 | merging distinct sorted files gives a sorted run of exactly their entries |
| DoCompaction.PickLevelForMemTableOutput | ios/Pods/leveldb-library/db/version_set.cc:491-516 | level 0 if level 0 is met; otherwise the deepest level up to 2 that can be reached without meeting a file or overlapping too much two levels down |
| DoCompaction.PickedLevelIsClear | ios/Pods/leveldb-library/db/version_set.cc:491-516 | a flush to the picked level has nothing beside or above it that shares a key |
| DoCompaction.PickedLevelIsDeepest | ios/Pods/leveldb-library/db/version_set.cc:491-516 | no deeper level up to 2 would do: whatever level is reached through levels that the range does not meet, each with little overlap one level further down, is no deeper than the one picked |
| Runs.NextKeepsInv | ios/Pods/leveldb-library/db/db_impl.cc:535-566 | every serialised step (write, memtable switch, flush, trivial move, compaction, taking and releasing a snapshot) keeps: levels valid, deeper versions of a key strictly older, keys unique, sequence numbers and file numbers below their counters |
| Runs.WriteKeepsInv | ios/Pods/leveldb-library/db/write_batch.cc:132-137 | a batch inserted at the next sequence numbers keeps the invariant |
| Runs.FlushKeepsInv | ios/Pods/leveldb-library/db/db_impl.cc:491-533 | a flush to a clear level keeps the invariant and moves the entries unchanged |
| Runs.MoveKeepsInv | ios/Pods/leveldb-library/db/db_impl.cc:707-723 | a trivial move keeps the invariant and the contents |
| Runs.CompactionKeepsInv | ios/Pods/leveldb-library/db/db_impl.cc:878-1046 | a compaction keeps the invariant |
| Runs.WriteIsInvisible | ios/Pods/leveldb-library/db/db_impl.cc:1212-1229 | a batch changes no read at an older sequence number |
| Runs.NthOpIsSeen | ios/Pods/leveldb-library/db/db_impl.cc:1212-1229 | at the n-th new sequence number every key reads as the first n operations of the batch say |
| Runs.StepIsFaithfulIff | ios/Pods/leveldb-library/db/db_impl.cc:878-1046 | a step keeps the reads that it has to keep (every read, and for a compaction those from its smallest snapshot on) and changes the latest reads only as its own operations say, if and only if it is harmless: it drops no deletion marker over an older live value; only a compaction can fail to be |
| Runs.RunIsFaithfulIff | ios/Pods/leveldb-library/db/db_impl.cc:878-1046 | over runs of any steps: all steps keep what they have to keep if and only if all are harmless |
| Runs.NextReads | ios/Pods/leveldb-library/db/db_impl.cc:878-1046 | a harmless step (Harmless, which only a compaction can fail) changes no read at a live snapshot; at the last sequence number only writes change reads, and as their operations say |
| Runs.RunKeepsInv | ios/Pods/leveldb-library/db/db_impl.cc:535-566 | the invariant holds in every state of every run |
| Runs.SnapshotIsStable | ios/Pods/leveldb-library/db/db_impl.cc:1166-1174 | over any run whose compactions are harmless, a read at a snapshot never changes while the snapshot is held |
| Runs.DatabaseIsMap | ios/Pods/leveldb-library/db/db_impl.cc:1100-1145 | after any run whose compactions are harmless, the newest reads are those of a map to which all written operations were applied in order |
| Lookup.SeekFindsNewest | ios/Pods/leveldb-library/db/memtable.cc:100-134 | seeking (key, snapshot) in one sorted run finds the newest version visible at the snapshot, or shows that there is none |
| Lookup.LevelGet | ios/Pods/leveldb-library/db/version_set.cc:365-382 | in a sorted level one file decides, even when a user key straddles two files |
| Lookup.Level0Get | ios/Pods/leveldb-library/db/version_set.cc:349-364 | in level 0 the first hit among the covering files, newest file first, is the newest version |
| Lookup.SortNewestFirstIsSorted | ios/Pods/leveldb-library/db/version_set.cc:278-280 | sorting by number keeps the files and puts newer ones first |
| Lookup.VersionGet | ios/Pods/leveldb-library/db/version_set.cc:326-421 | the first hit from level 0 down is the newest version stored in any table that the reader may see |
| Lookup.LookupIsView | ios/Pods/leveldb-library/db/version_set.cc:263-276 | the value handed to the caller is that of the newest visible version, and none if that is a deletion |
| DbImpl.DBImpl.Get | ios/Pods/leveldb-library/db/db_impl.cc:1100-1145 | memtable, immutable memtable, then tables: the answer is the view of the whole database at the snapshot or at the last sequence number |
| DbImpl.LogAndApply | ios/Pods/leveldb-library/db/version_set.cc:801-884 | the new version has, level by level, the files the edit leaves and adds, in file order |
| DbImpl.DBImpl.Write | ios/Pods/leveldb-library/db/db_impl.cc:1185-1256 | a batch at the next sequence numbers is one write step |
| DbImpl.DBImpl.SwitchToNewMemTable | ios/Pods/leveldb-library/db/db_impl.cc:1345-1366 | the full memtable becomes the immutable one, and an empty one takes its place |
| DbImpl.DBImpl.CompactMemTable | ios/Pods/leveldb-library/db/db_impl.cc:491-566 | the immutable memtable goes to the picked level in one flush step |
| DbImpl.DBImpl.GetSnapshot | ios/Pods/leveldb-library/db/db_impl.cc:1166-1169 | a snapshot is the last sequence number and joins the live ones |
| DbImpl.DBImpl.ReleaseSnapshotAt | ios/Pods/leveldb-library/db/db_impl.cc:1171-1174 | one snapshot leaves the list, the order of the others stays |
| DbImpl.DBImpl.BackgroundCompaction | ios/Pods/leveldb-library/db/db_impl.cc:688-767 | from the inputs that SetupOtherInputs makes of the starting ones, one step of the runs: the input moves down unchanged if and only if the compaction is not manual and the input is a single file that meets none of level+1 and not too much of level+2; otherwise the inputs are compacted, the outputs are the inputs without what a live snapshot, told without the floor, cannot need, and none of them overlaps too much of level+2; the step is harmless if level+1 ends clean after inputs_[1] |
| DbImpl.DBImpl.CompactAndInstall | ios/Pods/leveldb-library/db/db_impl.cc:860-1046 | running the compaction loop and installing its outputs is one compaction step of the runs, harmless if level+1 ends clean after inputs_[1]; the outputs hold exactly the inputs that are not superseded for every reader and are no spent deletion markers |
| DbImpl.CleanCompactionStep | ios/Pods/leveldb-library/db/db_impl.cc:860-1046 | why: the check on level+1 can be made before the compaction |
| DbImpl.CompactionKeepsNoMore | ios/Pods/leveldb-library/db/db_impl.cc:940-985 | of two versions of a key in the outputs the newer is too new for some live snapshot; without live snapshots the outputs hold one entry of a key, and a deletion marker only if a file below level+1 covers its key |
| DbImpl.OldestIsFloor | ios/Pods/leveldb-library/db/db_impl.cc:890-894 | smallest_snapshot is the greatest number at or below the last sequence number and every live snapshot |
| CompactionDrops.SurvivorsAreLean | ios/Pods/leveldb-library/db/db_impl.cc:940-985 | with that floor the drop rules leave out every entry that a newer one hides from all readers, every deletion marker that all readers see and no deeper file covers, and nothing else |
| CompactionDrops.OneVersionWithoutSnapshots | ios/Pods/leveldb-library/db/db_impl.cc:940-985 | of outputs that are lean in this sense, without live snapshots: the entry of a key is its newest, alone, and no deletion marker that nothing needs |
| VersionBuilder.ReplayIsOneByOne | ios/Pods/leveldb-library/db/version_set.cc:650-754 | feeding a whole list of edits through one builder gives the files that installing them one at a time gives, if no number is added twice to a level |
| VersionBuilder.ReplayedListIs | ios/Pods/leveldb-library/db/version_set.cc:695-739 | the same for the sorted lists that SaveTo makes of each level |
| VersionBuilder.ReplayAgreesIff | ios/Pods/leveldb-library/db/version_set.cc:650-739 | the builder agrees with installing one by one after every edit if and only if no edit adds another file under the number of a deleted one |
| VersionBuilder.ReplayDiffersWhenAddedTwice | ios/Pods/leveldb-library/db/version_set.cc:676-689 | the input on which they differ: a file is deleted and another one added under its number |
| VersionBuilder.Builder.Apply | ios/Pods/leveldb-library/db/version_set.cc:650-693 | an edit merges into the pending deletions and additions, an addition cancelling an earlier deletion of its number |
| VersionBuilder.Builder.SaveLevel | ios/Pods/leveldb-library/db/version_set.cc:695-739 | the merge of base and added files is in file order and is exactly the files that survive |
| DbIter.ShownIsView | ios/Pods/leveldb-library/db/db_iter.cc:122-299 | the entries that the iterator shows are, key by key, the map of newest visible values without deletions, in ascending order |
| DbIterators.LevelIsTwoLevel | ios/Pods/leveldb-library/db/version_set.cc:223-228 | the concatenating iterator of a level has a sound index |
| DbIterators.RunsAreGood | ios/Pods/leveldb-library/db/version_set.cc:230-246 | the children of the internal iterator, that is the memtables, every file of level 0 and one run for each deeper level, are sorted, share no key and hold together exactly what the database holds |
| DbIterators.NewInternalIterator | ios/Pods/leveldb-library/db/db_impl.cc:1062-1087 | a merging iterator over the memtables and the tables of the database |
| DbIterators.AddIterators | ios/Pods/leveldb-library/db/version_set.cc:230-246 | one child for each file of level 0 and for each deeper level that has files |
| DbIterators.MergerIsCursor | ios/Pods/leveldb-library/table/merger.cc:31-108 | every move of the merging iterator ends where the same move of a cursor over the merge of its children ends, so DBIter may run over it |
| DbIterators.IteratorShowsView | ios/Pods/leveldb-library/db/db_impl.cc:1147-1157 | an iterator of the database at a snapshot: the merge holds what memtables and tables hold, and what DBIter shows of it is, key by key and ascending, what reads at that snapshot give |
| DbIter.DBIter.Seek | ios/Pods/leveldb-library/db/db_iter.cc:269-281 | lands on the first shown key at or after the target |
| DbIter.DBIter.SeekToFirst | ios/Pods/leveldb-library/db/db_iter.cc:283-292 | lands on the first shown key |
| DbIter.DBIter.SeekToLast | ios/Pods/leveldb-library/db/db_iter.cc:294-299 | lands on the last shown key |
| DbIter.DBIter.Next | ios/Pods/leveldb-library/db/db_iter.cc:141-166 | moves to the next shown key, from either direction |
| DbIter.DBIter.Prev | ios/Pods/leveldb-library/db/db_iter.cc:200-225 | moves to the previous shown key, from either direction |
| DbIter.DBIter.FindNextUserEntry | ios/Pods/leveldb-library/db/db_iter.cc:168-198 | skips hidden, deleted and future entries and nothing else |
| DbIter.DBIter.FindPrevUserEntry | ios/Pods/leveldb-library/db/db_iter.cc:227-267 | walks back to the newest visible version of the previous undeleted key |
| DbIter.DBIter.KeyValue | ios/Pods/leveldb-library/db/db_iter.cc:64-71 | key and value are those of the position, whether they come from the saved copy or from the inner iterator |
| Merger.MergingIterator.Seek | ios/Pods/leveldb-library/table/merger.cc:47-53 | the least key of all children at or after the target |
| Merger.MergingIterator.SeekToFirst | ios/Pods/leveldb-library/table/merger.cc:31-37 | the least key of all |
| Merger.MergingIterator.SeekToLast | ios/Pods/leveldb-library/table/merger.cc:39-45 | the greatest key of all |
| Merger.MergingIterator.Next | ios/Pods/leveldb-library/table/merger.cc:55-79 | the least key after the current one, after any sequence of moves and direction switches |
| Merger.MergingIterator.Prev | ios/Pods/leveldb-library/table/merger.cc:81-108 | the greatest key before the current one, after any sequence of moves and direction switches |
| Merger.MergingIterator.FindSmallest | ios/Pods/leveldb-library/table/merger.cc:148-161 | the child at the least key |
| Merger.MergingIterator.FindLargest | ios/Pods/leveldb-library/table/merger.cc:163-176 | the child at the greatest key |
| Merger.MergingIterator.KeyValue | ios/Pods/leveldb-library/table/merger.cc:110-118 | the entry is one of a child with that key |
| Merger.PastCurrent | ios/Pods/leveldb-library/table/merger.cc:62-73 | keys being distinct, the other children stand past the current key and need not move |
| SkipList.StepKeepsInv | ios/Pods/leveldb-library/db/skiplist.h:337-368 | at every interleaving of single loads and stores of one inserter and any readers: each level is sorted and linked, and a part of the level below |
| SkipList.ExecutionKeepsInv | ios/Pods/leveldb-library/db/skiplist.h:337-368 | the invariant holds in every state of every execution |
| SkipList.LastReadIsExact | ios/Pods/leveldb-library/db/skiplist.h:260-282 | the load that ends a search leaves a result that is exact for the keys linked at that moment |
| SkipList.ReadsAreLinearizable | ios/Pods/leveldb-library/db/skiplist.h:260-323 | every search that has returned was exact at some moment between its start and its end |
| SkipList.SeekFindsInserted | ios/Pods/leveldb-library/db/skiplist.h:260-282 | a seek finds every key whose insertion finished before it began, unless it finds a smaller one that qualifies, and returns only linked keys |
| SkipList.InsertLinks | ios/Pods/leveldb-library/db/skiplist.h:360-368 | a finished insertion has linked its key at every level below its height |
| SkipList.LinkedGrows | ios/Pods/leveldb-library/db/skiplist.h:337-368 | keys are never unlinked |
| SkipList.ReadMakesProgress | ios/Pods/leveldb-library/db/skiplist.h:260-323 | each load moves a search down or strictly forward, even when it saw the raised height early |
| Crc32c.Extend | ios/Pods/leveldb-library/util/crc32c.cc:276-377 | for every initial value, data and alignment, the strided loops compute the bytewise checksum, which ChecksumOfZeros and ChecksumOfDigits tie to the published answers |
| Crc32c.ByteTableIsShift | ios/Pods/leveldb-library/util/crc32c.cc:20-63 | the byte table is eight steps of the shift register over the reversed polynomial |
| Crc32c.StrideTable0IsShift | ios/Pods/leveldb-library/util/crc32c.cc:65-108 | stride table 0 advances its byte of a word by sixteen bytes of input |
| Crc32c.StrideTable1IsShift | ios/Pods/leveldb-library/util/crc32c.cc:110-153 | stride table 1 advances its byte of a word by sixteen bytes of input |
| Crc32c.StrideTable2IsShift | ios/Pods/leveldb-library/util/crc32c.cc:155-198 | stride table 2 advances its byte of a word by sixteen bytes of input |
| Crc32c.StrideTable3IsShift | ios/Pods/leveldb-library/util/crc32c.cc:200-243 | stride table 3 advances its byte of a word by sixteen bytes of input |
| Crc32c.StrideIsShift | ios/Pods/leveldb-library/util/crc32c.cc:294-300 | four table look-ups move a whole word over a stride |
| Crc32c.Step4W | ios/Pods/leveldb-library/util/crc32c.cc:312-321 | the word step consumes four loaded bytes |
| Crc32c.StrideStep | ios/Pods/leveldb-library/util/crc32c.cc:302-310 | one stride step on the first of four interleaved states is four bytes of the plain register |
| Crc32c.Step1IsShift | ios/Pods/leveldb-library/util/crc32c.cc:287-291 | one table step is eight steps of the register |
| Crc32c.ChecksumOfConcatenation | ios/Pods/leveldb-library/util/crc32c.h:15-24 | Extend(Value(a), b) is Value(a + b) |
| Crc32c.DamageIsDetected | ios/Pods/leveldb-library/util/crc32c.h:15-24 | any change within four adjacent bytes changes the checksum, whatever surrounds them |
| Crc32c.MaskRoundTrips | ios/Pods/leveldb-library/util/crc32c.h:29-38 | Mask and Unmask undo each other on every word |
| Crc32cAnswers.ChecksumOfDigits | ios/Pods/leveldb-library/util/crc32c.cc:246-377 | the checksum of 123456789 is 0xe3069283, the check value of CRC-32C |
| Crc32cAnswers.ChecksumOfZeros | ios/Pods/leveldb-library/util/crc32c.cc:246-377 | the checksum of 32 bytes of zeros is 0x8a9136aa, as section B.4 of RFC 3720 has it, and that of one zero byte 0x527d5351 |
| Crc32cAnswers.MaskOfKnown | ios/Pods/leveldb-library/util/crc32c.h:23-33 | the masked forms of known checksums: a turn by fifteen bits and the constant 0xa282ead8 |
| LogFormat.HeaderParses | ios/Pods/leveldb-library/db/log_writer.cc:86-96 | the seven header bytes are read back to checksum, length and type |
| LogWriter.Writer.AddRecord | ios/Pods/leveldb-library/db/log_writer.cc:34-80 | appends exactly the fragments of the record for the place where the file ends, block trailers and zero-length first fragments included |
| LogWriter.Writer.EmitPhysicalRecord | ios/Pods/leveldb-library/db/log_writer.cc:82-108 | appends a header and the payload |
| LogWriter.RecordsAppend | ios/Pods/leveldb-library/db/log_writer.cc:34-80 | records written in two sessions are the records written in one |
| LogReader.Reader.ReadRecord | ios/Pods/leveldb-library/db/log_reader.cc:56-174 | the reader with its buffer, its end-of-file flag and its scratch string reads what the file says from its position on, and reports exactly the bytes it drops |
| LogReader.Reader.ReadPhysicalRecord | ios/Pods/leveldb-library/db/log_reader.cc:189-271 | one fragment, with every bad-length, zero and checksum branch |
| LogReader.Reader.FillBuffer | ios/Pods/leveldb-library/db/log_reader.cc:191-214 | refills only when less than a header is left, drops a block trailer and, at the end of the file, a cut header |
| LogRoundTrip.RecordIsRead | ios/Pods/leveldb-library/db/log_reader.cc:56-174 | a record that was written whole is read back, from any block offset |
| LogRoundTrip.TruncatedLogReplays | ios/Pods/leveldb-library/db/log_reader.cc:56-174 | for every list of records and every byte prefix of their file, the reader returns exactly the records that lie wholly in the prefix, in order and with their offsets, drops nothing and ends |
| LogRoundTrip.WholeCounts | ios/Pods/leveldb-library/db/log_writer.cc:34-80 | how many records lie wholly in a prefix, by length alone |
| LogRoundTrip.DamageIsDropped | ios/Pods/leveldb-library/db/log_reader.cc:243-257 | a fragment damaged within four adjacent bytes of type or payload is reported as bad and the rest of its block is dropped |
| LogFragments.OnlyCheckedBytesAreRead | ios/Pods/leveldb-library/db/log_reader.cc:189-272 | in any file: a fragment that the reader takes lies within one block, has the length and type of its header, and passes its checksum |
| LogFragments.ReadsAreAccountedFor | ios/Pods/leveldb-library/db/log_reader.cc:56-187 | in any file, damaged or not: a record that is returned spells consecutive fragments that form a whole, and every payload byte read on the way is in the record or reported as dropped, but for a record cut off by the end of the file |
| LogFragments.OnlyWholeRecordsAreReturned | ios/Pods/leveldb-library/db/log_reader.cc:56-187 | in any file: ReadRecord returns only one fragment of type 1, or consecutive ones of type 2, any number of type 3 and one of type 4, joined |
| WriteQueue.GroupIsUnique | ios/Pods/leveldb-library/db/db_impl.cc:1260-1306 | what a group is leaves no choice: a queue has only one |
| WriteQueue.BuildBatchGroup | ios/Pods/leveldb-library/db/db_impl.cc:1260-1306 | the longest front part of the queue that may join the leader (no sync writer behind a non-sync leader, below the size limit), and its batches end to end |
| WriteQueue.GroupIsBounded | ios/Pods/leveldb-library/db/db_impl.cc:1260-1306 | a group writes at most 128 KB more than a small first batch and at most 1 MB unless its first batch alone is larger; no sync writer joins a leader that is none; and it ends only for one of these two reasons |
| GroupCommit.StepKeepsInv | ios/Pods/leveldb-library/db/db_impl.cc:1185-1256 | every event of the write queue (arrival, leading, logging, syncing, inserting one operation at a time, finishing, memtable switch, background work, log deletion) keeps the invariant that ties queue, logs, memtables and manifest |
| GroupCommit.StepRefines | ios/Pods/leveldb-library/db/db_impl.cc:1212-1246 | to a reader an event is nothing, or one step of the database; a group commits in one step with the batches of its writers in queue order |
| GroupCommit.PartialGroupIsInvisible | ios/Pods/leveldb-library/db/db_impl.cc:1212-1229 | a reader at any snapshot up to the last sequence number never sees part of a group |
| GroupCommit.RunKeepsQInv | ios/Pods/leveldb-library/db/db_impl.cc:1185-1256 | the invariant holds in every state of every run |
| GroupCommit.ReadsSeeServedBatches | ios/Pods/leveldb-library/db/db_impl.cc:1185-1256 | over any interleaving whose compactions are harmless: writers are served in order of arrival, each once, and what readers see is exactly the served batches in that order with contiguous sequence numbers |
| GroupCommit.QueueMoves | ios/Pods/leveldb-library/db/db_impl.cc:1185-1256 | a non-empty queue can always go on, at most waiting for the flush that a forced switch needs |
| GroupCommit.LoggedBatchBacks | ios/Pods/leveldb-library/db/db_impl.cc:1212-1224 | the log record of a group backs what is inserted into the memtable |
| NullBatch.NullBatchSwitchesIff | ios/Pods/leveldb-library/db/db_impl.cc:1201-1246 | over any interleaving, a null batch is acknowledged after a memtable switch of its own if and only if it reached the front of the queue; it is then in no group |
| Traces.AbsorbedNullBatch | ios/Pods/leveldb-library/db/db_impl.cc:1278-1303 | from any opened database, a run in which a null batch is acknowledged with the group before it and no memtable was switched |
| Durability.RunKeepsSync | ios/Pods/leveldb-library/db/db_impl.cc:1214-1222 | over any interleaving: no batch straddles two logs, and every batch acknowledged to a sync writer is in the tables or among the synced records of its log |
| Durability.RunKeepsHistory | ios/Pods/leveldb-library/db/db_impl.cc:1345-1366 | over any interleaving: the two logs hold, in order, exactly the acknowledged operations that are not in tables |
| Durability.SyncIsHonoured | ios/Pods/leveldb-library/db/db_impl.cc:1214-1222 | whatever a stop leaves of the logs beyond what was synced, the operations of every batch acknowledged to a sync writer are in the tables or, whole and in place, in a log that is recovered |
| Durability.NothingLostIff | ios/Pods/leveldb-library/db/db_impl.cc:1345-1366 | no stop can lose anything of the old log if and only if it is no longer needed or all of its operations were synced |
| Durability.GapIff | ios/Pods/leveldb-library/db/db_impl.cc:1345-1366 | a stop can lose an operation and keep a later one if and only if an old log that is still needed has an operation that was not synced, and the new log has one at all: MakeRoomForWrite closes the old log without a sync |
| Traces.LaterOutlivesEarlier | ios/Pods/leveldb-library/db/db_impl.cc:1345-1366 | from any opened database, a run and a stop that keep a synced batch and lose one acknowledged before it |
| Durability.AfterStop | ios/Pods/leveldb-library/db/db_impl.cc:280-369 | after a stop at any moment of any run whose compactions are harmless for the tables, the reopened database reads as if exactly two stretches of the history had been performed: all up to where the old log was cut, and those of the new log up to where that was cut |
| Durability.HarmlessForTablesIsHarmless | ios/Pods/leveldb-library/db/db_impl.cc:963-977 | the hypothesis of AfterStop is the stronger one: a stop may lose a memtable that hides a live value |
| Durability.CleanIsHarmlessForTables | ios/Pods/leveldb-library/db/version_set.cc:1403-1425 | the check on level+1 that suffices for the one suffices for the other |
| LogBytes.CutLogReplays | ios/Pods/leveldb-library/db/log_reader.cc:56-174 | a log whose bytes are cut anywhere behind the synced ones reads back as its first records, whole, nothing reported as corrupted, the synced ones among them |
| LogBytes.CutIsStop | ios/Pods/leveldb-library/db/db_impl.cc:371-489 | so a stop within any bytes is one of the stops between records |
| LogBytes.CutAfter | ios/Pods/leveldb-library/db/log_writer.cc:34-80 | and every stop between records is such a cut |
| LogBytes.RecordComesBack | ios/Pods/leveldb-library/db/write_batch.cc:42-80 | the payload of a record is a write batch that hands over the logged operations at their sequence number |
| Recovery.WriteLevel0Table | ios/Pods/leveldb-library/db/db_impl.cc:491-533 | a recovered memtable becomes a table without losing or adding an entry |
| Recovery.RecoverLogFile | ios/Pods/leveldb-library/db/db_impl.cc:371-489 | replaying a log adds exactly the entries of its records at their sequence numbers, however often it flushes on the way |
| Recovery.Recover | ios/Pods/leveldb-library/db/db_impl.cc:280-369 | the logs from LogNumber on, in the order of their numbers and wherever each of them ends, are replayed onto the manifest state; the last sequence number is the greater of the two |
| Recovery.LoggedEntries | ios/Pods/leveldb-library/db/db_impl.cc:535-566 | if the logs are whole, tables plus logs hold everything acknowledged, plus a batch in flight that was logged |
| Recovery.InFlightIsSeen | ios/Pods/leveldb-library/db/db_impl.cc:280-369 | that reads as the acknowledged batches with the logged group on top, whole |
| Recovery.KeptLogsAre | ios/Pods/leveldb-library/db/db_impl.cc:309-353 | whatever is listed in the directory, the logs that recovery picks are those of the two memtables, as far as the stop left them |
| Recovery.Reopen | ios/Pods/leveldb-library/db/db_impl.cc:280-369 | opening after a stop in any reachable state, which may cut each log anywhere behind its synced records, gives exactly the entries of the tables and of what is left of the two logs, with file numbers above those of the logs |
| Sessions.Open | ios/Pods/leveldb-library/db/db_impl.cc:1474-1515 | opening after any stop gives an opened database, one from which another run starts: an empty memtable, a new empty log, the manifest up to date, and exactly the recovered entries |
| Sessions.SyncedBatchOutlives | ios/Pods/leveldb-library/db/db_impl.cc:1219-1228 | a batch acknowledged to a sync writer is whole and in one piece among the operations that outlive the stop that ends its session |
| Sessions.ManyStops | ios/Pods/leveldb-library/db/db_impl.cc:1474-1515 | over any number of sessions, each opened after the stop of the one before and with compactions harmless for the tables: the database then recovered reads, at its last sequence number, as if the operations that outlived each stop had been applied in their order |
| Sessions.SyncedOutlivesAll | ios/Pods/leveldb-library/db/db_impl.cc:1219-1228 | and a batch acknowledged to a sync writer in any of the sessions is whole and in one piece among them, however many stops follow |
| ObsoleteFiles.DeleteObsoleteFiles | ios/Pods/leveldb-library/db/db_impl.cc:223-278 | removes exactly the listed files of known type that are not needed, and nothing after a background error; what that leaves of each type of file is told by OthersLeft, TablesLeft and LogIsDeleted |
| ObsoleteFiles.StepKeepsInv | ios/Pods/leveldb-library/db/version_set.cc:474-483 | version references, pending outputs and live tables stay consistent over installs, readers coming and going, flushes and compactions |
| ObsoleteFiles.RunKeepsInv | ios/Pods/leveldb-library/db/version_set.cc:784-799 | the same over every run |
| ObsoleteFiles.NothingNeededIsRemoved | ios/Pods/leveldb-library/db/version_set.cc:1167-1177 | over any run, every table of a version that is current or held by a reader or a compaction is on disk, and so are the outputs of a running compaction |
| ObsoleteFiles.NewTablesAreNew | ios/Pods/leveldb-library/db/db_impl.cc:786-809 | the next file number is not that of a live table |
| Collection.PassIsCollection | ios/Pods/leveldb-library/db/db_impl.cc:223-278 | a pass of DeleteObsoleteFiles over the directory with the live files makes exactly the collection of tables that the life of the versions asks for, after a flush as after a compaction |
| Collection.NothingElseIsLeft | ios/Pods/leveldb-library/db/version_set.cc:1167-1177 | after such a pass at any moment of any run the directory has every table of every version somebody holds and no others but pending outputs |
| Collection.PassDeletesLogs | ios/Pods/leveldb-library/db/db_impl.cc:240-243 | with the log number of the manifest, the deletions of the pass are DeleteLog events of the write queue one after the other, and every log from that number on stays |
| Collection.TablesLeft | ios/Pods/leveldb-library/db/db_impl.cc:253-255 | of the tables in the directory exactly those are left whose numbers are live |
| Collection.OthersLeft | ios/Pods/leveldb-library/db/db_impl.cc:237-272 | the current manifest and newer ones are left and older ones are not, temporary files exactly if they are being written, and CURRENT, the lock, the information logs and unknown names always |
| Collection.LogIsDeleted | ios/Pods/leveldb-library/db/db_impl.cc:240-243 | of the logs exactly those from the log number on are left, and the previous one |
| Storage.StepKeepsInv | ios/Pods/leveldb-library/db/db_impl.cc:535-566 | one system of queue, logs, database, versions and table files with one counter of file numbers: at every event of it the current version is the levels of the database, the table being built is for the immutable memtable under a number of its own, and no number names both a log and a live table |
| Storage.RunKeepsInv | ios/Pods/leveldb-library/db/version_set.cc:784-799 | the same in every state of every run |
| Storage.QueueRuns | ios/Pods/leveldb-library/db/db_impl.cc:1185-1256 | what the queue of such a system goes through is a run of the write queue, so that the theorems about those hold of it |
| Storage.BuiltTableInstalls | ios/Pods/leveldb-library/db/db_impl.cc:535-566 | a table that was built can be installed, whatever writers and readers have done meanwhile |
| Storage.NothingNeededIsLost | ios/Pods/leveldb-library/db/version_set.cc:1167-1177 | in every state of every run: the tables of the database, of every version that a reader or a compaction holds, and of a compaction not yet installed are on disk, the logs of both memtables are there and the one of the immutable memtable gives it back, and the next file number is that of no log and no live table |
| Storage.PassLeavesNeeded | ios/Pods/leveldb-library/db/db_impl.cc:223-278 | a pass of DeleteObsoleteFiles over the directory, wherever a run has come to, leaves all of that: no needed log, no needed table, and of the other files the manifest in use, CURRENT, the lock and what is being written; older manifests and other temporary files go |
| VersionEdit.EncodedEditDecodes | ios/Pods/leveldb-library/db/version_edit.cc:41-205 | DecodeFrom(EncodeTo(e)) rebuilds e, behind the compaction pointers that the decoding edit had before; so it is e if and only if that edit had none |
| VersionEdit.VersionEdit.EncodeTo | ios/Pods/leveldb-library/db/version_edit.cc:41-85 | appends the fields in order, deleted files in the order of the set |
| VersionEdit.VersionEdit.DecodeFrom | ios/Pods/leveldb-library/db/version_edit.cc:107-205 | applies field after field up to the end or the first bad one, and tells which it was |
| VersionEdit.VersionEdit.Clear | ios/Pods/leveldb-library/db/version_edit.cc:26-39 | clears everything but the compaction pointers |
| VersionEdit.DecodesAll | ios/Pods/leveldb-library/db/version_edit.cc:107-205 | any list of encoded fields decodes to the fields applied in order |
| VersionEdit.InsertIsSetInsert | ios/Pods/leveldb-library/db/version_edit.h:73-76 | inserting into the sorted list of deleted files is inserting into the set |
| Coding.EncodeVarint64 | ios/Pods/leveldb-library/util/coding.cc:81-90 | the loop writes seven bits a byte, the lowest first |
| Coding.EncodeVarint32IsVarint | ios/Pods/leveldb-library/util/coding.cc:47-73 | the five unrolled cases write the same bytes, at most five |
| Coding.GetVarint32Ptr | ios/Pods/leveldb-library/util/coding.cc:112-128 | the loop reads a varint within its limit and within 32 bits |
| Coding.VarintReadsBack | ios/Pods/leveldb-library/util/coding.cc:112-157 | a varint is read back to its value wherever it stands |
| Coding.ReadsSlice | ios/Pods/leveldb-library/util/coding.cc:181-190 | a slice with its length in front is read back |
| Coding.FixedRoundTrip | ios/Pods/leveldb-library/util/coding.cc:9-45 | fixed-width words are read back |
| BlockBuilder.BlockBuilder.Add | ios/Pods/leveldb-library/table/block_builder.cc:72-106 | a block stays the compressed form of the pairs added: a restart point with a whole key exactly at every restart_interval-th pair, and every other key without the longest prefix that it shares with the one before |
| BlockBuilder.BlockBuilder.Finish | ios/Pods/leveldb-library/table/block_builder.cc:62-70 | appends the restart offsets and their number to that form |
| Block.EncodedDecodes | ios/Pods/leveldb-library/table/block.cc:53-77 | an entry decodes to what was encoded, by the one-byte fast path as by the varints |
| Block.FinishedBlockOpens | ios/Pods/leveldb-library/table/block.cc:24-39 | a finished block opens at its restart array |
| Block.RestartArray | ios/Pods/leveldb-library/table/block.cc:99-102 | the restart array is read back |
| Block.BlockDeterminesPairs | ios/Pods/leveldb-library/table/block_builder.cc:62-106 | the bytes of a block determine the pairs that were added |
| Block.Iter.ParseNextKey | ios/Pods/leveldb-library/table/block.cc:224-251 | the next entry is parsed to its key and value, and the end is found |
| Block.Iter.Next | ios/Pods/leveldb-library/table/block.cc:137-140 | the next pair |
| Block.Iter.Prev | ios/Pods/leveldb-library/table/block.cc:142-161 | the exact predecessor from every position, by rescanning from a restart point |
| Block.Iter.Seek | ios/Pods/leveldb-library/table/block.cc:163-201 | the first pair at or after the target, by binary search over restart points and a scan |
| Block.Iter.SeekToFirst | ios/Pods/leveldb-library/table/block.cc:203-206 | the first pair |
| Block.Iter.SeekToLast | ios/Pods/leveldb-library/table/block.cc:208-213 | the last pair |
| Separators.FindShortestSeparator | ios/Pods/leveldb-library/util/comparator.cc:29-50 | the start itself, or a string strictly between start and limit that is no longer: shortened exactly if after the common prefix there is room for a byte between those of the two, to the prefix and the next byte |
| Separators.FindShortSuccessor | ios/Pods/leveldb-library/util/comparator.cc:52-64 | the key itself if it is a run of 0xff, otherwise the greater string that ends with its first other byte raised by one |
| Separators.ShorterIsNotAbove | ios/Pods/leveldb-library/util/comparator.cc:52-64 | no string that is shorter than this successor lies above the key |
| Separators.SeparateInternal | ios/Pods/leveldb-library/db/dbformat.cc:69-86 | the internal key itself, or one whose user key lies strictly between the two user keys: the separator of the user keys at the highest sequence number exactly if it is shorter |
| Separators.SucceedInternal | ios/Pods/leveldb-library/db/dbformat.cc:88-101 | the internal key itself, or one with a greater user key: the successor of the user key at the highest sequence number exactly if it is shorter |
| Bloom.CreateFilter | ios/Pods/leveldb-library/util/bloom.cc:28-54 | appends a bit array whose bits are exactly the probes of the keys, as large as the bits per key and at least 64 bits ask for and no larger, and the number of probes |
| Bloom.KeyMayMatch | ios/Pods/leveldb-library/util/bloom.cc:56-80 | whether every probe of the key is set, with the reserved and the too-short cases |
| Bloom.MatchesIff | ios/Pods/leveldb-library/util/bloom.cc:28-80 | a filter matches exactly the keys all of whose probes are probes of its own keys |
| Bloom.OwnKeysMatch | ios/Pods/leveldb-library/util/bloom.cc:28-80 | no false negatives |
| Bloom.DeltaIsRotation | ios/Pods/leveldb-library/util/bloom.cc:45-46 | the step between probes is the hash turned right by seventeen bits, bit for bit |
| Bloom.ProbesAre | ios/Pods/leveldb-library/util/bloom.cc:47-51 | probe j is the hash plus j times that step, modulo 2^32 and then modulo the number of bits |
| Bloom.OtherFilters | ios/Pods/leveldb-library/util/bloom.cc:56-69 | filters shorter than two bytes match nothing, filters with more than thirty probes everything |
| FilterBlock.FilterBlockBuilder.StartBlock | ios/Pods/leveldb-library/table/filter_block.cc:21-27 | the keys at hand become the filter of the old offset, and empty filters follow up to the new one |
| FilterBlock.FilterBlockBuilder.AddKey | ios/Pods/leveldb-library/table/filter_block.cc:29-33 | one more key for the next filter |
| FilterBlock.FilterBlockBuilder.GenerateFilter | ios/Pods/leveldb-library/table/filter_block.cc:51-75 | a filter of the flattened keys, or an empty one |
| FilterBlock.FilterBlockBuilder.Finish | ios/Pods/leveldb-library/table/filter_block.cc:35-49 | a filter block of all groups of keys |
| FilterBlock.MayMatchIff | ios/Pods/leveldb-library/table/filter_block.cc:77-104 | what the reader says: the probes of the block decide, an empty group matches nothing, and beyond the last group anything may match |
| FilterBlock.KeysOfBlockMayMatch | ios/Pods/leveldb-library/table/filter_block.cc:90-104 | no false negatives for the keys of a data block |
| Table.HandleRoundTrip | ios/Pods/leveldb-library/table/format.cc:15-29 | block handles are read back |
| Table.SameUserMatchesSame | ios/Pods/leveldb-library/db/dbformat.cc:105-119 | the internal filter policy sees only user keys |
| Table.ShortIndexIsSound | ios/Pods/leveldb-library/table/table_builder.cc:94-113 | index keys shortened between blocks are at or after their block and before all later blocks |
| Table.GapHasAnotherUser | ios/Pods/leveldb-library/table/table.cc:216-244 | when the one block that is searched ends before the target, the next row has another user key |
| Table.WhereSeekEnds | ios/Pods/leveldb-library/table/table.cc:216-244 | where a lookup through the index ends among all rows |
| BlockRows.KeyLessIsBefore | ios/Pods/leveldb-library/db/dbformat.cc:48-65 | the comparator on encoded internal keys is the order on the keys |
| BlockRows.BlockOf | ios/Pods/leveldb-library/table/block_builder.cc:62-106 | adding pairs one by one and finishing gives a block of exactly these pairs, with shared prefixes and restart points as Add makes them |
| BlockRows.WrittenFits | ios/Pods/leveldb-library/table/block_builder.cc:45-49 | a block is no larger than its keys and values with nineteen bytes for each |
| BlockRows.SeekPair | ios/Pods/leveldb-library/table/block.cc:163-201 | opening the bytes of a block and seeking in them, under any order, finds the first pair at or after the target |
| BlockRows.SeekInBytes | ios/Pods/leveldb-library/table/table.cc:225-236 | opening the bytes of a data block and seeking in them under the internal-key comparator finds the row that a seek among the rows finds |
| BlockRows.BytesDetermineRows | ios/Pods/leveldb-library/table/block_builder.cc:62-106 | the bytes of a data block determine its rows |
| Table.TableIsTwoLevel | ios/Pods/leveldb-library/table/table.cc:155-214 | the two-level iterator over a table is a cursor over its rows with a sound index |
| TableBuilder.TableBuilder.Add | ios/Pods/leveldb-library/table/table_builder.cc:94-123 | rows in order go to blocks, the index entry of a block waits for the next key, and every key is in the filter of its block |
| TableBuilder.TableBuilder.Flush | ios/Pods/leveldb-library/table/table_builder.cc:125-139 | a block is written and its index entry is pending |
| TableBuilder.TableBuilder.WriteBlock | ios/Pods/leveldb-library/table/table_builder.cc:141-175 | the block of some pairs, with a restart point at every interval-th, goes to the end of the file and is found there at its handle; it is stored compressed exactly if that is asked for, succeeds and saves more than an eighth |
| TableBuilder.TableBuilder.WriteRawBlock | ios/Pods/leveldb-library/table/table_builder.cc:177-194 | contents, type and checksum at the end of the file |
| TableBuilder.TableBuilder.WriteFilter | ios/Pods/leveldb-library/table/table_builder.cc:204-209 | the filter block, with every key in the filter of its data block |
| TableBuilder.TableBuilder.CloseIndex | ios/Pods/leveldb-library/table/table_builder.cc:228-236 | the last index entry is at or after all rows, and its key is the short successor of the last key |
| TableBuilder.TableBuilder.WriteEnds | ios/Pods/leveldb-library/table/table_builder.cc:211-251 | metaindex, index and footer: with them the file holds the table |
| TableBuilder.TableBuilder.Finish | ios/Pods/leveldb-library/table/table_builder.cc:198-253 | a table of exactly the rows added, for any choice of block ends, whose data blocks, filter, metaindex, index and footer are the bytes of the file |
| TableFormat.StoredReads | ios/Pods/leveldb-library/table/format.cc:64-140 | a block that was written is read back, compressed or not, with its checksum verified or not |
| TableFormat.DamagedBlockIsRejected | ios/Pods/leveldb-library/table/format.cc:89-98 | a block whose contents or type are damaged within four adjacent bytes is turned down if checksums are verified |
| TableFormat.FooterRoundTrip | ios/Pods/leveldb-library/table/format.cc:31-62 | a footer gives back the handles of the metaindex and the index |
| TableFile.Open | ios/Pods/leveldb-library/table/table.cc:38-82 | a file without a footer is turned down; of a table, the index block is read, and the filter if it was made under the name of the policy of the reader |
| TableFile.ReadMeta | ios/Pods/leveldb-library/table/table.cc:84-111 | the filter that the metaindex block names for the policy, or none |
| TableFile.InternalGet | ios/Pods/leveldb-library/table/table.cc:216-244 | from the bytes of the file: the pair reported is that of the first row at or after the target, and it is reported whenever its row has the user key of the target, so that one index block, a filter and one data block lose nothing against a linear scan |
| TableFile.Get | ios/Pods/leveldb-library/db/table_cache.cc:100-112 | opening a table and looking a key up in it, from the bytes of the file alone |
| TableFile.FileIsTwoLevel | ios/Pods/leveldb-library/table/table.cc:155-214 | the two-level iterator over the bytes of a table is a cursor over its rows |
| TwoLevel.SeekInTwoLevels | ios/Pods/leveldb-library/table/two_level_iterator.cc:82-87 | seeking in a sound index and then in one block is seeking in all blocks end to end |
| TwoLevel.TwoLevelIterator.Seek | ios/Pods/leveldb-library/table/two_level_iterator.cc:82-87 | the first entry of all blocks at or after the target |
| TwoLevel.TwoLevelIterator.SeekToFirst | ios/Pods/leveldb-library/table/two_level_iterator.cc:89-94 | the first entry, past empty blocks |
| TwoLevel.TwoLevelIterator.SeekToLast | ios/Pods/leveldb-library/table/two_level_iterator.cc:96-101 | the last entry, past empty blocks |
| TwoLevel.TwoLevelIterator.Next | ios/Pods/leveldb-library/table/two_level_iterator.cc:103-107 | the next position |
| TwoLevel.TwoLevelIterator.Prev | ios/Pods/leveldb-library/table/two_level_iterator.cc:109-113 | the previous position |
| TwoLevel.TwoLevelIterator.SkipEmptyDataBlocksForward | ios/Pods/leveldb-library/table/two_level_iterator.cc:115-126 | does not move the cursor among all entries |
| TwoLevel.TwoLevelIterator.SkipEmptyDataBlocksBackward | ios/Pods/leveldb-library/table/two_level_iterator.cc:128-139 | goes to the last entry before the block at hand |
| TwoLevel.TwoLevelIterator.InitDataBlock | ios/Pods/leveldb-library/table/two_level_iterator.cc:146-161 | the block the index names, opened anew or kept |
| TwoLevel.TwoLevelIterator.KeyValue | ios/Pods/leveldb-library/table/two_level_iterator.cc:32-39 | the entry of the position |
| WriteBatch.WriteBatch.Put | ios/Pods/leveldb-library/db/write_batch.cc:98-103 | one more operation, the count kept |
| WriteBatch.WriteBatch.Delete | ios/Pods/leveldb-library/db/write_batch.cc:105-109 | one more deletion, the count kept |
| WriteBatch.WriteBatch.Append | ios/Pods/leveldb-library/db/write_batch.cc:144-148 | the operations of another batch, or of the batch itself, behind those at hand, the sequence number kept |
| WriteBatch.WriteBatch.SetSequence | ios/Pods/leveldb-library/db/write_batch.cc:94-96 | patches the number and nothing else |
| WriteBatch.Iterate | ios/Pods/leveldb-library/db/write_batch.cc:42-80 | hands over the records up to the first bad one, and checks the count |
| WriteBatch.BatchRoundTrip | ios/Pods/leveldb-library/db/write_batch.cc:42-80 | a batch is handed over whole and in order; a batch cut anywhere is never OK, and what is handed over of it are first operations |
| WireFormats.FixedBytes | ios/Pods/leveldb-library/util/coding.cc:9-34 | four bytes, the lowest first, and eight as two such words |
| WireFormats.ShortVarints | ios/Pods/leveldb-library/util/coding.cc:22-75 | a byte up to 127, 300 as AC 02, and the greatest 32-bit number in five bytes |
| WireFormats.BatchRecords | ios/Pods/leveldb-library/db/write_batch.cc:98-109 | a put is a 1, the key and the value, a deletion a 0 and the key, each string with its length in front |
| WireFormats.BatchHeader | ios/Pods/leveldb-library/db/write_batch.cc:5-14 | eight bytes of sequence number and four of count come before the records |
| WireFormats.BadBatches | ios/Pods/leveldb-library/db/write_batch.cc:42-80 | a batch without a whole header, or whose first record starts with neither 0 nor 1, hands over nothing and is not OK |
| WireFormats.EditFields | ios/Pods/leveldb-library/db/version_edit.cc:14-24 | the tags 1 to 6 and 9 of a manifest record with what follows them |
| WireFormats.NewFileField | ios/Pods/leveldb-library/db/version_edit.cc:76-84 | tag 7: level, number, size, smallest and largest key |
| WireFormats.InternalKeyBytes | ios/Pods/leveldb-library/db/dbformat.cc:14-23 | an internal key is the user key, a byte of type, 1 for a value and 0 for a deletion, and seven of sequence number |
| WireFormats.EntryBytes | ios/Pods/leveldb-library/table/block_builder.cc:90-99 | an entry of a block: shared length, own length, value length, own part of the key, value |
| WireFormats.EmptyBlock | ios/Pods/leveldb-library/table/block_builder.cc:62-70 | a block without pairs is one restart point at 0 and their number |
| WireFormats.BlockTypes | ios/Pods/leveldb-library/table/format.cc:97-136 | a block of type 0 is read as it is, one of type 1 through the decompressor, any other is turned down |
| WireFormats.TrailerBytes | ios/Pods/leveldb-library/table/table_builder.cc:177-199 | behind a block its type and the masked checksum of contents and type |
| WireFormats.FooterBytes | ios/Pods/leveldb-library/table/format.cc:31-40 | a footer is 40 bytes of the two handles and zeros, and the eight bytes of the magic number |
| WireFormats.OtherMagicIsRejected | ios/Pods/leveldb-library/table/format.cc:42-50 | a footer with any other last eight bytes is turned down |
| WireFormats.FilterBlockEnds | ios/Pods/leveldb-library/table/filter_block.cc:35-49 | a filter block ends with the word that tells where its offsets begin and the base 11 |
| WireFormats.HeaderBytes | ios/Pods/leveldb-library/db/log_writer.cc:82-105 | a log header is the masked checksum of type and payload, two bytes of length and the type |
| WireFormats.WholeRecord | ios/Pods/leveldb-library/db/log_writer.cc:34-80 | a record that fits behind a header in its block is one fragment of type 1 |
| WireFormats.RecordBehindTail | ios/Pods/leveldb-library/db/log_writer.cc:44-54 | less than seven bytes at the end of a block of 32768 are filled with zeros |
| WireFormats.LongRecord | ios/Pods/leveldb-library/db/log_writer.cc:62-72 | a record over three blocks has fragments of types 2, 3 and 4, each but the last to the end of its block |
| WireFormats.MessageNumbers | ios/Pods/nanopb/pb_encode.c:608-675 | numbers of each type behind their tags, byte for byte: base-128, zigzag, bool and four-byte words |
| WireFormats.NegativeNumber | ios/Pods/nanopb/pb_encode.c:776-797 | -1 in a signed field takes ten bytes |
| WireFormats.MessageStrings | ios/Pods/nanopb/pb_encode.c:709-767 | strings, bytes and submessages: a tag of wire type 2, the length, the bytes |
| WireFormats.MessageLists | ios/Pods/nanopb/pb_encode.c:147-238 | numbers are packed behind one tag and a length in bytes, strings have a tag each |
| WriteBatch.WriteBatch.InsertInto | ios/Pods/leveldb-library/db/write_batch.cc:115-137 | the memtable becomes the one in which the operations are applied one after the other, numbered from the number of the batch |
| WriteBatch.InsertContents | ios/Pods/leveldb-library/db/write_batch.cc:115-137 | the same for any bytes: the operations before the first bad record are in the memtable, and the status says what was wrong |
| HandleTable.HandleTable.Lookup | ios/Pods/leveldb-library/util/cache.cc:74-76 | what a map of the nodes gives |
| HandleTable.HandleTable.Insert | ios/Pods/leveldb-library/util/cache.cc:78-92 | the map with the node, and the node that it displaced |
| HandleTable.HandleTable.Remove | ios/Pods/leveldb-library/util/cache.cc:94-104 | the map without the node |
| HandleTable.HandleTable.Resize | ios/Pods/leveldb-library/util/cache.cc:122-146 | the same map in a longer bucket array |
| Cache.ReferencedKeepsInv | ios/Pods/leveldb-library/util/cache.cc:217-223 | a reference moves an entry from the LRU list to the in-use list and keeps lists, counts and charges in step |
| Cache.ReleasedKeepsInv | ios/Pods/leveldb-library/util/cache.cc:225-237 | giving up a reference keeps them in step; the last one deletes |
| Cache.ErasedKeepsInv | ios/Pods/leveldb-library/util/cache.cc:307-316 | taking an entry out of the table keeps them in step |
| Cache.AddedKeepsInv | ios/Pods/leveldb-library/util/cache.cc:266-292 | adding an entry keeps them in step |
| Cache.DeletedExactlyOnce | ios/Pods/leveldb-library/util/cache.cc:225-237 | the deleter of an entry has run, once, exactly when neither the cache nor a client refers to it |
| Cache.EvictionIsExact | ios/Pods/leveldb-library/util/cache.cc:293-302 | eviction gives up a least-recently-used prefix and no more than it must, ending within the capacity or with only held entries |
| CacheRuns.LruIsReleaseOrder | ios/Pods/leveldb-library/util/cache.cc:225-254 | over every run of insertions, look-ups, releases, erasures and prunings the LRU list is in the order in which clients last released its entries |
| CacheRuns.EvictedIsLeastRecent | ios/Pods/leveldb-library/util/cache.cc:293-302 | what an insertion evicts no client holds, and it was last released before every entry that stays on the list |
| CacheRuns.LookupIsFresh | ios/Pods/leveldb-library/util/cache.cc:247-305 | over every run a look-up that hits gives the value inserted last for its key, not erased since, with the charge of that insertion; a cache without capacity never hits |
| CacheRuns.RunKeepsFresh | ios/Pods/leveldb-library/util/cache.cc:266-330 | over every run lists, counts and charges are in step and every cached entry is the latest insertion of its key |
| Cache.LRUCache.Lookup | ios/Pods/leveldb-library/util/cache.cc:252-259 | the entry that a map of the cached keys gives, with one more reference |
| Cache.LRUCache.Insert | ios/Pods/leveldb-library/util/cache.cc:266-305 | the new entry in place of one with the same key, then exact eviction: usage is within the capacity or the LRU list is empty |
| Cache.LRUCache.Release | ios/Pods/leveldb-library/util/cache.cc:261-264 | one reference fewer, nothing else; an entry that no client holds any more comes last on the LRU list, the order of the others unchanged |
| Cache.LRUCache.Erase | ios/Pods/leveldb-library/util/cache.cc:318-321 | the entry of the key leaves the table |
| Cache.LRUCache.Prune | ios/Pods/leveldb-library/util/cache.cc:323-333 | every entry no client holds leaves |
| Cache.LRUCache.Ref | ios/Pods/leveldb-library/util/cache.cc:217-223 | references and lists in step |
| Cache.LRUCache.Unref | ios/Pods/leveldb-library/util/cache.cc:225-237 | references and lists in step, deletion at zero; that the released entry becomes the newest is what LruIsReleaseOrder rests on |
| Cache.LRUCache.FinishErase | ios/Pods/leveldb-library/util/cache.cc:307-316 | the entry leaves its list, the usage its charge |
| PbEncode.VarintBuffer | ios/Pods/nanopb/pb_encode.c:583-623 | a varint in its buffer, the negative form with its fixed ten bytes included |
| PbEncode.OStream.Write | ios/Pods/nanopb/pb_encode.c:103-128 | all bytes or none, and in a sizing stream only the count |
| PbEncode.OStream.EncodeVarint | ios/Pods/nanopb/pb_encode.c:608-628 | the bytes of the varint |
| PbEncode.OStream.EncodeTag | ios/Pods/nanopb/pb_encode.c:669-673 | field number and wire type in one varint |
| PbEncode.OStream.EncodeString | ios/Pods/nanopb/pb_encode.c:709-715 | length and bytes |
| PbEncode.OStream.EncodeValue | ios/Pods/nanopb/pb_encode.c:341-428 | a value of any scalar, string, bytes or message type, or failure if it does not fit its descriptor |
| PbEncode.OStream.EncodeSubmessage | ios/Pods/nanopb/pb_encode.c:717-765 | the length from the sizing pass is the length of the writing pass, for every message: the bytes are the length-prefixed message, and it fails only for a message that does not fit or a full stream |
| PbEncode.OStream.Encode | ios/Pods/nanopb/pb_encode.c:528-550 | exactly the bytes of the message, in either pass |
| PbEncode.OStream.EncodeField | ios/Pods/nanopb/pb_encode.c:450-466 | one field: present, absent, chosen or listed |
| PbEncode.OStream.EncodeArray | ios/Pods/nanopb/pb_encode.c:147-236 | packed or repeated items, the packed size counted first |
| PbEncode.OStream.EncodeItems | ios/Pods/nanopb/pb_encode.c:194-236 | the items one after the other |
| PbIStream.FindFrom | ios/Pods/nanopb/pb_common.c:78-97 | the circular field search finds the field of a tag from any position, or shows there is none |
| PbIStream.IStream.DecodeVarint32 | ios/Pods/nanopb/pb_decode.c:187-253 | the value and position that the bytes determine, overflow and sign extension included |
| PbIStream.IStream.DecodeVarint | ios/Pods/nanopb/pb_decode.c:255-276 | the same for 64 bits |
| PbIStream.IStream.TakeString | ios/Pods/nanopb/pb_decode.c:372-402 | a substream of exactly the announced bytes |
| PbIStream.IStream.SkipValue | ios/Pods/nanopb/pb_decode.c:321-331 | skips one value of any wire type; that this is where the next record begins is ReadsAmongUnknown, and CutFieldIsRejected and BadWireTypeIsRejected say when it fails |
| PbIStream.IStream.Scalar | ios/Pods/nanopb/pb_decode.c:1328-1540 | a scalar checked against the width of its field |
| PbIStream.IStream.DecodeOne | ios/Pods/nanopb/pb_decode.c:406-425 | one value into its field |
| PbIStream.IStream.DecodeStatic | ios/Pods/nanopb/pb_decode.c:406-483 | one field occurrence into the message |
| PbIStream.IStream.Packed | ios/Pods/nanopb/pb_decode.c:425-447 | packed items to the end of their substream or the end of the array |
| PbIStream.IStream.DecodeNoinit | ios/Pods/nanopb/pb_decode.c:928-1076 | the whole loop reads what the bytes determine, which MessageReads says of the bytes of any records and DecodedIsSound of any bytes: unknown fields skipped, required fields checked, the terminator entry taken for a field in an empty descriptor |
| PbRoundTrip.NumberReads | ios/Pods/nanopb/pb_decode.c:1339-1430 | every number type reads back what was written, at the limits of its width |
| PbRoundTrip.BlobReads | ios/Pods/nanopb/pb_decode.c:1441-1517 | strings and bytes read back, except that a string that fills its array, which the encoder writes, is turned down |
| PbRoundTrip.ValueReads | ios/Pods/nanopb/pb_decode.c:406-483 | a value of any type, messages included, reads back if no string in it fills its array, and is turned down otherwise |
| PbRoundTrip.FieldsRead | ios/Pods/nanopb/pb_decode.c:928-1076 | the encoded fields of a message rebuild it field by field, in any surrounding bytes, up to the first field with such a string, where decoding fails |
| PbRoundTrip.MessageRoundTripsIff | ios/Pods/nanopb/pb_decode.c:928-1090 | for every static descriptor tree and every message that fits it in fewer than 2^32 bytes: decoding the encoded bytes rebuilds the message if and only if no string at any depth fills its array, and fails otherwise |
| PbRecords.RecordsStep | ios/Pods/nanopb/pb_decode.c:928-1076 | records of known and unknown fields in any order and number, wherever they stand: decoding goes on behind them with what they make of the structure |
| PbRecords.MessageReads | ios/Pods/nanopb/pb_decode.c:928-1090 | for every list of records, at every depth, up to the end of the bytes or a zero tag: what is decoded is what the records mean, one value in place of the one before, one member of a oneof, items at the end of their array, submessages merged, and failure exactly if they mean none |
| PbRecords.TrackedIffPresent | ios/Pods/nanopb/pb_decode.c:1033-1073 | the required-field check fails exactly if a required field has no record and fewer than 64 required ones come before it |
| PbRecords.PackedReadsOnto | ios/Pods/nanopb/pb_decode.c:424-452 | a packed array goes as a whole behind the items that are there, or is turned down if they do not fit |
| PbRecordLaws.UnknownFieldsAreSkipped | ios/Pods/nanopb/pb_decode.c:321-334 | fields that the descriptor does not know, of any of the four wire types and at any depth, change nothing |
| PbRecordLaws.ReadsAmongUnknown | ios/Pods/nanopb/pb_decode.c:928-1090 | an encoded message with records of unknown fields before, between and behind its own is decoded as it was before |
| PbRecordLaws.LastValueWins | ios/Pods/nanopb/pb_decode.c:406-483 | the last record of a field, or of any member of its oneof, decides its value, and no other member is chosen |
| PbRecordLaws.ArraysCollect | ios/Pods/nanopb/pb_decode.c:423-464 | an array has all items of its records, packed or not, in their order |
| PbRecordLaws.MissingFieldIsRejected | ios/Pods/nanopb/pb_decode.c:1033-1073 | a message without a record of a required field, one of the first 64, is turned down |
| PbRecordLaws.CutFieldIsRejected | ios/Pods/nanopb/pb_decode.c:278-334 | a message that breaks off within an unknown field is turned down |
| PbRecordLaws.BadWireTypeIsRejected | ios/Pods/nanopb/pb_decode.c:321-334 | an unknown field of wire type 3, 4, 6 or 7 is turned down |
| PbRecordLaws.EmptyIsZeros | ios/Pods/nanopb/pb_decode.c:1543-1562 | a fixed-length field with no bytes at all is read as zeros |
| PbRecordLaws.ZeroTagWithoutFields | ios/Pods/nanopb/pb_common.c:78-97 | in a message without fields a tag of 0 takes a bool behind it, whatever its wire type |
| PbSafety.DecodedIsSound | ios/Pods/nanopb/pb_decode.c:928-1090 | whatever the bytes: what is decoded has every number within the width of its field, every string ended, every array within its bounds and at most one member of each oneof |
| PbSafety.ScalarIsSound | ios/Pods/nanopb/pb_decode.c:1328-1560 | whatever the bytes: a number out of the range of its field and a string or byte array too long for it are turned down |
| PbSafety.DecodedComesBack | ios/Pods/nanopb/pb_decode.c:928-1090 | what was decoded from any bytes can be encoded, and comes back from its encoding |
| PbVarints.Varint32OfAny | ios/Pods/nanopb/pb_decode.c:187-247 | of all 64-bit numbers exactly what a 32-bit varint is read as: those below 2^32 as they are, and of the others exactly those with bits 31 and 63 set whose groups of seven bits from bit 35 on are all zeros or all ones |
| PbVarints.NegativesAreExtended | ios/Pods/nanopb/pb_decode.c:221-230 | every negative 32-bit number is among them, and a number that extends none is too |

## Left out

The database:

- User keys are ranks in the comparator's order outside the format modules; `RankEmbedsOrder` shows that nothing is lost.
- I/O failures, background errors (but for what they keep `DeleteObsoleteFiles` from doing), corruption statuses, paranoid checks, `ParseInternalKey` failures and `reuse_logs`.
- Files are sequences of bytes or records; the environment, locks, file names as paths and `CURRENT` are not part of this model.
- Concurrency inside `DBImpl` is at the grain of mutex-protected steps; weak memory ordering is not modelled.  The
  skiplist is modelled at single loads and stores, sequentially consistent.
- A flush that commits in the middle of a compaction is put before it in `Runs`; `MidFlush` shows when that loses nothing, and
  the case that it excludes is assumed not to occur in `Runs` and in what builds on it.
- `DbIter` is written against a cursor; that the merging iterator is one is a lemma about its moves, not an object that holds the other.
- `pending_outputs_` is emptied before the version is installed; that this is safe rests on collections being run by the one
  background thread, as in the code.
- The choice of a compaction level by score, read sampling, seek charging, slowdown delays, statistics and info logs:
  the level and the moment are left open.
- Sizes of files, blocks and memtables are given from outside or left open; `std::sort` and directory listings are by their effect.
- The snapshot list (`db/snapshot.h`) and the version list are sequences and maps, not linked nodes; aliasing is not captured there.
- `MemTable` is a sorted sequence at the level of the database; its arena and its encoded keys are left out, its skiplist is not.
- Random heights of skiplist nodes are left open, from 1 to 12.
- `repair.cc`, `dumpfile.cc`, `c.cc`, `ApproximateOffsetOf` and `DestroyDB` would add only easy members.

The formats:

- The log reader starts at offset 0 with checksums on: `SkipToInitialBlock` and resyncing are left out.
- Corrupt blocks: the iterator is modelled on finished blocks; error branches are shown dead there.
- Snappy is a pair of functions of which the second undoes the first; the block cache, and tables that are damaged other than in
  their footer or in one block, are left out.
- TableBuilder.TableBuilder.Add: the block size is left open, so a block may end after any row; that its size is estimated is only
  used in `CutIsMade`.
- `TableBuilder` keeps file offsets below 2^63, and blocks, keys and values within the 32 bits in which their lengths are written.
- The hash function of Bloom filters and of the cache is a parameter; false-positive rates are not considered.
- The CPU-accelerated CRC is not part of this model.

The cache:

- Cache.LRUCache.Insert: handles are values named by numbers and the two lists are sequences, so the intrusive pointers and the
  memory of a handle are not captured; a deleter is the recording of its handle.
- The hash table's chains are sequences in an array, and the sharded cache over sixteen shards is left out.

nanopb:

- Callbacks, extensions, pointer fields, proto3 singular fields, fixed-count arrays and delimited or null-terminated framing.
- Messages are trees of values, not memory at offsets; the required-fields bitmap is a set of indices (of which, as in the
  code, only the first 64 required fields are tracked).
- The bit position in `pb_decode_varint32` is a `uint_fast8_t`, which may wrap around within a varint of 37 bytes or more; here
  it does not.
- Tags within a message are distinct and not zero; the 8- and 16-bit size types of small builds are left out.
- PbRoundTrip.MessageRoundTripsIff: absent optional and unchosen fields are absent in the model, where the original leaves their old bytes.
