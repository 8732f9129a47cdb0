# A verified model of LevelDB and nanopb

These files model the two libraries at the core of this repository's vendored
code.  The larger part models LevelDB (`Foti/Pods/leveldb-library`) and proves
what it is for: a read returns the newest version of a key that its snapshot
may see, whatever flushes, compactions, crashes and recoveries have happened
since it was written.  The rest models nanopb (`Foti/Pods/nanopb`) and proves
that decoding undoes encoding.  Next to each specification stand laws that do not
mention it: in operations, flags, bytes and literal numbers.

The specification of a read is `Reads.Read`: among a set of entries, the one
with the greatest sequence number not above the snapshot, a deletion counting
as absent.  Everything else is measured against it.

- **The store as a machine.**  `Database` gives the steps of a database: write
  (log, then memtable), switch, flush, compaction, trivial move, install,
  delete files, take and release snapshots, crash, failed and successful
  recovery.  `DatabaseRuns` proves that every state of every run reads as the
  last acknowledged operation on each key says (`Operations`), that a crash cuts
  the history only between batches, and that synced batches are never lost.
  `Writes` says what acknowledgements, syncs and snapshots promise in terms of
  the run's events, and `DatabaseProgress` that the machine can take the steps
  that the code takes.  The steps rest on
  `Compacting` and `CompactionReads` (drop rules), `CompactionOutputs` (where tables are cut), `InputSelection` and
  `Overlaps` (choice of inputs), `Installing`, `Flushing`, `Manifest`,
  `Building`, `Editing`, `Durable`, `Recovery`, `Reopening` and `VersionReads`.
  `DatabaseRecovery` proves that a database that is down can always be opened.
- **Below the machine.**  `GroupCommit`, `GroupWrites` and `GroupRuns` show that
  the write step stands for any interleaving of writers, and what a writer that
  was answered may rely on; `WriteBatches` what a batch's bytes are and insert; `SkipLists` and
  `SkipListReaders` that a memtable may be searched while it is written;
  `LogFormat`, `LogReading` and `LogRoundTrip` that a torn log loses only whole
  records at its end, `LogLayout` what a reader can get out of any bytes at all,
  and `TornFiles` that a torn log is the machine's crash; `EditCoding` and
  `EditBytes` that manifest records survive encoding; `Bytewise`, `Blocks`,
  `BlockBytes`, `BlockIteration`, `Filters`, `FilterBlocks` and `Tables` that a table file
  answers like its entries; `CacheTable`, `Rings` and `Cache` that the block
  cache is a map with reference counts; `Snapshots` that the oldest snapshot is
  known.
- **Cursors.**  `Merging`, `TwoLevel` and `DbIteration` prove the iterator
  stack: any mix of seeks and steps in both directions moves as a plain cursor
  over the sorted list of what the snapshot shows.
- **nanopb.**  `ProtoSchema` gives messages as typed slots under a descriptor.
  `ProtoEncoding` and `ProtoParsing` say what the bytes of a message are and
  what any bytes decode to; `ProtoWriting` and `ProtoReading` prove the
  two-pass encoder and the stream decoder against them, on every input.
  `ProtoMerging` proves that decoding an encoded message merges it with what the
  struct holds; `ProtoRoundTrip` that onto defaults this gives the message back,
  `ProtoConcatenation` that two encodings side by side merge.  `ProtoBytes` and
  `ProtoInputs` pin the bytes down in numbers, `ProtoRecords` what a message must
  contain, `ProtoDefaults` what may be left out.

User keys are represented by their place in the comparator's order, a real
number; `Bytewise.RankOrder` exhibits that place for the built-in comparator.
Sequence numbers are bounded by 2^56 - 1 as in the code.

## Where the code falls short of its intent

- `SetupOtherInputs` closes the level's inputs under shared boundary user keys
  (db/version_set.cc:1407, 1422) but not the level+1 inputs (1410-1411).  A
  deletion at the end of a selected level+1 file can then be dropped as
  obsolete while the next level+1 file holds an older value of the same user
  key, which becomes readable again.  `BoundaryHole.ReadChanges` is an
  instance; `CompactionReads.ReadsSurviveExactlyWhen` and
  `CompactionSafety.CompactionKeepsReadsExactlyWhen` say exactly when reads
  survive, and `CompactionSafety.ClosedCompactionKeepsReads` gives a condition
  on the inputs that a caller could test.  The runs of `DatabaseRuns` are
  those whose compactions meet the exact condition (`Database.Harmless`).
- `VersionEdit::Clear` keeps the compaction pointers
  (db/version_edit.cc:26-39), so decoding gives an edit back only into an
  object that has none: `EditCoding.FreshEditRoundTrip`.
- One Builder over several edits does not always equal saving after each: when
  a file that was marked deleted is added again, the erased mark brings back
  what the base lists.  `Manifest.ReplayExactly` says exactly when the two agree
  as sets, `Building.ListedReplayExactly` when they agree as lists, and
  `Building.ReaddedBaseListedTwice` is an instance.  `Durable` shows that the
  database's own manifests add no number twice at a level, which is enough.
- `WriteBatch::Iterate` hands operations over as it reads them and compares the count
  afterwards (db/write_batch.cc:50-79), so a damaged batch is refused when its first
  operations are in the memtable: `WriteBatches.OpsThenRest`.
- nanopb writes a string that fills its whole buffer, without a NUL
  (pb_encode.c:873-897), but its decoder refuses it (pb_decode.c:1487-1523).
  `ProtoRoundTrip.RoundTrip` shows that this is the only way in which decoding
  an encoded message fails.
- `pb_decode_varint32` checks for overflow at the fifth byte only if the number
  ends there (pb_decode.c:235-240).  `ProtoVarints.Varint32Wrong` says exactly
  which numbers it gets wrong, `ProtoVarints.Varint32Exactly` what it does once
  its eight-bit shift has wrapped around.
- Two encodings one after the other should decode to their merge.  A message with
  exactly one fixed-count array is refused the second time, because the decoder
  takes the array for full (pb_decode.c:999-1021, 459-462):
  `ProtoConcatenation.Concatenation` shows that this and lack of room are the only
  ways to fail.
- With the greatest sequence number, 2^56 - 1, as smallest snapshot, a compaction
  takes its mark for "no previous entry" (db/db_impl.cc:939-946) for an entry that
  hides the next one and drops everything: `Compacting.Emits`.  Compactions of the
  runs have a smaller one.

## Model

| member | source | states |
|---|---|---|
| Keys.LowerBound | Foti/Pods/leveldb-library/db/skiplist.h:260-281 | Index of the first entry at or after a key: everything before it is smaller, it is not; the meaning of every Seek |
| Reads.NewestExists | Foti/Pods/leveldb-library/db/dbformat.cc:51-65 | A visible version of a key implies a newest visible one |
| Reads.ReadIs | Foti/Pods/leveldb-library/db/memtable.cc:100-134 | With one entry per key and sequence number, the newest visible entry alone decides a read |
| Reads.ReadLayers | Foti/Pods/leveldb-library/db/db_impl.cc:1119-1133 | A newer store that holds a visible version decides the read, otherwise the older one does: why a lookup may stop at the first store |
| Reads.AgreeUnderNewer | Foti/Pods/leveldb-library/db/db_impl.cc:1119-1133 | Two stores that agree from a snapshot on still agree under newer data |
| Files.EntryBounds | Foti/Pods/leveldb-library/db/version_edit.h:18-29 | A file's smallest and largest keys bound every entry in it |
| Files.ShallowerNewer | Foti/Pods/leveldb-library/db/version_set.cc:326-421 | In a valid version, shallower levels hold newer versions of every key than all deeper ones together |
| VersionReads.FindFile | Foti/Pods/leveldb-library/db/version_set.cc:88-106 | Binary search: all files before the result end before the key and all from it on do not |
| VersionReads.SeekGet | Foti/Pods/leveldb-library/db/memtable.cc:100-134 | Seek and compare user keys: reports exactly what a sorted store holds for (key, snapshot), absence and deletion told apart |
| VersionReads.ReportsRead | Foti/Pods/leveldb-library/db/memtable.cc:100-134 | The reported result is the store's read |
| VersionReads.ReportsLayers | Foti/Pods/leveldb-library/db/version_set.cc:326-421 | A report of a newer store stands for both stores; Missing passes on to the older one |
| VersionReads.GetLevel0 | Foti/Pods/leveldb-library/db/version_set.cc:349-364 | Overlapping level-0 files tried newest first report what their union holds |
| VersionReads.GetDeeper | Foti/Pods/leveldb-library/db/version_set.cc:365-382 | One file of a sorted level, found by binary search, reports what the whole level holds |
| VersionReads.Version.Get | Foti/Pods/leveldb-library/db/version_set.cc:326-421 | Level-by-level lookup reports what all files together hold, for every valid version |
| VersionReads.Get | Foti/Pods/leveldb-library/db/db_impl.cc:1100-1145 | Memtable, immutable memtable, then files: the answer is the read over the union of all entries, absent and deleted both None |
| Overlaps.GetOverlappingInputs | Foti/Pods/leveldb-library/db/version_set.cc:519-559 | Terminates despite its restarts; returns exactly the files that meet the (at level 0: least closed) range containing the request |
| Overlaps.MeetsMeans | Foti/Pods/leveldb-library/db/version_set.cc:534-541 | A file meets a range exactly if the two have a key in common, ends included |
| Overlaps.OverlappingExactly | Foti/Pods/leveldb-library/db/version_set.cc:519-559 | A file is among the overlapping ones if and only if it is in the level and meets the range |
| Overlaps.OverlappingRun | Foti/Pods/leveldb-library/db/version_set.cc:519-559 | In a sorted level the overlapping files are one contiguous run |
| InputSelection.GetRange | Foti/Pods/leveldb-library/db/version_set.cc:1202-1224 | The least and greatest keys over the inputs |
| InputSelection.FindLargestKey | Foti/Pods/leveldb-library/db/version_set.cc:1326-1340 | The largest key of the inputs, or nothing for no inputs |
| InputSelection.FindSmallestBoundaryFile | Foti/Pods/leveldb-library/db/version_set.cc:1344-1362 | The file with the least smallest key after the given key that shares its user key; nothing exactly if there is none |
| InputSelection.AddBoundaryInputs | Foti/Pods/leveldb-library/db/version_set.cc:1378-1401 | Terminates, adds a chain of distinct boundary files to the end and leaves no boundary file behind |
| InputSelection.ChainIsNextFiles | Foti/Pods/leveldb-library/db/version_set.cc:1378-1401 | In a sorted level the added files are the next ones, ending where no user key is shared |
| InputSelection.ChainCloses | Foti/Pods/leveldb-library/db/version_set.cc:1378-1401 | Below level 0, after AddBoundaryInputs no unselected file of the level shares a user key with a later part of an input |
| InputSelection.EqualCountSameFiles | Foti/Pods/leveldb-library/db/version_set.cc:1432-1443 | The expansion's equal-count test means the same level+1 files |
| InputSelection.VersionSet.Expand | Foti/Pods/leveldb-library/db/version_set.cc:1417-1446 | The larger inputs are everything in the level that meets the range of all inputs, with boundary files; they are taken exactly if they are more, small enough, and meet the same level+1 files; nothing else changes |
| InputSelection.ExpandsExactly | Foti/Pods/leveldb-library/db/version_set.cc:1417-1446 | The larger inputs are taken exactly if they are more files, stay below 25 times the file size together with those of the next level, and meet no more files there |
| InputSelection.VersionSet.SetupOtherInputs | Foti/Pods/leveldb-library/db/version_set.cc:1403-1462 | Selected inputs are closed under shared user keys in their level, take every level+1 file that meets their range, and are exactly the given ones with boundary files and the expansion that pays; grandparents are all files two levels down that meet the whole range; only this level's compaction pointer changes, to the largest input key |
| InputSelection.VersionSet.PickCompaction | Foti/Pods/leveldb-library/db/version_set.cc:1270-1322 | Nothing is picked exactly if no level is full and no file cost too many seeks; a fullest level goes first, from the first file after its compaction pointer (its first file if there is none), else the file that cost too many seeks; inputs are well selected and contain that file |
| InputSelection.TurnMeans | Foti/Pods/leveldb-library/db/version_set.cc:1283-1297 | The next compaction of a level begins with the first file that ends after the last one did, from the front again only if there is none |
| InputSelection.VersionSet.Finalize | Foti/Pods/leveldb-library/db/version_set.cc:1050-1086 | The shallowest of the levels that are fullest for their size: files at level 0, bytes below |
| InputSelection.Scores | Foti/Pods/leveldb-library/db/version_set.cc:1050-1086 | A level is full with four files at level 0, and with 10 MB, 100 MB, ... 1 TB at levels 1 to 6 |
| InputSelection.MaxBytesForLevel | Foti/Pods/leveldb-library/db/version_set.cc:42-53 | Ten times as much for each level from 10 MB at level 1 |
| InputSelection.VersionSet.CompactRange | Foti/Pods/leveldb-library/db/version_set.cc:1464-1495 | A manual compaction is refused exactly if no file meets the range, otherwise its inputs are well selected and start from all files of the least closed range (level 0) or from the first files that meet the range up to the size limit |
| InputSelection.CutMeans | Foti/Pods/leveldb-library/db/version_set.cc:1476-1486 | Below level 0 a manual compaction starts from the shortest run of overlapping files that reaches the size, or from all of them |
| InputSelection.EmptyExactly | Foti/Pods/leveldb-library/db/version_set.cc:1464-1470 | No overlapping files means no file of the level meets the range |
| Compacting.Compaction.IsBaseLevelForKey | Foti/Pods/leveldb-library/db/version_set.cc:1533-1552 | With cursors that only move forward, for nondecreasing keys: the answer is whether any deeper file's range holds the key, as a full scan would say |
| Compacting.Compaction.ShouldStopBefore | Foti/Pods/leveldb-library/db/version_set.cc:1554-1576 | An output is cut before a key exactly if the grandparent files passed since the last cut hold more than the allowed bytes |
| Compacting.ShouldDrop | Foti/Pods/leveldb-library/db/db_impl.cc:945-960 | An entry is dropped exactly if a newer version at or below the smallest snapshot hides it, or it is an obsolete deletion |
| Compacting.CompactionState.Add | Foti/Pods/leveldb-library/db/db_impl.cc:976-997 | Entries are appended to the current output |
| Compacting.DoCompactionWork | Foti/Pods/leveldb-library/db/db_impl.cc:878-1036 | The outputs are those of a plain scan: finished before a key that passes too many grandparent bytes, and when large enough; together they are exactly the kept entries of the merged input, in order; with 2^56 - 1 as the smallest snapshot they are nothing |
| CompactionOutputs.OutputsBounded | Foti/Pods/leveldb-library/db/version_set.cc:1554-1576 | No output is empty, none would be large enough without its last entry, and none passes over more than the allowed bytes of grandparent files |
| CompactionReads.KeptMeans | Foti/Pods/leveldb-library/db/db_impl.cc:945-960 | What is dropped, in terms of the set of entries: versions older than one that the oldest snapshot sees, and deletions that it sees whose key no deeper file's range holds; nothing else |
| CompactionReads.KeptExactly | Foti/Pods/leveldb-library/db/db_impl.cc:929-963 | Which entries are kept, stated entry by entry |
| CompactionReads.OlderVersionsHidden | Foti/Pods/leveldb-library/db/db_impl.cc:945-948 | A dropped shadowed version has a newer one at or below the smallest snapshot among the inputs |
| CompactionReads.NothingKeptBelow | Foti/Pods/leveldb-library/db/db_impl.cc:929-963 | If the newest visible entry is dropped, no older version of the key is kept |
| CompactionReads.ResurrectionIsVisible | Foti/Pods/leveldb-library/db/db_impl.cc:949-960 | If an obsolete deletion is dropped while an older value survives beside the inputs, some read changes |
| CompactionReads.ReadsSurviveExactlyWhen | Foti/Pods/leveldb-library/db/db_impl.cc:929-963 | Reads at every snapshot from the smallest on survive a compaction if and only if no dropped deletion uncovers an older value among the entries left out |
| CompactionReads.NoFileNoEntry | Foti/Pods/leveldb-library/db/version_set.cc:1533-1552 | A key in no deeper file's range has no deeper entry |
| Installing.UnselectedNewer | Foti/Pods/leveldb-library/db/version_set.cc:1407-1408 | What the inputs leave behind in their level is newer than they are, key by key |
| Installing.UnselectedApart | Foti/Pods/leveldb-library/db/version_set.cc:1410-1411 | Unselected level+1 files lie outside the inputs' range of user keys |
| Installing.CutsDisjoint | Foti/Pods/leveldb-library/db/db_impl.cc:985-997 | Output files cut from the kept entries are valid, sorted and disjoint |
| Installing.ContentsBefore | Foti/Pods/leveldb-library/db/db_impl.cc:860-876 | The version's entries before a compaction are its inputs and the untouched entries |
| Installing.ContentsAfter | Foti/Pods/leveldb-library/db/db_impl.cc:860-876 | After it they are the outputs and the untouched entries |
| Installing.CompactionRewrites | Foti/Pods/leveldb-library/db/db_impl.cc:860-876 | A compaction step rewrites its inputs into files of entries taken from them |
| Installing.MoveRewrites | Foti/Pods/leveldb-library/db/db_impl.cc:712-727 | A trivial move is such a rewriting too |
| Installing.CompactionKeepsInvariant | Foti/Pods/leveldb-library/db/db_impl.cc:860-876 | Installing a compaction keeps levels 1 and up sorted and disjoint, level-0 numbers apart, one entry per key and sequence number, and shallower levels newer |
| CompactionSafety.CompactionKeepsReadsExactlyWhen | Foti/Pods/leveldb-library/db/version_set.cc:1403-1462 | Whole versions before and after a compaction agree on all reads that matter if and only if nothing is resurrected |
| CompactionSafety.OlderUntouched | Foti/Pods/leveldb-library/db/version_set.cc:1407-1422 | Any older version of an input key outside the inputs lies two levels down or in a level+1 file that shares a boundary user key |
| CompactionSafety.ClosedCompactionKeepsReads | Foti/Pods/leveldb-library/db/version_set.cc:1410-1411 | If no unselected level+1 file shares a user key with a selected one, a compaction keeps every read that matters |
| BoundaryHole.ReadChanges | Foti/Pods/leveldb-library/db/version_set.cc:1410-1411 | An instance of a valid version in which the inputs that the code selects, and no others are well selected, compact to a version that reads a value where there was none |
| Flushing.SomeFileOverlapsRange | Foti/Pods/leveldb-library/db/version_set.cc:122-157 | The binary-search overlap test equals the linear one on sorted disjoint files, with open ends |
| Flushing.PickLevelForMemTableOutput | Foti/Pods/leveldb-library/db/version_set.cc:491-516 | The chosen level is the first, up to 2, from which the table may not sink further: sinking needs no file to meet it on the way and not too many bytes two levels below |
| Flushing.MaySinkMeans | Foti/Pods/leveldb-library/db/version_set.cc:491-515 | A flushed table sinks a level exactly if no file down to there has a key in its range and those two levels below its old place come to at most ten times the file size |
| Flushing.FlushKeepsInvariant | Foti/Pods/leveldb-library/db/db_impl.cc:491-533 | Putting the flushed table at that level keeps the version valid and adds exactly its entries |
| Manifest.ReplayEqualsInstalls | Foti/Pods/leveldb-library/db/version_set.cc:650-754 | As sets of files, if no number is added twice at a level, one builder over all edits equals saving after each: what the database's manifests rely on |
| Manifest.ReplayExactly | Foti/Pods/leveldb-library/db/version_set.cc:667-692 | As sets of files, one builder equals saving after every edit, after each of them, if and only if every edit that re-adds the number of a file marked deleted adds that very file |
| Building.ListedReplayExactly | Foti/Pods/leveldb-library/db/version_set.cc:650-754 | As lists, counting repetitions, if and only if every edit is clean: no base file's deletion mark is erased, an added file whose mark is erased is added again, and what is added again had been deleted |
| Building.ReaddedBaseListedTwice | Foti/Pods/leveldb-library/db/version_set.cc:695-754 | An instance: after a base file is deleted and added again one builder lists it twice, saving after each edit lists it once |
| Building.SavedInOrder | Foti/Pods/leveldb-library/db/version_set.cc:695-739 | Saved levels are in key order whatever was applied |
| Building.NextIsInstall | Foti/Pods/leveldb-library/db/version_set.cc:801-821 | While an edit adds no number that the level has, the next version's list is the set of the current files, less the deleted, with the added ones |
| Building.ReplayedIsInstalled | Foti/Pods/leveldb-library/db/version_set.cc:926-1000 | A manifest that adds no number twice at a level replays to the lists that saving after every edit gave |
| Building.InsertBySmallest | Foti/Pods/leveldb-library/db/version_set.cc:596-613 | Inserts in key order; an element with the same smallest key and number is kept instead, as in a std::set |
| Building.Builder.Apply | Foti/Pods/leveldb-library/db/version_set.cc:650-692 | For every edit and level: deletions are marked, added files lose their marks and are inserted |
| Building.Builder.SaveLevel | Foti/Pods/leveldb-library/db/version_set.cc:695-739 | The undeleted files of the level's merged lists, in key order, a file of both lists twice |
| Building.MergeLevel | Foti/Pods/leveldb-library/db/version_set.cc:700-722 | Before each added file go the base files not after it; deleted numbers are left out |
| Building.NextVersion | Foti/Pods/leveldb-library/db/version_set.cc:801-821 | The next version lists what a builder over the current one saves, in order, for any edit |
| Building.Recover | Foti/Pods/leveldb-library/db/version_set.cc:886-1011 | For any edits: fails exactly if a counter is missing, otherwise the counters last set and what one builder over all edits saves |
| Editing.ListsUnique | Foti/Pods/leveldb-library/db/version_set.cc:695-739 | A sorted level is determined by its set of files |
| Editing.FlushEditInstalls | Foti/Pods/leveldb-library/db/db_impl.cc:535-566 | The flush edit, through the Builder, inserts the table in its level and nothing else |
| Editing.CompactionEditInstalls | Foti/Pods/leveldb-library/db/db_impl.cc:860-876 | The compaction edit, through the Builder, replaces the inputs by the outputs |
| Durable.RecoveredIsCurrent | Foti/Pods/leveldb-library/db/version_set.cc:886-1011 | The version recovered from a manifest is the version its writer had |
| Durable.AppendFresh | Foti/Pods/leveldb-library/db/version_set.cc:801-884 | An edit that adds only fresh numbers keeps the manifest replayable |
| Durable.AppendMove | Foti/Pods/leveldb-library/db/db_impl.cc:712-727 | So does a trivial move, which adds an old number one level deeper |
| History.EntriesAppend | Foti/Pods/leveldb-library/db/write_batch.cc:132-137 | Records written one after the other hold the union of their entries |
| History.LaterIsNewer | Foti/Pods/leveldb-library/db/write_batch.cc:116-137 | Later batches hold newer versions than earlier ones |
| History.HistoryDistinct | Foti/Pods/leveldb-library/db/write_batch.cc:116-137 | Sequence numbers of a history are never used twice for a key |
| Recovery.FilesAndRecent | Foti/Pods/leveldb-library/db/db_impl.cc:280-369 | Files that hold a prefix of the history, with the remaining records on top, read like the whole history |
| Recovery.OnlyNewestLive | Foti/Pods/leveldb-library/db/db_impl.cc:543-552 | After SetLogNumber only the new log is replayed |
| Recovery.PruneKeeps | Foti/Pods/leveldb-library/db/db_impl.cc:223-278 | Deleting logs below the manifest's log number removes nothing that would be replayed |
| Recovery.PruneExactly | Foti/Pods/leveldb-library/db/db_impl.cc:223-278 | The logs that are deleted are exactly those that recovery would not replay |
| Recovery.FlushAdvances | Foti/Pods/leveldb-library/db/db_impl.cc:535-566 | A flush moves the immutable memtable's records into the durable files |
| Recovery.EmptyFlushAdvances | Foti/Pods/leveldb-library/db/db_impl.cc:491-533 | So does the flush of an empty memtable, which writes no table |
| Recovery.CompactionInstalls | Foti/Pods/leveldb-library/db/version_set.cc:801-884 | A compaction's edit keeps the manifest replayable and names the installed version |
| Recovery.CompactionVersion | Foti/Pods/leveldb-library/db/db_impl.cc:860-876 | A compaction that resurrects nothing keeps the version standing for the same records from its smallest snapshot on |
| Recovery.MoveVersion | Foti/Pods/leveldb-library/db/db_impl.cc:712-727 | A trivial move keeps it standing exactly |
| Reopening.ReplayAdvances | Foti/Pods/leveldb-library/db/db_impl.cc:371-489 | Replaying logs into level-0 tables, one or several, moves all surviving records into the files |
| Reopening.SnapshotReplays | Foti/Pods/leveldb-library/db/version_set.cc:1088-1116 | The snapshot record of a fresh manifest replays to the current version |
| Reopening.ReopenStands | Foti/Pods/leveldb-library/db/db_impl.cc:1474-1515 | After recovery and its first LogAndApply the new manifest and empty log stand for the whole surviving history |
| DatabaseInvariant.NewDbInv | Foti/Pods/leveldb-library/db/db_impl.cc:182-212 | A new database satisfies the invariant |
| DatabaseInvariant.ReadsAreRight | Foti/Pods/leveldb-library/db/db_impl.cc:1100-1145 | In every state of the invariant, memtables and files read like the acknowledged history from the horizon on |
| DatabaseSteps.LogAppendInv | Foti/Pods/leveldb-library/db/db_impl.cc:1212-1218 | Logging a batch before the memtable keeps the invariant |
| DatabaseSteps.AcknowledgeInv | Foti/Pods/leveldb-library/db/db_impl.cc:1219-1237 | Applying and acknowledging it keeps it |
| DatabaseSteps.SwitchInv | Foti/Pods/leveldb-library/db/db_impl.cc:1346-1366 | Switching to a new log and memtable keeps it |
| DatabaseSteps.TakeSnapshotInv | Foti/Pods/leveldb-library/db/db_impl.cc:1166-1169 | Taking a snapshot keeps it |
| DatabaseSteps.ReleaseSnapshotInv | Foti/Pods/leveldb-library/db/db_impl.cc:1171-1174 | Releasing one keeps it |
| DatabaseSteps.StartCompactionInv | Foti/Pods/leveldb-library/db/db_impl.cc:688-736 | Starting a compaction keeps it |
| DatabaseSteps.BeginFlushInv | Foti/Pods/leveldb-library/db/db_impl.cc:535-566 | Writing the flush edit keeps it, whether or not the edit survives a crash |
| DatabaseSteps.FinishCompactionInv | Foti/Pods/leveldb-library/db/db_impl.cc:860-876 | Writing the edit of a compaction that resurrects nothing keeps it |
| DatabaseSteps.BeginMoveInv | Foti/Pods/leveldb-library/db/db_impl.cc:712-727 | Writing the edit of a trivial move keeps it |
| DatabaseSteps.FinishInstallInv | Foti/Pods/leveldb-library/db/version_set.cc:862-884 | Installing the version whose edit is durable keeps it |
| DatabaseSteps.DeleteObsoleteInv | Foti/Pods/leveldb-library/db/db_impl.cc:223-278 | Deleting obsolete files keeps it |
| DatabaseSteps.CrashInv | Foti/Pods/leveldb-library/db/db_impl.cc:280-369 | A crash that tears a tail off the current log, and perhaps loses an unsynced manifest record, leaves a disk that stands for the surviving prefix |
| DatabaseSteps.FailedRecoveryInv | Foti/Pods/leveldb-library/db/db_impl.cc:1474-1515 | A recovery that dies half way leaves such a disk too |
| DatabaseSteps.ReopenInv | Foti/Pods/leveldb-library/db/db_impl.cc:1474-1515 | Recovery brings it back up with all of the surviving history |
| DatabaseRuns.StepInv | Foti/Pods/leveldb-library/db/db_impl.cc:1185-1256 | Every step of the machine keeps the invariant |
| DatabaseRuns.EveryRunReadsRight | Foti/Pods/leveldb-library/db/db_impl.cc:1100-1145 | In every state of every run, with any number of crashes and recoveries, a read at the current number or at a live snapshot gives v if and only if the last acknowledged operation on the key at or below that number puts v |
| DatabaseRuns.StepHistory | Foti/Pods/leveldb-library/db/db_impl.cc:1212-1237 | A step keeps the history or extends it by the batch in flight; a crash keeps every logged batch but those whose records were torn off the current log's end, and never cuts the synced part |
| DatabaseRuns.SyncedNeverLost | Foti/Pods/leveldb-library/db/db_impl.cc:1215-1218 | What was durable at one moment of a run is a prefix of the history at every later moment |
| Operations.LastDecides | Foti/Pods/leveldb-library/db/write_batch.cc:115-137 | A read of a history's entries is decided by the last operation on the key, in batch order and then in order within a batch: its value if it is a Put, nothing if it is a Delete or there is none |
| Writes.Acknowledged | Foti/Pods/leveldb-library/db/db_impl.cc:1204-1237 | What an acknowledgement adds to the history is exactly the batch last logged, with nothing acknowledged or lost in between |
| Writes.SyncMakesDurable | Foti/Pods/leveldb-library/db/db_impl.cc:1215-1219 | A synced acknowledgement makes the whole history durable, itself included; no other step makes anything durable |
| Writes.SyncedWriteStays | Foti/Pods/leveldb-library/db/db_impl.cc:1215-1219 | After a synced acknowledgement the history of that moment is a prefix of every later one, whatever crashes follow |
| Writes.SnapshotHeld | Foti/Pods/leveldb-library/db/db_impl.cc:1166-1174 | A snapshot is live until it is released or power is lost |
| Writes.SnapshotStands | Foti/Pods/leveldb-library/db/db_impl.cc:1166-1169 | While it is held, a snapshot shows what was readable when it was taken, through writes, flushes, compactions and deletions of files |
| DatabaseProgress.WriteGoesOn | Foti/Pods/leveldb-library/db/db_impl.cc:1185-1256 | In every state of the invariant with no write in flight, a batch can be logged and then acknowledged, with or without a sync |
| DatabaseProgress.SwitchGoesOn | Foti/Pods/leveldb-library/db/db_impl.cc:1346-1366 | A new log and memtable can be started whenever no write is in flight and no memtable is waiting |
| DatabaseProgress.InstallGoesOn | Foti/Pods/leveldb-library/db/version_set.cc:853-870 | An edit that is written can be installed |
| DatabaseProgress.FlushGoesOn | Foti/Pods/leveldb-library/db/db_impl.cc:535-566 | A full memtable can always be written out and its edit logged |
| DatabaseProgress.CompactionGoesOn | Foti/Pods/leveldb-library/db/db_impl.cc:688-767 | A compaction whose level+1 inputs are closed can be picked and finished: the machine excludes none of them |
| DatabaseProgress.PowerMayFail | Foti/Pods/leveldb-library/db/db_impl.cc:1212-1219 | Every tail of the current log that was not synced can be lost in a crash, with or without the last manifest record |
| DatabaseRecovery.RecoveryGoesOn | Foti/Pods/leveldb-library/db/db_impl.cc:280-489 | From every state that a crash or a failed attempt leaves, opening the database succeeds: recovery never gets stuck |
| DatabaseRecovery.EveryRunReopens | Foti/Pods/leveldb-library/db/db_impl.cc:1474-1515 | Along every run, a database that is down, also a new one, has a next step that opens it |
| TornFiles.TornFileIsCrash | Foti/Pods/leveldb-library/db/log_reader.cc:56-271 | Tearing the bytes of the current log's file anywhere after what was synced is a crash step, and what the reader finds in the rest is exactly the batches that the step keeps |
| TornFiles.TornManifest | Foti/Pods/leveldb-library/db/version_set.cc:926-1000 | A manifest's bytes torn anywhere decode to the edits whose records are whole |
| TornFiles.MeaningInLevels | Foti/Pods/leveldb-library/db/version_edit.cc:97-105 | A decoded edit names only levels there are |
| GroupWrites.ActionIsWrite | Foti/Pods/leveldb-library/db/db_impl.cc:1185-1256 | Every action of group commit but a failed write is a logged batch, an acknowledged batch with the front writer's sync flag, or no step of the database, with the same counter and batch in flight; what went through the queue is what was acknowledged since it started |
| GroupRuns.AnsweredIsKept | Foti/Pods/leveldb-library/db/db_impl.cc:1209-1250 | While flushes, compactions and the rest go on beside the queue: a request answered with success has its batch whole in the acknowledged history, and one that asked for a sync has it in the durable part |
| GroupRuns.QueueGoesOn | Foti/Pods/leveldb-library/db/db_impl.cc:1185-1256 | Every action of the queue has its step of the database |
| DatabaseRuns.Lookup | Foti/Pods/leveldb-library/db/db_impl.cc:1100-1145 | DBImpl::Get in any reachable state returns v if and only if the last acknowledged operation on the key that the snapshot may see puts v, and nothing otherwise |
| GroupCommit.BuildBatchGroup | Foti/Pods/leveldb-library/db/db_impl.cc:1258-1306 | The group is the longest prefix of the queue in which everyone may join (size and sync rules), and its batch is their operations in order |
| GroupCommit.GroupExactly | Foti/Pods/leveldb-library/db/db_impl.cc:1258-1306 | A group is: no sync request unless the first one syncs; at most 131072 more bytes beside a first batch of up to 131072, and 1048576 in all beside a larger one; and no fewer requests than that |
| GroupCommit.SyncedGroup | Foti/Pods/leveldb-library/db/db_impl.cc:1282-1285 | In every run, whoever asked for a sync is answered by a writer that syncs |
| GroupCommit.BrokenStays | Foti/Pods/leveldb-library/db/db_impl.cc:1225-1230 | After a failed sync nothing is logged, inserted or acknowledged any more |
| GroupCommit.SlotsCover | Foti/Pods/leveldb-library/db/write_batch.cc:132-137 | The group record's operations are exactly the members' operations at their sequence numbers |
| GroupCommit.StepInv | Foti/Pods/leveldb-library/db/db_impl.cc:1185-1256 | Every interleaving of writers keeps first-in-first-out order, consecutive sequence ranges and the memtable's contents |
| GroupCommit.OneWriter | Foti/Pods/leveldb-library/db/db_impl.cc:1208-1233 | At most one writer, the front one, prepares or writes at any time |
| GroupCommit.AnswersStand | Foti/Pods/leveldb-library/db/db_impl.cc:1239-1250 | A writer is answered once, in queue order, and its answer never changes |
| GroupCommit.NoPartialBatch | Foti/Pods/leveldb-library/db/db_impl.cc:1219-1237 | At the last sequence number every batch is in the memtable whole or not at all |
| GroupCommit.SuccessIsVisible | Foti/Pods/leveldb-library/db/db_impl.cc:1219-1237 | A batch answered with success is visible, whole, at consecutive numbers |
| GroupCommit.RangesInOrder | Foti/Pods/leveldb-library/db/db_impl.cc:1202-1207 | Different writers' ranges are disjoint and in queue order |
| WriteBatches.WriteBatch.Put | Foti/Pods/leveldb-library/db/write_batch.cc:98-103 | The count goes up by one, modulo 2^32, and the type byte and both strings follow: a batch of these operations becomes one with one more |
| WriteBatches.WriteBatch.Delete | Foti/Pods/leveldb-library/db/write_batch.cc:105-109 | The same for a deletion |
| WriteBatches.WriteBatch.Append | Foti/Pods/leveldb-library/db/write_batch.cc:144-148 | The other batch's operations follow this one's, under this one's number, also if it is the same batch |
| WriteBatches.WriteBatch.SetSequence | Foti/Pods/leveldb-library/db/write_batch.cc:94-96 | The same operations under another number |
| WriteBatches.WriteBatch.Iterate | Foti/Pods/leveldb-library/db/write_batch.cc:42-80 | From any bytes: the operations up to the end or the first that cannot be read reach the memtable under consecutive numbers; then the status, a wrong count included |
| WriteBatches.InsertInto | Foti/Pods/leveldb-library/db/write_batch.cc:115-137 | They are numbered from the batch's own number on |
| WriteBatches.BatchReads | Foti/Pods/leveldb-library/db/write_batch.cc:42-92 | A batch is read back: number, operations in order, and a count that agrees |
| WriteBatches.OpsThenRest | Foti/Pods/leveldb-library/db/write_batch.cc:50-74 | Operations in front of any bytes are read, and reach the memtable, whatever is wrong with what follows |
| WriteBatches.InsertedIsRecord | Foti/Pods/leveldb-library/db/write_batch.cc:115-137 | What a batch inserts is the entries that the histories of this project give its operations |
| WriteBatches.ExampleBatch | Foti/Pods/leveldb-library/db/write_batch.cc:5-14 | A batch of one put and one deletion, byte for byte |
| SkipLists.LoadNext | Foti/Pods/leveldb-library/db/skiplist.h:260-281 | What one load tells a search that stands at a node of a level |
| SkipLists.SkipList.FindGreaterOrEqual | Foti/Pods/leveldb-library/db/skiplist.h:260-281 | The first node not before the key, and the predecessors at every level |
| SkipLists.SkipList.FindLessThan | Foti/Pods/leveldb-library/db/skiplist.h:283-302 | The last node before the key, or the head |
| SkipLists.SkipList.FindLast | Foti/Pods/leveldb-library/db/skiplist.h:304-322 | The last node, or the head |
| SkipLists.SkipList.Contains | Foti/Pods/leveldb-library/db/skiplist.h:370-378 | Whether the key is in the list |
| SkipLists.SkipList.Insert | Foti/Pods/leveldb-library/db/skiplist.h:336-368 | The contents become the sorted contents with the key inserted, whatever the random height and the garbage in new memory |
| SkipLists.Publish | Foti/Pods/leveldb-library/db/skiplist.h:360-365 | The store that links a node into one level keeps every level sorted and inside the level below |
| SkipLists.Iterator.Seek | Foti/Pods/leveldb-library/db/skiplist.h:223-226 | The iterator moves as a cursor over the sorted contents |
| SkipLists.Iterator.Prev | Foti/Pods/leveldb-library/db/skiplist.h:212-221 | Stepping back by searching again is stepping back in the list |
| SkipListReaders.WriterStepInv | Foti/Pods/leveldb-library/db/skiplist.h:336-368 | Every single store of an insertion keeps the levels sorted and nested, and every search in progress stands where it may |
| SkipListReaders.NewListInv | Foti/Pods/leveldb-library/db/skiplist.h:324-334 | A new list satisfies the invariant |
| SkipListReaders.LoadInv | Foti/Pods/leveldb-library/db/skiplist.h:260-281 | Every single load keeps the reader's position right and, if it is the last, answers for the list of that moment |
| SkipListReaders.RunInv | Foti/Pods/leveldb-library/db/skiplist.h:21-28 | In every interleaving, between any two stores, the levels are sorted and nested |
| SkipListReaders.EverySearchRight | Foti/Pods/leveldb-library/db/skiplist.h:260-322 | A search that ends at any point of any run returns exactly the right node of the list at its last load and misses no key that was there when it began |
| Merging.SmallestIsNext | Foti/Pods/leveldb-library/table/merger.cc:148-161 | If all children stand at their first entry not before a merged position, the smallest current key is the merge's next entry |
| Merging.LargestIsPrevious | Foti/Pods/leveldb-library/table/merger.cc:163-176 | The mirror image for reverse iteration |
| Merging.MergeExists | Foti/Pods/leveldb-library/table/merger.cc:14-30 | Sorted children without shared keys have exactly one merge |
| Merging.MergingIterator.SeekToFirst | Foti/Pods/leveldb-library/table/merger.cc:31-37 | Position 0 of the merge |
| Merging.MergingIterator.SeekToLast | Foti/Pods/leveldb-library/table/merger.cc:39-45 | The last position |
| Merging.MergingIterator.Seek | Foti/Pods/leveldb-library/table/merger.cc:47-53 | The merge's first entry not before the target |
| Merging.MergingIterator.Next | Foti/Pods/leveldb-library/table/merger.cc:55-79 | One position on, also right after moving backwards |
| Merging.MergingIterator.Prev | Foti/Pods/leveldb-library/table/merger.cc:81-108 | One position back, also right after moving forwards; not valid before the first |
| DbIteration.DBIter.FindNextUserEntry | Foti/Pods/leveldb-library/db/db_iter.cc:168-198 | From any state of a forward scan, the next entry that the snapshot shows |
| DbIteration.DBIter.FindPrevUserEntry | Foti/Pods/leveldb-library/db/db_iter.cc:227-267 | From any state of a backward scan, the previous one |
| DbIteration.DBIter.Next | Foti/Pods/leveldb-library/db/db_iter.cc:141-166 | One step forward in the view, across direction switches |
| DbIteration.DBIter.Prev | Foti/Pods/leveldb-library/db/db_iter.cc:200-225 | One step back in the view, across direction switches |
| DbIteration.DBIter.Seek | Foti/Pods/leveldb-library/db/db_iter.cc:269-281 | The first shown user key not before the target |
| DbIteration.DBIter.SeekToFirst | Foti/Pods/leveldb-library/db/db_iter.cc:283-292 | The first element of the view |
| DbIteration.DBIter.SeekToLast | Foti/Pods/leveldb-library/db/db_iter.cc:294-299 | The last element of the view |
| DbIteration.DBIter.Key | Foti/Pods/leveldb-library/db/db_iter.cc:64-67 | The key of the view's current element, in either direction |
| DbIteration.DBIter.ValueOf | Foti/Pods/leveldb-library/db/db_iter.cc:68-71 | Its value |
| DbIteration.ViewIsRead | Foti/Pods/leveldb-library/db/db_iter.cc:168-198 | The view lists, in strictly increasing order, exactly the keys a lookup at the snapshot finds, with the values it returns |
| TwoLevel.TwoLevelIterator.Seek | Foti/Pods/leveldb-library/table/two_level_iterator.cc:82-87 | The first entry of the concatenation not before the target, skipping empty blocks |
| TwoLevel.TwoLevelIterator.SeekToFirst | Foti/Pods/leveldb-library/table/two_level_iterator.cc:89-94 | The first entry of the concatenation |
| TwoLevel.TwoLevelIterator.SeekToLast | Foti/Pods/leveldb-library/table/two_level_iterator.cc:96-101 | The last one |
| TwoLevel.TwoLevelIterator.Next | Foti/Pods/leveldb-library/table/two_level_iterator.cc:103-107 | One entry on |
| TwoLevel.TwoLevelIterator.Prev | Foti/Pods/leveldb-library/table/two_level_iterator.cc:109-113 | One entry back |
| Bytewise.RankOrder | Foti/Pods/leveldb-library/util/comparator.cc:25-27 | The comparator's order on byte strings is the order of their ranks among the reals, and ranks tell strings apart |
| Bytewise.Lexicographic | Foti/Pods/leveldb-library/include/leveldb/slice.h:101-111 | The order is decided by the first byte that differs, a proper prefix coming first |
| Bytewise.TagParts | Foti/Pods/leveldb-library/db/dbformat.cc:14-18 | The trailer of an internal key has the sequence number in its upper seven bytes and the type, 1 for a value and 0 for a deletion, in the lowest, and fits 64 bits |
| Bytewise.FindShortestSeparator | Foti/Pods/leveldb-library/util/comparator.cc:29-50 | The first differing byte of start is incremented and the rest cut off, exactly if the result stays before limit's byte; otherwise start; so a string no longer than start, from start on and before limit |
| Bytewise.FindShortSuccessor | Foti/Pods/leveldb-library/util/comparator.cc:52-64 | The first byte other than 0xff is incremented and the rest cut off; unchanged exactly for a run of 0xff |
| Bytewise.AbstractOrder | Foti/Pods/leveldb-library/db/dbformat.cc:51-67 | Encoded internal keys are ordered as the abstract ones |
| Bytewise.FindInternalSeparator | Foti/Pods/leveldb-library/db/dbformat.cc:69-86 | The separating user key with the greatest sequence number, exactly if it is shorter than that of start; from start on, before limit, and its user key strictly between theirs if it changed |
| Bytewise.FindInternalSuccessor | Foti/Pods/leveldb-library/db/dbformat.cc:88-101 | The successor of the user key with the greatest sequence number, exactly if that is shorter; not before the key |
| Coding.EncodeFixed32 | Foti/Pods/leveldb-library/util/coding.cc:9-18 | Four bytes that decode to the number |
| Coding.VarintRoundTrip | Foti/Pods/leveldb-library/util/coding.cc:81-155 | Reading a varint gives the number back and ends where it ended |
| Coding.VarintLength | Foti/Pods/leveldb-library/util/coding.cc:47-73 | 32-bit numbers take at most five bytes |
| Coding.FixedLayout | Foti/Pods/leveldb-library/util/coding.cc:9-18 | Fixed 32-bit numbers are written with the least significant byte first |
| Coding.FixedNumber | Foti/Pods/leveldb-library/util/coding.h:62-75 | They are read back with the least significant byte first |
| Coding.Varint32Cut | Foti/Pods/leveldb-library/util/coding.cc:112-128 | Of a number of at most five bytes the low 32 bits are read, a longer one is refused |
| LogFormat.UnmaskMask | Foti/Pods/leveldb-library/util/crc32c.h:29-38 | Masked checksums unmask to themselves |
| LogFormat.Writer.AddRecord | Foti/Pods/leveldb-library/db/log_writer.cc:34-108 | A record is appended as its fragments, none crossing a block, with trailers filled |
| LogReading.Reader.ReadPhysicalRecord | Foti/Pods/leveldb-library/db/log_reader.cc:189-271 | What the reader makes of the next bytes of any file |
| LogReading.Reader.ReadRecord | Foti/Pods/leveldb-library/db/log_reader.cc:56-174 | How it puts fragments together in any file, and what it reports |
| LogReading.ReadLog | Foti/Pods/leveldb-library/db/db_impl.cc:415-423 | Reading until there are no more records |
| LogLayout.HeaderBytes | Foti/Pods/leveldb-library/db/log_writer.cc:82-108 | A header is the masked checksum of type and payload, the length and the type, byte for byte |
| LogLayout.NextPiece | Foti/Pods/leveldb-library/db/log_writer.cc:35-80 | In numbers: up to six bytes left of a block of 32768 are zeros; a fragment takes what fits, and has type 1 if whole, 2 if first, 4 if last, 3 otherwise |
| LogLayout.OneRecord | Foti/Pods/leveldb-library/db/log_writer.cc:35-80 | A short record in a new log is one fragment of type 1 |
| LogLayout.GotExactly | Foti/Pods/leveldb-library/db/log_reader.cc:189-271 | A buffer yields a fragment exactly if it starts with one byte for byte as it is written, checksum included |
| LogLayout.GivenUp | Foti/Pods/leveldb-library/db/log_reader.cc:216-262 | Anything else costs the rest of its block, whose size is reported but for a cut-off end of file and unused zeros |
| LogLayout.ReadsOnlyRecords | Foti/Pods/leveldb-library/db/log_reader.cc:56-174 | From any bytes at all, every record that a reader gets is one fragment of type 1 or adjoining ones of types 2, 3, ..., 4 that stand in the file, in order, none used twice |
| LogLayout.NothingLost | Foti/Pods/leveldb-library/db/log_reader.cc:83-172 | Payload is returned, kept or reported: its bytes balance at every fragment, but for a record begun at the end of the file |
| LogRoundTrip.PhysicalAt | Foti/Pods/leveldb-library/db/log_reader.cc:189-271 | At a fragment of a written log the reader gets the fragment, or the end of the file if it is torn there, and reports nothing |
| LogRoundTrip.LogicalAt | Foti/Pods/leveldb-library/db/log_reader.cc:56-174 | At a record it gets the record, or nothing if it is torn |
| LogRoundTrip.TornLogReads | Foti/Pods/leveldb-library/db/log_reader.cc:56-271 | Every prefix of a log's bytes reads as exactly the records wholly inside it, without a report of corruption |
| LogRoundTrip.RoundTrip | Foti/Pods/leveldb-library/db/log_writer.cc:34-108 | The whole log reads as what was written |
| LogRoundTrip.WriteTearRead | Foti/Pods/leveldb-library/db/log_writer.cc:34-108 | The same through the writer and reader objects |
| EditCoding.EditRoundTrip | Foti/Pods/leveldb-library/db/version_edit.cc:41-205 | Decoding an encoded edit gives it back, after the compaction pointers the object already had |
| EditCoding.FreshEditRoundTrip | Foti/Pods/leveldb-library/db/version_edit.cc:26-39 | It comes back unchanged if and only if the object had none, since Clear keeps them |
| EditCoding.VersionEdit.EncodeTo | Foti/Pods/leveldb-library/db/version_edit.cc:41-85 | The parts of the edit in order, the deleted files in any order of their set |
| EditCoding.VersionEdit.DecodeFrom | Foti/Pods/leveldb-library/db/version_edit.cc:107-205 | What every input decodes to, and when it is Corruption |
| EditCoding.EncodeDecode | Foti/Pods/leveldb-library/db/version_edit.cc:41-205 | The same through the objects |
| EditBytes.TagLeads | Foti/Pods/leveldb-library/db/version_edit.cc:14-24 | Every part starts with its tag: 1 to 7 and 9 |
| EditBytes.BodyLeads | Foti/Pods/leveldb-library/db/version_edit.cc:41-80 | What follows each tag, number by number and string by string |
| EditBytes.LastCounts | Foti/Pods/leveldb-library/db/version_edit.cc:107-198 | In a record with its parts in any order, each number is the last one given |
| EditBytes.Refused | Foti/Pods/leveldb-library/db/version_edit.cc:107-205 | An unknown tag or a level that does not exist makes a record corrupt |
| EditBytes.NoTagRefused | Foti/Pods/leveldb-library/db/version_edit.cc:200-205 | So do bytes behind the last part that are no tag |
| Blocks.BlockBuilder.Add | Foti/Pods/leveldb-library/table/block_builder.cc:72-106 | Entries are laid out one after the other with shared prefixes, every interval-th one whole |
| Blocks.BlockBuilder.Finish | Foti/Pods/leveldb-library/table/block_builder.cc:62-70 | The restart array and its length follow |
| Blocks.BlockBuilder.CurrentSizeEstimate | Foti/Pods/leveldb-library/table/block_builder.cc:56-60 | The size that the entries determine: each key shares all it can with the one before, except at every interval-th entry, and there is a restart word for each of these |
| BlockIteration.EntryDecodes | Foti/Pods/leveldb-library/table/block.cc:54-74 | Parsing at an entry's offset finds its parts, fast path or slow |
| BlockIteration.Iter.ParseNextKey | Foti/Pods/leveldb-library/table/block.cc:224-251 | From the state before an entry to the entry |
| BlockIteration.Iter.Next | Foti/Pods/leveldb-library/table/block.cc:137-140 | One entry on |
| BlockIteration.Iter.Prev | Foti/Pods/leveldb-library/table/block.cc:142-161 | One entry back, by rescanning from a restart point |
| BlockIteration.Iter.Seek | Foti/Pods/leveldb-library/table/block.cc:163-201 | The first entry whose key is not less than the target, for every transitive order that sorts the keys |
| BlockIteration.Iter.SeekToFirst | Foti/Pods/leveldb-library/table/block.cc:203-206 | The first entry |
| BlockIteration.Iter.SeekToLast | Foti/Pods/leveldb-library/table/block.cc:208-213 | The last entry |
| BlockIteration.RoundTrip | Foti/Pods/leveldb-library/table/block_builder.cc:62-106 | A block is built exactly if its computed size is below 2^32, has that size, and iterating over it gives exactly the pairs that were added |
| BlockBytes.EntryLeads | Foti/Pods/leveldb-library/table/block_builder.cc:72-107 | An entry is three numbers, shared bytes, other bytes and value length, and then those bytes |
| BlockBytes.SharesAll | Foti/Pods/leveldb-library/table/block_builder.cc:77-90 | An entry shares the longest common prefix, or nothing at every interval-th entry |
| BlockBytes.ShortCutAgrees | Foti/Pods/leveldb-library/table/block.cc:54-75 | The short cut for three one-byte lengths reads, of any bytes, what the general way reads |
| BlockBytes.ExampleBlock | Foti/Pods/leveldb-library/table/block_builder.cc:62-107 | A block of two entries, byte for byte |
| Filters.CreateFilter | Foti/Pods/leveldb-library/util/bloom.cc:28-54 | At least 64 bits, rounded up to whole bytes, with 1 to 30 probes; a bit is set exactly if one of the keys' probes falls on it, so every key added matches |
| Filters.ProbeIs | Foti/Pods/leveldb-library/util/bloom.cc:43-52 | The j-th probe is the hash plus j times the hash rotated right by 17 bits, modulo 2^32 |
| Filters.KeyMayMatch | Foti/Pods/leveldb-library/util/bloom.cc:56-80 | True exactly if all the key's probes are set, or the encoding is unknown |
| Filters.FilterBlockBuilder.StartBlock | Foti/Pods/leveldb-library/table/filter_block.cc:21-27 | One filter for each 2048 bytes of offset: the keys since the last one go into the next, the others are empty; no key loses its filter |
| Filters.FilterBlockBuilder.Finish | Foti/Pods/leveldb-library/table/filter_block.cc:35-50 | Every key added is in the filter of its block's range of offsets, and every filter is that of its own keys and no others |
| FilterBlocks.FinishBlock | Foti/Pods/leveldb-library/table/filter_block.cc:35-50 | The bytes of the block: filters, their offsets, where the offsets start, and the base |
| FilterBlocks.MayMatch | Foti/Pods/leveldb-library/table/filter_block.cc:77-104 | Reading those bytes answers like the filters themselves, offset arithmetic and the last filter included |
| FilterBlocks.FilterSurvives | Foti/Pods/leveldb-library/util/bloom.cc:28-80 | A filter's bits and probe count come back from its bytes |
| FilterBlocks.BitOrder | Foti/Pods/leveldb-library/util/bloom.cc:48-51 | Bit i of a filter is bit i % 8 of byte i / 8 |
| Tables.TableBuilder.Add | Foti/Pods/leveldb-library/table/table_builder.cc:94-123 | Blocks, delayed index entries and filters stay consistent with the entries added |
| Tables.TableBuilder.Finish | Foti/Pods/leveldb-library/table/table_builder.cc:198-253 | The finished table holds all entries, its index keys are the comparator's separators of the blocks and its successor of the last key, and its filters cover every user key |
| Tables.IndexAscends | Foti/Pods/leveldb-library/table/table_builder.cc:102-109 | Shortened index keys are still strictly increasing |
| Tables.InternalGet | Foti/Pods/leveldb-library/table/table.cc:216-244 | Reports the first entry not before the key, or nothing, and nothing only if that entry has another user key |
| Tables.Get | Foti/Pods/leveldb-library/db/table_cache.cc:100-112 | A lookup of a user key at a snapshot reports what the table holds for it, as the level-by-level lookup assumes |
| Tables.BetweenBlocks | Foti/Pods/leveldb-library/table/table_builder.cc:94-109 | A key between a block's last key and its index key has a user key that no later entry has |
| Tables.RuledOut | Foti/Pods/leveldb-library/util/bloom.cc:56-80 | A filter never rules out a user key that the block has |
| CacheTable.HandleTable.Insert | Foti/Pods/leveldb-library/util/cache.cc:78-92 | The table is the map with the key set, and returns the entry it replaced |
| CacheTable.HandleTable.Remove | Foti/Pods/leveldb-library/util/cache.cc:94-102 | The map without the key, and the entry it had |
| CacheTable.HandleTable.Lookup | Foti/Pods/leveldb-library/util/cache.cc:74-76 | The map's entry |
| CacheTable.HandleTable.Resize | Foti/Pods/leveldb-library/util/cache.cc:122-146 | Rehashing keeps the map and gives at least one bucket for every entry |
| CacheTable.BucketIsRemainder | Foti/Pods/leveldb-library/util/cache.cc:114-120 | Masking with the power of two less one is taking the remainder of the hash |
| Rings.Unlink | Foti/Pods/leveldb-library/util/cache.cc:239-242 | The two stores take the element out of its ring, wherever it is |
| Rings.Append | Foti/Pods/leveldb-library/util/cache.cc:244-250 | The four stores make it the newest element |
| Cache.LRUCache.Lookup | Foti/Pods/leveldb-library/util/cache.cc:252-259 | The map's entry, with one more client; an idle entry leaves the LRU list |
| Cache.LRUCache.Release | Foti/Pods/leveldb-library/util/cache.cc:261-264 | One client fewer; the deleter runs if that was the last reference, and a cached entry becomes the newest idle one |
| Cache.LRUCache.Insert | Foti/Pods/leveldb-library/util/cache.cc:266-303 | The key maps to the new entry, the replaced one leaves, and the n oldest idle entries are deleted in order, until usage fits or none is idle, and no more than needed |
| Cache.EvictsFewest | Foti/Pods/leveldb-library/util/cache.cc:293-300 | Before every eviction the cache was over its capacity, and after the last it is not, or nothing is idle |
| Cache.LRUCache.Erase | Foti/Pods/leveldb-library/util/cache.cc:318-321 | The key leaves the map; its entry is deleted now if no client holds it |
| Cache.LRUCache.Prune | Foti/Pods/leveldb-library/util/cache.cc:323-333 | All idle entries are deleted, oldest first, and entries in use stay |
| Cache.LRUCache.Unref | Foti/Pods/leveldb-library/util/cache.cc:225-237 | The deleter runs exactly when the count reaches zero |
| Cache.Dropped | Foti/Pods/leveldb-library/util/cache.cc:225-237 | Dropping a reference keeps the counts, the lists' meaning and deleted-exactly-once |
| Snapshots.SnapshotList.New | Foti/Pods/leveldb-library/db/snapshot.h:57-70 | The live sequence numbers with the new one last |
| Snapshots.SnapshotList.Delete | Foti/Pods/leveldb-library/db/snapshot.h:79-86 | Without the released one, wherever it stands |
| Snapshots.SnapshotList.Oldest | Foti/Pods/leveldb-library/db/snapshot.h:47-50 | The least live sequence number, which limits what a compaction may drop |
| Snapshots.SnapshotList.Empty | Foti/Pods/leveldb-library/db/snapshot.h:46 | Whether no snapshot is live |
| ProtoSchema.DefaultsHold | Foti/Pods/nanopb/pb_decode.c:845-928 | Default messages are in range at every nesting depth, except for what defaults do not set: elements of fixed-count arrays |
| ProtoSchema.DefaultsAt | Foti/Pods/nanopb/pb_decode.c:845-928 | Each field of a default message, also one in a union, has its own default |
| ProtoSchema.DefaultIs | Foti/Pods/nanopb/pb_decode.c:826-917 | What every field holds before decoding: its explicit default or zero; no flag set, arrays empty, no member of a union selected |
| ProtoSchema.ZeroIs | Foti/Pods/nanopb/pb_decode.c:862-895 | Zero is 0, no bytes, an empty string, zeros for bytes of a fixed length, and the defaults for a submessage |
| ProtoSchema.StorageShared | Foti/Pods/nanopb/pb_common.c:53-59 | Fields have storage of their own, but for those of one union |
| ProtoIteration.FieldIter.Next | Foti/Pods/nanopb/pb_common.c:29-85 | One step around the field list; the fields of a union share their storage, and required fields are counted |
| ProtoIteration.FieldIter.Find | Foti/Pods/nanopb/pb_common.c:87-104 | Found exactly if some field has the tag, and then the first one at or after the position, walking around; a failed search ends where it began |
| ProtoIteration.FoundAnywhere | Foti/Pods/nanopb/pb_common.c:87-104 | With distinct tags the search gives the same field wherever it starts |
| ProtoWriting.OStream.Write | Foti/Pods/nanopb/pb_encode.c:103-124 | Bytes are appended if they fit, refused otherwise; a sizing stream only counts |
| ProtoWriting.SevenBitGroups | Foti/Pods/nanopb/pb_encode.c:608-628 | The loop of pb_encode_varint writes the base-128 form of every 64-bit number in at most ten bytes |
| ProtoWriting.OStream.WriteSVarint | Foti/Pods/nanopb/pb_encode.c:630-639 | The complement-and-shift form is the zigzag encoding |
| ProtoWriting.OStream.WriteArray | Foti/Pods/nanopb/pb_encode.c:147-236 | Arrays longer than their storage are refused; packable ones are written packed with their exact size first |
| ProtoWriting.PackedFixed | Foti/Pods/nanopb/pb_encode.c:169-177 | Fixed-width packed data takes 4 or 8 bytes an element, as the shortcut assumes |
| ProtoWriting.OStream.WriteField | Foti/Pods/nanopb/pb_encode.c:341-426 | A field is written exactly if present: by has-flag, non-default value, count or oneof tag |
| ProtoWriting.OStream.WriteSubmessage | Foti/Pods/nanopb/pb_encode.c:717-765 | Counts, then writes: never ends with a changed size, succeeds exactly if the content fits its fields and the stream has room, and writes length and content |
| ProtoWriting.SubstreamFills | Foti/Pods/nanopb/pb_encode.c:745-764 | The writing pass fills exactly the substream that the sizing pass measured |
| ProtoWriting.OStream.WriteMessage | Foti/Pods/nanopb/pb_encode.c:528-550 | Writes the encoding of every present field in order; succeeds exactly if counts and sizes are within bounds and the stream has room; never writes past the buffer |
| ProtoWriting.EncodedSize | Foti/Pods/nanopb/pb_encode.c:567-576 | The sizing stream tells the exact length of the encoding, or fails exactly if encoding would |
| ProtoWriting.EncodeInto | Foti/Pods/nanopb/pb_encode.c:528-550 | Encoding into a buffer succeeds exactly if the message fits its fields and its encoding fits the buffer, whose content it then is |
| ProtoNumbers.VarintSurvives | Foti/Pods/nanopb/pb_decode.c:255-275 | 64-bit varints come back |
| ProtoNumbers.Varint32Survives | Foti/Pods/nanopb/pb_decode.c:187-252 | 32-bit varints come back |
| ProtoVarints.Varint32Right | Foti/Pods/nanopb/pb_decode.c:187-252 | The 32-bit decoder returns a number right if and only if it is below 2^32, whatever its padding and length |
| ProtoVarints.Varint32Wrong | Foti/Pods/nanopb/pb_decode.c:187-252 | It returns a wrong number if and only if one of 2^32 or more takes six bytes or more, each from the sixth on being padding or extending the sign of the low 32 bits; for numbers with only padding from the 38th byte on |
| ProtoVarints.Varint32Accepted | Foti/Pods/nanopb/pb_decode.c:187-252 | Exactly which numbers with only padding from the 38th byte on are accepted; the result is their low 32 bits |
| ProtoVarints.Varint32Exactly | Foti/Pods/nanopb/pb_decode.c:187-252 | For numbers of any length: accepted if and only if every byte passes at its position, which the eight-bit shift makes wrap around; the result is the bytes or-ed at those positions |
| ProtoVarints.WrongAtAnyLength | Foti/Pods/nanopb/pb_decode.c:187-252 | For numbers of any length: returned wrong if and only if 2^32 or more, every byte passes at its position, and the last one has no high bits when the shift stands at 35 |
| ProtoVarints.AcceptedIsNumber | Foti/Pods/nanopb/pb_decode.c:187-252 | What is accepted ends where a whole number ends |
| ProtoVarints.PaddedNumberLosesBits | Foti/Pods/nanopb/pb_decode.c:210-242 | An instance: 2^32 padded to six bytes is read as 0, in five bytes it is refused |
| ProtoVarints.WrappedNumber | Foti/Pods/nanopb/pb_decode.c:213-235 | An instance: 37 padding bytes and a 1, the number 2^259, are read as 8 |
| ProtoNumbers.ScalarSurvives | Foti/Pods/nanopb/pb_decode.c:1334-1445 | Every packable value, of every integer width and sign, comes back |
| ProtoNumbers.BlobSurvives | Foti/Pods/nanopb/pb_decode.c:1447-1570 | Bytes and strings within bounds come back; a string is refused exactly if it leaves no room for its NUL |
| ProtoNumbers.CountedSurvives | Foti/Pods/nanopb/pb_decode.c:372-400 | A substream covers exactly the bytes that the length prefix counts |
| ProtoParsing.StoreKeeps | Foti/Pods/nanopb/pb_decode.c:406-483 | Storing a field, also into a union, keeps the whole struct in range |
| ProtoParsing.ParseMessage | Foti/Pods/nanopb/pb_decode.c:934-1082 | From any bytes, decoding leaves the struct in range: strings, arrays and numbers stay within their storage; only elements of fixed-count arrays may stay unset |
| ProtoReading.IStream.ReadVarint | Foti/Pods/nanopb/pb_decode.c:255-275 | The loop reads the base-128 number, cut to 64 bits, of at most ten bytes |
| ProtoReading.IStream.ReadVarint32 | Foti/Pods/nanopb/pb_decode.c:187-252 | The loop agrees with its specification on every input: overflow checks and the wrap-around of the eight-bit shift included |
| ProtoReading.IStream.SkipField | Foti/Pods/nanopb/pb_decode.c:278-331 | Skips exactly one record of the given wire type, or fails where the bytes do not hold one |
| ProtoReading.IStream.ReadArrayField | Foti/Pods/nanopb/pb_decode.c:997-1019 | The redirected count of fixed-count arrays, kept across records, gives the array record's meaning whatever state the iterator is in |
| ProtoReading.IStream.ReadMessage | Foti/Pods/nanopb/pb_decode.c:934-1082 | The decoding loop with its persistent iterator and counters does what the specification says of the bytes, on every input |
| ProtoReading.CountRequired | Foti/Pods/nanopb/pb_decode.c:1039-1060 | Walking on from any position counts all required fields of the message, at most 64 |
| ProtoReading.MessageDefaults | Foti/Pods/nanopb/pb_decode.c:917-928 | Sets every field to its default, unions once, and leaves fixed-count arrays unset |
| ProtoReading.Decode | Foti/Pods/nanopb/pb_decode.c:1084-1096 | From a whole buffer into defaults: succeeds exactly if every record can be read, the last fixed-count array to have one is full, and each of the first 64 required fields has one |
| ProtoRoundTrip.DefaultValueRestored | Foti/Pods/nanopb/pb_encode.c:240-337 | What the proto3 check leaves out is restored by the defaults, nested messages included |
| ProtoDefaults.LeftOutExactly | Foti/Pods/nanopb/pb_encode.c:240-337 | A proto3 value is left out if and only if it is the same as the default and of a kind that can be: no bytes of a fixed length, no message with a field that is always written, no stray union selector |
| ProtoMerging.MergedStands | Foti/Pods/nanopb/pb_decode.c:406-483 | Storing a present field disturbs no other present one, also not in a union |
| ProtoMerging.PackedSurvives | Foti/Pods/nanopb/pb_decode.c:425-454 | A packed array's elements follow those already there, in order, exactly if there is room for all of them |
| ProtoMerging.FieldsSurvive | Foti/Pods/nanopb/pb_decode.c:934-1082 | From any field on and onto any struct, the rest of an encoding takes the decoder past all fields, or stops it at the first that does not fit |
| ProtoMerging.ValueSurvives | Foti/Pods/nanopb/pb_decode.c:1525-1547 | Every value, submessages to any depth, is merged with the one before it, or stops the decoder exactly if a string or array in it has no room |
| ProtoMerging.MessageSurvives | Foti/Pods/nanopb/pb_decode.c:934-1082 | pb_decode_noinit onto any struct merges the encoded message with it, exactly if it fits |
| ProtoConcatenation.OneMerged | Foti/Pods/nanopb/pb_decode.c:406-483 | What a merge comes to is determined, for every field, union and array |
| ProtoConcatenation.Concatenation | Foti/Pods/nanopb/pb_decode.c:934-1082 | Two encodings one after the other decode to the second message merged into the first: last single values, joined arrays, merged submessages, last member of a union; this fails exactly if it does not fit or if the message has exactly one fixed-count array |
| ProtoRoundTrip.RoundTrip | Foti/Pods/nanopb/pb_decode.c:1084-1096 | Decoding an encoded message restores presence flags, counts, oneof tags and present values, and sets defaults for the rest, if and only if every present string leaves room for its NUL |
| ProtoRoundTrip.DecodedFits | Foti/Pods/nanopb/pb_decode.c:1447-1523 | Whatever the decoder has stored, with nothing unset, the encoder accepts: bytes and arrays that just fit included |
| ProtoRoundTrip.UnknownFieldSkipped | Foti/Pods/nanopb/pb_decode.c:964-995 | A record of a field that the descriptor does not know, of whatever kind, is passed over whole |
| ProtoRecords.MessageExactly | Foti/Pods/nanopb/pb_decode.c:1029-1078 | Reading a message succeeds exactly if its records can be read, the last fixed-count array's elements, counted over its records, are all there, and each of the first 64 required fields has a record |
| ProtoRecords.EmptyBuffer | Foti/Pods/nanopb/pb_decode.c:1039-1078 | The empty buffer is a message exactly if no field is required |
| ProtoRecords.FixedWhole | Foti/Pods/nanopb/pb_decode.c:999-1036 | In a decoded message an array of a fixed count has all its elements, or none if no record came for it |
| ProtoInputs.UnknownPassed | Foti/Pods/nanopb/pb_decode.c:321-331 | An unknown record with a key of 1 modulo 8 takes eight bytes, 5 four, 2 a length and as many; 3, 4, 6 and 7 are refused |
| ProtoInputs.UnknownNumberPassed | Foti/Pods/nanopb/pb_decode.c:278-287 | An unknown record with a key of 0 modulo 8 ends with its first byte below 128 |
| ProtoInputs.MarkerRead | Foti/Pods/nanopb/pb_decode.c:964-995 | Of a message without fields, a record with tag 0 and any wire type is taken for the end marker of the descriptor: one number is read, and dropped |
| ProtoInputs.ZeroEnds | Foti/Pods/nanopb/pb_decode.c:298-319 | A key of 0 ends a message as the end of its bytes does |
| ProtoInputs.SubmessageSpan | Foti/Pods/nanopb/pb_decode.c:372-400 | A submessage takes up the bytes its length says, wherever in them it ends |
| ProtoInputs.IntegerRead | Foti/Pods/nanopb/pb_decode.c:1285-1428 | What is stored of any 64-bit number, for every width: modulo 2^32 or 2^64 if signed, itself if unsigned, what it stands for if zigzag; refused exactly if that is out of range |
| ProtoInputs.BoolRead | Foti/Pods/nanopb/pb_decode.c:1334-1343 | Every number but 0 is true |
| ProtoInputs.FixedRead | Foti/Pods/nanopb/pb_decode.c:1299-1332 | Fixed-width numbers take four or eight bytes, the least significant first |
| ProtoInputs.BlobExactly | Foti/Pods/nanopb/pb_decode.c:1447-1571 | Bytes are read exactly if they fit, strings if they leave room for their NUL, bytes of a fixed length if they have it or none; strings end at the first NUL |
| ProtoBytes.VarintBytes | Foti/Pods/nanopb/pb_encode.c:608-628 | A varint has seven bits a byte, the least significant first, all bytes but the last marked, and no byte too many |
| ProtoBytes.ZigZagOrder | Foti/Pods/nanopb/pb_encode.c:630-639 | Zigzag numbers 0, -1, 1, -2, ... as 0, 1, 2, 3, ... |
| ProtoBytes.KeyNumber | Foti/Pods/nanopb/pb_encode.c:675-707 | A record's key is read back as eight times the tag plus 0 for integers and bools, 1 for 64-bit values, 2 for what has a length and 5 for 32-bit values |
| ProtoBytes.ValueBytes | Foti/Pods/nanopb/pb_encode.c:709-912 | The bytes behind the key, for every kind of value, in numbers |
| ProtoBytes.ArrayBytes | Foti/Pods/nanopb/pb_encode.c:147-237 | An array of numbers is one record with a key of 2 modulo 8, its size and its elements; any other array one record an element |
| ProtoBytes.WrittenExactly | Foti/Pods/nanopb/pb_encode.c:341-427 | Which fields leave bytes at all |
| ProtoBytes.DocumentedBytes | Foti/Pods/nanopb/pb_encode.c:528-550 | The examples of Protocol Buffers' Encoding document, and one 32-bit and one 64-bit field, byte for byte and in order |

## Left out

- A memtable flush that runs inside a compaction's loop (db/db_impl.cc:908-918): a compaction is picked, run and installed with no flush in between.
- Logs before the current one are taken to survive a crash whole, since the switch to a new log comes with no sync; a crash may tear any suffix of the current log that was not synced, and lose one unsynced manifest record.
- I/O errors and `bg_error_` outside group commit; `reuse_logs`; `PrevLogNumber` beyond its encoding; exhaustion of the 2^56 sequence numbers, beyond what is said above, and of file numbers.
- Seek statistics and read sampling: the file that cost too many seeks is a parameter. Compaction scores are real numbers, not doubles. File sizes and the size of a table under construction are parameters too.
- Mutexes and condition variables: steps are atomic and interleave; only safety is claimed, not that a waiting writer wakes.
- The memory layout of memtable entries and lookup keys. Queue and step machine have batches as lists of operations; `WriteBatches` joins these to their bytes.
- Checksums and hashes are arbitrary functions; no compression. Corrupted blocks and tables: `Blocks`, `BlockIteration` and `Tables` read only what their builders wrote. Logs and edits are read from any bytes.
- The byte layout of block handles and footers.
- Tables.TableBuilder.Add: keeps a file as a map from offsets to blocks; the size of each block, and when it is full, are parameters, because blocks as bytes are the subject of `Blocks`.
- The hash chains of the cache's table are sequences, not `next_hash` pointers; the sharding by the hash's top bits is not modelled.
- The double of bits per key that gives a Bloom filter's number of probes: that number is a parameter, clamped to 1..30 as in the code.
- `FindShortestSeparator` and `FindShortSuccessor` edit their argument in place; here they return the new string.
- `TornFiles` takes the form of a log's records as a parameter, for which `WriteBatches` gives the bytes.
- Log readers with an initial offset, `repair.cc`, `dumpfile.cc`, `c.cc`, the environment, loggers and options.
- DatabaseRuns.EveryRunReadsRight: for runs whose compactions uncover no deleted value, because the code does not ensure that by itself (see above).
- nanopb's callbacks, extensions, pointer fields, and streams other than memory buffers; struct offsets: a message is a list of slots, one per field or union. Memory that C leaves as it was is `Unset`, also the first bytes of a fixed-count array, which C overwrites with a zero count.
- The words of bits in which nanopb remembers required fields are a set; `uint_fast8_t` has eight bits, `pb_size_t` 32 and `size_t` 64.
- Descriptors that the nanopb generator does not write: repeated tags, field numbers above 2^29 - 1, integers of other widths than 1, 2, 4 and 8 bytes, explicit defaults of proto3 fields.
- ProtoRoundTrip.RoundTrip: for messages of less than 2^32 bytes, the most that nanopb's length prefixes can be read back for.
- ProtoConcatenation.Concatenation: for messages of less than 2^32 bytes each, for the same reason.
- The Swift application, Firebase and BoringSSL.
