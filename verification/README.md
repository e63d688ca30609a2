# LevelDB's `db/` layer and nanopb, modelled and proved

Dafny models of the two cores this repository vendors: LevelDB's log-structured store
(`ios/Pods/leveldb-library`) and the nanopb 0.3.9.9 Protocol Buffers runtime
(`ios/Pods/nanopb`). Files whose name ends in ` 2` are second copies of the same source; each
is modelled once, and `write_batch 2.cc` is cited where only that copy is needed.

`dafny verify dfyconfig.toml` checks everything.

## The store

A database is a map from (user key, snapshot) to value: a read returns the newest entry whose
sequence number is at most the snapshot, a deletion reading as absence (`Entries`). Around that
meaning the model has three layers.

- **Algorithms**, in the form the source gives them: loops and objects proved against a
  specification. Searches over a level (`FileSearch`), point lookup (`Lookup`), the choice of
  compaction inputs (`CompactionInputs`) and the pointers that let every file have its turn
  (`CompactionRounds`), the merging iterator and the input built on it
  (`MergingIterator`, `InputIterator`), the compaction loop with its drop rules
  (`CompactionWork`, `DropRules`), the version builder and what manifest replay makes of edits
  (`VersionBuilder`, `EditsApplied`, `ManifestReplay`), log replay (`Recovery`), reference counts
  (`VersionRefs`), the snapshot ring (`SnapshotList`), the skip list with a reader beside the
  writer (`SkipList`), the memtable's bytes (`MemTable`), group commit (`GroupCommit`), the
  two-direction user iterator (`DbIter`).
- **The store as a state machine** (`Store`): every step the source takes between two points
  where the mutex may be dropped, with a crash and recovery possible at any of them. `Install`
  proves what a flush and an installed compaction do to the levels and to reads,
  `StoreInvariant` and `CrashSafety` that every step keeps one invariant, crashes inside a log
  record included, `FileNumbering` that table numbers are never reused, `Garbage` that no table
  outlives its use, `ManifestOfRun` that the
  manifest of any run rebuilds its version, `LogFiles` that the bytes of a log file say what the
  machine says, and `Runs` what follows for whole runs: no published operation is ever lost,
  every read is right, snapshots are stable, nothing needed is ever deleted.
- **The store as an object** (`DbImpl`): a class with the fields of the source whose every method
  is proved to be exactly one step of that machine; `Background` runs whole background jobs
  with it, from picking inputs to deleting obsolete files, with writers and readers going on
  wherever the mutex is free, and shows that what a snapshot shows does not change.

User keys are represented by their place in the user comparator's order; the byte strings are
countable, so any total order on them embeds in the real numbers, and nothing uses more of a key
than its place. Encoded keys and values are byte strings (`Coding`, `MemTable`, `WriteBatch`,
`VersionEditCodec`, `Log`, `LogReader`).

Five statements one might expect are false of this code. Each has a concrete input here, and the
theorem beside it says exactly when the code is right.

- **Compaction can bring a deleted key back.** Lower inputs are not extended by boundary files
  (`version_set.cc:1407-1422`), so a deletion can be dropped above an older value in the next
  file (`Counterexamples.TombstoneDroppedTooEarly`), and there is a whole run at whose end a key
  deleted last reads as its old value (`FailingRun.ADeletedKeyComesBack`).
  `Install.CompactionPreservesReadsExactly` says exactly when one compaction preserves reads.
  Over whole runs only the keys above whose old value a merge really dropped a deletion are set
  aside; all others are read correctly for ever, and there are none if every merge was closed on
  the right.
- **A flush can break a level under a manual compaction.** Manual inputs may leave a gap into
  which a flush falls (`Counterexamples.FlushIntoTheGapBreaksTheLevel`).
  `FlushGaps.FlushesAreHarmless` says which gaps matter: flushes leave a running compaction alone
  if and only if at no key between its inputs a flush can land on the output level. Automatic
  picking leaves no gap (`CompactionInputs.PickCompaction`); whole runs start manual compactions
  as well, as long as they leave no such gap.
- **A log with a torn end cannot always be reused.** With `reuse_logs` the source appends behind
  the tear, which reading does not notice (`LogRoundTrip.TornLogReads`), and what is appended can
  be lost (`LogReuse.TornLogMustNotBeReused`). `LogReuse.ReuseKeepsTheLog` says for every log and
  every cut when it is not: if the cut leaves nothing of the torn record, or less of its first
  header than tells it from the zeros the writer puts in front of the next block, or a first
  fragment that is empty. That a clean cut is harmless holds for any checksum; that no other cut
  is, whenever the checksum notices the tear.
- **A missing required field is not always noticed.** nanopb ticks off the first 64 required
  fields only (`PbRequired.OnlySixtyFourAreChecked`). `PbRequired.DecodesExactly` says for every
  input when decoding succeeds.
- **`VersionEdit::Clear` does not clear compact pointers**, so decoding into a used edit puts the
  decoded ones behind the old ones (`VersionEditCodec.DecodeUndoesEncode`).

Rule (A) of the drop rules also compares with the largest sequence number as if it could not
occur; `DropRules.NothingKeptAtTheLimit` shows what would happen, and histories in the model stay
below it.

Opening a database writes a new manifest exactly if the old one could not be reused or some log
that does not stay in use has a record (`DbImpl.DbImpl.Open`). That is not the same as recovery
having made a table: a record without operations calls for a manifest too (`db_impl.cc:481-485`).

## nanopb

A descriptor is a tree of fields (`PbMessage`), a message a value indexed by it: required,
optional, singular, oneof, and repeated fields with or without packing and with fixed or counted
length, nested to any depth, with sizes and counts below 2^32 as the project builds it
(`PB_FIELD_32BIT`, set in `Target Support Files/nanopb/nanopb.release.xcconfig`). `PbVarint`, `PbFieldIter`, `PbEncode`, `PbInput` and `PbDecoder` are
the imperative code, proved against the functions in `PbEncode` and `PbDecode`; `PbRoundTrip`
proves that decoding undoes encoding, `PbUnknown` that a reader passes over fields it does not
know, `PbRequired` when a message counts as complete, `PbBounds` that no input fills an array
beyond its end. Main results: the two passes of the encoder always agree,
encoding into a buffer succeeds exactly if the computed size fits, the decoder terminates on
every input and conserves bytes, and the round trip holds **if and only if** every string leaves
room for the terminator the decoder appends: the encoder writes a string that fills its array,
and the decoder refuses it. Wire rules follow the Protocol Buffers "Encoding" document, sections
"Base 128 Varints", "Signed Integers" and "Packed Repeated Fields". The 32-bit varint decoder is
more lenient than that encoder: sign-extended and zero-padded inputs are accepted
(`PbVarint.SignExtendedReads`, `PbVarint.PaddedZeroReads`).

## How to read the contracts

A method that changes an object states its whole new state, usually as a function or relation of
the old one; the meaning of that function is in the lemmas beside it. `Answers`, `View`,
`IsFirst` and `IsLast` are definitions by quantifiers, independent of the code that is proved
against them. History variables (`history`, `flushed`, `switched`, `horizon`, `resurrected`) occur in
specifications only; no step decides anything by them. Checksums are an arbitrary function of
type and payload. What the file system, table sizes, write-buffer sizes and the random height of a
skip-list node decide enters as parameters, so every theorem holds for any of them.

## Model

| member | source | states |
|---|---|---|
| DbFormat.CompareIsBefore | ios/Pods/leveldb-library/db/dbformat.cc:51-68 | comparing packed (sequence, type) tags behind equal user keys is the order user ascending, sequence descending, value before deletion; it is total, 0 only for equal keys, and tags fit 64 bits and unpack |
| DbFormat.LookupKeySeparates | ios/Pods/leveldb-library/db/dbformat.cc:121-138 | the key a lookup seeks to lies behind exactly the entries of its user key that are too new |
| Entries.NewestExists | ios/Pods/leveldb-library/db/memtable.cc:100-134 | whenever any entry of a key is visible at a snapshot there is a newest one, so a read is defined |
| Entries.ViewOfNewest | ios/Pods/leveldb-library/db/db_impl.cc:1100-1145 | with unique sequence numbers the read is the payload of the newest visible entry, a deletion reading as absent |
| Entries.ViewIgnoresNewer | ios/Pods/leveldb-library/db/db_impl.cc:1100-1145 | entries above a snapshot never change a read at it |
| Versions.FileBounds | ios/Pods/leveldb-library/db/db_impl.cc:811-858 | every key of a table lies between the smallest and largest key of its metadata |
| FileSearch.FindFile | ios/Pods/leveldb-library/db/version_set.cc:88-106 | the binary search returns the first file whose largest key is not before the target, the answer of a scan from the left, and everything behind it qualifies too |
| FileSearch.SomeFileOverlapsRange | ios/Pods/leveldb-library/db/version_set.cc:122-157 | both branches, linear scan and binary search, are true exactly if some file meets the range |
| FileSearch.GetOverlappingInputs | ios/Pods/leveldb-library/db/version_set.cc:519-559 | the restarting scan ends; on level 0 with the least range around the query that is closed under overlapping files, elsewhere with the query; it returns exactly the files that meet that range and never widens it across a gap |
| FileSearch.PickLevelForMemTableOutput | ios/Pods/leveldb-library/db/version_set.cc:491-516 | at most level 2, no file of the picked or any shallower level overlaps, and it stops early only for an overlap or too many grandparent bytes |
| Lookup.SeekAnswers | ios/Pods/leveldb-library/db/memtable.cc:100-134 | the one entry a seek for (key, snapshot) stops at decides: it is the newest visible entry of the run, or there is none |
| Lookup.RunGet | ios/Pods/leveldb-library/db/version_set.cc:263-276 | seek and look at one entry answers for the whole sorted run |
| Lookup.SortNewestFirst | ios/Pods/leveldb-library/db/version_set.cc:278-280 | level-0 candidates come out as the same files by descending number |
| Lookup.Level0Order | ios/Pods/leveldb-library/db/version_set.cc:350-364 | probing the level-0 files around the key newest first and stopping at the first hit finds the newest entry of the level |
| Lookup.DeeperLevelOrder | ios/Pods/leveldb-library/db/version_set.cc:365-380 | below level 0 the single file FindFile points at answers for the whole level |
| Lookup.VersionGet | ios/Pods/leveldb-library/db/version_set.cc:326-421 | level by level, stopping at the first hit, returns the newest visible entry of all files of the version, or none exists |
| Lookup.DbGet | ios/Pods/leveldb-library/db/db_impl.cc:1100-1145 | memtable, immutable memtable, then version, stopping at the first hit, is the read of the union of all entries |
| CompactionInputs.MaxKeyIs | ios/Pods/leveldb-library/db/version_set.cc:1324-1340 | the key computed by the scan is the largest of all files, and some file has it |
| CompactionInputs.FindSmallestBoundaryFile | ios/Pods/leveldb-library/db/version_set.cc:1342-1362 | finds the nearest file behind the key that continues its user key, or there is none |
| CompactionInputs.BoundaryIsBeyond | ios/Pods/leveldb-library/db/version_set.cc:1378-1401 | a boundary file was not among the inputs and pushes the largest key on, past at least one more file: the search ends and adds no file twice |
| CompactionInputs.AddBoundaryInputs | ios/Pods/leveldb-library/db/version_set.cc:1378-1401 | the result extends the inputs by nearest boundary files only, and afterwards no file of the level continues the last user key |
| CompactionInputs.ChainKeepsConvex | ios/Pods/leveldb-library/db/version_set.cc:1378-1401 | boundary files leave no file of the level between two inputs out |
| CompactionInputs.ChainKeepsOrder | ios/Pods/leveldb-library/db/version_set.cc:1378-1401 | boundary files keep the inputs of a level below 0 in key order, as the concatenating iterator needs |
| CompactionInputs.ClosureIsHullClosed | ios/Pods/leveldb-library/db/version_set.cc:519-559 | on level 0 no file outside the selection meets its user-key range |
| CompactionInputs.ExpandUpper | ios/Pods/leveldb-library/db/version_set.cc:1417-1447 | the upper inputs grow to all the range of the inputs reaches, with boundary files, exactly if that is more, stays below the byte limit and meets no more of the lower level; grown or not, the selection stays complete, loses no input, keeps its lower inputs, and opens no gap |
| CompactionInputs.ExpansionGapless | ios/Pods/leveldb-library/db/version_set.cc:1417-1447 | a grown selection covers one user-key interval if the one before did |
| CompactionInputs.SetupOtherInputs | ios/Pods/leveldb-library/db/version_set.cc:1403-1462 | boundary files, the lower files meeting them, and growth if there are any; upper inputs complete on the right, lower inputs exactly the files meeting them, grandparents exactly the files meeting both; gapless if the picked files were; the next pointer is the largest upper key |
| CompactionInputs.FirstAfterPointer | ios/Pods/leveldb-library/db/version_set.cc:1284-1296 | the first file past the compaction pointer, or the first file of all if there is none |
| CompactionInputs.PickCompaction | ios/Pods/leveldb-library/db/version_set.cc:1270-1322 | the selection grows out of the first file past the compaction pointer (the first of all if there is none), or of the file that cost too many seeks, with all its range drags in on level 0; it is sound, its inputs cover one user-key interval without gaps, and its largest key is the next pointer |
| CompactionInputs.PrefixForSize | ios/Pods/leveldb-library/db/version_set.cc:1476-1487 | up to and including the file that reaches the size limit, or all files if none does |
| CompactionInputs.CompactRange | ios/Pods/leveldb-library/db/version_set.cc:1464-1507 | a manual compaction grows out of exactly the files meeting the range (on level 0 the least range closed under overlaps), below level 0 only as many from the front as it takes to reach the size of an output; it is a sound selection (nothing is promised about gaps), and none is made only if no file meets the range |
| CompactionRounds.PassedIsTaken | ios/Pods/leveldb-library/db/version_set.cc:1284-1296 | a pick that moves the compaction pointer past a file has that file among its inputs |
| CompactionRounds.PointerRises | ios/Pods/leveldb-library/db/version_set.cc:1453-1461 | as long as a file is past the pointer, a pick moves the pointer on, and fewer files are past it |
| CompactionRounds.NoFileIsPassedOver | ios/Pods/leveldb-library/db/version_set.cc:1284-1296 | over any number of picks, on whatever versions, the pointer passes no file that stays on the level without taking it |
| CompactionRounds.EveryFileHasItsTurn | ios/Pods/leveldb-library/db/version_set.cc:1284-1296 | of a level that no file joins, two picks for each file reach every file, wherever the pointer stood: no file is left behind for ever |
| DropRules.KeptExactly | ios/Pods/leveldb-library/db/db_impl.cc:929-999 | the output holds exactly the input entries that no drop rule removes |
| DropRules.KeptSorted | ios/Pods/leveldb-library/db/db_impl.cc:929-999 | the output is in key order |
| DropRules.HiddenBehindNewer | ios/Pods/leveldb-library/db/db_impl.cc:946-948 | an entry dropped by rule (A) is not the newest one at any live snapshot |
| DropRules.NothingKeptBehind | ios/Pods/leveldb-library/db/db_impl.cc:946-960 | behind a deletion dropped at its base level nothing older of the same key is kept |
| DropRules.DropPreservesReads | ios/Pods/leveldb-library/db/db_impl.cc:946-960 | for every key, a compaction preserves all reads at or above the oldest snapshot if and only if it drops no deletion above an older value outside its input |
| DropRules.ResurrectionIsSeen | ios/Pods/leveldb-library/db/db_impl.cc:949-960 | in the bad case the key was absent before and reads as the old value afterwards |
| DropRules.NothingBelowNothingResurrects | ios/Pods/leveldb-library/db/version_set.cc:1533-1552 | if the base-level check is right about the data outside the input, nothing resurrects |
| DropRules.NothingKeptAtTheLimit | ios/Pods/leveldb-library/db/db_impl.cc:946-948 | with the oldest snapshot at the largest sequence number rule (A) drops everything: the bound on sequence numbers is needed |
| CompactionWork.CompactionState.IsBaseLevelForKey | ios/Pods/leveldb-library/db/version_set.cc:1533-1552 | the cursors that only move forward give the answer of a fresh scan of all deeper levels, as long as keys do not decrease |
| CompactionWork.CompactionState.ShouldStopBefore | ios/Pods/leveldb-library/db/version_set.cc:1554-1576 | the overlapped bytes are the sizes of the grandparents passed since the last stop, and the output stops exactly when they exceed the limit |
| CompactionWork.CompactionState.ShouldDrop | ios/Pods/leveldb-library/db/db_impl.cc:946-960 | the two drop rules, exactly |
| CompactionWork.CompactionState.CutOutput | ios/Pods/leveldb-library/db/db_impl.cc:921-927 | after every entry the output under way has met no more grandparent bytes than the limit since they were last counted from zero, and outputs already finished are well cut |
| CompactionWork.CompactionState.FinishLast | ios/Pods/leveldb-library/db/db_impl.cc:1004-1006 | the last output ends with the input, and all outputs are well cut |
| CompactionWork.GrownMeetsLittle | ios/Pods/leveldb-library/db/version_set.cc:1554-1576 | of the grandparents at most the limit in bytes, in a row, and the one file behind them meet the keys of an output |
| CompactionWork.CompactionState.Decide | ios/Pods/leveldb-library/db/db_impl.cc:921-971 | one turn before the write: the open output is finished if it would meet too many grandparent bytes, and after any number of turns what is written is exactly what the drop rules keep of the input so far |
| CompactionWork.CompactionState.WriteKept | ios/Pods/leveldb-library/db/db_impl.cc:985-1010 | a kept entry goes behind what is written, into the open output or a new one, which is finished as soon as it is full; the count of outputs follows |
| CompactionWork.NoFileHolds | ios/Pods/leveldb-library/db/version_set.cc:1533-1552 | files before a cursor end too early and files behind it start too late to hold the key |
| Install.SelectedIsRunning | ios/Pods/leveldb-library/db/version_set.cc:1403-1462 | a sound selection satisfies what a running compaction relies on |
| Install.LeftoverIsNewer | ios/Pods/leveldb-library/db/version_set.cc:1378-1401 | an upper file left out of the inputs is newer, key by key, than every input |
| Install.LowerLeftoverIsBeside | ios/Pods/leveldb-library/db/version_set.cc:1403-1462 | a lower file left out of the inputs lies wholly beside them and shares no user key with the upper inputs |
| Install.FlushKeepsOrder | ios/Pods/leveldb-library/db/db_impl.cc:491-533 | a flush to the picked level keeps every shallower entry newer than deeper ones |
| Install.FlushKeepsWf | ios/Pods/leveldb-library/db/db_impl.cc:491-533 | a flush keeps levels 1 and deeper sorted and disjoint |
| Install.FlushKeepsRunning | ios/Pods/leveldb-library/db/db_impl.cc:906-918 | a flush in the middle of a compaction without a harmful gap does not disturb it |
| Install.FlushFillsGaps | ios/Pods/leveldb-library/db/db_impl.cc:906-918 | and opens no harmful gap for the next flush |
| Install.InstallKeepsWf | ios/Pods/leveldb-library/db/db_impl.cc:860-876 | installing the outputs keeps levels sorted and disjoint |
| Install.InstallKeepsOrder | ios/Pods/leveldb-library/db/db_impl.cc:860-876 | installing the outputs keeps newer entries above older ones |
| Install.InstalledEntries | ios/Pods/leveldb-library/db/db_impl.cc:860-876 | installing removes exactly the input entries and adds exactly the output entries |
| Install.CompactionPreservesReads | ios/Pods/leveldb-library/db/db_impl.cc:878-1048 | with newer-above-older levels, an installed compaction changes no read, at or above the oldest snapshot, of any key its lower inputs do not stop in the middle of |
| Install.CompactionPreservesReadsExactly | ios/Pods/leveldb-library/db/db_impl.cc:878-1048 | for every key: reads are preserved if and only if no dropped deletion stood above a value left behind |
| FlushGaps.FlushesKeepRunning | ios/Pods/leveldb-library/db/db_impl.cc:906-918 | without a harmful gap no sequence of flushes, of whatever memtables, disturbs a running compaction |
| FlushGaps.GapIsReached | ios/Pods/leveldb-library/db/version_set.cc:491-516 | at a harmful gap at most two flushes of one key each put a table between the inputs where the output will lie |
| FlushGaps.FlushesAreHarmless | ios/Pods/leveldb-library/db/db_impl.cc:906-918 | every sequence of flushes leaves a running compaction undisturbed if and only if its inputs leave no harmful gap, for manual and automatic compactions alike |
| FlushGaps.BetweenOverlaps | ios/Pods/leveldb-library/db/db_impl.cc:860-876 | a compaction that joins inputs around such a table leaves two tables that overlap on one level |
| FlushGaps.CommittedFlush | ios/Pods/leveldb-library/db/db_impl.cc:535-566 | every flush the store commits is such a flush, and afterwards every entry of the memtable is in a table |
| VersionBuilder.SaveLevel | ios/Pods/leveldb-library/db/version_set.cc:695-739 | the merge gives the live base and added files, in order, each once |
| VersionBuilder.Builder.Apply | ios/Pods/leveldb-library/db/version_set.cc:650-692 | an edit deletes numbers and adds files; an addition revives a deleted number |
| VersionBuilder.Builder.SaveTo | ios/Pods/leveldb-library/db/version_set.cc:695-754 | every level of the saved version holds exactly the live files, in builder order |
| ManifestReplay.AppliedExactly | ios/Pods/leveldb-library/db/version_set.cc:650-692 | what a builder holds after an edit, level by level |
| ManifestReplay.OneMoreEdit | ios/Pods/leveldb-library/db/version_set.cc:801-884 | one more edit in the shared builder and the version made from that edit alone stay equal |
| ManifestReplay.ReplayTracks | ios/Pods/leveldb-library/db/version_set.cc:886-1011 | a shared builder tracks the versions installed one edit at a time through any sequence of edits |
| ManifestReplay.SameFilesSameLevel | ios/Pods/leveldb-library/db/version_set.cc:695-754 | a level is determined by its files: the order is canonical |
| ManifestReplay.ManifestReplayIsCurrentVersion | ios/Pods/leveldb-library/db/version_set.cc:886-1011 | replaying all edits through one builder gives the version the edits led to, provided no (level, number) is added twice |
| ManifestReplay.SnapshotRebuilds | ios/Pods/leveldb-library/db/version_set.cc:1088-1116 | the snapshot record at the head of a new manifest rebuilds the version it was taken of |
| ManifestOfRun.EditFollowed | ios/Pods/leveldb-library/db/version_set.cc:650-692 | an edit that brings files new to a level keeps builder and version together, and every file as deep as its number was ever recorded |
| ManifestOfRun.FlushFollowed | ios/Pods/leveldb-library/db/db_impl.cc:535-566 | the edit a flush commits is one the builder follows |
| ManifestOfRun.MergeFollowed | ios/Pods/leveldb-library/db/db_impl.cc:860-876 | so is the edit of a merge: its numbers are new to every level |
| ManifestOfRun.MoveFollowed | ios/Pods/leveldb-library/db/db_impl.cc:718-728 | so is that of a move: the number was never on the deeper level before |
| ManifestOfRun.CrashFollowed | ios/Pods/leveldb-library/db/db_impl.cc:371-489 | so is that of a recovery, whatever commits the crash cut off |
| ManifestOfRun.StepFollowed | ios/Pods/leveldb-library/db/version_set.cc:801-884 | every step of the store keeps the recorded edits making up the manifest, and the pending one the version to come |
| ManifestOfRun.RecordedEditsRebuild | ios/Pods/leveldb-library/db/version_set.cc:886-1011 | in every state of every run, crashes included, one builder fed with all edits recorded so far rebuilds the version of the manifest: no (level, number) is ever recorded twice |
| ManifestOfRun.NumbersOnlyDescend | ios/Pods/leveldb-library/db/version_set.cc:801-884 | in every run a table lies as deep as its number was ever recorded: tables only move down |
| History.FaithfulCut | ios/Pods/leveldb-library/db/db_impl.cc:371-489 | what reads like the history reads like its front when the newest operations are gone |
| History.FaithfulExtend | ios/Pods/leveldb-library/db/db_impl.cc:1185-1256 | new operations keep a store that reads like the history reading like it |
| History.BlocksAscend | ios/Pods/leveldb-library/db/db_impl.cc:371-489 | entries of a later log block are newer than those of an earlier one |
| Store.InsertAllSorted | ios/Pods/leveldb-library/db/write_batch 2.cc:116-137 | a batch of newer operations goes into the memtable in order |
| StoreInvariant.LogGroupKeeps | ios/Pods/leveldb-library/db/db_impl.cc:1204-1222 | writing a group to the log keeps the invariant |
| StoreInvariant.InsertGroupKeeps | ios/Pods/leveldb-library/db/db_impl.cc:1223-1225 | inserting the group into the memtable keeps it |
| StoreInvariant.PublishGroupKeeps | ios/Pods/leveldb-library/db/db_impl.cc:1236 | moving the last sequence number keeps it |
| StoreInvariant.SwitchMemTableKeeps | ios/Pods/leveldb-library/db/db_impl.cc:1348-1366 | a new log and an empty memtable keep it: logs from the log number on still hold what no table holds |
| StoreInvariant.CommitFlushKeeps | ios/Pods/leveldb-library/db/db_impl.cc:535-566 | a finished flush may name the current log as the oldest one needed |
| StoreInvariant.FlushedVersionHolds | ios/Pods/leveldb-library/db/db_impl.cc:491-533 | the version with the flushed table reads like the history |
| StoreInvariant.WriteRecordKeeps | ios/Pods/leveldb-library/db/version_set.cc:841-865 | the manifest record, written without the mutex, keeps it |
| StoreInvariant.InstallVersionKeeps | ios/Pods/leveldb-library/db/version_set.cc:867-884 | installing the new version keeps it |
| StoreInvariant.StartCompactionKeeps | ios/Pods/leveldb-library/db/db_impl.cc:695-713 | starting any compaction without a harmful gap, picked or manual, keeps it |
| StoreInvariant.OpenOutputKeeps | ios/Pods/leveldb-library/db/db_impl.cc:786-809 | an open output is pending and counted as in use |
| StoreInvariant.MergeOutputsOk | ios/Pods/leveldb-library/db/db_impl.cc:811-858 | the output tables are sorted, disjoint, and hold exactly the kept entries |
| StoreInvariant.MergeHolds | ios/Pods/leveldb-library/db/db_impl.cc:860-876 | the version with the outputs reads like the history at a key if and only if the merge drops no deletion above a value of it that stays behind |
| StoreInvariant.CommitMergeKeeps | ios/Pods/leveldb-library/db/db_impl.cc:860-876 | committing a merge keeps the invariant; the keys it resurrects are recorded |
| StoreInvariant.ClosedMergeResurrectsNothing | ios/Pods/leveldb-library/db/version_set.cc:1403-1422 | a merge whose lower inputs complete their last user key resurrects no key |
| StoreInvariant.CommitMoveKeeps | ios/Pods/leveldb-library/db/db_impl.cc:718-728 | a trivial move keeps it |
| StoreInvariant.CollectGarbageKeeps | ios/Pods/leveldb-library/db/db_impl.cc:223-278 | deleting obsolete files keeps it: no live, pending or still needed file goes |
| StoreInvariant.TakeSnapshotKeeps | ios/Pods/leveldb-library/db/db_impl.cc:1166-1169 | a snapshot is never older than the oldest one |
| StoreInvariant.ReleaseSnapshotKeeps | ios/Pods/leveldb-library/db/db_impl.cc:1171-1174 | releasing one keeps the list in order |
| CrashSafety.LogsHoldTheRest | ios/Pods/leveldb-library/db/db_impl.cc:280-369 | at any moment of any step, the logs on disk from the manifest log number on replay to exactly the operations the manifest does not cover |
| CrashSafety.RecoveredSlices | ios/Pods/leveldb-library/db/db_impl.cc:371-489 | what recovery flushes and what it keeps in memory split that rest without loss |
| CrashSafety.RecoveredVersionOk | ios/Pods/leveldb-library/db/db_impl.cc:371-489 | the recovered tables join level 0 in order: newer ones have higher numbers |
| CrashSafety.RecoveredSequence | ios/Pods/leveldb-library/db/db_impl.cc:351-366 | after recovery the last sequence number is that of the last logged operation: none is used twice |
| CrashSafety.RecoveredLogFiles | ios/Pods/leveldb-library/db/db_impl.cc:1474-1515 | the logs kept after recovery hold what the saved or old manifest does not |
| CrashSafety.CrashRecoverKeeps | ios/Pods/leveldb-library/db/db_impl.cc:280-369 | recovery from whole log records, after a crash at any step, rebuilds a store satisfying the whole invariant, with the whole history |
| CrashSafety.CutOffHolds | ios/Pods/leveldb-library/db/db_impl.cc:1204-1222 | a store whose last group never got to the log as a whole is as sound as without that group |
| CrashSafety.TornCrashKeeps | ios/Pods/leveldb-library/db/db_impl.cc:371-489 | recovery after a crash inside AddRecord rebuilds a sound store with every operation but those of the group being written, the torn log staying in use only if the cut is clean |
| Runs.NextKeeps | ios/Pods/leveldb-library/db/db_impl.cc:648-767 | every step of the store keeps the invariant |
| Runs.EveryReachableStateHolds | ios/Pods/leveldb-library/db/db_impl.cc:1474-1515 | the invariant holds in every state of every run with any interleaving of writes, switches, flushes, automatic and manual compactions without a harmful gap, collections, snapshots, crashes between and inside log records, and recoveries |
| Runs.TakenOnlyGrows | ios/Pods/leveldb-library/db/db_impl.cc:1185-1256 | what the memtables have taken in is never taken back, by no step and no crash |
| Runs.PublishedStays | ios/Pods/leveldb-library/db/db_impl.cc:1228-1236 | an operation whose sequence number was published is in the history for ever, with that number |
| Runs.HistoryOnlyGrows | ios/Pods/leveldb-library/db/db_impl.cc:1185-1256 | between crashes inside AddRecord nothing that reached the log is lost or renumbered |
| Runs.ReadIsRight | ios/Pods/leveldb-library/db/db_impl.cc:1100-1145 | a read at a live snapshot returns the newest operation at or below it among all operations ever logged |
| Runs.NothingResurrected | ios/Pods/leveldb-library/db/version_set.cc:1403-1422 | if every merge is closed on the right in its lower inputs, no key is ever resurrected |
| Runs.EveryReadIsRight | ios/Pods/leveldb-library/db/db_impl.cc:1100-1145 | in every state of every run the layered lookup equals the map from (user key, snapshot) to value, for all keys if every merge was closed, else for all but those above whose old value some merge dropped a deletion |
| Runs.SnapshotsAreStable | ios/Pods/leveldb-library/db/db_impl.cc:1166-1174 | a snapshot shows the same map in every later state, across compactions and crashes |
| Runs.ReadWithoutTheLock | ios/Pods/leveldb-library/db/db_impl.cc:1112-1136 | a read on references taken earlier, while writers go on inserting, answers for the moment it started |
| Runs.NothingNeededIsMissing | ios/Pods/leveldb-library/db/db_impl.cc:223-278 | in every reachable state all tables of the manifest, the current and pinned versions and the running compaction exist, and the logs still replay to what the manifest does not cover |
| Runs.FileNumbersAreFresh | ios/Pods/leveldb-library/db/version_set.h:194 | the next file number is above every number in use |
| Runs.ReachedHolds | ios/Pods/leveldb-library/db/db_impl.cc:648-767 | along any stretch of steps without a crash the history only grows |
| Runs.ReachedReadsStay | ios/Pods/leveldb-library/db/db_impl.cc:1166-1174 | and every snapshot that stays readable shows the map it showed before |
| Counterexamples.MergeIsSelected | ios/Pods/leveldb-library/db/version_set.cc:1403-1422 | a compaction with lower inputs that stop inside a user key passes every condition the source establishes |
| Counterexamples.MergeIsInstalled | ios/Pods/leveldb-library/db/db_impl.cc:860-876 | it is merged and installed by the rules |
| Counterexamples.TombstoneDroppedTooEarly | ios/Pods/leveldb-library/db/version_set.cc:1407-1422 | and a deleted key reads as its old value afterwards: lower inputs are not extended by boundary files |
| Counterexamples.ManualInputsHaveAGap | ios/Pods/leveldb-library/db/version_set.cc:1464-1495 | a manual compaction can have inputs with a harmful gap between them |
| Counterexamples.FlushIsAllowed | ios/Pods/leveldb-library/db/version_set.cc:491-516 | a flush into that gap is allowed at that level |
| Counterexamples.FlushIntoTheGapBreaksTheLevel | ios/Pods/leveldb-library/db/db_impl.cc:906-918 | and leaves two overlapping tables on one level, whatever the merge wrote between its ends |
| FailingRun.WriteAndFlush | ios/Pods/leveldb-library/db/db_impl.cc:1185-1256 | writing a batch and flushing its memtable is a stretch of steps of the store |
| FailingRun.MergeRun | ios/Pods/leveldb-library/db/db_impl.cc:878-1048 | so is a whole compaction into one or two tables |
| FailingRun.ADeletedKeyComesBack | ios/Pods/leveldb-library/db/version_set.cc:1403-1422 | there is a run of the store, without a crash, at whose end a key deleted last reads as the value it had before |
| FileNumbering.FlushStaysUnique | ios/Pods/leveldb-library/db/db_impl.cc:491-533 | a flushed table has a number of its own |
| FileNumbering.MergeStaysUnique | ios/Pods/leveldb-library/db/db_impl.cc:860-876 | so have the outputs of a compaction, even with a flush in between |
| FileNumbering.MoveStaysUnique | ios/Pods/leveldb-library/db/db_impl.cc:718-728 | a moved table leaves its old level |
| FileNumbering.CrashStaysUnique | ios/Pods/leveldb-library/db/version_set.cc:1044-1048 | recovery hands out numbers above all used ones |
| FileNumbering.NumbersAreNeverReused | ios/Pods/leveldb-library/db/version_set.h:194 | in every state of every run a table number stands for one table on one level, and no output of a running compaction has a number in use |
| EditsApplied.FlushEditAddsFile | ios/Pods/leveldb-library/db/db_impl.cc:491-533 | the edit of a flush, through the builder, adds exactly one table at its level |
| EditsApplied.RecoveryEditAddsTables | ios/Pods/leveldb-library/db/db_impl.cc:371-489 | the edit of a recovery adds exactly its tables to level 0 |
| EditsApplied.MergeEditReplaces | ios/Pods/leveldb-library/db/db_impl.cc:860-876 | the edit of a compaction replaces exactly its inputs by its outputs one level down |
| Recovery.WriteLevel0Table | ios/Pods/leveldb-library/db/db_impl.cc:491-533 | a non-empty memtable becomes one table with the next number; an empty one uses a number up and makes none; either calls for a new manifest |
| Recovery.RecoverLogFile | ios/Pods/leveldb-library/db/db_impl.cc:371-489 | records go into tables and possibly a kept memtable in order and without loss: the tables are the memtables that filled up and the one left; a memtable is kept exactly for the last log, with reuse, if none filled up; any other log with a record in it calls for a new manifest |
| Recovery.LogsToRecover | ios/Pods/leveldb-library/db/db_impl.cc:323-350 | exactly the logs not older than the manifest names, in ascending order |
| Recovery.RecoverNextLog | ios/Pods/leveldb-library/db/db_impl.cc:351-362 | one log more, with its number marked used; its tables join those before |
| Recovery.RecoverLogs | ios/Pods/leveldb-library/db/db_impl.cc:280-369 | all logs are replayed in order; the largest sequence number, the tables, the split between tables and memory, and whether a new manifest is needed are those of the whole replay |
| Recovery.KeptOrSaved | ios/Pods/leveldb-library/db/db_impl.cc:457-489 | with reuse_logs, a newest log that is given up always leads to a new manifest |
| DbImpl.AddLiveFiles | ios/Pods/leveldb-library/db/version_set.cc:1167-1177 | exactly the numbers of all files of all live versions |
| DbImpl.FlushedTable | ios/Pods/leveldb-library/db/db_impl.cc:491-533 | builds the version with the flushed table at the level picked for it |
| DbImpl.MergedVersion | ios/Pods/leveldb-library/db/db_impl.cc:860-876 | builds the version with the inputs replaced by the outputs |
| DbImpl.FinishedVersion | ios/Pods/leveldb-library/db/db_impl.cc:811-876 | turns the written runs into outputs and installs them in a version |
| DbImpl.DbImpl.StepIsSane | ios/Pods/leveldb-library/db/db_impl.cc:648-767 | any step keeps the invariant and the uniqueness of numbers |
| DbImpl.DbImpl.AddRecord | ios/Pods/leveldb-library/db/db_impl.cc:1204-1222 | is the step that logs a group with its sequence numbers |
| DbImpl.DbImpl.InsertInto | ios/Pods/leveldb-library/db/db_impl.cc:1223-1225 | is the step that inserts the group |
| DbImpl.DbImpl.SetLastSequence | ios/Pods/leveldb-library/db/db_impl.cc:1236 | is the step that publishes it |
| DbImpl.DbImpl.SwitchToNewMemTable | ios/Pods/leveldb-library/db/db_impl.cc:1348-1366 | is the step that switches memtable and log |
| DbImpl.DbImpl.StartFlush | ios/Pods/leveldb-library/db/db_impl.cc:495-498 | is the step that starts a flush: its number is pending from then on |
| DbImpl.DbImpl.FinishFlush | ios/Pods/leveldb-library/db/db_impl.cc:503-566 | is the step that commits the flushed table |
| DbImpl.DbImpl.WriteManifestRecord | ios/Pods/leveldb-library/db/version_set.cc:841-865 | is the step that writes the record |
| DbImpl.DbImpl.InstallNewVersion | ios/Pods/leveldb-library/db/version_set.cc:867-884 | is the step that makes the new version current |
| DbImpl.DbImpl.StartCompaction | ios/Pods/leveldb-library/db/db_impl.cc:711-713 | is the step that picks a compaction for its trigger and remembers the oldest snapshot |
| DbImpl.DbImpl.StartManualCompaction | ios/Pods/leveldb-library/db/db_impl.cc:695-710 | starts a manual compaction that grows out of the files meeting a range; it is a step of the machine if its inputs leave no harmful gap |
| DbImpl.DbImpl.OpenCompactionOutputFile | ios/Pods/leveldb-library/db/db_impl.cc:786-809 | is the step that opens an output |
| DbImpl.DbImpl.InstallCompactionResults | ios/Pods/leveldb-library/db/db_impl.cc:860-876 | is the step that commits a finished merge |
| DbImpl.DbImpl.MoveToNextLevel | ios/Pods/leveldb-library/db/db_impl.cc:718-728 | is the step that moves one file down |
| DbImpl.DbImpl.DeleteObsoleteFiles | ios/Pods/leveldb-library/db/db_impl.cc:223-278 | is the step that deletes every table neither live nor pending and every log older than the log number |
| DbImpl.DbImpl.GetSnapshot | ios/Pods/leveldb-library/db/db_impl.cc:1166-1169 | is the step that takes a snapshot of the last sequence number |
| DbImpl.DbImpl.ReleaseSnapshot | ios/Pods/leveldb-library/db/db_impl.cc:1171-1174 | is the step that releases one |
| DbImpl.DbImpl.Get | ios/Pods/leveldb-library/db/db_impl.cc:1100-1145 | answers from the whole history of operations for every key no merge has resurrected |
| DbImpl.DbImpl.RefVersion | ios/Pods/leveldb-library/db/db_impl.cc:1112-1116 | is the step by which a reader takes a reference to the current version |
| DbImpl.DbImpl.UnrefVersion | ios/Pods/leveldb-library/db/db_impl.cc:1139-1141 | is the step by which it gives one back |
| DbImpl.DbImpl.Open | ios/Pods/leveldb-library/db/db_impl.cc:1474-1515 | from the files a crash left, inside a log record or not, finds no table missing and opens a store that is one recovery step from the state that crashed; with reuse_logs a torn log needs a clean cut. The newest log stays in use exactly if asked for and none of its memtables filled up; the manifest is replaced exactly if it could not be reused or another log has a record, and then names the log in use; otherwise it is the old one |
| DbImpl.KeepNumbers | ios/Pods/leveldb-library/db/db_impl.cc:243-275 | a table stays exactly if it is in the set to keep |
| Background.OtherThreads | ios/Pods/leveldb-library/db/db_impl.cc:1185-1256 | writers and readers take the given turns while the mutex is free, each one if it can: a stretch of steps of the store that leaves the background job, the version and an immutable memtable alone |
| Background.LogAndApply | ios/Pods/leveldb-library/db/version_set.cc:801-884 | record and installation finish the commit, with others going on while the record is written: version, log number and covered operations are those of the record |
| Background.CompactMemTable | ios/Pods/leveldb-library/db/db_impl.cc:535-566 | the flush from start to end, others going on while table and record are written: no immutable memtable is left, its entries are in a table on the level picked for it, the log number is that of the log in use, nothing obsolete is left, and nothing is pending |
| Background.MergeLoop | ios/Pods/leveldb-library/db/db_impl.cc:906-1013 | the loop of a merge with others going on between any two entries, and an immutable memtable flushed first: the outputs, opened one by one, hold exactly what the drop rules keep, and each is cut where it should be |
| Background.DoCompactionWork | ios/Pods/leveldb-library/db/db_impl.cc:878-1048 | merging iterator, drop rules, outputs and commit fit together under all that interference: the version committed is that of the start, grown by memtables flushed meanwhile, with the inputs replaced by tables of exactly what the drop rules keep |
| Background.BackgroundCompaction | ios/Pods/leveldb-library/db/db_impl.cc:688-767 | a whole background call beside any writers and readers: with an immutable memtable that is flushed and nothing else; without one the compaction picked for the trigger is a move or a merge, its inputs have left their level, and its pointer is handed on; nothing is pending, nothing logged is lost, and every snapshot still readable shows the map it showed before |
| Background.CallIsPick | ios/Pods/leveldb-library/db/version_set.cc:1284-1296 | a call for a level over its size is one of the picks in which every file of the level gets its turn |
| Garbage.StepKeepsPending | ios/Pods/leveldb-library/db/db_impl.cc:223-278 | no step forgets the number of an output under way, or keeps one that is not |
| Garbage.PendingIsExact | ios/Pods/leveldb-library/db/db_impl.cc:497-513 | in every state of every run the pending outputs are exactly those of the flush and the compaction under way |
| Garbage.IdleStoreIsClean | ios/Pods/leveldb-library/db/db_impl.cc:223-278 | in every run, once obsolete files were deleted from a store without a compaction or readers, its tables are exactly those of the current version |
| MergingIterator.MergingIterator.FindSmallest | ios/Pods/leveldb-library/table/merger.cc:148-161 | the child with the smallest key, or none is valid |
| MergingIterator.MergingIterator.FindLargest | ios/Pods/leveldb-library/table/merger.cc:163-176 | the child with the largest key, or none is valid |
| MergingIterator.SmallestIsFirst | ios/Pods/leveldb-library/table/merger.cc:148-161 | if every child is at its first entry past a cut, the smallest of them is the first entry of all, and the others are past it |
| MergingIterator.LargestIsLast | ios/Pods/leveldb-library/table/merger.cc:163-176 | the same backwards |
| MergingIterator.MergingIterator.SeekToFirst | ios/Pods/leveldb-library/table/merger.cc:31-37 | stands on the first entry of all runs |
| MergingIterator.MergingIterator.SeekToLast | ios/Pods/leveldb-library/table/merger.cc:39-45 | stands on the last entry of all runs |
| MergingIterator.MergingIterator.Seek | ios/Pods/leveldb-library/table/merger.cc:47-53 | stands on the first entry not before the target |
| MergingIterator.MergingIterator.Next | ios/Pods/leveldb-library/table/merger.cc:55-79 | moves to the first entry behind the current one, also after a change of direction |
| MergingIterator.MergingIterator.Prev | ios/Pods/leveldb-library/table/merger.cc:81-108 | moves to the last entry before the current one, also after a change of direction |
| MergingIterator.PrevUndoesNext | ios/Pods/leveldb-library/table/merger.cc:81-108 | a step back undoes a step forward |
| MergingIterator.ReadAll | ios/Pods/leveldb-library/db/db_impl.cc:899-920 | reading from the first entry to the end gives every entry of every run once, in key order |
| MergingIterator.MergeIsUnique | ios/Pods/leveldb-library/table/merger.cc:148-161 | there is only one such sequence |
| InputIterator.InputRunsHold | ios/Pods/leveldb-library/db/version_set.cc:1237-1268 | the children of the input iterator are sorted, share no internal key, and hold exactly the entries of the input files |
| InputIterator.MakeInputIterator | ios/Pods/leveldb-library/db/version_set.cc:1237-1268 | one child per level-0 file, one concatenated child for any other level |
| InputIterator.MergedInput | ios/Pods/leveldb-library/db/version_set.cc:1237-1268 | the merged input is every input entry once, in key order |
| SnapshotList.SnapshotList.constructor | ios/Pods/leveldb-library/db/snapshot.h:41-44 | an empty ring |
| SnapshotList.SnapshotList.Oldest | ios/Pods/leveldb-library/db/snapshot.h:47-50 | no live snapshot has a smaller number |
| SnapshotList.SnapshotList.Newest | ios/Pods/leveldb-library/db/snapshot.h:51-54 | no live snapshot has a larger number |
| SnapshotList.SnapshotList.New | ios/Pods/leveldb-library/db/snapshot.h:57-70 | appends one snapshot; the ring stays linked both ways and ascending |
| SnapshotList.SnapshotList.Delete | ios/Pods/leveldb-library/db/snapshot.h:79-86 | unlinks exactly the given snapshot |
| SnapshotList.RingWithout | ios/Pods/leveldb-library/db/snapshot.h:83-84 | a ring with one place taken out keeps all other neighbourhoods |
| VersionRefs.UnrefFiles | ios/Pods/leveldb-library/db/version_set.cc:75-85 | every count goes down by the number of times the file is listed, and a file whose count reaches zero is gone |
| VersionRefs.VersionSet.Ref | ios/Pods/leveldb-library/db/version_set.cc:474 | one more reference on the version |
| VersionRefs.VersionSet.Unref | ios/Pods/leveldb-library/db/version_set.cc:476-483 | one reference less; with the last one the version goes and releases its files |
| VersionRefs.VersionSet.StartBuilder | ios/Pods/leveldb-library/db/version_set.cc:619-626 | a builder keeps its base alive |
| VersionRefs.VersionSet.AddFile | ios/Pods/leveldb-library/db/version_set.cc:668-691 | a new file object starts with the reference of the builder, and its number is no longer deleted from its level |
| VersionRefs.VersionSet.SaveTo | ios/Pods/leveldb-library/db/version_set.cc:695-754 | the new version holds exactly the files of the base and the added ones that are not deleted from their level, each counted once more |
| VersionRefs.VersionSet.EndBuilder | ios/Pods/leveldb-library/db/version_set.cc:628-647 | the builder releases its additions and its base |
| VersionRefs.VersionSet.AppendVersion | ios/Pods/leveldb-library/db/version_set.cc:784-799 | the new version becomes current with one reference, the old one loses the one it had for that |
| VersionRefs.LogAndApply | ios/Pods/leveldb-library/db/version_set.cc:801-884 | builder, edit, new version and append or deletion together leave every count equal to the number of holders |
| VersionRefs.PlacesApplied | ios/Pods/leveldb-library/db/version_set.cc:650-754 | a (level, number) is in the new version if and only if the edit adds it, or the base had it and the edit does not delete it |
| VersionRefs.ExistsWhileHeld | ios/Pods/leveldb-library/db/version_set.cc:68-86 | a file object exists if and only if a version of the list, the builder or the version under construction holds it |
| MemTable.ParseInverts | ios/Pods/leveldb-library/db/dbformat.h:165-175 | a key parses to (user, sequence, type) if and only if it is their encoding |
| MemTable.CompareBytesIsCompare | ios/Pods/leveldb-library/db/dbformat.cc:51-68 | comparing encoded internal keys is comparing the keys |
| MemTable.CompareEntriesIsOrder | ios/Pods/leveldb-library/db/memtable.cc:28-34 | the memtable comparator on length-prefixed bytes is the key order |
| MemTable.BuildEntry | ios/Pods/leveldb-library/db/memtable.cc:75-98 | the buffer filled through a moving pointer is exactly as long as computed and is the entry encoding |
| MemTable.MemTable.Seek | ios/Pods/leveldb-library/db/memtable.cc:100-104 | the first entry not before the lookup key, found by comparing bytes |
| MemTable.MemTable.Add | ios/Pods/leveldb-library/db/memtable.cc:75-98 | the table becomes the old one with the entry at its place |
| MemTable.MemTable.Decode | ios/Pods/leveldb-library/db/memtable.cc:105-131 | what an encoded entry says about a user key |
| MemTable.MemTable.Get | ios/Pods/leveldb-library/db/memtable.cc:100-134 | answers with the newest entry visible at the snapshot, or there is none |
| DbIter.LiveIsTheMap | ios/Pods/leveldb-library/db/db_iter.cc:34-39 | live entries are exactly the key-value pairs of the map visible at the sequence number |
| DbIter.LiveAscends | ios/Pods/leveldb-library/db/db_iter.cc:34-39 | they come in key order, each key once |
| DbIter.SeekSplitsTheMap | ios/Pods/leveldb-library/db/db_iter.cc:269-281 | a seek stands in front of exactly the pairs whose key is not before the target |
| DbIter.PrevUndoesNext | ios/Pods/leveldb-library/db/db_iter.cc:200-225 | a step back after a step forward returns to the same pair |
| DbIter.StepForward | ios/Pods/leveldb-library/db/db_iter.cc:168-198 | an entry skipped going forward is hidden behind a newer one or a deletion |
| DbIter.StepBackward | ios/Pods/leveldb-library/db/db_iter.cc:227-267 | going backward, only the saved entry can still turn out to be the answer |
| DbIter.DBIter.FindNextUserEntry | ios/Pods/leveldb-library/db/db_iter.cc:168-198 | stops at the next live pair, or is not valid if there is none |
| DbIter.DBIter.FindPrevUserEntry | ios/Pods/leveldb-library/db/db_iter.cc:227-267 | saves the last live pair before a place, or is not valid |
| DbIter.DBIter.SeekToFirst | ios/Pods/leveldb-library/db/db_iter.cc:283-292 | the first pair of the map |
| DbIter.DBIter.SeekToLast | ios/Pods/leveldb-library/db/db_iter.cc:294-299 | the last pair of the map |
| DbIter.DBIter.Seek | ios/Pods/leveldb-library/db/db_iter.cc:269-281 | the first pair not before the target |
| DbIter.DBIter.Next | ios/Pods/leveldb-library/db/db_iter.cc:141-166 | the next pair, from either direction |
| DbIter.DBIter.Prev | ios/Pods/leveldb-library/db/db_iter.cc:200-225 | the pair before, from either direction |
| DbIter.DBIter.Key | ios/Pods/leveldb-library/db/db_iter.cc:64-67 | the key of the pair the cursor stands on, wherever it is stored |
| DbIter.DBIter.Value | ios/Pods/leveldb-library/db/db_iter.cc:68-71 | its value |
| Coding.FixedRoundTrip | ios/Pods/leveldb-library/util/coding.cc:9-33 | little-endian integers are read back |
| Coding.FixedIsOnto | ios/Pods/leveldb-library/util/coding.cc:9-33 | every byte string is the encoding of what it decodes to |
| Coding.Varint32RoundTrip | ios/Pods/leveldb-library/util/coding.cc:112-140 | a 32-bit varint is read back from in front of anything |
| Coding.Varint64RoundTrip | ios/Pods/leveldb-library/util/coding.cc:142-169 | a 64-bit varint is read back |
| Coding.EncodeVarint32 | ios/Pods/leveldb-library/util/coding.cc:47-73 | the unrolled encoder writes the base-128 groups |
| Coding.EncodeVarint64 | ios/Pods/leveldb-library/util/coding.cc:81-90 | so does the loop |
| Coding.VarintLength | ios/Pods/leveldb-library/util/coding.cc:103-110 | the length is that of the encoding |
| Coding.DecodeVarintLoop | ios/Pods/leveldb-library/util/coding.cc:112-128 | the shifting loop computes the wrapped value of the groups within its limit |
| Coding.SliceRoundTrip | ios/Pods/leveldb-library/util/coding.cc:181-190 | a length-prefixed slice is read back |
| Coding.CutSliceFails | ios/Pods/leveldb-library/util/coding.cc:181-190 | a length-prefixed slice cut short is refused |
| Log.UnmaskUndoesMask | ios/Pods/leveldb-library/util/crc32c.h:29-38 | a masked checksum is unmasked |
| Log.Writer.EmitPhysicalRecord | ios/Pods/leveldb-library/db/log_writer.cc:82-108 | header and payload, and the place in the block |
| Log.Writer.EmitFragment | ios/Pods/leveldb-library/db/log_writer.cc:43-78 | one turn: a tail shorter than a header is zeroed, the fragment takes what fits |
| Log.Writer.AddRecord | ios/Pods/leveldb-library/db/log_writer.cc:34-80 | the record is appended as fragments that never cross a block, an empty one as one fragment |
| LogReader.Reader.FillBuffer | ios/Pods/leveldb-library/db/log_reader.cc:191-214 | the next block, or what there is of it |
| LogReader.Reader.ParseBuffer | ios/Pods/leveldb-library/db/log_reader.cc:216-270 | what the header in the buffer says: fragment, bad record, or the torn end |
| LogReader.Reader.ReadPhysicalRecord | ios/Pods/leveldb-library/db/log_reader.cc:189-271 | the block-wise reader agrees with parsing the file at its position, reports included |
| LogReader.Reader.ReadPiece | ios/Pods/leveldb-library/db/log_reader.cc:71-172 | one turn of reassembly |
| LogReader.Reader.ReadRecord | ios/Pods/leveldb-library/db/log_reader.cc:56-174 | the loop agrees with the specification of the next logical record, its end position and its reports |
| LogRoundTrip.FragmentParses | ios/Pods/leveldb-library/db/log_reader.cc:189-271 | a fragment is parsed back if it is all there, else the file ends there |
| LogRoundTrip.TornPieceIsTheEnd | ios/Pods/leveldb-library/db/log_reader.cc:222-233 | a fragment cut behind its header is the end of the file, not corruption |
| LogRoundTrip.RecordReads | ios/Pods/leveldb-library/db/log_reader.cc:56-174 | a record is read back if complete; if its end is missing nothing is returned or reported |
| LogRoundTrip.TornLogReads | ios/Pods/leveldb-library/db/log_reader.cc:56-174 | reading any byte prefix of any log returns exactly the records complete in it and reports no corruption |
| LogRoundTrip.WholeLogReads | ios/Pods/leveldb-library/db/log_reader.cc:56-174 | reading a whole log returns exactly the records written |
| LogRoundTrip.WriteAll | ios/Pods/leveldb-library/db/log_writer.cc:34-80 | the writer makes such a log |
| LogRoundTrip.ReadAll | ios/Pods/leveldb-library/db/db_impl.cc:418-453 | the loop of a caller collects what the specification says |
| LogReuse.AppendIsRead | ios/Pods/leveldb-library/db/db_impl.cc:457-476 | behind a clean cut an appended record is read back, after all records complete in front of it and without a report |
| LogReuse.AppendIsLost | ios/Pods/leveldb-library/db/db_impl.cc:457-476 | behind any other cut it is lost, or corruption is reported, as soon as the checksum tells the torn fragment from what now follows it |
| LogReuse.ReuseKeepsTheLog | ios/Pods/leveldb-library/db/db_impl.cc:457-476 | for every log, every cut and every record: a record appended to the cut log is read back, with the complete ones and without a report, if and only if the cut is clean |
| LogReuse.TornLogMustNotBeReused | ios/Pods/leveldb-library/db/db_impl.cc:457-476 | a record of one byte cut behind its header is such a cut: the record appended to it is lost |
| LogFiles.RecordReplays | ios/Pods/leveldb-library/db/db_impl.cc:418-430 | a record replays to the entries it was written for |
| LogFiles.TornFileReplays | ios/Pods/leveldb-library/db/db_impl.cc:418-453 | a log file cut off anywhere replays to exactly the groups whose records are complete in it |
| LogFiles.LogStepAppends | ios/Pods/leveldb-library/db/db_impl.cc:1204-1222 | the step that logs a group appends the record of its batch to the bytes of the file |
| LogFiles.WholeLogReplays | ios/Pods/leveldb-library/db/db_impl.cc:418-453 | after a crash between records the bytes of the log in use replay to what the machine says the log holds |
| LogFiles.TornLogReplays | ios/Pods/leveldb-library/db/db_impl.cc:418-453 | after a crash inside AddRecord they replay to the log without the group being written |
| LogFiles.ReusedLogReplays | ios/Pods/leveldb-library/db/db_impl.cc:457-476 | a torn log that stays in use behind a clean cut replays to the machine log, with the next group |
| VersionEditCodec.NewFilesRead | ios/Pods/leveldb-library/db/version_edit.cc:77-84 | new files are read back in order |
| VersionEditCodec.DecodeUndoesEncode | ios/Pods/leveldb-library/db/version_edit.cc:107-205 | decoding the encoding gives back the whole edit; compact pointers of the edit decoded into stay in front |
| VersionEditCodec.VersionEdit.Clear | ios/Pods/leveldb-library/db/version_edit.cc:26-39 | clears everything except the compact pointers |
| VersionEditCodec.VersionEdit.EncodeTo | ios/Pods/leveldb-library/db/version_edit.cc:41-85 | writes the encoding |
| VersionEditCodec.VersionEdit.DecodeFrom | ios/Pods/leveldb-library/db/version_edit.cc:107-205 | agrees with the specification of decoding on every input, corrupt ones included |
| WriteBatch.ParseUndoesEncode | ios/Pods/leveldb-library/db/write_batch 2.cc:42-80 | iterating over a batch hands out its operations in order |
| WriteBatch.CutBatchIsRefused | ios/Pods/leveldb-library/db/write_batch 2.cc:42-80 | a batch cut short anywhere is never taken for a whole one, and hands out none but its first operations |
| WriteBatch.WriteBatch.Add | ios/Pods/leveldb-library/db/write_batch 2.cc:98-109 | one operation more at the end, the count in the header up by one |
| WriteBatch.WriteBatch.Append | ios/Pods/leveldb-library/db/write_batch 2.cc:144-148 | the other batch without its header goes behind |
| WriteBatch.WriteBatch.SetSequence | ios/Pods/leveldb-library/db/write_batch 2.cc:94-96 | patches the sequence number in place and nothing else |
| WriteBatch.WriteBatch.Iterate | ios/Pods/leveldb-library/db/write_batch 2.cc:42-80 | agrees with the specification on every byte string, with its three kinds of corruption |
| WriteBatch.WriteBatch.InsertInto | ios/Pods/leveldb-library/db/write_batch 2.cc:116-137 | operations enter the memtable with consecutive sequence numbers |
| GroupCommit.BuildBatchGroup | ios/Pods/leveldb-library/db/db_impl.cc:1260-1306 | the longest prefix of the queue in which nobody must wait, with its batches concatenated in order |
| GroupCommit.GroupIsBounded | ios/Pods/leveldb-library/db/db_impl.cc:1269-1302 | no sync write rides with a non-sync leader, and the bytes stay within the bound unless the leader alone exceeds it |
| GroupCommit.WriteQueue.Enqueue | ios/Pods/leveldb-library/db/db_impl.cc:1192 | arrivals queue up in order |
| GroupCommit.WriteQueue.Write | ios/Pods/leveldb-library/db/db_impl.cc:1185-1256 | the group is one log record with sequence numbers from last + 1 on, leaves the queue, and every writer in it completes with its status |
| GroupCommit.GroupIsFinished | ios/Pods/leveldb-library/db/db_impl.cc:1239-1248 | finished writers and the queue together are the arrivals in order |
| GroupCommit.GroupIsAcknowledged | ios/Pods/leveldb-library/db/db_impl.cc:1239-1248 | the acknowledged operations are those of the successful groups in order |
| SkipList.WriterKeeps | ios/Pods/leveldb-library/db/skiplist.h:337-368 | every store of an insert keeps each level a sorted list and a sublist of the one below, and only adds |
| SkipList.LinkedIsWellFormed | ios/Pods/leveldb-library/db/skiplist.h:362-367 | linking one level behind its predecessor keeps all levels well formed |
| SkipList.ReaderStepOk | ios/Pods/leveldb-library/db/skiplist.h:260-281 | each step of a search keeps what it relies on; the step that returns is right in the state of its last read |
| SkipList.ReaderSurvives | ios/Pods/leveldb-library/db/skiplist.h:337-368 | the writer never invalidates a search in progress |
| SkipList.InterleavingKeeps | ios/Pods/leveldb-library/db/skiplist.h:260-281 | so it is in every interleaving of reader and writer steps, with any height seen |
| SkipList.SearchIsLinearizable | ios/Pods/leveldb-library/db/skiplist.h:260-281 | a search beside an insert can always go on and returns the right answer of the moment of its last read |
| SkipList.SkipList.FindGreaterOrEqual | ios/Pods/leveldb-library/db/skiplist.h:260-281 | the least key not before the target, and the predecessor on every level |
| SkipList.SkipList.FindLessThan | ios/Pods/leveldb-library/db/skiplist.h:283-302 | the latest node before a key, or the head |
| SkipList.SkipList.FindLast | ios/Pods/leveldb-library/db/skiplist.h:304-322 | the node with the largest key, or the head |
| SkipList.SkipList.Contains | ios/Pods/leveldb-library/db/skiplist.h:370-378 | true exactly for the keys in the list |
| SkipList.SkipList.Insert | ios/Pods/leveldb-library/db/skiplist.h:337-368 | exactly one key more, the list well formed |
| PbVarint.Varint32Reads | ios/Pods/nanopb/pb_decode.c:187-247 | the 32-bit decoder reads back every canonical encoding |
| PbVarint.Varint64Reads | ios/Pods/nanopb/pb_decode.c:255-276 | so does the 64-bit decoder |
| PbVarint.SignExtendedReads | ios/Pods/nanopb/pb_decode.c:216-242 | it accepts a negative number written with all ten bytes |
| PbVarint.PaddedZeroReads | ios/Pods/nanopb/pb_decode.c:216-242 | it also accepts a padded zero the encoder never writes |
| PbFieldIter.FieldIter.Next | ios/Pods/nanopb/pb_common.c:29-85 | one field on or around to the first; data pointer, size and required index are functions of the position however it was reached |
| PbFieldIter.FieldIter.Find | ios/Pods/nanopb/pb_common.c:87-106 | finds a field with the tag wherever it starts, or returns to where it was |
| PbFieldIter.OnlyField | ios/Pods/nanopb/pb_common.c:87-106 | with distinct tags it is the field itself |
| PbFieldIter.MembersAreApart | ios/Pods/nanopb/pb_common.c:29-85 | every entry of a member ends before a later member starts, unless a union lies between |
| PbEncode.OStream.WriteVarint | ios/Pods/nanopb/pb_encode.c:608-628 | appends or counts the base-128 groups |
| PbEncode.PackedSize | ios/Pods/nanopb/pb_encode.c:169-189 | the length prefix of a packed array, computed without writing, is the number of bytes its elements take |
| PbEncode.EncodeArray | ios/Pods/nanopb/pb_encode.c:147-236 | arrays, packed or not, in a sizing and in a writing stream alike |
| PbEncode.EncodeSubmessage | ios/Pods/nanopb/pb_encode.c:717-765 | sizing pass and writing pass always agree, so the changed-size error cannot happen |
| PbEncode.EncodeField | ios/Pods/nanopb/pb_encode.c:341-426 | every kind of field is written, or left out, as its value demands, into either kind of stream |
| PbEncode.EncodeMessage | ios/Pods/nanopb/pb_encode.c:528-550 | all fields in the order of the descriptor, in either kind of stream |
| PbEncode.EncodeToBuffer | ios/Pods/nanopb/pb_encode.c:567-576 | encoding into a buffer succeeds if and only if the size can be computed and fits, and writes exactly that many bytes |
| PbInput.IStream.Read | ios/Pods/nanopb/pb_decode.c:102-137 | consumed plus remaining bytes stay constant; a failed read consumes nothing |
| PbInput.IStream.DecodeVarint32 | ios/Pods/nanopb/pb_decode.c:187-247 | agrees with the specification on every input |
| PbInput.IStream.DecodeVarint64 | ios/Pods/nanopb/pb_decode.c:255-276 | agrees with the specification on every input |
| PbInput.IStream.MakeSubstream | ios/Pods/nanopb/pb_decode.c:372-385 | the substream has exactly the prefixed bytes, the parent the rest |
| PbInput.IStream.CloseSubstream | ios/Pods/nanopb/pb_decode.c:387-400 | the parent continues behind prefix and length, however much the substream read |
| PbInput.IStream.SkipField | ios/Pods/nanopb/pb_decode.c:321-331 | skips exactly one value of the wire type |
| PbDecoder.DecodeScalar | ios/Pods/nanopb/pb_decode.c:1334-1445 | every scalar decoder agrees with its specification, range checks included |
| PbDecoder.DecodeString | ios/Pods/nanopb/pb_decode.c:1447-1523 | strings and byte arrays, with their size limits |
| PbDecoder.DecodePacked | ios/Pods/nanopb/pb_decode.c:424-455 | the loop over a packed array within its room |
| PbDecoder.DecodeSubmessage | ios/Pods/nanopb/pb_decode.c:1525-1547 | decodes in a substream and closes it |
| PbDecoder.DecodeField | ios/Pods/nanopb/pb_decode.c:406-483 | static fields of every kind, oneof members and counters |
| PbDecoder.CheckComplete | ios/Pods/nanopb/pb_decode.c:1032-1078 | walking the iterator to count them, true exactly if every tick for a required field is there and the last fixed-count array is complete |
| PbDecoder.DecodeMessage | ios/Pods/nanopb/pb_decode.c:934-1082 | terminates on every input by the bytes left, and agrees with the specification |
| PbDecoder.DecodeBuffer | ios/Pods/nanopb/pb_decode.c:1084-1096 | pb_decode from a buffer, starting from the defaults |
| PbMessage.OmittedExactly | ios/Pods/nanopb/pb_encode.c:240-326 | a singular value passes for a default exactly if it is the default and nothing in it is always written |
| PbRoundTrip.ScalarReads | ios/Pods/nanopb/pb_encode.c:776-850 | every scalar is read back, signed, unsigned, zigzag, fixed and bool |
| PbRoundTrip.PackedReads | ios/Pods/nanopb/pb_decode.c:424-455 | a packed array is read back element by element |
| PbRoundTrip.BoolReadsNumbers | ios/Pods/nanopb/pb_decode.c:1334-1343 | any number but zero is read as true |
| PbRoundTrip.NegativeIn32Bits | ios/Pods/nanopb/pb_decode.c:1353-1362 | a negative number is also read if it was written as 32 bits without sign extension |
| PbRoundTrip.FixedBytesMayBeEmpty | ios/Pods/nanopb/pb_decode.c:1549-1571 | bytes of fixed length may come empty and are zeros then |
| PbRoundTrip.ArrayReads | ios/Pods/nanopb/pb_decode.c:406-483 | any repeated field is read back |
| PbRoundTrip.FieldReads | ios/Pods/nanopb/pb_decode.c:406-483 | any field is read back, whatever follows it |
| PbRoundTrip.MessageReads | ios/Pods/nanopb/pb_decode.c:934-1082 | a whole message, nested to any depth, is read back |
| PbRoundTrip.LeftOutExactly | ios/Pods/nanopb/pb_encode.c:341-426 | a field takes no bytes exactly if it is at its default, neither required nor of fixed length, and, if singular, contains nothing that is |
| PbRoundTrip.FullStringFails | ios/Pods/nanopb/pb_decode.c:1487-1523 | a string that fills its array is refused by the decoder |
| PbRoundTrip.FieldsFail | ios/Pods/nanopb/pb_decode.c:934-1082 | and the message holding it with it |
| PbRoundTrip.DecodeUndoesEncodeExactly | ios/Pods/nanopb/pb_decode.c:1084-1096 | decoding the bytes of any well-formed message gives the message if every string leaves room for its terminator, and fails if one does not |
| PbUnknown.ValueIsSkipped | ios/Pods/nanopb/pb_encode.c:674-709 | the wire type written in front of a value tells a reader that does not know the field exactly where the value ends |
| PbUnknown.PackedIsSkipped | ios/Pods/nanopb/pb_encode.c:158-199 | so does that of a packed array |
| PbUnknown.FieldIsSkipped | ios/Pods/nanopb/pb_decode.c:990-994 | a field that is not known is passed over, whatever its kind and whatever follows it |
| PbUnknown.DecodesToKnownFields | ios/Pods/nanopb/pb_decode.c:934-1082 | a reader that knows any part of the fields decodes the encoding of a whole message to exactly those fields |
| PbRequired.TickedIsRequired | ios/Pods/nanopb/pb_decode.c:1021-1026 | all ticks are there exactly if the tag of every checked field was met |
| PbRequired.DecodesExactly | ios/Pods/nanopb/pb_decode.c:1032-1078 | decoding succeeds exactly if every field can be read, the last fixed-count array is complete, and each of the first 64 required fields has its tag among those met on the top level |
| PbRequired.OnlySixtyFourAreChecked | ios/Pods/nanopb/pb_decode.c:1056-1077 | a message of required fields of which the first m are sent decodes exactly if they are all or at least 64 |
| PbBounds.AppendedInBounds | ios/Pods/nanopb/pb_decode.c:424-483 | new elements never go beyond the array of a repeated field |
| PbBounds.MessageStaysInBounds | ios/Pods/nanopb/pb_decode.c:934-1082 | whatever the input, filling a message keeps every array and string of it within its bounds, on any level of nesting |
| PbBounds.DecodeStaysInBounds | ios/Pods/nanopb/pb_decode.c:1084-1096 | no input makes the decoder write beyond an array of the struct |

## Left out

- Manual compactions that leave a harmful gap: the source starts them all the same; the runs do not, because a flush then breaks a level (`FlushGaps.FlushesAreHarmless`). How a manual compaction continues over several ranges (`ManualCompaction::begin`) is not modelled.
- Torn logs: runs model a crash of the process between steps or inside AddRecord, at any byte of the record being written. Reusing a torn log behind a cut that is not clean, which the source does with `reuse_logs`, is left out of the runs because it loses operations (`LogReuse.ReuseKeepsTheLog`). The byte file of a log that was already reused behind a torn header is not followed further.
- CrashRecoverKeeps: assumes that the logs in the directory are those the store wrote, plus empty ones of recoveries that were themselves cut short; operating-system crashes that lose unsynced data are not modelled.
- EveryReadIsRight: leaves out the keys a merge has resurrected, which the code really reads wrongly at the time of that merge (`StoreInvariant.MergeHolds`); that a later operation on such a key heals it is not stated.
- SnapshotsAreStable: for keys not resurrected in either state.
- ManifestReplayIsCurrentVersion: for edits that never add a (level, number) twice; that the edits of a run are such is part of `ManifestOfRun.RecordedEditsRebuild`.
- Failed creation of a log file and the reuse of its number (`ReuseFileNumber`).
- DbIter: the iterator works on one sorted sequence of entries; that the merging iterator presents such a sequence is proved in `MergingIterator`, for children without common internal keys.
- CompactionState.CutOutput: of the grandparents the limit counts whole files that end within an output; the file in which it ends is met besides, as in the source.
- EveryFileHasItsTurn: for picks of a level over its size. A seek or a manual compaction of the same level moves the pointer too, past files it does not take.
- Reader.ReadRecord: `initial_offset` is 0; skipping to a block and resynchronising behind it are not modelled.
- Level scores, seek counts, read sampling and the choice between a size and a seek compaction: which trigger fires is a parameter of `PickCompaction`.
- Background errors, failed writes, unparsable internal keys and other corruption in tables; of corruption only the log reader, batch and edit decoders are modelled.
- Table files as bytes (blocks, index, filters, compression, cache): a table is its sorted entries with its first and last key. `FindShortestSeparator` is not modelled.
- Files: names, `CURRENT`, locks, `ReuseManifest`'s size test (its outcome is a parameter of `Open`), `prev_log_number` of old databases and `repair.cc`.
- Memory order: the skip list's atomics are sequentially consistent steps; the reader may see any height of the list. Reverse steps of its iterator are covered by `FindLessThan` only.
- Arena and memory use: the size at which a memtable is full is a parameter; slowdown sleeps, condition variables and liveness are not modelled.
- VersionSet.SaveTo: a file object stands for its level and number; the order of files within a level, and their keys, are the matter of `VersionBuilder`.
- BackgroundCompaction: the branch for manual compactions is `DbImpl.StartManualCompaction` alone; readers and writers take whole steps between those of the background thread; the job runs to its end, so no crash occurs inside the call (`Runs` has crashes at every step).
- GroupCommit: a failed sync puts the source into an error state in which later writes fail; here only the outcome of the group is passed on.
- nanopb callbacks, extensions, pointer and malloc fields, default values from descriptors, `pb_decode_delimited` and nul-terminated messages, builds with 8- or 16-bit sizes (the project sets `PB_FIELD_32BIT`), overflow of `size_t` in sums of sizes.
- nanopb structs: a message is a value; its layout in memory occurs only as the offsets the field iterator computes. The bitmap of required fields seen is a set.
- DecodesToKnownFields: which fields are known is free on the outermost level; a message inside a known field is known whole.
- DecodeUndoesEncodeExactly: for encodings shorter than 2^32 bytes, the limit of a length prefix; contents of absent optional fields are the defaults, as decoding leaves them.
