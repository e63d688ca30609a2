/** A run of the store at whose end a deleted key reads as its old value: every step is one
    the source takes, none of them a crash.  Two tables of level 2 share the deleted key,
    because a snapshot kept both of its entries and the output was cut between them; a later
    compaction takes in the first of the two tables only. */
module FailingRun {
  import opened DbFormat
  import opened Entries
  import opened Versions
  import opened FileSearch
  import opened CompactionInputs
  import opened DropRules
  import opened CompactionWork
  import opened Install
  import opened Lookup
  import opened Store
  import opened StoreInvariant
  import opened CrashSafety
  import opened Runs
  import opened Counterexamples

  // ---- stretches of steps ----

  /** Nothing is under way, and everything written is in tables. */
  predicate Resting(s: Db) {
    && s.mem == [] && s.imm.None? && s.group.Idle? && s.flush.None? && s.commit.NoCommit? && s.job.None? && s.logFile in s.logs
  }

  lemma WriteRun(s: Db, ops: seq<Op>, mem: seq<Entry>) returns (s': Db)
    requires Resting(s) && s.lastSequence + |ops| < MAX_SEQUENCE
    requires InsertAll([], Numbered(ops, s.lastSequence)) == mem
    ensures Reaches(s, s') && s'.logFile in s'.logs
    ensures s' == s.(history := s.history + Numbered(ops, s.lastSequence), lastSequence := s.lastSequence + |ops|, mem := mem, logs := s'.logs)
  {
    hide Reaches, Numbered, InsertAll;
    var es := Numbered(ops, s.lastSequence);
    var s1 := s.(group := Logged(es), logs := s.logs[s.logFile := s.logs[s.logFile] + [es]], history := s.history + es);
    ReachesInOne(s, LogStep(ops), s1);
    var s2 := s1.(group := Inserted(es), mem := mem);
    ReachesNext(s, s1, InsertStep, s2);
    NumberedLength(ops, s.lastSequence);
    s' := s2.(group := Idle, lastSequence := s.lastSequence + |ops|);
    ReachesNext(s, s2, PublishStep, s');
  }

  lemma NumberedLength(ops: seq<Op>, last: nat)
    requires last + |ops| <= MAX_SEQUENCE
    ensures |Numbered(ops, last)| == |ops|
  {
  }

  lemma SwitchRun(s: Db) returns (s': Db)
    requires s.group.Idle? && s.imm.None? && s.flush.None? && s.commit.NoCommit?
    ensures Reaches(s, s') && s'.logFile in s'.logs
    ensures s' == s.(imm := Some(s.mem), mem := [], flush := Some(s.nextFile + 1), pending := s.pending + {s.nextFile + 1}, nextFile := s.nextFile + 2,
                     logFile := s.nextFile, logs := s'.logs, switched := |s.history|)
  {
    hide Reaches;
    var s1 := s.(imm := Some(s.mem), mem := [], logFile := s.nextFile, logs := s.logs[s.nextFile := []], nextFile := s.nextFile + 1, switched := |s.history|);
    ReachesInOne(s, SwitchStep, s1);
    s' := s1.(flush := Some(s1.nextFile), pending := s1.pending + {s1.nextFile}, nextFile := s1.nextFile + 1);
    ReachesNext(s, s1, StartFlushStep, s');
  }

  /** LogAndApply. */
  lemma ApplyRun(s: Db) returns (s': Db)
    requires s.commit.Commit? && !s.commit.written
    ensures Reaches(s, s')
    ensures s' == s.(version := s.commit.record.version, commit := NoCommit, imm := if s.commit.ofFlush then None else s.imm, job := if s.commit.ofFlush then s.job else None,
                     logNumber := s'.logNumber, flushed := s'.flushed, pending := s'.pending, manifest := s'.manifest)
  {
    hide Reaches, PendingAfter;
    var s1 := s.(manifest := s.commit.record, commit := s.commit.(written := true));
    ReachesInOne(s, WriteRecordStep, s1);
    s' := s1.(version := s1.commit.record.version, logNumber := s1.commit.record.logNumber, flushed := s1.commit.covers, commit := NoCommit,
              imm := if s1.commit.ofFlush then None else s1.imm, pending := PendingAfter(s1.pending, s1.job, s1.commit.ofFlush), job := if s1.commit.ofFlush then s1.job else None);
    ReachesNext(s, s1, InstallStep, s');
  }

  /** What a stretch that ends at rest leaves of the state before it. */
  predicate RestsWith(s: Db, s': Db, h: seq<Entry>, v: Levels, next: nat) {
    && Resting(s') && s'.version == v && s'.nextFile == next && s'.snapshots == s.snapshots && s'.maxOverlapBytes == s.maxOverlapBytes
    && s'.history == s.history + h && s'.lastSequence == s.lastSequence + |h|
  }

  /** A batch is written, and its memtable flushed. */
  lemma WriteAndFlush(s: Db, ops: seq<Op>, mem: seq<Entry>, level: nat, v: Levels) returns (s': Db)
    requires Resting(s) && s.lastSequence + |ops| < MAX_SEQUENCE
    requires InsertAll([], Numbered(ops, s.lastSequence)) == mem
    requires FlushedVersion(s.version, v, s.nextFile + 1, mem, level, 10, s.maxOverlapBytes)
    ensures Reaches(s, s') && RestsWith(s, s', Numbered(ops, s.lastSequence), v, s.nextFile + 2)
  {
    hide Reaches, Numbered, InsertAll, FlushedVersion;
    var s1 := WriteRun(s, ops, mem);
    NumberedLength(ops, s.lastSequence);
    var s2 := SwitchRun(s1);
    ReachesOn(s, s1, s2);
    var s3 := s2.(flush := None, pending := s2.pending - {s2.flush.value}, tables := s2.tables + {s2.flush.value},
                  commit := Commit(true, Manifest(v, s2.logFile, s2.nextFile, s2.lastSequence), s2.switched, false));
    ReachesNext(s, s2, CommitFlushStep(level, 10), s3);
    s' := ApplyRun(s3);
    ReachesOn(s, s3, s');
  }

  lemma OpenRun(s: Db, start: Db) returns (s': Db)
    requires Reaches(start, s) && s.job.Some? && s.commit.NoCommit?
    ensures Reaches(start, s')
    ensures s' == s.(job := Some(s.job.value.(outputs := s.job.value.outputs + [s.nextFile])), pending := s'.pending, tables := s'.tables, nextFile := s.nextFile + 1)
  {
    hide Reaches;
    s' := s.(job := Some(s.job.value.(outputs := s.job.value.outputs + [s.nextFile])),
             pending := s.pending + {s.nextFile}, tables := s.tables + {s.nextFile}, nextFile := s.nextFile + 1);
    ReachesNext(start, s, OpenOutputStep, s');
  }

  /** A compaction into one or two tables, from start to end. */
  lemma MergeRun(s: Db, c: Compaction, es: seq<Entry>, runs: seq<seq<Entry>>, outs: seq<File>, v: Levels) returns (s': Db)
    requires Resting(s) && Selected(s.version, c) && c.level + 1 < NUM_LEVELS && NoHarmfulGap(s.version, c, s.maxOverlapBytes)
    requires 1 <= |runs| <= 2
    requires MergeOutputs(Job(c, s.version, OldestSnapshot(s), if |runs| == 1 then [s.nextFile] else [s.nextFile, s.nextFile + 1]), es, runs, outs)
    requires Replaced(s.version, v, c, outs)
    ensures Reaches(s, s') && RestsWith(s, s', [], v, s.nextFile + |runs|)
  {
    hide Reaches, Selected, NoHarmfulGap, MergeOutputs, Replaced, Resurrected, BesideInputs, Unflushed;
    var s1 := s.(job := Some(Job(c, s.version, OldestSnapshot(s), [])));
    ReachesInOne(s, StartCompactionStep(c), s1);
    var s2 := OpenRun(s1, s);
    if |runs| == 2 { s2 := OpenRun(s2, s); }
    assert s2.job.value.outputs == if |runs| == 1 then [s.nextFile] else [s.nextFile, s.nextFile + 1];
    var s3 := s2.(commit := Commit(false, Manifest(v, s2.logNumber, s2.nextFile, s2.lastSequence), s2.flushed, false), horizon := s2.job.value.smallest,
                  resurrected := s2.resurrected + Resurrected(BesideInputs(Unflushed(s2), s2.version, c), es, JobRules(s2.job.value)));
    ReachesNext(s, s2, CommitMergeStep(es, runs, outs), s3);
    s' := ApplyRun(s3);
    ReachesOn(s, s3, s');
    assert s.history + [] == s.history;
  }

  // ---- the tables of the run ----

  const MAX_OVERLAP: nat := 100

  function Oldest(): File { Table(3, Put(3.0, 1), Put(4.0, 2)) }

  function Deleting(): File { Table(5, Put(2.0, 3), Del(3.0, 4)) }

  function Front(): File { Table(6, Put(2.0, 3), Del(3.0, 4)) }

  function Back(): File { Table(7, Put(3.0, 1), Put(4.0, 2)) }

  function Upmost(): File { Table(9, Put(1.0, 6), Put(2.0, 5)) }

  function Last(): File { Table(10, Put(1.0, 6), Put(2.0, 5)) }

  function Levels12(upper: seq<File>, lower: seq<File>): (v: Levels)
    ensures TwoLevels(v, upper, lower)
  {
    [[], upper, lower, [], [], [], []]
  }

  lemma TwoInserted(a: Entry, b: Entry)
    ensures InsertAll([], [a, b]) == if Before(b.key, a.key) then [b, a] else [a, b]
  {
    assert [a, b][..1] == [a] && [a][..0] == [] && [a][1..] == [];
    assert InsertAll([], [a]) == InsertEntry(InsertAll([], []), a) == [a];
    assert InsertAll([], [a, b]) == InsertEntry([a], b);
    assert [b] + [a] == [b, a] && [a] + [b] == [a, b];
  }

  lemma {:induction false} FewBytes(files: seq<File>, lo: UserKey, hi: UserKey)
    requires forall f | f in files :: f.size == 10
    ensures BytesMet(files, lo, hi) <= 10 * |files|
  {
    if |files| > 0 {
      var n := |files| - 1;
      FewBytes(files[..n], lo, hi);
      TotalOfTwo(OverlapFilter(files[..n], Some(lo), Some(hi)), if Overlaps(files[n], Some(lo), Some(hi)) then [files[n]] else []);
    }
  }

  lemma LandsOnTwo(lo: UserKey, hi: UserKey)
    ensures LandsAt(NO_FILES, 2, lo, hi, MAX_OVERLAP)
  {
    FewBytes([], lo, hi);
    assert forall l | 0 <= l < NUM_LEVELS :: NO_FILES[l] == [];
    hide BytesMet;
  }

  lemma LandsOnOne(lower: seq<File>, f: File, lo: UserKey, hi: UserKey)
    requires f in lower && Overlaps(f, Some(lo), Some(hi)) && |lower| <= 2 && forall g | g in lower :: g.size == 10
    ensures LandsAt(Levels12([], lower), 1, lo, hi, MAX_OVERLAP)
  {
    var v := Levels12([], lower);
    FewBytes(lower, lo, hi);
    assert LevelMeets(v, 2, lo, hi) && !LevelMeets(v, 0, lo, hi) && !LevelMeets(v, 1, lo, hi);
    hide BytesMet, LevelMeets;
  }

  /** A memtable of two entries becomes a table above or beside what is there. */
  lemma FlushedToTwo(f: File, number: nat, a: Entry, b: Entry)
    requires Before(a.key, b.key) && f == Table(number, a, b)
    ensures FlushedVersion(NO_FILES, Levels12([], [f]), number, [a, b], 2, 10, MAX_OVERLAP)
  {
    LandsOnTwo(a.key.user, b.key.user);
    hide LandsAt;
    assert MakeFile(number, 10, [a, b]) == f;
    assert forall g :: g in [f] <==> g == f;
  }

  lemma FlushedToOne(f: File, number: nat, a: Entry, b: Entry, lower: seq<File>, g: File)
    requires Before(a.key, b.key) && f == Table(number, a, b)
    requires g in lower && Overlaps(g, Some(a.key.user), Some(b.key.user)) && |lower| <= 2 && forall h | h in lower :: h.size == 10
    ensures FlushedVersion(Levels12([], lower), Levels12([f], lower), number, [a, b], 1, 10, MAX_OVERLAP)
  {
    LandsOnOne(lower, g, a.key.user, b.key.user);
    hide LandsAt;
    assert MakeFile(number, 10, [a, b]) == f;
    assert forall g :: g in [f] <==> g == f;
  }

  lemma MeetsOne(f: File, lo: Bound, hi: Bound)
    requires Overlaps(f, lo, hi)
    ensures OverlapFilter([f], lo, hi) == [f]
  {
    assert [f][..0] == [];
  }

  // ---- the first compaction: everything is kept, and cut between two entries of one key ----

  function Split(): Compaction { Compaction(1, [Deleting()], [Oldest()], []) }

  function AllFour(): seq<Entry> { [Put(2.0, 3), Del(3.0, 4), Put(3.0, 1), Put(4.0, 2)] }

  lemma SplitIsSelected(v: Levels)
    requires v == Levels12([Deleting()], [Oldest()])
    ensures Selected(v, Split()) && NoHarmfulGap(v, Split(), MAX_OVERLAP)
  {
    MeetsOne(Oldest(), UserLo([Deleting()]), UserHi([Deleting()]));
    TouchingLeavesNoGap(Deleting(), Oldest());
    GaplessHasNoGap(v, Split(), MAX_OVERLAP);
    hide NoHarmfulGap, Gapless, OverlapFilter;
  }

  lemma SplitKeeps(base: Levels)
    ensures Sorted(AllFour()) && Kept(AllFour(), 4, Rules(base, 1, 2)) == AllFour()
  {
    var es, r := AllFour(), Rules(base, 1, 2);
    assert Kept(es, 0, r) == [];
    assert Kept(es, 1, r) == [es[0]];
    assert Kept(es, 2, r) == [es[0], es[1]];
    assert Kept(es, 3, r) == [es[0], es[1], es[2]];
    assert Kept(es, 4, r) == [es[0], es[1], es[2], es[3]];
  }

  lemma SplitEntries()
    ensures EntrySet(AllFour()) == InputEntries(Split())
  {
    EntriesOfTwo(Deleting(), Oldest());
    assert [Deleting()] + [Oldest()] == [Deleting(), Oldest()];
  }

  lemma SplitOutputs(v: Levels)
    requires v == Levels12([Deleting()], [Oldest()])
    ensures MergeOutputs(Job(Split(), v, 2, [6, 7]), AllFour(), [Front().entries, Back().entries], [Front(), Back()])
  {
    hide Kept, Sorted, InputEntries, Flatten;
    SplitKeeps(v);
    SplitEntries();
    FlattenTwo(Front().entries, Back().entries);
    assert Front().entries + Back().entries == AllFour();
    TablesOfTwo(Front(), 6, Put(2.0, 3), Del(3.0, 4));
    TablesOfTwo(Back(), 7, Put(3.0, 1), Put(4.0, 2));
  }

  lemma FlattenTwo(a: seq<Entry>, b: seq<Entry>)
    ensures Flatten([a]) == a && Flatten([a, b]) == a + b
  {
    assert [a][..0] == [] && Flatten([]) == [] && [] + a == a;
    assert [a, b][..1] == [a];
  }

  lemma TablesOfTwo(f: File, number: nat, a: Entry, b: Entry)
    requires Before(a.key, b.key) && f == Table(number, a, b)
    ensures Sorted(f.entries) && f == MakeFile(number, f.size, f.entries) && |f.entries| > 0
  {
  }

  lemma SplitReplaces()
    ensures Replaced(Levels12([Deleting()], [Oldest()]), Levels12([], [Front(), Back()]), Split(), [Front(), Back()])
  {
    var a, b := Deleting(), Oldest();
    assert forall f :: f in [a] <==> f == a;
    assert forall f :: f in [b] <==> f == b;
  }

  // ---- the second compaction drops the deletion above the value ----

  function Dropping(): Compaction { Compaction(1, [Upmost()], [Front()], []) }

  function Merging(): seq<Entry> { [Put(1.0, 6), Put(2.0, 5), Put(2.0, 3), Del(3.0, 4)] }

  lemma DroppingIsSelected(v: Levels)
    requires v == Levels12([Upmost()], [Front(), Back()])
    ensures Selected(v, Dropping()) && NoHarmfulGap(v, Dropping(), MAX_OVERLAP)
  {
    MeetsTheFirst(Front(), Back(), UserLo([Upmost()]), UserHi([Upmost()]));
    TouchingLeavesNoGap(Upmost(), Front());
    GaplessHasNoGap(v, Dropping(), MAX_OVERLAP);
    hide NoHarmfulGap, Gapless, OverlapFilter;
  }

  lemma DroppingKeeps(v: Levels)
    requires v == Levels12([Upmost()], [Front(), Back()])
    ensures Sorted(Merging()) && Kept(Merging(), 4, Rules(v, 1, 6)) == Last().entries
  {
    hide IsBaseLevel, Kept, LastSequenceForKey, Before;
    var es, r := Merging(), Rules(v, 1, 6);
    MergingIsSorted();
    MergingKeys();
    NothingDeeper(v);
    NothingKept(es, r);
    KeptNext(es, 0, r, MAX_SEQUENCE, false);
    KeptNext(es, 1, r, MAX_SEQUENCE, false);
    KeptNext(es, 2, r, 5, true);
    KeptNext(es, 3, r, MAX_SEQUENCE, true);
    assert ([] + [es[0]]) + [es[1]] == Last().entries;
  }

  lemma MergingIsSorted()
    ensures Sorted(Merging())
  {
  }

  lemma MergingKeys()
    ensures LastSequenceForKey(Merging(), 0) == LastSequenceForKey(Merging(), 1) == LastSequenceForKey(Merging(), 3) == MAX_SEQUENCE
    ensures LastSequenceForKey(Merging(), 2) == 5
  {
  }

  lemma NothingKept(es: seq<Entry>, r: Rules)
    ensures Kept(es, 0, r) == []
  {
  }

  lemma NothingDeeper(v: Levels)
    requires v == Levels12([Upmost()], [Front(), Back()])
    ensures IsBaseLevel(v, 1, 3.0)
  {
  }

  lemma DroppingEntries()
    ensures EntrySet(Merging()) == InputEntries(Dropping())
  {
    EntriesOfTwo(Upmost(), Front());
    assert [Upmost()] + [Front()] == [Upmost(), Front()];
  }

  lemma DroppingOutputs(v: Levels)
    requires v == Levels12([Upmost()], [Front(), Back()])
    ensures MergeOutputs(Job(Dropping(), v, 6, [10]), Merging(), [Last().entries], [Last()])
  {
    hide Kept, Sorted, InputEntries, Flatten;
    DroppingKeeps(v);
    DroppingEntries();
    FlattenTwo(Last().entries, []);
    TablesOfTwo(Last(), 10, Put(1.0, 6), Put(2.0, 5));
  }

  lemma DroppingReplaces()
    ensures Replaced(Levels12([Upmost()], [Front(), Back()]), Levels12([], [Last(), Back()]), Dropping(), [Last()])
  {
    var a, b, c, d := Upmost(), Front(), Back(), Last();
    assert forall f :: f in [a] <==> f == a;
    assert forall f :: f in [d, c] <==> (f in [b, c] && f !in [b]) || f in [d];
  }

  // ---- the run ----

  function Fresh(): Db {
    Db(MAX_OVERLAP, [], None, NO_FILES, 0, 2, 1, 1, Idle, None, NoCommit, None, [], {}, [], Manifest(NO_FILES, 1, 2, 0), map[1 := []], {}, [], 0, 0, 0, {})
  }

  lemma FreshIsInit()
    ensures Init(Fresh()) && Resting(Fresh())
  {
  }

  function PutOp(k: UserKey): Op { Op(k, Value, [1]) }

  function DeleteOp(k: UserKey): Op { Op(k, Deletion, []) }

  lemma FirstFlush() returns (s: Db)
    ensures Reaches(Fresh(), s) && RestsWith(Fresh(), s, [Put(3.0, 1), Put(4.0, 2)], Levels12([], [Oldest()]), 4)
  {
    hide Reaches, RestsWith, FlushedVersion;
    var ops := [PutOp(3.0), PutOp(4.0)];
    assert Numbered(ops, 0) == [Put(3.0, 1), Put(4.0, 2)];
    TwoInserted(Put(3.0, 1), Put(4.0, 2));
    FlushedToTwo(Oldest(), 3, Put(3.0, 1), Put(4.0, 2));
    FreshIsInit();
    s := WriteAndFlush(Fresh(), ops, [Put(3.0, 1), Put(4.0, 2)], 2, Levels12([], [Oldest()]));
  }

  lemma SnapshotRun(s: Db) returns (s': Db)
    requires Reaches(Fresh(), s) && RestsWith(Fresh(), s, [Put(3.0, 1), Put(4.0, 2)], Levels12([], [Oldest()]), 4)
    ensures Reaches(Fresh(), s') && s' == s.(snapshots := [2])
  {
    hide Reaches, Resting;
    s' := s.(snapshots := s.snapshots + [s.lastSequence]);
    assert s.snapshots + [s.lastSequence] == [2];
    ReachesNext(Fresh(), s, TakeSnapshotStep, s');
  }

  lemma SecondFlush(s: Db) returns (s': Db)
    requires Reaches(Fresh(), s) && RestsWith(Fresh(), s, [Put(3.0, 1), Put(4.0, 2)], Levels12([], [Oldest()]), 4)
    ensures Reaches(Fresh(), s') && Resting(s') && s'.version == Levels12([Deleting()], [Oldest()]) && s'.nextFile == 6
    ensures s'.snapshots == [2] && s'.lastSequence == 4 && s'.maxOverlapBytes == MAX_OVERLAP
    ensures s'.history == [Put(3.0, 1), Put(4.0, 2), Put(2.0, 3), Del(3.0, 4)]
  {
    hide Reaches, FlushedVersion;
    var held := SnapshotRun(s);
    var ops := [PutOp(2.0), DeleteOp(3.0)];
    assert Numbered(ops, 2) == [Put(2.0, 3), Del(3.0, 4)];
    TwoInserted(Put(2.0, 3), Del(3.0, 4));
    FlushedToOne(Deleting(), 5, Put(2.0, 3), Del(3.0, 4), [Oldest()], Oldest());
    s' := WriteAndFlush(held, ops, [Put(2.0, 3), Del(3.0, 4)], 1, Levels12([Deleting()], [Oldest()]));
    ReachesOn(Fresh(), held, s');
    assert s'.history == ([] + [Put(3.0, 1), Put(4.0, 2)]) + [Put(2.0, 3), Del(3.0, 4)];
  }

  lemma FirstMerge(s: Db) returns (s': Db)
    requires Reaches(Fresh(), s) && Resting(s) && s.version == Levels12([Deleting()], [Oldest()]) && s.nextFile == 6
    requires s.snapshots == [2] && s.lastSequence == 4 && s.maxOverlapBytes == MAX_OVERLAP
    ensures Reaches(Fresh(), s') && Resting(s') && s'.version == Levels12([], [Front(), Back()]) && s'.nextFile == 8
    ensures s'.snapshots == [] && s'.lastSequence == 4 && s'.maxOverlapBytes == MAX_OVERLAP && s'.history == s.history
  {
    hide Reaches, Selected, NoHarmfulGap, MergeOutputs, Replaced;
    SplitIsSelected(s.version);
    SplitOutputs(s.version);
    SplitReplaces();
    var merged := MergeRun(s, Split(), AllFour(), [Front().entries, Back().entries], [Front(), Back()], Levels12([], [Front(), Back()]));
    ReachesOn(Fresh(), s, merged);
    s' := merged.(snapshots := merged.snapshots[..0] + merged.snapshots[1..]);
    ReachesNext(Fresh(), merged, ReleaseSnapshotStep(0), s');
    assert s'.history == s.history + [] == s.history;
  }

  lemma ThirdFlush(s: Db) returns (s': Db)
    requires Reaches(Fresh(), s) && Resting(s) && s.version == Levels12([], [Front(), Back()]) && s.nextFile == 8
    requires s.snapshots == [] && s.lastSequence == 4 && s.maxOverlapBytes == MAX_OVERLAP
    ensures Reaches(Fresh(), s') && Resting(s') && s'.version == Levels12([Upmost()], [Front(), Back()]) && s'.nextFile == 10
    ensures s'.snapshots == [] && s'.lastSequence == 6 && s'.maxOverlapBytes == MAX_OVERLAP && s'.history == s.history + [Put(2.0, 5), Put(1.0, 6)]
  {
    hide Reaches, FlushedVersion;
    var ops := [PutOp(2.0), PutOp(1.0)];
    assert Numbered(ops, 4) == [Put(2.0, 5), Put(1.0, 6)];
    TwoInserted(Put(2.0, 5), Put(1.0, 6));
    FlushedToOne(Upmost(), 9, Put(1.0, 6), Put(2.0, 5), [Front(), Back()], Front());
    s' := WriteAndFlush(s, ops, [Put(1.0, 6), Put(2.0, 5)], 1, Levels12([Upmost()], [Front(), Back()]));
    ReachesOn(Fresh(), s, s');
  }

  lemma SecondMerge(s: Db) returns (s': Db)
    requires Reaches(Fresh(), s) && Resting(s) && s.version == Levels12([Upmost()], [Front(), Back()]) && s.nextFile == 10
    requires s.snapshots == [] && s.lastSequence == 6 && s.maxOverlapBytes == MAX_OVERLAP
    ensures Reaches(Fresh(), s') && Resting(s') && s'.version == Levels12([], [Last(), Back()]) && s'.lastSequence == 6 && s'.history == s.history
  {
    hide Reaches, Selected, NoHarmfulGap, MergeOutputs, Replaced;
    DroppingIsSelected(s.version);
    DroppingOutputs(s.version);
    DroppingReplaces();
    s' := MergeRun(s, Dropping(), Merging(), [Last().entries], [Last()], Levels12([], [Last(), Back()]));
    ReachesOn(Fresh(), s, s');
    assert s.history + [] == s.history;
  }

  lemma StoredAtTheEnd(v: Levels)
    requires v == Levels12([], [Last(), Back()])
    ensures LevelsEntries(v) == {Put(1.0, 6), Put(2.0, 5), Put(3.0, 1), Put(4.0, 2)}
  {
    TwoLevelsEntries(v, [], [Last(), Back()]);
    EntriesOfTwo(Last(), Back());
  }

  lemma ReadAtTheEnd(stored: set<Entry>, logged: set<Entry>)
    requires stored == {Put(1.0, 6), Put(2.0, 5), Put(3.0, 1), Put(4.0, 2)}
    requires logged == {Put(3.0, 1), Put(4.0, 2), Put(2.0, 3), Del(3.0, 4), Put(2.0, 5), Put(1.0, 6)}
    ensures View(stored, 3.0, 6) == Some([1]) && View(logged, 3.0, 6) == None
  {
    assert Newest(stored, 3.0, 6, Put(3.0, 1));
    assert Newest(logged, 3.0, 6, Del(3.0, 4));
    ViewOfNewest(stored, 3.0, 6, Put(3.0, 1));
    ViewOfNewest(logged, 3.0, 6, Del(3.0, 4));
  }

  lemma TheRun() returns (s: Db)
    ensures Reaches(Fresh(), s) && s.lastSequence == 6 && Resting(s) && s.version == Levels12([], [Last(), Back()])
    ensures s.history == [Put(3.0, 1), Put(4.0, 2), Put(2.0, 3), Del(3.0, 4), Put(2.0, 5), Put(1.0, 6)]
  {
    hide Reaches, RestsWith;
    s := FirstFlush();
    s := SecondFlush(s);
    s := FirstMerge(s);
    s := ThirdFlush(s);
    s := SecondMerge(s);
  }

  /** The key was deleted last, and reads as a value. */
  ghost predicate BringsBack(s: Db, k: UserKey) {
    View(StoreEntries(s.mem, s.imm, s.version), k, s.lastSequence) == Some([1]) && View(EntrySet(s.history), k, s.lastSequence) == None
  }

  lemma EndBringsBack(s: Db)
    requires s.lastSequence == 6 && Resting(s) && s.version == Levels12([], [Last(), Back()])
    requires s.history == [Put(3.0, 1), Put(4.0, 2), Put(2.0, 3), Del(3.0, 4), Put(2.0, 5), Put(1.0, 6)]
    ensures BringsBack(s, 3.0)
  {
    hide LevelsEntries;
    StoredAtTheEnd(s.version);
    assert StoreEntries(s.mem, s.imm, s.version) == LevelsEntries(s.version);
    ReadAtTheEnd(LevelsEntries(s.version), EntrySet(s.history));
  }

  /** There is a run of the store without a crash, at whose end the newest operation on a key
      is a deletion, and a read of the key returns the value it deleted. */
  lemma ADeletedKeyComesBack()
    ensures exists states: seq<Db>, steps: seq<Step> ::
              IsRun(states, steps) && (forall i | 0 <= i < |steps| :: !Crashes(steps[i])) && BringsBack(states[|steps|], 3.0)
  {
    hide Next, Init, BringsBack, Resting;
    var s := TheRun();
    FreshIsInit();
    EndBringsBack(s);
    var states, steps :| IsPath(states, steps) && states[0] == Fresh() && states[|steps|] == s;
    assert IsRun(states, steps);
  }
}
