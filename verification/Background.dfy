/** DBImpl::BackgroundCompaction and CompactMemTable (db/db_impl.cc) from start to end, when
    no other thread comes in between: each call is a sequence of steps of the store, and
    leaves every read as it was. */
module Background {
  import opened DbFormat
  import opened Entries
  import opened Versions
  import opened FileSearch
  import opened CompactionInputs
  import opened CompactionWork
  import opened DropRules
  import opened Install
  import opened Lookup
  import opened Store
  import opened StoreInvariant
  import opened Runs
  import opened FileNumbering
  import opened FlushGaps
  import opened Garbage
  import opened CompactionRounds
  import opened InputIterator
  import opened DbImpl

  // ---- the other threads ----

  /** A step another thread may take whenever the mutex is free: a writer at the front of
      the queue, or a reader. */
  datatype Turn = Log(ops: seq<Op>) | Insert | Publish | Switch | Snapshot | Release(index: nat) | Ref | Unref(index: nat)

  /** What the other threads do at every place of every turn of a loop. */
  type Others = (nat, nat) -> seq<Turn>

  /** What they leave alone. */
  ghost predicate Unhindered(s: Db, s': Db) {
    && s'.job == s.job && s'.flush == s.flush && s'.commit == s.commit
    && s'.version == s.version && s'.logNumber == s.logNumber && s'.flushed == s.flushed
    && (s.imm.Some? ==> s'.imm == s.imm && s'.logFile == s.logFile && s'.nextFile == s.nextFile && s'.switched == s.switched)
  }

  function StepOf(t: Turn): Step {
    match t
    case Log(ops) => LogStep(ops)
    case Insert => InsertStep
    case Publish => PublishStep
    case Switch => SwitchStep
    case Snapshot => TakeSnapshotStep
    case Release(i) => ReleaseSnapshotStep(i)
    case Ref => PinStep
    case Unref(i) => UnpinStep(i)
  }

  ghost predicate CanTake(s: Db, t: Turn) {
    match t
    case Log(ops) => s.group.Idle? && s.lastSequence + |ops| < MAX_SEQUENCE
    case Insert => s.group.Logged?
    case Publish => s.group.Inserted?
    case Switch => s.group.Idle? && s.imm.None?
    case Release(i) => i < |s.snapshots|
    case Unref(i) => i < |s.pinned|
    case _ => true
  }

  ghost predicate Took(s: Db, t: Turn, s': Db) {
    if CanTake(s, t) then Next(s, StepOf(t), s') else s' == s
  }

  /** One turn after another. */
  ghost predicate TookAll(s: Db, turns: seq<Turn>, s': Db) {
    exists states: seq<Db> ::
      && |states| == |turns| + 1 && states[0] == s && states[|turns|] == s'
      && forall i | 0 <= i < |turns| :: Took(states[i], turns[i], states[i + 1])
  }

  lemma TurnsGoOn(s: Db, turns: seq<Turn>, s': Db, t: Turn, s'': Db)
    requires TookAll(s, turns, s') && Took(s', t, s'')
    ensures TookAll(s, turns + [t], s'')
  {
    hide Took;
    var states: seq<Db> :| |states| == |turns| + 1 && states[0] == s && states[|turns|] == s'
                  && forall i | 0 <= i < |turns| :: Took(states[i], turns[i], states[i + 1]);
    var all := states + [s''];
    assert all[|turns + [t]|] == s'';
    forall i | 0 <= i < |turns + [t]| ensures Took(all[i], (turns + [t])[i], all[i + 1]) {
      if i == |turns| { assert all[i] == s'; }
    }
  }

  lemma NoTurns(s: Db)
    ensures TookAll(s, [], s)
  {
    assert [s][0] == s;
  }

  /** A turn leaves alone what the background thread works on. */
  lemma TurnIsHarmless(s: Db, t: Turn, s': Db)
    requires Took(s, t, s')
    ensures Reaches(s, s') && Unhindered(s, s')
  {
    hide Reaches, Numbered;
    if CanTake(s, t) { ReachesInOne(s, StepOf(t), s'); } else { ReachesItself(s); }
  }

  /** Another thread takes a step, if it can. */
  method TakeTurn(db: DbImpl, t: Turn)
    requires db.Sane()
    modifies db
    ensures db.Sane() && Took(old(db.State()), t, db.State())
    ensures Reaches(old(db.State()), db.State()) && Unhindered(old(db.State()), db.State())
  {
    hide *;
    ghost var s := db.State();
    if t.Log? || t.Insert? || t.Publish? || t.Switch? { WriterTurn(db, t); } else { ReaderTurn(db, t); }
    TurnIsHarmless(s, t, db.State());
  }

  method WriterTurn(db: DbImpl, t: Turn)
    requires db.Sane() && (t.Log? || t.Insert? || t.Publish? || t.Switch?)
    modifies db
    ensures db.Sane() && Took(old(db.State()), t, db.State())
  {
    hide Inv, NumbersUnique, Next;
    match t
    case Log(ops) => if db.group.Idle? && db.lastSequence + |ops| < MAX_SEQUENCE { db.AddRecord(ops); }
    case Insert => if db.group.Logged? { db.InsertInto(); }
    case Publish => if db.group.Inserted? { db.SetLastSequence(); }
    case Switch => if db.group.Idle? && db.imm.None? { db.SwitchToNewMemTable(); }
  }

  method ReaderTurn(db: DbImpl, t: Turn)
    requires db.Sane() && (t.Snapshot? || t.Release? || t.Ref? || t.Unref?)
    modifies db
    ensures db.Sane() && Took(old(db.State()), t, db.State())
  {
    hide Inv, NumbersUnique, Next;
    match t
    case Snapshot => var sn := db.GetSnapshot();
    case Release(i) => if i < |db.snapshots| { db.ReleaseSnapshot(i); }
    case Ref => db.RefVersion();
    case Unref(i) => if i < |db.pinned| { db.UnrefVersion(i); }
  }

  method OtherThreads(db: DbImpl, turns: seq<Turn>)
    requires db.Sane()
    modifies db
    ensures db.Sane() && Reaches(old(db.State()), db.State()) && Unhindered(old(db.State()), db.State())
    ensures TookAll(old(db.State()), turns, db.State())
  {
    hide Inv, NumbersUnique, Reaches, Took, TookAll;
    ghost var s := db.State();
    ReachesItself(s);
    NoTurns(s);
    for i := 0 to |turns|
      invariant TookAll(s, turns[..i], db.State())
      invariant db.Sane() && Reaches(s, db.State()) && Unhindered(s, db.State())
    {
      ghost var s' := db.State();
      TakeTurn(db, turns[i]);
      ReachesOn(s, s', db.State());
      TurnsGoOn(s, turns[..i], s', turns[i], db.State());
      assert turns[..i + 1] == turns[..i] + [turns[i]];
    }
    assert turns[..|turns|] == turns;
  }

  // ---- the background thread ----

  lemma VersionIsSound(s: Db)
    requires Inv(s)
    ensures WfLevels(s.version) && NewerAbove(s.version)
  {
  }

  /** LogAndApply for a version already built: the record, written while others go on, then
      the installation. */
  method LogAndApply(db: DbImpl, others: Others)
    requires db.Sane() && db.commit.Commit? && !db.commit.written && db.flush.None?
    modifies db
    ensures db.Sane() && db.commit.NoCommit? && db.flush.None? && Reaches(old(db.State()), db.State())
    ensures db.job == old(if db.commit.ofFlush then db.job else None)
    ensures db.version == old(db.commit.record.version) && db.logNumber == old(db.commit.record.logNumber)
    ensures db.flushed == old(db.commit.covers) && (old(db.commit.ofFlush) ==> db.imm.None?)
  {
    hide Inv, NumbersUnique, Reaches, PendingAfter, TookAll;
    ghost var s := db.State();
    OtherThreads(db, others(0, 0));
    ghost var s1 := db.State();
    db.WriteManifestRecord();
    ghost var s2 := db.State();
    ReachesNext(s, s1, WriteRecordStep, s2);
    OtherThreads(db, others(0, 1));
    ghost var s3 := db.State();
    ReachesOn(s, s2, s3);
    db.InstallNewVersion();
    ReachesNext(s, s3, InstallStep, db.State());
  }

  /** Between two places where a background job waits for the mutex. */
  ghost predicate Idling(db: DbImpl, start: Db, job: Option<Job>)
    reads db
  {
    db.Sane() && db.flush.None? && db.commit.NoCommit? && db.job == job && Reaches(start, db.State())
  }

  /** A flush: the memtable is a table on the level picked for it, with the first free
      number, and the logs before the current one are not needed any more. */
  ghost predicate Flushed(s: Db, s': Db, size: nat)
    requires s.imm.Some?
  {
    && s'.imm.None? && s'.logNumber == s.logFile && s'.flushed == s.switched
    && exists level :: FlushedVersion(s.version, s'.version, s.nextFile, s.imm.value, level, size, s.maxOverlapBytes)
  }

  method CompactMemTable(db: DbImpl, others: Others, size: nat)
    requires db.Sane() && db.imm.Some? && db.flush.None? && db.commit.NoCommit?
    modifies db
    ensures Idling(db, old(db.State()), old(db.job))
    ensures Flushed(old(db.State()), db.State(), size) && Tidy(db.State())
    ensures EntrySet(old(db.imm.value)) <= LevelsEntries(db.version)
    ensures FlushedOn(old(db.version), db.version, db.maxOverlapBytes)
  {
    hide Inv, NumbersUnique, Reaches, FlushedVersion, FlushedOn, Tidy, TookAll;
    ghost var s := db.State();
    db.StartFlush();
    ghost var s1 := db.State();
    ReachesInOne(s, StartFlushStep, s1);
    OtherThreads(db, others(1, 0));
    ghost var s2 := db.State();
    ReachesOn(s, s1, s2);
    var level := db.FinishFlush(size);
    ghost var s3 := db.State();
    ReachesNext(s, s2, CommitFlushStep(level, size), s3);
    CommittedFlush(s2, s3, s3.commit.record.version, level, size);
    LogAndApply(db, others);
    ghost var s4 := db.State();
    ReachesOn(s, s3, s4);
    db.DeleteObsoleteFiles();
    ReachesNext(s, s4, CollectStep, db.State());
    CollectedIsTidy(s4, db.State());
  }

  /** IsTrivialMove. */
  predicate TrivialMove(c: Compaction, maxGrandParentOverlapBytes: nat) {
    |c.inputs0| == 1 && |c.inputs1| == 0 && TotalFileSize(c.grandparents) <= maxGrandParentOverlapBytes
  }

  /** A merge under way: `count` outputs have got their numbers, and the version has grown
      by memtables flushed in between. */
  ghost predicate Merging(db: DbImpl, start: Db, job: Job, count: nat)
    reads db
  {
    && FlushedOn(job.base, db.version, db.maxOverlapBytes)
    && db.job.Some? && |db.job.value.outputs| == count
    && Idling(db, start, Some(job.(outputs := db.job.value.outputs)))
  }

  /** The front of the loop: others go on, and an immutable memtable is flushed first. */
  method MemTableFirst(db: DbImpl, others: Others, i: nat, flushSize: nat, ghost start: Db, ghost job: Job, ghost count: nat)
    requires Merging(db, start, job, count)
    modifies db
    ensures Merging(db, start, job, count)
  {
    hide Inv, NumbersUnique, Reaches, FlushedOn, Flushed, Tidy, TookAll;
    ghost var s := db.State();
    OtherThreads(db, others(i, 0));
    ghost var s' := db.State();
    ReachesOn(start, s, s');
    if db.imm.Some? {
      CompactMemTable(db, (turn: nat, place: nat) => others(i, 1 + 2 * turn + place), flushSize);
      ReachesOn(start, s', db.State());
      FlushesJoin(job.base, s'.version, db.version, db.maxOverlapBytes);
    }
  }

  method OpenOutput(db: DbImpl, ghost start: Db, ghost job: Job, ghost count: nat)
    requires Merging(db, start, job, count)
    modifies db
    ensures Merging(db, start, job, count + 1)
  {
    hide Inv, NumbersUnique, Reaches, FlushedOn;
    ghost var s := db.State();
    db.OpenCompactionOutputFile();
    ReachesNext(start, s, OpenOutputStep, db.State());
  }

  /** The loop of DoCompactionWork.  Between two entries of the merged input the mutex is
      free: others write, switch memtables, take and release snapshots, and an immutable
      memtable is flushed.  The outputs hold what the drop rules keep all the same. */
  method MergeLoop(db: DbImpl, compact: CompactionState, es: seq<Entry>, others: Others, flushSize: nat -> nat, full: seq<Entry> -> bool,
                   ghost start: Db, ghost job: Job)
    requires Merging(db, start, job, 0) && compact.At(es, 0, None, MAX_SEQUENCE) && compact.output.Opened() == 0
    requires Sorted(es) && WfLevels(compact.inputVersion) && compact.Cutting(es, 0, full, db.maxOverlapBytes)
    modifies db, compact
    ensures compact.output.builder.None? && compact.output.NoneEmpty()
    ensures WellCut(compact.compaction.grandparents, compact.output.finished, full, db.maxOverlapBytes)
    ensures Merging(db, start, job, |compact.output.finished|)
    ensures Flatten(compact.output.finished) == Kept(es, |es|, compact.TheRules())
  {
    hide Merging, Kept, Flatten, Sorted, WfLevels, WellCut;
    var i := 0;
    var currentUserKey: Option<UserKey> := None;
    var lastSequenceForKey: SeqNo := MAX_SEQUENCE;
    while i < |es|
      invariant i <= |es| && compact.At(es, i, currentUserKey, lastSequenceForKey)
      invariant Merging(db, start, job, compact.output.Opened())
      invariant compact.Cutting(es, i, full, db.maxOverlapBytes)
    {
      MemTableFirst(db, others, i, flushSize(i), start, job, compact.output.Opened());
      var drop;
      drop, currentUserKey, lastSequenceForKey := compact.Decide(es, i, currentUserKey, lastSequenceForKey, db.maxOverlapBytes, full);
      if !drop {
        if compact.output.builder.None? { OpenOutput(db, start, job, compact.output.Opened()); }
        compact.WriteKept(es, i, currentUserKey, lastSequenceForKey, full, db.maxOverlapBytes);
      }
      i := i + 1;
    }
    compact.FinishLast(es, i, full, db.maxOverlapBytes);
  }

  /** A merge on `base`: the tables made of what the drop rules keep, cut where they should
      be, stand in for the inputs, in the version grown by memtables flushed meanwhile. */
  ghost predicate Merged(base: Levels, w: Levels, v: Levels, c: Compaction, smallest: SeqNo, numbers: seq<nat>, es: seq<Entry>, runs: seq<seq<Entry>>, outs: seq<File>,
                         full: seq<Entry> -> bool, maxBytes: nat)
  {
    && c.level + 1 < NUM_LEVELS
    && FlushedOn(base, w, maxBytes)
    && MergeOutputs(Job(c, base, smallest, numbers), es, runs, outs)
    && WellCut(c.grandparents, runs, full, maxBytes)
    && Replaced(w, v, c, outs)
  }

  ghost predicate MergeDone(base: Levels, v: Levels, c: Compaction, smallest: SeqNo, full: seq<Entry> -> bool, maxBytes: nat) {
    exists w, numbers, es, runs, outs :: Merged(base, w, v, c, smallest, numbers, es, runs, outs, full, maxBytes)
  }

  method DoCompactionWork(db: DbImpl, others: Others, flushSize: nat -> nat, full: seq<Entry> -> bool, size: seq<Entry> -> nat)
    requires db.Sane() && db.job.Some? && db.job.value.outputs == [] && db.flush.None? && db.commit.NoCommit?
    requires db.job.value.base == db.version && Selected(db.version, db.job.value.c)
    modifies db
    ensures db.Sane() && db.commit.Commit? && !db.commit.written && !db.commit.ofFlush && db.flush.None?
    ensures Reaches(old(db.State()), db.State())
    ensures MergeDone(old(db.version), db.commit.record.version, old(db.job.value.c), old(db.job.value.smallest), full, db.maxOverlapBytes)
  {
    VersionIsSound(db.State());
    hide FlushedOn, MergeDone;
    hide Inv, NumbersUnique, Selected, WfLevels, NewerAbove, Next, Kept, Flatten, InputEntries, Sorted, Reaches;
    ghost var s := db.State();
    ReachesItself(s);
    var job := db.job.value;
    var es := MergedInput(job.base, job.c);
    var compact := new CompactionState(job.c, job.base, job.smallest);
    NothingWritten(es, compact);
    NoFlush(job.base, db.maxOverlapBytes);
    MergeLoop(db, compact, es, others, flushSize, full, s, job);
    InstallMerged(db, es, compact.output.finished, size, s, job, full);
  }

  method InstallMerged(db: DbImpl, ghost es: seq<Entry>, runs: seq<seq<Entry>>, size: seq<Entry> -> nat, ghost start: Db, ghost job: Job, ghost full: seq<Entry> -> bool)
    requires Merging(db, start, job, |runs|) && WellCut(job.c.grandparents, runs, full, db.maxOverlapBytes)
    requires Sorted(es) && EntrySet(es) == InputEntries(job.c)
    requires Flatten(runs) == Kept(es, |es|, JobRules(job))
    requires forall i | 0 <= i < |runs| :: |runs[i]| > 0
    modifies db
    ensures db.Sane() && db.commit.Commit? && !db.commit.written && !db.commit.ofFlush && db.flush.None?
    ensures Reaches(start, db.State())
    ensures MergeDone(job.base, db.commit.record.version, job.c, job.smallest, full, db.maxOverlapBytes)
  {
    hide Inv, NumbersUnique, Next, Kept, Flatten, InputEntries, Sorted, Reaches, FlushedOn, MergeDone, WellCut;
    ghost var s := db.State();
    var outs := db.InstallCompactionResults(es, runs, size);
    ReachesNext(start, s, CommitMergeStep(es, runs, outs), db.State());
    MergeCommitted(s, db.State(), es, runs, outs, full);
  }

  lemma NothingWritten(es: seq<Entry>, compact: CompactionState)
    requires compact.output == Output([], None) && compact.grandparentIndex == 0 && forall k: UserKey :: compact.CursorsBehind(k)
    requires !compact.seenKey && compact.overlappedBytes == 0 && compact.countedFrom == 0
    ensures compact.At(es, 0, None, MAX_SEQUENCE) && compact.output.Opened() == 0
    ensures forall full: seq<Entry> -> bool, max: nat :: compact.Cutting(es, 0, full, max)
  {
    assert Flatten([]) == [];
  }

  lemma MergeCommitted(s: Db, s': Db, es: seq<Entry>, runs: seq<seq<Entry>>, outs: seq<File>, full: seq<Entry> -> bool)
    requires Next(s, CommitMergeStep(es, runs, outs), s')
    requires FlushedOn(s.job.value.base, s.version, s.maxOverlapBytes) && WellCut(s.job.value.c.grandparents, runs, full, s.maxOverlapBytes)
    ensures s'.commit.Commit? && !s'.commit.written && !s'.commit.ofFlush && s'.flush == s.flush
    ensures MergeDone(s.job.value.base, s'.commit.record.version, s.job.value.c, s.job.value.smallest, full, s.maxOverlapBytes)
  {
    var j := s.job.value;
    hide FlushedOn, MergeOutputs, Replaced, WellCut;
    assert Merged(j.base, s.version, s'.commit.record.version, j.c, j.smallest, j.outputs, es, runs, outs, full, s.maxOverlapBytes);
  }

  /** A compaction: of the level the trigger names, with the file it stands for among the
      inputs; the inputs have left their levels, and one level down are the file moved or the
      tables merged. */
  ghost predicate Compacted(s: Db, s': Db, trigger: Trigger, pointer: Option<InternalKey>, limit: nat, pointer': InternalKey, c: Compaction, full: seq<Entry> -> bool)
    requires trigger.level + 1 < NUM_LEVELS && |s.version[trigger.level]| > 0
  {
    && Selected(s.version, c) && PickedBy(s.version, trigger, pointer, limit, c) && HasGrandparents(s.version, c) && pointer' == MaxKey(c.inputs0)
    && if |c.inputs0| == 1 && |c.inputs1| == 0 && TotalFileSize(c.grandparents) <= s.maxOverlapBytes then Replaced(s.version, s'.version, c, c.inputs0)
       else MergeDone(s.version, s'.version, c, OldestSnapshot(s), full, s.maxOverlapBytes)
  }

  lemma InputsLeft(s: Db, s': Db, trigger: Trigger, pointer: Option<InternalKey>, limit: nat, pointer': InternalKey, c: Compaction, full: seq<Entry> -> bool)
    requires trigger.level + 1 < NUM_LEVELS && |s.version[trigger.level]| > 0
    requires Compacted(s, s', trigger, pointer, limit, pointer', c, full)
    ensures c.level == trigger.level && forall f | f in c.inputs0 :: f !in s'.version[c.level]
  {
    hide FlushedOn, MergeOutputs, WellCut, HasGrandparents;
    if !TrivialMove(c, s.maxOverlapBytes) {
      var w, numbers, es, runs, outs :| Merged(s.version, w, s'.version, c, OldestSnapshot(s), numbers, es, runs, outs, full, s.maxOverlapBytes);
    }
  }

  /** The grandparents are in key order, so the merged tables each meet little of them. */
  lemma GrandparentsAscend(s: Db, s': Db, trigger: Trigger, pointer: Option<InternalKey>, limit: nat, pointer': InternalKey, c: Compaction, full: seq<Entry> -> bool)
    requires trigger.level + 1 < NUM_LEVELS && |s.version[trigger.level]| > 0
    requires Inv(s) && Compacted(s, s', trigger, pointer, limit, pointer', c, full)
    ensures Disjoint(c.grandparents)
  {
    VersionIsSound(s);
    hide Inv, WfLevels, MergeDone, Replaced, HasGrandparents, Disjoint;
    GrandparentsInOrder(s.version, c);
  }

  /** A call for a level over its size is one of the picks every file of the level gets its
      turn in. */
  lemma CallIsPick(s: Db, s': Db, trigger: Trigger, pointer: Option<InternalKey>, limit: nat, pointer': InternalKey, c: Compaction, full: seq<Entry> -> bool)
    requires trigger.level + 1 < NUM_LEVELS && |s.version[trigger.level]| > 0 && trigger.SizeTrigger?
    requires Inv(s) && Compacted(s, s', trigger, pointer, limit, pointer', c, full)
    ensures LevelOk(s.version, trigger.level) && Pick(s.version, trigger.level, pointer, c.inputs0, Some(pointer'))
  {
    hide WfLevels, NewerAbove, InBuilderOrder, StartsAt, MergeDone, Replaced, HasGrandparents, PickedBy;
    PickedStartsAt(s.version, trigger, pointer, limit, c);
  }

  /** Picks a compaction and does it: a move if that is enough, or a merge. */
  method Compact(db: DbImpl, trigger: Trigger, pointer: Option<InternalKey>, expandedByteLimit: nat,
                 others: Others, flushSize: nat -> nat, full: seq<Entry> -> bool, size: seq<Entry> -> nat) returns (c: Compaction, pointer': InternalKey)
    requires db.Sane() && db.job.None? && db.flush.None? && db.commit.NoCommit?
    requires trigger.level + 1 < NUM_LEVELS && |db.version[trigger.level]| > 0
    requires trigger.SeekTrigger? ==> trigger.file in db.version[trigger.level]
    modifies db
    ensures Idling(db, old(db.State()), None)
    ensures Compacted(old(db.State()), db.State(), trigger, pointer, expandedByteLimit, pointer', c, full)
  {
    hide Inv, NumbersUnique, Selected, PickedBy, HasGrandparents, NoHarmfulGap, Reaches, Replaced, MergeDone;
    ghost var s := db.State();
    c, pointer' := db.StartCompaction(trigger, pointer, expandedByteLimit);
    ghost var s1 := db.State();
    ReachesInOne(s, StartCompactionStep(c), s1);
    if TrivialMove(c, db.maxOverlapBytes) {
      db.MoveToNextLevel();
      ghost var s2 := db.State();
      ReachesNext(s, s1, CommitMoveStep, s2);
      LogAndApply(db, others);
      ReachesOn(s, s2, db.State());
    } else {
      FinishMerge(db, s, others, flushSize, full, size);
    }
  }

  method FinishMerge(db: DbImpl, ghost start: Db, others: Others, flushSize: nat -> nat, full: seq<Entry> -> bool, size: seq<Entry> -> nat)
    requires db.Sane() && db.job.Some? && db.job.value.outputs == [] && db.flush.None? && db.commit.NoCommit?
    requires db.job.value.base == db.version && Selected(db.version, db.job.value.c) && Reaches(start, db.State())
    modifies db
    ensures Idling(db, start, None) && Tidy(db.State())
    ensures MergeDone(old(db.version), db.version, old(db.job.value.c), old(db.job.value.smallest), full, db.maxOverlapBytes)
  {
    hide Inv, NumbersUnique, Selected, Reaches, MergeDone, Tidy;
    ghost var s := db.State();
    DoCompactionWork(db, (i: nat, place: nat) => others(i + 1, place), flushSize, full, size);
    ghost var s1 := db.State();
    ReachesOn(start, s, s1);
    LogAndApply(db, others);
    ghost var s2 := db.State();
    ReachesOn(start, s1, s2);
    db.DeleteObsoleteFiles();
    ReachesNext(start, s2, CollectStep, db.State());
    CollectedIsTidy(s2, db.State());
  }

  /** One call: an immutable memtable is flushed before anything else; without one, what
      `trigger` asks for is compacted.  `pointer` is where the level starts, and the next
      call finds it in `pointer'`. */
  method BackgroundCompaction(db: DbImpl, trigger: Option<Trigger>, pointer: Option<InternalKey>, expandedByteLimit: nat,
                              others: Others, flushSize: nat -> nat, full: seq<Entry> -> bool, size: seq<Entry> -> nat)
    returns (c: Option<Compaction>, pointer': Option<InternalKey>)
    requires db.Sane() && db.job.None? && db.flush.None? && db.commit.NoCommit?
    requires trigger.Some? ==> trigger.value.level + 1 < NUM_LEVELS && |db.version[trigger.value.level]| > 0
    requires trigger.Some? && trigger.value.SeekTrigger? ==> trigger.value.file in db.version[trigger.value.level]
    modifies db
    ensures Idling(db, old(db.State()), None) && ReadsStay(old(db.State()), db.State())
    ensures old(db.history) <= db.history && old(db.resurrected) <= db.resurrected
    ensures old(PendingExact(db.State())) ==> PendingExact(db.State())
    ensures old(db.imm.Some?) ==> Flushed(old(db.State()), db.State(), flushSize(0)) && EntrySet(old(db.imm.value)) <= LevelsEntries(db.version)
    ensures c.Some? <==> old(db.imm.None?) && trigger.Some?
    ensures c.Some? ==> pointer'.Some? && Compacted(old(db.State()), db.State(), trigger.value, pointer, expandedByteLimit, pointer'.value, c.value, full)
    ensures c.Some? ==> Disjoint(c.value.grandparents) && forall f | f in c.value.inputs0 :: f !in db.version[trigger.value.level]
    ensures c.None? ==> pointer' == pointer
    ensures old(db.imm.None?) && trigger.None? ==> db.State() == old(db.State())
  {
    hide Inv, NumbersUnique, Reaches, ReadsStay, PendingExact, Compacted, Flushed, FlushedOn, Tidy, Disjoint;
    ghost var s := db.State();
    ReachesItself(s);
    c, pointer' := None, pointer;
    if db.imm.Some? {
      CompactMemTable(db, others, flushSize(0));
    } else if trigger.Some? {
      var made, next := Compact(db, trigger.value, pointer, expandedByteLimit, others, flushSize, full, size);
      c, pointer' := Some(made), Some(next);
      InputsLeft(s, db.State(), trigger.value, pointer, expandedByteLimit, next, made, full);
      GrandparentsAscend(s, db.State(), trigger.value, pointer, expandedByteLimit, next, made, full);
    }
    ReachedHolds(s, db.State());
    if PendingExact(s) { ReachedPending(s, db.State()); }
    ReachedReadsStay(s, db.State());
  }
}
