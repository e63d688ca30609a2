/** DBImpl (db/db_impl.cc): the store as an object.  Every method is what the source does
    while it holds the mutex, or the unlocked work of one thread that nothing else touches,
    and is proved to be one step of the state machine. */
module DbImpl {
  import opened DbFormat
  import opened Entries
  import opened Versions
  import opened FileSearch
  import opened CompactionInputs
  import opened CompactionWork
  import opened DropRules
  import opened Install
  import opened Lookup
  import opened History
  import opened VersionBuilder
  import opened ManifestReplay
  import opened Store
  import opened StoreInvariant
  import opened CrashSafety
  import opened LogReuse
  import opened Runs
  import opened FileNumbering
  import opened EditsApplied
  import opened Recovery

  lemma EmptyEditKeeps(v: Levels, v': Levels)
    requires Sound(v) && SavedFrom(v, Applied(NO_CHANGES, FileEdit({}, [])), v')
    ensures v' == v
  {
    assert Tagged(0, []) == [];
    forall l | 0 <= l < NUM_LEVELS ensures v'[l] == v[l] {
      OneEdit({}, 0, [], l);
      assert NumbersAt({}, l) == {};
      UntouchedLevel(v, Applied(NO_CHANGES, FileEdit({}, [])), v', l);
    }
  }

  lemma {:induction false} RunIsSorted(runs: seq<seq<Entry>>, i: nat)
    requires Sorted(Flatten(runs)) && i < |runs|
    ensures Sorted(runs[i])
  {
    var n := |runs| - 1;
    var before := Flatten(runs[..n]);
    assert Flatten(runs) == before + runs[n];
    if i < n {
      assert Sorted(before) by {
        assert forall p | 0 <= p < |before| :: Flatten(runs)[p] == before[p];
      }
      RunIsSorted(runs[..n], i);
    } else {
      assert forall p | 0 <= p < |runs[n]| :: Flatten(runs)[|before| + p] == runs[n][p];
    }
  }

  /** VersionSet::AddLiveFiles. */
  method AddLiveFiles(versions: seq<Levels>) returns (live: set<nat>)
    ensures forall n :: n in live <==> exists v :: v in versions && n in FileNumbers(v)
  {
    live := {};
    for i := 0 to |versions|
      invariant forall n :: n in live <==> exists v :: v in versions[..i] && n in FileNumbers(v)
    {
      var numbers := NumbersIn(versions[i]);
      live := live + numbers;
      assert versions[..i + 1] == versions[..i] + [versions[i]];
    }
    assert versions[..|versions|] == versions;
  }

  method NumbersIn(v: Levels) returns (numbers: set<nat>)
    ensures numbers == FileNumbers(v)
  {
    numbers := {};
    for l := 0 to NUM_LEVELS
      invariant numbers == set m, f | 0 <= m < l && m < NUM_LEVELS && f in v[m] :: f.number
    {
      numbers := numbers + (set f | f in v[l] :: f.number);
    }
  }

  lemma IdleIsPublished(s: Db)
    requires Inv(s) && s.group.Idle?
    ensures s.lastSequence == |s.history|
  {
  }

  lemma FlushIsReady(s: Db)
    requires Inv(s) && NumbersUnique(s) && s.flush.Some?
    ensures Sound(s.version) && WfLevels(s.version)
    ensures s.flush.value !in FileNumbers(s.version) && s.imm.Some? && Sorted(s.imm.value)
  {
    NextFileIsUnused(s.version, s.flush.value);
  }

  /** The version with the flushed table, at the level picked for it. */
  method FlushedTable(version: Levels, number: nat, es: seq<Entry>, maxGrandParentOverlapBytes: nat, size: nat) returns (level: nat, v: Levels)
    requires Sound(version) && WfLevels(version) && number !in FileNumbers(version) && Sorted(es)
    ensures FlushedVersion(version, v, number, es, level, size, maxGrandParentOverlapBytes)
  {
    level := 0;
    var builder := new Builder(version);
    if |es| > 0 {
      var f := MakeFile(number, size, es);
      level := PickLevelForMemTableOutput(version, f.smallest.user, f.largest.user, maxGrandParentOverlapBytes);
      OneEdit({}, level, [f], 0);
      builder.Apply(FlushEdit(level, f));
      v := builder.SaveTo();
      FlushEditAddsFile(version, v, level, f);
    } else {
      builder.Apply(FileEdit({}, []));
      v := builder.SaveTo();
      EmptyEditKeeps(version, v);
    }
  }

  /** The inputs of a compaction are still where they were, and its outputs are new. */
  predicate InputsCurrent(v: Levels, j: Job) {
    && j.c.level + 1 < NUM_LEVELS
    && (forall f | f in j.c.inputs0 :: f in v[j.c.level]) && (forall f | f in j.c.inputs1 :: f in v[j.c.level + 1])
    && NoRepeats(j.outputs) && Unused(v, j.outputs)
  }

  lemma CompactionIsReady(s: Db)
    requires Inv(s) && NumbersUnique(s)
    ensures Sound(s.version) && WfLevels(s.version)
    ensures s.job.Some? ==> InputsCurrent(s.version, s.job.value)
  {
  }

  lemma PickedHasNoGap(v: Levels, c: Compaction, maxBytes: nat)
    requires Selected(v, c) && Gapless(c.inputs0 + c.inputs1)
    ensures NoHarmfulGap(v, c, maxBytes) && |c.inputs0| > 0
  {
    GaplessHasNoGap(v, c, maxBytes);
  }

  /** The tables of a finished compaction, run by run. */
  method MakeOutputs(runs: seq<seq<Entry>>, numbers: seq<nat>, size: seq<Entry> -> nat) returns (outs: seq<File>)
    requires |runs| == |numbers| && forall i | 0 <= i < |runs| :: |runs[i]| > 0 && Sorted(runs[i])
    ensures |outs| == |runs| && forall i | 0 <= i < |outs| :: outs[i] == MakeFile(numbers[i], outs[i].size, runs[i])
  {
    outs := [];
    for i := 0 to |runs|
      invariant |outs| == i && forall j | 0 <= j < i :: outs[j] == MakeFile(numbers[j], outs[j].size, runs[j])
    {
      outs := outs + [MakeFile(numbers[i], size(runs[i]), runs[i])];
    }
  }

  lemma OutputsHaveNewNumbers(w: Levels, c: Compaction, outs: seq<File>, numbers: seq<nat>)
    requires c.level + 1 < NUM_LEVELS && |outs| == |numbers| && NoRepeats(numbers) && Unused(w, numbers)
    requires forall i | 0 <= i < |outs| :: outs[i].number == numbers[i]
    ensures OutputNumbersOk(w, c, outs)
  {
    forall f, g | f in outs && g in w[c.level + 1] ensures f.number != g.number {
      var i :| 0 <= i < |outs| && outs[i] == f;
      assert numbers[i] in numbers && g.number in FileNumbers(w);
    }
  }

  /** The version with the inputs of `c` replaced by `outs`. */
  method MergedVersion(version: Levels, c: Compaction, outs: seq<File>) returns (v: Levels)
    requires Sound(version) && c.level + 1 < NUM_LEVELS && OutputNumbersOk(version, c, outs)
    requires (forall f | f in c.inputs0 :: f in version[c.level]) && (forall f | f in c.inputs1 :: f in version[c.level + 1])
    ensures Replaced(version, v, c, outs)
  {
    var builder := new Builder(version);
    OneEdit(MergeEdit(c, outs).deleted, c.level + 1, outs, 0);
    builder.Apply(MergeEdit(c, outs));
    v := builder.SaveTo();
    MergeEditReplaces(version, v, c, outs);
  }

  /** What DoCompactionWork hands over satisfies the relation of the state machine. */
  lemma MergeIsFinished(job: Job, es: seq<Entry>, runs: seq<seq<Entry>>, outs: seq<File>)
    requires Sorted(es) && EntrySet(es) == InputEntries(job.c)
    requires Flatten(runs) == Kept(es, |es|, Rules(job.base, job.c.level, job.smallest))
    requires |runs| == |outs| == |job.outputs|
    requires forall i | 0 <= i < |outs| :: |runs[i]| > 0 && Sorted(runs[i]) && outs[i] == MakeFile(job.outputs[i], outs[i].size, runs[i])
    ensures MergeOutputs(job, es, runs, outs)
  {
  }

  lemma RunsAreSorted(es: seq<Entry>, runs: seq<seq<Entry>>, r: Rules)
    requires Sorted(es) && Flatten(runs) == Kept(es, |es|, r)
    ensures forall i | 0 <= i < |runs| :: Sorted(runs[i])
  {
    KeptSorted(es, |es|, r);
    forall i | 0 <= i < |runs| ensures Sorted(runs[i]) {
      RunIsSorted(runs, i);
    }
  }

  /** The outputs of a compaction, and the version with them installed. */
  method FinishedVersion(version: Levels, j: Job, ghost es: seq<Entry>, runs: seq<seq<Entry>>, size: seq<Entry> -> nat) returns (outs: seq<File>, v: Levels)
    requires Sound(version) && InputsCurrent(version, j)
    requires Sorted(es) && EntrySet(es) == InputEntries(j.c)
    requires Flatten(runs) == Kept(es, |es|, Rules(j.base, j.c.level, j.smallest))
    requires |runs| == |j.outputs| && forall i | 0 <= i < |runs| :: |runs[i]| > 0
    ensures MergeOutputs(j, es, runs, outs) && Replaced(version, v, j.c, outs)
  {
    RunsAreSorted(es, runs, Rules(j.base, j.c.level, j.smallest));
    outs := MakeOutputs(runs, j.outputs, size);
    MergeIsFinished(j, es, runs, outs);
    OutputsHaveNewNumbers(version, j.c, outs, j.outputs);
    v := MergedVersion(version, j.c, outs);
  }

  class DbImpl {
    /** MaxGrandParentOverlapBytes of the options the database was opened with. */
    const maxOverlapBytes: nat
    var mem: seq<Entry>
    var imm: Option<seq<Entry>>
    var version: Levels
    var lastSequence: SeqNo
    var nextFile: nat
    var logNumber: nat
    var logFile: nat
    var group: Group
    var flush: Option<nat>
    var commit: Commit
    var job: Option<Job>
    var snapshots: seq<SeqNo>
    var pending: set<nat>
    var pinned: seq<Levels>
    // the files
    var manifest: Manifest
    var logs: map<nat, seq<seq<Entry>>>
    var tables: set<nat>
    // history variables: no decision depends on them
    var flushed: nat
    var switched: nat
    ghost var history: seq<Entry>
    ghost var horizon: SeqNo
    ghost var resurrected: set<UserKey>

    ghost function State(): Db
      reads this
    {
      Db(maxOverlapBytes, mem, imm, version, lastSequence, nextFile, logNumber, logFile, group, flush, commit, job, snapshots, pending, pinned,
         manifest, logs, tables, history, flushed, switched, horizon, resurrected)
    }

    ghost predicate Sane()
      reads this
    {
      Inv(State()) && NumbersUnique(State())
    }

    twostate lemma StepIsSane(step: Step)
      requires old(Sane()) && Next(old(State()), step, State())
      ensures Sane()
    {
      hide Inv, NumbersUnique;
      NextKeeps(old(State()), step, State());
      NextStaysUnique(old(State()), step, State());
    }

    constructor Opened(maxBytes: nat, v: Levels, m: seq<Entry>, last: SeqNo, next: nat, logNo: nat, logF: nat, man: Manifest, ls: map<nat, seq<seq<Entry>>>, ts: set<nat>,
                       f: nat, sw: nat, ghost h: seq<Entry>, ghost hor: SeqNo, ghost sus: set<UserKey>)
      ensures State() == Db(maxBytes, m, None, v, last, next, logNo, logF, Idle, None, NoCommit, None, [], {}, [], man, ls, ts, h, f, sw, hor, sus)
    {
      maxOverlapBytes := maxBytes;
      mem, imm, version, lastSequence, nextFile, logNumber, logFile := m, None, v, last, next, logNo, logF;
      group, flush, commit, job, snapshots, pending, pinned := Idle, None, NoCommit, None, [], {}, [];
      manifest, logs, tables := man, ls, ts;
      history, flushed, switched, horizon, resurrected := h, f, sw, hor, sus;
    }

    // ---- DBImpl::Write, by the writer at the front ----

    /** Numbers the group's operations and appends them to the log as one record. */
    method AddRecord(ops: seq<Op>)
      requires Sane() && group.Idle? && lastSequence + |ops| < MAX_SEQUENCE
      modifies this
      ensures Next(old(State()), LogStep(ops), State()) && Sane()
    {
      var es := Numbered(ops, lastSequence);
      group := Logged(es);
      logs := logs[logFile := logs[logFile] + [es]];
      history := history + es;
      StepIsSane(LogStep(ops));
    }

    method InsertInto()
      requires Sane() && group.Logged?
      modifies this
      ensures Next(old(State()), InsertStep, State()) && Sane()
    {
      hide Inv, NumbersUnique;
      mem := InsertAll(mem, group.entries);
      group := Inserted(group.entries);
      StepIsSane(InsertStep);
    }

    method SetLastSequence()
      requires Sane() && group.Inserted?
      modifies this
      ensures Next(old(State()), PublishStep, State()) && Sane()
    {
      assert lastSequence + |group.entries| == |history|;
      lastSequence := lastSequence + |group.entries|;
      group := Idle;
      StepIsSane(PublishStep);
    }

    /** The last branch of MakeRoomForWrite: a new log and a fresh memtable. */
    method SwitchToNewMemTable()
      requires Sane() && group.Idle? && imm.None?
      modifies this
      ensures Next(old(State()), SwitchStep, State()) && Sane()
    {
      hide Inv, NumbersUnique;
      IdleIsPublished(State());
      var newLogNumber := nextFile;
      nextFile := nextFile + 1;
      logs := logs[newLogNumber := []];
      logFile := newLogNumber;
      imm := Some(mem);
      mem := [];
      switched := lastSequence;
      StepIsSane(SwitchStep);
    }

    // ---- CompactMemTable and WriteLevel0Table ----

    method StartFlush()
      requires Sane() && imm.Some? && flush.None? && commit.NoCommit?
      modifies this
      ensures Next(old(State()), StartFlushStep, State()) && Sane()
    {
      hide Inv, NumbersUnique;
      flush := Some(nextFile);
      pending := pending + {nextFile};
      nextFile := nextFile + 1;
      StepIsSane(StartFlushStep);
    }

    /** The table is written; its edit names the current log as the oldest one needed. */
    method FinishFlush(size: nat) returns (level: nat)
      requires Sane() && flush.Some? && imm.Some? && commit.NoCommit?
      modifies this
      ensures Next(old(State()), CommitFlushStep(level, size), State()) && Sane()
    {
      hide Inv, NumbersUnique;
      hide FlushedVersion, FileNumbers;
      FlushIsReady(State());
      var v;
      level, v := FlushedTable(version, flush.value, imm.value, maxOverlapBytes, size);
      pending := pending - {flush.value};
      tables := tables + {flush.value};
      commit := Commit(true, Manifest(v, logFile, nextFile, lastSequence), switched, false);
      flush := None;
      StepIsSane(CommitFlushStep(level, size));
    }

    // ---- LogAndApply: the record is written without the mutex ----

    method WriteManifestRecord()
      requires Sane() && commit.Commit? && !commit.written
      modifies this
      ensures Next(old(State()), WriteRecordStep, State()) && Sane()
    {
      hide Inv, NumbersUnique;
      manifest := commit.record;
      commit := commit.(written := true);
      StepIsSane(WriteRecordStep);
    }

    /** Back under the mutex: the new version becomes current, and what the edit was for
        is finished. */
    method InstallNewVersion()
      requires Sane() && commit.Commit? && commit.written
      modifies this
      ensures Next(old(State()), InstallStep, State()) && Sane()
    {
      hide Inv, NumbersUnique;
      AppendVersion();
      StepIsSane(InstallStep);
    }

    method AppendVersion()
      requires commit.Commit? && commit.written
      modifies this`version, this`logNumber, this`flushed, this`imm, this`pending, this`job, this`commit
      ensures version == old(commit.record.version) && logNumber == old(commit.record.logNumber)
      ensures flushed == old(commit.covers) && commit == NoCommit
      ensures imm == old(if commit.ofFlush then None else imm)
      ensures pending == old(PendingAfter(pending, job, commit.ofFlush))
      ensures job == old(if commit.ofFlush then job else None)
    {
      var done := commit;
      commit := NoCommit;
      version, logNumber, flushed := done.record.version, done.record.logNumber, done.covers;
      imm := if done.ofFlush then None else imm;
      pending := PendingAfter(pending, job, done.ofFlush);
      job := if done.ofFlush then job else None;
    }

    // ---- BackgroundCompaction and DoCompactionWork ----

    method StartCompaction(trigger: Trigger, pointer: Option<InternalKey>, expandedByteLimit: nat) returns (c: Compaction, largest: InternalKey)
      requires Sane() && job.None? && flush.None? && commit.NoCommit?
      requires trigger.level + 1 < NUM_LEVELS && |version[trigger.level]| > 0
      requires trigger.SeekTrigger? ==> trigger.file in version[trigger.level]
      modifies this
      ensures PickedBy(old(version), trigger, pointer, expandedByteLimit, c) && |c.inputs0| > 0 && largest == MaxKey(c.inputs0)
      ensures HasGrandparents(old(version), c)
      ensures Next(old(State()), StartCompactionStep(c), State()) && Sane()
    {
      hide Inv, NumbersUnique, Gapless, Selected, PickedBy, HasGrandparents, MaxKey, NoHarmfulGap;
      CompactionIsReady(State());
      c, largest := PickCompaction(version, trigger, pointer, expandedByteLimit);
      PickedHasNoGap(version, c, maxOverlapBytes);
      job := Some(Job(c, version, if |snapshots| == 0 then lastSequence else snapshots[0], []));
      StepIsSane(StartCompactionStep(c));
    }

    /** A manual compaction of a key range.  The source starts it whatever gaps its inputs
        leave; the store stays sound if none of them is harmful. */
    method StartManualCompaction(level: nat, begin: Bound, end: Bound, expandedByteLimit: nat, maxFileSize: nat) returns (c: Option<Compaction>)
      requires Sane() && job.None? && flush.None? && commit.NoCommit? && level + 1 < NUM_LEVELS
      modifies this
      ensures c.None? ==> State() == old(State()) && OverlapFilter(version[level], begin, end) == []
      ensures c.Some? ==> Selected(version, c.value) && c.value.level == level
      ensures c.Some? ==> GrownFromRange(version, level, begin, end, expandedByteLimit, maxFileSize, c.value)
      ensures c.Some? ==> State() == old(State()).(job := Some(Job(c.value, version, OldestSnapshot(old(State())), [])))
      ensures c.Some? && NoHarmfulGap(version, c.value, maxOverlapBytes) ==> Next(old(State()), StartCompactionStep(c.value), State()) && Sane()
    {
      hide Inv, NumbersUnique, NoHarmfulGap, Selected, GrownFromRange, OverlapFilter;
      CompactionIsReady(State());
      c := CompactRange(version, level, begin, end, expandedByteLimit, maxFileSize);
      if c.Some? {
        job := Some(Job(c.value, version, if |snapshots| == 0 then lastSequence else snapshots[0], []));
        if NoHarmfulGap(version, c.value, maxOverlapBytes) { StepIsSane(StartCompactionStep(c.value)); }
      }
    }

    method OpenCompactionOutputFile()
      requires Sane() && job.Some? && commit.NoCommit?
      modifies this
      ensures Next(old(State()), OpenOutputStep, State()) && Sane()
    {
      hide Inv, NumbersUnique;
      NewOutputNumber();
      StepIsSane(OpenOutputStep);
    }

    method NewOutputNumber()
      requires job.Some? && commit.NoCommit?
      modifies this`job, this`pending, this`tables, this`nextFile
      ensures job == Some(old(job.value).(outputs := old(job.value.outputs) + [old(nextFile)])) && nextFile == old(nextFile) + 1
      ensures pending == old(pending) + {old(nextFile)} && tables == old(tables) + {old(nextFile)}
    {
      job := Some(job.value.(outputs := job.value.outputs + [nextFile]));
      pending := pending + {nextFile};
      tables := tables + {nextFile};
      nextFile := nextFile + 1;
    }

    /** The end of DoCompactionWork and InstallCompactionResults, for the runs written from
        the merged input `es`. */
    method InstallCompactionResults(ghost es: seq<Entry>, runs: seq<seq<Entry>>, size: seq<Entry> -> nat) returns (outs: seq<File>)
      requires Sane() && job.Some? && flush.None? && commit.NoCommit?
      requires Sorted(es) && EntrySet(es) == InputEntries(job.value.c)
      requires Flatten(runs) == Kept(es, |es|, Rules(job.value.base, job.value.c.level, job.value.smallest))
      requires |runs| == |job.value.outputs| && forall i | 0 <= i < |runs| :: |runs[i]| > 0
      modifies this
      ensures Next(old(State()), CommitMergeStep(es, runs, outs), State()) && Sane()
    {
      hide Inv, NumbersUnique, MergeOutputs, Replaced, Kept, InputEntries, Resurrected, BesideInputs, Unflushed, JobRules, Flatten;
      CompactionIsReady(State());
      outs := CommitOutputs(es, runs, size);
      StepIsSane(CommitMergeStep(es, runs, outs));
    }

    method CommitOutputs(ghost es: seq<Entry>, runs: seq<seq<Entry>>, size: seq<Entry> -> nat) returns (outs: seq<File>)
      requires job.Some? && flush.None? && commit.NoCommit? && Sound(version) && InputsCurrent(version, job.value)
      requires Sorted(es) && EntrySet(es) == InputEntries(job.value.c)
      requires Flatten(runs) == Kept(es, |es|, Rules(job.value.base, job.value.c.level, job.value.smallest))
      requires |runs| == |job.value.outputs| && forall i | 0 <= i < |runs| :: |runs[i]| > 0
      modifies this`resurrected, this`horizon, this`commit
      ensures commit.Commit? && MergeOutputs(job.value, es, runs, outs) && Replaced(version, commit.record.version, job.value.c, outs)
      ensures commit == Commit(false, Manifest(commit.record.version, logNumber, nextFile, lastSequence), flushed, false)
      ensures horizon == job.value.smallest
      ensures resurrected == old(resurrected) + Resurrected(BesideInputs(Unflushed(old(State())), version, job.value.c), es, JobRules(job.value))
    {
      hide Inv, MergeOutputs, Replaced, Kept, Sound, InputEntries, Resurrected, BesideInputs, Unflushed, JobRules;
      var j := job.value;
      var v;
      outs, v := FinishedVersion(version, j, es, runs, size);
      resurrected := resurrected + Resurrected(BesideInputs(Unflushed(State()), version, j.c), es, JobRules(j));
      horizon := j.smallest;
      commit := Commit(false, Manifest(v, logNumber, nextFile, lastSequence), flushed, false);
    }

    /** A trivial move. */
    method MoveToNextLevel()
      requires Sane() && job.Some? && flush.None? && commit.NoCommit?
      requires |job.value.c.inputs0| == 1 && job.value.c.inputs1 == [] && job.value.outputs == []
      modifies this
      ensures Next(old(State()), CommitMoveStep, State()) && Sane()
    {
      hide Inv, NumbersUnique;
      var c := job.value.c;
      CompactionIsReady(State());
      MovedNumberIsNew(version, c);
      var v := MergedVersion(version, c, c.inputs0);
      commit := Commit(false, Manifest(v, logNumber, nextFile, lastSequence), flushed, false);
      StepIsSane(CommitMoveStep);
    }

    // ---- DeleteObsoleteFiles ----

    method DeleteObsoleteFiles()
      requires Sane() && flush.None? && commit.NoCommit?
      modifies this
      ensures Next(old(State()), CollectStep, State()) && Sane()
    {
      hide Inv, NumbersUnique;
      DeleteFiles();
      StepIsSane(CollectStep);
    }

    method DeleteFiles()
      requires flush.None? && commit.NoCommit?
      modifies this`tables, this`logs
      ensures tables == old(tables) * (pending + LiveTables(old(State())))
      ensures logs == map n | n in old(logs) && n >= logNumber :: old(logs)[n]
    {
      var versions := pinned + [version] + (if job.Some? then [job.value.base] else []);
      var live := AddLiveFiles(versions);
      LiveAre(State(), versions, live);
      tables := KeepNumbers(tables, live + pending);
      logs := map n | n in logs && n >= logNumber :: logs[n];
    }

    // ---- snapshots and reads ----

    method GetSnapshot() returns (sn: SeqNo)
      requires Sane()
      modifies this
      ensures Next(old(State()), TakeSnapshotStep, State()) && Sane()
      ensures sn == lastSequence && sn in snapshots
    {
      hide Inv, NumbersUnique;
      sn := lastSequence;
      snapshots := snapshots + [sn];
      StepIsSane(TakeSnapshotStep);
    }

    method ReleaseSnapshot(i: nat)
      requires Sane() && i < |snapshots|
      modifies this
      ensures Next(old(State()), ReleaseSnapshotStep(i), State()) && Sane()
    {
      hide Inv, NumbersUnique;
      snapshots := snapshots[..i] + snapshots[i + 1..];
      StepIsSane(ReleaseSnapshotStep(i));
    }

    /** A reader takes a reference to the current version, or gives one back. */
    method RefVersion()
      requires Sane()
      modifies this
      ensures Next(old(State()), PinStep, State()) && Sane()
    {
      hide Inv, NumbersUnique;
      pinned := pinned + [version];
      StepIsSane(PinStep);
    }

    method UnrefVersion(i: nat)
      requires Sane() && i < |pinned|
      modifies this
      ensures Next(old(State()), UnpinStep(i), State()) && Sane()
    {
      hide Inv, NumbersUnique;
      pinned := pinned[..i] + pinned[i + 1..];
      StepIsSane(UnpinStep(i));
    }

    /** DBImpl::Get answers from the whole history of operations. */
    method Get(k: UserKey, snapshot: Option<SeqNo>) returns (r: Option<Bytes>)
      requires Sane() && (snapshot.Some? ==> snapshot.value in snapshots)
      ensures k !in resurrected ==> r == View(EntrySet(history), k, if snapshot.Some? then snapshot.value else lastSequence)
    {
      var sn := if snapshot.Some? then snapshot.value else lastSequence;
      StoreIsLayered(State());
      r := DbGet(mem, imm, version, k, sn);
      SnapshotsAreReadable(State());
      if k !in resurrected { ReadIsRight(State(), k, sn); }
    }

    // ---- DB::Open ----

    /** Recovery from the files a crash left behind, with the end of the newest log torn off
        or not.  The check for missing tables never fires, and the opened store is one step
        of the state machine away from the state that crashed.  With reuse_logs set, this
        needs a clean cut.  The newest log stays in use exactly if that is asked for and its
        records fill no memtable; the tables are those of the memtables filled on the way;
        and the manifest is replaced exactly if it could not be reused or some other log has
        a record.  A new manifest names the log in use as the oldest one needed. */
    static method Open(m: Manifest, logs: map<nat, seq<seq<Entry>>>, tables: set<nat>, reuseLogs: bool, reuseManifest: bool, maxBytes: nat,
                       full: seq<Entry> -> bool, size: seq<Entry> -> nat, ghost s: Db, ghost top: nat, ghost tear: Option<Tear>)
      returns (missing: set<nat>, db: DbImpl, ghost p: Plan)
      requires Inv(s) && NumbersUnique(s) && s.manifest == m && s.tables == tables
      requires tear.Some? ==> TornLog(s, tear.value) && (reuseLogs && top == s.logFile ==> CleanCut(tear.value.crc, tear.value.records, tear.value.n))
      requires LogsOnDisk(AfterTear(s, tear), logs, top)
      ensures missing == {}
      ensures fresh(db) && Next(s, RecoveryStep(p, tear), db.State()) && db.Sane()
      ensures top in logs && (p.reuse <==> reuseLogs && CutLog(logs[top], full).filled == [])
      ensures db.mem == if p.reuse then CutLog(logs[top], full).Held() else []
      ensures RunsOf(p.files) == TablesOfLogs(logs, m.logNumber, if p.reuse then top else top + 1, full)
      ensures p.save <==> !reuseManifest || CallsForManifest(logs, m.logNumber, top + 1, p.reuse, top)
      ensures db.manifest == if p.save then Manifest(db.version, db.logFile, db.nextFile, db.lastSequence) else m
      ensures db.logNumber == if p.save then db.logFile else m.logNumber
      ensures !reuseManifest ==> db.logNumber == db.logFile && db.manifest == Manifest(db.version, db.logFile, db.nextFile, db.lastSequence)
      ensures db.manifest == m <==> !p.save
      ensures reuseLogs && !p.save ==> db.logFile == top
    {
      hide Inv, NumbersUnique, LogsOnDisk, CrashRecover, CutOff, CutLog, CallsForManifest, TablesOfLogs, RunsOf, OpenedAs;
      ghost var disk := AfterTear(s, tear);
      if tear.Some? { CutOffHolds(s); }
      TornDisk(s, tear);
      missing, db, p := Rebuild(m, logs, tables, reuseLogs, reuseManifest, maxBytes, full, size, disk, top);
      WhatIsOpened(m, logs, top, reuseLogs, reuseManifest, full, p, db.State());
      assert Next(s, RecoveryStep(p, tear), db.State());
      NextKeeps(s, RecoveryStep(p, tear), db.State());
      NextStaysUnique(s, RecoveryStep(p, tear), db.State());
    }

    /** Recovery from whole log records. */
    static method Rebuild(m: Manifest, logs: map<nat, seq<seq<Entry>>>, tables: set<nat>, reuseLogs: bool, reuseManifest: bool, maxBytes: nat,
                          full: seq<Entry> -> bool, size: seq<Entry> -> nat, ghost s: Db, ghost top: nat)
      returns (missing: set<nat>, db: DbImpl, ghost p: Plan)
      requires Inv(s) && NumbersUnique(s) && s.manifest == m && s.tables == tables && LogsOnDisk(s, logs, top)
      ensures missing == {} && fresh(db) && CrashRecover(s, db.State(), p) && p.top == top && (p.reuse ==> reuseLogs)
      ensures OpenedAs(m, logs, top, reuseLogs, reuseManifest, full, p, db.State())
    {
      hide LastKept, Written;
      hide Inv, NumbersUnique, LogsOnDisk, Replay, Flatten, WithLevel0Files, TablesOfBlocks, CrashRecover, ManifestCovers, RecordHolds;
      var expected := NumbersIn(m.version);
      missing := expected - tables;
      ManifestHolds(s);
      var t, max, kept, last := RecoverDisk(m, logs, reuseLogs, reuseManifest, full, size, s, top);
      var v := RecoveredLevels(m, t, s);
      p := Plan(logs, top, t.blocks, t.files, kept.Some?, t.saveManifest);
      var next, logFile, logs', mem := t.next, last, logs, [];
      if kept.Some? {
        mem := kept.value;
      } else {
        logFile, next := next, next + 1;
        logs' := logs[logFile := []];
      }
      DiskIsSplit(s, p);
      var switched := max - (if kept.Some? then |Flatten(logs[last])| else 0);
      var logNumber := if t.saveManifest then logFile else m.logNumber;
      var manifest := if t.saveManifest then Manifest(v, logFile, next, max) else m;
      db := new DbImpl.Opened(maxBytes, v, mem, max, next, logNumber, logFile, manifest, logs', tables + (set f | f in t.files :: f.number),
                              switched, switched, s.history, s.horizon, s.resurrected);
      IsRecovery(s, db.State(), p, t.next);
      IsOpened(m, logs, top, reuseLogs, reuseManifest, full, p, db.State(), t, kept);
    }
  }

  /** What the files and the options say the opened store is. */
  ghost predicate OpenedAs(m: Manifest, logs: map<nat, seq<seq<Entry>>>, top: nat, reuseLogs: bool, reuseManifest: bool, full: seq<Entry> -> bool, p: Plan, s': Db) {
    && top in logs
    && (p.reuse <==> reuseLogs && CutLog(logs[top], full).filled == [])
    && s'.mem == (if p.reuse then CutLog(logs[top], full).Held() else [])
    && RunsOf(p.files) == TablesOfLogs(logs, m.logNumber, if p.reuse then top else top + 1, full)
    && (p.save <==> !reuseManifest || CallsForManifest(logs, m.logNumber, top + 1, p.reuse, top))
    && (p.save ==> s'.manifest == Manifest(s'.version, s'.logFile, s'.nextFile, s'.lastSequence) && s'.logNumber == s'.logFile && m.nextFile < s'.nextFile)
    && (!p.save ==> s'.manifest == m && s'.logNumber == m.logNumber)
    && (p.reuse ==> s'.logFile == top)
    && (reuseLogs && !p.save ==> p.reuse)
  }

  lemma IsOpened(m: Manifest, logs: map<nat, seq<seq<Entry>>>, top: nat, reuseLogs: bool, reuseManifest: bool, full: seq<Entry> -> bool, p: Plan, s': Db,
                 t: Tables, kept: Option<seq<Entry>>)
    requires top in logs && m.logNumber <= top && LastKept(logs, top, reuseLogs, full, kept)
    requires Written(logs, m.logNumber, top + 1, full, !reuseManifest, t, kept.Some?, top)
    requires p.files == t.files && p.reuse == kept.Some? && p.save == t.saveManifest
    requires s'.mem == if kept.Some? then kept.value else []
    requires p.save ==> s'.manifest == Manifest(s'.version, s'.logFile, s'.nextFile, s'.lastSequence) && s'.logNumber == s'.logFile && m.nextFile < s'.nextFile
    requires !p.save ==> s'.manifest == m && s'.logNumber == m.logNumber
    requires p.reuse ==> s'.logFile == top
    ensures OpenedAs(m, logs, top, reuseLogs, reuseManifest, full, p, s')
  {
    hide CutLog, TablesOfLogs, RunsOf, CallsForManifest;
    KeptOrSaved(logs, m.logNumber, top, reuseLogs, full, !reuseManifest, t, kept);
  }

  lemma WhatIsOpened(m: Manifest, logs: map<nat, seq<seq<Entry>>>, top: nat, reuseLogs: bool, reuseManifest: bool, full: seq<Entry> -> bool, p: Plan, s': Db)
    requires OpenedAs(m, logs, top, reuseLogs, reuseManifest, full, p, s')
    ensures top in logs && (p.reuse <==> reuseLogs && CutLog(logs[top], full).filled == [])
    ensures s'.mem == if p.reuse then CutLog(logs[top], full).Held() else []
    ensures RunsOf(p.files) == TablesOfLogs(logs, m.logNumber, if p.reuse then top else top + 1, full)
    ensures p.save <==> !reuseManifest || CallsForManifest(logs, m.logNumber, top + 1, p.reuse, top)
    ensures s'.manifest == if p.save then Manifest(s'.version, s'.logFile, s'.nextFile, s'.lastSequence) else m
    ensures s'.logNumber == if p.save then s'.logFile else m.logNumber
    ensures s'.manifest == m <==> !p.save
    ensures reuseLogs && !p.save ==> s'.logFile == top
  {
    hide CutLog, TablesOfLogs, RunsOf, CallsForManifest;
  }

  /** What a crash leaves to be read. */
  ghost function AfterTear(s: Db, tear: Option<Tear>): Db
    requires tear.Some? ==> TornLog(s, tear.value)
  {
    if tear.Some? then CutOff(s) else s
  }

  function RecoveryStep(p: Plan, tear: Option<Tear>): Step {
    if tear.Some? then TornCrashStep(p, tear.value) else CrashStep(p)
  }

  /** The tear touches nothing but the log. */
  lemma TornDisk(s: Db, tear: Option<Tear>)
    requires tear.Some? ==> TornLog(s, tear.value)
    requires NumbersUnique(s)
    ensures var disk := AfterTear(s, tear);
            disk.manifest == s.manifest && disk.tables == s.tables && NumbersUnique(disk)
  {
  }

  /** The logs on disk replay to an ascending sequence. */
  lemma DiskIsReplayable(s: Db, logs: map<nat, seq<seq<Entry>>>, top: nat)
    requires Inv(s) && LogsOnDisk(s, logs, top)
    ensures s.manifest.logNumber <= top && s.manifest.logNumber < s.manifest.nextFile
    ensures AscendingSeqnos(Replay(logs, s.manifest.logNumber, top + 1))
    ensures MaxSequence(s.manifest.lastSequence, Replay(logs, s.manifest.logNumber, top + 1)) == |s.history|
  {
    var p := Plan(logs, top, [], [], false, false);
    LogsHoldTheRest(s, p);
    RecoveredSequence(s, p);
    ManifestHolds(s);
    HistoryHolds(s);
    hide Inv, LogsOnDisk, Replay, MaxSequence;
  }

  method RecoverDisk(m: Manifest, logs: map<nat, seq<seq<Entry>>>, reuseLogs: bool, reuseManifest: bool,
                     full: seq<Entry> -> bool, size: seq<Entry> -> nat, ghost s: Db, ghost top: nat)
    returns (t: Tables, max: SeqNo, kept: Option<seq<Entry>>, last: nat)
    requires Inv(s) && s.manifest == m && LogsOnDisk(s, logs, top)
    ensures m.logNumber <= last == top < t.next && top in logs && max == |s.history|
    ensures LastKept(logs, top, reuseLogs, full, kept)
    ensures Written(logs, m.logNumber, top + 1, full, !reuseManifest, t, kept.Some?, top)
    ensures TablesOk(t, m.nextFile + 1)
    ensures Flatten(t.blocks) == Replay(logs, m.logNumber, if kept.Some? then top else top + 1)
    ensures kept.Some? ==> Sorted(kept.value) && EntrySet(kept.value) == EntrySet(Contents(logs, top))
  {
    DiskIsReplayable(s, logs, top);
    hide LastKept, Written;
    var maxSequence;
    t, maxSequence, kept, last := RecoverLogs(logs, top, m.logNumber, reuseLogs, full, size, m.nextFile + 1, !reuseManifest, 0);
    MaxFromZero(m.lastSequence, Replay(logs, m.logNumber, top + 1));
    max := if m.lastSequence < maxSequence then maxSequence else m.lastSequence;
  }

  lemma NumbersRise(t: Tables, lo: nat)
    requires TablesOk(t, lo)
    ensures DistinctNumbers(t.files) && forall f | f in t.files :: lo <= f.number
  {
    forall f | f in t.files ensures lo <= f.number {
      var i :| 0 <= i < |t.files| && t.files[i] == f;
    }
  }

  /** The version after recovery: the manifest's, or that with the new tables. */
  method RecoveredLevels(m: Manifest, t: Tables, ghost s: Db) returns (v: Levels)
    requires Inv(s) && NumbersUnique(s) && s.manifest == m && TablesOk(t, m.nextFile + 1)
    ensures WithLevel0Files(m.version, v, t.files) && (!t.saveManifest ==> v == m.version)
  {
    ManifestHolds(s);
    assert Sound(m.version);
    NumbersRise(t, m.nextFile + 1);
    v := m.version;
    if t.saveManifest {
      var builder := new Builder(m.version);
      OneEdit({}, 0, t.files, 0);
      builder.Apply(RecoveryEdit(t.files));
      v := builder.SaveTo();
      RecoveryEditAddsTables(m.version, v, t.files, m.nextFile + 1);
    }
  }

  lemma DiskIsSplit(s: Db, p: Plan)
    requires Inv(s) && LogsOnDisk(s, p.logs, p.top)
    requires Flatten(p.blocks) == Replay(p.logs, s.manifest.logNumber, if p.reuse then p.top else p.top + 1)
    ensures |p.Last()| <= |s.history|
    ensures |p.blocks| == 0 ==> ManifestCovers(s) == |s.history| - |p.Last()|
  {
    hide Inv, Flatten, Replay, LogsOnDisk;
    RecoveredSlices(s, p);
  }

  /** The pieces of Open put together. */
  lemma IsRecovery(s: Db, s': Db, p: Plan, next: nat)
    requires Inv(s) && LogsOnDisk(s, p.logs, p.top) && p.top < next
    requires Flatten(p.blocks) == Replay(p.logs, s.manifest.logNumber, if p.reuse then p.top else p.top + 1)
    requires TablesOfBlocks(p.blocks, p.files, s.manifest.nextFile + 1, next) && s.manifest.nextFile < next
    requires WithLevel0Files(s.manifest.version, s'.version, p.files)
    requires !p.save ==> p.files == [] && s'.version == s.manifest.version
    requires Sorted(s'.mem) && EntrySet(s'.mem) == EntrySet(p.Last())
    requires Quiet(s') && s'.pending == {} && s'.lastSequence == |s.history|
    requires if p.reuse then s'.logFile == p.top && s'.logs == p.logs && s'.nextFile == next
             else s'.logFile == next && s'.logs == p.logs[next := []] && s'.nextFile == next + 1
    requires s'.tables == s.tables + (set f | f in p.files :: f.number)
    requires if p.save then s'.manifest == Manifest(s'.version, s'.logFile, s'.nextFile, s'.lastSequence) && s'.logNumber == s'.logFile
             else s'.manifest == s.manifest && s'.logNumber == s.manifest.logNumber
    requires s'.history == s.history && s'.horizon == s.horizon && s'.resurrected == s.resurrected
    requires |p.Last()| <= |s.history| && s'.switched == s'.flushed == |s.history| - |p.Last()|
    ensures CrashRecover(s, s', p)
  {
    RecoveredSequence(s, p);
    DiskIsSplit(s, p);
  }

  lemma MovedNumberIsNew(w: Levels, c: Compaction)
    requires UniqueNumbers(w) && c.level + 1 < NUM_LEVELS && |c.inputs0| == 1 && c.inputs0[0] in w[c.level]
    ensures OutputNumbersOk(w, c, c.inputs0)
  {
  }

  lemma LiveAre(s: Db, versions: seq<Levels>, live: set<nat>)
    requires versions == s.pinned + [s.version] + (if s.job.Some? then [s.job.value.base] else [])
    requires forall n :: n in live <==> exists v :: v in versions && n in FileNumbers(v)
    ensures live == LiveTables(s)
  {
    assert forall v :: v in versions <==> v in s.pinned || v == s.version || (s.job.Some? && v == s.job.value.base);
    forall n | n in LiveTables(s) ensures n in live {
      if v :| v in s.pinned && n in FileNumbers(v) {
        assert v in versions;
      } else if n in FileNumbers(s.version) {
        assert s.version in versions;
      } else {
        assert s.job.value.base in versions;
      }
    }
  }

  /** The scan of the directory: a table stays only if it is live. */
  method KeepNumbers(all: set<nat>, live: set<nat>) returns (kept: set<nat>)
    ensures kept == all * live
  {
    kept := all;
    var rest := all;
    while rest != {}
      invariant rest <= all && kept == (all - rest) * live + rest
    {
      var n :| n in rest;
      rest := rest - {n};
      if n !in live { kept := kept - {n}; }
    }
  }
}
