/** Whole runs of the store: any interleaving of writes, memtable switches, flushes,
    compactions, garbage collection, snapshots, readers, crashes and recoveries. */
module Runs {
  import opened DbFormat
  import opened Entries
  import opened Versions
  import opened FileSearch
  import opened CompactionInputs
  import opened CompactionWork
  import opened DropRules
  import opened Install
  import opened Lookup
  import opened History
  import opened Store
  import opened StoreInvariant
  import opened CrashSafety

  datatype Step =
    | LogStep(ops: seq<Op>)
    | InsertStep
    | PublishStep
    | SwitchStep
    | StartFlushStep
    | CommitFlushStep(level: nat, size: nat)
    | WriteRecordStep
    | InstallStep
    | StartCompactionStep(c: Compaction)
    | OpenOutputStep
    | CommitMergeStep(es: seq<Entry>, runs: seq<seq<Entry>>, outs: seq<File>)
    | CommitMoveStep
    | CollectStep
    | TakeSnapshotStep
    | ReleaseSnapshotStep(index: nat)
    | PinStep
    | UnpinStep(index: nat)
    | CrashStep(plan: Plan)
    | TornCrashStep(plan: Plan, tear: Tear)

  ghost predicate Next(s: Db, step: Step, s': Db) {
    match step
    case LogStep(ops) => LogGroup(s, s', ops)
    case InsertStep => InsertGroup(s, s')
    case PublishStep => PublishGroup(s, s')
    case SwitchStep => SwitchMemTable(s, s')
    case StartFlushStep => StartFlush(s, s')
    case CommitFlushStep(level, size) => s'.commit.Commit? && CommitFlush(s, s', s'.commit.record.version, level, size)
    case WriteRecordStep => WriteRecord(s, s')
    case InstallStep => InstallVersion(s, s')
    case StartCompactionStep(c) => StartCompaction(s, s', c)
    case OpenOutputStep => OpenOutput(s, s')
    case CommitMergeStep(es, runs, outs) => s'.commit.Commit? && CommitMerge(s, s', s'.commit.record.version, es, runs, outs)
    case CommitMoveStep => s'.commit.Commit? && CommitMove(s, s', s'.commit.record.version)
    case CollectStep => CollectGarbage(s, s')
    case TakeSnapshotStep => TakeSnapshot(s, s')
    case ReleaseSnapshotStep(i) => ReleaseSnapshot(s, s', i)
    case PinStep => PinVersion(s, s')
    case UnpinStep(i) => UnpinVersion(s, s', i)
    case CrashStep(plan) => CrashRecover(s, s', plan)
    case TornCrashStep(plan, tear) => TornCrash(s, s', plan, tear)
  }

  const NO_FILES: Levels := [[], [], [], [], [], [], []]

  /** A database just created and opened (NewDB, DB::Open). */
  ghost predicate Init(s: Db) {
    && Quiet(s) && s.mem == [] && s.version == NO_FILES && s.pending == {} && s.tables == {}
    && s.history == [] && s.lastSequence == 0 && s.flushed == 0 && s.switched == 0 && s.horizon == 0 && s.resurrected == {}
    && s.logs == map[s.logFile := []] && s.logFile < s.nextFile
    && s.manifest.version == NO_FILES && s.manifest.lastSequence == 0
    && s.manifest.logNumber == s.logNumber <= s.logFile
    && s.logNumber < s.manifest.nextFile <= s.nextFile
  }

  ghost predicate IsRun(states: seq<Db>, steps: seq<Step>) {
    && |states| == |steps| + 1
    && Init(states[0])
    && forall i | 0 <= i < |steps| :: Next(states[i], steps[i], states[i + 1])
  }

  lemma NoFilesHold(h: seq<Entry>, horizon: SeqNo)
    requires h == []
    ensures CurrentHolds(h, horizon, {}, NO_FILES, 0) && FileNumbers(NO_FILES) == {}
  {
    assert LevelsEntries(NO_FILES) == {};
    assert h[0..] == h[..0] == [];
  }

  lemma InitHolds(s: Db)
    requires Init(s)
    ensures Inv(s)
  {
    hide Inv, CurrentHolds, LogsHold, NumbersBelow, FileNumbers;
    NoFilesHold(s.history, s.horizon);
    NewLogHolds(s.history, s.logs, s.logNumber, s.logFile);
    NoFilesBelow(s.manifest.nextFile);
    NoFilesBelow(s.nextFile);
    QuietStoreHolds(s);
  }

  lemma NoFilesBelow(n: nat)
    ensures NumbersBelow(NO_FILES, n)
  {
  }

  lemma NewLogHolds(h: seq<Entry>, logs: map<nat, seq<seq<Entry>>>, logNumber: nat, logFile: nat)
    requires h == [] && logs == map[logFile := []] && logNumber <= logFile
    ensures LogsHold(h, logs, logNumber, logFile, 0, 0)
  {
    hide Replay, Flatten;
    NoBlocks([]);
    NoLogs(logs, logNumber);
    ReplayQuietTail(logs, logNumber, logNumber, logFile);
  }

  lemma NextKeeps(s: Db, step: Step, s': Db)
    requires Inv(s) && Next(s, step, s')
    ensures Inv(s')
  {
    hide Inv, LogGroup, InsertGroup, PublishGroup, SwitchMemTable, StartFlush, CommitFlush, WriteRecord, InstallVersion,
      StartCompaction, OpenOutput, CommitMerge, CommitMove, CollectGarbage, CrashRecover, TornCrash;
    match step
    case LogStep(ops) => LogGroupKeeps(s, s', ops);
    case InsertStep => InsertGroupKeeps(s, s');
    case PublishStep => PublishGroupKeeps(s, s');
    case SwitchStep => SwitchMemTableKeeps(s, s');
    case StartFlushStep => StartFlushKeeps(s, s');
    case CommitFlushStep(level, size) => CommitFlushKeeps(s, s', s'.commit.record.version, level, size);
    case WriteRecordStep => WriteRecordKeeps(s, s');
    case InstallStep => InstallVersionKeeps(s, s');
    case StartCompactionStep(c) => StartCompactionKeeps(s, s', c);
    case OpenOutputStep => OpenOutputKeeps(s, s');
    case CommitMergeStep(es, runs, outs) => CommitMergeKeeps(s, s', s'.commit.record.version, es, runs, outs);
    case CommitMoveStep => CommitMoveKeeps(s, s', s'.commit.record.version);
    case CollectStep => CollectGarbageKeeps(s, s');
    case TakeSnapshotStep => TakeSnapshotKeeps(s, s');
    case ReleaseSnapshotStep(i) => ReleaseSnapshotKeeps(s, s', i);
    case PinStep => PinVersionKeeps(s, s');
    case UnpinStep(i) => UnpinVersionKeeps(s, s', i);
    case CrashStep(plan) => CrashRecoverKeeps(s, s', plan);
    case TornCrashStep(plan, tear) => TornCrashKeeps(s, s', plan, tear);
  }

  /** The invariant holds in every state of every run, crashes included. */
  lemma {:induction false} EveryReachableStateHolds(states: seq<Db>, steps: seq<Step>, i: nat)
    requires IsRun(states, steps) && i < |states|
    ensures Inv(states[i])
  {
    if i == 0 {
      InitHolds(states[0]);
    } else {
      EveryReachableStateHolds(states, steps, i - 1);
      NextKeeps(states[i - 1], steps[i - 1], states[i]);
    }
  }

  /** The operations the memtables have taken in, which no crash can take back. */
  function Taken(s: Db): seq<Entry> {
    var n := InMemory(s.history, s.group);
    if 0 <= n <= |s.history| then s.history[..n] else []
  }

  lemma TakenIs(s: Db)
    requires Inv(s)
    ensures Taken(s) == s.history[..if s.group.Logged? then s.lastSequence else |s.history|]
    ensures s.lastSequence <= |Taken(s)| && Taken(s) <= s.history
    ensures s.lastSequence == |s.history| - (if s.group.Idle? then 0 else |s.group.entries|)
  {
  }

  /** What a step does to the history: it appends to it, or cuts off what no memtable has
      taken in. */
  lemma HistoryMoves(s: Db, step: Step, s': Db)
    requires Inv(s) && Next(s, step, s')
    ensures if step.LogStep? then s.group.Idle? && s'.group.Logged? && s'.history == s.history + s'.group.entries
            else if step.InsertStep? then s'.history == s.history && s'.group.Inserted?
            else if step.PublishStep? then s'.history == s.history && s.group.Inserted? && s'.group.Idle?
            else if step.CrashStep? then s'.history == s.history && s'.group.Idle?
            else if step.TornCrashStep? then s.group.Logged? && s'.history == s.history[..s.lastSequence] && s'.group.Idle?
            else s'.history == s.history && s'.group == s.group
  {
    hide Inv, Numbered, FlushedVersion, CrashRecover, TornCrash, MergeOutputs, Replaced, NoHarmfulGap, Selected, LiveTables;
    match step
    case CrashStep(plan) => CrashIsQuiet(s, s', plan);
    case TornCrashStep(plan, tear) => TornCrashIsQuiet(s, s', plan, tear);
    case _ =>
  }

  lemma CrashIsQuiet(s: Db, s': Db, p: Plan)
    requires CrashRecover(s, s', p)
    ensures s'.history == s.history && s'.group.Idle? && s'.resurrected == s.resurrected
  {
    hide LogsOnDisk, RecoveredLog, WithLevel0Files, TablesOfBlocks, MaxSequence, Replay, Flatten, ManifestCovers;
  }

  lemma TornCrashIsQuiet(s: Db, s': Db, p: Plan, t: Tear)
    requires TornCrash(s, s', p, t)
    ensures s.lastSequence <= |s.history| && s.group.Logged?
    ensures s'.history == s.history[..s.lastSequence] && s'.group.Idle? && s'.resurrected == s.resurrected
  {
    hide CrashRecover;
    CrashIsQuiet(CutOff(s), s', p);
  }

  lemma NextKeepsTaken(s: Db, step: Step, s': Db)
    requires Inv(s) && Next(s, step, s')
    ensures Taken(s) <= Taken(s')
    ensures !step.TornCrashStep? ==> s.history <= s'.history
  {
    hide Inv, Next, Taken;
    HistoryMoves(s, step, s');
    NextKeeps(s, step, s');
    TakenIs(s);
    TakenIs(s');
  }

  lemma {:induction false} TakenOnlyGrows(states: seq<Db>, steps: seq<Step>, i: nat, j: nat)
    requires IsRun(states, steps) && i <= j < |states|
    ensures Taken(states[i]) <= Taken(states[j])
  {
    hide Inv, Next, Taken, Init;
    if i < j {
      TakenOnlyGrows(states, steps, i, j - 1);
      EveryReachableStateHolds(states, steps, j - 1);
      NextKeepsTaken(states[j - 1], steps[j - 1], states[j]);
    }
  }

  /** No step and no crash, not even one inside AddRecord, loses or renumbers an operation
      whose sequence number was published. */
  lemma PublishedStays(states: seq<Db>, steps: seq<Step>, i: nat, j: nat)
    requires IsRun(states, steps) && i <= j < |states|
    ensures states[i].lastSequence <= |states[i].history|
    ensures states[i].history[..states[i].lastSequence] <= states[j].history
  {
    EveryReachableStateHolds(states, steps, i);
    EveryReachableStateHolds(states, steps, j);
    TakenOnlyGrows(states, steps, i, j);
    hide IsRun, Inv, Taken;
    TakenIs(states[i]);
    TakenIs(states[j]);
    assert states[i].history[..states[i].lastSequence] <= Taken(states[i]);
  }

  /** Only a crash inside AddRecord takes anything back of what reached the log. */
  lemma {:induction false} HistoryOnlyGrows(states: seq<Db>, steps: seq<Step>, i: nat, j: nat)
    requires IsRun(states, steps) && i <= j < |states|
    requires forall n | i <= n < j :: !steps[n].TornCrashStep?
    ensures states[i].history <= states[j].history
  {
    hide Inv, Next, Init;
    if i < j {
      HistoryOnlyGrows(states, steps, i, j - 1);
      EveryReachableStateHolds(states, steps, j - 1);
      NextKeepsTaken(states[j - 1], steps[j - 1], states[j]);
    }
  }

  // ---- reads ----

  /** Memtables and version hold the history without double counting. */
  lemma StoreIsLayered(s: Db)
    requires Inv(s)
    ensures Layered(s.mem, s.imm, s.version)
    ensures Unique(StoreEntries(s.mem, s.imm, s.version))
  {
    var h, n := s.history, InMemory(s.history, s.group);
    var immSet := if s.imm.Some? then EntrySet(s.imm.value) else {};
    assert immSet == EntrySet(h[s.flushed..s.switched]);
    VersionIsUnique(h, s.version, s.flushed, s.horizon, s.resurrected);
    forall e | e in EntrySet(s.mem) ensures e in EntrySet(h) && e.key.seqno > s.switched {
      SliceBySeqno(h, s.switched, n, e);
    }
    forall e | e in immSet ensures e in EntrySet(h) && s.flushed < e.key.seqno <= s.switched {
      SliceBySeqno(h, s.flushed, s.switched, e);
    }
    ConsecutiveIsUnique(h);
  }

  /** What a reader sees is what the version and the unflushed history say, up to the
      operations not yet published. */
  lemma StoreEntriesAre(s: Db)
    requires Inv(s)
    ensures StoreEntries(s.mem, s.imm, s.version) <= LevelsEntries(s.version) + EntrySet(s.history[s.flushed..])
    ensures forall e | e in LevelsEntries(s.version) + EntrySet(s.history[s.flushed..]) ::
              e in StoreEntries(s.mem, s.imm, s.version) || e.key.seqno > s.lastSequence
  {
    var h, n := s.history, InMemory(s.history, s.group);
    SliceSplits(h, s.flushed, s.switched, n);
    SliceSplits(h, s.flushed, n, |h|);
    assert h[s.flushed..|h|] == h[s.flushed..];
    forall e | e in EntrySet(h[n..|h|]) ensures e.key.seqno > s.lastSequence {
      SliceBySeqno(h, n, |h|, e);
    }
  }

  /** A snapshot a reader may use: the current sequence number, or one on the list. */
  predicate Readable(s: Db, sn: SeqNo) {
    s.horizon <= sn <= s.lastSequence
  }

  lemma SnapshotsAreReadable(s: Db)
    requires Inv(s)
    ensures Readable(s, s.lastSequence)
    ensures forall i | 0 <= i < |s.snapshots| :: Readable(s, s.snapshots[i])
  {
  }

  /** In every state satisfying the invariant, a read at a live snapshot returns the newest
      operation at or below that snapshot among all operations ever logged. */
  lemma ReadIsRight(s: Db, k: UserKey, sn: SeqNo)
    requires Inv(s) && Readable(s, sn) && k !in s.resurrected
    ensures View(StoreEntries(s.mem, s.imm, s.version), k, sn) == View(EntrySet(s.history), k, sn)
  {
    var stored := StoreEntries(s.mem, s.imm, s.version);
    var full := LevelsEntries(s.version) + EntrySet(s.history[s.flushed..]);
    StoreIsLayered(s);
    StoreEntriesAre(s);
    ViewIgnoresNewer(stored, full, k, sn);
    assert stored + full == full;
    assert ViewsAgree(full, EntrySet(s.history), k, s.horizon);
  }

  /** Every merge has lower inputs that complete their last user key. */
  ghost predicate EveryMergeClosed(states: seq<Db>, steps: seq<Step>)
    requires |states| == |steps| + 1
  {
    forall i | 0 <= i < |steps| && steps[i].CommitMergeStep? && states[i].job.Some? && states[i].job.value.c.level + 1 < NUM_LEVELS ::
      ClosedBelow(states[i].version, states[i].job.value.c)
  }

  /** Only a merge can bring an old value back. */
  lemma OnlyMergesResurrect(s: Db, step: Step, s': Db)
    requires Next(s, step, s')
    ensures if step.CommitMergeStep? then
              s.job.Some? && s.job.value.c.level + 1 < NUM_LEVELS && EntrySet(step.es) == InputEntries(s.job.value.c)
              && s'.resurrected == s.resurrected + Resurrected(BesideInputs(Unflushed(s), s.version, s.job.value.c), step.es, JobRules(s.job.value))
            else s'.resurrected == s.resurrected
  {
    hide Numbered, FlushedVersion, CrashRecover, TornCrash, Replaced, NoHarmfulGap, Selected, LiveTables, Resurrected, BesideInputs, Unflushed, JobRules, InputEntries, Kept;
    match step
    case CrashStep(plan) => CrashIsQuiet(s, s', plan);
    case TornCrashStep(plan, tear) => TornCrashIsQuiet(s, s', plan, tear);
    case _ =>
  }

  lemma {:induction false} NothingResurrected(states: seq<Db>, steps: seq<Step>, i: nat)
    requires IsRun(states, steps) && EveryMergeClosed(states, steps) && i < |states|
    ensures states[i].resurrected == {}
  {
    hide Inv, Next, ClosedBelow, Resurrected, BesideInputs, Unflushed, JobRules, InputEntries;
    if i > 0 {
      NothingResurrected(states, steps, i - 1);
      EveryReachableStateHolds(states, steps, i - 1);
      var s, step := states[i - 1], steps[i - 1];
      OnlyMergesResurrect(s, step, states[i]);
      if step.CommitMergeStep? {
        assert ClosedBelow(s.version, s.job.value.c);
        ClosedMergeResurrectsNothing(s, step.es);
      }
    }
  }

  /** The store is a map from (user key, snapshot) to value through every run. */
  lemma EveryReadIsRight(states: seq<Db>, steps: seq<Step>, i: nat, k: UserKey, sn: SeqNo)
    requires IsRun(states, steps) && i < |states|
    requires EveryMergeClosed(states, steps) || k !in states[i].resurrected
    requires sn == states[i].lastSequence || sn in states[i].snapshots
    ensures var s := states[i];
            Layered(s.mem, s.imm, s.version) && Unique(StoreEntries(s.mem, s.imm, s.version))
            && View(StoreEntries(s.mem, s.imm, s.version), k, sn) == View(EntrySet(s.history), k, sn)
  {
    var s := states[i];
    EveryReachableStateHolds(states, steps, i);
    if EveryMergeClosed(states, steps) { NothingResurrected(states, steps, i); }
    StoreIsLayered(s);
    SnapshotsAreReadable(s);
    ReadIsRight(s, k, sn);
  }

  /** Operations logged later do not show at an older snapshot. */
  lemma LaterOperationsAreInvisible(h: seq<Entry>, h': seq<Entry>, k: UserKey, sn: SeqNo)
    requires Consecutive(h') && h <= h' && sn <= |h|
    ensures View(EntrySet(h'), k, sn) == View(EntrySet(h), k, sn)
  {
    assert h'[0..|h|] == h;
    ConsecutiveIsUnique(h');
    forall x | x in EntrySet(h) ensures x in EntrySet(h') {
      SliceBySeqno(h', 0, |h|, x);
    }
    forall x | x in EntrySet(h') && x !in EntrySet(h) ensures x.key.seqno > sn {
      SliceBySeqno(h', 0, |h|, x);
    }
    ViewIgnoresNewer(EntrySet(h), EntrySet(h'), k, sn);
    assert EntrySet(h) + EntrySet(h') == EntrySet(h');
  }

  /** A snapshot keeps showing the same map however the run goes on. */
  lemma SnapshotsAreStable(states: seq<Db>, steps: seq<Step>, i: nat, j: nat, k: UserKey, sn: SeqNo)
    requires IsRun(states, steps) && i <= j < |states|
    requires k !in states[i].resurrected && k !in states[j].resurrected
    requires Readable(states[i], sn) && Readable(states[j], sn)
    ensures View(StoreEntries(states[i].mem, states[i].imm, states[i].version), k, sn)
         == View(StoreEntries(states[j].mem, states[j].imm, states[j].version), k, sn)
  {
    var s, s' := states[i], states[j];
    EveryReachableStateHolds(states, steps, i);
    EveryReachableStateHolds(states, steps, j);
    PublishedStays(states, steps, i, j);
    HistoryHolds(s);
    HistoryHolds(s');
    hide IsRun, Inv, StoreEntries;
    ReadIsRight(s, k, sn);
    ReadIsRight(s', k, sn);
    var published := s.history[..s.lastSequence];
    LaterOperationsAreInvisible(published, s.history, k, sn);
    LaterOperationsAreInvisible(published, s'.history, k, sn);
  }

  /** As long as the memtable is not switched out, only entries newer than the sequence
      number of an earlier state are added to it. */
  lemma MemTableGrows(s: Db, s': Db)
    requires Inv(s) && Inv(s') && s.switched == s'.switched && Taken(s) <= Taken(s')
    ensures EntrySet(s.mem) <= EntrySet(s'.mem)
    ensures forall e | e in EntrySet(s'.mem) && e !in EntrySet(s.mem) :: e.key.seqno > s.lastSequence
    ensures forall e | e in EntrySet(s'.mem) :: e in EntrySet(s'.history) && e.key.seqno > s.switched
  {
    hide *;
    MemTableIsTaken(s);
    MemTableIsTaken(s');
    PrefixEntries(Taken(s'), s'.history);
    LongerSlice(Taken(s), Taken(s'), s.switched);
  }

  /** What a longer history adds behind the start of a slice is newer. */
  lemma LongerSlice(t: seq<Entry>, t': seq<Entry>, a: nat)
    requires Consecutive(t') && t <= t' && a <= |t|
    ensures EntrySet(t[a..|t|]) <= EntrySet(t'[a..|t'|])
    ensures forall e | e in EntrySet(t'[a..|t'|]) :: e in EntrySet(t') && e.key.seqno > a && (e !in EntrySet(t[a..|t|]) ==> e.key.seqno > |t|)
  {
    assert t'[a..|t|] == t[a..|t|];
    SliceSplits(t', a, |t|, |t'|);
    forall e | e in EntrySet(t'[a..|t'|]) ensures e in EntrySet(t') && e.key.seqno > a && (e !in EntrySet(t'[a..|t|]) ==> e.key.seqno > |t|) {
      SliceBySeqno(t', a, |t'|, e);
      SliceBySeqno(t', a, |t|, e);
    }
  }

  lemma MemTableIsTaken(s: Db)
    requires Inv(s)
    ensures Consecutive(Taken(s)) && Taken(s) <= s.history && s.switched <= s.lastSequence <= |Taken(s)|
    ensures EntrySet(s.mem) == EntrySet(Taken(s)[s.switched..|Taken(s)|])
  {
    var n := InMemory(s.history, s.group);
    FrontSlices(s.history, n, s.switched, n);
    assert Taken(s)[s.switched..|Taken(s)|] == s.history[s.switched..n];
  }

  ghost function Below(imm: Option<seq<Entry>>, v: Levels): set<Entry> {
    (if imm.Some? then EntrySet(imm.value) else {}) + LevelsEntries(v)
  }

  lemma BelowIsOlder(s: Db)
    requires Inv(s)
    ensures forall e | e in Below(s.imm, s.version) :: e in EntrySet(Taken(s)) && e.key.seqno <= s.switched
  {
    var n := InMemory(s.history, s.group);
    VersionIsUnique(s.history, s.version, s.flushed, s.horizon, s.resurrected);
    assert s.history[..n] == s.history[0..n];
    forall e | e in Below(s.imm, s.version) ensures e in EntrySet(s.history[..n]) && e.key.seqno <= s.switched {
      SliceBySeqno(s.history, s.flushed, s.switched, e);
      SliceBySeqno(s.history, 0, n, e);
    }
  }

  /** A later state of the memtable still lies on top of the older data. */
  lemma LaterMemTable(h: seq<Entry>, switched: nat, mem: seq<Entry>, mem': seq<Entry>, imm: Option<seq<Entry>>, v: Levels)
    requires Consecutive(h) && Layered(mem, imm, v) && Sorted(mem')
    requires forall e | e in EntrySet(mem') :: e in EntrySet(h) && e.key.seqno > switched
    requires forall e | e in Below(imm, v) :: e in EntrySet(h) && e.key.seqno <= switched
    ensures Layered(mem', imm, v)
    ensures Unique(StoreEntries(mem', imm, v))
  {
    ConsecutiveIsUnique(h);
    assert StoreEntries(mem', imm, v) == EntrySet(mem') + Below(imm, v);
  }

  lemma PrefixEntries(h: seq<Entry>, h': seq<Entry>)
    requires h <= h'
    ensures EntrySet(h) <= EntrySet(h')
  {
    forall e | e in EntrySet(h) ensures e in EntrySet(h') {
      var n :| 0 <= n < |h| && h[n] == e;
      assert h'[n] == e;
    }
  }

  lemma LaterReadIsRight(s: Db, s': Db, k: UserKey, sn: SeqNo)
    requires Inv(s) && Inv(s') && s.switched == s'.switched && Taken(s) <= Taken(s')
    requires Readable(s, sn) && k !in s.resurrected
    ensures Layered(s'.mem, s.imm, s.version) && Unique(StoreEntries(s'.mem, s.imm, s.version))
    ensures View(StoreEntries(s'.mem, s.imm, s.version), k, sn) == View(EntrySet(s.history), k, sn)
  {
    hide Inv, Taken, Layered, Unique, EntrySet, LevelsEntries;
    MemTableGrows(s, s');
    LaterMemTableLies(s, s');
    ReadIsRight(s, k, sn);
    StoreIsLayered(s);
    ViewIgnoresNewer(StoreEntries(s.mem, s.imm, s.version), EntrySet(s'.mem), k, sn);
    assert StoreEntries(s.mem, s.imm, s.version) + EntrySet(s'.mem) == StoreEntries(s'.mem, s.imm, s.version);
  }

  lemma LaterMemTableLies(s: Db, s': Db)
    requires Inv(s) && Inv(s') && s.switched == s'.switched && Taken(s) <= Taken(s')
    ensures Layered(s'.mem, s.imm, s.version) && Unique(StoreEntries(s'.mem, s.imm, s.version))
  {
    MemTableGrows(s, s');
    StoreIsLayered(s);
    BelowIsOlder(s);
    MemTableIsTaken(s);
    MemTableIsTaken(s');
    MemTableIsSorted(s');
    hide Inv, Taken, Layered, Unique, StoreEntries;
    PrefixEntries(Taken(s), Taken(s'));
    PrefixEntries(Taken(s'), s'.history);
    HistoryHolds(s');
    LaterMemTable(s'.history, s.switched, s.mem, s'.mem, s.imm, s.version);
  }

  lemma MemTableIsSorted(s: Db)
    requires Inv(s)
    ensures Sorted(s.mem)
  {
  }

  /** A read works on the memtable, immutable memtable and version it took references to,
      while writers go on inserting: it still answers for the moment it started. */
  lemma ReadWithoutTheLock(states: seq<Db>, steps: seq<Step>, i: nat, j: nat, k: UserKey, sn: SeqNo)
    requires IsRun(states, steps) && i <= j < |states|
    requires states[i].switched == states[j].switched
    requires Readable(states[i], sn) && k !in states[i].resurrected
    ensures var s := states[i];
            var mem := states[j].mem;
            Layered(mem, s.imm, s.version) && Unique(StoreEntries(mem, s.imm, s.version))
            && View(StoreEntries(mem, s.imm, s.version), k, sn) == View(EntrySet(s.history), k, sn)
  {
    hide *;
    EveryReachableStateHolds(states, steps, i);
    EveryReachableStateHolds(states, steps, j);
    TakenOnlyGrows(states, steps, i, j);
    LaterReadIsRight(states[i], states[j], k, sn);
  }

  // ---- stretches of a run without a crash ----

  predicate Crashes(step: Step) {
    step.CrashStep? || step.TornCrashStep?
  }

  ghost predicate IsPath(states: seq<Db>, steps: seq<Step>) {
    && |states| == |steps| + 1
    && forall i | 0 <= i < |steps| :: Next(states[i], steps[i], states[i + 1]) && !Crashes(steps[i])
  }

  /** The store gets from one state to the other, by whatever steps, without a crash. */
  ghost predicate Reaches(s: Db, s': Db) {
    exists states, steps :: IsPath(states, steps) && states[0] == s && states[|steps|] == s'
  }

  lemma ReachesItself(s: Db)
    ensures Reaches(s, s)
  {
    assert IsPath([s], []);
  }

  lemma ReachesNext(s: Db, s': Db, step: Step, s'': Db)
    requires Reaches(s, s') && Next(s', step, s'') && !Crashes(step)
    ensures Reaches(s, s'')
  {
    hide Next;
    var states, steps :| IsPath(states, steps) && states[0] == s && states[|steps|] == s';
    assert IsPath(states + [s''], steps + [step]);
  }

  lemma ReachesInOne(s: Db, step: Step, s': Db)
    requires Next(s, step, s') && !Crashes(step)
    ensures Reaches(s, s')
  {
    hide Next;
    ReachesItself(s);
    ReachesNext(s, s, step, s');
  }

  lemma PathsJoin(states: seq<Db>, steps: seq<Step>, more: seq<Db>, moreSteps: seq<Step>)
    requires IsPath(states, steps) && IsPath(more, moreSteps) && states[|steps|] == more[0]
    ensures IsPath(states + more[1..], steps + moreSteps) && (states + more[1..])[|steps + moreSteps|] == more[|moreSteps|]
  {
    hide Next, Crashes;
    var n, all, allSteps := |steps|, states + more[1..], steps + moreSteps;
    forall i | 0 <= i < |allSteps| ensures Next(all[i], allSteps[i], all[i + 1]) && !Crashes(allSteps[i]) {
      if i < n {
        assert allSteps[i] == steps[i] && all[i] == states[i] && all[i + 1] == states[i + 1];
      } else {
        assert allSteps[i] == moreSteps[i - n] && all[i] == more[i - n] && all[i + 1] == more[i - n + 1];
      }
    }
  }

  lemma ReachesOn(s: Db, s': Db, s'': Db)
    requires Reaches(s, s') && Reaches(s', s'')
    ensures Reaches(s, s'')
  {
    hide Next, Crashes;
    var states, steps :| IsPath(states, steps) && states[0] == s && states[|steps|] == s';
    var more, moreSteps :| IsPath(more, moreSteps) && more[0] == s' && more[|moreSteps|] == s'';
    PathsJoin(states, steps, more, moreSteps);
  }

  /** Along such a stretch nothing that was logged is lost, and no resurrected key heals. */
  lemma {:induction false} PathHolds(states: seq<Db>, steps: seq<Step>, i: nat)
    requires IsPath(states, steps) && i < |states| && Inv(states[0])
    ensures Inv(states[i]) && states[0].history <= states[i].history && states[0].resurrected <= states[i].resurrected
  {
    hide Inv, Next, Resurrected;
    if i > 0 {
      PathHolds(states, steps, i - 1);
      NextKeeps(states[i - 1], steps[i - 1], states[i]);
      NextKeepsTaken(states[i - 1], steps[i - 1], states[i]);
      OnlyMergesResurrect(states[i - 1], steps[i - 1], states[i]);
    }
  }

  lemma ReachedHolds(s: Db, s': Db)
    requires Inv(s) && Reaches(s, s')
    ensures Inv(s') && s.history <= s'.history && s.resurrected <= s'.resurrected
  {
    hide Inv, Next;
    var states, steps :| IsPath(states, steps) && states[0] == s && states[|steps|] == s';
    PathHolds(states, steps, |steps|);
  }

  /** A snapshot that is still readable shows the map it showed before. */
  ghost predicate ReadsStay(s: Db, s': Db) {
    forall k, sn | k !in s'.resurrected && Readable(s, sn) && Readable(s', sn) ::
      View(StoreEntries(s'.mem, s'.imm, s'.version), k, sn) == View(StoreEntries(s.mem, s.imm, s.version), k, sn)
  }

  lemma ReachedReadsStay(s: Db, s': Db)
    requires Inv(s) && Reaches(s, s')
    ensures ReadsStay(s, s')
  {
    hide Inv, Reaches, Readable, StoreEntries;
    ReachedHolds(s, s');
    HistoryHolds(s);
    HistoryHolds(s');
    forall k, sn | k !in s'.resurrected && Readable(s, sn) && Readable(s', sn)
      ensures View(StoreEntries(s'.mem, s'.imm, s'.version), k, sn) == View(StoreEntries(s.mem, s.imm, s.version), k, sn)
    {
      ReadIsRight(s, k, sn);
      ReadIsRight(s', k, sn);
      ReadableIsLogged(s, sn);
      LaterOperationsAreInvisible(s.history, s'.history, k, sn);
    }
  }

  lemma ReadableIsLogged(s: Db, sn: SeqNo)
    requires Inv(s) && Readable(s, sn)
    ensures sn <= |s.history|
  {
    HistoryHolds(s);
    hide Inv;
  }

  // ---- garbage ----

  /** No table that recovery or a reader needs is ever missing, and the logs still on disk
      hold every operation the manifest does not cover. */
  lemma NothingNeededIsMissing(states: seq<Db>, steps: seq<Step>, i: nat)
    requires IsRun(states, steps) && i < |states|
    ensures var s := states[i];
            && FileNumbers(s.manifest.version) <= s.tables
            && (forall v | v in s.pinned || v == s.version :: FileNumbers(v) <= s.tables)
            && (s.job.Some? ==> FileNumbers(s.job.value.base) <= s.tables && forall n | n in s.job.value.outputs :: n in s.tables)
            && ManifestCovers(s) <= |s.history|
            && Replay(s.logs, s.manifest.logNumber, s.logFile + 1) == s.history[ManifestCovers(s)..]
  {
    var s := states[i];
    EveryReachableStateHolds(states, steps, i);
    var p := Plan(s.logs, s.logFile, [], [], false, false);
    LogsHoldTheRest(s, p);
  }

  /** What a file counter hands out next is above every number in use. */
  lemma FileNumbersAreFresh(states: seq<Db>, steps: seq<Step>, i: nat)
    requires IsRun(states, steps) && i < |states|
    ensures var s := states[i];
            s.nextFile !in FileNumbers(s.version) && s.nextFile !in s.logs && s.nextFile !in FileNumbers(s.manifest.version)
  {
    EveryReachableStateHolds(states, steps, i);
  }
}
