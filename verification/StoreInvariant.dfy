/** The invariant of the store machine and its preservation by every step but recovery. */
module StoreInvariant {
  import opened DbFormat
  import opened Entries
  import opened Versions
  import opened FileSearch
  import opened CompactionInputs
  import opened DropRules
  import opened CompactionWork
  import opened Install
  import opened Lookup
  import opened History
  import opened Store

  ghost predicate VersionOk(v: Levels) {
    && WfLevels(v) && NewerAbove(v)
    && forall l | 0 <= l < NUM_LEVELS :: InBuilderOrder(v[l])
  }

  /** The version holds nothing but the first `covers` operations, and with the
      operations after them it reads like the whole history. */
  ghost predicate VersionHolds(h: seq<Entry>, v: Levels, covers: nat, horizon: SeqNo, resurrected: set<UserKey>) {
    && covers <= |h|
    && LevelsEntries(v) <= EntrySet(h[..covers])
    && Faithful(h, LevelsEntries(v), covers, horizon, resurrected)
  }

  /** How much of the history the memtables have taken in. */
  function InMemory(h: seq<Entry>, group: Group): int {
    if group.Logged? then |h| - |group.entries| else |h|
  }

  ghost predicate MemTablesHold(h: seq<Entry>, mem: seq<Entry>, imm: Option<seq<Entry>>, flushed: nat, switched: nat, group: Group) {
    && flushed <= switched <= InMemory(h, group) <= |h|
    && Sorted(mem) && EntrySet(mem) == EntrySet(h[switched..InMemory(h, group)])
    && (imm.None? ==> flushed == switched)
    && (imm.Some? ==> Sorted(imm.value) && EntrySet(imm.value) == EntrySet(h[flushed..switched]))
  }

  ghost predicate SequencesHold(h: seq<Entry>, switched: nat, lastSequence: SeqNo, group: Group) {
    && Consecutive(h) && |h| < MAX_SEQUENCE
    && switched <= lastSequence <= |h|
    && (group.Idle? ==> lastSequence == |h|)
    && (!group.Idle? ==> group.entries == h[lastSequence..])
  }

  ghost predicate SnapshotsHold(snapshots: seq<SeqNo>, horizon: SeqNo, lastSequence: SeqNo) {
    && horizon <= lastSequence
    && (forall i | 0 <= i < |snapshots| :: horizon <= snapshots[i] <= lastSequence)
    && (forall i, j | 0 <= i < j < |snapshots| :: snapshots[i] <= snapshots[j])
  }

  ghost predicate LogsHold(h: seq<Entry>, logs: map<nat, seq<seq<Entry>>>, logNumber: nat, logFile: nat, flushed: nat, switched: nat) {
    && logFile in logs && logNumber <= logFile
    && (forall n | n in logs :: n <= logFile)
    && flushed <= switched <= |h|
    && Flatten(logs[logFile]) == h[switched..]
    && Replay(logs, logNumber, logFile) == h[flushed..switched]
  }

  /** A group that is in the log and not yet in the memtable is its last record. */
  ghost predicate GroupHolds(group: Group, logs: map<nat, seq<seq<Entry>>>, logFile: nat) {
    group.Logged? ==> logFile in logs && |logs[logFile]| > 0 && logs[logFile][|logs[logFile]| - 1] == group.entries
  }

  ghost predicate NumbersBelow(v: Levels, n: nat) {
    forall l, f | 0 <= l < NUM_LEVELS && f in v[l] :: f.number < n
  }

  /** A manifest that, with the logs it keeps, holds the first `covers` operations. */
  ghost predicate RecordHolds(h: seq<Entry>, horizon: SeqNo, resurrected: set<UserKey>, m: Manifest, covers: nat) {
    && VersionOk(m.version)
    && VersionHolds(h, m.version, covers, horizon, resurrected)
    && covers <= m.lastSequence
    && NumbersBelow(m.version, m.nextFile) && m.logNumber < m.nextFile
  }

  ghost predicate CurrentHolds(h: seq<Entry>, horizon: SeqNo, resurrected: set<UserKey>, version: Levels, flushed: nat) {
    VersionOk(version) && VersionHolds(h, version, flushed, horizon, resurrected)
  }

  ghost predicate JobHolds(version: Levels, job: Option<Job>, maxBytes: nat) {
    job.Some? ==> Running(version, job.value.base, job.value.c) && NoHarmfulGap(version, job.value.c, maxBytes)
  }

  ghost predicate JobSnapshotHolds(job: Option<Job>, snapshots: seq<SeqNo>, horizon: SeqNo, lastSequence: SeqNo) {
    job.Some? ==> horizon <= job.value.smallest <= lastSequence && forall i | 0 <= i < |snapshots| :: job.value.smallest <= snapshots[i]
  }

  ghost predicate OutputsPending(job: Option<Job>, flush: Option<nat>, pending: set<nat>, tables: set<nat>, nextFile: nat) {
    job.Some? ==> forall n | n in job.value.outputs :: n in pending && n in tables && n < nextFile && flush != Some(n)
  }

  /** No table that somebody may still read is missing. */
  ghost predicate TablesHold(version: Levels, pinned: seq<Levels>, job: Option<Job>, manifest: Manifest, tables: set<nat>) {
    && FileNumbers(version) <= tables && FileNumbers(manifest.version) <= tables
    && (forall v | v in pinned :: FileNumbers(v) <= tables)
    && (job.Some? ==> FileNumbers(job.value.base) <= tables)
  }

  ghost predicate FlushHolds(flush: Option<nat>, version: Levels, imm: Option<seq<Entry>>, nextFile: nat) {
    flush.Some? ==> flush.value < nextFile && NumbersBelow(version, flush.value) && imm.Some?
  }

  /** Between two calls of LogAndApply the manifest says what memory says. */
  predicate ManifestAgrees(m: Manifest, version: Levels, logNumber: nat) {
    m.version == version && m.logNumber == logNumber
  }

  ghost predicate CommitHolds(s: Db) {
    && (s.commit.NoCommit? || !s.commit.written ==> ManifestAgrees(s.manifest, s.version, s.logNumber) && RecordHolds(s.history, s.horizon, s.resurrected, s.manifest, s.flushed))
    && (s.commit.Commit? ==>
          && RecordHolds(s.history, s.horizon, s.resurrected, s.commit.record, s.commit.covers)
          && JobHolds(s.commit.record.version, if s.commit.ofFlush then s.job else None, s.maxOverlapBytes)
          && FileNumbers(s.commit.record.version) <= s.tables
          && s.flush.None? && s.commit.record.nextFile <= s.nextFile && s.commit.record.lastSequence <= s.lastSequence
          && (s.commit.written ==> s.manifest == s.commit.record)
          && if s.commit.ofFlush then s.imm.Some? && s.commit.covers == s.switched && s.commit.record.logNumber == s.logFile
             else s.job.Some? && s.commit.covers == s.flushed && s.commit.record.logNumber == s.logNumber)
  }

  ghost predicate NumbersHold(s: Db) {
    s.logFile < s.nextFile && s.manifest.nextFile <= s.nextFile && s.manifest.lastSequence <= s.lastSequence && NumbersBelow(s.version, s.nextFile)
  }

  ghost predicate Inv(s: Db) {
    && SequencesHold(s.history, s.switched, s.lastSequence, s.group)
    && SnapshotsHold(s.snapshots, s.horizon, s.lastSequence)
    && MemTablesHold(s.history, s.mem, s.imm, s.flushed, s.switched, s.group)
    && LogsHold(s.history, s.logs, s.logNumber, s.logFile, s.flushed, s.switched)
    && GroupHolds(s.group, s.logs, s.logFile)
    && CurrentHolds(s.history, s.horizon, s.resurrected, s.version, s.flushed)
    && CommitHolds(s)
    && NumbersHold(s)
    && FlushHolds(s.flush, s.version, s.imm, s.nextFile)
    && JobHolds(s.version, s.job, s.maxOverlapBytes)
    && JobSnapshotHolds(s.job, s.snapshots, s.horizon, s.lastSequence)
    && OutputsPending(s.job, s.flush, s.pending, s.tables, s.nextFile)
    && TablesHold(s.version, s.pinned, s.job, s.manifest, s.tables)
  }

  // ---- small facts ----

  lemma VersionIsUnique(h: seq<Entry>, v: Levels, covers: nat, horizon: SeqNo, resurrected: set<UserKey>)
    requires Consecutive(h) && VersionHolds(h, v, covers, horizon, resurrected)
    ensures Unique(LevelsEntries(v)) && LevelsEntries(v) <= EntrySet(h)
    ensures Unique(LevelsEntries(v) + EntrySet(h[covers..]))
    ensures forall e | e in LevelsEntries(v) :: e.key.seqno <= covers
    ensures forall e | e in EntrySet(h[covers..]) :: covers < e.key.seqno
  {
    ConsecutiveIsUnique(h);
    assert h[..covers] == h[0..covers] && h[covers..] == h[covers..|h|];
    forall e | e in LevelsEntries(v) ensures e in EntrySet(h) && e.key.seqno <= covers {
      SliceBySeqno(h, 0, covers, e);
    }
    forall e | e in EntrySet(h[covers..]) ensures e in EntrySet(h) && covers < e.key.seqno {
      SliceBySeqno(h, covers, |h|, e);
    }
  }

  lemma HoldsExtend(h: seq<Entry>, more: seq<Entry>, v: Levels, covers: nat, horizon: SeqNo, resurrected: set<UserKey>)
    requires Consecutive(h + more) && VersionHolds(h, v, covers, horizon, resurrected)
    ensures VersionHolds(h + more, v, covers, horizon, resurrected)
  {
    assert Consecutive(h) by {
      assert forall i | 0 <= i < |h| :: (h + more)[i] == h[i];
    }
    VersionIsUnique(h, v, covers, horizon, resurrected);
    assert (h + more)[..covers] == h[..covers];
    FaithfulExtend(h, more, LevelsEntries(v), covers, horizon, resurrected);
  }

  /** Fewer snapshots to honour and more resurrected keys only weaken the promise. */
  lemma HoldsWeaker(h: seq<Entry>, v: Levels, covers: nat, horizon: SeqNo, resurrected: set<UserKey>, horizon': SeqNo, resurrected': set<UserKey>)
    requires VersionHolds(h, v, covers, horizon, resurrected)
    requires horizon <= horizon' && resurrected <= resurrected'
    ensures VersionHolds(h, v, covers, horizon', resurrected')
  {
    forall k | k !in resurrected' ensures ViewsAgree(LevelsEntries(v) + EntrySet(h[covers..]), EntrySet(h), k, horizon') {
      assert ViewsAgree(LevelsEntries(v) + EntrySet(h[covers..]), EntrySet(h), k, horizon);
    }
  }

  lemma NoBlocks(blocks: seq<seq<Entry>>)
    requires |blocks| == 0
    ensures Flatten(blocks) == []
  {
  }

  lemma EmptySlice(h: seq<Entry>, a: nat)
    requires a <= |h|
    ensures h[a..a] == []
  {
  }

  lemma NoLogs(logs: map<nat, seq<seq<Entry>>>, n: nat)
    ensures Replay(logs, n, n) == []
  {
  }

  lemma OtherLog(logs: map<nat, seq<seq<Entry>>>, number: nat, n: nat)
    requires n != number
    ensures Contents(logs[number := []], n) == Contents(logs, n)
  {
  }

  lemma NoSuchLog(logs: map<nat, seq<seq<Entry>>>, n: nat)
    requires n !in logs
    ensures Contents(logs, n) == []
  {
  }

  lemma {:induction false} ReplayFrame(logs: map<nat, seq<seq<Entry>>>, logs': map<nat, seq<seq<Entry>>>, lo: nat, hi: nat)
    requires forall n | lo <= n < hi :: Contents(logs, n) == Contents(logs', n)
    ensures Replay(logs, lo, hi) == Replay(logs', lo, hi)
  {
    if lo < hi { ReplayFrame(logs, logs', lo, hi - 1); }
  }

  lemma {:induction false} ReplayQuietTail(logs: map<nat, seq<seq<Entry>>>, lo: nat, mid: nat, hi: nat)
    requires lo <= mid <= hi
    requires forall n | mid <= n < hi :: Contents(logs, n) == []
    ensures Replay(logs, lo, hi) == Replay(logs, lo, mid)
  {
    if mid < hi { ReplayQuietTail(logs, lo, mid, hi - 1); }
  }

  // ---- write path ----

  lemma LogGroupSlices(h: seq<Entry>, es: seq<Entry>, a: nat, b: nat)
    requires a <= b <= |h|
    ensures (h + es)[a..b] == h[a..b]
    ensures (h + es)[b..] == h[b..] + es
    ensures (h + es)[|h|..] == es
  {
  }

  lemma LogGroupKeeps(s: Db, s': Db, ops: seq<Op>)
    requires Inv(s) && LogGroup(s, s', ops)
    ensures Inv(s')
  {
    var es := Numbered(ops, s.lastSequence);
    var h := s.history;
    assert Consecutive(h + es);
    LogGroupSlices(h, es, s.flushed, s.switched);
    LogGroupSlices(h, es, s.switched, |h|);
    FlattenAppend(s.logs[s.logFile], es);
    ReplayFrame(s.logs, s'.logs, s.logNumber, s.logFile);
    HoldsExtend(h, es, s.version, s.flushed, s.horizon, s.resurrected);
    if s.commit.NoCommit? || !s.commit.written {
      HoldsExtend(h, es, s.manifest.version, s.flushed, s.horizon, s.resurrected);
    }
    if s.commit.Commit? {
      HoldsExtend(h, es, s.commit.record.version, s.commit.covers, s.horizon, s.resurrected);
    }
  }

  lemma SliceIsOlder(h: seq<Entry>, mem: seq<Entry>, a: nat, n: nat, x: Entry, y: Entry)
    requires Consecutive(h) && a <= n <= |h|
    requires EntrySet(mem) == EntrySet(h[a..n])
    requires x in mem && y in h[n..]
    ensures x.key.seqno < y.key.seqno
  {
    assert x in EntrySet(mem) && y in EntrySet(h[n..|h|]);
    SliceBySeqno(h, a, n, x);
    SliceBySeqno(h, n, |h|, y);
  }

  lemma JoinedEntries(a: seq<Entry>, b: seq<Entry>)
    ensures EntrySet(a + b) == EntrySet(a) + EntrySet(b)
  {
  }

  /** The next slice of the history goes into a memtable that holds the one before. */
  lemma InsertSlice(h: seq<Entry>, mem: seq<Entry>, a: nat, n: nat)
    requires Consecutive(h) && a <= n <= |h|
    requires Sorted(mem) && EntrySet(mem) == EntrySet(h[a..n])
    ensures Sorted(InsertAll(mem, h[n..])) && EntrySet(InsertAll(mem, h[n..])) == EntrySet(h[a..|h|])
  {
    var es := h[n..];
    assert AscendingSeqnos(es);
    forall x, y | x in mem && y in es ensures x.key.seqno < y.key.seqno {
      SliceIsOlder(h, mem, a, n, x, y);
    }
    InsertAllSorted(mem, es);
    WholeTail(h, n);
    JoinSlices(h, a, n, |h|);
    JoinedEntries(h[a..n], es);
    assert EntrySet(InsertAll(mem, es)) == EntrySet(mem) + EntrySet(es);
  }

  lemma InsertGroupKeeps(s: Db, s': Db)
    requires Inv(s) && InsertGroup(s, s')
    ensures Inv(s')
  {
    assert s.lastSequence == InMemory(s.history, s.group);
    InsertSlice(s.history, s.mem, s.switched, s.lastSequence);
  }

  lemma PublishGroupKeeps(s: Db, s': Db)
    requires Inv(s) && PublishGroup(s, s')
    ensures Inv(s')
  {
  }

  lemma SwitchLogs(h: seq<Entry>, logs: map<nat, seq<seq<Entry>>>, logNumber: nat, logFile: nat, nextFile: nat, flushed: nat, switched: nat)
    requires LogsHold(h, logs, logNumber, logFile, flushed, switched) && logFile < nextFile
    ensures LogsHold(h, logs[nextFile := []], logNumber, nextFile, flushed, |h|)
  {
    hide Flatten, Replay;
    var logs' := logs[nextFile := []];
    NoBlocks([]);
    ReplayFrame(logs, logs', logNumber, logFile);
    ReplayNext(logs', logNumber, logFile);
    JoinSlices(h, flushed, switched, |h|);
    WholeTail(h, switched);
    ReplayQuietTail(logs', logNumber, logFile + 1, nextFile);
  }

  lemma SwitchMemTableKeeps(s: Db, s': Db)
    requires Inv(s) && SwitchMemTable(s, s')
    ensures Inv(s')
  {
    SwitchLogs(s.history, s.logs, s.logNumber, s.logFile, s.nextFile, s.flushed, s.switched);
    assert s.history[|s.history|..|s.history|] == [];
  }

  lemma StartFlushKeeps(s: Db, s': Db)
    requires Inv(s) && StartFlush(s, s')
    ensures Inv(s')
  {
  }

  // ---- flush ----

  /** A table made of a memtable is newer than every entry of the version. */
  lemma MemTableIsNewest(h: seq<Entry>, v: Levels, a: nat, b: nat, f: File)
    requires Consecutive(h) && a <= b <= |h| && WfLevels(v)
    requires LevelsEntries(v) <= EntrySet(h[..a])
    requires WfFile(f) && EntrySet(f.entries) == EntrySet(h[a..b])
    requires NumbersBelow(v, f.number)
    ensures NewestFile(v, f)
  {
    assert h[..a] == h[0..a];
    forall l, g | 0 <= l < NUM_LEVELS && g in v[l] ensures FileNewer(f, g) {
      forall e, d | e in f.entries && d in g.entries && e.key.user == d.key.user ensures e.key.seqno > d.key.seqno {
        assert e in EntrySet(f.entries) && d in LevelsEntries(v);
        SliceBySeqno(h, a, b, e);
        SliceBySeqno(h, 0, a, d);
      }
    }
  }

  lemma WithFileEntries(v: Levels, v': Levels, m: nat, f: File)
    requires WithFile(v, v', m, f)
    ensures LevelsEntries(v') == LevelsEntries(v) + EntrySet(f.entries)
    ensures FileNumbers(v') == FileNumbers(v) + {f.number}
  {
    assert forall l, g | 0 <= l < NUM_LEVELS :: g in v'[l] <==> g in v[l] || (l == m && g == f);
    forall e | e in LevelsEntries(v) + EntrySet(f.entries) ensures e in LevelsEntries(v') {
      assert f in v'[m];
    }
    forall n | n in FileNumbers(v) + {f.number} ensures n in FileNumbers(v') {
      assert f in v'[m];
    }
  }

  /** Flushing moves a slice of the history from the memtable into the version. */
  lemma FlushMovesSlice(h: seq<Entry>, v: Levels, v': Levels, a: nat, b: nat, horizon: SeqNo, resurrected: set<UserKey>)
    requires a <= b <= |h| && VersionHolds(h, v, a, horizon, resurrected)
    requires LevelsEntries(v') == LevelsEntries(v) + EntrySet(h[a..b])
    ensures VersionHolds(h, v', b, horizon, resurrected)
  {
    hide LevelsEntries, ViewsAgree;
    assert h[..b] == h[..a] + h[a..b];
    assert h[a..] == h[a..b] + h[b..];
    assert LevelsEntries(v') + EntrySet(h[b..]) == LevelsEntries(v) + EntrySet(h[a..]);
  }

  lemma FlushedVersionHolds(h: seq<Entry>, v: Levels, v': Levels, a: nat, b: nat, horizon: SeqNo, resurrected: set<UserKey>, job: Option<Job>, number: nat, es: seq<Entry>, level: nat, size: nat, maxBytes: nat)
    requires Consecutive(h) && a <= b <= |h| && CurrentHolds(h, horizon, resurrected, v, a) && JobHolds(v, job, maxBytes)
    requires NumbersBelow(v, number)
    requires Sorted(es) && EntrySet(es) == EntrySet(h[a..b])
    requires FlushedVersion(v, v', number, es, level, size, maxBytes)
    ensures CurrentHolds(h, horizon, resurrected, v', b) && JobHolds(v', job, maxBytes)
    ensures FileNumbers(v') <= FileNumbers(v) + {number}
    ensures NumbersBelow(v', number + 1)
  {
    if |es| == 0 {
      assert EntrySet(es) == {};
    } else {
      var f := MakeFile(number, size, es);
      MemTableIsNewest(h, v, a, b, f);
      FlushKeepsWf(v, v', level, f, maxBytes);
      FlushKeepsOrder(v, v', level, f, maxBytes);
      WithFileEntries(v, v', level, f);
      if job.Some? {
        FlushKeepsRunning(v, v', level, f, maxBytes, job.value.base, job.value.c);
        FlushFillsGaps(v, v', level, f, job.value.c, maxBytes);
      }
    }
    FlushMovesSlice(h, v, v', a, b, horizon, resurrected);
  }

  lemma CommitFlushKeeps(s: Db, s': Db, v': Levels, level: nat, size: nat)
    requires Inv(s) && CommitFlush(s, s', v', level, size)
    ensures Inv(s')
  {
    FlushedVersionHolds(s.history, s.version, v', s.flushed, s.switched, s.horizon, s.resurrected, s.job, s.flush.value, s.imm.value, level, size, s.maxOverlapBytes);
  }

  // ---- LogAndApply ----

  lemma WriteRecordKeeps(s: Db, s': Db)
    requires Inv(s) && WriteRecord(s, s')
    ensures Inv(s')
  {
  }

  lemma InstallVersionKeeps(s: Db, s': Db)
    requires Inv(s) && InstallVersion(s, s')
    ensures Inv(s')
  {
    assert s.history[s.switched..s.switched] == [];
    assert Replay(s.logs, s.logFile, s.logFile) == [];
  }

  // ---- compaction ----

  lemma StartCompactionKeeps(s: Db, s': Db, c: Compaction)
    requires Inv(s) && StartCompaction(s, s', c)
    ensures Inv(s')
  {
    VersionIsUnique(s.history, s.version, s.flushed, s.horizon, s.resurrected);
    SelectedIsRunning(s.version, c);
  }

  lemma OpenOutputKeeps(s: Db, s': Db)
    requires Inv(s) && OpenOutput(s, s')
    ensures Inv(s')
  {
  }

  /** Runs of a sorted sequence are sorted among each other. */
  lemma {:induction false} RunsInOrder(runs: seq<seq<Entry>>, i: nat, j: nat, e: Entry, d: Entry)
    requires Sorted(Flatten(runs)) && i < j < |runs| && e in runs[i] && d in runs[j]
    ensures Before(e.key, d.key)
  {
    var n := |runs| - 1;
    var before := Flatten(runs[..n]);
    assert Flatten(runs) == before + runs[n];
    if j < n {
      assert Sorted(before) by {
        assert forall p | 0 <= p < |before| :: Flatten(runs)[p] == before[p];
      }
      RunsInOrder(runs[..n], i, j, e, d);
    } else {
      InFlatten(runs[..n], i, e);
      var p :| 0 <= p < |before| && before[p] == e;
      var q :| 0 <= q < |runs[n]| && runs[n][q] == d;
      assert Flatten(runs)[p] == e && Flatten(runs)[|before| + q] == d;
    }
  }

  lemma TablesHoldRuns(runs: seq<seq<Entry>>, outs: seq<File>)
    requires |runs| == |outs| && forall i | 0 <= i < |outs| :: outs[i].entries == runs[i]
    ensures FileEntries(outs) == EntrySet(Flatten(runs))
  {
    forall e | e in FileEntries(outs) ensures e in Flatten(runs) {
      var f :| f in outs && e in f.entries;
      var i :| 0 <= i < |outs| && outs[i] == f;
      InFlatten(runs, i, e);
    }
    forall e | e in Flatten(runs) ensures e in FileEntries(outs) {
      FromFlatten(runs, e);
      var i :| 0 <= i < |runs| && e in runs[i];
      assert outs[i] in outs && e in outs[i].entries;
    }
  }

  /** Tables cut from a sorted sequence are disjoint. */
  lemma TablesAreDisjoint(runs: seq<seq<Entry>>, outs: seq<File>)
    requires Sorted(Flatten(runs)) && |runs| == |outs|
    requires forall i | 0 <= i < |outs| :: outs[i].entries == runs[i] && |runs[i]| > 0
    requires forall i | 0 <= i < |outs| :: outs[i].smallest == runs[i][0].key && outs[i].largest == runs[i][|runs[i]| - 1].key
    ensures Disjoint(outs)
  {
    forall i, j | 0 <= i < j < |outs| ensures Before(outs[i].largest, outs[j].smallest) {
      RunsInOrder(runs, i, j, runs[i][|runs[i]| - 1], runs[j][0]);
    }
  }

  /** The outputs of a merge are sound, and hold exactly what the drop rules keep. */
  lemma MergeOutputsOk(job: Job, es: seq<Entry>, runs: seq<seq<Entry>>, outs: seq<File>)
    requires MergeOutputs(job, es, runs, outs)
    ensures OutputsOk(job.c, outs)
    ensures FileEntries(outs) == EntrySet(Kept(es, |es|, Rules(job.base, job.c.level, job.smallest)))
    ensures FileEntries(outs) <= InputEntries(job.c)
  {
    var r := Rules(job.base, job.c.level, job.smallest);
    KeptSorted(es, |es|, r);
    KeptIsPart(es, r);
    TablesAreDisjoint(runs, outs);
    TablesHoldRuns(runs, outs);
    forall f, e | f in outs && e in f.entries ensures exists g | g in job.c.inputs0 + job.c.inputs1 :: e in g.entries {
      assert e in FileEntries(outs);
      assert e in InputEntries(job.c);
    }
  }

  lemma ReplacedNumbers(w: Levels, w': Levels, c: Compaction, outs: seq<File>, n: nat, tables: set<nat>)
    requires c.level + 1 < NUM_LEVELS && Replaced(w, w', c, outs)
    requires NumbersBelow(w, n) && FileNumbers(w) <= tables
    requires forall f | f in outs :: f.number < n && f.number in tables
    ensures NumbersBelow(w', n) && FileNumbers(w') <= tables
  {
    forall l, f | 0 <= l < NUM_LEVELS && f in w'[l] ensures f.number < n && f.number in tables {
      if f !in outs {
        assert f in w[l];
        assert f.number in FileNumbers(w);
      }
    }
  }

  /** Installing a merge keeps the promise for the oldest snapshot at exactly the keys it does
      not resurrect. */
  lemma MergeHolds(h: seq<Entry>, v: Levels, v': Levels, covers: nat, horizon: SeqNo, resurrected: set<UserKey>, job: Job, es: seq<Entry>, runs: seq<seq<Entry>>, outs: seq<File>)
    requires Consecutive(h) && CurrentHolds(h, horizon, resurrected, v, covers) && Running(v, job.base, job.c)
    requires MergeOutputs(job, es, runs, outs) && Replaced(v, v', job.c, outs)
    requires horizon <= job.smallest < MAX_SEQUENCE
    ensures CurrentHolds(h, job.smallest, resurrected + Resurrected(BesideInputs(h[covers..], v, job.c), es, JobRules(job)), v', covers)
    ensures forall k | k !in resurrected ::
              ViewsAgree(LevelsEntries(v') + EntrySet(h[covers..]), EntrySet(h), k, job.smallest)
              <==> k !in Resurrected(BesideInputs(h[covers..], v, job.c), es, JobRules(job))
  {
    var above, rest := EntrySet(h[covers..]), BesideInputs(h[covers..], v, job.c);
    MergeOutputsOk(job, es, runs, outs);
    InstallKeepsWf(v, v', job.base, job.c, outs);
    InstallKeepsOrder(v, v', job.base, job.c, outs);
    assert forall l | 0 <= l < NUM_LEVELS :: InBuilderOrder(v'[l]);
    InstalledEntries(v, v', job.base, job.c, outs);
    VersionIsUnique(h, v, covers, horizon, resurrected);
    assert above !! LevelsEntries(v);
    forall k | k !in resurrected
      ensures ViewsAgree(LevelsEntries(v') + above, EntrySet(h), k, job.smallest) <==> k !in Resurrected(rest, es, JobRules(job))
    {
      assert ViewsAgree(LevelsEntries(v) + above, EntrySet(h), k, horizon);
      assert above + LevelsEntries(v) == LevelsEntries(v) + above && above + LevelsEntries(v') == LevelsEntries(v') + above;
      NotResurrected(rest, es, JobRules(job), k);
      CompactionPreservesReadsExactly(above, v, v', job.base, job.c, es, job.smallest, outs, k);
      SameViews(LevelsEntries(v') + above, LevelsEntries(v) + above, EntrySet(h), k, job.smallest, horizon);
    }
  }

  lemma SameViews(a: set<Entry>, b: set<Entry>, c: set<Entry>, k: UserKey, smallest: SeqNo, horizon: SeqNo)
    requires ViewsAgree(b, c, k, horizon) && horizon <= smallest
    ensures ViewsAgree(a, b, k, smallest) <==> ViewsAgree(a, c, k, smallest)
  {
  }

  lemma NotResurrected(rest: set<Entry>, es: seq<Entry>, r: Rules, k: UserKey)
    ensures k in Resurrected(rest, es, r) <==> SomethingResurrects(rest, es, r, k)
  {
    if SomethingResurrects(rest, es, r, k) {
      var i: nat, x :| Resurrects(rest, es, r, k, i, x);
      assert es[i].key.user == k;
    }
  }

  /** A merge whose lower inputs complete their last user key resurrects nothing. */
  lemma ClosedMergeResurrectsNothing(s: Db, es: seq<Entry>)
    requires Inv(s) && s.job.Some? && s.job.value.c.level + 1 < NUM_LEVELS && ClosedBelow(s.version, s.job.value.c)
    requires EntrySet(es) == InputEntries(s.job.value.c)
    ensures Resurrected(BesideInputs(Unflushed(s), s.version, s.job.value.c), es, JobRules(s.job.value)) == {}
  {
    var v, job := s.version, s.job.value;
    VersionIsUnique(s.history, v, s.flushed, s.horizon, s.resurrected);
    InputsAreHeld(v, job.base, job.c);
    hide Inv;
    var rest := BesideInputs(Unflushed(s), v, job.c);
    forall k ensures k !in Resurrected(rest, es, JobRules(job)) {
      NotResurrected(rest, es, JobRules(job), k);
      ClosedResurrectsNothing(EntrySet(Unflushed(s)), v, job.base, job.c, es, job.smallest, k);
    }
  }

  lemma InputsAreHeld(v: Levels, base: Levels, c: Compaction)
    requires Running(v, base, c)
    ensures InputEntries(c) <= LevelsEntries(v)
  {
    forall e | e in InputEntries(c) ensures e in LevelsEntries(v) {
      var g :| g in c.inputs0 + c.inputs1 && e in g.entries;
      assert g in v[c.level] || g in v[c.level + 1];
    }
  }

  lemma CommitMergeKeeps(s: Db, s': Db, v': Levels, es: seq<Entry>, runs: seq<seq<Entry>>, outs: seq<File>)
    requires Inv(s) && CommitMerge(s, s', v', es, runs, outs)
    ensures Inv(s')
  {
    var job := s.job.value;
    MergeHolds(s.history, s.version, v', s.flushed, s.horizon, s.resurrected, job, es, runs, outs);
    HoldsWeaker(s.history, s.version, s.flushed, s.horizon, s.resurrected, s'.horizon, s'.resurrected);
    forall f | f in outs ensures f.number in job.outputs {
      var i :| 0 <= i < |outs| && outs[i] == f;
    }
    ReplacedNumbers(s.version, v', job.c, outs, s.nextFile, s.tables);
  }

  /** A moved file changes its level and nothing else. */
  lemma MoveHolds(h: seq<Entry>, v: Levels, v': Levels, covers: nat, horizon: SeqNo, resurrected: set<UserKey>, job: Job)
    requires Consecutive(h) && CurrentHolds(h, horizon, resurrected, v, covers) && Running(v, job.base, job.c)
    requires |job.c.inputs0| == 1 && job.c.inputs1 == []
    requires Replaced(v, v', job.c, job.c.inputs0)
    ensures CurrentHolds(h, horizon, resurrected, v', covers)
  {
    var c := job.c;
    assert c.inputs0 + c.inputs1 == c.inputs0;
    assert OutputsOk(c, c.inputs0);
    InstallKeepsWf(v, v', job.base, c, c.inputs0);
    InstallKeepsOrder(v, v', job.base, c, c.inputs0);
    assert forall l | 0 <= l < NUM_LEVELS :: InBuilderOrder(v'[l]);
    InstalledEntries(v, v', job.base, c, c.inputs0);
    assert LevelsEntries(v') == LevelsEntries(v);
  }

  lemma CommitMoveKeeps(s: Db, s': Db, v': Levels)
    requires Inv(s) && CommitMove(s, s', v')
    ensures Inv(s')
  {
    var job := s.job.value;
    MoveHolds(s.history, s.version, v', s.flushed, s.horizon, s.resurrected, job);
    forall f | f in job.c.inputs0 ensures f.number < s.nextFile && f.number in s.tables {
      assert f in s.version[job.c.level] && f.number in FileNumbers(s.version);
    }
    ReplacedNumbers(s.version, v', job.c, job.c.inputs0, s.nextFile, s.tables);
  }

  // ---- garbage, snapshots, readers ----

  lemma CollectGarbageKeeps(s: Db, s': Db)
    requires Inv(s) && CollectGarbage(s, s')
    ensures Inv(s')
  {
    ReplayFrame(s.logs, s'.logs, s.logNumber, s.logFile);
    forall v | v in s.pinned ensures FileNumbers(v) <= s'.tables {
      assert forall n | n in FileNumbers(v) :: n in LiveTables(s);
    }
  }

  lemma TakeSnapshotKeeps(s: Db, s': Db)
    requires Inv(s) && TakeSnapshot(s, s')
    ensures Inv(s')
  {
  }

  lemma ReleaseSnapshotKeeps(s: Db, s': Db, i: nat)
    requires Inv(s) && ReleaseSnapshot(s, s', i)
    ensures Inv(s')
  {
    assert forall j | 0 <= j < |s'.snapshots| :: s'.snapshots[j] == s.snapshots[if j < i then j else j + 1];
  }

  lemma PinVersionKeeps(s: Db, s': Db)
    requires Inv(s) && PinVersion(s, s')
    ensures Inv(s')
  {
  }

  lemma UnpinVersionKeeps(s: Db, s': Db, i: nat)
    requires Inv(s) && UnpinVersion(s, s', i)
    ensures Inv(s')
  {
  }
}
