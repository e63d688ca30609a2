/** Crash and recovery (db/db_impl.cc, Recover, RecoverLogFile and DB::Open): from any
    reachable state, what is on disk rebuilds the whole history, and the recovered store
    satisfies the same invariant. */
module CrashSafety {
  import opened DbFormat
  import opened Entries
  import opened Versions
  import opened FileSearch
  import opened CompactionWork
  import opened Install
  import opened History
  import opened Log
  import opened LogRoundTrip
  import opened LogReuse
  import opened Store
  import opened StoreInvariant

  /** The version of the manifest with recovered tables added to level 0. */
  ghost predicate WithLevel0Files(v: Levels, v': Levels, files: seq<File>) {
    && (forall l | 1 <= l < NUM_LEVELS :: v'[l] == v[l])
    && (forall f :: f in v'[0] <==> f in v[0] || f in files)
    && InBuilderOrder(v'[0]) && DistinctNumbers(v'[0])
  }

  /** Recovered memtables become tables with rising numbers, in the order their contents
      were logged. */
  ghost predicate TablesOfBlocks(blocks: seq<seq<Entry>>, files: seq<File>, lo: nat, hi: nat) {
    && |blocks| == |files|
    && (forall i | 0 <= i < |files| :: WfFile(files[i]) && EntrySet(files[i].entries) == EntrySet(blocks[i]) && lo <= files[i].number < hi)
    && (forall i, j | 0 <= i < j < |files| :: files[i].number < files[j].number)
  }

  function MaxSequence(last: SeqNo, es: seq<Entry>): SeqNo {
    if |es| == 0 then last
    else
      var m := MaxSequence(last, es[..|es| - 1]);
      if es[|es| - 1].key.seqno > m then es[|es| - 1].key.seqno else m
  }

  /** How much of the history the manifest on disk covers. */
  function ManifestCovers(s: Db): nat {
    if s.commit.Commit? && s.commit.written then s.commit.covers else s.flushed
  }

  /** What the directory listing shows after a crash: the logs, and an empty log for every
      recovery that was itself cut short. */
  ghost predicate LogsOnDisk(s: Db, logs: map<nat, seq<seq<Entry>>>, top: nat) {
    && top in logs
    && (forall n | n in logs :: n <= top)
    && (forall n | n in s.logs :: n in logs && logs[n] == s.logs[n])
    && (forall n | n in logs && n !in s.logs :: logs[n] == [] && s.logFile < n)
  }

  /** The outcome of recovery.  With `reuse` the newest log stays in use and its memtable
      is kept; otherwise everything replayed is flushed and a new log is started. */
  datatype Plan = Plan(logs: map<nat, seq<seq<Entry>>>, top: nat, blocks: seq<seq<Entry>>, files: seq<File>, reuse: bool, save: bool) {
    function Last(): seq<Entry> {
      if reuse then Contents(logs, top) else []
    }
  }

  ghost predicate RecoveredLog(m: Manifest, p: Plan, logFile': nat, logs': map<nat, seq<seq<Entry>>>) {
    if p.reuse then logFile' == p.top && logs' == p.logs
    else m.nextFile <= logFile' && p.top < logFile' && logs' == p.logs[logFile' := []]
  }

  ghost predicate CrashRecover(s: Db, s': Db, p: Plan) {
    var m := s.manifest;
    && LogsOnDisk(s, p.logs, p.top)
    && Flatten(p.blocks) == Replay(p.logs, m.logNumber, if p.reuse then p.top else p.top + 1)
    && TablesOfBlocks(p.blocks, p.files, m.nextFile, s'.nextFile)
    && WithLevel0Files(m.version, s'.version, p.files)
    && (!p.save ==> p.files == [] && s'.version == m.version)
    && Sorted(s'.mem) && EntrySet(s'.mem) == EntrySet(p.Last())
    && s'.imm == None && s'.group == Idle && s'.flush == None && s'.commit == NoCommit && s'.job == None
    && s'.snapshots == [] && s'.pending == {} && s'.pinned == []
    && s'.lastSequence == MaxSequence(m.lastSequence, Replay(p.logs, m.logNumber, p.top + 1))
    && RecoveredLog(m, p, s'.logFile, s'.logs) && s'.logFile < s'.nextFile && m.nextFile <= s'.nextFile
    && s'.tables == s.tables + (set f | f in p.files :: f.number)
    && (if p.save
        then s'.manifest == Manifest(s'.version, s'.logFile, s'.nextFile, s'.lastSequence) && s'.logNumber == s'.logFile
        else s'.manifest == m && s'.logNumber == m.logNumber)
    && s'.history == s.history && s'.horizon == s.horizon && s'.resurrected == s.resurrected
    && |p.Last()| <= |s.history|
    && s'.switched == |s.history| - |p.Last()|
    && s'.flushed == (if p.save then s'.switched else ManifestCovers(s))
  }

  // ---- the logs on disk hold the rest of the history ----

  lemma {:induction false} ReplaySplits(logs: map<nat, seq<seq<Entry>>>, lo: nat, mid: nat, hi: nat)
    requires lo <= mid <= hi
    ensures Replay(logs, lo, hi) == Replay(logs, lo, mid) + Replay(logs, mid, hi)
  {
    if mid < hi { ReplaySplits(logs, lo, mid, hi - 1); }
  }

  /** The logs the manifest still needs, up to the one in use. */
  lemma ManifestLogs(s: Db)
    requires Inv(s)
    ensures s.manifest.logNumber <= s.logFile && ManifestCovers(s) <= s.switched <= |s.history|
    ensures Replay(s.logs, s.manifest.logNumber, s.logFile) == s.history[ManifestCovers(s)..s.switched]
    ensures Contents(s.logs, s.logFile) == s.history[s.switched..]
  {
    if s.commit.Commit? && s.commit.written && s.commit.ofFlush {
      assert s.history[s.switched..s.switched] == [];
    }
  }

  lemma LogOnDisk(s: Db, p: Plan, n: nat)
    requires LogsOnDisk(s, p.logs, p.top) && forall i | i in s.logs :: i <= s.logFile
    ensures Contents(p.logs, n) == if n <= s.logFile then Contents(s.logs, n) else []
  {
    NoBlocks([]);
    hide Flatten;
  }

  lemma DiskLogs(s: Db, p: Plan, lo: nat, covers: nat)
    requires lo <= s.logFile && covers <= s.switched <= |s.history| && LogsOnDisk(s, p.logs, p.top)
    requires s.logFile in s.logs && forall n | n in s.logs :: n <= s.logFile
    requires Replay(s.logs, lo, s.logFile) == s.history[covers..s.switched] && Contents(s.logs, s.logFile) == s.history[s.switched..]
    ensures s.logFile <= p.top && Contents(p.logs, s.logFile) == s.history[s.switched..]
    ensures Replay(p.logs, lo, s.logFile) == s.history[covers..s.switched]
    ensures Replay(p.logs, lo, p.top + 1) == s.history[covers..]
  {
    hide Flatten, Replay, Contents;
    forall n: nat | n <= p.top ensures Contents(p.logs, n) == if n <= s.logFile then Contents(s.logs, n) else [] {
      LogOnDisk(s, p, n);
    }
    ReplayFrame(s.logs, p.logs, lo, s.logFile);
    ReplayNext(p.logs, lo, s.logFile);
    assert s.history[covers..] == s.history[covers..s.switched] + s.history[s.switched..];
    ReplayQuietTail(p.logs, lo, s.logFile + 1, p.top + 1);
  }

  /** The logs kept by the manifest hold exactly the operations it does not cover. */
  lemma LogsHoldTheRest(s: Db, p: Plan)
    requires Inv(s) && LogsOnDisk(s, p.logs, p.top)
    ensures s.manifest.logNumber <= s.logFile <= p.top
    ensures ManifestCovers(s) <= s.switched <= |s.history|
    ensures Replay(p.logs, s.manifest.logNumber, s.logFile) == s.history[ManifestCovers(s)..s.switched]
    ensures Replay(p.logs, s.manifest.logNumber, p.top + 1) == s.history[ManifestCovers(s)..]
    ensures Contents(p.logs, s.logFile) == s.history[s.switched..]
  {
    hide *;
    ManifestLogs(s);
    LogInUse(s);
    DiskLogs(s, p, s.manifest.logNumber, ManifestCovers(s));
  }

  lemma LogInUse(s: Db)
    requires Inv(s)
    ensures s.logFile in s.logs && forall n | n in s.logs :: n <= s.logFile
  {
  }

  lemma FrontSlices(h: seq<Entry>, n: nat, a: nat, b: nat)
    requires a <= b <= n <= |h|
    ensures h[..n][a..b] == h[a..b] && h[..n][a..] == h[a..n]
  {
  }

  lemma CoversPart(s: Db)
    requires Inv(s)
    ensures ManifestCovers(s) <= |s.history|
  {
  }

  lemma SplitAtLast(h: seq<Entry>, covers: nat, front: seq<Entry>, last: seq<Entry>)
    requires covers <= |h| && h[covers..] == front + last
    ensures |last| <= |h| - covers
    ensures last == h[|h| - |last|..] && front == h[covers..|h| - |last|]
  {
    var n := |h| - |last|;
    assert h[covers..] == h[covers..n] + h[n..];
  }

  /** What recovery keeps in memory is the end of the history, what it flushes is what
      lies between that and the manifest. */
  lemma RecoveredSlices(s: Db, p: Plan)
    requires Inv(s) && LogsOnDisk(s, p.logs, p.top)
    requires Flatten(p.blocks) == Replay(p.logs, s.manifest.logNumber, if p.reuse then p.top else p.top + 1)
    ensures |p.Last()| <= |s.history| - ManifestCovers(s)
    ensures p.Last() == s.history[|s.history| - |p.Last()|..]
    ensures Flatten(p.blocks) == s.history[ManifestCovers(s)..|s.history| - |p.Last()|]
    ensures |p.blocks| == 0 ==> ManifestCovers(s) == |s.history| - |p.Last()|
  {
    hide Inv, LogsOnDisk, ManifestCovers, Flatten, Replay, Contents;
    var h, covers := s.history, ManifestCovers(s);
    CoversPart(s);
    LogsHoldTheRest(s, p);
    if |p.blocks| == 0 { NoBlocks(p.blocks); }
    if p.reuse {
      ReplayNext(p.logs, s.manifest.logNumber, p.top);
      SplitAtLast(h, covers, Flatten(p.blocks), p.Last());
    } else {
      WholeTail(h, covers);
    }
  }

  lemma {:induction false} MaxOfSlice(h: seq<Entry>, a: nat, b: nat, last: SeqNo)
    requires Consecutive(h) && a <= b <= |h| && a <= last
    ensures MaxSequence(last, h[a..b]) == if b > last then b else last
  {
    if a < b {
      assert h[a..b][..b - a - 1] == h[a..b - 1];
      MaxOfSlice(h, a, b - 1, last);
    }
  }

  // ---- the recovered version ----

  ghost predicate NewerThanAll(f: File, v: Levels) {
    forall l, g | 0 <= l < NUM_LEVELS && g in v[l] :: FileNewer(f, g)
  }

  lemma RecoveredTableIsNewer(h: seq<Entry>, v: Levels, a: nat, b: nat, blocks: seq<seq<Entry>>, i: nat, f: File)
    requires Consecutive(h) && a <= b <= |h|
    requires LevelsEntries(v) <= EntrySet(h[..a])
    requires Flatten(blocks) == h[a..b] && i < |blocks| && EntrySet(f.entries) == EntrySet(blocks[i])
    ensures NewerThanAll(f, v)
  {
    assert h[..a] == h[0..a];
    forall l, g, e, d | 0 <= l < NUM_LEVELS && g in v[l] && e in f.entries && d in g.entries
      ensures e.key.seqno > d.key.seqno
    {
      assert e in EntrySet(f.entries) && d in LevelsEntries(v);
      InFlatten(blocks, i, e);
      assert e in EntrySet(h[a..b]);
      SliceBySeqno(h, a, b, e);
      SliceBySeqno(h, 0, a, d);
    }
  }

  lemma RecoveredTablesInOrder(h: seq<Entry>, a: nat, b: nat, blocks: seq<seq<Entry>>, i: nat, j: nat, f: File, g: File)
    requires Consecutive(h) && a <= b <= |h|
    requires Flatten(blocks) == h[a..b] && i < j < |blocks|
    requires EntrySet(f.entries) == EntrySet(blocks[i]) && EntrySet(g.entries) == EntrySet(blocks[j])
    ensures FileNewer(g, f)
  {
    assert AscendingSeqnos(h[a..b]);
    forall d, e | d in g.entries && e in f.entries && d.key.user == e.key.user ensures d.key.seqno > e.key.seqno {
      assert d in EntrySet(g.entries) && e in EntrySet(f.entries);
      BlocksAscend(blocks, i, j, e, d);
    }
  }

  lemma RecoveredVersionWf(v: Levels, v': Levels, files: seq<File>)
    requires VersionOk(v) && AllWf(files) && WithLevel0Files(v, v', files)
    ensures WfLevels(v') && forall l | 0 <= l < NUM_LEVELS :: InBuilderOrder(v'[l])
  {
    assert AllWf(v[0]);
    assert AllWf(v'[0]);
  }

  lemma RecoveredVersionOrder(v: Levels, v': Levels, files: seq<File>)
    requires NewerAbove(v) && WithLevel0Files(v, v', files)
    requires forall f | f in files :: NewerThanAll(f, v) && forall g | g in v[0] :: g.number < f.number
    requires forall i, j | 0 <= i < j < |files| :: FileNewer(files[j], files[i]) && files[i].number < files[j].number
    ensures NewerAbove(v')
  {
    forall f, g | f in v'[0] && g in v'[0] && f.number > g.number ensures FileNewer(f, g) {
      if f in files && g in files {
        var i :| 0 <= i < |files| && files[i] == g;
        var j :| 0 <= j < |files| && files[j] == f;
        assert FileNewer(files[j], files[i]);
      } else if f in files {
        assert NewerThanAll(f, v) && g in v[0];
      }
    }
    forall l, m, f, g | 0 <= l < m < NUM_LEVELS && f in v'[l] && g in v'[m] ensures FileNewer(f, g) {
      assert g in v[m];
      if f !in v[l] {
        assert NewerThanAll(f, v);
      }
    }
  }

  lemma RecoveredVersionOk(h: seq<Entry>, v: Levels, v': Levels, a: nat, b: nat, blocks: seq<seq<Entry>>, files: seq<File>, lo: nat, hi: nat)
    requires Consecutive(h) && a <= b <= |h| && VersionOk(v) && NumbersBelow(v, lo)
    requires LevelsEntries(v) <= EntrySet(h[..a])
    requires Flatten(blocks) == h[a..b] && TablesOfBlocks(blocks, files, lo, hi)
    requires WithLevel0Files(v, v', files)
    ensures VersionOk(v')
  {
    RecoveredVersionWf(v, v', files);
    forall f | f in files ensures NewerThanAll(f, v) && forall g | g in v[0] :: g.number < f.number {
      var i :| 0 <= i < |files| && files[i] == f;
      RecoveredTableIsNewer(h, v, a, b, blocks, i, f);
    }
    forall i, j | 0 <= i < j < |files| ensures FileNewer(files[j], files[i]) {
      RecoveredTablesInOrder(h, a, b, blocks, i, j, files[i], files[j]);
    }
    RecoveredVersionOrder(v, v', files);
  }

  lemma Level0Entries(v: Levels, v': Levels, blocks: seq<seq<Entry>>, files: seq<File>, lo: nat, hi: nat)
    requires WithLevel0Files(v, v', files) && TablesOfBlocks(blocks, files, lo, hi)
    ensures LevelsEntries(v') == LevelsEntries(v) + EntrySet(Flatten(blocks))
    ensures FileNumbers(v') == FileNumbers(v) + (set f | f in files :: f.number)
  {
    assert forall l, g | 0 <= l < NUM_LEVELS :: g in v'[l] <==> g in v[l] || (l == 0 && g in files);
    forall e | e in LevelsEntries(v') ensures e in LevelsEntries(v) + EntrySet(Flatten(blocks)) {
      var l, g :| 0 <= l < NUM_LEVELS && g in v'[l] && e in g.entries;
      if g in files {
        var i :| 0 <= i < |files| && files[i] == g;
        assert e in EntrySet(files[i].entries);
        InFlatten(blocks, i, e);
      }
    }
    forall e | e in LevelsEntries(v) + EntrySet(Flatten(blocks)) ensures e in LevelsEntries(v') {
      if e in Flatten(blocks) {
        FromFlatten(blocks, e);
        var i :| 0 <= i < |blocks| && e in blocks[i];
        assert e in EntrySet(files[i].entries) && files[i] in v'[0];
      }
    }
    forall n | n in FileNumbers(v) + (set f | f in files :: f.number) ensures n in FileNumbers(v') {
      assert forall f | f in files :: f in v'[0];
    }
  }

  // ---- the recovered store ----

  /** The invariant of the manifest as it stands on disk. */
  lemma ManifestHolds(s: Db)
    requires Inv(s)
    ensures RecordHolds(s.history, s.horizon, s.resurrected, s.manifest, ManifestCovers(s))
    ensures ManifestCovers(s) <= s.manifest.lastSequence <= |s.history|
    ensures FileNumbers(s.manifest.version) <= s.tables
  {
  }

  lemma RecoveredLogs(h: seq<Entry>, p: Plan, m: Manifest, covers: nat, logs': map<nat, seq<seq<Entry>>>, logNumber': nat, logFile': nat, flushed': nat, switched': nat)
    requires p.top in p.logs && (forall n | n in p.logs :: n <= p.top) && m.logNumber <= p.top
    requires |p.Last()| <= |h| && covers <= switched' && switched' == |h| - |p.Last()| && p.Last() == h[switched'..]
    requires Flatten(p.blocks) == Replay(p.logs, m.logNumber, if p.reuse then p.top else p.top + 1)
    requires Flatten(p.blocks) == h[covers..switched']
    requires RecoveredLog(m, p, logFile', logs')
    requires if p.save then logNumber' == logFile' && flushed' == switched' else logNumber' == m.logNumber && flushed' == covers
    ensures LogsHold(h, logs', logNumber', logFile', flushed', switched')
  {
    hide Flatten, Replay;
    NoLogs(logs', logFile');
    WholeTail(h, switched');
    EmptySlice(h, switched');
    if !p.reuse {
      NoBlocks([]);
      hide Contents;
      forall n: nat | n <= p.top ensures Contents(p.logs, n) == Contents(logs', n) { OtherLog(p.logs, logFile', n); }
      forall n: nat | p.top < n < logFile' ensures Contents(logs', n) == [] { NoSuchLog(logs', n); }
      ReplayFrame(p.logs, logs', m.logNumber, p.top + 1);
      ReplayQuietTail(logs', m.logNumber, p.top + 1, logFile');
    }
  }

  lemma RecoveredNumbers(v: Levels, v': Levels, files: seq<File>, blocks: seq<seq<Entry>>, lo: nat, hi: nat)
    requires WithLevel0Files(v, v', files) && TablesOfBlocks(blocks, files, lo, hi)
    requires NumbersBelow(v, lo) && lo <= hi
    ensures NumbersBelow(v', hi)
  {
    forall l, f | 0 <= l < NUM_LEVELS && f in v'[l] ensures f.number < hi {
      if f in files {
        var i :| 0 <= i < |files| && files[i] == f;
      } else {
        assert f in v[l];
      }
    }
  }

  lemma RecoveredVersion(s: Db, v': Levels, p: Plan, next: nat, switched: nat)
    requires Inv(s)
    requires ManifestCovers(s) <= switched <= |s.history| && Flatten(p.blocks) == s.history[ManifestCovers(s)..switched]
    requires TablesOfBlocks(p.blocks, p.files, s.manifest.nextFile, next) && s.manifest.nextFile <= next
    requires WithLevel0Files(s.manifest.version, v', p.files)
    ensures CurrentHolds(s.history, s.horizon, s.resurrected, v', switched)
    ensures NumbersBelow(v', next) && FileNumbers(v') <= s.tables + (set f | f in p.files :: f.number)
  {
    var h, m, covers := s.history, s.manifest, ManifestCovers(s);
    ManifestHolds(s);
    RecoveredVersionOk(h, m.version, v', covers, switched, p.blocks, p.files, m.nextFile, next);
    Level0Entries(m.version, v', p.blocks, p.files, m.nextFile, next);
    FlushMovesSlice(h, m.version, v', covers, switched, s.horizon, s.resurrected);
    RecoveredNumbers(m.version, v', p.files, p.blocks, m.nextFile, next);
  }

  /** The next sequence number after recovery is a fresh one. */
  lemma RecoveredSequence(s: Db, p: Plan)
    requires Inv(s) && LogsOnDisk(s, p.logs, p.top)
    ensures MaxSequence(s.manifest.lastSequence, Replay(p.logs, s.manifest.logNumber, p.top + 1)) == |s.history|
  {
    hide *;
    var h := s.history;
    HistoryHolds(s);
    ManifestHolds(s);
    LogsHoldTheRest(s, p);
    WholeTail(h, ManifestCovers(s));
    MaxOfSlice(h, ManifestCovers(s), |h|, s.manifest.lastSequence);
  }

  lemma RecoveredLogsHold(s: Db, p: Plan, logs': map<nat, seq<seq<Entry>>>, logNumber': nat, logFile': nat, flushed': nat, switched': nat)
    requires Inv(s) && LogsOnDisk(s, p.logs, p.top)
    requires Flatten(p.blocks) == Replay(p.logs, s.manifest.logNumber, if p.reuse then p.top else p.top + 1)
    requires RecoveredLog(s.manifest, p, logFile', logs') && (!p.save ==> |p.blocks| == 0)
    requires switched' == |s.history| - |p.Last()|
    requires if p.save then logNumber' == logFile' && flushed' == switched' else logNumber' == s.manifest.logNumber && flushed' == ManifestCovers(s)
    ensures LogsHold(s.history, logs', logNumber', logFile', flushed', switched') && flushed' == switched'
  {
    hide Inv, ManifestCovers, RecoveredLog, Replay, Flatten, LogsHold;
    RecoveredSlices(s, p);
    LogsHoldTheRest(s, p);
    RecoveredLogs(s.history, p, s.manifest, ManifestCovers(s), logs', logNumber', logFile', flushed', switched');
  }

  /** A store in which nothing is under way. */
  predicate Quiet(s: Db) {
    && s.imm == None && s.group == Idle && s.flush == None && s.commit == NoCommit && s.job == None
    && s.snapshots == [] && s.pinned == []
  }

  lemma QuietStoreHolds(s: Db)
    requires Quiet(s)
    requires SequencesHold(s.history, s.switched, s.lastSequence, Idle) && s.horizon <= s.lastSequence
    requires s.flushed == s.switched && Sorted(s.mem) && EntrySet(s.mem) == EntrySet(s.history[s.switched..])
    requires LogsHold(s.history, s.logs, s.logNumber, s.logFile, s.flushed, s.switched)
    requires CurrentHolds(s.history, s.horizon, s.resurrected, s.version, s.flushed)
    requires ManifestAgrees(s.manifest, s.version, s.logNumber) && s.flushed <= s.manifest.lastSequence
    requires NumbersBelow(s.version, s.manifest.nextFile) && s.manifest.logNumber < s.manifest.nextFile
    requires NumbersHold(s) && FileNumbers(s.version) <= s.tables
    ensures Inv(s)
  {
    assert s.history[s.switched..|s.history|] == s.history[s.switched..];
  }

  lemma HistoryHolds(s: Db)
    requires Inv(s)
    ensures Consecutive(s.history) && |s.history| < MAX_SEQUENCE && s.horizon <= s.lastSequence <= |s.history|
  {
  }

  /** What the recovered store holds in memory. */
  lemma RecoveredMemory(s: Db, s': Db, p: Plan)
    requires Inv(s) && CrashRecover(s, s', p)
    ensures SequencesHold(s'.history, s'.switched, s'.lastSequence, Idle) && s'.lastSequence == |s'.history| && s'.horizon <= s'.lastSequence
    ensures Sorted(s'.mem) && EntrySet(s'.mem) == EntrySet(s'.history[s'.switched..])
  {
    hide Inv, LogsOnDisk, RecoveredLog, WithLevel0Files, TablesOfBlocks, MaxSequence, Replay, Flatten, ManifestCovers, Consecutive;
    HistoryHolds(s);
    RecoveredSequence(s, p);
    RecoveredSlices(s, p);
  }

  lemma SameCount(blocks: seq<seq<Entry>>, files: seq<File>, lo: nat, hi: nat)
    requires TablesOfBlocks(blocks, files, lo, hi)
    ensures |blocks| == |files|
  {
  }

  lemma RecoveredLogFiles(s: Db, s': Db, p: Plan)
    requires Inv(s) && CrashRecover(s, s', p)
    ensures s'.flushed == s'.switched
    ensures LogsHold(s'.history, s'.logs, s'.logNumber, s'.logFile, s'.flushed, s'.switched)
  {
    hide Inv, LogsOnDisk, RecoveredLog, WithLevel0Files, TablesOfBlocks, MaxSequence, Replay, Flatten, ManifestCovers, LogsHold, Consecutive;
    SameCount(p.blocks, p.files, s.manifest.nextFile, s'.nextFile);
    RecoveredLogsHold(s, p, s'.logs, s'.logNumber, s'.logFile, s'.flushed, s'.switched);
  }

  lemma RecoveredTables(s: Db, s': Db, p: Plan)
    requires Inv(s) && CrashRecover(s, s', p)
    ensures CurrentHolds(s'.history, s'.horizon, s'.resurrected, s'.version, s'.switched)
    ensures NumbersBelow(s'.version, s'.nextFile) && FileNumbers(s'.version) <= s'.tables
  {
    hide Inv, LogsOnDisk, RecoveredLog, WithLevel0Files, TablesOfBlocks, MaxSequence, Replay, Flatten, ManifestCovers, CurrentHolds, NumbersBelow;
    RecoveredSlices(s, p);
    RecoveredVersion(s, s'.version, p, s'.nextFile, s'.switched);
  }

  lemma RecoveredManifest(s: Db, s': Db, p: Plan)
    requires Inv(s) && CrashRecover(s, s', p) && NumbersBelow(s'.version, s'.nextFile)
    ensures ManifestAgrees(s'.manifest, s'.version, s'.logNumber) && NumbersBelow(s'.version, s'.manifest.nextFile)
    ensures s'.manifest.logNumber < s'.manifest.nextFile <= s'.nextFile
    ensures s'.flushed <= s'.manifest.lastSequence <= s'.lastSequence
  {
    hide Inv, LogsOnDisk, RecoveredLog, WithLevel0Files, TablesOfBlocks, MaxSequence, Replay, Flatten, ManifestCovers, NumbersBelow, VersionOk, VersionHolds;
    ManifestHolds(s);
    RecoveredSequence(s, p);
  }

  /** Recovery after a crash in any reachable state rebuilds a store that holds the whole
      history. */
  lemma CrashRecoverKeeps(s: Db, s': Db, p: Plan)
    requires Inv(s) && CrashRecover(s, s', p)
    ensures Inv(s')
    ensures s'.lastSequence == |s'.history|
  {
    RecoveredMemory(s, s', p);
    RecoveredLogFiles(s, s', p);
    RecoveredTables(s, s', p);
    RecoveredManifest(s, s', p);
    hide Inv, LogsOnDisk, WithLevel0Files, TablesOfBlocks, MaxSequence, Replay, Flatten, LogsHold, CurrentHolds, NumbersBelow;
    QuietStoreHolds(s');
  }

  // ---- a crash inside AddRecord ----

  /** Where a log file broke off: the records it was to hold, and how much of it is there. */
  datatype Tear = Tear(crc: Checksum, records: seq<Bytes>, n: nat)

  /** The log ends inside its last record. */
  predicate CutsLastRecord(log: seq<seq<Entry>>, t: Tear) {
    |t.records| == |log| > 0 && t.n < |Written(t.crc, t.records)| && Complete(t.crc, t.records, 0, t.n) == |log| - 1
  }

  /** The crash came while the record of a group was being written. */
  predicate TornLog(s: Db, t: Tear) {
    s.group.Logged? && s.logFile in s.logs && s.lastSequence <= |s.history| && CutsLastRecord(s.logs[s.logFile], t)
  }

  /** The store without the group whose record did not get to the log as a whole. */
  ghost function CutOff(s: Db): Db
    requires s.logFile in s.logs && |s.logs[s.logFile]| > 0 && s.lastSequence <= |s.history|
  {
    s.(group := Idle, history := s.history[..s.lastSequence], logs := s.logs[s.logFile := s.logs[s.logFile][..|s.logs[s.logFile]| - 1]])
  }

  /** Recovery after a crash that cut off the log record of the group being written.  The log
      may only stay in use if the cut is clean. */
  ghost predicate TornCrash(s: Db, s': Db, p: Plan, t: Tear) {
    && TornLog(s, t)
    && (p.reuse && p.top == s.logFile ==> CleanCut(t.crc, t.records, t.n))
    && CrashRecover(CutOff(s), s', p)
  }

  lemma HoldsCut(h: seq<Entry>, n: SeqNo, v: Levels, covers: nat, horizon: SeqNo, resurrected: set<UserKey>)
    requires Consecutive(h) && covers <= n <= |h| && horizon <= n
    requires VersionHolds(h, v, covers, horizon, resurrected)
    ensures VersionHolds(h[..n], v, covers, horizon, resurrected)
  {
    FaithfulCut(h, n, LevelsEntries(v), covers, horizon, resurrected);
    assert h[..n][..covers] == h[..covers];
  }

  lemma FlattenCut(log: seq<seq<Entry>>, front: seq<Entry>, last: seq<Entry>)
    requires |log| > 0 && Flatten(log) == front + last && log[|log| - 1] == last
    ensures Flatten(log[..|log| - 1]) == front
  {
    var rest := Flatten(log[..|log| - 1]);
    assert rest + last == front + last;
    assert rest == (rest + last)[..|front|] == front;
  }

  lemma LogsCut(h: seq<Entry>, n: nat, logs: map<nat, seq<seq<Entry>>>, logNumber: nat, logFile: nat, flushed: nat, switched: nat)
    requires LogsHold(h, logs, logNumber, logFile, flushed, switched)
    requires switched <= n <= |h| && |logs[logFile]| > 0 && logs[logFile][|logs[logFile]| - 1] == h[n..]
    ensures LogsHold(h[..n], logs[logFile := logs[logFile][..|logs[logFile]| - 1]], logNumber, logFile, flushed, switched)
  {
    hide Flatten, Replay;
    var log := logs[logFile];
    FrontSlices(h, n, flushed, switched);
    FrontSlices(h, n, switched, n);
    ReplayFrame(logs, logs[logFile := log[..|log| - 1]], logNumber, logFile);
    assert h[switched..] == h[..n][switched..] + h[n..];
    FlattenCut(log, h[..n][switched..], h[n..]);
  }

  /** The store whose last group never got to the log is as sound as it was before that
      group, with all that happened beside it. */
  lemma CutOffHolds(s: Db)
    requires Inv(s) && s.group.Logged?
    ensures Inv(CutOff(s)) && NumbersHold(CutOff(s))
  {
    hide VersionHolds, LogsHold, JobHolds, TablesHold, OutputsPending, NumbersBelow, VersionOk;
    var h, n := s.history, s.lastSequence;
    LogsCut(h, n, s.logs, s.logNumber, s.logFile, s.flushed, s.switched);
    HoldsCut(h, n, s.version, s.flushed, s.horizon, s.resurrected);
    if s.commit.NoCommit? || !s.commit.written {
      HoldsCut(h, n, s.manifest.version, s.flushed, s.horizon, s.resurrected);
    }
    if s.commit.Commit? {
      HoldsCut(h, n, s.commit.record.version, s.commit.covers, s.horizon, s.resurrected);
    }
    FrontSlices(h, n, s.switched, n);
    FrontSlices(h, n, s.flushed, s.switched);
  }

  lemma HistoryStays(s: Db, s': Db, p: Plan)
    requires CrashRecover(s, s', p)
    ensures s'.history == s.history
  {
    hide LogsOnDisk, RecoveredLog, WithLevel0Files, TablesOfBlocks, MaxSequence, Replay, Flatten, ManifestCovers;
  }

  /** Recovery after a crash inside AddRecord rebuilds a store that holds every operation
      but those of the group being written. */
  lemma TornCrashKeeps(s: Db, s': Db, p: Plan, t: Tear)
    requires Inv(s) && TornCrash(s, s', p, t)
    ensures Inv(s')
    ensures s'.history == s.history[..s.lastSequence] && s'.lastSequence == s.lastSequence
  {
    hide Inv, CrashRecover;
    CutOffHolds(s);
    CrashRecoverKeeps(CutOff(s), s', p);
    HistoryStays(CutOff(s), s', p);
  }
}
