/** The whole store as a state machine (db/db_impl.cc, db/version_set.cc): every step
    the source takes between two points where the mutex may be dropped, including a
    crash at any point followed by recovery.  `history`, `flushed`, `switched`,
    `horizon` and `resurrected` are history variables; no step looks at them. */
module Store {
  import opened DbFormat
  import opened Entries
  import opened Versions
  import opened FileSearch
  import opened CompactionInputs
  import opened DropRules
  import opened CompactionWork
  import opened Install
  import opened Lookup
  import opened History

  datatype Op = Op(user: UserKey, vtype: ValueType, value: Bytes)

  /** What the manifest on disk says: the result of its last record. */
  datatype Manifest = Manifest(version: Levels, logNumber: nat, nextFile: nat, lastSequence: SeqNo)

  /** A compaction in progress, with the numbers of the outputs it has opened. */
  datatype Job = Job(c: Compaction, base: Levels, smallest: SeqNo, outputs: seq<nat>)

  /** The write group of the front writer: nothing, in the log, or in the memtable too. */
  datatype Group = Idle | Logged(entries: seq<Entry>) | Inserted(entries: seq<Entry>)

  /** A call of LogAndApply: the mutex is free while the record is written. */
  datatype Commit = NoCommit | Commit(ofFlush: bool, record: Manifest, covers: nat, written: bool)

  datatype Db = Db(
    maxOverlapBytes: nat,
    mem: seq<Entry>, imm: Option<seq<Entry>>, version: Levels,
    lastSequence: SeqNo, nextFile: nat, logNumber: nat, logFile: nat,
    group: Group, flush: Option<nat>, commit: Commit, job: Option<Job>,
    snapshots: seq<SeqNo>, pending: set<nat>, pinned: seq<Levels>,
    manifest: Manifest, logs: map<nat, seq<seq<Entry>>>, tables: set<nat>,
    history: seq<Entry>, flushed: nat, switched: nat, horizon: SeqNo, resurrected: set<UserKey>)

  // ---- memtable ----

  /** Inserting into the sorted memtable (the skip list). */
  function InsertEntry(es: seq<Entry>, e: Entry): (r: seq<Entry>)
    ensures forall x :: x in r <==> x in es || x == e
    ensures Sorted(es) && (forall x | x in es :: x.key != e.key) ==> Sorted(r)
  {
    if |es| == 0 then [e]
    else if Before(e.key, es[0].key) then [e] + es
    else
      var rest := InsertEntry(es[1..], e);
      assert es == [es[0]] + es[1..];
      assert forall j | 0 <= j < |rest| :: rest[j] in rest;
      [es[0]] + rest
  }

  function InsertAll(es: seq<Entry>, more: seq<Entry>): (r: seq<Entry>)
    ensures forall x :: x in r <==> x in es || x in more
  {
    if |more| == 0 then es
    else
      var n := |more| - 1;
      assert more == more[..n] + [more[n]];
      InsertEntry(InsertAll(es, more[..n]), more[n])
  }

  lemma {:induction false} InsertAllSorted(es: seq<Entry>, more: seq<Entry>)
    requires Sorted(es) && AscendingSeqnos(more)
    requires forall x, y | x in es && y in more :: x.key.seqno < y.key.seqno
    ensures Sorted(InsertAll(es, more))
  {
    if |more| > 0 {
      var n := |more| - 1;
      InsertAllSorted(es, more[..n]);
      forall x | x in InsertAll(es, more[..n]) ensures x.key.seqno < more[n].key.seqno {
        if x in more[..n] {
          var i :| 0 <= i < n && more[..n][i] == x;
          assert more[i] == x;
        }
      }
    }
  }

  /** The entries of a batch, numbered from last + 1 (WriteBatchInternal::InsertInto). */
  function Numbered(ops: seq<Op>, last: nat): (r: seq<Entry>)
    requires last + |ops| <= MAX_SEQUENCE
    ensures |r| == |ops|
    ensures forall i | 0 <= i < |r| :: r[i] == Entry(InternalKey(ops[i].user, last + i + 1, ops[i].vtype), ops[i].value)
  {
    seq(|ops|, i requires 0 <= i < |ops| => Entry(InternalKey(ops[i].user, last + i + 1, ops[i].vtype), ops[i].value))
  }

  // ---- logs ----

  function Contents(logs: map<nat, seq<seq<Entry>>>, n: nat): seq<Entry> {
    if n in logs then Flatten(logs[n]) else []
  }

  /** All entries in the logs numbered lo to hi - 1, oldest log first. */
  function Replay(logs: map<nat, seq<seq<Entry>>>, lo: nat, hi: nat): seq<Entry> {
    if hi <= lo then [] else Replay(logs, lo, hi - 1) + Contents(logs, hi - 1)
  }

  lemma ReplayNext(logs: map<nat, seq<seq<Entry>>>, lo: nat, n: nat)
    requires lo <= n
    ensures Replay(logs, lo, n + 1) == Replay(logs, lo, n) + Contents(logs, n)
  {
  }

  function FileNumbers(v: Levels): set<nat> {
    set l, f | 0 <= l < NUM_LEVELS && f in v[l] :: f.number
  }

  // ---- steps ----

  ghost predicate LogGroup(s: Db, s': Db, ops: seq<Op>) {
    && s.group.Idle? && s.logFile in s.logs
    && s.lastSequence + |ops| < MAX_SEQUENCE
    && var es := Numbered(ops, s.lastSequence);
       s' == s.(group := Logged(es), logs := s.logs[s.logFile := s.logs[s.logFile] + [es]], history := s.history + es)
  }

  ghost predicate InsertGroup(s: Db, s': Db) {
    s.group.Logged? && s' == s.(group := Inserted(s.group.entries), mem := InsertAll(s.mem, s.group.entries))
  }

  ghost predicate PublishGroup(s: Db, s': Db) {
    && s.group.Inserted? && s.lastSequence + |s.group.entries| <= MAX_SEQUENCE
    && s' == s.(group := Idle, lastSequence := s.lastSequence + |s.group.entries|)
  }

  /** MakeRoomForWrite: a new log and an empty memtable. */
  ghost predicate SwitchMemTable(s: Db, s': Db) {
    && s.group.Idle? && s.imm.None?
    && s' == s.(imm := Some(s.mem), mem := [], logFile := s.nextFile, logs := s.logs[s.nextFile := []],
                nextFile := s.nextFile + 1, switched := |s.history|)
  }

  ghost predicate StartFlush(s: Db, s': Db) {
    && s.imm.Some? && s.flush.None? && s.commit.NoCommit?
    && s' == s.(flush := Some(s.nextFile), pending := s.pending + {s.nextFile}, nextFile := s.nextFile + 1)
  }

  /** The version after a flush: one more file, at the level picked for it; an empty
      memtable adds none. */
  ghost predicate FlushedVersion(v: Levels, v': Levels, number: nat, es: seq<Entry>, level: nat, size: nat, maxBytes: nat) {
    if |es| == 0 then v' == v
    else Sorted(es) && FlushLevelOk(v, level, MakeFile(number, size, es), maxBytes) && WithFile(v, v', level, MakeFile(number, size, es))
  }

  ghost predicate CommitFlush(s: Db, s': Db, v': Levels, level: nat, size: nat) {
    && s.flush.Some? && s.imm.Some? && s.commit.NoCommit?
    && FlushedVersion(s.version, v', s.flush.value, s.imm.value, level, size, s.maxOverlapBytes)
    && s' == s.(flush := None, pending := s.pending - {s.flush.value}, tables := s.tables + {s.flush.value},
                commit := Commit(true, Manifest(v', s.logFile, s.nextFile, s.lastSequence), s.switched, false))
  }

  ghost predicate WriteRecord(s: Db, s': Db) {
    && s.commit.Commit? && !s.commit.written
    && s' == s.(manifest := s.commit.record, commit := s.commit.(written := true))
  }

  /** A finished compaction gives its output numbers back (CleanupCompaction). */
  function PendingAfter(pending: set<nat>, job: Option<Job>, ofFlush: bool): set<nat> {
    if ofFlush || job.None? then pending else pending - (set n | n in job.value.outputs)
  }

  ghost predicate InstallVersion(s: Db, s': Db) {
    && s.commit.Commit? && s.commit.written
    && s' == s.(version := s.commit.record.version, logNumber := s.commit.record.logNumber, flushed := s.commit.covers, commit := NoCommit,
                imm := if s.commit.ofFlush then None else s.imm,
                pending := PendingAfter(s.pending, s.job, s.commit.ofFlush),
                job := if s.commit.ofFlush then s.job else None)
  }

  function OldestSnapshot(s: Db): SeqNo {
    if |s.snapshots| == 0 then s.lastSequence else s.snapshots[0]
  }

  ghost predicate StartCompaction(s: Db, s': Db, c: Compaction) {
    && s.job.None? && s.flush.None? && s.commit.NoCommit?
    && Selected(s.version, c) && NoHarmfulGap(s.version, c, s.maxOverlapBytes)
    && s' == s.(job := Some(Job(c, s.version, OldestSnapshot(s), [])))
  }

  ghost predicate OpenOutput(s: Db, s': Db) {
    && s.job.Some? && s.commit.NoCommit?
    && s' == s.(job := Some(s.job.value.(outputs := s.job.value.outputs + [s.nextFile])),
                pending := s.pending + {s.nextFile}, tables := s.tables + {s.nextFile}, nextFile := s.nextFile + 1)
  }

  /** The tables a finished compaction hands over: the kept entries in order, cut into
      one non-empty run per output number. */
  ghost predicate MergeOutputs(job: Job, es: seq<Entry>, runs: seq<seq<Entry>>, outs: seq<File>) {
    && Sorted(es) && EntrySet(es) == InputEntries(job.c)
    && Flatten(runs) == Kept(es, |es|, Rules(job.base, job.c.level, job.smallest))
    && |runs| == |outs| == |job.outputs|
    && forall i | 0 <= i < |outs| ::
         |runs[i]| > 0 && Sorted(runs[i]) && outs[i] == MakeFile(job.outputs[i], outs[i].size, runs[i])
  }

  /** The operations no table holds yet. */
  function Unflushed(s: Db): seq<Entry> {
    if s.flushed <= |s.history| then s.history[s.flushed..] else []
  }

  function JobRules(job: Job): Rules {
    Rules(job.base, job.c.level, job.smallest)
  }

  /** Everything the store holds that a compaction does not take in. */
  ghost function BesideInputs(unflushed: seq<Entry>, v: Levels, c: Compaction): set<Entry> {
    EntrySet(unflushed) + (LevelsEntries(v) - InputEntries(c))
  }

  /** The keys above whose old value the merge drops a deletion. */
  ghost function Resurrected(rest: set<Entry>, es: seq<Entry>, r: Rules): set<UserKey> {
    set i | 0 <= i < |es| && SomethingResurrects(rest, es, r, es[i].key.user) :: es[i].key.user
  }

  /** The lower inputs complete their last user key. */
  predicate ClosedBelow(v: Levels, c: Compaction)
    requires c.level + 1 < NUM_LEVELS
  {
    |c.inputs1| > 0 ==> RightClosed(v[c.level + 1], c.inputs1)
  }

  ghost predicate CommitMerge(s: Db, s': Db, v': Levels, es: seq<Entry>, runs: seq<seq<Entry>>, outs: seq<File>) {
    && s.job.Some? && s.flush.None? && s.commit.NoCommit?
    && s.job.value.c.level + 1 < NUM_LEVELS
    && MergeOutputs(s.job.value, es, runs, outs)
    && Replaced(s.version, v', s.job.value.c, outs)
    && s' == s.(commit := Commit(false, Manifest(v', s.logNumber, s.nextFile, s.lastSequence), s.flushed, false),
                horizon := s.job.value.smallest,
                resurrected := s.resurrected + Resurrected(BesideInputs(Unflushed(s), s.version, s.job.value.c), es, JobRules(s.job.value)))
  }

  /** A trivial move: one file, nothing below it, no outputs. */
  ghost predicate CommitMove(s: Db, s': Db, v': Levels) {
    && s.job.Some? && s.flush.None? && s.commit.NoCommit?
    && s.job.value.c.level + 1 < NUM_LEVELS
    && |s.job.value.c.inputs0| == 1 && s.job.value.c.inputs1 == [] && s.job.value.outputs == []
    && Replaced(s.version, v', s.job.value.c, s.job.value.c.inputs0)
    && s' == s.(commit := Commit(false, Manifest(v', s.logNumber, s.nextFile, s.lastSequence), s.flushed, false))
  }

  /** Every table of a version somebody may still read. */
  ghost function LiveTables(s: Db): set<nat> {
    FileNumbers(s.version)
    + (set v, n | v in s.pinned && n in FileNumbers(v) :: n)
    + (if s.job.Some? then FileNumbers(s.job.value.base) else {})
  }

  /** DeleteObsoleteFiles. */
  ghost predicate CollectGarbage(s: Db, s': Db) {
    && s.flush.None? && s.commit.NoCommit?
    && s' == s.(tables := s.tables * (s.pending + LiveTables(s)),
                logs := map n | n in s.logs && n >= s.logNumber :: s.logs[n])
  }

  ghost predicate TakeSnapshot(s: Db, s': Db) {
    s' == s.(snapshots := s.snapshots + [s.lastSequence])
  }

  ghost predicate ReleaseSnapshot(s: Db, s': Db, i: nat) {
    i < |s.snapshots| && s' == s.(snapshots := s.snapshots[..i] + s.snapshots[i + 1..])
  }

  ghost predicate PinVersion(s: Db, s': Db) {
    s' == s.(pinned := s.pinned + [s.version])
  }

  ghost predicate UnpinVersion(s: Db, s': Db, i: nat) {
    i < |s.pinned| && s' == s.(pinned := s.pinned[..i] + s.pinned[i + 1..])
  }
}
