/** DBImpl::Recover and RecoverLogFile (db/db_impl.cc): replaying the logs a manifest still
    needs, flushing what does not fit, and possibly going on with the newest log. */
module Recovery {
  import opened DbFormat
  import opened Entries
  import opened Versions
  import opened Install
  import opened CompactionWork
  import opened History
  import opened Store
  import opened StoreInvariant
  import opened CrashSafety
  import opened VersionBuilder
  import opened ManifestReplay

  /** The tables written while recovering, and the slices of the logs they hold. */
  datatype Tables = Tables(files: seq<File>, next: nat, saveManifest: bool, ghost blocks: seq<seq<Entry>>)

  ghost predicate TablesOk(t: Tables, lo: nat) {
    lo <= t.next && TablesOfBlocks(t.blocks, t.files, lo, t.next) && (!t.saveManifest ==> t.files == [])
  }

  /** What is in the tables, table by table. */
  function RunsOf(files: seq<File>): seq<seq<Entry>> {
    seq(|files|, i requires 0 <= i < |files| => files[i].entries)
  }

  function NonEmpty(runs: seq<seq<Entry>>): seq<seq<Entry>> {
    if |runs| == 0 then []
    else NonEmpty(runs[..|runs| - 1]) + (if |runs[|runs| - 1]| > 0 then [runs[|runs| - 1]] else [])
  }

  /** A log read back, record by record: the memtables that filled up, and the one left. */
  datatype Cut = Cut(filled: seq<seq<Entry>>, mem: Option<seq<Entry>>) {
    function Held(): seq<Entry> {
      if mem.Some? then mem.value else []
    }

    /** With nothing kept, the memtable left is flushed too. */
    function Flushed(): seq<seq<Entry>> {
      NonEmpty(if mem.Some? then filled + [mem.value] else filled)
    }
  }

  function CutLog(records: seq<seq<Entry>>, full: seq<Entry> -> bool): (c: Cut)
    ensures c.filled == [] && c.mem.None? <==> records == []
  {
    if |records| == 0 then Cut([], None)
    else
      var c := CutLog(records[..|records| - 1], full);
      var mem := InsertAll(c.Held(), records[|records| - 1]);
      if full(mem) then Cut(c.filled + [mem], None) else Cut(c.filled, Some(mem))
  }

  lemma FirstIsIn(es: seq<Entry>)
    requires |es| > 0
    ensures EntrySet(es) != EntrySet([])
  {
    assert es[0] in EntrySet(es);
  }

  lemma NoEntries(mem: seq<Entry>, logged: seq<Entry>)
    requires mem == [] && EntrySet(mem) == EntrySet(logged)
    ensures logged == []
  {
    if |logged| > 0 { FirstIsIn(logged); assert false; }
  }

  lemma OneMoreTable(blocks: seq<seq<Entry>>, files: seq<File>, lo: nat, next: nat, block: seq<Entry>, f: File)
    requires TablesOfBlocks(blocks, files, lo, next) && lo <= next
    requires WfFile(f) && f.number == next && EntrySet(f.entries) == EntrySet(block)
    ensures TablesOfBlocks(blocks + [block], files + [f], lo, next + 1)
  {
  }

  lemma RunsOfOneMore(files: seq<File>, f: File)
    ensures RunsOf(files + [f]) == RunsOf(files) + [f.entries]
  {
  }

  /** WriteLevel0Table without a base version: the next file number, and no table for an
      empty memtable. */
  method WriteLevel0Table(mem: seq<Entry>, t: Tables, size: nat, lo: nat, ghost logged: seq<Entry>) returns (t': Tables)
    requires TablesOk(t, lo)
    requires Sorted(mem) && EntrySet(mem) == EntrySet(logged)
    ensures TablesOk(t', lo)
    ensures Flatten(t'.blocks) == Flatten(t.blocks) + logged
    ensures t'.saveManifest && t'.next == t.next + 1
    ensures RunsOf(t'.files) == RunsOf(t.files) + (if |mem| > 0 then [mem] else [])
  {
    if |mem| == 0 {
      NoEntries(mem, logged);
      t' := t.(next := t.next + 1, saveManifest := true);
    } else {
      FlattenAppend(t.blocks, logged);
      OneMoreTable(t.blocks, t.files, lo, t.next, logged, MakeFile(t.next, size, mem));
      RunsOfOneMore(t.files, MakeFile(t.next, size, mem));
      hide RunsOf, Flatten, TablesOfBlocks, Sorted, EntrySet;
      t' := Tables(t.files + [MakeFile(t.next, size, mem)], t.next + 1, true, t.blocks + [logged]);
    }
  }

  lemma {:induction false} MaxOfTwo(last: SeqNo, a: seq<Entry>, b: seq<Entry>)
    ensures MaxSequence(last, a + b) == MaxSequence(MaxSequence(last, a), b)
  {
    if |b| == 0 {
      assert a + b == a;
    } else {
      assert (a + b)[..|a + b| - 1] == a + b[..|b| - 1];
      MaxOfTwo(last, a, b[..|b| - 1]);
    }
  }

  /** In a batch the last entry has the largest sequence number. */
  lemma {:induction false} MaxOfBatch(last: SeqNo, batch: seq<Entry>)
    requires AscendingSeqnos(batch)
    ensures MaxSequence(last, batch) == if |batch| > 0 && batch[|batch| - 1].key.seqno > last then batch[|batch| - 1].key.seqno else last
  {
    if |batch| > 0 {
      MaxOfBatch(last, batch[..|batch| - 1]);
    }
  }

  lemma PartAscends(a: seq<Entry>, b: seq<Entry>, c: seq<Entry>)
    requires AscendingSeqnos(a + b + c)
    ensures AscendingSeqnos(a + b) && AscendingSeqnos(b)
    ensures forall x, y | x in a && y in b :: x.key.seqno < y.key.seqno
  {
    var all := a + b + c;
    forall i, j | 0 <= i < j < |a + b| ensures (a + b)[i].key.seqno < (a + b)[j].key.seqno {
      assert all[i] == (a + b)[i] && all[j] == (a + b)[j];
    }
    forall i, j | 0 <= i < j < |b| ensures b[i].key.seqno < b[j].key.seqno {
      assert all[|a| + i] == b[i] && all[|a| + j] == b[j];
    }
    forall x, y | x in a && y in b ensures x.key.seqno < y.key.seqno {
      var i :| 0 <= i < |a| && a[i] == x;
      var j :| 0 <= j < |b| && b[j] == y;
      assert all[i] == x && all[|a| + j] == y;
    }
  }

  /** A batch goes into the memtable behind what is there. */
  lemma InsertBatch(mem: seq<Entry>, held: seq<Entry>, batch: seq<Entry>)
    requires Sorted(mem) && EntrySet(mem) == EntrySet(held) && AscendingSeqnos(held + batch)
    ensures Sorted(InsertAll(mem, batch)) && EntrySet(InsertAll(mem, batch)) == EntrySet(held + batch)
  {
    assert held + batch + [] == held + batch;
    PartAscends(held, batch, []);
    forall x, y | x in mem && y in batch ensures x.key.seqno < y.key.seqno {
      assert x in EntrySet(mem);
    }
    InsertAllSorted(mem, batch);
    assert EntrySet(held + batch) == EntrySet(held) + EntrySet(batch);
    assert EntrySet(InsertAll(mem, batch)) == EntrySet(mem) + EntrySet(batch);
  }

  lemma {:induction false} FlattenPrefix(records: seq<seq<Entry>>, i: nat)
    requires i <= |records|
    ensures Flatten(records[..i]) <= Flatten(records)
  {
    if i < |records| {
      assert records[..|records| - 1][..i] == records[..i];
      FlattenPrefix(records[..|records| - 1], i);
    } else {
      assert records[..i] == records;
    }
  }

  lemma NextRecord(records: seq<seq<Entry>>, i: nat)
    requires i < |records| && AscendingSeqnos(Flatten(records))
    ensures Flatten(records[..i + 1]) == Flatten(records[..i]) + records[i]
    ensures AscendingSeqnos(Flatten(records[..i + 1]))
  {
    hide Flatten, AscendingSeqnos;
    assert records[..i + 1] == records[..i] + [records[i]];
    FlattenAppend(records[..i], records[i]);
    FlattenPrefix(records, i + 1);
    FrontAscends(Flatten(records), Flatten(records[..i + 1]));
  }

  lemma FrontAscends(all: seq<Entry>, front: seq<Entry>)
    requires front <= all && AscendingSeqnos(all)
    ensures AscendingSeqnos(front)
  {
    forall i, j | 0 <= i < j < |front| ensures front[i].key.seqno < front[j].key.seqno {
      assert all[i] == front[i] && all[j] == front[j];
    }
  }

  /** The state between two records: of the log so far, `gone` is in tables and `held` is
      in the memtable. */
  datatype Replayed = Replayed(mem: Option<seq<Entry>>, tables: Tables, maxSequence: SeqNo, compactions: nat, ghost gone: seq<Entry>, ghost held: seq<Entry>) {
    function Held(): seq<Entry> {
      if mem.Some? then mem.value else []
    }

    ghost predicate Valid(start: Tables, lo: nat) {
      && TablesOk(tables, lo) && (tables.saveManifest <==> start.saveManifest || compactions > 0)
      && Sorted(Held()) && EntrySet(Held()) == EntrySet(held) && (mem.None? ==> held == [])
      && Flatten(tables.blocks) == Flatten(start.blocks) + gone
      && (compactions == 0 ==> tables == start && gone == [])
    }

    /** The loop has done what `c` says. */
    ghost predicate Follows(start: Tables, c: Cut) {
      mem == c.mem && compactions == |c.filled| && RunsOf(tables.files) == RunsOf(start.files) + NonEmpty(c.filled)
    }

    ghost predicate Done(start: Tables, lo: nat, full: seq<Entry> -> bool, max: SeqNo, records: seq<seq<Entry>>) {
      && Valid(start, lo) && Follows(start, CutLog(records, full))
      && gone + held == Flatten(records) && maxSequence == MaxSequence(max, gone + held)
    }
  }

  /** WriteBatchInternal::InsertInto. */
  method InsertInto(mem: seq<Entry>, batch: seq<Entry>, ghost gone: seq<Entry>, ghost held: seq<Entry>) returns (mem': seq<Entry>)
    requires Sorted(mem) && EntrySet(mem) == EntrySet(held)
    requires AscendingSeqnos(gone + held + batch)
    ensures mem' == InsertAll(mem, batch) && Sorted(mem') && EntrySet(mem') == EntrySet(held + batch)
  {
    assert gone + held + batch == gone + (held + batch) + [];
    PartAscends(gone, held + batch, []);
    InsertBatch(mem, held, batch);
    mem' := InsertAll(mem, batch);
  }

  /** The largest sequence number after one more batch. */
  method LargerSequence(last: SeqNo, batch: seq<Entry>, ghost start: SeqNo, ghost done: seq<Entry>) returns (m: SeqNo)
    requires last == MaxSequence(start, done) && AscendingSeqnos(done + batch)
    ensures m == MaxSequence(start, done + batch)
  {
    MaxOfTwo(start, done, batch);
    assert done + batch + [] == done + batch;
    PartAscends(done, batch, []);
    MaxOfBatch(last, batch);
    m := if |batch| > 0 && batch[|batch| - 1].key.seqno > last then batch[|batch| - 1].key.seqno else last;
  }

  lemma NonEmptyNext(runs: seq<seq<Entry>>, run: seq<Entry>)
    ensures NonEmpty(runs + [run]) == NonEmpty(runs) + (if |run| > 0 then [run] else [])
  {
    assert (runs + [run])[..|runs|] == runs;
  }

  lemma FlushedIsValid(r: Replayed, tables: Tables, start: Tables, lo: nat)
    requires r.Valid(start, lo) && TablesOk(tables, lo) && tables.saveManifest
    requires Flatten(tables.blocks) == Flatten(r.tables.blocks) + r.held
    ensures Replayed(None, tables, r.maxSequence, r.compactions + 1, r.gone + r.held, []).Valid(start, lo)
  {
    hide TablesOk, Flatten;
    assert Flatten(start.blocks) + (r.gone + r.held) == Flatten(start.blocks) + r.gone + r.held;
  }

  lemma FlushedFollows(r: Replayed, tables: Tables, start: Tables, c: Cut)
    requires r.mem.Some? && r.Follows(start, c)
    requires RunsOf(tables.files) == RunsOf(r.tables.files) + (if |r.mem.value| > 0 then [r.mem.value] else [])
    ensures Replayed(None, tables, r.maxSequence, r.compactions + 1, r.gone + r.held, []).Follows(start, Cut(c.filled + [r.mem.value], None))
  {
    hide RunsOf, NonEmpty;
    NonEmptyNext(c.filled, r.mem.value);
  }

  /** The memtable becomes a table. */
  method Flush(r: Replayed, size: seq<Entry> -> nat, ghost start: Tables, lo: nat, ghost c: Cut) returns (r': Replayed)
    requires r.Valid(start, lo) && r.mem.Some? && r.Follows(start, c)
    ensures r'.Follows(start, Cut(c.filled + [r.mem.value], None))
    ensures r'.Valid(start, lo) && r'.mem.None? && r'.gone == r.gone + r.held && r'.held == []
    ensures r'.maxSequence == r.maxSequence
  {
    hide RunsOf, NonEmpty, TablesOk, Flatten, Sorted, EntrySet;
    var tables := WriteLevel0Table(r.mem.value, r.tables, size(r.mem.value), lo, r.held);
    r' := Replayed(None, tables, r.maxSequence, r.compactions + 1, r.gone + r.held, []);
    FlushedFollows(r, tables, start, c);
    FlushedIsValid(r, tables, start, lo);
  }

  /** A batch goes into the memtable, which is created for the first one. */
  method AddBatch(r: Replayed, batch: seq<Entry>, ghost start: Tables, ghost lo: nat, ghost max: SeqNo) returns (r': Replayed)
    requires r.Valid(start, lo) && r.maxSequence == MaxSequence(max, r.gone + r.held)
    requires AscendingSeqnos(r.gone + r.held + batch)
    ensures r'.Valid(start, lo) && r'.gone + r'.held == r.gone + r.held + batch
    ensures r'.mem == Some(InsertAll(r.Held(), batch)) && r'.tables == r.tables && r'.compactions == r.compactions
    ensures r'.maxSequence == MaxSequence(max, r'.gone + r'.held)
  {
    hide RunsOf, TablesOk, Flatten, Sorted, EntrySet, AscendingSeqnos, MaxSequence, InsertAll;
    var m := LargerSequence(r.maxSequence, batch, max, r.gone + r.held);
    var mem := InsertInto(r.Held(), batch, r.gone, r.held);
    assert r.gone + (r.held + batch) == r.gone + r.held + batch;
    r' := Replayed(Some(mem), r.tables, m, r.compactions, r.gone, r.held + batch);
  }

  /** One record of a log. */
  method ReplayRecord(r: Replayed, batch: seq<Entry>, full: seq<Entry> -> bool, size: seq<Entry> -> nat, ghost start: Tables, lo: nat, ghost max: SeqNo,
                      ghost records: seq<seq<Entry>>)
    returns (r': Replayed)
    requires r.Done(start, lo, full, max, records)
    requires Flatten(records + [batch]) == Flatten(records) + batch && AscendingSeqnos(Flatten(records + [batch]))
    ensures r'.Done(start, lo, full, max, records + [batch])
  {
    hide AscendingSeqnos, MaxSequence, NonEmpty, RunsOf, TablesOk, Sorted, EntrySet, Flatten;
    ghost var c := CutLog(records, full);
    assert (records + [batch])[..|records|] == records;
    r' := AddBatch(r, batch, start, lo, max);
    if full(r'.mem.value) {
      ghost var done := r'.gone + r'.held;
      r' := Flush(r', size, start, lo, Cut(c.filled, r'.mem));
      assert r'.gone + r'.held == done;
    }
  }

  lemma NothingDone(t: Tables, lo: nat, full: seq<Entry> -> bool, max: SeqNo)
    requires TablesOk(t, lo)
    ensures Replayed(None, t, max, 0, [], []).Done(t, lo, full, max, [])
  {
    assert Flatten(t.blocks) + [] == Flatten(t.blocks);
  }

  /** The loop of RecoverLogFile over the records. */
  method ReplayRecords(records: seq<seq<Entry>>, full: seq<Entry> -> bool, size: seq<Entry> -> nat, t: Tables, lo: nat, maxSequence: SeqNo) returns (r: Replayed)
    requires TablesOk(t, lo) && AscendingSeqnos(Flatten(records))
    ensures r.Done(t, lo, full, maxSequence, records)
  {
    hide *;
    r := Replayed(None, t, maxSequence, 0, [], []);
    NothingDone(t, lo, full, maxSequence);
    assert records[..0] == [];
    for i := 0 to |records|
      invariant r.Done(t, lo, full, maxSequence, records[..i])
    {
      NextRecord(records, i);
      assert records[..i + 1] == records[..i] + [records[i]];
      r := ReplayRecord(r, records[i], full, size, t, lo, maxSequence, records[..i]);
    }
    assert records[..|records|] == records;
  }

  /** RecoverLogFile.  `kept` is the memtable with which the log stays in use: that of the
      last log, if it is to be reused and filled no memtable.  Any other log with a record in
      it calls for a new manifest, even if the record is empty and no table is written. */
  method RecoverLogFile(records: seq<seq<Entry>>, lastLog: bool, reuseLogs: bool, full: seq<Entry> -> bool, size: seq<Entry> -> nat,
                        t: Tables, lo: nat, maxSequence: SeqNo)
    returns (t': Tables, maxSequence': SeqNo, kept: Option<seq<Entry>>)
    requires TablesOk(t, lo) && AscendingSeqnos(Flatten(records))
    ensures TablesOk(t', lo)
    ensures kept.Some? <==> lastLog && reuseLogs && CutLog(records, full).filled == []
    ensures kept.Some? ==> kept.value == CutLog(records, full).Held()
    ensures t'.saveManifest <==> t.saveManifest || (kept.None? && records != [])
    ensures RunsOf(t'.files) == RunsOf(t.files) + (if kept.Some? then [] else CutLog(records, full).Flushed())
    ensures maxSequence' == MaxSequence(maxSequence, Flatten(records))
    ensures kept.Some? ==> t' == t && Sorted(kept.value) && EntrySet(kept.value) == EntrySet(Flatten(records))
    ensures kept.None? ==> Flatten(t'.blocks) == Flatten(t.blocks) + Flatten(records)
  {
    var r := ReplayRecords(records, full, size, t, lo, maxSequence);
    assert r.maxSequence == MaxSequence(maxSequence, Flatten(records));
    hide CutLog, TablesOk, Sorted, EntrySet, NonEmpty, RunsOf, Flatten, AscendingSeqnos, MaxSequence;
    maxSequence', kept := r.maxSequence, None;
    if reuseLogs && lastLog && r.compactions == 0 {
      assert r.gone + r.held == r.held;
      kept := Some(r.Held());
    } else if r.mem.Some? {
      ghost var done := r.gone + r.held;
      r := Flush(r, size, t, lo, CutLog(records, full));
      assert r.gone == done;
    } else {
      assert r.gone + [] == r.gone;
    }
    t' := r.tables;
  }

  // ---- all logs ----

  predicate StrictlyAscending(ns: seq<nat>) {
    forall i, j | 0 <= i < j < |ns| :: ns[i] < ns[j]
  }

  /** The logs not older than the one the manifest names, in the order they were made. */
  method LogsToRecover(logs: set<nat>, minLog: nat) returns (ns: seq<nat>)
    ensures StrictlyAscending(ns)
    ensures forall n :: n in ns <==> n in logs && n >= minLog
  {
    ns := [];
    var rest := logs;
    while rest != {}
      invariant rest <= logs && StrictlyAscending(ns)
      invariant forall n :: n in ns <==> n in logs && n !in rest && n >= minLog
    {
      var n :| n in rest;
      rest := rest - {n};
      if n >= minLog {
        var i := 0;
        while i < |ns| && ns[i] < n
          invariant i <= |ns| && forall j | 0 <= j < i :: ns[j] < n
        {
          i := i + 1;
        }
        assert n !in ns;
        assert forall k :: k in ns <==> k in ns[..i] || k in ns[i..];
        ns := ns[..i] + [n] + ns[i..];
      }
    }
  }

  lemma LogAscends(logs: map<nat, seq<seq<Entry>>>, lo: nat, n: nat, hi: nat)
    requires lo <= n < hi && AscendingSeqnos(Replay(logs, lo, hi))
    ensures AscendingSeqnos(Contents(logs, n))
  {
    ReplaySplits(logs, lo, n + 1, hi);
    assert Replay(logs, lo, n + 1) == Replay(logs, lo, n) + Contents(logs, n);
    PartAscends(Replay(logs, lo, n), Contents(logs, n), Replay(logs, n + 1, hi));
  }

  /** Numbers without a log contribute nothing to a replay. */
  lemma ReplayUpToNext(logs: map<nat, seq<seq<Entry>>>, lo: nat, done: nat, n: nat)
    requires lo <= done <= n && n in logs && forall k | done <= k < n :: k !in logs
    ensures Replay(logs, lo, n + 1) == Replay(logs, lo, done) + Flatten(logs[n])
    ensures Replay(logs, lo, n) == Replay(logs, lo, done)
  {
    ReplayQuietTail(logs, lo, done, n);
  }

  /** How far the first `i` logs reach. */
  function DoneTo(ns: seq<nat>, lo: nat, i: nat): nat
    requires i <= |ns|
  {
    if i == 0 then lo else ns[i - 1] + 1
  }

  lemma NoLogBetween(logs: map<nat, seq<seq<Entry>>>, ns: seq<nat>, lo: nat, i: nat)
    requires StrictlyAscending(ns) && i < |ns|
    requires forall n :: n in ns <==> n in logs && n >= lo
    ensures lo <= DoneTo(ns, lo, i) <= ns[i] && ns[i] in logs
    ensures forall k | DoneTo(ns, lo, i) <= k < ns[i] :: k !in logs
  {
    assert ns[i] in ns;
    if i > 0 { assert ns[i - 1] in ns; }
    forall j | 0 <= j < |ns| ensures ns[j] < DoneTo(ns, lo, i) || ns[i] <= ns[j] {
      if j < i - 1 { assert ns[j] < ns[i - 1]; }
    }
    assert forall k | DoneTo(ns, lo, i) <= k < ns[i] :: k !in ns;
  }

  /** MarkFileNumberUsed. */
  function MarkUsed(t: Tables, n: nat): (r: Tables)
    ensures r == t.(next := r.next) && r.next > n && r.next >= t.next
  {
    if t.next <= n then t.(next := n + 1) else t
  }

  /** What is known after the logs below `done`; `kept` belongs to log `last`. */
  ghost predicate LogsReplayed(logs: map<nat, seq<seq<Entry>>>, minLog: nat, done: nat, t: Tables, first: nat, max0: SeqNo, max: SeqNo, kept: Option<seq<Entry>>, last: nat) {
    && TablesOk(t, first)
    && max == MaxSequence(max0, Replay(logs, minLog, done))
    && if kept.None? then Flatten(t.blocks) == Replay(logs, minLog, done)
       else Flatten(t.blocks) == Replay(logs, minLog, last) && Sorted(kept.value) && EntrySet(kept.value) == EntrySet(Contents(logs, last))
  }

  /** The logs to recover, in order, with nothing left out. */
  ghost predicate InOrder(logs: map<nat, seq<seq<Entry>>>, minLog: nat, ns: seq<nat>, top: nat) {
    && StrictlyAscending(ns) && (forall n :: n in ns <==> n in logs && n >= minLog)
    && |ns| > 0 && ns[|ns| - 1] == top
  }

  lemma NotBehindTheLast(ns: seq<nat>, i: nat)
    requires StrictlyAscending(ns) && i < |ns|
    ensures ns[i] <= ns[|ns| - 1]
  {
  }

  lemma NextLogIs(logs: map<nat, seq<seq<Entry>>>, minLog: nat, ns: seq<nat>, top: nat, i: nat)
    requires InOrder(logs, minLog, ns, top) && i < |ns| && AscendingSeqnos(Replay(logs, minLog, top + 1))
    ensures ns[i] in logs && AscendingSeqnos(Flatten(logs[ns[i]])) && (i == |ns| - 1 ==> ns[i] == top)
    ensures Replay(logs, minLog, ns[i]) == Replay(logs, minLog, DoneTo(ns, minLog, i))
    ensures Replay(logs, minLog, DoneTo(ns, minLog, i + 1)) == Replay(logs, minLog, DoneTo(ns, minLog, i)) + Flatten(logs[ns[i]])
  {
    hide StrictlyAscending, Replay, Flatten, AscendingSeqnos;
    NoLogBetween(logs, ns, minLog, i);
    NotBehindTheLast(ns, i);
    LogAscends(logs, minLog, ns[i], top + 1);
    ReplayUpToNext(logs, minLog, DoneTo(ns, minLog, i), ns[i]);
  }

  // ---- what is written while recovering ----

  function LogTables(logs: map<nat, seq<seq<Entry>>>, n: nat, full: seq<Entry> -> bool): seq<seq<Entry>> {
    if n in logs then CutLog(logs[n], full).Flushed() else []
  }

  /** The tables of the logs numbered lo to hi - 1. */
  function TablesOfLogs(logs: map<nat, seq<seq<Entry>>>, lo: nat, hi: nat, full: seq<Entry> -> bool): seq<seq<Entry>> {
    if hi <= lo then [] else TablesOfLogs(logs, lo, hi - 1, full) + LogTables(logs, hi - 1, full)
  }

  /** Some log that is not kept has a record. */
  predicate CallsForManifest(logs: map<nat, seq<seq<Entry>>>, minLog: nat, done: nat, kept: bool, last: nat) {
    exists n | n in logs :: minLog <= n < done && logs[n] != [] && !(kept && n == last)
  }

  /** The tables written for the logs below `done`, and whether they call for a new manifest. */
  predicate Written(logs: map<nat, seq<seq<Entry>>>, minLog: nat, done: nat, full: seq<Entry> -> bool, saveManifest: bool, t: Tables, kept: bool, last: nat) {
    && (t.saveManifest <==> saveManifest || CallsForManifest(logs, minLog, done, kept, last))
    && RunsOf(t.files) == TablesOfLogs(logs, minLog, if kept then last else done, full)
  }

  lemma {:induction false} NoTablesBetween(logs: map<nat, seq<seq<Entry>>>, lo: nat, done: nat, n: nat, full: seq<Entry> -> bool)
    requires lo <= done <= n && forall k | done <= k < n :: k !in logs
    ensures TablesOfLogs(logs, lo, n, full) == TablesOfLogs(logs, lo, done, full)
  {
    if done < n { NoTablesBetween(logs, lo, done, n - 1, full); }
  }

  /** One log more. */
  lemma WrittenNext(logs: map<nat, seq<seq<Entry>>>, minLog: nat, done: nat, n: nat, full: seq<Entry> -> bool, saveManifest: bool, t: Tables, t': Tables, kept: bool, last: nat)
    requires Written(logs, minLog, done, full, saveManifest, t, false, last)
    requires minLog <= done <= n && n in logs && (forall k | done <= k < n :: k !in logs) && (kept ==> n == last)
    requires t'.saveManifest <==> t.saveManifest || (!kept && logs[n] != [])
    requires RunsOf(t'.files) == RunsOf(t.files) + (if kept then [] else CutLog(logs[n], full).Flushed())
    ensures Written(logs, minLog, n + 1, full, saveManifest, t', kept, last)
  {
    hide CutLog, RunsOf;
    NoTablesBetween(logs, minLog, done, n, full);
    if CallsForManifest(logs, minLog, done, false, last) {
      var k :| k in logs && minLog <= k < done && logs[k] != [];
      assert CallsForManifest(logs, minLog, n + 1, kept, last);
    }
  }

  lemma NothingWritten(logs: map<nat, seq<seq<Entry>>>, minLog: nat, first: nat, full: seq<Entry> -> bool, saveManifest: bool, last: nat)
    ensures Written(logs, minLog, minLog, full, saveManifest, Tables([], first, saveManifest, []), false, last)
  {
  }

  /** The newest log stays in use if that is asked for and its records fill no memtable. */
  predicate LastKept(logs: map<nat, seq<seq<Entry>>>, top: nat, reuseLogs: bool, full: seq<Entry> -> bool, kept: Option<seq<Entry>>)
    requires top in logs
  {
    && (kept.Some? <==> reuseLogs && CutLog(logs[top], full).filled == [])
    && (kept.Some? ==> kept.value == CutLog(logs[top], full).Held())
  }

  /** With the newest log given up although it should be reused, there is a new manifest. */
  lemma KeptOrSaved(logs: map<nat, seq<seq<Entry>>>, minLog: nat, top: nat, reuseLogs: bool, full: seq<Entry> -> bool, saveManifest: bool, t: Tables, kept: Option<seq<Entry>>)
    requires top in logs && minLog <= top && LastKept(logs, top, reuseLogs, full, kept)
    requires Written(logs, minLog, top + 1, full, saveManifest, t, kept.Some?, top)
    ensures reuseLogs && kept.None? ==> t.saveManifest
  {
  }

  lemma ListedLog(logs: map<nat, seq<seq<Entry>>>, minLog: nat, ns: seq<nat>, top: nat, i: nat)
    requires InOrder(logs, minLog, ns, top) && i < |ns|
    ensures minLog <= DoneTo(ns, minLog, i) <= ns[i] && ns[i] in logs && DoneTo(ns, minLog, i + 1) == ns[i] + 1
    ensures forall k | DoneTo(ns, minLog, i) <= k < ns[i] :: k !in logs
    ensures i == |ns| - 1 ==> ns[i] == top
  {
    NoLogBetween(logs, ns, minLog, i);
  }

  /** What is known after one log more. */
  lemma ReplayedNext(logs: map<nat, seq<seq<Entry>>>, minLog: nat, done: nat, n: nat, t: Tables, t': Tables, first: nat, max0: SeqNo, max: SeqNo, max': SeqNo, kept: Option<seq<Entry>>, last: nat)
    requires LogsReplayed(logs, minLog, done, t, first, max0, max, None, last) && n in logs && (kept.Some? ==> n == last)
    requires Replay(logs, minLog, n) == Replay(logs, minLog, done)
    requires Replay(logs, minLog, n + 1) == Replay(logs, minLog, done) + Flatten(logs[n])
    requires TablesOk(t', first) && max' == MaxSequence(max, Flatten(logs[n]))
    requires kept.Some? ==> t'.blocks == t.blocks && Sorted(kept.value) && EntrySet(kept.value) == EntrySet(Flatten(logs[n]))
    requires kept.None? ==> Flatten(t'.blocks) == Flatten(t.blocks) + Flatten(logs[n])
    ensures LogsReplayed(logs, minLog, n + 1, t', first, max0, max', kept, last)
  {
    hide Replay, Flatten, MaxSequence, TablesOk, Sorted, EntrySet;
    MaxOfTwo(max0, Replay(logs, minLog, done), Flatten(logs[n]));
  }

  lemma ReplayedIsOk(logs: map<nat, seq<seq<Entry>>>, minLog: nat, done: nat, t: Tables, first: nat, max0: SeqNo, max: SeqNo, kept: Option<seq<Entry>>, last: nat)
    requires LogsReplayed(logs, minLog, done, t, first, max0, max, kept, last)
    ensures TablesOk(t, first)
  {
  }

  lemma IsLastKept(logs: map<nat, seq<seq<Entry>>>, top: nat, reuseLogs: bool, full: seq<Entry> -> bool, kept: Option<seq<Entry>>)
    requires top in logs && (kept.Some? <==> reuseLogs && CutLog(logs[top], full).filled == [])
    requires kept.Some? ==> kept.value == CutLog(logs[top], full).Held()
    ensures LastKept(logs, top, reuseLogs, full, kept)
  {
  }

  lemma MarkedIsOk(t: Tables, n: nat, first: nat)
    requires TablesOk(t, first)
    ensures TablesOk(MarkUsed(t, n), first)
  {
  }

  /** One log of those to recover. */
  method RecoverNextLog(logs: map<nat, seq<seq<Entry>>>, ns: seq<nat>, i: nat, reuseLogs: bool, full: seq<Entry> -> bool, size: seq<Entry> -> nat,
                        t: Tables, first: nat, max: SeqNo, ghost minLog: nat, ghost top: nat, ghost max0: SeqNo, ghost saveManifest: bool)
    returns (t': Tables, max': SeqNo, kept: Option<seq<Entry>>)
    requires InOrder(logs, minLog, ns, top) && i < |ns| && AscendingSeqnos(Replay(logs, minLog, top + 1))
    requires LogsReplayed(logs, minLog, DoneTo(ns, minLog, i), t, first, max0, max, None, top)
    requires Written(logs, minLog, DoneTo(ns, minLog, i), full, saveManifest, t, false, top)
    ensures LogsReplayed(logs, minLog, DoneTo(ns, minLog, i + 1), t', first, max0, max', kept, top)
    ensures Written(logs, minLog, DoneTo(ns, minLog, i + 1), full, saveManifest, t', kept.Some?, top)
    ensures DoneTo(ns, minLog, i + 1) <= t'.next
    ensures i < |ns| - 1 ==> kept.None?
    ensures i == |ns| - 1 ==> top in logs && LastKept(logs, top, reuseLogs, full, kept)
  {
    hide *;
    NextLogIs(logs, minLog, ns, top, i);
    ListedLog(logs, minLog, ns, top, i);
    ghost var done := DoneTo(ns, minLog, i);
    ReplayedIsOk(logs, minLog, done, t, first, max0, max, None, top);
    t', max', kept := RecoverLogFile(logs[ns[i]], i == |ns| - 1, reuseLogs, full, size, t, first, max);
    MarkedIsOk(t', ns[i], first);
    t' := MarkUsed(t', ns[i]);
    WrittenNext(logs, minLog, done, ns[i], full, saveManifest, t, t', kept.Some?, top);
    ReplayedNext(logs, minLog, done, ns[i], t, t', first, max0, max, max', kept, top);
    if i == |ns| - 1 { IsLastKept(logs, top, reuseLogs, full, kept); }
  }

  lemma LastIsLargest(ns: seq<nat>, top: nat)
    requires StrictlyAscending(ns) && top in ns && forall n | n in ns :: n <= top
    ensures |ns| > 0 && ns[|ns| - 1] == top
  {
    var j :| 0 <= j < |ns| && ns[j] == top;
    assert ns[|ns| - 1] in ns;
  }

  lemma NothingReplayed(logs: map<nat, seq<seq<Entry>>>, minLog: nat, first: nat, saveManifest: bool, max0: SeqNo, top: nat)
    ensures LogsReplayed(logs, minLog, minLog, Tables([], first, saveManifest, []), first, max0, max0, None, top)
  {
  }

  lemma OrderEnds(logs: map<nat, seq<seq<Entry>>>, minLog: nat, ns: seq<nat>, top: nat)
    requires InOrder(logs, minLog, ns, top)
    ensures |ns| > 0 && DoneTo(ns, minLog, 0) == minLog && DoneTo(ns, minLog, |ns|) == top + 1
  {
  }

  /** The loop of DBImpl::Recover over the logs. */
  method RecoverInOrder(logs: map<nat, seq<seq<Entry>>>, ns: seq<nat>, reuseLogs: bool, full: seq<Entry> -> bool, size: seq<Entry> -> nat, first: nat, saveManifest: bool, max0: SeqNo,
                        ghost minLog: nat, ghost top: nat)
    returns (t: Tables, max: SeqNo, kept: Option<seq<Entry>>)
    requires InOrder(logs, minLog, ns, top) && minLog <= first && AscendingSeqnos(Replay(logs, minLog, top + 1))
    ensures top < t.next && top in logs && LastKept(logs, top, reuseLogs, full, kept)
    ensures LogsReplayed(logs, minLog, top + 1, t, first, max0, max, kept, top)
    ensures Written(logs, minLog, top + 1, full, saveManifest, t, kept.Some?, top)
  {
    hide *;
    OrderEnds(logs, minLog, ns, top);
    NothingReplayed(logs, minLog, first, saveManifest, max0, top);
    NothingWritten(logs, minLog, first, full, saveManifest, top);
    t, max, kept := Tables([], first, saveManifest, []), max0, None;
    for i := 0 to |ns|
      invariant DoneTo(ns, minLog, i) <= t.next
      invariant i < |ns| ==> kept == None
      invariant i == |ns| ==> top in logs && LastKept(logs, top, reuseLogs, full, kept)
      invariant Written(logs, minLog, DoneTo(ns, minLog, i), full, saveManifest, t, kept.Some?, top)
      invariant LogsReplayed(logs, minLog, DoneTo(ns, minLog, i), t, first, max0, max, kept, top)
    {
      t, max, kept := RecoverNextLog(logs, ns, i, reuseLogs, full, size, t, first, max, minLog, top, max0, saveManifest);
    }
  }

  /** DBImpl::Recover from the list of the log files on. */
  method RecoverLogs(logs: map<nat, seq<seq<Entry>>>, ghost top: nat, minLog: nat, reuseLogs: bool, full: seq<Entry> -> bool, size: seq<Entry> -> nat, first: nat, saveManifest: bool, max0: SeqNo)
    returns (t: Tables, max: SeqNo, kept: Option<seq<Entry>>, last: nat)
    requires top in logs && minLog <= top && minLog <= first && forall n | n in logs :: n <= top
    requires AscendingSeqnos(Replay(logs, minLog, top + 1))
    ensures last == top < t.next && LastKept(logs, top, reuseLogs, full, kept)
    ensures LogsReplayed(logs, minLog, top + 1, t, first, max0, max, kept, top)
    ensures Written(logs, minLog, top + 1, full, saveManifest, t, kept.Some?, top)
  {
    var ns := LogsToRecover(logs.Keys, minLog);
    LastIsLargest(ns, top);
    last := ns[|ns| - 1];
    t, max, kept := RecoverInOrder(logs, ns, reuseLogs, full, size, first, saveManifest, max0, minLog, top);
  }

  lemma {:induction false} MaxFromZero(last: SeqNo, es: seq<Entry>)
    ensures MaxSequence(last, es) == if last < MaxSequence(0, es) then MaxSequence(0, es) else last
  {
    if |es| > 0 { MaxFromZero(last, es[..|es| - 1]); }
  }
}
