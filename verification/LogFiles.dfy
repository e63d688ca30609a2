/** The log files under the state machine, byte by byte (db/db_impl.cc, Write and RecoverLogFile):
    a write group is one batch, a batch one record, a record fragments in blocks; and what
    recovery reads back from a file, whole or torn, is what the machine says the log holds. */
module LogFiles {
  import opened DbFormat
  import opened Entries
  import opened Coding
  import opened Log
  import opened LogReader
  import opened LogRoundTrip
  import opened LogReuse
  import B = WriteBatch
  import opened CompactionWork
  import opened Store
  import opened StoreInvariant
  import opened CrashSafety

  /** Where a user key stands in the comparator's order. */
  type Rank = Bytes -> UserKey

  function TypeOf(op: B.BatchOp): ValueType {
    if op.PutOp? then Value else Deletion
  }

  function ValueOf(op: B.BatchOp): Bytes {
    if op.PutOp? then op.value else []
  }

  /** The entries a batch stands for (MemTableInserter). */
  function EntriesOf(rank: Rank, sequence: nat, ops: seq<B.BatchOp>): (r: seq<Entry>)
    requires sequence + |ops| <= MAX_SEQUENCE + 1
    ensures |r| == |ops|
  {
    seq(|ops|, i requires 0 <= i < |ops| => Entry(InternalKey(rank(ops[i].key), sequence + i, TypeOf(ops[i])), ValueOf(ops[i])))
  }

  /** What recovery makes of one record: the batch in it, unless it is malformed. */
  function Replayed(rank: Rank, record: Bytes): Option<seq<Entry>> {
    if |record| < B.HEADER_SIZE then None
    else
      var h := B.Parse(record);
      if h.status != B.OK || B.SequenceOf(record) + |h.ops| > MAX_SEQUENCE + 1 then None
      else Some(EntriesOf(rank, B.SequenceOf(record), h.ops))
  }

  predicate BatchFits(sequence: nat, ops: seq<B.BatchOp>) {
    sequence + |ops| <= MAX_SEQUENCE + 1 && |ops| < TWO32 && forall i | 0 <= i < |ops| :: B.OpOk(ops[i])
  }

  /** The record the leader of a write group hands to the log for these entries. */
  ghost predicate RecordOf(rank: Rank, record: Bytes, block: seq<Entry>) {
    exists sequence: nat, ops :: BatchFits(sequence, ops) && record == B.Encoded(sequence, ops) && block == EntriesOf(rank, sequence, ops)
  }

  ghost predicate RecordsOf(rank: Rank, records: seq<Bytes>, blocks: seq<seq<Entry>>) {
    |records| == |blocks| && forall i | 0 <= i < |records| :: RecordOf(rank, records[i], blocks[i])
  }

  lemma BatchReplays(rank: Rank, sequence: nat, ops: seq<B.BatchOp>)
    requires BatchFits(sequence, ops)
    ensures Replayed(rank, B.Encoded(sequence, ops)) == Some(EntriesOf(rank, sequence, ops))
  {
    assert sequence < TWO64;
    B.ParseUndoesEncode(sequence, ops);
    hide B.Encoded, B.Parse, B.SequenceOf, EntriesOf;
  }

  /** A record replays to the entries it was written for. */
  lemma RecordReplays(rank: Rank, record: Bytes, block: seq<Entry>)
    requires RecordOf(rank, record, block)
    ensures Replayed(rank, record) == Some(block)
  {
    var sequence: nat, ops :| BatchFits(sequence, ops) && record == B.Encoded(sequence, ops) && block == EntriesOf(rank, sequence, ops);
    BatchReplays(rank, sequence, ops);
  }

  /** What recovery gets out of a log file: all it reads is these entries, and it reports
      nothing. */
  ghost predicate ReplaysTo(rank: Rank, r: AllRead, blocks: seq<seq<Entry>>) {
    r.reports == [] && |r.records| == |blocks| && forall i | 0 <= i < |blocks| :: Replayed(rank, r.records[i]) == Some(blocks[i])
  }

  lemma RecordsReplay(rank: Rank, records: seq<Bytes>, blocks: seq<seq<Entry>>, k: nat)
    requires RecordsOf(rank, records, blocks) && k <= |records|
    ensures ReplaysTo(rank, AllRead(records[..k], []), blocks[..k])
  {
    hide RecordOf, Replayed;
    forall i | 0 <= i < k ensures Replayed(rank, records[i]) == Some(blocks[i]) {
      RecordReplays(rank, records[i], blocks[i]);
    }
  }

  /** A log file cut off anywhere replays to the groups whose records are complete in it. */
  lemma TornFileReplays(rank: Rank, crc: Checksum, records: seq<Bytes>, blocks: seq<seq<Entry>>, n: nat)
    requires RecordsOf(rank, records, blocks) && n <= |Written(crc, records)|
    ensures ReplaysTo(rank, ReadAllFrom(crc, Written(crc, records)[..n], 0), blocks[..Complete(crc, records, 0, n)])
  {
    hide RecordsOf, ReplaysTo, Written, ReadAllFrom, Complete;
    TornLogReads(crc, records, n);
    AsManyRecords(rank, records, blocks);
    RecordsReplay(rank, records, blocks, Complete(crc, records, 0, n));
  }

  lemma AsManyRecords(rank: Rank, records: seq<Bytes>, blocks: seq<seq<Entry>>)
    requires RecordsOf(rank, records, blocks)
    ensures |records| == |blocks|
  {
  }

  /** The log in use, as bytes. */
  ghost predicate LogIs(s: Db, rank: Rank, crc: Checksum, records: seq<Bytes>) {
    s.logFile in s.logs && RecordsOf(rank, records, s.logs[s.logFile])
  }

  /** The operation a batch asks for. */
  function OpOf(rank: Rank, op: B.BatchOp): Op {
    Op(rank(op.key), TypeOf(op), ValueOf(op))
  }

  lemma NumberedAre(rank: Rank, last: SeqNo, ops: seq<Op>, batch: seq<B.BatchOp>)
    requires last + |ops| < MAX_SEQUENCE && |batch| == |ops| && forall i | 0 <= i < |ops| :: ops[i] == OpOf(rank, batch[i])
    ensures Numbered(ops, last) == EntriesOf(rank, last + 1, batch)
  {
  }

  /** Logging a group appends the record of its batch to the file. */
  lemma LogStepAppends(s: Db, s': Db, ops: seq<Op>, batch: seq<B.BatchOp>, rank: Rank, crc: Checksum, records: seq<Bytes>)
    requires LogGroup(s, s', ops) && LogIs(s, rank, crc, records)
    requires |batch| == |ops| && BatchFits(s.lastSequence + 1, batch) && forall i | 0 <= i < |ops| :: ops[i] == OpOf(rank, batch[i])
    ensures var record := B.Encoded(s.lastSequence + 1, batch);
            var file := Written(crc, records);
            && LogIs(s', rank, crc, records + [record])
            && Written(crc, records + [record]) == file + Emitted(crc, |file|, record, true)
  {
    hide RecordOf, RecordsOf, B.Encoded, Numbered, EntriesOf, BatchFits, Written, Emitted;
    var record := B.Encoded(s.lastSequence + 1, batch);
    NumberedAre(rank, s.lastSequence, ops, batch);
    IsRecord(rank, s.lastSequence + 1, batch);
    OneMoreRecordOf(rank, records, s.logs[s.logFile], record, Numbered(ops, s.lastSequence));
    WrittenGrows(crc, records, record);
  }

  lemma IsRecord(rank: Rank, sequence: nat, batch: seq<B.BatchOp>)
    requires BatchFits(sequence, batch)
    ensures RecordOf(rank, B.Encoded(sequence, batch), EntriesOf(rank, sequence, batch))
  {
  }

  lemma OneMoreRecordOf(rank: Rank, records: seq<Bytes>, blocks: seq<seq<Entry>>, record: Bytes, block: seq<Entry>)
    requires RecordsOf(rank, records, blocks) && RecordOf(rank, record, block)
    ensures RecordsOf(rank, records + [record], blocks + [block])
  {
  }

  lemma WrittenGrows(crc: Checksum, records: seq<Bytes>, record: Bytes)
    ensures var file := Written(crc, records);
            Written(crc, records + [record]) == file + Emitted(crc, |file|, record, true)
  {
    LastWritten(crc, records + [record]);
    assert (records + [record])[..|records|] == records;
  }

  /** After a crash outside AddRecord the file of the log in use replays to the log. */
  lemma WholeLogReplays(s: Db, rank: Rank, crc: Checksum, records: seq<Bytes>)
    requires LogIs(s, rank, crc, records)
    ensures ReplaysTo(rank, ReadAllFrom(crc, Written(crc, records), 0), s.logs[s.logFile])
  {
    hide RecordsOf, ReplaysTo, Written, ReadAllFrom;
    WholeLogReads(crc, records);
    AsManyRecords(rank, records, s.logs[s.logFile]);
    RecordsReplay(rank, records, s.logs[s.logFile], |records|);
    assert records[..|records|] == records && s.logs[s.logFile][..|records|] == s.logs[s.logFile];
  }

  /** After a crash inside AddRecord it replays to the log of the store without the group. */
  lemma TornLogReplays(s: Db, rank: Rank, t: Tear)
    requires TornLog(s, t) && LogIs(s, rank, t.crc, t.records)
    ensures ReplaysTo(rank, ReadAllFrom(t.crc, Written(t.crc, t.records)[..t.n], 0), CutOff(s).logs[s.logFile])
  {
    hide RecordsOf, ReplaysTo, Written, ReadAllFrom, Complete;
    TornFileReplays(rank, t.crc, t.records, s.logs[s.logFile], t.n);
  }

  /** A torn log that stays in use replays, with one more group, to what the machine says it
      holds, if the cut is clean. */
  lemma ReusedLogReplays(s: Db, rank: Rank, t: Tear, record: Bytes, block: seq<Entry>)
    requires TornLog(s, t) && LogIs(s, rank, t.crc, t.records) && RecordOf(rank, record, block)
    ensures CleanCut(t.crc, t.records, t.n) ==>
              ReplaysTo(rank, ReadAllFrom(t.crc, Reused(t.crc, t.records, t.n, record), 0), CutOff(s).logs[s.logFile] + [block])
  {
    var log := s.logs[s.logFile];
    var k := |log| - 1;
    hide RecordOf, Written, ReadAllFrom, Complete, Reused, CleanCut, Replayed, ReplaysTo, RecordsOf;
    if CleanCut(t.crc, t.records, t.n) {
      AppendIsRead(t.crc, t.records, t.n, record);
      RecordsReplay(rank, t.records, log, k);
      RecordReplays(rank, record, block);
      OneMoreReplays(rank, t.records[..k], log[..k], record, block);
    }
  }

  lemma OneMoreReplays(rank: Rank, records: seq<Bytes>, blocks: seq<seq<Entry>>, record: Bytes, block: seq<Entry>)
    requires ReplaysTo(rank, AllRead(records, []), blocks) && Replayed(rank, record) == Some(block)
    ensures ReplaysTo(rank, AllRead(records + [record], []), blocks + [block])
  {
    hide Replayed;
  }
}
