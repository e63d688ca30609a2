/** Reading back what was written (db/log_writer.cc against db/log_reader.cc), whole or cut
    off at any byte. */
module LogRoundTrip {
  import opened DbFormat
  import opened Entries
  import opened Coding
  import opened Log
  import opened LogReader

  lemma HeaderBytes(crc: Checksum, t: Byte, payload: Bytes)
    requires |payload| <= BLOCK
    ensures var b := Piece(crc, t, payload);
            DecodeWord(b[..4]) == Mask(crc(t, payload)) && TwoBytes(b[4], b[5]) == |payload| && b[6] == t && b[HEADER..] == payload
  {
    var word := EncodeFixed(4, Mask(crc(t, payload)));
    assert Piece(crc, t, payload)[..4] == word;
    FixedWidths();
    FixedRoundTrip(4, Mask(crc(t, payload)));
  }

  lemma HeaderOf(crc: Checksum, file: Bytes, q: nat, t: Byte, payload: Bytes)
    requires |payload| <= BLOCK && q + HEADER + |payload| <= |file|
    requires file[q..q + HEADER + |payload|] == Piece(crc, t, payload)
    ensures DecodeWord(file[q..q + 4]) == Mask(crc(t, payload)) && TwoBytes(file[q + 4], file[q + 5]) == |payload|
    ensures file[q + 6] == t && file[q + HEADER..q + HEADER + |payload|] == payload
  {
    var n := q + HEADER + |payload|;
    HeaderBytes(crc, t, payload);
    hide *;
    SliceOfSlice(file, q, n, 0, 4);
    SliceOfSlice(file, q, n, HEADER, HEADER + |payload|);
    assert file[q + 4] == file[q..n][4] && file[q + 5] == file[q..n][5] && file[q + 6] == file[q..n][6];
  }

  /** A complete fragment is parsed, even if the file ends right behind it. */
  lemma WholePieceParses(crc: Checksum, file: Bytes, q: nat, t: Byte, payload: Bytes)
    requires 1 <= t <= 4 && q % BLOCK + HEADER + |payload| <= BLOCK
    requires q + HEADER + |payload| <= |file| && file[q..q + HEADER + |payload|] == Piece(crc, t, payload)
    ensures ParseAt(crc, file, q) == Parsed(Fragment(t, payload), q + HEADER + |payload|)
  {
    var n := q + HEADER + |payload|;
    HeaderOf(crc, file, q, t, payload);
    UnmaskUndoesMask(crc(t, payload));
    assert n <= EndOfBuffer(file, q);
    hide EndOfBuffer, BlockEnd, DecodeWord, TwoBytes, Mask, Unmask, Piece;
  }

  /** A fragment cut off behind its header reads as the end of the file. */
  lemma TornPieceIsTheEnd(crc: Checksum, file: Bytes, q: nat, t: Byte, payload: Bytes)
    requires q % BLOCK + HEADER + |payload| <= BLOCK
    requires q + HEADER <= |file| < q + HEADER + |payload| && file[q..] == Piece(crc, t, payload)[..|file| - q]
    ensures ParseAt(crc, file, q) == Parsed(Eof, |file|)
  {
    HeaderBytes(crc, t, payload);
    assert file[q + 4] == file[q..][4] && file[q + 5] == file[q..][5];
    assert |file| < BlockEnd(q);
  }

  lemma PrefixSlice(w: Bytes, n: nat, a: nat, b: nat)
    requires a <= b <= n <= |w|
    ensures w[..n][a..b] == w[a..b]
  {
  }

  /** Where the next fragment lies in a log. */
  lemma FragmentLies(crc: Checksum, pre: Bytes, data: Bytes, begin: bool, post: Bytes)
    ensures var q := Align(|pre|);
            var f := FragmentLength(|pre|, |data|);
            var w := pre + NextFragment(crc, |pre|, data, begin) + post;
            q + HEADER + f <= |w| && w[q..q + HEADER + f] == Piece(crc, FragmentType(begin, f == |data|), data[..f])
            && q % BLOCK + HEADER + f <= BLOCK && |pre| <= q
  {
    AlignFits(|pre|);
    var q := Align(|pre|);
    var f := FragmentLength(|pre|, |data|);
    var piece := Piece(crc, FragmentType(begin, f == |data|), data[..f]);
    var w := pre + NextFragment(crc, |pre|, data, begin) + post;
    assert w == (pre + Zeros(q - |pre|)) + piece + post;
  }

  /** The physical record at the end of `pre`, in a log cut off after `n` bytes. */
  lemma FragmentParses(crc: Checksum, pre: Bytes, data: Bytes, begin: bool, post: Bytes, n: nat)
    requires |pre| <= n <= |pre + NextFragment(crc, |pre|, data, begin) + post|
    ensures var file := (pre + NextFragment(crc, |pre|, data, begin) + post)[..n];
            var f := FragmentLength(|pre|, |data|);
            var next := |pre| + |NextFragment(crc, |pre|, data, begin)|;
            Parse(crc, file, |pre|) == if n < next then Parsed(Eof, n) else Parsed(Fragment(FragmentType(begin, f == |data|), data[..f]), next)
  {
    var w := pre + NextFragment(crc, |pre|, data, begin) + post;
    var file := w[..n];
    var q := Align(|pre|);
    var f := FragmentLength(|pre|, |data|);
    var t := FragmentType(begin, f == |data|);
    FragmentLies(crc, pre, data, begin, post);
    if n >= q + HEADER + f {
      PrefixSlice(w, n, q, q + HEADER + f);
      WholePieceParses(crc, file, q, t, data[..f]);
    } else if n >= q + HEADER {
      PrefixSlice(w, n, q, n);
      SliceOfSlice(w, q, q + HEADER + f, 0, n - q);
      assert file[q..] == file[q..n];
      TornPieceIsTheEnd(crc, file, q, t, data[..f]);
    }
  }

  function OrEmpty(scratch: Option<Bytes>): Bytes {
    if scratch.Some? then scratch.value else []
  }

  /** The last fragment of a record completes it. */
  lemma LastFragmentReads(crc: Checksum, file: Bytes, pos: nat, scratch: Option<Bytes>, data: Bytes, next: nat)
    requires pos <= |file|
    requires Parse(crc, file, pos) == Parsed(Fragment(FragmentType(scratch.None?, true), data), next)
    ensures ReadFrom(crc, file, pos, scratch) == Outcome(Some(OrEmpty(scratch) + data), next, [])
  {
    assert OrEmpty(None) + data == data;
    hide Parse;
  }

  /** Any other fragment is added to what is there of the record. */
  lemma InnerFragmentReads(crc: Checksum, file: Bytes, pos: nat, scratch: Option<Bytes>, part: Bytes, next: nat)
    requires pos <= |file|
    requires Parse(crc, file, pos) == Parsed(Fragment(FragmentType(scratch.None?, false), part), next)
    ensures ReadFrom(crc, file, pos, scratch) == ReadFrom(crc, file, next, Some(OrEmpty(scratch) + part))
  {
    assert OrEmpty(None) + part == part;
    hide Parse;
    var o := ReadFrom(crc, file, next, Some(OrEmpty(scratch) + part));
    assert [] + o.reports == o.reports;
  }

  lemma NextFragmentParses(crc: Checksum, w: Bytes, pre: Bytes, data: Bytes, begin: bool, post: Bytes, n: nat)
    requires w == pre + Emitted(crc, |pre|, data, begin) + post && |pre| <= n <= |w|
    ensures var f := FragmentLength(|pre|, |data|);
            var next := |pre| + |NextFragment(crc, |pre|, data, begin)|;
            Parse(crc, w[..n], |pre|) == if n < next then Parsed(Eof, n) else Parsed(Fragment(FragmentType(begin, f == |data|), data[..f]), next)
  {
    hide *;
    var next := NextFragment(crc, |pre|, data, begin);
    var rest := Pending(crc, |pre| + |next|, data[FragmentLength(|pre|, |data|)..], false, FragmentLength(|pre|, |data|) < |data|);
    EmittedUnfolds(crc, |pre|, data, begin);
    assert w == pre + next + (rest + post);
    FragmentParses(crc, pre, data, begin, rest + post, n);
  }

  lemma RestLies(crc: Checksum, w: Bytes, pre: Bytes, data: Bytes, begin: bool, post: Bytes)
    requires w == pre + Emitted(crc, |pre|, data, begin) + post && FragmentLength(|pre|, |data|) < |data|
    ensures var f := FragmentLength(|pre|, |data|);
            var next := NextFragment(crc, |pre|, data, begin);
            w == (pre + next) + Emitted(crc, |pre + next|, data[f..], false) + post
            && |Emitted(crc, |pre|, data, begin)| == |next| + |Emitted(crc, |pre + next|, data[f..], false)|
            && FragmentLength(|pre + next|, |data| - f) > 0
  {
    hide *;
    var f := FragmentLength(|pre|, |data|);
    var next := NextFragment(crc, |pre|, data, begin);
    EmittedUnfolds(crc, |pre|, data, begin);
    assert |pre + next| == |pre| + |next|;
    var rest := Emitted(crc, |pre + next|, data[f..], false);
    PendingIs(crc, |pre + next|, data[f..], false);
    assert w == (pre + next) + rest + post;
  }

  lemma EndOfFileReads(crc: Checksum, file: Bytes, pos: nat, scratch: Option<Bytes>)
    requires pos <= |file| && Parse(crc, file, pos) == Parsed(Eof, |file|)
    ensures ReadFrom(crc, file, pos, scratch) == Outcome(None, |file|, [])
  {
    hide Parse;
  }

  /** A record, or the rest of one, is read back if it is all there; if its end is missing
      the log ends before it, and nothing is reported. */
  lemma {:induction false} RecordReads(crc: Checksum, w: Bytes, pre: Bytes, data: Bytes, begin: bool, post: Bytes, n: nat, scratch: Option<Bytes>)
    requires w == pre + Emitted(crc, |pre|, data, begin) + post && |pre| <= n <= |w|
    requires begin == scratch.None?
    ensures var end := |pre| + |Emitted(crc, |pre|, data, begin)|;
            ReadFrom(crc, w[..n], |pre|, scratch) == if n < end then Outcome(None, n, []) else Outcome(Some(OrEmpty(scratch) + data), end, [])
    decreases |data|, if FragmentLength(|pre|, |data|) == 0 then 1 else 0
  {
    hide *;
    var f := FragmentLength(|pre|, |data|);
    var next := NextFragment(crc, |pre|, data, begin);
    NextFragmentParses(crc, w, pre, data, begin, post, n);
    EmittedUnfolds(crc, |pre|, data, begin);
    if f < |data| { RestLies(crc, w, pre, data, begin, post); }
    if n < |pre| + |next| {
      EndOfFileReads(crc, w[..n], |pre|, scratch);
    } else if f == |data| {
      assert data[..f] == data;
      LastFragmentReads(crc, w[..n], |pre|, scratch, data, |pre| + |next|);
      OnlyFragment(crc, |pre|, data, begin);
    } else {
      InnerFragmentReads(crc, w[..n], |pre|, scratch, data[..f], |pre| + |next|);
      var scratch' := Some(OrEmpty(scratch) + data[..f]);
      assert |pre + next| == |pre| + |next|;
      RecordReads(crc, w, pre + next, data[f..], false, post, n, scratch');
      OrEmptyOf(scratch'.value);
      assert scratch'.value + data[f..] == OrEmpty(scratch) + data;
    }
  }

  lemma OnlyFragment(crc: Checksum, pos: nat, data: Bytes, begin: bool)
    requires FragmentLength(pos, |data|) == |data|
    ensures Emitted(crc, pos, data, begin) == NextFragment(crc, pos, data, begin)
  {
  }

  lemma OrEmptyOf(s: Bytes)
    ensures OrEmpty(Some(s)) == s && OrEmpty(None) == []
  {
  }

  // ---- whole logs ----

  /** What a writer leaves in an empty file. */
  function Written(crc: Checksum, records: seq<Bytes>): Bytes {
    if |records| == 0 then []
    else
      var before := Written(crc, records[..|records| - 1]);
      before + Emitted(crc, |before|, records[|records| - 1], true)
  }

  lemma LastWritten(crc: Checksum, records: seq<Bytes>)
    requires |records| > 0
    ensures var pre := Written(crc, records[..|records| - 1]);
            Written(crc, records) == pre + Emitted(crc, |pre|, records[|records| - 1], true)
  {
    hide Emitted;
  }

  lemma {:induction false} WrittenSplits(crc: Checksum, records: seq<Bytes>, i: nat)
    requires i < |records|
    ensures var pre := Written(crc, records[..i]);
            Written(crc, records[..i + 1]) == pre + Emitted(crc, |pre|, records[i], true)
            && Written(crc, records[..i + 1]) <= Written(crc, records)
  {
    hide *;
    var last := |records| - 1;
    LastWritten(crc, records);
    if i < last {
      WrittenSplits(crc, records[..last], i);
      assert records[..last][..i] == records[..i] && records[..last][..i + 1] == records[..i + 1];
    } else {
      assert records[..i + 1] == records;
    }
  }

  /** How many records are complete in the first `n` bytes, counting from record `i`. */
  function Complete(crc: Checksum, records: seq<Bytes>, i: nat, n: nat): (k: nat)
    requires i <= |records|
    ensures i <= k <= |records|
    decreases |records| - i
  {
    if i < |records| && |Written(crc, records[..i + 1])| <= n then Complete(crc, records, i + 1, n) else i
  }

  lemma ReadsOneMore(crc: Checksum, file: Bytes, pos: nat, record: Bytes, next: nat)
    requires pos <= |file| && ReadFrom(crc, file, pos, None) == Outcome(Some(record), next, [])
    ensures ReadAllFrom(crc, file, pos) == Behind([record], [], ReadAllFrom(crc, file, next))
  {
    hide ReadFrom;
  }

  lemma ReadsNoMore(crc: Checksum, file: Bytes, pos: nat, reports: seq<nat>)
    requires pos <= |file| && ReadFrom(crc, file, pos, None) == Outcome(None, |file|, reports)
    ensures ReadAllFrom(crc, file, pos) == AllRead([], reports)
  {
    hide ReadFrom;
  }

  /** The records read so far, and those still to come. */
  function Behind(records: seq<Bytes>, reports: seq<nat>, rest: AllRead): AllRead {
    AllRead(records + rest.records, reports + rest.reports)
  }

  lemma NextRecordReads(crc: Checksum, records: seq<Bytes>, i: nat, n: nat)
    requires i < |records| && |Written(crc, records[..i])| <= n <= |Written(crc, records)|
    ensures var pos := |Written(crc, records[..i])|;
            var next := |Written(crc, records[..i + 1])|;
            ReadFrom(crc, Written(crc, records)[..n], pos, None) == if n < next then Outcome(None, n, []) else Outcome(Some(records[i]), next, [])
  {
    hide *;
    var w := Written(crc, records);
    var pre := Written(crc, records[..i]);
    WrittenSplits(crc, records, i);
    var post := w[|Written(crc, records[..i + 1])|..];
    assert w == pre + Emitted(crc, |pre|, records[i], true) + post;
    RecordReads(crc, w, pre, records[i], true, post, n, None);
    OrEmptyOf([]);
    assert [] + records[i] == records[i];
  }

  lemma CompleteUnfolds(crc: Checksum, records: seq<Bytes>, i: nat, n: nat)
    requires i <= |records|
    ensures Complete(crc, records, i, n) == if i < |records| && |Written(crc, records[..i + 1])| <= n then Complete(crc, records, i + 1, n) else i
  {
    hide Written;
  }

  lemma {:induction false} AllReadFrom(crc: Checksum, records: seq<Bytes>, i: nat, n: nat)
    requires i <= |records| && |Written(crc, records[..i])| <= n <= |Written(crc, records)|
    ensures ReadAllFrom(crc, Written(crc, records)[..n], |Written(crc, records[..i])|)
         == AllRead(records[i..Complete(crc, records, i, n)], [])
    decreases |records| - i
  {
    hide *;
    var file := Written(crc, records)[..n];
    CompleteUnfolds(crc, records, i, n);
    if i == |records| {
      assert records[..i] == records;
      EndReads(crc, Written(crc, records), n);
    } else {
      NextRecordReads(crc, records, i, n);
      var pos, next := |Written(crc, records[..i])|, |Written(crc, records[..i + 1])|;
      if next <= n {
        ReadsOneMore(crc, file, pos, records[i], next);
        AllReadFrom(crc, records, i + 1, n);
        BehindOne(records[i], records[i + 1..Complete(crc, records, i + 1, n)]);
        assert [records[i]] + records[i + 1..Complete(crc, records, i + 1, n)] == records[i..Complete(crc, records, i, n)];
      } else {
        ReadsNoMore(crc, file, pos, []);
      }
    }
  }

  lemma BehindOne(record: Bytes, rest: seq<Bytes>)
    ensures Behind([record], [], AllRead(rest, [])) == AllRead([record] + rest, [])
  {
  }

  lemma EndReads(crc: Checksum, w: Bytes, n: nat)
    requires n == |w|
    ensures ReadAllFrom(crc, w[..n], |w|) == AllRead([], [])
  {
    AlignFits(|w|);
  }

  /** Reading any prefix of a log gives exactly the records that are complete in it, and
      reports no corruption, wherever the end was torn off. */
  lemma TornLogReads(crc: Checksum, records: seq<Bytes>, n: nat)
    requires n <= |Written(crc, records)|
    ensures ReadAllFrom(crc, Written(crc, records)[..n], 0) == AllRead(records[..Complete(crc, records, 0, n)], [])
  {
    assert records[..0] == [] && |Written(crc, records[..0])| == 0;
    hide *;
    AllReadFrom(crc, records, 0, n);
    assert records[0..Complete(crc, records, 0, n)] == records[..Complete(crc, records, 0, n)];
  }

  lemma {:induction false} AllComplete(crc: Checksum, records: seq<Bytes>, i: nat)
    requires i <= |records|
    ensures Complete(crc, records, i, |Written(crc, records)|) == |records|
    decreases |records| - i
  {
    hide *;
    CompleteUnfolds(crc, records, i, |Written(crc, records)|);
    if i < |records| {
      WrittenSplits(crc, records, i);
      AllComplete(crc, records, i + 1);
    }
  }

  /** Reading a whole log gives back every record. */
  lemma WholeLogReads(crc: Checksum, records: seq<Bytes>)
    ensures ReadAllFrom(crc, Written(crc, records), 0) == AllRead(records, [])
  {
    hide *;
    var w := Written(crc, records);
    TornLogReads(crc, records, |w|);
    AllComplete(crc, records, 0);
    assert w[..|w|] == w && records[..|records|] == records;
  }

  /** A writer makes such a log, one record after the other. */
  method WriteAll(crc: Checksum, records: seq<Bytes>) returns (file: Bytes)
    ensures file == Written(crc, records)
  {
    var writer := new Writer(crc, []);
    for i := 0 to |records|
      invariant writer.Valid() && writer.crc == crc && writer.dest == Written(crc, records[..i])
    {
      WrittenSplits(crc, records, i);
      writer.AddRecord(records[i]);
    }
    assert records[..|records|] == records;
    file := writer.dest;
  }

  /** The loop every caller of the reader runs. */
  method ReadAll(crc: Checksum, file: Bytes) returns (records: seq<Bytes>, reports: seq<nat>)
    ensures ReadAllFrom(crc, file, 0) == AllRead(records, reports)
  {
    var reader := new Reader(crc, file);
    records := [];
    var more := true;
    ghost var whole := ReadAllFrom(crc, file, 0);
    assert whole == Behind([], [], Remaining(crc, file, 0, true));
    hide *;
    while more
      invariant reader.Valid() && reader.pos <= |file| && reader.crc == crc && reader.file == file
      invariant whole == Behind(records, reader.reports, Remaining(crc, file, reader.pos, more))
      decreases more, |file| - reader.pos
    {
      ghost var pos, reports0 := reader.pos, reader.reports;
      var record := reader.ReadRecord();
      more := record.Some?;
      RemainingUnfolds(crc, file, pos);
      BehindTwice(records, reports0, if more then [record.value] else [], ReadFrom(crc, file, pos, None).reports, Remaining(crc, file, reader.pos, more));
      records := records + (if more then [record.value] else []);
    }
    reports := reader.reports;
    NothingRemains(crc, file, reader.pos, records, reports);
  }

  lemma BehindTwice(a: seq<Bytes>, b: seq<nat>, c: seq<Bytes>, d: seq<nat>, rest: AllRead)
    ensures Behind(a, b, Behind(c, d, rest)) == Behind(a + c, b + d, rest)
  {
    assert a + (c + rest.records) == (a + c) + rest.records && b + (d + rest.reports) == (b + d) + rest.reports;
  }

  lemma NothingRemains(crc: Checksum, file: Bytes, pos: nat, records: seq<Bytes>, reports: seq<nat>)
    requires pos <= |file|
    ensures Behind(records, reports, Remaining(crc, file, pos, false)) == AllRead(records, reports)
  {
    assert records + [] == records && reports + [] == reports;
  }

  function Remaining(crc: Checksum, file: Bytes, pos: nat, more: bool): AllRead
    requires pos <= |file|
  {
    if more then ReadAllFrom(crc, file, pos) else AllRead([], [])
  }

  lemma RemainingUnfolds(crc: Checksum, file: Bytes, pos: nat)
    requires pos <= |file|
    ensures var o := ReadFrom(crc, file, pos, None);
            Remaining(crc, file, pos, true)
            == Behind(if o.record.Some? then [o.record.value] else [], o.reports, Remaining(crc, file, o.pos, o.record.Some?))
  {
    hide ReadFrom;
  }
}
