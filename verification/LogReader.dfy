/** Reading a log (db/log_reader.cc) from its start, and the round trip with the writer. */
module LogReader {
  import opened DbFormat
  import opened Entries
  import opened Coding
  import opened Log

  // ---- what one physical record says ----

  /** Eof; a bad stretch, reported with its size or skipped silently; or a fragment. */
  datatype Physical = Eof | BadStretch(reports: seq<nat>) | Fragment(t: Byte, payload: Bytes)

  datatype Parsed = Parsed(physical: Physical, pos: nat)

  function EndOfBuffer(file: Bytes, q: nat): nat {
    if BlockEnd(q) <= |file| then BlockEnd(q) else |file|
  }

  function TwoBytes(low: nat, high: nat): nat {
    low + 256 * high
  }

  /** What the header at `q` announces, and where reading goes on. */
  function ParseAt(crc: Checksum, file: Bytes, q: nat): (r: Parsed)
    requires q + HEADER <= |file|
    ensures q <= r.pos <= |file| && (!r.physical.Eof? ==> q < r.pos)
  {
    var end := EndOfBuffer(file, q);
    var length := TwoBytes(file[q + 4], file[q + 5]);
    var t := file[q + 6];
    if q + HEADER + length > end then
      if BlockEnd(q) <= |file| then Parsed(BadStretch([end - q]), end) else Parsed(Eof, |file|)
    else
      var payload := file[q + HEADER..q + HEADER + length];
      if t == 0 && length == 0 then Parsed(BadStretch([]), end)
      else if Unmask(DecodeWord(file[q..q + 4])) != crc(t, payload) then Parsed(BadStretch([end - q]), end)
      else Parsed(Fragment(t, payload), q + HEADER + length)
  }

  /** The physical record at or behind `pos`. */
  function Parse(crc: Checksum, file: Bytes, pos: nat): (r: Parsed)
    requires pos <= |file|
    ensures r.pos <= |file| && (!r.physical.Eof? ==> pos < r.pos)
  {
    AlignFits(pos);
    if |file| < Align(pos) + HEADER then Parsed(Eof, |file|) else ParseAt(crc, file, Align(pos))
  }

  function DecodeWord(b: Bytes): Word
    requires |b| == 4
  {
    FixedIsOnto(b);
    FixedWidths();
    DecodeFixed(b)
  }

  // ---- what one logical record says ----

  /** The next record, where it ends, and the sizes of the stretches reported as corrupt. */
  datatype Outcome = Outcome(record: Option<Bytes>, pos: nat, reports: seq<nat>)

  function Reported(reports: seq<nat>, o: Outcome): Outcome {
    o.(reports := reports + o.reports)
  }

  function Dropped(scratch: Option<Bytes>): seq<nat> {
    if scratch.Some? then [|scratch.value|] else []
  }

  /** A record that was begun and not ended is reported unless nothing of it was there. */
  function Unfinished(scratch: Option<Bytes>): seq<nat> {
    if scratch.Some? && |scratch.value| > 0 then [|scratch.value|] else []
  }

  /** What a fragment does to the record being put together: it may complete one. */
  datatype Taken = Taken(record: Option<Bytes>, scratch: Option<Bytes>, reports: seq<nat>)

  function Take(t: Byte, payload: Bytes, scratch: Option<Bytes>): Taken {
    if t == FULL then Taken(Some(payload), None, Unfinished(scratch))
    else if t == FIRST then Taken(None, Some(payload), Unfinished(scratch))
    else if t == MIDDLE && scratch.Some? then Taken(None, Some(scratch.value + payload), [])
    else if t == LAST && scratch.Some? then Taken(Some(scratch.value + payload), None, [])
    else if t == MIDDLE || t == LAST then Taken(None, None, [|payload|])
    else Taken(None, None, [|payload| + (if scratch.Some? then |scratch.value| else 0)])
  }

  /** Reads on from `pos`; `scratch` holds the fragments of a record that has begun. */
  function ReadFrom(crc: Checksum, file: Bytes, pos: nat, scratch: Option<Bytes>): (o: Outcome)
    requires pos <= |file|
    ensures o.pos <= |file| && (o.record.Some? ==> pos < o.pos)
    decreases |file| - pos
  {
    var p := Parse(crc, file, pos);
    match p.physical
    case Eof => Outcome(None, p.pos, [])
    case BadStretch(reports) => Reported(reports + Dropped(scratch), ReadFrom(crc, file, p.pos, None))
    case Fragment(t, payload) =>
      var k := Take(t, payload, scratch);
      if k.record.Some? then Outcome(k.record, p.pos, k.reports)
      else Reported(k.reports, ReadFrom(crc, file, p.pos, k.scratch))
  }

  /** What is still to come: nothing once `done`. */
  function Continued(crc: Checksum, file: Bytes, pos: nat, scratch: Option<Bytes>, done: bool, record: Option<Bytes>): Outcome
    requires pos <= |file|
  {
    if done then Outcome(record, pos, []) else ReadFrom(crc, file, pos, scratch)
  }

  /** All records a reader gets out of a file. */
  datatype AllRead = AllRead(records: seq<Bytes>, reports: seq<nat>)

  function ReadAllFrom(crc: Checksum, file: Bytes, pos: nat): AllRead
    requires pos <= |file|
    decreases |file| - pos
  {
    var o := ReadFrom(crc, file, pos, None);
    if o.record.None? then AllRead([], o.reports)
    else
      var rest := ReadAllFrom(crc, file, o.pos);
      AllRead([o.record.value] + rest.records, o.reports + rest.reports)
  }

  // ---- the reader ----

  /** `taken` bytes of a file are in or before the buffer, which starts at `pos`: the buffer
      ends where its block or the file ends. */
  predicate Buffered(size: nat, pos: nat, taken: nat, eof: bool) {
    && pos <= taken <= size
    && (if eof then taken == size else taken % BLOCK == 0)
    && (pos < taken ==> taken == (if BlockEnd(pos) <= size then BlockEnd(pos) else size) && (eof <==> size < BlockEnd(pos)))
  }

  lemma NextBlock(size: nat, taken: nat, n: nat)
    requires taken <= size && taken % BLOCK == 0 && n == if size - taken < BLOCK then size - taken else BLOCK
    ensures Buffered(size, taken, taken + n, n < BLOCK)
  {
  }

  lemma StillBuffered(size: nat, pos: nat, taken: nat, eof: bool, n: nat)
    requires Buffered(size, pos, taken, eof) && pos + n <= taken
    ensures Buffered(size, pos + n, taken, eof)
  {
    if pos + n < taken { SameBlock(pos, n, taken); }
  }

  lemma SameBlock(pos: nat, n: nat, taken: nat)
    requires pos + n < taken <= BlockEnd(pos)
    ensures BlockEnd(pos + n) == BlockEnd(pos)
  {
  }

  /** A buffer shorter than a header is the tail of a block, or of the file. */
  lemma TailIsSkipped(size: nat, pos: nat, taken: nat, eof: bool)
    requires Buffered(size, pos, taken, eof) && taken < pos + HEADER
    ensures if eof then size < Align(pos) + HEADER else Align(pos) == Align(taken)
  {
    AlignFits(pos);
  }

  /** A buffer that holds a header starts with it. */
  lemma HeaderIsHere(size: nat, pos: nat, taken: nat, eof: bool)
    requires Buffered(size, pos, taken, eof) && pos + HEADER <= taken
    ensures Align(pos) == pos && taken == (if BlockEnd(pos) <= size then BlockEnd(pos) else size)
    ensures eof <==> size < BlockEnd(pos)
  {
  }

  lemma SliceOfSlice(file: Bytes, a: nat, b: nat, i: nat, j: nat)
    requires a <= b <= |file| && i <= j <= b - a
    ensures file[a..b][i..j] == file[a + i..a + j]
  {
    var s := file[a..b];
    assert forall k | 0 <= k < j - i :: s[i..j][k] == s[i + k] == file[a + i + k] == file[a + i..a + j][k];
  }

  class Reader {
    const crc: Checksum
    const file: Bytes
    /** Bytes taken from the file so far, and those of them not looked at yet. */
    var taken: nat
    var buffer: Bytes
    var eof: bool
    var reports: seq<nat>
    ghost var pos: nat

    constructor (c: Checksum, f: Bytes)
      ensures crc == c && file == f && Valid() && pos == 0 && reports == []
    {
      crc, file, taken, buffer, eof, reports, pos := c, f, 0, [], false, [], 0;
    }

    ghost predicate Valid()
      reads this
    {
      taken <= |file| && pos + |buffer| == taken && buffer == file[pos..taken] && Buffered(|file|, pos, taken, eof)
    }

    /** The next block, or what there is of it. */
    method FillBuffer()
      requires Valid() && !eof
      modifies this`taken, this`buffer, this`eof, this`pos
      ensures Valid() && pos == old(taken) && (eof || old(taken) < taken)
    {
      var n := if |file| - taken < BLOCK then |file| - taken else BLOCK;
      NextBlock(|file|, taken, n);
      pos := taken;
      buffer := file[taken..taken + n];
      taken := taken + n;
      if n < BLOCK { eof := true; }
    }

    /** Hands out the first `n` bytes of the buffer. */
    method RemovePrefix(n: nat)
      requires Valid() && n <= |buffer|
      modifies this`buffer, this`pos
      ensures Valid() && pos == old(pos) + n
    {
      StillBuffered(|file|, pos, taken, eof, n);
      SliceOfSlice(file, pos, taken, n, |buffer|);
      buffer := buffer[n..];
      pos := pos + n;
    }

    /** Makes sure there is a header to look at, or that there is none left. */
    method LoadHeader() returns (loaded: bool)
      requires Valid()
      modifies this`taken, this`buffer, this`eof, this`pos
      ensures Valid()
      ensures loaded ==> |buffer| >= HEADER && Align(old(pos)) == pos
      ensures !loaded ==> |file| < Align(old(pos)) + HEADER && pos == |file|
    {
      ghost var start := pos;
      while |buffer| < HEADER
        invariant Valid() && Align(pos) == Align(start)
        decreases !eof, |file| - taken
      {
        TailIsSkipped(|file|, pos, taken, eof);
        if eof {
          RemovePrefix(|buffer|);
          return false;
        }
        FillBuffer();
      }
      HeaderIsHere(|file|, pos, taken, eof);
      return true;
    }

    /** Looks at the header in the buffer. */
    method ParseBuffer() returns (p: Physical, n: nat)
      requires Valid() && |buffer| >= HEADER
      ensures n <= |buffer| && (p.Eof? ==> n == |buffer|)
      ensures ParseAt(crc, file, pos) == Parsed(p, pos + n)
    {
      HeaderIsHere(|file|, pos, taken, eof);
      var length := TwoBytes(buffer[4], buffer[5]);
      var t := buffer[6];
      if HEADER + length > |buffer| {
        return if eof then Eof else BadStretch([|buffer|]), |buffer|;
      }
      var payload := buffer[HEADER..HEADER + length];
      SliceOfSlice(file, pos, taken, HEADER, HEADER + length);
      SliceOfSlice(file, pos, taken, 0, 4);
      if t == 0 && length == 0 {
        return BadStretch([]), |buffer|;
      }
      if Unmask(DecodeWord(buffer[..4])) != crc(t, payload) {
        return BadStretch([|buffer|]), |buffer|;
      }
      return Fragment(t, payload), HEADER + length;
    }

    /** ReadPhysicalRecord: skips block tails, and says what stands next. */
    method ReadPhysicalRecord() returns (p: Physical)
      requires Valid()
      modifies this
      ensures Valid() && Parse(crc, file, old(pos)) == Parsed(p, pos)
      ensures reports == old(reports) + (if p.BadStretch? then p.reports else [])
    {
      var loaded := LoadHeader();
      if !loaded { return Eof; }
      var n;
      p, n := ParseBuffer();
      RemovePrefix(n);
      if p.BadStretch? { reports := reports + p.reports; }
    }

    method Corruption(bytes: nat)
      modifies this`reports
      ensures reports == old(reports) + [bytes]
    {
      reports := reports + [bytes];
    }

    /** The cases of ReadRecord for a fragment. */
    method TakeFragment(t: Byte, payload: Bytes, scratch: Option<Bytes>) returns (record: Option<Bytes>, scratch': Option<Bytes>)
      modifies this`reports
      ensures var k := Take(t, payload, scratch);
              record == k.record && scratch' == k.scratch && reports == old(reports) + k.reports
    {
      record, scratch' := None, None;
      if t == FULL || t == FIRST {
        if scratch.Some? && |scratch.value| > 0 { Corruption(|scratch.value|); }
        if t == FULL { record := Some(payload); } else { scratch' := Some(payload); }
      } else if t == MIDDLE {
        if scratch.None? { Corruption(|payload|); } else { scratch' := Some(scratch.value + payload); }
      } else if t == LAST {
        if scratch.None? { Corruption(|payload|); } else { record := Some(scratch.value + payload); }
      } else {
        Corruption(|payload| + (if scratch.Some? then |scratch.value| else 0));
      }
    }

    /** One turn of the loop in ReadRecord. */
    method ReadPiece(scratch: Option<Bytes>) returns (done: bool, record: Option<Bytes>, scratch': Option<Bytes>, ghost more: seq<nat>)
      requires Valid()
      modifies this
      ensures Valid() && pos <= |file| && reports == old(reports) + more && (!done ==> old(pos) < pos)
      ensures ReadFrom(crc, file, old(pos), scratch) == Reported(more, Continued(crc, file, pos, scratch', done, record))
    {
      var p := ReadPhysicalRecord();
      match p
      case Eof =>
        return true, None, None, [];
      case BadStretch(bad) =>
        if scratch.Some? { Corruption(|scratch.value|); }
        return false, None, None, bad + Dropped(scratch);
      case Fragment(t, payload) =>
        more := Take(t, payload, scratch).reports;
        record, scratch' := TakeFragment(t, payload, scratch);
        done := record.Some?;
    }

    /** ReadRecord: puts the next logical record together. */
    method ReadRecord() returns (record: Option<Bytes>)
      requires Valid()
      modifies this
      ensures Valid()
      ensures var o := ReadFrom(crc, file, old(pos), None);
              record == o.record && pos == o.pos && reports == old(reports) + o.reports
    {
      var scratch: Option<Bytes> := None;
      var done := false;
      record := None;
      ghost var before: seq<nat>, more: seq<nat> := [], [];
      ghost var whole := ReadFrom(crc, file, pos, None);
      hide *;
      Untouched(whole);
      StillReading(crc, file, pos, None, None);
      while !done
        invariant Valid() && pos <= |file| && reports == old(reports) + before
        invariant whole == Reported(before, Continued(crc, file, pos, scratch, done, record))
        decreases !done, |file| - pos
      {
        StillReading(crc, file, pos, scratch, record);
        done, record, scratch, more := ReadPiece(scratch);
        ReportedTwice(before, more, Continued(crc, file, pos, scratch, done, record));
        Joined(old(reports), before, more);
        before := before + more;
      }
      NothingToCome(before, crc, file, pos, record, scratch);
    }
  }

  lemma Joined(a: seq<nat>, b: seq<nat>, c: seq<nat>)
    ensures (a + b) + c == a + (b + c)
  {
  }

  lemma StillReading(crc: Checksum, file: Bytes, pos: nat, scratch: Option<Bytes>, record: Option<Bytes>)
    requires pos <= |file|
    ensures Continued(crc, file, pos, scratch, false, record) == ReadFrom(crc, file, pos, scratch)
  {
    hide ReadFrom;
  }

  lemma Untouched(o: Outcome)
    ensures Reported([], o) == o
  {
  }

  lemma NothingToCome(before: seq<nat>, crc: Checksum, file: Bytes, pos: nat, record: Option<Bytes>, scratch: Option<Bytes>)
    requires pos <= |file|
    ensures Reported(before, Continued(crc, file, pos, scratch, true, record)) == Outcome(record, pos, before)
  {
  }

  lemma ReportedTwice(a: seq<nat>, b: seq<nat>, o: Outcome)
    ensures Reported(a, Reported(b, o)) == Reported(a + b, o)
  {
    assert a + (b + o.reports) == (a + b) + o.reports;
  }
}
