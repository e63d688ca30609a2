/** Going on with a log a crash has cut off (db/db_impl.cc, RecoverLogFile with reuse_logs;
    db/log_writer.cc, the constructor that takes the length of the file): what a reader
    makes of the torn end together with the record appended behind it. */
module LogReuse {
  import opened DbFormat
  import opened Entries
  import opened Coding
  import opened Log
  import opened LogReader
  import opened LogRoundTrip

  /** The first `n` bytes of a log, and a record a writer appends to them. */
  function Reused(crc: Checksum, records: seq<Bytes>, n: nat, r: Bytes): (file: Bytes)
    requires n <= |Written(crc, records)|
    ensures |file| >= n + HEADER
  {
    Written(crc, records)[..n] + Emitted(crc, n, r, true)
  }

  /** Of a record of `left` bytes written from `pos` on: where the header of the fragment
      lies that a cut after `n` bytes tears or takes away. */
  function CutFragment(pos: nat, left: nat, n: nat): nat
    decreases left, if FragmentLength(pos, left) == 0 then 1 else 0
  {
    var f := FragmentLength(pos, left);
    var next := Align(pos) + HEADER + f;
    if f < left && next <= n then
      NextFragmentFits(pos, left);
      CutFragment(next, left - f, n)
    else Align(pos)
  }

  /** What is appended after `n` bytes goes to the start of a block. */
  predicate StartsBlock(n: nat) {
    Align(n) % BLOCK == 0
  }

  /** A cut after `n` bytes leaves nothing of the record written from `pos` on, or of its
      header nothing that tells it from the zeros in front of the next block, or a header
      that announces nothing. */
  predicate CleanBehind(pos: nat, left: nat, n: nat) {
    || n <= Align(pos)
    || (StartsBlock(n) && n <= Align(pos) + HEADER && (n <= Align(pos) + 4 || FragmentLength(pos, left) == 0))
  }

  predicate CleanCut(crc: Checksum, records: seq<Bytes>, n: nat) {
    var k := Complete(crc, records, 0, n);
    k == |records| || CleanBehind(|Written(crc, records[..k])|, |records[k]|, n)
  }

  /** The checksum tells a torn fragment from what now stands behind its header. */
  predicate TearIsCaught(crc: Checksum, file: Bytes, q: nat, n: nat)
    requires n + HEADER <= |file|
  {
    q < n ==> !ParseAt(crc, file, q).physical.Fragment?
  }

  /** The checksum tells the torn fragment from what stands behind its header once `r` is
      appended. */
  predicate TornEndIsCaught(crc: Checksum, records: seq<Bytes>, n: nat, r: Bytes)
    requires n <= |Written(crc, records)|
  {
    var k := Complete(crc, records, 0, n);
    k < |records| ==> TearIsCaught(crc, Reused(crc, records, n, r), CutFragment(|Written(crc, records[..k])|, |records[k]|, n), n)
  }

  // ---- reading in front of the tear ----

  lemma LeadingFragmentParses(crc: Checksum, file: Bytes, pre: Bytes, data: Bytes, begin: bool)
    requires pre + NextFragment(crc, |pre|, data, begin) <= file
    ensures var f := FragmentLength(|pre|, |data|);
            Parse(crc, file, |pre|)
            == Parsed(Fragment(FragmentType(begin, f == |data|), data[..f]), |pre| + |NextFragment(crc, |pre|, data, begin)|)
  {
    hide *;
    var w := pre + NextFragment(crc, |pre|, data, begin);
    assert file == w + file[|w|..] && file[..|file|] == file;
    FragmentParses(crc, pre, data, begin, file[|w|..], |file|);
  }

  lemma LeadingRecordReads(crc: Checksum, file: Bytes, pre: Bytes, data: Bytes)
    requires pre + Emitted(crc, |pre|, data, true) <= file
    ensures ReadFrom(crc, file, |pre|, None) == Outcome(Some(data), |pre| + |Emitted(crc, |pre|, data, true)|, [])
  {
    hide *;
    var w := pre + Emitted(crc, |pre|, data, true);
    assert file == w + file[|w|..] && file[..|file|] == file;
    RecordReads(crc, file, pre, data, true, file[|w|..], |file|, None);
    OrEmptyOf([]);
    assert [] + data == data;
  }

  /** A file that starts like a log gives the records of that log first. */
  lemma {:induction false} LeadingRecordsRead(crc: Checksum, file: Bytes, records: seq<Bytes>, i: nat)
    requires i <= |records| && Written(crc, records) <= file && |Written(crc, records[..i])| <= |file|
    ensures ReadAllFrom(crc, file, |Written(crc, records[..i])|)
         == Behind(records[i..], [], ReadAllFrom(crc, file, |Written(crc, records)|))
    decreases |records| - i
  {
    hide *;
    if i == |records| {
      assert records[..i] == records;
      NothingInFront(ReadAllFrom(crc, file, |Written(crc, records)|));
    } else {
      WrittenSplits(crc, records, i);
      LeadingRecordReads(crc, file, Written(crc, records[..i]), records[i]);
      ReadsOneMore(crc, file, |Written(crc, records[..i])|, records[i], |Written(crc, records[..i + 1])|);
      LeadingRecordsRead(crc, file, records, i + 1);
      BehindTwice([records[i]], [], records[i + 1..], [], ReadAllFrom(crc, file, |Written(crc, records)|));
      assert [records[i]] + records[i + 1..] == records[i..];
      var none: seq<nat> := [];
      assert none + none == none;
    }
  }

  lemma NothingInFront(rest: AllRead)
    ensures Behind([], [], rest) == rest
  {
    assert [] + rest.records == rest.records;
    assert [] + rest.reports == rest.reports;
  }

  // ---- what is appended ----

  /** Padding in front of a record belongs to it. */
  lemma PaddingJoins(crc: Checksum, pos: nat, n: nat, r: Bytes)
    requires pos <= n <= Align(pos)
    ensures Zeros(n - pos) + Emitted(crc, n, r, true) == Emitted(crc, pos, r, true)
  {
    hide Emitted, NextFragment, Align, FragmentLength, Pending;
    var f := FragmentLength(pos, |r|);
    FragmentIsPadded(crc, pos, n, r);
    EmittedUnfolds(crc, n, r, true);
    EmittedUnfolds(crc, pos, r, true);
    Associate(Zeros(n - pos), NextFragment(crc, n, r, true), Pending(crc, n + |NextFragment(crc, n, r, true)|, r[f..], false, f < |r|));
  }

  lemma FragmentIsPadded(crc: Checksum, pos: nat, n: nat, r: Bytes)
    requires pos <= n <= Align(pos)
    ensures FragmentLength(n, |r|) == FragmentLength(pos, |r|)
    ensures Zeros(n - pos) + NextFragment(crc, n, r, true) == NextFragment(crc, pos, r, true)
    ensures n + |NextFragment(crc, n, r, true)| == pos + |NextFragment(crc, pos, r, true)|
  {
    SameAlign(pos, n);
    hide Align, Room, Piece;
    assert Zeros(n - pos) + Zeros(Align(n) - n) == Zeros(Align(pos) - pos);
  }

  lemma SameAlign(pos: nat, n: nat)
    requires pos <= n <= Align(pos)
    ensures Align(n) == Align(pos) && Room(n) == Room(pos)
  {
    AlignFits(pos);
    if pos < n < BlockEnd(pos) { SameBlock(pos, n - pos, BlockEnd(pos)); }
  }

  lemma StartsWithFragment(crc: Checksum, pre: Bytes, r: Bytes, begin: bool)
    ensures pre + NextFragment(crc, |pre|, r, begin) <= pre + Emitted(crc, |pre|, r, begin)
  {
    EmittedUnfolds(crc, |pre|, r, begin);
  }

  /** The start of a record ends whatever was begun before it, and that is reported. */
  lemma StartEndsUnfinished(crc: Checksum, file: Bytes, pre: Bytes, r: Bytes, scratch: Bytes)
    requires file == pre + Emitted(crc, |pre|, r, true) && |scratch| > 0
    ensures ReadFrom(crc, file, |pre|, Some(scratch)).reports != []
  {
    StartsWithFragment(crc, pre, r, true);
    LeadingFragmentParses(crc, file, pre, r, true);
    hide Parse, Emitted, NextFragment;
  }

  /** The start of a record ends an empty beginning without a report. */
  lemma StartAfterNothing(crc: Checksum, file: Bytes, pre: Bytes, r: Bytes)
    requires file == pre + Emitted(crc, |pre|, r, true)
    ensures ReadFrom(crc, file, |pre|, Some([])) == Outcome(Some(r), |file|, [])
  {
    hide *;
    var f := FragmentLength(|pre|, |r|);
    StartsWithFragment(crc, pre, r, true);
    LeadingFragmentParses(crc, file, pre, r, true);
    LeadingRecordReads(crc, file, pre, r);
    StartTakes(crc, file, |pre|, f == |r|, r[..f], |pre| + |NextFragment(crc, |pre|, r, true)|);
  }

  lemma StartTakes(crc: Checksum, file: Bytes, pos: nat, end: bool, payload: Bytes, next: nat)
    requires pos <= |file| && Parse(crc, file, pos) == Parsed(Fragment(FragmentType(true, end), payload), next)
    ensures ReadFrom(crc, file, pos, Some([])) == ReadFrom(crc, file, pos, None)
  {
    hide Parse;
  }

  // ---- what spoils the reading ----

  predicate Spoiled(o: Outcome) {
    o.record.None? || o.reports != []
  }

  lemma SpoiledForAll(crc: Checksum, file: Bytes, pos: nat, r: Bytes)
    requires pos <= |file| && Spoiled(ReadFrom(crc, file, pos, None))
    ensures ReadAllFrom(crc, file, pos) != AllRead([r], [])
  {
    hide ReadFrom;
  }

  /** Whoever skips the first fragment of the last record finds nothing, or fragments that
      belong to no record. */
  lemma RestIsStray(crc: Checksum, file: Bytes, pre: Bytes, r: Bytes)
    requires file == pre + Emitted(crc, |pre|, r, true) && Align(|pre|) == |pre|
    ensures Spoiled(ReadFrom(crc, file, EndOfBuffer(file, |pre|), None))
  {
    var f := FragmentLength(|pre|, |r|);
    var next := NextFragment(crc, |pre|, r, true);
    EmittedUnfolds(crc, |pre|, r, true);
    AlignFits(|pre|);
    AlignFits(|file|);
    if f == |r| {
      OnlyFragment(crc, |pre|, r, true);
      hide Emitted, NextFragment;
      assert EndOfBuffer(file, |pre|) == |file|;
      hide Parse;
      assert Parse(crc, file, |file|).physical.Eof? by { assert true; }
    } else {
      RestLies(crc, file, pre, r, true, []);
      StrayFragment(crc, file, pre + next, r[f..]);
      hide Emitted, NextFragment;
      assert EndOfBuffer(file, |pre|) == |pre + next|;
    }
  }

  lemma StrayFragment(crc: Checksum, file: Bytes, pre: Bytes, rest: Bytes)
    requires file == pre + Emitted(crc, |pre|, rest, false) + []
    ensures Spoiled(ReadFrom(crc, file, |pre|, None))
  {
    StartsWithFragment(crc, pre, rest, false);
    LeadingFragmentParses(crc, file, pre, rest, false);
    hide Parse, Emitted, NextFragment;
  }

  // ---- the torn fragment ----

  /** The cut after `n` bytes goes through the fragment of `data` that follows `pre`, and a
      record is appended behind it. */
  predicate TornIn(crc: Checksum, file: Bytes, pre: Bytes, data: Bytes, begin: bool, n: nat, r: Bytes) {
    var next := NextFragment(crc, |pre|, data, begin);
    && Align(|pre|) < n < |pre + next|
    && file == (pre + next)[..n] + Emitted(crc, n, r, true)
  }

  lemma TornPlaces(pos: nat, left: nat, n: nat)
    requires Align(pos) < n < Align(pos) + HEADER + FragmentLength(pos, left)
    ensures BlockEnd(n) == BlockEnd(Align(pos)) && n < BlockEnd(n)
    ensures if StartsBlock(n) then Align(n) == BlockEnd(n) && FragmentLength(pos, left) < n - Align(pos) else Align(n) == n
  {
    AlignFits(pos);
    SameBlock(Align(pos), n - Align(pos), BlockEnd(Align(pos)));
  }

  /** What the reader finds where the header of the torn fragment stood: its own bytes, and
      zeros if the writer has gone on to the next block. */
  lemma TornHeaderBytes(crc: Checksum, file: Bytes, pre: Bytes, data: Bytes, begin: bool, n: nat, r: Bytes)
    requires TornIn(crc, file, pre, data, begin, n, r)
    ensures var q := Align(|pre|);
            var f := FragmentLength(|pre|, |data|);
            && q + HEADER <= n + HEADER <= |file|
            && (n >= q + 5 ==> file[q + 4] == f % 256) && (n >= q + 6 ==> file[q + 5] == f / 256) && (n >= q + HEADER ==> file[q + 6] != 0)
            && (StartsBlock(n) ==> forall i | n <= i < Align(n) :: file[i] == 0)
  {
    var q := Align(|pre|);
    var f := FragmentLength(|pre|, |data|);
    var next := NextFragment(crc, |pre|, data, begin);
    FragmentLies(crc, pre, data, begin, []);
    HeaderOf(crc, pre + next + [], q, FragmentType(begin, f == |data|), data[..f]);
    assert pre + next + [] == pre + next;
    assert forall i | q <= i < n :: file[i] == (pre + next)[i];
    StartsWithFragment(crc, [], r, true);
    PaddedFront(crc, n, r);
    hide NextFragment, Emitted, Piece;
    assert forall i | n <= i < Align(n) :: file[i] == Emitted(crc, n, r, true)[i - n];
  }

  lemma PaddedFront(crc: Checksum, n: nat, r: Bytes)
    ensures |Emitted(crc, n, r, true)| >= Align(n) - n + HEADER
    ensures forall i | 0 <= i < Align(n) - n :: Emitted(crc, n, r, true)[i] == 0
  {
    AlignFits(n);
    EmittedUnfolds(crc, n, r, true);
    hide Emitted;
    assert forall i | 0 <= i < Align(n) - n :: NextFragment(crc, n, r, true)[i] == 0;
  }

  /** The reader takes a header without type and length for zeros, and goes on behind its block. */
  lemma ZeroHeader(crc: Checksum, file: Bytes, q: nat)
    requires q + HEADER <= |file| && q % BLOCK + HEADER <= BLOCK
    ensures ParseAt(crc, file, q).physical == BadStretch([]) <==> file[q + 4] == file[q + 5] == file[q + 6] == 0
    ensures file[q + 4] == file[q + 5] == file[q + 6] == 0 ==> ParseAt(crc, file, q) == Parsed(BadStretch([]), EndOfBuffer(file, q))
  {
    hide DecodeWord, Unmask, TwoBytes, EndOfBuffer, BlockEnd;
    HeaderFits(file, q);
    NoLength(file[q + 4], file[q + 5]);
  }

  lemma HeaderFits(file: Bytes, q: nat)
    requires q + HEADER <= |file| && q % BLOCK + HEADER <= BLOCK
    ensures q + HEADER <= EndOfBuffer(file, q)
  {
  }

  lemma NoLength(low: nat, high: nat)
    ensures TwoBytes(low, high) == 0 <==> low == high == 0
  {
  }

  /** A torn header is taken for zeros, once the writer has gone on in the next block,
      exactly if nothing is left of the length or the length is zero. */
  lemma TakenForZeros(crc: Checksum, file: Bytes, pre: Bytes, data: Bytes, begin: bool, n: nat, r: Bytes)
    requires TornIn(crc, file, pre, data, begin, n, r) && StartsBlock(n)
    ensures var q := Align(|pre|);
            q + HEADER <= |file|
            && (ParseAt(crc, file, q).physical == BadStretch([]) <==> CleanBehind(|pre|, |data|, n))
            && (CleanBehind(|pre|, |data|, n) ==> ParseAt(crc, file, q) == Parsed(BadStretch([]), Align(n)))
  {
    var q := Align(|pre|);
    var f := FragmentLength(|pre|, |data|);
    TornHeaderBytes(crc, file, pre, data, begin, n, r);
    TornPlaces(|pre|, |data|, n);
    AlignFits(|pre|);
    PaddedFront(crc, n, r);
    assert |file| == n + |Emitted(crc, n, r, true)|;
    ZeroHeader(crc, file, q);
    hide TornIn, ParseAt, FragmentLength, Align, StartsBlock;
    if n >= q + 5 && n <= q + 6 { SmallLength(f); }
  }

  lemma SmallLength(f: nat)
    requires f < HEADER
    ensures f % 256 == f && f / 256 == 0
  {
  }

  /** The reader skips what it takes for zeros, and loses the record appended in that block. */
  lemma SkipsTheRecord(crc: Checksum, file: Bytes, pre: Bytes, data: Bytes, begin: bool, n: nat, r: Bytes)
    requires TornIn(crc, file, pre, data, begin, n, r) && !StartsBlock(n)
    requires Align(|pre|) + HEADER <= |file| && ParseAt(crc, file, Align(|pre|)).physical == BadStretch([])
    ensures Spoiled(ReadFrom(crc, file, |pre|, None))
  {
    var q := Align(|pre|);
    TornPlaces(|pre|, |data|, n);
    AlignFits(|pre|);
    ZeroHeader(crc, file, q);
    var front := (pre + NextFragment(crc, |pre|, data, begin))[..n];
    assert |front| == n;
    RestIsStray(crc, file, front, r);
    assert EndOfBuffer(file, q) == EndOfBuffer(file, n);
    hide ParseAt, TornIn, NextFragment, Align, EndOfBuffer, StartsBlock;
    ReadsOnAfterZeros(crc, file, |pre|, EndOfBuffer(file, q));
  }

  lemma ReadsOnAfterZeros(crc: Checksum, file: Bytes, pos: nat, next: nat)
    requires pos <= |file| && Parse(crc, file, pos) == Parsed(BadStretch([]), next)
    ensures ReadFrom(crc, file, pos, None) == ReadFrom(crc, file, next, None)
  {
    hide Parse;
    var o := ReadFrom(crc, file, next, None);
    assert [] + [] + o.reports == o.reports;
  }

  /** A torn fragment the checksum catches spoils the reading, unless it is taken for zeros
      in front of the next block. */
  lemma TornFragmentSpoils(crc: Checksum, file: Bytes, pre: Bytes, data: Bytes, n: nat, r: Bytes, scratch: Option<Bytes>)
    requires TornIn(crc, file, pre, data, scratch.None?, n, r) && TearIsCaught(crc, file, Align(|pre|), n)
    requires scratch.None? ==> !CleanBehind(|pre|, |data|, n)
    ensures Spoiled(ReadFrom(crc, file, |pre|, scratch))
  {
    var q := Align(|pre|);
    AlignFits(|pre|);
    TornHeaderBytes(crc, file, pre, data, scratch.None?, n, r);
    assert Parse(crc, file, |pre|) == ParseAt(crc, file, q) && !ParseAt(crc, file, q).physical.Fragment?;
    if scratch.None? && ParseAt(crc, file, q).physical == BadStretch([]) {
      if StartsBlock(n) {
        TakenForZeros(crc, file, pre, data, true, n, r);
      } else {
        SkipsTheRecord(crc, file, pre, data, true, n, r);
      }
    } else {
      hide Parse, ParseAt, TornIn, Align, CleanBehind;
    }
  }

  // ---- the torn record ----

  /** The fragments of `data` behind `pre` are cut after `n` bytes, and `r` is appended. */
  predicate CutInside(crc: Checksum, file: Bytes, pre: Bytes, data: Bytes, begin: bool, n: nat, r: Bytes) {
    var w := pre + Emitted(crc, |pre|, data, begin);
    |pre| <= n < |w| && file == w[..n] + Emitted(crc, n, r, true)
  }

  /** A cut behind the first fragment cuts the rest of the record. */
  lemma WholeFragment(crc: Checksum, file: Bytes, pre: Bytes, data: Bytes, begin: bool, n: nat, r: Bytes)
    requires CutInside(crc, file, pre, data, begin, n, r) && |pre + NextFragment(crc, |pre|, data, begin)| <= n
    ensures var f := FragmentLength(|pre|, |data|);
            var next := NextFragment(crc, |pre|, data, begin);
            && f < |data| && pre + next <= file
            && CutInside(crc, file, pre + next, data[f..], false, n, r)
            && FragmentLength(|pre + next|, |data| - f) > 0
  {
    hide Emitted, NextFragment, FragmentLength;
    var f := FragmentLength(|pre|, |data|);
    var next := NextFragment(crc, |pre|, data, begin);
    var w := pre + Emitted(crc, |pre|, data, begin);
    if f == |data| {
      OnlyFragment(crc, |pre|, data, begin);
      assert false;
    }
    NothingBehind(w);
    RestLies(crc, w, pre, data, begin, []);
    var rest := Emitted(crc, |pre + next|, data[f..], false);
    NothingBehind((pre + next) + rest);
    PrefixOfCut(pre + next, rest, n, Emitted(crc, n, r, true));
  }

  lemma NothingBehind(w: Bytes)
    ensures w + [] == w
  {
  }

  lemma PrefixOfCut(front: Bytes, rest: Bytes, n: nat, more: Bytes)
    requires |front| <= n <= |front + rest|
    ensures front <= (front + rest)[..n] + more
  {
  }

  lemma CutIsLater(pos: nat, left: nat, n: nat, next: nat)
    requires FragmentLength(pos, left) < left && next == Align(pos) + HEADER + FragmentLength(pos, left) <= n
    ensures CutFragment(pos, left, n) == CutFragment(next, left - FragmentLength(pos, left), n)
  {
  }

  lemma PartOfFragment(crc: Checksum, file: Bytes, pre: Bytes, data: Bytes, begin: bool, n: nat, r: Bytes)
    requires CutInside(crc, file, pre, data, begin, n, r) && n < |pre + NextFragment(crc, |pre|, data, begin)|
    ensures Align(|pre|) < n ==> TornIn(crc, file, pre, data, begin, n, r)
    ensures n <= Align(|pre|) ==> file == pre + Emitted(crc, |pre|, r, true)
    ensures CutFragment(|pre|, |data|, n) == Align(|pre|)
  {
    var next := NextFragment(crc, |pre|, data, begin);
    var w := pre + Emitted(crc, |pre|, data, begin);
    StartsWithFragment(crc, pre, data, begin);
    assert pre + next <= w;
    assert w[..n] == (pre + next)[..n];
    if n <= Align(|pre|) {
      assert (pre + next)[..n] == pre + Zeros(n - |pre|);
      PaddingJoins(crc, |pre|, n, r);
      hide Emitted, NextFragment;
      Associate(pre, Zeros(n - |pre|), Emitted(crc, n, r, true));
    }
  }

  /** An empty beginning in the last bytes of a block is the only one a new record may
      follow. */
  lemma NothingYet(pos: nat, left: nat, n: nat)
    requires FragmentLength(pos, left) == 0 < left && !CleanBehind(pos, left, n)
    requires Align(pos) + HEADER <= n
    ensures n > Align(Align(pos) + HEADER)
  {
    AlignFits(pos);
    assert (Align(pos) + HEADER) % BLOCK == 0;
  }

  /** A record torn behind its beginning spoils the reading of what is appended. */
  lemma {:induction false} TornRecordSpoils(crc: Checksum, file: Bytes, pre: Bytes, data: Bytes, n: nat, r: Bytes, scratch: Option<Bytes>)
    requires CutInside(crc, file, pre, data, scratch.None?, n, r)
    requires TearIsCaught(crc, file, CutFragment(|pre|, |data|, n), n)
    requires if scratch.None? then !CleanBehind(|pre|, |data|, n)
             else FragmentLength(|pre|, |data|) > 0 && (|scratch.value| > 0 || n > Align(|pre|))
    ensures Spoiled(ReadFrom(crc, file, |pre|, scratch))
    decreases |data|, if FragmentLength(|pre|, |data|) == 0 then 1 else 0
  {
    hide *;
    var begin := scratch.None?;
    var f := FragmentLength(|pre|, |data|);
    var next := NextFragment(crc, |pre|, data, begin);
    if |pre + next| <= n {
      WholeFragment(crc, file, pre, data, begin, n, r);
      LeadingFragmentParses(crc, file, pre, data, begin);
      assert |pre + next| == |pre| + |next| == Align(|pre|) + HEADER + f;
      CutIsLater(|pre|, |data|, n, |pre + next|);
      InnerFragmentReads(crc, file, |pre|, scratch, data[..f], |pre + next|);
      OrEmptyOf(if begin then [] else scratch.value);
      if f == 0 { NothingYet(|pre|, |data|, n); }
      TornRecordSpoils(crc, file, pre + next, data[f..], n, r, Some(OrEmpty(scratch) + data[..f]));
    } else {
      PartOfFragment(crc, file, pre, data, begin, n, r);
      if Align(|pre|) < n {
        TornFragmentSpoils(crc, file, pre, data, n, r, scratch);
      } else {
        NoneLeftIsClean(|pre|, |data|, n);
        StartEndsUnfinished(crc, file, pre, r, scratch.value);
        SpoiledByReport(ReadFrom(crc, file, |pre|, scratch));
      }
    }
  }

  lemma NoneLeftIsClean(pos: nat, left: nat, n: nat)
    requires n <= Align(pos)
    ensures CleanBehind(pos, left, n)
  {
  }

  lemma SpoiledByReport(o: Outcome)
    requires o.reports != []
    ensures Spoiled(o)
  {
  }

  // ---- whole logs ----

  lemma {:induction false} CompleteMeans(crc: Checksum, records: seq<Bytes>, i: nat, n: nat)
    requires i <= |records| && |Written(crc, records[..i])| <= n
    ensures var k := Complete(crc, records, i, n);
            |Written(crc, records[..k])| <= n && (k < |records| ==> n < |Written(crc, records[..k + 1])|)
    decreases |records| - i
  {
    hide *;
    CompleteUnfolds(crc, records, i, n);
    if i < |records| && |Written(crc, records[..i + 1])| <= n { CompleteMeans(crc, records, i + 1, n); }
  }

  /** The cut goes through the first record that is not complete. */
  lemma CutPlace(crc: Checksum, records: seq<Bytes>, n: nat, r: Bytes)
    requires n <= |Written(crc, records)|
    ensures var k := Complete(crc, records, 0, n);
            var file := Reused(crc, records, n, r);
            var pre := Written(crc, records[..k]);
            && |pre| <= n && pre <= file
            && (k == |records| ==> n == |pre|)
            && (k < |records| ==> CutInside(crc, file, pre, records[k], true, n, r))
  {
    hide Written, Emitted, Complete;
    var k := Complete(crc, records, 0, n);
    NothingWrittenYet(crc, records);
    CompleteMeans(crc, records, 0, n);
    var pre, more := Written(crc, records[..k]), Emitted(crc, n, r, true);
    if k < |records| {
      WrittenSplits(crc, records, k);
      CutOfPrefix(Written(crc, records[..k + 1]), Written(crc, records), n);
      PrefixOfCut(pre, Emitted(crc, |pre|, records[k], true), n, more);
    } else {
      assert records[..k] == records;
      NothingBehind(pre);
      PrefixOfCut(pre, [], n, more);
    }
  }

  lemma NothingWrittenYet(crc: Checksum, records: seq<Bytes>)
    ensures Written(crc, records[..0]) == []
  {
  }

  lemma CutOfPrefix(part: Bytes, whole: Bytes, n: nat)
    requires part <= whole && n <= |part|
    ensures part[..n] == whole[..n]
  {
  }

  lemma FrontReads(crc: Checksum, records: seq<Bytes>, n: nat, r: Bytes)
    requires n <= |Written(crc, records)|
    ensures var k := Complete(crc, records, 0, n);
            var file := Reused(crc, records, n, r);
            |Written(crc, records[..k])| <= |file|
            && ReadAllFrom(crc, file, 0) == Behind(records[..k], [], ReadAllFrom(crc, file, |Written(crc, records[..k])|))
  {
    var front := records[..Complete(crc, records, 0, n)];
    assert front[..0] == [] && |Written(crc, [])| == 0;
    hide *;
    CutPlace(crc, records, n, r);
    LeadingRecordsRead(crc, Reused(crc, records, n, r), front, 0);
    assert front[0..] == front;
  }

  lemma OneBehind(front: seq<Bytes>, r: Bytes, rest: AllRead)
    ensures Behind(front, [], rest) == AllRead(front + [r], []) <==> rest == AllRead([r], [])
  {
    assert [] + rest.reports == rest.reports;
    if front + rest.records == front + [r] {
      assert rest.records == (front + rest.records)[|front|..] == (front + [r])[|front|..] == [r];
    }
  }

  lemma CleanCutMeans(crc: Checksum, records: seq<Bytes>, n: nat)
    ensures var k := Complete(crc, records, 0, n);
            CleanCut(crc, records, n) <==> k == |records| || CleanBehind(|Written(crc, records[..k])|, |records[k]|, n)
  {
    hide Complete, Written, CleanBehind;
  }

  lemma CaughtMeans(crc: Checksum, records: seq<Bytes>, n: nat, r: Bytes)
    requires n <= |Written(crc, records)| && TornEndIsCaught(crc, records, n, r)
    ensures var k := Complete(crc, records, 0, n);
            var file := Reused(crc, records, n, r);
            k < |records| ==> TearIsCaught(crc, file, CutFragment(|Written(crc, records[..k])|, |records[k]|, n), n)
  {
    hide Complete, Written, Reused, CutFragment, TearIsCaught;
  }

  /** Appending behind a record whose end is missing loses it or is reported as corruption. */
  lemma AppendIsLost(crc: Checksum, records: seq<Bytes>, n: nat, r: Bytes)
    requires n <= |Written(crc, records)| && !CleanCut(crc, records, n)
    requires TornEndIsCaught(crc, records, n, r)
    ensures ReadAllFrom(crc, Reused(crc, records, n, r), 0) != AllRead(records[..Complete(crc, records, 0, n)] + [r], [])
  {
    hide *;
    var k := Complete(crc, records, 0, n);
    var pre := Written(crc, records[..k]);
    var file := Reused(crc, records, n, r);
    CleanCutMeans(crc, records, n);
    CaughtMeans(crc, records, n, r);
    CutPlace(crc, records, n, r);
    TornRecordSpoils(crc, file, pre, records[k], n, r, None);
    SpoiledForAll(crc, file, |pre|, r);
    FrontReads(crc, records, n, r);
    OneBehind(records[..k], r, ReadAllFrom(crc, file, |pre|));
  }

  /** What is appended behind the front of the record is all that can be read. */
  lemma CleanTearReads(crc: Checksum, file: Bytes, pre: Bytes, data: Bytes, n: nat, r: Bytes)
    requires CutInside(crc, file, pre, data, true, n, r) && CleanBehind(|pre|, |data|, n)
    ensures ReadFrom(crc, file, |pre|, None) == Outcome(Some(r), |file|, [])
  {
    var next := NextFragment(crc, |pre|, data, true);
    assert |pre + next| == |pre| + |next| == Align(|pre|) + HEADER + FragmentLength(|pre|, |data|);
    var padded := n <= Align(|pre|);
    assert !padded ==> StartsBlock(n) && n <= Align(|pre|) + HEADER && (n < |pre + next| || FragmentLength(|pre|, |data|) == 0);
    hide *;
    if |pre + next| <= n {
      WholeFragment(crc, file, pre, data, true, n, r);
      LeadingFragmentParses(crc, file, pre, data, true);
      InnerFragmentReads(crc, file, |pre|, None, data[..0], n);
      OrEmptyOf([]);
      assert file == (pre + next) + Emitted(crc, n, r, true) by { CutAtEnd(crc, file, pre, data, n, r); }
      assert [] + data[..0] == [];
      StartAfterNothing(crc, file, pre + next, r);
    } else {
      PartOfFragment(crc, file, pre, data, true, n, r);
      if padded {
        LeadingRecordReads(crc, file, pre, r);
      } else {
        ZerosThenRecord(crc, file, pre, data, n, r);
      }
    }
  }

  lemma CutAtEnd(crc: Checksum, file: Bytes, pre: Bytes, data: Bytes, n: nat, r: Bytes)
    requires CutInside(crc, file, pre, data, true, n, r) && n == |pre + NextFragment(crc, |pre|, data, true)|
    ensures file == (pre + NextFragment(crc, |pre|, data, true)) + Emitted(crc, n, r, true)
  {
    var w := pre + Emitted(crc, |pre|, data, true);
    StartsWithFragment(crc, pre, data, true);
    hide Emitted, NextFragment;
    assert w[..n] == pre + NextFragment(crc, |pre|, data, true);
  }

  lemma ZerosThenRecord(crc: Checksum, file: Bytes, pre: Bytes, data: Bytes, n: nat, r: Bytes)
    requires TornIn(crc, file, pre, data, true, n, r) && CleanBehind(|pre|, |data|, n) && Align(|pre|) < n && StartsBlock(n)
    ensures ReadFrom(crc, file, |pre|, None) == Outcome(Some(r), |file|, [])
  {
    var q := Align(|pre|);
    var front := (pre + NextFragment(crc, |pre|, data, true))[..n];
    AlignFits(n);
    var padded := front + Zeros(Align(n) - n);
    TakenForZeros(crc, file, pre, data, true, n, r);
    assert ParseAt(crc, file, q) == Parsed(BadStretch([]), Align(n)) && file == front + Emitted(crc, n, r, true);
    assert Parse(crc, file, |pre|) == ParseAt(crc, file, q);
    assert |padded| == Align(n);
    hide *;
    ReadsOnAfterZeros(crc, file, |pre|, Align(n));
    PaddingSplits(crc, n, r);
    Associate(front, Zeros(Align(n) - n), Emitted(crc, Align(n), r, true));
    assert file == padded + Emitted(crc, |padded|, r, true);
    LeadingRecordReads(crc, file, padded, r);
  }

  lemma PaddingSplits(crc: Checksum, n: nat, r: Bytes)
    ensures n <= Align(n) && Emitted(crc, n, r, true) == Zeros(Align(n) - n) + Emitted(crc, Align(n), r, true)
  {
    AlignFits(n);
    PaddingJoins(crc, n, Align(n), r);
  }

  lemma NothingTorn(crc: Checksum, records: seq<Bytes>, n: nat, r: Bytes)
    requires n == |Written(crc, records)|
    ensures var pre := Written(crc, records[..|records|]);
            Reused(crc, records, n, r) == pre + Emitted(crc, |pre|, r, true)
  {
    hide Written, Emitted;
    assert records[..|records|] == records;
    assert Written(crc, records)[..n] == Written(crc, records);
  }

  /** Appending behind a clean cut costs nothing but the torn record. */
  lemma AppendIsRead(crc: Checksum, records: seq<Bytes>, n: nat, r: Bytes)
    requires n <= |Written(crc, records)| && CleanCut(crc, records, n)
    ensures ReadAllFrom(crc, Reused(crc, records, n, r), 0) == AllRead(records[..Complete(crc, records, 0, n)] + [r], [])
  {
    hide *;
    var k := Complete(crc, records, 0, n);
    var pre := Written(crc, records[..k]);
    var file := Reused(crc, records, n, r);
    CutPlace(crc, records, n, r);
    if k == |records| {
      assert records[..k] == records;
      NothingTorn(crc, records, n, r);
      LeadingRecordReads(crc, file, pre, r);
    } else {
      CleanCutMeans(crc, records, n);
      CleanTearReads(crc, file, pre, records[k], n, r);
    }
    FrontReads(crc, records, n, r);
    ReadsOneMore(crc, file, |pre|, r, |file|);
    assert file[..|file|] == file;
    EndReads(crc, file, |file|);
    BehindOne(r, []);
    assert [r] + [] == [r];
    OneBehind(records[..k], r, ReadAllFrom(crc, file, |pre|));
  }

  /** A record appended to a log cut off after any number of bytes is read back, behind the
      records complete in front of it and without a report, if and only if the cut is clean.
      That a tear spoils the log rests on the checksum; that a clean cut does not, does not. */
  lemma ReuseKeepsTheLog(crc: Checksum, records: seq<Bytes>, n: nat, r: Bytes)
    requires n <= |Written(crc, records)|
    ensures CleanCut(crc, records, n) ==>
              ReadAllFrom(crc, Reused(crc, records, n, r), 0) == AllRead(records[..Complete(crc, records, 0, n)] + [r], [])
    ensures TornEndIsCaught(crc, records, n, r) ==>
              (ReadAllFrom(crc, Reused(crc, records, n, r), 0) == AllRead(records[..Complete(crc, records, 0, n)] + [r], [])
               <==> CleanCut(crc, records, n))
  {
    hide *;
    if CleanCut(crc, records, n) {
      AppendIsRead(crc, records, n, r);
    } else if TornEndIsCaught(crc, records, n, r) {
      AppendIsLost(crc, records, n, r);
    }
  }

  // ---- a tear that must not be reused ----

  /** The first byte of the appended fragment, which the torn header takes for its payload. */
  function Mistaken(crc: Checksum, b: Byte): Byte {
    Piece(crc, FULL, [b])[0]
  }

  lemma ShortRecord(crc: Checksum, pos: nat, a: Byte)
    requires pos + HEADER < BLOCK
    ensures Emitted(crc, pos, [a], true) == Piece(crc, FULL, [a])
  {
    assert FragmentLength(pos, 1) == 1 && Align(pos) == pos;
    OnlyFragment(crc, pos, [a], true);
    assert [a][..1] == [a] && Zeros(0) == [];
  }

  lemma ShortLog(crc: Checksum, a: Byte)
    ensures Written(crc, [[a]]) == Piece(crc, FULL, [a]) && Complete(crc, [[a]], 0, HEADER) == 0
    ensures !CleanCut(crc, [[a]], HEADER)
  {
    var none: seq<Bytes> := [];
    assert [[a]][..0] == none && [[a]][..1] == [[a]] && Written(crc, none) == [];
    ShortRecord(crc, 0, a);
    LastWritten(crc, [[a]]);
    assert [] + Piece(crc, FULL, [a]) == Piece(crc, FULL, [a]);
    hide Written, Emitted, Piece;
    CompleteUnfolds(crc, [[a]], 0, HEADER);
  }

  lemma TornHeaderParses(crc: Checksum, file: Bytes, a: Byte, b: Byte)
    requires file == Piece(crc, FULL, [a])[..HEADER] + Piece(crc, FULL, [b])
    requires crc(FULL, [a]) != crc(FULL, [Mistaken(crc, b)])
    ensures Parse(crc, file, 0) == Parsed(BadStretch([|file|]), |file|)
  {
    var header := Piece(crc, FULL, [a]);
    HeaderBytes(crc, FULL, [a]);
    assert file[0..4] == header[..4];
    assert file[4] == header[4] && file[5] == header[5] && file[6] == header[6];
    assert file[7..8] == [Mistaken(crc, b)];
    UnmaskUndoesMask(crc(FULL, [a]));
    assert EndOfBuffer(file, 0) == |file| == 15;
    hide Piece, Mask, Unmask, DecodeWord, TwoBytes;
  }

  /** A record of one byte, cut right behind its header: the source reuses the log all the
      same, and the record appended to it is lost. */
  lemma TornLogMustNotBeReused(crc: Checksum, a: Byte, b: Byte)
    requires crc(FULL, [a]) != crc(FULL, [Mistaken(crc, b)])
    ensures HEADER <= |Written(crc, [[a]])| && !CleanCut(crc, [[a]], HEADER)
    ensures ReadAllFrom(crc, Reused(crc, [[a]], HEADER, [b]), 0) == AllRead([], [15])
  {
    ShortLog(crc, a);
    ShortRecord(crc, HEADER, b);
    var file := Reused(crc, [[a]], HEADER, [b]);
    assert file == Piece(crc, FULL, [a])[..HEADER] + Piece(crc, FULL, [b]);
    TornHeaderParses(crc, file, a, b);
    assert Parse(crc, file, |file|) == Parsed(Eof, |file|) by { AlignFits(|file|); }
    assert |file| == 15;
    hide Parse, Written, Emitted, Piece, CleanCut, Reused;
    EndOfFileReads(crc, file, |file|, None);
    assert ReadFrom(crc, file, 0, None) == Outcome(None, |file|, [|file|]);
    ReadsNoMore(crc, file, 0, [|file|]);
  }
}
