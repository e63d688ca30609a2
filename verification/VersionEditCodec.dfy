/** Version edits as manifest records (db/version_edit.cc): the encoding, and the decoder with
    its error cases.  Internal keys appear in their encoded form. */
module VersionEditCodec {
  import opened DbFormat
  import opened Entries
  import opened Coding

  datatype FileMeta = FileMeta(number: nat, size: nat, smallest: Bytes, largest: Bytes)

  /** What an edit says; the deleted files are an ordered set of (level, number). */
  datatype Edit = Edit(
    comparator: Option<Bytes>, logNumber: Option<nat>, prevLogNumber: Option<nat>, nextFile: Option<nat>, lastSequence: Option<nat>,
    compactPointers: seq<(nat, Bytes)>, deleted: seq<(nat, nat)>, newFiles: seq<(nat, FileMeta)>)

  const EMPTY_EDIT := Edit(None, None, None, None, None, [], [], [])

  const COMPARATOR: nat := 1
  const LOG_NUMBER: nat := 2
  const NEXT_FILE: nat := 3
  const LAST_SEQUENCE: nat := 4
  const COMPACT_POINTER: nat := 5
  const DELETED_FILE: nat := 6
  const NEW_FILE: nat := 7
  const PREV_LOG_NUMBER: nat := 9

  predicate Less(a: (nat, nat), b: (nat, nat)) {
    a.0 < b.0 || (a.0 == b.0 && a.1 < b.1)
  }

  predicate Ordered(s: seq<(nat, nat)>) {
    forall i, j | 0 <= i < j < |s| :: Less(s[i], s[j])
  }

  /** Insertion into the ordered set. */
  function Insert(s: seq<(nat, nat)>, x: (nat, nat)): (r: seq<(nat, nat)>)
    requires Ordered(s)
    ensures Ordered(r) && forall y :: y in r <==> y in s || y == x
  {
    if |s| == 0 then [x]
    else if x == s[0] then s
    else if Less(x, s[0]) then [x] + s
    else
      var rest := Insert(s[1..], x);
      assert s == [s[0]] + s[1..] && forall j | 0 <= j < |rest| :: rest[j] in rest;
      [s[0]] + rest
  }

  lemma {:induction false} InsertLast(s: seq<(nat, nat)>, x: (nat, nat))
    requires Ordered(s) && forall i | 0 <= i < |s| :: Less(s[i], x)
    ensures Insert(s, x) == s + [x]
  {
    if |s| > 0 {
      InsertLast(s[1..], x);
      assert s == [s[0]] + s[1..];
    }
  }

  // ---- encoding ----

  function EncComparator(c: Option<Bytes>): Bytes {
    if c.Some? then EncodeVarint(COMPARATOR) + LengthPrefixed(c.value) else []
  }

  function EncNumber(tag: nat, n: Option<nat>): Bytes {
    if n.Some? then EncodeVarint(tag) + EncodeVarint(n.value) else []
  }

  function EncPointer(p: (nat, Bytes)): Bytes {
    EncodeVarint(COMPACT_POINTER) + (EncodeVarint(p.0) + LengthPrefixed(p.1))
  }

  function EncDeleted(d: (nat, nat)): Bytes {
    EncodeVarint(DELETED_FILE) + (EncodeVarint(d.0) + EncodeVarint(d.1))
  }

  function EncFile(f: FileMeta): Bytes {
    EncodeVarint(f.number) + (EncodeVarint(f.size) + (LengthPrefixed(f.smallest) + LengthPrefixed(f.largest)))
  }

  function EncNewFile(a: (nat, FileMeta)): Bytes {
    EncodeVarint(NEW_FILE) + (EncodeVarint(a.0) + EncFile(a.1))
  }

  function EncPointers(ps: seq<(nat, Bytes)>): Bytes {
    if |ps| == 0 then [] else EncPointer(ps[0]) + EncPointers(ps[1..])
  }

  function EncDeletedAll(ds: seq<(nat, nat)>): Bytes {
    if |ds| == 0 then [] else EncDeleted(ds[0]) + EncDeletedAll(ds[1..])
  }

  function EncNewFiles(fs: seq<(nat, FileMeta)>): Bytes {
    if |fs| == 0 then [] else EncNewFile(fs[0]) + EncNewFiles(fs[1..])
  }

  /** The record of an edit. */
  function Encode(e: Edit): Bytes {
    EncComparator(e.comparator) + (EncNumber(LOG_NUMBER, e.logNumber) + (EncNumber(PREV_LOG_NUMBER, e.prevLogNumber)
    + (EncNumber(NEXT_FILE, e.nextFile) + (EncNumber(LAST_SEQUENCE, e.lastSequence)
    + (EncPointers(e.compactPointers) + (EncDeletedAll(e.deleted) + EncNewFiles(e.newFiles)))))))
  }

  // ---- decoding ----

  datatype Parsed<T> = NotParsed | Parsed(value: T, rest: Bytes)

  function GetNumber(input: Bytes): (r: Parsed<nat>)
    ensures r.Parsed? ==> |r.rest| < |input|
  {
    match GetVarint64(input) case Bad => NotParsed case Got(v, rest) => Parsed(v, rest)
  }

  function GetSlice(input: Bytes): (r: Parsed<Bytes>)
    ensures r.Parsed? ==> |r.rest| < |input|
  {
    match GetLengthPrefixed(input) case NoSlice => NotParsed case GotSlice(s, rest) => Parsed(s, rest)
  }

  function GetLevel(input: Bytes): (r: Parsed<nat>)
    ensures r.Parsed? ==> |r.rest| < |input| && r.value < NUM_LEVELS
  {
    match GetVarint32(input) case Bad => NotParsed case Got(v, rest) => if v < NUM_LEVELS then Parsed(v, rest) else NotParsed
  }

  function GetFile(input: Bytes): (r: Parsed<FileMeta>)
    ensures r.Parsed? ==> |r.rest| < |input|
  {
    var n := GetNumber(input);
    if n.NotParsed? then NotParsed
    else
      var size := GetNumber(n.rest);
      if size.NotParsed? then NotParsed
      else
        var smallest := GetSlice(size.rest);
        if smallest.NotParsed? then NotParsed
        else
          var largest := GetSlice(smallest.rest);
          if largest.NotParsed? then NotParsed
          else Parsed(FileMeta(n.value, size.value, smallest.value, largest.value), largest.rest)
  }

  /** One field behind its tag. */
  function DecField(tag: nat, input: Bytes, e: Edit): (r: Parsed<Edit>)
    requires Ordered(e.deleted)
    ensures r.Parsed? ==> |r.rest| < |input| && Ordered(r.value.deleted)
  {
    if tag == COMPARATOR then
      var s := GetSlice(input);
      if s.NotParsed? then NotParsed else Parsed(e.(comparator := Some(s.value)), s.rest)
    else if tag == LOG_NUMBER || tag == PREV_LOG_NUMBER || tag == NEXT_FILE || tag == LAST_SEQUENCE then
      var n := GetNumber(input);
      if n.NotParsed? then NotParsed else Parsed(WithNumber(tag, n.value, e), n.rest)
    else if tag == COMPACT_POINTER then
      var l := GetLevel(input);
      if l.NotParsed? then NotParsed
      else
        var k := GetSlice(l.rest);
        if k.NotParsed? then NotParsed else Parsed(e.(compactPointers := e.compactPointers + [(l.value, k.value)]), k.rest)
    else if tag == DELETED_FILE then
      var l := GetLevel(input);
      if l.NotParsed? then NotParsed
      else
        var n := GetNumber(l.rest);
        if n.NotParsed? then NotParsed else Parsed(e.(deleted := Insert(e.deleted, (l.value, n.value))), n.rest)
    else if tag == NEW_FILE then
      var l := GetLevel(input);
      if l.NotParsed? then NotParsed
      else
        var f := GetFile(l.rest);
        if f.NotParsed? then NotParsed else Parsed(e.(newFiles := e.newFiles + [(l.value, f.value)]), f.rest)
    else NotParsed
  }

  function WithNumber(tag: nat, n: nat, e: Edit): (r: Edit)
    ensures r.deleted == e.deleted
  {
    if tag == LOG_NUMBER then e.(logNumber := Some(n))
    else if tag == PREV_LOG_NUMBER then e.(prevLogNumber := Some(n))
    else if tag == NEXT_FILE then e.(nextFile := Some(n))
    else e.(lastSequence := Some(n))
  }

  /** DecodeFrom, going on with `e`: None stands for a corruption status. */
  function Decode(input: Bytes, e: Edit): (r: Option<Edit>)
    requires Ordered(e.deleted)
    ensures r.Some? ==> Ordered(r.value.deleted)
    decreases |input|
  {
    match DecodeTag(input)
    case Bad => if |input| == 0 then Some(e) else None
    case Got(tag, rest) =>
      var next := DecField(tag, rest, e);
      if next.NotParsed? then None else Decode(next.rest, next.value)
  }

  function DecodeTag(input: Bytes): (r: Decoded)
    ensures r.Got? ==> |r.rest| < |input|
  {
    match DecodeVarint(input, 5) case Bad => Bad case Got(v, rest) => Got(v % TWO32, rest)
  }

  // ---- round trip ----

  lemma NumberReads(n: nat, rest: Bytes)
    requires n < TWO64
    ensures GetNumber(EncodeVarint(n) + rest) == Parsed(n, rest)
  {
    Varint64RoundTrip(n, rest);
    hide EncodeVarint, GetVarint64;
  }

  lemma SliceReads(s: Bytes, rest: Bytes)
    requires |s| < TWO32
    ensures GetSlice(LengthPrefixed(s) + rest) == Parsed(s, rest)
  {
    SliceRoundTrip(s, rest);
    hide LengthPrefixed, GetLengthPrefixed;
  }

  lemma LevelReads(l: nat, rest: Bytes)
    requires l < NUM_LEVELS
    ensures GetLevel(EncodeVarint(l) + rest) == Parsed(l, rest)
  {
    Varint32RoundTrip(l, rest);
    hide EncodeVarint, GetVarint32;
  }

  lemma TagReads(tag: nat, rest: Bytes, e: Edit)
    requires tag < 128 && Ordered(e.deleted)
    ensures Decode(EncodeVarint(tag) + rest, e) ==
      match DecField(tag, rest, e) case NotParsed => None case Parsed(e', rest') => Decode(rest', e')
  {
    Varint32RoundTrip(tag, rest);
    assert DecodeTag(EncodeVarint(tag) + rest) == GetVarint32(EncodeVarint(tag) + rest);
    hide EncodeVarint, GetVarint32, DecodeTag, DecField;
  }

  predicate FileOk(f: FileMeta) {
    f.number < TWO64 && f.size < TWO64 && |f.smallest| < TWO32 && |f.largest| < TWO32
  }

  /** Numbers and lengths fit the widths of the format. */
  predicate EditOk(e: Edit) {
    && (e.comparator.Some? ==> |e.comparator.value| < TWO32)
    && (forall n | n in {e.logNumber, e.prevLogNumber, e.nextFile, e.lastSequence} && n.Some? :: n.value < TWO64)
    && (forall i | 0 <= i < |e.compactPointers| :: e.compactPointers[i].0 < NUM_LEVELS && |e.compactPointers[i].1| < TWO32)
    && Ordered(e.deleted) && (forall i | 0 <= i < |e.deleted| :: e.deleted[i].0 < NUM_LEVELS && e.deleted[i].1 < TWO64)
    && (forall i | 0 <= i < |e.newFiles| :: e.newFiles[i].0 < NUM_LEVELS && FileOk(e.newFiles[i].1))
  }

  lemma FileReads(f: FileMeta, rest: Bytes)
    requires FileOk(f)
    ensures GetFile(EncFile(f) + rest) == Parsed(f, rest)
  {
    var a, b, c, d := EncodeVarint(f.number), EncodeVarint(f.size), LengthPrefixed(f.smallest), LengthPrefixed(f.largest);
    Associate(a, b + (c + d), rest);
    Associate(b, c + d, rest);
    Associate(c, d, rest);
    NumberReads(f.number, b + (c + (d + rest)));
    NumberReads(f.size, c + (d + rest));
    SliceReads(f.smallest, d + rest);
    SliceReads(f.largest, rest);
    hide EncodeVarint, LengthPrefixed, GetNumber, GetSlice;
  }

  lemma ComparatorReads(c: Option<Bytes>, rest: Bytes, e: Edit)
    requires Ordered(e.deleted) && (c.Some? ==> |c.value| < TWO32)
    ensures Decode(EncComparator(c) + rest, e) == Decode(rest, if c.Some? then e.(comparator := c) else e)
  {
    if c.Some? {
      Associate(EncodeVarint(COMPARATOR), LengthPrefixed(c.value), rest);
      TagReads(COMPARATOR, LengthPrefixed(c.value) + rest, e);
      SliceReads(c.value, rest);
      hide EncodeVarint, LengthPrefixed, GetSlice, Decode;
    } else {
      assert [] + rest == rest;
    }
  }

  lemma NumberFieldReads(tag: nat, n: Option<nat>, rest: Bytes, e: Edit)
    requires Ordered(e.deleted) && (n.Some? ==> n.value < TWO64)
    requires tag == LOG_NUMBER || tag == PREV_LOG_NUMBER || tag == NEXT_FILE || tag == LAST_SEQUENCE
    ensures Decode(EncNumber(tag, n) + rest, e) == Decode(rest, if n.Some? then WithNumber(tag, n.value, e) else e)
  {
    if n.Some? {
      Associate(EncodeVarint(tag), EncodeVarint(n.value), rest);
      TagReads(tag, EncodeVarint(n.value) + rest, e);
      NumberReads(n.value, rest);
      hide EncodeVarint, GetNumber, Decode;
    } else {
      assert [] + rest == rest;
    }
  }

  lemma PointerReads(p: (nat, Bytes), rest: Bytes, e: Edit)
    requires Ordered(e.deleted) && p.0 < NUM_LEVELS && |p.1| < TWO32
    ensures Decode(EncPointer(p) + rest, e) == Decode(rest, e.(compactPointers := e.compactPointers + [p]))
  {
    var a, b, c := EncodeVarint(COMPACT_POINTER), EncodeVarint(p.0), LengthPrefixed(p.1);
    LevelReads(p.0, c + rest);
    SliceReads(p.1, rest);
    assert DecField(COMPACT_POINTER, b + (c + rest), e) == Parsed(e.(compactPointers := e.compactPointers + [p]), rest) by {
      hide EncodeVarint, LengthPrefixed, GetLevel, GetSlice;
    }
    assert COMPACT_POINTER < 128 && EncPointer(p) == a + (b + c);
    hide *;
    Associate(a, b + c, rest);
    Associate(b, c, rest);
    TagReads(COMPACT_POINTER, b + (c + rest), e);
  }

  lemma DeletedReads(d: (nat, nat), rest: Bytes, e: Edit)
    requires Ordered(e.deleted) && d.0 < NUM_LEVELS && d.1 < TWO64
    ensures Decode(EncDeleted(d) + rest, e) == Decode(rest, e.(deleted := Insert(e.deleted, d)))
  {
    var a, b, c := EncodeVarint(DELETED_FILE), EncodeVarint(d.0), EncodeVarint(d.1);
    Associate(a, b + c, rest);
    Associate(b, c, rest);
    TagReads(DELETED_FILE, b + (c + rest), e);
    LevelReads(d.0, c + rest);
    NumberReads(d.1, rest);
    hide EncodeVarint, GetLevel, GetNumber, Decode;
  }

  lemma NewFileReads(a: (nat, FileMeta), rest: Bytes, e: Edit)
    requires Ordered(e.deleted) && a.0 < NUM_LEVELS && FileOk(a.1)
    ensures Decode(EncNewFile(a) + rest, e) == Decode(rest, e.(newFiles := e.newFiles + [a]))
  {
    hide EncodeVarint, Decode;
    var t, l, f := EncodeVarint(NEW_FILE), EncodeVarint(a.0), EncFile(a.1);
    LevelReads(a.0, f + rest);
    FileReads(a.1, rest);
    assert DecField(NEW_FILE, l + (f + rest), e) == Parsed(e.(newFiles := e.newFiles + [a]), rest) by {
      hide EncodeVarint, EncFile, GetLevel, GetFile;
    }
    assert NEW_FILE < 128 && EncNewFile(a) == t + (l + f);
    hide *;
    Associate(t, l + f, rest);
    Associate(l, f, rest);
    TagReads(NEW_FILE, l + (f + rest), e);
  }

  lemma OneByOne<T>(s: seq<T>, more: seq<T>)
    requires |more| > 0
    ensures (s + [more[0]]) + more[1..] == s + more
  {
  }

  lemma NoBytes(rest: Bytes)
    ensures [] + rest == rest
  {
  }

  lemma {:induction false} PointersRead(ps: seq<(nat, Bytes)>, rest: Bytes, e: Edit)
    requires Ordered(e.deleted) && forall i | 0 <= i < |ps| :: ps[i].0 < NUM_LEVELS && |ps[i].1| < TWO32
    ensures Decode(EncPointers(ps) + rest, e) == Decode(rest, e.(compactPointers := e.compactPointers + ps))
    decreases |ps|
  {
    if |ps| == 0 {
      assert EncPointers(ps) == [] && e.compactPointers + [] == e.compactPointers;
      NoBytes(rest);
      hide *;
      assert e.(compactPointers := e.compactPointers + ps) == e;
    } else {
      assert EncPointers(ps) == EncPointer(ps[0]) + EncPointers(ps[1..]);
      hide EncPointer, Decode, EncPointers;
      Associate(EncPointer(ps[0]), EncPointers(ps[1..]), rest);
      PointerReads(ps[0], EncPointers(ps[1..]) + rest, e);
      PointersRead(ps[1..], rest, e.(compactPointers := e.compactPointers + [ps[0]]));
      OneByOne(e.compactPointers, ps);
    }
  }

  lemma {:induction false} DeletedAllRead(ds: seq<(nat, nat)>, rest: Bytes, e: Edit)
    requires Ordered(e.deleted + ds) && forall i | 0 <= i < |ds| :: ds[i].0 < NUM_LEVELS && ds[i].1 < TWO64
    ensures Ordered(e.deleted) && Decode(EncDeletedAll(ds) + rest, e) == Decode(rest, e.(deleted := e.deleted + ds))
    decreases |ds|
  {
    OrderedPrefix(e.deleted, ds);
    if |ds| == 0 {
      assert EncDeletedAll(ds) == [] && e.deleted + [] == e.deleted;
      NoBytes(rest);
      hide *;
      assert e.(deleted := e.deleted + ds) == e;
    } else {
      assert EncDeletedAll(ds) == EncDeleted(ds[0]) + EncDeletedAll(ds[1..]);
      hide EncDeleted, Decode, Insert, EncDeletedAll;
      Associate(EncDeleted(ds[0]), EncDeletedAll(ds[1..]), rest);
      DeletedReads(ds[0], EncDeletedAll(ds[1..]) + rest, e);
      InsertLast(e.deleted, ds[0]);
      OneByOne(e.deleted, ds);
      DeletedAllRead(ds[1..], rest, e.(deleted := e.deleted + [ds[0]]));
    }
  }

  lemma OrderedPrefix(a: seq<(nat, nat)>, b: seq<(nat, nat)>)
    requires Ordered(a + b)
    ensures Ordered(a) && (|b| > 0 ==> forall i | 0 <= i < |a| :: Less(a[i], b[0]))
  {
    var s := a + b;
    assert forall i | 0 <= i < |a| :: s[i] == a[i];
    assert |b| > 0 ==> s[|a|] == b[0];
  }

  lemma {:induction false} NewFilesRead(fs: seq<(nat, FileMeta)>, rest: Bytes, e: Edit)
    requires Ordered(e.deleted) && forall i | 0 <= i < |fs| :: fs[i].0 < NUM_LEVELS && FileOk(fs[i].1)
    ensures Decode(EncNewFiles(fs) + rest, e) == Decode(rest, e.(newFiles := e.newFiles + fs))
    decreases |fs|
  {
    if |fs| == 0 {
      assert EncNewFiles(fs) == [] && e.newFiles + [] == e.newFiles;
      NoBytes(rest);
      hide *;
      assert e.(newFiles := e.newFiles + fs) == e;
    } else {
      assert EncNewFiles(fs) == EncNewFile(fs[0]) + EncNewFiles(fs[1..]);
      hide EncNewFile, Decode, EncNewFiles;
      Associate(EncNewFile(fs[0]), EncNewFiles(fs[1..]), rest);
      NewFileReads(fs[0], EncNewFiles(fs[1..]) + rest, e);
      NewFilesRead(fs[1..], rest, e.(newFiles := e.newFiles + [fs[0]]));
      OneByOne(e.newFiles, fs);
    }
  }

  /** Decoding into an edit that was cleared: everything comes back, but the compact pointers
      it held before stay in front, because Clear does not touch them. */
  lemma DecodeUndoesEncode(e: Edit, before: seq<(nat, Bytes)>)
    requires EditOk(e)
    ensures Decode(Encode(e), EMPTY_EDIT.(compactPointers := before)) == Some(e.(compactPointers := before + e.compactPointers))
  {
    var files := EncNewFiles(e.newFiles);
    var deleted := EncDeletedAll(e.deleted) + files;
    var pointers := EncPointers(e.compactPointers) + deleted;
    var last := EncNumber(LAST_SEQUENCE, e.lastSequence) + pointers;
    var next := EncNumber(NEXT_FILE, e.nextFile) + last;
    var prev := EncNumber(PREV_LOG_NUMBER, e.prevLogNumber) + next;
    var log := EncNumber(LOG_NUMBER, e.logNumber) + prev;
    var e0 := EMPTY_EDIT.(compactPointers := before);
    assert [] + e.deleted == e.deleted && [] + e.newFiles == e.newFiles && files + [] == files;
    assert e.logNumber in {e.logNumber, e.prevLogNumber, e.nextFile, e.lastSequence};
    assert e.prevLogNumber in {e.logNumber, e.prevLogNumber, e.nextFile, e.lastSequence};
    assert e.nextFile in {e.logNumber, e.prevLogNumber, e.nextFile, e.lastSequence};
    assert e.lastSequence in {e.logNumber, e.prevLogNumber, e.nextFile, e.lastSequence};
    ComparatorReads(e.comparator, log, e0);
    var e1 := e0.(comparator := e.comparator);
    NumberFieldReads(LOG_NUMBER, e.logNumber, prev, e1);
    var e2 := e1.(logNumber := e.logNumber);
    NumberFieldReads(PREV_LOG_NUMBER, e.prevLogNumber, next, e2);
    var e3 := e2.(prevLogNumber := e.prevLogNumber);
    NumberFieldReads(NEXT_FILE, e.nextFile, last, e3);
    var e4 := e3.(nextFile := e.nextFile);
    NumberFieldReads(LAST_SEQUENCE, e.lastSequence, pointers, e4);
    var e5 := e4.(lastSequence := e.lastSequence);
    PointersRead(e.compactPointers, deleted, e5);
    var e6 := e5.(compactPointers := before + e.compactPointers);
    DeletedAllRead(e.deleted, files, e6);
    var e7 := e6.(deleted := e.deleted);
    NewFilesRead(e.newFiles, [], e7);
    hide EncComparator, EncNumber, EncPointers, EncDeletedAll, EncNewFiles;
  }

  // ---- the edit as an object ----

  class VersionEdit {
    var comparator: Option<Bytes>
    var logNumber: Option<nat>
    var prevLogNumber: Option<nat>
    var nextFileNumber: Option<nat>
    var lastSequence: Option<nat>
    var compactPointers: seq<(nat, Bytes)>
    var deletedFiles: seq<(nat, nat)>
    var newFiles: seq<(nat, FileMeta)>

    constructor ()
      ensures Data() == EMPTY_EDIT
    {
      comparator, logNumber, prevLogNumber, nextFileNumber, lastSequence := None, None, None, None, None;
      compactPointers, deletedFiles, newFiles := [], [], [];
    }

    function Data(): Edit
      reads this
    {
      Edit(comparator, logNumber, prevLogNumber, nextFileNumber, lastSequence, compactPointers, deletedFiles, newFiles)
    }

    /** Clear leaves the compact pointers alone. */
    method Clear()
      modifies this
      ensures Data() == EMPTY_EDIT.(compactPointers := old(compactPointers))
    {
      comparator, logNumber, prevLogNumber, nextFileNumber, lastSequence := None, None, None, None, None;
      deletedFiles, newFiles := [], [];
    }

    method EncodeNumbers() returns (dst: Bytes)
      ensures dst == EncNumber(LOG_NUMBER, logNumber) + (EncNumber(PREV_LOG_NUMBER, prevLogNumber)
                     + (EncNumber(NEXT_FILE, nextFileNumber) + EncNumber(LAST_SEQUENCE, lastSequence)))
    {
      hide *;
      var a := NumberField(LOG_NUMBER, logNumber);
      var b := NumberField(PREV_LOG_NUMBER, prevLogNumber);
      var c := NumberField(NEXT_FILE, nextFileNumber);
      var d := NumberField(LAST_SEQUENCE, lastSequence);
      dst := a + (b + (c + d));
    }

    method EncodePointers() returns (dst: Bytes)
      ensures dst == EncPointers(compactPointers)
    {
      dst := [];
      var i := 0;
      assert compactPointers[0..] == compactPointers;
      NoBytes(EncPointers(compactPointers));
      while i < |compactPointers|
        invariant i <= |compactPointers|
        invariant dst + EncPointers(compactPointers[i..]) == EncPointers(compactPointers)
      {
        var p := compactPointers[i];
        assert compactPointers[i..][0] == p && compactPointers[i..][1..] == compactPointers[i + 1..];
        Associate(dst, EncPointer(p), EncPointers(compactPointers[i + 1..]));
        dst := dst + EncPointer(p);
        i := i + 1;
      }
      assert dst + [] == dst;
    }

    method EncodeDeleted() returns (dst: Bytes)
      ensures dst == EncDeletedAll(deletedFiles)
    {
      dst := [];
      var i := 0;
      assert deletedFiles[0..] == deletedFiles;
      NoBytes(EncDeletedAll(deletedFiles));
      while i < |deletedFiles|
        invariant i <= |deletedFiles|
        invariant dst + EncDeletedAll(deletedFiles[i..]) == EncDeletedAll(deletedFiles)
      {
        var d := deletedFiles[i];
        assert deletedFiles[i..][0] == d && deletedFiles[i..][1..] == deletedFiles[i + 1..];
        Associate(dst, EncDeleted(d), EncDeletedAll(deletedFiles[i + 1..]));
        dst := dst + EncDeleted(d);
        i := i + 1;
      }
      assert dst + [] == dst;
    }

    method EncodeNewFiles() returns (dst: Bytes)
      ensures dst == EncNewFiles(newFiles)
    {
      dst := [];
      var i := 0;
      assert newFiles[0..] == newFiles;
      NoBytes(EncNewFiles(newFiles));
      while i < |newFiles|
        invariant i <= |newFiles|
        invariant dst + EncNewFiles(newFiles[i..]) == EncNewFiles(newFiles)
      {
        var f := newFiles[i];
        assert newFiles[i..][0] == f && newFiles[i..][1..] == newFiles[i + 1..];
        Associate(dst, EncNewFile(f), EncNewFiles(newFiles[i + 1..]));
        dst := dst + EncNewFile(f);
        i := i + 1;
      }
      assert dst + [] == dst;
    }

    method EncodeTo() returns (dst: Bytes)
      ensures dst == Encode(Data())
    {
      var head := if comparator.Some? then EncodeVarint(COMPARATOR) + LengthPrefixed(comparator.value) else [];
      assert head == EncComparator(comparator);
      var numbers := EncodeNumbers();
      var pointers := EncodePointers();
      var deleted := EncodeDeleted();
      var files := EncodeNewFiles();
      dst := head + (numbers + (pointers + (deleted + files)));
      ghost var e := Data();
      ghost var tail := pointers + (deleted + files);
      EncodeParts(e);
      hide *;
      Regroup(EncNumber(LOG_NUMBER, logNumber), EncNumber(PREV_LOG_NUMBER, prevLogNumber), EncNumber(NEXT_FILE, nextFileNumber),
              EncNumber(LAST_SEQUENCE, lastSequence), tail);
    }

    /** Clears the edit and fills it from a record; on a corruption status its contents do not
        matter. */
    method DecodeFrom(src: Bytes) returns (ok: bool)
      modifies this
      ensures var r := Decode(src, EMPTY_EDIT.(compactPointers := old(compactPointers)));
              ok == r.Some? && (ok ==> Data() == r.value)
    {
      Clear();
      var input := src;
      ghost var whole := Decode(src, Data());
      var tag := DecodeTag(input);
      while tag.Got?
        invariant Ordered(deletedFiles) && tag == DecodeTag(input)
        invariant whole == Decode(input, Data())
        decreases |input|
      {
        var next := DecField(tag.value, tag.rest, Data());
        if next.NotParsed? { return false; }
        Assign(next.value);
        input := next.rest;
        tag := DecodeTag(input);
      }
      ok := |input| == 0;
    }

    method Assign(e: Edit)
      modifies this
      ensures Data() == e
    {
      comparator, logNumber, prevLogNumber, nextFileNumber, lastSequence := e.comparator, e.logNumber, e.prevLogNumber, e.nextFile, e.lastSequence;
      compactPointers, deletedFiles, newFiles := e.compactPointers, e.deleted, e.newFiles;
    }
  }

  method NumberField(tag: nat, n: Option<nat>) returns (dst: Bytes)
    ensures dst == EncNumber(tag, n)
  {
    dst := if n.Some? then EncodeVarint(tag) + EncodeVarint(n.value) else [];
  }

  lemma EncodeParts(e: Edit)
    ensures Encode(e) == EncComparator(e.comparator) + (EncNumber(LOG_NUMBER, e.logNumber) + (EncNumber(PREV_LOG_NUMBER, e.prevLogNumber)
      + (EncNumber(NEXT_FILE, e.nextFile) + (EncNumber(LAST_SEQUENCE, e.lastSequence)
      + (EncPointers(e.compactPointers) + (EncDeletedAll(e.deleted) + EncNewFiles(e.newFiles)))))))
  {
  }

  lemma Regroup(a: Bytes, b: Bytes, c: Bytes, d: Bytes, rest: Bytes)
    ensures (a + (b + (c + d))) + rest == a + (b + (c + (d + rest)))
  {
    Associate(a, b + (c + d), rest);
    Associate(b, c + d, rest);
    Associate(c, d, rest);
  }
}
