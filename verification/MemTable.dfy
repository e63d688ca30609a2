/** The bytes of the memtable (db/memtable.cc, db/dbformat.cc): internal keys, length-prefixed
    entries built in a buffer, the comparator that works on them, and Add and Get. */
module MemTable {
  import opened DbFormat
  import opened Entries
  import opened Versions
  import opened Coding
  import opened Lookup
  import opened Store

  // ---- internal keys as bytes ----

  /** AppendInternalKey. */
  function EncodeInternalKey(user: Bytes, s: SeqNo, t: ValueType): Bytes {
    user + EncodeFixed(8, PackSequenceAndType(s, t))
  }

  datatype ParsedKey = BadKey | ParsedKey(user: Bytes, seqno: SeqNo, vtype: ValueType)

  lemma TagFits(tag: nat)
    requires tag < TWO64
    ensures tag / 256 <= MAX_SEQUENCE
  {
  }

  function ParseInternalKey(b: Bytes): ParsedKey {
    if |b| < 8 then BadKey
    else
      var num := DecodeFixed(b[|b| - 8..]);
      FixedWidths();
      FixedIsOnto(b[|b| - 8..]);
      TagFits(num);
      if num % 256 > 1 then BadKey else ParsedKey(b[..|b| - 8], num / 256, if num % 256 == 0 then Deletion else Value)
  }

  lemma TagRoundTrip(s: SeqNo, t: ValueType)
    ensures PackSequenceAndType(s, t) < TWO64 && DecodeFixed(EncodeFixed(8, PackSequenceAndType(s, t))) == PackSequenceAndType(s, t)
    ensures PackSequenceAndType(s, t) / 256 == s && PackSequenceAndType(s, t) % 256 == TypeTag(t)
  {
    FixedWidths();
    FixedRoundTrip(8, PackSequenceAndType(s, t));
  }

  /** Exactly the encoded keys parse, and to what was encoded. */
  lemma ParseInverts(b: Bytes, user: Bytes, s: SeqNo, t: ValueType)
    ensures ParseInternalKey(b) == ParsedKey(user, s, t) <==> b == EncodeInternalKey(user, s, t)
  {
    TagRoundTrip(s, t);
    var k := EncodeInternalKey(user, s, t);
    assert k[..|k| - 8] == user && k[|k| - 8..] == EncodeFixed(8, PackSequenceAndType(s, t));
    if ParseInternalKey(b) == ParsedKey(user, s, t) {
      FixedIsOnto(b[|b| - 8..]);
      assert b == b[..|b| - 8] + b[|b| - 8..];
    }
  }

  /** InternalKeyComparator::Compare; the user comparator is given by the place of a key in
      its order. */
  function CompareBytes(rank: Bytes -> UserKey, a: Bytes, b: Bytes): int
    requires |a| >= 8 && |b| >= 8
  {
    var ua, ub := rank(a[..|a| - 8]), rank(b[..|b| - 8]);
    if ua < ub then -1
    else if ua > ub then 1
    else
      var anum, bnum := DecodeFixed(a[|a| - 8..]), DecodeFixed(b[|b| - 8..]);
      if anum > bnum then -1 else if anum < bnum then 1 else 0
  }

  lemma CompareBytesIsCompare(rank: Bytes -> UserKey, u: Bytes, s: SeqNo, t: ValueType, u': Bytes, s': SeqNo, t': ValueType)
    ensures CompareBytes(rank, EncodeInternalKey(u, s, t), EncodeInternalKey(u', s', t'))
         == Compare(InternalKey(rank(u), s, t), InternalKey(rank(u'), s', t'))
  {
    var a, b := EncodeInternalKey(u, s, t), EncodeInternalKey(u', s', t');
    TagRoundTrip(s, t);
    TagRoundTrip(s', t');
    assert a[..|a| - 8] == u && a[|a| - 8..] == EncodeFixed(8, PackSequenceAndType(s, t));
    assert b[..|b| - 8] == u' && b[|b| - 8..] == EncodeFixed(8, PackSequenceAndType(s', t'));
  }

  // ---- entries ----

  function EncodeEntry(user: Bytes, s: SeqNo, t: ValueType, value: Bytes): Bytes {
    LengthPrefixed(EncodeInternalKey(user, s, t)) + LengthPrefixed(value)
  }

  /** Keys and values whose lengths fit the 32-bit prefixes. */
  predicate Fits(user: Bytes, value: Bytes) {
    |user| + 8 < TWO32 && |value| < TWO32
  }

  /** `buf` is the entry `e`, whose user key has the bytes `user`. */
  predicate IsEntry(rank: Bytes -> UserKey, buf: Bytes, user: Bytes, e: Entry) {
    Fits(user, e.value) && rank(user) == e.key.user && buf == EncodeEntry(user, e.key.seqno, e.key.vtype, e.value)
  }

  /** memtable_key of a LookupKey. */
  function LookupBytes(user: Bytes, s: SeqNo): Bytes {
    LengthPrefixed(EncodeInternalKey(user, s, Value))
  }

  /** GetLengthPrefixedSlice, on bytes that hold a slice. */
  function SliceAt(b: Bytes): Bytes
    requires GetLengthPrefixed(b).GotSlice?
  {
    GetLengthPrefixed(b).value
  }

  lemma EntryReads(rank: Bytes -> UserKey, buf: Bytes, user: Bytes, e: Entry)
    requires IsEntry(rank, buf, user, e)
    ensures GetLengthPrefixed(buf) == GotSlice(EncodeInternalKey(user, e.key.seqno, e.key.vtype), LengthPrefixed(e.value))
    ensures GetLengthPrefixed(LengthPrefixed(e.value)) == GotSlice(e.value, [])
  {
    SliceRoundTrip(EncodeInternalKey(user, e.key.seqno, e.key.vtype), LengthPrefixed(e.value));
    SliceRoundTrip(e.value, []);
    assert LengthPrefixed(e.value) + [] == LengthPrefixed(e.value);
  }

  lemma LookupReads(user: Bytes, s: SeqNo)
    requires |user| + 8 < TWO32
    ensures GetLengthPrefixed(LookupBytes(user, s)) == GotSlice(EncodeInternalKey(user, s, Value), [])
  {
    var key := EncodeInternalKey(user, s, Value);
    SliceRoundTrip(key, []);
    assert LengthPrefixed(key) + [] == LengthPrefixed(key);
  }

  /** Bytes that start with a length-prefixed internal key. */
  predicate HasKey(b: Bytes) {
    GetLengthPrefixed(b).GotSlice? && |SliceAt(b)| >= 8
  }

  /** MemTable::KeyComparator. */
  function CompareEntries(rank: Bytes -> UserKey, a: Bytes, b: Bytes): int
    requires HasKey(a) && HasKey(b)
  {
    CompareBytes(rank, SliceAt(a), SliceAt(b))
  }

  /** `b` starts with the internal key `k`, whose user key has the bytes `user`. */
  predicate StartsWith(rank: Bytes -> UserKey, b: Bytes, user: Bytes, k: InternalKey) {
    HasKey(b) && rank(user) == k.user && SliceAt(b) == EncodeInternalKey(user, k.seqno, k.vtype)
  }

  /** Comparing the bytes is comparing the keys. */
  lemma CompareEntriesIsOrder(rank: Bytes -> UserKey, a: Bytes, u: Bytes, k: InternalKey, b: Bytes, u': Bytes, k': InternalKey)
    requires StartsWith(rank, a, u, k) && StartsWith(rank, b, u', k')
    ensures CompareEntries(rank, a, b) < 0 <==> Before(k, k')
    ensures CompareEntries(rank, a, b) == 0 <==> k == k'
  {
    CompareBytesIsCompare(rank, u, k.seqno, k.vtype, u', k'.seqno, k'.vtype);
    CompareIsBefore(k, k');
  }

  // ---- the table ----

  lemma InsertBehindHead<T>(es: seq<T>, e: T, i: nat)
    requires 0 < i <= |es|
    ensures [es[0]] + (es[1..][..i - 1] + [e] + es[1..][i - 1..]) == es[..i] + [e] + es[i..]
  {
    assert es[..i] == [es[0]] + es[1..][..i - 1];
    assert es[i..] == es[1..][i - 1..];
  }

  /** Inserting at the place a search finds is inserting in order. */
  lemma {:induction false} InsertAt(es: seq<Entry>, e: Entry, i: nat)
    requires i <= |es| && forall j | 0 <= j < i :: !Before(e.key, es[j].key)
    requires i < |es| ==> Before(e.key, es[i].key)
    ensures InsertEntry(es, e) == es[..i] + [e] + es[i..]
  {
    if i > 0 {
      InsertAt(es[1..], e, i - 1);
      InsertBehindHead(es, e, i);
    }
  }

  /** memcpy to where the pointer stands. */
  method CopyAt(buf: array<Byte>, p: nat, b: Bytes, ghost done: Bytes) returns (p': nat)
    requires p + |b| <= buf.Length && buf[..p] == done
    modifies buf
    ensures p' == p + |b| && buf[..p'] == done + b
  {
    for i := 0 to |b|
      invariant buf[..p] == done && buf[p..p + i] == b[..i]
    {
      buf[p + i] := b[i];
    }
    assert buf[..p + |b|] == buf[..p] + buf[p..p + |b|];
    p' := p + |b|;
  }

  /** The buffer Add fills through a moving pointer; it ends exactly at the end. */
  method BuildEntry(s: SeqNo, t: ValueType, key: Bytes, value: Bytes) returns (buf: array<Byte>)
    requires Fits(key, value)
    ensures fresh(buf) && buf[..] == EncodeEntry(key, s, t, value)
  {
    var keyLength := EncodeVarint32(|key| + 8);
    var valueLength := EncodeVarint32(|value|);
    var n := VarintLength(|key| + 8);
    var m := VarintLength(|value|);
    var encodedLen := n + (|key| + 8) + m + |value|;
    buf := new Byte[encodedLen];
    var tag := EncodeFixed(8, PackSequenceAndType(s, t));
    EntryParts(keyLength, key, tag, valueLength, value);
    hide *;
    var p := CopyAt(buf, 0, keyLength, []);
    p := CopyAt(buf, p, key, [] + keyLength);
    p := CopyAt(buf, p, tag, [] + keyLength + key);
    p := CopyAt(buf, p, valueLength, [] + keyLength + key + tag);
    p := CopyAt(buf, p, value, [] + keyLength + key + tag + valueLength);
    assert buf[..p] == buf[..];
  }

  lemma EntryParts(a: Bytes, b: Bytes, c: Bytes, d: Bytes, e: Bytes)
    ensures [] + a + b + c + d + e == (a + (b + c)) + (d + e)
  {
  }

  function Spliced<T>(s: seq<T>, x: T, i: nat): (r: seq<T>)
    requires i <= |s|
    ensures |r| == |s| + 1 && forall j | 0 <= j < |r| :: r[j] == if j < i then s[j] else if j == i then x else s[j - 1]
  {
    s[..i] + [x] + s[i..]
  }

  ghost predicate TableHolds(rank: Bytes -> UserKey, table: seq<Bytes>, users: seq<Bytes>, entries: seq<Entry>) {
    && Sorted(entries) && |table| == |users| == |entries|
    && forall i | 0 <= i < |table| :: IsEntry(rank, table[i], users[i], entries[i])
  }

  lemma InsertKeeps(rank: Bytes -> UserKey, table: seq<Bytes>, users: seq<Bytes>, entries: seq<Entry>, i: nat, bytes: Bytes, user: Bytes, e: Entry)
    requires TableHolds(rank, table, users, entries) && i <= |table| && IsEntry(rank, bytes, user, e)
    requires InsertEntry(entries, e) == Spliced(entries, e, i) && forall x | x in entries :: x.key != e.key
    ensures TableHolds(rank, Spliced(table, bytes, i), Spliced(users, user, i), Spliced(entries, e, i))
  {
    hide IsEntry, InsertEntry, Sorted;
    InsertedIsSorted(entries, e);
    forall j | 0 <= j <= |table| ensures IsEntry(rank, Spliced(table, bytes, i)[j], Spliced(users, user, i)[j], Spliced(entries, e, i)[j]) {
      SplicedIsEntry(rank, table, users, entries, i, bytes, user, e, j);
    }
  }

  lemma SplicedIsEntry(rank: Bytes -> UserKey, table: seq<Bytes>, users: seq<Bytes>, entries: seq<Entry>, i: nat, bytes: Bytes, user: Bytes, e: Entry, j: nat)
    requires TableHolds(rank, table, users, entries) && i <= |table| && IsEntry(rank, bytes, user, e) && j <= |table|
    ensures IsEntry(rank, Spliced(table, bytes, i)[j], Spliced(users, user, i)[j], Spliced(entries, e, i)[j])
  {
    hide IsEntry, Sorted;
    if j != i { var k := if j < i then j else j - 1; assert IsEntry(rank, table[k], users[k], entries[k]); }
  }

  lemma InsertedIsSorted(entries: seq<Entry>, e: Entry)
    requires Sorted(entries) && forall x | x in entries :: x.key != e.key
    ensures Sorted(InsertEntry(entries, e))
  {
  }

  /** The memtable: encoded entries in the order of the skip list. */
  class MemTable {
    const rank: Bytes -> UserKey
    var table: seq<Bytes>
    ghost var users: seq<Bytes>
    ghost var entries: seq<Entry>

    ghost predicate Valid()
      reads this
    {
      TableHolds(rank, table, users, entries)
    }

    constructor (r: Bytes -> UserKey)
      ensures Valid() && rank == r && entries == []
    {
      rank, table, users, entries := r, [], [], [];
    }

    /** The first entry not before the key `target` starts with. */
    method Seek(target: Bytes, ghost user: Bytes, ghost k: InternalKey) returns (i: nat)
      requires Valid() && StartsWith(rank, target, user, k)
      ensures i <= |table| && forall j | 0 <= j < i :: Before(entries[j].key, k)
      ensures i < |table| ==> !Before(entries[i].key, k)
    {
      forall j | 0 <= j < |table| ensures HasKey(table[j]) && (CompareEntries(rank, table[j], target) < 0 <==> Before(entries[j].key, k)) {
        EntryReads(rank, table[j], users[j], entries[j]);
        CompareEntriesIsOrder(rank, table[j], users[j], entries[j].key, target, user, k);
      }
      hide HasKey, CompareEntries, StartsWith, IsEntry;
      i := 0;
      while i < |table| && CompareEntries(rank, table[i], target) < 0
        invariant i <= |table| && forall j | 0 <= j < i :: Before(entries[j].key, k)
      {
        i := i + 1;
      }
    }

    /** Adds one entry at its place.  Sequence numbers are used once, so no key is there
        already. */
    method Add(s: SeqNo, t: ValueType, key: Bytes, value: Bytes)
      requires Valid() && Fits(key, value)
      requires forall e | e in entries :: e.key != InternalKey(rank(key), s, t)
      modifies this
      ensures Valid()
      ensures entries == InsertEntry(old(entries), Entry(InternalKey(rank(key), s, t), value))
    {
      var buf := BuildEntry(s, t, key, value);
      var bytes := buf[..];
      ghost var e := Entry(InternalKey(rank(key), s, t), value);
      EntryReads(rank, bytes, key, e);
      var i := Seek(bytes, key, e.key);
      PlaceIsBetween(entries, e, i);
      InsertAt(entries, e, i);
      Insert(i, bytes, key, e);
    }

    method Insert(i: nat, bytes: Bytes, ghost key: Bytes, ghost e: Entry)
      requires Valid() && i <= |table| == |users| == |entries| && IsEntry(rank, bytes, key, e)
      requires InsertEntry(entries, e) == Spliced(entries, e, i) && forall x | x in entries :: x.key != e.key
      modifies this
      ensures Valid() && entries == InsertEntry(old(entries), e)
    {
      InsertKeeps(rank, table, users, entries, i, bytes, key, e);
      hide TableHolds, Spliced, InsertEntry;
      table := Spliced(table, bytes, i);
      users := Spliced(users, key, i);
      entries := Spliced(entries, e, i);
    }

    /** MemTable::Get: seeks to the lookup key and decodes the entry it finds. */
    method Get(key: Bytes, s: SeqNo) returns (r: LookupResult)
      requires Valid() && |key| + 8 < TWO32
      ensures Answers(EntrySet(entries), rank(key), s, r)
    {
      LookupReads(key, s);
      var i := Seek(LookupBytes(key, s), key, LookupKey(rank(key), s));
      SeekAnswers(entries, rank(key), s, i);
      r := NotFound;
      if i < |table| {
        r := Decode(table[i], key, users[i], entries[i]);
      }
    }

    /** What an entry says about a user key. */
    method Decode(entry: Bytes, key: Bytes, ghost user: Bytes, ghost e: Entry) returns (r: LookupResult)
      requires IsEntry(rank, entry, user, e)
      ensures r == if e.key.user == rank(key) then ResultOf(e) else NotFound
    {
      EntryReads(rank, entry, user, e);
      var found := GetLengthPrefixed(entry);
      ParseInverts(found.value, user, e.key.seqno, e.key.vtype);
      var keyLength := |found.value|;
      r := NotFound;
      if rank(found.value[..keyLength - 8]) == rank(key) {
        var tag := DecodeFixed(found.value[keyLength - 8..]);
        if tag % 256 == 1 {
          r := Found(SliceAt(found.rest));
        } else if tag % 256 == 0 {
          r := Deleted;
        }
      }
    }
  }

  lemma PlaceIsBetween(es: seq<Entry>, e: Entry, i: nat)
    requires Sorted(es) && i <= |es| && forall x | x in es :: x.key != e.key
    requires forall j | 0 <= j < i :: Before(es[j].key, e.key)
    requires i < |es| ==> !Before(es[i].key, e.key)
    ensures forall j | 0 <= j < i :: !Before(e.key, es[j].key)
    ensures i < |es| ==> Before(e.key, es[i].key)
  {
    if i < |es| { assert es[i] in es; }
  }
}
