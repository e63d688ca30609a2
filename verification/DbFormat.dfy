/** Internal keys and their order (db/dbformat.h, db/dbformat.cc).

    A user key is represented by its position in the user comparator's total
    order.  The byte strings are countable, so every total order on them embeds
    in the real numbers; nothing below uses more of a user key than its place in
    that order. */
module DbFormat {

  type UserKey = real

  type Byte = n: nat | n < 256

  type Bytes = seq<Byte>

  const NUM_LEVELS: nat := 7
  const MAX_MEM_COMPACT_LEVEL: nat := 2
  // Eight bits are left for the value type: 2^56 - 1.
  const MAX_SEQUENCE: nat := 0xFF_FFFF_FFFF_FFFF

  type SeqNo = n: nat | n <= MAX_SEQUENCE

  datatype ValueType = Deletion | Value

  datatype InternalKey = InternalKey(user: UserKey, seqno: SeqNo, vtype: ValueType)

  function TypeTag(t: ValueType): nat {
    match t case Deletion => 0 case Value => 1
  }

  /** The 64-bit tag stored behind the user key. */
  function PackSequenceAndType(s: SeqNo, t: ValueType): nat {
    s * 256 + TypeTag(t)
  }

  /** The comparator of the source: user keys ascending, then tags descending. */
  function Compare(a: InternalKey, b: InternalKey): int {
    if a.user < b.user then -1
    else if a.user > b.user then 1
    else
      var anum, bnum := PackSequenceAndType(a.seqno, a.vtype), PackSequenceAndType(b.seqno, b.vtype);
      if anum > bnum then -1 else if anum < bnum then 1 else 0
  }

  /** The order the rest of the model works with: user key ascending, sequence
      number descending, value before deletion. */
  predicate Before(a: InternalKey, b: InternalKey) {
    || a.user < b.user
    || (a.user == b.user
        && (|| a.seqno > b.seqno
            || (a.seqno == b.seqno && a.vtype.Value? && b.vtype.Deletion?)))
  }

  predicate AtOrBefore(a: InternalKey, b: InternalKey) {
    a == b || Before(a, b)
  }

  /** Comparing packed tags is the lexicographic order on (user, sequence, type),
      and the tag fits in 64 bits. */
  lemma CompareIsBefore(a: InternalKey, b: InternalKey)
    ensures Compare(a, b) < 0 <==> Before(a, b)
    ensures Compare(a, b) > 0 <==> Before(b, a)
    ensures Compare(a, b) == 0 <==> a == b
    ensures PackSequenceAndType(a.seqno, a.vtype) < 0x1_0000_0000_0000_0000
    ensures PackSequenceAndType(a.seqno, a.vtype) / 256 == a.seqno
    ensures PackSequenceAndType(a.seqno, a.vtype) % 256 == TypeTag(a.vtype)
  {
    assert a.seqno > b.seqno ==> a.seqno * 256 >= b.seqno * 256 + 256;
    assert b.seqno > a.seqno ==> b.seqno * 256 >= a.seqno * 256 + 256;
  }

  /** The key a lookup of user key `k` at snapshot `s` seeks to. */
  function LookupKey(k: UserKey, s: SeqNo): InternalKey {
    InternalKey(k, s, Value)
  }

  /** A lookup key separates the entries of its user key that are too new from
      the visible ones, so that a seek skips exactly the former. */
  lemma LookupKeySeparates(k: UserKey, s: SeqNo, e: InternalKey)
    ensures Before(e, LookupKey(k, s)) <==> e.user < k || (e.user == k && e.seqno > s)
  {
  }
}
