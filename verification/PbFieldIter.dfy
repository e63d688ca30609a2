/** The circular field iterator (ios/Pods/nanopb/pb_common.c): it walks the descriptor and keeps the
    addresses of the struct members in step. */
module PbFieldIter {
  import opened DbFormat
  import opened Entries
  import opened PbMessage

  /** The data offset that marks a further member of a union. */
  const SAME_UNION: nat := SIZE_MAX

  predicate SharesUnion(prev: Field, next: Field) {
    prev.h.Oneof? && next.h.Oneof? && next.layout.dataOffset == SAME_UNION
  }

  /** How far a member reaches; arrays hold their maximal number of entries. */
  function MemberSize(f: Field): nat {
    match f.h
    case Repeated(max) => f.layout.dataSize * max
    case FixedCount(n) => f.layout.dataSize * n
    case _ => f.layout.dataSize
  }

  /** The address of member `i`, relative to the struct. */
  function DataAt(fields: seq<Field>, i: nat): nat
    requires i < |fields|
  {
    if i == 0 then fields[0].layout.dataOffset
    else if SharesUnion(fields[i - 1], fields[i]) then DataAt(fields, i - 1)
    else DataAt(fields, i - 1) + MemberSize(fields[i - 1]) + fields[i].layout.dataOffset
  }

  /** Entry `k` of member `i` ends before a later member starts, unless a union lies between. */
  lemma {:induction false} MembersAreApart(fields: seq<Field>, i: nat, j: nat, k: nat)
    requires i < j < |fields| && forall m | i < m <= j :: !SharesUnion(fields[m - 1], fields[m])
    requires match fields[i].h case Repeated(max) => k < max case FixedCount(n) => k < n case _ => k == 0
    ensures DataAt(fields, i) + (k + 1) * fields[i].layout.dataSize <= DataAt(fields, j)
  {
    if i + 1 < j {
      MembersAreApart(fields, i, j - 1, k);
    } else {
      EntriesFit(fields[i], k);
    }
  }

  lemma EntriesFit(f: Field, k: nat)
    requires match f.h case Repeated(max) => k < max case FixedCount(n) => k < n case _ => k == 0
    ensures (k + 1) * f.layout.dataSize <= MemberSize(f)
  {
    match f.h
    case Repeated(max) => Times(k + 1, max, f.layout.dataSize);
    case FixedCount(n) => Times(k + 1, n, f.layout.dataSize);
    case _ =>
  }

  lemma Times(a: nat, b: nat, c: nat)
    requires a <= b
    ensures a * c <= c * b
  {
    assert c * b - a * c == c * (b - a);
  }

  function SizeAt(fields: seq<Field>, i: nat): int
    requires i < |fields|
  {
    if i > 0 && SharesUnion(fields[i - 1], fields[i]) then SizeAt(fields, i - 1)
    else DataAt(fields, i) + fields[i].layout.sizeOffset
  }

  function RequiredBefore(fields: seq<Field>, i: nat): (r: nat)
    requires i <= |fields|
    ensures r <= i
  {
    if i == 0 then 0 else RequiredBefore(fields, i - 1) + (if fields[i - 1].h.Required? then 1 else 0)
  }

  predicate HasTag(fields: seq<Field>, tag: nat) {
    exists i | 0 <= i < |fields| :: fields[i].tag == tag
  }

  /** The first field with a tag. */
  function FindField(fields: seq<Field>, tag: nat): (r: Option<nat>)
    ensures r.Some? ==> r.value < |fields| && fields[r.value].tag == tag
    ensures r.None? ==> !HasTag(fields, tag)
  {
    if |fields| == 0 then None
    else
      var n := |fields| - 1;
      var r := FindField(fields[..n], tag);
      assert !HasTag(fields[..n], tag) ==> forall i | 0 <= i < n :: fields[..n][i] == fields[i];
      if r.Some? then r else if fields[n].tag == tag then Some(n) else None
  }

  lemma OnlyField(fields: seq<Field>, i: nat)
    requires i < |fields| && forall j, k | 0 <= j < k < |fields| :: fields[j].tag != fields[k].tag
    ensures FindField(fields, fields[i].tag) == Some(i)
  {
    var r := FindField(fields, fields[i].tag);
    assert HasTag(fields, fields[i].tag);
  }

  class FieldIter {
    const fields: seq<Field>
    const destStruct: nat
    var pos: nat
    var requiredFieldIndex: nat
    var pData: int
    var pSize: int

    /** Everything the iterator knows follows from its position, however it got there. */
    predicate Valid()
      reads this
    {
      && (if |fields| == 0 then pos == 0 else pos < |fields|)
      && requiredFieldIndex == RequiredBefore(fields, pos)
      && (|fields| > 0 ==> pData == destStruct + DataAt(fields, pos) && pSize == destStruct + SizeAt(fields, pos))
    }

    /** pb_field_iter_begin; a message type without fields is told by its terminator. */
    constructor (fs: seq<Field>, dest: nat)
      ensures fields == fs && destStruct == dest && pos == 0 && Valid()
    {
      fields, destStruct, pos, requiredFieldIndex := fs, dest, 0, 0;
      pData := if |fs| > 0 then dest + fs[0].layout.dataOffset else dest;
      pSize := if |fs| > 0 then dest + fs[0].layout.dataOffset + fs[0].layout.sizeOffset else dest;
    }

    method Begin()
      requires |fields| > 0
      modifies this
      ensures Valid() && pos == 0
    {
      pos, requiredFieldIndex := 0, 0;
      pData := destStruct + fields[0].layout.dataOffset;
      pSize := pData + fields[0].layout.sizeOffset;
    }

    /** pb_field_iter_next: false when it wrapped around. */
    method Next() returns (more: bool)
      requires Valid()
      modifies this
      ensures Valid()
      ensures more == (old(pos) + 1 < |fields|)
      ensures |fields| > 0 ==> pos == if more then old(pos) + 1 else 0
    {
      if |fields| == 0 { return false; }
      var prev := fields[pos];
      pos := pos + 1;
      if pos == |fields| {
        Begin();
        return false;
      }
      if SharesUnion(prev, fields[pos]) { return true; }
      if prev.h.Required? { requiredFieldIndex := requiredFieldIndex + 1; }
      pData := pData + MemberSize(prev) + fields[pos].layout.dataOffset;
      pSize := pData + fields[pos].layout.sizeOffset;
      return true;
    }

    /** pb_field_iter_find: once around, from wherever it stands. */
    method Find(tag: nat) returns (found: bool)
      requires Valid() && |fields| > 0
      modifies this
      ensures Valid()
      ensures found <==> HasTag(fields, tag)
      ensures found ==> fields[pos].tag == tag
      ensures !found ==> pos == old(pos)
    {
      var start := pos;
      var wrapped := false;
      var more := true;
      while more
        invariant Valid() && (if wrapped then pos <= start else start <= pos)
        invariant forall i | 0 <= i < |fields| && (if wrapped then start <= i || i < pos else start <= i < pos) :: fields[i].tag != tag
        invariant if more then wrapped ==> pos < start else wrapped && pos == start
        decreases more, !wrapped, |fields| - pos
      {
        if fields[pos].tag == tag { return true; }
        var went := Next();
        if !went { wrapped := true; }
        more := pos != start;
      }
      return false;
    }
  }
}
