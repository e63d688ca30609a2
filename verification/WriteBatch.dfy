/** Write batches (db/write_batch.cc): operations kept in their encoded form behind a header
    with the sequence number of the first one and their count. */
module WriteBatch {
  import opened DbFormat
  import opened Entries
  import opened Coding

  datatype BatchOp = PutOp(key: Bytes, value: Bytes) | DeleteOp(key: Bytes)

  const HEADER_SIZE: nat := 12
  const TYPE_DELETION: Byte := 0
  const TYPE_VALUE: Byte := 1

  function EncodeOp(op: BatchOp): (r: Bytes)
    ensures |r| > 0
  {
    match op
    case PutOp(k, v) => [TYPE_VALUE] + (LengthPrefixed(k) + LengthPrefixed(v))
    case DeleteOp(k) => [TYPE_DELETION] + LengthPrefixed(k)
  }

  function EncodeOps(ops: seq<BatchOp>): Bytes {
    if |ops| == 0 then [] else EncodeOp(ops[0]) + EncodeOps(ops[1..])
  }

  lemma {:induction false} EncodeOpsAppend(a: seq<BatchOp>, b: seq<BatchOp>)
    ensures EncodeOps(a + b) == EncodeOps(a) + EncodeOps(b)
  {
    if |a| == 0 {
      assert a + b == b;
    } else {
      assert (a + b)[1..] == a[1..] + b;
      EncodeOpsAppend(a[1..], b);
      Associate(EncodeOp(a[0]), EncodeOps(a[1..]), EncodeOps(b));
    }
  }

  lemma EncodeOpsOne(op: BatchOp)
    ensures EncodeOps([op]) == EncodeOp(op)
  {
    assert [op][1..] == [];
    assert EncodeOp(op) + [] == EncodeOp(op);
  }

  /** The bytes of a batch. */
  function Encoded(sequence: nat, ops: seq<BatchOp>): Bytes {
    EncodeFixed(8, sequence) + EncodeFixed(4, |ops|) + EncodeOps(ops)
  }

  // ---- reading ----

  datatype Status = OK | TooSmall | BadPut | BadDelete | UnknownTag | WrongCount

  /** The operations handed to the handler before the batch ended or turned out malformed. */
  datatype Handled = Handled(ops: seq<BatchOp>, status: Status)

  function After(op: BatchOp, rest: Handled): Handled {
    Handled([op] + rest.ops, rest.status)
  }

  /** The loop of Iterate. */
  function ParseOps(input: Bytes): Handled
    decreases |input|
  {
    if |input| == 0 then Handled([], OK)
    else if input[0] == TYPE_VALUE then
      var key := GetLengthPrefixed(input[1..]);
      if key.NoSlice? then Handled([], BadPut)
      else
        var value := GetLengthPrefixed(key.rest);
        if value.NoSlice? then Handled([], BadPut) else After(PutOp(key.value, value.value), ParseOps(value.rest))
    else if input[0] == TYPE_DELETION then
      var key := GetLengthPrefixed(input[1..]);
      if key.NoSlice? then Handled([], BadDelete) else After(DeleteOp(key.value), ParseOps(key.rest))
    else Handled([], UnknownTag)
  }

  function CountOf(rep: Bytes): nat
    requires |rep| >= HEADER_SIZE
  {
    DecodeFixed(rep[8..12])
  }

  function SequenceOf(rep: Bytes): nat
    requires |rep| >= HEADER_SIZE
  {
    DecodeFixed(rep[..8])
  }

  /** Iterate: a wrong count is found out at the end, when everything was handled. */
  function Parse(rep: Bytes): Handled {
    if |rep| < HEADER_SIZE then Handled([], TooSmall)
    else
      var h := ParseOps(rep[HEADER_SIZE..]);
      if h.status == OK && |h.ops| != CountOf(rep) then h.(status := WrongCount) else h
  }

  predicate OpOk(op: BatchOp) {
    |op.key| < TWO32 && (op.PutOp? ==> |op.value| < TWO32)
  }

  lemma OpReads(op: BatchOp, rest: Bytes)
    requires OpOk(op)
    ensures ParseOps(EncodeOp(op) + rest) == After(op, ParseOps(rest))
  {
    var input := EncodeOp(op) + rest;
    match op
    case PutOp(k, v) =>
      Associate([TYPE_VALUE], LengthPrefixed(k) + LengthPrefixed(v), rest);
      Associate(LengthPrefixed(k), LengthPrefixed(v), rest);
      assert input[1..] == LengthPrefixed(k) + (LengthPrefixed(v) + rest);
      SliceRoundTrip(k, LengthPrefixed(v) + rest);
      SliceRoundTrip(v, rest);
      hide LengthPrefixed, GetLengthPrefixed;
    case DeleteOp(k) =>
      Associate([TYPE_DELETION], LengthPrefixed(k), rest);
      assert input[1..] == LengthPrefixed(k) + rest;
      SliceRoundTrip(k, rest);
      hide LengthPrefixed, GetLengthPrefixed;
  }

  lemma {:induction false} OpsRead(ops: seq<BatchOp>)
    requires forall i | 0 <= i < |ops| :: OpOk(ops[i])
    ensures ParseOps(EncodeOps(ops)) == Handled(ops, OK)
  {
    if |ops| > 0 {
      OpReads(ops[0], EncodeOps(ops[1..]));
      OpsRead(ops[1..]);
      hide EncodeOp, ParseOps;
      assert [ops[0]] + ops[1..] == ops;
    }
  }

  lemma HeaderReads(sequence: nat, ops: seq<BatchOp>)
    requires sequence < TWO64 && |ops| < TWO32
    ensures var rep := Encoded(sequence, ops);
            |rep| >= HEADER_SIZE && SequenceOf(rep) == sequence && CountOf(rep) == |ops| && rep[HEADER_SIZE..] == EncodeOps(ops)
  {
    var a, b, c := EncodeFixed(8, sequence), EncodeFixed(4, |ops|), EncodeOps(ops);
    FixedWidths();
    FixedRoundTrip(8, sequence);
    FixedRoundTrip(4, |ops|);
    hide EncodeFixed, DecodeFixed, EncodeOps;
    assert (a + b + c)[..8] == a && (a + b + c)[8..12] == b && (a + b + c)[12..] == c;
  }

  /** Iterating over a batch hands out its operations in order. */
  lemma ParseUndoesEncode(sequence: nat, ops: seq<BatchOp>)
    requires sequence < TWO64 && |ops| < TWO32 && forall i | 0 <= i < |ops| :: OpOk(ops[i])
    ensures Parse(Encoded(sequence, ops)) == Handled(ops, OK)
    ensures |Encoded(sequence, ops)| >= HEADER_SIZE && SequenceOf(Encoded(sequence, ops)) == sequence
  {
    HeaderReads(sequence, ops);
    OpsRead(ops);
    hide EncodeOps, ParseOps, CountOf, SequenceOf, Encoded;
  }

  // ---- batches cut short ----

  lemma FrontOfTwo(a: Bytes, b: Bytes, n: nat)
    requires n <= |a + b|
    ensures (a + b)[..n] == if n < |a| then a[..n] else a + b[..n - |a|]
  {
  }

  lemma CutOpFails(op: BatchOp, n: nat)
    requires OpOk(op) && 0 < n < |EncodeOp(op)|
    ensures ParseOps(EncodeOp(op)[..n]) == Handled([], if op.PutOp? then BadPut else BadDelete)
  {
    match op
    case PutOp(k, v) => CutPutFails(k, v, n);
    case DeleteOp(k) =>
      FrontOfTwo([TYPE_DELETION], LengthPrefixed(k), n);
      assert EncodeOp(op)[..n][1..] == LengthPrefixed(k)[..n - 1];
      CutSliceFails(k, n - 1);
      hide LengthPrefixed, GetLengthPrefixed;
  }

  lemma CutPutFails(k: Bytes, v: Bytes, n: nat)
    requires OpOk(PutOp(k, v)) && 0 < n < |EncodeOp(PutOp(k, v))|
    ensures ParseOps(EncodeOp(PutOp(k, v))[..n]) == Handled([], BadPut)
  {
    var a, b := LengthPrefixed(k), LengthPrefixed(v);
    hide LengthPrefixed, GetLengthPrefixed;
    FrontOfTwo([TYPE_VALUE], a + b, n);
    FrontOfTwo(a, b, n - 1);
    assert EncodeOp(PutOp(k, v))[..n][1..] == (a + b)[..n - 1];
    if n - 1 < |a| {
      CutSliceFails(k, n - 1);
    } else {
      SliceRoundTrip(k, b[..n - 1 - |a|]);
      CutSliceFails(v, n - 1 - |a|);
    }
  }

  /** Of operations cut short the first few are handed out, and not all. */
  lemma {:induction false} CutOpsFail(ops: seq<BatchOp>, n: nat)
    requires n < |EncodeOps(ops)| && forall i | 0 <= i < |ops| :: OpOk(ops[i])
    ensures var h := ParseOps(EncodeOps(ops)[..n]); |h.ops| < |ops| && h.ops == ops[..|h.ops|]
    decreases |ops|, 1
  {
    var one, rest := EncodeOp(ops[0]), EncodeOps(ops[1..]);
    var cut := EncodeOps(ops)[..n];
    hide EncodeOp;
    if n == 0 {
    } else if n < |one| {
      assert cut == one[..n];
      CutOpFails(ops[0], n);
    } else {
      assert cut == one + rest[..n - |one|];
      OpReads(ops[0], rest[..n - |one|]);
      hide ParseOps;
      CutRest(ops, n - |one|);
    }
  }

  lemma {:induction false} CutRest(ops: seq<BatchOp>, n: nat)
    requires |ops| > 0 && n < |EncodeOps(ops[1..])| && forall i | 0 <= i < |ops| :: OpOk(ops[i])
    ensures var h := After(ops[0], ParseOps(EncodeOps(ops[1..])[..n])); |h.ops| < |ops| && h.ops == ops[..|h.ops|]
    decreases |ops|, 0
  {
    CutOpsFail(ops[1..], n);
    var m := |ParseOps(EncodeOps(ops[1..])[..n]).ops|;
    assert [ops[0]] + ops[1..][..m] == ops[..m + 1];
    hide ParseOps, EncodeOps;
  }

  /** A batch cut short is never taken for a whole one. */
  lemma CutBatchIsRefused(sequence: nat, ops: seq<BatchOp>, n: nat)
    requires sequence < TWO64 && |ops| < TWO32 && (forall i | 0 <= i < |ops| :: OpOk(ops[i])) && n < |Encoded(sequence, ops)|
    ensures var h := Parse(Encoded(sequence, ops)[..n]); h.status != OK && |h.ops| <= |ops| && h.ops == ops[..|h.ops|]
  {
    var rep := Encoded(sequence, ops);
    var cut := rep[..n];
    HeaderReads(sequence, ops);
    if n >= HEADER_SIZE {
      CutHeader(rep, n);
      CutOpsFail(ops, n - HEADER_SIZE);
      hide EncodeOps, ParseOps, CountOf, Encoded;
      assert cut[HEADER_SIZE..] == EncodeOps(ops)[..n - HEADER_SIZE];
    }
  }

  lemma CutHeader(rep: Bytes, n: nat)
    requires HEADER_SIZE <= n <= |rep|
    ensures CountOf(rep[..n]) == CountOf(rep) && rep[..n][HEADER_SIZE..] == rep[HEADER_SIZE..][..n - HEADER_SIZE]
  {
    assert rep[..n][8..12] == rep[8..12];
    hide DecodeFixed;
  }

  // ---- the batch ----

  class WriteBatch {
    var rep: Bytes
    ghost var sequence: nat
    ghost var ops: seq<BatchOp>

    ghost predicate Valid()
      reads this
    {
      sequence < TWO64 && |ops| < TWO32 && rep == Encoded(sequence, ops)
    }

    constructor ()
      ensures Valid() && ops == [] && sequence == 0
    {
      rep := EncodeFixed(8, 0) + EncodeFixed(4, 0) + [];
      sequence, ops := 0, [];
    }

    method Count() returns (n: nat)
      requires Valid()
      ensures n == |ops|
    {
      HeaderReads(sequence, ops);
      n := CountOf(rep);
    }

    /** Overwrites the count in place. */
    method SetCount(n: nat)
      requires |rep| >= HEADER_SIZE
      modifies this`rep
      ensures rep == old(rep)[..8] + EncodeFixed(4, n) + old(rep)[HEADER_SIZE..]
    {
      rep := rep[..8] + EncodeFixed(4, n) + rep[HEADER_SIZE..];
    }

    method SetSequence(s: nat)
      requires Valid() && s < TWO64
      modifies this
      ensures Valid() && sequence == s && ops == old(ops)
    {
      var a, b, c := EncodeFixed(8, sequence), EncodeFixed(4, |ops|), EncodeOps(ops);
      Split(a, b, c);
      rep := EncodeFixed(8, s) + rep[8..];
      Associate(EncodeFixed(8, s), b, c);
      sequence := s;
    }

    /** Put and Delete: the count goes up, the operation goes to the end. */
    method Add(op: BatchOp)
      requires Valid() && |ops| + 1 < TWO32
      modifies this
      ensures Valid() && sequence == old(sequence) && ops == old(ops) + [op]
    {
      var n := Count();
      EncodeOpsOne(op);
      AppendEncoded(n + 1, EncodeOp(op), [op]);
    }

    method AppendEncoded(n: nat, more: Bytes, ghost added: seq<BatchOp>)
      requires Valid() && n == |ops| + |added| < TWO32
      requires more == EncodeOps(added)
      modifies this
      ensures Valid() && sequence == old(sequence) && ops == old(ops) + added
    {
      EncodeOpsAppend(ops, added);
      hide EncodeFixed, EncodeOps;
      var a, b, c := EncodeFixed(8, sequence), EncodeFixed(4, |ops|), EncodeOps(ops);
      Split(a, b, c);
      SetCount(n);
      rep := rep + more;
      Associate(a + EncodeFixed(4, n), c, EncodeOps(added));
      ops := ops + added;
    }

    /** Append: another batch without its header. */
    method Append(source: WriteBatch)
      requires Valid() && source.Valid() && |ops| + |source.ops| < TWO32
      modifies this
      ensures Valid() && sequence == old(sequence) && ops == old(ops) + old(source.ops)
    {
      var n := Count();
      var m := source.Count();
      HeaderReads(source.sequence, source.ops);
      AppendEncoded(n + m, source.rep[HEADER_SIZE..], source.ops);
    }

    /** Iterate over the bytes, whatever they are. */
    method Iterate() returns (h: Handled)
      ensures h == Parse(rep)
    {
      if |rep| < HEADER_SIZE { return Handled([], TooSmall); }
      var input := rep[HEADER_SIZE..];
      var handled: seq<BatchOp> := [];
      ghost var whole := ParseOps(input);
      assert [] + whole.ops == whole.ops;
      while |input| > 0
        invariant whole == Handled(handled + ParseOps(input).ops, ParseOps(input).status)
        decreases |input|
      {
        var tag := input[0];
        var key := GetLengthPrefixed(input[1..]);
        if tag == TYPE_VALUE {
          if key.NoSlice? { return Handled(handled + [], BadPut); }
          var value := GetLengthPrefixed(key.rest);
          if value.NoSlice? { return Handled(handled + [], BadPut); }
          Shift(handled, PutOp(key.value, value.value), ParseOps(value.rest).ops);
          handled := handled + [PutOp(key.value, value.value)];
          input := value.rest;
        } else if tag == TYPE_DELETION {
          if key.NoSlice? { return Handled(handled + [], BadDelete); }
          Shift(handled, DeleteOp(key.value), ParseOps(key.rest).ops);
          handled := handled + [DeleteOp(key.value)];
          input := key.rest;
        } else {
          return Handled(handled + [], UnknownTag);
        }
      }
      assert handled + [] == handled;
      return Handled(handled, if |handled| != CountOf(rep) then WrongCount else OK);
    }

    /** InsertInto: the operations go into the memtable with consecutive sequence numbers. */
    method InsertInto() returns (added: seq<(nat, BatchOp)>, status: Status)
      requires Valid() && forall i | 0 <= i < |ops| :: OpOk(ops[i])
      ensures status == OK && |added| == |ops|
      ensures forall i | 0 <= i < |added| :: added[i] == (sequence + i, ops[i])
    {
      hide Encoded, Parse, SequenceOf, OpOk;
      ParseUndoesEncode(sequence, ops);
      var h := Iterate();
      added := Numbers(h.ops, SequenceOf(rep));
      status := h.status;
    }

    /** MemTableInserter: every operation with the next sequence number. */
    static method Numbers(ops: seq<BatchOp>, first: nat) returns (added: seq<(nat, BatchOp)>)
      ensures |added| == |ops| && forall i | 0 <= i < |added| :: added[i] == (first + i, ops[i])
    {
      var next := first;
      added := [];
      for i := 0 to |ops|
        invariant |added| == i && next == first + i
        invariant forall j | 0 <= j < i :: added[j] == (first + j, ops[j])
      {
        added := added + [(next, ops[i])];
        next := next + 1;
      }
    }
  }

  lemma Split(a: Bytes, b: Bytes, c: Bytes)
    requires |a| == 8 && |b| == 4
    ensures var r := a + b + c; r[..8] == a && r[8..] == b + c && r[12..] == c
  {
  }

  lemma Shift(handled: seq<BatchOp>, op: BatchOp, rest: seq<BatchOp>)
    ensures handled + ([op] + rest) == (handled + [op]) + rest
  {
  }
}
