/** The nanopb encoder (ios/Pods/nanopb/pb_encode.c): what a message encodes to, and the
    streaming encoder that sizes each submessage before it writes it. */
module PbEncode {
  import opened DbFormat
  import opened Entries
  import opened Coding
  import opened PbVarint
  import opened PbMessage

  const WT_STRING: nat := 2

  // ---- what a message encodes to ----

  function WireType(l: LType): nat {
    match l
    case Fixed32T => 5
    case Fixed64T => 1
    case BytesT(_) => 2
    case StringT(_) => 2
    case MessageT(_) => 2
    case FixedBytesT(_) => 2
    case _ => 0
  }

  function TagBytes(tag: nat, wireType: nat): Bytes {
    EncodeVarint(tag * 8 + wireType)
  }

  /** The 64-bit two's complement. */
  function TwosComplement(n: int): nat
    requires -(TWO64 as int) <= n
  {
    if n >= 0 then n else TWO64 + n
  }

  function ZigZag(n: int): nat {
    if n < 0 then -2 * n - 1 else 2 * n
  }

  function EncScalar(l: LType, v: Value): Bytes
    requires Packable(l) && Typed(l, v)
  {
    match l
    case BoolT => if v.on then [1] else [0]
    case VarintT(_) => EncodeVarint(TwosComplement(v.n))
    case UVarintT(_) => EncodeVarint(v.n)
    case SVarintT(_) => EncodeVarint(ZigZag(v.n))
    case Fixed32T => EncodeFixed(4, v.n)
    case Fixed64T => EncodeFixed(8, v.n)
  }

  /** Two parts behind each other, if both can be encoded. */
  function Join(a: Option<Bytes>, b: Option<Bytes>): Option<Bytes> {
    if a.Some? && b.Some? then Some(a.value + b.value) else None
  }

  /** None stands for a value the encoder refuses: bytes that claim to be longer than their
      array, or a counter beyond the array. */
  function EncValue(l: LType, v: Value): Option<Bytes>
    requires Typed(l, v)
    decreases l, 1, 0
  {
    if Packable(l) then Some(EncScalar(l, v))
    else if l.MessageT? then
      var body := EncFields(l, v.slots, 0);
      if body.None? then None else Some(LengthPrefixed(body.value))
    else if l.BytesT? && |v.b| > l.max then None
    else Some(LengthPrefixed(v.b))
  }

  function EncFields(l: MessageType, slots: seq<Slot>, i: nat): Option<Bytes>
    requires Typed(l, Message(slots)) && i <= |slots|
    decreases l, 0, |slots| - i
  {
    if i == |slots| then Some([]) else Join(EncField(l.fields[i], slots[i]), EncFields(l, slots, i + 1))
  }

  function EncField(f: Field, s: Slot): Option<Bytes>
    requires TypedSlot(f, s)
    decreases f, 2, 0
  {
    match f.h
    case Required => EncItem(f, s.v)
    case Singular => if IsDefault(f.l, s.v) then Some([]) else EncItem(f, s.v)
    case Optional => if s.o.Some? then EncItem(f, s.o.value) else Some([])
    case Oneof(_) => if s.o.Some? then EncItem(f, s.o.value) else Some([])
    case Repeated(max) => EncArray(f, s.vs, max)
    case FixedCount(n) => EncArray(f, s.vs, n)
  }

  /** A tag and one value. */
  function EncItem(f: Field, v: Value): Option<Bytes>
    requires Typed(f.l, v)
    decreases f, 0, 0
  {
    Join(Some(TagBytes(f.tag, WireType(f.l))), EncValue(f.l, v))
  }

  function EncArray(f: Field, vs: seq<Value>, max: nat): Option<Bytes>
    requires forall k | 0 <= k < |vs| :: Typed(f.l, vs[k])
    decreases f, 1, |vs| + 1
  {
    if |vs| == 0 then Some([])
    else if |vs| > max then None
    else if Packable(f.l) then Some(TagBytes(f.tag, WT_STRING) + LengthPrefixed(EncPacked(f.l, vs)))
    else EncEach(f, vs)
  }

  function EncPacked(l: LType, vs: seq<Value>): Bytes
    requires Packable(l) && forall k | 0 <= k < |vs| :: Typed(l, vs[k])
  {
    if |vs| == 0 then [] else EncScalar(l, vs[0]) + EncPacked(l, vs[1..])
  }

  function EncEach(f: Field, vs: seq<Value>): Option<Bytes>
    requires forall k | 0 <= k < |vs| :: Typed(f.l, vs[k])
    decreases f, 1, |vs|
  {
    if |vs| == 0 then Some([]) else Join(EncItem(f, vs[0]), EncEach(f, vs[1..]))
  }

  // ---- the stream ----

  /** There is something to encode and, when writing, room for it behind `start` bytes. */
  predicate Fits(writes: bool, start: nat, max: nat, enc: Option<Bytes>) {
    enc.Some? && (writes ==> start + |enc.value| <= max)
  }

  /** When a part does not fit behind what was written, the whole does not fit. */
  lemma PartOfWhole(writes: bool, start: nat, max: nat, whole: Option<Bytes>, done: Bytes, part: Option<Bytes>, rest: Option<Bytes>)
    requires whole == Join(Some(done), Join(part, rest))
    ensures !Fits(writes, start + |done|, max, part) ==> !Fits(writes, start, max, whole)
    ensures part.Some? ==> whole == Join(Some(done + part.value), rest)
  {
    if part.Some? && rest.Some? { Associate(done, part.value, rest.value); }
  }

  lemma NothingDone(enc: Option<Bytes>)
    ensures Join(Some([]), enc) == enc && Join(enc, Some([])) == enc
  {
    if enc.Some? { assert [] + enc.value == enc.value && enc.value + [] == enc.value; }
  }

  /** An output stream: one without a callback only counts. */
  class OStream {
    const writes: bool
    const maxSize: nat
    var bytesWritten: nat
    var out: Bytes

    constructor (w: bool, max: nat)
      ensures writes == w && maxSize == max && bytesWritten == 0 && out == [] && Valid()
    {
      writes, maxSize, bytesWritten, out := w, max, 0, [];
    }

    predicate Valid()
      reads this
    {
      writes ==> |out| == bytesWritten <= maxSize
    }

    /** The stream took in `enc`: it succeeds exactly if there is something to encode and,
        when writing, it fits. */
    twostate predicate Took(new enc: Option<Bytes>, ok: bool)
      reads this
    {
      && Valid()
      && (ok <==> Fits(writes, old(bytesWritten), maxSize, enc))
      && (ok ==> bytesWritten == old(bytesWritten) + |enc.value| && (writes ==> out == old(out) + enc.value))
    }

    method Write(b: Bytes) returns (ok: bool)
      requires Valid()
      modifies this
      ensures Took(Some(b), ok)
    {
      if |b| > 0 && writes {
        if bytesWritten + |b| > maxSize { return false; }
        out := out + b;
      }
      bytesWritten := bytesWritten + |b|;
      return true;
    }

    /** pb_write without data, to count only. */
    method Count(size: nat)
      requires !writes
      modifies this`bytesWritten
      ensures bytesWritten == old(bytesWritten) + size
    {
      bytesWritten := bytesWritten + size;
    }

    method WriteVarint(value: nat) returns (ok: bool)
      requires Valid()
      modifies this
      ensures Took(Some(EncodeVarint(value)), ok)
    {
      if value <= 0x7F {
        ok := Write([value]);
        return;
      }
      var buffer := MarkedGroups(value);
      LastUnmarked(value);
      buffer := buffer[|buffer| - 1 := buffer[|buffer| - 1] % 128];
      ok := Write(buffer);
    }

    method WriteString(b: Bytes) returns (ok: bool)
      requires Valid()
      modifies this
      ensures Took(Some(LengthPrefixed(b)), ok)
    {
      ok := WriteVarint(|b|);
      if ok { ok := Write(b); }
    }

    method WriteTag(tag: nat, wireType: nat) returns (ok: bool)
      requires Valid()
      modifies this
      ensures Took(Some(TagBytes(tag, wireType)), ok)
    {
      ok := WriteVarint(tag * 8 + wireType);
    }
  }

  method MarkedGroups(value: nat) returns (buffer: Bytes)
    ensures buffer == AllMarked(value)
  {
    buffer := [];
    var left := value;
    while left > 0
      invariant buffer + AllMarked(left) == AllMarked(value)
    {
      Associate(buffer, [left % 128 + 128], AllMarked(left / 128));
      buffer := buffer + [left % 128 + 128];
      left := left / 128;
    }
  }

  /** All groups of a number with the continuation bit set. */
  function AllMarked(v: nat): (r: Bytes)
    ensures v > 0 ==> |r| > 0
  {
    if v == 0 then [] else [v % 128 + 128] + AllMarked(v / 128)
  }

  /** Clearing the mark of the last group gives the varint. */
  lemma {:induction false} LastUnmarked(v: nat)
    requires v > 0
    ensures var m := AllMarked(v);
            EncodeVarint(v) == m[|m| - 1 := m[|m| - 1] % 128]
  {
    if v >= 128 {
      LastUnmarked(v / 128);
      var m := AllMarked(v / 128);
      assert AllMarked(v) == [v % 128 + 128] + m;
      assert ([v % 128 + 128] + m)[|m| := m[|m| - 1] % 128] == [v % 128 + 128] + m[|m| - 1 := m[|m| - 1] % 128];
    } else {
      assert AllMarked(v / 128) == [];
    }
  }

  // ---- the encoder ----

  method EncodeScalar(stream: OStream, l: LType, v: Value) returns (ok: bool)
    requires stream.Valid() && Packable(l) && Typed(l, v)
    modifies stream
    ensures stream.Took(Some(EncScalar(l, v)), ok)
  {
    match l
    case BoolT => ok := stream.WriteVarint(if v.on then 1 else 0);
    case VarintT(_) => ok := stream.WriteVarint(TwosComplement(v.n));
    case UVarintT(_) => ok := stream.WriteVarint(v.n);
    case SVarintT(_) => ok := stream.WriteVarint(ZigZag(v.n));
    case Fixed32T => ok := stream.Write(EncodeFixed(4, v.n));
    case Fixed64T => ok := stream.Write(EncodeFixed(8, v.n));
  }

  /** pb_encode_submessage: a sizing pass, the length, and a writing pass that is bound to
      it.  The two passes always agree. */
  method EncodeSubmessage(stream: OStream, l: MessageType, slots: seq<Slot>) returns (ok: bool)
    requires stream.Valid() && Typed(l, Message(slots))
    modifies stream
    ensures stream.Took(EncValue(l, Message(slots)), ok)
    decreases l, 4, 0
  {
    var sizing := new OStream(false, 0);
    ok := EncodeMessage(sizing, l, slots);
    if !ok { return false; }
    var size := sizing.bytesWritten;
    ok := stream.WriteVarint(size);
    if !ok { return false; }
    if !stream.writes {
      stream.Count(size);
      return true;
    }
    if stream.bytesWritten + size > stream.maxSize { return false; }
    var substream := new OStream(true, size);
    ok := EncodeMessage(substream, l, slots);
    stream.bytesWritten := stream.bytesWritten + substream.bytesWritten;
    stream.out := stream.out + substream.out;
    // "submsg size changed" cannot happen
    assert ok && substream.bytesWritten == size;
    return ok;
  }

  method EncodeValue(stream: OStream, l: LType, v: Value) returns (ok: bool)
    requires stream.Valid() && Typed(l, v)
    modifies stream
    ensures stream.Took(EncValue(l, v), ok)
    decreases l, 5, 0
  {
    if Packable(l) {
      ok := EncodeScalar(stream, l, v);
    } else if l.MessageT? {
      ok := EncodeSubmessage(stream, l, v.slots);
    } else if l.BytesT? && |v.b| > l.max {
      return false;
    } else {
      ok := stream.WriteString(v.b);
    }
  }

  method EncodeItem(stream: OStream, f: Field, v: Value) returns (ok: bool)
    requires stream.Valid() && Typed(f.l, v)
    modifies stream
    ensures stream.Took(EncItem(f, v), ok)
    decreases f, 0, 0
  {
    ok := stream.WriteTag(f.tag, WireType(f.l));
    if ok { ok := EncodeValue(stream, f.l, v); }
  }

  /** The elements of a packed array, without tags. */
  method EncodePacked(stream: OStream, l: LType, vs: seq<Value>) returns (ok: bool)
    requires stream.Valid() && Packable(l) && forall k | 0 <= k < |vs| :: Typed(l, vs[k])
    modifies stream
    ensures stream.Took(Some(EncPacked(l, vs)), ok)
  {
    ghost var done: Bytes, whole := [], Some(EncPacked(l, vs));
    NothingDone(whole);
    assert vs[0..] == vs;
    var i := 0;
    while i < |vs|
      invariant i <= |vs| && stream.Valid()
      invariant whole == Join(Some(done), Some(EncPacked(l, vs[i..])))
      invariant stream.bytesWritten == old(stream.bytesWritten) + |done| && (stream.writes ==> stream.out == old(stream.out) + done)
    {
      assert vs[i..][1..] == vs[i + 1..];
      ghost var part := EncScalar(l, vs[i]);
      PartOfWhole(stream.writes, old(stream.bytesWritten), stream.maxSize, whole, done, Some(part), Some(EncPacked(l, vs[i + 1..])));
      ok := EncodeScalar(stream, l, vs[i]);
      if !ok { return false; }
      Associate(old(stream.out), done, part);
      done := done + part;
      i := i + 1;
    }
    NothingDone(Some(done));
    return true;
  }

  /** The elements of an array that is not packed, each with its tag. */
  method EncodeEach(stream: OStream, f: Field, vs: seq<Value>) returns (ok: bool)
    requires stream.Valid() && forall k | 0 <= k < |vs| :: Typed(f.l, vs[k])
    modifies stream
    ensures stream.Took(EncEach(f, vs), ok)
    decreases f, 1, 0
  {
    ghost var done: Bytes, whole := [], EncEach(f, vs);
    NothingDone(whole);
    assert vs[0..] == vs;
    var i := 0;
    while i < |vs|
      invariant i <= |vs| && stream.Valid()
      invariant whole == Join(Some(done), EncEach(f, vs[i..]))
      invariant stream.bytesWritten == old(stream.bytesWritten) + |done| && (stream.writes ==> stream.out == old(stream.out) + done)
    {
      assert vs[i..][1..] == vs[i + 1..];
      ghost var part := EncItem(f, vs[i]);
      PartOfWhole(stream.writes, old(stream.bytesWritten), stream.maxSize, whole, done, part, EncEach(f, vs[i + 1..]));
      ok := EncodeItem(stream, f, vs[i]);
      if !ok { return false; }
      Associate(old(stream.out), done, part.value);
      done := done + part.value;
      i := i + 1;
    }
    NothingDone(Some(done));
    return true;
  }

  /** The size of a packed array, computed without writing it where that is possible. */
  method PackedSize(l: LType, vs: seq<Value>) returns (size: nat)
    requires Packable(l) && forall k | 0 <= k < |vs| :: Typed(l, vs[k])
    ensures size == |EncPacked(l, vs)|
  {
    if l.Fixed32T? {
      FixedPackedSize(l, vs, 4);
      return 4 * |vs|;
    }
    if l.Fixed64T? {
      FixedPackedSize(l, vs, 8);
      return 8 * |vs|;
    }
    var sizing := new OStream(false, 0);
    var ok := EncodePacked(sizing, l, vs);
    size := sizing.bytesWritten;
  }

  lemma {:induction false} FixedPackedSize(l: LType, vs: seq<Value>, width: nat)
    requires Packable(l) && forall k | 0 <= k < |vs| :: Typed(l, vs[k])
    requires (l == Fixed32T && width == 4) || (l == Fixed64T && width == 8)
    ensures |EncPacked(l, vs)| == width * |vs|
  {
    if |vs| > 0 { FixedPackedSize(l, vs[1..], width); }
  }

  /** encode_array. */
  method EncodeArray(stream: OStream, f: Field, vs: seq<Value>, max: nat) returns (ok: bool)
    requires stream.Valid() && forall k | 0 <= k < |vs| :: Typed(f.l, vs[k])
    modifies stream
    ensures stream.Took(EncArray(f, vs, max), ok)
    decreases f, 2, 0
  {
    if |vs| == 0 {
      return true;
    }
    if |vs| > max {
      return false;
    }
    if Packable(f.l) {
      ok := EncodePackedArray(stream, f, vs);
    } else {
      ok := EncodeEach(stream, f, vs);
    }
  }

  method EncodePackedArray(stream: OStream, f: Field, vs: seq<Value>) returns (ok: bool)
    requires stream.Valid() && Packable(f.l) && forall k | 0 <= k < |vs| :: Typed(f.l, vs[k])
    modifies stream
    ensures stream.Took(Some(TagBytes(f.tag, WT_STRING) + LengthPrefixed(EncPacked(f.l, vs))), ok)
  {
    ghost var tag, body := TagBytes(f.tag, WT_STRING), EncPacked(f.l, vs);
    ghost var length := EncodeVarint(|body|);
    ghost var start := stream.out;
    Associate(start, tag, length);
    Associate(start, tag + length, body);
    Associate(tag, length, body);
    ok := stream.WriteTag(f.tag, WT_STRING);
    if !ok { return false; }
    var size := PackedSize(f.l, vs);
    ok := stream.WriteVarint(size);
    if !ok { return false; }
    if !stream.writes {
      stream.Count(size);
      return true;
    }
    ok := EncodePacked(stream, f.l, vs);
  }

  /** encode_basic_field. */
  method EncodeField(stream: OStream, f: Field, s: Slot) returns (ok: bool)
    requires stream.Valid() && TypedSlot(f, s)
    modifies stream
    ensures stream.Took(EncField(f, s), ok)
    decreases f, 3, 0
  {
    match f.h
    case Required => ok := EncodeItem(stream, f, s.v);
    case Singular =>
      if IsDefault(f.l, s.v) { return true; }
      ok := EncodeItem(stream, f, s.v);
    case Optional =>
      if s.o.None? { return true; }
      ok := EncodeItem(stream, f, s.o.value);
    case Oneof(_) =>
      if s.o.None? { return true; }
      ok := EncodeItem(stream, f, s.o.value);
    case Repeated(max) => ok := EncodeArray(stream, f, s.vs, max);
    case FixedCount(n) => ok := EncodeArray(stream, f, s.vs, n);
  }

  /** pb_encode: all fields in the order of the descriptor. */
  method EncodeMessage(stream: OStream, l: MessageType, slots: seq<Slot>) returns (ok: bool)
    requires stream.Valid() && Typed(l, Message(slots))
    modifies stream
    ensures stream.Took(EncFields(l, slots, 0), ok)
    decreases l, 3, 0
  {
    ghost var done: Bytes, whole := [], EncFields(l, slots, 0);
    NothingDone(whole);
    var i := 0;
    while i < |slots|
      invariant i <= |slots| && stream.Valid()
      invariant whole == Join(Some(done), EncFields(l, slots, i))
      invariant stream.bytesWritten == old(stream.bytesWritten) + |done| && (stream.writes ==> stream.out == old(stream.out) + done)
    {
      ghost var part := EncField(l.fields[i], slots[i]);
      PartOfWhole(stream.writes, old(stream.bytesWritten), stream.maxSize, whole, done, part, EncFields(l, slots, i + 1));
      ok := EncodeField(stream, l.fields[i], slots[i]);
      if !ok { return false; }
      Associate(old(stream.out), done, part.value);
      done := done + part.value;
      i := i + 1;
    }
    NothingDone(Some(done));
    return true;
  }

  /** pb_get_encoded_size and pb_encode into a buffer: the buffer suffices exactly if the
      size can be computed and is not larger. */
  method EncodeToBuffer(l: MessageType, slots: seq<Slot>, bufSize: nat) returns (size: Option<nat>, ok: bool, buffer: Bytes)
    requires Typed(l, Message(slots))
    ensures ok <==> size.Some? && size.value <= bufSize
    ensures ok ==> Some(buffer) == EncFields(l, slots, 0) && |buffer| == size.value
  {
    var sizing := new OStream(false, 0);
    var sized := EncodeMessage(sizing, l, slots);
    size := if sized then Some(sizing.bytesWritten) else None;
    var stream := new OStream(true, bufSize);
    ok := EncodeMessage(stream, l, slots);
    buffer := stream.out;
    if ok { assert [] + EncFields(l, slots, 0).value == EncFields(l, slots, 0).value; }
  }
}
