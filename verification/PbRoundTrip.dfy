/** Decoding what was encoded (ios/Pods/nanopb/pb_encode.c against ios/Pods/nanopb/pb_decode.c). */
module PbRoundTrip {
  import opened DbFormat
  import opened Entries
  import opened Coding
  import opened PbVarint
  import opened PbMessage
  import opened PbFieldIter
  import opened PbEncode
  import opened PbDecode

  // ---- values ----

  /** The lower half of the two's complement is the 32-bit two's complement. */
  lemma LowerHalf(n: int)
    requires -(TWO31 as int) <= n < TWO31
    ensures TwosComplement(n) < TWO64 && ToSigned(TwosComplement(n) % TWO32, TWO32) == n
  {
    if n < 0 { assert TwosComplement(n) == 0xffff_ffff * TWO32 + (TWO32 + n); }
  }

  lemma TwosComplementReads(n: int, s: nat, rest: Bytes)
    requires IntSize(s) && -(Range(s) / 2) <= n < Range(s) / 2
    ensures ReadScalar(VarintT(s), EncodeVarint(TwosComplement(n)) + rest) == Ok(Number(n), rest)
  {
    if s == 8 {
      assert TwosComplement(n) < TWO64 && ToSigned(TwosComplement(n), TWO64) == n;
    } else {
      LowerHalf(n);
    }
    Varint64Reads(TwosComplement(n), rest);
    hide EncodeVarint, ReadVarint64, TwosComplement, ToSigned;
  }

  lemma ZigZagReads(n: int, s: nat, rest: Bytes)
    requires IntSize(s) && -(Range(s) / 2) <= n < Range(s) / 2
    ensures ReadScalar(SVarintT(s), EncodeVarint(ZigZag(n)) + rest) == Ok(Number(n), rest)
  {
    assert ZigZag(n) < TWO64 && UnZigZag(ZigZag(n)) == n;
    Varint64Reads(ZigZag(n), rest);
    hide EncodeVarint, ReadVarint64;
  }

  lemma FixedReads(width: nat, n: nat, rest: Bytes)
    requires n < Pow256(width)
    ensures ReadBytes(EncodeFixed(width, n) + rest, width) == Ok(EncodeFixed(width, n), rest)
    ensures DecodeFixed(EncodeFixed(width, n)) == n
  {
    FixedRoundTrip(width, n);
    var b := EncodeFixed(width, n);
    hide *;
    assert (b + rest)[..width] == b && (b + rest)[width..] == rest;
    ReadBytesOf(b, rest);
  }

  lemma ReadBytesOf(b: Bytes, rest: Bytes)
    ensures ReadBytes(b + rest, |b|) == Ok(b, rest)
  {
    assert (b + rest)[..|b|] == b && (b + rest)[|b|..] == rest;
  }

  /** Every scalar is read back. */
  lemma ScalarReads(l: LType, v: Value, rest: Bytes)
    requires Packable(l) && WfType(l) && Typed(l, v)
    ensures ReadScalar(l, EncScalar(l, v) + rest) == Ok(v, rest)
  {
    match l
    case BoolT =>
      assert ([if v.on then 1 else 0] + rest)[1..] == rest;
    case VarintT(s) => TwosComplementReads(v.n, s, rest);
    case UVarintT(s) =>
      Varint64Reads(v.n, rest);
      hide EncodeVarint, ReadVarint64;
    case SVarintT(s) => ZigZagReads(v.n, s, rest);
    case Fixed32T =>
      FixedWidths();
      FixedReads(4, v.n, rest);
      hide EncodeFixed, DecodeFixed, ReadBytes;
    case Fixed64T =>
      FixedWidths();
      FixedReads(8, v.n, rest);
      hide EncodeFixed, DecodeFixed, ReadBytes;
  }

  // ---- what else is read ----

  /** Any number but zero is true. */
  lemma BoolReadsNumbers(v: nat, rest: Bytes)
    requires v < TWO32
    ensures ReadScalar(BoolT, EncodeVarint(v) + rest) == Ok(Flag(v != 0), rest)
  {
    Varint32Reads(v, rest);
    hide EncodeVarint, ReadVarint32;
  }

  /** A negative number may come without its sign extension, as 32 bits. */
  lemma NegativeIn32Bits(n: int, s: nat, rest: Bytes)
    requires IntSize(s) && s < 8 && -(Range(s) / 2) <= n < 0
    ensures ReadScalar(VarintT(s), EncodeVarint(TWO32 + n) + rest) == Ok(Number(n), rest)
  {
    Varint64Reads(TWO32 + n, rest);
    UpperHalfIsNegative(n);
    hide EncodeVarint, ReadVarint64, ToSigned;
  }

  lemma UpperHalfIsNegative(n: int)
    requires -(TWO31 as int) <= n < 0
    ensures ToSigned((TWO32 + n) % TWO32, TWO32) == n
  {
  }

  /** Bytes of fixed length may come empty, and are zeros then. */
  lemma FixedBytesMayBeEmpty(n: nat, base: Value, rest: Bytes)
    requires WfType(FixedBytesT(n)) && Typed(FixedBytesT(n), base)
    ensures DecValue(FixedBytesT(n), base, LengthPrefixed([]) + rest) == Ok(Octets(seq(n, _ => 0)), rest)
  {
    StringReads([], rest);
    Varint32Reads(0, [] + rest);
    assert [] + rest == rest;
    hide EncodeVarint, ReadVarint32;
  }

  lemma HeadAndTail<T>(s: seq<T>)
    requires |s| > 0
    ensures [s[0]] + s[1..] == s
  {
  }

  lemma {:induction false} PackedReads(l: LType, vs: seq<Value>, room: nat)
    requires Packable(l) && WfType(l) && |vs| <= room && forall k | 0 <= k < |vs| :: Typed(l, vs[k])
    ensures ReadPacked(l, EncPacked(l, vs), room) == Some(vs)
  {
    if |vs| > 0 {
      var rest := EncPacked(l, vs[1..]);
      hide ReadScalar, EncScalar, Typed;
      ScalarReads(l, vs[0], rest);
      PackedReads(l, vs[1..], room - 1);
      HeadAndTail(vs);
    }
  }

  lemma StringReads(b: Bytes, rest: Bytes)
    requires |b| < TWO32
    ensures ReadString(LengthPrefixed(b) + rest) == Ok(b, rest)
    ensures LengthPrefixed(b) + rest == EncodeVarint(|b|) + (b + rest)
  {
    Associate(EncodeVarint(|b|), b, rest);
    Varint32Reads(|b|, b + rest);
    ReadBytesOf(b, rest);
    hide EncodeVarint, ReadVarint32, ReadBytes;
  }

  lemma {:induction false} CStringOf(b: Bytes)
    requires NoZero(b)
    ensures CString(b) == b
  {
    if |b| > 0 {
      CStringOf(b[1..]);
      assert b == [b[0]] + b[1..];
    }
  }

  /** A string that fills its array has no room for the terminator the decoder writes. */
  predicate Terminated(l: LType, v: Value)
    requires Typed(l, v)
    decreases l
  {
    match l
    case StringT(n) => |v.b| < n
    case MessageT(fields) => forall i | 0 <= i < |fields| :: SlotTerminated(fields[i], v.slots[i])
    case _ => true
  }

  predicate SlotTerminated(f: Field, s: Slot)
    requires TypedSlot(f, s)
    decreases f
  {
    match s
    case One(v) => Terminated(f.l, v)
    case Maybe(o) => o.Some? ==> Terminated(f.l, o.value)
    case Many(vs) => forall k | 0 <= k < |vs| :: Terminated(f.l, vs[k])
  }

  lemma StringValueReads(l: LType, v: Value, base: Value, rest: Bytes)
    requires !Packable(l) && !l.MessageT? && WfType(l) && Typed(l, v) && Typed(l, base) && Terminated(l, v)
    requires EncValue(l, v).Some? && |EncValue(l, v).value| < TWO32
    ensures DecValue(l, base, EncValue(l, v).value + rest) == Ok(v, rest)
  {
    StringReads(v.b, rest);
    Varint32Reads(|v.b|, v.b + rest);
    ReadBytesOf(v.b, rest);
    hide EncodeVarint, ReadVarint32, ReadBytes;
    if l.StringT? { CStringOf(v.b); }
    if l.FixedBytesT? && l.length == 0 { assert v.b == seq(0, _ => 0); }
  }

  // ---- where the decoder stands after the first fields ----

  /** The slots with the first `i` already decoded and the others at their defaults. */
  predicate Mixed(l: MessageType, slots: seq<Slot>, i: nat, now: seq<Slot>) {
    && |slots| == |now| == |l.fields|
    && forall j | 0 <= j < |slots| :: now[j] == if j < i then slots[j] else DefaultSlot(l.fields[j])
  }

  predicate SeenBefore(l: MessageType, i: nat, seen: set<nat>)
    requires i <= |l.fields|
  {
    forall k | 0 <= k < RequiredBefore(l.fields, i) && k < MAX_REQUIRED_FIELDS :: k in seen
  }

  /** Between two fields: nothing is half done. */
  predicate StandsAt(l: MessageType, slots: seq<Slot>, i: nat, st: State) {
    && StateOk(l, st) && i <= |l.fields| && Mixed(l, slots, i, st.slots) && SeenBefore(l, i, st.seen)
    && (st.fixedField.Some? ==> st.fixedField.value < i) && FixedCountDone(l, st)
  }

  // ---- one step of the decoder ----

  /** A tag the encoder writes is recognised. */
  lemma TagReads(l: MessageType, i: nat, wireType: nat, rest: Bytes, st: State)
    requires WfType(l) && StateOk(l, st) && i < |l.fields| && wireType < 8
    ensures DecMessage(l, TagBytes(l.fields[i].tag, wireType) + rest, st)
         == match DecOneField(l, l.fields[i].tag, wireType, rest, st) case Fail => Failure case Ok(st', rest') => DecMessage(l, rest', st')
  {
    var tag := l.fields[i].tag;
    assert WfField(l.fields[i]);
    var t := tag * 8 + wireType;
    Varint32Reads(t, rest);
    assert t / 8 == tag && t % 8 == wireType;
    hide EncodeVarint, ReadVarint32, DecOneField;
  }

  lemma FieldIsMet(l: MessageType, i: nat, wireType: nat, input: Bytes, st: State)
    requires WfType(l) && StateOk(l, st) && i < |l.fields|
    ensures DecOneField(l, l.fields[i].tag, wireType, input, st)
         == match Meet(l, st, i) case None => Fail case Some(met) => DecField(l, i, wireType, input, met)
  {
    assert WfField(l.fields[i]);
    OnlyField(l.fields, i);
    hide DecField, Meet, FindField;
  }

  // ---- single values ----

  /** Storing the value of field `i` moves on to field `i + 1`. */
  lemma StoreMovesOn(l: MessageType, slots: seq<Slot>, i: nat, now: seq<Slot>)
    requires Typed(l, Message(slots)) && i < |slots| && Mixed(l, slots, i, now) && Typed(l, Message(now))
    requires l.fields[i].h.Oneof? ==> slots[i].Maybe? && slots[i].o.Some?
    ensures Mixed(l, slots, i + 1, Store(l, now, i, slots[i]))
  {
    var next := Store(l, now, i, slots[i]);
    var f := l.fields[i];
    assert TypedSlot(f, slots[i]);
    if f.h.Oneof? {
      forall j | 0 <= j < |slots| ensures next[j] == if j < i + 1 then slots[j] else DefaultSlot(l.fields[j]) {
        if j < i && l.fields[j].h == f.h {
          assert TypedSlot(l.fields[j], slots[j]);
        }
      }
    }
  }

  lemma MeetMovesOn(l: MessageType, slots: seq<Slot>, i: nat, st: State)
    requires WfType(l) && StandsAt(l, slots, i, st) && i < |l.fields| && !l.fields[i].h.FixedCount?
    ensures var met := Meet(l, st, i);
            met.Some? && met.value.slots == st.slots && met.value.fixedField == st.fixedField && met.value.fixedCount == st.fixedCount
            && SeenBefore(l, i + 1, met.value.seen)
  {
  }

  predicate IsSingle(h: HType) {
    h.Required? || h.Optional? || h.Singular? || h.Oneof?
  }

  /** The value a slot holds, if any is to be written. */
  function Present(s: Slot): Option<Value> {
    match s case One(v) => Some(v) case Maybe(o) => o case Many(_) => None
  }

  lemma SlotOf(f: Field, s: Slot, v: Value)
    requires TypedSlot(f, s) && IsSingle(f.h) && Present(s) == Some(v)
    ensures Typed(f.l, v) && WithValue(f, v) == s
  {
  }

  lemma BaseIsDefault(f: Field)
    requires WfField(f)
    ensures TypedSlot(f, DefaultSlot(f)) && Base(f, DefaultSlot(f)) == DefaultValue(f.l)
  {
    DefaultIsTyped(f.l);
  }

  /** A single field that is written is stored. */
  lemma SingleReads(l: MessageType, slots: seq<Slot>, i: nat, wireType: nat, b: Bytes, rest: Bytes, st: State, v: Value) returns (st': State)
    requires WfType(l) && Typed(l, Message(slots)) && StandsAt(l, slots, i, st) && i < |l.fields| && wireType < 8
    requires IsSingle(l.fields[i].h) && Present(slots[i]) == Some(v)
    requires WfField(l.fields[i]) && Typed(l.fields[i].l, DefaultValue(l.fields[i].l))
    requires DecValue(l.fields[i].l, DefaultValue(l.fields[i].l), b + rest) == Ok(v, rest)
    ensures StandsAt(l, slots, i + 1, st')
    ensures DecMessage(l, TagBytes(l.fields[i].tag, wireType) + (b + rest), st) == DecMessage(l, rest, st')
  {
    var f := l.fields[i];
    assert WfField(f) && TypedSlot(f, slots[i]);
    TagReads(l, i, wireType, b + rest, st);
    FieldIsMet(l, i, wireType, b + rest, st);
    MeetMovesOn(l, slots, i, st);
    var met := Meet(l, st, i).value;
    BaseIsDefault(f);
    SlotOf(f, slots[i], v);
    StoreMovesOn(l, slots, i, st.slots);
    st' := met.(slots := Store(l, met.slots, i, slots[i]));
    assert DecField(l, i, wireType, b + rest, met) == Ok(st', rest) by { hide DecValue, Store, Typed; }
  }

  /** A field that is not written is at its default already. */
  lemma AbsentStays(l: MessageType, slots: seq<Slot>, i: nat, st: State)
    requires WfType(l) && Typed(l, Message(slots)) && StandsAt(l, slots, i, st) && i < |l.fields|
    requires TypedSlot(l.fields[i], slots[i]) && EncField(l.fields[i], slots[i]) == Some([])
    ensures StandsAt(l, slots, i + 1, st)
  {
    var f := l.fields[i];
    assert WfField(f);
    NothingWritten(f, slots[i]);
    if f.h.Singular? { DefaultIsDefault(f.l, slots[i].v); }
    hide EncField, DefaultValue, Typed;
  }

  lemma ItemIsNotEmpty(f: Field, v: Value)
    requires Typed(f.l, v) && EncItem(f, v).Some?
    ensures |EncItem(f, v).value| > 0
  {
    hide EncValue;
  }

  lemma NothingWritten(f: Field, s: Slot)
    requires TypedSlot(f, s) && EncField(f, s) == Some([]) && WfField(f)
    ensures match f.h
            case Required => false
            case Singular => IsDefault(f.l, s.v)
            case FixedCount(_) => false
            case _ => s == DefaultSlot(f)
  {
    match f.h
    case Required => ItemIsNotEmpty(f, s.v);
    case Singular => if !IsDefault(f.l, s.v) { ItemIsNotEmpty(f, s.v); }
    case Optional => if s.o.Some? { ItemIsNotEmpty(f, s.o.value); }
    case Oneof(_) => if s.o.Some? { ItemIsNotEmpty(f, s.o.value); }
    case Repeated(max) => if |s.vs| > 0 { ArrayIsNotEmpty(f, s.vs, max); }
    case FixedCount(n) => ArrayIsNotEmpty(f, s.vs, n);
  }

  /** Which fields take no bytes at all. */
  lemma LeftOutExactly(f: Field, s: Slot)
    requires WfField(f) && TypedSlot(f, s)
    ensures EncField(f, s) == Some([])
            <==> !f.h.Required? && !f.h.FixedCount? && s == DefaultSlot(f) && (f.h.Singular? ==> Omittable(f.l))
  {
    if f.h.Singular? { OmittedExactly(f.l, s.v); }
    if EncField(f, s) == Some([]) { NothingWritten(f, s); }
    hide DefaultValue, Typed, Omittable, EncItem;
  }

  lemma ArrayIsNotEmpty(f: Field, vs: seq<Value>, max: nat)
    requires |vs| > 0 && (forall k | 0 <= k < |vs| :: Typed(f.l, vs[k])) && EncArray(f, vs, max).Some?
    ensures |EncArray(f, vs, max).value| > 0
  {
    if !Packable(f.l) { ItemIsNotEmpty(f, vs[0]); }
    hide EncItem, EncPacked, LengthPrefixed;
  }

  // ---- arrays ----

  /** In the middle of array `i`: `k` elements are there, and the counters say so. */
  predicate StandsIn(l: MessageType, slots: seq<Slot>, i: nat, k: nat, st: State) {
    && StateOk(l, st) && i < |l.fields| == |slots| && slots[i].Many? && k <= |slots[i].vs|
    && |st.slots| == |slots| && st.slots[i].Many? && SeenBefore(l, i, st.seen)
    && (forall j | 0 <= j < |slots| && j != i :: st.slots[j] == if j < i then slots[j] else DefaultSlot(l.fields[j]))
    && if l.fields[i].h.Repeated? then
         && st.slots[i].vs == slots[i].vs[..k]
         && (st.fixedField.Some? ==> st.fixedField.value < i) && FixedCountDone(l, st)
       else
         && l.fields[i].h.FixedCount? && |st.slots[i].vs| == |slots[i].vs| == l.fields[i].h.count
         && st.slots[i].vs[..k] == slots[i].vs[..k]
         && if k == 0 then (st.fixedField.Some? ==> st.fixedField.value < i) && FixedCountDone(l, st)
            else st.fixedField == Some(i) && st.fixedCount == k
  }

  lemma ArrayBegins(l: MessageType, slots: seq<Slot>, i: nat, st: State)
    requires Typed(l, Message(slots)) && StandsAt(l, slots, i, st) && i < |l.fields| && IsArrayField(l.fields[i])
    ensures StandsIn(l, slots, i, 0, st)
  {
    assert TypedSlot(l.fields[i], slots[i]) && TypedSlot(l.fields[i], st.slots[i]);
  }

  lemma ArrayEnds(l: MessageType, slots: seq<Slot>, i: nat, st: State)
    requires Typed(l, Message(slots)) && i < |l.fields| == |slots| && slots[i].Many? && WfField(l.fields[i])
    requires StandsIn(l, slots, i, |slots[i].vs|, st)
    ensures StandsAt(l, slots, i + 1, st)
  {
    assert TypedSlot(l.fields[i], slots[i]);
    var vs := slots[i].vs;
    assert vs[..|vs|] == vs && st.slots[i].vs[..|st.slots[i].vs|] == st.slots[i].vs;
    assert st.slots[i] == slots[i];
  }

  /** Meeting the array makes room for the next elements. */
  lemma ArrayIsMet(l: MessageType, slots: seq<Slot>, i: nat, k: nat, st: State)
    requires WfType(l) && Typed(l, Message(slots)) && StandsIn(l, slots, i, k, st) && WfField(l.fields[i]) && IsArrayField(l.fields[i])
    ensures var met := Meet(l, st, i);
            && met.Some? && IsArray(l, met.value, i) && met.value.slots == st.slots && met.value.seen == st.seen
            && Filled(l, met.value, i) == k && Room(l, met.value, i) == (if k <= Capacity(l.fields[i]) then Capacity(l.fields[i]) - k else 0)
            && (l.fields[i].h.Repeated? ==> met.value == st)
  {
    assert TypedSlot(l.fields[i], st.slots[i]) && TypedSlot(l.fields[i], slots[i]);
  }

  /** Appending the elements k to m of an array. */
  lemma AppendMovesOn(l: MessageType, slots: seq<Slot>, i: nat, k: nat, m: nat, st: State)
    requires WfType(l) && Typed(l, Message(slots)) && StandsIn(l, slots, i, k, st) && WfField(l.fields[i]) && IsArrayField(l.fields[i])
    requires k < m <= |slots[i].vs| <= Capacity(l.fields[i])
    ensures var met := Meet(l, st, i).value;
            var more := slots[i].vs[k..m];
            && TypedSlot(l.fields[i], slots[i]) && IsArray(l, met, i) && |more| <= Room(l, met, i)
            && StandsIn(l, slots, i, m, Appended(l, met, i, more))
  {
    ArrayIsMet(l, slots, i, k, st);
    var met := Meet(l, st, i).value;
    var vs, more := slots[i].vs, slots[i].vs[k..m];
    assert TypedSlot(l.fields[i], slots[i]);
    assert vs[..k] + more == vs[..m];
    var next := Appended(l, met, i, more);
    if l.fields[i].h.FixedCount? {
      assert next.slots[i].vs[..m] == vs[..m];
    }
  }

  /** A packed array is read in one go. */
  lemma PackedArrayReads(l: MessageType, slots: seq<Slot>, i: nat, rest: Bytes, st: State) returns (st': State)
    requires WfType(l) && Typed(l, Message(slots)) && StandsAt(l, slots, i, st) && i < |l.fields| && IsArrayField(l.fields[i])
    requires Packable(l.fields[i].l) && WfField(l.fields[i]) && TypedSlot(l.fields[i], slots[i])
    requires 0 < |slots[i].vs| <= Capacity(l.fields[i]) && |EncPacked(l.fields[i].l, slots[i].vs)| < TWO32
    ensures StandsAt(l, slots, i + 1, st')
    ensures DecMessage(l, TagBytes(l.fields[i].tag, WT_STRING) + (LengthPrefixed(EncPacked(l.fields[i].l, slots[i].vs)) + rest), st)
         == DecMessage(l, rest, st')
  {
    var f, vs := l.fields[i], slots[i].vs;
    var body := EncPacked(f.l, vs);
    ArrayBegins(l, slots, i, st);
    ArrayIsMet(l, slots, i, 0, st);
    AppendMovesOn(l, slots, i, 0, |vs|, st);
    assert vs[0..|vs|] == vs;
    var met := Meet(l, st, i).value;
    st' := Appended(l, met, i, vs);
    ArrayEnds(l, slots, i, st');
    TagReads(l, i, WT_STRING, LengthPrefixed(body) + rest, st);
    FieldIsMet(l, i, WT_STRING, LengthPrefixed(body) + rest, st);
    StringReads(body, rest);
    PackedReads(f.l, vs, Room(l, met, i));
    assert DecField(l, i, WT_STRING, LengthPrefixed(body) + rest, met) == Ok(st', rest) by {
      hide ReadString, ReadPacked, EncPacked, LengthPrefixed, Appended, Room, Meet;
    }
  }

  lemma OneOfMany(vs: seq<Value>, k: nat)
    requires k < |vs|
    ensures vs[k..k + 1] == [vs[k]]
  {
  }

  /** A field that is met and can be read moves the decoder on. */
  lemma MetFieldReads(l: MessageType, i: nat, wireType: nat, input: Bytes, st: State, met: State, st': State, rest: Bytes)
    requires WfType(l) && StateOk(l, st) && StateOk(l, met) && i < |l.fields| && wireType < 8
    requires Meet(l, st, i) == Some(met) && (l.fields[i].h.FixedCount? ==> met.fixedField == Some(i))
    requires DecField(l, i, wireType, input, met) == Ok(st', rest) && StateOk(l, st')
    ensures DecMessage(l, TagBytes(l.fields[i].tag, wireType) + input, st) == DecMessage(l, rest, st')
  {
    hide DecMessage, DecOneField, DecField, TagBytes, WfType, StateOk, Meet;
    TagReads(l, i, wireType, input, st);
    FieldIsMet(l, i, wireType, input, st);
  }

  lemma ElementIsStored(l: MessageType, i: nat, wireType: nat, input: Bytes, st: State, v: Value, rest: Bytes)
    requires WfType(l) && IsArray(l, st, i) && WfField(l.fields[i]) && !Packable(l.fields[i].l) && Room(l, st, i) > 0
    requires Typed(l.fields[i].l, DefaultValue(l.fields[i].l)) && Typed(l.fields[i].l, v)
    requires DecValue(l.fields[i].l, DefaultValue(l.fields[i].l), input) == Ok(v, rest)
    ensures DecField(l, i, wireType, input, st) == Ok(Appended(l, st, i, [v]), rest)
  {
    hide DecValue, Appended, Room;
    assert Base(l.fields[i], st.slots[i]) == DefaultValue(l.fields[i].l);
  }

  /** One element of an array that is not packed. */
  lemma ElementReads(l: MessageType, slots: seq<Slot>, i: nat, k: nat, wireType: nat, b: Bytes, rest: Bytes, st: State) returns (st': State)
    requires WfType(l) && Typed(l, Message(slots)) && StandsIn(l, slots, i, k, st) && WfField(l.fields[i]) && IsArrayField(l.fields[i])
    requires !Packable(l.fields[i].l) && k < |slots[i].vs| <= Capacity(l.fields[i]) && wireType < 8
    requires Typed(l.fields[i].l, DefaultValue(l.fields[i].l))
    requires DecValue(l.fields[i].l, DefaultValue(l.fields[i].l), b + rest) == Ok(slots[i].vs[k], rest)
    ensures StandsIn(l, slots, i, k + 1, st')
    ensures DecMessage(l, TagBytes(l.fields[i].tag, wireType) + (b + rest), st) == DecMessage(l, rest, st')
  {
    var f, vs := l.fields[i], slots[i].vs;
    hide DecValue, DecMessage, DecOneField, DecField, TagBytes;
    ArrayIsMet(l, slots, i, k, st);
    AppendMovesOn(l, slots, i, k, k + 1, st);
    OneOfMany(vs, k);
    var met := Meet(l, st, i).value;
    st' := Appended(l, met, i, [vs[k]]);
    hide Appended, Meet, StandsIn, WfType, WfField;
    ElementIsStored(l, i, wireType, b + rest, met, vs[k], rest);
    MetFieldReads(l, i, wireType, b + rest, st, met, st', rest);
  }

  // ---- the round trip ----

  /** What the encoder made can be decoded: it is not too long for 32-bit lengths. */
  predicate Decodable(b: Option<Bytes>) {
    b.Some? && |b.value| < TWO32
  }

  lemma JoinedIsDecodable(a: Option<Bytes>, b: Option<Bytes>)
    requires Decodable(Join(a, b))
    ensures Decodable(a) && Decodable(b) && Join(a, b).value == a.value + b.value
  {
  }

  lemma {:induction false} EachReads(l: MessageType, slots: seq<Slot>, i: nat, k: nat, rest: Bytes, st: State) returns (st': State)
    requires WfType(l) && Typed(l, Message(slots)) && StandsIn(l, slots, i, k, st) && WfField(l.fields[i]) && IsArrayField(l.fields[i])
    requires TypedSlot(l.fields[i], slots[i]) && SlotTerminated(l.fields[i], slots[i])
    requires !Packable(l.fields[i].l) && |slots[i].vs| <= Capacity(l.fields[i])
    requires Decodable(EncEach(l.fields[i], slots[i].vs[k..]))
    ensures StandsIn(l, slots, i, |slots[i].vs|, st')
    ensures DecMessage(l, EncEach(l.fields[i], slots[i].vs[k..]).value + rest, st) == DecMessage(l, rest, st')
    decreases l, 1, 0, |slots[i].vs| - k
  {
    var f, vs := l.fields[i], slots[i].vs;
    if k == |vs| {
      st' := st;
      assert EncEach(f, vs[k..]) == Some([]);
      assert [] + rest == rest;
    } else {
      var tail := EncEach(f, vs[k + 1..]);
      NextElement(f, vs, k, rest);
      DefaultIsTyped(f.l);
      hide DecMessage, DecValue, EncEach, EncValue, StandsIn;
      ValueReads(f.l, vs[k], tail.value + rest);
      var mid := ElementReads(l, slots, i, k, WireType(f.l), EncValue(f.l, vs[k]).value, tail.value + rest, st);
      st' := EachReads(l, slots, i, k + 1, rest, mid);
    }
  }

  /** The next element of an array that is not packed, and what follows it. */
  lemma NextElement(f: Field, vs: seq<Value>, k: nat, rest: Bytes)
    requires k < |vs| && (forall j | 0 <= j < |vs| :: Typed(f.l, vs[j])) && Decodable(EncEach(f, vs[k..]))
    ensures Decodable(EncValue(f.l, vs[k])) && Decodable(EncEach(f, vs[k + 1..])) && WireType(f.l) < 8
    ensures EncEach(f, vs[k..]).value + rest
         == TagBytes(f.tag, WireType(f.l)) + (EncValue(f.l, vs[k]).value + (EncEach(f, vs[k + 1..]).value + rest))
  {
    var tail := EncEach(f, vs[k + 1..]);
    assert vs[k..][0] == vs[k] && vs[k..][1..] == vs[k + 1..];
    assert EncEach(f, vs[k..]) == Join(EncItem(f, vs[k]), tail);
    hide EncEach, EncItem;
    JoinedIsDecodable(EncItem(f, vs[k]), tail);
    ItemParts(f, vs[k], tail.value + rest);
    Associate(EncItem(f, vs[k]).value, tail.value, rest);
  }

  lemma ItemParts(f: Field, v: Value, rest: Bytes)
    requires Typed(f.l, v) && Decodable(EncItem(f, v))
    ensures Decodable(EncValue(f.l, v)) && WireType(f.l) < 8
    ensures EncItem(f, v).value + rest == TagBytes(f.tag, WireType(f.l)) + (EncValue(f.l, v).value + rest)
  {
    Associate(TagBytes(f.tag, WireType(f.l)), EncValue(f.l, v).value, rest);
    hide EncValue, TagBytes;
  }

  /** One value is read back, whatever follows it. */
  lemma {:induction false} ValueReads(l: LType, v: Value, rest: Bytes)
    requires WfType(l) && Typed(l, v) && Terminated(l, v) && Typed(l, DefaultValue(l)) && Decodable(EncValue(l, v))
    ensures DecValue(l, DefaultValue(l), EncValue(l, v).value + rest) == Ok(v, rest)
    decreases l, 2, 0, 0
  {
    if Packable(l) {
      ScalarReads(l, v, rest);
      hide ReadScalar, EncScalar;
    } else if l.MessageT? {
      var body := EncFields(l, v.slots, 0);
      MessageReads(l, v.slots);
      StringReads(body.value, rest);
      hide ReadString, LengthPrefixed, EncFields, DecMessage, DefaultSlots;
    } else {
      StringValueReads(l, v, DefaultValue(l), rest);
    }
  }

  /** A whole message is read back. */
  lemma {:induction false} MessageReads(l: MessageType, slots: seq<Slot>)
    requires WfType(l) && Typed(l, Message(slots)) && Terminated(l, Message(slots)) && Decodable(EncFields(l, slots, 0))
    requires Typed(l, Message(DefaultSlots(l)))
    ensures DecMessage(l, EncFields(l, slots, 0).value, Begun(DefaultSlots(l))) == Success(slots, [])
    decreases l, 1, 2, 0
  {
    FieldsRead(l, slots, 0, Begun(DefaultSlots(l)));
  }

  lemma {:induction false} FieldsRead(l: MessageType, slots: seq<Slot>, i: nat, st: State)
    requires WfType(l) && Typed(l, Message(slots)) && Terminated(l, Message(slots))
    requires StandsAt(l, slots, i, st) && Decodable(EncFields(l, slots, i))
    ensures DecMessage(l, EncFields(l, slots, i).value, st) == Success(slots, [])
    decreases l, 1, 1, |slots| - i
  {
    if i == |slots| {
      assert st.slots == slots;
    } else {
      var f := l.fields[i];
      assert TypedSlot(f, slots[i]) && SlotTerminated(f, slots[i]);
      var tail := EncFields(l, slots, i + 1);
      JoinedIsDecodable(EncField(f, slots[i]), tail);
      var st' := FieldReads(l, slots, i, tail.value, st);
      FieldsRead(l, slots, i + 1, st');
    }
  }

  /** One field is read back, whatever follows it. */
  lemma {:induction false} FieldReads(l: MessageType, slots: seq<Slot>, i: nat, rest: Bytes, st: State) returns (st': State)
    requires WfType(l) && Typed(l, Message(slots)) && StandsAt(l, slots, i, st) && i < |l.fields|
    requires TypedSlot(l.fields[i], slots[i]) && SlotTerminated(l.fields[i], slots[i]) && Decodable(EncField(l.fields[i], slots[i]))
    ensures StandsAt(l, slots, i + 1, st')
    ensures DecMessage(l, EncField(l.fields[i], slots[i]).value + rest, st) == DecMessage(l, rest, st')
    decreases l, 1, 0, SIZE_MAX + 2
  {
    var f := l.fields[i];
    assert WfField(f);
    if EncField(f, slots[i]).value == [] {
      AbsentStays(l, slots, i, st);
      st' := st;
      assert [] + rest == rest;
    } else if IsArrayField(f) {
      st' := ArrayReads(l, slots, i, rest, st);
    } else {
      var v := Present(slots[i]).value;
      SingleIsItem(f, slots[i], v);
      ItemParts(f, v, rest);
      DefaultIsTyped(f.l);
      ValueReads(f.l, v, rest);
      st' := SingleReads(l, slots, i, WireType(f.l), EncValue(f.l, v).value, rest, st, v);
    }
  }

  lemma SingleIsItem(f: Field, s: Slot, v: Value)
    requires TypedSlot(f, s) && !IsArrayField(f) && EncField(f, s).Some? && EncField(f, s).value != [] && Present(s) == Some(v)
    ensures Typed(f.l, v) && EncField(f, s) == EncItem(f, v)
  {
  }

  lemma {:induction false} ArrayReads(l: MessageType, slots: seq<Slot>, i: nat, rest: Bytes, st: State) returns (st': State)
    requires WfType(l) && Typed(l, Message(slots)) && StandsAt(l, slots, i, st) && i < |l.fields| && IsArrayField(l.fields[i])
    requires TypedSlot(l.fields[i], slots[i]) && SlotTerminated(l.fields[i], slots[i]) && WfField(l.fields[i])
    requires Decodable(EncField(l.fields[i], slots[i])) && EncField(l.fields[i], slots[i]).value != []
    ensures StandsAt(l, slots, i + 1, st')
    ensures DecMessage(l, EncField(l.fields[i], slots[i]).value + rest, st) == DecMessage(l, rest, st')
    decreases l, 1, 0, SIZE_MAX + 1
  {
    var f, vs := l.fields[i], slots[i].vs;
    assert EncField(f, slots[i]) == EncArray(f, vs, Capacity(f)) && 0 < |vs| <= Capacity(f);
    if Packable(f.l) {
      Associate(TagBytes(f.tag, WT_STRING), LengthPrefixed(EncPacked(f.l, vs)), rest);
      st' := PackedArrayReads(l, slots, i, rest, st);
    } else {
      assert vs[0..] == vs;
      ArrayBegins(l, slots, i, st);
      st' := EachReads(l, slots, i, 0, rest, st);
      ArrayEnds(l, slots, i, st');
    }
  }

  // ---- strings without a terminator ----

  /** A default value is terminated. */
  lemma {:induction false} DefaultIsTerminated(l: LType, v: Value)
    requires WfType(l) && Typed(l, v) && IsDefault(l, v)
    ensures Terminated(l, v)
    decreases l
  {
    if l.MessageT? {
      forall i | 0 <= i < |l.fields| ensures SlotTerminated(l.fields[i], v.slots[i]) {
        var f := l.fields[i];
        assert WfField(f) && TypedSlot(f, v.slots[i]) && SlotIsDefault(f, v.slots[i]);
        if f.h.Singular? { DefaultIsTerminated(f.l, v.slots[i].v); }
      }
    }
  }

  lemma FullStringFails(l: LType, v: Value, base: Value, rest: Bytes)
    requires l.StringT? && WfType(l) && Typed(l, v) && Typed(l, base) && !Terminated(l, v) && Decodable(EncValue(l, v))
    ensures DecValue(l, base, EncValue(l, v).value + rest) == Fail
  {
    StringReads(v.b, rest);
    Varint32Reads(|v.b|, v.b + rest);
    hide EncodeVarint, ReadVarint32, ReadBytes;
  }

  lemma {:induction false} ValueFails(l: LType, v: Value, rest: Bytes)
    requires WfType(l) && Typed(l, v) && !Terminated(l, v) && Typed(l, DefaultValue(l)) && Decodable(EncValue(l, v))
    ensures DecValue(l, DefaultValue(l), EncValue(l, v).value + rest) == Fail
    decreases l, 2, 0, 0
  {
    if l.MessageT? {
      var body := EncFields(l, v.slots, 0);
      var i :| 0 <= i < |l.fields| && !SlotTerminated(l.fields[i], v.slots[i]);
      FieldsFail(l, v.slots, 0, i, Begun(DefaultSlots(l)));
      StringReads(body.value, rest);
      hide ReadString, LengthPrefixed, EncFields, DecMessage, DefaultSlots;
    } else {
      FullStringFails(l, v, DefaultValue(l), rest);
    }
  }

  /** The first field that is not terminated stops the decoder. */
  lemma {:induction false} FieldsFail(l: MessageType, slots: seq<Slot>, i: nat, bad: nat, st: State)
    requires WfType(l) && Typed(l, Message(slots)) && StandsAt(l, slots, i, st) && Decodable(EncFields(l, slots, i))
    requires i <= bad < |l.fields| && TypedSlot(l.fields[bad], slots[bad]) && !SlotTerminated(l.fields[bad], slots[bad])
    ensures DecMessage(l, EncFields(l, slots, i).value, st) == Failure
    decreases l, 1, 1, |slots| - i
  {
    var f := l.fields[i];
    assert TypedSlot(f, slots[i]);
    var tail := EncFields(l, slots, i + 1);
    JoinedIsDecodable(EncField(f, slots[i]), tail);
    if SlotTerminated(f, slots[i]) {
      var st' := FieldReads(l, slots, i, tail.value, st);
      FieldsFail(l, slots, i + 1, bad, st');
    } else {
      FieldFails(l, slots, i, tail.value, st);
    }
  }

  lemma {:induction false} FieldFails(l: MessageType, slots: seq<Slot>, i: nat, rest: Bytes, st: State)
    requires WfType(l) && Typed(l, Message(slots)) && StandsAt(l, slots, i, st) && i < |l.fields|
    requires TypedSlot(l.fields[i], slots[i]) && !SlotTerminated(l.fields[i], slots[i]) && Decodable(EncField(l.fields[i], slots[i]))
    ensures DecMessage(l, EncField(l.fields[i], slots[i]).value + rest, st) == Failure
    decreases l, 1, 0, SIZE_MAX + 2
  {
    if IsArrayField(l.fields[i]) {
      ArrayFieldFails(l, slots, i, rest, st);
    } else {
      SingleFieldFails(l, slots, i, rest, st);
    }
  }

  lemma {:induction false} ArrayFieldFails(l: MessageType, slots: seq<Slot>, i: nat, rest: Bytes, st: State)
    requires WfType(l) && Typed(l, Message(slots)) && StandsAt(l, slots, i, st) && i < |l.fields| && IsArrayField(l.fields[i])
    requires TypedSlot(l.fields[i], slots[i]) && !SlotTerminated(l.fields[i], slots[i]) && Decodable(EncField(l.fields[i], slots[i]))
    ensures DecMessage(l, EncField(l.fields[i], slots[i]).value + rest, st) == Failure
    decreases l, 1, 0, SIZE_MAX + 1
  {
    var f, vs := l.fields[i], slots[i].vs;
    assert WfField(f);
    var bad :| 0 <= bad < |vs| && !Terminated(f.l, vs[bad]);
    assert EncField(f, slots[i]) == EncArray(f, vs, Capacity(f)) && |vs| <= Capacity(f) && vs[0..] == vs;
    ArrayBegins(l, slots, i, st);
    hide DecMessage, StandsIn, StandsAt;
    EachFails(l, slots, i, 0, bad, rest, st);
  }

  lemma {:induction false} SingleFieldFails(l: MessageType, slots: seq<Slot>, i: nat, rest: Bytes, st: State)
    requires WfType(l) && Typed(l, Message(slots)) && StandsAt(l, slots, i, st) && i < |l.fields| && IsSingle(l.fields[i].h)
    requires TypedSlot(l.fields[i], slots[i]) && !SlotTerminated(l.fields[i], slots[i]) && Decodable(EncField(l.fields[i], slots[i]))
    ensures DecMessage(l, EncField(l.fields[i], slots[i]).value + rest, st) == Failure
    decreases l, 1, 0, SIZE_MAX + 1
  {
    var f := l.fields[i];
    assert WfField(f);
    DefaultIsTyped(f.l);
    var v := Present(slots[i]).value;
    if f.h.Singular? && IsDefault(f.l, v) { DefaultIsTerminated(f.l, v); assert false; }
    assert EncField(f, slots[i]) == EncItem(f, v);
    hide DecMessage, DecValue, EncValue, StandsAt;
    ItemParts(f, v, rest);
    ValueFails(f.l, v, rest);
    SingleFails(l, slots, i, WireType(f.l), EncValue(f.l, v).value + rest, st);
  }

  lemma SingleFails(l: MessageType, slots: seq<Slot>, i: nat, wireType: nat, input: Bytes, st: State)
    requires WfType(l) && StandsAt(l, slots, i, st) && i < |l.fields| && wireType < 8 && IsSingle(l.fields[i].h)
    requires WfField(l.fields[i]) && Typed(l.fields[i].l, DefaultValue(l.fields[i].l))
    requires DecValue(l.fields[i].l, DefaultValue(l.fields[i].l), input) == Fail
    ensures DecMessage(l, TagBytes(l.fields[i].tag, wireType) + input, st) == Failure
  {
    TagReads(l, i, wireType, input, st);
    FieldIsMet(l, i, wireType, input, st);
    MeetMovesOn(l, slots, i, st);
    BaseIsDefault(l.fields[i]);
    hide DecValue, Store, Typed;
  }

  lemma TypeOfField(f: Field)
    requires WfField(f)
    ensures WfType(f.l)
  {
  }

  lemma {:induction false} EachFails(l: MessageType, slots: seq<Slot>, i: nat, k: nat, bad: nat, rest: Bytes, st: State)
    requires WfType(l) && Typed(l, Message(slots)) && StandsIn(l, slots, i, k, st) && WfField(l.fields[i]) && IsArrayField(l.fields[i])
    requires TypedSlot(l.fields[i], slots[i]) && k <= bad < |slots[i].vs| <= Capacity(l.fields[i]) && !Terminated(l.fields[i].l, slots[i].vs[bad])
    requires !Packable(l.fields[i].l) && Decodable(EncEach(l.fields[i], slots[i].vs[k..]))
    ensures DecMessage(l, EncEach(l.fields[i], slots[i].vs[k..]).value + rest, st) == Failure
    decreases l, 1, 0, |slots[i].vs| - k
  {
    var f, vs := l.fields[i], slots[i].vs;
    hide DecMessage, DecValue, EncEach, EncValue, StandsIn, WfType, WfField, TagBytes;
    TypeOfField(f);
    var tail := EncEach(f, vs[k + 1..]);
    NextElement(f, vs, k, rest);
    DefaultIsTyped(f.l);
    if Terminated(f.l, vs[k]) {
      ValueReads(f.l, vs[k], tail.value + rest);
      var mid := ElementReads(l, slots, i, k, WireType(f.l), EncValue(f.l, vs[k]).value, tail.value + rest, st);
      EachFails(l, slots, i, k + 1, bad, rest, mid);
    } else {
      ValueFails(f.l, vs[k], tail.value + rest);
      ElementFails(l, slots, i, k, WireType(f.l), EncValue(f.l, vs[k]).value + (tail.value + rest), st);
    }
  }

  lemma ElementFails(l: MessageType, slots: seq<Slot>, i: nat, k: nat, wireType: nat, input: Bytes, st: State)
    requires WfType(l) && Typed(l, Message(slots)) && StandsIn(l, slots, i, k, st) && WfField(l.fields[i]) && IsArrayField(l.fields[i])
    requires !Packable(l.fields[i].l) && k < |slots[i].vs| <= Capacity(l.fields[i]) && wireType < 8
    requires Typed(l.fields[i].l, DefaultValue(l.fields[i].l)) && DecValue(l.fields[i].l, DefaultValue(l.fields[i].l), input) == Fail
    ensures DecMessage(l, TagBytes(l.fields[i].tag, wireType) + input, st) == Failure
  {
    ArrayIsMet(l, slots, i, k, st);
    var f, met := l.fields[i], Meet(l, st, i).value;
    TagReads(l, i, wireType, input, st);
    FieldIsMet(l, i, wireType, input, st);
    assert Base(f, met.slots[i]) == DefaultValue(f.l);
    assert DecField(l, i, wireType, input, met) == Fail by { hide DecValue, Appended, Meet; }
  }

  /** Decoding gives the message back exactly if every string leaves room for its
      terminator; otherwise the decoder refuses what the encoder wrote. */
  lemma DecodeUndoesEncodeExactly(l: MessageType, slots: seq<Slot>)
    requires WfType(l) && Typed(l, Message(slots)) && Decodable(EncFields(l, slots, 0))
    ensures Terminated(l, Message(slots)) ==> Decode(l, EncFields(l, slots, 0).value) == Success(slots, [])
    ensures !Terminated(l, Message(slots)) ==> Decode(l, EncFields(l, slots, 0).value) == Failure
  {
    DefaultIsTyped(l);
    if Terminated(l, Message(slots)) {
      MessageReads(l, slots);
    } else {
      var i :| 0 <= i < |l.fields| && !SlotTerminated(l.fields[i], slots[i]);
      FieldsFail(l, slots, 0, i, Begun(DefaultSlots(l)));
    }
  }
}
