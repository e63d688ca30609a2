/** Fields a reader does not know (ios/Pods/nanopb/pb_encode.c against pb_skip_field of
    ios/Pods/nanopb/pb_decode.c): the wire type the encoder writes tells how much to skip, so
    that a message decodes to the fields known whatever else it holds. */
module PbUnknown {
  import opened DbFormat
  import opened Entries
  import opened Coding
  import opened PbVarint
  import opened PbMessage
  import opened PbFieldIter
  import opened PbEncode
  import opened PbDecode
  import opened PbRoundTrip

  // ---- the wire type says how long a value is ----

  lemma {:induction false} VarintIsSkipped(v: nat, rest: Bytes)
    ensures SkipVarint(EncodeVarint(v) + rest) == Ok((), rest)
  {
    if v >= 128 {
      VarintIsSkipped(v / 128, rest);
      assert (EncodeVarint(v) + rest)[1..] == EncodeVarint(v / 128) + rest;
    } else {
      assert ([v] + rest)[1..] == rest;
    }
  }

  lemma ScalarIsSkipped(l: LType, v: Value, rest: Bytes)
    requires Packable(l) && Typed(l, v)
    ensures Skip(WireType(l), EncScalar(l, v) + rest) == Ok((), rest)
  {
    match l
    case BoolT => assert ([if v.on then 1 else 0] + rest)[1..] == rest;
    case VarintT(_) => VarintIsSkipped(TwosComplement(v.n), rest);
    case UVarintT(_) => VarintIsSkipped(v.n, rest);
    case SVarintT(_) => VarintIsSkipped(ZigZag(v.n), rest);
    case Fixed32T =>
      FixedWidths();
      FixedReads(4, v.n, rest);
    case Fixed64T =>
      FixedWidths();
      FixedReads(8, v.n, rest);
  }

  lemma StringIsSkipped(b: Bytes, rest: Bytes)
    requires |b| < TWO32
    ensures Skip(WT_STRING, LengthPrefixed(b) + rest) == Ok((), rest)
  {
    StringReads(b, rest);
    hide LengthPrefixed, ReadString;
  }

  lemma PrefixedIsLonger(b: Bytes)
    ensures |b| < |LengthPrefixed(b)|
  {
  }

  /** Whoever skips a value by its wire type stands right behind it. */
  lemma ValueIsSkipped(l: LType, v: Value, rest: Bytes)
    requires WfType(l) && Typed(l, v) && Decodable(EncValue(l, v))
    ensures Skip(WireType(l), EncValue(l, v).value + rest) == Ok((), rest)
  {
    if Packable(l) {
      ScalarIsSkipped(l, v, rest);
    } else if l.MessageT? {
      var body := EncFields(l, v.slots, 0);
      hide EncFields, LengthPrefixed, Typed, WfType, Skip;
      PrefixedIsLonger(body.value);
      StringIsSkipped(body.value, rest);
    } else {
      hide EncFields, LengthPrefixed, WfType, Skip;
      PrefixedIsLonger(v.b);
      StringIsSkipped(v.b, rest);
    }
  }

  lemma PackedIsSkipped(l: LType, vs: seq<Value>, rest: Bytes)
    requires Packable(l) && (forall k | 0 <= k < |vs| :: Typed(l, vs[k])) && |EncPacked(l, vs)| < TWO32
    ensures Skip(WT_STRING, LengthPrefixed(EncPacked(l, vs)) + rest) == Ok((), rest)
  {
    hide EncPacked;
    StringIsSkipped(EncPacked(l, vs), rest);
  }

  // ---- a whole field is skipped ----

  /** Behind an unknown tag the decoder goes on as it was. */
  lemma UnknownIsSkipped(k: MessageType, tag: nat, wireType: nat, b: Bytes, rest: Bytes, st: State)
    requires WfType(k) && StateOk(k, st) && 0 < tag < TAG_LIMIT && wireType < 8 && !HasTag(k.fields, tag)
    requires Skip(wireType, b + rest) == Ok((), rest)
    ensures DecMessage(k, TagBytes(tag, wireType) + (b + rest), st) == DecMessage(k, rest, st)
  {
    hide EncodeVarint, ReadVarint32, WfType, StateOk, Skip;
    Varint32Reads(tag * 8 + wireType, b + rest);
    TagParts(tag, wireType);
  }

  lemma TagParts(tag: nat, wireType: nat)
    requires wireType < 8
    ensures (tag * 8 + wireType) / 8 == tag && (tag * 8 + wireType) % 8 == wireType
  {
  }

  lemma ItemIsSkipped(k: MessageType, f: Field, v: Value, rest: Bytes, st: State)
    requires WfType(k) && StateOk(k, st) && WfField(f) && !HasTag(k.fields, f.tag)
    requires Typed(f.l, v) && Decodable(EncItem(f, v))
    ensures DecMessage(k, EncItem(f, v).value + rest, st) == DecMessage(k, rest, st)
  {
    hide DecMessage, EncValue, Skip, HasTag, StateOk, Typed;
    ItemParts(f, v, rest);
    ValueIsSkipped(f.l, v, rest);
    UnknownIsSkipped(k, f.tag, WireType(f.l), EncValue(f.l, v).value, rest, st);
  }

  lemma {:induction false} EachIsSkipped(k: MessageType, f: Field, vs: seq<Value>, rest: Bytes, st: State)
    requires WfType(k) && StateOk(k, st) && WfField(f) && !HasTag(k.fields, f.tag)
    requires (forall i | 0 <= i < |vs| :: Typed(f.l, vs[i])) && Decodable(EncEach(f, vs))
    ensures DecMessage(k, EncEach(f, vs).value + rest, st) == DecMessage(k, rest, st)
  {
    if |vs| == 0 {
      assert [] + rest == rest;
    } else {
      var tail := EncEach(f, vs[1..]);
      hide DecMessage, EncItem, HasTag, StateOk, WfType, WfField, Typed;
      JoinedIsDecodable(EncItem(f, vs[0]), tail);
      Associate(EncItem(f, vs[0]).value, tail.value, rest);
      ItemIsSkipped(k, f, vs[0], tail.value + rest, st);
      EachIsSkipped(k, f, vs[1..], rest, st);
    }
  }

  lemma ArrayIsSkipped(k: MessageType, f: Field, vs: seq<Value>, max: nat, rest: Bytes, st: State)
    requires WfType(k) && StateOk(k, st) && WfField(f) && !HasTag(k.fields, f.tag)
    requires (forall i | 0 <= i < |vs| :: Typed(f.l, vs[i])) && Decodable(EncArray(f, vs, max))
    ensures DecMessage(k, EncArray(f, vs, max).value + rest, st) == DecMessage(k, rest, st)
  {
    if |vs| == 0 {
      assert [] + rest == rest;
    } else if Packable(f.l) {
      var body := EncPacked(f.l, vs);
      hide DecMessage, EncPacked, LengthPrefixed, TagBytes, Skip, StateOk, Typed;
      PrefixedIsLonger(body);
      PackedIsSkipped(f.l, vs, rest);
      Associate(TagBytes(f.tag, WT_STRING), LengthPrefixed(body), rest);
      UnknownIsSkipped(k, f.tag, WT_STRING, LengthPrefixed(body), rest, st);
    } else {
      EachIsSkipped(k, f, vs, rest, st);
    }
  }

  /** A field that is not known is passed over, whatever follows it. */
  lemma FieldIsSkipped(k: MessageType, f: Field, s: Slot, rest: Bytes, st: State)
    requires WfType(k) && StateOk(k, st) && WfField(f) && !HasTag(k.fields, f.tag)
    requires TypedSlot(f, s) && Decodable(EncField(f, s))
    ensures DecMessage(k, EncField(f, s).value + rest, st) == DecMessage(k, rest, st)
  {
    hide DecMessage, EncItem, EncArray, HasTag, StateOk, WfType, WfField, Typed, IsDefault;
    if EncField(f, s).value == [] {
      assert [] + rest == rest;
    } else if IsArrayField(f) {
      ArrayIsSkipped(k, f, s.vs, Capacity(f), rest, st);
    } else {
      var v := Present(s).value;
      SingleIsItem(f, s, v);
      ItemIsSkipped(k, f, v, rest, st);
    }
  }

  // ---- a message with fewer fields ----

  /** The elements of the first `n` whose places are kept. */
  function Keep<T>(s: seq<T>, keep: set<nat>, n: nat): (r: seq<T>)
    requires n <= |s|
    ensures |r| <= n
  {
    if n == 0 then [] else Keep(s, keep, n - 1) + (if n - 1 in keep then [s[n - 1]] else [])
  }

  function Kept<T>(s: seq<T>, keep: set<nat>): seq<T> {
    Keep(s, keep, |s|)
  }

  /** The type of a reader that knows only some of the fields. */
  function Known(l: MessageType, keep: set<nat>): MessageType {
    MessageT(Kept(l.fields, keep))
  }

  lemma {:induction false} KeepAlike<S, T>(s: seq<S>, t: seq<T>, keep: set<nat>, n: nat)
    requires n <= |s| == |t|
    ensures |Keep(s, keep, n)| == |Keep(t, keep, n)|
  {
    if n > 0 { KeepAlike(s, t, keep, n - 1); }
  }

  /** Where a kept element is. */
  lemma {:induction false} KeepAt<T>(s: seq<T>, keep: set<nat>, n: nat, i: nat)
    requires i < n <= |s| && i in keep
    ensures |Keep(s, keep, i)| < |Keep(s, keep, n)| && Keep(s, keep, n)[|Keep(s, keep, i)|] == s[i]
    ensures |Keep(s, keep, i + 1)| == |Keep(s, keep, i)| + 1
  {
    if i < n - 1 { KeepAt(s, keep, n - 1, i); }
  }

  /** Where an element comes from. */
  lemma {:induction false} Origin<T>(s: seq<T>, keep: set<nat>, n: nat, j: nat) returns (i: nat)
    requires n <= |s| && j < |Keep(s, keep, n)|
    ensures i < n && i in keep && j == |Keep(s, keep, i)| && Keep(s, keep, n)[j] == s[i]
  {
    if j < |Keep(s, keep, n - 1)| { i := Origin(s, keep, n - 1, j); } else { i := n - 1; }
  }

  lemma {:induction false} KeepRises<T>(s: seq<T>, keep: set<nat>, i: nat, n: nat)
    requires i <= n <= |s|
    ensures |Keep(s, keep, i)| <= |Keep(s, keep, n)|
  {
    if i < n { KeepRises(s, keep, i, n - 1); }
  }

  lemma SameOrigin<S, T>(s: seq<S>, t: seq<T>, keep: set<nat>, j: nat) returns (i: nat)
    requires |s| == |t| && j < |Kept(s, keep)|
    ensures i < |s| && i in keep && j == |Keep(s, keep, i)| && j < |Kept(t, keep)| && Kept(s, keep)[j] == s[i] && Kept(t, keep)[j] == t[i]
  {
    i := Origin(s, keep, |s|, j);
    KeepAlike(s, t, keep, i);
    KeepAt(t, keep, |t|, i);
  }

  lemma DifferentOrigins<T>(s: seq<T>, keep: set<nat>, i: nat, i': nat)
    requires i < |s| && i' < |s| && |Keep(s, keep, i)| < |Keep(s, keep, i')|
    ensures i < i'
  {
    if i' <= i { KeepRises(s, keep, i', i); }
  }

  lemma KnownIsWf(l: MessageType, keep: set<nat>)
    requires WfType(l)
    ensures WfType(Known(l, keep))
  {
    var k := Kept(l.fields, keep);
    forall j | 0 <= j < |k| ensures WfField(k[j]) {
      var i := Origin(l.fields, keep, |l.fields|, j);
    }
    forall j, j' | 0 <= j < j' < |k| ensures k[j].tag != k[j'].tag {
      var i := Origin(l.fields, keep, |l.fields|, j);
      var i' := Origin(l.fields, keep, |l.fields|, j');
      DifferentOrigins(l.fields, keep, i, i');
    }
  }

  lemma KnownIsTyped(l: MessageType, slots: seq<Slot>, keep: set<nat>)
    requires Typed(l, Message(slots))
    ensures Typed(Known(l, keep), Message(Kept(slots, keep)))
  {
    var k, ks := Kept(l.fields, keep), Kept(slots, keep);
    KeepAlike(l.fields, slots, keep, |slots|);
    forall j | 0 <= j < |k| ensures TypedSlot(k[j], ks[j]) {
      var i := SameOrigin(l.fields, slots, keep, j);
    }
    forall j, j' | 0 <= j < j' < |k| && k[j].h.Oneof? && k[j].h == k[j'].h && ks[j].Maybe? && ks[j'].Maybe?
      ensures ks[j].o.None? || ks[j'].o.None?
    {
      var i := SameOrigin(l.fields, slots, keep, j);
      var i' := SameOrigin(l.fields, slots, keep, j');
      DifferentOrigins(l.fields, keep, i, i');
    }
  }

  lemma NotKnown(l: MessageType, keep: set<nat>, i: nat)
    requires WfType(l) && i < |l.fields| && i !in keep
    ensures !HasTag(Known(l, keep).fields, l.fields[i].tag)
  {
    var k := Kept(l.fields, keep);
    forall j | 0 <= j < |k| ensures k[j].tag != l.fields[i].tag {
      var i' := Origin(l.fields, keep, |l.fields|, j);
      assert i' != i;
    }
  }

  /** The strings among the known fields leave room for their terminators. */
  predicate KnownTerminated(l: MessageType, slots: seq<Slot>, keep: set<nat>)
    requires Typed(l, Message(slots))
  {
    forall i | 0 <= i < |l.fields| && i in keep :: SlotTerminated(l.fields[i], slots[i])
  }

  /** What the reader has after the first `i` fields of the message. */
  predicate Knows(l: MessageType, slots: seq<Slot>, keep: set<nat>, i: nat, st: State)
    requires |slots| == |l.fields| && i <= |slots|
  {
    StandsAt(Known(l, keep), Kept(slots, keep), |Keep(slots, keep, i)|, st)
  }

  /** One field, known or not. */
  lemma NextField(l: MessageType, slots: seq<Slot>, keep: set<nat>, i: nat, rest: Bytes, st: State) returns (st': State)
    requires WfType(l) && Typed(l, Message(slots)) && KnownTerminated(l, slots, keep) && i < |l.fields|
    requires WfType(Known(l, keep)) && Typed(Known(l, keep), Message(Kept(slots, keep)))
    requires Knows(l, slots, keep, i, st) && TypedSlot(l.fields[i], slots[i]) && Decodable(EncField(l.fields[i], slots[i]))
    ensures Knows(l, slots, keep, i + 1, st')
    ensures DecMessage(Known(l, keep), EncField(l.fields[i], slots[i]).value + rest, st) == DecMessage(Known(l, keep), rest, st')
  {
    var k, ks, f := Known(l, keep), Kept(slots, keep), l.fields[i];
    assert WfField(f);
    if i in keep {
      KeepAt(slots, keep, |slots|, i);
      KeepAlike(l.fields, slots, keep, i);
      KeepAt(l.fields, keep, |slots|, i);
      hide DecMessage, EncField, StandsAt, SlotTerminated, Typed, WfType, WfField, Keep;
      st' := FieldReads(k, ks, |Keep(slots, keep, i)|, rest, st);
    } else {
      NotKnown(l, keep, i);
      FieldIsSkipped(k, f, slots[i], rest, st);
      st' := st;
    }
  }

  lemma AllIsKnown(l: MessageType, slots: seq<Slot>, keep: set<nat>, st: State)
    requires WfType(Known(l, keep)) && |slots| == |l.fields| && Knows(l, slots, keep, |slots|, st)
    ensures StateOk(Known(l, keep), st) && DecMessage(Known(l, keep), [], st) == Success(Kept(slots, keep), [])
  {
    assert st.slots == Kept(slots, keep);
  }

  lemma {:induction false} KnownFieldsRead(l: MessageType, slots: seq<Slot>, keep: set<nat>, i: nat, st: State)
    requires WfType(l) && Typed(l, Message(slots)) && KnownTerminated(l, slots, keep) && i <= |slots|
    requires WfType(Known(l, keep)) && Typed(Known(l, keep), Message(Kept(slots, keep)))
    requires Knows(l, slots, keep, i, st) && Decodable(EncFields(l, slots, i))
    ensures DecMessage(Known(l, keep), EncFields(l, slots, i).value, st) == Success(Kept(slots, keep), [])
    decreases |slots| - i
  {
    assert i < |slots| ==> TypedSlot(l.fields[i], slots[i]);
    hide DecMessage, EncField, Typed, WfType, Knows, KnownTerminated;
    if i == |slots| {
      AllIsKnown(l, slots, keep, st);
    } else {
      var tail := EncFields(l, slots, i + 1);
      JoinedIsDecodable(EncField(l.fields[i], slots[i]), tail);
      var st' := NextField(l, slots, keep, i, tail.value, st);
      KnownFieldsRead(l, slots, keep, i + 1, st');
    }
  }

  /** A reader that knows some of the fields decodes a whole message to just those fields. */
  lemma DecodesToKnownFields(l: MessageType, slots: seq<Slot>, keep: set<nat>)
    requires WfType(l) && Typed(l, Message(slots)) && KnownTerminated(l, slots, keep) && Decodable(EncFields(l, slots, 0))
    ensures WfType(Known(l, keep)) && Decode(Known(l, keep), EncFields(l, slots, 0).value) == Success(Kept(slots, keep), [])
  {
    KnownIsWf(l, keep);
    KnownIsTyped(l, slots, keep);
    var k := Known(l, keep);
    DefaultIsTyped(k);
    KnowsNothing(l, slots, keep);
    KnownFieldsRead(l, slots, keep, 0, Begun(DefaultSlots(k)));
  }

  lemma KnowsNothing(l: MessageType, slots: seq<Slot>, keep: set<nat>)
    requires |slots| == |l.fields| && Typed(Known(l, keep), DefaultValue(Known(l, keep)))
    ensures Knows(l, slots, keep, 0, Begun(DefaultSlots(Known(l, keep))))
  {
    KeepAlike(l.fields, slots, keep, |slots|);
  }
}
