/** The streaming nanopb decoder (ios/Pods/nanopb/pb_decode.c), proved against what the bytes of its
    input decode to. */
module PbDecoder {
  import opened DbFormat
  import opened Entries
  import opened Coding
  import opened PbVarint
  import opened PbMessage
  import opened PbFieldIter
  import opened PbDecode
  import opened PbInput

  /** The cast to the field's size, and the check that nothing was lost. */
  method StoreNumber(n: int, lo: int, hi: int, ghost rest: Bytes) returns (ok: bool, v: Value)
    ensures var r := InRange(n, lo, hi, rest); ok == r.Ok? && (ok ==> v == r.value)
  {
    return lo <= n < hi, Number(n);
  }

  method DecodeScalar(stream: IStream, l: LType) returns (ok: bool, v: Value)
    requires stream.Valid() && Packable(l) && WfType(l)
    modifies stream
    ensures stream.Valid()
    ensures var r := ReadScalar(l, old(stream.Contents()));
            ok == r.Ok? && (ok ==> v == r.value && stream.WentTo(r.rest))
  {
    v := Number(0);
    var n: nat, b: Bytes := 0, [];
    match l
    case BoolT =>
      ok, n := stream.DecodeVarint32();
      v := Flag(n != 0);
    case VarintT(s) =>
      ok, n := stream.DecodeVarint64();
      if ok {
        var svalue := if s == 8 then ToSigned(n, TWO64) else ToSigned(n % TWO32, TWO32);
        ok, v := StoreNumber(svalue, -(Range(s) / 2), Range(s) / 2, stream.Contents());
      }
    case UVarintT(s) =>
      ok, n := stream.DecodeVarint64();
      if ok { ok, v := StoreNumber(n, 0, Range(s), stream.Contents()); }
    case SVarintT(s) =>
      ok, n := stream.DecodeVarint64();
      if ok { ok, v := StoreNumber(UnZigZag(n), -(Range(s) / 2), Range(s) / 2, stream.Contents()); }
    case Fixed32T =>
      ok, b := stream.Read(4);
      if ok { v := Number(DecodeFixed(b)); }
    case Fixed64T =>
      ok, b := stream.Read(8);
      if ok { v := Number(DecodeFixed(b)); }
  }

  /** Strings and bytes. */
  method DecodeString(stream: IStream, l: LType) returns (ok: bool, v: Value)
    requires stream.Valid() && !Packable(l) && !l.MessageT? && WfType(l)
    modifies stream
    ensures stream.Valid()
    ensures var r := DecValue(l, DefaultValue(l), old(stream.Contents()));
            ok == r.Ok? && (ok ==> v == r.value && stream.WentTo(r.rest))
  {
    DefaultIsTyped(l);
    v := Octets([]);
    var size, b;
    ok, size := stream.DecodeVarint32();
    if !ok || !FitsArray(l, size) { ok := false; return; }
    ok, b := stream.Read(size);
    if ok { v := StoredString(l, b); }
  }

  /** The loop over a packed array. */
  method DecodePacked(substream: IStream, l: LType, room: nat) returns (ok: bool, vs: seq<Value>)
    requires substream.Valid() && Packable(l) && WfType(l)
    modifies substream
    ensures substream.Valid()
    ensures var r := ReadPacked(l, old(substream.Contents()), room);
            ok == r.Some? && (ok ==> vs == r.value && substream.WentTo([]))
  {
    hide PackedSoFar, ReadPacked, ReadScalar;
    vs := [];
    ghost var end, whole := substream.state + substream.bytesLeft, ReadPacked(l, substream.Contents(), room);
    PackedStarts(l, substream.Contents(), room);
    while substream.bytesLeft > 0 && |vs| < room
      invariant substream.Valid() && substream.state + substream.bytesLeft == end && |vs| <= room
      invariant PackedSoFar(l, whole, vs, substream.Contents(), room)
      decreases substream.bytesLeft
    {
      PackedGoesOn(l, whole, vs, substream.Contents(), room);
      var got, v := DecodeScalar(substream, l);
      if !got { return false, []; }
      vs := vs + [v];
    }
    PackedEnds(l, whole, vs, substream.Contents(), room);
    ok := substream.bytesLeft == 0;
  }

  /** The elements read so far, and those the rest holds, are all. */
  predicate PackedSoFar(l: LType, whole: Option<seq<Value>>, vs: seq<Value>, here: Bytes, room: nat)
    requires Packable(l) && WfType(l) && |vs| <= room
  {
    whole == AfterThese(vs, ReadPacked(l, here, room - |vs|))
  }

  lemma PackedStarts(l: LType, here: Bytes, room: nat)
    requires Packable(l) && WfType(l)
    ensures PackedSoFar(l, ReadPacked(l, here, room), [], here, room)
  {
    hide ReadPacked;
    AfterNone(ReadPacked(l, here, room));
  }

  lemma PackedGoesOn(l: LType, whole: Option<seq<Value>>, vs: seq<Value>, here: Bytes, room: nat)
    requires Packable(l) && WfType(l) && |vs| <= room && PackedSoFar(l, whole, vs, here, room)
    ensures |here| > 0 && |vs| < room ==>
              var r := ReadScalar(l, here);
              if r.Fail? then whole == None else PackedSoFar(l, whole, vs + [r.value], r.rest, room)
  {
    hide ReadScalar;
    if |here| > 0 && |vs| < room && ReadScalar(l, here).Ok? {
      AfterMore(vs, ReadScalar(l, here).value, ReadPacked(l, ReadScalar(l, here).rest, room - |vs| - 1));
    }
  }

  lemma PackedEnds(l: LType, whole: Option<seq<Value>>, vs: seq<Value>, here: Bytes, room: nat)
    requires Packable(l) && WfType(l) && |vs| <= room && PackedSoFar(l, whole, vs, here, room)
    ensures |here| == 0 ==> whole == Some(vs)
    ensures |here| > 0 && |vs| == room ==> whole == None
  {
    hide ReadScalar;
    if |here| == 0 { assert vs + [] == vs; }
  }

  function AfterThese(vs: seq<Value>, rest: Option<seq<Value>>): Option<seq<Value>> {
    if rest.None? then None else Some(vs + rest.value)
  }

  lemma AfterNone(r: Option<seq<Value>>)
    ensures AfterThese([], r) == r
  {
    if r.Some? { assert [] + r.value == r.value; }
  }

  lemma AfterMore(vs: seq<Value>, v: Value, rest: Option<seq<Value>>)
    ensures AfterThese(vs, AfterThese([v], rest)) == AfterThese(vs + [v], rest)
  {
    if rest.Some? { assert vs + ([v] + rest.value) == (vs + [v]) + rest.value; }
  }

  /** pb_dec_submessage. */
  method DecodeSubmessage(stream: IStream, l: MessageType, base: seq<Slot>) returns (ok: bool, v: Value)
    requires stream.Valid() && WfType(l) && Typed(l, Message(base))
    modifies stream
    ensures stream.Valid()
    ensures var r := DecValue(l, Message(base), old(stream.Contents()));
            ok == r.Ok? && (ok ==> v == r.value && stream.WentTo(r.rest))
    decreases stream.bytesLeft, 1
  {
    hide DecMessage, ReadString;
    v := Message(base);
    ghost var end := stream.state + stream.bytesLeft;
    var made, substream := stream.MakeSubstream();
    if !made { return false, v; }
    ghost var at, size := substream.state, substream.bytesLeft;
    var slots;
    ok, slots := DecodeMessage(substream, l, base);
    v := Message(slots);
    if ok {
      stream.CloseSubstream(substream, end);
    }
  }

  method DecodeValue(stream: IStream, l: LType, base: Value) returns (ok: bool, v: Value)
    requires stream.Valid() && WfType(l) && Typed(l, base)
    modifies stream
    ensures stream.Valid()
    ensures var r := DecValue(l, base, old(stream.Contents()));
            ok == r.Ok? && (ok ==> v == r.value && stream.WentTo(r.rest))
    decreases stream.bytesLeft, 2
  {
    if Packable(l) {
      ok, v := DecodeScalar(stream, l);
    } else if l.MessageT? {
      ok, v := DecodeSubmessage(stream, l, base.slots);
    } else {
      ok, v := DecodeString(stream, l);
    }
  }

  method DecodePackedArray(stream: IStream, l: MessageType, i: nat, st: State) returns (ok: bool, st': State)
    requires stream.Valid() && WfType(l) && IsArray(l, st, i) && Packable(l.fields[i].l) && WfField(l.fields[i])
    modifies stream
    ensures stream.Valid()
    ensures var r := DecField(l, i, 2, old(stream.Contents()), st);
            ok == r.Ok? && (ok ==> st' == r.value && stream.WentTo(r.rest))
  {
    st' := st;
    ghost var end := stream.state + stream.bytesLeft;
    var made, substream := stream.MakeSubstream();
    if !made { return false, st; }
    var vs;
    ok, vs := DecodePacked(substream, l.fields[i].l, Room(l, st, i));
    if ok {
      st' := Appended(l, st, i, vs);
      stream.CloseSubstream(substream, end);
    }
  }

  /** decode_static_field. */
  method DecodeField(stream: IStream, l: MessageType, i: nat, wireType: nat, st: State) returns (ok: bool, st': State)
    requires stream.Valid() && WfType(l) && StateOk(l, st) && i < |l.fields|
    requires l.fields[i].h.FixedCount? ==> st.fixedField == Some(i)
    modifies stream
    ensures stream.Valid()
    ensures var r := DecField(l, i, wireType, old(stream.Contents()), st);
            ok == r.Ok? && (ok ==> st' == r.value && stream.WentTo(r.rest))
    decreases stream.bytesLeft, 3
  {
    var f := l.fields[i];
    assert WfField(f) && TypedSlot(f, st.slots[i]);
    st' := st;
    var v;
    if f.h.Repeated? || f.h.FixedCount? {
      if wireType == 2 && Packable(f.l) {
        ok, st' := DecodePackedArray(stream, l, i, st);
      } else {
        if Room(l, st, i) == 0 { return false, st; }
        ok, v := DecodeValue(stream, f.l, Base(f, st.slots[i]));
        if ok { st' := Appended(l, st, i, [v]); }
      }
    } else {
      ok, v := DecodeValue(stream, f.l, Base(f, st.slots[i]));
      if ok { st' := st.(slots := Store(l, st.slots, i, WithValue(f, v))); }
    }
  }

  /** Meeting the field the iterator stands on. */
  method MeetField(iter: FieldIter, l: MessageType, st: State) returns (ok: bool, st': State)
    requires iter.Valid() && iter.fields == l.fields && |l.fields| > 0 && StateOk(l, st)
    ensures var r := Meet(l, st, iter.pos); ok == r.Some? && (ok ==> st' == r.value)
  {
    ok, st' := true, st;
    var f := l.fields[iter.pos];
    if f.h.FixedCount? {
      if st.fixedField != Some(iter.pos) {
        if st.fixedField.Some? && st.fixedCount != l.fields[st.fixedField.value].h.count { return false, st; }
        st' := st.(fixedField := Some(iter.pos), fixedCount := 0);
      }
    } else if f.h.Required? && iter.requiredFieldIndex < MAX_REQUIRED_FIELDS {
      st' := st.(seen := st.seen + {iter.requiredFieldIndex});
    }
  }

  /** The end of pb_decode_noinit: walk to the last field to learn how many are required. */
  method CountRequired(iter: FieldIter) returns (count: nat)
    requires iter.Valid()
    modifies iter
    ensures iter.Valid()
    ensures count == RequiredBefore(iter.fields, |iter.fields|)
  {
    if |iter.fields| == 0 { return 0; }
    var last := iter.fields[iter.pos];
    count := iter.requiredFieldIndex;
    var more := iter.Next();
    while more
      invariant iter.Valid() && (more ==> iter.pos > 0)
      invariant last == iter.fields[if more then iter.pos - 1 else |iter.fields| - 1]
      invariant count == RequiredBefore(iter.fields, if more then iter.pos - 1 else |iter.fields| - 1)
      decreases more, |iter.fields| - iter.pos
    {
      last := iter.fields[iter.pos];
      count := iter.requiredFieldIndex;
      more := iter.Next();
    }
    if last.h.Required? { count := count + 1; }
  }

  method CheckComplete(iter: FieldIter, l: MessageType, st: State) returns (ok: bool)
    requires iter.Valid() && iter.fields == l.fields && StateOk(l, st)
    modifies iter
    ensures iter.Valid()
    ensures ok <==> FixedCountDone(l, st) && AllRequiredSeen(l, st)
  {
    if st.fixedField.Some? && st.fixedCount != l.fields[st.fixedField.value].h.count { return false; }
    var count := CountRequired(iter);
    if count > MAX_REQUIRED_FIELDS { count := MAX_REQUIRED_FIELDS; }
    var k := 0;
    while k < count
      invariant k <= count && forall j | 0 <= j < k :: j in st.seen
    {
      if k !in st.seen { return false; }
      k := k + 1;
    }
    return true;
  }

  /** What stands behind a tag. */
  method DecodeOneField(stream: IStream, iter: FieldIter, l: MessageType, tag: nat, wireType: nat, st: State) returns (ok: bool, st': State)
    requires stream.Valid() && iter.Valid() && iter.fields == l.fields && WfType(l) && StateOk(l, st)
    modifies stream, iter
    ensures stream.Valid() && iter.Valid()
    ensures var r := DecOneField(l, tag, wireType, old(stream.Contents()), st);
            ok == r.Ok? && (ok ==> st' == r.value && stream.WentTo(r.rest))
    decreases stream.bytesLeft, 4
  {
    st' := st;
    var found := |l.fields| > 0;
    if |l.fields| == 0 && tag == 0 {
      var ignored;
      ok, ignored := stream.DecodeVarint32();
      return;
    }
    if found { found := iter.Find(tag); }
    if !found {
      ok := stream.SkipField(wireType);
      return;
    }
    OnlyField(l.fields, iter.pos);
    ok, st' := MeetField(iter, l, st);
    if !ok { return; }
    ok, st' := DecodeField(stream, l, iter.pos, wireType, st');
  }

  /** pb_decode_noinit. */
  method DecodeMessage(stream: IStream, l: MessageType, base: seq<Slot>) returns (ok: bool, slots: seq<Slot>)
    requires stream.Valid() && WfType(l) && Typed(l, Message(base))
    modifies stream
    ensures stream.Valid()
    ensures var o := DecMessage(l, old(stream.Contents()), Begun(base));
            ok == o.Success? && (ok ==> slots == o.slots && stream.WentTo(o.rest))
    decreases stream.bytesLeft, 5
  {
    slots := base;
    var st := Begun(base);
    var iter := new FieldIter(l.fields, 0);
    var ended := false;
    ghost var end, whole := stream.state + stream.bytesLeft, DecMessage(l, stream.Contents(), st);
    while stream.bytesLeft > 0 && !ended
      invariant stream.Valid() && stream.state + stream.bytesLeft == end && stream.bytesLeft <= old(stream.bytesLeft)
      invariant iter.Valid() && iter.fields == l.fields && fresh(iter) && StateOk(l, st)
      invariant whole == if ended then Finish(l, st, stream.Contents()) else DecMessage(l, stream.Contents(), st)
      decreases !ended, stream.bytesLeft
    {
      var got, t := stream.DecodeVarint32();
      if !got { return false, slots; }
      if t == 0 {
        ended := true;
      } else {
        got, st := DecodeOneField(stream, iter, l, t / 8, t % 8, st);
        if !got { return false, slots; }
      }
    }
    ok := CheckComplete(iter, l, st);
    slots := st.slots;
  }

  /** pb_decode from a buffer. */
  method DecodeBuffer(l: MessageType, buffer: Bytes) returns (ok: bool, slots: seq<Slot>)
    requires WfType(l)
    ensures var o := Decode(l, buffer); ok == o.Success? && (ok ==> slots == o.slots)
  {
    DefaultIsTyped(l);
    var stream := new IStream(buffer, 0, |buffer|);
    assert stream.Contents() == buffer;
    ok, slots := DecodeMessage(stream, l, DefaultSlots(l));
  }
}
