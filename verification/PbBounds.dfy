/** Memory safety of the nanopb decoder (ios/Pods/nanopb/pb_decode.c): whatever the input, no
    array of the struct is filled beyond its end, on any level of nesting. */
module PbBounds {
  import opened DbFormat
  import opened Entries
  import opened Coding
  import opened PbVarint
  import opened PbMessage
  import opened PbFieldIter
  import opened PbDecode

  /** The value fits the member that holds it: bytes their array, a string its array with a
      terminator, and the elements of a repeated field theirs. */
  predicate InBounds(l: LType, v: Value)
    requires Typed(l, v)
    decreases l
  {
    match l
    case BytesT(max) => |v.b| <= max
    case StringT(n) => |v.b| < n
    case MessageT(fields) => forall i | 0 <= i < |fields| :: SlotInBounds(fields[i], v.slots[i])
    case _ => true
  }

  predicate SlotInBounds(f: Field, s: Slot)
    requires TypedSlot(f, s)
    decreases f
  {
    match s
    case One(v) => InBounds(f.l, v)
    case Maybe(o) => o.Some? ==> InBounds(f.l, o.value)
    case Many(vs) => (f.h.Repeated? ==> |vs| <= f.h.max) && forall k | 0 <= k < |vs| :: InBounds(f.l, vs[k])
  }

  lemma {:induction false} DefaultInBounds(l: LType)
    requires WfType(l) && Typed(l, DefaultValue(l))
    ensures InBounds(l, DefaultValue(l))
    decreases l
  {
    if l.MessageT? {
      forall i | 0 <= i < |l.fields| ensures SlotInBounds(l.fields[i], DefaultSlots(l)[i]) {
        assert WfField(l.fields[i]);
        DefaultIsTyped(l.fields[i].l);
        DefaultInBounds(l.fields[i].l);
      }
    }
  }

  lemma BaseInBounds(f: Field, s: Slot)
    requires WfField(f) && TypedSlot(f, s) && SlotInBounds(f, s)
    ensures InBounds(f.l, Base(f, s))
  {
    DefaultIsTyped(f.l);
    DefaultInBounds(f.l);
  }

  lemma StoreInBounds(l: MessageType, slots: seq<Slot>, i: nat, s: Slot)
    requires Typed(l, Message(slots)) && i < |slots| && TypedSlot(l.fields[i], s)
    requires InBounds(l, Message(slots)) && SlotInBounds(l.fields[i], s)
    ensures InBounds(l, Message(Store(l, slots, i, s)))
  {
    var r := Store(l, slots, i, s);
    forall j | 0 <= j < |slots| ensures SlotInBounds(l.fields[j], r[j]) {
      assert TypedSlot(l.fields[j], slots[j]) && SlotInBounds(l.fields[j], slots[j]);
    }
  }

  lemma ScalarInBounds(l: LType, v: Value)
    requires Packable(l) && Typed(l, v)
    ensures InBounds(l, v)
  {
  }

  lemma AppendedInBounds(l: MessageType, st: State, i: nat, more: seq<Value>)
    requires IsArray(l, st, i) && Capacity(l.fields[i]) <= SIZE_MAX && |more| <= Room(l, st, i)
    requires InBounds(l, Message(st.slots))
    requires forall k | 0 <= k < |more| :: Typed(l.fields[i].l, more[k]) && InBounds(l.fields[i].l, more[k])
    ensures InBounds(l, Message(Appended(l, st, i, more).slots))
  {
    var f, vs := l.fields[i], st.slots[i].vs;
    assert SlotInBounds(f, st.slots[i]);
    var all := if f.h.Repeated? then vs + more else Overwrite(vs, st.fixedCount, more);
    forall k | 0 <= k < |all| ensures Typed(f.l, all[k]) && InBounds(f.l, all[k]) {
    }
    StoreInBounds(l, st.slots, i, Many(all));
  }

  // ---- the decoder ----

  lemma {:induction false} MessageStaysInBounds(l: MessageType, input: Bytes, st: State)
    requires WfType(l) && StateOk(l, st) && InBounds(l, Message(st.slots))
    ensures var o := DecMessage(l, input, st); o.Success? ==> InBounds(l, Message(o.slots))
    decreases |input|, 3
  {
    if |input| > 0 {
      var t := ReadVarint32(input);
      if t.Ok? && t.value > 0 {
        OneFieldStaysInBounds(l, t.value / 8, t.value % 8, t.rest, st);
        var next := DecOneField(l, t.value / 8, t.value % 8, t.rest, st);
        if next.Ok? { MessageStaysInBounds(l, next.rest, next.value); }
      }
    }
    hide DecOneField, InBounds;
  }

  lemma {:induction false} OneFieldStaysInBounds(l: MessageType, tag: nat, wireType: nat, input: Bytes, st: State)
    requires WfType(l) && StateOk(l, st) && InBounds(l, Message(st.slots))
    ensures var r := DecOneField(l, tag, wireType, input, st); r.Ok? ==> InBounds(l, Message(r.value.slots))
    decreases |input|, 3
  {
    var i := FindField(l.fields, tag);
    if !(|l.fields| == 0 && tag == 0) && i.Some? {
      var met := Meet(l, st, i.value);
      if met.Some? { FieldStaysInBounds(l, i.value, wireType, input, met.value); }
    }
    hide DecField, InBounds;
  }

  lemma {:induction false} FieldStaysInBounds(l: MessageType, i: nat, wireType: nat, input: Bytes, st: State)
    requires WfType(l) && StateOk(l, st) && i < |l.fields| && InBounds(l, Message(st.slots))
    requires l.fields[i].h.FixedCount? ==> st.fixedField == Some(i)
    ensures var r := DecField(l, i, wireType, input, st); r.Ok? ==> InBounds(l, Message(r.value.slots))
    decreases |input|, 2
  {
    var f := l.fields[i];
    assert WfField(f) && TypedSlot(f, st.slots[i]) && SlotInBounds(f, st.slots[i]);
    hide DecValue, ReadPacked, ReadString, Appended, Store, InBounds, SlotInBounds;
    if IsArrayField(f) && wireType == 2 && Packable(f.l) {
      PackedStaysInBounds(l, i, wireType, input, st);
    } else {
      BaseInBounds(f, st.slots[i]);
      ValueStaysInBounds(f.l, Base(f, st.slots[i]), input);
      var v := DecValue(f.l, Base(f, st.slots[i]), input);
      if v.Ok? && IsArrayField(f) && Room(l, st, i) > 0 {
        AppendedInBounds(l, st, i, [v.value]);
      } else if v.Ok? && !IsArrayField(f) {
        SingleInBounds(f, v.value);
        StoreInBounds(l, st.slots, i, WithValue(f, v.value));
      }
    }
  }

  lemma SingleInBounds(f: Field, v: Value)
    requires Typed(f.l, v) && !IsArrayField(f) && InBounds(f.l, v)
    ensures SlotInBounds(f, WithValue(f, v))
  {
  }

  lemma PackedStaysInBounds(l: MessageType, i: nat, wireType: nat, input: Bytes, st: State)
    requires WfType(l) && StateOk(l, st) && i < |l.fields| && InBounds(l, Message(st.slots))
    requires IsArrayField(l.fields[i]) && (l.fields[i].h.FixedCount? ==> st.fixedField == Some(i))
    requires wireType == 2 && Packable(l.fields[i].l) && WfField(l.fields[i]) && TypedSlot(l.fields[i], st.slots[i])
    ensures var r := DecField(l, i, wireType, input, st); r.Ok? ==> InBounds(l, Message(r.value.slots))
  {
    var f := l.fields[i];
    var body := ReadString(input);
    if body.Ok? {
      var more := ReadPacked(f.l, body.value, Room(l, st, i));
      if more.Some? {
        forall k | 0 <= k < |more.value| ensures InBounds(f.l, more.value[k]) {
          ScalarInBounds(f.l, more.value[k]);
        }
        AppendedInBounds(l, st, i, more.value);
      }
    }
    hide ReadPacked, ReadString, Appended, InBounds, SlotInBounds;
  }

  lemma {:induction false} ValueStaysInBounds(l: LType, base: Value, input: Bytes)
    requires WfType(l) && Typed(l, base) && InBounds(l, base)
    ensures var r := DecValue(l, base, input); r.Ok? ==> InBounds(l, r.value)
    decreases |input|, 1
  {
    if l.MessageT? {
      var body := ReadString(input);
      if body.Ok? { MessageStaysInBounds(l, body.value, Begun(base.slots)); }
      hide InBounds, DecMessage;
    } else if Packable(l) {
      var r := ReadScalar(l, input);
      if r.Ok? { ScalarInBounds(l, r.value); }
      hide ReadScalar;
    }
  }

  /** No input makes the decoder write beyond an array of the struct. */
  lemma DecodeStaysInBounds(l: MessageType, input: Bytes)
    requires WfType(l)
    ensures var o := Decode(l, input); o.Success? ==> InBounds(l, Message(o.slots))
  {
    DefaultIsTyped(l);
    DefaultInBounds(l);
    MessageStaysInBounds(l, input, Begun(DefaultSlots(l)));
  }
}
