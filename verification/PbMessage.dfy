/** nanopb messages (ios/Pods/nanopb/pb.h): field descriptors, and a message as a value indexed by its
    descriptor, one slot per field.  A field that is absent has no content here. */
module PbMessage {
  import opened DbFormat
  import opened Entries
  import opened Coding
  import opened PbVarint

  /** The data types of a field; sizes are in bytes. */
  datatype LType =
    | BoolT
    | VarintT(size: nat)
    | UVarintT(size: nat)
    | SVarintT(size: nat)
    | Fixed32T
    | Fixed64T
    | BytesT(max: nat)
    | StringT(dataSize: nat)
    | MessageT(fields: seq<Field>)
    | FixedBytesT(length: nat)

  /** How often a field occurs.  Optional fields have a has-flag, singular ones do not;
      repeated fields have a counter unless their count is fixed. */
  datatype HType = Required | Optional | Singular | Repeated(max: nat) | FixedCount(count: nat) | Oneof(group: nat)

  /** Where the struct member lies: behind the previous one, with its counter, has-flag or
      which-tag relative to it. */
  datatype Layout = Layout(dataOffset: nat, sizeOffset: int, dataSize: nat)

  datatype Field = Field(tag: nat, h: HType, l: LType, layout: Layout)

  predicate IsArrayField(f: Field) {
    f.h.Repeated? || f.h.FixedCount?
  }

  datatype Value = Flag(on: bool) | Number(n: int) | Octets(b: Bytes) | Message(slots: seq<Slot>)

  datatype Slot = One(v: Value) | Maybe(o: Option<Value>) | Many(vs: seq<Value>)

  type MessageType = l: LType | l.MessageT? witness MessageT([])

  /** PB_SIZE_MAX of a build with PB_FIELD_32BIT, which the project sets. */
  const SIZE_MAX: nat := 0xFFFF_FFFF
  const MAX_REQUIRED_FIELDS: nat := 64
  const TAG_LIMIT: nat := 0x2000_0000

  predicate Packable(l: LType) {
    l.BoolT? || l.VarintT? || l.UVarintT? || l.SVarintT? || l.Fixed32T? || l.Fixed64T?
  }

  predicate IntSize(s: nat) {
    s == 1 || s == 2 || s == 4 || s == 8
  }

  function Range(size: nat): nat {
    if size == 1 then 0x100 else if size == 2 then 0x1_0000 else if size == 4 then TWO32 else TWO64
  }

  /** A descriptor the generator would write. */
  predicate WfType(l: LType)
    decreases l
  {
    match l
    case VarintT(s) => IntSize(s)
    case UVarintT(s) => IntSize(s)
    case SVarintT(s) => IntSize(s)
    case BytesT(max) => max <= SIZE_MAX
    case StringT(n) => 0 < n
    case FixedBytesT(n) => n <= SIZE_MAX
    case MessageT(fields) =>
      && (forall i | 0 <= i < |fields| :: WfField(fields[i]))
      && (forall i, j | 0 <= i < j < |fields| :: fields[i].tag != fields[j].tag)
    case _ => true
  }

  predicate WfField(f: Field)
    decreases f
  {
    && 0 < f.tag < TAG_LIMIT && WfType(f.l)
    && (f.h.Repeated? ==> f.h.max <= SIZE_MAX) && (f.h.FixedCount? ==> 0 < f.h.count <= SIZE_MAX)
  }

  /** The C string up to its terminator. */
  predicate NoZero(b: Bytes) {
    forall i | 0 <= i < |b| :: b[i] != 0
  }

  /** A value a struct member of type `l` can hold. */
  predicate Typed(l: LType, v: Value)
    decreases l
  {
    match l
    case BoolT => v.Flag?
    case VarintT(s) => v.Number? && -(Range(s) / 2) <= v.n < Range(s) / 2
    case UVarintT(s) => v.Number? && 0 <= v.n < Range(s)
    case SVarintT(s) => v.Number? && -(Range(s) / 2) <= v.n < Range(s) / 2
    case Fixed32T => v.Number? && 0 <= v.n < TWO32
    case Fixed64T => v.Number? && 0 <= v.n < TWO64
    case BytesT(_) => v.Octets? && |v.b| <= SIZE_MAX
    case StringT(n) => v.Octets? && |v.b| <= n && NoZero(v.b)
    case FixedBytesT(n) => v.Octets? && |v.b| == n
    case MessageT(fields) =>
      && v.Message? && |v.slots| == |fields|
      && (forall i | 0 <= i < |fields| :: TypedSlot(fields[i], v.slots[i]))
      && OneofsOk(fields, v.slots)
  }

  predicate TypedSlot(f: Field, s: Slot)
    decreases f
  {
    match f.h
    case Required => s.One? && Typed(f.l, s.v)
    case Singular => s.One? && Typed(f.l, s.v)
    case Optional => s.Maybe? && (s.o.Some? ==> Typed(f.l, s.o.value))
    case Oneof(_) => s.Maybe? && (s.o.Some? ==> Typed(f.l, s.o.value))
    case Repeated(_) => s.Many? && |s.vs| <= SIZE_MAX && forall k | 0 <= k < |s.vs| :: Typed(f.l, s.vs[k])
    case FixedCount(n) => s.Many? && |s.vs| == n && forall k | 0 <= k < |s.vs| :: Typed(f.l, s.vs[k])
  }

  /** At most one member of a oneof is present. */
  predicate OneofsOk(fields: seq<Field>, slots: seq<Slot>)
    requires |slots| == |fields|
  {
    forall i, j | 0 <= i < j < |fields| && fields[i].h.Oneof? && fields[i].h == fields[j].h && slots[i].Maybe? && slots[j].Maybe? ::
      slots[i].o.None? || slots[j].o.None?
  }

  // ---- defaults ----

  /** What pb_message_set_to_defaults leaves behind. */
  function DefaultValue(l: LType): Value
    decreases l, 1
  {
    match l
    case BoolT => Flag(false)
    case BytesT(_) => Octets([])
    case StringT(_) => Octets([])
    case FixedBytesT(n) => Octets(seq(n, _ => 0))
    case MessageT(fields) => Message(DefaultSlots(l))
    case _ => Number(0)
  }

  function DefaultSlots(l: MessageType): (r: seq<Slot>)
    ensures |r| == |l.fields|
    ensures forall i | 0 <= i < |r| :: r[i] == DefaultSlot(l.fields[i])
    decreases l, 0
  {
    seq(|l.fields|, i requires 0 <= i < |l.fields| => DefaultSlot(l.fields[i]))
  }

  function DefaultSlot(f: Field): Slot
    decreases f
  {
    match f.h
    case Required => One(DefaultValue(f.l))
    case Singular => One(DefaultValue(f.l))
    case Optional => Maybe(None)
    case Oneof(_) => Maybe(None)
    case Repeated(_) => Many([])
    case FixedCount(n) =>
      var v := DefaultValue(f.l);
      Many(seq(n, _ => v))
  }

  /** pb_check_proto3_default_value for the data of a singular field. */
  predicate IsDefault(l: LType, v: Value)
    requires Typed(l, v)
    decreases l
  {
    match l
    case BoolT => !v.on
    case BytesT(_) => |v.b| == 0
    case StringT(_) => |v.b| == 0
    case FixedBytesT(n) => n == 0
    case MessageT(fields) => forall i | 0 <= i < |fields| :: SlotIsDefault(fields[i], v.slots[i])
    case _ => v.n == 0
  }

  predicate SlotIsDefault(f: Field, s: Slot)
    requires TypedSlot(f, s)
    decreases f
  {
    match f.h
    case Required => false
    case Singular => IsDefault(f.l, s.v)
    case Optional => s.o.None?
    case Oneof(_) => s.o.None?
    case Repeated(_) => |s.vs| == 0
    case FixedCount(_) => false
  }

  /** A singular field that is not written is read back as it was: it equals its default. */
  lemma {:induction false} DefaultIsDefault(l: LType, v: Value)
    requires Typed(l, v) && IsDefault(l, v)
    ensures v == DefaultValue(l)
    decreases l
  {
    if l.MessageT? {
      var d := DefaultSlots(l);
      forall i | 0 <= i < |l.fields| ensures v.slots[i] == d[i] {
        var f := l.fields[i];
        assert TypedSlot(f, v.slots[i]) && SlotIsDefault(f, v.slots[i]);
        if f.h.Singular? { DefaultIsDefault(f.l, v.slots[i].v); }
      }
      assert v.slots == d;
    } else if l.FixedBytesT? {
      assert v.b == seq(l.length, _ => 0);
    }
  }

  /** A type without a required field or an array of fixed length in it. */
  predicate Omittable(l: LType)
    decreases l
  {
    match l
    case FixedBytesT(n) => n == 0
    case MessageT(fields) =>
      forall i | 0 <= i < |fields| :: !fields[i].h.Required? && !fields[i].h.FixedCount? && (fields[i].h.Singular? ==> Omittable(fields[i].l))
    case _ => true
  }

  /** A singular field may be left out exactly if it is at its default and nothing in it is
      always written. */
  lemma {:induction false} OmittedExactly(l: LType, v: Value)
    requires WfType(l) && Typed(l, v)
    ensures IsDefault(l, v) <==> Omittable(l) && v == DefaultValue(l)
    decreases l
  {
    if IsDefault(l, v) { DefaultIsDefault(l, v); }
    if l.MessageT? {
      forall i | 0 <= i < |l.fields|
        ensures TypedSlot(l.fields[i], v.slots[i])
        ensures l.fields[i].h.Singular? ==> (IsDefault(l.fields[i].l, v.slots[i].v) <==> Omittable(l.fields[i].l) && v.slots[i].v == DefaultValue(l.fields[i].l))
      {
        var f := l.fields[i];
        assert WfField(f) && TypedSlot(f, v.slots[i]);
        if f.h.Singular? { OmittedExactly(f.l, v.slots[i].v); }
      }
      if Omittable(l) && v == DefaultValue(l) {
        forall i | 0 <= i < |l.fields| ensures SlotIsDefault(l.fields[i], v.slots[i]) {
          assert v.slots[i] == DefaultSlot(l.fields[i]);
        }
      }
    }
  }
}
