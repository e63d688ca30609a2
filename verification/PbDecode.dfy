/** The nanopb decoder (ios/Pods/nanopb/pb_decode.c): what a sequence of bytes decodes to, for every
    input.  Each reader below consumes a part of its input, which is what makes the nested
    decoder terminate. */
module PbDecode {
  import opened DbFormat
  import opened Entries
  import opened Coding
  import opened PbVarint
  import opened PbMessage
  import opened PbFieldIter

  function ReadBytes(input: Bytes, n: nat): (r: Read<Bytes>)
    ensures r.Ok? ==> |r.value| == n && |r.rest| + n == |input|
  {
    if |input| < n then Fail else Ok(input[..n], input[n..])
  }

  // ---- scalars ----

  function ToSigned(v: nat, modulus: nat): int {
    if v < modulus / 2 then v else v - modulus
  }

  /** A number is kept if it survives the cast to the field's size. */
  function InRange(n: int, lo: int, hi: int, rest: Bytes): (r: Read<Value>)
    ensures r.Ok? ==> r.value == Number(n) && lo <= n < hi && r.rest == rest
  {
    if lo <= n < hi then Ok(Number(n), rest) else Fail
  }

  function UnZigZag(v: nat): int {
    if v % 2 == 1 then -(v / 2) - 1 else v / 2
  }

  function ReadScalar(l: LType, input: Bytes): (r: Read<Value>)
    requires Packable(l) && WfType(l)
    ensures r.Ok? ==> |r.rest| < |input| && Typed(l, r.value)
  {
    match l
    case BoolT =>
      var r := ReadVarint32(input);
      if r.Fail? then Fail else Ok(Flag(r.value != 0), r.rest)
    case VarintT(s) =>
      var r := ReadVarint64(input);
      if r.Fail? then Fail
      else
        var n := if s == 8 then ToSigned(r.value, TWO64) else ToSigned(r.value % TWO32, TWO32);
        InRange(n, -(Range(s) / 2), Range(s) / 2, r.rest)
    case UVarintT(s) =>
      var r := ReadVarint64(input);
      if r.Fail? then Fail else InRange(r.value, 0, Range(s), r.rest)
    case SVarintT(s) =>
      var r := ReadVarint64(input);
      if r.Fail? then Fail else InRange(UnZigZag(r.value), -(Range(s) / 2), Range(s) / 2, r.rest)
    case Fixed32T =>
      var r := ReadBytes(input, 4);
      if r.Fail? then Fail else FixedWidths(); FixedIsOnto(r.value); Ok(Number(DecodeFixed(r.value)), r.rest)
    case Fixed64T =>
      var r := ReadBytes(input, 8);
      if r.Fail? then Fail else FixedWidths(); FixedIsOnto(r.value); Ok(Number(DecodeFixed(r.value)), r.rest)
  }

  // ---- strings ----

  /** A C string ends at the first zero. */
  function CString(b: Bytes): (r: Bytes)
    ensures |r| <= |b| && NoZero(r)
  {
    if |b| == 0 || b[0] == 0 then [] else
      var rest := CString(b[1..]);
      assert forall i | 1 <= i <= |rest| :: ([b[0]] + rest)[i] == rest[i - 1];
      [b[0]] + rest
  }

  /** A length and that many bytes. */
  function ReadString(input: Bytes): (r: Read<Bytes>)
    ensures r.Ok? ==> |r.rest| < |input| && |r.value| < |input|
  {
    var size := ReadVarint32(input);
    if size.Fail? then Fail else ReadBytes(size.rest, size.value)
  }

  /** The length alone decides whether the field's array is large enough. */
  function FitsArray(l: LType, size: nat): bool {
    match l
    case BytesT(max) => size <= SIZE_MAX && size <= max
    case StringT(n) => size + 1 <= n
    case FixedBytesT(n) => size <= SIZE_MAX && (size == 0 || size == n)
    case _ => false
  }

  function StoredString(l: LType, b: Bytes): (v: Value)
    requires (l.BytesT? || l.StringT? || l.FixedBytesT?) && WfType(l) && FitsArray(l, |b|)
    ensures Typed(l, v)
  {
    match l
    case BytesT(_) => Octets(b)
    case StringT(_) => Octets(CString(b))
    case FixedBytesT(n) => Octets(if |b| == 0 then seq(n, _ => 0) else b)
  }

  // ---- fields that are not known ----

  function SkipVarint(input: Bytes): (r: Read<()>)
    ensures r.Ok? ==> |r.rest| < |input|
  {
    if |input| == 0 then Fail else if input[0] < 128 then Ok((), input[1..]) else SkipVarint(input[1..])
  }

  function Skip(wireType: nat, input: Bytes): (r: Read<()>)
    ensures r.Ok? ==> |r.rest| < |input|
  {
    if wireType == 0 then SkipVarint(input)
    else if wireType == 1 then (var r := ReadBytes(input, 8); if r.Fail? then Fail else Ok((), r.rest))
    else if wireType == 2 then (var r := ReadString(input); if r.Fail? then Fail else Ok((), r.rest))
    else if wireType == 5 then (var r := ReadBytes(input, 4); if r.Fail? then Fail else Ok((), r.rest))
    else Fail
  }

  // ---- the message being filled ----

  /** The struct, which required fields were seen, and how much of the fixed-count array in
      progress is there. */
  datatype State = State(slots: seq<Slot>, seen: set<nat>, fixedField: Option<nat>, fixedCount: nat)

  predicate StateOk(l: MessageType, st: State) {
    && Typed(l, Message(st.slots))
    && (st.fixedField.Some? ==> st.fixedField.value < |l.fields| && l.fields[st.fixedField.value].h.FixedCount?
                                && st.fixedCount <= l.fields[st.fixedField.value].h.count)
  }

  function Begun(slots: seq<Slot>): State {
    State(slots, {}, None, 0)
  }

  predicate FixedCountDone(l: MessageType, st: State)
    requires StateOk(l, st)
  {
    st.fixedField.Some? ==> st.fixedCount == l.fields[st.fixedField.value].h.count
  }

  /** Meeting field `i`: required fields are ticked off, and a new fixed-count array may only
      begin when the one before is complete. */
  function Meet(l: MessageType, st: State, i: nat): (r: Option<State>)
    requires StateOk(l, st) && i < |l.fields|
    ensures r.Some? ==> StateOk(l, r.value) && r.value.slots == st.slots
    ensures r.Some? && l.fields[i].h.FixedCount? ==> r.value.fixedField == Some(i)
  {
    match l.fields[i].h
    case FixedCount(_) =>
      if st.fixedField == Some(i) then Some(st)
      else if FixedCountDone(l, st) then Some(st.(fixedField := Some(i), fixedCount := 0))
      else None
    case Required =>
      var index := RequiredBefore(l.fields, i);
      if index < MAX_REQUIRED_FIELDS then Some(st.(seen := st.seen + {index})) else Some(st)
    case _ => Some(st)
  }

  predicate AllRequiredSeen(l: MessageType, st: State) {
    forall k | 0 <= k < RequiredBefore(l.fields, |l.fields|) && k < MAX_REQUIRED_FIELDS :: k in st.seen
  }

  datatype Outcome = Failure | Success(slots: seq<Slot>, rest: Bytes)

  function Finish(l: MessageType, st: State, rest: Bytes): Outcome
    requires StateOk(l, st)
  {
    if FixedCountDone(l, st) && AllRequiredSeen(l, st) then Success(st.slots, rest) else Failure
  }

  // ---- storing into slots ----

  lemma DefaultIsTyped(l: LType)
    requires WfType(l)
    ensures Typed(l, DefaultValue(l))
    decreases l
  {
    if l.MessageT? {
      forall i | 0 <= i < |l.fields| ensures TypedSlot(l.fields[i], DefaultSlot(l.fields[i])) {
        assert WfField(l.fields[i]);
        DefaultIsTyped(l.fields[i].l);
      }
    }
  }

  /** A member of a oneof takes the place of the others. */
  function Store(l: MessageType, slots: seq<Slot>, i: nat, s: Slot): (r: seq<Slot>)
    requires Typed(l, Message(slots)) && i < |slots| && TypedSlot(l.fields[i], s)
    ensures Typed(l, Message(r))
  {
    var f := l.fields[i];
    if f.h.Oneof? then
      seq(|slots|, j requires 0 <= j < |slots| => if j == i then s else if l.fields[j].h == f.h then Maybe(None) else slots[j])
    else slots[i := s]
  }

  /** The content a value is decoded into. */
  function Base(f: Field, s: Slot): (v: Value)
    requires WfField(f) && TypedSlot(f, s)
    ensures Typed(f.l, v)
  {
    DefaultIsTyped(f.l);
    match f.h
    case Required => s.v
    case Singular => s.v
    case Optional => if s.o.Some? then s.o.value else DefaultValue(f.l)
    case Oneof(_) => if s.o.Some? then s.o.value else DefaultValue(f.l)
    case _ => DefaultValue(f.l)
  }

  function WithValue(f: Field, v: Value): (s: Slot)
    requires Typed(f.l, v) && !f.h.Repeated? && !f.h.FixedCount?
    ensures TypedSlot(f, s)
  {
    if f.h.Required? || f.h.Singular? then One(v) else Maybe(Some(v))
  }

  // ---- packed arrays ----

  /** All of `input` as elements, at most `room` of them. */
  function ReadPacked(l: LType, input: Bytes, room: nat): (r: Option<seq<Value>>)
    requires Packable(l) && WfType(l)
    ensures r.Some? ==> |r.value| <= room && forall k | 0 <= k < |r.value| :: Typed(l, r.value[k])
    decreases |input|
  {
    if |input| == 0 then Some([])
    else if room == 0 then None
    else
      var r := ReadScalar(l, input);
      if r.Fail? then None
      else
        var rest := ReadPacked(l, r.rest, room - 1);
        if rest.None? then None else Some([r.value] + rest.value)
  }

  function Overwrite(vs: seq<Value>, at: nat, more: seq<Value>): (r: seq<Value>)
    requires at + |more| <= |vs|
    ensures |r| == |vs|
    ensures forall k | 0 <= k < |vs| :: r[k] == if at <= k < at + |more| then more[k - at] else vs[k]
  {
    vs[..at] + more + vs[at + |more|..]
  }

  function Capacity(f: Field): nat {
    match f.h case Repeated(max) => max case FixedCount(n) => n case _ => 0
  }

  predicate IsArray(l: MessageType, st: State, i: nat) {
    && StateOk(l, st) && i < |l.fields| && TypedSlot(l.fields[i], st.slots[i])
    && (l.fields[i].h.Repeated? || (l.fields[i].h.FixedCount? && st.fixedField == Some(i)))
  }

  /** How many elements are there: by the counter, or of a fixed-count array met so far. */
  function Filled(l: MessageType, st: State, i: nat): nat
    requires IsArray(l, st, i)
  {
    if l.fields[i].h.Repeated? then |st.slots[i].vs| else st.fixedCount
  }

  function Room(l: MessageType, st: State, i: nat): nat
    requires IsArray(l, st, i)
  {
    if Filled(l, st, i) <= Capacity(l.fields[i]) then Capacity(l.fields[i]) - Filled(l, st, i) else 0
  }

  /** New elements at the end of what is there. */
  function Appended(l: MessageType, st: State, i: nat, more: seq<Value>): (r: State)
    requires IsArray(l, st, i) && Capacity(l.fields[i]) <= SIZE_MAX
    requires |more| <= Room(l, st, i)
    requires forall k | 0 <= k < |more| :: Typed(l.fields[i].l, more[k])
    ensures StateOk(l, r)
  {
    var vs := st.slots[i].vs;
    if l.fields[i].h.Repeated? then st.(slots := Store(l, st.slots, i, Many(vs + more)))
    else st.(slots := Store(l, st.slots, i, Many(Overwrite(vs, st.fixedCount, more))), fixedCount := st.fixedCount + |more|)
  }

  // ---- messages ----

  /** pb_decode_noinit: fields until the input ends or a zero tag is met. */
  function DecMessage(l: MessageType, input: Bytes, st: State): (o: Outcome)
    requires WfType(l) && StateOk(l, st)
    ensures o.Success? ==> Typed(l, Message(o.slots)) && |o.rest| <= |input|
    decreases |input|, 3
  {
    if |input| == 0 then Finish(l, st, input)
    else
      var t := ReadVarint32(input);
      if t.Fail? then Failure
      else if t.value == 0 then Finish(l, st, t.rest)
      else
        var next := DecOneField(l, t.value / 8, t.value % 8, t.rest, st);
        if next.Fail? then Failure else DecMessage(l, next.rest, next.value)
  }

  /** What stands behind a tag. */
  function DecOneField(l: MessageType, tag: nat, wireType: nat, input: Bytes, st: State): (r: Read<State>)
    requires WfType(l) && StateOk(l, st)
    ensures r.Ok? ==> StateOk(l, r.value) && |r.rest| <= |input|
    decreases |input|, 3
  {
    if |l.fields| == 0 && tag == 0 then
      // The terminator of an empty descriptor has tag zero and passes for a bool field.
      var b := ReadVarint32(input);
      if b.Fail? then Fail else Ok(st, b.rest)
    else
      var i := FindField(l.fields, tag);
      if i.None? then
        var s := Skip(wireType, input);
        if s.Fail? then Fail else Ok(st, s.rest)
      else
        var met := Meet(l, st, i.value);
        if met.None? then Fail else DecField(l, i.value, wireType, input, met.value)
  }

  /** decode_static_field. */
  function DecField(l: MessageType, i: nat, wireType: nat, input: Bytes, st: State): (r: Read<State>)
    requires WfType(l) && StateOk(l, st) && i < |l.fields|
    requires l.fields[i].h.FixedCount? ==> st.fixedField == Some(i)
    ensures r.Ok? ==> StateOk(l, r.value) && |r.rest| <= |input|
    decreases |input|, 2
  {
    var f := l.fields[i];
    assert WfField(f) && TypedSlot(f, st.slots[i]);
    if f.h.Repeated? || f.h.FixedCount? then
      if wireType == 2 && Packable(f.l) then
        var body := ReadString(input);
        if body.Fail? then Fail
        else
          var more := ReadPacked(f.l, body.value, Room(l, st, i));
          if more.None? then Fail else Ok(Appended(l, st, i, more.value), body.rest)
      else if Room(l, st, i) == 0 then Fail
      else
        var v := DecValue(f.l, Base(f, st.slots[i]), input);
        if v.Fail? then Fail else Ok(Appended(l, st, i, [v.value]), v.rest)
    else
      var v := DecValue(f.l, Base(f, st.slots[i]), input);
      if v.Fail? then Fail else Ok(st.(slots := Store(l, st.slots, i, WithValue(f, v.value))), v.rest)
  }

  /** One value; a submessage is decoded into `base`. */
  function DecValue(l: LType, base: Value, input: Bytes): (r: Read<Value>)
    requires WfType(l) && Typed(l, base)
    ensures r.Ok? ==> Typed(l, r.value) && |r.rest| <= |input|
    decreases |input|, 1
  {
    if Packable(l) then ReadScalar(l, input)
    else if l.MessageT? then
      var body := ReadString(input);
      if body.Fail? then Fail
      else
        var o := DecMessage(l, body.value, Begun(base.slots));
        if o.Failure? then Fail else Ok(Message(o.slots), body.rest)
    else
      var size := ReadVarint32(input);
      if size.Fail? || !FitsArray(l, size.value) then Fail
      else
        var b := ReadBytes(size.rest, size.value);
        if b.Fail? then Fail else Ok(StoredString(l, b.value), b.rest)
  }

  /** pb_decode: into a message set to its defaults. */
  function Decode(l: MessageType, input: Bytes): Outcome
    requires WfType(l)
  {
    DefaultIsTyped(l);
    DecMessage(l, input, Begun(DefaultSlots(l)))
  }
}
