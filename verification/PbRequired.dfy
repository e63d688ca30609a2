/** What pb_decode_noinit asks of a message (ios/Pods/nanopb/pb_decode.c): every one of the
    first 64 required fields must have been met.  The tags met are read off the input here,
    without the bit set in which the decoder ticks fields off. */
module PbRequired {
  import opened DbFormat
  import opened Entries
  import opened Coding
  import opened PbVarint
  import opened PbMessage
  import opened PbFieldIter
  import opened PbEncode
  import opened PbDecode
  import opened PbRoundTrip

  // ---- the fields met ----

  function Forgetful(st: State): State {
    st.(seen := {})
  }

  /** Reading a message field by field: the tags met on the top level and where it ended, or
      nothing if some field cannot be read. */
  datatype Reading = Broken | Ended(tags: seq<nat>, last: State, rest: Bytes)

  function ReadFields(l: MessageType, input: Bytes, st: State): (r: Reading)
    requires WfType(l) && StateOk(l, st)
    ensures r.Ended? ==> StateOk(l, r.last)
    decreases |input|
  {
    if |input| == 0 then Ended([], st, input)
    else
      var t := ReadVarint32(input);
      if t.Fail? then Broken
      else if t.value == 0 then Ended([], st, t.rest)
      else
        var next := DecOneField(l, t.value / 8, t.value % 8, t.rest, st);
        if next.Fail? then Broken
        else
          match ReadFields(l, next.rest, Forgetful(next.value))
          case Broken => Broken
          case Ended(tags, last, rest) => Ended([t.value / 8] + tags, last, rest)
  }

  /** Field `i` is one of the first 64 required ones. */
  predicate IsChecked(l: MessageType, i: nat)
    requires i < |l.fields|
  {
    l.fields[i].h.Required? && RequiredBefore(l.fields, i) < MAX_REQUIRED_FIELDS
  }

  predicate HasRequired(l: MessageType, tags: seq<nat>) {
    forall i | 0 <= i < |l.fields| && IsChecked(l, i) :: l.fields[i].tag in tags
  }

  // ---- what is ticked off ----

  /** The ticks for the fields with these tags. */
  ghost function Ticks(l: MessageType, tags: seq<nat>): set<nat> {
    set i | 0 <= i < |l.fields| && IsChecked(l, i) && l.fields[i].tag in tags :: RequiredBefore(l.fields, i)
  }

  lemma {:induction false} RequiredRises(fields: seq<Field>, i: nat, j: nat)
    requires i < j <= |fields| && fields[i].h.Required?
    ensures RequiredBefore(fields, i) < RequiredBefore(fields, j)
  {
    if i < j - 1 { RequiredRises(fields, i, j - 1); }
  }

  lemma {:induction false} RequiredAt(fields: seq<Field>, n: nat, k: nat) returns (i: nat)
    requires n <= |fields| && k < RequiredBefore(fields, n)
    ensures i < n && fields[i].h.Required? && RequiredBefore(fields, i) == k
  {
    if k == RequiredBefore(fields, n - 1) { i := n - 1; } else { i := RequiredAt(fields, n - 1, k); }
  }

  lemma OneTick(fields: seq<Field>, i: nat, j: nat)
    requires i < |fields| && j < |fields| && fields[i].h.Required? && fields[j].h.Required?
    requires RequiredBefore(fields, i) == RequiredBefore(fields, j)
    ensures i == j
  {
    if i < j {
      RequiredRises(fields, i, j);
    } else if j < i {
      RequiredRises(fields, j, i);
    }
  }

  /** All ticks are there exactly if all the fields are. */
  lemma TickedIsRequired(l: MessageType, st: State, tags: seq<nat>)
    requires st.seen == Ticks(l, tags)
    ensures AllRequiredSeen(l, st) <==> HasRequired(l, tags)
  {
    var n := |l.fields|;
    if AllRequiredSeen(l, st) {
      forall i | 0 <= i < n && IsChecked(l, i) ensures l.fields[i].tag in tags {
        RequiredRises(l.fields, i, n);
        assert RequiredBefore(l.fields, i) in st.seen;
        var j :| 0 <= j < n && IsChecked(l, j) && l.fields[j].tag in tags && RequiredBefore(l.fields, j) == RequiredBefore(l.fields, i);
        OneTick(l.fields, i, j);
      }
    }
    if HasRequired(l, tags) {
      forall k | 0 <= k < RequiredBefore(l.fields, n) && k < MAX_REQUIRED_FIELDS ensures k in st.seen {
        var i := RequiredAt(l.fields, n, k);
        assert IsChecked(l, i);
      }
    }
  }

  /** One tag more. */
  lemma TicksNext(l: MessageType, tags: seq<nat>, tag: nat)
    requires WfType(l)
    ensures var i := FindField(l.fields, tag);
            Ticks(l, tags + [tag]) == Ticks(l, tags) + (if i.Some? && IsChecked(l, i.value) then {RequiredBefore(l.fields, i.value)} else {})
  {
    var i := FindField(l.fields, tag);
    forall j | 0 <= j < |l.fields| ensures l.fields[j].tag == tag <==> i == Some(j) {
      if l.fields[j].tag == tag { OnlyField(l.fields, j); }
    }
  }

  // ---- the decoder against it ----

  /** The ticks have no part in reading a field. */
  lemma FieldForgets(l: MessageType, tag: nat, wireType: nat, input: Bytes, st: State)
    requires WfType(l) && StateOk(l, st)
    ensures var r := DecOneField(l, tag, wireType, input, st);
            var r' := DecOneField(l, tag, wireType, input, Forgetful(st));
            var i := FindField(l.fields, tag);
            && r.Ok? == r'.Ok?
            && (r.Ok? ==> r.rest == r'.rest && Forgetful(r.value) == Forgetful(r'.value)
                          && r.value.seen == st.seen + (if i.Some? && IsChecked(l, i.value) then {RequiredBefore(l.fields, i.value)} else {}))
  {
    var i := FindField(l.fields, tag);
    if i.Some? {
      var met, met' := Meet(l, st, i.value), Meet(l, Forgetful(st), i.value);
      assert met.Some? == met'.Some?;
      if met.Some? {
        MetFieldForgets(l, i.value, wireType, input, met.value, met'.value);
      }
    }
  }

  lemma MetFieldForgets(l: MessageType, i: nat, wireType: nat, input: Bytes, st: State, st': State)
    requires WfType(l) && StateOk(l, st) && StateOk(l, st') && i < |l.fields|
    requires l.fields[i].h.FixedCount? ==> st.fixedField == Some(i)
    requires Forgetful(st) == Forgetful(st')
    ensures var r, r' := DecField(l, i, wireType, input, st), DecField(l, i, wireType, input, st');
            && r.Ok? == r'.Ok?
            && (r.Ok? ==> r.rest == r'.rest && Forgetful(r.value) == Forgetful(r'.value) && r.value.seen == st.seen)
  {
    hide ReadPacked, DecValue, ReadString, Store;
  }

  /** What decoding makes of a reading that follows on `done`. */
  function Judged(l: MessageType, done: seq<nat>, r: Reading): Outcome
    requires r.Ended? ==> StateOk(l, r.last)
  {
    match r
    case Broken => Failure
    case Ended(tags, last, rest) =>
      if FixedCountDone(l, last) && HasRequired(l, done + tags) then Success(last.slots, rest) else Failure
  }

  lemma FinishJudges(l: MessageType, st: State, done: seq<nat>, rest: Bytes)
    requires StateOk(l, st) && st.seen == Ticks(l, done)
    ensures Finish(l, st, rest) == Judged(l, done, Ended([], Forgetful(st), rest))
  {
    TickedIsRequired(l, st, done);
    assert done + [] == done;
  }

  lemma {:induction false} DecodesWhatIsRead(l: MessageType, input: Bytes, st: State, done: seq<nat>)
    requires WfType(l) && StateOk(l, st) && st.seen == Ticks(l, done)
    ensures DecMessage(l, input, st) == Judged(l, done, ReadFields(l, input, Forgetful(st)))
    decreases |input|
  {
    FinishJudges(l, st, done, input);
    if |input| > 0 {
      var t := ReadVarint32(input);
      if t.Ok? && t.value == 0 { FinishJudges(l, st, done, t.rest); }
      if t.Ok? && t.value > 0 {
        var tag := t.value / 8;
        FieldForgets(l, tag, t.value % 8, t.rest, st);
        TicksNext(l, done, tag);
        var next := DecOneField(l, tag, t.value % 8, t.rest, st);
        var next' := DecOneField(l, tag, t.value % 8, t.rest, Forgetful(st));
        if next.Ok? {
          DecodesWhatIsRead(l, next.rest, next.value, done + [tag]);
          OneTagOn(l, done, tag, ReadFields(l, next'.rest, Forgetful(next'.value)));
        }
        hide DecOneField, Judged, Ticks, FindField, IsChecked;
      }
    }
  }

  lemma OneTagOn(l: MessageType, done: seq<nat>, tag: nat, r: Reading)
    requires r.Ended? ==> StateOk(l, r.last)
    ensures Judged(l, done + [tag], r)
         == Judged(l, done, match r case Broken => Broken case Ended(tags, last, rest) => Ended([tag] + tags, last, rest))
  {
    if r.Ended? { assert done + [tag] + r.tags == done + ([tag] + r.tags); }
    hide HasRequired, FixedCountDone;
  }

  function ReadMessage(l: MessageType, input: Bytes): (r: Reading)
    requires WfType(l)
    ensures r.Ended? ==> StateOk(l, r.last)
  {
    DefaultIsTyped(l);
    ReadFields(l, input, Begun(DefaultSlots(l)))
  }

  lemma DecodeIsJudged(l: MessageType, input: Bytes)
    requires WfType(l)
    ensures Decode(l, input) == Judged(l, [], ReadMessage(l, input))
  {
    hide DecMessage, ReadFields, Judged, Typed, DefaultSlots, RequiredBefore, FixedCountDone, HasRequired;
    DefaultIsTyped(l);
    NoTicks(l);
    DecodesWhatIsRead(l, input, Begun(DefaultSlots(l)), []);
  }

  lemma NoTicks(l: MessageType)
    ensures Ticks(l, []) == {}
  {
  }

  /** Decoding succeeds exactly if every field can be read, the last fixed-count array is
      complete, and each of the first 64 required fields was met. */
  lemma DecodesExactly(l: MessageType, input: Bytes)
    requires WfType(l)
    ensures var r := ReadMessage(l, input);
            && (Decode(l, input).Success? <==> r.Ended? && FixedCountDone(l, r.last) && HasRequired(l, r.tags))
            && (Decode(l, input).Success? ==> Decode(l, input) == Success(r.last.slots, r.rest))
  {
    hide Decode, ReadMessage, FixedCountDone, HasRequired, StateOk, WfType;
    DecodeIsJudged(l, input);
    var r := ReadMessage(l, input);
    if r.Ended? { assert [] + r.tags == r.tags; }
  }

  // ---- the fields behind the first 64 ----

  /** A message of `n` required bools with the tags 1 to n. */
  function Bools(n: nat): (l: MessageType)
    requires n < 100
    ensures WfType(l) && |l.fields| == n
  {
    MessageT(seq(n, i requires 0 <= i < n => Field(i + 1, Required, BoolT, Layout(0, 0, 1))))
  }

  /** The fields `k` to `n`, all false. */
  function FalseFrom(k: nat, n: nat): Bytes
    decreases n + 1 - k
  {
    if k > n then [] else TagBytes(k, 0) + ([0] + FalseFrom(k + 1, n))
  }

  lemma BoolReads(n: nat, k: nat, rest: Bytes, st: State)
    requires 1 <= k <= n < 100 && StateOk(Bools(n), st)
    ensures var r := DecOneField(Bools(n), k, 0, [0] + rest, st);
            r.Ok? && r.rest == rest && r.value.fixedField == st.fixedField && StateOk(Bools(n), Forgetful(r.value))
  {
    var l := Bools(n);
    FieldIsMet(l, k - 1, 0, [0] + rest, st);
    assert TypedSlot(l.fields[k - 1], st.slots[k - 1]);
    assert ([0] + rest)[1..] == rest;
    hide Store, FindField, RequiredBefore;
  }

  lemma TagSplits(tag: nat, wireType: nat)
    requires wireType < 8
    ensures (tag * 8 + wireType) / 8 == tag && (tag * 8 + wireType) % 8 == wireType
  {
  }

  /** One field of a reading. */
  lemma OneFieldRead(l: MessageType, tag: nat, wireType: nat, rest: Bytes, st: State)
    requires WfType(l) && StateOk(l, st) && 0 < tag < TAG_LIMIT && wireType < 8
    ensures ReadFields(l, TagBytes(tag, wireType) + rest, st)
         == match DecOneField(l, tag, wireType, rest, st)
            case Fail => Broken
            case Ok(st', rest') =>
              match ReadFields(l, rest', Forgetful(st'))
              case Broken => Broken
              case Ended(tags, last, end) => Ended([tag] + tags, last, end)
  {
    hide EncodeVarint, ReadVarint32, DecOneField, WfType, StateOk;
    Varint32Reads(tag * 8 + wireType, rest);
    TagSplits(tag, wireType);
  }

  lemma NothingRead(l: MessageType, st: State)
    requires WfType(l) && StateOk(l, st)
    ensures ReadFields(l, [], st) == Ended([], st, [])
  {
  }

  lemma {:induction false} BoolsRead(n: nat, k: nat, m: nat, st: State)
    requires 1 <= k <= m + 1 && m <= n < 100 && StateOk(Bools(n), st) && st.fixedField.None?
    ensures var r := ReadFields(Bools(n), FalseFrom(k, m), st);
            r.Ended? && r.last.fixedField.None? && forall t :: t in r.tags <==> k <= t <= m
    decreases m + 1 - k
  {
    hide DecOneField, ReadFields, TagBytes, Bools, StateOk;
    NothingRead(Bools(n), st);
    if k <= m {
      var rest := FalseFrom(k + 1, m);
      OneFieldRead(Bools(n), k, 0, [0] + rest, st);
      BoolReads(n, k, rest, st);
      var next := DecOneField(Bools(n), k, 0, [0] + rest, st);
      BoolsRead(n, k + 1, m, Forgetful(next.value));
    }
  }

  lemma {:induction false} BoolsRequiredBefore(n: nat, i: nat)
    requires i <= n < 100
    ensures RequiredBefore(Bools(n).fields, i) == i
  {
    if i > 0 { BoolsRequiredBefore(n, i - 1); }
  }

  lemma BoolsRequired(n: nat, m: nat, tags: seq<nat>)
    requires m <= n < 100 && forall t :: t in tags <==> 1 <= t <= m
    ensures HasRequired(Bools(n), tags) <==> m == n || MAX_REQUIRED_FIELDS <= m
  {
    var l := Bools(n);
    forall i: nat | i < n ensures IsChecked(l, i) <==> i < MAX_REQUIRED_FIELDS {
      BoolsRequiredBefore(n, i);
    }
    if m < n && m < MAX_REQUIRED_FIELDS { assert IsChecked(l, m) && l.fields[m].tag == m + 1; }
  }

  /** Of a message of required fields only, the first `m` decode exactly if they are all or
      at least 64: a 65th required field may be missing. */
  lemma OnlySixtyFourAreChecked(n: nat, m: nat)
    requires m <= n < 100
    ensures Decode(Bools(n), FalseFrom(1, m)).Success? <==> m == n || MAX_REQUIRED_FIELDS <= m
  {
    var l, input := Bools(n), FalseFrom(1, m);
    DefaultIsTyped(l);
    hide ReadFields, FalseFrom, Decode, DefaultSlots, Bools, HasRequired;
    BoolsRead(n, 1, m, Begun(DefaultSlots(l)));
    DecodesExactly(l, input);
    BoolsRequired(n, m, ReadMessage(l, input).tags);
  }
}
