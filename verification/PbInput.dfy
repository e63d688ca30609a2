/** nanopb input streams over a buffer (ios/Pods/nanopb/pb_decode.c): a stream is a position and a number of
    bytes left; a substream is a copy with fewer bytes left. */
module PbInput {
  import opened DbFormat
  import opened Entries
  import opened Coding
  import opened PbVarint
  import opened PbMessage
  import opened PbDecode

  /** The groups read so far add up to `low`, and what is here continues them, or follows. */
  predicate Reading(start: Bytes, here: Bytes, left: nat, low: nat, weight: nat, more: bool) {
    DecodeVarint(start, 10) == if more then Shifted(low, weight, DecodeVarint(here, left)) else Got(low, here)
  }

  lemma ReadingStarts(start: Bytes)
    ensures Reading(start, start, 10, 0, 1, true)
  {
  }

  lemma ReadingStops(start: Bytes, here: Bytes, left: nat, low: nat, weight: nat)
    requires Reading(start, here, left, low, weight, true)
    ensures left == 0 || |here| == 0 ==> ReadVarint64(start) == Fail
  {
  }

  lemma ReadingGoesOn(start: Bytes, here: Bytes, left: nat, low: nat, weight: nat)
    requires Reading(start, here, left, low, weight, true) && left > 0 && |here| > 0
    ensures Reading(start, here[1..], left - 1, low + here[0] % 128 * weight, 128 * weight, here[0] >= 128)
  {
    if here[0] >= 128 { OneGroupMore(here, left, low, weight); }
  }

  lemma ReadingEnds(start: Bytes, here: Bytes, left: nat, low: nat, weight: nat)
    requires Reading(start, here, left, low, weight, false)
    ensures ReadVarint64(start) == Ok(low % TWO64, here)
  {
  }

  class IStream {
    const data: Bytes
    var state: nat
    var bytesLeft: nat

    constructor (d: Bytes, at: nat, left: nat)
      requires at + left <= |d|
      ensures data == d && state == at && bytesLeft == left && Valid()
    {
      data, state, bytesLeft := d, at, left;
    }

    predicate Valid()
      reads this
    {
      state + bytesLeft <= |data|
    }

    function Contents(): Bytes
      requires Valid()
      reads this
    {
      data[state..state + bytesLeft]
    }

    /** The stream went on to `rest`, and where it ends did not move. */
    twostate predicate WentTo(new rest: Bytes)
      reads this
    {
      Valid() && Contents() == rest && state + bytesLeft == old(state) + old(bytesLeft)
    }

    /** pb_read of `count` bytes. */
    method Read(count: nat) returns (ok: bool, b: Bytes)
      requires Valid()
      modifies this
      ensures Valid()
      ensures var r := ReadBytes(old(Contents()), count);
              ok == r.Ok? && (ok ==> b == r.value && WentTo(r.rest))
      ensures !ok ==> state == old(state) && bytesLeft == old(bytesLeft)
    {
      if bytesLeft < count { return false, []; }
      b := data[state..state + count];
      state := state + count;
      bytesLeft := bytesLeft - count;
      ok := true;
    }

    method ReadByte() returns (ok: bool, byte: Byte)
      requires Valid()
      modifies this
      ensures Valid() && ok == (old(bytesLeft) > 0)
      ensures ok ==> byte == old(Contents())[0] && WentTo(old(Contents())[1..])
    {
      if bytesLeft == 0 { return false, 0; }
      ghost var before := Contents();
      byte := data[state];
      state := state + 1;
      bytesLeft := bytesLeft - 1;
      ok := true;
    }

    /** pb_decode_varint32. */
    method DecodeVarint32() returns (ok: bool, dest: nat)
      requires Valid()
      modifies this
      ensures Valid()
      ensures var r := ReadVarint32(old(Contents()));
              ok == r.Ok? && (ok ==> dest == r.value && WentTo(r.rest))
    {
      var byte;
      ok, byte := ReadByte();
      if !ok { return false, 0; }
      if byte < 128 { return true, byte; }
      ok, dest := DecodeTail(byte - 128);
    }

    /** The loop behind the first byte. */
    method DecodeTail(first: nat) returns (ok: bool, dest: nat)
      requires Valid()
      modifies this
      ensures Valid()
      ensures var r := Varint32Tail(first, 7, old(Contents()));
              ok == r.Ok? && (ok ==> dest == r.value && WentTo(r.rest))
    {
      var bitpos: nat, result: nat := 7, first;
      var more := true;
      var byte: Byte := 0;
      ghost var end, whole := state + bytesLeft, Varint32Tail(first, 7, Contents());
      while more
        invariant Valid() && state + bytesLeft == end && 0 <= bitpos < 256
        invariant if more then whole == Varint32Tail(result, bitpos, Contents())
                  else whole == if bitpos == 35 && byte / 16 % 8 != 0 then Fail else Ok(result, Contents())
        decreases more, bytesLeft
      {
        ghost var before := Contents();
        var got;
        got, byte := ReadByte();
        if !got { return false, 0; }
        if bitpos >= 32 {
          var signExtension := if bitpos < 63 then 0xFF else 0x01;
          if byte % 128 != 0 && (result < TWO31 || byte != signExtension) { return false, 0; }
        } else {
          result := OrGroup(result, byte, bitpos);
        }
        bitpos := (bitpos + 7) % 256;
        more := byte >= 128;
      }
      if bitpos == 35 && byte / 16 % 8 != 0 { return false, 0; }
      return true, result;
    }

    /** pb_decode_varint. */
    method DecodeVarint64() returns (ok: bool, dest: nat)
      requires Valid()
      modifies this
      ensures Valid()
      ensures var r := ReadVarint64(old(Contents()));
              ok == r.Ok? && (ok ==> dest == r.value && WentTo(r.rest))
    {
      hide Reading;
      var bitpos := 0;
      var weight: nat, result: nat := 1, 0;
      ghost var low: nat, left: int, start, end := 0, 10, Contents(), state + bytesLeft;
      var more := true;
      ReadingStarts(start);
      while more
        invariant Valid() && state + bytesLeft == end
        invariant bitpos == 7 * (10 - left) && 0 <= left <= 10
        invariant result == low % TWO64 && Reading(start, Contents(), left, low, weight, more)
        decreases more, bytesLeft
      {
        ghost var here := Contents();
        ReadingStops(start, here, left, low, weight);
        if bitpos >= 64 { return false, 0; }
        var got, byte := ReadByte();
        if !got { return false, 0; }
        ReadingGoesOn(start, here, left, low, weight);
        left := left - 1;
        result := WithGroup(result, byte % 128, weight, low);
        low := low + byte % 128 * weight;
        weight := 128 * weight;
        bitpos := bitpos + 7;
        more := byte >= 128;
      }
      ReadingEnds(start, Contents(), left, low, weight);
      return true, result;
    }

    /** pb_skip_varint. */
    method SkipOverVarint() returns (ok: bool)
      requires Valid()
      modifies this
      ensures Valid()
      ensures var r := SkipVarint(old(Contents()));
              ok == r.Ok? && (ok ==> WentTo(r.rest))
    {
      ghost var whole, end := SkipVarint(Contents()), state + bytesLeft;
      var more := true;
      while more
        invariant Valid() && state + bytesLeft == end
        invariant whole == if more then SkipVarint(Contents()) else Ok((), Contents())
        decreases more, bytesLeft
      {
        ghost var before := Contents();
        var got, byte := ReadByte();
        if !got { return false; }
        more := byte >= 128;
      }
      return true;
    }

    /** pb_make_string_substream: the parent gives the bytes away, but does not move yet. */
    method MakeSubstream() returns (ok: bool, substream: IStream)
      requires Valid()
      modifies this
      ensures Valid() && fresh(substream) && substream.Valid() && substream.data == data
      ensures var r := ReadString(old(Contents()));
              ok == r.Ok?
              && (ok ==> substream.Contents() == r.value && substream.state == state
                         && state + substream.bytesLeft + bytesLeft == old(state) + old(bytesLeft)
                         && data[state + substream.bytesLeft..old(state) + old(bytesLeft)] == r.rest)
    {
      var size;
      ok, size := DecodeVarint32();
      if !ok || bytesLeft < size {
        substream := new IStream(data, state, 0);
        return false, substream;
      }
      ghost var rest := Contents();
      substream := new IStream(data, state, size);
      bytesLeft := bytesLeft - size;
      assert substream.Contents() == rest[..size];
      assert data[state + size..old(state) + old(bytesLeft)] == rest[size..];
    }

    /** pb_close_string_substream: the parent jumps behind what the substream was given,
        read or not. */
    method CloseSubstream(substream: IStream, ghost end: nat)
      requires substream.Valid() && substream.data == data && substream != this
      requires substream.state + substream.bytesLeft + bytesLeft == end <= |data|
      modifies this, substream
      ensures Valid() && state == old(substream.state) + old(substream.bytesLeft) && bytesLeft == old(bytesLeft)
      ensures Contents() == data[old(substream.state) + old(substream.bytesLeft)..end]
    {
      if substream.bytesLeft > 0 {
        var ok, skipped := substream.Read(substream.bytesLeft);
      }
      state := substream.state;
    }

    /** pb_skip_field. */
    method SkipField(wireType: nat) returns (ok: bool)
      requires Valid()
      modifies this
      ensures Valid()
      ensures var r := Skip(wireType, old(Contents()));
              ok == r.Ok? && (ok ==> WentTo(r.rest))
    {
      var skipped;
      if wireType == 0 {
        ok := SkipOverVarint();
      } else if wireType == 1 {
        ok, skipped := Read(8);
      } else if wireType == 2 {
        var length;
        ok, length := DecodeVarint32();
        if ok { ok, skipped := Read(length); }
      } else if wireType == 5 {
        ok, skipped := Read(4);
      } else {
        ok := false;
      }
    }
  }

  method WithGroup(result: nat, group: nat, weight: nat, ghost low: nat) returns (r: nat)
    requires result == low % TWO64
    ensures r == (low + group * weight) % TWO64
  {
    MulMod(low, group, weight, TWO64);
    r := (result + group * weight) % TWO64;
  }
}
