/** The log format (db/log_format.h, db/log_writer.cc, db/log_reader.cc): records cut into
    fragments that never cross a block of 32 KiB, and what a reader makes of a log whose
    end is missing.  The checksum is a parameter; masking it is not. */
module Log {
  import opened DbFormat
  import opened Entries
  import opened Coding

  const BLOCK: nat := 32768
  const HEADER: nat := 7

  const FULL: Byte := 1
  const FIRST: Byte := 2
  const MIDDLE: Byte := 3
  const LAST: Byte := 4

  type Word = n: nat | n < TWO32

  /** CRC of the record type and the payload. */
  type Checksum = (Byte, Bytes) -> Word

  const MASK_DELTA: nat := 0xa282ead8

  /** crc32c::Mask: rotate right by 15 bits and add a constant. */
  function Mask(crc: Word): Word {
    (crc / 0x8000 + crc % 0x8000 * 0x2_0000 + MASK_DELTA) % TWO32
  }

  function Unmask(masked: Word): Word {
    var rot := (masked + TWO32 - MASK_DELTA) % TWO32;
    rot / 0x2_0000 + rot % 0x2_0000 * 0x8000
  }

  lemma UnmaskUndoesMask(crc: Word)
    ensures Unmask(Mask(crc)) == crc
  {
    var rot := crc / 0x8000 + crc % 0x8000 * 0x2_0000;
    assert rot < TWO32;
    assert (Mask(crc) + TWO32 - MASK_DELTA) % TWO32 == rot;
    assert rot / 0x2_0000 == crc % 0x8000 && rot % 0x2_0000 == crc / 0x8000;
  }

  // ---- writing ----

  function BlockEnd(pos: nat): nat {
    pos - pos % BLOCK + BLOCK
  }

  /** Where the next header goes: fewer than seven bytes at the end of a block stay empty. */
  function Align(pos: nat): (q: nat) {
    if BlockEnd(pos) - pos < HEADER then BlockEnd(pos) else pos
  }

  lemma AlignFits(pos: nat)
    ensures pos <= Align(pos) < pos + HEADER && Align(pos) % BLOCK + HEADER <= BLOCK
  {
    assert BlockEnd(pos) % BLOCK == 0;
  }

  function Room(pos: nat): nat {
    AlignFits(pos);
    BLOCK - Align(pos) % BLOCK - HEADER
  }

  function FragmentLength(pos: nat, left: nat): (f: nat)
    ensures f <= left && f <= BLOCK
  {
    if left < Room(pos) then left else Room(pos)
  }

  function FragmentType(begin: bool, end: bool): (t: Byte)
    ensures 1 <= t <= 4
  {
    if begin && end then FULL else if begin then FIRST else if end then LAST else MIDDLE
  }

  function Piece(crc: Checksum, t: Byte, payload: Bytes): (r: Bytes)
    requires |payload| <= BLOCK
    ensures |r| == HEADER + |payload|
  {
    EncodeFixed(4, Mask(crc(t, payload))) + [|payload| % 256, |payload| / 256, t] + payload
  }

  function Zeros(n: nat): (r: Bytes)
    ensures |r| == n
  {
    seq(n, _ => 0)
  }

  /** The next fragment of `data`, behind the padding that aligns it. */
  function NextFragment(crc: Checksum, pos: nat, data: Bytes, begin: bool): (r: Bytes)
    ensures pos + |r| == Align(pos) + HEADER + FragmentLength(pos, |data|)
  {
    var f := FragmentLength(pos, |data|);
    Zeros(Align(pos) - pos) + Piece(crc, FragmentType(begin, f == |data|), data[..f])
  }

  /** The fragments of `data` as they are laid out from position `pos` on. */
  function Emitted(crc: Checksum, pos: nat, data: Bytes, begin: bool): (r: Bytes)
    ensures |r| >= HEADER
    decreases |data|, if FragmentLength(pos, |data|) == 0 then 1 else 0
  {
    var f := FragmentLength(pos, |data|);
    var next := NextFragment(crc, pos, data, begin);
    if f == |data| then next else
      NextFragmentFits(pos, |data|);
      next + Emitted(crc, pos + |next|, data[f..], false)
  }

  /** An empty fragment is only written into the last seven bytes of a block, so the next
      one is not empty. */
  lemma NextFragmentFits(pos: nat, left: nat)
    requires FragmentLength(pos, left) < left
    ensures FragmentLength(Align(pos) + HEADER + FragmentLength(pos, left), left - FragmentLength(pos, left)) > 0
  {
    var next := Align(pos) + HEADER + FragmentLength(pos, left);
    assert next % BLOCK == 0;
  }

  /** What is still to be written of a record. */
  function Pending(crc: Checksum, pos: nat, left: Bytes, begin: bool, more: bool): Bytes {
    if more then Emitted(crc, pos, left, begin) else []
  }

  lemma EmittedUnfolds(crc: Checksum, pos: nat, data: Bytes, begin: bool)
    ensures var f := FragmentLength(pos, |data|);
            var next := NextFragment(crc, pos, data, begin);
            Emitted(crc, pos, data, begin) == next + Pending(crc, pos + |next|, data[f..], false, f < |data|)
            && (f < |data| ==> FragmentLength(pos + |next|, |data| - f) > 0)
  {
    if FragmentLength(pos, |data|) < |data| { NextFragmentFits(pos, |data|); }
  }

  lemma PendingIs(crc: Checksum, pos: nat, left: Bytes, begin: bool)
    ensures Pending(crc, pos, left, begin, true) == Emitted(crc, pos, left, begin)
  {
    hide Emitted;
  }

  /** The writer's offset in its block decides padding and room like the position does. */
  lemma OffsetInBlock(pos: nat, blockOffset: nat)
    requires blockOffset <= BLOCK && blockOffset % BLOCK == pos % BLOCK
    ensures var leftover := BLOCK - blockOffset;
            Align(pos) - pos == (if leftover < HEADER then leftover else 0)
            && Room(pos) == BLOCK - (if leftover < HEADER then 0 else blockOffset) - HEADER
  {
  }

  lemma SameOffset(a: nat, b: nat, n: nat)
    requires a % BLOCK == b % BLOCK
    ensures (a + n) % BLOCK == (b + n) % BLOCK
  {
  }

  class Writer {
    const crc: Checksum
    var dest: Bytes
    var blockOffset: nat

    /** Appends to a file that holds `contents` already. */
    constructor (c: Checksum, contents: Bytes)
      ensures crc == c && dest == contents && Valid()
    {
      crc, dest, blockOffset := c, contents, |contents| % BLOCK;
    }

    predicate Valid()
      reads this
    {
      blockOffset <= BLOCK && blockOffset % BLOCK == |dest| % BLOCK
    }

    method EmitPhysicalRecord(t: Byte, payload: Bytes)
      requires Valid() && blockOffset + HEADER + |payload| <= BLOCK
      modifies this
      ensures Valid() && dest == old(dest) + Piece(crc, t, payload)
    {
      SameOffset(blockOffset, |dest|, HEADER + |payload|);
      dest := dest + Piece(crc, t, payload);
      blockOffset := blockOffset + HEADER + |payload|;
    }

    /** One turn of the loop in AddRecord. */
    method EmitFragment(left: Bytes, begin: bool) returns (fragmentLength: nat)
      requires Valid()
      modifies this
      ensures Valid() && fragmentLength == FragmentLength(|old(dest)|, |left|)
      ensures dest == old(dest) + NextFragment(crc, |old(dest)|, left, begin)
    {
      hide Align, Room, Zeros, Piece;
      ghost var start := dest;
      FillTail();
      var avail := BLOCK - blockOffset - HEADER;
      fragmentLength := if |left| < avail then |left| else avail;
      EmitPhysicalRecord(FragmentType(begin, |left| == fragmentLength), left[..fragmentLength]);
      Associate(start, Zeros(Align(|start|) - |start|), Piece(crc, FragmentType(begin, fragmentLength == |left|), left[..fragmentLength]));
    }

    /** A tail shorter than a header is filled with zeros. */
    method FillTail()
      requires Valid()
      modifies this
      ensures Valid() && blockOffset + HEADER <= BLOCK && BLOCK - blockOffset - HEADER == Room(|old(dest)|)
      ensures |old(dest)| <= Align(|old(dest)|) && dest == old(dest) + Zeros(Align(|old(dest)|) - |old(dest)|)
    {
      var leftover := BLOCK - blockOffset;
      OffsetInBlock(|dest|, blockOffset);
      AlignFits(|dest|);
      if leftover < HEADER {
        dest := dest + Zeros(leftover);
        blockOffset := 0;
      } else {
        assert dest == dest + Zeros(0);
      }
    }

    /** Appends the fragments of one record; an empty record still makes one fragment. */
    method AddRecord(data: Bytes)
      requires Valid()
      modifies this
      ensures Valid() && dest == old(dest) + Emitted(crc, |old(dest)|, data, true)
    {
      hide Emitted, NextFragment, FragmentLength;
      var left := data;
      var begin := true;
      var more := true;
      ghost var total := dest + Emitted(crc, |dest|, data, true);
      PendingIs(crc, |dest|, data, true);
      while more
        invariant Valid()
        invariant dest + Pending(crc, |dest|, left, begin, more) == total
        decreases more, |left|, if FragmentLength(|dest|, |left|) == 0 then 1 else 0
      {
        ghost var start, next := dest, NextFragment(crc, |dest|, left, begin);
        EmittedUnfolds(crc, |dest|, left, begin);
        var f := EmitFragment(left, begin);
        Associate(start, next, Pending(crc, |dest|, left[f..], false, f < |left|));
        left, begin, more := left[f..], false, f < |left|;
      }
    }
  }
}
