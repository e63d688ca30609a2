/** nanopb's integer codecs (ios/Pods/nanopb/pb_encode.c, pb_decode.c): varints of 32 and 64 bits, zigzag and
    two's complement, and where the lenient 32-bit decoder agrees with the encoder. */
module PbVarint {
  import opened DbFormat
  import opened Entries
  import opened Coding

  const TWO31: nat := 0x8000_0000
  const TWO63: nat := 0x8000_0000_0000_0000

  /** What a reader returns: nothing, or a value and the bytes behind it. */
  datatype Read<+T> = Fail | Ok(value: T, rest: Bytes)

  // ---- bits of naturals ----

  function BitOr(x: nat, y: nat): (r: nat)
    decreases x + y
  {
    if x == 0 && y == 0 then 0
    else (if x % 2 == 1 || y % 2 == 1 then 1 else 0) + 2 * BitOr(x / 2, y / 2)
  }

  function Pow2(n: nat): (r: nat)
    ensures r > 0
  {
    if n == 0 then 1 else 2 * Pow2(n - 1)
  }

  lemma {:induction false} OrWithZero(x: nat)
    ensures BitOr(x, 0) == x && BitOr(0, x) == x
  {
    if x > 0 { OrWithZero(x / 2); }
  }

  /** OR-ing in a group above everything set so far is adding it. */
  lemma {:induction false} OrAbove(x: nat, y: nat, n: nat)
    requires x < Pow2(n)
    ensures BitOr(x, y * Pow2(n)) == x + y * Pow2(n)
  {
    if n == 0 {
      OrWithZero(y);
    } else {
      var z := y * Pow2(n - 1);
      assert y * Pow2(n) == 2 * z;
      OrAbove(x / 2, y, n - 1);
      if x == 0 && z == 0 {
      } else {
        assert (2 * z) / 2 == z && (2 * z) % 2 == 0;
      }
    }
  }

  // ---- 32-bit varints ----

  function Shl(x: nat, n: nat): nat {
    x * Pow2(n)
  }

  /** One more group at bit position `bitpos`; bits above 31 fall off. */
  function OrGroup(result: nat, byte: nat, bitpos: nat): nat {
    BitOr(result, Shl(byte % 128, bitpos) % TWO32)
  }

  /** Beyond bit 31 only padding is allowed: empty groups, or the sign extension of a
      negative number. */
  predicate IsPadding(result: nat, byte: nat, bitpos: nat) {
    byte % 128 == 0 || (result >= TWO31 && byte == if bitpos < 63 then 0xFF else 0x01)
  }

  /** The loop of pb_decode_varint32 behind the first byte; the bit position is kept in
      eight bits. */
  function Varint32Tail(result: nat, bitpos: nat, input: Bytes): (r: Read<nat>)
    ensures r.Ok? ==> |r.rest| < |input|
    decreases |input|
  {
    if |input| == 0 then Fail
    else
      var byte := input[0];
      if bitpos >= 32 && !IsPadding(result, byte, bitpos) then Fail
      else
        var result' := if bitpos >= 32 then result else OrGroup(result, byte, bitpos);
        var next := (bitpos + 7) % 256;
        if byte >= 128 then Varint32Tail(result', next, input[1..])
        else if next == 35 && byte / 16 % 8 != 0 then Fail
        else Ok(result', input[1..])
  }

  function ReadVarint32(input: Bytes): (r: Read<nat>)
    ensures r.Ok? ==> |r.rest| < |input|
  {
    if |input| == 0 then Fail
    else if input[0] < 128 then Ok(input[0], input[1..])
    else Varint32Tail(input[0] - 128, 7, input[1..])
  }

  function ReadVarint64(input: Bytes): (r: Read<nat>)
    ensures r.Ok? ==> |r.rest| < |input| && r.value < TWO64
  {
    match GetVarint64(input)
    case Bad => Fail
    case Got(v, rest) => Ok(v, rest)
  }

  lemma Pow2Values()
    ensures Pow2(0) == 1 && Pow2(7) == 0x80 && Pow2(14) == 0x4000 && Pow2(21) == 0x20_0000 && Pow2(28) == 0x1000_0000
  {
    assert Pow2(1) == 2 && Pow2(2) == 4 && Pow2(3) == 8;
    assert Pow2(4) == 16 && Pow2(5) == 32 && Pow2(6) == 64;
    assert Pow2(8) == 2 * Pow2(7) && Pow2(9) == 2 * Pow2(8) && Pow2(10) == 2 * Pow2(9) && Pow2(11) == 2 * Pow2(10);
    assert Pow2(12) == 2 * Pow2(11) && Pow2(13) == 2 * Pow2(12);
    assert Pow2(15) == 2 * Pow2(14) && Pow2(16) == 2 * Pow2(15) && Pow2(17) == 2 * Pow2(16) && Pow2(18) == 2 * Pow2(17);
    assert Pow2(19) == 2 * Pow2(18) && Pow2(20) == 2 * Pow2(19);
    assert Pow2(22) == 2 * Pow2(21) && Pow2(23) == 2 * Pow2(22) && Pow2(24) == 2 * Pow2(23) && Pow2(25) == 2 * Pow2(24);
    assert Pow2(26) == 2 * Pow2(25) && Pow2(27) == 2 * Pow2(26);
  }

  /** A group that fits below bit 32 is simply added. */
  lemma GroupFits(result: nat, byte: nat, bitpos: nat)
    requires result < Pow2(bitpos) && Shl(byte % 128, bitpos) < TWO32
    ensures OrGroup(result, byte, bitpos) == result + Shl(byte % 128, bitpos)
  {
    OrAbove(result, byte % 128, bitpos);
    assert Shl(byte % 128, bitpos) % TWO32 == Shl(byte % 128, bitpos);
    hide BitOr, Pow2;
  }

  lemma TailEnds(result: nat, bitpos: nat, byte: Byte, rest: Bytes)
    requires bitpos < 32 && byte < 128 && (bitpos == 28 ==> byte < 16)
    ensures Varint32Tail(result, bitpos, [byte] + rest) == Ok(OrGroup(result, byte, bitpos), rest)
  {
    hide OrGroup;
    assert ([byte] + rest)[1..] == rest;
  }

  lemma TailGoesOn(result: nat, bitpos: nat, byte: Byte, rest: Bytes)
    requires bitpos < 32 && byte >= 128
    ensures Varint32Tail(result, bitpos, [byte] + rest) == Varint32Tail(OrGroup(result, byte, bitpos), bitpos + 7, rest)
  {
    hide OrGroup;
    assert ([byte] + rest)[1..] == rest;
  }

  lemma EncodedHead(v: nat, rest: Bytes)
    ensures v < 128 ==> EncodeVarint(v) + rest == [v] + rest
    ensures v >= 128 ==> EncodeVarint(v) + rest == [v % 128 + 128] + (EncodeVarint(v / 128) + rest)
    ensures (v % 128 + 128) % 128 == v % 128 && (v % 128 + 128) % 16 == v % 16
  {
    EncodedStep(v);
    if v >= 128 { Associate([v % 128 + 128], EncodeVarint(v / 128), rest); }
    SameLowBits(v);
    hide *;
  }

  lemma LowFour(m: nat, high: nat, low: nat)
    requires m == high * 16 + low && low < 16
    ensures m % 16 == low
  {
  }

  lemma SameLowBits(v: nat)
    ensures (v % 128 + 128) % 128 == v % 128 && (v % 128 + 128) % 16 == v % 16
  {
    GroupAndRest(v);
    var r := v % 128;
    assert r == r / 16 * 16 + r % 16;
    LowFour(r + 128, r / 16 + 8, r % 16);
    LowFour(v, v / 128 * 8 + r / 16, r % 16);
  }

  /** The groups of `v`, read at bit position `bitpos`, add v * 2^bitpos. */
  lemma {:induction false} TailReads(result: nat, bitpos: nat, v: nat, rest: Bytes)
    requires bitpos in {7, 14, 21, 28} && result < Pow2(bitpos)
    requires Shl(v, bitpos) + result < TWO32
    ensures Varint32Tail(result, bitpos, EncodeVarint(v) + rest) == Ok(result + Shl(v, bitpos), rest)
    decreases v
  {
    hide *;
    GroupBound(v, bitpos, result);
    EncodedHead(v, rest);
    if v < 128 {
      GroupFits(result, v, bitpos);
      TailEnds(result, bitpos, v, rest);
    } else {
      GroupFits(result, v % 128 + 128, bitpos);
      TailGoesOn(result, bitpos, v % 128 + 128, EncodeVarint(v / 128) + rest);
      NextGroup(v, bitpos, result);
      TailReads(result + Shl(v % 128, bitpos), bitpos + 7, v / 128, rest);
    }
  }

  lemma GroupBound(v: nat, bitpos: nat, result: nat)
    requires bitpos in {7, 14, 21, 28} && Shl(v, bitpos) + result < TWO32
    ensures Shl(v % 128, bitpos) < TWO32
    ensures bitpos == 28 ==> v < 16
  {
    Pow2Values();
    assert v % 128 <= v;
    assert Shl(v % 128, bitpos) <= Shl(v, bitpos);
  }

  lemma NextGroup(v: nat, bitpos: nat, result: nat)
    requires bitpos in {7, 14, 21, 28} && v >= 128 && result < Pow2(bitpos)
    requires Shl(v, bitpos) + result < TWO32
    ensures bitpos < 28
    ensures result + Shl(v % 128, bitpos) < Pow2(bitpos + 7)
    ensures result + Shl(v, bitpos) == (result + Shl(v % 128, bitpos)) + Shl(v / 128, bitpos + 7)
  {
    Pow2Values();
    GroupBound(v, bitpos, result);
    var hi, lo := v / 128, v % 128;
    assert v == hi * 128 + lo;
    Distribute(hi, lo, Pow2(bitpos));
  }

  lemma Distribute(hi: nat, lo: nat, w: nat)
    ensures (hi * 128 + lo) * w == lo * w + hi * (128 * w)
  {
  }

  /** The 32-bit decoder reads back what the encoder wrote. */
  lemma Varint32Reads(v: nat, rest: Bytes)
    requires v < TWO32
    ensures ReadVarint32(EncodeVarint(v) + rest) == Ok(v, rest)
  {
    if v < 128 {
      EncodedHead(v, rest);
      assert ([v] + rest)[1..] == rest;
      hide EncodeVarint;
    } else {
      hide *;
      Pow2Values();
      FirstGroup(v, rest);
      FirstGroupIs(v);
      TailReads(v % 128, 7, v / 128, rest);
    }
  }

  lemma FirstGroupIs(v: nat)
    ensures Shl(v / 128, 7) + v % 128 == v && v % 128 < 0x80
  {
    Pow2Values();
    hide Pow2;
  }

  lemma Varint64Reads(v: nat, rest: Bytes)
    requires v < TWO64
    ensures ReadVarint64(EncodeVarint(v) + rest) == Ok(v, rest)
  {
    Varint64RoundTrip(v, rest);
  }

  // ---- negative numbers, sign-extended to 64 bits ----

  lemma OneGroup(result: nat, bitpos: nat, v: nat, rest: Bytes)
    requires bitpos in {7, 14, 21} && result < Pow2(bitpos) && v >= 128
    ensures Varint32Tail(result, bitpos, EncodeVarint(v) + rest)
         == Varint32Tail(result + v % 128 * Pow2(bitpos), bitpos + 7, EncodeVarint(v / 128) + rest)
    ensures result + v % 128 * Pow2(bitpos) < Pow2(bitpos + 7)
  {
    Pow2Values();
    hide BitOr, OrGroup, Varint32Tail, EncodeVarint;
    EncodedHead(v, rest);
    assert Shl(v % 128, bitpos) == v % 128 * Pow2(bitpos) < TWO32;
    GroupFits(result, v % 128 + 128, bitpos);
    TailGoesOn(result, bitpos, v % 128 + 128, EncodeVarint(v / 128) + rest);
  }

  lemma TopAndRest(m: nat, top: nat, rest: nat)
    requires m == top * 0x1000_0000 + rest && rest < 0x1000_0000
    ensures m / 0x1000_0000 == top && m % 0x1000_0000 == rest
  {
  }

  lemma GroupAndRest(m: nat)
    ensures m == m / 128 * 128 + m % 128 && m % 128 < 128
  {
  }

  lemma LowBits(m: nat)
    ensures var a, b, c := m / 128, m / 128 / 128, m / 128 / 128 / 128;
            m % 128 + a % 128 * 0x80 + b % 128 * 0x4000 + c % 128 * 0x20_0000 == m % 0x1000_0000 && c / 128 == m / 0x1000_0000
  {
    var a, b, c := m / 128, m / 128 / 128, m / 128 / 128 / 128;
    GroupAndRest(m);
    GroupAndRest(a);
    GroupAndRest(b);
    GroupAndRest(c);
    JoinGroups(m, a, b, c, c / 128, m % 128, a % 128, b % 128, c % 128);
  }

  lemma JoinGroups(m: nat, a: nat, b: nat, c: nat, d: nat, g0: nat, g1: nat, g2: nat, g3: nat)
    requires m == a * 128 + g0 && a == b * 128 + g1 && b == c * 128 + g2 && c == d * 128 + g3
    requires g0 < 128 && g1 < 128 && g2 < 128 && g3 < 128
    ensures g0 + g1 * 0x80 + g2 * 0x4000 + g3 * 0x20_0000 == m % 0x1000_0000 && d == m / 0x1000_0000
  {
    TopAndRest(m, d, g0 + g1 * 0x80 + g2 * 0x4000 + g3 * 0x20_0000);
  }

  lemma FirstGroup(m: nat, rest: Bytes)
    requires m >= 128
    ensures ReadVarint32(EncodeVarint(m) + rest) == Varint32Tail(m % 128, 7, EncodeVarint(m / 128) + rest)
  {
    EncodedHead(m, rest);
    assert (EncodeVarint(m) + rest)[1..] == EncodeVarint(m / 128) + rest;
    hide Varint32Tail, EncodeVarint;
  }

  lemma FourGroups(m: nat, rest: Bytes)
    requires m >= 0x1_0000_0000
    ensures ReadVarint32(EncodeVarint(m) + rest) == Varint32Tail(m % 0x1000_0000, 28, EncodeVarint(m / 0x1000_0000) + rest)
  {
    Pow2Values();
    hide *;
    var a, b, c := m / 128, m / 128 / 128, m / 128 / 128 / 128;
    FirstGroup(m, rest);
    OneGroup(m % 128, 7, a, rest);
    OneGroup(m % 128 + a % 128 * 0x80, 14, b, rest);
    OneGroup(m % 128 + a % 128 * 0x80 + b % 128 * 0x4000, 21, c, rest);
    LowBits(m);
  }

  /** The group at bit 28 sets the top four bits; what it has above them falls off. */
  lemma TopGroup(result: nat, byte: nat)
    requires result < 0x1000_0000
    ensures OrGroup(result, byte, 28) == result + byte % 16 * 0x1000_0000
  {
    hide Pow2, BitOr;
    Pow2Values();
    var g := byte % 128;
    OverflowingGroup(g);
    assert g % 16 == byte % 16;
    OrAbove(result, byte % 16, 28);
  }

  lemma LowWord(m: nat, high: nat, low: nat)
    requires m == high * TWO32 + low && low < TWO32
    ensures m % TWO32 == low
  {
  }

  lemma OverflowingGroup(g: nat)
    ensures g * 0x1000_0000 % TWO32 == g % 16 * 0x1000_0000
  {
    var q, r := g / 16, g % 16;
    assert g == q * 16 + r;
    LowWord(g * 0x1000_0000, q, r * 0x1000_0000);
  }

  lemma FullGroup(result: nat, bitpos: nat, rest: Bytes)
    requires result >= TWO31 && 32 <= bitpos < 63
    ensures Varint32Tail(result, bitpos, [255] + rest) == Varint32Tail(result, bitpos + 7, rest)
  {
    assert ([255] + rest)[1..] == rest;
  }

  lemma LastBit(result: nat, rest: Bytes)
    requires result >= TWO31
    ensures Varint32Tail(result, 63, [1] + rest) == Ok(result, rest)
  {
    assert ([1] + rest)[1..] == rest;
  }

  lemma OnesAre(rest: Bytes)
    ensures EncodeVarint(0x1fff_ffff) + rest == [255] + ([255] + ([255] + ([255] + ([1] + rest))))
  {
    assert EncodeVarint(1) == [1];
    assert EncodeVarint(0xff) == [255] + EncodeVarint(1);
    assert EncodeVarint(0x7fff) == [255] + EncodeVarint(0xff);
    assert EncodeVarint(0x3f_ffff) == [255] + EncodeVarint(0x7fff);
    assert EncodeVarint(0x1fff_ffff) == [255] + EncodeVarint(0x3f_ffff);
  }

  lemma SignExtensionIsSkipped(result: nat, rest: Bytes)
    requires result >= TWO31
    ensures Varint32Tail(result, 35, EncodeVarint(0x1fff_ffff) + rest) == Ok(result, rest)
  {
    hide *;
    OnesAre(rest);
    FullGroup(result, 35, [255] + ([255] + ([255] + ([1] + rest))));
    FullGroup(result, 42, [255] + ([255] + ([1] + rest)));
    FullGroup(result, 49, [255] + ([1] + rest));
    FullGroup(result, 56, [1] + rest);
    LastBit(result, rest);
  }

  lemma NegativeGroups(k: nat)
    requires 1 <= k <= TWO31
    ensures var m := TWO64 - k;
            m / 0x1000_0000 / 128 == 0x1fff_ffff && m / 0x1000_0000 >= 128
            && m % 0x1000_0000 + m / 0x1000_0000 % 16 * 0x1000_0000 == TWO32 - k
  {
    var m := TWO64 - k;
    var q := m / 0x1000_0000;
    assert m == q * 0x1000_0000 + m % 0x1000_0000;
    assert q / 128 == m / 0x8_0000_0000;
  }

  /** The 32-bit decoder also accepts a negative number written with all its 64 bits. */
  lemma SignExtendedReads(k: nat, rest: Bytes)
    requires 1 <= k <= TWO31
    ensures ReadVarint32(EncodeVarint(TWO64 - k) + rest) == Ok(TWO32 - k, rest)
  {
    var m := TWO64 - k;
    assert m >= 0x1_0000_0000 && TWO32 - k >= TWO31;
    NegativeGroups(k);
    hide *;
    FourGroups(m, rest);
    LastGroups(m % 0x1000_0000, m / 0x1000_0000, rest);
  }

  lemma LastGroups(low: nat, q: nat, rest: Bytes)
    requires low < 0x1000_0000 && q / 128 == 0x1fff_ffff && low + q % 16 * 0x1000_0000 >= 0x8000_0000
    ensures Varint32Tail(low, 28, EncodeVarint(q) + rest) == Ok(low + q % 16 * 0x1000_0000, rest)
  {
    var result := low + q % 16 * 0x1000_0000;
    assert result >= TWO31 && q >= 128;
    hide *;
    EncodedHead(q, rest);
    TailGoesOn(low, 28, q % 128 + 128, EncodeVarint(q / 128) + rest);
    TopGroup(low, q % 128 + 128);
    SignExtensionIsSkipped(result, rest);
  }

  /** The decoder is more lenient than the encoder: a padded zero is read as zero. */
  lemma PaddedZeroReads()
    ensures ReadVarint32([0x80, 0x80, 0x80, 0x80, 0x80, 0x00]) == Ok(0, [])
    ensures EncodeVarint(0) == [0]
  {
    var end: Bytes := [];
    EmptyGroups();
    assert [0x00] + end == [0x00];
    hide *;
    TailEndsWithPadding(0, 35, end);
    TailGoesOn(0, 28, 0x80, [0x00]);
    TailGoesOn(0, 21, 0x80, [0x80, 0x00]);
    TailGoesOn(0, 14, 0x80, [0x80, 0x80, 0x00]);
    TailGoesOn(0, 7, 0x80, [0x80, 0x80, 0x80, 0x00]);
    PaddedStart();
  }

  lemma EmptyGroup(n: nat)
    ensures OrGroup(0, 0x80, n) == 0
  {
    OrWithZero(0);
    hide Pow2, BitOr;
  }

  lemma EmptyGroups()
    ensures forall n | n in {7, 14, 21, 28} :: OrGroup(0, 0x80, n) == 0
    ensures EncodeVarint(0) == [0]
  {
    hide OrGroup;
    forall n | n in {7, 14, 21, 28} ensures OrGroup(0, 0x80, n) == 0 { EmptyGroup(n); }
  }

  lemma TailEndsWithPadding(result: nat, bitpos: nat, rest: Bytes)
    requires 32 <= bitpos < 200
    ensures Varint32Tail(result, bitpos, [0x00] + rest) == Ok(result, rest)
  {
    assert ([0x00] + rest)[1..] == rest;
  }

  lemma PaddedStart()
    ensures ReadVarint32([0x80, 0x80, 0x80, 0x80, 0x80, 0x00]) == Varint32Tail(0, 7, [0x80] + [0x80, 0x80, 0x80, 0x00])
    ensures [0x80] + [0x80, 0x80, 0x80, 0x00] == [0x80, 0x80, 0x80, 0x80, 0x00]
    ensures [0x80] + [0x80, 0x80, 0x00] == [0x80, 0x80, 0x80, 0x00] && [0x80] + [0x80, 0x00] == [0x80, 0x80, 0x00]
    ensures [0x80] + [0x00] == [0x80, 0x00]
  {
    hide Varint32Tail;
    assert [0x80, 0x80, 0x80, 0x80, 0x80, 0x00][1..] == [0x80] + [0x80, 0x80, 0x80, 0x00];
  }
}
