/** Little-endian fixed-width integers, base-128 varints and length-prefixed slices
    (util/coding.cc). */
module Coding {
  import opened DbFormat
  import opened Entries

  const TWO32: nat := 0x1_0000_0000
  const TWO64: nat := 0x1_0000_0000_0000_0000

  lemma Associate(a: Bytes, b: Bytes, c: Bytes)
    ensures a + (b + c) == (a + b) + c
  {
  }

  // ---- fixed width ----

  function EncodeFixed(width: nat, v: nat): (r: Bytes)
    ensures |r| == width
  {
    if width == 0 then [] else [v % 256] + EncodeFixed(width - 1, v / 256)
  }

  function DecodeFixed(b: Bytes): nat {
    if |b| == 0 then 0 else b[0] + 256 * DecodeFixed(b[1..])
  }

  function Pow256(n: nat): (r: nat)
    ensures r > 0
  {
    if n == 0 then 1 else 256 * Pow256(n - 1)
  }

  lemma {:induction false} FixedRoundTrip(width: nat, v: nat)
    requires v < Pow256(width)
    ensures DecodeFixed(EncodeFixed(width, v)) == v
  {
    if width > 0 {
      FixedRoundTrip(width - 1, v / 256);
      assert EncodeFixed(width, v)[1..] == EncodeFixed(width - 1, v / 256);
    }
  }

  lemma {:induction false} FixedIsOnto(b: Bytes)
    ensures DecodeFixed(b) < Pow256(|b|) && EncodeFixed(|b|, DecodeFixed(b)) == b
  {
    if |b| > 0 {
      FixedIsOnto(b[1..]);
      assert DecodeFixed(b) / 256 == DecodeFixed(b[1..]) && DecodeFixed(b) % 256 == b[0];
      assert b == [b[0]] + b[1..];
    }
  }

  lemma FixedWidths()
    ensures Pow256(2) == 0x1_0000 && Pow256(4) == TWO32 && Pow256(8) == TWO64
  {
    assert Pow256(1) == 256;
    assert Pow256(2) == 256 * 256;
    assert Pow256(3) == 256 * Pow256(2);
    assert Pow256(4) == 256 * Pow256(3);
    assert Pow256(5) == 256 * Pow256(4);
    assert Pow256(6) == 256 * Pow256(5);
    assert Pow256(7) == 256 * Pow256(6);
  }

  // ---- varints ----

  function EncodeVarint(v: nat): (r: Bytes)
    ensures |r| > 0
  {
    if v < 128 then [v] else [v % 128 + 128] + EncodeVarint(v / 128)
  }

  datatype Decoded = Bad | Got(value: nat, rest: Bytes)

  /** What at most `limit` bytes of base 128 say, low group first. */
  function DecodeVarint(input: Bytes, limit: nat): (r: Decoded)
    ensures r.Got? ==> |r.rest| < |input|
  {
    if limit == 0 || |input| == 0 then Bad
    else if input[0] < 128 then Got(input[0], input[1..])
    else match DecodeVarint(input[1..], limit - 1)
      case Bad => Bad
      case Got(v, rest) => Got(input[0] - 128 + 128 * v, rest)
  }

  lemma {:induction false} VarintRoundTrip(v: nat, rest: Bytes, limit: nat)
    requires |EncodeVarint(v)| <= limit
    ensures DecodeVarint(EncodeVarint(v) + rest, limit) == Got(v, rest)
  {
    var b := EncodeVarint(v);
    if v < 128 {
      assert (b + rest)[1..] == rest;
    } else {
      VarintRoundTrip(v / 128, rest, limit - 1);
      assert (b + rest)[1..] == EncodeVarint(v / 128) + rest;
    }
  }

  function Pow128(n: nat): (r: nat)
    ensures r > 0
  {
    if n == 0 then 1 else 128 * Pow128(n - 1)
  }

  lemma {:induction false} VarintLengthBound(v: nat, n: nat)
    requires n > 0 && v < Pow128(n)
    ensures |EncodeVarint(v)| <= n
  {
    if v >= 128 {
      assert n > 1;
      VarintLengthBound(v / 128, n - 1);
    }
  }

  lemma VarintWidths()
    ensures Pow128(5) == 0x8_0000_0000 && Pow128(10) == 0x40_0000_0000_0000_0000
  {
    assert Pow128(1) == 128;
    assert Pow128(2) == 128 * 128;
    assert Pow128(3) == 128 * Pow128(2);
    assert Pow128(4) == 128 * Pow128(3);
    assert Pow128(5) == 128 * Pow128(4);
    assert Pow128(6) == 128 * Pow128(5);
    assert Pow128(7) == 128 * Pow128(6);
    assert Pow128(8) == 128 * Pow128(7);
    assert Pow128(9) == 128 * Pow128(8);
  }

  /** GetVarint32: five bytes at most, and the value wraps to 32 bits. */
  function GetVarint32(input: Bytes): Decoded {
    match DecodeVarint(input, 5)
    case Bad => Bad
    case Got(v, rest) => Got(v % TWO32, rest)
  }

  function GetVarint64(input: Bytes): Decoded {
    match DecodeVarint(input, 10)
    case Bad => Bad
    case Got(v, rest) => Got(v % TWO64, rest)
  }

  lemma Varint32RoundTrip(v: nat, rest: Bytes)
    requires v < TWO32
    ensures GetVarint32(EncodeVarint(v) + rest) == Got(v, rest)
  {
    VarintWidths();
    VarintLengthBound(v, 5);
    VarintRoundTrip(v, rest, 5);
  }

  lemma Varint64RoundTrip(v: nat, rest: Bytes)
    requires v < TWO64
    ensures GetVarint64(EncodeVarint(v) + rest) == Got(v, rest)
  {
    VarintWidths();
    VarintLengthBound(v, 10);
    VarintRoundTrip(v, rest, 10);
  }

  /** The unrolled encoder writes the base-128 groups. */
  method EncodeVarint32(v: nat) returns (dst: Bytes)
    requires v < TWO32
    ensures dst == EncodeVarint(v)
  {
    if v < 0x80 {
      dst := [v];
    } else if v < 0x4000 {
      dst := [v % 128 + 128, v / 0x80];
      assert v / 128 < 128;
    } else if v < 0x20_0000 {
      dst := [v % 128 + 128, v / 0x80 % 128 + 128, v / 0x4000];
      assert v / 128 / 128 == v / 0x4000;
      assert EncodeVarint(v / 128) == [v / 128 % 128 + 128] + EncodeVarint(v / 128 / 128);
    } else if v < 0x1000_0000 {
      dst := [v % 128 + 128, v / 0x80 % 128 + 128, v / 0x4000 % 128 + 128, v / 0x20_0000];
      assert v / 128 / 128 == v / 0x4000 && v / 0x4000 / 128 == v / 0x20_0000;
      assert EncodeVarint(v / 0x4000) == [v / 0x4000 % 128 + 128] + EncodeVarint(v / 0x20_0000);
      assert EncodeVarint(v / 128) == [v / 128 % 128 + 128] + EncodeVarint(v / 0x4000);
    } else {
      dst := [v % 128 + 128, v / 0x80 % 128 + 128, v / 0x4000 % 128 + 128, v / 0x20_0000 % 128 + 128, v / 0x1000_0000];
      assert v / 128 / 128 == v / 0x4000 && v / 0x4000 / 128 == v / 0x20_0000 && v / 0x20_0000 / 128 == v / 0x1000_0000;
      assert EncodeVarint(v / 0x20_0000) == [v / 0x20_0000 % 128 + 128] + EncodeVarint(v / 0x1000_0000);
      assert EncodeVarint(v / 0x4000) == [v / 0x4000 % 128 + 128] + EncodeVarint(v / 0x20_0000);
      assert EncodeVarint(v / 128) == [v / 128 % 128 + 128] + EncodeVarint(v / 0x4000);
    }
  }

  method EncodeVarint64(v: nat) returns (dst: Bytes)
    ensures dst == EncodeVarint(v)
  {
    hide EncodeVarint;
    dst := [];
    var left := v;
    assert [] + EncodeVarint(v) == EncodeVarint(v);
    while left >= 128
      invariant dst + EncodeVarint(left) == EncodeVarint(v)
    {
      EncodedStep(left);
      Associate(dst, [left % 128 + 128], EncodeVarint(left / 128));
      dst := dst + [left % 128 + 128];
      left := left / 128;
    }
    EncodedStep(left);
    dst := dst + [left];
  }

  lemma EncodedStep(v: nat)
    ensures EncodeVarint(v) == if v < 128 then [v] else [v % 128 + 128] + EncodeVarint(v / 128)
  {
  }

  method VarintLength(v: nat) returns (len: nat)
    ensures len == |EncodeVarint(v)|
  {
    len := 1;
    var left := v;
    while left >= 128
      invariant len + |EncodeVarint(left)| == |EncodeVarint(v)| + 1
    {
      left := left / 128;
      len := len + 1;
    }
  }

  lemma MulMod(a: nat, b: nat, c: nat, m: nat)
    requires m > 0
    ensures (a % m + b * c) % m == (a + b * c) % m
  {
    var x := b * c;
    assert a == a / m * m + a % m;
    assert a + x == a / m * m + (a % m + x);
    ModShift(a / m, a % m + x, m);
  }

  lemma ModShift(k: nat, x: nat, m: nat)
    requires m > 0
    ensures (k * m + x) % m == x % m
  {
    var q, r := x / m, x % m;
    assert k * m + x == (k + q) * m + r;
    ModUnique(k + q, r, m);
  }

  lemma MulSteps(d: int, m: nat)
    ensures d >= 1 ==> d * m >= m
    ensures d <= -1 ==> d * m + m <= 0
  {
    assert d * m == (d - 1) * m + m;
    assert d * m + m == (d + 1) * m;
  }

  lemma ModUnique(k: nat, r: nat, m: nat)
    requires r < m
    ensures (k * m + r) % m == r
  {
    var v := k * m + r;
    var d := v / m - k;
    assert v == v / m * m + v % m;
    assert d * m == v / m * m - k * m;
    MulSteps(d, m);
  }

  /** A decoded tail, shifted up behind what was read before it. */
  function Shifted(low: nat, weight: nat, tail: Decoded): Decoded {
    match tail case Bad => Bad case Got(v, rest) => Got(low + v * weight, rest)
  }

  lemma OneGroupMore(input: Bytes, limit: nat, low: nat, weight: nat)
    requires limit > 0 && |input| > 0 && input[0] >= 128
    ensures Shifted(low, weight, DecodeVarint(input, limit))
         == Shifted(low + (input[0] - 128) * weight, 128 * weight, DecodeVarint(input[1..], limit - 1))
  {
    var tail := DecodeVarint(input[1..], limit - 1);
    if tail.Got? {
      var b, v := input[0] - 128, tail.value;
      assert (b + 128 * v) * weight == b * weight + v * (128 * weight);
    }
  }

  /** The decoding loop, for either width: `modulus` is 2^32 or 2^64. */
  method DecodeVarintLoop(input: Bytes, limit: nat, modulus: nat) returns (r: Decoded)
    requires modulus > 0
    ensures r == match DecodeVarint(input, limit) case Bad => Bad case Got(v, rest) => Got(v % modulus, rest)
  {
    hide Summed, DecodeVarint;
    var result: nat, weight: nat := 0, 1;
    ghost var low: nat := 0;
    var i := 0;
    NothingSummed(input, limit);
    while i < limit && i < |input|
      invariant i <= |input| && i <= limit
      invariant result == low % modulus && Summed(input, limit, i, low, weight)
    {
      SumGoesOn(input, limit, i, low, weight);
      if input[i] < 128 {
        result := AddGroup(result, input[i], weight, modulus, low);
        return Got(result, input[i + 1..]);
      }
      result := AddGroup(result, input[i] - 128, weight, modulus, low);
      low := low + (input[i] - 128) * weight;
      weight := 128 * weight;
      i := i + 1;
    }
    SumIsCut(input, limit, i, low, weight);
    return Bad;
  }

  /** The first `i` groups add up to `low`; the rest is still to come. */
  predicate Summed(input: Bytes, limit: nat, i: nat, low: nat, weight: nat)
    requires i <= |input| && i <= limit
  {
    DecodeVarint(input, limit) == Shifted(low, weight, DecodeVarint(input[i..], limit - i))
  }

  lemma NothingSummed(input: Bytes, limit: nat)
    ensures Summed(input, limit, 0, 0, 1)
  {
    assert input[0..] == input;
    hide DecodeVarint;
  }

  lemma SumGoesOn(input: Bytes, limit: nat, i: nat, low: nat, weight: nat)
    requires i < |input| && i < limit && Summed(input, limit, i, low, weight)
    ensures if input[i] < 128 then DecodeVarint(input, limit) == Got(low + input[i] * weight, input[i + 1..])
            else Summed(input, limit, i + 1, low + (input[i] - 128) * weight, 128 * weight)
  {
    hide DecodeVarint, Shifted;
    var here := input[i..];
    assert here[0] == input[i] && here[1..] == input[i + 1..];
    if input[i] < 128 { LastGroup(here, limit - i, low, weight); } else { OneGroupMore(here, limit - i, low, weight); }
  }

  lemma LastGroup(input: Bytes, limit: nat, low: nat, weight: nat)
    requires limit > 0 && |input| > 0 && input[0] < 128
    ensures Shifted(low, weight, DecodeVarint(input, limit)) == Got(low + input[0] * weight, input[1..])
  {
  }

  lemma SumIsCut(input: Bytes, limit: nat, i: nat, low: nat, weight: nat)
    requires i <= |input| && i <= limit && (i == |input| || i == limit) && Summed(input, limit, i, low, weight)
    ensures DecodeVarint(input, limit) == Bad
  {
  }

  /** One group of seven bits joins the result, which wraps. */
  method AddGroup(result: nat, group: nat, weight: nat, modulus: nat, ghost low: nat) returns (r: nat)
    requires modulus > 0 && result == low % modulus
    ensures r == (low + group * weight) % modulus
  {
    MulMod(low, group, weight, modulus);
    r := (result + group * weight) % modulus;
  }

  // ---- slices ----

  function LengthPrefixed(s: Bytes): Bytes {
    EncodeVarint(|s|) + s
  }

  datatype Slice = NoSlice | GotSlice(value: Bytes, rest: Bytes)

  function GetLengthPrefixed(input: Bytes): (r: Slice)
    ensures r.GotSlice? ==> |r.rest| < |input|
  {
    match GetVarint32(input)
    case Bad => NoSlice
    case Got(len, rest) => if len <= |rest| then GotSlice(rest[..len], rest[len..]) else NoSlice
  }

  lemma SliceRoundTrip(s: Bytes, rest: Bytes)
    requires |s| < TWO32
    ensures GetLengthPrefixed(LengthPrefixed(s) + rest) == GotSlice(s, rest)
  {
    assert LengthPrefixed(s) + rest == EncodeVarint(|s|) + (s + rest);
    Varint32RoundTrip(|s|, s + rest);
    assert (s + rest)[..|s|] == s && (s + rest)[|s|..] == rest;
  }

  /** A varint cut short is no varint. */
  lemma {:induction false} CutVarintFails(v: nat, n: nat, limit: nat)
    requires n < |EncodeVarint(v)|
    ensures DecodeVarint(EncodeVarint(v)[..n], limit) == Bad
  {
    if n > 0 && limit > 0 {
      assert EncodeVarint(v)[..n][1..] == EncodeVarint(v / 128)[..n - 1];
      CutVarintFails(v / 128, n - 1, limit - 1);
    }
  }

  /** A slice cut short is no slice. */
  lemma CutSliceFails(s: Bytes, n: nat)
    requires |s| < TWO32 && n < |LengthPrefixed(s)|
    ensures GetLengthPrefixed(LengthPrefixed(s)[..n]) == NoSlice
  {
    var length := EncodeVarint(|s|);
    var cut := LengthPrefixed(s)[..n];
    if n < |length| {
      assert cut == length[..n];
      CutVarintFails(|s|, n, 5);
    } else {
      assert cut == length + s[..n - |length|];
      Varint32RoundTrip(|s|, s[..n - |length|]);
    }
    hide EncodeVarint, DecodeVarint;
  }
}
