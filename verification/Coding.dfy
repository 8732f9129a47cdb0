/** Byte strings and the numbers in them (util/coding). */
module Coding {
  type byte = b: int | 0 <= b < 256 witness 0
  type Bytes = seq<byte>

  const WORD_MAX: nat := 0xffff_ffff
  type Word = w: int | 0 <= w < 0x1_0000_0000 witness 0

  const TWO32: nat := 0x1_0000_0000
  const TWO64: nat := 0x1_0000_0000_0000_0000

  function Zeros(n: nat): (bs: Bytes)
    ensures |bs| == n
  {
    seq(n, _ => 0)
  }

  /** The bytes of `whole` from p on start with `bs`. */
  ghost predicate HasAt(whole: Bytes, p: nat, bs: Bytes) {
    p + |bs| <= |whole| && whole[p..p + |bs|] == bs
  }

  lemma HasParts(whole: Bytes, p: nat, a: Bytes, b: Bytes)
    requires HasAt(whole, p, a + b)
    ensures HasAt(whole, p, a) && HasAt(whole, p + |a|, b)
  {
    assert whole[p..p + |a|] == whole[p..p + |a + b|][..|a|];
    assert whole[p + |a|..p + |a| + |b|] == whole[p..p + |a + b|][|a|..];
  }

  lemma FirstByte(whole: Bytes, p: nat, bs: Bytes)
    requires HasAt(whole, p, bs) && bs != []
    ensures p < |whole| && whole[p] == bs[0]
  {
    assert whole[p] == whole[p..p + |bs|][0];
  }

  // ---- fixed width ----

  /** Little-endian. */
  function EncodeFixed32(v: Word): (bs: Bytes)
    ensures |bs| == 4 && DecodeFixed32(bs) == v
  {
    var v1 := v / 0x100;
    var v2 := v1 / 0x100;
    [v % 0x100, v1 % 0x100, v2 % 0x100, v2 / 0x100]
  }

  function DecodeFixed32(bs: Bytes): Word
    requires |bs| == 4
  {
    bs[0] as int + 0x100 * (bs[1] as int + 0x100 * (bs[2] as int + 0x100 * bs[3] as int))
  }

  /** The least significant byte comes first. */
  lemma FixedLayout(v: Word)
    ensures EncodeFixed32(v) == [v % 256, v / 256 % 256, v / 65536 % 256, v / 16777216 % 256]
  {
  }

  lemma FixedNumber(bs: Bytes)
    requires |bs| == 4
    ensures DecodeFixed32(bs) == bs[0] as int + 256 * bs[1] as int + 65536 * bs[2] as int + 16777216 * bs[3] as int
  {
  }

  function EncodeFixed64(n: nat): (bs: seq<byte>)
    requires n < TWO64
    ensures |bs| == 8
  {
    EncodeFixed32(n % TWO32) + EncodeFixed32(n / TWO32)
  }

  function DecodeFixed64(bs: seq<byte>): nat
    requires |bs| == 8
  {
    DecodeFixed32(bs[..4]) + TWO32 * DecodeFixed32(bs[4..])
  }

  lemma Fixed64RoundTrip(n: nat)
    requires n < TWO64
    ensures DecodeFixed64(EncodeFixed64(n)) == n
  {
    var low, high := EncodeFixed32(n % TWO32), EncodeFixed32(n / TWO32);
    assert (low + high)[..4] == low && (low + high)[4..] == high;
  }

  // ---- varints (the Encoding document of Protocol Buffers, "Base 128 Varints") ----

  const VARINT32_MAX_BYTES: nat := 5

  /** Seven bits a byte, least significant first; the top bit says that more follow. */
  function EncodeVarint(v: nat): (bs: Bytes)
    ensures bs != [] && (v < 128 <==> |bs| == 1) && (bs[0] < 128 <==> v < 128)
    decreases v
  {
    if v < 128 then [v] else [128 + v % 128] + EncodeVarint(v / 128)
  }

  /** A number and where it ends; at most n bytes of it are looked at, and none from `limit` on. */
  function DecodeVarint(data: Bytes, p: nat, limit: nat, n: nat): (r: (bool, nat, nat))
    requires limit <= |data|
    ensures r.0 ==> p < r.2 <= limit
    decreases n
  {
    if p >= limit || n == 0 then (false, 0, p)
    else if data[p] < 128 then (true, data[p], p + 1)
    else
      var rest := DecodeVarint(data, p + 1, limit, n - 1);
      (rest.0, data[p] - 128 + 128 * rest.1, rest.2)
  }

  lemma {:induction false} VarintRoundTrip(v: nat, data: Bytes, p: nat, limit: nat, n: nat)
    requires HasAt(data, p, EncodeVarint(v)) && p + |EncodeVarint(v)| <= limit <= |data| && |EncodeVarint(v)| <= n
    ensures DecodeVarint(data, p, limit, n) == (true, v, p + |EncodeVarint(v)|)
    decreases v
  {
    assert data[p] == data[p..p + |EncodeVarint(v)|][0];
    if v >= 128 {
      var rest := EncodeVarint(v / 128);
      HasParts(data, p, [128 + v % 128], rest);
      VarintRoundTrip(v / 128, data, p + 1, limit, n - 1);
    }
  }

  /** A number that stands at the beginning of some bytes, and what follows it. */
  ghost predicate Leads(bs: Bytes, v: nat, rest: Bytes) {
    bs == EncodeVarint(v) + rest
    && exists q :: DecodeVarint(bs, 0, |bs|, |bs|) == (true, v, q) && q <= |bs| && bs[q..] == rest
  }

  lemma LeadsOn(v: nat, rest: Bytes)
    ensures Leads(EncodeVarint(v) + rest, v, rest)
  {
    var bs := EncodeVarint(v) + rest;
    assert bs[0..0 + |EncodeVarint(v)|] == EncodeVarint(v);
    VarintRoundTrip(v, bs, 0, |bs|, |bs|);
    assert bs[|EncodeVarint(v)|..] == rest;
  }

  lemma LeadsAlone(v: nat)
    ensures Leads(EncodeVarint(v), v, [])
  {
    LeadsOn(v, []);
    assert EncodeVarint(v) + [] == EncodeVarint(v);
  }

  /** 32-bit numbers take at most five bytes. */
  lemma VarintLength(v: Word)
    ensures |EncodeVarint(v)| <= VARINT32_MAX_BYTES
  {
    var v1 := v / 128;
    var v2 := v1 / 128;
    var v3 := v2 / 128;
    var v4 := v3 / 128;
    assert v4 < 128;
    assert |EncodeVarint(v4)| == 1;
    assert |EncodeVarint(v3)| <= 2;
    assert |EncodeVarint(v2)| <= 3;
    assert |EncodeVarint(v1)| <= 4;
  }

  /** GetVarint32Ptr: bits above the 32nd are lost. */
  function GetVarint32(data: Bytes, p: nat, limit: nat): (r: (bool, Word, nat))
    requires limit <= |data|
    ensures r.0 ==> p < r.2 <= limit
  {
    var d := DecodeVarint(data, p, limit, VARINT32_MAX_BYTES);
    (d.0, d.1 % 0x1_0000_0000, d.2)
  }

  /** Of a number of at most five bytes the low 32 bits are read. */
  lemma Varint32Cut(v: nat, data: Bytes, p: nat, limit: nat)
    requires HasAt(data, p, EncodeVarint(v)) && p + |EncodeVarint(v)| <= limit <= |data|
    ensures |EncodeVarint(v)| <= 5 ==> GetVarint32(data, p, limit) == (true, v % 0x1_0000_0000, p + |EncodeVarint(v)|)
    ensures |EncodeVarint(v)| > 5 ==> !GetVarint32(data, p, limit).0
  {
    if |EncodeVarint(v)| <= 5 {
      VarintRoundTrip(v, data, p, limit, 5);
    } else {
      TooLong(v, data, p, limit, 5);
    }
  }

  lemma {:induction false} TooLong(v: nat, data: Bytes, p: nat, limit: nat, n: nat)
    requires HasAt(data, p, EncodeVarint(v)) && p + |EncodeVarint(v)| <= limit <= |data| && |EncodeVarint(v)| > n
    ensures !DecodeVarint(data, p, limit, n).0
    decreases n
  {
    if n > 0 {
      FirstByte(data, p, EncodeVarint(v));
      HasParts(data, p, [128 + v % 128], EncodeVarint(v / 128));
      TooLong(v / 128, data, p + 1, limit, n - 1);
    }
  }

  lemma Varint32RoundTrip(v: Word, data: Bytes, p: nat, limit: nat)
    requires HasAt(data, p, EncodeVarint(v)) && p + |EncodeVarint(v)| <= limit <= |data|
    ensures GetVarint32(data, p, limit) == (true, v, p + |EncodeVarint(v)|)
  {
    VarintLength(v);
    VarintRoundTrip(v, data, p, limit, VARINT32_MAX_BYTES);
  }

  // ---- seven-bit groups ----

  function Power128(i: nat): (r: nat)
    ensures r > 0
  {
    if i == 0 then 1 else 128 * Power128(i - 1)
  }

  /** A seven-bit group in its place, the j-th. */
  function Shifted(b: nat, j: nat): nat {
    b * Power128(j)
  }

  lemma ShiftedAdds(b: nat, rest: nat, j: nat)
    ensures Shifted(rest, j + 1) == Shifted(128 * rest, j)
    ensures Shifted(b + 128 * rest, j) == Shifted(b, j) + Shifted(128 * rest, j)
    ensures Shifted(0, j + 1) == 0
  {
    var power := Power128(j);
    assert rest * (128 * power) == 128 * rest * power;
  }

  /** A number below 128^n takes at most n bytes. */
  lemma {:induction false} VarintFits(v: nat, n: nat)
    requires n > 0 && v < Power128(n)
    ensures |EncodeVarint(v)| <= n
    decreases n
  {
    if v >= 128 {
      VarintFits(v / 128, n - 1);
    }
  }

  /** 64-bit numbers take at most ten bytes. */
  lemma LongestVarint(v: nat)
    requires v < TWO64
    ensures |EncodeVarint(v)| <= 10
  {
    assert Power128(5) == 0x8_0000_0000;
    assert Power128(10) == 0x40_0000_0000_0000_0000;
    VarintFits(v, 10);
  }
}
