/** Reading varints (pb_decode_varint and pb_decode_varint32), and exactly which numbers the 32-bit
    reader accepts. */
module ProtoVarints {
  import opened Options
  import opened Bits
  import opened Coding

  function Cut32(n: nat): (r: nat)
    ensures r < TWO32 && (n < TWO32 ==> r == n)
  {
    n % TWO32
  }

  function Cut64(n: nat): (r: nat)
    ensures r < TWO64 && (n < TWO64 ==> r == n)
  {
    n % TWO64
  }

  /** pb_decode_varint: at most ten bytes, what exceeds 64 bits is lost. */
  function ParseVarint(data: seq<byte>, p: nat, limit: nat): (r: Option<(nat, nat)>)
    requires limit <= |data|
    ensures r.Some? ==> r.value.0 < TWO64 && p < r.value.1 <= limit
  {
    var d := DecodeVarint(data, p, limit, 10);
    if d.0 then Some((Cut64(d.1), d.2)) else None
  }

  // ---- bits ----

  /** `result |= (uint32_t)b << bitpos` */
  function OrInto(result: nat, b: nat, bitpos: nat): (r: nat)
    requires result < TWO32
    ensures r < TWO32
  {
    WordBits();
    Or(result, Cut32(b * Pow2(bitpos)), 32)
  }

  lemma {:induction false} GroupPower(j: nat)
    ensures Pow2(7 * j) == Power128(j)
  {
    if j > 0 {
      GroupPower(j - 1);
      var k := 7 * (j - 1);
      assert Pow2(k + 7) == 128 * Pow2(k) by {
        assert Pow2(k + 1) == 2 * Pow2(k);
        assert Pow2(k + 2) == 2 * Pow2(k + 1);
        assert Pow2(k + 3) == 2 * Pow2(k + 2);
        assert Pow2(k + 4) == 2 * Pow2(k + 3);
        assert Pow2(k + 5) == 2 * Pow2(k + 4);
        assert Pow2(k + 6) == 2 * Pow2(k + 5);
        assert Pow2(k + 7) == 2 * Pow2(k + 6);
      }
    }
  }

  lemma WordBits()
    ensures Pow2(32) == TWO32
  {
    SmallPowers();
    GroupPower(4);
    assert Pow2(28) == 0x1000_0000;
    assert Pow2(29) == 2 * Pow2(28);
    assert Pow2(30) == 2 * Pow2(29);
    assert Pow2(31) == 2 * Pow2(30);
    assert Pow2(32) == 2 * Pow2(31);
  }

  // ---- pb_decode_varint32 ----

  /** The shift of the j-th byte: an eight-bit counter. */
  function BitPosition(j: nat): nat {
    7 * j % 256
  }

  /** The seven bits of a byte. */
  function Payload(b: byte): (r: nat)
    ensures r < 128
  {
    if b < 128 then b else b as nat - 128
  }

  /** Bytes above 32 bits may only extend the sign. */
  predicate Passes(b: byte, bitpos: nat, result: nat) {
    bitpos < 32 || Payload(b) == 0 || (result >= TWO32 / 2 && b == if bitpos < 63 then 0xff else 0x01)
  }

  function WithByte(b: byte, bitpos: nat, result: nat): (r: nat)
    requires result < TWO32
    ensures r < TWO32
  {
    if bitpos >= 32 then result else OrInto(result, Payload(b), bitpos)
  }

  /** From the j-th byte on, with `result` read so far. */
  function ParseVarint32From(data: seq<byte>, p: nat, limit: nat, j: nat, result: nat): (r: Option<(nat, nat)>)
    requires limit <= |data| && result < TWO32
    ensures r.Some? ==> r.value.0 < TWO32 && p < r.value.1 <= limit
    decreases limit - p
  {
    if p >= limit || !Passes(data[p], BitPosition(j), result) then None
    else
      var next := WithByte(data[p], BitPosition(j), result);
      if data[p] >= 128 then ParseVarint32From(data, p + 1, limit, j + 1, next)
      else if BitPosition(j + 1) == 35 && data[p] >= 16 then None
      else Some((next, p + 1))
  }

  function ParseVarint32(data: seq<byte>, p: nat, limit: nat): (r: Option<(nat, nat)>)
    requires limit <= |data|
    ensures r.Some? ==> r.value.0 < TWO32 && p < r.value.1 <= limit
  {
    ParseVarint32From(data, p, limit, 0, 0)
  }

  lemma SmallPowers()
    ensures Power128(0) == 1 && Power128(1) == 0x80 && Power128(2) == 0x4000
    ensures Power128(3) == 0x20_0000 && Power128(4) == 0x1000_0000 && Power128(5) == 8 * TWO32
  {
    assert Power128(1) == 128 * Power128(0);
    assert Power128(2) == 128 * Power128(1);
    assert Power128(3) == 128 * Power128(2);
    assert Power128(4) == 128 * Power128(3);
    assert Power128(5) == 128 * Power128(4);
  }

  lemma LowPosition(j: nat)
    requires j < 5
    ensures BitPosition(j) == 7 * j < 32 && (BitPosition(j + 1) == 35 <==> j == 4)
  {
  }

  /** The first five groups are added, and cut to 32 bits. */
  lemma LowGroup(b: byte, j: nat, result: nat)
    requires j < 5 && result < Power128(j) && result < TWO32
    ensures BitPosition(j) < 32 && WithByte(b, BitPosition(j), result) == Cut32(result + Shifted(Payload(b), j))
    ensures j < 4 ==> result + Shifted(Payload(b), j) < Power128(j + 1) < TWO32
    ensures j == 4 && b < 128 ==> (result + Shifted(b, j) < TWO32 <==> b < 16)
  {
    var group := Payload(b);
    assert b < 128 ==> group == b;
    LowPosition(j);
    GroupFits(group, j, result);
    hide OrInto, Power128, Cut32, BitPosition, Payload;
    LowOr(group, j, result);
  }

  lemma LowOr(group: nat, j: nat, result: nat)
    requires j < 5 && group < 128 && result < Power128(j) && result < TWO32
    ensures OrInto(result, group, 7 * j) == Cut32(result + group * Power128(j))
  {
    var power, kept := Power128(j), if j < 4 then group else group % 16;
    KeptBits(group, j, result);
    GroupPower(j);
    WordBits();
    hide Or, Pow2, Power128, Cut32;
    assert kept * Pow2(7 * j) == kept * power && group * Pow2(7 * j) == group * power;
    OrOfApart(result, kept, 7 * j, 32);
  }

  lemma GroupFits(group: nat, j: nat, result: nat)
    requires j < 5 && group < 128 && result < Power128(j)
    ensures j < 4 ==> result + group * Power128(j) < Power128(j + 1) < TWO32
    ensures j == 4 ==> (result + group * Power128(j) < TWO32 <==> group < 16)
  {
    SmallPowers();
  }

  /** Of the fifth group four bits are kept. */
  lemma KeptBits(group: nat, j: nat, result: nat)
    requires j < 5 && group < 128 && result < Power128(j)
    ensures var kept := if j < 4 then group else group % 16;
      && kept * Power128(j) + result < TWO32 && Cut32(group * Power128(j)) == kept * Power128(j)
      && Cut32(result + group * Power128(j)) == result + kept * Power128(j)
  {
    SmallPowers();
    if j == 4 {
      var power, kept := Power128(4), group % 16;
      assert group * power == kept * power + group / 16 * TWO32;
      hide Power128;
      AddMultiple(kept * power, group / 16);
      AddMultiple(result + kept * power, group / 16);
    }
  }

  // ---- which numbers the 32-bit reader accepts ----

  /** The bytes from p to q are a whole number, v. */
  ghost predicate Number(data: seq<byte>, p: nat, q: nat, limit: nat, v: nat) {
    p < q <= limit <= |data| && DecodeVarint(data, p, limit, q - p) == (true, v, q)
  }

  /** The number without its first byte. */
  function Rest(data: seq<byte>, p: nat, q: nat, limit: nat): nat
    requires p < q <= limit <= |data|
  {
    DecodeVarint(data, p + 1, limit, q - p - 1).1
  }

  lemma NumberSplits(data: seq<byte>, p: nat, q: nat, limit: nat, v: nat)
    requires Number(data, p, q, limit, v)
    ensures data[p] < 128 ==> q == p + 1 && v == data[p]
    ensures data[p] >= 128 ==> var rest := Rest(data, p, q, limit); Number(data, p + 1, q, limit, rest) && v == Payload(data[p]) + 128 * rest
  {
  }

  /** The byte with index j of a number is zero, but for its mark, or extends the sign of `low`. */
  predicate Extends(b: byte, j: nat, low: nat) {
    Payload(b) == 0 || (low >= TWO32 / 2 && b == if j < 9 then 0xff else 0x01)
  }

  /** All bytes from s to q do, when the one at s has index j. */
  predicate AllExtend(data: seq<byte>, s: nat, q: nat, j: nat, low: nat)
    requires q <= |data|
  {
    forall i :: s <= i < q ==> Extends(data[i], j + (i - s), low)
  }

  /** From the 38th byte on, where the shift wraps around, there is nothing but padding. */
  predicate PaddedFrom38(data: seq<byte>, p: nat, q: nat)
    requires q <= |data|
  {
    forall i :: p + 37 <= i < q ==> Payload(data[i]) == 0
  }

  /** One byte from the sixth on. */
  lemma HighByte(b: byte, j: nat, low: nat)
    requires j >= 5 && low < TWO32 && (j >= 37 ==> Payload(b) == 0)
    ensures Passes(b, BitPosition(j), low) <==> Extends(b, j, low)
    ensures WithByte(b, BitPosition(j), low) == low
    ensures BitPosition(j + 1) == 35 && b < 128 ==> b < 16
  {
    if j < 37 {
      HighPosition(j);
    } else {
      hide BitPosition;
      Padding(BitPosition(j), low);
    }
  }

  lemma HighPosition(j: nat)
    requires 5 <= j < 37
    ensures BitPosition(j) >= 32 && (BitPosition(j) < 63 <==> j < 9) && BitPosition(j + 1) != 35
  {
  }

  lemma Padding(bitpos: nat, low: nat)
    requires low < TWO32
    ensures OrInto(low, 0, bitpos) == low
  {
    WordBits();
    OrWithZero(low, 32);
    assert 0 * Pow2(bitpos) == 0;
  }

  lemma {:induction false} HighBytes(data: seq<byte>, s: nat, q: nat, limit: nat, j: nat, low: nat, v: nat)
    requires Number(data, s, q, limit, v) && j >= 5 && low < TWO32
    requires forall i :: s <= i < q && j + (i - s) >= 37 ==> Payload(data[i]) == 0
    ensures ParseVarint32From(data, s, limit, j, low) == if AllExtend(data, s, q, j, low) then Some((low, q)) else None
    decreases q - s
  {
    hide BitPosition, Passes, WithByte, Extends;
    HighByte(data[s], j, low);
    NumberSplits(data, s, q, limit, v);
    ExtendStep(data, s, q, j, low);
    if data[s] >= 128 && Passes(data[s], BitPosition(j), low) {
      HighBytes(data, s + 1, q, limit, j + 1, low, Rest(data, s, q, limit));
    }
  }

  lemma ExtendStep(data: seq<byte>, s: nat, q: nat, j: nat, low: nat)
    requires s < q <= |data|
    ensures AllExtend(data, s, q, j, low) <==> Extends(data[s], j, low) && AllExtend(data, s + 1, q, j + 1, low)
  {
    hide Extends;
  }

  /** What the reader makes of a number of which it has read j bytes, giving `result`; `total` is the
      whole number. */
  ghost predicate ReadExactly(data: seq<byte>, p: nat, q: nat, limit: nat, j: nat, result: nat, total: nat)
    requires p < q <= limit <= |data| && result < TWO32 && j < 5
  {
    ParseVarint32From(data, p, limit, j, result) ==
      if (if q - p + j <= 5 then total < TWO32 else AllExtend(data, p + 5 - j, q, 5, Cut32(total)))
      then Some((Cut32(total), q)) else None
  }

  lemma {:induction false} LowBytes(data: seq<byte>, p: nat, q: nat, limit: nat, j: nat, result: nat, v: nat)
    requires Number(data, p, q, limit, v) && j < 5 && result < Power128(j) && result < TWO32
    requires forall i :: p <= i < q && j + (i - p) >= 37 ==> Payload(data[i]) == 0
    ensures ReadExactly(data, p, q, limit, j, result, result + Shifted(v, j))
    decreases q - p
  {
    hide BitPosition, Passes, WithByte, Extends, Cut32, Shifted, Power128, AllExtend;
    LowGroup(data[p], j, result);
    LowPasses(data[p], j, result);
    NumberSplits(data, p, q, limit, v);
    var group, rest := Payload(data[p]), if data[p] < 128 then 0 else Rest(data, p, q, limit);
    ShiftedAdds(group, rest, j);
    assert v == group + 128 * rest;
    if data[p] >= 128 {
      if j < 4 {
        LowBytes(data, p + 1, q, limit, j + 1, result + Shifted(group, j), rest);
      } else {
        var low := Cut32(result + Shifted(group, j));
        HighBytes(data, p + 1, q, limit, 5, low, rest);
        HighRest(result + Shifted(group, j), rest);
      }
    }
  }

  lemma LowPasses(b: byte, j: nat, result: nat)
    requires j < 5
    ensures Passes(b, BitPosition(j), result) && (BitPosition(j + 1) == 35 <==> j == 4)
  {
    LowPosition(j);
  }

  /** What comes after five groups does not show in 32 bits. */
  lemma HighRest(low: nat, rest: nat)
    ensures Cut32(low + Shifted(rest, 5)) == Cut32(low)
  {
    SmallPowers();
    assert low + Shifted(rest, 5) == low + (8 * rest) * TWO32;
    AddMultiple(low, 8 * rest);
  }

  lemma AddMultiple(r: nat, c: nat)
    ensures Cut32(r + c * TWO32) == Cut32(r)
  {
  }

  /** A group adds its value, in its place. */
  lemma {:induction false} GroupWithin(data: seq<byte>, p: nat, q: nat, limit: nat, v: nat, i: nat)
    requires Number(data, p, q, limit, v) && p <= i < q
    ensures Shifted(Payload(data[i]), i - p) <= v
    decreases q - p
  {
    NumberSplits(data, p, q, limit, v);
    var group := Payload(data[i]);
    if i == p {
      assert Power128(0) == 1;
    } else {
      var rest := Rest(data, p, q, limit);
      GroupWithin(data, p + 1, q, limit, rest, i);
      assert Shifted(group, i - p) == 128 * Shifted(group, i - p - 1) by {
        ShiftedAdds(0, group, i - p - 1);
        assert 128 * group * Power128(i - p - 1) == 128 * (group * Power128(i - p - 1));
      }
    }
  }

  /** A number of 32 bits is padding from the sixth byte on. */
  lemma SmallNumber(data: seq<byte>, p: nat, q: nat, limit: nat, v: nat)
    requires Number(data, p, q, limit, v) && v < TWO32
    ensures forall i :: p + 5 <= i < q ==> Payload(data[i]) == 0
  {
    forall i | p + 5 <= i < q
      ensures Payload(data[i]) == 0
    {
      GroupWithin(data, p, q, limit, v, i);
      SmallPowers();
      PowersGrow(5, i - p);
      AtLeastPower(Payload(data[i]), i - p);
    }
  }

  lemma AtLeastPower(group: nat, j: nat)
    ensures group == 0 || Shifted(group, j) >= Power128(j)
  {
  }

  lemma {:induction false} PowersGrow(i: nat, j: nat)
    requires i <= j
    ensures Power128(i) <= Power128(j)
  {
    if i < j {
      PowersGrow(i, j - 1);
    }
  }

  /** The 32-bit reader gives a number back if and only if it has no more than 32 bits, whatever its padding. */
  lemma Varint32Right(data: seq<byte>, p: nat, q: nat, limit: nat, v: nat)
    requires Number(data, p, q, limit, v)
    ensures ParseVarint32(data, p, limit) == Some((v, q)) <==> v < TWO32
  {
    if v < TWO32 {
      SmallNumber(data, p, q, limit, v);
      Varint32Accepted(data, p, q, limit, v);
      assert forall i :: p + 5 <= i < q ==> Extends(data[i], 5 + (i - (p + 5)), Cut32(v));
    }
  }

  /** A number with nothing but padding from its 38th byte on is accepted if and only if it has no more than
      32 bits, or its bytes from the sixth on only extend the sign of the low 32 bits; these are the result. */
  lemma Varint32Accepted(data: seq<byte>, p: nat, q: nat, limit: nat, v: nat)
    requires Number(data, p, q, limit, v) && PaddedFrom38(data, p, q)
    ensures ParseVarint32(data, p, limit) ==
        if (if q - p <= 5 then v < TWO32 else AllExtend(data, p + 5, q, 5, Cut32(v))) then Some((Cut32(v), q)) else None
  {
    SmallPowers();
    LowBytes(data, p, q, limit, 0, 0, v);
    assert Shifted(v, 0) == v;
  }

  /** So it gives a wrong number if and only if one of more than 32 bits takes six bytes or more, and those from
      the sixth on are padding or extend the sign. */
  lemma Varint32Wrong(data: seq<byte>, p: nat, q: nat, limit: nat, v: nat)
    requires Number(data, p, q, limit, v) && PaddedFrom38(data, p, q)
    ensures (exists w, q' :: ParseVarint32(data, p, limit) == Some((w, q')) && w != v) <==>
        v >= TWO32 && q - p >= 6 && AllExtend(data, p + 5, q, 5, Cut32(v))
  {
    Varint32Accepted(data, p, q, limit, v);
    Varint32Right(data, p, q, limit, v);
    var r := ParseVarint32(data, p, limit);
    if v >= TWO32 && r.Some? {
      assert r == Some((r.value.0, r.value.1)) && r.value.0 != v;
    }
  }

  // ---- numbers of any length ----

  /** The bytes from p to s, each at its position, or-ed together. */
  function Folded(data: seq<byte>, p: nat, s: nat): (r: nat)
    requires p <= s <= |data|
    ensures r < TWO32
    decreases s
  {
    if s == p then 0 else WithByte(data[s - 1], BitPosition(s - 1 - p), Folded(data, p, s - 1))
  }

  predicate AllPass(data: seq<byte>, p: nat, s: nat, q: nat)
    requires p <= s && q <= |data|
  {
    forall i :: s <= i < q ==> Passes(data[i], BitPosition(i - p), Folded(data, p, i))
  }

  /** A number of any length is accepted if and only if each of its bytes passes at its position, and the last one
      has no high bits when the shift stands at 35; the result is what the positions make of it. */
  lemma Varint32Exactly(data: seq<byte>, p: nat, q: nat, limit: nat, v: nat)
    requires Number(data, p, q, limit, v)
    ensures ParseVarint32(data, p, limit) ==
        if AllPass(data, p, p, q) && !(BitPosition(q - p) == 35 && data[q - 1] >= 16) then Some((Folded(data, p, q), q)) else None
  {
    FromExactly(data, p, p, q, limit, v);
  }

  lemma {:induction false} FromExactly(data: seq<byte>, p: nat, s: nat, q: nat, limit: nat, v: nat)
    requires p <= s && Number(data, s, q, limit, v)
    ensures ParseVarint32From(data, s, limit, s - p, Folded(data, p, s)) ==
        if AllPass(data, p, s, q) && !(BitPosition(q - p) == 35 && data[q - 1] >= 16) then Some((Folded(data, p, q), q)) else None
    decreases q - s
  {
    hide BitPosition, Passes, WithByte;
    NumberSplits(data, s, q, limit, v);
    if data[s] >= 128 && Passes(data[s], BitPosition(s - p), Folded(data, p, s)) {
      FromExactly(data, p, s + 1, q, limit, Rest(data, s, q, limit));
      assert AllPass(data, p, s, q) <==> AllPass(data, p, s + 1, q);
    }
  }

  /** Whatever its length, a number is given back wrong if and only if it has more than 32 bits and is accepted. */
  lemma WrongAtAnyLength(data: seq<byte>, p: nat, q: nat, limit: nat, v: nat)
    requires Number(data, p, q, limit, v)
    ensures (exists w, q' :: ParseVarint32(data, p, limit) == Some((w, q')) && w != v) <==>
        v >= TWO32 && AllPass(data, p, p, q) && !(BitPosition(q - p) == 35 && data[q - 1] >= 16)
  {
    Varint32Exactly(data, p, q, limit, v);
    Varint32Right(data, p, q, limit, v);
    hide AllPass, BitPosition, Folded;
    var r := ParseVarint32(data, p, limit);
    if v >= TWO32 && r.Some? {
      assert r == Some((r.value.0, r.value.1)) && r.value.0 != v;
    }
  }

  /** What it accepts is a whole number. */
  lemma {:induction false} AcceptedIsNumber(data: seq<byte>, p: nat, limit: nat, j: nat, result: nat) returns (v: nat)
    requires limit <= |data| && result < TWO32 && ParseVarint32From(data, p, limit, j, result).Some?
    ensures Number(data, p, ParseVarint32From(data, p, limit, j, result).value.1, limit, v)
    decreases limit - p
  {
    hide BitPosition, Passes, WithByte;
    if data[p] < 128 {
      v := data[p];
    } else {
      var rest := AcceptedIsNumber(data, p + 1, limit, j + 1, WithByte(data[p], BitPosition(j), result));
      v := data[p] as nat - 128 + 128 * rest;
    }
  }

  // ---- instances ----

  /** 2^32, padded to six bytes, is read as 0; in five bytes it is refused. */
  lemma PaddedNumberLosesBits(padded: seq<byte>, short: seq<byte>)
    requires padded == [0x80, 0x80, 0x80, 0x80, 0x90, 0x00] && short == [0x80, 0x80, 0x80, 0x80, 0x10]
    ensures ParseVarint(padded, 0, |padded|) == Some((TWO32, |padded|)) && ParseVarint32(padded, 0, |padded|) == Some((0, |padded|))
    ensures ParseVarint32(short, 0, |short|) == None
  {
    hide ParseVarint32, DecodeVarint, Number;
    FourMarks(padded, |padded|);
    FourMarks(short, |short|);
    Varint32Accepted(padded, 0, |padded|, |padded|, TWO32);
    Varint32Accepted(short, 0, |short|, |short|, TWO32);
  }

  /** Four marked bytes without payload, and then 16. */
  lemma FourMarks(data: seq<byte>, end: nat)
    requires |data| == end > 4 && (forall i :: 0 <= i < 4 ==> data[i] == 0x80)
    requires data[4..] == [0x10] || data[4..] == [0x90, 0x00]
    ensures Number(data, 0, end, end, TWO32) && DecodeVarint(data, 0, end, 10) == (true, TWO32, end)
  {
    RestAt(data, end, end - 4);
    RestAt(data, end, 6);
    MarksBefore(data, end, end);
    MarksBefore(data, end, 10);
  }

  lemma RestAt(data: seq<byte>, end: nat, n: nat)
    requires |data| == end > 4 && n >= end - 4 && (data[4..] == [0x10] || data[4..] == [0x90, 0x00])
    ensures DecodeVarint(data, 4, end, n) == (true, 16, end)
  {
    assert data[4] == data[4..][0];
    if end == 6 {
      assert data[5] == data[4..][1];
    }
  }

  lemma MarksBefore(data: seq<byte>, end: nat, n: nat)
    requires |data| == end > 4 && n >= 4 && (forall i :: 0 <= i < 4 ==> data[i] == 0x80)
    requires DecodeVarint(data, 4, end, n - 4) == (true, 16, end)
    ensures DecodeVarint(data, 0, end, n) == (true, TWO32, end)
  {
    assert DecodeVarint(data, 3, end, n - 3) == (true, 0x800, end);
    assert DecodeVarint(data, 2, end, n - 2) == (true, 0x4_0000, end);
    assert DecodeVarint(data, 1, end, n - 1) == (true, 0x200_0000, end);
  }

  /** With the 38th byte the shift has wrapped around to 3: 2^259 is read as 8. */
  lemma WrappedNumber(data: seq<byte>, last: nat)
    requires last == 37 && |data| == last + 1 && (forall i :: 0 <= i < last ==> data[i] == 0x80) && data[last] == 0x01
    ensures ParseVarint32(data, 0, |data|) == Some((8, |data|))
  {
    EightOnly();
    assert BitPosition(last) == 3 && BitPosition(last + 1) != 35 && Payload(data[last]) == 1;
    hide OrInto, BitPosition, Payload;
    assert WithByte(data[last], BitPosition(last), 0) == 8;
    PaddingRead(data, 0, last);
  }

  lemma EightOnly()
    ensures OrInto(0, 1, 3) == 8
  {
    assert Pow2(3) == 8;
    WordBits();
    hide Or, Pow2;
    OrWithZero(8, 32);
  }

  /** Padding is passed over. */
  lemma {:induction false} PaddingRead(data: seq<byte>, p: nat, last: nat)
    requires p <= last < |data| && forall i :: p <= i < last ==> data[i] == 0x80
    ensures ParseVarint32From(data, p, |data|, p, 0) == ParseVarint32From(data, last, |data|, last, 0)
    decreases last - p
  {
    hide BitPosition;
    if p < last {
      Padding(BitPosition(p), 0);
      PaddingRead(data, p + 1, last);
    }
  }
}
