/** The bytes of a filter block (table/filter_block): filters, their offsets, and how to find the one of a data block. */
module FilterBlocks {
  import opened Bits
  import opened Coding
  import opened Blocks
  import opened Filters

  const FILTER_BASE_LG: byte := 11

  // ---- one filter ----

  /** Bit i of a filter is bit i % 8 of byte i / 8, the least significant being bit 0. */
  lemma {:induction false} BitOrder(bs: Bytes, i: nat)
    requires i < 8 * |bs|
    ensures UnpackBits(bs)[i] <==> bs[i / 8] as nat / Pow2(i % 8) % 2 == 1
  {
    if i < 8 {
      BitAt(bs[0], 8, i);
      hide Pow2, BitsOf;
      assert i / 8 == 0 && i % 8 == i;
    } else {
      BitOrder(bs[1..], i - 8);
      hide Pow2, BitsOf;
      assert UnpackBits(bs)[i] == UnpackBits(bs[1..])[i - 8];
      assert (i - 8) / 8 == i / 8 - 1 && (i - 8) % 8 == i % 8;
    }
  }

  lemma {:induction false} BitAt(n: nat, count: nat, i: nat)
    requires i < count
    ensures BitsOf(n, count)[i] <==> n / Pow2(i) % 2 == 1
  {
    if i > 0 {
      BitAt(n / 2, count - 1, i - 1);
      DivideTwice(n, 2, Pow2(i - 1));
    }
  }

  /** Bits as a number, least significant first. */
  function NumberOf(bits: seq<bool>): (n: nat)
    ensures n < Pow2(|bits|)
  {
    if bits == [] then 0 else 2 * NumberOf(bits[1..]) + if bits[0] then 1 else 0
  }

  /** The lowest bits of a number. */
  function BitsOf(n: nat, count: nat): (bits: seq<bool>)
    ensures |bits| == count
  {
    if count == 0 then [] else [n % 2 == 1] + BitsOf(n / 2, count - 1)
  }

  lemma {:induction false} NumberSurvives(bits: seq<bool>)
    ensures BitsOf(NumberOf(bits), |bits|) == bits
  {
    if bits != [] {
      NumberSurvives(bits[1..]);
      assert bits == [bits[0]] + bits[1..];
    }
  }

  function ByteOf(bits: seq<bool>): byte
    requires |bits| == 8
  {
    assert Pow2(8) == 256;
    NumberOf(bits)
  }

  function PackBits(bits: seq<bool>): (bs: Bytes)
    requires |bits| % 8 == 0
    ensures 8 * |bs| == |bits|
  {
    if bits == [] then [] else [ByteOf(bits[..8])] + PackBits(bits[8..])
  }

  function UnpackBits(bs: Bytes): (bits: seq<bool>)
    ensures |bits| == 8 * |bs|
  {
    if bs == [] then [] else BitsOf(bs[0], 8) + UnpackBits(bs[1..])
  }

  lemma {:induction false} BitsSurvive(bits: seq<bool>)
    requires |bits| % 8 == 0
    ensures UnpackBits(PackBits(bits)) == bits
  {
    hide NumberOf, BitsOf;
    if bits != [] {
      NumberSurvives(bits[..8]);
      BitsSurvive(bits[8..]);
      assert bits == bits[..8] + bits[8..];
    }
  }

  function FilterBytes(f: Filter): Bytes
    requires Made(f)
  {
    if f.bits == [] then [] else PackBits(f.bits) + [f.k]
  }

  /** How a filter's bytes are read; with fewer than two there are no bits. */
  function FilterOf(bs: Bytes): Filter {
    var n := |bs| - 1;
    if n < 1 then Filter([], 0) else Filter(UnpackBits(bs[..n]), bs[n])
  }

  lemma FilterSurvives(f: Filter)
    requires Made(f)
    ensures FilterOf(FilterBytes(f)) == f
  {
    if f.bits != [] {
      BitsSurvive(f.bits);
      var bs := PackBits(f.bits);
      assert (bs + [f.k as byte])[..|bs|] == bs;
    }
  }

  // ---- the block ----

  /** The filters one after the other. */
  function Joined(fs: seq<Filter>): Bytes
    requires AllMade(fs)
  {
    if fs == [] then [] else Joined(fs[..|fs| - 1]) + FilterBytes(fs[|fs| - 1])
  }

  function Offsets(fs: seq<Filter>): (offsets: seq<nat>)
    requires AllMade(fs)
    ensures |offsets| == |fs|
  {
    seq(|fs|, i requires 0 <= i < |fs| => |Joined(fs[..i])|)
  }

  lemma {:induction false} OffsetsGrow(fs: seq<Filter>, i: nat)
    requires AllMade(fs) && i <= |fs|
    ensures |Joined(fs[..i])| <= |Joined(fs)|
    ensures i < |fs| ==> HasAt(Joined(fs), |Joined(fs[..i])|, FilterBytes(fs[i])) && |Joined(fs[..i + 1])| == |Joined(fs[..i])| + |FilterBytes(fs[i])|
  {
    hide FilterBytes, Made;
    var n := |fs| - 1;
    if i == |fs| {
      assert fs[..i] == fs;
    } else if i == n {
      assert fs[..n + 1] == fs;
    } else {
      OffsetsGrow(fs[..n], i);
      assert fs[..n][..i] == fs[..i] && fs[..n][..i + 1] == fs[..i + 1];
    }
  }

  ghost predicate Small(fs: seq<Filter>)
    requires AllMade(fs)
  {
    |Joined(fs)| <= WORD_MAX
  }

  lemma SmallOffsets(fs: seq<Filter>)
    requires AllMade(fs) && Small(fs)
    ensures forall i :: 0 <= i < |fs| ==> Offsets(fs)[i] <= WORD_MAX
  {
    forall i | 0 <= i < |fs|
      ensures Offsets(fs)[i] <= WORD_MAX
    {
      OffsetsGrow(fs, i);
    }
  }

  /** FilterBlockBuilder::Finish: the filters, the array of their offsets, where that array starts, and the
      logarithm of the range of offsets that share a filter. */
  method FinishBlock(fs: seq<Filter>) returns (block: Bytes)
    requires AllMade(fs) && Small(fs)
    ensures IsBlock(block, fs)
  {
    hide FilterBytes, Made, EncodeFixed32;
    SmallOffsets(fs);
    var offsets;
    block, offsets := JoinFilters(fs);
    var arrayOffset := |block|;
    for i := 0 to |offsets|
      invariant block == Joined(fs) + EncodeAll(offsets[..i])
    {
      assert offsets[..i + 1][..i] == offsets[..i];
      block := block + EncodeFixed32(offsets[i]);
    }
    assert offsets[..|offsets|] == offsets;
    block := block + EncodeFixed32(arrayOffset) + [FILTER_BASE_LG];
  }

  /** The filters one after the other, and where each starts. */
  method JoinFilters(fs: seq<Filter>) returns (result: Bytes, offsets: seq<nat>)
    requires AllMade(fs)
    ensures result == Joined(fs) && offsets == Offsets(fs)
  {
    hide FilterBytes, Made;
    result, offsets := [], [];
    for i := 0 to |fs|
      invariant result == Joined(fs[..i]) && |offsets| == i
      invariant forall j :: 0 <= j < i ==> offsets[j] == Offsets(fs)[j]
    {
      assert fs[..i + 1][..i] == fs[..i];
      offsets := offsets + [|result|];
      result := result + FilterBytes(fs[i]);
    }
    assert fs[..|fs|] == fs;
  }

  ghost predicate IsBlock(block: Bytes, fs: seq<Filter>) {
    && AllMade(fs) && Small(fs) && (forall i :: 0 <= i < |fs| ==> Offsets(fs)[i] <= WORD_MAX)
    && block == Joined(fs) + EncodeAll(Offsets(fs)) + EncodeFixed32(|Joined(fs)|) + [FILTER_BASE_LG]
  }

  /** The word at p is v. */
  ghost predicate WordAt(block: Bytes, p: nat, v: nat)
    ensures WordAt(block, p, v) ==> p + 4 <= |block| && DecodeFixed32(block[p..p + 4]) == v
  {
    p + 4 <= |block| && DecodeFixed32(block[p..p + 4]) == v
  }

  lemma OffsetThere(block: Bytes, fs: seq<Filter>, i: nat)
    requires IsBlock(block, fs) && i <= |fs|
    ensures WordAt(block, |Joined(fs)| + 4 * i, |Joined(fs[..i])|)
  {
    hide EncodeFixed32, DecodeFixed32, FilterBytes, Made;
    var joined, offsets, end := Joined(fs), Offsets(fs), [FILTER_BASE_LG];
    var words, last := EncodeAll(offsets), EncodeFixed32(|joined|);
    assert block == joined + words + (last + end);
    if i < |fs| {
      FixedAt(offsets, i);
      Inside(joined, words, last + end, 4 * i, 4);
    } else {
      assert fs[..i] == fs;
      assert block == (joined + words) + last + end;
      Inside(joined + words, last, end, 0, 4);
    }
  }

  lemma FilterAt(block: Bytes, fs: seq<Filter>, i: nat)
    requires IsBlock(block, fs) && i < |fs|
    ensures |Joined(fs[..i])| <= |Joined(fs[..i + 1])| <= |Joined(fs)| <= |block|
    ensures block[|Joined(fs[..i])|..|Joined(fs[..i + 1])|] == FilterBytes(fs[i])
  {
    hide EncodeFixed32, FilterBytes, Made, EncodeAll;
    OffsetsGrow(fs, i);
    OffsetsGrow(fs, i + 1);
    var from, to := |Joined(fs[..i])|, |Joined(fs[..i + 1])|;
    assert block[from..to] == Joined(fs)[from..to];
  }

  lemma EndThere(block: Bytes, fs: seq<Filter>)
    requires IsBlock(block, fs)
    ensures |block| == |Joined(fs)| + 4 * |fs| + 5 && block[|block| - 1] == FILTER_BASE_LG && AllMade(fs)
    ensures WordAt(block, |block| - 5, |Joined(fs)|)
  {
    hide EncodeFixed32, DecodeFixed32, EncodeAll, Joined;
    assert block[|block| - 5..|block| - 5 + 4] == EncodeFixed32(|Joined(fs)|);
  }

  /** FilterBlockReader: anything malformed rules nothing out. */
  method MayMatch(hash: Hash, block: Bytes, offset: nat, key: Bytes, ghost fs: seq<Filter>) returns (may: bool)
    requires IsBlock(block, fs)
    ensures may <==> MayHold(hash, fs, offset, key)
  {
    hide IsBlock, Joined, MayHold, Matches, WordAt, DecodeFixed32, FilterBytes, FilterOf, Made, Pow2;
    var n := |block|;
    EndThere(block, fs);
    if n < 5 {
      return true;
    }
    var baseLg := block[n - 1];
    var arrayOffset := DecodeFixed32(block[n - 5..n - 1]);
    if arrayOffset > n - 5 {
      return true;
    }
    var num := (n - 5 - arrayOffset) / 4;
    var index := offset / Pow2(baseLg);
    Base();
    Held(hash, fs, offset, key);
    if index >= num {
      return true;
    }
    OffsetThere(block, fs, index);
    OffsetThere(block, fs, index + 1);
    FilterAt(block, fs, index);
    var start := DecodeFixed32(block[arrayOffset + 4 * index..arrayOffset + 4 * index + 4]);
    var limit := DecodeFixed32(block[arrayOffset + 4 * index + 4..arrayOffset + 4 * index + 8]);
    if start <= limit <= arrayOffset {
      FilterThere(fs, index);
      may := KeyMayMatch(hash, key, FilterOf(block[start..limit]));
    } else if start == limit {
      may := false;
    } else {
      may := true;
    }
  }

  lemma Base()
    ensures Pow2(FILTER_BASE_LG) == FILTER_BASE
  {
    assert Pow2(5) == 32;
    assert Pow2(8) == 256;
    assert Pow2(11) == 2048;
  }

  lemma Held(hash: Hash, fs: seq<Filter>, offset: nat, key: Bytes)
    ensures MayHold(hash, fs, offset, key) <==> (offset / FILTER_BASE < |fs| ==> Matches(hash, fs[offset / FILTER_BASE], key))
  {
  }

  lemma FilterThere(fs: seq<Filter>, i: nat)
    requires AllMade(fs) && i < |fs|
    ensures FilterOf(FilterBytes(fs[i])) == fs[i]
  {
    FilterSurvives(fs[i]);
  }
}
