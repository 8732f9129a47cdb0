/** The bytes of a block in numbers (table/block_builder, table/block). */
module BlockBytes {
  import opened Options
  import opened Coding
  import opened Blocks
  import opened BlockIteration

  /** An entry: how many bytes of its key it shares with the key before it, how many more follow, how many bytes its
      value has, and then those bytes. */
  lemma EntryLeads(shared: nat, e: Pair)
    requires shared <= |e.key|
    ensures exists a, b :: Leads(EncodeEntry(shared, e), shared, a) && Leads(a, |e.key| - shared, b) && Leads(b, |e.value|, e.key[shared..] + e.value)
  {
    hide Leads, EncodeVarint;
    var c := e.key[shared..] + e.value;
    var b := EncodeVarint(|e.value|) + c;
    var a := EncodeVarint(|e.key| - shared) + b;
    assert EncodeEntry(shared, e) == EncodeVarint(shared) + a;
    LeadsOn(|e.value|, c);
    LeadsOn(|e.key| - shared, b);
    LeadsOn(shared, a);
  }

  /** The short cut for three one-byte lengths reads what the general way reads. */
  lemma ShortCutAgrees(data: Bytes, p: nat, limit: nat)
    requires p + 3 <= limit <= |data|
    ensures var a := GetVarint32(data, p, limit);
      var b := GetVarint32(data, a.2, limit);
      var c := GetVarint32(data, b.2, limit);
      DecodeHeader(data, p, limit) == if a.0 && b.0 && c.0 then Some(Decoded(a.1, b.1, c.1, c.2)) else None
  {
    if data[p] < 128 && data[p + 1] < 128 && data[p + 2] < 128 {
      assert GetVarint32(data, p, limit) == (true, data[p] as Word, p + 1);
      assert GetVarint32(data, p + 1, limit) == (true, data[p + 1] as Word, p + 2);
      assert GetVarint32(data, p + 2, limit) == (true, data[p + 2] as Word, p + 3);
    }
  }

  /** A key's entry shares the whole common prefix, except at restart points, which come every so many entries. */
  lemma SharesAll(es: seq<Pair>, i: nat, interval: nat)
    requires i < |es| && interval >= 1
    ensures i % interval == 0 ==> SharedAt(es, i, interval) == 0
    ensures i % interval != 0 ==>
      var s, a, b := SharedAt(es, i, interval), es[i - 1].key, es[i].key;
      s <= |a| && s <= |b| && a[..s] == b[..s] && (s < |a| && s < |b| ==> a[s] != b[s])
  {
    if i % interval != 0 {
      CommonPrefix(es[i - 1].key, es[i].key);
    }
  }

  lemma {:induction false} CommonPrefix(a: Bytes, b: Bytes)
    ensures var s := Common(a, b); a[..s] == b[..s] && (s < |a| && s < |b| ==> a[s] != b[s])
  {
    if a != [] && b != [] && a[0] == b[0] {
      CommonPrefix(a[1..], b[1..]);
      var s := Common(a, b);
      assert a[..s] == [a[0]] + a[1..][..s - 1] && b[..s] == [b[0]] + b[1..][..s - 1];
    }
  }

  const AB := Pair([0x61, 0x62], [0x31])
  const AC := Pair([0x61, 0x63], [0x32])

  /** The block that maps "ab" to "1" and "ac" to "2", byte for byte. */
  lemma ExampleBlock(block: Bytes)
    requires Finished(block, [AB, AC], [0, 1], [0, 6, 11], [0], [0])
    ensures block == [0, 2, 1, 0x61, 0x62, 0x31,
                      1, 1, 1, 0x63, 0x32,
                      0, 0, 0, 0,
                      1, 0, 0, 0]
  {
    var es: seq<Pair>, shared: seq<nat>, offsets: seq<nat> := [AB, AC], [0, 1], [0, 6, 11];
    assert EntryAt(block, es, shared, offsets, 0) && EntryAt(block, es, shared, offsets, 1);
    assert EncodeEntry(0, AB) == [0, 2, 1, 0x61, 0x62, 0x31];
    assert EncodeEntry(1, AC) == [1, 1, 1, 0x63, 0x32];
    assert HasAt(block, 11, EncodeFixed32(0)) && HasAt(block, 15, EncodeFixed32(1));
    assert block == block[..6] + block[6..11] + block[11..15] + block[15..];
  }
}
