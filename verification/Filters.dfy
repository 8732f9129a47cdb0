/** Bloom filters (util/bloom) and the filter block that keeps one for every 2 KB of a
    table file (table/filter_block): a key that was added is never ruled out. */
module Filters {
  import opened Coding

  /** The hash of a key; nothing is assumed about it. */
  type Hash = Bytes -> Word

  const FILTER_BASE: nat := 2048

  /** The bits of a filter and its number of probes; no bits at all is the empty filter. */
  datatype Filter = Filter(bits: seq<bool>, k: nat)

  /** Rotate right by 17 bits. */
  function Delta(h: Word): Word {
    h / 0x2_0000 + h % 0x2_0000 * 0x8000
  }

  /** The j-th probe's hash. */
  function Probe(h: Word, j: nat): Word {
    if j == 0 then h else (Probe(h, j - 1) + Delta(h)) % 0x1_0000_0000
  }

  ghost predicate Matches(hash: Hash, f: Filter, key: Bytes) {
    |f.bits| >= 8 && (f.k > 30 || forall j :: 0 <= j < f.k ==> f.bits[Probe(hash(key), j) % |f.bits|])
  }

  /** One of a key's k probes falls on bit b of n. */
  ghost predicate ProbedBy(h: Word, n: nat, k: nat, b: nat) {
    n > 0 && exists j :: 0 <= j < k && b == Probe(h, j) % n
  }

  ghost predicate Probed(hash: Hash, keys: seq<Bytes>, n: nat, k: nat, b: nat) {
    exists i :: 0 <= i < |keys| && ProbedBy(hash(keys[i]), n, k, b)
  }

  /** Probes per key for a given number of bits per key, already multiplied by 0.69. */
  function Probes(k: nat): nat {
    if k < 1 then 1 else if k > 30 then 30 else k
  }

  /** The bits of one key, by double hashing. */
  method SetProbes(bits: seq<bool>, start: Word, k: nat) returns (r: seq<bool>)
    requires bits != []
    ensures |r| == |bits|
    ensures forall b :: 0 <= b < |r| ==> (r[b] <==> bits[b] || ProbedBy(start, |r|, k, b))
  {
    r := bits;
    var h := start;
    var delta := Delta(start);
    for j := 0 to k
      invariant |r| == |bits| && h == Probe(start, j)
      invariant forall b :: 0 <= b < |r| ==> (r[b] <==> bits[b] || ProbedBy(start, |r|, j, b))
    {
      var bitpos := h % |r|;
      OneMoreProbe(start, |r|, j);
      r := r[bitpos := true];
      h := (h + delta) % 0x1_0000_0000;
    }
  }

  lemma OneMoreProbe(start: Word, n: nat, j: nat)
    requires n > 0
    ensures forall b :: ProbedBy(start, n, j + 1, b) <==> ProbedBy(start, n, j, b) || b == Probe(start, j) % n
  {
  }

  /** The probes of a key are equally far apart: by its hash, rotated right by 17 bits. */
  lemma ProbeIs(h: Word, j: nat)
    ensures Probe(h, j) == (h + j * (h / 131072 + h % 131072 * 32768)) % 0x1_0000_0000
  {
    ProbesApart(h, j);
    hide Probe;
  }

  lemma {:induction false} ProbesApart(h: Word, j: nat)
    ensures Probe(h, j) == (h + j * Delta(h)) % 0x1_0000_0000
  {
    hide Delta;
    if j > 0 {
      ProbesApart(h, j - 1);
      OneMore(h, j, Delta(h), Probe(h, j - 1));
    }
  }

  lemma OneMore(h: nat, j: nat, d: nat, p: nat)
    requires j > 0 && p == (h + (j - 1) * d) % 0x1_0000_0000
    ensures (p + d) % 0x1_0000_0000 == (h + j * d) % 0x1_0000_0000
  {
    var before := (j - 1) * d;
    assert before + d == j * d;
    AddedRemainder(h + before, d);
  }

  lemma AddedRemainder(a: nat, d: nat)
    ensures (a % 0x1_0000_0000 + d) % 0x1_0000_0000 == (a + d) % 0x1_0000_0000
  {
  }

  /** The filter of these keys: no bits for none, otherwise the bits on which one of their probes falls. */
  ghost predicate IsFilter(hash: Hash, keys: seq<Bytes>, bitsPerKey: nat, k: nat, f: Filter) {
    if keys == [] then f == Filter([], 0)
    else
      && f.k == Probes(k) && |f.bits| == (if |keys| * bitsPerKey < 64 then 64 else (|keys| * bitsPerKey + 7) / 8 * 8)
      && forall b :: 0 <= b < |f.bits| ==> (f.bits[b] <==> Probed(hash, keys, |f.bits|, f.k, b))
  }

  method CreateFilter(hash: Hash, keys: seq<Bytes>, bitsPerKey: nat, k: nat) returns (f: Filter)
    ensures forall key :: key in keys ==> Matches(hash, f, key)
    ensures f.k == if k < 1 then 1 else if k > 30 then 30 else k
    ensures |f.bits| == if |keys| * bitsPerKey < 64 then 64 else (|keys| * bitsPerKey + 7) / 8 * 8
    ensures forall b :: 0 <= b < |f.bits| ==> (f.bits[b] <==> Probed(hash, keys, |f.bits|, f.k, b))
  {
    var probes := Probes(k);
    var bits := |keys| * bitsPerKey;
    if bits < 64 {
      bits := 64;
    }
    var bytes := (bits + 7) / 8;
    bits := bytes * 8;
    var array_: seq<bool> := seq(bits, _ => false);
    for i := 0 to |keys|
      invariant |array_| == bits
      invariant forall b :: 0 <= b < bits ==> (array_[b] <==> Probed(hash, keys[..i], bits, probes, b))
    {
      OneMoreKey(hash, keys, i, bits, probes);
      array_ := SetProbes(array_, hash(keys[i]), probes);
    }
    assert keys[..|keys|] == keys;
    f := Filter(array_, probes);
    forall key | key in keys
      ensures Matches(hash, f, key)
    {
      AllProbed(hash, keys, bits, probes, key);
    }
  }

  lemma OneMoreKey(hash: Hash, keys: seq<Bytes>, i: nat, n: nat, k: nat)
    requires i < |keys|
    ensures forall b :: Probed(hash, keys[..i + 1], n, k, b) <==> Probed(hash, keys[..i], n, k, b) || ProbedBy(hash(keys[i]), n, k, b)
  {
    hide ProbedBy;
    var a, a' := keys[..i], keys[..i + 1];
    forall b
      ensures Probed(hash, a', n, k, b) <==> Probed(hash, a, n, k, b) || ProbedBy(hash(keys[i]), n, k, b)
    {
      if j :| 0 <= j < |a| && ProbedBy(hash(a[j]), n, k, b) {
        assert a'[j] == a[j];
      }
      assert a'[i] == keys[i];
      if j :| 0 <= j < |a'| && ProbedBy(hash(a'[j]), n, k, b) {
        assert j < i ==> a[j] == a'[j];
      }
    }
  }

  lemma AllProbed(hash: Hash, keys: seq<Bytes>, n: nat, k: nat, key: Bytes)
    requires key in keys && n > 0
    ensures forall j :: 0 <= j < k ==> Probed(hash, keys, n, k, Probe(hash(key), j) % n)
  {
    var i :| 0 <= i < |keys| && keys[i] == key;
    forall j | 0 <= j < k
      ensures Probed(hash, keys, n, k, Probe(hash(key), j) % n)
    {
      assert ProbedBy(hash(keys[i]), n, k, Probe(hash(key), j) % n);
    }
  }

  method KeyMayMatch(hash: Hash, key: Bytes, f: Filter) returns (may: bool)
    ensures may <==> Matches(hash, f, key)
  {
    if |f.bits| < 8 {
      return false;
    }
    if f.k > 30 {
      return true;
    }
    var h := hash(key);
    var start := h;
    var delta := Delta(h);
    hide Delta;
    for j := 0 to f.k
      invariant h == Probe(start, j)
      invariant forall n :: 0 <= n < j ==> f.bits[Probe(start, n) % |f.bits|]
    {
      if !f.bits[h % |f.bits|] {
        return false;
      }
      h := (h + delta) % 0x1_0000_0000;
    }
    may := true;
  }

  /** A filter as the builder makes it. */
  predicate Made(f: Filter) {
    f == Filter([], 0) || (|f.bits| % 8 == 0 && |f.bits| >= 8 && f.k < 256)
  }

  predicate AllMade(fs: seq<Filter>) {
    forall i :: 0 <= i < |fs| ==> Made(fs[i])
  }

  class FilterBlockBuilder {
    const hash: Hash
    const bitsPerKey: nat
    const k: nat
    var keys: seq<Bytes>                // since the last filter
    var filters: seq<Filter>
    ghost var groups: seq<seq<Bytes>>   // the keys of each filter

    constructor (hash: Hash, bitsPerKey: nat, k: nat)
      ensures keys == [] && filters == [] && groups == [] && Exact()
      ensures this.hash == hash
    {
      this.hash, this.bitsPerKey, this.k := hash, bitsPerKey, k;
      keys, filters := [], [];
      groups := [];
    }

    /** Every filter is that of its keys. */
    ghost predicate Exact()
      reads this
    {
      |groups| == |filters| && forall i :: 0 <= i < |filters| ==> IsFilter(hash, groups[i], bitsPerKey, k, filters[i])
    }

    /** A key of the block at this offset is in the filter it will be looked up in, or will be. */
    ghost predicate Covers(offset: nat, key: Bytes)
      reads this
    {
      var i := offset / FILTER_BASE;
      if i < |filters| then Matches(hash, filters[i], key) else i == |filters| && key in keys
    }

    method StartBlock(offset: nat)
      requires offset / FILTER_BASE >= |filters|
      modifies this
      ensures |filters| == offset / 2048 && (old(AllMade(filters)) ==> AllMade(filters))
      ensures forall o, key :: old(Covers(o, key)) ==> Covers(o, key)
      ensures old(Exact()) ==> Exact() && old(groups) <= groups && keys == (if |groups| == |old(groups)| then old(keys) else [])
      ensures old(Exact()) ==> forall i :: |old(groups)| <= i < |groups| ==> groups[i] == if i == |old(groups)| then old(keys) else []
    {
      var filterIndex := offset / FILTER_BASE;
      while filterIndex > |filters|
        invariant filterIndex >= |filters| && (old(AllMade(filters)) ==> AllMade(filters))
        invariant old(Exact()) ==> Exact() && old(groups) <= groups && keys == (if |groups| == |old(groups)| then old(keys) else [])
        invariant old(Exact()) ==> forall i :: |old(groups)| <= i < |groups| ==> groups[i] == if i == |old(groups)| then old(keys) else []
        invariant forall o, key :: old(Covers(o, key)) ==> Covers(o, key)
      {
        GenerateFilter();
      }
    }

    method AddKey(key: Bytes)
      modifies this
      ensures filters == old(filters) && keys == old(keys) + [key] && groups == old(groups)
      ensures forall o, k :: old(Covers(o, k)) ==> Covers(o, k)
    {
      keys := keys + [key];
    }

    method GenerateFilter()
      modifies this
      ensures |filters| == |old(filters)| + 1 && keys == [] && (old(AllMade(filters)) ==> AllMade(filters))
      ensures forall o, key :: old(Covers(o, key)) ==> Covers(o, key)
      ensures groups == old(groups) + [old(keys)] && (old(Exact()) ==> Exact())
    {
      groups := groups + [keys];
      if keys == [] {
        filters := filters + [Filter([], 0)];
      } else {
        var f := CreateFilter(hash, keys, bitsPerKey, k);
        filters := filters + [f];
        keys := [];
      }
    }

    /** The finished filters; every key that was covered is in its own. */
    method Finish() returns (block: seq<Filter>)
      modifies this
      ensures old(AllMade(filters)) ==> AllMade(block)
      ensures forall o, key :: old(Covers(o, key)) ==> MayHold(hash, block, o, key)
      ensures block == filters && groups == old(groups) + (if old(keys) == [] then [] else [old(keys)]) && (old(Exact()) ==> Exact())
    {
      if keys != [] {
        GenerateFilter();
      }
      block := filters;
    }
  }

  /** What the reader answers for a key and the offset of a data block. */
  ghost predicate MayHold(hash: Hash, block: seq<Filter>, offset: nat, key: Bytes) {
    offset / FILTER_BASE < |block| ==> Matches(hash, block[offset / FILTER_BASE], key)
  }

  /** FilterBlockReader::KeyMayMatch; a missing filter rules nothing out. */
  method BlockKeyMayMatch(hash: Hash, block: seq<Filter>, offset: nat, key: Bytes) returns (may: bool)
    ensures may <==> MayHold(hash, block, offset, key)
  {
    var index := offset / FILTER_BASE;
    may := true;
    if index < |block| {
      may := KeyMayMatch(hash, key, block[index]);
    }
  }
}
