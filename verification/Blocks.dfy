/** Blocks with prefix-compressed keys (table/block_builder and table/block): what a builder
    wrote is what an iterator reads, in both directions and from any key sought. */
module Blocks {
  import opened Keys
  import opened Coding

  datatype Pair = Pair(key: Bytes, value: Bytes)

  /** One entry: it shares `shared` bytes with the key before it. */
  function EncodeEntry(shared: nat, e: Pair): (bs: Bytes)
    requires shared <= |e.key|
    ensures |bs| >= 3
  {
    EncodeVarint(shared) + EncodeVarint(|e.key| - shared) + EncodeVarint(|e.value|) + e.key[shared..] + e.value
  }

  function HeaderLength(shared: nat, e: Pair): nat
    requires shared <= |e.key|
  {
    |EncodeVarint(shared)| + |EncodeVarint(|e.key| - shared)| + |EncodeVarint(|e.value|)|
  }

  // ---- compression ----

  /** The length of the longest common prefix. */
  function Common(a: Bytes, b: Bytes): (n: nat)
    ensures n <= |a| && n <= |b|
  {
    if a == [] || b == [] || a[0] != b[0] then 0 else 1 + Common(a[1..], b[1..])
  }

  lemma {:induction false} CommonIs(a: Bytes, b: Bytes, n: nat)
    requires n <= |a| && n <= |b| && a[..n] == b[..n] && (n < |a| && n < |b| ==> a[n] != b[n])
    ensures Common(a, b) == n
    decreases n
  {
    if n > 0 {
      assert a[..n][0] == b[..n][0];
      assert a[1..][..n - 1] == a[..n][1..] && b[1..][..n - 1] == b[..n][1..];
      CommonIs(a[1..], b[1..], n - 1);
    }
  }

  /** What entry i shares: all it can, except that every interval-th entry shares nothing. */
  function SharedAt(es: seq<Pair>, i: nat, interval: nat): (s: nat)
    requires i < |es| && interval >= 1
    ensures s <= |es[i].key|
  {
    if i % interval == 0 then 0 else Common(es[i - 1].key, es[i].key)
  }

  /** The length of the first n entries. */
  function DataSize(es: seq<Pair>, n: nat, interval: nat): nat
    requires n <= |es| && interval >= 1
  {
    if n == 0 then 0 else DataSize(es, n - 1, interval) + |EncodeEntry(SharedAt(es, n - 1, interval), es[n - 1])|
  }

  function RestartCount(n: nat, interval: nat): nat
    requires interval >= 1
  {
    if n == 0 then 1 else (n - 1) / interval + 1
  }

  /** The length of the finished block. */
  function BlockSize(es: seq<Pair>, interval: nat): nat
    requires interval >= 1
  {
    DataSize(es, |es|, interval) + 4 * RestartCount(|es|, interval) + 4
  }

  lemma {:induction false} SizeOfPrefix(es: seq<Pair>, e: Pair, n: nat, interval: nat)
    requires n <= |es| && interval >= 1
    ensures DataSize(es + [e], n, interval) == DataSize(es, n, interval)
    decreases n
  {
    hide EncodeEntry;
    if n > 0 {
      SizeOfPrefix(es, e, n - 1, interval);
      assert (es + [e])[n - 1] == es[n - 1] && (n > 1 ==> (es + [e])[n - 2] == es[n - 2]);
      if (n - 1) % interval != 0 {
        assert n > 1 by {
          assert 0 % interval == 0;
        }
      }
    }
  }

  /** Entry n, when `restarts` restart points precede it and `counter` entries follow the last one. */
  lemma Position(n: nat, interval: nat, restarts: nat, counter: nat)
    requires interval >= 1 && restarts >= 1 && counter <= interval && n == (restarts - 1) * interval + counter
    requires counter == 0 ==> n == 0
    ensures counter < interval ==> (n % interval == 0 <==> n == 0)
    ensures counter == interval ==> n % interval == 0 && n == restarts * interval
    ensures RestartCount(n, interval) == restarts
  {
    if counter == interval {
      Remainder(restarts, interval, 0);
      assert restarts * interval == (restarts - 1) * interval + interval;
    } else {
      Remainder(restarts - 1, interval, counter);
    }
    if counter > 0 {
      Remainder(restarts - 1, interval, counter - 1);
    } else {
      assert (restarts - 1) * interval == 0;
      assert restarts - 1 == 0 || (restarts - 1) * interval >= interval;
    }
  }

  lemma Remainder(q: nat, d: nat, r: nat)
    requires r < d
    ensures (q * d + r) / d == q && (q * d + r) % d == r
  {
    var n := q * d + r;
    assert n == n / d * d + n % d;
    var k := n / d - q;
    assert k * d == r - n % d;
    MultipleAtLeast(k, d);
  }

  lemma MultipleAtLeast(k: int, d: int)
    requires d >= 0
    ensures (k >= 1 ==> k * d >= d) && (k <= -1 ==> k * d <= -d)
  {
    assert k >= 1 ==> (k - 1) * d >= 0;
    assert k <= -1 ==> (k + 1) * d <= 0;
  }

  // ---- layout ----

  /** Where every entry starts in the buffer, and where the last one ends. */
  ghost predicate Starts(offsets: seq<nat>, n: nat) {
    && |offsets| == n + 1 && offsets[0] == 0
    && forall i, j :: 0 <= i < j <= n ==> offsets[i] < offsets[j]
  }

  ghost predicate EntryAt(data: Bytes, es: seq<Pair>, shared: seq<nat>, offsets: seq<nat>, i: nat)
    requires i < |es| == |shared| && Starts(offsets, |es|)
  {
    && shared[i] <= |es[i].key|
    && (if i == 0 then shared[i] == 0 else shared[i] <= |es[i - 1].key| && es[i].key[..shared[i]] == es[i - 1].key[..shared[i]])
    && HasAt(data, offsets[i], EncodeEntry(shared[i], es[i]))
    && offsets[i + 1] == offsets[i] + |EncodeEntry(shared[i], es[i])|
  }

  /** The data part of a block: the entries one after the other. */
  ghost predicate Laid(data: Bytes, es: seq<Pair>, shared: seq<nat>, offsets: seq<nat>)
    ensures Laid(data, es, shared, offsets) ==> |shared| == |es| && Starts(offsets, |es|)
  {
    && |shared| == |es| && Starts(offsets, |es|)
    && forall i :: 0 <= i < |es| ==> EntryAt(data, es, shared, offsets, i)
  }

  /** Restart points: entries that share nothing, the first entry among them. */
  ghost predicate Restarts(restarts: seq<nat>, points: seq<nat>, shared: seq<nat>, offsets: seq<nat>)
    ensures Restarts(restarts, points, shared, offsets) ==> restarts != [] && |points| == |restarts|
  {
    && restarts != [] && |points| == |restarts| && points[0] == 0 && |offsets| == |shared| + 1
    && (forall j :: 0 <= j < |points| ==> points[j] < |offsets| && restarts[j] == offsets[points[j]])
    && (forall j :: 0 < j < |points| ==> points[j] < |shared| && shared[points[j]] == 0)
    && (forall i, j :: 0 <= i < j < |points| ==> points[i] < points[j])
  }

  lemma LaidLonger(data: Bytes, tail: Bytes, es: seq<Pair>, shared: seq<nat>, offsets: seq<nat>)
    requires Laid(data, es, shared, offsets)
    ensures Laid(data + tail, es, shared, offsets)
  {
    hide EncodeEntry;
    forall i | 0 <= i < |es|
      ensures EntryAt(data + tail, es, shared, offsets, i)
    {
      assert EntryAt(data, es, shared, offsets, i);
      var b := EncodeEntry(shared[i], es[i]);
      assert (data + tail)[offsets[i]..offsets[i] + |b|] == data[offsets[i]..offsets[i] + |b|];
    }
  }

  /** Appending an entry leaves the earlier ones where they are. */
  lemma LaidMore(data: Bytes, es: seq<Pair>, shared: seq<nat>, offsets: seq<nat>, e: Pair, s: nat)
    requires Laid(data, es, shared, offsets) && offsets[|es|] == |data| && s <= |e.key|
    requires if es == [] then s == 0 else s <= |es[|es| - 1].key| && e.key[..s] == es[|es| - 1].key[..s]
    ensures var bytes := EncodeEntry(s, e);
            Laid(data + bytes, es + [e], shared + [s], offsets + [|data| + |bytes|])
  {
    hide EncodeEntry;
    var bytes := EncodeEntry(s, e);
    var data', es', shared', offsets' := data + bytes, es + [e], shared + [s], offsets + [|data| + |bytes|];
    forall i | 0 <= i < |es'|
      ensures EntryAt(data', es', shared', offsets', i)
    {
      if i < |es| {
        assert EntryAt(data, es, shared, offsets, i);
        var b := EncodeEntry(shared[i], es[i]);
        assert data'[offsets[i]..offsets[i] + |b|] == data[offsets[i]..offsets[i] + |b|];
      } else {
        assert data'[|data|..|data| + |bytes|] == bytes;
      }
    }
  }

  function EncodeAll(vs: seq<nat>): (bs: Bytes)
    requires forall i :: 0 <= i < |vs| ==> vs[i] <= WORD_MAX
    ensures |bs| == 4 * |vs|
  {
    if vs == [] then [] else EncodeAll(vs[..|vs| - 1]) + EncodeFixed32(vs[|vs| - 1])
  }

  lemma {:induction false} FixedAt(vs: seq<nat>, i: nat)
    requires i < |vs| && forall i :: 0 <= i < |vs| ==> vs[i] <= WORD_MAX
    ensures EncodeAll(vs)[4 * i..4 * i + 4] == EncodeFixed32(vs[i])
  {
    var n := |vs| - 1;
    if i < n {
      FixedAt(vs[..n], i);
      assert EncodeAll(vs)[4 * i..4 * i + 4] == EncodeAll(vs[..n])[4 * i..4 * i + 4];
    }
  }

  /** A finished block: the entries, the restart points, and their number. */
  ghost predicate Finished(block: Bytes, es: seq<Pair>, shared: seq<nat>, offsets: seq<nat>, restarts: seq<nat>, points: seq<nat>) {
    && Laid(block, es, shared, offsets) && Restarts(restarts, points, shared, offsets)
    && |block| <= WORD_MAX && |block| == offsets[|es|] + 4 * |restarts| + 4
    && (forall i :: 0 <= i < |restarts| ==> restarts[i] <= WORD_MAX && HasAt(block, offsets[|es|] + 4 * i, EncodeFixed32(restarts[i])))
    && HasAt(block, |block| - 4, EncodeFixed32(|restarts|))
  }

  class BlockBuilder {
    const interval: nat
    var buffer: Bytes
    var restarts: seq<nat>
    var counter: nat
    var lastKey: Bytes
    ghost var added: seq<Pair>
    ghost var shared: seq<nat>
    ghost var offsets: seq<nat>
    ghost var points: seq<nat>

    ghost predicate Valid()
      reads this
    {
      && interval >= 1 && Laid(buffer, added, shared, offsets) && offsets[|added|] == |buffer|
      && Restarts(restarts, points, shared, offsets)
      && lastKey == (if added == [] then [] else added[|added| - 1].key)
      && Placed(interval, points, counter, |added|)
      && |buffer| == DataSize(added, |added|, interval)
    }

    constructor (interval: nat)
      requires interval >= 1
      ensures Valid() && added == [] && this.interval == interval
    {
      this.interval := interval;
      buffer, restarts, counter, lastKey := [], [0], 0, [];
      added, shared, offsets, points := [], [], [0], [0];
    }

    /** What holds of the restart points once an entry that shares s bytes follows. */
    ghost predicate Ready(s: nat)
      reads this
    {
      && Restarts(restarts, points, shared + [s], offsets + [|buffer| + 1])
      && interval >= 1 && Placed(interval, points, counter + 1, |added| + 1)
    }

    /** How much of the last key the entry shares; nothing at a restart point. */
    method Share(key: Bytes) returns (s: nat)
      requires Valid()
      modifies this`restarts, this`points, this`counter
      ensures Ready(s) && s <= |key| && s <= |lastKey| && key[..s] == lastKey[..s]
      ensures s == if |added| % interval == 0 then 0 else Common(lastKey, key)
    {
      hide Laid, Restarts, Starts, DataSize, Placed;
      LaidStarts(buffer, added, shared, offsets);
      NextPlace(interval, points, counter, |added|);
      s := 0;
      if counter < interval {
        s := SharedWith(key);
        CommonIs(lastKey, key, s);
        RestartsMore(restarts, points, shared, offsets, s, |buffer| + 1, false);
      } else {
        RestartsMore(restarts, points, shared, offsets, s, |buffer| + 1, true);
        restarts := restarts + [|buffer|];
        points := points + [|added|];
        counter := 0;
      }
    }

    method Add(e: Pair)
      requires Valid()
      modifies this
      ensures Valid() && added == old(added) + [e]
    {
      hide EncodeEntry, Laid, Restarts, Starts, DataSize, Placed, Common;
      var s := Share(e.key);
      LastPlace(interval, points, counter + 1, |added| + 1);
      SizeMore(added, e, s, interval, lastKey);
      LaidStarts(buffer, added, shared, offsets);
      LaidMore(buffer, added, shared, offsets, e, s);
      RestartsEnd(restarts, points, shared + [s], offsets, |buffer| + 1, |buffer| + |EncodeEntry(s, e)|);
      KeyRebuilt(lastKey, e.key, s);
      buffer := buffer + EncodeEntry(s, e);
      lastKey := lastKey[..s] + e.key[s..];
      counter := counter + 1;
      added, shared, offsets := added + [e], shared + [s], offsets + [|buffer|];
    }

    /** How long the finished block would be. */
    method CurrentSizeEstimate() returns (size: nat)
      requires Valid()
      ensures size == BlockSize(added, interval) == |buffer| + 4 * |restarts| + 4
    {
      Position(|added|, interval, |points|, counter);
      size := |buffer| + 4 * |restarts| + 4;
    }

    /** The length of the common prefix with the last key. */
    method SharedWith(key: Bytes) returns (s: nat)
      ensures s <= |lastKey| && s <= |key| && lastKey[..s] == key[..s]
      ensures s < |lastKey| && s < |key| ==> lastKey[s] != key[s]
    {
      s := 0;
      var minLength := if |lastKey| < |key| then |lastKey| else |key|;
      while s < minLength && lastKey[s] == key[s]
        invariant s <= minLength && lastKey[..s] == key[..s]
      {
        s := s + 1;
      }
    }

    method Finish() returns (block: Bytes)
      requires Valid() && |buffer| + 4 * |restarts| + 4 <= WORD_MAX
      ensures |block| == |buffer| + 4 * |restarts| + 4
      ensures Finished(block, added, shared, offsets, restarts, points)
    {
      hide Laid, Restarts;
      RestartsSmall(restarts, points, shared, offsets, |buffer|);
      block := buffer;
      for i := 0 to |restarts|
        invariant block == buffer + EncodeAll(restarts[..i])
      {
        assert restarts[..i + 1][..i] == restarts[..i];
        block := block + EncodeFixed32(restarts[i]);
      }
      assert restarts[..|restarts|] == restarts;
      block := block + EncodeFixed32(|restarts|);
      Complete(buffer, added, shared, offsets, restarts, points);
    }
  }

  /** Restart points stand at every interval-th entry; `counter` entries follow the last one. */
  ghost predicate Placed(interval: nat, points: seq<nat>, counter: nat, n: nat) {
    && |points| >= 1 && counter <= interval && (counter == 0 ==> n == 0)
    && points[|points| - 1] == (|points| - 1) * interval && points[|points| - 1] + counter == n
  }

  lemma NextPlace(interval: nat, points: seq<nat>, counter: nat, n: nat)
    requires interval >= 1 && Placed(interval, points, counter, n)
    ensures counter <= interval && points[|points| - 1] + counter == n
    ensures counter < interval ==> Placed(interval, points, counter + 1, n + 1) && (n % interval == 0 <==> n == 0)
    ensures counter == interval ==> Placed(interval, points + [n], 1, n + 1) && n % interval == 0
  {
    Position(n, interval, |points|, counter);
  }

  lemma LastPlace(interval: nat, points: seq<nat>, counter: nat, n: nat)
    requires Placed(interval, points, counter, n)
    ensures |points| >= 1 && points[|points| - 1] + counter == n
  {
  }

  lemma SizeMore(es: seq<Pair>, e: Pair, s: nat, interval: nat, lastKey: Bytes)
    requires interval >= 1 && s <= |e.key| && lastKey == if es == [] then [] else es[|es| - 1].key
    requires s == if |es| % interval == 0 then 0 else Common(lastKey, e.key)
    ensures DataSize(es + [e], |es| + 1, interval) == DataSize(es, |es|, interval) + |EncodeEntry(s, e)|
  {
    hide EncodeEntry;
    SizeOfPrefix(es, e, |es|, interval);
    assert (es + [e])[|es|] == e && (es != [] ==> (es + [e])[|es| - 1] == es[|es| - 1]);
    assert es == [] ==> |es| % interval == 0;
  }

  lemma KeyRebuilt(lastKey: Bytes, key: Bytes, s: nat)
    requires s <= |lastKey| && s <= |key| && key[..s] == lastKey[..s]
    ensures lastKey[..s] + key[s..] == key
  {
  }

  lemma RestartsEnd(restarts: seq<nat>, points: seq<nat>, shared: seq<nat>, offsets: seq<nat>, end: nat, end': nat)
    requires Restarts(restarts, points, shared, offsets + [end]) && |offsets| == |shared| && points[|points| - 1] < |shared|
    ensures Restarts(restarts, points, shared, offsets + [end'])
  {
    var last := |points| - 1;
    assert forall j :: 0 <= j < |points| ==> points[j] <= points[last];
  }

  lemma LaidStarts(data: Bytes, es: seq<Pair>, shared: seq<nat>, offsets: seq<nat>)
    requires Laid(data, es, shared, offsets)
    ensures |shared| == |es| && |offsets| == |es| + 1
  {
  }

  lemma RestartsSmall(restarts: seq<nat>, points: seq<nat>, shared: seq<nat>, offsets: seq<nat>, end: nat)
    requires Restarts(restarts, points, shared, offsets) && Starts(offsets, |shared|) && offsets[|shared|] == end
    ensures forall j :: 0 <= j < |restarts| ==> restarts[j] <= end
  {
  }

  lemma RestartsMore(restarts: seq<nat>, points: seq<nat>, shared: seq<nat>, offsets: seq<nat>, s: nat, end: nat, restarted: bool)
    requires Restarts(restarts, points, shared, offsets)
    requires restarted ==> s == 0 && points[|points| - 1] < |shared|
    ensures if restarted then Restarts(restarts + [offsets[|shared|]], points + [|shared|], shared + [s], offsets + [end])
            else Restarts(restarts, points, shared + [s], offsets + [end])
  {
  }

  /** The parts of a block where they belong. */
  lemma Complete(buffer: Bytes, es: seq<Pair>, shared: seq<nat>, offsets: seq<nat>, restarts: seq<nat>, points: seq<nat>)
    requires Laid(buffer, es, shared, offsets) && offsets[|es|] == |buffer| && Restarts(restarts, points, shared, offsets)
    requires |buffer| + 4 * |restarts| + 4 <= WORD_MAX && forall j :: 0 <= j < |restarts| ==> restarts[j] <= |buffer|
    ensures Finished(buffer + EncodeAll(restarts) + EncodeFixed32(|restarts|), es, shared, offsets, restarts, points)
  {
    hide EncodeFixed32, Laid, Restarts, EncodeAll, HasAt;
    var array_, last := EncodeAll(restarts), EncodeFixed32(|restarts|);
    var block := buffer + array_ + last;
    LaidLonger(buffer, array_, es, shared, offsets);
    LaidLonger(buffer + array_, last, es, shared, offsets);
    LaidStarts(buffer, es, shared, offsets);
    forall i | 0 <= i < |restarts|
      ensures HasAt(block, |buffer| + 4 * i, EncodeFixed32(restarts[i]))
    {
      FixedAt(restarts, i);
      HasInside(buffer, array_, last, 4 * i, EncodeFixed32(restarts[i]));
    }
    LastWord(buffer + array_, last);
  }

  lemma HasInside(a: Bytes, b: Bytes, c: Bytes, i: nat, bs: Bytes)
    requires i + |bs| <= |b| && b[i..i + |bs|] == bs
    ensures HasAt(a + b + c, |a| + i, bs)
  {
    Inside(a, b, c, i, |bs|);
  }

  lemma LastWord(before: Bytes, last: Bytes)
    requires |last| == 4
    ensures HasAt(before + last, |before + last| - 4, last)
  {
  }

  lemma Inside(a: Bytes, b: Bytes, c: Bytes, i: nat, n: nat)
    requires i + n <= |b|
    ensures (a + b + c)[|a| + i..|a| + i + n] == b[i..i + n]
  {
  }
}
