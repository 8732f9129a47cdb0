/** Block::Iter (table/block): a cursor over the entries of a finished block. */
module BlockIteration {
  import opened Options
  import opened Keys
  import opened Coding
  import opened Blocks

  type Order = (Bytes, Bytes) -> bool

  ghost predicate Transitive(less: Order) {
    forall a, b, c :: less(a, b) && less(b, c) ==> less(a, c)
  }

  ghost predicate Ascending(less: Order, es: seq<Pair>) {
    forall i, j :: 0 <= i < j < |es| ==> less(es[i].key, es[j].key)
  }

  /** Shared bytes, other key bytes, value bytes, and where the key bytes start. */
  datatype Decoded = Decoded(shared: Word, nonShared: Word, valueLength: Word, start: nat)

  function DecodeHeader(data: Bytes, p: nat, limit: nat): Option<Decoded>
    requires p <= limit <= |data|
  {
    if limit - p < 3 then None
    else if data[p] < 128 && data[p + 1] < 128 && data[p + 2] < 128 then
      Some(Decoded(data[p], data[p + 1], data[p + 2], p + 3))
    else
      var a := GetVarint32(data, p, limit);
      if !a.0 then None else
      var b := GetVarint32(data, a.2, limit);
      if !b.0 then None else
      var c := GetVarint32(data, b.2, limit);
      if !c.0 then None else Some(Decoded(a.1, b.1, c.1, c.2))
  }

  /** The sum of the lengths is a 32-bit number. */
  function DecodeEntry(data: Bytes, p: nat, limit: nat): (r: Option<Decoded>)
    requires p <= limit <= |data|
  {
    var d := DecodeHeader(data, p, limit);
    if d.Some? && (d.value.start > limit || limit - d.value.start < (d.value.nonShared + d.value.valueLength) % 0x1_0000_0000) then None
    else d
  }

  lemma HeaderParts(data: Bytes, p: nat, shared: nat, e: Pair)
    requires shared <= |e.key| && HasAt(data, p, EncodeEntry(shared, e))
    ensures var a, b, c := EncodeVarint(shared), EncodeVarint(|e.key| - shared), EncodeVarint(|e.value|);
            && HasAt(data, p, a) && HasAt(data, p + |a|, b) && HasAt(data, p + |a| + |b|, c)
            && HasAt(data, p + |a| + |b| + |c|, e.key[shared..])
            && HasAt(data, p + |a| + |b| + |c| + |e.key| - shared, e.value)
            && |EncodeEntry(shared, e)| == |a| + |b| + |c| + |e.key| - shared + |e.value|
  {
    hide EncodeVarint, HasAt;
    var a, b, c := EncodeVarint(shared), EncodeVarint(|e.key| - shared), EncodeVarint(|e.value|);
    HasParts(data, p, a + b + c + e.key[shared..], e.value);
    HasParts(data, p, a + b + c, e.key[shared..]);
    HasParts(data, p, a + b, c);
    HasParts(data, p, a, b);
  }

  lemma HeaderDecodes(data: Bytes, p: nat, limit: nat, shared: nat, e: Pair)
    requires shared <= |e.key| && limit <= |data| <= WORD_MAX && HasAt(data, p, EncodeEntry(shared, e))
    requires p + |EncodeEntry(shared, e)| <= limit && shared <= WORD_MAX
    ensures DecodeEntry(data, p, limit) == Some(Decoded(shared, |e.key| - shared, |e.value|, p + HeaderLength(shared, e)))
  {
    hide EncodeEntry, EncodeVarint, HasAt, GetVarint32;
    HeaderParts(data, p, shared, e);
    var a, b, c := EncodeVarint(shared), EncodeVarint(|e.key| - shared), EncodeVarint(|e.value|);
    ThreeVarints(data, p, limit, shared, |e.key| - shared, |e.value|);
  }

  lemma ThreeVarints(data: Bytes, p: nat, limit: nat, v: Word, w: Word, x: Word)
    requires limit <= |data|
    requires HasAt(data, p, EncodeVarint(v)) && HasAt(data, p + |EncodeVarint(v)|, EncodeVarint(w))
    requires HasAt(data, p + |EncodeVarint(v)| + |EncodeVarint(w)|, EncodeVarint(x))
    requires p + |EncodeVarint(v)| + |EncodeVarint(w)| + |EncodeVarint(x)| <= limit
    ensures DecodeHeader(data, p, limit) == Some(Decoded(v, w, x, p + |EncodeVarint(v)| + |EncodeVarint(w)| + |EncodeVarint(x)|))
  {
    hide EncodeVarint, HasAt, GetVarint32;
    var a, b, c := EncodeVarint(v), EncodeVarint(w), EncodeVarint(x);
    Varint32RoundTrip(v, data, p, limit);
    Varint32RoundTrip(w, data, p + |a|, limit);
    Varint32RoundTrip(x, data, p + |a| + |b|, limit);
    LeadingByte(data, p, v);
    LeadingByte(data, p + |a|, w);
    LeadingByte(data, p + |a| + |b|, x);
  }

  lemma LeadingByte(data: Bytes, p: nat, v: nat)
    requires HasAt(data, p, EncodeVarint(v))
    ensures p < |data| && (data[p] < 128 <==> v < 128) && (v < 128 ==> data[p] == v && |EncodeVarint(v)| == 1)
  {
    FirstByte(data, p, EncodeVarint(v));
  }

  /** Keys are no longer than the data before their entry's end: all lengths are 32-bit numbers. */
  lemma {:induction false} KeyFits(data: Bytes, es: seq<Pair>, shared: seq<nat>, offsets: seq<nat>, i: nat)
    requires Laid(data, es, shared, offsets) && i < |es|
    ensures |es[i].key| <= offsets[i + 1]
  {
    assert EntryAt(data, es, shared, offsets, i);
    HeaderParts(data, offsets[i], shared[i], es[i]);
    if i > 0 {
      KeyFits(data, es, shared, offsets, i - 1);
    }
  }

  /** The decoded header d leads to entry e, which ends at `end`. */
  ghost predicate LeadsTo(data: Bytes, d: Decoded, s: nat, e: Pair, end: nat) {
    && s <= |e.key| && d.shared == s && d.nonShared == |e.key| - s && d.valueLength == |e.value|
    && d.start + d.nonShared + d.valueLength == end <= |data|
    && data[d.start..d.start + d.nonShared] == e.key[s..]
    && data[d.start + d.nonShared..end] == e.value
  }

  lemma OneDecodes(data: Bytes, p: nat, limit: nat, s: nat, e: Pair)
    requires s <= |e.key| && limit <= |data| <= WORD_MAX && HasAt(data, p, EncodeEntry(s, e))
    requires p + |EncodeEntry(s, e)| <= limit && s <= WORD_MAX
    ensures DecodeEntry(data, p, limit).Some? && LeadsTo(data, DecodeEntry(data, p, limit).value, s, e, p + |EncodeEntry(s, e)|)
  {
    hide EncodeEntry, EncodeVarint, DecodeEntry;
    HeaderDecodes(data, p, limit, s, e);
    HeaderParts(data, p, s, e);
  }

  /** What parsing at an entry's offset yields. */
  lemma EntryDecodes(data: Bytes, es: seq<Pair>, shared: seq<nat>, offsets: seq<nat>, i: nat)
    requires Laid(data, es, shared, offsets) && i < |es| && offsets[|es|] <= |data| <= WORD_MAX
    ensures offsets[i] < offsets[i + 1] <= offsets[|es|]
    ensures DecodeEntry(data, offsets[i], offsets[|es|]).Some?
    ensures LeadsTo(data, DecodeEntry(data, offsets[i], offsets[|es|]).value, shared[i], es[i], offsets[i + 1])
  {
    hide EncodeEntry, DecodeEntry, HasAt, LeadsTo;
    assert EntryAt(data, es, shared, offsets, i);
    KeyFits(data, es, shared, offsets, i);
    assert i + 1 < |es| ==> offsets[i + 1] < offsets[|es|];
    OneDecodes(data, offsets[i], offsets[|es|], shared[i], es[i]);
  }

  /** The entry at `offset` lies after restart point j and not after the next one. */
  ghost predicate InRegion(restarts: seq<nat>, j: nat, offset: nat) {
    j < |restarts| && restarts[j] <= offset && (j + 1 < |restarts| ==> offset <= restarts[j + 1])
  }

  class Iter {
    const less: Order
    const data: Bytes
    const restartsAt: nat               // restarts_: where the entries end
    const numRestarts: nat
    ghost const es: seq<Pair>
    ghost const shared: seq<nat>
    ghost const offsets: seq<nat>
    ghost const restarts: seq<nat>
    ghost const points: seq<nat>
    var current: nat
    var restartIndex: nat
    var key: Bytes
    var valueAt: nat                    // value_, as a part of the block
    var valueLength: nat
    ghost var at: nat                   // index of the current entry; |es| when not valid

    ghost predicate Block() {
      && Finished(data, es, shared, offsets, restarts, points)
      && restartsAt == offsets[|es|] && numRestarts == |restarts|
    }

    /** About to parse entry i: `key` still holds what it shares. */
    ghost predicate Before(i: nat)
      requires Block()
      reads this
    {
      && i <= |es| && valueAt + valueLength == offsets[i]
      && (i < |es| ==>
            && shared[i] <= |key| && shared[i] <= |es[i].key| && key[..shared[i]] == es[i].key[..shared[i]]
            && restartIndex < numRestarts && restarts[restartIndex] <= offsets[i])
    }

    ghost predicate Valid()
      reads this
    {
      && Block() && at <= |es|
      && (at < |es| ==>
            && current == offsets[at] && key == es[at].key && InRegion(restarts, restartIndex, current)
            && valueAt + valueLength == offsets[at + 1] && valueLength == |es[at].value|
            && data[valueAt..offsets[at + 1]] == es[at].value)
      && (at == |es| ==> current == restartsAt)
    }

    /** On a finished block, as Block and NewIterator take it apart. */
    constructor (less: Order, data: Bytes, ghost es: seq<Pair>, ghost shared: seq<nat>, ghost offsets: seq<nat>,
                 ghost restarts: seq<nat>, ghost points: seq<nat>)
      requires Finished(data, es, shared, offsets, restarts, points)
      ensures Valid() && at == |es| && this.es == es && this.less == less && this.data == data
    {
      FinishedEnds(data, es, shared, offsets, restarts, points);
      var num := DecodeFixed32(data[|data| - 4..]);
      this.less, this.data := less, data;
      this.numRestarts, this.restartsAt := num, |data| - (1 + num) * 4;
      this.es, this.shared, this.offsets, this.restarts, this.points := es, shared, offsets, restarts, points;
      current, restartIndex, key, valueAt, valueLength := |data| - (1 + num) * 4, num, [], 0, 0;
      at := |es|;
    }

    predicate HasCurrent()
      requires Valid()
      reads this
      ensures HasCurrent() <==> at < |es|
    {
      AtIsIndex(data, es, shared, offsets, restarts, points, at);
      current < restartsAt
    }

    function Current(): (e: Pair)
      requires Valid() && HasCurrent()
      reads this
      ensures e == es[at]
    {
      Pair(key, data[valueAt..valueAt + valueLength])
    }

    function NextEntryOffset(): nat
      reads this
    {
      valueAt + valueLength
    }

    method GetRestartPoint(j: nat) returns (offset: nat)
      requires Block() && j < numRestarts
      ensures offset == restarts[j]
    {
      assert HasAt(data, offsets[|es|] + 4 * j, EncodeFixed32(restarts[j]));
      offset := DecodeFixed32(data[restartsAt + 4 * j..restartsAt + 4 * j + 4]);
    }

    method SeekToRestartPoint(j: nat)
      requires Block() && j < numRestarts
      modifies this`key, this`restartIndex, this`valueAt, this`valueLength
      ensures points[j] <= |es| && Before(points[j]) && restartIndex == j
    {
      key := [];
      restartIndex := j;
      valueAt := GetRestartPoint(j);
      valueLength := 0;
      SharesNothing(data, es, shared, offsets, restarts, points, j);
    }

    method ParseNextKey(ghost i: nat) returns (ok: bool)
      requires Block() && Before(i)
      modifies this
      ensures Valid() && at == i && (ok <==> i < |es|)
    {
      hide Finished, Laid, Restarts, DecodeEntry;
      BlockFacts(data, es, shared, offsets, restarts, points);
      current := NextEntryOffset();
      at := i;
      if current >= restartsAt {
        current, restartIndex := restartsAt, numRestarts;
        return false;
      }
      EntryDecodes(data, es, shared, offsets, i);
      // The source's branch for an entry that does not decode is never taken in a finished block.
      var d := DecodeEntry(data, current, restartsAt).value;
      assert es[i].key == es[i].key[..shared[i]] + es[i].key[shared[i]..];
      key := key[..d.shared] + data[d.start..d.start + d.nonShared];
      valueAt, valueLength := d.start + d.nonShared, d.valueLength;
      AdvanceRestart();
      ok := true;
    }

    /** Keep restart_index_ at the region that the current entry falls in. */
    method AdvanceRestart()
      requires Block() && restartIndex < numRestarts && restarts[restartIndex] <= current
      modifies this`restartIndex
      ensures InRegion(restarts, restartIndex, current)
    {
      hide Finished;
      while restartIndex + 1 < numRestarts
        invariant restartIndex < numRestarts && restarts[restartIndex] <= current
        decreases numRestarts - restartIndex
      {
        var next := GetRestartPoint(restartIndex + 1);
        if next >= current {
          break;
        }
        restartIndex := restartIndex + 1;
      }
    }

    method Next()
      requires Valid() && HasCurrent()
      modifies this
      ensures Valid() && at == old(at) + 1
    {
      AheadOfNext(at);
      var _ := ParseNextKey(at + 1);
    }

    /** Scan backwards to a restart point before the current entry, then forward to the entry just before it. */
    method Prev()
      requires Valid() && HasCurrent()
      modifies this
      ensures Valid() && at == if old(at) == 0 then |es| else old(at) - 1
    {
      hide Finished, InRegion;
      var original := current;
      ghost var goal := at;
      var found := LeaveRegion();
      if !found {
        current, restartIndex := restartsAt, numRestarts;
        at := |es|;
        return;
      }
      ScanUpTo(original, goal);
    }

    /** Move restart_index_ to a restart point strictly before the current entry. */
    method LeaveRegion() returns (found: bool)
      requires Valid() && HasCurrent()
      modifies this`restartIndex
      ensures found <==> at > 0
      ensures found ==> restartIndex < numRestarts && restarts[restartIndex] < current
    {
      hide Finished, Laid, Restarts;
      BlockFacts(data, es, shared, offsets, restarts, points);
      while true
        invariant restartIndex < numRestarts
        decreases restartIndex
      {
        var point := GetRestartPoint(restartIndex);
        if point < current {
          StartsBefore(data, es, shared, offsets, restarts, points, restartIndex, at);
          return true;
        }
        if restartIndex == 0 {
          FirstAtStart(data, es, shared, offsets, restarts, points, at);
          return false;
        }
        restartIndex := restartIndex - 1;
      }
    }

    /** Parse from the restart point until the end of the current entry hits the start of the original one. */
    method ScanUpTo(original: nat, ghost goal: nat)
      requires Block() && goal < |es| && original == offsets[goal]
      requires restartIndex < numRestarts && restarts[restartIndex] < original
      modifies this
      ensures Valid() && at == goal - 1
    {
      hide Finished, Laid, Restarts, InRegion;
      BlockFacts(data, es, shared, offsets, restarts, points);
      ghost var i := points[restartIndex];
      StartsBefore(data, es, shared, offsets, restarts, points, restartIndex, goal);
      SeekToRestartPoint(restartIndex);
      var more := ParseNextKey(i);
      while more && NextEntryOffset() < original
        invariant Valid() && at == i < goal && more
        decreases goal - i
      {
        OffsetOrder(data, es, shared, offsets, i + 1, goal);
        AheadOfNext(i);
        i := i + 1;
        more := ParseNextKey(i);
      }
      OffsetOrder(data, es, shared, offsets, i + 1, goal);
    }

    method SeekToFirst()
      requires Valid()
      modifies this
      ensures Valid() && at == 0
    {
      hide Finished, Laid, Restarts;
      BlockFacts(data, es, shared, offsets, restarts, points);
      FirstPoint(restarts, points, shared, offsets);
      SeekToRestartPoint(0);
      var _ := ParseNextKey(0);
    }

    method SeekToLast()
      requires Valid()
      modifies this
      ensures Valid() && at == if es == [] then 0 else |es| - 1
    {
      hide Finished, Laid, Restarts, InRegion;
      BlockFacts(data, es, shared, offsets, restarts, points);
      FirstPoint(restarts, points, shared, offsets);
      SeekToRestartPoint(numRestarts - 1);
      ghost var i := points[numRestarts - 1];
      var more := ParseNextKey(i);
      LastPoint(data, es, shared, offsets, restarts, points);
      while more && NextEntryOffset() < restartsAt
        invariant Valid() && at == i && (more <==> i < |es|) && (es != [] ==> more)
        decreases |es| - i
      {
        OffsetOrder(data, es, shared, offsets, i + 1, |es|);
        AheadOfNext(i);
        i := i + 1;
        more := ParseNextKey(i);
      }
      if es != [] {
        OffsetOrder(data, es, shared, offsets, i + 1, |es|);
      }
    }

    /** Binary search for the last restart point with a key before the target. */
    method SearchRestarts(target: Bytes) returns (left: nat)
      requires Block()
      ensures left < numRestarts == |points| && points[left] <= |es| && (left == 0 ==> points[left] == 0)
      ensures left > 0 ==> points[left] < |es| && less(es[points[left]].key, target)
    {
      hide Finished, Laid, Restarts, DecodeEntry;
      BlockFacts(data, es, shared, offsets, restarts, points);
      FirstPoint(restarts, points, shared, offsets);
      left := 0;
      var right := numRestarts - 1;
      while left < right
        invariant 0 <= left <= right < numRestarts
        invariant points[left] <= |es| && (left > 0 ==> points[left] < |es| && less(es[points[left]].key, target))
      {
        var mid := (left + right + 1) / 2;
        var regionOffset := GetRestartPoint(mid);
        MiddlePoint(data, es, shared, offsets, restarts, points, mid);
        var d := DecodeEntry(data, regionOffset, restartsAt).value;
        var midKey := data[d.start..d.start + d.nonShared];
        if less(midKey, target) {
          left := mid;
        } else {
          right := mid - 1;
        }
      }
    }

    /** The first entry whose key is not less than the target. */
    method Seek(target: Bytes)
      requires Valid() && Transitive(less) && Ascending(less, es)
      modifies this
      ensures Valid()
      ensures forall i :: 0 <= i < |es| ==> (i < at <==> less(es[i].key, target))
    {
      hide Finished, Transitive, Ascending, InRegion;
      var left := SearchRestarts(target);
      ghost var i := points[left];
      SeekToRestartPoint(left);
      LessBefore(less, es, i, target);
      while true
        invariant i <= |es| && Before(i)
        invariant forall j :: 0 <= j < i ==> less(es[j].key, target)
        decreases |es| - i
      {
        var more := ParseNextKey(i);
        if !more {
          return;
        }
        if !less(key, target) {
          NotLessAfter(less, es, i, target);
          return;
        }
        AheadOfNext(i);
        i := i + 1;
      }
    }

    lemma AheadOfNext(i: nat)
      requires Valid() && at == i < |es|
      ensures Before(i + 1)
    {
      NextShares(data, es, shared, offsets, i);
    }
  }

  /** The last restart point's entry is before the target, or it is the first one: so is everything before it. */
  lemma LessBefore(less: Order, es: seq<Pair>, i: nat, target: Bytes)
    requires Transitive(less) && Ascending(less, es) && i <= |es| && (i > 0 ==> i < |es| && less(es[i].key, target))
    ensures forall j :: 0 <= j < i ==> less(es[j].key, target)
  {
  }

  lemma NotLessAfter(less: Order, es: seq<Pair>, i: nat, target: Bytes)
    requires Transitive(less) && Ascending(less, es) && i < |es| && !less(es[i].key, target)
    ensures forall j :: i <= j < |es| ==> !less(es[j].key, target)
  {
    forall j | i <= j < |es|
      ensures !less(es[j].key, target)
    {
      assert i < j ==> less(es[i].key, es[j].key);
    }
  }

  lemma FirstPoint(restarts: seq<nat>, points: seq<nat>, shared: seq<nat>, offsets: seq<nat>)
    requires Restarts(restarts, points, shared, offsets)
    ensures restarts != [] && |points| == |restarts| && points[0] == 0
  {
  }

  lemma LastPoint(data: Bytes, es: seq<Pair>, shared: seq<nat>, offsets: seq<nat>, restarts: seq<nat>, points: seq<nat>)
    requires Laid(data, es, shared, offsets) && Restarts(restarts, points, shared, offsets)
    ensures es != [] ==> points[|points| - 1] < |es|
    ensures es == [] ==> points[|points| - 1] == 0
  {
  }

  /** The first key of a restart region stands whole in the block. */
  lemma MiddlePoint(data: Bytes, es: seq<Pair>, shared: seq<nat>, offsets: seq<nat>, restarts: seq<nat>, points: seq<nat>, mid: nat)
    requires Laid(data, es, shared, offsets) && Restarts(restarts, points, shared, offsets)
    requires 0 < mid < |restarts| && offsets[|es|] <= |data| <= WORD_MAX
    ensures points[mid] < |es| && restarts[mid] <= offsets[|es|]
    ensures var r := DecodeEntry(data, restarts[mid], offsets[|es|]);
            && r.Some? && r.value.shared == 0 && r.value.start + r.value.nonShared <= |data|
            && data[r.value.start..r.value.start + r.value.nonShared] == es[points[mid]].key
  {
    hide DecodeEntry;
    EntryDecodes(data, es, shared, offsets, points[mid]);
    assert es[points[mid]].key[0..] == es[points[mid]].key;
  }

  lemma FirstAtStart(data: Bytes, es: seq<Pair>, shared: seq<nat>, offsets: seq<nat>, restarts: seq<nat>, points: seq<nat>, at: nat)
    requires Laid(data, es, shared, offsets) && Restarts(restarts, points, shared, offsets) && at < |es| && restarts[0] >= offsets[at]
    ensures at == 0
  {
  }

  lemma StartsBefore(data: Bytes, es: seq<Pair>, shared: seq<nat>, offsets: seq<nat>, restarts: seq<nat>, points: seq<nat>, j: nat, at: nat)
    requires Laid(data, es, shared, offsets) && Restarts(restarts, points, shared, offsets) && j < |restarts| && at < |es|
    requires restarts[j] < offsets[at]
    ensures points[j] < at
  {
  }

  lemma OffsetOrder(data: Bytes, es: seq<Pair>, shared: seq<nat>, offsets: seq<nat>, i: nat, j: nat)
    requires Laid(data, es, shared, offsets) && i <= |es| && j <= |es|
    ensures offsets[i] < offsets[j] <==> i < j
  {
  }

  lemma FinishedEnds(data: Bytes, es: seq<Pair>, shared: seq<nat>, offsets: seq<nat>, restarts: seq<nat>, points: seq<nat>)
    requires Finished(data, es, shared, offsets, restarts, points)
    ensures |data| >= 8 && DecodeFixed32(data[|data| - 4..]) == |restarts| && |data| - (1 + |restarts|) * 4 == offsets[|es|]
  {
    assert data[|data| - 4..|data| - 4 + 4] == data[|data| - 4..];
  }

  lemma AtIsIndex(data: Bytes, es: seq<Pair>, shared: seq<nat>, offsets: seq<nat>, restarts: seq<nat>, points: seq<nat>, at: nat)
    requires Finished(data, es, shared, offsets, restarts, points) && at <= |es|
    ensures offsets[at] < offsets[|es|] <==> at < |es|
  {
  }

  lemma BlockFacts(data: Bytes, es: seq<Pair>, shared: seq<nat>, offsets: seq<nat>, restarts: seq<nat>, points: seq<nat>)
    requires Finished(data, es, shared, offsets, restarts, points)
    ensures Laid(data, es, shared, offsets) && offsets[|es|] <= |data| <= WORD_MAX && Restarts(restarts, points, shared, offsets)
  {
  }

  lemma SharesNothing(data: Bytes, es: seq<Pair>, shared: seq<nat>, offsets: seq<nat>, restarts: seq<nat>, points: seq<nat>, j: nat)
    requires Finished(data, es, shared, offsets, restarts, points) && j < |restarts|
    ensures points[j] <= |es| && restarts[j] == offsets[points[j]] && (points[j] < |es| ==> shared[points[j]] == 0)
  {
    if points[j] < |es| {
      assert EntryAt(data, es, shared, offsets, points[j]);
    }
  }

  lemma NextShares(data: Bytes, es: seq<Pair>, shared: seq<nat>, offsets: seq<nat>, i: nat)
    requires Laid(data, es, shared, offsets) && i < |es|
    ensures offsets[i] < offsets[i + 1]
    ensures i + 1 < |es| ==> shared[i + 1] <= |es[i].key| && shared[i + 1] <= |es[i + 1].key|
                             && es[i + 1].key[..shared[i + 1]] == es[i].key[..shared[i + 1]]
  {
    if i + 1 < |es| {
      assert EntryAt(data, es, shared, offsets, i + 1);
    }
  }

  /** Forward iteration returns exactly the entries. */
  method ReadAll(iter: Iter) returns (read: seq<Pair>)
    requires iter.Valid()
    modifies iter
    ensures read == iter.es
  {
    hide Finished;
    read := [];
    iter.SeekToFirst();
    while iter.HasCurrent()
      invariant iter.Valid() && read == iter.es[..iter.at]
      decreases |iter.es| - iter.at
    {
      read := read + [iter.Current()];
      iter.Next();
    }
  }

  method BuildAll(es: seq<Pair>, interval: nat) returns (builder: BlockBuilder)
    requires interval >= 1
    ensures fresh(builder) && builder.Valid() && builder.added == es && builder.interval == interval
  {
    hide Laid, Restarts, Placed, DataSize;
    builder := new BlockBuilder(interval);
    for i := 0 to |es|
      invariant builder.Valid() && fresh(builder) && builder.added == es[..i]
    {
      builder.Add(es[i]);
      assert es[..i + 1] == es[..i] + [es[i]];
    }
    assert es[..|es|] == es;
  }

  /** Building a block, unless it gets too long, and iterating over it gives back exactly what was added. */
  method RoundTrip(less: Order, es: seq<Pair>, interval: nat) returns (block: Option<Bytes>, read: seq<Pair>)
    requires interval >= 1
    ensures block.Some? <==> BlockSize(es, interval) <= WORD_MAX
    ensures block.Some? ==> read == es && |block.value| == BlockSize(es, interval)
  {
    hide Finished, Laid, Restarts, Placed, DataSize, BlockSize;
    var builder := BuildAll(es, interval);
    var size := builder.CurrentSizeEstimate();
    if size > WORD_MAX {
      return None, [];
    }
    var bytes := builder.Finish();
    var iter := new Iter(less, bytes, builder.added, builder.shared, builder.offsets, builder.restarts, builder.points);
    read := ReadAll(iter);
    block := Some(bytes);
  }
}
