/** What a compaction's output tables look like: none empty, none larger than need be, and none over too much of the
    grandparents' level. */
module CompactionOutputs {
  import opened Options
  import opened Keys
  import opened Files
  import opened Compacting

  /** There is no cut before any of the keys after a, up to b. */
  ghost predicate NoCut(c: Compaction, input: seq<Entry>, a: nat, b: nat) {
    b <= |input| && forall n: nat :: a + 1 < n <= b ==> !ScanAt(c.grandparents, c.maxOverlap, input, n).stop
  }

  /** An output starts with entry a and ends with entry b, without a cut in between. */
  ghost predicate Spans(c: Compaction, input: seq<Entry>, o: seq<Entry>, a: nat, b: nat) {
    o != [] && a <= b < |input| && o[0] == input[a] && o[|o| - 1] == input[b] && NoCut(c, input, a, b + 1)
  }

  /** Without its last entry an output was not large enough to be finished. */
  predicate NoLarger(o: seq<Entry>, tableSize: seq<Entry> -> nat, maxSize: nat) {
    forall k :: 0 < k < |o| ==> tableSize(o[..k]) < maxSize
  }

  ghost predicate OutputOk(c: Compaction, tableSize: seq<Entry> -> nat, maxSize: nat, input: seq<Entry>, o: seq<Entry>) {
    NoLarger(o, tableSize, maxSize) && exists a: nat, b: nat :: Spans(c, input, o, a, b)
  }

  ghost predicate OpenOk(c: Compaction, tableSize: seq<Entry> -> nat, maxSize: nat, input: seq<Entry>, o: seq<Entry>, n: nat) {
    o != [] ==>
      && NoLarger(o, tableSize, maxSize) && tableSize(o) < maxSize
      && exists a: nat, b: nat :: b < n && Spans(c, input, o, a, b) && NoCut(c, input, a, n)
  }

  ghost predicate AllOk(c: Compaction, tableSize: seq<Entry> -> nat, maxSize: nat, input: seq<Entry>, w: Outputs, n: nat) {
    && (forall o :: o in w.done ==> OutputOk(c, tableSize, maxSize, input, o))
    && OpenOk(c, tableSize, maxSize, input, w.open, n)
  }

  lemma ClosingKeeps(c: Compaction, tableSize: seq<Entry> -> nat, maxSize: nat, input: seq<Entry>, w: Outputs, n: nat)
    requires AllOk(c, tableSize, maxSize, input, w, n)
    ensures var w' := ClosedOutput(w); w'.open == [] && AllOk(c, tableSize, maxSize, input, w', |input|)
  {
    hide NoLarger, Spans, NoCut;
    assert w.open != [] ==> OutputOk(c, tableSize, maxSize, input, w.open);
  }

  lemma AppendingKeeps(c: Compaction, tableSize: seq<Entry> -> nat, maxSize: nat, input: seq<Entry>, w: Outputs, n: nat)
    requires n < |input| && AllOk(c, tableSize, maxSize, input, w, n)
    requires w.open == [] || !ScanAt(c.grandparents, c.maxOverlap, input, n + 1).stop
    ensures AllOk(c, tableSize, maxSize, input, Appended(w, input[n], tableSize, maxSize), n + 1)
  {
    hide ScanAt, Spans, NoCut, NoLarger;
    var a := SpanGrows(c, tableSize, maxSize, input, w.open, n);
    StillNoLarger(w.open, input[n], tableSize, maxSize);
    var o := w.open + [input[n]];
    assert OutputOk(c, tableSize, maxSize, input, o);
    assert tableSize(o) < maxSize ==> OpenOk(c, tableSize, maxSize, input, o, n + 1);
    hide OutputOk, OpenOk;
  }

  lemma SpanGrows(c: Compaction, tableSize: seq<Entry> -> nat, maxSize: nat, input: seq<Entry>, open: seq<Entry>, n: nat) returns (a: nat)
    requires n < |input| && OpenOk(c, tableSize, maxSize, input, open, n)
    requires open == [] || !ScanAt(c.grandparents, c.maxOverlap, input, n + 1).stop
    ensures Spans(c, input, open + [input[n]], a, n) && NoCut(c, input, a, n + 1)
  {
    hide ScanAt, NoLarger;
    a := n;
    if open != [] {
      var b: nat;
      a, b :| b < n && Spans(c, input, open, a, b) && NoCut(c, input, a, n);
    }
  }

  lemma StillNoLarger(o: seq<Entry>, e: Entry, tableSize: seq<Entry> -> nat, maxSize: nat)
    requires o != [] ==> NoLarger(o, tableSize, maxSize) && tableSize(o) < maxSize
    ensures NoLarger(o + [e], tableSize, maxSize)
  {
    forall k | 0 < k < |o + [e]|
      ensures tableSize((o + [e])[..k]) < maxSize
    {
      assert k < |o| ==> (o + [e])[..k] == o[..k];
      assert k == |o| ==> (o + [e])[..k] == o;
    }
  }

  lemma SkippingKeeps(c: Compaction, tableSize: seq<Entry> -> nat, maxSize: nat, input: seq<Entry>, w: Outputs, n: nat)
    requires n < |input| && AllOk(c, tableSize, maxSize, input, w, n)
    requires w.open == [] || !ScanAt(c.grandparents, c.maxOverlap, input, n + 1).stop
    ensures AllOk(c, tableSize, maxSize, input, w, n + 1)
  {
    if w.open != [] {
      var a: nat, b: nat :| b < n && Spans(c, input, w.open, a, b) && NoCut(c, input, a, n);
      assert NoCut(c, input, a, n + 1);
    }
    hide ScanAt, Spans, NoLarger;
  }

  lemma {:induction false} WrittenOk(c: Compaction, tableSize: seq<Entry> -> nat, maxSize: nat, input: seq<Entry>, n: nat, snapshot: nat)
    requires n <= |input|
    ensures AllOk(c, tableSize, maxSize, input, WrittenAt(c, tableSize, maxSize, input, n, snapshot), n)
  {
    hide ScanAt, Dropped, AllOk, Appended;
    if n == 0 {
      NothingOk(c, tableSize, maxSize, input);
    } else {
      WrittenOk(c, tableSize, maxSize, input, n - 1, snapshot);
      var before := WrittenAt(c, tableSize, maxSize, input, n - 1, snapshot);
      var w := before;
      if ScanAt(c.grandparents, c.maxOverlap, input, n).stop {
        ClosingKeeps(c, tableSize, maxSize, input, before, n - 1);
        w := ClosedOutput(before);
        ClosedAt(c, tableSize, maxSize, input, w, n - 1);
      }
      AppendingKeeps(c, tableSize, maxSize, input, w, n - 1);
      SkippingKeeps(c, tableSize, maxSize, input, w, n - 1);
    }
  }

  lemma NothingOk(c: Compaction, tableSize: seq<Entry> -> nat, maxSize: nat, input: seq<Entry>)
    ensures AllOk(c, tableSize, maxSize, input, Outputs([], []), 0)
  {
  }

  lemma ClosedAt(c: Compaction, tableSize: seq<Entry> -> nat, maxSize: nat, input: seq<Entry>, w: Outputs, n: nat)
    requires w.open == [] && AllOk(c, tableSize, maxSize, input, w, |input|)
    ensures AllOk(c, tableSize, maxSize, input, w, n)
  {
  }

  // ---- what a cut bounds ----

  /** Without a cut the bytes passed add up. */
  lemma {:induction false} BytesPassed(c: Compaction, input: seq<Entry>, a: nat, b: nat)
    requires a < b && NoCut(c, input, a, b)
    ensures var p, q := ScanAt(c.grandparents, c.maxOverlap, input, a + 1), ScanAt(c.grandparents, c.maxOverlap, input, b);
      p.index <= q.index && q.bytes == p.bytes + TotalSize(c.grandparents[p.index..q.index])
    decreases b
  {
    hide ScanAt, TotalSize;
    if b > a + 1 {
      assert NoCut(c, input, a, b - 1);
      BytesPassed(c, input, a, b - 1);
      ScanStep(c, input, b);
      var p, mid, q := ScanAt(c.grandparents, c.maxOverlap, input, a + 1).index, ScanAt(c.grandparents, c.maxOverlap, input, b - 1).index,
                       ScanAt(c.grandparents, c.maxOverlap, input, b).index;
      JoinedSizes(c.grandparents, p, mid, q);
    } else {
      var p := ScanAt(c.grandparents, c.maxOverlap, input, b).index;
      NoSize(c.grandparents, p);
    }
  }

  lemma ScanStep(c: Compaction, input: seq<Entry>, n: nat)
    requires 2 <= n <= |input| && !ScanAt(c.grandparents, c.maxOverlap, input, n).stop
    ensures var p, q := ScanAt(c.grandparents, c.maxOverlap, input, n - 1), ScanAt(c.grandparents, c.maxOverlap, input, n);
      p.index <= q.index && q.bytes == p.bytes + TotalSize(c.grandparents[p.index..q.index])
  {
  }

  lemma JoinedSizes(gs: seq<File>, p: nat, mid: nat, q: nat)
    requires p <= mid <= q <= |gs|
    ensures TotalSize(gs[p..q]) == TotalSize(gs[p..mid]) + TotalSize(gs[mid..q])
  {
    assert gs[p..q] == gs[p..mid] + gs[mid..q];
    SizesAdd(gs[p..mid], gs[mid..q]);
  }

  lemma NoSize(gs: seq<File>, p: nat)
    requires p <= |gs|
    ensures TotalSize(gs[p..p]) == 0
  {
  }

  /** For sorted input over a sorted level the scan stands at the first grandparent that does not end before the key. */
  lemma {:induction false} StandsAtKey(c: Compaction, input: seq<Entry>, n: nat)
    requires Sorted(input) && n < |input|
    ensures var i := ScanAt(c.grandparents, c.maxOverlap, input, n + 1).index;
      forall j :: 0 <= j < i ==> Less(c.grandparents[j].largest, input[n].key)
    ensures var i := ScanAt(c.grandparents, c.maxOverlap, input, n + 1).index;
      i < |c.grandparents| ==> !Less(c.grandparents[i].largest, input[n].key)
  {
    if n > 0 {
      StandsAtKey(c, input, n - 1);
      assert Less(input[n - 1].key, input[n].key);
    }
  }

  /** Of the grandparents, these run from the first that does not end before the output's first key to the one before
      the first that does not end before its last key: the ones an output passes over. */
  ghost predicate PassedOver(grandparents: seq<File>, o: seq<Entry>, lo: nat, hi: nat) {
    && o != [] && lo <= hi <= |grandparents|
    && (forall j :: 0 <= j < lo ==> Less(grandparents[j].largest, o[0].key))
    && (lo < |grandparents| ==> !Less(grandparents[lo].largest, o[0].key))
    && (forall j :: 0 <= j < hi ==> Less(grandparents[j].largest, o[|o| - 1].key))
    && (hi < |grandparents| ==> !Less(grandparents[hi].largest, o[|o| - 1].key))
  }

  /** Every output has entries, stays below the size limit without its last one, and passes over no more than the
      allowed bytes of grandparents, so that a later compaction of it stays small. */
  lemma OutputsBounded(c: Compaction, tableSize: seq<Entry> -> nat, maxSize: nat, input: seq<Entry>, snapshot: nat, o: seq<Entry>)
    returns (lo: nat, hi: nat)
    requires Sorted(input) && o in ClosedOutput(WrittenAt(c, tableSize, maxSize, input, |input|, snapshot)).done
    ensures o != [] && forall k :: 0 < k < |o| ==> tableSize(o[..k]) < maxSize
    ensures PassedOver(c.grandparents, o, lo, hi) && TotalSize(c.grandparents[lo..hi]) <= c.maxOverlap
  {
    var w := WrittenAt(c, tableSize, maxSize, input, |input|, snapshot);
    WrittenOk(c, tableSize, maxSize, input, |input|, snapshot);
    ClosingKeeps(c, tableSize, maxSize, input, w, |input|);
    hide WrittenAt, ScanAt, ClosedOutput, Spans, PassedOver, TotalSize, Sorted;
    assert OutputOk(c, tableSize, maxSize, input, o);
    var a: nat, b: nat :| Spans(c, input, o, a, b);
    lo, hi := SpanPasses(c, input, o, a, b);
  }

  lemma SpanPasses(c: Compaction, input: seq<Entry>, o: seq<Entry>, a: nat, b: nat) returns (lo: nat, hi: nat)
    requires Sorted(input) && Spans(c, input, o, a, b)
    ensures PassedOver(c.grandparents, o, lo, hi) && TotalSize(c.grandparents[lo..hi]) <= c.maxOverlap
  {
    hide ScanAt, TotalSize;
    lo, hi := ScanAt(c.grandparents, c.maxOverlap, input, a + 1).index, ScanAt(c.grandparents, c.maxOverlap, input, b + 1).index;
    BytesPassed(c, input, a, b + 1);
    StandsAtKey(c, input, a);
    StandsAtKey(c, input, b);
  }
}
