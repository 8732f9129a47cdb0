/** Write batches with their sequence numbers, and what a list of them means to a reader. */
module History {
  import opened Keys
  import opened Reads

  datatype Op = Put(user: UserKey, value: Value) | Delete(user: UserKey)

  /** A batch as it stands in the log: its i-th operation has sequence number first + i. */
  datatype Record = Record(first: nat, ops: seq<Op>)

  predicate Fits(r: Record) {
    r.first + |r.ops| <= MAX_SEQUENCE + 1
  }

  function OpEntry(op: Op, s: SequenceNumber): Entry {
    match op
    case Put(u, v) => Entry(InternalKey(u, s, TypeValue), v)
    case Delete(u) => Entry(InternalKey(u, s, TypeDeletion), [])
  }

  /** The entries of one batch (WriteBatchInternal::InsertInto). */
  ghost function RecordEntries(r: Record): set<Entry>
    requires Fits(r)
  {
    set i | 0 <= i < |r.ops| :: OpEntry(r.ops[i], r.first + i)
  }

  /** All batches fit, and each starts after the one before it ends. */
  ghost predicate ValidHistory(h: seq<Record>) {
    && (forall i :: 0 <= i < |h| ==> Fits(h[i]))
    && (forall i, j :: 0 <= i < j < |h| ==> h[i].first + |h[i].ops| <= h[j].first)
  }

  ghost function Entries(h: seq<Record>): set<Entry>
    requires ValidHistory(h)
  {
    if h == [] then {} else Entries(h[..|h| - 1]) + RecordEntries(h[|h| - 1])
  }

  /** Every entry of the history has a sequence number below `bound`. */
  ghost predicate Below(h: seq<Record>, bound: nat) {
    forall i :: 0 <= i < |h| ==> h[i].first + |h[i].ops| <= bound
  }

  ghost predicate AtLeast(h: seq<Record>, bound: nat) {
    forall i :: 0 <= i < |h| ==> bound <= h[i].first
  }

  lemma {:induction false} EntriesAtLeast(h: seq<Record>, bound: nat, e: Entry)
    requires ValidHistory(h) && AtLeast(h, bound) && e in Entries(h)
    ensures bound <= e.key.sn
  {
    if e !in RecordEntries(h[|h| - 1]) {
      EntriesAtLeast(h[..|h| - 1], bound, e);
    }
  }

  lemma {:induction false} EntriesAppend(a: seq<Record>, b: seq<Record>)
    requires ValidHistory(a + b)
    ensures ValidHistory(a) && ValidHistory(b) && Entries(a + b) == Entries(a) + Entries(b)
  {
    Parts(a, b);
    if b == [] {
      assert a + b == a;
    } else {
      var n := |b| - 1;
      assert (a + b)[..|a| + n] == a + b[..n];
      Parts(a + b[..n], [b[n]]);
      assert a + b == a + b[..n] + [b[n]];
      EntriesAppend(a, b[..n]);
    }
  }

  lemma Parts(a: seq<Record>, b: seq<Record>)
    requires ValidHistory(a + b)
    ensures ValidHistory(a) && ValidHistory(b)
    ensures forall i, j :: 0 <= i < |a| && 0 <= j < |b| ==> a[i].first + |a[i].ops| <= b[j].first
  {
    assert forall i :: 0 <= i < |a| ==> a[i] == (a + b)[i];
    assert forall j :: 0 <= j < |b| ==> b[j] == (a + b)[|a| + j];
  }

  /** Later batches are newer than earlier ones. */
  lemma LaterIsNewer(a: seq<Record>, b: seq<Record>)
    requires ValidHistory(a + b)
    ensures ValidHistory(a) && ValidHistory(b) && Newer(Entries(b), Entries(a))
  {
    Parts(a, b);
    forall x, y | x in Entries(b) && y in Entries(a)
      ensures x.key.sn > y.key.sn
    {
      var i := FindRecord(a, y);
      EntriesAtLeast(b, y.key.sn + 1, x);
    }
  }

  /** The batch an entry came from. */
  lemma {:induction false} FindRecord(h: seq<Record>, e: Entry) returns (i: nat)
    requires ValidHistory(h) && e in Entries(h)
    ensures i < |h| && e in RecordEntries(h[i])
    ensures h[i].first <= e.key.sn < h[i].first + |h[i].ops|
  {
    i := |h| - 1;
    if e !in RecordEntries(h[i]) {
      i := FindRecord(h[..i], e);
    }
  }

  lemma RecordDistinct(r: Record)
    requires Fits(r)
    ensures Distinct(RecordEntries(r))
  {
  }

  lemma {:induction false} HistoryDistinct(h: seq<Record>)
    requires ValidHistory(h)
    ensures Distinct(Entries(h))
  {
    if h != [] {
      var front, last := h[..|h| - 1], [h[|h| - 1]];
      assert h == front + last;
      HistoryDistinct(front);
      LaterIsNewer(front, last);
      RecordDistinct(h[|h| - 1]);
      assert Entries(last) == RecordEntries(h[|h| - 1]) by {
        assert last[..0] == [];
      }
      DistinctLayers(Entries(last), Entries(front));
    }
  }
}
