/** The compaction loop and its two drop rules (DBImpl::DoCompactionWork). */
module Compacting {
  import opened Keys
  import opened Files

  /** Some file at a level of `deep` has `u` in its user-key range. */
  ghost predicate SomeFileHolds(deep: seq<seq<File>>, u: UserKey) {
    exists l, i :: 0 <= l < |deep| && 0 <= i < |deep[l]| && InRange(deep[l][i], u)
  }

  /** Rule (A): the entry just before has the same user key and is already visible
      at the oldest snapshot. */
  predicate Hidden(input: seq<Entry>, i: nat, snapshot: nat)
    requires i < |input|
  {
    i > 0 && input[i-1].key.user == input[i].key.user && input[i-1].key.sn <= snapshot
  }

  /** The second rule: a deletion that is old enough and has no deeper data. */
  ghost predicate Obsolete(input: seq<Entry>, i: nat, snapshot: nat, deep: seq<seq<File>>)
    requires i < |input|
  {
    && input[i].key.typ.TypeDeletion? && input[i].key.sn <= snapshot
    && !SomeFileHolds(deep, input[i].key.user)
  }

  /** The entries a compaction keeps of the first n of its input. */
  ghost function Kept(input: seq<Entry>, n: nat, snapshot: nat, deep: seq<seq<File>>): seq<Entry>
    requires n <= |input|
  {
    if n == 0 then [] else
    var rest := Kept(input, n - 1, snapshot, deep);
    if Hidden(input, n - 1, snapshot) || Obsolete(input, n - 1, snapshot, deep) then rest else rest + [input[n - 1]]
  }

  function Concat(outputs: seq<seq<Entry>>): seq<Entry> {
    if outputs == [] then [] else Concat(outputs[..|outputs| - 1]) + outputs[|outputs| - 1]
  }

  lemma ConcatSnoc(outputs: seq<seq<Entry>>, last: seq<Entry>)
    ensures Concat(outputs + [last]) == Concat(outputs) + last
  {
    assert (outputs + [last])[..|outputs|] == outputs;
  }

  ghost predicate LevelsDisjoint(deep: seq<seq<File>>) {
    forall l :: 0 <= l < |deep| ==> ValidFiles(deep[l]) && Disjoint(deep[l])
  }

  /** A running compaction: the cursors that IsBaseLevelForKey and ShouldStopBefore advance. */
  class Compaction {
    const deep: seq<seq<File>>          // input_version_->files_[level_ + 2 ..]
    const grandparents: seq<File>
    const maxOverlap: nat
    var levelPtrs: seq<nat>
    var grandparentIndex: nat
    var seenKey: bool
    var overlappedBytes: nat

    constructor (deep: seq<seq<File>>, grandparents: seq<File>, maxOverlap: nat)
      ensures this.deep == deep && this.grandparents == grandparents
      ensures Fresh()
    {
      this.deep := deep;
      this.grandparents := grandparents;
      this.maxOverlap := maxOverlap;
      levelPtrs := seq(|deep|, _ => 0);
      grandparentIndex, seenKey, overlappedBytes := 0, false, 0;
    }

    ghost predicate Valid()
      reads this`levelPtrs
    {
      && |levelPtrs| == |deep|
      && forall l :: 0 <= l < |deep| ==> levelPtrs[l] <= |deep[l]|
    }

    /** No key has been looked at yet. */
    ghost predicate Fresh()
      reads this
    {
      && Valid() && (forall l :: 0 <= l < |deep| ==> levelPtrs[l] == 0)
      && grandparentIndex == 0 && !seenKey && overlappedBytes == 0
    }

    /** The files behind the cursors all end before `u`. */
    ghost predicate Passed(u: UserKey)
      requires Valid()
      reads this`levelPtrs
    {
      forall l, i :: 0 <= l < |deep| && 0 <= i < levelPtrs[l] ==> deep[l][i].largest.user < u
    }

    /** For nondecreasing queries the cursors give the same answer as a full scan. */
    method IsBaseLevelForKey(u: UserKey) returns (base: bool)
      requires Valid() && LevelsDisjoint(deep) && Passed(u)
      modifies this`levelPtrs
      ensures Valid() && Passed(u)
      ensures base == !SomeFileHolds(deep, u)
    {
      var l := 0;
      while l < |deep|
        invariant 0 <= l <= |deep|
        invariant Valid() && Passed(u)
        invariant forall m, i :: 0 <= m < l && 0 <= i < |deep[m]| ==> !InRange(deep[m][i], u)
      {
        while levelPtrs[l] < |deep[l]|
          invariant Valid() && Passed(u)
          invariant levelPtrs[l] < |deep[l]| ==> forall i :: 0 <= i < levelPtrs[l] ==> !InRange(deep[l][i], u)
          decreases |deep[l]| - levelPtrs[l]
        {
          var f := deep[l][levelPtrs[l]];
          if u <= f.largest.user {
            if u >= f.smallest.user {
              return false;
            }
            break;
          }
          levelPtrs := levelPtrs[l := levelPtrs[l] + 1];
        }
        assert forall i :: 0 <= i < |deep[l]| ==> !InRange(deep[l][i], u) by {
          var p := levelPtrs[l];
          if p < |deep[l]| {
            EntryBounds(deep[l][p], deep[l][p].entries[0]);
            assert forall i :: p < i < |deep[l]| ==> Less(deep[l][p].largest, deep[l][i].smallest);
          }
        }
        l := l + 1;
      }
      return true;
    }

    /** Whether to cut the current output: more than `maxOverlap` bytes of grandparent
        files have been passed since the last cut. */
    method ShouldStopBefore(k: InternalKey) returns (stop: bool)
      requires Valid() && grandparentIndex <= |grandparents|
      modifies this`grandparentIndex, this`seenKey, this`overlappedBytes
      ensures old(grandparentIndex) <= grandparentIndex <= |grandparents| && seenKey
      ensures forall j :: old(grandparentIndex) <= j < grandparentIndex ==> Less(grandparents[j].largest, k)
      ensures grandparentIndex < |grandparents| ==> !Less(grandparents[grandparentIndex].largest, k)
      ensures var passed := old(overlappedBytes) +
                            if old(seenKey) then TotalSize(grandparents[old(grandparentIndex)..grandparentIndex]) else 0;
              stop == (passed > maxOverlap) && overlappedBytes == if stop then 0 else passed
    {
      ghost var from := grandparentIndex;
      while grandparentIndex < |grandparents| && Less(grandparents[grandparentIndex].largest, k)
        invariant from <= grandparentIndex <= |grandparents| && seenKey == old(seenKey)
        invariant forall j :: from <= j < grandparentIndex ==> Less(grandparents[j].largest, k)
        invariant overlappedBytes == old(overlappedBytes) +
                                     if seenKey then TotalSize(grandparents[from..grandparentIndex]) else 0
      {
        var next := grandparents[from..grandparentIndex + 1];
        assert next[..|next| - 1] == grandparents[from..grandparentIndex];
        if seenKey {
          overlappedBytes := overlappedBytes + grandparents[grandparentIndex].size;
        }
        grandparentIndex := grandparentIndex + 1;
      }
      seenKey := true;
      if overlappedBytes > maxOverlap {
        overlappedBytes := 0;
        return true;
      }
      return false;
    }
  }

  /** Whether the loop drops `e`, given the sequence number of the previous entry for
      the same user key (MAX_SEQUENCE when there is none). */
  method ShouldDrop(c: Compaction, e: Entry, lastSequenceForKey: nat, snapshot: nat) returns (drop: bool)
    requires c.Valid() && LevelsDisjoint(c.deep) && c.Passed(e.key.user)
    modifies c`levelPtrs
    ensures c.Valid() && c.Passed(e.key.user)
    ensures drop == (|| lastSequenceForKey <= snapshot
                     || (e.key.typ.TypeDeletion? && e.key.sn <= snapshot && !SomeFileHolds(c.deep, e.key.user)))
  {
    drop := false;
    if lastSequenceForKey <= snapshot {
      drop := true;
    } else if e.key.typ.TypeDeletion? && e.key.sn <= snapshot {
      drop := c.IsBaseLevelForKey(e.key.user);
    }
  }

  // ---- where the outputs are cut ----

  /** The first grandparent, from a given one on, that does not end before the key. */
  function Reach(grandparents: seq<File>, from: nat, k: InternalKey): (i: nat)
    requires from <= |grandparents|
    ensures from <= i <= |grandparents|
    ensures forall j :: from <= j < i ==> Less(grandparents[j].largest, k)
    ensures i < |grandparents| ==> !Less(grandparents[i].largest, k)
    decreases |grandparents| - from
  {
    if from < |grandparents| && Less(grandparents[from].largest, k) then Reach(grandparents, from + 1, k) else from
  }

  /** After some keys: how many grandparents have been passed, how many bytes of them since the last cut, and whether
      there is a cut before the last key. */
  datatype Scan = Scan(index: nat, bytes: nat, stop: bool)

  function ScanAt(grandparents: seq<File>, maxOverlap: nat, input: seq<Entry>, n: nat): (p: Scan)
    requires n <= |input|
    ensures p.index <= |grandparents| && p.bytes <= maxOverlap
  {
    if n == 0 then Scan(0, 0, false)
    else
      var p := ScanAt(grandparents, maxOverlap, input, n - 1);
      var i := Reach(grandparents, p.index, input[n - 1].key);
      var bytes := p.bytes + if n > 1 then TotalSize(grandparents[p.index..i]) else 0;
      Scan(i, if bytes > maxOverlap then 0 else bytes, bytes > maxOverlap)
  }

  /** The outputs that are finished, and the entries of the one that is not. */
  datatype Outputs = Outputs(done: seq<seq<Entry>>, open: seq<Entry>)

  function ClosedOutput(w: Outputs): Outputs {
    if w.open == [] then w else Outputs(w.done + [w.open], [])
  }

  /** An output is finished as soon as it is large enough. */
  function Appended(w: Outputs, e: Entry, tableSize: seq<Entry> -> nat, maxSize: nat): Outputs {
    if tableSize(w.open + [e]) >= maxSize then Outputs(w.done + [w.open + [e]], []) else Outputs(w.done, w.open + [e])
  }

  /** Whether entry i is dropped. */
  ghost predicate Dropped(input: seq<Entry>, i: nat, snapshot: nat, deep: seq<seq<File>>)
    requires i < |input|
  {
    snapshot >= MAX_SEQUENCE || Hidden(input, i, snapshot) || Obsolete(input, i, snapshot, deep)
  }

  /** What has been written of the first n entries. */
  ghost function WrittenAt(c: Compaction, tableSize: seq<Entry> -> nat, maxSize: nat, input: seq<Entry>, n: nat, snapshot: nat): Outputs
    requires n <= |input|
  {
    if n == 0 then Outputs([], [])
    else
      var before := WrittenAt(c, tableSize, maxSize, input, n - 1, snapshot);
      var w := if ScanAt(c.grandparents, c.maxOverlap, input, n).stop then ClosedOutput(before) else before;
      if Dropped(input, n - 1, snapshot, c.deep) then w else Appended(w, input[n - 1], tableSize, maxSize)
  }

  /** The outputs written so far and the one being built ([] when none is open). */
  class CompactionState {
    const tableSize: seq<Entry> -> nat      // the size the table builder reports
    const maxOutputFileSize: nat
    var outputs: seq<seq<Entry>>
    var builder: seq<Entry>

    constructor (tableSize: seq<Entry> -> nat, maxOutputFileSize: nat)
      ensures Valid() && Emitted() == []
    {
      this.tableSize, this.maxOutputFileSize := tableSize, maxOutputFileSize;
      outputs, builder := [], [];
    }

    ghost predicate Valid()
      reads this
    {
      [] !in outputs
    }

    /** Everything emitted, in order. */
    ghost function Emitted(): seq<Entry>
      reads this
    {
      Concat(outputs) + builder
    }

    method FinishOutput()
      requires Valid() && builder != []
      modifies this
      ensures Valid() && Emitted() == old(Emitted()) && builder == []
      ensures outputs == old(outputs) + [old(builder)]
    {
      ConcatSnoc(outputs, builder);
      outputs, builder := outputs + [builder], [];
    }

    method Add(e: Entry)
      requires Valid()
      modifies this
      ensures Valid() && Emitted() == old(Emitted()) + [e]
      ensures Outputs(outputs, builder) == Appended(old(Outputs(outputs, builder)), e, tableSize, maxOutputFileSize)
    {
      builder := builder + [e];
      if tableSize(builder) >= maxOutputFileSize {
        FinishOutput();
      }
    }
  }

  /** What the loop writes of the first n entries.  With the greatest sequence number as snapshot, the mark for "no
      previous entry" is taken for an entry that hides the next one, and nothing is written. */
  ghost function Emits(input: seq<Entry>, n: nat, snapshot: nat, deep: seq<seq<File>>): seq<Entry>
    requires n <= |input|
  {
    if snapshot < MAX_SEQUENCE then Kept(input, n, snapshot, deep) else []
  }

  lemma NothingYet(input: seq<Entry>, snapshot: nat, deep: seq<seq<File>>)
    ensures Emits(input, 0, snapshot, deep) == []
  {
  }

  /** The previous version's sequence number, or the mark for none. */
  function LastSequence(input: seq<Entry>, i: nat): nat
    requires i < |input|
  {
    if i > 0 && input[i - 1].key.user == input[i].key.user then input[i - 1].key.sn else MAX_SEQUENCE
  }

  /** One more entry, when `last` is the sequence number of the previous one for its user key, if any. */
  lemma EmitsNext(input: seq<Entry>, i: nat, snapshot: nat, deep: seq<seq<File>>, last: nat)
    requires i < |input| && last == LastSequence(input, i)
    ensures Emits(input, i + 1, snapshot, deep) ==
        if last <= snapshot
           || (input[i].key.typ.TypeDeletion? && input[i].key.sn <= snapshot && !SomeFileHolds(deep, input[i].key.user))
        then Emits(input, i, snapshot, deep) else Emits(input, i, snapshot, deep) + [input[i]]
  {
    hide SomeFileHolds;
  }

  lemma NothingWritten(c: Compaction, tableSize: seq<Entry> -> nat, maxSize: nat, input: seq<Entry>, snapshot: nat)
    ensures WrittenAt(c, tableSize, maxSize, input, 0, snapshot) == Outputs([], [])
    ensures ScanAt(c.grandparents, c.maxOverlap, input, 0) == Scan(0, 0, false)
  {
  }

  lemma NoOutputs(outputs: seq<seq<Entry>>)
    requires [] !in outputs
    ensures Concat(outputs) == [] ==> outputs == []
  {
    if outputs != [] {
      assert outputs[|outputs| - 1] in outputs;
    }
  }

  lemma ScanNext(c: Compaction, input: seq<Entry>, n: nat, from: nat, to: nat)
    requires n < |input| && ScanAt(c.grandparents, c.maxOverlap, input, n).index == from <= to <= |c.grandparents|
    requires forall j :: from <= j < to ==> Less(c.grandparents[j].largest, input[n].key)
    requires to < |c.grandparents| ==> !Less(c.grandparents[to].largest, input[n].key)
    ensures var p := ScanAt(c.grandparents, c.maxOverlap, input, n);
      var bytes := p.bytes + if n > 0 then TotalSize(c.grandparents[from..to]) else 0;
      ScanAt(c.grandparents, c.maxOverlap, input, n + 1) == Scan(to, if bytes > c.maxOverlap then 0 else bytes, bytes > c.maxOverlap)
  {
    var r := Reach(c.grandparents, from, input[n].key);
    assert r == to;
  }

  lemma WrittenNext(c: Compaction, tableSize: seq<Entry> -> nat, maxSize: nat, input: seq<Entry>, i: nat, snapshot: nat)
    requires i < |input|
    ensures var before := WrittenAt(c, tableSize, maxSize, input, i, snapshot);
      var w := if ScanAt(c.grandparents, c.maxOverlap, input, i + 1).stop then ClosedOutput(before) else before;
      var drop := LastSequence(input, i) <= snapshot
                  || (input[i].key.typ.TypeDeletion? && input[i].key.sn <= snapshot && !SomeFileHolds(c.deep, input[i].key.user));
      WrittenAt(c, tableSize, maxSize, input, i + 1, snapshot) == if drop then w else Appended(w, input[i], tableSize, maxSize)
  {
    hide SomeFileHolds, ScanAt, Appended, ClosedOutput;
  }

  /** The loop of a compaction over its merged input.  How tables are cut never changes
      what is kept. */
  method DoCompactionWork(c: Compaction, compact: CompactionState, input: seq<Entry>, snapshot: nat)
    requires c.Fresh() && compact.Valid() && compact.Emitted() == []
    requires LevelsDisjoint(c.deep) && Sorted(input)
    modifies c, compact
    ensures compact.Valid() && compact.builder == []
    ensures Concat(compact.outputs) == Emits(input, |input|, snapshot, c.deep)
    ensures compact.outputs == ClosedOutput(WrittenAt(c, compact.tableSize, compact.maxOutputFileSize, input, |input|, snapshot)).done
  {
    hide LevelsDisjoint, SomeFileHolds, Emits, Kept, Dropped, Appended, WrittenAt, ScanAt;
    NothingYet(input, snapshot, c.deep);
    NothingWritten(c, compact.tableSize, compact.maxOutputFileSize, input, snapshot);
    NoOutputs(compact.outputs);
    var hasCurrentUserKey, currentUserKey := false, 0.0;
    var lastSequenceForKey := MAX_SEQUENCE;
    for i := 0 to |input|
      invariant c.Valid() && c.grandparentIndex <= |c.grandparents| && compact.Valid()
      invariant hasCurrentUserKey == (i > 0)
      invariant i > 0 ==> currentUserKey == input[i-1].key.user && lastSequenceForKey == input[i-1].key.sn
      invariant i < |input| ==> c.Passed(input[i].key.user)
      invariant compact.Emitted() == Emits(input, i, snapshot, c.deep)
      invariant c.seenKey == (i > 0) && Scan(c.grandparentIndex, c.overlappedBytes, false) ==
                  ScanAt(c.grandparents, c.maxOverlap, input, i).(stop := false)
      invariant Outputs(compact.outputs, compact.builder) == WrittenAt(c, compact.tableSize, compact.maxOutputFileSize, input, i, snapshot)
    {
      var e := input[i];
      assert i + 1 < |input| ==> Less(e.key, input[i+1].key);
      ghost var from := c.grandparentIndex;
      var stop := c.ShouldStopBefore(e.key);
      ScanNext(c, input, i, from, c.grandparentIndex);
      WrittenNext(c, compact.tableSize, compact.maxOutputFileSize, input, i, snapshot);
      if stop && compact.builder != [] {
        compact.FinishOutput();
      }
      if !hasCurrentUserKey || e.key.user != currentUserKey {
        currentUserKey, hasCurrentUserKey := e.key.user, true;
        lastSequenceForKey := MAX_SEQUENCE;
      }
      EmitsNext(input, i, snapshot, c.deep, lastSequenceForKey);
      var drop := ShouldDrop(c, e, lastSequenceForKey, snapshot);
      lastSequenceForKey := e.key.sn;
      if !drop {
        compact.Add(e);
      }
    }
    if compact.builder != [] {
      compact.FinishOutput();
    }
  }
}
