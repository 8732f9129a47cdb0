/** TwoLevelIterator (table/two_level_iterator): a cursor over consecutive blocks, or over the
    files of a level, through an index of one key per block.  Blocks may be empty. */
module TwoLevel {
  import opened Options
  import opened Keys

  /** Block b holds all[starts[b]..starts[b + 1]]. */
  ghost predicate Splits(blocks: seq<seq<Entry>>, starts: seq<nat>, all: seq<Entry>) {
    && |starts| == |blocks| + 1 && starts[0] == 0 && starts[|blocks|] == |all|
    && forall b :: 0 <= b < |blocks| ==> BlockIs(blocks[b], starts, all, b)
  }

  ghost predicate BlockIs(block: seq<Entry>, starts: seq<nat>, all: seq<Entry>, b: nat)
    requires b + 1 < |starts|
  {
    starts[b] <= starts[b + 1] <= |all| && block == all[starts[b]..starts[b + 1]]
  }

  /** Index key b is not before any key of blocks 0 to b, and before every key after them. */
  ghost predicate Indexes(index: seq<InternalKey>, starts: seq<nat>, all: seq<Entry>) {
    && |starts| == |index| + 1
    && forall b, i :: 0 <= b < |index| && 0 <= i < |all| ==> (i < starts[b + 1] <==> !Less(index[b], all[i].key))
  }

  class TwoLevelIterator {
    const blocks: seq<seq<Entry>>
    const index: seq<InternalKey>
    ghost const starts: seq<nat>
    ghost const all: seq<Entry>
    var indexPos: nat                   // |blocks| when the index cursor is not valid
    var dataBlock: Option<nat>          // which block data_iter_ is over, if any
    var dataPos: nat                    // its length when not valid
    ghost var at: nat                   // position in `all`; |all| when not valid

    ghost predicate Shape()
      reads this
    {
      && Splits(blocks, starts, all) && Indexes(index, starts, all) && |index| == |blocks| && Sorted(all)
      && indexPos <= |blocks|
      && (dataBlock.Some? ==> dataBlock.value < |blocks| && dataPos <= |blocks[dataBlock.value]|)
    }

    ghost predicate Valid()
      reads this
    {
      && Shape() && at <= |all| && (HasCurrent() <==> at < |all|)
      && (HasCurrent() ==> indexPos == dataBlock.value && at == starts[indexPos] + dataPos)
    }

    /** Valid() of the source. */
    predicate HasCurrent()
      requires Shape()
      reads this
    {
      dataBlock.Some? && dataPos < |blocks[dataBlock.value]|
    }

    function Current(): (e: Entry)
      requires Valid() && HasCurrent()
      reads this
      ensures e == all[at]
    {
      assert BlockIs(blocks[indexPos], starts, all, indexPos);
      blocks[dataBlock.value][dataPos]
    }

    constructor (blocks: seq<seq<Entry>>, index: seq<InternalKey>, ghost starts: seq<nat>, ghost all: seq<Entry>)
      requires Splits(blocks, starts, all) && Indexes(index, starts, all) && |index| == |blocks| && Sorted(all)
      ensures Valid() && at == |all| && this.all == all
    {
      this.blocks, this.index, this.starts, this.all := blocks, index, starts, all;
      indexPos, dataBlock, dataPos := |blocks|, None, 0;
      at := |all|;
    }

    /** The data cursor for the block that the index stands at; a cursor that is already over it is kept. */
    method InitDataBlock()
      requires Shape()
      modifies this`dataBlock, this`dataPos
      ensures Shape() && dataBlock == if indexPos < |blocks| then Some(indexPos) else None
    {
      if indexPos >= |blocks| {
        dataBlock := None;
      } else if dataBlock != Some(indexPos) {
        dataBlock, dataPos := Some(indexPos), |blocks[indexPos]|;
      }
    }

    /** From a data cursor that has run off its block, to the first entry of a later one; `goal` is where
        that is among all entries. */
    method SkipEmptyDataBlocksForward(ghost goal: nat)
      requires Shape() && goal <= |all|
      requires indexPos < |blocks| ==> dataBlock == Some(indexPos) && goal == starts[indexPos] + dataPos
      requires indexPos == |blocks| ==> dataBlock == None && goal == |all|
      modifies this
      ensures Valid() && at == goal
    {
      while dataBlock.None? || dataPos >= |blocks[dataBlock.value]|
        invariant Shape()
        invariant indexPos < |blocks| ==> dataBlock == Some(indexPos) && goal == starts[indexPos] + dataPos
        invariant indexPos == |blocks| ==> dataBlock == None && goal == |all|
        decreases |blocks| - indexPos
      {
        if indexPos >= |blocks| {
          dataBlock := None;
          at := |all|;
          return;
        }
        assert BlockIs(blocks[indexPos], starts, all, indexPos);
        indexPos := indexPos + 1;
        InitDataBlock();
        if dataBlock.Some? {
          dataPos := 0;
        }
      }
      assert BlockIs(blocks[indexPos], starts, all, indexPos);
      at := goal;
    }

    /** The mirror image; `goal` entries come before the current block's. */
    method SkipEmptyDataBlocksBackward(ghost goal: nat)
      requires Shape() && goal <= |all|
      requires indexPos < |blocks| ==> dataBlock == Some(indexPos) && Remaining(goal)
      requires indexPos == |blocks| ==> dataBlock == None && goal == 0
      modifies this
      ensures Valid() && at == if goal == 0 then |all| else goal - 1
    {
      while dataBlock.None? || dataPos >= |blocks[dataBlock.value]|
        invariant Shape() && goal <= |all|
        invariant indexPos < |blocks| ==> dataBlock == Some(indexPos) && Remaining(goal)
        invariant indexPos == |blocks| ==> dataBlock == None && goal == 0
        decreases if indexPos == |blocks| then 0 else indexPos + 1
      {
        if indexPos >= |blocks| {
          dataBlock := None;
          at := |all|;
          return;
        }
        indexPos := if indexPos == 0 then |blocks| else indexPos - 1;
        InitDataBlock();
        if dataBlock.Some? {
          assert BlockIs(blocks[indexPos], starts, all, indexPos);
          dataPos := if |blocks[indexPos]| == 0 then 0 else |blocks[indexPos]| - 1;
        }
      }
      assert BlockIs(blocks[indexPos], starts, all, indexPos);
      at := goal - 1;
    }

    /** `goal` entries are not after the data cursor, which is not valid if its block has none of them. */
    ghost predicate Remaining(goal: nat)
      requires Shape() && dataBlock == Some(indexPos)
      reads this
    {
      goal == starts[indexPos] + if dataPos < |blocks[indexPos]| then dataPos + 1 else 0
    }

    method Seek(t: InternalKey)
      requires Valid()
      modifies this
      ensures Valid() && at == LowerBound(all, t)
    {
      indexPos := SeekIndex(t);
      InitDataBlock();
      if dataBlock.Some? {
        dataPos := LowerBound(blocks[dataBlock.value], t);
      }
      SeekLands(blocks, index, starts, all, t, indexPos);
      SkipEmptyDataBlocksForward(LowerBound(all, t));
    }

    method SeekIndex(t: InternalKey) returns (b: nat)
      requires |index| == |blocks|
      ensures b <= |blocks| && (forall i :: 0 <= i < b ==> Less(index[i], t)) && (b < |blocks| ==> !Less(index[b], t))
    {
      b := 0;
      while b < |index| && Less(index[b], t)
        invariant b <= |index| && forall i :: 0 <= i < b ==> Less(index[i], t)
      {
        b := b + 1;
      }
    }

    method SeekToFirst()
      requires Valid()
      modifies this
      ensures Valid() && at == 0
    {
      indexPos := 0;
      InitDataBlock();
      if dataBlock.Some? {
        dataPos := 0;
      }
      SkipEmptyDataBlocksForward(0);
    }

    method SeekToLast()
      requires Valid()
      modifies this
      ensures Valid() && at == if all == [] then 0 else |all| - 1
    {
      indexPos := if blocks == [] then 0 else |blocks| - 1;
      InitDataBlock();
      if dataBlock.Some? {
        dataPos := if |blocks[indexPos]| == 0 then 0 else |blocks[indexPos]| - 1;
      }
      SkipEmptyDataBlocksBackward(|all|);
    }

    method Next()
      requires Valid() && HasCurrent()
      modifies this
      ensures Valid() && at == old(at) + 1
    {
      dataPos := dataPos + 1;
      SkipEmptyDataBlocksForward(at + 1);
    }

    method Prev()
      requires Valid() && HasCurrent()
      modifies this
      ensures Valid() && at == if old(at) == 0 then |all| else old(at) - 1
    {
      dataPos := if dataPos == 0 then |blocks[dataBlock.value]| else dataPos - 1;
      SkipEmptyDataBlocksBackward(at);
    }
  }

  /** The sought key is in the block the index leads to, or at the start of what follows it. */
  lemma SeekLands(blocks: seq<seq<Entry>>, index: seq<InternalKey>, starts: seq<nat>, all: seq<Entry>, t: InternalKey, b: nat)
    requires Splits(blocks, starts, all) && Indexes(index, starts, all) && |index| == |blocks| && Sorted(all)
    requires b <= |blocks| && (forall i :: 0 <= i < b ==> Less(index[i], t)) && (b < |blocks| ==> !Less(index[b], t))
    ensures b < |blocks| ==> LowerBound(all, t) == starts[b] + LowerBound(blocks[b], t)
    ensures b == |blocks| ==> LowerBound(all, t) == |all|
  {
    var p := LowerBound(all, t);
    forall i | 0 <= i < starts[b] && i < |all|
      ensures Less(all[i].key, t)
    {
      if b > 0 {
        assert i < starts[b - 1 + 1] <==> !Less(index[b - 1], all[i].key);
      }
    }
    if b < |blocks| {
      var block := blocks[b];
      assert BlockIs(block, starts, all, b);
      var q := LowerBound(block, t);
      var n := starts[b] + q;
      forall i | 0 <= i < n
        ensures Less(all[i].key, t)
      {
        assert i >= starts[b] ==> all[i] == block[i - starts[b]];
      }
      if n < starts[b + 1] {
        assert all[n] == block[q];
      } else if n < |all| {
        assert n < starts[b + 1] <==> !Less(index[b], all[n].key);
      }
    }
  }
}
