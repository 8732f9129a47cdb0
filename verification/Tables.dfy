/** Sorted tables: how one is built (table/table_builder) and how a key is looked up in it
    (Table::InternalGet in table/table).  Index keys are shortened and filters may be wrong
    one way; a lookup still never misses its key. */
module Tables {
  import opened Options
  import opened Keys
  import opened Coding
  import opened Bytewise
  import opened Filters
  import Reads
  import VersionReads

  datatype RawEntry = RawEntry(key: RawKey, value: Value)

  /** The index maps a key at or after a block's last to the block's offset. */
  datatype IndexEntry = IndexEntry(key: RawKey, handle: nat)

  /** A finished file: data blocks by offset, the index block, and the filters, if any. */
  datatype Table = Table(file: map<nat, seq<RawEntry>>, index: seq<IndexEntry>, filters: Option<seq<Filter>>)

  /** InternalKeyComparator's order. */
  predicate KeyLess(a: RawKey, b: RawKey) {
    Less(Abstract(a), Abstract(b))
  }

  ghost predicate Ascending(es: seq<RawEntry>) {
    forall i, j :: 0 <= i < j < |es| ==> KeyLess(es[i].key, es[j].key)
  }

  /** Where one block ends and the next begins among the entries. */
  ghost predicate Cuts(cuts: seq<nat>, n: nat) {
    && cuts != [] && cuts[0] == 0 && cuts[|cuts| - 1] <= n
    && forall i, j :: 0 <= i < j < |cuts| ==> cuts[i] < cuts[j]
  }

  /** An index key for a block that ends with `last`: that key itself, or one whose user key is
      strictly between it and the user key of what follows. */
  ghost predicate Separates(last: RawKey, key: RawKey, next: Option<RawKey>) {
    key == last ||
    (Rank(last.user) < Rank(key.user) && (next.Some? ==> Rank(key.user) < Rank(next.value.user)))
  }

  /** The index key is as short as the comparator makes it: between two blocks a separator, behind the last one a
      successor. */
  ghost predicate Shortened(last: RawKey, key: RawKey, next: Option<RawKey>) {
    match next
    case Some(n) => IsSeparator(last, n, key)
    case None => IsSuccessor(last, key)
  }

  function KeyAt(es: seq<RawEntry>, i: nat): Option<RawKey> {
    if i < |es| then Some(es[i].key) else None
  }

  /** The blocks written so far hold the entries up to the last cut, at increasing offsets. */
  ghost predicate Written(file: map<nat, seq<RawEntry>>, es: seq<RawEntry>, cuts: seq<nat>, offsets: seq<nat>, end: nat)
    ensures Written(file, es, cuts, offsets, end) ==> Cuts(cuts, |es|) && cuts != [] && cuts[|cuts| - 1] <= |es| && |offsets| == |cuts| - 1
  {
    && Cuts(cuts, |es|) && |offsets| == |cuts| - 1
    && (forall b :: 0 <= b < |offsets| ==> offsets[b] < end && offsets[b] in file && file[offsets[b]] == es[cuts[b]..cuts[b + 1]])
  }

  ghost predicate Indexed(index: seq<IndexEntry>, es: seq<RawEntry>, cuts: seq<nat>, offsets: seq<nat>)
    requires Cuts(cuts, |es|) && |offsets| == |cuts| - 1
  {
    |index| <= |offsets| && forall b :: 0 <= b < |index| ==> IndexedAt(index[b], es, cuts, offsets, b)
  }

  ghost predicate IndexedAt(entry: IndexEntry, es: seq<RawEntry>, cuts: seq<nat>, offsets: seq<nat>, b: nat)
    requires Cuts(cuts, |es|) && |offsets| == |cuts| - 1 && b < |offsets|
  {
    && entry.handle == offsets[b]
    && Separates(es[cuts[b + 1] - 1].key, entry.key, KeyAt(es, cuts[b + 1]))
    && Shortened(es[cuts[b + 1] - 1].key, entry.key, KeyAt(es, cuts[b + 1]))
  }

  /** Entries lo to hi are in the filter for a block at this offset. */
  ghost predicate CoversAll(filter: FilterBlockBuilder, es: seq<RawEntry>, lo: nat, hi: nat, offset: nat)
    requires lo <= hi <= |es|
    reads filter
  {
    forall i :: lo <= i < hi ==> filter.Covers(offset, es[i].key.user)
  }

  class TableBuilder {
    const filter: FilterBlockBuilder?
    var file: map<nat, seq<RawEntry>>
    var offset: nat                     // where the next block will be written
    var dataBlock: seq<RawEntry>
    var index: seq<IndexEntry>
    var lastKey: RawKey
    var pending: bool                   // the last block has no index entry yet
    var pendingHandle: nat
    ghost var added: seq<RawEntry>
    ghost var cuts: seq<nat>
    ghost var offsets: seq<nat>

    ghost predicate Layout()
      reads this
    {
      && Written(file, added, cuts, offsets, offset) && dataBlock == added[cuts[|cuts| - 1]..]
      && Indexed(index, added, cuts, offsets)
      && |index| + (if pending then 1 else 0) == |offsets|
      && (pending ==> offsets != [] && dataBlock == [] && pendingHandle == offsets[|offsets| - 1])
      && (!pending && offsets != [] ==> dataBlock != [])
      && (added != [] ==> lastKey == added[|added| - 1].key)
    }

    ghost predicate Filtered(es: seq<RawEntry>, cuts: seq<nat>, offsets: seq<nat>, offset: nat)
      requires Cuts(cuts, |es|) && |offsets| == |cuts| - 1
      reads filter
    {
      filter != null ==>
        && |filter.filters| == offset / FILTER_BASE
        && (forall b :: 0 <= b < |offsets| ==> CoversAll(filter, es, cuts[b], cuts[b + 1], offsets[b]))
        && CoversAll(filter, es, cuts[|cuts| - 1], |es|, offset)
    }

    ghost predicate Valid()
      reads this, filter
    {
      Layout() && Filtered(added, cuts, offsets, offset) && Ascending(added)
    }

    constructor (filter: FilterBlockBuilder?)
      requires filter != null ==> filter.keys == [] && filter.filters == []
      ensures Valid() && added == [] && this.filter == filter
    {
      this.filter := filter;
      file, offset, dataBlock, index := map[], 0, [], [];
      lastKey := RawKey([], 0, TypeDeletion);
      pending, pendingHandle := false, 0;
      added, cuts, offsets := [], [0], [];
    }

    /** The key goes into the filter of the current block. */
    method FilterKey(e: RawEntry)
      requires Cuts(cuts, |added|) && |offsets| == |cuts| - 1 && Filtered(added, cuts, offsets, offset)
      modifies filter
      ensures Filtered(added + [e], cuts, offsets, offset)
    {
      if filter != null {
        hide FilterBlockBuilder.Covers;
        label Before:
        filter.AddKey(e.key.user);
        AddedIsCovered(filter, offset, e.key.user);
        forall b | 0 <= b < |offsets|
          ensures CoversAll(filter, added + [e], cuts[b], cuts[b + 1], offsets[b])
        {
          assert old@Before(CoversAll(filter, added, cuts[b], cuts[b + 1], offsets[b]));
        }
        assert old@Before(CoversAll(filter, added, cuts[|cuts| - 1], |added|, offset));
      }
    }

    /** The next block starts at `to`. */
    method FilterBlock(to: nat)
      requires Cuts(cuts, |added|) && |offsets| == |cuts| - 1 && Filtered(added, cuts, offsets, offset)
      requires cuts[|cuts| - 1] < |added| && offset < to
      modifies filter
      ensures Filtered(added, cuts + [|added|], offsets + [offset], to)
    {
      if filter != null {
        hide FilterBlockBuilder.Covers;
        Forward(offset, to);
        label Before:
        filter.StartBlock(to);
        forall b | 0 <= b < |offsets| + 1
          ensures CoversAll(filter, added, cuts[b], (cuts + [|added|])[b + 1], (offsets + [offset])[b])
        {
          assert old@Before(CoversAll(filter, added, cuts[b], (cuts + [|added|])[b + 1], (offsets + [offset])[b]));
        }
      }
    }

    /** The index entry of the last block, now that the next key is known. */
    method EmitIndexEntry(e: RawEntry)
      requires Layout() && (added != [] ==> KeyLess(added[|added| - 1].key, e.key))
      modifies this`index, this`lastKey, this`pending
      ensures Indexed(index, added + [e], cuts, offsets) && |index| == |offsets| && !pending
    {
      hide Written, Indexed, Separates, IsSeparator, IsSuccessor;
      if pending {
        AbstractOrder(lastKey, e.key);
        var key := FindInternalSeparator(lastKey, e.key);
        ShortenedSeparates(lastKey, key, e.key);
        IndexOne(index, added, e, cuts, offsets, key);
        lastKey := key;
        index := index + [IndexEntry(key, pendingHandle)];
        pending := false;
      } else {
        IndexSame(index, added, e, cuts, offsets);
      }
    }

    /** `full` says that the block has reached its size, and `size` how long it is in the file. */
    method Add(e: RawEntry, full: bool, size: nat)
      requires Valid() && size > 0
      requires added != [] ==> KeyLess(added[|added| - 1].key, e.key)
      modifies this, filter
      ensures Valid() && added == old(added) + [e]
    {
      hide Layout, Filtered, Ascending;
      AddToBlock(e);
      if full {
        Flush(size);
      }
    }

    method AddToBlock(e: RawEntry)
      requires Valid()
      requires added != [] ==> KeyLess(added[|added| - 1].key, e.key)
      modifies this, filter
      ensures Valid() && added == old(added) + [e]
    {
      hide Written, Indexed, Ascending, KeyLess, Filtered, Cuts;
      WrittenMore(file, added, e, cuts, offsets, offset);
      AscendingMore(added, e);
      EmitIndexEntry(e);
      FilterKey(e);
      Append(e);
    }

    method Append(e: RawEntry)
      requires Written(file, added + [e], cuts, offsets, offset) && cuts[|cuts| - 1] <= |added| && dataBlock == added[cuts[|cuts| - 1]..]
      requires Indexed(index, added + [e], cuts, offsets) && |index| == |offsets| && !pending
      requires Filtered(added + [e], cuts, offsets, offset) && Ascending(added + [e])
      modifies this`lastKey, this`dataBlock, this`added
      ensures Valid() && added == old(added) + [e]
    {
      hide Written, Indexed, Ascending, Filtered, Cuts;
      assert added[cuts[|cuts| - 1]..] + [e] == (added + [e])[cuts[|cuts| - 1]..];
      lastKey, dataBlock, added := e.key, dataBlock + [e], added + [e];
    }

    /** Write the data block, if it holds anything. */
    method Flush(size: nat)
      requires Valid() && size > 0
      modifies this`file, this`offset, this`dataBlock, this`pending, this`pendingHandle, this`cuts, this`offsets, filter
      ensures Valid() && dataBlock == []
    {
      hide Written, Indexed, Ascending, Filtered, Cuts;
      if dataBlock != [] {
        CutHere(file, added, cuts, offsets, offset, size, dataBlock, index);
        FilterBlock(offset + size);
        file := file[offset := dataBlock];
        pendingHandle, pending := offset, true;
        cuts, offsets := cuts + [|added|], offsets + [offset];
        dataBlock := [];
        offset := offset + size;
      }
    }

    /** Write what is left, and the filters and the index. */
    method Finish(size: nat) returns (t: Table)
      requires Valid() && size > 0
      modifies this, filter
      ensures added == old(added) && (filter != null <==> t.filters.Some?)
      ensures TableOf(t, if filter != null then filter.hash else (_ => 0), added, cuts, offsets)
    {
      hide Written, Indexed, Ascending, FilterBlockBuilder.Covers, MayHold, Separates, IsSeparator, IsSuccessor;
      Flush(size);
      var filters: Option<seq<Filter>> := None;
      if filter != null {
        label Before:
        var block := filter.Finish();
        filters := Some(block);
        forall b, i | 0 <= b < |offsets| && cuts[b] <= i < cuts[b + 1]
          ensures MayHold(filter.hash, block, offsets[b], added[i].key.user)
        {
          assert old@Before(CoversAll(filter, added, cuts[b], cuts[b + 1], offsets[b]));
        }
      }
      if pending {
        var key := FindInternalSuccessor(lastKey);
        SuccessorSeparates(lastKey, key);
        IndexLast(index, added, cuts, offsets, key);
        index := index + [IndexEntry(key, pendingHandle)];
        pending := false;
      }
      t := Table(file, index, filters);
    }
  }

  /** A table with all its entries, and filters that hold every user key. */
  ghost predicate TableOf(t: Table, hash: Hash, es: seq<RawEntry>, cuts: seq<nat>, offsets: seq<nat>) {
    && (exists end :: Written(t.file, es, cuts, offsets, end))
    && cuts[|cuts| - 1] == |es| && Indexed(t.index, es, cuts, offsets) && |t.index| == |offsets|
    && Ascending(es)
    && (t.filters.Some? ==> forall b, i :: 0 <= b < |offsets| && cuts[b] <= i < cuts[b + 1] ==>
          MayHold(hash, t.filters.value, offsets[b], es[i].key.user))
  }

  lemma AscendingMore(es: seq<RawEntry>, e: RawEntry)
    requires Ascending(es) && (es != [] ==> KeyLess(es[|es| - 1].key, e.key))
    ensures Ascending(es + [e])
  {
    forall i | 0 <= i < |es|
      ensures KeyLess(es[i].key, e.key)
    {
      assert i < |es| - 1 ==> KeyLess(es[i].key, es[|es| - 1].key);
    }
  }

  lemma WrittenMore(file: map<nat, seq<RawEntry>>, es: seq<RawEntry>, e: RawEntry, cuts: seq<nat>, offsets: seq<nat>, end: nat)
    requires Written(file, es, cuts, offsets, end)
    ensures Written(file, es + [e], cuts, offsets, end)
  {
    forall b | 0 <= b < |offsets|
      ensures (es + [e])[cuts[b]..cuts[b + 1]] == es[cuts[b]..cuts[b + 1]]
    {
    }
  }

  lemma IndexSame(index: seq<IndexEntry>, es: seq<RawEntry>, e: RawEntry, cuts: seq<nat>, offsets: seq<nat>)
    requires Cuts(cuts, |es|) && |offsets| == |cuts| - 1 && Indexed(index, es, cuts, offsets)
    requires index == [] || cuts[|cuts| - 1] < |es|
    ensures Indexed(index, es + [e], cuts, offsets)
  {
    forall b | 0 <= b < |index|
      ensures IndexedAt(index[b], es + [e], cuts, offsets, b)
    {
      assert IndexedAt(index[b], es, cuts, offsets, b);
      assert b + 1 < |cuts| - 1 ==> cuts[b + 1] < cuts[|cuts| - 1];
    }
  }

  lemma IndexOne(index: seq<IndexEntry>, es: seq<RawEntry>, e: RawEntry, cuts: seq<nat>, offsets: seq<nat>, key: RawKey)
    requires Cuts(cuts, |es|) && |offsets| == |cuts| - 1 && Indexed(index, es, cuts, offsets) && |index| + 1 == |offsets|
    requires cuts[|cuts| - 1] == |es| && Separates(es[|es| - 1].key, key, Some(e.key)) && Shortened(es[|es| - 1].key, key, Some(e.key))
    ensures Indexed(index + [IndexEntry(key, offsets[|offsets| - 1])], es + [e], cuts, offsets)
  {
    var index' := index + [IndexEntry(key, offsets[|offsets| - 1])];
    forall b | 0 <= b < |index'|
      ensures IndexedAt(index'[b], es + [e], cuts, offsets, b)
    {
      assert b < |index| ==> IndexedAt(index[b], es, cuts, offsets, b);
      assert b < |index| ==> cuts[b + 1] < cuts[|cuts| - 1];
    }
  }

  lemma IndexLast(index: seq<IndexEntry>, es: seq<RawEntry>, cuts: seq<nat>, offsets: seq<nat>, key: RawKey)
    requires Cuts(cuts, |es|) && |offsets| == |cuts| - 1 && Indexed(index, es, cuts, offsets) && |index| + 1 == |offsets|
    requires cuts[|cuts| - 1] == |es| && Separates(es[|es| - 1].key, key, None) && Shortened(es[|es| - 1].key, key, None)
    ensures Indexed(index + [IndexEntry(key, offsets[|offsets| - 1])], es, cuts, offsets)
  {
  }

  lemma ShortenedSeparates(last: RawKey, key: RawKey, next: RawKey)
    requires key == last || (Before(last.user, key.user) && Before(key.user, next.user))
    ensures Separates(last, key, Some(next))
  {
    RankOrder(last.user, key.user);
    RankOrder(key.user, next.user);
  }

  lemma SuccessorSeparates(last: RawKey, key: RawKey)
    requires key == last || Before(last.user, key.user)
    ensures Separates(last, key, None)
  {
    RankOrder(last.user, key.user);
  }

  lemma CutHere(file: map<nat, seq<RawEntry>>, es: seq<RawEntry>, cuts: seq<nat>, offsets: seq<nat>, end: nat, size: nat,
                block: seq<RawEntry>, index: seq<IndexEntry>)
    requires Written(file, es, cuts, offsets, end) && size > 0 && block == es[cuts[|cuts| - 1]..] && block != []
    requires Indexed(index, es, cuts, offsets)
    ensures Written(file[end := block], es, cuts + [|es|], offsets + [end], end + size)
    ensures Indexed(index, es, cuts + [|es|], offsets + [end])
  {
    var cuts', offsets' := cuts + [|es|], offsets + [end];
    forall b | 0 <= b < |offsets'|
      ensures offsets'[b] in file[end := block] && file[end := block][offsets'[b]] == es[cuts'[b]..cuts'[b + 1]]
    {
      if b == |offsets| {
        assert es[cuts[|cuts| - 1]..] == es[cuts[|cuts| - 1]..|es|];
      }
    }
  }

  lemma AddedIsCovered(filter: FilterBlockBuilder, offset: nat, key: Bytes)
    requires |filter.filters| == offset / FILTER_BASE && key in filter.keys
    ensures filter.Covers(offset, key)
  {
  }

  lemma Forward(a: nat, b: nat)
    requires a <= b
    ensures a / FILTER_BASE <= b / FILTER_BASE
  {
  }

  // ---------- lookups ----------

  /** The first entry not before k. */
  ghost predicate IsFirst(es: seq<RawEntry>, k: RawKey, p: nat) {
    && p <= |es| && (forall i :: 0 <= i < p ==> KeyLess(es[i].key, k))
    && (forall i :: p <= i < |es| ==> !KeyLess(es[i].key, k))
  }

  method SeekBlock(es: seq<RawEntry>, k: RawKey) returns (p: nat)
    requires Ascending(es)
    ensures IsFirst(es, k, p)
  {
    p := 0;
    while p < |es| && KeyLess(es[p].key, k)
      invariant p <= |es| && forall i :: 0 <= i < p ==> KeyLess(es[i].key, k)
    {
      p := p + 1;
    }
    forall i | p <= i < |es|
      ensures !KeyLess(es[i].key, k)
    {
      assert p < i ==> KeyLess(es[p].key, es[i].key);
    }
  }

  method SeekIndex(index: seq<IndexEntry>, k: RawKey) returns (b: nat)
    ensures b <= |index| && (forall i :: 0 <= i < b ==> KeyLess(index[i].key, k))
    ensures b < |index| ==> !KeyLess(index[b].key, k)
  {
    b := 0;
    while b < |index| && KeyLess(index[b].key, k)
      invariant b <= |index| && forall i :: 0 <= i < b ==> KeyLess(index[i].key, k)
    {
      b := b + 1;
    }
  }

  /** Index keys ascend too, as the index block needs. */
  lemma IndexAscends(t: Table, hash: Hash, es: seq<RawEntry>, cuts: seq<nat>, offsets: seq<nat>, b: nat)
    requires TableOf(t, hash, es, cuts, offsets) && b + 1 < |t.index|
    ensures KeyLess(t.index[b].key, t.index[b + 1].key)
  {
    assert IndexedAt(t.index[b], es, cuts, offsets, b) && IndexedAt(t.index[b + 1], es, cuts, offsets, b + 1);
    assert cuts[b + 1] < cuts[b + 2];
    assert KeyLess(es[cuts[b + 1] - 1].key, es[cuts[b + 1]].key);
    assert cuts[b + 1] < cuts[b + 2] - 1 ==> KeyLess(es[cuts[b + 1]].key, es[cuts[b + 2] - 1].key);
  }

  /** What a lookup may report: the first entry not before k, and nothing only if that entry has another user key. */
  ghost predicate Answers(es: seq<RawEntry>, k: RawKey, r: Option<RawEntry>) {
    exists p: nat :: AnswersAt(es, k, r, p)
  }

  ghost predicate AnswersAt(es: seq<RawEntry>, k: RawKey, r: Option<RawEntry>, p: nat) {
    IsFirst(es, k, p) && match r
      case Some(e) => p < |es| && e == es[p]
      case None => p == |es| || es[p].key.user != k.user
  }

  /** Everything before block b is before k. */
  lemma BlocksBefore(t: Table, hash: Hash, es: seq<RawEntry>, cuts: seq<nat>, offsets: seq<nat>, k: RawKey, b: nat)
    requires TableOf(t, hash, es, cuts, offsets) && b <= |t.index|
    requires forall i :: 0 <= i < b ==> KeyLess(t.index[i].key, k)
    ensures forall i :: 0 <= i < cuts[b] ==> KeyLess(es[i].key, k)
  {
    if b > 0 {
      assert IndexedAt(t.index[b - 1], es, cuts, offsets, b - 1);
      assert cuts[b - 1] < cuts[b];
      var last := es[cuts[b] - 1].key;
      assert KeyLess(last, k);
      forall i | 0 <= i < cuts[b]
        ensures KeyLess(es[i].key, k)
      {
        assert i < cuts[b] - 1 ==> KeyLess(es[i].key, last);
      }
    }
  }

  /** A key past a block but not past its index key has a user key that no later entry has. */
  lemma BetweenBlocks(t: Table, hash: Hash, es: seq<RawEntry>, cuts: seq<nat>, offsets: seq<nat>, k: RawKey, b: nat)
    requires TableOf(t, hash, es, cuts, offsets) && b < |t.index| && !KeyLess(t.index[b].key, k)
    requires forall i :: 0 <= i < cuts[b + 1] ==> KeyLess(es[i].key, k)
    ensures IsFirst(es, k, cuts[b + 1])
    ensures cuts[b + 1] < |es| ==> es[cuts[b + 1]].key.user != k.user
  {
    assert IndexedAt(t.index[b], es, cuts, offsets, b);
    assert cuts[b] < cuts[b + 1];
    assert KeyLess(es[cuts[b + 1] - 1].key, k);
    var n := cuts[b + 1];
    forall i | n <= i < |es|
      ensures !KeyLess(es[i].key, k)
    {
      assert n < i ==> KeyLess(es[n].key, es[i].key);
    }
  }

  lemma InBlock(t: Table, hash: Hash, es: seq<RawEntry>, cuts: seq<nat>, offsets: seq<nat>, k: RawKey, b: nat, j: nat)
    requires TableOf(t, hash, es, cuts, offsets) && b < |t.index|
    requires forall i :: 0 <= i < cuts[b] ==> KeyLess(es[i].key, k)
    requires cuts[b] < cuts[b + 1] && IsFirst(es[cuts[b]..cuts[b + 1]], k, j)
    ensures forall i :: 0 <= i < cuts[b] + j ==> KeyLess(es[i].key, k)
    ensures cuts[b] + j < cuts[b + 1] ==> IsFirst(es, k, cuts[b] + j)
  {
    var block, p := es[cuts[b]..cuts[b + 1]], cuts[b] + j;
    forall i | 0 <= i < p
      ensures KeyLess(es[i].key, k)
    {
      assert i >= cuts[b] ==> es[i] == block[i - cuts[b]];
    }
    if p < cuts[b + 1] {
      assert es[p] == block[j];
      forall i | p <= i < |es|
        ensures !KeyLess(es[i].key, k)
      {
        assert p < i ==> KeyLess(es[p].key, es[i].key);
      }
    }
  }

  lemma BlockAscends(es: seq<RawEntry>, lo: nat, hi: nat)
    requires Ascending(es) && lo <= hi <= |es|
    ensures Ascending(es[lo..hi])
  {
  }

  /** Table::InternalGet. */
  method InternalGet(t: Table, hash: Hash, k: RawKey, ghost es: seq<RawEntry>, ghost cuts: seq<nat>, ghost offsets: seq<nat>)
    returns (r: Option<RawEntry>)
    requires TableOf(t, hash, es, cuts, offsets)
    ensures Answers(es, k, r)
  {
    hide Separates, KeyLess, Ascending, Indexed, MayHold;
    r := None;
    var b := SeekIndex(t.index, k);
    BlocksBefore(t, hash, es, cuts, offsets, k, b);
    if b < |t.index| {
      var handle := t.index[b].handle;
      HandleIs(t, hash, es, cuts, offsets, b);
      var may := true;
      if t.filters.Some? {
        may := BlockKeyMayMatch(hash, t.filters.value, handle, k.user);
      }
      BlockAscends(es, cuts[b], cuts[b + 1]);
      var block := t.file[handle];
      var j := SeekBlock(block, k);
      InBlock(t, hash, es, cuts, offsets, k, b, j);
      ghost var p := cuts[b] + j;
      if j < |block| {
        if may {
          r := Some(block[j]);
          assert block[j] == es[p];
        } else {
          RuledOut(t, hash, es, cuts, offsets, k, b, p);
        }
      } else {
        BetweenBlocks(t, hash, es, cuts, offsets, k, b);
      }
      assert AnswersAt(es, k, r, p);
    } else {
      assert AnswersAt(es, k, r, |es|);
    }
  }

  lemma HandleIs(t: Table, hash: Hash, es: seq<RawEntry>, cuts: seq<nat>, offsets: seq<nat>, b: nat)
    requires TableOf(t, hash, es, cuts, offsets) && b < |t.index|
    ensures t.index[b].handle == offsets[b] && offsets[b] in t.file && cuts[b] < cuts[b + 1]
    ensures t.file[offsets[b]] == es[cuts[b]..cuts[b + 1]]
  {
    assert IndexedAt(t.index[b], es, cuts, offsets, b);
  }

  /** The filter never rules out a user key that the block has. */
  lemma RuledOut(t: Table, hash: Hash, es: seq<RawEntry>, cuts: seq<nat>, offsets: seq<nat>, k: RawKey, b: nat, p: nat)
    requires TableOf(t, hash, es, cuts, offsets) && b < |t.index| && t.filters.Some?
    requires !MayHold(hash, t.filters.value, offsets[b], k.user) && cuts[b] <= p < cuts[b + 1]
    ensures es[p].key.user != k.user
  {
  }

  /** The entries as the rest of this project sees them. */
  ghost function View(es: seq<RawEntry>): set<Entry> {
    set e | e in es :: Entry(Abstract(e.key), e.value)
  }

  /** TableCache::Get and its SaveValue callback: a lookup of a user key at a snapshot reports what the table holds for it. */
  method Get(t: Table, hash: Hash, u: Bytes, s: SequenceNumber, ghost es: seq<RawEntry>, ghost cuts: seq<nat>, ghost offsets: seq<nat>)
    returns (r: VersionReads.GetResult)
    requires TableOf(t, hash, es, cuts, offsets)
    ensures VersionReads.Reports(View(es), Rank(u), s, r)
  {
    var k := RawKey(u, s, TypeValue);
    var found := InternalGet(t, hash, k, es, cuts, offsets);
    ghost var p: nat :| AnswersAt(es, k, found, p);
    VisibleFrom(es, u, s, p);
    if found.None? || found.value.key.user != u {
      return VersionReads.Missing;
    }
    assert Entry(Abstract(es[p].key), es[p].value) in View(es);
    r := if found.value.key.typ.TypeValue? then VersionReads.Found(found.value.value) else VersionReads.Deleted;
  }

  lemma VisibleFrom(es: seq<RawEntry>, u: Bytes, s: SequenceNumber, p: nat)
    requires Ascending(es) && IsFirst(es, RawKey(u, s, TypeValue), p)
    ensures p == |es| || es[p].key.user != u ==> !Reads.AnyVisible(View(es), Rank(u), s)
    ensures p < |es| && es[p].key.user == u ==> Reads.Newest(View(es), Rank(u), s, Entry(Abstract(es[p].key), es[p].value))
  {
    forall o | o in View(es) && Reads.Visible(o, Rank(u), s)
      ensures p < |es| && es[p].key.user == u && o.key.sn <= es[p].key.sn
    {
      var i :| 0 <= i < |es| && o == Entry(Abstract(es[i].key), es[i].value);
      NoneNewer(es, u, s, p, i);
    }
    if p < |es| && es[p].key.user == u {
      assert Entry(Abstract(es[p].key), es[p].value) in View(es);
    }
  }

  lemma NoneNewer(es: seq<RawEntry>, u: Bytes, s: SequenceNumber, p: nat, i: nat)
    requires Ascending(es) && IsFirst(es, RawKey(u, s, TypeValue), p) && i < |es|
    requires Rank(es[i].key.user) == Rank(u) && es[i].key.sn <= s
    ensures p <= i && es[p].key.user == u && es[i].key.sn <= es[p].key.sn
  {
    hide Rank;
    assert !KeyLess(es[i].key, RawKey(u, s, TypeValue));
    assert p <= i;
    assert p < i ==> KeyLess(es[p].key, es[i].key);
    assert !KeyLess(es[p].key, RawKey(u, s, TypeValue));
    RankOrder(es[p].key.user, u);
  }
}
