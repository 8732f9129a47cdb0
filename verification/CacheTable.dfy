/** The cache's own hash table (HandleTable in util/cache): chained buckets that double
    in number, so that it behaves as a map from keys to handles. */
module CacheTable {
  import opened Options
  import opened Bits

  /** Entries are told apart by hash and key bytes together. */
  datatype CacheKey = CacheKey(bytes: seq<bv8>, hash: nat)

  datatype Item = Item(key: CacheKey, h: nat)

  /** The number of buckets is a power of two, so that this is the remainder (Bits.MaskIsRemainder). */
  function Bucket(key: CacheKey, length: nat): (b: nat)
    requires length > 0
    ensures b < length
  {
    And(key.hash, length - 1)
  }

  /** Every bucket is used: a key's is the remainder of its hash. */
  lemma BucketIsRemainder(key: CacheKey, length: nat)
    requires PowerOfTwo(length)
    ensures Bucket(key, length) == key.hash % length
  {
    MaskIsRemainder(key.hash, length);
  }

  /** Chain b of n holds entries of the table, each key once. */
  ghost predicate ChainOf(chain: seq<Item>, b: nat, n: nat, contents: map<CacheKey, nat>)
    requires n > 0
  {
    && (forall i :: 0 <= i < |chain| ==>
          Bucket(chain[i].key, n) == b && chain[i].key in contents && contents[chain[i].key] == chain[i].h)
    && (forall i, j :: 0 <= i < j < |chain| ==> chain[i].key != chain[j].key)
  }

  ghost predicate Chained(list: seq<seq<Item>>, contents: map<CacheKey, nat>)
    ensures Chained(list, contents) ==> list != []
  {
    && list != []
    && (forall b :: 0 <= b < |list| ==> ChainOf(list[b], b, |list|, contents))
    && (forall k :: k in contents ==> Item(k, contents[k]) in list[Bucket(k, |list|)])
  }

  lemma SizeWith(m: map<CacheKey, nat>, k: CacheKey, h: nat)
    ensures |m[k := h]| == if k in m then |m| else |m| + 1
  {
    var m' := m[k := h];
    if k in m {
      assert m'.Keys == m.Keys;
    } else {
      assert m'.Keys == m.Keys + {k};
    }
    assert |m| == |m.Keys| && |m'| == |m'.Keys|;
  }

  lemma SizeWithout(m: map<CacheKey, nat>, k: CacheKey)
    requires k in m
    ensures |m - {k}| == |m| - 1
  {
    var m' := m - {k};
    assert m.Keys == m'.Keys + {k};
    assert |m| == |m.Keys| && |m'| == |m'.Keys|;
  }

  class HandleTable {
    var length: nat
    var elems: nat
    var list: seq<seq<Item>>            // list[b] is the chain of bucket b
    ghost var contents: map<CacheKey, nat>

    ghost predicate Valid()
      reads this
    {
      && length == |list| && PowerOfTwo(length) && Chained(list, contents)
      && elems == |contents| && elems <= length
    }

    constructor ()
      ensures Valid() && contents == map[]
    {
      length, elems, list, contents := 4, 0, seq(4, _ => []), map[];
      assert PowerOfTwo(4);
    }

    /** The place in the bucket's chain where the key is, or the chain's end. */
    method FindPointer(key: CacheKey) returns (b: nat, i: nat)
      requires list != [] && length == |list| && Chained(list, contents)
      ensures b == Bucket(key, length) && i <= |list[b]|
      ensures i < |list[b]| ==> key in contents && list[b][i] == Item(key, contents[key])
      ensures i == |list[b]| <==> key !in contents
    {
      b, i := Bucket(key, length), 0;
      while i < |list[b]| && list[b][i].key != key
        invariant i <= |list[b]| && forall j :: 0 <= j < i ==> list[b][j].key != key
      {
        i := i + 1;
      }
      assert ChainOf(list[b], b, |list|, contents);
      assert key in contents ==> Item(key, contents[key]) in list[b];
    }

    method Lookup(key: CacheKey) returns (h: Option<nat>)
      requires Valid()
      ensures h == if key in contents then Some(contents[key]) else None
    {
      var b, i := FindPointer(key);
      h := if i < |list[b]| then Some(list[b][i].h) else None;
    }

    /** Replaces and returns the old entry of the key, if any. */
    method Insert(key: CacheKey, h: nat) returns (old_: Option<nat>)
      requires Valid()
      modifies this
      ensures Valid() && contents == old(contents)[key := h]
      ensures old_ == if key in old(contents) then Some(old(contents)[key]) else None
    {
      hide Chained, Bucket, PowerOfTwo;
      var b, i := FindPointer(key);
      SizeWith(contents, key, h);
      if i < |list[b]| {
        old_ := Some(list[b][i].h);
        ChangedAt(list, contents, key, h, b, i);
        list := list[b := list[b][i := Item(key, h)]];
        contents := contents[key := h];
      } else {
        old_ := None;
        AppendedAt(list, contents, key, h, b);
        list := list[b := list[b] + [Item(key, h)]];
        contents := contents[key := h];
        elems := elems + 1;
        if elems > length {
          Resize();
        }
      }
    }

    /** Twice as many buckets until there is one for every entry. */
    method Resize()
      requires length == |list| && PowerOfTwo(length) && Chained(list, contents) && elems == |contents|
      modifies this`length, this`list
      ensures length == |list| && PowerOfTwo(length) && Chained(list, contents) && elems <= length
    {
      hide Chained, Bucket, Moved;
      var newLength := 4;
      assert PowerOfTwo(2) && PowerOfTwo(4);
      while newLength < elems
        invariant newLength > 0 && PowerOfTwo(newLength)
      {
        assert newLength * 2 / 2 == newLength;
        newLength := newLength * 2;
      }
      var newList: seq<seq<Item>> := seq(newLength, _ => []);
      ghost var moved: map<CacheKey, nat> := map[];
      var count := 0;
      NoneMoved(list, contents, newList);
      for b := 0 to |list|
        invariant list == old(list) && |newList| == newLength && Chained(newList, moved)
        invariant Moved(list, contents, moved, b, 0) && count == |moved|
      {
        for i := 0 to |list[b]|
          invariant list == old(list) && |newList| == newLength && Chained(newList, moved)
          invariant Moved(list, contents, moved, b, i) && count == |moved|
        {
          var item := list[b][i];
          MoveOne(list, contents, moved, b, i);
          PushedAt(newList, moved, item);
          SizeWith(moved, item.key, item.h);
          var to := Bucket(item.key, newLength);
          newList := newList[to := [item] + newList[to]];
          moved := moved[item.key := item.h];
          count := count + 1;
        }
        NextChain(list, contents, moved, b);
      }
      AllMoved(list, contents, moved);
      assert count == elems;
      list := newList;
      length := newLength;
    }

    method Remove(key: CacheKey) returns (h: Option<nat>)
      requires Valid()
      modifies this
      ensures Valid() && contents == old(contents) - {key}
      ensures h == if key in old(contents) then Some(old(contents)[key]) else None
    {
      hide Chained, Bucket, PowerOfTwo;
      var b, i := FindPointer(key);
      if i < |list[b]| {
        h := Some(list[b][i].h);
        SizeWithout(contents, key);
        RemovedAt(list, contents, key, b, i);
        list := list[b := list[b][..i] + list[b][i + 1..]];
        contents := contents - {key};
        elems := elems - 1;
      } else {
        h := None;
        assert contents - {key} == contents;
      }
    }
  }

  /** Resize has moved the chains before b, and the first i entries of chain b. */
  ghost predicate Moved(list: seq<seq<Item>>, contents: map<CacheKey, nat>, moved: map<CacheKey, nat>, b: nat, i: nat)
    requires list != [] && b <= |list|
  {
    && (forall k :: k in moved ==> k in contents && moved[k] == contents[k])
    && (forall k :: k in contents && Bucket(k, |list|) < b ==> k in moved)
    && (forall k :: k in contents && Bucket(k, |list|) > b ==> k !in moved)
    && (forall k :: k in contents && Bucket(k, |list|) == b && b < |list| ==> (k in moved <==> InFirst(list[b], i, k)))
  }

  ghost predicate InFirst(chain: seq<Item>, i: nat, k: CacheKey) {
    exists j :: 0 <= j < i && j < |chain| && chain[j].key == k
  }

  lemma NoneMoved(list: seq<seq<Item>>, contents: map<CacheKey, nat>, newList: seq<seq<Item>>)
    requires list != [] && newList != [] && forall b :: 0 <= b < |newList| ==> newList[b] == []
    ensures Chained(newList, map[]) && Moved(list, contents, map[], 0, 0)
  {
    hide Bucket;
  }

  /** The entry at (b, i) is moved. */
  lemma MoveOne(list: seq<seq<Item>>, contents: map<CacheKey, nat>, moved: map<CacheKey, nat>, b: nat, i: nat)
    requires Chained(list, contents) && b < |list| && i < |list[b]| && Moved(list, contents, moved, b, i)
    ensures var item := list[b][i]; item.key !in moved && Moved(list, contents, moved[item.key := item.h], b, i + 1)
  {
    hide Bucket;
    assert ChainOf(list[b], b, |list|, contents);
    var item := list[b][i];
    var moved' := moved[item.key := item.h];
    forall k
      ensures InFirst(list[b], i + 1, k) <==> InFirst(list[b], i, k) || k == item.key
    {
    }
    assert !InFirst(list[b], i, item.key);
  }

  lemma NextChain(list: seq<seq<Item>>, contents: map<CacheKey, nat>, moved: map<CacheKey, nat>, b: nat)
    requires Chained(list, contents) && b < |list| && Moved(list, contents, moved, b, |list[b]|)
    ensures Moved(list, contents, moved, b + 1, 0)
  {
    hide Bucket;
    forall k | k in contents && Bucket(k, |list|) == b
      ensures k in moved
    {
      var j :| 0 <= j < |list[b]| && list[b][j] == Item(k, contents[k]);
      assert InFirst(list[b], |list[b]|, k);
    }
  }

  lemma AllMoved(list: seq<seq<Item>>, contents: map<CacheKey, nat>, moved: map<CacheKey, nat>)
    requires Chained(list, contents) && Moved(list, contents, moved, |list|, 0)
    ensures moved == contents
  {
    assert forall k :: k in contents ==> Bucket(k, |list|) < |list|;
  }

  /** Pushing an entry onto the front of its chain. */
  lemma PushedAt(list: seq<seq<Item>>, contents: map<CacheKey, nat>, item: Item)
    requires Chained(list, contents) && item.key !in contents
    ensures var b := Bucket(item.key, |list|);
            Chained(list[b := [item] + list[b]], contents[item.key := item.h])
  {
    hide Bucket;
    var b := Bucket(item.key, |list|);
    var chain, contents' := [item] + list[b], contents[item.key := item.h];
    assert ChainOf(list[b], b, |list|, contents);
    forall k | k in contents' && Bucket(k, |list|) == b
      ensures Item(k, contents'[k]) in chain
    {
      assert chain[0] == item;
    }
    OneChain(list, contents, b, chain, contents');
  }

  /** A change of one chain and of one key of its bucket. */
  lemma OneChain(list: seq<seq<Item>>, contents: map<CacheKey, nat>, b: nat, chain: seq<Item>, contents': map<CacheKey, nat>)
    requires Chained(list, contents) && b < |list| && ChainOf(chain, b, |list|, contents')
    requires forall k :: k in contents' && Bucket(k, |list|) == b ==> Item(k, contents'[k]) in chain
    requires forall k :: Bucket(k, |list|) != b ==> (k in contents' <==> k in contents) && (k in contents ==> contents'[k] == contents[k])
    ensures Chained(list[b := chain], contents')
  {
    hide Bucket;
    var list' := list[b := chain];
    forall c | 0 <= c < |list'|
      ensures ChainOf(list'[c], c, |list'|, contents')
    {
      assert ChainOf(list[c], c, |list|, contents);
    }
  }

  lemma ChangedAt(list: seq<seq<Item>>, contents: map<CacheKey, nat>, key: CacheKey, h: nat, b: nat, i: nat)
    requires Chained(list, contents) && b == Bucket(key, |list|) && i < |list[b]| && list[b][i].key == key
    ensures Chained(list[b := list[b][i := Item(key, h)]], contents[key := h])
  {
    hide Bucket;
    var chain := list[b][i := Item(key, h)];
    var contents' := contents[key := h];
    assert ChainOf(list[b], b, |list|, contents);
    forall k | k in contents' && Bucket(k, |list|) == b
      ensures Item(k, contents'[k]) in chain
    {
      if k == key {
        assert chain[i] == Item(key, h);
      } else {
        var j :| 0 <= j < |list[b]| && list[b][j] == Item(k, contents[k]);
        assert chain[j] == Item(k, contents[k]);
      }
    }
    OneChain(list, contents, b, chain, contents');
  }

  lemma AppendedAt(list: seq<seq<Item>>, contents: map<CacheKey, nat>, key: CacheKey, h: nat, b: nat)
    requires Chained(list, contents) && b == Bucket(key, |list|) && key !in contents
    ensures Chained(list[b := list[b] + [Item(key, h)]], contents[key := h])
  {
    hide Bucket;
    var chain := list[b] + [Item(key, h)];
    var contents' := contents[key := h];
    assert ChainOf(list[b], b, |list|, contents);
    assert chain[|list[b]|] == Item(key, h);
    OneChain(list, contents, b, chain, contents');
  }

  lemma ChainWithout(chain: seq<Item>, b: nat, n: nat, contents: map<CacheKey, nat>, key: CacheKey, i: nat)
    requires n > 0 && ChainOf(chain, b, n, contents) && i < |chain| && chain[i].key == key
    ensures ChainOf(chain[..i] + chain[i + 1..], b, n, contents - {key})
  {
    hide Bucket;
    var short := chain[..i] + chain[i + 1..];
    forall j | 0 <= j < |short|
      ensures short[j] == chain[if j < i then j else j + 1]
    {
    }
  }

  lemma RemovedAt(list: seq<seq<Item>>, contents: map<CacheKey, nat>, key: CacheKey, b: nat, i: nat)
    requires Chained(list, contents) && b == Bucket(key, |list|) && i < |list[b]| && list[b][i].key == key
    ensures Chained(list[b := list[b][..i] + list[b][i + 1..]], contents - {key})
  {
    hide Bucket;
    var chain := list[b][..i] + list[b][i + 1..];
    var contents' := contents - {key};
    assert ChainOf(list[b], b, |list|, contents);
    ChainWithout(list[b], b, |list|, contents, key, i);
    forall k | k in contents' && Bucket(k, |list|) == b
      ensures Item(k, contents'[k]) in chain
    {
      var j :| 0 <= j < |list[b]| && list[b][j] == Item(k, contents[k]);
      assert chain[if j < i then j else j - 1] == list[b][j];
    }
    OneChain(list, contents, b, chain, contents');
  }
}
