/** One shard of the LRU cache (LRUCache in util/cache).

    Handles are numbers; 0 is the head of the LRU list and 1 the head of the list
    of entries in use.  `clients` counts the handles that callers hold, and
    `deleted` logs the deleter calls; both belong to the specification. */
module Cache {
  import opened Options
  import opened Keys
  import opened CacheTable
  import opened Rings

  const LRU: nat := 0
  const IN_USE: nat := 1

  /** What a handle holds. */
  datatype Info = Info(key: CacheKey, charge: nat)

  ghost function Charge(items: seq<Info>, inCache: seq<bool>): nat
    requires |items| == |inCache|
  {
    if items == [] then 0
    else
      var n := |items| - 1;
      Charge(items[..n], inCache[..n]) + if inCache[n] then items[n].charge else 0
  }

  ghost predicate Lists(next: seq<nat>, prev: seq<nat>, lru: seq<nat>, inUse: seq<nat>) {
    Ring(next, prev, LRU, lru) && Ring(next, prev, IN_USE, inUse) && Apart(LRU, lru, IN_USE, inUse)
  }

  /** References: the callers' and the cache's own; `owed` has one more that is about to be dropped. */
  ghost predicate Counts(refs: seq<nat>, inCache: seq<bool>, clients: seq<nat>, owed: Option<nat>) {
    && |refs| == |inCache| == |clients|
    && forall e :: 2 <= e < |refs| ==>
         refs[e] == clients[e] + (if inCache[e] then 1 else 0) + (if owed == Some(e) then 1 else 0)
  }

  /** Cached entries without callers are on the LRU list, the others on the list of those in use. */
  ghost predicate Placed(refs: seq<nat>, inCache: seq<bool>, lru: seq<nat>, inUse: seq<nat>) {
    && |refs| == |inCache|
    && (forall e :: e in lru ==> 2 <= e < |refs|) && (forall e :: e in inUse ==> 2 <= e < |refs|)
    && (forall e :: 2 <= e < |refs| ==> (e in lru <==> inCache[e] && refs[e] == 1))
    && (forall e :: 2 <= e < |refs| ==> (e in inUse <==> inCache[e] && refs[e] >= 2))
  }

  /** The table maps the keys of the cached entries to them; `loose` is cached but no longer, or not
      yet, in the table. */
  ghost predicate Tabled(items: seq<Info>, inCache: seq<bool>, contents: map<CacheKey, nat>, loose: Option<nat>) {
    && |items| == |inCache|
    && (forall k :: k in contents ==> 2 <= contents[k] < |items| && items[contents[k]].key == k
                                      && inCache[contents[k]] && loose != Some(contents[k]))
    && (forall e :: 2 <= e < |items| && inCache[e] && loose != Some(e) ==> items[e].key in contents && contents[items[e].key] == e)
    && (loose.Some? ==> 2 <= loose.value < |items| && inCache[loose.value])
  }

  /** The deleter has run for exactly the entries without references, once each. */
  ghost predicate Buried(refs: seq<nat>, deleted: seq<nat>) {
    && NoRepeats(deleted)
    && (forall e :: e in deleted ==> 2 <= e < |refs|)
    && (forall e :: 2 <= e < |refs| ==> (e in deleted <==> refs[e] == 0))
  }

  lemma {:induction false} ChargeChange(items: seq<Info>, inCache: seq<bool>, e: nat, b: bool)
    requires |items| == |inCache| && e < |items|
    ensures Charge(items, inCache[e := b]) + (if inCache[e] then items[e].charge else 0)
            == Charge(items, inCache) + if b then items[e].charge else 0
  {
    var n := |items| - 1;
    if e < n {
      ChargeChange(items[..n], inCache[..n], e, b);
      assert inCache[e := b][..n] == inCache[..n][e := b];
    } else {
      assert inCache[e := b][..n] == inCache[..n];
    }
  }

  lemma ChargeGrow(items: seq<Info>, inCache: seq<bool>, x: Info)
    requires |items| == |inCache|
    ensures Charge(items + [x], inCache + [false]) == Charge(items, inCache)
  {
    assert (items + [x])[..|items|] == items && (inCache + [false])[..|items|] == inCache;
  }

  /** The list without e. */
  ghost function Minus(list: seq<nat>, e: nat): (r: seq<nat>)
    ensures e !in list ==> r == list
  {
    if list == [] then [] else if list[0] == e then list[1..] else [list[0]] + Minus(list[1..], e)
  }

  lemma {:induction false} MinusAt(list: seq<nat>, e: nat) returns (p: nat)
    requires e in list
    ensures p < |list| && list[p] == e && Minus(list, e) == Without(list, p)
  {
    if list[0] == e {
      p := 0;
    } else {
      var q := MinusAt(list[1..], e);
      p := q + 1;
      assert Without(list, p) == [list[0]] + Without(list[1..], q);
    }
  }

  lemma {:induction false} MinusHolds(list: seq<nat>, e: nat, x: nat)
    requires NoRepeats(list)
    ensures x in Minus(list, e) <==> x in list && x != e
  {
    if list != [] && list[0] != e {
      MinusHolds(list[1..], e, x);
      assert list == [list[0]] + list[1..];
    } else if list != [] {
      assert list == [list[0]] + list[1..];
      if x in list[1..] {
        var i :| 0 <= i < |list[1..]| && list[1..][i] == x;
        assert list[i + 1] != list[0];
      }
    }
  }

  // ---- what each change does to the parts of the state ----

  lemma Unlisted(next: seq<nat>, prev: seq<nat>, lru: seq<nat>, inUse: seq<nat>, e: nat)
    requires Lists(next, prev, lru, inUse) && (e in lru || e in inUse)
    ensures CanUnlink(next, prev, e)
    ensures Lists(UnlinkNext(next, prev, e), UnlinkPrev(next, prev, e), Minus(lru, e), Minus(inUse, e))
  {
    if e in lru {
      var p := MinusAt(lru, e);
      Unlink(next, prev, LRU, lru, p);
      UnlinkApart(next, prev, LRU, lru, p, IN_USE, inUse);
    } else {
      var p := MinusAt(inUse, e);
      Unlink(next, prev, IN_USE, inUse, p);
      UnlinkApart(next, prev, IN_USE, inUse, p, LRU, lru);
    }
  }

  lemma Listed(next: seq<nat>, prev: seq<nat>, lru: seq<nat>, inUse: seq<nat>, head: nat, e: nat)
    requires Lists(next, prev, lru, inUse) && head <= 1 && 2 <= e < |next| && e !in lru && e !in inUse
    ensures prev[head] < |next| == |prev|
    ensures Lists(AppendNext(next, prev, head, e), AppendPrev(next, prev, head, e),
                  if head == LRU then lru + [e] else lru, if head == IN_USE then inUse + [e] else inUse)
  {
    if head == LRU {
      Append(next, prev, LRU, lru, e);
      AppendApart(next, prev, LRU, lru, e, IN_USE, inUse);
    } else {
      Append(next, prev, IN_USE, inUse, e);
      AppendApart(next, prev, IN_USE, inUse, e, LRU, lru);
    }
  }

  lemma ListsDistinct(next: seq<nat>, prev: seq<nat>, lru: seq<nat>, inUse: seq<nat>)
    requires Lists(next, prev, lru, inUse)
    ensures NoRepeats(lru) && NoRepeats(inUse) && forall x :: x in lru ==> x !in inUse
  {
  }

  lemma {:induction false} NothingCached(items: seq<Info>, inCache: seq<bool>)
    requires |items| == |inCache| && forall i :: 0 <= i < |inCache| ==> !inCache[i]
    ensures Charge(items, inCache) == 0
  {
    if items != [] {
      NothingCached(items[..|items| - 1], inCache[..|items| - 1]);
    }
  }

  lemma OnList(refs: seq<nat>, inCache: seq<bool>, lru: seq<nat>, inUse: seq<nat>, e: nat)
    requires Placed(refs, inCache, lru, inUse) && 2 <= e < |refs|
    ensures e in lru <==> inCache[e] && refs[e] == 1
    ensures e in inUse <==> inCache[e] && refs[e] >= 2
  {
  }

  lemma Referenced(refs: seq<nat>, inCache: seq<bool>, clients: seq<nat>, lru: seq<nat>, inUse: seq<nat>, deleted: seq<nat>, e: nat)
    requires Counts(refs, inCache, clients, None) && Placed(refs, inCache, lru, inUse) && Buried(refs, deleted) && NoRepeats(lru)
    requires 2 <= e < |refs| && refs[e] > 0
    ensures var refs' := refs[e := refs[e] + 1];
            && Counts(refs', inCache, clients[e := clients[e] + 1], None)
            && Placed(refs', inCache, Minus(lru, e), if e in lru then inUse + [e] else inUse)
            && Buried(refs', deleted)
  {
    hide Buried, Minus, NoRepeats;
    ReferencedPlaced(refs, inCache, lru, inUse, e);
    StillBuried(refs, deleted, e, refs[e] + 1);
  }

  lemma ReferencedPlaced(refs: seq<nat>, inCache: seq<bool>, lru: seq<nat>, inUse: seq<nat>, e: nat)
    requires Placed(refs, inCache, lru, inUse) && NoRepeats(lru) && 2 <= e < |refs| && refs[e] > 0
    ensures Placed(refs[e := refs[e] + 1], inCache, Minus(lru, e), if e in lru then inUse + [e] else inUse)
  {
    forall x
      ensures x in Minus(lru, e) <==> x in lru && x != e
    {
      MinusHolds(lru, e, x);
    }
    hide Minus, NoRepeats;
    var inUse' := if e in lru then inUse + [e] else inUse;
    assert forall x :: x in inUse' <==> x in inUse || (x == e && e in lru);
  }

  lemma StillBuried(refs: seq<nat>, deleted: seq<nat>, e: nat, n: nat)
    requires Buried(refs, deleted) && 2 <= e < |refs| && refs[e] > 0 && n > 0
    ensures Buried(refs[e := n], deleted)
  {
  }

  /** A reference is dropped. */
  lemma Dropped(refs: seq<nat>, inCache: seq<bool>, clients: seq<nat>, lru: seq<nat>, inUse: seq<nat>, deleted: seq<nat>, e: nat)
    requires Counts(refs, inCache, clients, Some(e)) && Placed(refs, inCache, lru, inUse) && Buried(refs, deleted)
    requires 2 <= e < |refs| && NoRepeats(inUse)
    ensures refs[e] > 0 && (refs[e] == 1 ==> !inCache[e])
    ensures inCache[e] && refs[e] == 2 ==> e in inUse && e !in lru
    ensures var refs' := refs[e := refs[e] - 1];
            var idle := inCache[e] && refs[e] == 2;
            && Counts(refs', inCache, clients, None)
            && Placed(refs', inCache, if idle then lru + [e] else lru, if idle then Minus(inUse, e) else inUse)
            && Buried(refs', if refs[e] == 1 then deleted + [e] else deleted)
  {
    hide Minus;
    forall x
      ensures x in Minus(inUse, e) <==> x in inUse && x != e
    {
      MinusHolds(inUse, e, x);
    }
    assert e in deleted <==> refs[e] == 0;
  }

  /** An entry that is out of the table leaves the lists; the cache's reference is still to be dropped. */
  lemma Uncached(items: seq<Info>, refs: seq<nat>, inCache: seq<bool>, clients: seq<nat>, lru: seq<nat>, inUse: seq<nat>,
                 contents: map<CacheKey, nat>, e: nat)
    requires Counts(refs, inCache, clients, None) && Placed(refs, inCache, lru, inUse) && Tabled(items, inCache, contents, Some(e))
    requires |items| == |refs| && NoRepeats(lru) && NoRepeats(inUse)
    ensures 2 <= e < |refs| && (e in lru || e in inUse)
    ensures var inCache' := inCache[e := false];
            && Counts(refs, inCache', clients, Some(e)) && Placed(refs, inCache', Minus(lru, e), Minus(inUse, e))
            && Tabled(items, inCache', contents, None)
  {
    hide Minus;
    forall x
      ensures x in Minus(lru, e) <==> x in lru && x != e
      ensures x in Minus(inUse, e) <==> x in inUse && x != e
    {
      MinusHolds(lru, e, x);
      MinusHolds(inUse, e, x);
    }
    assert e in lru <==> inCache[e] && refs[e] == 1;
  }

  function Find(contents: map<CacheKey, nat>, key: CacheKey): Option<nat> {
    if key in contents then Some(contents[key]) else None
  }

  lemma OutOfTable(items: seq<Info>, inCache: seq<bool>, contents: map<CacheKey, nat>, key: CacheKey)
    requires Tabled(items, inCache, contents, None)
    ensures Tabled(items, inCache, contents - {key}, Find(contents, key))
  {
  }

  lemma IntoTable(items: seq<Info>, inCache: seq<bool>, contents: map<CacheKey, nat>, e: nat)
    requires Tabled(items, inCache, contents, Some(e))
    ensures Tabled(items, inCache, contents[items[e].key := e], Find(contents, items[e].key))
  {
  }

  class LRUCache {
    const capacity: nat
    var usage: nat
    var next: seq<nat>
    var prev: seq<nat>
    var items: seq<Info>
    var refs: seq<nat>
    var inCache: seq<bool>
    const table: HandleTable
    ghost var lru: seq<nat>             // oldest first
    ghost var inUse: seq<nat>
    ghost var clients: seq<nat>
    ghost var deleted: seq<nat>

    ghost predicate State(owed: Option<nat>, loose: Option<nat>)
      reads this, table
    {
      && table.Valid() && 2 <= |items| == |next| == |refs| == |inCache| == |clients| && !inCache[0] && !inCache[1]
      && Lists(next, prev, lru, inUse)
      && Counts(refs, inCache, clients, owed)
      && Placed(refs, inCache, lru, inUse)
      && Tabled(items, inCache, table.contents, loose)
      && Buried(refs, deleted)
      && usage == Charge(items, inCache)
    }

    ghost predicate Valid()
      reads this, table
    {
      State(None, None)
    }

    constructor (capacity: nat)
      ensures Valid() && this.capacity == capacity && usage == 0
      ensures fresh(table) && table.contents == map[] && lru == [] && inUse == [] && deleted == [] && |items| == 2
    {
      this.capacity := capacity;
      usage := 0;
      next, prev := [LRU, IN_USE], [LRU, IN_USE];
      var none := Info(CacheKey([], 0), 0);
      items, refs, inCache := [none, none], [0, 0], [false, false];
      lru, inUse, clients, deleted := [], [], [0, 0], [];
      table := new HandleTable();
      new;
      NothingCached(items, inCache);
    }

    method LRURemove(e: nat)
      requires Lists(next, prev, lru, inUse) && (e in lru || e in inUse)
      modifies this`next, this`prev, this`lru, this`inUse
      ensures Lists(next, prev, lru, inUse) && |next| == |old(next)|
      ensures lru == Minus(old(lru), e) && inUse == Minus(old(inUse), e)
    {
      Unlisted(next, prev, lru, inUse, e);
      next, prev := UnlinkNext(next, prev, e), UnlinkPrev(next, prev, e);
      lru, inUse := Minus(lru, e), Minus(inUse, e);
    }

    /** e becomes the newest entry of the list. */
    method LRUAppend(head: nat, e: nat)
      requires Lists(next, prev, lru, inUse) && head <= 1 && 2 <= e < |next| && e !in lru && e !in inUse
      modifies this`next, this`prev, this`lru, this`inUse
      ensures Lists(next, prev, lru, inUse) && |next| == |old(next)|
      ensures lru == (if head == LRU then old(lru) + [e] else old(lru))
      ensures inUse == if head == IN_USE then old(inUse) + [e] else old(inUse)
    {
      Listed(next, prev, lru, inUse, head, e);
      next, prev := AppendNext(next, prev, head, e), AppendPrev(next, prev, head, e);
      if head == LRU {
        lru := lru + [e];
      } else {
        inUse := inUse + [e];
      }
    }

    /** A caller gets another reference to a live entry. */
    method Ref(e: nat)
      requires Valid() && 2 <= e < |refs| && refs[e] > 0
      modifies this`next, this`prev, this`lru, this`inUse, this`refs, this`clients
      ensures Valid() && |refs| == |old(refs)| && clients == old(clients)[e := old(clients)[e] + 1]
      ensures lru == Minus(old(lru), e) && inUse == if e in old(lru) then old(inUse) + [e] else old(inUse)
    {
      hide Lists, Counts, Placed, Tabled, Buried, Charge, HandleTable.Valid;
      ListsDistinct(next, prev, lru, inUse);
      OnList(refs, inCache, lru, inUse, e);
      Referenced(refs, inCache, clients, lru, inUse, deleted, e);
      if refs[e] == 1 && inCache[e] {
        LRURemove(e);
        MinusHolds(old(lru), e, e);
        LRUAppend(IN_USE, e);
      }
      refs := refs[e := refs[e] + 1];
      clients := clients[e := clients[e] + 1];
    }

    /** The last reference runs the deleter; the last caller's reference makes a cached entry idle. */
    method Unref(e: nat)
      requires State(Some(e), None) && 2 <= e < |refs|
      modifies this`next, this`prev, this`lru, this`inUse, this`refs, this`deleted
      ensures Valid() && |refs| == |old(refs)|
      ensures refs == old(refs)[e := old(refs)[e] - 1] && old(refs)[e] > 0
      ensures deleted == if refs[e] == 0 then old(deleted) + [e] else old(deleted)
      ensures var idle := inCache[e] && refs[e] == 1;
              && lru == (if idle then old(lru) + [e] else old(lru))
              && inUse == (if idle then Minus(old(inUse), e) else old(inUse))
    {
      hide Lists, Counts, Placed, Tabled, Buried, Charge, HandleTable.Valid;
      ListsDistinct(next, prev, lru, inUse);
      Dropped(refs, inCache, clients, lru, inUse, deleted, e);
      refs := refs[e := refs[e] - 1];
      if refs[e] == 0 {
        deleted := deleted + [e];
      } else if inCache[e] && refs[e] == 1 {
        LRURemove(e);
        MinusHolds(old(inUse), e, e);
        LRUAppend(LRU, e);
      }
    }

    /** Finish removing an entry that has just been taken out of the table. */
    method FinishErase(h: Option<nat>) returns (erased: bool)
      requires State(None, h)
      modifies this`next, this`prev, this`lru, this`inUse, this`refs, this`deleted, this`inCache, this`usage
      ensures Valid() && erased == h.Some? && |items| == |old(refs)|
      ensures h.None? ==> lru == old(lru) && inUse == old(inUse) && deleted == old(deleted) && usage == old(usage) && inCache == old(inCache)
      ensures h.Some? ==>
                && 2 <= h.value < |items| && inCache == old(inCache)[h.value := false]
                && usage == old(usage) - items[h.value].charge
                && lru == Minus(old(lru), h.value) && inUse == Minus(old(inUse), h.value)
                && deleted == if clients[h.value] == 0 then old(deleted) + [h.value] else old(deleted)
    {
      hide Lists, Counts, Placed, Tabled, Buried, Charge, HandleTable.Valid;
      if h.Some? {
        var e := h.value;
        ListsDistinct(next, prev, lru, inUse);
        Uncached(items, refs, inCache, clients, lru, inUse, table.contents, e);
        ChargeChange(items, inCache, e, false);
        LooseIsCached(items, inCache, table.contents, e);
        LRURemove(e);
        inCache := inCache[e := false];
        usage := usage - items[e].charge;
        OwedCount(refs, inCache, clients, e);
        Unref(e);
      }
      erased := h.Some?;
    }

    method Lookup(key: CacheKey) returns (h: Option<nat>)
      requires Valid()
      modifies this`next, this`prev, this`lru, this`inUse, this`refs, this`clients
      ensures Valid() && h == Find(table.contents, key)
      ensures h.None? ==> clients == old(clients) && lru == old(lru)
      ensures h.Some? ==> h.value < |old(clients)| && clients == old(clients)[h.value := old(clients)[h.value] + 1] && lru == Minus(old(lru), h.value)
    {
      hide Lists, Counts, Placed, Tabled, Buried, Charge, HandleTable.Valid;
      h := table.Lookup(key);
      if h.Some? {
        TableLive(items, refs, inCache, clients, table.contents, key);
        Ref(h.value);
      }
    }

    method Release(h: nat)
      requires Valid() && 2 <= h < |clients| && clients[h] > 0
      modifies this`next, this`prev, this`lru, this`inUse, this`refs, this`clients, this`deleted
      ensures Valid() && clients == old(clients)[h := old(clients)[h] - 1] && inCache == old(inCache)
      ensures deleted == if clients[h] == 0 && !inCache[h] then old(deleted) + [h] else old(deleted)
      ensures lru == if clients[h] == 0 && inCache[h] then old(lru) + [h] else old(lru)
    {
      hide Lists, Placed, Tabled, Buried, Charge, HandleTable.Valid;
      clients := clients[h := clients[h] - 1];
      Unref(h);
    }

    method Erase(key: CacheKey)
      requires Valid()
      modifies this`next, this`prev, this`lru, this`inUse, this`refs, this`deleted, this`inCache, this`usage, table
      ensures Valid() && table.contents == old(table.contents) - {key}
      ensures var h := Find(old(table.contents), key);
              && (h.None? ==> deleted == old(deleted) && lru == old(lru))
              && (h.Some? ==> h.value < |clients| && lru == Minus(old(lru), h.value)
                              && deleted == if clients[h.value] == 0 then old(deleted) + [h.value] else old(deleted))
    {
      hide Lists, Counts, Placed, Tabled, Buried, Charge, HandleTable.Valid;
      OutOfTable(items, inCache, table.contents, key);
      var h := table.Remove(key);
      var _ := FinishErase(h);
    }

    /** Take the oldest idle entry out of the cache. */
    method EvictOldest()
      requires Valid() && lru != []
      modifies this`next, this`prev, this`lru, this`inUse, this`refs, this`deleted, this`inCache, this`usage, table
      ensures Valid() && lru == old(lru)[1..] && inUse == old(inUse) && deleted == old(deleted) + [old(lru)[0]]
      ensures old(lru)[0] < |items| && table.contents == old(table.contents) - {items[old(lru)[0]].key}
      ensures usage + items[old(lru)[0]].charge == old(usage)
    {
      hide Lists, Counts, Placed, Tabled, Buried, Charge, HandleTable.Valid;
      OldestIdle(next, prev, items, refs, inCache, clients, lru, inUse, table.contents);
      var e := next[LRU];
      OutOfTable(items, inCache, table.contents, items[e].key);
      var h := table.Remove(items[e].key);
      var _ := FinishErase(h);
      MinusFirst(old(lru), e);
    }

    /** Every idle entry leaves, oldest first; entries in use stay. */
    method Prune()
      requires Valid()
      modifies this`next, this`prev, this`lru, this`inUse, this`refs, this`deleted, this`inCache, this`usage, table
      ensures Valid() && lru == [] && inUse == old(inUse) && deleted == old(deleted) + old(lru)
      ensures table.contents == Forget(old(table.contents), items, old(lru))
    {
      hide Lists, Counts, Placed, Tabled, Buried, Charge, HandleTable.Valid;
      ghost var base, n := lru, 0;
      while next[LRU] != LRU
        invariant Valid() && n <= |base| && lru == base[n..] && inUse == old(inUse) && deleted == old(deleted) + base[..n]
        invariant table.contents == Forget(old(table.contents), items, base[..n])
        decreases |base| - n
      {
        HeadEmpty(next, prev, lru, inUse);
        EvictOldest();
        ForgetOne(old(table.contents), items, base, n);
        n := n + 1;
      }
      HeadEmpty(next, prev, lru, inUse);
      assert base[..n] == base;
    }

    /** Evict until the shard fits or nothing idle is left. */
    method Evict() returns (ghost n: nat)
      requires Valid()
      modifies this`next, this`prev, this`lru, this`inUse, this`refs, this`deleted, this`inCache, this`usage, table
      ensures Valid() && inUse == old(inUse)
      ensures EvictedOldest(capacity, usage, items, old(lru), lru, old(deleted), deleted, old(table.contents), table.contents, n)
    {
      hide Lists, Counts, Placed, Tabled, Buried, Charge, HandleTable.Valid, Forget;
      ghost var base := lru;
      n := 0;
      ForgetNone(table.contents, items, base);
      while usage > capacity && next[LRU] != LRU
        invariant Valid() && inUse == old(inUse)
        invariant n <= |base| && lru == base[n..] && deleted == old(deleted) + base[..n]
        invariant table.contents == Forget(old(table.contents), items, base[..n])
        invariant n > 0 ==> base[n - 1] < |items| && usage + items[base[n - 1]].charge > capacity
        decreases |base| - n
      {
        HeadEmpty(next, prev, lru, inUse);
        EvictOldest();
        ForgetOne(old(table.contents), items, base, n);
        n := n + 1;
      }
      HeadEmpty(next, prev, lru, inUse);
    }

    /** The new entry belongs to the caller and, unless caching is off, to the cache; an old entry of
        the key leaves, and then the oldest idle entries, as few as needed. */
    method Insert(key: CacheKey, charge: nat) returns (h: nat, ghost n: nat)
      requires Valid()
      modifies this, table
      ensures Valid() && h == |old(items)| && items == old(items) + [Info(key, charge)] && clients == old(clients) + [1]
      ensures capacity == 0 ==>
                EvictedOldest(capacity, usage, items, old(lru), lru, old(deleted), deleted, old(table.contents), table.contents, n)
      ensures capacity > 0 ==>
                var was := Find(old(table.contents), key);
                EvictedOldest(capacity, usage, items, Idle(old(lru), was), lru, old(deleted) + Unused(clients, was), deleted,
                              old(table.contents)[key := h], table.contents, n)
    {
      hide Lists, Counts, Placed, Tabled, Buried, Charge, HandleTable.Valid, EvictedOldest;
      h := Allocate(key, charge);
      if capacity > 0 {
        Adopt(h);
        IntoTable(items, inCache, table.contents, h);
        var replaced := table.Insert(key, h);
        var _ := FinishErase(replaced);
        assert lru == Idle(old(lru), replaced);
        assert deleted == old(deleted) + Unused(clients, replaced);
      }
      n := Evict();
    }

    /** A new handle with the caller's reference only. */
    method Allocate(key: CacheKey, charge: nat) returns (h: nat)
      requires Valid()
      modifies this`next, this`prev, this`items, this`refs, this`inCache, this`clients
      ensures Valid() && h == |old(items)| && items == old(items) + [Info(key, charge)] && clients == old(clients) + [1]
      ensures |inCache| == h + 1 && !inCache[h]
    {
      hide Lists, Counts, Placed, Tabled, Buried, Charge, HandleTable.Valid;
      h := |items|;
      Allocated(next, prev, items, refs, inCache, clients, lru, inUse, deleted, table.contents, Info(key, charge));
      next, prev := next + [LRU], prev + [LRU];
      items := items + [Info(key, charge)];
      refs, inCache, clients := refs + [1], inCache + [false], clients + [1];
    }

    /** The cache's own reference to a new entry. */
    method Adopt(h: nat)
      requires Valid() && 2 <= h < |items| && !inCache[h] && clients[h] == 1
      modifies this`next, this`prev, this`lru, this`inUse, this`refs, this`inCache, this`usage
      ensures State(None, Some(h)) && lru == old(lru)
    {
      hide Lists, Counts, Placed, Tabled, Buried, Charge, HandleTable.Valid;
      OnList(refs, inCache, lru, inUse, h);
      Adopted(items, refs, inCache, clients, lru, inUse, deleted, table.contents, h);
      ChargeChange(items, inCache, h, true);
      refs := refs[h := refs[h] + 1];
      inCache := inCache[h := true];
      LRUAppend(IN_USE, h);
      usage := usage + items[h].charge;
    }
  }

  /** The oldest n of the idle entries `base` were deleted, in order: enough, and none too many. */
  ghost predicate EvictedOldest(capacity: nat, usage: nat, items: seq<Info>, base: seq<nat>, lru: seq<nat>, dead: seq<nat>, deleted: seq<nat>,
                                mapped: map<CacheKey, nat>, contents: map<CacheKey, nat>, n: nat)
  {
    && (usage <= capacity || lru == [])
    && n <= |base| && lru == base[n..] && deleted == dead + base[..n]
    && contents == Forget(mapped, items, base[..n])
    && (n > 0 ==> base[n - 1] < |items| && usage + items[base[n - 1]].charge > capacity)
  }

  predicate Handles(items: seq<Info>, list: seq<nat>) {
    forall i :: 0 <= i < |list| ==> list[i] < |items|
  }

  function Charges(items: seq<Info>, list: seq<nat>): nat
    requires Handles(items, list)
  {
    if list == [] then 0 else items[list[0]].charge + Charges(items, list[1..])
  }

  /** No entry is evicted that could have stayed: before each eviction the cache was over its capacity; and after the
      last it is not, or nothing is idle. */
  lemma EvictsFewest(capacity: nat, usage: nat, items: seq<Info>, base: seq<nat>, lru: seq<nat>, dead: seq<nat>, deleted: seq<nat>,
                     mapped: map<CacheKey, nat>, contents: map<CacheKey, nat>, n: nat, m: nat)
    requires EvictedOldest(capacity, usage, items, base, lru, dead, deleted, mapped, contents, n)
    requires m < n && Handles(items, base)
    ensures Handles(items, base[m..n]) && usage + Charges(items, base[m..n]) > capacity && (usage <= capacity || lru == [])
  {
    LastCharge(items, base[m..n]);
    hide Forget;
  }

  lemma {:induction false} LastCharge(items: seq<Info>, list: seq<nat>)
    requires list != [] && Handles(items, list)
    ensures Charges(items, list) >= items[list[|list| - 1]].charge
  {
    if |list| > 1 {
      LastCharge(items, list[1..]);
    }
  }

  ghost function Idle(lru: seq<nat>, replaced: Option<nat>): seq<nat> {
    if replaced.Some? then Minus(lru, replaced.value) else lru
  }

  /** A replaced entry that no caller holds is deleted at once. */
  ghost function Unused(clients: seq<nat>, replaced: Option<nat>): seq<nat> {
    if replaced.Some? && replaced.value < |clients| && clients[replaced.value] == 0 then [replaced.value] else []
  }

  lemma ForgetNone(contents: map<CacheKey, nat>, items: seq<Info>, list: seq<nat>)
    ensures Forget(contents, items, list[..0]) == contents
  {
  }

  /** The table without the keys of these entries. */
  ghost function Forget(contents: map<CacheKey, nat>, items: seq<Info>, list: seq<nat>): map<CacheKey, nat> {
    contents - (set e | e in list && e < |items| :: items[e].key)
  }

  lemma ForgetOne(contents: map<CacheKey, nat>, items: seq<Info>, list: seq<nat>, n: nat)
    requires n < |list| && list[n] < |items|
    ensures Forget(contents, items, list[..n + 1]) == Forget(contents, items, list[..n]) - {items[list[n]].key}
  {
    assert list[..n + 1] == list[..n] + [list[n]];
    forall k
      ensures k in Forget(contents, items, list[..n + 1]) <==> k in Forget(contents, items, list[..n]) - {items[list[n]].key}
    {
    }
  }

  lemma MinusFirst(list: seq<nat>, e: nat)
    requires list != [] && list[0] == e
    ensures Minus(list, e) == list[1..]
  {
  }

  lemma HeadEmpty(next: seq<nat>, prev: seq<nat>, lru: seq<nat>, inUse: seq<nat>)
    requires Lists(next, prev, lru, inUse)
    ensures next != [] && (next[LRU] == LRU <==> lru == [])
  {
    assert Linked(next, prev, Node(LRU, lru, 0), Node(LRU, lru, 1));
  }

  lemma OldestIdle(next: seq<nat>, prev: seq<nat>, items: seq<Info>, refs: seq<nat>, inCache: seq<bool>, clients: seq<nat>,
                   lru: seq<nat>, inUse: seq<nat>, contents: map<CacheKey, nat>)
    requires Lists(next, prev, lru, inUse) && Counts(refs, inCache, clients, None) && Placed(refs, inCache, lru, inUse)
    requires Tabled(items, inCache, contents, None) && |items| == |refs| && lru != []
    ensures next != [] && next[LRU] == lru[0] && 2 <= lru[0] < |items| && clients[lru[0]] == 0 && lru[0] !in inUse
    ensures Find(contents, items[lru[0]].key) == Some(lru[0])
  {
    assert Linked(next, prev, Node(LRU, lru, 0), Node(LRU, lru, 1));
    assert lru[0] in lru;
  }

  lemma Allocated(next: seq<nat>, prev: seq<nat>, items: seq<Info>, refs: seq<nat>, inCache: seq<bool>, clients: seq<nat>,
                  lru: seq<nat>, inUse: seq<nat>, deleted: seq<nat>, contents: map<CacheKey, nat>, info: Info)
    requires Lists(next, prev, lru, inUse) && Counts(refs, inCache, clients, None) && Placed(refs, inCache, lru, inUse)
    requires Tabled(items, inCache, contents, None) && Buried(refs, deleted) && |items| == |refs|
    ensures Lists(next + [LRU], prev + [LRU], lru, inUse)
    ensures Counts(refs + [1], inCache + [false], clients + [1], None) && Placed(refs + [1], inCache + [false], lru, inUse)
    ensures Tabled(items + [info], inCache + [false], contents, None) && Buried(refs + [1], deleted)
    ensures Charge(items + [info], inCache + [false]) == Charge(items, inCache)
  {
    ChargeGrow(items, inCache, info);
    Grow(next, prev, LRU, lru, LRU, LRU);
    Grow(next, prev, IN_USE, inUse, LRU, LRU);
  }

  lemma Adopted(items: seq<Info>, refs: seq<nat>, inCache: seq<bool>, clients: seq<nat>, lru: seq<nat>, inUse: seq<nat>,
                deleted: seq<nat>, contents: map<CacheKey, nat>, h: nat)
    requires Counts(refs, inCache, clients, None) && Placed(refs, inCache, lru, inUse) && Tabled(items, inCache, contents, None)
    requires Buried(refs, deleted) && |items| == |refs| && 2 <= h < |refs| && !inCache[h] && clients[h] == 1
    ensures var refs', inCache' := refs[h := refs[h] + 1], inCache[h := true];
            && Counts(refs', inCache', clients, None) && Placed(refs', inCache', lru, inUse + [h])
            && Tabled(items, inCache', contents, Some(h)) && Buried(refs', deleted)
  {
  }

  lemma LooseIsCached(items: seq<Info>, inCache: seq<bool>, contents: map<CacheKey, nat>, e: nat)
    requires Tabled(items, inCache, contents, Some(e))
    ensures 2 <= e < |items| && inCache[e]
  {
  }

  lemma OwedCount(refs: seq<nat>, inCache: seq<bool>, clients: seq<nat>, e: nat)
    requires Counts(refs, inCache, clients, Some(e)) && 2 <= e < |refs|
    ensures refs[e] == clients[e] + (if inCache[e] then 1 else 0) + 1
  {
  }

  lemma TableLive(items: seq<Info>, refs: seq<nat>, inCache: seq<bool>, clients: seq<nat>, contents: map<CacheKey, nat>, key: CacheKey)
    requires Tabled(items, inCache, contents, None) && Counts(refs, inCache, clients, None) && key in contents && |items| == |refs|
    ensures 2 <= contents[key] < |refs| && refs[contents[key]] > 0
  {
  }
}
