/** The memtable's skip list (db/skiplist): one writer, readers without locks.

    Nodes live in an arena and are named by their index; node 0 is the head.  A
    key is represented by its place in the comparator's order.  `lists[l]` names,
    in order, the nodes linked at level l.  Every store of an insertion keeps
    each level sorted and inside the level below, and a search answers for the
    list as it is at the search's last load, however loads and stores interleave. */
module SkipLists {
  import opened Options
  import opened Keys

  type Key = real
  const MAX_HEIGHT: nat := 12

  datatype Node = Node(key: Key, next: seq<Option<nat>>)

  predicate Succ(list: seq<nat>, i: nat, n: Option<nat>) {
    n == if i < |list| then Some(list[i]) else None
  }

  ghost predicate SortedList(nodes: seq<Node>, list: seq<nat>, l: nat) {
    && (forall i :: 0 <= i < |list| ==> 0 < list[i] < |nodes| && l < |nodes[list[i]].next|)
    && (forall i, j :: 0 <= i < j < |list| ==> nodes[list[i]].key < nodes[list[j]].key)
  }

  /** The links of level l spell out `list`, in strictly increasing key order. */
  ghost predicate Linked(nodes: seq<Node>, list: seq<nat>, l: nat) {
    && SortedList(nodes, list, l)
    && nodes != [] && l < |nodes[0].next| && Succ(list, 0, nodes[0].next[l])
    && (forall i :: 0 <= i < |list| ==> Succ(list, i + 1, nodes[list[i]].next[l]))
  }

  ghost predicate Sublist(upper: seq<nat>, lower: seq<nat>) {
    forall n :: n in upper ==> n in lower
  }

  ghost predicate Levels(nodes: seq<Node>, lists: seq<seq<nat>>)
    ensures Levels(nodes, lists) ==> nodes != [] && |lists| == MAX_HEIGHT
  {
    && nodes != [] && |nodes[0].next| == MAX_HEIGHT && |lists| == MAX_HEIGHT
    && (forall l :: 0 <= l < MAX_HEIGHT ==> Linked(nodes, lists[l], l))
    && (forall k, l :: 0 <= k <= l < MAX_HEIGHT ==> Sublist(lists[l], lists[k]))
  }

  /** One store to a link. */
  function WithNext(nodes: seq<Node>, n: nat, l: nat, v: Option<nat>): seq<Node>
    requires n < |nodes| && l < |nodes[n].next|
  {
    nodes[n := nodes[n].(next := nodes[n].next[l := v])]
  }

  // ---- searches ----

  datatype Query = FirstAtOrAfter(key: Key) | LastBefore(key: Key) | Last

  /** Whether a search moves on over node n. */
  predicate Passes(nodes: seq<Node>, q: Query, n: nat)
    requires n < |nodes|
  {
    match q
    case FirstAtOrAfter(key) => nodes[n].key < key
    case LastBefore(key) => nodes[n].key < key
    case Last => true
  }

  /** What a search answers for a list: the first node that it does not pass, or
      the last one that it does; None stands for a null node or the head. */
  ghost predicate Answers(nodes: seq<Node>, list: seq<nat>, q: Query, r: Option<nat>)
    requires SortedList(nodes, list, 0)
  {
    if q.FirstAtOrAfter? then
      match r
      case None => forall n :: n in list ==> Passes(nodes, q, n)
      case Some(f) => f in list && !Passes(nodes, q, f) && forall n :: n in list && !Passes(nodes, q, n) ==> nodes[f].key <= nodes[n].key
    else
      match r
      case None => forall n :: n in list ==> !Passes(nodes, q, n)
      case Some(f) => f in list && Passes(nodes, q, f) && forall n :: n in list && Passes(nodes, q, n) ==> nodes[n].key <= nodes[f].key
  }

  /** A search stands at the head, or at a node of its level that it has passed. */
  ghost predicate Standing(nodes: seq<Node>, lists: seq<seq<nat>>, q: Query, x: nat, level: nat) {
    level < |lists| && (x == 0 || (x in lists[level] && x < |nodes| && Passes(nodes, q, x)))
  }

  function Result(q: Query, x: nat, next: Option<nat>): Option<nat> {
    if q.FirstAtOrAfter? then next else if x == 0 then None else Some(x)
  }

  /** Where a search stands in its level's list; -1 is the head. */
  ghost predicate StandingAt(lists: seq<seq<nat>>, x: nat, level: nat, i: int) {
    level < |lists| && -1 <= i < |lists[level]| && x == if i < 0 then 0 else lists[level][i]
  }

  lemma Place(lists: seq<seq<nat>>, x: nat, level: nat) returns (i: int)
    requires level < |lists| && (x == 0 || x in lists[level])
    ensures StandingAt(lists, x, level, i)
  {
    i := -1;
    if x != 0 {
      i :| 0 <= i < |lists[level]| && lists[level][i] == x;
    }
  }

  /** What a search learns from one load. */
  lemma LoadNext(nodes: seq<Node>, lists: seq<seq<nat>>, q: Query, x: nat, level: nat, i: int)
    requires Levels(nodes, lists) && Standing(nodes, lists, q, x, level) && StandingAt(lists, x, level, i)
    ensures x < |nodes| && level < |nodes[x].next|
    ensures var next := nodes[x].next[level];
            && (next.Some? ==> 0 < next.value < |nodes|)
            && (next.Some? && Passes(nodes, q, next.value) ==>
                  Standing(nodes, lists, q, next.value, level) && StandingAt(lists, next.value, level, i + 1))
            && ((next.None? || !Passes(nodes, q, next.value)) ==> StopsAfter(nodes, lists[level], q, x))
            && ((next.None? || !Passes(nodes, q, next.value)) && level > 0 ==> Standing(nodes, lists, q, x, level - 1))
            && ((next.None? || !Passes(nodes, q, next.value)) && level == 0 ==> Answers(nodes, lists[0], q, Result(q, x, next)))
  {
    var list := lists[level];
    assert Linked(nodes, list, level);
    if i >= 0 {
      assert Succ(list, i + 1, nodes[list[i]].next[level]);
    }
    var next := nodes[x].next[level];
    assert Succ(list, i + 1, next);
    if next.None? || !Passes(nodes, q, next.value) {
      assert Stops(nodes, list, q, x, i + 1);
      if level > 0 {
        assert Sublist(lists[level], lists[level - 1]);
      } else {
        SplitAnswers(nodes, list, q, i + 1);
      }
    }
  }

  /** A search stops on `list` after node n, which stands before position p. */
  ghost predicate Stops(nodes: seq<Node>, list: seq<nat>, q: Query, n: nat, p: nat)
    ensures Stops(nodes, list, q, n, p) ==> p <= |list|
  {
    && p <= |list| && n == (if p == 0 then 0 else list[p - 1])
    && (p > 0 ==> n < |nodes| && Passes(nodes, q, n))
    && (p < |list| ==> list[p] < |nodes| && !Passes(nodes, q, list[p]))
  }

  ghost predicate StopsAfter(nodes: seq<Node>, list: seq<nat>, q: Query, n: nat) {
    exists p: nat :: Stops(nodes, list, q, n, p)
  }

  lemma SplitAnswers(nodes: seq<Node>, list: seq<nat>, q: Query, p: nat)
    requires SortedList(nodes, list, 0) && p <= |list|
    requires p < |list| ==> !Passes(nodes, q, list[p])
    requires p > 0 ==> Passes(nodes, q, list[p - 1])
    ensures Answers(nodes, list, q, if q.FirstAtOrAfter? then (if p < |list| then Some(list[p]) else None)
                                    else if p == 0 then None else Some(list[p - 1]))
  {
    forall i | 0 <= i < |list|
      ensures Passes(nodes, q, list[i]) <==> i < p
      ensures p <= i ==> nodes[list[p]].key <= nodes[list[i]].key
      ensures i < p ==> nodes[list[i]].key <= nodes[list[p - 1]].key
    {
    }
  }

  // ---- stores ----

  /** A new node is linked nowhere. */
  lemma Allocate(nodes: seq<Node>, lists: seq<seq<nat>>, node: Node)
    requires Levels(nodes, lists)
    ensures Levels(nodes + [node], lists)
    ensures forall l :: 0 <= l < MAX_HEIGHT ==> |nodes| !in lists[l]
  {
    forall l | 0 <= l < MAX_HEIGHT
      ensures Linked(nodes + [node], lists[l], l) && |nodes| !in lists[l]
    {
      assert Linked(nodes, lists[l], l);
    }
  }

  /** A store to a link that no list goes through changes no list. */
  lemma StoreUnlinked(nodes: seq<Node>, list: seq<nat>, k: nat, n: nat, l: nat, v: Option<nat>)
    requires Linked(nodes, list, k) && n < |nodes| && l < |nodes[n].next|
    requires k != l || (n != 0 && n !in list)
    ensures Linked(WithNext(nodes, n, l, v), list, k)
  {
    var nodes' := WithNext(nodes, n, l, v);
    forall i | 0 <= i < |list|
      ensures nodes'[list[i]].next[k] == nodes[list[i]].next[k]
    {
    }
  }

  lemma StorePrivate(nodes: seq<Node>, lists: seq<seq<nat>>, x: nat, l: nat, v: Option<nat>)
    requires Levels(nodes, lists) && 0 < x < |nodes| && l < |nodes[x].next| && l < MAX_HEIGHT && x !in lists[l]
    ensures Levels(WithNext(nodes, x, l, v), lists)
  {
    forall k | 0 <= k < MAX_HEIGHT
      ensures Linked(WithNext(nodes, x, l, v), lists[k], k)
    {
      StoreUnlinked(nodes, lists[k], k, x, l, v);
    }
  }

  function Spliced(list: seq<nat>, p: nat, x: nat): seq<nat>
    requires p <= |list|
  {
    list[..p] + [x] + list[p..]
  }

  /** The store that links x into one level: x already points to its successor there. */
  lemma Splice(nodes: seq<Node>, list: seq<nat>, l: nat, x: nat, prev: nat, p: nat)
    requires Linked(nodes, list, l) && 0 < x < |nodes| && l < |nodes[x].next| && x !in list
    requires prev < |nodes| && l < |nodes[prev].next| && nodes[x].next[l] == nodes[prev].next[l]
    requires p <= |list| && prev == (if p == 0 then 0 else list[p - 1])
    requires p < |list| ==> nodes[x].key < nodes[list[p]].key
    requires p > 0 ==> nodes[list[p - 1]].key < nodes[x].key
    ensures Linked(WithNext(nodes, prev, l, Some(x)), Spliced(list, p, x), l)
  {
    hide Spliced, WithNext, Stops, Succ;
    var nodes', list' := WithNext(nodes, prev, l, Some(x)), Spliced(list, p, x);
    SpliceSorted(nodes, list, l, x, p);
    StoreKeepsSorted(nodes, list', l, prev, l, Some(x));
    SplicedHead(nodes, list, l, x, prev, p);
    forall i | 0 <= i < |list'|
      ensures Succ(list', i + 1, nodes'[list'[i]].next[l])
    {
      SplicedLink(nodes, list, l, x, prev, p, i);
    }
  }

  lemma StoreKeepsSorted(nodes: seq<Node>, list: seq<nat>, k: nat, n: nat, l: nat, v: Option<nat>)
    requires SortedList(nodes, list, k) && n < |nodes| && l < |nodes[n].next|
    ensures SortedList(WithNext(nodes, n, l, v), list, k)
    ensures |WithNext(nodes, n, l, v)| == |nodes| && |WithNext(nodes, n, l, v)[0].next| == |nodes[0].next|
  {
  }

  lemma SpliceSorted(nodes: seq<Node>, list: seq<nat>, l: nat, x: nat, p: nat)
    requires SortedList(nodes, list, l) && 0 < x < |nodes| && p <= |list| && l < |nodes[x].next|
    requires p > 0 ==> nodes[list[p - 1]].key < nodes[x].key
    requires p < |list| ==> nodes[x].key < nodes[list[p]].key
    ensures SortedList(nodes, Spliced(list, p, x), l) && |Spliced(list, p, x)| == |list| + 1
  {
    var list' := Spliced(list, p, x);
    forall i, j | 0 <= i < j < |list'|
      ensures nodes[list'[i]].key < nodes[list'[j]].key
    {
      SplicedKeys(nodes, list, l, x, p, i, j);
    }
  }

  lemma SplicedHead(nodes: seq<Node>, list: seq<nat>, l: nat, x: nat, prev: nat, p: nat)
    requires Linked(nodes, list, l) && 0 < x < |nodes| && prev < |nodes| && l < |nodes[prev].next|
    requires p <= |list| && prev == (if p == 0 then 0 else list[p - 1])
    ensures Succ(Spliced(list, p, x), 0, WithNext(nodes, prev, l, Some(x))[0].next[l])
  {
  }

  lemma SplicedLink(nodes: seq<Node>, list: seq<nat>, l: nat, x: nat, prev: nat, p: nat, i: nat)
    requires Linked(nodes, list, l) && 0 < x < |nodes| && l < |nodes[x].next| && x !in list
    requires p <= |list| && prev == (if p == 0 then 0 else list[p - 1]) && nodes[x].next[l] == nodes[prev].next[l]
    requires i <= |list|
    ensures Succ(Spliced(list, p, x), i + 1, WithNext(nodes, prev, l, Some(x))[Spliced(list, p, x)[i]].next[l])
  {
    var n := Spliced(list, p, x)[i];
    SplicedNodes(list, p, x);
    if i < p {
      KeyApart(nodes, list, l, i, p - 1);
      assert Succ(list, i + 1, nodes[list[i]].next[l]);
    } else if i == p {
      if p > 0 {
        assert x != prev by { assert prev in list; }
        assert Succ(list, p, nodes[list[p - 1]].next[l]);
      }
    } else {
      if p > 0 {
        KeyApart(nodes, list, l, i - 1, p - 1);
      }
      assert Succ(list, i, nodes[list[i - 1]].next[l]);
    }
    hide Spliced, Linked;
    assert WithNext(nodes, prev, l, Some(x))[n].next[l] == if n == prev then Some(x) else nodes[n].next[l];
  }

  lemma KeyApart(nodes: seq<Node>, list: seq<nat>, l: nat, i: nat, j: nat)
    requires SortedList(nodes, list, l) && i < |list| && j < |list|
    ensures list[i] == list[j] <==> i == j
  {
    assert i < j ==> nodes[list[i]].key < nodes[list[j]].key;
    assert j < i ==> nodes[list[j]].key < nodes[list[i]].key;
  }

  lemma SplicedNodes(list: seq<nat>, p: nat, x: nat)
    requires p <= |list|
    ensures |Spliced(list, p, x)| == |list| + 1
    ensures forall i :: 0 <= i <= |list| ==> Spliced(list, p, x)[i] == if i < p then list[i] else if i == p then x else list[i - 1]
  {
  }

  lemma SplicedKeys(nodes: seq<Node>, list: seq<nat>, l: nat, x: nat, p: nat, i: nat, j: nat)
    requires SortedList(nodes, list, l) && x < |nodes| && p <= |list|
    requires p > 0 ==> nodes[list[p - 1]].key < nodes[x].key
    requires p < |list| ==> nodes[x].key < nodes[list[p]].key
    requires i < j <= |list|
    ensures nodes[Spliced(list, p, x)[i]].key < nodes[Spliced(list, p, x)[j]].key
  {
  }

  lemma Publish(nodes: seq<Node>, lists: seq<seq<nat>>, l: nat, x: nat, prev: nat, p: nat)
    requires Levels(nodes, lists) && l < MAX_HEIGHT && 0 < x < |nodes| && l < |nodes[x].next|
    requires forall k :: 0 <= k < MAX_HEIGHT ==> (x in lists[k] <==> k < l)
    requires Stops(nodes, lists[l], FirstAtOrAfter(nodes[x].key), prev, p)
    requires prev < |nodes| && l < |nodes[prev].next| && nodes[x].next[l] == nodes[prev].next[l]
    requires forall n :: n in lists[l] ==> n < |nodes| && nodes[n].key != nodes[x].key
    ensures Levels(WithNext(nodes, prev, l, Some(x)), lists[l := Spliced(lists[l], p, x)])
  {
    var nodes', lists' := WithNext(nodes, prev, l, Some(x)), lists[l := Spliced(lists[l], p, x)];
    forall k | 0 <= k < MAX_HEIGHT
      ensures Linked(nodes', lists'[k], k)
    {
      if k == l {
        Splice(nodes, lists[l], l, x, prev, p);
      } else {
        StoreUnlinked(nodes, lists[k], k, prev, l, Some(x));
      }
    }
    forall j, k | 0 <= j <= k < MAX_HEIGHT
      ensures Sublist(lists'[k], lists'[j])
    {
      assert Sublist(lists[k], lists[j]);
      SplicedHolds(lists[l], p, x);
    }
  }

  lemma SplicedHolds(list: seq<nat>, p: nat, x: nat)
    requires p <= |list|
    ensures forall n :: n in Spliced(list, p, x) <==> n == x || n in list
  {
    assert list == list[..p] + list[p..];
  }

  /** Node x is being inserted: it is linked at the levels below i and `prev` names
      its predecessors at the levels from i on. */
  ghost predicate Inserting(nodes: seq<Node>, lists: seq<seq<nat>>, x: nat, prev: seq<nat>, i: nat)
    ensures Inserting(nodes, lists, x, prev, i) ==> Levels(nodes, lists) && x < |nodes| && |nodes[x].next| <= |prev|
  {
    && Levels(nodes, lists) && 0 < x < |nodes| && i <= |nodes[x].next| <= MAX_HEIGHT && |nodes[x].next| <= |prev|
    && (forall k :: 0 <= k < MAX_HEIGHT ==> (x in lists[k] <==> k < i))
    && (forall k, n :: i <= k < MAX_HEIGHT && n in lists[k] ==> n < |nodes| && nodes[n].key != nodes[x].key)
    && (forall k :: i <= k < |nodes[x].next| ==> StopsAfter(nodes, lists[k], FirstAtOrAfter(nodes[x].key), prev[k]))
  }

  lemma PrevIsLinked(nodes: seq<Node>, lists: seq<seq<nat>>, x: nat, prev: seq<nat>, i: nat)
    requires Inserting(nodes, lists, x, prev, i) && i < |nodes[x].next|
    ensures prev[i] < |nodes| && i < |nodes[prev[i]].next| && prev[i] != x
  {
    assert Linked(nodes, lists[i], i);
    var p :| Stops(nodes, lists[i], FirstAtOrAfter(nodes[x].key), prev[i], p);
    if p > 0 {
      assert prev[i] in lists[i];
    }
  }

  /** The new node's own link, stored before anyone can see it. */
  lemma LinkOwn(nodes: seq<Node>, lists: seq<seq<nat>>, x: nat, prev: seq<nat>, i: nat, v: Option<nat>)
    requires Inserting(nodes, lists, x, prev, i) && i < |nodes[x].next|
    ensures Inserting(WithNext(nodes, x, i, v), lists, x, prev, i)
  {
    StorePrivate(nodes, lists, x, i, v);
    hide Levels;
    StopsUnchanged(nodes, lists, x, prev, i, WithNext(nodes, x, i, v));
  }

  lemma StopsUnchanged(nodes: seq<Node>, lists: seq<seq<nat>>, x: nat, prev: seq<nat>, i: nat, nodes': seq<Node>)
    requires Inserting(nodes, lists, x, prev, i)
    requires |nodes'| == |nodes| && forall n :: 0 <= n < |nodes| ==> nodes'[n].key == nodes[n].key
    ensures forall k :: i <= k < |nodes[x].next| ==> StopsAfter(nodes', lists[k], FirstAtOrAfter(nodes[x].key), prev[k])
  {
    forall k | i <= k < |nodes[x].next|
      ensures StopsAfter(nodes', lists[k], FirstAtOrAfter(nodes[x].key), prev[k])
    {
      var p: nat :| Stops(nodes, lists[k], FirstAtOrAfter(nodes[x].key), prev[k], p);
      assert Stops(nodes', lists[k], FirstAtOrAfter(nodes[x].key), prev[k], p);
    }
  }

  /** The store that makes x visible at level i. */
  lemma LinkIn(nodes: seq<Node>, lists: seq<seq<nat>>, x: nat, prev: seq<nat>, i: nat, p: nat)
    requires Inserting(nodes, lists, x, prev, i) && i < |nodes[x].next|
    requires prev[i] < |nodes| && i < |nodes[prev[i]].next| && nodes[x].next[i] == nodes[prev[i]].next[i]
    requires Stops(nodes, lists[i], FirstAtOrAfter(nodes[x].key), prev[i], p)
    ensures Inserting(WithNext(nodes, prev[i], i, Some(x)), lists[i := Spliced(lists[i], p, x)], x, prev, i + 1)
  {
    Publish(nodes, lists, i, x, prev[i], p);
    SplicedHolds(lists[i], p, x);
    hide Levels;
    StopsUnchanged(nodes, lists, x, prev, i, WithNext(nodes, prev[i], i, Some(x)));
  }

  lemma StopPlace(nodes: seq<Node>, lists: seq<seq<nat>>, x: nat, prev: seq<nat>, i: nat) returns (p: nat)
    requires Inserting(nodes, lists, x, prev, i) && i < |nodes[x].next|
    ensures Stops(nodes, lists[i], FirstAtOrAfter(nodes[x].key), prev[i], p)
  {
    p :| Stops(nodes, lists[i], FirstAtOrAfter(nodes[x].key), prev[i], p);
  }

  /** Both stores at level i of an insertion. */
  lemma LinkBoth(nodes: seq<Node>, lists: seq<seq<nat>>, x: nat, prev: seq<nat>, i: nat)
    returns (nodes1: seq<Node>, nodes2: seq<Node>, lists': seq<seq<nat>>, p: nat)
    requires Inserting(nodes, lists, x, prev, i) && i < |nodes[x].next|
    ensures prev[i] < |nodes| && i < |nodes[prev[i]].next|
    ensures nodes1 == WithNext(nodes, x, i, nodes[prev[i]].next[i])
    ensures |nodes1| == |nodes| && i < |nodes1[prev[i]].next| && nodes2 == WithNext(nodes1, prev[i], i, Some(x))
    ensures Inserting(nodes2, lists', x, prev, i + 1)
    ensures Stops(nodes, lists[i], FirstAtOrAfter(nodes[x].key), prev[i], p) && lists' == lists[i := Spliced(lists[i], p, x)]
    ensures |nodes2[x].next| == |nodes[x].next| && |nodes2| == |nodes| && forall n :: 0 <= n < |nodes| ==> nodes2[n].key == nodes[n].key
  {
    PrevIsLinked(nodes, lists, x, prev, i);
    nodes1 := WithNext(nodes, x, i, nodes[prev[i]].next[i]);
    LinkOwn(nodes, lists, x, prev, i, nodes[prev[i]].next[i]);
    hide Inserting, Spliced;
    p := StopPlace(nodes, lists, x, prev, i);
    StopsStill(nodes, nodes1, lists[i], FirstAtOrAfter(nodes[x].key), prev[i], p);
    LinkIn(nodes1, lists, x, prev, i, p);
    lists' := lists[i := Spliced(lists[i], p, x)];
    nodes2 := WithNext(nodes1, prev[i], i, Some(x));
  }

  // ---- contents ----

  ghost function KeysOf(nodes: seq<Node>, list: seq<nat>): seq<Key>
    requires SortedList(nodes, list, 0)
  {
    seq(|list|, i requires 0 <= i < |list| => nodes[list[i]].key)
  }

  /** Where a key goes in a sorted list of keys. */
  ghost function Inserted(ks: seq<Key>, key: Key): seq<Key> {
    if ks == [] || key < ks[0] then [key] + ks else [ks[0]] + Inserted(ks[1..], key)
  }

  lemma {:induction false} InsertedAt(ks: seq<Key>, key: Key, p: nat)
    requires p <= |ks|
    requires forall i :: 0 <= i < p ==> ks[i] < key
    requires p < |ks| ==> key < ks[p]
    ensures Inserted(ks, key) == ks[..p] + [key] + ks[p..]
  {
    if p > 0 {
      InsertedAt(ks[1..], key, p - 1);
      assert ks[1..][..p - 1] == ks[1..p] && ks[1..][p - 1..] == ks[p..];
    }
  }

  class SkipList {
    var nodes: seq<Node>                // the arena; node 0 is the head
    var maxHeight: nat
    ghost var lists: seq<seq<nat>>

    ghost predicate Valid()
      reads this
    {
      && Levels(nodes, lists) && 1 <= maxHeight <= MAX_HEIGHT
      && (forall l :: maxHeight <= l < MAX_HEIGHT ==> lists[l] == [])
    }

    ghost function Contents(): seq<Key>
      requires Valid()
      reads this
    {
      assert Linked(nodes, lists[0], 0);
      KeysOf(nodes, lists[0])
    }

    constructor (anyKey: Key)
      ensures Valid() && Contents() == []
    {
      nodes := [Node(anyKey, seq(MAX_HEIGHT, _ => None))];
      maxHeight := 1;
      lists := seq(MAX_HEIGHT, _ => []);
    }

    method FindGreaterOrEqual(key: Key) returns (r: Option<nat>, prev: seq<nat>)
      requires Valid()
      ensures Answers(nodes, lists[0], FirstAtOrAfter(key), r)
      ensures |prev| == maxHeight
      ensures forall l :: 0 <= l < maxHeight ==> StopsAfter(nodes, lists[l], FirstAtOrAfter(key), prev[l])
    {
      hide Levels, SortedList, StopsAfter, Answers;
      ghost var q := FirstAtOrAfter(key);
      var x: nat, level: nat := 0, maxHeight - 1;
      ghost var i := -1;
      prev := seq(maxHeight, _ => 0);
      while true
        invariant level < maxHeight == |prev| && Standing(nodes, lists, q, x, level) && StandingAt(lists, x, level, i)
        invariant forall l :: level < l < maxHeight ==> StopsAfter(nodes, lists[l], q, prev[l])
        decreases level, |lists[level]| - i
      {
        LoadNext(nodes, lists, q, x, level, i);
        var next := nodes[x].next[level];
        if next.Some? && nodes[next.value].key < key {
          x, i := next.value, i + 1;
        } else {
          prev := prev[level := x];
          if level == 0 {
            return next, prev;
          }
          level := level - 1;
          i := Place(lists, x, level);
        }
      }
    }

    /** The last node before `key`, or the head. */
    method FindLessThan(key: Key) returns (x: nat)
      requires Valid()
      ensures Answers(nodes, lists[0], LastBefore(key), if x == 0 then None else Some(x))
    {
      hide Levels, SortedList, StopsAfter, Answers;
      ghost var q := LastBefore(key);
      x := 0;
      var level: nat := maxHeight - 1;
      ghost var i := -1;
      while true
        invariant Standing(nodes, lists, q, x, level) && StandingAt(lists, x, level, i)
        decreases level, |lists[level]| - i
      {
        LoadNext(nodes, lists, q, x, level, i);
        var next := nodes[x].next[level];
        if next.None? || nodes[next.value].key >= key {
          if level == 0 {
            return;
          }
          level := level - 1;
          i := Place(lists, x, level);
        } else {
          x, i := next.value, i + 1;
        }
      }
    }

    /** The last node, or the head. */
    method FindLast() returns (x: nat)
      requires Valid()
      ensures Answers(nodes, lists[0], Last, if x == 0 then None else Some(x))
    {
      hide Levels, SortedList, StopsAfter, Answers;
      x := 0;
      var level: nat := maxHeight - 1;
      ghost var i := -1;
      while true
        invariant Standing(nodes, lists, Last, x, level) && StandingAt(lists, x, level, i)
        decreases level, |lists[level]| - i
      {
        LoadNext(nodes, lists, Last, x, level, i);
        var next := nodes[x].next[level];
        if next.None? {
          if level == 0 {
            return;
          }
          level := level - 1;
          i := Place(lists, x, level);
        } else {
          x, i := next.value, i + 1;
        }
      }
    }

    method Contains(key: Key) returns (found: bool)
      requires Valid()
      ensures found <==> key in Contents()
    {
      var x, _ := FindGreaterOrEqual(key);
      found := x.Some? && nodes[x.value].key == key;
      ContainsAt(nodes, lists[0], key, x);
    }

    /** `links` is what the allocated memory happens to hold; its length is the node's random height. */
    method Insert(key: Key, links: seq<Option<nat>>)
      requires Valid() && key !in Contents()
      requires 1 <= |links| <= MAX_HEIGHT
      modifies this
      ensures Valid() && Contents() == Inserted(old(Contents()), key)
    {
      hide Levels, Inserting, Stops, StopsAfter, Answers, Spliced, SortedList, KeepsKeys, KeysOf, Inserted;
      ghost var before := lists;
      var _, prev := FindGreaterOrEqual(key);
      var height := |links|;
      ExtendPrev(nodes, lists, key, maxHeight, prev, height);
      if height > maxHeight {
        prev := prev + seq(height - maxHeight, _ => 0);
        maxHeight := height;
      }
      AbsentKey(nodes, lists, key);
      ReadyToInsert(nodes, lists, key, links, prev);
      var x := |nodes|;
      nodes := nodes + [Node(key, links)];
      ghost var p := LinkNode(x, prev);
      InsertedKey(old(nodes), before, nodes, lists, Node(key, links), x, prev[0], p);
    }

    /** The stores of an insertion, level by level from the bottom. */
    method LinkNode(x: nat, prev: seq<nat>) returns (ghost p: nat)
      requires Inserting(nodes, lists, x, prev, 0) && nodes[x].next != []
      modifies this`nodes, this`lists
      ensures Levels(nodes, lists) && |nodes| == |old(nodes)| && KeepsKeys(old(nodes), nodes)
      ensures nodes[x].key == old(nodes)[x].key
      ensures forall l :: |old(nodes)[x].next| <= l < |lists| ==> lists[l] == old(lists)[l]
      ensures prev != [] && Stops(nodes, old(lists)[0], FirstAtOrAfter(nodes[x].key), prev[0], p)
      ensures lists[0] == Spliced(old(lists)[0], p, x)
    {
      hide Levels, Inserting, Stops, Spliced, WithNext;
      var height := |nodes[x].next|;
      p := 0;
      for i := 0 to height
        invariant Inserting(nodes, lists, x, prev, i) && KeepsKeys(old(nodes), nodes)
        invariant |nodes| == |old(nodes)| && |nodes[x].next| == height
        invariant forall l :: height <= l < |lists| ==> lists[l] == old(lists)[l]
        invariant i == 0 ==> lists == old(lists)
        invariant i > 0 ==> Stops(nodes, old(lists)[0], FirstAtOrAfter(nodes[x].key), prev[0], p) && lists[0] == Spliced(old(lists)[0], p, x)
      {
        ghost var nodes1, nodes2, lists', at := LinkBoth(nodes, lists, x, prev, i);
        if i == 0 {
          p := at;
        }
        StopsStill(nodes, nodes2, old(lists)[0], FirstAtOrAfter(nodes[x].key), prev[0], p);
        nodes := WithNext(nodes, x, i, nodes[prev[i]].next[i]);
        nodes := WithNext(nodes, prev[i], i, Some(x));
        lists := lists';
      }
    }
  }

  lemma StopsStill(nodes: seq<Node>, nodes': seq<Node>, list: seq<nat>, q: Query, n: nat, p: nat)
    requires Stops(nodes, list, q, n, p) && KeepsKeys(nodes, nodes')
    ensures Stops(nodes', list, q, n, p)
  {
  }

  ghost predicate KeepsKeys(nodes: seq<Node>, nodes': seq<Node>) {
    |nodes| <= |nodes'| && forall n :: 0 <= n < |nodes| ==> nodes'[n].key == nodes[n].key
  }

  lemma ContainsAt(nodes: seq<Node>, list: seq<nat>, key: Key, x: Option<nat>)
    requires SortedList(nodes, list, 0) && Answers(nodes, list, FirstAtOrAfter(key), x)
    ensures key in KeysOf(nodes, list) <==> x.Some? && nodes[x.value].key == key
  {
    if key in KeysOf(nodes, list) {
      var i :| 0 <= i < |list| && nodes[list[i]].key == key;
      assert list[i] in list;
    }
    if x.Some? && nodes[x.value].key == key {
      var i :| 0 <= i < |list| && list[i] == x.value;
      assert KeysOf(nodes, list)[i] == key;
    }
  }

  lemma InsertedKey(nodes: seq<Node>, lists: seq<seq<nat>>, nodes': seq<Node>, lists': seq<seq<nat>>,
      node: Node, x: nat, n: nat, p: nat)
    requires Levels(nodes, lists) && Levels(nodes', lists')
    requires x == |nodes| < |nodes'| && KeepsKeys(nodes + [node], nodes')
    requires Stops(nodes', lists[0], FirstAtOrAfter(nodes'[x].key), n, p) && lists'[0] == Spliced(lists[0], p, x)
    requires forall n :: n in lists[0] && n < |nodes| ==> nodes[n].key != nodes'[x].key
    ensures SortedList(nodes, lists[0], 0) && SortedList(nodes', lists'[0], 0)
    ensures KeysOf(nodes', lists'[0]) == Inserted(KeysOf(nodes, lists[0]), nodes'[x].key)
  {
    var list, list' := lists[0], lists'[0];
    assert Linked(nodes, list, 0) && Linked(nodes', list', 0);
    hide Levels, Linked;
    var ks := KeysOf(nodes, list);
    forall i | 0 <= i < |list|
      ensures nodes'[list[i]].key == ks[i]
    {
      assert (nodes + [node])[list[i]] == nodes[list[i]];
    }
    if p < |list| {
      assert list[p] in list;
    }
    KeysSpliced(ks, nodes', list, list', x, p);
  }

  lemma KeysSpliced(ks: seq<Key>, nodes': seq<Node>, list: seq<nat>, list': seq<nat>, x: nat, p: nat)
    requires |ks| == |list| && p <= |list| && list' == Spliced(list, p, x) && SortedList(nodes', list', 0)
    requires forall i, j :: 0 <= i < j < |ks| ==> ks[i] < ks[j]
    requires forall i :: 0 <= i < |list| ==> list[i] < |nodes'| && nodes'[list[i]].key == ks[i]
    requires x < |nodes'| && (p > 0 ==> ks[p - 1] < nodes'[x].key) && (p < |ks| ==> nodes'[x].key < ks[p])
    ensures KeysOf(nodes', list') == Inserted(ks, nodes'[x].key)
  {
    hide SortedList;
    OrderedAround(ks, nodes'[x].key, p);
    InsertedAt(ks, nodes'[x].key, p);
    KeysAre(ks, nodes', list, list', x, p);
  }

  lemma KeysAre(ks: seq<Key>, nodes: seq<Node>, list: seq<nat>, list': seq<nat>, x: nat, p: nat)
    requires |ks| == |list| && p <= |list| && list' == Spliced(list, p, x) && SortedList(nodes, list', 0) && x < |nodes|
    requires forall i :: 0 <= i < |list| ==> list[i] < |nodes| && nodes[list[i]].key == ks[i]
    ensures KeysOf(nodes, list') == ks[..p] + [nodes[x].key] + ks[p..]
  {
    hide SortedList;
    var want, keys := ks[..p] + [nodes[x].key] + ks[p..], KeysOf(nodes, list');
    SplicedNodes(list, p, x);
    forall j | 0 <= j < |list'|
      ensures keys[j] == want[j]
    {
      SplicedKeyAt(ks, nodes, list, x, p, j);
    }
    hide Spliced;
    assert keys == want;
  }

  lemma OrderedAround(ks: seq<Key>, key: Key, p: nat)
    requires p <= |ks| && (p > 0 ==> ks[p - 1] < key) && forall i, j :: 0 <= i < j < |ks| ==> ks[i] < ks[j]
    ensures forall i :: 0 <= i < p ==> ks[i] < key
  {
  }

  lemma SplicedKeyAt(ks: seq<Key>, nodes: seq<Node>, list: seq<nat>, x: nat, p: nat, j: nat)
    requires |ks| == |list| && p <= |list| && j <= |list| && x < |nodes|
    requires forall i :: 0 <= i < |list| ==> list[i] < |nodes| && nodes[list[i]].key == ks[i]
    ensures Spliced(list, p, x)[j] < |nodes|
    ensures nodes[Spliced(list, p, x)[j]].key == (ks[..p] + [nodes[x].key] + ks[p..])[j]
  {
  }

  lemma AbsentKey(nodes: seq<Node>, lists: seq<seq<nat>>, key: Key)
    requires Levels(nodes, lists)
    ensures SortedList(nodes, lists[0], 0)
    ensures key !in KeysOf(nodes, lists[0]) ==> forall n :: n in lists[0] && n < |nodes| ==> nodes[n].key != key
  {
    var list := lists[0];
    assert Linked(nodes, list, 0);
    forall i | 0 <= i < |list|
      ensures nodes[list[i]].key in KeysOf(nodes, list)
    {
      assert KeysOf(nodes, list)[i] in KeysOf(nodes, list);
    }
  }

  /** Above the current height the lists are empty and the head is every key's predecessor. */
  lemma ExtendPrev(nodes: seq<Node>, lists: seq<seq<nat>>, key: Key, m: nat, prev: seq<nat>, height: nat)
    requires |prev| == m <= MAX_HEIGHT && height <= MAX_HEIGHT == |lists|
    requires forall l :: 0 <= l < m ==> StopsAfter(nodes, lists[l], FirstAtOrAfter(key), prev[l])
    requires forall l :: m <= l < MAX_HEIGHT ==> lists[l] == []
    ensures var all := if height > m then prev + seq(height - m, _ => 0) else prev;
            forall l :: 0 <= l < |all| ==> StopsAfter(nodes, lists[l], FirstAtOrAfter(key), all[l])
  {
    forall l | m <= l < height
      ensures StopsAfter(nodes, lists[l], FirstAtOrAfter(key), 0)
    {
      assert Stops(nodes, lists[l], FirstAtOrAfter(key), 0, 0);
    }
  }

  lemma ReadyToInsert(nodes: seq<Node>, lists: seq<seq<nat>>, key: Key, links: seq<Option<nat>>, prev: seq<nat>)
    requires Levels(nodes, lists) && 1 <= |links| <= MAX_HEIGHT && |links| <= |prev|
    requires forall n :: n in lists[0] && n < |nodes| ==> nodes[n].key != key
    requires forall l :: 0 <= l < |links| ==> StopsAfter(nodes, lists[l], FirstAtOrAfter(key), prev[l])
    ensures Inserting(nodes + [Node(key, links)], lists, |nodes|, prev, 0)
  {
    var nodes' := nodes + [Node(key, links)];
    Allocate(nodes, lists, Node(key, links));
    forall k, n | 0 <= k < MAX_HEIGHT && n in lists[k]
      ensures n < |nodes'| && nodes'[n].key != key
    {
      assert Sublist(lists[k], lists[0]) && Linked(nodes, lists[0], 0);
    }
    forall k | 0 <= k < |links|
      ensures StopsAfter(nodes', lists[k], FirstAtOrAfter(key), prev[k])
    {
      var p: nat :| Stops(nodes, lists[k], FirstAtOrAfter(key), prev[k], p);
      assert Stops(nodes', lists[k], FirstAtOrAfter(key), prev[k], p);
    }
  }

  /** Index of a search's answer: the first key not before `key`, or the last one before it. */
  lemma AnswerIndex(nodes: seq<Node>, list: seq<nat>, q: Query, r: Option<nat>) returns (at: nat)
    requires SortedList(nodes, list, 0) && Answers(nodes, list, q, r)
    ensures r == if at < |list| then Some(list[at]) else None
    ensures at <= |list|
    ensures q.FirstAtOrAfter? ==> forall c :: 0 <= c < |list| ==> (c < at <==> KeysOf(nodes, list)[c] < q.key)
    ensures q.LastBefore? ==> forall c :: 0 <= c < |list| ==> (at < |list| && c <= at <==> KeysOf(nodes, list)[c] < q.key)
    ensures q.Last? ==> at == if list == [] then 0 else |list| - 1
  {
    if list != [] {
      assert list[0] in list && list[|list| - 1] in list;
    }
    assert forall c :: 0 <= c < |list| ==> list[c] in list;
    if r.Some? {
      at :| 0 <= at < |list| && list[at] == r.value;
    } else {
      at := |list|;
    }
  }

  /** A cursor over a list that no one is inserting into. */
  class Iterator {
    const list: SkipList
    var node: Option<nat>
    ghost var at: nat                   // index into list.Contents(); its length when not valid

    ghost predicate Valid()
      reads this, list
    {
      list.Valid() && at <= |list.Contents()| && node == if at < |list.lists[0]| then Some(list.lists[0][at]) else None
    }

    constructor (list: SkipList)
      requires list.Valid()
      ensures Valid() && this.list == list && at == |list.Contents()|
    {
      this.list := list;
      node := None;
      at := |list.Contents()|;
    }

    method Current() returns (key: Key)
      requires Valid() && node.Some?
      ensures at < |list.Contents()| && key == list.Contents()[at]
    {
      assert Linked(list.nodes, list.lists[0], 0);
      key := list.nodes[node.value].key;
    }

    method Next()
      requires Valid() && node.Some?
      modifies this
      ensures Valid() && at == old(at) + 1
    {
      assert Linked(list.nodes, list.lists[0], 0);
      assert Succ(list.lists[0], at + 1, list.nodes[list.lists[0][at]].next[0]);
      node := list.nodes[node.value].next[0];
      at := at + 1;
    }

    method Prev()
      requires Valid() && node.Some?
      modifies this
      ensures Valid() && at == if old(at) == 0 then |list.Contents()| else old(at) - 1
    {
      assert Linked(list.nodes, list.lists[0], 0);
      var key := list.nodes[node.value].key;
      var x := list.FindLessThan(key);
      node := if x == 0 then None else Some(x);
      ghost var i := AnswerIndex(list.nodes, list.lists[0], LastBefore(key), node);
      assert list.Contents()[at] == key;
      assert at > 0 ==> list.Contents()[at - 1] < key;
      at := i;
    }

    method Seek(target: Key)
      requires Valid()
      modifies this
      ensures Valid() && forall c :: 0 <= c < |list.Contents()| ==> (c < at <==> list.Contents()[c] < target)
    {
      assert Linked(list.nodes, list.lists[0], 0);
      var r, _ := list.FindGreaterOrEqual(target);
      node := r;
      at := AnswerIndex(list.nodes, list.lists[0], FirstAtOrAfter(target), r);
    }

    method SeekToFirst()
      requires Valid()
      modifies this
      ensures Valid() && at == 0
    {
      assert Linked(list.nodes, list.lists[0], 0);
      node := list.nodes[0].next[0];
      at := 0;
    }

    method SeekToLast()
      requires Valid()
      modifies this
      ensures Valid() && at == if list.Contents() == [] then 0 else |list.Contents()| - 1
    {
      assert Linked(list.nodes, list.lists[0], 0);
      var x := list.FindLast();
      node := if x == 0 then None else Some(x);
      at := AnswerIndex(list.nodes, list.lists[0], Last, node);
    }
  }
}
