/** Intrusive circular doubly linked lists: LRU_Remove and LRU_Append in util/cache, New and Delete in
    db/snapshot.

    Nodes are named by numbers; `next` and `prev` hold their links.  A list's
    head is a dummy node: its `next` is the oldest element, its `prev` the newest. */
module Rings {
  /** The i-th node of the ring, counting the head as both ends. */
  function Node(head: nat, list: seq<nat>, i: nat): nat {
    if 1 <= i <= |list| then list[i - 1] else head
  }

  ghost predicate NoRepeats(list: seq<nat>) {
    forall i, j :: 0 <= i < j < |list| ==> list[i] != list[j]
  }

  /** The links of `head` and `list` form a ring in that order. */
  ghost predicate Ring(next: seq<nat>, prev: seq<nat>, head: nat, list: seq<nat>) {
    && |next| == |prev| && head < |next| && NoRepeats(list)
    && (forall i :: 0 <= i < |list| ==> list[i] < |next| && list[i] != head)
    && (forall i :: 0 <= i <= |list| ==> Linked(next, prev, Node(head, list, i), Node(head, list, i + 1)))
  }

  predicate Linked(next: seq<nat>, prev: seq<nat>, a: nat, b: nat) {
    a < |next| && b < |prev| && next[a] == b && prev[b] == a
  }

  /** e->next->prev = e->prev; e->prev->next = e->next. */
  predicate CanUnlink(next: seq<nat>, prev: seq<nat>, e: nat) {
    e < |next| == |prev| && next[e] < |next| && prev[e] < |next|
  }

  function UnlinkNext(next: seq<nat>, prev: seq<nat>, e: nat): seq<nat>
    requires CanUnlink(next, prev, e)
  {
    next[prev[e] := next[e]]
  }

  function UnlinkPrev(next: seq<nat>, prev: seq<nat>, e: nat): seq<nat>
    requires CanUnlink(next, prev, e)
  {
    prev[next[e] := prev[e]]
  }

  function Without(list: seq<nat>, p: nat): seq<nat>
    requires p < |list|
  {
    list[..p] + list[p + 1..]
  }

  lemma Unlink(next: seq<nat>, prev: seq<nat>, head: nat, list: seq<nat>, p: nat)
    requires Ring(next, prev, head, list) && p < |list|
    ensures CanUnlink(next, prev, list[p])
    ensures Ring(UnlinkNext(next, prev, list[p]), UnlinkPrev(next, prev, list[p]), head, Without(list, p))
  {
    assert Linked(next, prev, Node(head, list, p), Node(head, list, p + 1));
    assert Linked(next, prev, Node(head, list, p + 1), Node(head, list, p + 2));
    var list' := Without(list, p);
    var next', prev' := UnlinkNext(next, prev, list[p]), UnlinkPrev(next, prev, list[p]);
    forall i | 0 <= i <= |list'|
      ensures Linked(next', prev', Node(head, list', i), Node(head, list', i + 1))
    {
      UnlinkedAt(next, prev, head, list, p, i);
    }
  }

  lemma UnlinkedAt(next: seq<nat>, prev: seq<nat>, head: nat, list: seq<nat>, p: nat, i: nat)
    requires Ring(next, prev, head, list) && p < |list| && i <= |list| - 1 && CanUnlink(next, prev, list[p])
    ensures var list' := Without(list, p);
            Linked(UnlinkNext(next, prev, list[p]), UnlinkPrev(next, prev, list[p]), Node(head, list', i), Node(head, list', i + 1))
  {
    assert Linked(next, prev, Node(head, list, p), Node(head, list, p + 1));
    assert Linked(next, prev, Node(head, list, p + 1), Node(head, list, p + 2));
    assert Linked(next, prev, Node(head, list, i), Node(head, list, i + 1));
    assert Linked(next, prev, Node(head, list, i + 1), Node(head, list, i + 2));
    assert Node(head, Without(list, p), i) == if i <= p then Node(head, list, i) else Node(head, list, i + 1);
    assert Node(head, Without(list, p), i + 1) == if i + 1 <= p then Node(head, list, i + 1) else Node(head, list, i + 2);
  }

  /** Two rings without a common node. */
  ghost predicate Apart(h: nat, a: seq<nat>, g: nat, b: seq<nat>) {
    h != g && h !in b && g !in a && forall x :: x in a ==> x !in b
  }

  lemma UnlinkApart(next: seq<nat>, prev: seq<nat>, head: nat, list: seq<nat>, p: nat, other: nat, others: seq<nat>)
    requires Ring(next, prev, head, list) && p < |list| && CanUnlink(next, prev, list[p])
    requires Ring(next, prev, other, others) && Apart(head, list, other, others)
    ensures Ring(UnlinkNext(next, prev, list[p]), UnlinkPrev(next, prev, list[p]), other, others)
    ensures Apart(head, Without(list, p), other, others)
  {
    assert Linked(next, prev, Node(head, list, p), Node(head, list, p + 1));
    assert Linked(next, prev, Node(head, list, p + 1), Node(head, list, p + 2));
    var next', prev' := UnlinkNext(next, prev, list[p]), UnlinkPrev(next, prev, list[p]);
    forall i | 0 <= i <= |others|
      ensures Linked(next', prev', Node(other, others, i), Node(other, others, i + 1))
    {
      assert Linked(next, prev, Node(other, others, i), Node(other, others, i + 1));
      InOne(head, list, p, other, others, i);
      InOne(head, list, p + 2, other, others, i + 1);
    }
  }

  lemma InOne(h: nat, a: seq<nat>, i: nat, g: nat, b: seq<nat>, j: nat)
    requires Apart(h, a, g, b)
    ensures Node(h, a, i) != Node(g, b, j)
  {
    assert 1 <= i <= |a| ==> a[i - 1] in a;
    assert 1 <= j <= |b| ==> b[j - 1] in b;
  }

  /** e->next = head; e->prev = head->prev; e->prev->next = e; e->next->prev = e. */
  function AppendNext(next: seq<nat>, prev: seq<nat>, head: nat, e: nat): seq<nat>
    requires head < |next| == |prev| && e < |next| && prev[head] < |next|
  {
    next[e := head][prev[head] := e]
  }

  function AppendPrev(next: seq<nat>, prev: seq<nat>, head: nat, e: nat): seq<nat>
    requires head < |next| == |prev| && e < |next| && prev[head] < |next|
  {
    prev[e := prev[head]][head := e]
  }

  lemma Append(next: seq<nat>, prev: seq<nat>, head: nat, list: seq<nat>, e: nat)
    requires Ring(next, prev, head, list) && e < |next| && e != head && e !in list
    ensures prev[head] < |next|
    ensures Ring(AppendNext(next, prev, head, e), AppendPrev(next, prev, head, e), head, list + [e])
  {
    var n := |list|;
    assert Linked(next, prev, Node(head, list, n), Node(head, list, n + 1));
    var list' := list + [e];
    var next', prev' := AppendNext(next, prev, head, e), AppendPrev(next, prev, head, e);
    forall i | 0 <= i <= n + 1
      ensures Linked(next', prev', Node(head, list', i), Node(head, list', i + 1))
    {
      if i < n {
        assert Linked(next, prev, Node(head, list, i), Node(head, list, i + 1));
        assert Node(head, list, i) != Node(head, list, n) && Node(head, list, i + 1) == list[i];
      }
    }
  }

  lemma AppendApart(next: seq<nat>, prev: seq<nat>, head: nat, list: seq<nat>, e: nat, other: nat, others: seq<nat>)
    requires Ring(next, prev, head, list) && e < |next| && e != head && e !in list && prev[head] < |next|
    requires Ring(next, prev, other, others) && Apart(head, list, other, others) && e != other && e !in others
    ensures Ring(AppendNext(next, prev, head, e), AppendPrev(next, prev, head, e), other, others)
    ensures Apart(head, list + [e], other, others)
  {
    var n := |list|;
    assert Linked(next, prev, Node(head, list, n), Node(head, list, n + 1));
    var next', prev' := AppendNext(next, prev, head, e), AppendPrev(next, prev, head, e);
    forall i | 0 <= i <= |others|
      ensures Linked(next', prev', Node(other, others, i), Node(other, others, i + 1))
    {
      assert Linked(next, prev, Node(other, others, i), Node(other, others, i + 1));
      InOne(head, list, n, other, others, i);
    }
  }

  lemma Grow(next: seq<nat>, prev: seq<nat>, head: nat, list: seq<nat>, n: nat, p: nat)
    requires Ring(next, prev, head, list)
    ensures Ring(next + [n], prev + [p], head, list)
  {
    forall i | 0 <= i <= |list|
      ensures Linked(next + [n], prev + [p], Node(head, list, i), Node(head, list, i + 1))
    {
      assert Linked(next, prev, Node(head, list, i), Node(head, list, i + 1));
    }
  }
}
