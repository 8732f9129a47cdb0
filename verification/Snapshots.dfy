/** The list of live snapshots (db/snapshot), oldest first. */
module Snapshots {
  import opened Keys
  import opened Rings

  const HEAD: nat := 0

  ghost function NumbersOf(numbers: seq<SequenceNumber>, list: seq<nat>): (s: seq<SequenceNumber>)
    requires forall i :: 0 <= i < |list| ==> list[i] < |numbers|
    ensures |s| == |list| && forall i :: 0 <= i < |s| ==> s[i] == numbers[list[i]]
  {
    seq(|list|, i requires 0 <= i < |list| => numbers[list[i]])
  }

  lemma RingBounds(next: seq<nat>, prev: seq<nat>, head: nat, list: seq<nat>)
    requires Ring(next, prev, head, list)
    ensures |next| == |prev| && head < |next| && forall i :: 0 <= i < |list| ==> list[i] < |next|
  {
  }

  lemma NewIsNewest(numbers: seq<SequenceNumber>, list: seq<nat>, h: nat, sn: SequenceNumber)
    requires h == |numbers| && (forall i :: 0 <= i < |list| ==> list[i] < |numbers|)
    requires forall i, j :: 0 <= i < j < |list| ==> numbers[list[i]] <= numbers[list[j]]
    requires list != [] ==> numbers[list[|list| - 1]] <= sn
    ensures var numbers', list' := numbers + [sn], list + [h];
            && NumbersOf(numbers', list') == NumbersOf(numbers, list) + [sn]
            && forall i, j :: 0 <= i < j < |list'| ==> numbers'[list'[i]] <= numbers'[list'[j]]
  {
    assert forall i :: 0 <= i < |list| ==> numbers[list[i]] <= numbers[list[|list| - 1]];
  }

  class SnapshotList {
    var next: seq<nat>
    var prev: seq<nat>
    var numbers: seq<SequenceNumber>
    ghost var list: seq<nat>

    ghost predicate Valid()
      reads this
    {
      && |numbers| == |next| && Ring(next, prev, HEAD, list)
      && forall i, j :: 0 <= i < j < |list| ==> numbers[list[i]] <= numbers[list[j]]
    }

    /** The sequence numbers of the live snapshots, as a database keeps them. */
    ghost function Live(): (s: seq<SequenceNumber>)
      requires Valid()
      reads this
    {
      NumbersOf(numbers, list)
    }

    constructor ()
      ensures Valid() && Live() == []
    {
      next, prev, numbers, list := [HEAD], [HEAD], [0], [];
    }

    method Empty() returns (empty: bool)
      requires Valid()
      ensures empty <==> Live() == []
    {
      assert Linked(next, prev, Rings.Node(HEAD, list, 0), Rings.Node(HEAD, list, 1));
      empty := next[HEAD] == HEAD;
    }

    /** The smallest live sequence number, on which a compaction's drop rules depend. */
    method Oldest() returns (sn: SequenceNumber)
      requires Valid() && Live() != []
      ensures sn == Live()[0] && forall i :: 0 <= i < |Live()| ==> sn <= Live()[i]
    {
      assert Linked(next, prev, Rings.Node(HEAD, list, 0), Rings.Node(HEAD, list, 1));
      sn := numbers[next[HEAD]];
    }

    method New(sn: SequenceNumber) returns (h: nat)
      requires Valid() && (Live() != [] ==> Live()[|Live()| - 1] <= sn)
      modifies this
      ensures Valid() && Live() == old(Live()) + [sn] && list == old(list) + [h]
    {
      h := |next|;
      RingBounds(next, prev, HEAD, list);
      Grow(next, prev, HEAD, list, HEAD, HEAD);
      RingBounds(next + [HEAD], prev + [HEAD], HEAD, list);
      Append(next + [HEAD], prev + [HEAD], HEAD, list, h);
      hide Ring, AppendNext, AppendPrev;
      RingBounds(AppendNext(next + [HEAD], prev + [HEAD], HEAD, h), AppendPrev(next + [HEAD], prev + [HEAD], HEAD, h), HEAD, list + [h]);
      NewIsNewest(numbers, list, h, sn);
      next, prev := AppendNext(next + [HEAD], prev + [HEAD], HEAD, h), AppendPrev(next + [HEAD], prev + [HEAD], HEAD, h);
      numbers, list := numbers + [sn], list + [h];
    }

    /** h is the i-th live snapshot. */
    method Delete(h: nat, ghost i: nat)
      requires Valid() && i < |list| && list[i] == h
      modifies this
      ensures Valid() && Live() == old(Live()[..i] + Live()[i + 1..]) && list == Without(old(list), i)
    {
      Unlink(next, prev, HEAD, list, i);
      hide Ring;
      ghost var live := Live();
      next, prev := UnlinkNext(next, prev, h), UnlinkPrev(next, prev, h);
      ghost var was := list;
      list := Without(list, i);
      forall j | 0 <= j < |list|
        ensures list[j] == was[if j < i then j else j + 1]
      {
      }
      assert Live() == live[..i] + live[i + 1..];
    }
  }
}
