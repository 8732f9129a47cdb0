/** MergingIterator: one cursor over the sorted union of several sorted children. */
module Merging {
  import opened Options
  import opened Keys

  /** Sorted children that share no key, and the list that merges them. */
  ghost predicate Merges(children: seq<seq<Entry>>, merged: seq<Entry>) {
    && (forall i :: 0 <= i < |children| ==> Sorted(children[i]))
    && NoSharedKey(children)
    && Sorted(merged)
    && (forall i, a :: 0 <= i < |children| && 0 <= a < |children[i]| ==> children[i][a] in merged)
    && (forall a :: 0 <= a < |merged| ==> InChild(children, merged[a]))
  }

  ghost predicate NoSharedKey(children: seq<seq<Entry>>) {
    forall i, j, a, b ::
      (0 <= i < |children| && 0 <= j < |children| && 0 <= a < |children[i]| && 0 <= b < |children[j]|
       && children[i][a].key == children[j][b].key)
      ==> i == j
  }

  ghost predicate InChild(children: seq<seq<Entry>>, e: Entry) {
    exists i :: 0 <= i < |children| && e in children[i]
  }

  /** Child i stands at its first entry not before merged[a]. */
  ghost predicate StandsAt(child: seq<Entry>, p: nat, merged: seq<Entry>, a: nat) {
    && p <= |child| && a <= |merged|
    && forall j :: 0 <= j < |child| ==> (j < p <==> a == |merged| || Less(child[j].key, merged[a].key))
  }

  /** Child i stands at its last entry not after merged[b], or is invalid if there is none. */
  ghost predicate StandsBack(child: seq<Entry>, p: nat, merged: seq<Entry>, b: int) {
    && p <= |child| && -1 <= b < |merged|
    && forall j :: 0 <= j < |child| ==> (p < |child| && j <= p <==> b >= 0 && !Less(merged[b].key, child[j].key))
  }

  ghost predicate AllAt(children: seq<seq<Entry>>, pos: seq<nat>, merged: seq<Entry>, a: nat) {
    |pos| == |children| && forall i :: 0 <= i < |children| ==> StandsAt(children[i], pos[i], merged, a)
  }

  ghost predicate AllBack(children: seq<seq<Entry>>, pos: seq<nat>, merged: seq<Entry>, b: int) {
    |pos| == |children| && forall i :: 0 <= i < |children| ==> StandsBack(children[i], pos[i], merged, b)
  }

  predicate ChildValid(children: seq<seq<Entry>>, pos: seq<nat>, i: nat)
    requires |pos| == |children| && i < |children|
  {
    pos[i] < |children[i]|
  }

  /** The valid child with the smallest key, if any. */
  ghost predicate IsSmallestChild(children: seq<seq<Entry>>, pos: seq<nat>, c: Option<nat>)
    requires |pos| == |children|
  {
    match c
    case None => forall i :: 0 <= i < |children| ==> !ChildValid(children, pos, i)
    case Some(c) => && c < |children| && ChildValid(children, pos, c)
                    && forall i :: 0 <= i < |children| && ChildValid(children, pos, i)
                         ==> !Less(children[i][pos[i]].key, children[c][pos[c]].key)
  }

  ghost predicate IsLargestChild(children: seq<seq<Entry>>, pos: seq<nat>, c: Option<nat>)
    requires |pos| == |children|
  {
    match c
    case None => forall i :: 0 <= i < |children| ==> !ChildValid(children, pos, i)
    case Some(c) => && c < |children| && ChildValid(children, pos, c)
                    && forall i :: 0 <= i < |children| && ChildValid(children, pos, i)
                         ==> !Less(children[c][pos[c]].key, children[i][pos[i]].key)
  }

  /** If every child stands at its first entry not before merged[a], the smallest is merged[a]. */
  lemma SmallestIsNext(children: seq<seq<Entry>>, pos: seq<nat>, merged: seq<Entry>, a: nat, c: Option<nat>)
    requires Merges(children, merged) && AllAt(children, pos, merged, a) && IsSmallestChild(children, pos, c) && a <= |merged|
    ensures c.None? <==> a == |merged|
    ensures c.Some? ==> children[c.value][pos[c.value]] == merged[a]
  {
    if a < |merged| {
      var i :| 0 <= i < |children| && merged[a] in children[i];
      var j :| 0 <= j < |children[i]| && children[i][j] == merged[a];
      assert StandsAt(children[i], pos[i], merged, a);
      assert pos[i] <= j;
      assert ChildValid(children, pos, i);
      var k := c.value;
      assert StandsAt(children[k], pos[k], merged, a);
      assert !Less(children[i][j].key, children[i][pos[i]].key);
      SameKeySameEntry(children, merged, k, pos[k], a);
    } else {
      forall i | 0 <= i < |children|
        ensures !ChildValid(children, pos, i)
      {
        assert StandsAt(children[i], pos[i], merged, a);
      }
    }
  }

  lemma SameKeySameEntry(children: seq<seq<Entry>>, merged: seq<Entry>, k: nat, p: nat, a: nat)
    requires Merges(children, merged) && k < |children| && p < |children[k]| && a < |merged|
    requires children[k][p].key == merged[a].key
    ensures children[k][p] == merged[a]
  {
    assert children[k][p] in merged;
    var b :| 0 <= b < |merged| && merged[b] == children[k][p];
  }

  lemma LargestIsPrevious(children: seq<seq<Entry>>, pos: seq<nat>, merged: seq<Entry>, b: int, c: Option<nat>)
    requires Merges(children, merged) && AllBack(children, pos, merged, b) && IsLargestChild(children, pos, c) && -1 <= b < |merged|
    ensures c.None? <==> b < 0
    ensures c.Some? ==> children[c.value][pos[c.value]] == merged[b]
  {
    if b >= 0 {
      var i :| 0 <= i < |children| && merged[b] in children[i];
      var j :| 0 <= j < |children[i]| && children[i][j] == merged[b];
      assert StandsBack(children[i], pos[i], merged, b);
      assert j <= pos[i] < |children[i]|;
      assert !Less(children[i][pos[i]].key, children[i][j].key);
      assert ChildValid(children, pos, i);
      var k := c.value;
      assert StandsBack(children[k], pos[k], merged, b);
      SameKeySameEntry(children, merged, k, pos[k], b);
    } else {
      forall i | 0 <= i < |children|
        ensures !ChildValid(children, pos, i)
      {
        assert StandsBack(children[i], pos[i], merged, b);
      }
    }
  }

  lemma AtLowerBound(child: seq<Entry>, merged: seq<Entry>, t: InternalKey)
    requires Sorted(child) && Sorted(merged) && forall j :: 0 <= j < |child| ==> child[j] in merged
    ensures StandsAt(child, LowerBound(child, t), merged, LowerBound(merged, t))
  {
    var p, a := LowerBound(child, t), LowerBound(merged, t);
    forall j | 0 <= j < |child|
      ensures j < p <==> a == |merged| || Less(child[j].key, merged[a].key)
    {
      var b :| 0 <= b < |merged| && merged[b] == child[j];
      assert p < j ==> Less(child[p].key, child[j].key);
      assert a < b ==> Less(merged[a].key, merged[b].key);
      assert b < a ==> a == |merged| || Less(merged[b].key, merged[a].key);
    }
  }

  /** The current child's key is merged[a]: seeking the others to it lines everyone up. */
  lemma LowerBoundAt(merged: seq<Entry>, a: nat)
    requires Sorted(merged) && a < |merged|
    ensures LowerBound(merged, merged[a].key) == a
  {
    var r := LowerBound(merged, merged[a].key);
    assert r <= a;
    assert !Less(merged[r].key, merged[a].key);
  }

  /** Stepping over merged[a]: only the child that holds it moves. */
  lemma StepForward(child: seq<Entry>, p: nat, merged: seq<Entry>, a: nat)
    requires Sorted(child) && Sorted(merged) && (forall j :: 0 <= j < |child| ==> child[j] in merged)
    requires a < |merged| && StandsAt(child, p, merged, a)
    ensures p < |child| && child[p] == merged[a] ==> StandsAt(child, p + 1, merged, a + 1)
    ensures merged[a] !in child ==> StandsAt(child, p, merged, a + 1)
  {
    forall j | 0 <= j < |child|
      ensures a + 1 < |merged| ==> (Less(child[j].key, merged[a + 1].key) <==> Less(child[j].key, merged[a].key) || child[j] == merged[a])
      ensures a + 1 == |merged| ==> Less(child[j].key, merged[a].key) || child[j] == merged[a]
    {
      var b :| 0 <= b < |merged| && merged[b] == child[j];
      assert b < a + 1 < |merged| ==> Less(merged[b].key, merged[a + 1].key);
      assert a + 1 < b ==> Less(merged[a + 1].key, merged[b].key);
      assert b < a ==> Less(merged[b].key, merged[a].key);
      assert a < b ==> Less(merged[a].key, merged[b].key);
    }
  }

  lemma StepBackward(child: seq<Entry>, p: nat, merged: seq<Entry>, b: nat)
    requires Sorted(child) && Sorted(merged) && (forall j :: 0 <= j < |child| ==> child[j] in merged)
    requires b < |merged| && StandsBack(child, p, merged, b)
    ensures p < |child| && child[p] == merged[b] ==> StandsBack(child, Before(child, p), merged, b - 1)
    ensures merged[b] !in child ==> StandsBack(child, p, merged, b - 1)
  {
    forall j | 0 <= j < |child|
      ensures (b >= 1 && !Less(merged[b - 1].key, child[j].key)) <==> (!Less(merged[b].key, child[j].key) && child[j] != merged[b])
    {
      NotAfter(child, j, merged, b);
    }
    if p < |child| && child[p] == merged[b] {
      forall j | 0 <= j < |child|
        ensures j < p <==> (b >= 1 && !Less(merged[b - 1].key, child[j].key))
      {
        assert j < p ==> Less(child[j].key, child[p].key);
        assert j <= p <==> !Less(merged[b].key, child[j].key);
      }
      if p > 0 {
        assert b >= 1 by {
          assert child[p - 1] in merged;
          assert Less(child[p - 1].key, child[p].key);
        }
      }
    }
    if merged[b] !in child {
      assert StandsBack(child, p, merged, b - 1);
    }
  }

  lemma NotAfter(child: seq<Entry>, j: nat, merged: seq<Entry>, b: nat)
    requires Sorted(merged) && j < |child| && child[j] in merged && b < |merged|
    ensures (b >= 1 && !Less(merged[b - 1].key, child[j].key)) <==> (!Less(merged[b].key, child[j].key) && child[j] != merged[b])
    ensures !Less(merged[b].key, child[j].key) <==> Less(child[j].key, merged[b].key) || child[j] == merged[b]
  {
    var d :| 0 <= d < |merged| && merged[d] == child[j];
    assert b < d ==> Less(merged[b].key, merged[d].key);
    assert d < b ==> Less(merged[d].key, merged[b].key);
    assert b >= 1 && b - 1 < d ==> Less(merged[b - 1].key, merged[d].key);
    assert b >= 1 && d < b - 1 ==> Less(merged[d].key, merged[b - 1].key);
  }

  /** The entry before position p; the cursor becomes invalid at the front. */
  function Before(child: seq<Entry>, p: nat): nat {
    if p == 0 then |child| else p - 1
  }

  /** A child without merged[a], taken from its first entry at or after it to its last one before. */
  lemma TurnBack(child: seq<Entry>, p: nat, merged: seq<Entry>, a: nat)
    requires Sorted(child) && Sorted(merged) && (forall j :: 0 <= j < |child| ==> child[j] in merged)
    requires a < |merged| && StandsAt(child, p, merged, a) && merged[a] !in child
    ensures StandsBack(child, Before(child, p), merged, a - 1)
  {
    forall j | 0 <= j < |child|
      ensures j < p <==> (a >= 1 && !Less(merged[a - 1].key, child[j].key))
    {
      NotAfter(child, j, merged, a);
    }
  }

  lemma OnlyInOne(children: seq<seq<Entry>>, c: nat, p: nat, i: nat)
    requires NoSharedKey(children)
    requires c < |children| && i < |children| && c != i && p < |children[c]|
    ensures forall j :: 0 <= j < |children[i]| ==> children[i][j].key != children[c][p].key
    ensures children[c][p] !in children[i]
  {
  }

  lemma AdvanceAll(children: seq<seq<Entry>>, pos: seq<nat>, merged: seq<Entry>, a: nat, c: nat)
    requires Merges(children, merged) && AllAt(children, pos, merged, a) && a < |merged|
    requires c < |children| && ChildValid(children, pos, c) && children[c][pos[c]] == merged[a]
    ensures AllAt(children, pos[c := pos[c] + 1], merged, a + 1)
  {
    forall i | 0 <= i < |children|
      ensures StandsAt(children[i], pos[c := pos[c] + 1][i], merged, a + 1)
    {
      hide StandsAt, Less, Sorted;
      if i != c {
        OnlyInOne(children, c, pos[c], i);
      }
      StepForward(children[i], pos[i], merged, a);
    }
  }

  lemma RetreatOthers(children: seq<seq<Entry>>, pos: seq<nat>, merged: seq<Entry>, b: nat, c: nat)
    requires Merges(children, merged) && AllBack(children, pos, merged, b) && b < |merged|
    requires c < |children| && ChildValid(children, pos, c) && children[c][pos[c]] == merged[b]
    ensures OthersBack(children, pos, merged, b - 1, c)
  {
    forall i | 0 <= i < |children| && i != c
      ensures StandsBack(children[i], pos[i], merged, b - 1)
    {
      hide StandsBack, Less, Sorted;
      OnlyInOne(children, c, pos[c], i);
      StepBackward(children[i], pos[i], merged, b);
    }
  }

  /** All children but c stand back at merged[b]. */
  ghost predicate OthersBack(children: seq<seq<Entry>>, pos: seq<nat>, merged: seq<Entry>, b: int, c: nat) {
    |pos| == |children| && forall i :: 0 <= i < |children| && i != c ==> StandsBack(children[i], pos[i], merged, b)
  }

  lemma RetreatCurrent(children: seq<seq<Entry>>, pos: seq<nat>, merged: seq<Entry>, b: nat, c: nat)
    requires Merges(children, merged) && OthersBack(children, pos, merged, b - 1, c) && b < |merged|
    requires c < |children| && ChildValid(children, pos, c) && children[c][pos[c]] == merged[b]
    ensures AllBack(children, pos[c := Before(children[c], pos[c])], merged, b - 1)
  {
    CurrentStandsBack(children, merged, c, pos[c], b);
    hide StandsBack, Less, Sorted, Before;
    StepBackward(children[c], pos[c], merged, b);
  }

  lemma TurnChildBack(children: seq<seq<Entry>>, merged: seq<Entry>, a: nat, c: nat, p: nat, i: nat)
    requires Merges(children, merged) && a < |merged| && c < |children| && p < |children[c]|
    requires children[c][p] == merged[a] && i < |children| && i != c
    ensures StandsBack(children[i], Before(children[i], LowerBound(children[i], merged[a].key)), merged, a - 1)
  {
    hide StandsAt, StandsBack, Less, Before;
    LowerBoundAt(merged, a);
    AtLowerBound(children[i], merged, merged[a].key);
    OnlyInOne(children, c, p, i);
    TurnBack(children[i], LowerBound(children[i], merged[a].key), merged, a);
  }

  class MergingIterator {
    const children: seq<seq<Entry>>
    ghost const merged: seq<Entry>
    ghost var at: nat                   // position in `merged`; |merged| when not valid
    var pos: seq<nat>                   // each child's position; its length when not valid
    var current: Option<nat>
    var forward: bool

    constructor (children: seq<seq<Entry>>, ghost merged: seq<Entry>)
      requires Merges(children, merged)
      ensures Valid() && at == |merged|
      ensures this.children == children && this.merged == merged
    {
      this.children, this.merged := children, merged;
      at := |merged|;
      pos := seq(|children|, i requires 0 <= i < |children| => |children[i]|);
      current, forward := None, true;
    }

    ghost predicate Valid()
      reads this
      ensures Valid() ==> at <= |merged| && Sorted(merged)
    {
      && Merges(children, merged) && at <= |merged| && |pos| == |children|
      && (forall i :: 0 <= i < |children| ==> pos[i] <= |children[i]|)
      && (current.Some? <==> at < |merged|)
      && (current.Some? ==> current.value < |children| && ChildValid(children, pos, current.value)
                            && children[current.value][pos[current.value]] == merged[at])
      && (at < |merged| ==> if forward then AllAt(children, pos, merged, at) else AllBack(children, pos, merged, at))
    }

    /** Valid(), key(), value() of the source. */
    predicate HasCurrent()
      requires Valid()
      reads this
      ensures HasCurrent() <==> at < |merged|
    {
      current.Some?
    }

    function Current(): (e: Entry)
      requires Valid() && HasCurrent()
      reads this
      ensures e == merged[at]
    {
      children[current.value][pos[current.value]]
    }

    method FindSmallest() returns (c: Option<nat>)
      requires |pos| == |children| && forall i :: 0 <= i < |children| ==> pos[i] <= |children[i]|
      ensures IsSmallestChild(children, pos, c)
    {
      c := None;
      for i := 0 to |children|
        invariant c.Some? ==> c.value < i && ChildValid(children, pos, c.value)
        invariant forall j :: 0 <= j < i && ChildValid(children, pos, j) ==>
                    c.Some? && !Less(children[j][pos[j]].key, children[c.value][pos[c.value]].key)
      {
        if pos[i] < |children[i]| {
          if c.None? || Less(children[i][pos[i]].key, children[c.value][pos[c.value]].key) {
            c := Some(i);
          }
        }
      }
    }

    method FindLargest() returns (c: Option<nat>)
      requires |pos| == |children| && forall i :: 0 <= i < |children| ==> pos[i] <= |children[i]|
      ensures IsLargestChild(children, pos, c)
    {
      c := None;
      for i := |children| downto 0
        invariant c.Some? ==> i <= c.value < |children| && ChildValid(children, pos, c.value)
        invariant forall j :: i <= j < |children| && ChildValid(children, pos, j) ==>
                    c.Some? && !Less(children[c.value][pos[c.value]].key, children[j][pos[j]].key)
      {
        if pos[i] < |children[i]| {
          if c.None? || Less(children[c.value][pos[c.value]].key, children[i][pos[i]].key) {
            c := Some(i);
          }
        }
      }
    }

    /** Settle on the smallest child once all stand at merged[a]. */
    method SettleForward(ghost a: nat)
      requires Merges(children, merged) && a <= |merged| && AllAt(children, pos, merged, a)
      modifies this`current, this`at, this`forward
      ensures Valid() && at == a && forward
    {
      current := FindSmallest();
      SmallestIsNext(children, pos, merged, a, current);
      at := a;
      forward := true;
    }

    /** Settle on the largest child once all stand back at merged[b]. */
    method SettleBackward(ghost b: int)
      requires Merges(children, merged) && -1 <= b < |merged| && AllBack(children, pos, merged, b)
      modifies this`current, this`at, this`forward
      ensures Valid() && at == (if b < 0 then |merged| else b) && !forward
    {
      current := FindLargest();
      LargestIsPrevious(children, pos, merged, b, current);
      at := if b < 0 then |merged| else b;
      forward := false;
    }

    method SeekToFirst()
      requires Valid()
      modifies this`pos, this`current, this`at, this`forward
      ensures Valid() && at == 0
    {
      pos := seq(|children|, _ => 0);
      assert AllAt(children, pos, merged, 0) by {
        FirstIsLeast(children, merged);
      }
      SettleForward(0);
    }

    method SeekToLast()
      requires Valid()
      modifies this`pos, this`current, this`at, this`forward
      ensures Valid() && at == if merged == [] then 0 else |merged| - 1
    {
      pos := seq(|children|, i requires 0 <= i < |children| => if children[i] == [] then 0 else |children[i]| - 1);
      assert AllBack(children, pos, merged, |merged| - 1) by {
        LastIsGreatest(children, merged);
      }
      SettleBackward(|merged| - 1);
    }

    method Seek(t: InternalKey)
      requires Valid()
      modifies this`pos, this`current, this`at, this`forward
      ensures Valid() && at == LowerBound(merged, t)
    {
      pos := seq(|children|, i requires 0 <= i < |children| => LowerBound(children[i], t));
      assert AllAt(children, pos, merged, LowerBound(merged, t)) by {
        forall i | 0 <= i < |children|
          ensures StandsAt(children[i], pos[i], merged, LowerBound(merged, t))
        {
          AtLowerBound(children[i], merged, t);
        }
      }
      SettleForward(LowerBound(merged, t));
    }

    /** To the next entry of the merge, whichever way the cursor was moving. */
    method Next()
      requires Valid() && HasCurrent()
      modifies this`pos, this`current, this`at, this`forward
      ensures Valid() && at == old(at) + 1
    {
      var c := current.value;
      if !forward {
        ForwardOthers(c);
      }
      AdvanceAll(children, pos, merged, at, c);
      pos := pos[c := pos[c] + 1];
      SettleForward(at + 1);
    }

    /** To the previous entry of the merge; not valid before the first one. */
    method Prev()
      requires Valid() && HasCurrent()
      modifies this`pos, this`current, this`at, this`forward
      ensures Valid() && at == if old(at) == 0 then |merged| else old(at) - 1
    {
      var c := current.value;
      if forward {
        TurnOthersBack(c);
      } else {
        RetreatOthers(children, pos, merged, at, c);
      }
      RetreatCurrent(children, pos, merged, at, c);
      pos := pos[c := Before(children[c], pos[c])];
      SettleBackward(at - 1);
    }

    /** Direction switch of Next: every other child to its first entry after the current key. */
    method ForwardOthers(c: nat)
      requires Valid() && current == Some(c)
      modifies this`pos, this`forward
      ensures Valid() && forward && pos[c] == old(pos[c])
    {
      var key := children[c][pos[c]].key;
      LowerBoundAt(merged, at);
      ghost var was := pos[c];
      for i := 0 to |children|
        invariant |pos| == |children| && pos[c] == was
        invariant forall j :: 0 <= j < i && j != c ==> StandsAt(children[j], pos[j], merged, at)
      {
        if i != c {
          var p := LowerBound(children[i], key);
          AtLowerBound(children[i], merged, key);
          OnlyInOne(children, c, was, i);
          if p < |children[i]| && children[i][p].key == key {
            p := p + 1;
          }
          pos := pos[i := p];
        }
      }
      CurrentStandsAt(children, merged, c, was, at);
      forward := true;
    }

    /** Direction switch of Prev: every other child to its last entry before the current key. */
    method TurnOthersBack(c: nat)
      requires Valid() && current == Some(c) && forward
      modifies this`pos
      ensures OthersBack(children, pos, merged, at - 1, c) && pos[c] == old(pos[c])
    {
      hide StandsBack, StandsAt, Less;
      var key := children[c][pos[c]].key;
      ghost var was := pos[c];
      for i := 0 to |children|
        invariant |pos| == |children| && pos[c] == was
        invariant forall j :: 0 <= j < i && j != c ==> StandsBack(children[j], pos[j], merged, at - 1)
      {
        if i != c {
          TurnChildBack(children, merged, at, c, was, i);
          var p := LowerBound(children[i], key);
          if p < |children[i]| {
            p := Before(children[i], p);
          } else {
            p := if children[i] == [] then 0 else |children[i]| - 1;
          }
          pos := pos[i := p];
        }
      }
    }
  }

  lemma CurrentStandsAt(children: seq<seq<Entry>>, merged: seq<Entry>, c: nat, p: nat, a: nat)
    requires Merges(children, merged) && c < |children| && p < |children[c]| && a < |merged|
    requires children[c][p] == merged[a]
    ensures StandsAt(children[c], p, merged, a)
  {
    var child := children[c];
    assert Sorted(child);
    forall j | 0 <= j < |child|
      ensures j < p <==> Less(child[j].key, child[p].key)
    {
    }
  }

  lemma CurrentStandsBack(children: seq<seq<Entry>>, merged: seq<Entry>, c: nat, p: nat, b: nat)
    requires Merges(children, merged) && c < |children| && p < |children[c]| && b < |merged|
    requires children[c][p] == merged[b]
    ensures StandsBack(children[c], p, merged, b)
  {
    var child := children[c];
    assert Sorted(child);
    forall j | 0 <= j < |child|
      ensures j <= p <==> !Less(child[p].key, child[j].key)
    {
    }
  }

  lemma FirstIsLeast(children: seq<seq<Entry>>, merged: seq<Entry>)
    requires Merges(children, merged)
    ensures forall i :: 0 <= i < |children| ==> StandsAt(children[i], 0, merged, 0)
  {
    forall i | 0 <= i < |children|
      ensures StandsAt(children[i], 0, merged, 0)
    {
      var child := children[i];
      forall j | 0 <= j < |child|
        ensures j < 0 <==> 0 == |merged| || Less(child[j].key, merged[0].key)
      {
        assert children[i][j] in merged;
        HeadLeast(merged, child[j]);
      }
    }
  }

  /** A sorted list's first entry is its least. */
  lemma HeadLeast(list: seq<Entry>, e: Entry)
    requires Sorted(list) && e in list
    ensures list != [] && (e == list[0] || Less(list[0].key, e.key))
  {
    var i :| 0 <= i < |list| && list[i] == e;
  }

  lemma LastIsGreatest(children: seq<seq<Entry>>, merged: seq<Entry>)
    requires Merges(children, merged)
    ensures forall i :: 0 <= i < |children| ==>
              StandsBack(children[i], if children[i] == [] then 0 else |children[i]| - 1, merged, |merged| - 1)
  {
    forall i | 0 <= i < |children|
      ensures StandsBack(children[i], if children[i] == [] then 0 else |children[i]| - 1, merged, |merged| - 1)
    {
      var child := children[i];
      forall j | 0 <= j < |child|
        ensures |merged| - 1 >= 0 <==> j < |child|
        ensures !Less(merged[|merged| - 1].key, child[j].key)
      {
        assert children[i][j] in merged;
        var b :| 0 <= b < |merged| && merged[b] == child[j];
        assert b < |merged| - 1 ==> Less(merged[b].key, merged[|merged| - 1].key);
      }
      if child != [] {
        assert child[0] in merged;
      }
    }
  }

  function Flat(children: seq<seq<Entry>>): seq<Entry> {
    if children == [] then [] else children[0] + Flat(children[1..])
  }

  lemma {:induction false} FlatHolds(children: seq<seq<Entry>>, e: Entry)
    ensures e in Flat(children) <==> InChild(children, e)
  {
    if children != [] {
      FlatHolds(children[1..], e);
      if InChild(children[1..], e) {
        var i :| 0 <= i < |children[1..]| && e in children[1..][i];
        assert children[i + 1] == children[1..][i];
      }
      if i :| 0 < i < |children| && e in children[i] {
        assert children[1..][i - 1] == children[i];
      }
    }
  }

  ghost predicate KeysDetermine(es: seq<Entry>) {
    forall a, b :: a in es && b in es && a.key == b.key ==> a == b
  }

  lemma SortedJoin(a: seq<Entry>, b: seq<Entry>)
    requires Sorted(a) && Sorted(b)
    requires forall i, j :: 0 <= i < |a| && 0 <= j < |b| ==> Less(a[i].key, b[j].key)
    ensures Sorted(a + b)
  {
    hide Less;
  }

  lemma Insert(m: seq<Entry>, e: Entry) returns (r: seq<Entry>)
    requires Sorted(m) && forall x :: x in m ==> x.key != e.key
    ensures Sorted(r) && forall x :: x in r <==> x in m || x == e
  {
    var p := LowerBound(m, e.key);
    var front, back := m[..p], m[p..];
    forall j | 0 <= j < |back|
      ensures Less(e.key, back[j].key)
    {
      assert back[j] == m[p + j] && m[p + j] in m;
      assert 0 < j ==> Less(m[p].key, m[p + j].key);
    }
    SortedJoin([e], back);
    SortedJoin(front, [e] + back);
    r := front + ([e] + back);
    assert m == front + back;
  }

  lemma {:induction false} SortAll(es: seq<Entry>) returns (m: seq<Entry>)
    requires KeysDetermine(es)
    ensures Sorted(m) && forall x :: x in m <==> x in es
  {
    if es == [] {
      m := [];
    } else {
      m := SortAll(es[1..]);
      assert es == [es[0]] + es[1..];
      if es[0] !in m {
        m := Insert(m, es[0]);
      }
    }
  }

  /** Sorted children without a shared key always have a merge, and only one. */
  lemma MergeExists(children: seq<seq<Entry>>) returns (merged: seq<Entry>)
    requires (forall i :: 0 <= i < |children| ==> Sorted(children[i])) && NoSharedKey(children)
    ensures Merges(children, merged)
    ensures forall other :: Merges(children, other) ==> other == merged
  {
    var es := Flat(children);
    forall x
      ensures x in es <==> InChild(children, x)
    {
      FlatHolds(children, x);
    }
    forall a, b | a in es && b in es && a.key == b.key
      ensures a == b
    {
      var i :| 0 <= i < |children| && a in children[i];
      var j :| 0 <= j < |children| && b in children[j];
      var p :| 0 <= p < |children[i]| && children[i][p] == a;
      var q :| 0 <= q < |children[j]| && children[j][q] == b;
      assert i == j;
      assert Sorted(children[i]);
    }
    merged := SortAll(es);
    forall i, a | 0 <= i < |children| && 0 <= a < |children[i]|
      ensures children[i][a] in merged
    {
      assert InChild(children, children[i][a]);
    }
    assert Merges(children, merged);
    forall other | Merges(children, other)
      ensures other == merged
    {
      forall x
        ensures x in other <==> x in merged
      {
        if InChild(children, x) {
          var i :| 0 <= i < |children| && x in children[i];
          var a :| 0 <= a < |children[i]| && children[i][a] == x;
        }
      }
      SortedUnique(other, merged);
    }
  }

  lemma SomeElement(a: seq<Entry>)
    ensures a == [] || exists x :: x in a
  {
    if a != [] {
      assert a[0] in a;
    }
  }

  lemma {:induction false} SortedUnique(a: seq<Entry>, b: seq<Entry>)
    requires Sorted(a) && Sorted(b) && forall x :: x in a <==> x in b
    ensures a == b
    decreases |a|
  {
    SomeElement(b);
    if a == [] {
    } else {
      assert a[0] in b && b[0] in a;
      HeadLeast(a, b[0]);
      HeadLeast(b, a[0]);
      forall x
        ensures x in a[1..] <==> x in b[1..]
      {
        InTail(a, x);
        InTail(b, x);
      }
      SortedUnique(a[1..], b[1..]);
      assert a == [a[0]] + a[1..] && b == [b[0]] + b[1..];
    }
  }

  lemma InTail(a: seq<Entry>, x: Entry)
    requires Sorted(a) && a != []
    ensures x in a[1..] <==> x in a && x != a[0]
  {
    assert a == [a[0]] + a[1..];
    if x in a[1..] {
      var k :| 0 <= k < |a[1..]| && a[1..][k] == x;
      assert Less(a[0].key, a[k + 1].key);
    }
  }
}
