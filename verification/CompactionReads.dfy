/** When the compaction drop rules are invisible to readers. */
module CompactionReads {
  import opened Options
  import opened Keys
  import opened Reads
  import opened Files
  import opened Compacting

  lemma {:induction false} KeptExactly(input: seq<Entry>, n: nat, snapshot: nat, deep: seq<seq<File>>, e: Entry)
    requires n <= |input|
    ensures e in Kept(input, n, snapshot, deep) <==>
            exists i :: 0 <= i < n && e == input[i] && !Hidden(input, i, snapshot) && !Obsolete(input, i, snapshot, deep)
  {
    if n > 0 {
      KeptExactly(input, n - 1, snapshot, deep, e);
    }
  }

  /** Rule (A) reaches every older version, not only the next one. */
  lemma OlderVersionsHidden(input: seq<Entry>, i: nat, j: nat, snapshot: nat)
    requires Sorted(input) && i < j < |input|
    requires input[i].key.user == input[j].key.user && input[i].key.sn <= snapshot
    ensures Hidden(input, j, snapshot)
  {
    assert Less(input[j-1].key, input[j].key);
    assert i == j - 1 || Less(input[i].key, input[j-1].key);
  }

  lemma NewerVersionsFirst(input: seq<Entry>, i: nat, j: nat)
    requires Sorted(input) && i < |input| && j < |input|
    requires input[i].key.user == input[j].key.user && input[i].key.sn > input[j].key.sn
    ensures i < j
  {
  }

  /** What is dropped, without regard to order: a version that is older than another one that the oldest snapshot
      already sees, and a deletion that the oldest snapshot sees when no deeper file's range holds its key. */
  lemma KeptMeans(input: seq<Entry>, snapshot: nat, deep: seq<seq<File>>, e: Entry)
    requires Sorted(input) && Distinct(ToSet(input))
    ensures e in Kept(input, |input|, snapshot, deep) <==>
      && e in input
      && !(exists o :: o in input && o.key.user == e.key.user && e.key.sn < o.key.sn <= snapshot)
      && !(e.key.typ.TypeDeletion? && e.key.sn <= snapshot
           && forall l, i :: 0 <= l < |deep| && 0 <= i < |deep[l]| ==> e.key.user < deep[l][i].smallest.user || deep[l][i].largest.user < e.key.user)
  {
    KeptExactly(input, |input|, snapshot, deep, e);
    forall i | 0 <= i < |input| && input[i] == e
      ensures Hidden(input, i, snapshot) <==> exists o :: o in input && o.key.user == e.key.user && e.key.sn < o.key.sn <= snapshot
    {
      HiddenMeans(input, i, snapshot);
    }
    hide Hidden;
  }

  lemma HiddenMeans(input: seq<Entry>, i: nat, snapshot: nat)
    requires Sorted(input) && Distinct(ToSet(input)) && i < |input|
    ensures Hidden(input, i, snapshot) <==> exists o :: o in input && o.key.user == input[i].key.user && input[i].key.sn < o.key.sn <= snapshot
  {
    if Hidden(input, i, snapshot) {
      var o := input[i - 1];
      assert Less(o.key, input[i].key) && o in ToSet(input) && input[i] in ToSet(input);
    }
    if o :| o in input && o.key.user == input[i].key.user && input[i].key.sn < o.key.sn <= snapshot {
      var j :| 0 <= j < |input| && input[j] == o;
      NewerVersionsFirst(input, j, i);
      OlderVersionsHidden(input, j, i, snapshot);
    }
  }

  /** A dropped deletion marker whose key has an older value outside the compaction, with
      nothing in between at the snapshot: that value becomes readable again. */
  ghost predicate Resurrects(input: seq<Entry>, left: set<Entry>, snapshot: nat, deep: seq<seq<File>>) {
    exists i, w :: ResurrectsAt(input, left, snapshot, deep, i, w)
  }

  ghost predicate ResurrectsAt(input: seq<Entry>, left: set<Entry>, snapshot: nat, deep: seq<seq<File>>, i: nat, w: Entry) {
    && i < |input| && !Hidden(input, i, snapshot) && Obsolete(input, i, snapshot, deep)
    && w in left && w.key.user == input[i].key.user && w.key.sn < input[i].key.sn && w.key.typ.TypeValue?
    && forall o :: o in left && Visible(o, w.key.user, snapshot) ==> o.key.sn <= w.key.sn
  }

  /** What is stored before and after, `left` being all that the compaction does not touch. */
  ghost function Before(input: seq<Entry>, left: set<Entry>): set<Entry> {
    ToSet(input) + left
  }

  ghost function After(input: seq<Entry>, left: set<Entry>, snapshot: nat, deep: seq<seq<File>>): set<Entry> {
    ToSet(Kept(input, |input|, snapshot, deep)) + left
  }

  lemma AfterWithinBefore(input: seq<Entry>, left: set<Entry>, snapshot: nat, deep: seq<seq<File>>)
    ensures After(input, left, snapshot, deep) <= Before(input, left)
  {
    forall e | e in Kept(input, |input|, snapshot, deep)
      ensures e in input
    {
      KeptExactly(input, |input|, snapshot, deep, e);
    }
  }

  /** Once entry i is dropped as obsolete, no version of its key at or below it is kept. */
  lemma NothingKeptBelow(input: seq<Entry>, snapshot: nat, deep: seq<seq<File>>, i: nat, o: Entry)
    requires Sorted(input) && Distinct(ToSet(input))
    requires i < |input| && Obsolete(input, i, snapshot, deep)
    requires o in Kept(input, |input|, snapshot, deep) && o.key.user == input[i].key.user
    ensures o.key.sn > input[i].key.sn
  {
    KeptExactly(input, |input|, snapshot, deep, o);
    var j :| 0 <= j < |input| && o == input[j] && !Hidden(input, j, snapshot) && !Obsolete(input, j, snapshot, deep);
    if i < j {
      OlderVersionsHidden(input, i, j, snapshot);
    } else if o.key.sn <= input[i].key.sn {
      assert o != input[i] && o in ToSet(input) && input[i] in ToSet(input);
      NewerVersionsFirst(input, i, j);
    }
  }

  /** The entry that answers a read before the compaction, or its absence, is not lost. */
  lemma ReadSurvives(input: seq<Entry>, left: set<Entry>, snapshot: nat, deep: seq<seq<File>>, u: UserKey, s: nat)
    requires Sorted(input) && Distinct(Before(input, left)) && s >= snapshot
    requires !Resurrects(input, left, snapshot, deep)
    ensures Read(After(input, left, snapshot, deep), u, s) == Read(Before(input, left), u, s)
  {
    var B, A := Before(input, left), After(input, left, snapshot, deep);
    AfterWithinBefore(input, left, snapshot, deep);
    if v :| v in B && Visible(v, u, s) {
      NewestExists(B, u, s, v);
      var e :| Newest(B, u, s, e);
      ReadIs(B, u, s, e);
      if e in A {
        assert Newest(A, u, s, e);
        ReadIs(A, u, s, e);
      } else {
        var i :| 0 <= i < |input| && input[i] == e;
        KeptExactly(input, |input|, snapshot, deep, e);
        NewestNotHidden(input, left, snapshot, u, s, i);
        forall a | a in A && Visible(a, u, s)
          ensures a in left && a.key.sn < e.key.sn
        {
          if a in Kept(input, |input|, snapshot, deep) {
            NothingKeptBelow(input, snapshot, deep, i, a);
          }
        }
        DeletionStaysAbsent(input, left, snapshot, deep, u, s, i);
      }
    }
  }

  /** The newest visible entry is not dropped by rule (A). */
  lemma NewestNotHidden(input: seq<Entry>, left: set<Entry>, snapshot: nat, u: UserKey, s: nat, i: nat)
    requires Sorted(input) && Distinct(Before(input, left)) && s >= snapshot
    requires i < |input| && Newest(Before(input, left), u, s, input[i])
    ensures !Hidden(input, i, snapshot)
  {
    if i > 0 {
      assert input[i-1] in Before(input, left) && Less(input[i-1].key, input[i].key);
    }
  }

  /** If the newest visible entry is an obsolete deletion and nothing is resurrected, the key stays absent. */
  lemma DeletionStaysAbsent(input: seq<Entry>, left: set<Entry>, snapshot: nat, deep: seq<seq<File>>,
                            u: UserKey, s: nat, i: nat)
    requires Sorted(input) && Distinct(Before(input, left)) && s >= snapshot
    requires !Resurrects(input, left, snapshot, deep)
    requires i < |input| && Newest(Before(input, left), u, s, input[i])
    requires !Hidden(input, i, snapshot) && Obsolete(input, i, snapshot, deep)
    requires forall a :: a in After(input, left, snapshot, deep) && Visible(a, u, s) ==> a in left && a.key.sn < input[i].key.sn
    ensures Read(After(input, left, snapshot, deep), u, s) == None
  {
    var A := After(input, left, snapshot, deep);
    if v :| v in A && Visible(v, u, s) {
      NewestExists(A, u, s, v);
      var w :| Newest(A, u, s, w);
      AfterWithinBefore(input, left, snapshot, deep);
      ReadIs(A, u, s, w);
      assert forall o :: o in left && Visible(o, u, snapshot) ==> o in A && Visible(o, u, s);
      assert !ResurrectsAt(input, left, snapshot, deep, i, w);
    }
  }

  /** A resurrected value is what the oldest snapshot reads afterwards, where it read nothing. */
  lemma ResurrectionIsVisible(input: seq<Entry>, left: set<Entry>, snapshot: nat, deep: seq<seq<File>>, i: nat, w: Entry)
    requires Sorted(input) && Distinct(Before(input, left))
    requires ResurrectsAt(input, left, snapshot, deep, i, w)
    ensures Read(Before(input, left), w.key.user, snapshot) == None
    ensures Read(After(input, left, snapshot, deep), w.key.user, snapshot) == Some(w.value)
  {
    var u := w.key.user;
    var B, A := Before(input, left), After(input, left, snapshot, deep);
    AfterWithinBefore(input, left, snapshot, deep);
    assert Newest(B, u, snapshot, input[i]) by {
      forall o | o in B && Visible(o, u, snapshot)
        ensures o.key.sn <= input[i].key.sn
      {
        if o in input {
          var j :| 0 <= j < |input| && input[j] == o;
          if o.key.sn > input[i].key.sn {
            NewerVersionsFirst(input, j, i);
            OlderVersionsHidden(input, j, i, snapshot);
          }
        }
      }
    }
    ReadIs(B, u, snapshot, input[i]);
    assert Newest(A, u, snapshot, w) by {
      forall o | o in A && Visible(o, u, snapshot)
        ensures o in left
      {
        if o in Kept(input, |input|, snapshot, deep) {
          assert o in B;
          NothingKeptBelow(input, snapshot, deep, i, o);
        }
      }
    }
    ReadIs(A, u, snapshot, w);
  }

  /** The compaction is invisible to every snapshot from the oldest live one on exactly when
      it resurrects nothing. */
  lemma ReadsSurviveExactlyWhen(input: seq<Entry>, left: set<Entry>, snapshot: nat, deep: seq<seq<File>>)
    requires Sorted(input) && Distinct(Before(input, left))
    ensures Agree(Before(input, left), After(input, left, snapshot, deep), snapshot)
            <==> !Resurrects(input, left, snapshot, deep)
  {
    if i, w :| ResurrectsAt(input, left, snapshot, deep, i, w) {
      ResurrectionIsVisible(input, left, snapshot, deep, i, w);
    } else {
      forall u, s | s >= snapshot
        ensures Read(Before(input, left), u, s) == Read(After(input, left, snapshot, deep), u, s)
      {
        ReadSurvives(input, left, snapshot, deep, u, s);
      }
    }
  }

  /** No deeper file holds the key, so no deeper entry has it. */
  lemma NoFileNoEntry(deep: seq<seq<File>>, u: UserKey, e: Entry)
    requires LevelsDisjoint(deep) && !SomeFileHolds(deep, u)
    requires e in ContentsFrom(deep, 0)
    ensures e.key.user != u
  {
    var l, f :| 0 <= l < |deep| && f in deep[l] && e in f.entries;
    var i :| 0 <= i < |deep[l]| && deep[l][i] == f;
    EntryBounds(f, e);
  }
}
