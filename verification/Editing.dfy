/** The version edits a running database writes, and the versions they produce. */
module Editing {
  import opened Keys
  import opened Files
  import opened Installing
  import opened Flushing
  import opened Manifest

  /** What LogAndApply installs (see Building.NextIsInstall). */
  ghost predicate NextVersionOf(levels: Levels, e: VersionEdit, levels': Levels) {
    forall l :: 0 <= l < NUM_LEVELS ==> Lists(levels'[l], Install(ToSet(levels[l]), e, l))
  }

  /** Two orderings of the same files are the same. */
  lemma {:induction false} ListsUnique(fs: seq<File>, gs: seq<File>, S: set<File>)
    requires Lists(fs, S) && Lists(gs, S)
    ensures fs == gs
    decreases |fs|
  {
    assert |fs| > 0 ==> fs[0] in ToSet(fs);
    assert |gs| > 0 ==> gs[0] in ToSet(gs);
    if fs != [] && gs != [] {
      LeastFirst(fs, gs);
      LeastFirst(gs, fs);
      TailLists(fs);
      TailLists(gs);
      ListsUnique(fs[1..], gs[1..], S - {fs[0]});
      assert fs == [fs[0]] + fs[1..] && gs == [gs[0]] + gs[1..];
    }
  }

  lemma LeastFirst(fs: seq<File>, gs: seq<File>)
    requires SortedBySmallest(fs) && SortedBySmallest(gs) && ToSet(fs) == ToSet(gs) && fs != [] && gs != []
    ensures fs[0] == gs[0]
  {
    assert fs[0] in ToSet(gs) && gs[0] in ToSet(fs);
    var i :| 0 <= i < |gs| && gs[i] == fs[0];
    var j :| 0 <= j < |fs| && fs[j] == gs[0];
  }

  lemma TailLists(fs: seq<File>)
    requires SortedBySmallest(fs) && fs != []
    ensures Lists(fs[1..], ToSet(fs) - {fs[0]})
  {
    assert fs == [fs[0]] + fs[1..];
    forall f
      ensures f in fs[1..] <==> f in fs && f != fs[0]
    {
      if f in fs[1..] {
        var i :| 0 <= i < |fs[1..]| && fs[1..][i] == f;
        assert BySmallest(fs[0], fs[i + 1]);
      }
    }
  }

  ghost predicate AllSorted(levels: Levels) {
    forall l :: 0 <= l < NUM_LEVELS ==> SortedBySmallest(levels[l])
  }

  lemma FlushEditInstalls(levels: Levels, level: nat, f: File, e: VersionEdit, levels': Levels)
    requires AllSorted(levels) && level < NUM_LEVELS && e.deleted == {} && e.added == [(level, f)]
    requires NextVersionOf(levels, e, levels')
    ensures FlushInstalled(levels, level, f, levels')
  {
    forall l | 0 <= l < NUM_LEVELS
      ensures Install(ToSet(levels[l]), e, l) == ToSet(levels[l]) + (if l == level then {f} else {})
    {
      OneMoreAdded(e, 0, l);
      assert DeletedAt(e, l) == {};
    }
    forall l | 0 <= l < NUM_LEVELS && l != level
      ensures levels'[l] == levels[l]
    {
      ListsUnique(levels'[l], levels[l], ToSet(levels[l]));
    }
  }

  ghost function InputDeletions(level: nat, in0: seq<File>, in1: seq<File>): set<(nat, nat)> {
    (set f | f in in0 :: (level, f.number)) + (set g | g in in1 :: (level + 1, g.number))
  }

  function OutputAdditions(level: nat, outs: seq<File>): seq<(nat, File)> {
    seq(|outs|, i requires 0 <= i < |outs| => (level + 1, outs[i]))
  }

  /** A file number occurs once. */
  ghost predicate UniqueNumbers(levels: Levels) {
    forall l, m, f, g :: 0 <= l < NUM_LEVELS && 0 <= m < NUM_LEVELS && f in levels[l] && g in levels[m] && f.number == g.number
                         ==> l == m && f == g
  }

  lemma OutputsAt(e: VersionEdit, level: nat, outs: seq<File>, l: nat)
    requires e.added == OutputAdditions(level, outs)
    ensures AddedAt(e, |e.added|, l) == if l == level + 1 then ToSet(outs) else {}
  {
    assert forall i :: 0 <= i < |outs| ==> e.added[i] == (level + 1, outs[i]);
  }

  /** Deleting by number at one level removes exactly the selected files. */
  lemma DeletedInputs(levels: Levels, level: nat, in0: seq<File>, in1: seq<File>, e: VersionEdit, l: nat, f: File)
    requires UniqueNumbers(levels) && level + 1 < NUM_LEVELS && l < NUM_LEVELS && f in levels[l]
    requires (forall g :: g in in0 ==> g in levels[level]) && (forall g :: g in in1 ==> g in levels[level + 1])
    requires e.deleted == InputDeletions(level, in0, in1)
    ensures f.number in DeletedAt(e, l) <==> (l == level && f in in0) || (l == level + 1 && f in in1)
  {
    if f.number in DeletedAt(e, l) {
      var d :| d in e.deleted && d.0 == l && d.1 == f.number;
      if l == level {
        var g :| g in in0 && d == (level, g.number);
      } else {
        var g :| g in in1 && d == (level + 1, g.number);
      }
    }
    assert f in in0 ==> (level, f.number) in e.deleted;
    assert f in in1 ==> (level + 1, f.number) in e.deleted;
  }

  lemma CompactionEditInstalls(levels: Levels, level: nat, in0: seq<File>, in1: seq<File>, outs: seq<File>, e: VersionEdit, levels': Levels)
    requires AllSorted(levels) && UniqueNumbers(levels) && level + 1 < NUM_LEVELS
    requires (forall g :: g in in0 ==> g in levels[level]) && (forall g :: g in in1 ==> g in levels[level + 1])
    requires e.deleted == InputDeletions(level, in0, in1) && e.added == OutputAdditions(level, outs)
    requires Numbers(ToSet(outs)) !! Numbers(ToSet(levels[level + 1]))
    requires NextVersionOf(levels, e, levels')
    ensures Installed(levels, level, in0, in1, outs, levels')
  {
    forall l | 0 <= l < NUM_LEVELS
      ensures Install(ToSet(levels[l]), e, l) ==
              ToSet(levels[l]) - (if l == level then ToSet(in0) else if l == level + 1 then ToSet(in1) else {})
              + (if l == level + 1 then ToSet(outs) else {})
    {
      CompactionInstallSet(levels, level, in0, in1, outs, e, l);
    }
    forall l | 0 <= l < NUM_LEVELS && l != level && l != level + 1
      ensures levels'[l] == levels[l]
    {
      ListsUnique(levels'[l], levels[l], ToSet(levels[l]));
    }
  }

  lemma CompactionInstallSet(levels: Levels, level: nat, in0: seq<File>, in1: seq<File>, outs: seq<File>, e: VersionEdit, l: nat)
    requires UniqueNumbers(levels) && level + 1 < NUM_LEVELS && l < NUM_LEVELS
    requires (forall g :: g in in0 ==> g in levels[level]) && (forall g :: g in in1 ==> g in levels[level + 1])
    requires e.deleted == InputDeletions(level, in0, in1) && e.added == OutputAdditions(level, outs)
    requires Numbers(ToSet(outs)) !! Numbers(ToSet(levels[level + 1]))
    ensures Install(ToSet(levels[l]), e, l) ==
            ToSet(levels[l]) - (if l == level then ToSet(in0) else if l == level + 1 then ToSet(in1) else {})
            + (if l == level + 1 then ToSet(outs) else {})
  {
    var A := AddedAt(e, |e.added|, l);
    OutputsAt(e, level, outs, l);
    forall f | f in levels[l]
      ensures f.number in DeletedAt(e, l) <==> (l == level && f in in0) || (l == level + 1 && f in in1)
      ensures f.number !in Numbers(A)
    {
      DeletedInputs(levels, level, in0, in1, e, l, f);
      assert f.number in Numbers(ToSet(levels[l]));
    }
    forall f | f in A
      ensures f.number in Numbers(A)
    {
    }
  }
}
