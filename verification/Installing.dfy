/** Installing the results of a compaction keeps the invariant of a version, and keeps reads
    unless the hole at the level+1 boundary is hit. */
module Installing {
  import opened Options
  import opened Keys
  import opened Reads
  import opened Files
  import opened Overlaps
  import opened InputSelection
  import opened Compacting
  import opened CompactionReads

  /** The order files are kept in within a level: by smallest key, then by number. */
  predicate BySmallest(f: File, g: File) {
    Less(f.smallest, g.smallest) || (f.smallest == g.smallest && f.number < g.number)
  }

  ghost predicate SortedBySmallest(fs: seq<File>) {
    forall i, j :: 0 <= i < j < |fs| ==> BySmallest(fs[i], fs[j])
  }

  ghost predicate Apart(f: File, g: File) {
    Less(f.largest, g.smallest) || Less(g.largest, f.smallest)
  }

  /** Any two different files do not overlap. */
  ghost predicate PairwiseApart(S: set<File>) {
    forall f, g :: f in S && g in S && f != g ==> Apart(f, g)
  }

  /** Sorting files that do not overlap gives a level. */
  lemma ApartSorted(fs: seq<File>)
    requires ValidFiles(fs) && SortedBySmallest(fs) && PairwiseApart(ToSet(fs))
    ensures Disjoint(fs)
  {
    forall i, j | 0 <= i < j < |fs|
      ensures Less(fs[i].largest, fs[j].smallest)
    {
      assert fs[i] in ToSet(fs) && fs[j] in ToSet(fs) && BySmallest(fs[i], fs[j]);
      EntryBounds(fs[i], fs[i].entries[0]);
      EntryBounds(fs[j], fs[j].entries[0]);
    }
  }

  lemma DisjointApart(fs: seq<File>)
    requires Disjoint(fs)
    ensures PairwiseApart(ToSet(fs))
  {
    forall f, g | f in fs && g in fs && f != g
      ensures Apart(f, g)
    {
      var i :| 0 <= i < |fs| && fs[i] == f;
      var j :| 0 <= j < |fs| && fs[j] == g;
    }
  }

  /** The files of `fs` are exactly `S`, in level order. */
  ghost predicate Lists(fs: seq<File>, S: set<File>) {
    ToSet(fs) == S && SortedBySmallest(fs)
  }

  /** Output tables cut from a sorted list of entries. */
  ghost predicate CutFrom(outs: seq<File>, kept: seq<Entry>) {
    && ValidFiles(outs)
    && Concat(Tables(outs)) == kept
  }

  function Tables(outs: seq<File>): seq<seq<Entry>> {
    seq(|outs|, i requires 0 <= i < |outs| => outs[i].entries)
  }

  /** The edit of InstallCompactionResults, applied. */
  ghost predicate Installed(levels: Levels, level: nat, in0: seq<File>, in1: seq<File>, outs: seq<File>, levels': Levels)
    requires level + 1 < NUM_LEVELS
  {
    && (forall l :: 0 <= l < NUM_LEVELS && l != level && l != level + 1 ==> levels'[l] == levels[l])
    && Lists(levels'[level], ToSet(levels[level]) - ToSet(in0))
    && Lists(levels'[level + 1], ToSet(levels[level + 1]) - ToSet(in1) + ToSet(outs))
  }

  /** `input` is the merge of the entries of the input files. */
  ghost predicate MergeOf(input: seq<Entry>, in0: seq<File>, in1: seq<File>) {
    Sorted(input) && ToSet(input) == LevelContents(in0) + LevelContents(in1)
  }

  /** Files whose user-key ranges do not meet share no user key. */
  lemma NoSharedUser(g: File, f: File)
    requires ValidFile(g) && ValidFile(f)
    requires g.largest.user < f.smallest.user || f.largest.user < g.smallest.user
    ensures Newer(Contents(g), Contents(f))
  {
    forall x, y | x in Contents(g) && y in Contents(f)
      ensures x.key.user != y.key.user
    {
      EntryBounds(g, x);
      EntryBounds(f, y);
    }
  }

  /** Within a sorted level the earlier file has the newer version of a shared user key. */
  lemma EarlierIsNewer(files: seq<File>, m: nat, t: nat)
    requires ValidFiles(files) && Disjoint(files) && m < t < |files| && Distinct(LevelContents(files))
    ensures Newer(Contents(files[m]), Contents(files[t]))
  {
    forall x, y | x in Contents(files[m]) && y in Contents(files[t]) && x.key.user == y.key.user
      ensures x.key.sn > y.key.sn
    {
      EntryBounds(files[m], x);
      EntryBounds(files[t], y);
      assert x in LevelContents(files) && y in LevelContents(files);
    }
  }

  /** A file of the level that is not compacted is newer than the compacted ones. */
  lemma UnselectedNewer(level: nat, files: seq<File>, in0: seq<File>, g: File, f: File)
    requires SortedLevel(level, files) && Distinct(LevelContents(files)) && KeyClosed(level, files, in0)
    requires g in files && g !in in0 && f in in0
    ensures Newer(Contents(g), Contents(f))
  {
    KeyClosedWithin(level, files, in0);
    if level == 0 {
      var b, e :| Closed(files, b, e) && in0 == Overlapping(files, b, e);
      OverlappingExactly(files, b, e, g);
      OverlappingExactly(files, b, e, f);
      NoSharedUser(g, f);
    } else {
      var i, j :| 0 <= i < j <= |files| && in0 == files[i..j] && NoBoundaryAt(files, j);
      UnselectedNewerInRun(files, i, j, g, f);
    }
  }

  lemma LaterSharesNothing(files: seq<File>, t: nat, j: nat, m: nat)
    requires ValidFiles(files) && Disjoint(files) && t < j <= m < |files| && NoBoundaryAt(files, j)
    ensures files[t].largest.user < files[m].smallest.user
  {
    UsersOrdered(files, t, j - 1);
    UsersOrdered(files, j - 1, j);
    UsersOrdered(files, j, m);
  }

  lemma UnselectedNewerInRun(files: seq<File>, i: nat, j: nat, g: File, f: File)
    requires ValidFiles(files) && Disjoint(files) && Distinct(LevelContents(files))
    requires i < j <= |files| && NoBoundaryAt(files, j)
    requires g in files && g !in files[i..j] && f in files[i..j]
    ensures Newer(Contents(g), Contents(f))
  {
    var t :| i <= t < j && files[t] == f;
    var m :| 0 <= m < |files| && files[m] == g;
    assert m < i || j <= m by {
      assert forall n :: i <= n < j ==> files[n] in files[i..j];
    }
    if m < i {
      EarlierIsNewer(files, m, t);
    } else {
      LaterSharesNothing(files, t, j, m);
      NoSharedUser(g, f);
    }
  }

  lemma EntryWithin(files: seq<File>, f: File, e: Entry)
    requires ValidFiles(files) && f in files && e in f.entries
    ensures ValidFile(f) && LessEq(f.smallest, e.key) && LessEq(e.key, f.largest)
  {
    var i :| 0 <= i < |files| && files[i] == f;
    EntryBounds(f, e);
  }

  /** All entries of S come after, or all before, the file. */
  ghost predicate OneSide(S: set<Entry>, h: File) {
    || (forall e :: e in S ==> Less(h.largest, e.key))
    || (forall e :: e in S ==> Less(e.key, h.smallest))
  }

  lemma ApartFromLevel(in0: seq<File>, lo: InternalKey, hi: InternalKey, h: File, e: Entry)
    requires ValidFiles(in0) && ValidFile(h) && IsSmallest(in0, lo) && IsLargest(in0, hi) && e in LevelContents(in0)
    ensures AfterFile(Some(lo.user), h) ==> Less(h.largest, e.key)
    ensures BeforeFile(Some(hi.user), h) ==> Less(e.key, h.smallest)
  {
    var f :| f in in0 && e in f.entries;
    EntryWithin(in0, f, e);
  }

  lemma ApartFromNext(next: seq<File>, lo: UserKey, hi: UserKey, h: File, e: Entry)
    requires ValidFiles(next) && Disjoint(next) && h in next && !Meets(h, Some(lo), Some(hi))
    requires e in LevelContents(Overlapping(next, Some(lo), Some(hi)))
    ensures AfterFile(Some(lo), h) ==> Less(h.largest, e.key)
    ensures BeforeFile(Some(hi), h) ==> Less(e.key, h.smallest)
  {
    var g :| g in Overlapping(next, Some(lo), Some(hi)) && e in g.entries;
    OverlappingExactly(next, Some(lo), Some(hi), g);
    EntryWithin(next, g, e);
    DisjointApart(next);
    assert Apart(g, h);
    var n :| 0 <= n < |next| && next[n] == h;
    EntryBounds(h, h.entries[0]);
  }

  /** A level+1 file that is not compacted lies wholly before or wholly after the inputs. */
  lemma UnselectedApart(next: seq<File>, in0: seq<File>, in1: seq<File>, h: File)
    requires ValidFiles(next) && Disjoint(next) && ValidFiles(in0) && CoversNextLevel(next, in0, in1)
    requires h in next && h !in in1
    ensures OneSide(LevelContents(in0) + LevelContents(in1), h)
  {
    var lo, hi :| IsSmallest(in0, lo) && IsLargest(in0, hi) && in1 == Overlapping(next, Some(lo.user), Some(hi.user));
    OverlappingExactly(next, Some(lo.user), Some(hi.user), h);
    var n :| 0 <= n < |next| && next[n] == h;
    forall e | e in LevelContents(in0) + LevelContents(in1)
      ensures AfterFile(Some(lo.user), h) ==> Less(h.largest, e.key)
      ensures BeforeFile(Some(hi.user), h) ==> Less(e.key, h.smallest)
    {
      if e in LevelContents(in0) {
        ApartFromLevel(in0, lo, hi, h, e);
      } else {
        ApartFromNext(next, lo.user, hi.user, h, e);
      }
    }
  }

  lemma {:induction false} KeptSorted(input: seq<Entry>, n: nat, snapshot: nat, deep: seq<seq<File>>)
    requires n <= |input| && Sorted(input)
    ensures Sorted(Kept(input, n, snapshot, deep))
    ensures forall e :: e in Kept(input, n, snapshot, deep) ==> e in input[..n]
  {
    if n > 0 {
      KeptSorted(input, n - 1, snapshot, deep);
      assert input[..n] == input[..n-1] + [input[n-1]];
      var k := Kept(input, n - 1, snapshot, deep);
      forall i | 0 <= i < |k|
        ensures Less(k[i].key, input[n-1].key)
      {
        assert k[i] in input[..n-1];
      }
    }
  }

  lemma LevelContentsSnoc(front: seq<File>, last: File)
    ensures LevelContents(front + [last]) == LevelContents(front) + Contents(last)
  {
    assert forall f :: f in front + [last] <==> f in front || f == last;
  }

  lemma EntriesBelong(fs: seq<File>, i: nat)
    requires ValidFiles(fs) && i < |fs|
    ensures fs[i].entries[0] in LevelContents(fs)
    ensures fs[i].entries[|fs[i].entries| - 1] in LevelContents(fs)
  {
    var f := fs[i];
    assert f in fs && f.entries[0] in f.entries && f.entries[|f.entries| - 1] in f.entries;
  }

  /** Tables cut from a sorted list are disjoint, in order, and hold exactly the list. */
  lemma {:induction false} CutsDisjoint(outs: seq<File>, kept: seq<Entry>)
    requires CutFrom(outs, kept) && Sorted(kept)
    ensures Disjoint(outs) && LevelContents(outs) == ToSet(kept)
  {
    if outs != [] {
      var n := |outs| - 1;
      var front, last := outs[..n], outs[n];
      assert Tables(outs)[..n] == Tables(front);
      var head := Concat(Tables(front));
      assert kept == head + last.entries;
      assert forall i :: 0 <= i < |head| ==> head[i] == kept[i];
      CutsDisjoint(front, head);
      assert outs == front + [last];
      LevelContentsSnoc(front, last);
      forall i | 0 <= i < n
        ensures Less(outs[i].largest, last.smallest)
      {
        var e := outs[i].entries[|outs[i].entries| - 1];
        EntriesBelong(front, i);
        var j :| 0 <= j < |head| && head[j] == e;
        assert kept[j] == e && kept[|head|] == last.entries[0];
      }
    }
  }

  /** Picked inputs are merged, some of their entries written out, and the result installed. */
  ghost predicate Rewrites(levels: Levels, level: nat, in0: seq<File>, in1: seq<File>,
                           input: seq<Entry>, kept: seq<Entry>, outs: seq<File>, levels': Levels)
  {
    && WellSelected(levels, level, in0, in1)
    && MergeOf(input, in0, in1)
    && Sorted(kept) && ToSet(kept) <= ToSet(input) && CutFrom(outs, kept)
    && Installed(levels, level, in0, in1, outs, levels')
  }

  /** One compaction: what was picked, what was merged, what came out, what is installed. */
  ghost predicate CompactionStep(levels: Levels, level: nat, in0: seq<File>, in1: seq<File>, snapshot: nat,
                                 input: seq<Entry>, outs: seq<File>, levels': Levels)
  {
    && WellSelected(levels, level, in0, in1)
    && MergeOf(input, in0, in1)
    && CutFrom(outs, Kept(input, |input|, snapshot, levels[level + 2..]))
    && Installed(levels, level, in0, in1, outs, levels')
  }

  lemma CompactionRewrites(levels: Levels, level: nat, in0: seq<File>, in1: seq<File>, snapshot: nat,
                           input: seq<Entry>, outs: seq<File>, levels': Levels)
    requires CompactionStep(levels, level, in0, in1, snapshot, input, outs, levels')
    ensures Rewrites(levels, level, in0, in1, input, Kept(input, |input|, snapshot, levels[level + 2..]), outs, levels')
  {
    KeptSorted(input, |input|, snapshot, levels[level + 2..]);
    assert input[..|input|] == input;
  }

  /** A trivial move writes the one input file's entries out unchanged. */
  lemma MoveRewrites(levels: Levels, level: nat, f: File, levels': Levels)
    requires ValidFile(f) && WellSelected(levels, level, [f], []) && Installed(levels, level, [f], [], [f], levels')
    ensures Rewrites(levels, level, [f], [], f.entries, f.entries, [f], levels')
  {
    OneFile(f);
  }

  lemma OneFile(f: File)
    requires ValidFile(f)
    ensures MergeOf(f.entries, [f], []) && CutFrom([f], f.entries)
  {
    LevelContentsSnoc([], f);
    assert [] + [f] == [f] && LevelContents([]) == {};
    assert Tables([f]) == [f.entries] && Concat([]) == [] && [f.entries][..0] == [];
  }

  /** A file that the compaction leaves where it is. */
  predicate Stays(levels: Levels, level: nat, in0: seq<File>, in1: seq<File>, l: nat, f: File) {
    l < NUM_LEVELS && f in levels[l] && !(l == level && f in in0) && !(l == level + 1 && f in in1)
  }

  /** The entries the compaction does not touch. */
  ghost function Untouched(levels: Levels, level: nat, in0: seq<File>, in1: seq<File>): set<Entry> {
    set l, f, e | 0 <= l < NUM_LEVELS && f in levels[l] && Stays(levels, level, in0, in1, l, f) && e in f.entries :: e
  }

  lemma InstalledFiles(levels: Levels, level: nat, in0: seq<File>, in1: seq<File>, outs: seq<File>, levels': Levels, l: nat, f: File)
    requires level + 1 < NUM_LEVELS && Installed(levels, level, in0, in1, outs, levels') && l < NUM_LEVELS
    ensures f in levels'[l] <==> Stays(levels, level, in0, in1, l, f) || (l == level + 1 && f in outs)
  {
    assert f in levels'[l] <==> f in ToSet(levels'[l]);
  }

  lemma SelectedWithin(levels: Levels, level: nat, in0: seq<File>, in1: seq<File>)
    requires WellSelected(levels, level, in0, in1)
    ensures forall f :: f in in0 ==> f in levels[level]
    ensures forall f :: f in in1 ==> f in levels[level + 1]
  {
    KeyClosedWithin(level, levels[level], in0);
    var lo, hi :| IsSmallest(in0, lo) && IsLargest(in0, hi) && in1 == Overlapping(levels[level + 1], Some(lo.user), Some(hi.user));
    forall f | f in in1
      ensures f in levels[level + 1]
    {
      OverlappingExactly(levels[level + 1], Some(lo.user), Some(hi.user), f);
    }
  }

  /** The version before a compaction holds the merged input and the untouched entries. */
  lemma ContentsBefore(levels: Levels, level: nat, in0: seq<File>, in1: seq<File>, input: seq<Entry>)
    requires WellSelected(levels, level, in0, in1) && MergeOf(input, in0, in1)
    ensures ContentsFrom(levels, 0) == Before(input, Untouched(levels, level, in0, in1))
  {
    SelectedWithin(levels, level, in0, in1);
    SelectedContents(levels, level, in0, in1);
  }

  lemma SelectedContents(levels: Levels, level: nat, in0: seq<File>, in1: seq<File>)
    requires level + 1 < NUM_LEVELS
    requires forall f :: f in in0 ==> f in levels[level]
    requires forall f :: f in in1 ==> f in levels[level + 1]
    ensures ContentsFrom(levels, 0) == (LevelContents(in0) + LevelContents(in1)) + Untouched(levels, level, in0, in1)
  {
    var S := (LevelContents(in0) + LevelContents(in1)) + Untouched(levels, level, in0, in1);
    forall e | e in ContentsFrom(levels, 0)
      ensures e in S
    {
      var l, f :| 0 <= l < NUM_LEVELS && f in levels[l] && e in f.entries;
      assert Stays(levels, level, in0, in1, l, f) || f in in0 || f in in1;
    }
    assert LevelContents(in0) <= LevelContents(levels[level]) && LevelContents(in1) <= LevelContents(levels[level + 1]);
    LevelWithin(levels, level);
    LevelWithin(levels, level + 1);
    assert Untouched(levels, level, in0, in1) <= ContentsFrom(levels, 0);
  }

  lemma LevelWithin(levels: seq<seq<File>>, l: nat)
    requires l < |levels|
    ensures LevelContents(levels[l]) <= ContentsFrom(levels, 0)
  {
  }

  /** The version after it holds the kept entries and the untouched ones. */
  lemma ContentsAfter(levels: Levels, level: nat, in0: seq<File>, in1: seq<File>, snapshot: nat,
                      input: seq<Entry>, outs: seq<File>, levels': Levels)
    requires CompactionStep(levels, level, in0, in1, snapshot, input, outs, levels')
    ensures ContentsFrom(levels', 0) == After(input, Untouched(levels, level, in0, in1), snapshot, levels[level + 2..])
  {
    CompactionRewrites(levels, level, in0, in1, snapshot, input, outs, levels');
    CutsDisjoint(outs, Kept(input, |input|, snapshot, levels[level + 2..]));
    InstalledContents(levels, level, in0, in1, outs, levels');
  }

  lemma InstalledContents(levels: Levels, level: nat, in0: seq<File>, in1: seq<File>, outs: seq<File>, levels': Levels)
    requires level + 1 < NUM_LEVELS && Installed(levels, level, in0, in1, outs, levels')
    ensures ContentsFrom(levels', 0) == LevelContents(outs) + Untouched(levels, level, in0, in1)
  {
    forall e | e in ContentsFrom(levels', 0)
      ensures e in LevelContents(outs) + Untouched(levels, level, in0, in1)
    {
      var l, f :| 0 <= l < NUM_LEVELS && f in levels'[l] && e in f.entries;
      InstalledFiles(levels, level, in0, in1, outs, levels', l, f);
    }
    forall e | e in LevelContents(outs) + Untouched(levels, level, in0, in1)
      ensures e in ContentsFrom(levels', 0)
    {
      if e in LevelContents(outs) {
        var f :| f in outs && e in f.entries;
        InstalledFiles(levels, level, in0, in1, outs, levels', level + 1, f);
      } else {
        var l, f :| 0 <= l < NUM_LEVELS && f in levels[l] && Stays(levels, level, in0, in1, l, f) && e in f.entries;
        InstalledFiles(levels, level, in0, in1, outs, levels', l, f);
      }
    }
  }

  /** An output table lies on one side of every level+1 file that stays. */
  lemma OutputApart(h: File, o: File, outs: seq<File>, S: set<Entry>)
    requires ValidFiles(outs) && o in outs && LevelContents(outs) <= S && OneSide(S, h)
    ensures Apart(h, o)
  {
    var i :| 0 <= i < |outs| && outs[i] == o;
    EntriesBelong(outs, i);
  }

  /** What is left of level+1 together with the outputs never overlaps. */
  lemma NextLevelApart(next: seq<File>, in0: seq<File>, in1: seq<File>, outs: seq<File>)
    requires ValidFiles(next) && Disjoint(next) && ValidFiles(in0) && CoversNextLevel(next, in0, in1)
    requires ValidFiles(outs) && Disjoint(outs) && LevelContents(outs) <= LevelContents(in0) + LevelContents(in1)
    ensures PairwiseApart(ToSet(next) - ToSet(in1) + ToSet(outs))
  {
    DisjointApart(next);
    DisjointApart(outs);
    forall h, o | h in next && h !in in1 && o in outs
      ensures Apart(h, o)
    {
      UnselectedApart(next, in0, in1, h);
      OutputApart(h, o, outs, LevelContents(in0) + LevelContents(in1));
    }
    ApartUnion(ToSet(next) - ToSet(in1), ToSet(outs));
  }

  lemma ApartUnion(A: set<File>, B: set<File>)
    requires PairwiseApart(A) && PairwiseApart(B)
    requires forall h, o :: h in A && o in B ==> Apart(h, o)
    ensures PairwiseApart(A + B)
  {
  }

  lemma SubsetValid(fs: seq<File>, part: seq<File>)
    requires ValidFiles(fs) && forall f :: f in part ==> f in fs
    ensures ValidFiles(part)
  {
    forall i | 0 <= i < |part|
      ensures ValidFile(part[i])
    {
      assert part[i] in fs;
    }
  }

  lemma MembersValid(fs: seq<File>, was: seq<File>, outs: seq<File>)
    requires ValidFiles(was) && ValidFiles(outs) && forall f :: f in fs ==> f in was || f in outs
    ensures ValidFiles(fs)
  {
    forall i | 0 <= i < |fs|
      ensures ValidFile(fs[i])
    {
      assert fs[i] in was || fs[i] in outs;
    }
  }

  /** Both changed levels are again sorted and, below level 0, disjoint. */
  lemma InstalledSorted(levels: Levels, level: nat, in0: seq<File>, in1: seq<File>,
                        input: seq<Entry>, kept: seq<Entry>, outs: seq<File>, levels': Levels)
    requires SortedLevels(levels) && Rewrites(levels, level, in0, in1, input, kept, outs, levels')
    ensures SortedLevels(levels')
  {
    var here, next := levels[level], levels[level + 1];
    assert SortedLevel(level, here) && SortedLevel(level + 1, next);
    SelectedWithin(levels, level, in0, in1);
    SubsetValid(here, in0);
    CutsDisjoint(outs, kept);
    NextLevelApart(next, in0, in1, outs);
    forall f
      ensures f in levels'[level] ==> f in here
      ensures f in levels'[level + 1] ==> f in next || f in outs
    {
      InstalledFiles(levels, level, in0, in1, outs, levels', level, f);
      InstalledFiles(levels, level, in0, in1, outs, levels', level + 1, f);
    }
    SubsetValid(here, levels'[level]);
    MembersValid(levels'[level + 1], next, outs);
    ApartSorted(levels'[level + 1]);
    if level > 0 {
      DisjointApart(here);
      ApartSorted(levels'[level]);
    }
    assert forall l :: 0 <= l < NUM_LEVELS && l != level && l != level + 1 ==> SortedLevel(l, levels[l]);
  }

  /** Where an entry of the inputs was: in a selected file of `level`, or at level+1. */
  ghost predicate FromInputs(levels: Levels, level: nat, in0: seq<File>, e: Entry)
    requires level + 1 < NUM_LEVELS
  {
    || (exists f :: f in in0 && f in levels[level] && e in Contents(f))
    || e in LevelContents(levels[level + 1])
  }

  lemma InputOrigin(levels: Levels, level: nat, in0: seq<File>, in1: seq<File>,
                    input: seq<Entry>, kept: seq<Entry>, outs: seq<File>, o: File, e: Entry)
    requires WellSelected(levels, level, in0, in1) && MergeOf(input, in0, in1)
    requires Sorted(kept) && ToSet(kept) <= ToSet(input) && CutFrom(outs, kept) && o in outs && e in o.entries
    ensures FromInputs(levels, level, in0, e)
  {
    SelectedWithin(levels, level, in0, in1);
    CutsDisjoint(outs, kept);
    assert e in LevelContents(outs);
    if e in LevelContents(in0) {
      var f :| f in in0 && e in f.entries;
      assert e in Contents(f);
    }
  }

  lemma ByLevels(levels: Levels, l: nat, m: nat, x: Entry, y: Entry)
    requires ShallowIsNewer(levels) && l < m < NUM_LEVELS && x.key.user == y.key.user
    requires x in LevelContents(levels[l]) && y in LevelContents(levels[m])
    ensures x.key.sn > y.key.sn
  {
  }

  lemma InputsAboveDeeper(levels: Levels, level: nat, in0: seq<File>, x: Entry, m: nat, y: Entry)
    requires ShallowIsNewer(levels) && level + 1 < m < NUM_LEVELS && x.key.user == y.key.user
    requires FromInputs(levels, level, in0, x) && y in LevelContents(levels[m])
    ensures x.key.sn > y.key.sn
  {
    if x in LevelContents(levels[level + 1]) {
      ByLevels(levels, level + 1, m, x, y);
    } else {
      assert x in LevelContents(levels[level]);
      ByLevels(levels, level, m, x, y);
    }
  }

  lemma StaysAboveInputs(levels: Levels, level: nat, in0: seq<File>, l: nat, f: File, x: Entry, y: Entry)
    requires SortedLevels(levels) && ShallowIsNewer(levels) && Distinct(ContentsFrom(levels, 0))
    requires l <= level && level + 1 < NUM_LEVELS && x.key.user == y.key.user && KeyClosed(level, levels[level], in0)
    requires f in levels[l] && (l == level ==> f !in in0) && x in f.entries && FromInputs(levels, level, in0, y)
    ensures x.key.sn > y.key.sn
  {
    assert x in LevelContents(levels[l]);
    if y in LevelContents(levels[level + 1]) {
      ByLevels(levels, l, level + 1, x, y);
    } else {
      var f0 :| f0 in in0 && f0 in levels[level] && y in Contents(f0);
      assert y in LevelContents(levels[level]);
      if l < level {
        ByLevels(levels, l, level, x, y);
      } else {
        LevelDistinct(levels, level);
        assert SortedLevel(level, levels[level]);
        UnselectedNewer(level, levels[level], in0, f, f0);
        assert x in Contents(f);
      }
    }
  }

  /** Nothing comes to lie below newer data. */
  lemma StillNewer(levels: Levels, level: nat, in0: seq<File>, in1: seq<File>,
                   input: seq<Entry>, kept: seq<Entry>, outs: seq<File>, levels': Levels, l: nat, f: File, x: Entry, m: nat, g: File, y: Entry)
    requires ValidLevels(levels) && Rewrites(levels, level, in0, in1, input, kept, outs, levels')
    requires l < m < NUM_LEVELS && f in levels'[l] && x in f.entries && g in levels'[m] && y in g.entries
    requires x.key.user == y.key.user
    ensures x.key.sn > y.key.sn
  {
    InstalledFiles(levels, level, in0, in1, outs, levels', l, f);
    InstalledFiles(levels, level, in0, in1, outs, levels', m, g);
    if f in outs && l == level + 1 {
      InputOrigin(levels, level, in0, in1, input, kept, outs, f, x);
      assert y in LevelContents(levels[m]);
      InputsAboveDeeper(levels, level, in0, x, m, y);
    } else if g in outs && m == level + 1 {
      InputOrigin(levels, level, in0, in1, input, kept, outs, g, y);
      StaysAboveInputs(levels, level, in0, l, f, x, y);
    } else {
      assert x in LevelContents(levels[l]) && y in LevelContents(levels[m]);
      ByLevels(levels, l, m, x, y);
    }
  }

  lemma LevelDistinct(levels: Levels, l: nat)
    requires Distinct(ContentsFrom(levels, 0)) && l < NUM_LEVELS
    ensures Distinct(LevelContents(levels[l]))
  {
    LevelWithin(levels, l);
  }

  lemma Level0Numbers(files: seq<File>, files': seq<File>)
    requires NewerByNumber(files) && SortedBySmallest(files') && forall f :: f in files' ==> f in files
    ensures NewerByNumber(files')
  {
    forall i, j | 0 <= i < j < |files'|
      ensures files'[i].number != files'[j].number
    {
      assert BySmallest(files'[i], files'[j]);
      assert files'[i] in files && files'[j] in files;
      var a :| 0 <= a < |files| && files[a] == files'[i];
      var b :| 0 <= b < |files| && files[b] == files'[j];
    }
  }

  lemma RewritesShrink(levels: Levels, level: nat, in0: seq<File>, in1: seq<File>,
                       input: seq<Entry>, kept: seq<Entry>, outs: seq<File>, levels': Levels)
    requires Rewrites(levels, level, in0, in1, input, kept, outs, levels')
    ensures ContentsFrom(levels', 0) <= ContentsFrom(levels, 0)
  {
    ContentsBefore(levels, level, in0, in1, input);
    CutsDisjoint(outs, kept);
    InstalledContents(levels, level, in0, in1, outs, levels');
  }

  lemma RewritesNewer(levels: Levels, level: nat, in0: seq<File>, in1: seq<File>,
                      input: seq<Entry>, kept: seq<Entry>, outs: seq<File>, levels': Levels)
    requires ValidLevels(levels) && Rewrites(levels, level, in0, in1, input, kept, outs, levels')
    ensures ShallowIsNewer(levels')
  {
    forall l, m | 0 <= l < m < NUM_LEVELS
      ensures Newer(LevelContents(levels'[l]), LevelContents(levels'[m]))
    {
      forall x, y | x in LevelContents(levels'[l]) && y in LevelContents(levels'[m]) && x.key.user == y.key.user
        ensures x.key.sn > y.key.sn
      {
        var f :| f in levels'[l] && x in f.entries;
        var g :| g in levels'[m] && y in g.entries;
        StillNewer(levels, level, in0, in1, input, kept, outs, levels', l, f, x, m, g, y);
      }
    }
  }

  lemma RewritesLevel0(levels: Levels, level: nat, in0: seq<File>, in1: seq<File>, outs: seq<File>, levels': Levels)
    requires NewerByNumber(levels[0]) && level + 1 < NUM_LEVELS && Installed(levels, level, in0, in1, outs, levels')
    ensures NewerByNumber(levels'[0])
  {
    if level == 0 {
      forall f | f in levels'[0]
        ensures f in levels[0]
      {
        InstalledFiles(levels, level, in0, in1, outs, levels', 0, f);
      }
      Level0Numbers(levels[0], levels'[0]);
    }
  }

  /** Compaction keeps the invariant of a version. */
  lemma CompactionKeepsInvariant(levels: Levels, level: nat, in0: seq<File>, in1: seq<File>,
                                 input: seq<Entry>, kept: seq<Entry>, outs: seq<File>, levels': Levels)
    requires ValidLevels(levels) && Rewrites(levels, level, in0, in1, input, kept, outs, levels')
    ensures ValidLevels(levels')
  {
    InstalledSorted(levels, level, in0, in1, input, kept, outs, levels');
    RewritesLevel0(levels, level, in0, in1, outs, levels');
    RewritesNewer(levels, level, in0, in1, input, kept, outs, levels');
    RewritesShrink(levels, level, in0, in1, input, kept, outs, levels');
  }
}
