/** Choosing the inputs of a compaction (VersionSet::PickCompaction, SetupOtherInputs). */
module InputSelection {
  import opened Options
  import opened Keys
  import opened Files
  import opened Overlaps

  ghost predicate IsLargest(fs: seq<File>, k: InternalKey) {
    && (exists f :: f in fs && f.largest == k)
    && (forall f :: f in fs ==> !Less(k, f.largest))
  }

  ghost predicate IsSmallest(fs: seq<File>, k: InternalKey) {
    && (exists f :: f in fs && f.smallest == k)
    && (forall f :: f in fs ==> !Less(f.smallest, k))
  }

  method GetRange(inputs: seq<File>) returns (smallest: InternalKey, largest: InternalKey)
    requires inputs != []
    ensures IsSmallest(inputs, smallest) && IsLargest(inputs, largest)
  {
    smallest, largest := inputs[0].smallest, inputs[0].largest;
    for i := 1 to |inputs|
      invariant exists f :: f in inputs && f.smallest == smallest
      invariant exists f :: f in inputs && f.largest == largest
      invariant forall k :: 0 <= k < i ==> !Less(inputs[k].smallest, smallest) && !Less(largest, inputs[k].largest)
    {
      if Less(inputs[i].smallest, smallest) {
        smallest := inputs[i].smallest;
      }
      if Less(largest, inputs[i].largest) {
        largest := inputs[i].largest;
      }
    }
  }

  method FindLargestKey(files: seq<File>) returns (r: Option<InternalKey>)
    ensures files == [] ==> r.None?
    ensures files != [] ==> r.Some? && IsLargest(files, r.value)
  {
    if files == [] {
      return None;
    }
    var _, largest := GetRange(files);
    return Some(largest);
  }

  /** `f` starts, later in key order, with the user key that `k` ends with. */
  predicate IsBoundary(f: File, k: InternalKey) {
    Less(k, f.smallest) && f.smallest.user == k.user
  }

  ghost predicate SmallestBoundary(files: seq<File>, k: InternalKey, f: File) {
    && f in files && IsBoundary(f, k)
    && forall g :: g in files && IsBoundary(g, k) ==> !Less(g.smallest, f.smallest)
  }

  method FindSmallestBoundaryFile(files: seq<File>, k: InternalKey) returns (r: Option<File>)
    ensures r.Some? ==> SmallestBoundary(files, k, r.value)
    ensures r.None? ==> NoneBoundary(files, k)
  {
    r := None;
    for i := 0 to |files|
      invariant r.Some? ==> r.value in files && IsBoundary(r.value, k)
      invariant forall j :: 0 <= j < i && IsBoundary(files[j], k) ==> r.Some? && !Less(files[j].smallest, r.value.smallest)
    {
      if IsBoundary(files[i], k) {
        if r.None? || Less(files[i].smallest, r.value.smallest) {
          r := Some(files[i]);
        }
      }
    }
  }

  ghost predicate NoneBoundary(files: seq<File>, k: InternalKey) {
    forall f :: f in files ==> !IsBoundary(f, k)
  }

  /** `added` is what following boundary files from key `k` collects: each is the first
      boundary file of the key before it, and none is left at the end. */
  ghost predicate Chain(files: seq<File>, k: InternalKey, added: seq<File>)
    decreases |added|
  {
    if added == [] then
      NoneBoundary(files, k)
    else
      SmallestBoundary(files, k, added[0]) && Chain(files, added[0].largest, added[1..])
  }

  ghost function StartingAfter(files: seq<File>, k: InternalKey): set<nat> {
    set i | 0 <= i < |files| && Less(k, files[i].smallest)
  }

  method AddBoundaryInputs(levelFiles: seq<File>, compactionFiles: seq<File>)
    returns (out: seq<File>, ghost k: InternalKey, ghost added: seq<File>)
    requires ValidFiles(levelFiles)
    ensures out == compactionFiles + added
    ensures compactionFiles == [] ==> added == []
    ensures compactionFiles != [] ==> IsLargest(compactionFiles, k) && Chain(levelFiles, k, added)
    ensures WithBoundary(levelFiles, compactionFiles, out)
  {
    out, added, k := compactionFiles, [], LookupKey(0.0, 0);
    var largest := FindLargestKey(compactionFiles);
    if largest.None? {
      return;
    }
    var largestKey := largest.value;
    k := largestKey;
    var continueSearching := true;
    assert forall rest: seq<File> :: added + rest == rest;
    while continueSearching
      invariant out == compactionFiles + added
      invariant forall rest :: Chain(levelFiles, largestKey, rest) ==> Chain(levelFiles, k, added + rest)
      invariant !continueSearching ==> Chain(levelFiles, largestKey, [])
      decreases continueSearching, StartingAfter(levelFiles, largestKey)
    {
      var b := FindSmallestBoundaryFile(levelFiles, largestKey);
      if b.Some? {
        FollowBoundary(levelFiles, k, largestKey, added, b.value);
        out, added := out + [b.value], added + [b.value];
        largestKey := b.value.largest;
      } else {
        continueSearching := false;
      }
    }
    assert added + [] == added;
  }

  /** One round of the search: the chain grows by one file and fewer files start after its end. */
  lemma FollowBoundary(files: seq<File>, k: InternalKey, last: InternalKey, added: seq<File>, b: File)
    requires ValidFiles(files) && SmallestBoundary(files, last, b)
    requires forall rest :: Chain(files, last, rest) ==> Chain(files, k, added + rest)
    ensures forall rest :: Chain(files, b.largest, rest) ==> Chain(files, k, (added + [b]) + rest)
    ensures StartingAfter(files, b.largest) < StartingAfter(files, last)
  {
    var i :| 0 <= i < |files| && files[i] == b;
    EntryBounds(b, b.entries[0]);
    assert i in StartingAfter(files, last) && i !in StartingAfter(files, b.largest);
    forall rest | Chain(files, b.largest, rest)
      ensures Chain(files, k, (added + [b]) + rest)
    {
      assert ([b] + rest)[1..] == rest;
      assert Chain(files, last, [b] + rest);
      assert added + ([b] + rest) == (added + [b]) + rest;
    }
  }

  /** In a sorted level the chain is the next files in order, up to the first whose
      user key is new. */
  lemma {:induction false} ChainIsNextFiles(files: seq<File>, j: nat, added: seq<File>)
    requires ValidFiles(files) && Disjoint(files) && 0 < j <= |files|
    requires Chain(files, files[j-1].largest, added)
    ensures j + |added| <= |files| && added == files[j..j + |added|]
    ensures NoBoundaryAt(files, j + |added|)
    decreases |added|
  {
    if added == [] {
      ChainEnds(files, j);
    } else {
      var b, rest := added[0], added[1..];
      hide ValidFiles, Disjoint, SmallestBoundary, NoBoundaryAt;
      NextBoundary(files, j, b);
      ChainIsNextFiles(files, j + 1, rest);
      ConsSlice(files, j, j + 1 + |rest|);
      assert added == [b] + rest;
    }
  }

  lemma ConsSlice(files: seq<File>, j: nat, end: nat)
    requires j < end <= |files|
    ensures files[j..end] == [files[j]] + files[j + 1..end]
  {
  }

  lemma ChainEnds(files: seq<File>, j: nat)
    requires Disjoint(files) && 0 < j <= |files|
    requires NoneBoundary(files, files[j-1].largest)
    ensures NoBoundaryAt(files, j)
  {
    assert j < |files| ==> files[j] in files;
  }

  lemma NextBoundary(files: seq<File>, j: nat, b: File)
    requires ValidFiles(files) && Disjoint(files) && 0 < j <= |files|
    requires SmallestBoundary(files, files[j-1].largest, b)
    ensures j < |files| && b == files[j]
  {
    var m :| 0 <= m < |files| && files[m] == b;
    if m < j {
      EntryBounds(files[m], files[m].entries[0]);
      EntryBounds(files[j-1], files[j-1].entries[0]);
    } else if m > j {
      UsersOrdered(files, j - 1, j);
      UsersOrdered(files, j, m);
      assert files[j] in files && IsBoundary(files[j], files[j-1].largest);
    }
  }

  /** The file at j, if any, does not start with the user key its predecessor ends with. */
  ghost predicate NoBoundaryAt(files: seq<File>, j: nat) {
    0 < j < |files| ==> files[j].smallest.user != files[j-1].largest.user
  }

  /** What a compaction's level-side inputs start from: at level 0 a set of files closed
      under overlap, deeper a run of consecutive files. */
  ghost predicate Startable(level: nat, files: seq<File>, in0: seq<File>) {
    if level == 0 then
      exists b, e :: Closed(files, b, e) && in0 == Overlapping(files, b, e)
    else
      exists i, j :: 0 <= i < j <= |files| && in0 == files[i..j]
  }

  /** Moreover no unselected file of the level starts with the user key the inputs end with. */
  ghost predicate KeyClosed(level: nat, files: seq<File>, in0: seq<File>) {
    if level == 0 then
      Startable(0, files, in0)
    else
      exists i, j :: 0 <= i < j <= |files| && in0 == files[i..j] && NoBoundaryAt(files, j)
  }

  /** The level+1 inputs are exactly the files meeting the user-key range of the level inputs. */
  ghost predicate CoversNextLevel(next: seq<File>, in0: seq<File>, in1: seq<File>) {
    exists lo, hi :: IsSmallest(in0, lo) && IsLargest(in0, hi) && in1 == Overlapping(next, Some(lo.user), Some(hi.user))
  }

  ghost predicate WellSelected(levels: Levels, level: nat, in0: seq<File>, in1: seq<File>) {
    && level + 1 < NUM_LEVELS && in0 != []
    && KeyClosed(level, levels[level], in0)
    && CoversNextLevel(levels[level + 1], in0, in1)
  }

  /** A closed level-0 set has no boundary file. */
  lemma ClosedHasNoBoundary(files: seq<File>, in0: seq<File>, k: InternalKey)
    requires ValidFiles(files) && Startable(0, files, in0) && IsLargest(in0, k)
    ensures NoneBoundary(files, k)
  {
    var b, e :| Closed(files, b, e) && in0 == Overlapping(files, b, e);
    var last :| last in in0 && last.largest == k;
    OverlappingExactly(files, b, e, last);
    forall f | f in files && IsBoundary(f, k)
      ensures false
    {
      var i :| 0 <= i < |files| && files[i] == f;
      EntryBounds(f, f.entries[0]);
      var j :| 0 <= j < |files| && files[j] == last;
      EntryBounds(last, last.entries[0]);
      OverlappingExactly(files, b, e, f);
    }
  }

  /** Adding the boundary chain closes the selection under shared user keys. */
  lemma ChainCloses(level: nat, files: seq<File>, in0: seq<File>, k: InternalKey, added: seq<File>)
    requires SortedLevel(level, files)
    requires Startable(level, files, in0) && IsLargest(in0, k) && Chain(files, k, added)
    ensures KeyClosed(level, files, in0 + added)
  {
    if level == 0 {
      ClosedHasNoBoundary(files, in0, k);
      assert in0 + added == in0;
    } else {
      var i, j :| 0 <= i < j <= |files| && in0 == files[i..j];
      LastIsLargest(files, i, j, k);
      ChainClosesRun(files, i, j, added);
    }
  }

  lemma ChainClosesRun(files: seq<File>, i: nat, j: nat, added: seq<File>)
    requires ValidFiles(files) && Disjoint(files) && i < j <= |files|
    requires Chain(files, files[j-1].largest, added)
    ensures KeyClosed(1, files, files[i..j] + added)
  {
    ChainIsNextFiles(files, j, added);
    RunGrows(files, i, j, j + |added|);
  }

  lemma RunGrows(files: seq<File>, i: nat, j: nat, m: nat)
    requires i < j <= m <= |files| && NoBoundaryAt(files, m)
    ensures KeyClosed(1, files, files[i..j] + files[j..m])
  {
    assert files[i..j] + files[j..m] == files[i..m];
  }

  lemma LastIsLargest(files: seq<File>, i: nat, j: nat, k: InternalKey)
    requires ValidFiles(files) && Disjoint(files) && i < j <= |files|
    requires IsLargest(files[i..j], k)
    ensures k == files[j-1].largest
  {
    assert files[j-1] in files[i..j];
    var f :| f in files[i..j] && f.largest == k;
    var m :| i <= m < j && files[m] == f;
    EntryBounds(files[j-1], files[j-1].entries[0]);
  }

  /** A wider range that meets as many files of a level meets the same files: the test on the
      number of level+1 inputs compares sets. */
  lemma {:induction false} EqualCountSameFiles(files: seq<File>, b: Bound, e: Bound, b': Bound, e': Bound)
    requires Widens(b, e, b', e')
    ensures |Overlapping(files, b, e)| <= |Overlapping(files, b', e')|
    ensures |Overlapping(files, b, e)| == |Overlapping(files, b', e')| ==> Overlapping(files, b, e) == Overlapping(files, b', e')
  {
    if files != [] {
      EqualCountSameFiles(files[..|files| - 1], b, e, b', e');
    }
  }

  /** What GetOverlappingInputs returns can start a compaction. */
  lemma MetIsStartable(level: nat, files: seq<File>, b: Bound, e: Bound)
    requires ValidFiles(files) && Overlapping(files, b, e) != []
    requires level == 0 ==> Closed(files, b, e)
    requires level > 0 ==> Disjoint(files)
    ensures Startable(level, files, Overlapping(files, b, e))
  {
    if level > 0 {
      var i, j := OverlappingRun(files, b, e);
    }
  }

  /** Expanding to everything that meets a range around the inputs keeps the inputs. */
  lemma ExpansionKeeps(files: seq<File>, in0: seq<File>, all: seq<File>, lo: InternalKey, hi: InternalKey, b: Bound, e: Bound)
    requires ValidFiles(files) && (forall f :: f in in0 ==> f in files && f in all)
    requires IsSmallest(all, lo) && IsLargest(all, hi) && Widens(Some(lo.user), Some(hi.user), b, e)
    ensures forall f :: f in in0 ==> f in Overlapping(files, b, e)
  {
    forall f | f in in0
      ensures f in Overlapping(files, b, e)
    {
      var i :| 0 <= i < |files| && files[i] == f;
      EntryBounds(f, f.entries[0]);
      OverlappingExactly(files, b, e, f);
    }
  }

  lemma LeastWidens(level: nat, files: seq<File>, begin: Bound, end: Bound, b: Bound, e: Bound)
    requires if level > 0 then b == begin && e == end else LeastClosed(files, begin, end, b, e)
    ensures Widens(begin, end, b, e) && (level == 0 ==> Closed(files, b, e))
  {
  }

  lemma KeyClosedWithin(level: nat, files: seq<File>, in0: seq<File>)
    requires KeyClosed(level, files, in0)
    ensures forall f :: f in in0 ==> f in files
  {
    if level == 0 {
      var b, e :| Closed(files, b, e) && in0 == Overlapping(files, b, e);
      forall f | f in in0
        ensures f in files
      {
        OverlappingExactly(files, b, e, f);
      }
    }
  }

  /** A compaction of a level starts after where the last one of that level ended. */
  predicate AfterPointer(pointer: Option<InternalKey>, f: File) {
    pointer.None? || Less(pointer.value, f.largest)
  }

  /** The first file of the level after the pointer, or the level's first one when there is none. */
  ghost predicate NextInTurn(files: seq<File>, pointer: Option<InternalKey>, f: File) {
    if exists g :: g in files && AfterPointer(pointer, g) then
      exists i :: 0 <= i < |files| && files[i] == f && AfterPointer(pointer, f) && NoneAfterPointer(files[..i], pointer)
    else
      files != [] && f == files[0]
  }

  /** Where the last compaction of the level ended, the next one begins: with the first file that ends later; from the
      front again only if there is none. */
  lemma TurnMeans(files: seq<File>, pointer: InternalKey, f: File)
    requires NextInTurn(files, Some(pointer), f)
    ensures f in files
    ensures (exists g :: g in files && Less(pointer, g.largest)) ==>
      Less(pointer, f.largest) && exists i :: 0 <= i < |files| && files[i] == f && forall j :: 0 <= j < i ==> !Less(pointer, files[j].largest)
    ensures (forall g :: g in files ==> !Less(pointer, g.largest)) ==> f == files[0]
  {
    if g :| g in files && Less(pointer, g.largest) {
      assert AfterPointer(Some(pointer), g);
      var i :| 0 <= i < |files| && files[i] == f && AfterPointer(Some(pointer), f) && NoneAfterPointer(files[..i], Some(pointer));
      forall j | 0 <= j < i
        ensures !Less(pointer, files[j].largest)
      {
        assert files[..i][j] in files[..i];
      }
    }
  }

  ghost predicate NoneAfterPointer(files: seq<File>, pointer: Option<InternalKey>) {
    forall g :: g in files ==> !AfterPointer(pointer, g)
  }

  /** `met` is every file that meets the range of `inputs`; at level 0 that range first
      grows to the least one closed under overlap. */
  ghost predicate MeetingRange(level: nat, files: seq<File>, inputs: seq<File>, met: seq<File>) {
    exists lo, hi, b, e ::
      && IsSmallest(inputs, lo) && IsLargest(inputs, hi)
      && (level > 0 ==> b == Some(lo.user) && e == Some(hi.user))
      && (level == 0 ==> LeastClosed(files, Some(lo.user), Some(hi.user), b, e))
      && met == Overlapping(files, b, e)
  }

  ghost predicate WithBoundary(files: seq<File>, met: seq<File>, out: seq<File>) {
    if met == [] then
      out == []
    else
      exists k, added :: IsLargest(met, k) && Chain(files, k, added) && out == met + added
  }

  /** The larger level-side inputs `x` are taken: there are more of them, the whole stays
      small, and they meet no further file below. */
  ghost predicate Pays(next: seq<File>, in0: seq<File>, in1: seq<File>, x: seq<File>, maxFileSize: nat) {
    && |x| > |in0| && TotalSize(in1) + TotalSize(x) < 25 * maxFileSize
    && CoversNextLevel(next, x, in1)
  }

  ghost predicate ExpandsTo(levels: Levels, level: nat, in0: seq<File>, in1: seq<File>, maxFileSize: nat, r0: seq<File>)
    requires level + 1 < NUM_LEVELS
  {
    exists met, x ::
      && MeetingRange(level, levels[level], in0 + in1, met) && WithBoundary(levels[level], met, x)
      && r0 == if Pays(levels[level + 1], in0, in1, x, maxFileSize) then x else in0
  }

  /** The two level+1 sides are compared by their number only. */
  lemma SameCountCovers(next: seq<File>, in0: seq<File>, in1: seq<File>, x: seq<File>, x1: seq<File>)
    requires CoversNextLevel(next, in0, in1) && CoversNextLevel(next, x, x1)
    requires forall f :: f in in0 ==> f in x
    ensures |x1| == |in1| <==> CoversNextLevel(next, x, in1)
    ensures |x1| == |in1| ==> x1 == in1
  {
    var lo, hi :| IsSmallest(in0, lo) && IsLargest(in0, hi) && in1 == Overlapping(next, Some(lo.user), Some(hi.user));
    var lo', hi' :| IsSmallest(x, lo') && IsLargest(x, hi') && x1 == Overlapping(next, Some(lo'.user), Some(hi'.user));
    WiderRange(in0, x, lo, hi, lo', hi');
    EqualCountSameFiles(next, Some(lo.user), Some(hi.user), Some(lo'.user), Some(hi'.user));
    CoverIsUnique(next, x, lo', hi', in1);
  }

  lemma WiderRange(in0: seq<File>, x: seq<File>, lo: InternalKey, hi: InternalKey, lo': InternalKey, hi': InternalKey)
    requires forall f :: f in in0 ==> f in x
    requires IsSmallest(in0, lo) && IsLargest(in0, hi) && IsSmallest(x, lo') && IsLargest(x, hi')
    ensures Widens(Some(lo.user), Some(hi.user), Some(lo'.user), Some(hi'.user))
  {
  }

  lemma CoverIsUnique(next: seq<File>, x: seq<File>, lo: InternalKey, hi: InternalKey, in1: seq<File>)
    requires IsSmallest(x, lo) && IsLargest(x, hi)
    ensures CoversNextLevel(next, x, in1) <==> in1 == Overlapping(next, Some(lo.user), Some(hi.user))
  {
    if CoversNextLevel(next, x, in1) {
      var a, b :| IsSmallest(x, a) && IsLargest(x, b) && in1 == Overlapping(next, Some(a.user), Some(b.user));
      WiderRange(x, x, lo, hi, a, b);
      WiderRange(x, x, a, b, lo, hi);
    }
  }

  /** What becomes of the level-side inputs `in0`: they take their boundary files along, then
      the files they meet below, then whatever expands them for free. */
  ghost predicate SelectedFrom(levels: Levels, level: nat, in0: seq<File>, maxFileSize: nat, r0: seq<File>, r1: seq<File>)
    requires level + 1 < NUM_LEVELS
  {
    exists first ::
      && WithBoundary(levels[level], in0, first) && CoversNextLevel(levels[level + 1], first, r1)
      && (if r1 == [] then r0 == first else ExpandsTo(levels, level, first, r1, maxFileSize, r0))
  }

  /** The larger inputs are taken exactly if they are more files, come to less than 25 times the file size together
      with those of the next level, and meet no more files there. */
  lemma ExpandsExactly(levels: Levels, level: nat, in0: seq<File>, maxFileSize: nat, r0: seq<File>, r1: seq<File>)
    returns (first: seq<File>, met: seq<File>, x: seq<File>)
    requires level + 1 < NUM_LEVELS && SelectedFrom(levels, level, in0, maxFileSize, r0, r1) && r1 != []
    ensures
      && WithBoundary(levels[level], in0, first) && MeetingRange(level, levels[level], first + r1, met) && WithBoundary(levels[level], met, x)
      && r0 == if |x| >= |first| + 1 && TotalSize(r1 + x) < 25 * maxFileSize && CoversNextLevel(levels[level + 1], x, r1) then x else first
  {
    hide *;
    first := FirstSelected(levels, level, in0, maxFileSize, r0, r1);
    met, x := Larger(levels, level, first, r1, maxFileSize, r0);
    PaysMeans(levels[level + 1], first, r1, x, maxFileSize);
  }

  lemma FirstSelected(levels: Levels, level: nat, in0: seq<File>, maxFileSize: nat, r0: seq<File>, r1: seq<File>) returns (first: seq<File>)
    requires level + 1 < NUM_LEVELS && SelectedFrom(levels, level, in0, maxFileSize, r0, r1) && r1 != []
    ensures WithBoundary(levels[level], in0, first) && ExpandsTo(levels, level, first, r1, maxFileSize, r0)
  {
    hide WithBoundary, CoversNextLevel, ExpandsTo;
    first :| WithBoundary(levels[level], in0, first) && CoversNextLevel(levels[level + 1], first, r1)
             && ExpandsTo(levels, level, first, r1, maxFileSize, r0);
  }

  lemma Larger(levels: Levels, level: nat, in0: seq<File>, in1: seq<File>, maxFileSize: nat, r0: seq<File>)
    returns (met: seq<File>, x: seq<File>)
    requires level + 1 < NUM_LEVELS && ExpandsTo(levels, level, in0, in1, maxFileSize, r0)
    ensures MeetingRange(level, levels[level], in0 + in1, met) && WithBoundary(levels[level], met, x)
    ensures r0 == if Pays(levels[level + 1], in0, in1, x, maxFileSize) then x else in0
  {
    hide WithBoundary, MeetingRange, Pays;
    met, x :| MeetingRange(level, levels[level], in0 + in1, met) && WithBoundary(levels[level], met, x)
              && r0 == if Pays(levels[level + 1], in0, in1, x, maxFileSize) then x else in0;
  }

  lemma PaysMeans(next: seq<File>, in0: seq<File>, in1: seq<File>, x: seq<File>, maxFileSize: nat)
    ensures Pays(next, in0, in1, x, maxFileSize) <==>
      |x| >= |in0| + 1 && TotalSize(in1 + x) < 25 * maxFileSize && CoversNextLevel(next, x, in1)
  {
    SizesAdd(in1, x);
    hide CoversNextLevel, TotalSize;
  }

  /** What a manual compaction starts from: at level 0 all files of the least closed range,
      deeper the first files that meet the range, up to the one that reaches the size limit. */
  ghost predicate CutAtSize(level: nat, files: seq<File>, begin: Bound, end: Bound, limit: nat, start: seq<File>) {
    if level == 0 then
      exists b, e :: LeastClosed(files, begin, end, b, e) && start == Overlapping(files, b, e)
    else
      && start != [] && start <= Overlapping(files, begin, end)
      && (|start| > 1 ==> TotalSize(start[..|start| - 1]) < limit)
      && (start == Overlapping(files, begin, end) || TotalSize(start) >= limit)
  }

  /** Below level 0: the shortest run of the overlapping files, from the first on, that reaches the size, or all of them. */
  lemma CutMeans(level: nat, files: seq<File>, begin: Bound, end: Bound, limit: nat, start: seq<File>, k: nat)
    requires level > 0 && CutAtSize(level, files, begin, end, limit, start) && 0 < k < |start|
    ensures start <= Overlapping(files, begin, end) && TotalSize(start[..k]) < limit
    ensures start != Overlapping(files, begin, end) ==> limit <= TotalSize(start)
  {
    var n := |start| - 1;
    assert start[..n] == start[..k] + start[k..n];
    SizesAdd(start[..k], start[k..n]);
  }

  const L0_COMPACTION_TRIGGER: real := 4.0

  /** Ten times as much a level, from 10 MB at level 1. */
  function MaxBytes(level: nat): (r: real)
    ensures r > 0.0
  {
    if level <= 1 then 10.0 * 1048576.0 else 10.0 * MaxBytes(level - 1)
  }

  method MaxBytesForLevel(level: nat) returns (result: real)
    ensures result == MaxBytes(level)
  {
    result := 10.0 * 1048576.0;
    ghost var k := 1;
    var left := level;
    while left > 1
      invariant k >= 1 && result == MaxBytes(k) && (level >= 1 ==> left >= 1 && k + left == level + 1) && (level == 0 ==> left == 0 && k == 1)
    {
      result := result * 10.0;
      left, k := left - 1, k + 1;
    }
  }

  /** How full a level is: by files at level 0, by bytes below. */
  function Score(files: Levels, level: nat): real
    requires level < NUM_LEVELS
  {
    if level == 0 then |files[0]| as real / L0_COMPACTION_TRIGGER else TotalSize(files[level]) as real / MaxBytes(level)
  }

  /** A level is full with four files at level 0, and with 10 MB, 100 MB and so on at the levels below. */
  lemma Scores(files: Levels)
    ensures Score(files, 0) == |files[0]| as real / 4.0
    ensures Score(files, 1) == TotalSize(files[1]) as real / 10485760.0
    ensures Score(files, 2) == TotalSize(files[2]) as real / 104857600.0
    ensures Score(files, 3) == TotalSize(files[3]) as real / 1048576000.0
    ensures Score(files, 4) == TotalSize(files[4]) as real / 10485760000.0
    ensures Score(files, 5) == TotalSize(files[5]) as real / 104857600000.0
    ensures Score(files, 6) == TotalSize(files[6]) as real / 1048576000000.0
  {
    assert MaxBytes(2) == 104857600.0;
    assert MaxBytes(3) == 1048576000.0;
    assert MaxBytes(4) == 10485760000.0;
    assert MaxBytes(5) == 104857600000.0;
  }

  lemma ScoreOfFiles(files: Levels, level: nat)
    requires level < NUM_LEVELS
    ensures Score(files, level) >= 0.0
  {
    if level > 0 {
      var total, most := TotalSize(files[level]) as real, MaxBytes(level);
      assert total / most * most == total;
      NotNegative(total / most, most);
    }
  }

  lemma NotNegative(x: real, y: real)
    requires y > 0.0 && x * y >= 0.0
    ensures x >= 0.0
  {
  }

  /** A full level has files. */
  lemma FullLevel(files: Levels, level: nat)
    requires level < NUM_LEVELS && Score(files, level) >= 1.0
    ensures files[level] != []
  {
  }

  datatype Inputs = Inputs(level: nat, in0: seq<File>, in1: seq<File>, grandparents: seq<File>)

  /** The current version and where the next compaction of each level starts. */
  class VersionSet {
    const files: Levels
    const maxFileSize: nat
    var compactPointer: seq<Option<InternalKey>>

    constructor (files: Levels, maxFileSize: nat)
      requires SortedLevels(files)
      ensures Valid() && this.files == files && this.maxFileSize == maxFileSize
    {
      this.files, this.maxFileSize := files, maxFileSize;
      compactPointer := seq(NUM_LEVELS, _ => None);
    }

    ghost predicate Valid()
      reads this`compactPointer
    {
      |compactPointer| == NUM_LEVELS && SortedLevels(files)
    }

    /** The inputs before expansion: `in0` with its boundary files, and what it meets below. */
    method FirstSelection(level: nat, in0: seq<File>) returns (r0: seq<File>, r1: seq<File>)
      requires Valid() && level + 1 < NUM_LEVELS
      requires in0 != [] && Startable(level, files[level], in0)
      ensures WellSelected(files, level, r0, r1) && in0 <= r0 && WithBoundary(files[level], in0, r0)
    {
      var inputs0, k, added := AddBoundaryInputs(files[level], in0);
      ChainCloses(level, files[level], in0, k, added);
      var inputs1 := CoverNext(level, inputs0);
      return inputs0, inputs1;
    }

    /** Everything of `level` that meets the range of all inputs, with its boundary files. */
    method Larger(level: nat, inputs0: seq<File>, inputs1: seq<File>) returns (expanded0: seq<File>, ghost met: seq<File>)
      requires Valid() && level + 1 < NUM_LEVELS
      requires inputs0 != [] && KeyClosed(level, files[level], inputs0)
      ensures MeetingRange(level, files[level], inputs0 + inputs1, met) && WithBoundary(files[level], met, expanded0)
      ensures KeyClosed(level, files[level], expanded0)
      ensures forall f :: f in inputs0 ==> f in expanded0
    {
      hide Startable, KeyClosed, IsSmallest, IsLargest, WithBoundary, LeastClosed, Chain;
      var allStart, allLimit := GetRange(inputs0 + inputs1);
      assert SortedLevel(level, files[level]);
      var inputs, b, e := GetOverlappingInputs(level, files[level], Some(allStart.user), Some(allLimit.user));
      met := inputs;
      ghost var k, added;
      expanded0, k, added := AddBoundaryInputs(files[level], inputs);
      KeyClosedWithin(level, files[level], inputs0);
      LeastWidens(level, files[level], Some(allStart.user), Some(allLimit.user), b, e);
      ExpansionKeeps(files[level], inputs0, inputs0 + inputs1, allStart, allLimit, b, e);
      assert inputs0[0] in met;
      MetIsStartable(level, files[level], b, e);
      ChainCloses(level, files[level], met, k, added);
    }

    /** Try to take more of `level` without taking more of level+1. */
    method Expand(level: nat, inputs0: seq<File>, inputs1: seq<File>) returns (r0: seq<File>, r1: seq<File>)
      requires Valid() && level + 1 < NUM_LEVELS
      requires WellSelected(files, level, inputs0, inputs1)
      ensures WellSelected(files, level, r0, r1)
      ensures r1 == inputs1 && ExpandsTo(files, level, inputs0, inputs1, maxFileSize, r0)
      ensures forall f :: f in inputs0 ==> f in r0
    {
      hide SortedLevels, KeyClosed, IsSmallest, IsLargest, CoversNextLevel, WithBoundary, MeetingRange;
      r0, r1 := inputs0, inputs1;
      var expanded0, met := Larger(level, inputs0, inputs1);
      if |expanded0| > |inputs0| && TotalSize(inputs1) + TotalSize(expanded0) < 25 * maxFileSize {
        var expanded1 := CoverNext(level, expanded0);
        SameCountCovers(files[level + 1], inputs0, inputs1, expanded0, expanded1);
        if |expanded1| == |inputs1| {
          return expanded0, expanded1;
        }
      }
    }

    /** The level+1 files that meet the range of `in0`. */
    method CoverNext(level: nat, in0: seq<File>) returns (in1: seq<File>)
      requires Valid() && level + 1 < NUM_LEVELS && in0 != []
      ensures CoversNextLevel(files[level + 1], in0, in1)
    {
      var smallest, largest := GetRange(in0);
      var inputs1, _, _ := GetOverlappingInputs(level + 1, files[level + 1], Some(smallest.user), Some(largest.user));
      return inputs1;
    }

    /** Everything SetupOtherInputs does to the inputs themselves. */
    method SelectBoth(level: nat, in0: seq<File>) returns (r0: seq<File>, r1: seq<File>)
      requires Valid() && level + 1 < NUM_LEVELS
      requires in0 != [] && Startable(level, files[level], in0)
      ensures WellSelected(files, level, r0, r1)
      ensures SelectedFrom(files, level, in0, maxFileSize, r0, r1)
      ensures forall f :: f in in0 ==> f in r0
    {
      hide SortedLevels, Startable, KeyClosed, WithBoundary, ExpandsTo;
      r0, r1 := FirstSelection(level, in0);
      if r1 != [] {
        r0, r1 := Expand(level, r0, r1);
      }
    }

    /** Widen `in0` to what must travel with it, pick the level+1 files, and expand. */
    method SetupOtherInputs(level: nat, in0: seq<File>) returns (r: Inputs)
      requires Valid() && level + 1 < NUM_LEVELS
      requires in0 != [] && Startable(level, files[level], in0)
      modifies this`compactPointer
      ensures Valid() && r.level == level
      ensures WellSelected(files, level, r.in0, r.in1)
      ensures SelectedFrom(files, level, in0, maxFileSize, r.in0, r.in1)
      ensures forall f :: f in in0 ==> f in r.in0
      ensures level + 2 < NUM_LEVELS ==> CoversNextLevel(files[level + 2], r.in0 + r.in1, r.grandparents)
      ensures level + 2 == NUM_LEVELS ==> r.grandparents == []
      ensures compactPointer[level].Some? && IsLargest(r.in0, compactPointer[level].value)
      ensures compactPointer == old(compactPointer)[level := compactPointer[level]]
    {
      hide SortedLevels, Startable, KeyClosed, CoversNextLevel, SelectedFrom, IsSmallest, IsLargest;
      var inputs0, inputs1 := SelectBoth(level, in0);
      var grandparents := FindGrandparents(level, inputs0, inputs1);
      var _, largest := GetRange(inputs0);
      compactPointer := compactPointer[level := Some(largest)];
      return Inputs(level, inputs0, inputs1, grandparents);
    }

    /** The files two levels down that meet the range of all inputs. */
    method FindGrandparents(level: nat, in0: seq<File>, in1: seq<File>) returns (grandparents: seq<File>)
      requires Valid() && level + 1 < NUM_LEVELS && WellSelected(files, level, in0, in1)
      ensures level + 2 == NUM_LEVELS ==> grandparents == []
      ensures level + 2 < NUM_LEVELS ==> CoversNextLevel(files[level + 2], in0 + in1, grandparents)
    {
      grandparents := [];
      if level + 2 < NUM_LEVELS {
        var allStart, allLimit := GetRange(in0 + in1);
        var met, _, _ := GetOverlappingInputs(level + 2, files[level + 2], Some(allStart.user), Some(allLimit.user));
        grandparents := met;
      }
    }

    /** The first file after the compaction pointer, wrapping around. */
    method NextFile(level: nat) returns (f: File)
      requires Valid() && level < NUM_LEVELS && files[level] != []
      ensures f in files[level] && NextInTurn(files[level], compactPointer[level], f)
    {
      for i := 0 to |files[level]|
        invariant NoneAfterPointer(files[level][..i], compactPointer[level])
      {
        f := files[level][i];
        if AfterPointer(compactPointer[level], f) {
          return;
        }
      }
      return files[level][0];
    }

    /** The level that is fullest for its size, the shallowest of equals. */
    method Finalize() returns (level: nat, score: real)
      requires Valid()
      ensures level + 1 < NUM_LEVELS && score == Score(files, level)
      ensures forall l :: 0 <= l < NUM_LEVELS - 1 ==> Score(files, l) <= score && (l < level ==> Score(files, l) < score)
    {
      level, score := 0, -1.0;
      for l := 0 to NUM_LEVELS - 1
        invariant l > 0 ==> level < l && score == Score(files, level)
        invariant l == 0 ==> score == -1.0
        invariant forall k :: 0 <= k < l ==> Score(files, k) <= score && (k < level ==> Score(files, k) < score)
      {
        ScoreOfFiles(files, l);
        var this_: real;
        if l == 0 {
          this_ := |files[0]| as real / L0_COMPACTION_TRIGGER;
        } else {
          var limit := MaxBytesForLevel(l);
          this_ := TotalSize(files[l]) as real / limit;
        }
        if this_ > score {
          level, score := l, this_;
        }
      }
    }

    /** An automatic compaction: of the next file of an over-full level, or else of the file that
        cost too many seeks, if there is one. */
    method PickCompaction(seek: Option<(nat, File)>) returns (r: Option<Inputs>)
      requires Valid()
      requires seek.Some? ==> seek.value.0 + 1 < NUM_LEVELS && seek.value.1 in files[seek.value.0]
      modifies this`compactPointer
      ensures Valid()
      ensures r.None? <==> seek.None? && forall l :: 0 <= l < NUM_LEVELS - 1 ==> Score(files, l) < 1.0
      ensures r.Some? ==> r.value.level + 1 < NUM_LEVELS && WellSelected(files, r.value.level, r.value.in0, r.value.in1)
      ensures r.Some? ==>
          if exists l :: 0 <= l < NUM_LEVELS - 1 && Score(files, l) >= 1.0 then
            && (forall l :: 0 <= l < NUM_LEVELS - 1 ==> Score(files, l) <= Score(files, r.value.level))
            && exists f :: f in r.value.in0 && NextInTurn(files[r.value.level], old(compactPointer)[r.value.level], f)
          else
            r.value.level == seek.value.0 && seek.value.1 in r.value.in0
    {
      hide WellSelected, SortedLevels, NextInTurn, Score;
      var level, score := Finalize();
      if score >= 1.0 {
        FullLevel(files, level);
        var next := NextFile(level);
        var picked := PickFile(level, next);
        return Some(picked);
      } else if seek.Some? {
        var picked := PickFile(seek.value.0, seek.value.1);
        return Some(picked);
      }
      return None;
    }

    /** A compaction of one file; at level 0 of all files that overlap it. */
    method PickFile(level: nat, f: File) returns (r: Inputs)
      requires Valid() && level + 1 < NUM_LEVELS && f in files[level]
      modifies this`compactPointer
      ensures Valid() && r.level == level && f in r.in0
      ensures WellSelected(files, level, r.in0, r.in1)
    {
      ghost var i :| 0 <= i < |files[level]| && files[level][i] == f;
      assert SortedLevel(level, files[level]);
      var in0 := [f];
      if level == 0 {
        var met, b, e := GetOverlappingInputs(0, files[0], Some(f.smallest.user), Some(f.largest.user));
        EntryBounds(f, f.entries[0]);
        OverlappingExactly(files[0], b, e, f);
        in0 := met;
      } else {
        assert [f] == files[level][i..i+1];
      }
      r := SetupOtherInputs(level, in0);
    }

    /** The first inputs, up to the one that makes them large enough. */
    method CutInputs(level: nat, inputs: seq<File>, begin: Bound, end: Bound) returns (start: seq<File>)
      requires 0 < level < NUM_LEVELS && inputs == Overlapping(files[level], begin, end)
      requires inputs != [] && Startable(level, files[level], inputs)
      ensures start != [] && Startable(level, files[level], start)
      ensures CutAtSize(level, files[level], begin, end, maxFileSize, start)
    {
      hide Startable;
      var total := 0;
      for i := 0 to |inputs|
        invariant total == TotalSize(inputs[..i]) && (i > 0 ==> total < maxFileSize)
      {
        assert inputs[..i + 1][..i] == inputs[..i];
        total := total + inputs[i].size;
        if total >= maxFileSize {
          PrefixStartable(level, files[level], inputs, i + 1);
          return inputs[..i + 1];
        }
      }
      assert inputs[..|inputs|] == inputs;
      return inputs;
    }

    /** A manual compaction of a key range, cut short by size below level 0. */
    method CompactRange(level: nat, begin: Bound, end: Bound) returns (r: Option<Inputs>)
      requires Valid() && level + 1 < NUM_LEVELS
      modifies this`compactPointer
      ensures Valid()
      ensures r.None? <==> forall f :: f in files[level] ==> !Meets(f, begin, end)
      ensures r.Some? ==> r.value.level == level && WellSelected(files, level, r.value.in0, r.value.in1)
      ensures r.Some? ==> exists start ::
          && CutAtSize(level, files[level], begin, end, maxFileSize, start)
          && SelectedFrom(files, level, start, maxFileSize, r.value.in0, r.value.in1)
    {
      var inputs, b, e := GetOverlappingInputs(level, files[level], begin, end);
      EmptyExactly(level, files[level], begin, end, b, e);
      if inputs == [] {
        return None;
      }
      assert SortedLevel(level, files[level]);
      MetIsStartable(level, files[level], b, e);
      if level > 0 {
        inputs := CutInputs(level, inputs, begin, end);
      }
      var c := SetupOtherInputs(level, inputs);
      return Some(c);
    }
  }

  lemma PrefixStartable(level: nat, files: seq<File>, inputs: seq<File>, n: nat)
    requires level > 0 && Startable(level, files, inputs) && 0 < n <= |inputs|
    ensures Startable(level, files, inputs[..n])
  {
    var i, j :| 0 <= i < j <= |files| && inputs == files[i..j];
    assert files[i..j][..n] == files[i..i + n];
  }

  /** Growing the range at level 0 starts only from a file that meets it. */
  lemma EmptyExactly(level: nat, files: seq<File>, begin: Bound, end: Bound, b: Bound, e: Bound)
    requires if level > 0 then b == begin && e == end else LeastClosed(files, begin, end, b, e)
    ensures Overlapping(files, b, e) == [] <==> forall f :: f in files ==> !Meets(f, begin, end)
  {
    if forall f :: f in files ==> !Meets(f, begin, end) {
      assert Widens(begin, end, begin, end) && Closed(files, begin, end);
      NoneMeet(files, b, e);
    }
    forall f | f in files && Meets(f, begin, end)
      ensures f in Overlapping(files, b, e)
    {
      OverlappingExactly(files, b, e, f);
    }
  }
}
