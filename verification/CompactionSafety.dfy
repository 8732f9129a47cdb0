/** Reads across a whole compaction: exactly when they survive, the guard that makes them
    survive, and an instance where they do not. */
module CompactionSafety {
  import opened Options
  import opened Keys
  import opened Reads
  import opened Files
  import opened Overlaps
  import opened InputSelection
  import opened Compacting
  import opened CompactionReads
  import opened Installing

  /** No level+1 file starts, later in key order, with the user key the level+1 inputs end
      with: the check SetupOtherInputs makes for `level` but not for level+1. */
  ghost predicate NextLevelClosed(levels: Levels, level: nat, in1: seq<File>)
    requires level + 1 < NUM_LEVELS
  {
    in1 != [] ==> exists k :: IsLargest(in1, k) && NoneBoundary(levels[level + 1], k)
  }

  /** Reads survive a compaction exactly when no dropped deletion uncovers a value. */
  lemma CompactionKeepsReadsExactlyWhen(levels: Levels, level: nat, in0: seq<File>, in1: seq<File>, snapshot: nat,
                                        input: seq<Entry>, outs: seq<File>, levels': Levels)
    requires ValidLevels(levels) && CompactionStep(levels, level, in0, in1, snapshot, input, outs, levels')
    ensures Agree(ContentsFrom(levels, 0), ContentsFrom(levels', 0), snapshot)
            <==> !Resurrects(input, Untouched(levels, level, in0, in1), snapshot, levels[level + 2..])
  {
    ContentsBefore(levels, level, in0, in1, input);
    ContentsAfter(levels, level, in0, in1, snapshot, input, outs, levels');
    ReadsSurviveExactlyWhen(input, Untouched(levels, level, in0, in1), snapshot, levels[level + 2..]);
  }

  /** An untouched level+1 entry older than an input entry of its user key starts a boundary file. */
  lemma OlderNextIsBoundary(next: seq<File>, in0: seq<File>, in1: seq<File>, h: File, w: Entry, e: Entry, k: InternalKey)
    requires ValidFiles(next) && Disjoint(next) && ValidFiles(in0) && CoversNextLevel(next, in0, in1)
    requires h in next && h !in in1 && w in h.entries
    requires e in LevelContents(in0) + LevelContents(in1) && e.key.user == w.key.user && e.key.sn > w.key.sn
    requires in1 != [] ==> IsLargest(in1, k)
    ensures in1 != [] && IsBoundary(h, k)
  {
    var lo, hi :| IsSmallest(in0, lo) && IsLargest(in0, hi) && in1 == Overlapping(next, Some(lo.user), Some(hi.user));
    OverlappingExactly(next, Some(lo.user), Some(hi.user), h);
    EntryWithin(next, h, w);
    if e in LevelContents(in0) {
      ApartFromLevel(in0, lo, hi, h, e);
      LevelUsers(in0, lo, hi, e);
    } else {
      ApartFromNext(next, lo.user, hi.user, h, e);
      LargestIsBoundary(next, in1, lo.user, hi.user, h, e, k);
    }
  }

  lemma LevelUsers(in0: seq<File>, lo: InternalKey, hi: InternalKey, e: Entry)
    requires ValidFiles(in0) && IsSmallest(in0, lo) && IsLargest(in0, hi) && e in LevelContents(in0)
    ensures lo.user <= e.key.user <= hi.user
  {
    var f :| f in in0 && e in f.entries;
    EntryWithin(in0, f, e);
  }

  lemma LargestIsBoundary(next: seq<File>, in1: seq<File>, lo: UserKey, hi: UserKey, h: File, e: Entry, k: InternalKey)
    requires ValidFiles(next) && Disjoint(next) && in1 == Overlapping(next, Some(lo), Some(hi)) && IsLargest(in1, k)
    requires h in next && h.smallest.user > hi
    requires e in LevelContents(in1) && h.smallest.user <= e.key.user
    ensures IsBoundary(h, k)
  {
    var g :| g in in1 && e in g.entries;
    OverlappingExactly(next, Some(lo), Some(hi), g);
    EntryWithin(next, g, e);
    var g' :| g' in in1 && g'.largest == k;
    OverlappingExactly(next, Some(lo), Some(hi), g');
    ApartFromWhole(next, g', h, lo, hi);
  }

  /** A file outside the range is on the same side of every file meeting the range. */
  lemma ApartFromWhole(next: seq<File>, g: File, h: File, lo: UserKey, hi: UserKey)
    requires ValidFiles(next) && Disjoint(next) && g in next && h in next
    requires Meets(g, Some(lo), Some(hi)) && h.smallest.user > hi
    ensures Less(g.largest, h.smallest)
  {
    DisjointApart(next);
    assert Apart(g, h);
    var m :| 0 <= m < |next| && next[m] == g;
    var n :| 0 <= n < |next| && next[n] == h;
    EntryBounds(g, g.entries[0]);
    EntryBounds(h, h.entries[0]);
  }

  lemma NotOlderAbove(levels: Levels, level: nat, in0: seq<File>, in1: seq<File>, l: nat, h: File, w: Entry, e: Entry)
    requires ValidLevels(levels) && WellSelected(levels, level, in0, in1)
    requires l <= level && Stays(levels, level, in0, in1, l, h) && w in h.entries
    requires e in LevelContents(in0) + LevelContents(in1) && e.key.user == w.key.user
    ensures w.key.sn > e.key.sn
  {
    SelectedWithin(levels, level, in0, in1);
    assert FromInputs(levels, level, in0, e) by {
      if e in LevelContents(in0) {
        var f :| f in in0 && e in f.entries;
        assert e in Contents(f);
      }
    }
    StaysAboveInputs(levels, level, in0, l, h, w, e);
  }

  lemma NotOlderBeside(levels: Levels, level: nat, in0: seq<File>, in1: seq<File>, h: File, w: Entry, e: Entry)
    requires SortedLevels(levels) && WellSelected(levels, level, in0, in1) && NextLevelClosed(levels, level, in1)
    requires Stays(levels, level, in0, in1, level + 1, h) && w in h.entries
    requires e in LevelContents(in0) + LevelContents(in1) && e.key.user == w.key.user
    ensures w.key.sn >= e.key.sn
  {
    var next := levels[level + 1];
    assert SortedLevel(level + 1, next) && SortedLevel(level, levels[level]);
    SelectedWithin(levels, level, in0, in1);
    SubsetValid(levels[level], in0);
    if w.key.sn < e.key.sn {
      var k := e.key;
      if in1 != [] {
        k :| IsLargest(in1, k) && NoneBoundary(next, k);
      }
      OlderNextIsBoundary(next, in0, in1, h, w, e, k);
    }
  }

  /** An untouched entry older than an input entry of its user key sits deeper than level+1,
      once the level+1 inputs are closed. */
  lemma OlderUntouched(levels: Levels, level: nat, in0: seq<File>, in1: seq<File>, w: Entry, e: Entry)
    requires ValidLevels(levels) && WellSelected(levels, level, in0, in1) && NextLevelClosed(levels, level, in1)
    requires w in Untouched(levels, level, in0, in1) && e in LevelContents(in0) + LevelContents(in1)
    requires e.key.user == w.key.user && e.key.sn > w.key.sn
    ensures w in ContentsFrom(levels[level + 2..], 0)
  {
    var l, h :| 0 <= l < NUM_LEVELS && h in levels[l] && Stays(levels, level, in0, in1, l, h) && w in h.entries;
    if l <= level {
      NotOlderAbove(levels, level, in0, in1, l, h, w, e);
    } else if l == level + 1 {
      NotOlderBeside(levels, level, in0, in1, h, w, e);
    } else {
      assert levels[level + 2..][l - level - 2] == levels[l];
    }
  }

  lemma DeepDisjoint(levels: Levels, from: nat)
    requires SortedLevels(levels) && 0 < from <= NUM_LEVELS
    ensures LevelsDisjoint(levels[from..])
  {
    forall l | 0 <= l < |levels[from..]|
      ensures ValidFiles(levels[from..][l]) && Disjoint(levels[from..][l])
    {
      assert SortedLevel(from + l, levels[from + l]);
    }
  }

  lemma NothingResurrected(levels: Levels, level: nat, in0: seq<File>, in1: seq<File>, snapshot: nat,
                           input: seq<Entry>, i: nat, w: Entry)
    requires ValidLevels(levels) && WellSelected(levels, level, in0, in1) && MergeOf(input, in0, in1)
    requires NextLevelClosed(levels, level, in1)
    ensures !ResurrectsAt(input, Untouched(levels, level, in0, in1), snapshot, levels[level + 2..], i, w)
  {
    if ResurrectsAt(input, Untouched(levels, level, in0, in1), snapshot, levels[level + 2..], i, w) {
      assert input[i] in ToSet(input);
      OlderUntouched(levels, level, in0, in1, w, input[i]);
      DeepDisjoint(levels, level + 2);
      NoFileNoEntry(levels[level + 2..], w.key.user, w);
    }
  }

  /** With the level+1 inputs closed too, every compaction is invisible to readers. */
  lemma ClosedCompactionKeepsReads(levels: Levels, level: nat, in0: seq<File>, in1: seq<File>, snapshot: nat,
                                   input: seq<Entry>, outs: seq<File>, levels': Levels)
    requires ValidLevels(levels) && CompactionStep(levels, level, in0, in1, snapshot, input, outs, levels')
    requires NextLevelClosed(levels, level, in1)
    ensures Agree(ContentsFrom(levels, 0), ContentsFrom(levels', 0), snapshot)
  {
    CompactionKeepsReadsExactlyWhen(levels, level, in0, in1, snapshot, input, outs, levels');
    var left, deep := Untouched(levels, level, in0, in1), levels[level + 2..];
    if i, w :| ResurrectsAt(input, left, snapshot, deep, i, w) {
      NothingResurrected(levels, level, in0, in1, snapshot, input, i, w);
    }
  }
}
