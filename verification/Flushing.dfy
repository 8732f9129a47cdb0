/** Where a flushed memtable goes (Version::PickLevelForMemTableOutput), and why it may go there. */
module Flushing {
  import opened Options
  import opened Keys
  import opened Reads
  import opened Files
  import opened Overlaps
  import opened VersionReads
  import opened Installing

  /** The binary search gives the same answer as looking at every file. */
  method SomeFileOverlapsRange(disjointSortedFiles: bool, files: seq<File>, smallest: Bound, largest: Bound)
    returns (overlap: bool)
    requires ValidFiles(files) && (disjointSortedFiles ==> Disjoint(files))
    ensures overlap <==> exists f :: f in files && Meets(f, smallest, largest)
  {
    if !disjointSortedFiles {
      for i := 0 to |files|
        invariant forall j :: 0 <= j < i ==> !Meets(files[j], smallest, largest)
      {
        if AfterFile(smallest, files[i]) || BeforeFile(largest, files[i]) {
        } else {
          assert files[i] in files && Meets(files[i], smallest, largest);
          return true;
        }
      }
      return false;
    }
    var index := 0;
    if smallest.Some? {
      index := FindFile(files, InternalKey(smallest.value, MAX_SEQUENCE, TypeValue));
    }
    assert forall i :: 0 <= i < |files| ==> (AfterFile(smallest, files[i]) <==> i < index);
    if index >= |files| {
      return false;
    }
    assert files[index] in files;
    forall i | index <= i < |files|
      ensures BeforeFile(largest, files[index]) ==> BeforeFile(largest, files[i])
    {
      UsersOrdered(files, index, i);
    }
    return !BeforeFile(largest, files[index]);
  }

  /** No file at levels 0 to `level` meets the key range. */
  ghost predicate Free(levels: Levels, level: nat, smallest: UserKey, largest: UserKey) {
    forall l, f :: 0 <= l <= level && l < NUM_LEVELS && f in levels[l] ==> !Meets(f, Some(smallest), Some(largest))
  }

  /** A flushed file may sink from `level` to the next: nothing there meets it, and not too
      much two levels down. */
  ghost predicate MaySink(levels: Levels, level: nat, smallest: UserKey, largest: UserKey, maxFileSize: nat)
    requires level + 2 < NUM_LEVELS
  {
    && Free(levels, level + 1, smallest, largest)
    && TotalSize(Overlapping(levels[level + 2], Some(smallest), Some(largest))) <= 10 * maxFileSize
  }

  /** It may sink if no file of the levels down to the next has a key in its range, and those two levels down that have
      one come to no more than ten times the file size. */
  lemma MaySinkMeans(levels: Levels, level: nat, smallest: UserKey, largest: UserKey, maxFileSize: nat)
    requires level + 2 < NUM_LEVELS
    ensures MaySink(levels, level, smallest, largest, maxFileSize) <==>
      && (forall l, f :: 0 <= l <= level + 1 && f in levels[l] ==> f.largest.user < smallest || largest < f.smallest.user)
      && TotalSize(Overlapping(levels[level + 2], Some(smallest), Some(largest))) <= 10 * maxFileSize
  {
    forall l, f | 0 <= l <= level + 1 && f in levels[l]
      ensures Meets(f, Some(smallest), Some(largest)) <==> !(f.largest.user < smallest || largest < f.smallest.user)
    {
      MeetsMeans(f, Some(smallest), Some(largest));
    }
    hide Meets;
    assert Free(levels, level + 1, smallest, largest) <==>
      forall l, f :: 0 <= l <= level + 1 && f in levels[l] ==> f.largest.user < smallest || largest < f.smallest.user;
  }

  method PickLevelForMemTableOutput(levels: Levels, smallest: UserKey, largest: UserKey, maxFileSize: nat)
    returns (level: nat)
    requires SortedLevels(levels)
    ensures level <= 2
    ensures level == 0 || Free(levels, level, smallest, largest)
    ensures Free(levels, 0, smallest, largest) ==>
        && (forall l :: 0 <= l < level ==> MaySink(levels, l, smallest, largest, maxFileSize))
        && (level < 2 ==> !MaySink(levels, level, smallest, largest, maxFileSize))
  {
    level := 0;
    assert SortedLevel(0, levels[0]);
    var overlap := SomeFileOverlapsRange(false, levels[0], Some(smallest), Some(largest));
    if !overlap {
      while level < MAX_MEM_COMPACT_LEVEL
        invariant level <= MAX_MEM_COMPACT_LEVEL && Free(levels, level, smallest, largest)
        invariant forall l :: 0 <= l < level ==> MaySink(levels, l, smallest, largest, maxFileSize)
      {
        assert SortedLevel(level + 1, levels[level + 1]);
        overlap := SomeFileOverlapsRange(true, levels[level + 1], Some(smallest), Some(largest));
        if overlap {
          break;
        }
        if level + 2 < NUM_LEVELS {
          var overlaps, _, _ := GetOverlappingInputs(level + 2, levels[level + 2], Some(smallest), Some(largest));
          if TotalSize(overlaps) > 10 * maxFileSize {
            break;
          }
        }
        level := level + 1;
      }
    }
  }

  ghost predicate FlushInstalled(levels: Levels, level: nat, f: File, levels': Levels)
    requires level < NUM_LEVELS
  {
    && (forall l :: 0 <= l < NUM_LEVELS && l != level ==> levels'[l] == levels[l])
    && Lists(levels'[level], ToSet(levels[level]) + {f})
  }

  /** The flushed file may be placed at `level`. */
  ghost predicate Placeable(levels: Levels, level: nat, f: File) {
    && ValidFile(f) && level < NUM_LEVELS
    && (level == 0 || Free(levels, level, f.smallest.user, f.largest.user))
    && Distinct(Contents(f)) && Newer(Contents(f), ContentsFrom(levels, 0))
    && forall l, g :: 0 <= l < NUM_LEVELS && g in levels[l] ==> g.number < f.number
  }

  lemma FlushedFiles(levels: Levels, level: nat, f: File, levels': Levels, l: nat, g: File)
    requires level < NUM_LEVELS && FlushInstalled(levels, level, f, levels') && l < NUM_LEVELS
    ensures g in levels'[l] <==> g in levels[l] || (l == level && g == f)
  {
    assert g in levels'[l] <==> g in ToSet(levels'[l]);
  }

  lemma FlushedContents(levels: Levels, level: nat, f: File, levels': Levels)
    requires level < NUM_LEVELS && FlushInstalled(levels, level, f, levels')
    ensures ContentsFrom(levels', 0) == Contents(f) + ContentsFrom(levels, 0)
  {
    forall e | e in ContentsFrom(levels', 0)
      ensures e in Contents(f) + ContentsFrom(levels, 0)
    {
      var l, g :| 0 <= l < NUM_LEVELS && g in levels'[l] && e in g.entries;
      FlushedFiles(levels, level, f, levels', l, g);
    }
    forall e | e in Contents(f) + ContentsFrom(levels, 0)
      ensures e in ContentsFrom(levels', 0)
    {
      if e in Contents(f) {
        FlushedFiles(levels, level, f, levels', level, f);
      } else {
        var l, g :| 0 <= l < NUM_LEVELS && g in levels[l] && e in g.entries;
        FlushedFiles(levels, level, f, levels', l, g);
      }
    }
  }

  lemma FlushedSorted(levels: Levels, level: nat, f: File, levels': Levels)
    requires SortedLevels(levels) && Placeable(levels, level, f) && FlushInstalled(levels, level, f, levels')
    ensures SortedLevels(levels')
  {
    var here := levels[level];
    assert SortedLevel(level, here);
    forall g
      ensures g in levels'[level] ==> g in here || g in [f]
    {
      FlushedFiles(levels, level, f, levels', level, g);
    }
    MembersValid(levels'[level], here, [f]);
    if level > 0 {
      DisjointApart(here);
      forall g | g in here
        ensures Apart(g, f)
      {
        assert !Meets(g, Some(f.smallest.user), Some(f.largest.user));
      }
      ApartUnion(ToSet(here), {f});
      ApartSorted(levels'[level]);
    }
    assert forall l :: 0 <= l < NUM_LEVELS && l != level ==> SortedLevel(l, levels[l]);
  }

  /** The new file is newer than all else, and no shallower file shares a key with it. */
  lemma FlushedNewer(levels: Levels, level: nat, f: File, levels': Levels, l: nat, g: File, x: Entry, m: nat, h: File, y: Entry)
    requires ValidLevels(levels) && Placeable(levels, level, f) && FlushInstalled(levels, level, f, levels')
    requires l < m < NUM_LEVELS && g in levels'[l] && x in g.entries && h in levels'[m] && y in h.entries
    requires x.key.user == y.key.user
    ensures x.key.sn > y.key.sn
  {
    FlushedFiles(levels, level, f, levels', l, g);
    FlushedFiles(levels, level, f, levels', m, h);
    if h in levels[m] {
      if g in levels[l] {
        assert x in LevelContents(levels[l]) && y in LevelContents(levels[m]);
        ByLevels(levels, l, m, x, y);
      } else {
        assert x in Contents(f) && y in ContentsFrom(levels, 0);
      }
    } else {
      assert !Meets(g, Some(f.smallest.user), Some(f.largest.user));
      assert SortedLevel(l, levels[l]);
      EntryWithin(levels[l], g, x);
      EntryBounds(f, y);
    }
  }

  /** A flush to the picked level keeps the invariant and adds exactly the memtable. */
  lemma FlushKeepsInvariant(levels: Levels, level: nat, f: File, levels': Levels)
    requires ValidLevels(levels) && Placeable(levels, level, f) && FlushInstalled(levels, level, f, levels')
    ensures ValidLevels(levels')
    ensures ContentsFrom(levels', 0) == Contents(f) + ContentsFrom(levels, 0)
  {
    FlushedContents(levels, level, f, levels');
    FlushedSorted(levels, level, f, levels');
    if level == 0 {
      Level0Flushed(levels, f, levels');
    }
    forall l, m | 0 <= l < m < NUM_LEVELS
      ensures Newer(LevelContents(levels'[l]), LevelContents(levels'[m]))
    {
      forall x, y | x in LevelContents(levels'[l]) && y in LevelContents(levels'[m]) && x.key.user == y.key.user
        ensures x.key.sn > y.key.sn
      {
        var g :| g in levels'[l] && x in g.entries;
        var h :| h in levels'[m] && y in h.entries;
        FlushedNewer(levels, level, f, levels', l, g, x, m, h, y);
      }
    }
    DistinctLayers(Contents(f), ContentsFrom(levels, 0));
  }

  lemma Level0Flushed(levels: Levels, f: File, levels': Levels)
    requires NewerByNumber(levels[0]) && Placeable(levels, 0, f) && FlushInstalled(levels, 0, f, levels')
    ensures NewerByNumber(levels'[0])
  {
    forall i, j | 0 <= i < j < |levels'[0]|
      ensures levels'[0][i].number != levels'[0][j].number
    {
      var g, h := levels'[0][i], levels'[0][j];
      assert BySmallest(g, h);
      FlushedFiles(levels, 0, f, levels', 0, g);
      FlushedFiles(levels, 0, f, levels', 0, h);
      if g in levels[0] && h in levels[0] {
        var a :| 0 <= a < |levels[0]| && levels[0][a] == g;
        var b :| 0 <= b < |levels[0]| && levels[0][b] == h;
      }
    }
    forall g, h | g in levels'[0] && h in levels'[0] && g.number > h.number
      ensures Newer(Contents(g), Contents(h))
    {
      FlushedFiles(levels, 0, f, levels', 0, g);
      FlushedFiles(levels, 0, f, levels', 0, h);
      if g == f && h != f {
        assert Contents(h) <= ContentsFrom(levels, 0);
      }
    }
  }
}
