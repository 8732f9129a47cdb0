/** Sorted tables, levels, and the invariant every installed version keeps. */
module Files {
  import opened Keys
  import opened Reads

  /** A table file: its metadata, and the entries stored in it. */
  datatype File = File(number: nat, size: nat, smallest: InternalKey, largest: InternalKey, entries: seq<Entry>)

  type Levels = s: seq<seq<File>> | |s| == NUM_LEVELS witness seq(NUM_LEVELS, _ => [])

  ghost predicate ValidFile(f: File) {
    && f.entries != [] && Sorted(f.entries)
    && f.smallest == f.entries[0].key
    && f.largest == f.entries[|f.entries| - 1].key
  }

  ghost predicate ValidFiles(fs: seq<File>) {
    forall i :: 0 <= i < |fs| ==> ValidFile(fs[i])
  }

  /** Files in key order, no two overlapping: what levels 1 and deeper keep. */
  ghost predicate Disjoint(fs: seq<File>) {
    forall i, j :: 0 <= i < j < |fs| ==> Less(fs[i].largest, fs[j].smallest)
  }

  function TotalSize(fs: seq<File>): nat {
    if fs == [] then 0 else TotalSize(fs[..|fs| - 1]) + fs[|fs| - 1].size
  }

  lemma {:induction false} SizesAdd(a: seq<File>, b: seq<File>)
    ensures TotalSize(a + b) == TotalSize(a) + TotalSize(b)
    ensures forall f: File :: TotalSize([f]) == f.size
  {
    if b == [] {
      assert a + b == a;
    } else {
      assert (a + b)[..|a + b| - 1] == a + b[..|b| - 1];
      SizesAdd(a, b[..|b| - 1]);
    }
    forall f: File
      ensures TotalSize([f]) == f.size
    {
      assert [f][..0] == [];
    }
  }

  ghost predicate InRange(f: File, u: UserKey) {
    f.smallest.user <= u <= f.largest.user
  }

  ghost function Contents(f: File): set<Entry> {
    ToSet(f.entries)
  }

  ghost function LevelContents(fs: seq<File>): set<Entry> {
    set f, e | f in fs && e in f.entries :: e
  }

  /** Everything stored at the levels from `from` up to but not including `to`. */
  ghost function ContentsBetween(levels: seq<seq<File>>, from: nat, to: nat): set<Entry>
    requires to <= |levels|
  {
    set l, f, e | from <= l < to && f in levels[l] && e in f.entries :: e
  }

  /** Everything stored at level `from` and deeper. */
  ghost function ContentsFrom(levels: seq<seq<File>>, from: nat): set<Entry> {
    ContentsBetween(levels, from, |levels|)
  }

  /** Level 0 may overlap; a higher file number means newer data. */
  ghost predicate NewerByNumber(fs: seq<File>) {
    && (forall i, j :: 0 <= i < j < |fs| ==> fs[i].number != fs[j].number)
    && (forall f, g :: f in fs && g in fs && f.number > g.number ==> Newer(Contents(f), Contents(g)))
  }

  ghost predicate SortedLevel(l: nat, fs: seq<File>) {
    ValidFiles(fs) && (l > 0 ==> Disjoint(fs))
  }

  ghost predicate SortedLevels(levels: Levels) {
    forall l :: 0 <= l < NUM_LEVELS ==> SortedLevel(l, levels[l])
  }

  /** The invariant of a version. */
  ghost predicate ValidLevels(levels: Levels) {
    && SortedLevels(levels)
    && NewerByNumber(levels[0])
    && ShallowIsNewer(levels)
    && Distinct(ContentsFrom(levels, 0))
  }

  ghost predicate ShallowIsNewer(levels: seq<seq<File>>) {
    forall l, m :: 0 <= l < m < |levels| ==> Newer(LevelContents(levels[l]), LevelContents(levels[m]))
  }

  /** Every entry lies between the file's bounds. */
  lemma EntryBounds(f: File, e: Entry)
    requires ValidFile(f) && e in f.entries
    ensures LessEq(f.smallest, e.key) && LessEq(e.key, f.largest)
    ensures InRange(f, e.key.user)
  {
    var i :| 0 <= i < |f.entries| && f.entries[i] == e;
    assert i == 0 || Less(f.entries[0].key, e.key);
    assert i == |f.entries| - 1 || Less(e.key, f.entries[|f.entries| - 1].key);
  }

  lemma ContentsSplit(levels: seq<seq<File>>, from: nat, mid: nat, to: nat)
    requires from <= mid <= to <= |levels|
    ensures ContentsBetween(levels, from, to) == ContentsBetween(levels, from, mid) + ContentsBetween(levels, mid, to)
  {
  }

  lemma ContentsOne(levels: seq<seq<File>>, l: nat)
    requires l < |levels|
    ensures ContentsBetween(levels, l, l + 1) == LevelContents(levels[l])
  {
    assert forall e :: e in LevelContents(levels[l]) <==> exists f :: f in levels[l] && e in f.entries;
  }

  /** Shallower levels are newer, taken together. */
  lemma ShallowerNewer(levels: seq<seq<File>>, a: nat, b: nat, c: nat)
    requires ShallowIsNewer(levels) && a <= b <= c <= |levels|
    ensures Newer(ContentsBetween(levels, a, b), ContentsBetween(levels, b, c))
  {
    forall x, y | x in ContentsBetween(levels, a, b) && y in ContentsBetween(levels, b, c) && x.key.user == y.key.user
      ensures x.key.sn > y.key.sn
    {
      var l, f :| a <= l < b && f in levels[l] && x in f.entries;
      var m, g :| b <= m < c && g in levels[m] && y in g.entries;
      assert x in LevelContents(levels[l]) && y in LevelContents(levels[m]);
    }
  }
}
