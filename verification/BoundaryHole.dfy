/** An instance where a compaction changes a read.  Level 1 holds one file; level 2 holds two
    files that share the user key 1.0, a deletion at the end of the first and an older value
    at the start of the second.  Compacting level 1 takes the first level-2 file only, finds
    the deletion obsolete, drops it, and the older value is readable again. */
module BoundaryHole {
  import opened Options
  import opened Keys
  import opened Reads
  import opened Files
  import opened Overlaps
  import opened InputSelection
  import opened Compacting
  import opened Installing

  const Fresh := Entry(InternalKey(0.0, 9, TypeValue), [])
  const Stale := Entry(InternalKey(0.0, 1, TypeValue), [])
  const Marker := Entry(InternalKey(1.0, 5, TypeDeletion), [])
  const Buried := Entry(InternalKey(1.0, 3, TypeValue), [7])

  const Upper := File(4, 1, Fresh.key, Fresh.key, [Fresh])
  const Lower := File(2, 1, Stale.key, Marker.key, [Stale, Marker])
  const Beside := File(3, 1, Buried.key, Buried.key, [Buried])
  const Output := File(5, 1, Fresh.key, Fresh.key, [Fresh])

  const Levels1: Levels := [[], [Upper], [Lower, Beside], [], [], [], []]
  const Levels2: Levels := [[], [], [Output, Beside], [], [], [], []]

  const Input := [Fresh, Stale, Marker]

  lemma One(f: File)
    ensures LevelContents([f]) == Contents(f)
  {
    LevelContentsSnoc([], f);
    assert [] + [f] == [f];
  }

  lemma Two(f: File, g: File)
    ensures LevelContents([f, g]) == Contents(f) + Contents(g)
  {
    One(f);
    LevelContentsSnoc([f], g);
    assert [f] + [g] == [f, g];
  }

  lemma NoContents()
    ensures LevelContents([]) == {}
  {
  }

  lemma FileContents()
    ensures Contents(Upper) == {Fresh} && Contents(Output) == {Fresh}
    ensures Contents(Lower) == {Stale, Marker} && Contents(Beside) == {Buried}
  {
  }

  lemma ContentsOf()
    ensures LevelContents([Upper]) == {Fresh} && LevelContents([Lower]) == {Stale, Marker}
    ensures LevelContents([Lower, Beside]) == {Stale, Marker, Buried}
    ensures LevelContents([Output, Beside]) == {Fresh, Buried}
  {
    hide LevelContents, Contents;
    FileContents();
    One(Upper);
    One(Lower);
    Two(Lower, Beside);
    Two(Output, Beside);
  }

  ghost predicate OnlyTwoLevels(levels: Levels) {
    forall l :: 0 <= l < NUM_LEVELS && l != 1 && l != 2 ==> levels[l] == []
  }

  lemma AllContents(levels: Levels)
    requires OnlyTwoLevels(levels)
    ensures ContentsFrom(levels, 0) == LevelContents(levels[1]) + LevelContents(levels[2])
  {
    ContentsSplit(levels, 0, 1, NUM_LEVELS);
    ContentsSplit(levels, 1, 2, NUM_LEVELS);
    ContentsSplit(levels, 2, 3, NUM_LEVELS);
    ContentsOne(levels, 1);
    ContentsOne(levels, 2);
  }

  lemma TwoLevelsValid(levels: Levels)
    requires OnlyTwoLevels(levels) && SortedLevel(1, levels[1]) && SortedLevel(2, levels[2])
    requires Newer(LevelContents(levels[1]), LevelContents(levels[2]))
    requires Distinct(LevelContents(levels[1]) + LevelContents(levels[2]))
    ensures ValidLevels(levels)
  {
    AllContents(levels);
    forall l, m | 0 <= l < m < NUM_LEVELS
      ensures Newer(LevelContents(levels[l]), LevelContents(levels[m]))
    {
      assert levels[l] == [] || levels[m] == [] || (l == 1 && m == 2);
    }
    forall l | 0 <= l < NUM_LEVELS
      ensures SortedLevel(l, levels[l])
    {
      assert l == 1 || l == 2 || levels[l] == [];
    }
  }

  lemma SortedHere()
    ensures SortedLevel(1, [Upper]) && SortedLevel(2, [Lower, Beside])
  {
    assert ValidFile(Upper) && ValidFile(Lower) && ValidFile(Beside);
  }

  lemma StartsValid()
    ensures ValidLevels(Levels1)
  {
    hide LevelContents, SortedLevel, ValidLevels;
    SortedHere();
    ContentsOf();
    TwoLevelsValid(Levels1);
  }

  lemma Selected()
    ensures WellSelected(Levels1, 1, [Upper], [Lower])
  {
    assert Levels1[1][0..1] == [Upper];
    assert Upper in [Upper];
    assert IsSmallest([Upper], Fresh.key) && IsLargest([Upper], Fresh.key);
    assert [Lower, Beside][..1] == [Lower] && [Lower][..0] == [];
    assert Overlapping([Lower], Some(0.0), Some(0.0)) == [Lower];
    assert Overlapping([Lower, Beside], Some(0.0), Some(0.0)) == [Lower];
  }

  /** SetupOtherInputs leaves nothing else to select: its results are well selected. */
  lemma OnlyChoice(in0: seq<File>, in1: seq<File>)
    requires WellSelected(Levels1, 1, in0, in1)
    ensures in0 == [Upper] && in1 == [Lower]
  {
    hide CoversNextLevel, Overlapping, Chain;
    assert Levels1[1] == [Upper] && Levels1[2] == [Lower, Beside];
    var i, j :| 0 <= i < j <= |[Upper]| && in0 == [Upper][i..j];
    assert in0 == [Upper];
    Selected();
    UpperCovers(in1);
    UpperCovers([Lower]);
  }

  lemma UpperCovers(in1: seq<File>)
    ensures CoversNextLevel([Lower, Beside], [Upper], in1) <==> in1 == Overlapping([Lower, Beside], Some(0.0), Some(0.0))
  {
    assert Upper in [Upper] && IsSmallest([Upper], Fresh.key) && IsLargest([Upper], Fresh.key);
    hide Overlapping;
    CoverIsUnique([Lower, Beside], [Upper], Fresh.key, Fresh.key, in1);
  }

  /** The selection from the file itself: no boundary file, one file below, and nothing to expand to. */
  lemma SelectedHere(maxFileSize: nat)
    ensures SelectedFrom(Levels1, 1, [Upper], maxFileSize, [Upper], [Lower])
  {
    NoBoundary();
    Selected();
    NothingToExpand();
    hide WithBoundary, MeetingRange, CoversNextLevel, KeyClosed, TotalSize;
    assert Levels1[1] == [Upper] && Levels1[2] == [Lower, Beside];
    assert !Pays([Lower, Beside], [Upper], [Lower], [Upper], maxFileSize);
    assert ExpandsTo(Levels1, 1, [Upper], [Lower], maxFileSize, [Upper]);
  }

  lemma NoBoundary()
    ensures WithBoundary([Upper], [Upper], [Upper])
  {
    assert Upper in [Upper] && IsLargest([Upper], Fresh.key);
    assert NoneBoundary([Upper], Fresh.key) && Chain([Upper], Fresh.key, []);
    assert [Upper] == [Upper] + [];
  }

  lemma NothingToExpand()
    ensures MeetingRange(1, [Upper], [Upper] + [Lower], [Upper])
  {
    var inputs := [Upper] + [Lower];
    assert inputs == [Upper, Lower] && Upper in inputs && Lower in inputs;
    assert IsSmallest(inputs, Fresh.key) && IsLargest(inputs, Marker.key);
    assert [Upper][..0] == [] && Overlapping([Upper], Some(0.0), Some(1.0)) == [Upper];
  }

  lemma KeepsOne(deep: seq<seq<File>>)
    requires forall l :: 0 <= l < |deep| ==> deep[l] == []
    ensures Kept(Input, 3, 9, deep) == [Fresh]
  {
    assert !SomeFileHolds(deep, 1.0);
    assert Kept(Input, 1, 9, deep) == [Fresh];
    assert Kept(Input, 2, 9, deep) == [Fresh];
  }

  lemma FilesOf()
    ensures ToSet([Upper]) == {Upper} && ToSet([Lower]) == {Lower} && ToSet([Output]) == {Output}
    ensures ToSet([Lower, Beside]) == {Lower, Beside} && ToSet([Output, Beside]) == {Output, Beside}
    ensures ToSet(Input) == {Fresh, Stale, Marker}
  {
  }

  lemma Cut(deep: seq<seq<File>>)
    requires forall l :: 0 <= l < |deep| ==> deep[l] == []
    ensures CutFrom([Output], Kept(Input, 3, 9, deep))
  {
    KeepsOne(deep);
    assert Tables([Output]) == [[Fresh]] && Concat([]) == [] && Concat([[Fresh]]) == [Fresh];
  }

  lemma InstalledHere()
    ensures Installed(Levels1, 1, [Upper], [Lower], [Output], Levels2)
  {
    FilesOf();
    assert ToSet([Upper]) - ToSet([Upper]) == {};
    assert ToSet([Lower, Beside]) - ToSet([Lower]) + ToSet([Output]) == {Output, Beside};
  }

  lemma Steps()
    ensures CompactionStep(Levels1, 1, [Upper], [Lower], 9, Input, [Output], Levels2)
  {
    hide WellSelected, CutFrom, Installed, LevelContents, Kept;
    Selected();
    ContentsOf();
    FilesOf();
    Cut(Levels1[3..]);
    InstalledHere();
  }

  lemma ReadsBefore()
    ensures Read(ContentsFrom(Levels1, 0), 1.0, 9) == None
  {
    hide ContentsFrom, LevelContents;
    ContentsOf();
    AllContents(Levels1);
    ReadIs({Fresh, Stale, Marker, Buried}, 1.0, 9, Marker);
    assert ContentsFrom(Levels1, 0) == {Fresh, Stale, Marker, Buried};
  }

  lemma ReadsAfter()
    ensures Read(ContentsFrom(Levels2, 0), 1.0, 9) == Some([7])
  {
    hide ContentsFrom, LevelContents;
    ContentsOf();
    NoContents();
    AllContents(Levels2);
    ReadIs({Fresh, Buried}, 1.0, 9, Buried);
    assert ContentsFrom(Levels2, 0) == {Fresh, Buried};
  }

  /** A valid version, the inputs SetupOtherInputs picks, the drop rules, the installed result:
      yet the newest snapshot reads a value where it read nothing. */
  lemma ReadChanges(maxFileSize: nat)
    ensures ValidLevels(Levels1)
    ensures SelectedFrom(Levels1, 1, [Upper], maxFileSize, [Upper], [Lower])
    ensures forall in0, in1 :: WellSelected(Levels1, 1, in0, in1) ==> in0 == [Upper] && in1 == [Lower]
    ensures CompactionStep(Levels1, 1, [Upper], [Lower], 9, Input, [Output], Levels2)
    ensures Read(ContentsFrom(Levels1, 0), 1.0, 9) == None
    ensures Read(ContentsFrom(Levels2, 0), 1.0, 9) == Some([7])
  {
    hide WellSelected, SelectedFrom, ValidLevels, CompactionStep, ContentsFrom, Read;
    StartsValid();
    SelectedHere(maxFileSize);
    forall in0, in1 | WellSelected(Levels1, 1, in0, in1)
      ensures in0 == [Upper] && in1 == [Lower]
    {
      OnlyChoice(in0, in1);
    }
    Steps();
    ReadsBefore();
    ReadsAfter();
  }
}
