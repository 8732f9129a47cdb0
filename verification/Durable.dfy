/** What survives on disk: the manifest and the version it replays to. */
module Durable {
  import opened Keys
  import opened Files
  import opened Installing
  import opened Manifest
  import opened Editing

  /** The numbers of the files the manifest ever added at a level. */
  ghost function Ever(manifest: seq<VersionEdit>, l: nat): set<nat> {
    Numbers(Accumulate(Pending({}, {}), manifest, l).files)
  }

  ghost predicate NumbersBounded(manifest: seq<VersionEdit>, bound: nat) {
    forall l, n :: 0 <= l < NUM_LEVELS && n in Ever(manifest, l) ==> n < bound
  }

  /** Files only ever move deeper. */
  ghost predicate OnlyDeeper(manifest: seq<VersionEdit>, levels: Levels) {
    forall l, m, f :: 0 <= l < NUM_LEVELS && 0 <= m < NUM_LEVELS && f in levels[m] && f.number in Ever(manifest, l) ==> l <= m
  }

  ghost predicate ReplaysTo(manifest: seq<VersionEdit>, levels: Levels) {
    && (forall i :: 0 <= i < |manifest| ==> ValidEdit(manifest[i]))
    && (forall l :: 0 <= l < NUM_LEVELS ==> AddedOnce({}, manifest, l) && Lists(levels[l], InstallAll({}, manifest, l)))
  }

  /** The manifest replays to this version, and every number it mentions is below `next`. */
  ghost predicate ManifestFor(manifest: seq<VersionEdit>, levels: Levels, next: nat) {
    ReplaysTo(manifest, levels) && NumbersBounded(manifest, next) && OnlyDeeper(manifest, levels) && UniqueNumbers(levels)
  }

  /** Recovery will accept it: all three counters are there. */
  ghost predicate Complete(manifest: seq<VersionEdit>) {
    LastLogNumber(manifest).Some? && LastNextFile(manifest).Some? && LastLastSequence(manifest).Some?
  }

  ghost predicate ManifestOk(manifest: seq<VersionEdit>, levels: Levels) {
    Complete(manifest) && ManifestFor(manifest, levels, LastNextFile(manifest).value)
  }

  /** Recovery from the manifest gives back the current version. */
  lemma RecoveredIsCurrent(manifest: seq<VersionEdit>, levels: Levels, files: Levels)
    requires ReplaysTo(manifest, levels)
    requires forall l :: 0 <= l < NUM_LEVELS ==> Lists(files[l], InstallAll({}, manifest, l))
    ensures files == levels
  {
    forall l | 0 <= l < NUM_LEVELS
      ensures files[l] == levels[l]
    {
      ListsUnique(files[l], levels[l], InstallAll({}, manifest, l));
    }
  }

  lemma LiveWasAdded(manifest: seq<VersionEdit>, levels: Levels, l: nat, f: File)
    requires ReplaysTo(manifest, levels) && l < NUM_LEVELS && f in levels[l]
    ensures f.number in Ever(manifest, l)
  {
    ReplayEqualsInstalls({}, manifest, l);
    assert f in ToSet(levels[l]) && f in Accumulate(Pending({}, {}), manifest, l).files;
  }

  lemma EverAppend(manifest: seq<VersionEdit>, e: VersionEdit, l: nat)
    ensures Ever(manifest + [e], l) == Ever(manifest, l) + Numbers(AddedAt(e, |e.added|, l))
  {
    assert (manifest + [e])[..|manifest|] == manifest;
  }

  /** A complete edit that adds no number twice extends the manifest. */
  lemma AppendReplays(manifest: seq<VersionEdit>, levels: Levels, e: VersionEdit, levels': Levels)
    requires ReplaysTo(manifest, levels) && ValidEdit(e) && NextVersionOf(levels, e, levels')
    requires forall l :: 0 <= l < NUM_LEVELS ==> Numbers(AddedAt(e, |e.added|, l)) !! Ever(manifest, l)
    ensures ReplaysTo(manifest + [e], levels')
  {
    assert (manifest + [e])[..|manifest|] == manifest;
    forall l | 0 <= l < NUM_LEVELS
      ensures AddedOnce({}, manifest + [e], l) && Lists(levels'[l], InstallAll({}, manifest + [e], l))
    {
      assert Lists(levels'[l], Install(ToSet(levels[l]), e, l));
    }
  }

  /** The added files have new numbers, all different. */
  ghost predicate AddsFresh(e: VersionEdit, next: nat) {
    && e.logNumber.Some? && e.nextFile.Some? && e.lastSequence.Some? && next <= e.nextFile.value
    && (forall i :: 0 <= i < |e.added| ==> next <= e.added[i].1.number < e.nextFile.value)
    && (forall i, j :: 0 <= i < j < |e.added| ==> e.added[i].1.number != e.added[j].1.number)
  }

  lemma AddedFrom(e: VersionEdit, l: nat, n: nat) returns (i: nat)
    requires n in Numbers(AddedAt(e, |e.added|, l))
    ensures i < |e.added| && e.added[i].0 == l && e.added[i].1.number == n
  {
    var f :| f in AddedAt(e, |e.added|, l) && f.number == n;
    i :| 0 <= i < |e.added| && e.added[i].0 == l && e.added[i].1 == f;
  }

  /** Where a file of the next version comes from. */
  lemma NextVersionFrom(levels: Levels, e: VersionEdit, levels': Levels, l: nat, f: File)
    requires NextVersionOf(levels, e, levels') && l < NUM_LEVELS && f in levels'[l]
    ensures f in AddedAt(e, |e.added|, l) || (f in levels[l] && f.number !in DeletedAt(e, l) - Numbers(AddedAt(e, |e.added|, l)))
  {
    assert f in ToSet(levels'[l]) && Lists(levels'[l], Install(ToSet(levels[l]), e, l));
  }

  lemma FreshDisjoint(manifest: seq<VersionEdit>, e: VersionEdit, next: nat, l: nat)
    requires NumbersBounded(manifest, next) && AddsFresh(e, next) && l < NUM_LEVELS
    ensures Numbers(AddedAt(e, |e.added|, l)) !! Ever(manifest, l)
    ensures forall n :: n in Numbers(AddedAt(e, |e.added|, l)) ==> next <= n < e.nextFile.value
  {
    forall n | n in Numbers(AddedAt(e, |e.added|, l))
      ensures next <= n < e.nextFile.value
    {
      var i := AddedFrom(e, l, n);
    }
  }

  /** An edit that adds only new file numbers keeps the manifest in order. */
  lemma AppendFresh(manifest: seq<VersionEdit>, levels: Levels, next: nat, e: VersionEdit, levels': Levels)
    requires ManifestFor(manifest, levels, next) && ValidEdit(e) && NextVersionOf(levels, e, levels')
    requires AddsFresh(e, next)
    ensures ManifestOk(manifest + [e], levels')
  {
    forall l | 0 <= l < NUM_LEVELS
      ensures Numbers(AddedAt(e, |e.added|, l)) !! Ever(manifest, l)
    {
      FreshDisjoint(manifest, e, next, l);
    }
    AppendReplays(manifest, levels, e, levels');
    forall l, n | 0 <= l < NUM_LEVELS && n in Ever(manifest + [e], l)
      ensures n < e.nextFile.value
    {
      EverAppend(manifest, e, l);
      FreshDisjoint(manifest, e, next, l);
    }
    FreshDeeper(manifest, levels, next, e, levels');
    FreshUnique(manifest, levels, next, e, levels');
  }

  lemma FreshDeeper(manifest: seq<VersionEdit>, levels: Levels, next: nat, e: VersionEdit, levels': Levels)
    requires ManifestFor(manifest, levels, next) && NextVersionOf(levels, e, levels') && AddsFresh(e, next)
    ensures OnlyDeeper(manifest + [e], levels')
  {
    forall l, m, f | 0 <= l < NUM_LEVELS && 0 <= m < NUM_LEVELS && f in levels'[m] && f.number in Ever(manifest + [e], l)
      ensures l <= m
    {
      EverAppend(manifest, e, l);
      FreshDisjoint(manifest, e, next, l);
      NextVersionFrom(levels, e, levels', m, f);
      if f in AddedAt(e, |e.added|, m) {
        assert f.number in Numbers(AddedAt(e, |e.added|, m));
        FreshDisjoint(manifest, e, next, m);
        var i := AddedFrom(e, m, f.number);
        var j := AddedFrom(e, l, f.number);
      } else {
        LiveWasAdded(manifest, levels, m, f);
      }
    }
  }

  lemma FreshUnique(manifest: seq<VersionEdit>, levels: Levels, next: nat, e: VersionEdit, levels': Levels)
    requires ManifestFor(manifest, levels, next) && NextVersionOf(levels, e, levels') && AddsFresh(e, next)
    ensures UniqueNumbers(levels')
  {
    forall l, m, f, g | 0 <= l < NUM_LEVELS && 0 <= m < NUM_LEVELS && f in levels'[l] && g in levels'[m] && f.number == g.number
      ensures l == m && f == g
    {
      OldOrNew(manifest, levels, next, e, levels', l, f);
      OldOrNew(manifest, levels, next, e, levels', m, g);
    }
  }

  lemma OldOrNew(manifest: seq<VersionEdit>, levels: Levels, next: nat, e: VersionEdit, levels': Levels, l: nat, f: File)
    requires ManifestFor(manifest, levels, next) && NextVersionOf(levels, e, levels')
    requires AddsFresh(e, next) && l < NUM_LEVELS && f in levels'[l]
    ensures || (f in levels[l] && f.number < next)
            || (f.number >= next && exists i :: 0 <= i < |e.added| && e.added[i] == (l, f))
  {
    NextVersionFrom(levels, e, levels', l, f);
    if f in AddedAt(e, |e.added|, l) {
      var i :| 0 <= i < |e.added| && e.added[i].0 == l && e.added[i].1 == f;
      assert e.added[i] == (l, f);
    } else {
      LiveWasAdded(manifest, levels, l, f);
    }
  }

  /** The edit of a trivial move of `f` from `level`. */
  ghost predicate MoveEdit(e: VersionEdit, level: nat, f: File) {
    && e.deleted == InputDeletions(level, [f], []) && e.added == OutputAdditions(level, [f])
    && e.logNumber.Some? && e.nextFile.Some? && e.lastSequence.Some?
  }

  lemma MoveAdds(e: VersionEdit, level: nat, f: File)
    requires MoveEdit(e, level, f)
    ensures forall l :: 0 <= l < NUM_LEVELS ==> Numbers(AddedAt(e, |e.added|, l)) == if l == level + 1 then {f.number} else {}
  {
    assert ToSet([f]) == {f} && Numbers({f}) == {f.number};
    forall l | 0 <= l < NUM_LEVELS
      ensures Numbers(AddedAt(e, |e.added|, l)) == if l == level + 1 then {f.number} else {}
    {
      OutputsAt(e, level, [f], l);
    }
  }

  lemma MoveInstalls(levels: Levels, level: nat, f: File, e: VersionEdit, levels': Levels)
    requires AllSorted(levels) && UniqueNumbers(levels) && level + 1 < NUM_LEVELS && f in levels[level]
    requires MoveEdit(e, level, f) && NextVersionOf(levels, e, levels')
    ensures Installed(levels, level, [f], [], [f], levels')
  {
    assert ToSet([f]) == {f};
    CompactionEditInstalls(levels, level, [f], [], [f], e, levels');
  }

  /** A trivial move re-adds a number, one level deeper than it has ever been. */
  lemma AppendMove(manifest: seq<VersionEdit>, levels: Levels, level: nat, f: File, e: VersionEdit, levels': Levels)
    requires ManifestOk(manifest, levels) && AllSorted(levels) && level + 1 < NUM_LEVELS && f in levels[level]
    requires MoveEdit(e, level, f) && LastNextFile(manifest).value <= e.nextFile.value
    requires NextVersionOf(levels, e, levels')
    ensures ManifestOk(manifest + [e], levels') && Installed(levels, level, [f], [], [f], levels')
  {
    MoveAdds(e, level, f);
    MoveInstalls(levels, level, f, e, levels');
    MoveReplays(manifest, levels, level, f, e, levels');
    MoveKeepsOrder(manifest, levels, level, f, e, levels');
  }

  lemma MoveReplays(manifest: seq<VersionEdit>, levels: Levels, level: nat, f: File, e: VersionEdit, levels': Levels)
    requires ManifestOk(manifest, levels) && level + 1 < NUM_LEVELS && f in levels[level]
    requires MoveEdit(e, level, f) && NextVersionOf(levels, e, levels')
    ensures ReplaysTo(manifest + [e], levels')
  {
    LiveWasAdded(manifest, levels, level, f);
    MoveAdds(e, level, f);
    AppendReplays(manifest, levels, e, levels');
  }

  lemma MoveKeepsOrder(manifest: seq<VersionEdit>, levels: Levels, level: nat, f: File, e: VersionEdit, levels': Levels)
    requires ManifestOk(manifest, levels) && level + 1 < NUM_LEVELS && f in levels[level]
    requires forall l :: 0 <= l < NUM_LEVELS ==> Numbers(AddedAt(e, |e.added|, l)) == if l == level + 1 then {f.number} else {}
    requires e.nextFile.Some? && LastNextFile(manifest).value <= e.nextFile.value
    requires Installed(levels, level, [f], [], [f], levels')
    ensures NumbersBounded(manifest + [e], e.nextFile.value)
    ensures OnlyDeeper(manifest + [e], levels') && UniqueNumbers(levels')
  {
    MoveEver(manifest, level, f, e);
    MoveUnique(levels, level, f, levels');
    MoveDeeper(manifest, levels, level, f, e, levels');
    MoveBounded(manifest, levels, level, f, e);
  }

  /** Everything but `f` stays where it was, and no other file has its number. */
  ghost predicate MovesOne(levels: Levels, level: nat, f: File, levels': Levels) {
    forall l, g :: 0 <= l < NUM_LEVELS && g in levels'[l] ==> (g == f && l == level + 1) || (g in levels[l] && g.number != f.number)
  }

  lemma MovedFiles(levels: Levels, level: nat, f: File, levels': Levels, l: nat, g: File)
    requires level + 1 < NUM_LEVELS && Installed(levels, level, [f], [], [f], levels') && l < NUM_LEVELS && g in levels'[l]
    ensures (g == f && l == level + 1) || (g in levels[l] && !(l == level && g == f))
  {
    InstalledFiles(levels, level, [f], [], [f], levels', l, g);
  }

  lemma MoveEver(manifest: seq<VersionEdit>, level: nat, f: File, e: VersionEdit)
    requires forall l :: 0 <= l < NUM_LEVELS ==> Numbers(AddedAt(e, |e.added|, l)) == if l == level + 1 then {f.number} else {}
    ensures forall l :: 0 <= l < NUM_LEVELS ==> Ever(manifest + [e], l) == Ever(manifest, l) + if l == level + 1 then {f.number} else {}
  {
    forall l | 0 <= l < NUM_LEVELS
      ensures Ever(manifest + [e], l) == Ever(manifest, l) + if l == level + 1 then {f.number} else {}
    {
      EverAppend(manifest, e, l);
    }
  }

  lemma MoveUnique(levels: Levels, level: nat, f: File, levels': Levels)
    requires UniqueNumbers(levels) && level + 1 < NUM_LEVELS && f in levels[level]
    requires Installed(levels, level, [f], [], [f], levels')
    ensures UniqueNumbers(levels')
    ensures MovesOne(levels, level, f, levels')
  {
    forall l, g | 0 <= l < NUM_LEVELS && g in levels'[l]
      ensures (g == f && l == level + 1) || (g in levels[l] && g.number != f.number)
    {
      MovedFiles(levels, level, f, levels', l, g);
    }
  }

  lemma MoveDeeper(manifest: seq<VersionEdit>, levels: Levels, level: nat, f: File, e: VersionEdit, levels': Levels)
    requires OnlyDeeper(manifest, levels) && level + 1 < NUM_LEVELS && f in levels[level]
    requires forall l :: 0 <= l < NUM_LEVELS ==> Ever(manifest + [e], l) == Ever(manifest, l) + if l == level + 1 then {f.number} else {}
    requires MovesOne(levels, level, f, levels')
    ensures OnlyDeeper(manifest + [e], levels')
  {
    forall l, m, g | 0 <= l < NUM_LEVELS && 0 <= m < NUM_LEVELS && g in levels'[m] && g.number in Ever(manifest + [e], l)
      ensures l <= m
    {
      assert (g == f && m == level + 1) || (g in levels[m] && g.number != f.number);
    }
  }

  lemma MoveBounded(manifest: seq<VersionEdit>, levels: Levels, level: nat, f: File, e: VersionEdit)
    requires ManifestOk(manifest, levels) && level + 1 < NUM_LEVELS && f in levels[level]
    requires forall l :: 0 <= l < NUM_LEVELS ==> Ever(manifest + [e], l) == Ever(manifest, l) + if l == level + 1 then {f.number} else {}
    requires e.nextFile.Some? && LastNextFile(manifest).value <= e.nextFile.value
    ensures NumbersBounded(manifest + [e], e.nextFile.value)
  {
    LiveWasAdded(manifest, levels, level, f);
  }
}
