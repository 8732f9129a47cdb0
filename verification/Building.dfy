/** The builder that applies version edits (VersionSet::Builder), with its lists as they are. */
module Building {
  import opened Options
  import opened Keys
  import opened Files
  import opened Installing
  import opened Manifest

  /** Neither comes before the other. */
  predicate Tied(f: File, g: File) {
    f.smallest == g.smallest && f.number == g.number
  }

  lemma OneOfThree(f: File, g: File)
    ensures BySmallest(f, g) || BySmallest(g, f) || Tied(f, g)
    ensures !(BySmallest(f, g) && BySmallest(g, f)) && (Tied(f, g) ==> !BySmallest(f, g))
  {
  }

  // ---- std::set with BySmallestKey ----

  /** Insert in order; a tied element stays as it is. */
  function Insert(fs: seq<File>, f: File): (r: seq<File>)
    ensures r != []
  {
    if fs == [] || BySmallest(f, fs[0]) then [f] + fs
    else if BySmallest(fs[0], f) then [fs[0]] + Insert(fs[1..], f)
    else fs
  }

  ghost predicate HasTied(fs: seq<File>, f: File) {
    exists g :: g in fs && Tied(g, f)
  }

  lemma {:induction false} InsertAt(fs: seq<File>, f: File, i: nat)
    requires i <= |fs| && (forall j :: 0 <= j < i ==> BySmallest(fs[j], f)) && (i == |fs| || !BySmallest(fs[i], f))
    ensures Insert(fs, f) == if i < |fs| && !BySmallest(f, fs[i]) then fs else fs[..i] + [f] + fs[i..]
    decreases i
  {
    hide BySmallest;
    if i > 0 {
      OneOfThree(fs[0], f);
      var rest := fs[1..];
      assert forall j :: 0 <= j < |rest| ==> rest[j] == fs[j + 1];
      InsertAt(rest, f, i - 1);
      Prepend(fs, f, i);
    } else if fs != [] {
      OneOfThree(fs[0], f);
    }
  }

  lemma Prepend(fs: seq<File>, f: File, i: nat)
    requires 0 < i <= |fs|
    ensures fs == [fs[0]] + fs[1..] && fs[..i] + [f] + fs[i..] == [fs[0]] + (fs[1..][..i - 1] + [f] + fs[1..][i - 1..])
  {
  }

  lemma After(f: File, g: File, h: File)
    requires BySmallest(f, g) && BySmallest(g, h)
    ensures BySmallest(f, h)
  {
  }

  /** From index i on, everything comes after f. */
  lemma AllAfter(fs: seq<File>, f: File, i: nat)
    requires SortedBySmallest(fs) && i < |fs| && BySmallest(f, fs[i])
    ensures forall j :: i <= j < |fs| ==> BySmallest(f, fs[j])
  {
    hide BySmallest;
    forall j | i < j < |fs|
      ensures BySmallest(f, fs[j])
    {
      After(f, fs[i], fs[j]);
    }
  }

  lemma InsertKeepsOrder(fs: seq<File>, f: File, i: nat)
    requires SortedBySmallest(fs) && i <= |fs| && forall j :: 0 <= j < i ==> BySmallest(fs[j], f)
    requires forall j :: i <= j < |fs| ==> BySmallest(f, fs[j])
    ensures SortedBySmallest(fs[..i] + [f] + fs[i..])
  {
    hide BySmallest;
  }

  /** Where an insertion goes. */
  lemma Place(fs: seq<File>, f: File) returns (i: nat)
    requires SortedBySmallest(fs)
    ensures i <= |fs| && (forall j :: 0 <= j < i ==> BySmallest(fs[j], f)) && (i == |fs| || !BySmallest(fs[i], f))
    ensures Insert(fs, f) == if i < |fs| && !BySmallest(f, fs[i]) then fs else fs[..i] + [f] + fs[i..]
    ensures SortedBySmallest(Insert(fs, f))
    ensures HasTied(fs, f) <==> i < |fs| && !BySmallest(f, fs[i])
  {
    i := 0;
    while i < |fs| && BySmallest(fs[i], f)
      invariant i <= |fs|
      invariant forall j :: 0 <= j < i ==> BySmallest(fs[j], f)
    {
      i := i + 1;
    }
    InsertAt(fs, f, i);
    hide BySmallest, Insert;
    if i < |fs| {
      OneOfThree(fs[i], f);
      if BySmallest(f, fs[i]) {
        AllAfter(fs, f, i);
        InsertKeepsOrder(fs, f, i);
        NoneTied(fs, f, i);
      } else {
        assert fs[i] in fs && Tied(fs[i], f);
      }
    } else {
      InsertKeepsOrder(fs, f, i);
      NoneTied(fs, f, i);
    }
  }

  lemma NoneTied(fs: seq<File>, f: File, i: nat)
    requires i <= |fs| && (forall j :: 0 <= j < i ==> BySmallest(fs[j], f)) && (forall j :: i <= j < |fs| ==> BySmallest(f, fs[j]))
    ensures !HasTied(fs, f)
  {
    forall g | g in fs
      ensures !Tied(g, f)
    {
      var k :| 0 <= k < |fs| && fs[k] == g;
      OneOfThree(g, f);
      OneOfThree(f, g);
    }
  }

  method InsertBySmallest(fs: seq<File>, f: File) returns (r: seq<File>)
    requires SortedBySmallest(fs)
    ensures r == Insert(fs, f) && SortedBySmallest(r)
  {
    var i := 0;
    while i < |fs| && BySmallest(fs[i], f)
      invariant i <= |fs|
      invariant forall j :: 0 <= j < i ==> BySmallest(fs[j], f)
    {
      i := i + 1;
    }
    InsertAt(fs, f, i);
    ghost var _ := Place(fs, f);
    if i < |fs| && !BySmallest(f, fs[i]) {
      return fs;
    }
    return fs[..i] + [f] + fs[i..];
  }

  lemma Inserted(fs: seq<File>, f: File)
    requires SortedBySmallest(fs)
    ensures SortedBySmallest(Insert(fs, f))
    ensures multiset(Insert(fs, f)) == multiset(fs) + (if HasTied(fs, f) then multiset{} else multiset{f})
  {
    var i := Place(fs, f);
    hide BySmallest, HasTied, Insert, SortedBySmallest;
    if HasTied(fs, f) {
      assert multiset(fs) + multiset{} == multiset(fs);
    } else {
      OneMoreFile(fs, f, i);
    }
  }

  lemma OneMoreFile(fs: seq<File>, f: File, i: nat)
    requires i <= |fs|
    ensures multiset(fs[..i] + [f] + fs[i..]) == multiset(fs) + multiset{f}
  {
    assert fs == fs[..i] + fs[i..];
  }

  /** The files that an edit adds at level l, inserted one by one. */
  function AddAll(fs: seq<File>, adds: seq<(nat, File)>, n: nat, l: nat): seq<File>
    requires n <= |adds|
  {
    if n == 0 then fs
    else
      var before := AddAll(fs, adds, n - 1, l);
      if adds[n - 1].0 == l then Insert(before, adds[n - 1].1) else before
  }

  // ---- a level while edits are applied ----

  datatype LevelState = LevelState(base: seq<File>, added: seq<File>, deleted: set<nat>)

  /** One edit: mark the deleted files, then erase the marks of the added ones and insert them. */
  ghost function Applied(s: LevelState, e: VersionEdit, l: nat): LevelState {
    LevelState(s.base, AddAll(s.added, e.added, |e.added|, l), s.deleted + DeletedAt(e, l) - Numbers(AddedAt(e, |e.added|, l)))
  }

  /** Before each added file go the base files that do not come after it. */
  function Merge(baseFiles: seq<File>, added: seq<File>): seq<File> {
    if added == [] then baseFiles
    else if baseFiles != [] && !BySmallest(added[0], baseFiles[0]) then [baseFiles[0]] + Merge(baseFiles[1..], added)
    else [added[0]] + Merge(baseFiles, added[1..])
  }

  function Kept(fs: seq<File>, deleted: set<nat>): seq<File> {
    if fs == [] then [] else (if fs[0].number in deleted then [] else [fs[0]]) + Kept(fs[1..], deleted)
  }

  function Save(s: LevelState): seq<File> {
    Kept(Merge(s.base, s.added), s.deleted)
  }

  /** In key order; files may be tied. */
  ghost predicate InOrder(fs: seq<File>) {
    forall i, j :: 0 <= i < j < |fs| ==> !BySmallest(fs[j], fs[i])
  }

  class Builder {
    const base: Levels
    var deletedFiles: seq<set<nat>>
    var addedFiles: seq<seq<File>>

    constructor (base: Levels)
      ensures this.base == base && Valid()
      ensures forall l :: 0 <= l < NUM_LEVELS ==> At(l) == LevelState(base[l], [], {})
    {
      this.base := base;
      deletedFiles := seq(NUM_LEVELS, _ => {});
      addedFiles := seq(NUM_LEVELS, _ => []);
    }

    ghost predicate Valid()
      reads this
    {
      && |deletedFiles| == |addedFiles| == NUM_LEVELS
      && forall l :: 0 <= l < NUM_LEVELS ==> SortedBySmallest(addedFiles[l])
    }

    ghost function At(l: nat): LevelState
      requires |deletedFiles| == |addedFiles| == NUM_LEVELS && l < NUM_LEVELS
      reads this
    {
      LevelState(base[l], addedFiles[l], deletedFiles[l])
    }

    method MarkDeleted(del: set<(nat, nat)>)
      requires Valid() && forall d :: d in del ==> d.0 < NUM_LEVELS
      modifies this`deletedFiles
      ensures Valid()
      ensures forall l, n :: 0 <= l < NUM_LEVELS ==> (n in deletedFiles[l] <==> n in old(deletedFiles[l]) || (l, n) in del)
    {
      var rest := del;
      while rest != {}
        invariant Valid() && rest <= del
        invariant forall l, n :: 0 <= l < NUM_LEVELS ==>
                    (n in deletedFiles[l] <==> n in old(deletedFiles[l]) || ((l, n) in del && (l, n) !in rest))
        decreases rest
      {
        var d :| d in rest;
        rest := rest - {d};
        deletedFiles := deletedFiles[d.0 := deletedFiles[d.0] + {d.1}];
      }
    }

    method AddFile(l: nat, f: File)
      requires Valid() && l < NUM_LEVELS
      modifies this
      ensures Valid()
      ensures deletedFiles == old(deletedFiles)[l := old(deletedFiles[l]) - {f.number}]
      ensures addedFiles == old(addedFiles)[l := Insert(old(addedFiles[l]), f)]
    {
      deletedFiles := deletedFiles[l := deletedFiles[l] - {f.number}];
      var fs := InsertBySmallest(addedFiles[l], f);
      addedFiles := addedFiles[l := fs];
    }

    method AddFiles(e: VersionEdit)
      requires Valid() && forall i :: 0 <= i < |e.added| ==> e.added[i].0 < NUM_LEVELS
      modifies this
      ensures Valid()
      ensures forall l :: 0 <= l < NUM_LEVELS ==> deletedFiles[l] == old(deletedFiles[l]) - Numbers(AddedAt(e, |e.added|, l))
      ensures forall l :: 0 <= l < NUM_LEVELS ==> addedFiles[l] == AddAll(old(addedFiles[l]), e.added, |e.added|, l)
    {
      hide SortedBySmallest;
      for i := 0 to |e.added|
        invariant Valid()
        invariant forall l :: 0 <= l < NUM_LEVELS ==> deletedFiles[l] == old(deletedFiles[l]) - Numbers(AddedAt(e, i, l))
        invariant forall l :: 0 <= l < NUM_LEVELS ==> addedFiles[l] == AddAll(old(addedFiles[l]), e.added, i, l)
      {
        var l, f := e.added[i].0, e.added[i].1;
        forall m | 0 <= m < NUM_LEVELS
          ensures Numbers(AddedAt(e, i + 1, m)) == Numbers(AddedAt(e, i, m)) + (if m == l then {f.number} else {})
        {
          OneMoreAdded(e, i, m);
        }
        AddFile(l, f);
      }
    }

    /** Apply one edit. */
    method Apply(e: VersionEdit)
      requires Valid() && InLevels(e)
      modifies this
      ensures Valid()
      ensures forall l :: 0 <= l < NUM_LEVELS ==> At(l) == Applied(old(At(l)), e, l)
    {
      MarkDeleted(e.deleted);
      ghost var marked := deletedFiles;
      AddFiles(e);
      forall l | 0 <= l < NUM_LEVELS
        ensures At(l) == Applied(old(At(l)), e, l)
      {
        assert marked[l] == old(deletedFiles[l]) + DeletedAt(e, l) by {
          assert forall n :: n in DeletedAt(e, l) <==> (l, n) in e.deleted;
        }
      }
    }

    method SaveLevel(l: nat) returns (fs: seq<File>)
      requires Valid() && l < NUM_LEVELS && InOrder(base[l])
      ensures fs == Save(At(l)) && InOrder(fs)
    {
      fs := MergeLevel(base[l], addedFiles[l], deletedFiles[l]);
      SavedInOrder(At(l));
    }
  }

  /** What is still to be merged completes the list. */
  ghost predicate Completes(fs: seq<File>, baseFiles: seq<File>, b: nat, added: seq<File>, a: nat, deleted: set<nat>, all: seq<File>) {
    b <= |baseFiles| && a <= |added| && fs + Kept(Merge(baseFiles[b..], added[a..]), deleted) == all
  }

  lemma TakeBase(fs: seq<File>, baseFiles: seq<File>, b: nat, added: seq<File>, a: nat, deleted: set<nat>, all: seq<File>)
    requires Completes(fs, baseFiles, b, added, a, deleted, all) && b < |baseFiles|
    requires a < |added| ==> !BySmallest(added[a], baseFiles[b])
    ensures Completes(if baseFiles[b].number in deleted then fs else fs + [baseFiles[b]], baseFiles, b + 1, added, a, deleted, all)
  {
    hide BySmallest;
    var rest := Merge(baseFiles[b + 1..], added[a..]);
    assert baseFiles[b..][1..] == baseFiles[b + 1..];
    assert Merge(baseFiles[b..], added[a..]) == [baseFiles[b]] + rest by {
      assert a == |added| ==> added[a..] == [];
      assert baseFiles[b..] == [baseFiles[b]] + baseFiles[b + 1..];
    }
    KeptOne(fs, baseFiles[b], rest, deleted);
  }

  lemma TakeAdded(fs: seq<File>, baseFiles: seq<File>, b: nat, added: seq<File>, a: nat, deleted: set<nat>, all: seq<File>)
    requires Completes(fs, baseFiles, b, added, a, deleted, all) && a < |added|
    requires b < |baseFiles| ==> BySmallest(added[a], baseFiles[b])
    ensures Completes(if added[a].number in deleted then fs else fs + [added[a]], baseFiles, b, added, a + 1, deleted, all)
  {
    hide BySmallest;
    var rest := Merge(baseFiles[b..], added[a + 1..]);
    assert added[a..][1..] == added[a + 1..];
    assert Merge(baseFiles[b..], added[a..]) == [added[a]] + rest;
    KeptOne(fs, added[a], rest, deleted);
  }

  lemma KeptOne(fs: seq<File>, f: File, rest: seq<File>, deleted: set<nat>)
    ensures fs + Kept([f] + rest, deleted) == (if f.number in deleted then fs else fs + [f]) + Kept(rest, deleted)
  {
    assert ([f] + rest)[1..] == rest;
  }

  /** Merge the base files of one level with the added ones, dropping the deleted. */
  method MergeLevel(baseFiles: seq<File>, added: seq<File>, deleted: set<nat>) returns (fs: seq<File>)
    requires InOrder(baseFiles)
    ensures fs == Kept(Merge(baseFiles, added), deleted)
  {
    hide BySmallest, InOrder, Completes;
    ghost var all := Kept(Merge(baseFiles, added), deleted);
    fs := [];
    var b := 0;
    StartsComplete(baseFiles, added, deleted);
    for a := 0 to |added|
      invariant 0 <= b <= |baseFiles| && Completes(fs, baseFiles, b, added, a, deleted, all)
    {
      while b < |baseFiles| && !BySmallest(added[a], baseFiles[b])
        invariant 0 <= b <= |baseFiles| && Completes(fs, baseFiles, b, added, a, deleted, all)
      {
        TakeBase(fs, baseFiles, b, added, a, deleted, all);
        fs := MaybeAddFile(fs, baseFiles[b], deleted);
        b := b + 1;
      }
      TakeAdded(fs, baseFiles, b, added, a, deleted, all);
      fs := MaybeAddFile(fs, added[a], deleted);
    }
    while b < |baseFiles|
      invariant 0 <= b <= |baseFiles| && Completes(fs, baseFiles, b, added, |added|, deleted, all)
    {
      TakeBase(fs, baseFiles, b, added, |added|, deleted, all);
      fs := MaybeAddFile(fs, baseFiles[b], deleted);
      b := b + 1;
    }
    NothingLeft(fs, baseFiles, added, deleted, all);
  }

  lemma StartsComplete(baseFiles: seq<File>, added: seq<File>, deleted: set<nat>)
    ensures Completes([], baseFiles, 0, added, 0, deleted, Kept(Merge(baseFiles, added), deleted))
  {
    assert baseFiles[0..] == baseFiles && added[0..] == added;
  }

  lemma NothingLeft(fs: seq<File>, baseFiles: seq<File>, added: seq<File>, deleted: set<nat>, all: seq<File>)
    requires Completes(fs, baseFiles, |baseFiles|, added, |added|, deleted, all)
    ensures fs == all
  {
  }

  method MaybeAddFile(fs: seq<File>, f: File, deleted: set<nat>) returns (r: seq<File>)
    ensures r == if f.number in deleted then fs else fs + [f]
  {
    if f.number in deleted {
      return fs;
    }
    return fs + [f];
  }

  /** Save every level. */
  method SaveTo(builder: Builder) returns (files: Levels)
    requires builder.Valid() && forall l :: 0 <= l < NUM_LEVELS ==> InOrder(builder.base[l])
    ensures forall l :: 0 <= l < NUM_LEVELS ==> files[l] == Save(builder.At(l)) && InOrder(files[l])
  {
    var out: seq<seq<File>> := [];
    for l := 0 to NUM_LEVELS
      invariant |out| == l && forall m :: 0 <= m < l ==> out[m] == Save(builder.At(m)) && InOrder(out[m])
    {
      var fs := builder.SaveLevel(l);
      out := out + [fs];
    }
    return out;
  }

  // ---- what the lists hold ----

  /** A merge of lists in order is in order. */
  lemma {:induction false} MergeInOrder(baseFiles: seq<File>, added: seq<File>)
    requires InOrder(baseFiles) && SortedBySmallest(added)
    ensures InOrder(Merge(baseFiles, added))
    decreases |baseFiles| + |added|
  {
    MergeFiles(baseFiles, added);
    var r := Merge(baseFiles, added);
    if added == [] {
    } else if baseFiles != [] && !BySmallest(added[0], baseFiles[0]) {
      assert InOrder(baseFiles[1..]);
      MergeInOrder(baseFiles[1..], added);
      FirstInOrder(baseFiles, added, r);
    } else {
      assert SortedBySmallest(added[1..]);
      MergeInOrder(baseFiles, added[1..]);
      FirstInOrder(baseFiles, added, r);
    }
  }

  lemma FirstInOrder(baseFiles: seq<File>, added: seq<File>, r: seq<File>)
    requires InOrder(baseFiles) && SortedBySmallest(added) && added != [] && r != []
    requires r[0] == if baseFiles != [] && !BySmallest(added[0], baseFiles[0]) then baseFiles[0] else added[0]
    requires multiset(r) == multiset(baseFiles) + multiset(added) && InOrder(r[1..])
    ensures InOrder(r)
  {
    forall j | 0 < j < |r|
      ensures !BySmallest(r[j], r[0])
    {
      assert r[j] in multiset(r);
      assert r[j] in baseFiles || r[j] in added;
      if r[j] in baseFiles {
        var k :| 0 <= k < |baseFiles| && baseFiles[k] == r[j];
      } else {
        var k :| 0 <= k < |added| && added[k] == r[j];
      }
    }
    assert forall j :: 0 < j < |r| ==> r[j] == r[1..][j - 1];
  }

  lemma {:induction false} KeptInOrder(fs: seq<File>, deleted: set<nat>)
    requires InOrder(fs)
    ensures InOrder(Kept(fs, deleted))
    ensures forall f :: f in Kept(fs, deleted) ==> f in fs
  {
    hide BySmallest;
    if fs != [] {
      var rest := fs[1..];
      assert forall j :: 0 <= j < |rest| ==> rest[j] == fs[j + 1];
      KeptInOrder(rest, deleted);
      ConsInOrder(fs[0], rest, Kept(rest, deleted));
    }
  }

  lemma ConsInOrder(f: File, rest: seq<File>, kept: seq<File>)
    requires InOrder(kept) && (forall g :: g in kept ==> g in rest) && forall j :: 0 <= j < |rest| ==> !BySmallest(rest[j], f)
    ensures InOrder([f] + kept)
  {
    hide BySmallest;
    forall j | 0 <= j < |kept|
      ensures !BySmallest(kept[j], f)
    {
      assert kept[j] in rest;
    }
  }

  lemma SavedInOrder(s: LevelState)
    requires InOrder(s.base) && SortedBySmallest(s.added)
    ensures InOrder(Save(s))
  {
    MergeInOrder(s.base, s.added);
    KeptInOrder(Merge(s.base, s.added), s.deleted);
  }

  lemma {:induction false} MergeFiles(baseFiles: seq<File>, added: seq<File>)
    ensures multiset(Merge(baseFiles, added)) == multiset(baseFiles) + multiset(added)
    decreases |baseFiles| + |added|
  {
    if added != [] {
      assert added == [added[0]] + added[1..];
      if baseFiles != [] && !BySmallest(added[0], baseFiles[0]) {
        assert baseFiles == [baseFiles[0]] + baseFiles[1..];
        MergeFiles(baseFiles[1..], added);
      } else {
        MergeFiles(baseFiles, added[1..]);
      }
    }
  }

  lemma {:induction false} KeptFiles(fs: seq<File>, deleted: set<nat>, f: File)
    ensures multiset(Kept(fs, deleted))[f] == if f.number in deleted then 0 else multiset(fs)[f]
  {
    if fs != [] {
      assert fs == [fs[0]] + fs[1..];
      KeptFiles(fs[1..], deleted, f);
    }
  }

  /** How often a file is saved. */
  lemma SavedFiles(s: LevelState, f: File)
    ensures multiset(Save(s))[f] == if f.number in s.deleted then 0 else multiset(s.base)[f] + multiset(s.added)[f]
  {
    MergeFiles(s.base, s.added);
    KeptFiles(Merge(s.base, s.added), s.deleted, f);
  }

  lemma {:induction false} AddAllSorted(fs: seq<File>, adds: seq<(nat, File)>, n: nat, l: nat)
    requires SortedBySmallest(fs) && n <= |adds|
    ensures SortedBySmallest(AddAll(fs, adds, n, l))
    decreases n
  {
    if n > 0 {
      AddAllSorted(fs, adds, n - 1, l);
      Inserted(AddAll(fs, adds, n - 1, l), adds[n - 1].1);
    }
  }

  lemma {:induction false} SortedCount(fs: seq<File>, f: File)
    requires SortedBySmallest(fs)
    ensures multiset(fs)[f] == if f in fs then 1 else 0
  {
    if fs != [] {
      assert fs == [fs[0]] + fs[1..];
      assert forall j :: 0 <= j < |fs[1..]| ==> fs[1..][j] == fs[j + 1];
      SortedCount(fs[1..], f);
      assert f in fs[1..] ==> BySmallest(fs[0], f);
    }
  }

  /** In a strictly sorted list ties are the same file. */
  lemma TiedIsSame(fs: seq<File>, f: File, g: File)
    requires SortedBySmallest(fs) && f in fs && g in fs && Tied(f, g)
    ensures f == g
  {
    var i :| 0 <= i < |fs| && fs[i] == f;
    var j :| 0 <= j < |fs| && fs[j] == g;
    OneOfThree(f, g);
    OneOfThree(g, f);
  }

  lemma TiedInsert(fs: seq<File>, f: File, g: File)
    requires SortedBySmallest(fs)
    ensures HasTied(Insert(fs, f), g) <==> HasTied(fs, g) || Tied(f, g)
    ensures g in Insert(fs, f) <==> g in fs || (g == f && !HasTied(fs, f))
  {
    Inserted(fs, f);
    var r := Insert(fs, f);
    forall h
      ensures h in r <==> h in fs || (h == f && !HasTied(fs, f))
    {
      assert h in r <==> h in multiset(r);
      assert h in fs <==> h in multiset(fs);
    }
  }

  /** Inserting into a list adds what the edit's own list has, except for files tied to one that is there. */
  lemma {:induction false} AddAllFiles(fs: seq<File>, adds: seq<(nat, File)>, n: nat, l: nat, f: File)
    requires SortedBySmallest(fs) && n <= |adds|
    ensures HasTied(AddAll(fs, adds, n, l), f) <==> HasTied(fs, f) || HasTied(AddAll([], adds, n, l), f)
    ensures f in AddAll(fs, adds, n, l) <==> f in fs || (f in AddAll([], adds, n, l) && !HasTied(fs, f))
    decreases n
  {
    if n > 0 {
      var g := adds[n - 1].1;
      AddAllFiles(fs, adds, n - 1, l, f);
      AddAllFiles(fs, adds, n - 1, l, g);
      AddAllSorted(fs, adds, n - 1, l);
      AddAllSorted([], adds, n - 1, l);
      hide HasTied, SortedBySmallest;
      TiedInsert(AddAll(fs, adds, n - 1, l), g, f);
      TiedInsert(AddAll([], adds, n - 1, l), g, f);
      if Tied(g, f) {
        TieOfTied(fs, f, g);
      }
    }
  }

  lemma TieOfTied(fs: seq<File>, f: File, g: File)
    requires Tied(g, f)
    ensures HasTied(fs, f) <==> HasTied(fs, g)
  {
  }

  // ---- one builder for many edits ----

  ghost function AppliedAll(s: LevelState, edits: seq<VersionEdit>, l: nat): LevelState {
    if edits == [] then s else Applied(AppliedAll(s, edits[..|edits| - 1], l), edits[|edits| - 1], l)
  }

  /** All edits in one builder, saved once. */
  ghost function Replayed(base: seq<File>, edits: seq<VersionEdit>, l: nat): seq<File> {
    Save(AppliedAll(LevelState(base, [], {}), edits, l))
  }

  /** One LogAndApply. */
  ghost function Next(current: seq<File>, e: VersionEdit, l: nat): seq<File> {
    Save(Applied(LevelState(current, [], {}), e, l))
  }

  /** A new builder for every edit. */
  ghost function InstalledEach(base: seq<File>, edits: seq<VersionEdit>, l: nat): seq<File> {
    if edits == [] then base else Next(InstalledEach(base, edits[..|edits| - 1], l), edits[|edits| - 1], l)
  }

  /** Files come back only as they were: no base file whose deletion mark is erased; an added file whose mark is
      erased is added again; and what is added again, equal in key and number, had been deleted. */
  ghost predicate Clean(s: LevelState, e: VersionEdit, l: nat) {
    var again, numbers := AddAll([], e.added, |e.added|, l), Numbers(AddedAt(e, |e.added|, l));
    && (forall f :: f in s.base ==> !(f.number in s.deleted && f.number in numbers))
    && (forall f :: f in s.added && f.number in s.deleted && f.number in numbers ==> f in again)
    && (forall f :: f in again && HasTied(s.added, f) ==> f.number in s.deleted)
  }

  lemma {:induction false} AddedNumbers(adds: seq<(nat, File)>, e: VersionEdit, n: nat, l: nat, f: File)
    requires adds == e.added && n <= |adds| && f in AddAll([], adds, n, l)
    ensures f.number in Numbers(AddedAt(e, |e.added|, l))
    decreases n
  {
    var g := adds[n - 1].1;
    if adds[n - 1].0 == l && f == g {
      assert adds[n - 1].1 in AddedAt(e, |e.added|, l);
    } else {
      AddAllSorted([], adds, n - 1, l);
      TiedInsert(AddAll([], adds, n - 1, l), g, f);
      AddedNumbers(adds, e, n - 1, l, f);
    }
  }

  /** How often a file is saved by one builder, and by a new one over what was saved. */
  lemma CountsAfter(s: LevelState, e: VersionEdit, l: nat, current: seq<File>, f: File)
    requires SortedBySmallest(s.added) && multiset(current) == multiset(Save(s))
    ensures var again, numbers := AddAll([], e.added, |e.added|, l), Numbers(AddedAt(e, |e.added|, l));
      var base, added := multiset(s.base)[f], if f in s.added then 1 else 0;
      var deletedNow := f.number in DeletedAt(e, l) && f.number !in numbers;
      && (f in again ==> f.number in numbers)
      && multiset(Save(Applied(s, e, l)))[f] ==
           (if deletedNow || (f.number in s.deleted && f.number !in numbers) then 0
            else base + added + if f in again && !HasTied(s.added, f) then 1 else 0)
      && multiset(Next(current, e, l))[f] ==
           (if deletedNow then 0 else (if f.number in s.deleted then 0 else base + added) + if f in again then 1 else 0)
  {
    var n := |e.added|;
    var again := AddAll([], e.added, n, l);
    AddAllSorted(s.added, e.added, n, l);
    AddAllSorted([], e.added, n, l);
    AddAllFiles(s.added, e.added, n, l, f);
    if f in again {
      AddedNumbers(e.added, e, n, l, f);
      assert HasTied(again, f);
    }
    SortedCount(s.added, f);
    SortedCount(again, f);
    SortedCount(AddAll(s.added, e.added, n, l), f);
    SavedFiles(s, f);
    SavedFiles(Applied(s, e, l), f);
    SavedFiles(Applied(LevelState(current, [], {}), e, l), f);
    if f in s.added {
      assert HasTied(s.added, f);
    }
  }

  lemma OneMoreEditListed(s: LevelState, e: VersionEdit, l: nat, current: seq<File>)
    requires SortedBySmallest(s.added) && multiset(current) == multiset(Save(s))
    ensures multiset(Save(Applied(s, e, l))) == multiset(Next(current, e, l)) <==> Clean(s, e, l)
  {
    if Clean(s, e, l) {
      forall f
        ensures multiset(Save(Applied(s, e, l)))[f] == multiset(Next(current, e, l))[f]
      {
        CleanCounts(s, e, l, current, f);
      }
    }
    if multiset(Save(Applied(s, e, l))) == multiset(Next(current, e, l)) {
      EqualIsClean(s, e, l, current);
    }
  }

  lemma CleanCounts(s: LevelState, e: VersionEdit, l: nat, current: seq<File>, f: File)
    requires SortedBySmallest(s.added) && multiset(current) == multiset(Save(s)) && Clean(s, e, l)
    ensures multiset(Save(Applied(s, e, l)))[f] == multiset(Next(current, e, l))[f]
  {
    CountsAfter(s, e, l, current, f);
    var again := AddAll([], e.added, |e.added|, l);
    AddAllSorted([], e.added, |e.added|, l);
    if f in again && HasTied(s.added, f) {
      var g :| g in s.added && Tied(g, f);
      TiedIsSame(again, f, g);
    }
    if f in s.added {
      assert HasTied(s.added, f);
    }
    hide Save, Next, Applied, AddAll, HasTied, SortedBySmallest;
  }

  lemma EqualIsClean(s: LevelState, e: VersionEdit, l: nat, current: seq<File>)
    requires SortedBySmallest(s.added) && multiset(current) == multiset(Save(s))
    requires multiset(Save(Applied(s, e, l))) == multiset(Next(current, e, l))
    ensures Clean(s, e, l)
  {
    var again, numbers := AddAll([], e.added, |e.added|, l), Numbers(AddedAt(e, |e.added|, l));
    AddAllSorted([], e.added, |e.added|, l);
    forall f | f in again && HasTied(s.added, f)
      ensures f.number in s.deleted
    {
      CountsAfter(s, e, l, current, f);
    }
    forall f | f in s.added && f.number in s.deleted && f.number in numbers
      ensures f in again
    {
      CountsAfter(s, e, l, current, f);
    }
    forall f | f in s.base
      ensures !(f.number in s.deleted && f.number in numbers)
    {
      CountsAfter(s, e, l, current, f);
      if f.number in s.deleted && f.number in numbers {
        assert f in again && HasTied(s.added, f);
        var g :| g in s.added && Tied(g, f);
        TiedIsSame(again, f, g);
      }
    }
  }

  lemma {:induction false} AppliedAllSorted(s: LevelState, edits: seq<VersionEdit>, l: nat)
    requires SortedBySmallest(s.added)
    ensures SortedBySmallest(AppliedAll(s, edits, l).added) && AppliedAll(s, edits, l).base == s.base
  {
    if edits != [] {
      var front, last := edits[..|edits| - 1], edits[|edits| - 1];
      AppliedAllSorted(s, front, l);
      AddAllSorted(AppliedAll(s, front, l).added, last.added, |last.added|, l);
    }
  }

  /** After n edits the two list the same files, each as often. */
  ghost predicate SameAfter(base: seq<File>, edits: seq<VersionEdit>, l: nat, n: nat)
    requires n <= |edits|
  {
    multiset(Replayed(base, edits[..n], l)) == multiset(InstalledEach(base, edits[..n], l))
  }

  ghost predicate CleanAt(base: seq<File>, edits: seq<VersionEdit>, l: nat, n: nat)
    requires n < |edits|
  {
    Clean(AppliedAll(LevelState(base, [], {}), edits[..n], l), edits[n], l)
  }

  lemma SameOneMore(base: seq<File>, edits: seq<VersionEdit>, l: nat, n: nat)
    requires n < |edits| && SameAfter(base, edits, l, n)
    ensures SameAfter(base, edits, l, n + 1) <==> CleanAt(base, edits, l, n)
  {
    var front := edits[..n];
    assert edits[..n + 1][..n] == front;
    var s := AppliedAll(LevelState(base, [], {}), front, l);
    AppliedAllSorted(LevelState(base, [], {}), front, l);
    OneMoreEditListed(s, edits[n], l, InstalledEach(base, front, l));
  }

  lemma {:induction false} NoneDeleted(fs: seq<File>)
    ensures Kept(fs, {}) == fs
  {
    if fs != [] {
      NoneDeleted(fs[1..]);
    }
  }

  lemma NothingApplied(base: seq<File>, edits: seq<VersionEdit>, l: nat)
    ensures SameAfter(base, edits, l, 0)
  {
    NoneDeleted(base);
    assert edits[..0] == [];
  }

  /** One builder for all edits lists the same files as saving after every edit, after each of them, if and only if
      every edit is clean. */
  lemma {:induction false} ListedReplayExactly(base: seq<File>, edits: seq<VersionEdit>, l: nat)
    ensures (forall n :: 0 <= n <= |edits| ==> SameAfter(base, edits, l, n)) <==> (forall n :: 0 <= n < |edits| ==> CleanAt(base, edits, l, n))
  {
    NothingApplied(base, edits, l);
    hide SameAfter, CleanAt;
    if forall n :: 0 <= n <= |edits| ==> SameAfter(base, edits, l, n) {
      forall n | 0 <= n < |edits|
        ensures CleanAt(base, edits, l, n)
      {
        assert SameAfter(base, edits, l, n + 1);
        SameOneMore(base, edits, l, n);
      }
    }
    if forall n :: 0 <= n < |edits| ==> CleanAt(base, edits, l, n) {
      for n := 0 to |edits|
        invariant forall k :: 0 <= k <= n ==> SameAfter(base, edits, l, k)
      {
        SameOneMore(base, edits, l, n);
      }
    }
  }

  /** Deleting a base file and adding it again: one builder lists it twice. */
  lemma ReaddedBaseListedTwice(f: File)
    ensures var edits := [VersionEdit(None, None, None, {(1, f.number)}, []), VersionEdit(None, None, None, {}, [(1, f)])];
      Replayed([f], edits, 1) == [f, f] && InstalledEach([f], edits, 1) == [f]
  {
    var e0, e1 := VersionEdit(None, None, None, {(1, f.number)}, []), VersionEdit(None, None, None, {}, [(1, f)]);
    var edits, s := [e0, e1], LevelState([f], [], {});
    DeletesOnly(e0, f);
    AddsOnly(e1, f);
    assert edits[..1] == [e0] && [e0][..0] == [];
    assert Applied(s, e0, 1) == LevelState([f], [], {f.number});
    assert AppliedAll(s, [e0], 1) == LevelState([f], [], {f.number});
    assert Applied(LevelState([f], [], {f.number}), e1, 1) == LevelState([f], [f], {});
    OneOfThree(f, f);
    assert Merge([f], [f]) == [f] + Merge([], [f]) == [f, f];
    NoneDeleted([f, f]);
    assert Next([f], e0, 1) == Kept([f], {f.number}) == [];
    assert InstalledEach([f], [e0], 1) == [];
    assert Applied(LevelState([], [], {}), e1, 1) == LevelState([], [f], {});
    NoneDeleted([f]);
  }

  lemma DeletesOnly(e: VersionEdit, f: File)
    requires e.deleted == {(1, f.number)} && e.added == []
    ensures DeletedAt(e, 1) == {f.number} && AddedAt(e, 0, 1) == {} && Numbers({}) == {}
  {
    assert (1, f.number) in e.deleted;
  }

  lemma AddsOnly(e: VersionEdit, f: File)
    requires e.deleted == {} && e.added == [(1, f)]
    ensures DeletedAt(e, 1) == {} && AddedAt(e, 1, 1) == {f} && Numbers({f}) == {f.number} && AddAll([], e.added, 1, 1) == [f]
  {
    assert e.added[0] == (1, f);
    assert AddAll([], e.added, 0, 1) == [];
  }

  // ---- while no number is added twice, lists are sets ----

  ghost function AsSet(s: LevelState): Pending {
    Pending(ToSet(s.base) + ToSet(s.added), s.deleted)
  }

  /** No number is in both lists. */
  ghost predicate NumbersApart(s: LevelState) {
    SortedBySmallest(s.base) && SortedBySmallest(s.added) && Numbers(ToSet(s.base)) !! Numbers(ToSet(s.added))
  }

  lemma NoneAdded(e: VersionEdit, l: nat)
    ensures AddedAt(e, 0, l) == {}
  {
  }

  lemma {:induction false} AddAllSet(s: LevelState, e: VersionEdit, n: nat, l: nat)
    requires SortedBySmallest(s.added) && ValidEdit(e) && n <= |e.added|
    requires Numbers(AddedAt(e, |e.added|, l)) !! Numbers(ToSet(s.added))
    ensures ToSet(AddAll(s.added, e.added, n, l)) == ToSet(s.added) + AddedAt(e, n, l)
    decreases n
  {
    hide Insert, SortedBySmallest, AddedAt, Numbers, ValidEdit;
    if n == 0 {
      NoneAdded(e, l);
    } else {
      var g := e.added[n - 1].1;
      AddAllSet(s, e, n - 1, l);
      OneMoreAdded(e, n - 1, l);
      AddAllSorted(s.added, e.added, n - 1, l);
      if e.added[n - 1].0 == l {
        var before := AddAll(s.added, e.added, n - 1, l);
        NewNumber(e, n - 1, ToSet(s.added), ToSet(s.added));
        InsertNew(before, g);
      }
    }
  }

  lemma InsertNew(fs: seq<File>, f: File)
    requires SortedBySmallest(fs) && f.number !in Numbers(ToSet(fs))
    ensures ToSet(Insert(fs, f)) == ToSet(fs) + {f}
  {
    assert !HasTied(fs, f) by {
      assert forall g :: g in fs ==> g in ToSet(fs) && g.number in Numbers(ToSet(fs));
    }
    hide HasTied, Insert, SortedBySmallest;
    forall h
      ensures h in Insert(fs, f) <==> h in fs || h == f
    {
      TiedInsert(fs, f, h);
    }
  }

  lemma AppliedIsStep(s: LevelState, e: VersionEdit, l: nat)
    requires NumbersApart(s) && ValidEdit(e) && Numbers(AddedAt(e, |e.added|, l)) !! Numbers(AsSet(s).files)
    ensures AsSet(Applied(s, e, l)) == Step(AsSet(s), e, l) && NumbersApart(Applied(s, e, l))
  {
    assert forall n :: n in Numbers(ToSet(s.added)) || n in Numbers(ToSet(s.base)) ==> n in Numbers(AsSet(s).files) by {
      assert forall f :: f in ToSet(s.added) || f in ToSet(s.base) ==> f in AsSet(s).files;
    }
    AddAllSet(s, e, |e.added|, l);
    AddAllSorted(s.added, e.added, |e.added|, l);
    var A := AddedAt(e, |e.added|, l);
    forall n | n in Numbers(ToSet(s.added) + A)
      ensures n !in Numbers(ToSet(s.base))
    {
      var f :| f in ToSet(s.added) + A && f.number == n;
      assert f in A ==> n in Numbers(A);
      assert f in ToSet(s.added) ==> n in Numbers(ToSet(s.added));
    }
  }

  /** The list saved is the set saved, in order. */
  lemma SavedIsResult(s: LevelState)
    requires NumbersApart(s)
    ensures Lists(Save(s), Result(AsSet(s)))
  {
    SortedIsInOrder(s.base);
    SavedInOrder(s);
    var fs := Save(s);
    forall f
      ensures multiset(fs)[f] <= 1 && (f in fs <==> f in Result(AsSet(s)))
    {
      SavedFiles(s, f);
      SortedCount(s.base, f);
      SortedCount(s.added, f);
      assert f in fs <==> multiset(fs)[f] > 0;
      assert f in s.base ==> f in ToSet(s.base) && f.number in Numbers(ToSet(s.base));
      assert f in s.added ==> f in ToSet(s.added) && f.number in Numbers(ToSet(s.added));
    }
    forall f, g | f in fs && g in fs && Tied(f, g)
      ensures f == g
    {
      NotTied(s, f, g);
    }
    StrictlyInOrder(fs);
  }

  lemma NotTied(s: LevelState, f: File, g: File)
    requires NumbersApart(s) && f in AsSet(s).files && g in AsSet(s).files && Tied(f, g)
    ensures f == g
  {
    assert f in s.base ==> f.number in Numbers(ToSet(s.base));
    assert f in s.added ==> f.number in Numbers(ToSet(s.added));
    assert g in s.base ==> g.number in Numbers(ToSet(s.base));
    assert g in s.added ==> g.number in Numbers(ToSet(s.added));
    if f in s.base {
      TiedIsSame(s.base, f, g);
    } else {
      TiedIsSame(s.added, f, g);
    }
  }

  lemma SortedIsInOrder(fs: seq<File>)
    requires SortedBySmallest(fs)
    ensures InOrder(fs)
  {
    forall i, j | 0 <= i < j < |fs|
      ensures !BySmallest(fs[j], fs[i])
    {
      OneOfThree(fs[i], fs[j]);
    }
  }

  lemma StrictlyInOrder(fs: seq<File>)
    requires InOrder(fs) && (forall f :: multiset(fs)[f] <= 1) && forall f, g :: f in fs && g in fs && Tied(f, g) ==> f == g
    ensures SortedBySmallest(fs)
  {
    forall i, j | 0 <= i < j < |fs|
      ensures BySmallest(fs[i], fs[j])
    {
      OneOfThree(fs[i], fs[j]);
      if fs[i] == fs[j] {
        TwiceIn(fs, i, j);
      }
    }
  }

  lemma TwiceIn(fs: seq<File>, i: nat, j: nat)
    requires i < j < |fs| && fs[i] == fs[j]
    ensures multiset(fs)[fs[i]] >= 2
  {
    var f := fs[i];
    assert fs == fs[..j] + [f] + fs[j + 1..];
    assert multiset(fs) == multiset(fs[..j]) + multiset{f} + multiset(fs[j + 1..]);
    assert fs[..j][i] == f && f in multiset(fs[..j]);
  }

  lemma NoFiles()
    ensures var none: seq<File> := []; ToSet(none) == {} && Numbers({}) == {}
  {
  }

  /** One LogAndApply installs what the sets say. */
  lemma NextIsInstall(current: seq<File>, e: VersionEdit, l: nat)
    requires SortedBySmallest(current) && ValidEdit(e) && Numbers(AddedAt(e, |e.added|, l)) !! Numbers(ToSet(current))
    ensures Lists(Next(current, e, l), Install(ToSet(current), e, l))
  {
    var s := LevelState(current, [], {});
    NoFiles();
    assert AsSet(s) == Pending(ToSet(current), {});
    AppliedIsStep(s, e, l);
    SavedIsResult(Applied(s, e, l));
  }

  lemma {:induction false} AppliedAllIsAccumulate(edits: seq<VersionEdit>, l: nat)
    requires AddedOnce({}, edits, l) && forall i :: 0 <= i < |edits| ==> ValidEdit(edits[i])
    ensures var s := AppliedAll(LevelState([], [], {}), edits, l);
      NumbersApart(s) && AsSet(s) == Accumulate(Pending({}, {}), edits, l)
  {
    NoFiles();
    if edits != [] {
      var front, last := edits[..|edits| - 1], edits[|edits| - 1];
      AppliedAllIsAccumulate(front, l);
      AppliedIsStep(AppliedAll(LevelState([], [], {}), front, l), last, l);
    }
  }

  /** Replaying a manifest that adds no number twice at a level gives the version that saving after every edit gave. */
  lemma ReplayedIsInstalled(edits: seq<VersionEdit>, l: nat)
    requires AddedOnce({}, edits, l) && forall i :: 0 <= i < |edits| ==> ValidEdit(edits[i])
    ensures Lists(Replayed([], edits, l), InstallAll({}, edits, l))
  {
    AppliedAllIsAccumulate(edits, l);
    SavedIsResult(AppliedAll(LevelState([], [], {}), edits, l));
    ReplayEqualsInstalls({}, edits, l);
  }

  // ---- LogAndApply and Recover ----

  /** LogAndApply: the next version is the current one with the edit applied. */
  method NextVersion(current: Levels, e: VersionEdit) returns (files: Levels)
    requires InLevels(e) && forall l :: 0 <= l < NUM_LEVELS ==> InOrder(current[l])
    ensures forall l :: 0 <= l < NUM_LEVELS ==> files[l] == Next(current[l], e, l) && InOrder(files[l])
  {
    var builder := new Builder(current);
    builder.Apply(e);
    files := SaveTo(builder);
  }

  datatype Recovery =
    | Recovered(files: Levels, logNumber: nat, nextFileNumber: nat, lastSequence: SequenceNumber)
    | Corruption(reason: string)

  /** VersionSet::Recover: one builder over the whole manifest, starting from nothing. */
  method Recover(edits: seq<VersionEdit>) returns (r: Recovery)
    requires forall i :: 0 <= i < |edits| ==> InLevels(edits[i])
    ensures r.Recovered? <==> LastLogNumber(edits).Some? && LastNextFile(edits).Some? && LastLastSequence(edits).Some?
    ensures r.Recovered? ==>
              && r.logNumber == LastLogNumber(edits).value && r.nextFileNumber == LastNextFile(edits).value + 1
              && r.lastSequence == LastLastSequence(edits).value
              && forall l :: 0 <= l < NUM_LEVELS ==> r.files[l] == Replayed([], edits, l) && InOrder(r.files[l])
  {
    var logNumber, nextFile, lastSequence := None, None, None;
    var builder := new Builder(seq(NUM_LEVELS, _ => []));
    for i := 0 to |edits|
      invariant builder.Valid() && forall l :: 0 <= l < NUM_LEVELS ==> builder.base[l] == []
      invariant forall l :: 0 <= l < NUM_LEVELS ==> builder.At(l) == AppliedAll(LevelState([], [], {}), edits[..i], l)
      invariant logNumber == LastLogNumber(edits[..i]) && nextFile == LastNextFile(edits[..i])
      invariant lastSequence == LastLastSequence(edits[..i])
    {
      var e := edits[i];
      assert edits[..i + 1][..i] == edits[..i];
      builder.Apply(e);
      logNumber := if e.logNumber.Some? then e.logNumber else logNumber;
      nextFile := if e.nextFile.Some? then e.nextFile else nextFile;
      lastSequence := if e.lastSequence.Some? then e.lastSequence else lastSequence;
    }
    assert edits[..|edits|] == edits;
    if nextFile.None? {
      return Corruption("no meta-nextfile entry in descriptor");
    } else if logNumber.None? {
      return Corruption("no meta-lognumber entry in descriptor");
    } else if lastSequence.None? {
      return Corruption("no last-sequence-number entry in descriptor");
    }
    var files := SaveTo(builder);
    return Recovered(files, logNumber.value, nextFile.value + 1, lastSequence.value);
  }
}
