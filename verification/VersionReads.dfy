/** Point lookups: memtable, then immutable memtable, then level by level. */
module VersionReads {
  import opened Options
  import opened Keys
  import opened Reads
  import opened Files

  /** Index of the first file whose largest key is at or after `k`, or |files|. */
  method FindFile(files: seq<File>, k: InternalKey) returns (r: nat)
    requires ValidFiles(files) && Disjoint(files)
    ensures r <= |files|
    ensures forall i :: 0 <= i < r ==> Less(files[i].largest, k)
    ensures forall i :: r <= i < |files| ==> !Less(files[i].largest, k)
  {
    var left, right := 0, |files|;
    while left < right
      invariant 0 <= left <= right <= |files|
      invariant forall i :: 0 <= i < left ==> Less(files[i].largest, k)
      invariant forall i :: right <= i < |files| ==> !Less(files[i].largest, k)
    {
      var mid := (left + right) / 2;
      LargestOrdered(files, mid);
      if Less(files[mid].largest, k) {
        left := mid + 1;
      } else {
        right := mid;
      }
    }
    return right;
  }

  lemma LargestOrdered(files: seq<File>, m: nat)
    requires ValidFiles(files) && Disjoint(files) && m < |files|
    ensures forall i :: 0 <= i < m ==> Less(files[i].largest, files[m].largest)
    ensures forall i :: m < i < |files| ==> Less(files[m].largest, files[i].largest)
  {
    forall i | 0 <= i < |files|
      ensures LessEq(files[i].smallest, files[i].largest)
    {
      EntryBounds(files[i], files[i].entries[0]);
    }
    forall i | 0 <= i < |files|
      ensures i < m ==> Less(files[i].largest, files[m].largest)
      ensures m < i ==> Less(files[m].largest, files[i].largest)
    {
      assert LessEq(files[i].smallest, files[i].largest) && LessEq(files[m].smallest, files[m].largest);
    }
  }

  datatype GetResult = Missing | Found(value: Value) | Deleted

  /** What a store reports for (u, s): nothing visible, a value, or a deletion marker. */
  ghost predicate Reports(S: set<Entry>, u: UserKey, s: nat, r: GetResult) {
    match r
    case Missing => !AnyVisible(S, u, s)
    case Found(v) => exists e :: Newest(S, u, s, e) && e.key.typ.TypeValue? && e.value == v
    case Deleted => exists e :: Newest(S, u, s, e) && e.key.typ.TypeDeletion?
  }

  /** Seek to the lookup key and look at the entry found: MemTable::Get, and Table lookups through SaveValue. */
  method SeekGet(es: seq<Entry>, u: UserKey, s: SequenceNumber) returns (r: GetResult)
    requires Sorted(es)
    ensures Reports(ToSet(es), u, s, r)
  {
    var i := LowerBound(es, LookupKey(u, s));
    if i < |es| {
      var e := es[i];
      if e.key.user == u {
        assert Newest(ToSet(es), u, s, e) by {
          forall o | o in es && Visible(o, u, s)
            ensures o.key.sn <= e.key.sn
          {
            var j :| 0 <= j < |es| && es[j] == o;
            assert i < j ==> Less(es[i].key, es[j].key);
          }
        }
        return if e.key.typ.TypeValue? then Found(e.value) else Deleted;
      }
    }
    forall o | o in es
      ensures !Visible(o, u, s)
    {
      var j :| 0 <= j < |es| && es[j] == o;
      assert i < j ==> Less(es[i].key, es[j].key);
    }
    return Missing;
  }

  lemma ReportsRead(S: set<Entry>, u: UserKey, s: nat, r: GetResult)
    requires Distinct(S) && Reports(S, u, s, r)
    ensures Read(S, u, s) == if r.Found? then Some(r.value) else None
  {
    if !r.Missing? {
      var e :| Newest(S, u, s, e) && e.key.typ.TypeValue? == r.Found? && (r.Found? ==> e.value == r.value);
      ReadIs(S, u, s, e);
    }
  }

  /** A report from the newer store stands; a miss passes the question on. */
  lemma ReportsLayers(A: set<Entry>, B: set<Entry>, u: UserKey, s: nat, r: GetResult)
    requires Newer(A, B)
    ensures !r.Missing? && Reports(A, u, s, r) ==> Reports(A + B, u, s, r)
    ensures Reports(A, u, s, Missing) && Reports(B, u, s, r) ==> Reports(A + B, u, s, r)
  {
    forall e | Newest(A, u, s, e)
      ensures Newest(A + B, u, s, e)
    {
    }
    if Reports(A, u, s, Missing) {
      forall e | Newest(B, u, s, e)
        ensures Newest(A + B, u, s, e)
      {
      }
    }
  }

  ghost predicate NewestFirst(fs: seq<File>) {
    forall i, j :: 0 <= i < j < |fs| ==> fs[i].number >= fs[j].number
  }

  /** std::sort with the NewestFirst comparison. */
  function SortNewestFirst(fs: seq<File>): (r: seq<File>)
    ensures multiset(r) == multiset(fs) && NewestFirst(r)
  {
    if fs == [] then [] else
    var last := |fs| - 1;
    assert fs == fs[..last] + [fs[last]];
    Insert(fs[last], SortNewestFirst(fs[..last]))
  }

  function Insert(f: File, sorted: seq<File>): (r: seq<File>)
    requires NewestFirst(sorted)
    ensures multiset(r) == multiset(sorted) + multiset{f} && NewestFirst(r)
  {
    var p := Position(f, sorted);
    InsertOrdered(f, sorted, p);
    InsertAt(f, sorted, p)
  }

  function InsertAt(f: File, sorted: seq<File>, p: nat): (r: seq<File>)
    requires p <= |sorted|
    ensures multiset(r) == multiset(sorted) + multiset{f}
  {
    assert sorted == sorted[..p] + sorted[p..];
    sorted[..p] + [f] + sorted[p..]
  }

  lemma InsertOrdered(f: File, sorted: seq<File>, p: nat)
    requires NewestFirst(sorted) && p <= |sorted|
    requires forall i :: 0 <= i < p ==> sorted[i].number >= f.number
    requires forall i :: p <= i < |sorted| ==> sorted[i].number <= f.number
    ensures NewestFirst(InsertAt(f, sorted, p))
  {
  }

  lemma SameMembers(a: seq<File>, b: seq<File>)
    requires multiset(a) == multiset(b)
    ensures forall f :: f in a <==> f in b
  {
    forall f
      ensures f in a <==> f in multiset(b)
    {
      assert f in a <==> f in multiset(a);
    }
  }

  function Position(f: File, sorted: seq<File>): (p: nat)
    requires NewestFirst(sorted)
    ensures p <= |sorted|
    ensures forall i :: 0 <= i < p ==> sorted[i].number >= f.number
    ensures forall i :: p <= i < |sorted| ==> sorted[i].number <= f.number
  {
    if sorted == [] then 0
    else if sorted[|sorted| - 1].number >= f.number then |sorted|
    else Position(f, sorted[..|sorted| - 1])
  }

  /** The level-0 files whose user-key range covers u. */
  method Covering(files: seq<File>, u: UserKey) returns (tmp: seq<File>)
    ensures forall f :: f in tmp <==> f in files && InRange(f, u)
  {
    tmp := [];
    for i := 0 to |files|
      invariant forall f :: f in tmp <==> f in files[..i] && InRange(f, u)
    {
      if u >= files[i].smallest.user && u <= files[i].largest.user {
        tmp := tmp + [files[i]];
      }
    }
    assert files[..|files|] == files;
  }

  /** Level 0: every file that covers the key, newest first. */
  method GetLevel0(files: seq<File>, u: UserKey, s: SequenceNumber) returns (r: GetResult)
    requires ValidFiles(files) && NewerByNumber(files)
    ensures Reports(LevelContents(files), u, s, r)
  {
    var tmp := Covering(files, u);
    var sorted := SortNewestFirst(tmp);
    SameMembers(sorted, tmp);
    for i := 0 to |sorted|
      invariant forall j, e :: 0 <= j < i && e in sorted[j].entries ==> !Visible(e, u, s)
    {
      assert sorted[i] in files;
      r := SeekGet(sorted[i].entries, u, s);
      if !r.Missing? {
        Level0Found(files, sorted, i, u, s, r);
        return;
      }
      assert forall e :: e in sorted[i].entries ==> e in ToSet(sorted[i].entries);
    }
    Level0Missing(files, sorted, u, s);
    return Missing;
  }

  lemma Level0Missing(files: seq<File>, sorted: seq<File>, u: UserKey, s: nat)
    requires ValidFiles(files)
    requires forall f :: f in sorted <==> f in files && InRange(f, u)
    requires forall j, e :: 0 <= j < |sorted| && e in sorted[j].entries ==> !Visible(e, u, s)
    ensures Reports(LevelContents(files), u, s, Missing)
  {
    forall e | e in LevelContents(files)
      ensures !Visible(e, u, s)
    {
      var f :| f in files && e in f.entries;
      EntryBounds(f, e);
    }
  }

  lemma Level0Found(files: seq<File>, sorted: seq<File>, i: nat, u: UserKey, s: nat, r: GetResult)
    requires ValidFiles(files) && NewerByNumber(files) && i < |sorted|
    requires forall f :: f in sorted <==> f in files && InRange(f, u)
    requires NewestFirst(sorted)
    requires forall j, e :: 0 <= j < i && e in sorted[j].entries ==> !Visible(e, u, s)
    requires !r.Missing? && Reports(Contents(sorted[i]), u, s, r)
    ensures Reports(LevelContents(files), u, s, r)
  {
    var S := LevelContents(files);
    var e :| Newest(Contents(sorted[i]), u, s, e) && e.key.typ.TypeValue? == r.Found? && (r.Found? ==> e.value == r.value);
    assert sorted[i] in files && e in S;
    forall o | o in S && Visible(o, u, s)
      ensures o.key.sn <= e.key.sn
    {
      var g :| g in files && o in g.entries;
      EntryBounds(g, o);
      var j :| 0 <= j < |sorted| && sorted[j] == g;
      assert o in Contents(g) && e in Contents(sorted[i]);
      if g != sorted[i] {
        var a, b :| 0 <= a < |files| && 0 <= b < |files| && files[a] == g && files[b] == sorted[i];
        assert sorted[i].number > g.number;
      }
    }
    assert Newest(S, u, s, e);
  }

  /** Deeper levels: the one file that can hold the key. */
  method GetDeeper(files: seq<File>, u: UserKey, s: SequenceNumber) returns (r: GetResult)
    requires ValidFiles(files) && Disjoint(files)
    ensures Reports(LevelContents(files), u, s, r)
  {
    var k := LookupKey(u, s);
    var index := FindFile(files, k);
    r := Missing;
    if index < |files| && u >= files[index].smallest.user {
      r := SeekGet(files[index].entries, u, s);
    }
    DeeperFound(files, index, u, s, r);
  }

  lemma DeeperFound(files: seq<File>, index: nat, u: UserKey, s: SequenceNumber, r: GetResult)
    requires ValidFiles(files) && Disjoint(files) && index <= |files|
    requires forall i :: 0 <= i < index ==> Less(files[i].largest, LookupKey(u, s))
    requires index < |files| ==> !Less(files[index].largest, LookupKey(u, s))
    requires if index < |files| && u >= files[index].smallest.user
             then Reports(Contents(files[index]), u, s, r) else r.Missing?
    ensures Reports(LevelContents(files), u, s, r)
  {
    var S := LevelContents(files);
    forall o | o in S && Visible(o, u, s)
      ensures index < |files| && u >= files[index].smallest.user && AnyVisible(Contents(files[index]), u, s)
      ensures o !in files[index].entries ==> Less(files[index].largest, o.key)
    {
      var g :| g in files && o in g.entries;
      EntryBounds(g, o);
      var j :| 0 <= j < |files| && files[j] == g;
      assert index <= j;
      var f := files[index];
      var last := f.entries[|f.entries| - 1];
      EntryBounds(f, last);
      if j == index {
        assert o in Contents(f);
      } else {
        assert Less(f.largest, g.smallest);
        assert Visible(last, u, s) && last in Contents(f);
      }
    }
    if !r.Missing? {
      var e :| Newest(Contents(files[index]), u, s, e) && e.key.typ.TypeValue? == r.Found? && (r.Found? ==> e.value == r.value);
      EntryBounds(files[index], e);
      assert files[index] in files && e in S;
      assert Newest(S, u, s, e);
    }
  }

  class Version {
    const files: Levels

    constructor (files: Levels)
      ensures this.files == files
    {
      this.files := files;
    }

    /** Level by level, stopping at the first that reports something. */
    method Get(u: UserKey, s: SequenceNumber) returns (r: GetResult)
      requires ValidLevels(files)
      ensures Reports(ContentsFrom(files, 0), u, s, r)
    {
      for level := 0 to NUM_LEVELS
        invariant Reports(ContentsBetween(files, 0, level), u, s, Missing)
      {
        assert SortedLevel(level, files[level]);
        if |files[level]| != 0 {
          if level == 0 {
            r := GetLevel0(files[0], u, s);
          } else {
            r := GetDeeper(files[level], u, s);
          }
        } else {
          r := Missing;
        }
        ContentsOne(files, level);
        ContentsSplit(files, 0, level, level + 1);
        ShallowerNewer(files, 0, level, level + 1);
        ReportsLayers(ContentsBetween(files, 0, level), LevelContents(files[level]), u, s, r);
        if !r.Missing? {
          ContentsSplit(files, 0, level + 1, NUM_LEVELS);
          ShallowerNewer(files, 0, level + 1, NUM_LEVELS);
          ReportsLayers(ContentsBetween(files, 0, level + 1), ContentsFrom(files, level + 1), u, s, r);
          return;
        }
      }
      return Missing;
    }
  }

  /** Everything a reader can reach: memtable, immutable memtable, files. */
  ghost function Everything(mem: seq<Entry>, imm: Option<seq<Entry>>, levels: Levels): set<Entry> {
    ToSet(mem) + (if imm.Some? then ToSet(imm.value) else {}) + ContentsFrom(levels, 0)
  }

  /** DBImpl::Get. */
  method Get(mem: seq<Entry>, imm: Option<seq<Entry>>, current: Version, u: UserKey, s: SequenceNumber) returns (r: Option<Value>)
    requires Sorted(mem) && (imm.Some? ==> Sorted(imm.value)) && ValidLevels(current.files)
    requires var immSet := if imm.Some? then ToSet(imm.value) else {};
             Newer(ToSet(mem), immSet + ContentsFrom(current.files, 0)) && Newer(immSet, ContentsFrom(current.files, 0))
    requires Distinct(Everything(mem, imm, current.files))
    ensures r == Read(Everything(mem, imm, current.files), u, s)
  {
    ghost var M := ToSet(mem);
    ghost var I := if imm.Some? then ToSet(imm.value) else {};
    ghost var D := ContentsFrom(current.files, 0);
    assert Everything(mem, imm, current.files) == M + (I + D);
    var g := SeekGet(mem, u, s);
    if g.Missing? {
      if imm.Some? {
        g := SeekGet(imm.value, u, s);
      }
      if g.Missing? {
        g := current.Get(u, s);
      }
      ReportsLayers(I, D, u, s, g);
      assert Reports(I + D, u, s, g);
    }
    ReportsLayers(M, I + D, u, s, g);
    ReportsRead(M + (I + D), u, s, g);
    return if g.Found? then Some(g.value) else None;
  }
}
