/** Manifest records as bytes (EncodeTo and DecodeFrom in db/version_edit). */
module EditCoding {
  import opened Options
  import opened Keys
  import opened Coding
  import opened Slices

  const UINT64_MAX: nat := 0xffff_ffff_ffff_ffff
  const VARINT64_MAX_BYTES: nat := 10

  type Long = n: nat | n <= UINT64_MAX
  type Level = l: nat | l < NUM_LEVELS

  datatype Meta = Meta(number: Long, fileSize: Long, smallest: Bytes, largest: Bytes)

  datatype Edit = Edit(
    comparator: Option<Bytes>, logNumber: Option<Long>, prevLogNumber: Option<Long>, nextFileNumber: Option<Long>,
    lastSequence: Option<Long>, compactPointers: seq<(Level, Bytes)>, deletedFiles: set<(Level, Long)>, newFiles: seq<(Level, Meta)>)

  /** One tagged part of a record. */
  datatype Item =
    | Comparator(name: Bytes)
    | LogNumber(n: Long)
    | PrevLogNumber(n: Long)
    | NextFileNumber(n: Long)
    | LastSequence(n: Long)
    | CompactPointer(level: Level, key: Bytes)
    | DeletedFile(level: Level, n: Long)
    | NewFile(level: Level, meta: Meta)

  function TagOf(item: Item): nat {
    match item
    case Comparator(_) => 1
    case LogNumber(_) => 2
    case NextFileNumber(_) => 3
    case LastSequence(_) => 4
    case CompactPointer(_, _) => 5
    case DeletedFile(_, _) => 6
    case NewFile(_, _) => 7
    case PrevLogNumber(_) => 9
  }

  // ---- parts of the input ----

  function TakeLong(input: Bytes): (r: Option<(Long, Bytes)>)
    ensures r.Some? ==> |r.value.1| < |input|
  {
    TakeVarint(input, VARINT64_MAX_BYTES, UINT64_MAX + 1)
  }

  function TakeLevel(input: Bytes): (r: Option<(Level, Bytes)>)
    ensures r.Some? ==> |r.value.1| < |input|
  {
    var v := TakeWord(input);
    if v.None? || v.value.0 >= NUM_LEVELS then None else Some((v.value.0, v.value.1))
  }

  lemma LongTaken(v: Long, rest: Bytes)
    ensures TakeLong(EncodeVarint(v) + rest) == Some((v, rest))
  {
    hide EncodeVarint, DecodeVarint, HasAt;
    LongestVarint(v);
    Front(EncodeVarint(v), rest);
    VarintRoundTrip(v, EncodeVarint(v) + rest, 0, |EncodeVarint(v) + rest|, VARINT64_MAX_BYTES);
  }

  lemma LevelTaken(l: Level, rest: Bytes)
    ensures TakeLevel(EncodeVarint(l) + rest) == Some((l, rest))
  {
    WordTaken(l, rest);
  }

  // ---- items ----

  predicate Short(item: Item) {
    match item
    case Comparator(name) => |name| <= WORD_MAX
    case CompactPointer(_, key) => |key| <= WORD_MAX
    case NewFile(_, meta) => |meta.smallest| <= WORD_MAX && |meta.largest| <= WORD_MAX
    case _ => true
  }

  function Body(item: Item): Bytes {
    match item
    case Comparator(name) => PutSlice(name)
    case LogNumber(n) => EncodeVarint(n)
    case PrevLogNumber(n) => EncodeVarint(n)
    case NextFileNumber(n) => EncodeVarint(n)
    case LastSequence(n) => EncodeVarint(n)
    case CompactPointer(level, key) => EncodeVarint(level) + PutSlice(key)
    case DeletedFile(level, n) => EncodeVarint(level) + EncodeVarint(n)
    case NewFile(level, m) => EncodeVarint(level) + EncodeVarint(m.number) + EncodeVarint(m.fileSize) + PutSlice(m.smallest) + PutSlice(m.largest)
  }

  function EncodeItem(item: Item): Bytes {
    EncodeVarint(TagOf(item)) + Body(item)
  }

  function TakeMeta(input: Bytes): (r: Option<(Meta, Bytes)>)
    ensures r.Some? ==> |r.value.1| < |input|
  {
    var number := TakeLong(input);
    if number.None? then None else
    var size := TakeLong(number.value.1);
    if size.None? then None else
    var smallest := TakeSlice(size.value.1);
    if smallest.None? then None else
    var largest := TakeSlice(smallest.value.1);
    if largest.None? then None
    else Some((Meta(number.value.0, size.value.0, smallest.value.0, largest.value.0), largest.value.1))
  }

  /** What follows a tag. */
  function TakeBody(tag: nat, input: Bytes): (r: Option<(Item, Bytes)>)
    ensures r.Some? ==> |r.value.1| < |input|
  {
    if tag == 1 then var s := TakeSlice(input); if s.None? then None else Some((Comparator(s.value.0), s.value.1))
    else if tag == 2 then var n := TakeLong(input); if n.None? then None else Some((LogNumber(n.value.0), n.value.1))
    else if tag == 9 then var n := TakeLong(input); if n.None? then None else Some((PrevLogNumber(n.value.0), n.value.1))
    else if tag == 3 then var n := TakeLong(input); if n.None? then None else Some((NextFileNumber(n.value.0), n.value.1))
    else if tag == 4 then var n := TakeLong(input); if n.None? then None else Some((LastSequence(n.value.0), n.value.1))
    else if tag == 5 || tag == 6 || tag == 7 then
      var l := TakeLevel(input);
      if l.None? then None else
      var level, rest := l.value.0, l.value.1;
      if tag == 5 then var k := TakeSlice(rest); if k.None? then None else Some((CompactPointer(level, k.value.0), k.value.1))
      else if tag == 6 then var n := TakeLong(rest); if n.None? then None else Some((DeletedFile(level, n.value.0), n.value.1))
      else var m := TakeMeta(rest); if m.None? then None else Some((NewFile(level, m.value.0), m.value.1))
    else None
  }

  lemma MetaTaken(m: Meta, rest: Bytes)
    requires |m.smallest| <= WORD_MAX && |m.largest| <= WORD_MAX
    ensures TakeMeta(EncodeVarint(m.number) + EncodeVarint(m.fileSize) + PutSlice(m.smallest) + PutSlice(m.largest) + rest) == Some((m, rest))
  {
    hide EncodeVarint, PutSlice, TakeLong, TakeSlice;
    var a, b, c, d := EncodeVarint(m.number), EncodeVarint(m.fileSize), PutSlice(m.smallest), PutSlice(m.largest);
    LongTaken(m.number, b + (c + (d + rest)));
    LongTaken(m.fileSize, c + (d + rest));
    SliceTaken(m.smallest, d + rest);
    SliceTaken(m.largest, rest);
    assert a + b + c + d + rest == a + (b + (c + (d + rest)));
  }

  lemma BodyTaken(item: Item, rest: Bytes)
    requires Short(item)
    ensures TakeBody(TagOf(item), Body(item) + rest) == Some((item, rest))
  {
    hide EncodeVarint, PutSlice, TakeLong, TakeSlice, TakeMeta, TakeLevel;
    match item
    case Comparator(name) => SliceTaken(name, rest);
    case LogNumber(n) => LongTaken(n, rest);
    case PrevLogNumber(n) => LongTaken(n, rest);
    case NextFileNumber(n) => LongTaken(n, rest);
    case LastSequence(n) => LongTaken(n, rest);
    case CompactPointer(level, key) =>
      LevelTaken(level, PutSlice(key) + rest);
      SliceTaken(key, rest);
      assert Body(item) + rest == EncodeVarint(level) + (PutSlice(key) + rest);
    case DeletedFile(level, n) =>
      LevelTaken(level, EncodeVarint(n) + rest);
      LongTaken(n, rest);
      assert Body(item) + rest == EncodeVarint(level) + (EncodeVarint(n) + rest);
    case NewFile(level, m) =>
      var bytes := EncodeVarint(m.number) + EncodeVarint(m.fileSize) + PutSlice(m.smallest) + PutSlice(m.largest);
      LevelTaken(level, bytes + rest);
      MetaTaken(m, rest);
      assert Body(item) + rest == EncodeVarint(level) + (bytes + rest);
  }

  // ---- records ----

  function Apply(e: Edit, item: Item): Edit {
    match item
    case Comparator(name) => e.(comparator := Some(name))
    case LogNumber(n) => e.(logNumber := Some(n))
    case PrevLogNumber(n) => e.(prevLogNumber := Some(n))
    case NextFileNumber(n) => e.(nextFileNumber := Some(n))
    case LastSequence(n) => e.(lastSequence := Some(n))
    case CompactPointer(level, key) => e.(compactPointers := e.compactPointers + [(level, key)])
    case DeletedFile(level, n) => e.(deletedFiles := e.deletedFiles + {(level, n)})
    case NewFile(level, meta) => e.(newFiles := e.newFiles + [(level, meta)])
  }

  function ApplyAll(e: Edit, items: seq<Item>): Edit
    decreases |items|
  {
    if items == [] then e else ApplyAll(Apply(e, items[0]), items[1..])
  }

  function EncodeItems(items: seq<Item>): Bytes {
    if items == [] then [] else EncodeItem(items[0]) + EncodeItems(items[1..])
  }

  /** What decoding makes of an input; None is Status::Corruption. */
  function Decoded(e: Edit, input: Bytes): Option<Edit>
    decreases |input|
  {
    var tag := TakeWord(input);
    if tag.None? then if input == [] then Some(e) else None
    else
      var item := TakeBody(tag.value.0, tag.value.1);
      if item.None? then None
      else Decoded(Apply(e, item.value.0), item.value.1)
  }

  lemma {:induction false} ItemsDecode(e: Edit, items: seq<Item>)
    requires forall i :: 0 <= i < |items| ==> Short(items[i])
    ensures Decoded(e, EncodeItems(items)) == Some(ApplyAll(e, items))
    decreases |items|
  {
    if items != [] {
      var item, rest := items[0], EncodeItems(items[1..]);
      assert EncodeItems(items) == EncodeVarint(TagOf(item)) + (Body(item) + rest);
      WordTaken(TagOf(item), Body(item) + rest);
      BodyTaken(item, rest);
      ItemsDecode(Apply(e, item), items[1..]);
    }
  }

  /** The parts of an edit in the order in which they are written; `deleted` lists its set of deleted files. */
  function Items(e: Edit, deleted: seq<(Level, Long)>): seq<Item> {
    Scalars(e) + Pointers(e.compactPointers) + Deletions(deleted) + Files(e.newFiles)
  }

  function Pointers(ps: seq<(Level, Bytes)>): seq<Item> {
    seq(|ps|, i requires 0 <= i < |ps| => CompactPointer(ps[i].0, ps[i].1))
  }

  function Deletions(ds: seq<(Level, Long)>): seq<Item> {
    seq(|ds|, i requires 0 <= i < |ds| => DeletedFile(ds[i].0, ds[i].1))
  }

  function Files(fs: seq<(Level, Meta)>): seq<Item> {
    seq(|fs|, i requires 0 <= i < |fs| => NewFile(fs[i].0, fs[i].1))
  }

  function Scalars(e: Edit): seq<Item> {
    (if e.comparator.Some? then [Comparator(e.comparator.value)] else [])
    + (if e.logNumber.Some? then [LogNumber(e.logNumber.value)] else [])
    + (if e.prevLogNumber.Some? then [PrevLogNumber(e.prevLogNumber.value)] else [])
    + (if e.nextFileNumber.Some? then [NextFileNumber(e.nextFileNumber.value)] else [])
    + (if e.lastSequence.Some? then [LastSequence(e.lastSequence.value)] else [])
  }

  /** Clear leaves the compaction pointers alone. */
  function Cleared(e: Edit): Edit {
    Edit(None, None, None, None, None, e.compactPointers, {}, [])
  }

  predicate ShortEdit(e: Edit) {
    && (e.comparator.Some? ==> |e.comparator.value| <= WORD_MAX)
    && (forall p :: p in e.compactPointers ==> |p.1| <= WORD_MAX)
    && (forall f :: f in e.newFiles ==> |f.1.smallest| <= WORD_MAX && |f.1.largest| <= WORD_MAX)
  }

  lemma {:induction false} ApplyAppend(e: Edit, a: seq<Item>, b: seq<Item>)
    ensures ApplyAll(e, a + b) == ApplyAll(ApplyAll(e, a), b)
    decreases |a|
  {
    if a == [] {
      assert a + b == b;
    } else {
      assert (a + b)[1..] == a[1..] + b;
      ApplyAppend(Apply(e, a[0]), a[1..], b);
    }
  }

  lemma ScalarsApply(d: Edit, e: Edit)
    ensures ApplyAll(Cleared(d), Scalars(e)) ==
              Edit(e.comparator, e.logNumber, e.prevLogNumber, e.nextFileNumber, e.lastSequence, d.compactPointers, {}, [])
  {
    var a := if e.comparator.Some? then [Comparator(e.comparator.value)] else [];
    var b := if e.logNumber.Some? then [LogNumber(e.logNumber.value)] else [];
    var p := if e.prevLogNumber.Some? then [PrevLogNumber(e.prevLogNumber.value)] else [];
    var n := if e.nextFileNumber.Some? then [NextFileNumber(e.nextFileNumber.value)] else [];
    var l := if e.lastSequence.Some? then [LastSequence(e.lastSequence.value)] else [];
    ApplyAppend(Cleared(d), a + b + p + n, l);
    ApplyAppend(Cleared(d), a + b + p, n);
    ApplyAppend(Cleared(d), a + b, p);
    ApplyAppend(Cleared(d), a, b);
  }

  lemma {:induction false} PointersApply(e: Edit, ps: seq<(Level, Bytes)>)
    ensures ApplyAll(e, Pointers(ps)) == e.(compactPointers := e.compactPointers + ps)
    decreases |ps|
  {
    var items := Pointers(ps);
    if ps == [] {
      assert e.compactPointers + ps == e.compactPointers;
    } else {
      var rest := ps[1..];
      assert items[1..] == Pointers(rest);
      PointersApply(Apply(e, items[0]), rest);
      assert e.compactPointers + [ps[0]] + rest == e.compactPointers + ps;
    }
  }

  lemma {:induction false} DeletedApply(e: Edit, ds: seq<(Level, Long)>)
    ensures ApplyAll(e, Deletions(ds)) == e.(deletedFiles := e.deletedFiles + ToSet(ds))
    decreases |ds|
  {
    var items := Deletions(ds);
    if ds == [] {
      assert e.deletedFiles + ToSet(ds) == e.deletedFiles;
    } else {
      var rest := ds[1..];
      assert items[1..] == Deletions(rest);
      DeletedApply(Apply(e, items[0]), rest);
      assert ds == [ds[0]] + rest;
      assert e.deletedFiles + {ds[0]} + ToSet(rest) == e.deletedFiles + ToSet(ds);
    }
  }

  lemma {:induction false} FilesApply(e: Edit, fs: seq<(Level, Meta)>)
    ensures ApplyAll(e, Files(fs)) == e.(newFiles := e.newFiles + fs)
    decreases |fs|
  {
    var items := Files(fs);
    if fs == [] {
      assert e.newFiles + fs == e.newFiles;
    } else {
      var rest := fs[1..];
      assert items[1..] == Files(rest);
      FilesApply(Apply(e, items[0]), rest);
      assert e.newFiles + [fs[0]] + rest == e.newFiles + fs;
    }
  }

  /** Decoding an encoded edit gives it back, after whatever compaction pointers the object already had. */
  lemma EditRoundTrip(d: Edit, e: Edit, deleted: seq<(Level, Long)>)
    requires ShortEdit(e) && ToSet(deleted) == e.deletedFiles
    ensures Decoded(Cleared(d), EncodeItems(Items(e, deleted))) == Some(e.(compactPointers := d.compactPointers + e.compactPointers))
  {
    var e0 := Cleared(d);
    ItemsShort(e, deleted);
    ItemsDecode(e0, Items(e, deleted));
    ScalarsApply(d, e);
    hide Scalars, Pointers, Deletions, Files, ApplyAll, Decoded, EncodeItems, Short, ShortEdit;
    var ps, ds, fs := Pointers(e.compactPointers), Deletions(deleted), Files(e.newFiles);
    ApplyAppend(e0, Scalars(e) + ps + ds, fs);
    ApplyAppend(e0, Scalars(e) + ps, ds);
    ApplyAppend(e0, Scalars(e), ps);
    var e1 := ApplyAll(e0, Scalars(e));
    PointersApply(e1, e.compactPointers);
    var e2 := ApplyAll(e1, ps);
    DeletedApply(e2, deleted);
    var e3 := ApplyAll(e2, ds);
    FilesApply(e3, e.newFiles);
    assert {} + e.deletedFiles == e.deletedFiles && [] + e.newFiles == e.newFiles;
  }

  lemma ItemsShort(e: Edit, deleted: seq<(Level, Long)>)
    requires ShortEdit(e)
    ensures forall i :: 0 <= i < |Items(e, deleted)| ==> Short(Items(e, deleted)[i])
  {
  }

  /** An edit comes back unchanged exactly when it is decoded into an object without compaction pointers. */
  lemma FreshEditRoundTrip(d: Edit, e: Edit, deleted: seq<(Level, Long)>)
    requires ShortEdit(e) && ToSet(deleted) == e.deletedFiles
    ensures Decoded(Cleared(d), EncodeItems(Items(e, deleted))) == Some(e) <==> d.compactPointers == []
  {
    EditRoundTrip(d, e, deleted);
    if d.compactPointers == [] {
      assert d.compactPointers + e.compactPointers == e.compactPointers;
    } else {
      assert |d.compactPointers + e.compactPointers| > |e.compactPointers|;
    }
  }

  class VersionEdit {
    var comparator: Option<Bytes>
    var logNumber: Option<Long>
    var prevLogNumber: Option<Long>
    var nextFileNumber: Option<Long>
    var lastSequence: Option<Long>
    var compactPointers: seq<(Level, Bytes)>
    var deletedFiles: set<(Level, Long)>
    var newFiles: seq<(Level, Meta)>

    constructor ()
      ensures Value() == Edit(None, None, None, None, None, [], {}, [])
    {
      comparator, logNumber, prevLogNumber, nextFileNumber, lastSequence := None, None, None, None, None;
      compactPointers, deletedFiles, newFiles := [], {}, [];
    }

    function Value(): Edit
      reads this
    {
      Edit(comparator, logNumber, prevLogNumber, nextFileNumber, lastSequence, compactPointers, deletedFiles, newFiles)
    }

    method Clear()
      modifies this
      ensures Value() == Cleared(old(Value()))
    {
      comparator, logNumber, prevLogNumber, nextFileNumber, lastSequence := None, None, None, None, None;
      deletedFiles, newFiles := {}, [];
    }

    method EncodeTo() returns (dst: Bytes, ghost deleted: seq<(Level, Long)>)
      ensures ToSet(deleted) == deletedFiles && dst == EncodeItems(Items(Value(), deleted))
    {
      hide EncodeItems, Scalars, Pointers, Deletions, Files;
      dst := EncodeScalars();
      var pointers := EncodePointers();
      EncodeAppend(Scalars(Value()), Pointers(compactPointers));
      dst := dst + pointers;
      var deletions, ds := EncodeDeletions();
      deleted := ds;
      EncodeAppend(Scalars(Value()) + Pointers(compactPointers), Deletions(ds));
      dst := dst + deletions;
      var files := EncodeFiles();
      EncodeAppend(Scalars(Value()) + Pointers(compactPointers) + Deletions(ds), Files(newFiles));
      dst := dst + files;
    }

    method EncodePointers() returns (dst: Bytes)
      ensures dst == EncodeItems(Pointers(compactPointers))
    {
      hide EncodeItem;
      dst := [];
      for i := 0 to |compactPointers|
        invariant dst == EncodeItems(Pointers(compactPointers[..i]))
      {
        var p := compactPointers[i];
        EncodeSnoc(Pointers(compactPointers[..i]), CompactPointer(p.0, p.1));
        assert Pointers(compactPointers[..i + 1]) == Pointers(compactPointers[..i]) + [CompactPointer(p.0, p.1)];
        dst := dst + EncodeItem(CompactPointer(p.0, p.1));
      }
      assert compactPointers[..|compactPointers|] == compactPointers;
    }

    method EncodeDeletions() returns (dst: Bytes, ghost deleted: seq<(Level, Long)>)
      ensures ToSet(deleted) == deletedFiles && dst == EncodeItems(Deletions(deleted))
    {
      hide EncodeItem;
      dst, deleted := [], [];
      var rest := deletedFiles;
      while rest != {}
        invariant ToSet(deleted) + rest == deletedFiles && dst == EncodeItems(Deletions(deleted))
        decreases |rest|
      {
        var d :| d in rest;
        rest := rest - {d};
        EncodeSnoc(Deletions(deleted), DeletedFile(d.0, d.1));
        assert Deletions(deleted + [d]) == Deletions(deleted) + [DeletedFile(d.0, d.1)];
        dst := dst + EncodeItem(DeletedFile(d.0, d.1));
        deleted := deleted + [d];
      }
    }

    method EncodeFiles() returns (dst: Bytes)
      ensures dst == EncodeItems(Files(newFiles))
    {
      hide EncodeItem;
      dst := [];
      for i := 0 to |newFiles|
        invariant dst == EncodeItems(Files(newFiles[..i]))
      {
        var f := newFiles[i];
        EncodeSnoc(Files(newFiles[..i]), NewFile(f.0, f.1));
        assert Files(newFiles[..i + 1]) == Files(newFiles[..i]) + [NewFile(f.0, f.1)];
        dst := dst + EncodeItem(NewFile(f.0, f.1));
      }
      assert newFiles[..|newFiles|] == newFiles;
    }

    method EncodeScalars() returns (dst: Bytes)
      ensures dst == EncodeItems(Scalars(Value()))
    {
      hide EncodeItem;
      dst := [];
      ghost var done: seq<Item> := [];
      if comparator.Some? {
        EncodeSnoc(done, Comparator(comparator.value));
        dst, done := dst + EncodeItem(Comparator(comparator.value)), done + [Comparator(comparator.value)];
      }
      if logNumber.Some? {
        EncodeSnoc(done, LogNumber(logNumber.value));
        dst, done := dst + EncodeItem(LogNumber(logNumber.value)), done + [LogNumber(logNumber.value)];
      }
      if prevLogNumber.Some? {
        EncodeSnoc(done, PrevLogNumber(prevLogNumber.value));
        dst, done := dst + EncodeItem(PrevLogNumber(prevLogNumber.value)), done + [PrevLogNumber(prevLogNumber.value)];
      }
      if nextFileNumber.Some? {
        EncodeSnoc(done, NextFileNumber(nextFileNumber.value));
        dst, done := dst + EncodeItem(NextFileNumber(nextFileNumber.value)), done + [NextFileNumber(nextFileNumber.value)];
      }
      if lastSequence.Some? {
        EncodeSnoc(done, LastSequence(lastSequence.value));
        dst, done := dst + EncodeItem(LastSequence(lastSequence.value)), done + [LastSequence(lastSequence.value)];
      }
      assert done == Scalars(Value());
    }

    /** False is Status::Corruption. */
    method DecodeFrom(src: Bytes) returns (ok: bool)
      modifies this
      ensures ok <==> Decoded(Cleared(old(Value())), src).Some?
      ensures ok ==> Value() == Decoded(Cleared(old(Value())), src).value
    {
      Clear();
      var input := src;
      ghost var want := Decoded(Value(), src);
      while true
        invariant want == Decoded(Value(), input)
        decreases |input|
      {
        var tag := TakeWord(input);
        if tag.None? {
          return input == [];
        }
        var item := TakeBody(tag.value.0, tag.value.1);
        if item.None? {
          return false;
        }
        SetItem(item.value.0);
        input := item.value.1;
      }
    }

    /** Fill in the field that an item is for. */
    method SetItem(item: Item)
      modifies this
      ensures Value() == Apply(old(Value()), item)
    {
      match item
      case Comparator(name) => comparator := Some(name);
      case LogNumber(n) => logNumber := Some(n);
      case PrevLogNumber(n) => prevLogNumber := Some(n);
      case NextFileNumber(n) => nextFileNumber := Some(n);
      case LastSequence(n) => lastSequence := Some(n);
      case CompactPointer(level, key) => compactPointers := compactPointers + [(level, key)];
      case DeletedFile(level, n) => deletedFiles := deletedFiles + {(level, n)};
      case NewFile(level, meta) => newFiles := newFiles + [(level, meta)];
    }
  }

  lemma {:induction false} EncodeSnoc(items: seq<Item>, item: Item)
    ensures EncodeItems(items + [item]) == EncodeItems(items) + EncodeItem(item)
    decreases |items|
  {
    hide EncodeItem;
    if items == [] {
      assert [item][1..] == [];
    } else {
      assert (items + [item])[1..] == items[1..] + [item];
      EncodeSnoc(items[1..], item);
    }
  }

  lemma {:induction false} EncodeAppend(a: seq<Item>, b: seq<Item>)
    ensures EncodeItems(a + b) == EncodeItems(a) + EncodeItems(b)
    decreases |a|
  {
    hide EncodeItem;
    if a == [] {
      assert a + b == b;
    } else {
      assert (a + b)[1..] == a[1..] + b;
      EncodeAppend(a[1..], b);
    }
  }

  /** Through the objects: encode one, decode into another. */
  method EncodeDecode(e: VersionEdit, d: VersionEdit) returns (ok: bool)
    requires e != d && ShortEdit(e.Value())
    modifies d
    ensures ok && d.Value() == e.Value().(compactPointers := old(d.compactPointers) + e.compactPointers)
  {
    var bytes, deleted := e.EncodeTo();
    EditRoundTrip(d.Value(), e.Value(), deleted);
    ok := d.DecodeFrom(bytes);
  }
}
