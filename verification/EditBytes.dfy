/** The bytes of manifest records in numbers, and what decoding makes of records in any order. */
module EditBytes {
  import opened Options
  import opened Coding
  import opened Slices
  import opened EditCoding

  /** Each part starts with its tag: 1 for the comparator, 2 for the log number, 3 for the next file number, 4 for the
      last sequence number, 5 for a compaction pointer, 6 for a deleted file, 7 for a new file, 9 for the previous log
      number; 8 is not used. */
  lemma TagLeads(item: Item)
    ensures Leads(EncodeItem(item), match item
      case Comparator(_) => 1
      case LogNumber(_) => 2
      case NextFileNumber(_) => 3
      case LastSequence(_) => 4
      case CompactPointer(_, _) => 5
      case DeletedFile(_, _) => 6
      case NewFile(_, _) => 7
      case PrevLogNumber(_) => 9, Body(item))
  {
    hide Leads, Body;
    LeadsOn(TagOf(item), Body(item));
  }

  /** What follows the tag: numbers as varints, the level first; strings behind their lengths. */
  lemma BodyLeads(item: Item)
    requires Short(item)
    ensures match item
      case Comparator(name) => Leads(Body(item), |name|, name)
      case LogNumber(n) => Leads(Body(item), n, [])
      case PrevLogNumber(n) => Leads(Body(item), n, [])
      case NextFileNumber(n) => Leads(Body(item), n, [])
      case LastSequence(n) => Leads(Body(item), n, [])
      case CompactPointer(level, key) => exists rest :: Leads(Body(item), level, rest) && Leads(rest, |key|, key)
      case DeletedFile(level, n) => exists rest :: Leads(Body(item), level, rest) && Leads(rest, n, [])
      case NewFile(level, m) => exists a, b, c :: Leads(Body(item), level, a) && Leads(a, m.number, b) && Leads(b, m.fileSize, c) && KeysLead(c, m)
  {
    hide Leads, EncodeVarint;
    match item
    case Comparator(name) => LeadsOn(|name|, name);
    case LogNumber(n) => LeadsAlone(n);
    case PrevLogNumber(n) => LeadsAlone(n);
    case NextFileNumber(n) => LeadsAlone(n);
    case LastSequence(n) => LeadsAlone(n);
    case CompactPointer(level, key) =>
      LeadsOn(|key|, key);
      LeadsOn(level, PutSlice(key));
    case DeletedFile(level, n) =>
      LeadsAlone(n);
      LeadsOn(level, EncodeVarint(n));
    case NewFile(level, m) =>
      var c := PutSlice(m.smallest) + PutSlice(m.largest);
      var b := EncodeVarint(m.fileSize) + c;
      var a := EncodeVarint(m.number) + b;
      assert Body(item) == EncodeVarint(level) + a;
      KeysFollow(m);
      LeadsOn(m.fileSize, c);
      LeadsOn(m.number, b);
      LeadsOn(level, a);
  }

  /** The smallest key and then the largest, each behind its length. */
  ghost predicate KeysLead(c: Bytes, m: Meta) {
    exists largest :: Leads(c, |m.smallest|, m.smallest + largest) && Leads(largest, |m.largest|, m.largest)
  }

  lemma KeysFollow(m: Meta)
    requires |m.smallest| <= WORD_MAX && |m.largest| <= WORD_MAX
    ensures KeysLead(PutSlice(m.smallest) + PutSlice(m.largest), m)
  {
    hide Leads, EncodeVarint;
    var largest := PutSlice(m.largest);
    assert PutSlice(m.smallest) + largest == EncodeVarint(|m.smallest|) + (m.smallest + largest);
    LeadsOn(|m.smallest|, m.smallest + largest);
    LeadsOn(|m.largest|, m.largest);
  }

  // ---- records in any order ----

  ghost predicate NoneOf(items: seq<Item>, tag: nat) {
    forall i :: 0 <= i < |items| ==> TagOf(items[i]) != tag
  }

  lemma {:induction false} OthersKeep(e: Edit, items: seq<Item>)
    ensures var r := ApplyAll(e, items);
      && (NoneOf(items, 1) ==> r.comparator == e.comparator)
      && (NoneOf(items, 2) ==> r.logNumber == e.logNumber)
      && (NoneOf(items, 3) ==> r.nextFileNumber == e.nextFileNumber)
      && (NoneOf(items, 4) ==> r.lastSequence == e.lastSequence)
      && (NoneOf(items, 9) ==> r.prevLogNumber == e.prevLogNumber)
    decreases |items|
  {
    if items != [] {
      OthersKeep(Apply(e, items[0]), items[1..]);
    }
  }

  /** However often a number is given, the last time counts. */
  lemma LastCounts(e: Edit, before: seq<Item>, item: Item, after: seq<Item>)
    requires NoneOf(after, TagOf(item))
    ensures var r := ApplyAll(e, before + [item] + after);
      match item
      case Comparator(name) => r.comparator == Some(name)
      case LogNumber(n) => r.logNumber == Some(n)
      case NextFileNumber(n) => r.nextFileNumber == Some(n)
      case LastSequence(n) => r.lastSequence == Some(n)
      case PrevLogNumber(n) => r.prevLogNumber == Some(n)
      case _ => true
  {
    ApplyAppend(e, before + [item], after);
    ApplyAppend(e, before, [item]);
    var mid := ApplyAll(e, before);
    assert ApplyAll(mid, [item]) == Apply(mid, item) by {
      assert [item][1..] == [];
    }
    OthersKeep(Apply(mid, item), after);
    hide ApplyAll, NoneOf;
  }

  /** Deletions are collected. */
  lemma {:induction false} DeletionsArrive(e: Edit, items: seq<Item>, level: Level, n: Long)
    ensures (level, n) in ApplyAll(e, items).deletedFiles <==> (level, n) in e.deletedFiles || DeletedFile(level, n) in items
    decreases |items|
  {
    if items != [] {
      DeletionsArrive(Apply(e, items[0]), items[1..], level, n);
      assert items == [items[0]] + items[1..];
    }
  }

  // ---- what is refused ----

  lemma TagTaken(input: Bytes, tag: Word, rest: Bytes)
    requires Leads(input, tag, rest)
    ensures TakeWord(input) == Some((tag, rest))
  {
    hide DecodeVarint, EncodeVarint;
    WordTaken(tag, rest);
  }

  /** A record with a tag that is none of the eight, a level that does not exist, or bytes behind its parts that are no
      tag is corrupt. */
  lemma Refused(e: Edit, input: Bytes, tag: Word, rest: Bytes)
    requires Leads(input, tag, rest)
    ensures tag !in {1, 2, 3, 4, 5, 6, 7, 9} ==> Decoded(e, input) == None
    ensures forall level: Word, more :: tag in {5, 6, 7} && level >= 7 && Leads(rest, level, more) ==> Decoded(e, input) == None
  {
    TagTaken(input, tag, rest);
    forall level: Word, more | tag in {5, 6, 7} && level >= 7 && Leads(rest, level, more)
      ensures TakeLevel(rest) == None
    {
      TagTaken(rest, level, more);
      hide TakeWord;
    }
    hide Leads, TakeWord, TakeMeta, TakeSlice, TakeLong, TakeLevel;
  }

  lemma NoTagRefused(e: Edit, input: Bytes)
    requires input != [] && !DecodeVarint(input, 0, |input|, 5).0
    ensures Decoded(e, input) == None
  {
  }
}
