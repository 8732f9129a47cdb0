/** What decoding demands of the records in a message's bytes, in terms of the records alone. */
module ProtoRecords {
  import opened Options
  import opened Coding
  import opened ProtoSchema
  import opened ProtoIteration
  import opened ProtoVarints
  import opened ProtoParsing

  /** A record's tag, and how many elements of an array it holds. */
  datatype Rec = Rec(tag: nat, elements: nat)

  /** The records in order, and how the decoder stands behind the last one. */
  datatype Trace = Trace(records: seq<Rec>, last: Progress, end: nat)

  predicate HasRecord(records: seq<Rec>, tag: nat) {
    exists r :: r in records && r.tag == tag
  }

  /** How many values there are from p up to `limit`, one after the other. */
  function Scalars(data: seq<byte>, p: nat, limit: nat, k: Kind): nat
    requires p <= limit <= |data| && Packable(k) && ValidKind(k)
    decreases limit - p
  {
    var v := if p == limit then None else ParseScalar(data, p, limit, k);
    if v.None? then 0 else 1 + Scalars(data, v.value.1, limit, k)
  }

  /** A length-delimited record of numbers holds many, any other record one. */
  function Elements(data: seq<byte>, p: nat, limit: nat, key: nat, d: Descriptor): nat
    requires p <= limit <= |data| && ValidDescriptor(d)
  {
    var i := FindField(d.fields, key / 8);
    if i < |d.fields| && key % 8 == 2 && Packable(d.fields[i].kind) then
      KindOf(d.fields[i]);
      var sub := ParseDelimited(data, p, limit);
      if sub.None? then 0 else Scalars(data, sub.value.0, sub.value.1, d.fields[i].kind)
    else 1
  }

  function RecordAt(data: seq<byte>, p: nat, limit: nat, key: nat, d: Descriptor): Rec
    requires p <= limit <= |data| && ValidDescriptor(d)
  {
    Rec(key / 8, Elements(data, p, limit, key, d))
  }

  /** The records of a message; None if one of them cannot be read. */
  function Records(data: seq<byte>, p: nat, limit: nat, d: Descriptor, pr: Progress): (r: Option<Trace>)
    requires p <= limit <= |data| && ValidDescriptor(d) && ValidProgress(d, pr)
    ensures r.Some? ==> ValidProgress(d, r.value.last)
    decreases limit - p
  {
    if p == limit then Some(Trace([], pr, p))
    else
      var key := ParseVarint32(data, p, limit);
      if key.None? then None
      else if key.value.0 == 0 then Some(Trace([], pr, key.value.1))
      else
        var next := ParseRecord(data, key.value.1, limit, key.value.0, d, pr);
        if next.None? then None
        else
          var rest := Records(data, next.value.1, limit, d, next.value.0);
          if rest.None? then None
          else Some(rest.value.(records := [RecordAt(data, key.value.1, limit, key.value.0, d)] + rest.value.records))
  }

  lemma {:induction false} ParsesRecords(data: seq<byte>, p: nat, limit: nat, d: Descriptor, pr: Progress)
    requires p <= limit <= |data| && ValidDescriptor(d) && ValidProgress(d, pr)
    ensures var t := Records(data, p, limit, d, pr);
      ParseMessage(data, p, limit, d, pr) == if t.None? then None else Finish(d, t.value.last, t.value.end)
    decreases limit - p
  {
    hide ValidProgress, ValidDescriptor, Finish, ParseRecord, ParseVarint32;
    if p < limit {
      var key := ParseVarint32(data, p, limit);
      if key.Some? && key.value.0 != 0 {
        var next := ParseRecord(data, key.value.1, limit, key.value.0, d, pr);
        if next.Some? {
          ParsesRecords(data, next.value.1, limit, d, next.value.0);
        }
      }
    }
  }

  // ---- required fields ----

  /** The required fields among the first i. */
  function RequiredBefore(d: Descriptor, i: nat): set<nat>
    requires i <= |d.fields|
  {
    set j: nat | j < i && d.fields[j].rule.Required?
  }

  /** Only the first 64 required fields are looked at. */
  predicate Demanded(d: Descriptor, i: nat) {
    i < |d.fields| && d.fields[i].rule.Required? && |RequiredBefore(d, i)| < 64
  }

  lemma {:induction false} IndexCounts(d: Descriptor, i: nat)
    requires i <= |d.fields|
    ensures RequiredIndex(d.fields, i) == |RequiredBefore(d, i)|
  {
    if i > 0 {
      IndexCounts(d, i - 1);
      var before := RequiredBefore(d, i - 1);
      assert RequiredBefore(d, i) == if d.fields[i - 1].rule.Required? then before + {i - 1} else before;
    } else {
      assert RequiredBefore(d, 0) == {};
    }
  }

  lemma {:induction false} IndexGrows(fs: seq<Field>, i: nat, j: nat)
    requires i < j <= |fs|
    ensures RequiredIndex(fs, i) <= RequiredIndex(fs, j)
    ensures fs[i].rule.Required? ==> RequiredIndex(fs, i) < RequiredIndex(fs, j)
  {
    if i + 1 < j {
      IndexGrows(fs, i, j - 1);
    }
  }

  lemma {:induction false} IndexTaken(fs: seq<Field>, n: nat, r: nat) returns (i: nat)
    requires n <= |fs| && r < RequiredIndex(fs, n)
    ensures i < n && fs[i].rule.Required? && RequiredIndex(fs, i) == r
  {
    if r < RequiredIndex(fs, n - 1) {
      i := IndexTaken(fs, n - 1, r);
    } else {
      i := n - 1;
    }
  }

  lemma SameIndex(fs: seq<Field>, i: nat, j: nat)
    requires i < |fs| && j < |fs| && fs[i].rule.Required? && fs[j].rule.Required? && RequiredIndex(fs, i) == RequiredIndex(fs, j)
    ensures i == j
  {
    if i < j {
      IndexGrows(fs, i, j);
    } else if j < i {
      IndexGrows(fs, j, i);
    }
  }

  lemma RecordSeen(data: seq<byte>, p: nat, limit: nat, key: nat, d: Descriptor, pr: Progress)
    requires p <= limit <= |data| && ValidDescriptor(d) && ValidProgress(d, pr)
    requires ParseRecord(data, p, limit, key, d, pr).Some?
    ensures var j, next := FindField(d.fields, key / 8), ParseRecord(data, p, limit, key, d, pr).value.0;
      next.seen == if j < |d.fields| then pr.seen + Mark(d, j) else pr.seen
  {
    hide Holds, ValidProgress, RequiredIndex, ParseArray, ParseSingle, ArrayOf, SlotOf, ParseUnknown;
  }

  /** One record marks its own field, and no other. */
  lemma RecordMarks(data: seq<byte>, p: nat, limit: nat, key: nat, d: Descriptor, pr: Progress, i: nat)
    requires p <= limit <= |data| && ValidDescriptor(d) && ValidProgress(d, pr) && Demanded(d, i)
    requires ParseRecord(data, p, limit, key, d, pr).Some?
    ensures var next := ParseRecord(data, p, limit, key, d, pr).value.0;
      RequiredIndex(d.fields, i) in next.seen <==> RequiredIndex(d.fields, i) in pr.seen || key / 8 == d.fields[i].tag
  {
    IndexCounts(d, i);
    RecordSeen(data, p, limit, key, d, pr);
    var j := FindField(d.fields, key / 8);
    hide ValidProgress, ValidDescriptor, RequiredIndex, RequiredBefore, ParseRecord;
    if j < |d.fields| {
      DistinctTags(d, i, j);
      if d.fields[j].rule.Required? && RequiredIndex(d.fields, i) == RequiredIndex(d.fields, j) {
        SameIndex(d.fields, i, j);
      }
    }
  }

  lemma {:induction false} RecordsMark(data: seq<byte>, p: nat, limit: nat, d: Descriptor, pr: Progress, i: nat)
    requires p <= limit <= |data| && ValidDescriptor(d) && ValidProgress(d, pr) && Demanded(d, i)
    requires Records(data, p, limit, d, pr).Some?
    ensures var t := Records(data, p, limit, d, pr).value;
      RequiredIndex(d.fields, i) in t.last.seen <==> RequiredIndex(d.fields, i) in pr.seen || HasRecord(t.records, d.fields[i].tag)
    decreases limit - p
  {
    hide ValidProgress, ValidDescriptor, ParseRecord, ParseVarint32, RequiredIndex, Demanded;
    if p < limit {
      var key := ParseVarint32(data, p, limit).value;
      if key.0 != 0 {
        var next := ParseRecord(data, key.1, limit, key.0, d, pr).value;
        RecordMarks(data, key.1, limit, key.0, d, pr, i);
        RecordsMark(data, next.1, limit, d, next.0, i);
      }
    }
  }

  /** Every demanded field has a record. */
  ghost predicate RequiredCame(d: Descriptor, records: seq<Rec>) {
    forall i: nat :: Demanded(d, i) ==> HasRecord(records, d.fields[i].tag)
  }

  lemma SeenExactly(d: Descriptor, seen: set<nat>, records: seq<Rec>)
    requires forall i: nat :: Demanded(d, i) ==> (RequiredIndex(d.fields, i) in seen <==> HasRecord(records, d.fields[i].tag))
    ensures AllRequiredSeen(d, seen) <==> RequiredCame(d, records)
  {
    hide RequiredIndex, RequiredBefore;
    forall i: nat | Demanded(d, i)
      ensures RequiredIndex(d.fields, i) < 64 && RequiredIndex(d.fields, i) < RequiredIndex(d.fields, |d.fields|)
    {
      IndexCounts(d, i);
      IndexGrows(d.fields, i, |d.fields|);
    }
    if RequiredCame(d, records) {
      forall r: nat | r < RequiredIndex(d.fields, |d.fields|) && r < 64
        ensures r in seen
      {
        var i := IndexTaken(d.fields, |d.fields|, r);
        IndexCounts(d, i);
        assert Demanded(d, i);
      }
    }
  }

  // ---- arrays of a fixed count ----

  /** The fixed-count array with a tag. */
  function FixedField(d: Descriptor, tag: nat): (r: Option<nat>)
    ensures r.Some? ==> r.value < |d.fields| && d.fields[r.value].rule.FixedCount? && d.fields[r.value].tag == tag
  {
    var i := FindField(d.fields, tag);
    if i < |d.fields| && d.fields[i].rule.FixedCount? then Some(i) else None
  }

  /** The last fixed-count array to have a record. */
  function LastFixed(d: Descriptor, records: seq<Rec>): (r: Option<nat>)
    ensures r.Some? ==> r.value < |d.fields| && d.fields[r.value].rule.FixedCount?
  {
    if records == [] then None
    else
      var i := FixedField(d, records[|records| - 1].tag);
      if i.Some? then i else LastFixed(d, records[..|records| - 1])
  }

  /** How many elements array i has got since a record of another fixed-count array came. */
  function Latest(d: Descriptor, records: seq<Rec>, i: nat): nat {
    if records == [] then 0
    else
      var r, before := records[|records| - 1], records[..|records| - 1];
      if FixedField(d, r.tag) == Some(i) then Latest(d, before, i) + r.elements
      else if FixedField(d, r.tag).Some? then 0
      else Latest(d, before, i)
  }

  predicate FixedFull(d: Descriptor, records: seq<Rec>) {
    LastFixed(d, records).Some? ==> Latest(d, records, LastFixed(d, records).value) == d.fields[LastFixed(d, records).value].rule.count
  }

  /** The decoder's count is that of the records. */
  ghost predicate Filling(d: Descriptor, records: seq<Rec>, pr: Progress) {
    && pr.fixed == LastFixed(d, records) && (pr.fixed.Some? ==> pr.count == Latest(d, records, pr.fixed.value))
    && forall i: nat :: pr.fixed != Some(i) ==> Latest(d, records, i) == 0
  }

  lemma StartsFilling(d: Descriptor, m: seq<Slot>)
    ensures Filling(d, [], Start(m))
  {
  }

  lemma FilledExactly(d: Descriptor, records: seq<Rec>, pr: Progress)
    requires ValidProgress(d, pr) && Filling(d, records, pr)
    ensures FixedDone(d, pr) <==> FixedFull(d, records)
  {
    hide Holds;
  }

  lemma {:induction false} PackedAdds(data: seq<byte>, p: nat, limit: nat, f: Field, a: Array)
    requires p <= limit <= |data| && ValidKind(f.kind) && Packable(f.kind) && ValidArray(f, a) && ParsePacked(data, p, limit, f, a).Some?
    ensures ParsePacked(data, p, limit, f, a).value.count == a.count + Scalars(data, p, limit, f.kind)
    decreases limit - p
  {
    hide ParseScalar, ValidKind, Storable;
    if p < limit {
      var v := ParseScalar(data, p, limit, f.kind).value;
      PackedAdds(data, v.1, limit, f, Array(Put(a.items, a.count, v.0), a.count + 1));
    }
  }

  lemma ArrayAdds(data: seq<byte>, p: nat, limit: nat, key: nat, d: Descriptor, i: nat, a: Array)
    requires p <= limit <= |data| && ValidDescriptor(d) && i < |d.fields| && FindField(d.fields, key / 8) == i
    requires ValidField(d.fields[i]) && ValidArray(d.fields[i], a) && ParseArray(data, p, limit, key % 8, d.fields[i], a).Some?
    ensures ParseArray(data, p, limit, key % 8, d.fields[i], a).value.0.count == a.count + Elements(data, p, limit, key, d)
  {
    var f := d.fields[i];
    KindOf(f);
    hide ValidDescriptor, ValidField, ValidKind, ParseDelimited, ParsePacked, Scalars, ParseValue, FindField;
    if key % 8 == 2 && Packable(f.kind) {
      var sub := ParseDelimited(data, p, limit).value;
      PackedAdds(data, sub.0, sub.1, f, a);
    }
  }

  /** How a record changes the count. */
  lemma RecordCounts(data: seq<byte>, p: nat, limit: nat, key: nat, d: Descriptor, pr: Progress)
    requires p <= limit <= |data| && ValidDescriptor(d) && ValidProgress(d, pr)
    requires ParseRecord(data, p, limit, key, d, pr).Some?
    ensures var i, next := FixedField(d, key / 8), ParseRecord(data, p, limit, key, d, pr).value.0;
      if i.None? then next.fixed == pr.fixed && next.count == pr.count
      else next.fixed == i && next.count == (if pr.fixed == i then pr.count else 0) + Elements(data, p, limit, key, d)
  {
    var j := FindField(d.fields, key / 8);
    hide Holds, ValidProgress, RequiredIndex, ParseSingle, SlotOf, ParseUnknown, Elements;
    if j < |d.fields| && IsArray(d.fields[j].rule) {
      assert ValidField(d.fields[j]);
      ArrayAdds(data, p, limit, key, d, j, ArrayOf(d, pr, j));
      hide ParseArray, ValidDescriptor;
    }
  }

  lemma RecordFills(d: Descriptor, records: seq<Rec>, pr: Progress, r: Rec, next: Progress)
    requires Filling(d, records, pr)
    requires var i := FixedField(d, r.tag);
      if i.None? then next.fixed == pr.fixed && next.count == pr.count
      else next.fixed == i && next.count == (if pr.fixed == i then pr.count else 0) + r.elements
    ensures Filling(d, records + [r], next)
  {
    assert (records + [r])[..|records|] == records;
    hide FixedField;
  }

  lemma {:induction false} RecordsFill(data: seq<byte>, p: nat, limit: nat, d: Descriptor, pr: Progress, before: seq<Rec>)
    requires p <= limit <= |data| && ValidDescriptor(d) && ValidProgress(d, pr) && Filling(d, before, pr)
    requires Records(data, p, limit, d, pr).Some?
    ensures Filling(d, before + Records(data, p, limit, d, pr).value.records, Records(data, p, limit, d, pr).value.last)
    decreases limit - p
  {
    hide ValidProgress, ValidDescriptor, ParseRecord, ParseVarint32, Filling, FixedField, Elements;
    var t := Records(data, p, limit, d, pr).value;
    if p == limit || ParseVarint32(data, p, limit).value.0 == 0 {
      assert before + [] == before;
    } else {
      var key := ParseVarint32(data, p, limit).value;
      var next, r := ParseRecord(data, key.1, limit, key.0, d, pr).value, RecordAt(data, key.1, limit, key.0, d);
      RecordCounts(data, key.1, limit, key.0, d, pr);
      RecordFills(d, before, pr, r, next.0);
      RecordsFill(data, next.1, limit, d, next.0, before + [r]);
      var rest := Records(data, next.1, limit, d, next.0).value.records;
      assert (before + [r]) + rest == before + ([r] + rest);
    }
  }

  /** When reading a message into `m` succeeds: every record can be read, the last fixed-count array to have one is
      full, and every required field, of the first 64, has one. */
  lemma MessageExactly(data: seq<byte>, p: nat, limit: nat, d: Descriptor, m: seq<Slot>)
    requires p <= limit <= |data| && ValidDescriptor(d) && Holds(d, m, true)
    ensures var t := Records(data, p, limit, d, Start(m));
      ParseMessage(data, p, limit, d, Start(m)) ==
        if t.Some? && FixedFull(d, t.value.records) && RequiredCame(d, t.value.records) then Some((t.value.last.m, t.value.end)) else None
  {
    hide Holds, Records, RequiredIndex, ValidDescriptor, FixedDone, RequiredCame, AllRequiredSeen, ParseMessage, FixedFull;
    ParsesRecords(data, p, limit, d, Start(m));
    var t := Records(data, p, limit, d, Start(m));
    if t.Some? {
      forall i: nat | Demanded(d, i)
        ensures RequiredIndex(d.fields, i) in t.value.last.seen <==> HasRecord(t.value.records, d.fields[i].tag)
      {
        RecordsMark(data, p, limit, d, Start(m), i);
      }
      SeenExactly(d, t.value.last.seen, t.value.records);
      StartsFilling(d, m);
      RecordsFill(data, p, limit, d, Start(m), []);
      assert [] + t.value.records == t.value.records;
      FilledExactly(d, t.value.records, t.value.last);
    }
  }

  /** The empty buffer is a message exactly if nothing is required. */
  lemma EmptyBuffer(d: Descriptor)
    requires ValidDescriptor(d)
    ensures Parse([], d).Some? <==> forall f :: f in d.fields ==> !f.rule.Required?
  {
    DefaultsHold(d);
    MessageExactly([], 0, 0, d, Defaults(d));
    hide ParseMessage, ValidDescriptor;
    if i :| 0 <= i < |d.fields| && d.fields[i].rule.Required? {
      var first := FirstRequired(d, i);
    }
  }

  lemma {:induction false} FirstRequired(d: Descriptor, i: nat) returns (first: nat)
    requires i < |d.fields| && d.fields[i].rule.Required?
    ensures Demanded(d, first)
  {
    if j :| j in RequiredBefore(d, i) {
      first := FirstRequired(d, j);
    } else {
      first := i;
      assert RequiredBefore(d, i) == {};
    }
  }

  // ---- what has come is whole ----

  /** An array of a fixed count has all of its elements or, if no record has come for it, none. */
  predicate AllOrNone(d: Descriptor, records: seq<Rec>, m: seq<Slot>, i: nat)
    requires i < |d.fields| && SlotOf(d.fields, i) < |m| && m[SlotOf(d.fields, i)].Many?
  {
    forall x :: x in m[SlotOf(d.fields, i)].items ==> (x.Unset? <==> !HasRecord(records, d.fields[i].tag))
  }

  ghost predicate Set(items: seq<Value>, n: nat) {
    n <= |items| && forall x :: 0 <= x < n ==> !items[x].Unset?
  }

  /** Where the array of field i stands: nothing has come; or some, as counted; or all. */
  ghost predicate Standing(d: Descriptor, records: seq<Rec>, pr: Progress, i: nat)
    requires ValidProgress(d, pr) && i < |d.fields| && d.fields[i].rule.FixedCount?
  {
    Held(d, pr.m, i, true);
    var items := pr.m[SlotOf(d.fields, i)].items;
    if pr.fixed == Some(i) then HasRecord(records, d.fields[i].tag) && Set(items, pr.count)
    else if HasRecord(records, d.fields[i].tag) then Set(items, |items|)
    else forall x :: x in items ==> x.Unset?
  }

  lemma {:induction false} PackedSets(data: seq<byte>, p: nat, limit: nat, f: Field, a: Array)
    requires p <= limit <= |data| && ValidKind(f.kind) && Packable(f.kind) && ValidArray(f, a) && f.rule.FixedCount?
    requires ParsePacked(data, p, limit, f, a).Some? && Set(a.items, a.count)
    ensures var r := ParsePacked(data, p, limit, f, a).value; Set(r.items, r.count)
    decreases limit - p
  {
    hide ParseScalar, ValidKind;
    if p < limit {
      var v := ParseScalar(data, p, limit, f.kind).value;
      PackedSets(data, v.1, limit, f, Array(Put(a.items, a.count, v.0), a.count + 1));
    }
  }

  lemma ArraySets(data: seq<byte>, p: nat, limit: nat, wire: nat, f: Field, a: Array)
    requires p <= limit <= |data| && ValidField(f) && ValidArray(f, a) && f.rule.FixedCount?
    requires ParseArray(data, p, limit, wire, f, a).Some? && Set(a.items, a.count)
    ensures ValidKind(f.kind)
    ensures var r := ParseArray(data, p, limit, wire, f, a).value.0; Set(r.items, r.count)
  {
    KindOf(f);
    hide ValidField, ValidKind, ParseDelimited, ParsePacked, ParseValue, Zero;
    if wire == 2 && Packable(f.kind) {
      var sub := ParseDelimited(data, p, limit).value;
      PackedSets(data, sub.0, sub.1, f, a);
    }
  }

  lemma OtherTag(records: seq<Rec>, r: Rec, tag: nat)
    ensures HasRecord(records + [r], tag) <==> HasRecord(records, tag) || r.tag == tag
  {
    if x :| x in records && x.tag == tag {
      assert x in records + [r];
    }
    assert r in records + [r];
  }

  /** Which slot a record may change. */
  lemma RecordStores(data: seq<byte>, p: nat, limit: nat, key: nat, d: Descriptor, pr: Progress)
    requires p <= limit <= |data| && ValidDescriptor(d) && ValidProgress(d, pr)
    requires ParseRecord(data, p, limit, key, d, pr).Some?
    ensures var j, next := FindField(d.fields, key / 8), ParseRecord(data, p, limit, key, d, pr).value.0;
      && |next.m| == |pr.m| && (next.fixed != pr.fixed ==> j < |d.fields| && FixedDone(d, pr))
      && forall s :: 0 <= s < |pr.m| && (j < |d.fields| ==> s != SlotOf(d.fields, j)) ==> next.m[s] == pr.m[s]
  {
    hide Holds, RequiredIndex, ParseArray, ParseSingle, SlotOf, ParseUnknown, ValidDescriptor, FixedDone;
    var j := FindField(d.fields, key / 8);
    if j < |d.fields| {
      FieldStores(data, p, limit, key % 8, d, pr, j);
    }
  }

  lemma FieldStores(data: seq<byte>, p: nat, limit: nat, wire: nat, d: Descriptor, pr: Progress, j: nat)
    requires p <= limit <= |data| && ValidDescriptor(d) && ValidProgress(d, pr) && j < |d.fields|
    requires ParseField(data, p, limit, wire, d, pr, j).Some?
    ensures SlotOf(d.fields, j) < |pr.m|
    ensures var next := ParseField(data, p, limit, wire, d, pr, j).value.0;
      && |next.m| == |pr.m| && (next.fixed != pr.fixed ==> FixedDone(d, pr))
      && forall s :: 0 <= s < |pr.m| && s != SlotOf(d.fields, j) ==> next.m[s] == pr.m[s]
  {
    Held(d, pr.m, j, true);
    assert ValidField(d.fields[j]);
    hide Holds, HoldsField, RequiredIndex, ParseArray, ParseSingle, SlotOf, ValidDescriptor, FixedDone;
  }

  /** An array shares its slot with no other field. */
  lemma OwnSlot(d: Descriptor, i: nat, j: nat)
    requires i < |d.fields| && d.fields[i].rule.FixedCount? && j < |d.fields| && i != j
    ensures SlotOf(d.fields, j) != SlotOf(d.fields, i)
  {
    if SlotOf(d.fields, j) == SlotOf(d.fields, i) {
      SharedSlot(d.fields, i, j);
    }
  }

  lemma ArrayRecordSets(data: seq<byte>, p: nat, limit: nat, key: nat, d: Descriptor, pr: Progress, i: nat)
    requires p <= limit <= |data| && ValidDescriptor(d) && ValidProgress(d, pr) && i < |d.fields| && d.fields[i].rule.FixedCount?
    requires ParseRecord(data, p, limit, key, d, pr).Some? && FindField(d.fields, key / 8) == i
    requires pr.fixed == Some(i) ==> SlotOf(d.fields, i) < |pr.m| && pr.m[SlotOf(d.fields, i)].Many? && Set(pr.m[SlotOf(d.fields, i)].items, pr.count)
    ensures var next, s := ParseRecord(data, p, limit, key, d, pr).value.0, SlotOf(d.fields, i);
      next.fixed == Some(i) && s < |next.m| && next.m[s].Many? && Set(next.m[s].items, next.count)
  {
    Held(d, pr.m, i, true);
    assert ValidField(d.fields[i]);
    hide Holds, ValidDescriptor, RequiredIndex, ParseSingle, ParseArray, ParseUnknown, SlotOf;
    ArraySets(data, p, limit, key % 8, d.fields[i], ArrayOf(d, pr, i));
  }

  lemma RecordStands(data: seq<byte>, p: nat, limit: nat, key: nat, d: Descriptor, pr: Progress, records: seq<Rec>, i: nat)
    requires p <= limit <= |data| && ValidDescriptor(d) && ValidProgress(d, pr) && i < |d.fields| && d.fields[i].rule.FixedCount?
    requires ParseRecord(data, p, limit, key, d, pr).Some? && Standing(d, records, pr, i)
    ensures Standing(d, records + [RecordAt(data, p, limit, key, d)], ParseRecord(data, p, limit, key, d, pr).value.0, i)
  {
    var j, next := FindField(d.fields, key / 8), ParseRecord(data, p, limit, key, d, pr).value.0;
    Held(d, pr.m, i, true);
    Held(d, next.m, i, true);
    OtherTag(records, RecordAt(data, p, limit, key, d), d.fields[i].tag);
    RecordStores(data, p, limit, key, d, pr);
    RecordCounts(data, p, limit, key, d, pr);
    if j == i {
      ArrayRecordSets(data, p, limit, key, d, pr, i);
    } else if j < |d.fields| {
      DistinctTags(d, i, j);
      OwnSlot(d, i, j);
    }
    hide Holds, ValidDescriptor, ParseRecord, SlotOf, HasRecord, FixedDone;
    if pr.fixed == Some(i) && next.fixed != Some(i) {
      FullWhenDone(d, pr, i);
    }
  }

  lemma FullWhenDone(d: Descriptor, pr: Progress, i: nat)
    requires ValidDescriptor(d) && ValidProgress(d, pr) && FixedDone(d, pr) && pr.fixed == Some(i)
    ensures SlotOf(d.fields, i) < |pr.m| && pr.m[SlotOf(d.fields, i)].Many? && pr.count == |pr.m[SlotOf(d.fields, i)].items|
  {
    Held(d, pr.m, i, true);
    hide Holds;
  }

  lemma {:induction false} RecordsStand(data: seq<byte>, p: nat, limit: nat, d: Descriptor, pr: Progress, before: seq<Rec>, i: nat)
    requires p <= limit <= |data| && ValidDescriptor(d) && ValidProgress(d, pr) && i < |d.fields| && d.fields[i].rule.FixedCount?
    requires Records(data, p, limit, d, pr).Some? && Standing(d, before, pr, i)
    ensures var t := Records(data, p, limit, d, pr).value; Standing(d, before + t.records, t.last, i)
    decreases limit - p
  {
    hide ValidProgress, ValidDescriptor, ParseRecord, ParseVarint32, Standing, RecordAt;
    if p == limit || ParseVarint32(data, p, limit).value.0 == 0 {
      assert before + [] == before;
    } else {
      var key := ParseVarint32(data, p, limit).value;
      var next, r := ParseRecord(data, key.1, limit, key.0, d, pr).value, RecordAt(data, key.1, limit, key.0, d);
      RecordStands(data, key.1, limit, key.0, d, pr, before, i);
      RecordsStand(data, next.1, limit, d, next.0, before + [r], i);
      var rest := Records(data, next.1, limit, d, next.0).value.records;
      assert (before + [r]) + rest == before + ([r] + rest);
    }
  }

  lemma StartsStanding(d: Descriptor, i: nat)
    requires ValidDescriptor(d) && i < |d.fields| && d.fields[i].rule.FixedCount?
    ensures Holds(d, Defaults(d), true) && ValidProgress(d, Start(Defaults(d))) && Standing(d, [], Start(Defaults(d)), i)
  {
    DefaultsHold(d);
    DefaultsAt(d, |d.fields|, i);
    hide Holds, Defaults, Storable, SlotOf, HoldsField, ValidDescriptor;
  }

  lemma EndsStanding(d: Descriptor, records: seq<Rec>, pr: Progress, i: nat)
    requires ValidDescriptor(d) && ValidProgress(d, pr) && FixedDone(d, pr)
    requires i < |d.fields| && d.fields[i].rule.FixedCount? && Standing(d, records, pr, i)
    ensures SlotOf(d.fields, i) < |pr.m| && pr.m[SlotOf(d.fields, i)].Many? && AllOrNone(d, records, pr.m, i)
  {
    Held(d, pr.m, i, true);
    if pr.fixed == Some(i) {
      FullWhenDone(d, pr, i);
    }
    hide Holds, HasRecord, FixedDone, ValidDescriptor;
  }

  /** A decoded message has no array of a fixed count that is partly filled. */
  lemma FixedWhole(data: seq<byte>, d: Descriptor, i: nat)
    requires ValidDescriptor(d) && Parse(data, d).Some? && i < |d.fields| && d.fields[i].rule.FixedCount?
    ensures Holds(d, Defaults(d), true)
    ensures var t, m := Records(data, 0, |data|, d, Start(Defaults(d))), Parse(data, d).value.0;
      t.Some? && SlotOf(d.fields, i) < |m| && m[SlotOf(d.fields, i)].Many? && AllOrNone(d, t.value.records, m, i)
  {
    DefaultsHold(d);
    hide Holds, ValidDescriptor, Records, FixedDone, Defaults, Standing, ParseMessage, AllOrNone, Filling, FixedFull;
    var start := Start(Defaults(d));
    MessageExactly(data, 0, |data|, d, Defaults(d));
    var t := Records(data, 0, |data|, d, start).value;
    StartsFilling(d, Defaults(d));
    StartsStanding(d, i);
    RecordsFill(data, 0, |data|, d, start, []);
    RecordsStand(data, 0, |data|, d, start, [], i);
    assert [] + t.records == t.records;
    FilledExactly(d, t.records, t.last);
    EndsStanding(d, t.records, t.last, i);
  }
}
