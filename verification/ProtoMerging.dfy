/** Decoding the encoding of a message into a struct merges the message with what the struct holds. */
module ProtoMerging {
  import opened Options
  import opened Coding
  import opened ProtoSchema
  import opened ProtoIteration
  import opened ProtoEncoding
  import opened ProtoVarints
  import opened ProtoParsing
  import opened ProtoNumbers

  // ---- what merging means ----

  /** What leaves no bytes. */
  predicate Absent(f: Field, slot: Slot)
    requires HoldsField(f, slot, false)
  {
    match f.rule
    case Required => false
    case Optional => !slot.has
    case Singular => IsDefault(f, slot)
    case Repeated(_) => slot.items == []
    case FixedCount(_) => slot.items == []
    case Oneof(_) => slot.which != f.tag
  }


  predicate AbsentAt(d: Descriptor, m: seq<Slot>, i: nat)
    requires Holds(d, m, false) && i < |d.fields|
  {
    Held(d, m, i, false);
    Absent(d.fields[i], m[SlotOf(d.fields, i)])
  }

  /** Of the first n fields none that is stored in slot s is present. */
  predicate Untouched(d: Descriptor, m: seq<Slot>, s: nat, n: nat)
    requires Holds(d, m, false) && n <= |d.fields|
  {
    forall i: nat :: i < n && SlotOf(d.fields, i) == s ==> AbsentAt(d, m, i)
  }

  /** Submessages are merged, everything else is replaced. */
  predicate MergedValue(k: Kind, base: Value, v: Value, r: Value)
    requires ValidKind(k) && Storable(k, base, true) && Storable(k, v, false)
    decreases k, 0
  {
    if k.Submessage? then r.Message? && Merged(k.descriptor, base.slots, v.slots, r.slots) else r == v
  }

  /** The elements after those that were there; each is new. */
  predicate MergedItems(k: Kind, before: seq<Value>, items: seq<Value>, r: seq<Value>)
    requires ValidKind(k) && AllStorable(k, items)
    decreases k, 1
  {
    ZeroStorable(k);
    && |r| == |before| + |items| && (forall x :: 0 <= x < |before| ==> r[x] == before[x])
    && forall x :: 0 <= x < |items| ==> MergedValue(k, Zero(k), items[x], r[|before| + x])
  }

  /** What an array's new elements come after: fixed-count arrays are filled anew. */
  function Before(f: Field, base: Slot): seq<Value> {
    if f.rule.Repeated? && base.Many? then base.items else []
  }

  /** A present field: a record of another member of a union starts from the defaults. */
  predicate MergedField(f: Field, base: Slot, slot: Slot, r: Slot)
    requires ValidField(f) && HoldsField(f, base, true) && HoldsField(f, slot, false)
    decreases f
  {
    KindOf(f);
    ZeroStorable(f.kind);
    match f.rule
    case Required => r.One? && MergedValue(f.kind, base.v, slot.v, r.v)
    case Singular => r.One? && MergedValue(f.kind, base.v, slot.v, r.v)
    case Optional => r.Maybe? && r.has && MergedValue(f.kind, base.v, slot.v, r.v)
    case Repeated(_) => r.Many? && MergedItems(f.kind, Before(f, base), slot.items, r.items)
    case FixedCount(_) => r.Many? && MergedItems(f.kind, [], slot.items, r.items)
    case Oneof(_) =>
      && r.Choice? && r.which == f.tag
      && (slot.which == f.tag ==> MergedValue(f.kind, if base.which == f.tag then base.v else Zero(f.kind), slot.v, r.v))
  }

  predicate MergedAt(d: Descriptor, base: seq<Slot>, m: seq<Slot>, r: seq<Slot>, i: nat)
    requires ValidDescriptor(d) && Holds(d, base, true) && Holds(d, m, false) && |r| == SlotCount(d.fields) && i < |d.fields|
    decreases d, 0
  {
    Held(d, base, i, true);
    Held(d, m, i, false);
    var s := SlotOf(d.fields, i);
    AbsentAt(d, m, i) || MergedField(d.fields[i], base[s], m[s], r[s])
  }

  /** The first n fields are merged; what none of them touches is as it was. */
  predicate MergedTo(d: Descriptor, base: seq<Slot>, m: seq<Slot>, r: seq<Slot>, n: nat)
    requires ValidDescriptor(d) && Holds(d, base, true) && Holds(d, m, false) && |r| == SlotCount(d.fields) && n <= |d.fields|
    decreases d, 1
  {
    && (forall i: nat :: i < n ==> MergedAt(d, base, m, r, i))
    && forall s: nat :: s < |r| && Untouched(d, m, s, n) ==> r[s] == base[s]
  }

  /** r is `base` with the message m merged into it. */
  predicate Merged(d: Descriptor, base: seq<Slot>, m: seq<Slot>, r: seq<Slot>)
    requires ValidDescriptor(d) && Holds(d, base, true) && Holds(d, m, false)
    decreases d, 2
  {
    |r| == SlotCount(d.fields) && MergedTo(d, base, m, r, |d.fields|)
  }

  // ---- when there is room for it ----

  /** Strings need room for their NUL. */
  predicate FitsOnto(k: Kind, base: Value, v: Value)
    requires ValidKind(k) && Storable(k, base, true) && Storable(k, v, false)
    decreases k, 0
  {
    match k
    case Bytes(capacity) => |v.bytes| <= capacity
    case String(size) => |v.bytes| < size
    case Submessage(d) => MessageFitsOnto(d, base.slots, v.slots)
    case _ => true
  }

  predicate ItemsFit(k: Kind, items: seq<Value>, n: nat)
    requires ValidKind(k) && AllStorable(k, items)
    decreases k, 1
  {
    ZeroStorable(k);
    forall x :: n <= x < |items| ==> FitsOnto(k, Zero(k), items[x])
  }

  /** An array needs room for the elements it has and the new ones. */
  predicate FieldFitsOnto(f: Field, base: Slot, slot: Slot)
    requires ValidField(f) && HoldsField(f, base, true) && HoldsField(f, slot, false)
    decreases f
  {
    KindOf(f);
    ZeroStorable(f.kind);
    match f.rule
    case Required => FitsOnto(f.kind, base.v, slot.v)
    case Singular => IsDefault(f, slot) || FitsOnto(f.kind, base.v, slot.v)
    case Optional => slot.has ==> FitsOnto(f.kind, base.v, slot.v)
    case Repeated(max) => slot.items != [] ==> |Before(f, base)| + |slot.items| <= max && ItemsFit(f.kind, slot.items, 0)
    case FixedCount(_) => ItemsFit(f.kind, slot.items, 0)
    case Oneof(_) => slot.which == f.tag ==> FitsOnto(f.kind, if base.which == f.tag then base.v else Zero(f.kind), slot.v)
  }

  predicate FitsAt(d: Descriptor, base: seq<Slot>, m: seq<Slot>, i: nat)
    requires ValidDescriptor(d) && Holds(d, base, true) && Holds(d, m, false) && i < |d.fields|
    decreases d, 0
  {
    Held(d, base, i, true);
    Held(d, m, i, false);
    FieldFitsOnto(d.fields[i], base[SlotOf(d.fields, i)], m[SlotOf(d.fields, i)])
  }

  predicate MessageFitsOnto(d: Descriptor, base: seq<Slot>, m: seq<Slot>)
    requires ValidDescriptor(d) && Holds(d, base, true) && Holds(d, m, false)
    decreases d, 1
  {
    forall i: nat :: i < |d.fields| ==> FitsAt(d, base, m, i)
  }

  predicate FitsFrom(d: Descriptor, base: seq<Slot>, m: seq<Slot>, n: nat)
    requires ValidDescriptor(d) && Holds(d, base, true) && Holds(d, m, false)
  {
    forall i: nat :: n <= i < |d.fields| ==> FitsAt(d, base, m, i)
  }

  // ---- where decoding stands ----

  predicate SeenBefore(d: Descriptor, seen: set<nat>, i: nat)
    requires i <= |d.fields|
  {
    forall r: nat :: r < RequiredIndex(d.fields, i) && r < MAX_REQUIRED_FIELDS ==> r in seen
  }

  /** The first i fields are merged. */
  predicate Ready(d: Descriptor, base: seq<Slot>, m: seq<Slot>, pr: Progress, i: nat)
    requires ValidDescriptor(d) && Holds(d, base, true) && Holds(d, m, false) && i <= |d.fields|
  {
    ValidProgress(d, pr) && FixedDone(d, pr) && SeenBefore(d, pr.seen, i) && MergedTo(d, base, m, pr.m, i)
  }

  /** Field i is a fixed-count array that has elements. */
  predicate Counts(d: Descriptor, i: nat) {
    i < |d.fields| && d.fields[i].rule.FixedCount? && d.fields[i].rule.count > 0
  }

  /** The array that the decoder counts, after field i. */
  function FixedAfter(d: Descriptor, pr: Progress, i: nat): Option<nat> {
    if Counts(d, i) then Some(i) else pr.fixed
  }

  /** The array that the decoder counts in the end. */
  function FixedFrom(d: Descriptor, fixed: Option<nat>, i: nat): Option<nat>
    requires i <= |d.fields|
    decreases |d.fields| - i
  {
    if i == |d.fields| then fixed else FixedFrom(d, if Counts(d, i) then Some(i) else fixed, i + 1)
  }

  /** A fixed-count array that is full does not come next. */
  predicate Unblocked(d: Descriptor, pr: Progress, i: nat) {
    pr.fixed.Some? && pr.fixed.value >= i ==> exists y: nat :: i <= y < pr.fixed.value && Counts(d, y)
  }

  lemma StartsReady(d: Descriptor, base: seq<Slot>, m: seq<Slot>)
    requires ValidDescriptor(d) && Holds(d, base, true) && Holds(d, m, false)
    ensures ValidProgress(d, Start(base)) && Ready(d, base, m, Start(base), 0)
  {
  }

  lemma EndsMerged(d: Descriptor, base: seq<Slot>, m: seq<Slot>, pr: Progress, p: nat)
    requires ValidDescriptor(d) && Holds(d, base, true) && Holds(d, m, false) && Ready(d, base, m, pr, |d.fields|)
    ensures Finish(d, pr, p) == Some((pr.m, p)) && Merged(d, base, m, pr.m)
  {
  }

  /** Fields that are present share no slot. */
  lemma PresentApart(d: Descriptor, m: seq<Slot>, i: nat, j: nat)
    requires ValidDescriptor(d) && Holds(d, m, false) && i < |d.fields| && j < |d.fields| && i != j
    requires !AbsentAt(d, m, i) && !AbsentAt(d, m, j)
    ensures SlotOf(d.fields, i) != SlotOf(d.fields, j)
  {
    Held(d, m, i, false);
    Held(d, m, j, false);
    DistinctTags(d, i, j);
    hide Holds, Storable, ValidDescriptor, SlotOf;
    if SlotOf(d.fields, i) == SlotOf(d.fields, j) {
      SharedSlot(d.fields, i, j);
    }
  }

  /** A present field finds its slot as it was. */
  lemma PresentUntouched(d: Descriptor, m: seq<Slot>, i: nat)
    requires ValidDescriptor(d) && Holds(d, m, false) && i < |d.fields| && !AbsentAt(d, m, i)
    ensures Untouched(d, m, SlotOf(d.fields, i), i)
  {
    forall j: nat | j < i && SlotOf(d.fields, j) == SlotOf(d.fields, i)
      ensures AbsentAt(d, m, j)
    {
      if !AbsentAt(d, m, j) {
        PresentApart(d, m, i, j);
      }
    }
  }

  /** One more field is merged when its slot is, and no other slot changes. */
  lemma OneMoreMerged(d: Descriptor, base: seq<Slot>, m: seq<Slot>, r: seq<Slot>, i: nat, slot: Slot)
    requires ValidDescriptor(d) && Holds(d, base, true) && Holds(d, m, false) && |r| == SlotCount(d.fields) && i < |d.fields|
    requires MergedTo(d, base, m, r, i) && !AbsentAt(d, m, i)
    requires SlotOf(d.fields, i) < |r| && MergedAt(d, base, m, r[SlotOf(d.fields, i) := slot], i)
    ensures MergedTo(d, base, m, r[SlotOf(d.fields, i) := slot], i + 1)
  {
    hide Holds, ValidDescriptor, AbsentAt, MergedAt, Untouched, SlotOf;
    SlotsHeld(d, base);
    var r' := r[SlotOf(d.fields, i) := slot];
    forall j: nat | j < i + 1
      ensures MergedAt(d, base, m, r', j)
    {
      if j < i {
        MergedStands(d, base, m, r, i, slot, j);
      }
    }
    forall s: nat | s < |r'| && Untouched(d, m, s, i + 1)
      ensures s < |base| && r'[s] == base[s]
    {
      UntouchedStands(d, m, i, s);
    }
  }

  lemma SlotsHeld(d: Descriptor, m: seq<Slot>)
    requires Holds(d, m, true)
    ensures |m| == SlotCount(d.fields)
  {
  }

  lemma UntouchedStands(d: Descriptor, m: seq<Slot>, i: nat, s: nat)
    requires Holds(d, m, false) && i < |d.fields| && Untouched(d, m, s, i + 1) && !AbsentAt(d, m, i)
    ensures Untouched(d, m, s, i) && s != SlotOf(d.fields, i)
  {
    hide AbsentAt;
  }

  lemma MergedStands(d: Descriptor, base: seq<Slot>, m: seq<Slot>, r: seq<Slot>, i: nat, slot: Slot, j: nat)
    requires ValidDescriptor(d) && Holds(d, base, true) && Holds(d, m, false) && |r| == SlotCount(d.fields) && j < i < |d.fields|
    requires MergedAt(d, base, m, r, j) && !AbsentAt(d, m, i) && SlotOf(d.fields, i) < |r|
    ensures MergedAt(d, base, m, r[SlotOf(d.fields, i) := slot], j)
  {
    Held(d, m, j, false);
    hide Holds, ValidDescriptor, AbsentAt, MergedField;
    if !AbsentAt(d, m, j) {
      PresentApart(d, m, i, j);
    }
  }

  // ---- one record ----

  /** A message's bytes at p start with the key of field i and then some bytes. */
  ghost predicate RecordAt(data: seq<byte>, p: nat, limit: nat, f: Field, w: Wire, body: seq<byte>) {
    && HasAt(data, p, Key(f.tag, w) + body) && p + |Key(f.tag, w) + body| <= limit <= |data|
    && 1 <= f.tag <= MAX_TAG
  }

  lemma KeySurvives(data: seq<byte>, p: nat, limit: nat, f: Field, w: Wire, body: seq<byte>)
    requires RecordAt(data, p, limit, f, w, body)
    ensures ParseVarint32(data, p, limit) == Some((8 * f.tag + WireNumber(w), p + |Key(f.tag, w)|))
    ensures HasAt(data, p + |Key(f.tag, w)|, body) && p + |Key(f.tag, w)| + |body| <= limit <= |data| && 1 <= f.tag
  {
    HasParts(data, p, Key(f.tag, w), body);
    Varint32Survives(data, p, limit, 8 * f.tag + WireNumber(w));
  }

  /** The decoder's loop turns a record of field i over to that field. */
  lemma RecordParsed(data: seq<byte>, p: nat, limit: nat, d: Descriptor, pr: Progress, i: nat, w: Wire, body: seq<byte>)
    requires ValidDescriptor(d) && ValidProgress(d, pr) && i < |d.fields|
    requires RecordAt(data, p, limit, d.fields[i], w, body)
    ensures var next := ParseField(data, p + |Key(d.fields[i].tag, w)|, limit, WireNumber(w), d, pr, i);
      ParseMessage(data, p, limit, d, pr) == if next.None? then None else ParseMessage(data, next.value.1, limit, d, next.value.0)
  {
    hide ParseField, ParseMessage, ParseVarint32, Holds, ValidProgress;
    KeySurvives(data, p, limit, d.fields[i], w, body);
    LoopStep(data, p, limit, d, pr);
    FoundAnywhere(d, i, d.fields[i].tag);
  }

  lemma LoopStep(data: seq<byte>, p: nat, limit: nat, d: Descriptor, pr: Progress)
    requires p < limit <= |data| && ValidDescriptor(d) && ValidProgress(d, pr)
    requires ParseVarint32(data, p, limit).Some? && ParseVarint32(data, p, limit).value.0 != 0
    ensures var key := ParseVarint32(data, p, limit).value;
      var next := ParseRecord(data, key.1, limit, key.0, d, pr);
      ParseMessage(data, p, limit, d, pr) == if next.None? then None else ParseMessage(data, next.value.1, limit, d, next.value.0)
  {
    hide ParseRecord, ParseVarint32, Finish, Holds, ValidProgress;
  }


  // ---- a single value ----

  lemma StoredSeen(d: Descriptor, seen: set<nat>, i: nat)
    requires i < |d.fields| && SeenBefore(d, seen, i)
    ensures SeenBefore(d, seen + Mark(d, i), i + 1)
  {
  }

  lemma SingleStored(d: Descriptor, base: seq<Slot>, m: seq<Slot>, pr: Progress, i: nat, slot: Slot)
    requires ValidDescriptor(d) && Holds(d, base, true) && Holds(d, m, false) && i < |d.fields| && Ready(d, base, m, pr, i)
    requires !IsArray(d.fields[i].rule) && HoldsField(d.fields[i], slot, true) && !AbsentAt(d, m, i)
    requires d.fields[i].rule.Oneof? ==> slot.which == d.fields[i].tag
    requires SlotOf(d.fields, i) < |pr.m| && MergedAt(d, base, m, pr.m[SlotOf(d.fields, i) := slot], i)
    ensures Ready(d, base, m, StoreSingle(d, pr, i, slot), i + 1)
  {
    StoredSeen(d, pr.seen, i);
    OneMoreMerged(d, base, m, pr.m, i, slot);
    hide Holds, MergedTo, SeenBefore, MergedAt, AbsentAt, ValidDescriptor, HoldsField;
  }

  lemma AbsentStands(d: Descriptor, base: seq<Slot>, m: seq<Slot>, pr: Progress, i: nat)
    requires ValidDescriptor(d) && Holds(d, base, true) && Holds(d, m, false) && i < |d.fields| && Ready(d, base, m, pr, i) && AbsentAt(d, m, i)
    ensures Ready(d, base, m, pr, i + 1) && !Counts(d, i)
  {
    AbsentSeen(d, m, pr.seen, i);
    hide Holds, HoldsField, MergedTo, AbsentAt, RequiredIndex, SlotOf, ValidDescriptor, FixedDone, SeenBefore;
    AbsentMerged(d, base, m, pr.m, i);
  }

  lemma AbsentSeen(d: Descriptor, m: seq<Slot>, seen: set<nat>, i: nat)
    requires Holds(d, m, false) && i < |d.fields| && AbsentAt(d, m, i) && SeenBefore(d, seen, i)
    ensures SeenBefore(d, seen, i + 1) && !Counts(d, i)
  {
    Held(d, m, i, false);
    hide Holds;
  }

  lemma AbsentMerged(d: Descriptor, base: seq<Slot>, m: seq<Slot>, r: seq<Slot>, i: nat)
    requires ValidDescriptor(d) && Holds(d, base, true) && Holds(d, m, false) && i < |d.fields| && |r| == SlotCount(d.fields)
    requires MergedTo(d, base, m, r, i) && AbsentAt(d, m, i)
    ensures MergedTo(d, base, m, r, i + 1)
  {
    hide Holds, AbsentAt, SlotOf, ValidDescriptor, MergedField;
    SlotsHeld(d, base);
    forall s: nat | s < |r| && Untouched(d, m, s, i + 1)
      ensures s < |base| && r[s] == base[s]
    {
      assert Untouched(d, m, s, i);
    }
  }

  lemma AbsentLeavesNothing(f: Field, base: Slot, slot: Slot)
    requires ValidField(f) && HoldsField(f, base, true) && HoldsField(f, slot, false) && Absent(f, slot)
    ensures ValidKind(f.kind) && EncodeField(f, slot) == [] && FieldFitsOnto(f, base, slot)
  {
    KindOf(f);
  }

  // ---- arrays ----

  /** The first n elements have come. */
  predicate Filled(f: Field, before: seq<Value>, items: seq<Value>, a: Array, n: nat)
    requires ValidKind(f.kind) && AllStorable(f.kind, items)
  {
    ZeroStorable(f.kind);
    && ValidArray(f, a) && n <= |items| && a.count == |before| + n && (f.rule.FixedCount? ==> before == [] && |items| == f.rule.count)
    && (forall x :: 0 <= x < |before| ==> a.items[x] == before[x])
    && forall x :: 0 <= x < n ==> MergedValue(f.kind, Zero(f.kind), items[x], a.items[|before| + x])
  }

  lemma OneMoreFilled(f: Field, before: seq<Value>, items: seq<Value>, a: Array, n: nat, v: Value)
    requires ValidKind(f.kind) && AllStorable(f.kind, items)
    requires Filled(f, before, items, a, n) && n < |items| && a.count < MaxCount(f.rule) && Storable(f.kind, v, true)
    requires Storable(f.kind, Zero(f.kind), true) && MergedValue(f.kind, Zero(f.kind), items[n], v)
    ensures Filled(f, before, items, Array(Put(a.items, |before| + n, v), a.count + 1), n + 1)
  {
    hide Storable, MergedValue, Zero, ValidKind;
  }

  lemma {:induction false} PackedSurvives(data: seq<byte>, p: nat, limit: nat, f: Field, before: seq<Value>, items: seq<Value>, a: Array, n: nat)
    requires ValidKind(f.kind) && Packable(f.kind) && AllStorable(f.kind, items) && Filled(f, before, items, a, n)
    requires HasAt(data, p, PackedFrom(f.kind, items, n)) && limit == p + |PackedFrom(f.kind, items, n)| <= |data|
    ensures var r := ParsePacked(data, p, limit, f, a);
      && (r.Some? <==> |before| + |items| <= MaxCount(f.rule) || n == |items|)
      && (r.Some? ==> Filled(f, before, items, r.value, |items|))
    decreases |items| - n
  {
    hide Storable, EncodeScalar, ParseScalar, Filled;
    FilledBounds(f, before, items, a, n);
    if n < |items| && a.count < MaxCount(f.rule) {
      var bs := EncodeScalar(f.kind, items[n]);
      HasParts(data, p, bs, PackedFrom(f.kind, items, n + 1));
      ScalarSurvives(data, p, limit, f.kind, items[n]);
      var v := ParseScalar(data, p, limit, f.kind).value.0;
      PackedMerged(f.kind, v);
      OneMoreFilled(f, before, items, a, n, v);
      PackedSurvives(data, p + |bs|, limit, f, before, items, Array(Put(a.items, a.count, v), a.count + 1), n + 1);
    }
  }

  lemma FilledBounds(f: Field, before: seq<Value>, items: seq<Value>, a: Array, n: nat)
    requires ValidKind(f.kind) && AllStorable(f.kind, items) && Filled(f, before, items, a, n)
    ensures IsArray(f.rule) && ValidArray(f, a) && n <= |items| && a.count == |before| + n <= MaxCount(f.rule)
  {
    hide Storable, MergedValue;
  }

  lemma PackedMerged(k: Kind, v: Value)
    requires Packable(k) && Storable(k, v, false)
    ensures ValidKind(k) ==> Storable(k, Zero(k), true) && MergedValue(k, Zero(k), v, v)
    ensures Storable(k, v, true)
  {
  }

  /** Field i is an array of which n elements have come; everything else stands. */
  predicate Partway(d: Descriptor, base: seq<Slot>, m: seq<Slot>, pr: Progress, i: nat, n: nat)
    requires ValidDescriptor(d) && Holds(d, base, true) && Holds(d, m, false) && i < |d.fields| && IsArray(d.fields[i].rule)
  {
    Held(d, base, i, true);
    Held(d, m, i, false);
    assert ValidField(d.fields[i]);
    var f, s := d.fields[i], SlotOf(d.fields, i);
    && ValidProgress(d, pr) && SeenBefore(d, pr.seen, i)
    && (pr.fixed != Some(i) ==> FixedDone(d, pr))
    && (f.rule.FixedCount? && n > 0 ==> pr.fixed == Some(i))
    && Filled(f, Before(f, base[s]), m[s].items, ArrayOf(d, pr, i), n)
    && MergedTo(d, base, m, pr.m[s := base[s]], i)
  }

  /** Field i, stored, and its slot in the struct and in the message. */
  lemma ArrayAt(d: Descriptor, base: seq<Slot>, m: seq<Slot>, i: nat)
    requires ValidDescriptor(d) && Holds(d, base, true) && Holds(d, m, false) && i < |d.fields| && IsArray(d.fields[i].rule)
    ensures var f, s := d.fields[i], SlotOf(d.fields, i);
      && s < |m| && s < |base| && HoldsField(f, base[s], true) && HoldsField(f, m[s], false) && base[s].Many? && m[s].Many?
      && AllStorable(f.kind, m[s].items) && ValidField(f) && ValidKind(f.kind) && 1 <= f.tag <= MAX_TAG
      && (AbsentAt(d, m, i) <==> m[s].items == [])
  {
    Held(d, base, i, true);
    Held(d, m, i, false);
    KindOf(d.fields[i]);
    hide Holds, Storable;
  }

  lemma ArrayStarts(d: Descriptor, base: seq<Slot>, m: seq<Slot>, pr: Progress, i: nat)
    requires ValidDescriptor(d) && Holds(d, base, true) && Holds(d, m, false) && i < |d.fields| && IsArray(d.fields[i].rule)
    requires Ready(d, base, m, pr, i) && !AbsentAt(d, m, i) && (Counts(d, i) ==> pr.fixed != Some(i))
    ensures Partway(d, base, m, pr, i, 0)
  {
    ArrayAt(d, base, m, i);
    PresentUntouched(d, m, i);
    var s := SlotOf(d.fields, i);
    assert pr.m[s := base[s]] == pr.m;
    hide Holds, MergedTo, Storable, MergedValue, SeenBefore, SlotOf, Untouched, AbsentAt;
    CountsWhenPresent(d, m, i);
  }

  lemma CountsWhenPresent(d: Descriptor, m: seq<Slot>, i: nat)
    requires Holds(d, m, false) && i < |d.fields| && !AbsentAt(d, m, i) && IsArray(d.fields[i].rule)
    ensures d.fields[i].rule.FixedCount? ==> Counts(d, i)
  {
    Held(d, m, i, false);
  }

  lemma ArrayStored(d: Descriptor, base: seq<Slot>, m: seq<Slot>, pr: Progress, i: nat, n: nat, a: Array, n': nat)
    requires ValidDescriptor(d) && Holds(d, base, true) && Holds(d, m, false) && i < |d.fields| && IsArray(d.fields[i].rule)
    requires Partway(d, base, m, pr, i, n) && n' > 0
    requires SlotOf(d.fields, i) < |m| && SlotOf(d.fields, i) < |base| && ValidKind(d.fields[i].kind)
    requires m[SlotOf(d.fields, i)].Many? && AllStorable(d.fields[i].kind, m[SlotOf(d.fields, i)].items)
    requires Filled(d.fields[i], Before(d.fields[i], base[SlotOf(d.fields, i)]), m[SlotOf(d.fields, i)].items, a, n')
    ensures ValidArray(d.fields[i], a) && Partway(d, base, m, StoreArray(d, pr, i, a), i, n')
    ensures StoreArray(d, pr, i, a).fixed == if d.fields[i].rule.FixedCount? then Some(i) else pr.fixed
  {
    Held(d, pr.m, i, true);
    var pr', s := StoreArray(d, pr, i, a), SlotOf(d.fields, i);
    assert pr'.m[s := base[s]] == pr.m[s := base[s]];
    hide Holds, MergedTo, MergedValue, Storable, SeenBefore, SlotOf;
  }

  lemma ArrayEnds(d: Descriptor, base: seq<Slot>, m: seq<Slot>, pr: Progress, i: nat)
    requires ValidDescriptor(d) && Holds(d, base, true) && Holds(d, m, false) && i < |d.fields| && IsArray(d.fields[i].rule)
    requires SlotOf(d.fields, i) < |m| && m[SlotOf(d.fields, i)].Many? && !AbsentAt(d, m, i)
    requires Partway(d, base, m, pr, i, |m[SlotOf(d.fields, i)].items|)
    ensures Ready(d, base, m, pr, i + 1)
  {
    ArrayAt(d, base, m, i);
    Held(d, pr.m, i, true);
    var s := SlotOf(d.fields, i);
    ArrayMerged(d, base, m, pr, i);
    OneMoreMerged(d, base, m, pr.m[s := base[s]], i, pr.m[s]);
    assert pr.m[s := base[s]][s := pr.m[s]] == pr.m;
    hide Holds, MergedTo, MergedAt, Storable, MergedValue, AbsentAt, SlotOf;
  }

  lemma ArrayMerged(d: Descriptor, base: seq<Slot>, m: seq<Slot>, pr: Progress, i: nat)
    requires ValidDescriptor(d) && Holds(d, base, true) && Holds(d, m, false) && i < |d.fields| && IsArray(d.fields[i].rule)
    requires SlotOf(d.fields, i) < |m| && m[SlotOf(d.fields, i)].Many? && SlotOf(d.fields, i) < |base|
    requires Partway(d, base, m, pr, i, |m[SlotOf(d.fields, i)].items|)
    ensures SlotOf(d.fields, i) < |pr.m| == SlotCount(d.fields)
    ensures MergedAt(d, base, m, pr.m[SlotOf(d.fields, i) := base[SlotOf(d.fields, i)]][SlotOf(d.fields, i) := pr.m[SlotOf(d.fields, i)]], i)
  {
    var f, s := d.fields[i], SlotOf(d.fields, i);
    ArrayAt(d, base, m, i);
    Held(d, pr.m, i, true);
    PartwayFilled(d, base, m, pr, i, |m[s].items|);
    FilledMerged(f, base[s], m[s], ArrayOf(d, pr, i));
    assert pr.m[s] == Many(ArrayOf(d, pr, i).items) by {
      hide Filled, Holds, MergedTo, MergedField;
    }
    hide Holds, Partway, Filled, MergedField, SlotOf, ArrayOf, AbsentAt;
  }

  lemma FilledMerged(f: Field, base: Slot, slot: Slot, a: Array)
    requires ValidField(f) && IsArray(f.rule) && HoldsField(f, base, true) && HoldsField(f, slot, false) && slot.Many?
    requires ValidKind(f.kind) && AllStorable(f.kind, slot.items)
    requires Filled(f, Before(f, base), slot.items, a, |slot.items|)
    ensures MergedField(f, base, slot, Many(a.items))
  {
    hide Storable, MergedValue, Zero;
  }

  /** The decoder's loop turns a record of array i over to that array. */
  lemma ArrayRecord(data: seq<byte>, p: nat, limit: nat, d: Descriptor, base: seq<Slot>, m: seq<Slot>, pr: Progress, i: nat, n: nat, w: Wire, body: seq<byte>)
    requires ValidDescriptor(d) && Holds(d, base, true) && Holds(d, m, false) && i < |d.fields| && IsArray(d.fields[i].rule)
    requires Partway(d, base, m, pr, i, n) && RecordAt(data, p, limit, d.fields[i], w, body) && ValidKind(d.fields[i].kind)
    ensures ValidProgress(d, pr) && ValidArray(d.fields[i], ArrayOf(d, pr, i))
    ensures var a := ParseArray(data, p + |Key(d.fields[i].tag, w)|, limit, WireNumber(w), d.fields[i], ArrayOf(d, pr, i));
      && (a.Some? ==> ValidArray(d.fields[i], a.value.0))
      && ParseMessage(data, p, limit, d, pr) ==
           if a.None? then None else ParseMessage(data, a.value.1, limit, d, StoreArray(d, pr, i, a.value.0))
  {
    RecordParsed(data, p, limit, d, pr, i, w, body);
    hide Holds, ParseMessage, ParseArray, HasAt, StoreArray, Filled, ArrayOf, MergedTo;
  }

  lemma PackedRead(data: seq<byte>, q: nat, limit: nat, f: Field, before: seq<Value>, items: seq<Value>, a: Array)
    requires ValidField(f) && ValidKind(f.kind) && IsArray(f.rule) && Packable(f.kind) && AllStorable(f.kind, items) && Filled(f, before, items, a, 0)
    requires HasAt(data, q, Counted(PackedFrom(f.kind, items, 0))) && q + |Counted(PackedFrom(f.kind, items, 0))| <= limit <= |data|
    requires |PackedFrom(f.kind, items, 0)| < TWO32 && items != []
    ensures ValidArray(f, a)
    ensures var r := ParseArray(data, q, limit, 2, f, a);
      && (r.Some? <==> |before| + |items| <= MaxCount(f.rule))
      && (r.Some? ==> Filled(f, before, items, r.value.0, |items|) && r.value.1 == q + |Counted(PackedFrom(f.kind, items, 0))|)
  {
    hide *;
    FilledBounds(f, before, items, a, 0);
    PackedParsed(data, q, limit, f, a);
    var body := PackedFrom(f.kind, items, 0);
    CountedSurvives(data, q, limit, body);
    PackedSurvives(data, q + |EncodeVarint(|body|)|, q + |Counted(body)|, f, before, items, a, 0);
  }

  lemma PackedParsed(data: seq<byte>, q: nat, limit: nat, f: Field, a: Array)
    requires ValidField(f) && ValidKind(f.kind) && IsArray(f.rule) && Packable(f.kind) && ValidArray(f, a) && q <= limit <= |data|
    ensures var sub := ParseDelimited(data, q, limit);
      ParseArray(data, q, limit, 2, f, a) ==
        if sub.None? then None
        else
          var a' := ParsePacked(data, sub.value.0, sub.value.1, f, a);
          if a'.None? then None else Some((a'.value, sub.value.1))
  {
    hide ParsePacked, ParseDelimited, ValidArray, ValidKind;
  }

  /** The bytes of field i take the decoder past that field, or stop it there. */
  ghost predicate FieldRead(data: seq<byte>, p: nat, limit: nat, d: Descriptor, base: seq<Slot>, m: seq<Slot>, pr: Progress, i: nat, bs: seq<byte>, next: Progress)
    requires ValidDescriptor(d) && Holds(d, base, true) && Holds(d, m, false) && i < |d.fields| && ValidProgress(d, pr)
    requires p + |bs| <= limit <= |data|
  {
    if FitsAt(d, base, m, i) then
      && Ready(d, base, m, next, i + 1) && next.fixed == FixedAfter(d, pr, i)
      && ParseMessage(data, p, limit, d, pr) == ParseMessage(data, p + |bs|, limit, d, next)
    else
      ParseMessage(data, p, limit, d, pr) == None
  }

  lemma PackedFits(d: Descriptor, base: seq<Slot>, m: seq<Slot>, i: nat)
    requires ValidDescriptor(d) && Holds(d, base, true) && Holds(d, m, false) && i < |d.fields| && IsArray(d.fields[i].rule)
    requires Packable(d.fields[i].kind) && !AbsentAt(d, m, i)
    ensures SlotOf(d.fields, i) < |m| && m[SlotOf(d.fields, i)].Many? && SlotOf(d.fields, i) < |base|
    ensures var f, s := d.fields[i], SlotOf(d.fields, i);
      FitsAt(d, base, m, i) <==> |Before(f, base[s])| + |m[s].items| <= MaxCount(f.rule)
  {
    ArrayAt(d, base, m, i);
    var k, items := d.fields[i].kind, m[SlotOf(d.fields, i)].items;
    assert ItemsFit(k, items, 0) by {
      ZeroStorable(k);
      hide Storable;
    }
    hide Holds, ItemsFit, Storable;
  }

  lemma PackedArraySurvives(data: seq<byte>, p: nat, limit: nat, d: Descriptor, base: seq<Slot>, m: seq<Slot>, pr: Progress, i: nat, bs: seq<byte>)
    returns (next: Progress)
    requires ValidDescriptor(d) && Holds(d, base, true) && Holds(d, m, false) && i < |d.fields| && IsArray(d.fields[i].rule)
    requires !AbsentAt(d, m, i) && Packable(d.fields[i].kind) && Partway(d, base, m, pr, i, 0)
    requires SlotOf(d.fields, i) < |m| && m[SlotOf(d.fields, i)].Many? && ValidKind(d.fields[i].kind) && AllStorable(d.fields[i].kind, m[SlotOf(d.fields, i)].items)
    requires bs == Key(d.fields[i].tag, Delimited) + Counted(PackedFrom(d.fields[i].kind, m[SlotOf(d.fields, i)].items, 0))
    requires HasAt(data, p, bs) && p + |bs| <= limit <= |data| && |bs| < TWO32
    ensures ValidProgress(d, pr) && FieldRead(data, p, limit, d, base, m, pr, i, bs, next)
  {
    hide *;
    ArrayAt(d, base, m, i);
    PartwayFilled(d, base, m, pr, i, 0);
    PackedFits(d, base, m, i);
    CountsWhenPresent(d, m, i);
    var f, s := d.fields[i], SlotOf(d.fields, i);
    var before, items := Before(f, base[s]), m[s].items;
    var w, body := Delimited, Counted(PackedFrom(f.kind, items, 0));
    PackedSizes(data, p, limit, f, items, bs);
    KeySurvives(data, p, limit, f, w, body);
    ArrayRecord(data, p, limit, d, base, m, pr, i, 0, w, body);
    PackedRead(data, p + |Key(f.tag, w)|, limit, f, before, items, ArrayOf(d, pr, i));
    var r := ParseArray(data, p + |Key(f.tag, w)|, limit, WireNumber(w), f, ArrayOf(d, pr, i));
    next := pr;
    if r.Some? {
      ArrayStored(d, base, m, pr, i, 0, r.value.0, |items|);
      next := StoreArray(d, pr, i, r.value.0);
      ArrayEnds(d, base, m, next, i);
    }
    ReadsField(data, p, limit, d, base, m, pr, i, bs, next);
  }

  lemma PackedSizes(data: seq<byte>, p: nat, limit: nat, f: Field, items: seq<Value>, bs: seq<byte>)
    requires Packable(f.kind) && ValidKind(f.kind) && AllStorable(f.kind, items) && 1 <= f.tag <= MAX_TAG
    requires bs == Key(f.tag, Delimited) + Counted(PackedFrom(f.kind, items, 0))
    requires HasAt(data, p, bs) && p + |bs| <= limit <= |data| && |bs| < TWO32
    ensures RecordAt(data, p, limit, f, Delimited, Counted(PackedFrom(f.kind, items, 0)))
    ensures |PackedFrom(f.kind, items, 0)| < TWO32 && WireNumber(Delimited) == 2
    ensures |bs| == |Key(f.tag, Delimited)| + |Counted(PackedFrom(f.kind, items, 0))|
  {
    hide HasAt, PackedFrom, Key, Storable;
  }

  lemma PartwayFilled(d: Descriptor, base: seq<Slot>, m: seq<Slot>, pr: Progress, i: nat, n: nat)
    requires ValidDescriptor(d) && Holds(d, base, true) && Holds(d, m, false) && i < |d.fields| && IsArray(d.fields[i].rule)
    requires Partway(d, base, m, pr, i, n)
    ensures var f, s := d.fields[i], SlotOf(d.fields, i);
      && s < |m| && s < |base| && m[s].Many? && ValidKind(f.kind) && AllStorable(f.kind, m[s].items) && ValidProgress(d, pr)
      && ValidArray(f, ArrayOf(d, pr, i)) && Filled(f, Before(f, base[s]), m[s].items, ArrayOf(d, pr, i), n)
  {
    ArrayAt(d, base, m, i);
    hide Filled, MergedTo, Holds, SlotOf, Storable;
  }

  lemma ReadsField(data: seq<byte>, p: nat, limit: nat, d: Descriptor, base: seq<Slot>, m: seq<Slot>, pr: Progress, i: nat, bs: seq<byte>, next: Progress)
    requires ValidDescriptor(d) && Holds(d, base, true) && Holds(d, m, false) && i < |d.fields| && ValidProgress(d, pr)
    requires p + |bs| <= limit <= |data|
    requires FitsAt(d, base, m, i) ==>
      && Ready(d, base, m, next, i + 1) && next.fixed == (if d.fields[i].rule.FixedCount? && Counts(d, i) then Some(i) else pr.fixed)
      && ParseMessage(data, p, limit, d, pr) == ParseMessage(data, p + |bs|, limit, d, next)
    requires !FitsAt(d, base, m, i) ==> ParseMessage(data, p, limit, d, pr) == None
    ensures FieldRead(data, p, limit, d, base, m, pr, i, bs, next)
  {
    hide ParseMessage, Ready, FitsAt, Holds, ValidProgress, ValidDescriptor;
  }

  // ---- elements one by one ----

  lemma {:induction false} EachSurvives(data: seq<byte>, p: nat, limit: nat, d: Descriptor, base: seq<Slot>, m: seq<Slot>, pr: Progress, i: nat, n: nat)
    returns (next: Progress)
    requires ValidDescriptor(d) && Holds(d, base, true) && Holds(d, m, false) && i < |d.fields| && IsArray(d.fields[i].rule)
    requires !AbsentAt(d, m, i) && !Packable(d.fields[i].kind) && Partway(d, base, m, pr, i, n)
    requires SlotOf(d.fields, i) < |m| && m[SlotOf(d.fields, i)].Many? && SlotOf(d.fields, i) < |base|
    requires ValidKind(d.fields[i].kind) && AllStorable(d.fields[i].kind, m[SlotOf(d.fields, i)].items)
    requires n <= |m[SlotOf(d.fields, i)].items| && AllFit(d.fields[i].kind, m[SlotOf(d.fields, i)].items, false)
    requires var bs := EachFrom(d.fields[i], m[SlotOf(d.fields, i)].items, n);
      HasAt(data, p, bs) && p + |bs| <= limit <= |data| && |bs| < TWO32
    ensures ValidProgress(d, pr)
    ensures var f, s := d.fields[i], SlotOf(d.fields, i);
      var bs := EachFrom(f, m[s].items, n);
      if |Before(f, base[s])| + |m[s].items| <= MaxCount(f.rule) && ItemsFit(f.kind, m[s].items, n) then
        && Ready(d, base, m, next, i + 1) && next.fixed == FixedAfter(d, pr, i)
        && ParseMessage(data, p, limit, d, pr) == ParseMessage(data, p + |bs|, limit, d, next)
      else
        ParseMessage(data, p, limit, d, pr) == None
    decreases d, 0, 0, |m[SlotOf(d.fields, i)].items| - n
  {
    hide *;
    ArrayAt(d, base, m, i);
    PartwayFilled(d, base, m, pr, i, n);
    var f, s := d.fields[i], SlotOf(d.fields, i);
    var before, items := Before(f, base[s]), m[s].items;
    FilledBounds(f, before, items, ArrayOf(d, pr, i), n);
    ItemsFitStep(f.kind, items, n);
    EachSplits(f, items, n);
    CountsWhenPresent(d, m, i);
    if n == |items| {
      ArrayEnds(d, base, m, pr, i);
      FixedByNow(d, base, m, pr, i, n);
      next := pr;
    } else {
      var w, body, rest := WireOf(f.kind), EncodeValue(f.kind, items[n]), EachFrom(f, items, n + 1);
      var q := p + |Key(f.tag, w)|;
      ItemAt(f.kind, items, n);
      RecordOfItem(data, p, limit, f, w, body, rest);
      KeySurvives(data, p, limit, f, w, body);
      ArrayRecord(data, p, limit, d, base, m, pr, i, n, w, body);
      ItemRead(data, q, limit, f, before, items, n, ArrayOf(d, pr, i));
      var r := ParseArray(data, q, limit, WireNumber(w), f, ArrayOf(d, pr, i));
      next := pr;
      if r.Some? {
        var pr' := StoreArray(d, pr, i, r.value.0);
        ArrayStored(d, base, m, pr, i, n, r.value.0, n + 1);
        next := EachSurvives(data, q + |body|, limit, d, base, m, pr', i, n + 1);
        SameFixedAfter(d, pr, pr', i);
      }
    }
  }

  lemma SameFixedAfter(d: Descriptor, pr: Progress, pr': Progress, i: nat)
    requires i < |d.fields| && pr'.fixed == if d.fields[i].rule.FixedCount? then Some(i) else pr.fixed
    requires d.fields[i].rule.FixedCount? ==> Counts(d, i)
    ensures FixedAfter(d, pr', i) == FixedAfter(d, pr, i)
  {
  }

  lemma FixedByNow(d: Descriptor, base: seq<Slot>, m: seq<Slot>, pr: Progress, i: nat, n: nat)
    requires ValidDescriptor(d) && Holds(d, base, true) && Holds(d, m, false) && i < |d.fields| && IsArray(d.fields[i].rule)
    requires Partway(d, base, m, pr, i, n) && n > 0
    ensures pr.fixed == FixedAfter(d, pr, i)
  {
    hide MergedTo, Holds, Filled;
  }

  lemma ItemsFitStep(k: Kind, items: seq<Value>, n: nat)
    requires ValidKind(k) && AllStorable(k, items) && n <= |items|
    ensures Storable(k, Zero(k), true)
    ensures n == |items| ==> ItemsFit(k, items, n)
    ensures n < |items| ==> Storable(k, items[n], false) && (ItemsFit(k, items, n) <==> FitsOnto(k, Zero(k), items[n]) && ItemsFit(k, items, n + 1))
  {
    ZeroStorable(k);
    hide Storable, FitsOnto, Zero, ValidKind;
  }

  lemma RecordOfItem(data: seq<byte>, p: nat, limit: nat, f: Field, w: Wire, body: seq<byte>, rest: seq<byte>)
    requires HasAt(data, p, (Key(f.tag, w) + body) + rest) && p + |(Key(f.tag, w) + body) + rest| <= limit <= |data|
    requires 1 <= f.tag <= MAX_TAG
    ensures RecordAt(data, p, limit, f, w, body) && HasAt(data, p + |Key(f.tag, w)| + |body|, rest)
  {
    HasParts(data, p, Key(f.tag, w) + body, rest);
  }

  lemma ItemAt(k: Kind, items: seq<Value>, n: nat)
    requires AllStorable(k, items) && AllFit(k, items, false) && n < |items|
    ensures Storable(k, items[n], false) && FitsValue(k, items[n], false)
  {
    hide Storable, FitsValue;
  }

  lemma EachSplits(f: Field, items: seq<Value>, n: nat)
    requires ValidKind(f.kind) && AllStorable(f.kind, items) && n <= |items|
    ensures n == |items| ==> EachFrom(f, items, n) == []
    ensures n < |items| ==> EachFrom(f, items, n) == (Key(f.tag, WireOf(f.kind)) + EncodeValue(f.kind, items[n])) + EachFrom(f, items, n + 1)
  {
  }

  lemma {:induction false} ItemRead(data: seq<byte>, q: nat, limit: nat, f: Field, before: seq<Value>, items: seq<Value>, n: nat, a: Array)
    requires ValidField(f) && ValidKind(f.kind) && IsArray(f.rule) && !Packable(f.kind) && AllStorable(f.kind, items)
    requires Filled(f, before, items, a, n) && n < |items| && FitsValue(f.kind, items[n], false) && Storable(f.kind, Zero(f.kind), true)
    requires HasAt(data, q, EncodeValue(f.kind, items[n])) && q + |EncodeValue(f.kind, items[n])| <= limit <= |data|
    requires |EncodeValue(f.kind, items[n])| < TWO32
    ensures ValidArray(f, a)
    ensures var r := ParseArray(data, q, limit, WireNumber(WireOf(f.kind)), f, a);
      && (r.Some? <==> a.count < MaxCount(f.rule) && FitsOnto(f.kind, Zero(f.kind), items[n]))
      && (r.Some? ==> Filled(f, before, items, r.value.0, n + 1) && r.value.1 == q + |EncodeValue(f.kind, items[n])|)
    decreases f
  {
    FilledBounds(f, before, items, a, n);
    ItemParsed(data, q, limit, f, a);
    hide *;
    if a.count < MaxCount(f.rule) {
      ValueSurvives(data, q, limit, f.kind, items[n], Zero(f.kind));
      var r := ParseValue(data, q, limit, f.kind, Zero(f.kind));
      if r.Some? {
        OneMoreFilled(f, before, items, a, n, r.value.0);
      }
    }
  }

  lemma ItemParsed(data: seq<byte>, q: nat, limit: nat, f: Field, a: Array)
    requires q <= limit <= |data| && ValidField(f) && ValidKind(f.kind) && IsArray(f.rule) && !Packable(f.kind)
    requires ValidArray(f, a) && Storable(f.kind, Zero(f.kind), true)
    ensures var v := ParseValue(data, q, limit, f.kind, Zero(f.kind));
      ParseArray(data, q, limit, WireNumber(WireOf(f.kind)), f, a) ==
        if a.count >= MaxCount(f.rule) || v.None? then None else Some((Array(Put(a.items, a.count, v.value.0), a.count + 1), v.value.1))
  {
    hide ParseValue, Zero, Storable, Put, ValidKind;
  }

  // ---- values, fields and messages ----

  /** A value is merged with the one before, unless a string has no room for its NUL. */
  lemma {:induction false} ValueSurvives(data: seq<byte>, p: nat, limit: nat, k: Kind, v: Value, prior: Value)
    requires ValidKind(k) && Storable(k, v, false) && FitsValue(k, v, false) && Storable(k, prior, true)
    requires HasAt(data, p, EncodeValue(k, v)) && p + |EncodeValue(k, v)| <= limit <= |data| && |EncodeValue(k, v)| < TWO32
    ensures var r := ParseValue(data, p, limit, k, prior);
      && (r.Some? <==> FitsOnto(k, prior, v))
      && (r.Some? ==> MergedValue(k, prior, v, r.value.0) && r.value.1 == p + |EncodeValue(k, v)|)
    decreases k
  {
    hide HasAt, Holds, ParseMessage, ParseDelimited, ParseScalar, ParseBlob, Fits, Merged, MessageFitsOnto, Defaults, EncodeScalar, EncodeVarint, EncodeFrom, ValidDescriptor;
    if Packable(k) {
      ScalarSurvives(data, p, limit, k, v);
    } else if IsBlob(k) {
      BlobSurvives(data, p, limit, k, v);
    } else {
      SubmessageSurvives(data, p, limit, k.descriptor, prior.slots, v.slots);
    }
  }

  lemma {:induction false} SubmessageSurvives(data: seq<byte>, p: nat, limit: nat, d: Descriptor, base: seq<Slot>, m: seq<Slot>)
    requires ValidDescriptor(d) && Holds(d, base, true) && Holds(d, m, false) && Fits(d, m, false)
    requires HasAt(data, p, Counted(Encode(d, m))) && p + |Counted(Encode(d, m))| <= limit <= |data|
    requires |Encode(d, m)| < TWO32
    ensures var sub := ParseDelimited(data, p, limit);
      && sub.Some? && sub.value.1 == p + |Counted(Encode(d, m))|
      && Merges(data, sub.value.0, sub.value.1, d, base, m)
    decreases d, 4
  {
    hide HasAt, Holds, Fits, Encode, ParseDelimited, ParseVarint32, Merges, ValidDescriptor, EncodeVarint;
    CountedSurvives(data, p, limit, Encode(d, m));
    MessageSurvives(data, p + |EncodeVarint(|Encode(d, m)|)|, p + |Counted(Encode(d, m))|, d, base, m);
  }

  /** Decoding the bytes from p to `end` into `base` merges the message with it. */
  ghost predicate Merges(data: seq<byte>, p: nat, end: nat, d: Descriptor, base: seq<Slot>, m: seq<Slot>)
    requires ValidDescriptor(d) && Holds(d, base, true) && Holds(d, m, false) && p <= end <= |data|
  {
    var r := ParseMessage(data, p, end, d, Start(base));
    && (r.Some? <==> MessageFitsOnto(d, base, m))
    && (r.Some? ==> r.value.1 == end && Merged(d, base, m, r.value.0))
  }

  lemma {:induction false} MessageSurvives(data: seq<byte>, p: nat, end: nat, d: Descriptor, base: seq<Slot>, m: seq<Slot>)
    requires ValidDescriptor(d) && Holds(d, base, true) && Holds(d, m, false) && Fits(d, m, false)
    requires HasAt(data, p, Encode(d, m)) && end == p + |Encode(d, m)| <= |data| && |Encode(d, m)| < TWO32
    ensures Merges(data, p, end, d, base, m)
    decreases d, 3
  {
    hide *;
    StartsReady(d, base, m);
    WholeMessage(d, base, m);
    var next := FieldsSurvive(data, p, end, d, base, m, Start(base), 0);
    if FitsFrom(d, base, m, 0) {
      ReadyProgress(d, base, m, next, |d.fields|);
      NothingLeft(data, end, d, base, m, next);
    }
    MergesAll(data, p, end, d, base, m);
  }

  lemma WholeMessage(d: Descriptor, base: seq<Slot>, m: seq<Slot>)
    requires ValidDescriptor(d) && Holds(d, base, true) && Holds(d, m, false)
    ensures Encode(d, m) == EncodeFrom(d, m, 0) && Unblocked(d, Start(base), 0)
    ensures FitsFrom(d, base, m, 0) <==> MessageFitsOnto(d, base, m)
  {
    hide Holds, FitsAt, ValidDescriptor;
  }

  lemma MergesAll(data: seq<byte>, p: nat, end: nat, d: Descriptor, base: seq<Slot>, m: seq<Slot>)
    requires ValidDescriptor(d) && Holds(d, base, true) && Holds(d, m, false) && p <= end <= |data| && ValidProgress(d, Start(base))
    requires var r := ParseMessage(data, p, end, d, Start(base));
      if MessageFitsOnto(d, base, m) then r.Some? && r.value.1 == end && Merged(d, base, m, r.value.0) else r.None?
    ensures Merges(data, p, end, d, base, m)
  {
    hide Holds, MessageFitsOnto, Merged, ParseMessage, ValidDescriptor;
  }

  lemma NothingLeft(data: seq<byte>, end: nat, d: Descriptor, base: seq<Slot>, m: seq<Slot>, pr: Progress)
    requires ValidDescriptor(d) && Holds(d, base, true) && Holds(d, m, false) && Ready(d, base, m, pr, |d.fields|) && end <= |data|
    ensures ParseMessage(data, end, end, d, pr) == Some((pr.m, end)) && Merged(d, base, m, pr.m)
  {
    EndsMerged(d, base, m, pr, end);
  }

  /** The bytes of the fields from i on take the decoder past them all, or stop it. */
  lemma {:induction false} FieldsSurvive(data: seq<byte>, p: nat, limit: nat, d: Descriptor, base: seq<Slot>, m: seq<Slot>, pr: Progress, i: nat)
    returns (next: Progress)
    requires ValidDescriptor(d) && Holds(d, base, true) && Holds(d, m, false) && Fits(d, m, false) && i <= |d.fields|
    requires Ready(d, base, m, pr, i) && Unblocked(d, pr, i)
    requires HasAt(data, p, EncodeFrom(d, m, i)) && p + |EncodeFrom(d, m, i)| <= limit <= |data| && |EncodeFrom(d, m, i)| < TWO32
    ensures if FitsFrom(d, base, m, i) then
        && Ready(d, base, m, next, |d.fields|) && next.fixed == FixedFrom(d, pr.fixed, i)
        && ParseMessage(data, p, limit, d, pr) == ParseMessage(data, p + |EncodeFrom(d, m, i)|, limit, d, next)
      else ParseMessage(data, p, limit, d, pr) == None
    decreases d, 2, |d.fields| - i
  {
    hide *;
    EncodeSplits(d, m, i);
    FitsStep(d, base, m, i);
    FixedEnds(d, pr.fixed);
    next := pr;
    if i < |d.fields| {
      var bs, rest := EncodeField(d.fields[i], m[SlotOf(d.fields, i)]), EncodeFrom(d, m, i + 1);
      HasParts(data, p, bs, rest);
      UnblockedStep(d, pr, i);
      next := FieldSurvives(data, p, limit, d, base, m, pr, i, bs);
      FieldWasRead(data, p, limit, d, base, m, pr, i, bs, next);
      if FitsAt(d, base, m, i) {
        UnblockedAfter(d, pr, next, i);
        next := FieldsSurvive(data, p + |bs|, limit, d, base, m, next, i + 1);
      }
    }
  }

  lemma FieldWasRead(data: seq<byte>, p: nat, limit: nat, d: Descriptor, base: seq<Slot>, m: seq<Slot>, pr: Progress, i: nat, bs: seq<byte>, next: Progress)
    requires ValidDescriptor(d) && Holds(d, base, true) && Holds(d, m, false) && i < |d.fields| && ValidProgress(d, pr)
    requires p + |bs| <= limit <= |data| && FieldRead(data, p, limit, d, base, m, pr, i, bs, next)
    ensures FitsAt(d, base, m, i) ==>
      && Ready(d, base, m, next, i + 1) && next.fixed == FixedAfter(d, pr, i) && ValidProgress(d, next)
      && ParseMessage(data, p, limit, d, pr) == ParseMessage(data, p + |bs|, limit, d, next)
    ensures !FitsAt(d, base, m, i) ==> ParseMessage(data, p, limit, d, pr) == None
  {
    hide FitsAt, Holds, ValidDescriptor, FixedAfter, ParseMessage, MergedTo, SeenBefore;
  }

  lemma EncodeSplits(d: Descriptor, m: seq<Slot>, i: nat)
    requires ValidDescriptor(d) && Holds(d, m, false) && i <= |d.fields|
    ensures i == |d.fields| ==> EncodeFrom(d, m, i) == []
    ensures i < |d.fields| ==>
      && SlotOf(d.fields, i) < |m| && HoldsField(d.fields[i], m[SlotOf(d.fields, i)], false) && ValidField(d.fields[i]) && ValidKind(d.fields[i].kind)
      && EncodeFrom(d, m, i) == EncodeField(d.fields[i], m[SlotOf(d.fields, i)]) + EncodeFrom(d, m, i + 1)
  {
    if i < |d.fields| {
      Held(d, m, i, false);
      KindOf(d.fields[i]);
    }
    hide Holds, EncodeField;
  }

  lemma FitsStep(d: Descriptor, base: seq<Slot>, m: seq<Slot>, i: nat)
    requires ValidDescriptor(d) && Holds(d, base, true) && Holds(d, m, false) && i <= |d.fields|
    ensures i == |d.fields| ==> FitsFrom(d, base, m, i)
    ensures i < |d.fields| ==> (FitsFrom(d, base, m, i) <==> FitsAt(d, base, m, i) && FitsFrom(d, base, m, i + 1))
  {
    hide Holds, FitsAt, ValidDescriptor;
  }

  lemma UnblockedStep(d: Descriptor, pr: Progress, i: nat)
    requires Unblocked(d, pr, i) && i < |d.fields|
    ensures Counts(d, i) ==> pr.fixed != Some(i)
    ensures FixedFrom(d, pr.fixed, i) == FixedFrom(d, FixedAfter(d, pr, i), i + 1)
  {
  }

  lemma FixedEnds(d: Descriptor, fixed: Option<nat>)
    ensures FixedFrom(d, fixed, |d.fields|) == fixed
  {
  }

  lemma UnblockedAfter(d: Descriptor, pr: Progress, next: Progress, i: nat)
    requires Unblocked(d, pr, i) && i < |d.fields| && next.fixed == FixedAfter(d, pr, i)
    ensures Unblocked(d, next, i + 1)
  {
    if next.fixed.Some? && next.fixed.value >= i + 1 {
      var y: nat :| i <= y < next.fixed.value && Counts(d, y);
      assert y != i;
    }
  }

  lemma {:induction false} FieldSurvives(data: seq<byte>, p: nat, limit: nat, d: Descriptor, base: seq<Slot>, m: seq<Slot>, pr: Progress, i: nat, bs: seq<byte>)
    returns (next: Progress)
    requires ValidDescriptor(d) && Holds(d, base, true) && Holds(d, m, false) && Fits(d, m, false) && i < |d.fields| && Ready(d, base, m, pr, i)
    requires Counts(d, i) ==> pr.fixed != Some(i)
    requires SlotOf(d.fields, i) < |m| && HoldsField(d.fields[i], m[SlotOf(d.fields, i)], false) && ValidKind(d.fields[i].kind)
    requires bs == EncodeField(d.fields[i], m[SlotOf(d.fields, i)]) && HasAt(data, p, bs) && p + |bs| <= limit <= |data| && |bs| < TWO32
    ensures ValidProgress(d, pr) && FieldRead(data, p, limit, d, base, m, pr, i, bs, next)
    decreases d, 1
  {
    hide *;
    ReadyProgress(d, base, m, pr, i);
    if AbsentAt(d, m, i) {
      AbsentRead(data, p, limit, d, base, m, pr, i, bs);
      next := pr;
    } else if IsArray(d.fields[i].rule) {
      ArrayStarts(d, base, m, pr, i);
      next := ArraySurvives(data, p, limit, d, base, m, pr, i, bs);
    } else {
      next := SingleSurvives(data, p, limit, d, base, m, pr, i, bs);
    }
  }

  lemma ReadyProgress(d: Descriptor, base: seq<Slot>, m: seq<Slot>, pr: Progress, i: nat)
    requires ValidDescriptor(d) && Holds(d, base, true) && Holds(d, m, false) && i <= |d.fields| && Ready(d, base, m, pr, i)
    ensures ValidProgress(d, pr)
  {
  }

  lemma AbsentRead(data: seq<byte>, p: nat, limit: nat, d: Descriptor, base: seq<Slot>, m: seq<Slot>, pr: Progress, i: nat, bs: seq<byte>)
    requires ValidDescriptor(d) && Holds(d, base, true) && Holds(d, m, false) && i < |d.fields| && Ready(d, base, m, pr, i) && AbsentAt(d, m, i)
    requires SlotOf(d.fields, i) < |m| && HoldsField(d.fields[i], m[SlotOf(d.fields, i)], false) && ValidKind(d.fields[i].kind)
    requires bs == EncodeField(d.fields[i], m[SlotOf(d.fields, i)]) && p + |bs| <= limit <= |data|
    ensures ValidProgress(d, pr) && FieldRead(data, p, limit, d, base, m, pr, i, bs, pr)
  {
    AbsentStands(d, base, m, pr, i);
    Held(d, base, i, true);
    AbsentLeavesNothing(d.fields[i], base[SlotOf(d.fields, i)], m[SlotOf(d.fields, i)]);
    hide Holds, ParseMessage, FieldFitsOnto, MergedTo, EncodeField;
  }

  lemma {:induction false} ArraySurvives(data: seq<byte>, p: nat, limit: nat, d: Descriptor, base: seq<Slot>, m: seq<Slot>, pr: Progress, i: nat, bs: seq<byte>)
    returns (next: Progress)
    requires ValidDescriptor(d) && Holds(d, base, true) && Holds(d, m, false) && Fits(d, m, false) && i < |d.fields| && IsArray(d.fields[i].rule)
    requires !AbsentAt(d, m, i) && Partway(d, base, m, pr, i, 0)
    requires SlotOf(d.fields, i) < |m| && HoldsField(d.fields[i], m[SlotOf(d.fields, i)], false) && ValidKind(d.fields[i].kind)
    requires bs == EncodeField(d.fields[i], m[SlotOf(d.fields, i)]) && HasAt(data, p, bs) && p + |bs| <= limit <= |data| && |bs| < TWO32
    ensures ValidProgress(d, pr) && FieldRead(data, p, limit, d, base, m, pr, i, bs, next)
    decreases d, 0, 1
  {
    hide *;
    ArrayAt(d, base, m, i);
    PartwayFilled(d, base, m, pr, i, 0);
    ArrayBytes(d, m, i);
    if Packable(d.fields[i].kind) {
      next := PackedArraySurvives(data, p, limit, d, base, m, pr, i, bs);
    } else {
      next := EachSurvives(data, p, limit, d, base, m, pr, i, 0);
      EachFits(d, base, m, i);
      EachRead(data, p, limit, d, base, m, pr, i, bs, next);
    }
  }

  lemma EachRead(data: seq<byte>, p: nat, limit: nat, d: Descriptor, base: seq<Slot>, m: seq<Slot>, pr: Progress, i: nat, bs: seq<byte>, next: Progress)
    requires ValidDescriptor(d) && Holds(d, base, true) && Holds(d, m, false) && i < |d.fields| && ValidProgress(d, pr)
    requires p + |bs| <= limit <= |data|
    requires FitsAt(d, base, m, i) ==>
      && Ready(d, base, m, next, i + 1) && next.fixed == FixedAfter(d, pr, i)
      && ParseMessage(data, p, limit, d, pr) == ParseMessage(data, p + |bs|, limit, d, next)
    requires !FitsAt(d, base, m, i) ==> ParseMessage(data, p, limit, d, pr) == None
    ensures FieldRead(data, p, limit, d, base, m, pr, i, bs, next)
  {
    hide ParseMessage, Ready, FitsAt, Holds, ValidProgress, ValidDescriptor, FixedAfter;
  }

  lemma EachFits(d: Descriptor, base: seq<Slot>, m: seq<Slot>, i: nat)
    requires ValidDescriptor(d) && Holds(d, base, true) && Holds(d, m, false) && i < |d.fields| && IsArray(d.fields[i].rule) && !AbsentAt(d, m, i)
    requires SlotOf(d.fields, i) < |m| && m[SlotOf(d.fields, i)].Many? && SlotOf(d.fields, i) < |base|
    requires ValidKind(d.fields[i].kind) && AllStorable(d.fields[i].kind, m[SlotOf(d.fields, i)].items)
    ensures var f, s := d.fields[i], SlotOf(d.fields, i);
      FitsAt(d, base, m, i) <==> |Before(f, base[s])| + |m[s].items| <= MaxCount(f.rule) && ItemsFit(f.kind, m[s].items, 0)
  {
    ArrayAt(d, base, m, i);
    hide Holds, ItemsFit, Storable, AbsentAt;
  }

  lemma ArrayBytes(d: Descriptor, m: seq<Slot>, i: nat)
    requires ValidDescriptor(d) && Holds(d, m, false) && Fits(d, m, false) && i < |d.fields| && IsArray(d.fields[i].rule)
    requires SlotOf(d.fields, i) < |m| && HoldsField(d.fields[i], m[SlotOf(d.fields, i)], false) && ValidKind(d.fields[i].kind)
    requires !AbsentAt(d, m, i)
    ensures var f, slot := d.fields[i], m[SlotOf(d.fields, i)];
      && slot.Many? && AllStorable(f.kind, slot.items) && AllFit(f.kind, slot.items, false)
      && (Packable(f.kind) ==> EncodeField(f, slot) == Key(f.tag, Delimited) + Counted(PackedFrom(f.kind, slot.items, 0)))
      && (!Packable(f.kind) ==> EncodeField(f, slot) == EachFrom(f, slot.items, 0))
  {
    Held(d, m, i, false);
    assert FitsField(d.fields[i], m[SlotOf(d.fields, i)], false);
    hide Holds, Storable, Fits, FitsValue, EachFrom, PackedFrom, Key;
  }

  // ---- single values ----

  /** What a single field's record is read into and what comes of it. */
  lemma {:induction false} SingleRead(data: seq<byte>, q: nat, limit: nat, f: Field, slot: Slot, base: Slot)
    requires ValidField(f) && !IsArray(f.rule) && HoldsField(f, slot, false) && !Absent(f, slot) && !slot.Many? && FitsField(f, slot, false)
    requires HoldsField(f, base, true) && ValidKind(f.kind) && Storable(f.kind, slot.v, false)
    requires HasAt(data, q, EncodeValue(f.kind, slot.v)) && q + |EncodeValue(f.kind, slot.v)| <= limit <= |data|
    requires |EncodeValue(f.kind, slot.v)| < TWO32
    ensures var r := ParseSingle(data, q, limit, f, base);
      && (r.Some? <==> FieldFitsOnto(f, base, slot))
      && (r.Some? ==> MergedField(f, base, slot, r.value.0) && r.value.1 == q + |EncodeValue(f.kind, slot.v)|)
    decreases f
  {
    SingleFits(f, slot, base);
    SingleParsed(data, q, limit, f, base);
    hide *;
    ValueSurvives(data, q, limit, f.kind, slot.v, Prior(f, base));
    var v := ParseValue(data, q, limit, f.kind, Prior(f, base));
    if v.Some? {
      PresentMerged(f, slot, base, v.value.0);
    }
  }

  lemma SingleParsed(data: seq<byte>, q: nat, limit: nat, f: Field, slot: Slot)
    requires q <= limit <= |data| && ValidField(f) && !IsArray(f.rule) && HoldsField(f, slot, true)
    ensures ValidKind(f.kind)
    ensures var v := ParseValue(data, q, limit, f.kind, Prior(f, slot));
      ParseSingle(data, q, limit, f, slot) == if v.None? then None else Some((Present(f, v.value.0), v.value.1))
  {
    hide ParseValue, Prior, Present, Storable;
  }

  lemma PresentMerged(f: Field, slot: Slot, base: Slot, v: Value)
    requires ValidField(f) && ValidKind(f.kind) && HoldsField(f, slot, false) && HoldsField(f, base, true) && !IsArray(f.rule) && !Absent(f, slot)
    requires !slot.Many? && Storable(f.kind, slot.v, false) && Storable(f.kind, Prior(f, base), true) && MergedValue(f.kind, Prior(f, base), slot.v, v)
    ensures MergedField(f, base, slot, Present(f, v))
  {
    hide Storable, MergedValue, Zero, ValidField, ValidKind;
  }

  lemma SingleFits(f: Field, slot: Slot, base: Slot)
    requires ValidField(f) && ValidKind(f.kind) && HoldsField(f, slot, false) && HoldsField(f, base, true) && !IsArray(f.rule) && !Absent(f, slot)
    ensures !slot.Many? && Storable(f.kind, slot.v, false)
    ensures FitsField(f, slot, false) <==> FitsValue(f.kind, slot.v, false)
    ensures FieldFitsOnto(f, base, slot) <==> FitsOnto(f.kind, Prior(f, base), slot.v)
  {
    hide Storable, FitsValue, FitsOnto, Zero, ValidKind;
  }

  lemma {:induction false} SingleSurvives(data: seq<byte>, p: nat, limit: nat, d: Descriptor, base: seq<Slot>, m: seq<Slot>, pr: Progress, i: nat, bs: seq<byte>)
    returns (next: Progress)
    requires ValidDescriptor(d) && Holds(d, base, true) && Holds(d, m, false) && Fits(d, m, false) && i < |d.fields| && Ready(d, base, m, pr, i)
    requires !IsArray(d.fields[i].rule) && !AbsentAt(d, m, i)
    requires SlotOf(d.fields, i) < |m| && HoldsField(d.fields[i], m[SlotOf(d.fields, i)], false) && ValidKind(d.fields[i].kind)
    requires bs == EncodeField(d.fields[i], m[SlotOf(d.fields, i)]) && HasAt(data, p, bs) && p + |bs| <= limit <= |data| && |bs| < TWO32
    ensures ValidProgress(d, pr) && FieldRead(data, p, limit, d, base, m, pr, i, bs, next)
    decreases d, 0
  {
    hide *;
    SingleAt(d, base, m, pr, i);
    var f, s := d.fields[i], SlotOf(d.fields, i);
    var slot := m[s];
    var w, body := WireOf(f.kind), EncodeValue(f.kind, slot.v);
    assert (Key(f.tag, w) + body) + [] == Key(f.tag, w) + body;
    RecordOfItem(data, p, limit, f, w, body, []);
    KeySurvives(data, p, limit, f, w, body);
    SingleRead(data, p + |Key(f.tag, w)|, limit, f, slot, base[s]);
    SingleRecord(data, p, limit, d, pr, i, w, body);
    var r := ParseSingle(data, p + |Key(f.tag, w)|, limit, f, base[s]);
    next := pr;
    if r.Some? {
      SingleMerged(d, base, m, pr.m, i, r.value.0);
      SingleStored(d, base, m, pr, i, r.value.0);
      next := StoreSingle(d, pr, i, r.value.0);
      StoredFixed(d, pr, i, r.value.0);
    }
    FitsAtField(d, base, m, i);
    EachRead(data, p, limit, d, base, m, pr, i, bs, next);
  }

  lemma FitsAtField(d: Descriptor, base: seq<Slot>, m: seq<Slot>, i: nat)
    requires ValidDescriptor(d) && Holds(d, base, true) && Holds(d, m, false) && i < |d.fields|
    ensures SlotOf(d.fields, i) < |m| && SlotOf(d.fields, i) < |base| && ValidField(d.fields[i])
    ensures HoldsField(d.fields[i], m[SlotOf(d.fields, i)], false) && HoldsField(d.fields[i], base[SlotOf(d.fields, i)], true)
    ensures FitsAt(d, base, m, i) == FieldFitsOnto(d.fields[i], base[SlotOf(d.fields, i)], m[SlotOf(d.fields, i)])
  {
    Held(d, base, i, true);
    Held(d, m, i, false);
  }

  lemma StoredFixed(d: Descriptor, pr: Progress, i: nat, slot: Slot)
    requires ValidDescriptor(d) && ValidProgress(d, pr) && i < |d.fields| && HoldsField(d.fields[i], slot, true) && !IsArray(d.fields[i].rule)
    requires d.fields[i].rule.Oneof? ==> slot.which == d.fields[i].tag
    ensures StoreSingle(d, pr, i, slot).fixed == FixedAfter(d, pr, i)
  {
    hide Holds, HoldsField;
  }

  lemma SingleMerged(d: Descriptor, base: seq<Slot>, m: seq<Slot>, r: seq<Slot>, i: nat, slot: Slot)
    requires ValidDescriptor(d) && Holds(d, base, true) && Holds(d, m, false) && i < |d.fields| && |r| == SlotCount(d.fields)
    requires SlotOf(d.fields, i) < |m| && SlotOf(d.fields, i) < |base| && SlotOf(d.fields, i) < |r| && ValidField(d.fields[i])
    requires HoldsField(d.fields[i], base[SlotOf(d.fields, i)], true) && HoldsField(d.fields[i], m[SlotOf(d.fields, i)], false)
    requires MergedField(d.fields[i], base[SlotOf(d.fields, i)], m[SlotOf(d.fields, i)], slot)
    ensures MergedAt(d, base, m, r[SlotOf(d.fields, i) := slot], i)
  {
    hide Holds, HoldsField, MergedField, ValidField, ValidDescriptor;
  }

  /** The decoder's loop turns a record of a single field over to it. */
  lemma SingleRecord(data: seq<byte>, p: nat, limit: nat, d: Descriptor, pr: Progress, i: nat, w: Wire, body: seq<byte>)
    requires ValidDescriptor(d) && ValidProgress(d, pr) && i < |d.fields| && !IsArray(d.fields[i].rule)
    requires RecordAt(data, p, limit, d.fields[i], w, body) && ValidKind(d.fields[i].kind)
    requires SlotOf(d.fields, i) < |pr.m| && HoldsField(d.fields[i], pr.m[SlotOf(d.fields, i)], true)
    ensures var r := ParseSingle(data, p + |Key(d.fields[i].tag, w)|, limit, d.fields[i], pr.m[SlotOf(d.fields, i)]);
      && (r.Some? ==> HoldsField(d.fields[i], r.value.0, true) && (d.fields[i].rule.Oneof? ==> r.value.0.which == d.fields[i].tag))
      && ParseMessage(data, p, limit, d, pr) ==
           if r.None? then None else ParseMessage(data, r.value.1, limit, d, StoreSingle(d, pr, i, r.value.0))
  {
    RecordParsed(data, p, limit, d, pr, i, w, body);
    hide ParseMessage, ParseSingle, StoreSingle, HasAt, Key, Holds, HoldsField;
  }

  lemma SingleAt(d: Descriptor, base: seq<Slot>, m: seq<Slot>, pr: Progress, i: nat)
    requires ValidDescriptor(d) && Holds(d, base, true) && Holds(d, m, false) && Fits(d, m, false) && i < |d.fields| && Ready(d, base, m, pr, i)
    requires SlotOf(d.fields, i) < |m| && HoldsField(d.fields[i], m[SlotOf(d.fields, i)], false) && ValidKind(d.fields[i].kind)
    requires !IsArray(d.fields[i].rule) && !AbsentAt(d, m, i)
    ensures var f, slot := d.fields[i], m[SlotOf(d.fields, i)];
      && !slot.Many? && ValidField(f) && Storable(f.kind, slot.v, false) && 1 <= f.tag <= MAX_TAG && !Absent(f, slot)
      && EncodeField(f, slot) == Key(f.tag, WireOf(f.kind)) + EncodeValue(f.kind, slot.v)
      && FitsField(f, slot, false)
    ensures var s := SlotOf(d.fields, i);
      && ValidProgress(d, pr) && |pr.m| == SlotCount(d.fields) && s < |pr.m| && s < |base|
      && pr.m[s] == base[s] && HoldsField(d.fields[i], base[s], true)
  {
    PresentUntouched(d, m, i);
    Held(d, base, i, true);
    Held(d, pr.m, i, true);
    hide HasAt, EncodeValue, Storable, Untouched;
  }
}
