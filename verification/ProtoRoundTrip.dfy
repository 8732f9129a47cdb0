/** Decoding an encoded message restores everything that is present in it. */
module ProtoRoundTrip {
  import opened Options
  import opened Coding
  import opened ProtoSchema
  import opened ProtoIteration
  import opened ProtoEncoding
  import opened ProtoVarints
  import opened ProtoParsing
  import opened ProtoNumbers
  import opened ProtoMerging

  // ---- the same message, as far as it is present ----

  predicate SameValue(k: Kind, a: Value, b: Value)
    decreases k, 0
  {
    if k.Submessage? then a.Message? && b.Message? && Same(k.descriptor, a.slots, b.slots) else a == b
  }

  predicate SameItems(k: Kind, a: seq<Value>, b: seq<Value>)
    decreases k, 1
  {
    |a| == |b| && forall i :: 0 <= i < |a| ==> SameValue(k, a[i], b[i])
  }

  /** The same presence, count and content; what is absent has its default. */
  predicate SameField(f: Field, a: Slot, b: Slot)
    decreases f
  {
    match f.rule
    case Required => a.One? && b.One? && SameValue(f.kind, a.v, b.v)
    case Singular => a.One? && b.One? && SameValue(f.kind, a.v, b.v)
    case Optional => a.Maybe? && b.Maybe? && a.has == b.has && if a.has then SameValue(f.kind, a.v, b.v) else b.v == Initial(f)
    case Repeated(_) => a.Many? && b.Many? && SameItems(f.kind, a.items, b.items)
    case FixedCount(_) => a.Many? && b.Many? && SameItems(f.kind, a.items, b.items)
    case Oneof(_) =>
      && a.Choice? && b.Choice? && (a.which == f.tag <==> b.which == f.tag)
      && (a.which == f.tag ==> SameValue(f.kind, a.v, b.v))
  }

  predicate Same(d: Descriptor, a: seq<Slot>, b: seq<Slot>)
    decreases d
  {
    && |a| == |b| == SlotCount(d.fields)
    && forall i :: 0 <= i < |d.fields| ==> SlotOf(d.fields, i) < |a| && SameField(d.fields[i], a[SlotOf(d.fields, i)], b[SlotOf(d.fields, i)])
  }

  // ---- what is left out is restored by defaults ----

  lemma {:induction false} DefaultValueRestored(k: Kind, v: Value)
    requires Storable(k, v, false) && ValidKind(k) && IsDefaultValue(k, v)
    ensures SameValue(k, v, Zero(k))
    decreases k
  {
    match k
    case Submessage(d) =>
      DefaultsHold(d);
      forall i | 0 <= i < |d.fields|
        ensures SlotOf(d.fields, i) < |v.slots| && SameField(d.fields[i], v.slots[SlotOf(d.fields, i)], Defaults(d)[SlotOf(d.fields, i)])
      {
        Held(d, v.slots, i, false);
        assert ValidField(d.fields[i]);
        DefaultsAt(d, |d.fields|, i);
        DefaultFieldRestored(d.fields[i], v.slots[SlotOf(d.fields, i)]);
      }
    case _ =>
  }

  lemma {:induction false} DefaultFieldRestored(f: Field, slot: Slot)
    requires HoldsField(f, slot, false) && ValidField(f) && IsDefault(f, slot)
    ensures SameField(f, slot, InitialSlot(f))
    decreases f
  {
    if f.rule.Singular? {
      DefaultValueRestored(f.kind, slot.v);
    }
  }

  // ---- merging with defaults ----

  lemma {:induction false} MergedIsSameValue(k: Kind, v: Value, r: Value)
    requires ValidKind(k) && Storable(k, v, false) && Storable(k, Zero(k), true) && MergedValue(k, Zero(k), v, r)
    ensures SameValue(k, v, r)
    decreases k
  {
    if k.Submessage? {
      MergedIsSame(k.descriptor, v.slots, r.slots);
    }
  }

  lemma {:induction false} MergedFieldIsSame(f: Field, slot: Slot, r: Slot)
    requires ValidField(f) && HoldsField(f, InitialSlot(f), true) && HoldsField(f, slot, false) && !Absent(f, slot)
    requires MergedField(f, InitialSlot(f), slot, r)
    ensures SameField(f, slot, r)
    decreases f
  {
    KindOf(f);
    ZeroStorable(f.kind);
    if IsArray(f.rule) {
      forall x | 0 <= x < |slot.items|
        ensures x < |r.items| && SameValue(f.kind, slot.items[x], r.items[x])
      {
        MergedIsSameValue(f.kind, slot.items[x], r.items[x]);
      }
    } else {
      var prior := if f.rule.Oneof? then Zero(f.kind) else Initial(f);
      assert f.kind.Submessage? ==> prior == Zero(f.kind);
      assert MergedValue(f.kind, Zero(f.kind), slot.v, r.v);
      MergedIsSameValue(f.kind, slot.v, r.v);
    }
  }

  lemma {:induction false} MergedIsSame(d: Descriptor, m: seq<Slot>, r: seq<Slot>)
    requires ValidDescriptor(d) && Holds(d, m, false) && Holds(d, Defaults(d), true) && Merged(d, Defaults(d), m, r)
    ensures Same(d, m, r)
    decreases d
  {
    forall i: nat | i < |d.fields|
      ensures SlotOf(d.fields, i) < |m| && SameField(d.fields[i], m[SlotOf(d.fields, i)], r[SlotOf(d.fields, i)])
    {
      Held(d, m, i, false);
      Held(d, Defaults(d), i, true);
      DefaultsAt(d, |d.fields|, i);
      assert MergedAt(d, Defaults(d), m, r, i);
      var f, s := d.fields[i], SlotOf(d.fields, i);
      if AbsentAt(d, m, i) {
        AbsentRestored(d, m, r, i);
      } else {
        MergedFieldIsSame(f, m[s], r[s]);
      }
    }
  }

  /** An absent field has its default, or another member of its union is present. */
  lemma AbsentRestored(d: Descriptor, m: seq<Slot>, r: seq<Slot>, i: nat)
    requires ValidDescriptor(d) && Holds(d, m, false) && Holds(d, Defaults(d), true) && Merged(d, Defaults(d), m, r)
    requires i < |d.fields| && AbsentAt(d, m, i)
    ensures SlotOf(d.fields, i) < |m| == |r| && SameField(d.fields[i], m[SlotOf(d.fields, i)], r[SlotOf(d.fields, i)])
  {
    var f, s := d.fields[i], SlotOf(d.fields, i);
    Held(d, m, i, false);
    DefaultsAt(d, |d.fields|, i);
    AbsentDefault(f, m[s]);
    hide Holds, ValidDescriptor, Defaults, SameField, AbsentAt, MergedAt, InitialSlot;
    if !Untouched(d, m, s, |d.fields|) {
      var j: nat :| j < |d.fields| && SlotOf(d.fields, j) == s && !AbsentAt(d, m, j);
      OtherMember(d, m, r, i, j);
    }
  }

  lemma AbsentDefault(f: Field, slot: Slot)
    requires HoldsField(f, slot, false) && ValidField(f) && Absent(f, slot)
    ensures SameField(f, slot, InitialSlot(f))
  {
    if f.rule.Singular? {
      DefaultFieldRestored(f, slot);
    }
  }

  lemma OtherMember(d: Descriptor, m: seq<Slot>, r: seq<Slot>, i: nat, j: nat)
    requires ValidDescriptor(d) && Holds(d, m, false) && Holds(d, Defaults(d), true) && Merged(d, Defaults(d), m, r)
    requires i < |d.fields| && j < |d.fields| && SlotOf(d.fields, i) == SlotOf(d.fields, j) && AbsentAt(d, m, i) && !AbsentAt(d, m, j)
    ensures SlotOf(d.fields, i) < |m| && SameField(d.fields[i], m[SlotOf(d.fields, i)], r[SlotOf(d.fields, i)])
  {
    Held(d, m, i, false);
    Held(d, m, j, false);
    Held(d, Defaults(d), j, true);
    SharedSlot(d.fields, i, j);
    DistinctTags(d, i, j);
    assert MergedAt(d, Defaults(d), m, r, j);
    hide Holds, Storable, MergedValue, SameValue;
  }

  lemma {:induction false} FitsOntoZero(k: Kind, v: Value)
    requires ValidKind(k) && Storable(k, v, false) && Storable(k, Zero(k), true)
    ensures FitsOnto(k, Zero(k), v) <==> FitsValue(k, v, true)
    decreases k
  {
    if k.Submessage? {
      FitsOntoDefaults(k.descriptor, v.slots);
    }
  }

  lemma {:induction false} FieldFitsOntoInitial(f: Field, slot: Slot)
    requires ValidField(f) && HoldsField(f, slot, false) && HoldsField(f, InitialSlot(f), true)
    ensures FieldFitsOnto(f, InitialSlot(f), slot) <==> FitsField(f, slot, true)
    decreases f
  {
    KindOf(f);
    ZeroStorable(f.kind);
    if IsArray(f.rule) {
      forall x | x in slot.items
        ensures Storable(f.kind, x, false) && (FitsOnto(f.kind, Zero(f.kind), x) <==> FitsValue(f.kind, x, true))
      {
        FitsOntoZero(f.kind, x);
      }
      hide FitsOnto, FitsValue, Storable, Zero;
      assert ItemsFit(f.kind, slot.items, 0) <==> AllFit(f.kind, slot.items, true);
    } else {
      assert f.kind.Submessage? && !f.rule.Oneof? ==> Initial(f) == Zero(f.kind);
      if Storable(f.kind, slot.v, false) {
        FitsOntoZero(f.kind, slot.v);
      }
    }
  }

  lemma {:induction false} FitsOntoDefaults(d: Descriptor, m: seq<Slot>)
    requires ValidDescriptor(d) && Holds(d, m, false) && Holds(d, Defaults(d), true)
    ensures MessageFitsOnto(d, Defaults(d), m) <==> Fits(d, m, true)
    decreases d, 1
  {
    forall i: nat | i < |d.fields|
      ensures SlotOf(d.fields, i) < |m| && HoldsField(d.fields[i], m[SlotOf(d.fields, i)], false)
      ensures FitsAt(d, Defaults(d), m, i) <==> FitsField(d.fields[i], m[SlotOf(d.fields, i)], true)
    {
      FieldFitsOntoDefault(d, m, i);
    }
    hide FitsAt, FitsField, HoldsField, Defaults, ValidDescriptor;
  }

  lemma {:induction false} FieldFitsOntoDefault(d: Descriptor, m: seq<Slot>, i: nat)
    requires ValidDescriptor(d) && Holds(d, m, false) && Holds(d, Defaults(d), true) && i < |d.fields|
    ensures SlotOf(d.fields, i) < |m| && HoldsField(d.fields[i], m[SlotOf(d.fields, i)], false)
    ensures FitsAt(d, Defaults(d), m, i) <==> FitsField(d.fields[i], m[SlotOf(d.fields, i)], true)
    decreases d, 0
  {
    Held(d, m, i, false);
    Held(d, Defaults(d), i, true);
    DefaultsAt(d, |d.fields|, i);
    FieldFitsOntoInitial(d.fields[i], m[SlotOf(d.fields, i)]);
    hide Holds, FieldFitsOnto, FitsField, Defaults;
  }

  /** pb_decode after pb_encode: whatever the encoder accepts, of less than 2^32 bytes, comes back with
      the same presence, counts and content, if and only if every string present leaves room for its
      NUL. */
  lemma RoundTrip(d: Descriptor, m: seq<Slot>)
    requires ValidDescriptor(d) && Holds(d, m, false) && Fits(d, m, false) && |Encode(d, m)| < TWO32
    ensures var r := Parse(Encode(d, m), d);
      && (r.Some? <==> Fits(d, m, true))
      && (r.Some? ==> r.value.1 == |Encode(d, m)| && Same(d, m, r.value.0))
  {
    var data := Encode(d, m);
    assert data[0..0 + |data|] == data;
    DefaultsHold(d);
    MessageSurvives(data, 0, |data|, d, Defaults(d), m);
    FitsOntoDefaults(d, m);
    hide Encode, Fits, Holds, ParseMessage, MessageFitsOnto, Merged, Same, ValidDescriptor, Defaults;
    var r := ParseMessage(data, 0, |data|, d, Start(Defaults(d)));
    if r.Some? {
      MergedIsSame(d, m, r.value.0);
    }
  }

  // ---- what was decoded can be encoded ----

  /** A value that the decoder has stored, with nothing unset in it, is within the encoder's bounds. */
  lemma {:induction false} DecodedValueFits(k: Kind, v: Value)
    requires Storable(k, v, true) && Storable(k, v, false)
    ensures FitsValue(k, v, false)
    decreases k
  {
    if k.Submessage? {
      DecodedFits(k.descriptor, v.slots);
    }
  }

  lemma {:induction false} DecodedFieldFits(f: Field, slot: Slot)
    requires HoldsField(f, slot, true) && HoldsField(f, slot, false)
    ensures FitsField(f, slot, false)
    decreases f
  {
    if IsArray(f.rule) {
      forall x | x in slot.items
        ensures FitsValue(f.kind, x, false)
      {
        assert Storable(f.kind, x, false);
        assert Storable(f.kind, x, true);
        DecodedValueFits(f.kind, x);
      }
    } else if !f.rule.Oneof? || slot.which == f.tag {
      DecodedValueFits(f.kind, slot.v);
    }
  }

  /** Whatever the decoder accepts, the encoder accepts again: bytes and arrays that just fit included. */
  lemma {:induction false} DecodedFits(d: Descriptor, m: seq<Slot>)
    requires Holds(d, m, true) && Holds(d, m, false)
    ensures Fits(d, m, false)
    decreases d
  {
    forall i | 0 <= i < |d.fields|
      ensures SlotOf(d.fields, i) < |m| && HoldsField(d.fields[i], m[SlotOf(d.fields, i)], false)
      ensures FitsField(d.fields[i], m[SlotOf(d.fields, i)], false)
    {
      Held(d, m, i, true);
      Held(d, m, i, false);
      DecodedFieldFits(d.fields[i], m[SlotOf(d.fields, i)]);
    }
  }

  // ---- fields the descriptor does not know ----

  lemma {:induction false} VarintSkipped(data: seq<byte>, p: nat, limit: nat, v: nat)
    requires HasAt(data, p, EncodeVarint(v)) && p + |EncodeVarint(v)| <= limit <= |data|
    ensures SkipVarint(data, p, limit) == Some(p + |EncodeVarint(v)|)
    decreases v
  {
    FirstByte(data, p, EncodeVarint(v));
    if v >= 128 {
      HasParts(data, p, [128 + v % 128], EncodeVarint(v / 128));
      VarintSkipped(data, p + 1, limit, v / 128);
    }
  }

  lemma ValueSkipped(data: seq<byte>, p: nat, limit: nat, k: Kind, v: Value)
    requires ValidKind(k) && Storable(k, v, false) && |EncodeValue(k, v)| < TWO32
    requires HasAt(data, p, EncodeValue(k, v)) && p + |EncodeValue(k, v)| <= limit <= |data|
    ensures ParseUnknown(data, p, limit, WireNumber(WireOf(k))) == Some(p + |EncodeValue(k, v)|)
  {
    hide HasAt, EncodeVarint, SkipVarint, ParseDelimited, ParseVarint32, EncodeFrom, Holds, ValidDescriptor, EncodeFixed32, EncodeFixed64, ZigZag;
    match k
    case Bool => VarintSkipped(data, p, limit, v.n);
    case Varint(_) => VarintSkipped(data, p, limit, Unsigned64(v.n));
    case UVarint(_) => VarintSkipped(data, p, limit, v.n);
    case SVarint(_) => VarintSkipped(data, p, limit, ZigZag(v.n));
    case Fixed32 =>
    case Fixed64 =>
    case Submessage(d) => CountedSurvives(data, p, limit, EncodeFrom(d, v.slots, 0));
    case Bytes(_) => CountedSurvives(data, p, limit, v.bytes);
    case String(_) => CountedSurvives(data, p, limit, v.bytes);
    case FixedBytes(_) => CountedSurvives(data, p, limit, v.bytes);
  }

  lemma TaggedLength(f: Field, v: Value)
    requires ValidField(f) && Storable(f.kind, v, false)
    ensures ValidKind(f.kind) && |Tagged(f, v)| == |Key(f.tag, WireOf(f.kind))| + |EncodeValue(f.kind, v)|
  {
    hide Key, EncodeValue, Storable;
  }

  /** A newer sender's field, of whatever kind, does not disturb a decoder that does not know it. */
  lemma UnknownFieldSkipped(data: seq<byte>, p: nat, limit: nat, d: Descriptor, pr: Progress, f: Field, v: Value)
    requires ValidDescriptor(d) && ValidProgress(d, pr) && FindField(d.fields, f.tag) == |d.fields|
    requires ValidField(f) && Storable(f.kind, v, false) && |EncodeValue(f.kind, v)| < TWO32
    requires RecordAt(data, p, limit, f, WireOf(f.kind), EncodeValue(f.kind, v))
    ensures ParseMessage(data, p, limit, d, pr) == ParseMessage(data, p + |Tagged(f, v)|, limit, d, pr)
  {
    hide *;
    TaggedLength(f, v);
    UnknownRecord(data, p, limit, d, pr, f, WireOf(f.kind), EncodeValue(f.kind, v));
    KeySurvives(data, p, limit, f, WireOf(f.kind), EncodeValue(f.kind, v));
    ValueSkipped(data, p + |Key(f.tag, WireOf(f.kind))|, limit, f.kind, v);
  }

  lemma UnknownRecord(data: seq<byte>, p: nat, limit: nat, d: Descriptor, pr: Progress, f: Field, w: Wire, body: seq<byte>)
    requires ValidDescriptor(d) && ValidProgress(d, pr) && FindField(d.fields, f.tag) == |d.fields|
    requires RecordAt(data, p, limit, f, w, body)
    ensures var q := ParseUnknown(data, p + |Key(f.tag, w)|, limit, WireNumber(w));
      ParseMessage(data, p, limit, d, pr) == if q.None? then None else ParseMessage(data, q.value, limit, d, pr)
  {
    hide HasAt, ParseUnknown, ParseMessage, ParseField, FindField, Holds, ValidDescriptor, ValidProgress, ParseVarint32, Storable, EncodeVarint, RecordAt, Key;
    KeySurvives(data, p, limit, f, w, body);
    LoopStep(data, p, limit, d, pr);
    var key := 8 * f.tag + WireNumber(w);
    assert key / 8 == f.tag && key % 8 == WireNumber(w);
  }
}
