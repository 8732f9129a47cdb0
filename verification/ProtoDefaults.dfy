/** Which values a proto3 message leaves out. */
module ProtoDefaults {
  import opened Options
  import opened ProtoSchema
  import opened ProtoEncoding
  import opened ProtoRoundTrip

  /** Kinds whose default value is left out: not bytes of a fixed length, nor messages with a field that is always
      written. */
  predicate LeavesOut(k: Kind)
    decreases k
  {
    match k
    case FixedBytes(size) => size == 0
    case Submessage(d) => forall f :: f in d.fields ==> LeavesField(f)
    case _ => true
  }

  predicate LeavesField(f: Field)
    decreases f
  {
    !f.rule.Required? && !f.rule.FixedCount? && (f.rule.Singular? ==> LeavesOut(f.kind))
  }

  /** The selectors of unions name one of their members, or none. */
  predicate NoStray(k: Kind, v: Value)
    requires Storable(k, v, false)
    decreases k, 1
  {
    k.Submessage? ==> forall i: nat :: i < |k.descriptor.fields| ==> NoStrayField(k, v, i)
  }

  predicate NoStrayField(k: Kind, v: Value, i: nat)
    requires k.Submessage? && Storable(k, v, false) && i < |k.descriptor.fields|
    decreases k, 0
  {
    var fs := k.descriptor.fields;
    Held(k.descriptor, v.slots, i, false);
    var slot := v.slots[SlotOf(fs, i)];
    match fs[i].rule
    case Oneof(_) => slot.which == 0 || exists j :: 0 <= j < |fs| && IsMember(fs, i, j) && fs[j].tag == slot.which
    case Singular => NoStray(fs[i].kind, slot.v)
    case _ => true
  }

  /** Field j is in the union of field i. */
  predicate IsMember(fs: seq<Field>, i: nat, j: nat)
    requires i < |fs| && j < |fs|
  {
    fs[j].rule.Oneof? && SlotOf(fs, j) == SlotOf(fs, i)
  }

  /** A proto3 message leaves out exactly the values that are the same as the default, of the kinds for which that
      can be. */
  lemma {:induction false} LeftOutExactly(k: Kind, v: Value)
    requires Storable(k, v, false) && ValidKind(k)
    ensures IsDefaultValue(k, v) <==> LeavesOut(k) && SameValue(k, v, Zero(k)) && NoStray(k, v)
    decreases k, 1
  {
    if k.Submessage? {
      DefaultsHold(k.descriptor);
      forall i: nat | i < |k.descriptor.fields|
        ensures FieldLeftOut(k, v, i)
      {
        FieldLeftOutExactly(k, v, i);
      }
      hide *;
      LeftOutSame(k, v);
      SameLeftOut(k, v);
    }
  }

  /** Field i of the message is left out exactly if it is the same as its default, but for unions of which another
      member may be set. */
  ghost predicate FieldLeftOut(k: Kind, v: Value, i: nat)
    requires k.Submessage? && Storable(k, v, false) && i < |k.descriptor.fields|
  {
    Held(k.descriptor, v.slots, i, false);
    var f, slot := k.descriptor.fields[i], v.slots[SlotOf(k.descriptor.fields, i)];
    var same := LeavesField(f) && SameField(f, slot, InitialSlot(f)) && NoStrayField(k, v, i);
    && (IsDefault(f, slot) ==> same)
    && (same && !(f.rule.Oneof? && slot.which != 0) ==> IsDefault(f, slot))
  }

  lemma {:induction false} FieldLeftOutExactly(k: Kind, v: Value, i: nat)
    requires k.Submessage? && Storable(k, v, false) && ValidKind(k) && i < |k.descriptor.fields|
    ensures FieldLeftOut(k, v, i)
    decreases k, 0
  {
    var f := k.descriptor.fields[i];
    Held(k.descriptor, v.slots, i, false);
    assert ValidField(f);
    if f.rule.Singular? {
      LeftOutExactly(f.kind, v.slots[SlotOf(k.descriptor.fields, i)].v);
    }
  }

  /** Where field i stands in the message and in the defaults. */
  lemma DefaultSlot(k: Kind, v: Value, i: nat)
    requires k.Submessage? && Storable(k, v, false) && i < |k.descriptor.fields|
    ensures var d, s := k.descriptor, SlotOf(k.descriptor.fields, i);
      && |v.slots| == SlotCount(d.fields) == |Defaults(d)| && s < |v.slots| && Defaults(d)[s] == InitialSlot(d.fields[i])
      && HoldsField(d.fields[i], v.slots[s], false)
  {
    var d := k.descriptor;
    MessageSlots(k, v);
    AtDefault(d, i);
    hide *;
    Held(d, v.slots, i, false);
  }

  lemma MessageSlots(k: Kind, v: Value)
    requires k.Submessage? && Storable(k, v, false)
    ensures v.Message? && Holds(k.descriptor, v.slots, false) && |v.slots| == SlotCount(k.descriptor.fields)
  {
    hide HoldsField, SlotOf, SlotCount;
  }

  lemma AtDefault(d: Descriptor, i: nat)
    requires i < |d.fields|
    ensures |Defaults(d)| == SlotCount(d.fields)
    ensures SlotOf(d.fields, i) < |Defaults(d)| && Defaults(d)[SlotOf(d.fields, i)] == InitialSlot(d.fields[i])
  {
    DefaultsAt(d, |d.fields|, i);
    hide DefaultsTo, SlotOf, InitialSlot;
  }

  lemma LeftOutSame(k: Kind, v: Value)
    requires k.Submessage? && Storable(k, v, false)
    requires forall i: nat :: i < |k.descriptor.fields| ==> FieldLeftOut(k, v, i)
    ensures IsDefaultValue(k, v) ==> LeavesOut(k) && SameValue(k, v, Zero(k)) && NoStray(k, v)
  {
    var d, m := k.descriptor, v.slots;
    if IsDefaultValue(k, v) {
      forall i: nat | i < |d.fields|
        ensures LeavesField(d.fields[i]) && NoStrayField(k, v, i)
        ensures SlotOf(d.fields, i) < |m| == |Defaults(d)| == SlotCount(d.fields)
        ensures SameField(d.fields[i], m[SlotOf(d.fields, i)], Defaults(d)[SlotOf(d.fields, i)])
      {
        hide *;
        DefaultSlot(k, v, i);
        DefaultAt(k, v, i);
      }
      LeavesEach(d);
      assert NoStray(k, v);
      assert LeavesOut(k);
      assert Same(d, m, Defaults(d));
      hide IsDefault, SameField, LeavesField, LeavesOut, NoStrayField, HoldsField, Defaults;
    }
  }

  lemma LeavesEach(d: Descriptor)
    ensures LeavesOut(Submessage(d)) <==> forall i: nat :: i < |d.fields| ==> LeavesField(d.fields[i])
  {
    hide LeavesField;
  }

  lemma DefaultAt(k: Kind, v: Value, i: nat)
    requires k.Submessage? && Storable(k, v, false) && i < |k.descriptor.fields| && FieldLeftOut(k, v, i)
    requires IsDefaultValue(k, v)
    ensures LeavesField(k.descriptor.fields[i]) && NoStrayField(k, v, i) && SlotOf(k.descriptor.fields, i) < |v.slots|
    ensures SameField(k.descriptor.fields[i], v.slots[SlotOf(k.descriptor.fields, i)], InitialSlot(k.descriptor.fields[i]))
  {
    Held(k.descriptor, v.slots, i, false);
    assert IsDefaultMessage(k.descriptor, v.slots);
    hide LeavesField, SameField, NoStrayField;
  }

  lemma SameLeftOut(k: Kind, v: Value)
    requires k.Submessage? && Storable(k, v, false)
    requires forall i: nat :: i < |k.descriptor.fields| ==> FieldLeftOut(k, v, i)
    ensures LeavesOut(k) && SameValue(k, v, Zero(k)) && NoStray(k, v) ==> IsDefaultValue(k, v)
  {
    var d, m := k.descriptor, v.slots;
    if LeavesOut(k) && SameValue(k, v, Zero(k)) && NoStray(k, v) {
      forall i: nat | i < |d.fields|
        ensures SlotOf(d.fields, i) < |m| && HoldsField(d.fields[i], m[SlotOf(d.fields, i)], false) && IsDefault(d.fields[i], m[SlotOf(d.fields, i)])
      {
        DefaultSlot(k, v, i);
        SameAt(k, v, i);
        hide *;
        OneLeftOut(k, v, i);
      }
      hide IsDefault, HoldsField;
    }
  }

  lemma SameAt(k: Kind, v: Value, i: nat)
    requires k.Submessage? && Storable(k, v, false) && SameValue(k, v, Zero(k)) && LeavesOut(k) && i < |k.descriptor.fields|
    ensures SlotOf(k.descriptor.fields, i) < |v.slots| && LeavesField(k.descriptor.fields[i])
    ensures SameField(k.descriptor.fields[i], v.slots[SlotOf(k.descriptor.fields, i)], InitialSlot(k.descriptor.fields[i]))
  {
    DefaultSlot(k, v, i);
    hide SameField, LeavesField, Storable, Defaults;
  }

  lemma OneLeftOut(k: Kind, v: Value, i: nat)
    requires k.Submessage? && Storable(k, v, false) && i < |k.descriptor.fields| && FieldLeftOut(k, v, i)
    requires LeavesOut(k) && SameValue(k, v, Zero(k)) && NoStrayField(k, v, i)
    ensures SlotOf(k.descriptor.fields, i) < |v.slots| && HoldsField(k.descriptor.fields[i], v.slots[SlotOf(k.descriptor.fields, i)], false)
    ensures IsDefault(k.descriptor.fields[i], v.slots[SlotOf(k.descriptor.fields, i)])
  {
    var d := k.descriptor;
    DefaultSlot(k, v, i);
    SameAt(k, v, i);
    var slot := v.slots[SlotOf(d.fields, i)];
    if d.fields[i].rule.Oneof? && slot.which != 0 {
      var j :| 0 <= j < |d.fields| && IsMember(d.fields, i, j) && d.fields[j].tag == slot.which;
      SameAt(k, v, j);
      assert false;
    }
    hide Holds, LeavesField, SameField, NoStrayField, Storable;
  }
}
