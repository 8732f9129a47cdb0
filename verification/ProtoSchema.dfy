/** Message descriptors (nanopb's pb_field_t arrays) and the structs they describe. */
module ProtoSchema {
  import opened Options
  import opened Coding

  /** Sizes are those of the C variable: `size` of an integer or of a string's buffer,
      `capacity` of a byte array's buffer. */
  datatype Kind =
    | Bool
    | Varint(size: nat)
    | UVarint(size: nat)
    | SVarint(size: nat)
    | Fixed32
    | Fixed64
    | Bytes(capacity: nat)
    | String(size: nat)
    | Submessage(descriptor: Descriptor)
    | FixedBytes(size: nat)

  /** `Singular` is an optional field without a has-flag.  A oneof field that `joins` lies in the
      same union as the field before it. */
  datatype Rule =
    | Required
    | Optional
    | Singular
    | Repeated(max: nat)
    | FixedCount(count: nat)
    | Oneof(joins: bool)

  datatype Field = Field(tag: nat, kind: Kind, rule: Rule, initial: Option<Value>)
  datatype Descriptor = Descriptor(fields: seq<Field>)

  /** A string is what precedes its NUL.  `Unset` is memory that nothing has been stored in. */
  datatype Value = Num(n: int) | Data(bytes: seq<byte>) | Message(slots: seq<Slot>) | Unset

  /** The storage of a field, or of all the fields of a union. */
  datatype Slot =
    | One(v: Value)
    | Maybe(has: bool, v: Value)
    | Many(items: seq<Value>)
    | Choice(which: nat, v: Value)

  const MAX_TAG: nat := 0x1fff_ffff

  /** How many values a C integer of this many bytes has. */
  function Modulus(size: nat): nat {
    match size
    case 1 => 0x100
    case 2 => 0x1_0000
    case 4 => TWO32
    case _ => TWO64
  }

  predicate Signed(n: int, size: nat) {
    -(Modulus(size) / 2) <= n < Modulus(size) / 2
  }

  predicate Packable(k: Kind) {
    k.Bool? || k.Varint? || k.UVarint? || k.SVarint? || k.Fixed32? || k.Fixed64?
  }

  predicate IsArray(r: Rule) {
    r.Repeated? || r.FixedCount?
  }

  function MaxCount(r: Rule): nat
    requires IsArray(r)
  {
    if r.Repeated? then r.max else r.count
  }

  // ---- where a field is stored ----

  predicate Joins(fs: seq<Field>, i: nat)
    requires 0 < i < |fs|
  {
    fs[i - 1].rule.Oneof? && fs[i].rule == Oneof(true)
  }

  function SlotOf(fs: seq<Field>, i: nat): nat
    requires i < |fs|
  {
    if i == 0 then 0 else SlotOf(fs, i - 1) + if Joins(fs, i) then 0 else 1
  }

  function SlotCount(fs: seq<Field>): nat {
    if fs == [] then 0 else SlotOf(fs, |fs| - 1) + 1
  }

  function RequiredIndex(fs: seq<Field>, i: nat): nat
    requires i <= |fs|
  {
    if i == 0 then 0 else RequiredIndex(fs, i - 1) + if fs[i - 1].rule.Required? then 1 else 0
  }

  /** A field has storage of its own, except that the fields of one union share theirs. */
  lemma StorageShared(fs: seq<Field>, i: nat)
    requires i < |fs|
    ensures SlotOf(fs, i) == if i == 0 then 0 else if fs[i - 1].rule.Oneof? && fs[i].rule == Oneof(true) then SlotOf(fs, i - 1) else SlotOf(fs, i - 1) + 1
  {
  }

  lemma {:induction false} SlotsGrow(fs: seq<Field>, i: nat, j: nat)
    requires i <= j < |fs|
    ensures SlotOf(fs, i) <= SlotOf(fs, j) < SlotCount(fs)
    ensures i < j && SlotOf(fs, i) == SlotOf(fs, j) ==> fs[i].rule.Oneof? && fs[j].rule.Oneof?
    decreases |fs| - i
  {
    if i < j {
      SlotsGrow(fs, i + 1, j);
    } else if i < |fs| - 1 {
      SlotsGrow(fs, i + 1, |fs| - 1);
    }
  }

  // ---- what a struct can hold ----

  /** `v` is in range for a field of kind `k`; with `tight`, as in a struct that the decoder fills, it also stays
      within its buffer.  (A byte array's size member can claim more than its buffer, and a string can lack a NUL.)
      In such a struct, elements of fixed-count arrays may be unset. */
  predicate Storable(k: Kind, v: Value, tight: bool)
    decreases k
  {
    match k
    case Bool => v.Num? && 0 <= v.n <= 1
    case Varint(size) => v.Num? && Signed(v.n, size)
    case UVarint(size) => v.Num? && 0 <= v.n < Modulus(size)
    case SVarint(size) => v.Num? && Signed(v.n, size)
    case Fixed32 => v.Num? && 0 <= v.n < TWO32
    case Fixed64 => v.Num? && 0 <= v.n < TWO64
    case Bytes(capacity) => v.Data? && (tight ==> |v.bytes| <= capacity)
    case String(size) => v.Data? && 0 !in v.bytes && |v.bytes| <= size && (tight && size > 0 ==> |v.bytes| < size)
    case Submessage(d) => v.Message? && Holds(d, v.slots, tight)
    case FixedBytes(size) => v.Data? && |v.bytes| == size
  }

  predicate HoldsField(f: Field, slot: Slot, tight: bool)
    decreases f
  {
    match f.rule
    case Required => slot.One? && Storable(f.kind, slot.v, tight)
    case Optional => slot.Maybe? && Storable(f.kind, slot.v, tight)
    case Singular => slot.One? && Storable(f.kind, slot.v, tight)
    case Repeated(max) =>
      slot.Many? && (tight ==> |slot.items| <= max)
      && forall x :: x in slot.items ==> Storable(f.kind, x, tight)
    case FixedCount(count) =>
      slot.Many? && |slot.items| == count
      && forall x :: x in slot.items ==> Storable(f.kind, x, tight) || (tight && x.Unset?)
    case Oneof(_) => slot.Choice? && (slot.which == f.tag ==> Storable(f.kind, slot.v, tight))
  }

  predicate Holds(d: Descriptor, m: seq<Slot>, tight: bool)
    decreases d
  {
    |m| == SlotCount(d.fields)
    && forall i :: 0 <= i < |d.fields| ==> SlotOf(d.fields, i) < |m| && HoldsField(d.fields[i], m[SlotOf(d.fields, i)], tight)
  }

  lemma Held(d: Descriptor, m: seq<Slot>, i: nat, tight: bool)
    requires Holds(d, m, tight) && i < |d.fields|
    ensures SlotOf(d.fields, i) < |m| && HoldsField(d.fields[i], m[SlotOf(d.fields, i)], tight)
  {
  }

  // ---- descriptors as the generator writes them ----

  predicate ValidSize(size: nat) {
    size == 1 || size == 2 || size == 4 || size == 8
  }

  predicate ValidKind(k: Kind)
    decreases k
  {
    match k
    case Varint(size) => ValidSize(size)
    case UVarint(size) => ValidSize(size)
    case SVarint(size) => ValidSize(size)
    case Bytes(capacity) => capacity < TWO32
    case String(size) => size < TWO32
    case FixedBytes(size) => size < TWO32
    case Submessage(d) => ValidDescriptor(d)
    case _ => true
  }

  predicate ValidField(f: Field)
    decreases f
  {
    && 1 <= f.tag <= MAX_TAG && ValidKind(f.kind)
    && (f.initial.Some? ==> !f.kind.Submessage? && !f.rule.Singular? && Storable(f.kind, f.initial.value, true))
  }

  predicate ValidDescriptor(d: Descriptor)
    decreases d
  {
    && (forall f :: f in d.fields ==> ValidField(f))
    && forall i, j :: 0 <= i < j < |d.fields| ==> d.fields[i].tag != d.fields[j].tag
  }

  lemma KindOf(f: Field)
    requires ValidField(f)
    ensures ValidKind(f.kind)
  {
  }

  // ---- defaults (pb_message_set_to_defaults) ----

  function Zero(k: Kind): Value
    decreases k
  {
    match k
    case Bytes(_) => Data([])
    case String(_) => Data([])
    case FixedBytes(size) => Data(Zeros(size))
    case Submessage(d) => Message(Defaults(d))
    case _ => Num(0)
  }

  function Initial(f: Field): Value
    decreases f, 0
  {
    if f.initial.Some? then f.initial.value else Zero(f.kind)
  }

  /** The elements of a fixed-count array and the content of a union stay unset. */
  function InitialSlot(f: Field): Slot
    decreases f, 1
  {
    match f.rule
    case Required => One(Initial(f))
    case Singular => One(Initial(f))
    case Optional => Maybe(false, Initial(f))
    case Repeated(_) => Many([])
    case FixedCount(count) => Many(seq(count, _ => Unset))
    case Oneof(_) => Choice(0, Unset)
  }

  function Defaults(d: Descriptor): (m: seq<Slot>)
    decreases d
  {
    DefaultsTo(d, |d.fields|)
  }

  function DefaultsTo(d: Descriptor, n: nat): seq<Slot>
    requires n <= |d.fields|
    decreases d, n
  {
    if n == 0 then []
    else
      var before := DefaultsTo(d, n - 1);
      if n > 1 && Joins(d.fields, n - 1) then before else before + [InitialSlot(d.fields[n - 1])]
  }

  lemma {:induction false} DefaultsAt(d: Descriptor, n: nat, i: nat)
    requires i < n <= |d.fields|
    ensures |DefaultsTo(d, n)| == SlotOf(d.fields, n - 1) + 1
    ensures SlotOf(d.fields, i) < |DefaultsTo(d, n)|
    ensures DefaultsTo(d, n)[SlotOf(d.fields, i)] == InitialSlot(d.fields[i])
    decreases n
  {
    if n > 1 {
      DefaultsAt(d, n - 1, if i < n - 1 then i else n - 2);
      SlotsGrow(d.fields, i, n - 1);
    }
  }

  lemma ZeroIs(k: Kind)
    ensures Zero(k) == match k
      case Bytes(_) => Data([])
      case String(_) => Data([])
      case FixedBytes(size) => Data(seq(size, _ => 0))
      case Submessage(inner) => Message(Defaults(inner))
      case _ => Num(0)
  {
  }

  /** What a struct holds before decoding: the given default or else zero or nothing (see ZeroIs); no flag is set, no
      array has elements, no member of a union is selected. */
  lemma DefaultIs(d: Descriptor, i: nat)
    requires i < |d.fields|
    ensures SlotOf(d.fields, i) < |Defaults(d)|
    ensures var f, slot := d.fields[i], Defaults(d)[SlotOf(d.fields, i)];
      var v := if f.initial.Some? then f.initial.value else Zero(f.kind);
      match f.rule
      case Required => slot == One(v)
      case Singular => slot == One(v)
      case Optional => slot == Maybe(false, v)
      case Repeated(_) => slot == Many([])
      case FixedCount(count) => slot == Many(seq(count, _ => Unset))
      case Oneof(_) => slot == Choice(0, Unset)
  {
    DefaultsAt(d, |d.fields|, i);
    hide Zero, DefaultsTo, SlotOf;
  }

  lemma {:induction false} ZeroStorable(k: Kind)
    requires ValidKind(k)
    ensures Storable(k, Zero(k), true)
    decreases k
  {
    if k.Submessage? {
      DefaultsHold(k.descriptor);
    }
  }

  /** Defaults are in range, where they set anything. */
  lemma {:induction false} DefaultsHold(d: Descriptor)
    requires ValidDescriptor(d)
    ensures Holds(d, Defaults(d), true)
    decreases d
  {
    if d.fields != [] {
      DefaultsAt(d, |d.fields|, 0);
    }
    forall i | 0 <= i < |d.fields|
      ensures SlotOf(d.fields, i) < |Defaults(d)| && HoldsField(d.fields[i], Defaults(d)[SlotOf(d.fields, i)], true)
    {
      var f := d.fields[i];
      DefaultsAt(d, |d.fields|, i);
      assert ValidField(f);
      ZeroStorable(f.kind);
    }
  }
}
