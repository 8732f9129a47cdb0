/** What nanopb's encoder writes, as a function of the message (the Encoding document of Protocol
    Buffers: "Base 128 Varints", "Signed Integers", "Length-Delimited Records", "Packed Repeated
    Fields"). */
module ProtoEncoding {
  import opened Coding
  import opened ProtoSchema

  datatype Wire = Varint0 | Bits64 | Delimited | Bits32

  function WireNumber(w: Wire): nat {
    match w
    case Varint0 => 0
    case Bits64 => 1
    case Delimited => 2
    case Bits32 => 5
  }

  function WireOf(k: Kind): Wire {
    match k
    case Fixed32 => Bits32
    case Fixed64 => Bits64
    case Bytes(_) => Delimited
    case String(_) => Delimited
    case Submessage(_) => Delimited
    case FixedBytes(_) => Delimited
    case _ => Varint0
  }

  function Key(tag: nat, w: Wire): seq<byte> {
    EncodeVarint(8 * tag + WireNumber(w))
  }

  function ZigZag(n: int): nat {
    if n < 0 then -2 * n - 1 else 2 * n
  }

  /** A 64-bit variable's value as an unsigned number. */
  function Unsigned64(n: int): nat
    requires -(TWO64 / 2) <= n < TWO64
  {
    if n < 0 then n + TWO64 else n
  }

  function Counted(bs: seq<byte>): (r: seq<byte>)
    ensures |r| > |bs|
  {
    EncodeVarint(|bs|) + bs
  }

  // ---- is a value the one that a proto3 message leaves out? ----

  predicate IsDefaultValue(k: Kind, v: Value)
    requires Storable(k, v, false)
    decreases k
  {
    match k
    case Bytes(_) => v.bytes == []
    case String(_) => v.bytes == []
    case FixedBytes(size) => size == 0
    case Submessage(d) => IsDefaultMessage(d, v.slots)
    case _ => v.n == 0
  }

  predicate IsDefaultMessage(d: Descriptor, m: seq<Slot>)
    requires Holds(d, m, false)
    decreases d
  {
    forall i :: 0 <= i < |d.fields| ==> IsDefault(d.fields[i], m[SlotOf(d.fields, i)])
  }

  predicate IsDefault(f: Field, slot: Slot)
    requires HoldsField(f, slot, false)
    decreases f
  {
    match f.rule
    case Required => false
    case Optional => !slot.has
    case Singular => IsDefaultValue(f.kind, slot.v)
    case Repeated(_) => slot.items == []
    case FixedCount(_) => false
    case Oneof(_) => slot.which == 0
  }

  // ---- the bytes of what is present ----

  function EncodeScalar(k: Kind, v: Value): (bs: seq<byte>)
    requires Packable(k) && Storable(k, v, false) && ValidKind(k)
    ensures bs != []
  {
    match k
    case Bool => EncodeVarint(v.n)
    case Varint(_) => EncodeVarint(Unsigned64(v.n))
    case UVarint(_) => EncodeVarint(v.n)
    case SVarint(_) => EncodeVarint(ZigZag(v.n))
    case Fixed32 => EncodeFixed32(v.n)
    case Fixed64 => EncodeFixed64(v.n)
  }

  function EncodeValue(k: Kind, v: Value): (bs: seq<byte>)
    requires Storable(k, v, false) && ValidKind(k)
    ensures bs != []
    decreases k
  {
    match k
    case Bytes(_) => Counted(v.bytes)
    case String(_) => Counted(v.bytes)
    case FixedBytes(_) => Counted(v.bytes)
    case Submessage(d) => Counted(EncodeFrom(d, v.slots, 0))
    case _ => EncodeScalar(k, v)
  }

  function Tagged(f: Field, v: Value): seq<byte>
    requires Storable(f.kind, v, false) && ValidKind(f.kind)
    decreases f, 0
  {
    Key(f.tag, WireOf(f.kind)) + EncodeValue(f.kind, v)
  }

  predicate AllStorable(k: Kind, items: seq<Value>) {
    forall x :: x in items ==> Storable(k, x, false)
  }

  function PackedFrom(k: Kind, items: seq<Value>, i: nat): seq<byte>
    requires Packable(k) && ValidKind(k) && AllStorable(k, items) && i <= |items|
    decreases |items| - i
  {
    if i == |items| then [] else EncodeScalar(k, items[i]) + PackedFrom(k, items, i + 1)
  }

  function EachFrom(f: Field, items: seq<Value>, i: nat): seq<byte>
    requires ValidKind(f.kind) && AllStorable(f.kind, items) && i <= |items|
    decreases f, 1, |items| - i
  {
    if i == |items| then [] else Tagged(f, items[i]) + EachFrom(f, items, i + 1)
  }

  /** Arrays are packed when their elements allow it; an empty one leaves no trace. */
  function EncodeArray(f: Field, items: seq<Value>): seq<byte>
    requires ValidKind(f.kind) && AllStorable(f.kind, items)
    decreases f, 2
  {
    if items == [] then []
    else if Packable(f.kind) then Key(f.tag, Delimited) + Counted(PackedFrom(f.kind, items, 0))
    else EachFrom(f, items, 0)
  }

  function EncodeField(f: Field, slot: Slot): seq<byte>
    requires HoldsField(f, slot, false) && ValidKind(f.kind)
    decreases f, 3
  {
    match f.rule
    case Required => Tagged(f, slot.v)
    case Optional => if slot.has then Tagged(f, slot.v) else []
    case Singular => if IsDefault(f, slot) then [] else Tagged(f, slot.v)
    case Repeated(_) => EncodeArray(f, slot.items)
    case FixedCount(_) => EncodeArray(f, slot.items)
    case Oneof(_) => if slot.which == f.tag then Tagged(f, slot.v) else []
  }

  /** The fields from the i-th on. */
  function EncodeFrom(d: Descriptor, m: seq<Slot>, i: nat): seq<byte>
    requires ValidDescriptor(d) && Holds(d, m, false) && i <= |d.fields|
    decreases d, |d.fields| - i
  {
    if i == |d.fields| then []
    else
      assert ValidField(d.fields[i]);
      EncodeField(d.fields[i], m[SlotOf(d.fields, i)]) + EncodeFrom(d, m, i + 1)
  }

  function Encode(d: Descriptor, m: seq<Slot>): seq<byte>
    requires ValidDescriptor(d) && Holds(d, m, false)
  {
    EncodeFrom(d, m, 0)
  }

  // ---- whether what is present stays within its buffers ----

  /** Sizes and counts are within bounds: all that the encoder looks at.  With `ended`, strings
      also leave room for their NUL. */
  predicate FitsValue(k: Kind, v: Value, ended: bool)
    requires Storable(k, v, false)
    decreases k
  {
    match k
    case Bytes(capacity) => |v.bytes| <= capacity
    case String(size) => ended ==> |v.bytes| < size
    case Submessage(d) => Fits(d, v.slots, ended)
    case _ => true
  }

  predicate FitsField(f: Field, slot: Slot, ended: bool)
    requires HoldsField(f, slot, false)
    decreases f
  {
    match f.rule
    case Required => FitsValue(f.kind, slot.v, ended)
    case Optional => slot.has ==> FitsValue(f.kind, slot.v, ended)
    case Singular => IsDefault(f, slot) || FitsValue(f.kind, slot.v, ended)
    case Repeated(max) => |slot.items| <= max && forall x :: x in slot.items ==> FitsValue(f.kind, x, ended)
    case FixedCount(_) => forall x :: x in slot.items ==> FitsValue(f.kind, x, ended)
    case Oneof(_) => slot.which == f.tag ==> FitsValue(f.kind, slot.v, ended)
  }

  predicate Fits(d: Descriptor, m: seq<Slot>, ended: bool)
    requires Holds(d, m, false)
    decreases d
  {
    forall i :: 0 <= i < |d.fields| ==> FitsField(d.fields[i], m[SlotOf(d.fields, i)], ended)
  }

  predicate AllFit(k: Kind, items: seq<Value>, ended: bool)
    requires AllStorable(k, items)
  {
    forall x :: x in items ==> FitsValue(k, x, ended)
  }
}
