/** The bytes of a message, in the numbers of Protocol Buffers' Encoding document, and what unknown
    records and unusual values are to a decoder. */
module ProtoBytes {
  import opened Options
  import opened Bits
  import opened Coding
  import opened ProtoSchema
  import opened ProtoIteration
  import opened ProtoEncoding
  import opened ProtoParsing

  // ---- numbers ----

  /** Seven bits a byte, the least significant first, all but the last one marked; no more bytes than
      needed. */
  lemma {:induction false} VarintBytes(v: nat, i: nat)
    requires i < |EncodeVarint(v)|
    ensures EncodeVarint(v)[i] == v / Power128(i) % 128 + if i + 1 < |EncodeVarint(v)| then 128 else 0
    ensures v < Power128(|EncodeVarint(v)|) && (|EncodeVarint(v)| > 1 ==> Power128(|EncodeVarint(v)| - 1) <= v)
    decreases v
  {
    if v < 128 {
      assert Power128(1) == 128 * Power128(0);
    } else {
      var rest := EncodeVarint(v / 128);
      VarintBytes(v / 128, if i == 0 then 0 else i - 1);
      if i > 0 {
        DivideTwice(v, 128, Power128(i - 1));
      }
    }
  }

  /** Zigzag: the smaller the number, the smaller what it becomes, whatever its sign. */
  lemma ZigZagOrder(n: int)
    ensures ZigZag(0) == 0 && ZigZag(-1) == 1 && ZigZag(1) == 2 && ZigZag(-2) == 3
    ensures n >= 0 ==> ZigZag(-n - 1) == ZigZag(n) + 1 && ZigZag(n + 1) == ZigZag(n) + 2
  {
  }

  // ---- records ----

  /** A record's key is eight times the tag and the wire type, in numbers: 0 for integers and bools, 1 for
      64-bit values, 2 for what has a length, 5 for 32-bit values. */
  lemma KeyNumber(f: Field, v: Value)
    requires ValidField(f) && Storable(f.kind, v, false)
    ensures ValidKind(f.kind)
    ensures Leads(Tagged(f, v), 8 * f.tag + match f.kind
      case Fixed64 => 1
      case Fixed32 => 5
      case Bytes(_) => 2
      case String(_) => 2
      case Submessage(_) => 2
      case FixedBytes(_) => 2
      case Bool => 0
      case Varint(_) => 0
      case UVarint(_) => 0
      case SVarint(_) => 0, EncodeValue(f.kind, v))
  {
    KindOf(f);
    hide Leads;
    LeadsOn(8 * f.tag + WireNumber(WireOf(f.kind)), EncodeValue(f.kind, v));
  }

  /** What a value's bytes are. */
  lemma ValueBytes(k: Kind, v: Value)
    requires ValidKind(k) && Storable(k, v, false)
    ensures match k
      case Bool => EncodeValue(k, v) == [v.n]
      case Varint(_) => Leads(EncodeValue(k, v), if v.n < 0 then v.n + 0x1_0000_0000_0000_0000 else v.n, [])
      case UVarint(_) => Leads(EncodeValue(k, v), v.n, [])
      case SVarint(_) => Leads(EncodeValue(k, v), if v.n < 0 then -2 * v.n - 1 else 2 * v.n, [])
      case Fixed32 => EncodeValue(k, v) == [v.n % 256, v.n / 256 % 256, v.n / 65536 % 256, v.n / 16777216 % 256]
      case Fixed64 =>
        var low, high := v.n % 0x1_0000_0000, v.n / 0x1_0000_0000;
        EncodeValue(k, v) == [low % 256, low / 256 % 256, low / 65536 % 256, low / 16777216 % 256,
                              high % 256, high / 256 % 256, high / 65536 % 256, high / 16777216 % 256]
      case Submessage(d) => Leads(EncodeValue(k, v), |Encode(d, v.slots)|, Encode(d, v.slots))
      case _ => Leads(EncodeValue(k, v), |v.bytes|, v.bytes)
  {
    hide Leads, EncodeFrom;
    match k
    case Bool =>
    case Varint(_) => LeadsAlone(Unsigned64(v.n));
    case UVarint(_) => LeadsAlone(v.n);
    case SVarint(_) => LeadsAlone(ZigZag(v.n));
    case Fixed32 => FixedLayout(v.n);
    case Fixed64 =>
      FixedLayout(v.n % TWO32);
      FixedLayout(v.n / TWO32);
    case Submessage(d) => LeadsOn(|Encode(d, v.slots)|, Encode(d, v.slots));
    case Bytes(_) => LeadsOn(|v.bytes|, v.bytes);
    case String(_) => LeadsOn(|v.bytes|, v.bytes);
    case FixedBytes(_) => LeadsOn(|v.bytes|, v.bytes);
  }

  /** An array of numbers is one record of wire type 2 with its size and then its elements; any other array is one
      record an element. */
  lemma ArrayBytes(f: Field, items: seq<Value>)
    requires ValidField(f) && ValidKind(f.kind) && AllStorable(f.kind, items) && items != []
    ensures Packable(f.kind) ==>
        exists body, sized :: Leads(EncodeArray(f, items), 8 * f.tag + 2, sized) && Leads(sized, |body|, body) && body == EachValue(f.kind, items)
    ensures !Packable(f.kind) ==> EncodeArray(f, items) == Tagged(f, items[0]) + EncodeArray(f, items[1..])
  {
    if Packable(f.kind) {
      var body := PackedFrom(f.kind, items, 0);
      EachPacked(f.kind, items, 0);
      assert items[0..] == items;
      LeadsOn(|body|, body);
      LeadsOn(8 * f.tag + 2, Counted(body));
    } else {
      EachShifted(f, items, 1);
    }
  }

  function EachValue(k: Kind, items: seq<Value>): seq<byte>
    requires ValidKind(k) && AllStorable(k, items)
  {
    if items == [] then [] else EncodeValue(k, items[0]) + EachValue(k, items[1..])
  }

  lemma {:induction false} EachPacked(k: Kind, items: seq<Value>, i: nat)
    requires Packable(k) && ValidKind(k) && AllStorable(k, items) && i <= |items|
    ensures PackedFrom(k, items, i) == EachValue(k, items[i..])
    decreases |items| - i
  {
    hide Storable, EncodeScalar;
    if i < |items| {
      EachPacked(k, items, i + 1);
      assert items[i..][1..] == items[i + 1..];
    }
  }

  lemma {:induction false} EachShifted(f: Field, items: seq<Value>, i: nat)
    requires ValidKind(f.kind) && AllStorable(f.kind, items) && 1 <= i <= |items|
    ensures EachFrom(f, items, i) == EachFrom(f, items[1..], i - 1)
    decreases |items| - i
  {
    hide Storable, Tagged;
    if i < |items| {
      EachShifted(f, items, i + 1);
    }
  }

  /** What is written at all. */
  lemma WrittenExactly(f: Field, slot: Slot)
    requires ValidField(f) && HoldsField(f, slot, false)
    ensures ValidKind(f.kind)
    ensures EncodeField(f, slot) == [] <==> match f.rule
      case Required => false
      case Optional => !slot.has
      case Singular => IsDefaultValue(f.kind, slot.v)
      case Repeated(_) => slot.items == []
      case FixedCount(_) => slot.items == []
      case Oneof(_) => slot.which != f.tag
  {
    KindOf(f);
    hide EncodeValue, Storable, IsDefaultValue, EncodeArray, Key;
    if IsArray(f.rule) {
      ArrayWritten(f, slot.items);
    } else if slot.One? || slot.Maybe? || slot.which == f.tag {
      assert Tagged(f, slot.v) != [];
    }
  }

  lemma ArrayWritten(f: Field, items: seq<Value>)
    requires ValidField(f) && ValidKind(f.kind) && AllStorable(f.kind, items)
    ensures EncodeArray(f, items) == [] <==> items == []
  {
    hide EncodeValue, Storable, Key;
    if items != [] && !Packable(f.kind) {
      assert EachFrom(f, items, 0) == Tagged(f, items[0]) + EachFrom(f, items, 1);
    }
  }

  // ---- the examples of the Encoding document ----

  const NUMBER := Field(1, Varint(4), Singular, None)
  const TEXT := Field(2, String(16), Singular, None)
  const INNER := Descriptor([NUMBER])
  const NESTED := Field(3, Submessage(INNER), Optional, None)
  const PACKED := Field(4, Varint(4), Repeated(3), None)
  const WORD := Field(5, Fixed32, Required, None)
  const LONG := Field(6, Fixed64, Required, None)
  const EXAMPLE := Descriptor([NUMBER, TEXT, NESTED, PACKED, WORD, LONG])

  const TESTING: seq<byte> := [0x74, 0x65, 0x73, 0x74, 0x69, 0x6e, 0x67]
  const NUMBERS: seq<Value> := [Num(3), Num(270), Num(86942)]

  /** 150, "testing", a submessage with 150, 3 and 270 and 86942 packed, and 1 in four and in eight bytes. */
  const MESSAGE: seq<Slot> :=
    [One(Num(150)), One(Data(TESTING)), Maybe(true, Message([One(Num(150))])), Many(NUMBERS), One(Num(1)), One(Num(1))]

  lemma ExampleVarints()
    ensures EncodeVarint(150) == [0x96, 0x01] && EncodeVarint(270) == [0x8e, 0x02] && EncodeVarint(86942) == [0x9e, 0xa7, 0x05]
    ensures forall n: byte :: n < 128 ==> EncodeVarint(n) == [n]
  {
    assert EncodeVarint(1) == [1];
    assert EncodeVarint(2) == [2];
    assert EncodeVarint(5) == [5];
    assert EncodeVarint(679) == [0xa7, 0x05];
  }

  lemma NumberBytes()
    ensures ValidField(NUMBER) && HoldsField(NUMBER, One(Num(150)), false)
    ensures EncodeField(NUMBER, One(Num(150))) == [0x08, 0x96, 0x01]
  {
    ExampleVarints();
    hide EncodeVarint;
    assert Key(1, Varint0) == [0x08];
  }

  lemma TextBytes()
    ensures ValidField(TEXT) && HoldsField(TEXT, One(Data(TESTING)), false)
    ensures EncodeField(TEXT, One(Data(TESTING))) == [0x12, 0x07] + TESTING
  {
    ExampleVarints();
    hide EncodeVarint;
    assert Key(2, Delimited) == [0x12];
    assert EncodeValue(String(16), Data(TESTING)) == [0x07] + TESTING;
  }

  lemma NestedBytes()
    ensures ValidField(NESTED) && HoldsField(NESTED, Maybe(true, Message([One(Num(150))])), false)
    ensures EncodeField(NESTED, Maybe(true, Message([One(Num(150))]))) == [0x1a, 0x03, 0x08, 0x96, 0x01]
  {
    ExampleVarints();
    NumberBytes();
    hide EncodeVarint, EncodeField;
    var m := [One(Num(150))];
    assert SlotOf(INNER.fields, 0) == 0;
    assert EncodeFrom(INNER, m, 1) == [];
    assert EncodeFrom(INNER, m, 0) == [0x08, 0x96, 0x01];
    assert EncodeValue(Submessage(INNER), Message(m)) == [0x03] + [0x08, 0x96, 0x01];
    assert Key(3, Delimited) == [0x1a];
    assert Tagged(NESTED, Message(m)) == [0x1a, 0x03, 0x08, 0x96, 0x01];
    NestedField(m);
  }

  lemma NestedField(m: seq<Slot>)
    requires ValidField(NESTED) && HoldsField(NESTED, Maybe(true, Message(m)), false)
    ensures EncodeField(NESTED, Maybe(true, Message(m))) == Tagged(NESTED, Message(m))
  {
  }

  lemma PackedBytes()
    ensures ValidField(PACKED) && HoldsField(PACKED, Many(NUMBERS), false)
    ensures EncodeField(PACKED, Many(NUMBERS)) == [0x22, 0x06, 0x03, 0x8e, 0x02, 0x9e, 0xa7, 0x05]
  {
    ExampleVarints();
    hide EncodeVarint;
    var k := Varint(4);
    assert PackedFrom(k, NUMBERS, 3) == [];
    assert PackedFrom(k, NUMBERS, 2) == [0x9e, 0xa7, 0x05];
    assert PackedFrom(k, NUMBERS, 1) == [0x8e, 0x02, 0x9e, 0xa7, 0x05];
    assert PackedFrom(k, NUMBERS, 0) == [0x03, 0x8e, 0x02, 0x9e, 0xa7, 0x05];
    assert Key(4, Delimited) == [0x22];
  }

  lemma WordBytes()
    ensures ValidField(WORD) && HoldsField(WORD, One(Num(1)), false) && ValidField(LONG) && HoldsField(LONG, One(Num(1)), false)
    ensures EncodeField(WORD, One(Num(1))) == [0x2d, 0x01, 0x00, 0x00, 0x00]
    ensures EncodeField(LONG, One(Num(1))) == [0x31, 0x01, 0x00, 0x00, 0x00, 0x00, 0x00, 0x00, 0x00]
  {
    ExampleVarints();
    hide EncodeVarint;
    assert Key(5, Bits32) == [0x2d];
    assert Key(6, Bits64) == [0x31];
    assert EncodeFixed32(1) == [1, 0, 0, 0] && EncodeFixed32(0) == [0, 0, 0, 0];
    assert EncodeFixed64(1) == [1, 0, 0, 0, 0, 0, 0, 0];
  }

  lemma ExampleSlots()
    ensures forall i :: 0 <= i < 6 ==> SlotOf(EXAMPLE.fields, i) == i
    ensures SlotCount(EXAMPLE.fields) == 6
  {
    var fs := EXAMPLE.fields;
    assert SlotOf(fs, 0) == 0;
    assert SlotOf(fs, 1) == 1;
    assert SlotOf(fs, 2) == 2;
    assert SlotOf(fs, 3) == 3;
    assert SlotOf(fs, 4) == 4;
    assert SlotOf(fs, 5) == 5;
  }

  lemma ExampleHolds()
    ensures ValidDescriptor(EXAMPLE) && Holds(EXAMPLE, MESSAGE, false)
  {
    hide ValidField, HoldsField, SlotOf, SlotCount, EncodeField;
    ExampleSlots();
    NumberBytes();
    TextBytes();
    NestedBytes();
    PackedBytes();
    WordBytes();
  }

  /** The document's examples, field after field. */
  lemma DocumentedBytes()
    ensures ValidDescriptor(EXAMPLE) && Holds(EXAMPLE, MESSAGE, false)
    ensures Encode(EXAMPLE, MESSAGE) ==
      [0x08, 0x96, 0x01]
      + ([0x12, 0x07, 0x74, 0x65, 0x73, 0x74, 0x69, 0x6e, 0x67]
      + ([0x1a, 0x03, 0x08, 0x96, 0x01]
      + ([0x22, 0x06, 0x03, 0x8e, 0x02, 0x9e, 0xa7, 0x05]
      + ([0x2d, 0x01, 0x00, 0x00, 0x00]
      + [0x31, 0x01, 0x00, 0x00, 0x00, 0x00, 0x00, 0x00, 0x00]))))
  {
    hide ValidField, ValidDescriptor, HoldsField, Holds, EncodeField, SlotOf;
    ExampleHolds();
    ExampleSlots();
    NumberBytes();
    TextBytes();
    NestedBytes();
    PackedBytes();
    WordBytes();
    var d, m := EXAMPLE, MESSAGE;
    Unrolls(0);
    Unrolls(1);
    Unrolls(2);
    Unrolls(3);
    Unrolls(4);
    Unrolls(5);
    assert EncodeFrom(d, m, 6) == [];
  }

  lemma Unrolls(i: nat)
    requires i < 6 && ValidDescriptor(EXAMPLE) && Holds(EXAMPLE, MESSAGE, false) && SlotOf(EXAMPLE.fields, i) == i
    ensures ValidField(EXAMPLE.fields[i]) && ValidKind(EXAMPLE.fields[i].kind) && HoldsField(EXAMPLE.fields[i], MESSAGE[i], false)
    ensures EncodeFrom(EXAMPLE, MESSAGE, i) == EncodeField(EXAMPLE.fields[i], MESSAGE[i]) + EncodeFrom(EXAMPLE, MESSAGE, i + 1)
  {
    Held(EXAMPLE, MESSAGE, i, false);
    assert EXAMPLE.fields[i] in EXAMPLE.fields;
    hide Holds, HoldsField, EncodeField;
  }
}
