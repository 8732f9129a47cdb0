/** nanopb's input streams and decoders. */
module ProtoReading {
  import opened Options
  import opened Coding
  import opened ProtoSchema
  import opened ProtoIteration
  import opened ProtoVarints
  import opened ProtoParsing
  import opened ProtoRecords

  /** Bytes `state` to `state + left` of a buffer are still to be read. */
  class IStream {
    const buf: seq<byte>
    var state: nat
    var left: nat

    constructor (buf: seq<byte>, state: nat, size: nat)
      requires state + size <= |buf|
      ensures Valid() && this.buf == buf && this.state == state && left == size
    {
      this.buf, this.state, left := buf, state, size;
    }

    ghost predicate Valid()
      reads this
    {
      state + left <= |buf|
    }

    function Limit(): nat
      reads this
    {
      state + left
    }

    method ReadByte() returns (ok: bool, b: byte)
      requires Valid()
      modifies this
      ensures Valid() && (ok <==> old(left) > 0)
      ensures ok ==> b == buf[old(state)] && state == old(state) + 1 && Limit() == old(Limit())
    {
      if left == 0 {
        return false, 0;
      }
      b := buf[state];
      state, left := state + 1, left - 1;
      return true, b;
    }

    method Read(count: nat) returns (ok: bool, bs: seq<byte>)
      requires Valid()
      modifies this
      ensures Valid() && (ok <==> Take(buf, old(state), old(Limit()), count).Some?)
      ensures ok ==> Take(buf, old(state), old(Limit()), count) == Some((bs, state)) && Limit() == old(Limit())
    {
      if count == 0 {
        return true, [];
      }
      if left < count {
        return false, [];
      }
      bs := buf[state..state + count];
      state, left := state + count, left - count;
      return true, bs;
    }

    /** pb_decode_varint */
    method ReadVarint() returns (ok: bool, v: nat)
      requires Valid()
      modifies this
      ensures Valid() && (ok <==> ParseVarint(buf, old(state), old(Limit())).Some?)
      ensures ok ==> ParseVarint(buf, old(state), old(Limit())) == Some((v, state)) && Limit() == old(Limit())
    {
      hide ReadsOn, Power128, Shifted;
      var j := 0;
      v := 0;
      ghost var p, limit := state, Limit();
      ReadsFrom(buf, p, limit);
      while true
        invariant Valid() && j <= 10 && Limit() == limit && ReadsOn(buf, p, limit, state, v, j)
        decreases 10 - j
      {
        ReadsStep(buf, p, limit, state, v, j);
        if j == 10 {
          return false, 0;
        }
        var b: byte;
        ok, b := ReadByte();
        if !ok {
          return false, 0;
        }
        v := v + Cut64(Shifted(b % 128, j));
        j := j + 1;
        if b < 128 {
          return true, v;
        }
      }
    }

    /** pb_decode_varint32 */
    method ReadVarint32() returns (ok: bool, v: nat)
      requires Valid()
      modifies this
      ensures Valid() && (ok <==> ParseVarint32(buf, old(state), old(Limit())).Some?)
      ensures ok ==> ParseVarint32(buf, old(state), old(Limit())) == Some((v, state)) && Limit() == old(Limit())
    {
      hide BitPosition, Passes, WithByte;
      var b: byte;
      ghost var p, limit := state, Limit();
      FirstByteRead(buf, p, limit);
      ok, b := ReadByte();
      if !ok {
        return false, 0;
      }
      if b < 128 {
        return true, b;
      }
      var bitpos := 7;
      ghost var j := 1;
      v := Payload(b);
      while b >= 128
        invariant Valid() && j >= 1 && bitpos == BitPosition(j) && Limit() == limit && v < TWO32
        invariant b >= 128 ==> ParseVarint32(buf, p, limit) == ParseVarint32From(buf, state, limit, j, v)
        invariant b < 128 ==> ParseVarint32(buf, p, limit) == if bitpos == 35 && b >= 16 then None else Some((v, state))
        decreases b >= 128, left
      {
        NextBitPosition(b, j, v);
        ok, b := ReadByte();
        if !ok {
          return false, 0;
        }
        NextBitPosition(b, j, v);
        if bitpos >= 32 {
          var signExtension := if bitpos < 63 then 0xff else 0x01;
          if Payload(b) != 0 && (v < TWO32 / 2 || b != signExtension) {
            return false, 0;
          }
        } else {
          v := OrInto(v, Payload(b), bitpos);
        }
        bitpos := (bitpos + 7) % 256;
        j := j + 1;
      }
      if bitpos == 35 && b >= 16 {
        return false, 0;
      }
      return true, v;
    }

    // ---- records of unknown fields ----

    method SkipNumber() returns (ok: bool)
      requires Valid()
      modifies this
      ensures Valid() && (ok <==> SkipVarint(buf, old(state), old(Limit())).Some?)
      ensures ok ==> SkipVarint(buf, old(state), old(Limit())) == Some(state) && Limit() == old(Limit())
    {
      ghost var p, limit := state, Limit();
      var b: byte;
      ok, b := ReadByte();
      while ok && b >= 128
        invariant Valid()
        invariant !ok ==> SkipVarint(buf, p, limit) == None
        invariant ok && b < 128 ==> SkipVarint(buf, p, limit) == Some(state)
        invariant ok && b >= 128 ==> SkipVarint(buf, p, limit) == SkipVarint(buf, state, limit)
        invariant ok ==> Limit() == limit
        decreases ok, left
      {
        ok, b := ReadByte();
      }
    }

    /** pb_skip_field */
    method SkipField(wire: nat) returns (ok: bool)
      requires Valid()
      modifies this
      ensures Valid() && (ok <==> ParseUnknown(buf, old(state), old(Limit()), wire).Some?)
      ensures ok ==> ParseUnknown(buf, old(state), old(Limit()), wire) == Some(state) && Limit() == old(Limit())
    {
      var skipped;
      match wire
      case 0 => ok := SkipNumber();
      case 1 => ok, skipped := Read(8);
      case 2 =>
        var length;
        ok, length := ReadVarint32();
        if ok {
          ok, skipped := Read(length);
        }
      case 5 => ok, skipped := Read(4);
      case _ => ok := false;
    }

    // ---- substreams ----

    /** pb_make_string_substream */
    method OpenSubstream() returns (sub: IStream?)
      requires Valid()
      modifies this
      ensures Valid() && (sub != null <==> ParseDelimited(buf, old(state), old(Limit())).Some?)
      ensures sub != null ==>
          && fresh(sub) && sub.Valid() && sub.buf == buf && sub.state == state
          && ParseDelimited(buf, old(state), old(Limit())) == Some((state, sub.Limit()))
          && sub.Limit() + left == old(Limit())
    {
      var ok, size := ReadVarint32();
      if !ok || left < size {
        return null;
      }
      sub := new IStream(buf, state, size);
      left := left - size;
    }

    /** pb_close_string_substream: go on after the substream, whatever is left of it. */
    method CloseSubstream(sub: IStream)
      requires Valid() && sub.Valid() && sub != this && sub.Limit() + left <= |buf|
      modifies this, sub
      ensures Valid() && state == old(sub.Limit()) && left == old(left)
    {
      if sub.left > 0 {
        var _, _ := sub.Read(sub.left);
      }
      state := sub.state;
    }

    // ---- values ----

    method ReadScalar(k: Kind) returns (ok: bool, v: Value)
      requires Valid() && Packable(k) && ValidKind(k)
      modifies this
      ensures Valid() && (ok <==> ParseScalar(buf, old(state), old(Limit()), k).Some?)
      ensures ok ==> ParseScalar(buf, old(state), old(Limit()), k) == Some((v, state)) && Limit() == old(Limit())
    {
      v := Num(0);
      if k.Bool? {
        var n: nat;
        ok, n := ReadVarint32();
        v := Num(if n != 0 then 1 else 0);
      } else if k.Fixed32? {
        var bytes;
        ok, bytes := Read(4);
        if ok {
          v := Num(DecodeFixed32(bytes));
        }
      } else if k.Fixed64? {
        var bytes;
        ok, bytes := Read(8);
        if ok {
          v := Num(DecodeFixed64(bytes));
        }
      } else {
        var n: nat;
        ok, n := ReadVarint();
        if ok {
          var int_ := IntOf(k, n);
          if int_.None? {
            return false, v;
          }
          v := int_.value;
        }
      }
    }

    method ReadBlob(k: Kind) returns (ok: bool, v: Value)
      requires Valid() && IsBlob(k)
      modifies this
      ensures Valid() && (ok <==> ParseBlob(buf, old(state), old(Limit()), k).Some?)
      ensures ok ==> ParseBlob(buf, old(state), old(Limit()), k) == Some((v, state)) && Limit() == old(Limit())
    {
      v := Data([]);
      var size: nat;
      ok, size := ReadVarint32();
      if !ok {
        return;
      }
      if k.FixedBytes? && size == 0 {
        return true, Data(Zeros(k.size));
      }
      if (k.FixedBytes? && size != k.size) || (k.Bytes? && size > k.capacity) || (k.String? && size + 1 > k.size) {
        return false, v;
      }
      var bytes;
      ok, bytes := Read(size);
      v := Data(if k.String? then UntilNul(bytes) else bytes);
    }

    method ReadValue(k: Kind, prior: Value) returns (ok: bool, v: Value)
      requires Valid() && ValidKind(k) && Storable(k, prior, true)
      modifies this
      ensures Valid() && (ok <==> ParseValue(buf, old(state), old(Limit()), k, prior).Some?)
      ensures ok ==> ParseValue(buf, old(state), old(Limit()), k, prior) == Some((v, state)) && Limit() == old(Limit())
      decreases k
    {
      if Packable(k) {
        ok, v := ReadScalar(k);
      } else if IsBlob(k) {
        ok, v := ReadBlob(k);
      } else {
        v := prior;
        var sub := OpenSubstream();
        if sub == null {
          return false, v;
        }
        var m;
        ok, m := sub.ReadMessage(k.descriptor, prior.slots);
        if ok {
          CloseSubstream(sub);
          v := Message(m);
        }
      }
    }

    // ---- fields ----

    /** A record of an array (decode_static_field). */
    method ReadArray(wire: nat, f: Field, a: Array) returns (ok: bool, r: Array)
      requires Valid() && ValidField(f) && ValidArray(f, a)
      modifies this
      ensures Valid() && (ok <==> ParseArray(buf, old(state), old(Limit()), wire, f, a).Some?)
      ensures ok ==> ParseArray(buf, old(state), old(Limit()), wire, f, a) == Some((r, state)) && Limit() == old(Limit())
      decreases f, 0
    {
      hide Storable, ParseDelimited, ParsePacked, ParseValue, Zero, ValidKind;
      r := a;
      KindOf(f);
      if wire == 2 && Packable(f.kind) {
        var sub := OpenSubstream();
        if sub == null {
          return false, r;
        }
        ok, r := sub.ReadPacked(f, a);
        if ok {
          CloseSubstream(sub);
        }
      } else {
        if a.count >= MaxCount(f.rule) {
          return false, r;
        }
        ZeroStorable(f.kind);
        var zero := InitialValue(f.kind);
        var v;
        ok, v := ReadValue(f.kind, zero);
        r := Array(Put(a.items, a.count, v), a.count + 1);
      }
    }

    method ReadPacked(f: Field, a: Array) returns (ok: bool, r: Array)
      requires Valid() && ValidField(f) && Packable(f.kind) && ValidArray(f, a)
      modifies this
      ensures Valid() && (ok <==> ParsePacked(buf, old(state), old(Limit()), f, a).Some?)
      ensures ok ==> ParsePacked(buf, old(state), old(Limit()), f, a) == Some(r) && Limit() == old(Limit())
    {
      r := a;
      ghost var p, limit := state, Limit();
      while left > 0 && r.count < MaxCount(f.rule)
        invariant Valid() && Limit() == limit && ValidArray(f, r)
        invariant ParsePacked(buf, p, limit, f, a) == ParsePacked(buf, state, limit, f, r)
        decreases left
      {
        var v;
        ok, v := ReadScalar(f.kind);
        if !ok {
          return;
        }
        r := Array(Put(r.items, r.count, v), r.count + 1);
      }
      return left == 0, r;
    }

    /** A record of any other field. */
    method ReadSingle(f: Field, slot: Slot) returns (ok: bool, r: Slot)
      requires Valid() && ValidField(f) && !IsArray(f.rule) && HoldsField(f, slot, true)
      modifies this
      ensures Valid() && (ok <==> ParseSingle(buf, old(state), old(Limit()), f, slot).Some?)
      ensures ok ==> ParseSingle(buf, old(state), old(Limit()), f, slot) == Some((r, state)) && Limit() == old(Limit())
      decreases f, 0
    {
      r := slot;
      HeldSingle(f, slot);
      var prior := slot.v;
      if f.rule.Oneof? && slot.which != f.tag {
        prior := InitialValue(f.kind);
      }
      var v;
      ok, v := ReadValue(f.kind, prior);
      r := Present(f, v);
    }

    /** One record of the array that `iter` is at.  A fixed-count array that follows another one needs
        that one to be complete; its own count starts from 0. */
    method ReadArrayField(iter: FieldIter, wire: nat, d: Descriptor, pr: Progress) returns (ok: bool, r: Progress)
      requires Valid() && ValidDescriptor(d) && ValidProgress(d, pr)
      requires iter.Valid() && iter.fields == d.fields && d.fields != [] && IsArray(d.fields[iter.pos].rule)
      requires iter.localCount ==> pr.fixed == Some(iter.pos)
      modifies this, iter`localCount
      ensures Valid() && (ok <==> ParseField(buf, old(state), old(Limit()), wire, d, pr, iter.pos).Some?)
      ensures ok ==> ParseField(buf, old(state), old(Limit()), wire, d, pr, iter.pos) == Some((r, state)) && Limit() == old(Limit())
      ensures ok ==> iter.Valid() && (iter.localCount ==> r.fixed == Some(iter.pos))
      decreases d, 0
    {
      hide Holds, HoldsField, ValidDescriptor, ParseArray, SlotOf, RequiredIndex;
      r := pr;
      var f, i := d.fields[iter.pos], iter.pos;
      ArrayHeld(d, pr, i);
      var items := pr.m[iter.slot].items;
      if f.rule.FixedCount? && !iter.localCount {
        if r.fixed != Some(i) {
          if r.fixed.Some? && r.count != d.fields[r.fixed.value].rule.count {
            return false, r;
          }
          r := r.(fixed := Some(i), count := 0);
        }
        iter.localCount := true;
      }
      var a;
      ok, a := ReadArray(wire, f, Array(items, if f.rule.FixedCount? then r.count else |items|));
      r := r.(m := r.m[iter.slot := Many(a.items)]);
      if f.rule.FixedCount? {
        r := r.(count := a.count);
      }
    }

    /** One record of the field that `iter` is at. */
    method ReadField(iter: FieldIter, wire: nat, d: Descriptor, pr: Progress) returns (ok: bool, r: Progress)
      requires Valid() && ValidDescriptor(d) && ValidProgress(d, pr)
      requires iter.Valid() && iter.fields == d.fields && d.fields != []
      requires iter.localCount ==> pr.fixed == Some(iter.pos)
      modifies this, iter`localCount
      ensures Valid() && (ok <==> ParseField(buf, old(state), old(Limit()), wire, d, pr, iter.pos).Some?)
      ensures ok ==> ParseField(buf, old(state), old(Limit()), wire, d, pr, iter.pos) == Some((r, state)) && Limit() == old(Limit())
      ensures ok ==> iter.Valid() && (iter.localCount ==> r.fixed == Some(iter.pos))
      decreases d, 1
    {
      hide Holds, HoldsField, ValidDescriptor, ParseSingle, SlotOf, RequiredIndex;
      var f, i := d.fields[iter.pos], iter.pos;
      if IsArray(f.rule) {
        ok, r := ReadArrayField(iter, wire, d, pr);
        return;
      }
      r := pr;
      FieldHeld(d, pr.m, i);
      if f.rule.Required? && iter.requiredIndex < MAX_REQUIRED_FIELDS {
        r := r.(seen := r.seen + {iter.requiredIndex});
      }
      var single;
      assert r.seen == pr.seen + Mark(d, i);
      ok, single := ReadSingle(f, pr.m[iter.slot]);
      r := r.(m := r.m[iter.slot := single]);
    }

    method ReadRecord(iter: FieldIter, key: nat, d: Descriptor, pr: Progress) returns (ok: bool, r: Progress)
      requires Valid() && ValidDescriptor(d) && ValidProgress(d, pr)
      requires iter.Valid() && iter.fields == d.fields
      requires iter.localCount ==> pr.fixed == Some(iter.pos)
      modifies this, iter
      ensures Valid() && (ok <==> ParseRecord(buf, old(state), old(Limit()), key, d, pr).Some?)
      ensures ok ==> ParseRecord(buf, old(state), old(Limit()), key, d, pr) == Some((r, state)) && Limit() == old(Limit())
      ensures ok ==> iter.Valid() && (iter.localCount ==> r.fixed == Some(iter.pos))
      decreases d, 2
    {
      hide Holds, ValidDescriptor, ParseField, SlotOf, RequiredIndex, ParseUnknown;
      r := pr;
      var tag, wire := key / 8, key % 8;
      var found := iter.Find(tag);
      if !found {
        ok := SkipField(wire);
        return;
      }
      if d.fields == [] {
        var ignored;
        ok, ignored := ReadVarint32();
        return;
      }
      FoundAnywhere(d, iter.pos, tag);
      ok, r := ReadField(iter, wire, d, pr);
    }

    /** pb_decode_noinit */
    method ReadMessage(d: Descriptor, m: seq<Slot>) returns (ok: bool, r: seq<Slot>)
      requires Valid() && ValidDescriptor(d) && Holds(d, m, true)
      modifies this
      ensures Valid() && (ok <==> ParseMessage(buf, old(state), old(Limit()), d, Start(m)).Some?)
      ensures ok ==> ParseMessage(buf, old(state), old(Limit()), d, Start(m)) == Some((r, state)) && Limit() == old(Limit())
      decreases d, 3
    {
      hide Holds, ValidDescriptor, ParseRecord;
      var pr := Start(m);
      ghost var p, limit := state, Limit();
      var iter := new FieldIter(d.fields);
      var ended := false;
      while left > 0 && !ended
        invariant Valid() && Limit() == limit && ValidProgress(d, pr)
        invariant fresh(iter) && iter.Valid() && iter.fields == d.fields
        invariant iter.localCount ==> pr.fixed == Some(iter.pos)
        invariant !ended ==> ParseMessage(buf, p, limit, d, Start(m)) == ParseMessage(buf, state, limit, d, pr)
        invariant ended ==> ParseMessage(buf, p, limit, d, Start(m)) == Finish(d, pr, state)
        decreases left
      {
        var key;
        ok, key := ReadVarint32();
        if !ok {
          return false, m;
        }
        if key == 0 {
          ended := true;
        } else {
          ok, pr := ReadRecord(iter, key, d, pr);
          if !ok {
            return false, m;
          }
        }
      }
      ok := IsComplete(iter, d, pr);
      return ok, pr.m;
    }
  }

  /** The checks at the end of a message. */
  method IsComplete(iter: FieldIter, d: Descriptor, pr: Progress) returns (ok: bool)
    requires iter.Valid() && iter.fields == d.fields && ValidProgress(d, pr)
    modifies iter
    ensures ok <==> FixedDone(d, pr) && AllRequiredSeen(d, pr.seen)
  {
    hide Holds, RequiredIndex, SlotOf;
    if pr.fixed.Some? && pr.count != d.fields[pr.fixed.value].rule.count {
      return false;
    }
    var count := CountRequired(iter, d);
    for i := 0 to count
      invariant forall j: nat :: j < i ==> j in pr.seen
    {
      if i !in pr.seen {
        return false;
      }
    }
    return true;
  }

  /** How many required fields are tracked: the iterator goes on to the last field. */
  method CountRequired(iter: FieldIter, d: Descriptor) returns (count: nat)
    requires iter.Valid() && iter.fields == d.fields
    modifies iter
    ensures count == if RequiredIndex(d.fields, |d.fields|) < MAX_REQUIRED_FIELDS then RequiredIndex(d.fields, |d.fields|) else MAX_REQUIRED_FIELDS
  {
    count := iter.requiredIndex;
    var last := iter.pos;
    var more := iter.Next();
    while more
      invariant iter.Valid() && iter.fields == d.fields
      invariant d.fields != [] ==> last < |d.fields| && count == RequiredIndex(d.fields, last)
      invariant d.fields == [] ==> !more && count == 0
      invariant more ==> iter.pos == last + 1
      invariant !more && d.fields != [] ==> last == |d.fields| - 1
      decreases |d.fields| - last
    {
      count, last := iter.requiredIndex, iter.pos;
      more := iter.Next();
    }
    if d.fields != [] && d.fields[last].rule.Required? {
      count := count + 1;
    }
    if count > MAX_REQUIRED_FIELDS {
      count := MAX_REQUIRED_FIELDS;
    }
  }

  lemma HeldSingle(f: Field, slot: Slot)
    requires ValidKind(f.kind) && !IsArray(f.rule) && HoldsField(f, slot, true)
    ensures !slot.Many? && (f.rule.Oneof? ==> slot.Choice?)
    ensures Prior(f, slot) == if f.rule.Oneof? && slot.which != f.tag then Zero(f.kind) else slot.v
  {
  }

  lemma ArrayHeld(d: Descriptor, pr: Progress, i: nat)
    requires ValidDescriptor(d) && ValidProgress(d, pr) && i < |d.fields| && IsArray(d.fields[i].rule)
    ensures SlotOf(d.fields, i) < |pr.m| && pr.m[SlotOf(d.fields, i)].Many? && ValidField(d.fields[i])
    ensures ValidArray(d.fields[i], ArrayOf(d, pr, i))
  {
    FieldHeld(d, pr.m, i);
  }

  lemma FieldHeld(d: Descriptor, m: seq<Slot>, i: nat)
    requires ValidDescriptor(d) && Holds(d, m, true) && i < |d.fields|
    ensures SlotOf(d.fields, i) < |m| && HoldsField(d.fields[i], m[SlotOf(d.fields, i)], true) && ValidField(d.fields[i])
  {
  }

  // ---- defaults ----

  method InitialValue(k: Kind) returns (v: Value)
    ensures v == Zero(k)
    decreases k
  {
    match k
    case Bytes(_) => v := Data([]);
    case String(_) => v := Data([]);
    case FixedBytes(size) => v := Data(Zeros(size));
    case Submessage(d) =>
      var m := MessageDefaults(d);
      v := Message(m);
    case _ => v := Num(0);
  }

  /** pb_field_set_to_default */
  method FieldDefault(f: Field) returns (slot: Slot)
    ensures slot == InitialSlot(f)
    decreases f
  {
    var zero := InitialValue(f.kind);
    var v := if f.initial.Some? then f.initial.value else zero;
    match f.rule
    case Required => slot := One(v);
    case Singular => slot := One(v);
    case Optional => slot := Maybe(false, v);
    case Repeated(_) => slot := Many([]);
    case FixedCount(count) => slot := Many(seq(count, _ => Unset));
    case Oneof(_) => slot := Choice(0, Unset);
  }

  /** pb_message_set_to_defaults */
  method MessageDefaults(d: Descriptor) returns (m: seq<Slot>)
    ensures m == Defaults(d)
    decreases d
  {
    m := [];
    if d.fields == [] {
      return;
    }
    var iter := new FieldIter(d.fields);
    var more := true;
    while more
      invariant fresh(iter) && iter.Valid() && iter.fields == d.fields
      invariant more ==> m == DefaultsTo(d, iter.pos)
      invariant !more ==> m == Defaults(d) && iter.pos == 0
      decreases more, |d.fields| - iter.pos
    {
      if iter.pos > 0 {
        DefaultsAt(d, iter.pos, iter.pos - 1);
      }
      var slot := FieldDefault(d.fields[iter.pos]);
      m := if iter.slot < |m| then m[iter.slot := slot] else m + [slot];
      more := iter.Next();
    }
  }

  /** pb_decode of a whole buffer. */
  method Decode(data: seq<byte>, d: Descriptor) returns (ok: bool, m: seq<Slot>)
    requires ValidDescriptor(d)
    ensures ok <==> Parse(data, d).Some?
    ensures ok ==> m == Parse(data, d).value.0
    ensures Holds(d, Defaults(d), true)
    ensures var t := Records(data, 0, |data|, d, Start(Defaults(d)));
      ok <==> t.Some? && FixedFull(d, t.value.records) && RequiredCame(d, t.value.records)
  {
    DefaultsHold(d);
    MessageExactly(data, 0, |data|, d, Defaults(d));
    hide Records, FixedFull, RequiredCame, ParseMessage, Holds, ValidDescriptor;
    m := MessageDefaults(d);
    var stream := new IStream(data, 0, |data|);
    ok, m := stream.ReadMessage(d, m);
  }

  lemma NextBitPosition(b: byte, j: nat, v: nat)
    requires v < TWO32
    ensures BitPosition(j + 1) == (BitPosition(j) + 7) % 256
    ensures BitPosition(j) < 32 ==> Passes(b, BitPosition(j), v) && WithByte(b, BitPosition(j), v) == OrInto(v, Payload(b), BitPosition(j))
    ensures BitPosition(j) >= 32 ==>
        && (Passes(b, BitPosition(j), v) <==> Payload(b) == 0 || (v >= TWO32 / 2 && b == if BitPosition(j) < 63 then 0xff else 0x01))
        && WithByte(b, BitPosition(j), v) == v
  {
    PositionAdvances(j);
    hide BitPosition, OrInto;
  }

  lemma PositionAdvances(j: nat)
    ensures BitPosition(j + 1) == (BitPosition(j) + 7) % 256
  {
    var turns := 7 * j / 256;
    assert 7 * (j + 1) == 256 * turns + (BitPosition(j) + 7);
  }

  /** The first byte is taken as it is. */
  lemma FirstByteRead(data: seq<byte>, p: nat, limit: nat)
    requires limit <= |data|
    ensures p < limit ==>
        ParseVarint32(data, p, limit) ==
          if data[p] >= 128 then ParseVarint32From(data, p + 1, limit, 1, Payload(data[p])) else Some((data[p] as nat, p + 1))
    ensures p < limit ==> BitPosition(1) == 7
  {
    if p < limit {
      FirstByteTaken(data[p]);
      hide BitPosition, Passes, WithByte;
    }
  }

  lemma FirstByteTaken(b: byte)
    ensures Passes(b, BitPosition(0), 0) && WithByte(b, BitPosition(0), 0) == Payload(b) && BitPosition(1) == 7
  {
    SmallPowers();
    LowPosition(0);
    LowPosition(1);
    assert Shifted(Payload(b), 0) == Payload(b);
    hide Payload, Power128, BitPosition, Passes, WithByte, Shifted;
    LowPasses(b, 0, 0);
    LowGroup(b, 0, 0);
  }

  /** Having read the number v in j bytes up to p', the rest of what starts at p is at p'. */
  ghost predicate ReadsOn(data: seq<byte>, p: nat, limit: nat, p': nat, v: nat, j: nat)
    requires limit <= |data| && j <= 10
  {
    var all, rest := DecodeVarint(data, p, limit, 10), DecodeVarint(data, p', limit, 10 - j);
    && v < TWO64 && (j < 10 ==> v < Power128(j)) && all.0 == rest.0
    && (all.0 ==> Cut64(all.1) == Cut64(v + Shifted(rest.1, j)) && all.2 == rest.2)
  }

  lemma ReadsFrom(data: seq<byte>, p: nat, limit: nat)
    requires limit <= |data|
    ensures ReadsOn(data, p, limit, p, 0, 0)
  {
    FirstGroup();
  }

  lemma VarintUnfolds(data: seq<byte>, p: nat, limit: nat, n: nat)
    requires p < limit <= |data| && n > 0
    ensures var rest := DecodeVarint(data, p + 1, limit, n - 1);
      DecodeVarint(data, p, limit, n) ==
        if data[p] < 128 then (true, data[p] as nat, p + 1) else (rest.0, data[p] as int - 128 + 128 * rest.1, rest.2)
  {
  }

  lemma ReadsStep(data: seq<byte>, p: nat, limit: nat, p': nat, v: nat, j: nat)
    requires limit <= |data| && j <= 10 && ReadsOn(data, p, limit, p', v, j)
    ensures j == 10 || p' >= limit ==> ParseVarint(data, p, limit) == None
    ensures j < 10 && p' < limit ==>
        var v' := v + Cut64(Shifted(data[p'] % 128, j));
        if data[p'] < 128 then ParseVarint(data, p, limit) == Some((v', p' + 1)) else ReadsOn(data, p, limit, p' + 1, v', j + 1)
  {
    hide Shifted, Power128, DecodeVarint, Cut64;
    if j < 10 && p' < limit {
      var b := data[p'];
      VarintUnfolds(data, p', limit, 10 - j);
      var rest := if b < 128 then 0 else DecodeVarint(data, p' + 1, limit, 9 - j).1;
      var group := b % 128;
      NextVarintGroup(v, group, rest, j);
      assert DecodeVarint(data, p', limit, 10 - j).0 ==> DecodeVarint(data, p', limit, 10 - j).1 == group + 128 * rest;
    } else {
      VarintEnds(data, p', limit, 10 - j);
    }
  }

  lemma VarintEnds(data: seq<byte>, p: nat, limit: nat, n: nat)
    requires limit <= |data| && (p >= limit || n == 0)
    ensures !DecodeVarint(data, p, limit, n).0
  {
  }

  lemma FirstGroup()
    ensures Power128(0) == 1 && forall b: nat :: Shifted(b, 0) == b
  {
    assert Power128(0) == 1;
  }

  /** One more group of a 64-bit number; of the tenth only one bit is kept. */
  lemma NextVarintGroup(v: nat, b: nat, rest: nat, j: nat)
    requires j < 10 && v < Power128(j) && b < 128
    ensures v + Cut64(Shifted(b, j)) < TWO64 && (j < 9 ==> v + Cut64(Shifted(b, j)) < Power128(j + 1))
    ensures Cut64(v + Cut64(Shifted(b, j)) + Shifted(rest, j + 1)) == Cut64(v + Shifted(b + 128 * rest, j))
    ensures Shifted(0, j + 1) == 0
  {
    GroupBound(v, b, j);
    ShiftedAdds(b, rest, j);
    hide Shifted, Power128;
    CutSum(v + Shifted(rest, j + 1), Shifted(b, j));
  }

  lemma GroupBound(v: nat, b: nat, j: nat)
    requires j < 10 && v < Power128(j) && b < 128
    ensures v + Cut64(Shifted(b, j)) < TWO64 && (j < 9 ==> v + Cut64(Shifted(b, j)) < Power128(j + 1))
  {
    assert Power128(5) == 0x8_0000_0000;
    assert Power128(9) == TWO64 / 2;
    if j < 9 {
      PowersGrow(j + 1, 9);
      assert Power128(j + 1) == 128 * Power128(j);
      assert Shifted(b, j) <= 127 * Power128(j);
    } else {
      assert Shifted(b, 9) == b / 2 * TWO64 + b % 2 * (TWO64 / 2);
    }
  }

  lemma CutSum(a: nat, s: nat)
    ensures Cut64(a + Cut64(s)) == Cut64(a + s)
  {
  }
}
