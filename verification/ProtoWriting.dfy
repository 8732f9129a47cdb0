/** nanopb's output streams and encoders. */
module ProtoWriting {
  import opened Coding
  import opened ProtoSchema
  import opened ProtoIteration
  import opened ProtoEncoding

  datatype Status = Ok | StreamFull | ArrayTooLong | BytesTooLong | SubmessageSizeChanged

  lemma {:induction false} PackedFixed(k: Kind, items: seq<Value>, i: nat)
    requires k.Fixed32? || k.Fixed64?
    requires AllStorable(k, items) && i <= |items|
    ensures |PackedFrom(k, items, i)| == if k.Fixed32? then 4 * (|items| - i) else 8 * (|items| - i)
    decreases |items| - i
  {
    if i < |items| {
      assert |EncodeScalar(k, items[i])| == if k.Fixed32? then 4 else 8;
      hide EncodeScalar, Storable;
      PackedFixed(k, items, i + 1);
    }
  }

  datatype Stream = Stream(sizing: bool, out: seq<byte>, maxSize: nat, written: nat)

  ghost predicate Room(s: Stream, n: nat) {
    s.sizing || s.written + n <= s.maxSize
  }

  /** From `s` to `t` a step succeeds if `fit` says so and there is room, and then writes all of
      `bs`; in any case the buffer is only appended to, within its bound, and everything in it is
      counted. */
  ghost predicate Emitted(s: Stream, bs: seq<byte>, fit: bool, status: Status, t: Stream) {
    && t.sizing == s.sizing && t.maxSize == s.maxSize
    && (status.Ok? <==> fit && Room(s, |bs|))
    && (status.Ok? ==> t.written == s.written + |bs|)
    && (status.Ok? ==> t.out == if s.sizing then s.out else s.out + bs)
    && (!s.sizing ==> s.out <= t.out && |t.out| - |s.out| == t.written - s.written && t.written <= t.maxSize)
    && status != SubmessageSizeChanged
  }

  lemma NothingEmitted(s: Stream)
    requires !s.sizing ==> s.written <= s.maxSize
    ensures Emitted(s, [], true, Ok, s)
  {
    assert s.out + [] == s.out;
  }

  lemma RefusedAtOnce(s: Stream, bs: seq<byte>, status: Status)
    requires !s.sizing ==> s.written <= s.maxSize
    requires status != Ok && status != SubmessageSizeChanged
    ensures Emitted(s, bs, false, status, s)
  {
  }

  lemma ThenEmitted(s: Stream, a: seq<byte>, t: Stream, b: seq<byte>, fit: bool, status: Status, u: Stream)
    requires Emitted(s, a, true, Ok, t) && Emitted(t, b, fit, status, u)
    ensures Emitted(s, a + b, fit, status, u)
  {
    assert (s.out + a) + b == s.out + (a + b);
  }

  lemma FailedEarlier(s: Stream, a: seq<byte>, fitA: bool, status: Status, t: Stream, b: seq<byte>, fit: bool)
    requires Emitted(s, a, fitA, status, t) && status != Ok && (fit ==> fitA)
    ensures Emitted(s, a + b, fit, status, t)
  {
  }

  /** A counting stream only fails for what does not fit, and then counts the bytes. */
  lemma CountingTells(c: Stream, body: seq<byte>, fit: bool, status: Status, c': Stream, s: Stream)
    requires c.sizing && c.written == 0 && Emitted(c, body, fit, status, c')
    requires !s.sizing ==> s.written <= s.maxSize
    ensures status.Ok? <==> fit
    ensures status.Ok? ==> c'.written == |body|
    ensures !status.Ok? ==> Emitted(s, Counted(body), fit, status, s)
  {
  }

  lemma SkippedIsEmitted(s: Stream, bs: seq<byte>, t: Stream)
    requires s.sizing && t == s.(written := s.written + |bs|)
    ensures Emitted(s, bs, true, Ok, t)
  {
  }

  lemma NoRoom(s: Stream, bs: seq<byte>)
    requires !s.sizing && s.written <= s.maxSize < s.written + |bs|
    ensures Emitted(s, bs, true, StreamFull, s)
  {
  }

  /** The writing pass fills the substream that the counting pass measured. */
  lemma SubstreamFills(s: Stream, body: seq<byte>, u: Stream, status: Status, u': Stream)
    requires !s.sizing && s.written + |body| <= s.maxSize
    requires u == Stream(false, s.out, |body|, 0) && Emitted(u, body, true, status, u')
    ensures status.Ok? && u'.written == |body|
    ensures Emitted(s, body, true, Ok, s.(written := s.written + u'.written, out := u'.out))
  {
  }

  /** A stream over a buffer, or one that only counts (`sizing`). */
  class OStream {
    const sizing: bool
    var out: seq<byte>
    var maxSize: nat
    var written: nat

    constructor Sizing()
      ensures Valid() && sizing && written == 0
    {
      sizing, out, maxSize, written := true, [], 0, 0;
    }

    /** Writes go after what the buffer already holds. */
    constructor Over(before: seq<byte>, maxSize: nat)
      ensures Valid() && !sizing && written == 0 && this.maxSize == maxSize && out == before
    {
      sizing, out, written := false, before, 0;
      this.maxSize := maxSize;
    }

    ghost predicate Valid()
      reads this
    {
      !sizing ==> written <= maxSize
    }

    ghost function State(): Stream
      reads this
    {
      Stream(sizing, out, maxSize, written)
    }

    method Write(buf: seq<byte>) returns (status: Status)
      requires Valid()
      modifies this
      ensures Valid() && Emitted(old(State()), buf, true, status, State())
    {
      if |buf| > 0 && !sizing {
        if written + |buf| > maxSize {
          return StreamFull;
        }
        out := out + buf;
      }
      written := written + |buf|;
      return Ok;
    }

    method WriteVarint(value: nat) returns (status: Status)
      requires Valid() && value < TWO64
      modifies this
      ensures Valid() && Emitted(old(State()), EncodeVarint(value), true, status, State())
    {
      hide Emitted;
      if value <= 0x7f {
        status := Write([value]);
        assert EncodeVarint(value) == [value];
        return;
      }
      var buffer := SevenBitGroups(value);
      status := Write(buffer);
    }

    method WriteSVarint(value: int) returns (status: Status)
      requires Valid() && Signed(value, 8)
      modifies this
      ensures Valid() && Emitted(old(State()), EncodeVarint(ZigZag(value)), true, status, State())
    {
      hide Emitted;
      var zigzagged: nat;
      if value < 0 {
        zigzagged := TWO64 - 1 - 2 * Unsigned64(value) % TWO64;
      } else {
        zigzagged := 2 * value;
      }
      assert zigzagged == ZigZag(value);
      status := WriteVarint(zigzagged);
    }

    method WriteTag(wire: Wire, tag: nat) returns (status: Status)
      requires Valid() && tag < TWO32
      modifies this
      ensures Valid() && Emitted(old(State()), Key(tag, wire), true, status, State())
    {
      hide Emitted;
      status := WriteVarint(8 * tag + WireNumber(wire));
    }

    method WriteString(buffer: seq<byte>) returns (status: Status)
      requires Valid() && |buffer| < TWO64
      modifies this
      ensures Valid() && Emitted(old(State()), Counted(buffer), true, status, State())
    {
      hide Emitted;
      ghost var s := State();
      status := WriteVarint(|buffer|);
      ghost var t := State();
      if status != Ok {
        FailedEarlier(s, EncodeVarint(|buffer|), true, status, t, buffer, true);
        return;
      }
      status := Write(buffer);
      ThenEmitted(s, EncodeVarint(|buffer|), t, buffer, true, status, State());
    }

    method WriteScalar(k: Kind, v: Value) returns (status: Status)
      requires Valid() && Packable(k) && Storable(k, v, false) && ValidKind(k)
      modifies this
      ensures Valid() && Emitted(old(State()), EncodeScalar(k, v), true, status, State())
    {
      hide Emitted, EncodeVarint, ZigZag, EncodeFixed64;
      match k
      case Bool => status := WriteVarint(if v.n != 0 then 1 else 0);
      case Varint(_) => status := WriteVarint(Unsigned64(v.n));
      case UVarint(_) => status := WriteVarint(v.n);
      case SVarint(_) => status := WriteSVarint(v.n);
      case Fixed32 => status := Write(EncodeFixed32(v.n));
      case Fixed64 => status := Write(EncodeFixed64(v.n));
    }

    method WriteArray(f: Field, items: seq<Value>) returns (status: Status)
      requires Valid() && ValidField(f) && IsArray(f.rule) && AllStorable(f.kind, items)
      requires |EncodeArray(f, items)| < TWO64
      modifies this
      ensures Valid() && Emitted(old(State()), EncodeArray(f, items), |items| <= MaxCount(f.rule) && AllFit(f.kind, items, false), status, State())
      decreases f, 2
    {
      hide Emitted, Storable, FitsValue, PackedFrom, EachFrom;
      if items == [] {
        NothingEmitted(State());
        return Ok;
      }
      if |items| > MaxCount(f.rule) {
        RefusedAtOnce(State(), EncodeArray(f, items), ArrayTooLong);
        return ArrayTooLong;
      }
      if Packable(f.kind) {
        PackableFits(f.kind, items);
        status := WritePacked(f, items);
      } else {
        status := WriteEach(f, items);
      }
    }

    method WriteEach(f: Field, items: seq<Value>) returns (status: Status)
      requires Valid() && ValidField(f) && AllStorable(f.kind, items)
      requires |EachFrom(f, items, 0)| < TWO64
      modifies this
      ensures Valid() && Emitted(old(State()), EachFrom(f, items, 0), AllFit(f.kind, items, false), status, State())
      decreases f, 1
    {
      hide Emitted, Storable, FitsValue, Tagged, EachFrom, AllFit, FitTo;
      FitTold(f, items, 0);
      FitTold(f, items, |items|);
      ghost var s := State();
      ghost var done := [];
      NothingEmitted(s);
      for i := 0 to |items|
        invariant Valid() && Emitted(s, done, true, Ok, State())
        invariant done + EachFrom(f, items, i) == EachFrom(f, items, 0)
        invariant FitTo(f.kind, items, i)
      {
        FitTold(f, items, i);
        ghost var t, tagged, rest := State(), Tagged(f, items[i]), EachFrom(f, items, i + 1);
        assert done + (tagged + rest) == (done + tagged) + rest;
        status := WriteTagged(f, items[i]);
        ThenEmitted(s, done, t, tagged, FitsValue(f.kind, items[i], false), status, State());
        if status != Ok {
          FailedEarlier(s, done + tagged, FitsValue(f.kind, items[i], false), status, State(), rest, AllFit(f.kind, items, false));
          return;
        }
        done := done + tagged;
      }
      assert done + [] == done;
      return Ok;
    }

    method WriteTagged(f: Field, v: Value) returns (status: Status)
      requires Valid() && ValidField(f) && Storable(f.kind, v, false)
      requires |Tagged(f, v)| < TWO64
      modifies this
      ensures Valid() && Emitted(old(State()), Tagged(f, v), FitsValue(f.kind, v, false), status, State())
      decreases f, 0
    {
      hide Emitted, Storable, FitsValue, EncodeValue;
      ghost var s, key, value := State(), Key(f.tag, WireOf(f.kind)), EncodeValue(f.kind, v);
      status := WriteTag(WireOf(f.kind), f.tag);
      ghost var t := State();
      if status != Ok {
        FailedEarlier(s, key, true, status, t, value, FitsValue(f.kind, v, false));
        return;
      }
      status := WriteValue(f.kind, v);
      ThenEmitted(s, key, t, value, FitsValue(f.kind, v, false), status, State());
    }

    method WriteValue(k: Kind, v: Value) returns (status: Status)
      requires Valid() && ValidKind(k) && Storable(k, v, false)
      requires |EncodeValue(k, v)| < TWO64
      modifies this
      ensures Valid() && Emitted(old(State()), EncodeValue(k, v), FitsValue(k, v, false), status, State())
      decreases k
    {
      hide Emitted, Holds, Fits, EncodeFrom, EncodeScalar;
      match k
      case Bytes(capacity) =>
        if |v.bytes| > capacity {
          RefusedAtOnce(State(), EncodeValue(k, v), BytesTooLong);
          return BytesTooLong;
        }
        status := WriteString(v.bytes);
      case String(_) => status := WriteString(v.bytes);
      case FixedBytes(_) => status := WriteString(v.bytes);
      case Submessage(d) => status := WriteSubmessage(d, v.slots);
      case _ => status := WriteScalar(k, v);
    }

    /** Encode twice: once to count, once to write. */
    method WriteSubmessage(d: Descriptor, m: seq<Slot>) returns (status: Status)
      requires Valid() && ValidDescriptor(d) && Holds(d, m, false)
      requires |Encode(d, m)| < TWO64
      modifies this
      ensures Valid() && Emitted(old(State()), Counted(Encode(d, m)), Fits(d, m, false), status, State())
      decreases d, 1
    {
      hide Emitted, Holds, Fits, Encode, EncodeVarint, ValidDescriptor;
      ghost var s, body, fit := State(), Encode(d, m), Fits(d, m, false);
      var counting := new OStream.Sizing();
      ghost var c := counting.State();
      status := counting.WriteMessage(d, m);
      CountingTells(c, body, fit, status, counting.State(), s);
      if !status.Ok? {
        return;
      }
      var size := counting.written;
      ghost var count := EncodeVarint(size);
      status := WriteVarint(size);
      ghost var t := State();
      if !status.Ok? {
        FailedEarlier(s, count, true, status, t, body, fit);
        return;
      }
      if sizing {
        Skip(size);
        SkippedIsEmitted(t, body, State());
        ThenEmitted(s, count, t, body, fit, Ok, State());
        return Ok;
      }
      if written + size > maxSize {
        NoRoom(t, body);
        ThenEmitted(s, count, t, body, fit, StreamFull, t);
        return StreamFull;
      }
      var substream := new OStream.Over(out, size);
      ghost var u := substream.State();
      status := substream.WriteMessage(d, m);
      written, out := written + substream.written, substream.out;
      SubstreamFills(t, body, u, status, substream.State());
      ThenEmitted(s, count, t, body, fit, Ok, State());
      if substream.written != size {
        return SubmessageSizeChanged;
      }
    }

    /** pb_encode */
    method WriteMessage(d: Descriptor, m: seq<Slot>) returns (status: Status)
      requires Valid() && ValidDescriptor(d) && Holds(d, m, false)
      requires |Encode(d, m)| < TWO64
      modifies this
      ensures Valid() && Emitted(old(State()), Encode(d, m), Fits(d, m, false), status, State())
      decreases d, 0
    {
      hide Emitted, Holds, HoldsField, Fits, FitsField, FitsTo, EncodeField, EncodeFrom, SlotOf, SlotCount, RequiredIndex, ValidDescriptor, ValidField, ValidKind, Storable, Room;
      FitsTold(d, m, 0);
      FitsTold(d, m, |d.fields|);
      ghost var s := State();
      ghost var done := [];
      NothingEmitted(s);
      var iter := new FieldIter(d.fields);
      if d.fields == [] {
        return Ok;
      }
      var more := true;
      while more
        invariant fresh(iter) && iter.Valid() && iter.fields == d.fields
        invariant more ==> done + EncodeFrom(d, m, iter.pos) == Encode(d, m)
        invariant !more ==> done == Encode(d, m) && iter.pos == 0
        invariant FitsTo(d, m, if more then iter.pos else |d.fields|)
        invariant Valid() && Emitted(s, done, true, Ok, State())
        decreases more, |d.fields| - iter.pos
      {
        FitsTold(d, m, iter.pos);
        var f, slot := d.fields[iter.pos], m[iter.slot];
        ghost var t, bs, rest := State(), EncodeField(f, slot), EncodeFrom(d, m, iter.pos + 1);
        Reassociate(done, bs, rest);
        status := WriteField(f, slot);
        ThenEmitted(s, done, t, bs, FitsField(f, slot, false), status, State());
        if !status.Ok? {
          FailedEarlier(s, done + bs, FitsField(f, slot, false), status, State(), rest, Fits(d, m, false));
          return;
        }
        done := done + bs;
        Reassociate(done, [], []);
        more := iter.Next();
      }
      return Ok;
    }

    method WriteField(f: Field, slot: Slot) returns (status: Status)
      requires Valid() && ValidField(f) && HoldsField(f, slot, false)
      requires |EncodeField(f, slot)| < TWO64
      modifies this
      ensures Valid() && Emitted(old(State()), EncodeField(f, slot), FitsField(f, slot, false), status, State())
      decreases f, 3
    {
      hide Emitted, Storable, FitsValue, Tagged, EncodeArray;
      NothingEmitted(State());
      match f.rule
      case Required => status := WriteTagged(f, slot.v);
      case Optional =>
        if !slot.has {
          return Ok;
        }
        status := WriteTagged(f, slot.v);
      case Singular =>
        if IsDefault(f, slot) {
          return Ok;
        }
        status := WriteTagged(f, slot.v);
      case Repeated(_) => status := WriteArray(f, slot.items);
      case FixedCount(_) => status := WriteArray(f, slot.items);
      case Oneof(_) =>
        if slot.which != f.tag {
          return Ok;
        }
        status := WriteTagged(f, slot.v);
    }

    // ---- packed arrays ----

    method PackedSize(k: Kind, items: seq<Value>) returns (size: nat)
      requires Packable(k) && ValidKind(k) && AllStorable(k, items)
      ensures size == |PackedFrom(k, items, 0)|
    {
      hide Storable, EncodeScalar;
      if k.Fixed32? {
        PackedFixed(k, items, 0);
        return 4 * |items|;
      }
      if k.Fixed64? {
        PackedFixed(k, items, 0);
        return 8 * |items|;
      }
      var sizestream := new OStream.Sizing();
      for i := 0 to |items|
        invariant sizestream.Valid() && sizestream.sizing && fresh(sizestream)
        invariant sizestream.written + |PackedFrom(k, items, i)| == |PackedFrom(k, items, 0)|
      {
        var _ := sizestream.WriteScalar(k, items[i]);
      }
      return sizestream.written;
    }

    method WritePacked(f: Field, items: seq<Value>) returns (status: Status)
      requires Valid() && ValidField(f) && Packable(f.kind) && AllStorable(f.kind, items)
      requires items != [] && |PackedFrom(f.kind, items, 0)| < TWO64
      modifies this
      ensures Valid() && Emitted(old(State()), Key(f.tag, Delimited) + Counted(PackedFrom(f.kind, items, 0)), true, status, State())
    {
      hide Emitted, Storable, EncodeScalar, EncodeVarint;
      ghost var s, body := State(), PackedFrom(f.kind, items, 0);
      ghost var key, count := Key(f.tag, Delimited), EncodeVarint(|body|);
      assert key + (count + body) == (key + count) + body;
      status := WriteTag(Delimited, f.tag);
      if !status.Ok? {
        FailedEarlier(s, key, true, status, State(), Counted(body), true);
        return;
      }
      ghost var t := State();
      var size := PackedSize(f.kind, items);
      status := WriteVarint(size);
      ThenEmitted(s, key, t, count, true, status, State());
      if !status.Ok? {
        FailedEarlier(s, key + count, true, status, State(), body, true);
        return;
      }
      t := State();
      if sizing {
        Skip(size);
        SkippedIsEmitted(t, body, State());
        status := Ok;
      } else {
        status := WriteScalars(f.kind, items);
      }
      ThenEmitted(s, key + count, t, body, true, status, State());
    }

    method WriteScalars(k: Kind, items: seq<Value>) returns (status: Status)
      requires Valid() && Packable(k) && ValidKind(k) && AllStorable(k, items)
      modifies this
      ensures Valid() && Emitted(old(State()), PackedFrom(k, items, 0), true, status, State())
    {
      hide Emitted, Storable, EncodeScalar;
      ghost var s := State();
      ghost var done := [];
      NothingEmitted(s);
      for i := 0 to |items|
        invariant Valid() && Emitted(s, done, true, Ok, State())
        invariant done + PackedFrom(k, items, i) == PackedFrom(k, items, 0)
      {
        ghost var t, bs, rest := State(), EncodeScalar(k, items[i]), PackedFrom(k, items, i + 1);
        assert done + (bs + rest) == (done + bs) + rest;
        status := WriteScalar(k, items[i]);
        ThenEmitted(s, done, t, bs, true, status, State());
        if !status.Ok? {
          FailedEarlier(s, done + bs, true, status, State(), rest, true);
          return;
        }
        done := done + bs;
      }
      assert done + [] == done;
      return Ok;
    }

    /** Only counting: pb_write with no data. */
    method Skip(count: nat)
      requires Valid() && sizing
      modifies this
      ensures Valid() && State() == old(State()).(written := old(written) + count)
    {
      written := written + count;
    }
  }

  lemma Reassociate(a: seq<byte>, b: seq<byte>, c: seq<byte>)
    ensures a + (b + c) == (a + b) + c && a + [] == a
  {
  }

  predicate FitTo(k: Kind, items: seq<Value>, n: nat)
    requires AllStorable(k, items) && n <= |items|
  {
    forall i :: 0 <= i < n ==> FitsValue(k, items[i], false)
  }

  lemma FitTold(f: Field, items: seq<Value>, n: nat)
    requires ValidKind(f.kind) && AllStorable(f.kind, items) && n <= |items|
    ensures FitTo(f.kind, items, 0) && (FitTo(f.kind, items, |items|) <==> AllFit(f.kind, items, false))
    ensures n < |items| ==>
        && (FitTo(f.kind, items, n + 1) <==> FitTo(f.kind, items, n) && FitsValue(f.kind, items[n], false))
        && (AllFit(f.kind, items, false) ==> FitsValue(f.kind, items[n], false))
        && EachFrom(f, items, n) == Tagged(f, items[n]) + EachFrom(f, items, n + 1)
    ensures n == |items| ==> EachFrom(f, items, n) == []
  {
    hide Storable, FitsValue, Tagged;
  }

  predicate FitsTo(d: Descriptor, m: seq<Slot>, n: nat)
    requires Holds(d, m, false) && n <= |d.fields|
  {
    forall i :: 0 <= i < n ==> FitsField(d.fields[i], m[SlotOf(d.fields, i)], false)
  }

  lemma FitsTold(d: Descriptor, m: seq<Slot>, n: nat)
    requires ValidDescriptor(d) && Holds(d, m, false) && n <= |d.fields|
    ensures FitsTo(d, m, 0) && (FitsTo(d, m, |d.fields|) <==> Fits(d, m, false))
    ensures n < |d.fields| ==>
        && SlotOf(d.fields, n) < |m| && HoldsField(d.fields[n], m[SlotOf(d.fields, n)], false)
        && ValidField(d.fields[n]) && ValidKind(d.fields[n].kind)
        && (FitsTo(d, m, n + 1) <==> FitsTo(d, m, n) && FitsField(d.fields[n], m[SlotOf(d.fields, n)], false))
        && (Fits(d, m, false) ==> FitsField(d.fields[n], m[SlotOf(d.fields, n)], false))
        && EncodeFrom(d, m, n) == EncodeField(d.fields[n], m[SlotOf(d.fields, n)]) + EncodeFrom(d, m, n + 1)
    ensures n == |d.fields| ==> EncodeFrom(d, m, n) == []
  {
    hide HoldsField, FitsField;
  }

  /** pb_get_encoded_size */
  method EncodedSize(d: Descriptor, m: seq<Slot>) returns (status: Status, size: nat)
    requires ValidDescriptor(d) && Holds(d, m, false) && |Encode(d, m)| < TWO64
    ensures status.Ok? <==> Fits(d, m, false)
    ensures status.Ok? ==> size == |Encode(d, m)|
  {
    hide Encode, Fits, Holds;
    var stream := new OStream.Sizing();
    status := stream.WriteMessage(d, m);
    size := stream.written;
  }

  /** pb_encode into a buffer of a given size. */
  method EncodeInto(bufsize: nat, d: Descriptor, m: seq<Slot>) returns (status: Status, out: seq<byte>)
    requires ValidDescriptor(d) && Holds(d, m, false) && |Encode(d, m)| < TWO64
    ensures status.Ok? <==> Fits(d, m, false) && |Encode(d, m)| <= bufsize
    ensures status.Ok? ==> out == Encode(d, m)
    ensures |out| <= bufsize && status != SubmessageSizeChanged
  {
    hide Encode, Fits, Holds;
    var stream := new OStream.Over([], bufsize);
    status := stream.WriteMessage(d, m);
    out := stream.out;
  }

  /** The loop of pb_encode_varint: at most ten bytes. */
  method SevenBitGroups(value: nat) returns (bs: seq<byte>)
    requires 0x7f < value < TWO64
    ensures bs == EncodeVarint(value)
  {
    hide EncodeVarint;
    var buffer := new byte[10];
    var i := 0;
    var rest: nat := value;
    ghost var done: seq<byte> := [];
    LongestVarint(value);
    while rest > 0
      invariant 0 <= i <= 10 && done == buffer[..i]
      invariant rest > 0 ==> EncodeVarint(value) == done + EncodeVarint(rest)
      invariant rest == 0 ==> EndsMarked(done, EncodeVarint(value))
      decreases rest
    {
      NextGroupOf(EncodeVarint(value), done, rest);
      buffer[i] := 128 + rest % 128;
      done := done + [128 + rest % 128];
      rest := rest / 128;
      i := i + 1;
    }
    buffer[i - 1] := buffer[i - 1] - 128;
    bs := buffer[..i];
    assert bs == done[..i - 1] + [done[i - 1] - 128];
  }

  /** `bs` with the mark of a following byte on its last one. */
  ghost predicate EndsMarked(marked: seq<byte>, bs: seq<byte>) {
    var n := |marked|;
    n > 0 && marked[n - 1] >= 128 && bs == marked[..n - 1] + [marked[n - 1] - 128]
  }

  lemma NextGroupOf(bs: seq<byte>, done: seq<byte>, rest: nat)
    requires rest > 0 && bs == done + EncodeVarint(rest)
    ensures var next := done + [128 + rest % 128];
      && |done| < |bs|
      && (rest >= 128 ==> bs == next + EncodeVarint(rest / 128))
      && (rest < 128 ==> EndsMarked(next, bs))
  {
    if rest >= 128 {
      var more := EncodeVarint(rest / 128);
      assert EncodeVarint(rest) == [128 + rest % 128] + more;
      hide EncodeVarint;
      assert done + ([128 + rest % 128] + more) == (done + [128 + rest % 128]) + more;
    } else {
      assert EncodeVarint(rest) == [rest];
      hide EncodeVarint;
      var next := done + [128 + rest];
      assert next[..|done|] == done;
    }
  }

  lemma PackableFits(k: Kind, items: seq<Value>)
    requires Packable(k) && AllStorable(k, items)
    ensures AllFit(k, items, false)
  {
  }
}
