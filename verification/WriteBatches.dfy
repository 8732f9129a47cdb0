/** Write batches as bytes, and how they reach the memtable (db/write_batch). */
module WriteBatches {
  import opened Options
  import opened Keys
  import opened Coding
  import opened Slices
  import opened History
  import Bytewise

  datatype RawOp = RawPut(key: Bytes, value: Bytes) | RawDelete(key: Bytes)
  datatype Status = Ok | TooSmall | BadPut | BadDelete | UnknownTag | WrongCount

  /** Eight bytes of sequence number and four of count. */
  const HEADER: nat := 12

  function OpBytes(op: RawOp): (bs: Bytes)
    ensures bs != []
  {
    match op
    case RawPut(key, value) => [1] + PutSlice(key) + PutSlice(value)
    case RawDelete(key) => [0] + PutSlice(key)
  }

  function OpsBytes(ops: seq<RawOp>): Bytes {
    if ops == [] then [] else OpsBytes(ops[..|ops| - 1]) + OpBytes(ops[|ops| - 1])
  }

  function SequenceOf(rep: Bytes): nat
    requires |rep| >= HEADER
  {
    DecodeFixed64(rep[..8])
  }

  function CountOf(rep: Bytes): Word
    requires |rep| >= HEADER
  {
    DecodeFixed32(rep[8..12])
  }

  /** A count has 32 bits. */
  function Wrap(n: nat): Word {
    n % 0x1_0000_0000
  }

  function WithCount(rep: Bytes, count: Word): (rep': Bytes)
    requires |rep| >= HEADER
    ensures |rep'| == |rep|
  {
    rep[..8] + EncodeFixed32(count) + rep[12..]
  }

  /** The bytes are a batch with this number and these operations. */
  ghost predicate IsBatch(rep: Bytes, sequence: nat, ops: seq<RawOp>) {
    && sequence < TWO64 && |rep| >= HEADER && rep[..8] == EncodeFixed64(sequence)
    && rep[8..12] == EncodeFixed32(Wrap(|ops|)) && rep[HEADER..] == OpsBytes(ops)
  }

  // ---- reading ----

  datatype Taken = Took(op: RawOp, rest: Bytes) | Refused(status: Status)

  /** The first operation in the bytes. */
  function TakeOp(input: Bytes): (r: Taken)
    requires input != []
    ensures r.Took? ==> |r.rest| < |input|
  {
    if input[0] == 1 then
      var key := TakeSlice(input[1..]);
      if key.None? then Refused(BadPut)
      else
        var value := TakeSlice(key.value.1);
        if value.None? then Refused(BadPut) else Took(RawPut(key.value.0, value.value.0), value.value.1)
    else if input[0] == 0 then
      var key := TakeSlice(input[1..]);
      if key.None? then Refused(BadDelete) else Took(RawDelete(key.value.0), key.value.1)
    else Refused(UnknownTag)
  }

  /** The operations up to the end, or to the first that cannot be read. */
  function TakeOps(input: Bytes): (seq<RawOp>, Status)
    decreases |input|
  {
    if input == [] then ([], Ok)
    else
      var first := TakeOp(input);
      if first.Refused? then ([], first.status)
      else
        var more := TakeOps(first.rest);
        ([first.op] + more.0, more.1)
  }

  /** What a memtable is given. */
  datatype Addition = Addition(user: Bytes, sn: nat, typ: ValueType, value: Bytes)

  function Added(op: RawOp, sn: nat): Addition {
    match op
    case RawPut(key, value) => Addition(key, sn, TypeValue, value)
    case RawDelete(key) => Addition(key, sn, TypeDeletion, [])
  }

  /** The operations with consecutive numbers. */
  function Numbered(ops: seq<RawOp>, sequence: nat): seq<Addition> {
    seq(|ops|, i requires 0 <= i < |ops| => Added(ops[i], sequence + i))
  }

  class MemTableInserter {
    var sequence: nat
    var mem: seq<Addition>

    constructor (sequence: nat, mem: seq<Addition>)
      ensures this.sequence == sequence && this.mem == mem
    {
      this.sequence, this.mem := sequence, mem;
    }

    method Put(key: Bytes, value: Bytes)
      modifies this
      ensures mem == old(mem) + [Addition(key, old(sequence), TypeValue, value)] && sequence == old(sequence) + 1
    {
      mem, sequence := mem + [Addition(key, sequence, TypeValue, value)], sequence + 1;
    }

    method Delete(key: Bytes)
      modifies this
      ensures mem == old(mem) + [Addition(key, old(sequence), TypeDeletion, [])] && sequence == old(sequence) + 1
    {
      mem, sequence := mem + [Addition(key, sequence, TypeDeletion, [])], sequence + 1;
    }
  }

  class WriteBatch {
    var rep: Bytes

    constructor ()
      ensures IsBatch(rep, 0, [])
    {
      rep := Zeros(HEADER);
      new;
      EmptyBatch();
    }

    method Clear()
      modifies this
      ensures IsBatch(rep, 0, [])
    {
      rep := Zeros(HEADER);
      EmptyBatch();
    }

    method SetCount(count: Word)
      requires |rep| >= HEADER
      modifies this
      ensures rep == WithCount(old(rep), count)
    {
      rep := rep[..8] + EncodeFixed32(count) + rep[12..];
    }

    method SetSequence(sequence: nat)
      requires |rep| >= HEADER && sequence < TWO64
      modifies this
      ensures rep == EncodeFixed64(sequence) + old(rep)[8..]
      ensures forall s, ops :: IsBatch(old(rep), s, ops) ==> IsBatch(rep, sequence, ops)
    {
      ghost var was := rep;
      rep := EncodeFixed64(sequence) + rep[8..];
      forall s, ops | IsBatch(was, s, ops)
        ensures IsBatch(rep, sequence, ops)
      {
        Renumbered(was, s, ops, sequence);
      }
    }

    method Put(key: Bytes, value: Bytes)
      requires |rep| >= HEADER
      modifies this
      ensures rep == WithCount(old(rep), Wrap(CountOf(old(rep)) + 1)) + OpBytes(RawPut(key, value))
      ensures forall s, ops :: IsBatch(old(rep), s, ops) ==> IsBatch(rep, s, ops + [RawPut(key, value)])
    {
      hide IsBatch, WithCount, CountOf, OpBytes, Wrap;
      ghost var was := rep;
      SetCount(Wrap(CountOf(rep) + 1));
      rep := rep + [1];
      rep := rep + PutSlice(key);
      rep := rep + PutSlice(value);
      PutBytes(WithCount(was, Wrap(CountOf(was) + 1)), key, value);
      forall s, ops | IsBatch(was, s, ops)
        ensures IsBatch(rep, s, ops + [RawPut(key, value)])
      {
        OneMore(was, s, ops, RawPut(key, value));
      }
    }

    method Delete(key: Bytes)
      requires |rep| >= HEADER
      modifies this
      ensures rep == WithCount(old(rep), Wrap(CountOf(old(rep)) + 1)) + OpBytes(RawDelete(key))
      ensures forall s, ops :: IsBatch(old(rep), s, ops) ==> IsBatch(rep, s, ops + [RawDelete(key)])
    {
      hide IsBatch, WithCount, CountOf, OpBytes, Wrap;
      ghost var was := rep;
      SetCount(Wrap(CountOf(rep) + 1));
      rep := rep + [0];
      rep := rep + PutSlice(key);
      DeleteBytes(WithCount(was, Wrap(CountOf(was) + 1)), key);
      forall s, ops | IsBatch(was, s, ops)
        ensures IsBatch(rep, s, ops + [RawDelete(key)])
      {
        OneMore(was, s, ops, RawDelete(key));
      }
    }

    /** The other batch's operations follow, under this one's number; a batch may be appended to itself. */
    method Append(source: WriteBatch)
      requires |rep| >= HEADER && |source.rep| >= HEADER
      modifies this
      ensures rep == WithCount(old(rep), Wrap(CountOf(old(rep)) + CountOf(old(source.rep)))) + old(source.rep)[HEADER..]
      ensures forall s, ops, t, more :: IsBatch(old(rep), s, ops) && IsBatch(old(source.rep), t, more) ==> IsBatch(rep, s, ops + more)
    {
      hide IsBatch, WithCount, Wrap, CountOf;
      ghost var was, other := rep, source.rep;
      SetCount(Wrap(CountOf(rep) + CountOf(source.rep)));
      TailStays(was, Wrap(CountOf(was) + CountOf(other)));
      rep := rep + source.rep[HEADER..];
      forall s, ops, t, more | IsBatch(was, s, ops) && IsBatch(other, t, more)
        ensures IsBatch(rep, s, ops + more)
      {
        Joined(was, s, ops, other, t, more);
      }
    }

    /** The first operation of the input, handed to the memtable if it can be read. */
    method HandOver(input: Bytes, handler: MemTableInserter) returns (r: Taken)
      requires input != []
      modifies handler
      ensures r == TakeOp(input)
      ensures r.Refused? ==> handler.mem == old(handler.mem) && handler.sequence == old(handler.sequence)
      ensures r.Took? ==> handler.mem == old(handler.mem) + [Added(r.op, old(handler.sequence))] && handler.sequence == old(handler.sequence) + 1
    {
      hide TakeSlice;
      var tag := input[0];
      if tag == 1 {
        var key := TakeSlice(input[1..]);
        if key.None? {
          return Refused(BadPut);
        }
        var value := TakeSlice(key.value.1);
        if value.None? {
          return Refused(BadPut);
        }
        handler.Put(key.value.0, value.value.0);
        return Took(RawPut(key.value.0, value.value.0), value.value.1);
      }
      if tag == 0 {
        var key := TakeSlice(input[1..]);
        if key.None? {
          return Refused(BadDelete);
        }
        handler.Delete(key.value.0);
        return Took(RawDelete(key.value.0), key.value.1);
      }
      return Refused(UnknownTag);
    }

    /** Hands the operations to the memtable, one after the other, up to the end or the first that cannot be read;
        the count is compared afterwards. */
    method Iterate(handler: MemTableInserter) returns (status: Status)
      modifies handler
      ensures |rep| < HEADER ==> status == TooSmall && handler.mem == old(handler.mem)
      ensures |rep| >= HEADER ==>
                var read := TakeOps(rep[HEADER..]);
                && handler.mem == old(handler.mem) + Numbered(read.0, old(handler.sequence))
                && status == if read.1 != Ok then read.1 else if |read.0| == CountOf(rep) then Ok else WrongCount
    {
      hide *;
      if |rep| < HEADER {
        return TooSmall;
      }
      var input := rep[HEADER..];
      var found: nat := 0;
      ghost var whole, start, before := rep[HEADER..], handler.sequence, handler.mem;
      ghost var done: seq<RawOp> := [];
      NothingTaken(before, start, whole);
      while input != []
        invariant rep == old(rep) && handler.sequence == start + found && Progress(whole, before, start, done, input, found, handler.mem)
        decreases |input|
      {
        found := found + 1;
        ghost var was, mem := input, handler.mem;
        var next := HandOver(input, handler);
        TakesOn(whole, before, start, done, was, found - 1, mem);
        if next.Refused? {
          return next.status;
        }
        input := next.rest;
        done := done + [next.op];
      }
      AllTaken(whole, before, start, done, found, handler.mem);
      return if found == CountOf(rep) then Ok else WrongCount;
    }
  }

  /** `done` has been read and handed over, `input` is still to be read. */
  ghost predicate Progress(whole: Bytes, before: seq<Addition>, start: nat, done: seq<RawOp>, input: Bytes, found: nat, mem: seq<Addition>) {
    found == |done| && mem == before + Numbered(done, start) && TakeOps(whole) == (done + TakeOps(input).0, TakeOps(input).1)
  }

  lemma NothingTaken(before: seq<Addition>, start: nat, whole: Bytes)
    ensures Progress(whole, before, start, [], whole, 0, before)
  {
    hide TakeOps, Added;
    assert [] + TakeOps(whole).0 == TakeOps(whole).0;
    assert before + Numbered([], start) == before;
  }

  /** One operation more is handed over, or none can be. */
  lemma TakesOn(whole: Bytes, before: seq<Addition>, start: nat, done: seq<RawOp>, input: Bytes, found: nat, mem: seq<Addition>)
    requires input != [] && Progress(whole, before, start, done, input, found, mem)
    ensures var first := TakeOp(input);
      && (first.Took? ==> |first.rest| < |input| && Progress(whole, before, start, done + [first.op], first.rest, found + 1, mem + [Added(first.op, start + found)]))
      && (first.Refused? ==> TakeOps(whole) == (done, first.status) && first.status != Ok && mem == before + Numbered(done, start))
  {
    hide TakeOp, TakeOps, Numbered, Added;
    TakesNext(done, input);
    NumberedNext(before, done, start, TakeOp(input));
    RefusedWith(input);
  }

  lemma TakesNext(done: seq<RawOp>, input: Bytes)
    requires input != []
    ensures var first := TakeOp(input);
      (done + TakeOps(input).0, TakeOps(input).1) ==
        if first.Refused? then (done, first.status) else (done + [first.op] + TakeOps(first.rest).0, TakeOps(first.rest).1)
  {
    hide TakeOp;
    var first := TakeOp(input);
    if first.Took? {
      var more := TakeOps(first.rest).0;
      assert done + ([first.op] + more) == (done + [first.op]) + more;
    } else {
      assert done + [] == done;
    }
  }

  lemma NumberedNext(before: seq<Addition>, done: seq<RawOp>, start: nat, first: Taken)
    ensures first.Took? ==> before + Numbered(done + [first.op], start) == before + Numbered(done, start) + [Added(first.op, start + |done|)]
  {
    hide Added;
  }

  lemma RefusedWith(input: Bytes)
    requires input != []
    ensures TakeOp(input).Refused? ==> TakeOp(input).status != Ok
  {
    hide TakeSlice;
  }

  lemma AllTaken(whole: Bytes, before: seq<Addition>, start: nat, done: seq<RawOp>, found: nat, mem: seq<Addition>)
    requires Progress(whole, before, start, done, [], found, mem)
    ensures TakeOps(whole) == (done, Ok) && mem == before + Numbered(done, start) && found == |done|
  {
    assert done + [] == done;
  }

  /** WriteBatchInternal::InsertInto: a batch goes into the memtable under consecutive numbers from its own on. */
  method InsertInto(b: WriteBatch, mem: seq<Addition>) returns (status: Status, mem': seq<Addition>)
    requires |b.rep| >= HEADER
    ensures var read := TakeOps(b.rep[HEADER..]);
      && mem' == mem + Numbered(read.0, SequenceOf(b.rep))
      && status == if read.1 != Ok then read.1 else if |read.0| == CountOf(b.rep) then Ok else WrongCount
  {
    var inserter := new MemTableInserter(SequenceOf(b.rep), mem);
    status := b.Iterate(inserter);
    mem' := inserter.mem;
  }

  // ---- what is written is a batch ----

  lemma EmptyBatch()
    ensures IsBatch(Zeros(HEADER), 0, [])
  {
    assert EncodeFixed32(0) == [0, 0, 0, 0];
  }

  lemma PutBytes(rep: Bytes, key: Bytes, value: Bytes)
    ensures rep + [1] + PutSlice(key) + PutSlice(value) == rep + OpBytes(RawPut(key, value))
  {
    hide PutSlice;
  }

  lemma DeleteBytes(rep: Bytes, key: Bytes)
    ensures rep + [0] + PutSlice(key) == rep + OpBytes(RawDelete(key))
  {
    hide PutSlice;
  }

  lemma Counted(rep: Bytes, s: nat, ops: seq<RawOp>)
    requires IsBatch(rep, s, ops)
    ensures |rep| >= HEADER && SequenceOf(rep) == s < TWO64 && CountOf(rep) == Wrap(|ops|)
    ensures rep[..8] == EncodeFixed64(s) && rep[HEADER..] == OpsBytes(ops)
  {
    Fixed64RoundTrip(s);
    hide EncodeFixed64, DecodeFixed64, EncodeFixed32, DecodeFixed32, OpsBytes, Wrap;
  }

  lemma Renumbered(rep: Bytes, s: nat, ops: seq<RawOp>, sequence: nat)
    requires IsBatch(rep, s, ops) && sequence < TWO64
    ensures |rep| >= HEADER && IsBatch(EncodeFixed64(sequence) + rep[8..], sequence, ops)
  {
    hide EncodeFixed64, EncodeFixed32, OpsBytes;
    var rep' := EncodeFixed64(sequence) + rep[8..];
    assert rep'[..8] == EncodeFixed64(sequence) && rep'[8..12] == rep[8..12] && rep'[HEADER..] == rep[HEADER..];
  }

  /** A new count and more bytes behind. */
  lemma Recounted(rep: Bytes, count: Word, tail: Bytes)
    requires |rep| >= HEADER
    ensures var rep' := WithCount(rep, count) + tail;
      && |rep'| >= HEADER && rep'[..8] == rep[..8] && rep'[8..12] == EncodeFixed32(count) && rep'[HEADER..] == rep[HEADER..] + tail
  {
    hide EncodeFixed32;
  }

  lemma TailStays(rep: Bytes, count: Word)
    requires |rep| >= HEADER
    ensures WithCount(rep, count)[HEADER..] == rep[HEADER..]
  {
    hide EncodeFixed32;
  }

  lemma OneMore(rep: Bytes, s: nat, ops: seq<RawOp>, op: RawOp)
    requires IsBatch(rep, s, ops)
    ensures |rep| >= HEADER && IsBatch(WithCount(rep, Wrap(CountOf(rep) + 1)) + OpBytes(op), s, ops + [op])
  {
    hide *;
    Counted(rep, s, ops);
    OpsOfOne(op);
    OpsJoin(ops, [op]);
    CountsAdd(|ops|, 1);
    Recounted(rep, Wrap(CountOf(rep) + 1), OpBytes(op));
    MakesBatch(WithCount(rep, Wrap(CountOf(rep) + 1)) + OpBytes(op), s, ops + [op]);
  }

  lemma MakesBatch(rep: Bytes, s: nat, ops: seq<RawOp>)
    requires s < TWO64 && |rep| >= HEADER && rep[..8] == EncodeFixed64(s)
    requires rep[8..12] == EncodeFixed32(Wrap(|ops|)) && rep[HEADER..] == OpsBytes(ops)
    ensures IsBatch(rep, s, ops)
  {
  }

  lemma OpsOfOne(op: RawOp)
    ensures OpsBytes([op]) == OpBytes(op)
  {
    assert [op][..0] == [];
  }

  lemma CountsAdd(a: nat, b: nat)
    ensures Wrap(Wrap(a) + Wrap(b)) == Wrap(a + b) && Wrap(1) == 1
  {
  }

  lemma {:induction false} OpsJoin(a: seq<RawOp>, b: seq<RawOp>)
    ensures OpsBytes(a + b) == OpsBytes(a) + OpsBytes(b)
  {
    hide OpBytes;
    if b == [] {
      assert a + b == a;
    } else {
      assert (a + b)[..|a + b| - 1] == a + b[..|b| - 1];
      OpsJoin(a, b[..|b| - 1]);
    }
  }

  lemma Joined(rep: Bytes, s: nat, ops: seq<RawOp>, other: Bytes, t: nat, more: seq<RawOp>)
    requires IsBatch(rep, s, ops) && IsBatch(other, t, more)
    ensures |rep| >= HEADER && |other| >= HEADER
    ensures IsBatch(WithCount(rep, Wrap(CountOf(rep) + CountOf(other))) + other[HEADER..], s, ops + more)
  {
    hide *;
    Counted(rep, s, ops);
    Counted(other, t, more);
    OpsJoin(ops, more);
    CountsAdd(|ops|, |more|);
    Recounted(rep, Wrap(CountOf(rep) + CountOf(other)), other[HEADER..]);
    MakesBatch(WithCount(rep, Wrap(CountOf(rep) + CountOf(other))) + other[HEADER..], s, ops + more);
  }

  // ---- what a batch means ----

  predicate Short(op: RawOp) {
    |op.key| <= WORD_MAX && (op.RawPut? ==> |op.value| <= WORD_MAX)
  }

  predicate AllShort(ops: seq<RawOp>) {
    forall i :: 0 <= i < |ops| ==> Short(ops[i])
  }

  lemma OpTaken(op: RawOp, rest: Bytes)
    requires Short(op)
    ensures TakeOp(OpBytes(op) + rest) == Took(op, rest)
  {
    hide PutSlice, TakeSlice;
    var input := OpBytes(op) + rest;
    match op
    case RawPut(key, value) =>
      assert input[1..] == PutSlice(key) + (PutSlice(value) + rest);
      SliceTaken(key, PutSlice(value) + rest);
      SliceTaken(value, rest);
    case RawDelete(key) =>
      assert input[1..] == PutSlice(key) + rest;
      SliceTaken(key, rest);
  }

  /** Operations in front of any bytes are read before what follows: if that is damaged, they have reached the memtable
      all the same. */
  lemma OneThenRest(op: RawOp, rest: Bytes)
    requires Short(op)
    ensures TakeOps(OpBytes(op) + rest) == ([op] + TakeOps(rest).0, TakeOps(rest).1)
  {
    OpTaken(op, rest);
    hide OpBytes, TakeOp;
  }

  lemma {:induction false} OpsThenRest(ops: seq<RawOp>, rest: Bytes)
    requires AllShort(ops)
    ensures TakeOps(OpsBytes(ops) + rest) == (ops + TakeOps(rest).0, TakeOps(rest).1)
    decreases |ops|
  {
    hide OpBytes, TakeOps;
    if ops == [] {
      assert OpsBytes(ops) + rest == rest;
      assert ops + TakeOps(rest).0 == TakeOps(rest).0;
    } else {
      var front, op := ops[..|ops| - 1], ops[|ops| - 1];
      assert OpsBytes(ops) + rest == OpsBytes(front) + (OpBytes(op) + rest);
      OpsThenRest(front, OpBytes(op) + rest);
      OneThenRest(op, rest);
      assert front + ([op] + TakeOps(rest).0) == ops + TakeOps(rest).0;
    }
  }

  /** A batch is read back: its number, its operations in order, and a count that agrees. */
  lemma BatchReads(rep: Bytes, s: nat, ops: seq<RawOp>)
    requires IsBatch(rep, s, ops) && AllShort(ops) && |ops| < 0x1_0000_0000
    ensures |rep| >= HEADER && SequenceOf(rep) == s && CountOf(rep) == |ops| && TakeOps(rep[HEADER..]) == (ops, Ok)
  {
    hide *;
    Counted(rep, s, ops);
    WrapsNot(|ops|);
    OpsThenRest(ops, []);
    NoOps();
    assert OpsBytes(ops) + [] == OpsBytes(ops) && ops + [] == ops;
  }

  lemma WrapsNot(n: nat)
    requires n < 0x1_0000_0000
    ensures Wrap(n) == n
  {
  }

  lemma NoOps()
    ensures TakeOps([]) == ([], Ok)
  {
  }

  /** An operation and an addition as the rest of the project sees them; `load` gives the value that bytes stand for. */
  function Meaning(op: RawOp, load: Bytes -> Value): Op {
    match op
    case RawPut(key, value) => Put(Bytewise.Rank(key), load(value))
    case RawDelete(key) => Delete(Bytewise.Rank(key))
  }

  function EntryOf(a: Addition, load: Bytes -> Value): Entry
    requires a.sn <= MAX_SEQUENCE
  {
    Entry(InternalKey(Bytewise.Rank(a.user), a.sn, a.typ), if a.typ.TypeValue? then load(a.value) else [])
  }

  /** What InsertInto adds is the record's entries. */
  lemma InsertedIsRecord(ops: seq<RawOp>, s: nat, load: Bytes -> Value, e: Entry)
    requires s + |ops| <= MAX_SEQUENCE + 1
    ensures var r := Record(s, seq(|ops|, i requires 0 <= i < |ops| => Meaning(ops[i], load)));
      e in RecordEntries(r) <==> exists i :: 0 <= i < |ops| && e == EntryOf(Numbered(ops, s)[i], load)
  {
    var r := Record(s, seq(|ops|, i requires 0 <= i < |ops| => Meaning(ops[i], load)));
    forall i | 0 <= i < |ops|
      ensures OpEntry(r.ops[i], s + i) == EntryOf(Numbered(ops, s)[i], load)
    {
    }
    hide OpEntry, EntryOf;
  }

  // ---- the bytes of an example ----

  /** "foo" set to "bar" and "box" deleted, from number 100 on. */
  lemma ExampleBatch(rep: Bytes)
    requires IsBatch(rep, 100, [RawPut([0x66, 0x6f, 0x6f], [0x62, 0x61, 0x72]), RawDelete([0x62, 0x6f, 0x78])])
    ensures rep == [100, 0, 0, 0, 0, 0, 0, 0, 2, 0, 0, 0,
                    1, 3, 0x66, 0x6f, 0x6f, 3, 0x62, 0x61, 0x72,
                    0, 3, 0x62, 0x6f, 0x78]
  {
    hide OpBytes, OpsBytes, EncodeFixed64, EncodeFixed32;
    ExampleOps();
    ExampleHead();
    WrapsNot(2);
    assert rep == rep[..8] + rep[8..12] + rep[12..];
  }

  lemma ExampleOps()
    ensures OpsBytes([RawPut([0x66, 0x6f, 0x6f], [0x62, 0x61, 0x72]), RawDelete([0x62, 0x6f, 0x78])]) ==
      [1, 3, 0x66, 0x6f, 0x6f, 3, 0x62, 0x61, 0x72, 0, 3, 0x62, 0x6f, 0x78]
  {
    var put, delete := RawPut([0x66, 0x6f, 0x6f], [0x62, 0x61, 0x72]), RawDelete([0x62, 0x6f, 0x78]);
    assert EncodeVarint(3) == [3];
    assert OpBytes(put) == [1, 3, 0x66, 0x6f, 0x6f, 3, 0x62, 0x61, 0x72];
    assert OpBytes(delete) == [0, 3, 0x62, 0x6f, 0x78];
    hide OpBytes, OpsBytes;
    JoinsTwo(put, delete);
    assert [1, 3, 0x66, 0x6f, 0x6f, 3, 0x62, 0x61, 0x72] + [0, 3, 0x62, 0x6f, 0x78] ==
      [1, 3, 0x66, 0x6f, 0x6f, 3, 0x62, 0x61, 0x72, 0, 3, 0x62, 0x6f, 0x78];
  }

  lemma JoinsTwo(a: RawOp, b: RawOp)
    ensures OpsBytes([a, b]) == OpBytes(a) + OpBytes(b)
  {
    assert [a, b][..1] == [a];
    OpsOfOne(a);
    hide OpBytes;
  }

  lemma ExampleHead()
    ensures EncodeFixed64(100) == [100, 0, 0, 0, 0, 0, 0, 0] && EncodeFixed32(2) == [2, 0, 0, 0]
  {
    assert EncodeFixed32(100) == [100, 0, 0, 0] && EncodeFixed32(0) == [0, 0, 0, 0];
  }
}
