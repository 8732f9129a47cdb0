/** The bytes of a log in numbers, and what a reader can get out of any bytes at all: nothing but records whose
    fragments stand there, whole and with the right checksums. */
module LogLayout {
  import opened Options
  import opened Coding
  import opened LogFormat
  import opened LogReading

  // ---- what is written ----

  /** The checksum is rotated right by 15 bits, a constant is added, and it is written least significant byte first;
      then come two bytes of length, the lower one first, and the type. */
  lemma HeaderBytes(crc: Crc, f: Fragment)
    requires |f.data| <= 65535
    ensures var c := crc(f.typ, f.data);
      var masked := (c / 32768 + c % 32768 * 131072 + 0xa282ead8) % 0x1_0000_0000;
      Header(crc, f) == [masked % 256, masked / 256 % 256, masked / 65536 % 256, masked / 16777216 % 256,
                         |f.data| % 256, |f.data| / 256, f.typ]
  {
    FixedLayout(Mask(crc(f.typ, f.data)));
    hide EncodeFixed32;
  }

  /** A record, from position pos on: up to six bytes that are left of the block are filled with zeros; then comes a
      fragment with as much as the block of 32768 bytes has room for, of type 1 if that is all of the record, 2 if it
      is the first part, 4 if it is the last and 3 otherwise; then the rest. */
  lemma NextPiece(crc: Crc, pos: nat, data: seq<byte>, begin: bool)
    ensures var left := 32768 - pos % 32768;
      var unused := if left < 7 then left else 0;
      var room := (if left < 7 then 32768 else left) - 7;
      var n := if |data| < room then |data| else room;
      var typ: byte := if begin then (if n == |data| then 1 else 2) else if n == |data| then 4 else 3;
      Emit(crc, pos, data, begin) ==
        seq(unused, _ => 0) + Header(crc, Fragment(typ, data[..n])) + data[..n]
        + if n == |data| then [] else Emit(crc, pos + unused + 7 + n, data[n..], false)
  {
    EmitIs(crc, pos, data, begin);
    RoomIs(pos);
    FragmentIs(pos, data, begin);
    ZerosAre(Trailer(pos));
    hide *;
    assert Zeros(Trailer(pos)) == seq(Trailer(pos), _ => 0);
  }

  lemma EmitIs(crc: Crc, pos: nat, data: seq<byte>, begin: bool)
    ensures var f := NextFragment(pos, data, begin);
      Emit(crc, pos, data, begin) ==
        Zeros(Trailer(pos)) + Header(crc, f) + f.data
        + if |f.data| == |data| then [] else Emit(crc, pos + Trailer(pos) + 7 + |f.data|, data[|f.data|..], false)
  {
    hide NextFragment, Trailer, Header, Zeros;
  }

  lemma ZerosAre(n: nat)
    ensures |Zeros(n)| == n && forall i :: 0 <= i < n ==> Zeros(n)[i] == 0
  {
  }

  lemma FragmentIs(pos: nat, data: seq<byte>, begin: bool)
    ensures var n := if |data| < Avail(pos) then |data| else Avail(pos);
      NextFragment(pos, data, begin) ==
        Fragment(if begin then (if n == |data| then 1 else 2) else if n == |data| then 4 else 3, data[..n])
  {
  }

  lemma RoomIs(pos: nat)
    ensures var left := 32768 - pos % 32768;
      Trailer(pos) == (if left < 7 then left else 0) && Avail(pos) == (if left < 7 then 32768 else left) - 7
  {
    var left := 32768 - pos % 32768;
    if left < 7 {
      assert (pos + left) % 32768 == 0;
    }
  }

  /** A short record in a new log is one fragment of type 1. */
  lemma OneRecord(crc: Crc, data: seq<byte>)
    requires |data| <= 32761
    ensures LogBytes(crc, [data]) == Header(crc, Fragment(1, data)) + data
  {
    NextPiece(crc, 0, data, true);
    assert [data][..0] == [];
    assert data[..|data|] == data;
    assert LogBytes(crc, []) == [];
    hide Emit, Header;
  }

  // ---- what is read of any bytes ----

  lemma MaskUnmask(masked: Word)
    ensures Mask(Unmask(masked)) == masked
  {
    var rot := (masked + 0x1_0000_0000 - MASK_DELTA) % 0x1_0000_0000;
    var q, r := rot / 0x2_0000, rot % 0x2_0000;
    assert Unmask(masked) / 0x8000 == r && Unmask(masked) % 0x8000 == q;
  }

  lemma FourBytes(bs: seq<byte>)
    requires |bs| == 4
    ensures EncodeFixed32(DecodeFixed32(bs)) == bs
  {
    var back := EncodeFixed32(DecodeFixed32(bs));
    hide EncodeFixed32;
    LowByte(bs[0], 0x100 * (bs[2] as int + 0x100 * bs[3] as int) + bs[1] as int, back[0], 0x100 * (back[2] as int + 0x100 * back[3] as int) + back[1] as int);
    LowByte(bs[1], 0x100 * bs[3] as int + bs[2] as int, back[1], 0x100 * back[3] as int + back[2] as int);
    LowByte(bs[2], bs[3] as int, back[2], back[3] as int);
  }

  lemma LowByte(a: byte, x: nat, b: byte, y: nat)
    requires a as int + 0x100 * x == b as int + 0x100 * y
    ensures a == b && x == y
  {
  }

  /** A buffer yields a fragment exactly if it starts with one as it is written; type 0 without data is not one. */
  lemma GotExactly(crc: Crc, file: seq<byte>, c: Cursor, f: Fragment)
    requires InFile(file, c) && c.limit - c.at >= 7
    ensures Parse(crc, file, c).result == Got(f) <==>
      |f.data| <= 65535 && !(f.typ == 0 && f.data == []) && c.at + 7 + |f.data| <= c.limit && HasAt(file, c.at, Header(crc, f) + f.data)
    ensures Parse(crc, file, c).result == Got(f) ==> Parse(crc, file, c) == Parsed(Got(f), Cursor(c.at + 7 + |f.data|, c.limit, c.eof), [])
  {
    if Parse(crc, file, c).result == Got(f) {
      GotStands(crc, file, c, f);
    }
    hide Parse, HasAt, Header;
    if |f.data| <= 65535 && !(f.typ == 0 && f.data == []) && c.at + 7 + |f.data| <= c.limit && HasAt(file, c.at, Header(crc, f) + f.data) {
      StandsGot(crc, file, c, f);
    }
  }

  lemma TwoParts(file: seq<byte>, at: nat, limit: nat, n: nat)
    requires 7 <= n && at + n <= limit <= |file|
    ensures file[at..at + n] == file[at..limit][..7] + file[at..limit][7..n]
  {
  }

  lemma GotStands(crc: Crc, file: seq<byte>, c: Cursor, f: Fragment)
    requires InFile(file, c) && c.limit - c.at >= 7 && Parse(crc, file, c).result == Got(f)
    ensures |f.data| <= 65535 && !(f.typ == 0 && f.data == []) && c.at + 7 + |f.data| <= c.limit && HasAt(file, c.at, Header(crc, f) + f.data)
    ensures Parse(crc, file, c) == Parsed(Got(f), Cursor(c.at + 7 + |f.data|, c.limit, c.eof), [])
  {
    hide Mask, Unmask, DecodeFixed32, EncodeFixed32;
    var buffer := file[c.at..c.limit];
    var n := 7 + |f.data|;
    MaskUnmask(DecodeFixed32(buffer[..4]));
    FourBytes(buffer[..4]);
    assert Header(crc, f) == buffer[..4] + [buffer[4], buffer[5], buffer[6]];
    assert buffer[..4] + [buffer[4], buffer[5], buffer[6]] == buffer[..7];
    TwoParts(file, c.at, c.limit, n);
  }

  lemma StandsGot(crc: Crc, file: seq<byte>, c: Cursor, f: Fragment)
    requires InFile(file, c) && |f.data| <= 65535 && !(f.typ == 0 && f.data == [])
    requires c.at + 7 + |f.data| <= c.limit && HasAt(file, c.at, Header(crc, f) + f.data)
    ensures Parse(crc, file, c).result == Got(f)
  {
    BufferHas(crc, file, c, f);
    UnmaskMask(crc(f.typ, f.data));
    hide Mask, Unmask, Header, HasAt;
  }

  lemma BufferHas(crc: Crc, file: seq<byte>, c: Cursor, f: Fragment)
    requires InFile(file, c) && |f.data| <= 65535 && c.at + 7 + |f.data| <= c.limit && HasAt(file, c.at, Header(crc, f) + f.data)
    ensures var buffer := file[c.at..c.limit];
      && buffer[..4] == EncodeFixed32(Mask(crc(f.typ, f.data))) && buffer[4] == |f.data| % 0x100 && buffer[5] == |f.data| / 0x100
      && buffer[6] == f.typ && buffer[7..7 + |f.data|] == f.data
  {
    hide Mask, EncodeFixed32;
    var bs, n := Header(crc, f) + f.data, 7 + |f.data|;
    var buffer := file[c.at..c.limit];
    assert buffer[..n] == file[c.at..c.at + n] == bs;
    assert buffer[..n][..4] == buffer[..4] && bs[..4] == EncodeFixed32(Mask(crc(f.typ, f.data)));
    assert buffer[..n][4] == bs[4] && buffer[..n][5] == bs[5] && buffer[..n][6] == bs[6];
    assert buffer[..n][7..] == buffer[7..n] && bs[7..] == f.data;
  }

  /** Whatever is not such a fragment is given up with the rest of its block, and its size reported, unless it is
      cut off by the end of the file or begins with the zeros of unused space. */
  lemma GivenUp(crc: Crc, file: seq<byte>, c: Cursor)
    requires InFile(file, c) && c.limit - c.at >= 7 && !Parse(crc, file, c).result.Got?
    ensures var p, size, length := Parse(crc, file, c), c.limit - c.at, file[c.at + 4] as int + 256 * file[c.at + 5] as int;
      && p.cursor == Cursor(c.limit, c.limit, c.eof)
      && (p.result.Eof? <==> c.eof && length + 7 > size)
      && p.reports == if (length + 7 > size && c.eof) || (length == 0 && file[c.at + 6] == 0) then [] else [size]
  {
  }

  function Sum(sizes: seq<nat>): nat {
    if sizes == [] then 0 else sizes[0] + Sum(sizes[1..])
  }

  /** No payload disappears unreported: what a fragment brings and what was collected before it is returned, or kept,
      or told.  Only at the end of the file the beginning of a record is dropped without a word. */
  lemma NothingLost(scratch: seq<byte>, inside: bool, p: Physical)
    ensures var brought := (if inside then |scratch| else 0) + (if p.Got? then |p.f.data| else 0);
      match Take(scratch, inside, p)
      case Done(record, told) => if p.Eof? then record == None && told == [] else record.Some? && |record.value| + Sum(told) == brought
      case More(kept, inside', told) => (if inside' then |kept| else 0) + Sum(told) == brought
  {
    var partial := if inside && scratch != [] then [|scratch|] else [];
    assert Sum(partial) == if inside then |scratch| else 0;
  }

  // ---- records ----

  datatype Found = Found(at: nat, f: Fragment)

  function End(x: Found): nat {
    x.at + 7 + |x.f.data|
  }

  /** The fragment stands in the file as it is written, checksum included. */
  ghost predicate Stands(crc: Crc, file: seq<byte>, x: Found) {
    |x.f.data| <= 65535 && HasAt(file, x.at, Header(crc, x.f) + x.f.data)
  }

  function Payload(xs: seq<Found>): seq<byte> {
    if xs == [] then [] else Payload(xs[..|xs| - 1]) + xs[|xs| - 1].f.data
  }

  /** Fragments one after the other, between two positions. */
  ghost predicate InOrder(crc: Crc, file: seq<byte>, xs: seq<Found>, from: nat, to: nat) {
    && (forall i :: 0 <= i < |xs| ==> Stands(crc, file, xs[i]) && from <= xs[i].at && End(xs[i]) <= to)
    && (forall i, j :: 0 <= i < j < |xs| ==> End(xs[i]) <= xs[j].at)
  }

  /** Each follows the one before it, but for the unused end of a block. */
  ghost predicate Adjoin(xs: seq<Found>) {
    forall i :: 0 < i < |xs| ==> xs[i].at < End(xs[i - 1]) + 7
  }

  /** The beginning of a record: a fragment of type 2 and any number of type 3. */
  ghost predicate Begins(xs: seq<Found>, scratch: seq<byte>) {
    xs != [] && Adjoin(xs) && xs[0].f.typ == 2 && (forall i :: 1 <= i < |xs| ==> xs[i].f.typ == 3) && Payload(xs) == scratch
  }

  /** A record: one fragment of type 1, or the beginning of a record and one of type 4. */
  ghost predicate Spells(xs: seq<Found>, record: seq<byte>) {
    && xs != [] && Adjoin(xs) && Payload(xs) == record
    && (if |xs| == 1 then xs[0].f.typ == 1 else xs[|xs| - 1].f.typ == 4 && Begins(xs[..|xs| - 1], Payload(xs[..|xs| - 1])))
  }

  ghost predicate LastEnds(xs: seq<Found>, to: nat) {
    xs != [] && End(xs[|xs| - 1]) == to
  }

  lemma PhysicalSound(crc: Crc, file: seq<byte>, c: Cursor) returns (x: Found)
    requires InFile(file, c)
    ensures var p := NextPhysical(crc, file, c);
      p.result.Got? ==> x.f == p.result.f && Stands(crc, file, x) && c.at <= x.at < c.at + 7 && End(x) == p.cursor.at
  {
    var r := Refilled(file, c);
    x := Found(0, Fragment(0, []));
    if r.limit - r.at >= HEADER_SIZE && Parse(crc, file, r).result.Got? {
      var f := Parse(crc, file, r).result.f;
      GotExactly(crc, file, r, f);
      x := Found(r.at, f);
    }
  }

  /** A record that is returned is spelled by fragments in the file. */
  lemma {:induction false} LogicalSound(crc: Crc, file: seq<byte>, c: Cursor, scratch: seq<byte>, inside: bool, xs: seq<Found>, from: nat)
    returns (ys: seq<Found>)
    requires InFile(file, c) && from <= c.at
    requires inside ==> Begins(xs, scratch) && InOrder(crc, file, xs, from, c.at) && LastEnds(xs, c.at)
    ensures var o := NextLogical(crc, file, c, scratch, inside);
      o.record.Some? ==> Spells(ys, o.record.value) && InOrder(crc, file, ys, from, o.cursor.at)
    decreases |file| - c.at
  {
    hide *;
    var p := NextPhysical(crc, file, c);
    var x := PhysicalSound(crc, file, c);
    LogicalStep(crc, file, c, scratch, inside);
    TakeKinds(scratch, inside, p.result);
    match Take(scratch, inside, p.result)
    case Done(record, told) =>
      ys := if inside && p.result.Got? && p.result.f.typ == 4 then xs + [x] else [x];
      if record.Some? {
        Completes(crc, file, inside, xs, scratch, x, from, c.at, p.cursor.at);
      }
    case More(scratch', inside', told) =>
      var xs' := xs;
      if inside' {
        xs' := if p.result.f.typ == 2 then [x] else xs + [x];
        Continues(crc, file, inside, xs, scratch, x, from, c.at, p.cursor.at);
      }
      ys := LogicalSound(crc, file, p.cursor, scratch', inside', xs', from);
  }

  lemma LogicalStep(crc: Crc, file: seq<byte>, c: Cursor, scratch: seq<byte>, inside: bool)
    requires InFile(file, c)
    ensures var p, o := NextPhysical(crc, file, c), NextLogical(crc, file, c, scratch, inside);
      && InFile(file, p.cursor) && c.at <= p.cursor.at
      && match Take(scratch, inside, p.result)
         case Done(record, told) => o.record == record && o.cursor == p.cursor
         case More(scratch', inside', told) =>
           var o' := NextLogical(crc, file, p.cursor, scratch', inside');
           p.cursor.at > c.at && p.cursor.at <= |file| && o.record == o'.record && o.cursor == o'.cursor
  {
    hide NextPhysical;
    var p := NextPhysical(crc, file, c);
    if p.result.Eof? {
      EofAfter(crc, file, c);
    }
  }

  lemma EofAfter(crc: Crc, file: seq<byte>, c: Cursor)
    requires InFile(file, c)
    ensures c.at <= NextPhysical(crc, file, c).cursor.at
  {
  }

  /** What ends a record and what goes on with it. */
  lemma TakeKinds(scratch: seq<byte>, inside: bool, p: Physical)
    ensures match Take(scratch, inside, p)
      case Done(record, told) =>
        record.Some? ==> p.Got? && ((p.f.typ == 1 && record.value == p.f.data) || (p.f.typ == 4 && inside && record.value == scratch + p.f.data))
      case More(scratch', inside', told) =>
        inside' ==> p.Got? && ((p.f.typ == 2 && scratch' == p.f.data) || (p.f.typ == 3 && inside && scratch' == scratch + p.f.data))
  {
  }

  lemma Completes(crc: Crc, file: seq<byte>, inside: bool, xs: seq<Found>, scratch: seq<byte>, x: Found, from: nat, mid: nat, to: nat)
    requires inside ==> Begins(xs, scratch) && InOrder(crc, file, xs, from, mid) && LastEnds(xs, mid)
    requires Stands(crc, file, x) && from <= mid <= x.at < mid + 7 && End(x) == to
    ensures x.f.typ == 1 ==> Spells([x], x.f.data) && InOrder(crc, file, [x], from, to)
    ensures inside && x.f.typ == 4 ==> Spells(xs + [x], scratch + x.f.data) && InOrder(crc, file, xs + [x], from, to)
  {
    hide Stands;
    assert [x][..0] == [] && Payload([]) == [];
    assert (xs + [x])[..|xs|] == xs;
  }

  lemma Continues(crc: Crc, file: seq<byte>, inside: bool, xs: seq<Found>, scratch: seq<byte>, x: Found, from: nat, mid: nat, to: nat)
    requires inside ==> Begins(xs, scratch) && InOrder(crc, file, xs, from, mid) && LastEnds(xs, mid)
    requires Stands(crc, file, x) && from <= mid <= x.at < mid + 7 && End(x) == to
    ensures x.f.typ == 2 ==> Begins([x], x.f.data) && InOrder(crc, file, [x], from, to) && LastEnds([x], to)
    ensures inside && x.f.typ == 3 ==> Begins(xs + [x], scratch + x.f.data) && InOrder(crc, file, xs + [x], from, to) && LastEnds(xs + [x], to)
  {
    hide Stands;
    assert [x][..0] == [] && Payload([]) == [];
    assert (xs + [x])[..|xs|] == xs;
  }

  /** The fragments of each record, record after record. */
  ghost predicate AllSpelled(crc: Crc, file: seq<byte>, spelled: seq<seq<Found>>, records: seq<seq<byte>>, from: nat) {
    && |spelled| == |records|
    && (forall k :: 0 <= k < |records| ==> Spells(spelled[k], records[k]) && InOrder(crc, file, spelled[k], from, |file|))
    && (forall k, m, i, j :: 0 <= k < m < |records| && 0 <= i < |spelled[k]| && 0 <= j < |spelled[m]| ==> End(spelled[k][i]) <= spelled[m][j].at)
  }

  /** Whatever the bytes of a file, every record that a reader gets is spelled by checksummed fragments in it, in the
      order of the file, no fragment serving twice. */
  lemma {:induction false} ReadsOnlyRecords(crc: Crc, file: seq<byte>, c: Cursor) returns (spelled: seq<seq<Found>>)
    requires InFile(file, c)
    ensures AllSpelled(crc, file, spelled, ReadFrom(crc, file, c).records, c.at)
    decreases |file| - c.at
  {
    var o := NextLogical(crc, file, c, [], false);
    if o.record.None? {
      spelled := [];
    } else {
      var first := LogicalSound(crc, file, c, [], false, [], c.at);
      var rest := ReadsOnlyRecords(crc, file, o.cursor);
      spelled := [first] + rest;
      hide NextLogical, Spells, Stands;
      FirstThenRest(crc, file, first, rest, o.record.value, ReadFrom(crc, file, o.cursor).records, c.at, o.cursor.at);
    }
  }

  lemma FirstThenRest(crc: Crc, file: seq<byte>, first: seq<Found>, rest: seq<seq<Found>>, record: seq<byte>, records: seq<seq<byte>>, from: nat, mid: nat)
    requires from <= mid <= |file| && Spells(first, record) && InOrder(crc, file, first, from, mid) && AllSpelled(crc, file, rest, records, mid)
    ensures AllSpelled(crc, file, [first] + rest, [record] + records, from)
  {
    hide Spells, Stands;
    var spelled, all := [first] + rest, [record] + records;
    forall k, m, i, j | 0 <= k < m < |all| && 0 <= i < |spelled[k]| && 0 <= j < |spelled[m]|
      ensures End(spelled[k][i]) <= spelled[m][j].at
    {
      assert spelled[m] == rest[m - 1];
      if k > 0 {
        assert spelled[k] == rest[k - 1];
      }
    }
  }
}
