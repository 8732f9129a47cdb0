/** The log's format (db/log_writer, db/log_reader): records cut into fragments that never cross a
    32 KB block, each with a checksum.  A log is read back exactly, and any prefix of its bytes
    reads as the records wholly inside it, without a report of corruption. */
module LogFormat {
  import opened Coding

  /** The checksum of a fragment's type and payload; nothing is assumed about it. */
  type Crc = (byte, seq<byte>) -> Word

  const BLOCK_SIZE: nat := 32768
  const HEADER_SIZE: nat := 7
  const FULL: byte := 1
  const FIRST: byte := 2
  const MIDDLE: byte := 3
  const LAST: byte := 4
  const MASK_DELTA: nat := 0xa282_ead8

  // ---- masked checksums ----

  /** Rotate right by 15 bits and add a constant, both modulo 2^32. */
  function Mask(crc: Word): Word {
    (crc / 0x8000 + crc % 0x8000 * 0x2_0000 + MASK_DELTA) % 0x1_0000_0000
  }

  function Unmask(masked: Word): Word {
    var rot := (masked + 0x1_0000_0000 - MASK_DELTA) % 0x1_0000_0000;
    rot / 0x2_0000 + rot % 0x2_0000 * 0x8000
  }

  lemma UnmaskMask(crc: Word)
    ensures Unmask(Mask(crc)) == crc
  {
    var q, r := crc / 0x8000, crc % 0x8000;
    var rotated := q + r * 0x2_0000;
    assert (Mask(crc) + 0x1_0000_0000 - MASK_DELTA) % 0x1_0000_0000 == rotated;
    assert rotated / 0x2_0000 == r && rotated % 0x2_0000 == q;
  }

  // ---- what a record looks like in the file ----

  datatype Fragment = Fragment(typ: byte, data: seq<byte>)

  function Header(crc: Crc, f: Fragment): (bs: seq<byte>)
    requires |f.data| <= 0xffff
    ensures |bs| == HEADER_SIZE
  {
    EncodeFixed32(Mask(crc(f.typ, f.data))) + [|f.data| % 0x100, |f.data| / 0x100, f.typ]
  }

  /** A block's last bytes are left unused when a header does not fit. */
  function Trailer(pos: nat): (n: nat)
    ensures n < HEADER_SIZE
    ensures (pos + n) % BLOCK_SIZE + HEADER_SIZE <= BLOCK_SIZE
  {
    if BLOCK_SIZE - pos % BLOCK_SIZE < HEADER_SIZE then
      assert (pos + (BLOCK_SIZE - pos % BLOCK_SIZE)) % BLOCK_SIZE == 0;
      BLOCK_SIZE - pos % BLOCK_SIZE
    else 0
  }

  function Min(a: nat, b: nat): nat {
    if a < b then a else b
  }

  /** Room for payload in the block of a fragment at `pos`. */
  function Avail(pos: nat): (n: nat)
    ensures n <= BLOCK_SIZE - HEADER_SIZE
  {
    BLOCK_SIZE - HEADER_SIZE - (pos + Trailer(pos)) % BLOCK_SIZE
  }

  function NextFragment(pos: nat, data: seq<byte>, begin: bool): (f: Fragment)
    ensures |f.data| <= |data| && |f.data| <= Avail(pos) && f.data == data[..|f.data|] && 1 <= f.typ <= 4
    ensures |f.data| < |data| ==> |f.data| == Avail(pos)
  {
    var n := Min(|data|, Avail(pos));
    var end := n == |data|;
    Fragment(if begin && end then FULL else if begin then FIRST else if end then LAST else MIDDLE, data[..n])
  }

  /** One fragment as it stands in the file, with the trailer that it skips. */
  function Piece(crc: Crc, pos: nat, f: Fragment): (bs: seq<byte>)
    requires |f.data| <= 0xffff
    ensures pos + |bs| == FragmentEnd(pos, f)
  {
    Zeros(Trailer(pos)) + Header(crc, f) + f.data
  }

  function FragmentEnd(pos: nat, f: Fragment): nat {
    pos + Trailer(pos) + HEADER_SIZE + |f.data|
  }

  /** The bytes that a record adds to a file of length `pos`. */
  function Emit(crc: Crc, pos: nat, data: seq<byte>, begin: bool): seq<byte>
    decreases |data|, if Avail(pos) == 0 then 1 else 0
  {
    var f := NextFragment(pos, data, begin);
    Piece(crc, pos, f)
    + if |f.data| == |data| then [] else Emit(crc, FragmentEnd(pos, f), data[|f.data|..], false)
  }

  /** A log that holds these records. */
  function LogBytes(crc: Crc, records: seq<seq<byte>>): seq<byte> {
    if records == [] then []
    else
      var front := LogBytes(crc, records[..|records| - 1]);
      front + Emit(crc, |front|, records[|records| - 1], true)
  }

  // ---- offsets in a block ----

  lemma SameOffset(a: nat, b: nat, n: nat)
    requires a % BLOCK_SIZE == b % BLOCK_SIZE
    ensures (a + n) % BLOCK_SIZE == (b + n) % BLOCK_SIZE
  {
    var i, j := a / BLOCK_SIZE, b / BLOCK_SIZE;
    assert a - b == BLOCK_SIZE * (i - j);
    assert (a + n) - (b + n) == BLOCK_SIZE * (i - j);
  }

  lemma TrailerAt(pos: nat, offset: nat)
    requires offset <= BLOCK_SIZE && offset % BLOCK_SIZE == pos % BLOCK_SIZE
    ensures Trailer(pos) == if BLOCK_SIZE - offset < HEADER_SIZE then BLOCK_SIZE - offset else 0
    ensures (pos + Trailer(pos)) % BLOCK_SIZE == if BLOCK_SIZE - offset < HEADER_SIZE then 0 else offset
  {
  }

  // ---- the writer ----

  lemma NextIs(pos: nat, data: seq<byte>, begin: bool, avail: nat, typ: byte)
    requires avail == BLOCK_SIZE - (pos + Trailer(pos)) % BLOCK_SIZE - HEADER_SIZE
    requires typ == if begin && |data| <= avail then FULL else if begin then FIRST else if |data| <= avail then LAST else MIDDLE
    ensures avail == Avail(pos) && NextFragment(pos, data, begin) == Fragment(typ, data[..Min(|data|, avail)])
  {
  }

  lemma PieceParts(crc: Crc, was: seq<byte>, f: Fragment)
    requires |f.data| <= 0xffff
    ensures was + Piece(crc, |was|, f) == was + Zeros(Trailer(|was|)) + Header(crc, f) + f.data
  {
    hide Trailer, Header;
  }

  lemma EmitUnfold(crc: Crc, pos: nat, data: seq<byte>, begin: bool)
    ensures var f := NextFragment(pos, data, begin);
            Emit(crc, pos, data, begin) == Piece(crc, pos, f)
              + if |f.data| == |data| then [] else Emit(crc, FragmentEnd(pos, f), data[|f.data|..], false)
  {
    hide Piece, Avail, NextFragment, Trailer, FragmentEnd;
  }

  lemma Join(a: seq<byte>, b: seq<byte>, c: seq<byte>)
    ensures a + (b + c) == (a + b) + c
  {
  }

  lemma EmitStep(crc: Crc, was: seq<byte>, data: seq<byte>, begin: bool)
    ensures var f := NextFragment(|was|, data, begin);
            var now := was + Piece(crc, |was|, f);
            && |now| == FragmentEnd(|was|, f)
            && (|f.data| == |data| ==> was + Emit(crc, |was|, data, begin) == now)
            && (|f.data| < |data| ==>
                  && was + Emit(crc, |was|, data, begin) == now + Emit(crc, |now|, data[|f.data|..], false)
                  && (f.data == [] ==> Avail(|was|) == 0 && Avail(|now|) > 0))
  {
    hide Piece, Avail, NextFragment, Trailer, Emit, FragmentEnd;
    var f := NextFragment(|was|, data, begin);
    EmitUnfold(crc, |was|, data, begin);
    if |f.data| < |data| {
      Join(was, Piece(crc, |was|, f), Emit(crc, FragmentEnd(|was|, f), data[|f.data|..], false));
      if f.data == [] {
        NextBlock(|was|, f);
      }
    }
  }

  /** After a header that fills its block, the next fragment has a whole block. */
  lemma NextBlock(pos: nat, f: Fragment)
    requires Avail(pos) == 0 && f.data == []
    ensures Avail(FragmentEnd(pos, f)) > 0
  {
    var p := pos + Trailer(pos);
    assert p % BLOCK_SIZE == BLOCK_SIZE - HEADER_SIZE;
    assert (p + HEADER_SIZE) % BLOCK_SIZE == 0;
  }

  class Writer {
    const crc: Crc
    var dest: seq<byte>                 // the file
    var blockOffset: nat                // position in the current block

    ghost predicate Valid()
      reads this
    {
      blockOffset <= BLOCK_SIZE && blockOffset % BLOCK_SIZE == |dest| % BLOCK_SIZE
    }

    /** On a new file, or to go on with an old one. */
    constructor (crc: Crc, dest: seq<byte>)
      ensures Valid() && this.dest == dest && this.crc == crc
    {
      this.crc, this.dest := crc, dest;
      blockOffset := |dest| % BLOCK_SIZE;
    }

    method AddRecord(data: seq<byte>)
      requires Valid()
      modifies this
      ensures Valid() && dest == old(dest) + Emit(crc, |old(dest)|, data, true)
    {
      hide Trailer, Header, Piece, NextFragment, Emit, Avail;
      var ptr := data;
      var begin := true;
      ghost var want := old(dest) + Emit(crc, |old(dest)|, data, true);
      while true
        invariant Valid() && want == dest + Emit(crc, |dest|, ptr, begin)
        decreases |ptr|, if Avail(|dest|) == 0 then 1 else 0
      {
        ghost var was, pos := dest, |dest|;
        TrailerAt(pos, blockOffset);
        EmitStep(crc, was, ptr, begin);
        var leftover := BLOCK_SIZE - blockOffset;
        if leftover < HEADER_SIZE {
          dest := dest + Zeros(leftover);
          blockOffset := 0;
        }
        assert dest == was + Zeros(Trailer(pos));
        var avail := BLOCK_SIZE - blockOffset - HEADER_SIZE;
        var fragmentLength := if |ptr| < avail then |ptr| else avail;
        var end := |ptr| == fragmentLength;
        var typ: byte := if begin && end then FULL else if begin then FIRST else if end then LAST else MIDDLE;
        EmitPhysicalRecord(typ, ptr[..fragmentLength]);
        NextIs(pos, ptr, begin, avail, typ);
        PieceParts(crc, was, Fragment(typ, ptr[..fragmentLength]));
        ptr := ptr[fragmentLength..];
        begin := false;
        if ptr == [] {
          break;
        }
      }
    }

    method EmitPhysicalRecord(typ: byte, data: seq<byte>)
      requires Valid() && |data| <= 0xffff && blockOffset + HEADER_SIZE + |data| <= BLOCK_SIZE
      modifies this
      ensures Valid() && dest == old(dest) + Header(crc, Fragment(typ, data)) + data
    {
      SameOffset(blockOffset, |dest|, HEADER_SIZE + |data|);
      dest := dest + Header(crc, Fragment(typ, data));
      dest := dest + data;
      blockOffset := blockOffset + HEADER_SIZE + |data|;
    }
  }
}
