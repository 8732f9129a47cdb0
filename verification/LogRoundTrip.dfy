/** Any prefix of the bytes a log writer produced reads as the records wholly inside it. */
module LogRoundTrip {
  import opened Options
  import opened Keys
  import opened Coding
  import opened LogFormat
  import opened LogReading

  /** What the reader has buffered is the rest of a block, or of the file. */
  ghost predicate Aligned(file: seq<byte>, c: Cursor)
    ensures Aligned(file, c) ==> InFile(file, c)
  {
    && InFile(file, c)
    && if c.eof then c.limit == |file| && |file| - c.at <= |file| % BLOCK_SIZE
       else c.limit % BLOCK_SIZE == 0 && c.limit - c.at <= BLOCK_SIZE
  }

  /** How many records end within the first n bytes. */
  ghost function WholeRecords(crc: Crc, records: seq<seq<byte>>, n: nat): (k: nat)
    ensures k <= |records|
  {
    if records == [] || |LogBytes(crc, records)| <= n then |records|
    else WholeRecords(crc, records[..|records| - 1], n)
  }

  // ---- one fragment ----

  /** In a buffer that a fragment starts, parsing yields it; if the file ends too soon, it yields the end. */
  lemma ParseAt(crc: Crc, whole: seq<byte>, file: seq<byte>, c: Cursor, f: Fragment)
    requires file <= whole && InFile(file, c) && c.limit - c.at >= HEADER_SIZE
    requires |f.data| <= 0xffff && 1 <= f.typ && HasAt(whole, c.at, Header(crc, f) + f.data)
    requires c.at + HEADER_SIZE + |f.data| <= c.limit || (c.eof && c.limit == |file|)
    ensures Parse(crc, file, c) == if c.at + HEADER_SIZE + |f.data| <= c.limit
                                   then Parsed(Got(f), c.(at := c.at + HEADER_SIZE + |f.data|), [])
                                   else Parsed(Eof, c.(at := c.limit), [])
  {
    var buffer := file[c.at..c.limit];
    var header := Header(crc, f);
    HasParts(whole, c.at, header, f.data);
    assert buffer[..HEADER_SIZE] == whole[c.at..c.at + HEADER_SIZE] == header;
    assert buffer[4] == header[4] && buffer[5] == header[5] && buffer[6] == header[6];
    assert buffer[..4] == header[..4] == EncodeFixed32(Mask(crc(f.typ, f.data)));
    UnmaskMask(crc(f.typ, f.data));
    if c.at + HEADER_SIZE + |f.data| <= c.limit {
      assert buffer[HEADER_SIZE..HEADER_SIZE + |f.data|] == whole[c.at + HEADER_SIZE..c.at + HEADER_SIZE + |f.data|] == f.data;
    }
  }

  lemma OffsetInBlock(at: nat, limit: nat)
    requires limit % BLOCK_SIZE == 0 && at <= limit <= at + BLOCK_SIZE
    ensures Trailer(at) == if limit - at < HEADER_SIZE then limit - at else 0
    ensures limit - at >= HEADER_SIZE ==> at + HEADER_SIZE + Avail(at) <= limit
  {
    TrailerAt(at, BLOCK_SIZE - (limit - at)) by {
      assert (at + BLOCK_SIZE - limit) % BLOCK_SIZE == at % BLOCK_SIZE;
    }
  }

  lemma OffsetAtEnd(at: nat, size: nat)
    requires at <= size && size - at <= size % BLOCK_SIZE
    ensures size - at >= HEADER_SIZE ==> Trailer(at) == 0
  {
    var off := size % BLOCK_SIZE - (size - at);
    assert at % BLOCK_SIZE == off % BLOCK_SIZE;
    TrailerAt(at, off);
  }

  /** The reader's next physical record is the writer's next fragment, or the end of a torn file. */
  lemma PhysicalAt(crc: Crc, whole: seq<byte>, file: seq<byte>, c: Cursor, f: Fragment)
    requires file <= whole && Aligned(file, c) && |f.data| <= Avail(c.at) && 1 <= f.typ
    requires HasAt(whole, c.at, Piece(crc, c.at, f))
    ensures var p := NextPhysical(crc, file, c);
            && p.reports == [] && Aligned(file, p.cursor)
            && if FragmentEnd(c.at, f) <= |file| then p.result == Got(f) && p.cursor.at == FragmentEnd(c.at, f) else p.result == Eof
  {
    PieceHas(crc, whole, c.at, f);
    if c.eof {
      OffsetAtEnd(c.at, |file|);
      if c.limit - c.at >= HEADER_SIZE {
        ParseAt(crc, whole, file, c, f);
      }
    } else {
      OffsetInBlock(c.at, c.limit);
      if c.limit - c.at >= HEADER_SIZE {
        ParseAt(crc, whole, file, c, f);
      } else {
        PhysicalInNext(crc, whole, file, c, f);
      }
    }
  }

  lemma PieceHas(crc: Crc, whole: seq<byte>, at: nat, f: Fragment)
    requires |f.data| <= 0xffff && HasAt(whole, at, Piece(crc, at, f))
    ensures HasAt(whole, at + Trailer(at), Header(crc, f) + f.data)
  {
    hide Trailer, Header;
    var header := Header(crc, f);
    assert Piece(crc, at, f) == Zeros(Trailer(at)) + (header + f.data);
    HasParts(whole, at, Zeros(Trailer(at)), header + f.data);
  }

  /** The fragment stands at the start of the next block. */
  lemma PhysicalInNext(crc: Crc, whole: seq<byte>, file: seq<byte>, c: Cursor, f: Fragment)
    requires file <= whole && Aligned(file, c) && !c.eof && c.limit - c.at < HEADER_SIZE && 1 <= f.typ
    requires |f.data| <= Avail(c.at) && HasAt(whole, c.limit, Header(crc, f) + f.data) && Trailer(c.at) == c.limit - c.at
    ensures var p := NextPhysical(crc, file, c);
            && p.reports == [] && Aligned(file, p.cursor)
            && if FragmentEnd(c.at, f) <= |file| then p.result == Got(f) && p.cursor.at == FragmentEnd(c.at, f) else p.result == Eof
  {
    var next := NextBuffer(file, c);
    NextAligned(file, c);
    if next.limit - next.at >= HEADER_SIZE {
      hide Parse;
      ParseAt(crc, whole, file, next, f);
    }
  }

  lemma NextAligned(file: seq<byte>, c: Cursor)
    requires Aligned(file, c) && !c.eof
    ensures Aligned(file, NextBuffer(file, c))
    ensures NextBuffer(file, c).eof || NextBuffer(file, c).limit == c.limit + BLOCK_SIZE
  {
    var next := NextBuffer(file, c);
    if next.eof {
      assert |file| % BLOCK_SIZE == |file| - c.limit;
    } else {
      assert (c.limit + BLOCK_SIZE) % BLOCK_SIZE == 0;
    }
  }

  /** Past the last record there is nothing more. */
  lemma PhysicalAtEnd(crc: Crc, file: seq<byte>, c: Cursor)
    requires Aligned(file, c) && c.at == |file|
    ensures NextPhysical(crc, file, c).result == Eof && NextPhysical(crc, file, c).reports == []
  {
  }

  // ---- one record ----

  lemma {:induction false} LogicalAt(crc: Crc, whole: seq<byte>, file: seq<byte>, c: Cursor, rest: seq<byte>, scratch: seq<byte>, inside: bool)
    requires file <= whole && Aligned(file, c) && (!inside ==> scratch == [])
    requires HasAt(whole, c.at, Emit(crc, c.at, rest, !inside))
    ensures var o := NextLogical(crc, file, c, scratch, inside);
            var end := c.at + |Emit(crc, c.at, rest, !inside)|;
            && o.reports == []
            && if end <= |file| then o.record == Some(scratch + rest) && o.cursor.at == end && Aligned(file, o.cursor) else o.record == None
    decreases |rest|, if Avail(c.at) == 0 then 1 else 0
  {
    hide NextPhysical, HasAt, Avail, Piece, NextLogical, Take, NextFragment, FragmentEnd, Aligned, Trailer, Emit;
    var f := NextFragment(c.at, rest, !inside);
    var tail := rest[|f.data|..];
    EmitUnfold(crc, c.at, rest, !inside);
    FragmentAhead(crc, whole, c.at, rest, !inside);
    PhysicalAt(crc, whole, file, c, f);
    var p := NextPhysical(crc, file, c);
    Unfold(crc, file, c, scratch, inside, []);
    assert [] + NextLogical(crc, file, c, scratch, inside).reports == NextLogical(crc, file, c, scratch, inside).reports;
    Collected(c.at, rest, scratch, inside);
    if p.result.Got? && |f.data| < |rest| {
      if f.data == [] {
        LogFormat.NextBlock(c.at, f);
      }
      LogicalAt(crc, whole, file, p.cursor, tail, scratch + f.data, true);
      assert scratch + f.data + tail == scratch + rest;
      assert [] + NextLogical(crc, file, p.cursor, scratch + f.data, true).reports == [];
    }
  }

  /** A reader that takes a writer's fragment collects the record so far. */
  lemma Collected(at: nat, rest: seq<byte>, scratch: seq<byte>, inside: bool)
    requires !inside ==> scratch == []
    ensures var f := NextFragment(at, rest, !inside);
            Take(scratch, inside, Got(f)) ==
              if |f.data| == |rest| then Done(Some(scratch + rest), []) else More(scratch + f.data, true, [])
  {
    var f := NextFragment(at, rest, !inside);
    assert |f.data| == |rest| ==> f.data == rest;
    assert scratch == [] ==> scratch + f.data == f.data;
  }

  lemma FragmentAhead(crc: Crc, whole: seq<byte>, at: nat, data: seq<byte>, begin: bool)
    requires HasAt(whole, at, Emit(crc, at, data, begin))
    ensures var f := NextFragment(at, data, begin);
            && HasAt(whole, at, Piece(crc, at, f))
            && (|f.data| < |data| ==> HasAt(whole, FragmentEnd(at, f), Emit(crc, FragmentEnd(at, f), data[|f.data|..], false)))
            && at + |Emit(crc, at, data, begin)| >= FragmentEnd(at, f)
  {
    hide HasAt, Piece, Emit;
    var f := NextFragment(at, data, begin);
    EmitUnfold(crc, at, data, begin);
    if |f.data| < |data| {
      HasParts(whole, at, Piece(crc, at, f), Emit(crc, FragmentEnd(at, f), data[|f.data|..], false));
    } else {
      HasParts(whole, at, Piece(crc, at, f), []);
    }
  }

  // ---- the whole log ----

  lemma LogSnoc(crc: Crc, records: seq<seq<byte>>, i: nat)
    requires i < |records|
    ensures var front := LogBytes(crc, records[..i]);
            LogBytes(crc, records[..i + 1]) == front + Emit(crc, |front|, records[i], true)
  {
    hide Emit;
    assert records[..i + 1][..i] == records[..i];
  }

  lemma {:induction false} LogHas(crc: Crc, records: seq<seq<byte>>, i: nat)
    requires i < |records|
    ensures var front := LogBytes(crc, records[..i]);
            var bytes := Emit(crc, |front|, records[i], true);
            && HasAt(LogBytes(crc, records), |front|, bytes)
            && LogBytes(crc, records[..i + 1]) == front + bytes
            && bytes != []
  {
    hide Emit, HasAt, LogBytes;
    var n := |records| - 1;
    var front := LogBytes(crc, records[..i]);
    var bytes := Emit(crc, |front|, records[i], true);
    LogSnoc(crc, records, i);
    EmitsSomething(crc, |front|, records[i]);
    if i < n {
      LogHas(crc, records[..n], i);
      assert records[..n][..i] == records[..i] && records[..n + 1] == records;
      LogSnoc(crc, records, n);
      LongerHas(LogBytes(crc, records[..n]), Emit(crc, |LogBytes(crc, records[..n])|, records[n], true), |front|, bytes);
    } else {
      assert records[..i + 1] == records;
      TailHas(front, bytes);
    }
  }

  lemma TailHas(a: seq<byte>, b: seq<byte>)
    ensures HasAt(a + b, |a|, b)
  {
  }

  lemma EmitsSomething(crc: Crc, pos: nat, data: seq<byte>)
    ensures Emit(crc, pos, data, true) != []
  {
    hide Piece, NextFragment, Avail, Trailer;
  }

  lemma LongerHas(a: seq<byte>, b: seq<byte>, p: nat, bs: seq<byte>)
    requires HasAt(a, p, bs)
    ensures HasAt(a + b, p, bs)
  {
  }

  /** Record i is whole exactly if its last byte is among the first n. */
  lemma {:induction false} WholeIff(crc: Crc, records: seq<seq<byte>>, n: nat, i: nat)
    requires i < |records|
    ensures i < WholeRecords(crc, records, n) <==> |LogBytes(crc, records[..i + 1])| <= n
  {
    hide Emit, HasAt;
    LogHas(crc, records, i);
    var m := |records| - 1;
    if i < m {
      assert records[..m][..i + 1] == records[..i + 1];
      LogGrows(crc, records, i + 1);
      WholeIff(crc, records[..m], n, i);
    } else {
      assert records[..i + 1] == records;
    }
  }

  lemma {:induction false} LogGrows(crc: Crc, records: seq<seq<byte>>, i: nat)
    requires i <= |records|
    ensures |LogBytes(crc, records[..i])| <= |LogBytes(crc, records)|
  {
    if i == |records| {
      assert records[..i] == records;
    } else {
      LogHas(crc, records, i);
    }
  }

  lemma {:induction false} ReadsWhole(crc: Crc, records: seq<seq<byte>>, file: seq<byte>, c: Cursor, i: nat)
    requires file <= LogBytes(crc, records) && Aligned(file, c) && i <= WholeRecords(crc, records, |file|)
    requires c.at == |LogBytes(crc, records[..i])|
    ensures ReadFrom(crc, file, c) == Contents(records[i..WholeRecords(crc, records, |file|)], [])
    decreases |records| - i
  {
    hide Emit, NextLogical, HasAt, Aligned, LogBytes, NextPhysical;
    var k := WholeRecords(crc, records, |file|);
    UnfoldRead(crc, file, c, [], []);
    if i == |records| {
      assert records[..i] == records;
      AtEnd(crc, file, c);
    } else {
      LogHas(crc, records, i);
      WholeIff(crc, records, |file|, i);
      LogicalAt(crc, LogBytes(crc, records), file, c, records[i], [], false);
      if i < k {
        var o := NextLogical(crc, file, c, [], false);
        ReadsWhole(crc, records, file, o.cursor, i + 1);
        assert [] + records[i] == records[i];
        assert [records[i]] + records[i + 1..k] == records[i..k];
      }
    }
  }

  lemma AtEnd(crc: Crc, file: seq<byte>, c: Cursor)
    requires Aligned(file, c) && c.at >= |file|
    ensures NextLogical(crc, file, c, [], false).record == None && NextLogical(crc, file, c, [], false).reports == []
  {
    PhysicalAtEnd(crc, file, c);
  }

  /** Reading any prefix of a log returns exactly the records wholly inside it, and reports nothing. */
  lemma TornLogReads(crc: Crc, records: seq<seq<byte>>, n: nat)
    requires n <= |LogBytes(crc, records)|
    ensures ReadFrom(crc, LogBytes(crc, records)[..n], START) == Contents(records[..WholeRecords(crc, records, n)], [])
  {
    var file := LogBytes(crc, records)[..n];
    assert records[..0] == [];
    ReadsWhole(crc, records, file, START, 0);
  }

  /** Reading the whole log returns all of it. */
  lemma RoundTrip(crc: Crc, records: seq<seq<byte>>)
    ensures ReadFrom(crc, LogBytes(crc, records), START) == Contents(records, [])
  {
    var whole := LogBytes(crc, records);
    assert whole[..|whole|] == whole;
    TornLogReads(crc, records, |whole|);
    assert records[..|records|] == records;
  }

  /** A log written with the writer, torn anywhere, and read with the reader. */
  method WriteTearRead(crc: Crc, records: seq<seq<byte>>, n: nat) returns (read: seq<seq<byte>>, reports: seq<nat>, kept: seq<byte>)
    ensures kept == if n <= |LogBytes(crc, records)| then LogBytes(crc, records)[..n] else LogBytes(crc, records)
    ensures reports == [] && read == records[..WholeRecords(crc, records, |kept|)]
  {
    var writer := new Writer(crc, []);
    for i := 0 to |records|
      invariant fresh(writer) && writer.Valid() && writer.crc == crc && writer.dest == LogBytes(crc, records[..i])
    {
      LogHas(crc, records, i);
      writer.AddRecord(records[i]);
    }
    assert records[..|records|] == records;
    kept := writer.dest;
    if n <= |kept| {
      kept := kept[..n];
    }
    assert kept == LogBytes(crc, records)[..|kept|];
    TornLogReads(crc, records, |kept|);
    read, reports := ReadLog(crc, kept);
  }
}
