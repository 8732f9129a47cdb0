/** Reading a log back (db/log_reader), with checksums and from offset 0: what the reader does
    on any file, and what it makes of a log whose tail was torn off. */
module LogReading {
  import opened Options
  import opened Keys
  import opened Coding
  import opened LogFormat

  datatype Physical = Eof | Bad | Got(f: Fragment)

  /** The reader has read the file up to `limit`, and its buffer starts at `at`. */
  datatype Cursor = Cursor(at: nat, limit: nat, eof: bool)

  /** A physical record, where the cursor is after it, and the sizes of reported drops. */
  datatype Parsed = Parsed(result: Physical, cursor: Cursor, reports: seq<nat>)

  datatype Outcome = Outcome(record: Option<seq<byte>>, cursor: Cursor, reports: seq<nat>)

  predicate InFile(file: seq<byte>, c: Cursor) {
    c.at <= c.limit <= |file|
  }

  /** The next block; a short one is the last. */
  function NextBuffer(file: seq<byte>, c: Cursor): (c': Cursor)
    requires InFile(file, c)
    ensures InFile(file, c')
  {
    var limit := Min(|file|, c.limit + BLOCK_SIZE);
    Cursor(c.limit, limit, limit - c.limit < BLOCK_SIZE)
  }

  /** A header needs seven bytes; otherwise the rest of the block is a trailer, or the file is over. */
  function Refilled(file: seq<byte>, c: Cursor): (c': Cursor)
    requires InFile(file, c)
    ensures InFile(file, c') && c'.at >= c.at && (c'.eof || c'.limit - c'.at >= HEADER_SIZE)
  {
    if c.limit - c.at < HEADER_SIZE && !c.eof then NextBuffer(file, c) else c
  }

  /** One physical record, from a buffer of at least a header. */
  function Parse(crc: Crc, file: seq<byte>, c: Cursor): Parsed
    requires InFile(file, c) && c.limit - c.at >= HEADER_SIZE
  {
    var buffer := file[c.at..c.limit];
    var length: nat := buffer[4] as int + 0x100 * buffer[5] as int;
    var typ := buffer[6];
    var cleared := c.(at := c.limit);
    if HEADER_SIZE + length > |buffer| then
      if c.eof then Parsed(Eof, cleared, []) else Parsed(Bad, cleared, [|buffer|])
    else if typ == 0 && length == 0 then
      Parsed(Bad, cleared, [])
    else
      var data := buffer[HEADER_SIZE..HEADER_SIZE + length];
      if Unmask(DecodeFixed32(buffer[..4])) != crc(typ, data) then
        Parsed(Bad, cleared, [|buffer|])
      else
        Parsed(Got(Fragment(typ, data)), c.(at := c.at + HEADER_SIZE + length), [])
  }

  function NextPhysical(crc: Crc, file: seq<byte>, c: Cursor): (p: Parsed)
    requires InFile(file, c)
    ensures InFile(file, p.cursor)
    ensures p.result != Eof ==> p.cursor.at >= c.at + HEADER_SIZE
  {
    var r := Refilled(file, c);
    if r.limit - r.at < HEADER_SIZE then Parsed(Eof, r.(at := r.limit), []) else Parse(crc, file, r)
  }

  function Telling(reports: seq<nat>, o: Outcome): (t: Outcome)
    ensures t.record == o.record && t.cursor == o.cursor
  {
    o.(reports := reports + o.reports)
  }

  /** What a physical record means to a reader that has collected `scratch` if it is `inside` a
      fragmented record: the end, with or without a record, or more to read. */
  datatype Next = Done(record: Option<seq<byte>>, told: seq<nat>) | More(scratch: seq<byte>, inside: bool, told: seq<nat>)

  function Take(scratch: seq<byte>, inside: bool, p: Physical): (n: Next)
    ensures p.Eof? ==> n == Done(None, [])
  {
    match p
    case Eof => Done(None, [])
    case Bad => if inside then More([], false, [|scratch|]) else More(scratch, false, [])
    case Got(f) =>
      var partial := if inside && scratch != [] then [|scratch|] else [];
      if f.typ == FULL then Done(Some(f.data), partial)
      else if f.typ == FIRST then More(f.data, true, partial)
      else if (f.typ == MIDDLE || f.typ == LAST) && !inside then More(scratch, false, [|f.data|])
      else if f.typ == MIDDLE then More(scratch + f.data, true, [])
      else if f.typ == LAST then Done(Some(scratch + f.data), [])
      else More([], false, [|f.data| + if inside then |scratch| else 0])
  }

  /** A logical record. */
  function NextLogical(crc: Crc, file: seq<byte>, c: Cursor, scratch: seq<byte>, inside: bool): (o: Outcome)
    requires InFile(file, c)
    ensures InFile(file, o.cursor) && (o.record.Some? ==> o.cursor.at > c.at)
    decreases |file| - c.at
  {
    var p := NextPhysical(crc, file, c);
    match Take(scratch, inside, p.result)
    case Done(record, told) => Outcome(record, p.cursor, p.reports + told)
    case More(scratch', inside', told) => Telling(p.reports + told, NextLogical(crc, file, p.cursor, scratch', inside'))
  }

  datatype Contents = Contents(records: seq<seq<byte>>, reports: seq<nat>)

  /** Everything a reader gets out of a file. */
  function ReadFrom(crc: Crc, file: seq<byte>, c: Cursor): Contents
    requires InFile(file, c)
    decreases |file| - c.at
  {
    var o := NextLogical(crc, file, c, [], false);
    if o.record.None? then Contents([], o.reports)
    else
      var rest := ReadFrom(crc, file, o.cursor);
      Contents([o.record.value] + rest.records, o.reports + rest.reports)
  }

  const START: Cursor := Cursor(0, 0, false)

  lemma Rest(file: seq<byte>, lo: nat, hi: nat, i: nat)
    requires lo <= hi <= |file| && i <= hi - lo
    ensures file[lo..hi][i..] == file[lo + i..hi]
  {
  }

  // ---- the reader ----

  class Reader {
    const crc: Crc
    const file: seq<byte>
    var pos: nat                        // how much of the file has been read
    var buffer: seq<byte>
    var eof: bool
    var reports: seq<nat>

    ghost predicate Valid()
      reads this
    {
      |buffer| <= pos <= |file| && buffer == file[pos - |buffer|..pos]
    }

    ghost function At(): (c: Cursor)
      requires Valid()
      reads this
      ensures InFile(file, c)
    {
      Cursor(pos - |buffer|, pos, eof)
    }

    constructor (crc: Crc, file: seq<byte>)
      ensures Valid() && At() == START && reports == []
      ensures this.crc == crc && this.file == file
    {
      this.crc, this.file := crc, file;
      pos, buffer, eof, reports := 0, [], false, [];
    }

    method ReadPhysicalRecord() returns (r: Physical)
      requires Valid()
      modifies this
      ensures Valid()
      ensures var p := NextPhysical(crc, file, old(At()));
              r == p.result && At() == p.cursor && reports == old(reports) + p.reports
    {
      hide Parse;
      ghost var read := false;
      while |buffer| < HEADER_SIZE
        invariant Valid() && reports == old(reports)
        invariant At() == if read then NextBuffer(file, old(At())) else old(At())
        invariant read ==> |old(buffer)| < HEADER_SIZE && !old(eof) && (eof || |buffer| >= HEADER_SIZE)
        decreases !read
      {
        if eof {
          buffer := [];
          return Eof;
        }
        FillBuffer();
        read := true;
      }
      r := ParseBuffer();
    }

    method FillBuffer()
      requires Valid()
      modifies this`buffer, this`pos, this`eof
      ensures Valid() && At() == NextBuffer(file, old(At())) && |buffer| == At().limit - At().at
    {
      var next := Min(|file|, pos + BLOCK_SIZE);
      buffer := file[pos..next];
      eof := next - pos < BLOCK_SIZE;
      pos := next;
    }

    method ParseBuffer() returns (r: Physical)
      requires Valid() && |buffer| >= HEADER_SIZE
      modifies this`buffer, this`reports
      ensures Valid()
      ensures var p := Parse(crc, file, old(At()));
              r == p.result && At() == p.cursor && reports == old(reports) + p.reports
    {
      ghost var c := At();
      var length: nat := buffer[4] as int + 0x100 * buffer[5] as int;
      var typ := buffer[6];
      if HEADER_SIZE + length > |buffer| {
        var dropped := |buffer|;
        buffer := [];
        if !eof {
          reports := reports + [dropped];
          return Bad;
        }
        return Eof;
      }
      if typ == 0 && length == 0 {
        buffer := [];
        return Bad;
      }
      var data := buffer[HEADER_SIZE..HEADER_SIZE + length];
      if Unmask(DecodeFixed32(buffer[..4])) != crc(typ, data) {
        var dropped := |buffer|;
        buffer := [];
        reports := reports + [dropped];
        return Bad;
      }
      Rest(file, c.at, c.limit, HEADER_SIZE + length);
      buffer := buffer[HEADER_SIZE + length..];
      return Got(Fragment(typ, data));
    }

    method ReadRecord() returns (record: Option<seq<byte>>)
      requires Valid()
      modifies this
      ensures Valid()
      ensures var o := NextLogical(crc, file, old(At()), [], false);
              record == o.record && At() == o.cursor && reports == old(reports) + o.reports
    {
      hide NextPhysical, NextLogical, NextBuffer, Parse;
      ghost var want := Telling(reports, NextLogical(crc, file, At(), [], false));
      var scratch: seq<byte> := [];
      var inside := false;
      while true
        invariant Valid() && want == Telling(reports, NextLogical(crc, file, At(), scratch, inside))
        decreases |file| - At().at
      {
        ghost var c, told0 := At(), reports;
        Unfold(crc, file, c, scratch, inside, reports);
        var r := ReadPhysicalRecord();
        ghost var next := Take(scratch, inside, r);
        label Switched:
        match r {
          case Eof =>
            return None;
          case Bad =>
            if inside {
              reports := reports + [|scratch|];
              inside, scratch := false, [];
            }
          case Got(f) =>
            if f.typ == FULL {
              if inside && scratch != [] {
                reports := reports + [|scratch|];
              }
              return Some(f.data);
            } else if f.typ == FIRST {
              if inside && scratch != [] {
                reports := reports + [|scratch|];
              }
              inside, scratch := true, f.data;
            } else if f.typ == MIDDLE {
              if !inside {
                reports := reports + [|f.data|];
              } else {
                scratch := scratch + f.data;
              }
            } else if f.typ == LAST {
              if !inside {
                reports := reports + [|f.data|];
              } else {
                return Some(scratch + f.data);
              }
            } else {
              reports := reports + [|f.data| + if inside then |scratch| else 0];
              inside, scratch := false, [];
            }
        }
        assert next == More(scratch, inside, next.told) && reports == old@Switched(reports) + next.told;
      }
    }
  }

  lemma Unfold(crc: Crc, file: seq<byte>, c: Cursor, scratch: seq<byte>, inside: bool, reports: seq<nat>)
    requires InFile(file, c)
    ensures var p := NextPhysical(crc, file, c);
            var o := Telling(reports, NextLogical(crc, file, c, scratch, inside));
            match Take(scratch, inside, p.result)
            case Done(record, told) => o == Outcome(record, p.cursor, reports + p.reports + told)
            case More(s, i, told) => o == Telling(reports + p.reports + told, NextLogical(crc, file, p.cursor, s, i))
  {
    hide NextPhysical, Take;
    var p := NextPhysical(crc, file, c);
    match Take(scratch, inside, p.result)
    case Done(record, told) =>
      assert reports + (p.reports + told) == reports + p.reports + told;
    case More(s, i, told) =>
      var o := NextLogical(crc, file, p.cursor, s, i);
      assert reports + (p.reports + told + o.reports) == reports + p.reports + told + o.reports;
  }

  /** How a log file is read when a database is opened: records until there are no more. */
  method ReadLog(crc: Crc, file: seq<byte>) returns (records: seq<seq<byte>>, reports: seq<nat>)
    ensures Contents(records, reports) == ReadFrom(crc, file, START)
  {
    var reader := new Reader(crc, file);
    records := [];
    ghost var want := ReadFrom(crc, file, START);
    while true
      invariant reader.Valid() && reader.crc == crc && reader.file == file && fresh(reader)
      invariant want == Prepend(records, reader.reports, ReadFrom(crc, file, reader.At()))
      decreases |file| - reader.At().at
    {
      ghost var c, told := reader.At(), reader.reports;
      UnfoldRead(crc, file, c, records, told);
      var record := reader.ReadRecord();
      if record.None? {
        return records, reader.reports;
      }
      records := records + [record.value];
    }
  }

  function Prepend(records: seq<seq<byte>>, reports: seq<nat>, c: Contents): Contents {
    Contents(records + c.records, reports + c.reports)
  }

  lemma UnfoldRead(crc: Crc, file: seq<byte>, c: Cursor, records: seq<seq<byte>>, told: seq<nat>)
    requires InFile(file, c)
    ensures var o := NextLogical(crc, file, c, [], false);
            Prepend(records, told, ReadFrom(crc, file, c)) ==
              if o.record.None? then Contents(records, told + o.reports)
              else Prepend(records + [o.record.value], told + o.reports, ReadFrom(crc, file, o.cursor))
  {
    hide NextLogical;
    var o := NextLogical(crc, file, c, [], false);
    if o.record.Some? {
      var rest := ReadFrom(crc, file, o.cursor);
      assert records + ([o.record.value] + rest.records) == records + [o.record.value] + rest.records;
      assert told + (o.reports + rest.reports) == told + o.reports + rest.reports;
    } else {
      assert records + [] == records;
    }
  }
}
