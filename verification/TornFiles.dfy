/** The bytes of log and manifest files, and the database's crashes: tearing a file anywhere is a crash of the
    step machine, and what is read back from it is what the crash leaves. */
module TornFiles {
  import opened Options
  import opened Keys
  import opened Files
  import opened History
  import opened Recovery
  import opened Database
  import opened DatabaseInvariant
  import opened Coding
  import opened LogFormat
  import opened LogReading
  import opened LogRoundTrip
  import EditCoding
  import Manifest

  /** Batches in the form in which they are written. */
  function Coded(code: Record -> seq<byte>, records: seq<Record>): seq<seq<byte>> {
    seq(|records|, i requires 0 <= i < |records| => code(records[i]))
  }

  /** The current log's file. */
  ghost function LogFile(s: Db, crc: Crc, code: Record -> seq<byte>): seq<byte>
    requires s.disk.logs != []
  {
    LogBytes(crc, Coded(code, s.disk.logs[|s.disk.logs| - 1].records))
  }

  /** The file is torn at byte n, after what was synced: this is a crash that tears off whole batches, and reading
      the rest of the file gives exactly the batches of the log that the crash leaves. */
  lemma TornFileIsCrash(s: Db, m: Memory, crc: Crc, code: Record -> seq<byte>, synced: nat, n: nat, keepEdit: bool)
    returns (k: nat, s': Db)
    requires s.up == Some(m) && UpInv(s, m)
    requires var records := s.disk.logs[|s.disk.logs| - 1].records;
      && synced <= |records| && s.durable + (|records| - synced) <= |Logged(s, m)|
      && |LogBytes(crc, Coded(code, records[..synced]))| <= n <= |LogFile(s, crc, code)|
    ensures synced <= k && Crash(s, s', m, k, keepEdit)
    ensures s'.disk.logs != []
    ensures ReadFrom(crc, LogFile(s, crc, code)[..n], START) == Contents(Coded(code, s'.disk.logs[|s'.disk.logs| - 1].records), [])
  {
    hide UpInv, LogBytes, ReadFrom;
    LogsThere(s, m);
    var records := s.disk.logs[|s.disk.logs| - 1].records;
    var coded := Coded(code, records);
    k := WholeRecords(crc, coded, n);
    TornLogReads(crc, coded, n);
    assert coded[..k] == Coded(code, records[..k]);
    if synced > 0 {
      assert coded[..synced] == Coded(code, records[..synced]);
      WholeIff(crc, coded, n, synced - 1);
    }
    var kept := m.install.Some? && keepEdit;
    var d := SetCurrentLog(s.disk, records[..k]);
    s' := Db(if m.install.Some? && !keepEdit then d.(manifest := d.manifest[..|d.manifest| - 1]) else d, None,
             Logged(s, m)[..|Logged(s, m)| - (|records| - k)], s.durable,
             if kept && m.install.value.flushed then s.front + Imm(m) else s.front,
             if kept then m.install.value.horizon else s.horizon);
  }

  lemma LogsThere(s: Db, m: Memory)
    requires UpInv(s, m)
    ensures s.disk.logs != [] && s.disk.manifest != []
    ensures |s.disk.logs[|s.disk.logs| - 1].records| <= |Logged(s, m)|
  {
    assert s.disk.logs[|s.disk.logs| - 1].records == Current(m);
    assert Manifest.LastLogNumber([]) == None;
  }

  // ---- manifest records ----

  /** What a decoded record means: `load` gives the table that its file's metadata names. */
  ghost function Meaning(e: EditCoding.Edit, load: EditCoding.Meta -> File): Manifest.VersionEdit
    requires e.lastSequence.Some? ==> e.lastSequence.value <= MAX_SEQUENCE
  {
    Manifest.VersionEdit(
      if e.logNumber.Some? then Some(e.logNumber.value) else None,
      if e.nextFileNumber.Some? then Some(e.nextFileNumber.value) else None,
      if e.lastSequence.Some? then Some(e.lastSequence.value) else None,
      set d | d in e.deletedFiles :: (d.0, d.1),
      seq(|e.newFiles|, i requires 0 <= i < |e.newFiles| => (e.newFiles[i].0 as nat, load(e.newFiles[i].1))))
  }

  /** Decoding keeps levels in range, which is what the builder needs. */
  lemma MeaningInLevels(e: EditCoding.Edit, load: EditCoding.Meta -> File)
    requires e.lastSequence.Some? ==> e.lastSequence.value <= MAX_SEQUENCE
    ensures Manifest.InLevels(Meaning(e, load))
  {
    var v := Meaning(e, load);
    forall i | 0 <= i < |v.added|
      ensures v.added[i].0 < NUM_LEVELS
    {
      assert v.added[i].0 == e.newFiles[i].0;
    }
  }

  /** An edit and the order in which its deletions are written. */
  datatype Written = Written(edit: EditCoding.Edit, deletions: seq<(EditCoding.Level, EditCoding.Long)>)

  ghost predicate Writable(w: Written) {
    EditCoding.ShortEdit(w.edit) && ToSet(w.deletions) == w.edit.deletedFiles
  }

  function RecordOf(w: Written): seq<byte> {
    EditCoding.EncodeItems(EditCoding.Items(w.edit, w.deletions))
  }

  const Empty := EditCoding.Edit(None, None, None, None, None, [], {}, [])

  /** A manifest torn anywhere gives back the edits whose records are whole: reading and decoding it, each record into a
      new edit. */
  lemma TornManifest(crc: Crc, ws: seq<Written>, n: nat) returns (k: nat)
    requires forall i :: 0 <= i < |ws| ==> Writable(ws[i])
    requires var file := LogBytes(crc, seq(|ws|, i requires 0 <= i < |ws| => RecordOf(ws[i]))); n <= |file|
    ensures var records := seq(|ws|, i requires 0 <= i < |ws| => RecordOf(ws[i]));
      var read := ReadFrom(crc, LogBytes(crc, records)[..n], START);
      && k == WholeRecords(crc, records, n) <= |ws| && |read.records| == k && read.reports == []
      && forall i :: 0 <= i < k ==> EditCoding.Decoded(EditCoding.Cleared(Empty), read.records[i]) == Some(ws[i].edit)
  {
    var records := seq(|ws|, i requires 0 <= i < |ws| => RecordOf(ws[i]));
    k := WholeRecords(crc, records, n);
    TornLogReads(crc, records, n);
    hide LogBytes, ReadFrom, WholeRecords;
    forall i | 0 <= i < k
      ensures EditCoding.Decoded(EditCoding.Cleared(Empty), records[i]) == Some(ws[i].edit)
    {
      EditCoding.FreshEditRoundTrip(Empty, ws[i].edit, ws[i].deletions);
    }
  }
}
