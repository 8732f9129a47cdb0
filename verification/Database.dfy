/** The database as a step machine: writes, memtable switches, flushes, compactions, snapshots,
    crashes and recovery.  The fields `history`, `durable`, `front` and `horizon` are the
    specification's: the acknowledged batches, how many of them were synced, those already in
    table files, and the oldest snapshot a compaction had to respect. */
module Database {
  import opened Options
  import opened Keys
  import opened Files
  import opened Installing
  import opened InputSelection
  import opened CompactionReads
  import opened Manifest
  import opened Editing
  import opened Durable
  import opened History
  import opened Recovery
  import opened Reopening

  datatype Disk = Disk(manifest: seq<VersionEdit>, logs: seq<Log>, tables: map<nat, File>)

  /** A compaction between being picked and having written its outputs. */
  datatype Job = Job(level: nat, in0: seq<File>, in1: seq<File>, snapshot: nat)

  /** A LogAndApply whose manifest record is written but not yet known to be on disk. */
  datatype Unsynced = Unsynced(levels: Levels, flushed: bool, horizon: nat)

  datatype Memory = Memory(
    levels: Levels, mem: seq<Record>, imm: Option<seq<Record>>, log: nat,
    lastSequence: SequenceNumber, nextFile: nat, snapshots: seq<nat>,
    inflight: Option<Record>, job: Option<Job>, install: Option<Unsynced>)

  datatype Db = Db(disk: Disk, up: Option<Memory>, history: seq<Record>, durable: nat, front: seq<Record>, horizon: nat)

  function Imm(m: Memory): seq<Record> {
    if m.imm.Some? then m.imm.value else []
  }

  /** What the current log holds: the memtable's records and the one being written. */
  function Current(m: Memory): seq<Record> {
    m.mem + (if m.inflight.Some? then [m.inflight.value] else [])
  }

  // ---------- steps of a running database ----------

  ghost predicate ChangeMemory(s: Db, s': Db, m: Memory, m': Memory) {
    s.up == Some(m) && s' == s.(up := Some(m'))
  }

  /** Append `records` as the records of the current log. */
  function SetCurrentLog(d: Disk, records: seq<Record>): Disk
    requires d.logs != []
  {
    var n := |d.logs| - 1;
    d.(logs := d.logs[..n] + [Log(d.logs[n].number, records)])
  }

  /** Write, first half: the group's batch goes to the log. */
  ghost predicate LogAppend(s: Db, s': Db, m: Memory, ops: seq<Op>) {
    && s.up == Some(m) && m.inflight.None? && s.disk.logs != []
    && var r := Record(m.lastSequence + 1, ops);
       && Fits(r)
       && s' == s.(disk := SetCurrentLog(s.disk, s.disk.logs[|s.disk.logs| - 1].records + [r]),
                   up := Some(m.(inflight := Some(r))))
  }

  /** Write, second half: the batch goes to the memtable and is acknowledged. */
  ghost predicate Acknowledge(s: Db, s': Db, m: Memory, sync: bool) {
    && s.up == Some(m) && m.inflight.Some? && Fits(m.inflight.value)
    && var r := m.inflight.value;
       && m.lastSequence + |r.ops| <= MAX_SEQUENCE
       && s' == s.(up := Some(m.(inflight := None, mem := m.mem + [r], lastSequence := m.lastSequence + |r.ops|)),
                   history := s.history + [r], durable := if sync then |s.history| + 1 else s.durable)
  }

  /** MakeRoomForWrite switches to a new log and memtable. */
  ghost predicate Switch(s: Db, s': Db, m: Memory) {
    && s.up == Some(m) && m.inflight.None? && m.imm.None?
    && s' == s.(disk := s.disk.(logs := s.disk.logs + [Log(m.nextFile, [])]),
                up := Some(m.(imm := Some(m.mem), mem := [], log := m.nextFile, nextFile := m.nextFile + 1)))
  }

  ghost predicate TakeSnapshot(s: Db, s': Db, m: Memory) {
    ChangeMemory(s, s', m, m.(snapshots := m.snapshots + [m.lastSequence]))
  }

  ghost predicate ReleaseSnapshot(s: Db, s': Db, m: Memory, i: nat) {
    && i < |m.snapshots|
    && ChangeMemory(s, s', m, m.(snapshots := m.snapshots[..i] + m.snapshots[i + 1..]))
  }

  /** LogAndApply, first half: tables are on disk, the edit is written. */
  ghost predicate WriteEdit(s: Db, s': Db, m: Memory, e: VersionEdit, tables: map<nat, File>, levels': Levels, flushed: bool, horizon: nat) {
    && s.up == Some(m) && m.install.None?
    && e.nextFile.Some? && m.nextFile <= e.nextFile.value && e.lastSequence == Some(m.lastSequence)
    && NextVersionOf(m.levels, e, levels')
    && TablesHold(tables, levels')
    && (forall n :: n in s.disk.tables && n < m.nextFile ==> n in tables && tables[n] == s.disk.tables[n])
    && s' == s.(disk := s.disk.(manifest := s.disk.manifest + [e], tables := tables),
                up := Some(m.(nextFile := e.nextFile.value, install := Some(Unsynced(levels', flushed, horizon)))))
  }

  ghost predicate TablesHold(tables: map<nat, File>, levels: Levels) {
    forall l, f :: 0 <= l < NUM_LEVELS && f in levels[l] ==> f.number in tables && tables[f.number] == f
  }

  /** CompactMemTable writes the immutable memtable out. */
  ghost predicate BeginFlush(s: Db, s': Db, m: Memory, level: nat, f: Option<File>, e: VersionEdit, tables: map<nat, File>, levels': Levels) {
    && m.imm.Some? && m.job.None? && ValidHistory(m.imm.value)
    && e.logNumber == Some(m.log) && e.deleted == {}
    && (match f
        case None => Entries(m.imm.value) == {} && e.added == []
        case Some(f) => FlushTable(m.levels, level, f, m.imm.value) && f.number == m.nextFile && e.added == [(level, f)]
                        && e.nextFile.Some? && f.number < e.nextFile.value)
    && WriteEdit(s, s', m, e, tables, levels', true, s.horizon)
  }

  /** BackgroundCompaction picks inputs and reads the oldest snapshot. */
  ghost predicate StartCompaction(s: Db, s': Db, m: Memory, job: Job) {
    && m.job.None? && m.imm.None? && m.install.None?
    && WellSelected(m.levels, job.level, job.in0, job.in1)
    && job.snapshot == (if m.snapshots == [] then m.lastSequence else m.snapshots[0])
    && job.snapshot < MAX_SEQUENCE
    && ChangeMemory(s, s', m, m.(job := Some(job)))
  }

  function Later(a: nat, b: nat): nat {
    if a < b then b else a
  }

  /** The compaction has written its outputs and installs them. */
  ghost predicate FinishCompaction(s: Db, s': Db, m: Memory, input: seq<Entry>, outs: seq<File>, e: VersionEdit,
                                   tables: map<nat, File>, levels': Levels) {
    && m.job.Some? && s.disk.manifest != []
    && var j := m.job.value;
       && j.level + 1 < NUM_LEVELS
       && e.logNumber == LastLogNumber(s.disk.manifest)
       && e.deleted == InputDeletions(j.level, j.in0, j.in1) && e.added == OutputAdditions(j.level, outs)
       && e.nextFile.Some? && FreshOutputs(outs, m.nextFile, e.nextFile.value)
       && CompactionStep(m.levels, j.level, j.in0, j.in1, j.snapshot, input, outs, levels')
       && WriteEdit(s, s', m, e, tables, levels', false, Later(s.horizon, j.snapshot))
  }

  /** The compaction uncovers no deleted value (see CompactionSafety.ClosedCompactionKeepsReads). */
  ghost predicate Harmless(m: Memory, input: seq<Entry>) {
    m.job.Some? && m.job.value.level + 1 < NUM_LEVELS &&
    var j := m.job.value;
    !Resurrects(input, Untouched(m.levels, j.level, j.in0, j.in1), j.snapshot, m.levels[j.level + 2..])
  }

  /** A trivial move of one file to the next level. */
  ghost predicate BeginMove(s: Db, s': Db, m: Memory, level: nat, f: File, e: VersionEdit, levels': Levels) {
    && m.job.None? && m.imm.None? && level + 1 < NUM_LEVELS
    && WellSelected(m.levels, level, [f], [])
    && MoveEdit(e, level, f) && e.logNumber == LastLogNumber(s.disk.manifest)
    && WriteEdit(s, s', m, e, s.disk.tables, levels', false, s.horizon)
  }

  /** LogAndApply, second half: the edit is on disk, the version is installed. */
  ghost predicate FinishInstall(s: Db, s': Db, m: Memory) {
    && s.up == Some(m) && m.install.Some?
    && var p := m.install.value;
       s' == s.(up := Some(m.(levels := p.levels, imm := if p.flushed then None else m.imm, job := None, install := None)),
                front := if p.flushed then s.front + Imm(m) else s.front, horizon := p.horizon)
  }

  /** DeleteObsoleteFiles. */
  ghost predicate DeleteObsolete(s: Db, s': Db, m: Memory, tables: map<nat, File>) {
    && s.up == Some(m) && m.install.None? && LastLogNumber(s.disk.manifest).Some?
    && tables.Keys <= s.disk.tables.Keys && (forall n :: n in tables ==> tables[n] == s.disk.tables[n])
    && (forall l, f :: 0 <= l < NUM_LEVELS && f in m.levels[l] && f.number in s.disk.tables ==> f.number in tables)
    && s' == s.(disk := s.disk.(logs := Prune(s.disk.logs, LastLogNumber(s.disk.manifest).value), tables := tables))
  }

  // ---------- crash and recovery ----------

  /** The history including a batch that is logged but not acknowledged. */
  function Logged(s: Db, m: Memory): seq<Record> {
    s.history + (if m.inflight.Some? then [m.inflight.value] else [])
  }

  /** Power is lost: a tail of the current log is torn off, never below what was synced, and a
      manifest record that was not yet synced may be lost. */
  ghost predicate Crash(s: Db, s': Db, m: Memory, k: nat, keepEdit: bool) {
    && s.up == Some(m) && s.disk.logs != [] && s.disk.manifest != []
    && var records := s.disk.logs[|s.disk.logs| - 1].records;
       && k <= |records| && s.durable + (|records| - k) <= |Logged(s, m)|
       && var kept := m.install.Some? && keepEdit;
          var d := SetCurrentLog(s.disk, records[..k]);
          s' == Db(if m.install.Some? && !keepEdit then d.(manifest := d.manifest[..|d.manifest| - 1]) else d,
                   None,
                   Logged(s, m)[..|Logged(s, m)| - (|records| - k)],
                   s.durable,
                   if kept && m.install.value.flushed then s.front + Imm(m) else s.front,
                   if kept then m.install.value.horizon else s.horizon)
  }

  /** A recovery attempt that dies before switching manifests leaves an empty log and stray tables. */
  ghost predicate FailedRecovery(s: Db, s': Db, log: nat, tables: map<nat, File>) {
    && s.up.None? && LastNextFile(s.disk.manifest).Some?
    && (forall i :: 0 <= i < |s.disk.logs| ==> s.disk.logs[i].number < log)
    && (forall n :: n in s.disk.tables && n < LastNextFile(s.disk.manifest).value ==> n in tables && tables[n] == s.disk.tables[n])
    && s' == s.(disk := s.disk.(logs := s.disk.logs + [Log(log, [])], tables := tables))
  }

  /** DB::Open on an existing database. */
  ghost predicate Reopen(s: Db, s': Db, levels: Levels, rs: seq<Replayed>, snap: VersionEdit, e: VersionEdit,
                         log: nat, from: nat, to: nat, last: SequenceNumber, levels': Levels, tables: map<nat, File>)
  {
    && s.up.None? && Complete(s.disk.manifest)
    && (forall l :: 0 <= l < NUM_LEVELS ==> Lists(levels[l], InstallAll({}, s.disk.manifest, l)))
    && ReplayedRecords(rs) == LiveRecords(s.disk.logs, LastLogNumber(s.disk.manifest).value)
    && IsSnapshot(snap, levels) && ReopenEdit(e, rs, log, from, to, last)
    && LastNextFile(s.disk.manifest).value < from && log < to
    && (forall i :: 0 <= i < |s.disk.logs| ==> s.disk.logs[i].number < log)
    && LastLastSequence(s.disk.manifest).value <= last && Below(ReplayedRecords(rs), last + 1)
    && NextVersionOf(levels, e, levels') && TablesHold(tables, levels')
    && s' == s.(disk := Disk([snap, e], s.disk.logs + [Log(log, [])], tables),
                up := Some(Memory(levels', [], None, log, last, to, [], None, None, None)),
                front := s.history)
  }
}
