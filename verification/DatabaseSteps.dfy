/** Every step of the database keeps the invariant. */
module DatabaseSteps {
  import opened Options
  import opened Keys
  import opened Files
  import opened Installing
  import opened InputSelection
  import opened CompactionReads
  import opened Manifest
  import opened Editing
  import opened Durable
  import opened History
  import opened Recovery
  import opened Reopening
  import opened Database
  import opened DatabaseInvariant

  // ---------- views under changes of the logs ----------

  lemma ViewRewritesLog(manifest: seq<VersionEdit>, d: Disk, levels: Levels, front: seq<Record>, live: seq<Record>,
                        was: seq<Record>, now: seq<Record>, horizon: nat)
    requires View(manifest, d, levels, front, live + was, horizon)
    requires d.logs != [] && d.logs[|d.logs| - 1].records == was && d.logs[|d.logs| - 1].number >= LastLogNumber(manifest).value
    requires ValidHistory(front + (live + now))
    ensures View(manifest, SetCurrentLog(d, now), levels, front, live + now, horizon)
  {
    var n := |d.logs| - 1;
    assert d.logs == d.logs[..n] + [d.logs[n]];
    ChangeLast(d.logs[..n], d.logs[n], LastLogNumber(manifest).value, live, now);
  }

  lemma ViewNewLog(manifest: seq<VersionEdit>, d: Disk, levels: Levels, front: seq<Record>, recent: seq<Record>, horizon: nat, number: nat)
    requires View(manifest, d, levels, front, recent, horizon)
    requires forall i :: 0 <= i < |d.logs| ==> d.logs[i].number < number
    ensures View(manifest, d.(logs := d.logs + [Log(number, [])]), levels, front, recent, horizon)
  {
    NewLog(d.logs, LastLogNumber(manifest).value, recent, number);
  }

  lemma SnocValid(h: seq<Record>, r: Record)
    requires ValidHistory(h) && Fits(r) && Below(h, r.first)
    ensures ValidHistory(h + [r])
  {
  }

  /** The logged history, and so the acknowledged one, is in order. */
  lemma LoggedValid(s: Db, m: Memory)
    requires s.history == s.front + Imm(m) + m.mem
    requires View(Committed(s, m), s.disk, m.levels, s.front, Imm(m) + Current(m), s.horizon)
    ensures ValidHistory(Logged(s, m)) && ValidHistory(s.history) && Logged(s, m) == s.front + (Imm(m) + Current(m))
  {
    assert Logged(s, m) == s.front + (Imm(m) + Current(m));
    Parts(s.history, if m.inflight.Some? then [m.inflight.value] else []);
  }

  // ---------- writes ----------

  lemma LogAppendInv(s: Db, s': Db, m: Memory, ops: seq<Op>)
    requires UpInv(s, m) && LogAppend(s, s', m, ops)
    ensures UpInv(s', s'.up.value)
  {
    hide View, WellSelected, Complete, SnapshotsFrom, Behind, ValidHistory, Below;
    var r := Record(m.lastSequence + 1, ops);
    var m' := m.(inflight := Some(r));
    SameSnapshots(m, m');
    SameCounters(m, m');
    var now := m.mem + [r];
    assert Current(m) == m.mem && Current(m') == now;
    LogAppendViews(s, m, r);
    assert SetCurrentLog(s.disk, now).logs[|s.disk.logs| - 1] == Log(m.log, now);
  }

  lemma LogAppendViews(s: Db, m: Memory, r: Record)
    requires UpInv(s, m) && m.inflight.None? && Fits(r) && r.first == m.lastSequence + 1
    ensures var d := SetCurrentLog(s.disk, m.mem + [r]);
            && View(Committed(s, m), d, m.levels, s.front, Imm(m) + (m.mem + [r]), s.horizon)
            && (m.install.Some? ==>
                  View(s.disk.manifest, d, m.install.value.levels, PendingFront(s, m),
                       if m.install.value.flushed then m.mem + [r] else Imm(m) + (m.mem + [r]), m.install.value.horizon))
  {
    hide View;
    LoggedValid(s, m);
    var now := m.mem + [r];
    assert Current(m) == m.mem;
    assert s.front + (Imm(m) + m.mem) == s.history;
    assert LastLogNumber(Committed(s, m)).value <= m.log && (m.install.Some? ==> LastLogNumber(s.disk.manifest).value <= m.log);
    assert s.front + (Imm(m) + now) == s.history + [r];
    SnocValid(s.history, r);
    ViewRewritesLog(Committed(s, m), s.disk, m.levels, s.front, Imm(m), m.mem, now, s.horizon);
    if m.install.Some? {
      var p := m.install.value;
      if p.flushed {
        assert [] + m.mem == m.mem && [] + now == now;
        assert (s.front + Imm(m)) + now == s.history + [r];
        ViewRewritesLog(s.disk.manifest, s.disk, p.levels, s.front + Imm(m), [], m.mem, now, p.horizon);
      } else {
        ViewRewritesLog(s.disk.manifest, s.disk, p.levels, s.front, Imm(m), m.mem, now, p.horizon);
      }
    }
  }

  lemma AcknowledgeInv(s: Db, s': Db, m: Memory, sync: bool)
    requires UpInv(s, m) && Acknowledge(s, s', m, sync)
    ensures UpInv(s', s'.up.value)
  {
    var m' := s'.up.value;
    AcknowledgeRecords(s, s', m, sync);
    SnapshotsGrow(m, m');
    SameCounters(m, m');
    hide RecordsInv, View, WellSelected, Behind, SnapshotsFrom;
  }

  lemma AcknowledgeRecords(s: Db, s': Db, m: Memory, sync: bool)
    requires RecordsInv(s, m) && Acknowledge(s, s', m, sync)
    ensures RecordsInv(s', s'.up.value) && Current(s'.up.value) == Current(m) && Imm(s'.up.value) == Imm(m)
  {
    var m' := s'.up.value;
    assert s'.history == s.front + Imm(m) + m'.mem;
  }

  lemma SnapshotsGrow(m: Memory, m': Memory)
    requires m'.snapshots == m.snapshots && m'.lastSequence >= m.lastSequence
    ensures forall from :: SnapshotsFrom(m, from) ==> SnapshotsFrom(m', from)
  {
  }

  lemma SwitchInv(s: Db, s': Db, m: Memory)
    requires UpInv(s, m) && Switch(s, s', m)
    ensures UpInv(s', s'.up.value)
  {
    var m' := s'.up.value;
    SwitchViews(s, s', m);
    SwitchRecords(s, s', m);
    SwitchCounters(s, s', m);
    hide RecordsInv, LogInv, View, WellSelected, SnapshotsFrom, Behind;
  }

  lemma SwitchRecords(s: Db, s': Db, m: Memory)
    requires RecordsInv(s, m) && LogInv(s, m) && Switch(s, s', m)
    ensures RecordsInv(s', s'.up.value) && LogInv(s', s'.up.value)
  {
    hide Below, Fits;
    var m' := s'.up.value;
    assert s.front + Imm(m) + m.mem == s.front + Imm(m') + m'.mem;
  }

  lemma SwitchCounters(s: Db, s': Db, m: Memory)
    requires LogInv(s, m) && Switch(s, s', m)
    ensures forall manifest :: Behind(manifest, m) ==> Behind(manifest, s'.up.value)
    ensures forall from :: SnapshotsFrom(m, from) ==> SnapshotsFrom(s'.up.value, from)
  {
    SameSnapshots(m, s'.up.value);
    SameCounters(m, s'.up.value);
  }

  lemma SwitchViews(s: Db, s': Db, m: Memory)
    requires UpInv(s, m) && Switch(s, s', m)
    ensures var m' := s'.up.value;
            && View(Committed(s', m'), s'.disk, m'.levels, s'.front, Imm(m') + Current(m'), s'.horizon)
            && (m'.install.Some? ==>
                  View(s'.disk.manifest, s'.disk, m'.install.value.levels, PendingFront(s', m'), PendingRecent(m'), m'.install.value.horizon))
  {
    hide View, WellSelected, Complete, Below, ValidHistory, Fits, SnapshotsFrom, Behind;
    var m' := s'.up.value;
    assert Imm(m) + Current(m) == m.mem && Imm(m') + Current(m') == m.mem;
    ViewNewLog(Committed(s, m), s.disk, m.levels, s.front, m.mem, s.horizon, m.nextFile);
    if m.install.Some? {
      ViewNewLog(s.disk.manifest, s.disk, m.install.value.levels, s.front, m.mem, m.install.value.horizon, m.nextFile);
    }
  }

  lemma SameSnapshots(m: Memory, m': Memory)
    requires m'.snapshots == m.snapshots && m'.lastSequence == m.lastSequence
    ensures forall from :: SnapshotsFrom(m, from) ==> SnapshotsFrom(m', from)
  {
  }

  // ---------- snapshots and compaction start ----------

  /** Only the list of snapshots changes, and it keeps every bound it had. */
  lemma SnapshotsInv(s: Db, s': Db, m: Memory, m': Memory)
    requires UpInv(s, m) && ChangeMemory(s, s', m, m') && m' == m.(snapshots := m'.snapshots)
    requires forall from :: SnapshotsFrom(m, from) ==> SnapshotsFrom(m', from)
    ensures UpInv(s', m')
  {
    hide View, WellSelected, Below, Complete, Fits, SnapshotsFrom, ValidHistory, Behind;
    SameCounters(m, m');
  }

  lemma SameCounters(m: Memory, m': Memory)
    requires m'.log >= m.log && m'.nextFile >= m.nextFile && m'.lastSequence >= m.lastSequence
    ensures forall manifest :: Behind(manifest, m) ==> Behind(manifest, m')
  {
  }

  lemma TakeSnapshotInv(s: Db, s': Db, m: Memory)
    requires UpInv(s, m) && TakeSnapshot(s, s', m)
    ensures UpInv(s', s'.up.value)
  {
    hide UpInv;
    SnapshotsInv(s, s', m, m.(snapshots := m.snapshots + [m.lastSequence]));
  }

  lemma ReleaseSnapshotInv(s: Db, s': Db, m: Memory, i: nat)
    requires UpInv(s, m) && ReleaseSnapshot(s, s', m, i)
    ensures UpInv(s', s'.up.value)
  {
    hide UpInv;
    SnapshotsInv(s, s', m, m.(snapshots := m.snapshots[..i] + m.snapshots[i + 1..]));
  }

  lemma StartCompactionInv(s: Db, s': Db, m: Memory, job: Job)
    requires UpInv(s, m) && StartCompaction(s, s', m, job)
    ensures UpInv(s', s'.up.value)
  {
    hide View, WellSelected, Below, Complete, Fits;
  }

  // ---------- LogAndApply ----------

  /** Writing new tables and an edit leaves the committed reading of the disk alone. */
  lemma CommittedUnderWrite(manifest: seq<VersionEdit>, d: Disk, levels: Levels, front: seq<Record>, recent: seq<Record>, horizon: nat,
                            next: nat, tables: map<nat, File>)
    requires View(manifest, d, levels, front, recent, horizon) && LastNextFile(manifest).value <= next
    requires forall n :: n in d.tables && n < next ==> n in tables && tables[n] == d.tables[n]
    ensures TablesHold(tables, levels)
  {
    LiveBounded(manifest, levels);
    forall l, f | 0 <= l < NUM_LEVELS && f in levels[l]
      ensures f.number in tables && tables[f.number] == f
    {
      assert f.number in d.tables;
    }
  }

  lemma ViewWithTables(manifest: seq<VersionEdit>, d: Disk, levels: Levels, front: seq<Record>, recent: seq<Record>, horizon: nat, d': Disk)
    requires View(manifest, d, levels, front, recent, horizon) && d'.logs == d.logs && TablesHold(d'.tables, levels)
    ensures View(manifest, d', levels, front, recent, horizon)
  {
  }

  lemma EditCounters(manifest: seq<VersionEdit>, e: VersionEdit)
    requires e.logNumber.Some? && e.nextFile.Some? && e.lastSequence.Some?
    ensures Complete(manifest + [e])
    ensures LastLogNumber(manifest + [e]) == e.logNumber && LastNextFile(manifest + [e]) == e.nextFile
    ensures LastLastSequence(manifest + [e]) == e.lastSequence
  {
  }

  lemma WriteEditInv(s: Db, s': Db, m: Memory, e: VersionEdit, tables: map<nat, File>, levels': Levels, flushed: bool, horizon: nat,
                     front: seq<Record>, recent: seq<Record>)
    requires UpInv(s, m) && WriteEdit(s, s', m, e, tables, levels', flushed, horizon)
    requires flushed ==> m.imm.Some? && m.job.None?
    requires front == if flushed then s.front + Imm(m) else s.front
    requires recent == if flushed then Current(m) else Imm(m) + Current(m)
    requires e.logNumber.Some? && e.logNumber.value <= m.log && SnapshotsFrom(m, horizon)
    requires View(s.disk.manifest + [e], s'.disk, levels', front, recent, horizon)
    ensures UpInv(s', s'.up.value)
  {
    var m' := s'.up.value;
    NewBehind(s.disk.manifest, e, m');
    SameCounters(m, m');
    SameSnapshots(m, m');
    WriteEditLogs(s, s', m, e, tables, levels', flushed, horizon);
    WriteEditCommitted(s, s', m, e, tables, levels', flushed, horizon);
    WriteEditPending(s', m', flushed, horizon, front, recent);
    hide RecordsInv, LogInv, CommittedInv, PendingInv, View, WellSelected, SnapshotsFrom, NextVersionOf, TablesHold;
  }

  lemma WriteEditPending(s': Db, m': Memory, flushed: bool, horizon: nat, front: seq<Record>, recent: seq<Record>)
    requires m'.install.Some? && m'.install.value.flushed == flushed && m'.install.value.horizon == horizon
    requires flushed ==> m'.imm.Some? && m'.job.None?
    requires front == if flushed then s'.front + Imm(m') else s'.front
    requires recent == if flushed then Current(m') else Imm(m') + Current(m')
    requires s'.disk.manifest != [] && Behind(s'.disk.manifest, m') && SnapshotsFrom(m', horizon)
    requires View(s'.disk.manifest, s'.disk, m'.install.value.levels, front, recent, horizon)
    ensures PendingInv(s', m')
  {
    hide View, Behind, SnapshotsFrom;
  }

  lemma WriteEditLogs(s: Db, s': Db, m: Memory, e: VersionEdit, tables: map<nat, File>, levels': Levels, flushed: bool, horizon: nat)
    requires RecordsInv(s, m) && LogInv(s, m) && WriteEdit(s, s', m, e, tables, levels', flushed, horizon)
    ensures RecordsInv(s', s'.up.value) && LogInv(s', s'.up.value)
  {
    hide Below, Fits, NextVersionOf, TablesHold;
    var m' := s'.up.value;
    assert Imm(m') == Imm(m) && Current(m') == Current(m);
  }

  lemma WriteEditCommitted(s: Db, s': Db, m: Memory, e: VersionEdit, tables: map<nat, File>, levels': Levels, flushed: bool, horizon: nat)
    requires CommittedInv(s, m) && WriteEdit(s, s', m, e, tables, levels', flushed, horizon)
    ensures CommittedInv(s', s'.up.value)
  {
    var m' := s'.up.value;
    SameCounters(m, m');
    SameSnapshots(m, m');
    assert LastNextFile(Committed(s, m)).value <= m.nextFile;
    hide View, TablesHold, NextVersionOf, Behind, SnapshotsFrom;
    assert Committed(s', m') == s.disk.manifest == Committed(s, m);
    assert Imm(m') == Imm(m) && Current(m') == Current(m);
    CommittedUnderWrite(s.disk.manifest, s.disk, m.levels, s.front, Imm(m) + Current(m), s.horizon, m.nextFile, tables);
    ViewWithTables(s.disk.manifest, s.disk, m.levels, s.front, Imm(m) + Current(m), s.horizon, s'.disk);
  }

  lemma NewBehind(manifest: seq<VersionEdit>, e: VersionEdit, m: Memory)
    requires e.logNumber.Some? && e.logNumber.value <= m.log && e.nextFile == Some(m.nextFile) && e.lastSequence == Some(m.lastSequence)
    ensures Behind(manifest + [e], m)
  {
    EditCounters(manifest, e);
  }

  /** The current log alone is live once the immutable memtable is in a file. */
  lemma CurrentLogLive(d: Disk, log: nat, records: seq<Record>)
    requires d.logs != [] && SortedLogs(d.logs) && d.logs[|d.logs| - 1] == Log(log, records)
    ensures LogsStand(d.logs, log, records)
  {
    var n := |d.logs| - 1;
    assert d.logs == d.logs[..n] + [d.logs[n]];
    OnlyNewestLive(d.logs[..n], d.logs[n]);
  }

  lemma BeginFlushView(manifest: seq<VersionEdit>, d: Disk, m: Memory, front: seq<Record>, horizon: nat, level: nat, f: Option<File>,
                       e: VersionEdit, d': Disk, levels': Levels)
    requires View(manifest, d, m.levels, front, Imm(m) + Current(m), horizon) && Behind(manifest, m)
    requires d.logs != [] && d.logs[|d.logs| - 1] == Log(m.log, Current(m)) && m.imm.Some? && Below(m.imm.value, m.lastSequence + 1)
    requires ValidHistory(m.imm.value) && e.logNumber == Some(m.log) && e.deleted == {}
    requires e.nextFile.Some? && m.nextFile <= e.nextFile.value && e.lastSequence == Some(m.lastSequence)
    requires match f
             case None => Entries(m.imm.value) == {} && e.added == []
             case Some(f) => FlushTable(m.levels, level, f, m.imm.value) && f.number == m.nextFile && e.added == [(level, f)]
                             && f.number < e.nextFile.value
    requires NextVersionOf(m.levels, e, levels') && d'.logs == d.logs && TablesHold(d'.tables, levels')
    ensures View(manifest + [e], d', levels', front + m.imm.value, Current(m), horizon)
  {
    var imm := m.imm.value;
    assert front + (imm + Current(m)) == (front + imm) + Current(m);
    Parts(front + imm, Current(m));
    match f {
      case None => EmptyFlushAdvances(manifest, m.levels, front, imm, horizon, e, levels', m.lastSequence);
      case Some(f) => FlushAdvances(manifest, m.levels, front, imm, horizon, level, f, e, levels', m.lastSequence);
    }
    EditCounters(manifest, e);
    CurrentLogLive(d, m.log, Current(m));
  }

  lemma BeginFlushInv(s: Db, s': Db, m: Memory, level: nat, f: Option<File>, e: VersionEdit, tables: map<nat, File>, levels': Levels)
    requires UpInv(s, m) && BeginFlush(s, s', m, level, f, e, tables, levels')
    ensures UpInv(s', s'.up.value)
  {
    hide View, WellSelected, TablesHold, NextVersionOf, FlushTable, Complete;
    ImmBelow(s, m);
    BeginFlushView(s.disk.manifest, s.disk, m, s.front, s.horizon, level, f, e, s'.disk, levels');
    WriteEditInv(s, s', m, e, tables, levels', true, s.horizon, s.front + Imm(m), Current(m));
  }

  lemma ImmBelow(s: Db, m: Memory)
    requires RecordsInv(s, m)
    ensures Below(Imm(m), m.lastSequence + 1)
  {
    assert forall i :: 0 <= i < |Imm(m)| ==> Imm(m)[i] == s.history[|s.front| + i];
  }

  /** An edit that keeps the same log number and stands for the same records. */
  lemma SameLogView(manifest: seq<VersionEdit>, d: Disk, levels: Levels, front: seq<Record>, recent: seq<Record>, horizon: nat,
                    e: VersionEdit, d': Disk, levels': Levels, horizon': nat)
    requires View(manifest, d, levels, front, recent, horizon) && LastLogNumber(manifest).Some?
    requires e.logNumber == LastLogNumber(manifest) && e.nextFile.Some? && e.lastSequence.Some?
    requires FilesStand(manifest + [e], levels', front, horizon') && d'.logs == d.logs && TablesHold(d'.tables, levels')
    ensures View(manifest + [e], d', levels', front, recent, horizon')
  {
    hide FilesStand, TablesHold, LogsStand, ValidHistory;
    EditCounters(manifest, e);
  }

  lemma CompactionFiles(manifest: seq<VersionEdit>, m: Memory, front: seq<Record>, horizon: nat, j: Job,
                        input: seq<Entry>, outs: seq<File>, e: VersionEdit, levels': Levels)
    requires FilesStand(manifest, m.levels, front, horizon) && CountersAdvance(manifest, e, m.lastSequence) && j.level + 1 < NUM_LEVELS
    requires e.deleted == InputDeletions(j.level, j.in0, j.in1) && e.added == OutputAdditions(j.level, outs)
    requires FreshOutputs(outs, LastNextFile(manifest).value, e.nextFile.value)
    requires CompactionStep(m.levels, j.level, j.in0, j.in1, j.snapshot, input, outs, levels')
    requires !Resurrects(input, Untouched(m.levels, j.level, j.in0, j.in1), j.snapshot, m.levels[j.level + 2..])
    requires NextVersionOf(m.levels, e, levels') && horizon <= m.lastSequence && j.snapshot <= m.lastSequence
    ensures FilesStand(manifest + [e], levels', front, Later(horizon, j.snapshot))
  {
    hide VersionStands, ManifestOk, Covers, NextVersionOf, FreshOutputs, Resurrects, CutFrom, Installed, MergeOf, WellSelected;
    CompactionInstalls(manifest, m.levels, j.level, j.in0, j.in1, outs, e, levels', m.lastSequence);
    CompactionVersion(m.levels, front, horizon, Later(horizon, j.snapshot), j.level, j.in0, j.in1, j.snapshot, input, outs, levels');
    assert front + [] == front;
    CoversMore(manifest, front, [], horizon, Later(horizon, j.snapshot), e, m.lastSequence);
  }

  lemma FinishCompactionView(manifest: seq<VersionEdit>, d: Disk, m: Memory, front: seq<Record>, recent: seq<Record>, horizon: nat, j: Job,
                             input: seq<Entry>, outs: seq<File>, e: VersionEdit, d': Disk, levels': Levels)
    requires View(manifest, d, m.levels, front, recent, horizon) && Behind(manifest, m) && j.level + 1 < NUM_LEVELS
    requires e.logNumber == LastLogNumber(manifest) && e.nextFile.Some? && m.nextFile <= e.nextFile.value && e.lastSequence == Some(m.lastSequence)
    requires e.deleted == InputDeletions(j.level, j.in0, j.in1) && e.added == OutputAdditions(j.level, outs)
    requires FreshOutputs(outs, m.nextFile, e.nextFile.value)
    requires CompactionStep(m.levels, j.level, j.in0, j.in1, j.snapshot, input, outs, levels')
    requires !Resurrects(input, Untouched(m.levels, j.level, j.in0, j.in1), j.snapshot, m.levels[j.level + 2..])
    requires NextVersionOf(m.levels, e, levels') && d'.logs == d.logs && TablesHold(d'.tables, levels')
    requires horizon <= m.lastSequence && j.snapshot <= m.lastSequence
    ensures View(manifest + [e], d', levels', front, recent, Later(horizon, j.snapshot))
  {
    hide FilesStand, CompactionStep, Resurrects, NextVersionOf, TablesHold, LogsStand, ValidHistory;
    CompactionFiles(manifest, m, front, horizon, j, input, outs, e, levels');
    SameLogView(manifest, d, m.levels, front, recent, horizon, e, d', levels', Later(horizon, j.snapshot));
  }

  lemma FinishCompactionInv(s: Db, s': Db, m: Memory, input: seq<Entry>, outs: seq<File>, e: VersionEdit, tables: map<nat, File>, levels': Levels)
    requires UpInv(s, m) && FinishCompaction(s, s', m, input, outs, e, tables, levels') && Harmless(m, input)
    ensures UpInv(s', s'.up.value)
  {
    hide View, WellSelected, TablesHold, NextVersionOf, CompactionStep, FreshOutputs, Resurrects, Below;
    var j := m.job.value;
    FinishCompactionView(s.disk.manifest, s.disk, m, s.front, Imm(m) + Current(m), s.horizon, j, input, outs, e, s'.disk, levels');
    WriteEditInv(s, s', m, e, tables, levels', false, Later(s.horizon, j.snapshot), s.front, Imm(m) + Current(m));
  }

  lemma MoveFiles(manifest: seq<VersionEdit>, m: Memory, front: seq<Record>, horizon: nat, level: nat, f: File, e: VersionEdit, levels': Levels)
    requires FilesStand(manifest, m.levels, front, horizon) && CountersAdvance(manifest, e, m.lastSequence) && level + 1 < NUM_LEVELS
    requires WellSelected(m.levels, level, [f], []) && MoveEdit(e, level, f)
    requires NextVersionOf(m.levels, e, levels') && horizon <= m.lastSequence
    ensures FilesStand(manifest + [e], levels', front, horizon)
  {
    hide VersionStands, Covers, NextVersionOf, Installed, WellSelected, NumbersBounded, OnlyDeeper, UniqueNumbers, MoveEdit;
    SelectedWithin(m.levels, level, [f], []);
    assert f in [f];
    ManifestSorted(manifest, m.levels);
    AppendMove(manifest, m.levels, level, f, e, levels');
    MoveVersion(m.levels, front, horizon, level, f, levels');
    assert front + [] == front;
    CoversMore(manifest, front, [], horizon, horizon, e, m.lastSequence);
  }

  lemma BeginMoveView(manifest: seq<VersionEdit>, d: Disk, m: Memory, front: seq<Record>, recent: seq<Record>, horizon: nat,
                      level: nat, f: File, e: VersionEdit, d': Disk, levels': Levels)
    requires View(manifest, d, m.levels, front, recent, horizon) && Behind(manifest, m) && level + 1 < NUM_LEVELS
    requires WellSelected(m.levels, level, [f], []) && MoveEdit(e, level, f) && e.logNumber == LastLogNumber(manifest)
    requires m.nextFile <= e.nextFile.value && e.lastSequence == Some(m.lastSequence)
    requires NextVersionOf(m.levels, e, levels') && d'.logs == d.logs && TablesHold(d'.tables, levels')
    requires horizon <= m.lastSequence
    ensures View(manifest + [e], d', levels', front, recent, horizon)
  {
    hide FilesStand, NextVersionOf, TablesHold, LogsStand, ValidHistory, WellSelected;
    MoveFiles(manifest, m, front, horizon, level, f, e, levels');
    SameLogView(manifest, d, m.levels, front, recent, horizon, e, d', levels', horizon);
  }

  lemma BeginMoveInv(s: Db, s': Db, m: Memory, level: nat, f: File, e: VersionEdit, levels': Levels)
    requires UpInv(s, m) && BeginMove(s, s', m, level, f, e, levels')
    ensures UpInv(s', s'.up.value)
  {
    hide View, WellSelected, TablesHold, NextVersionOf, Below;
    BeginMoveView(s.disk.manifest, s.disk, m, s.front, Imm(m) + Current(m), s.horizon, level, f, e, s'.disk, levels');
    WriteEditInv(s, s', m, e, s.disk.tables, levels', false, s.horizon, s.front, Imm(m) + Current(m));
  }

  lemma FinishInstallInv(s: Db, s': Db, m: Memory)
    requires UpInv(s, m) && FinishInstall(s, s', m)
    ensures UpInv(s', s'.up.value)
  {
    hide View, WellSelected, Below, Complete, Fits;
    var m' := s'.up.value;
    assert Current(m') == Current(m);
    assert Imm(m') + Current(m') == PendingRecent(m);
    assert s'.front + Imm(m') + m'.mem == s.front + Imm(m) + m.mem;
    assert Committed(s', m') == s.disk.manifest;
  }

  lemma DeleteObsoleteInv(s: Db, s': Db, m: Memory, tables: map<nat, File>)
    requires UpInv(s, m) && DeleteObsolete(s, s', m, tables)
    ensures UpInv(s', s'.up.value)
  {
    hide WellSelected, Below, Complete, Fits, FilesStand;
    var min := LastLogNumber(s.disk.manifest).value;
    var n := |s.disk.logs| - 1;
    PruneKeeps(s.disk.logs, min, Imm(m) + Current(m));
    forall i | 0 <= i < |s'.disk.logs|
      ensures s'.disk.logs[i].number < m.nextFile
    {
      PruneWithin(s.disk.logs, min, s'.disk.logs[i]);
    }
  }

  // ---------- crash and recovery ----------

  /** What a crash leaves of one reading of the disk. */
  lemma CrashView(manifest: seq<VersionEdit>, d: Disk, levels: Levels, front: seq<Record>, live: seq<Record>, records: seq<Record>,
                  horizon: nat, k: nat)
    requires View(manifest, d, levels, front, live + records, horizon) && k <= |records|
    requires d.logs != [] && d.logs[|d.logs| - 1].records == records && d.logs[|d.logs| - 1].number >= LastLogNumber(manifest).value
    ensures View(manifest, SetCurrentLog(d, records[..k]), levels, front, live + records[..k], horizon)
    ensures front + (live + records[..k]) == (front + (live + records))[..|front| + |live| + k]
  {
    hide FilesStand, TablesHold, ValidHistory, LogsStand;
    PrefixOf(front, live, records, k);
    PrefixValid(front + (live + records), |front| + |live| + k);
    ViewRewritesLog(manifest, d, levels, front, live, records, records[..k], horizon);
  }

  lemma PrefixOf(front: seq<Record>, live: seq<Record>, records: seq<Record>, k: nat)
    requires k <= |records|
    ensures front + (live + records[..k]) == (front + (live + records))[..|front| + |live| + k]
  {
  }

  lemma PrefixValid(h: seq<Record>, n: nat)
    requires ValidHistory(h) && n <= |h|
    ensures ValidHistory(h[..n])
  {
  }

  /** A crash leaves a disk that stands for the surviving history: all that was acknowledged
      before the torn tail, and nothing else. */
  lemma CrashInv(s: Db, s': Db, m: Memory, k: nat, keepEdit: bool)
    requires UpInv(s, m) && Crash(s, s', m, k, keepEdit)
    ensures DownInv(s')
  {
    LoggedValid(s, m);
    if m.install.Some? && keepEdit {
      CrashKept(s, s', m, k);
    } else {
      CrashLost(s, s', m, k, keepEdit);
    }
  }

  lemma CrashKept(s: Db, s': Db, m: Memory, k: nat)
    requires UpInv(s, m) && m.install.Some? && Crash(s, s', m, k, true)
    requires ValidHistory(Logged(s, m)) && Logged(s, m) == s.front + (Imm(m) + Current(m))
    ensures DownInv(s')
  {
    hide View, WellSelected, Below, Fits, ValidHistory, SnapshotsFrom;
    var records, p := Current(m), m.install.value;
    var live := if p.flushed then [] else Imm(m);
    assert live + records == PendingRecent(m);
    CrashView(s.disk.manifest, s.disk, p.levels, PendingFront(s, m), live, records, p.horizon, k);
    assert PendingFront(s, m) + PendingRecent(m) == Logged(s, m);
    assert View(s'.disk.manifest, s'.disk, p.levels, s'.front, live + records[..k], s'.horizon);
  }

  lemma CrashLost(s: Db, s': Db, m: Memory, k: nat, keepEdit: bool)
    requires UpInv(s, m) && Crash(s, s', m, k, keepEdit) && (m.install.Some? ==> !keepEdit)
    requires ValidHistory(Logged(s, m)) && Logged(s, m) == s.front + (Imm(m) + Current(m))
    ensures DownInv(s')
  {
    hide View, WellSelected, Below, Fits, ValidHistory, SnapshotsFrom;
    var records := Current(m);
    CrashView(Committed(s, m), s.disk, m.levels, s.front, Imm(m), records, s.horizon, k);
    CrashManifest(Committed(s, m), SetCurrentLog(s.disk, records[..k]), m.levels, s.front, Imm(m) + records[..k], s.horizon, s'.disk);
    assert View(s'.disk.manifest, s'.disk, m.levels, s'.front, Imm(m) + records[..k], s'.horizon);
  }

  /** A reading of the disk depends on the named manifest, the logs and the tables only. */
  lemma CrashManifest(manifest: seq<VersionEdit>, d: Disk, levels: Levels, front: seq<Record>, recent: seq<Record>, horizon: nat, d': Disk)
    requires View(manifest, d, levels, front, recent, horizon) && d'.logs == d.logs && d'.tables == d.tables
    ensures View(manifest, d', levels, front, recent, horizon)
  {
  }

  lemma FailedRecoveryInv(s: Db, s': Db, log: nat, tables: map<nat, File>)
    requires DownInv(s) && FailedRecovery(s, s', log, tables)
    ensures DownInv(s')
  {
    var levels, recent :| View(s.disk.manifest, s.disk, levels, s.front, recent, s.horizon) && s.front + recent == s.history;
    hide View, Complete, TablesHold;
    var d := s.disk.(tables := tables);
    CommittedUnderWrite(s.disk.manifest, s.disk, levels, s.front, recent, s.horizon, LastNextFile(s.disk.manifest).value, tables);
    ViewWithTables(s.disk.manifest, s.disk, levels, s.front, recent, s.horizon, d);
    ViewNewLog(s.disk.manifest, d, levels, s.front, recent, s.horizon, log);
  }

  lemma ReopenInv(s: Db, s': Db, levels: Levels, rs: seq<Replayed>, snap: VersionEdit, e: VersionEdit,
                  log: nat, from: nat, to: nat, last: SequenceNumber, levels': Levels, tables: map<nat, File>)
    requires DownInv(s) && Reopen(s, s', levels, rs, snap, e, log, from, to, last, levels', tables)
    ensures UpInv(s', s'.up.value)
  {
    var files, recent :| View(s.disk.manifest, s.disk, files, s.front, recent, s.horizon) && s.front + recent == s.history;
    RecoveredIsCurrent(s.disk.manifest, files, levels);
    ReopenStands(s.disk.manifest, s.disk.logs, files, s.front, recent, s.horizon, rs, snap, e, log, from, to, last, levels');
    ReopenUp(s, s', recent, rs, snap, e, log, from, to, last, levels', tables);
  }

  lemma StandsBelow(manifest: seq<VersionEdit>, logs: seq<Log>, levels: Levels, front: seq<Record>, recent: seq<Record>, horizon: nat)
    requires Stands(manifest, logs, levels, front, recent, horizon)
    ensures LastLastSequence(manifest).Some? && Below(front, LastLastSequence(manifest).value + 1)
    ensures horizon <= LastLastSequence(manifest).value
  {
  }

  lemma ReopenUp(s: Db, s': Db, recent: seq<Record>, rs: seq<Replayed>, snap: VersionEdit, e: VersionEdit,
                 log: nat, from: nat, to: nat, last: SequenceNumber, levels': Levels, tables: map<nat, File>)
    requires s'.disk == Disk([snap, e], s.disk.logs + [Log(log, [])], tables) && s'.horizon == s.horizon && s'.front == s'.history == s.history
    requires s'.up == Some(Memory(levels', [], None, log, last, to, [], None, None, None)) && s'.durable <= |s.history|
    requires Stands([snap, e], s'.disk.logs, levels', s.history, [], s.horizon) && TablesHold(tables, levels')
    requires e == VersionEdit(Some(log), Some(to), Some(last), {}, ReplayedTables(rs))
    requires log < to && forall i :: 0 <= i < |s.disk.logs| ==> s.disk.logs[i].number < log
    ensures UpInv(s', s'.up.value)
  {
    var m' := s'.up.value;
    assert [snap] + [e] == [snap, e];
    NewBehind([snap], e, m');
    EditCounters([snap], e);
    StandsBelow([snap, e], s'.disk.logs, levels', s.history, [], s.horizon);
    ReopenRecords(s', m', s.horizon);
    ReopenLog(s', m', s.disk.logs, log);
    hide RecordsInv, LogInv, Stands, TablesHold, Behind;
    assert Imm(m') + Current(m') == [];
  }

  lemma ReopenRecords(s': Db, m': Memory, horizon: nat)
    requires s'.front == s'.history && m'.mem == [] && m'.imm.None? && m'.inflight.None? && m'.snapshots == []
    requires s'.durable <= |s'.history| && Below(s'.history, m'.lastSequence + 1) && horizon <= m'.lastSequence
    ensures RecordsInv(s', m') && SnapshotsFrom(m', horizon)
  {
    hide Below;
    assert s'.history + [] + [] == s'.history;
  }

  lemma ReopenLog(s': Db, m': Memory, logs: seq<Log>, log: nat)
    requires s'.disk.logs == logs + [Log(log, [])] && m'.log == log && log < m'.nextFile && m'.mem == [] && m'.inflight.None?
    requires forall i :: 0 <= i < |logs| ==> logs[i].number < log
    ensures LogInv(s', m')
  {
  }
}
