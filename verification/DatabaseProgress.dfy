/** The step machine can do what the database does: in every state that satisfies the invariant, a batch can be logged
    and acknowledged, memtables switched and flushed, closed compactions finished, and power lost. */
module DatabaseProgress {
  import opened Options
  import opened Keys
  import opened Files
  import opened Compacting
  import opened InputSelection
  import opened Installing
  import CompactionReads
  import opened CompactionSafety
  import opened Manifest
  import opened Editing
  import opened History
  import opened Recovery
  import opened Database
  import opened DatabaseInvariant
  import opened DatabaseRuns
  import opened DatabaseRecovery

  // ---- writes ----

  /** A write gets through when none is in flight and sequence numbers are left: it is logged, and then acknowledged,
      with or without a sync. */
  lemma WriteGoesOn(s: Db, ops: seq<Op>, sync: bool) returns (s1: Db, s2: Db)
    requires s.up.Some? && UpInv(s, s.up.value) && s.up.value.inflight.None? && s.up.value.lastSequence + |ops| <= MAX_SEQUENCE
    ensures DatabaseRuns.Step(s, Log_(ops), s1) && DatabaseRuns.Step(s1, Ack(sync), s2)
  {
    var m := s.up.value;
    var r := Record(m.lastSequence + 1, ops);
    var m1 := m.(inflight := Some(r));
    s1 := s.(disk := SetCurrentLog(s.disk, s.disk.logs[|s.disk.logs| - 1].records + [r]), up := Some(m1));
    s2 := s1.(up := Some(m1.(inflight := None, mem := m.mem + [r], lastSequence := m.lastSequence + |ops|)),
              history := s.history + [r], durable := if sync then |s.history| + 1 else s.durable);
    assert LogAppend(s, s1, m, ops);
    assert Acknowledge(s1, s2, m1, sync);
    hide UpInv;
  }

  lemma SwitchGoesOn(s: Db) returns (s': Db)
    requires s.up.Some? && s.up.value.inflight.None? && s.up.value.imm.None?
    ensures DatabaseRuns.Step(s, SwitchMemtable, s')
  {
    var m := s.up.value;
    s' := s.(disk := s.disk.(logs := s.disk.logs + [Log(m.nextFile, [])]),
             up := Some(m.(imm := Some(m.mem), mem := [], log := m.nextFile, nextFile := m.nextFile + 1)));
  }

  lemma InstallGoesOn(s: Db) returns (s': Db)
    requires s.up.Some? && s.up.value.install.Some?
    ensures DatabaseRuns.Step(s, Event.Install, s')
  {
    var m := s.up.value;
    var p := m.install.value;
    s' := s.(up := Some(m.(levels := p.levels, imm := if p.flushed then None else m.imm, job := None, install := None)),
             front := if p.flushed then s.front + Imm(m) else s.front, horizon := p.horizon);
  }

  /** Any unsynced tail of the current log may be lost, and the manifest record that is being written. */
  lemma PowerMayFail(s: Db, k: nat, keepEdit: bool) returns (s': Db)
    requires s.up.Some? && UpInv(s, s.up.value) && s.disk.logs != []
    requires var records := s.disk.logs[|s.disk.logs| - 1].records;
      k <= |records| && s.durable + (|records| - k) <= |Logged(s, s.up.value)|
    ensures DatabaseRuns.Step(s, PowerLoss(k, keepEdit), s')
  {
    hide *;
    var m := s.up.value;
    UpFacts(s, m);
    s' := Crashes(s, m, k, keepEdit);
    PowerStep(s, m, k, keepEdit, s');
  }

  lemma PowerStep(s: Db, m: Memory, k: nat, keepEdit: bool, s': Db)
    requires s.up == Some(m) && Crash(s, s', m, k, keepEdit)
    ensures DatabaseRuns.Step(s, PowerLoss(k, keepEdit), s')
  {
    hide Crash;
  }

  lemma Crashes(s: Db, m: Memory, k: nat, keepEdit: bool) returns (s': Db)
    requires s.up == Some(m) && s.disk.logs != [] && s.disk.manifest != []
    requires var records := s.disk.logs[|s.disk.logs| - 1].records;
      k <= |records| && s.durable + (|records| - k) <= |Logged(s, m)|
    ensures Crash(s, s', m, k, keepEdit)
  {
    var records := s.disk.logs[|s.disk.logs| - 1].records;
    var kept := m.install.Some? && keepEdit;
    var d := SetCurrentLog(s.disk, records[..k]);
    s' := Db(if m.install.Some? && !keepEdit then d.(manifest := d.manifest[..|d.manifest| - 1]) else d, None,
             Logged(s, m)[..|Logged(s, m)| - (|records| - k)], s.durable,
             if kept && m.install.value.flushed then s.front + Imm(m) else s.front, if kept then m.install.value.horizon else s.horizon);
  }

  // ---- edits ----

  lemma UpFacts(s: Db, m: Memory)
    requires UpInv(s, m)
    ensures s.disk.manifest != []
    ensures m.install.None? ==>
        && AllSorted(m.levels) && UniqueNumbers(m.levels) && TablesHold(s.disk.tables, m.levels) && ValidLevels(m.levels)
        && LastLogNumber(s.disk.manifest).Some?
        && (forall l, g :: 0 <= l < NUM_LEVELS && g in m.levels[l] ==> g.number < m.nextFile)
  {
    if m.install.None? {
      ManifestSorted(s.disk.manifest, m.levels);
      LiveBounded(s.disk.manifest, m.levels);
      hide LogsStand, LogInv, RecordsInv, PendingInv, JobInv, TablesHold, ValidLevels, HoldsPrefix, UniqueNumbers, AllSorted;
    }
  }

  /** The added files have numbers from `from` on, all different. */
  ghost predicate NewNumbers(e: VersionEdit, from: nat) {
    && (forall i :: 0 <= i < |e.added| ==> from <= e.added[i].1.number)
    && (forall i, j :: 0 <= i < j < |e.added| ==> e.added[i].1.number != e.added[j].1.number)
  }

  /** The tables of a new version: the old ones and the added ones. */
  lemma EditTables(tables: map<nat, File>, levels: Levels, e: VersionEdit, levels': Levels, from: nat) returns (tables': map<nat, File>)
    requires TablesHold(tables, levels) && NextVersionOf(levels, e, levels')
    requires forall l, g :: 0 <= l < NUM_LEVELS && g in levels[l] ==> g.number < from
    requires NewNumbers(e, from)
    ensures TablesHold(tables', levels') && forall n :: n in tables && n < from ==> n in tables' && tables'[n] == tables[n]
  {
    var files := set i | 0 <= i < |e.added| :: e.added[i].1;
    tables' := tables + map n | n in Numbers(files) :: Numbered(files, n);
    forall l, f | 0 <= l < NUM_LEVELS && f in levels'[l]
      ensures f.number in tables' && tables'[f.number] == f
    {
      assert f in ToSet(levels'[l]) && f in Manifest.Install(ToSet(levels[l]), e, l);
      if f in AddedAt(e, |e.added|, l) {
        assert f in files && f.number in Numbers(files);
        var g := Numbered(files, f.number);
      } else {
        assert f in levels[l];
      }
    }
  }

  /** The edit can be written and the version that it makes be installed. */
  lemma EditGoesOn(s: Db, m: Memory, e: VersionEdit, flushed: bool, horizon: nat) returns (s': Db, tables: map<nat, File>, levels': Levels)
    requires s.up == Some(m) && UpInv(s, m) && m.install.None?
    requires e.nextFile.Some? && m.nextFile <= e.nextFile.value && e.lastSequence == Some(m.lastSequence) && ValidEdit(e)
    requires NewNumbers(e, m.nextFile)
    ensures WriteEdit(s, s', m, e, tables, levels', flushed, horizon)
  {
    UpFacts(s, m);
    hide UpInv, ValidLevels, UniqueNumbers;
    AddsAbove(m.levels, e, m.nextFile);
    levels' := Installs(m.levels, e);
    tables := EditTables(s.disk.tables, m.levels, e, levels', m.nextFile);
    hide NextVersionOf, TablesHold, AllSorted, ValidEdit;
    s' := s.(disk := s.disk.(manifest := s.disk.manifest + [e], tables := tables),
             up := Some(m.(nextFile := e.nextFile.value, install := Some(Unsynced(levels', flushed, horizon)))));
  }

  /** A full memtable can always be written out, as one table at level 0 or, if it is empty, as none. */
  lemma FlushGoesOn(s: Db) returns (s': Db, ev: Event)
    requires s.up.Some? && UpInv(s, s.up.value) && s.up.value.imm.Some? && s.up.value.job.None? && s.up.value.install.None?
    ensures ev.Flush? && DatabaseRuns.Step(s, ev, s')
  {
    hide *;
    var m := s.up.value;
    ImmValid(s, m);
    var f := MemtableTable(m);
    var e := VersionEdit(Some(m.log), Some(m.nextFile + 1), Some(m.lastSequence), {}, if f.None? then [] else [(0, f.value)]);
    OneTable(e, f, m.nextFile);
    var tables, levels';
    s', tables, levels' := EditGoesOn(s, m, e, true, s.horizon);
    ev := Flush(0, f, e, tables, levels');
    FlushStep(s, s', m, f, e, tables, levels');
  }

  lemma MemtableTable(m: Memory) returns (f: Option<File>)
    requires m.imm.Some? && ValidHistory(m.imm.value)
    ensures f.None? ==> Entries(m.imm.value) == {}
    ensures f.Some? ==> ValidFile(f.value) && Contents(f.value) == Entries(m.imm.value) && f.value.number == m.nextFile
  {
    HistoryDistinct(m.imm.value);
    var es := InKeyOrder(Entries(m.imm.value));
    f := if es == [] then None else Some(File(m.nextFile, 0, es[0].key, es[|es| - 1].key, es));
    hide Entries, ValidHistory;
  }

  lemma OneTable(e: VersionEdit, f: Option<File>, number: nat)
    requires e.deleted == {} && e.added == (if f.None? then [] else [(0, f.value)]) && (f.Some? ==> f.value.number == number)
    ensures ValidEdit(e) && NewNumbers(e, number)
  {
  }

  lemma FlushStep(s: Db, s': Db, m: Memory, f: Option<File>, e: VersionEdit, tables: map<nat, File>, levels': Levels)
    requires s.up == Some(m) && m.imm.Some? && m.job.None? && ValidHistory(m.imm.value)
    requires e == VersionEdit(Some(m.log), Some(m.nextFile + 1), Some(m.lastSequence), {}, if f.None? then [] else [(0, f.value)])
    requires f.None? ==> Entries(m.imm.value) == {}
    requires f.Some? ==> ValidFile(f.value) && Contents(f.value) == Entries(m.imm.value) && f.value.number == m.nextFile
    requires WriteEdit(s, s', m, e, tables, levels', true, s.horizon)
    ensures DatabaseRuns.Step(s, Flush(0, f, e, tables, levels'), s')
  {
    hide WriteEdit, ValidHistory, Entries, Contents, ValidFile;
    assert BeginFlush(s, s', m, 0, f, e, tables, levels');
    hide BeginFlush;
  }

  lemma ImmValid(s: Db, m: Memory)
    requires UpInv(s, m)
    ensures ValidHistory(Imm(m)) && (m.imm.Some? ==> ValidHistory(m.imm.value))
  {
    ReadsFrom(s, m);
    Parts(Imm(m), m.mem);
  }

  lemma ReadsFrom(s: Db, m: Memory)
    requires UpInv(s, m)
    ensures ValidHistory(Imm(m) + m.mem)
  {
    ReadsAreRight(s.(up := Some(m)), m, 0.0, s.horizon);
  }

  // ---- compactions ----

  /** A compaction whose level+1 inputs are closed can be picked and finished. */
  lemma CompactionGoesOn(s: Db, level: nat, in0: seq<File>, in1: seq<File>) returns (s1: Db, s2: Db, job: Job, ev: Event)
    requires s.up.Some? && UpInv(s, s.up.value)
    requires s.up.value.imm.None? && s.up.value.job.None? && s.up.value.install.None? && s.up.value.lastSequence < MAX_SEQUENCE
    requires WellSelected(s.up.value.levels, level, in0, in1) && NextLevelClosed(s.up.value.levels, level, in1)
    ensures DatabaseRuns.Step(s, PickCompaction(job), s1) && ev.InstallCompaction? && DatabaseRuns.Step(s1, ev, s2)
  {
    hide *;
    var m := s.up.value;
    SnapshotsBehind(s, m);
    s1, job := Picks(s, m, level, in0, in1);
    DatabaseRuns.StepInv(s, PickCompaction(job), s1);
    s2, ev := ClosedFinishes(s1, s1.up.value, job);
  }

  lemma Picks(s: Db, m: Memory, level: nat, in0: seq<File>, in1: seq<File>) returns (s1: Db, job: Job)
    requires s.up == Some(m) && UpInv(s, m) && m.imm.None? && m.job.None? && m.install.None? && m.lastSequence < MAX_SEQUENCE
    requires WellSelected(m.levels, level, in0, in1) && (m.snapshots != [] ==> m.snapshots[0] <= m.lastSequence)
    ensures Inv(s) && DatabaseRuns.Step(s, PickCompaction(job), s1)
    ensures s1.up.Some? && s1.up.value.levels == m.levels && s1.up.value.job == Some(job) && s1.up.value.install.None?
    ensures job.level == level && job.in0 == in0 && job.in1 == in1
    ensures Inv(s1) ==> UpInv(s1, s1.up.value)
  {
    hide UpInv, WellSelected;
    job := Job(level, in0, in1, if m.snapshots == [] then m.lastSequence else m.snapshots[0]);
    s1 := s.(up := Some(m.(job := Some(job))));
    assert StartCompaction(s, s1, m, job);
  }

  lemma SnapshotsBehind(s: Db, m: Memory)
    requires UpInv(s, m)
    ensures m.snapshots != [] ==> m.snapshots[0] <= m.lastSequence
  {
  }

  lemma ClosedFinishes(s: Db, m: Memory, j: Job) returns (s': Db, ev: Event)
    requires s.up == Some(m) && UpInv(s, m) && m.job == Some(j) && m.install.None?
    requires WellSelected(m.levels, j.level, j.in0, j.in1) && NextLevelClosed(m.levels, j.level, j.in1)
    ensures ev.InstallCompaction? && DatabaseRuns.Step(s, ev, s')
  {
    hide *;
    UpFacts(s, m);
    LevelBelow(m.levels, j.level, j.in0, j.in1);
    var input := MergedInput(m.levels, j.level, j.in0, j.in1);
    MergedSorted(input, j.in0, j.in1);
    var deep := m.levels[j.level + 2..];
    var outs := OneOutput(input, j.snapshot, deep, m.nextFile);
    var e := VersionEdit(LastLogNumber(s.disk.manifest), Some(m.nextFile + 1), Some(m.lastSequence),
                         InputDeletions(j.level, j.in0, j.in1), OutputAdditions(j.level, outs));
    CompactionEdit(e, m.levels, j, outs, m.nextFile);
    var tables, levels';
    s', tables, levels' := EditGoesOn(s, m, e, false, Later(s.horizon, j.snapshot));
    WritesVersion(s, s', m, e, tables, levels', false, Later(s.horizon, j.snapshot));
    VersionInstalled(m.levels, j, outs, e, m.nextFile, levels');
    ClosedIsHarmless(m, j, input);
    ev := InstallCompaction(input, outs, e, tables, levels');
    FinishesWith(s, s', m, j, input, outs, e, tables, levels');
  }

  lemma LevelBelow(levels: Levels, level: nat, in0: seq<File>, in1: seq<File>)
    requires WellSelected(levels, level, in0, in1)
    ensures level + 1 < NUM_LEVELS
  {
  }

  lemma MergedSorted(input: seq<Entry>, in0: seq<File>, in1: seq<File>)
    requires MergeOf(input, in0, in1)
    ensures Sorted(input)
  {
  }

  lemma WritesVersion(s: Db, s': Db, m: Memory, e: VersionEdit, tables: map<nat, File>, levels': Levels, flushed: bool, horizon: nat)
    requires WriteEdit(s, s', m, e, tables, levels', flushed, horizon)
    ensures NextVersionOf(m.levels, e, levels')
  {
  }

  lemma FinishesWith(s: Db, s': Db, m: Memory, j: Job, input: seq<Entry>, outs: seq<File>, e: VersionEdit, tables: map<nat, File>, levels': Levels)
    requires s.up == Some(m) && m.job == Some(j) && s.disk.manifest != [] && j.level + 1 < NUM_LEVELS && Harmless(m, input)
    requires e.logNumber == LastLogNumber(s.disk.manifest) && e.deleted == InputDeletions(j.level, j.in0, j.in1)
    requires e.added == OutputAdditions(j.level, outs) && e.nextFile.Some? && FreshOutputs(outs, m.nextFile, e.nextFile.value)
    requires WellSelected(m.levels, j.level, j.in0, j.in1) && MergeOf(input, j.in0, j.in1)
    requires CutFrom(outs, Kept(input, |input|, j.snapshot, m.levels[j.level + 2..]))
    requires Installed(m.levels, j.level, j.in0, j.in1, outs, levels')
    requires WriteEdit(s, s', m, e, tables, levels', false, Later(s.horizon, j.snapshot))
    ensures DatabaseRuns.Step(s, InstallCompaction(input, outs, e, tables, levels'), s')
  {
    hide Harmless, WriteEdit, WellSelected, MergeOf, CutFrom, Installed, Kept, FreshOutputs;
    assert CompactionStep(m.levels, j.level, j.in0, j.in1, j.snapshot, input, outs, levels');
    hide CompactionStep;
    assert FinishCompaction(s, s', m, input, outs, e, tables, levels');
    hide FinishCompaction;
  }

  /** The inputs' entries in key order. */
  lemma MergedInput(levels: Levels, level: nat, in0: seq<File>, in1: seq<File>) returns (input: seq<Entry>)
    requires ValidLevels(levels) && WellSelected(levels, level, in0, in1)
    ensures MergeOf(input, in0, in1)
  {
    SelectedWithin(levels, level, in0, in1);
    var S := LevelContents(in0) + LevelContents(in1);
    assert S <= ContentsFrom(levels, 0);
    input := InKeyOrder(S);
  }

  /** One table for all that is kept, or none. */
  lemma OneOutput(input: seq<Entry>, snapshot: nat, deep: seq<seq<File>>, number: nat) returns (outs: seq<File>)
    requires Sorted(input)
    ensures CutFrom(outs, Kept(input, |input|, snapshot, deep)) && FreshOutputs(outs, number, number + 1)
  {
    var kept := Kept(input, |input|, snapshot, deep);
    KeptSorted(input, |input|, snapshot, deep);
    outs := if kept == [] then [] else [File(number, 0, kept[0].key, kept[|kept| - 1].key, kept)];
    assert Installing.Tables(outs)[..0] == [];
    if kept != [] {
      assert Installing.Tables(outs) == [kept];
      assert Concat([]) + kept == kept;
    }
  }

  lemma CompactionEdit(e: VersionEdit, levels: Levels, j: Job, outs: seq<File>, from: nat)
    requires e.deleted == InputDeletions(j.level, j.in0, j.in1) && e.added == OutputAdditions(j.level, outs)
    requires j.level + 1 < NUM_LEVELS && FreshOutputs(outs, from, from + 1)
    ensures ValidEdit(e) && NewNumbers(e, from)
  {
  }

  lemma VersionInstalled(levels: Levels, j: Job, outs: seq<File>, e: VersionEdit, from: nat, levels': Levels)
    requires AllSorted(levels) && UniqueNumbers(levels) && WellSelected(levels, j.level, j.in0, j.in1) && NextVersionOf(levels, e, levels')
    requires forall l, g :: 0 <= l < NUM_LEVELS && g in levels[l] ==> g.number < from
    requires e.deleted == InputDeletions(j.level, j.in0, j.in1) && e.added == OutputAdditions(j.level, outs)
    requires FreshOutputs(outs, from, from + 1)
    ensures j.level + 1 < NUM_LEVELS && Installed(levels, j.level, j.in0, j.in1, outs, levels')
  {
    hide *;
    SelectedWithin(levels, j.level, j.in0, j.in1);
    LevelBelow(levels, j.level, j.in0, j.in1);
    FreshApart(levels, j.level + 1, outs, from);
    CompactionEditInstalls(levels, j.level, j.in0, j.in1, outs, e, levels');
  }

  lemma FreshApart(levels: Levels, level: nat, outs: seq<File>, from: nat)
    requires level < NUM_LEVELS && FreshOutputs(outs, from, from + 1)
    requires forall l, g :: 0 <= l < NUM_LEVELS && g in levels[l] ==> g.number < from
    ensures Numbers(ToSet(outs)) !! Numbers(ToSet(levels[level]))
  {
    var A, B := Numbers(ToSet(outs)), Numbers(ToSet(levels[level]));
    forall n | n in A
      ensures n >= from
    {
      var f :| f in ToSet(outs) && f.number == n;
    }
    forall n | n in B
      ensures n < from
    {
      var g :| g in ToSet(levels[level]) && g.number == n;
    }
  }

  lemma ClosedIsHarmless(m: Memory, j: Job, input: seq<Entry>)
    requires m.job == Some(j) && ValidLevels(m.levels) && WellSelected(m.levels, j.level, j.in0, j.in1) && MergeOf(input, j.in0, j.in1)
    requires NextLevelClosed(m.levels, j.level, j.in1)
    ensures j.level + 1 < NUM_LEVELS && Harmless(m, input)
  {
    hide *;
    LevelBelow(m.levels, j.level, j.in0, j.in1);
    NoneResurrected(m.levels, j, input);
    IsHarmless(m, j, input);
  }

  lemma NoneResurrected(levels: Levels, j: Job, input: seq<Entry>)
    requires ValidLevels(levels) && WellSelected(levels, j.level, j.in0, j.in1) && MergeOf(input, j.in0, j.in1)
    requires j.level + 1 < NUM_LEVELS && NextLevelClosed(levels, j.level, j.in1)
    ensures !CompactionReads.Resurrects(input, Untouched(levels, j.level, j.in0, j.in1), j.snapshot, levels[j.level + 2..])
  {
    hide ValidLevels, WellSelected, MergeOf, NextLevelClosed, CompactionReads.ResurrectsAt, Untouched;
    var left, deep := Untouched(levels, j.level, j.in0, j.in1), levels[j.level + 2..];
    if i, w :| CompactionReads.ResurrectsAt(input, left, j.snapshot, deep, i, w) {
      NothingResurrected(levels, j.level, j.in0, j.in1, j.snapshot, input, i, w);
    }
  }

  lemma IsHarmless(m: Memory, j: Job, input: seq<Entry>)
    requires m.job == Some(j) && j.level + 1 < NUM_LEVELS
    requires !CompactionReads.Resurrects(input, Untouched(m.levels, j.level, j.in0, j.in1), j.snapshot, m.levels[j.level + 2..])
    ensures Harmless(m, input)
  {
    hide CompactionReads.Resurrects;
  }
}
