/** Whole runs: from an empty database through any number of steps, crashes and recoveries. */
module DatabaseRuns {
  import opened Options
  import opened Keys
  import opened Reads
  import opened Files
  import opened Installing
  import opened InputSelection
  import opened Manifest
  import opened Editing
  import opened History
  import opened Operations
  import opened Recovery
  import opened Reopening
  import opened Database
  import opened DatabaseInvariant
  import opened DatabaseSteps
  import VersionReads

  datatype Event =
    | Log_(ops: seq<Op>)
    | Ack(sync: bool)
    | SwitchMemtable
    | Snapshot
    | Release(i: nat)
    | Flush(level: nat, file: Option<File>, edit: VersionEdit, tables: map<nat, File>, levels': Levels)
    | PickCompaction(job: Job)
    | InstallCompaction(input: seq<Entry>, outs: seq<File>, edit: VersionEdit, tables: map<nat, File>, levels': Levels)
    | Move(level: nat, moved: File, edit: VersionEdit, levels': Levels)
    | Install
    | Clean(tables: map<nat, File>)
    | PowerLoss(k: nat, keepEdit: bool)
    | RecoveryFails(log: nat, tables: map<nat, File>)
    | Recover(levels: Levels, rs: seq<Replayed>, snap: VersionEdit, edit: VersionEdit, log: nat, from: nat, to: nat,
              last: SequenceNumber, levels': Levels, tables: map<nat, File>)

  ghost predicate StepUp(s: Db, ev: Event, s': Db, m: Memory) {
    match ev
    case Log_(ops) => LogAppend(s, s', m, ops)
    case Ack(sync) => Acknowledge(s, s', m, sync)
    case SwitchMemtable => Switch(s, s', m)
    case Snapshot => TakeSnapshot(s, s', m)
    case Release(i) => ReleaseSnapshot(s, s', m, i)
    case Flush(level, f, e, tables, levels') => BeginFlush(s, s', m, level, f, e, tables, levels')
    case PickCompaction(job) => StartCompaction(s, s', m, job)
    case InstallCompaction(input, outs, e, tables, levels') =>
      FinishCompaction(s, s', m, input, outs, e, tables, levels') && Harmless(m, input)
    case Move(level, f, e, levels') => BeginMove(s, s', m, level, f, e, levels')
    case Install => FinishInstall(s, s', m)
    case Clean(tables) => DeleteObsolete(s, s', m, tables)
    case PowerLoss(k, keepEdit) => Crash(s, s', m, k, keepEdit)
    case _ => false
  }

  /** One step.  Compactions are those that uncover no deleted value. */
  ghost predicate Step(s: Db, ev: Event, s': Db) {
    if s.up.Some? then StepUp(s, ev, s', s.up.value) else
    match ev
    case RecoveryFails(log, tables) => FailedRecovery(s, s', log, tables)
    case Recover(levels, rs, snap, e, log, from, to, last, levels', tables) =>
      Reopen(s, s', levels, rs, snap, e, log, from, to, last, levels', tables)
    case _ => false
  }

  ghost predicate Run(states: seq<Db>, events: seq<Event>) {
    && |states| == |events| + 1 && states[0] == NewDb()
    && forall i :: 0 <= i < |events| ==> Step(states[i], events[i], states[i + 1])
  }

  lemma StepInv(s: Db, ev: Event, s': Db)
    requires Inv(s) && Step(s, ev, s')
    ensures Inv(s')
  {
    hide UpInv, DownInv;
    if s.up.Some? {
      StepUpInv(s, ev, s', s.up.value);
    } else {
      match ev
      case RecoveryFails(log, tables) => FailedRecoveryInv(s, s', log, tables);
      case Recover(levels, rs, snap, e, log, from, to, last, levels', tables) =>
        ReopenInv(s, s', levels, rs, snap, e, log, from, to, last, levels', tables);
    }
  }

  lemma StepUpInv(s: Db, ev: Event, s': Db, m: Memory)
    requires s.up == Some(m) && UpInv(s, m) && StepUp(s, ev, s', m)
    ensures if s'.up.Some? then UpInv(s', s'.up.value) else DownInv(s')
  {
    hide UpInv, DownInv, BeginFlush, FinishCompaction, BeginMove, Harmless;
    match ev
    case Log_(ops) => LogAppendInv(s, s', m, ops);
    case Ack(sync) => AcknowledgeInv(s, s', m, sync);
    case SwitchMemtable => SwitchInv(s, s', m);
    case Snapshot => TakeSnapshotInv(s, s', m);
    case Release(i) => ReleaseSnapshotInv(s, s', m, i);
    case Flush(level, f, e, tables, levels') => BeginFlushUp(s, s', m, level, f, e, tables, levels');
    case PickCompaction(job) => StartCompactionInv(s, s', m, job);
    case InstallCompaction(input, outs, e, tables, levels') => FinishCompactionUp(s, s', m, input, outs, e, tables, levels');
    case Move(level, f, e, levels') => BeginMoveUp(s, s', m, level, f, e, levels');
    case Install => FinishInstallInv(s, s', m);
    case Clean(tables) => DeleteObsoleteInv(s, s', m, tables);
    case PowerLoss(k, keepEdit) => CrashInv(s, s', m, k, keepEdit);
  }

  lemma BeginFlushUp(s: Db, s': Db, m: Memory, level: nat, f: Option<File>, e: VersionEdit, tables: map<nat, File>, levels': Levels)
    requires UpInv(s, m) && BeginFlush(s, s', m, level, f, e, tables, levels')
    ensures s'.up.Some? && UpInv(s', s'.up.value)
  {
    hide UpInv;
    BeginFlushInv(s, s', m, level, f, e, tables, levels');
  }

  lemma FinishCompactionUp(s: Db, s': Db, m: Memory, input: seq<Entry>, outs: seq<File>, e: VersionEdit, tables: map<nat, File>, levels': Levels)
    requires UpInv(s, m) && FinishCompaction(s, s', m, input, outs, e, tables, levels') && Harmless(m, input)
    ensures s'.up.Some? && UpInv(s', s'.up.value)
  {
    hide UpInv, Harmless, CompactionStep;
    FinishCompactionInv(s, s', m, input, outs, e, tables, levels');
  }

  lemma BeginMoveUp(s: Db, s': Db, m: Memory, level: nat, f: File, e: VersionEdit, levels': Levels)
    requires UpInv(s, m) && BeginMove(s, s', m, level, f, e, levels')
    ensures s'.up.Some? && UpInv(s', s'.up.value)
  {
    hide UpInv;
    BeginMoveInv(s, s', m, level, f, e, levels');
  }

  lemma {:induction false} RunInv(states: seq<Db>, events: seq<Event>, i: nat)
    requires Run(states, events) && i < |states|
    ensures Inv(states[i])
  {
    hide Inv, Step;
    if i == 0 {
      NewDbInv();
    } else {
      RunInv(states, events, i - 1);
      StepInv(states[i - 1], events[i - 1], states[i]);
    }
  }

  /** Safety over runs: whenever the database is up, what is in its memtables and files reads
      like the acknowledged history, at the current sequence number and at every live snapshot: as
      the last operation on the key says. */
  lemma EveryRunReadsRight(states: seq<Db>, events: seq<Event>, i: nat, m: Memory, u: UserKey, at: nat)
    requires Run(states, events) && i < |states| && states[i].up == Some(m)
    requires at == m.lastSequence || at in m.snapshots
    ensures ValidHistory(states[i].history) && ValidHistory(Imm(m) + m.mem)
    ensures Read(Entries(Imm(m) + m.mem) + ContentsFrom(m.levels, 0), u, at) == Read(Entries(states[i].history), u, at)
    ensures forall v :: Read(Entries(Imm(m) + m.mem) + ContentsFrom(m.levels, 0), u, at) == Some(v) <==> LastPuts(states[i].history, u, at, v)
  {
    hide Step, View;
    RunInv(states, events, i);
    SnapshotsBounded(states[i], m);
    ReadsAreRight(states[i], m, u, at);
    LastDecides(states[i].history, u, at);
  }

  lemma SnapshotsBounded(s: Db, m: Memory)
    requires UpInv(s, m)
    ensures s.horizon <= m.lastSequence && forall at :: at in m.snapshots ==> s.horizon <= at
  {
  }

  /** How one step may change the acknowledged history: extend it by the batch in flight, or, in
      a crash, cut it, but never into the synced part. */
  lemma StepHistory(s: Db, ev: Event, s': Db)
    requires Inv(s) && Step(s, ev, s')
    ensures s.durable <= s'.durable <= |s'.history| && s.durable <= |s.history|
    ensures s'.history[..s.durable] == s.history[..s.durable]
    ensures !ev.PowerLoss? ==> s.history <= s'.history
    ensures ev.PowerLoss? ==> s.up.Some? && KeepsLogged(s, ev.k, s'.history)
  {
    hide View, FlushTable, NextVersionOf, CompactionStep, TablesHold, WellSelected, Harmless, ValidHistory, LogInv, CommittedInv, PendingInv, JobInv;
    StepInv(s, ev, s');
    if ev.PowerLoss? {
      CrashKeepsLogged(s, s.up.value, ev.k, s');
    }
  }

  /** Of what was logged the history keeps every batch but those whose records are torn off, which are the last ones:
      each record that survives in the current log, and everything before it. */
  ghost predicate KeepsLogged(s: Db, k: nat, history: seq<Record>) {
    && s.up.Some? && s.disk.logs != []
    && var records := s.disk.logs[|s.disk.logs| - 1].records;
       k <= |records| && Logged(s, s.up.value) == history + records[k..]
       && k <= |history| && history[|history| - k..] == records[..k]
  }

  lemma CrashKeepsLogged(s: Db, m: Memory, k: nat, s': Db)
    requires s.up == Some(m) && RecordsInv(s, m) && LogInv(s, m) && s.disk.logs != []
    requires k <= |s.disk.logs[|s.disk.logs| - 1].records|
    requires s'.history == Logged(s, m)[..|Logged(s, m)| - (|s.disk.logs[|s.disk.logs| - 1].records| - k)]
    ensures KeepsLogged(s, k, s'.history)
  {
    var records, older := s.disk.logs[|s.disk.logs| - 1].records, s.front + Imm(m);
    assert records == Current(m);
    assert Logged(s, m) == older + records;
    assert s'.history == older + records[..k];
  }

  /** Synced batches survive every later crash: the history of any later state still starts
      with the part that was durable. */
  lemma {:induction false} SyncedNeverLost(states: seq<Db>, events: seq<Event>, i: nat, j: nat)
    requires Run(states, events) && i <= j < |states|
    ensures states[i].durable <= states[j].durable && states[i].durable <= |states[i].history| && states[i].durable <= |states[j].history|
    ensures states[j].history[..states[i].durable] == states[i].history[..states[i].durable]
    decreases j
  {
    hide Inv, Step;
    RunInv(states, events, i);
    DurableBound(states[i]);
    if i < j {
      SyncedNeverLost(states, events, i, j - 1);
      RunInv(states, events, j - 1);
      StepHistory(states[j - 1], events[j - 1], states[j]);
      var d, e := states[i].durable, states[j - 1].durable;
      assert states[j].history[..d] == states[j].history[..e][..d];
      assert states[j - 1].history[..d] == states[j - 1].history[..e][..d];
    }
  }

  lemma DurableBound(s: Db)
    requires Inv(s)
    ensures s.durable <= |s.history|
  {
    hide View;
  }

  /** The memtables as the skip lists hold them: sorted, with exactly the records' entries. */
  ghost predicate Tables(m: Memory, mem: seq<Entry>, imm: Option<seq<Entry>>) {
    && ValidHistory(m.mem) && ValidHistory(Imm(m)) && Sorted(mem) && ToSet(mem) == Entries(m.mem)
    && imm.Some? == m.imm.Some? && (imm.Some? ==> Sorted(imm.value) && ToSet(imm.value) == Entries(Imm(m)))
  }

  lemma LayersInOrder(s: Db, m: Memory)
    requires UpInv(s, m)
    ensures ValidHistory(m.mem) && ValidHistory(Imm(m)) && ValidHistory(Imm(m) + m.mem) && ValidLevels(m.levels)
    ensures Newer(Entries(m.mem), Entries(Imm(m)) + ContentsFrom(m.levels, 0)) && Newer(Entries(Imm(m)), ContentsFrom(m.levels, 0))
    ensures Distinct(Entries(m.mem) + Entries(Imm(m)) + ContentsFrom(m.levels, 0))
    ensures Entries(Imm(m) + m.mem) == Entries(m.mem) + Entries(Imm(m))
  {
    LoggedValid(s, m);
    var recent := Imm(m) + m.mem;
    assert s.history == s.front + recent;
    hide LogsStand, ValidLevels;
    FilesAndRecent(m.levels, s.front, recent, s.horizon);
    LaterIsNewer(Imm(m), m.mem);
    EntriesAppend(Imm(m), m.mem);
  }

  /** DBImpl::Get in any state of the invariant returns what the last acknowledged operation on the
      key says that the snapshot may see. */
  method Lookup(ghost s: Db, ghost m: Memory, mem: seq<Entry>, imm: Option<seq<Entry>>, current: VersionReads.Version,
                u: UserKey, at: SequenceNumber)
    returns (r: Option<Value>)
    requires UpInv(s, m) && s.up == Some(m) && Tables(m, mem, imm) && current.files == m.levels
    requires at == m.lastSequence || at in m.snapshots
    ensures ValidHistory(s.history) && r == Read(Entries(s.history), u, at)
    ensures forall v :: r == Some(v) <==> LastPuts(s.history, u, at, v)
  {
    LayersInOrder(s, m);
    SnapshotsBounded(s, m);
    ReadsAreRight(s, m, u, at);
    LastDecides(s.history, u, at);
    hide UpInv, ValidLevels, LastPuts;
    ghost var D := ContentsFrom(m.levels, 0);
    if imm.None? {
      assert Entries(Imm(m)) == {};
    }
    assert VersionReads.Everything(mem, imm, current.files) == Entries(m.mem) + Entries(Imm(m)) + D;
    r := VersionReads.Get(mem, imm, current, u, at);
  }
}
