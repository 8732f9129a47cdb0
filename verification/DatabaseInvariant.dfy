/** What every reachable state of the database satisfies. */
module DatabaseInvariant {
  import opened Options
  import opened Keys
  import opened Reads
  import opened Files
  import opened InputSelection
  import opened Manifest
  import opened Durable
  import opened History
  import opened Recovery
  import opened Reopening
  import opened Database

  /** One reading of the disk: this manifest, these files, and the live logs after them. */
  ghost predicate View(manifest: seq<VersionEdit>, d: Disk, levels: Levels, front: seq<Record>, recent: seq<Record>, horizon: nat) {
    Stands(manifest, d.logs, levels, front, recent, horizon) && TablesHold(d.tables, levels)
  }

  /** The manifest's counters are behind the ones in memory. */
  ghost predicate Behind(manifest: seq<VersionEdit>, m: Memory) {
    && Complete(manifest)
    && LastLogNumber(manifest).value <= m.log
    && LastNextFile(manifest).value <= m.nextFile
    && LastLastSequence(manifest).value <= m.lastSequence
  }

  /** Live snapshots are in order, at or after `from`, and not in the future. */
  ghost predicate SnapshotsFrom(m: Memory, from: nat) {
    && from <= m.lastSequence
    && (forall i :: 0 <= i < |m.snapshots| ==> from <= m.snapshots[i] <= m.lastSequence)
    && (forall i, j :: 0 <= i < j < |m.snapshots| ==> m.snapshots[i] <= m.snapshots[j])
  }

  /** The manifest without a record that may still be lost. */
  function Committed(s: Db, m: Memory): seq<VersionEdit> {
    if m.install.Some? && s.disk.manifest != [] then s.disk.manifest[..|s.disk.manifest| - 1] else s.disk.manifest
  }

  ghost predicate RecordsInv(s: Db, m: Memory) {
    && s.history == s.front + Imm(m) + m.mem
    && Below(s.history, m.lastSequence + 1) && s.durable <= |s.history|
    && (m.inflight.Some? ==> m.inflight.value.first == m.lastSequence + 1 && Fits(m.inflight.value))
  }

  ghost predicate LogInv(s: Db, m: Memory) {
    && s.disk.logs != [] && s.disk.logs[|s.disk.logs| - 1] == Log(m.log, Current(m))
    && (forall i :: 0 <= i < |s.disk.logs| ==> s.disk.logs[i].number < m.nextFile)
  }

  ghost predicate CommittedInv(s: Db, m: Memory) {
    && View(Committed(s, m), s.disk, m.levels, s.front, Imm(m) + Current(m), s.horizon)
    && Behind(Committed(s, m), m) && SnapshotsFrom(m, s.horizon)
  }

  function PendingFront(s: Db, m: Memory): seq<Record>
    requires m.install.Some?
  {
    if m.install.value.flushed then s.front + Imm(m) else s.front
  }

  function PendingRecent(m: Memory): seq<Record>
    requires m.install.Some?
  {
    if m.install.value.flushed then Current(m) else Imm(m) + Current(m)
  }

  ghost predicate PendingInv(s: Db, m: Memory) {
    m.install.Some? ==>
      && s.disk.manifest != []
      && View(s.disk.manifest, s.disk, m.install.value.levels, PendingFront(s, m), PendingRecent(m), m.install.value.horizon)
      && Behind(s.disk.manifest, m) && SnapshotsFrom(m, m.install.value.horizon)
      && (m.install.value.flushed ==> m.imm.Some? && m.job.None?)
  }

  ghost predicate JobInv(m: Memory) {
    m.job.Some? ==> WellSelected(m.levels, m.job.value.level, m.job.value.in0, m.job.value.in1) && SnapshotsFrom(m, m.job.value.snapshot)
  }

  ghost predicate UpInv(s: Db, m: Memory) {
    RecordsInv(s, m) && LogInv(s, m) && CommittedInv(s, m) && PendingInv(s, m) && JobInv(m)
  }

  ghost predicate DownInv(s: Db) {
    && Complete(s.disk.manifest) && s.durable <= |s.history|
    && exists levels, recent :: View(s.disk.manifest, s.disk, levels, s.front, recent, s.horizon) && s.front + recent == s.history
  }

  ghost predicate Inv(s: Db) {
    if s.up.Some? then UpInv(s, s.up.value) else DownInv(s)
  }

  /** NewDB: a manifest with the three counters, no logs, no tables. */
  function NewDb(): Db {
    Db(Disk([VersionEdit(Some(0), Some(2), Some(0), {}, [])], [], map[]), None, [], 0, [], 0)
  }

  lemma EmptyVersionStands(levels: Levels)
    requires forall l :: 0 <= l < NUM_LEVELS ==> levels[l] == []
    ensures VersionStands(levels, [], 0)
  {
    assert LevelContents([]) == {};
    assert ContentsFrom(levels, 0) == {};
  }

  lemma NewManifestOk(e: VersionEdit, levels: Levels)
    requires e == VersionEdit(Some(0), Some(2), Some(0), {}, []) && forall l :: 0 <= l < NUM_LEVELS ==> levels[l] == []
    ensures ManifestOk([e], levels)
  {
    assert forall l :: 0 <= l < NUM_LEVELS ==> AddedAt(e, 0, l) == {} == ToSet(levels[l]);
    SnapshotReplays(e, levels, 2);
  }

  lemma NewDbInv()
    ensures Inv(NewDb())
  {
    var e := VersionEdit(Some(0), Some(2), Some(0), {}, []);
    var levels: Levels := seq(NUM_LEVELS, _ => []);
    EmptyVersionStands(levels);
    NewManifestOk(e, levels);
    assert Stands([e], [], levels, [], [], 0);
    assert View(NewDb().disk.manifest, NewDb().disk, levels, [], [], 0);
  }

  /** In every state that satisfies the invariant, reads at the current sequence number and at
      every live snapshot are reads of the acknowledged history. */
  lemma ReadsAreRight(s: Db, m: Memory, u: UserKey, at: nat)
    requires s.up == Some(m) && UpInv(s, m) && at >= s.horizon
    ensures ValidHistory(s.history) && ValidHistory(Imm(m) + m.mem)
    ensures Read(Entries(Imm(m) + m.mem) + ContentsFrom(m.levels, 0), u, at) == Read(Entries(s.history), u, at)
    ensures s.horizon <= m.lastSequence && forall i :: 0 <= i < |m.snapshots| ==> s.horizon <= m.snapshots[i]
  {
    var recent := Imm(m) + m.mem;
    assert s.history == s.front + recent;
    assert s.front + (Imm(m) + Current(m)) == s.history + (if m.inflight.Some? then [m.inflight.value] else []);
    Parts(s.history, if m.inflight.Some? then [m.inflight.value] else []);
    FilesAndRecent(m.levels, s.front, recent, s.horizon);
  }
}
