/** The durable state of a database: manifest and logs together stand for a history of
    writes.  Each step of a running database, and each crash, changes both sides alike. */
module Recovery {
  import opened Options
  import opened Keys
  import opened Reads
  import opened Files
  import opened Installing
  import opened Flushing
  import opened Compacting
  import opened CompactionReads
  import opened CompactionSafety
  import opened InputSelection
  import opened Manifest
  import opened Editing
  import opened Durable
  import opened History

  datatype Log = Log(number: nat, records: seq<Record>)

  ghost predicate SortedLogs(logs: seq<Log>) {
    forall i, j :: 0 <= i < j < |logs| ==> logs[i].number < logs[j].number
  }

  /** The records recovery replays: those of the logs numbered `min` and up, in order. */
  function LiveRecords(logs: seq<Log>, min: nat): seq<Record> {
    if logs == [] then [] else
    var n := |logs| - 1;
    LiveRecords(logs[..n], min) + (if logs[n].number >= min then logs[n].records else [])
  }

  /** The files hold nothing but these records, and answer like them from `horizon` on. */
  ghost predicate HoldsPrefix(levels: Levels, h: seq<Record>, horizon: nat) {
    && ValidHistory(h)
    && ContentsFrom(levels, 0) <= Entries(h)
    && Agree(ContentsFrom(levels, 0), Entries(h), horizon)
  }

  /** The version is in order and stands for the records `front`. */
  ghost predicate VersionStands(levels: Levels, front: seq<Record>, horizon: nat) {
    ValidLevels(levels) && HoldsPrefix(levels, front, horizon)
  }

  /** The manifest's last sequence number covers the records and the horizon. */
  ghost predicate Covers(manifest: seq<VersionEdit>, front: seq<Record>, horizon: nat) {
    && LastLastSequence(manifest).Some? && horizon <= LastLastSequence(manifest).value
    && Below(front, LastLastSequence(manifest).value + 1)
  }

  /** The manifest names a version that stands for the records `front`. */
  ghost predicate FilesStand(manifest: seq<VersionEdit>, levels: Levels, front: seq<Record>, horizon: nat) {
    ManifestOk(manifest, levels) && VersionStands(levels, front, horizon) && Covers(manifest, front, horizon)
  }

  /** The logs to be replayed hold the records `recent`. */
  ghost predicate LogsStand(logs: seq<Log>, min: nat, recent: seq<Record>) {
    SortedLogs(logs) && LiveRecords(logs, min) == recent
  }

  /** Manifest, tables and logs together stand for the history front + recent. */
  ghost predicate Stands(manifest: seq<VersionEdit>, logs: seq<Log>, levels: Levels,
                         front: seq<Record>, recent: seq<Record>, horizon: nat) {
    && FilesStand(manifest, levels, front, horizon)
    && ValidHistory(front + recent)
    && LogsStand(logs, LastLogNumber(manifest).value, recent)
  }

  /** Records not yet in files sit on top of them without changing that agreement. */
  lemma FilesAndRecent(levels: Levels, front: seq<Record>, recent: seq<Record>, horizon: nat)
    requires ValidLevels(levels) && ValidHistory(front + recent) && HoldsPrefix(levels, front, horizon)
    ensures ValidHistory(recent)
    ensures Newer(Entries(recent), ContentsFrom(levels, 0))
    ensures Distinct(Entries(recent) + ContentsFrom(levels, 0))
    ensures Agree(Entries(recent) + ContentsFrom(levels, 0), Entries(front + recent), horizon)
  {
    LaterIsNewer(front, recent);
    EntriesAppend(front, recent);
    HistoryDistinct(front + recent);
    assert Entries(front + recent) == Entries(recent) + Entries(front);
    AgreeUnderNewer(Entries(recent), ContentsFrom(levels, 0), Entries(front), horizon);
  }

  // ---------- how the logs change ----------

  lemma LiveRecordsSnoc(logs: seq<Log>, last: Log, min: nat)
    ensures LiveRecords(logs + [last], min) == LiveRecords(logs, min) + (if last.number >= min then last.records else [])
  {
    assert (logs + [last])[..|logs|] == logs;
  }

  /** Replacing the records of the newest log: an append, or a torn tail. */
  lemma ChangeLast(older: seq<Log>, last: Log, min: nat, live: seq<Record>, records: seq<Record>)
    requires LogsStand(older + [last], min, live + last.records) && last.number >= min
    ensures LogsStand(older + [last.(records := records)], min, live + records)
  {
    LiveRecordsSnoc(older, last, min);
    LiveRecordsSnoc(older, last.(records := records), min);
    assert LiveRecords(older, min) == live by {
      assert |LiveRecords(older, min)| == |live|;
      assert forall i :: 0 <= i < |live| ==> live[i] == (live + last.records)[i] == LiveRecords(older, min)[i];
    }
    assert forall i :: 0 <= i <= |older| ==> (older + [last.(records := records)])[i].number == (older + [last])[i].number;
  }

  /** A new empty log changes nothing yet. */
  lemma NewLog(logs: seq<Log>, min: nat, recent: seq<Record>, number: nat)
    requires LogsStand(logs, min, recent) && forall i :: 0 <= i < |logs| ==> logs[i].number < number
    ensures LogsStand(logs + [Log(number, [])], min, recent)
  {
    LiveRecordsSnoc(logs, Log(number, []), min);
  }

  /** Once the records of the older logs are in files, only the newest log is live. */
  lemma OnlyNewestLive(older: seq<Log>, last: Log)
    requires SortedLogs(older + [last])
    ensures LogsStand(older + [last], last.number, last.records)
  {
    LiveRecordsSnoc(older, last, last.number);
    assert forall i :: 0 <= i < |older| ==> older[i].number < last.number by {
      assert forall i :: 0 <= i < |older| ==> (older + [last])[i] == older[i] && (older + [last])[|older|] == last;
    }
    NoneLive(older, last.number);
  }

  lemma {:induction false} NoneLive(logs: seq<Log>, min: nat)
    requires forall i :: 0 <= i < |logs| ==> logs[i].number < min
    ensures LiveRecords(logs, min) == []
  {
    if logs != [] {
      NoneLive(logs[..|logs| - 1], min);
    }
  }

  /** DeleteObsoleteFiles: logs below the manifest's log number go. */
  function Prune(logs: seq<Log>, min: nat): seq<Log> {
    if logs == [] then [] else
    var n := |logs| - 1;
    Prune(logs[..n], min) + (if logs[n].number >= min then [logs[n]] else [])
  }

  lemma {:induction false} PruneWithin(logs: seq<Log>, min: nat, g: Log)
    ensures g in Prune(logs, min) <==> g in logs && g.number >= min
  {
    if logs != [] {
      var n := |logs| - 1;
      PruneWithin(logs[..n], min, g);
      assert logs == logs[..n] + [logs[n]];
    }
  }

  lemma {:induction false} PruneLive(logs: seq<Log>, min: nat)
    ensures LiveRecords(Prune(logs, min), min) == LiveRecords(logs, min)
  {
    if logs != [] {
      var n := |logs| - 1;
      PruneLive(logs[..n], min);
      assert Prune(logs[..n], min) + [] == Prune(logs[..n], min);
      LiveRecordsSnoc(Prune(logs[..n], min), logs[n], min);
    }
  }

  lemma {:induction false} PruneSorted(logs: seq<Log>, min: nat)
    requires SortedLogs(logs)
    ensures SortedLogs(Prune(logs, min))
  {
    if logs != [] {
      var n := |logs| - 1;
      var kept := Prune(logs[..n], min);
      PruneSorted(logs[..n], min);
      forall i | 0 <= i < |kept|
        ensures kept[i].number < logs[n].number
      {
        PruneWithin(logs[..n], min, kept[i]);
        var j :| 0 <= j < n && logs[j] == kept[i];
      }
    }
  }

  lemma PruneKeeps(logs: seq<Log>, min: nat, recent: seq<Record>)
    requires LogsStand(logs, min, recent)
    ensures LogsStand(Prune(logs, min), min, recent)
  {
    PruneLive(logs, min);
    PruneSorted(logs, min);
  }

  /** What is deleted is exactly what recovery would not replay. */
  lemma {:induction false} PruneExactly(logs: seq<Log>, min: nat, log: Log)
    ensures log in Prune(logs, min) <==> log in logs && min <= log.number
  {
    if logs != [] {
      var n := |logs| - 1;
      PruneExactly(logs[..n], min, log);
      assert logs == logs[..n] + [logs[n]];
    }
  }

  // ---------- how the files change ----------

  /** An edit's counters do not go back. */
  ghost predicate CountersAdvance(manifest: seq<VersionEdit>, e: VersionEdit, last: SequenceNumber) {
    && LastLastSequence(manifest).Some? && LastNextFile(manifest).Some?
    && e.logNumber.Some? && e.nextFile.Some? && e.lastSequence == Some(last)
    && LastNextFile(manifest).value <= e.nextFile.value && LastLastSequence(manifest).value <= last
  }

  lemma ManifestSorted(manifest: seq<VersionEdit>, levels: Levels)
    requires ReplaysTo(manifest, levels)
    ensures AllSorted(levels)
  {
  }

  /** The table built from the records of the immutable memtable, placed by
      PickLevelForMemTableOutput. */
  ghost predicate FlushTable(levels: Levels, level: nat, f: File, imm: seq<Record>)
    requires ValidHistory(imm)
  {
    && ValidFile(f) && Contents(f) == Entries(imm)
    && level <= MAX_MEM_COMPACT_LEVEL && (level == 0 || Free(levels, level, f.smallest.user, f.largest.user))
  }

  lemma LiveBounded(manifest: seq<VersionEdit>, levels: Levels)
    requires ManifestOk(manifest, levels)
    ensures forall l, g :: 0 <= l < NUM_LEVELS && g in levels[l] ==> g.number < LastNextFile(manifest).value
  {
    forall l, g | 0 <= l < NUM_LEVELS && g in levels[l]
      ensures g.number < LastNextFile(manifest).value
    {
      LiveWasAdded(manifest, levels, l, g);
    }
  }

  lemma CoversMore(manifest: seq<VersionEdit>, front: seq<Record>, more: seq<Record>, horizon: nat, horizon': nat,
                   e: VersionEdit, last: SequenceNumber)
    requires Covers(manifest, front, horizon) && CountersAdvance(manifest, e, last)
    requires Below(more, last + 1) && horizon' <= last
    ensures Covers(manifest + [e], front + more, horizon')
  {
    assert (manifest + [e])[..|manifest|] == manifest;
  }

  /** The new table sits on top of everything in the files. */
  lemma FlushVersion(levels: Levels, front: seq<Record>, imm: seq<Record>, horizon: nat, level: nat, f: File, levels': Levels)
    requires VersionStands(levels, front, horizon) && ValidHistory(front + imm) && ValidHistory(imm)
    requires FlushTable(levels, level, f, imm) && FlushInstalled(levels, level, f, levels')
    requires forall l, g :: 0 <= l < NUM_LEVELS && g in levels[l] ==> g.number < f.number
    ensures VersionStands(levels', front + imm, horizon)
  {
    FilesAndRecent(levels, front, imm, horizon);
    HistoryDistinct(imm);
    FlushKeepsInvariant(levels, level, f, levels');
    EntriesAppend(front, imm);
  }

  /** Flushing the immutable memtable moves its records into the files. */
  lemma FlushAdvances(manifest: seq<VersionEdit>, levels: Levels, front: seq<Record>, imm: seq<Record>, horizon: nat,
                      level: nat, f: File, e: VersionEdit, levels': Levels, last: SequenceNumber)
    requires FilesStand(manifest, levels, front, horizon) && ValidHistory(front + imm) && ValidHistory(imm)
    requires FlushTable(levels, level, f, imm) && Below(imm, last + 1)
    requires e.deleted == {} && e.added == [(level, f)] && CountersAdvance(manifest, e, last)
    requires LastNextFile(manifest).value <= f.number < e.nextFile.value
    requires NextVersionOf(levels, e, levels')
    ensures FilesStand(manifest + [e], levels', front + imm, horizon)
  {
    ManifestSorted(manifest, levels);
    FlushEditInstalls(levels, level, f, e, levels');
    LiveBounded(manifest, levels);
    FlushVersion(levels, front, imm, horizon, level, f, levels');
    AppendFresh(manifest, levels, LastNextFile(manifest).value, e, levels');
    CoversMore(manifest, front, imm, horizon, horizon, e, last);
  }

  /** An empty memtable leaves no table; the edit only advances the log number. */
  lemma EmptyFlushAdvances(manifest: seq<VersionEdit>, levels: Levels, front: seq<Record>, imm: seq<Record>, horizon: nat,
                           e: VersionEdit, levels': Levels, last: SequenceNumber)
    requires FilesStand(manifest, levels, front, horizon) && ValidHistory(front + imm) && ValidHistory(imm)
    requires Entries(imm) == {} && Below(imm, last + 1)
    requires e.deleted == {} && e.added == [] && CountersAdvance(manifest, e, last)
    requires NextVersionOf(levels, e, levels')
    ensures levels' == levels && FilesStand(manifest + [e], levels', front + imm, horizon)
  {
    ManifestSorted(manifest, levels);
    EmptyEdit(levels, e, levels');
    AppendFresh(manifest, levels, LastNextFile(manifest).value, e, levels');
    EntriesAppend(front, imm);
    assert Entries(front + imm) == Entries(front);
    CoversMore(manifest, front, imm, horizon, horizon, e, last);
  }

  lemma EmptyEdit(levels: Levels, e: VersionEdit, levels': Levels)
    requires AllSorted(levels) && e.deleted == {} && e.added == [] && NextVersionOf(levels, e, levels')
    ensures levels' == levels
  {
    forall l | 0 <= l < NUM_LEVELS
      ensures levels'[l] == levels[l]
    {
      assert DeletedAt(e, l) == {} && AddedAt(e, 0, l) == {};
      assert Install(ToSet(levels[l]), e, l) == ToSet(levels[l]);
      ListsUnique(levels'[l], levels[l], ToSet(levels[l]));
    }
  }

  /** Output tables have new numbers, all different. */
  ghost predicate FreshOutputs(outs: seq<File>, from: nat, to: nat) {
    && (forall i :: 0 <= i < |outs| ==> from <= outs[i].number < to)
    && (forall i, j :: 0 <= i < j < |outs| ==> outs[i].number != outs[j].number)
  }

  lemma OutputsFresh(level: nat, outs: seq<File>, e: VersionEdit, from: nat)
    requires e.added == OutputAdditions(level, outs) && level + 1 < NUM_LEVELS
    requires e.logNumber.Some? && e.nextFile.Some? && e.lastSequence.Some? && from <= e.nextFile.value
    requires FreshOutputs(outs, from, e.nextFile.value)
    requires forall d :: d in e.deleted ==> d.0 < NUM_LEVELS
    ensures AddsFresh(e, from) && ValidEdit(e)
  {
    assert forall i :: 0 <= i < |outs| ==> e.added[i] == (level + 1, outs[i]);
  }

  lemma CompactionInstalls(manifest: seq<VersionEdit>, levels: Levels, level: nat, in0: seq<File>, in1: seq<File>,
                           outs: seq<File>, e: VersionEdit, levels': Levels, last: SequenceNumber)
    requires ManifestOk(manifest, levels) && WellSelected(levels, level, in0, in1)
    requires e.deleted == InputDeletions(level, in0, in1) && e.added == OutputAdditions(level, outs)
    requires CountersAdvance(manifest, e, last) && FreshOutputs(outs, LastNextFile(manifest).value, e.nextFile.value)
    requires NextVersionOf(levels, e, levels')
    ensures Installed(levels, level, in0, in1, outs, levels')
    ensures ManifestOk(manifest + [e], levels')
  {
    OutputsFresh(level, outs, e, LastNextFile(manifest).value);
    AppendFresh(manifest, levels, LastNextFile(manifest).value, e, levels');
    ManifestSorted(manifest, levels);
    SelectedWithin(levels, level, in0, in1);
    OutputsNew(manifest, levels, level, outs);
    CompactionEditInstalls(levels, level, in0, in1, outs, e, levels');
  }

  lemma OutputsNew(manifest: seq<VersionEdit>, levels: Levels, level: nat, outs: seq<File>)
    requires ManifestOk(manifest, levels) && level + 1 < NUM_LEVELS
    requires forall i :: 0 <= i < |outs| ==> LastNextFile(manifest).value <= outs[i].number
    ensures Numbers(ToSet(outs)) !! Numbers(ToSet(levels[level + 1]))
  {
    LiveBounded(manifest, levels);
  }

  /** A compaction that resurrects nothing keeps standing for the same records, from the
      oldest snapshot it had to respect on. */
  lemma CompactionVersion(levels: Levels, front: seq<Record>, horizon: nat, horizon': nat,
                          level: nat, in0: seq<File>, in1: seq<File>, snapshot: nat, input: seq<Entry>, outs: seq<File>, levels': Levels)
    requires VersionStands(levels, front, horizon) && horizon <= horizon' && snapshot <= horizon'
    requires CompactionStep(levels, level, in0, in1, snapshot, input, outs, levels')
    requires !Resurrects(input, Untouched(levels, level, in0, in1), snapshot, levels[level + 2..])
    ensures VersionStands(levels', front, horizon')
  {
    var kept := Kept(input, |input|, snapshot, levels[level + 2..]);
    CompactionRewrites(levels, level, in0, in1, snapshot, input, outs, levels');
    CompactionKeepsInvariant(levels, level, in0, in1, input, kept, outs, levels');
    RewritesShrink(levels, level, in0, in1, input, kept, outs, levels');
    CompactionKeepsReadsExactlyWhen(levels, level, in0, in1, snapshot, input, outs, levels');
    AgreeLater(ContentsFrom(levels, 0), ContentsFrom(levels', 0), Entries(front), snapshot, horizon, horizon');
  }

  lemma AgreeLater(S: set<Entry>, S': set<Entry>, T: set<Entry>, a: nat, b: nat, c: nat)
    requires Agree(S, S', a) && Agree(S, T, b) && a <= c && b <= c
    ensures Agree(S', T, c)
  {
    forall u, s | s >= c
      ensures Read(S', u, s) == Read(T, u, s)
    {
      assert Read(S, u, s) == Read(S', u, s) && Read(S, u, s) == Read(T, u, s);
    }
  }

  /** A trivial move changes no contents at all. */
  lemma MoveVersion(levels: Levels, front: seq<Record>, horizon: nat, level: nat, f: File, levels': Levels)
    requires VersionStands(levels, front, horizon) && WellSelected(levels, level, [f], [])
    requires Installed(levels, level, [f], [], [f], levels')
    ensures VersionStands(levels', front, horizon)
  {
    SelectedWithin(levels, level, [f], []);
    assert f in [f] && SortedLevel(level, levels[level]);
    SubsetValid(levels[level], [f]);
    assert [f][0] == f;
    MoveRewrites(levels, level, f, levels');
    CompactionKeepsInvariant(levels, level, [f], [], f.entries, f.entries, [f], levels');
    MoveKeepsContents(levels, level, f, levels');
  }

  lemma MoveKeepsContents(levels: Levels, level: nat, f: File, levels': Levels)
    requires ValidFile(f) && WellSelected(levels, level, [f], []) && Installed(levels, level, [f], [], [f], levels')
    ensures ContentsFrom(levels', 0) == ContentsFrom(levels, 0)
  {
    OneFile(f);
    ContentsBefore(levels, level, [f], [], f.entries);
    InstalledContents(levels, level, [f], [], [f], levels');
  }
}
