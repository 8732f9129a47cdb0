/** Reopening a database: replay the logs into level-0 tables, then start a new manifest. */
module Reopening {
  import opened Options
  import opened Keys
  import opened Files
  import opened Installing
  import opened Flushing
  import opened Manifest
  import opened Editing
  import opened Durable
  import opened History
  import opened Recovery

  /** One memtable filled during replay and the table written from it; no table if it is empty. */
  datatype Replayed = Replayed(records: seq<Record>, table: Option<File>)

  function ReplayedRecords(rs: seq<Replayed>): seq<Record> {
    if rs == [] then [] else ReplayedRecords(rs[..|rs| - 1]) + rs[|rs| - 1].records
  }

  function ReplayedTables(rs: seq<Replayed>): seq<(nat, File)> {
    if rs == [] then [] else
    var last := rs[|rs| - 1];
    ReplayedTables(rs[..|rs| - 1]) + (if last.table.Some? then [(0, last.table.value)] else [])
  }

  ghost function TableSet(rs: seq<Replayed>): set<File> {
    if rs == [] then {} else
    var last := rs[|rs| - 1];
    TableSet(rs[..|rs| - 1]) + (if last.table.Some? then {last.table.value} else {})
  }

  /** RecoverLogFile: each memtable becomes a level-0 table with the next file number. */
  ghost predicate ReplayOk(rs: seq<Replayed>, from: nat, to: nat) {
    if rs == [] then from <= to else
    var last := rs[|rs| - 1];
    && ValidHistory(last.records)
    && match last.table
       case None => Entries(last.records) == {} && ReplayOk(rs[..|rs| - 1], from, to)
       case Some(f) => && ValidFile(f) && Contents(f) == Entries(last.records) && f.number < to
                       && from <= f.number && ReplayOk(rs[..|rs| - 1], from, f.number)
  }

  lemma {:induction false} ReplayBounds(rs: seq<Replayed>, from: nat, to: nat)
    requires ReplayOk(rs, from, to)
    ensures from <= to && forall f :: f in TableSet(rs) ==> from <= f.number < to
  {
    if rs != [] {
      var last := rs[|rs| - 1];
      ReplayBounds(rs[..|rs| - 1], from, if last.table.Some? then last.table.value.number else to);
    }
  }

  function Without(fs: seq<File>, f: File): seq<File> {
    if fs == [] then [] else
    Without(fs[..|fs| - 1], f) + (if fs[|fs| - 1] == f then [] else [fs[|fs| - 1]])
  }

  lemma {:induction false} WithoutExactly(fs: seq<File>, f: File, g: File)
    ensures g in Without(fs, f) <==> g in fs && g != f
  {
    if fs != [] {
      var n := |fs| - 1;
      WithoutExactly(fs[..n], f, g);
      assert fs == fs[..n] + [fs[n]];
    }
  }

  lemma {:induction false} WithoutSorted(fs: seq<File>, f: File)
    requires SortedBySmallest(fs)
    ensures SortedBySmallest(Without(fs, f))
  {
    if fs != [] {
      var n := |fs| - 1;
      var kept := Without(fs[..n], f);
      WithoutSorted(fs[..n], f);
      forall i | 0 <= i < |kept|
        ensures BySmallest(kept[i], fs[n])
      {
        WithoutExactly(fs[..n], f, kept[i]);
        var j :| 0 <= j < n && fs[j] == kept[i];
      }
    }
  }

  lemma WithoutLists(fs: seq<File>, S: set<File>, f: File)
    requires Lists(fs, S + {f}) && f !in S
    ensures Lists(Without(fs, f), S)
  {
    WithoutSorted(fs, f);
    forall g
      ensures g in Without(fs, f) <==> g in S
    {
      WithoutExactly(fs, f, g);
      assert g in fs <==> g in ToSet(fs);
    }
  }

  /** The recovered version with the replayed tables added at level 0. */
  ghost predicate ReplayInstalled(levels: Levels, tables: set<File>, levels': Levels) {
    && (forall l :: 1 <= l < NUM_LEVELS ==> levels'[l] == levels[l])
    && Lists(levels'[0], ToSet(levels[0]) + tables)
  }

  ghost predicate NumbersBelow(levels: Levels, bound: nat) {
    forall l, g :: 0 <= l < NUM_LEVELS && g in levels[l] ==> g.number < bound
  }

  /** Table by table, the replay is a sequence of level-0 flushes. */
  lemma {:induction false} ReplayAdvances(levels: Levels, front: seq<Record>, horizon: nat, rs: seq<Replayed>, from: nat, to: nat, levels': Levels)
    requires VersionStands(levels, front, horizon) && NumbersBelow(levels, from) && AllSorted(levels)
    requires ReplayOk(rs, from, to) && ValidHistory(front + ReplayedRecords(rs))
    requires ReplayInstalled(levels, TableSet(rs), levels')
    ensures VersionStands(levels', front + ReplayedRecords(rs), horizon)
    decreases |rs|
  {
    if rs == [] {
      ListsUnique(levels'[0], levels[0], ToSet(levels[0]));
      assert levels' == levels && front + [] == front;
    } else {
      var init, last := rs[..|rs| - 1], rs[|rs| - 1];
      var before := front + ReplayedRecords(init);
      assert front + ReplayedRecords(rs) == before + last.records;
      Parts(before, last.records);
      match last.table
      case None =>
        ReplayAdvances(levels, front, horizon, init, from, to, levels');
        EntriesAppend(before, last.records);
        assert Entries(before + last.records) == Entries(before);
      case Some(f) =>
        var mid := ReplayMid(levels, init, from, f, levels');
        ReplayAdvances(levels, front, horizon, init, from, f.number, mid);
        ReplayBounds(init, from, f.number);
        MidBelow(levels, TableSet(init), from, f.number, mid);
        FlushVersion(mid, before, last.records, horizon, 0, f, levels');
    }
  }

  lemma ReplayMid(levels: Levels, init: seq<Replayed>, from: nat, f: File, levels': Levels) returns (mid: Levels)
    requires NumbersBelow(levels, from) && ReplayOk(init, from, f.number)
    requires ReplayInstalled(levels, TableSet(init) + {f}, levels')
    ensures ReplayInstalled(levels, TableSet(init), mid) && FlushInstalled(mid, 0, f, levels')
  {
    ReplayBounds(init, from, f.number);
    assert f !in ToSet(levels[0]) + TableSet(init) by {
      assert forall g :: g in levels[0] ==> g.number < from;
    }
    assert ToSet(levels[0]) + (TableSet(init) + {f}) == (ToSet(levels[0]) + TableSet(init)) + {f};
    WithoutLists(levels'[0], ToSet(levels[0]) + TableSet(init), f);
    mid := levels'[0 := Without(levels'[0], f)];
  }

  lemma MidBelow(levels: Levels, tables: set<File>, from: nat, bound: nat, mid: Levels)
    requires NumbersBelow(levels, from) && from <= bound && (forall f :: f in tables ==> f.number < bound)
    requires ReplayInstalled(levels, tables, mid)
    ensures NumbersBelow(mid, bound)
  {
    forall l, g | 0 <= l < NUM_LEVELS && g in mid[l]
      ensures g.number < bound
    {
      assert l == 0 ==> g in ToSet(mid[0]);
      assert l != 0 ==> g in levels[l];
    }
  }

  // ---------- the new manifest ----------

  /** WriteSnapshot: one edit that adds every file of the version. */
  ghost predicate IsSnapshot(snap: VersionEdit, levels: Levels) {
    && ValidEdit(snap) && snap.deleted == {}
    && (forall l :: 0 <= l < NUM_LEVELS ==> AddedAt(snap, |snap.added|, l) == ToSet(levels[l]))
  }

  lemma SnapshotReplays(snap: VersionEdit, levels: Levels, next: nat)
    requires IsSnapshot(snap, levels) && AllSorted(levels) && UniqueNumbers(levels) && NumbersBelow(levels, next)
    ensures ManifestFor([snap], levels, next)
  {
    assert [snap][..0] == [];
    forall l | 0 <= l < NUM_LEVELS
      ensures AddedOnce({}, [snap], l) && Lists(levels[l], InstallAll({}, [snap], l))
      ensures Ever([snap], l) == Numbers(ToSet(levels[l]))
    {
      assert Accumulate(Pending({}, {}), [], l) == Pending({}, {});
      assert DeletedAt(snap, l) == {};
      assert Install({}, snap, l) == ToSet(levels[l]);
      assert AddedOnce({}, [], l);
      assert {} + ToSet(levels[l]) == ToSet(levels[l]);
    }
    forall l, n | 0 <= l < NUM_LEVELS && n in Ever([snap], l)
      ensures n < next && exists f :: f in levels[l] && f.number == n
    {
      var f :| f in ToSet(levels[l]) && f.number == n;
      assert f in levels[l];
    }
  }

  lemma {:induction false} TablesAdded(rs: seq<Replayed>, from: nat, to: nat)
    requires ReplayOk(rs, from, to)
    ensures var ts := ReplayedTables(rs);
            && (forall i :: 0 <= i < |ts| ==> ts[i].0 == 0 && from <= ts[i].1.number < to)
            && (forall i, j :: 0 <= i < j < |ts| ==> ts[i].1.number < ts[j].1.number)
            && FilesOf(ts) == TableSet(rs)
  {
    if rs != [] {
      var init, last := rs[..|rs| - 1], rs[|rs| - 1];
      var bound := if last.table.Some? then last.table.value.number else to;
      TablesAdded(init, from, bound);
      ReplayBounds(init, from, bound);
      var ts := ReplayedTables(init);
      if last.table.Some? {
        OneMoreTable(ts, last.table.value);
      } else {
        assert ts + [] == ts;
      }
    }
  }

  ghost function FilesOf(ts: seq<(nat, File)>): set<File> {
    set i | 0 <= i < |ts| :: ts[i].1
  }

  lemma OneMoreTable(ts: seq<(nat, File)>, f: File)
    ensures FilesOf(ts + [(0, f)]) == FilesOf(ts) + {f}
  {
    var ts' := ts + [(0, f)];
    forall g
      ensures g in FilesOf(ts') <==> g in FilesOf(ts) || g == f
    {
      if g in FilesOf(ts') {
        var i :| 0 <= i < |ts'| && ts'[i].1 == g;
        assert i < |ts| ==> ts[i].1 == g && g in FilesOf(ts);
      }
      if g in FilesOf(ts) {
        var i :| 0 <= i < |ts| && ts[i].1 == g;
        assert ts'[i].1 == g;
      }
      assert ts'[|ts|].1 == f;
    }
  }

  /** The edit of the first LogAndApply after recovery. */
  ghost predicate ReopenEdit(e: VersionEdit, rs: seq<Replayed>, log: nat, from: nat, to: nat, last: SequenceNumber) {
    && e == VersionEdit(Some(log), Some(to), Some(last), {}, ReplayedTables(rs))
    && ReplayOk(rs, from, to)
  }

  lemma ReopenInstalls(levels: Levels, rs: seq<Replayed>, e: VersionEdit, log: nat, from: nat, to: nat, last: SequenceNumber, levels': Levels)
    requires AllSorted(levels) && ReopenEdit(e, rs, log, from, to, last) && NextVersionOf(levels, e, levels')
    ensures ReplayInstalled(levels, TableSet(rs), levels') && AddsFresh(e, from) && ValidEdit(e)
  {
    TablesAdded(rs, from, to);
    ReplayBounds(rs, from, to);
    var ts := e.added;
    assert AddedAt(e, |ts|, 0) == TableSet(rs) by {
      assert AddedAt(e, |ts|, 0) == set i | 0 <= i < |ts| :: ts[i].1;
    }
    forall l | 0 <= l < NUM_LEVELS
      ensures Install(ToSet(levels[l]), e, l) == ToSet(levels[l]) + (if l == 0 then TableSet(rs) else {})
    {
      assert DeletedAt(e, l) == {};
      assert l != 0 ==> AddedAt(e, |ts|, l) == {};
    }
    forall l | 1 <= l < NUM_LEVELS
      ensures levels'[l] == levels[l]
    {
      ListsUnique(levels'[l], levels[l], ToSet(levels[l]));
    }
  }

  lemma ReopenManifest(manifest: seq<VersionEdit>, levels: Levels, snap: VersionEdit, e: VersionEdit, from: nat, levels': Levels)
    requires ManifestOk(manifest, levels) && LastNextFile(manifest).value <= from
    requires IsSnapshot(snap, levels) && AddsFresh(e, from) && ValidEdit(e) && NextVersionOf(levels, e, levels')
    ensures ManifestOk([snap, e], levels')
  {
    LiveBounded(manifest, levels);
    ManifestSorted(manifest, levels);
    SnapshotReplays(snap, levels, from);
    AppendFresh([snap], levels, from, e, levels');
    assert [snap] + [e] == [snap, e];
  }

  lemma ReopenLogs(logs: seq<Log>, number: nat)
    requires SortedLogs(logs) && forall i :: 0 <= i < |logs| ==> logs[i].number < number
    ensures LogsStand(logs + [Log(number, [])], number, [])
  {
    LiveRecordsSnoc(logs, Log(number, []), number);
    NoneLive(logs, number);
  }

  /** Recovery moves every surviving record into the files and starts an empty log. */
  lemma ReopenStands(manifest: seq<VersionEdit>, logs: seq<Log>, levels: Levels, front: seq<Record>, recent: seq<Record>, horizon: nat,
                     rs: seq<Replayed>, snap: VersionEdit, e: VersionEdit, log: nat, from: nat, to: nat, last: SequenceNumber, levels': Levels)
    requires Stands(manifest, logs, levels, front, recent, horizon)
    requires LastNextFile(manifest).value <= from && IsSnapshot(snap, levels)
    requires ReopenEdit(e, rs, log, from, to, last) && ReplayedRecords(rs) == recent && NextVersionOf(levels, e, levels')
    requires LastLastSequence(manifest).value <= last && Below(recent, last + 1)
    requires forall i :: 0 <= i < |logs| ==> logs[i].number < log
    ensures Stands([snap, e], logs + [Log(log, [])], levels', front + recent, [], horizon)
  {
    hide ValidHistory, IsSnapshot, NextVersionOf, ReplayInstalled, SortedLogs, VersionStands, AllSorted;
    ManifestSorted(manifest, levels);
    ReopenInstalls(levels, rs, e, log, from, to, last, levels');
    ReopenManifest(manifest, levels, snap, e, from, levels');
    LiveBounded(manifest, levels);
    ReplayAdvances(levels, front, horizon, rs, from, to, levels');
    ReopenLogs(logs, log);
    assert (front + recent) + [] == front + recent;
    assert LastLogNumber([snap, e]) == Some(log) && LastLastSequence([snap, e]) == Some(last);
  }
}
