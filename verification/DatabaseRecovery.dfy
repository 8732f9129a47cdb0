/** Recovery never gets stuck: whatever a crash or a failed attempt has left, the database can be opened. */
module DatabaseRecovery {
  import opened Options
  import opened Keys
  import opened Reads
  import opened Files
  import opened Installing
  import opened Manifest
  import opened Building
  import opened Editing
  import opened Durable
  import opened History
  import opened Recovery
  import opened Reopening
  import opened Database
  import opened DatabaseInvariant
  import opened DatabaseRuns

  // ---- the table of a memtable ----

  /** A first entry in key order. */
  lemma {:induction false} FirstEntry(S: set<Entry>) returns (e: Entry)
    requires Distinct(S) && S != {}
    ensures e in S && forall o :: o in S && o != e ==> Less(e.key, o.key)
  {
    var d :| d in S;
    var rest := S - {d};
    if rest == {} {
      e := d;
      assert S == {d};
    } else {
      var f := FirstEntry(rest);
      e := if Less(d.key, f.key) then d else f;
      assert d.key.user != f.key.user || d.key.sn != f.key.sn;
      forall o | o in S && o != e
        ensures Less(e.key, o.key)
      {
        assert o == d || o in rest;
      }
    }
  }

  lemma {:induction false} InKeyOrder(S: set<Entry>) returns (es: seq<Entry>)
    requires Distinct(S)
    ensures Sorted(es) && ToSet(es) == S && (es == [] <==> S == {})
  {
    if S == {} {
      es := [];
    } else {
      var e := FirstEntry(S);
      var rest := InKeyOrder(S - {e});
      es := [e] + rest;
      forall i | 0 <= i < |rest|
        ensures Less(e.key, rest[i].key)
      {
        assert rest[i] in ToSet(rest);
      }
      assert ToSet(es) == {e} + ToSet(rest);
    }
  }

  /** One memtable for all records that are still in logs, and its table. */
  lemma OneMemtable(recent: seq<Record>, from: nat) returns (rs: seq<Replayed>)
    requires ValidHistory(recent)
    ensures ReplayOk(rs, from, from + 1) && ReplayedRecords(rs) == recent
  {
    HistoryDistinct(recent);
    var es := InKeyOrder(Entries(recent));
    var table := if es == [] then None else Some(File(from, 0, es[0].key, es[|es| - 1].key, es));
    rs := [Replayed(recent, table)];
    assert rs[..0] == [] && ReplayedRecords([]) == [] && [] + recent == recent;
    assert ReplayOk([], from, from);
  }

  // ---- the snapshot record ----

  lemma {:induction false} FilesOfLevels(levels: Levels, n: nat) returns (added: seq<(nat, File)>)
    requires n <= NUM_LEVELS && AllSorted(levels) && UniqueNumbers(levels)
    ensures forall i :: 0 <= i < |added| ==> added[i].0 < n && added[i].1 in levels[added[i].0]
    ensures forall i, j :: 0 <= i < j < |added| ==> added[i] != added[j]
    ensures forall l, f :: 0 <= l < n && f in levels[l] ==> (l, f) in added
  {
    if n == 0 {
      added := [];
    } else {
      var l := n - 1;
      var before := FilesOfLevels(levels, l);
      var here := seq(|levels[l]|, i requires 0 <= i < |levels[l]| => (l, levels[l][i]));
      added := before + here;
      assert SortedBySmallest(levels[l]);
      forall i, j | 0 <= i < j < |here|
        ensures here[i] != here[j]
      {
        assert BySmallest(levels[l][i], levels[l][j]);
        OneOfThree(levels[l][i], levels[l][i]);
      }
      forall f | f in levels[l]
        ensures (l, f) in here
      {
        var i :| 0 <= i < |levels[l]| && levels[l][i] == f;
        assert here[i] == (l, f);
      }
    }
  }

  lemma SnapshotOf(levels: Levels) returns (snap: VersionEdit)
    requires AllSorted(levels) && UniqueNumbers(levels)
    ensures IsSnapshot(snap, levels)
  {
    var added := FilesOfLevels(levels, NUM_LEVELS);
    snap := VersionEdit(None, None, None, {}, added);
    forall i, j | 0 <= i < j < |added| && added[i].0 == added[j].0
      ensures added[i].1.number != added[j].1.number
    {
      assert added[i].1 in levels[added[i].0] && added[j].1 in levels[added[j].0];
    }
    forall l | 0 <= l < NUM_LEVELS
      ensures AddedAt(snap, |snap.added|, l) == ToSet(levels[l])
    {
      forall f | f in levels[l]
        ensures f in AddedAt(snap, |added|, l)
      {
        var i :| 0 <= i < |added| && added[i] == (l, f);
      }
    }
  }

  // ---- counters ----

  lemma {:induction false} AboveLogs(logs: seq<Log>) returns (n: nat)
    ensures forall i :: 0 <= i < |logs| ==> logs[i].number < n
  {
    n := 0;
    if logs != [] {
      var last := logs[|logs| - 1].number;
      n := AboveLogs(logs[..|logs| - 1]);
      n := if n <= last then last + 1 else n;
      assert forall i :: 0 <= i < |logs| - 1 ==> logs[i] == logs[..|logs| - 1][i];
    }
  }

  /** The last sequence number used, at least `base`. */
  lemma {:induction false} LastUsed(recent: seq<Record>, base: SequenceNumber) returns (last: SequenceNumber)
    requires ValidHistory(recent)
    ensures base <= last && Below(recent, last + 1)
  {
    last := base;
    if recent != [] {
      var r := recent[|recent| - 1];
      var before := LastUsed(recent[..|recent| - 1], base);
      last := if before + 1 < r.first + |r.ops| then r.first + |r.ops| - 1 else before;
      assert forall i :: 0 <= i < |recent| - 1 ==> recent[i] == recent[..|recent| - 1][i];
    }
  }

  // ---- the new version and its tables ----

  lemma Installs(levels: Levels, e: VersionEdit) returns (levels': Levels)
    requires AllSorted(levels) && ValidEdit(e)
    requires forall l :: 0 <= l < NUM_LEVELS ==> Numbers(AddedAt(e, |e.added|, l)) !! Numbers(ToSet(levels[l]))
    ensures NextVersionOf(levels, e, levels')
  {
    levels' := seq(NUM_LEVELS, l requires 0 <= l < NUM_LEVELS => Next(levels[l], e, l));
    forall l | 0 <= l < NUM_LEVELS
      ensures Lists(levels'[l], Manifest.Install(ToSet(levels[l]), e, l))
    {
      NextIsInstall(levels[l], e, l);
    }
  }

  lemma TablesOf(levels: Levels) returns (tables: map<nat, File>)
    requires UniqueNumbers(levels)
    ensures TablesHold(tables, levels)
  {
    var files := set l, f | 0 <= l < NUM_LEVELS && f in levels[l] :: f;
    tables := map n | n in Numbers(files) :: Numbered(files, n);
    forall l, f | 0 <= l < NUM_LEVELS && f in levels[l]
      ensures f.number in tables && tables[f.number] == f
    {
      assert f in files && f.number in Numbers(files);
      var g := Numbered(files, f.number);
      var m :| 0 <= m < NUM_LEVELS && g in levels[m];
    }
  }

  ghost function Numbered(files: set<File>, n: nat): (f: File)
    requires n in Numbers(files)
    ensures f in files && f.number == n
  {
    var f :| f in files && f.number == n;
    f
  }

  /** From every state with the database down, opening it succeeds. */
  lemma RecoveryGoesOn(s: Db) returns (s': Db, levels: Levels, rs: seq<Replayed>, snap: VersionEdit, e: VersionEdit,
                                       log: nat, from: nat, to: nat, last: SequenceNumber, levels': Levels, tables: map<nat, File>)
    requires s.up.None? && DownInv(s)
    ensures Reopen(s, s', levels, rs, snap, e, log, from, to, last, levels', tables) && s'.up.Some?
  {
    var manifest := s.disk.manifest;
    ghost var recent;
    levels, recent :| View(manifest, s.disk, levels, s.front, recent, s.horizon) && s.front + recent == s.history;
    Parts(s.front, recent);
    from := LastNextFile(manifest).value + 1;
    rs := OneMemtable(recent, from);
    ManifestSorted(manifest, levels);
    LiveBounded(manifest, levels);
    snap := SnapshotOf(levels);
    log := AboveLogs(s.disk.logs);
    to := from + 1 + log;
    ReplayMonotone(rs, from, from + 1, to);
    last := LastUsed(recent, LastLastSequence(manifest).value);
    e := VersionEdit(Some(log), Some(to), Some(last), {}, ReplayedTables(rs));
    levels', tables := NewVersion(manifest, levels, rs, snap, e, log, from, to, last);
    s' := s.(disk := Disk([snap, e], s.disk.logs + [Log(log, [])], tables),
             up := Some(Memory(levels', [], None, log, last, to, [], None, None, None)), front := s.history);
  }

  lemma ReplayMonotone(rs: seq<Replayed>, from: nat, to: nat, to': nat)
    requires ReplayOk(rs, from, to) && to <= to'
    ensures ReplayOk(rs, from, to')
  {
    if rs != [] && rs[|rs| - 1].table.None? {
      ReplayMonotone(rs[..|rs| - 1], from, to, to');
    }
  }

  lemma NewVersion(manifest: seq<VersionEdit>, levels: Levels, rs: seq<Replayed>, snap: VersionEdit, e: VersionEdit,
                   log: nat, from: nat, to: nat, last: SequenceNumber) returns (levels': Levels, tables: map<nat, File>)
    requires ManifestOk(manifest, levels) && LastNextFile(manifest).value <= from && IsSnapshot(snap, levels)
    requires ReopenEdit(e, rs, log, from, to, last)
    ensures NextVersionOf(levels, e, levels') && TablesHold(tables, levels')
  {
    ManifestSorted(manifest, levels);
    LiveBounded(manifest, levels);
    TablesAdded(rs, from, to);
    ReplayBounds(rs, from, to);
    AddsAbove(levels, e, from);
    levels' := Installs(levels, e);
    ReopenManifest(manifest, levels, snap, e, from, levels');
    tables := TablesOf(levels');
  }

  lemma AddsAbove(levels: Levels, e: VersionEdit, from: nat)
    requires forall l, g :: 0 <= l < NUM_LEVELS && g in levels[l] ==> g.number < from
    requires forall i :: 0 <= i < |e.added| ==> from <= e.added[i].1.number
    ensures forall l :: 0 <= l < NUM_LEVELS ==> Numbers(AddedAt(e, |e.added|, l)) !! Numbers(ToSet(levels[l]))
  {
    forall l, n | 0 <= l < NUM_LEVELS && n in Numbers(AddedAt(e, |e.added|, l))
      ensures n >= from
    {
      var i := AddedFrom(e, l, n);
    }
    forall l, n | 0 <= l < NUM_LEVELS && n in Numbers(ToSet(levels[l]))
      ensures n < from
    {
      var g :| g in ToSet(levels[l]) && g.number == n;
    }
  }

  /** Along every run: a database that is down has a next step that opens it. */
  lemma EveryRunReopens(states: seq<Db>, events: seq<Event>, i: nat) returns (ev: Event, s': Db)
    requires Run(states, events) && i < |states| && states[i].up.None?
    ensures DatabaseRuns.Step(states[i], ev, s') && s'.up.Some?
  {
    RunInv(states, events, i);
    hide Reopen, Run, DownInv;
    ghost var levels, rs, snap, e, log, from, to, last, levels', tables;
    s', levels, rs, snap, e, log, from, to, last, levels', tables := RecoveryGoesOn(states[i]);
    ev := Event.Recover(levels, rs, snap, e, log, from, to, last, levels', tables);
  }
}
