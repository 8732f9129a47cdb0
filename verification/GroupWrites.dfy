/** Group commit at work on the step machine: each action of the queue is a logged batch, an acknowledged
    batch, or nothing that the database sees, while background work goes on beside it. */
module GroupWrites {
  import opened Options
  import opened Keys
  import opened History
  import opened Database
  import opened DatabaseInvariant
  import opened DatabaseRuns
  import G = GroupCommit

  /** The front writer, if it is writing. */
  ghost predicate FrontWrites(g: G.State) {
    0 <= G.Base(g) < |g.pcs| && g.pcs[G.Base(g)].Writing?
  }

  /** A batch that is in the log but not yet acknowledged. */
  ghost function InFlight(g: G.State): Option<Record> {
    if FrontWrites(g) && g.pcs[G.Base(g)].logged then Some(g.pcs[G.Base(g)].record) else None
  }

  /** The first n entries of a batch. */
  ghost function FirstEntries(r: Record, n: nat): set<Entry>
    requires Fits(r) && n <= |r.ops|
  {
    set i | 0 <= i < n :: OpEntry(r.ops[i], r.first + i)
  }

  /** The front writer's batch fits, and some of it has been inserted. */
  ghost predicate FrontFits(g: G.State) {
    FrontWrites(g) ==> Fits(g.pcs[G.Base(g)].record) && g.pcs[G.Base(g)].inserted <= |g.pcs[G.Base(g)].record.ops|
  }

  /** What the front writer has inserted of its batch. */
  ghost function Inserted(g: G.State): set<Entry>
    requires FrontFits(g)
  {
    if FrontWrites(g) then FirstEntries(g.pcs[G.Base(g)].record, g.pcs[G.Base(g)].inserted) else {}
  }

  /** The queue, which started when the database had acknowledged `start` batches, is in step with it: the same
      counter, the same batch in flight, and what went through the queue is what was acknowledged since. */
  ghost predicate Matches(g: G.State, s: Db, m: Memory, start: nat) {
    && s.up == Some(m) && ValidHistory(s.history) && Below(s.history, m.lastSequence + 1) && s.disk.logs != []
    && m.lastSequence == g.lastSequence && m.inflight == InFlight(g) && start <= |s.history| && FrontFits(g)
    && ValidHistory(s.history[start..]) && g.mem == Entries(s.history[start..]) + Inserted(g)
  }

  /** Actions other than a failing write to the log. */
  ghost predicate GoodAction(g: G.State, g': G.State, w: nat) {
    || (exists r :: G.Arrive(g, g', r)) || G.ReturnAnswered(g, g', w) || G.Front(g, g', w) || G.NoRoom(g, g', w) || G.NoBatch(g, g', w)
    || (exists n :: G.BuildGroup(g, g', w, n)) || G.AddRecord(g, g', w) || G.InsertNext(g, g', w) || G.Succeed(g, g', w)
  }

  /** What an action does to the database: the group's batch is logged, or acknowledged with the front writer's
      sync flag, or nothing is done. */
  ghost predicate Writes(g: G.State, g': G.State, w: nat, s: Db, s': Db, m: Memory) {
    if G.AddRecord(g, g', w) then LogAppend(s, s', m, g.pcs[w].record.ops)
    else if G.Succeed(g, g', w) then w < |g.requests| && Acknowledge(s, s', m, g.requests[w].sync)
    else s' == s
  }

  // ---- every action can be taken ----

  /** For every action there is a step of the database, or none is needed, and they still match. */
  lemma ActionIsWrite(g: G.State, g': G.State, w: nat, first: nat, s: Db, m: Memory, start: nat) returns (s': Db, m': Memory)
    requires G.Inv(g, first) && Matches(g, s, m, start) && GoodAction(g, g', w)
    ensures Writes(g, g', w, s, s', m) && Matches(g', s', m', start)
  {
    s', m' := s, m;
    if G.AddRecord(g, g', w) {
      s', m' := Logs(g, g', w, first, s, m, start);
    } else if G.Succeed(g, g', w) {
      s', m' := Answers(g, g', w, first, s, m, start);
    } else {
      NoWrite(g, g', w, first, s, m, start);
    }
  }

  lemma NoWrite(g: G.State, g': G.State, w: nat, first: nat, s: Db, m: Memory, start: nat)
    requires G.Inv(g, first) && Matches(g, s, m, start) && GoodAction(g, g', w) && !G.AddRecord(g, g', w) && !G.Succeed(g, g', w)
    ensures Matches(g', s, m, start)
  {
    if G.InsertNext(g, g', w) {
      Inserts(g, g', w, first, s, m, start);
    } else {
      Unseen(g, g', w, first, s, m, start);
    }
  }

  lemma WriterIsFront(g: G.State, w: nat, first: nat)
    requires G.Inv(g, first) && w < |g.pcs|
    ensures G.Active(g.pcs[w]) ==> w == G.Base(g)
    ensures G.WritingInv(g, w)
  {
  }

  lemma Logs(g: G.State, g': G.State, w: nat, first: nat, s: Db, m: Memory, start: nat) returns (s': Db, m': Memory)
    requires G.Inv(g, first) && Matches(g, s, m, start) && G.AddRecord(g, g', w)
    ensures LogAppend(s, s', m, g.pcs[w].record.ops) && Matches(g', s', m', start)
  {
    WriterIsFront(g, w, first);
    hide G.Inv;
    var r := g.pcs[w].record;
    m' := m.(inflight := Some(r));
    s' := s.(disk := SetCurrentLog(s.disk, s.disk.logs[|s.disk.logs| - 1].records + [r]), up := Some(m'));
  }

  lemma Inserts(g: G.State, g': G.State, w: nat, first: nat, s: Db, m: Memory, start: nat)
    requires G.Inv(g, first) && Matches(g, s, m, start) && G.InsertNext(g, g', w)
    ensures Matches(g', s, m, start)
  {
    WriterIsFront(g, w, first);
    hide G.Inv, ValidHistory, Below, Entries;
    var r, n := g.pcs[w].record, g.pcs[w].inserted;
    assert FirstEntries(r, n + 1) == FirstEntries(r, n) + {OpEntry(r.ops[n], r.first + n)};
  }

  lemma Answers(g: G.State, g': G.State, w: nat, first: nat, s: Db, m: Memory, start: nat) returns (s': Db, m': Memory)
    requires G.Inv(g, first) && Matches(g, s, m, start) && G.Succeed(g, g', w)
    ensures w < |g.requests| && Acknowledge(s, s', m, g.requests[w].sync) && Matches(g', s', m', start)
  {
    hide G.Inv, ValidHistory, Below, Entries, FirstEntries;
    WriterIsFront(g, w, first);
    NoneWritesAfter(g, g', w, first);
    var r, sync := g.pcs[w].record, g.requests[w].sync;
    m' := m.(inflight := None, mem := m.mem + [r], lastSequence := m.lastSequence + |r.ops|);
    s' := s.(up := Some(m'), history := s.history + [r], durable := if sync then |s.history| + 1 else s.durable);
    assert r.first == m.lastSequence + 1;
    hide G.Succeed, G.WritingInv;
    OneMoreRecord(s.history, r, m.lastSequence, start);
    assert s'.history[start..] == s.history[start..] + [r];
  }

  lemma OneMoreRecord(h: seq<Record>, r: Record, last: nat, start: nat)
    requires ValidHistory(h) && Below(h, last + 1) && Fits(r) && r.first == last + 1 && start <= |h| && ValidHistory(h[start..])
    ensures ValidHistory(h + [r]) && Below(h + [r], last + |r.ops| + 1)
    ensures ValidHistory(h[start..] + [r]) && Entries(h[start..] + [r]) == Entries(h[start..]) + FirstEntries(r, |r.ops|)
  {
    assert (h[start..] + [r])[..|h| - start] == h[start..];
    assert FirstEntries(r, |r.ops|) == RecordEntries(r);
  }

  /** When a writer answers, nobody writes. */
  lemma NoneWritesAfter(g: G.State, g': G.State, w: nat, first: nat)
    requires G.Inv(g, first) && G.Succeed(g, g', w)
    ensures !FrontWrites(g') && g'.mem == g.mem && g'.lastSequence == g.lastSequence + |g.pcs[w].record.ops|
  {
    WriterIsFront(g, w, first);
    if FrontWrites(g') {
      WriterIsFront(g, G.Base(g'), first);
    }
  }

  lemma Unseen(g: G.State, g': G.State, w: nat, first: nat, s: Db, m: Memory, start: nat)
    requires G.Inv(g, first) && Matches(g, s, m, start) && GoodAction(g, g', w)
    requires !G.AddRecord(g, g', w) && !G.InsertNext(g, g', w) && !G.Succeed(g, g', w)
    ensures Matches(g', s, m, start)
  {
    WritesStay(g, g', w, first);
    hide G.Inv, GoodAction, ValidHistory, Below;
  }

  /** An action that is no write leaves the front writer's batch, the memtable and the counter as they are. */
  lemma WritesStay(g: G.State, g': G.State, w: nat, first: nat)
    requires G.Inv(g, first) && GoodAction(g, g', w)
    requires !G.AddRecord(g, g', w) && !G.InsertNext(g, g', w) && !G.Succeed(g, g', w)
    ensures g'.mem == g.mem && g'.lastSequence == g.lastSequence
    ensures if FrontWrites(g) then FrontWrites(g') && G.Base(g') == G.Base(g) && g'.pcs[G.Base(g)] == g.pcs[G.Base(g)]
            else FrontWrites(g') ==> var pc := g'.pcs[G.Base(g')]; Fits(pc.record) && pc.inserted == 0 && !pc.logged
  {
    if 0 <= G.Base(g) < |g.pcs| {
      WriterIsFront(g, G.Base(g), first);
    }
    hide G.IsGroup, G.Ops, G.Queued, G.Chained, G.InSlots, G.InProgress, G.WritingInv, G.Answered;
  }
}
