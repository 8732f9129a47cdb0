/** What a run promises to whoever writes and takes snapshots, in terms of its events. */
module Writes {
  import opened Options
  import opened Keys
  import opened Reads
  import opened Files
  import opened History
  import opened Database
  import opened DatabaseInvariant
  import opened DatabaseRuns

  // ---- acknowledged batches ----

  /** An acknowledged batch has a Write to thank: what is acknowledged is what was last logged, and
      nothing was acknowledged or lost in between. */
  lemma Acknowledged(states: seq<Db>, events: seq<Event>, j: nat) returns (i: nat)
    requires Run(states, events) && j < |events| && events[j].Ack?
    ensures i < j && events[i].Log_? && states[i].up.Some?
    ensures forall k :: i < k < j ==> !events[k].Log_? && !events[k].Ack? && !events[k].PowerLoss?
    ensures states[j + 1].history == states[i].history + [Record(states[i].up.value.lastSequence + 1, events[i].ops)]
  {
    assert Step(states[j], events[j], states[j + 1]);
    i := LoggedBefore(states, events, j);
  }

  /** Where the batch in flight was logged. */
  lemma {:induction false} LoggedBefore(states: seq<Db>, events: seq<Event>, j: nat) returns (i: nat)
    requires Run(states, events) && j < |states| && states[j].up.Some? && states[j].up.value.inflight.Some?
    ensures i < j && events[i].Log_? && states[i].up.Some? && states[j].history == states[i].history
    ensures forall k :: i < k < j ==> !events[k].Log_? && !events[k].Ack? && !events[k].PowerLoss?
    ensures states[j].up.value.inflight == Some(Record(states[i].up.value.lastSequence + 1, events[i].ops))
  {
    assert Step(states[j - 1], events[j - 1], states[j]);
    InFlightStep(states[j - 1], events[j - 1], states[j]);
    if events[j - 1].Log_? {
      i := j - 1;
    } else {
      i := LoggedBefore(states, events, j - 1);
    }
  }

  lemma InFlightStep(s: Db, ev: Event, s': Db)
    requires Step(s, ev, s') && s'.up.Some? && s'.up.value.inflight.Some?
    ensures !ev.Ack? && !ev.PowerLoss? && s.up.Some? && s.history == s'.history
    ensures if ev.Log_? then s'.up.value.inflight == Some(Record(s.up.value.lastSequence + 1, ev.ops)) else s'.up.value.inflight == s.up.value.inflight
  {
  }

  // ---- synced batches ----

  /** A synced write makes everything up to it durable; no other step makes anything durable. */
  lemma SyncMakesDurable(s: Db, ev: Event, s': Db)
    requires Inv(s) && Step(s, ev, s')
    ensures s'.durable == if ev == Ack(true) then |s'.history| else s.durable
  {
  }

  /** Once a synced write has returned, no crash takes it or anything before it away. */
  lemma SyncedWriteStays(states: seq<Db>, events: seq<Event>, i: nat, j: nat)
    requires Run(states, events) && i < |events| && events[i] == Ack(true) && i < j < |states|
    ensures states[i + 1].history <= states[j].history
  {
    hide Step, Inv;
    RunInv(states, events, i);
    assert Step(states[i], events[i], states[i + 1]);
    SyncMakesDurable(states[i], events[i], states[i + 1]);
    SyncedNeverLost(states, events, i + 1, j);
    var h := states[i + 1].history;
    assert states[j].history[..|h|] == h[..|h|] == h;
  }

  // ---- snapshots ----

  /** Without a crash or a release in between, a snapshot is still there. */
  lemma {:induction false} SnapshotHeld(states: seq<Db>, events: seq<Event>, i: nat, j: nat)
    requires Run(states, events) && i < j < |states| && events[i] == Snapshot
    requires forall k :: i < k < j ==> !events[k].PowerLoss? && !events[k].Release?
    ensures states[i].up.Some? && states[j].up.Some? && states[i].up.value.lastSequence in states[j].up.value.snapshots
  {
    assert Step(states[j - 1], events[j - 1], states[j]);
    if i + 1 < j {
      SnapshotHeld(states, events, i, j - 1);
      HeldStep(states[j - 1], events[j - 1], states[j], states[i].up.value.lastSequence);
    } else {
      var taken := states[i].up.value.lastSequence;
      assert states[j].up.value.snapshots == states[i].up.value.snapshots + [taken];
    }
  }

  lemma HeldStep(s: Db, ev: Event, s': Db, at: nat)
    requires Step(s, ev, s') && !ev.PowerLoss? && !ev.Release? && s.up.Some? && at in s.up.value.snapshots
    ensures s'.up.Some? && at in s'.up.value.snapshots
  {
  }

  /** What a snapshot shows never changes while it is held: the memtables and files of any later
      state read at it as those of the state it was taken in. */
  lemma SnapshotStands(states: seq<Db>, events: seq<Event>, i: nat, j: nat, u: UserKey)
    requires Run(states, events) && i < j < |states| && events[i] == Snapshot
    requires forall k :: i < k < j ==> !events[k].PowerLoss?
    requires states[i].up.Some? && states[j].up.Some? && states[i].up.value.lastSequence in states[j].up.value.snapshots
    ensures var then_, now, at := states[i].up.value, states[j].up.value, states[i].up.value.lastSequence;
      && ValidHistory(Imm(then_) + then_.mem) && ValidHistory(Imm(now) + now.mem)
      && Read(Entries(Imm(now) + now.mem) + ContentsFrom(now.levels, 0), u, at)
         == Read(Entries(Imm(then_) + then_.mem) + ContentsFrom(then_.levels, 0), u, at)
  {
    hide Step, Inv;
    var then_, now, at := states[i].up.value, states[j].up.value, states[i].up.value.lastSequence;
    EveryRunReadsRight(states, events, i, then_, u, at);
    EveryRunReadsRight(states, events, j, now, u, at);
    Grows(states, events, i, j);
    var h, more := states[i].history, states[j].history[|states[i].history|..];
    assert h + more == states[j].history;
    LaterUnseen(h, more, u, at);
  }

  /** Batches numbered above a snapshot do not change what is read at it. */
  lemma LaterUnseen(h: seq<Record>, more: seq<Record>, u: UserKey, at: nat)
    requires ValidHistory(h + more) && AtLeast(more, at + 1)
    ensures ValidHistory(h) && Read(Entries(h + more), u, at) == Read(Entries(h), u, at)
  {
    LaterIsNewer(h, more);
    EntriesAppend(h, more);
    HistoryDistinct(h + more);
    forall e | e in Entries(more)
      ensures !Visible(e, u, at)
    {
      EntriesAtLeast(more, at + 1, e);
    }
    assert Entries(h + more) == Entries(more) + Entries(h);
    ReadLayers(Entries(more), Entries(h), u, at);
  }

  /** Without a crash the database stays up, and what is acknowledged later has later numbers. */
  lemma {:induction false} Grows(states: seq<Db>, events: seq<Event>, i: nat, j: nat)
    requires Run(states, events) && i <= j < |states| && states[i].up.Some?
    requires forall k :: i <= k < j ==> !events[k].PowerLoss?
    ensures states[j].up.Some? && states[i].up.value.lastSequence <= states[j].up.value.lastSequence
    ensures states[i].history <= states[j].history
    ensures AtLeast(states[j].history[|states[i].history|..], states[i].up.value.lastSequence + 1)
  {
    hide Step, Inv;
    if i < j {
      Grows(states, events, i, j - 1);
      RunInv(states, events, j - 1);
      GrowsStep(states[j - 1], events[j - 1], states[j]);
      var n, before, now := |states[i].history|, states[j - 1].history, states[j].history;
      assert now[n..] == before[n..] + now[|before|..];
    }
  }

  lemma GrowsStep(s: Db, ev: Event, s': Db)
    requires Inv(s) && Step(s, ev, s') && s.up.Some? && !ev.PowerLoss?
    ensures s'.up.Some? && s.up.value.lastSequence <= s'.up.value.lastSequence
    ensures s.history <= s'.history && AtLeast(s'.history[|s.history|..], s.up.value.lastSequence + 1)
  {
    assert s.up.value.inflight.Some? ==> s.up.value.inflight.value.first == s.up.value.lastSequence + 1;
    hide Inv;
  }
}
