/** Writers queue while the database works: what a writer that was answered may rely on. */
module GroupRuns {
  import opened Options
  import opened Keys
  import opened History
  import opened Database
  import opened DatabaseInvariant
  import opened DatabaseRuns
  import opened GroupWrites
  import G = GroupCommit

  datatype Joint = Joint(g: G.State, s: Db)

  ghost predicate QueueStep(a: Joint, b: Joint, w: nat) {
    a.s.up.Some? && GoodAction(a.g, b.g, w) && Writes(a.g, b.g, w, a.s, b.s, a.s.up.value)
  }

  /** Whatever else the database does, short of a crash. */
  ghost predicate Background(a: Joint, b: Joint, ev: Event) {
    b.g == a.g && Step(a.s, ev, b.s) && !ev.Log_? && !ev.Ack? && !ev.PowerLoss?
  }

  ghost predicate JointStep(a: Joint, b: Joint) {
    (exists w :: QueueStep(a, b, w)) || (exists ev :: Background(a, b, ev))
  }

  /** From a database that is up, with nobody writing, and an empty queue. */
  ghost predicate JointRun(js: seq<Joint>) {
    && js != [] && Inv(js[0].s) && js[0].s.up.Some? && js[0].s.up.value.inflight.None?
    && js[0].g == G.State([], [], [], [], [], {}, js[0].s.up.value.lastSequence, false, [])
    && forall i :: 0 <= i < |js| - 1 ==> JointStep(js[i], js[i + 1])
  }

  ghost predicate StandsAt(ops: seq<Op>, all: seq<Op>, k: nat) {
    k + |ops| <= |all| && all[k..k + |ops|] == ops
  }

  /** The operations stand side by side in the others. */
  ghost predicate Within(ops: seq<Op>, all: seq<Op>) {
    exists k :: StandsAt(ops, all, k)
  }

  /** Some batch of the history from `start` on holds the operations, and with `sync` it is durable. */
  ghost predicate Stored(s: Db, start: nat, ops: seq<Op>, sync: bool) {
    exists b :: start <= b < |s.history| && Within(ops, s.history[b].ops) && (sync ==> b < s.durable)
  }

  ghost predicate Kept(a: Joint, start: nat) {
    forall w: nat :: G.Succeeded(a.g, w) ==> Stored(a.s, start, G.OpsOf(a.g.requests[w]), a.g.requests[w].sync)
  }

  ghost predicate JointInv(a: Joint, first: nat, start: nat) {
    G.Inv(a.g, first) && Inv(a.s) && a.s.up.Some? && Matches(a.g, a.s, a.s.up.value, start) && Kept(a, start)
  }

  lemma StartsJoint(js: seq<Joint>)
    requires JointRun(js)
    ensures JointInv(js[0], js[0].s.up.value.lastSequence + 1, |js[0].s.history|)
  {
    var s := js[0].s;
    G.StartInv(s.up.value.lastSequence);
    UpFacts(s, s.up.value);
    assert s.history[|s.history|..] == [];
  }

  lemma UpFacts(s: Db, m: Memory)
    requires Inv(s) && s.up == Some(m)
    ensures ValidHistory(s.history) && Below(s.history, m.lastSequence + 1) && s.disk.logs != []
  {
    ReadsAreRight(s, m, 0.0, s.horizon);
  }

  // ---- steps ----

  lemma BackgroundQuiet(s: Db, ev: Event, s': Db)
    requires Step(s, ev, s') && s.up.Some? && !ev.Log_? && !ev.Ack? && !ev.PowerLoss?
    ensures s'.up.Some? && s'.history == s.history && s'.durable == s.durable
    ensures s'.up.value.inflight == s.up.value.inflight && s'.up.value.lastSequence == s.up.value.lastSequence
  {
  }

  lemma BackgroundKeeps(a: Joint, b: Joint, ev: Event, first: nat, start: nat)
    requires JointInv(a, first, start) && Background(a, b, ev)
    ensures JointInv(b, first, start)
  {
    StepInv(a.s, ev, b.s);
    BackgroundQuiet(a.s, ev, b.s);
    UpFacts(b.s, b.s.up.value);
    hide *;
    MatchStands(a.g, a.s, b.s, start);
    KeptStands(a, b, start);
    JointParts(a, first, start);
    JointParts(b, first, start);
  }

  lemma JointParts(a: Joint, first: nat, start: nat)
    ensures JointInv(a, first, start) <==>
      G.Inv(a.g, first) && Inv(a.s) && a.s.up.Some? && Matches(a.g, a.s, a.s.up.value, start) && Kept(a, start)
  {
  }

  lemma MatchStands(g: G.State, s: Db, s': Db, start: nat)
    requires s.up.Some? && Matches(g, s, s.up.value, start)
    requires s'.up.Some? && s'.history == s.history && s'.disk.logs != []
    requires s'.up.value.inflight == s.up.value.inflight && s'.up.value.lastSequence == s.up.value.lastSequence
    ensures Matches(g, s', s'.up.value, start)
  {
    hide ValidHistory, Below, Entries, Inserted, InFlight, FrontFits;
  }

  lemma KeptStands(a: Joint, b: Joint, start: nat)
    requires Kept(a, start) && b.g == a.g && b.s.history == a.s.history && b.s.durable == a.s.durable
    ensures Kept(b, start)
  {
    hide G.Succeeded, Within;
    assert forall ops, sync :: Stored(a.s, start, ops, sync) ==> Stored(b.s, start, ops, sync);
  }

  lemma QueueMatches(a: Joint, b: Joint, w: nat, first: nat, start: nat)
    requires JointInv(a, first, start) && QueueStep(a, b, w)
    ensures b.s.up.Some? && Matches(b.g, b.s, b.s.up.value, start)
  {
    var s', m' := ActionIsWrite(a.g, b.g, w, first, a.s, a.s.up.value, start);
    assert s' == b.s;
  }

  lemma QueueInv(a: Joint, b: Joint, w: nat, first: nat, start: nat)
    requires JointInv(a, first, start) && QueueStep(a, b, w)
    ensures Inv(b.s) && G.Inv(b.g, first)
  {
    hide Inv, G.Inv, Matches, Kept;
    assert G.Step(a.g, b.g) by {
      if r :| G.Arrive(a.g, b.g, r) {
      } else {
        assert G.ThreadStep(a.g, b.g, w);
      }
    }
    G.StepInv(a.g, b.g, first);
    if G.AddRecord(a.g, b.g, w) {
      StepInv(a.s, Log_(a.g.pcs[w].record.ops), b.s);
    } else if G.Succeed(a.g, b.g, w) {
      StepInv(a.s, Ack(a.g.requests[w].sync), b.s);
    }
  }

  /** Only a finished write answers requests that have a batch with success. */
  lemma NoNewSuccess(g: G.State, g': G.State, w: nat, first: nat, v: nat)
    requires G.Inv(g, first) && GoodAction(g, g', w) && !G.Succeed(g, g', w) && G.Succeeded(g', v)
    ensures G.Succeeded(g, v) && g.requests[v] == g'.requests[v]
  {
    hide G.WritingInv, G.Answered, G.Chained, G.InSlots, G.InProgress, G.IsGroup, G.Slots, G.Queued;
    if G.NoRoom(g, g', w) {
      G.AnswerFifo(g, w, 1, false);
    } else if G.NoBatch(g, g', w) {
      G.AnswerFifo(g, w, 1, true);
      assert w == G.Base(g);
    }
  }

  lemma Member(rs: seq<G.Request>, i: nat)
    requires i < |rs|
    ensures Within(G.OpsOf(rs[i]), G.Ops(rs))
  {
    hide *;
    var front, one, rest := rs[..i], [rs[i]], rs[i + 1..];
    assert rs == front + (one + rest);
    G.OpsAdd(front, one + rest);
    G.OpsAdd(one, rest);
    OpsOfOne(rs[i]);
    StandsBetween(G.Ops(front), G.OpsOf(rs[i]), G.Ops(rest));
  }

  lemma OpsOfOne(r: G.Request)
    ensures G.Ops([r]) == G.OpsOf(r)
  {
    assert [r][..0] == [];
  }

  lemma StandsBetween(before: seq<Op>, ops: seq<Op>, after: seq<Op>)
    ensures Within(ops, before + (ops + after))
  {
    assert StandsAt(ops, before + (ops + after), |before|);
  }

  /** Whom a finished write answers. */
  lemma AnsweredNow(g: G.State, g': G.State, w: nat, first: nat, v: nat)
    requires G.Inv(g, first) && G.Succeed(g, g', w) && G.Succeeded(g', v)
    ensures g'.requests == g.requests && w < |g.requests|
    ensures G.Succeeded(g, v) || (Within(G.OpsOf(g.requests[v]), g.pcs[w].record.ops) && (g.requests[v].sync ==> g.requests[w].sync))
  {
    WriterIsFront(g, w, first);
    var n := g.pcs[w].n;
    if !G.Succeeded(g, v) {
      G.AnswerFifo(g, w, n, true);
      assert G.AnswerOf(g', v) == G.AnswerOf(G.Answer(g, w, n, true), v);
      var i := v - G.Base(g);
      var rs := G.Queued(g)[..n];
      assert rs[i] == g.requests[v];
      Member(rs, i);
    }
  }

  lemma QueueKeeps(a: Joint, b: Joint, w: nat, first: nat, start: nat)
    requires JointInv(a, first, start) && QueueStep(a, b, w)
    ensures Kept(b, start)
  {
    hide JointInv, QueueStep, G.Succeed, G.OpsOf, Within, Stored, Acknowledge;
    JointFirst(a, first, start);
    forall v: nat | G.Succeeded(b.g, v)
      ensures Stored(b.s, start, G.OpsOf(b.g.requests[v]), b.g.requests[v].sync)
    {
      if G.Succeed(a.g, b.g, w) {
        AnsweredNow(a.g, b.g, w, first, v);
        SucceedsInFlight(a, b, w, first, start);
        AckStores(a, b, w, start, v);
      } else {
        QueueActs(a, b, w);
        NoNewSuccess(a.g, b.g, w, first, v);
        SameHistory(a, b, w);
        StillStored(a, b, start, v);
      }
    }
  }

  lemma JointFirst(a: Joint, first: nat, start: nat)
    requires JointInv(a, first, start)
    ensures G.Inv(a.g, first) && Kept(a, start)
  {
  }

  lemma QueueActs(a: Joint, b: Joint, w: nat)
    requires QueueStep(a, b, w)
    ensures GoodAction(a.g, b.g, w)
  {
  }

  lemma SucceedsInFlight(a: Joint, b: Joint, w: nat, first: nat, start: nat)
    requires JointInv(a, first, start) && QueueStep(a, b, w) && G.Succeed(a.g, b.g, w)
    ensures a.s.up.Some? && w < |a.g.requests| && Acknowledge(a.s, b.s, a.s.up.value, a.g.requests[w].sync)
    ensures w < |a.g.pcs| && a.g.pcs[w].Writing? && a.s.up.value.inflight == Some(a.g.pcs[w].record) && a.s.durable <= |a.s.history|
    ensures Kept(a, start) && start <= |a.s.history|
  {
    WriterIsFront(a.g, w, first);
    hide G.Inv, Kept;
  }

  /** A step that is no acknowledgement leaves the history alone. */
  lemma SameHistory(a: Joint, b: Joint, w: nat)
    requires QueueStep(a, b, w) && !G.Succeed(a.g, b.g, w)
    ensures b.s.history == a.s.history && b.s.durable == a.s.durable
  {
    hide GoodAction, G.Succeed, G.AddRecord;
  }

  lemma StillStored(a: Joint, b: Joint, start: nat, v: nat)
    requires Kept(a, start) && G.Succeeded(a.g, v) && v < |a.g.requests| && v < |b.g.requests| && a.g.requests[v] == b.g.requests[v]
    requires b.s.history == a.s.history && b.s.durable == a.s.durable
    ensures Stored(b.s, start, G.OpsOf(b.g.requests[v]), b.g.requests[v].sync)
  {
    hide G.Succeeded, G.OpsOf, Within;
  }

  lemma AckStores(a: Joint, b: Joint, w: nat, start: nat, v: nat)
    requires a.s.up.Some? && w < |a.g.requests| && Acknowledge(a.s, b.s, a.s.up.value, a.g.requests[w].sync)
    requires w < |a.g.pcs| && a.g.pcs[w].Writing? && a.s.up.value.inflight == Some(a.g.pcs[w].record) && a.s.durable <= |a.s.history|
    requires Kept(a, start) && start <= |a.s.history| && b.g.requests == a.g.requests && v < |a.g.requests|
    requires G.Succeeded(a.g, v) || (Within(G.OpsOf(a.g.requests[v]), a.g.pcs[w].record.ops) && (a.g.requests[v].sync ==> a.g.requests[w].sync))
    ensures Stored(b.s, start, G.OpsOf(b.g.requests[v]), b.g.requests[v].sync)
  {
    hide G.OpsOf, G.Succeeded, Within;
    var ops, sync, h := G.OpsOf(a.g.requests[v]), a.g.requests[v].sync, b.s.history;
    if G.Succeeded(a.g, v) {
      var k :| start <= k < |a.s.history| && Within(ops, a.s.history[k].ops) && (sync ==> k < a.s.durable);
      assert h[k] == a.s.history[k];
    } else {
      assert h[|h| - 1] == a.g.pcs[w].record;
    }
  }

  lemma {:induction false} JointRunInv(js: seq<Joint>, i: nat)
    requires JointRun(js) && i < |js|
    ensures JointInv(js[i], js[0].s.up.value.lastSequence + 1, |js[0].s.history|)
  {
    hide JointInv, JointStep;
    if i == 0 {
      StartsJoint(js);
    } else {
      JointRunInv(js, i - 1);
      assert JointStep(js[i - 1], js[i]);
      JointStepInv(js[i - 1], js[i], js[0].s.up.value.lastSequence + 1, |js[0].s.history|);
    }
  }

  lemma JointStepInv(a: Joint, b: Joint, first: nat, start: nat)
    requires JointInv(a, first, start) && JointStep(a, b)
    ensures JointInv(b, first, start)
  {
    hide Background, QueueStep, G.Inv, Inv, Matches, Kept;
    if w :| QueueStep(a, b, w) {
      QueueMatches(a, b, w, first, start);
      QueueInv(a, b, w, first, start);
      QueueKeeps(a, b, w, first, start);
    } else {
      var ev :| Background(a, b, ev);
      BackgroundKeeps(a, b, ev, first, start);
    }
  }

  /** Whoever is answered with success has its batch, whole, in the acknowledged history; and whoever
      asked for a sync has it in the part that no crash takes away. */
  lemma AnsweredIsKept(js: seq<Joint>, i: nat, w: nat)
    requires JointRun(js) && i < |js| && G.Succeeded(js[i].g, w)
    ensures var r := js[i].g.requests[w];
      Stored(js[i].s, |js[0].s.history|, G.OpsOf(r), r.sync)
  {
    JointRunInv(js, i);
  }

  /** The queue is never held up by the database: every action has its step. */
  lemma QueueGoesOn(js: seq<Joint>, i: nat, w: nat, g': G.State) returns (next: Joint)
    requires JointRun(js) && i < |js| && GoodAction(js[i].g, g', w)
    ensures next.g == g' && JointStep(js[i], next)
  {
    JointRunInv(js, i);
    var a := js[i];
    var s', m' := ActionIsWrite(a.g, g', w, js[0].s.up.value.lastSequence + 1, a.s, a.s.up.value, |js[0].s.history|);
    next := Joint(g', s');
    assert QueueStep(a, next, w);
  }
}
