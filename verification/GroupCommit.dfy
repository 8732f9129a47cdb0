/** Group commit (DBImpl::Write and BuildBatchGroup in db/db_impl).

    Writers queue up; the one in front writes a batch for a prefix of the queue
    and answers for all of it.  Each step below is what a thread does while it
    holds the mutex, or one action of the front writer while it does not. */
module GroupCommit {
  import opened Options
  import opened Keys
  import opened History

  datatype Batch = Batch(ops: seq<Op>, bytes: nat)

  /** A call of Write; a compaction request has no batch. */
  datatype Request = Request(batch: Option<Batch>, sync: bool)

  function OpsOf(r: Request): seq<Op> {
    if r.batch.Some? then r.batch.value.ops else []
  }

  function Bytes(rs: seq<Request>): nat {
    if rs == [] then 0
    else Bytes(rs[..|rs| - 1]) + if rs[|rs| - 1].batch.Some? then rs[|rs| - 1].batch.value.bytes else 0
  }

  /** The operations of the requests, in queue order. */
  function Ops(rs: seq<Request>): seq<Op> {
    if rs == [] then [] else Ops(rs[..|rs| - 1]) + OpsOf(rs[|rs| - 1])
  }

  /** How large a group may grow: a small first batch should not wait for a large one. */
  function MaxBytes(first: nat): nat {
    if first <= 0x2_0000 then first + 0x2_0000 else 0x10_0000
  }

  /** Request i may join the group of the requests before it. */
  ghost predicate MayJoin(rs: seq<Request>, i: nat)
    requires 0 < i < |rs| && rs[0].batch.Some?
  {
    && (rs[i].sync ==> rs[0].sync)
    && (rs[i].batch.Some? ==> Bytes(rs[..i + 1]) <= MaxBytes(rs[0].batch.value.bytes))
  }

  /** All of the first n may join. */
  ghost predicate Joined(rs: seq<Request>, n: nat)
    requires 1 <= n <= |rs| && rs[0].batch.Some?
  {
    forall i :: 1 <= i < n ==> MayJoin(rs, i)
  }

  /** The first n requests form the group: the longest prefix in which everyone may join. */
  ghost predicate IsGroup(rs: seq<Request>, n: nat)
    requires rs != [] && rs[0].batch.Some?
  {
    && 1 <= n <= |rs|
    && Joined(rs, n)
    && (n < |rs| ==> !MayJoin(rs, n))
  }

  /** `ops` is the batch that stands for the whole group, and n names its last writer. */
  method BuildBatchGroup(writers: seq<Request>) returns (n: nat, ops: seq<Op>)
    requires writers != [] && writers[0].batch.Some?
    ensures IsGroup(writers, n) && ops == Ops(writers[..n])
  {
    var first := writers[0];
    var size := first.batch.value.bytes;
    var maxSize := 0x10_0000;
    if size <= 0x2_0000 {
      maxSize := size + 0x2_0000;
    }
    ops, n := first.batch.value.ops, 1;
    assert writers[..1][..0] == [];
    for i := 1 to |writers|
      invariant n == i && ops == Ops(writers[..n]) && size == Bytes(writers[..n])
      invariant maxSize == MaxBytes(first.batch.value.bytes)
      invariant forall j :: 1 <= j < n ==> MayJoin(writers, j)
    {
      var w := writers[i];
      assert writers[..i + 1][..i] == writers[..i];
      if w.sync && !first.sync {
        break;
      }
      if w.batch.Some? {
        size := size + w.batch.value.bytes;
        if size > maxSize {
          break;
        }
        ops := ops + w.batch.value.ops;
      }
      n := i + 1;
    }
  }

  lemma {:induction false} BytesAdd(a: seq<Request>, b: seq<Request>)
    ensures Bytes(a + b) == Bytes(a) + Bytes(b)
  {
    if b == [] {
      assert a + b == a;
    } else {
      assert (a + b)[..|a + b| - 1] == a + b[..|b| - 1];
      BytesAdd(a, b[..|b| - 1]);
    }
  }

  lemma {:induction false} OpsAdd(a: seq<Request>, b: seq<Request>)
    ensures Ops(a + b) == Ops(a) + Ops(b)
  {
    if b == [] {
      assert a + b == a;
    } else {
      assert (a + b)[..|a + b| - 1] == a + b[..|b| - 1];
      OpsAdd(a, b[..|b| - 1]);
    }
  }

  /** What the requests after the first add up to. */
  lemma AfterFirst(rs: seq<Request>, n: nat)
    requires 1 <= n <= |rs| && rs[0].batch.Some?
    ensures Bytes(rs[..n]) == rs[0].batch.value.bytes + Bytes(rs[1..n])
  {
    assert rs[..1] + rs[1..n] == rs[..n];
    BytesAdd(rs[..1], rs[1..n]);
    assert rs[..1][..0] == [];
  }

  /** Exactly which requests go with the first: with a first one that does not sync, none that does;
      beside a first batch of up to 128 KB, at most another 128 KB; with a larger one, no more than
      1 MB in all; and no fewer than that. */
  lemma GroupExactly(rs: seq<Request>, n: nat)
    requires rs != [] && rs[0].batch.Some?
    ensures IsGroup(rs, n) <==>
      && 1 <= n <= |rs|
      && (forall i :: 0 <= i < n && rs[i].sync ==> rs[0].sync)
      && ((forall i :: 1 <= i < n ==> rs[i].batch.None?)
          || if rs[0].batch.value.bytes <= 131072 then Bytes(rs[1..n]) <= 131072 else Bytes(rs[..n]) <= 1048576)
      && (n < |rs| ==>
          || (rs[n].sync && !rs[0].sync)
          || (rs[n].batch.Some? && if rs[0].batch.value.bytes <= 131072 then Bytes(rs[1..n + 1]) > 131072 else Bytes(rs[..n + 1]) > 1048576))
  {
    if 1 <= n <= |rs| {
      AfterFirst(rs, n);
      JoinedExactly(rs, n);
      if n < |rs| {
        AfterFirst(rs, n + 1);
      }
    }
  }

  lemma {:induction false} JoinedExactly(rs: seq<Request>, n: nat)
    requires 1 <= n <= |rs| && rs[0].batch.Some?
    ensures Joined(rs, n) <==>
      && (forall i :: 0 <= i < n && rs[i].sync ==> rs[0].sync)
      && ((forall i :: 1 <= i < n ==> rs[i].batch.None?) || Bytes(rs[..n]) <= MaxBytes(rs[0].batch.value.bytes))
  {
    if n > 1 {
      JoinedExactly(rs, n - 1);
      BytesGrow(rs, n - 1, n);
      assert rs[..n][..n - 1] == rs[..n - 1];
      hide MaxBytes;
      assert Joined(rs, n) <==> Joined(rs, n - 1) && MayJoin(rs, n - 1);
    }
  }

  lemma BytesGrow(rs: seq<Request>, m: nat, n: nat)
    requires m <= n <= |rs|
    ensures Bytes(rs[..m]) <= Bytes(rs[..n])
  {
    assert rs[..m] + rs[m..n] == rs[..n];
    BytesAdd(rs[..m], rs[m..n]);
  }

  // ---------- the machine ----------

  datatype Pc =
    | Waiting
    | Preparing
    | Writing(n: nat, record: Record, logged: bool, inserted: nat)
    | Returned(ok: bool)

  /** The sequence numbers that one writer's batch got. */
  datatype Slot = Slot(writer: nat, first: nat, ops: seq<Op>, ok: bool)

  /** Writers are numbered in the order in which they enter the queue.  `done` is the answer
      left for a waiting writer; `slots` records the sequence numbers given out so far. */
  datatype State = State(requests: seq<Request>, queue: seq<nat>, pcs: seq<Pc>, done: seq<Option<bool>>,
                         log: seq<Record>, mem: set<Entry>, lastSequence: SequenceNumber, broken: bool,
                         slots: seq<Slot>)

  predicate Active(pc: Pc) {
    pc.Preparing? || pc.Writing?
  }

  predicate Shaped(s: State) {
    |s.pcs| == |s.done| == |s.requests| && forall i :: 0 <= i < |s.queue| ==> s.queue[i] < |s.requests|
  }

  function Queued(s: State): seq<Request>
    requires Shaped(s)
  {
    seq(|s.queue|, i requires 0 <= i < |s.queue| => s.requests[s.queue[i]])
  }

  ghost predicate Arrive(s: State, s': State, r: Request) {
    s' == s.(requests := s.requests + [r], queue := s.queue + [|s.requests|], pcs := s.pcs + [Waiting], done := s.done + [None])
  }

  /** A waiting writer finds that it was answered. */
  ghost predicate ReturnAnswered(s: State, s': State, w: nat) {
    && Shaped(s) && w < |s.pcs| && s.pcs[w].Waiting? && s.done[w].Some?
    && s' == s.(pcs := s.pcs[w := Returned(s.done[w].value)])
  }

  /** A waiting writer finds itself in front. */
  ghost predicate Front(s: State, s': State, w: nat) {
    && Shaped(s) && w < |s.pcs| && s.pcs[w].Waiting? && s.done[w].None? && s.queue != [] && s.queue[0] == w
    && s' == s.(pcs := s.pcs[w := Preparing])
  }

  /** Pop the first n writers, answer the others and return. */
  function Answer(s: State, w: nat, n: nat, ok: bool): State
    requires Shaped(s) && w < |s.pcs| && n <= |s.queue|
  {
    s.(queue := s.queue[n..],
       done := seq(|s.done|, i requires 0 <= i < |s.done| => if i != w && i in s.queue[..n] then Some(ok) else s.done[i]),
       pcs := s.pcs[w := Returned(ok)])
  }

  /** MakeRoomForWrite fails, as it always does after a failed sync. */
  ghost predicate NoRoom(s: State, s': State, w: nat) {
    && Shaped(s) && w < |s.pcs| && s.pcs[w].Preparing? && s.queue != []
    && s' == Answer(s, w, 1, false)
  }

  /** A request without a batch only makes room. */
  ghost predicate NoBatch(s: State, s': State, w: nat) {
    && Shaped(s) && w < |s.pcs| && s.pcs[w].Preparing? && s.queue != [] && s.requests[w].batch.None? && !s.broken
    && s' == Answer(s, w, 1, true)
  }

  ghost predicate BuildGroup(s: State, s': State, w: nat, n: nat) {
    && Shaped(s) && w < |s.pcs| && s.pcs[w].Preparing? && s.queue != [] && !s.broken
    && Queued(s)[0].batch.Some? && IsGroup(Queued(s), n)
    && var r := Record(s.lastSequence + 1, Ops(Queued(s)[..n]));
       && Fits(r)
       && s' == s.(pcs := s.pcs[w := Writing(n, r, false, 0)])
  }

  ghost predicate AddRecord(s: State, s': State, w: nat) {
    && w < |s.pcs| && s.pcs[w].Writing? && !s.pcs[w].logged
    && s' == s.(log := s.log + [s.pcs[w].record], pcs := s.pcs[w := s.pcs[w].(logged := true)])
  }

  /** The memtable takes one operation at a time while readers look at it. */
  ghost predicate InsertNext(s: State, s': State, w: nat) {
    && w < |s.pcs| && s.pcs[w].Writing? && s.pcs[w].logged
    && var pc := s.pcs[w];
       && Fits(pc.record) && pc.inserted < |pc.record.ops|
       && s' == s.(mem := s.mem + {OpEntry(pc.record.ops[pc.inserted], pc.record.first + pc.inserted)},
                   pcs := s.pcs[w := pc.(inserted := pc.inserted + 1)])
  }

  /** The slots of a group's batches. */
  function Slots(rs: seq<Request>, base: nat, first: nat, ok: bool): seq<Slot> {
    if rs == [] then []
    else
      var front := rs[..|rs| - 1];
      Slots(front, base, first, ok)
      + if rs[|rs| - 1].batch.None? then [] else [Slot(base + |front|, first + |Ops(front)|, OpsOf(rs[|rs| - 1]), ok)]
  }

  /** The sequence numbers are used up whether or not the write worked. */
  function Publish(s: State, w: nat, ok: bool): State
    requires Shaped(s) && w < |s.pcs| && s.pcs[w].Writing? && s.pcs[w].n <= |s.queue|
    requires s.lastSequence + |s.pcs[w].record.ops| <= MAX_SEQUENCE
  {
    var pc := s.pcs[w];
    Answer(s, w, pc.n, ok).(lastSequence := s.lastSequence + |pc.record.ops|,
                            slots := s.slots + Slots(Queued(s)[..pc.n], w, pc.record.first, ok))
  }

  ghost predicate CanPublish(s: State, w: nat) {
    && Shaped(s) && w < |s.pcs| && s.pcs[w].Writing? && s.pcs[w].n <= |s.queue|
    && s.lastSequence + |s.pcs[w].record.ops| <= MAX_SEQUENCE
  }

  ghost predicate Succeed(s: State, s': State, w: nat) {
    && CanPublish(s, w) && s.pcs[w].logged && s.pcs[w].inserted == |s.pcs[w].record.ops|
    && s' == Publish(s, w, true)
  }

  /** The log write fails, or the sync after it; then nothing is inserted. */
  ghost predicate Fail(s: State, s': State, w: nat, syncError: bool) {
    && CanPublish(s, w) && s.pcs[w].inserted == 0 && (syncError ==> s.pcs[w].logged)
    && s' == Publish(s, w, false).(broken := s.broken || syncError)
  }

  ghost predicate ThreadStep(s: State, s': State, w: nat) {
    || ReturnAnswered(s, s', w) || Front(s, s', w) || NoRoom(s, s', w) || NoBatch(s, s', w)
    || (exists n :: BuildGroup(s, s', w, n)) || AddRecord(s, s', w) || InsertNext(s, s', w)
    || Succeed(s, s', w) || Fail(s, s', w, true) || Fail(s, s', w, false)
  }

  ghost predicate Step(s: State, s': State) {
    (exists r :: Arrive(s, s', r)) || (exists w :: ThreadStep(s, s', w))
  }

  // ---------- the invariant ----------

  /** The answer a writer has been given, whether or not it has noticed. */
  function AnswerOf(s: State, w: nat): Option<bool>
    requires w < |s.pcs| == |s.done|
  {
    if s.pcs[w].Returned? then Some(s.pcs[w].ok) else s.done[w]
  }

  /** Number of writers that have left the queue; the front writer's own number if there is one. */
  function Base(s: State): int {
    |s.requests| - |s.queue|
  }

  /** First in, first out: the queue is everyone who arrived after the writers already answered. */
  ghost predicate Fifo(s: State) {
    && |s.pcs| == |s.done| == |s.requests| && |s.queue| <= |s.requests|
    && (forall i :: 0 <= i < |s.queue| ==> s.queue[i] == Base(s) + i)
    && (forall w :: 0 <= w < |s.pcs| ==> (AnswerOf(s, w).Some? <==> w < Base(s)))
    && (forall w :: 0 <= w < |s.pcs| && s.pcs[w].Returned? && s.done[w].Some? ==> s.done[w].value == s.pcs[w].ok)
    && (forall w :: 0 <= w < |s.pcs| && Active(s.pcs[w]) ==> w == Base(s))
  }

  ghost predicate SlotHas(slot: Slot, e: Entry) {
    slot.ok && HasOp(slot.ops, slot.first, |slot.ops|, e)
  }

  /** e is one of the first n operations of a batch that starts at `first`. */
  ghost predicate HasOp(ops: seq<Op>, first: nat, n: nat, e: Entry)
    requires n <= |ops|
  {
    first <= e.key.sn < first + n && e == OpEntry(ops[e.key.sn - first], e.key.sn)
  }

  ghost predicate InSlots(slots: seq<Slot>, e: Entry) {
    exists k :: 0 <= k < |slots| && SlotHas(slots[k], e)
  }

  /** e is an operation of the batch being written that is already in the memtable. */
  ghost predicate InProgress(s: State, e: Entry) {
    0 <= Base(s) < |s.pcs| && s.pcs[Base(s)].Writing? &&
    var pc := s.pcs[Base(s)];
    pc.inserted <= |pc.record.ops| && HasOp(pc.record.ops, pc.record.first, pc.inserted, e)
  }

  /** The slots are consecutive ranges of sequence numbers from `start` to before `end`, and
      belong to different writers from `from` to before `to`, in the order of the queue. */
  ghost predicate Chained(slots: seq<Slot>, start: int, end: int, from: int, to: int) {
    if slots == [] then start == end && from <= to
    else
      var last := slots[|slots| - 1];
      && from <= last.writer < to && last.first + |last.ops| == end
      && Chained(slots[..|slots| - 1], start, last.first, from, last.writer)
  }

  ghost predicate Answered(s: State, w: nat)
    requires w < |s.pcs| == |s.done| == |s.requests|
  {
    (AnswerOf(s, w) == Some(true) && s.requests[w].batch.Some?) ==>
      exists k :: 0 <= k < |s.slots| && s.slots[k].ok && s.slots[k].writer == w && s.slots[k].ops == OpsOf(s.requests[w])
  }

  ghost predicate WritingInv(s: State, w: nat)
    requires w < |s.pcs| && Shaped(s)
  {
    s.pcs[w].Writing? ==>
      var pc := s.pcs[w];
      && 1 <= pc.n <= |s.queue| && pc.record == Record(s.lastSequence + 1, Ops(Queued(s)[..pc.n]))
      && pc.inserted <= |pc.record.ops| && (pc.inserted > 0 ==> pc.logged) && (pc.logged ==> pc.record in s.log)
      && (forall i :: 0 <= i < pc.n && Queued(s)[i].sync ==> s.requests[w].sync)
  }

  ghost predicate Inv(s: State, start: nat) {
    && Fifo(s)
    && (forall w :: 0 <= w < |s.pcs| ==> WritingInv(s, w) && Answered(s, w))
    && Chained(s.slots, start, s.lastSequence + 1, 0, Base(s))
    && (forall e :: e in s.mem <==> InSlots(s.slots, e) || InProgress(s, e))
  }

  lemma StartInv(last: SequenceNumber)
    ensures Inv(State([], [], [], [], [], {}, last, false, []), last + 1)
  {
  }

  // ---------- slots of a group ----------

  lemma {:induction false} SlotsCover(rs: seq<Request>, base: nat, first: nat, ok: bool, e: Entry)
    ensures InSlots(Slots(rs, base, first, ok), e) <==> ok && HasOp(Ops(rs), first, |Ops(rs)|, e)
  {
    if rs != [] {
      var front, last := rs[..|rs| - 1], rs[|rs| - 1];
      var a := Slots(front, base, first, ok);
      SlotsCover(front, base, first, ok, e);
      HasOpAppend(Ops(front), OpsOf(last), first, e);
      if last.batch.Some? {
        var slot := Slot(base + |front|, first + |Ops(front)|, OpsOf(last), ok);
        assert Slots(rs, base, first, ok) == a + [slot];
        InSlotsAppend(a, [slot], e);
        assert InSlots([slot], e) <==> SlotHas(slot, e) by {
          assert [slot][0] == slot;
        }
      } else {
        assert a + [] == a;
      }
    }
  }

  lemma InSlotsAppend(a: seq<Slot>, b: seq<Slot>, e: Entry)
    ensures InSlots(a + b, e) <==> InSlots(a, e) || InSlots(b, e)
  {
    if k :| 0 <= k < |a| && SlotHas(a[k], e) {
      assert (a + b)[k] == a[k];
    }
    if k :| 0 <= k < |b| && SlotHas(b[k], e) {
      assert (a + b)[|a| + k] == b[k];
    }
  }

  lemma {:induction false} SlotsChained(rs: seq<Request>, base: nat, first: nat, ok: bool)
    ensures Chained(Slots(rs, base, first, ok), first, first + |Ops(rs)|, base, base + |rs|)
  {
    if rs != [] {
      var front, last := rs[..|rs| - 1], rs[|rs| - 1];
      var a := Slots(front, base, first, ok);
      SlotsChained(front, base, first, ok);
      if last.batch.Some? {
        var b := [Slot(base + |front|, first + |Ops(front)|, OpsOf(last), ok)];
        assert b[..0] == [];
        ChainedAppend(a, b, first, first + |Ops(front)|, first + |Ops(rs)|, base, base + |front|, base + |rs|);
      } else {
        assert a + [] == a;
        ChainedWiden(a, first, first + |Ops(rs)|, base, base + |front|, base + |rs|);
      }
    }
  }

  lemma ChainedWiden(a: seq<Slot>, start: int, end: int, from: int, via: int, to: int)
    requires Chained(a, start, end, from, via) && via <= to
    ensures Chained(a, start, end, from, to)
  {
  }

  lemma {:induction false} SlotOf(rs: seq<Request>, base: nat, first: nat, i: nat) returns (k: nat)
    requires i < |rs| && rs[i].batch.Some?
    ensures k < |Slots(rs, base, first, true)|
    ensures var slot := Slots(rs, base, first, true)[k]; slot.ok && slot.writer == base + i && slot.ops == OpsOf(rs[i])
  {
    if i == |rs| - 1 {
      k := |Slots(rs, base, first, true)| - 1;
    } else {
      k := SlotOf(rs[..|rs| - 1], base, first, i);
    }
  }

  lemma {:induction false} ChainedAppend(a: seq<Slot>, b: seq<Slot>, start: int, mid: int, end: int, from: int, via: int, to: int)
    requires Chained(a, start, mid, from, via) && Chained(b, mid, end, via, to)
    ensures Chained(a + b, start, end, from, to)
  {
    if b == [] {
      assert a + b == a;
    } else {
      assert (a + b)[..|a + b| - 1] == a + b[..|b| - 1];
      ChainedAppend(a, b[..|b| - 1], start, mid, b[|b| - 1].first, from, via, b[|b| - 1].writer);
      ChainedSpan(b, mid, end, via, to);
    }
  }

  lemma {:induction false} ChainedSpan(a: seq<Slot>, start: int, end: int, from: int, to: int)
    requires Chained(a, start, end, from, to)
    ensures start <= end && from <= to
    ensures forall k :: 0 <= k < |a| ==> start <= a[k].first && a[k].first + |a[k].ops| <= end && from <= a[k].writer < to
  {
    if a != [] {
      ChainedSpan(a[..|a| - 1], start, a[|a| - 1].first, from, a[|a| - 1].writer);
    }
  }

  /** Different slots are different writers with disjoint ranges, both in queue order. */
  lemma {:induction false} SlotsDisjoint(a: seq<Slot>, start: int, end: int, from: int, to: int, j: nat, k: nat)
    requires Chained(a, start, end, from, to) && j < k < |a|
    ensures a[j].writer < a[k].writer && a[j].first + |a[j].ops| <= a[k].first
  {
    var n := |a| - 1;
    if k < n {
      SlotsDisjoint(a[..n], start, a[n].first, from, a[n].writer, j, k);
    } else {
      ChainedSpan(a[..n], start, a[n].first, from, a[n].writer);
    }
  }

  lemma HasOpAppend(a: seq<Op>, b: seq<Op>, first: nat, e: Entry)
    ensures HasOp(a + b, first, |a + b|, e) <==> HasOp(a, first, |a|, e) || HasOp(b, first + |a|, |b|, e)
  {
  }

  // ---------- every step keeps the invariant ----------

  lemma ArriveInv(s: State, s': State, start: nat, r: Request)
    requires Inv(s, start) && Arrive(s, s', r)
    ensures Inv(s', start)
  {
    forall w | 0 <= w < |s'.pcs|
      ensures AnswerOf(s', w) == if w < |s.pcs| then AnswerOf(s, w) else None
    {
    }
    assert Fifo(s');
    forall w | 0 <= w < |s'.pcs|
      ensures WritingInv(s', w) && Answered(s', w)
    {
      ArriveKeeps(s, s', start, r, w);
    }
    forall e
      ensures e in s'.mem <==> InSlots(s'.slots, e) || InProgress(s', e)
    {
      assert e in s.mem <==> InSlots(s.slots, e) || InProgress(s, e);
    }
  }

  lemma ArriveKeeps(s: State, s': State, start: nat, r: Request, w: nat)
    requires Inv(s, start) && Arrive(s, s', r) && Shaped(s') && w < |s'.pcs|
    ensures WritingInv(s', w) && Answered(s', w)
  {
    hide Chained, InSlots, InProgress, Ops;
    if w < |s.pcs| {
      assert WritingInv(s, w) && Answered(s, w);
      if s.pcs[w].Writing? {
        assert Queued(s')[..s.pcs[w].n] == Queued(s)[..s.pcs[w].n];
      }
    }
  }

  /** Steps that change one writer's state and neither the queue nor what is answered. */
  ghost predicate Advances(s: State, s': State, w: nat) {
    && Shaped(s) && w < |s.pcs| && Shaped(s')
    && s'.requests == s.requests && s'.queue == s.queue && s'.slots == s.slots && s'.lastSequence == s.lastSequence
    && s'.done == s.done && s.log <= s'.log && s'.pcs == s.pcs[w := s'.pcs[w]]
  }

  lemma AdvanceInv(s: State, s': State, start: nat, w: nat)
    requires Inv(s, start) && Advances(s, s', w)
    requires AnswerOf(s', w) == AnswerOf(s, w) && (s'.pcs[w].Returned? && s.done[w].Some? ==> s.done[w].value == s'.pcs[w].ok)
    requires (Active(s'.pcs[w]) ==> w == Base(s)) && WritingInv(s', w)
    requires forall e :: e in s'.mem <==> e in s.mem || InProgress(s', e)
    requires forall e :: InProgress(s, e) ==> InProgress(s', e)
    ensures Inv(s', start)
  {
    forall v | 0 <= v < |s'.pcs|
      ensures AnswerOf(s', v) == AnswerOf(s, v)
    {
    }
    assert Fifo(s');
    forall v | 0 <= v < |s'.pcs|
      ensures WritingInv(s', v) && Answered(s', v)
    {
      assert WritingInv(s, v) && Answered(s, v);
      assert Queued(s') == Queued(s);
    }
    forall e
      ensures e in s'.mem <==> InSlots(s'.slots, e) || InProgress(s', e)
    {
      assert e in s.mem <==> InSlots(s.slots, e) || InProgress(s, e);
    }
  }

  lemma ReturnAnsweredInv(s: State, s': State, start: nat, w: nat)
    requires Inv(s, start) && ReturnAnswered(s, s', w)
    ensures Inv(s', start)
  {
    assert AnswerOf(s, w).Some?;
    AdvanceInv(s, s', start, w);
  }

  lemma FrontInv(s: State, s': State, start: nat, w: nat)
    requires Inv(s, start) && Front(s, s', w)
    ensures Inv(s', start)
  {
    AdvanceInv(s, s', start, w);
  }

  lemma BuildGroupInv(s: State, s': State, start: nat, w: nat, n: nat)
    requires Inv(s, start) && BuildGroup(s, s', w, n)
    ensures Inv(s', start)
  {
    assert Queued(s') == Queued(s) && Queued(s)[0] == s.requests[w];
    JoinedExactly(Queued(s), n);
    AdvanceInv(s, s', start, w);
  }

  lemma AddRecordInv(s: State, s': State, start: nat, w: nat)
    requires Inv(s, start) && AddRecord(s, s', w)
    ensures Inv(s', start)
  {
    assert WritingInv(s, w);
    AdvanceInv(s, s', start, w);
  }

  lemma InsertNextInv(s: State, s': State, start: nat, w: nat)
    requires Inv(s, start) && InsertNext(s, s', w)
    ensures Inv(s', start)
  {
    assert WritingInv(s, w);
    var pc := s.pcs[w];
    var added := OpEntry(pc.record.ops[pc.inserted], pc.record.first + pc.inserted);
    forall e
      ensures InProgress(s', e) <==> InProgress(s, e) || e == added
    {
    }
    AdvanceInv(s, s', start, w);
  }

  lemma AnswerFifo(s: State, w: nat, n: nat, ok: bool)
    requires Fifo(s) && w < |s.pcs| && Active(s.pcs[w]) && 1 <= n <= |s.queue|
    ensures Fifo(Answer(s, w, n, ok)) && Base(Answer(s, w, n, ok)) == Base(s) + n
    ensures forall v :: 0 <= v < |s.pcs| ==>
              AnswerOf(Answer(s, w, n, ok), v) == (if Base(s) <= v < Base(s) + n then Some(ok) else AnswerOf(s, v))
    ensures forall v :: 0 <= v < |s.pcs| ==> !Active(Answer(s, w, n, ok).pcs[v])
  {
    var s' := Answer(s, w, n, ok);
    forall v | 0 <= v < |s.pcs|
      ensures AnswerOf(s', v) == if Base(s) <= v < Base(s) + n then Some(ok) else AnswerOf(s, v)
      ensures v in s.queue[..n] <==> Base(s) <= v < Base(s) + n
    {
      if Base(s) <= v < Base(s) + n {
        assert s.queue[..n][v - Base(s)] == v;
      }
      assert AnswerOf(s, v).Some? <==> v < Base(s);
    }
    assert AnswerOf(s, w).None?;
  }

  lemma AnswerInv(s: State, s': State, start: nat, w: nat, n: nat, ok: bool, slots: seq<Slot>)
    requires Inv(s, start) && w < |s.pcs| && Active(s.pcs[w]) && 1 <= n <= |s.queue|
    requires var a := Answer(s, w, n, ok);
             s'.requests == a.requests && s'.queue == a.queue && s'.pcs == a.pcs && s'.done == a.done
    requires s'.mem == s.mem && s'.log == s.log && s'.slots == s.slots + slots
    requires Chained(slots, s.lastSequence + 1, s'.lastSequence + 1, Base(s), Base(s) + n)
    requires forall e :: InSlots(slots, e) <==> InProgress(s, e)
    requires forall i :: 0 <= i < n && ok && Queued(s)[i].batch.Some? ==> HasSlot(slots, Base(s) + i, Queued(s)[i])
    ensures Inv(s', start)
  {
    AnswerFifo(s, w, n, ok);
    ChainedAppend(s.slots, slots, start, s.lastSequence + 1, s'.lastSequence + 1, 0, Base(s), Base(s) + n);
    forall v | 0 <= v < |s'.pcs|
      ensures AnswerOf(s', v) == AnswerOf(Answer(s, w, n, ok), v)
    {
    }
    forall v | 0 <= v < |s'.pcs|
      ensures WritingInv(s', v) && Answered(s', v)
    {
      assert !Active(Answer(s, w, n, ok).pcs[v]);
      AnsweredStill(s, s', start, n, ok, slots, v);
    }
    forall e
      ensures e in s'.mem <==> InSlots(s'.slots, e) || InProgress(s', e)
    {
      assert e in s.mem <==> InSlots(s.slots, e) || InProgress(s, e);
      InSlotsAppend(s.slots, slots, e);
    }
  }

  ghost predicate HasSlot(slots: seq<Slot>, w: nat, r: Request) {
    exists k :: 0 <= k < |slots| && slots[k].ok && slots[k].writer == w && slots[k].ops == OpsOf(r)
  }

  lemma AnsweredStill(s: State, s': State, start: nat, n: nat, ok: bool, slots: seq<Slot>, v: nat)
    requires Inv(s, start) && |s'.pcs| == |s'.done| == |s'.requests| && s'.requests == s.requests && v < |s.pcs| && n <= |s.queue|
    requires AnswerOf(s', v) == if Base(s) <= v < Base(s) + n then Some(ok) else AnswerOf(s, v)
    requires s'.slots == s.slots + slots
    requires forall i :: 0 <= i < n && ok && Queued(s)[i].batch.Some? ==> HasSlot(slots, Base(s) + i, Queued(s)[i])
    ensures Answered(s', v)
  {
    assert Answered(s, v);
    if AnswerOf(s', v) == Some(true) && s'.requests[v].batch.Some? {
      if Base(s) <= v < Base(s) + n {
        var i := v - Base(s);
        assert Queued(s)[i] == s.requests[v];
        var k :| 0 <= k < |slots| && slots[k].ok && slots[k].writer == v && slots[k].ops == OpsOf(s.requests[v]);
        assert s'.slots[|s.slots| + k] == slots[k];
      } else {
        var k :| 0 <= k < |s.slots| && s.slots[k].ok && s.slots[k].writer == v && s.slots[k].ops == OpsOf(s.requests[v]);
        assert s'.slots[k] == s.slots[k];
      }
    }
  }

  lemma NoRoomInv(s: State, s': State, start: nat, w: nat)
    requires Inv(s, start) && NoRoom(s, s', w)
    ensures Inv(s', start)
  {
    AnswerInv(s, s', start, w, 1, false, []);
  }

  lemma NoBatchInv(s: State, s': State, start: nat, w: nat)
    requires Inv(s, start) && NoBatch(s, s', w)
    ensures Inv(s', start)
  {
    assert Queued(s)[0] == s.requests[w];
    AnswerInv(s, s', start, w, 1, true, []);
  }

  lemma PublishInv(s: State, s': State, start: nat, w: nat, ok: bool)
    requires Inv(s, start) && CanPublish(s, w) && s'.(broken := s.broken) == Publish(s, w, ok)
    requires if ok then s.pcs[w].inserted == |s.pcs[w].record.ops| else s.pcs[w].inserted == 0
    ensures Inv(s', start)
  {
    assert WritingInv(s, w) && w == Base(s);
    var pc := s.pcs[w];
    var rs := Queued(s)[..pc.n];
    var slots := Slots(rs, w, pc.record.first, ok);
    SlotsChained(rs, w, pc.record.first, ok);
    forall e
      ensures InSlots(slots, e) <==> InProgress(s, e)
    {
      SlotsCover(rs, w, pc.record.first, ok, e);
    }
    forall i | 0 <= i < pc.n && ok && Queued(s)[i].batch.Some?
      ensures HasSlot(slots, Base(s) + i, Queued(s)[i])
    {
      var k := SlotOf(rs, w, pc.record.first, i);
      assert slots[k].writer == Base(s) + i;
    }
    AnswerInv(s, s', start, w, pc.n, ok, slots);
  }

  lemma StepInv(s: State, s': State, start: nat)
    requires Inv(s, start) && Step(s, s')
    ensures Inv(s', start)
  {
    hide Inv;
    if r :| Arrive(s, s', r) {
      ArriveInv(s, s', start, r);
    } else {
      var w :| ThreadStep(s, s', w);
      ThreadStepInv(s, s', start, w);
    }
  }

  lemma ThreadStepInv(s: State, s': State, start: nat, w: nat)
    requires Inv(s, start) && ThreadStep(s, s', w)
    ensures Inv(s', start)
  {
    hide Inv, Publish, Answer;
    if ReturnAnswered(s, s', w) {
      ReturnAnsweredInv(s, s', start, w);
    } else if Front(s, s', w) {
      FrontInv(s, s', start, w);
    } else if NoRoom(s, s', w) {
      NoRoomInv(s, s', start, w);
    } else if NoBatch(s, s', w) {
      NoBatchInv(s, s', start, w);
    } else if n :| BuildGroup(s, s', w, n) {
      BuildGroupInv(s, s', start, w, n);
    } else if AddRecord(s, s', w) {
      AddRecordInv(s, s', start, w);
    } else if InsertNext(s, s', w) {
      InsertNextInv(s, s', start, w);
    } else if Succeed(s, s', w) {
      SucceedInv(s, s', start, w);
    } else {
      FailInv(s, s', start, w, if Fail(s, s', w, true) then true else false);
    }
  }

  lemma SucceedInv(s: State, s': State, start: nat, w: nat)
    requires Inv(s, start) && Succeed(s, s', w)
    ensures Inv(s', start)
  {
    PublishInv(s, s', start, w, true);
  }

  lemma FailInv(s: State, s': State, start: nat, w: nat, syncError: bool)
    requires Inv(s, start) && Fail(s, s', w, syncError)
    ensures Inv(s', start)
  {
    PublishInv(s, s', start, w, false);
  }

  // ---------- what every run guarantees ----------

  ghost predicate Run(states: seq<State>, last: SequenceNumber) {
    && states != [] && states[0] == State([], [], [], [], [], {}, last, false, [])
    && forall i :: 0 <= i < |states| - 1 ==> Step(states[i], states[i + 1])
  }

  lemma {:induction false} RunInv(states: seq<State>, last: SequenceNumber, n: nat)
    requires Run(states, last) && n < |states|
    ensures Inv(states[n], last + 1)
  {
    if n == 0 {
      StartInv(last);
    } else {
      RunInv(states, last, n - 1);
      StepInv(states[n - 1], states[n], last + 1);
    }
  }

  /** Only the writer in front is ever preparing or writing: the log and the memtable have one writer. */
  lemma OneWriter(states: seq<State>, last: SequenceNumber, n: nat, v: nat, w: nat)
    requires Run(states, last) && n < |states| && v < |states[n].pcs| && w < |states[n].pcs|
    requires Active(states[n].pcs[v]) && Active(states[n].pcs[w])
    ensures v == w && states[n].queue != [] && states[n].queue[0] == v
  {
    RunInv(states, last, n);
    assert AnswerOf(states[n], v).None?;
  }

  /** Whoever asked for a sync is answered by a writer that synced. */
  lemma SyncedGroup(states: seq<State>, last: SequenceNumber, n: nat, w: nat)
    requires Run(states, last) && n + 1 < |states| && Succeed(states[n], states[n + 1], w)
    ensures forall i :: 0 <= i < states[n].pcs[w].n && Queued(states[n])[i].sync ==> states[n].requests[w].sync
  {
    RunInv(states, last, n);
    assert WritingInv(states[n], w);
  }

  lemma {:induction false} NobodyWritesBroken(states: seq<State>, last: SequenceNumber, n: nat)
    requires Run(states, last) && n < |states|
    ensures states[n].broken ==> forall w :: 0 <= w < |states[n].pcs| ==> !states[n].pcs[w].Writing?
  {
    if n > 0 {
      NobodyWritesBroken(states, last, n - 1);
      RunInv(states, last, n - 1);
      BreakingStep(states[n - 1], states[n], last + 1);
    }
  }

  lemma BreakingStep(s: State, s': State, start: nat)
    requires Inv(s, start) && Step(s, s')
    requires s.broken ==> forall w :: 0 <= w < |s.pcs| ==> !s.pcs[w].Writing?
    ensures s.broken ==> s'.broken && s'.mem == s.mem && s'.log == s.log && forall w: nat :: !Succeed(s, s', w)
    ensures s'.broken ==> forall w :: 0 <= w < |s'.pcs| ==> !s'.pcs[w].Writing?
  {
    hide WritingInv, Answered, Chained, InSlots, InProgress, IsGroup, Slots, Queued, Ops;
  }

  /** After a failed sync nothing is written or acknowledged any more. */
  lemma BrokenStays(states: seq<State>, last: SequenceNumber, n: nat)
    requires Run(states, last) && n + 1 < |states| && states[n].broken
    ensures var s, s' := states[n], states[n + 1];
      s'.broken && s'.mem == s.mem && s'.log == s.log && forall w: nat :: !Succeed(s, s', w)
  {
    hide Inv, Step, Succeed;
    RunInv(states, last, n);
    NobodyWritesBroken(states, last, n);
    BreakingStep(states[n], states[n + 1], last + 1);
  }

  /** An answer, once given, is never given again or changed; answers are given in queue order. */
  lemma AnswersStand(s: State, s': State, start: nat, v: nat)
    requires Inv(s, start) && Step(s, s') && v < |s.pcs|
    ensures |s.pcs| <= |s'.pcs| == |s'.done| && Base(s) <= Base(s')
    ensures AnswerOf(s, v).Some? ==> AnswerOf(s', v) == AnswerOf(s, v)
    ensures AnswerOf(s, v).None? && AnswerOf(s', v).Some? ==> Base(s) <= v < Base(s')
  {
    if r :| Arrive(s, s', r) {
    } else {
      var w: nat :| ThreadStep(s, s', w);
      hide WritingInv, Answered, Chained, InSlots, InProgress, IsGroup, Slots, Queued;
      if NoRoom(s, s', w) {
        AnswerFifo(s, w, 1, false);
      } else if NoBatch(s, s', w) {
        AnswerFifo(s, w, 1, true);
      } else if Succeed(s, s', w) || Fail(s, s', w, true) || Fail(s, s', w, false) {
        AnswersPublish(s, s', start, w, v);
      } else {
        KeepsAnswers(s, s', w, v);
      }
    }
  }

  lemma AnswersPublish(s: State, s': State, start: nat, w: nat, v: nat)
    requires Inv(s, start) && v < |s.pcs| && (Succeed(s, s', w) || Fail(s, s', w, true) || Fail(s, s', w, false))
    ensures |s.pcs| <= |s'.pcs| == |s'.done| && Base(s) <= Base(s')
    ensures AnswerOf(s, v).Some? ==> AnswerOf(s', v) == AnswerOf(s, v)
    ensures AnswerOf(s, v).None? && AnswerOf(s', v).Some? ==> Base(s) <= v < Base(s')
  {
    assert WritingInv(s, w);
    var n, ok := s.pcs[w].n, Succeed(s, s', w);
    assert Fifo(s);
    assert AnswerOf(s, v).Some? <==> v < Base(s);
    hide Chained, InSlots, InProgress, IsGroup, Slots, Fifo, Answered, WritingInv;
    AnswerFifo(s, w, n, ok);
    assert AnswerOf(s', v) == AnswerOf(Answer(s, w, n, ok), v);
  }

  lemma KeepsAnswers(s: State, s': State, w: nat, v: nat)
    requires Fifo(s) && v < |s.pcs|
    requires ReturnAnswered(s, s', w) || Front(s, s', w) || (exists n :: BuildGroup(s, s', w, n)) || AddRecord(s, s', w) || InsertNext(s, s', w)
    ensures |s.pcs| == |s'.pcs| == |s'.done| && Base(s) == Base(s') && AnswerOf(s', v) == AnswerOf(s, v)
  {
    hide IsGroup, Queued, Ops;
  }

  /** In the memtable, the slot's range holds the slot's operations and nothing else, or nothing
      at all; and the range is at or below the last sequence number. */
  ghost predicate Whole(s: State, slot: Slot) {
    && slot.first + |slot.ops| <= s.lastSequence + 1
    && forall e: Entry :: slot.first <= e.key.sn < slot.first + |slot.ops| ==> (e in s.mem <==> SlotHas(slot, e))
  }

  /** No read at the last sequence number sees a part of a batch: of every batch that got sequence
      numbers, all operations are in the memtable at or below it, or none has any trace there. */
  lemma NoPartialBatch(states: seq<State>, last: SequenceNumber, n: nat, k: nat)
    requires Run(states, last) && n < |states| && k < |states[n].slots|
    ensures Whole(states[n], states[n].slots[k])
  {
    hide Inv, Step, Whole;
    RunInv(states, last, n);
    WholeSlot(states[n], last + 1, k);
  }

  lemma WholeSlot(s: State, start: nat, k: nat)
    requires Inv(s, start) && k < |s.slots|
    ensures start <= s.slots[k].first && Whole(s, s.slots[k])
  {
    ChainedSpan(s.slots, start, s.lastSequence + 1, 0, Base(s));
    hide Inv, SlotHas;
    var slot := s.slots[k];
    forall e: Entry | slot.first <= e.key.sn < slot.first + |slot.ops|
      ensures e in s.mem <==> SlotHas(slot, e)
    {
      OneEntry(s, start, k, e);
    }
  }

  lemma OneEntry(s: State, start: nat, k: nat, e: Entry)
    requires Inv(s, start) && k < |s.slots|
    requires s.slots[k].first <= e.key.sn < s.slots[k].first + |s.slots[k].ops|
    ensures e in s.mem <==> SlotHas(s.slots[k], e)
  {
    hide SlotHas, Answered;
    ChainedSpan(s.slots, start, s.lastSequence + 1, 0, Base(s));
    InOwnSlot(s.slots, start, s.lastSequence + 1, 0, Base(s), k, e);
    assert e in s.mem <==> InSlots(s.slots, e) || InProgress(s, e);
    if 0 <= Base(s) < |s.pcs| {
      assert WritingInv(s, Base(s));
    }
  }

  lemma InOwnSlot(slots: seq<Slot>, start: int, end: int, from: int, to: int, k: nat, e: Entry)
    requires Chained(slots, start, end, from, to) && k < |slots|
    requires slots[k].first <= e.key.sn < slots[k].first + |slots[k].ops|
    ensures InSlots(slots, e) <==> SlotHas(slots[k], e)
  {
    if j :| 0 <= j < |slots| && SlotHas(slots[j], e) {
      if j < k {
        SlotsDisjoint(slots, start, end, from, to, j, k);
      } else if k < j {
        SlotsDisjoint(slots, start, end, from, to, k, j);
      }
    }
  }

  /** The operations are in the memtable from sequence number `first` on, for reads at the last one to see. */
  ghost predicate Seen(s: State, ops: seq<Op>, first: nat) {
    first + |ops| <= s.lastSequence + 1 && forall i :: 0 <= i < |ops| ==> OpEntry(ops[i], first + i) in s.mem
  }

  ghost predicate Succeeded(s: State, w: nat) {
    w < |s.pcs| == |s.done| == |s.requests| && s.requests[w].batch.Some? && AnswerOf(s, w) == Some(true)
  }

  /** A batch that was answered with success is in the memtable, whole, under consecutive sequence
      numbers that no other batch has. */
  lemma SuccessIsVisible(states: seq<State>, last: SequenceNumber, n: nat, w: nat) returns (first: nat)
    requires Run(states, last) && n < |states| && Succeeded(states[n], w)
    ensures last < first && Seen(states[n], OpsOf(states[n].requests[w]), first)
  {
    hide Inv, Step, Seen, Succeeded;
    RunInv(states, last, n);
    first := SuccessInState(states[n], last + 1, w);
  }

  lemma SuccessInState(s: State, start: nat, w: nat) returns (first: nat)
    requires Inv(s, start) && Succeeded(s, w)
    ensures start <= first && Seen(s, OpsOf(s.requests[w]), first)
  {
    var k := AnsweredSlot(s, start, w);
    first := s.slots[k].first;
    hide Inv, Succeeded;
    WholeSlot(s, start, k);
    SlotSeen(s, k);
  }

  lemma AnsweredSlot(s: State, start: nat, w: nat) returns (k: nat)
    requires Inv(s, start) && Succeeded(s, w)
    ensures k < |s.slots| && s.slots[k].ok && s.slots[k].ops == OpsOf(s.requests[w])
  {
    assert Answered(s, w);
    hide Inv;
    k :| 0 <= k < |s.slots| && s.slots[k].ok && s.slots[k].writer == w && s.slots[k].ops == OpsOf(s.requests[w]);
  }

  lemma SlotSeen(s: State, k: nat)
    requires k < |s.slots| && s.slots[k].ok && Whole(s, s.slots[k])
    ensures forall i :: 0 <= i < |s.slots[k].ops| ==> OpEntry(s.slots[k].ops[i], s.slots[k].first + i) in s.mem
  {
    forall i | 0 <= i < |s.slots[k].ops|
      ensures OpEntry(s.slots[k].ops[i], s.slots[k].first + i) in s.mem
    {
      var e := OpEntry(s.slots[k].ops[i], s.slots[k].first + i);
      assert e.key.sn == s.slots[k].first + i && SlotHas(s.slots[k], e);
    }
  }

  /** Different writers' sequence ranges do not meet and are in the order of the queue. */
  lemma RangesInOrder(states: seq<State>, last: SequenceNumber, n: nat, j: nat, k: nat)
    requires Run(states, last) && n < |states| && j < k < |states[n].slots|
    ensures states[n].slots[j].writer < states[n].slots[k].writer
    ensures states[n].slots[j].first + |states[n].slots[j].ops| <= states[n].slots[k].first
  {
    RunInv(states, last, n);
    SlotsDisjoint(states[n].slots, last + 1, states[n].lastSequence + 1, 0, Base(states[n]), j, k);
  }
}
