/** Searches of the skip list that run while a key is being inserted (db/skiplist.h:21-28).

    Each step is one store of the writer or one load of a reader; any
    interleaving is a run.  A reader may see an old maximum height, and the
    links of a new node hold garbage until they are stored. */
module SkipListReaders {
  import opened Options
  import opened Keys
  import opened SkipLists

  datatype Writer =
    | Idle
    | Chosen(key: Key, links: seq<Option<nat>>, prev: seq<nat>)
    | Linking(x: nat, prev: seq<nat>, i: nat, own: bool)

  /** `since` remembers the keys present when the search began. */
  datatype Reader =
    | Resting
    | Searching(q: Query, x: nat, level: nat, since: set<Key>)
    | Answered(q: Query, r: Option<nat>, since: set<Key>)

  datatype State = State(nodes: seq<Node>, maxHeight: nat, lists: seq<seq<nat>>, writer: Writer, reader: Reader)

  ghost function Present(s: State): set<Key> {
    if s.lists == [] then {} else set n | n in s.lists[0] && n < |s.nodes| :: s.nodes[n].key
  }

  // ---- the writer's steps ----

  /** The search for predecessors, which only the writer's own stores could disturb, and the
      store of a larger maximum height. */
  ghost predicate Begin(s: State, s': State, key: Key, links: seq<Option<nat>>, prev: seq<nat>) {
    && s.writer.Idle? && key !in Present(s) && 1 <= |links| <= MAX_HEIGHT && |prev| == s.maxHeight <= |s.lists|
    && (forall l :: 0 <= l < s.maxHeight ==> StopsAfter(s.nodes, s.lists[l], FirstAtOrAfter(key), prev[l]))
    && s' == if |links| > s.maxHeight
             then s.(maxHeight := |links|, writer := Chosen(key, links, prev + seq(|links| - s.maxHeight, _ => 0)))
             else s.(writer := Chosen(key, links, prev))
  }

  ghost predicate Alloc(s: State, s': State) {
    && s.writer.Chosen?
    && s' == s.(nodes := s.nodes + [Node(s.writer.key, s.writer.links)], writer := Linking(|s.nodes|, s.writer.prev, 0, false))
  }

  ghost predicate MayLink(s: State) {
    && s.writer.Linking? && s.writer.x < |s.nodes| && s.writer.i < |s.nodes[s.writer.x].next| && s.writer.i < |s.writer.prev|
    && s.writer.prev[s.writer.i] < |s.nodes| && s.writer.i < |s.nodes[s.writer.prev[s.writer.i]].next|
    && s.writer.i < |s.lists|
  }

  ghost predicate StoreOwn(s: State, s': State) {
    && MayLink(s) && !s.writer.own
    && var w := s.writer;
       s' == s.(nodes := WithNext(s.nodes, w.x, w.i, s.nodes[w.prev[w.i]].next[w.i]), writer := w.(own := true))
  }

  ghost predicate StorePrev(s: State, s': State, p: nat) {
    && MayLink(s) && s.writer.own
    && var w := s.writer;
       && Stops(s.nodes, s.lists[w.i], FirstAtOrAfter(s.nodes[w.x].key), w.prev[w.i], p)
       && s' == s.(nodes := WithNext(s.nodes, w.prev[w.i], w.i, Some(w.x)),
                   lists := s.lists[w.i := Spliced(s.lists[w.i], p, w.x)],
                   writer := w.(i := w.i + 1, own := false))
  }

  ghost predicate Done(s: State, s': State) {
    && s.writer.Linking? && s.writer.x < |s.nodes| && s.writer.i == |s.nodes[s.writer.x].next|
    && s' == s.(writer := Idle)
  }

  ghost predicate WriterStep(s: State, s': State) {
    || (exists key, links, prev :: Begin(s, s', key, links, prev))
    || Alloc(s, s') || StoreOwn(s, s') || (exists p :: StorePrev(s, s', p)) || Done(s, s')
  }

  // ---- a reader's steps ----

  ghost predicate BeginSearch(s: State, s': State, q: Query, level: nat) {
    && !s.reader.Searching? && level < s.maxHeight
    && s' == s.(reader := Searching(q, 0, level, Present(s)))
  }

  ghost predicate Load(s: State, s': State) {
    && s.reader.Searching? && s.reader.x < |s.nodes| && s.reader.level < |s.nodes[s.reader.x].next|
    && var r := s.reader;
       var next := s.nodes[r.x].next[r.level];
       && (next.Some? ==> next.value < |s.nodes|)
       && s' == s.(reader := if next.Some? && Passes(s.nodes, r.q, next.value) then r.(x := next.value)
                             else if r.level > 0 then r.(level := r.level - 1)
                             else Answered(r.q, Result(r.q, r.x, next), r.since))
  }

  ghost predicate ReaderStep(s: State, s': State) {
    (exists q, level :: BeginSearch(s, s', q, level)) || Load(s, s')
  }

  ghost predicate Step(s: State, s': State) {
    WriterStep(s, s') || ReaderStep(s, s')
  }

  // ---- the invariant ----

  ghost predicate WriterInv(s: State)
    requires Levels(s.nodes, s.lists)
  {
    match s.writer
    case Idle => true
    case Chosen(key, links, prev) =>
      && 1 <= |links| <= s.maxHeight && |links| <= |s.lists| && |links| <= |prev| && key !in Present(s)
      && forall l :: 0 <= l < |links| ==> StopsAfter(s.nodes, s.lists[l], FirstAtOrAfter(key), prev[l])
    case Linking(x, prev, i, own) =>
      && Inserting(s.nodes, s.lists, x, prev, i) && |s.nodes[x].next| <= s.maxHeight
      && (own ==> MayLink(s) && s.nodes[x].next[i] == s.nodes[prev[i]].next[i])
  }

  ghost predicate ReaderInv(s: State) {
    match s.reader
    case Resting => true
    case Searching(q, x, level, since) => Standing(s.nodes, s.lists, q, x, level) && since <= Present(s)
    case Answered(q, r, since) => true
  }

  ghost predicate EmptyAbove(lists: seq<seq<nat>>, m: nat) {
    forall l :: m <= l < |lists| ==> lists[l] == []
  }

  /** Levels(s.nodes, s.lists) says that every level is strictly sorted and inside the level below. */
  ghost predicate Inv(s: State) {
    && Levels(s.nodes, s.lists) && 1 <= s.maxHeight <= MAX_HEIGHT && EmptyAbove(s.lists, s.maxHeight)
    && WriterInv(s) && ReaderInv(s)
  }

  lemma NewListInv(anyKey: Key)
    ensures Inv(State([Node(anyKey, seq(MAX_HEIGHT, _ => None))], 1, seq(MAX_HEIGHT, _ => []), Idle, Resting))
  {
  }

  /** Stores change no key and take no node out of a list, so a search in progress stays where it may be. */
  ghost predicate Extends(s: State, s': State) {
    && KeepsKeys(s.nodes, s'.nodes) && |s.lists| == |s'.lists|
    && (forall l :: 0 <= l < |s.lists| ==> Sublist(s.lists[l], s'.lists[l]))
  }

  lemma ReaderStays(s: State, s': State)
    requires Levels(s.nodes, s.lists) && ReaderInv(s) && Extends(s, s') && s'.reader == s.reader
    ensures ReaderInv(s') && Present(s) <= Present(s')
  {
    assert Linked(s.nodes, s.lists[0], 0);
    assert Sublist(s.lists[0], s'.lists[0]);
    forall k | k in Present(s)
      ensures k in Present(s')
    {
      var n :| n in s.lists[0] && n < |s.nodes| && s.nodes[n].key == k;
      assert n in s'.lists[0] && s'.nodes[n].key == k;
    }
  }

  lemma BeginInv(s: State, s': State, key: Key, links: seq<Option<nat>>, prev: seq<nat>)
    requires Inv(s) && Begin(s, s', key, links, prev)
    ensures Inv(s') && Extends(s, s')
  {
    ExtendPrev(s.nodes, s.lists, key, s.maxHeight, prev, |links|);
    ReaderStays(s, s');
    assert Present(s) == Present(s');
  }

  lemma AllocInv(s: State, s': State)
    requires Inv(s) && Alloc(s, s')
    ensures Inv(s') && Extends(s, s')
  {
    var w := s.writer;
    ReadyToInsert(s.nodes, s.lists, w.key, w.links, w.prev);
    ReaderStays(s, s');
  }

  lemma StoreOwnInv(s: State, s': State)
    requires Inv(s) && StoreOwn(s, s')
    ensures Inv(s') && Extends(s, s')
  {
    var w := s.writer;
    PrevIsLinked(s.nodes, s.lists, w.x, w.prev, w.i);
    LinkOwn(s.nodes, s.lists, w.x, w.prev, w.i, s.nodes[w.prev[w.i]].next[w.i]);
    ReaderStays(s, s');
  }

  lemma StorePrevInv(s: State, s': State, p: nat)
    requires Inv(s) && StorePrev(s, s', p)
    ensures Inv(s') && Extends(s, s')
  {
    var w := s.writer;
    LinkIn(s.nodes, s.lists, w.x, w.prev, w.i, p);
    SplicedHolds(s.lists[w.i], p, w.x);
    ReaderStays(s, s');
  }

  lemma WriterStepInv(s: State, s': State)
    requires Inv(s) && WriterStep(s, s')
    ensures Inv(s') && Extends(s, s') && s'.reader == s.reader
  {
    if key, links, prev :| Begin(s, s', key, links, prev) {
      BeginInv(s, s', key, links, prev);
    } else if Alloc(s, s') {
      AllocInv(s, s');
    } else if StoreOwn(s, s') {
      StoreOwnInv(s, s');
    } else if p :| StorePrev(s, s', p) {
      StorePrevInv(s, s', p);
    }
  }

  /** A search that ends answers for the list as it is at that moment, and misses no key that
      was there when it began. */
  ghost predicate RightAnswer(s: State)
    requires Levels(s.nodes, s.lists) && s.reader.Answered?
  {
    assert Linked(s.nodes, s.lists[0], 0);
    var r := s.reader;
    && Answers(s.nodes, s.lists[0], r.q, r.r)
    && (r.q.FirstAtOrAfter? ==> forall k :: k in r.since && k >= r.q.key ==>
          r.r.Some? && r.r.value < |s.nodes| && r.q.key <= s.nodes[r.r.value].key <= k)
  }

  lemma LoadInv(s: State, s': State)
    requires Inv(s) && Load(s, s')
    ensures Inv(s') && (s'.reader.Answered? ==> RightAnswer(s'))
  {
    hide Levels, Answers, RightAnswer;
    var r := s.reader;
    var i := Place(s.lists, r.x, r.level);
    LoadNext(s.nodes, s.lists, r.q, r.x, r.level, i);
    if s'.reader.Answered? {
      AnsweredRight(s, s');
    }
  }

  /** The first key at or after the target is no later than any such key that was there before. */
  lemma AnsweredRight(s: State, s': State)
    requires Levels(s.nodes, s.lists) && ReaderInv(s) && s.reader.Searching? && s'.reader.Answered?
    requires s'.nodes == s.nodes && s'.lists == s.lists && s'.reader.q == s.reader.q && s'.reader.since == s.reader.since
    requires Linked(s.nodes, s.lists[0], 0) ==> Answers(s.nodes, s.lists[0], s.reader.q, s'.reader.r)
    ensures RightAnswer(s')
  {
    assert Linked(s.nodes, s.lists[0], 0);
  }

  lemma StepInv(s: State, s': State)
    requires Inv(s) && Step(s, s')
    ensures Inv(s')
    ensures s.reader.Searching? && s'.reader.Answered? ==> RightAnswer(s')
  {
    if WriterStep(s, s') {
      WriterStepInv(s, s');
    } else if q, level :| BeginSearch(s, s', q, level) {
    } else {
      LoadInv(s, s');
    }
  }

  ghost predicate Run(states: seq<State>) {
    && states != [] && Inv(states[0])
    && forall i :: 0 <= i < |states| - 1 ==> Step(states[i], states[i + 1])
  }

  /** Every reachable state, between any two stores, has sorted nested levels. */
  lemma {:induction false} RunInv(states: seq<State>, n: nat)
    requires Run(states) && n < |states|
    ensures Inv(states[n])
  {
    if n > 0 {
      RunInv(states, n - 1);
      StepInv(states[n - 1], states[n]);
    }
  }

  lemma EverySearchRight(states: seq<State>, n: nat)
    requires Run(states) && n + 1 < |states|
    requires states[n].reader.Searching? && states[n + 1].reader.Answered?
    ensures Inv(states[n + 1]) && RightAnswer(states[n + 1])
  {
    RunInv(states, n);
    StepInv(states[n], states[n + 1]);
  }
}
