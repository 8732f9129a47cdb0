/** Version edits, the builder that applies them, and recovery from the manifest. */
module Manifest {
  import opened Options
  import opened Keys
  import opened Files

  datatype VersionEdit = VersionEdit(
    logNumber: Option<nat>, nextFile: Option<nat>, lastSequence: Option<SequenceNumber>,
    deleted: set<(nat, nat)>, added: seq<(nat, File)>)

  /** What decoding a record ensures. */
  ghost predicate InLevels(e: VersionEdit) {
    && (forall d :: d in e.deleted ==> d.0 < NUM_LEVELS)
    && (forall i :: 0 <= i < |e.added| ==> e.added[i].0 < NUM_LEVELS)
  }

  ghost predicate ValidEdit(e: VersionEdit) {
    InLevels(e)
    && (forall i, j :: 0 <= i < j < |e.added| && e.added[i].0 == e.added[j].0 ==> e.added[i].1.number != e.added[j].1.number)
  }

  ghost function DeletedAt(e: VersionEdit, l: nat): set<nat> {
    set d | d in e.deleted && d.0 == l :: d.1
  }

  ghost function AddedAt(e: VersionEdit, n: nat, l: nat): set<File>
    requires n <= |e.added|
  {
    set i | 0 <= i < n && e.added[i].0 == l :: e.added[i].1
  }

  ghost function Numbers(S: set<File>): set<nat> {
    set f | f in S :: f.number
  }

  /** What a builder holds for one level: the files it knows, and the numbers marked deleted. */
  datatype Pending = Pending(files: set<File>, deleted: set<nat>)

  ghost function Step(p: Pending, e: VersionEdit, l: nat): Pending {
    var A := AddedAt(e, |e.added|, l);
    Pending(p.files + A, p.deleted + DeletedAt(e, l) - Numbers(A))
  }

  ghost function Accumulate(p: Pending, edits: seq<VersionEdit>, l: nat): Pending {
    if edits == [] then p else Step(Accumulate(p, edits[..|edits| - 1], l), edits[|edits| - 1], l)
  }

  /** The files saved. */
  ghost function Result(p: Pending): set<File> {
    set f | f in p.files && f.number !in p.deleted
  }

  /** One LogAndApply: a fresh builder over the current files. */
  ghost function Install(S: set<File>, e: VersionEdit, l: nat): set<File> {
    Result(Step(Pending(S, {}), e, l))
  }

  ghost function InstallAll(S: set<File>, edits: seq<VersionEdit>, l: nat): set<File> {
    if edits == [] then S else Install(InstallAll(S, edits[..|edits| - 1], l), edits[|edits| - 1], l)
  }

  /** Each file number is added at this level at most once, counting the base. */
  ghost predicate AddedOnce(S: set<File>, edits: seq<VersionEdit>, l: nat) {
    edits == [] ||
    var front, last := edits[..|edits| - 1], edits[|edits| - 1];
    AddedOnce(S, front, l) && Numbers(AddedAt(last, |last.added|, l)) !! Numbers(Accumulate(Pending(S, {}), front, l).files)
  }

  /** Applying all edits in one builder and saving once equals saving after every edit. */
  lemma {:induction false} ReplayEqualsInstalls(S: set<File>, edits: seq<VersionEdit>, l: nat)
    requires AddedOnce(S, edits, l)
    ensures Result(Accumulate(Pending(S, {}), edits, l)) == InstallAll(S, edits, l)
  {
    if edits != [] {
      var front, last := edits[..|edits| - 1], edits[|edits| - 1];
      ReplayEqualsInstalls(S, front, l);
      OneMoreEdit(Accumulate(Pending(S, {}), front, l), last, l);
    }
  }

  lemma OneMoreEdit(p: Pending, e: VersionEdit, l: nat)
    requires Numbers(AddedAt(e, |e.added|, l)) !! Numbers(p.files)
    ensures Result(Step(p, e, l)) == Install(Result(p), e, l)
  {
    var A := AddedAt(e, |e.added|, l);
    forall f
      ensures f in A ==> f.number in Numbers(A)
      ensures f in p.files ==> f.number !in Numbers(A)
    {
      assert f in p.files ==> f.number in Numbers(p.files);
    }
  }

  /** Every file whose deletion mark the edit erases is itself added again. */
  ghost predicate Readds(p: Pending, e: VersionEdit, l: nat) {
    var A := AddedAt(e, |e.added|, l);
    forall f :: f in p.files && f.number in p.deleted && f.number in Numbers(A) ==> f in A
  }

  lemma OneMoreEditExactly(p: Pending, e: VersionEdit, l: nat)
    ensures Result(Step(p, e, l)) == Install(Result(p), e, l) <==> Readds(p, e, l)
  {
    var A := AddedAt(e, |e.added|, l);
    assert forall f :: f in A ==> f.number in Numbers(A);
    assert forall f :: f in Result(Step(p, e, l)) <==> (f in p.files || f in A) && (f.number in Numbers(A) || f.number !in p.deleted + DeletedAt(e, l));
    assert forall f :: f in Install(Result(p), e, l) <==>
        f in A || (f in p.files && f.number !in p.deleted && (f.number in Numbers(A) || f.number !in DeletedAt(e, l)));
  }

  ghost predicate ReplaysSame(S: set<File>, edits: seq<VersionEdit>, l: nat, n: nat)
    requires n <= |edits|
  {
    Result(Accumulate(Pending(S, {}), edits[..n], l)) == InstallAll(S, edits[..n], l)
  }

  ghost predicate ReaddsAt(S: set<File>, edits: seq<VersionEdit>, l: nat, n: nat)
    requires n < |edits|
  {
    Readds(Accumulate(Pending(S, {}), edits[..n], l), edits[n], l)
  }

  lemma ReplaysOneMore(S: set<File>, edits: seq<VersionEdit>, l: nat, n: nat)
    requires n < |edits| && ReplaysSame(S, edits, l, n)
    ensures ReplaysSame(S, edits, l, n + 1) <==> ReaddsAt(S, edits, l, n)
  {
    assert edits[..n + 1][..n] == edits[..n];
    OneMoreEditExactly(Accumulate(Pending(S, {}), edits[..n], l), edits[n], l);
  }

  /** As sets of files, one builder gives what saving after every edit gives, after each edit, if and only if no edit
      erases the deletion mark of a file other than those it adds. */
  lemma {:induction false} ReplayExactly(S: set<File>, edits: seq<VersionEdit>, l: nat)
    ensures (forall n :: 0 <= n <= |edits| ==> ReplaysSame(S, edits, l, n)) <==> (forall n :: 0 <= n < |edits| ==> ReaddsAt(S, edits, l, n))
  {
    if forall n :: 0 <= n <= |edits| ==> ReplaysSame(S, edits, l, n) {
      forall n | 0 <= n < |edits|
        ensures ReaddsAt(S, edits, l, n)
      {
        assert ReplaysSame(S, edits, l, n + 1);
        ReplaysOneMore(S, edits, l, n);
      }
    }
    if forall n :: 0 <= n < |edits| ==> ReaddsAt(S, edits, l, n) {
      assert ReplaysSame(S, edits, l, 0);
      hide ReplaysSame, ReaddsAt;
      for n := 0 to |edits|
        invariant forall k :: 0 <= k <= n ==> ReplaysSame(S, edits, l, k)
      {
        ReplaysOneMore(S, edits, l, n);
      }
    }
  }

  lemma NewNumber(e: VersionEdit, i: nat, S: set<File>, F: set<File>)
    requires ValidEdit(e) && i < |e.added| && S <= F
    requires Numbers(AddedAt(e, |e.added|, e.added[i].0)) !! Numbers(F)
    ensures e.added[i].1.number !in Numbers(S + AddedAt(e, i, e.added[i].0))
  {
    var l, f := e.added[i].0, e.added[i].1;
    assert f in AddedAt(e, |e.added|, l) && f.number in Numbers(AddedAt(e, |e.added|, l));
    forall g | g in S + AddedAt(e, i, l)
      ensures g.number != f.number
    {
      if g in S {
        assert g.number in Numbers(F);
      }
    }
  }

  lemma OneMoreAdded(e: VersionEdit, i: nat, m: nat)
    requires i < |e.added|
    ensures AddedAt(e, i + 1, m) == AddedAt(e, i, m) + (if m == e.added[i].0 then {e.added[i].1} else {})
    ensures Numbers(AddedAt(e, i + 1, m)) == Numbers(AddedAt(e, i, m)) + (if m == e.added[i].0 then {e.added[i].1.number} else {})
  {
    var A := AddedAt(e, i, m);
    var f := e.added[i].1;
    assert Numbers(A + {f}) == Numbers(A) + {f.number} by {
      assert f in A + {f};
      assert forall g :: g in A ==> g in A + {f};
    }
  }

  // ---- the counters a manifest ends with ----

  function LastLogNumber(edits: seq<VersionEdit>): Option<nat> {
    if edits == [] then None else
    var last := edits[|edits| - 1];
    if last.logNumber.Some? then last.logNumber else LastLogNumber(edits[..|edits| - 1])
  }

  function LastNextFile(edits: seq<VersionEdit>): Option<nat> {
    if edits == [] then None else
    var last := edits[|edits| - 1];
    if last.nextFile.Some? then last.nextFile else LastNextFile(edits[..|edits| - 1])
  }

  function LastLastSequence(edits: seq<VersionEdit>): Option<SequenceNumber> {
    if edits == [] then None else
    var last := edits[|edits| - 1];
    if last.lastSequence.Some? then last.lastSequence else LastLastSequence(edits[..|edits| - 1])
  }
}
