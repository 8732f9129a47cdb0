/** What a read means: the newest version of a user key at or below a snapshot,
    a deletion counting as absent.  Every store in this project (memtables,
    files, levels, whole databases) is compared through `Read`. */
module Reads {
  import opened Options
  import opened Keys

  ghost predicate Visible(e: Entry, u: UserKey, s: nat) {
    e.key.user == u && e.key.sn <= s
  }

  ghost predicate Newest(S: set<Entry>, u: UserKey, s: nat, e: Entry) {
    && e in S && Visible(e, u, s)
    && forall o :: o in S && Visible(o, u, s) ==> o.key.sn <= e.key.sn
  }

  /** One entry per user key and sequence number. */
  ghost predicate Distinct(S: set<Entry>) {
    forall a, b :: a in S && b in S && a.key.user == b.key.user && a.key.sn == b.key.sn ==> a == b
  }

  /** Entries of A are newer than entries of B for the same user key. */
  ghost predicate Newer(A: set<Entry>, B: set<Entry>) {
    forall a, b :: a in A && b in B && a.key.user == b.key.user ==> a.key.sn > b.key.sn
  }

  ghost predicate AnyVisible(S: set<Entry>, u: UserKey, s: nat) {
    exists e :: e in S && Visible(e, u, s)
  }

  function Answer(e: Entry): Option<Value> {
    if e.key.typ.TypeValue? then Some(e.value) else None
  }

  /** The specification of every lookup. */
  ghost function Read(S: set<Entry>, u: UserKey, s: nat): Option<Value> {
    if exists e :: Newest(S, u, s, e) then
      var e :| Newest(S, u, s, e);
      Answer(e)
    else
      None
  }

  /** S and T answer alike at every snapshot from `h` on. */
  ghost predicate Agree(S: set<Entry>, T: set<Entry>, h: nat) {
    forall u, s :: s >= h ==> Read(S, u, s) == Read(T, u, s)
  }

  /** A visible entry can be improved to the newest one. */
  lemma {:induction false} NewestExists(S: set<Entry>, u: UserKey, s: nat, w: Entry)
    requires w in S && Visible(w, u, s)
    ensures exists e :: Newest(S, u, s, e)
    decreases s - w.key.sn
  {
    if o :| o in S && Visible(o, u, s) && o.key.sn > w.key.sn {
      NewestExists(S, u, s, o);
    } else {
      assert Newest(S, u, s, w);
    }
  }

  /** With one entry per sequence number the newest entry determines the answer. */
  lemma ReadIs(S: set<Entry>, u: UserKey, s: nat, e: Entry)
    requires Distinct(S) && Newest(S, u, s, e)
    ensures Read(S, u, s) == Answer(e)
  {
    assert forall o :: Newest(S, u, s, o) ==> o == e;
  }

  /** Newer data decides where it has a visible version; elsewhere the older data does.
      This is why LevelDB may stop at the first store that holds the key. */
  lemma ReadLayers(A: set<Entry>, B: set<Entry>, u: UserKey, s: nat)
    requires Distinct(A + B) && Newer(A, B)
    ensures AnyVisible(A, u, s) ==> Read(A + B, u, s) == Read(A, u, s)
    ensures !AnyVisible(A, u, s) ==> Read(A + B, u, s) == Read(B, u, s)
  {
    if w :| w in A && Visible(w, u, s) {
      NewestExists(A, u, s, w);
      var e :| Newest(A, u, s, e);
      assert Newest(A + B, u, s, e);
      ReadIs(A, u, s, e);
      ReadIs(A + B, u, s, e);
    } else if w :| w in B && Visible(w, u, s) {
      NewestExists(B, u, s, w);
      var e :| Newest(B, u, s, e);
      assert Newest(A + B, u, s, e);
      ReadIs(B, u, s, e);
      ReadIs(A + B, u, s, e);
    } else {
      assert !AnyVisible(A + B, u, s);
    }
  }

  /** Writing newer data on top of two stores that agree keeps them agreeing. */
  lemma AgreeUnderNewer(N: set<Entry>, S: set<Entry>, T: set<Entry>, h: nat)
    requires Agree(S, T, h)
    requires Distinct(N + S) && Distinct(N + T)
    requires Newer(N, S) && Newer(N, T)
    ensures Agree(N + S, N + T, h)
  {
    forall u, s | s >= h
      ensures Read(N + S, u, s) == Read(N + T, u, s)
    {
      ReadLayers(N, S, u, s);
      ReadLayers(N, T, u, s);
    }
  }

  lemma DistinctLayers(A: set<Entry>, B: set<Entry>)
    requires Distinct(A) && Distinct(B) && Newer(A, B)
    ensures Distinct(A + B)
  {
  }
}
