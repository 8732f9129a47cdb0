/** What the operations of a history mean to a reader, whatever entries they become. */
module Operations {
  import opened Options
  import opened Keys
  import opened Reads
  import opened History

  /** Operation i of batch b is on u and has a number of at most s. */
  ghost predicate On(h: seq<Record>, u: UserKey, s: nat, b: int, i: int) {
    0 <= b < |h| && 0 <= i < |h[b].ops| && h[b].ops[i].user == u && h[b].first + i <= s
  }

  /** It is the last of them: in the order of batches, then in the order within a batch. */
  ghost predicate LastOn(h: seq<Record>, u: UserKey, s: nat, b: int, i: int) {
    On(h, u, s, b, i) && forall c, j :: On(h, u, s, c, j) ==> c < b || (c == b && j <= i)
  }

  /** The last operation on u puts v. */
  ghost predicate LastPuts(h: seq<Record>, u: UserKey, s: nat, v: Value) {
    exists b, i :: LastOn(h, u, s, b, i) && h[b].ops[i] == Put(u, v)
  }

  /** The last operation on a key decides what is read: a value if it puts that value; nothing if
      it deletes, or if there is none. */
  lemma LastDecides(h: seq<Record>, u: UserKey, s: nat)
    requires ValidHistory(h)
    ensures forall v :: Read(Entries(h), u, s) == Some(v) <==> LastPuts(h, u, s, v)
    ensures forall b, i :: LastOn(h, u, s, b, i) && h[b].ops[i] == Delete(u) ==> Read(Entries(h), u, s) == None
    ensures (forall b, i :: !On(h, u, s, b, i)) ==> Read(Entries(h), u, s) == None
    ensures forall b, i, c, j :: LastOn(h, u, s, b, i) && LastOn(h, u, s, c, j) ==> b == c && i == j
  {
    if b, i :| On(h, u, s, b, i) {
      var c, j := LastExists(h, u, s, b, i);
      LastRead(h, u, s, c, j);
      OneLast(h, u, s, c, j);
    } else {
      NothingRead(h, u, s);
    }
  }

  lemma OneLast(h: seq<Record>, u: UserKey, s: nat, b: nat, i: nat)
    requires LastOn(h, u, s, b, i)
    ensures forall c, j :: LastOn(h, u, s, c, j) ==> c == b && j == i
  {
  }

  lemma {:induction false} LastExists(h: seq<Record>, u: UserKey, s: nat, b0: nat, i0: nat) returns (b: nat, i: nat)
    requires On(h, u, s, b0, i0)
    ensures LastOn(h, u, s, b, i)
    decreases |h| - b0, if b0 < |h| then |h[b0].ops| - i0 else 0
  {
    if c, j :| On(h, u, s, c, j) && (c > b0 || (c == b0 && j > i0)) {
      b, i := LastExists(h, u, s, c, j);
    } else {
      b, i := b0, i0;
    }
  }

  /** Every operation becomes an entry under its number ... */
  lemma {:induction false} OperationEntered(h: seq<Record>, b: nat, i: nat)
    requires ValidHistory(h) && b < |h| && i < |h[b].ops|
    ensures OpEntry(h[b].ops[i], h[b].first + i) in Entries(h)
  {
    if b == |h| - 1 {
      assert OpEntry(h[b].ops[i], h[b].first + i) in RecordEntries(h[b]);
    } else {
      OperationEntered(h[..|h| - 1], b, i);
    }
  }

  /** ... and there are no other entries. */
  lemma EnteredBy(h: seq<Record>, e: Entry) returns (b: nat, i: nat)
    requires ValidHistory(h) && e in Entries(h)
    ensures b < |h| && i < |h[b].ops| && e == OpEntry(h[b].ops[i], h[b].first + i)
  {
    b := FindRecord(h, e);
    hide Entries, ValidHistory;
    i :| 0 <= i < |h[b].ops| && OpEntry(h[b].ops[i], h[b].first + i) == e;
  }

  lemma NumbersInOrder(h: seq<Record>, u: UserKey, s: nat, b: int, i: int, c: int, j: int)
    requires ValidHistory(h) && On(h, u, s, b, i) && On(h, u, s, c, j) && (c < b || (c == b && j <= i))
    ensures h[c].first + j <= h[b].first + i
  {
  }

  lemma NumberedEntry(h: seq<Record>, b: nat, i: nat)
    requires ValidHistory(h) && b < |h| && i < |h[b].ops|
    ensures h[b].first + i <= MAX_SEQUENCE
    ensures var e := OpEntry(h[b].ops[i], h[b].first + i);
      e.key.user == h[b].ops[i].user && e.key.sn == h[b].first + i && Answer(e) == if h[b].ops[i].Put? then Some(h[b].ops[i].value) else None
  {
  }

  lemma LastRead(h: seq<Record>, u: UserKey, s: nat, b: int, i: int)
    requires ValidHistory(h) && LastOn(h, u, s, b, i)
    ensures Read(Entries(h), u, s) == if h[b].ops[i].Put? then Some(h[b].ops[i].value) else None
  {
    NumberedEntry(h, b, i);
    OperationEntered(h, b, i);
    HistoryDistinct(h);
    var e := OpEntry(h[b].ops[i], h[b].first + i);
    hide Entries, ValidHistory, Read, OpEntry, Distinct;
    forall o | o in Entries(h) && Visible(o, u, s)
      ensures o.key.sn <= e.key.sn
    {
      var c, j := EnteredBy(h, o);
      NumberedEntry(h, c, j);
      assert On(h, u, s, c, j);
      NumbersInOrder(h, u, s, b, i, c, j);
    }
    ReadIs(Entries(h), u, s, e);
  }

  lemma NothingRead(h: seq<Record>, u: UserKey, s: nat)
    requires ValidHistory(h) && forall b, i :: !On(h, u, s, b, i)
    ensures Read(Entries(h), u, s) == None
  {
    forall o | o in Entries(h)
      ensures !Visible(o, u, s)
    {
      var c, j := EnteredBy(h, o);
      assert !On(h, u, s, c, j);
    }
  }
}
