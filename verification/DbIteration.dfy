/** DBIter: the user-facing cursor over a multi-version list (db/db_iter).

    A snapshot shows each user key at most once, with its newest version at or
    below the snapshot, and hides keys whose newest version is a deletion.
    `View` is that list; DBIter walks the underlying versions and is proved to
    move as a plain cursor over `View`, in either direction. */
module DbIteration {
  import opened Options
  import opened Keys
  import opened Merging
  import opened Reads

  predicate Shown(e: Entry, s: SequenceNumber) {
    e.key.sn <= s
  }

  /** Entry i is the newest version of its user key in the snapshot. */
  ghost predicate Heads(es: seq<Entry>, s: SequenceNumber, i: nat)
    requires i < |es|
  {
    Shown(es[i], s) && forall j :: 0 <= j < i && Shown(es[j], s) ==> es[j].key.user != es[i].key.user
  }

  ghost predicate Yields(es: seq<Entry>, s: SequenceNumber, i: nat)
    requires i < |es|
  {
    es[i].key.typ.TypeValue? && Heads(es, s, i)
  }

  ghost predicate NoYield(es: seq<Entry>, s: SequenceNumber, from: nat, to: nat)
    requires from <= to <= |es|
  {
    forall i :: from <= i < to ==> !Yields(es, s, i)
  }

  ghost predicate NoneShown(es: seq<Entry>, s: SequenceNumber, from: nat, to: nat)
    requires from <= to <= |es|
  {
    forall i :: from <= i < to ==> !Shown(es[i], s)
  }

  datatype Pair = Pair(user: UserKey, value: Value)

  /** What the snapshot shows of the first n entries. */
  ghost function View(es: seq<Entry>, s: SequenceNumber, n: nat): (v: seq<Pair>)
    requires n <= |es|
    ensures |v| <= n
  {
    if n == 0 then []
    else View(es, s, n - 1) + if Yields(es, s, n - 1) then [Pair(es[n - 1].key.user, es[n - 1].value)] else []
  }

  lemma {:induction false} ViewPrefix(es: seq<Entry>, s: SequenceNumber, m: nat, n: nat)
    requires m <= n <= |es|
    ensures View(es, s, m) <= View(es, s, n)
    ensures NoYield(es, s, m, n) ==> View(es, s, m) == View(es, s, n)
    decreases n
  {
    if m < n {
      ViewPrefix(es, s, m, n - 1);
    }
  }

  /** The pair that entry y contributes stands at the count of the entries before it. */
  lemma ViewAt(es: seq<Entry>, s: SequenceNumber, y: nat)
    requires y < |es| && Yields(es, s, y)
    ensures |View(es, s, y)| < |View(es, s, |es|)|
    ensures View(es, s, |es|)[|View(es, s, y)|] == Pair(es[y].key.user, es[y].value)
    ensures |View(es, s, y + 1)| == |View(es, s, y)| + 1
  {
    ViewPrefix(es, s, y + 1, |es|);
  }

  /** Index in the view of what position y stands for; |View| when y is past the end. */
  ghost function Rank(es: seq<Entry>, s: SequenceNumber, y: nat): nat
    requires y <= |es|
  {
    |View(es, s, y)|
  }

  /** y is the first entry at or after `from` that shows, if any. */
  ghost predicate NextShows(es: seq<Entry>, s: SequenceNumber, from: nat, y: nat) {
    from <= y <= |es| && NoYield(es, s, from, y) && (y < |es| ==> Yields(es, s, y))
  }

  /** y is the last entry before `to` that shows, or |es|. */
  ghost predicate PrevShows(es: seq<Entry>, s: SequenceNumber, to: nat, y: nat) {
    to <= |es| && if y == |es| then NoYield(es, s, 0, to) else y < to && NoYield(es, s, y + 1, to) && Yields(es, s, y)
  }

  lemma OrderedUsers(es: seq<Entry>, i: nat, j: nat)
    requires Sorted(es) && i <= j < |es|
    ensures es[i].key.user <= es[j].key.user
  {
    assert i < j ==> Less(es[i].key, es[j].key);
  }

  /** The state of a forward scan at entry a that looks for a key to show from
      entry `from` on: what is skipped is exactly what is hidden. */
  ghost predicate Scanning(es: seq<Entry>, s: SequenceNumber, from: nat, a: nat, skip: Option<UserKey>)
    requires a <= |es|
  {
    && (forall i :: a <= i < |es| && Shown(es[i], s) && skip.Some? ==> skip.value <= es[i].key.user)
    && (forall i :: a <= i < |es| && i < from && Shown(es[i], s) ==> Skipped(es[i].key.user, skip))
    && (forall i :: a <= i < |es| && i >= from && Skipped(es[i].key.user, skip) ==> !Yields(es, s, i))
    && (forall i, j :: 0 <= j < a <= i < |es| && Shown(es[j], s) && es[i].key.user == es[j].key.user ==> Skipped(es[i].key.user, skip))
  }

  predicate Skipped(u: UserKey, skip: Option<UserKey>) {
    skip.Some? && u <= skip.value
  }

  /** Passing an entry that is not in the snapshot. */
  lemma ScanPastUnseen(es: seq<Entry>, s: SequenceNumber, from: nat, a: nat, skip: Option<UserKey>)
    requires a < |es| && Scanning(es, s, from, a, skip) && !Shown(es[a], s)
    ensures Scanning(es, s, from, a + 1, skip) && !Yields(es, s, a)
  {
  }

  lemma ScanPastHidden(es: seq<Entry>, s: SequenceNumber, from: nat, a: nat, skip: Option<UserKey>)
    requires Sorted(es)
    requires a < |es| && Scanning(es, s, from, a, skip) && Skipped(es[a].key.user, skip)
    ensures Scanning(es, s, from, a + 1, skip) && (a >= from ==> !Yields(es, s, a))
  {
  }

  lemma ScanPastDeletion(es: seq<Entry>, s: SequenceNumber, from: nat, a: nat, skip: Option<UserKey>)
    requires Sorted(es)
    requires a < |es| && Scanning(es, s, from, a, skip) && Shown(es[a], s) && es[a].key.typ.TypeDeletion?
    ensures Scanning(es, s, from, a + 1, Some(es[a].key.user)) && !Yields(es, s, a)
  {
    var skip' := Some(es[a].key.user);
    forall i | a + 1 <= i < |es|
      ensures es[a].key.user <= es[i].key.user
      ensures Skipped(es[i].key.user, skip') ==> !Yields(es, s, i)
    {
      OrderedUsers(es, a, i);
    }
    forall i, j | 0 <= j < a + 1 <= i < |es| && Shown(es[j], s) && es[i].key.user == es[j].key.user
      ensures Skipped(es[i].key.user, skip')
    {
      OrderedUsers(es, a, i);
      OrderedUsers(es, j, a);
    }
    forall i | a + 1 <= i < |es| && i < from && Shown(es[i], s)
      ensures Skipped(es[i].key.user, skip')
    {
      OrderedUsers(es, a, i);
      assert skip.Some? && skip.value <= es[a].key.user;
    }
  }

  lemma ScanFinds(es: seq<Entry>, s: SequenceNumber, from: nat, a: nat, skip: Option<UserKey>)
    requires a < |es| && Scanning(es, s, from, a, skip)
    requires Shown(es[a], s) && es[a].key.typ.TypeValue? && !Skipped(es[a].key.user, skip)
    ensures a >= from && Yields(es, s, a)
  {
  }

  /** A backward scan from `top` that stands before entry q: the only entry that can
      show in [q, top) is the last one seen in the snapshot, if it is a value. */
  ghost predicate ScanningBack(es: seq<Entry>, s: SequenceNumber, top: nat, q: nat, last: Option<nat>)
    requires q <= top <= |es|
  {
    match last
    case None => NoYield(es, s, q, top)
    case Some(l) =>
      && q <= l < top && Shown(es[l], s) && es[l].key.typ.TypeValue?
      && NoneShown(es, s, q, l) && NoYield(es, s, l + 1, top)
  }

  lemma BackOne(es: seq<Entry>, s: SequenceNumber, top: nat, q: nat, last: Option<nat>)
    requires q < top <= |es| && ScanningBack(es, s, top, q + 1, last)
    ensures !Shown(es[q], s) ==> ScanningBack(es, s, top, q, last)
    ensures (Shown(es[q], s) && (last.Some? ==> es[last.value].key.user == es[q].key.user))
            ==> ScanningBack(es, s, top, q, if es[q].key.typ.TypeDeletion? then None else Some(q))
  {
    if last.Some? && Shown(es[q], s) && es[last.value].key.user == es[q].key.user {
      assert !Yields(es, s, last.value);
    }
  }

  lemma BackFinds(es: seq<Entry>, s: SequenceNumber, top: nat, q: nat, l: nat)
    requires Sorted(es) && q <= top <= |es| && ScanningBack(es, s, top, q, Some(l))
    requires q > 0 ==> es[q - 1].key.user < es[l].key.user
    ensures PrevShows(es, s, top, l)
  {
    forall j | 0 <= j < l && Shown(es[j], s)
      ensures es[j].key.user != es[l].key.user
    {
      if j < q {
        OrderedUsers(es, j, q - 1);
      }
    }
  }

  /** Starting a forward scan after entry y: its key is skipped. */
  lemma ResumeScanning(es: seq<Entry>, s: SequenceNumber, y: nat, a: nat)
    requires Sorted(es) && a <= y < |es| && Yields(es, s, y) && NoneShown(es, s, a, y)
    requires a > 0 ==> es[a - 1].key.user < es[y].key.user || a == y
    ensures Scanning(es, s, y + 1, a, Some(es[y].key.user))
  {
  }

  lemma RankNext(es: seq<Entry>, s: SequenceNumber, y: nat, next: nat)
    requires y < |es| && Yields(es, s, y) && NextShows(es, s, y + 1, next)
    ensures Rank(es, s, next) == Rank(es, s, y) + 1
  {
    ViewAt(es, s, y);
    ViewPrefix(es, s, y + 1, next);
  }

  /** No entry between `top` and y shows, so the one before `top` is the one before y. */
  lemma RankPrev(es: seq<Entry>, s: SequenceNumber, y: nat, top: nat, prev: nat)
    requires top <= y < |es| && Yields(es, s, y) && NoYield(es, s, top, y) && PrevShows(es, s, top, prev)
    ensures Rank(es, s, prev) == if Rank(es, s, y) == 0 then |View(es, s, |es|)| else Rank(es, s, y) - 1
  {
    ViewPrefix(es, s, top, y);
    if prev == |es| {
      ViewPrefix(es, s, 0, top);
    } else {
      ViewAt(es, s, prev);
      ViewPrefix(es, s, prev + 1, top);
    }
  }

  ghost predicate SameUser(es: seq<Entry>, from: nat, y: nat)
    requires from <= y < |es|
  {
    forall i :: from <= i < y ==> es[i].key.user == es[y].key.user
  }

  lemma SameKeyShowsOnce(es: seq<Entry>, s: SequenceNumber, y: nat, from: nat)
    requires from <= y < |es| && Yields(es, s, y) && SameUser(es, from, y)
    ensures NoYield(es, s, from, y)
  {
  }

  lemma UnseenNotShown(es: seq<Entry>, s: SequenceNumber, from: nat, to: nat)
    requires from <= to <= |es| && NoneShown(es, s, from, to)
    ensures NoYield(es, s, from, to)
  {
  }

  lemma NothingBefore(es: seq<Entry>, s: SequenceNumber, y: nat)
    requires y < |es| && Yields(es, s, y) && SameUser(es, 0, y)
    ensures NoYield(es, s, 0, y) && PrevShows(es, s, 0, |es|)
  {
  }

  lemma NothingLeft(es: seq<Entry>, s: SequenceNumber, y: nat)
    requires y == |es|
    ensures NextShows(es, s, y, y)
  {
  }

  /** Starting a forward scan with nothing skipped: nothing before it has the key of an entry that could show. */
  lemma FreshScan(es: seq<Entry>, s: SequenceNumber, a: nat)
    requires a <= |es|
    requires forall i, j :: 0 <= j < a <= i < |es| && Shown(es[j], s) ==> es[i].key.user != es[j].key.user
    ensures Scanning(es, s, a, a, None)
  {
  }

  lemma RankInView(es: seq<Entry>, s: SequenceNumber, y: nat)
    requires y <= |es| && (y < |es| ==> Yields(es, s, y))
    ensures if y == |es| then Rank(es, s, y) == |View(es, s, |es|)| else Rank(es, s, y) < |View(es, s, |es|)|
  {
    if y < |es| {
      ViewAt(es, s, y);
    }
  }

  lemma SeekFresh(es: seq<Entry>, s: SequenceNumber, t: UserKey)
    requires Sorted(es)
    ensures Scanning(es, s, LowerBound(es, LookupKey(t, s)), LowerBound(es, LookupKey(t, s)), None)
  {
    var f := LowerBound(es, LookupKey(t, s));
    forall i, j | 0 <= j < f <= i < |es| && Shown(es[j], s)
      ensures es[i].key.user != es[j].key.user
    {
      assert f < i ==> Less(es[f].key, es[i].key);
    }
    FreshScan(es, s, f);
  }

  lemma RankLast(es: seq<Entry>, s: SequenceNumber, y: nat)
    requires PrevShows(es, s, |es|, y)
    ensures Rank(es, s, y) == if View(es, s, |es|) == [] then 0 else |View(es, s, |es|)| - 1
  {
    if y == |es| {
      ViewPrefix(es, s, 0, |es|);
    } else {
      ViewAt(es, s, y);
      ViewPrefix(es, s, y + 1, |es|);
    }
  }

  /** The entry behind the c-th pair of the view. */
  lemma {:induction false} ViewFrom(es: seq<Entry>, s: SequenceNumber, n: nat, c: nat) returns (i: nat)
    requires n <= |es| && c < |View(es, s, n)|
    ensures i < n && Yields(es, s, i) && |View(es, s, i)| == c
    ensures View(es, s, n)[c] == Pair(es[i].key.user, es[i].value)
  {
    if c < |View(es, s, n - 1)| {
      i := ViewFrom(es, s, n - 1, c);
    } else {
      i := n - 1;
    }
  }

  lemma ViewAscends(es: seq<Entry>, s: SequenceNumber, n: nat)
    requires Sorted(es) && n <= |es|
    ensures forall a, b :: 0 <= a < b < |View(es, s, n)| ==> View(es, s, n)[a].user < View(es, s, n)[b].user
  {
    forall a, b | 0 <= a < b < |View(es, s, n)|
      ensures View(es, s, n)[a].user < View(es, s, n)[b].user
    {
      var i := ViewFrom(es, s, n, a);
      var j := ViewFrom(es, s, n, b);
      if j < i {
        ViewPrefix(es, s, j, i);
      }
      OrderedUsers(es, i, j);
    }
  }

  /** Sought entries: those before LookupKey(t) that show have smaller user keys, the others do not. */
  lemma SeekSplits(es: seq<Entry>, s: SequenceNumber, t: UserKey, y: nat)
    requires Sorted(es) && NextShows(es, s, LowerBound(es, LookupKey(t, s)), y)
    ensures Rank(es, s, y) <= |View(es, s, |es|)|
    ensures forall c :: 0 <= c < |View(es, s, |es|)| ==> (c < Rank(es, s, y) <==> View(es, s, |es|)[c].user < t)
  {
    var f := LowerBound(es, LookupKey(t, s));
    ViewPrefix(es, s, f, y);
    ViewPrefix(es, s, f, |es|);
    hide Yields, NoYield;
    forall c | 0 <= c < |View(es, s, |es|)|
      ensures c < Rank(es, s, y) <==> View(es, s, |es|)[c].user < t
    {
      var i := ViewFrom(es, s, |es|, c);
      SeekSide(es, s, t, i);
      if i < f {
        ViewAt(es, s, i);
        ViewPrefix(es, s, i + 1, f);
      } else {
        ViewPrefix(es, s, f, i);
      }
    }
  }

  lemma SeekSide(es: seq<Entry>, s: SequenceNumber, t: UserKey, i: nat)
    requires Sorted(es) && i < |es| && Yields(es, s, i)
    ensures i < LowerBound(es, LookupKey(t, s)) <==> es[i].key.user < t
  {
    var f := LowerBound(es, LookupKey(t, s));
    assert f < i ==> Less(es[f].key, es[i].key);
  }

  class DBIter {
    const iter: MergingIterator
    const sequence: SequenceNumber
    var savedKey: Option<UserKey>       // None when cleared
    var savedValue: Value
    var forward: bool
    var valid: bool
    ghost var y: nat                    // the entry this cursor stands for; |iter.merged| when not valid

    ghost predicate Valid()
      reads this, iter
    {
      && iter.Valid() && y <= |iter.merged| && (valid <==> y < |iter.merged|)
      && (valid ==> Yields(iter.merged, sequence, y) && if forward then iter.at == y else Behind())
    }

    /** The entry before which the inner cursor stands when it is not valid is entry 0. */
    ghost function Below(): (p: nat)
      requires iter.at <= |iter.merged|
      reads this, iter
      ensures p <= |iter.merged|
    {
      if iter.at == |iter.merged| then 0 else iter.at + 1
    }

    /** In reverse, the inner cursor stands just before all shown versions of this key. */
    ghost predicate Behind()
      requires iter.Valid() && y < |iter.merged|
      reads this, iter
    {
      var es := iter.merged;
      && savedKey == Some(es[y].key.user) && savedValue == es[y].value
      && Below() <= y && NoneShown(es, sequence, Below(), y)
      && (iter.HasCurrent() ==> iter.Current().key.user < es[y].key.user)
    }

    /** What this cursor walks over. */
    ghost function Contents(): seq<Pair>
      reads this, iter
    {
      View(iter.merged, sequence, |iter.merged|)
    }

    /** The cursor is valid exactly while it is inside the list. */
    ghost function Cursor(): (c: nat)
      requires Valid()
      reads this, iter
      ensures c <= |Contents()| && (valid <==> c < |Contents()|)
    {
      RankInView(iter.merged, sequence, y);
      Rank(iter.merged, sequence, y)
    }

    constructor (iter: MergingIterator, s: SequenceNumber)
      requires iter.Valid()
      ensures Valid() && !valid && this.iter == iter && sequence == s
    {
      this.iter, sequence := iter, s;
      savedKey, savedValue := None, [];
      forward, valid := true, false;
      y := |iter.merged|;
    }

    method Key() returns (u: UserKey)
      requires Valid() && valid
      ensures Cursor() < |Contents()| && u == Contents()[Cursor()].user
    {
      ViewAt(iter.merged, sequence, y);
      u := if forward then iter.Current().key.user else savedKey.value;
    }

    method ValueOf() returns (v: Value)
      requires Valid() && valid
      ensures Cursor() < |Contents()| && v == Contents()[Cursor()].value
    {
      ViewAt(iter.merged, sequence, y);
      v := if forward then iter.Current().value else savedValue;
    }

    method FindNextUserEntry(skipping: bool, ghost from: nat)
      requires iter.Valid() && iter.HasCurrent() && forward
      requires skipping ==> savedKey.Some?
      requires from <= |iter.merged|
      requires Scanning(iter.merged, sequence, from, iter.at, if skipping then savedKey else None)
      requires iter.at > from ==> NoYield(iter.merged, sequence, from, iter.at)
      modifies this`savedKey, this`valid, this`y, iter`pos, iter`current, iter`at, iter`forward
      ensures Valid() && forward && NextShows(iter.merged, sequence, from, y)
    {
      hide Scanning, Yields, Sorted, MergingIterator.Valid, MergingIterator.HasCurrent, MergingIterator.Current;
      var skip := skipping;
      ghost var es := iter.merged;
      while true
        invariant iter.Valid() && iter.HasCurrent() && (skip ==> savedKey.Some?)
        invariant Scanning(es, sequence, from, iter.at, if skip then savedKey else None)
        invariant iter.at > from ==> NoYield(es, sequence, from, iter.at)
        decreases |es| - iter.at
      {
        ghost var a := iter.at;
        ghost var hidden := if skip then savedKey else None;
        var e := iter.Current();
        if e.key.sn <= sequence {
          match e.key.typ {
            case TypeDeletion =>
              ScanPastDeletion(es, sequence, from, a, hidden);
              savedKey := Some(e.key.user);
              skip := true;
            case TypeValue =>
              if skip && e.key.user <= savedKey.value {
                ScanPastHidden(es, sequence, from, a, hidden);
              } else {
                ScanFinds(es, sequence, from, a, hidden);
                valid := true;
                savedKey := None;
                y := a;
                return;
              }
          }
        } else {
          ScanPastUnseen(es, sequence, from, a, hidden);
        }
        iter.Next();
        if !iter.HasCurrent() {
          break;
        }
      }
      savedKey := None;
      valid := false;
      y := |es|;
    }

    method FindPrevUserEntry()
      requires iter.Valid() && !forward
      modifies this`savedKey, this`savedValue, this`valid, this`forward, this`y, iter`pos, iter`current, iter`at, iter`forward
      ensures Valid() && PrevShows(iter.merged, sequence, old(Below()), y)
    {
      hide Yields, Sorted, MergingIterator.Valid, MergingIterator.HasCurrent, MergingIterator.Current;
      var valueType := TypeDeletion;
      ghost var es := iter.merged;
      ghost var top := Below();
      ghost var last: Option<nat> := None;
      while iter.HasCurrent()
        invariant iter.Valid() && Below() <= top && !forward
        invariant ScanningBack(es, sequence, top, Below(), last)
        invariant last.None? <==> valueType.TypeDeletion?
        invariant last.Some? ==> savedKey == Some(es[last.value].key.user) && savedValue == es[last.value].value
        decreases Below()
      {
        var e := iter.Current();
        ghost var q := iter.at;
        BackOne(es, sequence, top, q, last);
        if e.key.sn <= sequence {
          if !valueType.TypeDeletion? && e.key.user < savedKey.value {
            break;
          }
          if last.Some? {
            OrderedUsers(es, q, last.value);
          }
          valueType := e.key.typ;
          if valueType.TypeDeletion? {
            savedKey, savedValue := None, [];
            last := None;
          } else {
            savedKey, savedValue := Some(e.key.user), e.value;
            last := Some(q);
          }
        }
        iter.Prev();
      }
      if valueType.TypeDeletion? {
        valid, forward := false, true;
        savedKey, savedValue := None, [];
        y := |es|;
      } else {
        BackFinds(es, sequence, top, Below(), last.value);
        valid := true;
        y := last.value;
      }
    }

    method Next()
      requires Valid() && valid
      modifies this`savedKey, this`valid, this`forward, this`y, iter`pos, iter`current, iter`at, iter`forward
      ensures Valid() && Cursor() == old(Cursor()) + 1
    {
      hide Yields, Sorted, Scanning, NextShows, Rank, NoneShown, MergingIterator.Valid, MergingIterator.HasCurrent, MergingIterator.Current;
      ghost var es, y0 := iter.merged, y;
      if !forward {
        forward := true;
        if !iter.HasCurrent() {
          iter.SeekToFirst();
        } else {
          iter.Next();
        }
        // The current key's own entries lie ahead, so the source's test for the end never fires here.
        assert iter.at == old(Below()) && iter.HasCurrent();
        ResumeScanning(es, sequence, y0, iter.at);
      } else {
        savedKey := Some(iter.Current().key.user);
        ResumeScanning(es, sequence, y0, y0);
      }
      FindNextUserEntry(true, y0 + 1);
      RankNext(es, sequence, y0, y);
    }

    method Prev()
      requires Valid() && valid
      modifies this`savedKey, this`savedValue, this`valid, this`forward, this`y, iter`pos, iter`current, iter`at, iter`forward
      ensures Valid() && Cursor() == if old(Cursor()) == 0 then |Contents()| else old(Cursor()) - 1
    {
      hide Yields, Sorted, Rank, PrevShows, MergingIterator.Valid, MergingIterator.HasCurrent, MergingIterator.Current;
      ghost var es, y0 := iter.merged, y;
      if forward {
        LeaveCurrentKey();
        if !iter.HasCurrent() {
          valid := false;
          savedKey, savedValue := None, [];
          y := |es|;
          NothingBefore(es, sequence, y0);
          RankPrev(es, sequence, y0, 0, y);
          return;
        }
        forward := false;
        SameKeyShowsOnce(es, sequence, y0, Below());
      } else {
        UnseenNotShown(es, sequence, Below(), y0);
      }
      ghost var top := Below();
      FindPrevUserEntry();
      RankPrev(es, sequence, y0, top, y);
    }

    /** Direction switch of Prev: scan back until the user key changes. */
    method LeaveCurrentKey()
      requires Valid() && valid && forward
      modifies this`savedKey, iter`pos, iter`current, iter`at, iter`forward
      ensures iter.Valid() && Below() <= y && SameUser(iter.merged, Below(), y)
      ensures savedKey == Some(iter.merged[y].key.user)
      ensures iter.HasCurrent() ==> iter.Current().key.user < iter.merged[y].key.user
    {
      hide Yields, Sorted, MergingIterator.Valid, MergingIterator.HasCurrent, MergingIterator.Current;
      ghost var es := iter.merged;
      savedKey := Some(iter.Current().key.user);
      while true
        invariant iter.Valid() && iter.HasCurrent() && iter.at <= y && y < |es|
        invariant savedKey == Some(es[y].key.user)
        invariant SameUser(es, iter.at, y)
        decreases iter.at
      {
        OrderedUsers(es, if iter.at == 0 then 0 else iter.at - 1, y);
        iter.Prev();
        if !iter.HasCurrent() {
          break;
        }
        if iter.Current().key.user < savedKey.value {
          break;
        }
      }
    }

    method Seek(t: UserKey)
      requires Valid()
      modifies this`savedKey, this`savedValue, this`valid, this`forward, this`y, iter`pos, iter`current, iter`at, iter`forward
      ensures Valid() && Cursor() <= |Contents()|
      ensures forall c :: 0 <= c < |Contents()| ==> (c < Cursor() <==> Contents()[c].user < t)
    {
      hide Yields, Sorted, Scanning, NextShows, Rank, MergingIterator.Valid, MergingIterator.HasCurrent, MergingIterator.Current;
      ghost var es := iter.merged;
      forward := true;
      savedKey, savedValue := None, [];
      iter.Seek(LookupKey(t, sequence));
      ghost var f := iter.at;
      if iter.HasCurrent() {
        SeekFresh(es, sequence, t);
        FindNextUserEntry(false, f);
      } else {
        valid := false;
        y := |es|;
        NothingLeft(es, sequence, y);
      }
      SeekSplits(es, sequence, t, y);
    }

    method SeekToFirst()
      requires Valid()
      modifies this`savedKey, this`savedValue, this`valid, this`forward, this`y, iter`pos, iter`current, iter`at, iter`forward
      ensures Valid() && Cursor() == 0
    {
      ghost var es := iter.merged;
      forward := true;
      savedValue := [];
      iter.SeekToFirst();
      if iter.HasCurrent() {
        FreshScan(es, sequence, 0);
        FindNextUserEntry(false, 0);
      } else {
        valid := false;
        y := |es|;
      }
      ViewPrefix(es, sequence, 0, y);
    }

    method SeekToLast()
      requires Valid()
      modifies this`savedKey, this`savedValue, this`valid, this`forward, this`y, iter`pos, iter`current, iter`at, iter`forward
      ensures Valid() && Cursor() == if Contents() == [] then 0 else |Contents()| - 1
    {
      hide Yields, Sorted, MergingIterator.Valid, MergingIterator.HasCurrent, MergingIterator.Current;
      ghost var es := iter.merged;
      forward := false;
      savedValue := [];
      iter.SeekToLast();
      FindPrevUserEntry();
      RankLast(es, sequence, y);
    }
  }

  /** The view is the snapshot's map in key order: it lists exactly the keys that a
      lookup finds, each once, with the value the lookup returns. */
  lemma ViewIsRead(es: seq<Entry>, s: SequenceNumber)
    requires Sorted(es) && Distinct(ToSet(es))
    ensures forall i, j :: 0 <= i < j < |View(es, s, |es|)| ==> View(es, s, |es|)[i].user < View(es, s, |es|)[j].user
    ensures forall u, v :: Pair(u, v) in View(es, s, |es|) <==> Read(ToSet(es), u, s) == Some(v)
  {
    ViewAscends(es, s, |es|);
    forall u, v
      ensures Pair(u, v) in View(es, s, |es|) <==> Read(ToSet(es), u, s) == Some(v)
    {
      if Pair(u, v) in View(es, s, |es|) {
        var c :| 0 <= c < |View(es, s, |es|)| && View(es, s, |es|)[c] == Pair(u, v);
        var i := ViewFrom(es, s, |es|, c);
        HeadIsNewest(es, s, i);
      }
      if Read(ToSet(es), u, s) == Some(v) {
        FoundIsInView(es, s, u, v);
      }
    }
  }

  lemma FoundIsInView(es: seq<Entry>, s: SequenceNumber, u: UserKey, v: Value)
    requires Sorted(es) && Distinct(ToSet(es)) && Read(ToSet(es), u, s) == Some(v)
    ensures Pair(u, v) in View(es, s, |es|)
  {
    var e :| Newest(ToSet(es), u, s, e);
    ReadIs(ToSet(es), u, s, e);
    var i :| 0 <= i < |es| && es[i] == e;
    forall j | 0 <= j < i && Shown(es[j], s)
      ensures es[j].key.user != es[i].key.user
    {
      assert es[j] in ToSet(es) && Less(es[j].key, es[i].key);
      assert es[j].key.user == u ==> Visible(es[j], u, s);
    }
    ViewAt(es, s, i);
    assert View(es, s, |es|)[|View(es, s, i)|] == Pair(u, v);
  }

  lemma HeadIsNewest(es: seq<Entry>, s: SequenceNumber, i: nat)
    requires Sorted(es) && Distinct(ToSet(es)) && i < |es| && Yields(es, s, i)
    ensures Read(ToSet(es), es[i].key.user, s) == Some(es[i].value)
  {
    var u := es[i].key.user;
    forall o | o in ToSet(es) && Visible(o, u, s)
      ensures o.key.sn <= es[i].key.sn
    {
      var j :| 0 <= j < |es| && es[j] == o;
      assert i < j ==> Less(es[i].key, es[j].key);
    }
    assert Newest(ToSet(es), u, s, es[i]);
    ReadIs(ToSet(es), u, s, es[i]);
  }
}
