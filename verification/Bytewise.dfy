/** LevelDB's built-in comparator (util/comparator) and the shortened keys that index blocks
    use (db/dbformat).  `Rank` places byte strings among the reals in the comparator's order;
    that is how the other modules represent user keys. */
module Bytewise {
  import opened Keys
  import opened Coding

  /** Slice::compare: memcmp, then the shorter first. */
  predicate Before(a: Bytes, b: Bytes) {
    if b == [] then false
    else if a == [] then true
    else if a[0] != b[0] then a[0] < b[0]
    else Before(a[1..], b[1..])
  }

  function Rank(s: Bytes): (r: UserKey)
    ensures 0.0 <= r < 1.0
  {
    if s == [] then 0.0 else ((s[0] as int + 1) as real + Rank(s[1..])) / 257.0
  }

  /** The comparator's order is the order of the ranks, and different strings have different ranks. */
  lemma {:induction false} RankOrder(a: Bytes, b: Bytes)
    ensures Before(a, b) <==> Rank(a) < Rank(b)
    ensures a == b <==> Rank(a) == Rank(b)
  {
    if a != [] && b != [] {
      RankOrder(a[1..], b[1..]);
      assert a == [a[0]] + a[1..] && b == [b[0]] + b[1..];
      var p, q := (a[0] as int + 1) as real + Rank(a[1..]), (b[0] as int + 1) as real + Rank(b[1..]);
      assert Rank(a) == p / 257.0 && Rank(b) == q / 257.0;
      assert a[0] < b[0] ==> p < q;
      assert a[0] > b[0] ==> p > q;
      assert a[0] == b[0] ==> (p < q <==> Rank(a[1..]) < Rank(b[1..]));
    }
  }

  lemma Transitive(a: Bytes, b: Bytes, c: Bytes)
    requires !Before(b, a) && Before(b, c)
    ensures Before(a, c)
  {
    RankOrder(b, a);
    RankOrder(b, c);
    RankOrder(a, c);
  }

  lemma {:induction false} CommonPrefix(p: Bytes, a: Bytes, b: Bytes)
    ensures Before(p + a, p + b) <==> Before(a, b)
  {
    if p == [] {
      assert p + a == a && p + b == b;
    } else {
      assert (p + a)[1..] == p[1..] + a && (p + b)[1..] == p[1..] + b;
      CommonPrefix(p[1..], a, b);
    }
  }

  /** How a byte at position i decides between strings that agree before it. */
  lemma DecidedAt(a: Bytes, b: Bytes, i: nat)
    requires i < |a| && i < |b| && a[..i] == b[..i] && a[i] != b[i]
    ensures Before(a, b) <==> a[i] < b[i]
  {
    assert a == a[..i] + a[i..] && b == a[..i] + b[i..];
    CommonPrefix(a[..i], a[i..], b[i..]);
  }

  /** The order in terms of the first byte that differs: a proper prefix comes first. */
  lemma {:induction false} Lexicographic(a: Bytes, b: Bytes)
    ensures Before(a, b) <==> exists i: nat :: FirstDifference(a, b, i) && i < |b| && (i == |a| || a[i] < b[i])
  {
    if a != [] && b != [] && a[0] == b[0] {
      Lexicographic(a[1..], b[1..]);
      if i: nat :| FirstDifference(a[1..], b[1..], i) && i < |b[1..]| && (i == |a[1..]| || a[1..][i] < b[1..][i]) {
        assert a[..i + 1] == [a[0]] + a[1..][..i] == b[..i + 1];
        assert FirstDifference(a, b, i + 1);
      }
      if i: nat :| FirstDifference(a, b, i) && i < |b| && (i == |a| || a[i] < b[i]) {
        assert a[1..][..i - 1] == a[..i][1..] == b[..i][1..] == b[1..][..i - 1];
        assert FirstDifference(a[1..], b[1..], i - 1);
      }
    } else {
      assert FirstDifference(a, b, 0);
    }
  }

  /** The strings agree up to i, where one of them ends or they differ. */
  ghost predicate FirstDifference(a: Bytes, b: Bytes, i: nat) {
    i <= |a| && i <= |b| && a[..i] == b[..i] && (i < |a| && i < |b| ==> a[i] != b[i])
  }

  /** Position i decides between the strings and leaves room for another byte between theirs. */
  ghost predicate RoomAt(start: Bytes, limit: Bytes, i: nat) {
    i < |start| && i < |limit| && start[..i] == limit[..i] && start[i] < 0xff && start[i] as int + 1 < limit[i] as int
  }

  lemma OneRoom(start: Bytes, limit: Bytes, i: nat, j: nat)
    requires RoomAt(start, limit, i) && j <= |start| && j <= |limit| && start[..j] == limit[..j]
    requires j < |start| && j < |limit| ==> start[j] != limit[j]
    ensures i == j
  {
    assert forall k :: 0 <= k < i ==> start[..i][k] == limit[..i][k];
    assert forall k :: 0 <= k < j ==> start[..j][k] == limit[..j][k];
  }

  /** A key between `start` and `limit`: if the first byte that differs can be incremented without reaching that of
      `limit`, it is, and what follows is cut off; otherwise `start` itself. */
  method FindShortestSeparator(start: Bytes, limit: Bytes) returns (r: Bytes)
    ensures Before(start, limit) ==> !Before(r, start) && Before(r, limit)
    ensures !Before(start, limit) ==> r == start
    ensures |r| <= |start| && (r != start ==> Before(start, r))
    ensures forall i: nat :: RoomAt(start, limit, i) ==> r == start[..i] + [start[i] + 1]
    ensures (forall i: nat :: !RoomAt(start, limit, i)) ==> r == start
  {
    var minLength := if |start| < |limit| then |start| else |limit|;
    var diffIndex := 0;
    while diffIndex < minLength && start[diffIndex] == limit[diffIndex]
      invariant diffIndex <= minLength && start[..diffIndex] == limit[..diffIndex]
    {
      diffIndex := diffIndex + 1;
    }
    r := start;
    NotBeforeSelf(start);
    forall i: nat | RoomAt(start, limit, i)
      ensures i == diffIndex
    {
      OneRoom(start, limit, i, diffIndex);
    }
    if diffIndex < minLength {
      DecidedAt(start, limit, diffIndex);
      var diffByte := start[diffIndex];
      if diffByte < 0xff && diffByte + 1 < limit[diffIndex] {
        r := start[..diffIndex] + [diffByte + 1];
        assert r[..diffIndex] == start[..diffIndex];
        DecidedAt(start, r, diffIndex);
        DecidedAt(r, start, diffIndex);
        DecidedAt(r, limit, diffIndex);
        assert RoomAt(start, limit, diffIndex);
      }
    }
  }

  lemma NotBeforeSelf(a: Bytes)
    ensures !Before(a, a)
  {
    RankOrder(a, a);
  }

  /** Everything before i is 0xff, and the byte at i is not. */
  ghost predicate FirstBelow(key: Bytes, i: nat) {
    i < |key| && key[i] != 0xff && forall j :: 0 <= j < i ==> key[j] == 0xff
  }

  /** A short key at or after `key`; a run of 0xff has none. */
  method FindShortSuccessor(key: Bytes) returns (r: Bytes)
    ensures !Before(r, key) && |r| <= |key|
    ensures r == key || Before(key, r)
    ensures (forall i :: 0 <= i < |key| ==> key[i] == 0xff) <==> r == key
    ensures forall i: nat :: FirstBelow(key, i) ==> r == key[..i] + [key[i] + 1]
    ensures (forall i: nat :: !FirstBelow(key, i)) ==> r == key
  {
    NotBeforeSelf(key);
    for i := 0 to |key|
      invariant forall j :: 0 <= j < i ==> key[j] == 0xff
    {
      if key[i] != 0xff {
        r := key[..i] + [key[i] + 1];
        assert r[..i] == key[..i];
        DecidedAt(key, r, i);
        DecidedAt(r, key, i);
        assert FirstBelow(key, i);
        return;
      }
    }
    r := key;
  }

  // ---- internal keys ----

  /** An encoded internal key: user key bytes and the packed sequence number and type. */
  datatype RawKey = RawKey(user: Bytes, sn: SequenceNumber, typ: ValueType)

  /** The key that the rest of this project works with. */
  function Abstract(k: RawKey): InternalKey {
    InternalKey(Rank(k.user), k.sn, k.typ)
  }

  /** InternalKeyComparator::Compare < 0. */
  predicate RawLess(a: RawKey, b: RawKey) {
    Before(a.user, b.user) || (!Before(b.user, a.user) && Tag(Abstract(a)) > Tag(Abstract(b)))
  }

  lemma AbstractOrder(a: RawKey, b: RawKey)
    ensures RawLess(a, b) <==> Less(Abstract(a), Abstract(b))
    ensures Abstract(a) == Abstract(b) <==> a == b
  {
    RankOrder(a.user, b.user);
    RankOrder(b.user, a.user);
  }

  /** The packed trailer of an internal key: the sequence number in the upper seven bytes, the type in the lowest. */
  lemma TagParts(k: RawKey)
    ensures Tag(Abstract(k)) / 256 == k.sn && Tag(Abstract(k)) % 256 == if k.typ.TypeValue? then 1 else 0
    ensures Tag(Abstract(k)) < 0x1_0000_0000_0000_0000
  {
  }

  /** r is what FindInternalSeparator makes of start and limit. */
  ghost predicate IsSeparator(start: RawKey, limit: RawKey, r: RawKey) {
    && (r == start || (r.sn == MAX_SEQUENCE && r.typ.TypeValue?))
    && (forall i: nat :: RoomAt(start.user, limit.user, i) && i + 1 < |start.user| ==> r.user == start.user[..i] + [start.user[i] + 1])
    && ((forall i: nat :: !(RoomAt(start.user, limit.user, i) && i + 1 < |start.user|)) ==> r == start)
  }

  /** r is what FindInternalSuccessor makes of key. */
  ghost predicate IsSuccessor(key: RawKey, r: RawKey) {
    && (r == key || (r.sn == MAX_SEQUENCE && r.typ.TypeValue?))
    && (forall i: nat :: FirstBelow(key.user, i) && i + 1 < |key.user| ==> r.user == key.user[..i] + [key.user[i] + 1])
    && ((forall i: nat :: !(FirstBelow(key.user, i) && i + 1 < |key.user|)) ==> r == key)
  }

  /** A key at or after `start` and before `limit`: with the separating user key if that is shorter than that of
      `start`, and then as the first key of its user key; otherwise `start`. */
  method FindInternalSeparator(start: RawKey, limit: RawKey) returns (r: RawKey)
    ensures r == start || RawLess(start, r)
    ensures RawLess(start, limit) ==> RawLess(r, limit)
    ensures r != start ==> Before(start.user, r.user) && (RawLess(start, limit) ==> Before(r.user, limit.user))
    ensures |r.user| <= |start.user|
    ensures r == start || (r.sn == 0xff_ffff_ffff_ffff && r.typ.TypeValue? && |r.user| < |start.user|)
    ensures IsSeparator(start, limit, r)
  {
    var tmp := FindShortestSeparator(start.user, limit.user);
    r := start;
    if |tmp| < |start.user| && Before(start.user, tmp) {
      r := RawKey(tmp, MAX_SEQUENCE, TypeValue);
    }
  }

  method FindInternalSuccessor(key: RawKey) returns (r: RawKey)
    ensures r == key || (RawLess(key, r) && Before(key.user, r.user))
    ensures |r.user| <= |key.user|
    ensures r == key || (r.sn == 0xff_ffff_ffff_ffff && r.typ.TypeValue? && |r.user| < |key.user|)
    ensures IsSuccessor(key, r)
  {
    var tmp := FindShortSuccessor(key.user);
    r := key;
    if |tmp| < |key.user| && Before(key.user, tmp) {
      r := RawKey(tmp, MAX_SEQUENCE, TypeValue);
    }
  }
}
