/** Internal keys and their order (db/dbformat).

    A user key is represented by its place in the user comparator's order, a
    real number: every total order on a countable set of keys embeds into the
    reals.  Module Bytewise exhibits the embedding for LevelDB's built-in
    comparator. */
module Keys {
  type UserKey = real
  type Value = seq<bv8>

  const MAX_SEQUENCE: nat := 0xFF_FFFF_FFFF_FFFF
  type SequenceNumber = n: nat | n <= MAX_SEQUENCE witness 0
  const NUM_LEVELS: nat := 7
  const MAX_MEM_COMPACT_LEVEL: nat := 2

  datatype ValueType = TypeDeletion | TypeValue

  datatype InternalKey = InternalKey(user: UserKey, sn: SequenceNumber, typ: ValueType)

  /** The packed 64-bit trailer of an internal key. */
  function Tag(k: InternalKey): nat {
    k.sn * 256 + (if k.typ.TypeValue? then 1 else 0)
  }

  /** Increasing user key, then decreasing packed sequence and type. */
  predicate Less(a: InternalKey, b: InternalKey) {
    a.user < b.user || (a.user == b.user && Tag(a) > Tag(b))
  }

  predicate LessEq(a: InternalKey, b: InternalKey) {
    !Less(b, a)
  }

  /** The key that a lookup of `u` at snapshot `s` seeks: it sorts before every
      version of `u` with sequence at most `s` and after every newer one. */
  function LookupKey(u: UserKey, s: SequenceNumber): InternalKey {
    InternalKey(u, s, TypeValue)
  }

  datatype Entry = Entry(key: InternalKey, value: Value)

  ghost predicate Sorted(es: seq<Entry>) {
    forall i, j :: 0 <= i < j < |es| ==> Less(es[i].key, es[j].key)
  }

  /** Index of the first entry at or after `k`, or |es|. */
  function LowerBound(es: seq<Entry>, k: InternalKey): (r: nat)
    ensures r <= |es|
    ensures forall i :: 0 <= i < r ==> Less(es[i].key, k)
    ensures r < |es| ==> !Less(es[r].key, k)
  {
    if es == [] || !Less(es[0].key, k) then 0 else 1 + LowerBound(es[1..], k)
  }

  ghost function ToSet<T>(es: seq<T>): set<T> {
    set e | e in es
  }
}
