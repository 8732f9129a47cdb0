/** What the decoder makes of bytes that this library's encoder need not have written: unknown records, ends of
    messages, and numbers, strings and lengths of any form. */
module ProtoInputs {
  import opened Options
  import opened Coding
  import opened ProtoSchema
  import opened ProtoIteration
  import opened ProtoVarints
  import opened ProtoParsing

  // ---- records of unknown fields ----

  /** At p stands a key, up to q, that is not 0 and whose tag no field has.  (In a message without fields, tag 0 is
      not such a tag.) */
  ghost predicate UnknownKey(data: seq<byte>, p: nat, q: nat, limit: nat, d: Descriptor, key: nat) {
    && limit <= |data| && ParseVarint32(data, p, limit) == Some((key, q)) && key != 0
    && (forall f :: f in d.fields ==> f.tag != key / 8) && (d.fields == [] ==> key / 8 != 0)
  }

  lemma UnknownStep(data: seq<byte>, p: nat, q: nat, limit: nat, d: Descriptor, pr: Progress, key: nat)
    requires ValidDescriptor(d) && ValidProgress(d, pr) && UnknownKey(data, p, q, limit, d, key)
    ensures p < limit && q <= limit <= |data|
    ensures var next := ParseUnknown(data, q, limit, key % 8);
      ParseMessage(data, p, limit, d, pr) == if next.None? then None else ParseMessage(data, next.value, limit, d, pr)
  {
    hide ParseUnknown, ParseVarint32, Finish, ValidProgress, ValidDescriptor;
  }

  /** A record of an unknown field is passed over: eight bytes if its key is 1 modulo 8, four if it is 5, and a
      length and as many bytes if it is 2. */
  lemma UnknownPassed(data: seq<byte>, p: nat, q: nat, limit: nat, d: Descriptor, pr: Progress, key: nat)
    requires ValidDescriptor(d) && ValidProgress(d, pr) && UnknownKey(data, p, q, limit, d, key)
    ensures p < limit && q <= limit
    ensures key % 8 == 1 ==> ParseMessage(data, p, limit, d, pr) == if q + 8 <= limit then ParseMessage(data, q + 8, limit, d, pr) else None
    ensures key % 8 == 5 ==> ParseMessage(data, p, limit, d, pr) == if q + 4 <= limit then ParseMessage(data, q + 4, limit, d, pr) else None
    ensures key % 8 == 2 ==>
        var size := ParseVarint32(data, q, limit);
        ParseMessage(data, p, limit, d, pr) ==
          if size.Some? && size.value.1 + size.value.0 <= limit then ParseMessage(data, size.value.1 + size.value.0, limit, d, pr) else None
    ensures key % 8 in {3, 4, 6, 7} ==> ParseMessage(data, p, limit, d, pr) == None
  {
    hide *;
    UnknownStep(data, p, q, limit, d, pr, key);
    SkipsExactly(data, q, limit);
  }

  lemma SkipsExactly(data: seq<byte>, q: nat, limit: nat)
    requires q <= limit <= |data|
    ensures ParseUnknown(data, q, limit, 1) == if q + 8 <= limit then Some(q + 8) else None
    ensures ParseUnknown(data, q, limit, 5) == if q + 4 <= limit then Some(q + 4) else None
    ensures var size := ParseVarint32(data, q, limit);
      ParseUnknown(data, q, limit, 2) == if size.Some? && size.value.1 + size.value.0 <= limit then Some(size.value.1 + size.value.0) else None
    ensures forall wire :: wire in {3, 4, 6, 7} ==> ParseUnknown(data, q, limit, wire) == None
  {
    hide ParseVarint32;
  }

  /** An unknown number ends with its first unmarked byte, at e, if there is one. */
  lemma UnknownNumberPassed(data: seq<byte>, p: nat, q: nat, limit: nat, d: Descriptor, pr: Progress, key: nat, e: nat)
    requires ValidDescriptor(d) && ValidProgress(d, pr) && UnknownKey(data, p, q, limit, d, key) && key % 8 == 0
    requires q <= e <= limit <= |data| && (forall i :: q <= i < e ==> data[i] >= 128) && (e < limit ==> data[e] < 128)
    ensures p < limit
    ensures ParseMessage(data, p, limit, d, pr) == if e == limit then None else ParseMessage(data, e + 1, limit, d, pr)
  {
    hide *;
    UnknownStep(data, p, q, limit, d, pr, key);
    SkipsNumber(data, q, limit, e);
  }

  lemma {:induction false} SkipsNumber(data: seq<byte>, q: nat, limit: nat, e: nat)
    requires q <= e <= limit <= |data| && (forall i :: q <= i < e ==> data[i] >= 128) && (e < limit ==> data[e] < 128)
    ensures ParseUnknown(data, q, limit, 0) == SkipVarint(data, q, limit) == if e == limit then None else Some(e + 1)
    decreases limit - q
  {
    if q < e {
      SkipsNumber(data, q + 1, limit, e);
    }
  }

  /** In a message without fields the decoder rests on the end marker of the descriptor: it takes a record with tag 0
      for one of a field, and reads a bool. */
  lemma MarkerRead(data: seq<byte>, p: nat, q: nat, limit: nat, d: Descriptor, pr: Progress, key: nat)
    requires limit <= |data| && ValidDescriptor(d) && ValidProgress(d, pr) && d.fields == []
    requires ParseVarint32(data, p, limit) == Some((key, q)) && 0 < key < 8
    ensures p < limit && q <= limit
    ensures var v := ParseVarint32(data, q, limit);
      ParseMessage(data, p, limit, d, pr) == if v.None? then None else ParseMessage(data, v.value.1, limit, d, pr)
  {
    hide ParseVarint32, Finish, ValidProgress, ValidDescriptor;
  }

  // ---- ends ----

  /** A key of 0 ends a message as the end of its bytes does. */
  lemma ZeroEnds(data: seq<byte>, p: nat, q: nat, limit: nat, d: Descriptor, pr: Progress)
    requires limit <= |data| && ValidDescriptor(d) && ValidProgress(d, pr) && ParseVarint32(data, p, limit) == Some((0, q))
    ensures p < limit
    ensures var cut := ParseMessage(data, p, p, d, pr);
      ParseMessage(data, p, limit, d, pr) == if cut.None? then None else Some((cut.value.0, q))
  {
  }

  /** A submessage takes up the bytes that its length says, wherever in them it ends. */
  lemma SubmessageSpan(data: seq<byte>, p: nat, limit: nat, k: Kind, prior: Value)
    requires p <= limit <= |data| && ValidKind(k) && Storable(k, prior, true) && k.Submessage?
    ensures ParseVarint32(data, p, limit).Some? ==> ParseVarint32(data, p, limit).value.1 <= limit
    ensures var size, r := ParseVarint32(data, p, limit), ParseValue(data, p, limit, k, prior);
      if size.None? || size.value.1 + size.value.0 > limit then r.None?
      else
        var m := ParseMessage(data, size.value.1, size.value.1 + size.value.0, k.descriptor, Start(prior.slots));
        r == if m.None? then None else Some((Message(m.value.0), size.value.1 + size.value.0))
  {
    hide ParseMessage, ParseVarint32;
  }

  // ---- numbers ----

  /** What is stored of a 64-bit number v: in a signed variable of up to four bytes, v modulo 2^32 if the variable can
      hold that; of eight bytes, v modulo 2^64; in an unsigned one, v itself; with zigzag, the number that v stands
      for; and nothing else is accepted. */
  lemma IntegerRead(k: Kind, v: nat, n: int)
    requires (k.Varint? || k.UVarint? || k.SVarint?) && ValidKind(k) && v < 0x1_0000_0000_0000_0000
    ensures IntOf(k, v) == Some(Num(n)) <==> match k
      case Varint(size) =>
        && (if size == 8 then (v - n) % 0x1_0000_0000_0000_0000 == 0 else (v - n) % 0x1_0000_0000 == 0)
        && (match size
            case 1 => -0x80 <= n < 0x80
            case 2 => -0x8000 <= n < 0x8000
            case 4 => -0x8000_0000 <= n < 0x8000_0000
            case _ => -0x8000_0000_0000_0000 <= n < 0x8000_0000_0000_0000)
      case UVarint(size) =>
        && n == v
        && (match size
            case 1 => n < 0x100
            case 2 => n < 0x1_0000
            case 4 => n < 0x1_0000_0000
            case _ => true)
      case SVarint(size) =>
        && v == (if n < 0 then -2 * n - 1 else 2 * n)
        && (match size
            case 1 => -0x80 <= n < 0x80
            case 2 => -0x8000 <= n < 0x8000
            case 4 => -0x8000_0000 <= n < 0x8000_0000
            case _ => true)
  {
    hide IntOf, ToSigned, Signed, Modulus, UnZigZag;
    match k
    case Varint(size) => VarintRead(size, v, n);
    case UVarint(size) => UVarintRead(size, v, n);
    case SVarint(size) => SVarintRead(size, v, n);
  }

  lemma VarintRead(size: nat, v: nat, n: int)
    requires ValidSize(size) && v < TWO64
    ensures IntOf(Varint(size), v) == Some(Num(n)) <==>
      && (if size == 8 then (v - n) % 0x1_0000_0000_0000_0000 == 0 else (v - n) % 0x1_0000_0000 == 0)
      && (match size
          case 1 => -0x80 <= n < 0x80
          case 2 => -0x8000 <= n < 0x8000
          case 4 => -0x8000_0000 <= n < 0x8000_0000
          case _ => -0x8000_0000_0000_0000 <= n < 0x8000_0000_0000_0000)
  {
    SignedRead(v, n, size);
    hide ToSigned;
  }

  lemma UVarintRead(size: nat, v: nat, n: int)
    requires ValidSize(size) && v < TWO64
    ensures IntOf(UVarint(size), v) == Some(Num(n)) <==>
      && n == v
      && (match size
          case 1 => n < 0x100
          case 2 => n < 0x1_0000
          case 4 => n < 0x1_0000_0000
          case _ => true)
  {
  }

  lemma SVarintRead(size: nat, v: nat, n: int)
    requires ValidSize(size) && v < TWO64
    ensures IntOf(SVarint(size), v) == Some(Num(n)) <==>
      && v == (if n < 0 then -2 * n - 1 else 2 * n)
      && (match size
          case 1 => -0x80 <= n < 0x80
          case 2 => -0x8000 <= n < 0x8000
          case 4 => -0x8000_0000 <= n < 0x8000_0000
          case _ => true)
  {
  }

  lemma SignedRead(v: nat, n: int, size: nat)
    requires ValidSize(size) && v < TWO64
    ensures size == 8 ==> (ToSigned(v, 8) == n <==> Signed(n, 8) && (v - n) % TWO64 == 0)
    ensures size != 8 ==> (ToSigned(v, 4) == n && Signed(n, size) <==> Signed(n, size) && (v - n) % TWO32 == 0)
  {
    if size == 8 {
      Congruent64(v, n);
    } else if Signed(n, 4) {
      Congruent32(v, n);
    }
  }

  lemma Congruent32(v: nat, n: int)
    requires Signed(n, 4)
    ensures (v - n) % TWO32 == 0 <==> ToSigned(v, 4) == n
  {
    var q, w := v / TWO32, v % TWO32;
    assert v - n == q * TWO32 + (w - n);
  }

  lemma Congruent64(v: nat, n: int)
    requires v < TWO64
    ensures Signed(n, 8) && (v - n) % TWO64 == 0 <==> ToSigned(v, 8) == n
  {
  }

  /** Every number but 0 is true. */
  lemma BoolRead(data: seq<byte>, p: nat, q: nat, limit: nat, v: nat)
    requires p <= limit <= |data| && ParseVarint32(data, p, limit) == Some((v, q))
    ensures ParseScalar(data, p, limit, Bool) == Some((Num(if v == 0 then 0 else 1), q))
  {
  }

  /** Fixed-width numbers take four or eight bytes, the least significant first. */
  lemma FixedRead(data: seq<byte>, p: nat, limit: nat)
    requires p <= limit <= |data|
    ensures ParseScalar(data, p, limit, Fixed32) ==
      if p + 4 <= limit then Some((Num(DecodeFixed32(data[p..p + 4])), p + 4)) else None
    ensures ParseScalar(data, p, limit, Fixed64) ==
      if p + 8 <= limit then Some((Num(DecodeFixed32(data[p..p + 4]) + 0x1_0000_0000 * DecodeFixed32(data[p + 4..p + 8])), p + 8)) else None
  {
    if p + 8 <= limit {
      assert data[p..p + 8][..4] == data[p..p + 4] && data[p..p + 8][4..] == data[p + 4..p + 8];
    }
    hide DecodeFixed32;
  }

  // ---- strings and bytes ----

  /** Bytes must fit, a string must leave room for its NUL, bytes of a fixed length must have it or be left out; a
      string ends at the first NUL in it. */
  lemma BlobExactly(data: seq<byte>, p: nat, q: nat, limit: nat, k: Kind, size: nat)
    requires p <= limit <= |data| && IsBlob(k) && ParseVarint32(data, p, limit) == Some((size, q))
    ensures var r := ParseBlob(data, p, limit, k);
      match k
      case Bytes(capacity) => r == if size <= capacity && q + size <= limit then Some((Data(data[q..q + size]), q + size)) else None
      case String(buffer) =>
        && (r.Some? <==> size < buffer && q + size <= limit)
        && (r.Some? ==> r.value.1 == q + size && r.value.0.Data? && r.value.0.bytes <= data[q..q + size] && 0 !in r.value.0.bytes)
        && (r.Some? ==> |r.value.0.bytes| == size || data[q + |r.value.0.bytes|] == 0)
      case FixedBytes(length) =>
        r == if size == 0 then Some((Data(seq(length, _ => 0)), q))
             else if size == length && q + size <= limit then Some((Data(data[q..q + size]), q + size))
             else None
      case _ => true
  {
    hide ParseVarint32, Storable, UntilNul;
    if k.String? && size < k.size && q + size <= limit {
      FirstNul(data[q..q + size]);
    }
  }

  lemma {:induction false} FirstNul(bs: seq<byte>)
    ensures UntilNul(bs) <= bs && (|UntilNul(bs)| < |bs| ==> bs[|UntilNul(bs)|] == 0)
  {
    if bs != [] && bs[0] != 0 {
      FirstNul(bs[1..]);
    }
  }
}
