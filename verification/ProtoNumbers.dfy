/** Numbers, blobs and length prefixes survive encoding and decoding. */
module ProtoNumbers {
  import opened Options
  import opened Coding
  import opened ProtoSchema
  import opened ProtoEncoding
  import opened ProtoVarints
  import opened ProtoParsing

  lemma SignedSurvives(n: int, size: nat)
    requires ValidSize(size) && Signed(n, size)
    ensures ToSigned(Unsigned64(n), if size == 8 then 8 else 4) == n
  {
  }

  lemma ZigZagSurvives(n: int)
    requires Signed(n, 8)
    ensures ZigZag(n) < TWO64 && UnZigZag(ZigZag(n)) == n
  {
  }

  lemma Varint32Survives(data: seq<byte>, p: nat, limit: nat, v: nat)
    requires HasAt(data, p, EncodeVarint(v)) && p + |EncodeVarint(v)| <= limit <= |data| && v < TWO32
    ensures ParseVarint32(data, p, limit) == Some((v, p + |EncodeVarint(v)|))
  {
    var q := p + |EncodeVarint(v)|;
    VarintRoundTrip(v, data, p, limit, q - p);
    Varint32Right(data, p, q, limit, v);
  }

  lemma VarintSurvives(data: seq<byte>, p: nat, limit: nat, v: nat)
    requires HasAt(data, p, EncodeVarint(v)) && p + |EncodeVarint(v)| <= limit <= |data| && v < TWO64
    ensures ParseVarint(data, p, limit) == Some((v, p + |EncodeVarint(v)|))
  {
    LongestVarint(v);
    VarintRoundTrip(v, data, p, limit, 10);
  }

  lemma ScalarSurvives(data: seq<byte>, p: nat, limit: nat, k: Kind, v: Value)
    requires Packable(k) && ValidKind(k) && Storable(k, v, false)
    requires HasAt(data, p, EncodeScalar(k, v)) && p + |EncodeScalar(k, v)| <= limit <= |data|
    ensures ParseScalar(data, p, limit, k) == Some((v, p + |EncodeScalar(k, v)|))
  {
    hide DecodeVarint, EncodeVarint, ParseVarint, ParseVarint32, HasAt, Take, EncodeFixed32, EncodeFixed64, DecodeFixed64, ZigZag, UnZigZag;
    match k
    case Bool => Varint32Survives(data, p, limit, v.n);
    case Varint(size) =>
      VarintSurvives(data, p, limit, Unsigned64(v.n));
      SignedSurvives(v.n, size);
    case UVarint(_) => VarintSurvives(data, p, limit, v.n);
    case SVarint(_) =>
      ZigZagSurvives(v.n);
      VarintSurvives(data, p, limit, ZigZag(v.n));
    case Fixed32 => TakeSurvives(data, p, limit, EncodeFixed32(v.n));
    case Fixed64 =>
      Fixed64RoundTrip(v.n);
      TakeSurvives(data, p, limit, EncodeFixed64(v.n));
  }

  /** A length prefix leads to what it counts. */
  lemma CountedSurvives(data: seq<byte>, p: nat, limit: nat, body: seq<byte>)
    requires HasAt(data, p, Counted(body)) && p + |Counted(body)| <= limit <= |data| && |body| < TWO32
    ensures var q := p + |EncodeVarint(|body|)|;
      && ParseVarint32(data, p, limit) == Some((|body|, q))
      && ParseDelimited(data, p, limit) == Some((q, q + |body|))
      && HasAt(data, q, body) && q + |body| == p + |Counted(body)|
  {
    hide HasAt, EncodeVarint, ParseVarint32;
    HasParts(data, p, EncodeVarint(|body|), body);
    Varint32Survives(data, p, limit, |body|);
  }

  /** A string that fills its whole buffer is written but not read back. */
  lemma BlobSurvives(data: seq<byte>, p: nat, limit: nat, k: Kind, v: Value)
    requires IsBlob(k) && ValidKind(k) && Storable(k, v, false) && FitsValue(k, v, false)
    requires HasAt(data, p, EncodeValue(k, v)) && p + |EncodeValue(k, v)| <= limit <= |data|
    requires |v.bytes| < TWO32
    ensures var r := ParseBlob(data, p, limit, k);
      && (r.Some? <==> FitsValue(k, v, true))
      && (r.Some? ==> r.value == (v, p + |EncodeValue(k, v)|))
  {
    hide ParseVarint32, ParseDelimited, EncodeVarint, HasAt, Take, UntilNul;
    CountedSurvives(data, p, limit, v.bytes);
    TakeSurvives(data, p + |EncodeVarint(|v.bytes|)|, limit, v.bytes);
    if k.FixedBytes? && v.bytes == [] {
      assert v.bytes == Zeros(0);
    }
  }

  lemma TakeSurvives(data: seq<byte>, p: nat, limit: nat, bs: seq<byte>)
    requires HasAt(data, p, bs) && p + |bs| <= limit <= |data|
    ensures Take(data, p, limit, |bs|) == Some((bs, p + |bs|))
  {
  }
}
