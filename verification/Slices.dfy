/** Length-prefixed strings, and reading from the front of a string (util/coding). */
module Slices {
  import opened Options
  import opened Coding

  /** GetVarint32 and GetVarint64 on a slice: a number of at most n bytes and the rest of the input. */
  function TakeVarint(input: Bytes, n: nat, modulus: nat): Option<(nat, Bytes)>
    requires modulus > 0
  {
    var d := DecodeVarint(input, 0, |input|, n);
    if d.0 then Some((d.1 % modulus, input[d.2..])) else None
  }

  function TakeWord(input: Bytes): (r: Option<(Word, Bytes)>)
    ensures r.Some? ==> |r.value.1| < |input|
  {
    TakeVarint(input, VARINT32_MAX_BYTES, WORD_MAX + 1)
  }

  function TakeSlice(input: Bytes): (r: Option<(Bytes, Bytes)>)
    ensures r.Some? ==> |r.value.1| < |input|
  {
    var len := TakeWord(input);
    if len.None? || |len.value.1| < len.value.0 then None
    else Some((len.value.1[..len.value.0], len.value.1[len.value.0..]))
  }

  /** PutLengthPrefixedSlice: of the length the low 32 bits are written. */
  function PutSlice(s: Bytes): Bytes {
    EncodeVarint(|s| % 0x1_0000_0000) + s
  }

  lemma Front(a: Bytes, rest: Bytes)
    ensures HasAt(a + rest, 0, a) && (a + rest)[|a|..] == rest
  {
  }

  lemma WordTaken(v: Word, rest: Bytes)
    ensures TakeWord(EncodeVarint(v) + rest) == Some((v, rest))
  {
    hide EncodeVarint, DecodeVarint, HasAt;
    VarintLength(v);
    Front(EncodeVarint(v), rest);
    VarintRoundTrip(v, EncodeVarint(v) + rest, 0, |EncodeVarint(v) + rest|, VARINT32_MAX_BYTES);
  }

  lemma SliceTaken(s: Bytes, rest: Bytes)
    requires |s| <= WORD_MAX
    ensures TakeSlice(PutSlice(s) + rest) == Some((s, rest))
  {
    hide EncodeVarint;
    assert PutSlice(s) + rest == EncodeVarint(|s|) + (s + rest);
    WordTaken(|s|, s + rest);
    Front(s, rest);
  }
}
