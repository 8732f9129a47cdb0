/** Two encoded messages one after the other decode to the second merged into the first. */
module ProtoConcatenation {
  import opened Options
  import opened Coding
  import opened ProtoSchema
  import opened ProtoIteration
  import opened ProtoEncoding
  import opened ProtoParsing
  import opened ProtoMerging
  import P = ProtoNumbers

  // ---- a merge has one result ----

  lemma {:induction false} OneMergedValue(k: Kind, base: Value, v: Value, r: Value, r': Value)
    requires ValidKind(k) && Storable(k, base, true) && Storable(k, v, false)
    requires MergedValue(k, base, v, r) && MergedValue(k, base, v, r')
    ensures r == r'
    decreases k, 0
  {
    if k.Submessage? {
      OneMerged(k.descriptor, base.slots, v.slots, r.slots, r'.slots);
    }
  }

  lemma {:induction false} OneMergedItems(k: Kind, before: seq<Value>, items: seq<Value>, r: seq<Value>, r': seq<Value>)
    requires ValidKind(k) && AllStorable(k, items) && MergedItems(k, before, items, r) && MergedItems(k, before, items, r')
    ensures r == r'
    decreases k, 1
  {
    ZeroStorable(k);
    forall x | 0 <= x < |r|
      ensures r[x] == r'[x]
    {
      if x >= |before| {
        assert MergedValue(k, Zero(k), items[x - |before|], r[|before| + (x - |before|)]);
        assert MergedValue(k, Zero(k), items[x - |before|], r'[|before| + (x - |before|)]);
        OneMergedValue(k, Zero(k), items[x - |before|], r[x], r'[x]);
      }
    }
  }

  lemma {:induction false} OneMergedField(f: Field, base: Slot, slot: Slot, r: Slot, r': Slot)
    requires ValidField(f) && HoldsField(f, base, true) && HoldsField(f, slot, false) && !Absent(f, slot)
    requires MergedField(f, base, slot, r) && MergedField(f, base, slot, r')
    ensures r == r'
    decreases f
  {
    KindOf(f);
    ZeroStorable(f.kind);
    if IsArray(f.rule) {
      OneMergedItems(f.kind, Before(f, base), slot.items, r.items, r'.items);
    } else if f.rule.Oneof? {
      OneMergedValue(f.kind, if base.which == f.tag then base.v else Zero(f.kind), slot.v, r.v, r'.v);
    } else {
      OneMergedValue(f.kind, base.v, slot.v, r.v, r'.v);
    }
  }

  lemma {:induction false} OneMerged(d: Descriptor, base: seq<Slot>, m: seq<Slot>, r: seq<Slot>, r': seq<Slot>)
    requires ValidDescriptor(d) && Holds(d, base, true) && Holds(d, m, false) && Merged(d, base, m, r) && Merged(d, base, m, r')
    ensures r == r'
    decreases d
  {
    forall s | 0 <= s < |r|
      ensures r[s] == r'[s]
    {
      if !Untouched(d, m, s, |d.fields|) {
        var i: nat :| i < |d.fields| && SlotOf(d.fields, i) == s && !AbsentAt(d, m, i);
        Held(d, base, i, true);
        Held(d, m, i, false);
        assert MergedAt(d, base, m, r, i) && MergedAt(d, base, m, r', i);
        hide Holds, MergedTo, HoldsField, MergedField, ValidField;
        OneMergedField(d.fields[i], base[s], m[s], r[s], r'[s]);
      }
    }
  }

  // ---- the array that the decoder counts ----

  /** The descriptor has exactly one fixed-count array with elements. */
  ghost predicate OneCounted(d: Descriptor) {
    exists x: nat :: Counts(d, x) && forall y: nat :: Counts(d, y) ==> y == x
  }

  lemma {:induction false} LastCounted(d: Descriptor, fixed: Option<nat>, i: nat)
    requires i <= |d.fields| && (fixed.Some? ==> Counts(d, fixed.value) && fixed.value < i)
    requires forall y: nat :: Counts(d, y) && y < i ==> fixed.Some? && y <= fixed.value
    ensures var last := FixedFrom(d, fixed, i);
      && (last.Some? ==> Counts(d, last.value))
      && forall y: nat :: Counts(d, y) ==> last.Some? && y <= last.value
    decreases |d.fields| - i
  {
    if i < |d.fields| {
      LastCounted(d, if Counts(d, i) then Some(i) else fixed, i + 1);
    }
  }

  /** After a whole message the decoder is blocked exactly if there is no other array to count first. */
  lemma UnblockedAgain(d: Descriptor, pr: Progress)
    requires pr.fixed == FixedFrom(d, None, 0)
    ensures Unblocked(d, pr, 0) <==> !OneCounted(d)
    ensures pr.fixed.Some? ==> Counts(d, pr.fixed.value)
  {
    LastCounted(d, None, 0);
    hide Counts, FixedFrom;
    if pr.fixed.Some? {
      var x := pr.fixed.value;
      if y: nat :| Counts(d, y) && y != x {
        assert y < x;
      }
    }
  }

  /** A full array takes no further record. */
  lemma FullRefuses(data: seq<byte>, q: nat, limit: nat, f: Field, items: seq<Value>, wire: nat, a: Array)
    requires ValidField(f) && ValidKind(f.kind) && ValidArray(f, a) && a.count >= MaxCount(f.rule) && q <= limit <= |data|
    requires wire == 2 && Packable(f.kind) ==> ParseDelimited(data, q, limit).Some? ==>
      ParseDelimited(data, q, limit).value.0 < ParseDelimited(data, q, limit).value.1
    ensures ParseArray(data, q, limit, wire, f, a) == None
  {
    hide ParseDelimited, ParseScalar, ValidField, ValidKind;
  }

  lemma FullStops(data: seq<byte>, p: nat, limit: nat, d: Descriptor, base: seq<Slot>, m: seq<Slot>, pr: Progress, i: nat, bs: seq<byte>)
    requires ValidDescriptor(d) && Holds(d, base, true) && Holds(d, m, false) && Fits(d, m, false) && i < |d.fields| && Ready(d, base, m, pr, i)
    requires Counts(d, i) && pr.fixed == Some(i)
    requires SlotOf(d.fields, i) < |m| && HoldsField(d.fields[i], m[SlotOf(d.fields, i)], false) && ValidKind(d.fields[i].kind)
    requires bs == EncodeField(d.fields[i], m[SlotOf(d.fields, i)]) && HasAt(data, p, bs) && p + |bs| <= limit <= |data| && |bs| < TWO32
    ensures ValidProgress(d, pr) && ParseMessage(data, p, limit, d, pr) == None
  {
    hide *;
    ReadyProgress(d, base, m, pr, i);
    CountedPresent(d, base, m, pr, i);
    ArrayAt(d, base, m, i);
    ArrayBytes(d, m, i);
    var f, items := d.fields[i], m[SlotOf(d.fields, i)].items;
    if Packable(f.kind) {
      PackedSizes(data, p, limit, f, items, bs);
      PackedNotEmpty(f.kind, items);
      KeySurvives(data, p, limit, f, Delimited, Counted(PackedFrom(f.kind, items, 0)));
      RecordParsed(data, p, limit, d, pr, i, Delimited, Counted(PackedFrom(f.kind, items, 0)));
      P.CountedSurvives(data, p + |Key(f.tag, Delimited)|, limit, PackedFrom(f.kind, items, 0));
      FullRefuses(data, p + |Key(f.tag, Delimited)|, limit, f, items, WireNumber(Delimited), ArrayOf(d, pr, i));
      FieldStops(data, p + |Key(f.tag, Delimited)|, limit, WireNumber(Delimited), d, pr, i);
    } else {
      ItemAt(f.kind, items, 0);
      EachSplits(f, items, 0);
      var w, body, rest := WireOf(f.kind), EncodeValue(f.kind, items[0]), EachFrom(f, items, 1);
      RecordOfItem(data, p, limit, f, w, body, rest);
      KeySurvives(data, p, limit, f, w, body);
      RecordParsed(data, p, limit, d, pr, i, w, body);
      FullRefuses(data, p + |Key(f.tag, w)|, limit, f, items, WireNumber(w), ArrayOf(d, pr, i));
      FieldStops(data, p + |Key(f.tag, w)|, limit, WireNumber(w), d, pr, i);
    }
  }

  lemma CountedPresent(d: Descriptor, base: seq<Slot>, m: seq<Slot>, pr: Progress, i: nat)
    requires ValidDescriptor(d) && Holds(d, base, true) && Holds(d, m, false) && i < |d.fields| && Ready(d, base, m, pr, i)
    requires Counts(d, i) && pr.fixed == Some(i)
    ensures IsArray(d.fields[i].rule) && ValidField(d.fields[i]) && !AbsentAt(d, m, i) && ValidProgress(d, pr)
    ensures ValidArray(d.fields[i], ArrayOf(d, pr, i)) && ArrayOf(d, pr, i).count >= MaxCount(d.fields[i].rule)
  {
    CountedHere(d, m, i);
    hide Holds, MergedTo, Storable, AbsentAt, SeenBefore, HoldsField, ValidDescriptor, ValidField;
  }

  lemma CountedHere(d: Descriptor, m: seq<Slot>, i: nat)
    requires ValidDescriptor(d) && Holds(d, m, false) && Counts(d, i)
    ensures IsArray(d.fields[i].rule) && ValidField(d.fields[i]) && !AbsentAt(d, m, i)
  {
    Held(d, m, i, false);
    hide Storable;
  }

  lemma PackedNotEmpty(k: Kind, items: seq<Value>)
    requires Packable(k) && ValidKind(k) && AllStorable(k, items) && items != []
    ensures PackedFrom(k, items, 0) != []
  {
    hide Storable, EncodeScalar;
  }

  lemma FieldStops(data: seq<byte>, q: nat, limit: nat, wire: nat, d: Descriptor, pr: Progress, i: nat)
    requires q <= limit <= |data| && ValidDescriptor(d) && ValidProgress(d, pr) && i < |d.fields| && IsArray(d.fields[i].rule)
    requires ValidField(d.fields[i]) && ValidArray(d.fields[i], ArrayOf(d, pr, i)) && ValidKind(d.fields[i].kind)
    requires ParseArray(data, q, limit, wire, d.fields[i], ArrayOf(d, pr, i)) == None
    ensures ParseField(data, q, limit, wire, d, pr, i) == None
  {
    hide Holds, ParseArray, ArrayOf, ValidDescriptor;
  }

  /** A message whose one counted array the decoder has just filled cannot be read again. */
  lemma {:induction false} BlockedStops(data: seq<byte>, p: nat, limit: nat, d: Descriptor, base: seq<Slot>, m: seq<Slot>, pr: Progress, i: nat, x: nat)
    requires ValidDescriptor(d) && Holds(d, base, true) && Holds(d, m, false) && Fits(d, m, false) && i <= x < |d.fields|
    requires Counts(d, x) && (forall y: nat :: Counts(d, y) ==> y == x) && pr.fixed == Some(x) && Ready(d, base, m, pr, i)
    requires HasAt(data, p, EncodeFrom(d, m, i)) && p + |EncodeFrom(d, m, i)| <= limit <= |data| && |EncodeFrom(d, m, i)| < TWO32
    ensures ValidProgress(d, pr) && ParseMessage(data, p, limit, d, pr) == None
    decreases x - i
  {
    hide *;
    EncodeSplits(d, m, i);
    ReadyProgress(d, base, m, pr, i);
    var bs, rest := EncodeField(d.fields[i], m[SlotOf(d.fields, i)]), EncodeFrom(d, m, i + 1);
    HasParts(data, p, bs, rest);
    if i == x {
      FullStops(data, p, limit, d, base, m, pr, i, bs);
    } else {
      var next := FieldSurvives(data, p, limit, d, base, m, pr, i, bs);
      FieldWasRead(data, p, limit, d, base, m, pr, i, bs, next);
      if FitsAt(d, base, m, i) {
        NotCounted(d, pr, i);
        BlockedStops(data, p + |bs|, limit, d, base, m, next, i + 1, x);
      }
    }
  }

  lemma CountsField(d: Descriptor, x: nat)
    requires Counts(d, x)
    ensures x < |d.fields|
  {
  }

  lemma NotCounted(d: Descriptor, pr: Progress, i: nat)
    requires !Counts(d, i)
    ensures FixedAfter(d, pr, i) == pr.fixed
  {
  }

  // ---- the law ----

  /** Merging has begun again, onto what was read first. */
  lemma ReadyAgain(d: Descriptor, base: seq<Slot>, first: seq<Slot>, pr: Progress, second: seq<Slot>)
    requires ValidDescriptor(d) && Holds(d, base, true) && Holds(d, first, false) && Holds(d, second, false)
    requires Ready(d, base, first, pr, |d.fields|)
    ensures Holds(d, pr.m, true) && Ready(d, pr.m, second, pr, 0) && Merged(d, base, first, pr.m)
  {
  }

  /** What decoding a message and then another one, with nothing in between, comes to. */
  ghost predicate MergesOnto(d: Descriptor, first: Option<(seq<Slot>, nat)>, second: seq<Slot>, end: nat, r: Option<(seq<Slot>, nat)>)
    requires ValidDescriptor(d) && Holds(d, second, false) && (first.Some? ==> Holds(d, first.value.0, true))
  {
    if first.None? then r.None?
    else
      && (r.Some? <==> MessageFitsOnto(d, first.value.0, second) && !OneCounted(d))
      && (r.Some? ==> Merged(d, first.value.0, second, r.value.0) && r.value.1 == end)
  }

  lemma SideBySide(a: seq<byte>, b: seq<byte>)
    ensures HasAt(a + b, 0, a) && HasAt(a + b, |a|, b) && HasAt(a, 0, a) && |a + b| == |a| + |b|
  {
  }

  lemma ParseStarts(data: seq<byte>, d: Descriptor)
    requires ValidDescriptor(d)
    ensures Holds(d, Defaults(d), true) && ValidProgress(d, Start(Defaults(d))) && Start(Defaults(d)).fixed == None
    ensures Parse(data, d) == ParseMessage(data, 0, |data|, d, Start(Defaults(d)))
  {
    DefaultsHold(d);
  }

  lemma MergesTold(data: seq<byte>, d: Descriptor, base: seq<Slot>, m: seq<Slot>)
    requires ValidDescriptor(d) && Holds(d, base, true) && Holds(d, m, false) && Merges(data, 0, |data|, d, base, m) && ValidProgress(d, Start(base))
    ensures var r := ParseMessage(data, 0, |data|, d, Start(base));
      (r.Some? <==> MessageFitsOnto(d, base, m)) && (r.Some? ==> Merged(d, base, m, r.value.0))
  {
    hide Holds, MessageFitsOnto, Merged, ParseMessage;
  }

  /** The second message's bytes, read when the first one has been. */
  lemma SecondMerges(data: seq<byte>, p: nat, d: Descriptor, pr: Progress, m: seq<Slot>)
    requires ValidDescriptor(d) && Holds(d, pr.m, true) && Holds(d, m, false) && Fits(d, m, false) && Ready(d, pr.m, m, pr, 0)
    requires (Unblocked(d, pr, 0) <==> !OneCounted(d)) && (pr.fixed.Some? ==> Counts(d, pr.fixed.value))
    requires HasAt(data, p, Encode(d, m)) && p + |Encode(d, m)| == |data| && |Encode(d, m)| < TWO32
    ensures ValidProgress(d, pr)
    ensures var r := ParseMessage(data, p, |data|, d, pr);
      && (r.Some? <==> MessageFitsOnto(d, pr.m, m) && !OneCounted(d))
      && (r.Some? ==> Merged(d, pr.m, m, r.value.0) && r.value.1 == |data|)
  {
    hide *;
    ReadyProgress(d, pr.m, m, pr, 0);
    WholeMessage(d, pr.m, m);
    if Unblocked(d, pr, 0) {
      var next := FieldsSurvive(data, p, |data|, d, pr.m, m, pr, 0);
      if FitsFrom(d, pr.m, m, 0) {
        ReadyProgress(d, pr.m, m, next, |d.fields|);
        NothingLeft(data, |data|, d, pr.m, m, next);
      }
    } else {
      BlockedBy(d, pr);
      CountsField(d, pr.fixed.value);
      BlockedStops(data, p, |data|, d, pr.m, m, pr, 0, pr.fixed.value);
    }
  }

  lemma BlockedBy(d: Descriptor, pr: Progress)
    requires !Unblocked(d, pr, 0) && OneCounted(d) && (pr.fixed.Some? ==> Counts(d, pr.fixed.value))
    ensures pr.fixed.Some? && Counts(d, pr.fixed.value) && forall y: nat :: Counts(d, y) ==> y == pr.fixed.value
  {
  }

  lemma MergesTogether(d: Descriptor, first: Option<(seq<Slot>, nat)>, second: seq<Slot>, end: nat, r: Option<(seq<Slot>, nat)>)
    requires ValidDescriptor(d) && Holds(d, second, false) && (first.Some? ==> Holds(d, first.value.0, true))
    requires first.None? ==> r.None?
    requires first.Some? ==>
      && (r.Some? <==> MessageFitsOnto(d, first.value.0, second) && !OneCounted(d))
      && (r.Some? ==> Merged(d, first.value.0, second, r.value.0) && r.value.1 == end)
    ensures MergesOnto(d, first, second, end, r)
  {
  }

  /** The bytes of two messages decode to the second one merged into the first: of a single field the last value
      counts, submessages are merged, arrays are joined, and of a union the last member set stays.  This fails exactly
      if it does not fit, or if the message has exactly one fixed-count array, since that is full already. */
  lemma Concatenation(d: Descriptor, first: seq<Slot>, second: seq<Slot>)
    requires ValidDescriptor(d) && Holds(d, first, false) && Fits(d, first, false) && |Encode(d, first)| < TWO32
    requires Holds(d, second, false) && Fits(d, second, false) && |Encode(d, second)| < TWO32
    ensures MergesOnto(d, Parse(Encode(d, first), d), second, |Encode(d, first)| + |Encode(d, second)|,
                       Parse(Encode(d, first) + Encode(d, second), d))
  {
    hide *;
    DefaultsHold(d);
    var a, b := Encode(d, first), Encode(d, second);
    var data, start := a + b, Start(Defaults(d));
    SideBySide(a, b);
    ParseStarts(a, d);
    ParseStarts(data, d);
    WholeMessage(d, Defaults(d), first);
    StartsReady(d, Defaults(d), first);
    MessageSurvives(a, 0, |a|, d, Defaults(d), first);
    MergesTold(a, d, Defaults(d), first);
    var pr := FieldsSurvive(data, 0, |data|, d, Defaults(d), first, start, 0);
    if MessageFitsOnto(d, Defaults(d), first) {
      ReadyProgress(d, Defaults(d), first, pr, |d.fields|);
      ReadyAgain(d, Defaults(d), first, pr, second);
      OneMerged(d, Defaults(d), first, Parse(a, d).value.0, pr.m);
      UnblockedAgain(d, pr);
      SecondMerges(data, |a|, d, pr, second);
    }
    MergesTogether(d, Parse(a, d), second, |data|, Parse(data, d));
  }
}
