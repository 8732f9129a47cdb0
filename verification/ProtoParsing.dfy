/** What nanopb's decoder makes of the bytes of `data` from p up to `limit`; None for an error. */
module ProtoParsing {
  import opened Options
  import opened Coding
  import opened ProtoSchema
  import opened ProtoIteration
  import opened ProtoVarints

  const MAX_REQUIRED_FIELDS: nat := 64

  // ---- numbers ----

  /** `n` bytes as they are. */
  function Take(data: seq<byte>, p: nat, limit: nat, n: nat): (r: Option<(seq<byte>, nat)>)
    requires p <= limit <= |data|
    ensures r.Some? ==> |r.value.0| == n && r.value.1 == p + n <= limit
  {
    if limit - p < n then None else Some((data[p..p + n], p + n))
  }

  /** Where a length-delimited record starts and ends. */
  function ParseDelimited(data: seq<byte>, p: nat, limit: nat): (r: Option<(nat, nat)>)
    requires limit <= |data|
    ensures r.Some? ==> p < r.value.0 <= r.value.1 <= limit
  {
    var n := ParseVarint32(data, p, limit);
    if n.None? || limit - n.value.1 < n.value.0 then None else Some((n.value.1, n.value.1 + n.value.0))
  }

  function ToSigned(n: nat, size: nat): (r: int)
    ensures ValidSize(size) ==> Signed(r, size)
  {
    var w := n % Modulus(size);
    if w < Modulus(size) / 2 then w else w - Modulus(size)
  }

  function UnZigZag(n: nat): int {
    if n % 2 == 1 then -(n / 2) - 1 else n / 2
  }

  function UntilNul(bs: seq<byte>): (r: seq<byte>)
    ensures 0 !in r && |r| <= |bs|
    ensures 0 !in bs ==> r == bs
  {
    if bs == [] || bs[0] == 0 then [] else [bs[0]] + UntilNul(bs[1..])
  }

  // ---- values ----

  /** A 32-bit or shorter integer is cut to 32 bits first and must then be in range. */
  function IntOf(k: Kind, v: nat): (r: Option<Value>)
    requires (k.Varint? || k.UVarint? || k.SVarint?) && ValidKind(k) && v < TWO64
    ensures r.Some? ==> Storable(k, r.value, true)
  {
    match k
    case Varint(size) =>
      var n := ToSigned(v, if size == 8 then 8 else 4);
      if Signed(n, size) then Some(Num(n)) else None
    case UVarint(size) => if v < Modulus(size) then Some(Num(v)) else None
    case SVarint(size) => if Signed(UnZigZag(v), size) then Some(Num(UnZigZag(v))) else None
  }

  function ParseScalar(data: seq<byte>, p: nat, limit: nat, k: Kind): (r: Option<(Value, nat)>)
    requires p <= limit <= |data| && Packable(k) && ValidKind(k)
    ensures r.Some? ==> Storable(k, r.value.0, true) && p < r.value.1 <= limit
  {
    if k.Bool? then
      var v := ParseVarint32(data, p, limit);
      if v.None? then None else Some((Num(if v.value.0 != 0 then 1 else 0), v.value.1))
    else if k.Fixed32? then
      var bs := Take(data, p, limit, 4);
      if bs.None? then None else Some((Num(DecodeFixed32(bs.value.0)), bs.value.1))
    else if k.Fixed64? then
      var bs := Take(data, p, limit, 8);
      if bs.None? then None else Some((Num(DecodeFixed64(bs.value.0)), bs.value.1))
    else
      var v := ParseVarint(data, p, limit);
      if v.None? then None
      else
        var n := IntOf(k, v.value.0);
        if n.None? then None else Some((n.value, v.value.1))
  }

  predicate IsBlob(k: Kind) {
    k.Bytes? || k.String? || k.FixedBytes?
  }

  function ParseBlob(data: seq<byte>, p: nat, limit: nat, k: Kind): (r: Option<(Value, nat)>)
    requires p <= limit <= |data| && IsBlob(k)
    ensures r.Some? ==> Storable(k, r.value.0, true) && p < r.value.1 <= limit
  {
    var n := ParseVarint32(data, p, limit);
    if n.None? then None
    else
      var (count, q) := n.value;
      if k.FixedBytes? && count == 0 then Some((Data(Zeros(k.size)), q))
      else if k.FixedBytes? && count != k.size then None
      else if k.Bytes? && count > k.capacity then None
      else if k.String? && count + 1 > k.size then None
      else
        var bs := Take(data, q, limit, count);
        if bs.None? then None
        else Some((Data(if k.String? then UntilNul(bs.value.0) else bs.value.0), bs.value.1))
  }

  /** A submessage is read into what `prior` holds. */
  function ParseValue(data: seq<byte>, p: nat, limit: nat, k: Kind, prior: Value): (r: Option<(Value, nat)>)
    requires p <= limit <= |data| && ValidKind(k) && Storable(k, prior, true)
    ensures r.Some? ==> Storable(k, r.value.0, true) && p < r.value.1 <= limit
    decreases k
  {
    if Packable(k) then ParseScalar(data, p, limit, k)
    else if IsBlob(k) then ParseBlob(data, p, limit, k)
    else
      var sub := ParseDelimited(data, p, limit);
      if sub.None? then None
      else
        var m := ParseMessage(data, sub.value.0, sub.value.1, k.descriptor, Start(prior.slots));
        if m.None? then None else Some((Message(m.value.0), sub.value.1))
  }

  // ---- fields ----

  /** Element `i` of an array; the next one of a counted array is new. */
  function Put(items: seq<Value>, i: nat, v: Value): seq<Value> {
    if i < |items| then items[i := v] else items + [v]
  }

  /** An array and its count. */
  datatype Array = Array(items: seq<Value>, count: nat)

  predicate ValidArray(f: Field, a: Array) {
    && IsArray(f.rule) && a.count <= MaxCount(f.rule)
    && |a.items| == (if f.rule.Repeated? then a.count else f.rule.count)
    && forall x :: x in a.items ==> Storable(f.kind, x, true) || (f.rule.FixedCount? && x.Unset?)
  }

  function ParsePacked(data: seq<byte>, p: nat, limit: nat, f: Field, a: Array): (r: Option<Array>)
    requires p <= limit <= |data| && ValidKind(f.kind) && Packable(f.kind) && ValidArray(f, a)
    ensures r.Some? ==> ValidArray(f, r.value)
    decreases limit - p
  {
    if p == limit then Some(a)
    else if a.count >= MaxCount(f.rule) then None
    else
      var v := ParseScalar(data, p, limit, f.kind);
      if v.None? then None
      else ParsePacked(data, v.value.1, limit, f, Array(Put(a.items, a.count, v.value.0), a.count + 1))
  }

  /** A record of an array: several packed elements, or one. */
  function ParseArray(data: seq<byte>, p: nat, limit: nat, wire: nat, f: Field, a: Array): (r: Option<(Array, nat)>)
    requires p <= limit <= |data| && ValidKind(f.kind) && ValidArray(f, a)
    ensures r.Some? ==> ValidArray(f, r.value.0) && p < r.value.1 <= limit
    decreases f, 0
  {
    if wire == 2 && Packable(f.kind) then
      var sub := ParseDelimited(data, p, limit);
      if sub.None? then None
      else
        var a' := ParsePacked(data, sub.value.0, sub.value.1, f, a);
        if a'.None? then None else Some((a'.value, sub.value.1))
    else if a.count >= MaxCount(f.rule) then None
    else
      ZeroStorable(f.kind);
      var v := ParseValue(data, p, limit, f.kind, Zero(f.kind));
      if v.None? then None
      else Some((Array(Put(a.items, a.count, v.value.0), a.count + 1), v.value.1))
  }

  /** What a value is read into: the union is cleared when another field was in it. */
  function Prior(f: Field, slot: Slot): (v: Value)
    requires ValidKind(f.kind) && !IsArray(f.rule) && HoldsField(f, slot, true)
    ensures Storable(f.kind, v, true)
  {
    ZeroStorable(f.kind);
    if f.rule.Oneof? && slot.which != f.tag then Zero(f.kind) else slot.v
  }

  /** The slot of a field that is no array, after one record of it. */
  function ParseSingle(data: seq<byte>, p: nat, limit: nat, f: Field, slot: Slot): (r: Option<(Slot, nat)>)
    requires p <= limit <= |data| && ValidKind(f.kind) && !IsArray(f.rule) && HoldsField(f, slot, true)
    ensures r.Some? ==> HoldsField(f, r.value.0, true) && p < r.value.1 <= limit
    ensures r.Some? && f.rule.Oneof? ==> r.value.0.which == f.tag
    decreases f, 0
  {
    var v := ParseValue(data, p, limit, f.kind, Prior(f, slot));
    if v.None? then None
    else
      Some((Present(f, v.value.0), v.value.1))
  }

  /** The slot of a present value. */
  function Present(f: Field, v: Value): (slot: Slot)
    ensures !IsArray(f.rule) && Storable(f.kind, v, true) ==> HoldsField(f, slot, true)
    ensures f.rule.Oneof? ==> slot.Choice? && slot.which == f.tag
  {
    if f.rule.Optional? then Maybe(true, v) else if f.rule.Oneof? then Choice(f.tag, v) else One(v)
  }

  // ---- messages ----

  /** A message being decoded: the required fields seen (only the first 64 are tracked), and the
      fixed-count array being filled with its count. */
  datatype Progress = Progress(m: seq<Slot>, seen: set<nat>, fixed: Option<nat>, count: nat)

  function Start(m: seq<Slot>): Progress {
    Progress(m, {}, None, 0)
  }

  predicate ValidProgress(d: Descriptor, pr: Progress) {
    && Holds(d, pr.m, true)
    && (pr.fixed.Some? ==>
        && pr.fixed.value < |d.fields| && d.fields[pr.fixed.value].rule.FixedCount?
        && pr.count <= d.fields[pr.fixed.value].rule.count)
  }

  /** Every element of the last fixed-count array has come. */
  predicate FixedDone(d: Descriptor, pr: Progress)
    requires ValidProgress(d, pr)
  {
    pr.fixed.Some? ==> pr.count == d.fields[pr.fixed.value].rule.count
  }

  predicate AllRequiredSeen(d: Descriptor, seen: set<nat>) {
    forall r: nat :: r < RequiredIndex(d.fields, |d.fields|) && r < MAX_REQUIRED_FIELDS ==> r in seen
  }

  function Finish(d: Descriptor, pr: Progress, p: nat): Option<(seq<Slot>, nat)>
    requires ValidProgress(d, pr)
  {
    if FixedDone(d, pr) && AllRequiredSeen(d, pr.seen) then Some((pr.m, p)) else None
  }

  /** pb_skip_field */
  function ParseUnknown(data: seq<byte>, p: nat, limit: nat, wire: nat): (r: Option<nat>)
    requires p <= limit <= |data|
    ensures r.Some? ==> p <= r.value <= limit
  {
    match wire
    case 0 => SkipVarint(data, p, limit)
    case 1 => if limit - p < 8 then None else Some(p + 8)
    case 2 => var sub := ParseDelimited(data, p, limit); if sub.None? then None else Some(sub.value.1)
    case 5 => if limit - p < 4 then None else Some(p + 4)
    case _ => None
  }

  function SkipVarint(data: seq<byte>, p: nat, limit: nat): (r: Option<nat>)
    requires limit <= |data|
    ensures r.Some? ==> p < r.value <= limit
    decreases limit - p
  {
    if p >= limit then None else if data[p] < 128 then Some(p + 1) else SkipVarint(data, p + 1, limit)
  }

  lemma DistinctTags(d: Descriptor, i: nat, j: nat)
    requires ValidDescriptor(d) && i < |d.fields| && j < |d.fields|
    ensures i != j ==> d.fields[i].tag != d.fields[j].tag
  {
  }

  lemma SharedSlot(fs: seq<Field>, i: nat, j: nat)
    requires i < |fs| && j < |fs| && i != j && SlotOf(fs, i) == SlotOf(fs, j)
    ensures fs[i].rule.Oneof? && fs[j].rule.Oneof?
  {
    if i < j {
      SlotsGrow(fs, i, j);
    } else {
      SlotsGrow(fs, j, i);
    }
  }

  /** Storing a field keeps the struct in range. */
  lemma StoreKeeps(d: Descriptor, m: seq<Slot>, i: nat, slot: Slot)
    requires ValidDescriptor(d) && Holds(d, m, true) && i < |d.fields|
    requires HoldsField(d.fields[i], slot, true)
    requires d.fields[i].rule.Oneof? ==> slot.which == d.fields[i].tag
    ensures Holds(d, m[SlotOf(d.fields, i) := slot], true)
  {
    var m' := m[SlotOf(d.fields, i) := slot];
    forall j | 0 <= j < |d.fields|
      ensures SlotOf(d.fields, j) < |m'| && HoldsField(d.fields[j], m'[SlotOf(d.fields, j)], true)
    {
      StoreKeepsField(d, m, i, slot, j);
    }
  }

  lemma StoreKeepsField(d: Descriptor, m: seq<Slot>, i: nat, slot: Slot, j: nat)
    requires ValidDescriptor(d) && Holds(d, m, true) && i < |d.fields| && j < |d.fields|
    requires HoldsField(d.fields[i], slot, true)
    requires d.fields[i].rule.Oneof? ==> slot.which == d.fields[i].tag
    ensures SlotOf(d.fields, j) < |m| && HoldsField(d.fields[j], m[SlotOf(d.fields, i) := slot][SlotOf(d.fields, j)], true)
  {
    hide ValidField, Storable, Holds, ValidDescriptor;
    Held(d, m, i, true);
    Held(d, m, j, true);
    DistinctTags(d, i, j);
    if i != j && SlotOf(d.fields, i) == SlotOf(d.fields, j) {
      SharedSlot(d.fields, i, j);
    }
  }

  /** The array of field i: a counted one has its count beside it, the count of a fixed-count one
      lives with the decoder. */
  function ArrayOf(d: Descriptor, pr: Progress, i: nat): (a: Array)
    requires ValidDescriptor(d) && ValidProgress(d, pr) && i < |d.fields| && IsArray(d.fields[i].rule)
    ensures ValidArray(d.fields[i], a)
  {
    Held(d, pr.m, i, true);
    var items := pr.m[SlotOf(d.fields, i)].items;
    Array(items, if d.fields[i].rule.Repeated? then |items| else if pr.fixed == Some(i) then pr.count else 0)
  }

  function StoreArray(d: Descriptor, pr: Progress, i: nat, a: Array): (pr': Progress)
    requires ValidDescriptor(d) && ValidProgress(d, pr) && i < |d.fields| && ValidArray(d.fields[i], a)
    ensures ValidProgress(d, pr')
  {
    StoreKeeps(d, pr.m, i, Many(a.items));
    var m := pr.m[SlotOf(d.fields, i) := Many(a.items)];
    if d.fields[i].rule.FixedCount? then Progress(m, pr.seen, Some(i), a.count) else pr.(m := m)
  }

  function StoreSingle(d: Descriptor, pr: Progress, i: nat, slot: Slot): (pr': Progress)
    requires ValidDescriptor(d) && ValidProgress(d, pr) && i < |d.fields| && HoldsField(d.fields[i], slot, true)
    requires d.fields[i].rule.Oneof? ==> slot.which == d.fields[i].tag
    ensures ValidProgress(d, pr')
  {
    StoreKeeps(d, pr.m, i, slot);
    pr.(m := pr.m[SlotOf(d.fields, i) := slot], seen := pr.seen + Mark(d, i))
  }

  /** A record of the i-th field. */
  function ParseField(data: seq<byte>, p: nat, limit: nat, wire: nat, d: Descriptor, pr: Progress, i: nat): (r: Option<(Progress, nat)>)
    requires p <= limit <= |data| && ValidDescriptor(d) && ValidProgress(d, pr) && i < |d.fields|
    ensures r.Some? ==> ValidProgress(d, r.value.0) && p < r.value.1 <= limit
    decreases d, 0
  {
    var f := d.fields[i];
    assert ValidField(f);
    if IsArray(f.rule) then
      if f.rule.FixedCount? && pr.fixed != Some(i) && !FixedDone(d, pr) then None
      else
        var a := ParseArray(data, p, limit, wire, f, ArrayOf(d, pr, i));
        if a.None? then None else Some((StoreArray(d, pr, i, a.value.0), a.value.1))
    else
      var slot := ParseSingle(data, p, limit, f, pr.m[SlotOf(d.fields, i)]);
      if slot.None? then None else Some((StoreSingle(d, pr, i, slot.value.0), slot.value.1))
  }

  function Mark(d: Descriptor, i: nat): set<nat>
    requires i < |d.fields|
  {
    var r := RequiredIndex(d.fields, i);
    if d.fields[i].rule.Required? && r < MAX_REQUIRED_FIELDS then {r} else {}
  }

  /** A record of any field; those of unknown fields are skipped.  (In a message without fields the
      iterator rests on the end marker, whose tag and type are 0: a record with tag 0 is read there as a
      required bool.) */
  function ParseRecord(data: seq<byte>, p: nat, limit: nat, key: nat, d: Descriptor, pr: Progress): (r: Option<(Progress, nat)>)
    requires p <= limit <= |data| && ValidDescriptor(d) && ValidProgress(d, pr)
    ensures r.Some? ==> ValidProgress(d, r.value.0) && p <= r.value.1 <= limit
    decreases d, 1
  {
    var tag, wire, i := key / 8, key % 8, FindField(d.fields, key / 8);
    if i < |d.fields| then ParseField(data, p, limit, wire, d, pr, i)
    else if d.fields == [] && tag == 0 then
      var v := ParseVarint32(data, p, limit);
      if v.None? then None else Some((pr, v.value.1))
    else
      var q := ParseUnknown(data, p, limit, wire);
      if q.None? then None else Some((pr, q.value))
  }

  /** pb_decode_noinit: records up to the limit, or to a key of 0. */
  function ParseMessage(data: seq<byte>, p: nat, limit: nat, d: Descriptor, pr: Progress): (r: Option<(seq<Slot>, nat)>)
    requires p <= limit <= |data| && ValidDescriptor(d) && ValidProgress(d, pr)
    ensures r.Some? ==> Holds(d, r.value.0, true) && p <= r.value.1 <= limit
    decreases d, 2, limit - p
  {
    if p == limit then Finish(d, pr, p)
    else
      var key := ParseVarint32(data, p, limit);
      if key.None? then None
      else if key.value.0 == 0 then Finish(d, pr, key.value.1)
      else
        var next := ParseRecord(data, key.value.1, limit, key.value.0, d, pr);
        if next.None? then None else ParseMessage(data, next.value.1, limit, d, next.value.0)
  }

  /** pb_decode */
  function Parse(data: seq<byte>, d: Descriptor): (r: Option<(seq<Slot>, nat)>)
    requires ValidDescriptor(d)
    ensures r.Some? ==> Holds(d, r.value.0, true) && r.value.1 <= |data|
  {
    DefaultsHold(d);
    ParseMessage(data, 0, |data|, d, Start(Defaults(d)))
  }
}
