/** The field iterator (nanopb's pb_field_iter_t). */
module ProtoIteration {
  import opened ProtoSchema

  /** The field with a tag, or the number of fields. */
  function FindField(fs: seq<Field>, tag: nat): (i: nat)
    ensures i <= |fs|
    ensures i < |fs| ==> fs[i].tag == tag
    ensures forall j :: 0 <= j < i ==> fs[j].tag != tag
  {
    if fs == [] || fs[0].tag == tag then 0 else 1 + FindField(fs[1..], tag)
  }

  /** How far, walking around, `to` lies from `from`. */
  function Ahead(from: nat, to: nat, n: nat): nat
    requires from < n && to < n
  {
    if from <= to then to - from else to + n - from
  }

  function After(pos: nat, n: nat): nat {
    if pos + 1 == n then 0 else pos + 1
  }

  /** One more step around, up to a whole turn. */
  lemma WalkOn(start: nat, pos: nat, n: nat)
    requires start < n && pos < n
    ensures After(pos, n) == start <==> Ahead(start, pos, n) == n - 1
    ensures After(pos, n) != start ==> Ahead(start, After(pos, n), n) == Ahead(start, pos, n) + 1
    ensures forall j :: 0 <= j < n && Ahead(start, j, n) == Ahead(start, pos, n) ==> j == pos
    ensures forall j :: 0 <= j < n ==> Ahead(start, j, n) < n
  {
  }

  /** `pos` and what goes with it: where the field is stored and how many required fields come
      before it.  `localCount` says that the count of the array at `pos` was redirected out of the
      struct. */
  class FieldIter {
    const fields: seq<Field>
    var pos: nat
    var slot: nat
    var requiredIndex: nat
    var localCount: bool

    ghost predicate Valid()
      reads this
    {
      && (fields != [] ==> pos < |fields| && slot == SlotOf(fields, pos))
      && (fields == [] ==> pos == 0 && slot == 0 && !localCount)
      && (localCount ==> fields[pos].rule.FixedCount?)
      && requiredIndex == RequiredIndex(fields, pos)
    }

    constructor (fields: seq<Field>)
      ensures Valid() && this.fields == fields && pos == 0 && !localCount
    {
      this.fields := fields;
      pos, slot, requiredIndex, localCount := 0, 0, 0, false;
    }

    method Begin() returns (more: bool)
      modifies this
      ensures Valid() && pos == 0 && !localCount
      ensures more <==> fields != []
    {
      pos, slot, requiredIndex, localCount := 0, 0, 0, false;
      more := fields != [];
    }

    /** One step; false when it wraps around.  The fields of a union share their storage. */
    method Next() returns (more: bool)
      requires Valid()
      modifies this
      ensures Valid()
      ensures fields == [] ==> !more
      ensures fields != [] ==> pos == After(old(pos), |fields|) && (more <==> pos != 0) && !localCount
    {
      if fields == [] {
        return false;
      }
      var prev := fields[pos];
      if pos + 1 == |fields| {
        var _ := Begin();
        return false;
      }
      pos := pos + 1;
      if prev.rule.Oneof? && fields[pos].rule == Oneof(true) {
        return true;
      }
      if prev.rule.Required? {
        requiredIndex := requiredIndex + 1;
      }
      slot, localCount := slot + 1, false;
      return true;
    }

    /** Walk around from `pos` to the first field with the tag.  Without fields the walk rests on the
        end marker, whose tag is 0. */
    method Find(tag: nat) returns (found: bool)
      requires Valid()
      modifies this
      ensures Valid()
      ensures fields == [] ==> (found <==> tag == 0)
      ensures found && fields != [] ==> fields[pos].tag == tag
      ensures !found ==> forall j :: 0 <= j < |fields| ==> fields[j].tag != tag
      ensures found && fields != [] ==> forall j :: 0 <= j < |fields| && Ahead(old(pos), j, |fields|) < Ahead(old(pos), pos, |fields|) ==> fields[j].tag != tag
      ensures !found ==> pos == old(pos)
      ensures pos == old(pos) ==> localCount == (found && old(localCount))
      ensures pos != old(pos) ==> !localCount
    {
      if fields == [] {
        return tag == 0;
      }
      var start := pos;
      ghost var n := |fields|;
      while true
        invariant Valid()
        invariant forall j :: 0 <= j < n && Ahead(start, j, n) < Ahead(start, pos, n) ==> fields[j].tag != tag
        invariant localCount == (pos == start && old(localCount))
        decreases n - Ahead(start, pos, n)
      {
        if fields[pos].tag == tag {
          return true;
        }
        WalkOn(start, pos, n);
        var _ := Next();
        if pos == start {
          return false;
        }
      }
    }
  }

  /** With distinct tags it does not matter where the walk starts. */
  lemma FoundAnywhere(d: Descriptor, i: nat, tag: nat)
    requires ValidDescriptor(d) && i < |d.fields| && d.fields[i].tag == tag
    ensures FindField(d.fields, tag) == i
  {
  }
}
