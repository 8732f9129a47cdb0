/** Which files meet a key range, and which must travel together. */
module Overlaps {
  import opened Options
  import opened Keys
  import opened Files

  type Bound = Option<UserKey>          // None: unbounded on that side

  /** The key comes after the whole file. */
  predicate AfterFile(u: Bound, f: File) {
    u.Some? && u.value > f.largest.user
  }

  /** The key comes before the whole file. */
  predicate BeforeFile(u: Bound, f: File) {
    u.Some? && u.value < f.smallest.user
  }

  predicate Meets(f: File, begin: Bound, end: Bound) {
    !AfterFile(begin, f) && !BeforeFile(end, f)
  }

  /** The range and the file's range have a key in common, ends included. */
  lemma MeetsMeans(f: File, begin: Bound, end: Bound)
    ensures Meets(f, begin, end) <==> (begin.Some? ==> begin.value <= f.largest.user) && (end.Some? ==> f.smallest.user <= end.value)
  {
  }

  /** The files meeting a range, in their order. */
  function Overlapping(files: seq<File>, begin: Bound, end: Bound): seq<File> {
    if files == [] then [] else
    var n := |files| - 1;
    Overlapping(files[..n], begin, end) + (if Meets(files[n], begin, end) then [files[n]] else [])
  }

  lemma {:induction false} OverlappingExactly(files: seq<File>, begin: Bound, end: Bound, f: File)
    ensures f in Overlapping(files, begin, end) <==> f in files && Meets(f, begin, end)
  {
    if files != [] {
      var n := |files| - 1;
      OverlappingExactly(files[..n], begin, end, f);
      assert files == files[..n] + [files[n]];
    }
  }

  /** The second range contains the first. */
  ghost predicate Widens(b: Bound, e: Bound, b': Bound, e': Bound) {
    && b.Some? == b'.Some? && (b.Some? ==> b'.value <= b.value)
    && e.Some? == e'.Some? && (e.Some? ==> e.value <= e'.value)
  }

  ghost predicate Inside(f: File, b: Bound, e: Bound) {
    && (b.Some? ==> b.value <= f.smallest.user)
    && (e.Some? ==> f.largest.user <= e.value)
  }

  /** Every file that meets the range lies inside it. */
  ghost predicate Closed(files: seq<File>, b: Bound, e: Bound) {
    forall f :: f in files && Meets(f, b, e) ==> Inside(f, b, e)
  }

  /** The least closed range around a range. */
  ghost predicate LeastClosed(files: seq<File>, begin: Bound, end: Bound, b: Bound, e: Bound) {
    && Widens(begin, end, b, e) && Closed(files, b, e)
    && forall b', e' :: Widens(begin, end, b', e') && Closed(files, b', e') ==> Widens(b, e, b', e')
  }

  ghost function StartingBefore(files: seq<File>, b: Bound): set<nat> {
    set i | 0 <= i < |files| && b.Some? && files[i].smallest.user < b.value
  }

  ghost function EndingAfter(files: seq<File>, e: Bound): set<nat> {
    set i | 0 <= i < |files| && e.Some? && files[i].largest.user > e.value
  }

  /** Version::GetOverlappingInputs.  At level 0 the range grows, with a restart of the scan,
      until it is the least range closed under overlap; (b, e) is the range reached. */
  method GetOverlappingInputs(level: nat, files: seq<File>, begin: Bound, end: Bound)
    returns (inputs: seq<File>, ghost b: Bound, ghost e: Bound)
    ensures inputs == Overlapping(files, b, e)
    ensures level > 0 ==> b == begin && e == end
    ensures level == 0 ==> LeastClosed(files, begin, end, b, e)
  {
    inputs := [];
    var userBegin, userEnd := begin, end;
    var i := 0;
    while i < |files|
      invariant 0 <= i <= |files|
      invariant Widens(begin, end, userBegin, userEnd)
      invariant level > 0 ==> userBegin == begin && userEnd == end
      invariant forall b', e' :: Widens(begin, end, b', e') && Closed(files, b', e') ==> Widens(userBegin, userEnd, b', e')
      invariant inputs == Overlapping(files[..i], userBegin, userEnd)
      invariant level == 0 ==> forall k :: 0 <= k < i && Meets(files[k], userBegin, userEnd) ==> Inside(files[k], userBegin, userEnd)
      decreases StartingBefore(files, userBegin), EndingAfter(files, userEnd), |files| - i
    {
      var f := files[i];
      assert files[..i+1][..i] == files[..i];
      i := i + 1;
      if AfterFile(userBegin, f) {
      } else if BeforeFile(userEnd, f) {
      } else {
        inputs := inputs + [f];
        if level == 0 {
          assert forall b', e' :: Widens(userBegin, userEnd, b', e') && Closed(files, b', e') ==> Inside(f, b', e') by {
            assert f in files;
          }
          if userBegin.Some? && f.smallest.user < userBegin.value {
            assert i - 1 in StartingBefore(files, userBegin);
            userBegin, inputs, i := Some(f.smallest.user), [], 0;
          } else if userEnd.Some? && f.largest.user > userEnd.value {
            assert i - 1 in EndingAfter(files, userEnd);
            userEnd, inputs, i := Some(f.largest.user), [], 0;
          }
        }
      }
    }
    assert files[..i] == files;
    return inputs, userBegin, userEnd;
  }

  lemma {:induction false} NoneMeet(files: seq<File>, begin: Bound, end: Bound)
    requires forall k :: 0 <= k < |files| ==> !Meets(files[k], begin, end)
    ensures Overlapping(files, begin, end) == []
  {
    if files != [] {
      NoneMeet(files[..|files| - 1], begin, end);
    }
  }

  /** In a sorted level user keys grow weakly from file to file. */
  lemma UsersOrdered(files: seq<File>, i: nat, j: nat)
    requires ValidFiles(files) && Disjoint(files) && i <= j < |files|
    ensures files[i].smallest.user <= files[j].smallest.user && files[i].largest.user <= files[j].largest.user
    ensures files[i].smallest.user <= files[i].largest.user
    ensures i < j ==> files[i].largest.user <= files[j].smallest.user
  {
    EntryBounds(files[i], files[i].entries[0]);
    EntryBounds(files[j], files[j].entries[0]);
  }

  lemma {:induction false} AllMeet(files: seq<File>, begin: Bound, end: Bound)
    requires forall k :: 0 <= k < |files| ==> Meets(files[k], begin, end)
    ensures Overlapping(files, begin, end) == files
  {
    if files != [] {
      AllMeet(files[..|files| - 1], begin, end);
    }
  }

  lemma {:induction false} OverlappingAppend(A: seq<File>, B: seq<File>, begin: Bound, end: Bound)
    ensures Overlapping(A + B, begin, end) == Overlapping(A, begin, end) + Overlapping(B, begin, end)
  {
    if B == [] {
      assert A + B == A;
    } else {
      var n := |B| - 1;
      assert (A + B)[..|A| + n] == A + B[..n];
      OverlappingAppend(A, B[..n], begin, end);
    }
  }

  lemma SkipBefore(files: seq<File>, begin: Bound) returns (i: nat)
    requires ValidFiles(files) && Disjoint(files)
    ensures i <= |files|
    ensures forall k :: 0 <= k < i ==> AfterFile(begin, files[k])
    ensures forall k :: i <= k < |files| ==> !AfterFile(begin, files[k])
  {
    i := 0;
    while i < |files| && AfterFile(begin, files[i])
      invariant i <= |files|
      invariant forall k :: 0 <= k < i ==> AfterFile(begin, files[k])
    {
      i := i + 1;
    }
    forall k | i <= k < |files|
      ensures !AfterFile(begin, files[k])
    {
      UsersOrdered(files, i, k);
    }
  }

  lemma SkipWithin(files: seq<File>, end: Bound, i: nat) returns (j: nat)
    requires ValidFiles(files) && Disjoint(files) && i <= |files|
    ensures i <= j <= |files|
    ensures forall k :: i <= k < j ==> !BeforeFile(end, files[k])
    ensures forall k :: j <= k < |files| ==> BeforeFile(end, files[k])
  {
    j := i;
    while j < |files| && !BeforeFile(end, files[j])
      invariant i <= j <= |files|
      invariant forall k :: i <= k < j ==> !BeforeFile(end, files[k])
    {
      j := j + 1;
    }
    forall k | j <= k < |files|
      ensures BeforeFile(end, files[k])
    {
      UsersOrdered(files, j, k);
    }
  }

  /** In a sorted level the files meeting a range are consecutive, with everything before
      them ending before the range and everything after them starting after it. */
  lemma OverlappingRun(files: seq<File>, begin: Bound, end: Bound) returns (i: nat, j: nat)
    requires ValidFiles(files) && Disjoint(files)
    ensures i <= j <= |files| && Overlapping(files, begin, end) == files[i..j]
    ensures forall k :: 0 <= k < i ==> AfterFile(begin, files[k])
    ensures forall k :: j <= k < |files| ==> BeforeFile(end, files[k])
  {
    i := SkipBefore(files, begin);
    j := SkipWithin(files, end, i);
    var before, run, after := files[..i], files[i..j], files[j..];
    RunIsOverlapping(before, run, after, begin, end);
    assert files == before + run + after;
  }

  lemma RunIsOverlapping(before: seq<File>, run: seq<File>, after: seq<File>, begin: Bound, end: Bound)
    requires forall k :: 0 <= k < |before| ==> !Meets(before[k], begin, end)
    requires forall k :: 0 <= k < |run| ==> Meets(run[k], begin, end)
    requires forall k :: 0 <= k < |after| ==> !Meets(after[k], begin, end)
    ensures Overlapping(before + run + after, begin, end) == run
  {
    NoneMeet(before, begin, end);
    AllMeet(run, begin, end);
    NoneMeet(after, begin, end);
    OverlappingAppend(before, run, begin, end);
    OverlappingAppend(before + run, after, begin, end);
  }
}
