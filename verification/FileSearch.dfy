/** Searching the files of a version by key range (db/version_set.cc): the binary
    searches, the overlap test, the level-0 range closure and the level picked for
    a flushed memtable. */
module FileSearch {
  import opened DbFormat
  import opened Entries
  import opened Versions

  type Bound = Option<UserKey>

  predicate AfterFile(k: Bound, f: File) {
    k.Some? && k.value > f.largest.user
  }

  predicate BeforeFile(k: Bound, f: File) {
    k.Some? && k.value < f.smallest.user
  }

  /** File `f` meets the user-key range [lo, hi]; a missing bound is infinite. */
  predicate Overlaps(f: File, lo: Bound, hi: Bound) {
    !AfterFile(lo, f) && !BeforeFile(hi, f)
  }

  /** The linear scan that FindFile must agree with. */
  function FirstNotBefore(files: seq<File>, key: InternalKey): (r: nat)
    ensures r <= |files|
    ensures forall i | 0 <= i < r :: Before(files[i].largest, key)
    ensures r < |files| ==> !Before(files[r].largest, key)
  {
    if |files| == 0 || !Before(files[0].largest, key) then 0 else 1 + FirstNotBefore(files[1..], key)
  }

  lemma {:induction false} FirstNotBeforeIs(files: seq<File>, key: InternalKey, n: nat)
    requires n <= |files|
    requires forall i | 0 <= i < n :: Before(files[i].largest, key)
    requires n < |files| ==> !Before(files[n].largest, key)
    ensures FirstNotBefore(files, key) == n
  {
    if n > 0 { FirstNotBeforeIs(files[1..], key, n - 1); }
  }

  /** Binary search over a sorted level agrees with the scan from the left. */
  method FindFile(files: seq<File>, key: InternalKey) returns (right: nat)
    requires AllWf(files) && Disjoint(files)
    ensures right == FirstNotBefore(files, key)
    ensures forall i | right <= i < |files| :: !Before(files[i].largest, key)
  {
    var left := 0;
    right := |files|;
    while left < right
      invariant left <= right <= |files|
      invariant forall i | 0 <= i < left :: Before(files[i].largest, key)
      invariant forall i | right <= i < |files| :: !Before(files[i].largest, key)
    {
      var mid := (left + right) / 2;
      if Before(files[mid].largest, key) {
        forall i | 0 <= i < mid ensures Before(files[i].largest, key) {
          LargestAscend(files, i, mid);
        }
        left := mid + 1;
      } else {
        forall i | mid < i < |files| ensures !Before(files[i].largest, key) {
          LargestAscend(files, mid, i);
        }
        right := mid;
      }
    }
    FirstNotBeforeIs(files, key, right);
  }

  lemma LargestAscend(files: seq<File>, i: nat, j: nat)
    requires AllWf(files) && Disjoint(files) && i < j < |files|
    ensures Before(files[i].largest, files[j].largest)
    ensures Before(files[i].smallest, files[j].smallest)
  {
    assert WfFile(files[i]) && WfFile(files[j]);
    FileBounds(files[j], files[j].entries[0]);
    FileBounds(files[i], files[i].entries[0]);
  }

  /** Both branches answer the same question: does some file meet the range? */
  method SomeFileOverlapsRange(disjointSorted: bool, files: seq<File>, lo: Bound, hi: Bound) returns (found: bool)
    requires AllWf(files)
    requires disjointSorted ==> Disjoint(files)
    ensures found <==> exists f | f in files :: Overlaps(f, lo, hi)
  {
    if !disjointSorted {
      var i := 0;
      while i < |files|
        invariant i <= |files|
        invariant forall j | 0 <= j < i :: !Overlaps(files[j], lo, hi)
      {
        var f := files[i];
        if AfterFile(lo, f) || BeforeFile(hi, f) {
        } else {
          assert f in files && Overlaps(f, lo, hi);
          return true;
        }
        i := i + 1;
      }
      return false;
    }
    var index := 0;
    if lo.Some? {
      index := FindFile(files, InternalKey(lo.value, MAX_SEQUENCE, Value));
    }
    assert forall i | 0 <= i < index :: AfterFile(lo, files[i]);
    if index >= |files| {
      return false;
    }
    found := !BeforeFile(hi, files[index]);
    if found {
      assert files[index] in files && Overlaps(files[index], lo, hi);
    } else {
      forall i | index < i < |files| ensures BeforeFile(hi, files[i]) {
        LargestAscend(files, index, i);
      }
    }
  }

  /** The files meeting a range, in file order. */
  function OverlapFilter(files: seq<File>, lo: Bound, hi: Bound): (r: seq<File>)
    ensures forall f :: f in r <==> f in files && Overlaps(f, lo, hi)
    ensures |r| <= |files|
  {
    if |files| == 0 then []
    else
      var n := |files| - 1;
      OverlapFilter(files[..n], lo, hi) + (if Overlaps(files[n], lo, hi) then [files[n]] else [])
  }

  /** Range [lo, hi] contains range [lo0, hi0]; infinite sides stay infinite. */
  predicate Widens(lo0: Bound, hi0: Bound, lo: Bound, hi: Bound) {
    && lo0.Some? == lo.Some? && hi0.Some? == hi.Some?
    && (lo.Some? ==> lo.value <= lo0.value)
    && (hi.Some? ==> hi0.value <= hi.value)
  }

  predicate Within(f: File, lo: Bound, hi: Bound) {
    && (lo.Some? ==> lo.value <= f.smallest.user)
    && (hi.Some? ==> f.largest.user <= hi.value)
  }

  /** No file sticks out of the range it meets. */
  predicate ClosedRange(files: seq<File>, lo: Bound, hi: Bound) {
    forall f | f in files && Overlaps(f, lo, hi) :: Within(f, lo, hi)
  }

  /** [lo, hi] is the least range that contains [lo0, hi0] and is closed under
      overlapping files. */
  ghost predicate LeastClosure(files: seq<File>, lo0: Bound, hi0: Bound, lo: Bound, hi: Bound) {
    && Widens(lo0, hi0, lo, hi)
    && ClosedRange(files, lo, hi)
    && forall x, y :: Widens(lo0, hi0, x, y) && ClosedRange(files, x, y) ==> Widens(lo, hi, x, y)
  }

  /** `inputs` are the files that meet the least closed range. */
  ghost predicate MeetsLeastClosure(files: seq<File>, lo0: Bound, hi0: Bound, inputs: seq<File>) {
    exists lo, hi :: LeastClosure(files, lo0, hi0, lo, hi) && inputs == OverlapFilter(files, lo, hi)
  }

  /** The user-key interval [x, y] lies wholly to one side of [lo, hi]. */
  predicate Beside(x: UserKey, y: UserKey, lo: Bound, hi: Bound) {
    (lo.Some? && y < lo.value) || (hi.Some? && hi.value < x)
  }

  predicate MeetsNone(x: UserKey, y: UserKey, files: seq<File>, lo: Bound, hi: Bound) {
    forall f | f in files && Overlaps(f, lo, hi) :: !Overlaps(f, Some(x), Some(y))
  }

  /** Widening [lo0, hi0] to [lo, hi] left no gap: an interval that meets none of the
      files in [lo, hi] and is beside [lo0, hi0] is beside [lo, hi] too. */
  ghost predicate GrewWithoutGap(files: seq<File>, lo0: Bound, hi0: Bound, lo: Bound, hi: Bound) {
    forall x: UserKey, y: UserKey | x <= y && MeetsNone(x, y, files, lo, hi) && Beside(x, y, lo0, hi0) :: Beside(x, y, lo, hi)
  }

  function CountBelow(files: seq<File>, lo: Bound): nat {
    if |files| == 0 || lo.None? then 0
    else CountBelow(files[1..], lo) + (if files[0].smallest.user < lo.value then 1 else 0)
  }

  function CountAbove(files: seq<File>, hi: Bound): nat {
    if |files| == 0 || hi.None? then 0
    else CountAbove(files[1..], hi) + (if files[0].largest.user > hi.value then 1 else 0)
  }

  lemma CountBelowDrops(files: seq<File>, lo: UserKey, lo': UserKey)
    requires lo' <= lo
    ensures CountBelow(files, Some(lo')) <= CountBelow(files, Some(lo))
    ensures lo' < lo && (exists f | f in files :: f.smallest.user == lo') ==> CountBelow(files, Some(lo')) < CountBelow(files, Some(lo))
  {
    if |files| > 0 { CountBelowDrops(files[1..], lo, lo'); }
  }

  lemma CountAboveDrops(files: seq<File>, hi: UserKey, hi': UserKey)
    requires hi <= hi'
    ensures CountAbove(files, Some(hi')) <= CountAbove(files, Some(hi))
    ensures hi < hi' && (exists f | f in files :: f.largest.user == hi') ==> CountAbove(files, Some(hi')) < CountAbove(files, Some(hi))
  {
    if |files| > 0 { CountAboveDrops(files[1..], hi, hi'); }
  }

  /** What the level-0 scan knows about the range it has grown so far. */
  ghost predicate Grown(files: seq<File>, lo0: Bound, hi0: Bound, lo: Bound, hi: Bound) {
    && Widens(lo0, hi0, lo, hi)
    && (forall x, y :: Widens(lo0, hi0, x, y) && ClosedRange(files, x, y) ==> Widens(lo, hi, x, y))
    && GrewWithoutGap(files, lo0, hi0, lo, hi)
  }

  /** Growing a range to take in a whole file that meets it keeps it below every closed
      range and leaves no gap. */
  lemma GrowStep(files: seq<File>, lo0: Bound, hi0: Bound, lo: Bound, hi: Bound, f: File, lo': Bound, hi': Bound)
    requires AllWf(files) && f in files && Overlaps(f, lo, hi)
    requires Grown(files, lo0, hi0, lo, hi)
    requires Widens(lo, hi, lo', hi')
    requires lo' == lo || lo' == Some(f.smallest.user)
    requires hi' == hi || hi' == Some(f.largest.user)
    ensures Grown(files, lo0, hi0, lo', hi')
  {
    assert WfFile(f);
    FileBounds(f, f.entries[0]);
    forall x, y | Widens(lo0, hi0, x, y) && ClosedRange(files, x, y) ensures Widens(lo', hi', x, y) {
      assert Widens(lo, hi, x, y);
      assert Overlaps(f, x, y);
    }
    forall x: UserKey, y: UserKey | x <= y && MeetsNone(x, y, files, lo', hi') && Beside(x, y, lo0, hi0)
      ensures Beside(x, y, lo', hi')
    {
      assert MeetsNone(x, y, files, lo, hi) by {
        forall g | g in files && Overlaps(g, lo, hi) ensures !Overlaps(g, Some(x), Some(y)) {
          assert Overlaps(g, lo', hi');
        }
      }
      assert Overlaps(f, lo', hi');
    }
  }

  /** Taking in a file that sticks out below: fewer files are left below. */
  lemma GrowDown(files: seq<File>, lo0: Bound, hi0: Bound, lo: Bound, hi: Bound, f: File)
    requires AllWf(files) && f in files && Overlaps(f, lo, hi) && Grown(files, lo0, hi0, lo, hi)
    requires lo.Some? && f.smallest.user < lo.value
    ensures Grown(files, lo0, hi0, Some(f.smallest.user), hi)
    ensures CountBelow(files, Some(f.smallest.user)) < CountBelow(files, lo)
  {
    CountBelowDrops(files, lo.value, f.smallest.user);
    hide Grown, Overlaps, CountBelow;
    GrowStep(files, lo0, hi0, lo, hi, f, Some(f.smallest.user), hi);
  }

  lemma GrowUp(files: seq<File>, lo0: Bound, hi0: Bound, lo: Bound, hi: Bound, f: File)
    requires AllWf(files) && f in files && Overlaps(f, lo, hi) && Grown(files, lo0, hi0, lo, hi)
    requires hi.Some? && f.largest.user > hi.value
    ensures Grown(files, lo0, hi0, lo, Some(f.largest.user))
    ensures CountAbove(files, Some(f.largest.user)) < CountAbove(files, hi)
  {
    CountAboveDrops(files, hi.value, f.largest.user);
    hide Grown, Overlaps, CountAbove;
    GrowStep(files, lo0, hi0, lo, hi, f, lo, Some(f.largest.user));
  }

  /** After looking at `i` files since the last restart: the range has grown only as it must,
      and the inputs are the files that meet it. */
  ghost predicate Scanned(files: seq<File>, level: nat, lo0: Bound, hi0: Bound, lo: Bound, hi: Bound, i: nat, inputs: seq<File>) {
    && i <= |files|
    && Grown(files, lo0, hi0, lo, hi)
    && (level > 0 ==> lo == lo0 && hi == hi0)
    && inputs == OverlapFilter(files[..i], lo, hi)
    && (level == 0 ==> ClosedRange(files[..i], lo, hi))
  }

  /** The file lies to one side of the range. */
  predicate Outside(f: File, lo: Bound, hi: Bound) {
    (lo.Some? && f.largest.user < lo.value) || (hi.Some? && f.smallest.user > hi.value)
  }

  lemma ScanStarts(files: seq<File>, level: nat, lo: Bound, hi: Bound)
    ensures Scanned(files, level, lo, hi, lo, hi, 0, [])
  {
  }

  lemma FilterOneMore(files: seq<File>, i: nat, lo: Bound, hi: Bound)
    requires i < |files|
    ensures OverlapFilter(files[..i + 1], lo, hi) == if Outside(files[i], lo, hi) then OverlapFilter(files[..i], lo, hi) else OverlapFilter(files[..i], lo, hi) + [files[i]]
  {
    assert files[..i + 1][..i] == files[..i];
  }

  lemma ClosedOneMore(files: seq<File>, i: nat, lo: Bound, hi: Bound)
    requires i < |files| && (Outside(files[i], lo, hi) || Within(files[i], lo, hi))
    ensures ClosedRange(files[..i], lo, hi) ==> ClosedRange(files[..i + 1], lo, hi)
  {
    assert files[..i + 1] == files[..i] + [files[i]];
  }

  lemma ScanGoesOn(files: seq<File>, level: nat, lo0: Bound, hi0: Bound, lo: Bound, hi: Bound, i: nat, inputs: seq<File>)
    requires Scanned(files, level, lo0, hi0, lo, hi, i, inputs) && i < |files|
    requires Outside(files[i], lo, hi) || level > 0 || Within(files[i], lo, hi)
    ensures Scanned(files, level, lo0, hi0, lo, hi, i + 1, if Outside(files[i], lo, hi) then inputs else inputs + [files[i]])
  {
    hide Grown, ClosedRange, OverlapFilter;
    FilterOneMore(files, i, lo, hi);
    if Outside(files[i], lo, hi) || Within(files[i], lo, hi) { ClosedOneMore(files, i, lo, hi); }
  }

  lemma ScanRestarts(files: seq<File>, lo0: Bound, hi0: Bound, lo: Bound, hi: Bound, i: nat, inputs: seq<File>)
    requires AllWf(files) && Scanned(files, 0, lo0, hi0, lo, hi, i, inputs) && i < |files| && !Outside(files[i], lo, hi)
    ensures var f := files[i];
      && (lo.Some? && f.smallest.user < lo.value ==>
            Scanned(files, 0, lo0, hi0, Some(f.smallest.user), hi, 0, []) && CountBelow(files, Some(f.smallest.user)) < CountBelow(files, lo))
      && (hi.Some? && f.largest.user > hi.value ==>
            Scanned(files, 0, lo0, hi0, lo, Some(f.largest.user), 0, []) && CountAbove(files, Some(f.largest.user)) < CountAbove(files, hi))
  {
    var f := files[i];
    if lo.Some? && f.smallest.user < lo.value { GrowDown(files, lo0, hi0, lo, hi, f); }
    if hi.Some? && f.largest.user > hi.value { GrowUp(files, lo0, hi0, lo, hi, f); }
    hide Grown, CountBelow, CountAbove;
  }

  lemma ScanEnds(files: seq<File>, level: nat, lo0: Bound, hi0: Bound, lo: Bound, hi: Bound, inputs: seq<File>)
    requires Scanned(files, level, lo0, hi0, lo, hi, |files|, inputs)
    ensures inputs == OverlapFilter(files, lo, hi) && GrewWithoutGap(files, lo0, hi0, lo, hi)
    ensures if level > 0 then lo == lo0 && hi == hi0 else LeastClosure(files, lo0, hi0, lo, hi) && MeetsLeastClosure(files, lo0, hi0, inputs)
  {
    assert files[..|files|] == files;
  }

  /** All files of a level that overlap a range.  On level 0, where files overlap each
      other, the scan restarts whenever a file widens the range; it ends with the
      least range closed under overlap. */
  method GetOverlappingInputs(files: seq<File>, level: nat, begin: Bound, end: Bound)
    returns (inputs: seq<File>, ghost lo: Bound, ghost hi: Bound)
    requires AllWf(files)
    ensures inputs == OverlapFilter(files, lo, hi)
    ensures level > 0 ==> lo == begin && hi == end
    ensures level == 0 ==> LeastClosure(files, begin, end, lo, hi)
    ensures GrewWithoutGap(files, begin, end, lo, hi)
    ensures if level > 0 then inputs == OverlapFilter(files, begin, end) else MeetsLeastClosure(files, begin, end, inputs)
  {
    hide AllWf, Scanned, OverlapFilter, LeastClosure, MeetsLeastClosure, GrewWithoutGap, CountBelow, CountAbove;
    inputs := [];
    var userBegin, userEnd := begin, end;
    var i := 0;
    ScanStarts(files, level, begin, end);
    while i < |files|
      invariant i <= |files| && Scanned(files, level, begin, end, userBegin, userEnd, i, inputs)
      decreases CountBelow(files, userBegin) + CountAbove(files, userEnd), |files| - i
    {
      var f := files[i];
      var fileStart, fileLimit := f.smallest.user, f.largest.user;
      if (userBegin.Some? && fileLimit < userBegin.value) || (userEnd.Some? && fileStart > userEnd.value) {
        ScanGoesOn(files, level, begin, end, userBegin, userEnd, i, inputs);
        i := i + 1;
      } else if level == 0 && userBegin.Some? && fileStart < userBegin.value {
        ScanRestarts(files, begin, end, userBegin, userEnd, i, inputs);
        userBegin, inputs, i := Some(fileStart), [], 0;
      } else if level == 0 && userEnd.Some? && fileLimit > userEnd.value {
        ScanRestarts(files, begin, end, userBegin, userEnd, i, inputs);
        userEnd, inputs, i := Some(fileLimit), [], 0;
      } else {
        ScanGoesOn(files, level, begin, end, userBegin, userEnd, i, inputs);
        inputs, i := inputs + [f], i + 1;
      }
    }
    lo, hi := userBegin, userEnd;
    ScanEnds(files, level, begin, end, lo, hi, inputs);
  }

  /** The total of the file sizes, as the source sums them. */
  function TotalFileSize(files: seq<File>): nat {
    if |files| == 0 then 0 else files[0].size + TotalFileSize(files[1..])
  }

  predicate LevelMeets(v: Levels, level: nat, lo: UserKey, hi: UserKey)
    requires level < NUM_LEVELS
  {
    exists f | f in v[level] :: Overlaps(f, Some(lo), Some(hi))
  }

  /** How many bytes of a level meet [lo, hi]. */
  function BytesMet(files: seq<File>, lo: UserKey, hi: UserKey): nat {
    TotalFileSize(OverlapFilter(files, Some(lo), Some(hi)))
  }

  /** A flushed memtable covering [lo, hi] is pushed past level `l`: nothing meets it there or
      one level down, and not too many bytes do two levels down. */
  predicate GoesPast(v: Levels, l: nat, lo: UserKey, hi: UserKey, maxBytes: nat)
    requires l + 2 < NUM_LEVELS
  {
    !LevelMeets(v, l, lo, hi) && !LevelMeets(v, l + 1, lo, hi) && BytesMet(v[l + 2], lo, hi) <= maxBytes
  }

  /** Where it lands: as deep as it is pushed, at most on level 2. */
  predicate LandsAt(v: Levels, level: nat, lo: UserKey, hi: UserKey, maxBytes: nat) {
    && level <= MAX_MEM_COMPACT_LEVEL
    && (forall l | 0 <= l < level :: GoesPast(v, l, lo, hi, maxBytes))
    && (level < MAX_MEM_COMPACT_LEVEL ==> !GoesPast(v, level, lo, hi, maxBytes))
  }

  /** No file from level 0 to the level it lands on meets it, unless that is level 0. */
  lemma NothingMetAbove(v: Levels, level: nat, lo: UserKey, hi: UserKey, maxBytes: nat, l: nat)
    requires LandsAt(v, level, lo, hi, maxBytes) && l <= level && level > 0
    ensures !LevelMeets(v, l, lo, hi)
  {
    assert GoesPast(v, if l == level then l - 1 else l, lo, hi, maxBytes);
  }

  method PickLevelForMemTableOutput(v: Levels, lo: UserKey, hi: UserKey, maxGrandParentOverlapBytes: nat) returns (level: nat)
    requires WfLevels(v)
    ensures LandsAt(v, level, lo, hi, maxGrandParentOverlapBytes)
  {
    level := 0;
    var meets := SomeFileOverlapsRange(false, v[0], Some(lo), Some(hi));
    if !meets {
      while level < MAX_MEM_COMPACT_LEVEL
        invariant level <= MAX_MEM_COMPACT_LEVEL
        invariant !LevelMeets(v, level, lo, hi)
        invariant forall l | 0 <= l < level :: GoesPast(v, l, lo, hi, maxGrandParentOverlapBytes)
      {
        meets := SomeFileOverlapsRange(true, v[level + 1], Some(lo), Some(hi));
        if meets { break; }
        if level + 2 < NUM_LEVELS {
          var overlaps, _, _ := GetOverlappingInputs(v[level + 2], level + 2, Some(lo), Some(hi));
          if TotalFileSize(overlaps) > maxGrandParentOverlapBytes { break; }
        }
        level := level + 1;
      }
    }
  }
}
