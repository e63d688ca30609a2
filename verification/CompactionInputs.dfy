/** Choosing the input files of a compaction (db/version_set.cc): key ranges, boundary
    files, the expansion of the upper level, automatic and manual picking. */
module CompactionInputs {
  import opened DbFormat
  import opened Entries
  import opened Versions
  import opened FileSearch

  /** Inputs from `level` and `level + 1`, and the overlapping files of `level + 2`. */
  datatype Compaction = Compaction(level: nat, inputs0: seq<File>, inputs1: seq<File>, grandparents: seq<File>)

  function MinKey(files: seq<File>): InternalKey
    requires |files| > 0
  {
    if |files| == 1 then files[0].smallest
    else
      var m := MinKey(files[..|files| - 1]);
      if Before(files[|files| - 1].smallest, m) then files[|files| - 1].smallest else m
  }

  function MaxKey(files: seq<File>): InternalKey
    requires |files| > 0
  {
    if |files| == 1 then files[0].largest
    else
      var m := MaxKey(files[..|files| - 1]);
      if Before(m, files[|files| - 1].largest) then files[|files| - 1].largest else m
  }

  lemma {:induction false} MinKeyIs(files: seq<File>)
    requires |files| > 0
    ensures exists f :: f in files && MinKey(files) == f.smallest
    ensures forall f | f in files :: AtOrBefore(MinKey(files), f.smallest)
  {
    var n := |files| - 1;
    if n > 0 {
      MinKeyIs(files[..n]);
      assert files == files[..n] + [files[n]];
    } else {
      assert files[0] in files;
    }
  }

  lemma {:induction false} MaxKeyIs(files: seq<File>)
    requires |files| > 0
    ensures exists f :: f in files && MaxKey(files) == f.largest
    ensures forall f | f in files :: AtOrBefore(f.largest, MaxKey(files))
  {
    var n := |files| - 1;
    if n > 0 {
      MaxKeyIs(files[..n]);
      assert files == files[..n] + [files[n]];
    } else {
      assert files[0] in files;
    }
  }

  /** The minimal range covering all inputs. */
  method GetRange(files: seq<File>) returns (smallest: InternalKey, largest: InternalKey)
    requires |files| > 0
    ensures smallest == MinKey(files) && largest == MaxKey(files)
  {
    smallest, largest := files[0].smallest, files[0].largest;
    var i := 1;
    assert files[..1] == [files[0]];
    while i < |files|
      invariant 1 <= i <= |files|
      invariant smallest == MinKey(files[..i]) && largest == MaxKey(files[..i])
    {
      assert files[..i+1][..i] == files[..i];
      if Before(files[i].smallest, smallest) { smallest := files[i].smallest; }
      if Before(largest, files[i].largest) { largest := files[i].largest; }
      i := i + 1;
    }
    assert files[..i] == files;
  }

  function UserLo(files: seq<File>): Bound
    requires |files| > 0
  {
    Some(MinKey(files).user)
  }

  function UserHi(files: seq<File>): Bound
    requires |files| > 0
  {
    Some(MaxKey(files).user)
  }

  /** `f` starts behind `key` with the same user key. */
  predicate IsBoundary(f: File, key: InternalKey) {
    Before(key, f.smallest) && f.smallest.user == key.user
  }

  /** The first file behind `largest` that shares its user key. */
  method FindSmallestBoundaryFile(levelFiles: seq<File>, largest: InternalKey) returns (r: Option<File>)
    ensures r.None? ==> forall f | f in levelFiles :: !IsBoundary(f, largest)
    ensures r.Some? ==> LeastBoundary(levelFiles, largest, r.value)
  {
    r := None;
    for i := 0 to |levelFiles|
      invariant r.None? ==> forall f | f in levelFiles[..i] :: !IsBoundary(f, largest)
      invariant r.Some? ==> LeastBoundary(levelFiles[..i], largest, r.value)
    {
      var f := levelFiles[i];
      assert levelFiles[..i+1] == levelFiles[..i] + [f];
      if Before(largest, f.smallest) && f.smallest.user == largest.user {
        if r.None? || Before(f.smallest, r.value.smallest) {
          r := Some(f);
        }
      }
    }
    assert levelFiles[..|levelFiles|] == levelFiles;
  }

  predicate LeastBoundary(levelFiles: seq<File>, largest: InternalKey, b: File) {
    && b in levelFiles && IsBoundary(b, largest)
    && forall f | f in levelFiles && IsBoundary(f, largest) :: !Before(f.smallest, b.smallest)
  }

  /** `result` extends `files` by boundary files only, each the nearest one behind
      everything before it. */
  predicate BoundaryChain(levelFiles: seq<File>, files: seq<File>, result: seq<File>) {
    && 0 < |files| <= |result| && files == result[..|files|]
    && forall i | |files| <= i < |result| :: LeastBoundary(levelFiles, MaxKey(result[..i]), result[i])
  }

  /** No file outside continues the last user key of the inputs. */
  predicate RightClosed(levelFiles: seq<File>, inputs: seq<File>)
    requires |inputs| > 0
  {
    forall f | f in levelFiles :: !IsBoundary(f, MaxKey(inputs))
  }

  function CountBehind(files: seq<File>, key: InternalKey): nat {
    if |files| == 0 then 0
    else CountBehind(files[1..], key) + (if Before(key, files[0].smallest) then 1 else 0)
  }

  lemma CountBehindDrops(files: seq<File>, key: InternalKey, key': InternalKey)
    requires Before(key, key')
    ensures CountBehind(files, key') <= CountBehind(files, key)
    ensures (exists f | f in files :: Before(key, f.smallest) && !Before(key', f.smallest)) ==> CountBehind(files, key') < CountBehind(files, key)
  {
    if |files| > 0 { CountBehindDrops(files[1..], key, key'); }
  }

  lemma BoundaryIsBeyond(levelFiles: seq<File>, inputs: seq<File>, b: File)
    requires AllWf(levelFiles) && b in levelFiles && |inputs| > 0
    requires IsBoundary(b, MaxKey(inputs))
    ensures b !in inputs
    ensures Before(MaxKey(inputs), b.largest)
    ensures CountBehind(levelFiles, b.largest) < CountBehind(levelFiles, MaxKey(inputs))
  {
    FileBounds(b, b.entries[0]);
    MaxKeyIs(inputs);
    CountBehindDrops(levelFiles, MaxKey(inputs), b.largest);
    assert b in inputs ==> AtOrBefore(b.largest, MaxKey(inputs));
  }

  lemma StartChain(levelFiles: seq<File>, files: seq<File>)
    requires |files| > 0
    ensures BoundaryChain(levelFiles, files, files)
  {
    assert files[..|files|] == files;
  }

  lemma ExtendChain(levelFiles: seq<File>, files: seq<File>, result: seq<File>, b: File)
    requires BoundaryChain(levelFiles, files, result)
    requires LeastBoundary(levelFiles, MaxKey(result), b) && Before(MaxKey(result), b.largest)
    ensures BoundaryChain(levelFiles, files, result + [b])
    ensures MaxKey(result + [b]) == b.largest
  {
    var longer := result + [b];
    assert longer[..|result|] == result;
    forall i | |files| <= i < |longer| ensures LeastBoundary(levelFiles, MaxKey(longer[..i]), longer[i]) {
      if i < |result| { assert longer[..i] == result[..i]; }
    }
  }

  /** Adds boundary files until the last user key is complete.  The largest key grows
      with every file added, so the search ends and no file is added twice. */
  method AddBoundaryInputs(levelFiles: seq<File>, compactionFiles: seq<File>) returns (result: seq<File>)
    requires AllWf(levelFiles) && DistinctNumbers(levelFiles) && DistinctNumbers(compactionFiles)
    requires forall f | f in compactionFiles :: f in levelFiles
    ensures |compactionFiles| == 0 ==> result == []
    ensures |compactionFiles| > 0 ==> BoundaryChain(levelFiles, compactionFiles, result) && RightClosed(levelFiles, result)
    ensures DistinctNumbers(result)
  {
    hide BoundaryChain, LeastBoundary, MaxKey, CountBehind;
    result := compactionFiles;
    if |compactionFiles| == 0 { return; }
    var _, largest := GetRange(compactionFiles);
    var continueSearching := true;
    StartChain(levelFiles, compactionFiles);
    while continueSearching
      invariant |result| > 0 && BoundaryChain(levelFiles, compactionFiles, result)
      invariant largest == MaxKey(result)
      invariant forall f | f in result :: f in levelFiles
      invariant DistinctNumbers(result)
      invariant !continueSearching ==> RightClosed(levelFiles, result)
      decreases CountBehind(levelFiles, largest), continueSearching
    {
      var boundary := FindSmallestBoundaryFile(levelFiles, largest);
      if boundary.Some? {
        BoundaryIsBeyond(levelFiles, result, boundary.value);
        NotInMeansNewNumber(levelFiles, result, boundary.value);
        ExtendChain(levelFiles, compactionFiles, result, boundary.value);
        result := result + [boundary.value];
        largest := boundary.value.largest;
      } else {
        continueSearching := false;
      }
    }
  }

  lemma NotInMeansNewNumber(levelFiles: seq<File>, result: seq<File>, b: File)
    requires DistinctNumbers(levelFiles) && b in levelFiles && b !in result
    requires forall f | f in result :: f in levelFiles
    ensures forall f | f in result :: f.number != b.number
  {
    forall f | f in result ensures f.number != b.number {
      SameNumberSameFile(levelFiles, f, b);
      assert f != b;
    }
  }

  lemma SameNumberSameFile(files: seq<File>, f: File, g: File)
    requires DistinctNumbers(files) && f in files && g in files
    ensures f.number == g.number ==> f == g
  {
    var i :| 0 <= i < |files| && files[i] == f;
    var j :| 0 <= j < |files| && files[j] == g;
  }

  // ---- what a set of inputs must satisfy ----

  /** A file between two inputs is an input. */
  predicate Convex(levelFiles: seq<File>, inputs: seq<File>) {
    forall f, g, h | f in levelFiles && g in inputs && h in inputs && Before(g.smallest, f.smallest) && Before(f.smallest, h.smallest) :: f in inputs
  }

  /** No file outside meets the user-key range of the inputs. */
  predicate HullClosed(levelFiles: seq<File>, inputs: seq<File>)
    requires |inputs| > 0
  {
    forall f | f in levelFiles && f !in inputs :: !Overlaps(f, UserLo(inputs), UserHi(inputs))
  }

  /** What both ways of picking hand to SetupOtherInputs.  Below level 0 the inputs are in
      key order, as the iterator that concatenates them needs. */
  predicate Picked(v: Levels, level: nat, inputs: seq<File>) {
    && level + 1 < NUM_LEVELS
    && |inputs| > 0
    && (forall f | f in inputs :: f in v[level])
    && DistinctNumbers(inputs)
    && if level == 0 then HullClosed(v[0], inputs) else Convex(v[level], inputs) && Disjoint(inputs)
  }

  /** A sound selection: the upper inputs complete their last user key (and on level 0
      every user key they touch); the lower inputs are all files that meet them. */
  predicate Selected(v: Levels, c: Compaction) {
    && Picked(v, c.level, c.inputs0)
    && RightClosed(v[c.level], c.inputs0)
    && c.inputs1 == OverlapFilter(v[c.level + 1], UserLo(c.inputs0), UserHi(c.inputs0))
  }

  predicate LeftOfAll(y: UserKey, files: seq<File>) {
    forall f | f in files :: y < f.smallest.user
  }

  predicate RightOfAll(x: UserKey, files: seq<File>) {
    forall f | f in files :: f.largest.user < x
  }

  predicate Avoids(x: UserKey, y: UserKey, files: seq<File>) {
    forall f | f in files :: !Overlaps(f, Some(x), Some(y))
  }

  /** The input ranges cover one user-key interval: whatever avoids them all lies wholly
      to their left or wholly to their right. */
  ghost predicate Gapless(files: seq<File>) {
    forall x: UserKey, y: UserKey | x <= y && Avoids(x, y, files) :: LeftOfAll(y, files) || RightOfAll(x, files)
  }

  // ---- adding boundary files keeps the shape of a selection ----

  lemma ConvexCase(levelFiles: seq<File>, inputs: seq<File>, b: File, last: File, f: File, g: File, h: File)
    requires Convex(levelFiles, inputs)
    requires last in inputs && f in levelFiles
    requires f == last || Before(f.largest, last.smallest) || Before(last.largest, f.smallest)
    requires AtOrBefore(f.smallest, f.largest) && AtOrBefore(last.smallest, last.largest)
    requires IsBoundary(b, last.largest)
    requires IsBoundary(f, last.largest) ==> !Before(f.smallest, b.smallest)
    requires g in inputs || g == b
    requires (h in inputs && AtOrBefore(h.smallest, last.largest)) || h == b
    requires Before(g.smallest, f.smallest) && Before(f.smallest, h.smallest)
    ensures f in inputs
  {
    if g in inputs {
      if h == b && f != last {
        assert Before(f.smallest, last.smallest);
      }
    }
  }

  /** Same file, or one wholly before the other. */
  predicate Apart(f: File, g: File) {
    f == g || Before(f.largest, g.smallest) || Before(g.largest, f.smallest)
  }

  predicate Intervals(files: seq<File>) {
    forall f | f in files :: AtOrBefore(f.smallest, f.largest)
  }

  /** A sorted level seen as a set of files: ranges are intervals and never interleave. */
  predicate Spread(files: seq<File>) {
    && Intervals(files)
    && (forall f, g | f in files && g in files :: Apart(f, g))
  }

  lemma WfAreIntervals(files: seq<File>)
    requires AllWf(files)
    ensures Intervals(files)
  {
    forall f | f in files ensures AtOrBefore(f.smallest, f.largest) {
      FileBounds(f, f.entries[0]);
    }
  }

  lemma SortedIsSpread(files: seq<File>)
    requires AllWf(files) && Disjoint(files)
    ensures Spread(files)
  {
    WfAreIntervals(files);
    forall f, g | f in files && g in files ensures Apart(f, g) {
      var i :| 0 <= i < |files| && files[i] == f;
      var j :| 0 <= j < |files| && files[j] == g;
    }
  }

  /** What the last input and the least boundary file say about one more file. */
  lemma BesideLast(levelFiles: seq<File>, inputs: seq<File>, b: File, f: File, last: File)
    requires Spread(levelFiles) && |inputs| > 0 && f in levelFiles && last in levelFiles
    requires MaxKey(inputs) == last.largest && LeastBoundary(levelFiles, MaxKey(inputs), b)
    ensures Apart(f, last) && AtOrBefore(f.smallest, f.largest) && AtOrBefore(last.smallest, last.largest)
    ensures IsBoundary(b, last.largest) && (IsBoundary(f, last.largest) ==> !Before(f.smallest, b.smallest))
  {
  }

  lemma InputStartsBefore(levelFiles: seq<File>, inputs: seq<File>, h: File)
    requires Spread(levelFiles) && |inputs| > 0 && h in inputs && h in levelFiles
    ensures AtOrBefore(h.smallest, MaxKey(inputs))
  {
    MaxKeyIs(inputs);
  }

  lemma ConvexStep(levelFiles: seq<File>, inputs: seq<File>, b: File)
    requires Spread(levelFiles) && |inputs| > 0
    requires forall f | f in inputs :: f in levelFiles
    requires Convex(levelFiles, inputs) && LeastBoundary(levelFiles, MaxKey(inputs), b)
    ensures Convex(levelFiles, inputs + [b])
  {
    MaxKeyIs(inputs);
    var last :| last in inputs && MaxKey(inputs) == last.largest;
    hide MaxKey, IsBoundary, Spread, LeastBoundary, AtOrBefore, Before;
    forall f, g, h | f in levelFiles && g in inputs + [b] && h in inputs + [b] && Before(g.smallest, f.smallest) && Before(f.smallest, h.smallest)
      ensures f in inputs + [b]
    {
      BesideLast(levelFiles, inputs, b, f, last);
      if h in inputs { InputStartsBefore(levelFiles, inputs, h); }
      ConvexCase(levelFiles, inputs, b, last, f, g, h);
    }
  }

  lemma ShorterChain(levelFiles: seq<File>, files: seq<File>, result: seq<File>)
    requires BoundaryChain(levelFiles, files, result) && |files| < |result|
    ensures BoundaryChain(levelFiles, files, result[..|result| - 1])
    ensures LeastBoundary(levelFiles, MaxKey(result[..|result| - 1]), result[|result| - 1])
    ensures result == result[..|result| - 1] + [result[|result| - 1]]
  {
    var shorter := result[..|result| - 1];
    assert shorter[..|files|] == files;
    forall i | |files| <= i < |shorter| ensures LeastBoundary(levelFiles, MaxKey(shorter[..i]), shorter[i]) {
      assert shorter[..i] == result[..i];
    }
  }

  lemma {:induction false} ChainKeepsConvex(levelFiles: seq<File>, files: seq<File>, result: seq<File>)
    requires Spread(levelFiles) && BoundaryChain(levelFiles, files, result)
    requires forall f | f in files :: f in levelFiles
    requires Convex(levelFiles, files)
    ensures Convex(levelFiles, result)
    ensures forall f | f in result :: f in levelFiles
  {
    var n := |result| - 1;
    if n + 1 > |files| {
      var shorter := result[..n];
      ShorterChain(levelFiles, files, result);
      ChainKeepsConvex(levelFiles, files, shorter);
      ConvexStep(levelFiles, shorter, result[n]);
    } else {
      assert result == files;
    }
  }

  lemma {:induction false} ChainKeepsOrder(levelFiles: seq<File>, files: seq<File>, result: seq<File>)
    requires BoundaryChain(levelFiles, files, result) && Disjoint(files)
    ensures Disjoint(result)
  {
    var n := |result| - 1;
    if n + 1 > |files| {
      var shorter := result[..n];
      ShorterChain(levelFiles, files, result);
      ChainKeepsOrder(levelFiles, files, shorter);
      MaxKeyIs(shorter);
      forall i | 0 <= i < n ensures Before(shorter[i].largest, result[n].smallest) {
        assert shorter[i] in shorter;
      }
    } else {
      assert result == files;
    }
  }

  lemma {:induction false} FilterIsDisjoint(files: seq<File>, lo: Bound, hi: Bound)
    requires Disjoint(files)
    ensures Disjoint(OverlapFilter(files, lo, hi))
  {
    if |files| > 0 {
      var n := |files| - 1;
      FilterIsDisjoint(files[..n], lo, hi);
      var r := OverlapFilter(files[..n], lo, hi);
      forall i | 0 <= i < |r| ensures Before(r[i].largest, files[n].smallest) {
        assert r[i] in files[..n];
      }
    }
  }

  /** On level 0 a closed hull already holds every boundary file. */
  lemma ChainOnLevelZeroIsEmpty(levelFiles: seq<File>, files: seq<File>, result: seq<File>)
    requires AllWf(levelFiles) && BoundaryChain(levelFiles, files, result)
    requires forall f | f in files :: f in levelFiles
    requires HullClosed(levelFiles, files)
    ensures result == files
  {
    if |result| > |files| {
      var b := result[|files|];
      assert result[..|files|] == files;
      assert LeastBoundary(levelFiles, MaxKey(files), b);
      HullNotEmpty(files, b);
      BoundaryIsBeyond(levelFiles, files, b);
      assert false;
    }
  }

  lemma HullNotEmpty(files: seq<File>, b: File)
    requires |files| > 0
    requires IsBoundary(b, MaxKey(files)) && AtOrBefore(b.smallest, b.largest)
    requires Intervals(files)
    ensures Overlaps(b, UserLo(files), UserHi(files))
  {
    MinKeyIs(files);
    MaxKeyIs(files);
    var last :| last in files && MaxKey(files) == last.largest;
    assert AtOrBefore(MinKey(files), last.smallest);
  }

  lemma FilterIsConvex(files: seq<File>, lo: Bound, hi: Bound)
    requires Spread(files)
    ensures Convex(files, OverlapFilter(files, lo, hi))
  {
    var r := OverlapFilter(files, lo, hi);
    forall f, g, h | f in files && g in r && h in r && Before(g.smallest, f.smallest) && Before(f.smallest, h.smallest)
      ensures f in r
    {
      assert Apart(g, f) && Apart(f, h);
    }
  }

  lemma {:induction false} FilterIsDistinct(files: seq<File>, lo: Bound, hi: Bound)
    requires DistinctNumbers(files)
    ensures DistinctNumbers(OverlapFilter(files, lo, hi))
  {
    if |files| > 0 {
      var n := |files| - 1;
      FilterIsDistinct(files[..n], lo, hi);
      var r := OverlapFilter(files[..n], lo, hi);
      forall j | 0 <= j < |r| ensures r[j].number != files[n].number {
        assert r[j] in files[..n];
      }
    }
  }

  lemma ClosureIsHullClosed(files: seq<File>, lo: Bound, hi: Bound)
    requires ClosedRange(files, lo, hi)
    requires |OverlapFilter(files, lo, hi)| > 0
    ensures HullClosed(files, OverlapFilter(files, lo, hi))
  {
    hide MinKey, MaxKey, OverlapFilter, ClosedRange, Within, Overlaps;
    var r := OverlapFilter(files, lo, hi);
    MinKeyIs(r);
    MaxKeyIs(r);
    var first :| first in r && MinKey(r) == first.smallest;
    var last :| last in r && MaxKey(r) == last.largest;
    forall f | f in files && f !in r ensures !Overlaps(f, UserLo(r), UserHi(r)) {
      BesideTheRange(files, lo, hi, first, last, f);
    }
  }

  lemma BesideTheRange(files: seq<File>, lo: Bound, hi: Bound, first: File, last: File, f: File)
    requires ClosedRange(files, lo, hi) && first in files && last in files && f in files
    requires Overlaps(first, lo, hi) && Overlaps(last, lo, hi) && !Overlaps(f, lo, hi)
    ensures !Overlaps(f, Some(first.smallest.user), Some(last.largest.user))
  {
  }

  /** A range found by GetOverlappingInputs is a selection, and AddBoundaryInputs makes
      it complete to the right. */
  lemma ExtendedIsPicked(v: Levels, level: nat, files: seq<File>, result: seq<File>)
    requires WfLevels(v) && Picked(v, level, files)
    requires BoundaryChain(v[level], files, result) && DistinctNumbers(result)
    ensures Picked(v, level, result)
    ensures forall f | f in files :: f in result
  {
    if level == 0 {
      WfAreIntervals(v[0]);
      ChainOnLevelZeroIsEmpty(v[0], files, result);
    } else {
      SortedIsSpread(v[level]);
      ChainKeepsConvex(v[level], files, result);
      ChainKeepsOrder(v[level], files, result);
      assert forall f | f in files :: f in result[..|files|];
    }
  }

  lemma FilterIsPicked(v: Levels, level: nat, lo: Bound, hi: Bound)
    requires WfLevels(v) && level + 1 < NUM_LEVELS
    requires level == 0 ==> ClosedRange(v[0], lo, hi)
    requires |OverlapFilter(v[level], lo, hi)| > 0
    ensures Picked(v, level, OverlapFilter(v[level], lo, hi))
  {
    FilterIsDistinct(v[level], lo, hi);
    if level == 0 {
      ClosureIsHullClosed(v[0], lo, hi);
    } else {
      SortedIsSpread(v[level]);
      FilterIsConvex(v[level], lo, hi);
      FilterIsDisjoint(v[level], lo, hi);
    }
  }

  // ---- the inputs cover one interval ----

  lemma GaplessOne(f: File)
    ensures Gapless([f])
  {
    assert f in [f];
  }

  /** A file that starts with the last user key of another leaves no gap behind it. */
  lemma GaplessTouching(files: seq<File>, g: File, b: File)
    requires Gapless(files) && g in files && g.largest.user == b.smallest.user
    requires AtOrBefore(g.smallest, g.largest) && AtOrBefore(b.smallest, b.largest)
    ensures Gapless(files + [b])
  {
    forall x: UserKey, y: UserKey | x <= y && Avoids(x, y, files + [b])
      ensures LeftOfAll(y, files + [b]) || RightOfAll(x, files + [b])
    {
      assert Avoids(x, y, files);
      assert b in files + [b];
      assert LeftOfAll(y, files) ==> LeftOfAll(y, files + [b]);
      assert RightOfAll(x, files) ==> RightOfAll(x, files + [b]);
    }
  }

  lemma GaplessChainStep(rest: seq<File>, files: seq<File>, b: File)
    requires Gapless(rest + files) && |files| > 0 && Intervals(files)
    requires AtOrBefore(b.smallest, b.largest) && b.smallest.user == MaxKey(files).user
    ensures Gapless(rest + (files + [b]))
  {
    MaxKeyIs(files);
    var g :| g in files && MaxKey(files) == g.largest;
    GaplessTouching(rest + files, g, b);
    assert rest + (files + [b]) == rest + files + [b];
  }

  lemma {:induction false} GaplessChain(levelFiles: seq<File>, rest: seq<File>, files: seq<File>, result: seq<File>)
    requires BoundaryChain(levelFiles, files, result)
    requires Intervals(levelFiles)
    requires forall f | f in files :: f in levelFiles
    requires Gapless(rest + files)
    ensures Gapless(rest + result)
    ensures forall f | f in result :: f in levelFiles
  {
    var n := |result| - 1;
    if n + 1 > |files| {
      var shorter := result[..n];
      ShorterChain(levelFiles, files, result);
      GaplessChain(levelFiles, rest, files, shorter);
      GaplessChainStep(rest, shorter, result[n]);
    } else {
      assert result == files;
    }
  }

  lemma GaplessSameFiles(a: seq<File>, b: seq<File>)
    requires Gapless(a) && forall f :: f in a <==> f in b
    ensures Gapless(b)
  {
    forall x: UserKey, y: UserKey | x <= y && Avoids(x, y, b) ensures LeftOfAll(y, b) || RightOfAll(x, b) {
      assert Avoids(x, y, a);
    }
  }

  /** An interval beside a range is beside every file that stays within the range. */
  lemma BesideHull(files: seq<File>, x: UserKey, y: UserKey)
    requires |files| > 0
    ensures LeftOfAll(y, files) <==> y < MinKey(files).user
    ensures RightOfAll(x, files) <==> MaxKey(files).user < x
  {
    MinKeyIs(files);
    MaxKeyIs(files);
  }

  /** Taking in all files of a level that meet the hull of a gapless set leaves it
      gapless; on level 0 the range may have grown on the way. */
  lemma GaplessOverlapping(files: seq<File>, level: nat, a: seq<File>, lo: Bound, hi: Bound)
    requires Gapless(a) && |a| > 0 && Intervals(files)
    requires GrewWithoutGap(files, UserLo(a), UserHi(a), lo, hi)
    requires Widens(UserLo(a), UserHi(a), lo, hi)
    requires level == 0 ==> ClosedRange(files, lo, hi)
    requires level > 0 ==> lo == UserLo(a) && hi == UserHi(a)
    ensures Gapless(a + OverlapFilter(files, lo, hi))
  {
    var r := OverlapFilter(files, lo, hi);
    forall x: UserKey, y: UserKey | x <= y && Avoids(x, y, a + r)
      ensures LeftOfAll(y, a + r) || RightOfAll(x, a + r)
    {
      assert Avoids(x, y, a);
      BesideHull(a, x, y);
      assert MeetsNone(x, y, files, lo, hi) by {
        assert forall f | f in r :: f in a + r;
      }
      assert Beside(x, y, lo, hi);
      if y < lo.value {
        assert forall f | f in r :: y < f.smallest.user by {
          assert forall f | f in r :: f in a + r && !Overlaps(f, Some(x), Some(y));
        }
      } else {
        assert forall f | f in r :: f.largest.user < x by {
          assert forall f | f in r :: f in a + r && !Overlaps(f, Some(x), Some(y));
        }
      }
    }
  }

  // ---- picking ----

  lemma {:induction false} FilterSameSize(files: seq<File>, lo: Bound, hi: Bound, lo': Bound, hi': Bound)
    requires Widens(lo, hi, lo', hi')
    ensures |OverlapFilter(files, lo, hi)| <= |OverlapFilter(files, lo', hi')|
    ensures |OverlapFilter(files, lo, hi)| == |OverlapFilter(files, lo', hi')| ==> OverlapFilter(files, lo, hi) == OverlapFilter(files, lo', hi')
  {
    if |files| > 0 {
      FilterSameSize(files[..|files| - 1], lo, hi, lo', hi');
    }
  }

  lemma HullWidens(a: seq<File>, b: seq<File>)
    requires |a| > 0 && forall f | f in a :: f in b
    ensures |b| > 0 && Widens(UserLo(a), UserHi(a), UserLo(b), UserHi(b))
  {
    assert a[0] in b;
    MinKeyIs(a);
    MaxKeyIs(a);
    MinKeyIs(b);
    MaxKeyIs(b);
  }

  /** Every file of a set meets the hull of the set. */
  lemma MembersMeetHull(files: seq<File>, lo: Bound, hi: Bound)
    requires |files| > 0 && Intervals(files) && Widens(UserLo(files), UserHi(files), lo, hi)
    ensures forall f | f in files :: Overlaps(f, lo, hi)
  {
    MinKeyIs(files);
    MaxKeyIs(files);
  }

  /** The expansion of the upper level keeps the inputs gapless. */
  lemma ExpansionGapless(levelFiles: seq<File>, level: nat, inputs0: seq<File>, inputs1: seq<File>, lo: Bound, hi: Bound, expanded0: seq<File>)
    requires |inputs0| > 0 && Intervals(levelFiles) && forall f | f in inputs0 :: f in levelFiles
    requires forall f | f in inputs0 :: Overlaps(f, lo, hi)
    requires Gapless(inputs0 + inputs1)
    requires GrewWithoutGap(levelFiles, UserLo(inputs0 + inputs1), UserHi(inputs0 + inputs1), lo, hi)
    requires Widens(UserLo(inputs0 + inputs1), UserHi(inputs0 + inputs1), lo, hi)
    requires level == 0 ==> ClosedRange(levelFiles, lo, hi)
    requires level > 0 ==> lo == UserLo(inputs0 + inputs1) && hi == UserHi(inputs0 + inputs1)
    requires BoundaryChain(levelFiles, OverlapFilter(levelFiles, lo, hi), expanded0)
    ensures Gapless(expanded0 + inputs1)
  {
    var raw := OverlapFilter(levelFiles, lo, hi);
    GaplessOverlapping(levelFiles, level, inputs0 + inputs1, lo, hi);
    GaplessSameFiles(inputs0 + inputs1 + raw, inputs1 + raw);
    GaplessChain(levelFiles, inputs1, raw, expanded0);
    GaplessSameFiles(inputs1 + expanded0, expanded0 + inputs1);
  }

  /** Upper inputs that are complete, with all lower files that meet them. */
  predicate Complete(v: Levels, level: nat, inputs0: seq<File>, inputs1: seq<File>) {
    && Picked(v, level, inputs0)
    && RightClosed(v[level], inputs0)
    && inputs1 == OverlapFilter(v[level + 1], UserLo(inputs0), UserHi(inputs0))
  }

  /** All of `level` that the range of the inputs reaches, with its boundary files. */
  ghost predicate Reached(v: Levels, level: nat, all: seq<File>, reached: seq<File>)
    requires level < NUM_LEVELS && |all| > 0
  {
    exists lo, hi ::
      && (if level > 0 then lo == UserLo(all) && hi == UserHi(all) else LeastClosure(v[0], UserLo(all), UserHi(all), lo, hi))
      && BoundaryChain(v[level], OverlapFilter(v[level], lo, hi), reached) && RightClosed(v[level], reached)
  }

  /** The inputs after growing: what they reach on the upper level is taken in exactly if it
      is more, stays below the limit and meets no more of the lower level. */
  ghost predicate Expanded(v: Levels, level: nat, inputs0: seq<File>, inputs1: seq<File>, limit: nat, r0: seq<File>, r1: seq<File>)
    requires level + 1 < NUM_LEVELS && |inputs0| > 0
  {
    exists reached | |reached| > 0 && Reached(v, level, inputs0 + inputs1, reached) ::
      if |reached| > |inputs0| && TotalFileSize(inputs1) + TotalFileSize(reached) < limit
         && |OverlapFilter(v[level + 1], UserLo(reached), UserHi(reached))| == |inputs1|
      then r0 == reached && r1 == inputs1
      else r0 == inputs0 && r1 == inputs1
  }

  lemma RangeIsWider(files: seq<File>, level: nat, lo0: Bound, hi0: Bound, lo: Bound, hi: Bound)
    requires if level > 0 then lo == lo0 && hi == hi0 else LeastClosure(files, lo0, hi0, lo, hi)
    ensures Widens(lo0, hi0, lo, hi) && (level == 0 ==> ClosedRange(files, lo, hi))
  {
  }

  /** The files of `level` in the range of all inputs. */
  method ReachUpper(v: Levels, level: nat, inputs0: seq<File>, inputs1: seq<File>) returns (reached: seq<File>)
    requires WfLevels(v) && Complete(v, level, inputs0, inputs1)
    ensures Reached(v, level, inputs0 + inputs1, reached) && Picked(v, level, reached) && RightClosed(v[level], reached)
    ensures forall f | f in inputs0 :: f in reached
    ensures Gapless(inputs0 + inputs1) ==> Gapless(reached + inputs1)
  {
    hide Convex, HullClosed, Disjoint, Gapless, OverlapFilter, WfFile, MinKey, MaxKey, LeastClosure, MeetsLeastClosure, GrewWithoutGap;
    WfAreIntervals(v[level]);
    WfAreIntervals(v[level + 1]);
    var allStart, allLimit := GetRange(inputs0 + inputs1);
    var raw, lo, hi := GetOverlappingInputs(v[level], level, Some(allStart.user), Some(allLimit.user));
    RangeIsWider(v[level], level, UserLo(inputs0 + inputs1), UserHi(inputs0 + inputs1), lo, hi);
    MembersMeetHull(inputs0 + inputs1, lo, hi);
    assert forall f | f in inputs0 :: f in inputs0 + inputs1;
    assert inputs0[0] in raw;
    FilterIsPicked(v, level, lo, hi);
    reached := AddBoundaryInputs(v[level], raw);
    ExtendedIsPicked(v, level, raw, reached);
    assert Reached(v, level, inputs0 + inputs1, reached);
    if Gapless(inputs0 + inputs1) {
      ExpansionGapless(v[level], level, inputs0, inputs1, lo, hi, reached);
    }
  }

  lemma SameLowerInputs(v: Levels, level: nat, inputs0: seq<File>, inputs1: seq<File>, reached: seq<File>)
    requires Complete(v, level, inputs0, inputs1) && |reached| > 0 && forall f | f in inputs0 :: f in reached
    requires |OverlapFilter(v[level + 1], UserLo(reached), UserHi(reached))| == |inputs1|
    ensures OverlapFilter(v[level + 1], UserLo(reached), UserHi(reached)) == inputs1
  {
    HullWidens(inputs0, reached);
    FilterSameSize(v[level + 1], UserLo(inputs0), UserHi(inputs0), UserLo(reached), UserHi(reached));
  }

  /** Takes in more files of `level` if that does not pull in more of `level + 1`. */
  method ExpandUpper(v: Levels, level: nat, inputs0: seq<File>, inputs1: seq<File>, expandedByteLimit: nat) returns (r0: seq<File>, r1: seq<File>)
    requires WfLevels(v) && Complete(v, level, inputs0, inputs1)
    ensures Complete(v, level, r0, r1) && Expanded(v, level, inputs0, inputs1, expandedByteLimit, r0, r1)
    ensures forall f | f in inputs0 :: f in r0
    ensures Gapless(inputs0 + inputs1) ==> Gapless(r0 + r1)
  {
    hide Convex, HullClosed, Disjoint, Gapless, OverlapFilter, WfFile, MinKey, MaxKey, Reached, RightClosed, DistinctNumbers;
    r0, r1 := inputs0, inputs1;
    var reached := ReachUpper(v, level, inputs0, inputs1);
    if |reached| > |inputs0| && TotalFileSize(inputs1) + TotalFileSize(reached) < expandedByteLimit {
      var newStart, newLimit := GetRange(reached);
      var expanded1, _, _ := GetOverlappingInputs(v[level + 1], level + 1, Some(newStart.user), Some(newLimit.user));
      if |expanded1| == |inputs1| {
        SameLowerInputs(v, level, inputs0, inputs1, reached);
        r0, r1 := reached, expanded1;
      }
    }
  }

  lemma FirstInputsGapless(v: Levels, level: nat, inputs: seq<File>, inputs0: seq<File>)
    requires WfLevels(v) && level + 1 < NUM_LEVELS
    requires forall f | f in inputs :: f in v[level]
    requires BoundaryChain(v[level], inputs, inputs0) && Gapless(inputs)
    ensures Gapless(inputs0 + OverlapFilter(v[level + 1], UserLo(inputs0), UserHi(inputs0)))
  {
    WfAreIntervals(v[level]);
    WfAreIntervals(v[level + 1]);
    assert [] + inputs == inputs && [] + inputs0 == inputs0;
    GaplessChain(v[level], [], inputs, inputs0);
    GaplessOverlapping(v[level + 1], level + 1, inputs0, UserLo(inputs0), UserHi(inputs0));
  }

  /** The files two levels down that meet all the inputs. */
  predicate HasGrandparents(v: Levels, c: Compaction)
    requires |c.inputs0| > 0
  {
    c.grandparents == if c.level + 2 < NUM_LEVELS then OverlapFilter(v[c.level + 2], UserLo(c.inputs0 + c.inputs1), UserHi(c.inputs0 + c.inputs1)) else []
  }

  lemma GrandparentsInOrder(v: Levels, c: Compaction)
    requires WfLevels(v) && |c.inputs0| > 0 && HasGrandparents(v, c)
    ensures Disjoint(c.grandparents)
  {
    if c.level + 2 < NUM_LEVELS {
      FilterIsDisjoint(v[c.level + 2], UserLo(c.inputs0 + c.inputs1), UserHi(c.inputs0 + c.inputs1));
    }
  }

  /** How a compaction grows out of the first inputs: boundary files, the lower files they
      meet, and, if there are any, more of the upper level. */
  ghost predicate SetUp(v: Levels, level: nat, inputs: seq<File>, limit: nat, c: Compaction)
    requires level + 1 < NUM_LEVELS
  {
    && (forall f | f in inputs :: f in c.inputs0)
    && exists first: seq<File> | |first| > 0 && BoundaryChain(v[level], inputs, first) && RightClosed(v[level], first) ::
         var met := OverlapFilter(v[level + 1], UserLo(first), UserHi(first));
         if met == [] then c.inputs0 == first && c.inputs1 == []
         else Expanded(v, level, first, met, limit, c.inputs0, c.inputs1)
  }

  lemma IsSetUp(v: Levels, level: nat, inputs: seq<File>, first: seq<File>, limit: nat, c: Compaction)
    requires level + 1 < NUM_LEVELS && |first| > 0 && BoundaryChain(v[level], inputs, first) && RightClosed(v[level], first)
    requires forall f | f in first :: f in c.inputs0
    requires var met := OverlapFilter(v[level + 1], UserLo(first), UserHi(first));
             if met == [] then c.inputs0 == first && c.inputs1 == [] else Expanded(v, level, first, met, limit, c.inputs0, c.inputs1)
    ensures SetUp(v, level, inputs, limit, c)
  {
    hide OverlapFilter, Expanded, RightClosed, LeastBoundary, MaxKey, MinKey;
    assert forall f | f in inputs :: f in first;
  }

  /** The boundary files of `level`, the files of `level + 1` below them, as many more
      files of `level` as fit, and the grandparents of all that.  `largest` is where the
      next compaction of this level starts. */
  method SetupOtherInputs(v: Levels, level: nat, inputs: seq<File>, expandedByteLimit: nat) returns (c: Compaction, largest: InternalKey)
    requires WfLevels(v) && Picked(v, level, inputs)
    ensures Selected(v, c) && c.level == level
    ensures SetUp(v, level, inputs, expandedByteLimit, c)
    ensures largest == MaxKey(c.inputs0)
    ensures HasGrandparents(v, c)
    ensures Gapless(inputs) ==> Gapless(c.inputs0 + c.inputs1)
  {
    hide DistinctNumbers, HullClosed, Convex, Disjoint, Gapless, MaxKey, MinKey, WfFile, OverlapFilter, BoundaryChain, RightClosed, Expanded, SetUp, MeetsLeastClosure;
    var inputs0 := AddBoundaryInputs(v[level], inputs);
    ExtendedIsPicked(v, level, inputs, inputs0);
    ghost var first := inputs0;
    var smallest;
    smallest, largest := GetRange(inputs0);
    var inputs1, _, _ := GetOverlappingInputs(v[level + 1], level + 1, Some(smallest.user), Some(largest.user));
    if Gapless(inputs) { FirstInputsGapless(v, level, inputs, inputs0); }
    if |inputs1| > 0 {
      inputs0, inputs1 := ExpandUpper(v, level, inputs0, inputs1, expandedByteLimit);
      smallest, largest := GetRange(inputs0);
    }
    var allStart, allLimit := GetRange(inputs0 + inputs1);
    var grandparents := [];
    if level + 2 < NUM_LEVELS {
      var overlapping, _, _ := GetOverlappingInputs(v[level + 2], level + 2, Some(allStart.user), Some(allLimit.user));
      grandparents := overlapping;
    }
    c := Compaction(level, inputs0, inputs1, grandparents);
    IsSetUp(v, level, inputs, first, expandedByteLimit, c);
  }

  /** What triggers an automatic compaction: a level over its size, or a file that cost
      too many seeks. */
  datatype Trigger = SizeTrigger(level: nat) | SeekTrigger(level: nat, file: File)

  predicate PastPointer(f: File, pointer: Option<InternalKey>) {
    pointer.None? || Before(pointer.value, f.largest)
  }

  predicate FirstPast(files: seq<File>, i: nat, pointer: Option<InternalKey>) {
    i < |files| && PastPointer(files[i], pointer) && forall j | 0 <= j < i :: !PastPointer(files[j], pointer)
  }

  /** The inputs have the first file past the pointer among them, or the first file of all
      once the pointer has passed every file. */
  predicate StartsAt(files: seq<File>, pointer: Option<InternalKey>, inputs: seq<File>)
    requires |files| > 0
  {
    && (forall i: nat | i < |files| && FirstPast(files, i, pointer) :: files[i] in inputs)
    && ((forall f | f in files :: !PastPointer(f, pointer)) ==> files[0] in inputs)
  }

  /** The first file past the compaction pointer of its level; the first file of all once
      the pointer has passed them. */
  method FirstAfterPointer(files: seq<File>, pointer: Option<InternalKey>) returns (index: nat)
    requires |files| > 0
    ensures index < |files|
    ensures PastPointer(files[index], pointer) ==> forall j | 0 <= j < index :: !PastPointer(files[j], pointer)
    ensures !PastPointer(files[index], pointer) ==> index == 0 && forall j | 0 <= j < |files| :: !PastPointer(files[j], pointer)
  {
    index := 0;
    while index < |files|
      invariant index <= |files|
      invariant forall j | 0 <= j < index :: !PastPointer(files[j], pointer)
    {
      if pointer.None? || Before(pointer.value, files[index].largest) { return; }
      index := index + 1;
    }
    index := 0;
  }

  /** What an automatic compaction starts from: one file, and on level 0 all that the range
      of that file drags in. */
  ghost predicate TakesFile(v: Levels, level: nat, f: File, inputs: seq<File>)
    requires level < NUM_LEVELS
  {
    if level == 0 then MeetsLeastClosure(v[0], Some(f.smallest.user), Some(f.largest.user), inputs) else inputs == [f]
  }

  /** The compaction grows out of the file the trigger stands for: the next one of a level
      over its size, or the one that cost too many seeks. */
  ghost predicate PickedBy(v: Levels, trigger: Trigger, pointer: Option<InternalKey>, limit: nat, c: Compaction)
    requires trigger.level + 1 < NUM_LEVELS && |v[trigger.level]| > 0
  {
    && c.level == trigger.level
    && exists f, inputs ::
         && (if trigger.SizeTrigger? then StartsAt(v[trigger.level], pointer, [f]) else f == trigger.file)
         && f in inputs && TakesFile(v, trigger.level, f, inputs) && SetUp(v, trigger.level, inputs, limit, c)
  }

  lemma PickedStartsAt(v: Levels, trigger: Trigger, pointer: Option<InternalKey>, limit: nat, c: Compaction)
    requires trigger.level + 1 < NUM_LEVELS && |v[trigger.level]| > 0 && PickedBy(v, trigger, pointer, limit, c)
    ensures c.level == trigger.level && (trigger.SizeTrigger? ==> StartsAt(v[trigger.level], pointer, c.inputs0))
    ensures trigger.SeekTrigger? ==> trigger.file in c.inputs0
  {
    hide TakesFile, Expanded, BoundaryChain, PastPointer;
  }

  /** On level 0, where files may overlap: the file picked and all files its range drags in. */
  method PickOverlapping(v: Levels, f: File) returns (inputs: seq<File>)
    requires WfLevels(v) && f in v[0]
    ensures Picked(v, 0, inputs) && f in inputs && Gapless(inputs) && TakesFile(v, 0, f, inputs)
  {
    var smallest, largest := GetRange([f]);
    ghost var lo, hi;
    inputs, lo, hi := GetOverlappingInputs(v[0], 0, Some(smallest.user), Some(largest.user));
    GaplessOne(f);
    WfAreIntervals(v[0]);
    MembersMeetHull([f], lo, hi);
    GaplessOverlapping(v[0], 0, [f], lo, hi);
    GaplessSameFiles([f] + inputs, inputs);
    FilterIsPicked(v, 0, lo, hi);
  }

  lemma OneIsPicked(v: Levels, level: nat, f: File)
    requires level + 1 < NUM_LEVELS && level > 0 && f in v[level]
    ensures Picked(v, level, [f]) && Gapless([f])
  {
    GaplessOne(f);
  }

  lemma StartsAtFirst(files: seq<File>, pointer: Option<InternalKey>, index: nat, inputs: seq<File>)
    requires index < |files| && files[index] in inputs
    requires PastPointer(files[index], pointer) ==> forall j | 0 <= j < index :: !PastPointer(files[j], pointer)
    requires !PastPointer(files[index], pointer) ==> index == 0 && forall j | 0 <= j < |files| :: !PastPointer(files[j], pointer)
    ensures StartsAt(files, pointer, inputs)
  {
    assert forall i: nat | i < |files| && FirstPast(files, i, pointer) :: !(index < i) && !(i < index);
  }

  /** Automatic picking: one file, everything it drags along, and no gap between them. */
  method PickCompaction(v: Levels, trigger: Trigger, pointer: Option<InternalKey>, expandedByteLimit: nat) returns (c: Compaction, largest: InternalKey)
    requires WfLevels(v) && trigger.level + 1 < NUM_LEVELS && |v[trigger.level]| > 0
    requires trigger.SeekTrigger? ==> trigger.file in v[trigger.level]
    ensures Selected(v, c) && PickedBy(v, trigger, pointer, expandedByteLimit, c) && HasGrandparents(v, c)
    ensures Gapless(c.inputs0 + c.inputs1)
    ensures largest == MaxKey(c.inputs0)
  {
    hide StartsAt, PastPointer, Selected, Picked, WfLevels, Gapless, HasGrandparents, Expanded, MeetsLeastClosure, OverlapFilter, BoundaryChain;
    var level := trigger.level;
    var index := 0;
    var f;
    if trigger.SizeTrigger? {
      index := FirstAfterPointer(v[level], pointer);
      f := v[level][index];
    } else {
      f := trigger.file;
    }
    var inputs := [f];
    if level == 0 {
      inputs := PickOverlapping(v, f);
    } else {
      OneIsPicked(v, level, f);
    }
    assert TakesFile(v, level, f, inputs);
    c, largest := SetupOtherInputs(v, level, inputs, expandedByteLimit);
    if trigger.SizeTrigger? { StartsAtFirst(v[level], pointer, index, [f]); }
  }

  lemma PrefixIsConvex(files: seq<File>, lo: Bound, hi: Bound, n: nat)
    requires Spread(files) && 0 < n <= |OverlapFilter(files, lo, hi)|
    requires Ascending(OverlapFilter(files, lo, hi))
    ensures Convex(files, OverlapFilter(files, lo, hi)[..n])
  {
    var r := OverlapFilter(files, lo, hi);
    FilterIsConvex(files, lo, hi);
    forall f, g, h | f in files && g in r[..n] && h in r[..n] && Before(g.smallest, f.smallest) && Before(f.smallest, h.smallest)
      ensures f in r[..n]
    {
      assert f in r;
      SmallerIsEarlier(r, n, f, h);
    }
  }

  lemma SmallerIsEarlier(r: seq<File>, n: nat, f: File, h: File)
    requires Ascending(r) && n <= |r|
    requires f in r && h in r[..n] && Before(f.smallest, h.smallest)
    ensures f in r[..n]
  {
    var i :| 0 <= i < |r| && r[i] == f;
    var k :| 0 <= k < n && r[k] == h;
    if i >= n { assert false; }
    assert r[..n][i] == f;
  }

  predicate Ascending(files: seq<File>) {
    forall i, j | 0 <= i < j < |files| :: Before(files[i].smallest, files[j].smallest)
  }

  lemma {:induction false} FilterIsAscending(files: seq<File>, lo: Bound, hi: Bound)
    requires Ascending(files)
    ensures Ascending(OverlapFilter(files, lo, hi))
  {
    if |files| > 0 {
      var n := |files| - 1;
      FilterIsAscending(files[..n], lo, hi);
      var r := OverlapFilter(files[..n], lo, hi);
      forall i | 0 <= i < |r| ensures Before(r[i].smallest, files[n].smallest) {
        assert r[i] in files[..n];
      }
    }
  }

  /** As many files from the front as it takes to reach `limit` bytes, or all of them. */
  predicate FrontForSize(files: seq<File>, n: nat, limit: nat) {
    && 0 < n <= |files|
    && (n < |files| ==> TotalFileSize(files[..n]) >= limit)
    && forall k | 0 < k < n :: TotalFileSize(files[..k]) < limit
  }

  lemma {:induction false} SizeOfOneMore(files: seq<File>, n: nat)
    requires n < |files|
    ensures TotalFileSize(files[..n + 1]) == TotalFileSize(files[..n]) + files[n].size
  {
    if n > 0 {
      SizeOfOneMore(files[1..], n - 1);
      assert files[..n + 1][1..] == files[1..][..n] && files[..n][1..] == files[1..][..n - 1];
    }
  }

  /** How many of the inputs a manual compaction takes at a time: up to and including the
      file that reaches the size limit. */
  method PrefixForSize(files: seq<File>, limit: nat) returns (n: nat)
    requires |files| > 0
    ensures FrontForSize(files, n, limit)
  {
    n := |files|;
    var total := 0;
    for i := 0 to |files|
      invariant total == TotalFileSize(files[..i]) && n == |files|
      invariant forall k | 0 < k <= i :: TotalFileSize(files[..k]) < limit
    {
      SizeOfOneMore(files, i);
      total := total + files[i].size;
      if total >= limit {
        n := i + 1;
        break;
      }
    }
  }

  lemma SmallestAscend(files: seq<File>)
    requires AllWf(files) && Disjoint(files)
    ensures Ascending(files)
  {
    forall i, j | 0 <= i < j < |files| ensures Before(files[i].smallest, files[j].smallest) {
      LargestAscend(files, i, j);
    }
  }

  lemma PrefixIsPicked(v: Levels, level: nat, lo: Bound, hi: Bound, n: nat)
    requires WfLevels(v) && 0 < level && level + 1 < NUM_LEVELS && 0 < n <= |OverlapFilter(v[level], lo, hi)|
    requires Picked(v, level, OverlapFilter(v[level], lo, hi))
    ensures Picked(v, level, OverlapFilter(v[level], lo, hi)[..n])
  {
    hide DistinctNumbers, Disjoint, Convex, OverlapFilter, WfFile;
    SortedIsSpread(v[level]);
    SmallestAscend(v[level]);
    FilterIsAscending(v[level], lo, hi);
    PrefixIsConvex(v[level], lo, hi, n);
    PrefixStaysInOrder(OverlapFilter(v[level], lo, hi), n);
  }

  lemma PrefixStaysInOrder(files: seq<File>, n: nat)
    requires DistinctNumbers(files) && Disjoint(files) && n <= |files|
    ensures DistinctNumbers(files[..n]) && Disjoint(files[..n])
  {
  }

  /** What a manual compaction of a range starts from: the files that meet the range, cut
      short below level 0 once they have the size of an output file. */
  ghost predicate TakesRange(v: Levels, level: nat, begin: Bound, end: Bound, maxFileSize: nat, inputs: seq<File>)
    requires level < NUM_LEVELS
  {
    if level == 0 then MeetsLeastClosure(v[0], begin, end, inputs)
    else exists n: nat :: FrontForSize(OverlapFilter(v[level], begin, end), n, maxFileSize) && inputs == OverlapFilter(v[level], begin, end)[..n]
  }

  ghost predicate GrownFromRange(v: Levels, level: nat, begin: Bound, end: Bound, limit: nat, maxFileSize: nat, c: Compaction)
    requires level + 1 < NUM_LEVELS
  {
    exists inputs :: TakesRange(v, level, begin, end, maxFileSize, inputs) && SetUp(v, level, inputs, limit, c)
  }

  /** Manual picking: the files meeting a range, cut short below level 0.  Nothing is
      promised about gaps between them. */
  method CompactRange(v: Levels, level: nat, begin: Bound, end: Bound, expandedByteLimit: nat, maxFileSize: nat) returns (c: Option<Compaction>)
    requires WfLevels(v) && level + 1 < NUM_LEVELS
    ensures c.None? ==> OverlapFilter(v[level], begin, end) == []
    ensures c.Some? ==> Selected(v, c.value) && c.value.level == level
    ensures c.Some? ==> GrownFromRange(v, level, begin, end, expandedByteLimit, maxFileSize, c.value)
  {
    var inputs, lo, hi := GetOverlappingInputs(v[level], level, begin, end);
    if |inputs| == 0 {
      FilterSameSize(v[level], begin, end, lo, hi);
      return None;
    }
    FilterIsPicked(v, level, lo, hi);
    hide OverlapFilter, Selected, Picked, WfLevels, FrontForSize, SetUp, MeetsLeastClosure;
    var n := |inputs|;
    if level > 0 {
      n := PrefixForSize(inputs, maxFileSize);
      PrefixIsPicked(v, level, lo, hi, n);
    }
    assert level == 0 ==> inputs[..n] == inputs;
    inputs := inputs[..n];
    assert TakesRange(v, level, begin, end, maxFileSize, inputs);
    var compaction, _ := SetupOtherInputs(v, level, inputs, expandedByteLimit);
    c := Some(compaction);
  }
}
