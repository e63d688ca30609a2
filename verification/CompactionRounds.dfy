/** The compaction pointers of VersionSet::PickCompaction (db/version_set.cc).  Every pick
    leaves the pointer of its level at its largest key and the next one starts behind it:
    no file is passed over, and every file of a level gets its turn. */
module CompactionRounds {
  import opened DbFormat
  import opened Entries
  import opened Versions
  import opened FileSearch
  import opened CompactionInputs
  import opened Install

  // ---- one pick ----

  /** What the pick of a level over its size promises: it starts at the pointer, it is a
      sound selection, and its largest key is the next pointer. */
  predicate Pick(v: Levels, level: nat, pointer: Option<InternalKey>, inputs: seq<File>, pointer': Option<InternalKey>) {
    && Picked(v, level, inputs) && |v[level]| > 0
    && StartsAt(v[level], pointer, inputs)
    && pointer' == Some(MaxKey(inputs))
  }

  /** A level as the builder leaves it. */
  predicate LevelOk(v: Levels, level: nat) {
    level < NUM_LEVELS && WfLevels(v) && InBuilderOrder(v[level])
  }

  function AllPast(files: seq<File>, pointer: Option<InternalKey>): set<File> {
    set f | f in files && PastPointer(f, pointer)
  }

  lemma {:induction false} FirstPastExists(files: seq<File>, pointer: Option<InternalKey>, k: nat) returns (i: nat)
    requires k < |files| && PastPointer(files[k], pointer)
    ensures i <= k && FirstPast(files, i, pointer)
  {
    i := 0;
    while !PastPointer(files[i], pointer)
      invariant i <= k && forall j | 0 <= j < i :: !PastPointer(files[j], pointer)
      decreases k - i
    {
      i := i + 1;
    }
  }

  lemma OrderedStarts(files: seq<File>, i: nat, k: nat)
    requires InBuilderOrder(files) && i <= k < |files|
    ensures AtOrBefore(files[i].smallest, files[k].smallest)
  {
    if i < k { assert !BySmallest(files[k], files[i]); }
  }

  lemma InBetweenOnLevel0(files: seq<File>, inputs: seq<File>, g: File, f: File)
    requires Intervals(files) && |inputs| > 0 && HullClosed(files, inputs)
    requires g in inputs && f in files
    requires AtOrBefore(g.smallest, f.smallest) && AtOrBefore(f.largest, MaxKey(inputs))
    ensures f in inputs
  {
    MinKeyIs(inputs);
    assert Overlaps(f, UserLo(inputs), UserHi(inputs));
  }

  lemma InBetweenDeeper(files: seq<File>, inputs: seq<File>, g: File, h: File, f: File)
    requires Spread(files) && Convex(files, inputs)
    requires g in inputs && h in inputs && g in files && h in files && f in files
    requires AtOrBefore(g.smallest, f.smallest) && AtOrBefore(f.largest, h.largest)
    ensures f in inputs
  {
    assert Apart(f, h) && Apart(f, g);
  }

  /** A file between the start of an input and the largest key of the inputs is an input. */
  lemma InBetween(v: Levels, level: nat, inputs: seq<File>, g: File, f: File)
    requires LevelOk(v, level) && Picked(v, level, inputs)
    requires g in inputs && f in v[level]
    requires AtOrBefore(g.smallest, f.smallest) && AtOrBefore(f.largest, MaxKey(inputs))
    ensures f in inputs
  {
    hide Convex, HullClosed, Spread, Intervals, DistinctNumbers, Disjoint, AllWf, InBuilderOrder, Before;
    WfAreIntervals(v[level]);
    MaxKeyIs(inputs);
    if level == 0 {
      InBetweenOnLevel0(v[0], inputs, g, f);
    } else {
      SortedIsSpread(v[level]);
      var h :| h in inputs && MaxKey(inputs) == h.largest;
      InBetweenDeeper(v[level], inputs, g, h, f);
    }
  }

  /** A pick that passes a file takes it. */
  lemma PassedIsTaken(v: Levels, level: nat, pointer: Option<InternalKey>, inputs: seq<File>, pointer': Option<InternalKey>, f: File)
    requires LevelOk(v, level) && Pick(v, level, pointer, inputs, pointer') && f in v[level]
    requires PastPointer(f, pointer) && !PastPointer(f, pointer')
    ensures f in inputs
  {
    hide WfLevels, Picked, InBuilderOrder;
    var k :| 0 <= k < |v[level]| && v[level][k] == f;
    var i := FirstPastExists(v[level], pointer, k);
    OrderedStarts(v[level], i, k);
    InBetween(v, level, inputs, v[level][i], f);
  }

  lemma PickedSome(v: Levels, level: nat, inputs: seq<File>)
    requires Picked(v, level, inputs)
    ensures |inputs| > 0
  {
  }

  lemma FewerPast(files: seq<File>, pointer: Option<InternalKey>, g: File, next: InternalKey)
    requires g in files && PastPointer(g, pointer) && AtOrBefore(g.largest, next)
    ensures pointer.Some? ==> Before(pointer.value, next)
    ensures AllPast(files, Some(next)) < AllPast(files, pointer)
  {
    assert g in AllPast(files, pointer) && g !in AllPast(files, Some(next));
  }

  /** As long as a file is past the pointer, a pick moves the pointer on. */
  lemma PointerRises(v: Levels, level: nat, pointer: Option<InternalKey>, inputs: seq<File>, pointer': Option<InternalKey>)
    requires level < NUM_LEVELS && Pick(v, level, pointer, inputs, pointer') && AllPast(v[level], pointer) != {}
    ensures pointer.Some? ==> Before(pointer.value, pointer'.value)
    ensures AllPast(v[level], pointer') < AllPast(v[level], pointer)
  {
    hide Picked, PastPointer, MaxKey, Before;
    var f :| f in AllPast(v[level], pointer);
    var k :| 0 <= k < |v[level]| && v[level][k] == f;
    var i := FirstPastExists(v[level], pointer, k);
    PickedSome(v, level, inputs);
    MaxKeyIs(inputs);
    FewerPast(v[level], pointer, v[level][i], MaxKey(inputs));
  }

  // ---- one pick after another ----

  /** The picks of a level, each on the version of its time.  Between two of them other
      levels are compacted, memtables flushed to any level, inputs taken off. */
  ghost predicate Picks(vs: seq<Levels>, level: nat, pointers: seq<Option<InternalKey>>, picks: seq<seq<File>>) {
    && |vs| == |picks| && |pointers| == |picks| + 1
    && forall i | 0 <= i < |picks| :: LevelOk(vs[i], level) && Pick(vs[i], level, pointers[i], picks[i], pointers[i + 1])
  }

  ghost predicate Stays(f: File, vs: seq<Levels>, level: nat)
    requires level < NUM_LEVELS
  {
    forall i | 0 <= i < |vs| :: f in vs[i][level]
  }

  ghost predicate Taken(f: File, picks: seq<seq<File>>) {
    exists i :: 0 <= i < |picks| && f in picks[i]
  }

  ghost predicate NoneJoins(vs: seq<Levels>, level: nat)
    requires level < NUM_LEVELS
  {
    forall i, j, g | 0 <= i < j < |vs| && g in vs[j][level] :: g in vs[i][level]
  }

  lemma LaterPicks(vs: seq<Levels>, level: nat, pointers: seq<Option<InternalKey>>, picks: seq<seq<File>>, f: File)
    requires level < NUM_LEVELS && Picks(vs, level, pointers, picks) && |picks| > 0
    ensures Picks(vs[1..], level, pointers[1..], picks[1..])
    ensures Stays(f, vs, level) ==> Stays(f, vs[1..], level)
    ensures NoneJoins(vs, level) ==> NoneJoins(vs[1..], level)
    ensures Taken(f, picks[1..]) ==> Taken(f, picks)
  {
    hide LevelOk, Pick;
    if Taken(f, picks[1..]) {
      var i :| 0 <= i < |picks[1..]| && f in picks[1..][i];
      assert f in picks[i + 1];
    }
  }

  /** The pointer passes no file that stays on the level without taking it. */
  lemma {:induction false} NoFileIsPassedOver(vs: seq<Levels>, level: nat, pointers: seq<Option<InternalKey>>, picks: seq<seq<File>>, f: File)
    requires level < NUM_LEVELS && Picks(vs, level, pointers, picks) && Stays(f, vs, level)
    requires PastPointer(f, pointers[0]) && !PastPointer(f, pointers[|picks|])
    ensures Taken(f, picks)
  {
    hide LevelOk, Pick, PastPointer;
    if |picks| > 0 {
      if PastPointer(f, pointers[1]) {
        LaterPicks(vs, level, pointers, picks, f);
        NoFileIsPassedOver(vs[1..], level, pointers[1..], picks[1..], f);
      } else {
        PassedIsTaken(vs[0], level, pointers[0], picks[0], pointers[1], f);
      }
    }
  }

  lemma SmallerSet(a: set<File>, b: set<File>)
    requires a <= b
    ensures |a| <= |b|
    ensures a < b ==> |a| < |b|
  {
    var rest := b - a;
    assert b == a + rest;
    assert a < b ==> rest != {};
  }

  function FilesOf(files: seq<File>): set<File> {
    set f | f in files
  }

  lemma NoMorePast(vs: seq<Levels>, level: nat, pointer: Option<InternalKey>)
    requires level < NUM_LEVELS && NoneJoins(vs, level) && |vs| > 1
    ensures |AllPast(vs[1][level], pointer)| <= |AllPast(vs[0][level], pointer)|
    ensures |FilesOf(vs[1][level])| <= |FilesOf(vs[0][level])|
  {
    SmallerSet(AllPast(vs[1][level], pointer), AllPast(vs[0][level], pointer));
    SmallerSet(FilesOf(vs[1][level]), FilesOf(vs[0][level]));
  }

  /** A file the pointer has not reached yet. */
  lemma {:induction false} TurnAhead(vs: seq<Levels>, level: nat, pointers: seq<Option<InternalKey>>, picks: seq<seq<File>>, f: File)
    requires level < NUM_LEVELS && Picks(vs, level, pointers, picks) && NoneJoins(vs, level) && Stays(f, vs, level)
    requires |vs| > 0 && PastPointer(f, pointers[0]) && |picks| >= |AllPast(vs[0][level], pointers[0])|
    ensures Taken(f, picks)
  {
    hide LevelOk, Pick, PastPointer, NoneJoins;
    if f !in picks[0] {
      PassedIsTakenOrPast(vs[0], level, pointers[0], picks[0], pointers[1], f);
      SmallerSet(AllPast(vs[0][level], pointers[1]), AllPast(vs[0][level], pointers[0]));
      assert f in AllPast(vs[0][level], pointers[1]);
      LaterPicks(vs, level, pointers, picks, f);
      NoMorePast(vs, level, pointers[1]);
      TurnAhead(vs[1..], level, pointers[1..], picks[1..], f);
    }
  }

  lemma PassedIsTakenOrPast(v: Levels, level: nat, pointer: Option<InternalKey>, inputs: seq<File>, pointer': Option<InternalKey>, f: File)
    requires LevelOk(v, level) && Pick(v, level, pointer, inputs, pointer') && f in v[level]
    requires PastPointer(f, pointer) && f !in inputs
    ensures PastPointer(f, pointer') && AllPast(v[level], pointer') < AllPast(v[level], pointer)
  {
    hide WfLevels, InBuilderOrder, Pick, PastPointer;
    if !PastPointer(f, pointer') { PassedIsTaken(v, level, pointer, inputs, pointer', f); }
    assert f in AllPast(v[level], pointer);
    PointerRises(v, level, pointer, inputs, pointer');
  }

  /** A pick behind the last file starts over: what it leaves is ahead of the pointer. */
  lemma StartsOver(v: Levels, level: nat, pointer: Option<InternalKey>, inputs: seq<File>, pointer': Option<InternalKey>, f: File)
    requires LevelOk(v, level) && Pick(v, level, pointer, inputs, pointer') && f in v[level]
    requires AllPast(v[level], pointer) == {} && f !in inputs
    ensures PastPointer(f, pointer') && AllPast(v[level], pointer') < FilesOf(v[level])
  {
    hide WfLevels, InBuilderOrder, Picked;
    assert forall g | g in v[level] :: g !in AllPast(v[level], pointer);
    var first := v[level][0];
    var k :| 0 <= k < |v[level]| && v[level][k] == f;
    OrderedStarts(v[level], 0, k);
    if AtOrBefore(f.largest, MaxKey(inputs)) { InBetween(v, level, inputs, first, f); }
    MaxKeyIs(inputs);
    assert first in FilesOf(v[level]) && first !in AllPast(v[level], pointer');
  }

  /** A file the pointer has passed. */
  lemma {:induction false} TurnBehind(vs: seq<Levels>, level: nat, pointers: seq<Option<InternalKey>>, picks: seq<seq<File>>, f: File)
    requires level < NUM_LEVELS && Picks(vs, level, pointers, picks) && NoneJoins(vs, level) && Stays(f, vs, level)
    requires |vs| > 0 && !PastPointer(f, pointers[0])
    requires |picks| >= |AllPast(vs[0][level], pointers[0])| + |FilesOf(vs[0][level])|
    ensures Taken(f, picks)
  {
    hide LevelOk, Pick, NoneJoins;
    var files := vs[0][level];
    if f !in picks[0] {
      assert f in FilesOf(files);
      if AllPast(files, pointers[0]) == {} {
        StartsOver(vs[0], level, pointers[0], picks[0], pointers[1], f);
        SmallerSet(AllPast(files, pointers[1]), FilesOf(files));
        assert f in AllPast(files, pointers[1]);
      } else {
        PointerRises(vs[0], level, pointers[0], picks[0], pointers[1]);
        SmallerSet(AllPast(files, pointers[1]), AllPast(files, pointers[0]));
      }
      LaterPicks(vs, level, pointers, picks, f);
      NoMorePast(vs, level, pointers[1]);
      if PastPointer(f, pointers[1]) {
        TurnAhead(vs[1..], level, pointers[1..], picks[1..], f);
      } else {
        TurnBehind(vs[1..], level, pointers[1..], picks[1..], f);
      }
    }
  }

  lemma {:induction false} NoMoreFiles(files: seq<File>)
    ensures |FilesOf(files)| <= |files|
  {
    if |files| > 0 {
      NoMoreFiles(files[1..]);
      assert FilesOf(files) == FilesOf(files[1..]) + {files[0]};
    }
  }

  /** No file is left behind for ever: of a level that no file joins, two picks for each
      file reach every file, wherever the pointer stood. */
  lemma EveryFileHasItsTurn(vs: seq<Levels>, level: nat, pointers: seq<Option<InternalKey>>, picks: seq<seq<File>>, f: File)
    requires level < NUM_LEVELS && Picks(vs, level, pointers, picks) && NoneJoins(vs, level) && Stays(f, vs, level)
    requires |vs| > 0 && |picks| >= 2 * |vs[0][level]|
    ensures Taken(f, picks)
  {
    hide LevelOk, Pick, NoneJoins, PastPointer;
    NoMoreFiles(vs[0][level]);
    SmallerSet(AllPast(vs[0][level], pointers[0]), FilesOf(vs[0][level]));
    if PastPointer(f, pointers[0]) {
      TurnAhead(vs, level, pointers, picks, f);
    } else {
      TurnBehind(vs, level, pointers, picks, f);
    }
  }
}
