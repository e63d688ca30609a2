/** Two inputs on which a stronger promise would be false of the source.

    A deleted key comes back when the tombstone sits at the end of a lower input whose
    right neighbour, holding an older value of the same user key, is left out: boundary
    files are added to the upper inputs only.  And a flush during a manual compaction of a
    range with a hole can land in the hole, one level down, where the output will lie. */
module Counterexamples {
  import opened DbFormat
  import opened Entries
  import opened Versions
  import opened FileSearch
  import opened CompactionInputs
  import opened DropRules
  import opened CompactionWork
  import opened Install

  // ---- versions with files on levels 1 and 2 only ----

  predicate TwoLevels(v: Levels, upper: seq<File>, lower: seq<File>) {
    v[1] == upper && v[2] == lower && forall l | 0 <= l < NUM_LEVELS && l != 1 && l != 2 :: v[l] == []
  }

  lemma TwoLevelsEntries(v: Levels, upper: seq<File>, lower: seq<File>)
    requires TwoLevels(v, upper, lower)
    ensures LevelsEntries(v) == FileEntries(upper) + FileEntries(lower)
  {
    assert forall f | f in upper :: f in v[1];
    assert forall f | f in lower :: f in v[2];
  }

  lemma TwoLevelsAreSound(v: Levels, upper: seq<File>, lower: seq<File>)
    requires TwoLevels(v, upper, lower)
    requires AllWf(upper) && DistinctNumbers(upper) && Disjoint(upper)
    requires AllWf(lower) && DistinctNumbers(lower) && Disjoint(lower)
    requires forall f, g | f in upper && g in lower :: FileNewer(f, g)
    ensures WfLevels(v) && NewerAbove(v)
  {
  }

  predicate InRow(f: File, g: File) {
    WfFile(f) && WfFile(g) && f.number != g.number && Before(f.largest, g.smallest)
  }

  lemma OneAboveTwo(v: Levels, f: File, g: File, h: File)
    requires TwoLevels(v, [f], [g, h]) && WfFile(f) && InRow(g, h)
    requires FileNewer(f, g) && FileNewer(f, h)
    ensures WfLevels(v) && NewerAbove(v)
  {
    TwoLevelsAreSound(v, [f], [g, h]);
  }

  /** A file apart from both files of level 1 may be flushed to level 2. */
  lemma FlushBelowTwo(v: Levels, v': Levels, f: File, g: File, added: File)
    requires TwoLevels(v, [f, g], []) && TwoLevels(v', [f, g], [added])
    requires WfFile(added) && FileNewer(added, f) && FileNewer(added, g)
    requires f.largest.user < added.smallest.user && added.largest.user < g.smallest.user
    ensures NewestFile(v, added) && FlushLevelOk(v, 2, added, 0) && WithFile(v, v', 2, added)
  {
  }

  lemma EntriesOfTwo(f: File, g: File)
    ensures FileEntries([f]) == EntrySet(f.entries)
    ensures FileEntries([f, g]) == EntrySet(f.entries) + EntrySet(g.entries)
  {
    assert f in [f] && f in [f, g] && g in [f, g];
  }

  function Put(k: UserKey, s: SeqNo): Entry { Entry(InternalKey(k, s, Value), [1]) }

  function Del(k: UserKey, s: SeqNo): Entry { Entry(InternalKey(k, s, Deletion), []) }

  function Table(number: nat, first: Entry, last: Entry): (f: File)
    requires Before(first.key, last.key)
    ensures WfFile(f) && EntrySet(f.entries) == {first, last}
  {
    File(number, 10, first.key, last.key, [first, last])
  }

  // ---- a tombstone dropped above a value it hides ----

  function Upper(): File { Table(1, Put(1.0, 7), Put(2.0, 6)) }

  function Lower(): File { Table(2, Put(2.0, 4), Del(3.0, 5)) }

  function Neighbour(): File { Table(3, Put(3.0, 3), Put(4.0, 2)) }

  function Output(): File { Table(9, Put(1.0, 7), Put(2.0, 6)) }

  ghost predicate BeforeMerge(v: Levels) { TwoLevels(v, [Upper()], [Lower(), Neighbour()]) }

  ghost predicate AfterMerge(v: Levels) { TwoLevels(v, [], [Output(), Neighbour()]) }

  function Merge(): Compaction { Compaction(1, [Upper()], [Lower()], []) }

  function Merged(): seq<Entry> { [Put(1.0, 7), Put(2.0, 6), Put(2.0, 4), Del(3.0, 5)] }

  lemma NewerTable(f: File, g: File, n: SeqNo)
    requires forall e | e in f.entries :: e.key.seqno > n
    requires forall e | e in g.entries :: e.key.seqno <= n
    ensures FileNewer(f, g)
  {
  }

  lemma UpperIsNewer()
    ensures FileNewer(Upper(), Lower()) && FileNewer(Upper(), Neighbour())
  {
    NewerTable(Upper(), Lower(), 5);
    NewerTable(Upper(), Neighbour(), 5);
  }

  lemma MergeFilesFit()
    ensures WfFile(Upper()) && InRow(Lower(), Neighbour())
  {
  }

  lemma BeforeMergeIsSound(v: Levels)
    requires BeforeMerge(v)
    ensures WfLevels(v) && NewerAbove(v)
  {
    var a, b, c := Upper(), Lower(), Neighbour();
    assert WfFile(a) && InRow(b, c) by { MergeFilesFit(); }
    assert FileNewer(a, b) && FileNewer(a, c) by { UpperIsNewer(); }
    assert TwoLevels(v, [a], [b, c]);
    OneAboveTwo(v, a, b, c);
  }

  /** Two files that share a user key, end to end, leave no gap. */
  lemma TouchingLeavesNoGap(f: File, g: File)
    requires f.smallest.user <= g.smallest.user <= f.largest.user <= g.largest.user
    ensures Gapless([f] + [g])
  {
    var all := [f] + [g];
    assert f in all && g in all;
  }

  lemma MeetsTheFirst(f: File, g: File, lo: Bound, hi: Bound)
    requires Overlaps(f, lo, hi) && !Overlaps(g, lo, hi)
    ensures OverlapFilter([f, g], lo, hi) == [f]
  {
    assert [f, g][..1] == [f] && [f][..0] == [];
    assert OverlapFilter([f], lo, hi) == [f];
  }

  /** The selection passes every condition the source establishes. */
  lemma MergeIsSelected(v: Levels)
    requires BeforeMerge(v)
    ensures Selected(v, Merge()) && Gapless(Merge().inputs0 + Merge().inputs1)
  {
    MeetsTheFirst(Lower(), Neighbour(), UserLo([Upper()]), UserHi([Upper()]));
    TouchingLeavesNoGap(Upper(), Lower());
  }

  lemma MergeKeeps(v: Levels)
    requires BeforeMerge(v)
    ensures Sorted(Merged()) && EntrySet(Merged()) == EntrySet(Upper().entries) + EntrySet(Lower().entries)
    ensures Kept(Merged(), 4, Rules(v, 1, 7)) == Output().entries
  {
    var es, r := Merged(), Rules(v, 1, 7);
    assert Kept(es, 0, r) == [];
    assert Kept(es, 1, r) == [es[0]];
    assert Kept(es, 2, r) == [es[0], es[1]];
    assert Kept(es, 3, r) == Kept(es, 2, r);
    assert Kept(es, 4, r) == Kept(es, 3, r);
  }

  lemma MergeIsInstalled(v: Levels, v': Levels)
    requires BeforeMerge(v) && AfterMerge(v')
    ensures InputEntries(Merge()) == EntrySet(Merged())
    ensures Replaced(v, v', Merge(), [Output()])
  {
    var a, b, c, o := Upper(), Lower(), Neighbour(), Output();
    MergeKeeps(v);
    EntriesOfTwo(a, b);
    assert [a] + [b] == [a, b];
    assert c != b && c != o;
    assert forall f :: f in [o, c] <==> (f in [b, c] && f !in [b]) || f in [o];
  }

  lemma DeletedAndVisible(before: set<Entry>, after: set<Entry>)
    requires before == {Put(1.0, 7), Put(2.0, 6), Put(2.0, 4), Del(3.0, 5), Put(3.0, 3), Put(4.0, 2)}
    requires after == {Put(1.0, 7), Put(2.0, 6), Put(3.0, 3), Put(4.0, 2)}
    ensures View(before, 3.0, 7) == None && View(after, 3.0, 7) == Some([1])
  {
    assert Newest(before, 3.0, 7, Del(3.0, 5));
    assert Newest(after, 3.0, 7, Put(3.0, 3));
    ViewOfNewest(before, 3.0, 7, Del(3.0, 5));
    ViewOfNewest(after, 3.0, 7, Put(3.0, 3));
  }

  lemma EntriesBefore(v: Levels)
    requires BeforeMerge(v)
    ensures LevelsEntries(v) == {Put(1.0, 7), Put(2.0, 6), Put(2.0, 4), Del(3.0, 5), Put(3.0, 3), Put(4.0, 2)}
  {
    TwoLevelsEntries(v, [Upper()], [Lower(), Neighbour()]);
    EntriesOfTwo(Upper(), Upper());
    EntriesOfTwo(Lower(), Neighbour());
  }

  lemma EntriesAfter(v: Levels)
    requires AfterMerge(v)
    ensures LevelsEntries(v) == {Put(1.0, 7), Put(2.0, 6), Put(3.0, 3), Put(4.0, 2)}
  {
    TwoLevelsEntries(v, [], [Output(), Neighbour()]);
    EntriesOfTwo(Output(), Neighbour());
  }

  /** Key 3 was deleted in a sound version, and reads as a value after a compaction nothing is
      wrong with except that its lower inputs are not closed on the right. */
  lemma TombstoneDroppedTooEarly(v: Levels, v': Levels)
    requires BeforeMerge(v) && AfterMerge(v')
    ensures WfLevels(v) && NewerAbove(v)
    ensures View(LevelsEntries(v), 3.0, 7) == None && View(LevelsEntries(v'), 3.0, 7) == Some([1])
    ensures Suspect(v, Merge(), 3.0)
  {
    hide WfLevels, NewerAbove;
    BeforeMergeIsSound(v);
    EntriesBefore(v);
    EntriesAfter(v');
    DeletedAndVisible(LevelsEntries(v), LevelsEntries(v'));
    var b, c := Lower(), Neighbour();
    assert c in [b, c] && IsBoundary(c, MaxKey([b]));
  }

  // ---- a flush into the hole of a manual compaction ----

  function Left(): File { Table(1, Put(1.0, 3), Put(2.0, 3)) }

  function Right(): File { Table(2, Put(5.0, 3), Put(6.0, 3)) }

  function Flushed(): File { Table(3, Put(3.0, 8), Put(4.0, 9)) }

  function Manual(): Compaction { Compaction(1, [Left(), Right()], [], []) }

  /** The selection passes every condition the source establishes, and leaves a gap. */
  lemma ManualInputsHaveAGap(v: Levels)
    requires TwoLevels(v, [Left(), Right()], [])
    ensures Selected(v, Manual()) && HarmfulGap(v, Manual(), 0, 3.0)
  {
    ManualIsSelected(v);
    ManualGap();
    assert forall l | 0 <= l <= 2 :: !LevelMeets(v, l, 3.0, 3.0);
    assert OverlapFilter(v[3], Some(3.0), Some(3.0)) == [];
    hide LevelMeets, OverlapFilter, LeftOfAll, RightOfAll;
  }

  lemma ManualIsSelected(v: Levels)
    requires TwoLevels(v, [Left(), Right()], [])
    ensures Selected(v, Manual())
  {
    var a, b := Left(), Right();
    assert [a, b][..1] == [a];
  }

  lemma ManualGap()
    ensures var all := Manual().inputs0 + Manual().inputs1;
            !LeftOfAll(3.0, all) && !RightOfAll(3.0, all)
  {
    var a, b := Left(), Right();
    var all := [a, b] + [];
    assert a in all && b in all;
  }

  lemma FlushedIsNewer()
    ensures FileNewer(Flushed(), Left()) && FileNewer(Flushed(), Right())
  {
    NewerTable(Flushed(), Left(), 5);
    NewerTable(Flushed(), Right(), 5);
  }

  lemma FlushedFits()
    ensures WfFile(Flushed())
    ensures Left().largest.user < Flushed().smallest.user && Flushed().largest.user < Right().smallest.user
  {
  }

  lemma FlushIsAllowed(v: Levels, v': Levels)
    requires TwoLevels(v, [Left(), Right()], []) && TwoLevels(v', [Left(), Right()], [Flushed()])
    ensures NewestFile(v, Flushed()) && FlushLevelOk(v, 2, Flushed(), 0) && WithFile(v, v', 2, Flushed())
  {
    var a, b, f := Left(), Right(), Flushed();
    assert FileNewer(f, a) && FileNewer(f, b) by { FlushedIsNewer(); }
    assert WfFile(f) && a.largest.user < f.smallest.user && f.largest.user < b.smallest.user by { FlushedFits(); }
    FlushBelowTwo(v, v', a, b, f);
  }

  /** Whatever order the files are put in, and whatever the output holds of the inputs from
      end to end, the level below ends up with two tables that overlap. */
  lemma FlushIntoTheGapBreaksTheLevel(v: Levels, v': Levels, joined: File)
    requires TwoLevels(v, [Left(), Right()], [Flushed()])
    requires joined.smallest == Left().smallest && joined.largest == Right().largest
    requires Replaced(v, v', Manual(), [joined])
    ensures !Disjoint(v'[2])
  {
    var f := Flushed();
    assert f in v[2] && f !in Manual().inputs1;
    assert joined in [joined] && f in v'[2] && joined in v'[2];
    var i :| 0 <= i < |v'[2]| && v'[2][i] == f;
    var j :| 0 <= j < |v'[2]| && v'[2][j] == joined;
  }
}
