/** What a compaction in progress relies on, and that installing its result, or a flushed
    memtable beside it, keeps the version sound (db/db_impl.cc, db/version_set.cc). */
module Install {
  import opened DbFormat
  import opened Entries
  import opened Versions
  import opened FileSearch
  import opened CompactionInputs
  import opened DropRules

  predicate NoShared(f: File, g: File) {
    forall e, d | e in f.entries && d in g.entries :: e.key.user != d.key.user
  }

  /** `f` lies wholly before or wholly behind all files of the list. */
  predicate BesideAll(f: File, files: seq<File>) {
    || (forall g | g in files :: Before(f.largest, g.smallest))
    || (forall g | g in files :: Before(g.largest, f.smallest))
  }

  /** User keys the two files share have data below level + 1 of `base`. */
  predicate SharedNotBase(f: File, g: File, base: Levels, level: nat) {
    forall e, d | e in f.entries && d in g.entries && e.key.user == d.key.user :: !IsBaseLevel(base, level, d.key.user)
  }

  predicate Inside(c: Compaction, w: Levels) {
    && c.level + 1 < NUM_LEVELS
    && (forall g | g in c.inputs0 :: g in w[c.level])
    && (forall g | g in c.inputs1 :: g in w[c.level + 1])
  }

  /** What stays true of the current version `w` while a compaction that started from
      `base` runs. */
  predicate Running(w: Levels, base: Levels, c: Compaction) {
    && Inside(c, w)
    && (forall f, g | f in w[c.level] && f !in c.inputs0 && g in c.inputs0 :: FileNewer(f, g))
    && (forall f, g | f in w[c.level + 1] && f !in c.inputs1 && g in c.inputs0 :: NoShared(f, g))
    && (forall f | f in w[c.level + 1] && f !in c.inputs1 :: BesideAll(f, c.inputs0 + c.inputs1))
    && (forall l, f, g | c.level + 2 <= l < NUM_LEVELS && f in w[l] && g in c.inputs0 + c.inputs1 :: SharedNotBase(f, g, base, c.level))
  }

  /** In one sorted level with unique sequence numbers, left means newer. */
  lemma LeftIsNewer(v: Levels, l: nat, f: File, g: File)
    requires WfLevels(v) && l < NUM_LEVELS && f in v[l] && g in v[l]
    requires Unique(LevelsEntries(v))
    requires Before(f.largest, g.smallest)
    ensures FileNewer(f, g)
  {
    forall e, d | e in f.entries && d in g.entries && e.key.user == d.key.user ensures e.key.seqno > d.key.seqno {
      FileBounds(f, e);
      FileBounds(g, d);
      assert e in LevelsEntries(v) && d in LevelsEntries(v);
      assert Before(e.key, d.key);
    }
  }

  lemma DisjointRangesShareNothing(f: File, g: File)
    requires WfFile(f) && WfFile(g)
    requires f.largest.user < g.smallest.user || g.largest.user < f.smallest.user
    ensures NoShared(f, g) && NoShared(g, f)
  {
    forall e, d | e in f.entries && d in g.entries ensures e.key.user != d.key.user {
      FileBounds(f, e);
      FileBounds(g, d);
    }
  }

  /** A file of the hull's level that is not an input holds only newer entries. */
  lemma LeftoverIsNewer(v: Levels, c: Compaction, f: File, g: File)
    requires WfLevels(v) && Unique(LevelsEntries(v)) && Selected(v, c)
    requires f in v[c.level] && f !in c.inputs0 && g in c.inputs0
    ensures FileNewer(f, g)
  {
    MaxKeyIs(c.inputs0);
    MinKeyIs(c.inputs0);
    assert WfFile(f) && WfFile(g);
    if c.level == 0 {
      DisjointRangesShareNothing(f, g);
    } else {
      SortedIsSpread(v[c.level]);
      var last :| last in c.inputs0 && MaxKey(c.inputs0) == last.largest;
      assert Apart(f, g) && Apart(f, last);
      if Before(f.largest, g.smallest) {
        LeftIsNewer(v, c.level, f, g);
      } else {
        BehindAllSharesNothing(v[c.level], c.inputs0, last, f, g);
      }
    }
  }

  lemma BehindAllSharesNothing(files: seq<File>, inputs: seq<File>, last: File, f: File, g: File)
    requires Spread(files) && Convex(files, inputs) && |inputs| > 0 && RightClosed(files, inputs)
    requires f in files && f !in inputs && g in inputs && last in inputs && MaxKey(inputs) == last.largest
    requires forall h | h in inputs :: h in files && AtOrBefore(h.largest, last.largest)
    requires Before(g.largest, f.smallest)
    requires WfFile(f) && WfFile(g)
    ensures NoShared(f, g)
  {
    assert Apart(f, last);
    assert Before(last.largest, f.smallest);
    assert !IsBoundary(f, MaxKey(inputs));
    DisjointRangesShareNothing(f, g);
  }

  /** A file of a sorted level that misses the range [lo, hi] lies beside everything
      inside the range and every file of its level that meets the range. */
  lemma MissesRangeIsBeside(files: seq<File>, lo: UserKey, hi: UserKey, f: File, inside: seq<File>, meeting: seq<File>)
    requires Spread(files) && f in files && f !in meeting
    requires !Overlaps(f, Some(lo), Some(hi)) && lo <= hi
    requires forall g | g in inside :: lo <= g.smallest.user && g.largest.user <= hi
    requires forall g | g in meeting :: g in files && Overlaps(g, Some(lo), Some(hi))
    ensures BesideAll(f, inside + meeting)
  {
    forall g | g in meeting
      ensures if f.largest.user < lo then Before(f.largest, g.smallest) else Before(g.largest, f.smallest)
    {
      assert Apart(f, g);
    }
  }

  lemma LowerLeftoverIsBeside(v: Levels, c: Compaction, f: File)
    requires WfLevels(v) && Selected(v, c)
    requires f in v[c.level + 1] && f !in c.inputs1
    ensures forall g | g in c.inputs0 :: NoShared(f, g)
    ensures BesideAll(f, c.inputs0 + c.inputs1)
  {
    MaxKeyIs(c.inputs0);
    MinKeyIs(c.inputs0);
    SortedIsSpread(v[c.level + 1]);
    WfAreIntervals(v[c.level]);
    assert c.inputs0[0] in c.inputs0;
    hide MinKey, MaxKey, OverlapFilter, BesideAll;
    MissesRangeIsBeside(v[c.level + 1], MinKey(c.inputs0).user, MaxKey(c.inputs0).user, f, c.inputs0, c.inputs1);
    forall g | g in c.inputs0 ensures NoShared(f, g) {
      assert WfFile(f) && WfFile(g);
      DisjointRangesShareNothing(f, g);
    }
  }

  /** A sound selection is all a compaction needs when it starts. */
  lemma SelectedIsRunning(v: Levels, c: Compaction)
    requires WfLevels(v) && Unique(LevelsEntries(v)) && Selected(v, c)
    ensures Running(v, v, c)
  {
    forall f, g | f in v[c.level] && f !in c.inputs0 && g in c.inputs0 ensures FileNewer(f, g) {
      LeftoverIsNewer(v, c, f, g);
    }
    forall f | f in v[c.level + 1] && f !in c.inputs1
      ensures BesideAll(f, c.inputs0 + c.inputs1) && forall g | g in c.inputs0 :: NoShared(f, g)
    {
      LowerLeftoverIsBeside(v, c, f);
    }
    forall l, f, g | c.level + 2 <= l < NUM_LEVELS && f in v[l] && g in c.inputs0 + c.inputs1
      ensures SharedNotBase(f, g, v, c.level)
    {
      forall e, d | e in f.entries && d in g.entries && e.key.user == d.key.user ensures !IsBaseLevel(v, c.level, d.key.user) {
        FileBounds(f, e);
      }
    }
  }

  // ---- flushing a memtable ----

  /** `w'` is `w` with one more file in level `m`, kept in builder order. */
  ghost predicate WithFile(w: Levels, w': Levels, m: nat, f: File) {
    && m < NUM_LEVELS
    && (forall l | 0 <= l < NUM_LEVELS && l != m :: w'[l] == w[l])
    && (forall g :: g in w'[m] <==> g in w[m] || g == f)
    && InBuilderOrder(w'[m]) && DistinctNumbers(w'[m])
  }

  /** The order of BySmallestKey; equal keys are ordered by file number. */
  predicate BySmallest(f: File, g: File) {
    Before(f.smallest, g.smallest) || (f.smallest == g.smallest && f.number < g.number)
  }

  predicate InBuilderOrder(files: seq<File>) {
    forall i, j | 0 <= i < j < |files| :: !BySmallest(files[j], files[i])
  }

  /** In builder order, files that never interleave are disjoint. */
  lemma OrderedSpreadIsDisjoint(files: seq<File>)
    requires InBuilderOrder(files) && Spread(files) && DistinctNumbers(files)
    ensures Disjoint(files)
  {
    forall i, j | 0 <= i < j < |files| ensures Before(files[i].largest, files[j].smallest) {
      assert files[i] in files && files[j] in files && Apart(files[i], files[j]);
      assert !BySmallest(files[j], files[i]);
    }
  }

  /** The file holds only entries newer than everything in the version. */
  predicate NewestFile(w: Levels, f: File) {
    && WfFile(f)
    && (forall l, g | 0 <= l < NUM_LEVELS && g in w[l] :: FileNewer(f, g))
    && (forall g | g in w[0] :: g.number < f.number)
  }

  /** The level PickLevelForMemTableOutput returns for the file. */
  predicate FlushLevelOk(w: Levels, m: nat, f: File, maxBytes: nat) {
    LandsAt(w, m, f.smallest.user, f.largest.user, maxBytes)
  }

  lemma NothingMet(w: Levels, m: nat, f: File, maxBytes: nat)
    requires FlushLevelOk(w, m, f, maxBytes)
    ensures m > 0 ==> forall l, g | 0 <= l <= m && g in w[l] :: !Overlaps(g, Some(f.smallest.user), Some(f.largest.user))
  {
    forall l, g | m > 0 && 0 <= l <= m && g in w[l] ensures !Overlaps(g, Some(f.smallest.user), Some(f.largest.user)) {
      NothingMetAbove(w, m, f.smallest.user, f.largest.user, maxBytes, l);
    }
  }

  lemma FlushKeepsOrder(w: Levels, w': Levels, m: nat, f: File, maxBytes: nat)
    requires WfLevels(w) && NewerAbove(w) && NewestFile(w, f) && FlushLevelOk(w, m, f, maxBytes)
    requires WithFile(w, w', m, f)
    ensures NewerAbove(w')
  {
    NothingMet(w, m, f, maxBytes);
    hide FlushLevelOk;
    forall l, n, g, h | 0 <= l < n < NUM_LEVELS && g in w'[l] && h in w'[n] ensures FileNewer(g, h) {
      if g in w[l] && h in w[n] {
        assert FileNewer(g, h);
      } else if h !in w[n] {
        assert n == m && h == f;
        assert WfFile(g);
        assert !Overlaps(g, Some(f.smallest.user), Some(f.largest.user));
        DisjointRangesShareNothing(g, f);
      } else {
        assert g == f;
      }
    }
    forall g, h | g in w'[0] && h in w'[0] && g.number > h.number ensures FileNewer(g, h) {
      if g in w[0] && h in w[0] {
        assert FileNewer(g, h);
      }
    }
  }

  lemma FlushKeepsWf(w: Levels, w': Levels, m: nat, f: File, maxBytes: nat)
    requires WfLevels(w) && NewestFile(w, f) && FlushLevelOk(w, m, f, maxBytes)
    requires WithFile(w, w', m, f)
    ensures WfLevels(w')
  {
    NothingMet(w, m, f, maxBytes);
    hide FlushLevelOk;
    assert AllWf(w'[m]);
    if m > 0 {
      SortedIsSpread(w[m]);
      WfAreIntervals(w'[m]);
      forall g, h | g in w'[m] && h in w'[m] ensures Apart(g, h) {
        if g in w[m] && h in w[m] {
          assert Apart(g, h);
        } else {
          var o := if g in w[m] then g else h;
          assert o in w[m] ==> !Overlaps(o, Some(f.smallest.user), Some(f.largest.user));
        }
      }
      OrderedSpreadIsDisjoint(w'[m]);
    }
  }

  /** At `x` a flush can fall between the inputs of a compaction: nothing meets it down to the
      output level, which is no deeper than flushes go, and not too many bytes lie below. */
  predicate HarmfulGap(w: Levels, c: Compaction, maxBytes: nat, x: UserKey)
    requires c.level + 1 < NUM_LEVELS
  {
    && c.level + 1 <= MAX_MEM_COMPACT_LEVEL
    && (forall l | 0 <= l <= c.level + 1 :: !LevelMeets(w, l, x, x))
    && BytesMet(w[c.level + 2], x, x) <= maxBytes
    && !LeftOfAll(x, c.inputs0 + c.inputs1) && !RightOfAll(x, c.inputs0 + c.inputs1)
  }

  ghost predicate NoHarmfulGap(w: Levels, c: Compaction, maxBytes: nat)
    requires c.level + 1 < NUM_LEVELS
  {
    forall x :: !HarmfulGap(w, c, maxBytes, x)
  }

  /** Inputs that cover one interval have no gap at all. */
  lemma GaplessHasNoGap(w: Levels, c: Compaction, maxBytes: nat)
    requires Inside(c, w) && Gapless(c.inputs0 + c.inputs1)
    ensures NoHarmfulGap(w, c, maxBytes)
  {
    var all := c.inputs0 + c.inputs1;
    forall x ensures !HarmfulGap(w, c, maxBytes, x) {
      if HarmfulGap(w, c, maxBytes, x) {
        assert !LevelMeets(w, c.level, x, x) && !LevelMeets(w, c.level + 1, x, x);
        assert Avoids(x, x, all);
      }
    }
  }

  lemma {:induction false} BytesGrow(files: seq<File>, lo: UserKey, hi: UserKey, x: UserKey)
    requires lo <= x <= hi
    ensures BytesMet(files, x, x) <= BytesMet(files, lo, hi)
  {
    hide TotalFileSize;
    if |files| > 0 {
      var n := |files| - 1;
      BytesGrow(files[..n], lo, hi, x);
      NothingIsSmall(if Overlaps(files[n], Some(lo), Some(hi)) then [files[n]] else []);
      TotalOfTwo(OverlapFilter(files[..n], Some(x), Some(x)), if Overlaps(files[n], Some(x), Some(x)) then [files[n]] else []);
      TotalOfTwo(OverlapFilter(files[..n], Some(lo), Some(hi)), if Overlaps(files[n], Some(lo), Some(hi)) then [files[n]] else []);
    }
  }

  lemma NothingIsSmall(files: seq<File>)
    ensures TotalFileSize([]) == 0 <= TotalFileSize(files)
  {
  }

  lemma {:induction false} TotalOfTwo(a: seq<File>, b: seq<File>)
    ensures TotalFileSize(a + b) == TotalFileSize(a) + TotalFileSize(b)
  {
    if |a| == 0 {
      assert a + b == b;
    } else {
      assert (a + b)[1..] == a[1..] + b;
      TotalOfTwo(a[1..], b);
    }
  }

  lemma PointMeetsLess(w: Levels, l: nat, lo: UserKey, hi: UserKey)
    requires l < NUM_LEVELS && lo <= hi && !LevelMeets(w, l, lo, hi)
    ensures !LevelMeets(w, l, lo, lo)
  {
    forall g | g in w[l] ensures !Overlaps(g, Some(lo), Some(lo)) {
      assert !Overlaps(g, Some(lo), Some(hi));
    }
  }

  /** Where a range lands on the output level between the inputs, a single key does too. */
  lemma LandsInGap(w: Levels, c: Compaction, lo: UserKey, hi: UserKey, maxBytes: nat)
    requires c.level + 1 < NUM_LEVELS && lo <= hi && LandsAt(w, c.level + 1, lo, hi, maxBytes)
    requires !LeftOfAll(lo, c.inputs0 + c.inputs1) && !RightOfAll(lo, c.inputs0 + c.inputs1)
    ensures HarmfulGap(w, c, maxBytes, lo)
  {
    assert GoesPast(w, c.level, lo, hi, maxBytes);
    BytesGrow(w[c.level + 2], lo, hi, lo);
    forall l | 0 <= l <= c.level + 1 ensures !LevelMeets(w, l, lo, lo) {
      NothingMetAbove(w, c.level + 1, lo, hi, maxBytes, l);
      PointMeetsLess(w, l, lo, hi);
    }
    hide LandsAt, GoesPast, LevelMeets, BytesMet;
  }

  lemma LandsAvoidingInputs(w: Levels, c: Compaction, lo: UserKey, hi: UserKey, maxBytes: nat)
    requires Inside(c, w) && lo <= hi && LandsAt(w, c.level + 1, lo, hi, maxBytes)
    ensures Avoids(lo, hi, c.inputs0 + c.inputs1)
  {
    NothingMetAbove(w, c.level + 1, lo, hi, maxBytes, c.level);
    NothingMetAbove(w, c.level + 1, lo, hi, maxBytes, c.level + 1);
    hide LandsAt;
  }

  /** A file that lands on the output level falls into a gap, or beside all inputs. */
  lemma LandsBeside(w: Levels, f: File, maxBytes: nat, c: Compaction)
    requires WfLevels(w) && WfFile(f) && Inside(c, w) && FlushLevelOk(w, c.level + 1, f, maxBytes) && NoHarmfulGap(w, c, maxBytes)
    ensures LeftOfAll(f.largest.user, c.inputs0 + c.inputs1) || RightOfAll(f.smallest.user, c.inputs0 + c.inputs1)
  {
    var all, lo, hi := c.inputs0 + c.inputs1, f.smallest.user, f.largest.user;
    FileBounds(f, f.entries[0]);
    LandsAvoidingInputs(w, c, lo, hi, maxBytes);
    if !LeftOfAll(lo, all) && !RightOfAll(lo, all) {
      LandsInGap(w, c, lo, hi, maxBytes);
      assert false;
    }
    forall g | g in all ensures lo < g.smallest.user ==> hi < g.smallest.user {
      assert WfFile(g);
      FileBounds(g, g.entries[0]);
    }
    hide LandsAt, NoHarmfulGap;
  }

  /** A memtable flushed while a compaction without such a gap runs lands beside it. */
  lemma FlushKeepsRunning(w: Levels, w': Levels, m: nat, f: File, maxBytes: nat, base: Levels, c: Compaction)
    requires WfLevels(w) && NewestFile(w, f) && FlushLevelOk(w, m, f, maxBytes)
    requires WithFile(w, w', m, f)
    requires Running(w, base, c) && NoHarmfulGap(w, c, maxBytes)
    ensures Running(w', base, c)
  {
    hide FlushLevelOk, NoHarmfulGap, FileNewer, NoShared, SharedNotBase, InBuilderOrder, DistinctNumbers;
    var all := c.inputs0 + c.inputs1;
    assert forall g | g in c.inputs0 :: FileNewer(f, g);
    if m > c.level {
      NothingMet(w, m, f, maxBytes);
      forall g | g in all ensures NoShared(f, g) && SharedNotBase(f, g, base, c.level) {
        ApartFromInput(w, f, c, g, base);
      }
      if m == c.level + 1 { LandsBeside(w, f, maxBytes, c); }
      assert m == c.level + 1 ==> BesideAll(f, all);
    }
  }

  lemma ApartFromInput(w: Levels, f: File, c: Compaction, g: File, base: Levels)
    requires WfLevels(w) && WfFile(f) && Inside(c, w) && g in c.inputs0 + c.inputs1
    requires forall l, h | c.level <= l <= c.level + 1 && h in w[l] :: !Overlaps(h, Some(f.smallest.user), Some(f.largest.user))
    ensures NoShared(f, g) && SharedNotBase(f, g, base, c.level)
  {
    assert WfFile(g);
    assert !Overlaps(g, Some(f.smallest.user), Some(f.largest.user));
    DisjointRangesShareNothing(f, g);
  }

  lemma {:induction false} TotalOfPart(a: seq<File>, b: seq<File>)
    requires DistinctNumbers(a) && forall f | f in a :: f in b
    ensures TotalFileSize(a) <= TotalFileSize(b)
  {
    if |a| > 0 {
      assert a[0] in b;
      var i :| 0 <= i < |b| && b[i] == a[0];
      var rest := b[..i] + b[i + 1..];
      assert b == b[..i] + ([b[i]] + b[i + 1..]);
      TotalOfTwo(b[..i], [b[i]] + b[i + 1..]);
      TotalOfTwo([b[i]], b[i + 1..]);
      TotalOfTwo(b[..i], b[i + 1..]);
      forall f | f in a[1..] ensures f in rest {
        assert f in b;
        var j :| 0 <= j < |b| && b[j] == f;
        assert j != i;
        assert f == rest[if j < i then j else j - 1];
      }
      TotalOfPart(a[1..], rest);
    }
  }

  /** A flush opens no gap for the next one. */
  lemma FlushFillsGaps(w: Levels, w': Levels, m: nat, f: File, c: Compaction, maxBytes: nat)
    requires WfLevels(w) && WithFile(w, w', m, f) && c.level + 1 < NUM_LEVELS && NoHarmfulGap(w, c, maxBytes)
    ensures NoHarmfulGap(w', c, maxBytes)
  {
    forall x ensures !HarmfulGap(w', c, maxBytes, x) {
      if HarmfulGap(w', c, maxBytes, x) {
        forall l | 0 <= l <= c.level + 1 ensures !LevelMeets(w, l, x, x) {
          assert !LevelMeets(w', l, x, x);
        }
        var n := c.level + 2;
        FilterIsDistinct(w[n], Some(x), Some(x));
        TotalOfPart(OverlapFilter(w[n], Some(x), Some(x)), OverlapFilter(w'[n], Some(x), Some(x)));
        assert HarmfulGap(w, c, maxBytes, x);
      }
    }
  }

  // ---- installing the result of a compaction ----

  /** `w'` is `w` with the inputs of `c` deleted and `outs` added one level down. */
  ghost predicate Replaced(w: Levels, w': Levels, c: Compaction, outs: seq<File>)
    requires c.level + 1 < NUM_LEVELS
  {
    && (forall l | 0 <= l < NUM_LEVELS && l != c.level && l != c.level + 1 :: w'[l] == w[l])
    && (forall f :: f in w'[c.level] <==> f in w[c.level] && f !in c.inputs0)
    && (forall f :: f in w'[c.level + 1] <==> (f in w[c.level + 1] && f !in c.inputs1) || f in outs)
    && InBuilderOrder(w'[c.level]) && DistinctNumbers(w'[c.level])
    && InBuilderOrder(w'[c.level + 1]) && DistinctNumbers(w'[c.level + 1])
  }

  /** Sorted, disjoint tables made of input entries only. */
  predicate OutputsOk(c: Compaction, outs: seq<File>) {
    && AllWf(outs) && Disjoint(outs)
    && forall f, e | f in outs && e in f.entries :: exists g | g in c.inputs0 + c.inputs1 :: e in g.entries
  }

  lemma BesideInputsIsApart(f: File, inputs: seq<File>, o: File)
    requires BesideAll(f, inputs) && AllWf(inputs) && WfFile(o)
    requires forall e | e in o.entries :: exists g | g in inputs :: e in g.entries
    ensures Apart(f, o)
  {
    var first, last := o.entries[0], o.entries[|o.entries| - 1];
    assert first in o.entries && last in o.entries;
    var g :| g in inputs && first in g.entries;
    var h :| h in inputs && last in h.entries;
    FileBounds(g, first);
    FileBounds(h, last);
  }

  lemma InstallKeepsWf(w: Levels, w': Levels, base: Levels, c: Compaction, outs: seq<File>)
    requires WfLevels(w) && Running(w, base, c) && OutputsOk(c, outs)
    requires Replaced(w, w', c, outs)
    ensures WfLevels(w')
  {
    var lower := w'[c.level + 1];
    SortedIsSpread(w[c.level + 1]);
    SortedIsSpread(outs);
    WfAreIntervals(lower);
    forall f, g | f in lower && g in lower ensures Apart(f, g) {
      if f in outs && g !in outs {
        BesideInputsIsApart(g, c.inputs0 + c.inputs1, f);
      } else if f !in outs && g in outs {
        BesideInputsIsApart(f, c.inputs0 + c.inputs1, g);
      } else {
        assert Apart(f, g);
      }
    }
    OrderedSpreadIsDisjoint(lower);
    if c.level > 0 {
      SortedIsSpread(w[c.level]);
      assert forall f, g | f in w'[c.level] && g in w'[c.level] :: f in w[c.level] && g in w[c.level];
      OrderedSpreadIsDisjoint(w'[c.level]);
    }
  }

  lemma NewerThanOutputs(f: File, inputs: seq<File>, o: File)
    requires forall g | g in inputs :: FileNewer(f, g)
    requires forall e | e in o.entries :: exists g | g in inputs :: e in g.entries
    ensures FileNewer(f, o)
  {
    forall e, d | e in f.entries && d in o.entries && e.key.user == d.key.user ensures e.key.seqno > d.key.seqno {
      var g :| g in inputs && d in g.entries;
      assert FileNewer(f, g);
    }
  }

  lemma OutputsAreNewer(o: File, inputs: seq<File>, f: File)
    requires forall g | g in inputs :: FileNewer(g, f)
    requires forall e | e in o.entries :: exists g | g in inputs :: e in g.entries
    ensures FileNewer(o, f)
  {
    forall d, e | d in o.entries && e in f.entries && d.key.user == e.key.user ensures d.key.seqno > e.key.seqno {
      var g :| g in inputs && d in g.entries;
      assert FileNewer(g, f);
    }
  }

  /** Files of shallower levels, and leftovers of the upper level, are newer than all
      inputs. */
  lemma UpperIsNewer(w: Levels, base: Levels, c: Compaction, l: nat, f: File)
    requires NewerAbove(w) && Running(w, base, c)
    requires l <= c.level && f in w[l] && (l == c.level ==> f !in c.inputs0)
    ensures forall g | g in c.inputs0 + c.inputs1 :: FileNewer(f, g)
  {
    forall g | g in c.inputs0 + c.inputs1 ensures FileNewer(f, g) {
      if g in c.inputs0 { assert g in w[c.level]; } else { assert g in w[c.level + 1]; }
    }
  }

  lemma InstallKeepsOrder(w: Levels, w': Levels, base: Levels, c: Compaction, outs: seq<File>)
    requires NewerAbove(w) && Running(w, base, c) && OutputsOk(c, outs)
    requires Replaced(w, w', c, outs)
    ensures NewerAbove(w')
  {
    var all := c.inputs0 + c.inputs1;
    forall l, m, f, g | 0 <= l < m < NUM_LEVELS && f in w'[l] && g in w'[m] ensures FileNewer(f, g) {
      if m == c.level + 1 && g in outs {
        UpperIsNewer(w, base, c, l, f);
        NewerThanOutputs(f, all, g);
      } else if l == c.level + 1 && f in outs {
        assert g in w[m];
        forall h | h in all ensures FileNewer(h, g) {
          if h in c.inputs0 { assert h in w[c.level]; } else { assert h in w[c.level + 1]; }
        }
        OutputsAreNewer(f, all, g);
      } else {
        assert f in w[l] && g in w[m];
      }
    }
    assert forall f | f in w'[0] :: f in w[0];
  }

  // ---- what the installed version holds ----

  ghost function InputEntries(c: Compaction): set<Entry> {
    FileEntries(c.inputs0 + c.inputs1)
  }

  /** No entry of a file that is not an input is also in an input. */
  lemma LeftoverEntries(w: Levels, base: Levels, c: Compaction, l: nat, f: File, e: Entry)
    requires WfLevels(w) && NewerAbove(w) && Running(w, base, c)
    requires l < NUM_LEVELS && f in w[l] && e in f.entries
    requires l == c.level ==> f !in c.inputs0
    requires l == c.level + 1 ==> f !in c.inputs1
    ensures e !in InputEntries(c)
  {
    forall g | g in c.inputs0 + c.inputs1 ensures e !in g.entries {
      assert g in w[c.level] || g in w[c.level + 1];
      if l == c.level + 1 {
        BesideSharesNoEntry(f, c.inputs0 + c.inputs1, g);
      } else if l <= c.level {
        UpperIsNewer(w, base, c, l, f);
        assert FileNewer(f, g);
      } else {
        assert FileNewer(g, f);
      }
    }
  }

  lemma BesideSharesNoEntry(f: File, inputs: seq<File>, g: File)
    requires BesideAll(f, inputs) && g in inputs && WfFile(f) && WfFile(g)
    ensures forall e | e in f.entries :: e !in g.entries
  {
    forall e | e in f.entries && e in g.entries ensures false {
      FileBounds(f, e);
      FileBounds(g, e);
    }
  }

  lemma InstalledEntries(w: Levels, w': Levels, base: Levels, c: Compaction, outs: seq<File>)
    requires WfLevels(w) && NewerAbove(w) && Running(w, base, c)
    requires Replaced(w, w', c, outs)
    ensures LevelsEntries(w') == (LevelsEntries(w) - InputEntries(c)) + FileEntries(outs)
    ensures InputEntries(c) <= LevelsEntries(w)
  {
    forall e | e in InputEntries(c) ensures e in LevelsEntries(w) {
      var g :| g in c.inputs0 + c.inputs1 && e in g.entries;
      assert g in w[c.level] || g in w[c.level + 1];
    }
    forall e | e in LevelsEntries(w') ensures e in (LevelsEntries(w) - InputEntries(c)) + FileEntries(outs) {
      var l, f :| 0 <= l < NUM_LEVELS && f in w'[l] && e in f.entries;
      if l == c.level + 1 && f in outs {
      } else {
        assert f in w[l];
        LeftoverEntries(w, base, c, l, f, e);
      }
    }
    forall e | e in (LevelsEntries(w) - InputEntries(c)) + FileEntries(outs) ensures e in LevelsEntries(w') {
      if e in FileEntries(outs) {
        var f :| f in outs && e in f.entries;
        assert f in w'[c.level + 1];
      } else {
        var l, f :| 0 <= l < NUM_LEVELS && f in w[l] && e in f.entries;
        assert f !in c.inputs0 + c.inputs1;
        assert f in w'[l];
      }
    }
  }

  // ---- reads ----

  /** The lower inputs stop in the middle of user key `k`: the next file of their level
      goes on with it. */
  predicate Suspect(w: Levels, c: Compaction, k: UserKey)
    requires c.level + 1 < NUM_LEVELS
  {
    |c.inputs1| > 0 && MaxKey(c.inputs1).user == k && !RightClosed(w[c.level + 1], c.inputs1)
  }

  /** Any entry of an input is newer than what a file behind all inputs holds of its user
      key, unless that file continues the last user key of the lower inputs. */
  lemma LowerLeftoverIsNewer(w: Levels, base: Levels, c: Compaction, f: File, g: File, x: Entry, d: Entry)
    requires WfLevels(w) && Running(w, base, c) && Unique(LevelsEntries(w))
    requires f in w[c.level + 1] && f !in c.inputs1 && x in f.entries
    requires g in c.inputs0 + c.inputs1 && d in g.entries && x.key.user == d.key.user
    requires !Suspect(w, c, d.key.user)
    ensures x.key.seqno > d.key.seqno
  {
    if g in c.inputs0 { var none := NoShared(f, g); assert false; }
    MaxKeyIs(c.inputs1);
    var last :| last in c.inputs1 && MaxKey(c.inputs1) == last.largest;
    assert last in c.inputs0 + c.inputs1;
    FileBounds(f, x);
    FileBounds(g, d);
    var goesOn := IsBoundary(f, MaxKey(c.inputs1));
    assert Before(last.largest, f.smallest) ==> goesOn;
    assert !(forall h | h in c.inputs0 + c.inputs1 :: Before(h.largest, f.smallest));
    LeftIsNewer(w, c.level + 1, f, g);
  }

  /** An entry beside the inputs, of a key with an input entry at its base level. */
  lemma LeftoverIsAbove(w: Levels, base: Levels, c: Compaction, l: nat, f: File, g: File, x: Entry, d: Entry)
    requires WfLevels(w) && NewerAbove(w) && Running(w, base, c) && Unique(LevelsEntries(w))
    requires !Suspect(w, c, x.key.user) && x.key.user == d.key.user && IsBaseLevel(base, c.level, d.key.user)
    requires l < NUM_LEVELS && f in w[l] && f !in c.inputs0 + c.inputs1 && g in c.inputs0 + c.inputs1 && x in f.entries && d in g.entries
    ensures x.key.seqno > d.key.seqno
  {
    if l <= c.level {
      UpperIsNewer(w, base, c, l, f);
      assert FileNewer(f, g);
    } else if l == c.level + 1 {
      LowerLeftoverIsNewer(w, base, c, f, g, x, d);
    } else {
      var shared := SharedNotBase(f, g, base, c.level);
      assert false;
    }
  }

  /** Outside the inputs, nothing of the version is older than a deletion the base-level
      rule drops, suspects aside. */
  lemma NothingBelowInLevels(w: Levels, base: Levels, c: Compaction, es: seq<Entry>, smallest: SeqNo, k: UserKey)
    requires WfLevels(w) && NewerAbove(w) && Running(w, base, c) && Unique(LevelsEntries(w))
    requires EntrySet(es) == InputEntries(c)
    requires !Suspect(w, c, k)
    ensures NothingBelow(LevelsEntries(w) - InputEntries(c), es, Rules(base, c.level, smallest), k)
  {
    var r := Rules(base, c.level, smallest);
    forall i, x | 0 <= i < |es| && es[i].key.user == k && Obsolete(es, i, r) && x in LevelsEntries(w) - InputEntries(c) && x.key.user == k
      ensures x.key.seqno > es[i].key.seqno
    {
      var d := es[i];
      assert d in EntrySet(es);
      var g :| g in c.inputs0 + c.inputs1 && d in g.entries;
      var l, f :| 0 <= l < NUM_LEVELS && f in w[l] && x in f.entries;
      assert f !in c.inputs0 + c.inputs1;
      hide WfLevels, NewerAbove, Running, Unique, FileNewer;
      LeftoverIsAbove(w, base, c, l, f, g, x, d);
    }
  }

  lemma NothingBelowAnywhere(above: set<Entry>, levels: set<Entry>, inputs: set<Entry>, es: seq<Entry>, r: Rules, k: UserKey)
    requires NothingBelow(levels - inputs, es, r, k)
    requires EntrySet(es) == inputs && inputs <= levels
    requires forall a, e | a in above && e in levels :: a.key.seqno > e.key.seqno
    ensures NothingBelow((above + levels) - inputs, es, r, k)
  {
    forall i, x | 0 <= i < |es| && es[i].key.user == k && Obsolete(es, i, r) && x in (above + levels) - inputs && x.key.user == k
      ensures x.key.seqno > es[i].key.seqno
    {
      assert es[i] in EntrySet(es);
    }
  }

  /** Where the lower inputs complete the key, its deletions hide nothing that is left behind. */
  lemma ClosedResurrectsNothing(above: set<Entry>, w: Levels, base: Levels, c: Compaction, es: seq<Entry>, smallest: SeqNo, k: UserKey)
    requires WfLevels(w) && NewerAbove(w) && Running(w, base, c) && Unique(LevelsEntries(w)) && !Suspect(w, c, k)
    requires forall a, e | a in above && e in LevelsEntries(w) :: a.key.seqno > e.key.seqno
    requires EntrySet(es) == InputEntries(c) && InputEntries(c) <= LevelsEntries(w)
    ensures !SomethingResurrects(above + (LevelsEntries(w) - InputEntries(c)), es, Rules(base, c.level, smallest), k)
  {
    var r := Rules(base, c.level, smallest);
    NothingBelowInLevels(w, base, c, es, smallest, k);
    NothingBelowAnywhere(above, LevelsEntries(w), InputEntries(c), es, r, k);
    assert above + (LevelsEntries(w) - InputEntries(c)) == (above + LevelsEntries(w)) - InputEntries(c) by {
      forall a | a in above ensures a !in InputEntries(c) {}
    }
    NothingBelowNothingResurrects(above + (LevelsEntries(w) - InputEntries(c)), es, r, k);
  }

  lemma ReadsOnSets(above: set<Entry>, levels: set<Entry>, inputs: set<Entry>, es: seq<Entry>, r: Rules, k: UserKey)
    requires Unique(above + levels) && r.smallest < MAX_SEQUENCE
    requires Sorted(es) && EntrySet(es) == inputs && inputs <= levels
    requires NothingBelow(levels - inputs, es, r, k)
    requires forall a, e | a in above && e in levels :: a.key.seqno > e.key.seqno
    ensures ViewsAgree(above + ((levels - inputs) + EntrySet(Kept(es, |es|, r))), above + levels, k, r.smallest)
  {
    var rest := (above + levels) - inputs;
    var kept := EntrySet(Kept(es, |es|, r));
    NothingBelowAnywhere(above, levels, inputs, es, r, k);
    NothingBelowNothingResurrects(rest, es, r, k);
    assert above !! inputs by {
      forall a | a in above ensures a !in inputs {}
    }
    assert rest + inputs == above + levels;
    assert rest + kept == above + ((levels - inputs) + kept);
    DropPreservesReads(rest, es, r, k);
  }

  /** Compaction preserves reads: with everything above newer, every read of a key that
      is no suspect, at or above the oldest snapshot, is the same after the result is
      installed. */
  lemma CompactionPreservesReads(above: set<Entry>, w: Levels, w': Levels, base: Levels, c: Compaction, es: seq<Entry>, smallest: SeqNo, outs: seq<File>, k: UserKey)
    requires WfLevels(w) && NewerAbove(w) && Running(w, base, c)
    requires Unique(above + LevelsEntries(w))
    requires forall a, e | a in above && e in LevelsEntries(w) :: a.key.seqno > e.key.seqno
    requires Sorted(es) && EntrySet(es) == InputEntries(c)
    requires smallest < MAX_SEQUENCE
    requires FileEntries(outs) == EntrySet(Kept(es, |es|, Rules(base, c.level, smallest)))
    requires Replaced(w, w', c, outs)
    requires !Suspect(w, c, k)
    ensures ViewsAgree(above + LevelsEntries(w'), above + LevelsEntries(w), k, smallest)
  {
    var r := Rules(base, c.level, smallest);
    InstalledEntries(w, w', base, c, outs);
    NothingBelowInLevels(w, base, c, es, smallest, k);
    ReadsOnSets(above, LevelsEntries(w), InputEntries(c), es, r, k);
    assert LevelsEntries(w') == (LevelsEntries(w) - InputEntries(c)) + EntrySet(Kept(es, |es|, r));
  }

  lemma ReadsOnSetsExactly(above: set<Entry>, levels: set<Entry>, inputs: set<Entry>, es: seq<Entry>, r: Rules, k: UserKey)
    requires Unique(above + levels) && r.smallest < MAX_SEQUENCE
    requires Sorted(es) && EntrySet(es) == inputs && inputs <= levels && above !! inputs
    ensures ViewsAgree(above + ((levels - inputs) + EntrySet(Kept(es, |es|, r))), above + levels, k, r.smallest)
      <==> !SomethingResurrects(above + (levels - inputs), es, r, k)
  {
    var rest := above + (levels - inputs);
    assert rest + inputs == above + levels;
    assert rest + EntrySet(Kept(es, |es|, r)) == above + ((levels - inputs) + EntrySet(Kept(es, |es|, r)));
    DropPreservesReads(rest, es, r, k);
  }

  /** Exactly when an installed compaction preserves the reads of a key: when it drops no
      deletion above a value left behind. */
  lemma CompactionPreservesReadsExactly(above: set<Entry>, w: Levels, w': Levels, base: Levels, c: Compaction, es: seq<Entry>, smallest: SeqNo, outs: seq<File>, k: UserKey)
    requires WfLevels(w) && NewerAbove(w) && Running(w, base, c)
    requires Unique(above + LevelsEntries(w)) && above !! LevelsEntries(w)
    requires Sorted(es) && EntrySet(es) == InputEntries(c)
    requires smallest < MAX_SEQUENCE
    requires FileEntries(outs) == EntrySet(Kept(es, |es|, Rules(base, c.level, smallest)))
    requires Replaced(w, w', c, outs)
    ensures ViewsAgree(above + LevelsEntries(w'), above + LevelsEntries(w), k, smallest)
      <==> !SomethingResurrects(above + (LevelsEntries(w) - InputEntries(c)), es, Rules(base, c.level, smallest), k)
  {
    InstalledEntries(w, w', base, c, outs);
    ReadsOnSetsExactly(above, LevelsEntries(w), InputEntries(c), es, Rules(base, c.level, smallest), k);
  }
}
