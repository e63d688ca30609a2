/** Which compactions a memtable flush cannot disturb (db/db_impl.cc, DoCompactionWork flushes
    an immutable memtable while it merges; db/version_set.cc, PickLevelForMemTableOutput): no
    flush, and no sequence of flushes, does exactly if the inputs leave no harmful gap. */
module FlushGaps {
  import opened DbFormat
  import opened Entries
  import opened Versions
  import opened FileSearch
  import opened CompactionInputs
  import opened CompactionWork
  import opened Install
  import opened VersionBuilder
  import opened History
  import opened Store
  import opened StoreInvariant

  /** A memtable newer than the version becomes a table on the level picked for it. */
  ghost predicate Flush(w: Levels, w': Levels, maxBytes: nat) {
    exists m, f :: NewestFile(w, f) && FlushLevelOk(w, m, f, maxBytes) && WithFile(w, w', m, f)
  }

  ghost predicate Flushes(ws: seq<Levels>, maxBytes: nat) {
    |ws| > 0 && forall i | 0 <= i < |ws| - 1 :: Flush(ws[i], ws[i + 1], maxBytes)
  }

  /** Any number of flushes, or none, lead from one version to the other. */
  ghost predicate FlushedOn(w: Levels, w': Levels, maxBytes: nat) {
    exists ws :: Flushes(ws, maxBytes) && ws[0] == w && ws[|ws| - 1] == w'
  }

  lemma NoFlush(w: Levels, maxBytes: nat)
    ensures FlushedOn(w, w, maxBytes)
  {
    assert Flushes([w], maxBytes);
  }

  lemma FlushedOnce(w: Levels, w': Levels, maxBytes: nat)
    requires Flush(w, w', maxBytes)
    ensures FlushedOn(w, w', maxBytes)
  {
    hide Flush;
    assert Flushes([w, w'], maxBytes);
  }

  lemma FlushesJoin(w: Levels, w': Levels, w'': Levels, maxBytes: nat)
    requires FlushedOn(w, w', maxBytes) && FlushedOn(w', w'', maxBytes)
    ensures FlushedOn(w, w'', maxBytes)
  {
    hide Flush;
    var ws :| Flushes(ws, maxBytes) && ws[0] == w && ws[|ws| - 1] == w';
    var more :| Flushes(more, maxBytes) && more[0] == w' && more[|more| - 1] == w'';
    var all, n := ws + more[1..], |ws|;
    assert Flushes(all, maxBytes) by {
      forall i | 0 <= i < |all| - 1 ensures Flush(all[i], all[i + 1], maxBytes) {
        if i >= n - 1 { assert all[i] == more[i - (n - 1)] && all[i + 1] == more[i + 1 - (n - 1)]; }
      }
    }
  }

  /** Such a flush happens whenever the store commits one, and the memtable is in a table. */
  lemma CommittedFlush(s: Db, s': Db, v': Levels, level: nat, size: nat)
    requires Inv(s) && CommitFlush(s, s', v', level, size)
    ensures FlushedOn(s.version, v', s.maxOverlapBytes)
    ensures EntrySet(s.imm.value) <= LevelsEntries(v')
  {
    var es := s.imm.value;
    if |es| == 0 {
      NoFlush(s.version, s.maxOverlapBytes);
    } else {
      FlushOfMemTable(s.history, s.version, v', s.flushed, s.switched, s.flush.value, es, level, size, s.maxOverlapBytes);
    }
  }

  lemma FlushOfMemTable(h: seq<Entry>, v: Levels, v': Levels, a: nat, b: nat, number: nat, es: seq<Entry>, level: nat, size: nat, maxBytes: nat)
    requires Consecutive(h) && a <= b <= |h| && WfLevels(v) && LevelsEntries(v) <= EntrySet(h[..a]) && NumbersBelow(v, number)
    requires |es| > 0 && Sorted(es) && EntrySet(es) == EntrySet(h[a..b])
    requires FlushedVersion(v, v', number, es, level, size, maxBytes)
    ensures FlushedOn(v, v', maxBytes) && EntrySet(es) <= LevelsEntries(v')
  {
    var f := MakeFile(number, size, es);
    MemTableIsNewest(h, v, a, b, f);
    WithFileEntries(v, v', level, f);
    hide NewestFile, FlushLevelOk, WithFile;
    FlushedOnce(v, v', maxBytes);
  }

  // ---- without a harmful gap ----

  lemma OneFlush(w: Levels, w': Levels, maxBytes: nat, base: Levels, c: Compaction)
    requires WfLevels(w) && Flush(w, w', maxBytes) && Running(w, base, c) && NoHarmfulGap(w, c, maxBytes)
    ensures WfLevels(w') && Running(w', base, c) && NoHarmfulGap(w', c, maxBytes)
  {
    var m, f :| NewestFile(w, f) && FlushLevelOk(w, m, f, maxBytes) && WithFile(w, w', m, f);
    hide *;
    FlushKeepsWf(w, w', m, f, maxBytes);
    FlushKeepsRunning(w, w', m, f, maxBytes, base, c);
    HasOutputLevel(w, base, c);
    FlushFillsGaps(w, w', m, f, c, maxBytes);
  }

  lemma HasOutputLevel(w: Levels, base: Levels, c: Compaction)
    requires Running(w, base, c)
    ensures c.level + 1 < NUM_LEVELS
  {
  }

  lemma {:induction false} FlushesKeepRunning(ws: seq<Levels>, maxBytes: nat, base: Levels, c: Compaction, i: nat)
    requires Flushes(ws, maxBytes) && i < |ws|
    requires WfLevels(ws[0]) && Running(ws[0], base, c) && NoHarmfulGap(ws[0], c, maxBytes)
    ensures WfLevels(ws[i]) && Running(ws[i], base, c) && NoHarmfulGap(ws[i], c, maxBytes)
  {
    hide WfLevels, Running, NoHarmfulGap, Flush;
    if i > 0 {
      FlushesKeepRunning(ws, maxBytes, base, c, i - 1);
      OneFlush(ws[i - 1], ws[i], maxBytes, base, c);
    }
  }

  // ---- one entry at the gap ----

  /** A table of one newest entry. */
  function Single(x: UserKey, seqno: SeqNo, number: nat): (f: File)
    ensures WfFile(f)
  {
    var key := InternalKey(x, seqno, Value);
    File(number, 0, key, key, [Entry(key, [])])
  }

  ghost predicate Below(w: Levels, seqno: SeqNo, number: nat) {
    && (forall e | e in LevelsEntries(w) :: e.key.seqno < seqno)
    && NumbersBelow(w, number)
  }

  lemma SingleIsNewest(w: Levels, x: UserKey, seqno: SeqNo, number: nat)
    requires Below(w, seqno, number)
    ensures NewestFile(w, Single(x, seqno, number))
  {
    var f := Single(x, seqno, number);
    forall l, g | 0 <= l < NUM_LEVELS && g in w[l] ensures FileNewer(f, g) {
      forall d | d in g.entries ensures d.key.seqno < seqno {
        assert d in LevelsEntries(w);
      }
    }
  }

  predicate Ordered(w: Levels) {
    forall l | 0 <= l < NUM_LEVELS :: InBuilderOrder(w[l]) && DistinctNumbers(w[l])
  }

  lemma OrderedIsStrict(files: seq<File>)
    requires InBuilderOrder(files) && DistinctNumbers(files)
    ensures StrictOrder(files)
  {
    forall i, j | 0 <= i < j < |files| ensures BySmallest(files[i], files[j]) {
      assert !BySmallest(files[j], files[i]);
    }
  }

  lemma StrictIsOrdered(files: seq<File>)
    requires StrictOrder(files)
    ensures InBuilderOrder(files)
  {
    forall i, j | 0 <= i < j < |files| ensures !BySmallest(files[j], files[i]) {
      assert BySmallest(files[i], files[j]);
    }
  }

  lemma InsertedIsDistinct(files: seq<File>, f: File)
    requires StrictOrder(files) && DistinctNumbers(files) && forall g | g in files :: g.number != f.number
    ensures DistinctNumbers(InsertFile(files, f))
  {
    var r := InsertFile(files, f);
    forall i, j | 0 <= i < j < |r| ensures r[i].number != r[j].number {
      assert BySmallest(r[i], r[j]);
      assert r[i] in r && r[j] in r;
    }
  }

  /** The version with the file in its place. */
  function Added(w: Levels, m: nat, f: File): Levels
    requires m < NUM_LEVELS && StrictOrder(w[m])
  {
    w[m := InsertFile(w[m], f)]
  }

  lemma AddedIsWithFile(w: Levels, m: nat, f: File)
    requires Ordered(w) && m < NUM_LEVELS && NumbersBelow(w, f.number)
    ensures StrictOrder(w[m]) && WithFile(w, Added(w, m, f), m, f)
    ensures Ordered(Added(w, m, f)) && NumbersBelow(Added(w, m, f), f.number + 1)
  {
    OrderedIsStrict(w[m]);
    InsertedIsDistinct(w[m], f);
    StrictIsOrdered(InsertFile(w[m], f));
  }

  // ---- a flush into the gap ----

  /** Where one key lands that nothing meets down to the output level. */
  lemma LandsInTheGap(w: Levels, c: Compaction, maxBytes: nat, x: UserKey)
    requires c.level + 1 < NUM_LEVELS && HarmfulGap(w, c, maxBytes, x)
    ensures LandsAt(w, c.level + 1, x, x, maxBytes) || (c.level == 0 && LandsAt(w, 2, x, x, maxBytes) && !LevelMeets(w, 2, x, x))
  {
    hide HarmfulGap, GoesPast, LevelMeets;
    AtMostToTwo(w, c, maxBytes, x);
    PassesLevel(w, c, maxBytes, x, 0);
    if c.level == 1 {
      PassesLevel(w, c, maxBytes, x, 1);
    } else if GoesPast(w, 1, x, x, maxBytes) {
      PastMeetsNothing(w, 1, x, maxBytes);
    }
  }

  lemma AtMostToTwo(w: Levels, c: Compaction, maxBytes: nat, x: UserKey)
    requires c.level + 1 < NUM_LEVELS && HarmfulGap(w, c, maxBytes, x)
    ensures c.level + 1 <= MAX_MEM_COMPACT_LEVEL
  {
  }

  lemma PassesLevel(w: Levels, c: Compaction, maxBytes: nat, x: UserKey, l: nat)
    requires c.level + 1 < NUM_LEVELS && HarmfulGap(w, c, maxBytes, x) && l <= c.level
    ensures GoesPast(w, l, x, x, maxBytes)
  {
    hide LevelMeets, BytesMet;
    assert !LevelMeets(w, l, x, x) && !LevelMeets(w, l + 1, x, x);
    if l < c.level { NothingMetNoBytes(w, l + 2, x); }
  }

  lemma PastMeetsNothing(w: Levels, l: nat, x: UserKey, maxBytes: nat)
    requires l + 2 < NUM_LEVELS && GoesPast(w, l, x, x, maxBytes)
    ensures !LevelMeets(w, l + 1, x, x)
  {
  }

  lemma NothingMetNoBytes(w: Levels, l: nat, x: UserKey)
    requires l < NUM_LEVELS && !LevelMeets(w, l, x, x)
    ensures BytesMet(w[l], x, x) == 0
  {
    NothingFiltered(w[l], x);
  }

  lemma {:induction false} NothingFiltered(files: seq<File>, x: UserKey)
    requires forall f | f in files :: !Overlaps(f, Some(x), Some(x))
    ensures OverlapFilter(files, Some(x), Some(x)) == []
  {
    if |files| > 0 { NothingFiltered(files[..|files| - 1], x); }
  }

  /** A table that lies between the inputs where the output will be breaks the compaction. */
  lemma BetweenBreaks(w: Levels, base: Levels, c: Compaction, f: File, x: UserKey)
    requires c.level + 1 < NUM_LEVELS && f in w[c.level + 1] && f !in c.inputs1
    requires f.smallest.user == f.largest.user == x && AllWf(c.inputs0 + c.inputs1)
    requires !LeftOfAll(x, c.inputs0 + c.inputs1) && !RightOfAll(x, c.inputs0 + c.inputs1) && Avoids(x, x, c.inputs0 + c.inputs1)
    ensures !Running(w, base, c)
  {
    var all := c.inputs0 + c.inputs1;
    var g :| g in all && !(x < g.smallest.user);
    var h :| h in all && !(h.largest.user < x);
    FileBounds(g, g.entries[0]);
    FileBounds(h, h.entries[0]);
    assert !Overlaps(g, Some(x), Some(x)) && !Overlaps(h, Some(x), Some(x));
    assert !Before(f.largest, g.smallest) && !Before(h.largest, f.smallest);
  }

  lemma GapAvoidsInputs(w: Levels, c: Compaction, maxBytes: nat, x: UserKey)
    requires Inside(c, w) && HarmfulGap(w, c, maxBytes, x)
    ensures Avoids(x, x, c.inputs0 + c.inputs1)
  {
    assert !LevelMeets(w, c.level, x, x) && !LevelMeets(w, c.level + 1, x, x);
  }

  /** A memtable of one key at the gap, flushed to the output level. */
  lemma FlushBreaks(w: Levels, base: Levels, c: Compaction, maxBytes: nat, x: UserKey, seqno: SeqNo, number: nat)
    requires Ordered(w) && Below(w, seqno, number) && Inside(c, w) && AllWf(c.inputs0 + c.inputs1) && HarmfulGap(w, c, maxBytes, x)
    requires LandsAt(w, c.level + 1, x, x, maxBytes)
    ensures exists w' :: Flush(w, w', maxBytes) && !Running(w', base, c)
  {
    var f, m := Single(x, seqno, number), c.level + 1;
    SingleIsNewest(w, x, seqno, number);
    AddedIsWithFile(w, m, f);
    GapAvoidsInputs(w, c, maxBytes, x);
    var w' := Added(w, m, f);
    assert FlushLevelOk(w, m, f, maxBytes);
    assert f in w'[m] && f !in c.inputs1;
    hide WithFile, LandsAt, LevelMeets, BytesMet, InsertFile, NewestFile, Running;
    BetweenBreaks(w', base, c, f, x);
  }

  lemma EmptyFileMet(files: seq<File>, x: UserKey)
    requires forall f | f in files && Overlaps(f, Some(x), Some(x)) :: f.size == 0
    ensures BytesMet(files, x, x) == 0
  {
    NoBytes(OverlapFilter(files, Some(x), Some(x)));
  }

  lemma {:induction false} NoBytes(files: seq<File>)
    requires forall f | f in files :: f.size == 0
    ensures TotalFileSize(files) == 0
  {
    if |files| > 0 { NoBytes(files[1..]); }
  }

  lemma BelowAdded(w: Levels, w': Levels, m: nat, f: File, seqno: SeqNo)
    requires WithFile(w, w', m, f) && Below(w, seqno, f.number) && seqno < MAX_SEQUENCE
    requires forall e | e in f.entries :: e.key.seqno == seqno
    ensures Below(w', seqno + 1, f.number + 1)
  {
    WithFileEntries(w, w', m, f);
  }

  /** If the table goes past the output level, it stops the next one there. */
  lemma SecondLands(w: Levels, c: Compaction, maxBytes: nat, x: UserKey, f: File, w': Levels)
    requires c.level == 0 && HarmfulGap(w, c, maxBytes, x) && !LevelMeets(w, 2, x, x)
    requires WithFile(w, w', 2, f) && f.smallest.user == f.largest.user == x && f.size == 0
    ensures HarmfulGap(w', c, maxBytes, x) && LandsAt(w', 1, x, x, maxBytes)
  {
    assert LevelMeets(w', 2, x, x) by { assert f in w'[2]; }
    EmptyFileMet(w'[2], x);
    forall l | 0 <= l <= 1 ensures !LevelMeets(w', l, x, x) {
      assert w'[l] == w[l] && !LevelMeets(w, l, x, x);
    }
    hide LevelMeets, BytesMet, WithFile;
  }

  lemma TwoFlushesBreak(w: Levels, base: Levels, c: Compaction, maxBytes: nat, x: UserKey, seqno: SeqNo, number: nat)
    requires Ordered(w) && Below(w, seqno, number) && seqno < MAX_SEQUENCE && Inside(c, w) && AllWf(c.inputs0 + c.inputs1)
    requires HarmfulGap(w, c, maxBytes, x) && c.level == 0 && LandsAt(w, 2, x, x, maxBytes) && !LevelMeets(w, 2, x, x)
    ensures exists w', w'' :: Flush(w, w', maxBytes) && Flush(w', w'', maxBytes) && !Running(w'', base, c)
  {
    var f := Single(x, seqno, number);
    SingleIsNewest(w, x, seqno, number);
    AddedIsWithFile(w, 2, f);
    var w' := Added(w, 2, f);
    assert FlushLevelOk(w, 2, f, maxBytes);
    hide LandsAt, LevelMeets, HarmfulGap, InsertFile, NewestFile, Ordered, Below, Running;
    assert Flush(w, w', maxBytes);
    assert Inside(c, w');
    SecondLands(w, c, maxBytes, x, f, w');
    BelowAdded(w, w', 2, f, seqno);
    hide Flush, WithFile, FlushLevelOk, Inside;
    FlushBreaks(w', base, c, maxBytes, x, seqno + 1, number + 1);
  }

  /** At most two flushes of one key each put a table between the inputs. */
  lemma GapIsReached(w: Levels, base: Levels, c: Compaction, maxBytes: nat, x: UserKey, seqno: SeqNo, number: nat)
    requires Ordered(w) && Below(w, seqno, number) && seqno < MAX_SEQUENCE && Inside(c, w) && AllWf(c.inputs0 + c.inputs1)
    requires c.level + 1 < NUM_LEVELS && HarmfulGap(w, c, maxBytes, x)
    ensures exists ws :: Flushes(ws, maxBytes) && ws[0] == w && !Running(ws[|ws| - 1], base, c)
  {
    hide LandsAt, LevelMeets, HarmfulGap, Ordered, Below, Running, Flush, Inside, AllWf;
    LandsInTheGap(w, c, maxBytes, x);
    if LandsAt(w, c.level + 1, x, x, maxBytes) {
      FlushBreaks(w, base, c, maxBytes, x, seqno, number);
      var w' :| Flush(w, w', maxBytes) && !Running(w', base, c);
      assert Flushes([w, w'], maxBytes);
    } else {
      TwoFlushesBreak(w, base, c, maxBytes, x, seqno, number);
      var w', w'' :| Flush(w, w', maxBytes) && Flush(w', w'', maxBytes) && !Running(w'', base, c);
      assert Flushes([w, w', w''], maxBytes);
    }
  }

  /** Whatever memtables are flushed while a compaction runs, it stays undisturbed, if and
      only if its inputs leave no harmful gap. */
  lemma FlushesAreHarmless(w: Levels, base: Levels, c: Compaction, maxBytes: nat, seqno: SeqNo, number: nat)
    requires WfLevels(w) && Ordered(w) && Running(w, base, c)
    requires Below(w, seqno, number) && seqno < MAX_SEQUENCE
    ensures c.level + 1 < NUM_LEVELS
    ensures NoHarmfulGap(w, c, maxBytes)
            <==> forall ws | Flushes(ws, maxBytes) && ws[0] == w :: Running(ws[|ws| - 1], base, c)
  {
    assert Inside(c, w) && AllWf(c.inputs0 + c.inputs1);
    hide WfLevels, AllWf, Ordered, Running, Below, HarmfulGap, Flushes, Inside;
    HasOutputLevel(w, base, c);
    if NoHarmfulGap(w, c, maxBytes) {
      forall ws | Flushes(ws, maxBytes) && ws[0] == w ensures Running(ws[|ws| - 1], base, c) {
        FlushesKeepRunning(ws, maxBytes, base, c, |ws| - 1);
      }
    } else {
      var x :| HarmfulGap(w, c, maxBytes, x);
      GapIsReached(w, base, c, maxBytes, x, seqno, number);
    }
  }

  // ---- what a table between the inputs does ----

  /** A compaction that joins inputs around such a table leaves two tables that overlap on
      one level. */
  lemma BetweenOverlaps(w: Levels, w': Levels, c: Compaction, f: File, joined: File)
    requires c.level + 1 < NUM_LEVELS && Replaced(w, w', c, [joined])
    requires f in w[c.level + 1] && f !in c.inputs1 && f.number != joined.number && WfFile(f)
    requires !LeftOfAll(f.smallest.user, c.inputs0 + c.inputs1) && !RightOfAll(f.largest.user, c.inputs0 + c.inputs1)
    requires c.inputs0 + c.inputs1 != [] && AllWf(c.inputs0 + c.inputs1)
    requires joined.smallest.user == MinKey(c.inputs0 + c.inputs1).user && joined.largest.user == MaxKey(c.inputs0 + c.inputs1).user
    requires Avoids(f.smallest.user, f.largest.user, c.inputs0 + c.inputs1)
    ensures !Disjoint(w'[c.level + 1])
  {
    var all, files := c.inputs0 + c.inputs1, w'[c.level + 1];
    EndsGoAround(all, f);
    assert f in files && joined in [joined] && joined in files;
    var i :| 0 <= i < |files| && files[i] == f;
    var j :| 0 <= j < |files| && files[j] == joined;
  }

  lemma EndsGoAround(all: seq<File>, f: File)
    requires all != [] && AllWf(all) && WfFile(f) && Avoids(f.smallest.user, f.largest.user, all)
    requires !LeftOfAll(f.smallest.user, all) && !RightOfAll(f.largest.user, all)
    ensures MinKey(all).user < f.smallest.user <= f.largest.user < MaxKey(all).user
  {
    var g :| g in all && !(f.smallest.user < g.smallest.user);
    var h :| h in all && !(h.largest.user < f.largest.user);
    MinKeyIs(all);
    MaxKeyIs(all);
    FileBounds(g, g.entries[0]);
    FileBounds(h, h.entries[0]);
    FileBounds(f, f.entries[0]);
    assert !Overlaps(g, Some(f.smallest.user), Some(f.largest.user)) && !Overlaps(h, Some(f.smallest.user), Some(f.largest.user));
  }
}
