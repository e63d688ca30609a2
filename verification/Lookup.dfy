/** Point lookup: the seek inside one table, Version::Get over the levels
    (db/version_set.cc), MemTable::Get (db/memtable.cc) and DBImpl::Get
    (db/db_impl.cc), proved to return the newest visible entry. */
module Lookup {
  import opened DbFormat
  import opened Entries
  import opened Versions
  import opened FileSearch

  /** What a probe of one table or memtable reports. */
  datatype LookupResult = NotFound | Found(value: Bytes) | Deleted

  function ResultOf(e: Entry): LookupResult {
    if e.key.vtype.Value? then Found(e.value) else Deleted
  }

  /** A deletion and a missing key both read as absent. */
  function ToOption(r: LookupResult): Option<Bytes> {
    match r case NotFound => None case Found(v) => Some(v) case Deleted => None
  }

  ghost predicate NoneVisible(entries: set<Entry>, k: UserKey, s: SeqNo) {
    forall x | x in entries :: !Visible(x, k, s)
  }

  /** `r` reports the newest visible entry of the set, or that there is none. */
  ghost predicate Answers(entries: set<Entry>, k: UserKey, s: SeqNo, r: LookupResult) {
    if r.NotFound? then NoneVisible(entries, k, s)
    else exists e :: Newest(entries, k, s, e) && r == ResultOf(e)
  }

  lemma AnswersIsView(entries: set<Entry>, k: UserKey, s: SeqNo, r: LookupResult)
    requires Unique(entries) && Answers(entries, k, s, r)
    ensures ToOption(r) == View(entries, k, s)
  {
    if r.NotFound? {
      ViewOfNothing(entries, k, s);
    } else {
      var e :| Newest(entries, k, s, e) && r == ResultOf(e);
      ViewOfNewest(entries, k, s, e);
    }
  }

  /** Index of the first entry at or after `target` in a sorted run. */
  function SeekIndex(es: seq<Entry>, target: InternalKey): (i: nat)
    ensures i <= |es|
    ensures forall j | 0 <= j < i :: Before(es[j].key, target)
    ensures i < |es| ==> !Before(es[i].key, target)
  {
    if |es| == 0 || !Before(es[0].key, target) then 0 else 1 + SeekIndex(es[1..], target)
  }

  /** The entry a seek stops at decides. */
  lemma SeekAnswers(es: seq<Entry>, k: UserKey, s: SeqNo, i: nat)
    requires Sorted(es) && i <= |es|
    requires forall j | 0 <= j < i :: Before(es[j].key, LookupKey(k, s))
    requires i < |es| ==> !Before(es[i].key, LookupKey(k, s))
    ensures Answers(EntrySet(es), k, s, if i < |es| && es[i].key.user == k then ResultOf(es[i]) else NotFound)
  {
    if i < |es| && es[i].key.user == k {
      assert Newest(EntrySet(es), k, s, es[i]) by {
        forall x | x in EntrySet(es) && Visible(x, k, s) ensures x.key.seqno <= es[i].key.seqno {
          var j :| 0 <= j < |es| && es[j] == x;
          assert !(j < i);
        }
      }
    } else {
      forall x | x in EntrySet(es) ensures !Visible(x, k, s) {
        var j :| 0 <= j < |es| && es[j] == x;
        if j >= i { assert i < |es|; assert AtOrBefore(es[i].key, es[j].key); }
      }
    }
  }

  /** Seek to the lookup key, then look at the one entry found: this is how a table and
      a memtable answer. */
  method RunGet(es: seq<Entry>, k: UserKey, s: SeqNo) returns (r: LookupResult)
    requires Sorted(es)
    ensures Answers(EntrySet(es), k, s, r)
  {
    var i := SeekIndex(es, LookupKey(k, s));
    SeekAnswers(es, k, s, i);
    r := if i < |es| && es[i].key.user == k then ResultOf(es[i]) else NotFound;
  }

  predicate Descending(files: seq<File>) {
    forall i, j | 0 <= i < j < |files| :: files[i].number > files[j].number
  }

  lemma InsertNumber(sorted: seq<File>, f: File, i: nat)
    requires Descending(sorted) && i <= |sorted| && forall g | g in sorted :: g.number != f.number
    requires (forall j | 0 <= j < i :: sorted[j].number > f.number) && (i < |sorted| ==> sorted[i].number <= f.number)
    ensures Descending(sorted[..i] + [f] + sorted[i..])
    ensures forall g :: g in sorted[..i] + [f] + sorted[i..] <==> g in sorted || g == f
  {
    if i < |sorted| { assert sorted[i].number < f.number; }
    assert forall j | i <= j < |sorted| :: sorted[j].number < f.number;
    assert forall g :: g in sorted <==> g in sorted[..i] || g in sorted[i..];
  }

  /** std::sort with NewestFirst. */
  method SortNewestFirst(files: seq<File>) returns (sorted: seq<File>)
    requires DistinctNumbers(files)
    ensures Descending(sorted)
    ensures forall f :: f in sorted <==> f in files
    ensures |sorted| == |files|
  {
    sorted := [];
    for n := 0 to |files|
      invariant Descending(sorted)
      invariant |sorted| == n
      invariant forall f :: f in sorted <==> f in files[..n]
    {
      var f := files[n];
      assert forall g | g in sorted :: g.number != f.number by {
        forall g | g in sorted ensures g.number != f.number {
          var j :| 0 <= j < n && files[..n][j] == g;
        }
      }
      var i := 0;
      while i < |sorted| && sorted[i].number > f.number
        invariant i <= |sorted|
        invariant forall j | 0 <= j < i :: sorted[j].number > f.number
      {
        i := i + 1;
      }
      InsertNumber(sorted, f, i);
      assert files[..n+1] == files[..n] + [f];
      sorted := sorted[..i] + [f] + sorted[i..];
    }
    assert files[..|files|] == files;
  }

  ghost predicate FileHasNone(f: File, k: UserKey, s: SeqNo) {
    NoneVisible(EntrySet(f.entries), k, s)
  }

  /** Probing `cands` in order and stopping at the first hit answers for all `files`. */
  ghost predicate GoodOrder(files: seq<File>, cands: seq<File>, k: UserKey, s: SeqNo) {
    && AllWf(cands)
    && (forall i, e | 0 <= i < |cands| && Newest(EntrySet(cands[i].entries), k, s, e)
          && (forall j | 0 <= j < i :: FileHasNone(cands[j], k, s)) :: Newest(FileEntries(files), k, s, e))
    && ((forall j | 0 <= j < |cands| :: FileHasNone(cands[j], k, s)) ==> NoneVisible(FileEntries(files), k, s))
  }

  /** Level 0: all files around the key, newest first. */
  lemma Level0Order(files: seq<File>, cands: seq<File>, k: UserKey, s: SeqNo)
    requires AllWf(files) && DistinctNumbers(files) && Descending(cands)
    requires forall f :: f in cands <==> f in files && UserInFile(f, k)
    requires forall f, g | f in files && g in files && f.number > g.number :: FileNewer(f, g)
    ensures GoodOrder(files, cands, k, s)
  {
    forall x | x in FileEntries(files) && Visible(x, k, s)
      ensures exists j :: 0 <= j < |cands| && x in cands[j].entries
    {
      var f :| f in files && x in f.entries;
      FileBounds(f, x);
      assert f in cands;
      var j :| 0 <= j < |cands| && cands[j] == f;
    }
    forall i, e | 0 <= i < |cands| && Newest(EntrySet(cands[i].entries), k, s, e)
      && (forall j | 0 <= j < i :: FileHasNone(cands[j], k, s))
      ensures Newest(FileEntries(files), k, s, e)
    {
      assert cands[i] in cands;
      forall x | x in FileEntries(files) && Visible(x, k, s) ensures x.key.seqno <= e.key.seqno {
        var j :| 0 <= j < |cands| && x in cands[j].entries;
        assert cands[j] in cands && x in EntrySet(cands[j].entries);
        var none := FileHasNone(cands[j], k, s);
        if j > i {
          assert FileNewer(cands[i], cands[j]);
        }
      }
    }
    if forall j | 0 <= j < |cands| :: FileHasNone(cands[j], k, s) {
      forall j, x | 0 <= j < |cands| && x in cands[j].entries ensures !Visible(x, k, s) {
        assert FileHasNone(cands[j], k, s) && x in EntrySet(cands[j].entries);
      }
    }
  }

  /** A visible entry of a sorted level sits in the file FindFile points at, or further
      right behind a file that ends with the same user key. */
  lemma VisibleFromIndex(files: seq<File>, j: nat, k: UserKey, s: SeqNo, x: Entry)
    requires AllWf(files) && Disjoint(files)
    requires j < |files| && x in files[j].entries && Visible(x, k, s)
    ensures FirstNotBefore(files, LookupKey(k, s)) <= j
    ensures files[FirstNotBefore(files, LookupKey(k, s))].smallest.user <= k
    ensures FirstNotBefore(files, LookupKey(k, s)) < j ==>
      var g := files[FirstNotBefore(files, LookupKey(k, s))]; g.largest.user == k && Before(g.largest, x.key)
  {
    FileBounds(files[j], x);
    var index := FirstNotBefore(files, LookupKey(k, s));
    if index < j {
      var g := files[index];
      assert g in files;
      FileBounds(g, g.entries[0]);
      assert Before(g.largest, files[j].smallest);
    }
  }

  /** Level > 0: the one file FindFile points at, unless it starts after the key. */
  lemma DeeperLevelOrder(files: seq<File>, index: nat, cands: seq<File>, k: UserKey, s: SeqNo)
    requires AllWf(files) && Disjoint(files)
    requires index == FirstNotBefore(files, LookupKey(k, s))
    requires cands == if index < |files| && files[index].smallest.user <= k then [files[index]] else []
    ensures GoodOrder(files, cands, k, s)
  {
    forall j, x | 0 <= j < |files| && x in files[j].entries && Visible(x, k, s) ensures |cands| == 1 {
      VisibleFromIndex(files, j, k, s, x);
    }
    if |cands| > 0 {
      FoundFileDecides(files, index, k, s);
      assert FileHasNone(cands[0], k, s) ==> NoneVisible(FileEntries(files), k, s);
    }
  }

  lemma FoundFileDecides(files: seq<File>, index: nat, k: UserKey, s: SeqNo)
    requires AllWf(files) && Disjoint(files)
    requires index == FirstNotBefore(files, LookupKey(k, s))
    requires index < |files| && files[index].smallest.user <= k
    ensures forall e | Newest(EntrySet(files[index].entries), k, s, e) :: Newest(FileEntries(files), k, s, e)
    ensures FileHasNone(files[index], k, s) ==> NoneVisible(FileEntries(files), k, s)
  {
    var f := files[index];
    assert f in files;
    var last := f.entries[|f.entries| - 1];
    assert last in EntrySet(f.entries);
    forall j, x | 0 <= j < |files| && x in files[j].entries && Visible(x, k, s)
      ensures x in EntrySet(f.entries) || (Visible(last, k, s) && Before(last.key, x.key))
    {
      VisibleFromIndex(files, j, k, s, x);
    }
    forall e | Newest(EntrySet(f.entries), k, s, e) ensures Newest(FileEntries(files), k, s, e) {
      FileBounds(f, e);
      forall x | x in FileEntries(files) && Visible(x, k, s) ensures x.key.seqno <= e.key.seqno {
        var g :| g in files && x in g.entries;
      }
    }
  }

  lemma NewestInLevels(v: Levels, level: nat, k: UserKey, s: SeqNo, e: Entry)
    requires NewerAbove(v) && level < NUM_LEVELS
    requires Newest(FileEntries(v[level]), k, s, e)
    requires forall l | 0 <= l < level :: NoneVisible(FileEntries(v[l]), k, s)
    ensures Newest(LevelsEntries(v), k, s, e)
  {
    var f :| f in v[level] && e in f.entries;
    forall x | x in LevelsEntries(v) && Visible(x, k, s) ensures x.key.seqno <= e.key.seqno {
      var l, g :| 0 <= l < NUM_LEVELS && g in v[l] && x in g.entries;
      assert x in FileEntries(v[l]);
      var none := NoneVisible(FileEntries(v[l]), k, s);
      if l > level {
        assert FileNewer(f, g);
      }
    }
  }

  /** The files of level 0 whose range holds the key. */
  method FilesAround(files: seq<File>, k: UserKey) returns (tmp: seq<File>)
    requires DistinctNumbers(files)
    ensures forall f :: f in tmp <==> f in files && UserInFile(f, k)
    ensures DistinctNumbers(tmp)
  {
    tmp := [];
    for i := 0 to |files|
      invariant forall f :: f in tmp <==> f in files[..i] && UserInFile(f, k)
      invariant DistinctNumbers(tmp)
    {
      var f := files[i];
      assert files[..i+1] == files[..i] + [f];
      if k >= f.smallest.user && k <= f.largest.user {
        forall j | 0 <= j < |tmp| ensures tmp[j].number != f.number {
          assert tmp[j] in files[..i];
        }
        tmp := tmp + [f];
      }
    }
    assert files[..|files|] == files;
  }

  /** The files of one level to probe, in the order to probe them. */
  method FilesToSearch(v: Levels, level: nat, k: UserKey, s: SeqNo) returns (files: seq<File>)
    requires WfLevels(v) && NewerAbove(v) && level < NUM_LEVELS
    ensures GoodOrder(v[level], files, k, s)
  {
    if level == 0 {
      var tmp := FilesAround(v[0], k);
      files := SortNewestFirst(tmp);
      Level0Order(v[0], files, k, s);
    } else {
      var index := FindFile(v[level], LookupKey(k, s));
      files := if index < |v[level]| && k >= v[level][index].smallest.user then [v[level][index]] else [];
      DeeperLevelOrder(v[level], index, files, k, s);
    }
  }

  /** Version::Get: level by level, stopping at the first hit. */
  method VersionGet(v: Levels, k: UserKey, s: SeqNo) returns (r: LookupResult)
    requires WfLevels(v) && NewerAbove(v)
    ensures Answers(LevelsEntries(v), k, s, r)
  {
    var level := 0;
    while level < NUM_LEVELS
      invariant level <= NUM_LEVELS
      invariant forall l | 0 <= l < level :: NoneVisible(FileEntries(v[l]), k, s)
    {
      var files := FilesToSearch(v, level, k, s);
      var i := 0;
      while i < |files|
        invariant i <= |files|
        invariant forall j | 0 <= j < i :: FileHasNone(files[j], k, s)
      {
        assert files[i] in files;
        r := RunGet(files[i].entries, k, s);
        if !r.NotFound? {
          ghost var e :| Newest(EntrySet(files[i].entries), k, s, e) && r == ResultOf(e);
          NewestInLevels(v, level, k, s, e);
          return;
        }
        i := i + 1;
      }
      level := level + 1;
    }
    r := NotFound;
  }

  /** Two sets of entries, the first newer than the second for every shared user key. */
  ghost predicate SetNewer(a: set<Entry>, b: set<Entry>) {
    forall e, d | e in a && d in b && e.key.user == d.key.user :: e.key.seqno > d.key.seqno
  }

  lemma AnswerFirst(a: set<Entry>, b: set<Entry>, k: UserKey, s: SeqNo, r: LookupResult)
    requires SetNewer(a, b) && Answers(a, k, s, r) && !r.NotFound?
    ensures Answers(a + b, k, s, r)
  {
    var e :| Newest(a, k, s, e) && r == ResultOf(e);
    assert Newest(a + b, k, s, e);
  }

  lemma AnswerSecond(a: set<Entry>, b: set<Entry>, k: UserKey, s: SeqNo, r: LookupResult)
    requires NoneVisible(a, k, s) && Answers(b, k, s, r)
    ensures Answers(a + b, k, s, r)
  {
    if !r.NotFound? {
      var e :| Newest(b, k, s, e) && r == ResultOf(e);
      assert Newest(a + b, k, s, e);
    }
  }

  /** The entries a reader holds: memtable, immutable memtable if any, and version. */
  ghost function StoreEntries(mem: seq<Entry>, imm: Option<seq<Entry>>, v: Levels): set<Entry> {
    EntrySet(mem) + ((if imm.Some? then EntrySet(imm.value) else {}) + LevelsEntries(v))
  }

  /** Newer data above older data, down to the levels. */
  ghost predicate Layered(mem: seq<Entry>, imm: Option<seq<Entry>>, v: Levels) {
    && Sorted(mem) && (imm.Some? ==> Sorted(imm.value))
    && WfLevels(v) && NewerAbove(v)
    && SetNewer(EntrySet(mem), (if imm.Some? then EntrySet(imm.value) else {}) + LevelsEntries(v))
    && (imm.Some? ==> SetNewer(EntrySet(imm.value), LevelsEntries(v)))
  }

  /** DBImpl::Get on the references it took under the mutex. */
  method DbGet(mem: seq<Entry>, imm: Option<seq<Entry>>, v: Levels, k: UserKey, s: SeqNo) returns (r: Option<Bytes>)
    requires Layered(mem, imm, v)
    requires Unique(StoreEntries(mem, imm, v))
    ensures r == View(StoreEntries(mem, imm, v), k, s)
  {
    ghost var immSet := if imm.Some? then EntrySet(imm.value) else {};
    var result := RunGet(mem, k, s);
    if !result.NotFound? {
      AnswerFirst(EntrySet(mem), immSet + LevelsEntries(v), k, s, result);
    } else {
      var hit := false;
      if imm.Some? {
        result := RunGet(imm.value, k, s);
        hit := !result.NotFound?;
      }
      if hit {
        AnswerFirst(immSet, LevelsEntries(v), k, s, result);
      } else {
        result := VersionGet(v, k, s);
        AnswerSecond(immSet, LevelsEntries(v), k, s, result);
      }
      AnswerSecond(EntrySet(mem), immSet + LevelsEntries(v), k, s, result);
    }
    AnswersIsView(StoreEntries(mem, imm, v), k, s, result);
    r := ToOption(result);
  }
}
