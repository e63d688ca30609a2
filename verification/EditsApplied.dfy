/** What VersionSet::LogAndApply makes of the three kinds of edits the store logs: one
    flushed table, a finished compaction, and the tables of a recovery. */
module EditsApplied {
  import opened DbFormat
  import opened Entries
  import opened Versions
  import opened CompactionInputs
  import opened Install
  import opened VersionBuilder
  import opened ManifestReplay
  import opened StoreInvariant
  import opened CrashSafety
  import opened FileNumbering
  import opened Store

  ghost predicate LevelsInOrder(v: Levels) {
    forall l | 0 <= l < NUM_LEVELS :: InBuilderOrder(v[l])
  }

  lemma UniqueIsDistinct(v: Levels, l: nat)
    requires UniqueNumbers(v) && l < NUM_LEVELS && DistinctNumbers(v[l])
    ensures forall f, g | f in v[l] && g in v[l] && f != g :: f.number != g.number
  {
  }

  lemma TaggedAre(l: nat, files: seq<File>)
    ensures forall m, f :: (m, f) in Tagged(l, files) <==> m == l && f in files
  {
    forall f | f in files ensures (l, f) in Tagged(l, files) {
      var i :| 0 <= i < |files| && files[i] == f;
      assert Tagged(l, files)[i] == (l, f);
    }
  }

  lemma OneEditExactly(deleted: set<(nat, nat)>, m: nat, files: seq<File>, l: nat)
    requires m < NUM_LEVELS && l < NUM_LEVELS && DistinctNumbers(files)
    requires forall d | d in deleted :: d.0 < NUM_LEVELS
    ensures var edit := FileEdit(deleted, Tagged(m, files));
            edit.LevelsOk() && AddsExactly(NO_CHANGES, edit, Applied(NO_CHANGES, edit), l)
            && forall a | a in edit.added :: a.0 == m
  {
    hide Applied, AddsExactly;
    var edit := FileEdit(deleted, Tagged(m, files));
    TaggedAre(m, files);
    forall a | a in edit.added ensures a.0 == m { assert (a.0, a.1) in edit.added; }
    assert Fresh(EMPTY, NO_CHANGES, edit.added);
    AppliedExactly(EMPTY, NO_CHANGES, edit, l);
  }

  /** A builder of its own holds exactly the additions of its edit. */
  lemma OneEdit(deleted: set<(nat, nat)>, m: nat, files: seq<File>, l: nat)
    requires m < NUM_LEVELS && l < NUM_LEVELS && DistinctNumbers(files)
    requires forall d | d in deleted :: d.0 < NUM_LEVELS
    ensures var edit := FileEdit(deleted, Tagged(m, files));
            edit.LevelsOk()
            && var st := Applied(NO_CHANGES, edit);
               (forall f :: f in st.added[l] <==> l == m && f in files)
               && (forall n :: n in st.deleted[l] <==> n in NumbersAt(deleted, l) && (l == m ==> forall f | f in files :: f.number != n))
  {
    var edit := FileEdit(deleted, Tagged(m, files));
    TaggedAre(m, files);
    OneEditExactly(deleted, m, files, l);
    var st := Applied(NO_CHANGES, edit);
    hide Applied;
    forall n ensures n in st.deleted[l] <==> n in NumbersAt(deleted, l) && (l == m ==> forall f | f in files :: f.number != n) {
      if l == m {
        forall f | f in files ensures (m, f) in edit.added {}
      }
    }
  }

  lemma SavedLevel(v: Levels, st: LevelStates, v': Levels, l: nat)
    requires ValidStates(st) && SavedFrom(v, st, v') && l < NUM_LEVELS
    requires DistinctNumbers(v[l])
    requires forall f, g | f in v[l] && g in st.added[l] :: f.number != g.number
    requires forall f, g | f in st.added[l] && g in st.added[l] && f != g :: f.number != g.number
    ensures InBuilderOrder(v'[l]) && DistinctNumbers(v'[l])
    ensures forall f :: f in v'[l] <==> (f in v[l] || f in st.added[l]) && f.number !in st.deleted[l]
  {
    ApartIsDistinct(v[l], st.added[l]);
  }

  /** A level whose files an edit neither deletes nor adds to stays the same sequence. */
  lemma UntouchedLevel(v: Levels, st: LevelStates, v': Levels, l: nat)
    requires ValidStates(st) && SavedFrom(v, st, v') && l < NUM_LEVELS
    requires DistinctNumbers(v[l]) && InBuilderOrder(v[l])
    requires (forall f :: f !in st.added[l]) && (forall n :: n !in st.deleted[l])
    ensures v'[l] == v[l]
  {
    SavedLevel(v, st, v', l);
    SameFilesSameLevel(v'[l], v[l]);
  }

  ghost predicate Sound(v: Levels) {
    UniqueNumbers(v) && LevelsInOrder(v) && forall l | 0 <= l < NUM_LEVELS :: DistinctNumbers(v[l])
  }

  lemma NumberNotAtLevel(v: Levels, n: nat, l: nat)
    requires l < NUM_LEVELS && n !in FileNumbers(v)
    ensures forall f | f in v[l] :: f.number != n
  {
    forall f | f in v[l] ensures f.number != n {
      assert f.number in FileNumbers(v);
    }
  }

  function FlushEdit(level: nat, f: File): FileEdit {
    FileEdit({}, Tagged(level, [f]))
  }

  lemma FlushEditLevel(v: Levels, v': Levels, level: nat, f: File, l: nat)
    requires Sound(v) && level < NUM_LEVELS && l < NUM_LEVELS && f.number !in FileNumbers(v)
    requires FlushEdit(level, f).LevelsOk() && SavedFrom(v, Applied(NO_CHANGES, FlushEdit(level, f)), v')
    ensures l != level ==> v'[l] == v[l]
    ensures l == level ==> InBuilderOrder(v'[l]) && DistinctNumbers(v'[l]) && forall g :: g in v'[l] <==> g in v[l] || g == f
  {
    OneEdit({}, level, [f], l);
    var st := Applied(NO_CHANGES, FlushEdit(level, f));
    assert NumbersAt({}, l) == {};
    if l == level {
      NumberNotAtLevel(v, f.number, l);
      SavedLevel(v, st, v', l);
    } else {
      UntouchedLevel(v, st, v', l);
    }
  }

  /** The edit of a flush adds one table. */
  lemma FlushEditAddsFile(v: Levels, v': Levels, level: nat, f: File)
    requires Sound(v) && level < NUM_LEVELS && f.number !in FileNumbers(v)
    requires FlushEdit(level, f).LevelsOk() && SavedFrom(v, Applied(NO_CHANGES, FlushEdit(level, f)), v')
    ensures WithFile(v, v', level, f)
  {
    forall l | 0 <= l < NUM_LEVELS && l != level ensures v'[l] == v[l] {
      FlushEditLevel(v, v', level, f, l);
    }
    FlushEditLevel(v, v', level, f, level);
  }

  function RecoveryEdit(files: seq<File>): FileEdit {
    FileEdit({}, Tagged(0, files))
  }

  /** The edit of a recovery adds its tables to level 0. */
  lemma RecoveryEditAddsTables(v: Levels, v': Levels, files: seq<File>, lo: nat)
    requires Sound(v) && NumbersBelow(v, lo) && DistinctNumbers(files) && forall f | f in files :: lo <= f.number
    requires RecoveryEdit(files).LevelsOk() && SavedFrom(v, Applied(NO_CHANGES, RecoveryEdit(files)), v')
    ensures WithLevel0Files(v, v', files)
  {
    var st := Applied(NO_CHANGES, RecoveryEdit(files));
    forall l | 1 <= l < NUM_LEVELS ensures v'[l] == v[l] {
      OneEdit({}, 0, files, l);
      assert NumbersAt({}, l) == {};
      UntouchedLevel(v, st, v', l);
    }
    OneEdit({}, 0, files, 0);
    assert NumbersAt({}, 0) == {};
    DistinctFiles(files);
    SavedLevel(v, st, v', 0);
  }

  function NumbersOf(l: nat, files: seq<File>): set<(nat, nat)> {
    set f | f in files :: (l, f.number)
  }

  function MergeEdit(c: Compaction, outs: seq<File>): FileEdit {
    FileEdit(NumbersOf(c.level, c.inputs0) + NumbersOf(c.level + 1, c.inputs1), Tagged(c.level + 1, outs))
  }

  /** Deleting by number deletes the inputs and nothing else. */
  lemma DeletedByNumber(w: Levels, c: Compaction, l: nat, inputs: seq<File>, f: File)
    requires Sound(w) && l < NUM_LEVELS && f in w[l] && forall g | g in inputs :: g in w[l]
    ensures (exists g :: g in inputs && g.number == f.number) <==> f in inputs
  {
    UniqueIsDistinct(w, l);
  }

  lemma MergeEditDeletes(c: Compaction, l: nat, n: nat)
    requires l < NUM_LEVELS
    ensures n in NumbersAt(NumbersOf(c.level, c.inputs0) + NumbersOf(c.level + 1, c.inputs1), l)
      <==> (l == c.level && exists g :: g in c.inputs0 && g.number == n) || (l == c.level + 1 && exists g :: g in c.inputs1 && g.number == n)
  {
    var deleted := NumbersOf(c.level, c.inputs0) + NumbersOf(c.level + 1, c.inputs1);
    assert n in NumbersAt(deleted, l) <==> (l, n) in deleted;
  }

  /** New tables carry numbers no table of the version has; a moved table brings its own
      number to a level that does not have it. */
  ghost predicate OutputNumbersOk(w: Levels, c: Compaction, outs: seq<File>)
    requires c.level + 1 < NUM_LEVELS
  {
    DistinctNumbers(outs) && forall f, g | f in outs && g in w[c.level + 1] :: f.number != g.number
  }

  lemma MergeEditLevel(w: Levels, w': Levels, c: Compaction, outs: seq<File>, l: nat)
    requires Sound(w) && c.level + 1 < NUM_LEVELS && l < NUM_LEVELS && OutputNumbersOk(w, c, outs)
    requires (forall f | f in c.inputs0 :: f in w[c.level]) && (forall f | f in c.inputs1 :: f in w[c.level + 1])
    requires MergeEdit(c, outs).LevelsOk() && SavedFrom(w, Applied(NO_CHANGES, MergeEdit(c, outs)), w')
    ensures l != c.level && l != c.level + 1 ==> w'[l] == w[l]
    ensures l == c.level || l == c.level + 1 ==> InBuilderOrder(w'[l]) && DistinctNumbers(w'[l])
    ensures l == c.level ==> forall f :: f in w'[l] <==> f in w[l] && f !in c.inputs0
    ensures l == c.level + 1 ==> forall f :: f in w'[l] <==> (f in w[l] && f !in c.inputs1) || f in outs
  {
    var edit := MergeEdit(c, outs);
    var st := Applied(NO_CHANGES, edit);
    OneEdit(edit.deleted, c.level + 1, outs, l);
    forall n ensures n in st.deleted[l] <==>
      ((l == c.level && exists g :: g in c.inputs0 && g.number == n)
       || (l == c.level + 1 && (exists g :: g in c.inputs1 && g.number == n) && forall f | f in outs :: f.number != n))
    {
      MergeEditDeletes(c, l, n);
    }
    if l != c.level && l != c.level + 1 {
      UntouchedLevel(w, st, w', l);
    } else {
      DistinctFiles(outs);
      SavedLevel(w, st, w', l);
      var inputs := if l == c.level then c.inputs0 else c.inputs1;
      forall f | f in w[l] ensures f.number in st.deleted[l] <==> f in inputs {
        DeletedByNumber(w, c, l, inputs, f);
      }
    }
  }

  /** The edit of a compaction replaces its inputs by its outputs one level down. */
  lemma MergeEditReplaces(w: Levels, w': Levels, c: Compaction, outs: seq<File>)
    requires Sound(w) && c.level + 1 < NUM_LEVELS && OutputNumbersOk(w, c, outs)
    requires (forall f | f in c.inputs0 :: f in w[c.level]) && (forall f | f in c.inputs1 :: f in w[c.level + 1])
    requires MergeEdit(c, outs).LevelsOk() && SavedFrom(w, Applied(NO_CHANGES, MergeEdit(c, outs)), w')
    ensures Replaced(w, w', c, outs)
  {
    forall l | 0 <= l < NUM_LEVELS && l != c.level && l != c.level + 1 ensures w'[l] == w[l] {
      MergeEditLevel(w, w', c, outs, l);
    }
    MergeEditLevel(w, w', c, outs, c.level);
    MergeEditLevel(w, w', c, outs, c.level + 1);
  }
}
