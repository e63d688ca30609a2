/** The manifest a run of the store leaves behind (db/version_set.cc, LogAndApply and Recover):
    whatever the run, crashes included, one builder that takes in the recorded edits rebuilds
    the version the manifest stands for.  A table number never comes back to a level: it only
    ever moves to deeper ones. */
module ManifestOfRun {
  import opened DbFormat
  import opened Entries
  import opened Versions
  import opened CompactionInputs
  import opened CompactionWork
  import opened Install
  import opened VersionBuilder
  import opened ManifestReplay
  import opened Store
  import opened StoreInvariant
  import opened CrashSafety
  import opened Runs
  import opened FileNumbering
  import opened EditsApplied

  // ---- the edits of a run ----

  const NO_EDIT: FileEdit := FileEdit({}, [])

  /** The table of a flush, if its memtable is not empty. */
  function FlushedFiles(s: Db, size: nat): seq<File> {
    if s.flush.Some? && s.imm.Some? && |s.imm.value| > 0 && Sorted(s.imm.value) then [MakeFile(s.flush.value, size, s.imm.value)] else []
  }

  /** What a step hands to LogAndApply. */
  function StepEdit(s: Db, step: Step): FileEdit {
    match step
    case CommitFlushStep(level, size) => FileEdit({}, Tagged(level, FlushedFiles(s, size)))
    case CommitMergeStep(es, runs, outs) => if s.job.Some? then MergeEdit(s.job.value.c, outs) else NO_EDIT
    case CommitMoveStep => if s.job.Some? then MergeEdit(s.job.value.c, s.job.value.c.inputs0) else NO_EDIT
    case CrashStep(plan) => RecoveryEdit(plan.files)
    case TornCrashStep(plan, tear) => RecoveryEdit(plan.files)
    case _ => NO_EDIT
  }

  predicate Commits(step: Step) {
    step.CommitFlushStep? || step.CommitMergeStep? || step.CommitMoveStep?
  }

  predicate Recovers(step: Step) {
    (step.CrashStep? && step.plan.save) || (step.TornCrashStep? && step.plan.save)
  }

  /** The edit of the last commit: it is recorded unless a crash comes first. */
  function PendingEdit(states: seq<Db>, steps: seq<Step>, i: nat): FileEdit
    requires i <= |steps| <= |states|
  {
    if i == 0 then NO_EDIT
    else if Commits(steps[i - 1]) then StepEdit(states[i - 1], steps[i - 1])
    else PendingEdit(states, steps, i - 1)
  }

  /** The edits in the manifest after `i` steps. */
  function Recorded(states: seq<Db>, steps: seq<Step>, i: nat): seq<FileEdit>
    requires i <= |steps| <= |states|
  {
    if i == 0 then []
    else
      var before := Recorded(states, steps, i - 1);
      if steps[i - 1].WriteRecordStep? then before + [PendingEdit(states, steps, i - 1)]
      else if Recovers(steps[i - 1]) then before + [StepEdit(states[i - 1], steps[i - 1])]
      else before
  }

  // ---- what the builder holds ----

  ghost predicate UsedBelow(st: LevelStates, next: nat)
    requires ValidStates(st)
  {
    forall l, f | 0 <= l < NUM_LEVELS && f in st.added[l] :: f.number < next
  }

  ghost predicate NotUsed(st: LevelStates, n: nat)
    requires ValidStates(st)
  {
    forall l, f | 0 <= l < NUM_LEVELS && f in st.added[l] :: f.number != n
  }

  /** No number of a file was ever used on a deeper level than the file lies on. */
  ghost predicate Deepest(st: LevelStates, l: nat, f: File)
    requires ValidStates(st)
  {
    forall m, g | 0 <= m < NUM_LEVELS && g in st.added[m] && g.number == f.number :: m <= l
  }

  /** The builder stands for the version, and numbers from `next` on are new to it. */
  ghost predicate Follows(st: LevelStates, v: Levels, next: nat) {
    && ValidStates(st) && Tracks(EMPTY, st, v) && UsedBelow(st, next)
    && forall l, f | 0 <= l < NUM_LEVELS && f in v[l] :: Deepest(st, l, f)
  }

  lemma NothingFollowed(next: nat)
    ensures Follows(NO_CHANGES, NO_FILES, next)
  {
    assert forall l | 0 <= l < NUM_LEVELS :: NO_FILES[l] == [] && EMPTY[l] == [] && NO_CHANGES.added[l] == [];
  }

  /** An edit that puts `files` on level `m` and deletes numbers. */
  function OneLevelEdit(deleted: set<(nat, nat)>, m: nat, files: seq<File>): FileEdit {
    FileEdit(deleted, Tagged(m, files))
  }

  /** The files are new to their level, and each lies as deep as its number ever did. */
  ghost predicate NewToLevel(st: LevelStates, m: nat, files: seq<File>, next: nat)
    requires ValidStates(st)
  {
    && m < NUM_LEVELS && DistinctNumbers(files)
    && forall f | f in files :: f.number < next && forall l, g | 0 <= l < NUM_LEVELS && g in st.added[l] && g.number == f.number :: l < m
  }

  /** A file of the new version comes with the edit, or lay there before and is no deeper copy
      of one that does. */
  ghost predicate InPlace(v: Levels, m: nat, files: seq<File>, l: nat, f: File)
    requires l < NUM_LEVELS
  {
    (l == m && f in files) || (f in v[l] && forall g | g in files && g.number == f.number :: m <= l)
  }

  lemma NewIsFresh(st: LevelStates, deleted: set<(nat, nat)>, m: nat, files: seq<File>, next: nat)
    requires ValidStates(st) && NewToLevel(st, m, files, next)
    ensures Fresh(EMPTY, st, OneLevelEdit(deleted, m, files).added)
  {
    var added := Tagged(m, files);
    assert EMPTY[m] == [];
    forall i | 0 <= i < |added|
      ensures added[i].0 == m
      ensures forall g | g in st.added[m] :: g.number != added[i].1.number
    {
      assert files[i] in files;
    }
  }

  /** One more edit, of this kind, is followed. */
  lemma EditFollowed(st: LevelStates, v: Levels, next: nat, deleted: set<(nat, nat)>, m: nat, files: seq<File>, v': Levels, next': nat)
    requires Follows(st, v, next) && next <= next' && NewToLevel(st, m, files, next')
    requires OneLevelEdit(deleted, m, files).LevelsOk() && SavedFrom(v, Applied(NO_CHANGES, OneLevelEdit(deleted, m, files)), v')
    requires forall l, f | 0 <= l < NUM_LEVELS && f in v'[l] :: InPlace(v, m, files, l, f)
    ensures Follows(Applied(st, OneLevelEdit(deleted, m, files)), v', next')
  {
    var edit := OneLevelEdit(deleted, m, files);
    var st' := Applied(st, edit);
    NewIsFresh(st, deleted, m, files, next');
    OneMoreEdit(EMPTY, st, v, edit, v');
    hide Applied, Tracks, SavedFrom, Fresh;
    forall l, g | 0 <= l < NUM_LEVELS ensures g in st'.added[l] <==> g in st.added[l] || (l == m && g in files) {
      AddedThen(st, deleted, m, files, next', l, g);
    }
    forall l, f | 0 <= l < NUM_LEVELS && f in v'[l] ensures Deepest(st', l, f) {
      assert f in v[l] ==> Deepest(st, l, f);
    }
  }

  lemma AddedThen(st: LevelStates, deleted: set<(nat, nat)>, m: nat, files: seq<File>, next: nat, l: nat, g: File)
    requires ValidStates(st) && NewToLevel(st, m, files, next) && l < NUM_LEVELS
    requires OneLevelEdit(deleted, m, files).LevelsOk()
    ensures g in Applied(st, OneLevelEdit(deleted, m, files)).added[l] <==> g in st.added[l] || (l == m && g in files)
  {
    NewIsFresh(st, deleted, m, files, next);
    AppliedExactly(EMPTY, st, OneLevelEdit(deleted, m, files), l);
    TaggedAre(m, files);
  }

  // ---- what the steps do is what their edits say ----

  /** Which files of a level survive an edit of this kind, or come with it. */
  ghost predicate Survives(v: Levels, deleted: set<(nat, nat)>, m: nat, files: seq<File>, l: nat, f: File)
    requires l < NUM_LEVELS
  {
    (f in v[l] || (l == m && f in files)) && ((l, f.number) !in deleted || (l == m && exists g :: g in files && g.number == f.number))
  }

  lemma SurvivorsAreLive(v: Levels, deleted: set<(nat, nat)>, m: nat, files: seq<File>, l: nat, f: File)
    requires m < NUM_LEVELS && l < NUM_LEVELS && DistinctNumbers(files) && forall d | d in deleted :: d.0 < NUM_LEVELS
    ensures var edit := OneLevelEdit(deleted, m, files);
            edit.LevelsOk()
            && var st := Applied(NO_CHANGES, edit);
               Survives(v, deleted, m, files, l, f) <==> (f in v[l] || f in st.added[l]) && f.number !in st.deleted[l]
  {
    OneEdit(deleted, m, files, l);
    hide Applied, DistinctNumbers;
    assert f.number in NumbersAt(deleted, l) <==> (l, f.number) in deleted;
  }

  /** A version in which the survivors of another lie is what the builder saves. */
  lemma SavedByEdit(v: Levels, v': Levels, deleted: set<(nat, nat)>, m: nat, files: seq<File>)
    requires m < NUM_LEVELS && DistinctNumbers(files) && forall d | d in deleted :: d.0 < NUM_LEVELS
    requires forall l | 0 <= l < NUM_LEVELS :: InBuilderOrder(v'[l]) && DistinctNumbers(v'[l])
    requires forall l, f | 0 <= l < NUM_LEVELS :: f in v'[l] <==> Survives(v, deleted, m, files, l, f)
    ensures OneLevelEdit(deleted, m, files).LevelsOk()
    ensures SavedFrom(v, Applied(NO_CHANGES, OneLevelEdit(deleted, m, files)), v')
  {
    hide DistinctNumbers, InBuilderOrder, Survives, Applied;
    OneEdit(deleted, m, files, 0);
    var st := Applied(NO_CHANGES, OneLevelEdit(deleted, m, files));
    forall l | 0 <= l < NUM_LEVELS ensures forall f :: f in v'[l] <==> (f in v[l] || f in st.added[l]) && f.number !in st.deleted[l] {
      forall f ensures f in v'[l] <==> (f in v[l] || f in st.added[l]) && f.number !in st.deleted[l] {
        SurvivorsAreLive(v, deleted, m, files, l, f);
      }
    }
  }

  ghost predicate LevelsDistinct(v: Levels) {
    forall l | 0 <= l < NUM_LEVELS :: InBuilderOrder(v[l]) && DistinctNumbers(v[l])
  }

  lemma FlushSaved(v: Levels, v': Levels, level: nat, f: File)
    requires LevelsDistinct(v) && WithFile(v, v', level, f)
    ensures OneLevelEdit({}, level, [f]).LevelsOk()
    ensures SavedFrom(v, Applied(NO_CHANGES, OneLevelEdit({}, level, [f])), v')
  {
    SavedByEdit(v, v', {}, level, [f]);
  }

  lemma RecoverySaved(v: Levels, v': Levels, files: seq<File>)
    requires LevelsDistinct(v) && WithLevel0Files(v, v', files) && DistinctNumbers(files)
    ensures RecoveryEdit(files).LevelsOk() && SavedFrom(v, Applied(NO_CHANGES, RecoveryEdit(files)), v')
  {
    SavedByEdit(v, v', {}, 0, files);
  }

  lemma MergeDeletes(w: Levels, c: Compaction, outs: seq<File>, l: nat, f: File)
    requires Sound(w) && c.level + 1 < NUM_LEVELS && OutputNumbersOk(w, c, outs) && l < NUM_LEVELS && f in w[l]
    requires (forall g | g in c.inputs0 :: g in w[c.level]) && (forall g | g in c.inputs1 :: g in w[c.level + 1])
    ensures (l, f.number) in MergeEdit(c, outs).deleted <==> (l == c.level && f in c.inputs0) || (l == c.level + 1 && f in c.inputs1)
  {
    if l == c.level { DeletedByNumber(w, c, l, c.inputs0, f); }
    if l == c.level + 1 { DeletedByNumber(w, c, l, c.inputs1, f); }
  }

  lemma MergeSaved(w: Levels, w': Levels, c: Compaction, outs: seq<File>)
    requires Sound(w) && LevelsDistinct(w) && c.level + 1 < NUM_LEVELS && OutputNumbersOk(w, c, outs)
    requires (forall g | g in c.inputs0 :: g in w[c.level]) && (forall g | g in c.inputs1 :: g in w[c.level + 1])
    requires Replaced(w, w', c, outs)
    ensures MergeEdit(c, outs).LevelsOk() && SavedFrom(w, Applied(NO_CHANGES, MergeEdit(c, outs)), w')
  {
    var deleted, m := MergeEdit(c, outs).deleted, c.level + 1;
    hide Sound, InBuilderOrder, DistinctNumbers;
    forall l, f | 0 <= l < NUM_LEVELS
      ensures f in w'[l] <==> Survives(w, deleted, m, outs, l, f)
    {
      if f in w[l] { MergeDeletes(w, c, outs, l, f); }
    }
    SavedByEdit(w, w', deleted, m, outs);
  }

  // ---- the run ----

  predicate Unwritten(s: Db) {
    s.commit.Commit? && !s.commit.written
  }

  /** The outputs of a compaction whose edit is not recorded yet. */
  ghost predicate OutputsUnused(st: LevelStates, job: Option<Job>, commit: Commit)
    requires ValidStates(st)
  {
    job.Some? && (commit.Commit? ==> commit.ofFlush) ==> forall n | n in job.value.outputs :: NotUsed(st, n)
  }

  /** The recorded edits make up the manifest, and the pending one the version to come. */
  ghost predicate ManifestIs(s: Db, edits: seq<FileEdit>, pending: FileEdit) {
    && (forall e | e in edits :: e.LevelsOk())
    && var st := AppliedAll(edits);
       && Follows(st, s.manifest.version, s.manifest.nextFile)
       && (s.flush.Some? ==> NotUsed(st, s.flush.value))
       && OutputsUnused(st, s.job, s.commit)
       && (Unwritten(s) ==>
             && pending.LevelsOk() && Follows(Applied(st, pending), s.commit.record.version, s.commit.record.nextFile)
             && OutputsUnused(Applied(st, pending), s.job, s.commit))
  }

  lemma OneMoreRecord(edits: seq<FileEdit>, e: FileEdit)
    requires (forall x | x in edits :: x.LevelsOk()) && e.LevelsOk()
    ensures (forall x | x in edits + [e] :: x.LevelsOk()) && AppliedAll(edits + [e]) == Applied(AppliedAll(edits), e)
  {
    assert (edits + [e])[..|edits|] == edits;
  }

  /** A commit that is not written yet leaves the manifest saying what memory says. */
  lemma NothingCommitted(s: Db)
    requires Inv(s) && NumbersUnique(s) && s.commit.NoCommit?
    ensures s.manifest.version == s.version && Sound(s.version) && LevelsDistinct(s.version) && s.manifest.nextFile <= s.nextFile
    ensures NumbersBelow(s.version, s.nextFile)
    ensures s.job.Some? ==> Running(s.version, s.job.value.base, s.job.value.c)
  {
  }

  lemma FlushNumbers(s: Db)
    requires Inv(s) && s.flush.Some?
    ensures s.flush.value < s.nextFile && NumbersBelow(s.version, s.flush.value)
    ensures s.job.Some? ==> forall n | n in s.job.value.outputs :: n != s.flush.value
  {
  }

  /** What a commit step changes, apart from the version. */
  ghost predicate Committed(s: Db, s': Db) {
    && s.commit.NoCommit? && Unwritten(s') && s'.manifest == s.manifest && s'.flush.None? && s'.job == s.job
    && s'.commit.record.nextFile == s.nextFile >= s.manifest.nextFile && s.manifest.version == s.version
  }

  lemma CommitFollowed(s: Db, s': Db, edits: seq<FileEdit>, pending: FileEdit, deleted: set<(nat, nat)>, m: nat, files: seq<File>)
    requires ManifestIs(s, edits, pending) && Committed(s, s')
    requires NewToLevel(AppliedAll(edits), m, files, s.nextFile)
    requires OneLevelEdit(deleted, m, files).LevelsOk()
    requires SavedFrom(s.version, Applied(NO_CHANGES, OneLevelEdit(deleted, m, files)), s'.commit.record.version)
    requires forall l, f | 0 <= l < NUM_LEVELS && f in s'.commit.record.version[l] :: InPlace(s.version, m, files, l, f)
    requires s.job.Some? && s'.commit.ofFlush ==> forall n, f | n in s.job.value.outputs && f in files :: f.number != n
    ensures ManifestIs(s', edits, OneLevelEdit(deleted, m, files))
  {
    var st, edit := AppliedAll(edits), OneLevelEdit(deleted, m, files);
    EditFollowed(st, s.version, s.manifest.nextFile, deleted, m, files, s'.commit.record.version, s.nextFile);
    hide Follows, Applied, AppliedAll, SavedFrom, OneLevelEdit;
    if s.job.Some? && s'.commit.ofFlush {
      forall n | n in s.job.value.outputs ensures NotUsed(Applied(st, edit), n) {
        assert NotUsed(st, n);
        forall l, f | 0 <= l < NUM_LEVELS && f in Applied(st, edit).added[l] ensures f.number != n {
          AddedThen(st, deleted, m, files, s.nextFile, l, f);
        }
      }
    }
  }

  /** What a flush commits. */
  lemma FlushCommitted(s: Db, s': Db, level: nat, size: nat)
    requires Inv(s) && NumbersUnique(s) && s'.commit.Commit? && CommitFlush(s, s', s'.commit.record.version, level, size)
    ensures Committed(s, s') && s.imm.Some? && s.flush.Some? && s'.commit.ofFlush
    ensures |s.imm.value| == 0 ==> s'.commit.record.version == s.version
    ensures |s.imm.value| > 0 ==>
              Sorted(s.imm.value) && level < NUM_LEVELS && WithFile(s.version, s'.commit.record.version, level, MakeFile(s.flush.value, size, s.imm.value))
  {
    NothingCommitted(s);
    hide Inv, NumbersUnique;
  }

  lemma SameSaved(v: Levels)
    requires LevelsDistinct(v)
    ensures OneLevelEdit({}, 0, []).LevelsOk() && SavedFrom(v, Applied(NO_CHANGES, OneLevelEdit({}, 0, [])), v)
  {
    SavedByEdit(v, v, {}, 0, []);
  }

  lemma EmptyFlushFollowed(s: Db, s': Db, level: nat, edits: seq<FileEdit>, pending: FileEdit)
    requires ManifestIs(s, edits, pending) && Committed(s, s') && LevelsDistinct(s.version) && s'.commit.record.version == s.version
    ensures ManifestIs(s', edits, FileEdit({}, Tagged(level, [])))
  {
    hide AppliedAll, SavedFrom, Applied, LevelsDistinct, Follows, OutputsUnused;
    SameSaved(s.version);
    NothingIsNew(AppliedAll(edits), s.nextFile);
    CommitFollowed(s, s', edits, pending, {}, 0, []);
    assert Tagged(0, []) == Tagged(level, []);
  }

  lemma NothingIsNew(st: LevelStates, next: nat)
    requires ValidStates(st)
    ensures NewToLevel(st, 0, [], next)
  {
  }

  lemma TableFlushFollowed(s: Db, s': Db, level: nat, f: File, edits: seq<FileEdit>, pending: FileEdit)
    requires ManifestIs(s, edits, pending) && Committed(s, s') && LevelsDistinct(s.version)
    requires level < NUM_LEVELS && WithFile(s.version, s'.commit.record.version, level, f)
    requires s.flush == Some(f.number) && f.number < s.nextFile && NumbersBelow(s.version, f.number)
    requires s.job.Some? ==> forall n | n in s.job.value.outputs :: n != f.number
    ensures ManifestIs(s', edits, FileEdit({}, Tagged(level, [f])))
  {
    FlushIsNew(s, edits, pending, level, f);
    hide AppliedAll, SavedFrom, Applied, ManifestIs, InBuilderOrder, DistinctNumbers, NewToLevel;
    FlushSaved(s.version, s'.commit.record.version, level, f);
    CommitFollowed(s, s', edits, pending, {}, level, [f]);
  }

  lemma FlushIsNew(s: Db, edits: seq<FileEdit>, pending: FileEdit, level: nat, f: File)
    requires ManifestIs(s, edits, pending) && s.flush == Some(f.number) && f.number < s.nextFile && level < NUM_LEVELS
    ensures NewToLevel(AppliedAll(edits), level, [f], s.nextFile)
  {
    assert NotUsed(AppliedAll(edits), f.number);
    hide ManifestIs, AppliedAll;
  }

  lemma FlushFollowed(s: Db, s': Db, level: nat, size: nat, edits: seq<FileEdit>, pending: FileEdit)
    requires Inv(s) && NumbersUnique(s) && s'.commit.Commit? && CommitFlush(s, s', s'.commit.record.version, level, size)
    requires ManifestIs(s, edits, pending)
    ensures ManifestIs(s', edits, StepEdit(s, CommitFlushStep(level, size)))
  {
    hide Inv, NumbersUnique, Sound, Running, CommitFlush, ManifestIs, Sorted, WithFile, LevelsDistinct, NumbersBelow;
    FlushCommitted(s, s', level, size);
    NothingCommitted(s);
    FlushNumbers(s);
    if |s.imm.value| == 0 {
      EmptyFlushFollowed(s, s', level, edits, pending);
    } else {
      TableFlushFollowed(s, s', level, MakeFile(s.flush.value, size, s.imm.value), edits, pending);
    }
  }

  lemma MergeCommitted(s: Db, s': Db, es: seq<Entry>, runs: seq<seq<Entry>>, outs: seq<File>)
    requires Inv(s) && NumbersUnique(s) && s'.commit.Commit? && CommitMerge(s, s', s'.commit.record.version, es, runs, outs)
    ensures Committed(s, s') && !s'.commit.ofFlush && s.job.Some? && Inside(s.job.value.c, s.version)
    ensures Replaced(s.version, s'.commit.record.version, s.job.value.c, outs)
    ensures |outs| == |s.job.value.outputs| && forall i | 0 <= i < |outs| :: outs[i].number == s.job.value.outputs[i]
    ensures NoRepeats(s.job.value.outputs) && Unused(s.version, s.job.value.outputs) && forall n | n in s.job.value.outputs :: n < s.nextFile
  {
    NothingCommitted(s);
    hide Inv, NumbersUnique, Replaced, Resurrected, Flatten;
    OutputsAreNew(s);
  }

  lemma OutputsAreNew(s: Db)
    requires Inv(s) && NumbersUnique(s) && s.job.Some?
    ensures NoRepeats(s.job.value.outputs) && Unused(s.version, s.job.value.outputs) && forall n | n in s.job.value.outputs :: n < s.nextFile
  {
  }

  lemma NumberedOuts(v: Levels, outs: seq<File>, ns: seq<nat>, l: nat)
    requires |outs| == |ns| && (forall i | 0 <= i < |outs| :: outs[i].number == ns[i]) && NoRepeats(ns) && Unused(v, ns) && l < NUM_LEVELS
    ensures DistinctNumbers(outs) && forall f, g | f in outs && g in v[l] :: f.number != g.number
    ensures forall f | f in outs :: f.number in ns
  {
    forall f | f in outs ensures f.number in ns && forall g | g in v[l] :: f.number != g.number {
      var i :| 0 <= i < |outs| && outs[i] == f;
      assert ns[i] in ns;
      assert forall g | g in v[l] :: g.number in FileNumbers(v);
    }
  }

  lemma OutputsAreNewToLevel(st: LevelStates, outs: seq<File>, ns: seq<nat>, m: nat, next: nat)
    requires ValidStates(st) && m < NUM_LEVELS && DistinctNumbers(outs)
    requires forall f | f in outs :: f.number in ns
    requires forall n | n in ns :: NotUsed(st, n) && n < next
    ensures NewToLevel(st, m, outs, next)
  {
  }

  /** After a merge a file is an output, or lies where it lay and shares no number with one. */
  lemma MergedLie(v: Levels, v': Levels, c: Compaction, outs: seq<File>, l: nat, f: File)
    requires c.level + 1 < NUM_LEVELS && Replaced(v, v', c, outs) && l < NUM_LEVELS && f in v'[l]
    requires forall g, h | g in outs && h in v[l] :: g.number != h.number
    ensures InPlace(v, c.level + 1, outs, l, f)
  {
  }

  lemma UnusedNow(s: Db, edits: seq<FileEdit>, pending: FileEdit)
    requires ManifestIs(s, edits, pending) && s.job.Some? && s.commit.NoCommit?
    ensures forall n | n in s.job.value.outputs :: NotUsed(AppliedAll(edits), n)
  {
    hide Follows, AppliedAll;
  }

  lemma MergeFollowed(s: Db, s': Db, es: seq<Entry>, runs: seq<seq<Entry>>, outs: seq<File>, edits: seq<FileEdit>, pending: FileEdit)
    requires Inv(s) && NumbersUnique(s) && s'.commit.Commit? && CommitMerge(s, s', s'.commit.record.version, es, runs, outs)
    requires ManifestIs(s, edits, pending)
    ensures ManifestIs(s', edits, StepEdit(s, CommitMergeStep(es, runs, outs)))
  {
    hide Inv, NumbersUnique, Running, CommitMerge, AppliedAll, SavedFrom, Applied, InBuilderOrder, Unused, DistinctNumbers, Sound, FileNumbers,
      Follows, Replaced, OutputsUnused, LevelsDistinct, NotUsed, NewToLevel, UniqueNumbers, NumbersBelow;
    MergeCommitted(s, s', es, runs, outs);
    NothingCommitted(s);
    UnusedNow(s, edits, pending);
    var v, v', c, ns := s.version, s'.commit.record.version, s.job.value.c, s.job.value.outputs;
    forall l | 0 <= l < NUM_LEVELS ensures forall f, g | f in outs && g in v[l] :: f.number != g.number { NumberedOuts(v, outs, ns, l); }
    NumberedOuts(v, outs, ns, 0);
    OutputsAreNewToLevel(AppliedAll(edits), outs, ns, c.level + 1, s.nextFile);
    forall l, f | 0 <= l < NUM_LEVELS && f in v'[l]
      ensures InPlace(v, c.level + 1, outs, l, f)
    {
      MergedLie(v, v', c, outs, l, f);
    }
    MergeSaved(v, v', c, outs);
    CommitFollowed(s, s', edits, pending, MergeEdit(c, outs).deleted, c.level + 1, outs);
  }

  lemma MoveCommitted(s: Db, s': Db)
    requires Inv(s) && NumbersUnique(s) && s'.commit.Commit? && CommitMove(s, s', s'.commit.record.version)
    ensures Committed(s, s') && !s'.commit.ofFlush && s.job.Some? && Inside(s.job.value.c, s.version) && |s.job.value.c.inputs0| == 1
    ensures Replaced(s.version, s'.commit.record.version, s.job.value.c, s.job.value.c.inputs0)
  {
    NothingCommitted(s);
    hide Inv, NumbersUnique, Replaced;
  }

  /** A file that moves is new to its level, and leaves the old one. */
  lemma MovedIsNew(s: Db, edits: seq<FileEdit>, pending: FileEdit, c: Compaction, f: File)
    requires ManifestIs(s, edits, pending) && s.manifest.version == s.version && NumbersBelow(s.version, s.nextFile)
    requires c.level + 1 < NUM_LEVELS && f in s.version[c.level] && c.inputs0 == [f]
    ensures NewToLevel(AppliedAll(edits), c.level + 1, c.inputs0, s.nextFile)
  {
    assert Deepest(AppliedAll(edits), c.level, f);
    hide ManifestIs, AppliedAll;
  }

  lemma MovedLie(v: Levels, v': Levels, c: Compaction, f: File, l: nat, g: File)
    requires c.level + 1 < NUM_LEVELS && Replaced(v, v', c, c.inputs0) && UniqueNumbers(v) && l < NUM_LEVELS && g in v'[l]
    requires c.inputs0 == [f] && f in v[c.level]
    ensures InPlace(v, c.level + 1, c.inputs0, l, g)
  {
    assert forall h | h in [f] :: h == f;
    var m := c.level + 1;
    assert g in v'[m] <==> (g in v[m] && g !in c.inputs1) || g in c.inputs0;
    assert g in v'[c.level] <==> g in v[c.level] && g !in c.inputs0;
    if l != m || g != f {
      assert g in v[l];
      assert g.number == f.number ==> l == c.level && g == f;
    }
  }

  lemma MoveFollowed(s: Db, s': Db, edits: seq<FileEdit>, pending: FileEdit)
    requires Inv(s) && NumbersUnique(s) && s'.commit.Commit? && CommitMove(s, s', s'.commit.record.version)
    requires ManifestIs(s, edits, pending)
    ensures ManifestIs(s', edits, StepEdit(s, CommitMoveStep))
  {
    hide Inv, NumbersUnique, Running, CommitMove, AppliedAll, SavedFrom, Applied, InBuilderOrder, DistinctNumbers, FileNumbers,
      Follows, Replaced, OutputsUnused, LevelsDistinct, NotUsed, NewToLevel, UniqueNumbers, NumbersBelow, ManifestIs;
    MoveCommitted(s, s');
    NothingCommitted(s);
    var v, v', c := s.version, s'.commit.record.version, s.job.value.c;
    var f := c.inputs0[0];
    assert c.inputs0 == [f];
    MovedIsNew(s, edits, pending, c, f);
    forall l, g | 0 <= l < NUM_LEVELS && g in v'[l]
      ensures InPlace(v, c.level + 1, c.inputs0, l, g)
    {
      MovedLie(v, v', c, f, l, g);
    }
    MovedNumber(v, c);
    MergeSaved(v, v', c, c.inputs0);
    CommitFollowed(s, s', edits, pending, MergeEdit(c, c.inputs0).deleted, c.level + 1, c.inputs0);
  }

  lemma MovedNumber(w: Levels, c: Compaction)
    requires UniqueNumbers(w) && c.level + 1 < NUM_LEVELS && |c.inputs0| == 1 && c.inputs0[0] in w[c.level]
    ensures OutputNumbersOk(w, c, c.inputs0)
  {
  }

  // ---- the other steps ----

  /** What ManifestIs looks at. */
  predicate SameForManifest(s: Db, s': Db) {
    s'.manifest == s.manifest && s'.flush == s.flush && s'.commit == s.commit && s'.job == s.job
  }

  lemma NoFlushBesideCommit(s: Db)
    requires Inv(s) && s.commit.Commit?
    ensures s.flush.None?
  {
  }

  lemma WriteFollowed(s: Db, s': Db, edits: seq<FileEdit>, pending: FileEdit)
    requires Inv(s) && WriteRecord(s, s') && ManifestIs(s, edits, pending)
    ensures ManifestIs(s', edits + [pending], pending)
  {
    hide Inv, Follows, OutputsUnused, NotUsed, AppliedAll, Applied;
    NoFlushBesideCommit(s);
    OneMoreRecord(edits, pending);
    SameOutputs(AppliedAll(edits + [pending]), s.job, s.commit, s'.commit);
  }

  lemma SameOutputs(st: LevelStates, job: Option<Job>, commit: Commit, commit': Commit)
    requires ValidStates(st) && commit.Commit? && commit'.Commit? && commit.ofFlush == commit'.ofFlush && OutputsUnused(st, job, commit)
    ensures OutputsUnused(st, job, commit')
  {
  }

  lemma InstallFollowed(s: Db, s': Db, edits: seq<FileEdit>, pending: FileEdit)
    requires InstallVersion(s, s') && ManifestIs(s, edits, pending)
    ensures ManifestIs(s', edits, pending)
  {
    hide Follows, NotUsed, AppliedAll, Applied;
  }

  lemma NextNumberIsUnused(st: LevelStates, v: Levels, next: nat, n: nat)
    requires Follows(st, v, next) && next <= n
    ensures NotUsed(st, n)
  {
  }

  lemma StartFlushFollowed(s: Db, s': Db, edits: seq<FileEdit>, pending: FileEdit)
    requires Inv(s) && NumbersUnique(s) && StartFlush(s, s') && ManifestIs(s, edits, pending)
    ensures ManifestIs(s', edits, pending)
  {
    hide Inv, NumbersUnique, Follows, NotUsed, AppliedAll, Applied;
    NothingCommitted(s);
    NextNumberIsUnused(AppliedAll(edits), s.manifest.version, s.manifest.nextFile, s.nextFile);
  }

  lemma OpenOutputFollowed(s: Db, s': Db, edits: seq<FileEdit>, pending: FileEdit)
    requires Inv(s) && NumbersUnique(s) && OpenOutput(s, s') && ManifestIs(s, edits, pending)
    ensures ManifestIs(s', edits, pending)
  {
    hide Inv, NumbersUnique, Follows, NotUsed, AppliedAll, Applied;
    NothingCommitted(s);
    NextNumberIsUnused(AppliedAll(edits), s.manifest.version, s.manifest.nextFile, s.nextFile);
  }

  lemma StartCompactionFollowed(s: Db, s': Db, c: Compaction, edits: seq<FileEdit>, pending: FileEdit)
    requires StartCompaction(s, s', c) && ManifestIs(s, edits, pending)
    ensures ManifestIs(s', edits, pending)
  {
    hide Follows, NotUsed, AppliedAll, Applied, Selected, NoHarmfulGap;
  }

  // ---- crashes ----

  lemma ManifestIsSound(s: Db)
    requires Inv(s) && NumbersUnique(s)
    ensures LevelsDistinct(s.manifest.version) && NumbersBelow(s.manifest.version, s.manifest.nextFile)
  {
    ManifestHolds(s);
  }

  lemma RecoveredFiles(blocks: seq<seq<Entry>>, files: seq<File>, lo: nat, hi: nat)
    requires TablesOfBlocks(blocks, files, lo, hi)
    ensures DistinctNumbers(files) && forall f | f in files :: lo <= f.number < hi
  {
    forall f | f in files ensures lo <= f.number < hi {
      var i :| 0 <= i < |files| && files[i] == f;
    }
  }

  lemma RecoveredLie(v: Levels, v': Levels, files: seq<File>, lo: nat, l: nat, f: File)
    requires WithLevel0Files(v, v', files) && NumbersBelow(v, lo) && l < NUM_LEVELS && f in v'[l]
    requires forall g | g in files :: lo <= g.number
    ensures InPlace(v, 0, files, l, f)
  {
  }

  lemma RecoveryIsNew(st: LevelStates, v: Levels, files: seq<File>, lo: nat, hi: nat)
    requires Follows(st, v, lo) && DistinctNumbers(files) && forall f | f in files :: lo <= f.number < hi
    ensures NewToLevel(st, 0, files, hi)
  {
  }

  lemma RecoveryFollowed(st: LevelStates, m: Manifest, v': Levels, blocks: seq<seq<Entry>>, files: seq<File>, next: nat)
    requires Follows(st, m.version, m.nextFile) && LevelsDistinct(m.version) && NumbersBelow(m.version, m.nextFile)
    requires WithLevel0Files(m.version, v', files) && TablesOfBlocks(blocks, files, m.nextFile, next) && m.nextFile <= next
    ensures RecoveryEdit(files).LevelsOk() && Follows(Applied(st, RecoveryEdit(files)), v', next)
  {
    hide Follows, Applied, SavedFrom, WithLevel0Files, TablesOfBlocks, LevelsDistinct, NumbersBelow, DistinctNumbers, NewToLevel, InPlace;
    RecoveredFiles(blocks, files, m.nextFile, next);
    RecoverySaved(m.version, v', files);
    RecoveryIsNew(st, m.version, files, m.nextFile, next);
    forall l, f | 0 <= l < NUM_LEVELS && f in v'[l] ensures InPlace(m.version, 0, files, l, f) {
      RecoveredLie(m.version, v', files, m.nextFile, l, f);
    }
    StillFollowed(st);
    EditFollowed(st, m.version, m.nextFile, {}, 0, files, v', next);
  }

  lemma StillFollowed(st: LevelStates)
    ensures forall v, next | Follows(st, v, next) :: ValidStates(st)
  {
  }

  lemma CrashFollowed(s: Db, s': Db, p: Plan, edits: seq<FileEdit>, pending: FileEdit)
    requires Inv(s) && NumbersUnique(s) && CrashRecover(s, s', p) && ManifestIs(s, edits, pending)
    ensures ManifestIs(s', if p.save then edits + [RecoveryEdit(p.files)] else edits, pending)
  {
    hide Inv, NumbersUnique, LogsOnDisk, RecoveredLog, Replay, Flatten, MaxSequence, ManifestCovers, Follows, NotUsed, AppliedAll, Applied,
      WithLevel0Files, TablesOfBlocks, LevelsDistinct, NumbersBelow;
    ManifestIsSound(s);
    if p.save {
      RecoveryFollowed(AppliedAll(edits), s.manifest, s'.version, p.blocks, p.files, s'.nextFile);
      OneMoreRecord(edits, RecoveryEdit(p.files));
    }
  }

  lemma StepFollowed(s: Db, step: Step, s': Db, edits: seq<FileEdit>, pending: FileEdit)
    requires Inv(s) && NumbersUnique(s) && Next(s, step, s') && ManifestIs(s, edits, pending)
    ensures ManifestIs(s', EditsAfter(s, step, edits, pending), if Commits(step) then StepEdit(s, step) else pending)
  {
    hide Inv, NumbersUnique, ManifestIs, CommitFlush, CommitMerge, CommitMove, WriteRecord, InstallVersion, StartFlush, OpenOutput, StartCompaction, CrashRecover, TornCrash;
    match step
    case CommitFlushStep(level, size) => FlushFollowed(s, s', level, size, edits, pending);
    case CommitMergeStep(es, runs, outs) => MergeFollowed(s, s', es, runs, outs, edits, pending);
    case CommitMoveStep => MoveFollowed(s, s', edits, pending);
    case WriteRecordStep => WriteFollowed(s, s', edits, pending);
    case InstallStep => InstallFollowed(s, s', edits, pending);
    case StartFlushStep => StartFlushFollowed(s, s', edits, pending);
    case OpenOutputStep => OpenOutputFollowed(s, s', edits, pending);
    case StartCompactionStep(c) => StartCompactionFollowed(s, s', c, edits, pending);
    case CrashStep(plan) => CrashFollowed(s, s', plan, edits, pending);
    case TornCrashStep(plan, tear) => TornCrashFollowed(s, s', plan, tear, edits, pending);
    case _ => QuietFollowed(s, step, s', edits, pending);
  }

  /** The manifest after one more step. */
  function EditsAfter(s: Db, step: Step, edits: seq<FileEdit>, pending: FileEdit): seq<FileEdit> {
    if step.WriteRecordStep? then edits + [pending]
    else if Recovers(step) then edits + [StepEdit(s, step)]
    else edits
  }

  lemma TornCrashFollowed(s: Db, s': Db, p: Plan, t: Tear, edits: seq<FileEdit>, pending: FileEdit)
    requires Inv(s) && NumbersUnique(s) && TornCrash(s, s', p, t) && ManifestIs(s, edits, pending)
    ensures ManifestIs(s', if p.save then edits + [RecoveryEdit(p.files)] else edits, pending)
  {
    hide Inv, CrashRecover, Follows, AppliedAll, Applied;
    CutOffHolds(s);
    CrashFollowed(CutOff(s), s', p, edits, pending);
  }

  /** Writers, readers, snapshots and garbage collection leave the manifest alone. */
  lemma QuietFollowed(s: Db, step: Step, s': Db, edits: seq<FileEdit>, pending: FileEdit)
    requires Next(s, step, s') && ManifestIs(s, edits, pending)
    requires !Commits(step) && !Crashes(step) && !step.WriteRecordStep? && !step.InstallStep? && !step.StartFlushStep?
    requires !step.OpenOutputStep? && !step.StartCompactionStep?
    ensures ManifestIs(s', edits, pending)
  {
    hide Follows, AppliedAll, Applied, NotUsed, OutputsUnused, CommitFlush, CommitMerge, CommitMove, WriteRecord, InstallVersion, StartFlush, OpenOutput,
      StartCompaction, CrashRecover, TornCrash;
    assert SameForManifest(s, s');
  }

  lemma NothingRecorded(s: Db)
    requires Init(s)
    ensures ManifestIs(s, [], NO_EDIT)
  {
    NothingFollowed(s.manifest.nextFile);
    hide Follows;
  }

  lemma {:induction false} ManifestIsFollowed(states: seq<Db>, steps: seq<Step>, i: nat)
    requires IsRun(states, steps) && i < |states|
    ensures ManifestIs(states[i], Recorded(states, steps, i), PendingEdit(states, steps, i))
  {
    hide Inv, NumbersUnique, ManifestIs, Next, Init;
    if i == 0 {
      NothingRecorded(states[0]);
    } else {
      ManifestIsFollowed(states, steps, i - 1);
      EveryReachableStateHolds(states, steps, i - 1);
      NumbersAreNeverReused(states, steps, i - 1);
      StepFollowed(states[i - 1], steps[i - 1], states[i], Recorded(states, steps, i - 1), PendingEdit(states, steps, i - 1));
    }
  }

  /** What one builder makes of all edits recorded so far, in whatever state of whatever run,
      is the version of the manifest. */
  lemma RecordedEditsRebuild(states: seq<Db>, steps: seq<Step>, i: nat, v: Levels)
    requires IsRun(states, steps) && i < |states|
    ensures forall e | e in Recorded(states, steps, i) :: e.LevelsOk()
    ensures SavedFrom(EMPTY, AppliedAll(Recorded(states, steps, i)), v) ==> v == states[i].manifest.version
  {
    ManifestIsFollowed(states, steps, i);
    hide IsRun, AppliedAll;
    if SavedFrom(EMPTY, AppliedAll(Recorded(states, steps, i)), v) {
      TrackedIsSaved(AppliedAll(Recorded(states, steps, i)), states[i].manifest.version, v);
    }
  }

  lemma TrackedIsSaved(st: LevelStates, v: Levels, u: Levels)
    requires ValidStates(st) && Tracks(EMPTY, st, v) && SavedFrom(EMPTY, st, u)
    ensures u == v
  {
    forall l | 0 <= l < NUM_LEVELS ensures u[l] == v[l] {
      ApartIsDistinct(EMPTY[l], st.added[l]);
      SameFilesSameLevel(u[l], v[l]);
    }
  }

  /** A table number is recorded for a level at most once, and a table lies as deep as its
      number was ever recorded. */
  lemma NumbersOnlyDescend(states: seq<Db>, steps: seq<Step>, i: nat, l: nat, f: File, m: nat, g: File)
    requires IsRun(states, steps) && i < |states| && l < NUM_LEVELS && f in states[i].manifest.version[l]
    requires (forall e | e in Recorded(states, steps, i) :: e.LevelsOk())
    requires m < NUM_LEVELS && g in AppliedAll(Recorded(states, steps, i)).added[m] && g.number == f.number
    ensures m <= l
  {
    ManifestIsFollowed(states, steps, i);
  }
}
