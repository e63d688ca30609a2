/** No table number is ever in use twice: not on two levels, not for two tables, not by a
    compaction output and a live table (db/version_set.h, NewFileNumber). */
module FileNumbering {
  import opened DbFormat
  import opened Entries
  import opened Versions
  import opened CompactionInputs
  import opened CompactionWork
  import opened Install
  import opened Store
  import opened StoreInvariant
  import opened CrashSafety
  import opened Runs

  predicate UniqueNumbers(v: Levels) {
    forall l, m, f, g | 0 <= l < NUM_LEVELS && 0 <= m < NUM_LEVELS && f in v[l] && g in v[m] && f.number == g.number :: l == m && f == g
  }

  predicate NoRepeats(ns: seq<nat>) {
    forall i, j | 0 <= i < j < |ns| :: ns[i] != ns[j]
  }

  predicate Unused(v: Levels, ns: seq<nat>) {
    forall n | n in ns :: n !in FileNumbers(v)
  }

  ghost predicate NumbersUnique(s: Db) {
    && UniqueNumbers(s.version) && UniqueNumbers(s.manifest.version)
    && (s.commit.Commit? ==> UniqueNumbers(s.commit.record.version))
    && (s.job.Some? ==>
          && NoRepeats(s.job.value.outputs) && Unused(s.version, s.job.value.outputs)
          && (s.commit.Commit? && s.commit.ofFlush ==> Unused(s.commit.record.version, s.job.value.outputs)))
  }

  /** Files with numbers of their own may join a level. */
  lemma JoinedUnique(v: Levels, v': Levels, m: nat, files: seq<File>)
    requires UniqueNumbers(v)
    requires forall l, f | 0 <= l < NUM_LEVELS && f in v'[l] :: f in v[l] || (l == m && f in files)
    requires forall l, f, g | 0 <= l < NUM_LEVELS && f in v[l] && g in files :: f.number != g.number
    requires forall f, g | f in files && g in files && f.number == g.number :: f == g
    ensures UniqueNumbers(v')
  {
  }

  lemma WithFileUnique(v: Levels, v': Levels, m: nat, f: File)
    requires UniqueNumbers(v) && WithFile(v, v', m, f) && f.number !in FileNumbers(v)
    ensures UniqueNumbers(v')
  {
    forall l, g | 0 <= l < NUM_LEVELS && g in v'[l] ensures g in v[l] || (l == m && g in [f]) {}
    forall l, g | 0 <= l < NUM_LEVELS && g in v[l] ensures g.number != f.number {
      assert g.number in FileNumbers(v);
    }
    JoinedUnique(v, v', m, [f]);
  }

  lemma WithFileUnused(v: Levels, v': Levels, m: nat, f: File, ns: seq<nat>)
    requires WithFile(v, v', m, f) && Unused(v, ns) && f.number !in ns
    ensures Unused(v', ns)
  {
    WithFileEntries(v, v', m, f);
  }

  lemma ReplacedUnique(w: Levels, w': Levels, c: Compaction, outs: seq<File>, ns: seq<nat>)
    requires c.level + 1 < NUM_LEVELS && Replaced(w, w', c, outs) && UniqueNumbers(w)
    requires |outs| == |ns| && NoRepeats(ns) && Unused(w, ns)
    requires forall i | 0 <= i < |outs| :: outs[i].number == ns[i]
    ensures UniqueNumbers(w')
  {
    forall l, f | 0 <= l < NUM_LEVELS && f in w'[l] ensures f in w[l] || (l == c.level + 1 && f in outs) {}
    forall l, f, g | 0 <= l < NUM_LEVELS && f in w[l] && g in outs ensures f.number != g.number {
      assert f.number in FileNumbers(w);
      var i :| 0 <= i < |outs| && outs[i] == g;
      assert ns[i] in ns;
    }
    forall f, g | f in outs && g in outs && f.number == g.number ensures f == g {
      var i :| 0 <= i < |outs| && outs[i] == f;
      var j :| 0 <= j < |outs| && outs[j] == g;
      assert i == j;
    }
    JoinedUnique(w, w', c.level + 1, outs);
  }

  lemma OneLevelOnly(w: Levels, l: nat, m: nat, f: File)
    requires UniqueNumbers(w) && l < NUM_LEVELS && m < NUM_LEVELS && f in w[l] && f in w[m]
    ensures l == m
  {
  }

  /** Where a file of the new version lay before the move. */
  lemma MovedFrom(w: Levels, w': Levels, c: Compaction, l: nat, f: File)
    requires c.level + 1 < NUM_LEVELS && Replaced(w, w', c, c.inputs0) && UniqueNumbers(w)
    requires forall f | f in c.inputs0 :: f in w[c.level]
    requires l < NUM_LEVELS && f in w'[l]
    ensures if f in c.inputs0 then l == c.level + 1 && f in w[c.level] else f in w[l]
  {
    if f in c.inputs0 && l != c.level + 1 && l != c.level {
      OneLevelOnly(w, l, c.level, f);
      assert false;
    }
  }

  /** A moved file leaves its level. */
  lemma MovedUnique(w: Levels, w': Levels, c: Compaction)
    requires c.level + 1 < NUM_LEVELS && Replaced(w, w', c, c.inputs0) && UniqueNumbers(w)
    requires forall f | f in c.inputs0 :: f in w[c.level]
    ensures UniqueNumbers(w')
  {
    forall l, m, f, g | 0 <= l < NUM_LEVELS && 0 <= m < NUM_LEVELS && f in w'[l] && g in w'[m] && f.number == g.number
      ensures l == m && f == g
    {
      MovedFrom(w, w', c, l, f);
      MovedFrom(w, w', c, m, g);
      hide Replaced;
      var fl, gl := if f in c.inputs0 then c.level else l, if g in c.inputs0 then c.level else m;
      assert f in w[fl] && g in w[gl];
    }
  }

  lemma RecoveredUnique(v: Levels, v': Levels, blocks: seq<seq<Entry>>, files: seq<File>, lo: nat, hi: nat)
    requires UniqueNumbers(v) && NumbersBelow(v, lo)
    requires TablesOfBlocks(blocks, files, lo, hi) && WithLevel0Files(v, v', files)
    ensures UniqueNumbers(v')
  {
    forall f | f in files ensures f.number >= lo {
      var i :| 0 <= i < |files| && files[i] == f;
    }
    RisingNumbers(files);
    forall l, f | 0 <= l < NUM_LEVELS && f in v'[l] ensures f in v[l] || (l == 0 && f in files) {}
    JoinedUnique(v, v', 0, files);
  }

  lemma RisingNumbers(files: seq<File>)
    requires forall i, j | 0 <= i < j < |files| :: files[i].number < files[j].number
    ensures forall f, g | f in files && g in files && f.number == g.number :: f == g
  {
    forall f, g | f in files && g in files && f.number == g.number ensures f == g {
      var i :| 0 <= i < |files| && files[i] == f;
      var j :| 0 <= j < |files| && files[j] == g;
      if i < j { assert files[i].number < files[j].number; }
      if j < i { assert files[j].number < files[i].number; }
    }
  }

  lemma NextFileIsUnused(v: Levels, n: nat)
    requires NumbersBelow(v, n)
    ensures n !in FileNumbers(v)
  {
  }

  lemma FlushStaysUnique(s: Db, s': Db, level: nat, size: nat)
    requires Inv(s) && NumbersUnique(s) && s'.commit.Commit? && CommitFlush(s, s', s'.commit.record.version, level, size)
    ensures NumbersUnique(s')
  {
    var n, es := s.flush.value, s.imm.value;
    NextFileIsUnused(s.version, n);
    if |es| > 0 {
      var f := MakeFile(n, size, es);
      WithFileUnique(s.version, s'.commit.record.version, level, f);
      if s.job.Some? { WithFileUnused(s.version, s'.commit.record.version, level, f, s.job.value.outputs); }
    }
  }

  lemma MergeStaysUnique(s: Db, s': Db, es: seq<Entry>, runs: seq<seq<Entry>>, outs: seq<File>)
    requires NumbersUnique(s) && s'.commit.Commit? && CommitMerge(s, s', s'.commit.record.version, es, runs, outs)
    ensures NumbersUnique(s')
  {
    ReplacedUnique(s.version, s'.commit.record.version, s.job.value.c, outs, s.job.value.outputs);
  }

  lemma MoveStaysUnique(s: Db, s': Db)
    requires Inv(s) && NumbersUnique(s) && s'.commit.Commit? && CommitMove(s, s', s'.commit.record.version)
    ensures NumbersUnique(s')
  {
    MovedUnique(s.version, s'.commit.record.version, s.job.value.c);
  }

  lemma OpenOutputStaysUnique(s: Db, s': Db)
    requires Inv(s) && NumbersUnique(s) && OpenOutput(s, s')
    ensures NumbersUnique(s')
  {
    NextFileIsUnused(s.version, s.nextFile);
    assert s.nextFile !in s.job.value.outputs;
  }

  lemma CrashStaysUnique(s: Db, s': Db, p: Plan)
    requires Inv(s) && NumbersUnique(s) && CrashRecover(s, s', p)
    ensures NumbersUnique(s')
  {
    ManifestHolds(s);
    RecoveredUnique(s.manifest.version, s'.version, p.blocks, p.files, s.manifest.nextFile, s'.nextFile);
  }

  lemma TornCrashStaysUnique(s: Db, s': Db, p: Plan, t: Tear)
    requires Inv(s) && NumbersUnique(s) && TornCrash(s, s', p, t)
    ensures NumbersUnique(s')
  {
    hide Inv, CrashRecover;
    CutOffHolds(s);
    CrashStaysUnique(CutOff(s), s', p);
  }

  lemma NextStaysUnique(s: Db, step: Step, s': Db)
    requires Inv(s) && NumbersUnique(s) && Next(s, step, s')
    ensures NumbersUnique(s')
  {
    hide Inv, NumbersUnique, CommitFlush, OpenOutput, CommitMerge, CommitMove, CrashRecover, TornCrash;
    match step
    case CommitFlushStep(level, size) => FlushStaysUnique(s, s', level, size);
    case OpenOutputStep => OpenOutputStaysUnique(s, s');
    case CommitMergeStep(es, runs, outs) => MergeStaysUnique(s, s', es, runs, outs);
    case CommitMoveStep => MoveStaysUnique(s, s');
    case CrashStep(plan) => CrashStaysUnique(s, s', plan);
    case TornCrashStep(plan, tear) => TornCrashStaysUnique(s, s', plan, tear);
    case _ => OtherStepsStayUnique(s, step, s');
  }

  lemma OtherStepsStayUnique(s: Db, step: Step, s': Db)
    requires Inv(s) && NumbersUnique(s) && Next(s, step, s')
    requires !step.CommitFlushStep? && !step.OpenOutputStep? && !step.CommitMergeStep? && !step.CommitMoveStep?
    requires !step.CrashStep? && !step.TornCrashStep?
    ensures NumbersUnique(s')
  {
    hide Inv, UniqueNumbers, NoRepeats, Unused, CommitFlush, OpenOutput, CommitMerge, CommitMove, CrashRecover, TornCrash;
    if step.StartCompactionStep? { NothingOpened(s.version); }
  }

  lemma NothingOpened(v: Levels)
    ensures NoRepeats([]) && Unused(v, [])
  {
  }

  lemma InitIsUnique(s: Db)
    requires Init(s)
    ensures NumbersUnique(s)
  {
  }

  /** In every state of every run, a table number stands for one table on one level. */
  lemma {:induction false} NumbersAreNeverReused(states: seq<Db>, steps: seq<Step>, i: nat)
    requires IsRun(states, steps) && i < |states|
    ensures NumbersUnique(states[i])
  {
    hide Inv, NumbersUnique, Next, Init;
    if i == 0 {
      InitIsUnique(states[0]);
    } else {
      NumbersAreNeverReused(states, steps, i - 1);
      EveryReachableStateHolds(states, steps, i - 1);
      NextStaysUnique(states[i - 1], steps[i - 1], states[i]);
    }
  }
}
