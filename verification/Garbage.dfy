/** What DeleteObsoleteFiles leaves (db/db_impl.cc): pending_outputs_ holds the numbers of
    outputs under way and no others, so that no table outlives its use. */
module Garbage {
  import opened DbFormat
  import opened Entries
  import opened Versions
  import opened CompactionInputs
  import opened Install
  import opened Store
  import opened StoreInvariant
  import opened CrashSafety
  import opened Runs

  /** The tables being written: by a flush, and by a compaction. */
  function UnderWay(flush: Option<nat>, job: Option<Job>): set<nat> {
    (if flush.Some? then {flush.value} else {}) + (if job.Some? then set n | n in job.value.outputs else {})
  }

  predicate PendingExact(s: Db) {
    s.pending == UnderWay(s.flush, s.job)
  }

  lemma OneMoreOutput(outputs: seq<nat>, n: nat)
    ensures (set m | m in outputs + [n]) == (set m | m in outputs) + {n}
  {
  }

  lemma FlushIsNoOutput(s: Db)
    requires Inv(s)
    ensures s.flush.Some? && s.job.Some? ==> s.flush.value !in s.job.value.outputs
  {
  }

  lemma CommitsAlone(s: Db)
    requires Inv(s) && s.commit.Commit?
    ensures s.flush.None? && (!s.commit.ofFlush ==> s.job.Some?)
  {
  }

  predicate Touches(step: Step) {
    step.StartFlushStep? || step.CommitFlushStep? || step.InstallStep? || step.StartCompactionStep? || step.OpenOutputStep? || Crashes(step)
  }

  lemma LeavesPending(s: Db, step: Step, s': Db)
    requires Next(s, step, s') && !Touches(step)
    ensures s'.pending == s.pending && s'.flush == s.flush && s'.job == s.job
  {
    hide MergeOutputs, Replaced, Resurrected;
  }

  lemma FlushKeepsPending(s: Db, step: Step, s': Db)
    requires PendingExact(s) && Next(s, step, s') && (step.StartFlushStep? || step.CommitFlushStep?)
    requires s.flush.Some? && s.job.Some? ==> s.flush.value !in s.job.value.outputs
    ensures PendingExact(s')
  {
    hide FlushedVersion;
  }

  lemma JobKeepsPending(s: Db, step: Step, s': Db)
    requires PendingExact(s) && Next(s, step, s') && (step.StartCompactionStep? || step.OpenOutputStep?)
    ensures PendingExact(s')
  {
    hide Selected, NoHarmfulGap;
    if step.OpenOutputStep? { OneMoreOutput(s.job.value.outputs, s.nextFile); }
  }

  lemma InstallKeepsPending(s: Db, s': Db)
    requires PendingExact(s) && Next(s, InstallStep, s')
    requires s.flush.None? && (!s.commit.ofFlush ==> s.job.Some?)
    ensures PendingExact(s')
  {
  }

  /** No step forgets a number that is under way, or keeps one that is not. */
  lemma StepKeepsPending(s: Db, step: Step, s': Db)
    requires Inv(s) && PendingExact(s) && Next(s, step, s')
    ensures PendingExact(s')
  {
    FlushIsNoOutput(s);
    if s.commit.Commit? { CommitsAlone(s); }
    var commits := step.InstallStep? ==> s.commit.Commit?;
    assert commits;
    hide Inv, Next, PendingAfter;
    if Crashes(step) {
      RecoveryIsQuiet(s, step, s');
    } else if step.StartFlushStep? || step.CommitFlushStep? {
      FlushKeepsPending(s, step, s');
    } else if step.StartCompactionStep? || step.OpenOutputStep? {
      JobKeepsPending(s, step, s');
    } else if step.InstallStep? {
      InstallKeepsPending(s, s');
    } else {
      LeavesPending(s, step, s');
    }
  }

  lemma RecoveryIsQuiet(s: Db, step: Step, s': Db)
    requires Next(s, step, s') && Crashes(step)
    ensures s'.pending == {} && s'.flush.None? && s'.job.None?
  {
  }

  lemma {:induction false} PendingIsExact(states: seq<Db>, steps: seq<Step>, i: nat)
    requires IsRun(states, steps) && i < |states|
    ensures PendingExact(states[i])
  {
    hide Inv, Next;
    if i > 0 {
      PendingIsExact(states, steps, i - 1);
      EveryReachableStateHolds(states, steps, i - 1);
      StepKeepsPending(states[i - 1], steps[i - 1], states[i]);
    }
  }

  lemma {:induction false} PathKeepsPending(states: seq<Db>, steps: seq<Step>, i: nat)
    requires IsPath(states, steps) && i < |states| && Inv(states[0]) && PendingExact(states[0])
    ensures PendingExact(states[i])
  {
    hide Inv, Next, PendingExact;
    if i > 0 {
      PathKeepsPending(states, steps, i - 1);
      PathHolds(states, steps, i - 1);
      StepKeepsPending(states[i - 1], steps[i - 1], states[i]);
    }
  }

  lemma ReachedPending(s: Db, s': Db)
    requires Inv(s) && PendingExact(s) && Reaches(s, s')
    ensures PendingExact(s')
  {
    hide Inv, Next, PendingExact;
    var states, steps :| IsPath(states, steps) && states[0] == s && states[|steps|] == s';
    PathKeepsPending(states, steps, |steps|);
  }

  // ---- what is left ----

  /** The logs still needed, and the tables of versions somebody reads or that are being
      written. */
  ghost predicate Tidy(s: Db) {
    && (forall n | n in s.logs :: n >= s.logNumber)
    && s.tables <= s.pending + LiveTables(s)
  }

  lemma CollectedIsTidy(s: Db, s': Db)
    requires Next(s, CollectStep, s')
    ensures Tidy(s')
  {
  }

  /** In every run: once DeleteObsoleteFiles has gone over an idle store without readers, its
      tables are those of the current version. */
  lemma IdleStoreIsClean(states: seq<Db>, steps: seq<Step>, i: nat)
    requires IsRun(states, steps) && i < |steps| && steps[i].CollectStep?
    requires states[i].job.None? && states[i].pinned == []
    ensures states[i + 1].tables == FileNumbers(states[i + 1].version)
  {
    hide Inv, FileNumbers;
    var s, s' := states[i], states[i + 1];
    PendingIsExact(states, steps, i);
    EveryReachableStateHolds(states, steps, i + 1);
    assert Next(s, CollectStep, s');
    TablesAreThere(s');
    assert forall v | v in s'.pinned :: false;
  }

  lemma TablesAreThere(s: Db)
    requires Inv(s)
    ensures FileNumbers(s.version) <= s.tables
  {
  }
}
