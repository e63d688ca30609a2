/** The input of a compaction (db/version_set.cc, MakeInputIterator): which runs are merged,
    and that the merge reads every input entry once, in key order. */
module InputIterator {
  import opened DbFormat
  import opened Entries
  import opened Versions
  import opened FileSearch
  import opened CompactionInputs
  import opened DropRules
  import opened Install
  import opened MergingIterator

  /** Files that meet on no internal key. */
  predicate NoSharedKey(f: File, g: File) {
    forall e, d | e in f.entries && d in g.entries :: e.key != d.key
  }

  lemma UpperLowerShareNothing(v: Levels, c: Compaction, f: File, g: File)
    requires NewerAbove(v) && c.level + 1 < NUM_LEVELS && f in v[c.level] && g in v[c.level + 1]
    ensures NoSharedKey(f, g)
  {
    assert FileNewer(f, g);
  }

  lemma LevelZeroShareNothing(v: Levels, f: File, g: File)
    requires NewerAbove(v) && f in v[0] && g in v[0] && f.number != g.number
    ensures NoSharedKey(f, g)
  {
    assert FileNewer(f, g) || FileNewer(g, f);
  }

  function EntriesOf(files: seq<File>): (r: seq<seq<Entry>>)
    ensures |r| == |files| && forall i | 0 <= i < |r| :: r[i] == files[i].entries
  {
    seq(|files|, i requires 0 <= i < |files| => files[i].entries)
  }

  /** Every file of level 0 is a run of its own; any other level is one run. */
  function RunsOf(level: nat, files: seq<File>): seq<seq<Entry>> {
    if |files| == 0 then [] else if level == 0 then EntriesOf(files) else [Concat(files)]
  }

  lemma RunsHold(level: nat, files: seq<File>)
    requires AllWf(files) && (level > 0 ==> Disjoint(files))
    ensures SortedRuns(RunsOf(level, files))
    ensures forall e :: e in AllEntries(RunsOf(level, files)) <==> e in FileEntries(files)
  {
    var runs := RunsOf(level, files);
    if |files| > 0 && level > 0 {
      ConcatIsSorted(files);
      forall e | e in FileEntries(files) ensures e in AllEntries(runs) {
        assert e in runs[0];
      }
    } else if |files| > 0 {
      forall i | 0 <= i < |runs| ensures Sorted(runs[i]) { assert files[i] in files; }
      forall e | e in FileEntries(files) ensures e in AllEntries(runs) {
        var f :| f in files && e in f.entries;
        var i :| 0 <= i < |files| && files[i] == f;
        assert e in runs[i];
      }
    }
  }

  lemma RunsAreDistinct(v: Levels, files: seq<File>)
    requires NewerAbove(v) && DistinctNumbers(files) && forall f | f in files :: f in v[0]
    ensures DistinctKeys(RunsOf(0, files))
  {
    var runs: seq<seq<Entry>> := RunsOf(0, files);
    forall i: nat, j: nat, p: nat, q: nat | i < j < |runs| && p < |runs[i]| && q < |runs[j]| ensures runs[i][p].key != runs[j][q].key {
      LevelZeroShareNothing(v, files[i], files[j]);
    }
  }

  lemma JoinRuns(a: seq<seq<Entry>>, b: seq<seq<Entry>>)
    requires SortedRuns(a) && DistinctKeys(a) && SortedRuns(b) && DistinctKeys(b)
    requires forall d, e | d in AllEntries(a) && e in AllEntries(b) :: d.key != e.key
    ensures SortedRuns(a + b) && DistinctKeys(a + b)
    ensures AllEntries(a + b) == AllEntries(a) + AllEntries(b)
  {
    var all: seq<seq<Entry>> := a + b;
    forall i: nat, j: nat, p: nat, q: nat | i < j < |all| && p < |all[i]| && q < |all[j]| ensures all[i][p].key != all[j][q].key {
      if i < |a| <= j {
        assert all[i][p] in a[i] && all[j][q] in b[j - |a|];
      } else if |a| <= i {
        assert b[i - |a|][p].key != b[j - |a|][q].key;
      }
    }
    forall e | e in AllEntries(a) + AllEntries(b) ensures e in AllEntries(all) {
      if i :| 0 <= i < |a| && e in a[i] {
        assert e in all[i];
      } else {
        var j :| 0 <= j < |b| && e in b[j];
        assert e in all[|a| + j];
      }
    }
  }

  /** The children of the merging iterator are sorted, share no key, and hold exactly the
      entries of the input files. */
  lemma InputRunsHold(v: Levels, c: Compaction)
    requires WfLevels(v) && NewerAbove(v) && Selected(v, c)
    ensures var runs := RunsOf(c.level, c.inputs0) + RunsOf(c.level + 1, c.inputs1);
            SortedRuns(runs) && DistinctKeys(runs) && AllEntries(runs) == InputEntries(c)
  {
    var upper, lower := RunsOf(c.level, c.inputs0), RunsOf(c.level + 1, c.inputs1);
    FilterIsDisjoint(v[c.level + 1], UserLo(c.inputs0), UserHi(c.inputs0));
    RunsHold(c.level, c.inputs0);
    RunsHold(c.level + 1, c.inputs1);
    if c.level == 0 { RunsAreDistinct(v, c.inputs0); }
    forall d, e | d in AllEntries(upper) && e in AllEntries(lower) ensures d.key != e.key {
      var f :| f in c.inputs0 && d in f.entries;
      var g :| g in c.inputs1 && e in g.entries;
      UpperLowerShareNothing(v, c, f, g);
    }
    JoinRuns(upper, lower);
    assert FileEntries(c.inputs0 + c.inputs1) == FileEntries(c.inputs0) + FileEntries(c.inputs1);
  }

  /** MakeInputIterator: the children, in the order they are listed. */
  method MakeInputIterator(c: Compaction) returns (runs: seq<seq<Entry>>)
    ensures runs == RunsOf(c.level, c.inputs0) + RunsOf(c.level + 1, c.inputs1)
  {
    runs := [];
    for which := 0 to 2
      invariant runs == if which == 0 then [] else if which == 1 then RunsOf(c.level, c.inputs0)
                        else RunsOf(c.level, c.inputs0) + RunsOf(c.level + 1, c.inputs1)
    {
      var files := if which == 0 then c.inputs0 else c.inputs1;
      if |files| > 0 {
        if c.level + which == 0 {
          for i := 0 to |files|
            invariant runs == EntriesOf(files)[..i]
          {
            runs := runs + [files[i].entries];
          }
        } else {
          runs := runs + [Concat(files)];
        }
      }
    }
  }

  /** The merged input: every entry of every input file once, in key order. */
  method MergedInput(v: Levels, c: Compaction) returns (es: seq<Entry>)
    requires WfLevels(v) && NewerAbove(v) && Selected(v, c)
    ensures Sorted(es) && EntrySet(es) == InputEntries(c)
  {
    InputRunsHold(v, c);
    var runs := MakeInputIterator(c);
    es := ReadAll(runs);
  }
}
