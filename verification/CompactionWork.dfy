/** The compaction loop (db/db_impl.cc, DoCompactionWork) with its cursors over the
    deeper levels (db/version_set.cc, IsBaseLevelForKey and ShouldStopBefore). */
module CompactionWork {
  import opened DbFormat
  import opened Entries
  import opened Versions
  import opened CompactionInputs
  import opened DropRules

  function Flatten(runs: seq<seq<Entry>>): seq<Entry> {
    if |runs| == 0 then [] else Flatten(runs[..|runs| - 1]) + runs[|runs| - 1]
  }

  lemma FlattenAppend(runs: seq<seq<Entry>>, run: seq<Entry>)
    ensures Flatten(runs + [run]) == Flatten(runs) + run
  {
    assert (runs + [run])[..|runs|] == runs;
  }

  /** A table under construction, and what has been written so far. */
  datatype Output = Output(finished: seq<seq<Entry>>, builder: Option<seq<Entry>>) {
    function Written(): seq<Entry> {
      Flatten(finished) + (if builder.Some? then builder.value else [])
    }

    predicate NoneEmpty() {
      (forall run | run in finished :: |run| > 0) && (builder.Some? ==> |builder.value| > 0)
    }

    /** How many output files were opened. */
    function Opened(): nat {
      |finished| + (if builder.Some? then 1 else 0)
    }

    /** FinishCompactionOutputFile. */
    function Finish(): (o: Output)
      requires builder.Some?
      ensures o.Written() == Written() && o.Opened() == Opened()
      ensures NoneEmpty() ==> o.NoneEmpty()
    {
      FlattenAppend(finished, builder.value);
      Output(finished + [builder.value], None)
    }

    /** Opens an output file if there is none and adds one entry. */
    function Add(e: Entry): (o: Output)
      ensures o.Written() == Written() + [e]
      ensures o.Opened() == |finished| + 1
      ensures NoneEmpty() ==> o.NoneEmpty()
      ensures o.builder.Some?
    {
      Output(finished, Some((if builder.Some? then builder.value else []) + [e]))
    }
  }

  function SizesBetween(files: seq<File>, a: nat, b: nat): nat
    requires a <= b <= |files|
  {
    if a == b then 0 else SizesBetween(files, a, b - 1) + files[b - 1].size
  }

  // ---- where outputs are cut ----

  /** The range of keys of a run meets the file. */
  predicate Meets(f: File, run: seq<Entry>)
    requires |run| > 0
  {
    !Before(f.largest, run[0].key) && !Before(run[|run| - 1].key, f.smallest)
  }

  /** Of the grandparents at most `max` bytes in a row, and the file behind them, meet the
      run: so much, and no more, will have to be merged with the table one day. */
  predicate MeetsLittle(grandparents: seq<File>, run: seq<Entry>, max: nat)
    requires |run| > 0
  {
    exists a, b | 0 <= a <= b <= |grandparents| ::
      SizesBetween(grandparents, a, b) <= max && forall j | 0 <= j < |grandparents| && Meets(grandparents[j], run) :: a <= j <= b
  }

  /** No entry is added to a table that is full. */
  predicate FullAtMost(run: seq<Entry>, full: seq<Entry> -> bool) {
    forall n | 0 < n < |run| :: !full(run[..n])
  }

  /** Every table is finished as soon as it is full, and meets little of the grandparents. */
  predicate WellCut(grandparents: seq<File>, runs: seq<seq<Entry>>, full: seq<Entry> -> bool, max: nat) {
    && (forall run | run in runs :: |run| > 0 && FullAtMost(run, full))
    && (Disjoint(grandparents) ==> forall run | run in runs && |run| > 0 :: MeetsLittle(grandparents, run, max))
  }

  /** A run being written while the cursor over the grandparents goes from `start` to `end`. */
  predicate Growing(grandparents: seq<File>, start: nat, end: nat, run: seq<Entry>) {
    && |run| > 0 && start <= end <= |grandparents|
    && (forall j | 0 <= j < start :: Before(grandparents[j].largest, run[0].key))
    && (end < |grandparents| ==> !Before(grandparents[end].largest, run[|run| - 1].key))
  }

  lemma GrownMeetsLittle(grandparents: seq<File>, start: nat, end: nat, run: seq<Entry>, max: nat)
    requires Disjoint(grandparents) && Growing(grandparents, start, end, run) && SizesBetween(grandparents, start, end) <= max
    ensures MeetsLittle(grandparents, run, max)
  {
    assert forall j | end < j < |grandparents| :: Before(grandparents[end].largest, grandparents[j].smallest);
  }

  lemma {:induction false} SizesJoin(files: seq<File>, a: nat, b: nat, c: nat)
    requires a <= b <= c <= |files|
    ensures SizesBetween(files, a, c) == SizesBetween(files, a, b) + SizesBetween(files, b, c)
  {
    if b < c { SizesJoin(files, a, b, c - 1); }
  }

  lemma NoSizes(files: seq<File>, a: nat)
    requires a <= |files|
    ensures SizesBetween(files, a, a) == 0
  {
  }

  lemma InOrder(input: seq<Entry>, i: nat)
    requires Sorted(input) && 0 < i < |input|
    ensures Before(input[i - 1].key, input[i].key)
  {
  }

  lemma OneMoreNotFull(run: seq<Entry>, e: Entry, full: seq<Entry> -> bool)
    requires FullAtMost(run, full) && (|run| > 0 ==> !full(run))
    ensures FullAtMost(run + [e], full)
  {
    assert (run + [e])[..|run|] == run;
    assert forall n | 0 < n < |run| :: (run + [e])[..n] == run[..n];
  }

  lemma KeptNext(input: seq<Entry>, i: nat, r: Rules, last: SeqNo, drop: bool)
    requires i < |input| && last == LastSequenceForKey(input, i)
    requires drop <==>
      || last <= r.smallest
      || (input[i].key.vtype.Deletion? && input[i].key.seqno <= r.smallest && IsBaseLevel(r.base, r.level, input[i].key.user))
    ensures Kept(input, i + 1, r) == if drop then Kept(input, i, r) else Kept(input, i, r) + [input[i]]
  {
  }

  class CompactionState {
    const compaction: Compaction
    const inputVersion: Levels
    const smallestSnapshot: SeqNo
    var levelPtrs: seq<nat>
    var grandparentIndex: nat
    var seenKey: bool
    var overlappedBytes: nat
    var output: Output
    /** Where the cursor over the grandparents stood when bytes were last counted from zero. */
    ghost var countedFrom: nat

    constructor (c: Compaction, v: Levels, smallest: SeqNo)
      ensures compaction == c && inputVersion == v && smallestSnapshot == smallest
      ensures output == Output([], None)
      ensures forall k: UserKey :: CursorsBehind(k)
      ensures !seenKey && grandparentIndex == 0 && overlappedBytes == 0 && countedFrom == 0
    {
      compaction, inputVersion, smallestSnapshot := c, v, smallest;
      levelPtrs := seq(NUM_LEVELS, _ => 0);
      grandparentIndex, seenKey, overlappedBytes := 0, false, 0;
      output := Output([], None);
      countedFrom := 0;
    }

    function TheRules(): Rules {
      Rules(inputVersion, compaction.level, smallestSnapshot)
    }

    /** Every file a cursor has passed ends before `k`. */
    ghost predicate CursorsBehind(k: UserKey)
      reads this`levelPtrs
    {
      && |levelPtrs| == NUM_LEVELS
      && forall l | 0 <= l < NUM_LEVELS :: CursorBehind(l, k)
    }

    ghost predicate CursorBehind(l: nat, k: UserKey)
      requires l < NUM_LEVELS && |levelPtrs| == NUM_LEVELS
      reads this`levelPtrs
    {
      && levelPtrs[l] <= |inputVersion[l]|
      && forall i | 0 <= i < levelPtrs[l] :: inputVersion[l][i].largest.user < k
    }

    /** The cursors only move forward, yet the answer is that of a fresh scan of all
        deeper levels, as long as the keys asked for do not decrease. */
    method IsBaseLevelForKey(k: UserKey) returns (base: bool)
      requires WfLevels(inputVersion) && CursorsBehind(k)
      modifies this`levelPtrs
      ensures CursorsBehind(k)
      ensures base <==> IsBaseLevel(inputVersion, compaction.level, k)
    {
      var lvl := compaction.level + 2;
      while lvl < NUM_LEVELS
        invariant CursorsBehind(k)
        invariant forall l, f | compaction.level + 2 <= l < lvl && l < NUM_LEVELS && f in inputVersion[l] :: !UserInFile(f, k)
      {
        var files := inputVersion[lvl];
        while levelPtrs[lvl] < |files|
          invariant CursorsBehind(k)
          decreases |files| - levelPtrs[lvl]
        {
          var f := files[levelPtrs[lvl]];
          if k <= f.largest.user {
            if k >= f.smallest.user {
              assert f in inputVersion[lvl] && UserInFile(f, k);
              return false;
            }
            break;
          }
          label advance:
          levelPtrs := levelPtrs[lvl := levelPtrs[lvl] + 1];
          forall l | 0 <= l < NUM_LEVELS ensures CursorBehind(l, k) {
            assert old@advance(CursorBehind(l, k));
          }
        }
        assert CursorBehind(lvl, k);
        NoFileHolds(files, levelPtrs[lvl], k);
        lvl := lvl + 1;
      }
      base := true;
    }

    /** Whether the output so far overlaps too much of the grandparent level. */
    method ShouldStopBefore(key: InternalKey, maxGrandParentOverlapBytes: nat) returns (stop: bool)
      requires grandparentIndex <= |compaction.grandparents|
      modifies this`grandparentIndex, this`seenKey, this`overlappedBytes
      ensures seenKey
      ensures old(grandparentIndex) <= grandparentIndex <= |compaction.grandparents|
      ensures grandparentIndex < |compaction.grandparents| ==> !Before(compaction.grandparents[grandparentIndex].largest, key)
      ensures forall i | old(grandparentIndex) <= i < grandparentIndex && i < |compaction.grandparents| :: Before(compaction.grandparents[i].largest, key)
      ensures var overlapped := old(overlappedBytes) + (if old(seenKey) then SizesBetween(compaction.grandparents, old(grandparentIndex), grandparentIndex) else 0);
              && (stop <==> overlapped > maxGrandParentOverlapBytes)
              && overlappedBytes == if stop then 0 else overlapped
    {
      while grandparentIndex < |compaction.grandparents| && Before(compaction.grandparents[grandparentIndex].largest, key)
        invariant old(grandparentIndex) <= grandparentIndex <= |compaction.grandparents| && seenKey == old(seenKey)
        invariant overlappedBytes == old(overlappedBytes) + (if old(seenKey) then SizesBetween(compaction.grandparents, old(grandparentIndex), grandparentIndex) else 0)
        invariant forall i | old(grandparentIndex) <= i < grandparentIndex && i < |compaction.grandparents| :: Before(compaction.grandparents[i].largest, key)
      {
        if seenKey {
          overlappedBytes := overlappedBytes + compaction.grandparents[grandparentIndex].size;
        }
        grandparentIndex := grandparentIndex + 1;
      }
      seenKey := true;
      if overlappedBytes > maxGrandParentOverlapBytes {
        overlappedBytes := 0;
        return true;
      } else {
        return false;
      }
    }

    /** The two drop rules, for the entry after one with `lastSequenceForKey`. */
    method ShouldDrop(e: Entry, lastSequenceForKey: SeqNo) returns (drop: bool)
      requires WfLevels(inputVersion) && CursorsBehind(e.key.user)
      modifies this`levelPtrs
      ensures CursorsBehind(e.key.user)
      ensures drop <==>
        || lastSequenceForKey <= smallestSnapshot
        || (e.key.vtype.Deletion? && e.key.seqno <= smallestSnapshot && IsBaseLevel(inputVersion, compaction.level, e.key.user))
    {
      drop := false;
      if lastSequenceForKey <= smallestSnapshot {
        drop := true;
      } else if e.key.vtype.Deletion? && e.key.seqno <= smallestSnapshot {
        drop := IsBaseLevelForKey(e.key.user);
      }
    }

    method Emit(e: Entry, full: seq<Entry> -> bool)
      requires output.NoneEmpty()
      modifies this`output
      ensures output.NoneEmpty() && output.Opened() == |old(output.finished)| + 1
      ensures output.Written() == old(output.Written()) + [e]
      ensures var run := old(if output.builder.Some? then output.builder.value else []) + [e];
              output == if full(run) then Output(old(output.finished) + [run], None) else Output(old(output.finished), Some(run))
    {
      output := output.Add(e);
      if full(output.builder.value) {
        output := output.Finish();
      }
    }

    method FinishOutput()
      requires output.NoneEmpty()
      modifies this`output
      ensures output.NoneEmpty() && output.builder.None? && output.Opened() == old(output.Opened())
      ensures output.Written() == old(output.Written())
      ensures output.finished == old(if output.builder.Some? then output.finished + [output.builder.value] else output.finished)
    {
      if output.builder.Some? {
        output := output.Finish();
      }
    }

    /** After `i` entries of the merged input: what the outputs hold is what the drop rules
        keep of them, and the loop remembers the last user key and sequence number. */
    ghost predicate At(input: seq<Entry>, i: nat, currentUserKey: Option<UserKey>, lastSequenceForKey: SeqNo)
      reads this
    {
      && i <= |input| && grandparentIndex <= |compaction.grandparents|
      && currentUserKey == (if i == 0 then None else Some(input[i - 1].key.user))
      && (i > 0 ==> lastSequenceForKey == input[i - 1].key.seqno)
      && (i < |input| ==> CursorsBehind(input[i].key.user))
      && output.NoneEmpty()
      && output.Written() == Kept(input, i, TheRules())
    }

    /** The cursor over the grandparents after an entry: behind every file that ends before it. */
    ghost predicate CursorAt(key: InternalKey)
      reads this`grandparentIndex
    {
      && grandparentIndex <= |compaction.grandparents|
      && (forall j | 0 <= j < grandparentIndex :: Before(compaction.grandparents[j].largest, key))
      && (grandparentIndex < |compaction.grandparents| ==> !Before(compaction.grandparents[grandparentIndex].largest, key))
    }

    /** How the outputs are cut after `i` entries: finished ones are well cut, and the one
        under way can still become so. */
    ghost predicate Cutting(input: seq<Entry>, i: nat, full: seq<Entry> -> bool, max: nat)
      reads this
    {
      && i <= |input| && countedFrom <= grandparentIndex <= |compaction.grandparents|
      && (if i == 0 then !seenKey && grandparentIndex == 0 && output.builder.None? else seenKey && CursorAt(input[i - 1].key))
      && overlappedBytes == SizesBetween(compaction.grandparents, countedFrom, grandparentIndex) <= max
      && (output.builder.Some? ==> Growing(compaction.grandparents, countedFrom, grandparentIndex, output.builder.value)
                                   && FullAtMost(output.builder.value, full) && !full(output.builder.value)
                                   && i > 0 && AtOrBefore(output.builder.value[|output.builder.value| - 1].key, input[i - 1].key))
      && WellCut(compaction.grandparents, output.finished, full, max)
    }

    /** Decides where an output ends: the bytes of grandparents passed since the last cut are
        too many, and the next entry opens a new output. */
    method CutOutput(input: seq<Entry>, i: nat, maxGrandParentOverlapBytes: nat, ghost full: seq<Entry> -> bool)
      requires Sorted(input) && i < |input| && output.NoneEmpty() && Cutting(input, i, full, maxGrandParentOverlapBytes)
      modifies this`grandparentIndex, this`seenKey, this`overlappedBytes, this`output, this`countedFrom
      ensures output.NoneEmpty() && output.Opened() == old(output.Opened()) && output.Written() == old(output.Written())
      ensures Cutting(input, i + 1, full, maxGrandParentOverlapBytes)
    {
      hide Sorted, Flatten, SizesBetween, MeetsLittle, FullAtMost, Disjoint;
      ghost var gps, from := compaction.grandparents, grandparentIndex;
      var stop := ShouldStopBefore(input[i].key, maxGrandParentOverlapBytes);
      SizesJoin(gps, countedFrom, from, grandparentIndex);
      NoSizes(gps, grandparentIndex);
      if i > 0 { InOrder(input, i); }
      if output.builder.Some? && Disjoint(gps) {
        GrownMeetsLittle(gps, countedFrom, from, output.builder.value, maxGrandParentOverlapBytes);
      }
      if stop { FinishOutput(); }
      countedFrom := if stop || i == 0 then grandparentIndex else countedFrom;
    }

    /** The last output ends with the input. */
    method FinishLast(ghost input: seq<Entry>, ghost i: nat, ghost full: seq<Entry> -> bool, ghost max: nat)
      requires output.NoneEmpty() && Cutting(input, i, full, max)
      modifies this`output
      ensures output.NoneEmpty() && output.builder.None? && output.Opened() == old(output.Opened())
      ensures output.Written() == old(output.Written())
      ensures WellCut(compaction.grandparents, output.finished, full, max)
    {
      hide Flatten, SizesBetween, MeetsLittle, FullAtMost, Disjoint;
      if output.builder.Some? && Disjoint(compaction.grandparents) {
        GrownMeetsLittle(compaction.grandparents, countedFrom, grandparentIndex, output.builder.value, max);
      }
      FinishOutput();
    }

    /** What the loop does with the next entry before it is written: an output that meets too
        many bytes of the grandparents is finished, and the drop rules are asked. */
    method Decide(input: seq<Entry>, i: nat, currentUserKey: Option<UserKey>, lastSequenceForKey: SeqNo, maxGrandParentOverlapBytes: nat,
                  ghost full: seq<Entry> -> bool)
      returns (drop: bool, currentUserKey': Option<UserKey>, lastSequenceForKey': SeqNo)
      requires Sorted(input) && WfLevels(inputVersion) && i < |input|
      requires At(input, i, currentUserKey, lastSequenceForKey) && Cutting(input, i, full, maxGrandParentOverlapBytes)
      modifies this
      ensures Cutting(input, i + 1, full, maxGrandParentOverlapBytes)
      ensures output.NoneEmpty() && output.Opened() == old(output.Opened())
      ensures drop ==> At(input, i + 1, currentUserKey', lastSequenceForKey')
      ensures !drop ==> ToWrite(input, i, currentUserKey', lastSequenceForKey')
    {
      hide WfLevels, IsBaseLevel, Sorted, Flatten, Kept, Growing, MeetsLittle, SizesBetween, FullAtMost, Disjoint;
      var e := input[i];
      CutOutput(input, i, maxGrandParentOverlapBytes, full);
      var last := lastSequenceForKey;
      if currentUserKey != Some(e.key.user) { last := MAX_SEQUENCE; }
      drop := ShouldDrop(e, last);
      KeptNext(input, i, TheRules(), last, drop);
      currentUserKey', lastSequenceForKey' := Some(e.key.user), e.key.seqno;
      if i + 1 < |input| {
        KeysAscend(input, i + 1);
        CursorsStay(e.key.user, input[i + 1].key.user);
      }
    }

    /** The next entry is kept, and still to be written. */
    ghost predicate ToWrite(input: seq<Entry>, i: nat, currentUserKey: Option<UserKey>, lastSequenceForKey: SeqNo)
      reads this
    {
      && i < |input| && grandparentIndex <= |compaction.grandparents|
      && currentUserKey == Some(input[i].key.user) && lastSequenceForKey == input[i].key.seqno
      && (i + 1 < |input| ==> CursorsBehind(input[i + 1].key.user))
      && output.NoneEmpty()
      && output.Written() == Kept(input, i, TheRules()) && Kept(input, i + 1, TheRules()) == Kept(input, i, TheRules()) + [input[i]]
    }

    /** Writes the entry; the output is finished once it is big enough. */
    method WriteKept(input: seq<Entry>, i: nat, ghost currentUserKey: Option<UserKey>, ghost lastSequenceForKey: SeqNo, full: seq<Entry> -> bool,
                     ghost max: nat)
      requires ToWrite(input, i, currentUserKey, lastSequenceForKey) && Cutting(input, i + 1, full, max)
      modifies this`output
      ensures At(input, i + 1, currentUserKey, lastSequenceForKey) && output.Opened() == |old(output.finished)| + 1
      ensures Cutting(input, i + 1, full, max)
    {
      hide Kept, Flatten, SizesBetween, MeetsLittle, FullAtMost, Disjoint;
      ghost var gps := compaction.grandparents;
      ghost var before := if output.builder.Some? then output.builder.value else [];
      OneMoreNotFull(before, input[i], full);
      assert Growing(gps, countedFrom, grandparentIndex, before + [input[i]]);
      if Disjoint(gps) { GrownMeetsLittle(gps, countedFrom, grandparentIndex, before + [input[i]], max); }
      Emit(input[i], full);
    }

    lemma CursorsStay(k: UserKey, k': UserKey)
      requires CursorsBehind(k) && k <= k'
      ensures CursorsBehind(k')
    {
      forall l | 0 <= l < NUM_LEVELS ensures CursorBehind(l, k') {
        assert CursorBehind(l, k);
      }
    }
  }

  lemma KeysAscend(input: seq<Entry>, i: nat)
    requires Sorted(input) && 0 < i < |input|
    ensures input[i - 1].key.user <= input[i].key.user
  {
    assert Before(input[i - 1].key, input[i].key);
  }

  /** In a sorted level: everything before the cursor ends too early, everything from the
      cursor on starts too late. */
  lemma NoFileHolds(files: seq<File>, ptr: nat, k: UserKey)
    requires AllWf(files) && ptr <= |files|
    requires Disjoint(files)
    requires forall i | 0 <= i < ptr :: files[i].largest.user < k
    requires ptr < |files| ==> k < files[ptr].smallest.user
    ensures forall f | f in files :: !UserInFile(f, k)
  {
    SortedIsSpread(files);
    forall f | f in files ensures !UserInFile(f, k) {
      var i :| 0 <= i < |files| && files[i] == f;
      if ptr < i { assert files[ptr] in files && Before(files[ptr].largest, files[i].smallest); }
    }
  }

  /** The file an output run becomes. */
  function MakeFile(number: nat, size: nat, run: seq<Entry>): (f: File)
    requires |run| > 0 && Sorted(run)
    ensures WfFile(f) && f.entries == run && f.number == number
  {
    File(number, size, run[0].key, run[|run| - 1].key, run)
  }
}
