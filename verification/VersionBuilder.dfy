/** VersionSet::Builder (db/version_set.cc): applying version edits and saving the
    result, and the replay of a whole manifest through one builder. */
module VersionBuilder {
  import opened DbFormat
  import opened Entries
  import opened Versions
  import opened Install

  /** The file part of a version edit: deletions as (level, number), additions as
      (level, file). */
  datatype FileEdit = FileEdit(deleted: set<(nat, nat)>, added: seq<(nat, File)>) {
    predicate LevelsOk() {
      && (forall d | d in deleted :: d.0 < NUM_LEVELS)
      && (forall a | a in added :: a.0 < NUM_LEVELS)
    }
  }

  predicate StrictOrder(files: seq<File>) {
    forall i, j | 0 <= i < j < |files| :: BySmallest(files[i], files[j])
  }

  lemma HeadFirst(files: seq<File>)
    requires StrictOrder(files) && |files| > 0
    ensures forall x | x in files[1..] :: BySmallest(files[0], x)
    ensures StrictOrder(files[1..])
  {
    forall x | x in files[1..] ensures BySmallest(files[0], x) {
      var i :| 0 <= i < |files| - 1 && files[1..][i] == x;
      assert files[i + 1] == x;
    }
  }

  /** Insertion into a std::set ordered by BySmallestKey: an equivalent element stays. */
  function InsertFile(files: seq<File>, f: File): (r: seq<File>)
    requires StrictOrder(files)
    ensures StrictOrder(r)
    ensures forall g :: g in r ==> g in files || g == f
    ensures forall g :: g in files ==> g in r
    ensures (forall g | g in files :: g.number != f.number) ==> f in r
  {
    if |files| == 0 then [f]
    else if BySmallest(f, files[0]) then [f] + files
    else if BySmallest(files[0], f) then
      var rest := InsertFile(files[1..], f);
      assert files == [files[0]] + files[1..];
      HeadFirst(files);
      assert forall j | 0 <= j < |rest| :: rest[j] in rest;
      [files[0]] + rest
    else files
  }

  /** One level of the result: live base files and live added files, merged in order. */
  method SaveLevel(base: seq<File>, added: seq<File>, deleted: set<nat>) returns (files: seq<File>)
    requires InBuilderOrder(base) && StrictOrder(added)
    ensures InBuilderOrder(files)
    ensures forall f :: f in files <==> (f in base || f in added) && f.number !in deleted
    ensures DistinctNumbers(base + added) ==> DistinctNumbers(files)
  {
    files := [];
    var bi := 0;
    for ai := 0 to |added|
      invariant bi <= |base|
      invariant Merging(base, added, deleted, bi, ai, files)
    {
      while bi < |base| && !BySmallest(added[ai], base[bi])
        invariant bi <= |base|
        invariant Merging(base, added, deleted, bi, ai, files)
      {
        MergeBase(base, added, deleted, bi, ai, files);
        if base[bi].number !in deleted { files := files + [base[bi]]; }
        bi := bi + 1;
      }
      MergeAdded(base, added, deleted, bi, ai, files);
      if added[ai].number !in deleted { files := files + [added[ai]]; }
    }
    while bi < |base|
      invariant bi <= |base|
      invariant Merging(base, added, deleted, bi, |added|, files)
    {
      MergeBase(base, added, deleted, bi, |added|, files);
      if base[bi].number !in deleted { files := files + [base[bi]]; }
      bi := bi + 1;
    }
    assert base[..bi] == base && added[..|added|] == added;
  }

  /** `files` holds the live files among the first `bi` and `ai`, in order, and nothing
      still to come sorts before any of them. */
  ghost predicate Merging(base: seq<File>, added: seq<File>, deleted: set<nat>, bi: nat, ai: nat, files: seq<File>) {
    && bi <= |base| && ai <= |added|
    && (forall f :: f in files <==> (f in base[..bi] || f in added[..ai]) && f.number !in deleted)
    && InBuilderOrder(files)
    && (forall f, j | f in files && bi <= j < |base| :: !BySmallest(base[j], f))
    && (forall f, j | f in files && ai <= j < |added| :: !BySmallest(added[j], f))
    && (DistinctNumbers(base + added) ==> DistinctNumbers(files))
  }

  lemma AppendOrdered(files: seq<File>, f: File)
    requires InBuilderOrder(files) && forall g | g in files :: !BySmallest(f, g)
    ensures InBuilderOrder(files + [f])
    ensures DistinctNumbers(files) && (forall g | g in files :: g.number != f.number) ==> DistinctNumbers(files + [f])
  {
    assert forall j | 0 <= j < |files| :: files[j] in files;
  }

  lemma NumberIsNew(base: seq<File>, added: seq<File>, bi: nat, ai: nat, f: File)
    requires bi <= |base| && ai <= |added|
    requires DistinctNumbers(base + added)
    requires (bi < |base| && f == base[bi]) || (ai < |added| && f == added[ai])
    ensures forall g | g in base[..bi] || g in added[..ai] :: g.number != f.number
  {
    var all := base + added;
    var p := if bi < |base| && f == base[bi] then bi else |base| + ai;
    assert all[p] == f;
    forall g | g in base[..bi] ensures g.number != f.number {
      var i :| 0 <= i < bi && base[i] == g;
      assert all[i] == g;
    }
    forall g | g in added[..ai] ensures g.number != f.number {
      var i :| 0 <= i < ai && added[i] == g;
      assert all[|base| + i] == g;
    }
  }

  lemma MergeBase(base: seq<File>, added: seq<File>, deleted: set<nat>, bi: nat, ai: nat, files: seq<File>)
    requires InBuilderOrder(base) && StrictOrder(added)
    requires Merging(base, added, deleted, bi, ai, files)
    requires bi < |base| && (ai < |added| ==> !BySmallest(added[ai], base[bi]))
    ensures Merging(base, added, deleted, bi + 1, ai, if base[bi].number in deleted then files else files + [base[bi]])
  {
    assert base[..bi+1] == base[..bi] + [base[bi]];
    AppendOrdered(files, base[bi]);
    if DistinctNumbers(base + added) { NumberIsNew(base, added, bi, ai, base[bi]); }
  }

  lemma NothingBefore(base: seq<File>, added: seq<File>, bi: nat, ai: nat)
    requires InBuilderOrder(base) && StrictOrder(added)
    requires ai < |added| && (bi < |base| ==> BySmallest(added[ai], base[bi]))
    ensures forall j | bi <= j < |base| :: !BySmallest(base[j], added[ai])
    ensures forall j | ai < j < |added| :: !BySmallest(added[j], added[ai])
  {
    forall j | bi <= j < |base| ensures !BySmallest(base[j], added[ai]) {
      assert bi < j ==> !BySmallest(base[j], base[bi]);
    }
  }

  lemma MergeAdded(base: seq<File>, added: seq<File>, deleted: set<nat>, bi: nat, ai: nat, files: seq<File>)
    requires InBuilderOrder(base) && StrictOrder(added)
    requires Merging(base, added, deleted, bi, ai, files)
    requires ai < |added| && (bi < |base| ==> BySmallest(added[ai], base[bi]))
    ensures Merging(base, added, deleted, bi, ai + 1, if added[ai].number in deleted then files else files + [added[ai]])
  {
    hide BySmallest, InBuilderOrder, StrictOrder;
    var a := added[ai];
    assert added[..ai+1] == added[..ai] + [a];
    NothingBefore(base, added, bi, ai);
    AppendOrdered(files, a);
    if DistinctNumbers(base + added) { NumberIsNew(base, added, bi, ai, a); }
    var files' := if a.number in deleted then files else files + [a];
    forall f, j | f in files' && bi <= j < |base| ensures !BySmallest(base[j], f) {
      if f != a { assert f in files; }
    }
    forall f, j | f in files' && ai + 1 <= j < |added| ensures !BySmallest(added[j], f) {
      if f != a { assert f in files; }
    }
  }

  /** What a builder has recorded per level: deleted numbers and added files. */
  datatype LevelStates = LevelStates(deleted: seq<set<nat>>, added: seq<seq<File>>)

  ghost predicate ValidStates(st: LevelStates) {
    && |st.deleted| == NUM_LEVELS && |st.added| == NUM_LEVELS
    && forall l | 0 <= l < NUM_LEVELS :: StrictOrder(st.added[l])
  }

  const NO_CHANGES := LevelStates([{}, {}, {}, {}, {}, {}, {}], [[], [], [], [], [], [], []])

  ghost function NumbersAt(deleted: set<(nat, nat)>, l: nat): set<nat> {
    set d | d in deleted && d.0 == l :: d.1
  }

  ghost function WithDeletions(st: LevelStates, deleted: set<(nat, nat)>): (r: LevelStates)
    requires ValidStates(st)
    ensures ValidStates(r) && r.added == st.added
    ensures forall l | 0 <= l < NUM_LEVELS :: r.deleted[l] == st.deleted[l] + NumbersAt(deleted, l)
  {
    st.(deleted := seq(NUM_LEVELS, l requires 0 <= l < NUM_LEVELS => st.deleted[l] + NumbersAt(deleted, l)))
  }

  lemma NoDeletions(st: LevelStates)
    requires ValidStates(st)
    ensures WithDeletions(st, {}) == st
  {
    var after := WithDeletions(st, {}).deleted;
    forall l | 0 <= l < NUM_LEVELS ensures after[l] == st.deleted[l] {
      assert NumbersAt({}, l) == {};
    }
    assert after == st.deleted;
  }

  lemma OneMoreDeletion(st: LevelStates, deleted: set<(nat, nat)>, d: (nat, nat))
    requires ValidStates(st) && d.0 < NUM_LEVELS
    ensures WithDeletions(st, deleted + {d}) ==
      var before := WithDeletions(st, deleted);
      before.(deleted := before.deleted[d.0 := before.deleted[d.0] + {d.1}])
  {
    var before := WithDeletions(st, deleted).deleted;
    var after := WithDeletions(st, deleted + {d}).deleted;
    var expected := before[d.0 := before[d.0] + {d.1}];
    forall l | 0 <= l < NUM_LEVELS ensures after[l] == expected[l] {
      assert NumbersAt(deleted + {d}, l) == NumbersAt(deleted, l) + (if l == d.0 then {d.1} else {});
    }
    assert after == expected;
  }

  function WithFileAdded(st: LevelStates, l: nat, f: File): (r: LevelStates)
    requires ValidStates(st) && l < NUM_LEVELS
    ensures ValidStates(r)
  {
    LevelStates(st.deleted[l := st.deleted[l] - {f.number}], st.added[l := InsertFile(st.added[l], f)])
  }

  ghost function WithAdditions(st: LevelStates, added: seq<(nat, File)>): (r: LevelStates)
    requires ValidStates(st) && forall a | a in added :: a.0 < NUM_LEVELS
    ensures ValidStates(r)
  {
    if |added| == 0 then st
    else
      var n := |added| - 1;
      WithFileAdded(WithAdditions(st, added[..n]), added[n].0, added[n].1)
  }

  ghost function Applied(st: LevelStates, edit: FileEdit): (r: LevelStates)
    requires ValidStates(st) && edit.LevelsOk()
    ensures ValidStates(r)
  {
    WithAdditions(WithDeletions(st, edit.deleted), edit.added)
  }

  /** `v` holds, per level and in order, the live files of `base` and of the builder. */
  ghost predicate SavedFrom(base: Levels, st: LevelStates, v: Levels)
    requires ValidStates(st)
  {
    forall l | 0 <= l < NUM_LEVELS ::
      && InBuilderOrder(v[l])
      && (forall f :: f in v[l] <==> (f in base[l] || f in st.added[l]) && f.number !in st.deleted[l])
      && (DistinctNumbers(base[l] + st.added[l]) ==> DistinctNumbers(v[l]))
  }

  class Builder {
    const base: Levels
    var states: LevelStates

    constructor (b: Levels)
      ensures base == b && states == NO_CHANGES && ValidStates(states)
    {
      base := b;
      states := NO_CHANGES;
    }

    method Apply(edit: FileEdit)
      requires ValidStates(states) && edit.LevelsOk()
      modifies this
      ensures ValidStates(states)
      ensures states == Applied(old(states), edit)
    {
      var rest := edit.deleted;
      NoDeletions(states);
      assert edit.deleted - rest == {};
      while rest != {}
        invariant rest <= edit.deleted
        invariant ValidStates(states)
        invariant states == WithDeletions(old(states), edit.deleted - rest)
      {
        var d :| d in rest;
        OneMoreDeletion(old(states), edit.deleted - rest, d);
        assert edit.deleted - (rest - {d}) == (edit.deleted - rest) + {d};
        states := states.(deleted := states.deleted[d.0 := states.deleted[d.0] + {d.1}]);
        rest := rest - {d};
      }
      assert edit.deleted - rest == edit.deleted;
      ghost var start := states;
      for i := 0 to |edit.added|
        invariant ValidStates(states)
        invariant states == WithAdditions(start, edit.added[..i])
      {
        assert edit.added[..i+1][..i] == edit.added[..i];
        states := WithFileAdded(states, edit.added[i].0, edit.added[i].1);
      }
      assert edit.added[..|edit.added|] == edit.added;
    }

    method SaveTo() returns (v: Levels)
      requires ValidStates(states)
      requires forall l | 0 <= l < NUM_LEVELS :: InBuilderOrder(base[l])
      ensures SavedFrom(base, states, v)
    {
      var levels: seq<seq<File>> := [];
      for l := 0 to NUM_LEVELS
        invariant |levels| == l
        invariant forall m | 0 <= m < l ::
          && InBuilderOrder(levels[m])
          && (forall f :: f in levels[m] <==> (f in base[m] || f in states.added[m]) && f.number !in states.deleted[m])
          && (DistinctNumbers(base[m] + states.added[m]) ==> DistinctNumbers(levels[m]))
      {
        var files := SaveLevel(base[l], states.added[l], states.deleted[l]);
        levels := levels + [files];
      }
      v := levels;
    }
  }
}
