/** Recovering a version from its manifest (db/version_set.cc, WriteSnapshot, LogAndApply
    and Recover): one builder fed with every recorded edit ends where the versions
    installed one edit at a time ended. */
module ManifestReplay {
  import opened DbFormat
  import opened Entries
  import opened Versions
  import opened Install
  import opened VersionBuilder

  const EMPTY: Levels := [[], [], [], [], [], [], []]

  /** The files an edit adds carry numbers that are new to their level. */
  ghost predicate Fresh(base: Levels, st: LevelStates, added: seq<(nat, File)>)
    requires ValidStates(st)
  {
    forall i | 0 <= i < |added| ::
      && added[i].0 < NUM_LEVELS
      && (forall g | g in base[added[i].0] :: g.number != added[i].1.number)
      && (forall g | g in st.added[added[i].0] :: g.number != added[i].1.number)
      && (forall j | 0 <= j < i && added[j].0 == added[i].0 :: added[j].1.number != added[i].1.number)
  }

  lemma FreshPrefix(base: Levels, st: LevelStates, added: seq<(nat, File)>)
    requires ValidStates(st) && Fresh(base, st, added) && |added| > 0
    ensures Fresh(base, st, added[..|added| - 1])
  {
    var before := added[..|added| - 1];
    assert forall i | 0 <= i < |before| :: before[i] == added[i];
  }

  /** The numbers of added files do not clash, and additions revive deleted numbers. */
  ghost predicate HoldsAdditions(st: LevelStates, added: seq<(nat, File)>, after: LevelStates)
    requires ValidStates(st) && ValidStates(after)
  {
    && (forall l, f | 0 <= l < NUM_LEVELS :: f in after.added[l] <==> f in st.added[l] || (l, f) in added)
    && (forall l, n | 0 <= l < NUM_LEVELS :: n in after.deleted[l] <==> n in st.deleted[l] && forall a | a in added && a.0 == l :: a.1.number != n)
  }

  lemma OneMoreAddition(st: LevelStates, before: seq<(nat, File)>, mid: LevelStates, l: nat, f: File)
    requires ValidStates(st) && ValidStates(mid) && HoldsAdditions(st, before, mid) && l < NUM_LEVELS
    requires forall g | g in mid.added[l] :: g.number != f.number
    ensures HoldsAdditions(st, before + [(l, f)], WithFileAdded(mid, l, f))
  {
  }

  lemma {:induction false} AdditionsExactly(base: Levels, st: LevelStates, added: seq<(nat, File)>)
    requires ValidStates(st) && Fresh(base, st, added)
    ensures HoldsAdditions(st, added, WithAdditions(st, added))
  {
    if |added| > 0 {
      var n := |added| - 1;
      var before := added[..n];
      FreshPrefix(base, st, added);
      AdditionsExactly(base, st, before);
      var mid := WithAdditions(st, before);
      forall g | g in mid.added[added[n].0] ensures g.number != added[n].1.number {
        if g !in st.added[added[n].0] {
          var j :| 0 <= j < n && before[j] == (added[n].0, g);
        }
      }
      assert added == before + [(added[n].0, added[n].1)];
      OneMoreAddition(st, before, mid, added[n].0, added[n].1);
    }
  }

  /** What one builder holds for `base` is the version `v`, file by file, and no two
      files of a level share a number. */
  ghost predicate Tracks(base: Levels, st: LevelStates, v: Levels)
    requires ValidStates(st)
  {
    forall l | 0 <= l < NUM_LEVELS ::
      && (forall f :: f in v[l] <==> (f in base[l] || f in st.added[l]) && f.number !in st.deleted[l])
      && InBuilderOrder(v[l]) && DistinctNumbers(v[l])
      && NumbersApart(base[l], st.added[l])
  }

  predicate NumbersApart(base: seq<File>, added: seq<File>) {
    && DistinctNumbers(base)
    && (forall f, g | f in base && g in added :: f.number != g.number)
    && (forall f, g | f in added && g in added && f != g :: f.number != g.number)
  }

  lemma ApartIsDistinct(base: seq<File>, added: seq<File>)
    requires NumbersApart(base, added) && StrictOrder(added)
    ensures DistinctNumbers(base + added)
  {
    var all := base + added;
    forall i, j | 0 <= i < j < |all| ensures all[i].number != all[j].number {
      if i < |base| <= j {
        assert all[i] in base && all[j] in added;
      } else if i >= |base| {
        var a, b := added[i - |base|], added[j - |base|];
        assert BySmallest(a, b);
        assert a in added && b in added && a != b;
      }
    }
  }

  ghost predicate AddsExactly(before: LevelStates, edit: FileEdit, after: LevelStates, l: nat)
    requires ValidStates(before) && ValidStates(after) && l < NUM_LEVELS
  {
    && (forall f :: f in after.added[l] <==> f in before.added[l] || (l, f) in edit.added)
    && (forall n :: n in after.deleted[l] <==> (n in before.deleted[l] || n in NumbersAt(edit.deleted, l)) && forall a | a in edit.added && a.0 == l :: a.1.number != n)
  }

  /** Applying an edit records exactly its deletions and additions. */
  lemma AppliedExactly(base: Levels, st: LevelStates, edit: FileEdit, l: nat)
    requires ValidStates(st) && edit.LevelsOk() && l < NUM_LEVELS
    requires Fresh(base, st, edit.added)
    ensures AddsExactly(st, edit, Applied(st, edit), l)
  {
    AdditionsExactly(base, WithDeletions(st, edit.deleted), edit.added);
  }

  lemma FreshOnItsOwn(base: Levels, st: LevelStates, added: seq<(nat, File)>)
    requires ValidStates(st) && Fresh(base, st, added)
    ensures Fresh(EMPTY, NO_CHANGES, added)
  {
  }

  /** One more edit, in the shared builder and in a builder of its own. */
  lemma OneMoreEdit(base: Levels, st: LevelStates, v: Levels, edit: FileEdit, v': Levels)
    requires ValidStates(st) && edit.LevelsOk()
    requires Tracks(base, st, v) && Fresh(base, st, edit.added)
    requires SavedFrom(v, Applied(NO_CHANGES, edit), v')
    ensures Tracks(base, Applied(st, edit), v')
  {
    FreshOnItsOwn(base, st, edit.added);
    var one, many := Applied(NO_CHANGES, edit), Applied(st, edit);
    hide SavedFrom, AddsExactly, Fresh, Applied;
    forall l | 0 <= l < NUM_LEVELS
      ensures forall f :: f in v'[l] <==> (f in base[l] || f in many.added[l]) && f.number !in many.deleted[l]
      ensures InBuilderOrder(v'[l]) && DistinctNumbers(v'[l])
      ensures NumbersApart(base[l], many.added[l])
    {
      AppliedExactly(EMPTY, NO_CHANGES, edit, l);
      AppliedExactly(base, st, edit, l);
      LevelAfterEdit(base, st, v, edit, v', one, many, l);
    }
  }

  lemma LevelAfterEdit(base: Levels, st: LevelStates, v: Levels, edit: FileEdit, v': Levels, one: LevelStates, many: LevelStates, l: nat)
    requires ValidStates(st) && ValidStates(one) && ValidStates(many) && l < NUM_LEVELS
    requires Tracks(base, st, v) && Fresh(base, st, edit.added)
    requires AddsExactly(NO_CHANGES, edit, one, l) && AddsExactly(st, edit, many, l)
    requires SavedFrom(v, one, v')
    ensures forall f :: f in v'[l] <==> (f in base[l] || f in many.added[l]) && f.number !in many.deleted[l]
    ensures InBuilderOrder(v'[l]) && DistinctNumbers(v'[l])
    ensures NumbersApart(base[l], many.added[l])
  {
    forall f, g | (l, f) in edit.added && ((g in base[l] || g in st.added[l]) || ((l, g) in edit.added && g != f))
      ensures f.number != g.number
    {
      var i :| 0 <= i < |edit.added| && edit.added[i] == (l, f);
      if (l, g) in edit.added {
        var j :| 0 <= j < |edit.added| && edit.added[j] == (l, g);
      }
    }
    assert NumbersApart(v[l], one.added[l]);
    ApartIsDistinct(v[l], one.added[l]);
  }

  ghost function AppliedAll(edits: seq<FileEdit>): (r: LevelStates)
    requires forall e | e in edits :: e.LevelsOk()
    ensures ValidStates(r)
  {
    if |edits| == 0 then NO_CHANGES
    else Applied(AppliedAll(edits[..|edits| - 1]), edits[|edits| - 1])
  }

  /** Versions installed one edit at a time. */
  ghost predicate Installed(edits: seq<FileEdit>, versions: seq<Levels>) {
    && |versions| == |edits| + 1
    && (forall e | e in edits :: e.LevelsOk())
    && forall i | 0 <= i < |edits| :: SavedFrom(versions[i], Applied(NO_CHANGES, edits[i]), versions[i + 1])
  }

  /** Every edit adds only files whose (level, number) was never used before. */
  ghost predicate AllFresh(base: Levels, edits: seq<FileEdit>)
    requires forall e | e in edits :: e.LevelsOk()
  {
    forall i | 0 <= i < |edits| :: Fresh(base, AppliedAll(edits[..i]), edits[i].added)
  }

  lemma InstalledPrefix(edits: seq<FileEdit>, versions: seq<Levels>, n: nat)
    requires Installed(edits, versions) && AllFresh(versions[0], edits) && n < |edits|
    ensures Installed(edits[..n], versions[..n + 1]) && AllFresh(versions[0], edits[..n])
    ensures SavedFrom(versions[n], Applied(NO_CHANGES, edits[n]), versions[n + 1])
    ensures edits[n].LevelsOk() && Fresh(versions[0], AppliedAll(edits[..n]), edits[n].added)
  {
    hide Fresh, SavedFrom, AppliedAll;
    var before := edits[..n];
    forall i | 0 <= i < n ensures Fresh(versions[0], AppliedAll(before[..i]), before[i].added) {
      assert before[..i] == edits[..i];
      assert Fresh(versions[0], AppliedAll(edits[..i]), edits[i].added);
    }
  }

  lemma {:induction false} ReplayTracks(edits: seq<FileEdit>, versions: seq<Levels>)
    requires Installed(edits, versions) && AllFresh(versions[0], edits)
    requires forall l | 0 <= l < NUM_LEVELS :: InBuilderOrder(versions[0][l]) && DistinctNumbers(versions[0][l])
    ensures Tracks(versions[0], AppliedAll(edits), versions[|edits|])
  {
    var n := |edits| - 1;
    if n >= 0 {
      var before := edits[..n];
      InstalledPrefix(edits, versions, n);
      hide Fresh, Tracks, SavedFrom, AppliedAll;
      ReplayTracks(before, versions[..n+1]);
      OneMoreEdit(versions[0], AppliedAll(before), versions[n], edits[n], versions[n + 1]);
    }
  }

  /** A level in order without equal numbers is determined by its files. */
  lemma {:induction false} SameFilesSameLevel(a: seq<File>, b: seq<File>)
    requires InBuilderOrder(a) && DistinctNumbers(a) && InBuilderOrder(b) && DistinctNumbers(b)
    requires forall f :: f in a <==> f in b
    ensures a == b
  {
    assert |b| > 0 ==> b[0] in a;
    if |a| > 0 {
      assert a[0] in b && b[0] in a;
      FirstIsFirst(a, b);
      forall f ensures f in a[1..] <==> f in b[1..] {
        assert f in a <==> f == a[0] || f in a[1..];
        assert f in b <==> f == b[0] || f in b[1..];
        NotTwice(a);
        NotTwice(b);
      }
      SameFilesSameLevel(a[1..], b[1..]);
    }
  }

  lemma NotTwice(a: seq<File>)
    requires |a| > 0 && DistinctNumbers(a)
    ensures a[0] !in a[1..]
  {
  }

  lemma FirstIsLeast(a: seq<File>, i: nat)
    requires InBuilderOrder(a) && i < |a|
    ensures !BySmallest(a[i], a[0])
  {
  }

  lemma FirstIsFirst(a: seq<File>, b: seq<File>)
    requires InBuilderOrder(a) && DistinctNumbers(a) && InBuilderOrder(b) && DistinctNumbers(b)
    requires |a| > 0 && |b| > 0 && a[0] in b && b[0] in a
    ensures a[0] == b[0]
  {
    var i :| 0 <= i < |b| && b[i] == a[0];
    var j :| 0 <= j < |a| && a[j] == b[0];
    FirstIsLeast(b, i);
    FirstIsLeast(a, j);
    assert b[i].number == b[0].number;
  }

  function Tagged(l: nat, files: seq<File>): (r: seq<(nat, File)>)
    ensures |r| == |files| && forall i | 0 <= i < |r| :: r[i] == (l, files[i])
  {
    seq(|files|, i requires 0 <= i < |files| => (l, files[i]))
  }

  /** The record WriteSnapshot puts at the head of a new manifest. */
  function SnapshotOf(v: Levels, n: nat): (r: seq<(nat, File)>)
    requires n <= NUM_LEVELS
    ensures forall a | a in r :: a.0 < n && a.1 in v[a.0]
  {
    if n == 0 then [] else SnapshotOf(v, n - 1) + Tagged(n - 1, v[n - 1])
  }

  function SnapshotEdit(v: Levels): FileEdit {
    FileEdit({}, SnapshotOf(v, NUM_LEVELS))
  }

  lemma {:induction false} SnapshotHolds(v: Levels, n: nat, l: nat, f: File)
    requires l < n <= NUM_LEVELS && f in v[l]
    ensures (l, f) in SnapshotOf(v, n)
  {
    if l < n - 1 {
      SnapshotHolds(v, n - 1, l, f);
    } else {
      var i :| 0 <= i < |v[l]| && v[l][i] == f;
      assert Tagged(l, v[l])[i] == (l, f);
    }
  }

  predicate DistinctPairs(r: seq<(nat, File)>) {
    forall i, j | 0 <= j < i < |r| && r[j].0 == r[i].0 :: r[j].1.number != r[i].1.number
  }

  lemma TaggedStayDistinct(before: seq<(nat, File)>, l: nat, files: seq<File>)
    requires DistinctPairs(before) && DistinctNumbers(files)
    requires forall a | a in before :: a.0 < l
    ensures DistinctPairs(before + Tagged(l, files))
  {
    var r, t := before + Tagged(l, files), Tagged(l, files);
    forall i, j | 0 <= j < i < |r| && r[j].0 == r[i].0 ensures r[j].1.number != r[i].1.number {
      assert j < |before| ==> before[j] in before;
      if i >= |before| {
        assert r[i] == t[i - |before|] && r[j] == t[j - |before|];
      }
    }
  }

  lemma {:induction false} SnapshotNumbers(v: Levels, n: nat)
    requires n <= NUM_LEVELS
    requires forall l | 0 <= l < NUM_LEVELS :: DistinctNumbers(v[l])
    ensures DistinctPairs(SnapshotOf(v, n))
  {
    if n > 0 {
      SnapshotNumbers(v, n - 1);
      TaggedStayDistinct(SnapshotOf(v, n - 1), n - 1, v[n - 1]);
    }
  }

  /** A builder that took in the snapshot of `v` holds the files of `v`. */
  lemma SnapshotIsHeld(v: Levels)
    requires forall l | 0 <= l < NUM_LEVELS :: DistinctNumbers(v[l])
    ensures var st := Applied(NO_CHANGES, SnapshotEdit(v));
      forall l | 0 <= l < NUM_LEVELS :: st.deleted[l] == {} && forall f :: f in st.added[l] <==> f in v[l]
  {
    var edit := SnapshotEdit(v);
    var st := Applied(NO_CHANGES, edit);
    SnapshotNumbers(v, NUM_LEVELS);
    NoDeletions(NO_CHANGES);
    assert forall l | 0 <= l < NUM_LEVELS :: EMPTY[l] == [] && NO_CHANGES.added[l] == [] && NO_CHANGES.deleted[l] == {};
    AdditionsExactly(EMPTY, NO_CHANGES, edit.added);
    forall l, f | 0 <= l < NUM_LEVELS ensures f in st.added[l] <==> f in v[l] {
      if f in v[l] { SnapshotHolds(v, NUM_LEVELS, l, f); }
    }
  }

  /** What a builder saves is the version it tracks. */
  lemma TrackedLevel(base: Levels, st: LevelStates, live: Levels, saved: Levels, l: nat)
    requires ValidStates(st) && Tracks(base, st, live) && SavedFrom(base, st, saved) && l < NUM_LEVELS
    ensures saved[l] == live[l]
  {
    ApartIsDistinct(base[l], st.added[l]);
    SameFilesSameLevel(saved[l], live[l]);
  }

  lemma EmptyInOrder()
    ensures forall l | 0 <= l < NUM_LEVELS :: InBuilderOrder(EMPTY[l]) && DistinctNumbers(EMPTY[l])
  {
  }

  /** A manifest is a snapshot of some version followed by edits; replaying it through
      one builder gives exactly the version those edits led to, level by level. */
  lemma ManifestReplayIsCurrentVersion(edits: seq<FileEdit>, versions: seq<Levels>, recovered: Levels)
    requires |edits| > 0 && Installed(edits, versions)
    requires versions[0] == EMPTY
    requires AllFresh(EMPTY, edits)
    requires SavedFrom(EMPTY, AppliedAll(edits), recovered)
    ensures recovered == versions[|edits|]
  {
    EmptyInOrder();
    ReplayTracks(edits, versions);
    hide Tracks, SavedFrom, AppliedAll, AllFresh, Installed;
    forall l | 0 <= l < NUM_LEVELS ensures recovered[l] == versions[|edits|][l] {
      TrackedLevel(EMPTY, AppliedAll(edits), versions[|edits|], recovered, l);
    }
  }

  /** The snapshot record alone rebuilds the version it was taken of. */
  lemma SnapshotRebuilds(v: Levels, u: Levels)
    requires forall l | 0 <= l < NUM_LEVELS :: InBuilderOrder(v[l]) && DistinctNumbers(v[l])
    requires SavedFrom(EMPTY, Applied(NO_CHANGES, SnapshotEdit(v)), u)
    ensures u == v
  {
    SnapshotIsHeld(v);
    var st := Applied(NO_CHANGES, SnapshotEdit(v));
    forall l | 0 <= l < NUM_LEVELS ensures u[l] == v[l] {
      DistinctFiles(v[l]);
      ApartIsDistinct([], st.added[l]);
      assert EMPTY[l] == [];
      SameFilesSameLevel(u[l], v[l]);
    }
  }

  lemma DistinctFiles(files: seq<File>)
    requires DistinctNumbers(files)
    ensures forall f, g | f in files && g in files && f != g :: f.number != g.number
  {
  }
}
