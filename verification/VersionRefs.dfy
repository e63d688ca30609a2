/** Reference counts of versions and of the files they share (db/version_set.cc: ~Version,
    Version::Ref and Unref, Builder, AppendVersion). */
module VersionRefs {
  import opened Entries

  /** Which object a pointer leads to. */
  type ObjectId = int

  /** A version in the linked list: its files, all levels together, by identity. */
  datatype VersionRecord = VersionRecord(id: ObjectId, refs: int, files: seq<ObjectId>)

  // ---- counting ----

  function RefOf(counts: map<ObjectId, int>, f: ObjectId): int {
    if f in counts then counts[f] else 0
  }

  /** A file whose count reached zero was deleted. */
  predicate AllPositive(counts: map<ObjectId, int>) {
    forall f | f in counts :: counts[f] > 0
  }

  /** How often the versions of the list hold a file. */
  function HeldBy(vs: seq<VersionRecord>, f: ObjectId): nat {
    if |vs| == 0 then 0 else HeldBy(vs[..|vs| - 1], f) + multiset(vs[|vs| - 1].files)[f]
  }

  predicate DistinctIds(vs: seq<VersionRecord>) {
    forall i, j | 0 <= i < j < |vs| :: vs[i].id != vs[j].id
  }

  lemma {:induction false} HeldByWithout(vs: seq<VersionRecord>, i: nat, f: ObjectId)
    requires i < |vs|
    ensures HeldBy(vs, f) == HeldBy(vs[..i] + vs[i + 1..], f) + multiset(vs[i].files)[f]
  {
    var n := |vs| - 1;
    if i < n {
      HeldByWithout(vs[..n], i, f);
      assert vs[..n][..i] + vs[..n][i + 1..] == (vs[..i] + vs[i + 1..])[..n - 1];
    } else {
      assert vs[..i] + vs[i + 1..] == vs[..n];
    }
  }

  lemma {:induction false} HeldByFiles(vs: seq<VersionRecord>, ws: seq<VersionRecord>, f: ObjectId)
    requires |vs| == |ws| && forall i | 0 <= i < |vs| :: vs[i].files == ws[i].files
    ensures HeldBy(vs, f) == HeldBy(ws, f)
  {
    if |vs| > 0 { HeldByFiles(vs[..|vs| - 1], ws[..|ws| - 1], f); }
  }

  lemma HeldByOneMore(vs: seq<VersionRecord>, v: VersionRecord, f: ObjectId)
    ensures HeldBy(vs + [v], f) == HeldBy(vs, f) + multiset(v.files)[f]
  {
    assert (vs + [v])[..|vs|] == vs;
  }

  /** The files of a version in the list are held. */
  lemma ListedIsHeld(vs: seq<VersionRecord>, i: nat, f: ObjectId)
    requires i < |vs| && f in vs[i].files
    ensures HeldBy(vs, f) > 0
  {
    HeldByWithout(vs, i, f);
  }

  lemma {:induction false} HeldIsListed(vs: seq<VersionRecord>, f: ObjectId)
    requires HeldBy(vs, f) > 0
    ensures exists i :: 0 <= i < |vs| && f in vs[i].files
  {
    var n := |vs| - 1;
    if f !in vs[n].files {
      HeldIsListed(vs[..n], f);
      var i :| 0 <= i < n && f in vs[..n][i].files;
      assert f in vs[i].files;
    }
  }

  // ---- the loops over files ----

  /** The loop of ~Version and of ~Builder. */
  method UnrefFiles(counts: map<ObjectId, int>, files: seq<ObjectId>) returns (after: map<ObjectId, int>)
    requires AllPositive(counts) && forall f :: multiset(files)[f] <= RefOf(counts, f)
    ensures AllPositive(after) && forall f :: RefOf(after, f) == RefOf(counts, f) - multiset(files)[f]
  {
    after := counts;
    for i := 0 to |files|
      invariant AllPositive(after)
      invariant forall f :: RefOf(after, f) == RefOf(counts, f) - multiset(files[..i])[f]
    {
      OneMoreFile(files, i);
      assert multiset(files)[files[i]] <= RefOf(counts, files[i]);
      MoreThanBefore(files, i);
      var f := files[i];
      var refs := after[f] - 1;
      after := if refs == 0 then after - {f} else after[f := refs];
    }
    assert files[..|files|] == files;
  }

  lemma OneMoreFile(files: seq<ObjectId>, i: nat)
    requires i < |files|
    ensures multiset(files[..i + 1]) == multiset(files[..i]) + multiset{files[i]}
  {
    assert files[..i + 1] == files[..i] + [files[i]];
  }

  lemma MoreThanBefore(files: seq<ObjectId>, i: nat)
    requires i < |files|
    ensures multiset(files)[files[i]] > multiset(files[..i])[files[i]]
  {
    assert files == files[..i] + ([files[i]] + files[i + 1..]);
  }

  /** The increments of MaybeAddFile. */
  method RefFiles(counts: map<ObjectId, int>, files: seq<ObjectId>) returns (after: map<ObjectId, int>)
    requires AllPositive(counts) && forall i | 0 <= i < |files| :: files[i] in counts
    ensures AllPositive(after) && forall f :: RefOf(after, f) == RefOf(counts, f) + multiset(files)[f]
  {
    after := counts;
    for i := 0 to |files|
      invariant AllPositive(after) && after.Keys == counts.Keys
      invariant forall f :: RefOf(after, f) == RefOf(counts, f) + multiset(files[..i])[f]
    {
      OneMoreFile(files, i);
      assert files[i] in counts.Keys;
      after := after[files[i] := after[files[i]] + 1];
    }
    assert files[..|files|] == files;
  }

  // ---- where files lie ----

  /** The level a file object was made for, and its number. */
  type Place = (nat, nat)

  function PlaceOf(places: map<ObjectId, Place>, f: ObjectId): Place {
    if f in places then places[f] else (0, 0)
  }

  /** MaybeAddFile: the files that are not deleted from their level. */
  function Live(files: seq<ObjectId>, places: map<ObjectId, Place>, deleted: set<Place>): (live: seq<ObjectId>)
    ensures forall f :: f in live <==> f in files && PlaceOf(places, f) !in deleted
  {
    if |files| == 0 then []
    else
      var n := |files| - 1;
      assert files == files[..n] + [files[n]];
      Live(files[..n], places, deleted) + (if PlaceOf(places, files[n]) in deleted then [] else [files[n]])
  }

  method LiveFiles(files: seq<ObjectId>, places: map<ObjectId, Place>, deleted: set<Place>) returns (live: seq<ObjectId>)
    ensures live == Live(files, places, deleted)
  {
    live := [];
    for i := 0 to |files|
      invariant live == Live(files[..i], places, deleted)
    {
      assert files[..i + 1][..i] == files[..i];
      if PlaceOf(places, files[i]) !in deleted { live := live + [files[i]]; }
    }
    assert files[..|files|] == files;
  }

  // ---- what is counted ----

  /** The count of a file is the number of versions and builders that hold it. */
  ghost predicate FilesCounted(counts: map<ObjectId, int>, vs: seq<VersionRecord>, added: seq<ObjectId>, unlinked: seq<ObjectId>) {
    && AllPositive(counts)
    && forall f :: RefOf(counts, f) == HeldBy(vs, f) + multiset(added)[f] + multiset(unlinked)[f]
  }

  predicate Listed(vs: seq<VersionRecord>, id: ObjectId) {
    exists i :: 0 <= i < |vs| && vs[i].id == id
  }

  /** The count of a version is the number of references held on it, and a version exists
      exactly as long as there are any. */
  ghost predicate VersionsCounted(vs: seq<VersionRecord>, held: multiset<ObjectId>) {
    && DistinctIds(vs)
    && (forall i | 0 <= i < |vs| :: vs[i].refs == held[vs[i].id] > 0)
    && (forall id | id in held :: Listed(vs, id))
  }

  predicate IdsBelow(counts: map<ObjectId, int>, vs: seq<VersionRecord>, next: ObjectId) {
    (forall i | 0 <= i < |vs| :: vs[i].id < next) && (forall f | f in counts :: f < next)
  }

  function WithRefs(vs: seq<VersionRecord>, i: nat, refs: int): (r: seq<VersionRecord>)
    requires i < |vs|
    ensures |r| == |vs| && forall j | 0 <= j < |r| :: r[j].id == vs[j].id && r[j].files == vs[j].files && r[j].refs == if j == i then refs else vs[j].refs
  {
    vs[i := vs[i].(refs := refs)]
  }

  /** Only reference counts differ. */
  predicate SameVersions(vs: seq<VersionRecord>, ws: seq<VersionRecord>) {
    |vs| == |ws| && forall i | 0 <= i < |vs| :: vs[i].id == ws[i].id && vs[i].files == ws[i].files
  }

  lemma SameIdsListed(vs: seq<VersionRecord>, ws: seq<VersionRecord>, id: ObjectId)
    requires |vs| == |ws| && (forall i | 0 <= i < |vs| :: vs[i].id == ws[i].id) && Listed(vs, id)
    ensures Listed(ws, id)
  {
    var i :| 0 <= i < |vs| && vs[i].id == id;
    assert ws[i].id == id;
  }

  lemma HeldIsCounted(vs: seq<VersionRecord>, held: multiset<ObjectId>, id: ObjectId)
    requires VersionsCounted(vs, held) && id in held
    ensures Listed(vs, id)
  {
  }

  lemma RefsAre(vs: seq<VersionRecord>, held: multiset<ObjectId>, i: nat)
    requires VersionsCounted(vs, held) && i < |vs|
    ensures vs[i].refs == held[vs[i].id] > 0
  {
  }

  lemma CountChanged(vs: seq<VersionRecord>, held: multiset<ObjectId>, i: nat, held': multiset<ObjectId>)
    requires VersionsCounted(vs, held) && i < |vs|
    requires held' == held[vs[i].id := held'[vs[i].id]] && held'[vs[i].id] > 0
    ensures VersionsCounted(WithRefs(vs, i, held'[vs[i].id]), held')
  {
    var ws := WithRefs(vs, i, held'[vs[i].id]);
    forall id | id in held' ensures Listed(ws, id) {
      if id == vs[i].id { assert Listed(vs, id); }
      SameIdsListed(vs, ws, id);
    }
  }

  lemma LastReference(vs: seq<VersionRecord>, held: multiset<ObjectId>, i: nat)
    requires VersionsCounted(vs, held) && i < |vs| && vs[i].refs == 1
    ensures VersionsCounted(vs[..i] + vs[i + 1..], held - multiset{vs[i].id})
  {
    var ws, held' := vs[..i] + vs[i + 1..], held - multiset{vs[i].id};
    assert forall j | 0 <= j < |ws| :: ws[j] == vs[if j < i then j else j + 1];
    forall id | id in held' ensures Listed(ws, id) {
      assert id in held && id != vs[i].id;
      var j :| 0 <= j < |vs| && vs[j].id == id;
      assert ws[if j < i then j else j - 1].id == id;
    }
  }

  lemma RefsDoNotMatter(counts: map<ObjectId, int>, vs: seq<VersionRecord>, i: nat, refs: int, added: seq<ObjectId>, unlinked: seq<ObjectId>, next: ObjectId)
    requires FilesCounted(counts, vs, added, unlinked) && i < |vs| && IdsBelow(counts, vs, next)
    ensures FilesCounted(counts, WithRefs(vs, i, refs), added, unlinked) && IdsBelow(counts, WithRefs(vs, i, refs), next)
  {
    forall f ensures HeldBy(vs, f) == HeldBy(WithRefs(vs, i, refs), f) { HeldByFiles(vs, WithRefs(vs, i, refs), f); }
  }

  /** Dropping a version releases its files. */
  lemma VersionDropped(counts: map<ObjectId, int>, counts': map<ObjectId, int>, vs: seq<VersionRecord>, i: nat, added: seq<ObjectId>, unlinked: seq<ObjectId>)
    requires FilesCounted(counts, vs, added, unlinked) && i < |vs| && AllPositive(counts')
    requires forall f :: RefOf(counts', f) == RefOf(counts, f) - multiset(vs[i].files)[f]
    ensures FilesCounted(counts', vs[..i] + vs[i + 1..], added, unlinked)
  {
    forall f ensures HeldBy(vs, f) == HeldBy(vs[..i] + vs[i + 1..], f) + multiset(vs[i].files)[f] { HeldByWithout(vs, i, f); }
  }

  class VersionSet {
    /** The file objects that exist, with their counts. */
    var fileRefs: map<ObjectId, int>
    /** The list behind dummy_versions_, oldest first. */
    var versions: seq<VersionRecord>
    var current: ObjectId
    /** Which level and number a file object stands for. */
    var places: map<ObjectId, Place>
    /** The builder, if there is one: its base, the files it added, and what it deletes. */
    var base: Option<ObjectId>
    var added: seq<ObjectId>
    var deleted: set<Place>
    /** The version LogAndApply is about to append; it is not in the list yet. */
    var unlinked: seq<ObjectId>
    var nextId: ObjectId
    /** Every reference somebody holds on a version: the current one, the builder's base,
        readers and compactions. */
    ghost var held: multiset<ObjectId>

    ghost predicate Valid()
      reads this
    {
      FilesCounted(fileRefs, versions, added, unlinked) && VersionsCounted(versions, held) && IdsBelow(fileRefs, versions, nextId)
    }

    /** The current version and the builder each hold a reference of their own. */
    ghost predicate Owned()
      reads this
    {
      current in held && (base.Some? ==> base.value in held - multiset{current})
    }

    /** An empty version is current from the start. */
    constructor ()
      ensures Valid() && Owned() && fileRefs == map[] && base.None? && added == [] && unlinked == []
      ensures held == multiset{current} && |versions| == 1 && versions[0].files == []
    {
      fileRefs, versions, current := map[], [VersionRecord(0, 1, [])], 0;
      base, added, deleted, unlinked, places, nextId := None, [], {}, [], map[], 1;
      held := multiset{0};
      new;
      assert versions[0].id == 0;
      assert versions[..0] == [] && HeldBy([], 0) == 0;
      assert forall f :: HeldBy(versions, f) == HeldBy(versions[..0], f) + multiset(versions[0].files)[f];
    }

    method Find(id: ObjectId) returns (i: nat)
      requires Listed(versions, id)
      ensures i < |versions| && versions[i].id == id
    {
      i := 0;
      while versions[i].id != id
        invariant i < |versions| && exists j :: i <= j < |versions| && versions[j].id == id
        decreases |versions| - i
      {
        i := i + 1;
      }
    }

    /** Version::Ref. */
    method Ref(id: ObjectId)
      requires Valid() && id in held
      modifies this`versions, this`held
      ensures Valid() && held == old(held) + multiset{id} && SameVersions(versions, old(versions))
    {
      var i := Find(id);
      assert versions[i].refs + 1 == (held + multiset{id})[id];
      CountChanged(versions, held, i, held + multiset{id});
      RefsDoNotMatter(fileRefs, versions, i, versions[i].refs + 1, added, unlinked, nextId);
      hide VersionsCounted, FilesCounted, IdsBelow;
      versions := WithRefs(versions, i, versions[i].refs + 1);
      held := held + multiset{id};
    }

    /** Version::Unref; the last reference deletes the version and releases its files. */
    method Unref(id: ObjectId)
      requires Valid() && id in held
      modifies this`versions, this`held, this`fileRefs
      ensures Valid() && held == old(held) - multiset{id}
    {
      hide VersionsCounted, FilesCounted, IdsBelow;
      HeldIsCounted(versions, held, id);
      var i := Find(id);
      RefsAre(versions, held, i);
      if versions[i].refs == 1 {
        DeleteVersion(i);
      } else {
        CountChanged(versions, held, i, held - multiset{id});
        RefsDoNotMatter(fileRefs, versions, i, versions[i].refs - 1, added, unlinked, nextId);
        versions := WithRefs(versions, i, versions[i].refs - 1);
        held := held - multiset{id};
      }
    }

    /** ~Version. */
    method DeleteVersion(i: nat)
      requires Valid() && i < |versions| && versions[i].refs == 1
      modifies this`versions, this`held, this`fileRefs
      ensures Valid() && held == old(held) - multiset{old(versions[i].id)}
    {
      ghost var id := versions[i].id;
      LastReference(versions, held, i);
      DropFiles(i);
      assert IdsBelow(fileRefs, versions[..i] + versions[i + 1..], nextId);
      hide VersionsCounted, FilesCounted, IdsBelow;
      versions := versions[..i] + versions[i + 1..];
      held := held - multiset{id};
    }

    method DropFiles(i: nat)
      requires FilesCounted(fileRefs, versions, added, unlinked) && i < |versions|
      modifies this`fileRefs
      ensures FilesCounted(fileRefs, versions[..i] + versions[i + 1..], added, unlinked)
      ensures fileRefs.Keys <= old(fileRefs.Keys)
    {
      forall f ensures multiset(versions[i].files)[f] <= RefOf(fileRefs, f) { HeldByWithout(versions, i, f); }
      var after := UnrefFiles(fileRefs, versions[i].files);
      VersionDropped(fileRefs, after, versions, i, added, unlinked);
      forall f | f in after ensures f in fileRefs { assert RefOf(after, f) > 0; }
      hide FilesCounted;
      fileRefs := after;
    }

    // ---- the builder ----

    /** The builder keeps its base alive. */
    method StartBuilder(deletes: set<Place>)
      requires Valid() && Owned() && base.None?
      modifies this`versions, this`held, this`base, this`deleted
      ensures Valid() && Owned() && base == Some(current) && deleted == deletes && SameVersions(versions, old(versions))
    {
      hide VersionsCounted, FilesCounted, IdsBelow;
      Ref(current);
      base := Some(current);
      deleted := deletes;
    }

    /** Apply: a new file object with one reference, held by the builder; its number is no
        longer deleted from the level. */
    method AddFile(place: Place) returns (f: ObjectId)
      requires Valid()
      modifies this`fileRefs, this`added, this`nextId, this`places, this`deleted
      ensures Valid() && f !in old(fileRefs) && added == old(added) + [f] && nextId == old(nextId) + 1
      ensures f == old(nextId) && places == old(places)[f := place] && deleted == old(deleted) - {place}
    {
      hide VersionsCounted, FilesCounted, IdsBelow;
      f := nextId;
      NewFileCounted(fileRefs, versions, added, unlinked, f);
      fileRefs := fileRefs[f := 1];
      places := places[f := place];
      deleted := deleted - {place};
      added := added + [f];
      nextId := nextId + 1;
    }

    /** SaveTo: the new version holds the files of the base and the added ones, except those
        deleted from their level. */
    method SaveTo(ghost b: nat)
      requires Valid() && unlinked == [] && base.Some? && b < |versions| && versions[b].id == base.value
      modifies this`fileRefs, this`unlinked
      ensures Valid() && unlinked == Live(versions[b].files + added, places, deleted)
    {
      var i := Find(base.value);
      assert i == b;
      var kept := LiveFiles(versions[i].files + added, places, deleted);
      RefKept(kept, i);
    }

    method RefKept(kept: seq<ObjectId>, ghost b: nat)
      requires Valid() && unlinked == []
      requires b < |versions| && forall f | f in kept :: f in added || f in versions[b].files
      modifies this`fileRefs, this`unlinked
      ensures Valid() && unlinked == kept
    {
      forall f | f in kept ensures f in fileRefs {
        if f in versions[b].files { ListedIsHeld(versions, b, f); }
        assert RefOf(fileRefs, f) > 0;
      }
      var after := RefFiles(fileRefs, kept);
      KeptCounted(fileRefs, after, versions, added, kept, nextId);
      hide VersionsCounted, FilesCounted, IdsBelow;
      fileRefs := after;
      unlinked := kept;
    }

    /** ~Builder. */
    method EndBuilder()
      requires Valid() && Owned() && base.Some?
      modifies this`fileRefs, this`added, this`versions, this`held, this`base
      ensures Valid() && Owned() && base.None? && added == []
    {
      hide VersionsCounted, FilesCounted, IdsBelow;
      ReleaseAdded();
      var b := base.value;
      StillHeld(held, current, b);
      Unref(b);
      base := None;
    }

    method ReleaseAdded()
      requires Valid()
      modifies this`fileRefs, this`added
      ensures Valid() && added == []
    {
      var after := ReleaseFiles(added);
      ReleasedCounted(fileRefs, after, versions, added, unlinked, nextId);
      hide VersionsCounted, FilesCounted, IdsBelow;
      fileRefs := after;
      added := [];
    }

    method ReleaseFiles(files: seq<ObjectId>) returns (after: map<ObjectId, int>)
      requires FilesCounted(fileRefs, versions, added, unlinked) && (files == added || files == unlinked)
      ensures AllPositive(after) && forall f :: RefOf(after, f) == RefOf(fileRefs, f) - multiset(files)[f]
    {
      assert forall f :: multiset(files)[f] <= RefOf(fileRefs, f);
      hide FilesCounted;
      after := UnrefFiles(fileRefs, files);
    }

    // ---- LogAndApply ----

    /** AppendVersion: the new version becomes current, the old one loses the reference it
        had for that. */
    method AppendVersion()
      requires Valid() && Owned()
      modifies this`versions, this`held, this`fileRefs, this`current, this`unlinked, this`nextId
      ensures Valid() && Owned() && unlinked == []
      ensures |versions| > 0 && versions[|versions| - 1] == VersionRecord(current, 1, old(unlinked))
      ensures held == old(held) - multiset{old(current)} + multiset{current}
    {
      hide VersionsCounted, FilesCounted, IdsBelow;
      Unref(current);
      Link();
    }

    method Link()
      requires Valid()
      modifies this`versions, this`held, this`current, this`unlinked, this`nextId
      ensures Valid() && unlinked == [] && current == old(nextId) && held == old(held) + multiset{current}
      ensures versions == old(versions) + [VersionRecord(current, 1, old(unlinked))]
    {
      var v := VersionRecord(nextId, 1, unlinked);
      LinkedFilesCounted(fileRefs, versions, added, v);
      LinkedVersionsCounted(fileRefs, versions, held, v);
      hide *;
      versions, current, unlinked, nextId := versions + [v], nextId, [], nextId + 1;
      held := held + multiset{v.id};
    }

    /** The version that could not be logged is deleted. */
    method DropUnlinked()
      requires Valid()
      modifies this`fileRefs, this`unlinked
      ensures Valid() && unlinked == []
    {
      var after := ReleaseFiles(unlinked);
      DroppedCounted(fileRefs, after, versions, added, unlinked, nextId);
      hide VersionsCounted, FilesCounted, IdsBelow;
      fileRefs := after;
      unlinked := [];
    }
  }

  /** What holds between two calls of LogAndApply: no builder, no version half made. */
  ghost predicate Settled(vs: VersionSet)
    reads vs
  {
    vs.Valid() && vs.Owned() && vs.base.None? && vs.added == [] && vs.unlinked == []
  }

  /** What an edit deletes once its additions are in. */
  function StillDeleted(deletes: set<Place>, adds: seq<Place>): (d: set<Place>)
    ensures forall p :: p in d <==> p in deletes && p !in adds
  {
    deletes - (set p | p in adds)
  }

  lemma OneMoreAdded(deletes: set<Place>, adds: seq<Place>, i: nat)
    requires i < |adds|
    ensures StillDeleted(deletes, adds[..i + 1]) == StillDeleted(deletes, adds[..i]) - {adds[i]}
  {
    assert adds[..i + 1] == adds[..i] + [adds[i]];
  }

  /** The new objects stand for the additions, one each. */
  predicate MadeFor(places: map<ObjectId, Place>, news: seq<ObjectId>, adds: seq<Place>, next: ObjectId) {
    |news| == |adds| && forall i | 0 <= i < |news| :: news[i] < next && PlaceOf(places, news[i]) == adds[i]
  }

  lemma OneMoreMade(places: map<ObjectId, Place>, news: seq<ObjectId>, adds: seq<Place>, next: ObjectId, p: Place)
    requires MadeFor(places, news, adds, next)
    ensures MadeFor(places[next := p], news + [next], adds + [p], next + 1)
  {
  }

  /** Apply: one object for every addition of the edit. */
  method AddFiles(vs: VersionSet, deletes: set<Place>, adds: seq<Place>)
    requires vs.Valid() && vs.Owned() && vs.base.Some? && vs.unlinked == [] && vs.added == [] && vs.deleted == deletes
    modifies vs`fileRefs, vs`added, vs`nextId, vs`places, vs`deleted
    ensures vs.Valid() && MadeFor(vs.places, vs.added, adds, vs.nextId) && vs.deleted == StillDeleted(deletes, adds)
    ensures forall f | f < old(vs.nextId) :: PlaceOf(vs.places, f) == PlaceOf(old(vs.places), f)
    ensures forall f | f in vs.added :: f >= old(vs.nextId)
  {
    hide VersionsCounted, FilesCounted, IdsBelow, MadeFor;
    NothingMade(vs.places, vs.nextId, deletes);
    for i := 0 to |adds|
      invariant vs.Valid() && old(vs.nextId) <= vs.nextId && vs.deleted == StillDeleted(deletes, adds[..i])
      invariant MadeFor(vs.places, vs.added, adds[..i], vs.nextId)
      invariant forall f | f < old(vs.nextId) :: PlaceOf(vs.places, f) == PlaceOf(old(vs.places), f)
      invariant forall f | f in vs.added :: f >= old(vs.nextId)
    {
      OneMoreAdded(deletes, adds, i);
      OneMoreMade(vs.places, vs.added, adds[..i], vs.nextId, adds[i]);
      assert adds[..i + 1] == adds[..i] + [adds[i]];
      var f := vs.AddFile(adds[i]);
    }
    assert adds[..|adds|] == adds;
  }

  lemma NothingMade(places: map<ObjectId, Place>, next: ObjectId, deletes: set<Place>)
    ensures MadeFor(places, [], [], next) && StillDeleted(deletes, []) == deletes
  {
  }

  /** The files of a version and new objects, of which those live after an edit. */
  ghost predicate EditApplied(base: seq<ObjectId>, before: map<ObjectId, Place>, next: ObjectId, deletes: set<Place>, adds: seq<Place>,
                              places: map<ObjectId, Place>, news: seq<ObjectId>, files: seq<ObjectId>) {
    && |news| == |adds| && (forall i | 0 <= i < |news| :: next <= news[i] && PlaceOf(places, news[i]) == adds[i])
    && (forall f | f < next :: PlaceOf(places, f) == PlaceOf(before, f))
    && files == Live(base + news, places, StillDeleted(deletes, adds))
  }

  /** What LogAndApply does with its builder. */
  method BuildVersion(vs: VersionSet, deletes: set<Place>, adds: seq<Place>, ghost b: nat) returns (ghost news: seq<ObjectId>)
    requires Settled(vs) && b < |vs.versions| && vs.versions[b].id == vs.current
    modifies vs
    ensures vs.Valid() && vs.Owned() && vs.base.None? && vs.added == [] && vs.current == old(vs.current)
    ensures EditApplied(old(vs.versions[b].files), old(vs.places), old(vs.nextId), deletes, adds, vs.places, news, vs.unlinked)
  {
    hide VersionsCounted, FilesCounted, IdsBelow, Live, StillDeleted;
    vs.StartBuilder(deletes);
    AddFiles(vs, deletes, adds);
    news := vs.added;
    vs.SaveTo(b);
    ghost var files := vs.unlinked;
    vs.EndBuilder();
  }

  /** The versions and files of one LogAndApply: a builder on the current version applies an
      edit; the new version holds what is live then, and is appended if the record could be
      written and deleted otherwise. */
  method LogAndApply(vs: VersionSet, deletes: set<Place>, adds: seq<Place>, ghost b: nat, logged: bool)
    returns (ghost news: seq<ObjectId>, ghost files: seq<ObjectId>)
    requires Settled(vs) && b < |vs.versions| && vs.versions[b].id == vs.current
    modifies vs
    ensures Settled(vs)
    ensures EditApplied(old(vs.versions[b].files), old(vs.places), old(vs.nextId), deletes, adds, vs.places, news, files)
    ensures logged ==> |vs.versions| > 0 && vs.versions[|vs.versions| - 1] == VersionRecord(vs.current, 1, files)
    ensures !logged ==> vs.current == old(vs.current)
  {
    hide VersionsCounted, FilesCounted, IdsBelow, EditApplied;
    news := BuildVersion(vs, deletes, adds, b);
    files := vs.unlinked;
    if logged { vs.AppendVersion(); } else { vs.DropUnlinked(); }
  }

  /** Level by level and number by number, the new version holds the base without what the
      edit deletes, and everything the edit adds. */
  lemma PlacesApplied(base: seq<ObjectId>, before: map<ObjectId, Place>, next: ObjectId, deletes: set<Place>, adds: seq<Place>,
                      places: map<ObjectId, Place>, news: seq<ObjectId>, files: seq<ObjectId>, p: Place)
    requires EditApplied(base, before, next, deletes, adds, places, news, files) && forall f | f in base :: f < next
    ensures (exists f :: f in files && PlaceOf(places, f) == p)
            <==> p in adds || (p !in deletes && exists f :: f in base && PlaceOf(before, f) == p)
  {
    if p in adds {
      var i :| 0 <= i < |adds| && adds[i] == p;
      assert news[i] in base + news && PlaceOf(places, news[i]) == p;
    } else if p !in deletes {
      if f :| f in base && PlaceOf(before, f) == p {
        assert f in base + news && PlaceOf(places, f) == p;
      }
    }
    if f :| f in files && PlaceOf(places, f) == p {
      assert f in base + news;
      if f in news {
        var i :| 0 <= i < |news| && news[i] == f;
        assert adds[i] == p;
      } else {
        assert f in base && PlaceOf(before, f) == p;
      }
    }
  }

  lemma StillHeld(held: multiset<ObjectId>, a: ObjectId, b: ObjectId)
    requires a in held && b in held - multiset{a}
    ensures b in held && a in held - multiset{b}
  {
  }

  lemma NewFileCounted(counts: map<ObjectId, int>, vs: seq<VersionRecord>, added: seq<ObjectId>, unlinked: seq<ObjectId>, f: ObjectId)
    requires FilesCounted(counts, vs, added, unlinked) && IdsBelow(counts, vs, f)
    ensures FilesCounted(counts[f := 1], vs, added + [f], unlinked) && IdsBelow(counts[f := 1], vs, f + 1) && f !in counts
  {
  }

  lemma KeysShrink(counts: map<ObjectId, int>, counts': map<ObjectId, int>, next: ObjectId)
    requires AllPositive(counts') && (forall f :: RefOf(counts', f) <= RefOf(counts, f)) && forall f | f in counts :: f < next
    ensures forall f | f in counts' :: f < next
  {
    forall f | f in counts' ensures f < next { assert RefOf(counts', f) > 0; }
  }

  lemma KeptCounted(counts: map<ObjectId, int>, counts': map<ObjectId, int>, vs: seq<VersionRecord>, added: seq<ObjectId>, kept: seq<ObjectId>, next: ObjectId)
    requires FilesCounted(counts, vs, added, []) && IdsBelow(counts, vs, next)
    requires AllPositive(counts') && forall f :: RefOf(counts', f) == RefOf(counts, f) + multiset(kept)[f]
    requires forall f | f in kept :: f in counts
    ensures FilesCounted(counts', vs, added, kept) && IdsBelow(counts', vs, next)
  {
    forall f | f in counts' ensures f < next {
      assert RefOf(counts', f) > 0;
      if f !in kept { assert RefOf(counts', f) == RefOf(counts, f); }
    }
  }

  lemma ReleasedCounted(counts: map<ObjectId, int>, counts': map<ObjectId, int>, vs: seq<VersionRecord>, added: seq<ObjectId>, unlinked: seq<ObjectId>, next: ObjectId)
    requires FilesCounted(counts, vs, added, unlinked) && IdsBelow(counts, vs, next)
    requires AllPositive(counts') && forall f :: RefOf(counts', f) == RefOf(counts, f) - multiset(added)[f]
    ensures FilesCounted(counts', vs, [], unlinked) && IdsBelow(counts', vs, next)
  {
    KeysShrink(counts, counts', next);
  }

  lemma DroppedCounted(counts: map<ObjectId, int>, counts': map<ObjectId, int>, vs: seq<VersionRecord>, added: seq<ObjectId>, unlinked: seq<ObjectId>, next: ObjectId)
    requires FilesCounted(counts, vs, added, unlinked) && IdsBelow(counts, vs, next)
    requires AllPositive(counts') && forall f :: RefOf(counts', f) == RefOf(counts, f) - multiset(unlinked)[f]
    ensures FilesCounted(counts', vs, added, []) && IdsBelow(counts', vs, next)
  {
    KeysShrink(counts, counts', next);
  }

  /** The files of the new version were counted before it joined the list. */
  lemma LinkedFilesCounted(counts: map<ObjectId, int>, vs: seq<VersionRecord>, added: seq<ObjectId>, v: VersionRecord)
    requires FilesCounted(counts, vs, added, v.files)
    ensures FilesCounted(counts, vs + [v], added, [])
  {
    forall f ensures HeldBy(vs + [v], f) == HeldBy(vs, f) + multiset(v.files)[f] { HeldByOneMore(vs, v, f); }
    hide HeldBy;
  }

  lemma ListedStays(vs: seq<VersionRecord>, v: VersionRecord, id: ObjectId)
    requires Listed(vs, id) || id == v.id
    ensures Listed(vs + [v], id)
  {
    if Listed(vs, id) {
      var i :| 0 <= i < |vs| && vs[i].id == id;
      assert (vs + [v])[i].id == id;
    } else {
      assert (vs + [v])[|vs|].id == id;
    }
  }

  lemma LinkedVersionsCounted(counts: map<ObjectId, int>, vs: seq<VersionRecord>, held: multiset<ObjectId>, v: VersionRecord)
    requires VersionsCounted(vs, held) && IdsBelow(counts, vs, v.id) && v.refs == 1
    ensures VersionsCounted(vs + [v], held + multiset{v.id}) && IdsBelow(counts, vs + [v], v.id + 1)
  {
    assert !Listed(vs, v.id);
    assert v.id !in held;
    forall id | id in held + multiset{v.id} ensures Listed(vs + [v], id) { ListedStays(vs, v, id); }
  }

  /** A file object exists exactly as long as a version or a builder holds it. */
  lemma ExistsWhileHeld(counts: map<ObjectId, int>, vs: seq<VersionRecord>, added: seq<ObjectId>, unlinked: seq<ObjectId>, f: ObjectId)
    requires FilesCounted(counts, vs, added, unlinked)
    ensures f in counts <==> (exists i :: 0 <= i < |vs| && f in vs[i].files) || f in added || f in unlinked
  {
    assert RefOf(counts, f) == HeldBy(vs, f) + multiset(added)[f] + multiset(unlinked)[f];
    if HeldBy(vs, f) > 0 { HeldIsListed(vs, f); }
    if i :| 0 <= i < |vs| && f in vs[i].files { ListedIsHeld(vs, i, f); }
  }
}
