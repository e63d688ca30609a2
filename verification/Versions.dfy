/** Table files and versions (db/version_edit.h, db/version_set.h): seven levels of
    files, each file a sorted run of entries with its first and last key. */
module Versions {
  import opened DbFormat
  import opened Entries

  datatype File = File(number: nat, size: nat, smallest: InternalKey, largest: InternalKey, entries: seq<Entry>)

  type Levels = v: seq<seq<File>> | |v| == NUM_LEVELS witness [[], [], [], [], [], [], []]

  predicate Sorted(es: seq<Entry>) {
    forall i, j | 0 <= i < j < |es| :: Before(es[i].key, es[j].key)
  }

  /** A built table is not empty, is in key order, and its metadata names its first
      and last key. */
  predicate WfFile(f: File) {
    && |f.entries| > 0
    && Sorted(f.entries)
    && f.smallest == f.entries[0].key
    && f.largest == f.entries[|f.entries| - 1].key
  }

  /** The files of a level below zero: disjoint and in order of their keys. */
  predicate Disjoint(files: seq<File>) {
    forall i, j | 0 <= i < j < |files| :: Before(files[i].largest, files[j].smallest)
  }

  predicate DistinctNumbers(files: seq<File>) {
    forall i, j | 0 <= i < j < |files| :: files[i].number != files[j].number
  }

  predicate AllWf(files: seq<File>) {
    forall f | f in files :: WfFile(f)
  }

  predicate WfLevels(v: Levels) {
    && (forall l | 0 <= l < NUM_LEVELS :: AllWf(v[l]) && DistinctNumbers(v[l]))
    && (forall l | 1 <= l < NUM_LEVELS :: Disjoint(v[l]))
  }

  /** For every user key they share, all entries of `f` are newer than those of `g`. */
  predicate FileNewer(f: File, g: File) {
    forall e, d | e in f.entries && d in g.entries && e.key.user == d.key.user :: e.key.seqno > d.key.seqno
  }

  /** Entries never hop across levels: what is found first is newest. */
  predicate NewerAbove(v: Levels) {
    && (forall f, g | f in v[0] && g in v[0] && f.number > g.number :: FileNewer(f, g))
    && (forall l, m, f, g | 0 <= l < m < NUM_LEVELS && f in v[l] && g in v[m] :: FileNewer(f, g))
  }

  ghost function EntrySet(es: seq<Entry>): set<Entry> {
    set e | e in es
  }

  ghost function FileEntries(files: seq<File>): set<Entry> {
    set f, e | f in files && e in f.entries :: e
  }

  ghost function LevelsEntries(v: Levels): set<Entry> {
    set l, f, e | 0 <= l < NUM_LEVELS && f in v[l] && e in f.entries :: e
  }

  predicate UserInFile(f: File, k: UserKey) {
    f.smallest.user <= k <= f.largest.user
  }

  /** Every key of a table lies between its bounds. */
  lemma FileBounds(f: File, e: Entry)
    requires WfFile(f) && e in f.entries
    ensures AtOrBefore(f.smallest, e.key) && AtOrBefore(e.key, f.largest)
    ensures UserInFile(f, e.key.user)
  {
    var i :| 0 <= i < |f.entries| && f.entries[i] == e;
    assert i > 0 ==> Before(f.entries[0].key, f.entries[i].key);
    assert i < |f.entries| - 1 ==> Before(f.entries[i].key, f.entries[|f.entries| - 1].key);
  }
}
