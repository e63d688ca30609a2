/** The merging iterator (table/merger.cc): one cursor over several sorted runs, in both
    directions, and the input of a compaction read through it (db/version_set.cc,
    MakeInputIterator). */
module MergingIterator {
  import opened DbFormat
  import opened Entries
  import opened Versions
  import opened CompactionInputs
  import opened DropRules
  import opened Lookup

  // ---- where a cursor stands ----

  /** A place between two keys. */
  datatype Cut = Start | UpTo(key: InternalKey) | Through(key: InternalKey) | End

  predicate Below(k: InternalKey, cut: Cut) {
    match cut
    case Start => false
    case UpTo(t) => Before(k, t)
    case Through(t) => AtOrBefore(k, t)
    case End => true
  }

  /** `r` is the first of `entries` that is not below the cut. */
  ghost predicate IsFirst(entries: set<Entry>, cut: Cut, r: Option<Entry>) {
    match r
    case None => forall e | e in entries :: Below(e.key, cut)
    case Some(f) => f in entries && !Below(f.key, cut) && forall e | e in entries && !Below(e.key, cut) :: AtOrBefore(f.key, e.key)
  }

  /** `r` is the last of `entries` that is below the cut. */
  ghost predicate IsLast(entries: set<Entry>, cut: Cut, r: Option<Entry>) {
    match r
    case None => forall e | e in entries :: !Below(e.key, cut)
    case Some(l) => l in entries && Below(l.key, cut) && forall e | e in entries && Below(e.key, cut) :: AtOrBefore(e.key, l.key)
  }

  /** The position of a child iterator; `None` when it is not valid. */
  predicate AtFirst(run: seq<Entry>, pos: Option<nat>, cut: Cut) {
    match pos
    case None => forall q | 0 <= q < |run| :: Below(run[q].key, cut)
    case Some(p) => p < |run| && !Below(run[p].key, cut) && forall q | 0 <= q < p :: Below(run[q].key, cut)
  }

  predicate AtLast(run: seq<Entry>, pos: Option<nat>, cut: Cut) {
    match pos
    case None => forall q | 0 <= q < |run| :: !Below(run[q].key, cut)
    case Some(p) => p < |run| && Below(run[p].key, cut) && forall q | p < q < |run| :: !Below(run[q].key, cut)
  }

  // ---- the runs ----

  predicate SortedRuns(runs: seq<seq<Entry>>) {
    forall i | 0 <= i < |runs| :: Sorted(runs[i])
  }

  /** No internal key occurs in two runs. */
  predicate DistinctKeys(runs: seq<seq<Entry>>) {
    forall i, j, p, q | 0 <= i < j < |runs| && 0 <= p < |runs[i]| && 0 <= q < |runs[j]| :: runs[i][p].key != runs[j][q].key
  }

  ghost function AllEntries(runs: seq<seq<Entry>>): set<Entry> {
    set i, e | 0 <= i < |runs| && e in runs[i] :: e
  }

  predicate Positioned(runs: seq<seq<Entry>>, pos: seq<Option<nat>>) {
    |pos| == |runs| && forall i | 0 <= i < |runs| && pos[i].Some? :: pos[i].value < |runs[i]|
  }

  function EntryOf(runs: seq<seq<Entry>>, pos: seq<Option<nat>>, c: Option<nat>): Option<Entry>
    requires Positioned(runs, pos) && (c.Some? ==> c.value < |runs| && pos[c.value].Some?)
  {
    if c.None? then None else Some(runs[c.value][pos[c.value].value])
  }

  /** The child with the smallest key, if any child is valid. */
  predicate Smallest(runs: seq<seq<Entry>>, pos: seq<Option<nat>>, c: Option<nat>)
    requires Positioned(runs, pos)
  {
    if c.None? then forall i | 0 <= i < |runs| :: pos[i].None?
    else
      && c.value < |runs| && pos[c.value].Some?
      && forall i | 0 <= i < |runs| && pos[i].Some? :: !Before(runs[i][pos[i].value].key, runs[c.value][pos[c.value].value].key)
  }

  predicate Largest(runs: seq<seq<Entry>>, pos: seq<Option<nat>>, c: Option<nat>)
    requires Positioned(runs, pos)
  {
    if c.None? then forall i | 0 <= i < |runs| :: pos[i].None?
    else
      && c.value < |runs| && pos[c.value].Some?
      && forall i | 0 <= i < |runs| && pos[i].Some? :: !Before(runs[c.value][pos[c.value].value].key, runs[i][pos[i].value].key)
  }

  lemma InRun(run: seq<Entry>, e: Entry) returns (q: nat)
    requires e in run
    ensures q < |run| && run[q] == e
  {
    q :| 0 <= q < |run| && run[q] == e;
  }

  lemma RunEntryIsAfter(run: seq<Entry>, pos: Option<nat>, cut: Cut, e: Entry)
    requires Sorted(run) && AtFirst(run, pos, cut) && e in run && !Below(e.key, cut)
    ensures pos.Some? && AtOrBefore(run[pos.value].key, e.key)
  {
    var q := InRun(run, e);
  }

  lemma RunEntryIsBefore(run: seq<Entry>, pos: Option<nat>, cut: Cut, e: Entry)
    requires Sorted(run) && AtLast(run, pos, cut) && e in run && Below(e.key, cut)
    ensures pos.Some? && AtOrBefore(e.key, run[pos.value].key)
  {
    var q := InRun(run, e);
  }

  /** If every child is at its first entry past the cut, the smallest of them is the first
      entry of all, and the others are past it. */
  lemma SmallestIsFirst(runs: seq<seq<Entry>>, pos: seq<Option<nat>>, c: Option<nat>, cut: Cut)
    requires SortedRuns(runs) && DistinctKeys(runs) && Positioned(runs, pos) && Smallest(runs, pos, c)
    requires forall i | 0 <= i < |runs| :: AtFirst(runs[i], pos[i], cut)
    ensures IsFirst(AllEntries(runs), cut, EntryOf(runs, pos, c))
    ensures c.Some? ==> forall i | 0 <= i < |runs| && i != c.value :: AtFirst(runs[i], pos[i], Through(EntryOf(runs, pos, c).value.key))
  {
    forall i, e | 0 <= i < |runs| && e in runs[i] && !Below(e.key, cut)
      ensures c.Some? && AtOrBefore(EntryOf(runs, pos, c).value.key, e.key)
    {
      RunEntryIsAfter(runs[i], pos[i], cut, e);
    }
    if c.Some? {
      var here := EntryOf(runs, pos, c).value;
      assert here in runs[c.value] && AtFirst(runs[c.value], pos[c.value], cut);
      forall i | 0 <= i < |runs| && i != c.value ensures AtFirst(runs[i], pos[i], Through(here.key)) {
        PastTheCut(runs[i], pos[i], cut, here);
        if pos[i].Some? { KeysDiffer(runs, i, pos[i].value, c.value, pos[c.value].value); }
      }
    }
  }

  lemma KeysDiffer(runs: seq<seq<Entry>>, i: nat, p: nat, j: nat, q: nat)
    requires DistinctKeys(runs) && i < |runs| && j < |runs| && i != j && p < |runs[i]| && q < |runs[j]|
    ensures runs[i][p].key != runs[j][q].key
  {
    if j < i { assert runs[j][q].key != runs[i][p].key; }
  }

  /** What is below a cut is below an entry past it. */
  lemma PastTheCut(run: seq<Entry>, pos: Option<nat>, cut: Cut, here: Entry)
    requires AtFirst(run, pos, cut) && !Below(here.key, cut)
    ensures pos.None? ==> AtFirst(run, pos, Through(here.key))
    ensures pos.Some? ==> forall q | 0 <= q < pos.value :: Below(run[q].key, Through(here.key))
  {
  }

  lemma LargestIsLast(runs: seq<seq<Entry>>, pos: seq<Option<nat>>, c: Option<nat>, cut: Cut)
    requires SortedRuns(runs) && DistinctKeys(runs) && Positioned(runs, pos) && Largest(runs, pos, c)
    requires forall i | 0 <= i < |runs| :: AtLast(runs[i], pos[i], cut)
    ensures IsLast(AllEntries(runs), cut, EntryOf(runs, pos, c))
    ensures c.Some? ==> forall i | 0 <= i < |runs| && i != c.value :: AtLast(runs[i], pos[i], UpTo(EntryOf(runs, pos, c).value.key))
  {
    forall i, e | 0 <= i < |runs| && e in runs[i] && Below(e.key, cut)
      ensures c.Some? && AtOrBefore(e.key, EntryOf(runs, pos, c).value.key)
    {
      RunEntryIsBefore(runs[i], pos[i], cut, e);
    }
    if c.Some? {
      var here := EntryOf(runs, pos, c).value;
      assert here in runs[c.value] && AtLast(runs[c.value], pos[c.value], cut);
      forall i | 0 <= i < |runs| && i != c.value ensures AtLast(runs[i], pos[i], UpTo(here.key)) {
        BeforeTheCut(runs[i], pos[i], cut, here);
        if pos[i].Some? { KeysDiffer(runs, i, pos[i].value, c.value, pos[c.value].value); }
      }
    }
  }

  lemma BeforeTheCut(run: seq<Entry>, pos: Option<nat>, cut: Cut, here: Entry)
    requires AtLast(run, pos, cut) && Below(here.key, cut)
    ensures pos.None? ==> AtLast(run, pos, UpTo(here.key))
    ensures pos.Some? ==> forall q | pos.value < q < |run| :: !Below(run[q].key, UpTo(here.key))
  {
  }

  // ---- one child ----

  /** Seek of a child, and Next if it stopped at the key itself. */
  method SeekPast(run: seq<Entry>, key: InternalKey) returns (pos: Option<nat>)
    requires Sorted(run)
    ensures AtFirst(run, pos, Through(key))
  {
    var i := SeekIndex(run, key);
    if i < |run| && run[i].key == key { i := i + 1; }
    pos := if i < |run| then Some(i) else None;
  }

  /** Seek of a child and one step back, or its last entry if the seek found nothing. */
  method SeekBefore(run: seq<Entry>, key: InternalKey) returns (pos: Option<nat>)
    requires Sorted(run)
    ensures AtLast(run, pos, UpTo(key))
  {
    var i := SeekIndex(run, key);
    pos := if i > 0 then Some(i - 1) else None;
  }

  class MergingIterator {
    const children: seq<seq<Entry>>
    var pos: seq<Option<nat>>
    var current: Option<nat>
    var forward: bool

    constructor (runs: seq<seq<Entry>>)
      requires SortedRuns(runs) && DistinctKeys(runs)
      ensures Valid() && children == runs && current.None?
    {
      children := runs;
      pos := seq(|runs|, _ => None);
      current, forward := None, true;
    }

    ghost predicate OnCurrent()
      reads this
    {
      && SortedRuns(children) && DistinctKeys(children) && Positioned(children, pos)
      && (current.Some? ==> current.value < |children| && pos[current.value].Some?)
    }

    /** Going forward all other children are past the current key, going back all are
        before it. */
    ghost predicate Valid()
      reads this
    {
      && OnCurrent()
      && (current.Some? ==> forall i | 0 <= i < |children| && i != current.value ::
            if forward then AtFirst(children[i], pos[i], Through(EntryOf(children, pos, current).value.key))
            else AtLast(children[i], pos[i], UpTo(EntryOf(children, pos, current).value.key)))
    }

    ghost function Here(): Option<Entry>
      requires OnCurrent()
      reads this
    {
      EntryOf(children, pos, current)
    }

    method FindSmallest()
      requires Positioned(children, pos)
      modifies this`current
      ensures Smallest(children, pos, current)
    {
      var smallest: Option<nat> := None;
      for i := 0 to |children|
        invariant smallest.None? ==> forall j | 0 <= j < i :: pos[j].None?
        invariant smallest.Some? ==> smallest.value < i && pos[smallest.value].Some?
        invariant smallest.Some? ==> forall j | 0 <= j < i && pos[j].Some? ::
                    !Before(children[j][pos[j].value].key, children[smallest.value][pos[smallest.value].value].key)
      {
        if pos[i].Some? {
          if smallest.None? || Before(children[i][pos[i].value].key, children[smallest.value][pos[smallest.value].value].key) {
            smallest := Some(i);
          }
        }
      }
      current := smallest;
    }

    method FindLargest()
      requires Positioned(children, pos)
      modifies this`current
      ensures Largest(children, pos, current)
    {
      var largest: Option<nat> := None;
      for i := |children| downto 0
        invariant largest.None? ==> forall j | i <= j < |children| :: pos[j].None?
        invariant largest.Some? ==> i <= largest.value < |children| && pos[largest.value].Some?
        invariant largest.Some? ==> forall j | i <= j < |children| && pos[j].Some? ::
                    !Before(children[largest.value][pos[largest.value].value].key, children[j][pos[j].value].key)
      {
        if pos[i].Some? {
          if largest.None? || Before(children[largest.value][pos[largest.value].value].key, children[i][pos[i].value].key) {
            largest := Some(i);
          }
        }
      }
      current := largest;
    }

    method SeekToFirst()
      requires Valid()
      modifies this
      ensures Valid() && IsFirst(AllEntries(children), Start, Here())
    {
      for i := 0 to |children|
        invariant Positioned(children, pos) && forall j | 0 <= j < i :: AtFirst(children[j], pos[j], Start)
      {
        pos := pos[i := if |children[i]| > 0 then Some(0) else None];
      }
      FindSmallest();
      SmallestIsFirst(children, pos, current, Start);
      forward := true;
    }

    method SeekToLast()
      requires Valid()
      modifies this
      ensures Valid() && IsLast(AllEntries(children), End, Here())
    {
      for i := 0 to |children|
        invariant Positioned(children, pos) && forall j | 0 <= j < i :: AtLast(children[j], pos[j], End)
      {
        pos := pos[i := if |children[i]| > 0 then Some(|children[i]| - 1) else None];
      }
      FindLargest();
      LargestIsLast(children, pos, current, End);
      forward := false;
    }

    method Seek(target: InternalKey)
      requires Valid()
      modifies this
      ensures Valid() && IsFirst(AllEntries(children), UpTo(target), Here())
    {
      for i := 0 to |children|
        invariant Positioned(children, pos) && forall j | 0 <= j < i :: AtFirst(children[j], pos[j], UpTo(target))
      {
        var p := SeekIndex(children[i], target);
        pos := pos[i := if p < |children[i]| then Some(p) else None];
      }
      FindSmallest();
      SmallestIsFirst(children, pos, current, UpTo(target));
      forward := true;
    }

    /** Moves to the first key behind the current one, whatever the direction was. */
    method Next()
      requires Valid() && current.Some?
      modifies this
      ensures Valid() && IsFirst(AllEntries(children), Through(old(Here()).value.key), Here())
    {
      var c := current.value;
      var key := children[c][pos[c].value].key;
      if !forward {
        for i := 0 to |children|
          invariant Positioned(children, pos) && pos[c] == old(pos[c])
          invariant forall j | 0 <= j < i && j != c :: AtFirst(children[j], pos[j], Through(key))
        {
          if i != c {
            var p := SeekPast(children[i], key);
            pos := pos[i := p];
          }
        }
        forward := true;
      }
      var p := pos[c].value;
      pos := pos[c := if p + 1 < |children[c]| then Some(p + 1) else None];
      assert AtFirst(children[c], pos[c], Through(key));
      FindSmallest();
      SmallestIsFirst(children, pos, current, Through(key));
    }

    /** Moves to the last key before the current one. */
    method Prev()
      requires Valid() && current.Some?
      modifies this
      ensures Valid() && IsLast(AllEntries(children), UpTo(old(Here()).value.key), Here())
    {
      var c := current.value;
      var key := children[c][pos[c].value].key;
      if forward {
        for i := 0 to |children|
          invariant Positioned(children, pos) && pos[c] == old(pos[c])
          invariant forall j | 0 <= j < i && j != c :: AtLast(children[j], pos[j], UpTo(key))
        {
          if i != c {
            var p := SeekBefore(children[i], key);
            pos := pos[i := p];
          }
        }
        forward := false;
      }
      var p := pos[c].value;
      pos := pos[c := if p > 0 then Some(p - 1) else None];
      assert AtLast(children[c], pos[c], UpTo(key));
      FindLargest();
      LargestIsLast(children, pos, current, UpTo(key));
    }
  }

  /** A step back undoes a step forward. */
  lemma PrevUndoesNext(entries: set<Entry>, here: Entry, next: Entry, back: Option<Entry>)
    requires here in entries && forall d, e | d in entries && e in entries && d.key == e.key :: d == e
    requires IsFirst(entries, Through(here.key), Some(next)) && IsLast(entries, UpTo(next.key), back)
    ensures back == Some(here)
  {
    assert Below(here.key, UpTo(next.key));
    assert AtOrBefore(here.key, back.value.key);
    assert Below(back.value.key, Through(here.key));
  }

  /** Two sorted sequences of the same entries are equal: a merge has one result. */
  lemma {:induction false} MergeIsUnique(a: seq<Entry>, b: seq<Entry>)
    requires Sorted(a) && Sorted(b) && EntrySet(a) == EntrySet(b)
    ensures a == b
  {
    BothEmpty(a, b);
    if |a| > 0 {
      HeadIsLeast(a, b);
      HeadIsLeast(b, a);
      TailSet(a);
      TailSet(b);
      MergeIsUnique(a[1..], b[1..]);
      assert a == [a[0]] + a[1..] && b == [b[0]] + b[1..];
    }
  }

  lemma BothEmpty(a: seq<Entry>, b: seq<Entry>)
    requires EntrySet(a) == EntrySet(b)
    ensures |a| > 0 <==> |b| > 0
  {
    if |a| > 0 { assert a[0] in EntrySet(a); }
    if |b| > 0 { assert b[0] in EntrySet(b); }
  }

  lemma HeadIsLeast(a: seq<Entry>, b: seq<Entry>)
    requires Sorted(a) && |a| > 0 && |b| > 0 && EntrySet(a) == EntrySet(b)
    ensures AtOrBefore(a[0].key, b[0].key) && (a[0].key == b[0].key ==> a[0] == b[0])
  {
    assert b[0] in EntrySet(a);
    var i :| 0 <= i < |a| && a[i] == b[0];
  }

  lemma TailSet(a: seq<Entry>)
    requires Sorted(a) && |a| > 0
    ensures EntrySet(a[1..]) == EntrySet(a) - {a[0]}
  {
    assert a == [a[0]] + a[1..];
    forall i | 1 <= i < |a| ensures a[i] != a[0] {
      assert Before(a[0].key, a[i].key);
    }
  }

  // ---- reading the whole input of a compaction ----

  /** What has been read when the iterator stands at `here`. */
  ghost predicate ReadUpTo(entries: set<Entry>, es: seq<Entry>, here: Option<Entry>) {
    && Sorted(es)
    && (forall e :: e in es <==> e in entries && (here.Some? ==> Before(e.key, here.value.key)))
    && (here.Some? ==> here.value in entries)
  }

  lemma ReadOneMore(entries: set<Entry>, es: seq<Entry>, here: Entry, next: Option<Entry>)
    requires ReadUpTo(entries, es, Some(here)) && IsFirst(entries, Through(here.key), next)
    requires forall d, e | d in entries && e in entries && d.key == e.key :: d == e
    ensures ReadUpTo(entries, es + [here], next)
  {
    forall e ensures e in es + [here] <==> e in entries && (next.Some? ==> Before(e.key, next.value.key)) {
      if e in entries && e !in es && e != here {
        assert !Below(e.key, Through(here.key));
      }
    }
    assert forall i | 0 <= i < |es| :: es[i] in es;
  }

  lemma KeysAreUnique(runs: seq<seq<Entry>>)
    requires SortedRuns(runs) && DistinctKeys(runs)
    ensures forall d, e | d in AllEntries(runs) && e in AllEntries(runs) && d.key == e.key :: d == e
  {
    forall i, j, d, e | 0 <= i < |runs| && 0 <= j < |runs| && d in runs[i] && e in runs[j] && d.key == e.key ensures d == e {
      var p := InRun(runs[i], d);
      var q := InRun(runs[j], e);
      OnePlacePerKey(runs, i, p, j, q);
    }
  }

  lemma OnePlacePerKey(runs: seq<seq<Entry>>, i: nat, p: nat, j: nat, q: nat)
    requires SortedRuns(runs) && DistinctKeys(runs) && i < |runs| && j < |runs| && p < |runs[i]| && q < |runs[j]|
    ensures runs[i][p].key == runs[j][q].key ==> i == j && p == q
  {
    if i != j {
      KeysDiffer(runs, i, p, j, q);
    } else if p < q {
      assert Before(runs[i][p].key, runs[i][q].key);
    } else if q < p {
      assert Before(runs[i][q].key, runs[i][p].key);
    }
  }

  lemma ReadNothing(entries: set<Entry>, here: Option<Entry>)
    requires IsFirst(entries, Start, here)
    ensures ReadUpTo(entries, [], here)
  {
  }

  lemma OneLeftLess(entries: set<Entry>, es: seq<Entry>, here: Entry)
    requires ReadUpTo(entries, es, Some(here))
    ensures |entries - EntrySet(es + [here])| < |entries - EntrySet(es)|
  {
    assert here !in es;
    assert entries - EntrySet(es + [here]) == (entries - EntrySet(es)) - {here};
  }

  /** The loop of DoCompactionWork seen as a reader: from the first entry to the end. */
  method ReadAll(runs: seq<seq<Entry>>) returns (es: seq<Entry>)
    requires SortedRuns(runs) && DistinctKeys(runs)
    ensures Sorted(es) && EntrySet(es) == AllEntries(runs)
  {
    KeysAreUnique(runs);
    var input := new MergingIterator(runs);
    input.SeekToFirst();
    es := [];
    ReadNothing(AllEntries(runs), input.Here());
    hide ReadUpTo, IsFirst, AllEntries;
    while input.current.Some?
      invariant input.Valid() && input.children == runs && fresh(input)
      invariant ReadUpTo(AllEntries(runs), es, input.Here())
      decreases |AllEntries(runs) - EntrySet(es)|
    {
      var here := runs[input.current.value][input.pos[input.current.value].value];
      OneLeftLess(AllEntries(runs), es, here);
      input.Next();
      ReadOneMore(AllEntries(runs), es, here, input.Here());
      es := es + [here];
    }
    EverythingRead(AllEntries(runs), es);
  }

  lemma EverythingRead(entries: set<Entry>, es: seq<Entry>)
    requires ReadUpTo(entries, es, None)
    ensures Sorted(es) && EntrySet(es) == entries
  {
  }

  /** The concatenating iterator over the files of one level. */
  function Concat(files: seq<File>): (r: seq<Entry>)
    ensures forall e :: e in r <==> exists f :: f in files && e in f.entries
  {
    if |files| == 0 then []
    else
      var n := |files| - 1;
      assert files == files[..n] + [files[n]];
      Concat(files[..n]) + files[n].entries
  }

  lemma {:induction false} ConcatIsSorted(files: seq<File>)
    requires AllWf(files) && Disjoint(files)
    ensures Sorted(Concat(files))
  {
    if |files| > 0 {
      var n := |files| - 1;
      var before := files[..n];
      ConcatIsSorted(before);
      forall e, d | e in Concat(before) && d in files[n].entries ensures Before(e.key, d.key) {
        var f :| f in before && e in f.entries;
        var i :| 0 <= i < n && files[i] == f;
        FileBounds(f, e);
        FileBounds(files[n], d);
      }
      assert files[n] in files;
      JoinSorted(Concat(before), files[n].entries);
    }
  }

  lemma JoinSorted(a: seq<Entry>, b: seq<Entry>)
    requires Sorted(a) && Sorted(b) && forall e, d | e in a && d in b :: Before(e.key, d.key)
    ensures Sorted(a + b)
  {
    forall i, j | 0 <= i < j < |a + b| ensures Before((a + b)[i].key, (a + b)[j].key) {
      if i < |a| <= j {
        assert a[i] in a && b[j - |a|] in b;
      }
    }
  }
}
