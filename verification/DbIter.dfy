/** DBIter (db/db_iter.cc): the user's iterator over internal keys, in both directions,
    proved to be a cursor over the sorted map visible at its sequence number. */
module DbIter {
  import opened DbFormat
  import opened Entries
  import opened Versions
  import opened Lookup

  // ---- the map to walk ----

  predicate VisibleAt(es: seq<Entry>, s: SeqNo, i: nat)
    requires i < |es|
  {
    es[i].key.seqno <= s
  }

  /** Entry `i` is what a read of its user key finds, and it is a value. */
  predicate Live(es: seq<Entry>, s: SeqNo, i: nat)
    requires i < |es|
  {
    && VisibleAt(es, s, i) && es[i].key.vtype.Value?
    && forall j | 0 <= j < i && es[j].key.user == es[i].key.user :: !VisibleAt(es, s, j)
  }

  function FirstLiveFrom(es: seq<Entry>, s: SeqNo, i: nat): (r: Option<nat>)
    requires i <= |es|
    ensures r.Some? ==> i <= r.value < |es| && Live(es, s, r.value) && forall j | i <= j < r.value :: !Live(es, s, j)
    ensures r.None? ==> forall j | i <= j < |es| :: !Live(es, s, j)
    decreases |es| - i
  {
    if i == |es| then None else if Live(es, s, i) then Some(i) else FirstLiveFrom(es, s, i + 1)
  }

  function LastLiveBefore(es: seq<Entry>, s: SeqNo, i: nat): (r: Option<nat>)
    requires i <= |es|
    ensures r.Some? ==> r.value < i && Live(es, s, r.value) && forall j | r.value < j < i :: !Live(es, s, j)
    ensures r.None? ==> forall j | 0 <= j < i :: !Live(es, s, j)
  {
    if i == 0 then None else if Live(es, s, i - 1) then Some(i - 1) else LastLiveBefore(es, s, i - 1)
  }

  /** Live entries are exactly the key-value pairs of the map read at `s`. */
  lemma LiveIsTheMap(es: seq<Entry>, s: SeqNo, k: UserKey, v: Bytes)
    requires Sorted(es) && Unique(EntrySet(es))
    ensures View(EntrySet(es), k, s) == Some(v) <==> exists i :: 0 <= i < |es| && Live(es, s, i) && es[i].key.user == k && es[i].value == v
  {
    if i :| 0 <= i < |es| && Live(es, s, i) && es[i].key.user == k && es[i].value == v {
      LiveIsNewest(es, s, i);
      ViewOfNewest(EntrySet(es), k, s, es[i]);
    }
    if View(EntrySet(es), k, s) == Some(v) {
      var e :| Newest(EntrySet(es), k, s, e) && Payload(e) == Some(v);
      var i :| 0 <= i < |es| && es[i] == e;
      NewestIsLive(es, s, k, i);
    }
  }

  lemma LiveIsNewest(es: seq<Entry>, s: SeqNo, i: nat)
    requires Sorted(es) && i < |es| && Live(es, s, i)
    ensures Newest(EntrySet(es), es[i].key.user, s, es[i])
  {
    forall x | x in EntrySet(es) && Visible(x, es[i].key.user, s) ensures x.key.seqno <= es[i].key.seqno {
      var j :| 0 <= j < |es| && es[j] == x;
      assert !(j < i);
    }
  }

  lemma NewestIsLive(es: seq<Entry>, s: SeqNo, k: UserKey, i: nat)
    requires Sorted(es) && Unique(EntrySet(es)) && i < |es| && es[i].key.vtype.Value?
    requires Newest(EntrySet(es), k, s, es[i])
    ensures Live(es, s, i)
  {
    forall j | 0 <= j < i && es[j].key.user == es[i].key.user ensures !VisibleAt(es, s, j) {
      assert es[j] in EntrySet(es) && es[i] in EntrySet(es);
      assert Before(es[j].key, es[i].key);
    }
  }

  /** The pairs come in the order of the keys, each key once. */
  lemma LiveAscends(es: seq<Entry>, s: SeqNo, i: nat, j: nat)
    requires Sorted(es) && i < j < |es| && Live(es, s, i) && Live(es, s, j)
    ensures es[i].key.user < es[j].key.user
  {
    assert Before(es[i].key, es[j].key);
  }

  /** Seeking lands in front of exactly the pairs whose key is not before the target. */
  lemma SeekSplitsTheMap(es: seq<Entry>, s: SeqNo, target: UserKey, i: nat)
    requires Sorted(es) && i < |es| && Live(es, s, i)
    ensures SeekIndex(es, LookupKey(target, s)) <= i <==> target <= es[i].key.user
  {
    var p := SeekIndex(es, LookupKey(target, s));
    if p <= i && p < i { assert Before(es[p].key, es[i].key); }
  }

  /** Going back after going on returns to the same pair. */
  lemma PrevUndoesNext(es: seq<Entry>, s: SeqNo, i: nat, j: nat)
    requires i < |es| && Live(es, s, i) && FirstLiveFrom(es, s, i + 1) == Some(j)
    ensures LastLiveBefore(es, s, j) == Some(i)
  {
    var r := LastLiveBefore(es, s, j);
    assert r.Some? && !(r.value < i);
  }

  // ---- the iterator underneath ----

  /** An iterator over a sorted run; `pos` is -1 when it is not valid. */
  class InternalIterator {
    const entries: seq<Entry>
    var pos: int

    constructor (es: seq<Entry>)
      ensures entries == es && pos == -1
    {
      entries, pos := es, -1;
    }

    predicate Ok()
      reads this
    {
      -1 <= pos < |entries|
    }

    predicate IsValid()
      reads this
    {
      0 <= pos < |entries|
    }

    method SeekToFirst()
      modifies this
      ensures Ok() && pos == if |entries| > 0 then 0 else -1
    {
      pos := if |entries| > 0 then 0 else -1;
    }

    method SeekToLast()
      modifies this
      ensures Ok() && pos == |entries| - 1
    {
      pos := |entries| - 1;
    }

    method Seek(target: InternalKey)
      modifies this
      ensures Ok() && pos == var i := SeekIndex(entries, target); if i < |entries| then i else -1
    {
      var i := SeekIndex(entries, target);
      pos := if i < |entries| then i else -1;
    }

    method Next()
      requires IsValid()
      modifies this
      ensures Ok() && pos == if old(pos) + 1 < |entries| then old(pos) + 1 else -1
    {
      pos := if pos + 1 < |entries| then pos + 1 else -1;
    }

    method Prev()
      requires IsValid()
      modifies this
      ensures Ok() && pos == old(pos) - 1
    {
      pos := pos - 1;
    }
  }

  datatype Direction = Forward | Reverse

  lemma UsersAscend(es: seq<Entry>, i: nat, j: nat)
    requires Sorted(es) && i <= j < |es|
    ensures es[i].key.user <= es[j].key.user
  {
    assert i < j ==> Before(es[i].key, es[j].key);
  }

  /** While going forward at `i`: every visible entry passed is hidden behind `skip`, or,
      before anything is skipped, belongs to a smaller user key. */
  ghost predicate PassedForward(es: seq<Entry>, s: SeqNo, i: nat, skipping: bool, skip: UserKey)
    requires i < |es|
  {
    forall j | 0 <= j < i && VisibleAt(es, s, j) :: if skipping then es[j].key.user <= skip else es[j].key.user < es[i].key.user
  }

  /** The entries from `i` on that are live and not before `q` are those behind `skip`. */
  ghost predicate SkipsUpTo(es: seq<Entry>, s: SeqNo, i: nat, q: nat, skipping: bool, skip: UserKey) {
    && (forall j | i <= j < q && j < |es| && VisibleAt(es, s, j) :: skipping && es[j].key.user <= skip && es[j].key.vtype.Value?)
    && (skipping ==> forall j | i <= j < |es| && q <= j && Live(es, s, j) :: skip < es[j].key.user)
  }

  /** One step of the forward scan over an entry that is not returned. */
  lemma StepForward(es: seq<Entry>, s: SeqNo, i: nat, q: nat, skipping: bool, skip: UserKey, skipping': bool, skip': UserKey)
    requires Sorted(es) && i + 1 < |es| && PassedForward(es, s, i, skipping, skip) && SkipsUpTo(es, s, i, q, skipping, skip)
    requires if VisibleAt(es, s, i) && es[i].key.vtype.Deletion? then skipping' && skip' == es[i].key.user
             else skipping' == skipping && skip' == skip && (VisibleAt(es, s, i) ==> skipping && es[i].key.user <= skip)
    ensures PassedForward(es, s, i + 1, skipping', skip') && SkipsUpTo(es, s, i + 1, q, skipping', skip')
  {
    UsersAscend(es, i, i + 1);
    forall j | 0 <= j <= i ensures es[j].key.user <= es[i].key.user {
      UsersAscend(es, j, i);
    }
    if VisibleAt(es, s, i) && es[i].key.vtype.Deletion? {
      forall j | i + 1 <= j < |es| && Live(es, s, j) ensures es[i].key.user < es[j].key.user {
        UsersAscend(es, i, j);
      }
      assert q <= i;
    }
  }

  /** The entry a forward scan stops at is the next live one. */
  lemma StopForward(es: seq<Entry>, s: SeqNo, i: nat, q: nat, skipping: bool, skip: UserKey)
    requires Sorted(es) && i < |es| && PassedForward(es, s, i, skipping, skip) && SkipsUpTo(es, s, i, q, skipping, skip)
    requires VisibleAt(es, s, i) && es[i].key.vtype.Value? && !(skipping && es[i].key.user <= skip)
    ensures q <= i && Live(es, s, i)
  {
  }

  /** While going backward: `i` is the next entry to look at, and of the entries above it
      only `c`, if there is one, can still turn out to be the last live one before `q`. */
  ghost predicate PassedBackward(es: seq<Entry>, s: SeqNo, i: int, q: nat, c: Option<nat>) {
    && -1 <= i && q <= |es|
    && match c
       case None => forall j | i < j < q && 0 <= j :: !Live(es, s, j)
       case Some(n) =>
         && i < n < q && VisibleAt(es, s, n) && es[n].key.vtype.Value?
         && (forall j | i < j < n && 0 <= j :: !VisibleAt(es, s, j))
         && (forall j | n < j < q :: !Live(es, s, j))
  }

  /** One step of the backward scan over an entry it does not stop at. */
  lemma StepBackward(es: seq<Entry>, s: SeqNo, i: nat, q: nat, c: Option<nat>, c': Option<nat>)
    requires Sorted(es) && i < |es| && (i < q || !VisibleAt(es, s, i)) && PassedBackward(es, s, i, q, c)
    requires VisibleAt(es, s, i) && c.Some? ==> es[i].key.user == es[c.value].key.user
    requires c' == if !VisibleAt(es, s, i) then c else if es[i].key.vtype.Value? then Some(i) else None
    ensures PassedBackward(es, s, i - 1, q, c')
  {
  }

  /** Where a backward scan stops, what it saved is the last live entry before `q`. */
  lemma StopBackward(es: seq<Entry>, s: SeqNo, i: int, q: nat, n: nat)
    requires Sorted(es) && i < |es| && PassedBackward(es, s, i, q, Some(n))
    requires i >= 0 ==> VisibleAt(es, s, i) && es[i].key.user < es[n].key.user
    ensures Live(es, s, n) && LastLiveBefore(es, s, q) == Some(n)
  {
    forall j | 0 <= j < n && es[j].key.user == es[n].key.user ensures !VisibleAt(es, s, j) {
      if j <= i { UsersAscend(es, j, i); assert false; }
    }
  }

  class DBIter {
    const iter: InternalIterator
    const sequence: SeqNo
    var direction: Direction
    var valid: bool
    var savedKey: UserKey
    var savedValue: Bytes
    /** The entry the cursor stands on. */
    ghost var current: Option<nat>

    constructor (it: InternalIterator, s: SeqNo)
      requires it.Ok() && Sorted(it.entries)
      ensures iter == it && sequence == s && current == None && Valid()
    {
      iter, sequence, direction, valid, savedKey, savedValue, current := it, s, Forward, false, 0.0, [], None;
    }

    ghost predicate Valid()
      reads this, iter
    {
      var es := iter.entries;
      && iter.Ok() && Sorted(es)
      && valid == current.Some?
      && (current.Some? ==> current.value < |es| && Live(es, sequence, current.value))
      && (valid && direction.Forward? ==> iter.pos == current.value)
      && (valid && direction.Reverse? ==>
            && savedKey == es[current.value].key.user && savedValue == es[current.value].value
            && iter.pos < current.value
            && (forall j | iter.pos < j < current.value && 0 <= j :: !VisibleAt(es, sequence, j))
            && (iter.pos >= 0 ==> VisibleAt(es, sequence, iter.pos) && es[iter.pos].key.user < savedKey))
    }

    method Key() returns (k: UserKey)
      requires Valid() && valid
      ensures k == iter.entries[current.value].key.user
    {
      k := if direction.Forward? then iter.entries[iter.pos].key.user else savedKey;
    }

    method Value() returns (v: Bytes)
      requires Valid() && valid
      ensures v == iter.entries[current.value].value
    {
      v := if direction.Forward? then iter.entries[iter.pos].value else savedValue;
    }

    /** Scans forward from an iterator position; `q` is where the answer may begin. */
    method FindNextUserEntry(skipping0: bool, skip0: UserKey, ghost q: nat)
      requires iter.IsValid() && Sorted(iter.entries) && q <= |iter.entries| && direction.Forward?
      requires PassedForward(iter.entries, sequence, iter.pos, skipping0, skip0)
      requires SkipsUpTo(iter.entries, sequence, iter.pos, q, skipping0, skip0)
      requires forall j | q <= j < iter.pos :: !Live(iter.entries, sequence, j)
      modifies this, iter
      ensures Valid() && current == FirstLiveFrom(iter.entries, sequence, q)
    {
      ghost var es := iter.entries;
      var skipping, skip := skipping0, skip0;
      while iter.IsValid()
        invariant iter.Ok() && direction.Forward?
        invariant iter.IsValid() ==> PassedForward(es, sequence, iter.pos, skipping, skip) && SkipsUpTo(es, sequence, iter.pos, q, skipping, skip)
        invariant forall j | q <= j < (if iter.IsValid() then iter.pos else |es|) :: !Live(es, sequence, j)
        decreases if iter.IsValid() then |es| - iter.pos else 0
      {
        ghost var i := iter.pos;
        var e := iter.entries[iter.pos];
        var skipping', skip' := skipping, skip;
        if e.key.seqno <= sequence {
          if e.key.vtype.Deletion? {
            skip', skipping' := e.key.user, true;
          } else if !(skipping && e.key.user <= skip) {
            StopForward(es, sequence, i, q, skipping, skip);
            valid, savedKey, current := true, 0.0, Some(i);
            return;
          }
        }
        assert q <= i ==> !Live(es, sequence, i);
        if i + 1 < |es| { StepForward(es, sequence, i, q, skipping, skip, skipping', skip'); }
        skipping, skip := skipping', skip';
        iter.Next();
      }
      savedKey, valid, current := 0.0, false, None;
    }

    /** Scans backward from an iterator position; the answer lies below `q`. */
    method FindPrevUserEntry(ghost q: nat)
      requires iter.Ok() && Sorted(iter.entries) && q <= |iter.entries| && direction.Reverse?
      requires forall j | iter.pos < j < q && 0 <= j :: !VisibleAt(iter.entries, sequence, j)
      requires iter.pos < q
      modifies this, iter
      ensures Valid() && current == LastLiveBefore(iter.entries, sequence, q)
    {
      ghost var es := iter.entries;
      var valueType := Deletion;
      ghost var c: Option<nat> := None;
      while iter.IsValid()
        invariant iter.Ok() && direction.Reverse? && iter.pos < q
        invariant valueType.Value? == c.Some?
        invariant PassedBackward(es, sequence, iter.pos, q, c)
        invariant c.Some? ==> savedKey == es[c.value].key.user && savedValue == es[c.value].value
        decreases iter.pos
      {
        ghost var i := iter.pos;
        var e := iter.entries[iter.pos];
        if e.key.seqno <= sequence {
          if valueType.Value? && e.key.user < savedKey {
            break;
          }
          if c.Some? { UsersAscend(es, i, c.value); }
          StepBackward(es, sequence, i, q, c, if e.key.vtype.Value? then Some(i) else None);
          valueType := e.key.vtype;
          if valueType.Deletion? {
            savedKey, savedValue, c := 0.0, [], None;
          } else {
            savedKey, savedValue, c := e.key.user, e.value, Some(i);
          }
        } else {
          StepBackward(es, sequence, i, q, c, c);
        }
        iter.Prev();
      }
      if valueType.Deletion? {
        valid, savedKey, savedValue, direction, current := false, 0.0, [], Forward, None;
      } else {
        StopBackward(es, sequence, iter.pos, q, c.value);
        valid, current := true, c;
      }
    }

    method SeekToFirst()
      requires Valid()
      modifies this, iter
      ensures Valid() && current == FirstLiveFrom(iter.entries, sequence, 0)
    {
      direction, savedValue := Forward, [];
      iter.SeekToFirst();
      if iter.IsValid() {
        FindNextUserEntry(false, 0.0, 0);
      } else {
        valid, current := false, None;
      }
    }

    method SeekToLast()
      requires Valid()
      modifies this, iter
      ensures Valid() && current == LastLiveBefore(iter.entries, sequence, |iter.entries|)
    {
      direction, savedValue := Reverse, [];
      iter.SeekToLast();
      FindPrevUserEntry(|iter.entries|);
    }

    /** The first pair whose key is not before `target`. */
    method Seek(target: UserKey)
      requires Valid()
      modifies this, iter
      ensures Valid() && current == FirstLiveFrom(iter.entries, sequence, SeekIndex(iter.entries, LookupKey(target, sequence)))
    {
      direction, savedValue, savedKey := Forward, [], target;
      iter.Seek(LookupKey(target, sequence));
      ghost var p := SeekIndex(iter.entries, LookupKey(target, sequence));
      if iter.IsValid() {
        FindNextUserEntry(false, savedKey, p);
      } else {
        valid, current := false, None;
      }
    }

    method Next()
      requires Valid() && valid
      modifies this, iter
      ensures Valid() && current == FirstLiveFrom(iter.entries, sequence, old(current.value) + 1)
    {
      ghost var es, a := iter.entries, current.value;
      if direction.Reverse? {
        direction := Forward;
        if !iter.IsValid() {
          iter.SeekToFirst();
        } else {
          iter.Next();
        }
        // The entry the cursor stands on lies ahead, so the iterator cannot run out here.
        assert iter.IsValid();
      } else {
        savedKey := iter.entries[iter.pos].key.user;
      }
      NextSkips(es, sequence, iter.pos, a);
      FindNextUserEntry(true, savedKey, a + 1);
    }

    method Prev()
      requires Valid() && valid
      modifies this, iter
      ensures Valid() && current == LastLiveBefore(iter.entries, sequence, old(current.value))
    {
      ghost var es, a := iter.entries, current.value;
      if direction.Forward? {
        savedKey := iter.entries[iter.pos].key.user;
        while true
          invariant iter.IsValid() && iter.pos <= a && direction.Forward? && savedKey == es[a].key.user
          invariant forall j | iter.pos <= j < a :: es[j].key.user == savedKey
          decreases iter.pos
        {
          iter.Prev();
          if !iter.IsValid() {
            valid, savedKey, savedValue, current := false, 0.0, [], None;
            return;
          }
          if iter.entries[iter.pos].key.user < savedKey { break; }
          UsersAscend(es, iter.pos, a);
        }
        direction := Reverse;
      }
      FindPrevUserEntry(a);
    }
  }

  /** Leaving entry `a` forward: everything up to it is hidden, everything live behind it
      is not. */
  lemma NextSkips(es: seq<Entry>, s: SeqNo, p: nat, a: nat)
    requires Sorted(es) && p <= a < |es| && Live(es, s, a)
    requires forall j | p <= j < a :: !VisibleAt(es, s, j)
    ensures PassedForward(es, s, p, true, es[a].key.user) && SkipsUpTo(es, s, p, a + 1, true, es[a].key.user)
  {
    forall j | 0 <= j <= a ensures es[j].key.user <= es[a].key.user {
      UsersAscend(es, j, a);
    }
    forall j | a < j < |es| && Live(es, s, j) ensures es[a].key.user < es[j].key.user {
      LiveAscends(es, s, a, j);
    }
  }
}
