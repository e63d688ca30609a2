/** The two rules by which a compaction drops entries (db/db_impl.cc, rules (A) and the
    base-level rule), and what they do to reads. */
module DropRules {
  import opened DbFormat
  import opened Entries
  import opened Versions

  /** No file two or more levels below holds the user key in its range. */
  predicate IsBaseLevel(v: Levels, level: nat, k: UserKey) {
    forall l, f | level + 2 <= l < NUM_LEVELS && f in v[l] :: !UserInFile(f, k)
  }

  /** What decides the fate of entry `i` of the merged input: the version it started
      from, its level and the oldest snapshot that must stay readable. */
  datatype Rules = Rules(base: Levels, level: nat, smallest: SeqNo)

  /** The sequence number of the entry just before `i` if it has the same user key; the
      largest sequence number at the first entry of a user key. */
  function LastSequenceForKey(es: seq<Entry>, i: nat): SeqNo
    requires i < |es|
  {
    if i > 0 && es[i - 1].key.user == es[i].key.user then es[i - 1].key.seqno else MAX_SEQUENCE
  }

  /** Rule (A): a newer entry of the same user key is already old enough for every
      snapshot. */
  predicate Hidden(es: seq<Entry>, i: nat, r: Rules)
    requires i < |es|
  {
    LastSequenceForKey(es, i) <= r.smallest
  }

  /** The one case where rule (A) is wrong: once the oldest snapshot is the largest
      sequence number there is, every entry counts as hidden. */
  lemma {:induction false} NothingKeptAtTheLimit(es: seq<Entry>, n: nat, r: Rules)
    requires n <= |es| && r.smallest == MAX_SEQUENCE
    ensures Kept(es, n, r) == []
  {
    if n > 0 { NothingKeptAtTheLimit(es, n - 1, r); }
  }

  /** A deletion no snapshot needs, with nothing below it to hide. */
  predicate Obsolete(es: seq<Entry>, i: nat, r: Rules)
    requires i < |es|
  {
    es[i].key.vtype.Deletion? && es[i].key.seqno <= r.smallest && IsBaseLevel(r.base, r.level, es[i].key.user)
  }

  predicate Dropped(es: seq<Entry>, i: nat, r: Rules)
    requires i < |es|
  {
    Hidden(es, i, r) || Obsolete(es, i, r)
  }

  /** The entries among the first `n` that a compaction writes out. */
  function Kept(es: seq<Entry>, n: nat, r: Rules): seq<Entry>
    requires n <= |es|
  {
    if n == 0 then []
    else Kept(es, n - 1, r) + (if Dropped(es, n - 1, r) then [] else [es[n - 1]])
  }

  lemma {:induction false} KeptExactly(es: seq<Entry>, n: nat, r: Rules)
    requires n <= |es|
    ensures forall e :: e in Kept(es, n, r) <==> exists i :: 0 <= i < n && es[i] == e && !Dropped(es, i, r)
  {
    if n > 0 {
      KeptExactly(es, n - 1, r);
    }
  }

  lemma {:induction false} KeptSorted(es: seq<Entry>, n: nat, r: Rules)
    requires n <= |es| && Sorted(es)
    ensures Sorted(Kept(es, n, r))
  {
    if n > 0 {
      KeptSorted(es, n - 1, r);
      KeptExactly(es, n - 1, r);
      var k := Kept(es, n - 1, r);
      forall j | 0 <= j < |k| ensures Before(k[j].key, es[n - 1].key) {
        assert k[j] in k;
      }
    }
  }

  /** In the merged input, an entry that follows one already visible to every snapshot
      is dropped. */
  lemma OlderIsHidden(es: seq<Entry>, i: nat, j: nat, r: Rules)
    requires Sorted(es) && i < j < |es|
    requires es[i].key.user == es[j].key.user && es[i].key.seqno <= r.smallest
    ensures Hidden(es, j, r)
  {
    assert AtOrBefore(es[i].key, es[j - 1].key);
    assert Before(es[j - 1].key, es[j].key);
  }

  lemma HiddenBehindNewer(es: seq<Entry>, i: nat, r: Rules, s: SeqNo)
    requires Sorted(es) && i < |es| && Hidden(es, i, r) && r.smallest <= s && r.smallest < MAX_SEQUENCE
    requires Unique(EntrySet(es))
    ensures !Newest(EntrySet(es), es[i].key.user, s, es[i])
  {
    assert es[i - 1] in EntrySet(es) && es[i] in EntrySet(es);
    assert Before(es[i - 1].key, es[i].key);
    assert es[i - 1] != es[i];
    assert Visible(es[i - 1], es[i].key.user, s);
  }

  /** No entry outside the input is older than a deletion that is dropped for `k`. */
  ghost predicate NothingBelow(rest: set<Entry>, es: seq<Entry>, r: Rules, k: UserKey) {
    forall i, x | 0 <= i < |es| && es[i].key.user == k && Obsolete(es, i, r) && x in rest && x.key.user == k :: x.key.seqno > es[i].key.seqno
  }

  /** The newest entry visible at `s` is either kept or an obsolete deletion. */
  lemma NewestIsKeptOrObsolete(rest: set<Entry>, es: seq<Entry>, r: Rules, k: UserKey, s: SeqNo, i: nat)
    requires Sorted(es) && Unique(rest + EntrySet(es))
    requires r.smallest <= s && r.smallest < MAX_SEQUENCE && i < |es|
    requires Newest(rest + EntrySet(es), k, s, es[i])
    ensures es[i] in Kept(es, |es|, r) || Obsolete(es, i, r)
  {
    KeptExactly(es, |es|, r);
    assert Newest(EntrySet(es), k, s, es[i]);
    if Hidden(es, i, r) { HiddenBehindNewer(es, i, r, s); assert false; }
  }

  /** Behind an obsolete deletion nothing of the input is kept. */
  lemma NothingKeptBehind(es: seq<Entry>, r: Rules, i: nat, x: Entry)
    requires Sorted(es) && Unique(EntrySet(es)) && i < |es| && Obsolete(es, i, r)
    requires x in Kept(es, |es|, r) && x.key.user == es[i].key.user
    ensures x.key.seqno > es[i].key.seqno
  {
    KeptExactly(es, |es|, r);
    var j :| 0 <= j < |es| && es[j] == x && !Dropped(es, j, r);
    if i < j { OlderIsHidden(es, i, j, r); assert false; }
    assert x in EntrySet(es) && es[i] in EntrySet(es);
    assert j < i;
  }

  lemma KeptIsPart(es: seq<Entry>, r: Rules)
    ensures EntrySet(Kept(es, |es|, r)) <= EntrySet(es)
  {
    KeptExactly(es, |es|, r);
  }

  ghost predicate ViewsAgree(a: set<Entry>, b: set<Entry>, k: UserKey, smallest: SeqNo) {
    forall s: SeqNo | smallest <= s :: View(a, k, s) == View(b, k, s)
  }

  /** A deletion is dropped while an older value of its key stays behind, unseen by the
      compaction, and nothing newer hides it from the oldest snapshot. */
  ghost predicate Resurrects(rest: set<Entry>, es: seq<Entry>, r: Rules, k: UserKey, i: nat, x: Entry) {
    && i < |es| && Obsolete(es, i, r)
    && Newest(rest + EntrySet(es), k, r.smallest, es[i])
    && es[i].key.seqno > 0 && Newest(rest, k, es[i].key.seqno - 1, x)
    && x.key.vtype.Value?
  }

  ghost predicate SomethingResurrects(rest: set<Entry>, es: seq<Entry>, r: Rules, k: UserKey) {
    exists i, x :: Resurrects(rest, es, r, k, i, x)
  }

  /** Keeping the newest visible entry keeps the read. */
  lemma ViewKeptNewest(all: set<Entry>, part: set<Entry>, k: UserKey, s: SeqNo, e: Entry)
    requires Unique(all) && part <= all && e in part && Newest(all, k, s, e)
    ensures View(part, k, s) == View(all, k, s)
  {
    assert Newest(part, k, s, e);
    ViewOfNewest(all, k, s, e);
    ViewOfNewest(part, k, s, e);
  }

  /** When the newest visible entry is an obsolete deletion of the input, what is read
      afterwards is what lies below it outside the input. */
  lemma ViewBelowObsolete(rest: set<Entry>, es: seq<Entry>, r: Rules, k: UserKey, s: SeqNo, i: nat)
    requires Sorted(es) && Unique(rest + EntrySet(es)) && rest !! EntrySet(es)
    requires r.smallest <= s && i < |es| && Obsolete(es, i, r)
    requires Newest(rest + EntrySet(es), k, s, es[i])
    requires es[i] !in Kept(es, |es|, r)
    requires !SomethingResurrects(rest, es, r, k)
    ensures View(rest + EntrySet(Kept(es, |es|, r)), k, s) == None
  {
    var after := rest + EntrySet(Kept(es, |es|, r));
    KeptIsPart(es, r);
    assert Unique(after);
    assert Newest(rest + EntrySet(es), k, r.smallest, es[i]);
    if y :| y in after && Visible(y, k, s) {
      NewestExists(after, k, s, y);
      var x :| Newest(after, k, s, x);
      assert x in rest + EntrySet(es);
      assert x.key.seqno <= es[i].key.seqno;
      assert x !in Kept(es, |es|, r) by {
        if x in Kept(es, |es|, r) { NothingKeptBehind(es, r, i, x); assert false; }
      }
      assert x in rest;
      assert x != es[i];
      assert Newest(rest, k, es[i].key.seqno - 1, x);
      assert !Resurrects(rest, es, r, k, i, x);
      ViewOfNewest(after, k, s, x);
    } else {
      ViewOfNothing(after, k, s);
    }
  }

  /** A compaction preserves every read at or above the oldest snapshot exactly when it
      resurrects nothing. */
  lemma DropPreservesReads(rest: set<Entry>, es: seq<Entry>, r: Rules, k: UserKey)
    requires r.smallest < MAX_SEQUENCE
    requires Sorted(es) && Unique(rest + EntrySet(es)) && rest !! EntrySet(es)
    ensures ViewsAgree(rest + EntrySet(Kept(es, |es|, r)), rest + EntrySet(es), k, r.smallest)
      <==> !SomethingResurrects(rest, es, r, k)
  {
    var all, after := rest + EntrySet(es), rest + EntrySet(Kept(es, |es|, r));
    KeptIsPart(es, r);
    if SomethingResurrects(rest, es, r, k) {
      var i, x :| Resurrects(rest, es, r, k, i, x);
      ResurrectionIsSeen(rest, es, r, k, i, x);
    } else {
      forall s: SeqNo | r.smallest <= s ensures View(after, k, s) == View(all, k, s) {
        if y :| y in all && Visible(y, k, s) {
          NewestExists(all, k, s, y);
          var e :| Newest(all, k, s, e);
          NewestDecides(rest, es, r, k, s, e);
        } else {
          ViewOfNothing(all, k, s);
          ViewOfNothing(after, k, s);
        }
      }
    }
  }

  lemma NewestDecides(rest: set<Entry>, es: seq<Entry>, r: Rules, k: UserKey, s: SeqNo, e: Entry)
    requires r.smallest < MAX_SEQUENCE
    requires Sorted(es) && Unique(rest + EntrySet(es)) && rest !! EntrySet(es)
    requires r.smallest <= s && Newest(rest + EntrySet(es), k, s, e)
    requires !SomethingResurrects(rest, es, r, k)
    ensures View(rest + EntrySet(Kept(es, |es|, r)), k, s) == View(rest + EntrySet(es), k, s)
  {
    var all, after := rest + EntrySet(es), rest + EntrySet(Kept(es, |es|, r));
    KeptIsPart(es, r);
    if e in after {
      ViewKeptNewest(all, after, k, s, e);
    } else {
      var i :| 0 <= i < |es| && es[i] == e;
      NewestIsKeptOrObsolete(rest, es, r, k, s, i);
      ViewBelowObsolete(rest, es, r, k, s, i);
      ViewOfNewest(all, k, s, e);
    }
  }

  lemma ResurrectionIsSeen(rest: set<Entry>, es: seq<Entry>, r: Rules, k: UserKey, i: nat, x: Entry)
    requires Sorted(es) && Unique(rest + EntrySet(es)) && rest !! EntrySet(es)
    requires Resurrects(rest, es, r, k, i, x)
    ensures View(rest + EntrySet(es), k, r.smallest) == None
    ensures View(rest + EntrySet(Kept(es, |es|, r)), k, r.smallest) == Some(x.value)
  {
    var all, after := rest + EntrySet(es), rest + EntrySet(Kept(es, |es|, r));
    KeptIsPart(es, r);
    KeptExactly(es, |es|, r);
    ViewOfNewest(all, k, r.smallest, es[i]);
    forall y | y in after && Visible(y, k, r.smallest) ensures y.key.seqno <= x.key.seqno {
      assert y in all;
      assert y.key.seqno <= es[i].key.seqno;
      if y in Kept(es, |es|, r) { NothingKeptBehind(es, r, i, y); assert false; }
      assert y in rest && es[i] !in rest;
    }
    assert Newest(after, k, r.smallest, x);
    ViewOfNewest(after, k, r.smallest, x);
  }

  /** Without older data outside the input nothing can resurrect. */
  lemma NothingBelowNothingResurrects(rest: set<Entry>, es: seq<Entry>, r: Rules, k: UserKey)
    requires NothingBelow(rest, es, r, k)
    ensures !SomethingResurrects(rest, es, r, k)
  {
    forall i, x ensures !Resurrects(rest, es, r, k, i, x) {
      if Resurrects(rest, es, r, k, i, x) { assert false; }
    }
  }
}
