/** The sequence of all operations ever logged, as the reference for every read. */
module History {
  import opened DbFormat
  import opened Entries
  import opened Versions
  import opened CompactionWork
  import opened DropRules

  /** Operation number i + 1 of the store carries sequence number i + 1. */
  predicate Consecutive(h: seq<Entry>) {
    forall i | 0 <= i < |h| :: h[i].key.seqno == i + 1
  }

  lemma ConsecutiveIsUnique(h: seq<Entry>)
    requires Consecutive(h)
    ensures Unique(EntrySet(h))
  {
  }

  /** What a slice of the history holds is decided by the sequence number. */
  lemma SliceBySeqno(h: seq<Entry>, a: nat, b: nat, e: Entry)
    requires Consecutive(h) && a <= b <= |h|
    ensures e in EntrySet(h[a..b]) <==> e in EntrySet(h) && a < e.key.seqno <= b
  {
    if e in EntrySet(h) && a < e.key.seqno <= b {
      var i :| 0 <= i < |h| && h[i] == e;
      assert h[a..b][i - a] == e;
    }
    if e in EntrySet(h[a..b]) {
      var i :| 0 <= i < b - a && h[a..b][i] == e;
      assert h[a + i] == e;
    }
  }

  lemma SliceSplits(h: seq<Entry>, a: nat, b: nat, c: nat)
    requires a <= b <= c <= |h|
    ensures h[a..c] == h[a..b] + h[b..c]
    ensures EntrySet(h[a..c]) == EntrySet(h[a..b]) + EntrySet(h[b..c])
  {
    assert h[a..c] == h[a..b] + h[b..c];
  }

  /** The version together with the entries not yet flushed reads like the history. */
  ghost predicate Faithful(h: seq<Entry>, stored: set<Entry>, flushed: nat, horizon: SeqNo, resurrected: set<UserKey>)
    requires flushed <= |h|
  {
    forall k | k !in resurrected :: ViewsAgree(stored + EntrySet(h[flushed..]), EntrySet(h), k, horizon)
  }

  /** Later operations add the same to both sides. */
  lemma ViewExtend(a: set<Entry>, b: set<Entry>, more: set<Entry>, k: UserKey, s: SeqNo)
    requires Unique(b + more) && a <= b
    requires forall e, n | e in b && n in more :: e.key.seqno < n.key.seqno
    requires View(a, k, s) == View(b, k, s)
    ensures View(a + more, k, s) == View(b + more, k, s)
  {
    if n :| n in more && Visible(n, k, s) {
      NewestExists(more, k, s, n);
      var m :| Newest(more, k, s, m);
      assert Newest(a + more, k, s, m) && Newest(b + more, k, s, m);
      ViewOfNewest(a + more, k, s, m);
      ViewOfNewest(b + more, k, s, m);
    } else {
      NothingVisibleAdded(a, more, k, s);
      NothingVisibleAdded(b, more, k, s);
    }
  }

  lemma NothingVisibleAdded(a: set<Entry>, more: set<Entry>, k: UserKey, s: SeqNo)
    requires Unique(a + more)
    requires forall n | n in more :: !Visible(n, k, s)
    ensures View(a + more, k, s) == View(a, k, s)
  {
    if x :| x in a && Visible(x, k, s) {
      NewestExists(a, k, s, x);
      var e :| Newest(a, k, s, e);
      assert Newest(a + more, k, s, e);
      ViewOfNewest(a, k, s, e);
      ViewOfNewest(a + more, k, s, e);
    } else {
      ViewOfNothing(a, k, s);
      ViewOfNothing(a + more, k, s);
    }
  }

  lemma FaithfulExtend(h: seq<Entry>, more: seq<Entry>, stored: set<Entry>, flushed: nat, horizon: SeqNo, resurrected: set<UserKey>)
    requires Consecutive(h + more) && flushed <= |h| && stored <= EntrySet(h)
    requires Faithful(h, stored, flushed, horizon, resurrected)
    ensures Faithful(h + more, stored, flushed, horizon, resurrected)
  {
    assert Consecutive(h) by {
      assert forall i | 0 <= i < |h| :: (h + more)[i] == h[i];
    }
    assert (h + more)[flushed..] == h[flushed..] + more;
    var a, b, m := stored + EntrySet(h[flushed..]), EntrySet(h), EntrySet(more);
    assert EntrySet(h + more) == b + m;
    assert stored + EntrySet((h + more)[flushed..]) == a + m;
    forall e, n | e in b && n in m ensures e.key.seqno < n.key.seqno {
      SliceBySeqno(h + more, 0, |h|, e);
      SliceBySeqno(h + more, |h|, |h + more|, n);
      assert (h + more)[..|h|] == h && (h + more)[|h|..] == more;
    }
    ConsecutiveIsUnique(h + more);
    forall k, s: SeqNo | k !in resurrected && horizon <= s
      ensures View(stored + EntrySet((h + more)[flushed..]), k, s) == View(EntrySet(h + more), k, s)
    {
      assert ViewsAgree(a, b, k, horizon);
      ViewExtend(a, b, m, k, s);
    }
  }

  /** Without its newer entries a set reads like the whole of it does at the older end. */
  lemma ViewOfOlder(older: set<Entry>, all: set<Entry>, k: UserKey, s: SeqNo, n: SeqNo)
    requires Unique(all) && older <= all
    requires forall e | e in older :: e.key.seqno <= n
    requires forall e | e in all && e !in older :: e.key.seqno > n
    ensures View(older, k, s) == View(all, k, if s < n then s else n)
  {
    var m := if s < n then s else n;
    ViewIgnoresNewer(older, all, k, m);
    assert older + all == all;
    if x :| x in older && Visible(x, k, s) {
      NewestExists(older, k, s, x);
      var e :| Newest(older, k, s, e);
      assert Newest(older, k, m, e);
      ViewOfNewest(older, k, s, e);
      ViewOfNewest(older, k, m, e);
    } else {
      ViewOfNothing(older, k, s);
      ViewOfNothing(older, k, m);
    }
  }

  /** What reads like the history reads like its front once the newest operations are gone. */
  lemma FaithfulCut(h: seq<Entry>, n: SeqNo, stored: set<Entry>, flushed: nat, horizon: SeqNo, resurrected: set<UserKey>)
    requires Consecutive(h) && flushed <= n <= |h| && horizon <= n && stored <= EntrySet(h[..flushed])
    requires Faithful(h, stored, flushed, horizon, resurrected)
    ensures Faithful(h[..n], stored, flushed, horizon, resurrected)
  {
    ConsecutiveIsUnique(h);
    var front, all := stored + EntrySet(h[..n][flushed..]), stored + EntrySet(h[flushed..]);
    assert h[..n][flushed..] == h[flushed..n] && h[flushed..] == h[flushed..|h|] && h[..flushed] == h[0..flushed] && h[..n] == h[0..n];
    forall e ensures (e in front ==> e in all && e.key.seqno <= n) && (e in all ==> e in EntrySet(h)) && (e in all && e !in front ==> e.key.seqno > n) {
      SliceBySeqno(h, flushed, n, e);
      SliceBySeqno(h, flushed, |h|, e);
      SliceBySeqno(h, 0, flushed, e);
    }
    forall e ensures e in EntrySet(h[..n]) <==> e in EntrySet(h) && 0 < e.key.seqno <= n {
      SliceBySeqno(h, 0, n, e);
    }
    forall k, s: SeqNo | k !in resurrected && horizon <= s ensures View(front, k, s) == View(EntrySet(h[..n]), k, s) {
      var m := if s < n then s else n;
      assert ViewsAgree(all, EntrySet(h), k, horizon);
      ViewOfOlder(front, all, k, s, n);
      ViewOfOlder(EntrySet(h[..n]), EntrySet(h), k, s, n);
      assert View(all, k, m) == View(EntrySet(h), k, m);
    }
  }

  lemma JoinSlices(h: seq<Entry>, a: nat, b: nat, c: nat)
    requires a <= b <= c <= |h|
    ensures h[a..b] + h[b..c] == h[a..c]
  {
  }

  lemma WholeTail(h: seq<Entry>, a: nat)
    requires a <= |h|
    ensures h[a..|h|] == h[a..] && h[|h|..] == []
  {
  }

  // ---- blocks of operations, in order ----

  predicate AscendingSeqnos(es: seq<Entry>) {
    forall i, j | 0 <= i < j < |es| :: es[i].key.seqno < es[j].key.seqno
  }

  lemma {:induction false} InFlatten(blocks: seq<seq<Entry>>, i: nat, e: Entry)
    requires i < |blocks| && e in blocks[i]
    ensures e in Flatten(blocks)
  {
    if i < |blocks| - 1 {
      assert blocks[..|blocks| - 1][i] == blocks[i];
      InFlatten(blocks[..|blocks| - 1], i, e);
    }
  }

  lemma {:induction false} FromFlatten(blocks: seq<seq<Entry>>, e: Entry)
    requires e in Flatten(blocks)
    ensures exists i :: 0 <= i < |blocks| && e in blocks[i]
  {
    if |blocks| > 0 {
      var n := |blocks| - 1;
      if e !in blocks[n] {
        FromFlatten(blocks[..n], e);
        var i :| 0 <= i < n && e in blocks[..n][i];
        assert e in blocks[i];
      }
    }
  }

  /** Blocks of an ascending sequence are ascending among each other. */
  lemma {:induction false} BlocksAscend(blocks: seq<seq<Entry>>, i: nat, j: nat, e: Entry, d: Entry)
    requires AscendingSeqnos(Flatten(blocks))
    requires i < j < |blocks| && e in blocks[i] && d in blocks[j]
    ensures e.key.seqno < d.key.seqno
  {
    var n := |blocks| - 1;
    var before := Flatten(blocks[..n]);
    assert Flatten(blocks) == before + blocks[n];
    if j < n {
      assert AscendingSeqnos(before) by {
        assert forall p | 0 <= p < |before| :: Flatten(blocks)[p] == before[p];
      }
      BlocksAscend(blocks[..n], i, j, e, d);
    } else {
      InFlatten(blocks[..n], i, e);
      var p :| 0 <= p < |before| && before[p] == e;
      var q :| 0 <= q < |blocks[n]| && blocks[n][q] == d;
      assert Flatten(blocks)[p] == e && Flatten(blocks)[|before| + q] == d;
    }
  }
}
