/** What a read means: the newest entry of a user key whose sequence number is at
    most the snapshot, with a deletion read as absence. */
module Entries {
  import opened DbFormat

  datatype Option<+T> = None | Some(value: T)

  datatype Entry = Entry(key: InternalKey, value: Bytes)

  predicate Visible(e: Entry, k: UserKey, s: SeqNo) {
    e.key.user == k && e.key.seqno <= s
  }

  ghost predicate Newest(entries: set<Entry>, k: UserKey, s: SeqNo, e: Entry) {
    && e in entries
    && Visible(e, k, s)
    && forall x :: x in entries && Visible(x, k, s) ==> x.key.seqno <= e.key.seqno
  }

  /** No two entries of one user key share a sequence number. */
  ghost predicate Unique(entries: set<Entry>) {
    forall x, y | x in entries && y in entries && x.key.user == y.key.user && x.key.seqno == y.key.seqno :: x == y
  }

  function Payload(e: Entry): Option<Bytes> {
    if e.key.vtype.Value? then Some(e.value) else None
  }

  /** The specification of the whole store: user key and snapshot to value. */
  ghost function View(entries: set<Entry>, k: UserKey, s: SeqNo): Option<Bytes> {
    if exists e :: Newest(entries, k, s, e)
    then var e :| Newest(entries, k, s, e); Payload(e)
    else None
  }

  lemma {:induction false} NewestExists(entries: set<Entry>, k: UserKey, s: SeqNo, x: Entry)
    requires x in entries && Visible(x, k, s)
    ensures exists e :: Newest(entries, k, s, e)
    decreases entries
  {
    var rest := entries - {x};
    if y :| y in rest && Visible(y, k, s) {
      NewestExists(rest, k, s, y);
      var m :| Newest(rest, k, s, m);
      var best := if m.key.seqno >= x.key.seqno then m else x;
      assert Newest(entries, k, s, best);
    } else {
      assert forall z :: z in entries && Visible(z, k, s) ==> z == x || z in rest;
      assert Newest(entries, k, s, x);
    }
  }

  /** In a store with unique sequence numbers the newest entry decides the read. */
  lemma ViewOfNewest(entries: set<Entry>, k: UserKey, s: SeqNo, e: Entry)
    requires Unique(entries) && Newest(entries, k, s, e)
    ensures View(entries, k, s) == Payload(e)
  {
    var x :| Newest(entries, k, s, x) && View(entries, k, s) == Payload(x);
    assert Newest(entries, k, s, x);
    assert x == e;
  }

  lemma ViewOfNothing(entries: set<Entry>, k: UserKey, s: SeqNo)
    requires forall x :: x in entries ==> !Visible(x, k, s)
    ensures View(entries, k, s) == None
  {
    assert forall e :: !Newest(entries, k, s, e);
  }

  /** Entries too new for the snapshot do not matter. */
  lemma ViewIgnoresNewer(entries: set<Entry>, extra: set<Entry>, k: UserKey, s: SeqNo)
    requires Unique(entries)
    requires forall x :: x in extra && x !in entries ==> x.key.seqno > s
    ensures View(entries + extra, k, s) == View(entries, k, s)
  {
    if x :| x in entries && Visible(x, k, s) {
      NewestExists(entries, k, s, x);
      var e :| Newest(entries, k, s, e);
      ViewOfNewest(entries, k, s, e);
      forall y | Newest(entries + extra, k, s, y) ensures Payload(y) == Payload(e) {
        assert y in entries;
        assert y == e;
      }
      assert Newest(entries + extra, k, s, e);
    } else {
      ViewOfNothing(entries, k, s);
      ViewOfNothing(entries + extra, k, s);
    }
  }
}
