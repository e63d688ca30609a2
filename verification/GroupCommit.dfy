/** The writer queue (db/db_impl.cc, Write and BuildBatchGroup): the front writer commits a
    group, everybody else waits. */
module GroupCommit {
  import opened DbFormat
  import opened Entries
  import opened WriteBatch

  /** A caller of DBImpl::Write; one without a batch only waits for its turn. */
  datatype Writer = Writer(id: nat, batch: Option<seq<BatchOp>>, sync: bool)

  const SMALL_WRITE: nat := 0x2_0000
  const MAX_GROUP: nat := 0x10_0000

  function ByteSize(batch: seq<BatchOp>): nat {
    HEADER_SIZE + |EncodeOps(batch)|
  }

  function SizeOf(w: Writer): nat {
    if w.batch.Some? then ByteSize(w.batch.value) else 0
  }

  function TotalSize(ws: seq<Writer>): nat {
    if |ws| == 0 then 0 else TotalSize(ws[..|ws| - 1]) + SizeOf(ws[|ws| - 1])
  }

  /** The operations of the non-null batches, in order. */
  function OpsOf(ws: seq<Writer>): seq<BatchOp> {
    if |ws| == 0 then [] else OpsOf(ws[..|ws| - 1]) + BatchOf(ws[|ws| - 1])
  }

  function BatchOf(w: Writer): seq<BatchOp> {
    if w.batch.Some? then w.batch.value else []
  }

  function MaxSize(first: nat): nat {
    if first <= SMALL_WRITE then first + SMALL_WRITE else MAX_GROUP
  }

  /** Why the group ends in front of `w`: it wants a sync the leader does not do, or its
      batch makes the group too big. */
  predicate MustWait(group: seq<Writer>, w: Writer)
    requires |group| > 0
  {
    || (w.sync && !group[0].sync)
    || (w.batch.Some? && TotalSize(group) + SizeOf(w) > MaxSize(SizeOf(group[0])))
  }

  /** The longest prefix of the queue in which nobody must wait, seen from the front. */
  predicate IsGroup(writers: seq<Writer>, n: nat) {
    1 <= n <= |writers| && NobodyWaits(writers, n) && (n < |writers| ==> MustWait(writers[..n], writers[n]))
  }

  predicate NobodyWaits(writers: seq<Writer>, n: nat)
    requires n <= |writers|
  {
    forall i | 1 <= i < n :: !MustWait(writers[..i], writers[i])
  }

  lemma NextDoesNotWait(writers: seq<Writer>, n: nat)
    requires 1 <= n < |writers| && NobodyWaits(writers, n)
    ensures !MustWait(writers[..n], writers[n]) ==> NobodyWaits(writers, n + 1)
  {
    hide MustWait;
  }

  /** BuildBatchGroup: how many writers join, and their merged batch. */
  method BuildBatchGroup(writers: seq<Writer>) returns (n: nat, result: seq<BatchOp>)
    requires |writers| > 0 && writers[0].batch.Some?
    ensures 1 <= n <= |writers| && IsGroup(writers, n) && result == OpsOf(writers[..n])
  {
    var first := writers[0];
    result := first.batch.value;
    var size := ByteSize(first.batch.value);
    var maxSize := MAX_GROUP;
    if size <= SMALL_WRITE {
      maxSize := size + SMALL_WRITE;
    }
    n := 1;
    FirstOnly(writers);
    assert MaxSize(SizeOf(first)) == maxSize && NobodyWaits(writers, 1);
    hide MustWait, NobodyWaits, TotalSize, OpsOf, EncodeOps, ByteSize, MaxSize;
    while n < |writers|
      invariant 1 <= n <= |writers| && NobodyWaits(writers, n)
      invariant size == TotalSize(writers[..n]) && result == OpsOf(writers[..n])
    {
      var w := writers[n];
      OneMoreWriter(writers, n);
      WhoMustWait(writers, n);
      NextDoesNotWait(writers, n);
      if w.sync && !first.sync { break; }
      if w.batch.Some? {
        size := size + ByteSize(w.batch.value);
        if size > maxSize { break; }
        result := result + w.batch.value;
      }
      n := n + 1;
    }
  }

  lemma WhoMustWait(writers: seq<Writer>, n: nat)
    requires 1 <= n < |writers|
    ensures var w := writers[n];
            MustWait(writers[..n], w) <==>
              || (w.sync && !writers[0].sync)
              || (w.batch.Some? && TotalSize(writers[..n]) + SizeOf(w) > MaxSize(SizeOf(writers[0])))
  {
    assert writers[..n][0] == writers[0];
    hide TotalSize, SizeOf, MaxSize;
  }

  lemma FirstOnly(writers: seq<Writer>)
    requires |writers| > 0
    ensures TotalSize(writers[..1]) == SizeOf(writers[0]) && OpsOf(writers[..1]) == BatchOf(writers[0])
  {
    assert writers[..1][..0] == [];
  }

  lemma OneMoreWriter(writers: seq<Writer>, n: nat)
    requires n < |writers|
    ensures TotalSize(writers[..n + 1]) == TotalSize(writers[..n]) + SizeOf(writers[n])
    ensures OpsOf(writers[..n + 1]) == OpsOf(writers[..n]) + BatchOf(writers[n])
  {
    assert writers[..n + 1][..n] == writers[..n];
  }

  /** A group never makes a writer without sync pay for one with it, and stays within the
      bound unless the leader's batch alone exceeds it. */
  lemma {:induction false} GroupIsBounded(writers: seq<Writer>, n: nat)
    requires 1 <= n <= |writers| && NobodyWaits(writers, n)
    ensures forall i | 0 <= i < n :: writers[i].sync ==> writers[0].sync
    ensures var first := SizeOf(writers[0]);
            TotalSize(writers[..n]) <= if first <= SMALL_WRITE then first + SMALL_WRITE else if first <= MAX_GROUP then MAX_GROUP else first
  {
    if n == 1 {
      FirstOnly(writers);
    } else {
      GroupIsBounded(writers, n - 1);
      OneMoreWriter(writers, n - 1);
      assert !MustWait(writers[..n - 1], writers[n - 1]);
    }
  }

  datatype Done = Done(writer: Writer, ok: bool)

  /** One commit as the log sees it. */
  datatype Record = Record(first: nat, ops: seq<BatchOp>)

  class WriteQueue {
    var writers: seq<Writer>
    var lastSequence: nat
    var log: seq<Record>
    /** Everybody who ever called, and everybody who got an answer, in order. */
    ghost var arrived: seq<Writer>
    ghost var finished: seq<Done>

    ghost predicate Valid()
      reads this
    {
      && arrived == Finishers(finished) + writers
      && Logged(log) == Acknowledged(finished)
      && Numbered(log, lastSequence)
    }

    constructor ()
      ensures Valid() && writers == [] && finished == [] && arrived == []
    {
      writers, lastSequence, log, arrived, finished := [], 0, [], [], [];
    }

    method Enqueue(w: Writer)
      requires Valid()
      modifies this
      ensures Valid() && writers == old(writers) + [w] && arrived == old(arrived) + [w] && finished == old(finished)
      ensures log == old(log) && lastSequence == old(lastSequence)
    {
      assert Finishers(finished) + (writers + [w]) == (Finishers(finished) + writers) + [w];
      writers := writers + [w];
      arrived := arrived + [w];
    }

    /** Write, by the front writer; `logOk` is the outcome of appending to the log.  The last
        sequence number moves on even if that failed. */
    method Write(logOk: bool) returns (n: nat)
      requires Valid() && |writers| > 0
      modifies this
      ensures Valid() && 1 <= n <= |old(writers)| && writers == old(writers)[n..] && arrived == old(arrived)
      ensures old(writers)[0].batch.Some? ==> IsGroup(old(writers), n)
      ensures old(writers)[0].batch.None? ==> n == 1 && log == old(log) && lastSequence == old(lastSequence)
      ensures old(writers)[0].batch.Some? ==>
        && lastSequence == old(lastSequence) + |OpsOf(old(writers)[..n])|
        && log == old(log) + (if logOk then [Record(old(lastSequence) + 1, OpsOf(old(writers)[..n]))] else [])
      ensures finished == old(finished) + AllDone(old(writers)[..n], logOk || old(writers)[0].batch.None?)
    {
      hide OpsOf, TotalSize, Numbered, Logged, Finishers, Acknowledged, IsGroup, AllDone;
      n := 1;
      var ok := true;
      FirstOnly(writers);
      ghost var queue, before := writers, finished;
      if writers[0].batch.Some? {
        var updates;
        n, updates := BuildBatchGroup(writers);
        ok := logOk;
        if ok {
          LogOneMore(log, Record(lastSequence + 1, updates));
          NumberedOneMore(log, lastSequence, updates);
          log := log + [Record(lastSequence + 1, updates)];
        } else {
          NumberedSkips(log, lastSequence, lastSequence + |updates|);
        }
        lastSequence := lastSequence + |updates|;
      }
      NoOps(queue, before);
      GroupIsFinished(before, queue, n, ok);
      GroupIsAcknowledged(before, queue, n, ok);
      Finish(n, ok);
    }

    /** Everybody in the group is taken off the queue and told the outcome. */
    method Finish(n: nat, ok: bool)
      requires n <= |writers|
      modifies this`writers, this`finished
      ensures writers == old(writers)[n..] && finished == old(finished) + AllDone(old(writers)[..n], ok)
    {
      ghost var queue, before := writers, finished;
      var i := 0;
      NoneDone(before, queue, ok);
      while i < n
        invariant i <= n <= |queue| && writers == queue[i..] && finished == before + AllDone(queue[..i], ok)
      {
        OneMoreDone(queue, i, ok);
        Join(before, AllDone(queue[..i], ok), [Done(queue[i], ok)]);
        finished := finished + [Done(writers[0], ok)];
        writers := writers[1..];
        i := i + 1;
      }
    }
  }

  lemma NoneDone(before: seq<Done>, queue: seq<Writer>, ok: bool)
    ensures before + AllDone(queue[..0], ok) == before && queue[0..] == queue
  {
  }

  lemma Join<T>(a: seq<T>, b: seq<T>, c: seq<T>)
    ensures a + (b + c) == (a + b) + c
  {
  }

  function Finishers(ds: seq<Done>): seq<Writer> {
    if |ds| == 0 then [] else Finishers(ds[..|ds| - 1]) + [ds[|ds| - 1].writer]
  }

  /** The operations of everybody who was told success. */
  function Acknowledged(ds: seq<Done>): seq<BatchOp> {
    if |ds| == 0 then []
    else
      var d := ds[|ds| - 1];
      Acknowledged(ds[..|ds| - 1]) + (if d.ok then BatchOf(d.writer) else [])
  }

  function Logged(log: seq<Record>): seq<BatchOp> {
    if |log| == 0 then [] else Logged(log[..|log| - 1]) + log[|log| - 1].ops
  }

  /** Records carry disjoint, rising stretches of sequence numbers up to `last`. */
  predicate Numbered(log: seq<Record>, last: nat) {
    && (forall i | 0 <= i < |log| :: 1 <= log[i].first && log[i].first + |log[i].ops| <= last + 1)
    && (forall i, j | 0 <= i < j < |log| :: log[i].first + |log[i].ops| <= log[j].first)
  }

  function AllDone(ws: seq<Writer>, ok: bool): (r: seq<Done>)
    ensures |r| == |ws| && forall i | 0 <= i < |r| :: r[i] == Done(ws[i], ok)
  {
    seq(|ws|, i requires 0 <= i < |ws| => Done(ws[i], ok))
  }

  lemma OneMoreDone(queue: seq<Writer>, i: nat, ok: bool)
    requires i < |queue|
    ensures AllDone(queue[..i + 1], ok) == AllDone(queue[..i], ok) + [Done(queue[i], ok)]
  {
  }

  lemma LogOneMore(log: seq<Record>, r: Record)
    ensures Logged(log + [r]) == Logged(log) + r.ops
  {
    assert (log + [r])[..|log|] == log;
  }

  lemma NumberedOneMore(log: seq<Record>, last: nat, ops: seq<BatchOp>)
    requires Numbered(log, last)
    ensures Numbered(log + [Record(last + 1, ops)], last + |ops|)
  {
  }

  lemma NumberedSkips(log: seq<Record>, last: nat, last': nat)
    requires Numbered(log, last) && last <= last'
    ensures Numbered(log, last')
  {
  }

  lemma QueueSplits(queue: seq<Writer>, n: nat)
    requires 0 < n <= |queue|
    ensures queue[n - 1..] == [queue[n - 1]] + queue[n..]
  {
  }

  lemma NoOps(queue: seq<Writer>, done: seq<Done>)
    ensures OpsOf(queue[..0]) == [] && Acknowledged(done) + [] == Acknowledged(done)
  {
    assert queue[..0] == [];
  }

  /** The whole group is finished, in the order of the queue. */
  lemma {:induction false} GroupIsFinished(before: seq<Done>, queue: seq<Writer>, n: nat, ok: bool)
    requires n <= |queue|
    ensures Finishers(before + AllDone(queue[..n], ok)) + queue[n..] == Finishers(before) + queue
  {
    hide *;
    if n == 0 {
      NoneDone(before, queue, ok);
    } else {
      GroupIsFinished(before, queue, n - 1, ok);
      OneMoreDone(queue, n - 1, ok);
      var done, d := before + AllDone(queue[..n - 1], ok), Done(queue[n - 1], ok);
      OneMoreFinisher(done, d);
      Join(before, AllDone(queue[..n - 1], ok), [d]);
      QueueSplits(queue, n);
      Join(Finishers(done), [queue[n - 1]], queue[n..]);
    }
  }

  lemma AcknowledgedNext(before: seq<Done>, done: seq<Done>, d: Done, ops: seq<BatchOp>)
    requires Acknowledged(before + done) == if d.ok then Acknowledged(before) + ops else Acknowledged(before)
    ensures Acknowledged(before + (done + [d])) == if d.ok then Acknowledged(before) + (ops + BatchOf(d.writer)) else Acknowledged(before)
  {
    hide *;
    OneMoreFinisher(before + done, d);
    Join(before, done, [d]);
    Join(Acknowledged(before), ops, BatchOf(d.writer));
  }

  /** What the group adds to the acknowledged operations is its merged batch. */
  lemma {:induction false} GroupIsAcknowledged(before: seq<Done>, queue: seq<Writer>, n: nat, ok: bool)
    requires n <= |queue|
    ensures Acknowledged(before + AllDone(queue[..n], ok)) == if ok then Acknowledged(before) + OpsOf(queue[..n]) else Acknowledged(before)
  {
    hide *;
    if n == 0 {
      NoneDone(before, queue, ok);
      NoOps(queue, before);
    } else {
      GroupIsAcknowledged(before, queue, n - 1, ok);
      OneMoreWriter(queue, n - 1);
      OneMoreDone(queue, n - 1, ok);
      AcknowledgedNext(before, AllDone(queue[..n - 1], ok), Done(queue[n - 1], ok), OpsOf(queue[..n - 1]));
    }
  }

  lemma OneMoreFinisher(done: seq<Done>, d: Done)
    ensures Finishers(done + [d]) == Finishers(done) + [d.writer]
    ensures Acknowledged(done + [d]) == if d.ok then Acknowledged(done) + BatchOf(d.writer) else Acknowledged(done)
  {
    assert (done + [d])[..|done|] == done;
  }
}
