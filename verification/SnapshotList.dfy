/** The circular list of snapshots (db/snapshot.h): a dummy head, the oldest snapshot behind
    it, the newest before it. */
module SnapshotList {
  import opened DbFormat

  class SnapshotImpl {
    const number: SeqNo
    var prev: SnapshotImpl
    var next: SnapshotImpl

    constructor (n: SeqNo)
      ensures number == n && prev == this && next == this
    {
      number, prev, next := n, this, this;
    }
  }

  ghost predicate Distinct(ring: seq<SnapshotImpl>) {
    forall i, j | 0 <= i < j < |ring| :: ring[i] != ring[j]
  }

  /** The snapshot behind `ring[i]`; behind the last one is the head again. */
  ghost function After(ring: seq<SnapshotImpl>, i: nat): SnapshotImpl
    requires i < |ring|
  {
    if i == |ring| - 1 then ring[0] else ring[i + 1]
  }

  ghost predicate Linked(ring: seq<SnapshotImpl>)
    reads ring
  {
    forall i | 0 <= i < |ring| :: ring[i].next == After(ring, i) && After(ring, i).prev == ring[i]
  }

  ghost function Numbers(nodes: seq<SnapshotImpl>): (r: seq<SeqNo>)
    ensures |r| == |nodes| && forall i | 0 <= i < |r| :: r[i] == nodes[i].number
  {
    seq(|nodes|, i requires 0 <= i < |nodes| => nodes[i].number)
  }

  predicate Rising(ns: seq<SeqNo>) {
    forall i, j | 0 <= i < j < |ns| :: ns[i] <= ns[j]
  }

  lemma NumbersWith(nodes: seq<SnapshotImpl>, s: SnapshotImpl)
    requires Rising(Numbers(nodes)) && forall x | x in Numbers(nodes) :: x <= s.number
    ensures Numbers(nodes + [s]) == Numbers(nodes) + [s.number] && Rising(Numbers(nodes + [s]))
  {
    assert forall i | 0 <= i < |nodes| :: Numbers(nodes)[i] in Numbers(nodes);
  }

  lemma NumbersWithout(nodes: seq<SnapshotImpl>, i: nat)
    requires Rising(Numbers(nodes)) && i < |nodes|
    ensures Numbers(nodes[..i] + nodes[i + 1..]) == Numbers(nodes)[..i] + Numbers(nodes)[i + 1..]
    ensures Rising(Numbers(nodes[..i] + nodes[i + 1..]))
  {
  }

  /** A ring with the place behind `i` taken out. */
  lemma RingWithout(ring: seq<SnapshotImpl>, i: nat, rest: seq<SnapshotImpl>)
    requires i + 1 < |ring| && Distinct(ring) && rest == ring[..i + 1] + ring[i + 2..]
    ensures |rest| == |ring| - 1 && Distinct(rest) && rest[0] == ring[0]
    ensures forall k | 0 <= k < |rest| :: rest[k] == ring[if k <= i then k else k + 1]
    ensures forall k | 0 <= k < |rest| :: After(rest, k) == After(ring, if k < i then k else k + 1)
    ensures forall k | 0 <= k < |ring| && k != i :: ring[k] != ring[i]
    ensures forall k | 0 <= k < |ring| && k != i + 1 :: After(ring, k) != After(ring, i + 1)
  {
  }

  class SnapshotList {
    const head: SnapshotImpl
    ghost var nodes: seq<SnapshotImpl>

    ghost predicate Valid()
      reads this, [head] + nodes
    {
      Distinct([head] + nodes) && Linked([head] + nodes) && Rising(Numbers(nodes))
    }

    constructor ()
      ensures Valid() && fresh(head) && nodes == []
    {
      head := new SnapshotImpl(0);
      nodes := [];
    }

    method Empty() returns (r: bool)
      requires Valid()
      ensures r <==> nodes == []
    {
      assert Linked([head] + nodes) && After([head] + nodes, 0) == if nodes == [] then head else nodes[0];
      r := head.next == head;
      if nodes != [] { assert ([head] + nodes)[0] != ([head] + nodes)[1]; }
    }

    /** The snapshot no other live snapshot is older than. */
    method Oldest() returns (s: SnapshotImpl)
      requires Valid() && nodes != []
      ensures s == nodes[0] && forall x | x in Numbers(nodes) :: s.number <= x
    {
      assert After([head] + nodes, 0) == nodes[0];
      s := head.next;
    }

    method Newest() returns (s: SnapshotImpl)
      requires Valid() && nodes != []
      ensures s == nodes[|nodes| - 1] && forall x | x in Numbers(nodes) :: x <= s.number
    {
      var ring := [head] + nodes;
      assert After(ring, |ring| - 1) == head && ring[|ring| - 1] == nodes[|nodes| - 1];
      s := head.prev;
      assert s == nodes[|nodes| - 1];
      assert forall i | 0 <= i < |nodes| :: Numbers(nodes)[i] <= Numbers(nodes)[|nodes| - 1];
    }

    /** Appends a snapshot; sequence numbers never fall. */
    method New(number: SeqNo) returns (s: SnapshotImpl)
      requires Valid() && forall x | x in Numbers(nodes) :: x <= number
      modifies this, [head] + nodes
      ensures Valid() && fresh(s) && s.number == number
      ensures nodes == old(nodes) + [s] && Numbers(nodes) == old(Numbers(nodes)) + [number]
    {
      ghost var ring := [head] + nodes;
      ghost var n := |ring| - 1;
      assert After(ring, n) == head;
      assert forall k | 0 <= k < n :: After(ring, k) != head;
      s := new SnapshotImpl(number);
      s.next := head;
      s.prev := head.prev;
      s.prev.next := s;
      s.next.prev := s;
      NumbersWith(nodes, s);
      nodes := nodes + [s];
      assert [head] + nodes == ring + [s];
      forall i | 0 <= i < |ring + [s]| ensures (ring + [s])[i].next == After(ring + [s], i) && After(ring + [s], i).prev == (ring + [s])[i] {
        if i < n { assert old(ring[i].next == After(ring, i) && After(ring, i).prev == ring[i]); }
      }
    }

    method Unlink(s: SnapshotImpl, ghost ring: seq<SnapshotImpl>, ghost i: nat, ghost rest: seq<SnapshotImpl>)
      requires i + 1 < |ring| && ring[i + 1] == s && Distinct(ring) && Linked(ring)
      requires rest == ring[..i + 1] + ring[i + 2..]
      modifies ring
      ensures Linked(rest)
    {
      RingWithout(ring, i, rest);
      assert After(ring, i) == s && s.prev == ring[i] && s.next == After(ring, i + 1);
      s.prev.next := s.next;
      s.next.prev := s.prev;
      hide Distinct, After;
      forall k | 0 <= k < |rest| ensures rest[k].next == After(rest, k) && After(rest, k).prev == rest[k] {
        if k != i {
          ghost var j := if k < i then k else k + 1;
          assert old(ring[j].next == After(ring, j) && After(ring, j).prev == ring[j]);
        }
      }
    }

    /** Removes the snapshot at place `i`. */
    method Delete(s: SnapshotImpl, ghost i: nat)
      requires Valid() && i < |nodes| && nodes[i] == s
      modifies this, [head] + nodes
      ensures Valid() && nodes == old(nodes)[..i] + old(nodes)[i + 1..]
      ensures Numbers(nodes) == old(Numbers(nodes))[..i] + old(Numbers(nodes))[i + 1..]
    {
      ghost var ring := [head] + nodes;
      ghost var rest := [head] + (nodes[..i] + nodes[i + 1..]);
      assert rest == ring[..i + 1] + ring[i + 2..];
      RingWithout(ring, i, rest);
      Unlink(s, ring, i, rest);
      NumbersWithout(nodes, i);
      hide Linked, Distinct, Rising, Numbers;
      nodes := nodes[..i] + nodes[i + 1..];
    }
  }
}
