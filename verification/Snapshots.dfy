/** The snapshot list (database/leveldb/db/snapshot.h): a circular doubly-linked list with a dummy
    head, kept in order of sequence numbers, and its use by GetSnapshot, ReleaseSnapshot and
    DoCompactionWork (database/leveldb/db/db_impl.cc). */
module Snapshots {

  class SnapshotImpl {
    var prev: SnapshotImpl?
    var next: SnapshotImpl?
    const sequenceNumber: nat

    constructor (n: nat)
      ensures sequenceNumber == n
    {
      sequenceNumber := n;
      prev, next := null, null;
    }
  }

  predicate Linked(a: SnapshotImpl, b: SnapshotImpl)
    reads a, b
  {
    a.next == b && b.prev == a
  }

  class SnapshotList {
    const head: SnapshotImpl
    /** The snapshots from oldest to newest. */
    ghost var nodes: seq<SnapshotImpl>

    /** Ring position: 0 and |nodes| + 1 are the head. */
    ghost function At(i: int): SnapshotImpl
      requires 0 <= i <= |nodes| + 1
      reads this
    {
      if 1 <= i <= |nodes| then nodes[i - 1] else head
    }

    ghost predicate Valid()
      reads this, head, nodes
    {
      && (forall i, j :: 0 <= i < j <= |nodes| ==> At(i) != At(j))
      && (forall i :: 0 <= i <= |nodes| ==> Linked(At(i), At(i + 1)))
      && (forall i, j :: 0 <= i < j < |nodes| ==> nodes[i].sequenceNumber <= nodes[j].sequenceNumber)
    }

    constructor ()
      ensures Valid() && nodes == [] && fresh(head)
    {
      var h := new SnapshotImpl(0);
      head := h;
      nodes := [];
      new;
      head.prev := head;
      head.next := head;
    }

    method Empty() returns (e: bool)
      requires Valid()
      ensures e <==> nodes == []
    {
      assert Linked(At(0), At(1));
      e := head.next == head;
    }

    /** The first of the ring, and a minimum of all. */
    method Oldest() returns (s: SnapshotImpl)
      requires Valid() && nodes != []
      ensures s == nodes[0]
      ensures forall t :: t in nodes ==> s.sequenceNumber <= t.sequenceNumber
    {
      assert Linked(At(0), At(1));
      s := head.next;
    }

    /** Appends at the newest end. */
    method New(n: nat) returns (s: SnapshotImpl)
      requires Valid()
      requires forall t :: t in nodes ==> t.sequenceNumber <= n
      modifies this, head, nodes
      ensures Valid() && fresh(s) && s.sequenceNumber == n
      ensures nodes == old(nodes) + [s]
    {
      ghost var k := |nodes|;
      s := new SnapshotImpl(n);
      assert Linked(At(k), At(k + 1));
      var last := head.prev;
      s.next := head;
      s.prev := last;
      last.next := s;
      head.prev := s;
      nodes := nodes + [s];
      assert forall i :: 0 <= i <= k ==> At(i) == old(At(i)) != s;
      assert At(k) == last && At(k + 1) == s && At(k + 2) == head;
      forall i | 0 <= i < k ensures Linked(At(i), At(i + 1)) {
        assert old(Linked(At(i), At(i + 1)));
      }
      assert Linked(last, s) && Linked(s, head);
    }

    /** Unlinks a snapshot wherever it stands. */
    method Delete(s: SnapshotImpl, ghost k: nat)
      requires Valid() && k < |nodes| && nodes[k] == s
      modifies this, head, nodes
      ensures Valid() && nodes == old(nodes)[..k] + old(nodes)[k + 1..]
    {
      ghost var n := |nodes|;
      assert Linked(At(k), At(k + 1)) && Linked(At(k + 1), At(k + 2));
      var p, q := s.prev, s.next;
      p.next := q;
      q.prev := p;
      nodes := nodes[..k] + nodes[k + 1..];
      assert forall i :: 0 <= i <= k ==> At(i) == old(At(i));
      assert forall i :: k < i <= n ==> At(i) == old(At(i + 1));
      forall i | 0 <= i <= n - 1 ensures Linked(At(i), At(i + 1)) {
        if i < k {
          assert old(Linked(At(i), At(i + 1)));
        } else if i > k {
          assert old(Linked(At(i + 1), At(i + 2)));
        } else {
          assert At(i) == p && At(i + 1) == q;
        }
      }
    }
  }

  /** The part of the database that takes snapshots: new ones get the last sequence number, which
      never goes back. */
  class SnapshotSource {
    const list: SnapshotList
    var lastSequence: nat

    ghost predicate Valid()
      reads this, list, list.head, list.nodes
    {
      list.Valid() && forall t :: t in list.nodes ==> t.sequenceNumber <= lastSequence
    }

    constructor (last: nat)
      ensures Valid() && list.nodes == [] && lastSequence == last
    {
      var l := new SnapshotList();
      list := l;
      lastSequence := last;
    }

    method GetSnapshot() returns (s: SnapshotImpl)
      requires Valid()
      modifies list, list.head, list.nodes
      ensures Valid() && s.sequenceNumber == lastSequence && list.nodes == old(list.nodes) + [s]
    {
      s := list.New(lastSequence);
    }

    method ReleaseSnapshot(s: SnapshotImpl, ghost k: nat)
      requires Valid() && k < |list.nodes| && list.nodes[k] == s
      modifies list, list.head, list.nodes
      ensures Valid() && list.nodes == old(list.nodes)[..k] + old(list.nodes)[k + 1..]
    {
      list.Delete(s, k);
    }

    method SetLastSequence(n: nat)
      requires Valid() && lastSequence <= n
      modifies this
      ensures Valid() && lastSequence == n
    {
      lastSequence := n;
    }

    /** The sequence number below which compaction may forget: no live snapshot, and none that can
        still be taken, is older. */
    method SmallestSnapshot() returns (s: nat)
      requires Valid()
      ensures s <= lastSequence
      ensures forall t :: t in list.nodes ==> s <= t.sequenceNumber
      ensures list.nodes != [] ==> s == list.nodes[0].sequenceNumber
      ensures list.nodes == [] ==> s == lastSequence
    {
      var e := list.Empty();
      if e {
        s := lastSequence;
      } else {
        var oldest := list.Oldest();
        s := oldest.sequenceNumber;
      }
    }
  }
}
