/**
 * The writer queue of the database: a group-commit protocol.
 * Every `Write` call is one writer.  The writer at the front of the queue leads: it
 * logs its own batch together with those of the writers behind it, with the lock
 * released, and then completes the whole group.
 *
 * Writers are numbered in the order in which they enter the queue, so the queue
 * always holds the numbers from `head` on.
 */
module GroupCommit {
  import opened Bytes

  datatype Op = Put(key: seq<byte>, value: seq<byte>) | Delete(key: seq<byte>)
  /** A write batch: its operations and its size in bytes. */
  datatype Batch = Batch(ops: seq<Op>, size: nat)
  /** What a caller passes to `Write`; a batch of `None` only asks for a compaction. */
  datatype Call = Call(batch: Option<Batch>, sync: bool)
  datatype Status = Ok | Failed(code: nat)
  /** A log record: the sequence number of its first operation, and the operations. */
  datatype Record = Record(first: nat, ops: seq<Op>)
  datatype Entry = Entry(sequence: nat, op: Op)

  const MAX_GROUP := 0x10_0000
  const SMALL_GROUP := 0x2_0000

  // ---------------------------------------------------------------- the group

  function OpsOf(c: Call): seq<Op> {
    if c.batch.Some? then c.batch.value.ops else []
  }

  function SizeOf(c: Call): nat {
    if c.batch.Some? then c.batch.value.size else 0
  }

  function Ops(cs: seq<Call>): seq<Op> {
    if cs == [] then [] else Ops(cs[..|cs| - 1]) + OpsOf(cs[|cs| - 1])
  }

  function Size(cs: seq<Call>): nat {
    if cs == [] then 0 else Size(cs[..|cs| - 1]) + SizeOf(cs[|cs| - 1])
  }

  function MaxSize(first: Call): nat {
    if SizeOf(first) <= SMALL_GROUP then SizeOf(first) + SMALL_GROUP else MAX_GROUP
  }

  /** The first of `cs` may lead the rest: no sync writer behind a non-sync one, and no batch that makes the group too big. */
  ghost predicate MayGroup(cs: seq<Call>) {
    && cs != []
    && (forall k :: 0 < k < |cs| && cs[k].sync ==> cs[0].sync)
    && (forall k :: 0 < k < |cs| && cs[k].batch.Some? ==> Size(cs[..k + 1]) <= MaxSize(cs[0]))
  }

  /** `n` is the largest group the first of `cs` may lead. */
  ghost predicate LargestGroup(cs: seq<Call>, n: nat) {
    && 0 < n <= |cs|
    && MayGroup(cs[..n])
    && (forall m :: n < m <= |cs| ==> !MayGroup(cs[..m]))
  }

  lemma MayGroupPrefix(cs: seq<Call>, n: nat)
    requires 0 < n <= |cs| && MayGroup(cs)
    ensures MayGroup(cs[..n])
  {
    forall k | 0 < k < n && cs[..n][k].batch.Some?
      ensures Size(cs[..n][..k + 1]) <= MaxSize(cs[0])
    {
      assert cs[..n][..k + 1] == cs[..k + 1];
    }
  }

  /** A writer that may not join stops the group there for good. */
  lemma GroupStops(cs: seq<Call>, n: nat)
    requires 0 < n < |cs| && MayGroup(cs[..n]) && !MayGroup(cs[..n + 1])
    ensures LargestGroup(cs, n)
  {
    forall m | n < m <= |cs|
      ensures !MayGroup(cs[..m])
    {
      assert cs[..m][..n + 1] == cs[..n + 1];
      if MayGroup(cs[..m]) {
        MayGroupPrefix(cs[..m], n + 1);
      }
    }
  }

  /** Whether one more writer may join is decided by that writer alone. */
  lemma GroupJoin(cs: seq<Call>, n: nat)
    requires 0 < n < |cs| && MayGroup(cs[..n])
    ensures MayGroup(cs[..n + 1]) <==> (cs[n].sync ==> cs[0].sync) && (cs[n].batch.Some? ==> Size(cs[..n + 1]) <= MaxSize(cs[0]))
    ensures Size(cs[..n + 1]) == Size(cs[..n]) + SizeOf(cs[n])
    ensures Ops(cs[..n + 1]) == Ops(cs[..n]) + OpsOf(cs[n])
  {
    var a, b := cs[..n], cs[..n + 1];
    assert b[..n] == a && b[n] == cs[n] && b[..n + 1] == b;
    forall k | 0 < k < n ensures a[k] == b[k] && a[..k + 1] == b[..k + 1] { }
  }

  /**
   * The size of a group, in bytes: behind a leader of up to 128 KiB it may grow by 128 KiB,
   * and behind a larger one to 1 MiB in all.
   */
  lemma GroupLimit(cs: seq<Call>, n: nat)
    requires 0 < n < |cs| && MayGroup(cs[..n]) && cs[n].batch.Some? && (cs[n].sync ==> cs[0].sync)
    ensures MayGroup(cs[..n + 1]) <==> Size(cs[..n]) + cs[n].batch.value.size <= if SizeOf(cs[0]) <= 131072 then SizeOf(cs[0]) + 131072 else 1048576
  {
    hide MayGroup, Ops, Size;
    GroupJoin(cs, n);
  }

  /** A writer without a batch joins the group before it unless it alone asks for sync, whatever the sizes; and it adds nothing to it. */
  lemma CompactionRequestJoins(cs: seq<Call>, n: nat)
    requires 0 < n < |cs| && MayGroup(cs[..n]) && cs[n].batch.None?
    ensures MayGroup(cs[..n + 1]) <==> (cs[n].sync ==> cs[0].sync)
    ensures Ops(cs[..n + 1]) == Ops(cs[..n]) && Size(cs[..n + 1]) == Size(cs[..n])
  {
    hide MayGroup, Ops, Size;
    GroupJoin(cs, n);
  }

  /**
   * The group the front writer leads: as many writers as it may lead, their
   * operations in queue order, and the last of them.
   */
  method BuildBatchGroup(cs: seq<Call>) returns (updates: seq<Op>, last: nat)
    requires cs != [] && cs[0].batch.Some?
    ensures last < |cs| && LargestGroup(cs, last + 1)
    ensures updates == Ops(cs[..last + 1])
  {
    hide Size, Ops, MayGroup, LargestGroup;
    FirstGroup(cs);
    var size := cs[0].batch.value.size;
    var maxSize := MAX_GROUP;
    if size <= SMALL_GROUP {
      maxSize := size + SMALL_GROUP;
    }
    updates := cs[0].batch.value.ops;
    last := 0;
    while last + 1 < |cs|
      invariant last < |cs| && MayGroup(cs[..last + 1])
      invariant size == Size(cs[..last + 1]) && updates == Ops(cs[..last + 1])
    {
      var w := cs[last + 1];
      GroupJoin(cs, last + 1);
      if w.sync && !cs[0].sync {
        GroupStops(cs, last + 1);
        return;
      }
      if w.batch.Some? {
        size := size + w.batch.value.size;
        if size > maxSize {
          GroupStops(cs, last + 1);
          return;
        }
        updates := updates + w.batch.value.ops;
      }
      last := last + 1;
    }
    WholeGroup(cs);
  }

  lemma FirstGroup(cs: seq<Call>)
    requires cs != []
    ensures MayGroup(cs[..1]) && Size(cs[..1]) == SizeOf(cs[0]) && Ops(cs[..1]) == OpsOf(cs[0])
  {
    assert cs[..1][..0] == [];
    assert Ops(cs[..1]) == [] + OpsOf(cs[0]);
  }

  lemma WholeGroup(cs: seq<Call>)
    requires cs != [] && MayGroup(cs[..|cs|])
    ensures LargestGroup(cs, |cs|)
  {
  }

  /** The size of the largest group, found from `n` up. */
  ghost function GroupSize(cs: seq<Call>, n: nat): (r: nat)
    requires 0 < n <= |cs| && MayGroup(cs[..n])
    ensures LargestGroup(cs, r)
    decreases |cs| - n
  {
    if n < |cs| && MayGroup(cs[..n + 1]) then
      GroupSize(cs, n + 1)
    else if n < |cs| then
      GroupStops(cs, n); n
    else
      WholeGroup(cs); n
  }
}
