/**
 * `DBImpl::Write`, cut at the points where the lock is released or the writer waits.
 * Each method is one action of the protocol.
 */
module GroupWrite {
  import opened Bytes
  import opened GroupCommit
  import opened GroupProtocol

  class DBImpl {
    /** The writer queue, front first. */
    var deque: seq<nat>
    var calls: seq<Call>
    var writers: seq<Writer>
    var lastSequence: nat
    var log: seq<Record>
    var mem: seq<Entry>
    var error: Option<nat>
    ghost var fileStart: nat
    ghost var durable: set<nat>
    ghost var history: seq<Group>
    ghost const base: nat

    ghost predicate Valid()
      reads this
    {
      && |writers| == |calls| && |deque| <= |calls|
      && forall i :: 0 <= i < |deque| ==> deque[i] == |calls| - |deque| + i
    }

    ghost function St(): State
      requires |deque| <= |calls|
      reads this
    {
      State(base, calls, writers, |calls| - |deque|, lastSequence, log, fileStart, durable, mem, error, history)
    }

    constructor (lastSequence: nat)
      ensures Valid() && St() == Opened(lastSequence)
    {
      deque, calls, writers, log, mem, error := [], [], [], [], [], None;
      this.lastSequence := lastSequence;
      fileStart, durable, history, base := 0, {}, [], lastSequence;
    }

    /** A caller enters the queue; it leads at once if it is alone. */
    method Enter(call: Call) returns (w: nat)
      requires Valid()
      modifies this
      ensures Valid() && w == old(|calls|)
      ensures St() == Do(old(St()), Arrive(call))
    {
      w := |calls|;
      calls := calls + [call];
      deque := deque + [w];
      writers := writers + [Writer(if w != deque[0] then Asleep else MakingRoom, false, Ok)];
    }

    /** A woken writer looks at `done` and at the front of the queue. */
    method WakeUp(w: nat)
      requires Valid() && Inv(St()) && Enabled(St(), Wake(w))
      modifies this
      ensures Valid() && St() == Do(old(St()), Wake(w))
    {
      WokenWriter(St(), w);
      hide Inv;
      var pc := if writers[w].done then Returned else if w == deque[0] then MakingRoom else Asleep;
      writers := writers[w := writers[w].(pc := pc)];
    }

    /** From the return of `MakeRoomForWrite` to the release of the lock, or to the end if nothing is to be logged. */
    method BeginWrite(w: nat, status: Status)
      requires Valid() && Inv(St()) && Enabled(St(), Begin(w, status))
      modifies this
      ensures Valid() && St() == Do(old(St()), Begin(w, status))
    {
      hide Inv, Ops, GroupSize, LargestGroup, MayGroup, Popped, OpsOf, Size;
      LeaderInFront(St(), w);
      if status == Ok && calls[w].batch.Some? {
        var updates, last := BuildBatchGroup(calls[w..]);
        GroupIs(calls[w..], last + 1);
        var r := Record(lastSequence + 1, updates);
        writers := writers[w := writers[w].(pc := Logging(w + last, r, lastSequence + |updates|, ToLog, Ok, false, false, 0))];
      } else {
        history := history + [Group(w, w + 1, Record(lastSequence + 1, []), false, 0, status)];
        PopGroup(w, w, status);
      }
    }

    /** The record has been handed to the log. */
    method LogWritten(w: nat, status: Status, present: bool)
      requires Valid() && Enabled(St(), AddRecord(w, status, present))
      modifies this
      ensures Valid() && St() == Do(old(St()), AddRecord(w, status, present))
    {
      var pc := writers[w].pc;
      var stage := if status != Ok then ToFinish else if calls[w].sync then ToSync else ToInsert;
      if present {
        log := log + [pc.updates];
      }
      writers := writers[w := writers[w].(pc := pc.(stage := stage, result := status, present := present))];
    }

    /** The log file has been synced, or the sync has failed. */
    method SyncDone(w: nat, status: Status)
      requires Valid() && Enabled(St(), Sync(w, status))
      modifies this
      ensures Valid() && St() == Do(old(St()), Sync(w, status))
    {
      hide Range;
      var pc := writers[w].pc;
      if status == Ok {
        durable := durable + Range(fileStart, |log|);
        writers := writers[w := writers[w].(pc := pc.(stage := ToInsert))];
      } else {
        writers := writers[w := writers[w].(pc := pc.(stage := ToFinish, result := status, syncError := true))];
      }
    }

    /** The memtable has taken the operations, or the first `count` of them. */
    method Inserted(w: nat, status: Status, count: nat)
      requires Valid() && Enabled(St(), Insert(w, status, count))
      modifies this
      ensures Valid() && St() == Do(old(St()), Insert(w, status, count))
    {
      var pc := writers[w].pc;
      mem := mem + Entries(pc.updates.first, pc.updates.ops[..count]);
      writers := writers[w := writers[w].(pc := pc.(stage := ToFinish, result := status, inserted := count))];
    }

    /** From where the lock is taken again to the end of `Write`. */
    method FinishWrite(w: nat)
      requires Valid() && Inv(St()) && Enabled(St(), Finish(w))
      modifies this
      ensures Valid() && St() == Do(old(St()), Finish(w))
    {
      hide Inv, Popped;
      LeaderInFront(St(), w);
      var pc := writers[w].pc;
      if pc.syncError && error.None? && pc.result.Failed? {
        error := Some(pc.result.code);
      }
      lastSequence := pc.sequence;
      history := history + [Group(|calls| - |deque|, pc.last + 1, pc.updates, pc.present, pc.inserted, pc.result)];
      PopGroup(w, pc.last, pc.result);
    }

    /** The loop: pops the queue up to `last`, and completes and signals everyone popped but `w`. */
    method PopUntil(w: nat, last: nat, status: Status)
      requires Valid() && w < |writers| && |calls| - |deque| <= last < |calls|
      modifies `deque, `writers
      ensures Valid() && |calls| - |deque| == last + 1
      ensures forall i :: 0 <= i < |writers| ==> writers[i] == Completed(old(writers)[i], i, old(|calls| - |deque|), last + 1, w, status)
    {
      ghost var head := |calls| - |deque|;
      while true
        invariant Valid() && head <= |calls| - |deque| <= last
        invariant forall i :: 0 <= i < |writers| ==> writers[i] == Completed(old(writers)[i], i, head, |calls| - |deque|, w, status)
        decreases |deque|
      {
        var ready := deque[0];
        deque := deque[1..];
        if ready != w {
          writers := writers[ready := Writer(if writers[ready].pc == Asleep then Awake else writers[ready].pc, true, status)];
        }
        if ready == last {
          break;
        }
      }
    }

    /** The end of `Write`: the group leaves the queue and the new front is signalled. */
    method PopGroup(w: nat, last: nat, status: Status)
      requires Valid() && w < |writers| && |calls| - |deque| <= last < |calls|
      modifies `deque, `writers
      ensures Valid() && |calls| - |deque| == last + 1
      ensures writers == Popped(old(writers), old(|calls| - |deque|), last, w, status)
    {
      PopUntil(w, last, status);
      if deque != [] && writers[deque[0]].pc == Asleep {
        writers := writers[deque[0] := writers[deque[0]].(pc := Awake)];
      }
      writers := writers[w := Writer(Returned, writers[w].done, status)];
    }
  }

  /** Writer `i` after the queue has been popped from `head` to `end`. */
  function Completed(before: Writer, i: nat, head: nat, end: nat, w: nat, status: Status): Writer {
    if head <= i < end && i != w then Writer(if before.pc == Asleep then Awake else before.pc, true, status) else before
  }

  /** The leader is the front of the queue, and its group lies in the queue. */
  lemma LeaderInFront(s: State, w: nat)
    requires Inv(s) && w < |s.writers| && (s.writers[w].pc == MakingRoom || s.writers[w].pc.Logging?)
    ensures w == s.head < |s.calls| && (s.writers[w].pc.Logging? ==> s.head <= s.writers[w].pc.last < |s.calls|)
  {
    hide HistoryOk, StatusOk, DurableOk, StoreOk, MayGroup, Ops;
    OnlyFrontLeads(s, w);
  }

  /** A woken writer that is not done is still in the queue. */
  lemma WokenWriter(s: State, w: nat)
    requires Inv(s) && w < |s.writers| && s.writers[w].pc == Awake
    ensures s.writers[w].done || s.head <= w < |s.calls|
  {
    hide HistoryOk, StatusOk, DurableOk, StoreOk, LeaderOk;
    assert WriterOk(w, s.head, s.writers[w]);
  }

  lemma GroupIs(cs: seq<Call>, n: nat)
    requires cs != [] && LargestGroup(cs, n)
    ensures MayGroup(cs[..1]) && n == GroupSize(cs, 1)
  {
    FirstGroup(cs);
    var m := GroupSize(cs, 1);
    assert LargestGroup(cs, m);
    assert !(m < n) && !(n < m);
  }
}
