/**
 * What the group-commit protocol guarantees in every state of every run, from the
 * moment the database is opened with last sequence number `base`.
 */
module GroupTheorems {
  import opened Bytes
  import opened GroupCommit
  import opened GroupProtocol

  ghost predicate Reachable(base: nat, s: State) {
    exists run :: Run(Opened(base), run) && After(Opened(base), run) == s
  }

  lemma ReachableInv(base: nat, s: State)
    requires Reachable(base, s)
    ensures Inv(s) && s.base == base
  {
    hide Inv;
    var run :| Run(Opened(base), run) && After(Opened(base), run) == s;
    OpenedInv(base);
    RunKeeps(Opened(base), run);
    RunBase(Opened(base), run);
  }

  lemma {:induction false} RunBase(s: State, run: seq<Action>)
    requires Run(s, run)
    ensures After(s, run).base == s.base
    decreases |run|
  {
    if run != [] {
      RunBase(Do(s, run[0]), run[1..]);
    }
  }

  lemma WriterFacts(base: nat, s: State, w: nat)
    requires Reachable(base, s) && w < |s.writers|
    ensures |s.writers| == |s.calls| && s.head <= |s.calls| && WriterOk(w, s.head, s.writers[w])
  {
    hide Reachable;
    ReachableInv(base, s);
  }

  lemma HistoryFacts(base: nat, s: State)
    requires Reachable(base, s)
    ensures |s.writers| == |s.calls| && s.head <= |s.calls|
    ensures Chained(base, s.history) && HeadAfter(s.history) == s.head && NextSequence(base, s.history) == s.lastSequence + 1
    ensures forall k :: 0 <= k < |s.history| ==> GoodGroup(s.calls, s.history[k])
  {
    hide Reachable, GoodGroup, Chained;
    ReachableInv(base, s);
  }

  // ------------------------------------------------------------------ exclusion

  predicate Leading(s: State, w: nat) {
    w < |s.writers| && (s.writers[w].pc == MakingRoom || s.writers[w].pc.Logging?)
  }

  /** At most one writer at a time makes room or logs. */
  lemma OneLeader(base: nat, s: State, v: nat, w: nat)
    requires Reachable(base, s) && Leading(s, v) && Leading(s, w)
    ensures v == w == s.head
  {
    hide Reachable;
    WriterFacts(base, s, v);
    WriterFacts(base, s, w);
  }

  /** No wakeup is lost: a sleeping writer is neither done nor at the front, and the front writer is not asleep. */
  lemma NoLostWakeup(base: nat, s: State, w: nat)
    requires Reachable(base, s) && w < |s.writers| && s.writers[w].pc == Asleep
    ensures !s.writers[w].done && s.head < w && s.writers[s.head].pc != Asleep
  {
    hide Reachable;
    WriterFacts(base, s, w);
    WriterFacts(base, s, s.head);
  }

  /** An action by which writer `w` goes on, when the system calls succeed. */
  function NextAction(s: State, w: nat): Action
    requires w < |s.writers| && !s.writers[w].pc.Returned? && !s.writers[w].pc.Asleep?
  {
    match s.writers[w].pc
    case Awake => Wake(w)
    case MakingRoom => Begin(w, if s.error.Some? then Failed(s.error.value) else Ok)
    case Logging(_, updates, _, stage, _, _, _, _) =>
      (match stage
       case ToLog => AddRecord(w, Ok, true)
       case ToSync => Sync(w, Ok)
       case ToInsert => Insert(w, Ok, |updates.ops|)
       case ToFinish => Finish(w))
  }

  /** There is no deadlock: while a writer is unserved, the front one can step. */
  lemma NoDeadlock(base: nat, s: State)
    requires Reachable(base, s) && s.head < |s.writers|
    ensures !s.writers[s.head].pc.Returned? && !s.writers[s.head].pc.Asleep? && Enabled(s, NextAction(s, s.head))
  {
    hide Reachable;
    WriterFacts(base, s, s.head);
  }

  /** A writer that has been served has returned, or can return at once. */
  lemma ServedReturns(base: nat, s: State, w: nat)
    requires Reachable(base, s) && w < s.head
    ensures w < |s.writers| && (s.writers[w].pc == Returned || (s.writers[w].done && Enabled(s, Wake(w))))
  {
    hide Reachable;
    HistoryFacts(base, s);
    WriterFacts(base, s, w);
  }

  // --------------------------------------------------------- completion, exactly once

  /** The index of the group that served writer `w`. */
  ghost predicate Serves(h: seq<Group>, k: nat, w: nat) {
    k < |h| && h[k].first <= w < h[k].end
  }

  lemma {:induction false} ServedBySome(base: nat, h: seq<Group>, w: nat) returns (k: nat)
    requires Chained(base, h) && w < HeadAfter(h)
    ensures Serves(h, k, w)
  {
    var g := h[|h| - 1];
    if g.first <= w {
      k := |h| - 1;
    } else {
      k := ServedBySome(base, h[..|h| - 1], w);
    }
  }

  /** Earlier groups hold earlier writers and earlier sequence numbers. */
  lemma {:induction false} GroupsInOrder(base: nat, calls: seq<Call>, h: seq<Group>, k: nat, l: nat)
    requires Chained(base, h) && k < l < |h| && forall j :: 0 <= j < |h| ==> GoodGroup(calls, h[j])
    ensures h[k].end <= h[l].first
    ensures h[k].updates.first + |h[k].updates.ops| <= h[l].updates.first
  {
    hide MayGroup, Ops;
    var rest := h[..|h| - 1];
    assert forall j :: 0 <= j < |rest| ==> rest[j] == h[j];
    if l < |h| - 1 {
      GroupsInOrder(base, calls, rest, k, l);
    } else if k < |h| - 2 {
      GroupsInOrder(base, calls, rest, k, |h| - 2);
      assert GoodGroup(calls, h[|h| - 2]);
    }
  }

  /** A writer is completed precisely when it has left the queue. */
  lemma CompletedIffServed(base: nat, s: State, w: nat)
    requires Reachable(base, s) && w < |s.writers|
    ensures (s.writers[w].done || s.writers[w].pc == Returned) <==> w < s.head
    ensures w < s.head <==> exists k: nat :: Serves(s.history, k, w)
  {
    hide Reachable, GoodGroup, Chained, HeadAfter;
    WriterFacts(base, s, w);
    HistoryFacts(base, s);
    if w < s.head {
      var k := ServedBySome(base, s.history, w);
    }
    forall k: nat | Serves(s.history, k, w) ensures w < s.head {
      GroupsBelowHead(base, s.calls, s.history, k);
    }
  }

  /** A writer is served by one group only. */
  lemma ServedOnce(base: nat, s: State, w: nat, k: nat, l: nat)
    requires Reachable(base, s) && Serves(s.history, k, w) && Serves(s.history, l, w)
    ensures k == l
  {
    hide Reachable, GoodGroup, Chained, HeadAfter;
    HistoryFacts(base, s);
    if k < l {
      GroupsInOrder(base, s.calls, s.history, k, l);
    } else if l < k {
      GroupsInOrder(base, s.calls, s.history, l, k);
    }
  }

  /** A writer is completed with the status of the group that served it, hence of its leader. */
  lemma LeadersStatus(base: nat, s: State, w: nat, k: nat)
    requires Reachable(base, s) && Serves(s.history, k, w)
    ensures w < |s.writers| && s.writers[w].status == s.history[k].status == s.writers[s.history[k].first].status
  {
    ReachableInv(base, s);
    hide Reachable, GoodGroup, Chained, HeadAfter, DurableOk, StoreOk, LeaderOk;
    GroupsBelowHead(base, s.calls, s.history, k);
  }

  /** What a step never takes back. */
  ghost predicate Advances(s: State, t: State) {
    && s.head <= t.head && |s.writers| <= |t.writers|
    && s.history <= t.history && s.calls <= t.calls && s.durable <= t.durable
    && forall w :: 0 <= w < s.head && w < |s.writers| ==>
         t.writers[w].status == s.writers[w].status && (s.writers[w].pc == Returned ==> t.writers[w].pc == Returned)
  }

  lemma LeaveAdvances(s: State, t: State, last: nat, updates: Record, present: bool, inserted: nat, status: Status)
    requires s.head <= last < |s.writers|
    requires var u := Leave(s, s.head, last, updates, present, inserted, status);
             (t.head, t.writers, t.history, t.calls, t.durable) == (u.head, u.writers, u.history, u.calls, u.durable)
    ensures Advances(s, t)
  {
  }

  lemma FinishAdvances(s: State, w: nat)
    requires Inv(s) && Enabled(s, Finish(w))
    ensures Advances(s, Do(s, Finish(w)))
  {
    hide HistoryOk, StatusOk, DurableOk, StoreOk, Advances, Popped, MayGroup, Ops;
    OnlyFrontLeads(s, w);
    var pc := s.writers[w].pc;
    LeaveAdvances(s, Do(s, Finish(w)), pc.last, pc.updates, pc.present, pc.inserted, pc.result);
  }

  lemma BeginAdvances(s: State, w: nat, status: Status)
    requires Inv(s) && Enabled(s, Begin(w, status))
    ensures Advances(s, Do(s, Begin(w, status)))
  {
    hide HistoryOk, StatusOk, DurableOk, StoreOk, LeaderOk, Popped, MayGroup, Ops, GroupSize, LargestGroup;
    OnlyFrontLeads(s, w);
    if !(status == Ok && s.calls[w].batch.Some?) {
      LeaveAdvances(s, Do(s, Begin(w, status)), w, Record(s.lastSequence + 1, []), false, 0, status);
    }
  }

  lemma OtherAdvances(s: State, a: Action)
    requires Inv(s) && Enabled(s, a) && !a.Begin? && !a.Finish?
    ensures Advances(s, Do(s, a))
  {
    hide HistoryOk, StatusOk, DurableOk, StoreOk, LeaderOk, WriterOk, Range, Entries;
  }

  /** Once completed, a writer keeps its status; once returned, it never acts again; what is durable stays so. */
  lemma {:induction false} CompletedForGood(s: State, run: seq<Action>)
    requires Inv(s) && Run(s, run)
    ensures Advances(s, After(s, run))
    decreases |run|
  {
    hide Inv, Do, Enabled;
    if run != [] {
      var a := run[0];
      if a.Begin? {
        BeginAdvances(s, a.w, a.status);
      } else if a.Finish? {
        FinishAdvances(s, a.w);
      } else {
        OtherAdvances(s, a);
      }
      Keeps(s, a);
      CompletedForGood(Do(s, a), run[1..]);
      AdvancesTrans(s, Do(s, a), After(s, run));
    }
  }

  lemma AdvancesTrans(s: State, t: State, u: State)
    requires Advances(s, t) && Advances(t, u)
    ensures Advances(s, u)
  {
  }

  /** A sync writer is never led by a non-sync one. */
  lemma SyncLedBySync(base: nat, s: State, k: nat, w: nat)
    requires Reachable(base, s) && Serves(s.history, k, w) && w < |s.calls| && s.calls[w].sync
    ensures s.history[k].first < |s.calls| && s.calls[s.history[k].first].sync
  {
    hide Reachable, Chained, Ops, Size;
    HistoryFacts(base, s);
    var g := s.history[k];
    assert GoodGroup(s.calls, g);
    if Handled(s.calls, g) {
      var cs := s.calls[g.first..g.end];
      assert cs[w - g.first].sync && cs[0] == s.calls[g.first];
    }
  }

  // ------------------------------------------------------------ sequence numbers

  lemma {:induction false} OpsConcat(a: seq<Call>, b: seq<Call>)
    ensures Ops(a + b) == Ops(a) + Ops(b)
  {
    if b == [] {
      assert a + b == a;
    } else {
      var c := a + b;
      assert c[..|c| - 1] == a + b[..|b| - 1] && c[|c| - 1] == b[|b| - 1];
      OpsConcat(a, b[..|b| - 1]);
    }
  }

  lemma OpsAt(cs: seq<Call>, i: nat)
    requires i < |cs|
    ensures Ops(cs[..i + 1]) == Ops(cs[..i]) + OpsOf(cs[i])
    ensures Ops(cs[..i + 1]) <= Ops(cs)
  {
    hide Ops;
    OpsSnoc(cs, i);
    assert cs == cs[..i + 1] + cs[i + 1..];
    OpsConcat(cs[..i + 1], cs[i + 1..]);
  }

  lemma OpsSnoc(cs: seq<Call>, i: nat)
    requires i < |cs|
    ensures Ops(cs[..i + 1]) == Ops(cs[..i]) + OpsOf(cs[i])
  {
    assert cs[..i + 1][..i] == cs[..i];
  }

  /** How many operations of group `g` come before those of writer `w`. */
  function Offset(calls: seq<Call>, g: Group, w: nat): nat
    requires g.first <= w <= |calls|
  {
    |Ops(calls[g.first..w])|
  }

  /** The sequence number of the first operation of writer `w`. */
  function Stamp(calls: seq<Call>, g: Group, w: nat): nat
    requires g.first <= w <= |calls|
  {
    g.updates.first + Offset(calls, g, w)
  }

  /** The record of a group holds the operations of each member in one piece. */
  lemma MemberInRecord(calls: seq<Call>, g: Group, w: nat)
    requires Handled(calls, g) && g.first <= w < g.end
    ensures var o := Offset(calls, g, w);
            && o + |OpsOf(calls[w])| <= |g.updates.ops|
            && g.updates.ops[o..o + |OpsOf(calls[w])|] == OpsOf(calls[w])
            && Offset(calls, g, w + 1) == o + |OpsOf(calls[w])|
  {
    hide Ops, MayGroup;
    var cs := calls[g.first..g.end];
    var i := w - g.first;
    assert cs[..i] == calls[g.first..w] && cs[..i + 1] == calls[g.first..w + 1] && cs[i] == calls[w];
    OpsAt(cs, i);
  }

  /** Writers of one group get later numbers the later they came. */
  lemma {:induction false} OffsetsGrow(calls: seq<Call>, g: Group, v: nat, w: nat)
    requires Handled(calls, g) && g.first <= v <= w <= g.end
    ensures Offset(calls, g, v) <= Offset(calls, g, w)
    decreases w
  {
    hide Ops, MayGroup, Offset;
    if v < w {
      OffsetsGrow(calls, g, v, w - 1);
      MemberInRecord(calls, g, w - 1);
    }
  }

  /** The ranges of sequence numbers of two writers are disjoint, and in the order in which the writers queued. */
  lemma RangesInQueueOrder(base: nat, s: State, v: nat, w: nat, k: nat, l: nat)
    requires Reachable(base, s) && v < w && Serves(s.history, k, v) && Serves(s.history, l, w)
    requires Handled(s.calls, s.history[k]) && Handled(s.calls, s.history[l])
    ensures Stamp(s.calls, s.history[k], v) + |OpsOf(s.calls[v])| <= Stamp(s.calls, s.history[l], w)
  {
    hide Reachable, Handled, Chained, Offset;
    HistoryFacts(base, s);
    MemberIndex(s.calls, s.history[k], v);
    MemberInRecord(s.calls, s.history[k], v);
    if k == l {
      OffsetsGrow(s.calls, s.history[k], v + 1, w);
    } else if k < l {
      GroupsInOrder(base, s.calls, s.history, k, l);
    } else {
      GroupsInOrder(base, s.calls, s.history, l, k);
    }
  }

  lemma MemberIndex(calls: seq<Call>, g: Group, w: nat)
    requires Handled(calls, g) && g.first <= w < g.end
    ensures w < |calls|
  {
  }

  lemma {:induction false} SequenceInGroup(base: nat, h: seq<Group>, n: nat) returns (k: nat)
    requires Chained(base, h) && base < n < NextSequence(base, h)
    ensures k < |h| && h[k].updates.first <= n < h[k].updates.first + |h[k].updates.ops|
  {
    var g := h[|h| - 1];
    if g.updates.first <= n {
      k := |h| - 1;
    } else {
      k := SequenceInGroup(base, h[..|h| - 1], n);
    }
  }

  lemma OffsetStart(calls: seq<Call>, g: Group)
    requires Handled(calls, g)
    ensures g.first <= g.end <= |calls| && Offset(calls, g, g.first) == 0
  {
    assert calls[g.first..g.first] == [];
  }

  lemma {:induction false} OffsetOfMember(calls: seq<Call>, g: Group, end: nat, o: nat) returns (w: nat)
    requires Handled(calls, g) && g.first <= end <= g.end && o < Offset(calls, g, end)
    ensures g.first <= w < end && w < |calls| && Offset(calls, g, w) <= o < Offset(calls, g, w) + |OpsOf(calls[w])|
    decreases end
  {
    hide Ops, MayGroup, Offset, Formed;
    OffsetStart(calls, g);
    MemberIndex(calls, g, end - 1);
    MemberInRecord(calls, g, end - 1);
    if Offset(calls, g, end - 1) <= o {
      w := end - 1;
    } else {
      w := OffsetOfMember(calls, g, end - 1, o);
    }
  }

  /** No sequence number is skipped: each one handed out so far belongs to an operation of a writer. */
  lemma EverySequenceUsed(base: nat, s: State, n: nat) returns (k: nat, w: nat)
    requires Reachable(base, s) && base < n <= s.lastSequence
    ensures Serves(s.history, k, w) && w < |s.calls|
    ensures Stamp(s.calls, s.history[k], w) <= n < Stamp(s.calls, s.history[k], w) + |OpsOf(s.calls[w])|
  {
    hide Reachable, Chained, NextSequence, Offset, Ops, MayGroup;
    HistoryFacts(base, s);
    k := SequenceInGroup(base, s.history, n);
    var g := s.history[k];
    assert GoodGroup(s.calls, g);
    WholeOffset(s.calls, g);
    w := OffsetOfMember(s.calls, g, g.end, n - g.updates.first);
  }

  lemma WholeOffset(calls: seq<Call>, g: Group)
    requires Handled(calls, g)
    ensures Offset(calls, g, g.end) == |g.updates.ops|
  {
  }

  // --------------------------------------------------------------- log and memtable

  /** Where the record of group `k` is in the log. */
  function LogIndex(h: seq<Group>, k: nat): nat
    requires k < |h|
  {
    |LogOf(h[..k])|
  }

  lemma {:induction false} LogConcat(a: seq<Group>, b: seq<Group>)
    ensures LogOf(a + b) == LogOf(a) + LogOf(b)
  {
    if b == [] {
      assert a + b == a;
    } else {
      var c := a + b;
      assert c[..|c| - 1] == a + b[..|b| - 1] && c[|c| - 1] == b[|b| - 1];
      LogConcat(a, b[..|b| - 1]);
    }
  }

  lemma {:induction false} MemConcat(a: seq<Group>, b: seq<Group>)
    ensures MemOf(a + b) == MemOf(a) + MemOf(b)
  {
    if b == [] {
      assert a + b == a;
    } else {
      var c := a + b;
      assert c[..|c| - 1] == a + b[..|b| - 1] && c[|c| - 1] == b[|b| - 1];
      MemConcat(a, b[..|b| - 1]);
    }
  }

  lemma StoreFacts(base: nat, s: State)
    requires Reachable(base, s)
    ensures LogOf(s.history) <= s.log && MemOf(s.history) <= s.mem
  {
    hide Reachable, LogOf, MemOf;
    ReachableInv(base, s);
    StoreNow(s);
  }

  /** A group whose record reached the log is there, after the records of all earlier groups and before those of all later ones. */
  lemma RecordInLog(base: nat, s: State, k: nat)
    requires Reachable(base, s) && k < |s.history| && s.history[k].present
    ensures LogIndex(s.history, k) < |s.log| && s.log[LogIndex(s.history, k)] == s.history[k].updates
    ensures forall l: nat :: k < l < |s.history| ==> LogIndex(s.history, k) < LogIndex(s.history, l)
  {
    hide Reachable;
    StoreFacts(base, s);
    var h := s.history;
    var upTo := h[..k + 1];
    assert upTo[..k] == h[..k];
    assert LogOf(upTo) == LogOf(h[..k]) + [h[k].updates];
    hide LogOf;
    assert h == upTo + h[k + 1..];
    LogConcat(upTo, h[k + 1..]);
    forall l: nat | k < l < |h| ensures LogIndex(h, k) < LogIndex(h, l) {
      assert h[..l] == upTo + h[k + 1..l];
      LogConcat(upTo, h[k + 1..l]);
    }
  }

  lemma {:induction false} LogOfGroups(h: seq<Group>, p: nat) returns (k: nat)
    requires p < |LogOf(h)|
    ensures k < |h| && h[k].present && LogIndex(h, k) == p && LogOf(h)[p] == h[k].updates
  {
    var rest := h[..|h| - 1];
    if p < |LogOf(rest)| {
      k := LogOfGroups(rest, p);
      assert rest[..k] == h[..k];
    } else {
      k := |h| - 1;
    }
  }

  /**
   * The log holds nothing else: every record in it is that of a group that was served, at
   * the place where that group put it, or, as the last of all, that of the group being served.
   */
  lemma LogOnlyGroups(base: nat, s: State, p: nat) returns (k: nat)
    requires Reachable(base, s) && p < |s.log|
    ensures k <= |s.history|
    ensures k < |s.history| ==> s.history[k].present && LogIndex(s.history, k) == p && s.log[p] == s.history[k].updates
    ensures k == |s.history| ==>
              && Leading(s, s.head) && s.writers[s.head].pc.Logging? && s.writers[s.head].pc.present
              && p == |s.log| - 1 && s.log[p] == s.writers[s.head].pc.updates
  {
    hide Reachable, LogOf, MemOf;
    ReachableInv(base, s);
    StoreNow(s);
    k := |s.history|;
    if p < |LogOf(s.history)| {
      k := LogOfGroups(s.history, p);
    }
  }

  lemma InsertedInMem(base: nat, s: State, k: nat, i: nat)
    requires Reachable(base, s) && k < |s.history| && i < s.history[k].inserted <= |s.history[k].updates.ops|
    ensures Entry(s.history[k].updates.first + i, s.history[k].updates.ops[i]) in s.mem
  {
    hide Reachable;
    StoreFacts(base, s);
    var h, g := s.history, s.history[k];
    var upTo := h[..k + 1];
    assert upTo[..k] == h[..k] && upTo[k] == g;
    var es := Entries(g.updates.first, g.updates.ops[..g.inserted]);
    assert MemOf(upTo) == MemOf(h[..k]) + es;
    hide MemOf;
    assert es[i] == Entry(g.updates.first + i, g.updates.ops[i]);
    assert es[i] in MemOf(upTo);
    assert h == upTo + h[k + 1..];
    MemConcat(upTo, h[k + 1..]);
    assert s.mem == MemOf(h) + s.mem[|MemOf(h)|..];
  }

  /** A batch whose writer was told Ok is in a group that logged and inserted everything. */
  lemma OkGroup(base: nat, s: State, w: nat) returns (k: nat)
    requires Reachable(base, s) && w < s.head <= |s.writers| && w < |s.calls| && s.writers[w].status == Ok && s.calls[w].batch.Some?
    ensures Serves(s.history, k, w) && Handled(s.calls, s.history[k])
    ensures var g := s.history[k]; g.status == Ok && g.present && g.inserted == |g.updates.ops|
  {
    hide Reachable, Chained, Formed, HeadAfter;
    HistoryFacts(base, s);
    k := ServedBySome(base, s.history, w);
    LeadersStatus(base, s, w, k);
    assert GoodGroup(s.calls, s.history[k]);
  }

  lemma GroupDurable(base: nat, s: State, k: nat)
    requires Reachable(base, s) && k < |s.history| && NeedsSync(s.calls, s.history[k])
    ensures LogIndex(s.history, k) in s.durable
  {
    hide Reachable, NeedsSync, LogOf, StoreOk, HistoryOk, QueueOk, StatusOk, LeaderOk;
    ReachableInv(base, s);
  }

  /**
   * What `Ok` means to the caller of `Write`: its operations are in the log in one
   * piece and in the memtable, under consecutive sequence numbers of their own, and
   * if it asked for sync, the log record is on disk.
   */
  lemma AcknowledgedWrite(base: nat, s: State, w: nat) returns (k: nat)
    requires Reachable(base, s) && w < s.head <= |s.writers| && w < |s.calls| && s.writers[w].status == Ok && s.calls[w].batch.Some?
    ensures Serves(s.history, k, w)
    ensures var (p, o, ops) := (LogIndex(s.history, k), Offset(s.calls, s.history[k], w), OpsOf(s.calls[w]));
            && p < |s.log| && o + |ops| <= |s.log[p].ops|
            && s.log[p].ops[o..o + |ops|] == ops
            && s.log[p].first + o == Stamp(s.calls, s.history[k], w)
            && (s.calls[w].sync ==> p in s.durable)
            && forall i :: 0 <= i < |ops| ==> Entry(Stamp(s.calls, s.history[k], w) + i, ops[i]) in s.mem
  {
    hide Reachable, Formed, Offset, LogIndex, LogOf;
    k := OkGroup(base, s, w);
    var g := s.history[k];
    var o, ops := Offset(s.calls, g, w), OpsOf(s.calls[w]);
    MemberInRecord(s.calls, g, w);
    RecordInLog(base, s, k);
    if s.calls[w].sync {
      SyncLedBySync(base, s, k, w);
      OffsetStart(s.calls, g);
      LeaderHasBatch(s.calls, g);
      GroupDurable(base, s, k);
    }
    forall i | 0 <= i < |ops| ensures Entry(Stamp(s.calls, g, w) + i, ops[i]) in s.mem {
      InsertedInMem(base, s, k, o + i);
      assert ops[i] == g.updates.ops[o..o + |ops|][i] == g.updates.ops[o + i];
    }
  }

  lemma LeaderHasBatch(calls: seq<Call>, g: Group)
    requires Handled(calls, g)
    ensures g.first < |calls| && calls[g.first].batch.Some?
  {
  }

  // ------------------------------------------------------------------ sync errors

  /** An error is recorded and nobody is logging. */
  ghost predicate Frozen(s: State) {
    s.error.Some? && Leader(s).None?
  }

  /** A failed sync puts the database in the frozen state. */
  lemma SyncErrorFreezes(s: State, w: nat)
    requires Enabled(s, Finish(w)) && s.writers[w].pc.syncError && Inv(s)
    ensures Frozen(Do(s, Finish(w)))
  {
    hide HistoryOk, StatusOk, DurableOk, StoreOk, MayGroup, Ops;
    OnlyFrontLeads(s, w);
    var pc := s.writers[w].pc;
    LeaveFront(s, pc.last, pc.updates, pc.present, pc.inserted, pc.result);
  }

  lemma FrozenStep(s: State, a: Action)
    requires Inv(s) && Frozen(s) && Enabled(s, a)
    ensures Frozen(Do(s, a)) && (Do(s, a).log, Do(s, a).mem, Do(s, a).lastSequence) == (s.log, s.mem, s.lastSequence)
  {
    hide HistoryOk, StatusOk, DurableOk, StoreOk, LeaderOk, MayGroup, Ops, GroupSize, Range;
    if a.Begin? || a.AddRecord? || a.Sync? || a.Insert? || a.Finish? {
      OnlyFrontLeads(s, a.w);
    }
    if a.Begin? {
      LeaveFront(s, a.w, Record(s.lastSequence + 1, []), false, 0, a.status);
    }
  }

  /** From then on, in every continuation, no write reaches the log or the memtable and no sequence number is taken. */
  lemma {:induction false} FrozenForGood(s: State, run: seq<Action>)
    requires Inv(s) && Frozen(s) && Run(s, run)
    ensures Frozen(After(s, run))
    ensures (After(s, run).log, After(s, run).mem, After(s, run).lastSequence) == (s.log, s.mem, s.lastSequence)
    decreases |run|
  {
    hide Inv, Do, Enabled, Frozen;
    if run != [] {
      FrozenStep(s, run[0]);
      Keeps(s, run[0]);
      FrozenForGood(Do(s, run[0]), run[1..]);
    }
  }
}
