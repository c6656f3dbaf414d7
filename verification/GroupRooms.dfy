/**
 * More about whole runs of the group-commit protocol: who makes room, and that every queued
 * writer can be served in a bounded number of steps.
 */
module GroupRooms {
  import opened Bytes
  import opened GroupCommit
  import opened GroupProtocol
  import opened GroupTheorems

  // ------------------------------------------------------------------------- who makes room

  /** The writers that came out of the room-making step. */
  function RoomMakers(run: seq<Action>): set<nat> {
    if run == [] then {} else
      var a := run[|run| - 1];
      RoomMakers(run[..|run| - 1]) + if a.Begin? then {a.w} else {}
  }

  lemma {:induction false} RoomMaker(run: seq<Action>, w: nat)
    ensures w in RoomMakers(run) <==> exists i :: 0 <= i < |run| && run[i].Begin? && run[i].w == w
  {
    if run != [] {
      var n := |run| - 1;
      RoomMaker(run[..n], w);
      assert forall i :: 0 <= i < n ==> run[..n][i] == run[i];
    }
  }

  lemma {:induction false} RunSnoc(s: State, run: seq<Action>)
    requires Run(s, run) && run != []
    ensures var n := |run| - 1;
            Run(s, run[..n]) && Enabled(After(s, run[..n]), run[n]) && After(s, run) == Do(After(s, run[..n]), run[n])
    decreases |run|
  {
    hide Enabled, Do;
    var n := |run| - 1;
    if n > 0 {
      var rest := run[1..];
      RunSnoc(Do(s, run[0]), rest);
      assert rest[..n - 1] == run[..n][1..] && rest[n - 1] == run[n];
    } else {
      assert run[..0] == [] && run[1..] == [];
    }
  }

  /** Writer `w` leads a group that has been served. */
  ghost predicate First(h: seq<Group>, w: nat) {
    exists k :: 0 <= k < |h| && h[k].first == w
  }

  /** Those who have made room are the first of each group served, and the leader that is logging. */
  ghost predicate RoomsOk(s: State, made: set<nat>) {
    forall w: nat :: w in made <==> w < |s.writers| && if w < s.head then First(s.history, w) else s.writers[w].pc.Logging?
  }

  lemma LeaveRooms(s: State, made: set<nat>, last: nat, updates: Record, present: bool, inserted: nat, status: Status, t: State)
    requires QueueOk(s) && HistoryOk(s) && RoomsOk(s, made) && s.head <= last < |s.writers|
    requires var u := Leave(s, s.head, last, updates, present, inserted, status);
             (t.head, t.writers, t.history) == (u.head, u.writers, u.history)
    ensures RoomsOk(t, made + {s.head})
  {
    hide Chained, GoodGroup, HeadAfter;
    var g := Group(s.head, last + 1, updates, present, inserted, status);
    forall w: nat ensures First(t.history, w) <==> First(s.history, w) || w == s.head {
      FirstSnoc(s.history, g, w);
    }
    hide First;
    forall w: nat
      ensures w in made + {s.head} <==> w < |t.writers| && if w < t.head then First(t.history, w) else t.writers[w].pc.Logging?
    {
      if w < |s.writers| {
        assert WriterOk(w, s.head, s.writers[w]);
      }
      if s.head < w {
        NotFirst(s, w);
      }
    }
  }

  lemma FirstSnoc(h: seq<Group>, g: Group, w: nat)
    ensures First(h + [g], w) <==> First(h, w) || w == g.first
  {
    var all := h + [g];
    assert all[|h|] == g;
    forall k | 0 <= k < |h| ensures all[k] == h[k] { }
  }

  lemma NotFirst(s: State, w: nat)
    requires HistoryOk(s) && s.head <= w
    ensures !First(s.history, w)
  {
    forall k | 0 <= k < |s.history| ensures s.history[k].first < w {
      hide Chained, HeadAfter, MayGroup, Ops;
      GroupsBelowHead(s.base, s.calls, s.history, k);
      assert GoodGroup(s.calls, s.history[k]);
    }
  }

  lemma RoomsBegin(s: State, made: set<nat>, w: nat, status: Status)
    requires Inv(s) && Enabled(s, Begin(w, status)) && RoomsOk(s, made)
    ensures RoomsOk(Do(s, Begin(w, status)), made + {w})
  {
    hide HistoryOk, StatusOk, DurableOk, StoreOk, LeaderOk, Popped, MayGroup, Ops, GroupSize, LargestGroup, First;
    OnlyFrontLeads(s, w);
    if !(status == Ok && s.calls[w].batch.Some?) {
      LeaveRooms(s, made, w, Record(s.lastSequence + 1, []), false, 0, status, Do(s, Begin(w, status)));
    }
  }

  lemma RoomsFinish(s: State, made: set<nat>, w: nat)
    requires Inv(s) && Enabled(s, Finish(w)) && RoomsOk(s, made)
    ensures RoomsOk(Do(s, Finish(w)), made)
  {
    hide HistoryOk, StatusOk, DurableOk, StoreOk, Popped, MayGroup, Ops, First;
    OnlyFrontLeads(s, w);
    var pc := s.writers[w].pc;
    LeaveRooms(s, made, pc.last, pc.updates, pc.present, pc.inserted, pc.result, Do(s, Finish(w)));
    assert made + {w} == made;
  }

  lemma RoomsOther(s: State, made: set<nat>, a: Action)
    requires Inv(s) && Enabled(s, a) && !a.Begin? && !a.Finish? && RoomsOk(s, made)
    ensures RoomsOk(Do(s, a), made)
  {
    hide HistoryOk, StatusOk, DurableOk, StoreOk, LeaderOk, WriterOk, Range, Entries, First;
  }

  lemma {:induction false} RoomsRun(base: nat, run: seq<Action>)
    requires Run(Opened(base), run)
    ensures RoomsOk(After(Opened(base), run), RoomMakers(run))
    decreases |run|
  {
    hide Inv, Do, Enabled, RoomsOk;
    if run == [] {
      RoomsOpened(base);
    } else {
      var n := |run| - 1;
      RunSnoc(Opened(base), run);
      RoomsRun(base, run[..n]);
      OpenedInv(base);
      RunKeeps(Opened(base), run[..n]);
      var s, made, a := After(Opened(base), run[..n]), RoomMakers(run[..n]), run[n];
      if a.Begin? {
        RoomsBegin(s, made, a.w, a.status);
      } else if a.Finish? {
        RoomsFinish(s, made, a.w);
        assert made + {} == made;
      } else {
        RoomsOther(s, made, a);
        assert made + {} == made;
      }
    }
  }

  lemma RoomsOpened(base: nat)
    ensures RoomsOk(Opened(base), {})
  {
  }

  /**
   * In every run, a writer that has been served went through the room-making step if and
   * only if it was the first of its group.
   */
  lemma RoomMadeByFirst(base: nat, run: seq<Action>, k: nat, w: nat)
    requires Run(Opened(base), run) && Serves(After(Opened(base), run).history, k, w)
    ensures (exists i :: 0 <= i < |run| && run[i].Begin? && run[i].w == w) <==> w == After(Opened(base), run).history[k].first
  {
    hide Run, After, Inv, RoomMakers;
    var s := After(Opened(base), run);
    assert Reachable(base, s);
    RoomsRun(base, run);
    RoomMaker(run, w);
    MemberServed(base, s, k, w);
    forall l | 0 <= l < |s.history| && s.history[l].first == w ensures l == k {
      FirstServes(base, s, l);
      ServedOnce(base, s, w, k, l);
    }
  }

  lemma MemberServed(base: nat, s: State, k: nat, w: nat)
    requires Reachable(base, s) && Serves(s.history, k, w)
    ensures w < s.head <= |s.writers|
  {
    hide Reachable, GoodGroup, Chained, HeadAfter;
    HistoryFacts(base, s);
    GroupsBelowHead(base, s.calls, s.history, k);
  }

  lemma FirstServes(base: nat, s: State, k: nat)
    requires Reachable(base, s) && k < |s.history|
    ensures Serves(s.history, k, s.history[k].first)
  {
    hide Reachable, Chained, HeadAfter, MayGroup, Ops;
    HistoryFacts(base, s);
    assert GoodGroup(s.calls, s.history[k]);
  }

  /**
   * A request for a compaction that has been served either was alone, and came out of the
   * room-making step, or was led by a writer with a batch, and never reached that step.
   */
  lemma CompactionRequestServed(base: nat, run: seq<Action>, k: nat, w: nat)
    requires Run(Opened(base), run) && Serves(After(Opened(base), run).history, k, w)
    requires w < |After(Opened(base), run).calls| && After(Opened(base), run).calls[w].batch.None?
    ensures var s := After(Opened(base), run);
            var g := s.history[k];
            var made := exists i :: 0 <= i < |run| && run[i].Begin? && run[i].w == w;
            && (made <==> w == g.first)
            && (made ==> g.end == w + 1)
            && (!made ==> g.first < w && s.calls[g.first].batch.Some? && (s.calls[w].sync ==> s.calls[g.first].sync))
  {
    hide Run, After, Chained, Size, Ops, HeadAfter;
    var s := After(Opened(base), run);
    assert Reachable(base, s);
    RoomMadeByFirst(base, run, k, w);
    HistoryFacts(base, s);
    var g := s.history[k];
    assert GoodGroup(s.calls, g);
    if s.calls[w].sync {
      SyncLedBySync(base, s, k, w);
    }
  }

  // ---------------------------------------------------------------------------- an example

  lemma {:induction false} RunExtend(s: State, run: seq<Action>, a: Action)
    requires Run(s, run) && Enabled(After(s, run), a)
    ensures Run(s, run + [a]) && After(s, run + [a]) == Do(After(s, run), a)
    decreases |run|
  {
    hide Enabled, Do;
    var all := run + [a];
    if run == [] {
      assert all == [a] && all[1..] == [];
    } else {
      RunExtend(Do(s, run[0]), run[1..], a);
      assert all[1..] == run[1..] + [a] && all[0] == run[0];
    }
  }

  const WRITE := Call(Some(Batch([Put([], [])], 10)), false)
  const COMPACT := Call(None, false)
  const BOTH: seq<Action> := [Arrive(WRITE), Arrive(COMPACT), Begin(0, Ok), AddRecord(0, Ok, true), Insert(0, Ok, 1), Finish(0), Wake(1)]

  lemma BothGroup()
    ensures MayGroup([WRITE, COMPACT][..1]) && GroupSize([WRITE, COMPACT], 1) == 2 && Ops([WRITE, COMPACT][..2]) == [Put([], [])]
  {
    hide MayGroup, Ops, Size, GroupSize, LargestGroup;
    var cs := [WRITE, COMPACT];
    FirstGroup(cs);
    CompactionRequestJoins(cs, 1);
    WholeOf(cs);
  }

  lemma WholeOf(cs: seq<Call>)
    requires |cs| == 2 && MayGroup(cs[..1]) && MayGroup(cs[..2])
    ensures GroupSize(cs, 1) == 2
  {
    hide MayGroup;
    assert LargestGroup(cs, GroupSize(cs, 1));
  }

  function Queued(base: nat, pc: Pc, log: seq<Record>, mem: seq<Entry>): State {
    State(base, [WRITE, COMPACT], [Writer(pc, false, Ok), Writer(Asleep, false, Ok)], 0, base, log, 0, {}, mem, None, [])
  }

  function Led(base: nat, stage: Stage): State {
    var r := Record(base + 1, [Put([], [])]);
    var logged, inserted := stage != ToLog, stage == ToFinish;
    Queued(base, Logging(1, r, base + 1, stage, Ok, false, logged, if inserted then 1 else 0),
           if logged then [r] else [], if inserted then [Entry(base + 1, Put([], []))] else [])
  }

  lemma BothArrive(base: nat)
    ensures Do(Do(Opened(base), Arrive(WRITE)), Arrive(COMPACT)) == Queued(base, MakingRoom, [], [])
  {
  }

  lemma BothBegin(base: nat)
    ensures var s := Queued(base, MakingRoom, [], []); Enabled(s, Begin(0, Ok)) && Do(s, Begin(0, Ok)) == Led(base, ToLog)
  {
    hide GroupSize, Ops, MayGroup;
    BothGroup();
    assert Queued(base, MakingRoom, [], []).calls[0..] == [WRITE, COMPACT];
  }

  lemma BothLogged(base: nat)
    ensures var s, a := Led(base, ToLog), AddRecord(0, Ok, true); Enabled(s, a) && Do(s, a) == Led(base, ToInsert)
    ensures var s, a := Led(base, ToInsert), Insert(0, Ok, 1); Enabled(s, a) && Do(s, a) == Led(base, ToFinish)
  {
  }

  lemma BothServed(base: nat)
    ensures var s := Led(base, ToFinish);
            && Enabled(s, Finish(0)) && Enabled(Do(s, Finish(0)), Wake(1))
            && var t := Do(Do(s, Finish(0)), Wake(1));
            && |t.writers| == |t.calls| == 2 && t.calls[1].batch.None? && t.writers[1] == Writer(Returned, true, Ok) && Serves(t.history, 0, 1)
  {
  }

  /**
   * A request for a compaction queued behind a write returns with Ok, served by the writer
   * in front of it, without the room-making step ever having been taken for it.
   */
  lemma CompactionRequestExample(base: nat)
    ensures Run(Opened(base), BOTH) && forall i :: 0 <= i < |BOTH| && BOTH[i].Begin? ==> BOTH[i].w != 1
    ensures var s := After(Opened(base), BOTH);
            |s.writers| == |s.calls| == 2 && s.calls[1].batch.None? && s.writers[1] == Writer(Returned, true, Ok) && Serves(s.history, 0, 1)
  {
    hide Do, Run, After, Led, Serves;
    var o := Opened(base);
    BothLed(base);
    BothServed(base);
    RunExtend(o, BOTH[..5], Finish(0));
    RunExtend(o, BOTH[..5] + [Finish(0)], Wake(1));
    assert BOTH[..5] + [Finish(0)] + [Wake(1)] == BOTH;
  }

  lemma BothLed(base: nat)
    ensures Run(Opened(base), BOTH[..5]) && After(Opened(base), BOTH[..5]) == Led(base, ToFinish)
  {
    hide Do, Led, Queued;
    var o := Opened(base);
    BothArrive(base);
    BothBegin(base);
    BothLogged(base);
    assert BOTH[..1] == [] + [Arrive(WRITE)] && BOTH[..2] == BOTH[..1] + [Arrive(COMPACT)];
    assert BOTH[..3] == BOTH[..2] + [Begin(0, Ok)] && BOTH[..4] == BOTH[..3] + [AddRecord(0, Ok, true)];
    assert BOTH[..5] == BOTH[..4] + [Insert(0, Ok, 1)];
    RunExtend(o, [], Arrive(WRITE));
    RunExtend(o, BOTH[..1], Arrive(COMPACT));
    RunExtend(o, BOTH[..2], Begin(0, Ok));
    RunExtend(o, BOTH[..3], AddRecord(0, Ok, true));
    RunExtend(o, BOTH[..4], Insert(0, Ok, 1));
  }

  // ----------------------------------------------------------------------- bounded service

  /** How many steps of its own the front writer is at most away from leaving the queue. */
  function StepsLeft(pc: Pc): nat {
    match pc
    case Awake => 6
    case MakingRoom => 5
    case Logging(_, _, _, stage, _, _, _, _) =>
      (match stage case ToLog => 4 case ToSync => 3 case ToInsert => 2 case ToFinish => 1)
    case _ => 0
  }

  /** If the system calls succeed, a step of the front writer takes it nearer to the end or ends its group. */
  lemma FrontSteps(s: State)
    requires Inv(s) && s.head < |s.writers|
    ensures !s.writers[s.head].pc.Returned? && !s.writers[s.head].pc.Asleep? && Enabled(s, NextAction(s, s.head))
    ensures var t := Do(s, NextAction(s, s.head));
            && |t.writers| == |s.writers|
            && (t.head > s.head || (t.head == s.head && StepsLeft(t.writers[t.head].pc) < StepsLeft(s.writers[s.head].pc)))
  {
    hide HistoryOk, StatusOk, DurableOk, StoreOk, MayGroup, Ops, GroupSize, LargestGroup, Range, Entries;
    assert WriterOk(s.head, s.head, s.writers[s.head]);
  }

  /** From every state, any writer in the queue can be served, and return, within six steps for each writer up to it and one more. */
  lemma {:induction false} CanBeServed(s: State, w: nat) returns (run: seq<Action>)
    requires Inv(s) && s.head <= w < |s.writers|
    ensures Run(s, run) && |run| <= 6 * (w - s.head) + StepsLeft(s.writers[s.head].pc)
    ensures w < After(s, run).head && |After(s, run).writers| == |s.writers|
    decreases w - s.head, StepsLeft(s.writers[s.head].pc)
  {
    hide Inv, Do, Enabled;
    FrontSteps(s);
    var a := NextAction(s, s.head);
    var t := Do(s, a);
    Keeps(s, a);
    var rest := [];
    if t.head <= w {
      rest := CanBeServed(t, w);
    }
    run := [a] + rest;
    assert run[1..] == rest;
  }

  lemma CanReturn(base: nat, s: State, w: nat) returns (run: seq<Action>)
    requires Reachable(base, s) && w < |s.writers|
    ensures Run(s, run) && |run| <= 6 * (|s.writers| + 1) && w < |After(s, run).writers| && After(s, run).writers[w].pc == Returned
  {
    hide Inv, Do, Enabled, Reachable;
    ReachableInv(base, s);
    run := [];
    if s.head <= w {
      run := CanBeServed(s, w);
    }
    ReachableOn(base, s, run);
    var t := After(s, run);
    ServedReturns(base, t, w);
    if t.writers[w].pc != Returned {
      RunExtend(s, run, Wake(w));
      run := run + [Wake(w)];
      WakeReturns(t, w);
    }
  }

  lemma WakeReturns(s: State, w: nat)
    requires Enabled(s, Wake(w)) && s.writers[w].done
    ensures Do(s, Wake(w)).writers[w].pc == Returned && |Do(s, Wake(w)).writers| == |s.writers|
  {
  }

  lemma ReachableOn(base: nat, s: State, run: seq<Action>)
    requires Reachable(base, s) && Run(s, run)
    ensures Reachable(base, After(s, run))
  {
    hide Do, Enabled;
    var before :| Run(Opened(base), before) && After(Opened(base), before) == s;
    RunConcat(Opened(base), before, run);
  }

  lemma {:induction false} RunConcat(s: State, a: seq<Action>, b: seq<Action>)
    requires Run(s, a) && Run(After(s, a), b)
    ensures Run(s, a + b) && After(s, a + b) == After(After(s, a), b)
    decreases |a|
  {
    hide Do, Enabled;
    if a == [] {
      assert a + b == b;
    } else {
      RunConcat(Do(s, a[0]), a[1..], b);
      assert (a + b)[1..] == a[1..] + b;
    }
  }
}
