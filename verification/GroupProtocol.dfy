/**
 * The group-commit protocol as a state machine.  A run is any sequence of enabled
 * actions: each is either one stretch of code under the lock, or one step of the
 * leader while the lock is released.
 */
module GroupProtocol {
  import opened Bytes
  import opened GroupCommit

  /** What the leader does next while the lock is released. */
  datatype Stage = ToLog | ToSync | ToInsert | ToFinish
  /**
   * Where a writer is: asleep on its condition variable, awake and about to look at
   * `done`, leading and making room, leading and logging, or returned.
   */
  datatype Pc =
    | Asleep
    | Awake
    | MakingRoom
    | Logging(last: nat, updates: Record, sequence: nat, stage: Stage, result: Status, syncError: bool, present: bool, inserted: nat)
    | Returned
  datatype Writer = Writer(pc: Pc, done: bool, status: Status)
  /** A group that has been served: writers `first .. end`, and what became of their operations. */
  datatype Group = Group(first: nat, end: nat, updates: Record, present: bool, inserted: nat, status: Status)
  datatype State = State(
    base: nat,
    calls: seq<Call>,
    writers: seq<Writer>,
    head: nat,
    lastSequence: nat,
    log: seq<Record>,
    fileStart: nat,
    durable: set<nat>,
    mem: seq<Entry>,
    error: Option<nat>,
    history: seq<Group>)

  datatype Action =
    | Arrive(call: Call)
    | Wake(w: nat)
    | Spurious(w: nat)
    | SwitchLog(w: nat)
    | BackgroundError(code: nat)
    | Begin(w: nat, status: Status)
    | AddRecord(w: nat, status: Status, present: bool)
    | Sync(w: nat, status: Status)
    | Insert(w: nat, status: Status, count: nat)
    | Finish(w: nat)

  // ------------------------------------------------------------------ the steps

  function Entries(first: nat, ops: seq<Op>): (es: seq<Entry>)
    ensures |es| == |ops| && forall i :: 0 <= i < |ops| ==> es[i] == Entry(first + i, ops[i])
  {
    seq(|ops|, i requires 0 <= i < |ops| => Entry(first + i, ops[i]))
  }

  function Range(a: nat, b: nat): (r: set<nat>)
    ensures forall i :: i in r <==> a <= i < b
  {
    if b <= a then {} else Range(a, b - 1) + {b - 1}
  }

  /** Popping the queue up to `last`: all but the leader `w` are completed and signalled, and the new front is signalled. */
  function Popped(ws: seq<Writer>, head: nat, last: nat, w: nat, status: Status): (r: seq<Writer>)
    ensures |r| == |ws|
  {
    seq(|ws|, i requires 0 <= i < |ws| =>
      if i == w then Writer(Returned, ws[i].done, status)
      else if head <= i <= last then Writer(if ws[i].pc == Asleep then Awake else ws[i].pc, true, status)
      else if i == last + 1 && ws[i].pc == Asleep then ws[i].(pc := Awake)
      else ws[i])
  }

  /** The end of `Write`: the group of `w` up to `last` leaves the queue. */
  function Leave(s: State, w: nat, last: nat, updates: Record, present: bool, inserted: nat, status: Status): State {
    s.(writers := Popped(s.writers, s.head, last, w, status),
       head := last + 1,
       history := s.history + [Group(s.head, last + 1, updates, present, inserted, status)])
  }

  function At(s: State, w: nat, pc: Pc): State
    requires w < |s.writers|
  {
    s.(writers := s.writers[w := s.writers[w].(pc := pc)])
  }

  ghost predicate Enabled(s: State, a: Action) {
    match a
    case Arrive(_) => true
    case BackgroundError(_) => true
    case Wake(w) => w < |s.writers| && s.writers[w].pc == Awake
    case Spurious(w) => w < |s.writers| && s.writers[w].pc == Asleep
    case SwitchLog(w) => w < |s.writers| && s.writers[w].pc == MakingRoom
    case Begin(w, status) =>
      && w < |s.writers| && w < |s.calls| && s.writers[w].pc == MakingRoom && s.head < |s.calls|
      && (s.error.Some? ==> status == Failed(s.error.value))
    case AddRecord(w, status, present) =>
      && w < |s.writers| && w < |s.calls| && s.writers[w].pc.Logging? && s.writers[w].pc.stage == ToLog
      && (status == Ok ==> present)
    case Sync(w, status) => w < |s.writers| && s.writers[w].pc.Logging? && s.writers[w].pc.stage == ToSync
    case Insert(w, status, count) =>
      && w < |s.writers| && s.writers[w].pc.Logging? && s.writers[w].pc.stage == ToInsert
      && count <= |s.writers[w].pc.updates.ops|
      && (status == Ok ==> count == |s.writers[w].pc.updates.ops|)
    case Finish(w) => w < |s.writers| && s.writers[w].pc.Logging? && s.writers[w].pc.stage == ToFinish
  }

  ghost function Do(s: State, a: Action): State
    requires Enabled(s, a)
  {
    match a
    case Arrive(c) =>
      s.(calls := s.calls + [c],
         writers := s.writers + [Writer(if s.head == |s.writers| then MakingRoom else Asleep, false, Ok)])
    case BackgroundError(e) => s.(error := if s.error.None? then Some(e) else s.error)
    case Wake(w) => At(s, w, if s.writers[w].done then Returned else if w == s.head then MakingRoom else Asleep)
    case Spurious(w) => At(s, w, Awake)
    case SwitchLog(w) => s.(fileStart := |s.log|)
    case Begin(w, status) => DoBegin(s, w, status)
    case AddRecord(w, status, present) =>
      var pc := s.writers[w].pc;
      var stage := if status != Ok then ToFinish else if s.calls[w].sync then ToSync else ToInsert;
      At(s, w, pc.(stage := stage, result := status, present := present)).(log := if present then s.log + [pc.updates] else s.log)
    case Sync(w, status) =>
      var pc := s.writers[w].pc;
      if status == Ok then
        At(s, w, pc.(stage := ToInsert)).(durable := s.durable + Range(s.fileStart, |s.log|))
      else
        At(s, w, pc.(stage := ToFinish, result := status, syncError := true))
    case Insert(w, status, count) =>
      var pc := s.writers[w].pc;
      At(s, w, pc.(stage := ToFinish, result := status, inserted := count)).(mem := s.mem + Entries(pc.updates.first, pc.updates.ops[..count]))
    case Finish(w) => DoFinish(s, w)
  }

  /** After `MakeRoomForWrite` returned `status`, up to where the lock is released. */
  ghost function DoBegin(s: State, w: nat, status: Status): State
    requires Enabled(s, Begin(w, status))
  {
    if status == Ok && s.calls[w].batch.Some? then
      var cs := s.calls[s.head..];
      FirstGroup(cs);
      var n := GroupSize(cs, 1);
      At(s, w, Logging(s.head + n - 1, Record(s.lastSequence + 1, Ops(cs[..n])), s.lastSequence + |Ops(cs[..n])|, ToLog, Ok, false, false, 0))
    else
      Leave(s, w, w, Record(s.lastSequence + 1, []), false, 0, status)
  }

  /** From where the lock is taken again to the end of `Write`. */
  ghost function DoFinish(s: State, w: nat): State
    requires Enabled(s, Finish(w))
  {
    var pc := s.writers[w].pc;
    var t := s.(lastSequence := pc.sequence,
                error := if pc.syncError && s.error.None? && pc.result.Failed? then Some(pc.result.code) else s.error);
    Leave(t, w, pc.last, pc.updates, pc.present, pc.inserted, pc.result)
  }

  // ------------------------------------------------------------------ invariant

  function LogOf(h: seq<Group>): seq<Record> {
    if h == [] then [] else
      var g := h[|h| - 1];
      LogOf(h[..|h| - 1]) + (if g.present then [g.updates] else [])
  }

  function MemOf(h: seq<Group>): seq<Entry> {
    if h == [] then [] else
      var g := h[|h| - 1];
      MemOf(h[..|h| - 1]) + (if g.inserted <= |g.updates.ops| then Entries(g.updates.first, g.updates.ops[..g.inserted]) else [])
  }

  function HeadAfter(h: seq<Group>): nat {
    if h == [] then 0 else h[|h| - 1].end
  }

  function NextSequence(base: nat, h: seq<Group>): nat {
    if h == [] then base + 1 else h[|h| - 1].updates.first + |h[|h| - 1].updates.ops|
  }

  /** The groups follow each other without a gap, in the queue and in sequence numbers. */
  ghost predicate Chained(base: nat, h: seq<Group>) {
    h == [] ||
    var (rest, g) := (h[..|h| - 1], h[|h| - 1]);
    Chained(base, rest) && g.first == HeadAfter(rest) && g.updates.first == NextSequence(base, rest)
  }

  ghost predicate Formed(calls: seq<Call>, first: nat, end: nat, ops: seq<Op>) {
    && first < end <= |calls| && calls[first].batch.Some?
    && MayGroup(calls[first..end])
    && ops == Ops(calls[first..end])
  }

  /** A writer that could not log: no batch, or no room. */
  ghost predicate Refused(calls: seq<Call>, g: Group) {
    && g.first < |calls| && g.end == g.first + 1
    && g.updates.ops == [] && !g.present && g.inserted == 0
    && (g.status == Ok ==> calls[g.first].batch.None?)
  }

  ghost predicate Handled(calls: seq<Call>, g: Group) {
    && Formed(calls, g.first, g.end, g.updates.ops)
    && g.inserted <= |g.updates.ops|
    && (g.status == Ok ==> g.present && g.inserted == |g.updates.ops|)
  }

  ghost predicate GoodGroup(calls: seq<Call>, g: Group) {
    Refused(calls, g) || Handled(calls, g)
  }

  ghost predicate WriterOk(i: nat, head: nat, w: Writer) {
    if i < head then w.pc == Returned || (w.pc == Awake && w.done)
    else !w.done && if i == head then w.pc == Awake || w.pc == MakingRoom || w.pc.Logging?
                    else w.pc == Asleep || w.pc == Awake
  }

  ghost predicate QueueOk(s: State) {
    && |s.writers| == |s.calls| && s.head <= |s.calls|
    && forall i :: 0 <= i < |s.writers| ==> WriterOk(i, s.head, s.writers[i])
  }

  ghost predicate HistoryOk(s: State) {
    && Chained(s.base, s.history) && HeadAfter(s.history) == s.head
    && NextSequence(s.base, s.history) == s.lastSequence + 1
    && forall k :: 0 <= k < |s.history| ==> GoodGroup(s.calls, s.history[k])
  }

  /** Every member of a group has the status of its group. */
  ghost predicate StatusOk(s: State) {
    forall k, i :: 0 <= k < |s.history| && s.history[k].first <= i < s.history[k].end && i < |s.writers| ==>
      s.writers[i].status == s.history[k].status
  }

  ghost predicate NeedsSync(calls: seq<Call>, g: Group) {
    g.status == Ok && g.first < |calls| && calls[g.first].sync && calls[g.first].batch.Some?
  }

  ghost predicate DurableOk(s: State) {
    forall k :: 0 <= k < |s.history| && NeedsSync(s.calls, s.history[k]) ==> |LogOf(s.history[..k])| in s.durable
  }

  /** The leader's local variables at each stage. */
  ghost predicate LeaderOk(s: State, pc: Pc)
    requires pc.Logging?
  {
    && s.head <= pc.last && Formed(s.calls, s.head, pc.last + 1, pc.updates.ops)
    && pc.updates.first == s.lastSequence + 1 && pc.sequence == s.lastSequence + |pc.updates.ops|
    && (pc.stage != ToFinish ==> pc.result == Ok && !pc.syncError && pc.inserted == 0 && pc.present == (pc.stage != ToLog))
    && (pc.stage == ToSync ==> s.calls[s.head].sync)
    && pc.inserted <= |pc.updates.ops|
    && (pc.stage == ToFinish && pc.result == Ok ==> pc.present && pc.inserted == |pc.updates.ops|)
    && (pc.stage == ToInsert || (pc.stage == ToFinish && pc.result == Ok) ==> s.calls[s.head].sync ==> |LogOf(s.history)| in s.durable)
    && (pc.syncError ==> pc.result.Failed?)
  }

  ghost function Leader(s: State): Option<Pc> {
    if s.head < |s.writers| && s.writers[s.head].pc.Logging? then Some(s.writers[s.head].pc) else None
  }

  function GroupOf(head: nat, pc: Pc): Group
    requires pc.Logging?
  {
    Group(head, pc.last + 1, pc.updates, pc.present, pc.inserted, pc.result)
  }

  ghost function Pending(s: State): seq<Group> {
    match Leader(s)
    case None => []
    case Some(pc) => if pc.Logging? then [GroupOf(s.head, pc)] else []
  }

  ghost predicate StoreOk(s: State) {
    && s.log == LogOf(s.history + Pending(s))
    && s.mem == MemOf(s.history + Pending(s))
    && s.fileStart <= |LogOf(s.history)|
  }

  ghost predicate Inv(s: State) {
    && QueueOk(s) && HistoryOk(s) && StatusOk(s) && DurableOk(s) && StoreOk(s)
    && (Leader(s).Some? ==> LeaderOk(s, Leader(s).value))
  }

  lemma LogSnoc(h: seq<Group>, g: Group)
    ensures LogOf(h + [g]) == LogOf(h) + (if g.present then [g.updates] else [])
  {
    assert (h + [g])[..|h|] == h;
  }

  lemma MemSnoc(h: seq<Group>, g: Group)
    requires g.inserted <= |g.updates.ops|
    ensures MemOf(h + [g]) == MemOf(h) + Entries(g.updates.first, g.updates.ops[..g.inserted])
  {
    assert (h + [g])[..|h|] == h;
  }

  lemma FormedGrows(calls: seq<Call>, c: Call, first: nat, end: nat, ops: seq<Op>)
    requires Formed(calls, first, end, ops)
    ensures Formed(calls + [c], first, end, ops)
  {
    assert (calls + [c])[first..end] == calls[first..end];
  }

  lemma GoodGroupGrows(calls: seq<Call>, c: Call, g: Group)
    requires GoodGroup(calls, g)
    ensures GoodGroup(calls + [c], g) && g.end <= |calls|
    ensures NeedsSync(calls + [c], g) == NeedsSync(calls, g)
  {
    assert g.first < |calls| && (calls + [c])[g.first] == calls[g.first];
    if Handled(calls, g) {
      FormedGrows(calls, c, g.first, g.end, g.updates.ops);
      assert Handled(calls + [c], g);
    } else {
      assert Refused(calls + [c], g);
    }
  }

  lemma KeepsArrive(s: State, c: Call)
    requires Inv(s)
    ensures Inv(Do(s, Arrive(c)))
  {
    hide Formed, Refused, Handled, MayGroup, LogOf, MemOf, Chained;
    var t := Do(s, Arrive(c));
    forall k | 0 <= k < |s.history| ensures GoodGroup(t.calls, t.history[k]) && t.history[k].end <= |s.calls| && NeedsSync(t.calls, t.history[k]) == NeedsSync(s.calls, s.history[k]) {
      GoodGroupGrows(s.calls, c, s.history[k]);
    }
    assert StatusOk(t);
    assert Leader(t) == Leader(s);
    if Leader(s).Some? {
      var pc := Leader(s).value;
      FormedGrows(s.calls, c, s.head, pc.last + 1, pc.updates.ops);
    }
  }

  lemma KeepsBackgroundError(s: State, e: nat)
    requires Inv(s)
    ensures Inv(Do(s, BackgroundError(e)))
  {
    hide Formed, GoodGroup, LogOf, MemOf, Chained;
  }

  /** Moving one writer that is not logging, to where it is not logging either. */
  lemma KeepsMove(s: State, w: nat, pc: Pc)
    requires Inv(s) && w < |s.writers| && !s.writers[w].pc.Logging? && !pc.Logging?
    requires WriterOk(w, s.head, s.writers[w].(pc := pc))
    ensures Inv(At(s, w, pc))
  {
    hide Formed, GoodGroup, LogOf, MemOf, Chained, NeedsSync, WriterOk;
    var t := At(s, w, pc);
    assert Leader(t) == Leader(s);
    assert Pending(t) == Pending(s);
  }

  lemma KeepsWake(s: State, w: nat)
    requires Inv(s) && Enabled(s, Wake(w))
    ensures Inv(Do(s, Wake(w)))
  {
    hide Formed, GoodGroup, LogOf, MemOf, Chained, NeedsSync, HistoryOk, StatusOk, DurableOk, StoreOk, LeaderOk;
    var pc := if s.writers[w].done then Returned else if w == s.head then MakingRoom else Asleep;
    assert WriterOk(w, s.head, s.writers[w]);
    KeepsMove(s, w, pc);
  }

  lemma KeepsSpurious(s: State, w: nat)
    requires Inv(s) && Enabled(s, Spurious(w))
    ensures Inv(Do(s, Spurious(w)))
  {
    hide Formed, GoodGroup, LogOf, MemOf, Chained, NeedsSync, HistoryOk, StatusOk, DurableOk, StoreOk, LeaderOk;
    assert WriterOk(w, s.head, s.writers[w]);
    KeepsMove(s, w, Awake);
  }

  lemma HistoryFrame(s: State, t: State)
    requires HistoryOk(s) && (t.base, t.history, t.head, t.lastSequence, t.calls) == (s.base, s.history, s.head, s.lastSequence, s.calls)
    ensures HistoryOk(t)
  {
    hide Chained, GoodGroup;
  }

  lemma KeepsSwitchLog(s: State, w: nat)
    requires Inv(s) && Enabled(s, SwitchLog(w))
    ensures Inv(Do(s, SwitchLog(w)))
  {
    hide Formed, GoodGroup, LogOf, MemOf, Chained, NeedsSync, LeaderOk, HistoryOk;
    assert WriterOk(w, s.head, s.writers[w]);
    assert s.history + Pending(s) == s.history;
    var t := Do(s, SwitchLog(w));
    assert Leader(t).None? && Pending(t) == Pending(s);
    assert HistoryOk(t) by {
      HistoryFrame(s, t);
    }
  }

  /** The log and the memtable: those of the groups served, and what the leader has added so far. */
  lemma StoreNow(s: State)
    requires Inv(s)
    ensures s.fileStart <= |LogOf(s.history)|
    ensures match Leader(s)
            case None => s.log == LogOf(s.history) && s.mem == MemOf(s.history)
            case Some(pc) =>
              && pc.Logging? && pc.inserted <= |pc.updates.ops|
              && s.log == LogOf(s.history) + (if pc.present then [pc.updates] else [])
              && s.mem == MemOf(s.history) + Entries(pc.updates.first, pc.updates.ops[..pc.inserted])
  {
    hide LogOf, MemOf, HistoryOk, QueueOk, StatusOk, DurableOk, Formed;
    if Leader(s).Some? {
      var g := GroupOf(s.head, Leader(s).value);
      LogSnoc(s.history, g);
      MemSnoc(s.history, g);
    } else {
      assert s.history + Pending(s) == s.history;
    }
  }

  lemma OnlyFrontLeads(s: State, w: nat)
    requires QueueOk(s) && w < |s.writers| && (s.writers[w].pc.Logging? || s.writers[w].pc == MakingRoom)
    ensures w == s.head && !s.writers[w].done
  {
    assert WriterOk(w, s.head, s.writers[w]);
  }

  ghost function Leads(s: State, pc: Pc, log: seq<Record>, durable: set<nat>, mem: seq<Entry>): State
    requires s.head < |s.writers|
  {
    At(s, s.head, pc).(log := log, durable := durable, mem := mem)
  }

  /** A step of the leader keeps the invariant if its local variables and what it stored agree. */
  lemma KeepsLeads(s: State, pc: Pc, log: seq<Record>, durable: set<nat>, mem: seq<Entry>)
    requires Inv(s) && s.head < |s.writers| && (s.writers[s.head].pc.Logging? || s.writers[s.head].pc == MakingRoom)
    requires pc.Logging? && LeaderOk(Leads(s, pc, log, durable, mem), pc) && pc.inserted <= |pc.updates.ops| && s.durable <= durable
    requires log == LogOf(s.history) + (if pc.present then [pc.updates] else [])
    requires mem == MemOf(s.history) + Entries(pc.updates.first, pc.updates.ops[..pc.inserted])
    ensures Inv(Leads(s, pc, log, durable, mem))
  {
    hide LogOf, MemOf, Formed, GoodGroup, Chained, NeedsSync, LeaderOk;
    var t := Leads(s, pc, log, durable, mem);
    var g := GroupOf(s.head, pc);
    assert Leader(t) == Some(pc) && Pending(t) == [g];
    LogSnoc(s.history, g);
    MemSnoc(s.history, g);
    HistoryFrame(s, t);
    assert StatusOk(t) && DurableOk(t) && QueueOk(t);
  }

  lemma KeepsAddRecord(s: State, w: nat, status: Status, present: bool)
    requires Inv(s) && Enabled(s, AddRecord(w, status, present))
    ensures Inv(Do(s, AddRecord(w, status, present)))
  {
    hide LogOf, MemOf, Formed, HistoryOk, StatusOk, DurableOk, StoreOk;
    OnlyFrontLeads(s, w);
    StoreNow(s);
    var pc := s.writers[w].pc;
    var stage := if status != Ok then ToFinish else if s.calls[w].sync then ToSync else ToInsert;
    var next := pc.(stage := stage, result := status, present := present);
    var log := if present then s.log + [pc.updates] else s.log;
    var t := Leads(s, next, log, s.durable, s.mem);
    assert t == Do(s, AddRecord(w, status, present));
    assert LeaderOk(t, next);
    KeepsLeads(s, next, log, s.durable, s.mem);
  }

  lemma KeepsSync(s: State, w: nat)
    requires Inv(s) && Enabled(s, Sync(w, Ok))
    ensures Inv(Do(s, Sync(w, Ok)))
  {
    hide LogOf, MemOf, Formed, HistoryOk, StatusOk, DurableOk, StoreOk, Range;
    OnlyFrontLeads(s, w);
    StoreNow(s);
    var pc := s.writers[w].pc;
    var next := pc.(stage := ToInsert);
    var durable := s.durable + Range(s.fileStart, |s.log|);
    var t := Leads(s, next, s.log, durable, s.mem);
    assert t == Do(s, Sync(w, Ok));
    assert LeaderOk(t, next);
    KeepsLeads(s, next, s.log, durable, s.mem);
  }

  lemma KeepsSyncError(s: State, w: nat, status: Status)
    requires Inv(s) && Enabled(s, Sync(w, status)) && status != Ok
    ensures Inv(Do(s, Sync(w, status)))
  {
    hide LogOf, MemOf, Formed, HistoryOk, StatusOk, DurableOk, StoreOk, Range;
    OnlyFrontLeads(s, w);
    StoreNow(s);
    var pc := s.writers[w].pc;
    var next := pc.(stage := ToFinish, result := status, syncError := true);
    var t := Leads(s, next, s.log, s.durable, s.mem);
    assert t == Do(s, Sync(w, status));
    assert LeaderOk(t, next);
    KeepsLeads(s, next, s.log, s.durable, s.mem);
  }

  lemma KeepsInsert(s: State, w: nat, status: Status, count: nat)
    requires Inv(s) && Enabled(s, Insert(w, status, count))
    ensures Inv(Do(s, Insert(w, status, count)))
  {
    hide LogOf, MemOf, Formed, HistoryOk, StatusOk, DurableOk, StoreOk;
    OnlyFrontLeads(s, w);
    StoreNow(s);
    var pc := s.writers[w].pc;
    var next := pc.(stage := ToFinish, result := status, inserted := count);
    var mem := s.mem + Entries(pc.updates.first, pc.updates.ops[..count]);
    assert pc.updates.ops[..0] == [] && s.mem == MemOf(s.history);
    var t := Leads(s, next, s.log, s.durable, mem);
    assert t == Do(s, Insert(w, status, count));
    assert LeaderOk(t, next);
    KeepsLeads(s, next, s.log, s.durable, mem);
  }

  lemma FormsGroup(s: State)
    requires s.head < |s.calls| && s.calls[s.head].batch.Some?
    ensures var cs := s.calls[s.head..];
            && MayGroup(cs[..1])
            && var n := GroupSize(cs, 1);
            0 < n <= |cs| && Formed(s.calls, s.head, s.head + n, Ops(cs[..n]))
  {
    var cs := s.calls[s.head..];
    FirstGroup(cs);
    var n := GroupSize(cs, 1);
    assert cs[..n] == s.calls[s.head..s.head + n];
  }

  lemma KeepsBegin(s: State, w: nat, status: Status)
    requires Inv(s) && Enabled(s, Begin(w, status)) && status == Ok && s.calls[w].batch.Some?
    ensures Inv(Do(s, Begin(w, status)))
  {
    hide LogOf, MemOf, Formed, HistoryOk, StatusOk, DurableOk, StoreOk, GroupSize, MayGroup, Ops;
    OnlyFrontLeads(s, w);
    StoreNow(s);
    FormsGroup(s);
    var cs := s.calls[s.head..];
    var n := GroupSize(cs, 1);
    var pc := Logging(s.head + n - 1, Record(s.lastSequence + 1, Ops(cs[..n])), s.lastSequence + |Ops(cs[..n])|, ToLog, Ok, false, false, 0);
    var t := Leads(s, pc, s.log, s.durable, s.mem);
    assert t == Do(s, Begin(w, status));
    assert LeaderOk(t, pc);
    assert pc.updates.ops[..0] == [];
    KeepsLeads(s, pc, s.log, s.durable, s.mem);
  }

  lemma ChainSnoc(base: nat, h: seq<Group>, g: Group)
    requires Chained(base, h) && g.first == HeadAfter(h) && g.updates.first == NextSequence(base, h)
    ensures Chained(base, h + [g]) && HeadAfter(h + [g]) == g.end
    ensures NextSequence(base, h + [g]) == g.updates.first + |g.updates.ops|
  {
    assert (h + [g])[..|h|] == h;
  }

  /** The groups end where the next ones begin, so earlier groups lie wholly before `HeadAfter`. */
  lemma {:induction false} GroupsBelowHead(base: nat, calls: seq<Call>, h: seq<Group>, k: nat)
    requires Chained(base, h) && k < |h| && forall j :: 0 <= j < |h| ==> GoodGroup(calls, h[j])
    ensures h[k].end <= HeadAfter(h)
  {
    hide MayGroup, Ops;
    if k < |h| - 1 {
      var rest := h[..|h| - 1];
      assert forall j :: 0 <= j < |rest| ==> rest[j] == h[j];
      GroupsBelowHead(base, calls, rest, k);
      assert GoodGroup(calls, h[|h| - 1]);
    }
  }

  /** The group that leaves, and the state it leaves behind. */
  lemma LeaveQueue(s: State, last: nat, updates: Record, present: bool, inserted: nat, status: Status)
    requires QueueOk(s) && s.head <= last < |s.writers|
    ensures QueueOk(Leave(s, s.head, last, updates, present, inserted, status))
  {
    var t := Leave(s, s.head, last, updates, present, inserted, status);
    forall i | 0 <= i < |t.writers| ensures WriterOk(i, t.head, t.writers[i]) {
      assert WriterOk(i, s.head, s.writers[i]);
    }
  }

  lemma LeaveStatus(s: State, last: nat, updates: Record, present: bool, inserted: nat, status: Status)
    requires StatusOk(s) && HistoryOk(s) && s.head <= last < |s.writers|
    ensures StatusOk(Leave(s, s.head, last, updates, present, inserted, status))
  {
    hide GoodGroup, Chained, HeadAfter;
    var t := Leave(s, s.head, last, updates, present, inserted, status);
    forall k, i | 0 <= k < |t.history| && t.history[k].first <= i < t.history[k].end && i < |t.writers|
      ensures t.writers[i].status == t.history[k].status
    {
      if k < |s.history| {
        GroupsBelowHead(s.base, s.calls, s.history, k);
        assert t.history[k] == s.history[k];
      }
    }
  }

  lemma LeaveDurable(s: State, g: Group, t: State)
    requires DurableOk(s) && t.calls == s.calls && t.durable == s.durable && t.history == s.history + [g]
    requires NeedsSync(s.calls, g) ==> |LogOf(s.history)| in s.durable
    ensures DurableOk(t)
  {
    hide LogOf, NeedsSync;
    forall k | 0 <= k < |t.history| && NeedsSync(t.calls, t.history[k])
      ensures |LogOf(t.history[..k])| in t.durable
    {
      if k < |s.history| {
        assert t.history[..k] == s.history[..k] && t.history[k] == s.history[k];
      } else {
        assert t.history[..k] == s.history;
      }
    }
  }

  lemma LeaveHistory(s: State, g: Group, t: State)
    requires HistoryOk(s) && t.calls == s.calls && t.base == s.base && t.history == s.history + [g]
    requires g.first == s.head && g.updates.first == s.lastSequence + 1 && GoodGroup(s.calls, g)
    requires t.head == g.end && t.lastSequence == s.lastSequence + |g.updates.ops|
    ensures HistoryOk(t)
  {
    hide GoodGroup, Chained, HeadAfter, NextSequence;
    ChainSnoc(s.base, s.history, g);
  }

  lemma KeepsRefuse(s: State, w: nat, status: Status)
    requires Inv(s) && Enabled(s, Begin(w, status)) && !(status == Ok && s.calls[w].batch.Some?)
    ensures Inv(Do(s, Begin(w, status)))
  {
    hide LogOf, MemOf, Formed, Handled, Chained, NeedsSync, WriterOk, LeaderOk, Popped;
    OnlyFrontLeads(s, w);
    StoreNow(s);
    var updates := Record(s.lastSequence + 1, []);
    var g := Group(w, w + 1, updates, false, 0, status);
    var t := Do(s, Begin(w, status));
    assert t == Leave(s, w, w, updates, false, 0, status) && t.history == s.history + [g];
    assert Refused(s.calls, g);
    LeaveQueue(s, w, updates, false, 0, status);
    LeaveStatus(s, w, updates, false, 0, status);
    NeedsSyncMeans(s.calls, g);
    LeaveDurable(s, g, t);
    LeaveHistory(s, g, t);
    LeaveFront(s, w, updates, false, 0, status);
    assert updates.ops[..0] == [];
    LeaveStore(s, g, t);
  }

  lemma NeedsSyncMeans(calls: seq<Call>, g: Group)
    ensures NeedsSync(calls, g) ==> g.first < |calls| && g.status == Ok && calls[g.first].sync && calls[g.first].batch.Some?
  {
  }

  /** After a group has left, nobody is logging and the store is that of the groups served. */
  lemma LeaveStore(s: State, g: Group, t: State)
    requires QueueOk(t) && t.history == s.history + [g] && t.fileStart == s.fileStart <= |LogOf(s.history)|
    requires t.head < |t.writers| ==> !t.writers[t.head].pc.Logging?
    requires g.inserted <= |g.updates.ops|
    requires t.log == LogOf(s.history) + (if g.present then [g.updates] else [])
    requires t.mem == MemOf(s.history) + Entries(g.updates.first, g.updates.ops[..g.inserted])
    ensures StoreOk(t) && Leader(t).None?
  {
    hide LogOf, MemOf, QueueOk;
    LogSnoc(s.history, g);
    MemSnoc(s.history, g);
    assert t.history + Pending(t) == t.history;
  }

  lemma LeaveFront(s: State, last: nat, updates: Record, present: bool, inserted: nat, status: Status)
    requires QueueOk(s) && s.head <= last < |s.writers|
    ensures var t := Leave(s, s.head, last, updates, present, inserted, status);
            t.head < |t.writers| ==> !t.writers[t.head].pc.Logging?
  {
    if last + 1 < |s.writers| {
      assert WriterOk(last + 1, s.head, s.writers[last + 1]);
    }
  }

  lemma KeepsFinish(s: State, w: nat)
    requires Inv(s) && Enabled(s, Finish(w))
    ensures Inv(Do(s, Finish(w)))
  {
    hide LogOf, MemOf, Chained, WriterOk, Popped, MayGroup, Ops, Refused;
    OnlyFrontLeads(s, w);
    StoreNow(s);
    var pc := s.writers[w].pc;
    var g := GroupOf(s.head, pc);
    var t := Do(s, Finish(w));
    var u := Leave(s, s.head, pc.last, pc.updates, pc.present, pc.inserted, pc.result);
    assert (t.writers, t.head, t.history) == (u.writers, u.head, u.history) && t.history == s.history + [g];
    assert Handled(s.calls, g);
    LeaveQueue(s, pc.last, pc.updates, pc.present, pc.inserted, pc.result);
    LeaveStatus(s, pc.last, pc.updates, pc.present, pc.inserted, pc.result);
    LeaveFront(s, pc.last, pc.updates, pc.present, pc.inserted, pc.result);
    LeaveDurable(s, g, t);
    LeaveHistory(s, g, t);
    LeaveStore(s, g, t);
  }

  lemma Keeps(s: State, a: Action)
    requires Inv(s) && Enabled(s, a)
    ensures Inv(Do(s, a))
  {
    hide Inv, Do;
    match a
    case Arrive(c) => KeepsArrive(s, c);
    case BackgroundError(e) => KeepsBackgroundError(s, e);
    case Wake(w) => KeepsWake(s, w);
    case Spurious(w) => KeepsSpurious(s, w);
    case SwitchLog(w) => KeepsSwitchLog(s, w);
    case Begin(w, status) =>
      if status == Ok && s.calls[w].batch.Some? {
        KeepsBegin(s, w, status);
      } else {
        KeepsRefuse(s, w, status);
      }
    case AddRecord(w, status, present) => KeepsAddRecord(s, w, status, present);
    case Sync(w, status) =>
      if status == Ok {
        KeepsSync(s, w);
      } else {
        KeepsSyncError(s, w, status);
      }
    case Insert(w, status, count) => KeepsInsert(s, w, status, count);
    case Finish(w) => KeepsFinish(s, w);
  }

  // ---------------------------------------------------------------- whole runs

  function Opened(base: nat): State {
    State(base, [], [], 0, base, [], 0, {}, [], None, [])
  }

  /** Every action of the run is enabled where it is taken. */
  ghost predicate Run(s: State, run: seq<Action>)
    decreases |run|
  {
    run == [] || (Enabled(s, run[0]) && Run(Do(s, run[0]), run[1..]))
  }

  ghost function After(s: State, run: seq<Action>): State
    requires Run(s, run)
    decreases |run|
  {
    if run == [] then s else After(Do(s, run[0]), run[1..])
  }

  lemma {:induction false} RunKeeps(s: State, run: seq<Action>)
    requires Inv(s) && Run(s, run)
    ensures Inv(After(s, run))
    decreases |run|
  {
    hide Inv, Do, Enabled;
    if run != [] {
      Keeps(s, run[0]);
      RunKeeps(Do(s, run[0]), run[1..]);
    }
  }

  lemma OpenedInv(base: nat)
    ensures Inv(Opened(base))
  {
    assert Opened(base).history + Pending(Opened(base)) == [];
  }
}
