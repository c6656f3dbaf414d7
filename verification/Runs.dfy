/**
 * Whole runs of the chain on plain values: any sequence of executed and cancelled blocks and
 * of calls of the solidify loop, some of which may miss a block state.
 */
module Runs {
  import opened Bytes
  import opened Sums
  import opened Ledger
  import opened Disk
  import opened CrashSafety
  import opened LedgerRuns
  import opened Layers
  import opened Solidifying

  datatype Call =
    | Process(block: Block, txs: seq<Transaction>, producer: Address, bonus: nat, now: int)
    | CancelTop
    | Solidify(number: nat, states: States)

  /** The chain between two calls; `attached` says that the front still has a parent that has left the queue. */
  datatype Snapshot = Snapshot(worlds: seq<World>, layers: seq<Layer>, attached: bool, rounds: seq<Episode>)

  /** Same blocks; the caches may have filled up by reading. */
  predicate SameBlocks(a: seq<Layer>, b: seq<Layer>) {
    |a| == |b| && forall i :: 0 <= i < |a| ==> a[i].number == b[i].number && a[i].block == b[i].block
  }

  ghost predicate Proper(s: Snapshot) {
    Seen(s.attached, s.worlds, s.layers) && Ordered(s.rounds) && (s.attached ==> HasHalf(s.rounds))
  }

  /** What one call does. */
  ghost predicate Follows(s: Snapshot, call: Call, t: Snapshot)
    requires Proper(s)
  {
    match call
    case Process(block, txs, producer, bonus, now) =>
      && t.worlds == Step(s.worlds, Execute(txs, producer, bonus, now)) && t.rounds == s.rounds && t.attached == s.attached
      && SameBlocks(t.layers, if |t.worlds| > |s.worlds| then s.layers + [Layer(block.number, block, NOTHING)] else s.layers)
    case CancelTop =>
      && t.worlds == Step(s.worlds, Cancel) && t.rounds == s.rounds && t.attached == (s.attached && t.layers != [])
      && SameBlocks(t.layers, if s.layers == [] then [] else s.layers[..|s.layers| - 1])
    case Solidify(number, states) =>
      && t.worlds == WorldsAfter(s.attached, s.worlds, s.layers, number, states)
      && t.layers == s.layers[Taken(s.layers, number, states)..]
      && t.rounds == s.rounds + Rounds(s.attached, s.layers, number, states)
      && (t.attached <==> t.layers != [] && if Due(s.layers, number) then !Complete(s.layers, number, states) else s.attached)
  }

  const NOTHING := World(map[], map[], map[])

  /** The chain starts with nothing in memory, and every call is made in the state the last one left. */
  ghost predicate Run(calls: seq<Call>, ss: seq<Snapshot>) {
    && |ss| == |calls| + 1 && ss[0].layers == [] && !ss[0].attached && ss[0].rounds == []
    && (forall i :: 0 <= i < |ss| ==> Proper(ss[i]))
    && (forall i :: 0 <= i < |calls| ==> Follows(ss[i], calls[i], NextOf(ss, i)))
  }

  function NextOf(ss: seq<Snapshot>, i: nat): Snapshot
    requires i + 1 < |ss|
  {
    ss[i + 1]
  }

  // ---------------------------------------------------------------------- what is seen

  /** The operation on worlds that a call should be. */
  function FlatOp(s: Snapshot, call: Call): Op {
    match call
    case Process(block, txs, producer, bonus, now) => Execute(txs, producer, bonus, now)
    case CancelTop => Cancel
    case Solidify(number, states) => LedgerRuns.Solidify(Taken(s.layers, number, states))
  }

  function FlatOps(ss: seq<Snapshot>, calls: seq<Call>): (ops: seq<Op>)
    requires |ss| == |calls| + 1
    ensures |ops| == |calls| && forall i :: 0 <= i < |calls| ==> ops[i] == FlatOp(ss[i], calls[i])
  {
    seq(|calls|, i requires 0 <= i < |calls| => FlatOp(ss[i], calls[i]))
  }

  /**
   * What has to hold before a call for it to do no more than its operation on worlds: a
   * solidify call finds a front without a parent, or nothing due, or later blocks that set
   * anew whatever the disk and the front see differently.
   */
  ghost predicate Fits(s: Snapshot, call: Call)
    requires Proper(s)
  {
    call.Solidify? && s.attached ==>
      var t := Taken(s.layers, call.number, call.states);
      t == 0 || Covered(s.worlds[0], s.worlds[1], CachesOf(s.layers)[1..t])
  }

  lemma CallExact(s: Snapshot, call: Call, t: Snapshot)
    requires Proper(s) && Follows(s, call, t)
    ensures t.worlds == Step(s.worlds, FlatOp(s, call)) <==> Fits(s, call)
  {
    hide Covered, Layered, WorldsAfter, Rounds, Complete;
    if call.Solidify? {
      ViewsKeptExact(s.attached, s.worlds, s.layers, call.number, call.states);
    }
  }

  /** Over any run, every call does no more than its operation on worlds if and only if it fits where it is made. */
  lemma RunExact(calls: seq<Call>, ss: seq<Snapshot>)
    requires Run(calls, ss)
    ensures (forall i :: 0 <= i < |calls| ==> NextOf(ss, i).worlds == Step(ss[i].worlds, FlatOp(ss[i], calls[i]))) <==>
            (forall i :: 0 <= i < |calls| ==> Fits(ss[i], calls[i]))
  {
    hide Follows, Fits, Step, FlatOp, Ordered, HasHalf;
    forall i | 0 <= i < |calls|
      ensures NextOf(ss, i).worlds == Step(ss[i].worlds, FlatOp(ss[i], calls[i])) <==> Fits(ss[i], calls[i])
    {
      CallExact(ss[i], calls[i], NextOf(ss, i));
    }
  }

  /** If every call fits, the run is the run of operations on worlds. */
  lemma {:induction false} FittingRun(calls: seq<Call>, ss: seq<Snapshot>, n: nat)
    requires Run(calls, ss) && n <= |calls| && forall i :: 0 <= i < n ==> Fits(ss[i], calls[i])
    ensures ss[0].worlds != [] && ss[n].worlds == After(ss[0].worlds, FlatOps(ss, calls)[..n])
    decreases n
  {
    hide Follows, Fits, Step, FlatOp, FlatOps, Seen, Ordered, HasHalf;
    WorldsNonempty(ss[0]);
    if n > 0 {
      FittingRun(calls, ss, n - 1);
      CallExact(ss[n - 1], calls[n - 1], NextOf(ss, n - 1));
      var ops := FlatOps(ss, calls);
      AfterSnoc(ss[0].worlds, ops[..n - 1], ops[n - 1]);
      assert ops[..n] == ops[..n - 1] + [ops[n - 1]];
    }
  }

  lemma WorldsNonempty(s: Snapshot)
    requires Proper(s)
    ensures s.worlds != []
  {
  }

  lemma {:induction false} AfterSnoc(worlds: seq<World>, run: seq<Op>, op: Op)
    requires worlds != []
    ensures After(worlds, run + [op]) == Step(After(worlds, run), op)
    decreases |run|
  {
    hide Step;
    if run != [] {
      AfterSnoc(Step(worlds, run[0]), run[1..], op);
      assert (run + [op])[1..] == run[1..] + [op];
    }
  }

  /** In a run whose calls fit, votes stay in double entry and balances in range in every world. */
  lemma FittingRunBalanced(calls: seq<Call>, ss: seq<Snapshot>, n: nat, start: map<Address, nat>)
    requires Run(calls, ss) && n <= |calls| && forall i :: 0 <= i < n ==> Fits(ss[i], calls[i])
    requires AllBalanced(ss[0].worlds, start) && forall i :: 0 <= i < |calls| ==> GoodOp(FlatOp(ss[i], calls[i]))
    ensures AllBalanced(ss[n].worlds, start)
  {
    hide Fits, AllBalanced, GoodOp, FlatOp, Follows, Proper;
    FittingRun(calls, ss, n);
    RunBalanced(ss[0].worlds, FlatOps(ss, calls)[..n], start);
  }

  // ------------------------------------------------------------------- what is on disk

  /** A solidify call that misses a block state. */
  predicate Fails(s: Snapshot, call: Call) {
    call.Solidify? && !Complete(s.layers, call.number, call.states)
  }

  /** A solidify call whose first block due has its state. */
  predicate Advances(s: Snapshot, call: Call) {
    call.Solidify? && Due(s.layers, call.number) && s.layers[0].number in call.states
  }

  /** No call advances after one that failed. */
  ghost predicate StopsAtFailure(calls: seq<Call>, ss: seq<Snapshot>, n: nat)
    requires n <= |calls| && |ss| == |calls| + 1
  {
    forall i, j :: 0 <= i < j < n && Fails(ss[i], calls[i]) ==> !Advances(ss[j], calls[j])
  }

  /** A round without its block state has happened if and only if some call has failed. */
  lemma {:induction false} HalfIfFailed(calls: seq<Call>, ss: seq<Snapshot>, n: nat)
    requires Run(calls, ss) && n <= |calls|
    ensures HasHalf(ss[n].rounds) <==> exists i :: 0 <= i < n && Fails(ss[i], calls[i])
    decreases n
  {
    hide HasHalf, Fails, Seen, Ordered, Follows;
    if n == 0 {
      NoHalf();
    } else {
      HalfIfFailed(calls, ss, n - 1);
      HalfStep(ss[n - 1], calls[n - 1], NextOf(ss, n - 1));
    }
  }

  lemma HalfStep(s: Snapshot, call: Call, t: Snapshot)
    requires Proper(s) && Follows(s, call, t)
    ensures HasHalf(t.rounds) <==> HasHalf(s.rounds) || Fails(s, call)
    ensures Sound(t.rounds) <==> Sound(s.rounds) && !(HasHalf(s.rounds) && Advances(s, call))
  {
    hide HasHalf, Sound, Ordered, Seen, WorldsAfter, Rounds, Complete;
    if call.Solidify? {
      SoundCallExact(s.rounds, s.attached, s.layers, call.number, call.states);
      if HasHalf(s.rounds) {
        LateRounds(s.rounds, s.attached, s.layers, call.number, call.states);
      } else {
        AllSoundWithoutHalf(s.rounds);
        CleanRounds(s.rounds, s.layers, call.number, call.states);
      }
    }
  }

  /** The rounds stay sound exactly as long as no call advances after one that failed. */
  lemma {:induction false} SoundIfStops(calls: seq<Call>, ss: seq<Snapshot>, n: nat)
    requires Run(calls, ss) && n <= |calls|
    ensures Sound(ss[n].rounds) <==> StopsAtFailure(calls, ss, n)
    decreases n
  {
    hide HasHalf, Sound, Fails, Advances, Seen, Ordered, Follows;
    if n == 0 {
      NoHalf();
    } else {
      SoundIfStops(calls, ss, n - 1);
      HalfIfFailed(calls, ss, n - 1);
      HalfStep(ss[n - 1], calls[n - 1], NextOf(ss, n - 1));
    }
  }

  /** As long as no call has failed, no front keeps a parent, and the next call fits. */
  lemma FitsUntilFailure(calls: seq<Call>, ss: seq<Snapshot>, n: nat)
    requires Run(calls, ss) && n <= |calls| && forall i :: 0 <= i < n ==> !Fails(ss[i], calls[i])
    ensures !ss[n].attached && (n < |calls| ==> Fits(ss[n], calls[n]))
  {
    hide Follows, Seen, Ordered, HasHalf, Fails;
    HalfIfFailed(calls, ss, n);
  }

  // --------------------------------------------------------------- the numbers of blocks

  /** Block states are filed under their own numbers. */
  predicate StatesNumbered(states: States) {
    forall n :: n in states ==> states[n].number == n
  }

  /** The number a round puts on disk, if any. */
  predicate Below(e: Episode, n: nat) {
    (e.Half? ==> e.block.number < n) && (Closes(e) ==> StateNumber(e) < n)
  }

  ghost predicate AllBelow(es: seq<Episode>, n: nat) {
    forall i :: 0 <= i < |es| ==> Below(es[i], n)
  }

  /** Blocks in memory have growing numbers, new to the disk. */
  ghost predicate Growing(disk: Store, es: seq<Episode>, ls: seq<Layer>) {
    && (forall i :: 0 <= i < |ls| ==> ls[i].number == ls[i].block.number && ls[i].number !in disk.stateIndex && AllBelow(es, ls[i].number))
    && (forall i, j :: 0 <= i < j < |ls| ==> ls[i].number < ls[j].number)
  }

  ghost predicate FullsNumbered(es: seq<Episode>) {
    forall i :: 0 <= i < |es| && es[i].Full? ==> es[i].item.block.number == es[i].item.state.number
  }

  /** A block is executed under a number larger than those in memory and on disk, and block states are numbered. */
  ghost predicate CallNumbered(disk: Store, s: Snapshot, call: Call) {
    match call
    case Process(block, _, _, _, _) =>
      && block.number !in disk.stateIndex && AllBelow(s.rounds, block.number)
      && forall i :: 0 <= i < |s.layers| ==> s.layers[i].number < block.number
    case CancelTop => true
    case Solidify(_, states) => StatesNumbered(states)
  }

  ghost predicate Numbers(disk: Store, es: seq<Episode>, ls: seq<Layer>) {
    Growing(disk, es, ls) && NewNumbers(disk, es) && FullsNumbered(es)
  }

  lemma NumberedRound(disk: Store, es: seq<Episode>, attached: bool, ls: seq<Layer>, states: States)
    requires Numbers(disk, es, ls) && StatesNumbered(states) && ls != []
    ensures Numbers(disk, es + [FrontRound(attached, ls, states)], ls[1..])
  {
    var e := FrontRound(attached, ls, states);
    var all := es + [e];
    forall i | 0 <= i < |ls[1..]| ensures AllBelow(all, ls[1..][i].number) {
      assert ls[1..][i] == ls[i + 1] && AllBelow(es, ls[i + 1].number);
    }
    assert AllBelow(es, ls[0].number);
    forall i, j | 0 <= i < |all| && 0 <= j < |all| && all[i].Half? && Closes(all[j])
      ensures all[i].block.number != StateNumber(all[j])
    {
      assert i < |es| ==> Below(es[i], ls[0].number);
      assert j < |es| ==> Below(es[j], ls[0].number);
    }
  }

  lemma {:induction false} NumberedRounds(disk: Store, es: seq<Episode>, attached: bool, ls: seq<Layer>, number: nat, states: States)
    requires Numbers(disk, es, ls) && StatesNumbered(states)
    ensures Numbers(disk, es + Rounds(attached, ls, number, states), ls[Taken(ls, number, states)..])
    decreases |ls|
  {
    hide Numbers, StatesNumbered, FrontRound;
    if Due(ls, number) {
      var e := FrontRound(attached, ls, states);
      NumberedRound(disk, es, attached, ls, states);
      if ls[0].number in states {
        NumberedRounds(disk, es + [e], false, ls[1..], number, states);
        assert es + Rounds(attached, ls, number, states) == es + [e] + Rounds(false, ls[1..], number, states);
        assert ls[1..][Taken(ls[1..], number, states)..] == ls[Taken(ls, number, states)..];
      } else {
        assert Rounds(attached, ls, number, states) == [e];
      }
    } else {
      assert es + [] == es && ls[0..] == ls;
    }
  }

  lemma NumberedStep(disk: Store, s: Snapshot, call: Call, t: Snapshot)
    requires Proper(s) && Follows(s, call, t) && CallNumbered(disk, s, call) && Numbers(disk, s.rounds, s.layers)
    ensures Numbers(disk, t.rounds, t.layers)
  {
    hide Seen, Ordered, HasHalf, WorldsAfter, Rounds, Taken, Complete, Step, NewNumbers, FullsNumbered, AllBelow;
    match call
    case Process(block, _, _, _, _) =>
      NumberedLayers(disk, s.rounds, s.layers, block, t.layers);
    case CancelTop =>
    case Solidify(number, states) =>
      NumberedRounds(disk, s.rounds, s.attached, s.layers, number, states);
  }

  lemma NumberedLayers(disk: Store, es: seq<Episode>, ls: seq<Layer>, block: Block, ms: seq<Layer>)
    requires Growing(disk, es, ls) && block.number !in disk.stateIndex && AllBelow(es, block.number)
    requires forall i :: 0 <= i < |ls| ==> ls[i].number < block.number
    requires SameBlocks(ms, ls) || SameBlocks(ms, ls + [Layer(block.number, block, NOTHING)])
    ensures Growing(disk, es, ms)
  {
    hide AllBelow;
  }

  lemma {:induction false} NumberedRun(disk: Store, calls: seq<Call>, ss: seq<Snapshot>, n: nat)
    requires Run(calls, ss) && n <= |calls| && forall i :: 0 <= i < n ==> CallNumbered(disk, ss[i], calls[i])
    ensures Numbers(disk, ss[n].rounds, ss[n].layers)
    decreases n
  {
    hide Follows, Proper, CallNumbered;
    if n > 0 {
      NumberedRun(disk, calls, ss, n - 1);
      NumberedStep(disk, ss[n - 1], calls[n - 1], NextOf(ss, n - 1));
    }
  }

  lemma {:induction false} NumberedFulls(es: seq<Episode>)
    requires FullsNumbered(es)
    ensures Numbered(Fulls(es))
  {
    if es != [] && es[0].Full? {
      assert forall i :: 0 <= i < |es[1..]| ==> es[1..][i] == es[i + 1];
      NumberedFulls(es[1..]);
    }
  }

  /**
   * Over any run in which blocks are executed under growing numbers: wherever the writes are
   * cut, a clean flag means a whole number of blocks, if and only if no solidify call
   * advances after one that failed.
   */
  lemma RunCrashSafeExact(disk: Store, calls: seq<Call>, ss: seq<Snapshot>, ws: seq<seq<Write>>)
    requires Run(calls, ss) && Journal(disk, ss[|calls|].rounds, ws) && Indexed(disk)
    requires forall i :: 0 <= i < |calls| ==> CallNumbered(disk, ss[i], calls[i])
    ensures (exists items :: Numbered(items) && CrashSafe(disk, items, Flat(ws))) <==> StopsAtFailure(calls, ss, |calls|)
  {
    hide Follows, Seen, CallNumbered, Journal, Flat, CrashSafe, StopsAtFailure, Sound, NewNumbers, FullsNumbered, Growing, Ordered, HasHalf, Indexed, Numbered, Fulls;
    var es := ss[|calls|].rounds;
    NumberedRun(disk, calls, ss, |calls|);
    NumberedFulls(es);
    CrashSafeExact(disk, es, ws);
    SoundIfStops(calls, ss, |calls|);
  }

  /** The safe direction needs nothing of the numbers. */
  lemma RunCrashSafe(disk: Store, calls: seq<Call>, ss: seq<Snapshot>, ws: seq<seq<Write>>)
    requires Run(calls, ss) && Journal(disk, ss[|calls|].rounds, ws) && StopsAtFailure(calls, ss, |calls|)
    ensures CrashSafe(disk, Fulls(ss[|calls|].rounds), Flat(ws))
  {
    hide Follows, Seen, Journal, Flat, CrashSafe, StopsAtFailure, Sound, Ordered, HasHalf, Fulls;
    SoundIfStops(calls, ss, |calls|);
    SoundIsSafe(disk, ss[|calls|].rounds, ws);
  }

  /** Until then the flag on disk is up exactly after a call has failed, so the caller can tell. */
  lemma FlagOfRun(disk: Store, calls: seq<Call>, ss: seq<Snapshot>, n: nat)
    requires Run(calls, ss) && n <= |calls| && !disk.dirty && StopsAtFailure(calls, ss, n)
    ensures AfterAll(disk, ss[n].rounds).dirty <==> exists i :: 0 <= i < n && Fails(ss[i], calls[i])
  {
    hide Follows, Seen, StopsAtFailure, Sound, Ordered, HasHalf, Fails, AfterAll;
    SoundIfStops(calls, ss, n);
    HalfIfFailed(calls, ss, n);
    FlagTells(disk, ss[n].rounds);
  }
}
