/**
 * The ledger over whole runs: the world on disk and the world after each block in
 * memory, under any sequence of executed, cancelled and solidified blocks.
 */
module LedgerRuns {
  import opened Bytes
  import opened Sums
  import opened Ledger
  import opened Supply
  import opened Votes

  datatype Op =
    | Execute(txs: seq<Transaction>, producer: Address, bonus: nat, now: int)
    | Cancel
    | Solidify(count: nat)

  /** Some transaction of the block is in the world already. */
  predicate Known(w: World, txs: seq<Transaction>) {
    exists i :: 0 <= i < |txs| && txs[i].id in w.transactions
  }

  /** The worlds after one operation; a block that throws leaves them as they were. */
  function Step(worlds: seq<World>, op: Op): (next: seq<World>)
    requires worlds != []
    ensures next != []
  {
    match op
    case Execute(txs, producer, bonus, now) =>
      var newest := worlds[|worlds| - 1];
      if Known(newest, txs) then worlds else
        (match DoBlock(newest, txs, producer, bonus, now)
         case Thrown => worlds
         case Done(w) => worlds + [w])
    case Cancel => if |worlds| == 1 then worlds else worlds[..|worlds| - 1]
    case Solidify(count) => if count < |worlds| then worlds[count..] else worlds
  }

  /** Amounts are 64-bit numbers, and ballots repeat no candidate after votes and have amounts that do not wrap. */
  predicate GoodOp(op: Op) {
    op.Execute? ==>
      && op.bonus < TWO_64
      && forall i :: 0 <= i < |op.txs| ==> GoodBallot(op.txs[i]) && ValueBounded(op.txs[i])
  }

  ghost predicate AllBalanced(worlds: seq<World>, start: map<Address, nat>) {
    forall i :: 0 <= i < |worlds| ==> Balanced(worlds[i], start)
  }

  lemma StepBalanced(worlds: seq<World>, op: Op, start: map<Address, nat>)
    requires worlds != [] && AllBalanced(worlds, start) && GoodOp(op)
    ensures AllBalanced(Step(worlds, op), start)
  {
    hide Balanced, DoBlock, GoodBallot, ValueBounded, Known;
    if op.Execute? {
      var newest := worlds[|worlds| - 1];
      if DoBlock(newest, op.txs, op.producer, op.bonus, op.now).Done? {
        BlockKeeps(newest, start, op.txs, op.producer, op.bonus, op.now);
      }
    }
  }

  function After(worlds: seq<World>, run: seq<Op>): (next: seq<World>)
    requires worlds != []
    ensures next != []
    decreases |run|
  {
    if run == [] then worlds else After(Step(worlds, run[0]), run[1..])
  }

  /** In every world of every run, on disk or in memory, votes are in double entry and balances fit in 64 bits. */
  lemma {:induction false} RunBalanced(worlds: seq<World>, run: seq<Op>, start: map<Address, nat>)
    requires worlds != [] && AllBalanced(worlds, start) && forall i :: 0 <= i < |run| ==> GoodOp(run[i])
    ensures AllBalanced(After(worlds, run), start)
    decreases |run|
  {
    hide AllBalanced, Step, GoodOp;
    if run != [] {
      StepBalanced(worlds, run[0], start);
      assert forall i :: 0 <= i < |run[1..]| ==> run[1..][i] == run[i + 1];
      RunBalanced(Step(worlds, run[0]), run[1..], start);
    }
  }

  // ------------------------------------------------------------- where each world comes from

  /** Executing a sequence of blocks, one on top of the other. */
  function ExecuteAll(w: World, blocks: seq<Op>): Outcome {
    if blocks == [] then Done(w) else
      var op := blocks[|blocks| - 1];
      match ExecuteAll(w, blocks[..|blocks| - 1])
      case Thrown => Thrown
      case Done(v) => if op.Execute? then DoBlock(v, op.txs, op.producer, op.bonus, op.now) else Thrown
  }

  lemma ExecuteSnoc(w: World, blocks: seq<Op>, op: Op)
    requires op.Execute? && ExecuteAll(w, blocks).Done?
    ensures ExecuteAll(w, blocks + [op]) == DoBlock(ExecuteAll(w, blocks).world, op.txs, op.producer, op.bonus, op.now)
  {
    assert (blocks + [op])[..|blocks|] == blocks;
  }

  /** The blocks behind each world: an executed block is added to those behind the newest, a cancelled one forgotten. */
  function StepHistories(worlds: seq<World>, histories: seq<seq<Op>>, op: Op): (next: seq<seq<Op>>)
    requires |histories| == |worlds| > 0
    ensures |next| == |Step(worlds, op)|
  {
    match op
    case Execute(_, _, _, _) =>
      if |Step(worlds, op)| > |worlds| then histories + [histories[|histories| - 1] + [op]] else histories
    case Cancel => if |worlds| == 1 then histories else histories[..|worlds| - 1]
    case Solidify(count) => if count < |worlds| then histories[count..] else histories
  }

  function Histories(worlds: seq<World>, histories: seq<seq<Op>>, run: seq<Op>): (next: seq<seq<Op>>)
    requires |histories| == |worlds| > 0
    ensures |next| == |After(worlds, run)|
    decreases |run|
  {
    if run == [] then histories
    else Histories(Step(worlds, run[0]), StepHistories(worlds, histories, run[0]), run[1..])
  }

  ghost predicate Explained(first: World, worlds: seq<World>, histories: seq<seq<Op>>) {
    && |histories| == |worlds|
    && forall i :: 0 <= i < |worlds| ==> ExecuteAll(first, histories[i]) == Done(worlds[i])
  }

  lemma StepExplained(first: World, worlds: seq<World>, histories: seq<seq<Op>>, op: Op)
    requires worlds != [] && Explained(first, worlds, histories)
    ensures Explained(first, Step(worlds, op), StepHistories(worlds, histories, op))
  {
    hide DoBlock, Known, ExecuteAll;
    if op.Execute? {
      var n := |worlds| - 1;
      assert ExecuteAll(first, histories[n]) == Done(worlds[n]);
      ExecuteSnoc(first, histories[n], op);
    }
  }

  /** Every world of every run, on disk or in memory, is what its own blocks make of the first, one on top of the other. */
  lemma {:induction false} RunExplained(first: World, worlds: seq<World>, histories: seq<seq<Op>>, run: seq<Op>)
    requires worlds != [] && Explained(first, worlds, histories)
    ensures Explained(first, After(worlds, run), Histories(worlds, histories, run))
    decreases |run|
  {
    hide Explained, Step, StepHistories;
    if run != [] {
      assert |histories| == |worlds| by { ExplainedLength(first, worlds, histories); }
      StepExplained(first, worlds, histories, run[0]);
      RunExplained(first, Step(worlds, run[0]), StepHistories(worlds, histories, run[0]), run[1..]);
    }
  }

  lemma ExplainedLength(first: World, worlds: seq<World>, histories: seq<seq<Op>>)
    requires Explained(first, worlds, histories)
    ensures |histories| == |worlds|
  {
  }

  // ----------------------------------------------------------------- the supply of a world

  function Bonuses(blocks: seq<Op>): nat {
    if blocks == [] then 0
    else Bonuses(blocks[..|blocks| - 1]) + if blocks[|blocks| - 1].Execute? then blocks[|blocks| - 1].bonus else 0
  }

  function AllFees(blocks: seq<Op>): nat {
    if blocks == [] then 0
    else AllFees(blocks[..|blocks| - 1]) + if blocks[|blocks| - 1].Execute? then Fees(blocks[|blocks| - 1].txs) else 0
  }

  function AllMinted(blocks: seq<Op>): nat {
    if blocks == [] then 0
    else AllMinted(blocks[..|blocks| - 1]) + if blocks[|blocks| - 1].Execute? then MintedByAll(blocks[|blocks| - 1].txs) else 0
  }

  /** The bonus takes the balance of the block's producer over 2^64. */
  predicate BonusWraps(w: World, op: Op)
    requires op.Execute?
  {
    var u := DoAll(w, op.txs, op.now);
    u.Done? && BalanceOf(u.world, op.producer) + op.bonus >= TWO_64
  }

  /** In how many of the blocks that happens. */
  function Wraps(w: World, blocks: seq<Op>): nat {
    if blocks == [] then 0 else
      var op, v := blocks[|blocks| - 1], ExecuteAll(w, blocks[..|blocks| - 1]);
      Wraps(w, blocks[..|blocks| - 1]) + if op.Execute? && v.Done? && BonusWraps(v.world, op) then 1 else 0
  }

  /** Amounts are 64-bit numbers. */
  predicate BoundedBlock(op: Op) {
    op.Execute? && op.bonus < TWO_64 && forall i :: 0 <= i < |op.txs| ==> ValueBounded(op.txs[i])
  }

  /**
   * The account of any number of blocks, whatever they hold: the bonuses and what transfers
   * to oneself made up, less the fees, the cost of the producers that were added and 2^64
   * for each bonus that wrapped.
   */
  lemma {:induction false} AccountOfBlocks(w: World, blocks: seq<Op>)
    requires Bounded(w) && ExecuteAll(w, blocks).Done? && forall i :: 0 <= i < |blocks| ==> BoundedBlock(blocks[i])
    ensures var v := ExecuteAll(w, blocks).world;
            && Bounded(v) && |v.producers| >= |w.producers|
            && Total(v) + AllFees(blocks) + PRODUCER_COST * (|v.producers| - |w.producers|) + TWO_64 * Wraps(w, blocks)
               == Total(w) + Bonuses(blocks) + AllMinted(blocks)
    decreases |blocks|
  {
    hide Total, Bounded, DoBlock, DoAll, Fees, MintedByAll;
    if blocks != [] {
      var n := |blocks| - 1;
      var op := blocks[n];
      assert BoundedBlock(op);
      AccountOfBlocks(w, blocks[..n]);
      var u := ExecuteAll(w, blocks[..n]).world;
      BlockDone(u, op);
      BlockTotal(u, op.txs, op.producer, op.bonus, op.now);
    }
  }

  lemma BlockDone(w: World, op: Op)
    requires op.Execute? && DoBlock(w, op.txs, op.producer, op.bonus, op.now).Done?
    ensures DoAll(w, op.txs, op.now).Done?
  {
  }

  /** And so for every world of every run that starts with one world on disk. */
  lemma RunAccount(first: World, run: seq<Op>, i: nat)
    requires Bounded(first) && i < |After([first], run)|
    requires var h := Histories([first], [[]], run)[i]; forall j :: 0 <= j < |h| ==> BoundedBlock(h[j])
    ensures var w, h := After([first], run)[i], Histories([first], [[]], run)[i];
            && |w.producers| >= |first.producers|
            && Total(w) + AllFees(h) + PRODUCER_COST * (|w.producers| - |first.producers|) + TWO_64 * Wraps(first, h)
               == Total(first) + Bonuses(h) + AllMinted(h)
  {
    hide Total, Bounded, After, Histories, Bonuses, AllFees, AllMinted, Wraps, BoundedBlock;
    RunExplained(first, [first], [[]], run);
    AccountOfBlocks(first, Histories([first], [[]], run)[i]);
  }

  /** Blocks with 64-bit amounts and no transfer to oneself. */
  predicate PlainBlocks(blocks: seq<Op>) {
    forall i :: 0 <= i < |blocks| ==> PlainBlock(blocks[i])
  }

  predicate PlainBlock(op: Op) {
    op.Execute? && forall i :: 0 <= i < |op.txs| ==> ValueBounded(op.txs[i]) && TwoParties(op.txs[i])
  }

  /**
   * The supply over any number of blocks: as long as the first total and all bonuses fit in
   * 64 bits, the total is the first one and the bonuses, less the fees and the cost of the
   * producers that were added.
   */
  lemma {:induction false} SupplyOfBlocks(w: World, blocks: seq<Op>)
    requires Bounded(w) && PlainBlocks(blocks) && Total(w) + Bonuses(blocks) < TWO_64 && ExecuteAll(w, blocks).Done?
    ensures var v := ExecuteAll(w, blocks).world;
            && Bounded(v) && |v.producers| >= |w.producers|
            && Total(v) + AllFees(blocks) + PRODUCER_COST * (|v.producers| - |w.producers|) == Total(w) + Bonuses(blocks)
    decreases |blocks|
  {
    hide Total, Bounded, DoBlock, Fees;
    if blocks != [] {
      var n := |blocks| - 1;
      var op := blocks[n];
      assert PlainBlock(op);
      SupplyOfBlocks(w, blocks[..n]);
      var u := ExecuteAll(w, blocks[..n]).world;
      ProductNonNegative(|u.producers| - |w.producers|);
      SupplyConserved(u, op.txs, op.producer, op.bonus, op.now);
      BlockTotal(u, op.txs, op.producer, op.bonus, op.now);
    }
  }

  /** And so for every world of every run that starts with one world on disk. */
  lemma RunSupply(first: World, run: seq<Op>, i: nat)
    requires Bounded(first) && i < |After([first], run)|
    requires var h := Histories([first], [[]], run)[i]; PlainBlocks(h) && Total(first) + Bonuses(h) < TWO_64
    ensures var w, h := After([first], run)[i], Histories([first], [[]], run)[i];
            && |w.producers| >= |first.producers|
            && Total(w) + AllFees(h) + PRODUCER_COST * (|w.producers| - |first.producers|) == Total(first) + Bonuses(h)
  {
    hide Total, Bounded, After, Histories, Bonuses, AllFees, PlainBlocks;
    RunExplained(first, [first], [[]], run);
    SupplyOfBlocks(first, Histories([first], [[]], run)[i]);
  }
}
