/** Who pays and who is paid, and what else a transaction changes. */
module Payments {
  import opened Bytes
  import opened Sums
  import opened Ledger
  import opened Supply
  import opened Votes
  import opened LedgerRuns

  /** Account `a` is as it was but for a balance that has changed by `change`; it may be new. */
  predicate Paid(w: World, v: World, a: Address, change: int) {
    && a in v.accounts && v.accounts[a].balance == BalanceOf(w, a) + change
    && (a in w.accounts ==> v.accounts[a] == w.accounts[a].(balance := v.accounts[a].balance))
    && (a !in w.accounts ==> v.accounts[a].votes == 0 && v.accounts[a].candidates == map[])
  }

  /** Account `a` is as it was, or still missing. */
  predicate Untouched(w: World, v: World, a: Address) {
    (a in v.accounts <==> a in w.accounts) && (a in w.accounts ==> v.accounts[a] == w.accounts[a])
  }

  ghost predicate OthersUntouched(w: World, v: World, parties: set<Address>) {
    forall a :: a !in parties ==> Untouched(w, v, a)
  }

  /** A transfer between two parties: when it throws, and who pays whom. */
  lemma SendExact(w: World, from: Address, to: Address, value: nat, now: int)
    requires Bounded(w) && value < TWO_64 && from != to
    ensures var r := Send(w, from, to, value, now);
            && (r.Thrown? <==> from !in w.accounts || w.accounts[from].balance < value || BalanceOf(w, to) + value >= TWO_64)
            && (r.Done? ==>
                  && Paid(w, r.world, from, 0 - value) && Paid(w, r.world, to, value)
                  && OthersUntouched(w, r.world, {from, to}) && (to !in w.accounts ==> r.world.accounts[to].created == now)
                  && r.world.producers == w.producers && r.world.transactions == w.transactions)
  {
    BalanceBounded(w, to);
  }

  /** A transfer to oneself: it needs the value and adds it. */
  lemma SelfSendExact(w: World, a: Address, value: nat, now: int)
    requires Bounded(w) && value < TWO_64
    ensures var r := Send(w, a, a, value, now);
            && (r.Thrown? <==> a !in w.accounts || w.accounts[a].balance < value || w.accounts[a].balance + value >= TWO_64)
            && (r.Done? ==> Paid(w, r.world, a, value) && OthersUntouched(w, r.world, {a}))
  {
    BalanceBounded(w, a);
  }

  lemma BurnExact(w: World, a: Address, value: nat)
    ensures var r := Burn(w, a, value);
            && (r.Thrown? <==> a !in w.accounts || w.accounts[a].balance < value)
            && (r.Done? ==>
                  && Paid(w, r.world, a, 0 - value) && OthersUntouched(w, r.world, {a})
                  && r.world.producers == w.producers && r.world.transactions == w.transactions)
  {
  }

  /** The bonus goes to the producer of the block, in 64-bit arithmetic, and throws only for a missing account. */
  lemma BonusExact(w: World, a: Address, value: nat)
    requires Bounded(w) && value < TWO_64
    ensures var r := Bonus(w, a, value);
            && (r.Thrown? <==> a !in w.accounts)
            && (r.Done? ==>
                  && Paid(w, r.world, a, if BalanceOf(w, a) + value < TWO_64 then value else value - TWO_64)
                  && OthersUntouched(w, r.world, {a})
                  && r.world.producers == w.producers && r.world.transactions == w.transactions)
  {
    BalanceBounded(w, a);
  }

  /** A transfer transaction: the sender pays the value and a fee of 500000, the recipient gets the value. */
  lemma TransferExact(w: World, sender: Address, to: Address, value: nat, now: int)
    requires Bounded(w) && value < TWO_64 && sender != to
    ensures var r := DoTransfer(w, sender, to, value, now);
            && (r.Thrown? <==> sender !in w.accounts || w.accounts[sender].balance < value + 500000 || BalanceOf(w, to) + value >= TWO_64)
            && (r.Done? ==>
                  && Paid(w, r.world, sender, 0 - value - 500000) && Paid(w, r.world, to, value)
                  && OthersUntouched(w, r.world, {sender, to})
                  && r.world.producers == w.producers && r.world.transactions == w.transactions)
  {
    hide Send, Burn;
    BurnExact(w, sender, TRANSACTION_FEE);
    if Burn(w, sender, TRANSACTION_FEE).Done? {
      var v := Burn(w, sender, TRANSACTION_FEE).world;
      BurnTotal(w, sender, TRANSACTION_FEE);
      SendExact(v, sender, to, value, now);
      assert Untouched(w, v, to);
    }
  }

  /** Becoming a producer: a fee of 500000, and for a new one 1024000000 more and an entry without votes. */
  lemma BeenProducerExact(w: World, sender: Address, now: int)
    ensures var r := DoBeenProducer(w, sender, now);
            var cost := if sender in w.producers then 500000 else 1024500000;
            && (r.Thrown? <==> sender !in w.accounts || w.accounts[sender].balance < cost)
            && (r.Done? ==>
                  && Paid(w, r.world, sender, 0 - cost) && OthersUntouched(w, r.world, {sender})
                  && r.world.producers == (if sender in w.producers then w.producers else w.producers[sender := Producer(0, map[], now)]))
  {
  }

  // ----------------------------------------------------------------------------- votes

  function Ballot(m: map<Address, nat>, ballot: seq<(Address, nat)>): map<Address, nat>
    decreases |ballot|
  {
    if ballot == [] then m else Ballot(m[ballot[0].0 := ballot[0].1], ballot[1..])
  }

  function BallotSum(ballot: seq<(Address, nat)>): nat {
    if ballot == [] then 0 else ballot[0].1 + BallotSum(ballot[1..])
  }

  predicate AllProducers(w: World, ballot: seq<(Address, nat)>) {
    forall i :: 0 <= i < |ballot| ==> ballot[i].0 in w.producers
  }

  /** What one vote leaves alone. */
  lemma VoteFrame(w: World, voter: Address, c: Address, x: nat)
    requires VoteIncrease(w, voter, c, x).Done?
    ensures var v := VoteIncrease(w, voter, c, x).world;
            && OthersUntouched(w, v, {voter}) && voter in v.accounts && v.accounts[voter].balance == w.accounts[voter].balance
            && v.producers.Keys == w.producers.Keys && v.accounts[voter].candidates == w.accounts[voter].candidates[c := x]
            && v.transactions == w.transactions
  {
  }

  /** Votes are cast if and only if every candidate is a producer and the balance covers a million for each vote, old and new. */
  lemma {:induction false} CastExact(w: World, voter: Address, ballot: seq<(Address, nat)>)
    requires voter in w.accounts && Covered(w.accounts[voter]) && AmountsFit(ballot)
    ensures CastAll(w, voter, ballot).Done? <==>
            AllProducers(w, ballot) && (w.accounts[voter].votes + BallotSum(ballot)) * 1000000 <= w.accounts[voter].balance
    decreases |ballot|
  {
    if ballot != [] {
      var (c, x) := ballot[0];
      var rest := ballot[1..];
      assert forall i :: 0 <= i < |rest| ==> rest[i] == ballot[i + 1];
      assert ballot[0].0 == c;
      if c in w.producers {
        VoteCheckExact(w, voter, c, x);
        if VoteIncrease(w, voter, c, x).Done? {
          var v := VoteIncrease(w, voter, c, x).world;
          VoteFrame(w, voter, c, x);
          assert v.accounts[voter].votes == w.accounts[voter].votes + x;
          CastExact(v, voter, rest);
          ProducersTail(w, v, ballot);
        }
      }
    }
  }

  lemma ProducersTail(w: World, v: World, ballot: seq<(Address, nat)>)
    requires ballot != [] && v.producers.Keys == w.producers.Keys
    ensures AllProducers(w, ballot) <==> ballot[0].0 in w.producers && AllProducers(v, ballot[1..])
  {
    assert forall i :: 0 <= i < |ballot[1..]| ==> ballot[1..][i] == ballot[i + 1];
    if ballot[0].0 in w.producers && AllProducers(v, ballot[1..]) {
      forall i | 0 <= i < |ballot| ensures ballot[i].0 in w.producers {
        assert i > 0 ==> ballot[i] == ballot[1..][i - 1];
      }
    }
  }

  lemma {:induction false} CastFrame(w: World, voter: Address, ballot: seq<(Address, nat)>)
    requires voter in w.accounts && CastAll(w, voter, ballot).Done?
    ensures var v := CastAll(w, voter, ballot).world;
            && OthersUntouched(w, v, {voter}) && voter in v.accounts && v.accounts[voter].balance == w.accounts[voter].balance
            && v.accounts[voter].candidates == Ballot(w.accounts[voter].candidates, ballot)
            && v.transactions == w.transactions && v.producers.Keys == w.producers.Keys
    decreases |ballot|
  {
    hide VoteIncrease;
    if ballot != [] {
      VoteFrame(w, voter, ballot[0].0, ballot[0].1);
      CastFrame(VoteIncrease(w, voter, ballot[0].0, ballot[0].1).world, voter, ballot[1..]);
    }
  }

  /** What producer `c` says it got from anyone but the voter is left alone. */
  lemma {:induction false} CastOthers(w: World, voter: Address, ballot: seq<(Address, nat)>, other: Address, c: Address)
    requires CastAll(w, voter, ballot).Done? && other != voter
    ensures Got(CastAll(w, voter, ballot).world, other, c) == Got(w, other, c)
    decreases |ballot|
  {
    if ballot != [] {
      CastOthers(VoteIncrease(w, voter, ballot[0].0, ballot[0].1).world, voter, ballot[1..], other, c);
    }
  }

  /**
   * A vote transaction, for a voter in double entry and amounts that do not wrap: it goes
   * through if and only if the sender can pay the fee of 500000, every candidate is a
   * producer, and what is left of the balance covers a million for each vote of the ballot.
   */
  lemma VoteExact(w: World, sender: Address, ballot: seq<(Address, nat)>)
    requires Bounded(w) && Matched(w) && AmountsFit(ballot)
    ensures DoVote(w, sender, ballot).Done? <==>
            && sender in w.accounts && w.accounts[sender].balance >= 500000 && AllProducers(w, ballot)
            && BallotSum(ballot) * 1000000 + 500000 <= w.accounts[sender].balance
  {
    if sender in w.accounts {
      ClearSucceeds(w, sender);
      var v := ClearVote(w, sender).world;
      assert v.accounts[sender] == w.accounts[sender].(candidates := map[], votes := 0);
      assert v.producers.Keys == w.producers.Keys;
      hide ClearVote;
      if v.accounts[sender].balance >= 500000 {
        var u := Burn(v, sender, TRANSACTION_FEE).world;
        assert u.accounts[sender].votes == 0 && u.accounts[sender].balance == w.accounts[sender].balance - 500000 && u.producers == v.producers;
        CastExact(u, sender, ballot);
        assert AllProducers(u, ballot) <==> AllProducers(w, ballot);
      }
    }
  }

  /**
   * What a vote transaction leaves behind: the sender pays the fee and nothing else, its old
   * votes are gone, and it has given each candidate what its last entry for it says.  No
   * other account changes, and no producer's record of another voter.
   */
  lemma VoteEffect(w: World, sender: Address, ballot: seq<(Address, nat)>, other: Address, c: Address)
    requires DoVote(w, sender, ballot).Done? && other != sender
    ensures var v := DoVote(w, sender, ballot).world;
            && sender in w.accounts && sender in v.accounts && v.accounts[sender].balance == w.accounts[sender].balance - 500000
            && v.accounts[sender].candidates == Ballot(map[], ballot)
            && Untouched(w, v, other) && Got(v, other, c) == Got(w, other, c) && v.transactions == w.transactions
  {
    var v := ClearVote(w, sender).world;
    var u := Burn(v, sender, TRANSACTION_FEE).world;
    assert Got(u, other, c) == Got(w, other, c) && Untouched(w, u, other);
    assert u.accounts[sender].candidates == map[] && u.accounts[sender].balance == w.accounts[sender].balance - 500000;
    hide ClearVote, Burn, CastAll;
    CastFrame(u, sender, ballot);
    CastOthers(u, sender, ballot, other, c);
    assert Untouched(u, CastAll(u, sender, ballot).world, other);
  }

  lemma {:induction false} BallotAt(m: map<Address, nat>, ballot: seq<(Address, nat)>, c: Address)
    ensures c in Ballot(m, ballot) <==> c in m || exists i :: 0 <= i < |ballot| && ballot[i].0 == c
    ensures forall i :: 0 <= i < |ballot| && ballot[i].0 == c && (forall j :: i < j < |ballot| ==> ballot[j].0 != c) ==>
              c in Ballot(m, ballot) && Ballot(m, ballot)[c] == ballot[i].1
    ensures c in m && (forall i :: 0 <= i < |ballot| ==> ballot[i].0 != c) ==> Ballot(m, ballot)[c] == m[c]
    decreases |ballot|
  {
    if ballot != [] {
      var n, rest := m[ballot[0].0 := ballot[0].1], ballot[1..];
      BallotAt(n, rest, c);
      assert forall i :: 0 <= i < |rest| ==> rest[i] == ballot[i + 1];
      assert forall i :: 0 < i < |ballot| ==> ballot[i] == rest[i - 1];
    }
  }

  // ------------------------------------------------------------------ transactions in order

  /** Transactions are executed from the first to the last, up to the first exception. */
  lemma {:induction false} AllInOrder(w: World, a: seq<Transaction>, b: seq<Transaction>, now: int)
    ensures DoAll(w, a + b, now) == match DoAll(w, a, now) { case Thrown => Thrown case Done(v) => DoAll(v, b, now) }
    decreases |a|
  {
    hide DoTransaction;
    if a == [] {
      assert a + b == b;
    } else {
      assert (a + b)[1..] == a[1..] + b;
      if DoTransaction(w, a[0], now).Done? {
        AllInOrder(DoTransaction(w, a[0], now).world, a[1..], b, now);
      }
    }
  }

  // -------------------------------------------------------------- transactions, once each

  lemma ActionTransactions(w: World, tx: Transaction, now: int)
    requires DoAction(w, tx, now).Done?
    ensures DoAction(w, tx, now).world.transactions == w.transactions
  {
    if tx.action.Vote? {
      VoteEffect(w, tx.sender, tx.action.ballot, tx.sender + 1, 0);
    }
  }

  function Ids(txs: seq<Transaction>): set<TxId> {
    set i | 0 <= i < |txs| :: txs[i].id
  }

  lemma {:induction false} AllTransactions(w: World, txs: seq<Transaction>, now: int)
    requires DoAll(w, txs, now).Done?
    ensures DoAll(w, txs, now).world.transactions.Keys == w.transactions.Keys + Ids(txs)
    decreases |txs|
  {
    hide DoAction;
    if txs != [] {
      ActionTransactions(w, txs[0], now);
      var v := DoTransaction(w, txs[0], now).world;
      AllTransactions(v, txs[1..], now);
      assert Ids(txs) == {txs[0].id} + Ids(txs[1..]) by {
        assert forall i :: 0 < i < |txs| ==> txs[i] == txs[1..][i - 1];
      }
    }
  }

  /** After a block exactly its transactions are known besides those that were. */
  lemma BlockTransactions(w: World, txs: seq<Transaction>, producer: Address, bonus: nat, now: int)
    requires DoBlock(w, txs, producer, bonus, now).Done?
    ensures DoBlock(w, txs, producer, bonus, now).world.transactions.Keys == w.transactions.Keys + Ids(txs)
  {
    hide DoAll;
    AllTransactions(w, txs, now);
  }

  lemma {:induction false} AllStored(w: World, txs: seq<Transaction>, now: int, i: nat)
    requires DoAll(w, txs, now).Done? && i < |txs| && forall j :: i < j < |txs| ==> txs[j].id != txs[i].id
    ensures var v := DoAll(w, txs, now).world; txs[i].id in v.transactions && v.transactions[txs[i].id] == txs[i]
    decreases |txs|
  {
    hide DoTransaction;
    var n := |txs| - 1;
    var front, last := txs[..n], txs[n];
    assert txs == front + [last];
    AllInOrder(w, front, [last], now);
    var u := DoAll(w, front, now).world;
    assert DoAll(u, [last], now) == DoTransaction(u, last, now) by {
      assert [last][1..] == [];
    }
    StoredOne(u, last, now);
    if i < n {
      AllStored(w, front, now, i);
    }
  }

  lemma StoredOne(w: World, tx: Transaction, now: int)
    requires DoTransaction(w, tx, now).Done?
    ensures DoTransaction(w, tx, now).world.transactions == w.transactions[tx.id := tx]
  {
    hide DoAction;
    ActionTransactions(w, tx, now);
  }

  /** A transaction of an executed block can be read by its id, if no later one of the block has it. */
  lemma TransactionStored(w: World, txs: seq<Transaction>, producer: Address, bonus: nat, now: int, i: nat)
    requires DoBlock(w, txs, producer, bonus, now).Done? && i < |txs| && forall j :: i < j < |txs| ==> txs[j].id != txs[i].id
    ensures var v := DoBlock(w, txs, producer, bonus, now).world; txs[i].id in v.transactions && v.transactions[txs[i].id] == txs[i]
  {
    hide DoAll;
    AllStored(w, txs, now, i);
  }

  /** A block with transactions that has been executed is refused when it comes again. */
  lemma BlockOnce(worlds: seq<World>, op: Op)
    requires worlds != [] && op.Execute? && op.txs != [] && |Step(worlds, op)| > |worlds|
    ensures Step(Step(worlds, op), op) == Step(worlds, op)
  {
    hide DoBlock;
    var w := worlds[|worlds| - 1];
    BlockTransactions(w, op.txs, op.producer, op.bonus, op.now);
    var v := DoBlock(w, op.txs, op.producer, op.bonus, op.now).world;
    assert op.txs[0].id in Ids(op.txs);
    assert op.txs[0].id in v.transactions;
  }

  function IdsOf(op: Op): set<TxId> {
    if op.Execute? then Ids(op.txs) else {}
  }

  function HistoryIds(h: seq<Op>): set<TxId> {
    if h == [] then {} else HistoryIds(h[..|h| - 1]) + IdsOf(h[|h| - 1])
  }

  lemma {:induction false} HistoryKeys(first: World, h: seq<Op>)
    requires ExecuteAll(first, h).Done?
    ensures ExecuteAll(first, h).world.transactions.Keys == first.transactions.Keys + HistoryIds(h)
  {
    hide DoBlock, Ids;
    if h != [] {
      var n := |h| - 1;
      HistoryKeys(first, h[..n]);
      BlockTransactions(ExecuteAll(first, h[..n]).world, h[n].txs, h[n].producer, h[n].bonus, h[n].now);
    }
  }

  /** No transaction of a block was in the first world or in an earlier block. */
  ghost predicate NoReplay(first: World, h: seq<Op>) {
    h != [] ==>
      var n := |h| - 1;
      NoReplay(first, h[..n]) && IdsOf(h[n]) !! first.transactions.Keys && IdsOf(h[n]) !! HistoryIds(h[..n])
  }

  ghost predicate NoneReplayed(first: World, hs: seq<seq<Op>>) {
    forall i :: 0 <= i < |hs| ==> NoReplay(first, hs[i])
  }

  lemma StepNoReplay(first: World, worlds: seq<World>, hs: seq<seq<Op>>, op: Op)
    requires worlds != [] && Explained(first, worlds, hs) && NoneReplayed(first, hs)
    ensures NoneReplayed(first, StepHistories(worlds, hs, op))
  {
    hide DoBlock, ExecuteAll, HistoryIds;
    if op.Execute? && |Step(worlds, op)| > |worlds| {
      var n := |worlds| - 1;
      assert ExecuteAll(first, hs[n]) == Done(worlds[n]);
      HistoryKeys(first, hs[n]);
      var h := hs[n] + [op];
      assert h[..|hs[n]|] == hs[n];
      assert NoReplay(first, hs[n]);
      forall id | id in Ids(op.txs) ensures id !in worlds[n].transactions {
        var i :| 0 <= i < |op.txs| && op.txs[i].id == id;
      }
      assert NoReplay(first, h);
    }
  }

  /** In every world of every run, no transaction has been executed in two blocks behind it. */
  lemma {:induction false} RunNoReplay(first: World, worlds: seq<World>, hs: seq<seq<Op>>, run: seq<Op>)
    requires worlds != [] && Explained(first, worlds, hs) && NoneReplayed(first, hs)
    ensures NoneReplayed(first, Histories(worlds, hs, run))
    decreases |run|
  {
    hide Step, StepHistories, NoneReplayed, Explained;
    if run != [] {
      ExplainedLength(first, worlds, hs);
      StepExplained(first, worlds, hs, run[0]);
      StepNoReplay(first, worlds, hs, run[0]);
      RunNoReplay(first, Step(worlds, run[0]), StepHistories(worlds, hs, run[0]), run[1..]);
    }
  }

  /** Two blocks behind one world have no transaction in common. */
  lemma {:induction false} BlocksDisjoint(first: World, h: seq<Op>, i: nat, j: nat)
    requires NoReplay(first, h) && i < j < |h|
    ensures IdsOf(h[i]) !! IdsOf(h[j])
  {
    hide IdsOf;
    var n := |h| - 1;
    if j < n {
      BlocksDisjoint(first, h[..n], i, j);
    } else {
      InHistory(h[..n], i);
    }
  }

  lemma {:induction false} InHistory(h: seq<Op>, i: nat)
    requires i < |h|
    ensures IdsOf(h[i]) <= HistoryIds(h)
  {
    hide IdsOf;
    if i < |h| - 1 {
      InHistory(h[..|h| - 1], i);
    }
  }
}
