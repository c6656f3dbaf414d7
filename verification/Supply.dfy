/** Where money comes from and where it goes: the sum of all balances over a block. */
module Supply {
  import opened Bytes
  import opened Sums
  import opened Ledger

  function Balances(accounts: map<Address, Account>): map<Address, nat> {
    map a | a in accounts :: accounts[a].balance
  }

  /** The sum of all balances. */
  ghost function Total(w: World): nat {
    Sum(Balances(w.accounts))
  }

  /** Every balance is an unsigned 64-bit number. */
  ghost predicate Bounded(w: World) {
    forall a :: a in w.accounts ==> w.accounts[a].balance < TWO_64
  }

  function BalanceOf(w: World, a: Address): nat {
    if a in w.accounts then w.accounts[a].balance else 0
  }

  lemma PutTotal(w: World, a: Address, account: Account)
    ensures Total(PutAccount(w, a, account)) + BalanceOf(w, a) == Total(w) + account.balance
    ensures Bounded(w) && account.balance < TWO_64 ==> Bounded(PutAccount(w, a, account))
  {
    assert Balances(w.accounts[a := account]) == Balances(w.accounts)[a := account.balance];
    SumUpdate(Balances(w.accounts), a, account.balance);
  }

  lemma OtherTotal(w: World, v: World)
    requires w.accounts.Keys == v.accounts.Keys && forall a :: a in w.accounts ==> w.accounts[a].balance == v.accounts[a].balance
    ensures Total(w) == Total(v) && Bounded(w) == Bounded(v)
  {
    assert Balances(w.accounts) == Balances(v.accounts);
  }

  /** Burning takes exactly the amount out of the total. */
  lemma BurnTotal(w: World, a: Address, value: nat)
    requires Bounded(w) && Burn(w, a, value).Done?
    ensures var v := Burn(w, a, value).world;
            Bounded(v) && Total(v) + value == Total(w) && v.producers == w.producers
  {
    hide Total, Bounded;
    PutTotal(w, a, w.accounts[a].(balance := w.accounts[a].balance - value));
    BalanceBounded(w, a);
  }

  lemma BalanceBounded(w: World, a: Address)
    requires Bounded(w)
    ensures BalanceOf(w, a) < TWO_64
  {
  }

  /** The amount a transfer makes out of nothing: its value when sender and recipient are the same. */
  function Minted(from: Address, to: Address, value: nat): nat {
    if from == to then value else 0
  }

  /** A transfer between two accounts keeps the total; one from an account to itself adds its value. */
  lemma SendTotal(w: World, from: Address, to: Address, value: nat, now: int)
    requires Bounded(w) && value < TWO_64 && Send(w, from, to, value, now).Done?
    ensures var v := Send(w, from, to, value, now).world;
            Bounded(v) && Total(v) == Total(w) + Minted(from, to, value) && v.producers == w.producers
  {
    hide Total, Bounded;
    var source, target := w.accounts[from], AccountOr(w, to, now);
    BalanceBounded(w, from);
    BalanceBounded(w, to);
    var u := PutAccount(w, from, source.(balance := source.balance - value));
    PutTotal(w, from, source.(balance := source.balance - value));
    PutTotal(u, to, target.(balance := Add64(target.balance, value)));
    assert target.balance + value < TWO_64;
  }

  /** A transfer keeps the total if and only if it moves nothing or has two parties. */
  lemma SendConservesExactly(w: World, from: Address, to: Address, value: nat, now: int)
    requires Bounded(w) && value < TWO_64 && Send(w, from, to, value, now).Done?
    ensures Total(Send(w, from, to, value, now).world) == Total(w) <==> (from != to || value == 0)
  {
    hide Total, Bounded, Send;
    SendTotal(w, from, to, value, now);
  }

  /** An account with one coin that sends it to itself has two. */
  lemma SelfTransferExample()
    ensures var w := World(map[7 := Account(1, 0, map[], 0)], map[], map[]);
            Bounded(w) && Send(w, 7, 7, 1, 0).Done? && BalanceOf(Send(w, 7, 7, 1, 0).world, 7) == 2
  {
  }

  /** The bonus is added to the total exactly when the balance does not wrap; otherwise 2^64 is lost. */
  lemma BonusTotal(w: World, a: Address, value: nat)
    requires Bounded(w) && value < TWO_64 && Bonus(w, a, value).Done?
    ensures var v := Bonus(w, a, value).world;
            Bounded(v) && Total(v) + (if BalanceOf(w, a) + value < TWO_64 then 0 else TWO_64) == Total(w) + value
  {
    hide Total, Bounded;
    BalanceBounded(w, a);
    PutTotal(w, a, w.accounts[a].(balance := Add64(w.accounts[a].balance, value)));
  }

  // --------------------------------------------------------------------- transactions

  lemma ClearVoteTotal(w: World, voter: Address)
    requires Bounded(w) && ClearVote(w, voter).Done?
    ensures var v := ClearVote(w, voter).world;
            Bounded(v) && Total(v) == Total(w) && v.producers.Keys == w.producers.Keys
  {
    OtherTotal(w, ClearVote(w, voter).world);
  }

  lemma {:induction false} CastTotal(w: World, voter: Address, ballot: seq<(Address, nat)>)
    requires Bounded(w) && CastAll(w, voter, ballot).Done?
    ensures var v := CastAll(w, voter, ballot).world;
            Bounded(v) && Total(v) == Total(w) && v.producers.Keys == w.producers.Keys
    decreases |ballot|
  {
    hide Total, Bounded;
    if ballot != [] {
      var v := VoteIncrease(w, voter, ballot[0].0, ballot[0].1).world;
      OtherTotal(w, v);
      assert v.producers.Keys == w.producers.Keys;
      hide VoteIncrease;
      CastTotal(v, voter, ballot[1..]);
    }
  }

  /** What a transaction costs its sender beyond what it moves. */
  function Fee(tx: Transaction): nat {
    if tx.action.Other? then 0 else TRANSACTION_FEE
  }

  function MintedBy(tx: Transaction): nat {
    match tx.action
    case Transfer(to, value) => Minted(tx.sender, to, value)
    case _ => 0
  }

  predicate ValueBounded(tx: Transaction) {
    tx.action.Transfer? ==> tx.action.value < TWO_64
  }

  /** What one transaction does to the total and to the number of producers. */
  ghost predicate Accounted(w: World, v: World, fee: nat, minted: nat) {
    && Bounded(v) && |v.producers| >= |w.producers|
    && Total(v) + fee + PRODUCER_COST * (|v.producers| - |w.producers|) == Total(w) + minted
  }

  lemma TransferTotal(w: World, tx: Transaction, now: int)
    requires Bounded(w) && tx.action.Transfer? && ValueBounded(tx) && DoAction(w, tx, now).Done?
    ensures Accounted(w, DoAction(w, tx, now).world, Fee(tx), MintedBy(tx))
  {
    hide Total, Bounded, Burn, Send;
    BurnTotal(w, tx.sender, TRANSACTION_FEE);
    var v := Burn(w, tx.sender, TRANSACTION_FEE).world;
    SendTotal(v, tx.sender, tx.action.recipient, tx.action.value, now);
  }

  lemma VoteTotal(w: World, tx: Transaction, now: int)
    requires Bounded(w) && tx.action.Vote? && DoAction(w, tx, now).Done?
    ensures Accounted(w, DoAction(w, tx, now).world, Fee(tx), MintedBy(tx))
  {
    hide Total, Bounded, Burn, ClearVote, CastAll;
    ClearVoteTotal(w, tx.sender);
    var v := ClearVote(w, tx.sender).world;
    BurnTotal(v, tx.sender, TRANSACTION_FEE);
    var u := Burn(v, tx.sender, TRANSACTION_FEE).world;
    CastTotal(u, tx.sender, tx.action.ballot);
    var t := DoAction(w, tx, now).world;
    SameSize(t.producers, w.producers);
  }

  lemma SameSize<T>(m: map<Address, T>, n: map<Address, T>)
    requires m.Keys == n.Keys
    ensures |m| == |n|
  {
    assert |m| == |m.Keys| && |n| == |n.Keys|;
  }

  lemma BeenProducerTotal(w: World, tx: Transaction, now: int)
    requires Bounded(w) && tx.action.BeenProducer? && DoAction(w, tx, now).Done?
    ensures Accounted(w, DoAction(w, tx, now).world, Fee(tx), MintedBy(tx))
  {
    hide Total, Bounded, Burn;
    BurnTotal(w, tx.sender, TRANSACTION_FEE);
    var v := Burn(w, tx.sender, TRANSACTION_FEE).world;
    if tx.sender !in v.producers {
      BurnTotal(v, tx.sender, PRODUCER_COST);
      var u := Burn(v, tx.sender, PRODUCER_COST).world;
      var t := DoAction(w, tx, now).world;
      assert |t.producers| == |w.producers| + 1;
      OtherTotal(u, t);
    }
  }

  lemma TransactionTotal(w: World, tx: Transaction, now: int)
    requires Bounded(w) && ValueBounded(tx) && DoTransaction(w, tx, now).Done?
    ensures Accounted(w, DoTransaction(w, tx, now).world, Fee(tx), MintedBy(tx))
  {
    hide DoTransfer, DoVote, DoBeenProducer;
    match tx.action
    case Transfer(_, _) => TransferTotal(w, tx, now);
    case Vote(_) => VoteTotal(w, tx, now);
    case BeenProducer => BeenProducerTotal(w, tx, now);
    case Other => assert DoAction(w, tx, now).world == w;
    OtherTotal(DoAction(w, tx, now).world, DoTransaction(w, tx, now).world);
  }

  function Fees(txs: seq<Transaction>): nat {
    if txs == [] then 0 else Fee(txs[0]) + Fees(txs[1..])
  }

  function MintedByAll(txs: seq<Transaction>): nat {
    if txs == [] then 0 else MintedBy(txs[0]) + MintedByAll(txs[1..])
  }

  lemma {:induction false} AllTotal(w: World, txs: seq<Transaction>, now: int)
    requires Bounded(w) && (forall i :: 0 <= i < |txs| ==> ValueBounded(txs[i])) && DoAll(w, txs, now).Done?
    ensures Accounted(w, DoAll(w, txs, now).world, Fees(txs), MintedByAll(txs))
    decreases |txs|
  {
    hide Total, Bounded, DoTransaction, Fee, MintedBy;
    if txs != [] {
      TransactionTotal(w, txs[0], now);
      var v := DoTransaction(w, txs[0], now).world;
      assert forall i :: 0 <= i < |txs[1..]| ==> txs[1..][i] == txs[i + 1];
      AllTotal(v, txs[1..], now);
    }
  }

  /**
   * The account of a whole block, whatever it holds: the total changes by the bonus
   * less the fees less the cost of new producers, plus what self-transfers made up and
   * less 2^64 if the producer's balance wrapped.
   */
  lemma BlockTotal(w: World, txs: seq<Transaction>, producer: Address, bonus: nat, now: int)
    requires Bounded(w) && bonus < TWO_64 && (forall i :: 0 <= i < |txs| ==> ValueBounded(txs[i]))
    requires DoBlock(w, txs, producer, bonus, now).Done?
    ensures var v := DoBlock(w, txs, producer, bonus, now).world;
            var wrapped := BalanceOf(DoAll(w, txs, now).world, producer) + bonus >= TWO_64;
            && Bounded(v) && |v.producers| >= |w.producers|
            && Total(v) + Fees(txs) + PRODUCER_COST * (|v.producers| - |w.producers|) + (if wrapped then TWO_64 else 0)
               == Total(w) + bonus + MintedByAll(txs)
  {
    hide Total, Bounded, DoAll, Fees, MintedByAll;
    AllTotal(w, txs, now);
    BonusTotal(DoAll(w, txs, now).world, producer, bonus);
  }

  predicate TwoParties(tx: Transaction) {
    tx.action.Transfer? ==> tx.sender != tx.action.recipient
  }

  lemma {:induction false} NothingMinted(txs: seq<Transaction>)
    requires forall i :: 0 <= i < |txs| ==> TwoParties(txs[i])
    ensures MintedByAll(txs) == 0
  {
    if txs != [] {
      assert TwoParties(txs[0]);
      assert forall i :: 0 <= i < |txs[1..]| ==> txs[1..][i] == txs[i + 1];
      NothingMinted(txs[1..]);
    }
  }

  lemma BalanceInTotal(w: World, a: Address)
    ensures BalanceOf(w, a) <= Total(w)
  {
    SumAtLeast(Balances(w.accounts), a);
  }

  /**
   * Without self-transfers, and while total and bonus stay below 2^64, the total
   * changes by exactly the bonus less 500000 for each handled transaction and less
   * 1024000000 for each new producer, and no balance wraps.
   */
  lemma SupplyConserved(w: World, txs: seq<Transaction>, producer: Address, bonus: nat, now: int)
    requires Bounded(w) && Total(w) + bonus < TWO_64
    requires forall i :: 0 <= i < |txs| ==> ValueBounded(txs[i]) && TwoParties(txs[i])
    requires DoBlock(w, txs, producer, bonus, now).Done?
    ensures var v := DoBlock(w, txs, producer, bonus, now).world;
            && BalanceOf(v, producer) == BalanceOf(DoAll(w, txs, now).world, producer) + bonus
            && |v.producers| >= |w.producers|
            && Total(v) == Total(w) + bonus - Fees(txs) - PRODUCER_COST * (|v.producers| - |w.producers|)
  {
    hide Total, Bounded, DoAll, Fees, MintedByAll;
    NothingMinted(txs);
    BlockTotal(w, txs, producer, bonus, now);
    AllTotal(w, txs, now);
    var u := DoAll(w, txs, now).world;
    BalanceInTotal(u, producer);
    ProductNonNegative(|u.producers| - |w.producers|);
  }

  lemma ProductNonNegative(n: nat)
    ensures PRODUCER_COST * n >= 0
  {
  }

  function Handled(txs: seq<Transaction>): nat {
    if txs == [] then 0 else (if txs[0].action.Other? then 0 else 1) + Handled(txs[1..])
  }

  /** The fee total is 500000 for each transaction that has a handler. */
  lemma {:induction false} FeesCount(txs: seq<Transaction>)
    ensures Fees(txs) == 500000 * Handled(txs)
  {
    if txs != [] {
      FeesCount(txs[1..]);
    }
  }
}
