/**
 * Votes as double entry: what an account says it gave a candidate is what the candidate
 * says it got from the account.
 */
module Votes {
  import opened Bytes
  import opened Sums
  import opened Ledger
  import opened Supply

  /** What account `v` says it gave candidate `c`. */
  function Given(w: World, v: Address, c: Address): Option<nat> {
    if v in w.accounts && c in w.accounts[v].candidates then Some(w.accounts[v].candidates[c]) else None
  }

  /** What producer `c` says it got from voter `v`. */
  function Got(w: World, v: Address, c: Address): Option<nat> {
    if c in w.producers && v in w.producers[c].voters then Some(w.producers[c].voters[v]) else None
  }

  /** Account `v` lists candidate `c` with `x` exactly when producer `c` lists voter `v` with `x`. */
  ghost predicate Matched(w: World) {
    forall v, c :: Given(w, v, c) == Got(w, v, c)
  }

  /** Each account's votes are the sum over its candidates. */
  ghost predicate AccountsAddUp(w: World) {
    forall v :: v in w.accounts ==> w.accounts[v].votes == Sum(w.accounts[v].candidates)
  }

  ghost predicate AddsUp(p: Producer, base: nat) {
    p.votes == (base + Sum(p.voters)) % TWO_64
  }

  /** Each producer's votes are its starting votes and the sum over its voters, in 64 bits. */
  ghost predicate ProducersAddUp(w: World, start: map<Address, nat>) {
    forall c :: c in w.producers ==> AddsUp(w.producers[c], Amount(start, c))
  }

  ghost predicate DoubleEntry(w: World, start: map<Address, nat>) {
    Matched(w) && AccountsAddUp(w) && ProducersAddUp(w, start)
  }

  /** While a producer's votes fit in 64 bits the sum is exact, and erasing a voter never underflows. */
  lemma NoUnderflow(w: World, start: map<Address, nat>, c: Address, v: Address)
    requires ProducersAddUp(w, start) && c in w.producers && Amount(start, c) + Sum(w.producers[c].voters) < TWO_64
    ensures w.producers[c].votes == Amount(start, c) + Sum(w.producers[c].voters)
    ensures v in w.producers[c].voters ==>
              EraseVoter(w.producers[c], v).votes == w.producers[c].votes - w.producers[c].voters[v]
  {
    SumAtLeast(w.producers[c].voters, v);
  }

  // ------------------------------------------------------------------------ one vote

  lemma AddModulo(x: int, y: int)
    ensures (x % TWO_64 + y) % TWO_64 == (x + y) % TWO_64
    ensures (x % TWO_64 - y) % TWO_64 == (x - y) % TWO_64
  {
  }

  lemma AddVoterAddsUp(p: Producer, base: nat, voter: Address, value: nat)
    requires AddsUp(p, base) && Amount(p.voters, voter) == 0
    ensures AddsUp(AddVoter(p, voter, value), base)
  {
    SumUpdate(p.voters, voter, value);
    AddModulo(base + Sum(p.voters), value);
  }

  lemma EraseVoterAddsUp(p: Producer, base: nat, voter: Address)
    requires AddsUp(p, base)
    ensures AddsUp(EraseVoter(p, voter), base)
    ensures EraseVoter(p, voter).voters == p.voters - {voter}
  {
    if voter in p.voters {
      SumErase(p.voters, voter);
      AddModulo(base + Sum(p.voters), p.voters[voter]);
    } else {
      assert p.voters - {voter} == p.voters;
    }
  }

  /** Clearing keeps the double entry and leaves the voter without candidates. */
  lemma ClearKeeps(w: World, start: map<Address, nat>, voter: Address)
    requires DoubleEntry(w, start) && ClearVote(w, voter).Done?
    ensures var v := ClearVote(w, voter).world;
            DoubleEntry(v, start) && voter in v.accounts && v.accounts[voter].candidates == map[] && v.accounts[voter].votes == 0
  {
    hide Matched, AccountsAddUp, ProducersAddUp;
    ClearMatched(w, voter);
    ClearAccounts(w, voter);
    ClearProducers(w, start, voter);
  }

  lemma ClearAccounts(w: World, voter: Address)
    requires AccountsAddUp(w) && ClearVote(w, voter).Done?
    ensures AccountsAddUp(ClearVote(w, voter).world)
  {
    SumEmpty();
    hide Sum;
  }

  lemma ErasedAt(w: World, voter: Address)
    requires ClearVote(w, voter).Done?
    ensures forall c :: c in ClearVote(w, voter).world.producers ==>
              c in w.producers && ClearVote(w, voter).world.producers[c] in {w.producers[c], EraseVoter(w.producers[c], voter)}
  {
  }

  lemma ClearProducers(w: World, start: map<Address, nat>, voter: Address)
    requires ProducersAddUp(w, start) && ClearVote(w, voter).Done?
    ensures ProducersAddUp(ClearVote(w, voter).world, start)
  {
    ErasedAt(w, voter);
    var v := ClearVote(w, voter).world;
    hide AddsUp, ClearVote, EraseVoter;
    forall c | c in v.producers ensures AddsUp(v.producers[c], Amount(start, c)) {
      EraseVoterAddsUp(w.producers[c], Amount(start, c), voter);
    }
  }

  lemma ClearMatched(w: World, voter: Address)
    requires Matched(w) && ClearVote(w, voter).Done?
    ensures Matched(ClearVote(w, voter).world)
  {
    var t := ClearVote(w, voter).world;
    forall v, c ensures Given(t, v, c) == Got(t, v, c) {
      assert Given(w, v, c) == Got(w, v, c);
    }
  }

  /** Clearing never throws for a voter whose entries are matched. */
  lemma ClearSucceeds(w: World, voter: Address)
    requires Matched(w) && voter in w.accounts
    ensures ClearVote(w, voter).Done?
  {
    forall c | c in w.accounts[voter].candidates ensures c in w.producers {
      assert Given(w, voter, c) == Got(w, voter, c);
    }
  }

  /** The votes of an account are covered by its balance. */
  predicate Covered(a: Account) {
    a.votes * VOTE_UNIT <= a.balance < TWO_64
  }

  /** The check in `voteIncrease` is exact when the amounts do not wrap: the vote goes through if and only if it is covered. */
  lemma VoteCheckExact(w: World, voter: Address, candidate: Address, value: nat)
    requires voter in w.accounts && candidate in w.producers && Covered(w.accounts[voter]) && value * VOTE_UNIT < TWO_64
    ensures VoteIncrease(w, voter, candidate, value).Done? <==>
            (w.accounts[voter].votes + value) * VOTE_UNIT <= w.accounts[voter].balance
    ensures VoteIncrease(w, voter, candidate, value).Done? ==> Covered(VoteIncrease(w, voter, candidate, value).world.accounts[voter])
  {
    var a := w.accounts[voter];
    assert Mul64(a.votes, VOTE_UNIT) == a.votes * VOTE_UNIT && Mul64(value, VOTE_UNIT) == value * VOTE_UNIT;
    hide Mul64;
  }

  lemma VoteMatched(w: World, voter: Address, candidate: Address, value: nat)
    requires Matched(w) && VoteIncrease(w, voter, candidate, value).Done?
    ensures Matched(VoteIncrease(w, voter, candidate, value).world)
  {
    var t := VoteIncrease(w, voter, candidate, value).world;
    forall v, c ensures Given(t, v, c) == Got(t, v, c) {
      assert Given(w, v, c) == Got(w, v, c);
    }
  }

  lemma VoteProducers(w: World, start: map<Address, nat>, voter: Address, candidate: Address, value: nat)
    requires ProducersAddUp(w, start) && VoteIncrease(w, voter, candidate, value).Done?
    requires Amount(w.producers[candidate].voters, voter) == 0
    ensures ProducersAddUp(VoteIncrease(w, voter, candidate, value).world, start)
  {
    hide AddsUp;
    AddVoterAddsUp(w.producers[candidate], Amount(start, candidate), voter, value);
  }

  lemma VoteAccounts(w: World, voter: Address, candidate: Address, value: nat)
    requires AccountsAddUp(w) && VoteIncrease(w, voter, candidate, value).Done?
    requires Covered(w.accounts[voter]) && value * VOTE_UNIT < TWO_64 && Amount(w.accounts[voter].candidates, candidate) == 0
    ensures AccountsAddUp(VoteIncrease(w, voter, candidate, value).world)
  {
    VoteCheckExact(w, voter, candidate, value);
    SumUpdate(w.accounts[voter].candidates, candidate, value);
    hide Sum, Sub64, Mul64;
  }

  lemma VoteKeeps(w: World, start: map<Address, nat>, voter: Address, candidate: Address, value: nat)
    requires DoubleEntry(w, start) && VoteIncrease(w, voter, candidate, value).Done?
    requires Covered(w.accounts[voter]) && value * VOTE_UNIT < TWO_64 && Amount(w.accounts[voter].candidates, candidate) == 0
    ensures DoubleEntry(VoteIncrease(w, voter, candidate, value).world, start)
  {
    assert Given(w, voter, candidate) == Got(w, voter, candidate);
    hide Matched, AccountsAddUp, ProducersAddUp, Covered, Sum;
    VoteMatched(w, voter, candidate, value);
    VoteProducers(w, start, voter, candidate, value);
    VoteAccounts(w, voter, candidate, value);
  }

  // ---------------------------------------------------------------------- whole ballot

  /** No candidate is repeated after an entry with votes. */
  predicate NoneRepeated(ballot: seq<(Address, nat)>) {
    forall i, j :: 0 <= i < j < |ballot| && ballot[i].0 == ballot[j].0 ==> ballot[i].1 == 0
  }

  predicate AmountsFit(ballot: seq<(Address, nat)>) {
    forall i :: 0 <= i < |ballot| ==> ballot[i].1 * VOTE_UNIT < TWO_64
  }

  lemma {:induction false} BallotKeeps(w: World, start: map<Address, nat>, voter: Address, ballot: seq<(Address, nat)>)
    requires DoubleEntry(w, start) && voter in w.accounts && Covered(w.accounts[voter])
    requires NoneRepeated(ballot) && AmountsFit(ballot)
    requires forall i :: 0 <= i < |ballot| ==> Amount(w.accounts[voter].candidates, ballot[i].0) == 0
    requires CastAll(w, voter, ballot).Done?
    ensures var v := CastAll(w, voter, ballot).world;
            DoubleEntry(v, start) && voter in v.accounts && Covered(v.accounts[voter])
    decreases |ballot|
  {
    if ballot != [] {
      var (c, x) := ballot[0];
      VoteKeeps(w, start, voter, c, x);
      VoteCheckExact(w, voter, c, x);
      var v := VoteIncrease(w, voter, c, x).world;
      var rest := ballot[1..];
      assert v.accounts[voter].candidates == w.accounts[voter].candidates[c := x];
      assert forall i :: 0 <= i < |rest| ==> rest[i] == ballot[i + 1];
      hide VoteIncrease, DoubleEntry, Covered;
      BallotKeeps(v, start, voter, rest);
    }
  }

  /**
   * A vote transaction that repeats no candidate after votes, with amounts that do not wrap, keeps the
   * double entry, and afterwards the voter's votes are covered by its balance.
   */
  lemma VoteTransactionKeeps(w: World, start: map<Address, nat>, sender: Address, ballot: seq<(Address, nat)>)
    requires DoubleEntry(w, start) && NoneRepeated(ballot) && AmountsFit(ballot)
    requires sender in w.accounts ==> w.accounts[sender].balance < TWO_64
    requires DoVote(w, sender, ballot).Done?
    ensures var v := DoVote(w, sender, ballot).world;
            DoubleEntry(v, start) && sender in v.accounts && Covered(v.accounts[sender])
  {
    ClearKeeps(w, start, sender);
    var v := ClearVote(w, sender).world;
    var u := Burn(v, sender, TRANSACTION_FEE).world;
    assert v.accounts[sender].balance == w.accounts[sender].balance;
    hide ClearVote, Sum;
    BalanceOnly(v, u, start);
    assert u.accounts[sender].candidates == map[];
    BallotKeeps(u, start, sender, ballot);
  }

  /** A step that leaves all votes alone, and adds only accounts without votes, keeps the double entry. */
  lemma BalanceOnly(w: World, v: World, start: map<Address, nat>)
    requires DoubleEntry(w, start) && v.producers == w.producers
    requires forall a :: a in w.accounts ==> a in v.accounts && (v.accounts[a].candidates, v.accounts[a].votes) == (w.accounts[a].candidates, w.accounts[a].votes)
    requires forall a :: a in v.accounts && a !in w.accounts ==> v.accounts[a].candidates == map[] && v.accounts[a].votes == 0
    ensures DoubleEntry(v, start)
  {
    SumEmpty();
    hide Sum;
    assert AccountsAddUp(v);
    assert ProducersAddUp(v, start);
    forall a, c ensures Given(v, a, c) == Got(v, a, c) {
      assert Given(w, a, c) == Got(w, a, c);
    }
  }

  // ------------------------------------------------------------------- any transaction

  lemma TransferKeeps(w: World, start: map<Address, nat>, sender: Address, to: Address, value: nat, now: int)
    requires DoubleEntry(w, start) && DoTransfer(w, sender, to, value, now).Done?
    ensures DoubleEntry(DoTransfer(w, sender, to, value, now).world, start)
  {
    hide DoubleEntry, Sum;
    BalanceOnly(w, DoTransfer(w, sender, to, value, now).world, start);
  }

  lemma NewProducerKeeps(w: World, start: map<Address, nat>, p: Address, now: int)
    requires DoubleEntry(w, start) && p !in w.producers && p !in start
    ensures DoubleEntry(PutProducer(w, p, Producer(0, map[], now)), start)
  {
    SumEmpty();
    hide Sum;
    var t := PutProducer(w, p, Producer(0, map[], now));
    forall v, c ensures Given(t, v, c) == Got(t, v, c) {
      assert Given(w, v, c) == Got(w, v, c);
    }
    assert ProducersAddUp(t, start);
  }

  /** A new producer starts with no votes. */
  lemma BeenProducerKeeps(w: World, start: map<Address, nat>, sender: Address, now: int)
    requires DoubleEntry(w, start) && DoBeenProducer(w, sender, now).Done? && (sender !in w.producers ==> sender !in start)
    ensures DoubleEntry(DoBeenProducer(w, sender, now).world, start)
  {
    hide DoubleEntry, Sum;
    var v := DoBeenProducer(w, sender, now).world;
    var u := v.(producers := w.producers);
    BalanceOnly(w, u, start);
    if sender !in w.producers {
      NewProducerKeeps(u, start, sender, now);
    }
  }

  /** Ballots repeat no candidate after votes, and their amounts do not wrap. */
  predicate GoodBallot(tx: Transaction) {
    tx.action.Vote? ==> NoneRepeated(tx.action.ballot) && AmountsFit(tx.action.ballot)
  }

  ghost predicate Balanced(w: World, start: map<Address, nat>) {
    DoubleEntry(w, start) && Bounded(w) && start.Keys <= w.producers.Keys
  }

  lemma ProducersStay(w: World, tx: Transaction, now: int)
    requires DoTransaction(w, tx, now).Done?
    ensures w.producers.Keys <= DoTransaction(w, tx, now).world.producers.Keys
  {
    if tx.action.Vote? {
      var v := ClearVote(w, tx.sender).world;
      var u := Burn(v, tx.sender, TRANSACTION_FEE).world;
      assert u.producers.Keys == w.producers.Keys;
      hide ClearVote, Burn;
      CastProducers(u, tx.sender, tx.action.ballot);
    }
  }

  lemma {:induction false} CastProducers(w: World, voter: Address, ballot: seq<(Address, nat)>)
    requires CastAll(w, voter, ballot).Done?
    ensures CastAll(w, voter, ballot).world.producers.Keys == w.producers.Keys
    decreases |ballot|
  {
    if ballot != [] {
      var v := VoteIncrease(w, voter, ballot[0].0, ballot[0].1).world;
      assert v.producers.Keys == w.producers.Keys;
      CastProducers(v, voter, ballot[1..]);
    }
  }

  lemma ActionKeeps(w: World, start: map<Address, nat>, tx: Transaction, now: int)
    requires Balanced(w, start) && GoodBallot(tx) && DoAction(w, tx, now).Done?
    ensures DoubleEntry(DoAction(w, tx, now).world, start)
  {
    hide DoubleEntry, DoTransfer, DoVote, DoBeenProducer;
    match tx.action
    case Transfer(to, value) => TransferKeeps(w, start, tx.sender, to, value, now);
    case Vote(ballot) => VoteTransactionKeeps(w, start, tx.sender, ballot);
    case BeenProducer => BeenProducerKeeps(w, start, tx.sender, now);
    case Other =>
  }

  lemma TransactionKeeps(w: World, start: map<Address, nat>, tx: Transaction, now: int)
    requires Balanced(w, start) && GoodBallot(tx) && ValueBounded(tx) && DoTransaction(w, tx, now).Done?
    ensures Balanced(DoTransaction(w, tx, now).world, start)
  {
    ActionKeeps(w, start, tx, now);
    TransactionTotal(w, tx, now);
    ProducersStay(w, tx, now);
    hide DoubleEntry, DoAction, Bounded, Total;
    BalanceOnly(DoAction(w, tx, now).world, DoTransaction(w, tx, now).world, start);
  }

  /** Over any run of transactions with good ballots the double entry holds. */
  lemma {:induction false} RunKeeps(w: World, start: map<Address, nat>, txs: seq<Transaction>, now: int)
    requires Balanced(w, start) && DoAll(w, txs, now).Done?
    requires forall i :: 0 <= i < |txs| ==> GoodBallot(txs[i]) && ValueBounded(txs[i])
    ensures Balanced(DoAll(w, txs, now).world, start)
    decreases |txs|
  {
    hide Balanced, DoTransaction, GoodBallot, ValueBounded;
    if txs != [] {
      TransactionKeeps(w, start, txs[0], now);
      assert forall i :: 0 <= i < |txs[1..]| ==> txs[1..][i] == txs[i + 1];
      RunKeeps(DoTransaction(w, txs[0], now).world, start, txs[1..], now);
    }
  }

  /** And over a whole block, bonus included. */
  lemma BlockKeeps(w: World, start: map<Address, nat>, txs: seq<Transaction>, producer: Address, bonus: nat, now: int)
    requires Balanced(w, start) && bonus < TWO_64 && DoBlock(w, txs, producer, bonus, now).Done?
    requires forall i :: 0 <= i < |txs| ==> GoodBallot(txs[i]) && ValueBounded(txs[i])
    ensures Balanced(DoBlock(w, txs, producer, bonus, now).world, start)
  {
    hide DoubleEntry, Bounded, DoAll, GoodBallot, ValueBounded;
    RunKeeps(w, start, txs, now);
    var v := DoAll(w, txs, now).world;
    BonusTotal(v, producer, bonus);
    BalanceOnly(v, Bonus(v, producer, bonus).world, start);
  }

  // --------------------------------------------------------------- repeated candidates

  /** What is overwritten when a ballot is entered over the candidates `m`. */
  function Lost(m: map<Address, nat>, ballot: seq<(Address, nat)>): nat
    decreases |ballot|
  {
    if ballot == [] then 0 else Amount(m, ballot[0].0) + Lost(m[ballot[0].0 := ballot[0].1], ballot[1..])
  }

  /** After a ballot, an account's votes exceed the sum over its candidates by exactly what was overwritten. */
  lemma {:induction false} CastLost(w: World, voter: Address, ballot: seq<(Address, nat)>)
    requires voter in w.accounts && Covered(w.accounts[voter]) && AmountsFit(ballot) && CastAll(w, voter, ballot).Done?
    ensures var a, b := w.accounts[voter], CastAll(w, voter, ballot).world.accounts;
            && voter in b
            && b[voter].votes + Sum(a.candidates) == a.votes + Sum(b[voter].candidates) + Lost(a.candidates, ballot)
    decreases |ballot|
  {
    hide Sum;
    if ballot != [] {
      var (c, x) := ballot[0];
      VoteCheckExact(w, voter, c, x);
      var v := VoteIncrease(w, voter, c, x).world;
      var rest := ballot[1..];
      assert v.accounts[voter].candidates == w.accounts[voter].candidates[c := x];
      assert v.accounts[voter].votes == w.accounts[voter].votes + x;
      assert forall i :: 0 <= i < |rest| ==> rest[i] == ballot[i + 1];
      SumUpdate(w.accounts[voter].candidates, c, x);
      hide VoteIncrease, Covered;
      CastLost(v, voter, rest);
    }
  }

  /** Nothing is overwritten exactly when every entry that a later one repeats is for zero votes. */
  lemma {:induction false} LostExact(m: map<Address, nat>, ballot: seq<(Address, nat)>)
    ensures Lost(m, ballot) == 0 <==>
            (forall i :: 0 <= i < |ballot| ==> Amount(m, ballot[i].0) == 0) && NoneRepeated(ballot)
    decreases |ballot|
  {
    if ballot != [] {
      var (c, x) := ballot[0];
      var n, rest := m[c := x], ballot[1..];
      LostExact(n, rest);
      assert forall i :: 0 <= i < |rest| ==> rest[i] == ballot[i + 1];
      LostStep(m, ballot);
    }
  }

  lemma LostStep(m: map<Address, nat>, ballot: seq<(Address, nat)>)
    requires ballot != []
    ensures var (c, x) := ballot[0];
            var n, rest := m[c := x], ballot[1..];
            (Amount(m, c) == 0
             && (forall i :: 0 <= i < |rest| ==> Amount(n, rest[i].0) == 0)
             && NoneRepeated(rest))
            <==>
            ((forall i :: 0 <= i < |ballot| ==> Amount(m, ballot[i].0) == 0)
             && NoneRepeated(ballot))
  {
    var (c, x) := ballot[0];
    var n, rest := m[c := x], ballot[1..];
    assert forall i :: 0 <= i < |rest| ==> rest[i] == ballot[i + 1];
    assert forall i :: 0 < i < |ballot| ==> ballot[i] == rest[i - 1];
  }

  /**
   * The votes of the sender add up after a vote transaction if and only if no candidate
   * is repeated after an entry with votes.
   */
  lemma VotesAddUpExactly(w: World, sender: Address, ballot: seq<(Address, nat)>)
    requires sender in w.accounts && w.accounts[sender].balance < TWO_64 && AmountsFit(ballot) && DoVote(w, sender, ballot).Done?
    ensures sender in DoVote(w, sender, ballot).world.accounts
    ensures var a := DoVote(w, sender, ballot).world.accounts[sender];
            a.votes == Sum(a.candidates) <==> NoneRepeated(ballot)
  {
    SumEmpty();
    var v := ClearVote(w, sender).world;
    var u := Burn(v, sender, TRANSACTION_FEE).world;
    assert u.accounts[sender].candidates == map[] && u.accounts[sender].votes == 0;
    hide ClearVote, Sum, CastAll;
    CastLost(u, sender, ballot);
    LostExact(map[], ballot);
    assert forall i :: 0 <= i < |ballot| ==> Amount(map[], ballot[i].0) == 0;
  }

  /**
   * A vote transaction keeps the double entry if and only if its ballot repeats no candidate
   * after an entry with votes.
   */
  lemma DoubleEntryExact(w: World, start: map<Address, nat>, sender: Address, ballot: seq<(Address, nat)>)
    requires DoubleEntry(w, start) && sender in w.accounts && w.accounts[sender].balance < TWO_64
    requires AmountsFit(ballot) && DoVote(w, sender, ballot).Done?
    ensures DoubleEntry(DoVote(w, sender, ballot).world, start) <==> NoneRepeated(ballot)
  {
    hide DoVote, Sum, NoneRepeated, Matched, ProducersAddUp, AmountsFit;
    VotesAddUpExactly(w, sender, ballot);
    if NoneRepeated(ballot) {
      VoteTransactionKeeps(w, start, sender, ballot);
    }
  }

  /** A ballot that gives one candidate two votes and then one: the account has three votes, and the two records of them say one. */
  lemma RepeatedCandidateExample()
    ensures var w := World(map[7 := Account(4500000, 0, map[], 0)], map[9 := Producer(0, map[], 0)], map[]);
            var v := DoVote(w, 7, [(9, 2), (9, 1)]).world;
            && DoubleEntry(w, map[]) && DoVote(w, 7, [(9, 2), (9, 1)]).Done?
            && v.accounts[7].votes == 3 && v.accounts[7].candidates == map[9 := 1]
            && v.producers[9].votes == 3 && v.producers[9].voters == map[7 := 1]
            && !DoubleEntry(v, map[])
  {
    var w := World(map[7 := Account(4500000, 0, map[], 0)], map[9 := Producer(0, map[], 0)], map[]);
    var ballot: seq<(Address, nat)> := [(9, 2), (9, 1)];
    SumEmpty();
    hide Sum;
    assert DoubleEntry(w, map[]);
    var u := World(map[7 := Account(4000000, 0, map[], 0)], map[9 := Producer(0, map[], 0)], map[]);
    assert ClearVote(w, 7) == Done(w);
    assert Burn(w, 7, TRANSACTION_FEE) == Done(u);
    var t := World(map[7 := Account(4000000, 2, map[9 := 2], 0)], map[9 := Producer(2, map[7 := 2], 0)], map[]);
    assert VoteIncrease(u, 7, 9, 2) == Done(t);
    var v := World(map[7 := Account(4000000, 3, map[9 := 1], 0)], map[9 := Producer(3, map[7 := 1], 0)], map[]);
    assert AddCandidate(t.accounts[7], 9, 1) == v.accounts[7] by { assert map[9 := 2][9 := 1] == map[9 := 1]; }
    assert AddVoter(t.producers[9], 7, 1) == v.producers[9] by { assert map[7 := 2][7 := 1] == map[7 := 1]; }
    assert VoteIncrease(t, 7, 9, 1) == Done(v);
    assert ballot[1..] == [(9, 1)] && |ballot[1..][1..]| == 0;
    assert CastAll(v, 7, []) == Done(v);
    assert CastAll(t, 7, ballot[1..]) == Done(v);
    assert DoVote(w, 7, ballot) == Done(v);
    DoubleEntryExact(w, map[], 7, ballot);
    assert ballot[0].0 == ballot[1].0;
  }
}
