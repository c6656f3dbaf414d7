/**
 * The stack of repositories: each block not yet solidified has a cache over its
 * parent's cache, down to the database.  Reading fills the caches on the way.
 */
module Repositories {
  import opened Bytes
  import opened Sums
  import opened Ledger
  import opened Disk

  class Database {
    var store: Store
    ghost const initial: Store
    ghost var journal: seq<Write>

    /** The stores are what the writes issued so far have made of those the database was opened with. */
    ghost predicate Faithful()
      reads this
    {
      store == ApplyAll(initial, journal)
    }

    /** The stores now, from those at an earlier point of the journal. */
    lemma FaithfulStep(before: Store, journal0: seq<Write>, ws: seq<Write>)
      requires Faithful() && before == ApplyAll(initial, journal0) && journal == journal0 + ws
      ensures store == ApplyAll(before, ws)
    {
      ApplyConcat(initial, journal0, ws);
    }

    constructor (store: Store)
      ensures this.store == initial == store && journal == [] && Faithful()
    {
      this.store, initial, journal := store, store, [];
    }

    /** One write; they reach the disk in the order in which they are issued. */
    method Put(w: Write)
      requires Faithful()
      modifies this
      ensures store == Apply(old(store), w) && journal == old(journal) + [w] && Faithful()
    {
      ApplySnoc(initial, journal, w);
      store := Apply(store, w);
      journal := journal + [w];
    }
  }

  /** The repositories of a stack, bottom first: each one's parent is the one below it. */
  ghost predicate Linked(chain: seq<Repository>, db: Database)
    reads chain`parent
  {
    chain != [] ==>
      var (below, top) := (chain[..|chain| - 1], chain[|chain| - 1]);
      && Linked(below, db) && top !in below && top.dbc == db
      && top.parent == if below == [] then null else below[|below| - 1]
  }

  /** The world on disk, and then what each repository of the stack makes of it: the flat overlay of the caches. */
  ghost function Views(chain: seq<Repository>, db: Database): (vs: seq<World>)
    reads chain, db
    ensures |vs| == |chain| + 1
  {
    if chain == [] then [db.store.world] else
      var below := Views(chain[..|chain| - 1], db);
      below + [Over(below[|chain| - 1], chain[|chain| - 1].Cache())]
  }

  ghost function Top(chain: seq<Repository>, db: Database): World
    reads chain, db
  {
    Views(chain, db)[|chain|]
  }

  /** What everyone below the top sees. */
  ghost function Below(chain: seq<Repository>, db: Database): seq<World>
    reads chain, db
  {
    Views(chain, db)[..|chain|]
  }

  function OptionalSet(r: Repository?): set<Repository> {
    if r == null then {} else {r}
  }

  function Lookup<K, V>(m: map<K, V>, k: K): Option<V> {
    if k in m then Some(m[k]) else None
  }

  /** What the database has, every repository sees, though perhaps changed. */
  lemma {:induction false} DatabaseBelow(chain: seq<Repository>, db: Database)
    ensures db.store.world.accounts.Keys <= Top(chain, db).accounts.Keys
    ensures db.store.world.producers.Keys <= Top(chain, db).producers.Keys
    ensures db.store.world.transactions.Keys <= Top(chain, db).transactions.Keys
  {
    if chain != [] {
      DatabaseBelow(chain[..|chain| - 1], db);
    }
  }

  lemma ParentTop(chain: seq<Repository>, db: Database)
    requires Linked(chain, db) && chain != []
    ensures var (below, top) := (chain[..|chain| - 1], chain[|chain| - 1]);
            if top.parent == null then below == [] else top.parent.TopOf(below) && top.parent.dbc == db == top.dbc
  {
  }

  /** What the top sees: its own cache first, and then what is below. */
  lemma TopSees(chain: seq<Repository>, db: Database, a: Address, id: TxId)
    requires chain != []
    ensures var (base, cache, top) := (Views(chain, db)[|chain| - 1], chain[|chain| - 1].Cache(), Top(chain, db));
            && Lookup(top.accounts, a) == (if a in cache.accounts then Some(cache.accounts[a]) else Lookup(base.accounts, a))
            && Lookup(top.producers, a) == (if a in cache.producers then Some(cache.producers[a]) else Lookup(base.producers, a))
            && Lookup(top.transactions, id) == (if id in cache.transactions then Some(cache.transactions[id]) else Lookup(base.transactions, id))
  {
  }

  /** Views that differ only at the top. */
  ghost function WithTop(vs: seq<World>, w: World): seq<World>
    requires vs != []
  {
    vs[|vs| - 1 := w]
  }

  lemma SameTop(vs: seq<World>, w: World)
    requires vs != [] && vs[|vs| - 1] == w
    ensures WithTop(vs, w) == vs
  {
  }

  class Repository {
    var parent: Repository?
    const dbc: Database
    const block: Block
    var cacheAccount: map<Address, Account>
    var cacheProducer: map<Address, Producer>
    var cacheTransaction: map<TxId, Transaction>

    ghost function Cache(): World
      reads `cacheAccount, `cacheProducer, `cacheTransaction
    {
      World(cacheAccount, cacheProducer, cacheTransaction)
    }

    constructor (block: Block, parent: Repository?, dbc: Database)
      ensures this.block == block && this.parent == parent && this.dbc == dbc
      ensures Cache() == World(map[], map[], map[])
    {
      this.block, this.parent, this.dbc := block, parent, dbc;
      cacheAccount, cacheProducer, cacheTransaction := map[], map[], map[];
    }

    /** This repository is the top of the stack `chain`. */
    ghost predicate TopOf(chain: seq<Repository>)
      reads chain`parent
    {
      chain != [] && chain[|chain| - 1] == this && Linked(chain, dbc)
    }

    // ---------------------------------------------------------------- writing

    method PutAccount(a: Address, account: Account, ghost chain: seq<Repository>)
      requires TopOf(chain)
      modifies `cacheAccount
      ensures Views(chain, dbc) == WithTop(old(Views(chain, dbc)), Ledger.PutAccount(old(Top(chain, dbc)), a, account))
      ensures Below(chain, dbc) == old(Below(chain, dbc)) && Top(chain, dbc) == Ledger.PutAccount(old(Top(chain, dbc)), a, account)
      ensures cacheAccount == old(cacheAccount)[a := account]
    {
      ghost var base := Top(chain[..|chain| - 1], dbc);
      assert base.accounts + cacheAccount[a := account] == (base.accounts + cacheAccount)[a := account];
      cacheAccount := cacheAccount[a := account];
    }

    method PutProducer(p: Address, producer: Producer, ghost chain: seq<Repository>)
      requires TopOf(chain)
      modifies `cacheProducer
      ensures Views(chain, dbc) == WithTop(old(Views(chain, dbc)), Ledger.PutProducer(old(Top(chain, dbc)), p, producer))
      ensures Below(chain, dbc) == old(Below(chain, dbc)) && Top(chain, dbc) == Ledger.PutProducer(old(Top(chain, dbc)), p, producer)
      ensures cacheProducer == old(cacheProducer)[p := producer]
    {
      ghost var base := Top(chain[..|chain| - 1], dbc);
      assert base.producers + cacheProducer[p := producer] == (base.producers + cacheProducer)[p := producer];
      cacheProducer := cacheProducer[p := producer];
    }

    method PutTransaction(id: TxId, tx: Transaction, ghost chain: seq<Repository>)
      requires TopOf(chain)
      modifies `cacheTransaction
      ensures Views(chain, dbc) == WithTop(old(Views(chain, dbc)), Ledger.PutTransaction(old(Top(chain, dbc)), id, tx))
      ensures Below(chain, dbc) == old(Below(chain, dbc)) && Top(chain, dbc) == Ledger.PutTransaction(old(Top(chain, dbc)), id, tx)
      ensures cacheTransaction == old(cacheTransaction)[id := tx]
    {
      ghost var base := Top(chain[..|chain| - 1], dbc);
      assert base.transactions + cacheTransaction[id := tx] == (base.transactions + cacheTransaction)[id := tx];
      cacheTransaction := cacheTransaction[id := tx];
    }

    // ---------------------------------------------------------------- reading

    /** Reading an account: from the cache, the parents or the database, and never changing what anyone sees. */
    method GetAccount(a: Address, ghost chain: seq<Repository>) returns (r: Option<Account>)
      requires TopOf(chain)
      modifies chain`cacheAccount
      ensures Views(chain, dbc) == old(Views(chain, dbc))
      ensures Below(chain, dbc) == old(Below(chain, dbc)) && Top(chain, dbc) == old(Top(chain, dbc))
      ensures r == Lookup(Top(chain, dbc).accounts, a)
      ensures cacheAccount == if r.Some? then old(cacheAccount)[a := r.value] else old(cacheAccount)
      decreases |chain|, 1
    {
      hide Over;
      TopSees(chain, dbc, a, 0);
      if a in cacheAccount {
        return Some(cacheAccount[a]);
      }
      hide Views;
      r := AccountBelow(a, chain);
      if r.Some? {
        assert old(Top(chain, dbc)).accounts[a := r.value] == old(Top(chain, dbc)).accounts;
        PutAccount(a, r.value, chain);
        SameTop(old(Views(chain, dbc)), old(Top(chain, dbc)));
      }
    }

    method AccountBelow(a: Address, ghost chain: seq<Repository>) returns (r: Option<Account>)
      requires TopOf(chain)
      modifies chain[..|chain| - 1]`cacheAccount
      ensures Views(chain, dbc) == old(Views(chain, dbc))
      ensures r == Lookup(Views(chain, dbc)[|chain| - 1].accounts, a)
      decreases |chain|, 0
    {
      ghost var below := chain[..|chain| - 1];
      hide Over;
      ParentTop(chain, dbc);
      DatabaseBelow(below, dbc);
      if parent != null {
        r := parent.GetAccount(a, below);
        if r.Some? {
          return;
        }
      }
      r := Lookup(dbc.store.world.accounts, a);
    }

    /** Reading a producer: from the cache, the parents or the database, and never changing what anyone sees. */
    method GetProducer(p: Address, ghost chain: seq<Repository>) returns (r: Option<Producer>)
      requires TopOf(chain)
      modifies chain`cacheProducer
      ensures Views(chain, dbc) == old(Views(chain, dbc))
      ensures Below(chain, dbc) == old(Below(chain, dbc)) && Top(chain, dbc) == old(Top(chain, dbc))
      ensures r == Lookup(Top(chain, dbc).producers, p)
      ensures cacheProducer == if r.Some? then old(cacheProducer)[p := r.value] else old(cacheProducer)
      decreases |chain|, 1
    {
      hide Over;
      TopSees(chain, dbc, p, 0);
      if p in cacheProducer {
        return Some(cacheProducer[p]);
      }
      hide Views;
      r := ProducerBelow(p, chain);
      if r.Some? {
        assert old(Top(chain, dbc)).producers[p := r.value] == old(Top(chain, dbc)).producers;
        PutProducer(p, r.value, chain);
        SameTop(old(Views(chain, dbc)), old(Top(chain, dbc)));
      }
    }

    method ProducerBelow(p: Address, ghost chain: seq<Repository>) returns (r: Option<Producer>)
      requires TopOf(chain)
      modifies chain[..|chain| - 1]`cacheProducer
      ensures Views(chain, dbc) == old(Views(chain, dbc))
      ensures r == Lookup(Views(chain, dbc)[|chain| - 1].producers, p)
      decreases |chain|, 0
    {
      ghost var below := chain[..|chain| - 1];
      hide Over;
      ParentTop(chain, dbc);
      DatabaseBelow(below, dbc);
      if parent != null {
        r := parent.GetProducer(p, below);
        if r.Some? {
          return;
        }
      }
      r := Lookup(dbc.store.world.producers, p);
    }

    /** Reading a transaction: from the cache, the parents or the database, and never changing what anyone sees. */
    method GetTransaction(id: TxId, ghost chain: seq<Repository>) returns (r: Option<Transaction>)
      requires TopOf(chain)
      modifies chain`cacheTransaction
      ensures Views(chain, dbc) == old(Views(chain, dbc))
      ensures Below(chain, dbc) == old(Below(chain, dbc)) && Top(chain, dbc) == old(Top(chain, dbc))
      ensures r == Lookup(Top(chain, dbc).transactions, id)
      ensures cacheTransaction == if r.Some? then old(cacheTransaction)[id := r.value] else old(cacheTransaction)
      decreases |chain|, 1
    {
      hide Over;
      TopSees(chain, dbc, 0, id);
      if id in cacheTransaction {
        return Some(cacheTransaction[id]);
      }
      hide Views;
      r := TransactionBelow(id, chain);
      if r.Some? {
        assert old(Top(chain, dbc)).transactions[id := r.value] == old(Top(chain, dbc)).transactions;
        PutTransaction(id, r.value, chain);
        SameTop(old(Views(chain, dbc)), old(Top(chain, dbc)));
      }
    }

    method TransactionBelow(id: TxId, ghost chain: seq<Repository>) returns (r: Option<Transaction>)
      requires TopOf(chain)
      modifies chain[..|chain| - 1]`cacheTransaction
      ensures Views(chain, dbc) == old(Views(chain, dbc))
      ensures r == Lookup(Views(chain, dbc)[|chain| - 1].transactions, id)
      decreases |chain|, 0
    {
      ghost var below := chain[..|chain| - 1];
      hide Over;
      ParentTop(chain, dbc);
      DatabaseBelow(below, dbc);
      if parent != null {
        r := parent.GetTransaction(id, below);
        if r.Some? {
          return;
        }
      }
      r := Lookup(dbc.store.world.transactions, id);
    }

    // ---------------------------------------------------------------- balances

    method Transfer(from: Address, to: Address, value: nat, now: int, ghost chain: seq<Repository>) returns (ok: bool)
      requires TopOf(chain)
      modifies chain`cacheAccount
      ensures Below(chain, dbc) == old(Below(chain, dbc))
      ensures Result(ok, Top(chain, dbc)) == Send(old(Top(chain, dbc)), from, to, value, now)
    {
      hide Views, Over, Below, Top;
      var source := GetAccount(from, chain);
      var target := GetAccount(to, chain);
      if source.None? {
        return false;
      }
      var account := if target.None? then NewAccount(now) else target.value;
      if source.value.balance < value || Add64(account.balance, value) < value {
        return false;
      }
      PutAccount(from, source.value.(balance := source.value.balance - value), chain);
      PutAccount(to, account.(balance := Add64(account.balance, value)), chain);
      ok := true;
    }

    method BurnFrom(target: Address, value: nat, ghost chain: seq<Repository>) returns (ok: bool)
      requires TopOf(chain)
      modifies chain`cacheAccount
      ensures Below(chain, dbc) == old(Below(chain, dbc))
      ensures Result(ok, Top(chain, dbc)) == Burn(old(Top(chain, dbc)), target, value)
    {
      hide Views, Over, Below, Top;
      var account := GetAccount(target, chain);
      if account.None? || account.value.balance < value {
        return false;
      }
      PutAccount(target, account.value.(balance := account.value.balance - value), chain);
      ok := true;
    }

    method BonusTo(target: Address, value: nat, ghost chain: seq<Repository>) returns (ok: bool)
      requires TopOf(chain)
      modifies chain`cacheAccount
      ensures Below(chain, dbc) == old(Below(chain, dbc))
      ensures Result(ok, Top(chain, dbc)) == Bonus(old(Top(chain, dbc)), target, value)
    {
      hide Views, Over, Below, Top;
      var account := GetAccount(target, chain);
      if account.None? {
        return false;
      }
      PutAccount(target, account.value.(balance := Add64(account.value.balance, value)), chain);
      ok := true;
    }

    // ------------------------------------------------------------------- votes

    method IncreaseVote(voter: Address, candidate: Address, value: nat, ghost chain: seq<Repository>) returns (ok: bool)
      requires TopOf(chain)
      modifies chain`cacheAccount, chain`cacheProducer
      ensures Below(chain, dbc) == old(Below(chain, dbc))
      ensures Result(ok, Top(chain, dbc)) == VoteIncrease(old(Top(chain, dbc)), voter, candidate, value)
    {
      hide Views, Over, Below, Top, Sub64, Mul64, Add64;
      var account := GetAccount(voter, chain);
      if account.None? {
        return false;
      }
      var producer := GetProducer(candidate, chain);
      if producer.None? {
        return false;
      }
      if Sub64(account.value.balance, Mul64(account.value.votes, VOTE_UNIT)) < Mul64(value, VOTE_UNIT) {
        return false;
      }
      PutAccount(voter, AddCandidate(account.value, candidate, value), chain);
      PutProducer(candidate, Ledger.AddVoter(producer.value, voter, value), chain);
      ok := true;
    }

    /** Takes the voter off its candidates one by one, in any order, up to the first that is no producer. */
    method EraseFrom(voter: Address, candidates: set<Address>, ghost chain: seq<Repository>) returns (ok: bool)
      requires TopOf(chain)
      modifies chain`cacheProducer
      ensures Below(chain, dbc) == old(Below(chain, dbc))
      ensures ok <==> candidates <= old(Top(chain, dbc)).producers.Keys
      ensures ok ==> Top(chain, dbc) == old(Top(chain, dbc)).(producers := Erased(old(Top(chain, dbc)).producers, candidates, voter))
    {
      hide Views, Over, Below, Top, EraseVoter, Erased;
      ghost var w := Top(chain, dbc);
      var todo := candidates;
      ghost var done: set<Address> := {};
      ErasedMore(w.producers, {}, voter, voter);
      while todo != {}
        invariant todo + done == candidates && todo !! done && done <= w.producers.Keys
        invariant Below(chain, dbc) == old(Below(chain, dbc))
        invariant Top(chain, dbc) == w.(producers := Erased(w.producers, done, voter))
        decreases |todo|
      {
        var c :| c in todo;
        ErasedMore(w.producers, done, c, voter);
        var producer := GetProducer(c, chain);
        if producer.None? {
          return false;
        }
        PutProducer(c, EraseVoter(producer.value, voter), chain);
        todo, done := todo - {c}, done + {c};
      }
      ok := true;
    }

    method ClearVotes(voter: Address, ghost chain: seq<Repository>) returns (ok: bool)
      requires TopOf(chain)
      modifies chain`cacheAccount, chain`cacheProducer
      ensures Below(chain, dbc) == old(Below(chain, dbc))
      ensures ok <==> ClearVote(old(Top(chain, dbc)), voter).Done?
      ensures ok ==> Done(Top(chain, dbc)) == ClearVote(old(Top(chain, dbc)), voter)
    {
      hide Views, Over, Below, Top, EraseVoter, Erased;
      var account := GetAccount(voter, chain);
      if account.None? {
        return false;
      }
      ok := EraseFrom(voter, account.value.candidates.Keys, chain);
      if ok {
        PutAccount(voter, account.value.(candidates := map[], votes := 0), chain);
      }
    }

    // ----------------------------------------------------------------- actions

    method ExecuteTransfer(sender: Address, recipient: Address, value: nat, now: int, ghost chain: seq<Repository>) returns (ok: bool)
      requires TopOf(chain)
      modifies chain`cacheAccount
      ensures Below(chain, dbc) == old(Below(chain, dbc))
      ensures ok <==> DoTransfer(old(Top(chain, dbc)), sender, recipient, value, now).Done?
      ensures ok ==> Done(Top(chain, dbc)) == DoTransfer(old(Top(chain, dbc)), sender, recipient, value, now)
    {
      hide Views, Over, Below, Top, Burn, Send;
      ok := BurnFrom(sender, TRANSACTION_FEE, chain);
      if ok {
        ok := Transfer(sender, recipient, value, now, chain);
      }
    }

    method ExecuteBeenProducer(sender: Address, now: int, ghost chain: seq<Repository>) returns (ok: bool)
      requires TopOf(chain)
      modifies chain`cacheAccount, chain`cacheProducer
      ensures Below(chain, dbc) == old(Below(chain, dbc))
      ensures ok <==> DoBeenProducer(old(Top(chain, dbc)), sender, now).Done?
      ensures ok ==> Done(Top(chain, dbc)) == DoBeenProducer(old(Top(chain, dbc)), sender, now)
    {
      hide Views, Over, Below, Top, Burn;
      ok := BurnFrom(sender, TRANSACTION_FEE, chain);
      if ok {
        var target := GetProducer(sender, chain);
        if target.None? {
          ok := BurnFrom(sender, PRODUCER_COST, chain);
          if ok {
            PutProducer(sender, Producer(0, map[], now), chain);
          }
        }
      }
    }

    method ExecuteVote(sender: Address, ballot: seq<(Address, nat)>, ghost chain: seq<Repository>) returns (ok: bool)
      requires TopOf(chain)
      modifies chain`cacheAccount, chain`cacheProducer
      ensures Below(chain, dbc) == old(Below(chain, dbc))
      ensures ok <==> DoVote(old(Top(chain, dbc)), sender, ballot).Done?
      ensures ok ==> Done(Top(chain, dbc)) == DoVote(old(Top(chain, dbc)), sender, ballot)
    {
      hide Views, Over, Below, Top, Burn, ClearVote, VoteIncrease;
      ok := ClearVotes(sender, chain);
      if !ok {
        return;
      }
      ok := BurnFrom(sender, TRANSACTION_FEE, chain);
      if !ok {
        return;
      }
      ghost var w := Top(chain, dbc);
      for i := 0 to |ballot|
        invariant Below(chain, dbc) == old(Below(chain, dbc))
        invariant CastAll(Top(chain, dbc), sender, ballot[i..]) == CastAll(w, sender, ballot)
      {
        assert ballot[i..][1..] == ballot[i + 1..];
        ok := IncreaseVote(sender, ballot[i].0, ballot[i].1, chain);
        if !ok {
          return;
        }
      }
      ok := true;
    }

    /** One transaction, and its entry in the repository. */
    method ExecuteTransaction(tx: Transaction, now: int, ghost chain: seq<Repository>) returns (ok: bool)
      requires TopOf(chain)
      modifies chain`cacheAccount, chain`cacheProducer, chain`cacheTransaction
      ensures Below(chain, dbc) == old(Below(chain, dbc))
      ensures ok <==> DoTransaction(old(Top(chain, dbc)), tx, now).Done?
      ensures ok ==> Done(Top(chain, dbc)) == DoTransaction(old(Top(chain, dbc)), tx, now)
    {
      hide Views, Over, Below, Top, DoTransfer, DoVote, DoBeenProducer;
      match tx.action {
        case Transfer(recipient, value) => ok := ExecuteTransfer(tx.sender, recipient, value, now, chain);
        case Vote(ballot) => ok := ExecuteVote(tx.sender, ballot, chain);
        case BeenProducer => ok := ExecuteBeenProducer(tx.sender, now, chain);
        case Other => ok := true;
      }
      if ok {
        PutTransaction(tx.id, tx, chain);
      }
    }

    /** All transactions of a block in turn, up to the first exception. */
    method ExecuteAll(txs: seq<Transaction>, now: int, ghost chain: seq<Repository>) returns (ok: bool)
      requires TopOf(chain)
      modifies chain`cacheAccount, chain`cacheProducer, chain`cacheTransaction
      ensures Below(chain, dbc) == old(Below(chain, dbc))
      ensures ok <==> DoAll(old(Top(chain, dbc)), txs, now).Done?
      ensures ok ==> Done(Top(chain, dbc)) == DoAll(old(Top(chain, dbc)), txs, now)
    {
      hide Views, Over, Below, Top, DoTransaction;
      for i := 0 to |txs|
        invariant Below(chain, dbc) == old(Below(chain, dbc))
        invariant DoAll(Top(chain, dbc), txs[i..], now) == DoAll(old(Top(chain, dbc)), txs, now)
      {
        assert txs[i..][1..] == txs[i + 1..];
        ok := ExecuteTransaction(txs[i], now, chain);
        if !ok {
          return;
        }
      }
      ok := true;
    }

    // ------------------------------------------------------------------ commit

    /** Writes the cached accounts to the database, in any order. */
    method WriteAccounts() returns (ghost ws: seq<Write>)
      requires dbc.Faithful()
      modifies dbc
      ensures dbc.journal == old(dbc.journal) + ws && Quiet(ws) && dbc.Faithful()
      ensures dbc.store == WithAccounts(old(dbc.store), cacheAccount)
    {
      hide Apply, ApplyAll, Restrict, WithAccounts, Quiet;
      ws := [];
      ghost var done: set<Address> := {};
      var todo := cacheAccount.Keys;
      AccountsWritten(dbc.store, cacheAccount, {}, 0);
      while todo != {}
        invariant todo + done == cacheAccount.Keys && todo !! done
        invariant dbc.journal == old(dbc.journal) + ws && Quiet(ws) && dbc.Faithful()
        invariant dbc.store == WithAccounts(old(dbc.store), Restrict(cacheAccount, done))
        decreases |todo|
      {
        var a :| a in todo;
        AccountsWritten(old(dbc.store), cacheAccount, done, a);
        QuietSnoc(ws, AccountWrite(a, cacheAccount[a]));
        dbc.Put(AccountWrite(a, cacheAccount[a]));
        ws := ws + [AccountWrite(a, cacheAccount[a])];
        todo, done := todo - {a}, done + {a};
      }
      AccountsWritten(old(dbc.store), cacheAccount, done, 0);
    }

    method WriteProducers() returns (ghost ws: seq<Write>)
      requires dbc.Faithful()
      modifies dbc
      ensures dbc.journal == old(dbc.journal) + ws && Quiet(ws) && dbc.Faithful()
      ensures dbc.store == WithProducers(old(dbc.store), cacheProducer)
    {
      hide Apply, ApplyAll, Restrict, WithProducers, Quiet;
      ws := [];
      ghost var done: set<Address> := {};
      var todo := cacheProducer.Keys;
      ProducersWritten(dbc.store, cacheProducer, {}, 0);
      while todo != {}
        invariant todo + done == cacheProducer.Keys && todo !! done
        invariant dbc.journal == old(dbc.journal) + ws && Quiet(ws) && dbc.Faithful()
        invariant dbc.store == WithProducers(old(dbc.store), Restrict(cacheProducer, done))
        decreases |todo|
      {
        var p :| p in todo;
        ProducersWritten(old(dbc.store), cacheProducer, done, p);
        QuietSnoc(ws, ProducerWrite(p, cacheProducer[p]));
        dbc.Put(ProducerWrite(p, cacheProducer[p]));
        ws := ws + [ProducerWrite(p, cacheProducer[p])];
        todo, done := todo - {p}, done + {p};
      }
      ProducersWritten(old(dbc.store), cacheProducer, done, 0);
    }

    method WriteTransactions() returns (ghost ws: seq<Write>)
      requires dbc.Faithful()
      modifies dbc
      ensures dbc.journal == old(dbc.journal) + ws && Quiet(ws) && dbc.Faithful()
      ensures dbc.store == WithTransactions(old(dbc.store), cacheTransaction)
    {
      hide Apply, ApplyAll, Restrict, WithTransactions, Quiet;
      ws := [];
      ghost var done: set<TxId> := {};
      var todo := cacheTransaction.Keys;
      TransactionsWritten(dbc.store, cacheTransaction, {}, 0);
      while todo != {}
        invariant todo + done == cacheTransaction.Keys && todo !! done
        invariant dbc.journal == old(dbc.journal) + ws && Quiet(ws) && dbc.Faithful()
        invariant dbc.store == WithTransactions(old(dbc.store), Restrict(cacheTransaction, done))
        decreases |todo|
      {
        var id :| id in todo;
        TransactionsWritten(old(dbc.store), cacheTransaction, done, id);
        QuietSnoc(ws, TransactionWrite(id, cacheTransaction[id]));
        dbc.Put(TransactionWrite(id, cacheTransaction[id]));
        ws := ws + [TransactionWrite(id, cacheTransaction[id])];
        todo, done := todo - {id}, done + {id};
      }
      TransactionsWritten(old(dbc.store), cacheTransaction, done, 0);
    }

    /** Commits into the parent: every cached entry is put there. */
    method CommitToParent()
      requires parent != null && parent != this
      modifies parent`cacheAccount, parent`cacheProducer, parent`cacheTransaction
      ensures parent.Cache() == Over(old(parent.Cache()), Cache())
    {
      parent.cacheAccount := Merged(parent.cacheAccount, cacheAccount);
      parent.cacheProducer := Merged(parent.cacheProducer, cacheProducer);
      parent.cacheTransaction := Merged(parent.cacheTransaction, cacheTransaction);
    }

    /**
     * Commits into the parent's cache, if there is a parent, and otherwise the cache and
     * the block into the database.
     */
    method Commit() returns (ghost ws: seq<Write>)
      requires parent != this && dbc.Faithful()
      modifies dbc, OptionalSet(parent)`cacheAccount, OptionalSet(parent)`cacheProducer, OptionalSet(parent)`cacheTransaction
      ensures dbc.Faithful() && dbc.journal == old(dbc.journal) + ws && Quiet(ws)
      ensures parent == null ==> dbc.store == Committed(old(dbc.store), Cache(), block)
      ensures parent != null ==> ws == [] && dbc.store == old(dbc.store) && parent.Cache() == Over(old(parent.Cache()), Cache())
    {
      hide ApplyAll, Committed, Over;
      if parent != null {
        CommitToParent();
        ws := [];
      } else {
        ws := CommitToDatabase();
      }
    }

    method CommitToDatabase() returns (ghost ws: seq<Write>)
      requires parent == null && dbc.Faithful()
      modifies dbc
      ensures dbc.journal == old(dbc.journal) + ws && Quiet(ws) && dbc.Faithful()
      ensures dbc.store == Committed(old(dbc.store), Cache(), block)
    {
      hide ApplyAll;
      var a := WriteAccounts();
      var p := WriteProducers();
      var t := WriteTransactions();
      ghost var b := [BlockWrite(block), BlockIndexWrite(block)];
      assert Quiet(b);
      hide Quiet;
      QuietAll(a, p, t, b);
      dbc.Put(BlockWrite(block));
      dbc.Put(BlockIndexWrite(block));
      ws := a + p + t + b;
    }

    /** The producers as this repository sees them: its parent's list, or the database's, with its own on top. */
    method GetProducerList(ghost chain: seq<Repository>) returns (r: map<Address, Producer>)
      requires TopOf(chain)
      ensures r == Top(chain, dbc).producers
      decreases |chain|
    {
      ParentTop(chain, dbc);
      TopProducers(chain, dbc);
      hide Top, Views, Over, TopOf, Linked;
      if parent != null {
        r := parent.GetProducerList(chain[..|chain| - 1]);
      } else {
        r := dbc.store.world.producers;
      }
      r := Merged(r, cacheProducer);
    }
  }

  /** Puts every entry of one map into another, in any order. */
  method Merged<V>(into: map<nat, V>, from: map<nat, V>) returns (r: map<nat, V>)
    ensures r == into + from
  {
    r := into;
    ghost var done: set<nat> := {};
    var todo := from.Keys;
    RestrictFacts(into, from, {}, 0);
    while todo != {}
      invariant todo + done == from.Keys && todo !! done
      invariant r == into + Restrict(from, done)
      decreases |todo|
    {
      var k :| k in todo;
      RestrictFacts(into, from, done, k);
      r := r[k := from[k]];
      todo, done := todo - {k}, done + {k};
    }
    RestrictFacts(into, from, done, 0);
  }

  /** What is committed into the parent's cache is seen there as it was seen above. */
  lemma CommitMovesView(base: World, parent: World, cache: World)
    ensures Over(base, Over(parent, cache)) == Over(Over(base, parent), cache)
  {
    MergeAssociative(base.accounts, parent.accounts, cache.accounts);
    MergeAssociative(base.producers, parent.producers, cache.producers);
    MergeAssociative(base.transactions, parent.transactions, cache.transactions);
  }

  lemma MergeAssociative<V>(a: map<nat, V>, b: map<nat, V>, c: map<nat, V>)
    ensures a + (b + c) == (a + b) + c
  {
  }

  lemma TopProducers(chain: seq<Repository>, db: Database)
    requires chain != []
    ensures Top(chain, db).producers == Top(chain[..|chain| - 1], db).producers + chain[|chain| - 1].cacheProducer
    ensures Top([], db).producers == db.store.world.producers
  {
  }

  function WithAccounts(s: Store, m: map<Address, Account>): Store {
    s.(world := s.world.(accounts := s.world.accounts + m))
  }

  function WithProducers(s: Store, m: map<Address, Producer>): Store {
    s.(world := s.world.(producers := s.world.producers + m))
  }

  function WithTransactions(s: Store, m: map<TxId, Transaction>): Store {
    s.(world := s.world.(transactions := s.world.transactions + m))
  }

  lemma AccountsWritten(s: Store, m: map<Address, Account>, done: set<Address>, k: Address)
    ensures WithAccounts(s, Restrict(m, {})) == s && Quiet([])
    ensures done == m.Keys ==> Restrict(m, done) == m
    ensures k in m ==> Apply(WithAccounts(s, Restrict(m, done)), AccountWrite(k, m[k])) == WithAccounts(s, Restrict(m, done + {k}))
  {
    RestrictFacts(s.world.accounts, m, done, k);
  }

  lemma ProducersWritten(s: Store, m: map<Address, Producer>, done: set<Address>, k: Address)
    ensures WithProducers(s, Restrict(m, {})) == s && Quiet([])
    ensures done == m.Keys ==> Restrict(m, done) == m
    ensures k in m ==> Apply(WithProducers(s, Restrict(m, done)), ProducerWrite(k, m[k])) == WithProducers(s, Restrict(m, done + {k}))
  {
    RestrictFacts(s.world.producers, m, done, k);
  }

  lemma TransactionsWritten(s: Store, m: map<TxId, Transaction>, done: set<TxId>, k: TxId)
    ensures WithTransactions(s, Restrict(m, {})) == s && Quiet([])
    ensures done == m.Keys ==> Restrict(m, done) == m
    ensures k in m ==> Apply(WithTransactions(s, Restrict(m, done)), TransactionWrite(k, m[k])) == WithTransactions(s, Restrict(m, done + {k}))
  {
    RestrictFacts(s.world.transactions, m, done, k);
  }

  function Restrict<V>(m: map<nat, V>, keys: set<nat>): map<nat, V> {
    map k | k in m && k in keys :: m[k]
  }

  lemma QuietSnoc(ws: seq<Write>, w: Write)
    requires Quiet(ws)
    ensures Quiet(ws + [w]) == !w.DirtyWrite?
  {
    assert (ws + [w])[|ws|] == w;
  }

  lemma QuietAll(a: seq<Write>, b: seq<Write>, c: seq<Write>, d: seq<Write>)
    requires Quiet(a) && Quiet(b) && Quiet(c) && Quiet(d)
    ensures Quiet(a + b + c + d)
  {
  }

  lemma RestrictFacts<V>(base: map<nat, V>, m: map<nat, V>, done: set<nat>, k: nat)
    ensures base + Restrict(m, {}) == base
    ensures k in m ==> base + Restrict(m, done + {k}) == (base + Restrict(m, done))[k := m[k]]
    ensures done == m.Keys ==> Restrict(m, done) == m
  {
  }

  function Result(ok: bool, w: World): Outcome {
    if ok then Done(w) else Thrown
  }

  lemma ErasedMore(producers: map<Address, Producer>, done: set<Address>, c: Address, voter: Address)
    requires c !in done
    ensures Erased(producers, {}, voter) == producers
    ensures c in producers <==> c in Erased(producers, done, voter)
    ensures c in producers ==>
              && Erased(producers, done, voter)[c] == producers[c]
              && Erased(producers, done + {c}, voter) == Erased(producers, done, voter)[c := EraseVoter(producers[c], voter)]
  {
  }
}
