/**
 * The ledger as one flat world of accounts, producers and transactions, and what each
 * transaction does to it.  An exception is `Thrown`: the caller then drops the whole block.
 */
module Ledger {
  import opened Bytes
  import opened Sums

  type TxId = nat

  datatype Account = Account(balance: nat, votes: nat, candidates: map<Address, nat>, created: int)
  datatype Producer = Producer(votes: nat, voters: map<Address, nat>, created: int)
  datatype Action = Transfer(recipient: Address, value: nat) | Vote(ballot: seq<(Address, nat)>) | BeenProducer | Other
  datatype Transaction = Transaction(id: TxId, sender: Address, action: Action)
  datatype World = World(accounts: map<Address, Account>, producers: map<Address, Producer>, transactions: map<TxId, Transaction>)
  datatype Outcome = Done(world: World) | Thrown

  const TRANSACTION_FEE: nat := 500000
  const PRODUCER_COST: nat := 1024000000
  const VOTE_UNIT: nat := 1000000

  // ------------------------------------------------------- unsigned 64-bit arithmetic

  function Add64(a: nat, b: nat): nat {
    (a + b) % TWO_64
  }

  function Sub64(a: nat, b: nat): nat {
    (a - b) % TWO_64
  }

  function Mul64(a: nat, b: nat): nat {
    a * b % TWO_64
  }

  // ------------------------------------------------------------------------- balances

  function PutAccount(w: World, a: Address, account: Account): World {
    w.(accounts := w.accounts[a := account])
  }

  function PutProducer(w: World, p: Address, producer: Producer): World {
    w.(producers := w.producers[p := producer])
  }

  function PutTransaction(w: World, id: TxId, tx: Transaction): World {
    w.(transactions := w.transactions[id := tx])
  }

  function NewAccount(now: int): Account {
    Account(0, 0, map[], now)
  }

  function AccountOr(w: World, a: Address, now: int): Account {
    if a in w.accounts then w.accounts[a] else NewAccount(now)
  }

  /** `burn`: the sender must exist and have the amount. */
  function Burn(w: World, a: Address, value: nat): Outcome {
    if a !in w.accounts || w.accounts[a].balance < value then Thrown
    else Done(PutAccount(w, a, w.accounts[a].(balance := w.accounts[a].balance - value)))
  }

  /** `transfer`: both accounts are read before either is written. */
  function Send(w: World, from: Address, to: Address, value: nat, now: int): Outcome {
    if from !in w.accounts then Thrown else
      var source, target := w.accounts[from], AccountOr(w, to, now);
      if source.balance < value || Add64(target.balance, value) < value then Thrown
      else Done(PutAccount(PutAccount(w, from, source.(balance := source.balance - value)),
                           to, target.(balance := Add64(target.balance, value))))
  }

  /** `bonus`: no check for overflow. */
  function Bonus(w: World, a: Address, value: nat): Outcome {
    if a !in w.accounts then Thrown
    else Done(PutAccount(w, a, w.accounts[a].(balance := Add64(w.accounts[a].balance, value))))
  }

  // ---------------------------------------------------------------------------- votes

  function AddCandidate(a: Account, candidate: Address, value: nat): Account {
    a.(candidates := a.candidates[candidate := value], votes := Add64(a.votes, value))
  }

  function AddVoter(p: Producer, voter: Address, value: nat): Producer {
    p.(voters := p.voters[voter := value], votes := Add64(p.votes, value))
  }

  function EraseVoter(p: Producer, voter: Address): Producer {
    if voter in p.voters then
      p.(voters := p.voters - {voter}, votes := Sub64(p.votes, p.voters[voter]))
    else
      p
  }

  /** Taking a voter off every one of a set of producers. */
  function Erased(producers: map<Address, Producer>, candidates: set<Address>, voter: Address): map<Address, Producer> {
    map p | p in producers :: if p in candidates then EraseVoter(producers[p], voter) else producers[p]
  }

  /** `clearVote`: the voter leaves every producer it voted for. */
  function ClearVote(w: World, voter: Address): Outcome {
    if voter !in w.accounts then Thrown else
      var account := w.accounts[voter];
      if !(account.candidates.Keys <= w.producers.Keys) then Thrown
      else Done(PutAccount(w.(producers := Erased(w.producers, account.candidates.Keys, voter)),
                           voter, account.(candidates := map[], votes := 0)))
  }

  /** `voteIncrease`: the check is in unsigned 64-bit arithmetic. */
  function VoteIncrease(w: World, voter: Address, candidate: Address, value: nat): Outcome {
    if voter !in w.accounts || candidate !in w.producers then Thrown else
      var account := w.accounts[voter];
      if Sub64(account.balance, Mul64(account.votes, VOTE_UNIT)) < Mul64(value, VOTE_UNIT) then Thrown
      else Done(PutProducer(PutAccount(w, voter, AddCandidate(account, candidate, value)),
                            candidate, AddVoter(w.producers[candidate], voter, value)))
  }

  function CastAll(w: World, voter: Address, ballot: seq<(Address, nat)>): Outcome
    decreases |ballot|
  {
    if ballot == [] then Done(w) else
      match VoteIncrease(w, voter, ballot[0].0, ballot[0].1)
      case Thrown => Thrown
      case Done(v) => CastAll(v, voter, ballot[1..])
  }

  // --------------------------------------------------------------------- transactions

  function DoTransfer(w: World, sender: Address, recipient: Address, value: nat, now: int): Outcome {
    match Burn(w, sender, TRANSACTION_FEE)
    case Thrown => Thrown
    case Done(v) => Send(v, sender, recipient, value, now)
  }

  function DoVote(w: World, sender: Address, ballot: seq<(Address, nat)>): Outcome {
    match ClearVote(w, sender)
    case Thrown => Thrown
    case Done(v) =>
      match Burn(v, sender, TRANSACTION_FEE)
      case Thrown => Thrown
      case Done(u) => CastAll(u, sender, ballot)
  }

  function DoBeenProducer(w: World, sender: Address, now: int): Outcome {
    match Burn(w, sender, TRANSACTION_FEE)
    case Thrown => Thrown
    case Done(v) =>
      if sender in v.producers then Done(v) else
        match Burn(v, sender, PRODUCER_COST)
        case Thrown => Thrown
        case Done(u) => Done(PutProducer(u, sender, Producer(0, map[], now)))
  }

  function DoAction(w: World, tx: Transaction, now: int): Outcome {
    match tx.action
    case Transfer(recipient, value) => DoTransfer(w, tx.sender, recipient, value, now)
    case Vote(ballot) => DoVote(w, tx.sender, ballot)
    case BeenProducer => DoBeenProducer(w, tx.sender, now)
    case Other => Done(w)
  }

  function DoTransaction(w: World, tx: Transaction, now: int): Outcome {
    match DoAction(w, tx, now)
    case Thrown => Thrown
    case Done(v) => Done(PutTransaction(v, tx.id, tx))
  }

  function DoAll(w: World, txs: seq<Transaction>, now: int): Outcome
    decreases |txs|
  {
    if txs == [] then Done(w) else
      match DoTransaction(w, txs[0], now)
      case Thrown => Thrown
      case Done(v) => DoAll(v, txs[1..], now)
  }

  /** The ledger part of executing a block: its transactions, then the bonus for its producer. */
  function DoBlock(w: World, txs: seq<Transaction>, producer: Address, bonus: nat, now: int): Outcome {
    match DoAll(w, txs, now)
    case Thrown => Thrown
    case Done(v) => Bonus(v, producer, bonus)
  }
}
