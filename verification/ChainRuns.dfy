/**
 * The chain driven through any sequence of calls, and the run of two solidify calls after
 * which a clean flag stands over half a block.
 */
module ChainRuns {
  import opened Bytes
  import opened Sums
  import opened Ledger
  import opened Disk
  import opened CrashSafety
  import opened LedgerRuns
  import opened Repositories
  import opened Layers
  import opened Solidifying
  import opened Chain
  import opened Runs

  /** The chain as it stands. */
  ghost function Now(chain: BlockChain): Snapshot
    reads chain, chain.Stack(), Repos(chain.queue), chain.db
  {
    Snapshot(chain.Worlds(), chain.MemoryLayers(), chain.orphans != [], chain.episodes)
  }

  /** Every repository from which the chain reads. */
  ghost function Members(chain: BlockChain): set<Repository>
    reads chain
  {
    set r | r in chain.Stack()
  }

  lemma MembersAre(chain: BlockChain)
    ensures forall r :: r in chain.orphans || r in Repos(chain.queue) ==> r in Members(chain)
  {
    assert forall r :: r in chain.orphans || r in Repos(chain.queue) ==> r in chain.Stack();
  }

  lemma NowProper(chain: BlockChain)
    requires chain.Valid()
    ensures Proper(Now(chain))
  {
    hide Seen, Ordered, HasHalf;
    chain.ProperState();
  }

  /** The blocks in memory, from the queue. */
  lemma BlocksOf(chain: BlockChain, ls: seq<Layer>)
    requires |ls| == |chain.queue|
    requires forall i :: 0 <= i < |ls| ==> ls[i].number == chain.queue[i].number && ls[i].block == chain.queue[i].repository.block
    ensures SameBlocks(chain.MemoryLayers(), ls)
  {
  }

  lemma LayersAt(chain: BlockChain)
    ensures |chain.MemoryLayers()| == |chain.queue|
    ensures forall i :: 0 <= i < |chain.queue| ==>
              chain.MemoryLayers()[i].number == chain.queue[i].number && chain.MemoryLayers()[i].block == chain.queue[i].repository.block
  {
  }

  method DoProcess(chain: BlockChain, call: Call)
    requires chain.Valid() && Proper(Now(chain)) && call.Process?
    modifies chain, Members(chain)
    ensures chain.Valid() && Follows(old(Now(chain)), call, Now(chain))
    ensures forall r :: r in Members(chain) ==> r in old(Members(chain)) || fresh(r)
  {
    hide Linked, Journal, Flat, Ordered, HasHalf, BlockChain.Worlds, BlockChain.MemoryLayers, Step, Repos, Proper;
    ghost var ls := chain.MemoryLayers();
    LayersAt(chain);
    MembersAre(chain);
    var ok := chain.ProcessBlock(call.block, call.txs, call.producer, call.bonus, call.now);
    BlocksOf(chain, if ok then ls + [Layer(call.block.number, call.block, NOTHING)] else ls);
  }

  method DoCancel(chain: BlockChain)
    requires chain.Valid() && Proper(Now(chain))
    modifies chain
    ensures chain.Valid() && Follows(old(Now(chain)), CancelTop, Now(chain))
    ensures Members(chain) <= old(Members(chain))
  {
    hide Linked, Journal, Flat, Ordered, HasHalf, BlockChain.Worlds, BlockChain.MemoryLayers, Step, Repos, Proper, SameBlocks;
    ghost var ls := chain.MemoryLayers();
    LayersAt(chain);
    chain.CancelMemoryItem();
    BlocksOf(chain, if ls == [] then [] else ls[..|ls| - 1]);
  }

  method DoSolidify(chain: BlockChain, call: Call)
    requires chain.Valid() && Proper(Now(chain)) && call.Solidify?
    modifies chain, chain.db, Members(chain)
    ensures chain.Valid() && Follows(old(Now(chain)), call, Now(chain))
    ensures Members(chain) <= old(Members(chain))
  {
    hide BlockChain.Valid, BlockChain.Worlds, BlockChain.MemoryLayers, Repos, WorldsAfter, Rounds, Taken, Complete;
    MembersAre(chain);
    var ok := chain.OnSolidifiable(call.number, call.states);
  }

  /** One call, whichever it is. */
  method Do(chain: BlockChain, call: Call)
    requires chain.Valid() && Proper(Now(chain))
    modifies chain, chain.db, Members(chain)
    ensures chain.Valid() && Proper(Now(chain)) && Follows(old(Now(chain)), call, Now(chain))
    ensures forall r :: r in Members(chain) ==> r in old(Members(chain)) || fresh(r)
  {
    hide Members, BlockChain.Valid, BlockChain.Worlds, BlockChain.MemoryLayers, Follows, Proper, Repos;
    match call {
      case Process(_, _, _, _, _) => DoProcess(chain, call);
      case CancelTop => DoCancel(chain);
      case Solidify(_, _) => DoSolidify(chain, call);
    }
    NowProper(chain);
  }

  lemma RunSnoc(calls: seq<Call>, ss: seq<Snapshot>, n: nat, next: Snapshot)
    requires n < |calls| && Run(calls[..n], ss) && Proper(next) && Follows(ss[n], calls[n], next)
    ensures Run(calls[..n + 1], ss + [next])
  {
    hide Proper, Follows;
    var tt, cs := ss + [next], calls[..n + 1];
    forall i | 0 <= i < |cs| ensures Proper(tt[i]) && Follows(tt[i], cs[i], NextOf(tt, i)) {
      if i < n {
        assert calls[..n][i] == cs[i] && NextOf(ss, i) == NextOf(tt, i);
      }
    }
  }

  /**
   * Drives a new chain over a database through any sequence of calls.  No call is ever
   * refused, and what the chain goes through is a run.
   */
  method Drive(db: Database, calls: seq<Call>) returns (chain: BlockChain, ghost ss: seq<Snapshot>)
    requires db.Faithful() && db.journal == []
    modifies db
    ensures fresh(chain) && chain.db == db && chain.Valid()
    ensures Run(calls, ss) && ss[0].worlds == [old(db.store.world)] && ss[|calls|] == Now(chain)
  {
    hide Members, BlockChain.Valid, BlockChain.Worlds, BlockChain.MemoryLayers, Follows, Proper, Repos, Run;
    chain := new BlockChain(db);
    NoMembers(chain);
    ss := [Now(chain)];
    NowProper(chain);
    RunBegins(ss[0]);
    assert calls[..0] == [];
    for n := 0 to |calls|
      invariant chain.Valid() && Proper(Now(chain)) && chain.db == db && fresh(chain)
      invariant fresh(Members(chain))
      invariant |ss| == n + 1 && Run(calls[..n], ss) && ss[n] == Now(chain) && ss[0].worlds == [old(db.store.world)]
    {
      Do(chain, calls[n]);
      RunSnoc(calls, ss, n, Now(chain));
      ss := ss + [Now(chain)];
    }
    assert calls[..|calls|] == calls;
  }

  lemma RunBegins(s: Snapshot)
    requires Proper(s) && s.layers == [] && !s.attached && s.rounds == []
    ensures Run([], [s])
  {
    hide Proper;
  }

  lemma NoMembers(chain: BlockChain)
    requires chain.queue == [] && chain.orphans == []
    ensures Members(chain) == {}
  {
  }

  // ------------------------------------------------------------- what it comes to

  /**
   * The chain after any run: wherever its writes are cut, a clean flag means a whole number
   * of blocks, if and only if no solidify call advanced after one that failed.
   */
  lemma ChainCrashSafe(chain: BlockChain, calls: seq<Call>, ss: seq<Snapshot>)
    requires chain.Valid() && Run(calls, ss) && ss[|calls|] == Now(chain) && Indexed(chain.db.initial)
    requires forall i :: 0 <= i < |calls| ==> CallNumbered(chain.db.initial, ss[i], calls[i])
    ensures (exists items :: Numbered(items) && CrashSafe(chain.db.initial, items, chain.db.journal)) <==>
            StopsAtFailure(calls, ss, |calls|)
  {
    hide BlockChain.Stacked, BlockChain.Worlds, BlockChain.MemoryLayers, CallNumbered, Journal, Flat, CrashSafe, StopsAtFailure, Indexed, Numbered, Follows, Proper;
    RunCrashSafeExact(chain.db.initial, calls, ss, chain.writes);
  }

  /** If every call fitted, the worlds of the chain are in double entry and in range. */
  lemma ChainBalanced(chain: BlockChain, calls: seq<Call>, ss: seq<Snapshot>, start: map<Address, nat>)
    requires Run(calls, ss) && ss[|calls|] == Now(chain) && AllBalanced(ss[0].worlds, start)
    requires forall i :: 0 <= i < |calls| ==> Fits(ss[i], calls[i]) && GoodOp(FlatOp(ss[i], calls[i]))
    ensures AllBalanced(chain.Worlds(), start)
  {
    hide AllBalanced, Fits, GoodOp, FlatOp, Follows, Proper, BlockChain.Worlds, BlockChain.MemoryLayers;
    FittingRunBalanced(calls, ss, |calls|, start);
  }

  // ------------------------------------------------------------------------ an example

  function Paid(balance: nat): World {
    World(map[7 := Account(balance, 0, map[], 0)], map[], map[])
  }

  lemma PaidBlock(balance: nat)
    requires balance < 10
    ensures !Known(Paid(balance), []) && DoBlock(Paid(balance), [], 7, 1, 0) == Done(Paid(balance + 1))
  {
  }

  /** The disk after block 1 was left without its state and block 2 was committed into its cache. */
  lemma HalfABlock(s: Store, cache: World, block: Block, state: BlockState, items: seq<Item>)
    requires Indexed(s) && 1 !in s.stateIndex && block.number == 1 && state.number == 2 && Numbered(items)
    ensures var t := AfterAll(s, [Half(cache, block), Bare(state)]);
            && !t.dirty && t.height == 2 && 1 in t.blockIndex && 1 !in t.stateIndex && 2 in t.stateIndex
            && t != SolidifiedAll(s, items)
  {
    hide Over;
    var es := [Half(cache, block), Bare(state)];
    assert es == [Half(cache, block)] + [Bare(state)];
    AfterAllSnoc(s, [Half(cache, block)], Bare(state));
    AfterAllSnoc(s, [], Half(cache, block));
    assert [] + [Half(cache, block)] == [Half(cache, block)];
    WholeBlocksIndexed(s, items);
  }

  const FIRST := Block(11, 1, 0)
  const SECOND := Block(22, 2, 0)
  const SECOND_STATE := BlockState(22, 2, [])

  /** Two blocks are executed, block 1 is solidified without its state, and then block 2 with its own. */
  const TWO_CALLS: seq<Call> := [Process(FIRST, [], 7, 1, 0), Process(SECOND, [], 7, 1, 0),
                                 Call.Solidify(1, map[]), Call.Solidify(2, map[2 := SECOND_STATE])]

  lemma Executed(s: Snapshot, block: Block, balance: nat, t: Snapshot)
    requires Proper(s) && Follows(s, Process(block, [], 7, 1, 0), t) && balance < 10 && s.worlds != [] && s.worlds[|s.worlds| - 1] == Paid(balance)
    ensures t.worlds == s.worlds + [Paid(balance + 1)] && t.attached == s.attached && t.rounds == s.rounds
    ensures SameBlocks(t.layers, s.layers + [Layer(block.number, block, NOTHING)])
  {
    hide Known, DoBlock, Paid, Proper, SameBlocks;
    PaidBlock(balance);
  }

  lemma TwoExecuted(ss: seq<Snapshot>)
    requires Run(TWO_CALLS, ss) && ss[0].worlds == [Paid(0)]
    ensures ss[2].worlds == [Paid(0), Paid(1), Paid(2)] && !ss[2].attached && ss[2].rounds == []
    ensures |ss[2].layers| == 2 && ss[2].layers[0].number == 1 && ss[2].layers[0].block == FIRST && ss[2].layers[1].number == 2
  {
    hide Follows, Paid, Proper;
    assert Follows(ss[0], TWO_CALLS[0], NextOf(ss, 0));
    Executed(ss[0], FIRST, 0, ss[1]);
    assert Follows(ss[1], TWO_CALLS[1], NextOf(ss, 1));
    Executed(ss[1], SECOND, 1, ss[2]);
  }

  lemma FirstFails(s: Snapshot, t: Snapshot)
    requires Proper(s) && Follows(s, Call.Solidify(1, map[]), t) && !s.attached && s.rounds == []
    requires |s.layers| == 2 && s.layers[0].number == 1 && s.layers[1].number == 2
    ensures t.worlds == s.worlds[1..] && t.attached && t.layers == s.layers[1..] && t.rounds == [Half(s.layers[0].cache, s.layers[0].block)]
  {
    hide Proper;
    WorldsNonempty(s);
  }

  lemma SecondCloses(s: Snapshot, t: Snapshot)
    requires Proper(s) && Follows(s, Call.Solidify(2, map[2 := SECOND_STATE]), t) && s.attached
    requires |s.layers| == 1 && s.layers[0].number == 2
    ensures t.worlds == [s.worlds[0]] && !t.attached && t.layers == [] && t.rounds == s.rounds + [Bare(SECOND_STATE)]
  {
    hide Ordered, HasHalf, Over;
    var states := map[2 := SECOND_STATE];
    assert s.layers[1..] == [] && CachesOf(s.layers)[1..] == [];
    assert Taken(s.layers, 2, states) == 1;
    assert Rounds(true, s.layers, 2, states) == [Bare(SECOND_STATE)];
    assert Layered(s.worlds[0], []) == [s.worlds[0]];
    assert RoundWorlds(true, s.worlds, CachesOf(s.layers), true) == [s.worlds[0]];
    assert WorldsAfter(false, [s.worlds[0]], s.layers[1..], 2, states) == [s.worlds[0]];
  }

  lemma StoreNow(chain: BlockChain)
    requires chain.Valid()
    ensures chain.db.store == AfterAll(chain.db.initial, Now(chain).rounds)
    ensures Now(chain).worlds != [] && chain.db.store.world == Now(chain).worlds[0]
  {
    hide BlockChain.Recorded, AfterAll;
    chain.RecordedFaithful();
  }

  /**
   * A run that ends with the flag down over a disk that no whole number of blocks accounts
   * for: block 1 without its state, the state and height of block 2 without its block, and
   * the ledger without what block 2 did.
   */
  method TwoCalls() returns (db: Database)
    ensures fresh(db) && Indexed(db.initial) && !db.store.dirty && db.store.height == 2 && db.store.world == Paid(1)
    ensures 1 in db.store.blockIndex && 1 !in db.store.stateIndex && 2 in db.store.stateIndex
    ensures forall items :: Numbered(items) ==> db.store != SolidifiedAll(db.initial, items)
  {
    hide BlockChain.Valid, Now, Run, Proper, Follows, AfterAll, SolidifiedAll, Paid;
    db := new Database(Store(Paid(0), map[], map[], map[], map[], 0, [], false));
    var chain;
    ghost var ss;
    chain, ss := Drive(db, TWO_CALLS);
    ghost var cache := TwoCallsEnd(ss);
    StoreNow(chain);
    forall items | Numbered(items)
      ensures db.store != SolidifiedAll(db.initial, items)
    {
      HalfABlock(db.initial, cache, FIRST, SECOND_STATE, items);
    }
    HalfABlock(db.initial, cache, FIRST, SECOND_STATE, []);
  }

  lemma TwoCallsEnd(ss: seq<Snapshot>) returns (cache: World)
    requires Run(TWO_CALLS, ss) && ss[0].worlds == [Paid(0)]
    ensures ss[4].worlds == [Paid(1)] && ss[4].rounds == [Half(cache, FIRST), Bare(SECOND_STATE)]
  {
    hide Proper, Paid, Follows;
    TwoExecuted(ss);
    cache := ss[2].layers[0].cache;
    assert Follows(ss[2], TWO_CALLS[2], NextOf(ss, 2));
    FirstFails(ss[2], ss[3]);
    assert Follows(ss[3], TWO_CALLS[3], NextOf(ss, 3));
    SecondCloses(ss[3], ss[4]);
  }
}
