/**
 * The queue of blocks in memory: blocks are pushed and executed on top, cancelled from
 * the top, and solidified from the bottom.
 */
module Chain {
  import opened Bytes
  import opened Sums
  import opened Ledger
  import opened Disk
  import opened CrashSafety
  import opened LedgerRuns
  import opened Repositories
  import opened Layers
  import opened Solidifying

  datatype MemoryItem = MemoryItem(number: nat, repository: Repository)

  function Repos(queue: seq<MemoryItem>): (chain: seq<Repository>)
    ensures |chain| == |queue| && forall i :: 0 <= i < |queue| ==> chain[i] == queue[i].repository
  {
    seq(|queue|, i requires 0 <= i < |queue| => queue[i].repository)
  }

  lemma RoundCloses(s: Store, attached: bool, cache: World, block: Block, state: BlockState)
    ensures var half, e := RoundOf(attached, cache, block, None), RoundOf(attached, cache, block, Some(state));
            !Closes(half) && Closes(e) && Stated(AfterEpisode(s, half), state) == AfterEpisode(s, e)
  {
    if !attached {
      CommittedAndStated(s, Item(cache, block, state));
    }
  }

  lemma ParentOfFront(chain: seq<Repository>, db: Database, k: nat)
    requires Linked(chain, db) && k < |chain|
    ensures chain[k].dbc == db && chain[k].parent != chain[k]
    ensures chain[k].parent == if k == 0 then null else chain[k - 1]
    ensures chain[k] !in chain[..k]
  {
    hide Linked;
    LinkedAt(chain, db, k);
    assert k > 0 ==> chain[k - 1] in chain[..k];
  }

  /** The state of the chain when a call of the solidify loop begins. */
  datatype Start = Start(q: seq<MemoryItem>, ls: seq<Layer>, v: seq<World>, es: seq<Episode>, orphans: seq<Repository>)

  /** The caches of the stack after its member `m` was committed. */
  function CachesAfter(cs: seq<World>, m: nat): (ds: seq<World>)
    requires m < |cs|
    ensures |ds| == |cs|
  {
    if m == 0 then cs else cs[m - 1 := Over(cs[m - 1], cs[m])]
  }

  lemma RoundWorldOnDisk(s: Store, attached: bool, cache: World, block: Block, state: Option<BlockState>)
    ensures AfterEpisode(s, RoundOf(attached, cache, block, state)).world == if attached then s.world else Over(s.world, cache)
  {
    hide Over;
  }

  lemma AfterAllSnoc(s: Store, es: seq<Episode>, e: Episode)
    ensures AfterAll(s, es + [e]) == AfterEpisode(AfterAll(s, es), e)
  {
    assert (es + [e])[..|es|] == es;
  }

  /** The worlds before and after a round, both read off the caches of the stack, are related as `RoundWorlds` says. */
  lemma RoundSeen(m: nat, cs: seq<World>, d: World, next: World, ok: bool, v: seq<World>, w: seq<World>, ds: seq<World>)
    requires m < |cs| && v == [d] + Layered(d, cs)[m + 1..]
    requires next == if m > 0 then d else Over(d, cs[0])
    requires ok || |cs| == m + 1 ==> w == Layered(next, cs[m + 1..])
    requires !(ok || |cs| == m + 1) ==> ds == CachesAfter(cs, m) && w == [next] + Layered(next, ds)[m + 2..]
    ensures w == RoundWorlds(m > 0, v, cs[m..], ok)
  {
    hide Over, Layered, CachesAfter, RoundWorlds;
    if m == 0 {
      FreeRoundSeen(cs, d, ok, v, w);
      assert cs[0..] == cs;
    } else {
      AttachedRoundSeen(m, cs, d, ok, v, w, ds);
    }
  }

  lemma FreeRoundSeen(cs: seq<World>, d: World, ok: bool, v: seq<World>, w: seq<World>)
    requires cs != [] && v == [d] + Layered(d, cs)[1..]
    requires ok || |cs| == 1 ==> w == Layered(Over(d, cs[0]), cs[1..])
    requires !(ok || |cs| == 1) ==> w == [Over(d, cs[0])] + Layered(Over(d, cs[0]), CachesAfter(cs, 0))[2..]
    ensures w == RoundWorlds(false, v, cs, ok)
  {
    hide Over, Layered;
    LayersDetach(d, cs);
    CommitIntoDatabase(d, cs);
  }

  lemma AttachedRoundSeen(m: nat, cs: seq<World>, d: World, ok: bool, v: seq<World>, w: seq<World>, ds: seq<World>)
    requires 0 < m < |cs| && v == [d] + Layered(d, cs)[m + 1..]
    requires ok || |cs| == m + 1 ==> w == Layered(d, cs[m + 1..])
    requires !(ok || |cs| == m + 1) ==> ds == CachesAfter(cs, m) && w == [d] + Layered(d, ds)[m + 2..]
    ensures w == RoundWorlds(true, v, cs[m..], ok)
  {
    hide Over, Layered, CachesAfter;
    assert cs[m..][1..] == cs[m + 1..];
    assert v[2..] == Layered(d, cs)[m + 2..];
    BaseFirst(d, cs[m + 1..]);
    if |cs| > m + 1 {
      CommittedTail(d, cs, m);
    }
  }

  lemma CommittedTail(d: World, cs: seq<World>, m: nat)
    requires 0 < m && m + 1 < |cs|
    ensures Layered(d, CachesAfter(cs, m))[m + 2..] == Layered(d, cs)[m + 2..]
  {
    hide Layered, Over;
    CommitIntoParent(d, cs, m - 1);
    var a, b := Layered(d, CachesAfter(cs, m)), Layered(d, cs);
    assert a[m + 2..] == a[m + 1..][1..] && b[m + 2..] == b[m + 1..][1..];
  }

  lemma TailAfter(cs: seq<World>, m: nat)
    requires m < |cs|
    ensures CachesAfter(cs, m)[m + 1..] == cs[m..][1..] && cs[m..][0] == cs[m]
  {
  }

  lemma CachesChanged(chain: seq<Repository>, cs: seq<World>, m: nat)
    requires m < |chain| == |cs|
    requires forall i :: 0 <= i < |chain| && i != m - 1 ==> chain[i].Cache() == cs[i]
    requires m > 0 ==> chain[m - 1].Cache() == Over(cs[m - 1], cs[m])
    ensures Caches(chain) == CachesAfter(cs, m)
  {
    hide Over, Caches;
    CachesAre(chain);
  }

  lemma Distinct(chain: seq<Repository>, db: Database)
    requires Linked(chain, db)
    ensures forall i, j :: 0 <= i < j < |chain| ==> chain[i] != chain[j]
  {
    hide Linked;
    LinkedParents(chain, db);
  }

  lemma ReposFrom(queue: seq<MemoryItem>, k: nat)
    requires k <= |queue|
    ensures Repos(queue[k..]) == Repos(queue)[k..]
    ensures forall r :: r in Repos(queue[k..]) ==> r in Repos(queue)
  {
  }

  lemma TailOf<T>(s: seq<T>, t: nat)
    requires t < |s|
    ensures s[t..][1..] == s[t + 1..] && s[t..][0] == s[t]
  {
  }

  lemma ReposTail(queue: seq<MemoryItem>)
    requires queue != []
    ensures Repos(queue[1..]) == Repos(queue)[1..]
  {
  }

  class BlockChain {
    const db: Database
    var queue: seq<MemoryItem>
    /**
     * Repositories that have left the queue and are still the parents of its front: there
     * are some after a block state was missing.
     */
    ghost var orphans: seq<Repository>
    /** The rounds of solidifying so far, and their writes. */
    ghost var episodes: seq<Episode>
    ghost var writes: seq<seq<Write>>

    /** All repositories from which the top reads, bottom first. */
    ghost function Stack(): seq<Repository>
      reads this
    {
      orphans + Repos(queue)
    }

    ghost predicate Stacked()
      reads this, Stack()`parent
    {
      Linked(Stack(), db) && (queue == [] ==> orphans == [])
    }

    /** What is on disk is what the rounds have written. */
    ghost predicate Recorded()
      reads this, db
    {
      && db.Faithful() && Journal(db.initial, episodes, writes) && db.journal == Flat(writes)
      && Ordered(episodes) && (orphans != [] ==> HasHalf(episodes))
    }

    ghost predicate Valid()
      reads this, db, Stack()`parent
    {
      Stacked() && Recorded()
    }

    /** The world on disk and the world after each block in memory. */
    ghost function Worlds(): (vs: seq<World>)
      reads this, Stack(), db
      ensures |vs| == |queue| + 1
    {
      [db.store.world] + Views(Stack(), db)[|orphans| + 1..]
    }

    /** The newest world. */
    ghost function Newest(): World
      reads this, Stack(), db
    {
      Worlds()[|queue|]
    }

    constructor (db: Database)
      requires db.Faithful() && db.journal == []
      ensures Valid() && this.db == db && queue == [] && Worlds() == [db.store.world] && orphans == [] && episodes == []
    {
      this.db, queue, orphans, episodes, writes := db, [], [], [], [];
      new;
      JournalEmpty(db.initial);
      NoHalf();
    }

    /** The top of the stack sees the newest world. */
    lemma NewestIsTop()
      requires Stacked()
      ensures queue != [] ==> Newest() == Top(Stack(), db) && queue[|queue| - 1].repository.TopOf(Stack()) && queue[|queue| - 1].repository.dbc == db
      ensures queue == [] ==> Newest() == db.store.world
      ensures queue != [] ==> Worlds()[..|queue|] == [db.store.world] + Below(Stack(), db)[|orphans| + 1..]
    {
      hide Over;
    }

    /** A new repository on top; it sees what the one below it sees. */
    method AddMemoryItem(block: Block)
      requires Stacked()
      modifies `queue
      ensures Stacked() && queue != [] && fresh(queue[|queue| - 1].repository)
      ensures queue == old(queue) + [MemoryItem(block.number, queue[|queue| - 1].repository)]
      ensures queue[|queue| - 1].repository.block == block && Stack() == old(Stack()) + [queue[|queue| - 1].repository]
      ensures Worlds() == old(Worlds()) + [old(Newest())]
    {
      hide Views, Over, Linked, Top;
      EmptyViews(db);
      ghost var before := Stack();
      TopIsLast(before, db);
      var parent := if queue == [] then null else queue[|queue| - 1].repository;
      var repository := new Repository(block, parent, db);
      queue := queue + [MemoryItem(block.number, repository)];
      assert Stack() == before + [repository];
      LinkedSnoc(Stack(), db, before, repository);
      EmptyCacheView(Stack(), db, before, repository);
    }

    /** The top repository goes, and with it all it held. */
    method CancelMemoryItem()
      requires Stacked()
      modifies `queue, `orphans
      ensures Stacked() && orphans == (if queue == [] then [] else old(orphans))
      ensures queue == if old(queue) == [] then [] else old(queue)[..|old(queue)| - 1]
      ensures Worlds() == Step(old(Worlds()), Cancel)
    {
      if queue != [] {
        ghost var before := Stack();
        queue := queue[..|queue| - 1];
        assert Stack() == before[..|before| - 1];
        if queue == [] {
          orphans := [];
        }
      }
    }

    /** Whether the newest world has the transaction. */
    method IsExistInRepo(id: TxId) returns (found: bool)
      requires Stacked()
      modifies Stack()`cacheTransaction
      ensures Worlds() == old(Worlds()) && found == (id in Newest().transactions)
    {
      hide Views, Over, Top, Below, Linked;
      NewestIsTop();
      var tx;
      if queue != [] {
        tx := queue[|queue| - 1].repository.GetTransaction(id, Stack());
      } else {
        tx := Lookup(db.store.world.transactions, id);
      }
      found := tx.Some?;
    }

    method AnyExists(txs: seq<Transaction>) returns (found: bool)
      requires Stacked()
      modifies Stack()`cacheTransaction
      ensures Worlds() == old(Worlds()) && found == Known(Newest(), txs)
    {
      hide Views, Linked, Worlds;
      for i := 0 to |txs|
        invariant Worlds() == old(Worlds()) && !Known(Newest(), txs[..i])
      {
        found := IsExistInRepo(txs[i].id);
        if found {
          return;
        }
      }
      assert txs[..|txs|] == txs;
      found := false;
    }

    /** Executes a block on the top repository. */
    method ExecuteOnTop(txs: seq<Transaction>, producer: Address, bonus: nat, now: int) returns (ok: bool)
      requires Stacked() && queue != []
      modifies Stack()`cacheAccount, Stack()`cacheProducer, Stack()`cacheTransaction
      ensures Worlds()[..|queue|] == old(Worlds())[..|queue|]
      ensures ok <==> DoBlock(old(Newest()), txs, producer, bonus, now).Done?
      ensures ok ==> Done(Newest()) == DoBlock(old(Newest()), txs, producer, bonus, now)
    {
      hide Views, DoAll, Bonus, Linked, Top, Below, Worlds;
      NewestIsTop();
      var top := queue[|queue| - 1].repository;
      ok := top.ExecuteAll(txs, now, Stack());
      if ok {
        ok := top.BonusTo(producer, bonus, Stack());
      }
      NewestIsTop();
    }

    /** Pushes a repository and executes the block on it; on an exception it is cancelled again. */
    method TryBlock(block: Block, txs: seq<Transaction>, producer: Address, bonus: nat, now: int) returns (ok: bool)
      requires Stacked()
      modifies `queue, `orphans, Stack()`cacheAccount, Stack()`cacheProducer, Stack()`cacheTransaction
      ensures Stacked() && orphans == (if queue == [] then [] else old(orphans)) && forall r :: r in Stack() ==> r in old(Stack()) || fresh(r)
      ensures ok <==> DoBlock(old(Newest()), txs, producer, bonus, now).Done?
      ensures ok ==> |queue| == |old(queue)| + 1 && queue == old(queue) + [MemoryItem(block.number, queue[|queue| - 1].repository)] && queue[|queue| - 1].repository.block == block
      ensures ok ==> Worlds() == old(Worlds()) + [DoBlock(old(Newest()), txs, producer, bonus, now).world]
      ensures !ok ==> queue == old(queue) && Worlds() == old(Worlds())
    {
      hide Views, Linked, DoBlock, Worlds, Repos;
      AddMemoryItem(block);
      ok := ExecuteOnTop(txs, producer, bonus, now);
      if !ok {
        CancelMemoryItem();
      }
    }

    /**
     * Executing a block: on success there is one world more, on an exception the
     * ledger is as it was.
     */
    method ProcessBlock(block: Block, txs: seq<Transaction>, producer: Address, bonus: nat, now: int) returns (ok: bool)
      requires Stacked()
      modifies `queue, `orphans, Stack()`cacheAccount, Stack()`cacheProducer, Stack()`cacheTransaction
      ensures Stacked() && orphans == (if queue == [] then [] else old(orphans)) && forall r :: r in Stack() ==> r in old(Stack()) || fresh(r)
      ensures ok <==> !Known(old(Newest()), txs) && DoBlock(old(Newest()), txs, producer, bonus, now).Done?
      ensures ok ==> |queue| == |old(queue)| + 1 && queue == old(queue) + [MemoryItem(block.number, queue[|queue| - 1].repository)] && queue[|queue| - 1].repository.block == block
      ensures !ok ==> queue == old(queue)
      ensures Worlds() == Step(old(Worlds()), Execute(txs, producer, bonus, now))
    {
      hide Views, Linked, DoBlock, Known, Worlds, Repos;
      var found := AnyExists(txs);
      if found {
        return false;
      }
      ok := TryBlock(block, txs, producer, bonus, now);
    }

    // -------------------------------------------------------------------- solidifying

    /** The caches of the blocks in memory. */
    ghost function LayerCaches(): (cs: seq<World>)
      reads this, Repos(queue)`cacheAccount, Repos(queue)`cacheProducer, Repos(queue)`cacheTransaction
      ensures |cs| == |queue|
    {
      Caches(Repos(queue))
    }

    /** The front commits: into its parent's cache if it still has one, and otherwise to disk. */
    method CommitFront() returns (ghost ws: seq<Write>)
      requires Valid() && queue != []
      modifies `queue, db, orphans`cacheAccount, orphans`cacheProducer, orphans`cacheTransaction
      ensures queue == old(queue)[1..] && db.Faithful() && Quiet(ws)
      ensures db.journal == old(db.journal) + ([DirtyWrite(true)] + ws)
      ensures db.store == AfterEpisode(old(db.store), RoundOf(orphans != [], old(queue)[0].repository.Cache(), old(queue)[0].repository.block, None))
      ensures orphans != [] ==> orphans[|orphans| - 1].Cache() == Over(old(orphans[|orphans| - 1].Cache()), old(queue)[0].repository.Cache())
      ensures forall r :: r in orphans && r != orphans[|orphans| - 1] ==> r.Cache() == old(r.Cache())
    {
      hide Linked, ApplyAll, Quiet, Committed, Over, Journal, Flat, Ordered, HasHalf, Views, Repos;
      ParentOfFront(Stack(), db, |orphans|);
      var item := queue[0];
      assert item.repository == Stack()[|orphans|];
      db.Put(DirtyWrite(true));
      queue := queue[1..];
      ws := item.repository.Commit();
      assert db.journal == old(db.journal) + ([DirtyWrite(true)] + ws);
    }

    lemma RecordedFaithful()
      requires Recorded()
      ensures db.Faithful() && db.store == AfterAll(db.initial, episodes) && db.store == ApplyAll(db.initial, db.journal)
    {
      JournalDone(db.initial, episodes, writes);
    }

    /** The second half: height, active producers and block state, and the dirty flag goes down. */
    method WriteState(state: BlockState)
      requires db.Faithful()
      modifies db
      ensures db.journal == old(db.journal) + StateWrites(state) && db.Faithful()
      ensures db.store == Stated(old(db.store), state)
    {
      hide ApplyAll, Apply, Stated;
      StateApplied(db.store, state);
      db.Put(HeightWrite(state.number));
      db.Put(ActiveProducersWrite(state.activeProducers));
      db.Put(StateWrite(state));
      db.Put(StateIndexWrite(state));
      db.Put(DirtyWrite(false));
    }

    /** All that one round writes; without the block state there is an exception and the flag stays up. */
    method WriteFront(states: map<nat, BlockState>) returns (ok: bool, ghost e: Episode, ghost w: seq<Write>)
      requires Valid() && queue != []
      modifies `queue, db, orphans`cacheAccount, orphans`cacheProducer, orphans`cacheTransaction
      ensures queue == old(queue)[1..] && db.Faithful() && db.journal == old(db.journal) + w
      ensures ok <==> old(queue)[0].number in states
      ensures e == RoundOf(orphans != [], old(queue)[0].repository.Cache(), old(queue)[0].repository.block, Lookup(states, old(queue)[0].number))
      ensures EpisodeWrites(old(db.store), e, w) && db.store == AfterEpisode(old(db.store), e)
      ensures orphans != [] ==> orphans[|orphans| - 1].Cache() == Over(old(orphans[|orphans| - 1].Cache()), old(queue)[0].repository.Cache())
      ensures forall r :: r in orphans && r != orphans[|orphans| - 1] ==> r.Cache() == old(r.Cache())
    {
      hide Stacked, Recorded, AfterEpisode, EpisodeWrites, ApplyAll, Apply, Quiet, StateWrites, Stated, Over, Repos;
      var item := queue[0];
      ghost var cache := item.repository.Cache();
      ghost var half := RoundOf(orphans != [], cache, item.repository.block, None);
      RecordedFaithful();
      var commit := CommitFront();
      w := [DirtyWrite(true)] + commit;
      e := half;
      ok := item.number in states;
      db.FaithfulStep(old(db.store), old(db.journal), w);
      if ok {
        e := RoundOf(orphans != [], cache, item.repository.block, Some(states[item.number]));
        RoundCloses(old(db.store), orphans != [], cache, item.repository.block, states[item.number]);
        StateWrittenAfter(old(db.store), half, commit, states[item.number], e);
        WriteState(states[item.number]);
        assert old(db.journal) + w + StateWrites(states[item.number]) == old(db.journal) + (w + StateWrites(states[item.number]));
        w := w + StateWrites(states[item.number]);
      } else {
        CommitWritten(old(db.store), half, commit);
      }
    }

    /** The worlds, from the caches. */
    lemma WorldsAreLayers()
      ensures Worlds() == [db.store.world] + Layered(db.store.world, Caches(Stack()))[|orphans| + 1..]
      ensures orphans == [] ==> Worlds() == Layered(db.store.world, LayerCaches())
      ensures Caches(Stack())[|orphans|..] == LayerCaches()
    {
      hide Over, Layered, Views, Caches, Repos;
      ViewsAreLayers(Stack(), db);
      CachesSlice(Stack(), |orphans|);
      assert Stack()[|orphans|..] == Repos(queue);
      BaseFirst(db.store.world, Caches(Stack()));
    }

    ghost method RecordRound(e: Episode, w: seq<Write>, before: Store, journal: seq<Write>)
      requires Journal(db.initial, episodes, writes) && Ordered(episodes) && (e.Bare? || e.Idle? ==> HasHalf(episodes))
      requires before == AfterAll(db.initial, episodes) && EpisodeWrites(before, e, w)
      requires journal == Flat(writes) && db.journal == journal + w && db.Faithful()
      modifies `episodes, `writes
      ensures episodes == old(episodes) + [e] && (HasHalf(episodes) <==> HasHalf(old(episodes)) || e.Half?)
      ensures db.Faithful() && Journal(db.initial, episodes, writes) && db.journal == Flat(writes) && Ordered(episodes)
    {
      hide Journal, Ordered, HasHalf, Flat, EpisodeWrites, AfterAll, ApplyAll;
      JournalSnoc(db.initial, episodes, writes, e, w);
      SoundSnoc(episodes, e);
      HalfSnoc(episodes, e);
      episodes, writes := episodes + [e], writes + [w];
    }

    /** Cuts the bottom of the queue off from the repositories that have left it. */
    method Detach()
      requires LinkedAbove(Repos(queue), db)
      modifies `orphans, Repos(queue)`parent
      ensures Stacked() && orphans == []
    {
      hide Linked, Repos;
      ghost var rest := Repos(queue);
      if queue != [] {
        queue[0].repository.parent := null;
      }
      orphans := [];
      assert Stack() == rest;
      LinkedAgain(rest, db);
    }

    /** After a round the new front is cut off; after an exception it is not. */
    method Settle(ok: bool, ghost chain: seq<Repository>)
      requires Linked(chain, db) && |orphans| < |chain| && chain == orphans + [chain[|orphans|]] + Repos(queue)
      modifies `orphans, Repos(queue)`parent
      ensures Stacked()
      ensures ok || queue == [] ==> orphans == []
      ensures !ok && queue != [] ==> orphans == chain[..|old(orphans)| + 1] && Stack() == chain
    {
      hide Linked, Repos;
      ghost var k := |orphans| + 1;
      assert chain[k..] == Repos(queue);
      LinkedSlice(chain, db, k);
      if ok {
        Detach();
      } else if queue == [] {
        orphans := [];
        LinkedAgain(Repos(queue), db);
        assert Stack() == Repos(queue);
      } else {
        orphans := chain[..k];
        assert Stack() == chain;
      }
    }

    /** The same, with what becomes of the caches of the whole stack. */
    method WriteStack(states: map<nat, BlockState>) returns (ok: bool, ghost e: Episode, ghost w: seq<Write>)
      requires Valid() && queue != []
      modifies `queue, db, orphans`cacheAccount, orphans`cacheProducer, orphans`cacheTransaction
      ensures queue == old(queue)[1..] && db.Faithful() && db.journal == old(db.journal) + w
      ensures ok <==> old(queue)[0].number in states
      ensures e == RoundOf(orphans != [], old(Caches(Stack())[|orphans|]), old(queue)[0].repository.block, Lookup(states, old(queue)[0].number))
      ensures EpisodeWrites(old(db.store), e, w)
      ensures Caches(old(Stack())) == CachesAfter(old(Caches(Stack())), |orphans|)
    {
      hide Recorded, EpisodeWrites, AfterEpisode, ApplyAll, Linked, Over, Repos, Caches;
      ghost var chain, m, cs := Stack(), |orphans|, Caches(Stack());
      CachesAre(chain);
      Distinct(chain, db);
      assert forall i :: 0 <= i < m ==> chain[i] == orphans[i];
      ok, e, w := WriteFront(states);
      CachesChanged(chain, cs, m);
    }

    /** One round of the loop: what becomes of the queue, the disk and the caches. */
    method SolidifyRound(states: map<nat, BlockState>) returns (ok: bool)
      requires Valid() && queue != []
      modifies this, db, Stack()`parent, orphans`cacheAccount, orphans`cacheProducer, orphans`cacheTransaction
      ensures Valid() && queue == old(queue)[1..] && (ok <==> old(queue)[0].number in states)
      ensures episodes == old(episodes) + [RoundOf(old(orphans) != [], old(LayerCaches())[0], old(queue)[0].repository.block, Lookup(states, old(queue)[0].number))]
      ensures ok || queue == [] ==> orphans == []
      ensures !ok && queue != [] ==> orphans == old(orphans) + [old(queue)[0].repository]
      ensures LayerCaches() == old(LayerCaches())[1..]
      ensures !ok && queue != [] ==> Caches(Stack()) == CachesAfter(old(Caches(Stack())), |old(orphans)|)
    {
      hide Journal, Flat, Ordered, HasHalf, EpisodeWrites, AfterEpisode, ApplyAll, Linked, Over, Repos, Caches, AfterAll;
      ghost var chain, m, cs := Stack(), |orphans|, Caches(Stack());
      RecordedFaithful();
      CachesSlice(chain, m);
      ReposTail(queue);
      assert chain[m..] == Repos(queue) && chain == orphans + [chain[m]] + Repos(queue)[1..] && chain[m + 1..] == Repos(queue)[1..];
      ghost var before, journal := db.store, db.journal;
      ghost var e, w;
      ok, e, w := WriteStack(states);
      RecordRound(e, w, before, journal);
      CachesSlice(chain, m + 1);
      TailAfter(cs, m);
      assert Caches(chain[m + 1..]) == old(LayerCaches())[1..];
      Settle(ok, chain);
      assert Repos(queue) == chain[m + 1..];
    }

    /**
     * One round and what everyone sees after it.  If the front had no parent, every world
     * that remains is as it was, block state or not.  If it still had one, its block does
     * not reach the disk, and a round that closes lays the remaining caches on a disk
     * without it.
     */
    method SolidifyFront(states: map<nat, BlockState>) returns (ok: bool)
      requires Valid() && queue != []
      modifies this, db, Stack()`parent, orphans`cacheAccount, orphans`cacheProducer, orphans`cacheTransaction
      ensures Valid() && queue == old(queue)[1..] && (ok <==> old(queue)[0].number in states)
      ensures episodes == old(episodes) + [RoundOf(old(orphans) != [], old(LayerCaches())[0], old(queue)[0].repository.block, Lookup(states, old(queue)[0].number))]
      ensures ok || queue == [] ==> orphans == []
      ensures !ok && queue != [] ==> orphans == old(orphans) + [old(queue)[0].repository]
      ensures LayerCaches() == old(LayerCaches())[1..]
      ensures Worlds() == RoundWorlds(old(orphans) != [], old(Worlds()), old(LayerCaches()), ok)
    {
      hide Recorded, Linked, Over, Repos, Caches, Layered, Worlds, AfterEpisode, RoundWorlds, CachesAfter, RoundOf;
      ghost var m, cs, d, v := |orphans|, Caches(Stack()), db.store.world, Worlds();
      WorldsAreLayers();
      RecordedFaithful();
      ghost var before := db.store;
      ok := SolidifyRound(states);
      RecordedFaithful();
      AfterAllSnoc(db.initial, old(episodes), episodes[|episodes| - 1]);
      RoundWorldOnDisk(before, m > 0, cs[m], old(queue)[0].repository.block, Lookup(states, old(queue)[0].number));
      WorldsAreLayers();
      RoundSeen(m, cs, d, db.store.world, ok, v, Worlds(), if ok || queue == [] then [] else Caches(Stack()));
    }

    // ---------------------------------------------------------------------- the loop

    /** The blocks in memory. */
    ghost function MemoryLayers(): (ls: seq<Layer>)
      reads this, Repos(queue)`cacheAccount, Repos(queue)`cacheProducer, Repos(queue)`cacheTransaction
      ensures |ls| == |queue| && CachesOf(ls) == LayerCaches()
      ensures forall i :: 0 <= i < |queue| ==> ls[i] == Layer(queue[i].number, queue[i].repository.block, LayerCaches()[i])
    {
      var cs, q := LayerCaches(), queue;
      seq(|q|, i requires 0 <= i < |q| => Layer(q[i].number, q[i].repository.block, cs[i]))
    }

    /** What the worlds have to do with the caches, and the rounds with the parent left behind. */
    lemma ProperState()
      requires Valid()
      ensures Seen(orphans != [], Worlds(), MemoryLayers())
      ensures Ordered(episodes) && (orphans != [] ==> HasHalf(episodes)) && db.store == AfterAll(db.initial, episodes)
    {
      hide Over, Layered, Caches, Repos, MemoryLayers, Ordered, HasHalf, Journal, Flat, Linked, ApplyAll, AfterAll;
      WorldsAreLayers();
      RecordedFaithful();
      var cs, m, d := Caches(Stack()), |orphans|, db.store.world;
      LayeredFrom(d, cs, m + if queue == [] then 0 else 1);
      BaseFirst(d, cs);
      if orphans != [] {
        assert LayerCaches()[1..] == cs[m + 1..];
        assert Worlds()[1..] == Layered(d, cs)[m + 1..];
        assert Worlds()[1] == Layered(d, cs)[m + 1];
      }
    }

    /** One round, on the blocks in memory. */
    method SolidifyNext(states: States) returns (ok: bool)
      requires Valid() && queue != []
      modifies this, db, orphans, Repos(queue)
      ensures Valid() && queue == old(queue)[1..] && (ok <==> old(queue)[0].number in states)
      ensures MemoryLayers() == old(MemoryLayers())[1..]
      ensures episodes == old(episodes) + [FrontRound(old(orphans) != [], old(MemoryLayers()), states)]
      ensures Worlds() == RoundWorlds(old(orphans) != [], old(Worlds()), CachesOf(old(MemoryLayers())), ok)
      ensures ok || queue == [] ==> orphans == []
      ensures !ok && queue != [] ==> orphans == old(orphans) + [old(queue)[0].repository]
    {
      hide Recorded, Stacked, Worlds, LayerCaches, RoundWorlds, Repos;
      ok := SolidifyFront(states);
    }

    /** `t` rounds have closed since the call began. */
    ghost predicate Reached(c: Start, number: nat, states: States, t: nat)
      reads this, db, Stack(), Repos(queue)
    {
      && Valid() && t <= |c.q| == |c.ls| && queue == c.q[t..] && MemoryLayers() == c.ls[t..]
      && SameCall(orphans != [], Worlds(), c.ls[t..], episodes, t, c.orphans != [], c.v, c.ls, c.es, number, states)
      && orphans == (if t == 0 then c.orphans else [])
    }

    /** The call has ended: it took `t` blocks and threw unless `ok`. */
    ghost predicate Ended(c: Start, number: nat, states: States, t: nat, ok: bool)
      requires |c.v| == |c.ls| + 1
      reads this, db, Stack(), Repos(queue)
    {
      && Valid() && t == Taken(c.ls, number, states) <= |c.q| && queue == c.q[t..] && MemoryLayers() == c.ls[t..]
      && (ok <==> Complete(c.ls, number, states))
      && episodes == c.es + Rounds(c.orphans != [], c.ls, number, states)
      && Worlds() == WorldsAfter(c.orphans != [], c.v, c.ls, number, states)
      && (orphans != [] <==> queue != [] && if t > 0 then !ok else c.orphans != [])
      && Within(c)
    }

    /** Every repository is one from the beginning of the call. */
    ghost predicate Within(c: Start)
      reads this
    {
      forall r :: r in Stack() ==> r in c.orphans || r in Repos(c.q)
    }

    method SolidifyStep(number: nat, states: States, ghost c: Start, ghost t: nat) returns (ok: bool)
      requires Reached(c, number, states, t) && |c.v| == |c.ls| + 1 && queue != [] && number >= queue[0].number
      modifies this, db, c.orphans, Repos(c.q)
      ensures |queue| < |old(queue)|
      ensures ok ==> Reached(c, number, states, t + 1)
      ensures !ok ==> Ended(c, number, states, t + 1, false)
    {
      hide Valid, Stack, Worlds, MemoryLayers, Reached, Ended, RoundWorlds, Repos, SameCall, CachesOf, FrontRound;
      ghost var attached, v, es := orphans != [], Worlds(), episodes;
      StepBegins(number, states, c, t);
      ok := SolidifyNext(states);
      if ok {
        StepCloses(number, states, c, t, attached, v, es);
      } else {
        StillWithin(c, t, old(orphans), old(queue));
        StepThrows(number, states, c, t, attached, v, es);
      }
    }

    lemma StepBegins(number: nat, states: States, c: Start, t: nat)
      requires Reached(c, number, states, t) && queue != []
      ensures Valid() && t < |c.q| == |c.ls| && queue == c.q[t..] && MemoryLayers() == c.ls[t..] && c.ls[t].number == queue[0].number
      ensures SameCall(orphans != [], Worlds(), c.ls[t..], episodes, t, c.orphans != [], c.v, c.ls, c.es, number, states)
      ensures (orphans == c.orphans || orphans == []) && Repos(c.q) == Repos(c.q)[..t] + Repos(queue)
    {
      hide Valid, Stack, Worlds, Repos, SameCall, CachesOf;
      assert MemoryLayers()[0].number == queue[0].number;
      ReposFrom(c.q, t);
    }

    lemma StillWithin(c: Start, t: nat, was: seq<Repository>, q: seq<MemoryItem>)
      requires t < |c.q| && q == c.q[t..] && queue == q[1..] && (was == c.orphans || was == [])
      requires orphans == if queue == [] then [] else was + [q[0].repository]
      ensures Within(c)
    {
      ReposFrom(c.q, t);
      ReposFrom(c.q, t + 1);
      TailOf(c.q, t);
      assert q[0].repository == Repos(c.q)[t];
    }

    lemma StepCloses(number: nat, states: States, c: Start, t: nat, attached: bool, v: seq<World>, es: seq<Episode>)
      requires t < |c.q| == |c.ls| && |c.v| == |c.ls| + 1 && number >= c.ls[t].number && c.ls[t].number in states
      requires Valid() && queue == c.q[t..][1..] && MemoryLayers() == c.ls[t..][1..] && orphans == []
      requires SameCall(attached, v, c.ls[t..], es, t, c.orphans != [], c.v, c.ls, c.es, number, states)
      requires episodes == es + [FrontRound(attached, c.ls[t..], states)]
      requires |v| == |c.ls[t..]| + 1 && Worlds() == RoundWorlds(attached, v, CachesOf(c.ls[t..]), true)
      ensures Reached(c, number, states, t + 1)
    {
      hide Valid, Stack, Worlds, MemoryLayers, RoundWorlds, Repos, SameCall, CachesOf, FrontRound;
      SameCallCloses(attached, v, c.ls[t..], es, t, c.orphans != [], c.v, c.ls, c.es, number, states);
      TailOf(c.q, t);
      TailOf(c.ls, t);
    }

    lemma StepThrows(number: nat, states: States, c: Start, t: nat, attached: bool, v: seq<World>, es: seq<Episode>)
      requires t < |c.q| == |c.ls| && |c.v| == |c.ls| + 1 && number >= c.ls[t].number && c.ls[t].number !in states
      requires Valid() && queue == c.q[t..][1..] && MemoryLayers() == c.ls[t..][1..] && (orphans != [] <==> queue != [])
      requires Within(c)
      requires SameCall(attached, v, c.ls[t..], es, t, c.orphans != [], c.v, c.ls, c.es, number, states)
      requires episodes == es + [FrontRound(attached, c.ls[t..], states)]
      requires |v| == |c.ls[t..]| + 1 && Worlds() == RoundWorlds(attached, v, CachesOf(c.ls[t..]), false)
      ensures Ended(c, number, states, t + 1, false)
    {
      hide Valid, Stack, Worlds, MemoryLayers, RoundWorlds, Repos, SameCall, CachesOf, FrontRound, WorldsAfter, Rounds, Taken, Complete, Within;
      SameCallThrows(attached, v, c.ls[t..], es, t, c.orphans != [], c.v, c.ls, c.es, number, states);
      TailOf(c.q, t);
      TailOf(c.ls, t);
    }

    /**
     * The whole loop.  It takes the blocks that are due off the queue, up to the first
     * without a block state, which is the one that makes it throw; and it leaves behind the
     * rounds and the worlds that the functions of the call say.  It can be called in every
     * state, also after it has thrown.
     */
    method OnSolidifiable(number: nat, states: States) returns (ok: bool)
      requires Valid()
      modifies this, db, orphans, Repos(queue)
      ensures Valid() && queue == old(queue)[Taken(old(MemoryLayers()), number, states)..]
      ensures MemoryLayers() == old(MemoryLayers())[Taken(old(MemoryLayers()), number, states)..]
      ensures ok <==> Complete(old(MemoryLayers()), number, states)
      ensures episodes == old(episodes) + Rounds(old(orphans) != [], old(MemoryLayers()), number, states)
      ensures Worlds() == WorldsAfter(old(orphans) != [], old(Worlds()), old(MemoryLayers()), number, states)
      ensures orphans != [] <==> queue != [] && if Due(old(MemoryLayers()), number) then !ok else old(orphans) != []
      ensures forall r :: r in Stack() ==> r in old(Stack())
    {
      hide Recorded, Stacked, Worlds, MemoryLayers, Repos, WorldsAfter, Rounds, Taken, Complete, Reached;
      ghost var c, t := Start(queue, MemoryLayers(), Worlds(), episodes, orphans), 0;
      CallBegins(number, states);
      while queue != [] && number >= queue[0].number
        invariant Reached(c, number, states, t)
        decreases |queue|
      {
        ok := SolidifyStep(number, states, c, t);
        t := t + 1;
        if !ok {
          return;
        }
      }
      ok := true;
      CallEnds(number, states, c, t);
    }

    lemma CallBegins(number: nat, states: States)
      requires Valid()
      ensures Reached(Start(queue, MemoryLayers(), Worlds(), episodes, orphans), number, states, 0)
    {
      hide Recorded, Stacked, Worlds, MemoryLayers, Repos, WorldsAfter, Rounds, Taken, Complete;
      assert queue[0..] == queue && MemoryLayers()[0..] == MemoryLayers();
    }

    lemma CallEnds(number: nat, states: States, c: Start, t: nat)
      requires Reached(c, number, states, t) && |c.v| == |c.ls| + 1 && (queue == [] || number < queue[0].number)
      ensures Ended(c, number, states, t, true)
    {
      hide Recorded, Worlds, Repos, WorldsAfter, Rounds, Complete, Linked, SameCall;
      SameCallEnd(orphans != [], Worlds(), c.ls[t..], episodes, t, c.orphans != [], c.v, c.ls, c.es, number, states);
      ReposFrom(c.q, t);
    }
  }

  lemma BaseFirst(base: World, cs: seq<World>)
    ensures Layered(base, cs) == [base] + Layered(base, cs)[1..]
  {
    hide Layered;
    LayeredBase(base, cs);
  }

  lemma EmptyViews(db: Database)
    ensures Views([], db) == [db.store.world]
  {
  }

  lemma TopIsLast(chain: seq<Repository>, db: Database)
    ensures Top(chain, db) == Views(chain, db)[|chain|]
  {
  }
}
