/**
 * What is on disk, as the sequence of single writes that put it there.  A crash keeps
 * some prefix of the writes.
 */
module Disk {
  import opened Bytes
  import opened Sums
  import opened Ledger

  type BlockId = nat
  datatype Block = Block(id: BlockId, number: nat, content: nat)
  datatype BlockState = BlockState(id: BlockId, number: nat, activeProducers: seq<Address>)

  datatype Store = Store(
    world: World,
    blocks: map<BlockId, Block>,
    blockIndex: map<nat, Block>,
    states: map<BlockId, BlockState>,
    stateIndex: map<nat, BlockState>,
    height: nat,
    activeProducers: seq<Address>,
    dirty: bool)

  datatype Write =
    | AccountWrite(a: Address, account: Account)
    | ProducerWrite(p: Address, producer: Producer)
    | TransactionWrite(id: TxId, tx: Transaction)
    | BlockWrite(block: Block)
    | BlockIndexWrite(block: Block)
    | StateWrite(state: BlockState)
    | StateIndexWrite(state: BlockState)
    | HeightWrite(height: nat)
    | ActiveProducersWrite(active: seq<Address>)
    | DirtyWrite(dirty: bool)

  function Apply(s: Store, w: Write): Store {
    match w
    case AccountWrite(a, account) => s.(world := s.world.(accounts := s.world.accounts[a := account]))
    case ProducerWrite(p, producer) => s.(world := s.world.(producers := s.world.producers[p := producer]))
    case TransactionWrite(id, tx) => s.(world := s.world.(transactions := s.world.transactions[id := tx]))
    case BlockWrite(block) => s.(blocks := s.blocks[block.id := block])
    case BlockIndexWrite(block) => s.(blockIndex := s.blockIndex[block.number := block])
    case StateWrite(state) => s.(states := s.states[state.id := state])
    case StateIndexWrite(state) => s.(stateIndex := s.stateIndex[state.number := state])
    case HeightWrite(height) => s.(height := height)
    case ActiveProducersWrite(active) => s.(activeProducers := active)
    case DirtyWrite(dirty) => s.(dirty := dirty)
  }

  function ApplyAll(s: Store, ws: seq<Write>): Store {
    if ws == [] then s else Apply(ApplyAll(s, ws[..|ws| - 1]), ws[|ws| - 1])
  }

  lemma ApplySnoc(s: Store, ws: seq<Write>, w: Write)
    ensures ApplyAll(s, ws + [w]) == Apply(ApplyAll(s, ws), w)
  {
    assert (ws + [w])[..|ws|] == ws;
  }

  lemma {:induction false} ApplyConcat(s: Store, a: seq<Write>, b: seq<Write>)
    ensures ApplyAll(s, a + b) == ApplyAll(ApplyAll(s, a), b)
  {
    if b == [] {
      assert a + b == a;
    } else {
      ApplyConcat(s, a, b[..|b| - 1]);
      assert (a + b)[..|a + b| - 1] == a + b[..|b| - 1];
    }
  }

  /** No write but the last of its kind touches the dirty flag. */
  predicate Quiet(ws: seq<Write>) {
    forall i :: 0 <= i < |ws| ==> !ws[i].DirtyWrite?
  }

  lemma {:induction false} QuietKeepsDirty(s: Store, ws: seq<Write>)
    requires Quiet(ws)
    ensures ApplyAll(s, ws).dirty == s.dirty
  {
    if ws != [] {
      QuietKeepsDirty(s, ws[..|ws| - 1]);
    }
  }

  // ---------------------------------------------------------------------- solidifying

  /** One layer laid over a world. */
  function Over(base: World, cache: World): World {
    World(base.accounts + cache.accounts, base.producers + cache.producers, base.transactions + cache.transactions)
  }

  /** A block with all that solidifying it puts on disk. */
  datatype Item = Item(cache: World, block: Block, state: BlockState)

  /** The disk after one more block has been solidified. */
  function Solidified(s: Store, item: Item): Store {
    Store(Over(s.world, item.cache),
          s.blocks[item.block.id := item.block],
          s.blockIndex[item.block.number := item.block],
          s.states[item.state.id := item.state],
          s.stateIndex[item.state.number := item.state],
          item.state.number,
          item.state.activeProducers,
          false)
  }

  function SolidifiedAll(s: Store, items: seq<Item>): Store {
    if items == [] then s else Solidified(SolidifiedAll(s, items[..|items| - 1]), items[|items| - 1])
  }

  /** The stores after a repository has been committed. */
  function Committed(s: Store, cache: World, block: Block): Store {
    s.(world := Over(s.world, cache), blocks := s.blocks[block.id := block], blockIndex := s.blockIndex[block.number := block])
  }

  /** The stores after a block state has been written and the flag taken down. */
  function Stated(s: Store, state: BlockState): Store {
    s.(height := state.number, activeProducers := state.activeProducers,
       states := s.states[state.id := state], stateIndex := s.stateIndex[state.number := state], dirty := false)
  }

  lemma CommittedAndStated(s: Store, item: Item)
    ensures Stated(Committed(s.(dirty := true), item.cache, item.block), item.state) == Solidified(s, item)
  {
    hide Over;
  }

  function StateWrites(state: BlockState): seq<Write> {
    [HeightWrite(state.number), ActiveProducersWrite(state.activeProducers), StateWrite(state), StateIndexWrite(state), DirtyWrite(false)]
  }

  lemma StateWritten(s: Store, state: BlockState)
    ensures ApplyAll(s, StateWrites(state)) == Stated(s, state)
  {
    ApplyFive(s, HeightWrite(state.number), ActiveProducersWrite(state.activeProducers), StateWrite(state), StateIndexWrite(state), DirtyWrite(false));
    StateApplied(s, state);
    hide ApplyAll, Apply, Stated;
  }

  lemma StateApplied(s: Store, state: BlockState)
    ensures Apply(Apply(Apply(Apply(Apply(s, HeightWrite(state.number)), ActiveProducersWrite(state.activeProducers)), StateWrite(state)),
                  StateIndexWrite(state)), DirtyWrite(false)) == Stated(s, state)
  {
  }

  lemma ApplyFive(s: Store, a: Write, b: Write, c: Write, d: Write, e: Write)
    ensures ApplyAll(s, [a, b, c, d, e]) == Apply(Apply(Apply(Apply(Apply(s, a), b), c), d), e)
  {
    assert ApplyAll(s, []) == s;
    hide ApplyAll, Apply;
    ApplySnoc(s, [], a);
    ApplySnoc(s, [a], b);
    ApplySnoc(s, [a, b], c);
    ApplySnoc(s, [a, b, c], d);
    ApplySnoc(s, [a, b, c, d], e);
    assert [] + [a] == [a] && [a] + [b] == [a, b] && [a, b] + [c] == [a, b, c];
    assert [a, b, c] + [d] == [a, b, c, d] && [a, b, c, d] + [e] == [a, b, c, d, e];
  }

  // ------------------------------------------------------------------------ episodes

  /**
   * What one round of the solidify loop does to the disk.  Normally the block is committed
   * and its state written.  Without a block state the round ends after the commit (`Half`).
   * A repository that still has a parent commits into it, so that only the block state
   * (`Bare`) or nothing but the flag (`Idle`) reaches the disk.
   */
  datatype Episode =
    | Full(item: Item)
    | Half(cache: World, block: Block)
    | Bare(state: BlockState)
    | Idle

  /** The round ends with the flag down. */
  predicate Closes(e: Episode) {
    e.Full? || e.Bare?
  }

  function AfterEpisode(s: Store, e: Episode): Store {
    match e
    case Full(item) => Solidified(s, item)
    case Half(cache, block) => Committed(s.(dirty := true), cache, block)
    case Bare(state) => Stated(s.(dirty := true), state)
    case Idle => s.(dirty := true)
  }

  function AfterAll(s: Store, es: seq<Episode>): Store {
    if es == [] then s else AfterEpisode(AfterAll(s, es[..|es| - 1]), es[|es| - 1])
  }

  /** The writes of a round: dirty first, clean last if it closes, and neither in between. */
  ghost predicate EpisodeWrites(s: Store, e: Episode, ws: seq<Write>) {
    && ws != [] && ws[0] == DirtyWrite(true)
    && (if Closes(e) then |ws| >= 2 && ws[|ws| - 1] == DirtyWrite(false) && Quiet(ws[1..|ws| - 1]) else Quiet(ws[1..]))
    && ApplyAll(s, ws) == AfterEpisode(s, e)
  }

  lemma ClosedOrDirty(s: Store, e: Episode)
    ensures AfterEpisode(s, e).dirty == !Closes(e)
  {
  }

  /** The writes of a commit alone, and those of a commit and the block state after it, are those of a round. */
  lemma CommitWritten(s: Store, half: Episode, commit: seq<Write>)
    requires !Closes(half) && Quiet(commit) && ApplyAll(s, [DirtyWrite(true)] + commit) == AfterEpisode(s, half)
    ensures EpisodeWrites(s, half, [DirtyWrite(true)] + commit)
  {
    hide ApplyAll, AfterEpisode;
    assert ([DirtyWrite(true)] + commit)[1..] == commit;
  }

  lemma StateWrittenAfter(s: Store, half: Episode, commit: seq<Write>, state: BlockState, e: Episode)
    requires !Closes(half) && Quiet(commit) && ApplyAll(s, [DirtyWrite(true)] + commit) == AfterEpisode(s, half)
    requires Closes(e) && Stated(AfterEpisode(s, half), state) == AfterEpisode(s, e)
    ensures EpisodeWrites(s, e, [DirtyWrite(true)] + commit + StateWrites(state))
  {
    hide ApplyAll, AfterEpisode, Stated, StateWrites, Quiet;
    ApplyConcat(s, [DirtyWrite(true)] + commit, StateWrites(state));
    StateWritten(AfterEpisode(s, half), state);
    QuietMiddle(commit, state);
  }

  lemma QuietMiddle(commit: seq<Write>, state: BlockState)
    requires Quiet(commit)
    ensures var ws := [DirtyWrite(true)] + commit + StateWrites(state);
            |ws| >= 2 && ws[0] == DirtyWrite(true) && ws[|ws| - 1] == DirtyWrite(false) && Quiet(ws[1..|ws| - 1])
  {
    var ws := [DirtyWrite(true)] + commit + StateWrites(state);
    assert ws[1..|ws| - 1] == commit + StateWrites(state)[..4];
  }

  /** A crash inside a round leaves the flag up. */
  lemma CutInEpisode(s: Store, e: Episode, ws: seq<Write>, n: nat)
    requires EpisodeWrites(s, e, ws) && 0 < n < |ws|
    ensures ApplyAll(s, ws[..n]).dirty
  {
    var middle := ws[1..n];
    assert ws[..n] == [ws[0]] + middle;
    ApplyConcat(s, [ws[0]], middle);
    assert [ws[0]][..0] == [];
    assert ApplyAll(s, [ws[0]]) == Apply(s, ws[0]);
    assert forall i :: 0 <= i < |middle| ==> middle[i] == ws[i + 1] == if Closes(e) then ws[1..|ws| - 1][i] else ws[1..][i];
    QuietKeepsDirty(Apply(s, ws[0]), middle);
  }

  // ------------------------------------------------------------------------- journals

  /** The writes of one round after the other. */
  ghost predicate Journal(s: Store, es: seq<Episode>, ws: seq<seq<Write>>) {
    && |ws| == |es|
    && forall k :: 0 <= k < |es| ==> EpisodeWrites(AfterAll(s, es[..k]), es[k], ws[k])
  }

  function Flat(ws: seq<seq<Write>>): seq<Write> {
    if ws == [] then [] else Flat(ws[..|ws| - 1]) + ws[|ws| - 1]
  }

  lemma JournalEmpty(s: Store)
    ensures Journal(s, [], []) && AfterAll(s, []) == s && Flat([]) == []
  {
  }

  lemma JournalSnoc(s: Store, es: seq<Episode>, ws: seq<seq<Write>>, e: Episode, w: seq<Write>)
    requires Journal(s, es, ws) && EpisodeWrites(AfterAll(s, es), e, w)
    ensures Journal(s, es + [e], ws + [w])
    ensures AfterAll(s, es + [e]) == AfterEpisode(AfterAll(s, es), e)
    ensures Flat(ws + [w]) == Flat(ws) + w
  {
    hide EpisodeWrites, AfterEpisode;
    var all, writes := es + [e], ws + [w];
    assert all[..|es|] == es && writes[..|ws|] == ws;
    forall k | 0 <= k < |all| ensures EpisodeWrites(AfterAll(s, all[..k]), all[k], writes[k]) {
      if k < |es| {
        assert all[..k] == es[..k];
      }
    }
  }

  lemma JournalPrefix(s: Store, es: seq<Episode>, ws: seq<seq<Write>>, n: nat)
    requires Journal(s, es, ws) && n <= |es|
    ensures Journal(s, es[..n], ws[..n])
  {
    forall k | 0 <= k < n ensures EpisodeWrites(AfterAll(s, es[..n][..k]), es[..n][k], ws[..n][k]) {
      assert es[..n][..k] == es[..k];
    }
  }

  lemma {:induction false} JournalDone(s: Store, es: seq<Episode>, ws: seq<seq<Write>>)
    requires Journal(s, es, ws)
    ensures ApplyAll(s, Flat(ws)) == AfterAll(s, es)
  {
    if es != [] {
      var n := |es| - 1;
      JournalPrefix(s, es, ws, n);
      JournalDone(s, es[..n], ws[..n]);
      ApplyConcat(s, Flat(ws[..n]), ws[n]);
    }
  }

  /** The writes of the last round come after those of the others. */
  lemma JournalLast(s: Store, es: seq<Episode>, ws: seq<seq<Write>>)
    requires Journal(s, es, ws)
    ensures |ws| == |es|
    ensures es != [] ==> Flat(ws) == Flat(ws[..|ws| - 1]) + ws[|ws| - 1]
    ensures es != [] ==> EpisodeWrites(AfterAll(s, es[..|es| - 1]), es[|es| - 1], ws[|ws| - 1])
    ensures es != [] ==> AfterAll(s, es).dirty == !Closes(es[|es| - 1])
  {
  }

  lemma CutInLast(s: Store, es: seq<Episode>, ws: seq<seq<Write>>, n: nat)
    requires Journal(s, es, ws) && es != [] && |Flat(ws[..|es| - 1])| < n <= |Flat(ws)|
    requires !ApplyAll(s, Flat(ws)[..n]).dirty
    ensures n == |Flat(ws)|
  {
    hide Flat, ApplyAll, Apply, EpisodeWrites, Journal, AfterAll, AfterEpisode;
    JournalLast(s, es, ws);
    var m := |es| - 1;
    var before := Flat(ws[..m]);
    JournalPrefix(s, es, ws, m);
    JournalDone(s, es[..m], ws[..m]);
    var cut := n - |before|;
    assert Flat(ws)[..n] == before + ws[m][..cut];
    ApplyConcat(s, before, ws[m][..cut]);
    if cut < |ws[m]| {
      CutInEpisode(AfterAll(s, es[..m]), es[m], ws[m], cut);
    }
  }

  /** Wherever the writes are cut, a clean flag means that the disk is as after a whole number of rounds, the last one closed. */
  lemma {:induction false} CleanCut(s: Store, es: seq<Episode>, ws: seq<seq<Write>>, n: nat) returns (k: nat)
    requires Journal(s, es, ws) && n <= |Flat(ws)| && !ApplyAll(s, Flat(ws)[..n]).dirty
    ensures k <= |es| && ApplyAll(s, Flat(ws)[..n]) == AfterAll(s, es[..k]) && (k > 0 ==> Closes(es[k - 1]))
  {
    hide Apply, AfterEpisode, EpisodeWrites, Journal;
    JournalLast(s, es, ws);
    if es == [] {
      k := 0;
    } else {
      hide Flat, ApplyAll, AfterAll;
      var m := |es| - 1;
      var before := Flat(ws[..m]);
      if n <= |before| {
        JournalPrefix(s, es, ws, m);
        assert Flat(ws)[..n] == before[..n];
        k := CleanCut(s, es[..m], ws[..m], n);
        assert es[..m][..k] == es[..k];
      } else {
        CutInLast(s, es, ws, n);
        JournalDone(s, es, ws);
        assert Flat(ws)[..n] == Flat(ws);
        k := |es|;
        assert es[..k] == es;
      }
    }
  }

  /** Every end of a round is a place where the writes can be cut. */
  lemma {:induction false} RoundEnds(s: Store, es: seq<Episode>, ws: seq<seq<Write>>, k: nat) returns (n: nat)
    requires Journal(s, es, ws) && k <= |es|
    ensures n <= |Flat(ws)| && ApplyAll(s, Flat(ws)[..n]) == AfterAll(s, es[..k])
  {
    hide EpisodeWrites, AfterEpisode, Apply, Journal;
    JournalLast(s, es, ws);
    if k == |es| {
      JournalDone(s, es, ws);
      n := |Flat(ws)|;
      assert Flat(ws)[..n] == Flat(ws) && es[..k] == es;
    } else {
      var m := |es| - 1;
      JournalPrefix(s, es, ws, m);
      n := RoundEnds(s, es[..m], ws[..m], k);
      assert es[..m][..k] == es[..k];
      assert Flat(ws)[..n] == Flat(ws[..m])[..n];
    }
  }

  // ---------------------------------------------------------------- what can be read back

  /** No later block or state has the id or the number of item `i`. */
  ghost predicate NotReplaced(items: seq<Item>, i: nat)
    requires i < |items|
  {
    forall j :: i < j < |items| ==>
      && items[j].block.id != items[i].block.id && items[j].block.number != items[i].block.number
      && items[j].state.id != items[i].state.id && items[j].state.number != items[i].state.number
  }

  /** After solidifying, every block and its state can be read by id and by number. */
  lemma {:induction false} ReadBack(s: Store, items: seq<Item>, i: nat)
    requires i < |items| && NotReplaced(items, i)
    ensures var t, it := SolidifiedAll(s, items), items[i];
            && it.block.id in t.blocks && t.blocks[it.block.id] == it.block
            && it.block.number in t.blockIndex && t.blockIndex[it.block.number] == it.block
            && it.state.id in t.states && t.states[it.state.id] == it.state
            && it.state.number in t.stateIndex && t.stateIndex[it.state.number] == it.state
  {
    hide Over;
    if i < |items| - 1 {
      var rest := items[..|items| - 1];
      assert NotReplaced(rest, i);
      ReadBack(s, rest, i);
      assert items[|items| - 1].block.id != items[i].block.id;
    }
  }

  /** What was on disk under other ids and numbers is still there. */
  lemma {:induction false} OldBlocksStay(s: Store, items: seq<Item>, id: BlockId, number: nat)
    requires forall j :: 0 <= j < |items| ==> items[j].block.id != id && items[j].block.number != number
    ensures var t := SolidifiedAll(s, items);
            && (id in t.blocks <==> id in s.blocks) && (id in s.blocks ==> t.blocks[id] == s.blocks[id])
            && (number in t.blockIndex <==> number in s.blockIndex) && (number in s.blockIndex ==> t.blockIndex[number] == s.blockIndex[number])
  {
    hide Over;
    if items != [] {
      OldBlocksStay(s, items[..|items| - 1], id, number);
      assert items[|items| - 1].block.id != id;
    }
  }

  /** Height and active producers are those of the last block, the flag is down, and the ledger is all caches laid over in order. */
  lemma LastBlockRules(s: Store, items: seq<Item>)
    requires items != []
    ensures var t, last := SolidifiedAll(s, items), items[|items| - 1];
            && t.height == last.state.number && t.activeProducers == last.state.activeProducers && !t.dirty
            && t.world == Over(SolidifiedAll(s, items[..|items| - 1]).world, last.cache)
  {
    hide Over;
  }
}
