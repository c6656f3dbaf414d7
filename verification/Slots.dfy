/**
 * Admission of blocks by time slot.  Time after genesis is cut into slots of 2000 ms,
 * each scheduled for one producer; `checkProducer` together with the record of each
 * producer's last timestamp is to let at most one block into each slot.
 */
module Slots {
  import opened Bytes

  /** Producer addresses, identified by a number; 0 is the zero address. */
  type Address = nat
  const ZERO_ADDRESS: Address := 0
  const GENESIS := 1538352000000
  const INTERVAL := 2000
  const DELEGATES := 7
  const ROUND := 14000

  datatype Block = Block(timestamp: int, producer: Address)

  /** Division and remainder as in C++: towards zero. */
  function Quot(a: int, b: nat): int
    requires b > 0
  {
    if a >= 0 then a / b else -(-a / b)
  }

  function Rem(a: int, b: nat): int
    requires b > 0
  {
    a - b * Quot(a, b)
  }

  /** The slot a timestamp falls in. */
  function Slot(timestamp: int): int {
    Quot(timestamp - GENESIS, INTERVAL)
  }

  /** The producer at a position; the position is unsigned, so a negative one is out of range. */
  function AddressAt(schedule: seq<Address>, position: int): Address {
    if position < 0 || position >= |schedule| || position >= DELEGATES then ZERO_ADDRESS else schedule[position]
  }

  function ExpectedProducer(schedule: seq<Address>, timestamp: int): Address {
    AddressAt(schedule, Quot(Rem(timestamp - GENESIS, ROUND), INTERVAL))
  }

  datatype State = State(schedule: seq<Address>, record: map<Address, int>, updated: int)

  predicate Admits(s: State, b: Block) {
    var slice := Slot(b.timestamp) * INTERVAL;
    && b.producer == ExpectedProducer(s.schedule, b.timestamp)
    && (b.producer in s.record ==> slice > s.record[b.producer] - GENESIS)
    && slice > s.updated - GENESIS
  }

  function RecordOf(record: map<Address, int>, a: Address): int {
    if a in record then record[a] else 0
  }

  /** The records kept for the producers of a new schedule; one that never produced gets 0. */
  function KeptRecord(schedule: seq<Address>, record: map<Address, int>): map<Address, int> {
    map a | a in Top(schedule) :: RecordOf(record, a)
  }

  function Top(schedule: seq<Address>): seq<Address> {
    if |schedule| <= DELEGATES then schedule else schedule[..DELEGATES]
  }

  /** Executing a block; every 140th block brings a new schedule. */
  function Execute(s: State, b: Block, update: Option<seq<Address>>): State {
    var record := s.record[b.producer := b.timestamp];
    match update
    case None => s.(record := record)
    case Some(schedule) => State(schedule, KeptRecord(schedule, record), b.timestamp)
  }

  class BlockChain {
    var schedule: seq<Address>
    var producerRecord: map<Address, int>
    var scheduleUpdateBlockTimestamp: int

    function St(): State
      reads this
    {
      State(schedule, producerRecord, scheduleUpdateBlockTimestamp)
    }

    /** `checkProducer`: it reads the record and the schedule, and changes nothing. */
    method CheckProducer(b: Block) returns (ok: bool)
      ensures ok <==> Admits(St(), b)
    {
      var slice := Slot(b.timestamp) * INTERVAL;
      if b.producer != ExpectedProducer(schedule, b.timestamp) {
        return false;
      }
      if b.producer in producerRecord {
        if slice <= producerRecord[b.producer] - GENESIS {
          return false;
        }
      }
      if slice <= scheduleUpdateBlockTimestamp - GENESIS {
        return false;
      }
      return true;
    }

    /** Keeps the records of the scheduled producers and forgets the others. */
    method UpdateProducerRecord()
      modifies `producerRecord
      ensures producerRecord == KeptRecord(schedule, old(producerRecord))
    {
      var kept: map<Address, int> := map[];
      var producers := Top(schedule);
      for i := 0 to |producers|
        invariant kept == map a | a in producers[..i] :: RecordOf(producerRecord, a)
      {
        assert producers[..i + 1] == producers[..i] + [producers[i]];
        kept := kept[producers[i] := RecordOf(producerRecord, producers[i])];
      }
      assert producers[..|producers|] == producers;
      producerRecord := kept;
    }

    /** The part of block execution that touches the records. */
    method ProcessBlock(b: Block, update: Option<seq<Address>>)
      modifies this
      ensures St() == Execute(old(St()), b, update)
    {
      producerRecord := producerRecord[b.producer := b.timestamp];
      if update.Some? {
        schedule := update.value;
        UpdateProducerRecord();
        scheduleUpdateBlockTimestamp := b.timestamp;
      }
    }
  }

  // ------------------------------------------------------------------------ runs

  datatype Event = Event(block: Block, update: Option<seq<Address>>)

  /** A timestamp at which its slot begins no later: from genesis on, or at the very beginning of an earlier slot. */
  predicate InTime(t: int) {
    t >= GENESIS || (GENESIS - t) % INTERVAL == 0
  }

  /** Every block is admitted where it is executed, and in time. */
  predicate Run(s: State, run: seq<Event>)
    decreases |run|
  {
    run != [] ==>
      && InTime(run[0].block.timestamp) && Admits(s, run[0].block)
      && Run(Execute(s, run[0].block, run[0].update), run[1..])
  }

  /** The run changes the schedule only with its last block, if at all. */
  predicate BetweenUpdates(run: seq<Event>) {
    forall i :: 0 <= i < |run| - 1 ==> run[i].update.None?
  }

  /** The slots in time are those of division rounded down. */
  lemma SlotBounds(t: int)
    requires InTime(t)
    ensures Slot(t) * INTERVAL <= t - GENESIS < Slot(t) * INTERVAL + INTERVAL
  {
  }

  /** The slot of a timestamp begins no later if and only if the timestamp is in time. */
  lemma SlotBeginsExact(t: int)
    ensures Slot(t) * INTERVAL <= t - GENESIS <==> InTime(t)
  {
  }

  lemma PositionAfterGenesis(d: nat)
    ensures d % ROUND / INTERVAL == d / INTERVAL % DELEGATES
  {
    var n := d / INTERVAL;
    var q, r := n / DELEGATES, n % DELEGATES;
    assert d == ROUND * q + (INTERVAL * r + (d - INTERVAL * n));
    assert d / ROUND == q;
  }

  /** The scheduled producer depends on the slot only, before genesis too. */
  lemma ExpectedBySlot(schedule: seq<Address>, t: int)
    ensures ExpectedProducer(schedule, t) == AddressAt(schedule, Rem(Slot(t), DELEGATES))
  {
    var d := t - GENESIS;
    if d >= 0 {
      PositionAfterGenesis(d);
    } else {
      PositionAfterGenesis(-d);
    }
  }

  /** While the schedule stands, a producer's record keeps every later block out of the slots up to its last one. */
  lemma {:induction false} LaterBlocksLater(s: State, run: seq<Event>, a: Address, t: int, j: nat)
    requires Run(s, run) && BetweenUpdates(run) && j < |run| && run[j].block.producer == a
    requires a in s.record && t <= s.record[a]
    ensures Slot(run[j].block.timestamp) * INTERVAL > t - GENESIS && run[j].block.timestamp > t
    decreases |run|
  {
    var b := run[0].block;
    SlotBounds(b.timestamp);
    if j > 0 {
      LaterBlocksLater(Execute(s, b, None), run[1..], a, t, j - 1);
    }
  }

  /**
   * Between two schedule updates, two blocks never share a slot, each is by the
   * producer scheduled for its slot, and each producer's timestamps strictly increase.
   */
  lemma {:induction false} OneBlockPerSlot(s: State, run: seq<Event>, i: nat, j: nat)
    requires Run(s, run) && BetweenUpdates(run) && i < j < |run|
    ensures run[i].block.producer == AddressAt(s.schedule, Rem(Slot(run[i].block.timestamp), DELEGATES))
    ensures run[j].block.producer == AddressAt(s.schedule, Rem(Slot(run[j].block.timestamp), DELEGATES))
    ensures Slot(run[i].block.timestamp) != Slot(run[j].block.timestamp)
    ensures run[i].block.producer == run[j].block.producer ==> run[i].block.timestamp < run[j].block.timestamp
    decreases |run|
  {
    if i > 0 {
      OneBlockPerSlot(Execute(s, run[0].block, None), run[1..], i - 1, j - 1);
    } else {
      var b := run[0].block;
      ScheduledProducer(s, run, 0);
      ScheduledProducer(s, run, j);
      SlotBounds(b.timestamp);
      if run[j].block.producer == b.producer {
        LaterBlocksLater(Execute(s, b, None), run[1..], b.producer, b.timestamp, j - 1);
      }
    }
  }

  lemma {:induction false} ScheduledProducer(s: State, run: seq<Event>, j: nat)
    requires Run(s, run) && BetweenUpdates(run) && j < |run|
    ensures InTime(run[j].block.timestamp)
    ensures run[j].block.producer == AddressAt(s.schedule, Rem(Slot(run[j].block.timestamp), DELEGATES))
    decreases |run|
  {
    if j > 0 {
      ScheduledProducer(Execute(s, run[0].block, None), run[1..], j - 1);
    } else {
      ExpectedBySlot(s.schedule, run[0].block.timestamp);
    }
  }

  // ------------------------------------------------------------- across updates

  /** Every block of a run lies after the last schedule update before it. */
  lemma {:induction false} AfterUpdate(s: State, run: seq<Event>, j: nat)
    requires Run(s, run) && j < |run|
    ensures Slot(run[j].block.timestamp) * INTERVAL > s.updated - GENESIS && InTime(run[j].block.timestamp)
    decreases |run|
  {
    if j > 0 {
      SlotBounds(run[0].block.timestamp);
      AfterUpdate(Execute(s, run[0].block, run[0].update), run[1..], j - 1);
    }
  }

  lemma {:induction false} AfterUpdateAt(s: State, run: seq<Event>, m: nat, j: nat)
    requires Run(s, run) && m < j < |run| && run[m].update.Some?
    ensures Slot(run[j].block.timestamp) > Slot(run[m].block.timestamp)
    decreases |run|
  {
    var next := Execute(s, run[0].block, run[0].update);
    if m > 0 {
      AfterUpdateAt(next, run[1..], m - 1, j - 1);
    } else {
      AfterUpdate(next, run[1..], j - 1);
      SlotBounds(run[0].block.timestamp);
    }
  }

  lemma {:induction false} RunPrefix(s: State, run: seq<Event>, n: nat)
    requires Run(s, run) && n <= |run|
    ensures Run(s, run[..n])
    decreases |run|
  {
    if n > 0 {
      RunPrefix(Execute(s, run[0].block, run[0].update), run[1..], n - 1);
      assert run[..n][1..] == run[1..][..n - 1];
    }
  }

  /** Every block that changes the schedule is in the latest slot so far. */
  predicate UpdatesAreLatest(run: seq<Event>) {
    forall i, m :: 0 <= i < m < |run| && run[m].update.Some? ==> Slot(run[i].block.timestamp) <= Slot(run[m].block.timestamp)
  }

  /** Over any number of schedule updates, no two blocks share a slot if each update block is the latest so far. */
  lemma {:induction false} OneBlockPerSlotEver(s: State, run: seq<Event>, i: nat, j: nat)
    requires Run(s, run) && UpdatesAreLatest(run) && i < j < |run|
    ensures Slot(run[i].block.timestamp) != Slot(run[j].block.timestamp)
    decreases |run|
  {
    if i > 0 {
      OneBlockPerSlotEver(Execute(s, run[0].block, run[0].update), run[1..], i - 1, j - 1);
    } else if m: nat :| m < j && run[m].update.Some? {
      AfterUpdateAt(s, run, m, j);
    } else {
      RunPrefix(s, run, j + 1);
      OneBlockPerSlot(s, run[..j + 1], 0, j);
    }
  }

  /** No block that could be admitted next falls in the slot of a block executed before. */
  ghost predicate NeverCollides(s: State, executed: seq<Block>) {
    forall c: Block, x: Block :: x in executed && Admits(s, c) ==> Slot(c.timestamp) != Slot(x.timestamp)
  }

  lemma {:induction false} FreshAddress(used: set<Address>) returns (a: Address)
    ensures forall u :: u in used ==> u < a
  {
    a := 0;
    var left := used;
    while left != {}
      invariant forall u :: u in used && u !in left ==> u < a
      decreases |left|
    {
      var u :| u in left;
      left := left - {u};
      a := if a <= u then u + 1 else a;
    }
  }

  /** The slot of `x` begins no later than block `b`. */
  predicate BeginsBy(x: Block, b: Block) {
    Slot(x.timestamp) * INTERVAL <= b.timestamp - GENESIS
  }

  lemma LatestUpdateSafe(s: State, b: Block, schedule: seq<Address>, executed: seq<Block>)
    requires forall x :: x in executed ==> BeginsBy(x, b)
    ensures NeverCollides(Execute(s, b, Some(schedule)), executed)
  {
    hide Slot, ExpectedProducer, KeptRecord;
  }

  /** An update before the slot of some executed block can let a second block into that slot. */
  lemma EarlyUpdateCollides(s: State, b: Block, x: Block, executed: seq<Block>) returns (schedule: seq<Address>)
    requires x in executed && !BeginsBy(x, b)
    ensures !NeverCollides(Execute(s, b, Some(schedule)), executed)
  {
    ExpectedBySlot([], x.timestamp);
    if Slot(x.timestamp) < 0 {
      schedule := [];
      hide Slot, ExpectedProducer;
      assert Admits(Execute(s, b, Some(schedule)), Block(x.timestamp, ZERO_ADDRESS));
    } else {
      var a := FreshAddress(s.record.Keys + {b.producer});
      schedule := [a, a, a, a, a, a, a];
      var c := Block(x.timestamp, a);
      ExpectedBySlot(schedule, x.timestamp);
      hide Slot, ExpectedProducer;
      var t := Execute(s, b, Some(schedule));
      assert t.schedule == schedule && Top(schedule) == schedule;
      assert t.record[a] == 0;
      assert Admits(t, c);
    }
  }

  /**
   * Exactly when a schedule update keeps one block per slot, whatever the new schedule:
   * when the slot of every executed block begins no later than the update block; for an
   * update block in time, when it is in the latest slot so far.
   */
  lemma UpdateSafeExact(s: State, b: Block, executed: seq<Block>)
    ensures (forall schedule :: NeverCollides(Execute(s, b, Some(schedule)), executed)) <==> forall x :: x in executed ==> BeginsBy(x, b)
    ensures InTime(b.timestamp) ==>
              ((forall x :: x in executed ==> BeginsBy(x, b)) <==> forall x :: x in executed ==> Slot(x.timestamp) <= Slot(b.timestamp))
  {
    if InTime(b.timestamp) {
      SlotBounds(b.timestamp);
    }
    hide NeverCollides, Slot, Execute;
    if forall x :: x in executed ==> BeginsBy(x, b) {
      forall schedule ensures NeverCollides(Execute(s, b, Some(schedule)), executed) {
        LatestUpdateSafe(s, b, schedule, executed);
      }
    } else {
      var x :| x in executed && !BeginsBy(x, b);
      var schedule := EarlyUpdateCollides(s, b, x, executed);
    }
  }

  /** Producer 11 fills slot 1; the block of producer 10 in slot 0 then changes the schedule, and producer 12 fills slot 1 again. */
  lemma CollisionExample()
    ensures var s := State([10, 11], map[], 0);
            var run := [Event(Block(GENESIS + 2000, 11), None), Event(Block(GENESIS, 10), Some([10, 12])), Event(Block(GENESIS + 2000, 12), None)];
            Run(s, run) && Slot(run[0].block.timestamp) == Slot(run[2].block.timestamp)
  {
    var s := State([10, 11], map[], 0);
    var run := [Event(Block(GENESIS + 2000, 11), None), Event(Block(GENESIS, 10), Some([10, 12])), Event(Block(GENESIS + 2000, 12), None)];
    assert ExpectedProducer([10, 11], GENESIS + 2000) == 11 && ExpectedProducer([10, 11], GENESIS) == 10;
    assert ExpectedProducer([10, 12], GENESIS + 2000) == 12;
    var s1 := Execute(s, run[0].block, None);
    assert s1.record == map[11 := GENESIS + 2000];
    var s2 := Execute(s1, run[1].block, Some([10, 12]));
    assert 12 in s2.record && s2.record[12] == 0;
    assert Admits(s, run[0].block) && Admits(s1, run[1].block) && Admits(s2, run[2].block);
    assert Run(s2, run[2..]) by {
      assert run[2..][1..] == [];
    }
    assert run[1..][1..] == run[2..];
    assert Run(s1, run[1..]);
  }

  // ------------------------------------------------------------------- before genesis

  /**
   * Before genesis the division rounds the slot up.  Exactly when the record of an admitted
   * block keeps every further block of its producer out of its slot: when the block is in time.
   */
  lemma RecordGuardsExact(s: State, b: Block)
    requires Admits(s, b)
    ensures (forall c: Block :: c.producer == b.producer && Slot(c.timestamp) == Slot(b.timestamp) ==> !Admits(Execute(s, b, None), c)) <==>
            InTime(b.timestamp)
  {
    SlotBeginsExact(b.timestamp);
    hide Slot, ExpectedProducer;
    if !InTime(b.timestamp) {
      assert Admits(Execute(s, b, None), b);
    }
  }

  /** Producer 10 fills slot 0 twice, once before genesis and once after. */
  lemma BeforeGenesisExample()
    ensures var s := State([10], map[], 0);
            var b, c := Block(GENESIS - 1500, 10), Block(GENESIS + 100, 10);
            Admits(s, b) && Admits(Execute(s, b, None), c) && Slot(b.timestamp) == Slot(c.timestamp) == 0
  {
    var s := State([10], map[], 0);
    var b := Block(GENESIS - 1500, 10);
    assert ExpectedProducer([10], GENESIS - 1500) == 10 && ExpectedProducer([10], GENESIS + 100) == 10;
    assert Execute(s, b, None).record[10] == GENESIS - 1500;
  }

  // ---------------------------------------------------------------------- in numbers

  /** In a full schedule the slots of a round, of 2000 ms each from genesis on, go to the seven producers in order. */
  lemma RoundRobin(schedule: seq<Address>, n: nat, ms: nat)
    requires |schedule| == 7 && ms < 2000
    ensures Slot(1538352000000 + 2000 * n + ms) == n
    ensures ExpectedProducer(schedule, 1538352000000 + 2000 * n + ms) == schedule[n % 7]
  {
    hide ExpectedProducer, Slot;
    SlotInNumbers(n, ms);
    ExpectedBySlot(schedule, 1538352000000 + 2000 * n + ms);
  }

  lemma SlotInNumbers(n: nat, ms: nat)
    requires ms < 2000
    ensures Slot(1538352000000 + 2000 * n + ms) == n
  {
    assert (2000 * n + ms) / 2000 == n;
  }

  /** After an update exactly the first seven of the new schedule have records: the time of their last block if one is on record, and otherwise 0. */
  lemma RecordAfterUpdate(s: State, b: Block, schedule: seq<Address>, a: Address)
    ensures var t := Execute(s, b, Some(schedule));
            && (a in t.record <==> exists i :: 0 <= i < |schedule| && i < 7 && schedule[i] == a)
            && (a in t.record ==> t.record[a] == if a == b.producer then b.timestamp else if a in s.record then s.record[a] else 0)
            && t.schedule == schedule && t.updated == b.timestamp
  {
    var top := Top(schedule);
    if i :| 0 <= i < |schedule| && i < 7 && schedule[i] == a {
      assert top[i] == a;
    }
  }
}
