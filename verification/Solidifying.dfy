/**
 * One call of the solidify loop on plain values: which blocks it takes, what it writes and
 * what everyone sees afterwards; and exactly when that is as it should be.
 */
module Solidifying {
  import opened Bytes
  import opened Sums
  import opened Ledger
  import opened Disk
  import opened CrashSafety
  import opened Repositories
  import opened Layers

  /** A block in memory. */
  datatype Layer = Layer(number: nat, block: Block, cache: World)

  type States = map<nat, BlockState>

  function CachesOf(ls: seq<Layer>): (cs: seq<World>)
    ensures |cs| == |ls| && forall i :: 0 <= i < |ls| ==> cs[i] == ls[i].cache
  {
    seq(|ls|, i requires 0 <= i < |ls| => ls[i].cache)
  }

  /** The front block is due. */
  predicate Due(ls: seq<Layer>, number: nat) {
    ls != [] && ls[0].number <= number
  }

  /** How many blocks a call takes off the queue: all that are due, up to the first without a block state. */
  function Taken(ls: seq<Layer>, number: nat, states: States): (t: nat)
    ensures t <= |ls| && (t > 0 <==> Due(ls, number))
  {
    if !Due(ls, number) then 0
    else if ls[0].number in states then 1 + Taken(ls[1..], number, states)
    else 1
  }

  /** Every block the call takes has its block state. */
  predicate Complete(ls: seq<Layer>, number: nat, states: States) {
    Due(ls, number) ==> ls[0].number in states && Complete(ls[1..], number, states)
  }

  /** What a round does to the disk: `attached` says that the front still has a parent. */
  function RoundOf(attached: bool, cache: World, block: Block, state: Option<BlockState>): Episode {
    match state
    case None => if attached then Idle else Half(cache, block)
    case Some(st) => if attached then Bare(st) else Full(Item(cache, block, st))
  }

  function FrontRound(attached: bool, ls: seq<Layer>, states: States): Episode
    requires ls != []
  {
    RoundOf(attached, ls[0].cache, ls[0].block, Lookup(states, ls[0].number))
  }

  /** The rounds of a call. */
  function Rounds(attached: bool, ls: seq<Layer>, number: nat, states: States): seq<Episode> {
    if !Due(ls, number) then []
    else [FrontRound(attached, ls, states)] + if ls[0].number in states then Rounds(false, ls[1..], number, states) else []
  }

  /** The worlds after a round, from those before it and the caches in memory. */
  function RoundWorlds(attached: bool, v: seq<World>, cs: seq<World>, ok: bool): (w: seq<World>)
    requires |v| == |cs| + 1 && cs != []
    ensures |w| == |cs|
  {
    if !attached then v[1..]
    else if ok then Layered(v[0], cs[1..])
    else [v[0]] + v[2..]
  }

  /** The worlds after a call. */
  function WorldsAfter(attached: bool, v: seq<World>, ls: seq<Layer>, number: nat, states: States): seq<World>
    requires |v| == |ls| + 1
    decreases |ls|
  {
    if !Due(ls, number) then v
    else
      var ok := ls[0].number in states;
      var w := RoundWorlds(attached, v, CachesOf(ls), ok);
      if ok then WorldsAfter(false, w, ls[1..], number, states) else w
  }

  /** After `t` rounds that closed, what remains of the call is what remained from the start. */
  ghost predicate SameCall(attached: bool, v: seq<World>, ls: seq<Layer>, es: seq<Episode>, t: nat,
                           attached0: bool, v0: seq<World>, ls0: seq<Layer>, es0: seq<Episode>, number: nat, states: States)
  {
    && |v| == |ls| + 1 && |v0| == |ls0| + 1
    && WorldsAfter(attached, v, ls, number, states) == WorldsAfter(attached0, v0, ls0, number, states)
    && es + Rounds(attached, ls, number, states) == es0 + Rounds(attached0, ls0, number, states)
    && t + Taken(ls, number, states) == Taken(ls0, number, states)
    && Complete(ls, number, states) == Complete(ls0, number, states)
  }

  /** A round that closes leaves the rest of the call. */
  lemma SameCallCloses(attached: bool, v: seq<World>, ls: seq<Layer>, es: seq<Episode>, t: nat,
                       attached0: bool, v0: seq<World>, ls0: seq<Layer>, es0: seq<Episode>, number: nat, states: States)
    requires SameCall(attached, v, ls, es, t, attached0, v0, ls0, es0, number, states) && Due(ls, number)
    requires ls[0].number in states
    ensures SameCall(false, RoundWorlds(attached, v, CachesOf(ls), true), ls[1..], es + [FrontRound(attached, ls, states)], t + 1,
                     attached0, v0, ls0, es0, number, states)
  {
    hide RoundWorlds, CachesOf, FrontRound;
    assert es + Rounds(attached, ls, number, states) == es + [FrontRound(attached, ls, states)] + Rounds(false, ls[1..], number, states);
  }

  /** A round that throws is the last. */
  lemma SameCallThrows(attached: bool, v: seq<World>, ls: seq<Layer>, es: seq<Episode>, t: nat,
                       attached0: bool, v0: seq<World>, ls0: seq<Layer>, es0: seq<Episode>, number: nat, states: States)
    requires SameCall(attached, v, ls, es, t, attached0, v0, ls0, es0, number, states) && Due(ls, number)
    requires ls[0].number !in states
    ensures LastRound(RoundWorlds(attached, v, CachesOf(ls), false), es + [FrontRound(attached, ls, states)], t + 1,
                      attached0, v0, ls0, es0, number, states)
  {
    hide RoundWorlds, CachesOf, FrontRound;
    assert Rounds(attached, ls, number, states) == [FrontRound(attached, ls, states)];
  }

  /** The call threw after `t` blocks. */
  ghost predicate LastRound(w: seq<World>, es: seq<Episode>, t: nat, attached0: bool, v0: seq<World>, ls0: seq<Layer>, es0: seq<Episode>, number: nat, states: States) {
    && |v0| == |ls0| + 1
    && w == WorldsAfter(attached0, v0, ls0, number, states) && es == es0 + Rounds(attached0, ls0, number, states)
    && t == Taken(ls0, number, states) && !Complete(ls0, number, states)
  }

  /** Nothing more is due. */
  lemma SameCallEnd(attached: bool, v: seq<World>, ls: seq<Layer>, es: seq<Episode>, t: nat,
                    attached0: bool, v0: seq<World>, ls0: seq<Layer>, es0: seq<Episode>, number: nat, states: States)
    requires SameCall(attached, v, ls, es, t, attached0, v0, ls0, es0, number, states) && !Due(ls, number)
    ensures v == WorldsAfter(attached0, v0, ls0, number, states) && es == es0 + Rounds(attached0, ls0, number, states)
    ensures t == Taken(ls0, number, states) && Complete(ls0, number, states)
  {
    assert es + [] == es;
  }

  // --------------------------------------------------------------------- what is seen

  /** Without a parent left behind, the worlds after a call are those from the last block taken on. */
  lemma {:induction false} FreeCallKeeps(v: seq<World>, ls: seq<Layer>, number: nat, states: States)
    requires |v| == |ls| + 1
    ensures WorldsAfter(false, v, ls, number, states) == v[Taken(ls, number, states)..]
    decreases |ls|
  {
    if Due(ls, number) && ls[0].number in states {
      FreeCallKeeps(v[1..], ls[1..], number, states);
      assert v[1..][Taken(ls[1..], number, states)..] == v[Taken(ls, number, states)..];
    }
  }

  /** The worlds are those of the caches in memory: over the disk, or over what the front sees if it still has a parent. */
  ghost predicate Seen(attached: bool, v: seq<World>, ls: seq<Layer>) {
    && |v| == |ls| + 1
    && (if attached then ls != [] && v[1..] == Layered(v[1], CachesOf(ls)[1..]) else v == Layered(v[0], CachesOf(ls)))
  }

  lemma AttachedFailure(v: seq<World>, ls: seq<Layer>)
    requires Seen(true, v, ls)
    ensures [v[0]] + v[2..] == v[1..] <==> Covered(v[0], v[1], CachesOf(ls)[1..1])
  {
    hide Covered, Layered;
    assert CachesOf(ls)[1..1] == [];
    CoveredNone(v[0], v[1]);
    assert v[1..] == [v[1]] + v[2..];
    assert ([v[0]] + v[2..])[0] == v[0] && v[1..][0] == v[1];
  }

  lemma AttachedSuccess(v: seq<World>, ls: seq<Layer>, number: nat, states: States)
    requires Seen(true, v, ls) && Due(ls, number) && ls[0].number in states
    ensures var t := Taken(ls, number, states);
            WorldsAfter(true, v, ls, number, states) == v[t..] <==> Covered(v[0], v[1], CachesOf(ls)[1..t])
  {
    hide Covered, Layered;
    var t := Taken(ls, number, states);
    var cs := CachesOf(ls)[1..];
    var w := Layered(v[0], cs);
    FreeCallKeeps(w, ls[1..], number, states);
    CoveredFrom(v[0], v[1], cs, t - 1);
    assert cs[..t - 1] == CachesOf(ls)[1..t];
    assert v[t..] == v[1..][t - 1..];
  }

  /**
   * Exactly when a call keeps the worlds of the blocks that remain, and leaves on disk what
   * the last block taken saw: the front had no parent left, or nothing is due, or every
   * difference between the disk and what the front sees is set anew by a later block the
   * call takes.
   */
  lemma ViewsKeptExact(attached: bool, v: seq<World>, ls: seq<Layer>, number: nat, states: States)
    requires Seen(attached, v, ls)
    ensures var t := Taken(ls, number, states);
            WorldsAfter(attached, v, ls, number, states) == v[t..] <==>
            !attached || t == 0 || Covered(v[0], v[1], CachesOf(ls)[1..t])
  {
    hide Covered, Layered;
    if !attached {
      FreeCallKeeps(v, ls, number, states);
    } else if Due(ls, number) {
      if ls[0].number in states {
        AttachedSuccess(v, ls, number, states);
      } else {
        AttachedFailure(v, ls);
      }
    }
  }

  // ---------------------------------------------------------------- what is on disk

  lemma {:induction false} CleanRounds(es: seq<Episode>, ls: seq<Layer>, number: nat, states: States)
    requires Ordered(es) && Sound(es) && !HasHalf(es)
    ensures Ordered(es + Rounds(false, ls, number, states)) && Sound(es + Rounds(false, ls, number, states))
    ensures HasHalf(es + Rounds(false, ls, number, states)) <==> !Complete(ls, number, states)
    decreases |ls|
  {
    hide Ordered, Sound, HasHalf;
    if Due(ls, number) {
      var e := FrontRound(false, ls, states);
      SoundSnoc(es, e);
      HalfSnoc(es, e);
      if ls[0].number in states {
        CleanRounds(es + [e], ls[1..], number, states);
        assert es + Rounds(false, ls, number, states) == es + [e] + Rounds(false, ls[1..], number, states);
      } else {
        assert Rounds(false, ls, number, states) == [e];
      }
    } else {
      assert es + [] == es;
    }
  }

  /** What rounds do once some block was left without its state. */
  lemma {:induction false} LateRounds(es: seq<Episode>, attached: bool, ls: seq<Layer>, number: nat, states: States)
    requires Ordered(es) && HasHalf(es)
    ensures Ordered(es + Rounds(attached, ls, number, states)) && HasHalf(es + Rounds(attached, ls, number, states))
    ensures Sound(es + Rounds(attached, ls, number, states)) <==> Sound(es) && !(Due(ls, number) && ls[0].number in states)
    decreases |ls|
  {
    hide Ordered, Sound, HasHalf;
    if Due(ls, number) {
      var e := FrontRound(attached, ls, states);
      SoundSnoc(es, e);
      HalfSnoc(es, e);
      if ls[0].number in states {
        LateRounds(es + [e], false, ls[1..], number, states);
        assert es + Rounds(attached, ls, number, states) == es + [e] + Rounds(false, ls[1..], number, states);
      } else {
        assert Rounds(attached, ls, number, states) == [e];
      }
    } else {
      assert es + [] == es;
    }
  }

  /**
   * Exactly when a call keeps the disk crash-consistent: no block was left without its state
   * before, or the first block due has none either, or none is due.
   */
  lemma SoundCallExact(es: seq<Episode>, attached: bool, ls: seq<Layer>, number: nat, states: States)
    requires Ordered(es) && (attached ==> HasHalf(es))
    ensures Ordered(es + Rounds(attached, ls, number, states))
    ensures Sound(es + Rounds(attached, ls, number, states)) <==>
            Sound(es) && !(HasHalf(es) && Due(ls, number) && ls[0].number in states)
  {
    hide Ordered, Sound, HasHalf;
    if HasHalf(es) {
      LateRounds(es, attached, ls, number, states);
    } else {
      AllSoundWithoutHalf(es);
      CleanRounds(es, ls, number, states);
    }
  }

  lemma AllSoundWithoutHalf(es: seq<Episode>)
    requires !HasHalf(es)
    ensures Sound(es)
  {
    forall j | 0 <= j < |es| ensures !HasHalf(es[..j]) {
      HalfWithin(es, j, |es|);
      assert es[..|es|] == es;
    }
  }

  // ------------------------------------------------------------------- which blocks

  /** Block numbers grow from the front on. */
  ghost predicate NumbersGrow(ls: seq<Layer>) {
    forall i, j :: 0 <= i < j < |ls| ==> ls[i].number < ls[j].number
  }

  /**
   * A call takes exactly the blocks with numbers up to the given one, or, if the state of one
   * of them is missing, those up to and with the first whose state is.
   */
  lemma {:induction false} TakenExact(ls: seq<Layer>, number: nat, states: States, i: nat)
    requires NumbersGrow(ls) && i < |ls|
    ensures i < Taken(ls, number, states) <==> ls[i].number <= number && forall j :: 0 <= j < i ==> ls[j].number in states
    ensures Complete(ls, number, states) <==> forall j :: 0 <= j < |ls| && ls[j].number <= number ==> ls[j].number in states
  {
    var rest := ls[1..];
    assert forall j :: 0 <= j < |rest| ==> rest[j] == ls[j + 1];
    assert forall j :: 0 < j < |ls| ==> ls[j] == rest[j - 1];
    if rest == [] {
      assert Complete(rest, number, states);
    } else {
      TakenExact(rest, number, states, if i > 0 then i - 1 else 0);
    }
  }
}
