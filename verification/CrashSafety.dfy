/**
 * When a clean flag on disk means a whole number of blocks, over any sequence of rounds of
 * the solidify loop and any cut of their writes.
 */
module CrashSafety {
  import opened Bytes
  import opened Sums
  import opened Ledger
  import opened Disk

  /** Wherever the writes are cut, a clean flag means that every store is as after some number of the blocks. */
  ghost predicate CrashSafe(s: Store, items: seq<Item>, writes: seq<Write>) {
    forall n :: 0 <= n <= |writes| && !ApplyAll(s, writes[..n]).dirty ==>
      exists k :: 0 <= k <= |items| && ApplyAll(s, writes[..n]) == SolidifiedAll(s, items[..k])
  }

  /** A round without its block state has happened. */
  ghost predicate HasHalf(es: seq<Episode>) {
    exists i :: 0 <= i < |es| && es[i].Half?
  }

  /** Rounds that commit into a parent come only after a round that left one behind. */
  ghost predicate Ordered(es: seq<Episode>) {
    forall j :: 0 <= j < |es| && (es[j].Bare? || es[j].Idle?) ==> HasHalf(es[..j])
  }

  /** No round closes after one that was left without its block state. */
  ghost predicate Sound(es: seq<Episode>) {
    forall j :: 0 <= j < |es| && Closes(es[j]) ==> !HasHalf(es[..j])
  }

  /** The blocks of the leading full rounds. */
  function Fulls(es: seq<Episode>): seq<Item> {
    if es == [] || !es[0].Full? then [] else [es[0].item] + Fulls(es[1..])
  }

  lemma {:induction false} FullsAt(es: seq<Episode>, k: nat)
    requires k <= |es| && forall i :: 0 <= i < k ==> es[i].Full?
    ensures k <= |Fulls(es)| && forall i :: 0 <= i < k ==> Fulls(es)[i] == es[i].item
  {
    if k > 0 {
      FullsAt(es[1..], k - 1);
      forall i | 0 <= i < k ensures Fulls(es)[i] == es[i].item {
        if i > 0 {
          assert Fulls(es)[i] == Fulls(es[1..])[i - 1] && es[1..][i - 1] == es[i];
        }
      }
    }
  }

  lemma {:induction false} FullRounds(s: Store, es: seq<Episode>, k: nat)
    requires k <= |es| && forall i :: 0 <= i < k ==> es[i].Full?
    ensures k <= |Fulls(es)| && AfterAll(s, es[..k]) == SolidifiedAll(s, Fulls(es)[..k])
  {
    hide Solidified, Fulls;
    FullsAt(es, k);
    if k > 0 {
      FullRounds(s, es, k - 1);
      assert es[..k][..k - 1] == es[..k - 1] && Fulls(es)[..k][..k - 1] == Fulls(es)[..k - 1];
    }
  }

  lemma HalfWithin(es: seq<Episode>, i: nat, k: nat)
    requires i <= k <= |es|
    ensures HasHalf(es[..i]) ==> HasHalf(es[..k])
    ensures i < k && es[i].Half? ==> HasHalf(es[..k])
  {
    forall h | 0 <= h < i && es[..i][h].Half? ensures HasHalf(es[..k]) {
      assert es[..k][h].Half?;
    }
    assert i < k ==> es[..k][i] == es[i];
  }

  /** In a sound sequence everything before a closed round is full. */
  lemma FullBeforeClosed(es: seq<Episode>, k: nat, i: nat)
    requires Ordered(es) && Sound(es) && i < k <= |es| && Closes(es[k - 1])
    ensures es[i].Full?
  {
    hide HasHalf;
    HalfWithin(es, i, k - 1);
  }

  lemma SoundIsSafe(s: Store, es: seq<Episode>, ws: seq<seq<Write>>)
    requires Journal(s, es, ws) && Ordered(es) && Sound(es)
    ensures CrashSafe(s, Fulls(es), Flat(ws))
  {
    hide Journal, ApplyAll, AfterAll, SolidifiedAll, Flat, Ordered, Sound, Fulls;
    var writes := Flat(ws);
    forall n | 0 <= n <= |writes| && !ApplyAll(s, writes[..n]).dirty
      ensures exists k :: 0 <= k <= |Fulls(es)| && ApplyAll(s, writes[..n]) == SolidifiedAll(s, Fulls(es)[..k])
    {
      var k := CleanCut(s, es, ws, n);
      forall i | 0 <= i < k ensures es[i].Full? {
        FullBeforeClosed(es, k, i);
      }
      FullRounds(s, es, k);
    }
  }

  // ------------------------------------------------------------------ the other direction

  /** A block and its state have the same number. */
  predicate Numbered(items: seq<Item>) {
    forall i :: 0 <= i < |items| ==> items[i].block.number == items[i].state.number
  }

  /** Exactly the stored blocks have stored states. */
  predicate Indexed(s: Store) {
    s.blockIndex.Keys == s.stateIndex.Keys
  }

  lemma {:induction false} WholeBlocksIndexed(s: Store, items: seq<Item>)
    requires Indexed(s) && Numbered(items)
    ensures Indexed(SolidifiedAll(s, items))
  {
    if items != [] {
      WholeBlocksIndexed(s, items[..|items| - 1]);
    }
  }

  function StateNumber(e: Episode): nat
    requires Closes(e)
  {
    if e.Full? then e.item.state.number else e.state.number
  }

  /** The blocks left without their state are new, and no other block has their number. */
  ghost predicate NewNumbers(s: Store, es: seq<Episode>) {
    && (forall i :: 0 <= i < |es| && es[i].Half? ==> es[i].block.number !in s.stateIndex)
    && (forall i, j :: 0 <= i < |es| && 0 <= j < |es| && es[i].Half? && Closes(es[j]) ==> es[i].block.number != StateNumber(es[j]))
  }

  /** A block left without its state stays without it. */
  lemma {:induction false} StateStaysMissing(s: Store, es: seq<Episode>, i: nat, k: nat)
    requires NewNumbers(s, es) && i < k <= |es| && es[i].Half?
    ensures es[i].block.number in AfterAll(s, es[..k]).blockIndex
    ensures es[i].block.number !in AfterAll(s, es[..k]).stateIndex
    decreases k
  {
    assert es[..k][..k - 1] == es[..k - 1];
    hide Over;
    if i < k - 1 {
      StateStaysMissing(s, es, i, k - 1);
    } else {
      StateNotYet(s, es, i, i);
    }
  }

  lemma {:induction false} StateNotYet(s: Store, es: seq<Episode>, i: nat, k: nat)
    requires NewNumbers(s, es) && k <= i < |es| && es[i].Half?
    ensures es[i].block.number !in AfterAll(s, es[..k]).stateIndex
    decreases k
  {
    hide Over;
    if k > 0 {
      assert es[..k][..k - 1] == es[..k - 1];
      StateNotYet(s, es, i, k - 1);
    }
  }

  /** If a round closes after a block was left without its state, no whole number of any blocks accounts for the disk. */
  lemma UnsoundIsUnsafe(s: Store, es: seq<Episode>, ws: seq<seq<Write>>, items: seq<Item>)
    requires Journal(s, es, ws) && Indexed(s) && NewNumbers(s, es) && !Sound(es) && Numbered(items)
    ensures !CrashSafe(s, items, Flat(ws))
  {
    hide Journal, ApplyAll, SolidifiedAll, Flat, NewNumbers, AfterEpisode;
    var j :| 0 <= j < |es| && Closes(es[j]) && HasHalf(es[..j]);
    var i :| 0 <= i < j && es[..j][i].Half?;
    var n := RoundEnds(s, es, ws, j + 1);
    var store := AfterAll(s, es[..j + 1]);
    assert !store.dirty by {
      assert es[..j + 1][..j] == es[..j];
      ClosedOrDirty(AfterAll(s, es[..j]), es[j]);
    }
    StateStaysMissing(s, es, i, j + 1);
    forall k | 0 <= k <= |items| ensures store != SolidifiedAll(s, items[..k]) {
      assert Numbered(items[..k]);
      WholeBlocksIndexed(s, items[..k]);
    }
  }

  /**
   * Exactly when crash consistency holds: when no round closes after one that was left
   * without its block state.
   */
  lemma CrashSafeExact(s: Store, es: seq<Episode>, ws: seq<seq<Write>>)
    requires Journal(s, es, ws) && Ordered(es) && Indexed(s) && NewNumbers(s, es) && Numbered(Fulls(es))
    ensures (exists items :: Numbered(items) && CrashSafe(s, items, Flat(ws))) <==> Sound(es)
  {
    hide Journal, Ordered, NewNumbers, Sound, CrashSafe, Flat, Fulls;
    if Sound(es) {
      SoundIsSafe(s, es, ws);
    } else {
      forall items | Numbered(items) ensures !CrashSafe(s, items, Flat(ws)) {
        UnsoundIsUnsafe(s, es, ws, items);
      }
    }
  }

  // ---------------------------------------------------------------- one round at a time

  lemma HalfSnoc(es: seq<Episode>, e: Episode)
    ensures HasHalf(es + [e]) <==> HasHalf(es) || e.Half?
  {
    var all := es + [e];
    assert all[|es|] == e;
    forall i | 0 <= i < |es| ensures all[i] == es[i] { }
  }

  lemma SoundSnoc(es: seq<Episode>, e: Episode)
    ensures Sound(es + [e]) <==> Sound(es) && !(Closes(e) && HasHalf(es))
    ensures Ordered(es + [e]) <==> Ordered(es) && (e.Bare? || e.Idle? ==> HasHalf(es))
  {
    hide HasHalf;
    var all := es + [e];
    assert all[|es|] == e && all[..|es|] == es;
    forall j | 0 <= j < |es| ensures all[j] == es[j] && all[..j] == es[..j] { }
  }

  /** As long as every round was sound, the flag on disk tells whether some block was left without its state. */
  lemma FlagTells(s: Store, es: seq<Episode>)
    requires !s.dirty && Ordered(es) && Sound(es)
    ensures AfterAll(s, es).dirty <==> HasHalf(es)
  {
    hide AfterEpisode, HasHalf;
    if es != [] {
      var n := |es| - 1;
      ClosedOrDirty(AfterAll(s, es[..n]), es[n]);
      assert es == es[..n] + [es[n]];
      HalfSnoc(es[..n], es[n]);
    } else {
      NoHalf();
    }
  }

  lemma NoHalf()
    ensures !HasHalf([]) && Sound([]) && Ordered([])
  {
  }
}
