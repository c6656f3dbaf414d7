/** The Merkle Patricia trie of a sorted map (trie/Trie.cpp; Appendix D of the Ethereum Yellow Paper):
    ranges of entries, the node tree that range splitting builds, and what that tree answers. */
module Trie {
  import opened Bytes
  import opened Lex
  import opened HexPrefix

  /** One map entry; the key is a vector with one nibble per byte. */
  datatype Entry = Entry(key: seq<byte>, value: seq<byte>)

  datatype Node =
    | Null
    | Leaf(path: seq<byte>, value: seq<byte>)
    | Ext(path: seq<byte>, child: Node)
    | Branch(children: seq<Node>, value: seq<byte>)

  // ---------- Ranges ----------

  ghost predicate Sorted(es: seq<Entry>) {
    forall i, j :: 0 <= i < j < |es| ==> Less(es[i].key, es[j].key)
  }

  ghost predicate Below(e: Entry, pre: nat, common: seq<byte>) {
    IsNibbles(e.key) && pre <= |e.key| && e.key[..pre] == common
  }

  /** Entries of the map whose keys share their first `pre` nibbles. */
  ghost predicate Range(es: seq<Entry>, pre: nat) {
    && Sorted(es)
    && forall i :: 0 <= i < |es| ==> pre <= |es[0].key| && Below(es[i], pre, es[0].key[..pre])
  }

  lemma SubRange(es: seq<Entry>, pre: nat, lo: nat, hi: nat)
    requires Range(es, pre) && lo <= hi <= |es|
    ensures Range(es[lo..hi], pre)
    ensures lo < hi ==> es[lo..hi][0].key[..pre] == es[0].key[..pre]
  {
    hide Less, IsNibbles;
    if lo < hi { assert Below(es[lo], pre, es[0].key[..pre]); }
  }

  /** Only the first key of a range can end at the shared prefix. */
  lemma LaterKeysLonger(es: seq<Entry>, pre: nat, i: nat)
    requires Range(es, pre) && 0 < i < |es|
    ensures |es[i].key| > pre
  {
    var a, b := es[0].key, es[i].key;
    assert Less(a, b) && Below(es[i], pre, a[..pre]);
    LessAfterPrefix(a, b, pre);
  }

  /** Past the shared prefix the next nibbles ascend. */
  lemma NextNibbleAscends(es: seq<Entry>, pre: nat, i: nat, j: nat)
    requires Range(es, pre) && i < j < |es| && |es[i].key| > pre
    ensures |es[j].key| > pre && es[i].key[pre] <= es[j].key[pre]
  {
    LaterKeysLonger(es, pre, j);
    var a, b := es[i].key, es[j].key;
    assert Less(a, b) && Below(es[i], pre, es[0].key[..pre]) && Below(es[j], pre, es[0].key[..pre]);
    LessAfterPrefix(a, b, pre);
  }

  // ---------- The shared prefix ----------

  /** The first position from `k` on where `a` and `b` differ or one of them ends. */
  function Common(a: seq<byte>, b: seq<byte>, k: nat): (r: nat)
    requires k <= |a| && k <= |b|
    ensures k <= r <= |a| && r <= |b|
    ensures a[k..r] == b[k..r]
    ensures r < |a| && r < |b| ==> a[r] != b[r]
    decreases |a| - k
  {
    if k < |a| && k < |b| && a[k] == b[k] then
      var r := Common(a, b, k + 1);
      assert a[k..r] == [a[k]] + a[k + 1..r] && b[k..r] == [b[k]] + b[k + 1..r];
      r
    else k
  }

  /** The number of nibbles that the first `n` keys share. */
  function SharedPre(es: seq<Entry>, pre: nat, n: nat): (r: nat)
    requires 2 <= n <= |es|
    requires forall i :: 0 <= i < n ==> pre <= |es[i].key|
    ensures r >= pre
  {
    var c := Common(es[0].key, es[n - 1].key, pre);
    if n == 2 then c else
      var m := SharedPre(es, pre, n - 1);
      if c < m then c else m
  }

  lemma PrefixOf(a: seq<byte>, b: seq<byte>, m: nat, r: nat)
    requires r <= m <= |a| && m <= |b| && a[..m] == b[..m]
    ensures a[..r] == b[..r]
  {
    assert a[..r] == a[..m][..r] && b[..r] == b[..m][..r];
  }

  lemma CommonFromStart(es: seq<Entry>, pre: nat, i: nat)
    requires Range(es, pre) && i < |es|
    ensures pre <= |es[0].key| && pre <= |es[i].key|
    ensures var c := Common(es[0].key, es[i].key, pre); es[0].key[..c] == es[i].key[..c]
  {
    hide Less, IsNibbles, Common;
    var a, b := es[0].key, es[i].key;
    assert Below(es[i], pre, a[..pre]);
    var c := Common(a, b, pre);
    assert a[..c] == a[..pre] + a[pre..c] && b[..c] == b[..pre] + b[pre..c];
  }

  /** All keys share `SharedPre` nibbles. */
  lemma {:induction false} AllShare(es: seq<Entry>, pre: nat, n: nat, i: nat)
    requires Range(es, pre) && i < n && 2 <= n <= |es|
    requires forall i :: 0 <= i < |es| ==> pre <= |es[i].key|
    ensures var r := SharedPre(es, pre, n);
            r <= |es[0].key| && r <= |es[i].key| && es[0].key[..r] == es[i].key[..r]
  {
    CommonFromStart(es, pre, n - 1);
    hide Common, Range;
    var r := SharedPre(es, pre, n);
    if i == n - 1 {
      PrefixOf(es[0].key, es[i].key, Common(es[0].key, es[i].key, pre), r);
    } else if n > 2 {
      AllShare(es, pre, n - 1, i);
      PrefixOf(es[0].key, es[i].key, SharedPre(es, pre, n - 1), r);
    }
  }

  /** Some key shares no more than that with the first. */
  lemma {:induction false} SomeSharesNoMore(es: seq<Entry>, pre: nat, n: nat) returns (w: nat)
    requires 2 <= n <= |es|
    requires forall i :: 0 <= i < |es| ==> pre <= |es[i].key|
    ensures 0 < w < n && SharedPre(es, pre, n) == Common(es[0].key, es[w].key, pre)
  {
    hide Common;
    w := n - 1;
    if n > 2 && SharedPre(es, pre, n) < Common(es[0].key, es[w].key, pre) { w := SomeSharesNoMore(es, pre, n - 1); }
  }

  // ---------- The 16-way split ----------

  /** Does the entry come before the slot of nibble `v`? */
  predicate Before(e: Entry, pre: nat, v: nat) { |e.key| <= pre || (e.key[pre] as nat) < v }

  /** Where the slot of nibble `v` starts. */
  function Lo(es: seq<Entry>, pre: nat, v: nat): (n: nat)
    ensures n <= |es|
  {
    if es == [] then 0
    else if Before(es[|es| - 1], pre, v) then |es|
    else Lo(es[..|es| - 1], pre, v)
  }

  function Slot(es: seq<Entry>, pre: nat, v: nat): seq<Entry> {
    if Lo(es, pre, v) <= Lo(es, pre, v + 1) then es[Lo(es, pre, v)..Lo(es, pre, v + 1)] else []
  }

  lemma {:induction false} LoExact(es: seq<Entry>, pre: nat, v: nat, i: nat)
    requires Range(es, pre) && i < |es|
    ensures i < Lo(es, pre, v) <==> Before(es[i], pre, v)
  {
    var last := |es| - 1;
    if Before(es[last], pre, v) {
      if i < last && |es[i].key| > pre { NextNibbleAscends(es, pre, i, last); }
    } else if i < last {
      SubRange(es, pre, 0, last);
      assert es[0..last] == es[..last];
      LoExact(es[..last], pre, v, i);
    }
  }

  lemma NextIsNibble(es: seq<Entry>, pre: nat, i: nat)
    requires Range(es, pre) && i < |es|
    ensures |es[i].key| > pre ==> es[i].key[pre] < 16
  {
    assert Below(es[i], pre, es[0].key[..pre]);
  }

  /** The slots tile the range: the entry that ends at the prefix comes first, slot 0 follows it,
      each slot starts where the one before stops, and the last one stops at the end. */
  lemma SlotsTile(es: seq<Entry>, pre: nat, v: nat)
    requires Range(es, pre)
    ensures Lo(es, pre, v) <= Lo(es, pre, v + 1)
    ensures Lo(es, pre, 0) == if es != [] && |es[0].key| == pre then 1 else 0
    ensures Lo(es, pre, 16) == |es|
  {
    var a, b := Lo(es, pre, v), Lo(es, pre, v + 1);
    hide Lo;
    if b < a { LoExact(es, pre, v, b); LoExact(es, pre, v + 1, b); }
    if Lo(es, pre, 16) < |es| {
      NextIsNibble(es, pre, Lo(es, pre, 16));
      LoExact(es, pre, 16, Lo(es, pre, 16));
    }
    if es != [] {
      LoExact(es, pre, 0, 0);
      assert Below(es[0], pre, es[0].key[..pre]);
      if Lo(es, pre, 0) > 1 {
        LoExact(es, pre, 0, 1);
        LaterKeysLonger(es, pre, 1);
      }
    }
  }

  /** A slot holds exactly the entries whose next nibble is `v`. */
  lemma SlotExact(es: seq<Entry>, pre: nat, v: nat, i: nat)
    requires Range(es, pre) && i < |es|
    ensures Lo(es, pre, v) <= i < Lo(es, pre, v + 1) <==> |es[i].key| > pre && es[i].key[pre] as nat == v
  {
    hide Lo, Range;
    LoExact(es, pre, v, i);
    LoExact(es, pre, v + 1, i);
  }

  lemma SlotKey(es: seq<Entry>, pre: nat, v: nat, i: nat)
    requires Range(es, pre) && i < |es| && |es[i].key| > pre && es[i].key[pre] as nat == v
    ensures pre <= |es[0].key| && v < 256
    ensures Below(es[i], pre + 1, es[0].key[..pre] + [v as byte])
  {
    hide Less, IsNibbles;
    assert Below(es[i], pre, es[0].key[..pre]);
    assert es[i].key[..pre + 1] == es[i].key[..pre] + [es[i].key[pre]];
  }

  /** So its entries share that nibble too. */
  lemma SlotIsRange(es: seq<Entry>, pre: nat, v: nat)
    requires Range(es, pre)
    ensures Range(Slot(es, pre, v), pre + 1)
    ensures Slot(es, pre, v) != [] ==> v < 256 && pre <= |es[0].key| && Slot(es, pre, v)[0].key[..pre + 1] == es[0].key[..pre] + [v as byte]
  {
    SlotsTile(es, pre, v);
    var a, b := Lo(es, pre, v), Lo(es, pre, v + 1);
    var s := Slot(es, pre, v);
    assert s == es[a..b];
    SubRange(es, pre, a, b);
    hide Lo, Less, IsNibbles, Slot;
    forall i | 0 <= i < |s|
      ensures v < 256 && pre <= |es[0].key| && Below(s[i], pre + 1, es[0].key[..pre] + [v as byte])
    {
      SlotExact(es, pre, v, a + i);
      SlotKey(es, pre, v, a + i);
    }
    if s != [] { assert Below(s[0], pre + 1, es[0].key[..pre] + [v as byte]); }
  }

  /** When the keys share no more than `pre`, every slot is smaller than the range. */
  lemma SlotSmaller(es: seq<Entry>, pre: nat, v: nat)
    requires Range(es, pre) && |es| >= 2
    requires forall i :: 0 <= i < |es| ==> pre <= |es[i].key|
    requires SharedPre(es, pre, |es|) == pre
    ensures |Slot(es, pre, v)| < |es|
  {
    var w := SomeSharesNoMore(es, pre, |es|);
    SlotExact(es, pre, v, 0);
    SlotExact(es, pre, v, w);
    hide SharedPre, Range, Lo, Common;
  }

  lemma RangeKeys(es: seq<Entry>, pre: nat)
    requires Range(es, pre)
    ensures forall i :: 0 <= i < |es| ==> pre <= |es[i].key| && IsNibbles(es[i].key)
  {
    forall i | 0 <= i < |es| ensures pre <= |es[i].key| && IsNibbles(es[i].key) {
      assert Below(es[i], pre, es[0].key[..pre]);
    }
  }

  /** Keys that share more nibbles are a range of the longer prefix. */
  lemma LongerRange(es: seq<Entry>, pre: nat)
    requires Range(es, pre) && |es| >= 2
    requires forall i :: 0 <= i < |es| ==> pre <= |es[i].key|
    ensures var r := SharedPre(es, pre, |es|); r <= |es[0].key| && Range(es, r)
  {
    RangeKeys(es, pre);
    hide SharedPre, Less, IsNibbles;
    var r := SharedPre(es, pre, |es|);
    forall i | 0 <= i < |es| ensures r <= |es[0].key| && Below(es[i], r, es[0].key[..r]) {
      AllShare(es, pre, |es|, i);
    }
  }

  // ---------- The node tree ----------

  /** `hash256rlp`: what a range becomes. */
  ghost function Build(es: seq<Entry>, pre: nat): Node
    requires Range(es, pre)
    decreases |es|, if es == [] then 0 else |es[0].key| - pre
  {
    if es == [] then Null
    else if |es| == 1 then Leaf(es[0].key[pre..], es[0].value)
    else
      RangeKeys(es, pre);
      LongerRange(es, pre);
      var shared := SharedPre(es, pre, |es|);
      if shared > pre then Ext(es[0].key[pre..shared], Build(es, shared))
      else
        Branch(seq(16, v requires 0 <= v < 16 =>
            SlotIsRange(es, pre, v); SlotSmaller(es, pre, v); Build(Slot(es, pre, v), pre + 1)),
          if |es[0].key| == pre then es[0].value else [])
  }
}
