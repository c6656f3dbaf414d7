/** `hash256rlp`, `hash256aux` and `trieRLP256` (trie/Trie.cpp) as they run: recursion over a range of
    the sorted map, loops that find the shared prefix and the sixteen slots, output to a stream. */
module TrieStream {
  import opened Bytes
  import opened Lex
  import opened Rlp
  import opened RlpStream
  import opened HexPrefix
  import opened Trie
  import opened TrieAnswers
  import TrieEntries
  import opened TrieHash

  /** `(unsigned)-1`. */
  const NO_PREFIX: nat := 0xffff_ffff

  /** Keys are measured in 32-bit counts. */
  ghost predicate Storable(es: seq<Entry>) {
    forall i :: 0 <= i < |es| ==> |es[i].key| < NO_PREFIX && |es[i].value| < SIZE_LIMIT
  }

  /** What one node can add to the stream, counting nine bytes for every open list. */
  const NODE_ROOM: nat := 2 * SIZE_LIMIT + 1000

  // ---------- The shared prefix ----------

  lemma {:induction false} SharedPreShrinks(es: seq<Entry>, pre: nat, m: nat, n: nat)
    requires 2 <= m <= n <= |es|
    requires forall i :: 0 <= i < |es| ==> pre <= |es[i].key|
    ensures SharedPre(es, pre, n) <= SharedPre(es, pre, m)
  {
    hide Common;
    if m < n { SharedPreShrinks(es, pre, m, n - 1); }
  }

  /** The inner loop: the common prefix of two keys, not looking past `limit`. */
  method CommonUpTo(a: seq<byte>, b: seq<byte>, pre: nat, limit: nat) returns (shared: nat)
    requires pre <= |a| && pre <= |b| && pre <= limit
    ensures shared == if Common(a, b, pre) < limit then Common(a, b, pre) else limit
  {
    var x := if |a| < |b| then |a| else |b|;
    if limit < x { x := limit; }
    shared := pre;
    while shared < x && a[shared] == b[shared]
      invariant pre <= shared <= x && Common(a, b, shared) == Common(a, b, pre)
    {
      shared := shared + 1;
    }
  }

  /** The outer loop, which stops early once nothing is shared. */
  method FindSharedPre(es: seq<Entry>, pre: nat) returns (shared: nat)
    requires |es| >= 2 && Storable(es)
    requires forall i :: 0 <= i < |es| ==> pre <= |es[i].key|
    ensures shared == SharedPre(es, pre, |es|)
  {
    hide Common;
    shared := NO_PREFIX;
    var i := 1;
    while i < |es| && shared != 0
      invariant 1 <= i <= |es|
      invariant if i == 1 then shared == NO_PREFIX else shared == SharedPre(es, pre, i)
    {
      assert |es[i].key| < NO_PREFIX;
      shared := CommonUpTo(es[0].key, es[i].key, pre, shared);
      i := i + 1;
    }
    SharedPreShrinks(es, pre, i, |es|);
  }

  // ---------- The slots ----------

  /** Moves past the entries whose next nibble is `v`. */
  method SlotEnd(es: seq<Entry>, pre: nat, v: nat, b: nat) returns (n: nat)
    requires Range(es, pre) && b == Lo(es, pre, v)
    requires forall i :: b <= i < |es| ==> |es[i].key| > pre
    ensures n == Lo(es, pre, v + 1) && b <= n <= |es|
  {
    hide Lo, Range;
    SlotsTile(es, pre, v);
    n := b;
    while n < |es| && es[n].key[pre] as nat == v
      invariant b <= n <= Lo(es, pre, v + 1) <= |es|
      decreases |es| - n
    {
      SlotExact(es, pre, v, n);
      n := n + 1;
    }
    if n < |es| { SlotExact(es, pre, v, n); }
  }

  // ---------- What the calls leave in the stream ----------

  lemma PutTwo(c: Content, x: Item, y: Item)
    ensures Put(Put(Announce(c, 2), x), y) == Put(c, List([x, y]))
  {
    var a := Announce(c, 2);
    var b := Put(a, x);
    assert a.open[..|c.open|] == c.open && [] + [x] == [x];
    assert b == c.(open := c.open + [Frame([x], 1)]);
    assert [x] + [y] == [x, y];
    assert b.open[..|c.open|] == c.open;
  }

  /** An open list that has `items` and misses `missing` more. */
  ghost function Half17(c: Content, items: seq<Item>): Content
    requires |items| < 17
  {
    c.(open := c.open + [Frame(items, 17 - |items|)])
  }

  lemma PutIntoBranch(c: Content, items: seq<Item>, x: Item)
    requires |items| < 17
    ensures |items| < 16 ==> Put(Half17(c, items), x) == Half17(c, items + [x])
    ensures |items| == 16 ==> Put(Half17(c, items), x) == Put(c, List(items + [x]))
  {
    var h := Half17(c, items);
    assert h.open[..|c.open|] == c.open;
  }

  lemma HalfEmpty(c: Content)
    ensures Announce(c, 17) == Half17(c, [])
  {}

  lemma BranchItem(es: seq<Entry>, pre: nat, sha: Hash)
    requires Range(es, pre) && |es| >= 2 && Splits(es, pre)
    ensures Build(es, pre).Branch?
    ensures ItemOf(Build(es, pre), sha) ==
            List(Refs(Build(es, pre).children, sha) + [Str(if |es[0].key| == pre then es[0].value else [])])
  {
    hide Build, Refs, Range, Splits;
    BuildBranch(es, pre);
  }

  lemma BranchStep(c: Content, rs: seq<Item>, v: nat)
    requires v < |rs| == 16
    ensures Put(Half17(c, rs[..v]), rs[v]) == Half17(c, rs[..v + 1])
  {
    hide Put, Half17;
    PutIntoBranch(c, rs[..v], rs[v]);
    assert rs[..v] + [rs[v]] == rs[..v + 1];
  }

  // ---------- The recursion ----------

  /** `hash256aux`: the subtree goes to a stream of its own, and then its bytes or their hash follow. */
  method Hash256Aux(es: seq<Entry>, pre: nat, sha: Hash, stream: RLPStream)
    requires Range(es, pre) && Storable(es) && Hashes32(sha)
    requires stream.Valid() && |stream.out| + 9 * |stream.listStack| + 42 < TWO_64
    modifies stream
    ensures stream.Valid() && stream.content == Put(old(stream.content), Ref(Build(es, pre), sha))
    ensures |stream.out| + 9 * |stream.listStack| <= old(|stream.out| + 9 * |stream.listStack|) + 42
    decreases |es|, if es == [] then 0 else |es[0].key| - pre, 3
  {
    var rlp := new RLPStream();
    Hash256Rlp(es, pre, sha, rlp);
    ghost var x := ItemOf(Build(es, pre), sha);
    OnlyItem(rlp.content, x);
    EncAllOne(x);
    hide Build, ItemOf, Enc, EncAll, Put, PutAll, Written, Pending, StackMatches, Range;
    assert rlp.out == Enc(x);
    if |rlp.out| < 32 {
      OneRaw(stream, x);
      var r := stream.AppendRaw(rlp.out, 1, [x]);
    } else {
      stream.Append(sha(rlp.out), false);
    }
  }

  lemma OnlyItem(c: Content, x: Item)
    requires c == Put(Content([], []), x)
    ensures Written(c) == Enc(x)
  {
    EncAllOne(x);
    PendingNone([]);
    hide Enc, EncAll, Pending;
    assert c == Content([x], []);
  }

  lemma OneRaw(stream: RLPStream, x: Item)
    requires stream.Valid()
    ensures PutAll(stream.content, [x]) == Some(Put(stream.content, x))
  {
    StackTop(stream.content.done, stream.content.open, stream.listStack);
    PutAllOne(stream.content, x);
  }

  /** The pair that ends a path: the rest of the key, and the value. */
  method StreamLeaf(e: Entry, pre: nat, stream: RLPStream)
    requires pre <= |e.key| < NO_PREFIX && |e.value| < SIZE_LIMIT && IsNibbles(e.key)
    requires stream.Valid() && |stream.out| + 9 * |stream.listStack| + NODE_ROOM < TWO_64
    modifies stream
    ensures stream.Valid()
    ensures stream.content == Put(old(stream.content), List([Str(HexEncode(e.key[pre..], true)), Str(e.value)]))
  {
    hide Put, IsNibbles, HexEncode;
    ghost var c := stream.content;
    stream.AppendList(2);
    var hp := EncodeVector(e.key, true, pre, -1);
    assert e.key[pre..|e.key|] == e.key[pre..];
    stream.Append(hp, false);
    stream.Append(e.value, false);
    PutTwo(c, Str(hp), Str(e.value));
  }

  /** The pair of a shared path and the subtree below it. */
  method StreamExt(es: seq<Entry>, pre: nat, shared: nat, sha: Hash, stream: RLPStream)
    requires Range(es, pre) && Range(es, shared) && es != [] && pre < shared <= |es[0].key| && IsNibbles(es[0].key)
    requires Storable(es) && Hashes32(sha)
    requires stream.Valid() && |stream.out| + 9 * |stream.listStack| + NODE_ROOM < TWO_64
    modifies stream
    ensures stream.Valid()
    ensures stream.content == Put(old(stream.content),
        List([Str(HexEncode(es[0].key[pre..shared], false)), Ref(Build(es, shared), sha)]))
    decreases |es|, |es[0].key| - pre, 1
  {
    hide Build, Ref, Put, Range, IsNibbles, HexEncode;
    ghost var c := stream.content;
    stream.AppendList(2);
    var hp := EncodeVector(es[0].key, false, pre, shared);
    stream.Append(hp, false);
    Hash256Aux(es, shared, sha, stream);
    PutTwo(c, Str(hp), Ref(Build(es, shared), sha));
  }

  /** `hash256rlp`: streams the node of a range; the stream gets exactly that node's item. */
  method Hash256Rlp(es: seq<Entry>, pre: nat, sha: Hash, stream: RLPStream)
    requires Range(es, pre) && Storable(es) && Hashes32(sha)
    requires stream.Valid() && |stream.out| + 9 * |stream.listStack| + NODE_ROOM < TWO_64
    modifies stream
    ensures stream.Valid() && stream.content == Put(old(stream.content), ItemOf(Build(es, pre), sha))
    decreases |es|, if es == [] then 0 else |es[0].key| - pre, 2
  {
    hide Build, Ref, Put, Range, IsNibbles, HexEncode, SharedPre;
    RangeKeys(es, pre);
    if es == [] {
      BuildSmall(es, pre);
      stream.Append([], false);
    } else if |es| == 1 {
      BuildSmall(es, pre);
      StreamLeaf(es[0], pre, stream);
    } else {
      var shared := FindSharedPre(es, pre);
      if shared > pre {
        LongerRange(es, pre);
        ghost var m := TrieEntries.BuildExtTo(es, pre);
        StreamExt(es, pre, shared, sha, stream);
      } else {
        StreamBranch(es, pre, sha, stream);
      }
    }
  }

  /** The branch case: seventeen items, one per slot and then the value. */
  method StreamBranch(es: seq<Entry>, pre: nat, sha: Hash, stream: RLPStream)
    requires Range(es, pre) && |es| >= 2 && Splits(es, pre) && Storable(es) && Hashes32(sha)
    requires stream.Valid() && |stream.out| + 9 * |stream.listStack| + NODE_ROOM < TWO_64
    modifies stream
    ensures stream.Valid() && stream.content == Put(old(stream.content), ItemOf(Build(es, pre), sha))
    decreases |es|, |es[0].key| - pre, 1
  {
    hide Build, Ref, Refs, Put, Range, Splits, ItemOf, Half17, Announce;
    ghost var c := stream.content;
    stream.AppendList(17);
    HalfEmpty(c);
    StreamSlots(es, pre, sha, stream, c);
    BranchItem(es, pre, sha);
    var value := if |es[0].key| == pre then es[0].value else [];
    stream.Append(value, false);
    PutIntoBranch(c, Refs(Build(es, pre).children, sha), Str(value));
  }

  /** The loop over the sixteen nibbles. */
  method StreamSlots(es: seq<Entry>, pre: nat, sha: Hash, stream: RLPStream, ghost c: Content)
    requires Range(es, pre) && |es| >= 2 && Splits(es, pre) && Storable(es) && Hashes32(sha)
    requires stream.Valid() && |stream.out| + 9 * |stream.listStack| + 42 * 16 < TWO_64
    requires stream.content == Half17(c, [])
    modifies stream
    ensures stream.Valid() && Build(es, pre).Branch? && |Build(es, pre).children| == 16
    ensures stream.content == Half17(c, Refs(Build(es, pre).children, sha))
    ensures |stream.out| + 9 * |stream.listStack| <= old(|stream.out| + 9 * |stream.listStack|) + 42 * 16
    decreases |es|, |es[0].key| - pre, 0, 1
  {
    hide Build, Ref, Put, Range, Lo, Splits, Half17, Refs, Slot;
    BuildBranch(es, pre);
    SlotsTile(es, pre, 0);
    ghost var rs := Refs(Build(es, pre).children, sha);
    ghost var room := |stream.out| + 9 * |stream.listStack|;
    var b := if |es[0].key| == pre then 1 else 0;
    assert rs[..0] == [];
    for v := 0 to 16
      invariant stream.Valid() && b == Lo(es, pre, v)
      invariant stream.content == Half17(c, rs[..v])
      invariant |stream.out| + 9 * |stream.listStack| <= room + 42 * v
    {
      KeysFrom(es, pre, v);
      var n := SlotEnd(es, pre, v, b);
      StreamSlot(es, pre, v, b, n, sha, stream);
      BranchStep(c, rs, v);
      b := n;
    }
    assert rs[..16] == rs;
  }

  lemma KeysFrom(es: seq<Entry>, pre: nat, v: nat)
    requires Range(es, pre)
    ensures forall i :: Lo(es, pre, v) <= i < |es| ==> |es[i].key| > pre
  {
    hide Lo, Range;
    forall i | Lo(es, pre, v) <= i < |es| ensures |es[i].key| > pre {
      LoExact(es, pre, v, i);
    }
  }

  /** One slot: nothing, or its subtree. */
  method StreamSlot(es: seq<Entry>, pre: nat, ghost v: nat, b: nat, n: nat, sha: Hash, stream: RLPStream)
    requires Range(es, pre) && |es| >= 2 && Splits(es, pre) && Storable(es) && Hashes32(sha) && v < 16
    requires b == Lo(es, pre, v) <= n == Lo(es, pre, v + 1)
    requires stream.Valid() && |stream.out| + 9 * |stream.listStack| + 42 < TWO_64
    modifies stream
    ensures stream.Valid() && Build(es, pre).Branch? && |Build(es, pre).children| == 16
    ensures stream.content == Put(old(stream.content), Ref(Build(es, pre).children[v], sha))
    ensures |stream.out| + 9 * |stream.listStack| <= old(|stream.out| + 9 * |stream.listStack|) + 42
    decreases |es|, |es[0].key| - pre, 0, 0
  {
    hide Build, Put, Range, Lo, Splits, Ref;
    BuildBranch(es, pre);
    assert Slot(es, pre, v) == es[b..n];
    if b == n {
      BuildSmall(es[b..n], pre + 1);
      RefOfNull(sha);
      stream.Append([], false);
    } else {
      Hash256Aux(es[b..n], pre + 1, sha, stream);
    }
  }

  lemma RefOfNull(sha: Hash)
    ensures Ref(Null, sha) == Str([])
  {}

  /** `trieRLP256`: the keys become nibble vectors in reverse order of the map, and the root is streamed. */
  method TrieRlp256(m: seq<Entry>, sha: Hash) returns (d: seq<byte>)
    requires Sorted(m) && Hashes32(sha)
    requires forall i :: 0 <= i < |m| ==> 2 * |m[i].key| < NO_PREFIX && |m[i].value| < SIZE_LIMIT
    ensures Range(HexMap(m), 0) && d == TrieRlp(HexMap(m), sha)
  {
    HexMapRange(m);
    if m == [] {
      BuildSmall(HexMap(m), 0);
      return [DATA_IMM_LEN_START];
    }
    var es: seq<Entry> := [];
    var i := |m|;
    while i > 0
      invariant 0 <= i <= |m| && es == HexMap(m[i..])
    {
      i := i - 1;
      assert m[i..][1..] == m[i + 1..];
      es := [Entry(AsNibbles(m[i].key), m[i].value)] + es;
    }
    assert m[0..] == m;
    HexMapStorable(m);
    var s := new RLPStream();
    Hash256Rlp(es, 0, sha, s);
    OnlyItem(s.content, ItemOf(Build(es, 0), sha));
    d := s.out;
  }

  function HexMap(m: seq<Entry>): (es: seq<Entry>)
    ensures |es| == |m|
    ensures forall i :: 0 <= i < |m| ==> es[i] == Entry(AsNibbles(m[i].key), m[i].value)
  {
    if m == [] then [] else [Entry(AsNibbles(m[0].key), m[0].value)] + HexMap(m[1..])
  }

  lemma HexMapStorable(m: seq<Entry>)
    requires forall i :: 0 <= i < |m| ==> 2 * |m[i].key| < NO_PREFIX && |m[i].value| < SIZE_LIMIT
    ensures Storable(HexMap(m))
  {}

  /** Splitting bytes into nibbles keeps the order of keys. */
  lemma {:induction false} NibblesKeepOrder(a: seq<byte>, b: seq<byte>)
    requires Less(a, b)
    ensures Less(AsNibbles(a), AsNibbles(b))
  {
    var x, y := AsNibbles(a), AsNibbles(b);
    if a == [] {
      assert y != [];
    } else {
      AsNibblesStep(a);
      AsNibblesStep(b);
      hide Slice, Nibble, AsNibbles;
      assert x[1..][1..] == x[2..] && y[1..][1..] == y[2..];
      if a[0] == b[0] {
        NibblesKeepOrder(a[1..], b[1..]);
      }
    }
  }

  lemma AsNibblesStep(a: seq<byte>)
    requires a != []
    ensures |AsNibbles(a)| >= 2 && AsNibbles(a)[0] == a[0] / 16 && AsNibbles(a)[1] == a[0] % 16
    ensures AsNibbles(a)[2..] == AsNibbles(a[1..])
  {
    var x, y := AsNibbles(a), AsNibbles(a[1..]);
    forall i | 0 <= i < |y| ensures x[2..][i] == y[i] {
      assert (i + 2) / 2 == i / 2 + 1 && (i + 2) % 2 == i % 2;
      assert Nibble(a, i + 2) == Nibble(a[1..], i);
    }
  }

  lemma HexMapRange(m: seq<Entry>)
    requires Sorted(m)
    ensures Range(HexMap(m), 0)
  {
    var es := HexMap(m);
    forall i, j | 0 <= i < j < |es| ensures Less(es[i].key, es[j].key) {
      NibblesKeepOrder(m[i].key, m[j].key);
    }
    hide Less, HexMap;
    RootRange(es);
  }
}
