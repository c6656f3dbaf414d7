/**
 * The bytes and the shape of a trie, spelt out: what stands for a child in its parent's
 * encoding, and where there is an extension, a branch or a leaf.
 */
module TrieBytes {
  import opened Bytes
  import opened Lex
  import opened Rlp
  import opened HexPrefix
  import opened Trie
  import opened TrieAnswers
  import opened TrieEntries
  import opened TrieHash

  // ---------- What stands for a child ----------

  /** The encoding of a node. */
  function NodeBytes(n: Node, sha: Hash): seq<byte> { Enc(ItemOf(n, sha)) }

  /** A child of fewer than 32 bytes stands for itself; of a longer one the hash stands there, as a string of 32 bytes. */
  lemma ChildBytes(c: Node, sha: Hash)
    requires Hashes32(sha)
    ensures Enc(Ref(c, sha)) == if |NodeBytes(c, sha)| < 32 then NodeBytes(c, sha) else [0xa0] + sha(NodeBytes(c, sha))
  {
    hide ItemOf, BigEndian;
    assert |sha(NodeBytes(c, sha))| == 32;
  }

  predicate Child(n: Node, c: Node) {
    (n.Ext? && n.child == c) || (n.Branch? && c in n.children)
  }

  /** `part` stands in `whole` in one piece. */
  ghost predicate Occurs(part: seq<byte>, whole: seq<byte>) {
    exists i: nat :: OccursAt(part, whole, i)
  }

  predicate OccursAt(part: seq<byte>, whole: seq<byte>, i: nat) {
    i + |part| <= |whole| && whole[i..i + |part|] == part
  }

  lemma OccursBetween(a: seq<byte>, part: seq<byte>, b: seq<byte>)
    ensures Occurs(part, a + part + b)
  {
    assert OccursAt(part, a + part + b, |a|);
  }

  lemma OccursTrans(a: seq<byte>, b: seq<byte>, c: seq<byte>)
    requires Occurs(a, b) && Occurs(b, c)
    ensures Occurs(a, c)
  {
    var i: nat :| OccursAt(a, b, i);
    var j: nat :| OccursAt(b, c, j);
    assert b == c[j..j + |b|];
    forall k | 0 <= k < |a| ensures c[j + i + k] == a[k] {
      assert a[k] == b[i..i + |a|][k] == b[i + k] == c[j..j + |b|][i + k];
    }
    assert c[j + i..j + i + |a|] == a;
    assert OccursAt(a, c, j + i);
  }

  lemma {:induction false} OccursInAll(xs: seq<Item>, i: nat)
    requires i < |xs|
    ensures Occurs(Enc(xs[i]), EncAll(xs))
  {
    hide Enc, Occurs;
    if i == 0 {
      OccursBetween([], Enc(xs[0]), EncAll(xs[1..]));
      assert [] + Enc(xs[0]) + EncAll(xs[1..]) == EncAll(xs);
    } else {
      OccursInAll(xs[1..], i - 1);
      OccursBetween(Enc(xs[0]), EncAll(xs[1..]), []);
      assert Enc(xs[0]) + EncAll(xs[1..]) + [] == EncAll(xs);
      OccursTrans(Enc(xs[i]), EncAll(xs[1..]), EncAll(xs));
    }
  }

  lemma ItemInList(xs: seq<Item>, i: nat)
    requires i < |xs|
    ensures Occurs(Enc(xs[i]), Enc(List(xs)))
  {
    hide EncAll, Occurs, Header;
    OccursInAll(xs, i);
    var h, p := Header(|EncAll(xs)|, LIST_START), EncAll(xs);
    OccursBetween(h, p, []);
    assert h + p + [] == Enc(List(xs));
    OccursTrans(Enc(xs[i]), p, Enc(List(xs)));
  }

  /** In the encoding of a node each child stands byte for byte if it is shorter than 32 bytes, and its hash otherwise. */
  lemma ChildInParent(n: Node, c: Node, sha: Hash)
    requires Child(n, c) && Hashes32(sha)
    ensures Occurs(if |NodeBytes(c, sha)| < 32 then NodeBytes(c, sha) else [0xa0] + sha(NodeBytes(c, sha)), NodeBytes(n, sha))
  {
    hide Enc, Occurs, HexEncode;
    ChildBytes(c, sha);
    if n.Ext? {
      ItemInList([Str(HexEncode(n.path, false)), Ref(c, sha)], 1);
    } else {
      var i :| 0 <= i < |n.children| && n.children[i] == c;
      var xs := Refs(n.children, sha) + [Str(n.value)];
      assert xs[i] == Ref(c, sha);
      ItemInList(xs, i);
    }
  }

  /** A way down the trie along which every node is shorter than 32 bytes. */
  ghost predicate ShortWay(ns: seq<Node>, sha: Hash) {
    && ns != []
    && forall i :: 0 < i < |ns| ==> Child(ns[i - 1], ns[i]) && |NodeBytes(ns[i], sha)| < 32
  }

  lemma {:induction false} ShortWayInRoot(ns: seq<Node>, sha: Hash)
    requires ShortWay(ns, sha) && Hashes32(sha)
    ensures Occurs(NodeBytes(ns[|ns| - 1], sha), NodeBytes(ns[0], sha))
  {
    hide NodeBytes, Occurs, Child;
    var n := |ns| - 1;
    if n == 0 {
      OccursBetween([], NodeBytes(ns[0], sha), []);
      assert [] + NodeBytes(ns[0], sha) + [] == NodeBytes(ns[0], sha);
    } else {
      assert ShortWay(ns[..n], sha);
      ShortWayInRoot(ns[..n], sha);
      ChildInParent(ns[n - 1], ns[n], sha);
      OccursTrans(NodeBytes(ns[n], sha), NodeBytes(ns[n - 1], sha), NodeBytes(ns[0], sha));
    }
  }

  /** On the bytes that `trieRLP256` returns: whatever hangs on the root by short nodes only stands in them byte for byte. */
  lemma ShortStandsInRoot(es: seq<Entry>, ns: seq<Node>, sha: Hash)
    requires Range(es, 0) && Hashes32(sha) && ShortWay(ns, sha) && ns[0] == Build(es, 0)
    ensures Occurs(NodeBytes(ns[|ns| - 1], sha), TrieRlp(es, sha))
  {
    hide Build, Range, ShortWay;
    ShortWayInRoot(ns, sha);
  }

  // ---------- The shape ----------

  /** All keys go on behind the prefix, with the same nibble. */
  ghost predicate SameNibble(es: seq<Entry>, pre: nat) {
    forall i :: 0 <= i < |es| ==> |es[i].key| > pre && |es[0].key| > pre && es[i].key[pre] == es[0].key[pre]
  }

  lemma CommonMoves(a: seq<byte>, b: seq<byte>, k: nat)
    requires k <= |a| && k <= |b|
    ensures Common(a, b, k) > k <==> k < |a| && k < |b| && a[k] == b[k]
    ensures Common(a, b, Common(a, b, k)) == Common(a, b, k)
  {
  }

  /** The shared prefix is that with some key. */
  lemma {:induction false} SharedBySome(es: seq<Entry>, pre: nat, n: nat) returns (i: nat)
    requires 2 <= n <= |es| && forall i :: 0 <= i < |es| ==> pre <= |es[i].key|
    ensures 0 < i < n && SharedPre(es, pre, n) == Common(es[0].key, es[i].key, pre)
  {
    hide Common;
    if n == 2 {
      i := 1;
    } else {
      i := SharedBySome(es, pre, n - 1);
      if Common(es[0].key, es[n - 1].key, pre) < SharedPre(es, pre, n - 1) {
        i := n - 1;
      }
    }
  }

  lemma {:induction false} SharedAtMost(es: seq<Entry>, pre: nat, n: nat, i: nat)
    requires 2 <= n <= |es| && 0 < i < n && forall i :: 0 <= i < |es| ==> pre <= |es[i].key|
    ensures SharedPre(es, pre, n) <= Common(es[0].key, es[i].key, pre)
  {
    hide Common;
    if n > 2 && i < n - 1 {
      SharedAtMost(es, pre, n - 1, i);
    }
  }

  /** A range splits if and only if its keys do not all go on with the same nibble. */
  lemma SplitsExact(es: seq<Entry>, pre: nat)
    requires Range(es, pre) && |es| >= 2
    ensures Splits(es, pre) <==> !SameNibble(es, pre)
  {
    RangeKeys(es, pre);
    hide SharedPre, Range, Common, IsNibbles;
    if SameNibble(es, pre) {
      var i := SharedBySome(es, pre, |es|);
      assert es[i].key[pre] == es[0].key[pre];
      CommonMoves(es[0].key, es[i].key, pre);
    } else {
      var i :| 0 <= i < |es| && !(|es[i].key| > pre && |es[0].key| > pre && es[i].key[pre] == es[0].key[pre]);
      var j := if i == 0 then 1 else i;
      SharedAtMost(es, pre, |es|, j);
      CommonMoves(es[0].key, es[j].key, pre);
    }
  }

  /**
   * The shape of a trie: a leaf for one entry; for more an extension exactly when all keys go
   * on with the same nibble, over a branch and as long as they can; and otherwise a branch.
   */
  lemma BuildShape(es: seq<Entry>, pre: nat)
    requires Range(es, pre)
    ensures Build(es, pre).Null? <==> es == []
    ensures Build(es, pre).Leaf? <==> |es| == 1
    ensures Build(es, pre).Ext? <==> |es| >= 2 && SameNibble(es, pre)
    ensures Build(es, pre).Branch? <==> |es| >= 2 && !SameNibble(es, pre)
    ensures Build(es, pre).Ext? ==> Build(es, pre).path != [] && Build(es, pre).child.Branch?
  {
    hide Range, SameNibble;
    if |es| <= 1 {
      BuildSmall(es, pre);
    } else {
      SplitsExact(es, pre);
      if Splits(es, pre) {
        hide Build;
        BuildBranch(es, pre);
      } else {
        ExtOverBranch(es, pre);
      }
    }
  }

  lemma ExtOverBranch(es: seq<Entry>, pre: nat)
    requires Range(es, pre) && |es| >= 2 && !Splits(es, pre)
    ensures Build(es, pre).Ext? && Build(es, pre).path != [] && Build(es, pre).child.Branch?
  {
    RangeKeys(es, pre);
    LongerRange(es, pre);
    var shared := SharedPre(es, pre, |es|);
    RangeKeys(es, shared);
    var i := SharedBySome(es, pre, |es|);
    CommonMoves(es[0].key, es[i].key, pre);
    SharedAtMost(es, shared, |es|, i);
    assert Splits(es, shared);
    BuildBranch(es, shared);
    hide SharedPre, Range, Common;
  }

  // ---------- Two small tries, byte by byte ----------

  function TwoChildren(a: byte, x: Node, b: byte, y: Node): (cs: seq<Node>)
    ensures |cs| == 16
  {
    seq(16, v => if v == a as int then x else if v == b as int then y else Null)
  }

  lemma SlotOfTwo(es: seq<Entry>, pre: nat, v: nat)
    requires Range(es, pre) && |es| == 2 && |es[0].key| > pre && |es[1].key| > pre && es[0].key[pre] != es[1].key[pre]
    ensures Slot(es, pre, v) == if es[0].key[pre] as nat == v then [es[0]] else if es[1].key[pre] as nat == v then [es[1]] else []
  {
    SlotsTile(es, pre, v);
    SlotExact(es, pre, v, 0);
    SlotExact(es, pre, v, 1);
    hide Range, Lo;
    var lo, hi := Lo(es, pre, v), Lo(es, pre, v + 1);
    assert es[0..1] == [es[0]] && es[1..2] == [es[1]];
  }

  /** Two entries that part at `pre` make a branch with two leaves. */
  lemma TwoLeaves(es: seq<Entry>, pre: nat)
    requires Range(es, pre) && |es| == 2 && |es[0].key| > pre && |es[1].key| > pre && es[0].key[pre] != es[1].key[pre]
    ensures Build(es, pre) == Branch(TwoChildren(es[0].key[pre], Leaf(es[0].key[pre + 1..], es[0].value), es[1].key[pre], Leaf(es[1].key[pre + 1..], es[1].value)), [])
  {
    SplitsExact(es, pre);
    assert Splits(es, pre) by { assert es[1].key[pre] != es[0].key[pre]; }
    BuildBranch(es, pre);
    hide Range, Slot;
    var n := Build(es, pre);
    var cs := TwoChildren(es[0].key[pre], Leaf(es[0].key[pre + 1..], es[0].value), es[1].key[pre], Leaf(es[1].key[pre + 1..], es[1].value));
    forall v | 0 <= v < 16 ensures n.children[v] == cs[v] {
      SlotOfTwo(es, pre, v);
      BuildSmall(Slot(es, pre, v), pre + 1);
    }
    assert n.children == cs;
  }

  lemma {:induction false} EmptyItems(k: nat)
    ensures EncAll(seq(k, _ => Str([]))) == seq(k, _ => 0x80 as byte)
  {
    if k > 0 {
      var xs := seq(k, _ => Str([]));
      assert xs[1..] == seq(k - 1, _ => Str([]));
      EmptyItems(k - 1);
      assert Enc(Str([])) == [0x80];
    }
  }

  /** The item of a branch with two children at slots 0 and 1 and no value. */
  lemma BranchPayload(x: Node, y: Node, sha: Hash)
    ensures EncAll(Refs(TwoChildren(0, x, 1, y), sha) + [Str([])]) == Enc(Ref(x, sha)) + Enc(Ref(y, sha)) + seq(15, _ => 0x80 as byte)
  {
    hide Enc, Ref;
    var cs := TwoChildren(0, x, 1, y);
    var empties := seq(15, _ => Str([]));
    assert forall v :: 2 <= v < 16 ==> cs[v] == Null;
    NullRef(sha);
    assert Refs(cs, sha) + [Str([])] == [Ref(x, sha), Ref(y, sha)] + empties;
    EncAllAppend([Ref(x, sha), Ref(y, sha)], empties);
    TwoItems(Ref(x, sha), Ref(y, sha));
    EmptyItems(15);
  }

  lemma NullRef(sha: Hash)
    ensures Ref(Null, sha) == Str([])
  {
    assert Enc(Str([])) == [0x80];
  }

  lemma LeafBytes(path: seq<byte>, first: byte, v: seq<byte>, sha: Hash)
    requires HexEncode(path, true) == [first] && first < 0x80 && |v| == 20
    ensures NodeBytes(Leaf(path, v), sha) == [0xd6, first, 0x94] + v
  {
    hide HexEncode, BigEndian;
    TwoItems(Str([first]), Str(v));
    assert Enc(Str([first])) == [first];
    assert Enc(Str(v)) == [0x94] + v;
    assert [0xd6] + ([first] + ([0x94] + v)) == [0xd6, first, 0x94] + v;
  }

  lemma SmallLeafBytes(v: byte, sha: Hash)
    requires v < 0x80
    ensures NodeBytes(Leaf([], [v]), sha) == [0xc2, 0x20, v]
  {
    EmptyPath();
    hide HexEncode, BigEndian;
    TwoItems(Str([0x20]), Str([v]));
    assert Enc(Str([0x20])) == [0x20] && Enc(Str([v])) == [v];
  }

  lemma EmptyPath()
    ensures HexEncode([], true) == [0x20]
  {
    assert Flags(false, true) + [] == [2, 0];
    PackTwo(2, 0);
  }

  lemma PackTwo(a: byte, b: byte)
    requires a < 16 && b < 16
    ensures Pack([a, b]) == [Join(a, b)]
  {
    assert [a, b][..0] == [];
  }

  lemma OneNibble(n: byte, leaf: bool)
    requires n < 16
    ensures HexEncode([n], leaf) == [Join(if leaf then 3 else 1, n)]
  {
    assert Flags(true, leaf) + [n] == [if leaf then 3 else 1, n];
    PackTwo(if leaf then 3 else 1, n);
  }

  lemma TwoKeys(a: seq<byte>, v: seq<byte>, b: seq<byte>, w: seq<byte>)
    requires Less(a, b) && IsNibbles(a) && IsNibbles(b)
    ensures Range([Entry(a, v), Entry(b, w)], 0)
  {
    assert a[..0] == [] && b[..0] == [];
  }

  /** Two keys that part at once, with values of 20 bytes: both leaves of 23 bytes stand in the root. */
  lemma BranchExample(v: seq<byte>, w: seq<byte>, sha: Hash)
    requires |v| == |w| == 20
    ensures Range([Entry([0, 0], v), Entry([1, 0], w)], 0)
    ensures TrieRlp([Entry([0, 0], v), Entry([1, 0], w)], sha) ==
            [0xf8, 0x3d] + ([0xd6, 0x30, 0x94] + v) + ([0xd6, 0x30, 0x94] + w) + seq(15, _ => 0x80 as byte)
  {
    var es := [Entry([0, 0], v), Entry([1, 0], w)];
    TwoKeys([0, 0], v, [1, 0], w);
    TwoLeaves(es, 0);
    assert es[0].key[1..] == [0] && es[1].key[1..] == [0];
    OneNibble(0, true);
    LeafBytes([0], 0x30, v, sha);
    LeafBytes([0], 0x30, w, sha);
    var x, y := Leaf([0], v), Leaf([0], w);
    assert Enc(Ref(x, sha)) == NodeBytes(x, sha) && Enc(Ref(y, sha)) == NodeBytes(y, sha);
    BranchPayload(x, y, sha);
    hide Range, Build, HexEncode, NodeBytes, EncAll, Enc, Ref;
    BranchBytes(x, y, sha, NodeBytes(x, sha), NodeBytes(y, sha));
    LongHeader();
  }

  lemma BranchBytes(x: Node, y: Node, sha: Hash, a: seq<byte>, b: seq<byte>)
    requires Enc(Ref(x, sha)) == a && Enc(Ref(y, sha)) == b
    ensures NodeBytes(Branch(TwoChildren(0, x, 1, y), []), sha) ==
            Header(|a| + |b| + 15, LIST_START) + a + b + seq(15, _ => 0x80 as byte)
  {
    BranchPayload(x, y, sha);
    hide Ref, Header, EncAll, Refs;
    var n := Branch(TwoChildren(0, x, 1, y), []);
    var p := a + b + seq(15, _ => 0x80 as byte);
    assert ItemOf(n, sha) == List(Refs(n.children, sha) + [Str([])]);
    assert Header(|p|, LIST_START) + p == Header(|p|, LIST_START) + a + b + seq(15, _ => 0x80 as byte);
  }

  lemma LongHeader()
    ensures Header(61, LIST_START) == [0xf8, 0x3d]
  {
    assert BigEndian(61) == [] + [0x3d];
  }

  /** Two keys that part at their second nibble, with values of one byte: an extension, a branch and two leaves, all in the root. */
  lemma ExtensionExample(sha: Hash)
    ensures Range([Entry([1, 0], [5]), Entry([1, 1], [7])], 0)
    ensures TrieRlp([Entry([1, 0], [5]), Entry([1, 1], [7])], sha) ==
            [0xd7, 0x11] + ([0xd5] + [0xc2, 0x20, 0x05] + [0xc2, 0x20, 0x07] + seq(15, _ => 0x80 as byte))
  {
    var es := [Entry([1, 0], [5]), Entry([1, 1], [7])];
    ExtensionTree(es);
    var x, y := Leaf([], [5]), Leaf([], [7]);
    var c := Branch(TwoChildren(0, x, 1, y), []);
    SmallLeafBytes(5, sha);
    SmallLeafBytes(7, sha);
    assert Enc(Ref(x, sha)) == NodeBytes(x, sha) && Enc(Ref(y, sha)) == NodeBytes(y, sha);
    BranchBytes(x, y, sha, [0xc2, 0x20, 0x05], [0xc2, 0x20, 0x07]);
    ExtBytes(1, 0x11, c, sha, [0xd5] + [0xc2, 0x20, 0x05] + [0xc2, 0x20, 0x07] + seq(15, _ => 0x80 as byte));
    hide Range, Build;
  }

  lemma ExtensionTree(es: seq<Entry>)
    requires es == [Entry([1, 0], [5]), Entry([1, 1], [7])]
    ensures Range(es, 0) && Build(es, 0) == Ext([1], Branch(TwoChildren(0, Leaf([], [5]), 1, Leaf([], [7])), []))
  {
    TwoKeys([1, 0], [5], [1, 1], [7]);
    SplitsExact(es, 0);
    assert SameNibble(es, 0);
    var shared := BuildExt(es, 0);
    assert Below(es[1], shared, es[0].key[..shared]);
    assert es[0].key[..2] != es[1].key[..2] by { assert es[0].key[..2][1] == 0 && es[1].key[..2][1] == 1; }
    assert shared == 1;
    TwoLeaves(es, 1);
    assert es[0].key[0..1] == [1] && es[0].key[2..] == [] && es[1].key[2..] == [];
  }

  lemma ExtBytes(n: byte, first: byte, c: Node, sha: Hash, bytes: seq<byte>)
    requires n < 16 && first == Join(1, n) && first < 0x80 && bytes == NodeBytes(c, sha) && |bytes| == 22
    ensures NodeBytes(Ext([n], c), sha) == [0xd7, first] + bytes
  {
    OneNibble(n, false);
    hide HexEncode, Ref, NodeBytes;
    assert Ref(c, sha) == ItemOf(c, sha) by { RefOfShort(c, sha); }
    TwoItems(Str([first]), ItemOf(c, sha));
    ShortList([Str([first]), ItemOf(c, sha)], first, bytes);
    ExtItem(n, first, c, sha);
  }

  lemma RefOfShort(c: Node, sha: Hash)
    requires |NodeBytes(c, sha)| < 32
    ensures Ref(c, sha) == ItemOf(c, sha)
  {
  }

  lemma ExtItem(n: byte, first: byte, c: Node, sha: Hash)
    requires HexEncode([n], false) == [first] && Ref(c, sha) == ItemOf(c, sha)
    ensures NodeBytes(Ext([n], c), sha) == Enc(List([Str([first]), ItemOf(c, sha)]))
  {
    hide HexEncode, Ref, Enc;
  }

  lemma ShortList(xs: seq<Item>, first: byte, bytes: seq<byte>)
    requires EncAll(xs) == Enc(Str([first])) + bytes && first < 0x80 && |bytes| == 22
    ensures Enc(List(xs)) == [0xd7, first] + bytes
  {
    assert Enc(Str([first])) == [first];
    hide EncAll;
    assert [0xd7] + ([first] + bytes) == [0xd7, first] + bytes;
  }
}
