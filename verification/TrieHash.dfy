/** The bytes of a trie (trie/Trie.cpp): nodes as RLP items, subtrees of 32 bytes or more replaced by
    their hash, and the recursion that streams them. The hash is a parameter: any function to 32-byte
    strings. */
module TrieHash {
  import opened Bytes
  import opened Lex
  import opened Rlp
  import opened HexPrefix
  import opened Trie
  import opened TrieAnswers
  import opened TrieEntries

  type Hash = seq<byte> -> seq<byte>

  // ---------- Nodes as items ----------

  /** `hash256rlp`: the item of a node. */
  function ItemOf(n: Node, sha: Hash): Item
    decreases n, 0
  {
    match n
    case Null => Str([])
    case Leaf(p, v) => List([Str(HexEncode(p, true)), Str(v)])
    case Ext(p, c) => List([Str(HexEncode(p, false)), Ref(c, sha)])
    case Branch(cs, v) => List(Refs(cs, sha) + [Str(v)])
  }

  /** `hash256aux`: a subtree stands for itself when its encoding is short, else for its hash. */
  function Ref(n: Node, sha: Hash): Item
    decreases n, 1
  {
    var x := ItemOf(n, sha);
    if |Enc(x)| < 32 then x else Str(sha(Enc(x)))
  }

  function Refs(cs: seq<Node>, sha: Hash): (rs: seq<Item>)
    ensures |rs| == |cs|
    ensures forall i :: 0 <= i < |cs| ==> rs[i] == Ref(cs[i], sha)
    decreases cs, 0
  {
    if cs == [] then [] else Refs(cs[..|cs| - 1], sha) + [Ref(cs[|cs| - 1], sha)]
  }

  /** What every built tree satisfies, with keys and values of a size that memory can hold. */
  ghost predicate WellFormed(n: Node) {
    match n
    case Null => true
    case Leaf(p, v) => IsNibbles(p) && |p| < SIZE_LIMIT && |v| < SIZE_LIMIT
    case Ext(p, c) => IsNibbles(p) && |p| < SIZE_LIMIT && WellFormed(c)
    case Branch(cs, v) => |cs| == 16 && |v| < SIZE_LIMIT && forall i :: 0 <= i < |cs| ==> WellFormed(cs[i])
  }

  const SIZE_LIMIT: nat := 0x1_0000_0000_0000

  // ---------- Sizes ----------

  ghost predicate Hashes32(sha: Hash) { forall d :: |sha(d)| == 32 }

  lemma RefSize(n: Node, sha: Hash)
    requires Hashes32(sha)
    ensures |Enc(Ref(n, sha))| <= 33
    ensures |Enc(ItemOf(n, sha))| >= 32 ==> |PayloadOf(Ref(n, sha))| == 32
  {
    hide ItemOf;
    var x := ItemOf(n, sha);
    if |Enc(x)| >= 32 { StrSize(sha(Enc(x))); }
  }

  lemma StrSize(s: seq<byte>)
    requires |s| < TWO_64
    ensures |s| <= |Enc(Str(s))| <= |s| + 9
    ensures |s| == 32 ==> |Enc(Str(s))| == 33
  {
    BigEndianSize64(|s|);
    hide BigEndian;
  }

  lemma {:induction false} EncAllSize(xs: seq<Item>, bound: nat)
    requires forall i :: 0 <= i < |xs| ==> |Enc(xs[i])| <= bound
    ensures |EncAll(xs)| <= |xs| * bound
  {
    hide Enc;
    if xs != [] {
      EncAllSize(xs[1..], bound);
      assert |xs| * bound == bound + (|xs| - 1) * bound;
    }
  }

  lemma TwoItems(x: Item, y: Item)
    ensures EncAll([x, y]) == Enc(x) + Enc(y)
  {
    hide Enc;
    assert [x, y][1..] == [y] && [y][1..] == [];
    assert EncAll([x, y]) == Enc(x) + EncAll([y]);
    assert EncAll([y]) == Enc(y) + EncAll([]);
  }

  /** Every node of a built tree encodes far below the reader's limit. */
  lemma ItemSize(n: Node, sha: Hash)
    requires WellFormed(n) && Hashes32(sha)
    ensures |PayloadOf(ItemOf(n, sha))| < LENGTH_LIMIT
  {
    hide EncAll, Enc, HexEncode, Ref;
    match n
    case Null =>
    case Leaf(p, v) =>
      StrSize(HexEncode(p, true));
      StrSize(v);
      TwoItems(Str(HexEncode(p, true)), Str(v));
    case Ext(p, c) =>
      StrSize(HexEncode(p, false));
      RefSize(c, sha);
      TwoItems(Str(HexEncode(p, false)), Ref(c, sha));
    case Branch(cs, v) =>
      forall i | 0 <= i < |cs| ensures |Enc(Refs(cs, sha)[i])| <= 33 { RefSize(cs[i], sha); }
      EncAllSize(Refs(cs, sha), 33);
      StrSize(v);
      EncAllSnoc(Refs(cs, sha), Str(v));
  }

  // ---------- Equal bytes, equal trees ----------

  ghost function Subtrees(n: Node): set<Node> {
    match n
    case Null => {n}
    case Leaf(_, _) => {n}
    case Ext(_, c) => {n} + Subtrees(c)
    case Branch(cs, _) => {n} + set i, m | 0 <= i < |cs| && m in Subtrees(cs[i]) :: m
  }

  ghost predicate NoClash(m: Node, n: Node, sha: Hash) {
    var x, y := Enc(ItemOf(m, sha)), Enc(ItemOf(n, sha));
    sha(x) == sha(y) ==> x == y
  }

  /** No two different node encodings of these two trees have the same hash. */
  ghost predicate NoCollision(a: Node, b: Node, sha: Hash) {
    forall m, n :: m in Subtrees(a) && n in Subtrees(b) ==> NoClash(m, n, sha)
  }

  lemma SubtreesSelf(n: Node)
    ensures n in Subtrees(n)
    ensures n.Ext? ==> Subtrees(n.child) <= Subtrees(n)
    ensures n.Branch? ==> forall i :: 0 <= i < |n.children| ==> Subtrees(n.children[i]) <= Subtrees(n)
  {}

  lemma NoCollisionBelow(a: Node, b: Node, c: Node, d: Node, sha: Hash)
    requires NoCollision(a, b, sha) && Subtrees(c) <= Subtrees(a) && Subtrees(d) <= Subtrees(b)
    ensures NoCollision(c, d, sha)
  {
    hide Subtrees, NoClash;
  }

  /** References are equal only when the items they stand for are. */
  lemma RefInjective(a: Node, b: Node, sha: Hash)
    requires WellFormed(a) && WellFormed(b) && Hashes32(sha) && NoCollision(a, b, sha)
    requires Ref(a, sha) == Ref(b, sha)
    ensures ItemOf(a, sha) == ItemOf(b, sha)
  {
    ItemSize(a, sha);
    ItemSize(b, sha);
    SubtreesSelf(a);
    SubtreesSelf(b);
    hide ItemOf, Enc, Subtrees, WellFormed;
    var x, y := ItemOf(a, sha), ItemOf(b, sha);
    assert NoClash(a, b, sha);
    if |Enc(x)| >= 32 { StrSize(sha(Enc(x))); }
    if |Enc(y)| >= 32 { StrSize(sha(Enc(y))); }
    if |Enc(x)| >= 32 && |Enc(y)| >= 32 {
      assert Enc(x) == Enc(y);
      DecodeEnc(x);
      DecodeEnc(y);
    }
  }

  /** Without a hash collision, the bytes of a tree determine it. */
  lemma {:induction false} ItemInjective(a: Node, b: Node, sha: Hash)
    requires WellFormed(a) && WellFormed(b) && Hashes32(sha) && NoCollision(a, b, sha)
    requires ItemOf(a, sha) == ItemOf(b, sha)
    ensures a == b
    decreases a
  {
    SubtreesSelf(a);
    SubtreesSelf(b);
    hide Subtrees, Ref, Enc, NoCollision, HexEncode, IsNibbles;
    if a.Leaf? || a.Ext? {
      assert b.Leaf? || b.Ext?;
      var p, q := ItemOf(a, sha).items, ItemOf(b, sha).items;
      assert p[0] == q[0] && p[1] == q[1];
      HexPrefixInjective(a.path, a.Leaf?, b.path, b.Leaf?);
      if a.Ext? {
        NoCollisionBelow(a, b, a.child, b.child, sha);
        RefInjective(a.child, b.child, sha);
        ItemInjective(a.child, b.child, sha);
      }
    } else if a.Branch? {
      BranchInjective(a, b, sha);
    }
  }

  lemma {:induction false} BranchInjective(a: Node, b: Node, sha: Hash)
    requires a.Branch? && WellFormed(a) && WellFormed(b) && Hashes32(sha) && NoCollision(a, b, sha)
    requires ItemOf(a, sha) == ItemOf(b, sha)
    ensures a == b
    decreases a, 0
  {
    var xs, ys := ItemOf(a, sha).items, ItemOf(b, sha).items;
    assert |xs| == 17;
    assert b.Branch?;
    SubtreesSelf(a);
    SubtreesSelf(b);
    hide Subtrees, Ref, Enc, NoCollision, HexEncode, IsNibbles;
    assert xs[16] == Str(a.value) && ys[16] == Str(b.value);
    forall i | 0 <= i < 16 ensures a.children[i] == b.children[i] {
      assert xs[i] == Ref(a.children[i], sha) && ys[i] == Ref(b.children[i], sha);
      NoCollisionBelow(a, b, a.children[i], b.children[i], sha);
      RefInjective(a.children[i], b.children[i], sha);
      ItemInjective(a.children[i], b.children[i], sha);
    }
  }

  // ---------- Built trees are well formed ----------

  ghost predicate Sized(es: seq<Entry>) {
    forall i :: 0 <= i < |es| ==> |es[i].key| < SIZE_LIMIT && |es[i].value| < SIZE_LIMIT
  }

  lemma {:induction false} BuildWellFormed(es: seq<Entry>, pre: nat)
    requires Range(es, pre) && Sized(es)
    ensures WellFormed(Build(es, pre))
    decreases |es|, if es == [] then 0 else |es[0].key| - pre
  {
    hide Build, Range;
    RangeKeys(es, pre);
    if |es| <= 1 {
      BuildSmall(es, pre);
    } else if Splits(es, pre) {
      BuildBranch(es, pre);
      forall v | 0 <= v < 16 ensures WellFormed(Build(es, pre).children[v]) {
        BuildWellFormed(Slot(es, pre, v), pre + 1);
      }
    } else {
      var m := BuildExt(es, pre);
      BuildWellFormed(es, m);
    }
  }

  /** `trieRLP256` as a function of the sorted entries. */
  ghost function TrieRlp(es: seq<Entry>, sha: Hash): seq<byte>
    requires Range(es, 0)
  {
    Enc(ItemOf(Build(es, 0), sha))
  }

  /** The main result: without a hash collision among their nodes, two maps have the same trie bytes
      exactly when they differ at most in hidden entries. */
  lemma TrieRlpExact(a: seq<Entry>, b: seq<Entry>, sha: Hash)
    requires Range(a, 0) && Range(b, 0) && Sized(a) && Sized(b) && Hashes32(sha)
    requires NoCollision(Build(a, 0), Build(b, 0), sha)
    ensures TrieRlp(a, sha) == TrieRlp(b, sha) <==> Keep(a, a) == Keep(b, b)
  {
    var m, n := Build(a, 0), Build(b, 0);
    BuildWellFormed(a, 0);
    BuildWellFormed(b, 0);
    SameTree(a, b);
    ItemSize(m, sha);
    ItemSize(n, sha);
    hide Build, Keep, Range, Sized, WellFormed, Enc, ItemOf, NoCollision;
    if TrieRlp(a, sha) == TrieRlp(b, sha) {
      DecodeEnc(ItemOf(m, sha));
      DecodeEnc(ItemOf(n, sha));
      ItemInjective(m, n, sha);
    }
  }

  // ---------- When nothing is hidden ----------

  lemma {:induction false} NothingHidden(es: seq<Entry>, all: seq<Entry>)
    requires forall i :: 0 <= i < |es| ==> es[i].value != [] || forall j :: 0 <= j < |all| ==> !(es[i].key < all[j].key)
    ensures Keep(es, all) == es
  {
    if es != [] {
      assert !Hidden(all, es[0]);
      NothingHidden(es[1..], all);
    }
  }

  lemma RootRange(es: seq<Entry>)
    requires Sorted(es) && forall i :: 0 <= i < |es| ==> IsNibbles(es[i].key)
    ensures Range(es, 0)
  {
    hide IsNibbles, Sorted;
    if es != [] { assert es[0].key[..0] == []; }
    forall i | 0 <= i < |es| ensures Below(es[i], 0, []) { assert es[i].key[..0] == []; }
  }

  /** Hidden entries are real: adding an empty value at the empty key to a map whose keys start with
      different nibbles does not change the trie bytes, whatever the hash. */
  lemma HiddenEntryExample(b: seq<Entry>, sha: Hash)
    requires Range(b, 0) && (forall i :: 0 <= i < |b| ==> b[i].key != [] && b[i].value != [])
    requires exists i, j :: 0 <= i < j < |b| && b[i].key[0] != b[j].key[0]
    ensures var a := [Entry([], [])] + b; Range(a, 0) && a != b && TrieRlp(a, sha) == TrieRlp(b, sha)
  {
    hide Build, Keep, Enc, ItemOf, Hidden, Range;
    var a := [Entry([], [])] + b;
    EmptyKeyFirst(a, b);
    EmptyKeyHidden(a, b);
    SameTree(a, b);
  }

  lemma EmptyKeyFirst(a: seq<Entry>, b: seq<Entry>)
    requires Range(b, 0) && (forall i :: 0 <= i < |b| ==> b[i].key != []) && a == [Entry([], [])] + b
    ensures Range(a, 0)
  {
    RangeKeys(b, 0);
    forall i, j | 0 <= i < j < |a| ensures Less(a[i].key, a[j].key) {
      assert a[j] == b[j - 1];
    }
    RootRange(a);
  }

  lemma EmptyKeyHidden(a: seq<Entry>, b: seq<Entry>)
    requires a == [Entry([], [])] + b && (forall i :: 0 <= i < |b| ==> b[i].key != [] && b[i].value != [])
    requires exists i, j :: 0 <= i < j < |b| && b[i].key[0] != b[j].key[0]
    ensures Keep(a, a) == Keep(b, b)
  {
    var i, j :| 0 <= i < j < |b| && b[i].key[0] != b[j].key[0];
    assert a[i + 1] == b[i] && a[j + 1] == b[j];
    DivergesAmong(a, i + 1, j + 1, []);
    assert a[1..] == b;
    NothingHidden(b, a);
    NothingHidden(b, b);
    KeepHead(a);
  }

  // ---------- trieRoot ----------

  function AsNibbles(d: seq<byte>): seq<byte> { Slice(d, 0) }

  /** The key of item `i`: the RLP of the number. */
  function RootKey(i: nat): seq<byte> { AsNibbles(Enc(Str(BigEndian(i)))) }

  lemma {:induction false} NibblePrefix(a: seq<byte>, b: seq<byte>)
    requires AsNibbles(a) <= AsNibbles(b)
    ensures a <= b
  {
    forall i | 0 <= i < |a| ensures a[i] == b[i] {
      assert AsNibbles(a)[2 * i] == AsNibbles(b)[2 * i] && AsNibbles(a)[2 * i + 1] == AsNibbles(b)[2 * i + 1];
      assert a[i] == Nibble(a, 2 * i) * 16 + Nibble(a, 2 * i + 1);
      assert b[i] == Nibble(b, 2 * i) * 16 + Nibble(b, 2 * i + 1);
    }
  }

  /** RLP being prefix-free, no item key continues another, and item keys are all different. */
  lemma RootKeysPrefixFree(i: nat, j: nat)
    requires i < TWO_64 && j < TWO_64 && RootKey(i) <= RootKey(j)
    ensures i == j
  {
    var x, y := Str(BigEndian(i)), Str(BigEndian(j));
    NibblePrefix(Enc(x), Enc(y));
    BigEndianSize64(i);
    BigEndianSize64(j);
    hide Enc;
    var rest := Enc(y)[|Enc(x)|..];
    assert Enc(x) + rest == Enc(y) + [];
    PrefixFree(x, rest, y, []);
    FromBigEndianInverts(i);
    FromBigEndianInverts(j);
  }

  /** `es` is the sorted map that `trieRoot` builds from `data`. */
  ghost predicate IsRootMap(es: seq<Entry>, data: seq<seq<byte>>) {
    && Range(es, 0) && Sized(es) && |data| < TWO_64
    && (forall i :: 0 <= i < |data| ==> Find(es, RootKey(i)) == Some(data[i]))
    && (forall j :: 0 <= j < |es| ==> exists i :: 0 <= i < |data| && es[j].key == RootKey(i))
  }

  lemma RootMapKeepsAll(es: seq<Entry>, data: seq<seq<byte>>)
    requires IsRootMap(es, data)
    ensures Keep(es, es) == es
  {
    hide Keep, RootKey, Find, Range;
    forall i, j | 0 <= i < |es| && 0 <= j < |es| ensures !(es[i].key < es[j].key) {
      var m :| 0 <= m < |data| && es[i].key == RootKey(m);
      var n :| 0 <= n < |data| && es[j].key == RootKey(n);
      if RootKey(m) <= RootKey(n) { RootKeysPrefixFree(m, n); }
    }
    NothingHidden(es, es);
  }

  lemma RootMapCovers(es: seq<Entry>, a: seq<seq<byte>>, b: seq<seq<byte>>, i: nat)
    requires IsRootMap(es, a) && IsRootMap(es, b) && i < |a|
    ensures i < |b| && a[i] == b[i]
  {
    hide RootKey, Range;
    var j := FindSome(es, RootKey(i));
    var n :| 0 <= n < |b| && es[j].key == RootKey(n);
    RootKeysPrefixFree(i, n);
  }

  /** Two lists with the same trie root are the same list, empty items included, unless the hash
      collides on their nodes. */
  lemma TrieRootInjective(a: seq<seq<byte>>, b: seq<seq<byte>>, ea: seq<Entry>, eb: seq<Entry>, sha: Hash)
    requires IsRootMap(ea, a) && IsRootMap(eb, b) && Hashes32(sha)
    requires NoCollision(Build(ea, 0), Build(eb, 0), sha)
    requires sha(TrieRlp(ea, sha)) == sha(TrieRlp(eb, sha))
    ensures a == b
  {
    SubtreesSelf(Build(ea, 0));
    SubtreesSelf(Build(eb, 0));
    assert NoClash(Build(ea, 0), Build(eb, 0), sha);
    RootMapKeepsAll(ea, a);
    RootMapKeepsAll(eb, b);
    TrieRlpExact(ea, eb, sha);
    hide Build, Keep, IsRootMap, TrieRlp, Range, NoCollision;
    assert ea == eb;
    forall i | 0 <= i < |a| ensures i < |b| && a[i] == b[i] { RootMapCovers(ea, a, b, i); }
    forall i | 0 <= i < |b| ensures i < |a| && b[i] == a[i] { RootMapCovers(ea, b, a, i); }
    if |a| < |b| { RootMapCovers(ea, b, a, |a|); }
    if |b| < |a| { RootMapCovers(ea, a, b, |b|); }
  }
}
