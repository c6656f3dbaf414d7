/** `trieRoot` (trie/Trie.cpp): the map from item numbers to items that it builds, and the root of a list. */
module TrieRoot {
  import opened Bytes
  import opened Lex
  import opened Rlp
  import opened HexPrefix
  import opened Trie
  import opened TrieAnswers
  import opened TrieHash
  import opened TrieStream

  const TWO_32: nat := 0x1_0000_0000

  /** Assignment to a key of an ordered map. */
  function Placed(m: seq<Entry>, k: seq<byte>, v: seq<byte>): seq<Entry> {
    if m == [] then [Entry(k, v)]
    else if m[0].key == k then [Entry(k, v)] + m[1..]
    else if Less(k, m[0].key) then [Entry(k, v)] + m
    else [m[0]] + Placed(m[1..], k, v)
  }

  /** The assigned key now has the value, every other key what it had. */
  lemma {:induction false} PlacedFind(m: seq<Entry>, k: seq<byte>, v: seq<byte>, q: seq<byte>)
    ensures Find(Placed(m, k, v), q) == if q == k then Some(v) else Find(m, q)
  {
    if m != [] && m[0].key != k && !Less(k, m[0].key) {
      PlacedFind(m[1..], k, v, q);
    }
  }

  lemma {:induction false} PlacedMember(m: seq<Entry>, k: seq<byte>, v: seq<byte>, i: nat)
    requires i < |Placed(m, k, v)|
    ensures Placed(m, k, v)[i] == Entry(k, v) || Placed(m, k, v)[i] in m
  {
    if m != [] && m[0].key != k && !Less(k, m[0].key) && i > 0 {
      PlacedMember(m[1..], k, v, i - 1);
    }
  }

  lemma {:induction false} PlacedSorted(m: seq<Entry>, k: seq<byte>, v: seq<byte>)
    requires Sorted(m)
    ensures Sorted(Placed(m, k, v))
  {
    hide Less;
    if m != [] {
      if m[0].key == k {
      } else if Less(k, m[0].key) {
        PlacedInFront(m, Entry(k, v));
      } else {
        LessTotal(k, m[0].key);
        PlacedSorted(m[1..], k, v);
        var rest := Placed(m[1..], k, v);
        forall i | 0 <= i < |rest| ensures Less(m[0].key, rest[i].key) {
          PlacedMember(m[1..], k, v, i);
        }
        AllAbove(m[0], rest);
      }
    }
  }

  lemma PlacedInFront(m: seq<Entry>, e: Entry)
    requires Sorted(m) && m != [] && Less(e.key, m[0].key)
    ensures Sorted([e] + m)
  {
    hide Less;
    forall i | 0 <= i < |m| ensures Less(e.key, m[i].key) {
      if i > 0 {
        LessTransitive(e.key, m[0].key, m[i].key);
      }
    }
    AllAbove(e, m);
  }

  lemma AllAbove(e: Entry, m: seq<Entry>)
    requires Sorted(m) && forall i :: 0 <= i < |m| ==> Less(e.key, m[i].key)
    ensures Sorted([e] + m)
  {
    hide Less;
  }

  // ---------- The map ----------

  /** The key of item `i`: the RLP of the number. */
  function Key(i: nat): seq<byte> { Enc(Str(BigEndian(i))) }

  /** The first keys: 0x80 for item 0, the number itself up to 127, and 0x81 and the number up to 255. */
  lemma KeysInNumbers(i: nat)
    requires i < 256
    ensures Key(i) == if i == 0 then [0x80] else if i < 128 then [i as byte] else [0x81, i as byte]
  {
    if i > 0 {
      assert BigEndian(i) == [] + [i as byte];
    }
  }

  /** The map after the first `n` items; the counter has 32 bits. */
  function ByteMap(data: seq<seq<byte>>, n: nat): seq<Entry>
    requires n <= |data|
  {
    if n == 0 then [] else Placed(ByteMap(data, n - 1), Key((n - 1) % TWO_32), data[n - 1])
  }

  /** What is left of the first `n` items once the counter has wrapped: under each number the last one that got it. */
  function Latest(data: seq<seq<byte>>, n: nat): (e: seq<seq<byte>>)
    requires n <= |data|
    ensures |e| == if n <= TWO_32 then n else TWO_32
  {
    if n == 0 then [] else
      var e, i := Latest(data, n - 1), (n - 1) % TWO_32;
      if i < |e| then e[i := data[n - 1]] else e + [data[n - 1]]
  }

  /** Up to 2^32 items nothing is lost. */
  lemma {:induction false} LatestIsAll(data: seq<seq<byte>>, n: nat)
    requires n <= |data| && n <= TWO_32
    ensures Latest(data, n) == data[..n]
  {
    if n > 0 {
      LatestIsAll(data, n - 1);
    }
  }

  lemma {:induction false} LatestMember(data: seq<seq<byte>>, n: nat, i: nat)
    requires n <= |data| && i < |Latest(data, n)|
    ensures Latest(data, n)[i] in data
  {
    if i < |Latest(data, n - 1)| {
      LatestMember(data, n - 1, i);
    }
  }

  ghost predicate Numbered(m: seq<Entry>, e: seq<seq<byte>>) {
    && Sorted(m)
    && (forall i :: 0 <= i < |e| ==> Find(m, Key(i)) == Some(e[i]))
    && (forall j :: 0 <= j < |m| ==> exists i :: 0 <= i < |e| && m[j] == Entry(Key(i), e[i]))
  }

  lemma KeysDiffer(i: nat, j: nat)
    requires i < TWO_64 && j < TWO_64 && Key(i) == Key(j)
    ensures i == j
  {
    hide Enc;
    RootKeysPrefixFree(i, j);
  }

  lemma EntryOf(m: seq<Entry>, e: seq<seq<byte>>, j: nat) returns (i: nat)
    requires Numbered(m, e) && |e| <= TWO_32 && j < |m|
    ensures i < |e| && m[j] == Entry(Key(i), e[i])
  {
    hide Key, Sorted, Find;
    i :| 0 <= i < |e| && m[j] == Entry(Key(i), e[i]);
  }

  /** One more item under number `k`, which is new or the next. */
  lemma NumberedStep(m: seq<Entry>, e: seq<seq<byte>>, k: nat, v: seq<byte>)
    requires Numbered(m, e) && k <= |e| <= TWO_32 && k < TWO_32
    ensures Numbered(Placed(m, Key(k), v), if k < |e| then e[k := v] else e + [v])
  {
    hide Enc, Key, Placed, Sorted, Find, Less;
    var p, d := Placed(m, Key(k), v), if k < |e| then e[k := v] else e + [v];
    PlacedSorted(m, Key(k), v);
    forall i | 0 <= i < |d| ensures Find(p, Key(i)) == Some(d[i]) {
      PlacedFind(m, Key(k), v, Key(i));
      if Key(i) == Key(k) {
        KeysDiffer(i, k);
      }
    }
    forall j | 0 <= j < |p| ensures exists i :: 0 <= i < |d| && p[j] == Entry(Key(i), d[i]) {
      PlacedEntry(m, e, k, v, d, j);
    }
  }

  lemma PlacedEntry(m: seq<Entry>, e: seq<seq<byte>>, k: nat, v: seq<byte>, d: seq<seq<byte>>, j: nat)
    requires Numbered(m, e) && k <= |e| <= TWO_32 && k < TWO_32 && d == (if k < |e| then e[k := v] else e + [v])
    requires j < |Placed(m, Key(k), v)|
    ensures exists i :: 0 <= i < |d| && Placed(m, Key(k), v)[j] == Entry(Key(i), d[i])
  {
    hide Enc, Key, Placed, Less;
    PlacedSorted(m, Key(k), v);
    PlacedMember(m, Key(k), v, j);
    var p := Placed(m, Key(k), v);
    FindAt(p, j);
    PlacedFind(m, Key(k), v, p[j].key);
    hide Sorted, Find;
    if p[j].key == Key(k) {
      assert p[j] == Entry(Key(k), d[k]);
    } else {
      var l :| 0 <= l < |m| && m[l] == p[j];
      var i := EntryOf(m, e, l);
      assert i != k && d[i] == e[i];
    }
  }

  /** The map holds under each number the last item that got it. */
  lemma {:induction false} ByteMapNumbered(data: seq<seq<byte>>, n: nat)
    requires n <= |data|
    ensures Numbered(ByteMap(data, n), Latest(data, n))
  {
    hide Key, Placed, Numbered;
    if n == 0 {
      EmptyNumbered();
    } else {
      ByteMapNumbered(data, n - 1);
      NumberedStep(ByteMap(data, n - 1), Latest(data, n - 1), (n - 1) % TWO_32, data[n - 1]);
    }
  }

  lemma EmptyNumbered()
    ensures Numbered([], [])
  {
  }

  function RootMap(data: seq<seq<byte>>): seq<Entry> { HexMap(ByteMap(data, |data|)) }

  lemma SameNibbles(a: seq<byte>, b: seq<byte>)
    requires AsNibbles(a) == AsNibbles(b)
    ensures a == b
  {
    NibblePrefix(a, b);
    NibblePrefix(b, a);
  }

  lemma {:induction false} FindHex(m: seq<Entry>, k: seq<byte>)
    ensures Find(HexMap(m), AsNibbles(k)) == Find(m, k)
  {
    hide AsNibbles;
    if m != [] {
      FindHex(m[1..], k);
      if AsNibbles(m[0].key) == AsNibbles(k) {
        SameNibbles(m[0].key, k);
      }
    }
  }

  ghost predicate Stored(data: seq<seq<byte>>) {
    forall i :: 0 <= i < |data| ==> |data[i]| < SIZE_LIMIT
  }

  /** The items that the map of `data` holds. */
  function Held(data: seq<seq<byte>>): seq<seq<byte>> { Latest(data, |data|) }

  lemma HeldSized(data: seq<seq<byte>>, i: nat)
    requires Stored(data) && i < |Held(data)|
    ensures |Held(data)[i]| < SIZE_LIMIT
  {
    hide Latest;
    LatestMember(data, |data|, i);
  }

  lemma KeySize(i: nat)
    requires i < TWO_64
    ensures |Key(i)| <= 10
  {
    BigEndianSize64(i);
  }

  lemma NibbleCount(d: seq<byte>)
    ensures |AsNibbles(d)| == 2 * |d|
  {
  }

  lemma HexEntry(m: seq<Entry>, data: seq<seq<byte>>, j: nat)
    requires Stored(data) && Numbered(m, Held(data)) && j < |m|
    ensures |HexMap(m)[j].key| < SIZE_LIMIT && |HexMap(m)[j].value| < SIZE_LIMIT
    ensures exists i :: 0 <= i < |Held(data)| && HexMap(m)[j].key == RootKey(i)
  {
    hide Enc, AsNibbles, Key, Stored, Numbered, Latest;
    var i := EntryOf(m, Held(data), j);
    KeySize(i);
    NibbleCount(Key(i));
    KeyNibbles(i);
    HeldSized(data, i);
  }

  lemma KeyNibbles(i: nat)
    ensures AsNibbles(Key(i)) == RootKey(i)
  {
  }

  /** Every list has its map. */
  lemma RootMapIs(data: seq<seq<byte>>)
    requires Stored(data)
    ensures IsRootMap(RootMap(data), Held(data))
  {
    hide Enc, Find, Less, AsNibbles, Sorted, Key, RootKey, Range, Latest;
    var m := ByteMap(data, |data|);
    ByteMapNumbered(data, |data|);
    HexMapRange(m);
    var es := HexMap(m);
    forall i | 0 <= i < |Held(data)| ensures Find(es, RootKey(i)) == Some(Held(data)[i]) {
      FindHex(m, Key(i));
      KeyNibbles(i);
    }
    forall j | 0 <= j < |es|
      ensures |es[j].key| < SIZE_LIMIT && |es[j].value| < SIZE_LIMIT && exists i :: 0 <= i < |Held(data)| && es[j].key == RootKey(i)
    {
      HexEntry(m, data, j);
    }
  }

  // ---------- The root ----------

  /** The trie of a list. */
  ghost function TrieOf(data: seq<seq<byte>>): Node
    requires Stored(data)
  {
    RootMapIs(data);
    Build(RootMap(data), 0)
  }

  ghost function RootOf(data: seq<seq<byte>>, sha: Hash): seq<byte>
    requires Stored(data)
  {
    RootMapIs(data);
    sha(TrieRlp(RootMap(data), sha))
  }

  /** The loop over the items, and the hash of the encoding of the map. */
  method ComputeTrieRoot(data: seq<seq<byte>>, sha: Hash) returns (root: seq<byte>)
    requires Stored(data) && Hashes32(sha)
    ensures root == RootOf(data, sha)
  {
    hide Placed, Key, TrieRlp, Hashes32, Range, Sorted;
    var m, i := [], 0;
    for n := 0 to |data|
      invariant m == ByteMap(data, n) && i == n % TWO_32
    {
      m := Placed(m, Key(i), data[n]);
      i := (i + 1) % TWO_32;
    }
    ByteMapNumbered(data, |data|);
    forall j | 0 <= j < |m| ensures 2 * |m[j].key| < NO_PREFIX && |m[j].value| < SIZE_LIMIT {
      EntryFits(m, data, j);
    }
    var d := TrieRlp256(m, sha);
    root := sha(d);
  }

  lemma EntryFits(m: seq<Entry>, data: seq<seq<byte>>, j: nat)
    requires Stored(data) && Numbered(m, Held(data)) && j < |m|
    ensures 2 * |m[j].key| < NO_PREFIX && |m[j].value| < SIZE_LIMIT
  {
    hide Key, Numbered, Latest, Stored;
    var i := EntryOf(m, Held(data), j);
    KeySize(i);
    HeldSized(data, i);
  }

  /**
   * Two lists have the same trie root if and only if their maps hold the same items, empty
   * ones included, unless the hash collides on the nodes of their tries.  Lists of up to
   * 2^32 items are held whole; of longer ones only the last 2^32 are.
   */
  lemma RootsExact(a: seq<seq<byte>>, b: seq<seq<byte>>, sha: Hash)
    requires Stored(a) && Stored(b) && Hashes32(sha)
    requires NoCollision(TrieOf(a), TrieOf(b), sha)
    ensures RootOf(a, sha) == RootOf(b, sha) <==> Held(a) == Held(b)
    ensures |a| <= TWO_32 && |b| <= TWO_32 ==> (RootOf(a, sha) == RootOf(b, sha) <==> a == b)
  {
    hide Stored, Hashes32, NoCollision, Build, RootMap, TrieRlp, IsRootMap, Latest;
    RootMapIs(a);
    RootMapIs(b);
    if RootOf(a, sha) == RootOf(b, sha) {
      TrieRootInjective(Held(a), Held(b), RootMap(a), RootMap(b), sha);
    }
    if Held(a) == Held(b) {
      RootMapUnique(RootMap(a), RootMap(b), Held(a));
    }
    if |a| <= TWO_32 && |b| <= TWO_32 {
      LatestIsAll(a, |a|);
      LatestIsAll(b, |b|);
      assert a[..|a|] == a && b[..|b|] == b;
    }
  }

  /** Of a list of 2^32 + 1 items the first does not count, whatever the hash. */
  lemma FirstItemLost(data: seq<seq<byte>>, v: seq<byte>, sha: Hash)
    requires |data| == TWO_32 + 1 && Stored(data) && |v| < SIZE_LIMIT
    ensures Stored(data[0 := v]) && RootOf(data[0 := v], sha) == RootOf(data, sha)
  {
    hide IsRootMap, Build, TrieRlp;
    var other := data[0 := v];
    LatestIsAll(data, TWO_32);
    LatestIsAll(other, TWO_32);
    assert Held(data) == data[..TWO_32][0 := data[TWO_32]];
    assert Held(other) == other[..TWO_32][0 := data[TWO_32]];
    assert Held(data) == Held(other);
    RootMapIs(data);
    RootMapIs(other);
    RootMapUnique(RootMap(data), RootMap(other), Held(data));
  }

  /** The same items are held in the same map. */
  lemma RootMapUnique(a: seq<Entry>, b: seq<Entry>, e: seq<seq<byte>>)
    requires IsRootMap(a, e) && IsRootMap(b, e)
    ensures a == b
  {
    hide RootKey, Find, Less;
    forall i | 0 <= i < |a| ensures a[i] in b {
      RootEntryIn(a, b, e, i);
    }
    forall i | 0 <= i < |b| ensures b[i] in a {
      RootEntryIn(b, a, e, i);
    }
    SortedUnique(a, b);
  }

  lemma RootEntryIn(a: seq<Entry>, b: seq<Entry>, e: seq<seq<byte>>, i: nat)
    requires IsRootMap(a, e) && IsRootMap(b, e) && i < |a|
    ensures a[i] in b
  {
    hide RootKey, Find, Less;
    var j :| 0 <= j < |e| && a[i].key == RootKey(j);
    FindAt(a, i);
    var l := FindSome(b, RootKey(j));
  }

  /** Two sorted maps with the same entries are the same. */
  lemma {:induction false} SortedUnique(a: seq<Entry>, b: seq<Entry>)
    requires Sorted(a) && Sorted(b)
    requires (forall i :: 0 <= i < |a| ==> a[i] in b) && (forall i :: 0 <= i < |b| ==> b[i] in a)
    ensures a == b
    decreases |a|
  {
    hide Less;
    assert |a| > 0 ==> a[0] in b;
    assert |b| > 0 ==> b[0] in a;
    if a != [] {
      SameFirst(a, b);
      forall i | 0 <= i < |a[1..]| ensures a[1..][i] in b[1..] {
        InTail(a, b, i + 1);
      }
      forall i | 0 <= i < |b[1..]| ensures b[1..][i] in a[1..] {
        InTail(b, a, i + 1);
      }
      SortedUnique(a[1..], b[1..]);
      assert a == [a[0]] + a[1..] && b == [b[0]] + b[1..];
    }
  }

  lemma SameFirst(a: seq<Entry>, b: seq<Entry>)
    requires Sorted(a) && Sorted(b) && a != [] && b != [] && a[0] in b && b[0] in a
    ensures a[0] == b[0]
  {
    hide Less;
    var i :| 0 <= i < |b| && b[i] == a[0];
    var j :| 0 <= j < |a| && a[j] == b[0];
    if i > 0 && j > 0 {
      LessAsymmetric(b[0].key, b[i].key);
    }
  }

  lemma InTail(a: seq<Entry>, b: seq<Entry>, i: nat)
    requires Sorted(a) && 0 < i < |a| && a[i] in b && b != [] && a[0] == b[0]
    ensures a[i] in b[1..]
  {
    hide Less;
    LessAsymmetric(a[0].key, a[i].key);
    assert a[i] != b[0];
    assert b == [b[0]] + b[1..];
  }
}
