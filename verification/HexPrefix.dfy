/** Hex-prefix encoding of nibble paths (trie/TrieBase.cpp, trie/include/trie/TrieBase.h; Appendix C
    of the Ethereum Yellow Paper): three encoders that agree with one definition, and its inverse.
    A path is a byte vector with one nibble per byte. */
module HexPrefix {
  import opened Bytes

  predicate IsNibbles(ns: seq<byte>) { forall i :: 0 <= i < |ns| ==> ns[i] < 16 }

  // ---------- The definition ----------

  /** A byte from two nibbles; as in the source the sum is cut to one byte. */
  function Join(hi: byte, lo: byte): (b: byte)
    ensures hi < 16 && lo < 16 ==> b / 16 == hi && b % 16 == lo
  {
    ((hi as nat * 16 + lo as nat) % 256) as byte
  }

  /** Two nibbles to a byte, high nibble first. */
  function Pack(ns: seq<byte>): (s: seq<byte>)
    requires |ns| % 2 == 0
    ensures |s| == |ns| / 2
  {
    if ns == [] then [] else Pack(ns[..|ns| - 2]) + [Join(ns[|ns| - 2], ns[|ns| - 1])]
  }

  /** The leading nibble holds termination (2) and oddness (1); an even path is padded by a zero. */
  function Flags(odd: bool, leaf: bool): (fs: seq<byte>)
    ensures IsNibbles(fs)
  {
    var f := (if leaf then 2 else 0) + (if odd then 1 else 0);
    if odd then [f] else [f, 0]
  }

  function HexEncode(ns: seq<byte>, leaf: bool): (s: seq<byte>)
    ensures |s| == |ns| / 2 + 1
  {
    Pack(Flags(|ns| % 2 == 1, leaf) + ns)
  }

  // ---------- Its inverse ----------

  /** `nibble(data, i)`. */
  function Nibble(d: seq<byte>, i: nat): (n: byte)
    requires i < 2 * |d|
    ensures n < 16
  {
    if i % 2 == 1 then d[i / 2] % 16 else d[i / 2] / 16
  }

  /** The nibbles from position `i` on, as a `NibbleSlice` shows them. */
  function Slice(d: seq<byte>, i: nat): (ns: seq<byte>)
    requires i <= 2 * |d|
    ensures |ns| == 2 * |d| - i && IsNibbles(ns)
    ensures forall k :: 0 <= k < |ns| ==> ns[k] == Nibble(d, i + k)
    decreases 2 * |d| - i
  {
    if i == 2 * |d| then [] else [Nibble(d, i)] + Slice(d, i + 1)
  }

  /** `isLeaf`: bit 0x20 of the first byte. */
  predicate IsLeaf(hp: seq<byte>)
    requires hp != []
  {
    hp[0] / 16 / 2 % 2 == 1
  }

  /** `keyOf`: bit 0x10 of the first byte says whether its low nibble belongs to the path. */
  function KeyOf(hp: seq<byte>): seq<byte> {
    if hp == [] then [] else if hp[0] / 16 % 2 == 1 then Slice(hp, 1) else Slice(hp, 2)
  }

  lemma {:induction false} PackAt(ns: seq<byte>, k: nat)
    requires |ns| % 2 == 0 && IsNibbles(ns) && k < |ns|
    ensures Nibble(Pack(ns), k) == ns[k]
  {
    var front := ns[..|ns| - 2];
    if k < |front| {
      PackAt(front, k);
      assert Pack(ns)[k / 2] == Pack(front)[k / 2];
    } else {
      assert k / 2 == |front| / 2;
    }
  }

  lemma FlagByte(ns: seq<byte>, leaf: bool)
    requires IsNibbles(ns)
    ensures HexEncode(ns, leaf)[0] / 16 == (if leaf then 2 else 0) + (if |ns| % 2 == 1 then 1 else 0)
  {
    PackAt(Flags(|ns| % 2 == 1, leaf) + ns, 0);
  }

  lemma FlagBits(ns: seq<byte>, leaf: bool)
    requires IsNibbles(ns)
    ensures IsLeaf(HexEncode(ns, leaf)) == leaf
    ensures KeyOf(HexEncode(ns, leaf)) == Slice(HexEncode(ns, leaf), |Flags(|ns| % 2 == 1, leaf)|)
    ensures |KeyOf(HexEncode(ns, leaf))| == |ns|
  {
    FlagByte(ns, leaf);
    hide Pack, HexEncode, Slice;
    var hp := HexEncode(ns, leaf);
    if |ns| % 2 == 1 {
      assert hp[0] / 16 % 2 == 1;
    } else {
      assert hp[0] / 16 % 2 == 0;
    }
  }

  /** The encoding gives back nibbles, parity and flag. */
  lemma HexPrefixInverts(ns: seq<byte>, leaf: bool)
    requires IsNibbles(ns)
    ensures KeyOf(HexEncode(ns, leaf)) == ns
    ensures IsLeaf(HexEncode(ns, leaf)) == leaf
  {
    hide *;
    FlagBits(ns, leaf);
    var key := KeyOf(HexEncode(ns, leaf));
    forall k | 0 <= k < |ns|
      ensures key[k] == ns[k]
    {
      SliceOfHexPrefix(ns, leaf, k);
    }
  }

  lemma SliceOfHexPrefix(ns: seq<byte>, leaf: bool, k: nat)
    requires IsNibbles(ns) && k < |ns|
    ensures Nibble(HexEncode(ns, leaf), |Flags(|ns| % 2 == 1, leaf)| + k) == ns[k]
  {
    var fs := Flags(|ns| % 2 == 1, leaf);
    PackAt(fs + ns, |fs| + k);
  }

  lemma HexPrefixInjective(a: seq<byte>, leafA: bool, b: seq<byte>, leafB: bool)
    requires IsNibbles(a) && IsNibbles(b)
    requires HexEncode(a, leafA) == HexEncode(b, leafB)
    ensures a == b && leafA == leafB
  {
    HexPrefixInverts(a, leafA);
    HexPrefixInverts(b, leafB);
  }

  // ---------- The three encoders ----------

  lemma PackSnoc(ns: seq<byte>, hi: byte, lo: byte)
    requires |ns| % 2 == 0
    ensures Pack(ns + [hi, lo]) == Pack(ns) + [Join(hi, lo)]
  {
    assert (ns + [hi, lo])[..|ns|] == ns;
  }

  /** The first form: a vector with one nibble per byte. */
  method EncodeVector(hex: seq<byte>, leaf: bool, begin: nat, end: int) returns (ret: seq<byte>)
    requires IsNibbles(hex) && -1 - |hex| <= end <= |hex|
    requires begin <= (if end < 0 then |hex| + 1 + end else end)
    ensures ret == HexEncode(hex[begin..if end < 0 then |hex| + 1 + end else end], leaf)
  {
    hide *;
    var last := if end < 0 then |hex| + 1 + end else end;
    var odd := (last - begin) % 2 != 0;
    ret := [Join((if leaf then 2 else 0) + (if odd then 1 else 0), 0)];
    FirstByte(hex, begin, last, leaf);
    if odd { ret := [ret[0] + hex[begin]]; }
    ret := EncodePairs(hex, leaf, begin, if odd then begin + 1 else begin, last, ret);
  }

  /** The loop of the first form: two nibbles at a time. */
  method EncodePairs(hex: seq<byte>, leaf: bool, ghost begin: nat, first: nat, last: nat, start: seq<byte>)
    returns (ret: seq<byte>)
    requires begin <= first <= last <= |hex| && (last - first) % 2 == 0
    requires start == HexEncode(hex[begin..first], leaf)
    ensures ret == HexEncode(hex[begin..last], leaf)
  {
    hide *;
    ret := start;
    var i := first;
    while i < last
      invariant first <= i <= last && (last - i) % 2 == 0
      invariant ret == HexEncode(hex[begin..i], leaf)
    {
      assert hex[begin..i] + [hex[i], hex[i + 1]] == hex[begin..i + 2];
      HexPrefixSnoc(hex[begin..i], hex[i], hex[i + 1], leaf);
      ret := ret + [Join(hex[i], hex[i + 1])];
      i := i + 2;
    }
  }

  lemma FirstByte(hex: seq<byte>, begin: nat, last: nat, leaf: bool)
    requires IsNibbles(hex) && begin <= last <= |hex|
    ensures var f: byte := if leaf then 2 else 0;
            if (last - begin) % 2 == 0 then HexEncode(hex[begin..begin], leaf) == [Join(f, 0)]
            else hex[begin] < 16 && Join(f + 1, 0) % 16 == 0 && HexEncode(hex[begin..begin + 1], leaf) == [Join(f + 1, 0) + hex[begin]]
  {
    var f: byte := if leaf then 2 else 0;
    if (last - begin) % 2 == 0 {
      assert Flags(false, leaf) + hex[begin..begin] == [f, 0];
      PackTwo(f, 0);
    } else {
      assert Flags(true, leaf) + hex[begin..begin + 1] == [f + 1, hex[begin]];
      PackTwo(f + 1, hex[begin]);
    }
  }

  lemma HexPrefixSnoc(ns: seq<byte>, hi: byte, lo: byte, leaf: bool)
    ensures HexEncode(ns + [hi, lo], leaf) == HexEncode(ns, leaf) + [Join(hi, lo)]
  {
    var fs := Flags(|ns| % 2 == 1, leaf);
    PackSnoc(fs + ns, hi, lo);
    assert fs + ns + [hi, lo] == fs + (ns + [hi, lo]);
  }

  /** Nibbles packed so far; an odd one stands in the high half of the last byte. */
  function Half(ns: seq<byte>): seq<byte> {
    if |ns| % 2 == 0 then Pack(ns) else Pack(ns + [0])
  }

  lemma HalfOdd(ns: seq<byte>, n: byte)
    requires |ns| % 2 == 1 && IsNibbles(ns) && n < 16
    ensures Half(ns) != []
    ensures var k := |Half(ns)| - 1;
            && Half(ns)[k] as nat + n as nat < 256
            && Half(ns + [n]) == Half(ns)[..k] + [Half(ns)[k] + n]
  {
    var front, hi := ns[..|ns| - 1], ns[|ns| - 1];
    assert ns + [0] == front + [hi, 0] && ns + [n] == front + [hi, n];
    PackSnoc(front, hi, 0);
    PackSnoc(front, hi, n);
    hide Pack;
    assert Join(hi, n) == Join(hi, 0) + n;
  }

  lemma HalfEven(ns: seq<byte>, n: byte)
    requires |ns| % 2 == 0 && n < 16
    ensures Half(ns + [n]) == Half(ns) + [n * 16]
  {
    PackSnoc(ns, n, 0);
    hide Pack;
    assert ns + [n] + [0] == ns + [n, 0];
  }

  /** Adds one nibble: onto the zero low half of the last byte when `d` is odd, else as a new byte. */
  method PushNibble(ret: seq<byte>, d: nat, n: byte, ghost ns: seq<byte>) returns (next: seq<byte>)
    requires n < 16 && IsNibbles(ns) && ret == Half(ns) && d == |ns|
    ensures next == Half(ns + [n])
  {
    hide Half;
    if d % 2 == 1 {
      HalfOdd(ns, n);
      next := ret[..|ret| - 1] + [ret[|ret| - 1] + n];
    } else {
      HalfEven(ns, n);
      next := ret + [n * 16];
    }
  }

  lemma HalfOfFlags(odd: bool, leaf: bool)
    ensures Half(Flags(odd, leaf)) == [Join((if leaf then 2 else 0) + (if odd then 1 else 0), 0)]
    ensures |Flags(odd, leaf)| == if odd then 1 else 2
  {
    var f: byte := (if leaf then 2 else 0) + (if odd then 1 else 0);
    PackTwo(f, 0);
    hide Pack;
    if odd { assert Flags(odd, leaf) + [0] == [f, 0]; }
  }

  lemma PackTwo(hi: byte, lo: byte)
    ensures Pack([hi, lo]) == [Join(hi, lo)]
  {
    assert [hi, lo][..0] == [];
  }

  lemma NibblesAppend(a: seq<byte>, b: seq<byte>)
    requires IsNibbles(a) && IsNibbles(b)
    ensures IsNibbles(a + b)
  {}

  /** The second form: packed bytes, a nibble range inside a slice that starts `offset` nibbles in. */
  method EncodePacked(data: seq<byte>, leaf: bool, beginNibble: nat, endNibble: int, offset: nat)
    returns (ret: seq<byte>)
    requires offset <= 2 * |data|
    requires -1 - (2 * |data| - offset) <= endNibble <= 2 * |data| - offset
    requires beginNibble <= (if endNibble < 0 then 2 * |data| - offset + 1 + endNibble else endNibble)
    ensures ret == HexEncode(Slice(data, offset)[beginNibble..if endNibble < 0 then 2 * |data| - offset + 1 + endNibble else endNibble], leaf)
  {
    hide Half, Pack, Slice, HexEncode, Flags, Nibble, IsNibbles;
    var begin := beginNibble + offset;
    var end := (if endNibble < 0 then 2 * |data| - offset + 1 + endNibble else endNibble) + offset;
    ghost var ns := Slice(data, offset)[beginNibble..end - offset];
    SliceNibbles(data, offset, beginNibble, end - offset);
    var odd := (end - begin) % 2 == 1;
    ghost var fs := Flags(odd, leaf);
    HalfOfFlags(odd, leaf);
    ret := [Join((if leaf then 2 else 0) + (if odd then 1 else 0), 0)];
    assert fs + ns[..0] == fs;
    var d := if odd then 1 else 2;
    for i := begin to end
      invariant d == |fs| + i - begin
      invariant ret == Half(fs + ns[..i - begin])
    {
      ghost var sofar := fs + ns[..i - begin];
      assert ns[i - begin] == Nibble(data, i);
      assert sofar + [ns[i - begin]] == fs + ns[..i - begin + 1];
      PrefixNibbles(fs, ns, i - begin);
      ret := PushNibble(ret, d, Nibble(data, i), sofar);
      d := d + 1;
    }
    HalfWhole(ns, leaf);
    assert ns[..end - begin] == ns;
  }

  lemma SliceNibbles(d: seq<byte>, i: nat, lo: nat, hi: nat)
    requires i <= 2 * |d| && lo <= hi <= 2 * |d| - i
    ensures IsNibbles(Slice(d, i)[lo..hi])
    ensures forall k :: 0 <= k < hi - lo ==> Slice(d, i)[lo..hi][k] == Nibble(d, i + lo + k)
  {
    hide Slice, Nibble;
  }

  lemma PrefixNibbles(fs: seq<byte>, ns: seq<byte>, k: nat)
    requires IsNibbles(fs) && IsNibbles(ns) && k <= |ns|
    ensures IsNibbles(fs + ns[..k])
  {}

  lemma HalfWhole(ns: seq<byte>, leaf: bool)
    ensures Half(Flags(|ns| % 2 == 1, leaf) + ns) == HexEncode(ns, leaf)
  {}

  /** The third form: the nibbles of two slices in a row. */
  method EncodeConcat(d1: seq<byte>, o1: nat, d2: seq<byte>, o2: nat, leaf: bool) returns (ret: seq<byte>)
    requires o1 <= 2 * |d1| && o2 <= 2 * |d2|
    ensures ret == HexEncode(Slice(d1, o1) + Slice(d2, o2), leaf)
  {
    hide Half, Pack, Slice, HexEncode, Flags, Nibble, IsNibbles;
    ghost var ns := Slice(d1, o1) + Slice(d2, o2);
    NibblesAppend(Slice(d1, o1), Slice(d2, o2));
    var odd := (2 * |d1| - o1 + 2 * |d2| - o2) % 2 == 1;
    ghost var fs := Flags(odd, leaf);
    HalfOfFlags(odd, leaf);
    ret := [Join((if leaf then 2 else 0) + (if odd then 1 else 0), 0)];
    assert fs + ns[..0] == fs;
    var d := if odd then 1 else 2;
    for i := o1 to 2 * |d1|
      invariant d == |fs| + i - o1
      invariant ret == Half(fs + ns[..i - o1])
    {
      assert ns[i - o1] == Nibble(d1, i);
      assert fs + ns[..i - o1] + [ns[i - o1]] == fs + ns[..i - o1 + 1];
      PrefixNibbles(fs, ns, i - o1);
      ret := PushNibble(ret, d, Nibble(d1, i), fs + ns[..i - o1]);
      d := d + 1;
    }
    ghost var k := 2 * |d1| - o1;
    for i := o2 to 2 * |d2|
      invariant d == |fs| + k + i - o2
      invariant ret == Half(fs + ns[..k + i - o2])
    {
      ghost var j := k + i - o2;
      assert ns[j] == Nibble(d2, i);
      assert fs + ns[..j] + [ns[j]] == fs + ns[..j + 1];
      PrefixNibbles(fs, ns, j);
      ret := PushNibble(ret, d, Nibble(d2, i), fs + ns[..j]);
      d := d + 1;
    }
    HalfWhole(ns, leaf);
    assert ns[..|ns|] == ns;
  }
}
