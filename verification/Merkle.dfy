/**
 * The Merkle root of a list of digests: the list is halved in place, pair by pair, an
 * odd one out being paired with itself.
 */
module Merkle {
  /** A digest: its first bit, and the number the rest of it spells. */
  datatype Digest = Digest(first: bool, rest: nat)

  type Hash = (Digest, Digest) -> Digest

  function Left(d: Digest): Digest {
    d.(first := false)
  }

  function Right(d: Digest): Digest {
    d.(first := true)
  }

  /** The digest over a pair, after the first bits have been overwritten to mark its sides. */
  function Node(sha: Hash, l: Digest, r: Digest): Digest {
    sha(Left(l), Right(r))
  }

  /** Doubles the last digest of an odd list. */
  function Padded(ids: seq<Digest>): (p: seq<Digest>)
    requires ids != []
    ensures |p| % 2 == 0 && |p| == |ids| + |ids| % 2 && ids <= p
  {
    if |ids| % 2 == 1 then ids + [ids[|ids| - 1]] else ids
  }

  /** The next level of the tree. */
  function Level(sha: Hash, ids: seq<Digest>): (l: seq<Digest>)
    requires ids != []
    ensures |l| == (|ids| + 1) / 2
  {
    var p := Padded(ids);
    seq(|p| / 2, i requires 0 <= i < |p| / 2 => Node(sha, p[2 * i], p[2 * i + 1]))
  }

  function Root(sha: Hash, ids: seq<Digest>): Digest
    requires ids != []
    decreases |ids|
  {
    if |ids| == 1 then ids[0] else Root(sha, Level(sha, ids))
  }

  /** The root of the empty list is the zero digest. */
  const ZERO := Digest(false, 0)

  /** Halves `a[..size]` in place; `size` is even. */
  method Halve(sha: Hash, a: array<Digest>, size: nat)
    requires 0 < size <= a.Length && size % 2 == 0
    modifies a
    ensures a[..size / 2] == Level(sha, old(a[..size]))
  {
    hide Node, Level, Padded;
    ghost var s := a[..size];
    for i := 0 to size / 2
      invariant forall k :: 0 <= k < i ==> a[k] == Node(sha, s[2 * k], s[2 * k + 1])
      invariant a[i..size] == s[i..]
    {
      ghost var rest := a[i..size];
      assert a[2 * i] == rest[i] == s[2 * i] && a[2 * i + 1] == rest[i + 1] == s[2 * i + 1];
      a[i] := Node(sha, a[2 * i], a[2 * i + 1]);
      assert a[i + 1..size] == rest[1..] == s[i + 1..];
    }
    LevelIs(sha, s, a[..size / 2]);
  }

  lemma LevelIs(sha: Hash, s: seq<Digest>, l: seq<Digest>)
    requires s != [] && |s| == 2 * |l| && forall k :: 0 <= k < |l| ==> l[k] == Node(sha, s[2 * k], s[2 * k + 1])
    ensures l == Level(sha, s)
  {
    hide Node;
  }

  /** Each round doubles an odd one out and halves the list, until one digest is left. */
  method ComputeRoot(sha: Hash, ids: seq<Digest>) returns (root: Digest)
    ensures root == if ids == [] then ZERO else Root(sha, ids)
  {
    if ids == [] {
      return ZERO;
    }
    var a := new Digest[|ids| + 1](i requires 0 <= i < |ids| + 1 => if i < |ids| then ids[i] else ZERO);
    var size := |ids|;
    assert a[..size] == ids;
    while size > 1
      invariant 1 <= size < a.Length
      invariant Root(sha, a[..size]) == Root(sha, ids)
      decreases size
    {
      ghost var before := a[..size];
      if size % 2 == 1 {
        a[size] := a[size - 1];
        size := size + 1;
      }
      assert a[..size] == Padded(before);
      LevelOfPadded(sha, before);
      Halve(sha, a, size);
      size := size / 2;
    }
    root := a[0];
  }

  lemma LevelOfPadded(sha: Hash, ids: seq<Digest>)
    requires ids != []
    ensures Level(sha, Padded(ids)) == Level(sha, ids)
  {
    assert Padded(Padded(ids)) == Padded(ids);
  }

  // ----------------------------------------------------------------- paths to the root

  /** The digests beside the way from leaf `i` to the root, each with the side it stands on. */
  function Path(sha: Hash, ids: seq<Digest>, i: nat): seq<(Digest, bool)>
    requires i < |ids|
    decreases |ids|
  {
    if |ids| == 1 then [] else
      var p := Padded(ids);
      var beside := if i % 2 == 0 then (p[i + 1], true) else (p[i - 1], false);
      [beside] + Path(sha, Level(sha, ids), i / 2)
  }

  /** Hashing up a path: only the leaf and the path are looked at. */
  function Climb(sha: Hash, d: Digest, path: seq<(Digest, bool)>): Digest
    decreases |path|
  {
    if path == [] then d else
      var (beside, right) := path[0];
      Climb(sha, if right then Node(sha, d, beside) else Node(sha, beside, d), path[1..])
  }

  lemma LevelAt(sha: Hash, ids: seq<Digest>, i: nat)
    requires i < |ids| && |ids| > 1
    ensures var p := Padded(ids);
            Level(sha, ids)[i / 2] == if i % 2 == 0 then Node(sha, ids[i], p[i + 1]) else Node(sha, p[i - 1], ids[i])
  {
    var h := i / 2;
    assert i % 2 == 0 ==> i == 2 * h;
    assert i % 2 == 1 ==> i == 2 * h + 1;
  }

  /** Every leaf can be shown to be under the root by its path. */
  lemma {:induction false} PathsReachRoot(sha: Hash, ids: seq<Digest>, i: nat)
    requires i < |ids|
    ensures Climb(sha, ids[i], Path(sha, ids, i)) == Root(sha, ids)
    decreases |ids|
  {
    if |ids| > 1 {
      var l := Level(sha, ids);
      LevelAt(sha, ids, i);
      hide Level, Padded;
      assert Path(sha, ids, i)[1..] == Path(sha, l, i / 2);
      PathsReachRoot(sha, l, i / 2);
    }
  }

  // ------------------------------------------------------- which lists share a root

  /** The number of levels above a list of `n` digests. */
  function Depth(n: nat): nat
    requires n > 0
  {
    if n == 1 then 0 else 1 + Depth((n + 1) / 2)
  }

  function Pow2(d: nat): nat {
    if d == 0 then 1 else 2 * Pow2(d - 1)
  }

  function Cap(n: nat, i: nat): (r: nat)
    requires i <= n + n % 2 - 1 && n > 0
    ensures r < n
  {
    if i == n then n - 1 else i
  }

  /** Which of `n` digests stands at leaf `j` of the full tree that the doubling makes of them. */
  function Spot(n: nat, j: nat): (i: nat)
    requires n > 0 && j < Pow2(Depth(n))
    ensures i < n
  {
    if n == 1 then 0 else Cap(n, 2 * Spot((n + 1) / 2, j / 2) + j % 2)
  }

  /** Below its own length the full tree has the list itself. */
  lemma {:induction false} SpotIsSelf(n: nat, i: nat)
    requires i < n
    ensures i < Pow2(Depth(n)) && Spot(n, i) == i
  {
    if n > 1 {
      SpotIsSelf((n + 1) / 2, i / 2);
    }
  }

  /** The pairs that are hashed on the way to the root. */
  function Pairs(sha: Hash, ids: seq<Digest>): set<(Digest, Digest)>
    requires ids != []
    decreases |ids|
  {
    if |ids| == 1 then {} else PairsOf(ids) + Pairs(sha, Level(sha, ids))
  }

  function PairsOf(ids: seq<Digest>): set<(Digest, Digest)>
    requires ids != []
  {
    var p := Padded(ids);
    set i | 0 <= i < |p| / 2 :: (Left(p[2 * i]), Right(p[2 * i + 1]))
  }

  /** No two of the pairs have digests that agree in all but the first bit, which is all the tree looks at. */
  ghost predicate NoCollision(sha: Hash, pairs: set<(Digest, Digest)>) {
    forall x, y :: x in pairs && y in pairs && sha(x.0, x.1).rest == sha(y.0, y.1).rest ==> x == y
  }

  /** The full trees over two lists of the same depth have the same leaves, but for first bits. */
  ghost predicate Agree(a: seq<Digest>, b: seq<Digest>)
    requires a != [] && b != [] && Depth(|a|) == Depth(|b|)
  {
    forall j :: 0 <= j < Pow2(Depth(|a|)) ==> a[Spot(|a|, j)].rest == b[Spot(|b|, j)].rest
  }

  ghost predicate SameLeaves(a: seq<Digest>, b: seq<Digest>)
    requires a != [] && b != [] && Depth(|a|) == Depth(|b|)
  {
    forall j :: 0 <= j < Pow2(Depth(|a|)) ==> a[Spot(|a|, j)] == b[Spot(|b|, j)]
  }

  lemma SpotPair(n: nat, h: nat)
    requires n > 1 && h < Pow2(Depth((n + 1) / 2))
    ensures 2 * h + 1 < Pow2(Depth(n))
    ensures var i := Spot((n + 1) / 2, h); 2 * i + 1 <= n + n % 2 - 1 && Spot(n, 2 * h) == Cap(n, 2 * i) && Spot(n, 2 * h + 1) == Cap(n, 2 * i + 1)
  {
    hide Cap;
    assert (2 * h) / 2 == h && (2 * h + 1) / 2 == h;
  }

  lemma PairAt(sha: Hash, a: seq<Digest>, i: nat)
    requires |a| > 1 && i < (|a| + 1) / 2
    ensures var l, r := a[Cap(|a|, 2 * i)], a[Cap(|a|, 2 * i + 1)];
            Level(sha, a)[i] == Node(sha, l, r) && (Left(l), Right(r)) in PairsOf(a)
  {
    hide Node;
    var p := Padded(a);
    assert p[2 * i] == a[Cap(|a|, 2 * i)] && p[2 * i + 1] == a[Cap(|a|, 2 * i + 1)];
    assert i < |p| / 2;
  }

  /** A leaf of the full tree over the next level is the node over two neighbouring leaves. */
  lemma SpotAbove(sha: Hash, a: seq<Digest>, h: nat)
    requires |a| > 1 && h < Pow2(Depth(|Level(sha, a)|))
    ensures 2 * h + 1 < Pow2(Depth(|a|))
    ensures var l, r := a[Spot(|a|, 2 * h)], a[Spot(|a|, 2 * h + 1)];
            Level(sha, a)[Spot(|Level(sha, a)|, h)] == Node(sha, l, r) && (Left(l), Right(r)) in PairsOf(a)
  {
    hide Node, Level, PairsOf, Spot, Cap, Pow2, Depth, Left, Right;
    SpotPair(|a|, h);
    PairAt(sha, a, Spot((|a| + 1) / 2, h));
  }

  /** Equal leaves make equal nodes. */
  lemma AgreeAbove(sha: Hash, a: seq<Digest>, b: seq<Digest>)
    requires |a| > 1 && |b| > 1 && Depth(|a|) == Depth(|b|) && Agree(a, b)
    ensures SameLeaves(Level(sha, a), Level(sha, b))
  {
    hide Level, PairsOf, Spot, Pow2;
    var k, l := Level(sha, a), Level(sha, b);
    forall h | 0 <= h < Pow2(Depth(|k|)) ensures k[Spot(|k|, h)] == l[Spot(|l|, h)] {
      SpotAbove(sha, a, h);
      SpotAbove(sha, b, h);
    }
  }

  lemma HalfBelow(d: nat, j: nat)
    requires d > 0 && j < Pow2(d)
    ensures j / 2 < Pow2(d - 1) && (j == 2 * (j / 2) || j == 2 * (j / 2) + 1)
  {
  }

  /** Without a collision, equal nodes have equal leaves. */
  lemma AgreeBelow(sha: Hash, a: seq<Digest>, b: seq<Digest>)
    requires |a| > 1 && |b| > 1 && Depth(|a|) == Depth(|b|) && Agree(Level(sha, a), Level(sha, b))
    requires NoCollision(sha, PairsOf(a) + PairsOf(b))
    ensures Agree(a, b)
  {
    hide Level, PairsOf, Spot, Pow2, NoCollision;
    var k, l := Level(sha, a), Level(sha, b);
    forall j | 0 <= j < Pow2(Depth(|a|)) ensures a[Spot(|a|, j)].rest == b[Spot(|b|, j)].rest {
      HalfBelow(Depth(|a|), j);
      var h := j / 2;
      assert k[Spot(|k|, h)].rest == l[Spot(|l|, h)].rest;
      SpotAbove(sha, a, h);
      SpotAbove(sha, b, h);
      NoneCollides(sha, PairsOf(a) + PairsOf(b), a[Spot(|a|, 2 * h)], a[Spot(|a|, 2 * h + 1)], b[Spot(|b|, 2 * h)], b[Spot(|b|, 2 * h + 1)]);
    }
  }

  lemma NoneCollides(sha: Hash, pairs: set<(Digest, Digest)>, l: Digest, r: Digest, m: Digest, s: Digest)
    requires NoCollision(sha, pairs) && (Left(l), Right(r)) in pairs && (Left(m), Right(s)) in pairs
    requires Node(sha, l, r).rest == Node(sha, m, s).rest
    ensures l.rest == m.rest && r.rest == s.rest
  {
    var x, y := (Left(l), Right(r)), (Left(m), Right(s));
    assert x == y;
  }

  /**
   * Without a collision, two lists of the same depth have the same root if and only if the
   * full trees over them have the same leaves but for first bits, which are overwritten; the
   * first bit counts only in a list of one.
   */
  lemma {:induction false} SameDepthExact(sha: Hash, a: seq<Digest>, b: seq<Digest>)
    requires a != [] && b != [] && Depth(|a|) == Depth(|b|) && NoCollision(sha, Pairs(sha, a) + Pairs(sha, b))
    ensures Root(sha, a) == Root(sha, b) <==> if Depth(|a|) == 0 then a == b else Agree(a, b)
    decreases |a|
  {
    hide Level, Agree, SameLeaves, NoCollision, PairsOf;
    if |a| > 1 {
      var k, l := Level(sha, a), Level(sha, b);
      FewerPairs(sha, Pairs(sha, a) + Pairs(sha, b), Pairs(sha, k) + Pairs(sha, l));
      SameDepthExact(sha, k, l);
      LeavesAndRests(k, l);
      if Agree(a, b) {
        AgreeAbove(sha, a, b);
      }
      if Root(sha, a) == Root(sha, b) {
        FewerPairs(sha, Pairs(sha, a) + Pairs(sha, b), PairsOf(a) + PairsOf(b));
        AgreeBelow(sha, a, b);
      }
    }
  }

  lemma FewerPairs(sha: Hash, all: set<(Digest, Digest)>, some: set<(Digest, Digest)>)
    requires NoCollision(sha, all) && some <= all
    ensures NoCollision(sha, some)
  {
  }

  lemma LeavesAndRests(a: seq<Digest>, b: seq<Digest>)
    requires a != [] && b != [] && Depth(|a|) == Depth(|b|)
    ensures SameLeaves(a, b) ==> Agree(a, b)
    ensures a == b ==> Agree(a, b)
    ensures Depth(|a|) == 0 && SameLeaves(a, b) ==> a == b
  {
    if Depth(|a|) == 0 {
      assert |a| == 1 && |b| == 1 && Spot(1, 0) == 0 && Pow2(0) == 1;
    }
  }

  /** Without a collision, equally long lists have the same root if and only if they are equal but for first bits. */
  lemma SameLengthExact(sha: Hash, a: seq<Digest>, b: seq<Digest>)
    requires |a| == |b| > 1 && NoCollision(sha, Pairs(sha, a) + Pairs(sha, b))
    ensures Root(sha, a) == Root(sha, b) <==> forall i :: 0 <= i < |a| ==> a[i].rest == b[i].rest
  {
    hide Root, Pairs, NoCollision, Spot;
    SameDepthExact(sha, a, b);
    if Agree(a, b) {
      forall i | 0 <= i < |a| ensures a[i].rest == b[i].rest {
        SpotIsSelf(|a|, i);
      }
    }
  }

  // ------------------------------------------------------------ lists of different depth

  /** The list `k` levels up. */
  function Levels(sha: Hash, ids: seq<Digest>, k: nat): (l: seq<Digest>)
    requires ids != [] && k <= Depth(|ids|)
    ensures l != [] && Depth(|l|) == Depth(|ids|) - k
    decreases k
  {
    if k == 0 then ids else Levels(sha, Level(sha, ids), k - 1)
  }

  lemma {:induction false} LevelsUp(sha: Hash, ids: seq<Digest>, k: nat)
    requires ids != [] && k <= Depth(|ids|)
    ensures Root(sha, Levels(sha, ids, k)) == Root(sha, ids) && Pairs(sha, Levels(sha, ids, k)) <= Pairs(sha, ids)
    decreases k
  {
    hide Level, PairsOf;
    if k > 0 {
      LevelsUp(sha, Level(sha, ids), k - 1);
    }
  }

  /**
   * And of two lists of different depth, without a collision, the roots are the same if and
   * only if the shorter list and the level of the longer one at its depth have the same full
   * tree: then digests in the one list are nodes of the other.  For a list of one digest,
   * which is its own root, this says no more than that the digest is the root of the other.
   */
  lemma AnyDepthExact(sha: Hash, a: seq<Digest>, b: seq<Digest>)
    requires a != [] && b != [] && Depth(|a|) <= Depth(|b|) && NoCollision(sha, Pairs(sha, a) + Pairs(sha, b))
    ensures var c := Levels(sha, b, Depth(|b|) - Depth(|a|));
            Root(sha, a) == Root(sha, b) <==> if Depth(|a|) == 0 then a == c else Agree(a, c)
  {
    hide Root, Pairs, NoCollision, Levels, Agree;
    var c := Levels(sha, b, Depth(|b|) - Depth(|a|));
    LevelsUp(sha, b, Depth(|b|) - Depth(|a|));
    FewerPairs(sha, Pairs(sha, a) + Pairs(sha, b), Pairs(sha, a) + Pairs(sha, c));
    SameDepthExact(sha, a, c);
  }

  /** Of the lists of different length: an odd list and the same list with its last digest twice, whatever the hash. */
  lemma OddListShared(sha: Hash, ids: seq<Digest>)
    requires |ids| > 1 && |ids| % 2 == 1
    ensures Root(sha, ids + [ids[|ids| - 1]]) == Root(sha, ids)
  {
    LevelOfPadded(sha, ids);
  }

  /** Two different lists of two digests with the same root, whatever the hash: they differ in the first bit of a digest. */
  lemma FirstBitExample(sha: Hash)
    ensures var a, b := [Digest(false, 1), Digest(false, 2)], [Digest(true, 1), Digest(false, 2)];
            a != b && Root(sha, a) == Root(sha, b)
  {
    var a, b := [Digest(false, 1), Digest(false, 2)], [Digest(true, 1), Digest(false, 2)];
    assert a[0] != b[0];
    assert Level(sha, a) == Level(sha, b);
  }

  /** The root of two digests: the hash of the first with its first bit cleared and the second with it set. */
  lemma RootOfTwo(sha: Hash, a: Digest, b: Digest)
    ensures Root(sha, [a, b]) == sha(Digest(false, a.rest), Digest(true, b.rest))
  {
    assert Level(sha, [a, b]) == [Node(sha, a, b)];
  }

  /** The root of three: the third is paired with itself, and the two nodes are paired in order. */
  lemma RootOfThree(sha: Hash, a: Digest, b: Digest, c: Digest)
    ensures Root(sha, [a, b, c]) ==
            sha(Digest(false, sha(Digest(false, a.rest), Digest(true, b.rest)).rest), Digest(true, sha(Digest(false, c.rest), Digest(true, c.rest)).rest))
  {
    var l := [Node(sha, a, b), Node(sha, c, c)];
    assert Padded([a, b, c]) == [a, b, c, c];
    assert Level(sha, [a, b, c]) == l;
    RootOfTwo(sha, l[0], l[1]);
  }
}
