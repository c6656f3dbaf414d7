/**
 * A write batch as bytes (database/leveldb/db/write_batch.cc, util/coding.cc): eight bytes of
 * sequence number, four of count, and the operations with their lengths as varints.
 */
module WriteBatches {
  import opened Bytes
  import opened GroupCommit

  const TWO_32: nat := 0x1_0000_0000
  const TWO_31: nat := 0x8000_0000
  const BATCH_HEADER: nat := 12
  const DELETION_TAG: byte := 0
  const VALUE_TAG: byte := 1

  // ------------------------------------------------------------------------- varints

  /** Seven bits a byte, lowest first; the top bit says that more follow. */
  function Varint(v: nat): (s: seq<byte>)
    ensures s != []
  {
    if v < 128 then [v as byte] else [(v % 128 + 128) as byte] + Varint(v / 128)
  }

  /** The five cases of `EncodeVarint32`. */
  method EncodeVarint32(v: nat) returns (s: seq<byte>)
    requires v < TWO_32
    ensures s == Varint(v)
  {
    var v1, v2, v3, v4 := v / 128, v / 16384, v / 2097152, v / 268435456;
    assert v1 / 128 == v2 && v2 / 128 == v3 && v3 / 128 == v4;
    if v < 128 {
      s := [v as byte];
    } else if v < 16384 {
      s := [(v % 128 + 128) as byte, v1 as byte];
    } else if v < 2097152 {
      s := [(v % 128 + 128) as byte, (v1 % 128 + 128) as byte, v2 as byte];
    } else if v < 268435456 {
      s := [(v % 128 + 128) as byte, (v1 % 128 + 128) as byte, (v2 % 128 + 128) as byte, v3 as byte];
    } else {
      s := [(v % 128 + 128) as byte, (v1 % 128 + 128) as byte, (v2 % 128 + 128) as byte, (v3 % 128 + 128) as byte, v4 as byte];
    }
    VarintFive(v, v1, v2, v3, v4);
  }

  lemma VarintFive(v: nat, v1: nat, v2: nat, v3: nat, v4: nat)
    requires v < TWO_32 && v1 == v / 128 && v2 == v1 / 128 && v3 == v2 / 128 && v4 == v3 / 128
    ensures Varint(v) ==
            if v < 128 then [v as byte]
            else if v1 < 128 then [(v % 128 + 128) as byte, v1 as byte]
            else if v2 < 128 then [(v % 128 + 128) as byte, (v1 % 128 + 128) as byte, v2 as byte]
            else if v3 < 128 then [(v % 128 + 128) as byte, (v1 % 128 + 128) as byte, (v2 % 128 + 128) as byte, v3 as byte]
            else [(v % 128 + 128) as byte, (v1 % 128 + 128) as byte, (v2 % 128 + 128) as byte, (v3 % 128 + 128) as byte, v4 as byte]
  {
    assert v4 < 128;
    assert Varint(v4) == [v4 as byte];
    assert v3 >= 128 ==> Varint(v3) == [(v3 % 128 + 128) as byte, v4 as byte];
    assert v2 >= 128 ==> Varint(v2) == [(v2 % 128 + 128) as byte] + Varint(v3);
    assert v1 >= 128 ==> Varint(v1) == [(v1 % 128 + 128) as byte] + Varint(v2);
  }

  /** What is read from the bytes after `k` of at most five have been read, and the rest. */
  function ReadVarint(d: seq<byte>, k: nat): (r: Option<(nat, seq<byte>)>)
    ensures r.Some? ==> |r.value.1| < |d|
    decreases 5 - k
  {
    if k >= 5 || d == [] then None
    else if d[0] < 128 then Some((d[0] as nat, d[1..]))
    else
      match ReadVarint(d[1..], k + 1)
      case None => None
      case Some((v, rest)) => Some((d[0] as nat - 128 + 128 * v, rest))
  }

  /** `GetVarint32`: what goes over 32 bits is cut off. */
  function GetVarint32(d: seq<byte>): (r: Option<(nat, seq<byte>)>)
    ensures r.Some? ==> |r.value.1| < |d|
  {
    match ReadVarint(d, 0)
    case None => None
    case Some((v, rest)) => Some((v % TWO_32, rest))
  }

  function Pow128(k: nat): (p: nat)
    ensures p >= 1
  {
    if k == 0 then 1 else 128 * Pow128(k - 1)
  }

  lemma {:induction false} ReadVarintInverts(v: nat, k: nat, rest: seq<byte>)
    requires k < 5 && v < Pow128(5 - k)
    ensures ReadVarint(Varint(v) + rest, k) == Some((v, rest))
    decreases v
  {
    var d := Varint(v) + rest;
    if v < 128 {
      assert d[1..] == rest;
    } else {
      assert d[1..] == Varint(v / 128) + rest;
      assert k < 4 by {
        assert Pow128(1) == 128;
      }
      ReadVarintInverts(v / 128, k + 1, rest);
    }
  }

  lemma FiveBytesEnough()
    ensures Pow128(5) == 34359738368
  {
    assert Pow128(2) == 16384;
    assert Pow128(4) == 268435456;
  }

  lemma VarintRoundTrip(v: nat, rest: seq<byte>)
    requires v < TWO_32
    ensures GetVarint32(Varint(v) + rest) == Some((v, rest))
  {
    hide Varint, ReadVarint, Pow128;
    FiveBytesEnough();
    ReadVarintInverts(v, 0, rest);
  }

  /** What the bytes still to be read add to what the first `k` have given. */
  function Joined(low: nat, k: nat, r: Option<(nat, seq<byte>)>): Option<(nat, seq<byte>)> {
    match r
    case None => None
    case Some((v, rest)) => Some((low + Pow128(k) * v, rest))
  }

  lemma JoinedStep(low: nat, k: nat, d: seq<byte>)
    requires k < 5 && d != []
    ensures d[0] >= 128 ==> Joined(low, k, ReadVarint(d, k)) == Joined(low + Pow128(k) * (d[0] as nat - 128), k + 1, ReadVarint(d[1..], k + 1))
    ensures d[0] < 128 ==> Joined(low, k, ReadVarint(d, k)) == Some((low + Pow128(k) * d[0] as nat, d[1..]))
  {
    if d[0] >= 128 && ReadVarint(d[1..], k + 1).Some? {
      var v := ReadVarint(d[1..], k + 1).value.0;
      Distribute(Pow128(k), d[0] as nat - 128, v);
    }
  }

  lemma Distribute(p: nat, b: nat, v: nat)
    ensures p * (b + 128 * v) == p * b + 128 * p * v
  {
  }

  /** The loop of `GetVarint32PtrFallback`. */
  method ReadVarint32(d: seq<byte>) returns (r: Option<(nat, seq<byte>)>)
    ensures r == GetVarint32(d)
  {
    hide ReadVarint, Pow128;
    var result: nat, weight: nat, k: nat := 0, 1, 0;
    JoinedStart(d);
    while k < 5 && k < |d|
      invariant k <= 5 && k <= |d| && weight == Pow128(k)
      invariant Joined(result, k, ReadVarint(d[k..], k)) == ReadVarint(d, 0)
    {
      var b := d[k] as nat;
      JoinedStep(result, k, d[k..]);
      assert d[k..][1..] == d[k + 1..];
      NonNegative(weight, if b >= 128 then b - 128 else b);
      if b >= 128 {
        result := result + weight * (b - 128);
      } else {
        return Some(((result + weight * b) % TWO_32, d[k + 1..]));
      }
      NextWeight(k);
      weight, k := 128 * weight, k + 1;
    }
    NothingToRead(d[k..], k);
    r := None;
  }

  lemma NonNegative(a: nat, b: nat)
    ensures a * b >= 0
  {
  }

  lemma JoinedStart(d: seq<byte>)
    ensures Pow128(0) == 1 && Joined(0, 0, ReadVarint(d[0..], 0)) == ReadVarint(d, 0)
  {
    assert d[0..] == d;
  }

  lemma NextWeight(k: nat)
    ensures Pow128(k + 1) == 128 * Pow128(k)
  {
  }

  lemma NothingToRead(d: seq<byte>, k: nat)
    requires k >= 5 || d == []
    ensures ReadVarint(d, k) == None
  {
  }

  // ------------------------------------------------------------------------ operations

  function LengthPrefixed(s: seq<byte>): seq<byte> {
    Varint(|s|) + s
  }

  /** `GetLengthPrefixedSlice`. */
  function GetLengthPrefixed(d: seq<byte>): (r: Option<(seq<byte>, seq<byte>)>)
    ensures r.Some? ==> |r.value.1| < |d|
  {
    match GetVarint32(d)
    case None => None
    case Some((n, rest)) => if n <= |rest| then Some((rest[..n], rest[n..])) else None
  }

  lemma LengthPrefixedRoundTrip(s: seq<byte>, rest: seq<byte>)
    requires |s| < TWO_32
    ensures GetLengthPrefixed(LengthPrefixed(s) + rest) == Some((s, rest))
  {
    assert LengthPrefixed(s) + rest == Varint(|s|) + (s + rest);
    VarintRoundTrip(|s|, s + rest);
    assert (s + rest)[..|s|] == s && (s + rest)[|s|..] == rest;
  }

  function EncOp(op: Op): seq<byte> {
    match op
    case Put(key, value) => [VALUE_TAG] + LengthPrefixed(key) + LengthPrefixed(value)
    case Delete(key) => [DELETION_TAG] + LengthPrefixed(key)
  }

  function EncOps(ops: seq<Op>): seq<byte> {
    if ops == [] then [] else EncOp(ops[0]) + EncOps(ops[1..])
  }

  lemma {:induction false} EncOpsConcat(a: seq<Op>, b: seq<Op>)
    ensures EncOps(a + b) == EncOps(a) + EncOps(b)
  {
    if a == [] {
      assert a + b == b;
    } else {
      assert (a + b)[1..] == a[1..] + b;
      EncOpsConcat(a[1..], b);
    }
  }

  /** One operation off the front, or nothing if it is malformed. */
  function GetOp(d: seq<byte>): (r: Option<(Op, seq<byte>)>)
    requires d != []
    ensures r.Some? ==> |r.value.1| < |d|
  {
    if d[0] == VALUE_TAG then
      match GetLengthPrefixed(d[1..])
      case None => None
      case Some((key, more)) =>
        (match GetLengthPrefixed(more)
         case None => None
         case Some((value, rest)) => Some((Put(key, value), rest)))
    else if d[0] == DELETION_TAG then
      match GetLengthPrefixed(d[1..])
      case None => None
      case Some((key, rest)) => Some((Delete(key), rest))
    else None
  }

  predicate OpFits(op: Op) {
    |op.key| < TWO_32 && (op.Put? ==> |op.value| < TWO_32)
  }

  lemma OpRoundTrip(op: Op, rest: seq<byte>)
    requires OpFits(op)
    ensures EncOp(op) + rest != [] && GetOp(EncOp(op) + rest) == Some((op, rest))
  {
    hide LengthPrefixed, GetLengthPrefixed;
    var d := EncOp(op) + rest;
    match op
    case Put(key, value) =>
      assert d[1..] == LengthPrefixed(key) + (LengthPrefixed(value) + rest);
      LengthPrefixedRoundTrip(key, LengthPrefixed(value) + rest);
      LengthPrefixedRoundTrip(value, rest);
    case Delete(key) =>
      assert d[1..] == LengthPrefixed(key) + rest;
      LengthPrefixedRoundTrip(key, rest);
  }

  /** The operations that `Iterate` hands out, and whether it got to the end. */
  function Handed(d: seq<byte>): (seq<Op>, bool)
    decreases |d|
  {
    if d == [] then ([], true) else
      match GetOp(d)
      case None => ([], false)
      case Some((op, rest)) => var (ops, whole) := Handed(rest); ([op] + ops, whole)
  }

  predicate AllFit(ops: seq<Op>) {
    forall i :: 0 <= i < |ops| ==> OpFits(ops[i])
  }

  lemma {:induction false} HandedAll(ops: seq<Op>)
    requires AllFit(ops)
    ensures Handed(EncOps(ops)) == (ops, true)
  {
    hide GetOp, EncOp, OpFits;
    if ops != [] {
      assert forall i :: 0 <= i < |ops[1..]| ==> ops[1..][i] == ops[i + 1];
      HandedAll(ops[1..]);
      OpRoundTrip(ops[0], EncOps(ops[1..]));
      assert ops == [ops[0]] + ops[1..];
    }
  }

  // ------------------------------------------------------------------------ whole batches

  /** The bytes of a batch. */
  function Contents(r: Record): (d: seq<byte>)
    ensures |d| >= BATCH_HEADER
  {
    LittleEndian(r.first, 8) + LittleEndian(|r.ops|, 4) + EncOps(r.ops)
  }

  function Sequence(d: seq<byte>): nat
    requires |d| >= BATCH_HEADER
  {
    FromLittleEndian(d[..8])
  }

  /** The count, as the signed number it is compared as. */
  function Count(d: seq<byte>): int
    requires |d| >= BATCH_HEADER
  {
    var n := FromLittleEndian(d[8..12]);
    if n < TWO_31 then n else n - TWO_32
  }

  predicate Storable(r: Record) {
    r.first < TWO_64 && |r.ops| < TWO_31 && AllFit(r.ops)
  }

  lemma Fixed32(n: nat)
    requires n < TWO_32
    ensures FromLittleEndian(LittleEndian(n, 4)) == n
  {
    assert Pow256(2) == 0x1_0000;
    assert Pow256(4) == TWO_32;
    FromLittleEndianInverts(n, 4);
  }

  /** A batch reads back: its number, its count, and its operations. */
  lemma ContentsRoundTrip(r: Record)
    requires Storable(r)
    ensures var d := Contents(r);
            Sequence(d) == r.first && Count(d) == |r.ops| && Handed(d[BATCH_HEADER..]) == (r.ops, true)
  {
    hide LittleEndian, FromLittleEndian, Handed, EncOps, AllFit, Pow256;
    var d := Contents(r);
    assert d[..8] == LittleEndian(r.first, 8) && d[8..12] == LittleEndian(|r.ops|, 4) && d[12..] == EncOps(r.ops);
    Pow256Of8();
    FromLittleEndianInverts(r.first, 8);
    Fixed32(|r.ops|);
    HandedAll(r.ops);
  }

  /** Different storable batches have different bytes. */
  lemma ContentsInjective(a: Record, b: Record)
    requires Storable(a) && Storable(b) && Contents(a) == Contents(b)
    ensures a == b
  {
    hide Contents, Storable, Handed;
    ContentsRoundTrip(a);
    ContentsRoundTrip(b);
  }

  /** The batch as it is built up. */
  class WriteBatch {
    var rep: seq<byte>
    ghost var first: nat
    ghost var ops: seq<Op>

    ghost predicate Valid()
      reads this
    {
      rep == Contents(Record(first, ops))
    }

    constructor ()
      ensures Valid() && first == 0 && ops == []
    {
      rep, first, ops := seq(BATCH_HEADER, _ => 0), 0, [];
      new;
      EmptyContents();
    }

    method SetCount(n: nat)
      requires |rep| >= BATCH_HEADER
      modifies `rep
      ensures rep == old(rep)[..8] + LittleEndian(n, 4) + old(rep)[12..]
    {
      rep := rep[..8] + LittleEndian(n, 4) + rep[12..];
    }

    method SetSequence(n: nat)
      requires Valid()
      modifies this
      ensures Valid() && first == n && ops == old(ops)
    {
      hide LittleEndian, EncOps;
      rep := LittleEndian(n, 8) + rep[8..];
      first := n;
    }

    /** An operation goes to the end, and the count goes up. */
    method AddOp(op: Op)
      requires Valid() && |ops| + 1 < TWO_31
      modifies this
      ensures Valid() && first == old(first) && ops == old(ops) + [op]
    {
      hide LittleEndian, FromLittleEndian, EncOps, EncOp;
      CountOf(Record(first, ops));
      SetCount(Count(rep) + 1);
      rep := rep + EncOp(op);
      ops := ops + [op];
      MoreOps(first, old(ops), [op], |old(ops)| + 1);
      OneOp(op);
    }

    /** `Append`: the operations of the other batch behind those of this one. */
    method Append(src: WriteBatch)
      requires Valid() && src.Valid() && |ops| + |src.ops| < TWO_31
      modifies this
      ensures Valid() && first == old(first) && ops == old(ops) + old(src.ops)
    {
      hide LittleEndian, FromLittleEndian, EncOps;
      CountOf(Record(first, ops));
      CountOf(Record(src.first, src.ops));
      var more := src.rep[BATCH_HEADER..];
      ghost var added := src.ops;
      SetCount(Count(rep) + Count(src.rep));
      rep := rep + more;
      ops := ops + added;
      MoreOps(first, old(ops), added, |old(ops)| + |added|);
    }

    /** Hands out the operations in order, up to a malformed one; succeeds if there is none and the count is right. */
    method Iterate() returns (handed: seq<Op>, ok: bool)
      ensures |rep| < BATCH_HEADER ==> handed == [] && !ok
      ensures |rep| >= BATCH_HEADER ==>
                var (all, whole) := Handed(rep[BATCH_HEADER..]); handed == all && (ok <==> whole && |all| == Count(rep))
    {
      hide GetOp;
      handed := [];
      if |rep| < BATCH_HEADER {
        return [], false;
      }
      var input := rep[BATCH_HEADER..];
      assert [] + Handed(input).0 == Handed(input).0;
      while input != []
        invariant var (all, whole) := Handed(rep[BATCH_HEADER..]); (all, whole) == (handed + Handed(input).0, Handed(input).1)
        decreases |input|
      {
        var next := GetOp(input);
        if next.None? {
          assert handed + [] == handed;
          return handed, false;
        }
        assert handed + ([next.value.0] + Handed(next.value.1).0) == handed + [next.value.0] + Handed(next.value.1).0;
        handed, input := handed + [next.value.0], next.value.1;
      }
      assert handed + [] == handed;
      ok := |handed| == Count(rep);
    }
  }

  lemma EmptyContents()
    ensures seq(BATCH_HEADER, _ => 0 as byte) == Contents(Record(0, []))
  {
    Zeros(8);
    Zeros(4);
    assert seq(8, _ => 0 as byte) + seq(4, _ => 0 as byte) + [] == seq(12, _ => 0 as byte);
  }

  lemma {:induction false} Zeros(k: nat)
    ensures LittleEndian(0, k) == seq(k, _ => 0 as byte)
  {
    if k > 0 {
      Zeros(k - 1);
    }
  }

  lemma CountOf(r: Record)
    requires |r.ops| < TWO_31
    ensures Count(Contents(r)) == |r.ops|
  {
    hide LittleEndian, FromLittleEndian, EncOps;
    assert Contents(r)[8..12] == LittleEndian(|r.ops|, 4);
    Fixed32(|r.ops|);
  }

  lemma OneOp(op: Op)
    ensures EncOps([op]) == EncOp(op)
  {
    assert EncOps([op]) == EncOp(op) + [];
  }

  lemma MoreOps(first: nat, a: seq<Op>, b: seq<Op>, n: nat)
    requires n == |a| + |b|
    ensures var d := Contents(Record(first, a)); d[..8] + LittleEndian(n, 4) + d[12..] + EncOps(b) == Contents(Record(first, a + b))
    ensures Contents(Record(first, b))[BATCH_HEADER..] == EncOps(b)
  {
    hide LittleEndian, EncOps;
    EncOpsConcat(a, b);
    var d := Contents(Record(first, a));
    assert d[..8] == LittleEndian(first, 8) && d[12..] == EncOps(a);
  }
}
