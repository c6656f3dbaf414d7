/** Bytes, and the big-endian numbers that RLP headers and integers are made of. */
module Bytes {

  newtype byte = b: int | 0 <= b < 256

  datatype Option<+T> = None | Some(value: T)

  const TWO_64: nat := 0x1_0000_0000_0000_0000

  /** The shortest big-endian form of `n`; zero is the empty sequence. */
  function BigEndian(n: nat): (s: seq<byte>)
    ensures n == 0 <==> s == []
    ensures s != [] ==> s[0] != 0
  {
    if n == 0 then [] else BigEndian(n / 256) + [(n % 256) as byte]
  }

  function FromBigEndian(s: seq<byte>): nat {
    if s == [] then 0 else FromBigEndian(s[..|s| - 1]) * 256 + s[|s| - 1] as nat
  }

  function Pow256(k: nat): (p: nat)
    ensures p >= 1
  {
    if k == 0 then 1 else 256 * Pow256(k - 1)
  }

  lemma {:induction false} FromBigEndianInverts(n: nat)
    ensures FromBigEndian(BigEndian(n)) == n
  {
    if n != 0 {
      FromBigEndianInverts(n / 256);
      assert BigEndian(n)[..|BigEndian(n)| - 1] == BigEndian(n / 256);
    }
  }

  /** Every sequence without a leading zero is the shortest form of its number. */
  lemma {:induction false} BigEndianInverts(s: seq<byte>)
    requires s == [] || s[0] != 0
    ensures BigEndian(FromBigEndian(s)) == s
  {
    if s != [] {
      var front := s[..|s| - 1];
      BigEndianInverts(front);
      if front == [] {
        assert FromBigEndian(s) == s[0] as nat;
      } else {
        FromBigEndianPositive(front);
      }
      assert s == front + [s[|s| - 1]];
    }
  }

  lemma {:induction false} FromBigEndianPositive(s: seq<byte>)
    requires s != [] && s[0] != 0
    ensures FromBigEndian(s) > 0
  {
    if |s| > 1 { FromBigEndianPositive(s[..|s| - 1]); }
  }

  /** A number needs at most `k` bytes exactly when it is below 256^k. */
  lemma {:induction false} BigEndianSize(n: nat, k: nat)
    ensures |BigEndian(n)| <= k <==> n < Pow256(k)
  {
    if n != 0 && k != 0 {
      BigEndianSize(n / 256, k - 1);
      assert n < 256 * Pow256(k - 1) <==> n / 256 < Pow256(k - 1);
    }
  }

  lemma BigEndianSize64(n: nat)
    ensures |BigEndian(n)| <= 8 <==> n < TWO_64
  {
    BigEndianSize(n, 8);
    assert Pow256(2) == 0x1_0000;
    assert Pow256(4) == 0x1_0000_0000;
    assert Pow256(6) == 0x1_0000_0000_0000;
    assert Pow256(8) == TWO_64;
  }

  /** Exactly `k` bytes, least significant first, as PutFixed32 and PutFixed64 write them. */
  function LittleEndian(n: nat, k: nat): (s: seq<byte>)
    ensures |s| == k
  {
    if k == 0 then [] else [(n % 256) as byte] + LittleEndian(n / 256, k - 1)
  }

  function FromLittleEndian(s: seq<byte>): nat {
    if s == [] then 0 else s[0] as nat + 256 * FromLittleEndian(s[1..])
  }

  lemma {:induction false} FromLittleEndianInverts(n: nat, k: nat)
    requires n < Pow256(k)
    ensures FromLittleEndian(LittleEndian(n, k)) == n
  {
    if k > 0 { FromLittleEndianInverts(n / 256, k - 1); }
  }

  lemma {:induction false} LittleEndianInverts(s: seq<byte>)
    ensures LittleEndian(FromLittleEndian(s), |s|) == s
    ensures FromLittleEndian(s) < Pow256(|s|)
  {
    if s != [] {
      LittleEndianInverts(s[1..]);
      assert s == [s[0]] + s[1..];
    }
  }

  lemma Pow256Of8()
    ensures Pow256(8) == TWO_64
  {
    BigEndianSize64(0);
    assert Pow256(2) == 0x1_0000;
    assert Pow256(4) == 0x1_0000_0000;
    assert Pow256(6) == 0x1_0000_0000_0000;
  }
}
