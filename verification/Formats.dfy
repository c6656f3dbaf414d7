/**
 * The byte formats in numbers: what the encodings of the other modules look like, byte by
 * byte.
 */
module Formats {
  import opened Bytes
  import opened Lex
  import opened Rlp
  import opened HexPrefix
  import opened DbFormat
  import GroupCommit
  import WriteBatches
  import LogFormat

  // ---------- RLP ----------

  lemma ShortBigEndian(n: nat)
    requires 0 < n < 65536
    ensures BigEndian(n) == if n < 256 then [n as byte] else [(n / 256) as byte, (n % 256) as byte]
  {
    assert BigEndian(n) == BigEndian(n / 256) + [(n % 256) as byte];
    if n >= 256 {
      assert BigEndian(n / 256) == BigEndian(0) + [(n / 256) as byte];
    }
  }

  /** The header of a payload of up to 65535 bytes: 0x80 for strings or 0xc0 for lists and the length up to 55, and then the length in one byte or two. */
  lemma HeaderInNumbers(n: nat)
    requires n < 65536
    ensures Header(n, 0x80) == if n < 56 then [(0x80 + n) as byte] else if n < 256 then [0xb8, n as byte] else [0xb9, (n / 256) as byte, (n % 256) as byte]
    ensures Header(n, 0xc0) == if n < 56 then [(0xc0 + n) as byte] else if n < 256 then [0xf8, n as byte] else [0xf9, (n / 256) as byte, (n % 256) as byte]
  {
    if n >= 56 {
      ShortBigEndian(n);
    }
    hide BigEndian;
  }

  /** Strings and lists of up to 255 bytes: a byte below 0x80 is itself, and everything else goes behind 0x80 or 0xc0 and its length, or 0xb8 or 0xf8 and its length. */
  lemma EncInNumbers(s: seq<byte>, xs: seq<Item>)
    requires |s| < 256 && |EncAll(xs)| < 256
    ensures Enc(Str(s)) ==
            if |s| == 1 && s[0] < 0x80 then s else (if |s| < 56 then [(0x80 + |s|) as byte] else [0xb8, |s| as byte]) + s
    ensures Enc(List(xs)) == (if |EncAll(xs)| < 56 then [(0xc0 + |EncAll(xs)|) as byte] else [0xf8, |EncAll(xs)| as byte]) + EncAll(xs)
  {
    hide Header, EncAll;
    HeaderInNumbers(|s|);
    HeaderInNumbers(|EncAll(xs)|);
  }

  // ---------- Hex prefix ----------

  lemma {:induction false} PackAt(ns: seq<byte>, i: nat)
    requires |ns| % 2 == 0 && IsNibbles(ns) && i < |ns| / 2
    ensures Pack(ns)[i] == ns[2 * i] * 16 + ns[2 * i + 1]
  {
    var n := |ns| - 2;
    if i == n / 2 {
      assert 2 * i == n;
    } else {
      PackAt(ns[..n], i);
    }
  }

  /** The first byte: 0x00 or 0x20 before an even number of nibbles, and 0x10 or 0x30 with the first nibble of an odd number. */
  lemma HexInNumbers(ns: seq<byte>, leaf: bool)
    requires IsNibbles(ns)
    ensures |HexEncode(ns, leaf)| == |ns| / 2 + 1
    ensures HexEncode(ns, leaf)[0] == (if leaf then 0x20 else 0x00) + (if |ns| % 2 == 1 then 0x10 + ns[0] else 0)
    ensures forall i :: 0 < i <= |ns| / 2 ==> HexEncode(ns, leaf)[i] == ns[2 * i - 2 + |ns| % 2] * 16 + ns[2 * i - 1 + |ns| % 2]
  {
    hide Pack, Flags;
    var odd := |ns| % 2;
    var all := Flags(odd == 1, leaf) + ns;
    FlagsAt(ns, leaf, all);
    PackAt(all, 0);
    forall i | 0 < i <= |ns| / 2 ensures Pack(all)[i] == ns[2 * i - 2 + odd] * 16 + ns[2 * i - 1 + odd] {
      PackAt(all, i);
    }
  }

  lemma FlagsAt(ns: seq<byte>, leaf: bool, all: seq<byte>)
    requires IsNibbles(ns) && all == Flags(|ns| % 2 == 1, leaf) + ns
    ensures IsNibbles(all) && |all| == |ns| + 2 - |ns| % 2
    ensures all[0] == (if leaf then 2 else 0) + (if |ns| % 2 == 1 then 1 else 0)
    ensures all[1] == if |ns| % 2 == 1 then ns[0] else 0
    ensures forall k :: 2 <= k < |all| ==> all[k] == ns[k - 2 + |ns| % 2]
  {
  }

  // ---------- Internal keys ----------

  lemma TagInNumbers(sequence: nat, kind: byte)
    requires sequence < 0x100_0000 && kind <= 1
    ensures LittleEndian(sequence * 256 + kind as nat, 8) ==
            [kind, (sequence % 256) as byte, (sequence / 256 % 256) as byte, (sequence / 65536) as byte, 0, 0, 0, 0]
  {
    var t := sequence * 256 + kind as nat;
    assert t % 256 == kind as nat && t / 256 == sequence;
    assert LittleEndian(0, 1) == [0] + [];
    assert LittleEndian(0, 2) == [0] + LittleEndian(0, 1);
    assert LittleEndian(0, 3) == [0] + LittleEndian(0, 2);
    assert LittleEndian(0, 4) == [0] + LittleEndian(0, 3);
    assert LittleEndian(sequence / 65536, 5) == [(sequence / 65536) as byte] + LittleEndian(0, 4);
    assert LittleEndian(sequence / 256, 6) == [(sequence / 256 % 256) as byte] + LittleEndian(sequence / 65536, 5);
    assert LittleEndian(sequence, 7) == [(sequence % 256) as byte] + LittleEndian(sequence / 256, 6);
  }

  /** The user key, the type, 1 for a value and 0 for a deletion, and the sequence number, lowest byte first. */
  lemma KeyInNumbers(user: seq<byte>, sequence: nat, kind: ValueType)
    requires sequence < 0x100_0000
    ensures Append(ParsedKey(user, sequence, kind)) ==
            user + [if kind.Value? then 1 else 0, (sequence % 256) as byte, (sequence / 256 % 256) as byte, (sequence / 65536) as byte, 0, 0, 0, 0]
  {
    TagInNumbers(sequence, if kind.Value? then 1 else 0);
    hide LittleEndian;
  }

  /** A read gives the visible entry with the highest tag, and nothing if none is visible. */
  lemma {:induction false} ReadIsNewest(es: seq<Entry>, k: seq<byte>, s: nat, i: nat)
    requires SortedEntries(es)
    ensures (forall j :: 0 <= j < |es| ==> !(es[j].Ok() && es[j].user == k && es[j].Sequence() <= s)) ==> Read(es, k, s) == Absent
    ensures i < |es| && es[i].Ok() && es[i].user == k && es[i].Sequence() <= s &&
            (forall j :: 0 <= j < |es| && es[j].Ok() && es[j].user == k && es[j].Sequence() <= s ==> es[j].tag <= es[i].tag) ==>
              Read(es, k, s) == if es[i].IsDeletion() then Deleted else Present(es[i].value)
  {
    if es != [] {
      LessIrreflexive(k);
      if i > 0 && i < |es| {
        assert Before(es[0], es[i]);
      }
      hide Less;
      assert forall j :: 0 <= j < |es[1..]| ==> es[1..][j] == es[j + 1];
      ReadIsNewest(es[1..], k, s, if i > 0 then i - 1 else |es|);
    }
  }

  // ---------- Write batches ----------

  lemma FixedInNumbers(n: nat)
    requires n < 256
    ensures LittleEndian(n, 4) == [n as byte, 0, 0, 0] && LittleEndian(n, 8) == [n as byte, 0, 0, 0, 0, 0, 0, 0]
  {
    assert LittleEndian(0, 1) == [0] + [];
    assert LittleEndian(0, 2) == [0] + LittleEndian(0, 1);
    assert LittleEndian(0, 3) == [0] + LittleEndian(0, 2);
    assert LittleEndian(0, 5) == [0] + ([0] + LittleEndian(0, 3));
    assert LittleEndian(0, 7) == [0] + ([0] + LittleEndian(0, 5));
  }

  lemma VarintInNumbers(v: nat)
    requires v < 16384
    ensures WriteBatches.Varint(v) == if v < 128 then [v as byte] else [(v % 128 + 128) as byte, (v / 128) as byte]
  {
  }

  /** A length that does not end within five bytes is refused, and so is one cut off before its end. */
  lemma VarintRefused(d: seq<byte>)
    requires (forall i :: 0 <= i < |d| && i < 5 ==> d[i] >= 128)
    ensures WriteBatches.GetVarint32(d) == None
  {
    VarintGoesOn(d, 0);
  }

  lemma {:induction false} VarintGoesOn(d: seq<byte>, k: nat)
    requires k <= 5 && forall i :: 0 <= i < |d| && i < 5 - k ==> d[i] >= 128
    ensures WriteBatches.ReadVarint(d, k) == None
    decreases 5 - k
  {
    if k < 5 && d != [] {
      assert d[0] >= 128;
      assert forall i :: 0 <= i < |d[1..]| && i < 4 - k ==> d[1..][i] == d[i + 1];
      VarintGoesOn(d[1..], k + 1);
    }
  }

  /** An operation with a tag other than 0 and 1 stops the reading of a batch, whatever follows. */
  lemma {:induction false} UnknownTagStops(ops: seq<GroupCommit.Op>, d: seq<byte>)
    requires WriteBatches.AllFit(ops) && d != [] && d[0] > 1
    ensures WriteBatches.Handed(WriteBatches.EncOps(ops) + d) == (ops, false)
  {
    hide WriteBatches.GetOp, WriteBatches.EncOp, WriteBatches.OpFits;
    if ops == [] {
      assert WriteBatches.EncOps(ops) + d == d;
      UnknownTag(d);
    } else {
      assert forall i :: 0 <= i < |ops[1..]| ==> ops[1..][i] == ops[i + 1];
      UnknownTagStops(ops[1..], d);
      var rest := WriteBatches.EncOps(ops[1..]) + d;
      assert WriteBatches.EncOps(ops) + d == WriteBatches.EncOp(ops[0]) + rest;
      WriteBatches.OpRoundTrip(ops[0], rest);
      assert ops == [ops[0]] + ops[1..];
    }
  }

  lemma UnknownTag(d: seq<byte>)
    requires d != [] && d[0] > 1
    ensures WriteBatches.GetOp(d) == None
  {
  }

  /** A batch with number 5 that puts a key and deletes another. */
  lemma BatchExample()
    ensures WriteBatches.Contents(GroupCommit.Record(5, [GroupCommit.Put([7], [8, 9]), GroupCommit.Delete([6])])) ==
            [5, 0, 0, 0, 0, 0, 0, 0, 2, 0, 0, 0, 1, 1, 7, 2, 8, 9, 0, 1, 6]
  {
    hide LittleEndian, WriteBatches.EncOp, WriteBatches.EncOps;
    var put, delete := GroupCommit.Put([7], [8, 9]), GroupCommit.Delete([6]);
    FixedInNumbers(5);
    FixedInNumbers(2);
    PutBytes(7, 8, 9);
    DeleteBytes(6);
    TwoOps(put, delete);
    assert [5, 0, 0, 0, 0, 0, 0, 0] + [2, 0, 0, 0] + ([1, 1, 7, 2, 8, 9] + [0, 1, 6]) ==
           [5, 0, 0, 0, 0, 0, 0, 0, 2, 0, 0, 0, 1, 1, 7, 2, 8, 9, 0, 1, 6];
  }

  lemma PutBytes(k: byte, a: byte, b: byte)
    ensures WriteBatches.EncOp(GroupCommit.Put([k], [a, b])) == [1, 1, k, 2, a, b]
  {
    assert WriteBatches.LengthPrefixed([k]) == [1, k];
    assert WriteBatches.LengthPrefixed([a, b]) == [2, a, b];
  }

  lemma DeleteBytes(k: byte)
    ensures WriteBatches.EncOp(GroupCommit.Delete([k])) == [0, 1, k]
  {
    assert WriteBatches.LengthPrefixed([k]) == [1, k];
  }

  lemma TwoOps(a: GroupCommit.Op, b: GroupCommit.Op)
    ensures WriteBatches.EncOps([a, b]) == WriteBatches.EncOp(a) + WriteBatches.EncOp(b)
  {
    hide WriteBatches.EncOp;
    assert [a, b][1..] == [b] && [b][1..] == [];
    assert WriteBatches.EncOps([b]) == WriteBatches.EncOp(b) + [];
  }

  // ---------- The log ----------

  /** A physical record: four bytes of masked checksum over type and payload, the length, lowest byte first, the type and the payload. */
  lemma PhysicalInNumbers(kind: byte, payload: seq<byte>, sum: LogFormat.Checksum)
    requires |payload| < 65536
    ensures LogFormat.Emit(LogFormat.Chunk(kind, payload), sum) ==
            LittleEndian(sum.mask(sum.Value([kind] + payload)), 4) + [(|payload| % 256) as byte, (|payload| / 256) as byte, kind] + payload
  {
    hide LittleEndian;
    sum.ExtendSplit(0, kind, payload);
  }

  /**
   * Where a record is cut.  In a block of 32768 bytes with fewer than 7 left, zeros fill it and
   * the record starts in the next.  A record that fits behind its header of 7 bytes is one
   * physical record of type 1; otherwise what fits is one of type 2, what fills a further block
   * one of type 3, and the rest one of type 4.
   */
  lemma CutInNumbers(offset: nat, left: seq<byte>, begin: bool)
    requires offset <= 32768
    ensures LogFormat.Trailer(offset) == if 32768 - offset < 7 then seq(32768 - offset, _ => 0 as byte) else []
    ensures var room := if 32768 - offset < 7 then 32761 else 32768 - offset - 7;
            var c := LogFormat.Fragment(offset, left, begin);
            if |left| <= room then c == LogFormat.Chunk(if begin then 1 else 4, left)
            else c == LogFormat.Chunk(if begin then 2 else 3, left[..room])
  {
    assert left[..|left|] == left;
  }
}
