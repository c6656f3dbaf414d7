/** The log file format (database/leveldb/db/log_format.h, log_writer.cc, log_reader.cc): records are
    cut into physical records that never cross a 32 KiB block. */
module LogFormat {
  import opened Bytes

  const BLOCK_SIZE: nat := 32768
  const HEADER_SIZE: nat := 7

  const FULL: byte := 1
  const FIRST: byte := 2
  const MIDDLE: byte := 3
  const LAST: byte := 4

  const TWO_32: nat := 0x1_0000_0000

  /** crc32c is not part of this model: any checksum that folds over the bytes and is stored under an
      invertible mask. */
  datatype Checksum = Checksum(step: (nat, byte) -> nat, mask: nat -> nat, unmask: nat -> nat) {
    ghost predicate Good() {
      forall x: nat :: x < TWO_32 ==> mask(x) < TWO_32 && unmask(mask(x)) == x
    }

    function Extend(crc: nat, d: seq<byte>): (r: nat)
      ensures crc < TWO_32 ==> r < TWO_32
      decreases d
    {
      if d == [] then crc else Extend(step(crc, d[0]) % TWO_32, d[1..])
    }

    function Value(d: seq<byte>): nat { Extend(0, d) }

    /** The writer folds the type first and then the payload; the reader folds both at once. */
    lemma {:induction false} ExtendSplit(crc: nat, t: byte, d: seq<byte>)
      ensures Extend(Extend(crc, [t]), d) == Extend(crc, [t] + d)
    {
      assert ([t] + d)[1..] == d && [t][1..] == [];
    }
  }

  /** A physical record. */
  datatype Chunk = Chunk(kind: byte, payload: seq<byte>)

  /** `EmitPhysicalRecord`: checksum, length, type, payload. */
  function Emit(c: Chunk, sum: Checksum): seq<byte> {
    LittleEndian(sum.mask(sum.Extend(sum.Value([c.kind]), c.payload)), 4)
    + [(|c.payload| % 256) as byte, (|c.payload| / 256 % 256) as byte, c.kind]
    + c.payload
  }

  /** Fewer bytes than a header are left in the block. */
  predicate NeedsNewBlock(offset: nat) { offset + HEADER_SIZE > BLOCK_SIZE }

  /** The zero bytes that fill the rest of such a block. */
  function Trailer(offset: nat): seq<byte> {
    if NeedsNewBlock(offset) && offset < BLOCK_SIZE then seq(BLOCK_SIZE - offset, _ => 0 as byte) else []
  }

  /** Where in its block the next physical record starts. */
  function StartOffset(offset: nat): (o: nat)
    ensures o + HEADER_SIZE <= BLOCK_SIZE
  {
    if NeedsNewBlock(offset) then 0 else offset
  }

  function Available(offset: nat): nat { BLOCK_SIZE - HEADER_SIZE - StartOffset(offset) }

  function NextOffset(offset: nat, c: Chunk): nat { StartOffset(offset) + HEADER_SIZE + |c.payload| }

  /** The bytes of physical records written from block offset `offset` on. */
  function Layout(offset: nat, cs: seq<Chunk>, sum: Checksum): seq<byte>
    decreases cs
  {
    if cs == [] then []
    else Trailer(offset) + Emit(cs[0], sum) + Layout(NextOffset(offset, cs[0]), cs[1..], sum)
  }

  function EndOffset(offset: nat, cs: seq<Chunk>): nat
    decreases cs
  {
    if cs == [] then offset else EndOffset(NextOffset(offset, cs[0]), cs[1..])
  }

  /** Every physical record stays inside its block. */
  ghost predicate Fits(offset: nat, cs: seq<Chunk>)
    decreases cs
  {
    cs != [] ==>
      && |cs[0].payload| <= Available(offset) && FULL <= cs[0].kind <= LAST
      && Fits(NextOffset(offset, cs[0]), cs[1..])
  }

  // ---------- Cutting a record ----------

  function KindOf(begin: bool, end: bool): byte {
    if begin && end then FULL else if begin then FIRST else if end then LAST else MIDDLE
  }

  function FragmentSize(offset: nat, left: nat): nat {
    if left < Available(offset) then left else Available(offset)
  }

  /** The first fragment of what is left of a record. */
  function Fragment(offset: nat, data: seq<byte>, begin: bool): Chunk {
    var n := FragmentSize(offset, |data|);
    Chunk(KindOf(begin, n == |data|), data[..n])
  }

  /** `AddRecord`: the physical records of `data`; at least one, even for an empty record. */
  function Fragments(offset: nat, data: seq<byte>, begin: bool): seq<Chunk>
    decreases |data|, Available(offset) == 0
  {
    var c := Fragment(offset, data, begin);
    if |c.payload| == |data| then [c]
    else [c] + Fragments(NextOffset(offset, c), data[|c.payload|..], false)
  }

  function ChunksOf(offset: nat, rs: seq<seq<byte>>): seq<Chunk>
    decreases rs
  {
    if rs == [] then []
    else
      var cs := Fragments(offset, rs[0], true);
      cs + ChunksOf(EndOffset(offset, cs), rs[1..])
  }

  /** The file that a sequence of `AddRecord` calls leaves. */
  function LogOf(rs: seq<seq<byte>>, sum: Checksum): seq<byte> { Layout(0, ChunksOf(0, rs), sum) }

  // ---------- Facts ----------

  lemma {:induction false} LayoutAppend(offset: nat, a: seq<Chunk>, b: seq<Chunk>, sum: Checksum)
    ensures Layout(offset, a + b, sum) == Layout(offset, a, sum) + Layout(EndOffset(offset, a), b, sum)
    ensures EndOffset(offset, a + b) == EndOffset(EndOffset(offset, a), b)
    decreases a
  {
    hide Emit, NextOffset, Trailer;
    if a == [] {
      assert a + b == b;
    } else {
      assert (a + b)[1..] == a[1..] + b;
      LayoutAppend(NextOffset(offset, a[0]), a[1..], b, sum);
    }
  }

  lemma {:induction false} FitsAppend(offset: nat, a: seq<Chunk>, b: seq<Chunk>)
    requires Fits(offset, a) && Fits(EndOffset(offset, a), b)
    ensures Fits(offset, a + b)
    decreases a
  {
    hide NextOffset, Available;
    if a == [] {
      assert a + b == b;
    } else {
      assert (a + b)[1..] == a[1..] + b;
      FitsAppend(NextOffset(offset, a[0]), a[1..], b);
    }
  }

  lemma {:induction false} FragmentsFit(offset: nat, data: seq<byte>, begin: bool)
    ensures Fits(offset, Fragments(offset, data, begin))
    decreases |data|, Available(offset) == 0
  {
    var c := Fragment(offset, data, begin);
    if |c.payload| != |data| {
      FragmentsFit(NextOffset(offset, c), data[|c.payload|..], false);
    }
  }

  lemma {:induction false} ChunksFit(offset: nat, rs: seq<seq<byte>>)
    ensures Fits(offset, ChunksOf(offset, rs))
    decreases rs
  {
    if rs != [] {
      var cs := Fragments(offset, rs[0], true);
      FragmentsFit(offset, rs[0], true);
      ChunksFit(EndOffset(offset, cs), rs[1..]);
      FitsAppend(offset, cs, ChunksOf(EndOffset(offset, cs), rs[1..]));
    }
  }

  lemma {:induction false} ChunksAppend(offset: nat, a: seq<seq<byte>>, b: seq<seq<byte>>)
    ensures ChunksOf(offset, a + b) == ChunksOf(offset, a) + ChunksOf(EndOffset(offset, ChunksOf(offset, a)), b)
    decreases a
  {
    hide Fragments, EndOffset;
    if a == [] {
      assert a + b == b;
      EndOffsetNone(offset, ChunksOf(offset, a));
    } else {
      var cs := Fragments(offset, a[0], true);
      var rest := ChunksOf(EndOffset(offset, cs), a[1..]);
      assert (a + b)[1..] == a[1..] + b;
      ChunksAppend(EndOffset(offset, cs), a[1..], b);
      EndOffsetAppend(offset, cs, rest);
    }
  }

  lemma EndOffsetNone(offset: nat, cs: seq<Chunk>)
    requires cs == []
    ensures EndOffset(offset, cs) == offset
  {}

  lemma {:induction false} EndOffsetAppend(offset: nat, a: seq<Chunk>, b: seq<Chunk>)
    ensures EndOffset(offset, a + b) == EndOffset(EndOffset(offset, a), b)
    decreases a
  {
    hide NextOffset;
    if a == [] {
      assert a + b == b;
    } else {
      assert (a + b)[1..] == a[1..] + b;
      EndOffsetAppend(NextOffset(offset, a[0]), a[1..], b);
    }
  }

  /** Writing one record more adds its physical records at the end. */
  lemma LogSnoc(rs: seq<seq<byte>>, r: seq<byte>, sum: Checksum)
    ensures var o := EndOffset(0, ChunksOf(0, rs));
            && LogOf(rs + [r], sum) == LogOf(rs, sum) + Layout(o, Fragments(o, r, true), sum)
            && EndOffset(0, ChunksOf(0, rs + [r])) == EndOffset(o, Fragments(o, r, true))
  {
    var o := EndOffset(0, ChunksOf(0, rs));
    ChunksAppend(0, rs, [r]);
    ChunksOne(o, r);
    hide ChunksOf, Fragments, EndOffset, Layout;
    LayoutAppend(0, ChunksOf(0, rs), Fragments(o, r, true), sum);
  }

  lemma ChunksOne(offset: nat, r: seq<byte>)
    ensures ChunksOf(offset, [r]) == Fragments(offset, r, true)
  {
    hide Fragments, EndOffset;
    assert [r][1..] == [];
  }

  /** The log of the first records is the start of the whole log. */
  lemma LogPrefix(a: seq<seq<byte>>, b: seq<seq<byte>>, sum: Checksum)
    ensures LogOf(a + b, sum) == LogOf(a, sum) + Layout(EndOffset(0, ChunksOf(0, a)), ChunksOf(EndOffset(0, ChunksOf(0, a)), b), sum)
  {
    hide ChunksOf, EndOffset, Layout;
    ChunksAppend(0, a, b);
    LayoutAppend(0, ChunksOf(0, a), ChunksOf(EndOffset(0, ChunksOf(0, a)), b), sum);
  }

  // ---------- The writer ----------

  class LogWriter {
    var dest: seq<byte>
    var blockOffset: nat
    const sum: Checksum
    ghost var written: seq<seq<byte>>

    ghost predicate Valid() reads this {
      dest == LogOf(written, sum) && blockOffset == EndOffset(0, ChunksOf(0, written)) && blockOffset <= BLOCK_SIZE
    }

    constructor (c: Checksum)
      ensures Valid() && written == [] && dest == [] && sum == c
    {
      dest, blockOffset, sum, written := [], 0, c, [];
    }

    /** `EmitPhysicalRecord`. */
    method EmitPhysicalRecord(t: byte, payload: seq<byte>)
      requires |payload| <= 0xffff && blockOffset + HEADER_SIZE + |payload| <= BLOCK_SIZE
      modifies this`dest, this`blockOffset
      ensures dest == old(dest) + Emit(Chunk(t, payload), sum)
      ensures blockOffset == old(blockOffset) + HEADER_SIZE + |payload|
    {
      var n := |payload|;
      var crc := sum.mask(sum.Extend(sum.Value([t]), payload));
      var buf := LittleEndian(crc, 4) + [(n % 256) as byte, (n / 256 % 256) as byte, t];
      dest := dest + buf;
      dest := dest + payload;
      blockOffset := blockOffset + HEADER_SIZE + n;
    }

    /** `AddRecord`: fragments are emitted until nothing is left. */
    method AddRecord(data: seq<byte>)
      requires Valid()
      modifies this
      ensures Valid() && written == old(written) + [data]
    {
      hide LogOf, ChunksOf, EndOffset, Layout, Emit, Fragments;
      ghost var o0, d0, all := blockOffset, dest, Layout(blockOffset, Fragments(blockOffset, data, true), sum);
      LogSnoc(written, data, sum);
      var left := data;
      var begin := true;
      var more := true;
      assert dest + all == d0 + all;
      while more
        invariant blockOffset <= BLOCK_SIZE && written == old(written)
        invariant more ==> dest + Layout(blockOffset, Fragments(blockOffset, left, begin), sum) == d0 + all
        invariant more ==> EndOffset(blockOffset, Fragments(blockOffset, left, begin)) == EndOffset(o0, Fragments(o0, data, true))
        invariant !more ==> dest == d0 + all && blockOffset == EndOffset(o0, Fragments(o0, data, true))
        decreases more, |left|, Available(blockOffset) == 0
      {
        FragmentStep(blockOffset, left, begin, sum);
        ghost var offset, was := blockOffset, dest;
        ghost var c := Fragment(blockOffset, left, begin);
        var leftover := BLOCK_SIZE - blockOffset;
        if leftover < HEADER_SIZE {
          if leftover > 0 { dest := dest + seq(leftover, _ => 0 as byte); }
          blockOffset := 0;
        }
        assert dest == was + Trailer(offset) && blockOffset == StartOffset(offset);
        var avail := BLOCK_SIZE - blockOffset - HEADER_SIZE;
        var n := if |left| < avail then |left| else avail;
        var end := |left| == n;
        EmitPhysicalRecord(KindOf(begin, end), left[..n]);
        assert dest == was + Trailer(offset) + Emit(c, sum) && blockOffset == NextOffset(offset, c);
        Regroup(was, Trailer(offset), Emit(c, sum), Layout(blockOffset, Fragments(blockOffset, left[n..], false), sum));
        left := left[n..];
        begin := false;
        more := |left| > 0;
      }
      written := written + [data];
    }
  }

  lemma Regroup(w: seq<byte>, t: seq<byte>, e: seq<byte>, l: seq<byte>)
    ensures w + (t + e + l) == w + t + e + l
    ensures w + (t + e) == w + t + e
  {}

  /** One fragment, and the rest if there is more. */
  lemma FragmentStep(offset: nat, left: seq<byte>, begin: bool, sum: Checksum)
    ensures var c := Fragment(offset, left, begin);
            var fs := Fragments(offset, left, begin);
            var rest := Fragments(NextOffset(offset, c), left[|c.payload|..], false);
            if |c.payload| == |left| then
              Layout(offset, fs, sum) == Trailer(offset) + Emit(c, sum) && EndOffset(offset, fs) == NextOffset(offset, c)
            else
              && Layout(offset, fs, sum) == Trailer(offset) + Emit(c, sum) + Layout(NextOffset(offset, c), rest, sum)
              && EndOffset(offset, fs) == EndOffset(NextOffset(offset, c), rest)
  {
    var c := Fragment(offset, left, begin);
    var fs := Fragments(offset, left, begin);
    hide Emit;
    if |c.payload| == |left| {
      assert fs == [c] && fs[1..] == [];
      LayoutOne(offset, c, sum);
    } else {
      assert fs[1..] == Fragments(NextOffset(offset, c), left[|c.payload|..], false);
    }
  }

  lemma LayoutOne(offset: nat, c: Chunk, sum: Checksum)
    ensures Layout(offset, [c], sum) == Trailer(offset) + Emit(c, sum) && EndOffset(offset, [c]) == NextOffset(offset, c)
  {
    hide Emit;
    assert [c][1..] == [];
    assert Layout(NextOffset(offset, c), [c][1..], sum) == [];
  }
}
